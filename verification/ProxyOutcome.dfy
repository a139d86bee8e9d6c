/**
 What each event does to each session, said with the sessions' own fields, and the life of one
 session over a run of the main loop.
 */
module ProxyOutcome {
  import opened Sequences
  import opened ProxySessions

  // ---- sessions that are erased ----

  /**
   Exactly the sessions of `p` that satisfy `which` are gone from `q` and the others are as they
   were; exactly the children of the erased sessions were destroyed, once each.
   */
  ghost predicate ErasesExactly(p: Proxy, q: Proxy, which: (nat, Client) -> bool) {
    && (forall u :: u in q.clients <==> u in p.clients && !which(u, p.clients[u]))
    && (forall u :: u in q.clients ==> q.clients[u] == p.clients[u])
    && (forall c :: c in q.live <==> c in p.live && !(exists u: nat :: Owns(p, u, c) && which(u, p.clients[u])))
    && (forall c :: q.destroyed[c] == p.destroyed[c] + if exists u: nat :: Owns(p, u, c) && which(u, p.clients[u]) then 1 else 0)
  }

  lemma EraseAllExactly(p: Proxy, uins: set<nat>, which: (nat, Client) -> bool)
    requires uins <= p.clients.Keys
    requires forall u :: u in p.clients ==> (u in uins <==> which(u, p.clients[u]))
    ensures ErasesExactly(p, EraseAll(p, uins), which)
  {
    var gone := ChildrenOf(p, uins);
    forall u: nat, c: Child | Owns(p, u, c) && which(u, p.clients[u]) ensures c in gone {
      assert u in uins && p.clients[u].childPeer == Some(c);
    }
    forall c: Child | c in gone ensures exists u: nat :: Owns(p, u, c) && which(u, p.clients[u]) {
      var u :| u in uins && p.clients[u].childPeer == Some(c);
      assert Owns(p, u, c) && which(u, p.clients[u]);
    }
  }

  /** A sweep erases exactly the sessions that wait for their host, have a deadline and are past it. */
  lemma TimeoutsExactly(p: Proxy, now: nat)
    ensures ErasesExactly(p, Step(p, CheckTimeouts(now)),
      (u: nat, c: Client) => c.state == HOST_CONNECTING && 0 < c.hostConnectTimeout < now)
  {
    EraseAllExactly(p, Overdue(p, now), (u: nat, c: Client) => c.state == HOST_CONNECTING && 0 < c.hostConnectTimeout < now);
  }

  /** A client that goes away takes all its sessions along. */
  lemma NotificationExactly(p: Proxy, from: Address)
    ensures ErasesExactly(p, Step(p, Event.DisconnectionNotification(from)), (u: nat, c: Client) => c.clientAddress == from)
  {
    EraseAllExactly(p, ByClient(p, from), (u: nat, c: Client) => c.clientAddress == from);
  }

  /** A lost connection also ends the sessions that have it as their host. */
  lemma LossExactly(p: Proxy, from: Address)
    ensures ErasesExactly(p, Step(p, Event.ConnectionLost(from)),
      (u: nat, c: Client) => c.clientAddress == from || c.targetAddress == from)
  {
    EraseAllExactly(p, ByEither(p, from), (u: nat, c: Client) => c.clientAddress == from || c.targetAddress == from);
  }

  lemma ShutdownExactly(p: Proxy)
    ensures ErasesExactly(p, Step(p, Shutdown), (u: nat, c: Client) => true)
  {
    EraseAllExactly(p, p.clients.Keys, (u: nat, c: Client) => true);
  }

  /** The client's own request erases only the first of its sessions in key order, and nothing if it has none. */
  lemma DisconnectExactly(p: Proxy, from: Address)
    ensures ErasesExactly(p, Step(p, DisconnectMessage(from)), (u: nat, c: Client) =>
      c.clientAddress == from && forall v :: v in p.clients && p.clients[v].clientAddress == from ==> u <= v)
  {
    var which := (u: nat, c: Client) =>
      c.clientAddress == from && forall v :: v in p.clients && p.clients[v].clientAddress == from ==> u <= v;
    var found := ByClient(p, from);
    if found == {} {
      forall u | u in p.clients ensures !which(u, p.clients[u]) { assert u !in found; }
    } else {
      var m := First(found);
      EraseIsEraseAll(p, m);
      forall u | u in p.clients ensures u in {m} <==> which(u, p.clients[u]) {
        if which(u, p.clients[u]) {
          assert u in found && m in found;
          assert m in p.clients && p.clients[m].clientAddress == from;
        }
        if u == m {
          forall v | v in p.clients && p.clients[v].clientAddress == from ensures u <= v { assert v in found; }
        }
      }
      EraseAllExactly(p, {m}, which);
    }
  }

  // ---- sessions that are opened or changed ----

  /** Only session `u` differs between `p` and `q`, where it is `c`. */
  ghost predicate Becomes(p: Proxy, q: Proxy, u: nat, c: Client) {
    && u in q.clients && q.clients[u] == c
    && (forall v :: v != u ==> (v in q.clients <==> v in p.clients))
    && (forall v :: v != u && v in p.clients ==> q.clients[v] == p.clients[v])
  }

  /**
   Opening a session for `guid`: with a working child it is stored under the low half of the GUID,
   otherwise nothing is.
   */
  ghost predicate Opens(p: Proxy, q: Proxy, guid: nat, from: Address, now: nat, creation: Creation, child: Child) {
    if creation == CREATED then
      var u := guid % 0x1_0000_0000;
      && Becomes(p, q, u, Client(Some(child), guid, u, from, UNASSIGNED_SYSTEM_ADDRESS, PROXY_CONNECTING, now, 0))
      && q.live == p.live + {child} && q.destroyed == p.destroyed
    else
      && q.clients == p.clients && q.live == p.live
      && (forall c :: q.destroyed[c] == p.destroyed[c] + if c == child && creation != NO_INSTANCE then 1 else 0)
  }

  lemma RegisterOpens(p: Proxy, guid: nat, from: Address, now: nat, creation: Creation, child: Child)
    ensures Opens(p, Step(p, ClientRegister(guid, from, now, creation, child)), guid, from, now, creation, child)
    ensures Opens(p, Step(p, ClientOnline(guid, from, creation, child)), guid, from, 0, creation, child)
    ensures guid % 0x1_0000_0000 !in p.clients ==>
      Opens(p, Step(p, NewIncoming(guid, from, now, creation, child)), guid, from, now, creation, child)
  {}

  /** When a session entered its state `state`: now, unless it was in it already. */
  function Since(c: Client, state: ConnectionState, now: nat): nat {
    if c.state == state then c.stateStartTime else now
  }

  /** `q` is `p` after the one session `u` changed in address, state and deadline; a missing session changes nothing. */
  ghost predicate Changes(p: Proxy, q: Proxy, u: nat, target: Address, state: ConnectionState, now: nat, deadline: nat) {
    && q.live == p.live && q.destroyed == p.destroyed
    && (u !in p.clients ==> q.clients == p.clients)
    && (u in p.clients ==> var c := p.clients[u];
        Becomes(p, q, u, Client(c.childPeer, c.clientGuid, c.uin, c.clientAddress, target, state,
                                Since(c, state, now), deadline)))
  }

  /**
   A host that registers gets 20 seconds from now on; one that connects itself, or is punched
   through, keeps its deadline.
   */
  lemma HostChanges(p: Proxy, guid: nat, from: Address, now: nat, creation: Creation, child: Child)
    ensures var u := guid % 0x1_0000_0000;
      && Changes(p, Step(p, HostRegister(guid, from, now)), u, from, HOST_CONNECTING, now, now + 20)
      && (u in p.clients ==>
          Changes(p, Step(p, NewIncoming(guid, from, now, creation, child)), u,
                  from, STATE_CONNECTED, now, p.clients[u].hostConnectTimeout))
      && (u in p.clients ==>
          Changes(p, Step(p, PunchSucceeded(guid, now)), u,
                  p.clients[u].targetAddress, PUNCH_CONNECTED, now, p.clients[u].hostConnectTimeout))
      && (u !in p.clients ==> Step(p, PunchSucceeded(guid, now)) == p)
  {}

  /**
   The answers of a child: accepted, the session is connected and has no deadline; gone, exactly
   this child is destroyed.
   */
  lemma ChildChanges(p: Proxy, u: nat, from: Address, now: nat)
    requires ProxyOk(p)
    ensures u in p.clients && p.clients[u].childPeer.Some? ==>
      Changes(p, Step(p, ChildAccepted(u, from, now)), u, from, STATE_CONNECTED, now, 0)
    ensures u in p.clients && p.clients[u].childPeer.Some? ==>
      var q, c := Step(p, ChildGone(u)), p.clients[u].childPeer.value;
      && Becomes(p, q, u, p.clients[u].(childPeer := None))
      && q.live == p.live - {c} && q.destroyed[c] == 1
      && (forall d :: d != c ==> q.destroyed[d] == p.destroyed[d])
    ensures u !in p.clients || p.clients[u].childPeer.None? ==>
      Step(p, ChildAccepted(u, from, now)) == p && Step(p, ChildGone(u)) == p
  {
    if u in p.clients && p.clients[u].childPeer.Some? { assert Owns(p, u, p.clients[u].childPeer.value); }
  }

  // ---- the life of one session ----

  /** The event is about session `u`, which is `c`, other than by its deadline. */
  ghost predicate Concerns(u: nat, c: Client, e: Event) {
    match e
    case ClientRegister(guid, _, _, _, _) => guid % 0x1_0000_0000 == u
    case ClientOnline(guid, _, _, _) => guid % 0x1_0000_0000 == u
    case NewIncoming(guid, _, _, _, _) => guid % 0x1_0000_0000 == u
    case HostRegister(guid, _, _) => guid % 0x1_0000_0000 == u
    case PunchSucceeded(guid, _) => guid % 0x1_0000_0000 == u
    case DisconnectMessage(from) => c.clientAddress == from
    case DisconnectionNotification(from) => c.clientAddress == from
    case ConnectionLost(from) => c.clientAddress == from || c.targetAddress == from
    case CheckTimeouts(_) => false
    case ChildAccepted(uin, _, _) => uin == u
    case ChildGone(uin) => uin == u
    case Shutdown => true
  }

  /** A sweep after the deadline of a session that waits for its host. */
  ghost predicate Ends(c: Client, e: Event) {
    e.CheckTimeouts? && c.state == HOST_CONNECTING && 0 < c.hostConnectTimeout < e.now
  }

  /** An event that does not concern a session leaves it as it is, or ends it by its deadline. */
  lemma StepLeaves(p: Proxy, e: Event, u: nat)
    requires u in p.clients && !Concerns(u, p.clients[u], e)
    ensures u in Step(p, e).clients <==> !Ends(p.clients[u], e)
    ensures u in Step(p, e).clients ==> Step(p, e).clients[u] == p.clients[u]
  {
    match e
    case DisconnectMessage(from) => DisconnectExactly(p, from);
    case DisconnectionNotification(from) => NotificationExactly(p, from);
    case ConnectionLost(from) => LossExactly(p, from);
    case CheckTimeouts(now) => TimeoutsExactly(p, now);
    case _ =>
  }

  /** No event of the run concerns session `u`, which is `c`. */
  ghost predicate Undisturbed(u: nat, c: Client, es: seq<Event>) {
    forall i :: 0 <= i < |es| ==> !Concerns(u, c, es[i])
  }

  lemma {:induction false} AbsentStays(p: Proxy, es: seq<Event>, q: Proxy, u: nat, c: Client)
    requires Run(p, es, q) && u !in p.clients && Undisturbed(u, c, es)
    ensures u !in q.clients
    decreases |es|
  {
    if es != [] {
      assert !Concerns(u, c, es[0]);
      assert u !in Step(p, es[0]).clients;
      AbsentStays(Step(p, es[0]), es[1..], q, u, c);
    }
  }

  /**
   Over any run without events about it, a session is still there, and unchanged, exactly when no
   sweep of the run came after its deadline.
   */
  lemma {:induction false} SessionFate(p: Proxy, es: seq<Event>, q: Proxy, u: nat)
    requires Run(p, es, q) && u in p.clients && Undisturbed(u, p.clients[u], es)
    ensures u in q.clients <==> forall i :: 0 <= i < |es| ==> !Ends(p.clients[u], es[i])
    ensures u in q.clients ==> q.clients[u] == p.clients[u]
    decreases |es|
  {
    if es != [] {
      var c, p' := p.clients[u], Step(p, es[0]);
      assert forall i :: 0 <= i < |es[1..]| ==> es[1..][i] == es[i + 1];
      assert !Concerns(u, c, es[0]);
      StepLeaves(p, es[0], u);
      hide Step, Concerns, Ends;
      if u in p'.clients {
        SessionFate(p', es[1..], q, u);
        assert forall i :: 0 < i < |es| ==> es[i] == es[1..][i - 1];
      } else {
        AbsentStays(p', es[1..], q, u, c);
      }
    }
  }

  /**
   Every host gets its 20 seconds and no more: after the host of a session registered at `start`,
   and with no further events about the session, it is there exactly as long as no sweep came more
   than 20 seconds later.
   */
  lemma {:induction false} HostGetsItsTime(p: Proxy, guid: nat, from: Address, start: nat, es: seq<Event>, q: Proxy,
                                           u: nat, c: Client)
    requires u == guid % 0x1_0000_0000 && u in p.clients
    requires c == Step(p, HostRegister(guid, from, start)).clients[u]
    requires Run(Step(p, HostRegister(guid, from, start)), es, q) && Undisturbed(u, c, es)
    ensures u in q.clients <==> forall i :: 0 <= i < |es| && es[i].CheckTimeouts? ==> es[i].now <= start + 20
    ensures u in q.clients ==> q.clients[u] == c && c.targetAddress == from && c.childPeer == p.clients[u].childPeer
  {
    SessionFate(Step(p, HostRegister(guid, from, start)), es, q, u);
    forall i | 0 <= i < |es| ensures Ends(c, es[i]) <==> es[i].CheckTimeouts? && es[i].now > start + 20 {}
  }

  /** A session whose child was accepted is kept by every run without events about it, however late its sweeps. */
  lemma {:induction false} AcceptedStays(p: Proxy, u: nat, from: Address, now: nat, es: seq<Event>, q: Proxy, c: Client)
    requires u in p.clients && p.clients[u].childPeer.Some?
    requires c == Step(p, ChildAccepted(u, from, now)).clients[u]
    requires Run(Step(p, ChildAccepted(u, from, now)), es, q) && Undisturbed(u, c, es)
    ensures u in q.clients && q.clients[u] == c && c.state == STATE_CONNECTED
  {
    SessionFate(Step(p, ChildAccepted(u, from, now)), es, q, u);
  }
}
