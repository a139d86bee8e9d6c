/**
 What admission, packets, answers and the update sweep must do, slot by slot: who is let in, which
 mode a slot is in afterwards, and which slots are left alone.
 */
module HandshakeOutcome {
  import opened Sequences
  import opened RemoteSystems
  import opened Handshake
  import opened UpdateSweep

  // ---- admission ----

  /** The systems that count against `maximumIncomingConnections`. */
  ghost function Incoming(t: Table): set<nat> {
    set i: nat | i < |t.slots| && t.slots[i].isActive && t.slots[i].mode == CONNECTED && !t.slots[i].weInitiated
  }

  ghost function IncomingAmong(t: Table, active: seq<nat>): set<nat> {
    set i: nat | i in active && i < |t.slots| && i in Incoming(t)
  }

  /** A connection from the same IP is younger than 100 ms. */
  ghost predicate SameIpRecently(t: Table, sa: Address, now: nat) {
    exists i: nat :: (
      && i < |t.slots| && t.slots[i].isActive
      && t.slots[i].address.Address? && sa.Address? && t.slots[i].address.ip == sa.ip
      && t.slots[i].connectionTime <= now < t.slots[i].connectionTime + 100)
  }

  lemma {:induction false} CountsIncoming(t: Table, active: seq<nat>)
    requires InRange(active, |t.slots|) && NoDuplicates(active)
    ensures RemoteInitiated(t.slots, active) == |IncomingAmong(t, active)|
  {
    if active != [] {
      var i, rest := active[0], active[1..];
      assert forall k :: 0 <= k < |rest| ==> rest[k] == active[k + 1];
      CountsIncoming(t, rest);
      assert i !in rest;
      assert i in active;
      assert IncomingAmong(t, active) == IncomingAmong(t, rest) + (if i in Incoming(t) then {i} else {});
      assert i !in IncomingAmong(t, rest);
    }
  }

  lemma RemoteInitiatedIsCardinality(t: Table, h: Hash)
    requires TableOk(t, h)
    ensures RemoteInitiated(t.slots, t.active) == |Incoming(t)|
  {
    CountsIncoming(t, t.active);
    assert IncomingAmong(t, t.active) == Incoming(t);
  }

  lemma RecentlyIsSameIp(cfg: Config, t: Table, sa: Address, now: nat, h: Hash)
    requires TableOk(t, h) && sa != UNASSIGNED_SYSTEM_ADDRESS
    ensures ConnectedRecently(cfg, t, sa, now) <==>
      cfg.limitConnectionFrequencyFromTheSameIP && !cfg.loopback(sa) && SameIpRecently(t, sa, now)
  {
    if cfg.limitConnectionFrequencyFromTheSameIP && !cfg.loopback(sa) {
      if ConnectedRecently(cfg, t, sa, now) {
        var i :| 0 <= i < |t.slots| && t.slots[i].isActive && SameIp(t.slots[i].address, sa)
          && t.slots[i].connectionTime <= now < t.slots[i].connectionTime + 100;
        assert t.slots[i].address != UNASSIGNED_SYSTEM_ADDRESS;
      }
      if SameIpRecently(t, sa, now) {
        var i: nat :| i < |t.slots| && t.slots[i].isActive
          && t.slots[i].address.Address? && sa.Address? && t.slots[i].address.ip == sa.ip
          && t.slots[i].connectionTime <= now < t.slots[i].connectionTime + 100;
        assert SameIp(t.slots[i].address, sa);
      }
    }
  }

  /** Refused because the limit on connections from one IP applies. */
  ghost predicate TooSoon(cfg: Config, t: Table, sa: Address, now: nat) {
    cfg.limitConnectionFrequencyFromTheSameIP && !cfg.loopback(sa) && SameIpRecently(t, sa, now)
  }

  /**
   A client is admitted exactly if neither its address nor its GUID belongs to an active system,
   fewer than the maximum of incoming systems are connected, and no connection from its IP is too
   recent. Each refusal has its exact reason too.
   */
  lemma AdmitExactly(cfg: Config, t: Table, sa: Address, guid: Guid, now: nat)
    requires TableOk(t, cfg.hash) && sa != UNASSIGNED_SYSTEM_ADDRESS
    ensures var outcome := Admit(cfg, t, sa, guid, now);
      var known, room := AddressInUse(t, sa) || GuidInUse(t, guid), |Incoming(t)| < cfg.maximumIncomingConnections;
      && (outcome == ALLOWED <==> !known && room && !TooSoon(cfg, t, sa, now))
      && (outcome == NO_FREE_INCOMING_CONNECTIONS <==> !known && !room)
      && (outcome == IP_RECENTLY_CONNECTED <==> !known && room && TooSoon(cfg, t, sa, now))
      && (outcome == ALREADY_CONNECTED || outcome == SAME_ANSWER <==> known)
      && (outcome == SAME_ANSWER <==> exists i: nat ::
           ActiveAt(t, i, sa) && FromGuid(t, guid) == Some(i) && t.slots[i].mode == UNVERIFIED_SENDER)
  {
    DuplicateRequest(cfg, t, sa, guid, now);
    InUseIsFound(t, cfg.hash, sa);
    GuidInUseIsFound(t, guid);
    RemoteInitiatedIsCardinality(t, cfg.hash);
    RecentlyIsSameIp(cfg, t, sa, now, cfg.hash);
    hide FromAddressHashed, FromGuid, ConnectedRecently, SameIpRecently, AddressInUse, GuidInUse, TableOk;
    hide Incoming, RemoteInitiated;
  }

  /** Slot `i` is the first free one. */
  ghost predicate FirstFreeSlot(t: Table, i: nat) {
    i < |t.slots| && !t.slots[i].isActive && forall j: nat :: j < i ==> t.slots[j].isActive
  }

  lemma AssignOutcome(t: Table, h: Hash, sa: Address, guid: Guid, mode: ConnectMode, now: nat, i: nat)
    requires Shaped(t) && FirstFreeSlot(t, i)
    ensures var u := Assign(t, h, sa, guid, mode, now);
      u.slots == t.slots[i := Slot(true, sa, guid, mode, false, now)] && u.active == t.active + [i]
  {
    AssignShape(t, h, sa, guid, mode, now);
    assert FirstFree(t.slots, 0) == i;
  }

  /** An admitted client gets the first free slot, unverified; with none free nothing happens. */
  lemma AdmittedSlot(cfg: Config, t: Table, sa: Address, guid: Guid, now: nat)
    requires TableOk(t, cfg.hash) && sa != UNASSIGNED_SYSTEM_ADDRESS
    ensures var u := OnRequest2(cfg, t, sa, guid, now);
      && (Admit(cfg, t, sa, guid, now) != ALLOWED ==> u == t)
      && (Admit(cfg, t, sa, guid, now) == ALLOWED ==>
          && (forall i: nat :: FirstFreeSlot(t, i) ==>
               u.slots == t.slots[i := Slot(true, sa, guid, UNVERIFIED_SENDER, false, now)] && u.active == t.active + [i])
          && ((forall i: nat :: !FirstFreeSlot(t, i)) ==> u == t))
  {
    hide Admit, Assign;
    AssignShape(t, cfg.hash, sa, guid, UNVERIFIED_SENDER, now);
    forall i: nat | FirstFreeSlot(t, i)
      ensures var u := Assign(t, cfg.hash, sa, guid, UNVERIFIED_SENDER, now);
        u.slots == t.slots[i := Slot(true, sa, guid, UNVERIFIED_SENDER, false, now)] && u.active == t.active + [i]
    {
      AssignOutcome(t, cfg.hash, sa, guid, UNVERIFIED_SENDER, now, i);
    }
    var f := FirstFree(t.slots, 0);
    if f < |t.slots| { assert FirstFreeSlot(t, f); }
  }

  // ---- packets ----

  /** Only the mode of slot `i` changes. */
  ghost predicate ModeBecomes(p: Peer, q: Peer, i: nat, mode: ConnectMode) {
    && i < |p.table.slots|
    && q == p.(table := p.table.(slots := p.table.slots[i := p.table.slots[i].(mode := mode)]))
  }

  /** Slot `i` is closed, and nothing else happens to any slot. */
  ghost predicate Closed(p: Peer, q: Peer, i: nat) {
    && i < |p.table.slots|
    && q == p.(table := q.table)
    && q.table.slots == p.table.slots[i := p.table.slots[i].(isActive := false, guid := UNASSIGNED_RAKNET_GUID)]
    && (forall j :: j in q.table.active <==> j in p.table.active && j != i)
  }

  lemma CloseOutcome(t: Table, h: Hash, i: nat)
    requires TableOk(t, h) && i < |t.slots| && t.slots[i].isActive
    ensures Closed(Peer(t, []), Peer(Close(t, h, t.slots[i].address), []), i)
  {
    var sa := t.slots[i].address;
    assert ActiveAt(t, i, sa);
    OneActive(t, h, sa);
    RemoveActiveMembers(t, h, sa, i);
  }

  /** A request is accepted exactly for the right password, by a slot that waits for one. */
  lemma RequestIsAnswered(cfg: Config, p: Peer, i: nat, password: seq<bv8>)
    requires TableOk(p.table, cfg.hash) && Enabled(cfg, p, Deliver(i, ConnectionRequest(password)))
    ensures var mode, q := p.table.slots[i].mode, Step(cfg, p, Deliver(i, ConnectionRequest(password)));
      && (mode == UNVERIFIED_SENDER || mode == REQUESTED_CONNECTION ==>
           ModeBecomes(p, q, i, if password == cfg.password then HANDLING_CONNECTION_REQUEST else DISCONNECT_ASAP_SILENTLY))
      && (mode != UNVERIFIED_SENDER && mode != REQUESTED_CONNECTION ==> q == p)
  {}

  /** An unverified sender is closed for anything else. */
  lemma NonsenseIsClosed(cfg: Config, p: Peer, i: nat, packet: Packet)
    requires TableOk(p.table, cfg.hash) && Enabled(cfg, p, Deliver(i, packet))
    requires p.table.slots[i].mode == UNVERIFIED_SENDER && !packet.ConnectionRequest?
    ensures Closed(p, Step(cfg, p, Deliver(i, packet)), i)
  {
    CloseOutcome(p.table, cfg.hash, i);
  }

  /** From any other sender every packet has exactly its own effect on the mode. */
  lemma PacketIsAnswered(cfg: Config, p: Peer, i: nat, packet: Packet)
    requires TableOk(p.table, cfg.hash) && Enabled(cfg, p, Deliver(i, packet))
    requires p.table.slots[i].mode != UNVERIFIED_SENDER
    ensures var mode, q := p.table.slots[i].mode, Step(cfg, p, Deliver(i, packet));
      && (packet.NewIncomingConnection? ==>
           if mode == HANDLING_CONNECTION_REQUEST then ModeBecomes(p, q, i, CONNECTED) else q == p)
      && (packet.ConnectionRequestAccepted? ==>
           if mode == HANDLING_CONNECTION_REQUEST || mode == REQUESTED_CONNECTION
           then ModeBecomes(p, q, i, CONNECTED) else q == p)
      && (packet.InvalidPassword? ==>
           if mode == REQUESTED_CONNECTION then ModeBecomes(p, q, i, DISCONNECT_ASAP_SILENTLY) else q == p)
      && (packet.DisconnectionNotification? ==> ModeBecomes(p, q, i, DISCONNECT_ON_NO_ACK))
      && (packet.Payload? ==> q == p)
  {}

  // ---- our own attempts, commands and timeouts ----

  /** What an answer leaves of the table when nobody uses its address yet: a slot of ours, unless it comes too soon. */
  lemma ReplyOpens(cfg: Config, p: Peer, sa: Address, guid: Guid, now: nat)
    requires TableOk(p.table, cfg.hash) && sa != UNASSIGNED_SYSTEM_ADDRESS
    requires sa in p.requested && !AddressInUse(p.table, sa)
    ensures var t, u := p.table, Step(cfg, p, Reply2(sa, guid, now)).table;
      && (TooSoon(cfg, t, sa, now) ==> u == t)
      && (!TooSoon(cfg, t, sa, now) ==>
          && (forall i: nat :: FirstFreeSlot(t, i) ==>
               u.slots == t.slots[i := Slot(true, sa, guid, REQUESTED_CONNECTION, true, now)] && u.active == t.active + [i])
          && ((forall i: nat :: !FirstFreeSlot(t, i)) ==> u == t))
  {
    var t := p.table;
    InUseIsFound(t, cfg.hash, sa);
    RecentlyIsSameIp(cfg, t, sa, now, cfg.hash);
    hide Assign, ConnectedRecently, SameIpRecently, HashIndex, AddressInUse, TableOk;
    var f := FirstFree(t.slots, 0);
    if f < |t.slots| {
      assert FirstFreeSlot(t, f);
      AssignOutcome(t, cfg.hash, sa, guid, UNVERIFIED_SENDER, now, f);
    }
  }

  /** An answer counts only for a pending attempt, which it ends; it takes over the active slot of its address. */
  lemma {:induction false} ReplyIsUsed(cfg: Config, p: Peer, sa: Address, guid: Guid, now: nat, i: nat)
    requires TableOk(p.table, cfg.hash) && sa != UNASSIGNED_SYSTEM_ADDRESS
    ensures var t, q := p.table, Step(cfg, p, Reply2(sa, guid, now));
      && (sa !in p.requested ==> q == p)
      && (sa in p.requested ==> q.requested == Remove(p.requested, sa))
      && (sa in p.requested && ActiveAt(t, i, sa) ==>
          q.table == t.(slots := t.slots[i := t.slots[i].(weInitiated := true, mode := REQUESTED_CONNECTION)]))
  {
    InUseIsFound(p.table, cfg.hash, sa);
    OneActive(p.table, cfg.hash, sa);
    hide Assign, ConnectedRecently, HashIndex;
  }

  /** `Remove` takes out one occurrence of the address. */
  lemma {:induction false} RemovedOnce(queue: seq<Address>, sa: Address)
    ensures multiset(Remove(queue, sa)) == multiset(queue) - multiset{sa}
  {
    if queue != [] {
      assert queue == [queue[0]] + queue[1..];
      RemovedOnce(queue[1..], sa);
    }
  }

  /** Starting an attempt, flagging, dropping and closing do what they say, and to one slot only. */
  lemma CommandOutcome(cfg: Config, p: Peer, sa: Address, i: nat)
    requires TableOk(p.table, cfg.hash) && sa != UNASSIGNED_SYSTEM_ADDRESS
    ensures Step(cfg, p, Connect(sa)) ==
      if AddressInUse(p.table, sa) || sa in p.requested then p else p.(requested := p.requested + [sa])
    ensures ActiveAt(p.table, i, sa) ==>
      && ModeBecomes(p, Step(cfg, p, Flag(sa)), i, DISCONNECT_ASAP)
      && Closed(p, Step(cfg, p, CloseNow(sa)), i)
      && Closed(p, Step(cfg, p, Drop(i)), i)
    ensures !AddressInUse(p.table, sa) ==>
      Step(cfg, p, Flag(sa)) == p && Step(cfg, p, CloseNow(sa)) == p
  {
    var t := p.table;
    InUseIsFound(t, cfg.hash, sa);
    HashAgreesWithScan(t, cfg.hash, sa);
    OneActive(t, cfg.hash, sa);
    if ActiveAt(t, i, sa) { CloseOutcome(t, cfg.hash, i); }
    if !AddressInUse(t, sa) {
      var r := HashIndex(t, cfg.hash, sa);
      assert r.Some? ==> !ActiveAt(t, r.value, sa);
    }
  }

  /** Rerouting gives the first active slot with the GUID its new address, and changes nothing else about any slot. */
  lemma RerouteOutcome(cfg: Config, p: Peer, guid: Guid, sa: Address, i: nat)
    requires TableOk(p.table, cfg.hash) && Enabled(cfg, p, Reroute(guid, sa)) && guid != UNASSIGNED_RAKNET_GUID
    ensures var t, q := p.table, Step(cfg, p, Reroute(guid, sa));
      && q.requested == p.requested && q.table.active == t.active
      && (i < |t.slots| && t.slots[i].isActive && t.slots[i].guid == guid
          && (forall j: nat :: j < i ==> !(t.slots[j].isActive && t.slots[j].guid == guid)) ==>
            q.table.slots == t.slots[i := t.slots[i].(address := sa)])
      && (!GuidInUse(t, guid) ==> q == p)
  {
    var t := p.table;
    GuidInUseIsFound(t, guid);
    var from := FromGuid(t, guid);
    if from.Some? {
      EntryIsFound(t, cfg.hash, from.value);
      RehashSlots(t, cfg.hash, sa, from.value);
    }
    hide Rehash, TableOk;
  }

  // ---- one client's way in ----

  /** The event may touch slot `i`. */
  ghost predicate Concerns(p: Peer, e: Event, i: nat)
    requires i < |p.table.slots|
  {
    match e
    case Deliver(k, _) => k == i
    case Drop(k) => k == i
    case CloseNow(sa) => sa == p.table.slots[i].address
    case Flag(sa) => sa == p.table.slots[i].address
    case Reply2(sa, _, _) => sa == p.table.slots[i].address
    case Reroute(guid, _) => FromGuid(p.table, guid) == Some(i)
    case _ => false
  }

  lemma PacketLeavesOthers(cfg: Config, t: Table, k: nat, packet: Packet, i: nat)
    requires TableOk(t, cfg.hash) && k < |t.slots| && t.slots[k].isActive && i < |t.slots| && i != k
    ensures |OnPacket(cfg, t, k, packet).slots| == |t.slots| && OnPacket(cfg, t, k, packet).slots[i] == t.slots[i]
  {
    CloseOutcome(t, cfg.hash, k);
    hide Close;
  }

  lemma OpeningLeavesOthers(cfg: Config, p: Peer, e: Event, i: nat)
    requires TableOk(p.table, cfg.hash) && Enabled(cfg, p, e) && (e.Request2? || e.Reply2?)
    requires i < |p.table.slots| && p.table.slots[i].isActive && !Concerns(p, e, i)
    ensures |Step(cfg, p, e).table.slots| == |p.table.slots| && Step(cfg, p, e).table.slots[i] == p.table.slots[i]
  {
    hide Assign, Admit, ConnectedRecently;
    AssignShape(p.table, cfg.hash, e.sa, e.guid, UNVERIFIED_SENDER, e.now);
  }

  /** Any other event leaves an active slot exactly as it is. */
  lemma StepLeavesOthers(cfg: Config, p: Peer, e: Event, i: nat)
    requires TableOk(p.table, cfg.hash) && Enabled(cfg, p, e)
    requires i < |p.table.slots| && p.table.slots[i].isActive && !Concerns(p, e, i)
    ensures |Step(cfg, p, e).table.slots| == |p.table.slots| && Step(cfg, p, e).table.slots[i] == p.table.slots[i]
  {
    var t := p.table;
    StepKeepsSize(cfg, p, e);
    match e
    case Request2(sa, guid, now) => OpeningLeavesOthers(cfg, p, e, i);
    case Reply2(sa, guid, now) => OpeningLeavesOthers(cfg, p, e, i);
    case Deliver(k, packet) => hide OnPacket; PacketLeavesOthers(cfg, t, k, packet, i);
    case Drop(k) => hide Close; CloseOutcome(t, cfg.hash, k);
    case Reroute(guid, sa) =>
      var from := FromGuid(t, guid);
      if from.Some? {
        EntryIsFound(t, cfg.hash, from.value);
        RehashSlots(t, cfg.hash, sa, from.value);
        hide Rehash;
      }
    case _ =>
  }

  /** No event between states `m` and `n` concerns slot `i`. */
  ghost predicate Undisturbed(ps: seq<Peer>, es: seq<Event>, i: nat, m: nat, n: nat)
    requires |ps| == |es| + 1 && n < |ps|
  {
    forall k: nat :: m <= k < n ==> i < |ps[k].table.slots| && !Concerns(ps[k], es[k], i)
  }

  lemma {:induction false} SlotStays(cfg: Config, ps: seq<Peer>, es: seq<Event>, i: nat, m: nat, n: nat)
    requires Trace(cfg, ps, es) && m <= n < |ps| && i < |ps[m].table.slots| && ps[m].table.slots[i].isActive
    requires Undisturbed(ps, es, i, m, n)
    ensures i < |ps[n].table.slots| && ps[n].table.slots[i] == ps[m].table.slots[i]
    decreases n
  {
    hide Step, Enabled;
    if m < n {
      SlotStays(cfg, ps, es, i, m, n - 1);
      TraceKeepsTable(cfg, ps, es, n - 1);
      StepLeavesOthers(cfg, ps[n - 1], es[n - 1], i);
    }
  }

  /** The first step of a client: its slot once it is admitted. */
  lemma ClientIsAdmitted(cfg: Config, p: Peer, sa: Address, guid: Guid, now: nat, i: nat)
    requires TableOk(p.table, cfg.hash) && Enabled(cfg, p, Request2(sa, guid, now)) && FirstFreeSlot(p.table, i)
    requires !AddressInUse(p.table, sa) && !GuidInUse(p.table, guid)
    requires |Incoming(p.table)| < cfg.maximumIncomingConnections && !TooSoon(cfg, p.table, sa, now)
    ensures var u := Step(cfg, p, Request2(sa, guid, now)).table;
      i < |u.slots| && u.slots[i] == Slot(true, sa, guid, UNVERIFIED_SENDER, false, now)
  {
    hide TooSoon, Incoming, Admit, AddressInUse, GuidInUse;
    AdmitExactly(cfg, p.table, sa, guid, now);
    AdmittedSlot(cfg, p.table, sa, guid, now);
    hide OnRequest2;
  }

  lemma PasswordIsAccepted(cfg: Config, p: Peer, i: nat)
    requires TableOk(p.table, cfg.hash) && Enabled(cfg, p, Deliver(i, ConnectionRequest(cfg.password)))
    requires p.table.slots[i].mode == UNVERIFIED_SENDER
    ensures ModeBecomes(p, Step(cfg, p, Deliver(i, ConnectionRequest(cfg.password))), i, HANDLING_CONNECTION_REQUEST)
  {
    RequestIsAnswered(cfg, p, i, cfg.password);
  }

  lemma HandlingIsConnected(cfg: Config, p: Peer, i: nat)
    requires TableOk(p.table, cfg.hash) && Enabled(cfg, p, Deliver(i, NewIncomingConnection))
    requires p.table.slots[i].mode == HANDLING_CONNECTION_REQUEST
    ensures ModeBecomes(p, Step(cfg, p, Deliver(i, NewIncomingConnection)), i, CONNECTED)
  {
    PacketIsAnswered(cfg, p, i, NewIncomingConnection);
  }

  /**
   A client gets in: if its REQUEST_2 is admitted to slot `i`, and later the right password and
   then NEW_INCOMING_CONNECTION arrive for that slot, with any events in between that do not
   concern it, the slot is connected, under the client's address and GUID.
   */
  lemma ClientConnects(cfg: Config, ps: seq<Peer>, es: seq<Event>, a: nat, b: nat, c: nat,
                       sa: Address, guid: Guid, now: nat, i: nat)
    requires Trace(cfg, ps, es) && a < b < c < |es|
    requires es[a] == Request2(sa, guid, now) && FirstFreeSlot(ps[a].table, i)
    requires !AddressInUse(ps[a].table, sa) && !GuidInUse(ps[a].table, guid)
    requires |Incoming(ps[a].table)| < cfg.maximumIncomingConnections && !TooSoon(cfg, ps[a].table, sa, now)
    requires es[b] == Deliver(i, ConnectionRequest(cfg.password)) && es[c] == Deliver(i, NewIncomingConnection)
    requires Undisturbed(ps, es, i, a + 1, b) && Undisturbed(ps, es, i, b + 1, c)
    ensures i < |ps[c + 1].table.slots| && ps[c + 1].table.slots[i] == Slot(true, sa, guid, CONNECTED, false, now)
  {
    hide TooSoon, Incoming, AddressInUse, GuidInUse, Step, Enabled, FirstFreeSlot, Undisturbed;
    TraceKeepsTable(cfg, ps, es, a);
    TraceKeepsTable(cfg, ps, es, b);
    TraceKeepsTable(cfg, ps, es, c);
    assert ps[a + 1] == Step(cfg, ps[a], es[a]) && ps[b + 1] == Step(cfg, ps[b], es[b]) && ps[c + 1] == Step(cfg, ps[c], es[c]);
    assert Enabled(cfg, ps[a], es[a]) && Enabled(cfg, ps[b], es[b]) && Enabled(cfg, ps[c], es[c]);
    hide Trace, TableOk;
    ClientIsAdmitted(cfg, ps[a], sa, guid, now, i);
    SlotStays(cfg, ps, es, i, a + 1, b);
    PasswordIsAccepted(cfg, ps[b], i);
    SlotStays(cfg, ps, es, i, b + 1, c);
    HandlingIsConnected(cfg, ps[c], i);
  }

  lemma AcceptedIsConnected(cfg: Config, p: Peer, i: nat)
    requires TableOk(p.table, cfg.hash) && Enabled(cfg, p, Deliver(i, ConnectionRequestAccepted))
    requires p.table.slots[i].mode == REQUESTED_CONNECTION
    ensures ModeBecomes(p, Step(cfg, p, Deliver(i, ConnectionRequestAccepted)), i, CONNECTED)
  {
    PacketIsAnswered(cfg, p, i, ConnectionRequestAccepted);
  }

  lemma AttemptOpens(cfg: Config, p: Peer, sa: Address, guid: Guid, now: nat, i: nat)
    requires TableOk(p.table, cfg.hash) && Enabled(cfg, p, Reply2(sa, guid, now)) && FirstFreeSlot(p.table, i)
    requires sa in p.requested && !AddressInUse(p.table, sa) && !TooSoon(cfg, p.table, sa, now)
    ensures var u := Step(cfg, p, Reply2(sa, guid, now)).table;
      i < |u.slots| && u.slots[i] == Slot(true, sa, guid, REQUESTED_CONNECTION, true, now)
  {
    ReplyOpens(cfg, p, sa, guid, now);
    hide Step, TableOk, AddressInUse, TooSoon;
  }

  /** And an attempt of our own gets out: its answer takes slot `i`, and the acceptance connects that. */
  lemma AttemptConnects(cfg: Config, ps: seq<Peer>, es: seq<Event>, a: nat, b: nat,
                        sa: Address, guid: Guid, now: nat, i: nat)
    requires Trace(cfg, ps, es) && a < b < |es|
    requires es[a] == Reply2(sa, guid, now) && sa in ps[a].requested && FirstFreeSlot(ps[a].table, i)
    requires !AddressInUse(ps[a].table, sa) && !TooSoon(cfg, ps[a].table, sa, now)
    requires es[b] == Deliver(i, ConnectionRequestAccepted) && Undisturbed(ps, es, i, a + 1, b)
    ensures i < |ps[b + 1].table.slots| && ps[b + 1].table.slots[i] == Slot(true, sa, guid, CONNECTED, true, now)
  {
    hide TooSoon, AddressInUse, Step, Enabled, FirstFreeSlot, Undisturbed;
    TraceKeepsTable(cfg, ps, es, a);
    TraceKeepsTable(cfg, ps, es, b);
    assert ps[a + 1] == Step(cfg, ps[a], es[a]) && ps[b + 1] == Step(cfg, ps[b], es[b]);
    assert Enabled(cfg, ps[a], es[a]) && Enabled(cfg, ps[b], es[b]);
    hide Trace, TableOk;
    AttemptOpens(cfg, ps[a], sa, guid, now, i);
    SlotStays(cfg, ps, es, i, a + 1, b);
    AcceptedIsConnected(cfg, ps[b], i);
  }

  // ---- the update sweep ----

  /** The sweep gives up on the slot: its connection is dead, it has been let go, or it took over 10 seconds. */
  ghost predicate GivesUp(s: Slot, r: Reliability, now: nat) {
    || r.dead
    || (s.mode in {DISCONNECT_ASAP, DISCONNECT_ASAP_SILENTLY} && !r.outgoingWaiting)
    || (s.mode == DISCONNECT_ON_NO_ACK && (!r.acksWaiting || r.ackTimeout))
    || (s.mode in {REQUESTED_CONNECTION, HANDLING_CONNECTION_REQUEST, UNVERIFIED_SENDER} && s.connectionTime + 10000 < now)
  }

  lemma {:induction false} DeliverAllLeavesOthers(cfg: Config, t: Table, i: nat, packets: seq<Packet>, m: nat)
    requires TableOk(t, cfg.hash) && i < |t.slots| && m < |t.slots|
    ensures |DeliverAll(cfg, t, i, packets).slots| == |t.slots|
    ensures m != i ==> DeliverAll(cfg, t, i, packets).slots[m] == t.slots[m]
    decreases |packets|
  {
    if packets != [] && t.slots[i].isActive {
      PacketKeepsTable(cfg, t, i, packets[0]);
      if m != i { PacketLeavesOthers(cfg, t, i, packets[0], m); }
      assert |OnPacket(cfg, t, i, packets[0]).slots| == |t.slots|;
      hide OnPacket, TableOk;
      DeliverAllLeavesOthers(cfg, OnPacket(cfg, t, i, packets[0]), i, packets[1..], m);
    }
  }

  /** Servicing a slot touches no other; it closes the slot if it gives up, and else only hands it its packets. */
  lemma ServiceOutcome(cfg: Config, t: Table, i: nat, layers: Layers, now: nat, m: nat)
    requires TableOk(t, cfg.hash) && i < |t.slots| && t.slots[i].isActive && m < |t.slots|
    ensures var u := Service(cfg, t, i, layers, now);
      && |u.slots| == |t.slots| && (m != i ==> u.slots[m] == t.slots[m])
      && (GivesUp(t.slots[i], layers(i), now) ==> Closed(Peer(t, []), Peer(u, []), i))
      && (!GivesUp(t.slots[i], layers(i), now) && layers(i).inbox == [] ==> u == t)
  {
    CloseOutcome(t, cfg.hash, i);
    DeliverAllLeavesOthers(cfg, t, i, layers(i).inbox, m);
    hide Close, OnPacket;
  }

  /** Once given up, or left alone, a slot stays so for the rest of the sweep. */
  lemma {:induction false} SweepLeavesOthers(cfg: Config, t: Table, k: nat, layers: Layers, now: nat, m: nat)
    requires TableOk(t, cfg.hash) && m < |t.slots| && m !in Ahead(t, k)
    ensures |Sweep(cfg, t, k, layers, now).0.slots| == |t.slots| && Sweep(cfg, t, k, layers, now).0.slots[m] == t.slots[m]
    decreases |t.active| - k
  {
    if k < |t.active| {
      var i := t.active[k];
      assert Ahead(t, k)[0] == i && i in t.active;
      ServiceKeeps(cfg, t, k, layers, now);
      ServiceOutcome(cfg, t, i, layers, now, m);
      var u := Service(cfg, t, i, layers, now);
      LaterEntries(t, u, k, cfg.hash);
      hide Service, TableOk;
      SweepLeavesOthers(cfg, u, k + 1, layers, now, m);
    }
  }

  /**
   One sweep: a serviced slot that the sweep gives up on is inactive afterwards, and one that it
   does not give up on and that has no packets is exactly as it was.
   */
  lemma {:induction false} SweepOutcome(cfg: Config, t: Table, k: nat, layers: Layers, now: nat, m: nat)
    requires TableOk(t, cfg.hash) && m < |t.slots| && m in Ahead(t, k)
    ensures var (v, serviced) := Sweep(cfg, t, k, layers, now);
      && |v.slots| == |t.slots|
      && (m in serviced && GivesUp(t.slots[m], layers(m), now) ==> !v.slots[m].isActive)
      && (!GivesUp(t.slots[m], layers(m), now) && layers(m).inbox == [] ==> v.slots[m] == t.slots[m])
    decreases |t.active| - k
  {
    var i := t.active[k];
    assert i in t.active;
    ServiceKeeps(cfg, t, k, layers, now);
    ServiceOutcome(cfg, t, i, layers, now, m);
    var u := Service(cfg, t, i, layers, now);
    LaterEntries(t, u, k, cfg.hash);
    SweepServicesOnce(cfg, u, k + 1, layers, now);
    hide Service, TableOk, GivesUp, Fails;
    if m == i || m !in Ahead(u, k + 1) {
      SweepLeavesOthers(cfg, u, k + 1, layers, now, m);
    } else {
      SweepOutcome(cfg, u, k + 1, layers, now, m);
    }
  }

  /** If there is nothing to give up on and nothing to deliver, a sweep services every slot and changes none. */
  lemma {:induction false} QuietSweep(cfg: Config, t: Table, k: nat, layers: Layers, now: nat)
    requires TableOk(t, cfg.hash) && k <= |t.active|
    requires forall i :: i in t.active ==> i < |t.slots| && !GivesUp(t.slots[i], layers(i), now) && layers(i).inbox == []
    ensures Sweep(cfg, t, k, layers, now) == (t, t.active[k..])
    decreases |t.active| - k
  {
    if k < |t.active| {
      var i := t.active[k];
      assert i in t.active;
      ServiceOutcome(cfg, t, i, layers, now, i);
      assert Service(cfg, t, i, layers, now) == t;
      QuietSweep(cfg, t, k + 1, layers, now);
      hide Service, TableOk, GivesUp;
      assert t.active[k..] == [i] + t.active[k + 1..];
    } else {
      assert t.active[k..] == [];
    }
  }
}
