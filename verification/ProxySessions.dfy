/**
 The proxy's session table: a map from UIN to session, where a session may own a child peer that
 is connected to the target server.
 */
module ProxySessions {
  import opened Sequences

  /** A child `RakPeerInterface`, known by its address. */
  type Child = nat

  datatype Address = UNASSIGNED_SYSTEM_ADDRESS | Address(id: nat)

  datatype ConnectionState =
    | DISCONNECTED
    | PUNCH_CONNECTING
    | PUNCH_CONNECTED
    | HOST_CONNECTING
    | PROXY_CONNECTING
    | PROXY_HANDSHAKE
    | STATE_CONNECTED

  /** `ClientContext` without its byte counters; `None` is a null childPeer. */
  datatype Client = Client(
    childPeer: Option<Child>,
    clientGuid: nat,
    uin: nat,
    clientAddress: Address,
    targetAddress: Address,
    state: ConnectionState,
    stateStartTime: nat,
    hostConnectTimeout: nat)

  const HOST_CONNECT_TIMEOUT_SEC: nat := 20
  const UIN_RANGE: nat := 0x1_0000_0000

  /** The low 32 bits. */
  function GetUIN(guid: nat): nat { guid % UIN_RANGE }

  /** `destroyed` counts how often each child was shut down and destroyed. */
  datatype Proxy = Proxy(clients: map<nat, Client>, live: set<Child>, destroyed: multiset<Child>)

  const STARTED := Proxy(map[], {}, multiset{})

  /** How `CreateChildPeer` can end; after `NO_INSTANCE` there is nothing to destroy. */
  datatype Creation = NO_INSTANCE | STARTUP_FAILED | CONNECT_FAILED | CREATED

  datatype Event =
    | ClientRegister(guid: nat, from: Address, now: nat, creation: Creation, child: Child)
    | ClientOnline(guid: nat, from: Address, creation: Creation, child: Child)
    | NewIncoming(guid: nat, from: Address, now: nat, creation: Creation, child: Child)
    | HostRegister(guid: nat, from: Address, now: nat)
    | PunchSucceeded(guid: nat, now: nat)
    | DisconnectMessage(from: Address)         // MW_PROXY_DISCONNECT
    | DisconnectionNotification(from: Address)
    | ConnectionLost(from: Address)
    | CheckTimeouts(now: nat)
    | ChildAccepted(uin: nat, from: Address, now: nat)
    | ChildGone(uin: nat)                      // the child failed, was disconnected or lost
    | Shutdown

  // ---- the invariant ----

  ghost predicate Owns(p: Proxy, uin: nat, child: Child) {
    uin in p.clients && p.clients[uin].childPeer == Some(child)
  }

  ghost predicate ProxyOk(p: Proxy) {
    && (forall u :: u in p.clients ==> p.clients[u].uin == u == GetUIN(p.clients[u].clientGuid))
    && (forall u, v, c :: Owns(p, u, c) && Owns(p, v, c) ==> u == v)
    && (forall u, c :: Owns(p, u, c) ==> c in p.live)
    && (forall c :: p.destroyed[c] <= 1)
    && (forall c :: c in p.live ==> p.destroyed[c] == 0)
    && (forall u :: u in p.clients && p.clients[u].state == HOST_CONNECTING ==> p.clients[u].hostConnectTimeout > 0)
  }

  /** A live child that no session owns any more. */
  ghost predicate Leaked(p: Proxy, c: Child) {
    c in p.live && forall u :: !Owns(p, u, c)
  }

  // ---- steps ----

  function SetState(c: Client, state: ConnectionState, now: nat): Client {
    if c.state != state then c.(state := state, stateStartTime := now) else c
  }

  /** `CreateChildPeer` for a session that is not in the table yet, and its insertion. */
  function Open(p: Proxy, c: Client, creation: Creation, child: Child): Proxy {
    match creation
    case NO_INSTANCE => p
    case STARTUP_FAILED => p.(destroyed := p.destroyed + multiset{child})
    case CONNECT_FAILED => p.(destroyed := p.destroyed + multiset{child})
    case CREATED => p.(clients := p.clients[c.uin := c.(childPeer := Some(child))], live := p.live + {child})
  }

  function NewClient(guid: nat, from: Address, now: nat): Client {
    Client(None, guid, GetUIN(guid), from, UNASSIGNED_SYSTEM_ADDRESS, PROXY_CONNECTING, now, 0)
  }

  /** Destroys the child of one session, if it has one. */
  function DestroyChild(p: Proxy, child: Option<Child>): Proxy {
    if child.Some? then p.(live := p.live - {child.value}, destroyed := p.destroyed + multiset{child.value}) else p
  }

  function Erase(p: Proxy, uin: nat): Proxy
    requires uin in p.clients
  {
    DestroyChild(p, p.clients[uin].childPeer).(clients := p.clients - {uin})
  }

  ghost function ChildrenOf(p: Proxy, uins: set<nat>): set<Child>
    requires uins <= p.clients.Keys
  {
    set u | u in uins && p.clients[u].childPeer.Some? :: p.clients[u].childPeer.value
  }

  /** Erases all the sessions of `uins` with their children. */
  ghost function EraseAll(p: Proxy, uins: set<nat>): Proxy
    requires uins <= p.clients.Keys
  {
    var gone := ChildrenOf(p, uins);
    Proxy(p.clients - uins, p.live - gone, p.destroyed + multiset(gone))
  }

  function ByClient(p: Proxy, from: Address): set<nat> {
    set u | u in p.clients && p.clients[u].clientAddress == from
  }

  function ByEither(p: Proxy, from: Address): set<nat> {
    set u | u in p.clients && (p.clients[u].clientAddress == from || p.clients[u].targetAddress == from)
  }

  predicate TimedOut(c: Client, now: nat) {
    c.state == HOST_CONNECTING && c.hostConnectTimeout > 0 && now > c.hostConnectTimeout
  }

  function Overdue(p: Proxy, now: nat): set<nat> {
    set u | u in p.clients && TimedOut(p.clients[u], now)
  }

  ghost predicate Least(s: set<nat>, m: nat) {
    m in s && forall x :: x in s ==> m <= x
  }

  lemma {:induction false} LeastExists(s: set<nat>)
    requires s != {}
    ensures exists m :: Least(s, m)
    decreases |s|
  {
    var x :| x in s;
    if s != {x} {
      LeastExists(s - {x});
      var m :| Least(s - {x}, m);
      assert forall y :: y in s <==> y == x || y in s - {x};
      assert Least(s, if m <= x then m else x);
    } else {
      assert Least(s, x);
    }
  }

  ghost function First(s: set<nat>): (m: nat)
    requires s != {}
    ensures Least(s, m)
  {
    LeastExists(s);
    var m :| Least(s, m);
    m
  }

  ghost predicate Enabled(p: Proxy, e: Event) {
    (e.ClientRegister? || e.ClientOnline? || e.NewIncoming?) ==> e.child !in p.live && p.destroyed[e.child] == 0
  }

  ghost function Step(p: Proxy, e: Event): Proxy {
    match e
    case ClientRegister(guid, from, now, creation, child) => Open(p, NewClient(guid, from, now), creation, child)
    case ClientOnline(guid, from, creation, child) => Open(p, NewClient(guid, from, 0), creation, child)
    case NewIncoming(guid, from, now, creation, child) =>
      var uin := GetUIN(guid);
      if uin in p.clients
      then p.(clients := p.clients[uin := SetState(p.clients[uin].(targetAddress := from), STATE_CONNECTED, now)])
      else Open(p, NewClient(guid, from, now), creation, child)
    case HostRegister(guid, from, now) =>
      var uin := GetUIN(guid);
      if uin in p.clients
      then p.(clients := p.clients[uin :=
        SetState(p.clients[uin].(targetAddress := from), HOST_CONNECTING, now)
          .(hostConnectTimeout := now + HOST_CONNECT_TIMEOUT_SEC)])
      else p
    case PunchSucceeded(guid, now) =>
      var uin := GetUIN(guid);
      if uin in p.clients then p.(clients := p.clients[uin := SetState(p.clients[uin], PUNCH_CONNECTED, now)]) else p
    case DisconnectMessage(from) =>
      if ByClient(p, from) == {} then p else Erase(p, First(ByClient(p, from)))
    case DisconnectionNotification(from) => EraseAll(p, ByClient(p, from))
    case ConnectionLost(from) => EraseAll(p, ByEither(p, from))
    case CheckTimeouts(now) => EraseAll(p, Overdue(p, now))
    case ChildAccepted(uin, from, now) =>
      if uin in p.clients && p.clients[uin].childPeer.Some?
      then p.(clients := p.clients[uin :=
        SetState(p.clients[uin].(targetAddress := from), STATE_CONNECTED, now).(hostConnectTimeout := 0)])
      else p
    case ChildGone(uin) =>
      if uin in p.clients && p.clients[uin].childPeer.Some?
      then DestroyChild(p, p.clients[uin].childPeer).(clients := p.clients[uin := p.clients[uin].(childPeer := None)])
      else p
    case Shutdown => EraseAll(p, p.clients.Keys)
  }

  // ---- every step keeps the invariant ----

  lemma EraseAllKeeps(p: Proxy, uins: set<nat>)
    requires ProxyOk(p) && uins <= p.clients.Keys
    ensures ProxyOk(EraseAll(p, uins))
    ensures forall c :: Leaked(EraseAll(p, uins), c) <==> Leaked(p, c)
  {
    var q := EraseAll(p, uins);
    var gone := ChildrenOf(p, uins);
    forall c | c in gone ensures c in p.live && exists u :: u in uins && Owns(p, u, c) {
      var u :| u in uins && p.clients[u].childPeer == Some(c);
      assert Owns(p, u, c);
    }
    forall u, c ensures Owns(q, u, c) <==> Owns(p, u, c) && u !in uins {}
    forall u, c | Owns(q, u, c) ensures c !in gone {}
    assert forall u, c :: u in uins && Owns(p, u, c) ==> c in gone;
    forall c ensures Leaked(q, c) <==> Leaked(p, c) {
      if Leaked(q, c) {
        forall u ensures !Owns(p, u, c) { assert !Owns(q, u, c); }
      }
    }
  }

  lemma EraseIsEraseAll(p: Proxy, uin: nat)
    requires uin in p.clients
    ensures Erase(p, uin) == EraseAll(p, {uin})
  {
    var child := p.clients[uin].childPeer;
    assert ChildrenOf(p, {uin}) == if child.Some? then {child.value} else {};
  }

  lemma OpenKeeps(p: Proxy, c: Client, creation: Creation, child: Child)
    requires ProxyOk(p) && child !in p.live && p.destroyed[child] == 0
    requires c.uin == GetUIN(c.clientGuid) && c.state == PROXY_CONNECTING
    ensures ProxyOk(Open(p, c, creation, child))
  {
    var q := Open(p, c, creation, child);
    forall u, d ensures Owns(q, u, d) ==> Owns(p, u, d) || (u == c.uin && d == child && creation == CREATED) {}
  }

  lemma StepKeeps(p: Proxy, e: Event)
    requires ProxyOk(p) && Enabled(p, e)
    ensures ProxyOk(Step(p, e))
  {
    hide EraseAll, Open;
    match e
    case ClientRegister(guid, from, now, creation, child) => OpenKeeps(p, NewClient(guid, from, now), creation, child);
    case ClientOnline(guid, from, creation, child) => OpenKeeps(p, NewClient(guid, from, 0), creation, child);
    case NewIncoming(guid, from, now, creation, child) =>
      if GetUIN(guid) in p.clients { SameChildrenKeep(p, Step(p, e)); }
      else { OpenKeeps(p, NewClient(guid, from, now), creation, child); }
    case DisconnectMessage(from) =>
      if ByClient(p, from) != {} {
        EraseIsEraseAll(p, First(ByClient(p, from)));
        EraseAllKeeps(p, {First(ByClient(p, from))});
      }
    case DisconnectionNotification(from) => EraseAllKeeps(p, ByClient(p, from));
    case ConnectionLost(from) => EraseAllKeeps(p, ByEither(p, from));
    case CheckTimeouts(now) => EraseAllKeeps(p, Overdue(p, now));
    case ChildGone(uin) => ChildGoneKeeps(p, uin);
    case Shutdown => EraseAllKeeps(p, p.clients.Keys);
    case _ => SameChildrenKeep(p, Step(p, e));
  }

  /** Steps that only change addresses, states and deadlines. */
  lemma SameChildrenKeep(p: Proxy, q: Proxy)
    requires ProxyOk(p) && q.live == p.live && q.destroyed == p.destroyed && q.clients.Keys == p.clients.Keys
    requires forall u :: u in p.clients ==>
      q.clients[u].childPeer == p.clients[u].childPeer && q.clients[u].uin == p.clients[u].uin
      && q.clients[u].clientGuid == p.clients[u].clientGuid
      && (q.clients[u].state == HOST_CONNECTING ==> q.clients[u].hostConnectTimeout > 0)
    ensures ProxyOk(q)
    ensures forall c :: Leaked(q, c) <==> Leaked(p, c)
  {
    forall u, c ensures Owns(q, u, c) <==> Owns(p, u, c) {}
  }

  lemma ChildGoneKeeps(p: Proxy, uin: nat)
    requires ProxyOk(p)
    ensures ProxyOk(Step(p, ChildGone(uin)))
    ensures forall c :: Leaked(Step(p, ChildGone(uin)), c) <==> Leaked(p, c)
  {
    var q := Step(p, ChildGone(uin));
    if uin in p.clients && p.clients[uin].childPeer.Some? {
      var gone := p.clients[uin].childPeer.value;
      assert Owns(p, uin, gone);
      forall u, c ensures Owns(q, u, c) <==> Owns(p, u, c) && u != uin {}
      forall c ensures Leaked(q, c) <==> Leaked(p, c) {
        if Leaked(q, c) {
          assert c != gone;
          forall u ensures !Owns(p, u, c) { assert !Owns(q, u, c); }
        }
      }
    }
  }

  // ---- leaks ----

  /** The event registers a client over a session that still owns child `c`. */
  ghost predicate Overwrites(p: Proxy, e: Event, c: Child) {
    && (e.ClientRegister? || e.ClientOnline?)
    && e.creation == CREATED
    && Owns(p, GetUIN(e.guid), c)
  }

  lemma OpenLeaks(p: Proxy, client: Client, creation: Creation, child: Child, c: Child)
    requires ProxyOk(p) && child !in p.live && p.destroyed[child] == 0
    ensures Leaked(Open(p, client, creation, child), c) <==>
      Leaked(p, c) || (creation == CREATED && Owns(p, client.uin, c))
  {
    var q := Open(p, client, creation, child);
    if creation == CREATED {
      assert Owns(q, client.uin, child);
      forall u, d ensures Owns(q, u, d) <==> (u != client.uin && Owns(p, u, d)) || (u == client.uin && d == child) {}
      if Leaked(q, c) && !Owns(p, client.uin, c) {
        forall u ensures !Owns(p, u, c) {
          if u != client.uin { assert !Owns(q, u, c); }
        }
      }
    } else {
      forall u, d ensures Owns(q, u, d) <==> Owns(p, u, d) {}
    }
  }

  /** A child is leaked exactly by registering again over the session that owns it. */
  lemma LeaksExactly(p: Proxy, e: Event, c: Child)
    requires ProxyOk(p) && Enabled(p, e)
    ensures Leaked(Step(p, e), c) <==> Leaked(p, c) || Overwrites(p, e, c)
  {
    hide Leaked, EraseAll, Open;
    match e
    case ClientRegister(guid, from, now, creation, child) => OpenLeaks(p, NewClient(guid, from, now), creation, child, c);
    case ClientOnline(guid, from, creation, child) => OpenLeaks(p, NewClient(guid, from, 0), creation, child, c);
    case NewIncoming(guid, from, now, creation, child) =>
      if GetUIN(guid) in p.clients { SameChildrenKeep(p, Step(p, e)); }
      else { OpenLeaks(p, NewClient(guid, from, now), creation, child, c); }
    case DisconnectMessage(from) =>
      if ByClient(p, from) != {} {
        EraseIsEraseAll(p, First(ByClient(p, from)));
        EraseAllKeeps(p, {First(ByClient(p, from))});
      }
    case DisconnectionNotification(from) => EraseAllKeeps(p, ByClient(p, from));
    case ConnectionLost(from) => EraseAllKeeps(p, ByEither(p, from));
    case CheckTimeouts(now) => EraseAllKeeps(p, Overdue(p, now));
    case ChildGone(uin) => ChildGoneKeeps(p, uin);
    case Shutdown => EraseAllKeeps(p, p.clients.Keys);
    case _ => SameChildrenKeep(p, Step(p, e));
  }

  // ---- whole runs ----

  ghost predicate Run(p: Proxy, es: seq<Event>, q: Proxy)
    decreases |es|
  {
    if es == [] then q == p else Enabled(p, es[0]) && Run(Step(p, es[0]), es[1..], q)
  }

  /**
   Over every run of the main loop: keys are the low halves of the stored GUIDs, sessions never
   share a child, every owned child is live, and none is destroyed twice or used afterwards.
   */
  lemma {:induction false} SessionsStayValid(p: Proxy, es: seq<Event>, q: Proxy)
    requires ProxyOk(p) && Run(p, es, q)
    ensures ProxyOk(q)
    decreases |es|
  {
    if es != [] {
      StepKeeps(p, es[0]);
      SessionsStayValid(Step(p, es[0]), es[1..], q);
    }
  }

  ghost predicate OverwrittenDuring(p: Proxy, es: seq<Event>, c: Child)
    decreases |es|
  {
    es != [] && (Overwrites(p, es[0], c) || OverwrittenDuring(Step(p, es[0]), es[1..], c))
  }

  /**
   Over a whole run a child is left without owner exactly when some event registered over its
   session, and for good.
   */
  lemma {:induction false} RunLeaksExactly(p: Proxy, es: seq<Event>, q: Proxy, c: Child)
    requires ProxyOk(p) && Run(p, es, q)
    ensures Leaked(q, c) <==> Leaked(p, c) || OverwrittenDuring(p, es, c)
    decreases |es|
  {
    if es != [] {
      StepKeeps(p, es[0]);
      LeaksExactly(p, es[0], c);
      RunLeaksExactly(Step(p, es[0]), es[1..], q, c);
    }
  }

  /** After the deadline sweep no session is still connecting to its host past the deadline. */
  lemma NoOverdueAfterSweep(p: Proxy, now: nat, u: nat)
    requires ProxyOk(p) && u in Step(p, CheckTimeouts(now)).clients
    ensures var c := Step(p, CheckTimeouts(now)).clients[u];
      c.state == HOST_CONNECTING ==> now <= c.hostConnectTimeout
  {
    assert u !in Overdue(p, now);
  }

  // ---- bytes on the wire ----

  const BYTE_RANGE: nat := 256

  /** The number whose big-endian form is `bytes`. */
  function BigEndian(bytes: seq<byte>): nat {
    if bytes == [] then 0 else BigEndian(bytes[..|bytes| - 1]) * BYTE_RANGE + bytes[|bytes| - 1]
  }

  /** The UIN of a GUID is what its last four bytes say. */
  lemma {:induction false} UinIsLowBytes(bytes: seq<byte>)
    requires |bytes| == 8
    ensures GetUIN(BigEndian(bytes)) == BigEndian(bytes[4..])
  {
    PowerOfFour();
    SplitBigEndian(bytes, 4);
    BigEndianIsBounded(bytes[4..]);
    hide BigEndian, Power;
    LowPart(BigEndian(bytes[..4]), BigEndian(bytes[4..]));
  }

  lemma PowerOfFour()
    ensures Power(4) == UIN_RANGE
  {
    assert Power(1) == 256 && Power(2) == 0x1_0000;
    assert Power(3) == 0x100_0000;
  }

  lemma LowPart(high: nat, low: nat)
    requires low < UIN_RANGE
    ensures (high * UIN_RANGE + low) % UIN_RANGE == low
  {}

  function Power(n: nat): nat { if n == 0 then 1 else Power(n - 1) * BYTE_RANGE }

  lemma {:induction false} BigEndianIsBounded(bytes: seq<byte>)
    ensures BigEndian(bytes) < Power(|bytes|)
  {
    if bytes != [] { BigEndianIsBounded(bytes[..|bytes| - 1]); }
  }

  lemma {:induction false} SplitBigEndian(bytes: seq<byte>, n: nat)
    requires n <= |bytes|
    ensures BigEndian(bytes) == BigEndian(bytes[..n]) * Power(|bytes| - n) + BigEndian(bytes[n..])
    decreases |bytes|
  {
    if n == |bytes| {
      assert bytes[..n] == bytes;
    } else {
      var init := bytes[..|bytes| - 1];
      SplitBigEndian(init, n);
      assert init[..n] == bytes[..n];
      assert bytes[n..][..|bytes| - n - 1] == init[n..];
      Arrange(BigEndian(bytes[..n]), BigEndian(init[n..]), Power(|init| - n), bytes[|bytes| - 1]);
    }
  }

  lemma Arrange(a: nat, b: nat, k: nat, c: nat)
    ensures (a * k + b) * BYTE_RANGE + c == a * (k * BYTE_RANGE) + (b * BYTE_RANGE + c)
  {}

  lemma {:induction false} FourBytes(a: byte, b: byte, c: byte, d: byte)
    ensures BigEndian([a, b, c, d]) == a * 0x100_0000 + b * 0x1_0000 + c * BYTE_RANGE + d
  {
    assert [a, b, c, d][..3] == [a, b, c];
    assert [a, b, c][..2] == [a, b];
    assert [a, b][..1] == [a];
    assert [a][..0] == [];
    assert BigEndian([a]) == a;
    assert BigEndian([a, b]) == a * BYTE_RANGE + b;
    assert BigEndian([a, b, c]) == (a * BYTE_RANGE + b) * BYTE_RANGE + c;
  }

  method ReadBigEndianGuid(data: seq<byte>) returns (g: nat)
    requires |data| >= 8
    ensures g == BigEndian(data[..8])
  {
    g := 0;
    for i := 0 to 8
      invariant g == BigEndian(data[..i])
    {
      g := g * BYTE_RANGE + data[i];
      assert data[..i + 1][..i] == data[..i];
    }
  }

  // ---- the table itself ----

  datatype ChildPacket =
    | CONNECTION_REQUEST_ACCEPTED
    | CONNECTION_ATTEMPT_FAILED
    | DISCONNECTION_NOTIFICATION
    | CONNECTION_LOST
    | OTHER

  /** Where a forwarded packet goes. */
  datatype Route = Dropped | ToClient(client: Address) | ToChild(child: Child, target: Address)

  /** Erasing one more session after those of `uins`. */
  lemma EraseOneMore(p: Proxy, uins: set<nat>, u: nat)
    requires ProxyOk(p) && uins <= p.clients.Keys && u in p.clients && u !in uins
    ensures ProxyOk(EraseAll(p, uins)) && EraseAll(p, uins).clients == p.clients - uins
    ensures Erase(EraseAll(p, uins), u) == EraseAll(p, uins + {u})
  {
    EraseAllKeeps(p, uins);
    var q := EraseAll(p, uins);
    var child := p.clients[u].childPeer;
    assert q.clients[u] == p.clients[u];
    assert p.clients - uins - {u} == p.clients - (uins + {u});
    if child.Some? {
      var c := child.value;
      assert Owns(p, u, c);
      assert forall v :: v in uins && p.clients[v].childPeer == child ==> Owns(p, v, c);
      assert ChildrenOf(p, uins + {u}) == ChildrenOf(p, uins) + {c};
      assert c !in ChildrenOf(p, uins);
    } else {
      assert ChildrenOf(p, uins + {u}) == ChildrenOf(p, uins);
    }
  }

  /** The sessions a sweep has erased when those of `rest` are still to be looked at. */
  ghost function Visited(p: Proxy, rest: set<nat>, which: Client -> bool): (s: set<nat>)
    ensures s <= p.clients.Keys
  {
    set u | u in p.clients && u !in rest && which(p.clients[u])
  }

  lemma VisitOne(p: Proxy, rest: set<nat>, it: nat, which: Client -> bool)
    requires ProxyOk(p) && it in rest && rest <= p.clients.Keys
    ensures var q := EraseAll(p, Visited(p, rest, which));
      && ProxyOk(q) && it in q.clients && q.clients[it] == p.clients[it]
      && EraseAll(p, Visited(p, rest - {it}, which)) == if which(p.clients[it]) then Erase(q, it) else q
  {
    var done := Visited(p, rest, which);
    EraseOneMore(p, done, it);
    var next := Visited(p, rest - {it}, which);
    assert next == done + (if which(p.clients[it]) then {it} else {});
  }

  lemma NothingErased(p: Proxy, which: Client -> bool)
    ensures EraseAll(p, Visited(p, p.clients.Keys, which)) == p
  {
    assert Visited(p, p.clients.Keys, which) == {};
    assert ChildrenOf(p, {}) == {};
    assert p.clients - {} == p.clients;
  }

  lemma OwnedIsLive(p: Proxy, u: nat)
    requires ProxyOk(p) && u in p.clients && p.clients[u].childPeer.Some?
    ensures p.clients[u].childPeer.value in p.live
  {
    assert Owns(p, u, p.clients[u].childPeer.value);
  }

  method Smallest(s: set<nat>) returns (m: nat)
    requires s != {}
    ensures m in s && Least(s, m)
  {
    m :| m in s;
    var rest := s - {m};
    while rest != {}
      invariant rest <= s && m in s && forall x :: x in s && x !in rest ==> m <= x
      decreases |rest|
    {
      var x :| x in rest;
      rest := rest - {x};
      if x < m { m := x; }
    }
  }

  class SessionTable {
    var clients: map<nat, Client>
    ghost var live: set<Child>
    ghost var destroyed: multiset<Child>

    ghost function Value(): Proxy reads this { Proxy(clients, live, destroyed) }

    ghost predicate Valid() reads this { ProxyOk(Value()) }

    constructor ()
      ensures Valid() && Value() == STARTED
    {
      clients, live, destroyed := map[], {}, multiset{};
    }

    /** Shutdown and DestroyInstance of a child: it must still be there. */
    ghost method DestroyClient(child: Option<Child>)
      requires child.Some? ==> child.value in live
      modifies `live, `destroyed
      ensures Value() == DestroyChild(old(Value()), child)
    {
      if child.Some? {
        live, destroyed := live - {child.value}, destroyed + multiset{child.value};
      }
    }

    /** `creation` says how far `GetInstance`, `Startup` and `Connect` got with the new `child`. */
    method CreateChildPeer(ctx: Client, creation: Creation, child: Child) returns (ok: bool, client: Client)
      requires child !in live
      modifies `live, `destroyed
      ensures ok == (creation == CREATED)
      ensures ok ==> client == ctx.(childPeer := Some(child))
      ensures live == old(live) + (if ok then {child} else {})
      ensures destroyed == old(destroyed) +
        (if creation == STARTUP_FAILED || creation == CONNECT_FAILED then multiset{child} else multiset{})
    {
      client := ctx.(childPeer := None);
      ok := false;
      if creation == NO_INSTANCE { return; }
      live := live + {child};
      client := ctx.(childPeer := Some(child));
      if creation == STARTUP_FAILED || creation == CONNECT_FAILED {
        DestroyClient(client.childPeer);
        assert live == old(live);
        client := client.(childPeer := None);
        return;
      }
      ok := true;
    }

    method Insert(ctx: Client, creation: Creation, child: Child)
      requires child !in live
      modifies this
      ensures Value() == Open(old(Value()), ctx, creation, child)
    {
      var ok, client := CreateChildPeer(ctx, creation, child);
      if ok { clients := clients[client.uin := client]; }
    }

    method HandleClientRegister(packet: seq<byte>, from: Address, now: nat, creation: Creation, child: Child)
      requires Valid() && child !in live && destroyed[child] == 0
      modifies this
      ensures Valid()
      ensures Value() ==
        if |packet| < 10 then old(Value())
        else Step(old(Value()), ClientRegister(BigEndian(packet[2..10]), from, now, creation, child))
    {
      if |packet| < 10 { return; }
      var guid := ReadBigEndianGuid(packet[2..]);
      assert packet[2..][..8] == packet[2..10];
      hide ProxyOk;
      StepKeeps(Value(), ClientRegister(guid, from, now, creation, child));
      Insert(NewClient(guid, from, now), creation, child);
    }

    /** MW_PROXY_CLIENT_ONLINE; a short packet stands for the proxy's own GUID. */
    method HandleClientOnline(packet: seq<byte>, myGuid: nat, from: Address, creation: Creation, child: Child)
      requires Valid() && child !in live && destroyed[child] == 0
      modifies this
      ensures Valid()
      ensures Value() == Step(old(Value()),
        ClientOnline(if |packet| >= 10 then BigEndian(packet[2..10]) else myGuid, from, creation, child))
    {
      var guid := myGuid;
      if |packet| >= 10 {
        guid := ReadBigEndianGuid(packet[2..]);
        assert packet[2..][..8] == packet[2..10];
      }
      hide ProxyOk;
      StepKeeps(Value(), ClientOnline(guid, from, creation, child));
      Insert(NewClient(guid, from, 0), creation, child);
    }

    method HandleNewIncoming(guid: nat, from: Address, now: nat, creation: Creation, child: Child)
      requires Valid() && child !in live && destroyed[child] == 0
      modifies this
      ensures Valid() && Value() == Step(old(Value()), NewIncoming(guid, from, now, creation, child))
    {
      hide ProxyOk;
      ghost var after := Step(Value(), NewIncoming(guid, from, now, creation, child));
      StepKeeps(Value(), NewIncoming(guid, from, now, creation, child));
      var uin := GetUIN(guid);
      if uin in clients {
        clients := clients[uin := clients[uin].(targetAddress := from)];
        UpdateClientState(uin, STATE_CONNECTED, now);
        assert Value() == after;
      } else {
        Insert(NewClient(guid, from, now), creation, child);
      }
    }

    method UpdateClientState(uin: nat, state: ConnectionState, now: nat)
      requires uin in clients
      modifies `clients
      ensures clients == old(clients)[uin := SetState(old(clients)[uin], state, now)]
    {
      var c := clients[uin];
      if c.state != state {
        c := c.(state := state);
        c := c.(stateStartTime := now);
      }
      clients := clients[uin := c];
    }

    method HandleHostRegister(packet: seq<byte>, from: Address, now: nat)
      requires Valid()
      modifies this
      ensures Valid()
      ensures Value() ==
        if |packet| < 18 then old(Value())
        else Step(old(Value()), HostRegister(BigEndian(packet[2..10]), from, now))
    {
      if |packet| < 18 { return; }
      var guid := ReadBigEndianGuid(packet[2..]);
      assert packet[2..][..8] == packet[2..10];
      hide ProxyOk;
      ghost var after := Step(Value(), HostRegister(guid, from, now));
      StepKeeps(Value(), HostRegister(guid, from, now));
      var uin := GetUIN(guid);
      if uin in clients {
        clients := clients[uin := clients[uin].(targetAddress := from)];
        UpdateClientState(uin, HOST_CONNECTING, now);
        clients := clients[uin := clients[uin].(hostConnectTimeout := now + HOST_CONNECT_TIMEOUT_SEC)];
      }
      assert Value() == after;
    }

    method EraseSession(it: nat)
      requires Valid() && it in clients
      modifies this
      ensures Value() == Erase(old(Value()), it)
    {
      if clients[it].childPeer.Some? { OwnedIsLive(Value(), it); }
      DestroyClient(clients[it].childPeer);
      clients := clients - {it};
    }

    /** Erases the first session of this client in key order, and only that one. */
    method HandleDisconnectMessage(from: Address)
      requires Valid()
      modifies this
      ensures Valid() && Value() == Step(old(Value()), DisconnectMessage(from))
    {
      hide ProxyOk, Erase;
      StepKeeps(Value(), DisconnectMessage(from));
      ghost var was := Value();
      var rest := clients.Keys;
      while rest != {}
        invariant Value() == was && ByClient(was, from) <= rest <= clients.Keys
        decreases |rest|
      {
        var it := Smallest(rest);
        if clients[it].clientAddress == from {
          assert Least(ByClient(was, from), it);
          EraseSession(it);
          return;
        }
        rest := rest - {it};
      }
      assert ByClient(was, from) == {};
    }

    /** The sweep that erases while it iterates, for each of the four conditions the loop uses. */
    method EraseWhere(which: Client -> bool)
      requires Valid()
      modifies this
      ensures Valid()
      ensures Value() == EraseAll(old(Value()), Visited(old(Value()), {}, which))
    {
      hide ProxyOk, EraseAll, Erase, Visited, Least;
      ghost var was := Value();
      var rest := clients.Keys;
      NothingErased(was, which);
      while rest != {}
        invariant rest <= was.clients.Keys
        invariant Value() == EraseAll(was, Visited(was, rest, which))
        decreases |rest|
      {
        var it := Smallest(rest);
        VisitOne(was, rest, it, which);
        rest := rest - {it};
        if which(clients[it]) { EraseSession(it); }
      }
      EraseAllKeeps(was, Visited(was, {}, which));
    }

    method CheckTimeout(currentTime: nat)
      requires Valid()
      modifies this
      ensures Valid() && Value() == Step(old(Value()), CheckTimeouts(currentTime))
    {
      ghost var was := Value();
      var which := (c: Client) => TimedOut(c, currentTime);
      EraseWhere(which);
      assert Visited(was, {}, which) == Overdue(was, currentTime);
    }

    method OnDisconnectionNotification(from: Address)
      requires Valid()
      modifies this
      ensures Valid() && Value() == Step(old(Value()), Event.DisconnectionNotification(from))
    {
      ghost var was := Value();
      var which := (c: Client) => c.clientAddress == from;
      EraseWhere(which);
      assert Visited(was, {}, which) == ByClient(was, from);
    }

    method OnConnectionLost(from: Address)
      requires Valid()
      modifies this
      ensures Valid() && Value() == Step(old(Value()), Event.ConnectionLost(from))
    {
      ghost var was := Value();
      var which := (c: Client) => c.clientAddress == from || c.targetAddress == from;
      EraseWhere(which);
      assert Visited(was, {}, which) == ByEither(was, from);
    }

    method OnShutdown()
      requires Valid()
      modifies this
      ensures Valid() && Value() == Step(old(Value()), Shutdown)
      ensures clients == map[]
    {
      ghost var was := Value();
      var which := (c: Client) => true;
      EraseWhere(which);
      assert Visited(was, {}, which) == was.clients.Keys;
    }

    method OnPunchSucceeded(guid: nat, now: nat)
      requires Valid()
      modifies this
      ensures Valid() && Value() == Step(old(Value()), PunchSucceeded(guid, now))
    {
      hide ProxyOk;
      StepKeeps(Value(), PunchSucceeded(guid, now));
      if GetUIN(guid) in clients { UpdateClientState(GetUIN(guid), PUNCH_CONNECTED, now); }
    }

    /** What one session's child delivered in this round of the loop. */
    method PollChild(uin: nat, packet: ChildPacket, from: Address, now: nat)
      requires Valid() && uin in clients
      modifies this
      ensures Valid()
      ensures Value() ==
        match packet
        case CONNECTION_REQUEST_ACCEPTED => Step(old(Value()), ChildAccepted(uin, from, now))
        case OTHER => old(Value())
        case _ => Step(old(Value()), ChildGone(uin))
    {
      hide ProxyOk;
      ghost var after := Step(Value(), ChildAccepted(uin, from, now));
      StepKeeps(Value(), ChildAccepted(uin, from, now));
      StepKeeps(Value(), ChildGone(uin));
      var ctx := clients[uin];
      if ctx.childPeer.None? { return; }
      match packet {
        case CONNECTION_REQUEST_ACCEPTED =>
          clients := clients[uin := ctx.(targetAddress := from)];
          UpdateClientState(uin, STATE_CONNECTED, now);
          clients := clients[uin := clients[uin].(hostConnectTimeout := 0)];
          assert Value() == after;
        case OTHER =>
        case _ =>
          OwnedIsLive(Value(), uin);
          DestroyClient(ctx.childPeer);
          clients := clients[uin := ctx.(childPeer := None)];
      }
    }

    /** The packet's header names a session. */
    ghost predicate Addressed(packet: seq<byte>)
      reads this
    {
      |packet| >= 5 && BigEndian(packet[1..5]) in clients
    }

    /**
     Forwarding of any other packet: by the UIN in its header or else by the sender's address.
     It never uses a child that has been destroyed.
     */
    method Forward(packet: seq<byte>, from: Address, configured: Address) returns (route: Route, uin: nat)
      requires Valid()
      ensures route.ToChild? ==> route.child in live
      ensures Addressed(packet) ==> uin == BigEndian(packet[1..5])
      ensures !Addressed(packet) && ByEither(Value(), from) != {} ==> Least(ByEither(Value(), from), uin)
      ensures !Addressed(packet) && ByEither(Value(), from) == {} ==> route == Dropped
      ensures Addressed(packet) || ByEither(Value(), from) != {} ==>
        && uin in clients
        && (route.ToClient? <==> clients[uin].targetAddress == from)
        && (route.ToClient? ==> route.client == clients[uin].clientAddress)
        && (route.ToChild? <==>
             (clients[uin].targetAddress != from && clients[uin].childPeer.Some?
              && (clients[uin].targetAddress != UNASSIGNED_SYSTEM_ADDRESS || configured != UNASSIGNED_SYSTEM_ADDRESS)))
        && (route.ToChild? ==>
             (clients[uin].childPeer == Some(route.child) && route.target ==
              if clients[uin].targetAddress != UNASSIGNED_SYSTEM_ADDRESS then clients[uin].targetAddress else configured))
    {
      uin := 0;
      var found := false;
      if |packet| >= 5 {
        uin := ReadHeader(packet);
        found := uin in clients;
      }
      if !found {
        var rest := clients.Keys;
        while rest != {} && !found
          invariant rest <= clients.Keys
          invariant !found ==> ByEither(Value(), from) <= rest
          invariant found ==> Least(ByEither(Value(), from), uin)
          decreases |rest|
        {
          var it := Smallest(rest);
          rest := rest - {it};
          if clients[it].clientAddress == from || clients[it].targetAddress == from {
            found, uin := true, it;
          }
        }
      }
      if !found {
        assert ByEither(Value(), from) == {};
        return Dropped, uin;
      }
      var ctx := clients[uin];
      if ctx.targetAddress == from { return ToClient(ctx.clientAddress), uin; }
      if ctx.childPeer.None? { return Dropped, uin; }
      assert Owns(Value(), uin, ctx.childPeer.value);
      var target := if ctx.targetAddress != UNASSIGNED_SYSTEM_ADDRESS then ctx.targetAddress else configured;
      if target == UNASSIGNED_SYSTEM_ADDRESS { return Dropped, uin; }
      return ToChild(ctx.childPeer.value, target), uin;
    }

    /** Bytes 1 to 4 of a packet, most significant first. */
    static method ReadHeader(packet: seq<byte>) returns (uin: nat)
      requires |packet| >= 5
      ensures uin == BigEndian(packet[1..5])
    {
      var b := packet[1..5];
      uin := packet[1] * 0x100_0000 + packet[2] * 0x1_0000 + packet[3] * BYTE_RANGE + packet[4];
      assert b == [packet[1], packet[2], packet[3], packet[4]];
      FourBytes(packet[1], packet[2], packet[3], packet[4]);
    }
  }
}
