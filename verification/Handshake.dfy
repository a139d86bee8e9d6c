/**
 Admission, connection modes and the update sweep of RakPeer, as steps on the table of remote
 systems. Sockets, the reliability layer and the clock are inputs of the steps.
 */
module Handshake {
  import opened Sequences
  import opened RemoteSystems

  datatype Config = Config(
    hash: Hash,
    password: seq<bv8>,                           // incomingPassword
    maximumIncomingConnections: nat,
    limitConnectionFrequencyFromTheSameIP: bool,
    loopback: Address -> bool)

  /** `requested` holds the addresses of `requestedConnectionQueue`. */
  datatype Peer = Peer(table: Table, requested: seq<Address>)

  /** The packets the connection mode depends on; `Payload` is everything else. */
  datatype Packet =
    | ConnectionRequest(password: seq<bv8>)
    | NewIncomingConnection
    | ConnectionRequestAccepted
    | DisconnectionNotification
    | InvalidPassword
    | Payload

  datatype Event =
    | Request2(sa: Address, guid: Guid, now: nat)   // ID_OPEN_CONNECTION_REQUEST_2 arrives
    | Reply2(sa: Address, guid: Guid, now: nat)     // ID_OPEN_CONNECTION_REPLY_2 arrives
    | Connect(sa: Address)                          // SendConnectionRequest
    | Withdraw(sa: Address)                         // the attempt failed or was refused
    | Deliver(i: nat, packet: Packet)               // from the reliability layer of slot i
    | Drop(i: nat)                                  // the update sweep gives up on slot i
    | CloseNow(sa: Address)                         // BCS_CLOSE_CONNECTION
    | Flag(sa: Address)                             // a disconnection notification was sent
    | Reroute(guid: Guid, sa: Address)              // BCS_CHANGE_SYSTEM_ADDRESS

  predicate Disconnecting(m: ConnectMode) {
    m == DISCONNECT_ASAP || m == DISCONNECT_ASAP_SILENTLY || m == DISCONNECT_ON_NO_ACK
  }

  // ---- admission ----

  function ScanGuid(slots: seq<Slot>, guid: Guid, i: nat): (k: nat)
    requires i <= |slots|
    ensures i <= k <= |slots|
    ensures k < |slots| ==> slots[k].guid == guid && slots[k].isActive
    ensures forall j :: i <= j < k ==> !(slots[j].guid == guid && slots[j].isActive)
    decreases |slots| - i
  {
    if i == |slots| then i
    else if slots[i].guid == guid && slots[i].isActive then i
    else ScanGuid(slots, guid, i + 1)
  }

  /** `GetRemoteSystemFromGUID(guid, true)`. */
  function FromGuid(t: Table, guid: Guid): (r: Option<nat>)
    ensures r.Some? ==> r.value < |t.slots| && t.slots[r.value].isActive && t.slots[r.value].guid == guid
  {
    if guid == UNASSIGNED_RAKNET_GUID then None
    else var k := ScanGuid(t.slots, guid, 0); if k < |t.slots| then Some(k) else None
  }

  datatype Outcome = ALLOWED | SAME_ANSWER | ALREADY_CONNECTED | NO_FREE_INCOMING_CONNECTIONS | IP_RECENTLY_CONNECTED

  function RemoteInitiated(slots: seq<Slot>, active: seq<nat>): nat
    requires InRange(active, |slots|)
  {
    if active == [] then 0
    else
      var s := slots[active[0]];
      (if s.isActive && s.mode == CONNECTED && !s.weInitiated then 1 else 0) + RemoteInitiated(slots, active[1..])
  }

  predicate SameIp(a: Address, b: Address) {
    match (a, b)
    case (Address(i, _), Address(j, _)) => i == j
    case (UNASSIGNED_SYSTEM_ADDRESS, UNASSIGNED_SYSTEM_ADDRESS) => true
    case _ => false
  }

  predicate ConnectedRecently(cfg: Config, t: Table, sa: Address, now: nat) {
    && cfg.limitConnectionFrequencyFromTheSameIP
    && !cfg.loopback(sa)
    && exists i :: 0 <= i < |t.slots| && t.slots[i].isActive && SameIp(t.slots[i].address, sa)
         && t.slots[i].connectionTime <= now < t.slots[i].connectionTime + 100
  }

  function Admit(cfg: Config, t: Table, sa: Address, guid: Guid, now: nat): Outcome
    requires Shaped(t)
  {
    var fromSA := FromAddressHashed(t, cfg.hash, sa, true);
    var fromGuid := FromGuid(t, guid);
    if fromSA.Some? && fromGuid.Some? then
      if fromSA == fromGuid && t.slots[fromSA.value].mode == UNVERIFIED_SENDER then SAME_ANSWER else ALREADY_CONNECTED
    else if fromSA.Some? || fromGuid.Some? then ALREADY_CONNECTED
    else if RemoteInitiated(t.slots, t.active) >= cfg.maximumIncomingConnections then NO_FREE_INCOMING_CONNECTIONS
    else if ConnectedRecently(cfg, t, sa, now) then IP_RECENTLY_CONNECTED
    else ALLOWED
  }

  function OnRequest2(cfg: Config, t: Table, sa: Address, guid: Guid, now: nat): Table
    requires Shaped(t)
  {
    if Admit(cfg, t, sa, guid, now) == ALLOWED then Assign(t, cfg.hash, sa, guid, UNVERIFIED_SENDER, now) else t
  }

  // ---- one of our own attempts succeeds ----

  function Remove(queue: seq<Address>, sa: Address): seq<Address> {
    if queue == [] then [] else if queue[0] == sa then queue[1..] else [queue[0]] + Remove(queue[1..], sa)
  }

  function SetMode(t: Table, i: nat, mode: ConnectMode): Table
    requires i < |t.slots|
  {
    t.(slots := t.slots[i := t.slots[i].(mode := mode)])
  }

  /** The slot that REPLY_2 uses: the active one of the address, or a new one. */
  function OnReply2(cfg: Config, t: Table, sa: Address, guid: Guid, now: nat): Table
    requires Shaped(t)
  {
    var existing := FromAddressHashed(t, cfg.hash, sa, true);
    if existing.Some? then Ours(t, existing.value)
    else if ConnectedRecently(cfg, t, sa, now) then t
    else
      var i := FirstFree(t.slots, 0);
      if i < |t.slots| then Ours(Assign(t, cfg.hash, sa, guid, UNVERIFIED_SENDER, now), i) else t
  }

  function Ours(t: Table, i: nat): Table
    requires i < |t.slots|
  {
    t.(slots := t.slots[i := t.slots[i].(weInitiated := true, mode := REQUESTED_CONNECTION)])
  }

  // ---- packets from a connected system ----

  function ParseConnectionRequest(cfg: Config, t: Table, i: nat, password: seq<bv8>): Table
    requires i < |t.slots|
  {
    SetMode(t, i, if password == cfg.password then HANDLING_CONNECTION_REQUEST else DISCONNECT_ASAP_SILENTLY)
  }

  function OnPacket(cfg: Config, t: Table, i: nat, packet: Packet): Table
    requires Shaped(t) && i < |t.slots|
  {
    var mode := t.slots[i].mode;
    if mode == UNVERIFIED_SENDER then
      if packet.ConnectionRequest? then ParseConnectionRequest(cfg, t, i, packet.password)
      else Close(t, cfg.hash, t.slots[i].address)
    else
      match packet
      case ConnectionRequest(password) =>
        if mode == REQUESTED_CONNECTION then ParseConnectionRequest(cfg, t, i, password) else t
      case NewIncomingConnection =>
        if mode == HANDLING_CONNECTION_REQUEST then SetMode(t, i, CONNECTED) else t
      case DisconnectionNotification => SetMode(t, i, DISCONNECT_ON_NO_ACK)
      case InvalidPassword =>
        if mode == REQUESTED_CONNECTION then SetMode(t, i, DISCONNECT_ASAP_SILENTLY) else t
      case ConnectionRequestAccepted =>
        if mode == HANDLING_CONNECTION_REQUEST || mode == REQUESTED_CONNECTION then SetMode(t, i, CONNECTED) else t
      case Payload => t
  }

  // ---- steps ----

  function RerouteTable(cfg: Config, t: Table, guid: Guid, sa: Address): Table
    requires Shaped(t)
  {
    var from := FromGuid(t, guid);
    if from.None? then t
    else
      var existing := HashIndex(t, cfg.hash, t.slots[from.value].address);
      if existing.Some? then Rehash(t, cfg.hash, sa, existing.value) else t
  }

  ghost predicate Enabled(cfg: Config, p: Peer, e: Event) {
    match e
    case Request2(sa, _, _) => sa != UNASSIGNED_SYSTEM_ADDRESS
    case Reply2(sa, _, _) => sa != UNASSIGNED_SYSTEM_ADDRESS
    case Deliver(i, _) => i < |p.table.slots| && p.table.slots[i].isActive
    case Drop(i) => i < |p.table.slots| && p.table.slots[i].isActive
    case Reroute(guid, sa) =>
      sa != UNASSIGNED_SYSTEM_ADDRESS && forall j: nat :: ActiveAt(p.table, j, sa) ==> FromGuid(p.table, guid) == Some(j)
    case _ => true
  }

  function Step(cfg: Config, p: Peer, e: Event): Peer
    requires Shaped(p.table) && Enabled(cfg, p, e)
  {
    var t := p.table;
    match e
    case Request2(sa, guid, now) => p.(table := OnRequest2(cfg, t, sa, guid, now))
    case Reply2(sa, guid, now) =>
      if sa in p.requested
      then Peer(OnReply2(cfg, t, sa, guid, now), Remove(p.requested, sa))
      else p
    case Connect(sa) =>
      if FromAddressScanned(t, sa, true).Some? || sa in p.requested then p else p.(requested := p.requested + [sa])
    case Withdraw(sa) => p.(requested := Remove(p.requested, sa))
    case Deliver(i, packet) => p.(table := OnPacket(cfg, t, i, packet))
    case Drop(i) => p.(table := Close(t, cfg.hash, t.slots[i].address))
    case CloseNow(sa) => p.(table := Close(t, cfg.hash, sa))
    case Flag(sa) =>
      var r := FromAddressHashed(t, cfg.hash, sa, true);
      if r.Some? then p.(table := SetMode(t, r.value, DISCONNECT_ASAP)) else p
    case Reroute(guid, sa) => p.(table := RerouteTable(cfg, t, guid, sa))
  }

  // ---- every step keeps the table in agreement ----

  /** Modes, initiative and times take no part in the agreement. */
  lemma SameKeysKeep(t: Table, u: Table, h: Hash)
    requires TableOk(t, h) && u.lookup == t.lookup && u.active == t.active && |u.slots| == |t.slots|
    requires forall j :: 0 <= j < |t.slots| ==>
      u.slots[j].address == t.slots[j].address && u.slots[j].isActive == t.slots[j].isActive
    ensures TableOk(u, h)
  {
    forall b | 0 <= b < |u.lookup| ensures ChainOk(u, h, b) { assert ChainOk(t, h, b); }
    forall j | 0 <= j < |u.slots| && u.slots[j].isActive
      ensures u.slots[j].address != UNASSIGNED_SYSTEM_ADDRESS && Hashed(u, h, j)
    {
      assert Hashed(t, h, j);
    }
  }

  lemma InUseIsFound(t: Table, h: Hash, sa: Address)
    requires TableOk(t, h) && sa != UNASSIGNED_SYSTEM_ADDRESS
    ensures FromAddressHashed(t, h, sa, true).Some? <==> AddressInUse(t, sa)
  {
    HashAgreesWithScan(t, h, sa);
    var r := FromAddressHashed(t, h, sa, true);
    if r.Some? { assert ActiveAt(t, r.value, sa); }
    if i: nat :| ActiveAt(t, i, sa) { assert Scan(t.slots, sa, true, 0) <= i; }
  }

  lemma Reply2KeepsTable(cfg: Config, t: Table, sa: Address, guid: Guid, now: nat)
    requires TableOk(t, cfg.hash) && sa != UNASSIGNED_SYSTEM_ADDRESS
    ensures TableOk(OnReply2(cfg, t, sa, guid, now), cfg.hash)
  {
    hide Assign, ConnectedRecently;
    InUseIsFound(t, cfg.hash, sa);
    if !AddressInUse(t, sa) {
      AssignKeeps(t, cfg.hash, sa, guid, UNVERIFIED_SENDER, now);
      var i := FirstFree(t.slots, 0);
      if i < |t.slots| {
        AssignShape(t, cfg.hash, sa, guid, UNVERIFIED_SENDER, now);
        var u := Assign(t, cfg.hash, sa, guid, UNVERIFIED_SENDER, now);
        SameKeysKeep(u, Ours(u, i), cfg.hash);
      }
    } else {
      SameKeysKeep(t, Ours(t, FromAddressHashed(t, cfg.hash, sa, true).value), cfg.hash);
    }
  }

  lemma PacketKeepsTable(cfg: Config, t: Table, i: nat, packet: Packet)
    requires TableOk(t, cfg.hash) && i < |t.slots|
    ensures TableOk(OnPacket(cfg, t, i, packet), cfg.hash)
  {
    hide Close;
    CloseKeeps(t, cfg.hash, t.slots[i].address);
    var u := OnPacket(cfg, t, i, packet);
    if !(t.slots[i].mode == UNVERIFIED_SENDER && !packet.ConnectionRequest?) { SameKeysKeep(t, u, cfg.hash); }
  }

  lemma StepKeepsTable(cfg: Config, p: Peer, e: Event)
    requires TableOk(p.table, cfg.hash) && Enabled(cfg, p, e)
    ensures TableOk(Step(cfg, p, e).table, cfg.hash)
  {
    var t := p.table;
    hide Assign, Close, Rehash, OnReply2, OnPacket, ConnectedRecently;
    match e
    case Request2(sa, guid, now) =>
      InUseIsFound(t, cfg.hash, sa);
      if Admit(cfg, t, sa, guid, now) == ALLOWED { AssignKeeps(t, cfg.hash, sa, guid, UNVERIFIED_SENDER, now); }
    case Reply2(sa, guid, now) => if sa in p.requested { Reply2KeepsTable(cfg, t, sa, guid, now); }
    case Connect(sa) =>
    case Withdraw(sa) =>
    case Deliver(i, packet) => PacketKeepsTable(cfg, t, i, packet);
    case Drop(i) => CloseKeeps(t, cfg.hash, t.slots[i].address);
    case CloseNow(sa) => CloseKeeps(t, cfg.hash, sa);
    case Flag(sa) =>
      var r := FromAddressHashed(t, cfg.hash, sa, true);
      if r.Some? { SameKeysKeep(t, SetMode(t, r.value, DISCONNECT_ASAP), cfg.hash); }
    case Reroute(guid, sa) =>
      var from := FromGuid(t, guid);
      if from.Some? {
        EntryIsFound(t, cfg.hash, from.value);
        RerouteKeeps(t, cfg.hash, sa, from.value);
      }
  }

  lemma AssignShape(t: Table, h: Hash, sa: Address, guid: Guid, mode: ConnectMode, time: nat)
    requires Shaped(t)
    ensures var i := FirstFree(t.slots, 0);
      var u := Assign(t, h, sa, guid, mode, time);
      && |u.slots| == |t.slots|
      && (i < |t.slots| ==> u.slots == t.slots[i := Slot(true, sa, guid, mode, false, time)])
      && (i == |t.slots| ==> u == t)
  {}

  // ---- admission over every run ----

  ghost predicate GuidInUse(t: Table, guid: Guid) {
    guid != UNASSIGNED_RAKNET_GUID && exists i :: 0 <= i < |t.slots| && t.slots[i].isActive && t.slots[i].guid == guid
  }

  lemma GuidInUseIsFound(t: Table, guid: Guid)
    ensures FromGuid(t, guid).Some? <==> GuidInUse(t, guid)
  {
    if GuidInUse(t, guid) {
      var i :| 0 <= i < |t.slots| && t.slots[i].isActive && t.slots[i].guid == guid;
      assert ScanGuid(t.slots, guid, 0) <= i;
    }
  }

  /**
   REQUEST_2 changes the table only for an address and a GUID that no active slot holds, and then
   adds exactly one slot for them.
   */
  lemma AdmissionIsExclusive(cfg: Config, t: Table, sa: Address, guid: Guid, now: nat)
    requires TableOk(t, cfg.hash) && sa != UNASSIGNED_SYSTEM_ADDRESS
    ensures AddressInUse(t, sa) || GuidInUse(t, guid) ==> OnRequest2(cfg, t, sa, guid, now) == t
    ensures OnRequest2(cfg, t, sa, guid, now) != t ==> (
      var i := FirstFree(t.slots, 0);
      && i < |t.slots|
      && OnRequest2(cfg, t, sa, guid, now).slots ==
         t.slots[i := Slot(true, sa, guid, UNVERIFIED_SENDER, false, now)])
  {
    hide Assign, FromAddressHashed, FromGuid;
    InUseIsFound(t, cfg.hash, sa);
    GuidInUseIsFound(t, guid);
    AssignShape(t, cfg.hash, sa, guid, UNVERIFIED_SENDER, now);
  }

  /**
   The same answer is repeated exactly when the unverified slot of the address is also the one
   with the GUID, and nothing changes then.
   */
  lemma DuplicateRequest(cfg: Config, t: Table, sa: Address, guid: Guid, now: nat)
    requires TableOk(t, cfg.hash) && sa != UNASSIGNED_SYSTEM_ADDRESS
    ensures Admit(cfg, t, sa, guid, now) == SAME_ANSWER <==>
      exists i: nat :: ActiveAt(t, i, sa) && FromGuid(t, guid) == Some(i) && t.slots[i].mode == UNVERIFIED_SENDER
    ensures Admit(cfg, t, sa, guid, now) == SAME_ANSWER ==> OnRequest2(cfg, t, sa, guid, now) == t
  {
    var f := FromAddressHashed(t, cfg.hash, sa, true);
    if f.Some? { assert ActiveAt(t, f.value, sa); }
    forall i: nat | ActiveAt(t, i, sa) ensures f == Some(i) { EntryIsFound(t, cfg.hash, i); }
  }

  /** Two active slots share a GUID only if it is the unassigned one. */
  ghost predicate GuidsDistinct(t: Table) {
    forall i, j :: (0 <= i < j < |t.slots| && t.slots[i].isActive && t.slots[j].isActive) ==>
      (t.slots[i].guid == t.slots[j].guid ==> t.slots[i].guid == UNASSIGNED_RAKNET_GUID)
  }

  lemma CloseShape(t: Table, h: Hash, sa: Address)
    requires Shaped(t)
    ensures |Close(t, h, sa).slots| == |t.slots|
    ensures forall j :: 0 <= j < |t.slots| ==>
      Close(t, h, sa).slots[j] == t.slots[j]
      || Close(t, h, sa).slots[j] == t.slots[j].(isActive := false, guid := UNASSIGNED_RAKNET_GUID)
  {}

  lemma PacketKeepsGuids(cfg: Config, t: Table, i: nat, packet: Packet)
    requires Shaped(t) && i < |t.slots| && GuidsDistinct(t)
    ensures GuidsDistinct(OnPacket(cfg, t, i, packet))
  {
    hide Close;
    CloseShape(t, cfg.hash, t.slots[i].address);
  }

  /** Only an answer to one of our own attempts can bring in a GUID a second time. */
  lemma StepKeepsGuids(cfg: Config, p: Peer, e: Event)
    requires TableOk(p.table, cfg.hash) && Enabled(cfg, p, e) && GuidsDistinct(p.table) && !e.Reply2?
    ensures GuidsDistinct(Step(cfg, p, e).table)
  {
    var t := p.table;
    hide Assign, Close, Rehash, OnRequest2, OnPacket;
    match e
    case Request2(sa, guid, now) => AdmissionIsExclusive(cfg, t, sa, guid, now);
    case Deliver(i, packet) => PacketKeepsGuids(cfg, t, i, packet);
    case Drop(i) => CloseShape(t, cfg.hash, t.slots[i].address);
    case CloseNow(sa) => CloseShape(t, cfg.hash, sa);
    case Reroute(guid, sa) =>
      var from := FromGuid(t, guid);
      if from.Some? {
        EntryIsFound(t, cfg.hash, from.value);
        RehashSlots(t, cfg.hash, sa, from.value);
      }
    case _ =>
  }

  /** REPLY_2 does so exactly when it opens a slot for a GUID that is already in use. */
  lemma Reply2Guids(cfg: Config, p: Peer, sa: Address, guid: Guid, now: nat)
    requires TableOk(p.table, cfg.hash) && GuidsDistinct(p.table) && sa != UNASSIGNED_SYSTEM_ADDRESS
    ensures GuidsDistinct(Step(cfg, p, Reply2(sa, guid, now)).table) <==>
      !(sa in p.requested && !AddressInUse(p.table, sa) && GuidInUse(p.table, guid)
        && FirstFree(p.table.slots, 0) < |p.table.slots| && !ConnectedRecently(cfg, p.table, sa, now))
  {
    hide Assign;
    var t := p.table;
    InUseIsFound(t, cfg.hash, sa);
    AssignShape(t, cfg.hash, sa, guid, UNVERIFIED_SENDER, now);
    var i := FirstFree(t.slots, 0);
    if sa in p.requested && !AddressInUse(t, sa) && i < |t.slots| && !ConnectedRecently(cfg, t, sa, now) {
      var u := OnReply2(cfg, t, sa, guid, now);
      assert u.slots[i].isActive && u.slots[i].guid == guid;
      if GuidInUse(t, guid) {
        var j :| 0 <= j < |t.slots| && t.slots[j].isActive && t.slots[j].guid == guid;
        assert j != i && u.slots[j] == t.slots[j];
      }
    }
  }

  // ---- connection modes over every run ----

  /** `ps` are the states of a run through the events `es`. */
  ghost predicate Trace(cfg: Config, ps: seq<Peer>, es: seq<Event>) {
    && |ps| == |es| + 1
    && TableOk(ps[0].table, cfg.hash)
    && forall k :: 0 <= k < |es| ==>
         Shaped(ps[k].table) && Enabled(cfg, ps[k], es[k]) && ps[k + 1] == Step(cfg, ps[k], es[k])
  }

  lemma {:induction false} TraceKeepsTable(cfg: Config, ps: seq<Peer>, es: seq<Event>, n: nat)
    requires Trace(cfg, ps, es) && n < |ps|
    ensures TableOk(ps[n].table, cfg.hash) && |ps[n].table.slots| == |ps[0].table.slots|
    decreases n
  {
    if n > 0 {
      TraceKeepsTable(cfg, ps, es, n - 1);
      StepKeepsTable(cfg, ps[n - 1], es[n - 1]);
      StepKeepsSize(cfg, ps[n - 1], es[n - 1]);
    }
  }

  lemma StepKeepsSize(cfg: Config, p: Peer, e: Event)
    requires Shaped(p.table) && Enabled(cfg, p, e)
    ensures |Step(cfg, p, e).table.slots| == |p.table.slots|
  {}

  /** A matching password moved slot `i` to HANDLING_CONNECTION_REQUEST. */
  ghost predicate Authenticates(cfg: Config, e: Event, i: nat, before: Slot, after: Slot) {
    && e == Deliver(i, ConnectionRequest(cfg.password))
    && before.isActive && (before.mode == UNVERIFIED_SENDER || before.mode == REQUESTED_CONNECTION)
    && after.isActive && after.mode == HANDLING_CONNECTION_REQUEST
  }

  /** REPLY_2 for one of our pending attempts at the address of the slot. */
  ghost predicate AnswersUs(p: Peer, e: Event, before: Slot) {
    e.Reply2? && e.sa == before.address && e.sa in p.requested
  }

  /** Everything a step can do to the mode of a slot that is active afterwards. */
  ghost predicate ModeChange(cfg: Config, p: Peer, e: Event, i: nat, before: Slot, after: Slot) {
    if !before.isActive then
      (after.mode == UNVERIFIED_SENDER && !after.weInitiated) || (after.mode == REQUESTED_CONNECTION && after.weInitiated)
    else
      || (after.mode == before.mode && after.weInitiated == before.weInitiated)
      || (after.weInitiated == before.weInitiated && Authenticates(cfg, e, i, before, after))
      || (after.weInitiated == before.weInitiated && after.mode == CONNECTED
          && (before.mode == HANDLING_CONNECTION_REQUEST || before.mode == REQUESTED_CONNECTION))
      || (after.weInitiated == before.weInitiated && Disconnecting(after.mode))
      || (after.weInitiated && after.mode == REQUESTED_CONNECTION && AnswersUs(p, e, before))
  }

  lemma Reply2Modes(cfg: Config, p: Peer, e: Event, i: nat)
    requires TableOk(p.table, cfg.hash) && Enabled(cfg, p, e) && i < |p.table.slots| && e.Reply2?
    ensures |Step(cfg, p, e).table.slots| == |p.table.slots|
    ensures Step(cfg, p, e).table.slots[i].isActive ==>
      ModeChange(cfg, p, e, i, p.table.slots[i], Step(cfg, p, e).table.slots[i])
  {
    hide Assign, ConnectedRecently;
    AssignShape(p.table, cfg.hash, e.sa, e.guid, UNVERIFIED_SENDER, e.now);
  }

  lemma DeliverModes(cfg: Config, p: Peer, e: Event, i: nat)
    requires TableOk(p.table, cfg.hash) && Enabled(cfg, p, e) && i < |p.table.slots| && e.Deliver?
    ensures |Step(cfg, p, e).table.slots| == |p.table.slots|
    ensures Step(cfg, p, e).table.slots[i].isActive ==>
      ModeChange(cfg, p, e, i, p.table.slots[i], Step(cfg, p, e).table.slots[i])
  {
    hide Close;
    CloseShape(p.table, cfg.hash, p.table.slots[e.i].address);
  }

  lemma RerouteModes(cfg: Config, p: Peer, e: Event, i: nat)
    requires TableOk(p.table, cfg.hash) && Enabled(cfg, p, e) && i < |p.table.slots| && e.Reroute?
    ensures |Step(cfg, p, e).table.slots| == |p.table.slots|
    ensures Step(cfg, p, e).table.slots[i].isActive ==>
      ModeChange(cfg, p, e, i, p.table.slots[i], Step(cfg, p, e).table.slots[i])
  {
    hide Rehash;
    var from := FromGuid(p.table, e.guid);
    if from.Some? {
      EntryIsFound(p.table, cfg.hash, from.value);
      RehashSlots(p.table, cfg.hash, e.sa, from.value);
    }
  }

  lemma StepModes(cfg: Config, p: Peer, e: Event, i: nat)
    requires TableOk(p.table, cfg.hash) && Enabled(cfg, p, e) && i < |p.table.slots|
    ensures |Step(cfg, p, e).table.slots| == |p.table.slots|
    ensures Step(cfg, p, e).table.slots[i].isActive ==>
      ModeChange(cfg, p, e, i, p.table.slots[i], Step(cfg, p, e).table.slots[i])
  {
    var t := p.table;
    match e
    case Request2(sa, guid, now) =>
      hide Assign, Admit;
      AssignShape(t, cfg.hash, sa, guid, UNVERIFIED_SENDER, now);
    case Reply2(sa, guid, now) => Reply2Modes(cfg, p, e, i);
    case Deliver(k, packet) => DeliverModes(cfg, p, e, i);
    case Drop(k) => hide Close; CloseShape(t, cfg.hash, t.slots[k].address);
    case CloseNow(sa) => hide Close; CloseShape(t, cfg.hash, sa);
    case Reroute(guid, sa) => RerouteModes(cfg, p, e, i);
    case _ =>
  }

  /** Slot `i` is active from state `m` to state `n`. */
  ghost predicate ActiveThroughout(ps: seq<Peer>, i: nat, m: nat, n: nat)
    requires n < |ps|
  {
    forall k :: m <= k <= n ==> i < |ps[k].table.slots| && ps[k].table.slots[i].isActive
  }

  /** At step `k` the slot was authenticated, and it has not been closed since. */
  ghost predicate AuthenticatedAt(cfg: Config, ps: seq<Peer>, es: seq<Event>, i: nat, k: nat, n: nat)
    requires |ps| == |es| + 1 && n < |ps|
  {
    && k < n
    && i < |ps[k].table.slots| && i < |ps[k + 1].table.slots|
    && Authenticates(cfg, es[k], i, ps[k].table.slots[i], ps[k + 1].table.slots[i])
    && ActiveThroughout(ps, i, k, n)
  }

  ghost predicate Initial(p: Peer) {
    forall i :: 0 <= i < |p.table.slots| ==> !p.table.slots[i].isActive
  }

  /**
   Over every run: an active slot that we did not initiate is being handled or is connected only
   after a connection request with the right password, since the slot was last opened. And a slot
   waits for an answer only when we initiated it.
   */
  lemma {:induction false} ConnectedMeansAuthenticated(cfg: Config, ps: seq<Peer>, es: seq<Event>, i: nat, n: nat)
    requires Trace(cfg, ps, es) && Initial(ps[0]) && n < |ps| && i < |ps[n].table.slots|
    ensures var s := ps[n].table.slots[i];
      && (s.isActive && s.mode == REQUESTED_CONNECTION ==> s.weInitiated)
      && (s.isActive && !s.weInitiated && (s.mode == CONNECTED || s.mode == HANDLING_CONNECTION_REQUEST) ==>
           exists k: nat :: AuthenticatedAt(cfg, ps, es, i, k, n))
    decreases n
  {
    hide Step, Enabled;
    TraceKeepsTable(cfg, ps, es, n);
    if n > 0 {
      var m := n - 1;
      TraceKeepsTable(cfg, ps, es, m);
      ConnectedMeansAuthenticated(cfg, ps, es, i, m);
      StepModes(cfg, ps[m], es[m], i);
      var before, after := ps[m].table.slots[i], ps[n].table.slots[i];
      if after.isActive && !after.weInitiated && (after.mode == CONNECTED || after.mode == HANDLING_CONNECTION_REQUEST) {
        if Authenticates(cfg, es[m], i, before, after) {
          assert AuthenticatedAt(cfg, ps, es, i, m, n);
        } else {
          var k: nat :| AuthenticatedAt(cfg, ps, es, i, k, m);
          assert AuthenticatedAt(cfg, ps, es, i, k, n);
        }
      }
    }
  }

  /**
   Over every run: a slot on its way out stays on its way out until it is closed, unless an answer
   to one of our own pending attempts takes it over.
   */
  lemma {:induction false} DisconnectingStays(cfg: Config, ps: seq<Peer>, es: seq<Event>, i: nat, m: nat, n: nat)
    requires Trace(cfg, ps, es) && m <= n < |ps| && i < |ps[m].table.slots|
    requires ActiveThroughout(ps, i, m, n) && Disconnecting(ps[m].table.slots[i].mode)
    requires forall k :: m <= k < n ==> !AnswersUs(ps[k], es[k], ps[k].table.slots[i])
    ensures Disconnecting(ps[n].table.slots[i].mode)
    decreases n
  {
    hide Step, Enabled;
    if m < n {
      DisconnectingStays(cfg, ps, es, i, m, n - 1);
      TraceKeepsTable(cfg, ps, es, n - 1);
      StepModes(cfg, ps[n - 1], es[n - 1], i);
    }
  }

  /** An answer that no pending attempt waits for changes nothing, and without new attempts none does. */
  lemma {:induction false} NothingRequested(cfg: Config, ps: seq<Peer>, es: seq<Event>, n: nat)
    requires Trace(cfg, ps, es) && ps[0].requested == [] && n < |ps|
    requires forall k :: 0 <= k < n ==> !es[k].Connect?
    ensures ps[n].requested == []
    decreases n
  {
    hide OnRequest2, OnReply2, OnPacket, Close, RerouteTable, TableOk, Enabled;
    if n > 0 { NothingRequested(cfg, ps, es, n - 1); }
  }

  /**
   In runs without attempts of our own the assigned GUIDs stay pairwise distinct, whatever the
   network sends.
   */
  lemma {:induction false} TraceKeepsGuids(cfg: Config, ps: seq<Peer>, es: seq<Event>, n: nat)
    requires Trace(cfg, ps, es) && GuidsDistinct(ps[0].table) && n < |ps|
    requires ps[0].requested == [] && forall k :: 0 <= k < n ==> !es[k].Connect?
    ensures GuidsDistinct(ps[n].table)
    decreases n
  {
    if n > 0 {
      TraceKeepsGuids(cfg, ps, es, n - 1);
      TraceKeepsTable(cfg, ps, es, n - 1);
      NothingRequested(cfg, ps, es, n - 1);
      if es[n - 1].Reply2? {
        assert ps[n] == ps[n - 1];
      } else {
        StepKeepsGuids(cfg, ps[n - 1], es[n - 1]);
      }
    }
  }

  // ---- both modes of the index lookup over every run ----

  /** Addresses and chains are all that the order of hashed slots depends on. */
  lemma SameAddressesKeepLowest(t: Table, u: Table)
    requires LowestHashed(t) && u.lookup == t.lookup && |u.slots| == |t.slots|
    requires forall j :: 0 <= j < |t.slots| ==> u.slots[j].address == t.slots[j].address
    ensures LowestHashed(u)
  {
    assert forall b: nat, i: nat :: Entry(u, b, i) <==> Entry(t, b, i);
  }

  lemma Reply2KeepsLowest(cfg: Config, t: Table, sa: Address, guid: Guid, now: nat)
    requires TableOk(t, cfg.hash) && LowestHashed(t) && sa != UNASSIGNED_SYSTEM_ADDRESS
    ensures LowestHashed(OnReply2(cfg, t, sa, guid, now))
  {
    hide Assign, ConnectedRecently, LowestHashed;
    InUseIsFound(t, cfg.hash, sa);
    if !AddressInUse(t, sa) {
      AssignKeepsLowest(t, cfg.hash, sa, guid, UNVERIFIED_SENDER, now);
      var i := FirstFree(t.slots, 0);
      if i < |t.slots| {
        AssignShape(t, cfg.hash, sa, guid, UNVERIFIED_SENDER, now);
        var u := Assign(t, cfg.hash, sa, guid, UNVERIFIED_SENDER, now);
        SameAddressesKeepLowest(u, Ours(u, i));
      }
    } else {
      SameAddressesKeepLowest(t, Ours(t, FromAddressHashed(t, cfg.hash, sa, true).value));
    }
  }

  lemma PacketKeepsLowest(cfg: Config, t: Table, i: nat, packet: Packet)
    requires Shaped(t) && LowestHashed(t) && i < |t.slots|
    ensures LowestHashed(OnPacket(cfg, t, i, packet))
  {
    hide Close, LowestHashed;
    CloseKeepsLowest(t, cfg.hash, t.slots[i].address);
    var u := OnPacket(cfg, t, i, packet);
    if !(t.slots[i].mode == UNVERIFIED_SENDER && !packet.ConnectionRequest?) { SameAddressesKeepLowest(t, u); }
  }

  /** Every step but a reroute leaves each hashed slot the lowest with its address. */
  lemma StepKeepsLowest(cfg: Config, p: Peer, e: Event)
    requires TableOk(p.table, cfg.hash) && LowestHashed(p.table) && Enabled(cfg, p, e) && !e.Reroute?
    ensures LowestHashed(Step(cfg, p, e).table)
  {
    var t := p.table;
    hide Assign, Close, OnReply2, OnPacket, ConnectedRecently, LowestHashed;
    match e
    case Request2(sa, guid, now) =>
      InUseIsFound(t, cfg.hash, sa);
      if Admit(cfg, t, sa, guid, now) == ALLOWED { AssignKeepsLowest(t, cfg.hash, sa, guid, UNVERIFIED_SENDER, now); }
    case Reply2(sa, guid, now) => Reply2KeepsLowest(cfg, t, sa, guid, now);
    case Deliver(i, packet) => PacketKeepsLowest(cfg, t, i, packet);
    case Drop(i) => CloseKeepsLowest(t, cfg.hash, t.slots[i].address);
    case CloseNow(sa) => CloseKeepsLowest(t, cfg.hash, sa);
    case Flag(sa) =>
      var r := FromAddressHashed(t, cfg.hash, sa, true);
      if r.Some? { SameAddressesKeepLowest(t, SetMode(t, r.value, DISCONNECT_ASAP)); }
    case _ =>
  }

  /** No slot has been hashed yet. */
  ghost predicate NothingHashed(t: Table) {
    forall b :: 0 <= b < |t.lookup| ==> t.lookup[b] == []
  }

  lemma {:induction false} TraceKeepsLowest(cfg: Config, ps: seq<Peer>, es: seq<Event>, n: nat)
    requires Trace(cfg, ps, es) && NothingHashed(ps[0].table) && n < |ps|
    requires forall k :: 0 <= k < n ==> !es[k].Reroute?
    ensures LowestHashed(ps[n].table)
    decreases n
  {
    if n > 0 {
      TraceKeepsLowest(cfg, ps, es, n - 1);
      TraceKeepsTable(cfg, ps, es, n - 1);
      StepKeepsLowest(cfg, ps[n - 1], es[n - 1]);
    }
  }

  /**
   Over every run without reroutes: whenever the hash finds an address, the scan finds the same
   slot, which is the lowest with that address, with or without a hint.
   */
  lemma IndexModesAgreeThroughout(cfg: Config, ps: seq<Peer>, es: seq<Event>, n: nat, sa: Address, hint: nat)
    requires Trace(cfg, ps, es) && NothingHashed(ps[0].table) && n < |ps|
    requires forall k :: 0 <= k < n ==> !es[k].Reroute?
    ensures Shaped(ps[n].table)
    ensures var t := ps[n].table;
      && (IndexFromAddress(t, cfg.hash, sa, hint, true).Some? ==>
           IndexFromAddress(t, cfg.hash, sa, hint, false) == IndexFromAddress(t, cfg.hash, sa, hint, true))
      && (HashIndex(t, cfg.hash, sa).Some? ==>
           forall j: nat :: j < HashIndex(t, cfg.hash, sa).value ==> t.slots[j].address != sa)
  {
    var t := ps[n].table;
    TraceKeepsTable(cfg, ps, es, n);
    TraceKeepsLowest(cfg, ps, es, n);
    if IndexFromAddress(t, cfg.hash, sa, hint, true).Some? { IndexModesAgree(t, cfg.hash, sa, hint); }
    if HashIndex(t, cfg.hash, sa).Some? {
      HitIsEntry(t, cfg.hash, sa);
      assert Entry(t, Bucket(cfg.hash, sa, |t.lookup|), HashIndex(t, cfg.hash, sa).value);
    }
  }
}
