/**
 The second half of `RunUpdateCycle`: one pass over the active list, which shrinks under the loop
 because closing a slot moves the last entry into its place.
 */
module UpdateSweep {
  import opened Sequences
  import opened RemoteSystems
  import opened Handshake

  /** What the reliability layer of a slot answers in this cycle. */
  datatype Reliability = Reliability(
    dead: bool,
    outgoingWaiting: bool,
    acksWaiting: bool,
    ackTimeout: bool,
    inbox: seq<Packet>)   // empty once the slot has been closed and the layer reset

  type Layers = nat -> Reliability

  /** The failure conditions that make the cycle close a slot. */
  predicate Fails(s: Slot, r: Reliability, now: nat) {
    || r.dead
    || ((s.mode == DISCONNECT_ASAP || s.mode == DISCONNECT_ASAP_SILENTLY) && !r.outgoingWaiting)
    || (s.mode == DISCONNECT_ON_NO_ACK && (!r.acksWaiting || r.ackTimeout))
    || ((s.mode == REQUESTED_CONNECTION || s.mode == HANDLING_CONNECTION_REQUEST || s.mode == UNVERIFIED_SENDER)
        && now > s.connectionTime && now - s.connectionTime > 10000)
  }

  /** The receive loop of one slot: it ends early when the slot is closed. */
  function DeliverAll(cfg: Config, t: Table, i: nat, packets: seq<Packet>): Table
    requires Shaped(t) && i < |t.slots|
    decreases |packets|
  {
    if packets == [] || !t.slots[i].isActive then t
    else DeliverAll(cfg, OnPacket(cfg, t, i, packets[0]), i, packets[1..])
  }

  function Service(cfg: Config, t: Table, i: nat, layers: Layers, now: nat): Table
    requires Shaped(t) && i < |t.slots|
  {
    if Fails(t.slots[i], layers(i), now) then Close(t, cfg.hash, t.slots[i].address)
    else DeliverAll(cfg, t, i, layers(i).inbox)
  }

  /** Either nobody left the active list, or exactly the entry at `k`, replaced by the last one. */
  ghost predicate LeavesOnly(t: Table, u: Table, k: nat)
    requires k < |t.active|
  {
    u.active == t.active || u.active == SwapRemove(t.active, k)
  }

  lemma CloseLeaves(t: Table, h: Hash, k: nat)
    requires TableOk(t, h) && k < |t.active|
    ensures Close(t, h, t.slots[t.active[k]].address).active == SwapRemove(t.active, k)
  {
    var i := t.active[k];
    assert i in t.active && t.slots[i].isActive;
    EntryIsFound(t, h, i);
    var m := FindEntry(t.slots, t.active, t.slots[i].address);
    assert m <= k;
    assert t.active[m] in t.active;
    ActiveAddressesDiffer(t, h, i, t.active[m]);
  }

  lemma PacketKeeps(cfg: Config, t: Table, k: nat, packet: Packet)
    requires TableOk(t, cfg.hash) && k < |t.active|
    ensures var u := OnPacket(cfg, t, t.active[k], packet);
      && TableOk(u, cfg.hash) && |u.slots| == |t.slots| && LeavesOnly(t, u, k)
      && (u.active != t.active ==> !u.slots[t.active[k]].isActive)
      && (u.active == t.active ==> u.slots[t.active[k]].isActive)
  {
    var i := t.active[k];
    assert i in t.active && t.slots[i].isActive;
    var p := Peer(t, []);
    assert Step(cfg, p, Deliver(i, packet)).table == OnPacket(cfg, t, i, packet);
    StepKeepsTable(cfg, p, Deliver(i, packet));
    CloseLeaves(t, cfg.hash, k);
    CloseKeeps(t, cfg.hash, t.slots[i].address);
    assert ActiveAt(t, i, t.slots[i].address);
  }

  lemma {:induction false} DeliverAllKeeps(cfg: Config, t: Table, k: nat, packets: seq<Packet>)
    requires TableOk(t, cfg.hash) && k < |t.active|
    ensures var u := DeliverAll(cfg, t, t.active[k], packets);
      TableOk(u, cfg.hash) && |u.slots| == |t.slots| && LeavesOnly(t, u, k)
    decreases |packets|
  {
    var i := t.active[k];
    assert Shaped(t) && i < |t.slots|;
    hide OnPacket, TableOk;
    if packets != [] && t.slots[i].isActive {
      var u := OnPacket(cfg, t, i, packets[0]);
      PacketKeeps(cfg, t, k, packets[0]);
      if u.active == t.active {
        DeliverAllKeeps(cfg, u, k, packets[1..]);
      }
    }
  }

  lemma ServiceKeeps(cfg: Config, t: Table, k: nat, layers: Layers, now: nat)
    requires TableOk(t, cfg.hash) && k < |t.active|
    ensures var u := Service(cfg, t, t.active[k], layers, now);
      TableOk(u, cfg.hash) && |u.slots| == |t.slots| && LeavesOnly(t, u, k)
  {
    CloseKeeps(t, cfg.hash, t.slots[t.active[k]].address);
    CloseLeaves(t, cfg.hash, k);
    DeliverAllKeeps(cfg, t, k, layers(t.active[k]).inbox);
  }

  /** The table after the sweep and the slots it serviced, in order. */
  ghost function Sweep(cfg: Config, t: Table, k: nat, layers: Layers, now: nat): (Table, seq<nat>)
    requires TableOk(t, cfg.hash)
    decreases |t.active| - k
  {
    if k >= |t.active| then (t, [])
    else
      ServiceKeeps(cfg, t, k, layers, now);
      var u := Service(cfg, t, t.active[k], layers, now);
      var (v, later) := Sweep(cfg, u, k + 1, layers, now);
      (v, [t.active[k]] + later)
  }

  /** The entries a sweep at position `k` has yet to look at. */
  function Ahead(t: Table, k: nat): seq<nat> {
    if k < |t.active| then t.active[k..] else []
  }

  /**
   One sweep services no slot twice and only slots that were active, keeps the table in agreement,
   and skips at most as many slots as it closes.
   */
  lemma {:induction false} SweepServicesOnce(cfg: Config, t: Table, k: nat, layers: Layers, now: nat)
    requires TableOk(t, cfg.hash)
    ensures var (v, serviced) := Sweep(cfg, t, k, layers, now);
      && TableOk(v, cfg.hash) && |v.slots| == |t.slots|
      && NoDuplicates(serviced)
      && (forall i :: i in serviced ==> i in Ahead(t, k))
      && (|t.active| - k) - |serviced| <= |t.active| - |v.active|
    decreases |t.active| - k
  {
    if k < |t.active| {
      assert Shaped(t) && t.active[k] < |t.slots|;
      ServiceKeeps(cfg, t, k, layers, now);
      var u := Service(cfg, t, t.active[k], layers, now);
      LaterEntries(t, u, k, cfg.hash);
      hide Service, TableOk;
      SweepServicesOnce(cfg, u, k + 1, layers, now);
      var later := Sweep(cfg, u, k + 1, layers, now).1;
      assert t.active[k] in Ahead(t, k) by { assert Ahead(t, k)[0] == t.active[k]; }
    }
  }

  /** What the sweep has yet to look at was ahead of it before, and is not the slot just serviced. */
  lemma LaterEntries(t: Table, u: Table, k: nat, h: Hash)
    requires TableOk(t, h) && k < |t.active| && LeavesOnly(t, u, k)
    ensures forall i :: i in Ahead(u, k + 1) ==> i in Ahead(t, k) && i != t.active[k]
  {
    forall i | i in Ahead(u, k + 1) ensures i in Ahead(t, k) && i != t.active[k] {
      var m :| 0 <= m < |Ahead(u, k + 1)| && Ahead(u, k + 1)[m] == i;
      assert u.active[k + 1 + m] == t.active[k + 1 + m] == i;
      assert Ahead(t, k)[m + 1] == i;
    }
  }

  // ---- the loops themselves ----

  /** `systems` belongs to a peer with this configuration. */
  ghost predicate Serves(cfg: Config, systems: RemoteSystemTable)
    reads systems, systems.remoteSystemList, systems.remoteSystemLookup, systems.activeSystemList
  {
    systems.Valid() && systems.hash == cfg.hash
  }

  method SetConnectMode(systems: RemoteSystemTable, ghost cfg: Config, i: nat, mode: ConnectMode)
    requires Serves(cfg, systems) && i < systems.remoteSystemList.Length
    modifies systems.remoteSystemList
    ensures Serves(cfg, systems) && systems.Value() == SetMode(old(systems.Value()), i, mode)
  {
    ghost var was := systems.Value();
    systems.remoteSystemList[i] := systems.remoteSystemList[i].(mode := mode);
    assert systems.Value() == SetMode(was, i, mode);
    SameKeysKeep(was, systems.Value(), cfg.hash);
  }

  method ParseConnectionRequestPacket(systems: RemoteSystemTable, cfg: Config, i: nat, password: seq<bv8>)
    requires Serves(cfg, systems) && i < systems.remoteSystemList.Length
    modifies systems.remoteSystemList
    ensures Serves(cfg, systems) && systems.Value() == ParseConnectionRequest(cfg, old(systems.Value()), i, password)
  {
    if |cfg.password| != |password| || password != cfg.password {
      SetConnectMode(systems, cfg, i, DISCONNECT_ASAP_SILENTLY);
      return;
    }
    SetConnectMode(systems, cfg, i, HANDLING_CONNECTION_REQUEST);
  }

  /** One packet of the receive loop. */
  method HandlePacket(systems: RemoteSystemTable, cfg: Config, i: nat, packet: Packet)
    requires Serves(cfg, systems) && i < systems.remoteSystemList.Length
    modifies systems, systems.remoteSystemList, systems.activeSystemList
    ensures Serves(cfg, systems) && systems.Value() == OnPacket(cfg, old(systems.Value()), i, packet)
  {
    var slot := systems.remoteSystemList[i];
    if slot.mode == UNVERIFIED_SENDER {
      if packet.ConnectionRequest? {
        ParseConnectionRequestPacket(systems, cfg, i, packet.password);
      } else {
        systems.CloseConnectionInternal(slot.address);
      }
    } else if packet.ConnectionRequest? {
      if slot.mode == REQUESTED_CONNECTION {
        ParseConnectionRequestPacket(systems, cfg, i, packet.password);
      }
    } else if packet.NewIncomingConnection? {
      if slot.mode == HANDLING_CONNECTION_REQUEST {
        SetConnectMode(systems, cfg, i, CONNECTED);
      }
    } else if packet.DisconnectionNotification? {
      SetConnectMode(systems, cfg, i, DISCONNECT_ON_NO_ACK);
    } else if packet.InvalidPassword? {
      if slot.mode == REQUESTED_CONNECTION {
        SetConnectMode(systems, cfg, i, DISCONNECT_ASAP_SILENTLY);
      }
    } else if packet.ConnectionRequestAccepted? {
      if slot.mode == HANDLING_CONNECTION_REQUEST || slot.mode == REQUESTED_CONNECTION {
        SetConnectMode(systems, cfg, i, CONNECTED);
      }
    }
  }

  method ServiceSystem(systems: RemoteSystemTable, cfg: Config, i: nat, layer: Reliability, now: nat,
                       ghost layers: Layers)
    requires Serves(cfg, systems) && i < systems.remoteSystemList.Length && layer == layers(i)
    modifies systems, systems.remoteSystemList, systems.activeSystemList
    ensures Serves(cfg, systems) && systems.Value() == Service(cfg, old(systems.Value()), i, layers, now)
  {
    var slot := systems.remoteSystemList[i];
    if Fails(slot, layer, now) {
      systems.CloseConnectionInternal(slot.address);
      return;
    }
    ghost var was := systems.Value();
    var k := 0;
    while k < |layer.inbox| && systems.remoteSystemList[i].isActive
      invariant k <= |layer.inbox| && Serves(cfg, systems)
      invariant DeliverAll(cfg, systems.Value(), i, layer.inbox[k..]) == DeliverAll(cfg, was, i, layer.inbox)
    {
      assert layer.inbox[k..][1..] == layer.inbox[k + 1..];
      HandlePacket(systems, cfg, i, layer.inbox[k]);
      k := k + 1;
    }
  }

  method RunUpdateCycle(systems: RemoteSystemTable, cfg: Config, layers: Layers, now: nat)
    returns (ghost serviced: seq<nat>)
    requires Serves(cfg, systems)
    modifies systems, systems.remoteSystemList, systems.activeSystemList
    ensures Serves(cfg, systems)
    ensures systems.Value() == Sweep(cfg, old(systems.Value()), 0, layers, now).0
    ensures serviced == Sweep(cfg, old(systems.Value()), 0, layers, now).1
  {
    serviced := [];
    ghost var whole := Sweep(cfg, systems.Value(), 0, layers, now);
    var activeSystemListIndex := 0;
    while activeSystemListIndex < systems.activeSystemListSize
      invariant Serves(cfg, systems)
      invariant whole.0 == Sweep(cfg, systems.Value(), activeSystemListIndex, layers, now).0
      invariant whole.1 == serviced + Sweep(cfg, systems.Value(), activeSystemListIndex, layers, now).1
      decreases systems.activeSystemListSize - activeSystemListIndex
    {
      ghost var was := systems.Value();
      var i := systems.activeSystemList[activeSystemListIndex];
      assert i == was.active[activeSystemListIndex];
      ServiceKeeps(cfg, was, activeSystemListIndex, layers, now);
      ServiceSystem(systems, cfg, i, layers(i), now, layers);
      assert |systems.Value().active| == systems.activeSystemListSize;
      ghost var rest := Sweep(cfg, systems.Value(), activeSystemListIndex + 1, layers, now).1;
      assert serviced + ([i] + rest) == (serviced + [i]) + rest;
      serviced := serviced + [i];
      activeSystemListIndex := activeSystemListIndex + 1;
    }
    assert activeSystemListIndex >= |systems.Value().active|;
    assert Sweep(cfg, systems.Value(), activeSystemListIndex, layers, now) == (systems.Value(), []);
  }
}
