/** The loops behind ID_OPEN_CONNECTION_REQUEST_2 and ID_OPEN_CONNECTION_REPLY_2. */
module Admission {
  import opened Sequences
  import opened RemoteSystems
  import opened Handshake
  import opened UpdateSweep

  method GetRemoteSystemFromGUID(systems: RemoteSystemTable, guid: Guid) returns (r: Option<nat>)
    requires systems.Wellformed()
    ensures r == FromGuid(systems.Value(), guid)
  {
    if guid == UNASSIGNED_RAKNET_GUID {
      return None;
    }
    for i := 0 to systems.remoteSystemList.Length
      invariant forall j :: 0 <= j < i ==>
        !(systems.remoteSystemList[j].guid == guid && systems.remoteSystemList[j].isActive)
    {
      if systems.remoteSystemList[i].guid == guid && systems.remoteSystemList[i].isActive {
        return Some(i);
      }
    }
    r := None;
  }

  method GetNumberOfRemoteInitiatedConnections(systems: RemoteSystemTable) returns (n: nat)
    requires systems.Wellformed()
    ensures n == RemoteInitiated(systems.Value().slots, systems.Value().active)
  {
    n := 0;
    ghost var t := systems.Value();
    var i := 0;
    while i < systems.activeSystemListSize
      invariant i <= systems.activeSystemListSize
      invariant n + RemoteInitiated(t.slots, t.active[i..]) == RemoteInitiated(t.slots, t.active)
    {
      assert t.active[i..][1..] == t.active[i + 1..];
      var s := systems.remoteSystemList[systems.activeSystemList[i]];
      assert s == t.slots[t.active[i..][0]];
      if s.isActive && s.mode == CONNECTED && !s.weInitiated {
        n := n + 1;
      }
      i := i + 1;
    }
  }

  /** The connection-frequency check at the head of `AssignSystemAddressToRemoteSystemList`. */
  method ThisIPConnectedRecently(systems: RemoteSystemTable, cfg: Config, sa: Address, now: nat) returns (recently: bool)
    requires systems.Wellformed()
    ensures recently == ConnectedRecently(cfg, systems.Value(), sa, now)
  {
    if cfg.limitConnectionFrequencyFromTheSameIP && !cfg.loopback(sa) {
      for i := 0 to systems.remoteSystemList.Length
        invariant forall j :: 0 <= j < i ==> (
          var s := systems.remoteSystemList[j];
          !(s.isActive && SameIp(s.address, sa) && s.connectionTime <= now < s.connectionTime + 100))
      {
        var s := systems.remoteSystemList[i];
        if s.isActive && SameIp(s.address, sa) && now >= s.connectionTime && now - s.connectionTime < 100 {
          assert systems.Value().slots[i] == s;
          return true;
        }
      }
    }
    recently := false;
  }

  method ProcessRequest2(systems: RemoteSystemTable, cfg: Config, sa: Address, guid: Guid, now: nat)
    returns (outcome: Outcome)
    requires Serves(cfg, systems) && sa != UNASSIGNED_SYSTEM_ADDRESS
    modifies systems, systems.remoteSystemList, systems.remoteSystemLookup, systems.activeSystemList
    ensures Serves(cfg, systems)
    ensures outcome == Admit(cfg, old(systems.Value()), sa, guid, now)
    ensures systems.Value() == OnRequest2(cfg, old(systems.Value()), sa, guid, now)
  {
    var rssFromSA := systems.GetRemoteSystemFromSystemAddress(sa, true, true);
    var rssFromGuid := GetRemoteSystemFromGUID(systems, guid);
    if rssFromSA.Some? && rssFromGuid.Some? {
      if rssFromSA == rssFromGuid && systems.remoteSystemList[rssFromSA.value].mode == UNVERIFIED_SENDER {
        return SAME_ANSWER;
      }
      return ALREADY_CONNECTED;
    } else if rssFromSA.Some? || rssFromGuid.Some? {
      return ALREADY_CONNECTED;
    }
    var incoming := GetNumberOfRemoteInitiatedConnections(systems);
    if incoming >= cfg.maximumIncomingConnections {
      return NO_FREE_INCOMING_CONNECTIONS;
    }
    var recently := ThisIPConnectedRecently(systems, cfg, sa, now);
    if recently {
      return IP_RECENTLY_CONNECTED;
    }
    InUseIsFound(systems.Value(), cfg.hash, sa);
    var slot := systems.AssignSystemAddressToRemoteSystemList(sa, guid, UNVERIFIED_SENDER, now);
    outcome := ALLOWED;
  }

  /** The slot for the answer to our own attempt; `failed` reports that none was free. */
  method OpenForReply(systems: RemoteSystemTable, cfg: Config, sa: Address, guid: Guid, now: nat) returns (failed: bool)
    requires Serves(cfg, systems) && sa != UNASSIGNED_SYSTEM_ADDRESS
    modifies systems, systems.remoteSystemList, systems.remoteSystemLookup, systems.activeSystemList
    ensures Serves(cfg, systems)
    ensures systems.Value() == OnReply2(cfg, old(systems.Value()), sa, guid, now)
    ensures failed ==> forall j :: 0 <= j < systems.remoteSystemList.Length ==> old(systems.remoteSystemList[j].isActive)
  {
    hide Assign;
    ghost var was := systems.Value();
    InUseIsFound(was, cfg.hash, sa);
    var remoteSystem := systems.GetRemoteSystemFromSystemAddress(sa, true, true);
    if remoteSystem.None? {
      var recently := ThisIPConnectedRecently(systems, cfg, sa, now);
      if recently {
        return false;
      }
      AssignShape(was, cfg.hash, sa, guid, UNVERIFIED_SENDER, now);
      remoteSystem := systems.AssignSystemAddressToRemoteSystemList(sa, guid, UNVERIFIED_SENDER, now);
      if remoteSystem.None? {
        return true;
      }
      assert remoteSystem.value == FirstFree(was.slots, 0) by {
        assert !was.slots[remoteSystem.value].isActive;
        FreeSlotTaken(was, systems.Value(), remoteSystem.value, sa, guid, now);
      }
    }
    MarkOurs(systems, cfg, remoteSystem.value);
    failed := false;
  }

  lemma FreeSlotTaken(t: Table, u: Table, i: nat, sa: Address, guid: Guid, now: nat)
    requires FirstFree(t.slots, 0) < |t.slots| && i < |t.slots| && !t.slots[i].isActive
    requires u.slots == t.slots[FirstFree(t.slots, 0) := Slot(true, sa, guid, UNVERIFIED_SENDER, false, now)]
    requires u.slots[i].isActive
    ensures i == FirstFree(t.slots, 0)
  {}

  method MarkOurs(systems: RemoteSystemTable, ghost cfg: Config, i: nat)
    requires Serves(cfg, systems) && i < systems.remoteSystemList.Length
    modifies systems.remoteSystemList
    ensures Serves(cfg, systems) && systems.Value() == Ours(old(systems.Value()), i)
  {
    ghost var was := systems.Value();
    systems.remoteSystemList[i] := systems.remoteSystemList[i].(weInitiated := true, mode := REQUESTED_CONNECTION);
    assert systems.Value() == Ours(was, i);
    SameKeysKeep(was, systems.Value(), cfg.hash);
  }

  lemma RemoveAtCount(queue: seq<Address>, k: nat)
    requires k < |queue|
    ensures multiset(RemoveAt(queue, k)) == multiset(queue) - multiset{queue[k]}
  {
    assert queue == queue[..k] + [queue[k]] + queue[k + 1..];
  }

  method RemoveRequest(queue: seq<Address>, sa: Address) returns (remaining: seq<Address>)
    ensures remaining == Remove(queue, sa)
    ensures sa in queue ==> multiset(remaining) == multiset(queue) - multiset{sa}
  {
    var k := 0;
    while k < |queue| && queue[k] != sa
      invariant k <= |queue| && sa !in queue[..k]
    {
      k := k + 1;
    }
    if k < |queue| {
      RemoveAtFirst(queue, sa, k);
      remaining := RemoveAt(queue, k);
      RemoveAtCount(queue, k);
    } else {
      assert queue[..k] == queue;
      RemoveNothing(queue, sa);
      remaining := queue;
    }
  }

  method ProcessReply2(systems: RemoteSystemTable, cfg: Config, requested: seq<Address>, sa: Address, guid: Guid, now: nat)
    returns (remaining: seq<Address>, failed: bool)
    requires Serves(cfg, systems) && sa != UNASSIGNED_SYSTEM_ADDRESS
    modifies systems, systems.remoteSystemList, systems.remoteSystemLookup, systems.activeSystemList
    ensures Serves(cfg, systems)
    ensures Peer(systems.Value(), remaining) == Step(cfg, Peer(old(systems.Value()), requested), Reply2(sa, guid, now))
  {
    remaining, failed := requested, false;
    if sa in requested {
      failed := OpenForReply(systems, cfg, sa, guid, now);
      remaining := RemoveRequest(requested, sa);
    }
  }

  lemma {:induction false} RemoveAtFirst(queue: seq<Address>, sa: Address, k: nat)
    requires k < |queue| && queue[k] == sa && sa !in queue[..k]
    ensures Remove(queue, sa) == RemoveAt(queue, k)
  {
    if k > 0 {
      assert queue[0] == queue[..k][0];
      assert sa !in queue[1..][..k - 1] by { assert queue[1..][..k - 1] == queue[..k][1..]; }
      RemoveAtFirst(queue[1..], sa, k - 1);
      assert [queue[0]] + RemoveAt(queue[1..], k - 1) == RemoveAt(queue, k);
    }
  }

  lemma {:induction false} RemoveNothing(queue: seq<Address>, sa: Address)
    requires sa !in queue
    ensures Remove(queue, sa) == queue
  {
    if queue != [] { RemoveNothing(queue[1..], sa); }
  }
}
