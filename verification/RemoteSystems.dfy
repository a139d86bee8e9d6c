/**
 RakPeer's table of remote systems: a fixed array of slots, a chained hash from addresses to
 slots, and the compact list of active slots. `Table` is the value of the three; class
 `RemoteSystemTable` holds the arrays and runs the source's loops.
 */
module RemoteSystems {
  import opened Sequences

  datatype Address = UNASSIGNED_SYSTEM_ADDRESS | Address(ip: nat, port: nat)

  datatype Guid = UNASSIGNED_RAKNET_GUID | Guid(g: nat)

  datatype ConnectMode =
    | NO_ACTION
    | DISCONNECT_ASAP
    | DISCONNECT_ASAP_SILENTLY
    | DISCONNECT_ON_NO_ACK
    | REQUESTED_CONNECTION
    | HANDLING_CONNECTION_REQUEST
    | UNVERIFIED_SENDER
    | CONNECTED

  /** The fields of `RemoteSystemStruct` that the table and the handshake use. */
  datatype Slot = Slot(
    isActive: bool,
    address: Address,
    guid: Guid,
    mode: ConnectMode,
    weInitiated: bool,
    connectionTime: nat)

  const FREE_SLOT := Slot(false, UNASSIGNED_SYSTEM_ADDRESS, UNASSIGNED_RAKNET_GUID, NO_ACTION, false, 0)

  /** Any function of the address; the port and the numbers in it do not matter here. */
  type Hash = Address -> nat

  datatype Table = Table(
    slots: seq<Slot>,
    lookup: seq<seq<nat>>,   // remoteSystemLookup: the chain of every bucket
    active: seq<nat>)        // activeSystemList

  function Bucket(h: Hash, sa: Address, buckets: nat): (b: nat)
    requires buckets > 0
    ensures b < buckets
  {
    h(sa) % buckets
  }

  ghost predicate InRange(chain: seq<nat>, n: nat) {
    forall k :: 0 <= k < |chain| ==> chain[k] < n
  }

  /** Position in a chain of the first entry whose slot has the address, or the length. */
  function FindEntry(slots: seq<Slot>, chain: seq<nat>, sa: Address): (k: nat)
    requires InRange(chain, |slots|)
    ensures k <= |chain|
    ensures k < |chain| ==> slots[chain[k]].address == sa
    ensures forall j :: 0 <= j < k ==> slots[chain[j]].address != sa
  {
    if chain == [] then 0
    else if slots[chain[0]].address == sa then 0
    else 1 + FindEntry(slots, chain[1..], sa)
  }

  /** The shape the arrays always have. */
  ghost predicate Shaped(t: Table) {
    && |t.slots| > 0
    && |t.lookup| > 0
    && (forall b :: 0 <= b < |t.lookup| ==> InRange(t.lookup[b], |t.slots|))
    && InRange(t.active, |t.slots|)
  }

  // ---- the hash operations ----

  /** `GetRemoteSystemIndex`. */
  function HashIndex(t: Table, h: Hash, sa: Address): (r: Option<nat>)
    requires Shaped(t)
    ensures r.Some? ==> r.value < |t.slots| && t.slots[r.value].address == sa
  {
    var chain := t.lookup[Bucket(h, sa, |t.lookup|)];
    var k := FindEntry(t.slots, chain, sa);
    if k < |chain| then Some(chain[k]) else None
  }

  /** `DereferenceRemoteSystem`: takes the first matching entry off its chain. */
  function Unhash(t: Table, h: Hash, sa: Address): (u: Table)
    requires Shaped(t)
    ensures Shaped(u) && u.slots == t.slots && u.active == t.active && |u.lookup| == |t.lookup|
  {
    var b := Bucket(h, sa, |t.lookup|);
    var k := FindEntry(t.slots, t.lookup[b], sa);
    if k < |t.lookup[b]| then t.(lookup := t.lookup[b := RemoveAt(t.lookup[b], k)]) else t
  }

  /** `ReferenceRemoteSystem`: gives slot `i` the address and appends it to the chain. */
  function Rehash(t: Table, h: Hash, sa: Address, i: nat): (u: Table)
    requires Shaped(t) && i < |t.slots|
    ensures Shaped(u) && |u.slots| == |t.slots| && u.active == t.active && |u.lookup| == |t.lookup|
  {
    var v := Unhash(OwnUnhashed(t, h, i), h, sa);
    var b := Bucket(h, sa, |t.lookup|);
    v.(slots := v.slots[i := v.slots[i].(address := sa)],
       lookup := v.lookup[b := v.lookup[b] + [i]])
  }

  // ---- the agreement of hash, active list and slots ----

  ghost predicate ChainOk(t: Table, h: Hash, b: nat)
    requires Shaped(t) && b < |t.lookup|
  {
    var chain := t.lookup[b];
    && (forall k :: 0 <= k < |chain| ==>
         && t.slots[chain[k]].address != UNASSIGNED_SYSTEM_ADDRESS
         && Bucket(h, t.slots[chain[k]].address, |t.lookup|) == b)
    && (forall k, m :: 0 <= k < m < |chain| ==> t.slots[chain[k]].address != t.slots[chain[m]].address)
  }

  ghost predicate Hashed(t: Table, h: Hash, i: nat)
    requires Shaped(t) && i < |t.slots|
  {
    i in t.lookup[Bucket(h, t.slots[i].address, |t.lookup|)]
  }

  /**
   Every chain entry sits in the bucket of its slot's address, an address has at most one entry,
   every active slot has one, and the active list enumerates the active slots without repetition.
   */
  ghost predicate TableOk(t: Table, h: Hash) {
    && Shaped(t)
    && (forall b :: 0 <= b < |t.lookup| ==> ChainOk(t, h, b))
    && (forall i :: 0 <= i < |t.slots| && t.slots[i].isActive ==>
         t.slots[i].address != UNASSIGNED_SYSTEM_ADDRESS && Hashed(t, h, i))
    && NoDuplicates(t.active)
    && (forall i :: 0 <= i < |t.slots| ==> (i in t.active <==> t.slots[i].isActive))
  }

  /** An entry is found under its own address. */
  lemma EntryIsFound(t: Table, h: Hash, i: nat)
    requires Shaped(t) && i < |t.slots| && Hashed(t, h, i)
    requires ChainOk(t, h, Bucket(h, t.slots[i].address, |t.lookup|))
    ensures HashIndex(t, h, t.slots[i].address) == Some(i)
  {
    var chain := t.lookup[Bucket(h, t.slots[i].address, |t.lookup|)];
    var m :| 0 <= m < |chain| && chain[m] == i;
    var k := FindEntry(t.slots, chain, t.slots[i].address);
    assert k <= m;
    assert k == m;
  }

  /** A hash hit is an entry of the bucket. */
  lemma HitIsEntry(t: Table, h: Hash, sa: Address)
    requires Shaped(t) && HashIndex(t, h, sa).Some?
    ensures HashIndex(t, h, sa).value in t.lookup[Bucket(h, sa, |t.lookup|)]
  {}

  /** Two active slots never share an address. */
  lemma ActiveAddressesDiffer(t: Table, h: Hash, i: nat, j: nat)
    requires TableOk(t, h) && i < |t.slots| && j < |t.slots|
    requires t.slots[i].isActive && t.slots[j].isActive && t.slots[i].address == t.slots[j].address
    ensures i == j
  {
    EntryIsFound(t, h, i);
    EntryIsFound(t, h, j);
  }

  // ---- lookups by address ----

  /** The first slot from `i` on that satisfies the condition; `|slots|` when there is none. */
  function Scan(slots: seq<Slot>, sa: Address, active: bool, i: nat): (k: nat)
    requires i <= |slots|
    ensures i <= k <= |slots|
    ensures k < |slots| ==> slots[k].address == sa && (active ==> slots[k].isActive)
    ensures forall j :: i <= j < k ==> !(slots[j].address == sa && (active ==> slots[j].isActive))
    decreases |slots| - i
  {
    if i == |slots| then i
    else if slots[i].address == sa && (active ==> slots[i].isActive) then i
    else Scan(slots, sa, active, i + 1)
  }

  /** `GetRemoteSystemFromSystemAddress` as the network thread calls it: by hash. */
  function FromAddressHashed(t: Table, h: Hash, sa: Address, onlyActive: bool): Option<nat>
    requires Shaped(t)
  {
    if sa == UNASSIGNED_SYSTEM_ADDRESS then None
    else
      var r := HashIndex(t, h, sa);
      if r.Some? && (onlyActive ==> t.slots[r.value].isActive) then r else None
  }

  /** The same function as any other thread calls it: a scan that prefers active slots. */
  function FromAddressScanned(t: Table, sa: Address, onlyActive: bool): Option<nat> {
    if sa == UNASSIGNED_SYSTEM_ADDRESS then None
    else
      var a := Scan(t.slots, sa, true, 0);
      var d := Scan(t.slots, sa, false, 0);
      if a < |t.slots| then Some(a)
      else if d < |t.slots| && !onlyActive then Some(d)
      else None
  }

  /** On active systems the hash and the scan give the same answer. */
  lemma HashAgreesWithScan(t: Table, h: Hash, sa: Address)
    requires TableOk(t, h)
    ensures FromAddressHashed(t, h, sa, true) == FromAddressScanned(t, sa, true)
  {
    var a := Scan(t.slots, sa, true, 0);
    if a < |t.slots| { EntryIsFound(t, h, a); }
  }

  // ---- how the operations change the hash ----

  ghost predicate ChainsOk(t: Table, h: Hash)
    requires Shaped(t)
  {
    forall b :: 0 <= b < |t.lookup| ==> ChainOk(t, h, b)
  }

  /** Slot `j` stands in the chain of bucket `b`. */
  ghost predicate Entry(t: Table, b: nat, j: nat) {
    b < |t.lookup| && j in t.lookup[b]
  }

  /** `Unhash` removes the entry of the address and nothing else. */
  lemma UnhashEntries(t: Table, h: Hash, sa: Address)
    requires Shaped(t) && ChainsOk(t, h)
    ensures ChainsOk(Unhash(t, h, sa), h)
    ensures forall b: nat, j: nat :: j < |t.slots| ==>
      (Entry(Unhash(t, h, sa), b, j) <==> Entry(t, b, j) && t.slots[j].address != sa)
  {
    var u := Unhash(t, h, sa);
    var b := Bucket(h, sa, |t.lookup|);
    var chain := t.lookup[b];
    var k := FindEntry(t.slots, chain, sa);
    assert ChainOk(t, h, b);
    forall c | 0 <= c < |u.lookup|
      ensures ChainOk(u, h, c)
      ensures forall j :: j < |t.slots| ==> (j in u.lookup[c] <==> j in t.lookup[c] && t.slots[j].address != sa)
    {
      assert ChainOk(t, h, c);
      if c == b && k < |chain| {
        var cut := RemoveAt(chain, k);
        assert u.lookup[c] == cut;
        forall j | j in chain && j < |t.slots| && t.slots[j].address != sa ensures j in cut {
          var m :| 0 <= m < |chain| && chain[m] == j;
          assert cut[if m < k then m else m - 1] == j;
        }
      }
    }
  }

  /** `ReferenceRemoteSystem` first drops the entry of the slot itself, if the hash finds it. */
  function OwnUnhashed(t: Table, h: Hash, i: nat): (u: Table)
    requires Shaped(t) && i < |t.slots|
    ensures Shaped(u) && u.slots == t.slots && u.active == t.active && |u.lookup| == |t.lookup|
  {
    var was := t.slots[i].address;
    if was != UNASSIGNED_SYSTEM_ADDRESS && HashIndex(t, h, was) == Some(i) then Unhash(t, h, was) else t
  }

  lemma OwnUnhashedEntries(t: Table, h: Hash, i: nat)
    requires Shaped(t) && ChainsOk(t, h) && i < |t.slots|
    ensures ChainsOk(OwnUnhashed(t, h, i), h)
    ensures forall b: nat, j: nat :: j < |t.slots| ==> (Entry(OwnUnhashed(t, h, i), b, j) <==> Entry(t, b, j) && j != i)
  {
    hide Unhash;
    var was := t.slots[i].address;
    UnhashEntries(t, h, was);
    forall b: nat, j: nat | Entry(t, b, j) && j < |t.slots| && t.slots[j].address == was && Entry(t, b, i)
      ensures j == i
    {
      assert ChainOk(t, h, b);
      EntryIsFound(t, h, i);
      EntryIsFound(t, h, j);
    }
    forall b: nat, j: nat | Entry(t, b, j) && j < |t.slots|
      ensures j == i ==> was != UNASSIGNED_SYSTEM_ADDRESS && HashIndex(t, h, was) == Some(i)
      ensures t.slots[j].address == was ==> HashIndex(t, h, was) == Some(j)
    {
      assert ChainOk(t, h, b);
      var k :| 0 <= k < |t.lookup[b]| && t.lookup[b][k] == j;
      if t.slots[j].address == was { EntryIsFound(t, h, j); }
    }
  }

  /** After `Rehash` slot `i` is the only entry of its new address; the other entries stay. */
  lemma RehashEntries(t: Table, h: Hash, sa: Address, i: nat)
    requires Shaped(t) && ChainsOk(t, h) && i < |t.slots| && sa != UNASSIGNED_SYSTEM_ADDRESS
    ensures ChainsOk(Rehash(t, h, sa, i), h)
    ensures Entry(Rehash(t, h, sa, i), Bucket(h, sa, |t.lookup|), i)
    ensures forall b: nat, j: nat :: j < |t.slots| && j != i ==>
      (Entry(Rehash(t, h, sa, i), b, j) <==> Entry(t, b, j) && t.slots[j].address != sa)
  {
    var u := OwnUnhashed(t, h, i);
    var v := Unhash(u, h, sa);
    OwnUnhashedEntries(t, h, i);
    UnhashEntries(u, h, sa);
    var r := Rehash(t, h, sa, i);
    var c := Bucket(h, sa, |t.lookup|);
    assert r.lookup == v.lookup[c := v.lookup[c] + [i]];
    assert r.slots == v.slots[i := v.slots[i].(address := sa)];
    hide Unhash, OwnUnhashed, Rehash, ChainsOk;
    forall b: nat, j: nat | j < |t.slots|
      ensures Entry(v, b, j) <==> Entry(t, b, j) && j != i && t.slots[j].address != sa
      ensures j != i ==> (Entry(r, b, j) <==> Entry(v, b, j))
    {
      assert Entry(v, b, j) <==> Entry(u, b, j) && u.slots[j].address != sa;
      assert Entry(u, b, j) <==> Entry(t, b, j) && j != i;
    }
    RehashChains(v, h, sa, i, r);
  }

  lemma RehashChains(v: Table, h: Hash, sa: Address, i: nat, r: Table)
    requires Shaped(v) && ChainsOk(v, h) && Shaped(r) && i < |v.slots| && sa != UNASSIGNED_SYSTEM_ADDRESS
    requires var c := Bucket(h, sa, |v.lookup|);
      r.lookup == v.lookup[c := v.lookup[c] + [i]] && r.slots == v.slots[i := v.slots[i].(address := sa)]
    requires forall b: nat, j: nat :: j < |v.slots| && Entry(v, b, j) ==> j != i && v.slots[j].address != sa
    ensures ChainsOk(r, h)
  {
    forall b | 0 <= b < |r.lookup| ensures ChainOk(r, h, b) {
      assert ChainOk(v, h, b);
      forall k | 0 <= k < |v.lookup[b]|
        ensures r.slots[v.lookup[b][k]] == v.slots[v.lookup[b][k]] && v.slots[v.lookup[b][k]].address != sa
      {
        assert Entry(v, b, v.lookup[b][k]);
      }
    }
  }

  // ---- assigning, closing and rerouting a slot ----

  /** The lowest inactive slot from `i` on. */
  function FirstFree(slots: seq<Slot>, i: nat): (k: nat)
    requires i <= |slots|
    ensures i <= k <= |slots|
    ensures k < |slots| ==> !slots[k].isActive
    ensures forall j :: i <= j < k ==> slots[j].isActive
    decreases |slots| - i
  {
    if i == |slots| then i else if !slots[i].isActive then i else FirstFree(slots, i + 1)
  }

  /** Slot `i` is taken for a new system. */
  function Activate(t: Table, h: Hash, i: nat, sa: Address, guid: Guid, mode: ConnectMode, time: nat): Table
    requires Shaped(t) && i < |t.slots|
  {
    var r := Rehash(t, h, sa, i);
    r.(slots := r.slots[i := Slot(true, sa, guid, mode, false, time)], active := r.active + [i])
  }

  /** `AssignSystemAddressToRemoteSystemList`, apart from its connection-frequency check. */
  function Assign(t: Table, h: Hash, sa: Address, guid: Guid, mode: ConnectMode, time: nat): Table
    requires Shaped(t)
  {
    var i := FirstFree(t.slots, 0);
    if i < |t.slots| then Activate(t, h, i, sa, guid, mode, time) else t
  }

  /** `RemoveFromActiveSystemList`: the last element takes the place of the first with the address. */
  function RemoveActive(slots: seq<Slot>, active: seq<nat>, sa: Address): (r: seq<nat>)
    requires InRange(active, |slots|)
    ensures InRange(r, |slots|)
  {
    var k := FindEntry(slots, active, sa);
    if k < |active| then SwapRemove(active, k) else active
  }

  /** The immediate branch of `CloseConnectionInternal`; address and mode of the slot stay behind. */
  function Close(t: Table, h: Hash, sa: Address): Table
    requires Shaped(t)
  {
    var r := HashIndex(t, h, sa);
    if r.Some? && t.slots[r.value].isActive
    then
      var i := r.value;
      t.(slots := t.slots[i := t.slots[i].(isActive := false, guid := UNASSIGNED_RAKNET_GUID)],
         active := RemoveActive(t.slots, t.active, sa))
    else t
  }

  ghost predicate ActiveAt(t: Table, i: nat, sa: Address) {
    i < |t.slots| && t.slots[i].isActive && t.slots[i].address == sa
  }

  ghost predicate AddressInUse(t: Table, sa: Address) {
    exists i: nat :: ActiveAt(t, i, sa)
  }

  lemma HashedIsEntry(t: Table, h: Hash, i: nat)
    requires Shaped(t) && i < |t.slots|
    ensures Hashed(t, h, i) <==> Entry(t, Bucket(h, t.slots[i].address, |t.lookup|), i)
  {}

  lemma ActivateKeeps(t: Table, h: Hash, i: nat, sa: Address, guid: Guid, mode: ConnectMode, time: nat)
    requires TableOk(t, h) && i < |t.slots| && !t.slots[i].isActive
    requires sa != UNASSIGNED_SYSTEM_ADDRESS && !AddressInUse(t, sa)
    ensures TableOk(Activate(t, h, i, sa, guid, mode, time), h)
  {
    var r := Rehash(t, h, sa, i);
    var u := Activate(t, h, i, sa, guid, mode, time);
    RehashEntries(t, h, sa, i);
    hide Rehash;
    assert r.slots == t.slots[i := t.slots[i].(address := sa)] by { RehashSlots(t, h, sa, i); }
    assert forall j :: 0 <= j < |t.slots| ==> u.slots[j].address == r.slots[j].address;
    forall b | 0 <= b < |u.lookup| ensures ChainOk(u, h, b) {
      assert ChainOk(r, h, b);
    }
    forall j | 0 <= j < |u.slots| && u.slots[j].isActive
      ensures u.slots[j].address != UNASSIGNED_SYSTEM_ADDRESS && Hashed(u, h, j)
    {
      HashedIsEntry(u, h, j);
      if j != i {
        HashedIsEntry(t, h, j);
        assert !ActiveAt(t, j, sa);
        assert Entry(r, Bucket(h, t.slots[j].address, |t.lookup|), j);
      }
    }
  }

  lemma RehashSlots(t: Table, h: Hash, sa: Address, i: nat)
    requires Shaped(t) && i < |t.slots|
    ensures Rehash(t, h, sa, i).slots == t.slots[i := t.slots[i].(address := sa)]
  {}

  /** Assigning an address that no active slot holds keeps the three structures in agreement. */
  lemma AssignKeeps(t: Table, h: Hash, sa: Address, guid: Guid, mode: ConnectMode, time: nat)
    requires TableOk(t, h) && sa != UNASSIGNED_SYSTEM_ADDRESS && !AddressInUse(t, sa)
    ensures TableOk(Assign(t, h, sa, guid, mode, time), h)
  {
    var i := FirstFree(t.slots, 0);
    if i < |t.slots| { ActivateKeeps(t, h, i, sa, guid, mode, time); }
  }

  lemma SwapRemoveMembers(active: seq<nat>, k: nat)
    requires k < |active| && NoDuplicates(active)
    ensures NoDuplicates(SwapRemove(active, k))
    ensures forall j :: j in SwapRemove(active, k) <==> j in active && j != active[k]
  {
    var r := SwapRemove(active, k);
    forall j | j in active && j != active[k] ensures j in r {
      var m :| 0 <= m < |active| && active[m] == j;
      assert r[if m == |active| - 1 then k else m] == j;
    }
  }

  /** Only one slot is active under an address, and the hash finds it. */
  lemma OneActive(t: Table, h: Hash, sa: Address)
    requires TableOk(t, h)
    ensures forall i: nat :: ActiveAt(t, i, sa) ==> HashIndex(t, h, sa) == Some(i)
  {
    forall i: nat | ActiveAt(t, i, sa) ensures HashIndex(t, h, sa) == Some(i) {
      EntryIsFound(t, h, i);
    }
  }

  lemma RemoveActiveMembers(t: Table, h: Hash, sa: Address, i: nat)
    requires TableOk(t, h) && ActiveAt(t, i, sa)
    ensures NoDuplicates(RemoveActive(t.slots, t.active, sa))
    ensures forall j :: j in RemoveActive(t.slots, t.active, sa) <==> j in t.active && j != i
  {
    OneActive(t, h, sa);
    hide HashIndex, ChainOk, Hashed;
    var k := FindEntry(t.slots, t.active, sa);
    assert i in t.active;
    var m :| 0 <= m < |t.active| && t.active[m] == i;
    assert k <= m;
    assert t.slots[t.active[k]].isActive by { assert t.active[k] in t.active; }
    assert ActiveAt(t, t.active[k], sa);
    SwapRemoveMembers(t.active, k);
  }

  /** Closing deactivates exactly the active slot of the address and removes it from the active list. */
  lemma CloseKeeps(t: Table, h: Hash, sa: Address)
    requires TableOk(t, h)
    ensures TableOk(Close(t, h, sa), h)
    ensures !AddressInUse(Close(t, h, sa), sa)
    ensures forall i :: i in Close(t, h, sa).active <==> i in t.active && !ActiveAt(t, i, sa)
  {
    hide HashIndex, RemoveActive;
    var u := Close(t, h, sa);
    var r := HashIndex(t, h, sa);
    OneActive(t, h, sa);
    if r.Some? && t.slots[r.value].isActive {
      var i := r.value;
      assert ActiveAt(t, i, sa);
      RemoveActiveMembers(t, h, sa, i);
      forall b | 0 <= b < |u.lookup| ensures ChainOk(u, h, b) { assert ChainOk(t, h, b); }
      forall j | 0 <= j < |u.slots| && u.slots[j].isActive
        ensures u.slots[j].address != UNASSIGNED_SYSTEM_ADDRESS && Hashed(u, h, j)
      {
        assert Hashed(t, h, j);
      }
      assert forall q: nat :: ActiveAt(u, q, sa) ==> ActiveAt(t, q, sa) && q != i;
    } else {
      forall j | j in t.active ensures !ActiveAt(t, j, sa) {}
    }
  }

  /**
   Rerouting an active slot keeps the agreement exactly when the target is a real address that no
   other active slot holds.
   */
  lemma RerouteKeeps(t: Table, h: Hash, sa: Address, i: nat)
    requires TableOk(t, h) && i < |t.slots| && t.slots[i].isActive
    ensures TableOk(Rehash(t, h, sa, i), h) <==>
      sa != UNASSIGNED_SYSTEM_ADDRESS && forall j: nat :: ActiveAt(t, j, sa) ==> j == i
  {
    var u := Rehash(t, h, sa, i);
    RehashSlots(t, h, sa, i);
    hide Rehash;
    if sa != UNASSIGNED_SYSTEM_ADDRESS {
      RehashEntries(t, h, sa, i);
      if j: nat :| ActiveAt(t, j, sa) && j != i {
        if TableOk(u, h) { ActiveAddressesDiffer(u, h, i, j); }
      } else {
        forall j | 0 <= j < |u.slots| && u.slots[j].isActive
          ensures u.slots[j].address != UNASSIGNED_SYSTEM_ADDRESS && Hashed(u, h, j)
        {
          HashedIsEntry(u, h, j);
          if j != i {
            HashedIsEntry(t, h, j);
            assert !ActiveAt(t, j, sa);
            assert Entry(u, Bucket(h, t.slots[j].address, |t.lookup|), j);
          }
        }
      }
    } else {
      assert u.slots[i].isActive && u.slots[i].address == UNASSIGNED_SYSTEM_ADDRESS;
    }
  }

  // ---- hash hits and slot order ----

  /** Every hashed slot is the lowest-numbered slot with its address, dead ones included. */
  ghost predicate LowestHashed(t: Table) {
    forall b: nat, i: nat, j: nat :: Entry(t, b, i) && j < i < |t.slots| ==> t.slots[j].address != t.slots[i].address
  }

  lemma AssignKeepsLowest(t: Table, h: Hash, sa: Address, guid: Guid, mode: ConnectMode, time: nat)
    requires TableOk(t, h) && LowestHashed(t) && sa != UNASSIGNED_SYSTEM_ADDRESS && !AddressInUse(t, sa)
    ensures LowestHashed(Assign(t, h, sa, guid, mode, time))
  {
    var i := FirstFree(t.slots, 0);
    if i < |t.slots| {
      RehashEntries(t, h, sa, i);
      RehashSlots(t, h, sa, i);
      var r := Rehash(t, h, sa, i);
      var u := Assign(t, h, sa, guid, mode, time);
      hide Rehash;
      forall b: nat, k: nat, j: nat | Entry(u, b, k) && j < k < |u.slots|
        ensures u.slots[j].address != u.slots[k].address
      {
        assert Entry(r, b, k);
        if k == i {
          assert !ActiveAt(t, j, sa);
        } else {
          assert Entry(t, b, k) && t.slots[k].address != sa;
        }
      }
    }
  }

  lemma CloseKeepsLowest(t: Table, h: Hash, sa: Address)
    requires Shaped(t) && LowestHashed(t)
    ensures LowestHashed(Close(t, h, sa))
  {
    assert forall b: nat, i: nat :: Entry(Close(t, h, sa), b, i) <==> Entry(t, b, i);
  }

  /** `SystemAddress::systemIndex`, which takes no part in comparing addresses; 65535 is "none". */
  const NO_SYSTEM_INDEX: nat := 65535

  function HintHits(t: Table, sa: Address, hint: nat): bool {
    hint != NO_SYSTEM_INDEX && hint < |t.slots| && t.slots[hint].address == sa && t.slots[hint].isActive
  }

  /** `GetIndexFromSystemAddress`; `None` stands for -1. */
  function IndexFromAddress(t: Table, h: Hash, sa: Address, hint: nat, network: bool): Option<nat>
    requires Shaped(t)
  {
    if sa == UNASSIGNED_SYSTEM_ADDRESS then None
    else if HintHits(t, sa, hint) then Some(hint)
    else if network then HashIndex(t, h, sa)
    else FromAddressScanned(t, sa, false)
  }

  /** When the hash finds the address at all, the scan finds the same slot, with or without a hint. */
  lemma IndexModesAgree(t: Table, h: Hash, sa: Address, hint: nat)
    requires TableOk(t, h) && LowestHashed(t) && IndexFromAddress(t, h, sa, hint, true).Some?
    ensures IndexFromAddress(t, h, sa, hint, false) == IndexFromAddress(t, h, sa, hint, true)
  {
    if !HintHits(t, sa, hint) {
      var i := HashIndex(t, h, sa).value;
      HitIsEntry(t, h, sa);
      assert Entry(t, Bucket(h, sa, |t.lookup|), i);
      var a := Scan(t.slots, sa, true, 0);
      if a < |t.slots| { EntryIsFound(t, h, a); }
      var d := Scan(t.slots, sa, false, 0);
      assert d <= i;
    }
  }

  /** A hint can only name a slot that an active lookup finds as well. */
  lemma HintIsFound(t: Table, h: Hash, sa: Address, hint: nat)
    requires TableOk(t, h) && HintHits(t, sa, hint) && sa != UNASSIGNED_SYSTEM_ADDRESS
    ensures FromAddressHashed(t, h, sa, true) == Some(hint)
  {
    EntryIsFound(t, h, hint);
  }

  /** Every way of looking an address up finds its active slot, for any hint. */
  lemma ActiveIsFound(t: Table, h: Hash, sa: Address, hint: nat, i: nat)
    requires TableOk(t, h) && ActiveAt(t, i, sa)
    ensures FromAddressHashed(t, h, sa, true) == FromAddressHashed(t, h, sa, false) == Some(i)
    ensures FromAddressScanned(t, sa, true) == FromAddressScanned(t, sa, false) == Some(i)
    ensures IndexFromAddress(t, h, sa, hint, true) == IndexFromAddress(t, h, sa, hint, false) == Some(i)
  {
    EntryIsFound(t, h, i);
    var a := Scan(t.slots, sa, true, 0);
    assert a <= i;
    ActiveAddressesDiffer(t, h, a, i);
    if HintHits(t, sa, hint) { ActiveAddressesDiffer(t, h, hint, i); }
    hide TableOk;
  }

  /**
   Without an active slot the lookups that ask for one find none, and the scan for any finds the
   first that had the address.
   */
  lemma InactiveIsFound(t: Table, h: Hash, sa: Address, i: nat)
    requires TableOk(t, h) && sa != UNASSIGNED_SYSTEM_ADDRESS && forall j: nat :: !ActiveAt(t, j, sa)
    ensures FromAddressHashed(t, h, sa, true) == FromAddressScanned(t, sa, true) == None
    ensures FromAddressScanned(t, sa, false) == Some(i) <==>
      i < |t.slots| && t.slots[i].address == sa && forall j: nat :: j < i ==> t.slots[j].address != sa
  {
    HashAgreesWithScan(t, h, sa);
    var a := Scan(t.slots, sa, true, 0);
    assert !ActiveAt(t, a, sa);
    hide TableOk, FromAddressHashed;
  }

  /** `RakPeer` as far as it owns the table. */
  class RemoteSystemTable {
    const hash: Hash
    const remoteSystemList: array<Slot>
    const remoteSystemLookup: array<seq<nat>>
    const activeSystemList: array<nat>
    var activeSystemListSize: nat

    ghost predicate Wellformed()
      reads this, remoteSystemList, remoteSystemLookup, activeSystemList
    {
      && activeSystemListSize <= activeSystemList.Length == remoteSystemList.Length
      && (activeSystemList as object) != remoteSystemLookup
      && (activeSystemList as object) != remoteSystemList
      && Shaped(Value())
    }

    ghost predicate Valid()
      reads this, remoteSystemList, remoteSystemLookup, activeSystemList
    {
      Wellformed() && TableOk(Value(), hash)
    }

    ghost function Value(): Table
      reads this, remoteSystemList, remoteSystemLookup, activeSystemList
      requires activeSystemListSize <= activeSystemList.Length
    {
      Table(remoteSystemList[..], remoteSystemLookup[..], activeSystemList[..activeSystemListSize])
    }

    /** The allocation in `Startup`. */
    constructor (maximumNumberOfPeers: nat, hash: Hash)
      requires maximumNumberOfPeers > 0
      ensures Valid() && this.hash == hash && fresh(remoteSystemList) && fresh(remoteSystemLookup) && fresh(activeSystemList)
      ensures Value() == Table(seq(maximumNumberOfPeers, _ => FREE_SLOT), seq(maximumNumberOfPeers * 8, _ => []), [])
      ensures LowestHashed(Value())
    {
      this.hash := hash;
      remoteSystemList := new Slot[maximumNumberOfPeers](_ => FREE_SLOT);
      remoteSystemLookup := new seq<nat>[maximumNumberOfPeers * 8](_ => []);
      activeSystemList := new nat[maximumNumberOfPeers](i => i);
      activeSystemListSize := 0;
      new;
      assert remoteSystemList[..] == seq(maximumNumberOfPeers, _ => FREE_SLOT);
      assert remoteSystemLookup[..] == seq(maximumNumberOfPeers * 8, _ => []);
    }

    method FindInChain(chain: seq<nat>, sa: Address) returns (k: nat)
      requires InRange(chain, remoteSystemList.Length)
      ensures k == FindEntry(remoteSystemList[..], chain, sa)
    {
      k := 0;
      while k < |chain| && remoteSystemList[chain[k]].address != sa
        invariant k <= |chain|
        invariant forall j :: 0 <= j < k ==> remoteSystemList[chain[j]].address != sa
      {
        k := k + 1;
      }
      assert k == FindEntry(remoteSystemList[..], chain, sa);
    }

    method GetRemoteSystemIndex(sa: Address) returns (r: Option<nat>)
      requires Wellformed()
      ensures r == HashIndex(Value(), hash, sa)
    {
      var chain := remoteSystemLookup[Bucket(hash, sa, remoteSystemLookup.Length)];
      var k := FindInChain(chain, sa);
      r := if k < |chain| then Some(chain[k]) else None;
    }

    method DereferenceRemoteSystem(sa: Address)
      requires Wellformed()
      modifies remoteSystemLookup
      ensures Wellformed() && Value() == Unhash(old(Value()), hash, sa)
    {
      var hashIndex := Bucket(hash, sa, remoteSystemLookup.Length);
      var chain := remoteSystemLookup[hashIndex];
      var k := FindInChain(chain, sa);
      ghost var was := Value();
      if k < |chain| {
        remoteSystemLookup[hashIndex] := RemoveAt(chain, k);
      }
      assert Value().lookup == Unhash(was, hash, sa).lookup;
    }

    method ReferenceRemoteSystem(sa: Address, remoteSystemListIndex: nat)
      requires Wellformed() && remoteSystemListIndex < remoteSystemList.Length
      modifies remoteSystemList, remoteSystemLookup
      ensures Wellformed() && Value() == Rehash(old(Value()), hash, sa, remoteSystemListIndex)
    {
      var oldAddress := remoteSystemList[remoteSystemListIndex].address;
      if oldAddress != UNASSIGNED_SYSTEM_ADDRESS {
        var own := GetRemoteSystemIndex(oldAddress);
        if own == Some(remoteSystemListIndex) {
          DereferenceRemoteSystem(oldAddress);
        }
      }
      DereferenceRemoteSystem(sa);
      ghost var v := Value();
      remoteSystemList[remoteSystemListIndex] := remoteSystemList[remoteSystemListIndex].(address := sa);
      var hashIndex := Bucket(hash, sa, remoteSystemLookup.Length);
      remoteSystemLookup[hashIndex] := remoteSystemLookup[hashIndex] + [remoteSystemListIndex];
      assert Value().slots == v.slots[remoteSystemListIndex := v.slots[remoteSystemListIndex].(address := sa)];
      assert Value().lookup == v.lookup[hashIndex := v.lookup[hashIndex] + [remoteSystemListIndex]];
    }

    method AddToActiveSystemList(remoteSystemListIndex: nat)
      requires Wellformed() && activeSystemListSize < activeSystemList.Length
      requires remoteSystemListIndex < remoteSystemList.Length
      modifies this, activeSystemList
      ensures Wellformed()
      ensures Value() == old(Value()).(active := old(Value()).active + [remoteSystemListIndex])
    {
      activeSystemList[activeSystemListSize] := remoteSystemListIndex;
      activeSystemListSize := activeSystemListSize + 1;
    }

    method RemoveFromActiveSystemList(sa: Address)
      requires Wellformed()
      modifies this, activeSystemList
      ensures Wellformed()
      ensures Value() == old(Value()).(active := RemoveActive(old(Value()).slots, old(Value()).active, sa))
    {
      var i := FindInChain(activeSystemList[..activeSystemListSize], sa);
      ghost var was := Value().active;
      if i < activeSystemListSize {
        activeSystemList[i] := activeSystemList[activeSystemListSize - 1];
        activeSystemListSize := activeSystemListSize - 1;
        assert activeSystemList[..activeSystemListSize] == SwapRemove(was, i);
      }
    }

    method GetRemoteSystemFromSystemAddress(sa: Address, calledFromNetworkThread: bool, onlyActive: bool)
      returns (r: Option<nat>)
      requires Valid()
      ensures r == if calledFromNetworkThread
        then FromAddressHashed(Value(), hash, sa, onlyActive)
        else FromAddressScanned(Value(), sa, onlyActive)
      ensures onlyActive ==> r == FromAddressScanned(Value(), sa, true)
    {
      HashAgreesWithScan(Value(), hash, sa);
      if sa == UNASSIGNED_SYSTEM_ADDRESS {
        return None;
      }
      if calledFromNetworkThread {
        var index := GetRemoteSystemIndex(sa);
        if index.Some? && (!onlyActive || remoteSystemList[index.value].isActive) {
          return index;
        }
        return None;
      }
      var deadConnectionIndex: Option<nat> := None;
      var i := 0;
      while i < remoteSystemList.Length
        invariant i <= remoteSystemList.Length
        invariant forall j :: 0 <= j < i ==> !(remoteSystemList[j].address == sa && remoteSystemList[j].isActive)
        invariant deadConnectionIndex == None ==> forall j :: 0 <= j < i ==> remoteSystemList[j].address != sa
        invariant deadConnectionIndex.Some? ==> (
          && deadConnectionIndex.value < i
          && remoteSystemList[deadConnectionIndex.value].address == sa
          && forall j :: 0 <= j < deadConnectionIndex.value ==> remoteSystemList[j].address != sa)
      {
        if remoteSystemList[i].address == sa {
          if remoteSystemList[i].isActive {
            return Some(i);
          } else if deadConnectionIndex == None {
            deadConnectionIndex := Some(i);
          }
        }
        i := i + 1;
      }
      r := if deadConnectionIndex.Some? && !onlyActive then deadConnectionIndex else None;
    }

    method GetIndexFromSystemAddress(sa: Address, systemIndex: nat, calledFromNetworkThread: bool)
      returns (r: Option<nat>)
      requires Wellformed()
      ensures r == IndexFromAddress(Value(), hash, sa, systemIndex, calledFromNetworkThread)
    {
      if sa == UNASSIGNED_SYSTEM_ADDRESS {
        return None;
      }
      if systemIndex != NO_SYSTEM_INDEX && systemIndex < remoteSystemList.Length
        && remoteSystemList[systemIndex].address == sa && remoteSystemList[systemIndex].isActive {
        return Some(systemIndex);
      }
      if calledFromNetworkThread {
        r := GetRemoteSystemIndex(sa);
        return;
      }
      for i := 0 to remoteSystemList.Length
        invariant forall j :: 0 <= j < i ==> !(remoteSystemList[j].isActive && remoteSystemList[j].address == sa)
      {
        if remoteSystemList[i].isActive && remoteSystemList[i].address == sa {
          return Some(i);
        }
      }
      for i := 0 to remoteSystemList.Length
        invariant forall j :: 0 <= j < i ==> remoteSystemList[j].address != sa
      {
        if remoteSystemList[i].address == sa {
          return Some(i);
        }
      }
      r := None;
    }

    /** The search for a free slot and its initialisation. */
    method AssignSystemAddressToRemoteSystemList(sa: Address, guid: Guid, connectionMode: ConnectMode, time: nat)
      returns (r: Option<nat>)
      requires Valid() && sa != UNASSIGNED_SYSTEM_ADDRESS && !AddressInUse(Value(), sa)
      modifies this, remoteSystemList, remoteSystemLookup, activeSystemList
      ensures Valid() && Value() == Assign(old(Value()), hash, sa, guid, connectionMode, time)
      ensures r.None? <==> forall j :: 0 <= j < remoteSystemList.Length ==> old(remoteSystemList[j].isActive)
      ensures r.Some? ==> (
        && r.value < remoteSystemList.Length && !old(remoteSystemList[r.value].isActive)
        && remoteSystemList[r.value] == Slot(true, sa, guid, connectionMode, false, time))
    {
      ghost var was := Value();
      AssignKeeps(was, hash, sa, guid, connectionMode, time);
      var assignedIndex := 0;
      while assignedIndex < remoteSystemList.Length && remoteSystemList[assignedIndex].isActive
        invariant assignedIndex <= remoteSystemList.Length
        invariant forall j :: 0 <= j < assignedIndex ==> remoteSystemList[j].isActive
      {
        assignedIndex := assignedIndex + 1;
      }
      assert assignedIndex == FirstFree(was.slots, 0);
      if assignedIndex == remoteSystemList.Length {
        return None;
      }
      ActiveIsBounded(was, hash, assignedIndex);
      ReferenceRemoteSystem(sa, assignedIndex);
      ghost var v := Value();
      remoteSystemList[assignedIndex] := Slot(true, sa, guid, connectionMode, false, time);
      assert Value().slots == v.slots[assignedIndex := Slot(true, sa, guid, connectionMode, false, time)];
      AddToActiveSystemList(assignedIndex);
      r := Some(assignedIndex);
    }

    /** `CloseConnectionInternal` without notification, performed at once. */
    method CloseConnectionInternal(target: Address)
      requires Valid()
      modifies this, remoteSystemList, activeSystemList
      ensures Valid() && Value() == Close(old(Value()), hash, target)
    {
      ghost var was := Value();
      CloseKeeps(was, hash, target);
      var index := GetRemoteSystemIndex(target);
      if index.Some? && remoteSystemList[index.value].isActive {
        RemoveFromActiveSystemList(target);
        remoteSystemList[index.value] :=
          remoteSystemList[index.value].(isActive := false, guid := UNASSIGNED_RAKNET_GUID);
        assert Value().slots == Close(was, hash, target).slots;
      }
    }
  }

  /** The active list never outgrows the slot array, and has room while a slot is free. */
  lemma ActiveIsBounded(t: Table, h: Hash, free: nat)
    requires TableOk(t, h)
    ensures |t.active| <= |t.slots|
    ensures free < |t.slots| && !t.slots[free].isActive ==> |t.active| < |t.slots|
  {
    var bound := Below(|t.slots|) - if free < |t.slots| && !t.slots[free].isActive then {free} else {};
    forall i | i in t.active ensures i in bound {
      assert i < |t.slots|;
    }
    SizeOfEnumeration(t.active, bound);
  }

  ghost function Below(n: nat): (s: set<nat>)
    ensures |s| == n && forall i: nat :: i in s <==> i < n
  {
    if n == 0 then {} else Below(n - 1) + {n - 1}
  }

  lemma {:induction false} SizeOfEnumeration(s: seq<nat>, bound: set<nat>)
    requires NoDuplicates(s) && forall i :: i in s ==> i in bound
    ensures |s| <= |bound|
  {
    if s != [] {
      assert forall i :: i in s[1..] ==> i in s && i != s[0];
      SizeOfEnumeration(s[1..], bound - {s[0]});
    }
  }
}
