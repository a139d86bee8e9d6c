/**
 The per-connection replica lists of ReplicaManager3 (`Connection_RM3`).

 A connection keeps four lists of `LastSerializationResult` records. The same record object
 sits in several of them at once, and a dozen handlers move it about. `Lists` is the value of
 the four lists together with the set of records that have been allocated and not yet deleted.
 Every handler is a function on `Lists`; class `Connection` runs the source's loops and is
 proved to compute that function.
 */
module ReplicaLists {
  import opened Sequences

  /** A `Replica3` object, known by its address. */
  datatype Replica = Replica(address: nat)

  /** `Replica3::referenceIndex` of every replica that has one; any other still holds -1. */
  type Index = map<Replica, nat>

  const NO_INDEX: nat := 0xFFFF_FFFF

  function Key(index: Index, r: Replica): nat {
    if r in index then index[r] else NO_INDEX
  }

  /** What `ReferenceInternal` maintains: one index per replica, none equal to -1. */
  ghost predicate IndexOk(index: Index) {
    && (forall r :: r in index ==> index[r] < NO_INDEX)
    && (forall r, q :: r in index && q in index && index[r] == index[q] ==> r == q)
  }

  class LastSerializationResult {
    const replica: Replica

    constructor (replica: Replica)
      ensures this.replica == replica
    {
      this.replica := replica;
    }
  }

  type Record = LastSerializationResult

  ghost function Replicas(s: seq<Record>): set<Replica> {
    set x | x in s :: x.replica
  }

  ghost predicate Distinct(s: seq<Record>) {
    forall i, j :: 0 <= i < j < |s| ==> s[i].replica != s[j].replica
  }

  ghost predicate Sorted(s: seq<Record>, index: Index) {
    forall i, j :: 0 <= i < j < |s| ==> Key(index, s[i].replica) < Key(index, s[j].replica)
  }

  // ---- the searches and edits the handlers are written with ----

  /** Position of the first record of `r`, or the length when there is none. */
  function Find(s: seq<Record>, r: Replica): (k: nat)
    ensures k <= |s|
    ensures k < |s| ==> s[k].replica == r
    ensures forall j :: 0 <= j < k ==> s[j].replica != r
  {
    if s == [] then 0 else if s[0].replica == r then 0 else 1 + Find(s[1..], r)
  }

  /** Removes the first record of `r`, if any. */
  function Without(s: seq<Record>, r: Replica): (t: seq<Record>) {
    var k := Find(s, r);
    if k < |s| then RemoveAt(s, k) else s
  }

  /** `OrderedList::GetIndexFromKey`: the first position whose key is not smaller. */
  function Position(s: seq<Record>, key: nat, index: Index): (k: nat)
    ensures k <= |s|
    ensures k < |s| ==> key <= Key(index, s[k].replica)
    ensures forall j :: 0 <= j < k ==> Key(index, s[j].replica) < key
  {
    if s == [] then 0
    else if key <= Key(index, s[0].replica) then 0
    else 1 + Position(s[1..], key, index)
  }

  /** The `objectExists` answer of `GetIndexFromKey`. */
  function HasKey(s: seq<Record>, key: nat, index: Index): bool {
    var k := Position(s, key, index);
    k < |s| && Key(index, s[k].replica) == key
  }

  /** `OrderedList::Insert`: an existing key leaves the list as it is. */
  function Insert(s: seq<Record>, x: Record, index: Index): (t: seq<Record>) {
    var k := Position(s, Key(index, x.replica), index);
    if HasKey(s, Key(index, x.replica), index) then s else s[..k] + [x] + s[k..]
  }

  // ---- the lists of one connection ----

  datatype Lists = Lists(
    constructed: seq<Record>,
    pending: seq<Record>,      // queryToConstructReplicaList
    serialize: seq<Record>,    // queryToSerializeReplicaList
    destruct: seq<Record>,     // queryToDestructReplicaList
    live: set<Record>)         // allocated by this connection, not deleted

  const EMPTY: Lists := Lists([], [], [], [], {})

  /** The invariant that the disabled `ValidateLists` describes, and the order of the constructed list. */
  ghost predicate ListsOk(l: Lists, index: Index) {
    && Replicas(l.constructed) <= index.Keys
    && Replicas(l.pending) <= index.Keys
    && Sorted(l.constructed, index)
    && Distinct(l.pending) && Distinct(l.serialize) && Distinct(l.destruct)
    && Replicas(l.constructed) !! Replicas(l.pending)
    && (forall x :: x in l.serialize ==> x in l.constructed)
    && (forall x :: x in l.destruct ==> x in l.constructed)
  }

  /** Only live records are listed. */
  ghost predicate NoneFreed(l: Lists) {
    && (forall x :: x in l.constructed ==> x in l.live)
    && (forall x :: x in l.pending ==> x in l.live)
  }

  /** The two lists that the destructor frees hold every live record. */
  ghost predicate Owned(l: Lists) {
    NoneFreed(l) && forall x :: x in l.live ==> x in l.constructed || x in l.pending
  }

  // ---- the handlers ----

  ghost function LocalReference(l: Lists, x: Record): Lists {
    l.(pending := l.pending + [x], live := l.live + {x})
  }

  /** The record `OnDereference` deletes: the last one any of its four searches found. */
  ghost function Found(l: Lists, r: Replica, index: Index): Option<Record> {
    if Find(l.destruct, r) < |l.destruct| then Some(l.destruct[Find(l.destruct, r)])
    else if Find(l.serialize, r) < |l.serialize| then Some(l.serialize[Find(l.serialize, r)])
    else if Find(l.pending, r) < |l.pending| then Some(l.pending[Find(l.pending, r)])
    else if HasKey(l.constructed, Key(index, r), index)
    then Some(l.constructed[Position(l.constructed, Key(index, r), index)])
    else None
  }

  ghost function Dereference(l: Lists, r: Replica, index: Index, managed: bool): Lists {
    if !managed then l
    else
      var k := Position(l.constructed, Key(index, r), index);
      var found := Found(l, r, index);
      Lists(
        if HasKey(l.constructed, Key(index, r), index) then RemoveAt(l.constructed, k) else l.constructed,
        Without(l.pending, r),
        Without(l.serialize, r),
        Without(l.destruct, r),
        if found.Some? then l.live - {found.value} else l.live)
  }

  ghost function DownloadFromThisSystem(l: Lists, x: Record, index: Index): Lists {
    Lists(
      Insert(l.constructed, x, index),
      Without(l.pending, x.replica),
      if HasKey(l.constructed, Key(index, x.replica), index) then l.serialize else l.serialize + [x],
      l.destruct + [x],
      l.live + {x})
  }

  ghost function DownloadFromOtherSystem(l: Lists, x: Record): Lists {
    if Find(l.pending, x.replica) < |l.pending| then l else LocalReference(l, x)
  }

  ghost function NeverConstruct(l: Lists, i: nat): Lists
    requires i < |l.pending|
  {
    l.(pending := RemoveAt(l.pending, i), live := l.live - {l.pending[i]})
  }

  /** `OnConstructToThisConnection(unsigned)` and `OnReplicaAlreadyExists` have the same body. */
  ghost function Construct(l: Lists, i: nat, index: Index): Lists
    requires i < |l.pending|
  {
    var x := l.pending[i];
    Lists(Insert(l.constructed, x, index), RemoveAt(l.pending, i), l.serialize + [x], l.destruct + [x], l.live)
  }

  ghost function DownloadExisting(l: Lists, r: Replica, index: Index): Lists {
    if Find(l.pending, r) < |l.pending| then Construct(l, Find(l.pending, r), index) else l
  }

  ghost function SendDestruction(l: Lists, i: nat): Lists
    requires i < |l.destruct|
  {
    var x := l.destruct[i];
    Lists(
      Without(l.constructed, x.replica),
      l.pending + [x],
      Without(l.serialize, x.replica),
      RemoveAt(l.destruct, i),
      l.live)
  }

  ghost function DoNotQueryDestruction(l: Lists, i: nat): Lists
    requires i < |l.destruct|
  {
    l.(destruct := RemoveAt(l.destruct, i))
  }

  ghost function NeverSerialize(l: Lists, x: Record): Lists {
    var k := FindFirst(l.serialize, x);
    if k < |l.serialize| then l.(serialize := RemoveAt(l.serialize, k)) else l
  }

  // ---- what the edits do to membership and order ----

  lemma ReplicasOfMembers(s: seq<Record>)
    ensures forall x :: x in s ==> x.replica in Replicas(s)
  {}

  lemma ReplicasAfterAdding(s: seq<Record>, t: seq<Record>, x: Record)
    requires forall y :: y in t <==> y in s || y == x
    ensures Replicas(t) == Replicas(s) + {x.replica}
  {
    ReplicasOfMembers(s);
    ReplicasOfMembers(t);
    forall r | r in Replicas(s) + {x.replica} ensures r in Replicas(t) {
      if r != x.replica {
        var y :| y in s && y.replica == r;
        assert y in t;
      } else {
        assert x in t;
      }
    }
  }

  lemma ReplicasAfterRemoving(s: seq<Record>, t: seq<Record>, r: Replica)
    requires forall y :: y in t <==> y in s && y.replica != r
    ensures Replicas(t) == Replicas(s) - {r}
  {
    ReplicasOfMembers(t);
    forall q | q in Replicas(s) - {r} ensures q in Replicas(t) {
      var y :| y in s && y.replica == q;
      assert y in t;
    }
  }

  lemma SortedIsDistinct(s: seq<Record>, index: Index)
    requires Sorted(s, index)
    ensures Distinct(s)
  {}

  lemma SameReplicaSameRecord(s: seq<Record>, x: Record)
    requires Distinct(s) && x in s
    ensures forall y :: y in s && y.replica == x.replica ==> y == x
  {}

  lemma RemoveAtMembers(s: seq<Record>, k: nat)
    requires k < |s| && Distinct(s)
    ensures forall x :: x in RemoveAt(s, k) <==> x in s && x != s[k]
    ensures forall x :: x in RemoveAt(s, k) ==> x.replica != s[k].replica
    ensures Distinct(RemoveAt(s, k))
    ensures forall index :: Sorted(s, index) ==> Sorted(RemoveAt(s, k), index)
  {
    var t := RemoveAt(s, k);
    forall x | x in s && x != s[k] ensures x in t {
      var j :| 0 <= j < |s| && s[j] == x;
      assert t[if j < k then j else j - 1] == x;
    }
    forall x | x in t ensures x in s && x.replica != s[k].replica {
      var j :| 0 <= j < |t| && t[j] == x;
      assert s[if j < k then j else j + 1] == x;
    }
  }

  lemma WithoutMembers(s: seq<Record>, r: Replica)
    requires Distinct(s)
    ensures forall x :: x in Without(s, r) <==> x in s && x.replica != r
    ensures Distinct(Without(s, r))
    ensures forall index :: Sorted(s, index) ==> Sorted(Without(s, r), index)
  {
    if Find(s, r) < |s| {
      RemoveAtMembers(s, Find(s, r));
    }
  }

  /** Lookup by `referenceIndex` is lookup by identity. */
  lemma {:induction false} KeyIsIdentity(s: seq<Record>, r: Replica, index: Index)
    requires IndexOk(index) && Replicas(s) <= index.Keys && Sorted(s, index)
    ensures HasKey(s, Key(index, r), index) <==> r in Replicas(s)
    ensures HasKey(s, Key(index, r), index) ==> Position(s, Key(index, r), index) == Find(s, r)
  {
    var k := Position(s, Key(index, r), index);
    if HasKey(s, Key(index, r), index) {
      assert s[k].replica in Replicas(s);
      assert s[k].replica == r;
      assert s[Find(s, r)].replica == r;
    }
    if r in Replicas(s) {
      var x :| x in s && x.replica == r;
      var j :| 0 <= j < |s| && s[j] == x;
      assert k <= j;
    }
  }

  lemma InsertMembers(s: seq<Record>, x: Record, index: Index)
    requires Sorted(s, index) && !HasKey(s, Key(index, x.replica), index)
    ensures forall y :: y in Insert(s, x, index) <==> y in s || y == x
    ensures Sorted(Insert(s, x, index), index)
  {
    var k := Position(s, Key(index, x.replica), index);
    assert s == s[..k] + s[k..];
  }

  // ---- every handler keeps the invariant ----

  lemma LocalReferenceKeeps(l: Lists, x: Record, index: Index)
    requires ListsOk(l, index) && x.replica in index
    requires x.replica !in Replicas(l.constructed) && x.replica !in Replicas(l.pending)
    ensures ListsOk(LocalReference(l, x), index)
    ensures Owned(l) ==> Owned(LocalReference(l, x))
    ensures Replicas(LocalReference(l, x).pending) == Replicas(l.pending) + {x.replica}
  {
    ReplicasOfMembers(l.pending);
    ReplicasAfterAdding(l.pending, LocalReference(l, x).pending, x);
  }

  lemma ConstructKeeps(l: Lists, i: nat, index: Index)
    requires IndexOk(index) && ListsOk(l, index) && i < |l.pending|
    ensures ListsOk(Construct(l, i, index), index)
    ensures Owned(l) ==> Owned(Construct(l, i, index))
    ensures Replicas(Construct(l, i, index).constructed) == Replicas(l.constructed) + {l.pending[i].replica}
    ensures Replicas(Construct(l, i, index).pending) == Replicas(l.pending) - {l.pending[i].replica}
  {
    hide Insert, Position, HasKey, Key, RemoveAt, Replicas;
    var x := l.pending[i];
    var m := Construct(l, i, index);
    ReplicasOfMembers(l.pending);
    ReplicasOfMembers(l.constructed);
    SameReplicaSameRecord(l.pending, x);
    KeyIsIdentity(l.constructed, x.replica, index);
    InsertMembers(l.constructed, x, index);
    RemoveAtMembers(l.pending, i);
    ReplicasAfterAdding(l.constructed, m.constructed, x);
    ReplicasAfterRemoving(l.pending, m.pending, x.replica);
    if Owned(l) {
      assert x in l.pending && x in l.live;
      assert NoneFreed(m);
      assert forall y :: y in l.live ==> y in l.constructed || y in l.pending;
      assert forall y :: y in l.pending ==> y == x || y in m.pending;
      assert forall y :: y in l.constructed || y == x ==> y in m.constructed;
    }
  }

  lemma NeverConstructKeeps(l: Lists, i: nat, index: Index)
    requires ListsOk(l, index) && i < |l.pending|
    ensures ListsOk(NeverConstruct(l, i), index)
    ensures Owned(l) ==> Owned(NeverConstruct(l, i))
    ensures Replicas(NeverConstruct(l, i).pending) == Replicas(l.pending) - {l.pending[i].replica}
  {
    var x := l.pending[i];
    RemoveAtMembers(l.pending, i);
    SameReplicaSameRecord(l.pending, x);
    ReplicasOfMembers(l.pending);
    ReplicasOfMembers(l.constructed);
    ReplicasAfterRemoving(l.pending, NeverConstruct(l, i).pending, x.replica);
  }

  lemma SendDestructionKeeps(l: Lists, i: nat, index: Index)
    requires IndexOk(index) && ListsOk(l, index) && i < |l.destruct|
    ensures ListsOk(SendDestruction(l, i), index)
    ensures Owned(l) ==> Owned(SendDestruction(l, i))
    ensures Replicas(SendDestruction(l, i).constructed) == Replicas(l.constructed) - {l.destruct[i].replica}
    ensures Replicas(SendDestruction(l, i).pending) == Replicas(l.pending) + {l.destruct[i].replica}
  {
    var x := l.destruct[i];
    var m := SendDestruction(l, i);
    assert x in l.constructed;
    ReplicasOfMembers(l.constructed);
    ReplicasOfMembers(l.pending);
    SortedIsDistinct(l.constructed, index);
    SameReplicaSameRecord(l.constructed, x);
    WithoutMembers(l.constructed, x.replica);
    WithoutMembers(l.serialize, x.replica);
    RemoveAtMembers(l.destruct, i);
    ReplicasAfterRemoving(l.constructed, m.constructed, x.replica);
    assert forall y :: y in m.pending <==> y in l.pending || y == x;
    ReplicasAfterAdding(l.pending, m.pending, x);
  }

  lemma DoNotQueryDestructionKeeps(l: Lists, i: nat, index: Index)
    requires ListsOk(l, index) && i < |l.destruct|
    ensures ListsOk(DoNotQueryDestruction(l, i), index)
    ensures Owned(l) ==> Owned(DoNotQueryDestruction(l, i))
    ensures DoNotQueryDestruction(l, i) == l.(destruct := DoNotQueryDestruction(l, i).destruct)
    ensures forall x :: x in DoNotQueryDestruction(l, i).destruct <==> x in l.destruct && x != l.destruct[i]
  {
    RemoveAtMembers(l.destruct, i);
  }

  lemma NeverSerializeKeeps(l: Lists, x: Record, index: Index)
    requires ListsOk(l, index)
    ensures ListsOk(NeverSerialize(l, x), index)
    ensures Owned(l) ==> Owned(NeverSerialize(l, x))
    ensures NeverSerialize(l, x) == l.(serialize := NeverSerialize(l, x).serialize)
    ensures forall y :: y in NeverSerialize(l, x).serialize <==> y in l.serialize && y != x
  {
    var k := FindFirst(l.serialize, x);
    if k < |l.serialize| { RemoveAtMembers(l.serialize, k); }
  }

  /** With sorted, separate lists the four searches of `OnDereference` find the same record. */
  lemma DereferenceForm(l: Lists, r: Replica, index: Index)
    requires IndexOk(index) && ListsOk(l, index)
    ensures Dereference(l, r, index, true).constructed == Without(l.constructed, r)
    ensures Owned(l) ==> forall x :: x in Dereference(l, r, index, true).live <==> x in l.live && x.replica != r
  {
    SortedIsDistinct(l.constructed, index);
    KeyIsIdentity(l.constructed, r, index);
    ReplicasOfMembers(l.constructed);
    ReplicasOfMembers(l.pending);
    if Owned(l) {
      var f := Found(l, r, index);
      assert f.Some? ==> f.value.replica == r;
      forall x | x in l.live && x.replica == r ensures f == Some(x) {
        if x in l.constructed {
          SameReplicaSameRecord(l.constructed, x);
        } else {
          SameReplicaSameRecord(l.pending, x);
        }
      }
    }
  }

  /** `m` is `l` with every trace of `r` gone. */
  ghost predicate Removed(l: Lists, m: Lists, r: Replica) {
    && Removal(l.constructed, m.constructed, r)
    && Removal(l.pending, m.pending, r)
    && Removal(l.serialize, m.serialize, r)
    && Removal(l.destruct, m.destruct, r)
  }

  ghost predicate Removal(s: seq<Record>, t: seq<Record>, r: Replica) {
    && (forall x :: x in t ==> x in s && x.replica != r)
    && (forall x :: x in s && x.replica != r ==> x in t)
  }

  lemma WithoutIsRemoval(s: seq<Record>, r: Replica)
    requires Distinct(s)
    ensures Removal(s, Without(s, r), r)
    ensures Replicas(Without(s, r)) == Replicas(s) - {r}
  {
    WithoutMembers(s, r);
    ReplicasAfterRemoving(s, Without(s, r), r);
  }

  /**
   `OnDereference` leaves a replica that still has its NetworkIDManager in no list and frees
   exactly its records; the other replicas keep theirs. Otherwise it does nothing.
   */
  lemma DereferenceRemoves(l: Lists, r: Replica, index: Index, managed: bool)
    requires IndexOk(index) && ListsOk(l, index)
    ensures !managed ==> Dereference(l, r, index, managed) == l
    ensures managed ==> Removed(l, Dereference(l, r, index, managed), r)
    ensures managed && Owned(l) ==>
      forall x :: x in Dereference(l, r, index, managed).live <==> x in l.live && x.replica != r
    ensures managed ==> Replicas(Dereference(l, r, index, managed).constructed) == Replicas(l.constructed) - {r}
    ensures managed ==> Replicas(Dereference(l, r, index, managed).pending) == Replicas(l.pending) - {r}
  {
    if managed {
      DereferenceForm(l, r, index);
      SortedIsDistinct(l.constructed, index);
      WithoutIsRemoval(l.constructed, r);
      WithoutIsRemoval(l.pending, r);
      WithoutIsRemoval(l.serialize, r);
      WithoutIsRemoval(l.destruct, r);
    }
  }

  lemma DereferenceKeeps(l: Lists, r: Replica, index: Index, managed: bool)
    requires IndexOk(index) && ListsOk(l, index)
    ensures ListsOk(Dereference(l, r, index, managed), index)
    ensures Owned(l) ==> Owned(Dereference(l, r, index, managed))
  {
    if managed {
      DereferenceForm(l, r, index);
      DereferenceRemoves(l, r, index, managed);
      SortedIsDistinct(l.constructed, index);
      WithoutMembers(l.constructed, r);
      WithoutMembers(l.pending, r);
      WithoutMembers(l.serialize, r);
      WithoutMembers(l.destruct, r);
    }
  }

  lemma DownloadFresh(l: Lists, x: Record, index: Index)
    requires IndexOk(index) && ListsOk(l, index) && x.replica in index
    requires x.replica !in Replicas(l.constructed)
    ensures ListsOk(DownloadFromThisSystem(l, x, index), index)
  {
    var m := DownloadFromThisSystem(l, x, index);
    ReplicasOfMembers(l.constructed);
    KeyIsIdentity(l.constructed, x.replica, index);
    InsertMembers(l.constructed, x, index);
    WithoutMembers(l.pending, x.replica);
    DownloadFromThisSystemMoves(l, x, index);
  }

  /**
   A downloaded object keeps the lists well formed exactly when this connection does not hold it
   as constructed already: otherwise its new record is queried for destruction but not listed.
   */
  lemma DownloadFromThisSystemKeeps(l: Lists, x: Record, index: Index)
    requires IndexOk(index) && ListsOk(l, index) && x.replica in index && x !in l.constructed
    ensures ListsOk(DownloadFromThisSystem(l, x, index), index) <==> x.replica !in Replicas(l.constructed)
  {
    if x.replica in Replicas(l.constructed) {
      KeyIsIdentity(l.constructed, x.replica, index);
      assert DownloadFromThisSystem(l, x, index).destruct[|l.destruct|] == x;
    } else {
      DownloadFresh(l, x, index);
    }
  }

  /** It leaks a record exactly when the object was still waiting to be constructed here. */
  lemma DownloadFromThisSystemOwns(l: Lists, x: Record, index: Index)
    requires IndexOk(index) && ListsOk(l, index) && Owned(l) && x.replica in index
    requires x !in l.live && x.replica !in Replicas(l.constructed)
    ensures NoneFreed(DownloadFromThisSystem(l, x, index))
    ensures Owned(DownloadFromThisSystem(l, x, index)) <==> x.replica !in Replicas(l.pending)
  {
    var m := DownloadFromThisSystem(l, x, index);
    ReplicasOfMembers(l.constructed);
    KeyIsIdentity(l.constructed, x.replica, index);
    InsertMembers(l.constructed, x, index);
    WithoutIsRemoval(l.pending, x.replica);
    if x.replica in Replicas(l.pending) {
      var y :| y in l.pending && y.replica == x.replica;
      assert y in m.live && y !in m.pending && y !in m.constructed;
    }
  }

  lemma DownloadFromThisSystemMoves(l: Lists, x: Record, index: Index)
    requires IndexOk(index) && ListsOk(l, index)
    requires x.replica in index && x.replica !in Replicas(l.constructed)
    ensures Replicas(DownloadFromThisSystem(l, x, index).constructed) == Replicas(l.constructed) + {x.replica}
    ensures Replicas(DownloadFromThisSystem(l, x, index).pending) == Replicas(l.pending) - {x.replica}
  {
    KeyIsIdentity(l.constructed, x.replica, index);
    InsertMembers(l.constructed, x, index);
    WithoutIsRemoval(l.pending, x.replica);
    ReplicasAfterAdding(l.constructed, Insert(l.constructed, x, index), x);
  }

  lemma {:induction false} FoundIffListed(s: seq<Record>, r: Replica)
    ensures Find(s, r) < |s| <==> r in Replicas(s)
  {
    ReplicasOfMembers(s);
    if Find(s, r) < |s| { assert s[Find(s, r)] in s; }
  }

  lemma DownloadFromOtherSystemKeeps(l: Lists, x: Record, index: Index)
    requires ListsOk(l, index) && x.replica in index && x.replica !in Replicas(l.constructed)
    ensures ListsOk(DownloadFromOtherSystem(l, x), index)
    ensures Owned(l) ==> Owned(DownloadFromOtherSystem(l, x))
    ensures Replicas(DownloadFromOtherSystem(l, x).pending) == Replicas(l.pending) + {x.replica}
  {
    FoundIffListed(l.pending, x.replica);
    if x.replica !in Replicas(l.pending) { LocalReferenceKeeps(l, x, index); }
  }

  lemma DownloadExistingKeeps(l: Lists, r: Replica, index: Index)
    requires IndexOk(index) && ListsOk(l, index)
    ensures ListsOk(DownloadExisting(l, r, index), index)
    ensures Owned(l) ==> Owned(DownloadExisting(l, r, index))
    ensures Replicas(DownloadExisting(l, r, index).constructed) ==
      Replicas(l.constructed) + (if r in Replicas(l.pending) then {r} else {})
    ensures Replicas(DownloadExisting(l, r, index).pending) == Replicas(l.pending) - {r}
  {
    FoundIffListed(l.pending, r);
    if r in Replicas(l.pending) { ConstructKeeps(l, Find(l.pending, r), index); }
  }

  /** `HasReplicaConstructed` compares keys; it answers membership of the replica itself. */
  lemma HasReplicaConstructedIsMembership(l: Lists, r: Replica, index: Index)
    requires IndexOk(index) && ListsOk(l, index)
    ensures HasKey(l.constructed, Key(index, r), index) <==> r in Replicas(l.constructed)
  {
    KeyIsIdentity(l.constructed, r, index);
  }

  /** The destructor's two loops delete every live record, each once. */
  lemma DestructorFreesEachRecordOnce(l: Lists, index: Index)
    requires ListsOk(l, index) && Owned(l)
    ensures NoDuplicates(l.constructed + l.pending)
    ensures forall x :: x in l.constructed + l.pending <==> x in l.live
  {
    SortedIsDistinct(l.constructed, index);
    ReplicasOfMembers(l.constructed);
    ReplicasOfMembers(l.pending);
  }
}
