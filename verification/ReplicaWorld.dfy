/**
 `ReplicaManager3` over every run: reference indices are handed out once, every handler reaches
 every connection, and the lists of all connections stay well formed without further assumptions
 on the caller.
 */
module ReplicaWorld {
  import opened Sequences
  import opened ReplicaLists
  import opened ReplicaTick

  datatype World = World(
    index: Index,
    next: nat,                 // nextReferenceIndex
    managed: set<Replica>,     // replicas whose GetNetworkIDManager() is not 0
    users: seq<Replica>,       // userReplicaList
    connections: seq<Lists>)

  const NEW_WORLD := World(map[], 0, {}, [], [])

  ghost predicate ConnectionOk(l: Lists, w: World) {
    && ListsOk(l, w.index)
    && Owned(l)
    && (forall r :: r in Replicas(l.constructed) || r in Replicas(l.pending) ==> r in w.users)
  }

  ghost predicate WorldOk(w: World) {
    && IndexOk(w.index)
    && (forall r :: r in w.index ==> w.index[r] < w.next)
    && w.next <= NO_INDEX
    && NoDuplicates(w.users)
    && (forall r :: r in w.users ==> r in w.managed && r in w.index)
    && (forall c :: 0 <= c < |w.connections| ==> ConnectionOk(w.connections[c], w))
  }

  /** `r` has a record on this connection. */
  ghost predicate Holds(l: Lists, r: Replica) {
    r in Replicas(l.constructed) || r in Replicas(l.pending)
  }

  /** The things that can happen to the manager. `recs` holds the records allocated by the event. */
  datatype Event =
    | Reference(r: Replica, recs: seq<Record>)
    | Register(r: Replica)                                   // ReferenceInternal for a downloaded object
    | Download(r: Replica, from: nat, recs: seq<Record>)
    | ExistingDownload(r: Replica, from: nat)
    | Forget(r: Replica)                                     // ReplicaManager3::Dereference
    | ForgetOn(r: Replica, from: nat)                        // a destruction that was not accepted
    | TickOn(from: nat, mode: Mode, qc: QueryConstruction, qd: QueryDestruction)
    | StopSerializing(from: nat, x: Record)
    | Push(recs: seq<Record>)
    | Pop(from: nat)

  ghost function Refer(w: World, r: Replica): World {
    if r in w.users then w
    else w.(
      managed := w.managed + {r},
      index := if r in w.index then w.index else w.index[r := w.next],
      next := if r in w.index then w.next else w.next + 1,
      users := w.users + [r])
  }

  /** One new record per connection, each for `r`, none of them already in use there. */
  ghost predicate FreshFor(w: World, r: Replica, recs: seq<Record>) {
    && |recs| == |w.connections|
    && forall c :: 0 <= c < |recs| ==> recs[c].replica == r && recs[c] !in w.connections[c].live
  }

  ghost predicate Enabled(w: World, e: Event) {
    match e
    case Reference(r, recs) => r !in w.users ==> w.next < NO_INDEX && FreshFor(w, r, recs)
    case Register(r) => r !in w.users ==> w.next < NO_INDEX
    case Download(r, from, recs) =>
      && from < |w.connections| && r in w.users && FreshFor(w, r, recs)
      && forall c :: 0 <= c < |w.connections| ==> !Holds(w.connections[c], r)
    case ExistingDownload(r, from) => from < |w.connections|
    case Forget(r) => true
    case ForgetOn(r, from) => from < |w.connections|
    case TickOn(from, mode, qc, qd) => from < |w.connections|
    case StopSerializing(from, x) => from < |w.connections|
    case Push(recs) => |recs| == |w.users| && NoDuplicates(recs) &&
      forall k :: 0 <= k < |recs| ==> recs[k].replica == w.users[k]
    case Pop(from) => from < |w.connections|
  }

  ghost function Apply(w: World, e: Event): World
    requires Enabled(w, e)
  {
    match e
    case Reference(r, recs) =>
      if r in w.users then w
      else Refer(w, r).(connections := seq(|w.connections|, c requires 0 <= c < |w.connections| =>
        LocalReference(w.connections[c], recs[c])))
    case Register(r) => Refer(w, r)
    case Download(r, from, recs) =>
      w.(connections := seq(|w.connections|, c requires 0 <= c < |w.connections| =>
        if c == from then DownloadFromThisSystem(w.connections[c], recs[c], w.index)
        else DownloadFromOtherSystem(w.connections[c], recs[c])))
    case ExistingDownload(r, from) =>
      w.(connections := w.connections[from := DownloadExisting(w.connections[from], r, w.index)])
    case Forget(r) =>
      w.(users := WithoutUser(w.users, r),
         connections := seq(|w.connections|, c requires 0 <= c < |w.connections| =>
           Dereference(w.connections[c], r, w.index, r in w.managed)))
    case ForgetOn(r, from) =>
      w.(connections := w.connections[from := Dereference(w.connections[from], r, w.index, r in w.managed)])
    case TickOn(from, mode, qc, qd) =>
      w.(connections := w.connections[from := Tick(w.connections[from], w.index, mode, qc, qd).lists])
    case StopSerializing(from, x) =>
      w.(connections := w.connections[from := NeverSerialize(w.connections[from], x)])
    case Push(recs) => w.(connections := w.connections + [Referenced(recs)])
    case Pop(from) => w.(connections := RemoveAt(w.connections, from))
  }

  /** The lists of a new connection after `OnLocalReference` for every user replica. */
  ghost function Referenced(recs: seq<Record>): Lists {
    if recs == [] then EMPTY
    else LocalReference(Referenced(recs[..|recs| - 1]), recs[|recs| - 1])
  }

  function WithoutUser(users: seq<Replica>, r: Replica): seq<Replica> {
    var k := FindFirst(users, r);
    if k < |users| then RemoveAt(users, k) else users
  }

  lemma WithoutUserMembers(users: seq<Replica>, r: Replica)
    requires NoDuplicates(users)
    ensures forall q :: q in WithoutUser(users, r) <==> q in users && q != r
    ensures NoDuplicates(WithoutUser(users, r))
  {
    var k := FindFirst(users, r);
    if k < |users| {
      var t := RemoveAt(users, k);
      forall q | q in users && q != r ensures q in t {
        var j :| 0 <= j < |users| && users[j] == q;
        assert t[if j < k then j else j - 1] == q;
      }
    }
  }

  // ---- the manager's own part of the invariant ----

  lemma ReferKeeps(w: World, r: Replica)
    requires WorldOk(w) && (r !in w.users ==> w.next < NO_INDEX)
    ensures WorldOk(Refer(w, r))
  {
    var v := Refer(w, r);
    forall c | 0 <= c < |v.connections| ensures ConnectionOk(v.connections[c], v) {
      assert ConnectionOk(w.connections[c], w);
      IndexGrows(w.connections[c], w.index, v.index);
    }
  }

  /** New indices do not disturb the order of the replicas that have one. */
  lemma IndexGrows(l: Lists, before: Index, after: Index)
    requires ListsOk(l, before)
    requires forall r :: r in before ==> r in after && after[r] == before[r]
    ensures ListsOk(l, after)
  {
    ReplicasOfMembers(l.constructed);
  }

  lemma ChangeOne(w: World, from: nat, l: Lists)
    requires WorldOk(w) && from < |w.connections| && ConnectionOk(l, w)
    ensures WorldOk(w.(connections := w.connections[from := l]))
  {
    var v := w.(connections := w.connections[from := l]);
    forall c | 0 <= c < |v.connections| ensures ConnectionOk(v.connections[c], v) {
      assert c != from ==> ConnectionOk(w.connections[c], w);
    }
  }

  lemma ReferenceKeeps(w: World, r: Replica, recs: seq<Record>)
    requires WorldOk(w) && Enabled(w, Reference(r, recs))
    ensures WorldOk(Apply(w, Reference(r, recs)))
  {
    if r !in w.users {
      var u := Refer(w, r);
      var v := Apply(w, Reference(r, recs));
      ReferKeeps(w, r);
      forall c | 0 <= c < |v.connections| ensures ConnectionOk(v.connections[c], v) {
        assert ConnectionOk(w.connections[c], w) && ConnectionOk(u.connections[c], u);
        LocalReferenceKeeps(u.connections[c], recs[c], u.index);
      }
    }
  }

  lemma DownloadKeeps(w: World, r: Replica, from: nat, recs: seq<Record>)
    requires WorldOk(w) && Enabled(w, Download(r, from, recs))
    ensures WorldOk(Apply(w, Download(r, from, recs)))
  {
    var v := Apply(w, Download(r, from, recs));
    forall c | 0 <= c < |v.connections| ensures ConnectionOk(v.connections[c], v) {
      var l := w.connections[c];
      assert ConnectionOk(l, w) && !Holds(l, r);
      if c == from {
        DownloadFresh(l, recs[c], w.index);
        DownloadFromThisSystemOwns(l, recs[c], w.index);
        DownloadFromThisSystemMoves(l, recs[c], w.index);
      } else {
        DownloadFromOtherSystemKeeps(l, recs[c], w.index);
      }
    }
  }

  lemma ForgetKeeps(w: World, r: Replica)
    requires WorldOk(w)
    ensures WorldOk(Apply(w, Forget(r)))
  {
    var v := Apply(w, Forget(r));
    WithoutUserMembers(w.users, r);
    forall c | 0 <= c < |v.connections| ensures ConnectionOk(v.connections[c], v) {
      var l := w.connections[c];
      assert ConnectionOk(l, w);
      DereferenceKeeps(l, r, w.index, r in w.managed);
      DereferenceRemoves(l, r, w.index, r in w.managed);
    }
  }

  lemma {:induction false} ReferencedKeeps(w: World, recs: seq<Record>)
    requires WorldOk(w) && |recs| <= |w.users| && NoDuplicates(recs)
    requires forall k :: 0 <= k < |recs| ==> recs[k].replica == w.users[k]
    ensures ConnectionOk(Referenced(recs), w)
    ensures Replicas(Referenced(recs).pending) == Replicas(recs) && Referenced(recs).constructed == []
  {
    if recs != [] {
      var k := |recs| - 1;
      ReferencedKeeps(w, recs[..k]);
      assert recs[k].replica !in Replicas(recs[..k]) by {
        assert forall x :: x in recs[..k] ==> exists j :: 0 <= j < k && recs[j] == x;
      }
      LocalReferenceKeeps(Referenced(recs[..k]), recs[k], w.index);
      assert forall x :: x in recs <==> x in recs[..k] || x == recs[k];
      ReplicasAfterAdding(recs[..k], recs, recs[k]);
    }
  }

  /** Every event keeps every connection's lists well formed and their records owned. */
  lemma EventKeeps(w: World, e: Event)
    requires WorldOk(w) && Enabled(w, e)
    ensures WorldOk(Apply(w, e))
  {
    match e
    case Reference(r, recs) => ReferenceKeeps(w, r, recs);
    case Register(r) => ReferKeeps(w, r);
    case Download(r, from, recs) => DownloadKeeps(w, r, from, recs);
    case ExistingDownload(r, from) =>
      assert ConnectionOk(w.connections[from], w);
      DownloadExistingKeeps(w.connections[from], r, w.index);
      ChangeOne(w, from, DownloadExisting(w.connections[from], r, w.index));
    case Forget(r) => ForgetKeeps(w, r);
    case ForgetOn(r, from) =>
      assert ConnectionOk(w.connections[from], w);
      DereferenceKeeps(w.connections[from], r, w.index, r in w.managed);
      DereferenceRemoves(w.connections[from], r, w.index, r in w.managed);
      ChangeOne(w, from, Dereference(w.connections[from], r, w.index, r in w.managed));
    case TickOn(from, mode, qc, qd) =>
      assert ConnectionOk(w.connections[from], w);
      TickKeeps(w.connections[from], w.index, mode, qc, qd);
      TickHoldsNoMore(w.connections[from], w.index, mode, qc, qd);
      ChangeOne(w, from, Tick(w.connections[from], w.index, mode, qc, qd).lists);
    case StopSerializing(from, x) =>
      assert ConnectionOk(w.connections[from], w);
      NeverSerializeKeeps(w.connections[from], x, w.index);
      ChangeOne(w, from, NeverSerialize(w.connections[from], x));
    case Push(recs) =>
      ReferencedKeeps(w, recs);
      var v := Apply(w, e);
      forall c | 0 <= c < |v.connections| ensures ConnectionOk(v.connections[c], v) {
        assert c < |w.connections| ==> ConnectionOk(w.connections[c], w);
      }
    case Pop(from) =>
      var v := Apply(w, e);
      forall c | 0 <= c < |v.connections| ensures ConnectionOk(v.connections[c], v) {
        assert ConnectionOk(w.connections[if c < from then c else c + 1], w);
      }
  }

  /** `w'` is reached from `w` by the events of `es`, each possible when it happens. */
  ghost predicate Run(w: World, es: seq<Event>, w': World)
    decreases |es|
  {
    if es == [] then w' == w
    else Enabled(w, es[0]) && Run(Apply(w, es[0]), es[1..], w')
  }

  /**
   Over every run from a new manager: on each connection no replica is both constructed and
   pending, no list holds one twice, the serialize and destruct lists share their records with
   the constructed list, which is sorted by referenceIndex, and the records in use are exactly
   those the destructor frees.
   */
  lemma {:induction false} ListsStayValid(w: World, es: seq<Event>, w': World)
    requires WorldOk(w) && Run(w, es, w')
    ensures WorldOk(w')
    decreases |es|
  {
    if es != [] {
      EventKeeps(w, es[0]);
      ListsStayValid(Apply(w, es[0]), es[1..], w');
    }
  }
}
