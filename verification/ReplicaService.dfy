/**
 What the invariant of the lists leaves open: that a constructed replica really is serialized and
 queried for destruction, and that a known replica is not lost on the way. It is not, unless the
 answers for this very replica say so.
 */
module ReplicaService {
  import opened Sequences
  import opened ReplicaLists
  import opened ReplicaTick
  import opened ReplicaWorld
  import opened ReplicaOutcome

  /** If `r` is constructed here, its record is on the serialize list. */
  ghost predicate Serialized(l: Lists, r: Replica) {
    forall x :: x in l.constructed && x.replica == r ==> x in l.serialize
  }

  /** If `r` is constructed here, its record is on the destruct list. */
  ghost predicate Watched(l: Lists, r: Replica) {
    forall x :: x in l.constructed && x.replica == r ==> x in l.destruct
  }

  /** `m` serves `r` at least as `l` did. */
  ghost predicate Serves(l: Lists, m: Lists, r: Replica) {
    (Serialized(l, r) ==> Serialized(m, r)) && (Watched(l, r) ==> Watched(m, r))
  }

  lemma ConstructServes(l: Lists, i: nat, index: Index, r: Replica)
    requires IndexOk(index) && ListsOk(l, index) && i < |l.pending|
    ensures Serves(l, Construct(l, i, index), r)
  {
    ConstructEffect(l, i, index);
    hide Construct;
  }

  lemma DownloadServes(l: Lists, x: Record, index: Index, r: Replica)
    requires IndexOk(index) && ListsOk(l, index) && x.replica !in Replicas(l.constructed)
    ensures Serves(l, DownloadFromThisSystem(l, x, index), r)
  {
    DownloadEffect(l, x, index);
    var m := DownloadFromThisSystem(l, x, index);
    assert m.serialize[|l.serialize|] == x && m.destruct[|l.destruct|] == x;
    hide DownloadFromThisSystem;
  }

  lemma DereferenceServes(l: Lists, q: Replica, index: Index, managed: bool, r: Replica)
    requires IndexOk(index) && ListsOk(l, index)
    ensures Serves(l, Dereference(l, q, index, managed), r)
  {
    DereferenceRemoves(l, q, index, managed);
    hide Dereference;
  }

  lemma NeverSerializeServes(l: Lists, x: Record, index: Index, r: Replica)
    requires ListsOk(l, index)
    ensures Watched(l, r) ==> Watched(NeverSerialize(l, x), r)
    ensures Serialized(l, r) && x.replica != r ==> Serialized(NeverSerialize(l, x), r)
  {
    NeverSerializeEffect(l, x, index);
    hide NeverSerialize;
  }

  /** A tick stops querying a constructed replica only when its own answer asks for that. */
  lemma TickServes(l: Lists, index: Index, mode: Mode, qc: QueryConstruction, qd: QueryDestruction, r: Replica)
    requires IndexOk(index) && ListsOk(l, index)
    ensures var m := Tick(l, index, mode, qc, qd).lists;
      && (Serialized(l, r) ==> Serialized(m, r))
      && (Watched(l, r) && qd(r) != DO_NOT_QUERY_DESTRUCTION ==> Watched(m, r))
  {
    hide Tick, ListsOk;
    var m := Tick(l, index, mode, qc, qd).lists;
    forall x | x in m.constructed && x.replica == r
      ensures Serialized(l, r) ==> x in m.serialize
      ensures Watched(l, r) && qd(r) != DO_NOT_QUERY_DESTRUCTION ==> x in m.destruct
    {
      TickOutcome(l, index, mode, qc, qd, x);
    }
  }

  /** The event does not take `r` off a serialize list. */
  ghost predicate KeepsSerializing(e: Event, r: Replica) { e.StopSerializing? ==> e.x.replica != r }

  /** The event does not take `r` off a destruct list. */
  ghost predicate KeepsQuerying(e: Event, r: Replica) { e.TickOn? ==> e.qd(r) != DO_NOT_QUERY_DESTRUCTION }

  ghost predicate SerializedEverywhere(w: World, r: Replica) {
    forall c :: 0 <= c < |w.connections| ==> Serialized(w.connections[c], r)
  }

  ghost predicate WatchedEverywhere(w: World, r: Replica) {
    forall c :: 0 <= c < |w.connections| ==> Watched(w.connections[c], r)
  }

  /** The change an event makes on connection `c`, which was there before. */
  lemma ConnectionServes(w: World, e: Event, c: nat, r: Replica)
    requires WorldOk(w) && Enabled(w, e) && c < |w.connections| && !e.Pop?
    ensures |Apply(w, e).connections| >= |w.connections|
    ensures Serialized(w.connections[c], r) && KeepsSerializing(e, r) ==> Serialized(Apply(w, e).connections[c], r)
    ensures Watched(w.connections[c], r) && KeepsQuerying(e, r) ==> Watched(Apply(w, e).connections[c], r)
  {
    var l := w.connections[c];
    assert ConnectionOk(l, w);
    match e
    case Download(q, from, recs) =>
      assert !Holds(l, q);
      hide DownloadFromThisSystem;
      if c == from { DownloadServes(l, recs[c], w.index, r); }
    case ExistingDownload(q, from) =>
      if Find(l.pending, q) < |l.pending| { ConstructServes(l, Find(l.pending, q), w.index, r); }
      hide Construct;
    case Forget(q) => hide Dereference; DereferenceServes(l, q, w.index, q in w.managed, r);
    case ForgetOn(q, from) => hide Dereference; DereferenceServes(l, q, w.index, q in w.managed, r);
    case TickOn(from, mode, qc, qd) => hide Tick; TickServes(l, w.index, mode, qc, qd, r);
    case StopSerializing(from, x) => hide NeverSerialize; NeverSerializeServes(l, x, w.index, r);
    case _ =>
  }

  lemma {:induction false} NewConnectionHasNone(recs: seq<Record>)
    ensures Referenced(recs).constructed == []
  {
    if recs != [] { NewConnectionHasNone(recs[..|recs| - 1]); }
  }

  /** Hence on every connection there is after the event. */
  lemma EventServes(w: World, e: Event, r: Replica)
    requires WorldOk(w) && Enabled(w, e)
    ensures SerializedEverywhere(w, r) && KeepsSerializing(e, r) ==> SerializedEverywhere(Apply(w, e), r)
    ensures WatchedEverywhere(w, r) && KeepsQuerying(e, r) ==> WatchedEverywhere(Apply(w, e), r)
  {
    var v := Apply(w, e);
    forall c: nat | c < |v.connections|
      ensures SerializedEverywhere(w, r) && KeepsSerializing(e, r) ==> Serialized(v.connections[c], r)
      ensures WatchedEverywhere(w, r) && KeepsQuerying(e, r) ==> Watched(v.connections[c], r)
    {
      if e.Pop? {
        assert v.connections[c] == w.connections[if c < e.from then c else c + 1];
      } else if c < |w.connections| {
        ConnectionServes(w, e, c, r);
      } else {
        NewConnectionHasNone(e.recs);
      }
    }
  }

  /**
   Over every run: while a replica does not ask never to be serialized, its record is on the
   serialize list of every connection that has it constructed, and while it does not ask not to
   be queried, it is on the destruct list, whatever other replicas ask for.
   */
  lemma {:induction false} ConstructedAreServed(w: World, es: seq<Event>, w': World, r: Replica)
    requires WorldOk(w) && Run(w, es, w')
    ensures SerializedEverywhere(w, r) && (forall e :: e in es ==> KeepsSerializing(e, r)) ==> SerializedEverywhere(w', r)
    ensures WatchedEverywhere(w, r) && (forall e :: e in es ==> KeepsQuerying(e, r)) ==> WatchedEverywhere(w', r)
    decreases |es|
  {
    if es != [] {
      EventKeeps(w, es[0]);
      EventServes(w, es[0], r);
      assert es[0] in es && forall e :: e in es[1..] ==> e in es;
      ConstructedAreServed(Apply(w, es[0]), es[1..], w', r);
    }
  }

  // ---- no replica is lost ----

  ghost predicate HeldEverywhere(w: World, r: Replica) {
    forall c :: 0 <= c < |w.connections| ==> Holds(w.connections[c], r)
  }

  /** Referencing a replica that the manager does not know puts it on every connection, as pending. */
  lemma ReferenceReachesAll(w: World, r: Replica, recs: seq<Record>, c: nat)
    requires Enabled(w, Reference(r, recs)) && r !in w.users && c < |w.connections|
    ensures var v := Apply(w, Reference(r, recs));
      && v.users == w.users + [r] && r in v.managed && r in v.index && |v.connections| == |w.connections|
      && v.connections[c] == w.connections[c].(
           pending := w.connections[c].pending + [recs[c]], live := w.connections[c].live + {recs[c]})
      && recs[c].replica == r && Holds(v.connections[c], r)
  {
    var v := Apply(w, Reference(r, recs));
    assert v.connections[c].pending[|w.connections[c].pending|] == recs[c];
    ReplicasOfMembers(v.connections[c].pending);
  }

  /** A downloaded object becomes constructed where it came from, and pending on every other connection. */
  lemma DownloadReachesAll(w: World, r: Replica, from: nat, recs: seq<Record>, c: nat)
    requires WorldOk(w) && Enabled(w, Download(r, from, recs)) && c < |w.connections|
    ensures var v := Apply(w, Download(r, from, recs));
      && |v.connections| == |w.connections|
      && (if c == from then r in Replicas(v.connections[c].constructed) else r in Replicas(v.connections[c].pending))
  {
    var l := w.connections[c];
    assert ConnectionOk(l, w) && !Holds(l, r);
    if c == from {
      DownloadFromThisSystemMoves(l, recs[c], w.index);
    } else {
      DownloadFromOtherSystemKeeps(l, recs[c], w.index);
    }
  }

  /** A tick loses a replica only by the answer NEVER_CONSTRUCT for it. */
  lemma TickHolds(l: Lists, index: Index, mode: Mode, qc: QueryConstruction, qd: QueryDestruction, r: Replica)
    requires IndexOk(index) && ListsOk(l, index) && Holds(l, r) && qc(r) != NEVER_CONSTRUCT
    ensures Holds(Tick(l, index, mode, qc, qd).lists, r)
  {
    hide Tick, ListsOk;
    var x :| (x in l.constructed || x in l.pending) && x.replica == r;
    TickOutcome(l, index, mode, qc, qd, x);
    var m := Tick(l, index, mode, qc, qd).lists;
    ReplicasOfMembers(m.constructed);
    ReplicasOfMembers(m.pending);
  }

  /** The event does not drop `r` from a connection. */
  ghost predicate KeepsHolding(e: Event, r: Replica) {
    match e
    case Forget(q) => q != r
    case ForgetOn(q, _) => q != r
    case TickOn(_, _, qc, _) => qc(r) != NEVER_CONSTRUCT
    case _ => true
  }

  lemma ConnectionHolds(w: World, e: Event, c: nat, r: Replica)
    requires WorldOk(w) && Enabled(w, e) && c < |w.connections| && !e.Pop?
    requires Holds(w.connections[c], r) && KeepsHolding(e, r)
    ensures |Apply(w, e).connections| >= |w.connections| && Holds(Apply(w, e).connections[c], r)
  {
    var l := w.connections[c];
    assert ConnectionOk(l, w);
    match e
    case Reference(q, recs) =>
      if q !in w.users { ReplicasAfterAdding(l.pending, l.pending + [recs[c]], recs[c]); }
    case Download(q, from, recs) =>
      assert !Holds(l, q);
      hide DownloadFromThisSystem, DownloadFromOtherSystem;
      if c == from { DownloadFromThisSystemMoves(l, recs[c], w.index); }
      else { DownloadFromOtherSystemKeepsConstructed(l, recs[c], w.index); }
    case ExistingDownload(q, from) => hide DownloadExisting; DownloadExistingKeeps(l, q, w.index);
    case Forget(q) => hide Dereference; DereferenceRemoves(l, q, w.index, q in w.managed);
    case ForgetOn(q, from) => hide Dereference; DereferenceRemoves(l, q, w.index, q in w.managed);
    case TickOn(from, mode, qc, qd) => if c == from { TickHolds(l, w.index, mode, qc, qd, r); }
    case _ =>
  }

  lemma DownloadFromOtherSystemKeepsConstructed(l: Lists, x: Record, index: Index)
    requires ListsOk(l, index) && x.replica in index && x.replica !in Replicas(l.constructed)
    ensures DownloadFromOtherSystem(l, x).constructed == l.constructed
    ensures Replicas(DownloadFromOtherSystem(l, x).pending) == Replicas(l.pending) + {x.replica}
  {
    DownloadFromOtherSystemKeeps(l, x, index);
  }

  /** A new connection holds every replica that the manager knows. */
  lemma {:induction false} NewConnectionHolds(w: World, recs: seq<Record>, r: Replica)
    requires WorldOk(w) && Enabled(w, Push(recs)) && r in w.users
    ensures Holds(Referenced(recs), r)
  {
    ReferencedKeeps(w, recs);
    var k :| 0 <= k < |w.users| && w.users[k] == r;
    assert recs[k] in recs;
    ReplicasOfMembers(recs);
  }

  lemma EventHolds(w: World, e: Event, r: Replica)
    requires WorldOk(w) && Enabled(w, e) && r in w.users && HeldEverywhere(w, r) && KeepsHolding(e, r)
    ensures r in Apply(w, e).users && HeldEverywhere(Apply(w, e), r)
  {
    var v := Apply(w, e);
    if e.Forget? { WithoutUserMembers(w.users, e.r); }
    forall c: nat | c < |v.connections| ensures Holds(v.connections[c], r) {
      if e.Pop? {
        assert v.connections[c] == w.connections[if c < e.from then c else c + 1];
      } else if c < |w.connections| {
        ConnectionHolds(w, e, c, r);
      } else {
        NewConnectionHolds(w, e.recs, r);
      }
    }
  }

  /**
   Over every run: a known replica that is on every connection, as pending or constructed, stays
   on every connection, new ones included, until it is dereferenced or one of its own answers is
   NEVER_CONSTRUCT.
   */
  lemma {:induction false} NoReplicaIsLost(w: World, es: seq<Event>, w': World, r: Replica)
    requires WorldOk(w) && Run(w, es, w') && r in w.users && HeldEverywhere(w, r)
    requires forall e :: e in es ==> KeepsHolding(e, r)
    ensures r in w'.users && HeldEverywhere(w', r)
    decreases |es|
  {
    if es != [] {
      EventKeeps(w, es[0]);
      EventHolds(w, es[0], r);
      assert es[0] in es && forall e :: e in es[1..] ==> e in es;
      NoReplicaIsLost(Apply(w, es[0]), es[1..], w', r);
    }
  }

  /** Dereferencing a replica takes it off every connection, and no other replica. */
  lemma ForgetReachesAll(w: World, r: Replica, c: nat, q: Replica)
    requires WorldOk(w) && r in w.managed && c < |w.connections|
    ensures var v := Apply(w, Forget(r));
      && |v.connections| == |w.connections|
      && (q in v.users <==> q in w.users && q != r)
      && (q in Replicas(v.connections[c].constructed) <==> q in Replicas(w.connections[c].constructed) && q != r)
      && (q in Replicas(v.connections[c].pending) <==> q in Replicas(w.connections[c].pending) && q != r)
  {
    assert ConnectionOk(w.connections[c], w);
    DereferenceRemoves(w.connections[c], r, w.index, true);
    WithoutUserMembers(w.users, r);
    hide Dereference, ListsOk, WithoutUser;
  }

  /** Over every run a replica that the manager does not know is on no connection until it is referenced again. */
  lemma {:induction false} UnknownStaysAway(w: World, es: seq<Event>, w': World, r: Replica)
    requires WorldOk(w) && Run(w, es, w') && r !in w.users
    requires forall e :: e in es ==> !((e.Reference? || e.Register?) && e.r == r)
    ensures r !in w'.users && forall c: nat :: c < |w'.connections| ==> !Holds(w'.connections[c], r)
    decreases |es|
  {
    if es == [] {
      forall c: nat | c < |w'.connections| ensures !Holds(w'.connections[c], r) { assert ConnectionOk(w'.connections[c], w'); }
    } else {
      var e := es[0];
      assert e in es;
      EventKeeps(w, e);
      if e.Forget? { WithoutUserMembers(w.users, e.r); }
      assert r !in Apply(w, e).users;
      hide Apply, WorldOk;
      UnknownStaysAway(Apply(w, e), es[1..], w', r);
    }
  }
}
