/**
 What the handlers, the sweeps and the events do to each record, one by one: which lists it is on
 afterwards, and which replicas a tick reports.
 */
module ReplicaOutcome {
  import opened Sequences
  import opened ReplicaLists
  import opened ReplicaTick
  import opened ReplicaWorld

  // ---- single handlers ----

  lemma ConstructEffect(l: Lists, i: nat, index: Index)
    requires IndexOk(index) && ListsOk(l, index) && i < |l.pending|
    ensures var m, x := Construct(l, i, index), l.pending[i];
      && (forall y :: y in m.constructed <==> y in l.constructed || y == x)
      && (forall y :: y in m.pending <==> y in l.pending && y != x)
      && (forall y :: y in m.serialize <==> y in l.serialize || y == x)
      && (forall y :: y in m.destruct <==> y in l.destruct || y == x)
      && m.live == l.live
  {
    hide Position, Key, RemoveAt, Replicas;
    ReplicasOfMembers(l.pending);
    KeyIsIdentity(l.constructed, l.pending[i].replica, index);
    InsertMembers(l.constructed, l.pending[i], index);
    RemoveAtMembers(l.pending, i);
    var x, m := l.pending[i], Construct(l, i, index);
    assert x in l.pending;
    assert m.constructed == Insert(l.constructed, x, index);
  }

  lemma NeverConstructEffect(l: Lists, i: nat, index: Index)
    requires ListsOk(l, index) && i < |l.pending|
    ensures var m, x := NeverConstruct(l, i), l.pending[i];
      && m == l.(pending := m.pending, live := m.live)
      && (forall y :: y in m.pending <==> y in l.pending && y != x)
      && m.live == l.live - {x}
  {
    RemoveAtMembers(l.pending, i);
  }

  lemma SendDestructionEffect(l: Lists, i: nat, index: Index)
    requires ListsOk(l, index) && i < |l.destruct|
    ensures var m, x := SendDestruction(l, i), l.destruct[i];
      && (forall y :: y in m.constructed <==> y in l.constructed && y != x)
      && (forall y :: y in m.pending <==> y in l.pending || y == x)
      && (forall y :: y in m.serialize <==> y in l.serialize && y != x)
      && (forall y :: y in m.destruct <==> y in l.destruct && y != x)
      && m.live == l.live
  {
    var x := l.destruct[i];
    assert x in l.constructed;
    SortedIsDistinct(l.constructed, index);
    SameReplicaSameRecord(l.constructed, x);
    WithoutMembers(l.constructed, x.replica);
    WithoutMembers(l.serialize, x.replica);
    RemoveAtMembers(l.destruct, i);
    hide Without, RemoveAt;
  }

  /** Exactly the entry that was queried leaves the destruct list. */
  lemma DoNotQueryDestructionEffect(l: Lists, i: nat, index: Index)
    requires ListsOk(l, index) && i < |l.destruct|
    ensures var m, x := DoNotQueryDestruction(l, i), l.destruct[i];
      && m == l.(destruct := m.destruct)
      && (forall y :: y in m.destruct <==> y in l.destruct && y != x)
  {
    RemoveAtMembers(l.destruct, i);
  }

  /** Exactly this record leaves the serialize list, and the others keep their order. */
  lemma NeverSerializeEffect(l: Lists, x: Record, index: Index)
    requires ListsOk(l, index)
    ensures var m := NeverSerialize(l, x);
      && m == l.(serialize := m.serialize)
      && (forall y :: y in m.serialize <==> y in l.serialize && y != x)
      && (x !in l.serialize ==> m == l)
      && (forall k: nat :: k < |l.serialize| && l.serialize[k] == x ==>
           m.serialize == l.serialize[..k] + l.serialize[k + 1..])
  {
    var k := FindFirst(l.serialize, x);
    if k < |l.serialize| { RemoveAtMembers(l.serialize, k); }
  }

  /** A fresh object downloaded from this connection. */
  lemma DownloadEffect(l: Lists, x: Record, index: Index)
    requires IndexOk(index) && ListsOk(l, index) && x.replica !in Replicas(l.constructed)
    ensures var m := DownloadFromThisSystem(l, x, index);
      && (forall y :: y in m.constructed <==> y in l.constructed || y == x)
      && (forall y :: y in m.pending <==> y in l.pending && y.replica != x.replica)
      && m.serialize == l.serialize + [x] && m.destruct == l.destruct + [x]
      && m.live == l.live + {x}
  {
    hide Position, Key, Replicas;
    KeyIsIdentity(l.constructed, x.replica, index);
    InsertMembers(l.constructed, x, index);
    WithoutMembers(l.pending, x.replica);
    var m := DownloadFromThisSystem(l, x, index);
    assert m.constructed == Insert(l.constructed, x, index);
  }

  // ---- the construction sweep ----

  /** The record is pending from `i` on and its replica is given one of the answers `cs`. */
  ghost predicate Asked(l: Lists, i: nat, q: QueryConstruction, cs: set<ConstructionState>, y: Record)
    requires i <= |l.pending|
  {
    y in l.pending[i..] && q(y.replica) in cs
  }

  const CONSTRUCTED := {SEND_CONSTRUCTION, ALREADY_EXISTS_REMOTELY, ALREADY_EXISTS_REMOTELY_DO_NOT_CONSTRUCT}

  /** Where record `y` is in the lists `m`, after the pending records of `l` from `i` on have been queried. */
  ghost predicate AfterConstruct(l: Lists, i: nat, q: QueryConstruction, m: Lists, y: Record)
    requires i <= |l.pending|
  {
    && (y in m.constructed <==> y in l.constructed || Asked(l, i, q, CONSTRUCTED, y))
    && (y in m.serialize <==> y in l.serialize || Asked(l, i, q, CONSTRUCTED, y))
    && (y in m.destruct <==> y in l.destruct || Asked(l, i, q, CONSTRUCTED, y))
    && (y in m.live <==> y in l.live && !Asked(l, i, q, {NEVER_CONSTRUCT}, y))
    && (y in m.pending <==> y in l.pending[..i] || Asked(l, i, q, {NO_ACTION}, y))
  }

  lemma AskedFirst(l: Lists, i: nat, q: QueryConstruction, cs: set<ConstructionState>, m: Lists, j: nat, y: Record)
    requires i < |l.pending| && j <= |m.pending| && m.pending[j..] == l.pending[i + 1..]
    ensures Asked(l, i, q, cs, y) <==> (y == l.pending[i] && q(y.replica) in cs) || Asked(m, j, q, cs, y)
  {
    assert l.pending[i..] == [l.pending[i]] + l.pending[i + 1..];
  }

  lemma ConstructRoundEffect(l: Lists, index: Index, q: QueryConstruction, i: nat, y: Record)
    requires IndexOk(index) && ListsOk(l, index) && i < |l.pending|
    ensures var (m, j) := ConstructRound(l, index, q(l.pending[i].replica), i);
      var x := l.pending[i];
      && (y in m.constructed <==> y in l.constructed || (y == x && q(x.replica) in CONSTRUCTED))
      && (y in m.serialize <==> y in l.serialize || (y == x && q(x.replica) in CONSTRUCTED))
      && (y in m.destruct <==> y in l.destruct || (y == x && q(x.replica) in CONSTRUCTED))
      && (y in m.live <==> y in l.live && !(y == x && q(x.replica) in {NEVER_CONSTRUCT}))
      && (y in m.pending[..j] <==> y in l.pending[..i] || (y == x && q(x.replica) in {NO_ACTION}))
  {
    var c := q(l.pending[i].replica);
    ConstructRoundPending(l, index, c, i);
    if c in CONSTRUCTED {
      ConstructEffect(l, i, index);
    } else if c == NEVER_CONSTRUCT {
      NeverConstructEffect(l, i, index);
    }
    hide Construct, NeverConstruct;
  }

  /**
   Every queried record goes where its own answer sends it: to the three lists of constructed
   replicas, out of existence, or nowhere.
   */
  lemma {:induction false} ConstructSweepOutcome(l: Lists, index: Index, q: QueryConstruction, i: nat, y: Record)
    requires IndexOk(index) && ListsOk(l, index) && i <= |l.pending|
    ensures AfterConstruct(l, i, q, ConstructSweep(l, index, q, i).lists, y)
    decreases |l.pending| - i
  {
    if i < |l.pending| {
      var c := q(l.pending[i].replica);
      var (m, j) := ConstructRound(l, index, c, i);
      assert ConstructSweep(l, index, q, i).lists == ConstructSweep(m, index, q, j).lists;
      hide Construct, NeverConstruct, ConstructRound, ConstructSweep, ListsOk, Asked;
      ConstructRoundKeeps(l, index, c, i);
      ConstructRoundEffect(l, index, q, i, y);
      ConstructSweepOutcome(m, index, q, j, y);
      AskedFirst(l, i, q, CONSTRUCTED, m, j, y);
      AskedFirst(l, i, q, {NEVER_CONSTRUCT}, m, j, y);
      AskedFirst(l, i, q, {NO_ACTION}, m, j, y);
    } else {
      assert l.pending[..i] == l.pending;
    }
  }

  /** The report names exactly the replicas that are sent or announced as existing. */
  lemma {:induction false} AnnouncedExactly(s: seq<Record>, q: QueryConstruction, r: Replica)
    ensures r in Announced(s, q) <==>
      (exists y :: y in s && y.replica == r) && (q(r) == SEND_CONSTRUCTION || q(r) == ALREADY_EXISTS_REMOTELY)
  {
    if s != [] {
      AnnouncedExactly(s[1..], q, r);
      assert forall y :: y in s <==> y == s[0] || y in s[1..];
    }
  }

  lemma {:induction false} DestroyedExactly(s: seq<Record>, q: QueryDestruction, r: Replica)
    ensures r in DestroyedInOrder(s, q) <==> (exists y :: y in s && y.replica == r) && q(r) == SEND_DESTRUCTION
  {
    if s != [] {
      DestroyedExactly(s[1..], q, r);
      assert forall y :: y in s <==> y == s[0] || y in s[1..];
    }
  }

  // ---- the destruction sweep ----

  ghost predicate Queried(l: Lists, i: nat, q: QueryDestruction, ds: set<DestructionState>, y: Record)
    requires i <= |l.destruct|
  {
    y in l.destruct[i..] && q(y.replica) in ds
  }

  /** Where record `y` is in the lists `m`, after the destruct entries of `l` from `i` on have been queried. */
  ghost predicate AfterDestruct(l: Lists, i: nat, q: QueryDestruction, m: Lists, y: Record)
    requires i <= |l.destruct|
  {
    && (y in m.constructed <==> y in l.constructed && !Queried(l, i, q, {SEND_DESTRUCTION}, y))
    && (y in m.serialize <==> y in l.serialize && !Queried(l, i, q, {SEND_DESTRUCTION}, y))
    && (y in m.pending <==> y in l.pending || Queried(l, i, q, {SEND_DESTRUCTION}, y))
    && (y in m.destruct <==> y in l.destruct[..i] || Queried(l, i, q, {KEEP}, y))
    && m.live == l.live
  }

  lemma QueriedFirst(l: Lists, i: nat, q: QueryDestruction, ds: set<DestructionState>, m: Lists, j: nat, y: Record)
    requires i < |l.destruct| && j <= |m.destruct| && m.destruct[j..] == l.destruct[i + 1..]
    ensures Queried(l, i, q, ds, y) <==> (y == l.destruct[i] && q(y.replica) in ds) || Queried(m, j, q, ds, y)
  {
    assert l.destruct[i..] == [l.destruct[i]] + l.destruct[i + 1..];
  }

  lemma DestructRoundEffect(l: Lists, index: Index, q: QueryDestruction, i: nat, y: Record)
    requires IndexOk(index) && ListsOk(l, index) && i < |l.destruct|
    ensures var (m, j) := DestructRound(l, q(l.destruct[i].replica), i);
      var x := l.destruct[i];
      && (y in m.constructed <==> y in l.constructed && !(y == x && q(x.replica) in {SEND_DESTRUCTION}))
      && (y in m.serialize <==> y in l.serialize && !(y == x && q(x.replica) in {SEND_DESTRUCTION}))
      && (y in m.pending <==> y in l.pending || (y == x && q(x.replica) in {SEND_DESTRUCTION}))
      && (y in m.destruct[..j] <==> y in l.destruct[..i] || (y == x && q(x.replica) in {KEEP}))
      && m.live == l.live
  {
    var d := q(l.destruct[i].replica);
    DestructRoundList(l, d, i);
    match d
    case SEND_DESTRUCTION => SendDestructionEffect(l, i, index); hide SendDestruction;
    case DO_NOT_QUERY_DESTRUCTION => DoNotQueryDestructionEffect(l, i, index); hide DoNotQueryDestruction;
    case KEEP =>
  }

  /** Every entry goes where its own answer sends it: to the pending list, off this list, or nowhere. */
  lemma {:induction false} DestructSweepOutcome(l: Lists, index: Index, q: QueryDestruction, i: nat, y: Record)
    requires IndexOk(index) && ListsOk(l, index) && i <= |l.destruct|
    ensures AfterDestruct(l, i, q, DestructSweep(l, q, i).lists, y)
    decreases |l.destruct| - i
  {
    if i < |l.destruct| {
      var d := q(l.destruct[i].replica);
      var (m, j) := DestructRound(l, d, i);
      assert DestructSweep(l, q, i).lists == DestructSweep(m, q, j).lists;
      hide SendDestruction, DoNotQueryDestruction, DestructRound, DestructSweep, ListsOk, Queried;
      DestructRoundKeeps(l, index, d, i);
      DestructRoundList(l, d, i);
      DestructRoundEffect(l, index, q, i, y);
      DestructSweepOutcome(m, index, q, j, y);
      QueriedFirst(l, i, q, {SEND_DESTRUCTION}, m, j, y);
      QueriedFirst(l, i, q, {KEEP}, m, j, y);
    } else {
      assert l.destruct[..i] == l.destruct;
    }
  }

  // ---- the whole tick ----

  /** In the mode without destruction queries the second sweep does not happen. */
  ghost predicate Destroys(l: Lists, mode: Mode, qc: QueryConstruction, qd: QueryDestruction, ds: set<DestructionState>, y: Record) {
    && mode == QUERY_FOR_CONSTRUCTION_AND_DESTRUCTION
    && (y in l.destruct || (y in l.pending && qc(y.replica) in CONSTRUCTED)) && qd(y.replica) in ds
  }

  /**
   One tick, record by record and in both modes. A record is constructed afterwards exactly if it
   was or its replica is sent or exists, and the tick does not destroy it at once; it is pending
   if it waits or is destroyed; it stays on the destruct list unless it is destroyed or asks not
   to be queried; and the message creates and destroys exactly the replicas it must.
   */
  lemma TickOutcome(l: Lists, index: Index, mode: Mode, qc: QueryConstruction, qd: QueryDestruction, y: Record)
    requires IndexOk(index) && ListsOk(l, index)
    ensures var t := Tick(l, index, mode, qc, qd);
      var m := t.lists;
      && (y in m.constructed <==>
          ((y in l.constructed || (y in l.pending && qc(y.replica) in CONSTRUCTED))
           && !Destroys(l, mode, qc, qd, {SEND_DESTRUCTION}, y)))
      && (y in m.serialize <==>
          ((y in l.serialize || (y in l.pending && qc(y.replica) in CONSTRUCTED))
           && !Destroys(l, mode, qc, qd, {SEND_DESTRUCTION}, y)))
      && (y in m.pending <==>
          ((y in l.pending && qc(y.replica) == NO_ACTION) || Destroys(l, mode, qc, qd, {SEND_DESTRUCTION}, y)))
      && (y in m.destruct <==>
          ((y in l.destruct || (y in l.pending && qc(y.replica) in CONSTRUCTED))
           && !Destroys(l, mode, qc, qd, {SEND_DESTRUCTION, DO_NOT_QUERY_DESTRUCTION}, y)))
      && (y in m.live <==> y in l.live && !(y in l.pending && qc(y.replica) == NEVER_CONSTRUCT))
  {
    var s, t := ConstructSweep(l, index, qc, 0).lists, Tick(l, index, mode, qc, qd);
    assert t.lists == if mode == QUERY_FOR_CONSTRUCTION then s else DestructSweep(s, qd, 0).lists;
    hide ConstructSweep, DestructSweep, Tick, ListsOk;
    assert l.pending[0..] == l.pending && l.pending[..0] == [] && s.destruct[..0] == [];
    ConstructSweepKeeps(l, index, qc, 0);
    ConstructSweepOutcome(l, index, qc, 0, y);
    if mode == QUERY_FOR_CONSTRUCTION_AND_DESTRUCTION {
      assert s.destruct[0..] == s.destruct;
      DestructSweepOutcome(s, index, qd, 0, y);
      assert y in s.destruct <==> y in l.destruct || (y in l.pending && qc(y.replica) in CONSTRUCTED);
      assert Queried(s, 0, qd, {SEND_DESTRUCTION}, y) <==> Destroys(l, mode, qc, qd, {SEND_DESTRUCTION}, y);
      assert y in t.lists.constructed <==> y in s.constructed && !Queried(s, 0, qd, {SEND_DESTRUCTION}, y);
      assert y in t.lists.destruct <==> Queried(s, 0, qd, {KEEP}, y);
      assert qd(y.replica) in {SEND_DESTRUCTION, DO_NOT_QUERY_DESTRUCTION} <==> qd(y.replica) != KEEP;
      assert t.lists.live == s.live;
    }
  }

  lemma TickReports(l: Lists, index: Index, mode: Mode, qc: QueryConstruction, qd: QueryDestruction, r: Replica)
    requires IndexOk(index) && ListsOk(l, index)
    ensures var t := Tick(l, index, mode, qc, qd);
      && (r in t.created <==>
          ((exists y :: y in l.pending && y.replica == r)
           && (qc(r) == SEND_CONSTRUCTION || qc(r) == ALREADY_EXISTS_REMOTELY)))
      && (r in t.destroyed <==> (exists y: Record :: Destroys(l, mode, qc, qd, {SEND_DESTRUCTION}, y) && y.replica == r))
  {
    var s, t := ConstructSweep(l, index, qc, 0).lists, Tick(l, index, mode, qc, qd);
    assert t.created == ConstructSweep(l, index, qc, 0).culled;
    assert t.destroyed == if mode == QUERY_FOR_CONSTRUCTION then [] else DestructSweep(s, qd, 0).culled;
    hide ConstructSweep, DestructSweep, Tick, ListsOk, Announced, DestroyedInOrder;
    assert l.pending[0..] == l.pending;
    ConstructSweepReports(l, index, qc, 0);
    AnnouncedExactly(l.pending, qc, r);
    if mode == QUERY_FOR_CONSTRUCTION_AND_DESTRUCTION {
      assert s.destruct[0..] == s.destruct;
      DestructSweepReports(s, qd, 0);
      DestroyedExactly(s.destruct, qd, r);
      forall y: Record
        ensures y in s.destruct <==> y in l.destruct || (y in l.pending && qc(y.replica) in CONSTRUCTED)
      {
        ConstructSweepOutcome(l, index, qc, 0, y);
      }
    }
  }
}
