/**
 One `AutoConstructByQuery` tick: two sweeps that remove entries from the very list they walk.
 The callbacks are arbitrary functions that answer the same within one tick.
 */
module ReplicaTick {
  import opened Sequences
  import opened ReplicaLists

  datatype ConstructionState =
    | SEND_CONSTRUCTION
    | ALREADY_EXISTS_REMOTELY
    | ALREADY_EXISTS_REMOTELY_DO_NOT_CONSTRUCT
    | NEVER_CONSTRUCT
    | NO_ACTION

  datatype DestructionState = SEND_DESTRUCTION | DO_NOT_QUERY_DESTRUCTION | KEEP

  datatype Mode = QUERY_FOR_CONSTRUCTION | QUERY_FOR_CONSTRUCTION_AND_DESTRUCTION

  type QueryConstruction = Replica -> ConstructionState
  type QueryDestruction = Replica -> DestructionState

  predicate Exists(c: ConstructionState) {
    c == ALREADY_EXISTS_REMOTELY || c == ALREADY_EXISTS_REMOTELY_DO_NOT_CONSTRUCT
  }

  /** The answers that move a replica to the constructed list. */
  predicate Constructs(c: ConstructionState) {
    Exists(c) || c == SEND_CONSTRUCTION
  }

  /** The answers that put a record about the replica into the construction message. */
  predicate Announces(c: ConstructionState) {
    c == SEND_CONSTRUCTION || c == ALREADY_EXISTS_REMOTELY
  }

  /** Result of a sweep: the lists, the replicas it reports, and the records it queried. */
  datatype Swept = Swept(lists: Lists, culled: seq<Replica>, asked: seq<Record>)

  /** One round of the construction loop: the lists and the index afterwards. */
  ghost function ConstructRound(l: Lists, index: Index, c: ConstructionState, i: nat): (r: (Lists, nat))
    requires i < |l.pending|
    ensures r.1 <= |r.0.pending| && |r.0.pending| - r.1 == |l.pending| - i - 1
  {
    if Constructs(c) then (Construct(l, i, index), i)
    else if c == NEVER_CONSTRUCT then (NeverConstruct(l, i), i)
    else (l, i + 1)
  }

  ghost function ConstructSweep(l: Lists, index: Index, q: QueryConstruction, i: nat): Swept
    decreases |l.pending| - i
  {
    if i >= |l.pending| then Swept(l, [], [])
    else
      var x := l.pending[i];
      var (m, j) := ConstructRound(l, index, q(x.replica), i);
      var rest := ConstructSweep(m, index, q, j);
      Swept(rest.lists, (if Announces(q(x.replica)) then [x.replica] else []) + rest.culled, [x] + rest.asked)
  }

  /** One round of the destruction loop. */
  ghost function DestructRound(l: Lists, d: DestructionState, i: nat): (r: (Lists, nat))
    requires i < |l.destruct|
    ensures r.1 <= |r.0.destruct| && |r.0.destruct| - r.1 == |l.destruct| - i - 1
  {
    match d
    case SEND_DESTRUCTION => (SendDestruction(l, i), i)
    case DO_NOT_QUERY_DESTRUCTION => (DoNotQueryDestruction(l, i), i)
    case KEEP => (l, i + 1)
  }

  ghost function DestructSweep(l: Lists, q: QueryDestruction, i: nat): Swept
    decreases |l.destruct| - i
  {
    if i >= |l.destruct| then Swept(l, [], [])
    else
      var x := l.destruct[i];
      var (m, j) := DestructRound(l, q(x.replica), i);
      var rest := DestructSweep(m, q, j);
      Swept(rest.lists, (if q(x.replica) == SEND_DESTRUCTION then [x.replica] else []) + rest.culled,
            [x] + rest.asked)
  }

  /** What a loop that has reported `told` so far owes to the rest of the sweep. */
  lemma {:induction false} ConstructSweepStep(l: Lists, index: Index, q: QueryConstruction, i: nat, told: seq<Replica>)
    requires i < |l.pending|
    ensures var x := l.pending[i];
      var (m, j) := ConstructRound(l, index, q(x.replica), i);
      && ConstructSweep(l, index, q, i).lists == ConstructSweep(m, index, q, j).lists
      && told + ConstructSweep(l, index, q, i).culled ==
         (if Announces(q(x.replica)) then told + [x.replica] else told) + ConstructSweep(m, index, q, j).culled
  {
    hide Construct, NeverConstruct, Constructs;
    var x := l.pending[i];
    var (m, j) := ConstructRound(l, index, q(x.replica), i);
    var rest := ConstructSweep(m, index, q, j).culled;
    var news := if Announces(q(x.replica)) then [x.replica] else [];
    assert ConstructSweep(l, index, q, i).culled == news + rest;
    assert told + (news + rest) == (told + news) + rest;
  }

  lemma {:induction false} DestructSweepStep(l: Lists, q: QueryDestruction, i: nat, told: seq<Replica>)
    requires i < |l.destruct|
    ensures var x := l.destruct[i];
      var (m, j) := DestructRound(l, q(x.replica), i);
      && DestructSweep(l, q, i).lists == DestructSweep(m, q, j).lists
      && told + DestructSweep(l, q, i).culled ==
         (if q(x.replica) == SEND_DESTRUCTION then told + [x.replica] else told) + DestructSweep(m, q, j).culled
  {
    hide SendDestruction, DoNotQueryDestruction;
    var x := l.destruct[i];
    var (m, j) := DestructRound(l, q(x.replica), i);
    var rest := DestructSweep(m, q, j).culled;
    var news := if q(x.replica) == SEND_DESTRUCTION then [x.replica] else [];
    assert DestructSweep(l, q, i).culled == news + rest;
    assert told + (news + rest) == (told + news) + rest;
  }

  /** The records of `s` that a construction sweep leaves waiting. */
  ghost function Waiting(s: seq<Record>, q: QueryConstruction): seq<Record> {
    if s == [] then []
    else (if q(s[0].replica) == NO_ACTION then [s[0]] else []) + Waiting(s[1..], q)
  }

  /** The records of `s` that a destruction sweep leaves on the list. */
  ghost function Staying(s: seq<Record>, q: QueryDestruction): seq<Record> {
    if s == [] then []
    else (if q(s[0].replica) == KEEP then [s[0]] else []) + Staying(s[1..], q)
  }

  ghost function Constructed(s: seq<Record>, q: QueryConstruction): set<Replica> {
    set x | x in s && Constructs(q(x.replica)) :: x.replica
  }

  ghost function Destroyed(s: seq<Record>, q: QueryDestruction): set<Replica> {
    set x | x in s && q(x.replica) == SEND_DESTRUCTION :: x.replica
  }

  /** The replicas of `s` answered with `c`, in order. */
  ghost function Announced(s: seq<Record>, q: QueryConstruction): seq<Replica> {
    if s == [] then []
    else (if Announces(q(s[0].replica)) then [s[0].replica] else []) + Announced(s[1..], q)
  }

  ghost function DestroyedInOrder(s: seq<Record>, q: QueryDestruction): seq<Replica> {
    if s == [] then []
    else (if q(s[0].replica) == SEND_DESTRUCTION then [s[0].replica] else []) + DestroyedInOrder(s[1..], q)
  }

  lemma ConstructedFirst(s: seq<Record>, q: QueryConstruction)
    requires s != []
    ensures Constructed(s, q) ==
      (if Constructs(q(s[0].replica)) then {s[0].replica} else {}) + Constructed(s[1..], q)
  {
    assert forall x :: x in s <==> x == s[0] || x in s[1..];
  }

  lemma DestroyedFirst(s: seq<Record>, q: QueryDestruction)
    requires s != []
    ensures Destroyed(s, q) ==
      (if q(s[0].replica) == SEND_DESTRUCTION then {s[0].replica} else {}) + Destroyed(s[1..], q)
  {
    assert forall x :: x in s <==> x == s[0] || x in s[1..];
  }

  lemma ConstructRoundKeeps(l: Lists, index: Index, c: ConstructionState, i: nat)
    requires IndexOk(index) && ListsOk(l, index) && i < |l.pending|
    ensures var (m, j) := ConstructRound(l, index, c, i);
      && ListsOk(m, index)
      && (Owned(l) ==> Owned(m))
      && m.pending[j..] == l.pending[i + 1..]
      && m.pending[..j] == l.pending[..i] + (if Constructs(c) || c == NEVER_CONSTRUCT then [] else [l.pending[i]])
      && Replicas(m.constructed) == Replicas(l.constructed) + if Constructs(c) then {l.pending[i].replica} else {}
  {
    if Constructs(c) {
      ConstructKeeps(l, i, index);
    } else if c == NEVER_CONSTRUCT {
      NeverConstructKeeps(l, i, index);
    }
  }

  /** The construction sweep keeps the invariant and queries every pending record once, in order. */
  lemma {:induction false} ConstructSweepKeeps(l: Lists, index: Index, q: QueryConstruction, i: nat)
    requires IndexOk(index) && ListsOk(l, index) && i <= |l.pending|
    ensures ListsOk(ConstructSweep(l, index, q, i).lists, index)
    ensures Owned(l) ==> Owned(ConstructSweep(l, index, q, i).lists)
    ensures ConstructSweep(l, index, q, i).asked == l.pending[i..]
    decreases |l.pending| - i
  {
    hide Construct, NeverConstruct, ListsOk, Owned;
    if i < |l.pending| {
      var (m, j) := ConstructRound(l, index, q(l.pending[i].replica), i);
      ConstructRoundKeeps(l, index, q(l.pending[i].replica), i);
      ConstructSweepKeeps(m, index, q, j);
    }
  }

  lemma ConstructRoundPending(l: Lists, index: Index, c: ConstructionState, i: nat)
    requires i < |l.pending|
    ensures var (m, j) := ConstructRound(l, index, c, i);
      && m.pending[j..] == l.pending[i + 1..]
      && m.pending[..j] == l.pending[..i] + (if c == NO_ACTION then [l.pending[i]] else [])
  {}

  /** It leaves pending exactly the records answered NO_ACTION. */
  lemma {:induction false} ConstructSweepLeaves(l: Lists, index: Index, q: QueryConstruction, i: nat)
    requires i <= |l.pending|
    ensures ConstructSweep(l, index, q, i).lists.pending == l.pending[..i] + Waiting(l.pending[i..], q)
    decreases |l.pending| - i
  {
    hide Construct, NeverConstruct;
    if i < |l.pending| {
      var c := q(l.pending[i].replica);
      var (m, j) := ConstructRound(l, index, c, i);
      ConstructRoundPending(l, index, c, i);
      ConstructSweepLeaves(m, index, q, j);
      var kept := if c == NO_ACTION then [l.pending[i]] else [];
      var after := Waiting(l.pending[i + 1..], q);
      assert l.pending[i..][1..] == l.pending[i + 1..];
      assert Waiting(l.pending[i..], q) == kept + after;
      assert (l.pending[..i] + kept) + after == l.pending[..i] + (kept + after);
    } else {
      assert l.pending[i..] == [];
      assert l.pending[..i] + [] == l.pending;
    }
  }

  /** It reports exactly the replicas the message must mention, in order. */
  lemma {:induction false} ConstructSweepReports(l: Lists, index: Index, q: QueryConstruction, i: nat)
    requires i <= |l.pending|
    ensures ConstructSweep(l, index, q, i).culled == Announced(l.pending[i..], q)
    decreases |l.pending| - i
  {
    hide Construct, NeverConstruct;
    if i < |l.pending| {
      var c := q(l.pending[i].replica);
      var (m, j) := ConstructRound(l, index, c, i);
      ConstructRoundPending(l, index, c, i);
      ConstructSweepReports(m, index, q, j);
      assert l.pending[i..][1..] == l.pending[i + 1..];
    }
  }

  /** It moves to the constructed list exactly the replicas that exist already or are sent. */
  lemma {:induction false} ConstructSweepMoves(l: Lists, index: Index, q: QueryConstruction, i: nat)
    requires IndexOk(index) && ListsOk(l, index) && i <= |l.pending|
    ensures Replicas(ConstructSweep(l, index, q, i).lists.constructed) ==
      Replicas(l.constructed) + Constructed(l.pending[i..], q)
    decreases |l.pending| - i
  {
    hide Construct, NeverConstruct;
    if i < |l.pending| {
      var x := l.pending[i];
      var (m, j) := ConstructRound(l, index, q(x.replica), i);
      ConstructRoundKeeps(l, index, q(x.replica), i);
      ConstructSweepMoves(m, index, q, j);
      ConstructedFirst(l.pending[i..], q);
      assert l.pending[i..][1..] == l.pending[i + 1..];
    }
  }

  lemma DestructRoundKeeps(l: Lists, index: Index, d: DestructionState, i: nat)
    requires IndexOk(index) && ListsOk(l, index) && i < |l.destruct|
    ensures var (m, j) := DestructRound(l, d, i);
      && ListsOk(m, index)
      && (Owned(l) ==> Owned(m))
      && Replicas(m.constructed) ==
         Replicas(l.constructed) - (if d == SEND_DESTRUCTION then {l.destruct[i].replica} else {})
  {
    match d
    case SEND_DESTRUCTION => SendDestructionKeeps(l, i, index);
    case DO_NOT_QUERY_DESTRUCTION => DoNotQueryDestructionKeeps(l, i, index);
    case KEEP =>
  }

  /** Exactly the entry that was queried leaves the list, unless it is kept. */
  lemma DestructRoundList(l: Lists, d: DestructionState, i: nat)
    requires i < |l.destruct|
    ensures var (m, j) := DestructRound(l, d, i);
      && m.destruct[j..] == l.destruct[i + 1..]
      && m.destruct[..j] == l.destruct[..i] + (if d == KEEP then [l.destruct[i]] else [])
  {}

  /** The destruction sweep keeps the invariant, whatever the answers. */
  lemma {:induction false} DestructSweepKeeps(l: Lists, index: Index, q: QueryDestruction, i: nat)
    requires IndexOk(index) && ListsOk(l, index) && i <= |l.destruct|
    ensures ListsOk(DestructSweep(l, q, i).lists, index)
    ensures Owned(l) ==> Owned(DestructSweep(l, q, i).lists)
    decreases |l.destruct| - i
  {
    hide SendDestruction, DoNotQueryDestruction;
    if i < |l.destruct| {
      var d := q(l.destruct[i].replica);
      var (m, j) := DestructRound(l, d, i);
      DestructRoundKeeps(l, index, d, i);
      DestructSweepKeeps(m, index, q, j);
    }
  }

  /** It queries every listed record once, in order, and reports exactly those to be destroyed. */
  lemma {:induction false} DestructSweepReports(l: Lists, q: QueryDestruction, i: nat)
    requires i <= |l.destruct|
    ensures DestructSweep(l, q, i).asked == l.destruct[i..]
    ensures DestructSweep(l, q, i).culled == DestroyedInOrder(l.destruct[i..], q)
    decreases |l.destruct| - i
  {
    hide SendDestruction, DoNotQueryDestruction;
    if i < |l.destruct| {
      var d := q(l.destruct[i].replica);
      var (m, j) := DestructRound(l, d, i);
      DestructRoundList(l, d, i);
      DestructSweepReports(m, q, j);
      assert l.destruct[i..][1..] == l.destruct[i + 1..];
    }
  }

  /** It leaves on the destruct list exactly the entries answered KEEP, in order. */
  lemma {:induction false} DestructSweepLeaves(l: Lists, q: QueryDestruction, i: nat)
    requires i <= |l.destruct|
    ensures DestructSweep(l, q, i).lists.destruct == l.destruct[..i] + Staying(l.destruct[i..], q)
    decreases |l.destruct| - i
  {
    hide SendDestruction, DoNotQueryDestruction;
    if i < |l.destruct| {
      var d := q(l.destruct[i].replica);
      var (m, j) := DestructRound(l, d, i);
      DestructRoundList(l, d, i);
      DestructSweepLeaves(m, q, j);
      var kept := if d == KEEP then [l.destruct[i]] else [];
      var after := Staying(l.destruct[i + 1..], q);
      assert l.destruct[i..][1..] == l.destruct[i + 1..];
      assert Staying(l.destruct[i..], q) == kept + after;
      assert (l.destruct[..i] + kept) + after == l.destruct[..i] + (kept + after);
    } else {
      assert l.destruct[i..] == [];
      assert l.destruct[..i] + [] == l.destruct;
    }
  }

  /** It takes exactly the destroyed replicas off the constructed list. */
  lemma {:induction false} DestructSweepMoves(l: Lists, index: Index, q: QueryDestruction, i: nat)
    requires IndexOk(index) && ListsOk(l, index) && i <= |l.destruct|
    ensures Replicas(DestructSweep(l, q, i).lists.constructed) ==
      Replicas(l.constructed) - Destroyed(l.destruct[i..], q)
    decreases |l.destruct| - i
  {
    hide SendDestruction, DoNotQueryDestruction;
    if i < |l.destruct| {
      var d := q(l.destruct[i].replica);
      var (m, j) := DestructRound(l, d, i);
      DestructRoundKeeps(l, index, d, i);
      DestructRoundList(l, d, i);
      DestructSweepMoves(m, index, q, j);
      DestroyedFirst(l.destruct[i..], q);
      assert l.destruct[i..][1..] == l.destruct[i + 1..];
    }
  }

  // ---- the whole tick ----

  /** `constructedReplicasCulled`, `destroyedReplicasCulled` and the lists after the tick. */
  datatype Ticked = Ticked(lists: Lists, created: seq<Replica>, destroyed: seq<Replica>)

  ghost function Tick(l: Lists, index: Index, mode: Mode, qc: QueryConstruction, qd: QueryDestruction): Ticked {
    var c := ConstructSweep(l, index, qc, 0);
    if mode == QUERY_FOR_CONSTRUCTION then Ticked(c.lists, c.culled, [])
    else
      var d := DestructSweep(c.lists, qd, 0);
      Ticked(d.lists, c.culled, d.culled)
  }

  lemma TickKeeps(l: Lists, index: Index, mode: Mode, qc: QueryConstruction, qd: QueryDestruction)
    requires IndexOk(index) && ListsOk(l, index)
    ensures ListsOk(Tick(l, index, mode, qc, qd).lists, index)
    ensures Owned(l) ==> Owned(Tick(l, index, mode, qc, qd).lists)
  {
    ConstructSweepKeeps(l, index, qc, 0);
    DestructSweepKeeps(ConstructSweep(l, index, qc, 0).lists, index, qd, 0);
  }

  /** A tick only moves replicas between the two owning lists or drops them. */
  lemma TickHoldsNoMore(l: Lists, index: Index, mode: Mode, qc: QueryConstruction, qd: QueryDestruction)
    requires IndexOk(index) && ListsOk(l, index)
    ensures var m := Tick(l, index, mode, qc, qd).lists;
      Replicas(m.constructed) + Replicas(m.pending) <= Replicas(l.constructed) + Replicas(l.pending)
  {
    var c := ConstructSweep(l, index, qc, 0).lists;
    ConstructSweepKeeps(l, index, qc, 0);
    ConstructHoldsNoMore(l, index, qc, 0);
    DestructHoldsNoMore(c, index, qd, 0);
  }

  lemma {:induction false} ConstructHoldsNoMore(l: Lists, index: Index, q: QueryConstruction, i: nat)
    requires IndexOk(index) && ListsOk(l, index) && i <= |l.pending|
    ensures var m := ConstructSweep(l, index, q, i).lists;
      Replicas(m.constructed) + Replicas(m.pending) <= Replicas(l.constructed) + Replicas(l.pending)
    decreases |l.pending| - i
  {
    hide Construct, NeverConstruct;
    if i < |l.pending| {
      var c := q(l.pending[i].replica);
      var (m, j) := ConstructRound(l, index, c, i);
      ConstructRoundKeeps(l, index, c, i);
      if Constructs(c) { ConstructKeeps(l, i, index); }
      else if c == NEVER_CONSTRUCT { NeverConstructKeeps(l, i, index); }
      ReplicasOfMembers(l.pending);
      ConstructHoldsNoMore(m, index, q, j);
    }
  }

  lemma {:induction false} DestructHoldsNoMore(l: Lists, index: Index, q: QueryDestruction, i: nat)
    requires IndexOk(index) && ListsOk(l, index) && i <= |l.destruct|
    ensures var m := DestructSweep(l, q, i).lists;
      Replicas(m.constructed) + Replicas(m.pending) <= Replicas(l.constructed) + Replicas(l.pending)
    decreases |l.destruct| - i
  {
    hide SendDestruction;
    if i < |l.destruct| {
      var d := q(l.destruct[i].replica);
      var (m, j) := DestructRound(l, d, i);
      DestructRoundKeeps(l, index, d, i);
      assert l.destruct[i] in l.constructed;
      ReplicasOfMembers(l.constructed);
      if d == SEND_DESTRUCTION { SendDestructionKeeps(l, i, index); }
      DestructHoldsNoMore(m, index, q, j);
    }
  }
}
