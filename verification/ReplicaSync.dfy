/**
 Two endpoints: a sender that ticks and destroys, a channel that keeps order, and a receiver that
 accepts what it is told. Folding the messages in flight over the receiver's objects always
 gives the sender's constructed replicas.
 */
module ReplicaSync {
  import opened Sequences
  import opened ReplicaLists
  import opened ReplicaTick
  import opened ConstructionWire

  /** One ID_REPLICA_MANAGER_CONSTRUCTION message; a replica is known by its NetworkID. */
  datatype Message = Message(items: seq<Item>, destroys: seq<Replica>)

  /** What the user's serialization callbacks write for a replica. */
  datatype Payload = Payload(guid: nat, alloc: Bits, body: Bits, post: Bits)

  /** The records `SendConstruction` writes: it queries each announced replica again. */
  ghost function Items(created: seq<Replica>, qc: QueryConstruction, write: Replica -> Payload): seq<Item> {
    if created == [] then []
    else
      var r := created[0];
      var p := write(r);
      [Item(r.address, qc(r) == SEND_CONSTRUCTION, p.guid, p.alloc, p.body, p.post)]
        + Items(created[1..], qc, write)
  }

  /** Record by record: whose it is, whether it is still to be created there, and what the user wrote for it. */
  lemma {:induction false} ItemsSay(created: seq<Replica>, qc: QueryConstruction, write: Replica -> Payload, k: nat)
    requires k < |created|
    ensures |Items(created, qc, write)| == |created|
    ensures var x, p := Items(created, qc, write)[k], write(created[k]);
      && x.id == created[k].address && (x.create <==> qc(created[k]) == SEND_CONSTRUCTION)
      && x.guid == p.guid && x.alloc == p.alloc && x.body == p.body && x.post == p.post
  {
    if |created| > 1 { ItemsSay(created[1..], qc, write, if k > 0 then k - 1 else 0); }
  }

  /** The receiver can decode every record of the message. */
  ghost predicate Readable(m: Message) {
    && |m.items| < 0x1_0000 && |m.destroys| < 0x1_0000
    && CountAt(m.items) < 0x1_0000_0000
    && (forall x :: x in m.items ==> Encodable(x))
    && (m.destroys == [] || TrailingEmpty(m.items) % 8 == 0)
  }

  /** `OnConstruction` on the receiver's objects: an existing object is not created again. */
  ghost function Create(objects: set<Replica>, items: seq<Item>): set<Replica>
    decreases |items|
  {
    if items == [] then objects
    else Create(if items[0].create then objects + {Replica(items[0].id)} else objects, items[1..])
  }

  /** An unknown object is skipped. */
  ghost function Destroy(objects: set<Replica>, destroys: seq<Replica>): set<Replica> {
    if destroys == [] then objects else Destroy(objects - {destroys[0]}, destroys[1..])
  }

  ghost function Receive(objects: set<Replica>, m: Message): set<Replica> {
    Destroy(Create(objects, m.items), m.destroys)
  }

  ghost function Fold(objects: set<Replica>, channel: seq<Message>): set<Replica>
    decreases |channel|
  {
    if channel == [] then objects else Fold(Receive(objects, channel[0]), channel[1..])
  }

  /** The objects created by the records that the receiver visited and accepted. */
  function CreateVisited(objects: set<Replica>, visits: seq<Visit>): set<Replica>
    decreases |visits|
  {
    if visits == [] then objects
    else CreateVisited(if visits[0].create && visits[0].kept then objects + {Replica(visits[0].id)} else objects, visits[1..])
  }

  /** Record `k` creates replica `r`: it says so, the object is not there yet, and the user's callbacks all agree. */
  ghost predicate Creates(items: seq<Item>, react: nat -> Reaction, first: nat, k: nat, r: Replica) {
    && k < |items| && items[k].create && r == Replica(items[k].id)
    && var a := react(first + k); !a.exists_ && a.allocates && a.queried && a.accepted
  }

  lemma CreatesShift(items: seq<Item>, react: nat -> Reaction, first: nat, k: nat, r: Replica)
    requires items != []
    ensures Creates(items[1..], react, first + 1, k, r) <==> Creates(items, react, first, k + 1, r)
  {}

  /** Exactly the objects of those records are there afterwards, besides the ones that were. */
  lemma {:induction false} VisitsCreate(objects: set<Replica>, o: nat, items: seq<Item>, react: nat -> Reaction,
                                        first: nat, r: Replica)
    ensures r in CreateVisited(objects, ExpectedVisits(o, items, react, first)) <==>
      r in objects || exists k: nat :: Creates(items, react, first, k, r)
    decreases |items|
  {
    if items != [] {
      var a, rest, next := react(first), items[1..], first + 1;
      var now := if items[0].create && Kept(items[0].create, a) then objects + {Replica(items[0].id)} else objects;
      VisitsCreate(now, End(o, items[0]), rest, react, next, r);
      assert ExpectedVisits(o, items, react, first)[1..] == ExpectedVisits(End(o, items[0]), rest, react, next);
      assert r in now <==> r in objects || Creates(items, react, first, 0, r);
      hide Creates;
      if k: nat :| Creates(items, react, first, k, r) {
        if k > 0 { CreatesShift(items, react, first, k - 1, r); }
      }
      if k: nat :| Creates(rest, react, next, k, r) { CreatesShift(items, react, first, k, r); }
    }
  }

  /** The receiver agrees to everything it does not have yet. */
  ghost predicate Accepts(objects: set<Replica>, items: seq<Item>, react: nat -> Reaction) {
    forall k: nat :: k < |items| && items[k].create ==>
      Replica(items[k].id) in objects || Creates(items, react, 0, k, Replica(items[k].id))
  }

  lemma {:induction false} CreateMembers(objects: set<Replica>, items: seq<Item>, r: Replica)
    ensures r in Create(objects, items) <==>
      r in objects || exists k: nat :: k < |items| && items[k].create && r == Replica(items[k].id)
    decreases |items|
  {
    if items != [] {
      CreateMembers(if items[0].create then objects + {Replica(items[0].id)} else objects, items[1..], r);
      if k: nat :| k < |items| && items[k].create && r == Replica(items[k].id) {
        assert k > 0 ==> items[1..][k - 1] == items[k];
      }
      if k: nat :| k < |items[1..]| && items[1..][k].create && r == Replica(items[1..][k].id) {
        assert items[k + 1] == items[1..][k];
      }
    }
  }

  /** Then it has all objects of the message. */
  lemma {:induction false} AcceptedIsCreated(objects: set<Replica>, items: seq<Item>, react: nat -> Reaction)
    requires Accepts(objects, items, react)
    ensures CreateVisited(objects, ExpectedVisits(HEADER, items, react, 0)) == Create(objects, items)
  {
    var visited := CreateVisited(objects, ExpectedVisits(HEADER, items, react, 0));
    forall r ensures r in visited <==> r in Create(objects, items) {
      VisitsCreate(objects, HEADER, items, react, 0, r);
      CreateMembers(objects, items, r);
    }
  }

  /**
   From the bits of a readable message the receiver creates exactly the objects whose records it
   accepts, all of the message's objects if it refuses none, and it finds the destruction count if
   there is anything to destroy.
   */
  method ReceiveConstruction(data: Bits, react: nat -> Reaction, objects: set<Replica>,
                             ghost message: nat, ghost world: nat, ghost m: Message, ghost rest: Bits)
    returns (created: set<Replica>, ghost pos: nat)
    requires Readable(m) && data == Written(message, world, m.items) + rest
    ensures forall r :: r in created <==> r in objects || exists k: nat :: Creates(m.items, react, 0, k, r)
    ensures Accepts(objects, m.items, react) ==> created == Create(objects, m.items)
    ensures m.destroys != [] ==> pos == CountAt(m.items)
  {
    hide Written, CountAt, ExpectedVisits, ExpectedPosts, TrailingEmpty, Creates, Accepts;
    var visits, posts, at := OnConstruction(data, react, message, world, m.items, rest);
    pos := at;
    ghost var result := CreateVisited(objects, visits);
    created := objects;
    assert visits[0..] == visits;
    for i := 0 to |visits|
      invariant CreateVisited(created, visits[i..]) == result
    {
      assert visits[i..][1..] == visits[i + 1..];
      if visits[i].create && visits[i].kept {
        created := created + {Replica(visits[i].id)};
      }
    }
    forall r ensures r in created <==> r in objects || exists k: nat :: Creates(m.items, react, 0, k, r) {
      VisitsCreate(objects, HEADER, m.items, react, 0, r);
    }
    if Accepts(objects, m.items, react) { AcceptedIsCreated(objects, m.items, react); }
  }

  lemma {:induction false} FoldAppend(objects: set<Replica>, channel: seq<Message>, m: Message)
    ensures Fold(objects, channel + [m]) == Receive(Fold(objects, channel), m)
    decreases |channel|
  {
    if channel == [] {
      assert [m][1..] == [];
    } else {
      FoldAppend(Receive(objects, channel[0]), channel[1..], m);
      assert (channel + [m])[1..] == channel[1..] + [m];
    }
  }

  lemma {:induction false} DestroySet(objects: set<Replica>, destroys: seq<Replica>)
    ensures Destroy(objects, destroys) == objects - set r | r in destroys
    decreases |destroys|
  {
    if destroys != [] {
      DestroySet(objects - {destroys[0]}, destroys[1..]);
      assert forall r :: r in destroys <==> r == destroys[0] || r in destroys[1..];
    }
  }

  lemma {:induction false} CreateSet(objects: set<Replica>, created: seq<Replica>, qc: QueryConstruction, write: Replica -> Payload)
    ensures Create(objects, Items(created, qc, write)) ==
      objects + set r | r in created && qc(r) == SEND_CONSTRUCTION
    decreases |created|
  {
    if created != [] {
      var r := created[0];
      CreateSet(if qc(r) == SEND_CONSTRUCTION then objects + {r} else objects, created[1..], qc, write);
      assert forall q :: q in created <==> q == r || q in created[1..];
      assert Items(created, qc, write)[1..] == Items(created[1..], qc, write);
    }
  }

  // ---- the sets a tick moves ----

  ghost function Answered(s: seq<Record>, q: QueryConstruction, c: ConstructionState): set<Replica> {
    set x | x in s && q(x.replica) == c :: x.replica
  }

  lemma {:induction false} AnnouncedSet(s: seq<Record>, q: QueryConstruction)
    ensures (set r | r in Announced(s, q) && q(r) == SEND_CONSTRUCTION) == Answered(s, q, SEND_CONSTRUCTION)
  {
    if s != [] {
      var r := s[0].replica;
      AnnouncedSet(s[1..], q);
      assert forall x :: x in s <==> x == s[0] || x in s[1..];
      assert Answered(s, q, SEND_CONSTRUCTION) ==
        (if q(r) == SEND_CONSTRUCTION then {r} else {}) + Answered(s[1..], q, SEND_CONSTRUCTION);
      assert forall p :: p in Announced(s, q) <==> (Announces(q(r)) && p == r) || p in Announced(s[1..], q);
    }
  }

  lemma {:induction false} DestroyedSet(s: seq<Record>, q: QueryDestruction)
    ensures (set r | r in DestroyedInOrder(s, q)) == Destroyed(s, q)
  {
    if s != [] {
      DestroyedSet(s[1..], q);
      DestroyedFirst(s, q);
    }
  }

  /** What the construction sweep moved stands on the destruct list for the second sweep. */
  lemma {:induction false} MovedAreQueried(l: Lists, index: Index, q: QueryConstruction, i: nat)
    requires i <= |l.pending|
    ensures var d := ConstructSweep(l, index, q, i).lists.destruct;
      && (forall x :: x in l.destruct ==> x in d)
      && (forall x :: x in l.pending[i..] && Constructs(q(x.replica)) ==> x in d)
      && (forall x :: x in d ==> x in l.destruct || (x in l.pending[i..] && Constructs(q(x.replica))))
    decreases |l.pending| - i
  {
    if i < |l.pending| {
      var c := q(l.pending[i].replica);
      var (m, j) := ConstructRound(l, index, c, i);
      ConstructRoundPending(l, index, c, i);
      MovedAreQueried(m, index, q, j);
      assert forall x :: x in l.pending[i..] <==> x == l.pending[i] || x in l.pending[i + 1..];
      assert m.destruct == l.destruct + if Constructs(c) then [l.pending[i]] else [];
    }
  }

  // ---- sender, channel, receiver ----

  /**
   `unknown` holds the objects that exist at the receiver although the sender has not yet
   classified them, the ones the user will answer "already exists" for.
   */
  datatype Net = Net(lists: Lists, channel: seq<Message>, receiver: set<Replica>, unknown: set<Replica>)

  ghost predicate Agreement(n: Net) {
    && Fold(n.receiver, n.channel) == Replicas(n.lists.constructed) + n.unknown
    && n.unknown !! Replicas(n.lists.constructed)
  }

  ghost function Post(channel: seq<Message>, m: Message): seq<Message> {
    if m.items == [] && m.destroys == [] then channel else channel + [m]
  }

  ghost function TickMessage(t: Ticked, qc: QueryConstruction, write: Replica -> Payload): Message {
    Message(Items(t.created, qc, write), t.destroyed)
  }

  ghost function TickNet(n: Net, index: Index, mode: Mode, qc: QueryConstruction, qd: QueryDestruction,
                         write: Replica -> Payload): Net {
    var t := Tick(n.lists, index, mode, qc, qd);
    Net(t.lists, Post(n.channel, TickMessage(t, qc, write)), n.receiver, n.unknown - Constructed(n.lists.pending, qc))
  }

  /** An "already exists" answer is true of the receiver, or the same tick destroys the replica again. */
  ghost predicate Honest(n: Net, mode: Mode, qc: QueryConstruction, qd: QueryDestruction) {
    forall x :: x in n.lists.pending && Exists(qc(x.replica)) ==>
      x.replica in n.unknown
      || (mode == QUERY_FOR_CONSTRUCTION_AND_DESTRUCTION && qd(x.replica) == SEND_DESTRUCTION)
  }

  lemma {:induction false} PostFold(objects: set<Replica>, channel: seq<Message>, m: Message)
    ensures Fold(objects, Post(channel, m)) == Receive(Fold(objects, channel), m)
  {
    FoldAppend(objects, channel, m);
  }

  /** The replicas destroyed by a tick. */
  ghost function TickDestroys(l: Lists, index: Index, mode: Mode, qc: QueryConstruction, qd: QueryDestruction): set<Replica> {
    if mode == QUERY_FOR_CONSTRUCTION then {}
    else Destroyed(ConstructSweep(l, index, qc, 0).lists.destruct, qd)
  }

  lemma TickSets(l: Lists, index: Index, mode: Mode, qc: QueryConstruction, qd: QueryDestruction, write: Replica -> Payload,
                 objects: set<Replica>)
    requires IndexOk(index) && ListsOk(l, index)
    ensures var t := Tick(l, index, mode, qc, qd);
      && Replicas(t.lists.constructed) ==
         Replicas(l.constructed) + Constructed(l.pending, qc) - TickDestroys(l, index, mode, qc, qd)
      && Receive(objects, TickMessage(t, qc, write)) ==
         objects + Answered(l.pending, qc, SEND_CONSTRUCTION) - TickDestroys(l, index, mode, qc, qd)
  {
    hide ConstructSweep, DestructSweep;
    var c := ConstructSweep(l, index, qc, 0);
    assert l.pending[0..] == l.pending;
    ConstructSweepKeeps(l, index, qc, 0);
    ConstructSweepMoves(l, index, qc, 0);
    ConstructSweepReports(l, index, qc, 0);
    var t := Tick(l, index, mode, qc, qd);
    CreateSet(objects, t.created, qc, write);
    AnnouncedSet(l.pending, qc);
    DestroySet(Create(objects, Items(t.created, qc, write)), t.destroyed);
    if mode != QUERY_FOR_CONSTRUCTION {
      assert c.lists.destruct[0..] == c.lists.destruct;
      DestructSweepMoves(c.lists, index, qd, 0);
      DestructSweepReports(c.lists, qd, 0);
      DestroyedSet(c.lists.destruct, qd);
    }
  }

  lemma TickDestroysMember(l: Lists, index: Index, mode: Mode, qc: QueryConstruction, qd: QueryDestruction, x: Record)
    requires IndexOk(index) && ListsOk(l, index) && x in l.pending && Exists(qc(x.replica))
    ensures x.replica in TickDestroys(l, index, mode, qc, qd) <==>
      mode == QUERY_FOR_CONSTRUCTION_AND_DESTRUCTION && qd(x.replica) == SEND_DESTRUCTION
  {
    assert l.pending[0..] == l.pending;
    MovedAreQueried(l, index, qc, 0);
  }

  /**
   A tick keeps the two sides in agreement exactly when its "already exists" answers are honest.
   */
  lemma TickAgrees(n: Net, index: Index, mode: Mode, qc: QueryConstruction, qd: QueryDestruction, write: Replica -> Payload)
    requires IndexOk(index) && ListsOk(n.lists, index) && Agreement(n)
    ensures Agreement(TickNet(n, index, mode, qc, qd, write)) <==> Honest(n, mode, qc, qd)
  {
    hide Tick, TickDestroys, Receive;
    var l := n.lists;
    var t := Tick(l, index, mode, qc, qd);
    var d := TickDestroys(l, index, mode, qc, qd);
    var m := TickNet(n, index, mode, qc, qd, write);
    TickSets(l, index, mode, qc, qd, write, Fold(n.receiver, n.channel));
    PostFold(n.receiver, n.channel, TickMessage(t, qc, write));
    assert d <= Replicas(l.constructed) + Constructed(l.pending, qc) by { DestroysAreConstructed(l, index, mode, qc, qd); }
    ReplicasOfMembers(l.pending);
    OneAnswer(l.pending, qc);
    forall x | x in l.pending && Exists(qc(x.replica)) { TickDestroysMember(l, index, mode, qc, qd, x); }
    if Honest(n, mode, qc, qd) {
      assert forall x :: x in l.pending && Exists(qc(x.replica)) ==> x.replica in n.unknown || x.replica in d;
    } else {
      var x :| x in l.pending && Exists(qc(x.replica)) && x.replica !in n.unknown && x.replica !in d;
      assert x.replica in Constructed(l.pending, qc);
      assert x.replica !in Answered(l.pending, qc, SEND_CONSTRUCTION);
      assert x.replica !in Fold(m.receiver, m.channel);
      assert x.replica in Replicas(m.lists.constructed);
    }
  }

  /** Constructed replicas were either sent or exist; no replica is both. */
  lemma OneAnswer(s: seq<Record>, q: QueryConstruction)
    ensures forall x :: x in s && Exists(q(x.replica)) ==> x.replica !in Answered(s, q, SEND_CONSTRUCTION)
    ensures forall r :: r in Constructed(s, q) ==>
      r in Answered(s, q, SEND_CONSTRUCTION) || exists x :: x in s && x.replica == r && Exists(q(x.replica))
    ensures Answered(s, q, SEND_CONSTRUCTION) <= Constructed(s, q)
  {}

  lemma DestroysAreConstructed(l: Lists, index: Index, mode: Mode, qc: QueryConstruction, qd: QueryDestruction)
    requires IndexOk(index) && ListsOk(l, index)
    ensures TickDestroys(l, index, mode, qc, qd) <= Replicas(l.constructed) + Constructed(l.pending, qc)
  {
    assert l.pending[0..] == l.pending;
    MovedAreQueried(l, index, qc, 0);
    ReplicasOfMembers(l.constructed);
  }

  // ---- whole runs ----

  datatype Step =
    | Refer(x: Record)                        // a new replica becomes pending
    | TickStep(mode: Mode, qc: QueryConstruction, qd: QueryDestruction, write: Replica -> Payload)
    | DestroyReplica(r: Replica)              // BroadcastDestruction, then Dereference
    | StopSerializing(x: Record)
    | Deliver

  ghost predicate Enabled(n: Net, index: Index, s: Step) {
    match s
    case Refer(x) =>
      && x.replica in index && x !in n.lists.live
      && x.replica !in Replicas(n.lists.constructed) && x.replica !in Replicas(n.lists.pending)
    case TickStep(mode, qc, qd, write) =>
      && Honest(n, mode, qc, qd)
      && Readable(TickMessage(Tick(n.lists, index, mode, qc, qd), qc, write))
    case DestroyReplica(r) => true
    case StopSerializing(x) => true
    case Deliver => n.channel != []
  }

  /** `BroadcastDestructionList` skips a connection that does not have the replica. */
  ghost function Broadcast(n: Net, index: Index, r: Replica): seq<Message> {
    if HasKey(n.lists.constructed, Key(index, r), index) then n.channel + [Message([], [r])] else n.channel
  }

  ghost function Apply(n: Net, index: Index, s: Step): Net
    requires Enabled(n, index, s)
  {
    match s
    case Refer(x) => n.(lists := LocalReference(n.lists, x))
    case TickStep(mode, qc, qd, write) => TickNet(n, index, mode, qc, qd, write)
    case DestroyReplica(r) =>
      n.(channel := Broadcast(n, index, r), lists := Dereference(n.lists, r, index, true))
    case StopSerializing(x) => n.(lists := NeverSerialize(n.lists, x))
    case Deliver => n.(receiver := Receive(n.receiver, n.channel[0]), channel := n.channel[1..])
  }

  ghost predicate Synced(n: Net, index: Index) {
    ListsOk(n.lists, index) && Owned(n.lists) && Agreement(n)
    && forall m :: m in n.channel ==> Readable(m)
  }

  lemma DestroyAgrees(n: Net, index: Index, r: Replica)
    requires IndexOk(index) && Synced(n, index)
    ensures Synced(Apply(n, index, DestroyReplica(r)), index)
  {
    hide Dereference;
    DereferenceKeeps(n.lists, r, index, true);
    DereferenceRemoves(n.lists, r, index, true);
    KeyIsIdentity(n.lists.constructed, r, index);
    var m := Message([], [r]);
    FoldAppend(n.receiver, n.channel, m);
    assert CountAt([]) == 32;
    assert Readable(m);
    DestroySet(Fold(n.receiver, n.channel), [r]);
  }

  lemma StepAgrees(n: Net, index: Index, s: Step)
    requires IndexOk(index) && Synced(n, index) && Enabled(n, index, s)
    ensures Synced(Apply(n, index, s), index)
  {
    match s
    case Refer(x) => LocalReferenceKeeps(n.lists, x, index);
    case TickStep(mode, qc, qd, write) =>
      hide Tick;
      TickKeeps(n.lists, index, mode, qc, qd);
      TickAgrees(n, index, mode, qc, qd, write);
    case DestroyReplica(r) => DestroyAgrees(n, index, r);
    case StopSerializing(x) => NeverSerializeKeeps(n.lists, x, index);
    case Deliver =>
  }

  ghost predicate Run(n: Net, index: Index, steps: seq<Step>, n': Net)
    decreases |steps|
  {
    if steps == [] then n' == n
    else Enabled(n, index, steps[0]) && Run(Apply(n, index, steps[0]), index, steps[1..], n')
  }

  /**
   Over every run from an agreeing start, the messages in flight turn the receiver's objects into
   the sender's constructed replicas and the ones it has yet to classify; with an empty channel
   the two sides agree outright.
   */
  lemma {:induction false} EndpointsAgree(n: Net, index: Index, steps: seq<Step>, n': Net)
    requires IndexOk(index) && Synced(n, index) && Run(n, index, steps, n')
    ensures Synced(n', index)
    ensures n'.channel == [] ==> n'.receiver == Replicas(n'.lists.constructed) + n'.unknown
    decreases |steps|
  {
    if steps != [] {
      StepAgrees(n, index, steps[0]);
      EndpointsAgree(Apply(n, index, steps[0]), index, steps[1..], n');
    }
  }
}
