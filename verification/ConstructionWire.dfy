/**
 The bit layout of ID_REPLICA_MANAGER_CONSTRUCTION: what `SendConstruction` writes, with end
 offsets that are patched in afterwards, and where `OnConstruction` looks for it again.
 */
module ConstructionWire {
  import opened Sequences

  // ---- fixed-width numbers ----

  function Pow2(w: nat): (p: nat)
    ensures p > 0
  {
    if w == 0 then 1 else 2 * Pow2(w - 1)
  }

  function Number(n: nat, w: nat): (b: Bits)
    ensures |b| == w
  {
    if w == 0 then [] else Number(n / 2, w - 1) + [n % 2 == 1]
  }

  function Value(b: Bits): nat {
    if b == [] then 0 else 2 * Value(b[..|b| - 1]) + if b[|b| - 1] then 1 else 0
  }

  lemma {:induction false} ValueOfNumber(n: nat, w: nat)
    requires n < Pow2(w)
    ensures Value(Number(n, w)) == n
    decreases w
  {
    if w > 0 {
      ValueOfNumber(n / 2, w - 1);
      assert Number(n, w)[..w - 1] == Number(n / 2, w - 1);
    }
  }

  // ---- byte alignment ----

  function Align(o: nat): (a: nat)
    ensures o <= a < o + 8
  {
    (o + 7) / 8 * 8
  }

  lemma AlignIsNextMultiple(o: nat)
    ensures Align(o) % 8 == 0
    ensures Align(o) == o <==> o % 8 == 0
  {}

  function Pad(o: nat): (p: Bits)
    ensures |p| == Align(o) - o
  {
    seq(Align(o) - o, _ => false)
  }

  // ---- the layout ----

  /** What the sender has to say about one replica; the bit strings come from user callbacks. */
  datatype Item = Item(id: nat, create: bool, guid: nat, alloc: Bits, body: Bits, post: Bits)

  function HeadEnd(o: nat): nat { Align(o + 97) }

  function AllocStart(o: nat): nat { Align(HeadEnd(o) + 96) }

  function AllocEnd(o: nat, x: Item): nat { Align(AllocStart(o) + |x.alloc|) }

  /** First bit after the construction record of `x` that starts at `o`. */
  function End(o: nat, x: Item): (e: nat)
    ensures e >= o + 97
  {
    Align((if x.create then AllocEnd(o, x) else HeadEnd(o)) + |x.body|)
  }

  /** What `WriteAllocationID` is wrapped in, for an object that the receiver must create. */
  function Creation(o: nat, x: Item): (r: Bits)
    ensures |r| == AllocEnd(o, x) - HeadEnd(o)
  {
    Number(x.guid, 64) + Number(AllocEnd(o, x), 32) + Allocation(o, x)
  }

  function Allocation(o: nat, x: Item): (r: Bits)
    ensures |r| == AllocEnd(o, x) - HeadEnd(o) - 96
  {
    Pad(HeadEnd(o) + 96) + x.alloc + Pad(AllocStart(o) + |x.alloc|)
  }

  /** Identity and allocation of the object, after the end offset. */
  function Head(o: nat, x: Item): (r: Bits)
    ensures |r| == (if x.create then AllocEnd(o, x) else HeadEnd(o)) - o - 32
  {
    Number(x.id, 64) + [x.create] + Pad(o + 97) + if x.create then Creation(o, x) else []
  }

  /** The record without the end offset in front. */
  function Rest(o: nat, x: Item): (r: Bits)
    ensures |r| == End(o, x) - o - 32
  {
    Head(o, x) + x.body + Pad((if x.create then AllocEnd(o, x) else HeadEnd(o)) + |x.body|)
  }

  function Record(o: nat, x: Item): (r: Bits)
    ensures |r| == End(o, x) - o
  {
    Number(End(o, x), 32) + Rest(o, x)
  }

  function Records(o: nat, xs: seq<Item>): Bits
    decreases |xs|
  {
    if xs == [] then [] else Record(o, xs[0]) + Records(End(o, xs[0]), xs[1..])
  }

  function AfterRecords(o: nat, xs: seq<Item>): nat
    decreases |xs|
  {
    if xs == [] then o else AfterRecords(End(o, xs[0]), xs[1..])
  }

  function PostStart(o: nat): nat { Align(Align(o + 1) + 96) }

  function PostEnd(o: nat, x: Item): (e: nat)
    ensures e > o
  {
    if x.post == [] then o + 1 else Align(PostStart(o) + |x.post|)
  }

  function Post(o: nat, x: Item): (r: Bits)
    ensures |r| == PostEnd(o, x) - o
  {
    if x.post == [] then [false]
    else [true] + Pad(o + 1) + Number(PostEnd(o, x), 32) + PostRest(o, x)
  }

  function PostRest(o: nat, x: Item): (r: Bits)
    ensures |r| == Align(PostStart(o) + |x.post|) - Align(o + 1) - 32
  {
    Number(x.id, 64) + Pad(Align(o + 1) + 96) + x.post + Pad(PostStart(o) + |x.post|)
  }

  function Posts(o: nat, xs: seq<Item>): Bits
    decreases |xs|
  {
    if xs == [] then [] else Post(o, xs[0]) + Posts(PostEnd(o, xs[0]), xs[1..])
  }

  function AfterPosts(o: nat, xs: seq<Item>): nat
    decreases |xs|
  {
    if xs == [] then o else AfterPosts(PostEnd(o, xs[0]), xs[1..])
  }

  const HEADER := 32  // MessageID, WorldId and the 16-bit object count

  function Header(message: nat, world: nat, n: nat): (h: Bits)
    ensures |h| == HEADER
  {
    Number(message, 8) + Number(world, 8) + Number(n % 0x1_0000, 16)
  }

  /** Everything before the destruction count; the writer pads to a byte first. */
  function Written(message: nat, world: nat, xs: seq<Item>): Bits {
    var posts := AfterRecords(HEADER, xs);
    Header(message, world, |xs|) + Records(HEADER, xs) + Posts(posts, xs) + Pad(AfterPosts(posts, xs))
  }

  /** Where the writer puts the destruction count. */
  function CountAt(xs: seq<Item>): nat {
    Align(AfterPosts(AfterRecords(HEADER, xs), xs))
  }

  // ---- the writer ----

  /** `RakNet::BitStream`: writing goes to the write offset and overwrites what is there. */
  class BitStream {
    var bits: Bits
    var writeOffset: nat

    ghost predicate Valid()
      reads this
    {
      writeOffset <= |bits|
    }

    ghost function Content(): Bits
      reads this
      requires Valid()
    {
      bits[..writeOffset]
    }

    constructor ()
      ensures Valid() && Content() == []
    {
      bits, writeOffset := [], 0;
    }

    method Write(b: Bits)
      requires Valid()
      modifies this
      ensures Valid() && Content() == old(Content()) + b
      ensures old(writeOffset) + |b| <= |old(bits)| ==> bits == Overwritten(old(bits), old(writeOffset), b)
    {
      var end := writeOffset + |b|;
      bits := bits[..writeOffset] + b + if end < |bits| then bits[end..] else [];
      writeOffset := end;
    }

    method AlignWriteToByteBoundary()
      requires Valid()
      modifies this
      ensures Valid() && Content() == old(Content()) + Pad(|old(Content())|)
    {
      Write(Pad(writeOffset));
    }

    /** The writer's idiom: go back, write the end offset, return to the end. */
    method Patch(at: nat)
      requires Valid() && at + 32 <= writeOffset
      modifies this
      ensures Valid() && Content() == Overwritten(old(Content()), at, Number(|old(Content())|, 32))
    {
      var offsetEnd := writeOffset;
      ghost var number := Number(offsetEnd, 32);
      assert Overwritten(bits, at, number)[..offsetEnd] == Overwritten(bits[..offsetEnd], at, number);
      writeOffset := at;
      Write(Number(offsetEnd, 32));
      writeOffset := offsetEnd;
    }
  }

  function Overwritten(s: Bits, at: nat, b: Bits): Bits
    requires at + |b| <= |s|
  {
    s[..at] + b + s[at + |b|..]
  }

  lemma OverwrittenMiddle(a: Bits, hole: Bits, c: Bits, b: Bits)
    requires |b| == |hole|
    ensures Overwritten(a + hole + c, |a|, b) == a + b + c
  {}

  method WriteCreation(bsOut: BitStream, x: Item, ghost o: nat)
    requires bsOut.Valid() && |bsOut.Content()| == HeadEnd(o)
    modifies bsOut
    ensures bsOut.Valid() && bsOut.Content() == old(bsOut.Content()) + Creation(o, x)
  {
    hide Number, Align, Allocation, Overwritten;
    ghost var before := bsOut.Content();
    bsOut.Write(Number(x.guid, 64));
    var offsetStart2 := bsOut.writeOffset;
    ghost var upTo := bsOut.Content();
    var hole := Number(offsetStart2, 32);
    bsOut.Write(hole);
    WriteAllocation(bsOut, x, o);
    OverwrittenMiddle(upTo, hole, Allocation(o, x), Number(|bsOut.Content()|, 32));
    bsOut.Patch(offsetStart2);
    assert bsOut.Content() == before + (Number(x.guid, 64) + Number(AllocEnd(o, x), 32) + Allocation(o, x));
  }

  method WriteAllocation(bsOut: BitStream, x: Item, ghost o: nat)
    requires bsOut.Valid() && |bsOut.Content()| == HeadEnd(o) + 96
    modifies bsOut
    ensures bsOut.Valid() && bsOut.Content() == old(bsOut.Content()) + Allocation(o, x)
  {
    hide Align;
    bsOut.AlignWriteToByteBoundary();
    bsOut.Write(x.alloc);
    bsOut.AlignWriteToByteBoundary();
  }

  /** The record up to the bits of `SerializeConstruction`, or of its existing-object counterpart. */
  method WriteHead(bsOut: BitStream, x: Item, ghost o: nat)
    requires bsOut.Valid() && |bsOut.Content()| == o + 32
    modifies bsOut
    ensures bsOut.Valid() && bsOut.Content() == old(bsOut.Content()) + Head(o, x)
  {
    hide Number, Creation, Align;
    bsOut.Write(Number(x.id, 64));
    bsOut.Write([x.create]);
    bsOut.AlignWriteToByteBoundary();
    ghost var upTo := bsOut.Content();
    assert upTo == old(bsOut.Content()) + (Number(x.id, 64) + [x.create] + Pad(o + 97));
    if x.create {
      WriteCreation(bsOut, x, o);
    }
  }

  /** One construction record, with its one or two patched offsets. */
  method WriteRecord(bsOut: BitStream, x: Item)
    requires bsOut.Valid()
    modifies bsOut
    ensures bsOut.Valid() && bsOut.Content() == old(bsOut.Content()) + Record(|old(bsOut.Content())|, x)
  {
    hide Number, Rest, Align, Overwritten;
    ghost var before := bsOut.Content();
    var offsetStart := bsOut.writeOffset;
    var hole := Number(offsetStart, 32);
    bsOut.Write(hole);
    WriteRest(bsOut, x, |before|);
    OverwrittenMiddle(before, hole, Rest(|before|, x), Number(|bsOut.Content()|, 32));
    bsOut.Patch(offsetStart);
    Assoc(before, Number(End(|before|, x), 32), Rest(|before|, x));
  }

  method WriteRest(bsOut: BitStream, x: Item, ghost o: nat)
    requires bsOut.Valid() && |bsOut.Content()| == o + 32
    modifies bsOut
    ensures bsOut.Valid() && bsOut.Content() == old(bsOut.Content()) + Rest(o, x)
  {
    hide Head, Align;
    WriteHead(bsOut, x, o);
    bsOut.Write(x.body);
    bsOut.AlignWriteToByteBoundary();
  }

  method WritePostRest(bsOut: BitStream, x: Item, ghost o: nat)
    requires bsOut.Valid() && |bsOut.Content()| == Align(o + 1) + 32
    modifies bsOut
    ensures bsOut.Valid() && bsOut.Content() == old(bsOut.Content()) + PostRest(o, x)
  {
    hide Number, Align;
    bsOut.Write(Number(x.id, 64));
    bsOut.AlignWriteToByteBoundary();
    bsOut.Write(x.post);
    bsOut.AlignWriteToByteBoundary();
  }

  /** One post-construction record: a flag, and behind a set flag the bits of the callback. */
  method WritePost(bsOut: BitStream, x: Item)
    requires bsOut.Valid()
    modifies bsOut
    ensures bsOut.Valid() && bsOut.Content() == old(bsOut.Content()) + Post(|old(bsOut.Content())|, x)
  {
    hide Number, PostRest, Align, Overwritten;
    ghost var before := bsOut.Content();
    if |x.post| > 0 {
      bsOut.Write([true]);
      bsOut.AlignWriteToByteBoundary();
      var offsetStart := bsOut.writeOffset;
      ghost var upTo := bsOut.Content();
      assert upTo == before + ([true] + Pad(|before| + 1));
      var hole := Number(offsetStart, 32);
      bsOut.Write(hole);
      WritePostRest(bsOut, x, |before|);
      OverwrittenMiddle(upTo, hole, PostRest(|before|, x), Number(|bsOut.Content()|, 32));
      bsOut.Patch(offsetStart);
    } else {
      bsOut.Write([false]);
    }
  }

  method WriteRecords(bsOut: BitStream, newObjects: seq<Item>)
    requires bsOut.Valid()
    modifies bsOut
    ensures bsOut.Valid()
    ensures bsOut.Content() == old(bsOut.Content()) + Records(|old(bsOut.Content())|, newObjects)
    ensures |bsOut.Content()| == AfterRecords(|old(bsOut.Content())|, newObjects)
  {
    hide Record, End;
    ghost var before := bsOut.Content();
    var i := 0;
    while i < |newObjects|
      invariant i <= |newObjects| && bsOut.Valid()
      invariant bsOut.Content() + Records(|bsOut.Content()|, newObjects[i..]) == before + Records(|before|, newObjects)
      invariant AfterRecords(|bsOut.Content()|, newObjects[i..]) == AfterRecords(|before|, newObjects)
    {
      ghost var was := bsOut.Content();
      WriteRecord(bsOut, newObjects[i]);
      assert newObjects[i..][1..] == newObjects[i + 1..];
      assert was + Records(|was|, newObjects[i..]) ==
        (was + Record(|was|, newObjects[i])) + Records(End(|was|, newObjects[i]), newObjects[i + 1..]);
      i := i + 1;
    }
  }

  method WritePosts(bsOut: BitStream, newObjects: seq<Item>)
    requires bsOut.Valid()
    modifies bsOut
    ensures bsOut.Valid()
    ensures bsOut.Content() == old(bsOut.Content()) + Posts(|old(bsOut.Content())|, newObjects)
    ensures |bsOut.Content()| == AfterPosts(|old(bsOut.Content())|, newObjects)
  {
    hide Post, PostEnd;
    ghost var before := bsOut.Content();
    var i := 0;
    while i < |newObjects|
      invariant i <= |newObjects| && bsOut.Valid()
      invariant bsOut.Content() + Posts(|bsOut.Content()|, newObjects[i..]) == before + Posts(|before|, newObjects)
      invariant AfterPosts(|bsOut.Content()|, newObjects[i..]) == AfterPosts(|before|, newObjects)
    {
      ghost var was := bsOut.Content();
      WritePost(bsOut, newObjects[i]);
      assert newObjects[i..][1..] == newObjects[i + 1..];
      assert was + Posts(|was|, newObjects[i..]) ==
        (was + Post(|was|, newObjects[i])) + Posts(PostEnd(|was|, newObjects[i]), newObjects[i + 1..]);
      i := i + 1;
    }
  }

  /** The construction half of `SendConstruction`, up to the destruction count. */
  method SendConstruction(bsOut: BitStream, message: nat, world: nat, newObjects: seq<Item>)
    requires bsOut.Valid() && bsOut.Content() == []
    modifies bsOut
    ensures bsOut.Valid() && bsOut.Content() == Written(message, world, newObjects)
    ensures |bsOut.Content()| == CountAt(newObjects)
  {
    hide Records, Posts, Header;
    bsOut.Write(Header(message, world, |newObjects|));
    WriteRecords(bsOut, newObjects);
    WritePosts(bsOut, newObjects);
    bsOut.AlignWriteToByteBoundary();
  }

  // ---- the reader ----

  /** How the receiver's own code reacts to one record. */
  datatype Reaction = Reaction(
    exists_: bool,     // the NetworkID is already in use here
    allocates: bool,   // AllocReplica returned an object
    queried: bool,     // QueryRemoteConstruction agreed
    accepted: bool,    // DeserializeConstruction agreed
    consumed: nat,     // where the construction callbacks left the read offset
    postConsumed: nat) // where the post-construction callback left it

  /** Whether the receiver keeps an object for the record (`constructionTickStack` is not 0). */
  predicate Kept(create: bool, a: Reaction) {
    if create then !a.exists_ && a.allocates && a.queried && a.accepted else a.exists_
  }

  /**
   What the reader saw of one record: where it started, what it read, where each callback began,
   and whether it pushed an object on `constructionTickStack`.
   */
  datatype Visit = Visit(start: nat, id: nat, create: bool, calls: seq<nat>, kept: bool)

  /**
   The same for a post-construction record, with whether its object was called. When the record is
   empty, `id` is 0 and the object reads from no place of the message.
   */
  datatype PostVisit = PostVisit(start: nat, written: bool, id: nat, calls: seq<nat>, called: bool)

  function ExpectedPost(o: nat, x: Item, a: Reaction): PostVisit {
    if x.post == [] then PostVisit(o, false, 0, [], Kept(x.create, a))
    else PostVisit(o, true, x.id, if Kept(x.create, a) then [PostStart(o)] else [], Kept(x.create, a))
  }

  function ExpectedPosts(o: nat, xs: seq<Item>, react: nat -> Reaction, k: nat): seq<PostVisit>
    decreases |xs|
  {
    if xs == [] then []
    else [ExpectedPost(o, xs[0], react(k))] + ExpectedPosts(PostEnd(o, xs[0]), xs[1..], react, k + 1)
  }

  /** The visit that puts every callback on the bits written for it. */
  function Expected(o: nat, x: Item, a: Reaction): Visit {
    Visit(o, x.id, x.create,
      if !x.create then (if a.exists_ then [HeadEnd(o)] else [])
      else if a.exists_ then []
      else if a.allocates && a.queried then [AllocStart(o), AllocEnd(o, x)]
      else [AllocStart(o)],
      Kept(x.create, a))
  }

  function ExpectedVisits(o: nat, xs: seq<Item>, react: nat -> Reaction, k: nat): seq<Visit>
    decreases |xs|
  {
    if xs == [] then []
    else [Expected(o, xs[0], react(k))] + ExpectedVisits(End(o, xs[0]), xs[1..], react, k + 1)
  }

  ghost predicate Encodable(x: Item) {
    x.id < Pow2(64) && x.guid < Pow2(64)
  }

  lemma Assoc(a: Bits, b: Bits, c: Bits)
    ensures (a + b) + c == a + (b + c)
  {}

  /** Reading past `front`. */
  lemma Skip(data: Bits, at: nat, front: Bits, rest: Bits)
    requires at <= |data| && data[at..] == front + rest
    ensures at + |front| <= |data| && data[at + |front|..] == rest
    ensures data[at..at + |front|] == front
  {
    assert data[at + |front|..] == data[at..][|front|..];
    assert data[at..at + |front|] == data[at..][..|front|];
  }

  lemma {:induction false} ReadNumber(data: Bits, at: nat, n: nat, w: nat, rest: Bits)
    requires at <= |data| && data[at..] == Number(n, w) + rest && n < Pow2(w)
    ensures at + w <= |data| && data[at + w..] == rest
    ensures Value(data[at..at + w]) == n
  {
    Skip(data, at, Number(n, w), rest);
    ValueOfNumber(n, w);
  }

  /** The fields in front of a record, read in order. */
  lemma ReadHead(data: Bits, at: nat, x: Item, rest: Bits)
    requires at <= |data| && data[at..] == Record(at, x) + rest
    requires End(at, x) < Pow2(32) && Encodable(x)
    ensures End(at, x) <= |data| && data[End(at, x)..] == rest
    ensures Value(data[at..at + 32]) == End(at, x)
    ensures Value(data[at + 32..at + 96]) == x.id
    ensures data[at + 96] == x.create
    ensures data[HeadEnd(at)..] == AfterHead(at, x) + rest
  {
    hide Number, Value, Align, AfterHead, Head, Rest;
    Skip(data, at, Record(at, x), rest);
    Assoc(Number(End(at, x), 32), Rest(at, x), rest);
    ReadNumber(data, at, End(at, x), 32, Rest(at, x) + rest);
    HeadFirst(at, x);
    ReadIdentity(data, at + 32, x, AfterHead(at, x) + rest) by {
      Assoc(Number(x.id, 64), [x.create] + (Pad(at + 97) + AfterHead(at, x)), rest);
      Assoc([x.create], Pad(at + 97) + AfterHead(at, x), rest);
      Assoc(Pad(at + 97), AfterHead(at, x), rest);
    }
  }

  /** NetworkID, the create flag and the padding behind them. */
  lemma ReadIdentity(data: Bits, at: nat, x: Item, rest: Bits)
    requires at <= |data| && x.id < Pow2(64)
    requires data[at..] == Number(x.id, 64) + ([x.create] + (Pad(at + 65) + rest))
    ensures Align(at + 65) <= |data| && data[Align(at + 65)..] == rest
    ensures Value(data[at..at + 64]) == x.id && data[at + 64] == x.create
  {
    hide Number, Value, Align;
    ReadNumber(data, at, x.id, 64, [x.create] + (Pad(at + 65) + rest));
    Skip(data, at + 64, [x.create], Pad(at + 65) + rest);
    assert data[at + 64] == data[at + 64..at + 65][0];
    Skip(data, at + 65, Pad(at + 65), rest);
  }

  /** The part of a record behind its aligned head. */
  function AfterHead(o: nat, x: Item): Bits {
    (if x.create then Creation(o, x) else []) +
    (x.body + Pad((if x.create then AllocEnd(o, x) else HeadEnd(o)) + |x.body|))
  }

  lemma HeadFirst(o: nat, x: Item)
    ensures Rest(o, x) == Number(x.id, 64) + ([x.create] + (Pad(o + 97) + AfterHead(o, x)))
  {
    hide Number, Creation, Align;
    var c := if x.create then Creation(o, x) else [];
    var b := x.body + Pad((if x.create then AllocEnd(o, x) else HeadEnd(o)) + |x.body|);
    assert Rest(o, x) == Number(x.id, 64) + [x.create] + Pad(o + 97) + c + b;
  }

  /** The allocation's end offset, behind the head and the creator's guid. */
  lemma ReadCreation(data: Bits, at: nat, x: Item, rest: Bits)
    requires HeadEnd(at) <= |data| && data[HeadEnd(at)..] == AfterHead(at, x) + rest
    requires x.create && AllocEnd(at, x) < Pow2(32) && Encodable(x)
    ensures HeadEnd(at) + 96 <= |data|
    ensures Value(data[HeadEnd(at) + 64..HeadEnd(at) + 96]) == AllocEnd(at, x)
  {
    hide Number, Value, Align, Allocation;
    var b := x.body + Pad(AllocEnd(at, x) + |x.body|);
    var tail := Allocation(at, x) + (b + rest);
    Assoc(Creation(at, x), b, rest);
    assert Creation(at, x) + (b + rest) == Number(x.guid, 64) + (Number(AllocEnd(at, x), 32) + tail);
    ReadNumber(data, HeadEnd(at), x.guid, 64, Number(AllocEnd(at, x), 32) + tail);
    ReadNumber(data, HeadEnd(at) + 64, AllocEnd(at, x), 32, tail);
  }

  /** One construction record; `pos` is the read offset afterwards. */
  method ReadRecord(data: Bits, at: nat, a: Reaction, ghost x: Item, ghost rest: Bits)
    returns (visit: Visit, pos: nat)
    requires at <= |data| && data[at..] == Record(at, x) + rest
    requires End(at, x) < Pow2(32) && Encodable(x)
    ensures visit == Expected(at, x, a)
    ensures pos == End(at, x) && pos <= |data| && data[pos..] == rest
  {
    hide Number, Value, Record, Align, Creation, AfterHead;
    ReadHead(data, at, x, rest);
    var streamEnd := Value(data[at..at + 32]);
    var networkId := Value(data[at + 32..at + 96]);
    var actuallyCreateObject := data[at + 96];
    pos := Align(at + 97);
    var calls, kept := [], false;
    if actuallyCreateObject {
      ReadCreation(data, at, x, rest);
      pos := pos + 64;  // creatingSystemGuid
      var writeAllocationIDEnd := Value(data[pos..pos + 32]);
      pos := pos + 32;
      if !a.exists_ {
        pos := Align(pos);
        calls := [pos];
        if a.allocates {
          pos := writeAllocationIDEnd;
          if a.queried {
            calls := calls + [pos];
            pos := a.consumed;  // DeserializeConstruction
            kept := a.accepted;
          }
        }
      }
    } else if a.exists_ {
      calls := [pos];
      pos := a.consumed;  // DeserializeConstructionExisting
      kept := true;
    }
    pos := streamEnd;
    visit := Visit(at, networkId, actuallyCreateObject, calls, kept);
  }

  lemma ReadWrittenPost(data: Bits, at: nat, x: Item, rest: Bits)
    requires at <= |data| && data[at..] == Post(at, x) + rest
    requires x.post != [] && PostEnd(at, x) < Pow2(32) && Encodable(x)
    ensures PostEnd(at, x) <= |data| && data[PostEnd(at, x)..] == rest
    ensures at < |data| && data[at]
    ensures Align(at + 1) + 96 <= |data|
    ensures Value(data[Align(at + 1)..Align(at + 1) + 32]) == PostEnd(at, x)
    ensures Value(data[Align(at + 1) + 32..Align(at + 1) + 96]) == x.id
  {
    hide Number, Value, Align, PostRest, Pad, Post;
    Skip(data, at, Post(at, x), rest);
    var p := Align(at + 1);
    var end := Number(PostEnd(at, x), 32);
    PostForm(at, x);
    Assoc([true], Pad(at + 1) + (end + PostRest(at, x)), rest);
    Skip(data, at, [true], Pad(at + 1) + (end + PostRest(at, x)) + rest);
    assert data[at] == data[at..at + 1][0];
    Assoc(Pad(at + 1), end + PostRest(at, x), rest);
    Skip(data, at + 1, Pad(at + 1), end + PostRest(at, x) + rest);
    Assoc(end, PostRest(at, x), rest);
    ReadNumber(data, p, PostEnd(at, x), 32, PostRest(at, x) + rest);
    ReadPostIdentity(data, at, x, rest);
  }

  lemma PostForm(o: nat, x: Item)
    requires x.post != []
    ensures Post(o, x) == [true] + (Pad(o + 1) + (Number(PostEnd(o, x), 32) + PostRest(o, x)))
  {
    hide Number, PostRest, Pad, PostEnd, Align;
    Assoc([true] + Pad(o + 1), Number(PostEnd(o, x), 32), PostRest(o, x));
    Assoc([true], Pad(o + 1), Number(PostEnd(o, x), 32) + PostRest(o, x));
  }

  lemma ReadPostIdentity(data: Bits, at: nat, x: Item, rest: Bits)
    requires Align(at + 1) + 32 <= |data| && data[Align(at + 1) + 32..] == PostRest(at, x) + rest && Encodable(x)
    ensures Align(at + 1) + 96 <= |data|
    ensures Value(data[Align(at + 1) + 32..Align(at + 1) + 96]) == x.id
  {
    hide Number, Value, Align;
    var p := Align(at + 1);
    var tail := Pad(p + 96) + x.post + Pad(PostStart(at) + |x.post|);
    assert PostRest(at, x) == Number(x.id, 64) + tail;
    Assoc(Number(x.id, 64), tail, rest);
    ReadNumber(data, p + 32, x.id, 64, tail + rest);
  }

  method ReadPost(data: Bits, at: nat, kept: bool, a: Reaction, ghost x: Item, ghost rest: Bits)
    returns (visit: PostVisit, pos: nat)
    requires at <= |data| && data[at..] == Post(at, x) + rest && kept == Kept(x.create, a)
    requires PostEnd(at, x) < Pow2(32) && Encodable(x)
    ensures visit == ExpectedPost(at, x, a)
    ensures pos == PostEnd(at, x) && pos <= |data| && data[pos..] == rest
  {
    hide Number, Value, PostRest, Align;
    if x.post == [] {
      Skip(data, at, Post(at, x), rest);
      assert data[at] == data[at..at + 1][0];
    } else {
      ReadWrittenPost(data, at, x, rest);
    }
    var pdcWritten := data[at];
    pos := at + 1;
    if pdcWritten {
      pos := Align(pos);
      var streamEnd := Value(data[pos..pos + 32]);
      var networkId := Value(data[pos + 32..pos + 96]);
      pos := pos + 96;
      var calls := [];
      if kept {
        pos := Align(pos);
        calls := [pos];
        pos := a.postConsumed;
      }
      pos := streamEnd;
      visit := PostVisit(at, true, networkId, calls, kept);
    } else {
      visit := PostVisit(at, false, 0, [], kept);
    }
  }

  lemma {:induction false} RecordsEndLater(o: nat, xs: seq<Item>)
    ensures AfterRecords(o, xs) >= o
    ensures xs != [] ==> AfterRecords(o, xs) >= End(o, xs[0])
    decreases |xs|
  {
    if xs != [] { RecordsEndLater(End(o, xs[0]), xs[1..]); }
  }

  lemma {:induction false} PostsEndLater(o: nat, xs: seq<Item>)
    ensures AfterPosts(o, xs) >= o
    ensures xs != [] ==> AfterPosts(o, xs) >= PostEnd(o, xs[0])
    decreases |xs|
  {
    if xs != [] { PostsEndLater(PostEnd(o, xs[0]), xs[1..]); }
  }

  /** The first loop of `OnConstruction`. */
  method ReadRecords(data: Bits, n: nat, react: nat -> Reaction, ghost xs: seq<Item>, ghost rest: Bits)
    returns (visits: seq<Visit>, stack: seq<bool>, pos: nat)
    requires HEADER <= |data| && data[HEADER..] == Records(HEADER, xs) + rest && n == |xs|
    requires AfterRecords(HEADER, xs) < Pow2(32) && forall x :: x in xs ==> Encodable(x)
    ensures visits == ExpectedVisits(HEADER, xs, react, 0)
    ensures |stack| == n && forall k :: 0 <= k < n ==> stack[k] == Kept(xs[k].create, react(k))
    ensures pos == AfterRecords(HEADER, xs) && pos <= |data| && data[pos..] == rest
  {
    hide Record, End, Expected, Pow2, Kept;
    visits, stack, pos := [], [], HEADER;
    var index := 0;
    while index < n
      invariant index <= n && pos <= |data|
      invariant data[pos..] == Records(pos, xs[index..]) + rest
      invariant AfterRecords(pos, xs[index..]) == AfterRecords(HEADER, xs)
      invariant visits + ExpectedVisits(pos, xs[index..], react, index) == ExpectedVisits(HEADER, xs, react, 0)
      invariant |stack| == index && forall k :: 0 <= k < index ==> stack[k] == Kept(xs[k].create, react(k))
    {
      ghost var left := xs[index..];
      assert left[1..] == xs[index + 1..];
      RecordsEndLater(pos, left);
      Assoc(Record(pos, left[0]), Records(End(pos, left[0]), left[1..]), rest);
      ghost var was, start := visits, pos;
      var visit, next := ReadRecord(data, pos, react(index), left[0], Records(End(pos, left[0]), left[1..]) + rest);
      visits, stack, pos := visits + [visit], stack + [visit.kept], next;
      VisitKeeps(start, left[0], react(index));
      assert was + ([visit] + ExpectedVisits(pos, left[1..], react, index + 1)) ==
        visits + ExpectedVisits(pos, left[1..], react, index + 1);
      index := index + 1;
    }
  }

  lemma VisitKeeps(o: nat, x: Item, a: Reaction)
    ensures Expected(o, x, a).kept == Kept(x.create, a)
  {}

  /** The second loop. */
  method ReadPosts(data: Bits, at: nat, stack: seq<bool>, react: nat -> Reaction, ghost xs: seq<Item>, ghost rest: Bits)
    returns (visits: seq<PostVisit>, pos: nat)
    requires at <= |data| && data[at..] == Posts(at, xs) + rest
    requires |stack| == |xs| && forall k :: 0 <= k < |xs| ==> stack[k] == Kept(xs[k].create, react(k))
    requires AfterPosts(at, xs) < Pow2(32) && forall x :: x in xs ==> Encodable(x)
    ensures visits == ExpectedPosts(at, xs, react, 0)
    ensures pos == AfterPosts(at, xs) && pos <= |data| && data[pos..] == rest
  {
    hide Post, PostEnd, ExpectedPost, Pow2, Kept;
    visits, pos := [], at;
    var index := 0;
    while index < |stack|
      invariant index <= |stack| && pos <= |data|
      invariant data[pos..] == Posts(pos, xs[index..]) + rest
      invariant AfterPosts(pos, xs[index..]) == AfterPosts(at, xs)
      invariant visits + ExpectedPosts(pos, xs[index..], react, index) == ExpectedPosts(at, xs, react, 0)
    {
      ghost var left := xs[index..];
      assert left[1..] == xs[index + 1..];
      PostsEndLater(pos, left);
      Assoc(Post(pos, left[0]), Posts(PostEnd(pos, left[0]), left[1..]), rest);
      ghost var was := visits;
      var visit, next := ReadPost(data, pos, stack[index], react(index), left[0],
        Posts(PostEnd(pos, left[0]), left[1..]) + rest);
      visits, pos := visits + [visit], next;
      assert was + ([visit] + ExpectedPosts(pos, left[1..], react, index + 1)) ==
        visits + ExpectedPosts(pos, left[1..], react, index + 1);
      index := index + 1;
    }
  }

  // ---- where the two sides part ----

  /** The number of records at the end whose post-construction flag is false. */
  function TrailingEmpty(xs: seq<Item>): (n: nat)
    ensures n <= |xs|
  {
    if xs == [] then 0
    else if TrailingEmpty(xs[1..]) == |xs| - 1 && xs[0].post == [] then |xs|
    else TrailingEmpty(xs[1..])
  }

  lemma {:induction false} RecordsAreAligned(o: nat, xs: seq<Item>)
    requires o % 8 == 0
    ensures AfterRecords(o, xs) % 8 == 0
    decreases |xs|
  {
    if xs != [] {
      hide Align;
      AlignIsNextMultiple((if xs[0].create then AllocEnd(o, xs[0]) else HeadEnd(o)) + |xs[0].body|);
      RecordsAreAligned(End(o, xs[0]), xs[1..]);
    }
  }

  lemma DropMultiple(e: nat, n: nat)
    requires e % 8 == 0
    ensures (e + n) % 8 == n % 8
  {}

  lemma {:induction false} PostsAlignment(o: nat, xs: seq<Item>)
    ensures AfterPosts(o, xs) % 8 == (if TrailingEmpty(xs) == |xs| then o + |xs| else TrailingEmpty(xs)) % 8
    decreases |xs|
  {
    if xs != [] {
      hide Align;
      AlignIsNextMultiple(PostStart(o) + |xs[0].post|);
      PostsAlignment(PostEnd(o, xs[0]), xs[1..]);
      if xs[0].post != [] { DropMultiple(PostEnd(o, xs[0]), |xs| - 1); }
    }
  }

  /**
   The reader, which does not pad before the destruction count, is at the writer's count exactly
   when the number of trailing records without post-construction data is a multiple of eight.
   */
  lemma {:induction false} CountInStep(xs: seq<Item>)
    ensures AfterPosts(AfterRecords(HEADER, xs), xs) == CountAt(xs) <==> TrailingEmpty(xs) % 8 == 0
  {
    hide Align, AfterRecords, AfterPosts, TrailingEmpty;
    var o := AfterRecords(HEADER, xs);
    RecordsAreAligned(HEADER, xs);
    PostsAlignment(o, xs);
    AlignIsNextMultiple(AfterPosts(o, xs));
    DropMultiple(o, |xs|);
  }

  /**
   `OnConstruction` up to the destruction count, on any message of the writer followed by any bits.
   Whatever is skipped and however far the callbacks read, every record is found where it was
   written, with its own fields, and every callback starts on the bits written for it.
   */
  method OnConstruction(data: Bits, react: nat -> Reaction,
                        ghost message: nat, ghost world: nat, ghost xs: seq<Item>, ghost rest: Bits)
    returns (visits: seq<Visit>, posts: seq<PostVisit>, pos: nat)
    requires data == Written(message, world, xs) + rest
    requires |xs| < 0x1_0000 && CountAt(xs) < 0x1_0000_0000 && forall x :: x in xs ==> Encodable(x)
    ensures visits == ExpectedVisits(HEADER, xs, react, 0)
    ensures posts == ExpectedPosts(AfterRecords(HEADER, xs), xs, react, 0)
    ensures pos == CountAt(xs) <==> TrailingEmpty(xs) % 8 == 0
  {
    hide Records, Posts, AfterPosts;
    ghost var p := AfterRecords(HEADER, xs);
    ghost var tail := Pad(AfterPosts(p, xs)) + rest;
    ReadCount(data, message, world, xs, rest);
    var constructionObjectListSize := Value(data[16..32]);
    assert Pow2(32) == 0x1_0000_0000 by { Pow2Of32(); }
    PostsEndLater(p, xs);
    var stack;
    visits, stack, pos := ReadRecords(data, constructionObjectListSize, react, xs, Posts(p, xs) + tail);
    posts, pos := ReadPosts(data, pos, stack, react, xs, tail);
    CountInStep(xs);
  }

  lemma {:induction false} ReadCount(data: Bits, message: nat, world: nat, xs: seq<Item>, rest: Bits)
    requires data == Written(message, world, xs) + rest && |xs| < 0x1_0000
    ensures HEADER <= |data| && Value(data[16..32]) == |xs|
    ensures var p := AfterRecords(HEADER, xs);
      data[HEADER..] == Records(HEADER, xs) + (Posts(p, xs) + (Pad(AfterPosts(p, xs)) + rest))
  {
    hide Number, Value, Records, Posts, AfterPosts, AfterRecords, Align, Pad;
    var p := AfterRecords(HEADER, xs);
    var front, count := Number(message, 8) + Number(world, 8), Number(|xs| % 0x1_0000, 16);
    var tail := Pad(AfterPosts(p, xs));
    var body := Records(HEADER, xs) + (Posts(p, xs) + (tail + rest));
    assert data == front + (count + body) by {
      Regroup(front + count, Records(HEADER, xs), Posts(p, xs), tail, rest);
      Assoc(front, count, body);
    }
    assert data[0..] == data;
    Skip(data, 0, front, count + body);
    Pow2Of32();
    ReadNumber(data, 16, |xs| % 0x1_0000, 16, body);
  }

  lemma Regroup(a: Bits, b: Bits, c: Bits, d: Bits, e: Bits)
    ensures a + b + c + d + e == a + (b + (c + (d + e)))
  {
    Assoc(a + b + c, d, e);
    Assoc(a + b, c, d + e);
    Assoc(a, b, c + (d + e));
  }

  lemma Pow2Of32()
    ensures Pow2(16) == 0x1_0000 && Pow2(32) == 0x1_0000_0000
  {
    assert Pow2(8) == 256;
    assert Pow2(16) == 0x1_0000;
    assert Pow2(24) == 0x100_0000;
  }
}
