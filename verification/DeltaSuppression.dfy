/**
 `SendSerializeIfChanged` for a replica that answers SERIALIZED_UNIQUELY: only channels that differ
 from the cached stream are sent, and nothing is lost by that.
 */
module DeltaSuppression {
  import opened Sequences
  import opened SerializeChannels

  /** A message on its way: its send parameters and the channels its items decode to. */
  datatype Chunk = Chunk(pro: Pro, channels: seq<Option<Bits>>)

  /** `lastSerializationResultBS` at the sender, the messages in flight, the receiver's last streams. */
  datatype Link = Link(cache: seq<Bits>, flight: seq<Chunk>, last: seq<Bits>)

  /** Which channels of `output` are sent. */
  function Changed(cache: seq<Bits>, output: seq<Bits>): (r: seq<bool>)
    requires |cache| == |output|
    ensures |r| == |output|
  {
    seq(|output|, z requires 0 <= z < |output| => |output[z]| > 0 && output[z] != cache[z])
  }

  function Updated(cache: seq<Bits>, output: seq<Bits>): (r: seq<Bits>)
    requires |cache| == |output|
    ensures |r| == |output|
  {
    seq(|output|, z requires 0 <= z < |output| => if Changed(cache, output)[z] then output[z] else cache[z])
  }

  /** Any output that was not empty is what the cache holds afterwards. */
  lemma CacheHoldsOutput(cache: seq<Bits>, output: seq<Bits>, z: nat)
    requires |cache| == |output| && z < |output|
    ensures Updated(cache, output)[z] == if |output[z]| > 0 then output[z] else cache[z]
  {
    assert Changed(cache, output)[z] <==> |output[z]| > 0 && output[z] != cache[z];
  }

  /**
   What a receiver decodes from the messages of one tick: on every channel the new stream, if it is
   neither empty nor equal to the one sent last, and nothing otherwise.
   */
  lemma {:induction false} ExactlyTheChanges(cache: seq<Bits>, header: Header, output: seq<Bits>, pros: seq<Pro>, z: nat)
    requires |cache| == |output| == |pros| && z < |output|
    ensures var ms := Sent(Call(header, Changed(cache, output), output, pros));
      MergeAll(|output|, Decoded(ms, |output|))[z] ==
        if output[z] != [] && output[z] != cache[z] then Some(output[z]) else None
  {
    var c := Call(header, Changed(cache, output), output, pros);
    var bounds := SplittingIsExact(c);
    hide Sent, MergeAll, Decoded, Partition;
    assert Wanted(c)[z] == if Selected(c, z) then Some(output[z]) else None;
  }

  /** Nothing at all is sent exactly when no channel has changed. */
  lemma NothingWithoutChange(cache: seq<Bits>, header: Header, output: seq<Bits>, pros: seq<Pro>)
    requires |cache| == |output| == |pros| > 0
    ensures Sent(Call(header, Changed(cache, output), output, pros)) == [] <==>
      forall z :: 0 <= z < |output| ==> output[z] == [] || output[z] == cache[z]
  {
    var c := Call(header, Changed(cache, output), output, pros);
    FewMessages(c);
    assert forall z: nat :: z < |output| ==> (c.indices[z] <==> output[z] != [] && output[z] != cache[z]);
    hide Sent;
  }

  class LastSerialization {
    var streams: seq<Bits>   // lastSerializationResultBS->bitStream, empty until AllocBS

    constructor (channels: nat)
      ensures streams == seq(channels, _ => [])
    {
      streams := seq(channels, _ => []);
    }

    /** The comparison loop: remembers every stream that changed. */
    method CompareChannels(output: seq<Bits>) returns (indicesToSend: seq<bool>)
      requires |streams| == |output|
      modifies this
      ensures streams == Updated(old(streams), output)
      ensures indicesToSend == Changed(old(streams), output)
      ensures forall z :: 0 <= z < |output| ==> (indicesToSend[z] <==> output[z] != [] && output[z] != old(streams)[z])
    {
      indicesToSend := [];
      ghost var was := streams;
      var z := 0;
      while z < |output|
        invariant |indicesToSend| == z <= |output| == |streams|
        invariant forall k :: 0 <= k < z ==> indicesToSend[k] == Changed(was, output)[k] && streams[k] == Updated(was, output)[k]
        invariant forall k :: z <= k < |output| ==> streams[k] == was[k]
      {
        if |output[z]| > 0 && output[z] != streams[z] {
          indicesToSend := indicesToSend + [true];
          streams := streams[z := output[z]];
        } else {
          indicesToSend := indicesToSend + [false];
        }
        z := z + 1;
      }
    }

    /** The SERIALIZED_UNIQUELY branch, from the sum over the output on. */
    method SendSerializeIfChanged(header: Header, output: seq<Bits>, pros: seq<Pro>) returns (messages: seq<Message>)
      requires |streams| == |output| == |pros| > 0
      modifies this
      ensures streams == Updated(old(streams), output)
      ensures messages == Sent(Call(header, Changed(old(streams), output), output, pros))
      ensures messages == [] <==> forall z :: 0 <= z < |output| ==> output[z] == [] || output[z] == old(streams)[z]
      ensures forall z :: 0 <= z < |output| ==>
        MergeAll(|output|, Decoded(messages, |output|))[z] ==
          if output[z] != [] && output[z] != old(streams)[z] then Some(output[z]) else None
    {
      NothingWithoutChange(streams, header, output, pros);
      forall z | 0 <= z < |output|
        ensures MergeAll(|output|, Decoded(Sent(Call(header, Changed(streams, output), output, pros)), |output|))[z] ==
          if output[z] != [] && output[z] != streams[z] then Some(output[z]) else None
      {
        ExactlyTheChanges(streams, header, output, pros, z);
      }
      hide Sent, MergeAll, Decoded;
      var indicesToSend := CompareChannels(output);
      messages := SendSerialize(Call(header, indicesToSend, output, pros));
    }
  }

  // ---- what is in flight ----

  /** Delivering a message replaces the streams it carries. */
  function Receive(last: seq<Bits>, c: Chunk): seq<Bits>
    requires |c.channels| == |last|
  {
    seq(|last|, z requires 0 <= z < |last| => if c.channels[z].Some? then c.channels[z].value else last[z])
  }

  ghost predicate LinkOk(l: Link, pros: seq<Pro>) {
    && |l.cache| == |l.last| == |pros| > 0
    && forall k :: 0 <= k < |l.flight| ==> ChunkOk(l.flight[k], pros)
  }

  /** A message carries a channel only under the channel's own send parameters. */
  ghost predicate ChunkOk(c: Chunk, pros: seq<Pro>) {
    |c.channels| == |pros| && forall z :: 0 <= z < |pros| && c.channels[z].Some? ==> c.pro == pros[z]
  }

  /** What channel `z` holds once everything in flight has arrived in order. */
  ghost function Drained(flight: seq<Chunk>, z: nat, value: Bits): Bits
    requires forall k :: 0 <= k < |flight| ==> z < |flight[k].channels|
    decreases |flight|
  {
    if flight == [] then value
    else Drained(flight[1..], z, if flight[0].channels[z].Some? then flight[0].channels[z].value else value)
  }

  /** On every channel the receiver will end up with the sender's cached stream. */
  ghost predicate NothingLost(l: Link, pros: seq<Pro>) {
    LinkOk(l, pros) && forall z :: 0 <= z < |pros| ==> Drained(l.flight, z, l.last[z]) == l.cache[z]
  }

  lemma {:induction false} DrainedAppend(flight: seq<Chunk>, more: seq<Chunk>, z: nat, value: Bits)
    requires forall k :: 0 <= k < |flight| ==> z < |flight[k].channels|
    requires forall k :: 0 <= k < |more| ==> z < |more[k].channels|
    ensures Drained(flight + more, z, value) == Drained(more, z, Drained(flight, z, value))
    decreases |flight|
  {
    if flight == [] {
      assert flight + more == more;
    } else {
      assert (flight + more)[1..] == flight[1..] + more;
      DrainedAppend(flight[1..], more, z, if flight[0].channels[z].Some? then flight[0].channels[z].value else value);
    }
  }

  /** Messages that do not carry a channel leave it alone. */
  lemma {:induction false} DrainedPast(flight: seq<Chunk>, z: nat, value: Bits)
    requires forall k :: 0 <= k < |flight| ==> z < |flight[k].channels| && flight[k].channels[z].None?
    ensures Drained(flight, z, value) == value
    decreases |flight|
  {
    if flight != [] { DrainedPast(flight[1..], z, value); }
  }

  // ---- sending ----

  /** The messages of one call. */
  ghost function Chunks(c: Call): (r: seq<Chunk>)
    requires CallOk(c)
    ensures |r| == |Sent(c)| && forall k :: 0 <= k < |r| ==> |r[k].channels| == |c.indices|
  {
    seq(|Sent(c)|, k requires 0 <= k < |Sent(c)| => Chunk(Sent(c)[k].pro, Decode(Sent(c)[k].items, |c.indices|)))
  }

  lemma {:induction false} MergeIsDrain(n: nat, chunks: seq<Chunk>, decoded: seq<seq<Option<Bits>>>, z: nat, value: Bits)
    requires |decoded| == |chunks| && z < n
    requires forall k :: 0 <= k < |chunks| ==> chunks[k].channels == decoded[k] && |decoded[k]| == n
    ensures Drained(chunks, z, value) == if MergeAll(n, decoded)[z].Some? then MergeAll(n, decoded)[z].value else value
    decreases |chunks|
  {
    if chunks != [] {
      var k := |chunks| - 1;
      MergeIsDrain(n, chunks[..k], decoded[..k], z, value);
      assert chunks == chunks[..k] + [chunks[k]];
      DrainedAppend(chunks[..k], [chunks[k]], z, value);
      assert [chunks[k]][1..] == [];
    }
  }

  /** A tick of the sender: the cache takes over what changed, and the messages of the call are sent. */
  ghost function Serialize(l: Link, c: Call): Link
    requires CallOk(c) && |l.cache| == |c.data|
  {
    Link(Updated(l.cache, c.data), l.flight + Chunks(c), l.last)
  }

  lemma ChunksOk(c: Call)
    requires CallOk(c)
    ensures forall k :: 0 <= k < |Chunks(c)| ==> ChunkOk(Chunks(c)[k], c.pros)
  {
    var bounds := SplittingIsExact(c);
    hide MergeAll, Decode, Sent;
    forall k | 0 <= k < |Chunks(c)| ensures ChunkOk(Chunks(c)[k], c.pros) {
      assert GroupOf(c, Sent(c)[k], bounds[k], bounds[k + 1]);
      DecodedGroup(c, Sent(c)[k], bounds[k], bounds[k + 1]);
    }
  }

  lemma SerializeKeepsLink(l: Link, c: Call)
    requires CallOk(c) && LinkOk(l, c.pros)
    ensures LinkOk(Serialize(l, c), c.pros)
  {
    ChunksOk(c);
    hide Chunks;
    var m := Serialize(l, c);
    forall k | 0 <= k < |m.flight| ensures ChunkOk(m.flight[k], c.pros) {
      if k < |l.flight| {
        assert ChunkOk(l.flight[k], c.pros);
      } else {
        assert m.flight[k] == Chunks(c)[k - |l.flight|];
      }
    }
  }

  /** Draining the messages of one call leaves what was wanted, and the rest as it was. */
  lemma {:induction false} ChunksDrain(c: Call, z: nat, value: Bits)
    requires CallOk(c) && z < |c.pros|
    ensures Drained(Chunks(c), z, value) == if Selected(c, z) then c.data[z] else value
  {
    var bounds := SplittingIsExact(c);
    hide MergeAll, Carried, Decode, Sent, Partition;
    MergeIsDrain(|c.indices|, Chunks(c), Decoded(Sent(c), |c.indices|), z, value);
  }

  /** A tick of the sender loses nothing, whatever changed. */
  lemma SerializeLosesNothing(l: Link, c: Call)
    requires CallOk(c) && NothingLost(l, c.pros) && c.indices == Changed(l.cache, c.data)
    ensures NothingLost(Serialize(l, c), c.pros)
  {
    SerializeKeepsLink(l, c);
    var m := Serialize(l, c);
    hide Sent, Chunks;
    forall z | 0 <= z < |c.pros| ensures Drained(m.flight, z, m.last[z]) == m.cache[z] {
      forall k | 0 <= k < |l.flight| ensures z < |l.flight[k].channels| { assert ChunkOk(l.flight[k], c.pros); }
      ChunksDrain(c, z, Drained(l.flight, z, l.last[z]));
      DrainedAppend(l.flight, Chunks(c), z, l.last[z]);
      assert Selected(c, z) <==> c.indices[z];
    }
  }

  // ---- delivering ----

  /** Message `j` may arrive next: its ordering channel keeps its order, others may be overtaken. */
  ghost predicate Deliverable(l: Link, j: nat) {
    j < |l.flight| && forall k :: 0 <= k < j ==> l.flight[k].pro != l.flight[j].pro
  }

  ghost function Deliver(l: Link, j: nat): Link
    requires j < |l.flight| && |l.flight[j].channels| == |l.last|
  {
    Link(l.cache, RemoveAt(l.flight, j), Receive(l.last, l.flight[j]))
  }

  lemma DeliverLosesNothing(l: Link, j: nat, pros: seq<Pro>)
    requires NothingLost(l, pros) && Deliverable(l, j)
    ensures |l.flight[j].channels| == |l.last| && NothingLost(Deliver(l, j), pros)
  {
    assert ChunkOk(l.flight[j], pros);
    var m := Deliver(l, j);
    var before, here, after := l.flight[..j], l.flight[j], l.flight[j + 1..];
    assert l.flight == before + ([here] + after) && m.flight == before + after;
    forall k | 0 <= k < |m.flight| ensures ChunkOk(m.flight[k], pros) {
      assert ChunkOk(l.flight[if k < j then k else k + 1], pros);
    }
    forall z | 0 <= z < |pros| ensures Drained(m.flight, z, m.last[z]) == m.cache[z] {
      DrainedAppend(before, [here] + after, z, l.last[z]);
      DrainedAppend(before, after, z, m.last[z]);
      if here.channels[z].Some? {
        forall k | 0 <= k < |before| ensures before[k].channels[z].None? {
          assert ChunkOk(l.flight[k], pros) && l.flight[k].pro != here.pro;
        }
        DrainedPast(before, z, l.last[z]);
        DrainedPast(before, z, m.last[z]);
      }
      assert ([here] + after)[1..] == after;
    }
  }

  // ---- whole runs ----

  datatype Step = Tick(header: Header, output: seq<Bits>) | Arrive(j: nat)

  /** `l'` is reached from `l` by one step; a tick sends the messages of `SendSerialize`. */
  ghost predicate Next(l: Link, pros: seq<Pro>, s: Step, l': Link) {
    LinkOk(l, pros) &&
    match s
    case Tick(header, output) =>
      |output| == |pros| && l' == Serialize(l, Call(header, Changed(l.cache, output), output, pros))
    case Arrive(j) => Deliverable(l, j) && |l.flight[j].channels| == |l.last| && l' == Deliver(l, j)
  }

  ghost predicate Run(ls: seq<Link>, pros: seq<Pro>, steps: seq<Step>) {
    |ls| == |steps| + 1 && forall k :: 0 <= k < |steps| ==> Next(ls[k], pros, steps[k], ls[k + 1])
  }

  lemma NextLosesNothing(l: Link, pros: seq<Pro>, s: Step, l': Link)
    requires NothingLost(l, pros) && Next(l, pros, s, l')
    ensures NothingLost(l', pros)
  {
    match s
    case Tick(header, output) => SerializeLosesNothing(l, Call(header, Changed(l.cache, output), output, pros));
    case Arrive(j) => DeliverLosesNothing(l, j, pros);
  }

  /**
   Over every run of ticks and deliveries that keeps each ordering channel in order: once nothing
   that carries a channel is in flight, the receiver's last stream on it is the sender's cached one.
   */
  lemma {:induction false} SuppressionLosesNothing(ls: seq<Link>, pros: seq<Pro>, steps: seq<Step>, n: nat, z: nat)
    requires Run(ls, pros, steps) && NothingLost(ls[0], pros) && n < |ls| && z < |pros|
    ensures NothingLost(ls[n], pros)
    ensures (forall k :: 0 <= k < |ls[n].flight| ==> ls[n].flight[k].channels[z].None?) ==> ls[n].last[z] == ls[n].cache[z]
    decreases n
  {
    if n > 0 {
      SuppressionLosesNothing(ls, pros, steps, n - 1, z);
      NextLosesNothing(ls[n - 1], pros, steps[n - 1], ls[n]);
    }
    if forall k :: 0 <= k < |ls[n].flight| ==> ls[n].flight[k].channels[z].None? {
      DrainedPast(ls[n].flight, z, ls[n].last[z]);
    }
  }
}
