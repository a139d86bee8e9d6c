/**
 `Connection_RM3::SendSerialize` and `ReplicaManager3::OnSerialize`: the output channels of one
 replica are spread over messages by their send parameters, and put together again.
 */
module SerializeChannels {
  import opened Sequences

  /** `PRO`, the send parameters of a channel. */
  datatype Pro = Pro(priority: nat, reliability: nat, orderingChannel: nat, sendReceipt: nat)

  datatype Header = Header(timestamp: nat, worldId: nat, networkId: nat)

  /** What is written to the bit stream, item by item. */
  datatype Item = Flag(set_: bool) | Length(n: nat) | Alignment | Data(bits: Bits)

  /** `reported` is the `bitsPerChannel` handed to `OnSerializeTransmission`. */
  datatype Message = Message(header: Header, items: seq<Item>, pro: Pro, reported: seq<nat>)

  // ---- one message ----

  /** One channel of a message: a flag, and behind a set flag the data. */
  function EncodeChannel(c: Option<Bits>): seq<Item> {
    match c
    case None => [Flag(false)]
    case Some(bits) => [Flag(true), Length(|bits|), Alignment, Data(bits)]
  }

  function Encode(cs: seq<Option<Bits>>): seq<Item> {
    if cs == [] then [] else EncodeChannel(cs[0]) + Encode(cs[1..])
  }

  function Flags(items: seq<Item>): nat {
    if items == [] then 0 else (if items[0].Flag? then 1 else 0) + Flags(items[1..])
  }

  lemma {:induction false} EncodeAppend(cs: seq<Option<Bits>>, ds: seq<Option<Bits>>)
    ensures Encode(cs + ds) == Encode(cs) + Encode(ds)
  {
    hide EncodeChannel;
    if cs == [] {
      assert cs + ds == ds;
    } else {
      EncodeAppend(cs[1..], ds);
      assert (cs + ds)[1..] == cs[1..] + ds;
      assert Encode(cs + ds) == EncodeChannel(cs[0]) + (Encode(cs[1..]) + Encode(ds));
    }
  }

  lemma {:induction false} EncodeOne(cs: seq<Option<Bits>>, c: Option<Bits>)
    ensures Encode(cs + [c]) == Encode(cs) + EncodeChannel(c)
  {
    EncodeAppend(cs, [c]);
    assert [c][1..] == [];
  }

  lemma {:induction false} FlagsAppend(s: seq<Item>, t: seq<Item>)
    ensures Flags(s + t) == Flags(s) + Flags(t)
  {
    if s == [] {
      assert s + t == t;
    } else {
      FlagsAppend(s[1..], t);
      assert (s + t)[1..] == s[1..] + t;
    }
  }

  lemma OneFlag(c: Option<Bits>)
    ensures Flags(EncodeChannel(c)) == 1
  {
    var e := EncodeChannel(c);
    if c.None? {
      assert e[1..] == [];
    } else {
      var rest := [Length(|c.value|), Alignment, Data(c.value)];
      assert e[1..] == rest && rest[1..] == [Alignment, Data(c.value)];
      assert rest[1..][1..] == [Data(c.value)] && rest[1..][1..][1..] == [];
      assert Flags([Data(c.value)]) == 0;
      assert Flags(rest) == 0;
    }
  }

  /** A message carries exactly one flag per channel. */
  lemma {:induction false} OneFlagPerChannel(cs: seq<Option<Bits>>)
    ensures Flags(Encode(cs)) == |cs|
  {
    if cs != [] {
      OneFlagPerChannel(cs[1..]);
      FlagsAppend(EncodeChannel(cs[0]), Encode(cs[1..]));
      OneFlag(cs[0]);
    }
  }

  // ---- the receiver ----

  /** The `n` channels that `items` encode, as the receiver reads them. */
  function Decode(items: seq<Item>, n: nat): (cs: seq<Option<Bits>>)
    ensures |cs| == n
    decreases n
  {
    if n == 0 then []
    else if |items| >= 4 && items[0] == Flag(true) && items[1].Length? && items[3].Data? && items[1].n <= |items[3].bits|
    then [Some(items[3].bits[..items[1].n])] + Decode(items[4..], n - 1)
    else [None] + Decode(if items == [] then [] else items[1..], n - 1)
  }

  lemma {:induction false} DecodeFirst(c: Option<Bits>, rest: seq<Item>, n: nat)
    ensures Decode(EncodeChannel(c) + rest, n + 1) == [c] + Decode(rest, n)
  {
    var items := EncodeChannel(c) + rest;
    if c.Some? {
      assert items[4..] == rest && c.value[..|c.value|] == c.value;
    } else {
      assert items[1..] == rest;
    }
  }

  /** Decoding a message gives back its channels. */
  lemma {:induction false} DecodeEncode(cs: seq<Option<Bits>>)
    ensures Decode(Encode(cs), |cs|) == cs
  {
    if cs != [] {
      DecodeFirst(cs[0], Encode(cs[1..]), |cs| - 1);
      DecodeEncode(cs[1..]);
    }
  }

  method ReadChannel(items: seq<Item>, at: nat, ghost x: Option<Bits>, ghost rest: seq<Item>)
    returns (stream: Option<Bits>, next: nat)
    requires at <= |items| && items[at..] == EncodeChannel(x) + rest
    ensures stream == x && next <= |items| && items[next..] == rest
  {
    ghost var here := EncodeChannel(x);
    assert forall k :: 0 <= k < |here| ==> items[at + k] == items[at..][k] == here[k];
    assert items[at + |here|..] == items[at..][|here|..];
    assert items[at + 0] == here[0];
    var bitstreamWrittenTo := items[at].set_;
    if bitstreamWrittenTo {
      assert items[at + 1] == here[1] && items[at + 3] == here[3];
      assert x.value[..|x.value|] == x.value;
      var bitsUsed := items[at + 1].n;
      stream := Some(items[at + 3].bits[..bitsUsed]);
      next := at + 4;
    } else {
      stream := None;
      next := at + 1;
    }
  }

  /** The channel loop of `OnSerialize`: `None` is a channel that was not written to. */
  method OnSerialize(items: seq<Item>, channels: nat, ghost cs: seq<Option<Bits>>) returns (streams: seq<Option<Bits>>)
    requires items == Encode(cs) && |cs| == channels
    ensures streams == cs == Decode(items, channels)
  {
    DecodeEncode(cs);
    hide EncodeChannel, Decode;
    streams := [];
    var at: nat := 0;
    for z := 0 to channels
      invariant at <= |items| && items[at..] == Encode(cs[z..])
      invariant streams == cs[..z]
    {
      assert cs[z..][1..] == cs[z + 1..] && cs[z..][0] == cs[z];
      var stream;
      stream, at := ReadChannel(items, at, cs[z], Encode(cs[z + 1..]));
      streams := streams + [stream];
    }
  }

  /** What the receiver ends up with after one more message. */
  function Merge(have: seq<Option<Bits>>, got: seq<Option<Bits>>): seq<Option<Bits>>
    requires |have| == |got|
  {
    seq(|have|, z requires 0 <= z < |have| => if got[z].Some? then got[z] else have[z])
  }

  // ---- the sender ----

  /** The channels of one call. */
  datatype Call = Call(header: Header, indices: seq<bool>, data: seq<Bits>, pros: seq<Pro>)

  ghost predicate CallOk(c: Call) {
    |c.indices| == |c.data| == |c.pros| > 0
  }

  predicate Selected(c: Call, z: nat)
    requires z < |c.indices| && z < |c.data|
  {
    c.indices[z] && |c.data[z]| > 0
  }

  /** The channels that a message for the group `a..b` carries, up to channel `n`. */
  function Carried(c: Call, a: nat, b: nat, n: nat): (cs: seq<Option<Bits>>)
    requires n <= |c.indices| && n <= |c.data|
    ensures |cs| == n
  {
    seq(n, z requires 0 <= z < n => if a <= z < b && Selected(c, z) then Some(c.data[z]) else None)
  }

  function Reported(cs: seq<Option<Bits>>): seq<nat> {
    seq(|cs|, z requires 0 <= z < |cs| => if cs[z].Some? then |cs[z].value| else 0)
  }

  function GroupMessage(c: Call, a: nat, b: nat): Message
    requires |c.indices| == |c.data| && a < |c.pros|
  {
    var cs := Carried(c, a, b, |c.indices|);
    Message(c.header, Encode(cs), c.pros[a], Reported(cs))
  }

  predicate NoDataFrom(c: Call, z: nat) {
    forall k :: z <= k < |c.data| ==> c.data[k] == []
  }

  /** The messages sent from channel `i` on, when the current group started at `a`. */
  ghost function Groups(c: Call, a: nat, i: nat): seq<Message>
    requires CallOk(c) && a < i <= |c.pros|
    decreases |c.pros| - i
  {
    if i == |c.pros| then [GroupMessage(c, a, i)]
    else if c.pros[i] != c.pros[a] then
      [GroupMessage(c, a, i)] + (if NoDataFrom(c, i) then [] else Groups(c, i, i + 1))
    else Groups(c, a, i + 1)
  }

  ghost predicate NothingSelected(c: Call)
    requires CallOk(c)
  {
    forall z :: 0 <= z < |c.indices| ==> !Selected(c, z)
  }

  ghost function Sent(c: Call): seq<Message>
    requires CallOk(c)
  {
    if NothingSelected(c) then [] else Groups(c, 0, 1)
  }

  method SumOfBits(c: Call) returns (sum: nat)
    requires CallOk(c)
    ensures sum == 0 <==> NothingSelected(c)
  {
    sum := 0;
    for z := 0 to |c.indices|
      invariant sum == 0 <==> forall k :: 0 <= k < z ==> !Selected(c, k)
    {
      assert Selected(c, z) <==> c.indices[z] && |c.data[z]| > 0;
      if c.indices[z] {
        sum := sum + |c.data[z]|;
      }
    }
  }

  /** The remainder of a message: no data for the channels that other messages carry. */
  method WriteRemainder(out: seq<Item>, bitsPerChannel: seq<nat>, channelIndex: nat, ghost cs: seq<Option<Bits>>)
    returns (full: seq<Item>, reported: seq<nat>)
    requires channelIndex <= |cs| == |bitsPerChannel|
    requires out == Encode(cs[..channelIndex]) && forall z :: channelIndex <= z < |cs| ==> cs[z] == None
    requires bitsPerChannel[..channelIndex] == Reported(cs[..channelIndex])
    ensures full == Encode(cs) && reported == Reported(cs)
  {
    full, reported := out, bitsPerChannel;
    for channelIndex2 := channelIndex to |bitsPerChannel|
      invariant full == Encode(cs[..channelIndex2])
      invariant |reported| == |cs| && reported[..channelIndex2] == Reported(cs[..channelIndex2])
    {
      assert cs[..channelIndex2 + 1] == cs[..channelIndex2] + [None];
      EncodeOne(cs[..channelIndex2], None);
      ghost var was := reported;
      reported := reported[channelIndex2 := 0];
      assert reported[..channelIndex2 + 1] == was[..channelIndex2] + [0];
      full := full + [Flag(false)];
    }
    assert cs[..|cs|] == cs;
  }

  /** The start of a further message: no data for the channels already sent. */
  method WriteBlank(bitsPerChannel: seq<nat>, channelIndex: nat, ghost blank: seq<Option<Bits>>)
    returns (out: seq<Item>, reported: seq<nat>)
    requires channelIndex == |blank| <= |bitsPerChannel| && forall z :: 0 <= z < |blank| ==> blank[z] == None
    ensures out == Encode(blank)
    ensures |reported| == |bitsPerChannel| && reported[..channelIndex] == Reported(blank)
  {
    out, reported := [], bitsPerChannel;
    for channelIndex2 := 0 to channelIndex
      invariant out == Encode(blank[..channelIndex2])
      invariant |reported| == |bitsPerChannel| && reported[..channelIndex2] == Reported(blank[..channelIndex2])
    {
      assert blank[..channelIndex2 + 1] == blank[..channelIndex2] + [None];
      EncodeOne(blank[..channelIndex2], None);
      ghost var was := reported;
      reported := reported[channelIndex2 := 0];
      assert reported[..channelIndex2 + 1] == was[..channelIndex2] + [0];
      out := out + [Flag(false)];
    }
    assert blank[..|blank|] == blank;
  }

  /** The current message with channel `i` added. */
  lemma OneMoreChannel(c: Call, a: nat, i: nat)
    requires CallOk(c) && a <= i < |c.indices|
    ensures var channel := if Selected(c, i) then Some(c.data[i]) else None;
      && Carried(c, a, i + 1, i + 1) == Carried(c, a, i, i) + [channel]
      && Encode(Carried(c, a, i + 1, i + 1)) == Encode(Carried(c, a, i, i)) + EncodeChannel(channel)
      && Reported(Carried(c, a, i + 1, i + 1)) ==
         Reported(Carried(c, a, i, i)) + [if Selected(c, i) then |c.data[i]| else 0]
  {
    var channel := if Selected(c, i) then Some(c.data[i]) else None;
    assert Carried(c, a, i + 1, i + 1) == Carried(c, a, i, i) + [channel];
    EncodeOne(Carried(c, a, i, i), channel);
  }

  method WriteChannel(c: Call, out: seq<Item>, bitsPerChannel: seq<nat>, channelIndex: nat, ghost a: nat)
    returns (more: seq<Item>, reported: seq<nat>)
    requires CallOk(c) && a <= channelIndex < |c.indices| == |bitsPerChannel|
    requires out == Encode(Carried(c, a, channelIndex, channelIndex))
    requires bitsPerChannel[..channelIndex] == Reported(Carried(c, a, channelIndex, channelIndex))
    ensures more == Encode(Carried(c, a, channelIndex + 1, channelIndex + 1))
    ensures |reported| == |bitsPerChannel|
    ensures reported[..channelIndex + 1] == Reported(Carried(c, a, channelIndex + 1, channelIndex + 1))
  {
    OneMoreChannel(c, a, channelIndex);
    hide Encode, Reported;
    var bitsUsed := |c.data[channelIndex]|;
    var channelHasData := c.indices[channelIndex] && bitsUsed > 0;
    if channelHasData {
      reported := bitsPerChannel[channelIndex := bitsUsed];
      more := out + [Flag(true), Length(bitsUsed), Alignment, Data(c.data[channelIndex])];
    } else {
      reported := bitsPerChannel[channelIndex := 0];
      more := out + [Flag(false)];
    }
    assert reported[..channelIndex + 1] == bitsPerChannel[..channelIndex] + [reported[channelIndex]];
  }

  /** What was sent and what the rest of the loop will send. */
  lemma GroupsStep(c: Call, a: nat, i: nat, ms: seq<Message>)
    requires CallOk(c) && a < i < |c.pros| && c.pros[i] != c.pros[a]
    ensures ms + Groups(c, a, i) ==
      (ms + [GroupMessage(c, a, i)]) + if NoDataFrom(c, i) then [] else Groups(c, i, i + 1)
  {
    hide GroupMessage;
  }

  method SendSerialize(c: Call) returns (messages: seq<Message>)
    requires CallOk(c)
    ensures messages == Sent(c)
  {
    messages := [];
    var sum := SumOfBits(c);
    if sum == 0 {
      return;
    }
    var n := |c.indices|;
    var bitsPerChannel: seq<nat> := seq(n, _ => 0);
    var out: seq<Item> := [];
    var lastPro := c.pros[0];
    ghost var a: nat := 0;
    var channelIndex: nat := 0;
    hide Encode, Reported, NoDataFrom, Selected;
    EmptyMessage(c);
    while channelIndex < n
      invariant a <= channelIndex <= n && a < n && lastPro == c.pros[a] && |bitsPerChannel| == n
      invariant channelIndex == 0 ==> messages == []
      invariant channelIndex > 0 ==> a < channelIndex && messages + Groups(c, a, channelIndex) == Groups(c, 0, 1)
      invariant out == Encode(Carried(c, a, channelIndex, channelIndex))
      invariant bitsPerChannel[..channelIndex] == Reported(Carried(c, a, channelIndex, channelIndex))
    {
      if channelIndex > 0 && lastPro != c.pros[channelIndex] {
        ghost var cs := Carried(c, a, channelIndex, n);
        assert cs[..channelIndex] == Carried(c, a, channelIndex, channelIndex);
        var full, reported := WriteRemainder(out, bitsPerChannel, channelIndex, cs);
        GroupsStep(c, a, channelIndex, messages);
        messages := messages + [Message(c.header, full, lastPro, reported)];
        if NoDataFrom(c, channelIndex) {
          return;
        }
        a, lastPro := channelIndex, c.pros[channelIndex];
        out, bitsPerChannel := WriteBlank(reported, channelIndex, Carried(c, a, channelIndex, channelIndex));
      }
      out, bitsPerChannel := WriteChannel(c, out, bitsPerChannel, channelIndex, a);
      channelIndex := channelIndex + 1;
    }
    assert bitsPerChannel[..n] == bitsPerChannel;
    messages := messages + [Message(c.header, out, lastPro, bitsPerChannel)];
  }

  lemma EmptyMessage(c: Call)
    requires CallOk(c)
    ensures Encode(Carried(c, 0, 0, 0)) == [] && Reported(Carried(c, 0, 0, 0)) == []
  {}

  // ---- what the messages carry together ----

  /** `m` is the message of the channels `a..b`, which have the same send parameters. */
  ghost predicate GroupOf(c: Call, m: Message, a: nat, b: nat) {
    && CallOk(c) && a < b <= |c.pros|
    && m == GroupMessage(c, a, b)
    && forall z :: a <= z < b ==> c.pros[z] == c.pros[a]
  }

  /** `bounds[k]..bounds[k + 1]` is the group of message `k`. */
  ghost predicate Partition(c: Call, ms: seq<Message>, bounds: seq<nat>) {
    && |bounds| == |ms| + 1
    && forall k :: 0 <= k < |ms| ==> GroupOf(c, ms[k], bounds[k], bounds[k + 1])
  }

  /** The groups start at `a`, follow one another, and leave out only channels without data. */
  lemma {:induction false} GroupsPartition(c: Call, a: nat, i: nat) returns (bounds: seq<nat>)
    requires CallOk(c) && a < i <= |c.pros|
    requires forall z :: a <= z < i ==> c.pros[z] == c.pros[a]
    ensures Partition(c, Groups(c, a, i), bounds)
    ensures bounds[0] == a && NoDataFrom(c, bounds[|bounds| - 1])
    decreases |c.pros| - i
  {
    if i == |c.pros| {
      bounds := [a, i];
    } else if c.pros[i] != c.pros[a] {
      if NoDataFrom(c, i) {
        bounds := [a, i];
      } else {
        var rest := GroupsPartition(c, i, i + 1);
        bounds := [a] + rest;
        var ms := Groups(c, a, i);
        forall k | 0 <= k < |ms| ensures GroupOf(c, ms[k], bounds[k], bounds[k + 1]) {
          assert k > 0 ==> ms[k] == Groups(c, i, i + 1)[k - 1];
        }
      }
    } else {
      bounds := GroupsPartition(c, a, i + 1);
    }
  }

  /** Messages combined by a receiver that had nothing before; `decoded` holds their channels. */
  ghost function MergeAll(n: nat, decoded: seq<seq<Option<Bits>>>): (r: seq<Option<Bits>>)
    requires forall k :: 0 <= k < |decoded| ==> |decoded[k]| == n
    ensures |r| == n
  {
    if decoded == [] then seq(n, _ => None)
    else Merge(MergeAll(n, decoded[..|decoded| - 1]), decoded[|decoded| - 1])
  }

  /** What should arrive: the data of the selected, non-empty channels. */
  ghost function Wanted(c: Call): seq<Option<Bits>>
    requires CallOk(c)
  {
    seq(|c.indices|, z requires 0 <= z < |c.indices| => if Selected(c, z) then Some(c.data[z]) else None)
  }

  /** The channels that the receiver decodes from each message. */
  function Decoded(ms: seq<Message>, n: nat): (d: seq<seq<Option<Bits>>>)
    ensures |d| == |ms| && forall k :: 0 <= k < |d| ==> d[k] == Decode(ms[k].items, n)
  {
    seq(|ms|, k requires 0 <= k < |ms| => Decode(ms[k].items, n))
  }

  /** A message decodes to the channels of its group. */
  lemma DecodedGroup(c: Call, m: Message, a: nat, b: nat)
    requires GroupOf(c, m, a, b)
    ensures Decode(m.items, |c.indices|) == Carried(c, a, b, |c.indices|)
  {
    DecodeEncode(Carried(c, a, b, |c.indices|));
  }

  lemma MergeCarried(c: Call, a: nat, b: nat, n: nat)
    requires n <= |c.indices| && n <= |c.data| && a <= b
    ensures Merge(Carried(c, 0, a, n), Carried(c, a, b, n)) == Carried(c, 0, b, n)
  {}

  lemma {:induction false} MergePrefix(c: Call, ms: seq<Message>, bounds: seq<nat>, j: nat)
    requires CallOk(c) && Partition(c, ms, bounds) && bounds[0] == 0 && j <= |ms|
    ensures MergeAll(|c.indices|, Decoded(ms, |c.indices|)[..j]) == Carried(c, 0, bounds[j], |c.indices|)
    decreases j
  {
    hide Merge, GroupMessage, Decode;
    var n := |c.indices|;
    if j > 0 {
      MergePrefix(c, ms, bounds, j - 1);
      var d := Decoded(ms, n)[..j];
      assert d[..|d| - 1] == Decoded(ms, n)[..j - 1];
      assert GroupOf(c, ms[j - 1], bounds[j - 1], bounds[j]);
      DecodedGroup(c, ms[j - 1], bounds[j - 1], bounds[j]);
      hide Carried;
      MergeCarried(c, bounds[j - 1], bounds[j], n);
    } else {
      assert Decoded(ms, n)[..0] == [];
      assert Carried(c, 0, 0, n) == seq(n, _ => None);
    }
  }

  ghost predicate InGroup(bounds: seq<nat>, k: nat, z: nat) {
    k + 1 < |bounds| && bounds[k] <= z < bounds[k + 1]
  }

  lemma {:induction false} BoundsGrow(c: Call, ms: seq<Message>, bounds: seq<nat>, j: nat, k: nat)
    requires Partition(c, ms, bounds) && j <= k <= |ms|
    ensures bounds[j] <= bounds[k]
    decreases k
  {
    if j < k {
      BoundsGrow(c, ms, bounds, j, k - 1);
      assert GroupOf(c, ms[k - 1], bounds[k - 1], bounds[k]);
    }
  }

  /** A channel falls into at most one group. */
  lemma OneGroup(c: Call, ms: seq<Message>, bounds: seq<nat>, j: nat, k: nat, z: nat)
    requires Partition(c, ms, bounds) && InGroup(bounds, j, z) && InGroup(bounds, k, z)
    ensures j == k
  {
    if j < k { BoundsGrow(c, ms, bounds, j + 1, k); }
    if k < j { BoundsGrow(c, ms, bounds, k + 1, j); }
  }

  /** Between the first and the last bound it falls into some group. */
  lemma {:induction false} SomeGroup(c: Call, ms: seq<Message>, bounds: seq<nat>, z: nat, j: nat)
    requires Partition(c, ms, bounds) && j <= |ms| && bounds[0] <= z < bounds[j]
    ensures exists k: nat :: InGroup(bounds, k, z)
    decreases j
  {
    if bounds[j - 1] <= z {
      assert InGroup(bounds, j - 1, z);
    } else {
      SomeGroup(c, ms, bounds, z, j - 1);
    }
  }

  /**
   Splitting is exact for any number of channels. The messages belong to consecutive groups of
   channels with equal send parameters; a selected channel with data falls into exactly one group;
   and what the receiver decodes merges into exactly the selected data, although the sender stops early.
   */
  lemma SplittingIsExact(c: Call) returns (bounds: seq<nat>)
    requires CallOk(c)
    ensures Partition(c, Sent(c), bounds)
    ensures MergeAll(|c.indices|, Decoded(Sent(c), |c.indices|)) == Wanted(c)
    ensures forall z: nat :: z < |c.indices| && Selected(c, z) ==> exists k: nat :: InGroup(bounds, k, z)
    ensures forall j: nat, k: nat, z: nat :: InGroup(bounds, j, z) && InGroup(bounds, k, z) ==> j == k
  {
    var n := |c.indices|;
    var ms := Sent(c);
    if NothingSelected(c) {
      bounds := [0];
      assert Wanted(c) == seq(n, _ => None);
    } else {
      bounds := GroupsPartition(c, 0, 1);
      var last := bounds[|ms|];
      MergePrefix(c, ms, bounds, |ms|);
      assert Decoded(ms, n)[..|ms|] == Decoded(ms, n);
      AllCarried(c, last);
      forall z: nat | z < n && Selected(c, z) ensures exists k: nat :: InGroup(bounds, k, z) {
        SomeGroup(c, ms, bounds, z, |ms|);
      }
    }
    forall j: nat, k: nat, z: nat | InGroup(bounds, j, z) && InGroup(bounds, k, z) ensures j == k {
      OneGroup(c, ms, bounds, j, k, z);
    }
  }

  lemma AllCarried(c: Call, last: nat)
    requires CallOk(c) && NoDataFrom(c, last)
    ensures Carried(c, 0, last, |c.indices|) == Wanted(c)
    ensures forall z: nat :: z < |c.indices| && Selected(c, z) ==> z < last
  {}

  // ---- said with the channels alone ----

  /** Message `k` brings data for channel `z`. */
  predicate Brings(ms: seq<Message>, n: nat, k: nat, z: nat) {
    k < |ms| && z < n && Decode(ms[k].items, n)[z].Some?
  }

  /** What a message brings for a channel is that channel's data, sent as the channel asks, and it reports its size. */
  lemma MessagesSayWhatTheyBring(c: Call, k: nat, z: nat)
    requires CallOk(c) && k < |Sent(c)| && z < |c.indices|
    ensures var m, n := Sent(c)[k], |c.indices|;
      var got := Decode(m.items, n)[z];
      && m.header == c.header && |m.reported| == n
      && (got.Some? ==> c.indices[z] && |c.data[z]| > 0 && got.value == c.data[z] && m.pro == c.pros[z])
      && m.reported[z] == if got.Some? then |c.data[z]| else 0
  {
    var bounds := SplittingIsExact(c);
    var a, b := bounds[k], bounds[k + 1];
    assert GroupOf(c, Sent(c)[k], a, b);
    DecodedGroup(c, Sent(c)[k], a, b);
    hide Decode, Encode, Partition, Sent;
  }

  lemma BringsInGroup(c: Call, ms: seq<Message>, bounds: seq<nat>, k: nat, z: nat)
    requires CallOk(c) && Partition(c, ms, bounds) && k < |ms| && z < |c.indices|
    ensures Brings(ms, |c.indices|, k, z) <==> InGroup(bounds, k, z) && c.indices[z] && |c.data[z]| > 0
  {
    assert GroupOf(c, ms[k], bounds[k], bounds[k + 1]);
    DecodedGroup(c, ms[k], bounds[k], bounds[k + 1]);
    hide Decode;
  }

  /** A channel that is to be sent is in exactly one message, and any other in none. */
  lemma {:induction false} EachChannelOnce(c: Call, z: nat)
    requires CallOk(c) && z < |c.indices|
    ensures (exists k: nat :: Brings(Sent(c), |c.indices|, k, z)) <==> c.indices[z] && |c.data[z]| > 0
    ensures forall j: nat, k: nat :: Brings(Sent(c), |c.indices|, j, z) && Brings(Sent(c), |c.indices|, k, z) ==> j == k
  {
    var ms, n := Sent(c), |c.indices|;
    var bounds := SplittingIsExact(c);
    forall k: nat | k < |ms|
      ensures Brings(ms, n, k, z) <==> InGroup(bounds, k, z) && c.indices[z] && |c.data[z]| > 0
    {
      BringsInGroup(c, ms, bounds, k, z);
    }
    assert Selected(c, z) <==> c.indices[z] && |c.data[z]| > 0;
    assert |bounds| == |ms| + 1;
    hide Decode, Sent, Partition, MergeAll, Decoded, Wanted;
  }

  /** The sender starts a new message only where the send parameters change. */
  lemma {:induction false} NeighboursDiffer(c: Call, a: nat, i: nat)
    requires CallOk(c) && a < i <= |c.pros|
    ensures |Groups(c, a, i)| > 0 && Groups(c, a, i)[0].pro == c.pros[a]
    ensures forall j: nat, k: nat :: k == j + 1 < |Groups(c, a, i)| ==> Groups(c, a, i)[j].pro != Groups(c, a, i)[k].pro
    decreases |c.pros| - i
  {
    var ms := Groups(c, a, i);
    if i < |c.pros| && c.pros[i] != c.pros[a] {
      if !NoDataFrom(c, i) {
        NeighboursDiffer(c, i, i + 1);
        var rest := Groups(c, i, i + 1);
        assert ms == [GroupMessage(c, a, i)] + rest;
        forall j: nat, k: nat | k == j + 1 < |ms| ensures ms[j].pro != ms[k].pro {
          if j > 0 { assert rest[j - 1].pro != rest[k - 1].pro; }
        }
      }
    } else if i < |c.pros| {
      NeighboursDiffer(c, a, i + 1);
    }
  }

  /** Nothing is sent exactly when there is nothing to send, and neighbouring messages differ in their parameters. */
  lemma FewMessages(c: Call)
    requires CallOk(c)
    ensures Sent(c) == [] <==> forall z: nat :: z < |c.indices| ==> !c.indices[z] || c.data[z] == []
    ensures forall j: nat, k: nat :: k == j + 1 < |Sent(c)| ==> Sent(c)[j].pro != Sent(c)[k].pro
  {
    NeighboursDiffer(c, 0, 1);
    if NothingSelected(c) {
      forall z: nat | z < |c.indices| ensures !c.indices[z] || c.data[z] == [] { assert !Selected(c, z); }
    } else {
      var z: nat :| z < |c.indices| && Selected(c, z);
      assert c.indices[z] && c.data[z] != [];
    }
  }
}
