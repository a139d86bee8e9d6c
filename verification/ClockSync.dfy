/**
 Ping times and clock differentials of one remote system: the ring that `OnConnectedPong` fills
 and the estimate `GetClockDifferentialInt` takes from it.
 */
module ClockSync {
  import opened Sequences

  /** One completed ping: when it left, the remote clock in the answer, when the answer was seen. */
  datatype Sample = Sample(sent: nat, remote: int, seen: nat)

  /** `pingTime` is an unsigned short; 65535 marks an unused entry. */
  datatype Entry = Entry(pingTime: nat, clockDifferential: int)

  const UNUSED: nat := 65535
  const EMPTY_ENTRY := Entry(UNUSED, 0)

  function Ping(s: Sample): nat {
    if s.seen > s.sent then s.seen - s.sent else 0
  }

  function AsShort(n: nat): nat { n % 65536 }

  function Stored(s: Sample): Entry {
    Entry(AsShort(Ping(s)), s.remote - (s.seen / 2 + s.sent / 2))
  }

  /** The remote clock runs `d` ahead of ours and was read between sending and seeing. */
  ghost predicate Honest(s: Sample, d: int) {
    s.sent <= s.seen && s.sent + d <= s.remote <= s.seen + d
  }

  /** An honest sample is off by at most half its ping, and one for the two halvings. */
  lemma DifferentialError(s: Sample, d: int)
    requires Honest(s, d)
    ensures -(Ping(s) / 2 + 1) <= Stored(s).clockDifferential - d <= Ping(s) / 2 + 1
  {}

  /** What the ring of `size` entries holds after the samples of `history`. */
  function Slot(history: seq<Sample>, size: nat, i: nat): Entry
    requires i < size
  {
    if |history| == 0 then EMPTY_ENTRY
    else if (|history| - 1) % size == i then Stored(history[|history| - 1])
    else Slot(history[..|history| - 1], size, i)
  }

  function Ring(history: seq<Sample>, size: nat): (r: seq<Entry>)
    ensures |r| == size
  {
    seq(size, i requires 0 <= i < size => Slot(history, size, i))
  }

  /** `lowestPing` over the whole history. */
  function Lowest(history: seq<Sample>): nat {
    if |history| == 0 then UNUSED
    else
      var before := Lowest(history[..|history| - 1]);
      var p := Ping(history[|history| - 1]);
      if before == UNUSED || before > p then AsShort(p) else before
  }

  /** No ping is long enough to be truncated or to look unused. */
  ghost predicate Measurable(history: seq<Sample>) {
    forall i :: 0 <= i < |history| ==> Ping(history[i]) < UNUSED
  }

  /** Sample `k` is one of the last `size`, which the ring still holds. */
  ghost predicate InWindow(history: seq<Sample>, size: nat, k: int) {
    0 <= k < |history| <= k + size
  }

  ghost predicate MeasurableIn(history: seq<Sample>, size: nat) {
    forall k :: InWindow(history, size, k) ==> Ping(history[k]) < UNUSED
  }

  ghost predicate HonestIn(history: seq<Sample>, size: nat, d: int) {
    forall k :: InWindow(history, size, k) ==> Honest(history[k], d)
  }

  lemma {:induction false} LowestIsMinimum(history: seq<Sample>)
    requires Measurable(history)
    ensures history == [] <==> Lowest(history) == UNUSED
    ensures forall i :: 0 <= i < |history| ==> Lowest(history) <= Ping(history[i])
    ensures history != [] ==> exists i :: 0 <= i < |history| && Lowest(history) == Ping(history[i])
  {
    if history != [] {
      var n := |history| - 1;
      LowestIsMinimum(history[..n]);
      if n > 0 && Lowest(history) == Lowest(history[..n]) {
        var i :| 0 <= i < n && Lowest(history[..n]) == Ping(history[..n][i]);
        assert history[i] == history[..n][i];
      }
      assert forall i :: 0 <= i < n ==> history[i] == history[..n][i];
    }
  }

  /** Every sample of the last `size` is in the ring, at its position modulo the size. */
  lemma {:induction false} RingHoldsWindow(history: seq<Sample>, size: nat, k: nat)
    requires size > 0 && k < |history| <= k + size
    ensures k % size < size && Slot(history, size, k % size) == Stored(history[k])
    decreases |history|
  {
    var n := |history| - 1;
    if k < n {
      DifferentSlots(k, n, size);
      RingHoldsWindow(history[..n], size, k);
    }
  }

  lemma DifferentSlots(k: nat, n: nat, size: nat)
    requires size > 0 && k < n < k + size
    ensures k % size != n % size
  {
    var a, b := k / size, n / size;
    assert k == a * size + k % size && n == b * size + n % size;
    if k % size == n % size {
      assert (b - a) * size == n - k;
      if b - a >= 1 { Grows(b - a, size); }
      if b - a <= -1 { Grows(a - b, size); }
    }
  }

  lemma Grows(d: nat, size: nat)
    requires d >= 1
    ensures d * size >= size
  {}

  /** While the ring is not full its unused entries are the last ones. */
  lemma {:induction false} RingIsPrefix(history: seq<Sample>, size: nat, i: nat)
    requires size > 0 && |history| <= i < size
    ensures Slot(history, size, i) == EMPTY_ENTRY
    decreases |history|
  {
    if |history| > 0 {
      SmallModulus(|history| - 1, size);
      RingIsPrefix(history[..|history| - 1], size, i);
    }
  }

  lemma SmallModulus(n: nat, size: nat)
    requires n < size
    ensures n % size == n
  {}

  lemma AddModulus(k: nat, size: nat)
    requires size > 0
    ensures (k + size) % size == k % size
  {
    var a := k / size;
    assert k + size == (a + 1) * size + k % size;
    QuotientIs(k + size, size, a + 1, k % size);
  }

  lemma QuotientIs(n: nat, size: nat, q: nat, r: nat)
    requires size > 0 && r < size && n == q * size + r
    ensures n % size == r
  {
    var p := n / size;
    assert n == p * size + n % size;
    assert (p - q) * size == r - n % size;
    if p - q >= 1 { Grows(p - q, size); }
    if p - q <= -1 { Grows(q - p, size); }
  }

  /** Every used entry comes from a sample of the window. */
  lemma {:induction false} EntryFromWindow(history: seq<Sample>, size: nat, i: nat)
    requires size > 0 && i < size && i < |history|
    ensures exists k :: 0 <= k < |history| <= k + size && k % size == i && Slot(history, size, i) == Stored(history[k])
    decreases |history|
  {
    var n := |history| - 1;
    if n % size != i {
      if i == n { SmallModulus(n, size); }
      EntryFromWindow(history[..n], size, i);
      var k :| 0 <= k < n <= k + size && k % size == i && Slot(history[..n], size, i) == Stored(history[..n][k]);
      hide Stored;
      assert n != k + size by { AddModulus(k, size); }
      assert history[..n][k] == history[k] && Slot(history, size, i) == Stored(history[k]);
    } else {
      assert Slot(history, size, i) == Stored(history[n]);
    }
  }

  // ---- the estimate ----

  /** The loop of `GetClockDifferentialInt` from entry `i` on. */
  function Estimate(ring: seq<Entry>, i: nat, lowest: nat, differential: int): int
    requires i <= |ring|
    decreases |ring| - i
  {
    if i == |ring| || ring[i].pingTime == UNUSED then differential
    else if ring[i].pingTime < lowest then Estimate(ring, i + 1, ring[i].pingTime, ring[i].clockDifferential)
    else Estimate(ring, i + 1, lowest, differential)
  }

  /** Entry `b` has the least ping of the first `used` entries. */
  ghost predicate LeastUsed(ring: seq<Entry>, used: nat, b: nat) {
    b < used <= |ring| && forall j :: 0 <= j < used ==> ring[b].pingTime <= ring[j].pingTime
  }

  ghost predicate UsedPrefix(ring: seq<Entry>, used: nat) {
    && used <= |ring|
    && (forall j :: 0 <= j < used ==> ring[j].pingTime < UNUSED)
    && (forall j :: used <= j < |ring| ==> ring[j].pingTime == UNUSED)
  }

  /** The estimate is the differential of an entry with the least ping among the used ones. */
  lemma {:induction false} EstimateIsLeast(ring: seq<Entry>, used: nat, i: nat, best: nat)
    requires UsedPrefix(ring, used) && i <= used && LeastUsed(ring, i, best)
    ensures exists b: nat :: (
      LeastUsed(ring, used, b)
      && Estimate(ring, i, ring[best].pingTime, ring[best].clockDifferential) == ring[b].clockDifferential)
    decreases used - i
  {
    if i < used {
      var next := if ring[i].pingTime < ring[best].pingTime then i else best;
      assert LeastUsed(ring, i + 1, next);
      EstimateIsLeast(ring, used, i + 1, next);
    } else {
      assert LeastUsed(ring, used, best);
    }
  }

  /** Sample `b` has the least ping of the samples that the ring still holds. */
  ghost predicate LeastInWindow(history: seq<Sample>, size: nat, b: int) {
    InWindow(history, size, b) && forall k :: InWindow(history, size, k) ==> Ping(history[b]) <= Ping(history[k])
  }

  lemma RingIsUsedPrefix(history: seq<Sample>, size: nat)
    requires size > 0 && MeasurableIn(history, size)
    ensures UsedPrefix(Ring(history, size), if |history| < size then |history| else size)
  {
    var ring := Ring(history, size);
    forall i | 0 <= i < size
      ensures i < |history| ==> ring[i].pingTime < UNUSED
      ensures i >= |history| ==> ring[i].pingTime == UNUSED
    {
      if i < |history| {
        EntryFromWindow(history, size, i);
        var k :| 0 <= k < |history| <= k + size && k % size == i && Slot(history, size, i) == Stored(history[k]);
        assert InWindow(history, size, k);
      } else {
        RingIsPrefix(history, size, i);
      }
    }
  }

  lemma StoredPing(s: Sample)
    requires Ping(s) < UNUSED
    ensures Stored(s).pingTime == Ping(s)
  {}

  /** The entry with the least ping belongs to a sample with the least ping. */
  lemma LeastEntryIsLeastSample(history: seq<Sample>, size: nat, used: nat, e: nat)
    requires size > 0 && MeasurableIn(history, size) && used == (if |history| < size then |history| else size)
    requires LeastUsed(Ring(history, size), used, e)
    ensures exists b :: LeastInWindow(history, size, b) && Ring(history, size)[e] == Stored(history[b])
  {
    hide Slot, Stored, Ping;
    var ring := Ring(history, size);
    EntryFromWindow(history, size, e);
    var b :| 0 <= b < |history| <= b + size && b % size == e && Slot(history, size, e) == Stored(history[b]);
    forall k | InWindow(history, size, k) ensures Ping(history[b]) <= Ping(history[k]) {
      RingHoldsWindow(history, size, k);
      UsedPosition(history, size, k);
      var j := k % size;
      assert ring[j] == Stored(history[k]) && ring[e].pingTime <= ring[j].pingTime;
      assert InWindow(history, size, b);
      StoredPing(history[b]);
      StoredPing(history[k]);
    }
    assert LeastInWindow(history, size, b);
  }

  /**
   With measurable pings the estimate is the differential of a sample whose ping is the least in
   the window.
   */
  lemma EstimateOfHistory(history: seq<Sample>, size: nat)
    requires size > 0 && history != [] && MeasurableIn(history, size)
    ensures exists b :: (
      LeastInWindow(history, size, b)
      && Estimate(Ring(history, size), 0, UNUSED, 0) == Stored(history[b]).clockDifferential)
  {
    hide Slot, Stored;
    var ring := Ring(history, size);
    var used := if |history| < size then |history| else size;
    RingIsUsedPrefix(history, size);
    assert LeastUsed(ring, 1, 0);
    EstimateIsLeast(ring, used, 1, 0);
    var e: nat :| LeastUsed(ring, used, e)
      && Estimate(ring, 1, ring[0].pingTime, ring[0].clockDifferential) == ring[e].clockDifferential;
    LeastEntryIsLeastSample(history, size, used, e);
  }

  lemma UsedPosition(history: seq<Sample>, size: nat, k: nat)
    requires size > 0 && k < |history| <= k + size
    ensures k % size < size && k % size < |history|
  {
    if k < size { SmallModulus(k, size); }
  }

  /**
   Hence the estimate is off by at most half the least ping of the window, and one, whatever the
   samples that the ring has forgotten.
   */
  lemma ClockErrorBound(history: seq<Sample>, size: nat, d: int, k: nat)
    requires size > 0 && MeasurableIn(history, size) && InWindow(history, size, k)
    requires HonestIn(history, size, d)
    ensures var bound := Ping(history[k]) / 2 + 1;
      -bound <= Estimate(Ring(history, size), 0, UNUSED, 0) - d <= bound
  {
    EstimateOfHistory(history, size);
    var b :| LeastInWindow(history, size, b)
      && Estimate(Ring(history, size), 0, UNUSED, 0) == Stored(history[b]).clockDifferential;
    DifferentialError(history[b], d);
  }

  // ---- pings of any length ----

  function Pings(ring: seq<Entry>): (p: seq<nat>)
    ensures |p| == |ring|
  {
    seq(|ring|, i requires 0 <= i < |ring| => ring[i].pingTime)
  }

  /** Where the loop stops: the first entry that is unused or looks so. */
  function Used(pings: seq<nat>): (u: nat)
    ensures u <= |pings|
    ensures forall j :: 0 <= j < u ==> pings[j] != UNUSED
    ensures u < |pings| ==> pings[u] == UNUSED
  {
    if pings == [] || pings[0] == UNUSED then 0 else 1 + Used(pings[1..])
  }

  /** Entry `e` is the first with the least stored ping among the first `used`. */
  ghost predicate FirstLeast(pings: seq<nat>, used: nat, e: nat) {
    && e < used <= |pings|
    && (forall j :: 0 <= j < used ==> pings[e] <= pings[j])
    && (forall j :: 0 <= j < e ==> pings[e] < pings[j])
  }

  lemma {:induction false} EstimateIsFirstLeast(ring: seq<Entry>, used: nat, i: nat, best: nat, e: nat)
    requires used == Used(Pings(ring)) && i <= used
    requires FirstLeast(Pings(ring), i, best) && FirstLeast(Pings(ring), used, e)
    ensures Estimate(ring, i, ring[best].pingTime, ring[best].clockDifferential) == ring[e].clockDifferential
    decreases used - i
  {
    var pings := Pings(ring);
    if i < used {
      var next := if pings[i] < pings[best] then i else best;
      assert FirstLeast(pings, i + 1, next);
      EstimateIsFirstLeast(ring, used, i + 1, next, e);
    } else {
      assert best == e;
      assert used < |ring| ==> ring[used].pingTime == pings[used];
    }
  }

  lemma {:induction false} SomeFirstLeast(pings: seq<nat>, used: nat) returns (e: nat)
    requires 0 < used <= |pings|
    ensures FirstLeast(pings, used, e)
    decreases used
  {
    if used == 1 {
      e := 0;
    } else {
      var f := SomeFirstLeast(pings, used - 1);
      e := if pings[used - 1] < pings[f] then used - 1 else f;
    }
  }

  /** Sample `w` is the one whose stored, possibly truncated ping wins the comparison. */
  ghost predicate Wins(history: seq<Sample>, size: nat, w: int)
    requires size > 0
  {
    var pings := Pings(Ring(history, size));
    InWindow(history, size, w) && FirstLeast(pings, Used(pings), w % size)
  }

  /** The winner's differential is the estimate, for pings of any length. */
  lemma {:induction false} EstimateOfWinner(history: seq<Sample>, size: nat, w: int)
    requires size > 0 && Wins(history, size, w)
    ensures Estimate(Ring(history, size), 0, UNUSED, 0) == Stored(history[w]).clockDifferential
  {
    var ring := Ring(history, size);
    var pings := Pings(ring);
    RingHoldsWindow(history, size, w);
    EntryFromWindow(history, size, 0);
    assert pings[0] != UNUSED && pings[0] == ring[0].pingTime < UNUSED + 1;
    assert FirstLeast(pings, 1, 0);
    EstimateIsFirstLeast(ring, Used(pings), 1, 0, w % size);
  }

  /** There is a winner exactly when the first entry does not look unused; otherwise the estimate is 0. */
  lemma {:induction false} WinnerOrNone(history: seq<Sample>, size: nat)
    requires size > 0 && history != []
    ensures (exists w :: Wins(history, size, w)) <==> Slot(history, size, 0).pingTime != UNUSED
    ensures !(exists w :: Wins(history, size, w)) ==> Estimate(Ring(history, size), 0, UNUSED, 0) == 0
  {
    var pings := Pings(Ring(history, size));
    assert pings[0] == Slot(history, size, 0).pingTime;
    if pings[0] != UNUSED {
      var e := SomeFirstLeast(pings, Used(pings));
      if e >= |history| { RingIsPrefix(history, size, e); }
      EntryFromWindow(history, size, e);
      var k :| 0 <= k < |history| <= k + size && k % size == e && Slot(history, size, e) == Stored(history[k]);
      assert Wins(history, size, k);
    }
  }

  /** The largest error a sample can have while it is honest. */
  function Worst(s: Sample): int {
    Ping(s) / 2 + if s.sent % 2 == 0 && s.seen % 2 == 0 then 0 else 1
  }

  lemma WorstIsReached(s: Sample, d: int)
    requires s.sent <= s.seen
    ensures Honest(s, d) ==> -Worst(s) <= Stored(s).clockDifferential - d <= Worst(s)
    ensures Stored(s.(remote := s.seen + d)).clockDifferential - d == Worst(s)
  {
    var a, b, x, y := s.sent / 2, s.seen / 2, s.sent % 2, s.seen % 2;
    assert Ping(s) == 2 * (b - a) + (y - x);
  }

  /** The same pings, with any remote clock. */
  ghost predicate Retimed(h: seq<Sample>, history: seq<Sample>) {
    |h| == |history| && forall i :: 0 <= i < |h| ==> h[i].sent == history[i].sent && h[i].seen == history[i].seen
  }

  lemma {:induction false} SamePings(h: seq<Sample>, history: seq<Sample>, size: nat, i: nat)
    requires Retimed(h, history) && i < size
    ensures Slot(h, size, i).pingTime == Slot(history, size, i).pingTime
    decreases |h|
  {
    if h != [] { SamePings(h[..|h| - 1], history[..|h| - 1], size, i); }
  }

  lemma RetimedWinner(h: seq<Sample>, history: seq<Sample>, size: nat, w: int)
    requires size > 0 && Retimed(h, history) && Wins(history, size, w)
    ensures Wins(h, size, w)
  {
    forall i: nat | i < size ensures Slot(h, size, i).pingTime == Slot(history, size, i).pingTime {
      SamePings(h, history, size, i);
    }
    assert Pings(Ring(h, size)) == Pings(Ring(history, size));
  }

  /** The estimate is off by at most half of every ping in the window, and one. */
  ghost predicate ErrorBounded(history: seq<Sample>, size: nat, d: int) {
    var error := Estimate(Ring(history, size), 0, UNUSED, 0) - d;
    forall k :: InWindow(history, size, k) ==> -(Ping(history[k]) / 2 + 1) <= error <= Ping(history[k]) / 2 + 1
  }

  /**
   For pings of any length: the bound holds whatever an honest remote clock showed exactly when
   the worst error of the sample that wins the truncated comparison is within the bound.
   */
  lemma BoundHoldsExactly(history: seq<Sample>, size: nat, d: int, w: int)
    requires size > 0 && Wins(history, size, w)
    requires forall k :: InWindow(history, size, k) ==> history[k].sent <= history[k].seen
    ensures (forall h :: Retimed(h, history) && HonestIn(h, size, d) ==> ErrorBounded(h, size, d)) <==>
      (forall k :: InWindow(history, size, k) ==> Worst(history[w]) <= Ping(history[k]) / 2 + 1)
  {
    hide Slot, Ring, Estimate, Stored, Worst, Wins;
    assert InWindow(history, size, w) by { WinnerInWindow(history, size, w); }
    if forall k :: InWindow(history, size, k) ==> Worst(history[w]) <= Ping(history[k]) / 2 + 1 {
      forall h | Retimed(h, history) && HonestIn(h, size, d) ensures ErrorBounded(h, size, d) {
        RetimedWinner(h, history, size, w);
        EstimateOfWinner(h, size, w);
        assert InWindow(h, size, w);
        WorstIsReached(h[w], d);
        SameWorst(h[w], history[w]);
        assert forall k :: InWindow(h, size, k) ==> InWindow(history, size, k) && Ping(h[k]) == Ping(history[k]);
      }
    }
    if forall h :: Retimed(h, history) && HonestIn(h, size, d) ==> ErrorBounded(h, size, d) {
      var h := seq(|history|, i requires 0 <= i < |history| => history[i].(remote := history[i].seen + d));
      assert Retimed(h, history);
      assert forall k :: InWindow(h, size, k) ==> InWindow(history, size, k) && Ping(h[k]) == Ping(history[k]);
      assert HonestIn(h, size, d);
      RetimedWinner(h, history, size, w);
      EstimateOfWinner(h, size, w);
      WorstIsReached(history[w], d);
      forall k | InWindow(history, size, k) ensures Worst(history[w]) <= Ping(history[k]) / 2 + 1 {
        assert InWindow(h, size, k);
      }
    }
  }

  lemma WinnerInWindow(history: seq<Sample>, size: nat, w: int)
    requires size > 0 && Wins(history, size, w)
    ensures InWindow(history, size, w)
  {}

  lemma SameWorst(s: Sample, t: Sample)
    requires s.sent == t.sent && s.seen == t.seen
    ensures Worst(s) == Worst(t)
  {}

  /** Such a case: a ping past 65535 is stored short, wins the comparison and breaks the bound. */
  lemma LongPingsBreakTheBound()
    ensures exists history: seq<Sample>, k ::
      && |history| == 2 && InWindow(history, 5, k)
      && (forall i :: 0 <= i < |history| ==> Honest(history[i], 0))
      && Estimate(Ring(history, 5), 0, UNUSED, 0) > Ping(history[k]) / 2 + 1
  {
    var quick := Sample(0, 100, 200);
    var slow := Sample(1000, 66537, 66537);
    var history := [quick, slow];
    assert history[..1] == [quick] && history[..1][..0] == [];
    assert Slot(history[..1], 5, 0) == Stored(quick);
    var ring := Ring(history, 5);
    assert ring[0] == Stored(quick) && ring[1] == Stored(slow);
    assert ring[1] == Entry(1, 32769) && ring[0].pingTime == 200;
    assert Slot(history[..1], 5, 2) == EMPTY_ENTRY;
    assert ring[2] == EMPTY_ENTRY;
    assert Estimate(ring, 2, 1, 32769) == 32769;
    assert Estimate(ring, 1, 200, ring[0].clockDifferential) == 32769;
    assert InWindow(history, 5, 0) && Honest(history[0], 0) && Honest(history[1], 0);
  }

  // ---- the ring itself ----

  class PingRing {
    const entries: array<Entry>   // pingAndClockDifferential
    var writeIndex: nat           // pingAndClockDifferentialWriteIndex
    var lowestPing: nat
    ghost var history: seq<Sample>

    ghost predicate Valid()
      reads this, entries
    {
      && entries.Length > 0
      && entries[..] == Ring(history, entries.Length)
      && writeIndex == |history| % entries.Length
      && lowestPing == Lowest(history)
    }

    /** The initialisation in `AssignSystemAddressToRemoteSystemList`. */
    constructor (size: nat)
      requires size > 0
      ensures Valid() && history == [] && entries.Length == size && fresh(entries)
    {
      entries := new Entry[size](_ => EMPTY_ENTRY);
      writeIndex := 0;
      lowestPing := UNUSED;
      history := [];
      new;
      assert entries[..] == Ring([], size);
    }

    method OnConnectedPong(sendPingTime: nat, sendPongTime: int, time: nat)
      requires Valid()
      modifies this, entries
      ensures Valid() && history == old(history) + [Sample(sendPingTime, sendPongTime, time)]
    {
      ghost var s := Sample(sendPingTime, sendPongTime, time);
      ghost var was := history;
      var ping := if time > sendPingTime then time - sendPingTime else 0;
      RingNext(was, s, entries.Length);
      LowestNext(was, s);
      NextIndex(|was|, entries.Length);
      assert Stored(s) == Entry(AsShort(ping), sendPongTime - (time / 2 + sendPingTime / 2));
      hide Ring, Lowest, Stored, AsShort;
      entries[writeIndex] := Entry(AsShort(ping), sendPongTime - (time / 2 + sendPingTime / 2));
      if lowestPing == UNUSED || lowestPing > ping {
        lowestPing := AsShort(ping);
      }
      history := history + [s];
      writeIndex := writeIndex + 1;
      if writeIndex == entries.Length {
        writeIndex := 0;
      }
    }

    method GetClockDifferentialInt() returns (clockDifferential: int)
      requires Valid()
      ensures clockDifferential == Estimate(Ring(history, entries.Length), 0, UNUSED, 0)
    {
      clockDifferential := 0;
      var lowestPingSoFar := UNUSED;
      var counter := 0;
      while counter < entries.Length
        invariant counter <= entries.Length
        invariant Estimate(entries[..], counter, lowestPingSoFar, clockDifferential) == Estimate(entries[..], 0, UNUSED, 0)
      {
        if entries[counter].pingTime == UNUSED {
          break;
        }
        if entries[counter].pingTime < lowestPingSoFar {
          clockDifferential := entries[counter].clockDifferential;
          lowestPingSoFar := entries[counter].pingTime;
        }
        counter := counter + 1;
      }
    }
  }

  /** A new sample overwrites one entry. */
  lemma RingNext(history: seq<Sample>, s: Sample, size: nat)
    requires size > 0
    ensures Ring(history + [s], size) == Ring(history, size)[|history| % size := Stored(s)]
  {
    assert (history + [s])[..|history|] == history;
    forall i: nat | i < size
      ensures Slot(history + [s], size, i) == if i == |history| % size then Stored(s) else Slot(history, size, i) {}
  }

  lemma {:induction false} LowestNext(history: seq<Sample>, s: Sample)
    ensures var before := Lowest(history);
      Lowest(history + [s]) == if before == UNUSED || before > Ping(s) then AsShort(Ping(s)) else before
  {
    assert (history + [s])[..|history|] == history;
  }

  lemma NextIndex(n: nat, size: nat)
    requires size > 0
    ensures (n + 1) % size == if n % size + 1 == size then 0 else n % size + 1
  {
    var q := n / size;
    assert n == q * size + n % size;
    if n % size + 1 == size {
      assert n + 1 == (q + 1) * size;
      QuotientIs(n + 1, size, q + 1, 0);
    } else {
      QuotientIs(n + 1, size, q, n % size + 1);
    }
  }
}
