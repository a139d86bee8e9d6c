/**
 Our own connection attempts: `requestedConnectionQueue`, the schedule of
 ID_OPEN_CONNECTION_REQUEST_1 in `RunUpdateCycle`, and `SendConnectionRequest`.
 */
module ConnectionRequests {
  import opened Sequences
  import opened RemoteSystems

  const NUM_MTU_SIZES := 3

  /** `RequestedConnectionStruct`; `requestsMade` is an unsigned char. */
  datatype Attempt = Attempt(
    address: Address,
    requestsMade: nat,
    nextRequestTime: nat,
    attemptCount: nat,   // sendConnectionAttemptCount
    interval: nat)       // timeBetweenSendConnectionAttemptsMS

  /** What the socket makes of one request: 10040 is "message too large", SLOW took over 100 ms. */
  datatype Sending = SENT | TOO_LARGE | SLOW

  function AsByte(n: nat): nat { n % 256 }

  /** How many requests each MTU gets. */
  function Share(count: nat): (s: nat)
    requires count >= NUM_MTU_SIZES
    ensures s > 0
  {
    count / NUM_MTU_SIZES
  }

  /** Index into `mtuSizes`, whose entries decrease. */
  function MtuIndex(made: nat, count: nat): (i: nat)
    requires count >= NUM_MTU_SIZES
    ensures i < NUM_MTU_SIZES
  {
    var i := made / Share(count);
    if i >= NUM_MTU_SIZES then NUM_MTU_SIZES - 1 else i
  }

  function LowestMtu(count: nat): nat
    requires count >= NUM_MTU_SIZES
  {
    Share(count) * (NUM_MTU_SIZES - 1)
  }

  /** `requestsMade` after one more request. */
  function NextMade(made: nat, count: nat, result: Sending): nat
    requires count >= NUM_MTU_SIZES
  {
    match result
    case SENT => AsByte(made + 1)
    case TOO_LARGE => AsByte((MtuIndex(made, count) + 1) * Share(count))
    case SLOW => if LowestMtu(count) > AsByte(made + 1) then AsByte(LowestMtu(count)) else AsByte(count + 1)
  }

  function AfterSend(a: Attempt, now: nat, result: Sending): Attempt
    requires a.attemptCount >= NUM_MTU_SIZES
  {
    var again := result == TOO_LARGE || (result == SLOW && LowestMtu(a.attemptCount) > AsByte(a.requestsMade + 1));
    a.(requestsMade := NextMade(a.requestsMade, a.attemptCount, result),
       nextRequestTime := if again then now else now + a.interval)
  }

  predicate Exhausted(a: Attempt) { a.requestsMade == a.attemptCount + 1 }

  predicate Hole(a: Attempt) { a.address == UNASSIGNED_SYSTEM_ADDRESS }

  predicate Due(a: Attempt, now: nat) { a.nextRequestTime < now }

  // ---- one attempt ----

  /** A too-large error when the last MTU has already had its share. */
  predicate LateTooLarge(made: nat, count: nat, result: Sending)
    requires count >= NUM_MTU_SIZES
  {
    result == TOO_LARGE && made >= NUM_MTU_SIZES * Share(count)
  }

  /**
   For 3 to 254 attempts the counter stays in its byte and within count + 1, and it grows on every
   send except exactly the late too-large error, which takes it back by at most two. The MTU never
   grows.
   */
  lemma SendAdvances(made: nat, count: nat, result: Sending)
    requires 3 <= count <= 254 && made <= count
    ensures NextMade(made, count, result) <= count + 1 < 256
    ensures made < NextMade(made, count, result) <==> !LateTooLarge(made, count, result)
    ensures LateTooLarge(made, count, result) ==> NextMade(made, count, result) == NUM_MTU_SIZES * Share(count)
    ensures MtuIndex(made, count) <= MtuIndex(NextMade(made, count, result), count)
  {
    SendCounts(made, count, result);
    var next := NextMade(made, count, result);
    DivisionGrows(made, next, Share(count));
    if LateTooLarge(made, count, result) { DivisionIs(next, Share(count), NUM_MTU_SIZES); }
    hide NextMade, Share, LateTooLarge;
  }

  lemma SendCounts(made: nat, count: nat, result: Sending)
    requires 3 <= count <= 254 && made <= count
    ensures NextMade(made, count, result) <= count + 1 < 256
    ensures made < NextMade(made, count, result) <==> !LateTooLarge(made, count, result)
    ensures LateTooLarge(made, count, result) ==> NextMade(made, count, result) == NUM_MTU_SIZES * Share(count)
  {
    NextShare(made, count);
    hide Share, MtuIndex, AsByte;
    ByteFits(made + 1);
    ByteFits(LowestMtu(count));
    ByteFits((MtuIndex(made, count) + 1) * Share(count));
    ByteFits(count + 1);
  }

  lemma ByteFits(n: nat)
    requires n < 256
    ensures AsByte(n) == n
  {}

  /** Where a too-large error moves the counter: to the next multiple of the share, if there is one. */
  lemma NextShare(made: nat, count: nat)
    requires count >= NUM_MTU_SIZES
    ensures NUM_MTU_SIZES * Share(count) <= count < NUM_MTU_SIZES * Share(count) + NUM_MTU_SIZES
    ensures (MtuIndex(made, count) + 1) * Share(count) <= NUM_MTU_SIZES * Share(count)
    ensures made < (MtuIndex(made, count) + 1) * Share(count) <==> made < NUM_MTU_SIZES * Share(count)
    ensures made >= NUM_MTU_SIZES * Share(count) ==> MtuIndex(made, count) == NUM_MTU_SIZES - 1
  {
    var s := Share(count);
    var i := made / s;
    DivisionBounds(made, s);
    Times(MtuIndex(made, count) + 1, NUM_MTU_SIZES, s);
    if i >= NUM_MTU_SIZES { Times(NUM_MTU_SIZES, i, s); }
    if i < NUM_MTU_SIZES { Times(i + 1, NUM_MTU_SIZES, s); }
  }

  lemma DivisionBounds(n: nat, s: nat)
    requires s > 0
    ensures (n / s) * s <= n < (n / s + 1) * s
  {}

  lemma Times(a: nat, b: nat, s: nat)
    requires a <= b
    ensures a * s <= b * s
  {}

  lemma DivisionIs(n: nat, s: nat, q: nat)
    requires s > 0 && n == q * s
    ensures n / s == q
  {
    DivisionBounds(n, s);
    if n / s < q { Times(n / s + 1, q, s); }
    if n / s > q { Times(q + 1, n / s, s); }
  }

  lemma DivisionGrows(m: nat, n: nat, s: nat)
    requires s > 0
    ensures m <= n ==> m / s <= n / s
  {
    if m <= n && m / s > n / s {
      Times(n / s + 1, m / s, s);
      DivisionBounds(m, s);
      DivisionBounds(n, s);
    }
  }

  /** What happens to one attempt over the cycles that find it due. */
  datatype Life = Life(mtus: seq<nat>, failures: nat, gone: bool)

  function Lifetime(made: nat, count: nat, results: seq<Sending>): Life
    requires count >= NUM_MTU_SIZES
    decreases |results|
  {
    if results == [] then Life([], 0, false)
    else if made == count + 1 then Life([], 1, true)
    else
      var rest := Lifetime(NextMade(made, count, results[0]), count, results[1..]);
      Life([MtuIndex(made, count)] + rest.mtus, rest.failures, rest.gone)
  }

  /** How many of its sends end in a late too-large error. */
  function LateErrors(made: nat, count: nat, results: seq<Sending>): nat
    requires count >= NUM_MTU_SIZES
    decreases |results|
  {
    if results == [] || made == count + 1 then 0
    else
      var rest := LateErrors(NextMade(made, count, results[0]), count, results[1..]);
      if LateTooLarge(made, count, results[0]) then 1 + rest else rest
  }

  /** What one late error can cost: itself, and the requests made with the last MTU so far. */
  function Setback(count: nat): nat
    requires count >= NUM_MTU_SIZES
    ensures 1 <= Setback(count) <= 3
  {
    1 + (count - NUM_MTU_SIZES * Share(count))
  }

  /** With `late` late errors an attempt makes at most so many sends. */
  function SendBound(made: nat, count: nat, late: nat): nat
    requires NUM_MTU_SIZES <= count && made <= count + 1
  {
    count + 1 - made + late * Setback(count)
  }

  /**
   An attempt sends at most count + 1 requests and at most three more for every late too-large
   error, never with a larger MTU than before, and once it had its cycles it is gone with exactly
   one failure report.
   */
  lemma {:induction false} AttemptEnds(made: nat, count: nat, results: seq<Sending>)
    requires 3 <= count <= 254 && made <= count + 1
    ensures var life := Lifetime(made, count, results);
      && |life.mtus| <= SendBound(made, count, LateErrors(made, count, results))
      && (forall i :: 0 <= i < |life.mtus| ==> MtuIndex(made, count) <= life.mtus[i])
      && (forall i, j :: 0 <= i < j < |life.mtus| ==> life.mtus[i] <= life.mtus[j])
      && life.failures == (if life.gone then 1 else 0)
      && (!life.gone ==> |life.mtus| == |results|)
    decreases |results|
  {
    if results != [] && made != count + 1 {
      var late := LateErrors(made, count, results);
      var next := NextMade(made, count, results[0]);
      SendAdvances(made, count, results[0]);
      AttemptEnds(next, count, results[1..]);
      hide Share, NextMade, MtuIndex;
      if LateTooLarge(made, count, results[0]) { OneLess(late, Setback(count)); }
    } else {
      assert 0 <= LateErrors(made, count, results) * Setback(count);
    }
  }

  lemma OneLess(n: nat, s: nat)
    requires n > 0
    ensures n * s == (n - 1) * s + s
  {}

  /** The counter after `n` sends with these results. */
  function MadeAfter(made: nat, count: nat, results: nat -> Sending, n: nat): nat
    requires count >= NUM_MTU_SIZES
  {
    if n == 0 then made
    else
      var before := MadeAfter(made, count, results, n - 1);
      if before == count + 1 then before else NextMade(before, count, results(n - 1))
  }

  /** After some number of sends the attempt is given up. */
  ghost predicate GivenUp(made: nat, count: nat, results: nat -> Sending)
    requires count >= NUM_MTU_SIZES
  {
    exists n: nat :: MadeAfter(made, count, results, n) == count + 1
  }

  /** Send `n` is made and ends in a late too-large error. */
  predicate LateAt(made: nat, count: nat, results: nat -> Sending, n: nat)
    requires count >= NUM_MTU_SIZES
  {
    && MadeAfter(made, count, results, n) != count + 1
    && LateTooLarge(MadeAfter(made, count, results, n), count, results(n))
  }

  ghost predicate NeverLateFrom(made: nat, count: nat, results: nat -> Sending, m: nat)
    requires count >= NUM_MTU_SIZES
  {
    forall n: nat :: n >= m ==> !LateAt(made, count, results, n)
  }

  lemma {:induction false} MadeIsBounded(made: nat, count: nat, results: nat -> Sending, n: nat)
    requires 3 <= count <= 254 && made <= count + 1
    ensures MadeAfter(made, count, results, n) <= count + 1
  {
    if n > 0 {
      MadeIsBounded(made, count, results, n - 1);
      var before := MadeAfter(made, count, results, n - 1);
      if before != count + 1 { SendAdvances(before, count, results(n - 1)); }
    }
  }

  lemma {:induction false} StaysGivenUp(made: nat, count: nat, results: nat -> Sending, m: nat, n: nat)
    requires count >= NUM_MTU_SIZES && m <= n && MadeAfter(made, count, results, m) == count + 1
    ensures MadeAfter(made, count, results, n) == count + 1
    decreases n
  {
    if m < n { StaysGivenUp(made, count, results, m, n - 1); }
  }

  /** Without late errors every send brings the attempt nearer to its end. */
  lemma {:induction false} ProgressFrom(made: nat, count: nat, results: nat -> Sending, m: nat, k: nat)
    requires 3 <= count <= 254 && made <= count + 1 && NeverLateFrom(made, count, results, m) && k <= count + 1
    ensures MadeAfter(made, count, results, m + k) >= k
    decreases k
  {
    if k > 0 {
      ProgressFrom(made, count, results, m, k - 1);
      MadeIsBounded(made, count, results, m + k - 1);
      var before := MadeAfter(made, count, results, m + k - 1);
      assert !LateAt(made, count, results, m + k - 1);
      if before != count + 1 { SendAdvances(before, count, results(m + k - 1)); }
    }
  }

  /** For any stream of results the attempt is given up exactly when late too-large errors stop. */
  lemma AttemptEndsExactly(made: nat, count: nat, results: nat -> Sending)
    requires 3 <= count <= 254 && made <= count + 1
    ensures GivenUp(made, count, results) <==> exists m: nat :: NeverLateFrom(made, count, results, m)
  {
    if n: nat :| MadeAfter(made, count, results, n) == count + 1 {
      forall k: nat | k >= n ensures !LateAt(made, count, results, k) { StaysGivenUp(made, count, results, n, k); }
      assert NeverLateFrom(made, count, results, n);
    }
    if m: nat :| NeverLateFrom(made, count, results, m) {
      ProgressFrom(made, count, results, m, count + 1);
      MadeIsBounded(made, count, results, m + count + 1);
      assert MadeAfter(made, count, results, m + count + 1) == count + 1;
    }
  }

  /** An attempt whose requests are all too large is never given up. */
  lemma {:induction false} AlwaysTooLargeNeverEnds(made: nat, count: nat, results: nat -> Sending, n: nat)
    requires 3 <= count <= 254 && made <= count && forall k :: results(k) == TOO_LARGE
    ensures MadeAfter(made, count, results, n) <= count
  {
    if n > 0 {
      AlwaysTooLargeNeverEnds(made, count, results, n - 1);
      var before := MadeAfter(made, count, results, n - 1);
      NextShare(before, count);
      ByteFits((MtuIndex(before, count) + 1) * Share(count));
    }
  }

  /** Above 254 attempts the byte never reaches count + 1, whatever the socket answers. */
  lemma {:induction false} TooManyNeverEnds(made: nat, count: nat, results: nat -> Sending, n: nat)
    requires count >= 255 && made < 256
    ensures MadeAfter(made, count, results, n) < 256 < count + 2
  {
    if n > 0 { TooManyNeverEnds(made, count, results, n - 1); }
  }

  // ---- the queue ----

  /** A pass over the queue: what is left, whom the user hears about, and which entries were due. */
  datatype Pass = Pass(queue: seq<Attempt>, failed: seq<Address>, sent: seq<Address>)

  ghost predicate AllSane(queue: seq<Attempt>) {
    forall i :: 0 <= i < |queue| ==> queue[i].attemptCount >= NUM_MTU_SIZES
  }

  /** What one round of the loop leaves of an entry. */
  function Kept(a: Attempt, now: nat, socket: Address -> Sending): (r: seq<Attempt>)
    requires a.attemptCount >= NUM_MTU_SIZES
    ensures |r| <= 1
    ensures forall b :: b in r ==> b.address == a.address && b.attemptCount == a.attemptCount && !Due(b, now)
  {
    if !Due(a, now) then [a]
    else if Exhausted(a) || Hole(a) then []
    else [AfterSend(a, now, socket(a.address))]
  }

  predicate MaySend(a: Attempt, now: nat) { Due(a, now) && !Exhausted(a) && !Hole(a) }

  predicate MayFail(a: Attempt, now: nat) { Due(a, now) && Exhausted(a) && !Hole(a) }

  function Cycle(queue: seq<Attempt>, now: nat, socket: Address -> Sending): (p: Pass)
    requires AllSane(queue)
    ensures AllSane(p.queue)
  {
    if queue == [] then Pass([], [], [])
    else
      var a := queue[0];
      var rest := Cycle(queue[1..], now, socket);
      Pass(Kept(a, now, socket) + rest.queue,
           (if MayFail(a, now) then [a.address] else []) + rest.failed,
           (if MaySend(a, now) then [a.address] else []) + rest.sent)
  }

  ghost predicate AddressesDistinct(queue: seq<Attempt>) {
    forall i, j :: 0 <= i < j < |queue| ==> queue[i].address != queue[j].address
  }

  ghost function Addresses(queue: seq<Attempt>): set<Address> {
    set a | a in queue :: a.address
  }

  ghost function Sendable(queue: seq<Attempt>, now: nat): set<Address> {
    set a | a in queue && MaySend(a, now) :: a.address
  }

  ghost function Failing(queue: seq<Attempt>, now: nat): set<Address> {
    set a | a in queue && MayFail(a, now) :: a.address
  }

  lemma FirstOfQueue(queue: seq<Attempt>, now: nat)
    requires queue != []
    ensures Addresses(queue) == {queue[0].address} + Addresses(queue[1..])
    ensures Sendable(queue, now) == (if MaySend(queue[0], now) then {queue[0].address} else {}) + Sendable(queue[1..], now)
    ensures Failing(queue, now) == (if MayFail(queue[0], now) then {queue[0].address} else {}) + Failing(queue[1..], now)
  {
    assert forall b :: b in queue <==> b == queue[0] || b in queue[1..];
  }

  lemma FirstIsNew(queue: seq<Attempt>)
    requires queue != [] && AddressesDistinct(queue)
    ensures queue[0].address !in Addresses(queue[1..]) && AddressesDistinct(queue[1..])
  {
    forall b | b in queue[1..] ensures b.address != queue[0].address {
      var k :| 0 <= k < |queue[1..]| && queue[1..][k] == b;
      assert queue[k + 1] == b;
    }
  }

  lemma KeptThenRest(kept: seq<Attempt>, rest: seq<Attempt>, address: Address)
    requires |kept| <= 1 && (forall b :: b in kept ==> b.address == address)
    requires AddressesDistinct(rest) && address !in Addresses(rest)
    ensures AddressesDistinct(kept + rest) && Addresses(kept + rest) <= {address} + Addresses(rest)
  {
    forall j | 0 <= j < |rest| ensures rest[j].address != address {
      assert rest[j] in rest;
    }
  }

  /** A pass neither duplicates nor invents an address and leaves no entry due. */
  lemma {:induction false} CycleKeeps(queue: seq<Attempt>, now: nat, socket: Address -> Sending)
    requires AddressesDistinct(queue) && AllSane(queue)
    ensures var p := Cycle(queue, now, socket);
      && AddressesDistinct(p.queue)
      && Addresses(p.queue) <= Addresses(queue)
      && AllSane(p.queue)
      && (forall b :: b in p.queue ==> !Due(b, now))
  {
    if queue != [] {
      hide Kept;
      FirstOfQueue(queue, now);
      FirstIsNew(queue);
      CycleKeeps(queue[1..], now, socket);
      KeptThenRest(Kept(queue[0], now, socket), Cycle(queue[1..], now, socket).queue, queue[0].address);
    }
  }

  /** Every due entry is dealt with once: sent again, or reported as failed, or dropped as a hole. */
  lemma {:induction false} CycleHandlesOnce(queue: seq<Attempt>, now: nat, socket: Address -> Sending)
    requires AddressesDistinct(queue) && AllSane(queue)
    ensures var p := Cycle(queue, now, socket);
      && NoDuplicates(p.sent) && NoDuplicates(p.failed)
      && (set sa | sa in p.sent) == Sendable(queue, now)
      && (set sa | sa in p.failed) == Failing(queue, now)
  {
    if queue != [] {
      FirstOfQueue(queue, now);
      FirstIsNew(queue);
      CycleHandlesOnce(queue[1..], now, socket);
      var p, rest := Cycle(queue, now, socket), Cycle(queue[1..], now, socket);
      assert Sendable(queue[1..], now) <= Addresses(queue[1..]) && Failing(queue[1..], now) <= Addresses(queue[1..]);
      FirstOrSame(p.sent, rest.sent, queue[0].address, MaySend(queue[0], now), Sendable(queue[1..], now));
      FirstOrSame(p.failed, rest.failed, queue[0].address, MayFail(queue[0], now), Failing(queue[1..], now));
    }
  }

  lemma FirstOrSame(s: seq<Address>, rest: seq<Address>, sa: Address, added: bool, members: set<Address>)
    requires s == if added then [sa] + rest else rest
    requires NoDuplicates(rest) && sa !in members && (set x | x in rest) == members
    ensures NoDuplicates(s) && (set x | x in s) == (if added then {sa} else {}) + members
  {
    assert forall x :: x in rest ==> x in members;
  }

  // ---- one attempt in the queue, over many cycles ----

  /** The pending attempt for an address. */
  function Entry(queue: seq<Attempt>, sa: Address): (r: Option<Attempt>)
    ensures r.Some? ==> r.value.address == sa && r.value in queue
    ensures r.None? ==> forall i :: 0 <= i < |queue| ==> queue[i].address != sa
  {
    if queue == [] then None else if queue[0].address == sa then Some(queue[0]) else Entry(queue[1..], sa)
  }

  lemma {:induction false} EntryPast(front: seq<Attempt>, rest: seq<Attempt>, sa: Address)
    requires forall i :: 0 <= i < |front| ==> front[i].address != sa
    ensures Entry(front + rest, sa) == Entry(rest, sa)
  {
    if front == [] {
      assert front + rest == rest;
    } else {
      assert (front + rest)[1..] == front[1..] + rest;
      EntryPast(front[1..], rest, sa);
    }
  }

  lemma {:induction false} EntryFound(front: seq<Attempt>, rest: seq<Attempt>, sa: Address)
    requires Entry(front, sa).Some?
    ensures Entry(front + rest, sa) == Entry(front, sa)
  {
    assert (front + rest)[1..] == front[1..] + rest;
    if front[0].address != sa { EntryFound(front[1..], rest, sa); }
  }

  /** How often `sa` occurs in `s`. */
  function Occurrences(s: seq<Address>, sa: Address): nat { multiset(s)[sa] }

  lemma CountCons(added: bool, x: Address, rest: seq<Address>, sa: Address)
    ensures Occurrences((if added then [x] else []) + rest, sa) == (if added && x == sa then 1 else 0) + Occurrences(rest, sa)
  {}

  function KeptEntry(e: Option<Attempt>, now: nat, socket: Address -> Sending): Option<Attempt>
    requires e.Some? ==> e.value.attemptCount >= NUM_MTU_SIZES
  {
    if e.None? || Kept(e.value, now, socket) == [] then None else Some(Kept(e.value, now, socket)[0])
  }

  lemma {:induction false} EntryIsSane(queue: seq<Attempt>, sa: Address)
    requires AllSane(queue)
    ensures Entry(queue, sa).Some? ==> Entry(queue, sa).value.attemptCount >= NUM_MTU_SIZES
  {
    if Entry(queue, sa).Some? {
      var i :| 0 <= i < |queue| && queue[i] == Entry(queue, sa).value;
    }
  }

  /** The first entry has its address for itself. */
  lemma NoneBehind(queue: seq<Attempt>)
    requires queue != [] && AddressesDistinct(queue)
    ensures Entry(queue[1..], queue[0].address).None?
  {
    FirstIsNew(queue);
    assert forall b :: b in queue[1..] ==> b.address in Addresses(queue[1..]);
  }

  /** Of one address a pass leaves in the queue what `Kept` says about its entry. */
  lemma {:induction false} PassKeepsEntry(queue: seq<Attempt>, now: nat, socket: Address -> Sending, sa: Address)
    requires AddressesDistinct(queue) && AllSane(queue)
    ensures Entry(queue, sa).Some? ==> Entry(queue, sa).value.attemptCount >= NUM_MTU_SIZES
    ensures Entry(Cycle(queue, now, socket).queue, sa) == KeptEntry(Entry(queue, sa), now, socket)
  {
    EntryIsSane(queue, sa);
    if queue != [] {
      var a, rest := queue[0], Cycle(queue[1..], now, socket);
      FirstIsNew(queue);
      PassKeepsEntry(queue[1..], now, socket, sa);
      var kept := Kept(a, now, socket);
      assert Cycle(queue, now, socket).queue == kept + rest.queue;
      assert forall i :: 0 <= i < |kept| ==> kept[i] in kept;
      hide Cycle, Kept;
      if a.address == sa {
        NoneBehind(queue);
        if kept == [] { EntryPast(kept, rest.queue, sa); } else { EntryFound(kept, rest.queue, sa); }
      } else {
        EntryPast(kept, rest.queue, sa);
      }
    }
  }

  /** And it shows one request or one report exactly when `MaySend` or `MayFail` holds of the entry. */
  lemma {:induction false} PassCountsEntry(queue: seq<Attempt>, now: nat, socket: Address -> Sending, sa: Address)
    requires AddressesDistinct(queue) && AllSane(queue)
    ensures var p, e := Cycle(queue, now, socket), Entry(queue, sa);
      && Occurrences(p.sent, sa) == (if e.Some? && MaySend(e.value, now) then 1 else 0)
      && Occurrences(p.failed, sa) == (if e.Some? && MayFail(e.value, now) then 1 else 0)
  {
    if queue != [] {
      var a, rest := queue[0], Cycle(queue[1..], now, socket);
      FirstIsNew(queue);
      PassCountsEntry(queue[1..], now, socket, sa);
      CountCons(MaySend(a, now), a.address, rest.sent, sa);
      CountCons(MayFail(a, now), a.address, rest.failed, sa);
      hide Occurrences, MaySend, MayFail, Kept;
      if a.address == sa { NoneBehind(queue); }
    }
  }

  /** `Start` is SendConnectionRequest, `Cancel` any removal that the schedule does not decide on. */
  datatype QueueEvent =
    | Round(now: nat, socket: Address -> Sending)
    | Start(a: Attempt)
    | Cancel(sa: Address)

  predicate SaneEvent(e: QueueEvent) { e.Start? ==> e.a.attemptCount >= NUM_MTU_SIZES }

  ghost predicate SaneEvents(es: seq<QueueEvent>) { forall i :: 0 <= i < |es| ==> SaneEvent(es[i]) }

  function Started(queue: seq<Attempt>, a: Attempt): seq<Attempt> {
    if Entry(queue, a.address).Some? then queue else queue + [a.(requestsMade := 0)]
  }

  function Cancelled(queue: seq<Attempt>, sa: Address): seq<Attempt> {
    if queue == [] then [] else if queue[0].address == sa then queue[1..] else [queue[0]] + Cancelled(queue[1..], sa)
  }

  lemma {:induction false} CancelledMembers(queue: seq<Attempt>, sa: Address)
    ensures forall a :: a in Cancelled(queue, sa) ==> a in queue
  {
    if queue != [] && queue[0].address != sa { CancelledMembers(queue[1..], sa); }
  }

  lemma {:induction false} CancelKeeps(queue: seq<Attempt>, x: Address, sa: Address)
    requires AddressesDistinct(queue) && AllSane(queue)
    ensures AddressesDistinct(Cancelled(queue, x)) && AllSane(Cancelled(queue, x))
    ensures Entry(Cancelled(queue, x), sa) == if x == sa then None else Entry(queue, sa)
  {
    if queue != [] {
      FirstIsNew(queue);
      if queue[0].address == x {
        NoneBehind(queue);
      } else {
        var rest := Cancelled(queue[1..], x);
        CancelKeeps(queue[1..], x, sa);
        CancelledMembers(queue[1..], x);
        forall i | 0 <= i < |rest| ensures rest[i].address != queue[0].address { assert rest[i] in queue[1..]; }
        assert ([queue[0]] + rest)[1..] == rest;
      }
    }
  }

  lemma {:induction false} CancelledAt(queue: seq<Attempt>, sa: Address, k: nat)
    requires k < |queue| && queue[k].address == sa && forall j :: 0 <= j < k ==> queue[j].address != sa
    ensures Cancelled(queue, sa) == RemoveAt(queue, k)
  {
    if k > 0 {
      CancelledAt(queue[1..], sa, k - 1);
      assert RemoveAt(queue, k) == [queue[0]] + RemoveAt(queue[1..], k - 1);
    }
  }

  lemma {:induction false} CancelledNothing(queue: seq<Attempt>, sa: Address)
    requires forall j :: 0 <= j < |queue| ==> queue[j].address != sa
    ensures Cancelled(queue, sa) == queue
  {
    if queue != [] { CancelledNothing(queue[1..], sa); }
  }

  lemma {:induction false} StartKeeps(queue: seq<Attempt>, a: Attempt, sa: Address)
    requires AddressesDistinct(queue) && AllSane(queue) && a.attemptCount >= NUM_MTU_SIZES
    ensures AddressesDistinct(Started(queue, a)) && AllSane(Started(queue, a))
    ensures Entry(queue, sa).Some? ==> Entry(Started(queue, a), sa) == Entry(queue, sa)
  {
    if Entry(queue, a.address).None? && Entry(queue, sa).Some? { EntryFound(queue, [a.(requestsMade := 0)], sa); }
  }

  /** What `RequestedConnections.Valid` says, and no entry with fewer attempts than MTU sizes. */
  ghost predicate QueueOk(queue: seq<Attempt>) { AddressesDistinct(queue) && AllSane(queue) }

  ghost function Next(queue: seq<Attempt>, e: QueueEvent): (r: seq<Attempt>)
    requires QueueOk(queue) && SaneEvent(e)
    ensures QueueOk(r)
  {
    match e
    case Round(now, socket) =>
      CycleKeeps(queue, now, socket);
      Cycle(queue, now, socket).queue
    case Start(a) =>
      StartKeeps(queue, a, a.address);
      Started(queue, a)
    case Cancel(sa) =>
      CancelKeeps(queue, sa, sa);
      Cancelled(queue, sa)
  }

  /** What the passes show of one pending address: requests, failure reports, and how it ended. */
  datatype Story = Story(sends: nat, failures: nat, pending: bool, cancelled: bool)

  ghost function StoryOf(queue: seq<Attempt>, es: seq<QueueEvent>, sa: Address): Story
    requires QueueOk(queue) && SaneEvents(es)
    decreases |es|
  {
    if Entry(queue, sa).None? then Story(0, 0, false, false)
    else if es == [] then Story(0, 0, true, false)
    else if es[0] == Cancel(sa) then Story(0, 0, false, true)
    else
      var rest := StoryOf(Next(queue, es[0]), es[1..], sa);
      rest.(sends := Requests(queue, es[0], sa) + rest.sends, failures := Reports(queue, es[0], sa) + rest.failures)
  }

  /** How often an event sends to `sa`, and how often it reports `sa` as failed. */
  ghost function Requests(queue: seq<Attempt>, e: QueueEvent, sa: Address): nat
    requires QueueOk(queue)
  {
    if e.Round? then Occurrences(Cycle(queue, e.now, e.socket).sent, sa) else 0
  }

  ghost function Reports(queue: seq<Attempt>, e: QueueEvent, sa: Address): nat
    requires QueueOk(queue)
  {
    if e.Round? then Occurrences(Cycle(queue, e.now, e.socket).failed, sa) else 0
  }

  /** The event is a pass that finds the attempt for `sa` due. */
  ghost predicate Finds(queue: seq<Attempt>, e: QueueEvent, sa: Address) {
    e.Round? && Entry(queue, sa).Some? && Due(Entry(queue, sa).value, e.now)
  }

  /** What the socket has to say in each pass that finds the attempt due. */
  ghost function Answers(queue: seq<Attempt>, es: seq<QueueEvent>, sa: Address): seq<Sending>
    requires QueueOk(queue) && SaneEvents(es)
    decreases |es|
  {
    if Entry(queue, sa).None? || es == [] || es[0] == Cancel(sa) then []
    else
      var rest := Answers(Next(queue, es[0]), es[1..], sa);
      if Finds(queue, es[0], sa) then [es[0].socket(sa)] + rest else rest
  }

  /** What one event does to a pending attempt that it does not cancel. */
  lemma {:induction false} EventOfStory(queue: seq<Attempt>, e: QueueEvent, sa: Address)
    requires QueueOk(queue) && SaneEvent(e) && e != Cancel(sa) && Entry(queue, sa).Some?
    ensures var a, next := Entry(queue, sa).value, Entry(Next(queue, e), sa);
      && a.attemptCount >= NUM_MTU_SIZES
      && (if !Finds(queue, e, sa) then next == Some(a)
          else next == if Exhausted(a) || Hole(a) then None else Some(AfterSend(a, e.now, e.socket(sa))))
      && Requests(queue, e, sa) == (if Finds(queue, e, sa) && !Exhausted(a) && !Hole(a) then 1 else 0)
      && Reports(queue, e, sa) == (if Finds(queue, e, sa) && Exhausted(a) && !Hole(a) then 1 else 0)
  {
    EntryIsSane(queue, sa);
    match e
    case Round(now, socket) =>
      PassKeepsEntry(queue, now, socket, sa);
      PassCountsEntry(queue, now, socket, sa);
      hide Cycle, Occurrences, AddressesDistinct, AllSane;
    case Start(b) => StartKeeps(queue, b, sa);
    case Cancel(x) => CancelKeeps(queue, x, sa);
  }

  lemma {:induction false} StoryOfNone(queue: seq<Attempt>, es: seq<QueueEvent>, sa: Address)
    requires QueueOk(queue) && SaneEvents(es) && Entry(queue, sa).None?
    ensures StoryOf(queue, es, sa) == Story(0, 0, false, false) && Answers(queue, es, sa) == []
  {}

  /** Over any run of the queue an attempt lives the life that the socket's answers give it. */
  lemma {:induction false} StoryIsLife(queue: seq<Attempt>, es: seq<QueueEvent>, sa: Address)
    requires QueueOk(queue) && SaneEvents(es)
    requires Entry(queue, sa).Some? && sa != UNASSIGNED_SYSTEM_ADDRESS
    ensures Entry(queue, sa).value.attemptCount >= NUM_MTU_SIZES
    ensures var a, story := Entry(queue, sa).value, StoryOf(queue, es, sa);
      var life := Lifetime(a.requestsMade, a.attemptCount, Answers(queue, es, sa));
      && story.sends == |life.mtus| && story.failures == life.failures
      && (story.pending <==> !life.gone && !story.cancelled) && !(life.gone && story.cancelled)
    decreases |es|
  {
    EntryIsSane(queue, sa);
    if es != [] && es[0] != Cancel(sa) {
      hide QueueOk, Next, Requests, Reports, Finds, MtuIndex, NextMade;
      var next := Next(queue, es[0]);
      EventOfStory(queue, es[0], sa);
      if Entry(next, sa).Some? { StoryIsLife(next, es[1..], sa); } else { StoryOfNone(next, es[1..], sa); }
      hide Entry;
    }
  }

  /**
   Over any run of the queue, whatever else is started, cancelled or due: a pending address is sent
   at most count + 1 requests and three more for every late too-large error, it is reported as
   failed at most once, namely when it leaves the queue without being cancelled, and it has left
   once more passes than that have found it due.
   */
  lemma {:induction false} AttemptEndsInQueue(queue: seq<Attempt>, es: seq<QueueEvent>, sa: Address)
    requires QueueOk(queue) && SaneEvents(es)
    requires Entry(queue, sa).Some? && sa != UNASSIGNED_SYSTEM_ADDRESS
    requires Entry(queue, sa).value.attemptCount <= 254
    requires Entry(queue, sa).value.requestsMade <= Entry(queue, sa).value.attemptCount + 1
    ensures Entry(queue, sa).value.attemptCount >= NUM_MTU_SIZES
    ensures var a, story, results := Entry(queue, sa).value, StoryOf(queue, es, sa), Answers(queue, es, sa);
      var bound := SendBound(a.requestsMade, a.attemptCount, LateErrors(a.requestsMade, a.attemptCount, results));
      && story.sends <= bound
      && story.failures == (if story.pending || story.cancelled then 0 else 1)
      && (|results| > bound ==> !story.pending)
  {
    StoryIsLife(queue, es, sa);
    var a := Entry(queue, sa).value;
    AttemptEnds(a.requestsMade, a.attemptCount, Answers(queue, es, sa));
  }

  /** Running cycle after cycle never makes two attempts for one address. */
  class RequestedConnections {
    var queue: seq<Attempt>

    ghost predicate Valid()
      reads this
    {
      AddressesDistinct(queue)
    }

    constructor ()
      ensures Valid() && queue == []
    {
      queue := [];
    }

    /** `false` is CONNECTION_ATTEMPT_ALREADY_IN_PROGRESS. */
    method SendConnectionRequest(address: Address, attemptCount: nat, interval: nat, now: nat) returns (started: bool)
      requires Valid()
      modifies this
      ensures Valid()
      ensures started <==> forall i :: 0 <= i < |old(queue)| ==> old(queue)[i].address != address
      ensures queue == if started then old(queue) + [Attempt(address, 0, now, attemptCount, interval)] else old(queue)
      ensures queue == Started(old(queue), Attempt(address, 0, now, attemptCount, interval))
    {
      var i := 0;
      while i < |queue|
        invariant i <= |queue|
        invariant forall k :: 0 <= k < i ==> queue[k].address != address
      {
        if queue[i].address == address {
          assert queue[i] in queue;
          return false;
        }
        i := i + 1;
      }
      queue := queue + [Attempt(address, 0, now, attemptCount, interval)];
      started := true;
    }

    /** Removes the attempt for this address, if there is one. */
    method CancelConnectionAttempt(target: Address)
      requires Valid()
      modifies this
      ensures Valid()
      ensures queue == Cancelled(old(queue), target)
      ensures forall k: nat :: k < |old(queue)| && old(queue)[k].address == target ==> queue == RemoveAt(old(queue), k)
      ensures (forall k: nat :: k < |old(queue)| ==> old(queue)[k].address != target) ==> queue == old(queue)
    {
      ghost var was := queue;
      var i := 0;
      while i < |queue|
        invariant i <= |queue| && queue == was
        invariant forall j :: 0 <= j < i ==> queue[j].address != target
      {
        if queue[i].address == target {
          CancelledAt(queue, target, i);
          queue := RemoveAt(queue, i);
          return;
        }
        i := i + 1;
      }
      CancelledNothing(queue, target);
    }

    /** One round of the loop: entry `index` is removed, or updated and passed over. */
    method HandleEntry(index: nat, now: nat, socket: Address -> Sending)
      returns (next: nat, failed: seq<Address>, sent: seq<Address>)
      requires index < |queue| && queue[index].attemptCount >= NUM_MTU_SIZES
      modifies this
      ensures next <= |queue| && |queue| - next < |old(queue)| - index
      ensures queue[..next] == old(queue)[..index] + Kept(old(queue)[index], now, socket)
      ensures queue[next..] == old(queue)[index + 1..]
      ensures failed == if MayFail(old(queue)[index], now) then [old(queue)[index].address] else []
      ensures sent == if MaySend(old(queue)[index], now) then [old(queue)[index].address] else []
    {
      next, failed, sent := index, [], [];
      var rcs := queue[index];
      if Due(rcs, now) {
        if Exhausted(rcs) || Hole(rcs) {
          if !Hole(rcs) {
            failed := [rcs.address];
          }
          queue := RemoveAt(queue, index);
        } else {
          queue := queue[index := AfterSend(rcs, now, socket(rcs.address))];
          sent := [rcs.address];
          next := index + 1;
        }
      } else {
        next := index + 1;
      }
    }

    /** The requested-connection loop of `RunUpdateCycle`; it removes entries from the queue it walks. */
    method RunRequests(now: nat, socket: Address -> Sending) returns (failed: seq<Address>, sent: seq<Address>)
      requires Valid() && AllSane(queue)
      modifies this
      ensures Valid() && AllSane(queue)
      ensures Pass(queue, failed, sent) == Cycle(old(queue), now, socket)
    {
      failed, sent := [], [];
      CycleKeeps(queue, now, socket);
      ghost var all, done := queue, 0;
      ghost var whole := Cycle(all, now, socket);
      var index: nat := 0;
      hide Kept, MayFail, MaySend, Cycle;
      assert all[0..] == all;
      while index < |queue|
        invariant index <= |queue| && done <= |all| && queue[index..] == all[done..]
        invariant whole.queue == queue[..index] + Cycle(all[done..], now, socket).queue
        invariant whole.failed == failed + Cycle(all[done..], now, socket).failed
        invariant whole.sent == sent + Cycle(all[done..], now, socket).sent
        decreases |queue| - index
      {
        assert queue[index] == queue[index..][0] == all[done];
        CycleStep(all, done, now, socket, queue[..index], failed, sent);
        var next, f, s := HandleEntry(index, now, socket);
        assert all[done + 1..] == all[done..][1..];
        index, failed, sent, done := next, failed + f, sent + s, done + 1;
      }
      assert queue[..index] == queue && all[done..] == [];
      CycleOfNothing(now, socket);
      assert queue == whole.queue && failed == whole.failed && sent == whole.sent;
    }
  }

  lemma {:induction false} CycleOfNothing(now: nat, socket: Address -> Sending)
    ensures Cycle([], now, socket) == Pass([], [], [])
  {}

  /** One round of a loop that has dealt with `done` entries. */
  lemma {:induction false} CycleStep(all: seq<Attempt>, done: nat, now: nat, socket: Address -> Sending,
                  kept: seq<Attempt>, failed: seq<Address>, sent: seq<Address>)
    requires done < |all| && AllSane(all)
    ensures var a := all[done];
      var here, rest := Cycle(all[done..], now, socket), Cycle(all[done + 1..], now, socket);
      && kept + here.queue == kept + Kept(a, now, socket) + rest.queue
      && failed + here.failed == (if MayFail(a, now) then failed + [a.address] else failed) + rest.failed
      && sent + here.sent == (if MaySend(a, now) then sent + [a.address] else sent) + rest.sent
  {
    hide Kept, MayFail, MaySend;
    assert all[done..][1..] == all[done + 1..];
  }
}
