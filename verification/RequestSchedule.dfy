/**
 When a connection attempt sends and with which MTU, said with the numbers of the attempt alone.
 */
module RequestSchedule {
  import opened Sequences
  import opened ConnectionRequests
  import RemoteSystems

  type Address = RemoteSystems.Address

  /**
   The requests are shared out in thirds: the first third goes with the largest MTU, and what is
   left over with the smallest.
   */
  lemma MtuOfRequest(made: nat, count: nat)
    requires count >= 3
    ensures MtuIndex(made, count) ==
      if made < count / 3 then 0 else if made < 2 * (count / 3) then 1 else 2
  {
    var s := count / 3;
    DivisionBounds(made, s);
    if made < s {
      assert made / s == 0;
    } else if made < 2 * s {
      DivisionGrows(s, made, s);
      DivisionIs(s, s, 1);
      if made / s >= 2 { Times(2, made / s, s); }
    } else {
      DivisionGrows(2 * s, made, s);
      DivisionIs(2 * s, s, 2);
    }
  }

  /**
   What the socket's answer does to the counter: a sent request counts one, one that is too large
   skips the rest of its third, and a slow one goes on with the smallest MTU or ends the attempt.
   */
  lemma CounterAfterRequest(made: nat, count: nat)
    requires 3 <= count <= 254 && made <= count
    ensures NextMade(made, count, SENT) == made + 1
    ensures NextMade(made, count, TOO_LARGE) ==
      if made < count / 3 then count / 3 else if made < 2 * (count / 3) then 2 * (count / 3) else 3 * (count / 3)
    ensures NextMade(made, count, SLOW) == if made + 1 < 2 * (count / 3) then 2 * (count / 3) else count + 1
  {
    MtuOfRequest(made, count);
    ByteFits(made + 1);
    ByteFits((MtuIndex(made, count) + 1) * Share(count));
    ByteFits(LowestMtu(count));
    ByteFits(count + 1);
    hide AsByte, MtuIndex;
  }

  /**
   When a request was made at `now`, the attempt is due again at once if it was too large or skips
   to the smallest MTU, and else once the interval is over.
   */
  lemma DueAgain(a: Attempt, now: nat, t: nat)
    requires 3 <= a.attemptCount <= 254 && a.requestsMade <= a.attemptCount
    ensures AfterSend(a, now, SENT).nextRequestTime < t <==> now + a.interval < t
    ensures AfterSend(a, now, TOO_LARGE).nextRequestTime < t <==> now < t
    ensures AfterSend(a, now, SLOW).nextRequestTime < t <==>
      (if a.requestsMade + 1 < 2 * (a.attemptCount / 3) then now else now + a.interval) < t
  {
    ByteFits(a.requestsMade + 1);
    hide AsByte, NextMade;
  }

  /**
   While everything is sent, request `n` of a new attempt is the `n`-th, and after count + 1
   requests it is given up.
   */
  lemma {:induction false} UndisturbedAttempt(count: nat, results: nat -> Sending, n: nat)
    requires 3 <= count <= 254 && forall k: nat :: results(k) == SENT
    ensures MadeAfter(0, count, results, n) == if n <= count + 1 then n else count + 1
  {
    if n > 0 {
      UndisturbedAttempt(count, results, n - 1);
      if n <= count + 1 { CounterAfterRequest(n - 1, count); }
    }
  }

  // ---- in the queue ----

  /** The queue after the events. */
  ghost function After(queue: seq<Attempt>, es: seq<QueueEvent>): seq<Attempt>
    requires QueueOk(queue) && SaneEvents(es)
    decreases |es|
  {
    if es == [] then queue else After(Next(queue, es[0]), es[1..])
  }

  /** No pass comes after `time`, and nothing cancels the attempt for `sa`. */
  ghost predicate NothingAfter(es: seq<QueueEvent>, time: nat, sa: Address) {
    forall i :: 0 <= i < |es| ==> es[i] != Cancel(sa) && (es[i].Round? ==> es[i].now <= time)
  }

  /** Until its time an attempt is neither sent nor reported nor changed, whatever happens to others. */
  lemma {:induction false} AttemptWaits(queue: seq<Attempt>, es: seq<QueueEvent>, sa: Address)
    requires QueueOk(queue) && SaneEvents(es) && Entry(queue, sa).Some?
    requires NothingAfter(es, Entry(queue, sa).value.nextRequestTime, sa)
    ensures QueueOk(After(queue, es)) && Entry(After(queue, es), sa) == Entry(queue, sa)
    ensures StoryOf(queue, es, sa) == Story(0, 0, true, false)
    decreases |es|
  {
    if es != [] {
      EventOfStory(queue, es[0], sa);
      assert !Finds(queue, es[0], sa);
      hide QueueOk, Next, Requests, Reports, Entry;
      AttemptWaits(Next(queue, es[0]), es[1..], sa);
    }
  }

  /**
   Two requests of one attempt are more than an interval apart, and not later than the first pass
   after that: once it was sent at `now`, no event of any run in between shows anything of it, and
   a pass at `t` then sends or reports it exactly when more than the interval has gone by.
   */
  lemma {:induction false} RequestsAreSpaced(queue: seq<Attempt>, sa: Address, now: nat, socket: Address -> Sending,
                                             es: seq<QueueEvent>, t: nat, later: Address -> Sending)
    requires QueueOk(queue) && SaneEvents(es) && Entry(queue, sa).Some? && !sa.UNASSIGNED_SYSTEM_ADDRESS?
    requires var a := Entry(queue, sa).value;
      && a.attemptCount <= 254 && a.requestsMade <= a.attemptCount && a.nextRequestTime < now
      && NothingAfter(es, now + a.interval, sa)
    requires socket(sa) == SENT
    ensures var a, sent := Entry(queue, sa).value, Next(queue, Round(now, socket));
      && Requests(queue, Round(now, socket), sa) == 1 && Reports(queue, Round(now, socket), sa) == 0
      && StoryOf(sent, es, sa) == Story(0, 0, true, false)
      && QueueOk(After(sent, es))
      && Requests(After(sent, es), Round(t, later), sa)
         == (if now + a.interval < t && a.requestsMade < a.attemptCount then 1 else 0)
      && Reports(After(sent, es), Round(t, later), sa)
         == (if now + a.interval < t && a.requestsMade == a.attemptCount then 1 else 0)
  {
    var a, sent := Entry(queue, sa).value, Next(queue, Round(now, socket));
    RequestIsMade(queue, sa, now, socket);
    hide QueueOk, Next, Requests, Reports, Entry, NothingAfter, SaneEvents;
    AttemptWaits(sent, es, sa);
    PassShows(After(sent, es), sa, t, later);
    hide After, StoryOf;
  }

  /** A pass sends the attempt, or reports it after its last request, exactly when its time has come. */
  lemma {:induction false} PassShows(queue: seq<Attempt>, sa: Address, t: nat, socket: Address -> Sending)
    requires QueueOk(queue) && Entry(queue, sa).Some? && !sa.UNASSIGNED_SYSTEM_ADDRESS?
    ensures var a := Entry(queue, sa).value;
      && Requests(queue, Round(t, socket), sa) == (if a.nextRequestTime < t && a.requestsMade != a.attemptCount + 1 then 1 else 0)
      && Reports(queue, Round(t, socket), sa) == (if a.nextRequestTime < t && a.requestsMade == a.attemptCount + 1 then 1 else 0)
  {
    EventOfStory(queue, Round(t, socket), sa);
    hide QueueOk, Next, Requests, Reports, Entry, AfterSend;
  }

  /** The attempt with one request more, and due when the interval is over. */
  function Requested(a: Attempt, now: nat): Attempt {
    a.(requestsMade := a.requestsMade + 1, nextRequestTime := now + a.interval)
  }

  lemma AfterSentRequest(a: Attempt, now: nat)
    requires 3 <= a.attemptCount <= 254 && a.requestsMade <= a.attemptCount
    ensures AfterSend(a, now, SENT) == Requested(a, now)
  {
    CounterAfterRequest(a.requestsMade, a.attemptCount);
    hide NextMade;
  }

  lemma {:induction false} RequestIsMade(queue: seq<Attempt>, sa: Address, now: nat, socket: Address -> Sending)
    requires QueueOk(queue) && Entry(queue, sa).Some? && !sa.UNASSIGNED_SYSTEM_ADDRESS?
    requires var a := Entry(queue, sa).value;
      a.attemptCount <= 254 && a.requestsMade <= a.attemptCount && a.nextRequestTime < now
    requires socket(sa) == SENT
    ensures Requests(queue, Round(now, socket), sa) == 1 && Reports(queue, Round(now, socket), sa) == 0
    ensures Entry(Next(queue, Round(now, socket)), sa) == Some(Requested(Entry(queue, sa).value, now))
  {
    var a := Entry(queue, sa).value;
    EventOfStory(queue, Round(now, socket), sa);
    AfterSentRequest(a, now);
    hide QueueOk, Next, Requests, Reports, Entry, AfterSend;
  }

  /** An entry without an address is taken out when its time has come, without a request and without a report. */
  lemma {:induction false} HolesAreDropped(queue: seq<Attempt>, now: nat, socket: Address -> Sending)
    requires QueueOk(queue)
    ensures var e := Entry(queue, RemoteSystems.UNASSIGNED_SYSTEM_ADDRESS);
      e.Some? && e.value.nextRequestTime < now ==>
        && Entry(Next(queue, Round(now, socket)), RemoteSystems.UNASSIGNED_SYSTEM_ADDRESS).None?
        && Requests(queue, Round(now, socket), RemoteSystems.UNASSIGNED_SYSTEM_ADDRESS) == 0
        && Reports(queue, Round(now, socket), RemoteSystems.UNASSIGNED_SYSTEM_ADDRESS) == 0
  {
    if Entry(queue, RemoteSystems.UNASSIGNED_SYSTEM_ADDRESS).Some? {
      EventOfStory(queue, Round(now, socket), RemoteSystems.UNASSIGNED_SYSTEM_ADDRESS);
      hide QueueOk, Next, Requests, Reports, Entry;
    }
  }
}
