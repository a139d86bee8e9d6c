/**
 Grouping the initial download: ReplicaManager3 holds back the construction and serialization
 packets of a connection until its DOWNLOAD_COMPLETE arrives, then puts them back into RakPeer's
 receive queue and processes them a second time.
 */
module DownloadGroup {

  /** The packets of one connection that matter here; `OTHER` is any other packet in the queue. */
  datatype Kind = STARTED | CONSTRUCTION | SERIALIZE | COMPLETE | OTHER

  datatype Packet = Packet(id: nat, kind: Kind)

  /**
   `queue` is RakPeer's receive queue, `delivered` what passed through the plugin, in order, and
   `freed` what `ClearDownloadGroup` gave back to the pool.
   */
  datatype State = State(
    queue: seq<Packet>,
    grouping: bool,            // groupConstructionAndSerialize
    group: seq<Packet>,        // downloadGroup
    delivered: seq<Packet>,
    freed: seq<Packet>)

  const IDLE := State([], false, [], [], [])

  predicate Grouped(p: Packet) { p.kind == CONSTRUCTION || p.kind == SERIALIZE }

  /** The plugin handles packet `p`, already taken off the queue. `asks` is QueryGroupDownloadMessages. */
  function OnReceive(s: State, p: Packet, asks: bool): State {
    match p.kind
    case CONSTRUCTION => if s.grouping then s.(group := s.group + [p]) else s.(delivered := s.delivered + [p])
    case SERIALIZE => if s.grouping then s.(group := s.group + [p]) else s.(delivered := s.delivered + [p])
    case STARTED =>
      if asks && !s.grouping then s.(grouping := true, group := s.group + [p])
      else s.(grouping := false, delivered := s.delivered + [p])
    case COMPLETE =>
      if s.grouping && |s.group| > 0 then s.(queue := s.queue + s.group + [p], group := [])
      else s.(delivered := s.delivered + [p])
    case OTHER => s.(delivered := s.delivered + [p])
  }

  datatype Event =
    | Arrive(p: Packet)
    | Poll(asks: bool)     // RakPeer::Receive takes the first packet of the queue
    | Clear                // the connection goes away

  function Step(s: State, e: Event): State {
    match e
    case Arrive(p) => s.(queue := s.queue + [p])
    case Poll(asks) => if s.queue == [] then s else OnReceive(s.(queue := s.queue[1..]), s.queue[0], asks)
    case Clear => s.(group := [], freed := s.freed + s.group)
  }

  // ---- conservation ----

  /** How often packet `x` is held anywhere. */
  ghost function Copies(s: State, x: Packet): nat {
    Count(s.queue, x) + Count(s.group, x) + Count(s.delivered, x) + Count(s.freed, x)
  }

  ghost function Count(s: seq<Packet>, x: Packet): nat { multiset(s)[x] }

  ghost function Same(p: Packet, x: Packet): nat { if p == x then 1 else 0 }

  lemma Joined(a: seq<Packet>, b: seq<Packet>, x: Packet)
    ensures Count(a + b, x) == Count(a, x) + Count(b, x)
  {}

  /** Handling a packet puts it in exactly one place. */
  lemma ReceiveConserves(s: State, p: Packet, asks: bool, x: Packet)
    ensures Copies(OnReceive(s, p, asks), x) == Copies(s, x) + Same(p, x)
  {
    assert Count([p], x) == Same(p, x);
    assert Count([], x) == 0;
    hide Count;
    Joined(s.group, [p], x);
    Joined(s.delivered, [p], x);
    Joined(s.queue, s.group, x);
    Joined(s.queue + s.group, [p], x);
  }

  /** A step neither loses nor doubles a packet. */
  lemma StepConserves(s: State, e: Event, x: Packet)
    ensures Copies(Step(s, e), x) == Copies(s, x) + if e.Arrive? then Same(e.p, x) else 0
  {
    match e
    case Arrive(p) => Joined(s.queue, [p], x);
    case Poll(asks) =>
      if s.queue != [] {
        hide OnReceive;
        assert s.queue == [s.queue[0]] + s.queue[1..];
        assert Count([s.queue[0]], x) == Same(s.queue[0], x);
        Joined([s.queue[0]], s.queue[1..], x);
        ReceiveConserves(s.(queue := s.queue[1..]), s.queue[0], asks, x);
      }
    case Clear =>
      Joined(s.freed, s.group, x);
      assert Count([], x) == 0;
  }

  function Run(s: State, es: seq<Event>): State
    decreases |es|
  {
    if es == [] then s else Run(Step(s, es[0]), es[1..])
  }

  ghost function Arrivals(es: seq<Event>, x: Packet): nat {
    if es == [] then 0 else (if es[0].Arrive? then Same(es[0].p, x) else 0) + Arrivals(es[1..], x)
  }

  /** After any events every packet that arrived is queued, grouped, delivered or freed, as often as it arrived. */
  lemma {:induction false} PacketsAreConserved(s: State, es: seq<Event>, x: Packet)
    ensures Copies(Run(s, es), x) == Copies(s, x) + Arrivals(es, x)
    decreases |es|
  {
    if es != [] {
      StepConserves(s, es[0], x);
      PacketsAreConserved(Step(s, es[0]), es[1..], x);
    }
  }

  // ---- one download ----

  /** Packets arrive and are polled in any order; the connection asks for grouping. */
  ghost predicate Plays(es: seq<Event>) {
    forall i :: 0 <= i < |es| ==> es[i].Arrive? || es[i] == Poll(true)
  }

  /** What arrives, in order. */
  function Arrived(es: seq<Event>): seq<Packet> {
    if es == [] then [] else (if es[0].Arrive? then [es[0].p] else []) + Arrived(es[1..])
  }

  /** The next poll takes the DOWNLOAD_COMPLETE that puts the group back into the queue. */
  predicate PushesBack(s: State) {
    s.queue != [] && s.queue[0].kind == COMPLETE && s.grouping && s.group != []
  }

  /** Some event of `es` is that poll. */
  predicate Completes(s: State, es: seq<Event>)
    decreases |es|
  {
    es != [] && ((es[0].Poll? && PushesBack(s)) || Completes(Step(s, es[0]), es[1..]))
  }

  /** What is queued behind DOWNLOAD_COMPLETE when it is polled. */
  function Behind(s: State, es: seq<Event>): seq<Packet>
    decreases |es|
  {
    if es == [] then []
    else if es[0].Poll? && PushesBack(s) then s.queue[1..]
    else Behind(Step(s, es[0]), es[1..])
  }

  /** What arrives after that. */
  function Later(s: State, es: seq<Event>): seq<Packet>
    decreases |es|
  {
    if es == [] then []
    else if es[0].Poll? && PushesBack(s) then Arrived(es[1..])
    else Later(Step(s, es[0]), es[1..])
  }

  /** `n` polls. */
  function Polls(s: State, n: nat): State
    decreases n
  {
    if n == 0 then s else Polls(Step(s, Poll(true)), n - 1)
  }

  /** One poll for every packet in the queue. */
  function Drain(s: State): State { Polls(s, |s.queue|) }

  function Absorb(s: State, ps: seq<Packet>): State { s.(queue := s.queue + ps) }

  /** Draining the queue puts nothing back into it. */
  predicate Calm(s: State)
    decreases |s.queue|
  {
    s.queue == [] || (!PushesBack(s) && Calm(Step(s, Poll(true))))
  }

  lemma {:induction false} DrainStep(s: State)
    requires s.queue != [] && !PushesBack(s)
    ensures |Step(s, Poll(true)).queue| == |s.queue| - 1
    ensures Drain(s) == Drain(Step(s, Poll(true)))
    ensures Calm(s) <==> Calm(Step(s, Poll(true)))
  {}

  /** A poll and an arrival may change places, unless the poll finds nothing or pushes back. */
  lemma PollThenArrive(s: State, ps: seq<Packet>)
    requires s.queue != [] && !PushesBack(s)
    ensures Step(Absorb(s, ps), Poll(true)) == Absorb(Step(s, Poll(true)), ps)
    ensures |Step(s, Poll(true)).queue| == |s.queue| - 1
  {
    assert (s.queue + ps)[1..] == s.queue[1..] + ps;
  }

  lemma CalmHead(s: State, ps: seq<Packet>)
    requires s.queue != [] && Calm(Absorb(s, ps))
    ensures !PushesBack(s) && !PushesBack(Absorb(s, ps))
  {}

  /** So where nothing is pushed back, all that counts is what arrives and not when. */
  lemma {:induction false} DrainRun(s: State, es: seq<Event>)
    requires Plays(es) && Calm(Absorb(s, Arrived(es)))
    ensures Drain(Run(s, es)) == Drain(Absorb(s, Arrived(es)))
    decreases |es|
  {
    var ps := Arrived(es);
    if es == [] {
      assert s.queue + [] == s.queue;
    } else {
      var rest := Arrived(es[1..]);
      var t := Step(s, es[0]);
      hide OnReceive, Calm, Drain;
      if es[0].Arrive? {
        assert s.queue + ([es[0].p] + rest) == (s.queue + [es[0].p]) + rest;
        assert Absorb(t, rest) == Absorb(s, ps);
      } else {
        assert ps == rest;
        if s.queue == [] {
          assert t == s;
        } else {
          CalmHead(s, ps);
          PollThenArrive(s, ps);
          DrainStep(Absorb(s, ps));
        }
      }
      DrainRun(t, es[1..]);
    }
  }

  /** The packets of `q` that grouping holds back, and the others, in order. */
  function HeldBack(q: seq<Packet>): (r: seq<Packet>)
    ensures |r| <= |q|
  {
    if q == [] then [] else (if Grouped(q[0]) then [q[0]] else []) + HeldBack(q[1..])
  }

  function Passing(q: seq<Packet>): seq<Packet> {
    if q == [] then [] else (if Grouped(q[0]) then [] else [q[0]]) + Passing(q[1..])
  }

  /** No download starts in `q`. */
  ghost predicate NoStart(q: seq<Packet>) {
    forall i :: 0 <= i < |q| ==> q[i].kind != STARTED
  }

  /** Neither the start nor the end of a download is in `q`. */
  ghost predicate Inner(q: seq<Packet>) {
    NoStart(q) && forall i :: 0 <= i < |q| ==> q[i].kind != COMPLETE
  }

  /** While grouping, the held-back packets go to the group and the others are delivered. */
  lemma {:induction false} DrainWhileGrouping(s: State, q: seq<Packet>, rest: seq<Packet>)
    requires s.grouping && s.queue == q + rest && Inner(q)
    ensures var t := s.(queue := rest, group := s.group + HeldBack(q), delivered := s.delivered + Passing(q));
      Drain(s) == Drain(t) && (Calm(t) ==> Calm(s))
    decreases |q|
  {
    if q == [] {
      assert q + rest == rest;
      assert s.group + [] == s.group && s.delivered + [] == s.delivered;
    } else {
      assert s.queue[0] == q[0] && s.queue[1..] == q[1..] + rest;
      DrainStep(s);
      hide Drain, Calm;
      DrainWhileGrouping(Step(s, Poll(true)), q[1..], rest);
      TakeOne(s, q);
    }
  }

  /** Polling the first packet of `q` first makes no difference to what is grouped and delivered. */
  lemma {:induction false} TakeOne(s: State, q: seq<Packet>)
    requires s.grouping && q != [] && s.queue != [] && s.queue[0] == q[0] && Inner(q)
    ensures !PushesBack(s)
    ensures var t := Step(s, Poll(true));
      && t == s.(queue := s.queue[1..], group := t.group, delivered := t.delivered)
      && t.group == (if Grouped(q[0]) then s.group + [q[0]] else s.group)
      && t.group + HeldBack(q[1..]) == s.group + HeldBack(q)
      && t.delivered + Passing(q[1..]) == s.delivered + Passing(q)
  {
    if Grouped(q[0]) {
      assert s.group + ([q[0]] + HeldBack(q[1..])) == (s.group + [q[0]]) + HeldBack(q[1..]);
      assert [] + Passing(q[1..]) == Passing(q[1..]);
    } else {
      assert s.delivered + ([q[0]] + Passing(q[1..])) == (s.delivered + [q[0]]) + Passing(q[1..]);
      assert [] + HeldBack(q[1..]) == HeldBack(q[1..]);
    }
  }

  /** Without grouping everything but a start is delivered. */
  lemma {:induction false} DrainWhileOpen(s: State)
    requires !s.grouping && NoStart(s.queue)
    ensures Drain(s) == s.(queue := [], delivered := s.delivered + s.queue) && Calm(s)
    decreases |s.queue|
  {
    if s.queue == [] {
      assert s.delivered + [] == s.delivered;
    } else {
      DrainStep(s);
      hide Drain, Calm;
      DrainWhileOpen(Step(s, Poll(true)));
      assert (s.delivered + [s.queue[0]]) + s.queue[1..] == s.delivered + s.queue;
    }
  }

  /**
   The queue after the push-back: first what was queued behind the end, then the group, whose
   start now ends the grouping, the end itself, and what arrives later.
   */
  lemma {:induction false} DrainReplay(s: State, b: seq<Packet>, started: Packet, g: seq<Packet>, c: seq<Packet>)
    requires s.grouping && s.group == [] && s.queue == b + ([started] + g + c)
    requires started.kind == STARTED && Inner(b) && NoStart(g) && NoStart(c)
    ensures Calm(s)
    ensures Drain(s) == State([], false, HeldBack(b), s.delivered + Passing(b) + ([started] + g) + c, s.freed)
  {
    var queue := [started] + g + c;
    DrainWhileGrouping(s, b, queue);
    assert [] + HeldBack(b) == HeldBack(b);
    var t := s.(queue := queue, group := HeldBack(b), delivered := s.delivered + Passing(b));
    var u := Step(t, Poll(true));
    assert queue[0] == started && queue[1..] == g + c;
    DrainWhileOpen(u);
    assert (t.delivered + [started]) + (g + c) == t.delivered + ([started] + g) + c;
  }

  /** The state once everything has been polled: `b` was queued behind the end and `c` came later. */
  function Finished(delivered: seq<Packet>, freed: seq<Packet>, download: seq<Packet>,
                    b: seq<Packet>, c: seq<Packet>): State
  {
    State([], false, HeldBack(b), delivered + Passing(b) + download + c, freed)
  }

  /** An event that does not push back leaves the rest of the run to say what happens. */
  lemma {:induction false} Unfold(s: State, es: seq<Event>)
    requires Plays(es) && es != [] && !(es[0].Poll? && PushesBack(s))
    ensures var t, tail := Step(s, es[0]), es[1..];
      && Plays(tail) && Run(s, es) == Run(t, tail)
      && (Completes(s, es) <==> Completes(t, tail))
      && Behind(s, es) == Behind(t, tail) && Later(s, es) == Later(t, tail)
  {
    hide OnReceive;
  }

  /** An arrival, or a poll that finds nothing, does not change what is there in the end. */
  lemma {:induction false} Waits(s: State, es: seq<Event>)
    requires Plays(es) && es != [] && (es[0].Arrive? || s.queue == [])
    ensures !(es[0].Poll? && PushesBack(s))
    ensures var t, tail := Step(s, es[0]), es[1..];
      t == s.(queue := t.queue) && t.queue + Arrived(tail) == s.queue + Arrived(es)
  {
    var tail := es[1..];
    if es[0].Arrive? {
      assert s.queue + ([es[0].p] + Arrived(tail)) == (s.queue + [es[0].p]) + Arrived(tail);
    } else {
      assert [] + Arrived(tail) == Arrived(tail);
    }
  }

  /** The packet that the next poll finds is the first of what is to come. */
  lemma {:induction false} Takes(s: State, es: seq<Event>, x: seq<Packet>, y: seq<Packet>)
    requires Plays(es) && es != [] && !es[0].Arrive? && s.queue != [] && x != []
    requires s.queue + Arrived(es) == x + y
    ensures es[0] == Poll(true) && s.queue[0] == x[0] && s.queue[1..] + Arrived(es[1..]) == x[1..] + y
  {
    var w := x + y;
    assert [] + Arrived(es[1..]) == Arrived(es[1..]);
    assert s.queue[0] == w[0] && s.queue[1..] + Arrived(es) == w[1..];
    assert w[1..] == x[1..] + y;
  }

  /**
   While a download is being collected and `a` of it is still to come, whatever the order of
   arrivals and polls, the run completes as if everything had been there.
   */
  lemma {:induction false} Collecting(s: State, es: seq<Event>, started: Packet, g: seq<Packet>,
                                      a: seq<Packet>, complete: Packet, rest: seq<Packet>)
    requires Plays(es) && Completes(s, es)
    requires s.grouping && s.group == [started] + g && started.kind == STARTED && NoStart(g)
    requires s.queue + Arrived(es) == a + ([complete] + rest)
    requires Inner(a) && complete.kind == COMPLETE && NoStart(rest) && Inner(Behind(s, es))
    ensures rest == Behind(s, es) + Later(s, es)
    ensures Drain(Run(s, es)) == Finished(s.delivered + Passing(a), s.freed,
      [started] + (g + HeldBack(a) + [complete]), Behind(s, es), Later(s, es))
    decreases |es|
  {
    hide Drain, Step, Run, Finished, Arrived;
    if es[0].Arrive? || s.queue == [] {
      Waits(s, es);
      Unfold(s, es);
      Collecting(Step(s, es[0]), es[1..], started, g, a, complete, rest);
    } else if a != [] {
      Takes(s, es, a, [complete] + rest);
      TakeOne(s, a);
      Unfold(s, es);
      var t := Step(s, es[0]);
      var h := if Grouped(a[0]) then g + [a[0]] else g;
      assert ([started] + g) + [a[0]] == [started] + (g + [a[0]]);
      CollectOne(g, a);
      Collecting(t, es[1..], started, h, a[1..], complete, rest);
    } else {
      assert a + ([complete] + rest) == [complete] + rest;
      Takes(s, es, [complete], rest);
      assert [complete][1..] + rest == rest;
      Completed(s, es, started, g, complete, rest);
      assert s.delivered + [] == s.delivered && g + [] == g;
    }
  }

  lemma {:induction false} CollectOne(g: seq<Packet>, a: seq<Packet>)
    requires a != []
    ensures (if Grouped(a[0]) then g + [a[0]] else g) + HeldBack(a[1..]) == g + HeldBack(a)
  {
    if Grouped(a[0]) {
      assert g + ([a[0]] + HeldBack(a[1..])) == (g + [a[0]]) + HeldBack(a[1..]);
    } else {
      assert [] + HeldBack(a[1..]) == HeldBack(a[1..]);
    }
  }

  /** The poll of DOWNLOAD_COMPLETE, and everything after it. */
  lemma {:induction false} Completed(s: State, es: seq<Event>, started: Packet, g: seq<Packet>, complete: Packet,
                                     rest: seq<Packet>)
    requires Plays(es) && es != [] && es[0] == Poll(true)
    requires s.grouping && s.group == [started] + g && started.kind == STARTED && NoStart(g)
    requires s.queue != [] && s.queue[0] == complete && complete.kind == COMPLETE
    requires s.queue[1..] + Arrived(es[1..]) == rest && NoStart(rest) && Inner(s.queue[1..])
    ensures Behind(s, es) == s.queue[1..] && Later(s, es) == Arrived(es[1..])
    ensures Drain(Run(s, es)) ==
      Finished(s.delivered, s.freed, [started] + (g + [complete]), s.queue[1..], Arrived(es[1..]))
  {
    var b, c := s.queue[1..], Arrived(es[1..]);
    var t := Step(s, Poll(true));
    assert t == s.(queue := b + s.group + [complete], group := []);
    var u := Absorb(t, c);
    assert u.queue == b + ([started] + (g + [complete]) + c);
    assert forall i :: 0 <= i < |c| ==> c[i] == rest[|b| + i];
    assert Run(s, es) == Run(t, es[1..]);
    hide Step, Run, Drain, Calm, Arrived;
    DrainReplay(u, b, started, g + [complete], c);
    DrainRun(t, es[1..]);
  }

  /** From before the start of a download, behind packets `pre` that belong to none. */
  lemma {:induction false} Opening(s: State, es: seq<Event>, pre: seq<Packet>, started: Packet,
                                   a: seq<Packet>, complete: Packet, rest: seq<Packet>)
    requires Plays(es) && Completes(s, es)
    requires !s.grouping && s.group == [] && started.kind == STARTED && NoStart(pre)
    requires s.queue + Arrived(es) == pre + ([started] + (a + ([complete] + rest)))
    requires Inner(a) && complete.kind == COMPLETE && NoStart(rest) && Inner(Behind(s, es))
    ensures rest == Behind(s, es) + Later(s, es)
    ensures Drain(Run(s, es)) == Finished(s.delivered + pre + Passing(a), s.freed,
      [started] + (HeldBack(a) + [complete]), Behind(s, es), Later(s, es))
    decreases |es|
  {
    hide Drain, Run, Finished, Arrived;
    if es[0].Arrive? || s.queue == [] {
      Waits(s, es);
      Unfold(s, es);
      Opening(Step(s, es[0]), es[1..], pre, started, a, complete, rest);
    } else if pre != [] {
      Takes(s, es, pre, [started] + (a + ([complete] + rest)));
      Unfold(s, es);
      assert (s.delivered + [pre[0]]) + pre[1..] == s.delivered + pre;
      Opening(Step(s, es[0]), es[1..], pre[1..], started, a, complete, rest);
    } else {
      var after := a + ([complete] + rest);
      assert pre + ([started] + after) == [started] + after;
      Takes(s, es, [started], after);
      Unfold(s, es);
      assert [started][1..] + after == after && [started] + [] == [started] && s.delivered + [] == s.delivered;
      Collecting(Step(s, es[0]), es[1..], started, [], a, complete, rest);
      assert [] + HeldBack(a) == HeldBack(a);
    }
  }

  /** When nothing is left in the queue the end of a download that has begun was polled. */
  lemma {:induction false} CompletesOnceStarted(s: State, es: seq<Event>, a: seq<Packet>, complete: Packet, rest: seq<Packet>)
    requires Plays(es) && Run(s, es).queue == []
    requires s.grouping && s.group != [] && s.queue + Arrived(es) == a + ([complete] + rest)
    requires Inner(a) && complete.kind == COMPLETE
    ensures Completes(s, es)
    decreases |es|
  {
    assert |a + ([complete] + rest)| > 0;
    if es != [] {
      if es[0].Arrive? || s.queue == [] {
        Waits(s, es);
        Unfold(s, es);
        CompletesOnceStarted(Step(s, es[0]), es[1..], a, complete, rest);
      } else if a != [] {
        Takes(s, es, a, [complete] + rest);
        TakeOne(s, a);
        Unfold(s, es);
        CompletesOnceStarted(Step(s, es[0]), es[1..], a[1..], complete, rest);
      } else {
        assert a + ([complete] + rest) == [complete] + rest;
        Takes(s, es, [complete], rest);
      }
    }
  }

  lemma {:induction false} CompletesOnceDrained(s: State, es: seq<Event>, pre: seq<Packet>, started: Packet,
                                                a: seq<Packet>, complete: Packet, rest: seq<Packet>)
    requires Plays(es) && Run(s, es).queue == []
    requires !s.grouping && s.group == [] && started.kind == STARTED && NoStart(pre)
    requires s.queue + Arrived(es) == pre + ([started] + (a + ([complete] + rest)))
    requires Inner(a) && complete.kind == COMPLETE
    ensures Completes(s, es)
    decreases |es|
  {
    var after := a + ([complete] + rest);
    assert |pre + ([started] + after)| > 0;
    if es != [] {
      if es[0].Arrive? || s.queue == [] {
        Waits(s, es);
        Unfold(s, es);
        CompletesOnceDrained(Step(s, es[0]), es[1..], pre, started, a, complete, rest);
      } else if pre != [] {
        Takes(s, es, pre, [started] + after);
        Unfold(s, es);
        CompletesOnceDrained(Step(s, es[0]), es[1..], pre[1..], started, a, complete, rest);
      } else {
        assert pre + ([started] + after) == [started] + after && [started][1..] + after == after;
        Takes(s, es, [started], after);
        Unfold(s, es);
        CompletesOnceStarted(Step(s, es[0]), es[1..], a, complete, rest);
      }
    }
  }

  /**
   Whatever the order in which packets arrive and are polled: once all have been polled, the
   packets of a download have been delivered once and in their original order, after the other
   packets that were queued before or directly behind its end and before those that came later.
   What stays in the group is exactly the download data that was queued behind DOWNLOAD_COMPLETE
   when that was polled.
   */
  lemma {:induction false} DownloadIsDelivered(s: State, es: seq<Event>, pre: seq<Packet>, started: Packet,
                            a: seq<Packet>, complete: Packet, rest: seq<Packet>)
    requires Plays(es) && Run(s, es).queue == []
    requires !s.grouping && s.group == [] && started.kind == STARTED && complete.kind == COMPLETE
    requires s.queue + Arrived(es) == pre + ([started] + (a + ([complete] + rest)))
    requires NoStart(pre) && Inner(a) && NoStart(rest) && Inner(Behind(s, es))
    ensures var b, c := Behind(s, es), Later(s, es);
      && rest == b + c
      && Run(s, es) == State([], false, HeldBack(b),
           s.delivered + pre + Passing(a) + Passing(b) + ([started] + (HeldBack(a) + [complete])) + c, s.freed)
  {
    assert Drain(Run(s, es)) == Run(s, es);
    hide Run, Drain, Step, Behind, Later, Arrived;
    CompletesOnceDrained(s, es, pre, started, a, complete, rest);
    Opening(s, es, pre, started, a, complete, rest);
  }

  /** So the group ends empty exactly when no download data was queued behind the end. */
  lemma {:induction false} GroupEndsEmpty(s: State, es: seq<Event>, pre: seq<Packet>, started: Packet,
                       a: seq<Packet>, complete: Packet, rest: seq<Packet>)
    requires Plays(es) && Run(s, es).queue == []
    requires !s.grouping && s.group == [] && started.kind == STARTED && complete.kind == COMPLETE
    requires s.queue + Arrived(es) == pre + ([started] + (a + ([complete] + rest)))
    requires NoStart(pre) && Inner(a) && NoStart(rest) && Inner(Behind(s, es))
    ensures Run(s, es).group == [] <==> forall i :: 0 <= i < |Behind(s, es)| ==> !Grouped(Behind(s, es)[i])
  {
    DownloadIsDelivered(s, es, pre, started, a, complete, rest);
    NothingHeldBack(Behind(s, es));
  }

  lemma {:induction false} NothingHeldBack(q: seq<Packet>)
    ensures HeldBack(q) == [] <==> forall i :: 0 <= i < |q| ==> !Grouped(q[i])
  {
    if q != [] {
      NothingHeldBack(q[1..]);
      assert forall i :: 0 <= i < |q| - 1 ==> q[1..][i] == q[i + 1];
    }
  }

  // ---- a connection that does not ask for grouping ----

  /** Nobody asks for grouping and the connection stays. */
  ghost predicate NotAsked(es: seq<Event>) {
    forall i :: 0 <= i < |es| ==> es[i].Arrive? || es[i] == Poll(false)
  }

  /** Outside a group every packet is delivered as soon as it is polled, whatever its kind. */
  lemma PollDelivers(s: State)
    requires !s.grouping && s.queue != []
    ensures Step(s, Poll(false)) == s.(queue := s.queue[1..], delivered := s.delivered + [s.queue[0]])
  {}

  /** How many polls of the run found a packet. */
  function Polled(s: State, es: seq<Event>): nat
    decreases |es|
  {
    if es == [] then 0 else (if es[0].Poll? && s.queue != [] then 1 else 0) + Polled(Step(s, es[0]), es[1..])
  }

  /**
   So over any run the packets are delivered in the order in which they arrive, one for every poll
   that finds one, and nothing is held back, given up or taken out of what an earlier download left.
   */
  lemma {:induction false} WithoutGrouping(s: State, es: seq<Event>)
    requires !s.grouping && NotAsked(es)
    ensures var t := Run(s, es);
      && !t.grouping && t.group == s.group && t.freed == s.freed
      && t.delivered + t.queue == s.delivered + s.queue + Arrived(es)
      && |t.delivered| == |s.delivered| + Polled(s, es)
    decreases |es|
  {
    if es == [] {
      assert s.delivered + s.queue + [] == s.delivered + s.queue;
    } else {
      var u := Step(s, es[0]);
      assert es[0].Arrive? || es[0] == Poll(false);
      if es[0].Poll? && s.queue != [] { PollDelivers(s); }
      hide OnReceive;
      WithoutGrouping(u, es[1..]);
      var rest := Arrived(es[1..]);
      if es[0].Arrive? {
        assert s.delivered + (s.queue + [es[0].p]) + rest == s.delivered + s.queue + ([es[0].p] + rest);
      } else {
        assert [] + rest == rest;
        if s.queue != [] { assert (s.delivered + [s.queue[0]]) + s.queue[1..] == s.delivered + s.queue; }
      }
    }
  }

  // ---- the plugin and the queue ----

  class Downloads {
    var packetReturnQueue: seq<Packet>
    var groupConstructionAndSerialize: bool
    var downloadGroup: seq<Packet>
    ghost var delivered: seq<Packet>
    ghost var freed: seq<Packet>

    ghost function Value(): State
      reads this
    {
      State(packetReturnQueue, groupConstructionAndSerialize, downloadGroup, delivered, freed)
    }

    constructor ()
      ensures Value() == IDLE
    {
      packetReturnQueue, groupConstructionAndSerialize, downloadGroup := [], false, [];
      delivered, freed := [], [];
    }

    method PushBackPacket(packet: Packet, pushAtHead: bool)
      modifies this
      ensures Value() == old(Value()).(queue :=
        if pushAtHead then [packet] + old(packetReturnQueue) else old(packetReturnQueue) + [packet])
    {
      packetReturnQueue := if pushAtHead then [packet] + packetReturnQueue else packetReturnQueue + [packet];
    }

    /** `true` means the packet continues to the user. */
    method Receive(packet: Packet, queryGroupDownloadMessages: bool) returns (continues: bool)
      modifies this
      ensures Value() == OnReceive(old(Value()), packet, queryGroupDownloadMessages)
      ensures continues <==> delivered == old(delivered) + [packet]
    {
      continues := true;
      if packet.kind == CONSTRUCTION || packet.kind == SERIALIZE {
        if groupConstructionAndSerialize {
          downloadGroup := downloadGroup + [packet];
          continues := false;
        }
      } else if packet.kind == STARTED {
        if queryGroupDownloadMessages && !groupConstructionAndSerialize {
          groupConstructionAndSerialize := true;
          downloadGroup := downloadGroup + [packet];
          continues := false;
        } else {
          groupConstructionAndSerialize := false;
        }
      } else if packet.kind == COMPLETE {
        if groupConstructionAndSerialize && |downloadGroup| > 0 {
          ghost var queue := packetReturnQueue;
          var i := 0;
          while i < |downloadGroup|
            invariant i <= |downloadGroup|
            invariant Value() == old(Value()).(queue := queue + downloadGroup[..i])
          {
            PushBackPacket(downloadGroup[i], false);
            assert downloadGroup[..i + 1] == downloadGroup[..i] + [downloadGroup[i]];
            i := i + 1;
          }
          assert downloadGroup[..i] == downloadGroup;
          downloadGroup := [];
          PushBackPacket(packet, false);
          continues := false;
        }
      }
      if continues {
        delivered := delivered + [packet];
      }
    }

    /** One poll of `RakPeer::Receive`. */
    method Poll(queryGroupDownloadMessages: bool)
      modifies this
      ensures Value() == Step(old(Value()), Event.Poll(queryGroupDownloadMessages))
    {
      if |packetReturnQueue| > 0 {
        var packet := packetReturnQueue[0];
        packetReturnQueue := packetReturnQueue[1..];
        var continues := Receive(packet, queryGroupDownloadMessages);
      }
    }

    method ClearDownloadGroup()
      modifies this
      ensures Value() == Step(old(Value()), Clear)
    {
      ghost var group := downloadGroup;
      var i := 0;
      while i < |downloadGroup|
        invariant i <= |downloadGroup|
        invariant Value() == old(Value()).(freed := old(freed) + downloadGroup[..i])
      {
        freed := freed + [downloadGroup[i]];
        i := i + 1;
      }
      assert downloadGroup[..i] == downloadGroup;
      downloadGroup := [];
    }
  }
}
