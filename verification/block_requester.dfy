/** Following the head of the chain: the periodic request for all blocks since the last one tracked. */
module BlockRequesters {
  import NetworkScrapper
  import opened Options

  const MAX_UINT64: nat := 0xffff_ffff_ffff_ffff

  /** What happened to a request for a block header. */
  datatype Event = Failed(number: nat) | Delivered(number: nat)

  /**
   What the outside answers during one tick: the last available block, the number in the header returned for
   a requested block, and whether all consumers accept the block of that header.
   */
  datatype Answers = Answers(last: Option<nat>, header: nat -> Option<nat>, accept: nat -> bool) {
    /** A header carries the number it was asked for. */
    ghost predicate Faithful() {
      forall n: nat :: header(n).Some? ==> header(n).value == n
    }

    /** The loop counter is an unsigned 64-bit integer that must be able to pass the last block. */
    predicate InRange() {
      last.Some? ==> last.value < MAX_UINT64
    }
  }

  datatype State = State(tracked: nat, requested: nat, events: seq<Event>, stopped: bool)

  /** The catch-up loop from block `b` on. */
  function CatchUp(s: State, b: nat, last: nat, a: Answers): State
    decreases last + 1 - b
  {
    if s.stopped || b > last then s
    else
      var s' := s.(requested := s.requested + 1);
      match a.header(b)
      case None => CatchUp(s'.(events := s.events + [Failed(b)]), b + 1, last, a)
      case Some(n) =>
        if a.accept(n) then CatchUp(s'.(tracked := n, events := s.events + [Delivered(n)]), b + 1, last, a)
        else s'.(stopped := true)
  }

  function Tick(s: State, a: Answers): State {
    if s.stopped then s
    else if a.last.None? then s.(stopped := true)
    else if a.last.value > s.tracked then CatchUp(s, s.tracked + 1, a.last.value, a)
    else s
  }

  function RunTicks(s: State, ticks: seq<Answers>): State
    decreases |ticks|
  {
    if ticks == [] then s else RunTicks(Tick(s, ticks[0]), ticks[1..])
  }

  class BlockRequester {
    var totalRequestedBlocks: nat
    var lastBlockTracked: nat
    var stopped: bool
    ghost var events: seq<Event>

    ghost function Abs(): State
      reads this
    {
      State(lastBlockTracked, totalRequestedBlocks, events, stopped)
    }

    /** Starts one block before the first reported one; below block 1 the subtraction wraps around. */
    constructor (firstLast: nat)
      requires firstLast <= MAX_UINT64
      ensures Abs() == State(if firstLast == 0 then MAX_UINT64 else firstLast - 1, 0, [], false)
    {
      lastBlockTracked := if firstLast == 0 then MAX_UINT64 else firstLast - 1;
      totalRequestedBlocks := 0;
      stopped := false;
      events := [];
    }

    predicate IsBlockNew(block: nat)
      reads this
    {
      block > lastBlockTracked
    }

    method ProcessNewBlock(number: nat, accept: bool) returns (failed: bool)
      modifies `lastBlockTracked, `events
      ensures failed <==> !accept
      ensures lastBlockTracked == if accept then number else old(lastBlockTracked)
      ensures events == if accept then old(events) + [Delivered(number)] else old(events)
    {
      if !accept {
        return true;
      }
      lastBlockTracked := number;
      events := events + [Delivered(number)];
      return false;
    }

    /** The body of the proposal tick; it returns from the whole loop when it stops. */
    method ProposalTick(a: Answers)
      requires !stopped && a.InRange()
      modifies this
      ensures Abs() == Tick(old(Abs()), a)
      ensures a.last.None? ==> stopped
      ensures a.last.None? || a.last.value <= old(lastBlockTracked)
              ==> Abs() == old(Abs()).(stopped := a.last.None?)
    {
      if a.last.None? {
        stopped := true;
        return;
      }
      var lastBlock := a.last.value;
      if !IsBlockNew(lastBlock) {
        return;
      }
      ghost var result := Tick(Abs(), a);
      var blockToRequest := lastBlockTracked + 1;
      while blockToRequest <= lastBlock
        invariant !stopped && CatchUp(Abs(), blockToRequest, lastBlock, a) == result
        decreases lastBlock + 1 - blockToRequest
      {
        totalRequestedBlocks := totalRequestedBlocks + 1;
        var blockHeader := a.header(blockToRequest);
        if blockHeader.None? {
          events := events + [Failed(blockToRequest)];
        } else {
          var failed := ProcessNewBlock(blockHeader.value, a.accept(blockHeader.value));
          if failed {
            stopped := true;
            return;
          }
        }
        blockToRequest := blockToRequest + 1;
      }
    }
  }

  // ----- What holds over all runs -----

  ghost predicate DeliveredInOrder(events: seq<Event>) {
    forall i, j :: 0 <= i < j < |events| && events[i].Delivered? && events[j].Delivered?
      ==> events[i].number < events[j].number
  }

  /** A failed request for the block was followed by the delivery of a higher one. */
  ghost predicate SkippedBy(events: seq<Event>, n: nat, i: int, j: int) {
    0 <= i < j < |events| && events[i] == Failed(n) && events[j].Delivered? && events[j].number > n
  }

  ghost predicate Settled(events: seq<Event>, n: nat) {
    Delivered(n) in events || exists i, j :: SkippedBy(events, n, i, j)
  }

  ghost predicate Inv(start: nat, s: State) {
    && start <= s.tracked
    && DeliveredInOrder(s.events)
    && (forall e :: e in s.events && e.Delivered? ==> start < e.number <= s.tracked)
    && (forall n: nat :: start < n <= s.tracked ==> Settled(s.events, n))
  }

  lemma SettledStays(events: seq<Event>, e: Event, n: nat)
    requires Settled(events, n)
    ensures Settled(events + [e], n)
  {
    if Delivered(n) in events {
      assert Delivered(n) in events + [e];
    } else {
      var i, j :| SkippedBy(events, n, i, j);
      assert SkippedBy(events + [e], n, i, j);
    }
  }

  /** Delivering a block settles it and all blocks below whose request failed in this tick. */
  lemma DeliveryKeeps(start: nat, s: State, b: nat)
    requires Inv(start, s) && s.tracked < b
    requires forall n: nat :: s.tracked < n < b ==> Failed(n) in s.events
    ensures Inv(start, s.(tracked := b, events := s.events + [Delivered(b)]))
  {
    var events := s.events + [Delivered(b)];
    forall n: nat | start < n <= b ensures Settled(events, n) {
      if n <= s.tracked {
        SettledStays(s.events, Delivered(b), n);
      } else if n == b {
        assert events[|s.events|] == Delivered(b);
      } else {
        assert Failed(n) in s.events;
        var i :| 0 <= i < |s.events| && s.events[i] == Failed(n);
        assert SkippedBy(events, n, i, |s.events|);
      }
    }
    forall i, j | 0 <= i < j < |events| && events[i].Delivered? && events[j].Delivered?
      ensures events[i].number < events[j].number
    {
      assert events[i] in s.events;
    }
  }

  lemma FailureKeeps(start: nat, s: State, b: nat)
    requires Inv(start, s)
    ensures Inv(start, s.(events := s.events + [Failed(b)]))
  {
    forall n: nat | start < n <= s.tracked ensures Settled(s.events + [Failed(b)], n) {
      SettledStays(s.events, Failed(b), n);
    }
  }

  lemma {:induction false} CatchUpKeeps(start: nat, s: State, b: nat, last: nat, a: Answers)
    requires Inv(start, s) && a.Faithful() && s.tracked < b
    requires forall n: nat :: s.tracked < n < b ==> Failed(n) in s.events
    ensures Inv(start, CatchUp(s, b, last, a))
    ensures s.tracked <= CatchUp(s, b, last, a).tracked && s.events <= CatchUp(s, b, last, a).events
    decreases last + 1 - b
  {
    if !s.stopped && b <= last {
      var s' := s.(requested := s.requested + 1);
      if a.header(b).None? {
        FailureKeeps(start, s', b);
        CatchUpKeeps(start, s'.(events := s.events + [Failed(b)]), b + 1, last, a);
      } else if a.accept(b) {
        DeliveryKeeps(start, s', b);
        CatchUpKeeps(start, s'.(tracked := b, events := s.events + [Delivered(b)]), b + 1, last, a);
      }
    }
  }

  lemma {:induction false} RunKeeps(start: nat, s: State, ticks: seq<Answers>)
    requires Inv(start, s)
    requires forall i :: 0 <= i < |ticks| ==> ticks[i].Faithful()
    ensures Inv(start, RunTicks(s, ticks))
    ensures s.tracked <= RunTicks(s, ticks).tracked && s.events <= RunTicks(s, ticks).events
    decreases |ticks|
  {
    if ticks != [] {
      var a := ticks[0];
      if a.last.Some? {
        CatchUpKeeps(start, s, s.tracked + 1, a.last.value, a);
      }
      RunKeeps(start, Tick(s, a), ticks[1..]);
    }
  }

  /**
   Over every run of the requester: blocks are delivered in strictly increasing order, hence at most once;
   every block from the start up to the last one tracked was delivered, or a request for it failed before a
   higher block was delivered.
   */
  lemma FollowsChain(start: nat, ticks: seq<Answers>, n: nat)
    requires forall i :: 0 <= i < |ticks| ==> ticks[i].Faithful()
    ensures var s := RunTicks(State(start, 0, [], false), ticks);
            && DeliveredInOrder(s.events)
            && (start < n <= s.tracked ==> Settled(s.events, n))
  {
    RunKeeps(start, State(start, 0, [], false), ticks);
  }

  /** A block that was passed over is never delivered later. */
  lemma SkippedForGood(start: nat, s: State, ticks: seq<Answers>, n: nat)
    requires Inv(start, s) && start < n <= s.tracked && Delivered(n) !in s.events
    requires forall i :: 0 <= i < |ticks| ==> ticks[i].Faithful()
    ensures Delivered(n) !in RunTicks(s, ticks).events
  {
    RunKeeps(start, s, ticks);
    var end := RunTicks(s, ticks);
    assert Settled(s.events, n);
    var i, j :| SkippedBy(s.events, n, i, j);
    assert end.events[j] == s.events[j];
    forall k | 0 <= k < |end.events| ensures end.events[k] != Delivered(n) {
      if k < |s.events| {
        assert end.events[k] == s.events[k];
      } else {
        assert end.events[k].Delivered? ==> end.events[j].number < end.events[k].number;
      }
    }
  }

  // ----- The end of the requester -----

  /** Once it has stopped, for whatever reason, no tick does anything. */
  lemma {:induction false} StoppedForGood(s: State, ticks: seq<Answers>)
    requires s.stopped
    ensures RunTicks(s, ticks) == s
    decreases |ticks|
  {
    if ticks != [] {
      StoppedForGood(s, ticks[1..]);
    }
  }

  lemma {:induction false} RunSplit(s: State, before: seq<Answers>, after: seq<Answers>)
    ensures RunTicks(s, before + after) == RunTicks(RunTicks(s, before), after)
    decreases |before|
  {
    if before == [] {
      assert before + after == after;
    } else {
      assert (before + after)[1..] == before[1..] + after;
      RunSplit(Tick(s, before[0]), before[1..], after);
    }
  }

  /**
   A single status request that fails ends the requester: whatever the chain does afterwards, no block is
   requested, delivered or tracked any more.
   */
  lemma FailedStatusIsTheEnd(s: State, before: seq<Answers>, a: Answers, after: seq<Answers>)
    requires a.last.None?
    ensures var s', end := RunTicks(s, before), RunTicks(s, before + [a] + after);
            end.stopped && end.events == s'.events && end.requested == s'.requested && end.tracked == s'.tracked
  {
    RunSplit(s, before + [a], after);
    RunSplit(s, before, [a]);
    var s' := RunTicks(s, before);
    assert [a][1..] == [] && RunTicks(s', [a]) == Tick(s', a);
    StoppedForGood(Tick(s', a), after);
  }

  // ----- What one tick does, exactly -----

  /** What comes of the requests for the `n` blocks from `b` on. */
  function Outcomes(a: Answers, b: nat, n: nat): (events: seq<Event>)
    ensures |events| == n
    ensures forall i :: 0 <= i < n
              ==> events[i] == if a.header(b + i).Some? then Delivered(b + i) else Failed(b + i)
    decreases n
  {
    if n == 0 then [] else [Outcome(a, b)] + Outcomes(a, b + 1, n - 1)
  }

  function Outcome(a: Answers, n: nat): Event {
    if a.header(n).Some? then Delivered(n) else Failed(n)
  }

  lemma OutcomesFrom(a: Answers, b: nat, n: nat, events: seq<Event>)
    requires n > 0
    ensures events + Outcomes(a, b, n) == events + [Outcome(a, b)] + Outcomes(a, b + 1, n - 1)
  {
  }

  function Highest(a: Answers, tracked: nat, last: nat): nat
    decreases last
  {
    if last <= tracked then tracked
    else if a.header(last).Some? then last
    else Highest(a, tracked, last - 1)
  }

  /** The first block from `b` on that a consumer refuses, or the one after the last. */
  function Stop(a: Answers, b: nat, last: nat): (n: nat)
    requires b <= last + 1
    ensures b <= n <= last + 1
    decreases last + 1 - b
  {
    if b > last || (a.header(b).Some? && !a.accept(b)) then b else Stop(a, b + 1, last)
  }

  /** The request for block `b`, which no consumer refuses. */
  function Requested(s: State, b: nat, a: Answers): State {
    s.(requested := s.requested + 1, events := s.events + [Outcome(a, b)],
       tracked := if a.header(b).Some? then b else s.tracked)
  }

  lemma CatchUpGoesOn(s: State, b: nat, last: nat, a: Answers)
    requires a.Faithful() && !s.stopped && b <= last && b < Stop(a, b, last)
    ensures CatchUp(s, b, last, a) == CatchUp(Requested(s, b, a), b + 1, last, a)
    ensures Stop(a, b + 1, last) == Stop(a, b, last)
  {
  }

  lemma {:induction false} CatchUpExact(s: State, b: nat, last: nat, a: Answers)
    requires a.Faithful() && !s.stopped && s.tracked < b <= last + 1
    requires Highest(a, s.tracked, b - 1) == s.tracked
    ensures var stop, end := Stop(a, b, last), CatchUp(s, b, last, a);
            && end.tracked == Highest(a, s.tracked, stop - 1)
            && end.requested == s.requested + stop - b + (if stop <= last then 1 else 0)
            && end.events == s.events + Outcomes(a, b, stop - b)
            && (end.stopped <==> stop <= last)
    decreases last + 1 - b
  {
    var stop := Stop(a, b, last);
    if b < stop {
      HighestFrom(a, s.tracked, b, stop - 1);
      HighestFrom(a, s.tracked, b, b);
      CatchUpGoesOn(s, b, last, a);
      CatchUpExact(Requested(s, b, a), b + 1, last, a);
      OutcomesFrom(a, b, stop - b, s.events);
    }
  }

  lemma {:induction false} HighestFrom(a: Answers, tracked: nat, b: nat, last: nat)
    requires tracked < b <= last && Highest(a, tracked, b - 1) == tracked
    ensures Highest(a, tracked, last) == Highest(a, if a.header(b).Some? then b else tracked, last)
    ensures a.header(b).None? ==> Highest(a, tracked, b) == tracked
    decreases last
  {
    if b < last {
      HighestFrom(a, tracked, b, last - 1);
    }
  }

  /**
   A tick requests exactly the blocks above the last one tracked, each once and in order, up to the first that
   a consumer refuses, at which the requester stops for good. In particular a failed request above the last
   one tracked is made again, and the block is passed over exactly if a higher one is available. A reported
   block at or below the last one tracked changes nothing.
   */
  lemma TickExact(s: State, a: Answers)
    requires a.Faithful() && !s.stopped && a.last.Some?
    ensures a.last.value <= s.tracked ==> Tick(s, a) == s
    ensures var last, first := a.last.value, s.tracked + 1;
            last > s.tracked ==>
            var stop := Stop(a, first, last);
            Tick(s, a)
            == State(Highest(a, s.tracked, stop - 1), s.requested + stop - first + (if stop <= last then 1 else 0),
                     s.events + Outcomes(a, first, stop - first), stop <= last)
  {
    if a.last.value > s.tracked {
      CatchUpExact(s, s.tracked + 1, a.last.value, a);
    }
  }

  /** The new last tracked block is the highest one whose header came, or the old one if none did. */
  lemma {:induction false} HighestCame(a: Answers, tracked: nat, last: nat)
    requires tracked <= last
    ensures var h := Highest(a, tracked, last);
            && tracked <= h <= last && (h > tracked ==> a.header(h).Some?)
            && forall n :: h < n <= last ==> a.header(n).None?
    decreases last
  {
    if last > tracked && a.header(last).None? {
      HighestCame(a, tracked, last - 1);
    }
  }

  /** No block before the stop is refused, and the one at the stop is, unless it is past the last. */
  lemma {:induction false} StopsAtFirstRefusal(a: Answers, b: nat, last: nat)
    requires b <= last + 1
    ensures forall n: nat :: b <= n < Stop(a, b, last) ==> a.header(n).None? || a.accept(n)
    ensures var n := Stop(a, b, last); n <= last ==> a.header(n).Some? && !a.accept(n)
    decreases last + 1 - b
  {
    if b <= last && (a.header(b).None? || a.accept(b)) {
      StopsAtFirstRefusal(a, b + 1, last);
    }
  }

  /** If the first status reports no available block, the start wraps around and nothing is ever requested. */
  lemma {:induction false} StuckAtTop(s: State, ticks: seq<Answers>)
    requires s.tracked == MAX_UINT64
    requires forall i :: 0 <= i < |ticks| ==> ticks[i].InRange()
    ensures RunTicks(s, ticks).events == s.events && RunTicks(s, ticks).requested == s.requested
    decreases |ticks|
  {
    if ticks != [] {
      StuckAtTop(Tick(s, ticks[0]), ticks[1..]);
    }
  }

  // ----- The scrapper behind the requester -----

  function DeliveredNumbers(events: seq<Event>): seq<nat> {
    if events == [] then []
    else
      var rest := DeliveredNumbers(events[..|events| - 1]);
      var e := events[|events| - 1];
      if e.Delivered? then rest + [e.number] else rest
  }

  lemma {:induction false} NumbersIncrease(events: seq<Event>)
    requires DeliveredInOrder(events)
    ensures NetworkScrapper.Increasing(DeliveredNumbers(events))
    ensures forall x :: x in DeliveredNumbers(events) <==> Delivered(x) in events
  {
    if events != [] {
      var n := |events| - 1;
      NumbersIncrease(events[..n]);
      assert events == events[..n] + [events[n]];
      var rest := DeliveredNumbers(events[..n]);
      forall i | 0 <= i < |rest| && events[n].Delivered? ensures rest[i] < events[n].number {
        assert rest[i] in rest;
        var k :| 0 <= k < n && events[..n][k] == Delivered(rest[i]);
        assert events[k].number < events[n].number;
      }
    }
  }

  /**
   Within one run, whatever rows were read at start-up, no block the requester delivers passes the scrapper's
   cache twice: after the share of the rows, the blocks let through are delivered ones in strictly increasing
   order. A delivered block is kept back exactly if the cache then still holds it from the rows.
   */
  lemma DeliveredPassOnce(start: nat, ticks: seq<Answers>, size: nat, rows: seq<nat>)
    requires forall i :: 0 <= i < |ticks| ==> ticks[i].Faithful()
    ensures var numbers := DeliveredNumbers(RunTicks(State(start, 0, [], false), ticks).events);
            var seed := NetworkScrapper.Processed(size, rows);
            var passed := NetworkScrapper.Passed(size, seed, numbers);
            && (forall x :: x in numbers
                  <==> Delivered(x) in RunTicks(State(start, 0, [], false), ticks).events)
            && NetworkScrapper.Processed(size, rows + numbers) == seed + passed
            && NetworkScrapper.Increasing(passed)
            && (forall x :: x in passed ==> x in numbers)
            && (forall i :: 0 <= i < |numbers|
                  ==> (numbers[i] in passed <==> !NetworkScrapper.KeptBack(size, seed, numbers, i)))
  {
    FollowsChain(start, ticks, 0);
    var numbers := DeliveredNumbers(RunTicks(State(start, 0, [], false), ticks).events);
    var seed := NetworkScrapper.Processed(size, rows);
    NumbersIncrease(RunTicks(State(start, 0, [], false), ticks).events);
    NetworkScrapper.SeededCache(size, rows, numbers);
    NetworkScrapper.PassedIncreases(size, seed, numbers);
    forall i | 0 <= i < |numbers|
      ensures numbers[i] in NetworkScrapper.Passed(size, seed, numbers)
              <==> !NetworkScrapper.KeptBack(size, seed, numbers, i)
    {
      NetworkScrapper.PassedExactly(size, seed, numbers, i);
    }
  }
}
