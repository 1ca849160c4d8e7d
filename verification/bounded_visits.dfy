/** How often an item is visited: never more than it has slots before the end of its sampling. */
module BoundedVisits {
  import opened Scheduler
  import opened Slots
  import opened Rounds

  /** The number of slots of a key before the first one that is not before the end of its sampling. */
  ghost function SlotsBefore(w: World, key: string): nat
    requires w.Unbounded()
  {
    w.Index(key, w.Until(key))
  }

  lemma SlotsBeforeCounts(w: World, key: string, k: nat)
    requires w.Unbounded()
    ensures k < SlotsBefore(w, key) <==> forall j: nat | j <= k :: w.Slot(key, j) < w.Until(key)
  {
    IndexBelow(w.slots(key), w.Until(key), k);
    assert forall j: nat :: w.Slot(key, j) == w.slots(key)(j);
  }

  /** The slot found at a time precedes the end of sampling exactly if its index is below their number. */
  lemma UntilBetween(w: World, key: string, t: int)
    requires w.Unbounded()
    ensures w.First(key, t) < w.Until(key) <==> w.Index(key, t) < SlotsBefore(w, key)
  {
    if t <= w.Until(key) {
      FirstMonotoneAndStable(w.slots(key), t, w.Until(key));
    } else {
      FirstMonotoneAndStable(w.slots(key), w.Until(key), t);
    }
  }

  predicate OnTime(w: World, v: Visit) {
    v.due < w.Until(v.key)
  }

  /** The tasks of a key among `log` that were due before (or after) the end of its sampling. */
  function Count(w: World, log: seq<Visit>, key: string, onTime: bool): nat {
    if log == [] then 0
    else
      var v := log[|log| - 1];
      Count(w, log[..|log| - 1], key, onTime) + if v.key == key && OnTime(w, v) == onTime then 1 else 0
  }

  // ----- Visits on time -----

  /** A key's visits due on time number at most one more than the index of the slot the last of them was due at. */
  lemma {:induction false} RankBound(w: World, s: State, n: nat, key: string)
    requires w.Unbounded() && Inv(w, s) && n <= |s.log|
    ensures Count(w, s.log[..n], key, true) <= SlotsBefore(w, key)
    ensures forall i :: n <= i < |s.log| && s.log[i].key == key
              ==> Count(w, s.log[..n], key, true) <= w.Index(key, s.log[i].due)
  {
    if n > 0 {
      RankBound(w, s, n - 1, key);
      assert s.log[..n][..n - 1] == s.log[..n - 1];
      var v := s.log[n - 1];
      assert AllVisits(s)[n - 1] == v;
      if v.key == key {
        if OnTime(w, v) {
          UntilBetween(w, key, v.due);
        }
        forall i | n <= i < |s.log| && s.log[i].key == key
          ensures w.Index(key, v.due) < w.Index(key, s.log[i].due)
        {
          VisitsOrdered(w, s, n - 1, i);
        }
      }
    }
  }

  // ----- Visits past the end of sampling -----

  /** The consumer schedules an item whose first slot is already past the end of its sampling. */
  ghost predicate LateAdd(w: World, s: State, a: Action, key: string)
    requires w.Unbounded()
  {
    a.Touch? && s.cons == Adding(key, true) && w.First(key, s.now) >= w.Until(key)
  }

  ghost function LateAdds(w: World, s: State, run: seq<Action>, key: string): nat
    requires w.Unbounded() && Legal(w, s, run)
    decreases |run|
  {
    if run == [] then 0
    else (if LateAdd(w, s, run[0], key) then 1 else 0) + LateAdds(w, Step(w, s, run[0]), run[1..], key)
  }

  /** The item of the key is in the set, past the end of its sampling, and still has a visit to come. */
  ghost predicate LatePending(w: World, s: State, key: string) {
    && Pending(s, key)
    && s.next[key] >= w.Until(key)
    && !(s.orch.Removing? && s.orch.visit.key == key)
  }

  ghost function LateDebt(w: World, s: State, key: string): nat {
    Count(w, AllVisits(s), key, false) + if LatePending(w, s, key) then 1 else 0
  }

  lemma CountLast(w: World, log: seq<Visit>, v: Visit, key: string, onTime: bool)
    ensures Count(w, log + [v], key, onTime)
         == Count(w, log, key, onTime) + if v.key == key && OnTime(w, v) == onTime then 1 else 0
  {
    assert (log + [v])[..|log|] == log;
  }

  /** What a crash takes away: the visit in flight and the item that waits for one. */
  ghost function LostTo(w: World, s: State, a: Action, key: string): nat {
    if a.Crash? then Count(w, InFlight(s.orch), key, false) + if LatePending(w, s, key) then 1 else 0 else 0
  }

  ghost function Lost(w: World, s: State, run: seq<Action>, key: string): nat
    requires w.Unbounded() && Legal(w, s, run)
    decreases |run|
  {
    if run == [] then 0 else LostTo(w, s, run[0], key) + Lost(w, Step(w, s, run[0]), run[1..], key)
  }

  /** A visit turns an item that waits past its end into one in flight, and makes no item wait that did not. */
  lemma LateDebtUpdate(w: World, s: State, key: string)
    requires w.Unbounded() && Inv(w, s) && Enabled(s, Update)
    ensures LateDebt(w, Step(w, s, Update), key) == LateDebt(w, s, key)
  {
    var s' := Step(w, s, Update);
    var v := NewVisit(w, s);
    assert AllVisits(s') == AllVisits(s) + [v];
    CountLast(w, AllVisits(s), v, key, false);
    FirstFollows(w, v.key, s.now, s.now);
  }

  lemma CountSplit(w: World, s: State, key: string)
    ensures Count(w, AllVisits(s), key, false)
         == Count(w, s.log, key, false) + Count(w, InFlight(s.orch), key, false)
  {
    if InFlight(s.orch) != [] {
      CountLast(w, s.log, s.orch.visit, key, false);
      CountLast(w, [], s.orch.visit, key, false);
      assert [] + [s.orch.visit] == [s.orch.visit];
    } else {
      assert AllVisits(s) == s.log;
    }
  }

  lemma VisitsKept(w: World, s: State, a: Action)
    requires w.Unbounded() && Enabled(s, a) && !a.Update? && !a.Crash?
    ensures AllVisits(Step(w, s, a)) == AllVisits(s)
  {
    if a.Send? {
      assert AllVisits(Step(w, s, a)) == AllVisits(s);
    }
  }

  /** The other steps make no item late, unless it is just being scheduled, and let none off. */
  lemma LatePendingStep(w: World, s: State, a: Action, key: string)
    requires w.Unbounded() && Inv(w, s) && Enabled(s, a) && !a.Update? && !a.Crash?
    ensures LatePending(w, Step(w, s, a), key) <==> LatePending(w, s, key) || LateAdd(w, s, a, key)
    ensures LateAdd(w, s, a, key) ==> !LatePending(w, s, key)
  {
  }

  lemma LateDebtStep(w: World, s: State, a: Action, key: string)
    requires w.Unbounded() && Inv(w, s) && Enabled(s, a)
    ensures LateDebt(w, Step(w, s, a), key) + LostTo(w, s, a, key)
         == LateDebt(w, s, key) + if LateAdd(w, s, a, key) then 1 else 0
  {
    if a.Update? {
      LateDebtUpdate(w, s, key);
    } else if a.Crash? {
      CountSplit(w, s, key);
      assert AllVisits(Step(w, s, a)) == s.log;
    } else {
      LatePendingStep(w, s, a, key);
      VisitsKept(w, s, a);
    }
  }

  /**
   Over every run every late addition of the consumer is accounted for exactly once: it has been visited, its
   visit is in flight, it waits, or a crash has taken it away.
   */
  lemma {:induction false} LateDebtRun(w: World, s: State, run: seq<Action>, key: string)
    requires w.Unbounded() && Inv(w, s) && Legal(w, s, run)
    ensures LateDebt(w, Run(w, s, run), key) + Lost(w, s, run, key)
         == LateDebt(w, s, key) + LateAdds(w, s, run, key)
    decreases |run|
  {
    if run != [] {
      LateDebtStep(w, s, run[0], key);
      InvStep(w, s, run[0]);
      LateDebtRun(w, Step(w, s, run[0]), run[1..], key);
    }
  }

  lemma {:induction false} NothingLost(w: World, s: State, run: seq<Action>, key: string)
    requires w.Unbounded() && Legal(w, s, run)
    requires forall i :: 0 <= i < |run| ==> !run[i].Crash?
    ensures Lost(w, s, run, key) == 0
    decreases |run|
  {
    if run != [] {
      NothingLost(w, Step(w, s, run[0]), run[1..], key);
    }
  }

  /**
   In the life of one process the visits past the end of sampling, sent or in flight, are exactly as many as
   the consumer's late additions, but for one that may still wait in the set.
   */
  lemma LateVisitsExactly(w: World, start: int, run: seq<Action>, key: string)
    requires w.Unbounded() && ZERO_TIME < start && Legal(w, Init(start), run)
    requires forall i :: 0 <= i < |run| ==> !run[i].Crash?
    ensures var end := Run(w, Init(start), run);
            Count(w, AllVisits(end), key, false) + (if LatePending(w, end, key) then 1 else 0)
            == LateAdds(w, Init(start), run, key)
  {
    InitInv(w, start);
    LateDebtRun(w, Init(start), run, key);
    NothingLost(w, Init(start), run, key);
  }

  // ----- A late item is visited -----

  /** The consumer adds the key and schedules it while the orchestrator waits for the first item. */
  function Addition(key: string): seq<Action> {
    [SyncDone, Add(key), Touch]
  }

  /** The orchestrator's first turn only sorts; the next is for the item, once that is due. */
  function TwoTurns(key: string, due: int): seq<Action> {
    [Begin, CallNext, Sort([key])] + [Tick(due + 1), CallNext, TestReady, Update]
  }

  lemma Prepend(w: World, s: State, a: Action, rest: seq<Action>, key: string)
    requires w.Unbounded() && Enabled(s, a) && Legal(w, Step(w, s, a), rest)
    ensures Legal(w, s, [a] + rest) && Run(w, s, [a] + rest) == Run(w, Step(w, s, a), rest)
    ensures LateAdds(w, s, [a] + rest, key)
         == (if LateAdd(w, s, a, key) then 1 else 0) + LateAdds(w, Step(w, s, a), rest, key)
  {
    assert ([a] + rest)[1..] == rest;
  }

  lemma AdditionRuns(w: World, start: int, key: string)
    requires w.Unbounded() && ZERO_TIME < start
    ensures Legal(w, Init(start), Addition(key))
    ensures Run(w, Init(start), Addition(key))
         == State([key], map[key := w.First(key, start)], -1, Waiting, Resting, start, [])
    ensures w.First(key, start) >= w.Until(key) ==> LateAdds(w, Init(start), Addition(key), key) == 1
  {
    var s0 := Init(start);
    var s1 := Step(w, s0, SyncDone);
    var s2 := Step(w, s1, Add(key));
    assert s2 == State([key], map[key := ZERO_TIME], -1, Waiting, Adding(key, true), start, []);
    Prepend(w, s2, Touch, [], key);
    Prepend(w, s1, Add(key), [Touch], key);
    Prepend(w, s0, SyncDone, [Add(key)] + [Touch], key);
    assert Addition(key) == [SyncDone] + ([Add(key)] + [Touch]);
    assert map[key := ZERO_TIME][key := w.First(key, start)] == map[key := w.First(key, start)];
  }

  lemma SecondTurnRuns(w: World, s: State, key: string, due: int)
    requires w.Unbounded() && ZERO_TIME < s.now <= due && due >= w.Until(key)
    requires s == State([key], map[key := due], 0, Idle, Resting, s.now, [])
    ensures var run := [Tick(due + 1), CallNext, TestReady, Update];
            && Legal(w, s, run)
            && Run(w, s, run).orch
               == Removing(Visit(key, w.Index(key, due + 1) + 2, due, due + 1, w.First(key, due + 1)))
  {
    var s1 := s.(now := due + 1);
    var s2 := s1.(pointer := 1, orch := Fetched(key));
    var s3 := s2.(orch := Due(key));
    assert Step(w, s1, CallNext) == s2 && Step(w, s2, TestReady) == s3;
    Prepend(w, s3, Update, [], key);
    Prepend(w, s2, TestReady, [Update], key);
    Prepend(w, s1, CallNext, [TestReady] + [Update], key);
    Prepend(w, s, Tick(due + 1), [CallNext] + ([TestReady] + [Update]), key);
    assert [Tick(due + 1), CallNext, TestReady, Update] == [Tick(due + 1)] + ([CallNext] + ([TestReady] + [Update]));
  }

  lemma TwoTurnsRun(w: World, s: State, key: string, due: int)
    requires w.Unbounded() && ZERO_TIME < s.now <= due && due >= w.Until(key)
    requires s == State([key], map[key := due], -1, Waiting, Resting, s.now, [])
    ensures Legal(w, s, TwoTurns(key, due))
    ensures Run(w, s, TwoTurns(key, due)).orch
         == Removing(Visit(key, w.Index(key, due + 1) + 2, due, due + 1, w.First(key, due + 1)))
  {
    var second := [Tick(due + 1), CallNext, TestReady, Update];
    var s1 := s.(orch := Idle);
    var s2 := s.(orch := Sorting);
    var s3 := s.(pointer := 0, orch := Idle);
    assert Step(w, s1, CallNext) == s2 && Step(w, s2, Sort([key])) == s3;
    SecondTurnRuns(w, s3, key, due);
    Prepend(w, s2, Sort([key]), second, key);
    Prepend(w, s1, CallNext, [Sort([key])] + second, key);
    Prepend(w, s, Begin, [CallNext] + ([Sort([key])] + second), key);
    assert TwoTurns(key, due) == [Begin] + ([CallNext] + ([Sort([key])] + second));
  }

  /**
   An item that the consumer adds with no slot left before the end of its sampling is visited all the same:
   from the first start of the program on, at a slot past that end.
   */
  lemma LateItemIsVisited(w: World, start: int, key: string)
    requires w.Unbounded() && ZERO_TIME < start && w.First(key, start) >= w.Until(key)
    ensures var due, added := w.First(key, start), Addition(key);
            && Legal(w, Init(start), added) && LateAdds(w, Init(start), added, key) == 1
            && Legal(w, Run(w, Init(start), added), TwoTurns(key, due))
            && var end := Run(w, Run(w, Init(start), added), TwoTurns(key, due));
               end.orch.Removing? && end.orch.visit.key == key && end.orch.visit.due == due >= w.Until(key)
  {
    AdditionRuns(w, start, key);
    TwoTurnsRun(w, Run(w, Init(start), Addition(key)), key, w.First(key, start));
  }

  /**
   Over every run, through any crashes: the tasks of a key due before the end of its sampling number at
   most its slots before that end, and the other ones at most the times the consumer scheduled it too late.
   */
  lemma VisitsBounded(w: World, start: int, run: seq<Action>, key: string)
    requires w.Unbounded() && ZERO_TIME < start && Legal(w, Init(start), run)
    ensures var log := Run(w, Init(start), run).log;
            && Count(w, log, key, true) <= SlotsBefore(w, key)
            && Count(w, log, key, false) <= LateAdds(w, Init(start), run, key)
  {
    InitInv(w, start);
    InvRun(w, Init(start), run);
    var s := Run(w, Init(start), run);
    RankBound(w, s, |s.log|, key);
    assert s.log[..|s.log|] == s.log;
    LateDebtRun(w, Init(start), run, key);
    CountSplit(w, s, key);
  }
}
