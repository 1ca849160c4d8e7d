/**
 How items leave the set: after a number of visits known in advance, and, once past the end of its sampling,
 each within a number of passes known in advance, so that without new items the set runs empty.
 */
module Draining {
  import opened Scheduler
  import opened Rounds
  import opened BoundedVisits
  import opened Sequences
  import opened Slots
  import Starvation

  /** No item enters the set: neither by the consumer nor by a new start of the process. */
  predicate Closed(a: Action) {
    !a.Add? && !a.Crash? && !a.SyncRow?
  }

  function AtLeastOne(n: int): nat {
    if n < 1 then 1 else n
  }

  /** The item of the key is not in the set, or about to be removed. */
  ghost predicate Gone(s: State, key: string) {
    key in s.next ==> s.orch.Removing? && s.orch.visit.key == key
  }

  /** The slots from `t` to the end of sampling. */
  ghost function SlotsLeft(w: World, key: string, t: int): (n: int)
    requires w.Unbounded()
    ensures 0 <= n <= SlotsBefore(w, key)
  {
    if w.Index(key, t) >= SlotsBefore(w, key) then 0 else SlotsBefore(w, key) - w.Index(key, t)
  }

  /**
   The most visits an item may still get: one for each slot left, and at least one while it is in the set. An
   item that is not in the set, or about to be removed, can come back with the slots left from now.
   */
  ghost function Weight(w: World, s: State, key: string): nat
    requires w.Unbounded()
  {
    if key !in s.next || (s.orch.Removing? && s.orch.visit.key == key) then SlotsLeft(w, key, s.now)
    else if s.next[key] == ZERO_TIME then AtLeastOne(SlotsLeft(w, key, s.now))
    else AtLeastOne(SlotsLeft(w, key, s.next[key]))
  }

  ghost function Total(w: World, s: State, keys: seq<string>): nat
    requires w.Unbounded()
  {
    if keys == [] then 0 else Weight(w, s, keys[0]) + Total(w, s, keys[1..])
  }

  ghost function Visits(w: World, s: State, run: seq<Action>): nat
    requires w.Unbounded() && Legal(w, s, run)
    decreases |run|
  {
    if run == [] then 0
    else (if run[0].Update? then 1 else 0) + Visits(w, Step(w, s, run[0]), run[1..])
  }

  ghost function VisitsOf(w: World, s: State, run: seq<Action>, key: string): nat
    requires w.Unbounded() && Legal(w, s, run)
    decreases |run|
  {
    if run == [] then 0
    else (if run[0].Update? && s.orch.key == key then 1 else 0) + VisitsOf(w, Step(w, s, run[0]), run[1..], key)
  }

  // ----- One item -----

  /** Later times leave no more slots, and a slot computed at a time leaves as many as that time. */
  lemma SlotsLeftFalls(w: World, key: string, t: int, later: int)
    requires w.Unbounded() && t <= later
    ensures SlotsLeft(w, key, later) <= SlotsLeft(w, key, t)
    ensures SlotsLeft(w, key, w.First(key, t)) == SlotsLeft(w, key, t)
    ensures w.First(key, t) < w.Until(key) <==> SlotsLeft(w, key, t) > 0
  {
    FirstMonotoneAndStable(w.slots(key), t, later);
    FirstMonotoneAndStable(w.slots(key), t, w.First(key, t));
    UntilBetween(w, key, t);
  }

  /** A pending item has at least the slots left that there are from now on. */
  lemma PendingSlots(w: World, s: State, key: string)
    requires w.Unbounded() && Inv(w, s) && Pending(s, key)
    ensures SlotsLeft(w, key, s.now) <= SlotsLeft(w, key, s.next[key])
  {
    var next := s.next[key];
    assert Current(w, key, next, s.now);
    if s.now <= next {
      SlotsLeftFalls(w, key, s.now, s.now);
    } else {
      SlotsLeftFalls(w, key, next, s.now);
    }
  }

  /** A visit takes at least one slot, and an item that it retires has none left. */
  lemma WeightFalls(w: World, s: State)
    requires w.Unbounded() && Inv(w, s) && Enabled(s, Update)
    ensures Weight(w, Step(w, s, Update), s.orch.key) < Weight(w, s, s.orch.key)
  {
    var s', v := Step(w, s, Update), NewVisit(w, s);
    UpdateKeeps(w, s);
    assert AllVisits(s')[|s.log|] == v;
    VisitAdvances(w, s.now, v);
    SlotsLeftFalls(w, v.key, s.now, s.now);
  }

  /** The consumer adds an item that has no slot left before the end of its sampling. */
  ghost predicate LateEntry(w: World, s: State, a: Action, key: string)
    requires w.Unbounded()
  {
    a == Add(key) && key !in s.next && w.First(key, s.now) >= w.Until(key)
  }

  /** The steps by which items get their first next visit, or come back with it. */
  lemma WeightOfEntry(w: World, s: State, a: Action, key: string)
    requires w.Unbounded() && Inv(w, s) && Enabled(s, a) && (a.Add? || a.Touch? || a.SyncRow?)
    ensures Weight(w, Step(w, s, a), key) <= Weight(w, s, key) + if LateEntry(w, s, a, key) then 1 else 0
  {
    SlotsLeftFalls(w, key, s.now, s.now);
  }

  lemma WeightOfTime(w: World, s: State, a: Action, key: string)
    requires w.Unbounded() && Inv(w, s) && Enabled(s, a) && (a.Tick? || a.Crash?)
    ensures Weight(w, Step(w, s, a), key) <= Weight(w, s, key)
  {
    if a.Tick? {
      SlotsLeftFalls(w, key, s.now, a.to);
    } else if Pending(s, key) {
      PendingSlots(w, s, key);
    }
  }

  lemma WeightKept(w: World, s: State, a: Action, key: string)
    requires w.Unbounded() && Inv(w, s) && Enabled(s, a)
    requires !a.Tick? && !a.Crash? && !a.Add? && !a.Touch? && !a.SyncRow? && !(a.Update? && s.orch.key == key)
    ensures Weight(w, Step(w, s, a), key) == Weight(w, s, key)
  {
  }

  lemma WeightStep(w: World, s: State, a: Action, key: string)
    requires w.Unbounded() && Inv(w, s) && Enabled(s, a)
    ensures Weight(w, Step(w, s, a), key) + (if a.Update? && s.orch.key == key then 1 else 0)
            <= Weight(w, s, key) + (if LateEntry(w, s, a, key) then 1 else 0)
  {
    if a.Update? && s.orch.key == key {
      WeightFalls(w, s);
    } else if a.Tick? || a.Crash? {
      WeightOfTime(w, s, a, key);
    } else if a.Add? || a.Touch? || a.SyncRow? {
      WeightOfEntry(w, s, a, key);
    } else {
      WeightKept(w, s, a, key);
    }
  }

  /** Without a crash every visit counted is one task sent or in flight. */
  lemma {:induction false} VisitsAreTasks(w: World, s: State, run: seq<Action>, key: string)
    requires w.Unbounded() && Legal(w, s, run) && forall i :: 0 <= i < |run| ==> !run[i].Crash?
    ensures var before, after := AllVisits(s), AllVisits(Run(w, s, run));
            && |after| == |before| + Visits(w, s, run)
            && Count(w, after, key, true) + Count(w, after, key, false)
               == Count(w, before, key, true) + Count(w, before, key, false) + VisitsOf(w, s, run, key)
    decreases |run|
  {
    if run != [] {
      var s' := Step(w, s, run[0]);
      if run[0].Update? {
        var v := NewVisit(w, s);
        assert AllVisits(s') == AllVisits(s) + [v];
        CountLast(w, AllVisits(s), v, key, true);
        CountLast(w, AllVisits(s), v, key, false);
      } else {
        VisitsKept(w, s, run[0]);
      }
      VisitsAreTasks(w, s', run[1..], key);
    }
  }

  ghost function LateEntries(w: World, s: State, run: seq<Action>, key: string): nat
    requires w.Unbounded() && Legal(w, s, run)
    decreases |run|
  {
    if run == [] then 0
    else (if LateEntry(w, s, run[0], key) then 1 else 0) + LateEntries(w, Step(w, s, run[0]), run[1..], key)
  }

  lemma {:induction false} WeightRun(w: World, s: State, run: seq<Action>, key: string)
    requires w.Unbounded() && Inv(w, s) && Legal(w, s, run)
    ensures VisitsOf(w, s, run, key) + Weight(w, Run(w, s, run), key)
            <= Weight(w, s, key) + LateEntries(w, s, run, key)
    decreases |run|
  {
    if run != [] {
      WeightStep(w, s, run[0], key);
      InvStep(w, s, run[0]);
      WeightRun(w, Step(w, s, run[0]), run[1..], key);
    }
  }

  lemma {:induction false} NoLateEntries(w: World, s: State, run: seq<Action>, key: string)
    requires w.Unbounded() && Legal(w, s, run)
    requires forall i :: 0 <= i < |run| ==> run[i] != Add(key)
    ensures LateEntries(w, s, run, key) == 0
    decreases |run|
  {
    if run != [] {
      NoLateEntries(w, Step(w, s, run[0]), run[1..], key);
    }
  }

  /**
   In every run, whatever is added, synchronised or crashes: an item is visited at most once for each of its
   slots before the end of its sampling, and once more for each time the consumer adds it after that.
   */
  lemma VisitsInAnyRun(w: World, start: int, run: seq<Action>, key: string)
    requires w.Unbounded() && ZERO_TIME < start && Legal(w, Init(start), run)
    ensures VisitsOf(w, Init(start), run, key) <= SlotsBefore(w, key) + LateEntries(w, Init(start), run, key)
  {
    InitInv(w, start);
    WeightRun(w, Init(start), run, key);
  }

  /**
   From any state on, and until the consumer adds the key anew with no slot left, an item is visited at most
   max(1, number of its slots before the end of its sampling) times, whatever happens to other items and
   through any duplicates, crashes and re-synchronisations of its own. Once it has been visited as often as
   its weight allowed it is gone or on its way out.
   */
  lemma ItemVisits(w: World, s: State, run: seq<Action>, key: string)
    requires w.Unbounded() && Inv(w, s) && Legal(w, s, run)
    requires LateEntries(w, s, run, key) == 0
    ensures VisitsOf(w, s, run, key) <= AtLeastOne(SlotsBefore(w, key))
    ensures VisitsOf(w, s, run, key) == Weight(w, s, key) ==> Gone(Run(w, s, run), key)
  {
    WeightRun(w, s, run, key);
  }

  // ----- The whole set -----

  lemma {:induction false} TotalStep(w: World, s: State, a: Action, keys: seq<string>)
    requires w.Unbounded() && Inv(w, s) && Enabled(s, a) && Closed(a)
    ensures Total(w, Step(w, s, a), keys) <= Total(w, s, keys)
    ensures a.Update? && s.orch.key in keys ==> Total(w, Step(w, s, a), keys) < Total(w, s, keys)
  {
    if keys != [] {
      WeightStep(w, s, a, keys[0]);
      TotalStep(w, s, a, keys[1..]);
    }
  }

  lemma {:induction false} TotalSplit(w: World, s: State, keys: seq<string>, i: nat)
    requires w.Unbounded() && i < |keys|
    ensures Total(w, s, keys) == Weight(w, s, keys[i]) + Total(w, s, keys[..i] + keys[i + 1..])
  {
    if i == 0 {
      assert keys[..0] + keys[1..] == keys[1..];
    } else {
      TotalSplit(w, s, keys[1..], i - 1);
      assert keys[..i] + keys[i + 1..] == [keys[0]] + (keys[1..][..i - 1] + keys[1..][i..]);
    }
  }

  lemma {:induction false} TotalOfPermutation(w: World, s: State, a: seq<string>, b: seq<string>)
    requires w.Unbounded() && multiset(a) == multiset(b)
    ensures Total(w, s, a) == Total(w, s, b)
    decreases |a|
  {
    if a == [] {
      assert |multiset(b)| == 0;
    } else {
      assert a[0] in multiset(b);
      var i :| 0 <= i < |b| && b[i] == a[0];
      RestIsPermutation(a, b, i);
      TotalSplit(w, s, b, i);
      TotalOfPermutation(w, s, a[1..], b[..i] + b[i + 1..]);
    }
  }

  lemma {:induction false} TotalWithout(w: World, s: State, keys: seq<string>, key: string)
    requires w.Unbounded()
    ensures Total(w, s, Without(keys, key)) <= Total(w, s, keys)
  {
    if keys != [] && keys[0] != key {
      TotalWithout(w, s, keys[1..], key);
    }
  }

  lemma {:induction false} DrainRun(w: World, s: State, run: seq<Action>)
    requires w.Unbounded() && Inv(w, s) && Legal(w, s, run)
    requires forall i :: 0 <= i < |run| ==> Closed(run[i])
    ensures var end := Run(w, s, run);
            Visits(w, s, run) + Total(w, end, end.order) <= Total(w, s, s.order)
    decreases |run|
  {
    if run != [] {
      var s' := Step(w, s, run[0]);
      TotalStep(w, s, run[0], s.order);
      match run[0] {
        case Remove => TotalWithout(w, s', s.order, s.orch.visit.key);
        case Sort(sorted) => TotalOfPermutation(w, s', s.order, sorted);
        case _ =>
      }
      InvStep(w, s, run[0]);
      DrainRun(w, s', run[1..]);
    }
  }

  lemma {:induction false} TotalCovers(w: World, s: State, keys: seq<string>, i: nat)
    requires w.Unbounded() && i < |keys|
    ensures Weight(w, s, keys[i]) <= Total(w, s, keys)
  {
    if i > 0 {
      TotalCovers(w, s, keys[1..], i - 1);
    }
  }

  /**
   Without new items the number of tasks is bounded by the weight of the set, and when the bound is reached
   the set is empty, up to the one item the orchestrator may be removing at that moment.
   */
  lemma Drains(w: World, s: State, run: seq<Action>)
    requires w.Unbounded() && Inv(w, s) && Legal(w, s, run)
    requires forall i :: 0 <= i < |run| ==> Closed(run[i])
    ensures Visits(w, s, run) <= Total(w, s, s.order)
    ensures var end := Run(w, s, run);
            Visits(w, s, run) == Total(w, s, s.order)
            ==> forall k :: k in end.next ==> Gone(end, k)
  {
    DrainRun(w, s, run);
    InvRun(w, s, run);
    var end := Run(w, s, run);
    if Visits(w, s, run) == Total(w, s, s.order) {
      forall k | k in end.next ensures Gone(end, k) {
        var i :| 0 <= i < |end.order| && end.order[i] == k;
        TotalCovers(w, end, end.order, i);
      }
    }
  }

  // ----- The end -----

  /** A key past the end of its sampling only comes back if the consumer adds it anew. */
  lemma GoneStep(w: World, s: State, a: Action, key: string)
    requires w.Unbounded() && SetInv(w, s) && Enabled(s, a)
    requires Gone(s, key) && w.Until(key) <= s.now && !LateEntry(w, s, a, key)
    ensures Gone(Step(w, s, a), key) && w.Until(key) <= Step(w, s, a).now
  {
  }

  lemma {:induction false} GoneRun(w: World, s: State, run: seq<Action>, key: string)
    requires w.Unbounded() && SetInv(w, s) && Legal(w, s, run)
    requires Gone(s, key) && w.Until(key) <= s.now && LateEntries(w, s, run, key) == 0
    ensures Gone(Run(w, s, run), key)
    decreases |run|
  {
    if run != [] {
      GoneStep(w, s, run[0], key);
      SetInvStep(w, s, run[0]);
      GoneRun(w, Step(w, s, run[0]), run[1..], key);
    }
  }

  /** An overdue item past the end of its sampling waits as long as the run passes it by, and then it is gone. */
  lemma {:induction false} WaitsOrGone(w: World, s: State, run: seq<Action>, key: string)
    requires w.Unbounded() && SetInv(w, s) && Legal(w, s, run) && !s.orch.Syncing?
    requires key in s.next && Starvation.Overdue(s, key, s.next[key])
    requires w.Until(key) <= s.now && LateEntries(w, s, run, key) == 0
    ensures Starvation.AlwaysPassesBy(w, s, run, key) || Gone(Run(w, s, run), key)
    decreases |run|
  {
    if run != [] {
      var s' := Step(w, s, run[0]);
      SetInvStep(w, s, run[0]);
      if Starvation.PassesBy(s, run[0], key) {
        Starvation.OverdueStep(w, s, run[0], key, s.next[key]);
        WaitsOrGone(w, s', run[1..], key);
      } else {
        GoneRun(w, s', run[1..], key);
      }
    }
  }

  /** The run has more passes, or more turns, than an overdue item may have to wait. */
  ghost predicate LongEnough(w: World, s: State, run: seq<Action>, ahead: nat)
    requires w.Unbounded() && Legal(w, s, run)
  {
    var c := Starvation.Count(w, s, run);
    || Starvation.Passes(w, s, run) > ahead
    || c.calls > (|s.order| + c.adds) * (ahead + c.stalls) + Starvation.CallsLeft(s) + c.adds
  }

  /**
   An item whose next visit and end of sampling have passed is gone after as many passes as there are items at
   or before its next visit, whatever other items the consumer adds meanwhile and through any crashes, unless
   it is added anew after it left.
   */
  lemma ItemLeaves(w: World, s: State, run: seq<Action>, key: string)
    requires w.Unbounded() && SetInv(w, s) && Legal(w, s, run) && !s.orch.Syncing?
    requires key in s.next && ZERO_TIME != s.next[key] < s.now && w.Until(key) <= s.now
    requires LateEntries(w, s, run, key) == 0
    requires LongEnough(w, s, run, |Starvation.Ahead(s, s.next[key])|)
    ensures Gone(Run(w, s, run), key)
  {
    if Gone(s, key) {
      GoneRun(w, s, run, key);
    } else {
      WaitsOrGone(w, s, run, key);
      if Starvation.AlwaysPassesBy(w, s, run, key) {
        Starvation.NoStarvation(w, s, run, key);
        Starvation.BoundedResponse(w, s, run, key);
      }
    }
  }

  lemma {:induction false} ClosedRun(w: World, s: State, run: seq<Action>, key: string)
    requires w.Unbounded() && Legal(w, s, run) && key !in s.next
    requires forall i :: 0 <= i < |run| ==> Closed(run[i])
    ensures key !in Run(w, s, run).next
    decreases |run|
  {
    if run != [] {
      ClosedRun(w, Step(w, s, run[0]), run[1..], key);
    }
  }

  lemma LongerThan(w: World, s: State, run: seq<Action>, key: string)
    requires w.Unbounded() && Legal(w, s, run) && key in s.next
    requires LongEnough(w, s, run, |s.next|)
    ensures LongEnough(w, s, run, |Starvation.Ahead(s, s.next[key])|)
  {
    var c, ahead := Starvation.Count(w, s, run), Starvation.Ahead(s, s.next[key]);
    Starvation.SmallerSet(ahead, s.next.Keys);
    Starvation.MulMonotone(|s.order| + c.adds, |ahead| + c.stalls, |s.next| + c.stalls);
  }

  /**
   Without new items the set runs empty: once every item's next visit and end of sampling have passed, no more
   passes are needed than there are items, up to the one item the orchestrator may be removing at that moment.
   */
  lemma RunsEmpty(w: World, s: State, run: seq<Action>)
    requires w.Unbounded() && SetInv(w, s) && Legal(w, s, run) && !s.orch.Syncing?
    requires forall k :: k in s.next ==> ZERO_TIME != s.next[k] < s.now && w.Until(k) <= s.now
    requires forall i :: 0 <= i < |run| ==> Closed(run[i])
    requires LongEnough(w, s, run, |s.next|)
    ensures forall k :: k in Run(w, s, run).next ==> Gone(Run(w, s, run), k)
  {
    forall k | k in Run(w, s, run).next ensures Gone(Run(w, s, run), k) {
      if k in s.next {
        NoLateEntries(w, s, run, k);
        LongerThan(w, s, run, k);
        ItemLeaves(w, s, run, k);
      } else {
        ClosedRun(w, s, run, k);
      }
    }
  }
}
