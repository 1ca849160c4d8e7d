/**
 Where the cursor of the item set stands. A removal leaves it alone, so a pass over the array leaves out two
 kinds of items, which then wait for the next sort: the neighbour of a removed item, and the last of several.
 */
module Cursor {
  import opened Scheduler
  import opened Sequences

  /** The item the orchestrator has taken from the array and not yet removed, if any. */
  ghost predicate Holds(s: State, k: string) {
    || (s.orch.Fetched? && s.orch.key == k)
    || (s.orch.Due? && s.orch.key == k)
    || (s.orch.Removing? && s.orch.visit.key == k)
  }

  ghost predicate Holding(s: State) {
    s.orch.Fetched? || s.orch.Due? || s.orch.Removing?
  }

  /** A held item stands just before the cursor, and is the last of the array only if it is alone in it. */
  ghost predicate CursorInv(s: State) {
    && (s.orch.Idle? ==> s.pointer < 0 || (s.pointer == 0 && |s.order| <= 1) || s.pointer + 1 < |s.order|)
    && (s.orch.Syncing? || s.orch.Waiting? ==> s.pointer == -1)
    && (Holding(s) ==>
          && 1 <= s.pointer <= |s.order|
          && Holds(s, s.order[s.pointer - 1])
          && (s.pointer == |s.order| ==> |s.order| == 1))
  }

  lemma {:induction false} WithoutAt(order: seq<string>, i: nat)
    requires i < |order| && Distinct(order)
    ensures Without(order, order[i]) == order[..i] + order[i + 1..]
  {
    if i > 0 {
      assert order[i] == order[1..][i - 1];
      WithoutAt(order[1..], i - 1);
    }
  }

  lemma CursorInvStep(w: World, s: State, a: Action)
    requires w.Unbounded() && SetInv(w, s) && Enabled(s, a) && CursorInv(s)
    ensures CursorInv(Step(w, s, a))
  {
  }

  lemma {:induction false} CursorInvRun(w: World, s: State, run: seq<Action>)
    requires w.Unbounded() && SetInv(w, s) && CursorInv(s) && Legal(w, s, run)
    ensures SetInv(w, Run(w, s, run)) && CursorInv(Run(w, s, run))
    decreases |run|
  {
    if run != [] {
      SetInvStep(w, s, run[0]);
      CursorInvStep(w, s, run[0]);
      CursorInvRun(w, Step(w, s, run[0]), run[1..]);
    }
  }

  /** In every run, what Next takes from an array of several items is never the last of them. */
  lemma LastNotReached(w: World, start: int, run: seq<Action>)
    requires w.Unbounded() && ZERO_TIME < start && Legal(w, Init(start), run)
    ensures var s := Run(w, Init(start), run);
            s.orch.Idle? && Step(w, s, CallNext).orch.Fetched? && |s.order| > 1
            ==> Step(w, s, CallNext).orch.key != s.order[|s.order| - 1]
  {
    CursorInvRun(w, Init(start), run);
  }

  // ----- The neighbour of a removed item -----

  /** The item of `k` is behind the cursor, and not the one the orchestrator holds. */
  ghost predicate PassedOver(s: State, k: string, i: int) {
    && 0 <= i < s.pointer && i < |s.order| && s.order[i] == k
    && (Holding(s) ==> i < s.pointer - 1)
  }

  lemma PassedOverStep(w: World, s: State, a: Action, k: string, i: int)
    requires w.Unbounded() && SetInv(w, s) && Enabled(s, a) && CursorInv(s) && !a.Sort? && !a.Crash?
    requires PassedOver(s, k, i)
    ensures PassedOver(Step(w, s, a), k, i)
  {
    if a.Remove? {
      WithoutAt(s.order, s.pointer - 1);
    }
  }

  lemma {:induction false} PassedOverRun(w: World, s: State, run: seq<Action>, k: string, i: int)
    requires w.Unbounded() && SetInv(w, s) && CursorInv(s) && Legal(w, s, run)
    requires forall j :: 0 <= j < |run| ==> !run[j].Sort? && !run[j].Crash?
    requires PassedOver(s, k, i)
    ensures PassedOver(Run(w, s, run), k, i) && !Holds(Run(w, s, run), k)
    decreases |run|
  {
    if run == [] {
      if Holding(s) {
        assert s.order[s.pointer - 1] != s.order[i];
      }
    } else {
      SetInvStep(w, s, run[0]);
      CursorInvStep(w, s, run[0]);
      PassedOverStep(w, s, run[0], k, i);
      PassedOverRun(w, Step(w, s, run[0]), run[1..], k, i);
    }
  }

  /**
   After a removal the cursor stands one item further on: the next call of Next takes the item two places
   after the removed one, and the item between them is not taken at all before the array is sorted again.
   */
  lemma NeighbourWaits(w: World, s: State, run: seq<Action>)
    requires w.Unbounded() && SetInv(w, s) && CursorInv(s) && s.orch.Removing? && s.pointer < |s.order|
    requires Legal(w, Step(w, s, Remove), run)
    requires forall j :: 0 <= j < |run| ==> !run[j].Sort? && !run[j].Crash?
    ensures var after := Step(w, s, Remove);
            && s.orch.visit.key == s.order[s.pointer - 1]
            && after.pointer == s.pointer
            && after.order == s.order[..s.pointer - 1] + s.order[s.pointer..]
    ensures !Holds(Run(w, Step(w, s, Remove), run), s.order[s.pointer])
  {
    var after := Step(w, s, Remove);
    WithoutAt(s.order, s.pointer - 1);
    SetInvStep(w, s, Remove);
    assert after.order[s.pointer - 1] == s.order[s.pointer];
    PassedOverRun(w, after, run, s.order[s.pointer], s.pointer - 1);
  }
}
