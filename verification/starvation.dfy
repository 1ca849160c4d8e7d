/**
 No overdue item is starved. A removal does not move the cursor back, so the neighbour of a removed item is
 passed over until the next sort, and the last item of the array is never reached in a pass over several
 items; still every pass begins with the item that has waited longest.
 */
module Starvation {
  import opened Scheduler
  import opened Sequences

  /** The items with a next visit at or before `due`: `due`'s own item and all that may go ahead of it. */
  function Ahead(s: State, due: int): set<string> {
    set k | k in s.next && s.next[k] != ZERO_TIME && s.next[k] <= due
  }

  /** The orchestrator is bound to visit one of those items before it sorts again. */
  predicate Owing(s: State, due: int) {
    match s.orch
    case Idle => s.pointer == 0 && |s.order| > 0 && s.order[0] in Ahead(s, due)
    case Fetched(k) => k in Ahead(s, due)
    case Due(k) => k in Ahead(s, due)
    case _ => false
  }

  function Backlog(s: State, due: int): int {
    |Ahead(s, due)| - if Owing(s, due) then 1 else 0
  }

  /** A sort that starts a pass; one between the consumer's addItem and first visit only puts that item in front. */
  predicate StartsPass(s: State, a: Action) {
    a.Sort? && !(s.cons.Adding? && s.cons.added)
  }

  /** `x` is overdue in the set, and not being retired. */
  ghost predicate Overdue(s: State, x: string, due: int) {
    && x in s.next && s.next[x] == due && ZERO_TIME != due < s.now
    && !(s.orch.Removing? && s.orch.visit.key == x)
  }

  /** The process goes on, and the step computes no visit for `x`. */
  predicate PassesBy(s: State, a: Action, x: string) {
    !a.Crash? && !(a.Update? && s.orch.Due? && s.orch.key == x)
  }

  lemma SmallerSet(a: set<string>, b: set<string>)
    requires a <= b
    ensures |a| <= |b|
  {
    assert b == a + (b - a);
  }

  lemma OverdueStep(w: World, s: State, a: Action, x: string, due: int)
    requires w.Unbounded() && SetInv(w, s) && Enabled(s, a)
    requires Overdue(s, x, due) && PassesBy(s, a, x) && !s.orch.Syncing?
    ensures Overdue(Step(w, s, a), x, due) && !Step(w, s, a).orch.Syncing?
  {
  }

  /** What a sort leaves in front is at most as late as the overdue item. */
  lemma PassStarts(w: World, s: State, sorted: seq<string>, x: string, due: int)
    requires w.Unbounded() && SetInv(w, s) && Enabled(s, Sort(sorted))
    requires Overdue(s, x, due) && StartsPass(s, Sort(sorted))
    ensures Owing(Step(w, s, Sort(sorted)), due)
  {
    PermutationKeeps(s.order, sorted);
    assert x in sorted;
    var i :| 0 <= i < |sorted| && sorted[i] == x;
    assert s.next[sorted[0]] <= s.next[sorted[i]];
    assert sorted[0] in s.next;
  }

  /** No step brings an item ahead of an overdue one, and only a visit settles what is owing. */
  lemma AheadShrinks(w: World, s: State, a: Action, x: string, due: int)
    requires w.Unbounded() && SetInv(w, s) && Enabled(s, a) && !a.Sort?
    requires Overdue(s, x, due) && PassesBy(s, a, x) && !s.orch.Syncing?
    ensures Ahead(Step(w, s, a), due) <= Ahead(s, due)
    ensures Owing(s, due) && !(a.Update? && s.orch.key in Ahead(s, due)) ==> Owing(Step(w, s, a), due)
  {
  }

  lemma BacklogStep(w: World, s: State, a: Action, x: string, due: int)
    requires w.Unbounded() && SetInv(w, s) && Enabled(s, a)
    requires Overdue(s, x, due) && PassesBy(s, a, x) && !s.orch.Syncing?
    ensures Backlog(Step(w, s, a), due) <= Backlog(s, due) - if StartsPass(s, a) then 1 else 0
  {
    var s' := Step(w, s, a);
    if a.Sort? {
      assert Ahead(s', due) == Ahead(s, due);
      if StartsPass(s, a) {
        PassStarts(w, s, a.sorted, x, due);
      }
    } else if a.Update? && s.orch.key in Ahead(s, due) {
      assert Ahead(s', due) == Ahead(s, due) - {s.orch.key};
    } else {
      AheadShrinks(w, s, a, x, due);
      SmallerSet(Ahead(s', due), Ahead(s, due));
    }
  }

  // ----- Runs that pass by an overdue item -----

  ghost predicate AlwaysPassesBy(w: World, s: State, run: seq<Action>, x: string)
    requires w.Unbounded() && Legal(w, s, run)
    decreases |run|
  {
    run == [] || (PassesBy(s, run[0], x) && AlwaysPassesBy(w, Step(w, s, run[0]), run[1..], x))
  }

  ghost function Passes(w: World, s: State, run: seq<Action>): nat
    requires w.Unbounded() && Legal(w, s, run)
    decreases |run|
  {
    if run == [] then 0
    else (if StartsPass(s, run[0]) then 1 else 0) + Passes(w, Step(w, s, run[0]), run[1..])
  }

  lemma {:induction false} BacklogRun(w: World, s: State, run: seq<Action>, x: string, due: int)
    requires w.Unbounded() && SetInv(w, s) && Legal(w, s, run)
    requires Overdue(s, x, due) && !s.orch.Syncing? && AlwaysPassesBy(w, s, run, x)
    ensures Overdue(Run(w, s, run), x, due)
    ensures Passes(w, s, run) + Backlog(Run(w, s, run), due) <= Backlog(s, due)
    decreases |run|
  {
    if run != [] {
      OverdueStep(w, s, run[0], x, due);
      BacklogStep(w, s, run[0], x, due);
      SetInvStep(w, s, run[0]);
      BacklogRun(w, Step(w, s, run[0]), run[1..], x, due);
    }
  }

  /**
   A run that never visits an overdue item starts no more passes than there were items with a next visit at
   or before that of the item, however many items the consumer adds meanwhile. A sort that falls between the
   consumer's two steps on a new item starts no pass.
   */
  lemma NoStarvation(w: World, s: State, run: seq<Action>, x: string)
    requires w.Unbounded() && SetInv(w, s) && Legal(w, s, run)
    requires x in s.next && Overdue(s, x, s.next[x]) && !s.orch.Syncing?
    requires AlwaysPassesBy(w, s, run, x)
    ensures Passes(w, s, run) <= |Ahead(s, s.next[x])|
  {
    var due := s.next[x];
    BacklogRun(w, s, run, x, due);
    var end := Run(w, s, run);
    assert x in Ahead(end, due);
    SmallerSet({x}, Ahead(end, due));
  }

  // ----- How long a pass takes -----

  function Max(a: int, b: int): int {
    if a < b then b else a
  }

  /** The most calls of Next before the next sort, if the set gets no new items meanwhile. */
  function CallsLeft(s: State): int {
    match s.orch
    case Syncing => 1
    case Waiting => Max(1, |s.order| - s.pointer)
    case Idle => if s.pointer < 0 then 1 else Max(1, |s.order| - s.pointer)
    case Sorting => 0
    case _ => if s.pointer < 0 then 1 else Max(0, |s.order| - s.pointer)
  }

  /** The calls of Next, the additions, and the sorts that start no pass, in a run. */
  datatype Tally = Tally(calls: nat, adds: nat, stalls: nat)

  function Counted(s: State, a: Action, rest: Tally): Tally {
    Tally(rest.calls + (if a.CallNext? then 1 else 0),
          rest.adds + (if a.Add? then 1 else 0),
          rest.stalls + (if a.Sort? && !StartsPass(s, a) then 1 else 0))
  }

  ghost function Count(w: World, s: State, run: seq<Action>): Tally
    requires w.Unbounded() && Legal(w, s, run)
    decreases |run|
  {
    if run == [] then Tally(0, 0, 0) else Counted(s, run[0], Count(w, Step(w, s, run[0]), run[1..]))
  }

  lemma OrderStep(w: World, s: State, a: Action)
    requires w.Unbounded() && SetInv(w, s) && Enabled(s, a) && !a.Crash? && !s.orch.Syncing?
    ensures |Step(w, s, a).order| <= |s.order| + if a.Add? then 1 else 0
    ensures a.Sort? ==> |Step(w, s, a).order| == |s.order|
  {
    match a
    case Remove => WithoutKeeps(s.order, s.orch.visit.key);
    case Sort(sorted) => PermutationKeeps(s.order, sorted);
    case _ =>
  }

  predicate IsCall(a: Action) {
    a.CallNext?
  }

  predicate IsAddition(a: Action) {
    a.Add?
  }

  predicate IsSort(a: Action) {
    a.Sort?
  }

  /** The tally counts the calls, additions and sorts of the run; every sort starts a pass or is stalled. */
  lemma {:induction false} TallyCounts(w: World, s: State, run: seq<Action>)
    requires w.Unbounded() && Legal(w, s, run)
    ensures Count(w, s, run).calls == |Places(run, IsCall)|
    ensures Count(w, s, run).adds == |Places(run, IsAddition)|
    ensures Passes(w, s, run) + Count(w, s, run).stalls == |Places(run, IsSort)|
    decreases |run|
  {
    if run == [] {
      assert Places(run, IsCall) == Places(run, IsAddition) == Places(run, IsSort) == {};
    } else {
      TallyCounts(w, Step(w, s, run[0]), run[1..]);
      PlacesFirst(run, IsCall);
      PlacesFirst(run, IsAddition);
      PlacesFirst(run, IsSort);
    }
  }

  lemma CallsLeftStep(w: World, s: State, a: Action)
    requires w.Unbounded() && SetInv(w, s) && Enabled(s, a) && !a.Crash? && !s.orch.Syncing?
    ensures var s', added := Step(w, s, a), if a.Add? then 1 else 0;
            && |s'.order| <= |s.order| + added
            && CallsLeft(s') + (if a.CallNext? then 1 else 0)
               <= if a.Sort? then Max(1, |s.order|) else CallsLeft(s) + added
    ensures CallsLeft(s) >= 0
  {
    OrderStep(w, s, a);
  }

  /** One turn of the account kept in CallsRun, with `n` at least the size of the set at any time. */
  lemma CallsAccount(n: nat, sorts: int, calls: int, sort: bool, takes: bool, added: int, left: int, left': int)
    requires calls <= n * sorts + left'
    requires left' + (if takes then 1 else 0) <= if sort then n else left + added
    requires left >= 0 && added >= 0 && !(sort && takes)
    ensures calls + (if takes then 1 else 0) <= n * (sorts + if sort then 1 else 0) + left + added
  {
    assert n * (sorts + 1) == n * sorts + n;
  }

  lemma {:induction false} CallsRun(w: World, s: State, run: seq<Action>, x: string, due: int, n: nat)
    requires w.Unbounded() && SetInv(w, s) && Legal(w, s, run)
    requires Overdue(s, x, due) && !s.orch.Syncing? && AlwaysPassesBy(w, s, run, x)
    requires |s.order| + Count(w, s, run).adds <= n
    ensures CallsLeft(s) >= 0
    ensures var c := Count(w, s, run); c.calls <= n * (Passes(w, s, run) + c.stalls) + CallsLeft(s) + c.adds
    decreases |run|
  {
    CallsLeftStep(w, s, Tick(s.now));
    if run != [] {
      OverdueStep(w, s, run[0], x, due);
      CallsLeftStep(w, s, run[0]);
      SetInvStep(w, s, run[0]);
      var s', rest := Step(w, s, run[0]), run[1..];
      CallsRun(w, s', rest, x, due, n);
      assert x in s.order;
      var c, added := Count(w, s', rest), if run[0].Add? then 1 else 0;
      CallsAccount(n, Passes(w, s', rest) + c.stalls, c.calls - c.adds, run[0].Sort?, run[0].CallNext?, added,
                   CallsLeft(s), CallsLeft(s'));
    }
  }

  /**
   An overdue item is visited within a number of turns of the orchestrator known in advance: with n the size
   of the set and the items added meanwhile, n turns for every item that is at most as late and for every
   sort that falls between the consumer's two steps on a new item, one for every item added, and the rest of
   the pass under way.
   */
  lemma BoundedResponse(w: World, s: State, run: seq<Action>, x: string)
    requires w.Unbounded() && SetInv(w, s) && Legal(w, s, run)
    requires x in s.next && Overdue(s, x, s.next[x]) && !s.orch.Syncing?
    requires AlwaysPassesBy(w, s, run, x)
    ensures var c := Count(w, s, run);
            c.calls <= (|s.order| + c.adds) * (|Ahead(s, s.next[x])| + c.stalls) + CallsLeft(s) + c.adds
  {
    var c := Count(w, s, run);
    NoStarvation(w, s, run, x);
    CallsRun(w, s, run, x, s.next[x], |s.order| + c.adds);
    MulMonotone(|s.order| + c.adds, Passes(w, s, run) + c.stalls, |Ahead(s, s.next[x])| + c.stalls);
  }

  lemma MulMonotone(n: nat, p: int, c: int)
    requires p <= c
    ensures n * p <= n * c
  {
  }
}
