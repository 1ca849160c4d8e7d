/**
 The sampling scheduler as a machine of atomic steps.

 Three activities work on one item set: the synchronisation with the database at start-up, the consumer of
 new items, and the orchestrator. A step is one locked call on the set, one test of an item, one computation
 of a next visit, or one task handed to the samplers; steps of the consumer and of the orchestrator
 interleave freely, the clock may move between any two of them, and the process may crash at any point and
 start again.
 */
module Scheduler {
  import opened Sequences
  import Models
  import Slots

  const ZERO_TIME := Models.ZERO_TIME

  /**
   What does not change about the item of a key: its slots, in the order in which the program computes them,
   and the end of its sampling. The slots grow beyond any time; nothing else is assumed of them here.
   */
  datatype World = World(slots: string -> nat -> int, until: string -> int) {
    ghost predicate Unbounded() {
      forall key :: Slots.Unbounded(slots(key))
    }

    function Slot(key: string, k: nat): int {
      slots(key)(k)
    }

    ghost function First(key: string, now: int): (t: int)
      requires Unbounded()
      ensures t >= now
    {
      Slots.First(slots(key), now)
    }

    ghost function Index(key: string, now: int): nat
      requires Unbounded()
    {
      Slots.FirstIndex(slots(key), now)
    }

    function Until(key: string): int {
      until(key)
    }

    ghost predicate IsSlot(key: string, t: int)
      requires Unbounded()
    {
      First(key, t) == t
    }
  }

  /** One task: the slot that was due, the time of dispatch, and the round and slot computed then. */
  datatype Visit = Visit(key: string, round: nat, due: int, at: int, next: int)

  /** Where the orchestrator stands. */
  datatype Orchestrator =
    | Syncing                // the set is being rebuilt from the database, nothing else runs
    | Waiting                // for the set to hold its first item
    | Idle                   // about to take the next item
    | Fetched(key: string)   // took an item, about to test it
    | Due(key: string)       // found it ready, about to compute its next visit
    | Removing(visit: Visit) // the next visit is too late, about to remove the item
    | Sending(visit: Visit)  // about to hand out the task
    | Checking               // about to ask whether the array must be sorted
    | Sorting                // about to sort it

  /** The consumer rests, or stands between addItem and the computation of the first visit. */
  datatype Consumer = Resting | Adding(key: string, added: bool)

  /** `order` and `next` are the array and the map of the item set, `log` all tasks ever handed out. */
  datatype State = State(
    order: seq<string>, next: map<string, int>, pointer: int,
    orch: Orchestrator, cons: Consumer, now: int, log: seq<Visit>)

  datatype Action =
    | Tick(to: int)
    | Crash | SyncRow(key: string) | SyncDone | Begin
    | Add(key: string) | Touch
    | CallNext | TestReady | Update | Remove | Send | TestSort | Sort(sorted: seq<string>)

  function Init(now: int): State {
    State([], map[], -1, Syncing, Resting, now, [])
  }

  ghost predicate SortedBy(order: seq<string>, next: map<string, int>) {
    && (forall k :: k in order ==> k in next)
    && forall i, j :: 0 <= i < j < |order| ==> next[order[i]] <= next[order[j]]
  }

  ghost predicate Enabled(s: State, a: Action) {
    match a
    case Tick(to) => s.now <= to
    case Crash => true
    case SyncRow(_) => s.orch.Syncing?
    case SyncDone => s.orch.Syncing?
    case Begin => s.orch.Waiting? && |s.order| > 0
    case Add(_) => !s.orch.Syncing? && s.cons.Resting?
    case Touch => s.cons.Adding?
    case CallNext => s.orch.Idle?
    case TestReady => s.orch.Fetched?
    case Update => s.orch.Due? && s.orch.key in s.next
    case Remove => s.orch.Removing?
    case Send => s.orch.Sending?
    case TestSort => s.orch.Checking?
    case Sort(sorted) => s.orch.Sorting? && multiset(sorted) == multiset(s.order) && SortedBy(sorted, s.next)
  }

  function Without(order: seq<string>, key: string): seq<string> {
    if order == [] then []
    else if order[0] == key then order[1..]
    else [order[0]] + Without(order[1..], key)
  }

  ghost function NewVisit(w: World, s: State): Visit
    requires w.Unbounded() && s.orch.Due? && s.orch.key in s.next
  {
    var k := s.orch.key;
    Visit(k, w.Index(k, s.now) + 2, s.next[k], s.now, w.First(k, s.now))
  }

  ghost function Step(w: World, s: State, a: Action): State
    requires w.Unbounded() && Enabled(s, a)
  {
    match a
    case Tick(to) => s.(now := to)
    case Crash => s.(order := [], next := map[], pointer := -1, orch := Syncing, cons := Resting)
    case SyncRow(k) =>
      var t := w.First(k, s.now);
      if t < w.Until(k) && k !in s.next then s.(order := s.order + [k], next := s.next[k := t]) else s
    case SyncDone => s.(orch := Waiting)
    case Begin => s.(orch := Idle)
    case Add(k) =>
      if k in s.next then s.(cons := Adding(k, false))
      else s.(order := s.order + [k], next := s.next[k := ZERO_TIME], cons := Adding(k, true))
    case Touch =>
      var k := s.cons.key;
      if s.cons.added && k in s.next then s.(next := s.next[k := w.First(k, s.now)], cons := Resting)
      else s.(cons := Resting)
    case CallNext =>
      if 0 <= s.pointer < |s.order| then s.(orch := Fetched(s.order[s.pointer]), pointer := s.pointer + 1)
      else s.(orch := Sorting)
    case TestReady =>
      var k := s.orch.key;
      if k in s.next && s.next[k] != ZERO_TIME && s.now > s.next[k] then s.(orch := Due(k)) else s.(orch := Sorting)
    case Update =>
      var v := NewVisit(w, s);
      s.(next := s.next[v.key := v.next], orch := if v.next < w.Until(v.key) then Sending(v) else Removing(v))
    case Remove =>
      var k := s.orch.visit.key;
      s.(order := Without(s.order, k), next := s.next - {k}, orch := Sending(s.orch.visit))
    case Send => s.(log := s.log + [s.orch.visit], orch := Checking)
    case TestSort => s.(orch := if s.pointer + 1 >= |s.order| then Sorting else Idle)
    case Sort(sorted) => s.(order := sorted, pointer := 0, orch := Idle)
  }

  // ----- Runs -----

  ghost predicate Legal(w: World, s: State, run: seq<Action>)
    requires w.Unbounded()
    decreases |run|
  {
    run == [] || (Enabled(s, run[0]) && Legal(w, Step(w, s, run[0]), run[1..]))
  }

  ghost function Run(w: World, s: State, run: seq<Action>): State
    requires w.Unbounded() && Legal(w, s, run)
    decreases |run|
  {
    if run == [] then s else Run(w, Step(w, s, run[0]), run[1..])
  }

  // ----- The invariant of the item set -----

  /** The orchestrator only holds on to items that are in the set, and no one else removes or visits them. */
  ghost predicate OrchestratorInv(w: World, s: State)
    requires w.Unbounded()
  {
    match s.orch
    case Syncing => s.cons.Resting?
    case Fetched(k) => k in s.next
    case Due(k) => k in s.next && ZERO_TIME != s.next[k] < s.now
    case Removing(v) => v.key in s.next && ZERO_TIME != s.next[v.key] == v.next >= w.Until(v.key)
    case _ => true
  }

  /**
   Array and map hold the same keys, each once; no cursor value makes an access run off the array; and the
   only item without a next visit is the one that the consumer is about to give one.
   */
  ghost predicate SetInv(w: World, s: State)
    requires w.Unbounded()
  {
    && ZERO_TIME < s.now
    && Distinct(s.order)
    && (forall k :: k in s.next <==> k in s.order)
    && -1 <= s.pointer
    && (forall k :: k in s.next ==> (s.next[k] == ZERO_TIME <==> s.cons == Adding(k, true)))
    && (s.cons.Adding? && s.cons.added ==> s.cons.key in s.next)
    && OrchestratorInv(w, s)
  }

  lemma {:induction false} WithoutKeeps(order: seq<string>, key: string)
    requires Distinct(order)
    ensures Distinct(Without(order, key))
    ensures forall k :: k in Without(order, key) <==> k in order && k != key
    ensures key in order ==> |Without(order, key)| == |order| - 1
  {
    if order != [] {
      assert order == [order[0]] + order[1..];
      assert order[0] !in order[1..];
      WithoutKeeps(order[1..], key);
    }
  }

  lemma AppendKeeps(order: seq<string>, key: string)
    requires Distinct(order) && key !in order
    ensures Distinct(order + [key])
    ensures forall k :: k in order + [key] <==> k in order || k == key
  {
  }

  lemma SyncAndConsumerKeepSet(w: World, s: State, a: Action)
    requires w.Unbounded() && SetInv(w, s) && Enabled(s, a)
    requires a.Tick? || a.Crash? || a.SyncRow? || a.SyncDone? || a.Begin? || a.Add? || a.Touch?
    ensures SetInv(w, Step(w, s, a))
  {
    match a
    case SyncRow(k) => if k !in s.next { AppendKeeps(s.order, k); }
    case Add(k) => if k !in s.next { AppendKeeps(s.order, k); }
    case _ =>
  }

  lemma OrchestratorKeepsSet(w: World, s: State, a: Action)
    requires w.Unbounded() && SetInv(w, s) && Enabled(s, a)
    requires a.CallNext? || a.TestReady? || a.Update? || a.Remove? || a.Send? || a.TestSort? || a.Sort?
    ensures SetInv(w, Step(w, s, a))
  {
    match a
    case Remove => WithoutKeeps(s.order, s.orch.visit.key);
    case Sort(sorted) => PermutationKeeps(s.order, sorted);
    case _ =>
  }

  lemma SetInvStep(w: World, s: State, a: Action)
    requires w.Unbounded() && SetInv(w, s) && Enabled(s, a)
    ensures SetInv(w, Step(w, s, a))
  {
    if a.Tick? || a.Crash? || a.SyncRow? || a.SyncDone? || a.Begin? || a.Add? || a.Touch? {
      SyncAndConsumerKeepSet(w, s, a);
    } else {
      OrchestratorKeepsSet(w, s, a);
    }
  }
}
