/**
 The data sampler at work: the loops of the program over the real item set. Every atomic step of the
 orchestrator, the consumer and the start-up is shown to be a step of the Scheduler machine, whatever the
 others are in the middle of, and the object carries the run of the machine that has led to its state.
 */
module DataSampler {
  import opened Models
  import opened VisitSchedule
  import opened DelayLoop
  import opened DasItemSet
  import opened Sequences
  import BoundedVisits
  import Rounds
  import Scheduler
  import Slots

  type Action = Scheduler.Action

  type State = Scheduler.State

  class SamplingTask {
    const visitRound: int
    const item: SamplingItem

    constructor (visitRound: int, item: SamplingItem)
      ensures this.visitRound == visitRound && this.item == item
    {
      this.visitRound := visitRound;
      this.item := item;
    }
  }

  // ----- Reaching a state of the machine -----

  ghost predicate Reached(w: Scheduler.World, s: State, run: seq<Action>, end: State)
    requires w.Unbounded()
  {
    Scheduler.Legal(w, s, run) && Scheduler.Run(w, s, run) == end
  }

  lemma {:induction false} Extend(w: Scheduler.World, s: State, run: seq<Action>, end: State, a: Action)
    requires w.Unbounded() && Reached(w, s, run, end) && Scheduler.Enabled(end, a)
    ensures Reached(w, s, run + [a], Scheduler.Step(w, end, a))
    decreases |run|
  {
    if run == [] {
      assert Scheduler.Legal(w, end, [a]) by {
        assert [a][1..] == [];
      }
    } else {
      Extend(w, Scheduler.Step(w, s, run[0]), run[1..], end, a);
      assert (run + [a])[1..] == run[1..] + [a];
    }
  }

  /** The clock moves on to `now`, and then the step is taken. */
  lemma ExtendAt(w: Scheduler.World, s: State, run: seq<Action>, end: State, now: int, a: Action)
    requires w.Unbounded() && Reached(w, s, run, end) && end.now <= now
    requires Scheduler.Enabled(end.(now := now), a)
    ensures Reached(w, s, run + [Scheduler.Tick(now), a], Scheduler.Step(w, end.(now := now), a))
  {
    Extend(w, s, run, end, Scheduler.Tick(now));
    Extend(w, s, run + [Scheduler.Tick(now)], end.(now := now), a);
    assert run + [Scheduler.Tick(now), a] == run + [Scheduler.Tick(now)] + [a];
  }

  // ----- The slots of the machine and those of the loop -----

  /** Up to the first slot that reaches the horizon, the key's slots are the 64-bit ones of the loop. */
  ghost predicate FollowsLoop(w: Scheduler.World, key: string, cfg: DelayConfig, timestamp: int, horizon: int) {
    forall k: nat | k <= NextIndex(cfg, timestamp, horizon) :: w.Slot(key, k) == WrappedSlot(cfg, timestamp, k)
  }

  /** So before the horizon the machine and the loop find the same slot. */
  lemma LoopGivesFirst(w: Scheduler.World, key: string, cfg: DelayConfig, timestamp: int, now: int, horizon: int)
    requires w.Unbounded() && DelayLoop.Reaches(cfg, timestamp, horizon) && now <= horizon
    requires FollowsLoop(w, key, cfg, timestamp, horizon)
    ensures w.Index(key, now) == NextIndex(cfg, timestamp, now)
    ensures w.First(key, now) == NextSlot(cfg, timestamp, now)
  {
    ReachesSlots(cfg, timestamp, now, horizon);
    ReachesSlots(cfg, timestamp, horizon, horizon);
    var i, last := NextIndex(cfg, timestamp, now), NextIndex(cfg, timestamp, horizon);
    assert WrappedSlots(cfg, timestamp)(last) == WrappedSlot(cfg, timestamp, last) >= horizon;
    assert WrappedSlots(cfg, timestamp)(i) == WrappedSlot(cfg, timestamp, i) >= now;
    assert i <= last;
    forall j: nat | j <= i
      ensures w.slots(key)(j) == w.Slot(key, j) == WrappedSlot(cfg, timestamp, j) == WrappedSlots(cfg, timestamp)(j)
    {
    }
    Slots.FirstIsUnique(w.slots(key), now, i);
  }

  /** There is such a world for any data of the keys. */
  lemma WorldOf(cfg: DelayConfig, timestamp: string -> int, until: string -> int, horizon: int)
    returns (w: Scheduler.World)
    ensures w.Unbounded() && w.until == until
    ensures forall key :: FollowsLoop(w, key, cfg, timestamp(key), horizon)
  {
    var slots := (key: string) => (k: nat) =>
      if k <= NextIndex(cfg, timestamp(key), horizon) then WrappedSlot(cfg, timestamp(key), k) else k;
    w := Scheduler.World(slots, until);
    forall key, t: int ensures Slots.Reaches(w.slots(key), t) {
      var last := NextIndex(cfg, timestamp(key), horizon);
      var k: nat := if t > last then t else last + 1;
      assert w.slots(key)(k) >= t;
    }
  }

  ghost function Keys(items: seq<SamplingItem>): seq<string> {
    seq(|items|, i requires 0 <= i < |items| => items[i].key)
  }

  lemma {:induction false} KeysWithout(items: seq<SamplingItem>, key: string)
    ensures Keys(WithoutKey(items, key)) == Scheduler.Without(Keys(items), key)
  {
    if items != [] {
      KeysWithout(items[1..], key);
      assert Keys(items[1..]) == Keys(items)[1..];
      if items[0].key != key {
        assert WithoutKey(items, key) == [items[0]] + WithoutKey(items[1..], key);
      }
    }
  }

  lemma KeysAppend(items: seq<SamplingItem>, item: SamplingItem)
    ensures Keys(items + [item]) == Keys(items) + [item.key]
  {
  }

  lemma {:induction false} KeysOfPermutation(a: seq<SamplingItem>, b: seq<SamplingItem>)
    requires multiset(a) == multiset(b)
    ensures multiset(Keys(a)) == multiset(Keys(b))
    decreases |a|
  {
    if a == [] {
      assert |multiset(b)| == 0;
    } else {
      assert a[0] in multiset(b);
      var i :| 0 <= i < |b| && b[i] == a[0];
      RestIsPermutation(a, b, i);
      KeysOfPermutation(a[1..], b[..i] + b[i + 1..]);
      assert Keys(a) == [a[0].key] + Keys(a[1..]);
      assert Keys(b) == Keys(b[..i]) + [b[i].key] + Keys(b[i + 1..]);
      assert Keys(b[..i] + b[i + 1..]) == Keys(b[..i]) + Keys(b[i + 1..]);
    }
  }

  // ----- The sampler -----

  class DataSampler {
    const cfg: DelayConfig
    const itemSet: ItemSet
    const clock: Clock
    /** Everything sent to the samplers since this process started. */
    var samplingTaskC: seq<SamplingTask>

    ghost const world: Scheduler.World
    /** When the first process started, all steps of the machine since, and the state they led to. */
    ghost const start: int
    ghost var run: seq<Action>
    ghost var state: State
    /** The items that the orchestrator and the consumer have in hand. */
    ghost var taken: SamplingItem?
    ghost var adding: SamplingItem?

    /** The delay loop ends for these data up to the clock's horizon, and they are those of the key. */
    ghost predicate SupportedKey(key: string, timestamp: int, sampleUntil: int) {
      && DelayLoop.Reaches(cfg, timestamp, clock.horizon)
      && FollowsLoop(world, key, cfg, timestamp, clock.horizon)
      && world.Until(key) == sampleUntil
    }

    ghost predicate Supported(item: SamplingItem) {
      SupportedKey(item.key, item.timestamp, item.sampleUntil)
    }

    ghost function NextVisits(): map<string, int>
      reads itemSet`itemMap, itemSet.itemMap.Values
    {
      map k | k in itemSet.itemMap :: itemSet.itemMap[k].nextVisit
    }

    ghost predicate Sound()
      reads itemSet, clock
    {
      && Int64(cfg.base) && world.Unbounded()
      && itemSet.Valid() && clock.Valid()
      && forall k :: k in itemSet.itemMap ==> Supported(itemSet.itemMap[k])
    }

    /** The machine state is that of the item set and the clock. */
    ghost predicate Linked()
      reads `state, itemSet, itemSet.itemMap.Values, clock
    {
      && state.order == Keys(itemSet.itemArray)
      && state.next == NextVisits()
      && state.pointer == itemSet.pointer
      && state.now == clock.now
    }

    ghost predicate HoldsTaken(key: string)
      reads `taken, itemSet`itemMap
    {
      taken != null && key in itemSet.itemMap && itemSet.itemMap[key] == taken
    }

    ghost predicate TakenInHand()
      reads `state, `taken, itemSet`itemMap
    {
      match state.orch
      case Fetched(k) => HoldsTaken(k)
      case Due(k) => HoldsTaken(k)
      case Removing(v) => HoldsTaken(v.key)
      case Sending(v) => taken != null && taken.key == v.key
      case _ => true
    }

    ghost predicate AddingInHand()
      reads `state, `adding, itemSet`itemMap
    {
      state.cons.Adding? ==>
        && adding != null && adding.key == state.cons.key && Supported(adding)
        && (if state.cons.added then adding.key in itemSet.itemMap && itemSet.itemMap[adding.key] == adding
            else adding !in itemSet.itemMap.Values)
    }

    /** What the orchestrator and the consumer have in hand is what the machine says. */
    ghost predicate InHand()
      reads `state, `taken, `adding, itemSet`itemMap
    {
      TakenInHand() && AddingInHand()
    }

    static ghost predicate Matches(task: SamplingTask, v: Scheduler.Visit) {
      task.visitRound == v.round && task.item.key == v.key
    }

    /** The tasks sent are the last ones of the log, which goes back to the first process. */
    ghost predicate Logged()
      reads `state, `samplingTaskC
    {
      LastOf(samplingTaskC, state.log)
    }

    static ghost predicate LastOf(tasks: seq<SamplingTask>, log: seq<Scheduler.Visit>) {
      && |tasks| <= |log|
      && forall i :: 0 <= i < |tasks| ==> Matches(tasks[i], log[|log| - |tasks| + i])
    }

    static lemma LastOfBoth(tasks: seq<SamplingTask>, log: seq<Scheduler.Visit>, task: SamplingTask, v: Scheduler.Visit)
      requires LastOf(tasks, log) && Matches(task, v)
      ensures LastOf(tasks + [task], log + [v])
    {
    }

    ghost predicate Valid()
      reads this, itemSet, itemSet.itemMap.Values, clock
    {
      && Sound() && Linked() && InHand() && Logged()
      && ZERO_TIME < start && Reached(world, Scheduler.Init(start), run, state)
    }

    /**
     A process starts with an empty set, for the first time (`before` is empty) or after a crash at the end of
     the steps taken before.
     */
    constructor (cfg: DelayConfig, clock: Clock,
                 ghost world: Scheduler.World, ghost start: int, ghost before: seq<Action>)
      requires Int64(cfg.base) && world.Unbounded() && clock.Valid() && ZERO_TIME < start
      requires Scheduler.Legal(world, Scheduler.Init(start), before)
      requires Scheduler.Run(world, Scheduler.Init(start), before).now <= clock.now
      ensures Valid() && fresh(itemSet)
      ensures this.cfg == cfg && this.clock == clock && this.world == world && this.start == start
      ensures itemSet.itemMap == map[] && samplingTaskC == []
      ensures before <= run
      ensures state == Scheduler.Init(clock.now).(log := Scheduler.Run(world, Scheduler.Init(start), before).log)
    {
      this.cfg := cfg;
      this.clock := clock;
      this.itemSet := new ItemSet();
      this.samplingTaskC := [];
      this.world := world;
      this.start := start;
      this.run := before + [Scheduler.Tick(clock.now), Scheduler.Crash];
      this.state := Scheduler.Init(clock.now).(log := Scheduler.Run(world, Scheduler.Init(start), before).log);
      this.taken := null;
      this.adding := null;
      new;
      ExtendAt(world, Scheduler.Init(start), before, Scheduler.Run(world, Scheduler.Init(start), before),
               clock.now, Scheduler.Crash);
      assert NextVisits() == map[];
    }

    /** The machine takes a step at the present time. */
    ghost method Take(a: Action)
      requires world.Unbounded() && Reached(world, Scheduler.Init(start), run, state)
      requires state.now <= clock.now && Scheduler.Enabled(state.(now := clock.now), a)
      modifies `run, `state
      ensures Reached(world, Scheduler.Init(start), run, state)
      ensures run == old(run) + [Scheduler.Tick(clock.now), a]
      ensures state == Scheduler.Step(world, old(state).(now := clock.now), a)
      ensures old(Sound()) ==> Sound()
      ensures NextVisits() == old(NextVisits())
      ensures old(Logged()) && !a.Send? ==> Logged()
      ensures old(TakenInHand()) && state.orch == old(state.orch) ==> TakenInHand()
    {
      ExtendAt(world, Scheduler.Init(start), run, state, clock.now, a);
      run := run + [Scheduler.Tick(clock.now), a];
      state := Scheduler.Step(world, state.(now := clock.now), a);
    }

    /** Everything proved of the machine holds of this object. */
    lemma Invariant()
      requires Valid()
      ensures Rounds.Inv(world, state)
    {
      Rounds.InitInv(world, start);
      Rounds.InvRun(world, Scheduler.Init(start), run);
    }

    // How the next visits follow the map, when the items themselves keep theirs

    twostate predicate Kept(items: set<SamplingItem>)
      reads items
    {
      forall x :: x in items ==> x.nextVisit == old(x.nextVisit)
    }

    twostate lemma NextVisitsKept()
      requires Kept(old(itemSet.itemMap.Values)) && itemSet.itemMap == old(itemSet.itemMap)
      ensures NextVisits() == old(NextVisits())
    {
    }

    twostate lemma NextVisitsWithout(key: string)
      requires Kept(old(itemSet.itemMap.Values)) && itemSet.itemMap == old(itemSet.itemMap) - {key}
      ensures NextVisits() == old(NextVisits()) - {key}
    {
    }

    twostate lemma NextVisitsAdded(item: SamplingItem)
      requires Kept(old(itemSet.itemMap.Values)) && itemSet.itemMap == old(itemSet.itemMap)[item.key := item]
      requires item.key !in old(itemSet.itemMap)
      ensures NextVisits() == old(NextVisits())[item.key := item.nextVisit]
    {
    }

    // ----- The next visit of an item -----

    method UpdateNextVisitTime(item: SamplingItem) returns (visitRound: int, validNextVisit: bool)
      requires Int64(cfg.base) && clock.Valid() && DelayLoop.Reaches(cfg, item.timestamp, clock.horizon)
      modifies clock, item`nextVisit
      ensures clock.Valid() && old(clock.now) <= clock.now
      ensures item.nextVisit == NextSlot(cfg, item.timestamp, clock.now)
      ensures visitRound == NextIndex(cfg, item.timestamp, clock.now) + 2
      ensures validNextVisit <==> item.nextVisit < item.sampleUntil
    {
      var round, nextVisitTime := ComputeNextVisitTime(item.timestamp, item.nextVisit, cfg, clock);
      item.nextVisit := nextVisitTime;
      return round, nextVisitTime < item.sampleUntil;
    }

    /** The same for an item that may or may not be in the set, seen from the set. */
    method Schedule(item: SamplingItem) returns (visitRound: int, validNextVisit: bool)
      requires Sound() && Supported(item)
      modifies clock, item`nextVisit
      ensures Sound() && old(clock.now) <= clock.now
      ensures item.nextVisit == world.First(item.key, clock.now) == NextSlot(cfg, item.timestamp, clock.now)
      ensures visitRound - 2 == world.Index(item.key, clock.now) == NextIndex(cfg, item.timestamp, clock.now)
      ensures validNextVisit <==> item.nextVisit < world.Until(item.key)
      ensures NextVisits()
           == if item in itemSet.itemMap.Values
              then old(NextVisits())[item.key := item.nextVisit] else old(NextVisits())
      ensures old(InHand()) ==> InHand()
      ensures old(Logged()) ==> Logged()
    {
      ghost var next := NextVisits();
      visitRound, validNextVisit := UpdateNextVisitTime(item);
      LoopGivesFirst(world, item.key, cfg, item.timestamp, clock.now, clock.horizon);
      if item in itemSet.itemMap.Values {
        assert itemSet.itemMap[item.key] == item;
        assert NextVisits() == next[item.key := item.nextVisit];
      } else {
        assert NextVisits() == next;
      }
    }

    // ----- The steps of the orchestrator -----

    /** The loop that waits for the first item. */
    method TestInit() returns (init: bool)
      requires Valid() && state.orch.Waiting?
      modifies `run, `state
      ensures Valid()
      ensures init <==> itemSet.itemArray != []
      ensures run == if init then old(run) + [Scheduler.Tick(clock.now), Scheduler.Begin] else old(run)
      ensures state.orch == (if init then Scheduler.Idle else Scheduler.Waiting) && state.cons == old(state.cons)
    {
      init := itemSet.IsInit();
      if init {
        Take(Scheduler.Begin);
      }
    }

    /** The call of Next, seen from the set. */
    method Advance() returns (item: SamplingItem?)
      requires Sound()
      modifies itemSet`pointer
      ensures Sound() && NextVisits() == old(NextVisits())
      ensures var at := old(itemSet.pointer);
              if 0 <= at < |itemSet.itemArray|
              then item == itemSet.itemArray[at] && Keys(itemSet.itemArray)[at] == item.key && itemSet.pointer == at + 1
              else item == null && itemSet.pointer == at
      ensures item != null ==> item.key in itemSet.itemMap && itemSet.itemMap[item.key] == item
    {
      item := itemSet.Next();
      NextVisitsKept();
    }

    method TakeNext() returns (item: SamplingItem?)
      requires Valid() && state.orch.Idle?
      modifies itemSet`pointer, `run, `state, `taken
      ensures Valid() && taken == item
      ensures var at := old(itemSet.pointer);
              && item == (if 0 <= at < |itemSet.itemArray| then itemSet.itemArray[at] else null)
              && itemSet.pointer == (if item != null then at + 1 else at)
      ensures item != null ==> item.key in itemSet.itemMap && itemSet.itemMap[item.key] == item
      ensures run == old(run) + [Scheduler.Tick(clock.now), Scheduler.CallNext] && state.cons == old(state.cons)
      ensures state.orch == if item == null then Scheduler.Sorting else Scheduler.Fetched(item.key)
    {
      item := Advance();
      taken := item;
      Take(Scheduler.CallNext);
    }

    method TestReady(item: SamplingItem) returns (ready: bool)
      requires Valid() && state.orch == Scheduler.Fetched(item.key) && taken == item
      modifies clock, `run, `state
      ensures Valid()
      ensures old(clock.now) <= clock.now
      ensures ready <==> item.nextVisit != ZERO_TIME && item.nextVisit < clock.now
      ensures run == old(run) + [Scheduler.Tick(clock.now), Scheduler.TestReady] && state.cons == old(state.cons)
      ensures state.orch == if ready then Scheduler.Due(item.key) else Scheduler.Sorting
    {
      var now := clock.Read();
      ready := item.IsReadyForNextPing(now);
      Take(Scheduler.TestReady);
    }

    method VisitItem(item: SamplingItem) returns (visitRound: int, validNextVisit: bool)
      requires Valid() && state.orch == Scheduler.Due(item.key) && taken == item
      modifies clock, item`nextVisit, `run, `state
      ensures Valid()
      ensures old(clock.now) <= clock.now
      ensures run == old(run) + [Scheduler.Tick(clock.now), Scheduler.Update] && state.cons == old(state.cons)
      ensures if validNextVisit then state.orch.Sending? else state.orch.Removing?
      ensures item.nextVisit == NextSlot(cfg, item.timestamp, clock.now)
      ensures visitRound == NextIndex(cfg, item.timestamp, clock.now) + 2
      ensures state.orch.visit
           == Scheduler.Visit(item.key, visitRound, old(item.nextVisit), clock.now, item.nextVisit)
      ensures validNextVisit <==> item.nextVisit < item.sampleUntil
    {
      assert itemSet.itemMap[item.key] == item && state.next[item.key] == item.nextVisit;
      visitRound, validNextVisit := Schedule(item);
      assert HoldsTaken(item.key);
      Take(Scheduler.Update);
    }

    /** The item being removed is not the one being added, which has no next visit. */
    lemma RemovedIsNotAdded()
      requires Valid() && state.orch.Removing?
      ensures state.cons.Adding? && state.cons.added ==> state.cons.key != state.orch.visit.key
    {
      Invariant();
    }

    /** The removal, seen from the set. */
    method RemoveKey(key: string)
      requires Sound()
      modifies itemSet`itemMap, itemSet`itemArray
      ensures Sound()
      ensures itemSet.itemMap == old(itemSet.itemMap) - {key}
      ensures NextVisits() == old(NextVisits()) - {key}
      ensures key in old(itemSet.itemMap)
              ==> && itemSet.itemArray == WithoutKey(old(itemSet.itemArray), key)
                  && Keys(itemSet.itemArray) == Scheduler.Without(old(Keys(itemSet.itemArray)), key)
    {
      KeysWithout(itemSet.itemArray, key);
      var removed := itemSet.RemoveItem(key);
      NextVisitsWithout(key);
    }

    method Retire(item: SamplingItem)
      requires Valid() && state.orch.Removing? && taken == item
      modifies itemSet`itemMap, itemSet`itemArray, `run, `state
      ensures Valid()
      ensures run == old(run) + [Scheduler.Tick(clock.now), Scheduler.Remove] && state.cons == old(state.cons)
      ensures state.orch == Scheduler.Sending(old(state.orch.visit))
      ensures itemSet.itemMap == old(itemSet.itemMap) - {item.key}
      ensures itemSet.itemArray == WithoutKey(old(itemSet.itemArray), item.key)
    {
      RemovedIsNotAdded();
      RemoveKey(item.key);
      Take(Scheduler.Remove);
    }

    method Send(item: SamplingItem, visitRound: int) returns (task: SamplingTask)
      requires Valid() && state.orch.Sending? && taken == item && visitRound == state.orch.visit.round
      modifies `samplingTaskC, `run, `state
      ensures Valid()
      ensures run == old(run) + [Scheduler.Tick(clock.now), Scheduler.Send] && state.cons == old(state.cons)
      ensures state.orch.Checking?
      ensures task.item == item && task.visitRound == visitRound
      ensures samplingTaskC == old(samplingTaskC) + [task]
    {
      task := new SamplingTask(visitRound, item);
      LastOfBoth(samplingTaskC, state.log, task, state.orch.visit);
      samplingTaskC := samplingTaskC + [task];
      Take(Scheduler.Send);
    }

    method TestSort() returns (sortNeeded: bool)
      requires Valid() && state.orch.Checking?
      modifies `run, `state
      ensures Valid()
      ensures run == old(run) + [Scheduler.Tick(clock.now), Scheduler.TestSort] && state.cons == old(state.cons)
      ensures sortNeeded <==> itemSet.pointer + 1 >= |itemSet.itemArray|
      ensures state.orch == if sortNeeded then Scheduler.Sorting else Scheduler.Idle
    {
      var t;
      t, sortNeeded := itemSet.NextVisitTime();
      Take(Scheduler.TestSort);
    }

    lemma SortedKeys()
      requires itemSet.Valid() && SortedByNextVisit(itemSet.itemArray)
      ensures Scheduler.SortedBy(Keys(itemSet.itemArray), NextVisits())
    {
      var items := itemSet.itemArray;
      forall i | 0 <= i < |items|
        ensures items[i].key in NextVisits() && NextVisits()[items[i].key] == items[i].nextVisit
      {
      }
    }

    /** The sort, seen from the set. */
    method SortSet()
      requires Sound()
      modifies itemSet`itemArray, itemSet`pointer
      ensures Sound()
      ensures multiset(itemSet.itemArray) == multiset(old(itemSet.itemArray))
      ensures multiset(Keys(itemSet.itemArray)) == multiset(old(Keys(itemSet.itemArray)))
      ensures Scheduler.SortedBy(Keys(itemSet.itemArray), NextVisits())
      ensures SortedByNextVisit(itemSet.itemArray) && itemSet.pointer == 0
    {
      itemSet.SortItemList();
      KeysOfPermutation(itemSet.itemArray, old(itemSet.itemArray));
      SortedKeys();
    }

    /** updateSegSet */
    method SortItems()
      requires Valid() && state.orch.Sorting?
      modifies itemSet`itemArray, itemSet`pointer, `run, `state
      ensures Valid()
      ensures itemSet.pointer == 0 && SortedByNextVisit(itemSet.itemArray)
      ensures multiset(itemSet.itemArray) == multiset(old(itemSet.itemArray))
      ensures run == old(run) + [Scheduler.Tick(clock.now), Scheduler.Sort(Keys(itemSet.itemArray))]
      ensures state.orch.Idle? && state.cons == old(state.cons)
    {
      SortSet();
      Take(Scheduler.Sort(Keys(itemSet.itemArray)));
    }

    /**
     Hands out the task for a ready item. The item stays in the set exactly if its next visit comes before
     the end of its sampling; nothing else enters or leaves.
     */
    method Dispatch(item: SamplingItem) returns (task: SamplingTask)
      requires Valid() && state.orch == Scheduler.Due(item.key) && taken == item
      modifies `samplingTaskC, `run, `state, itemSet`itemMap, itemSet`itemArray, clock, item`nextVisit
      ensures Valid() && state.orch.Checking? && state.cons == old(state.cons) && old(run) <= run
      ensures old(clock.now) <= clock.now
      ensures item.nextVisit == NextSlot(cfg, item.timestamp, clock.now)
      ensures itemSet.itemMap
           == if item.nextVisit < item.sampleUntil then old(itemSet.itemMap) else old(itemSet.itemMap) - {item.key}
      ensures itemSet.itemArray
           == if item.nextVisit < item.sampleUntil then old(itemSet.itemArray)
              else WithoutKey(old(itemSet.itemArray), item.key)
      ensures samplingTaskC == old(samplingTaskC) + [task]
      ensures task.item == item && task.visitRound == NextIndex(cfg, item.timestamp, clock.now) + 2
    {
      var visitRound, hasValidNextVisit := VisitItem(item);
      if !hasValidNextVisit {
        Retire(item);
      }
      task := Send(item, visitRound);
    }

    /** Take the next item and test it; the result is none unless it is ready. */
    method TakeReady() returns (item: SamplingItem?)
      requires Valid() && state.orch.Idle?
      modifies itemSet`pointer, clock, `run, `state, `taken
      ensures Valid() && state.cons == old(state.cons) && old(run) <= run
      ensures old(clock.now) <= clock.now
      ensures state.orch == if item == null then Scheduler.Sorting else Scheduler.Due(item.key)
      ensures var at, items := old(itemSet.pointer), itemSet.itemArray;
              if 0 <= at < |items| && ZERO_TIME != items[at].nextVisit < clock.now
              then item == taken == items[at] && itemSet.pointer == at + 1 else item == null
      ensures item != null ==> item.key in itemSet.itemMap && itemSet.itemMap[item.key] == item
    {
      item := TakeNext();
      if item != null {
        var ready := TestReady(item);
        if !ready {
          item := null;
        }
      }
    }

    /**
     The beginning of a turn: the item under the cursor, which moves on, if that is ready when it is tested;
     otherwise the array is sorted.
     */
    method Fetch() returns (item: SamplingItem?)
      requires Valid() && state.orch.Idle?
      modifies itemSet`itemArray, itemSet`pointer, clock, `run, `state, `taken
      ensures Valid() && state.cons == old(state.cons) && old(run) <= run
      ensures state.orch == if item == null then Scheduler.Idle else Scheduler.Due(item.key)
      ensures old(clock.now) <= clock.now
      ensures var at, items := old(itemSet.pointer), old(itemSet.itemArray);
              if 0 <= at < |items| && ZERO_TIME != items[at].nextVisit < clock.now
              then item == taken == items[at] && itemSet.itemArray == items && itemSet.pointer == at + 1
              else && item == null && itemSet.pointer == 0
                   && SortedByNextVisit(itemSet.itemArray) && multiset(itemSet.itemArray) == multiset(items)
      ensures item != null ==> item.key in itemSet.itemMap && itemSet.itemMap[item.key] == item
    {
      item := TakeReady();
      if item == null {
        SortItems();
      }
    }

    /** The end of a turn with a visit: sort if the cursor is at the end of the array. */
    method SortAtEnd()
      requires Valid() && state.orch.Checking?
      modifies itemSet`itemArray, itemSet`pointer, `run, `state
      ensures Valid() && state.orch.Idle? && state.cons == old(state.cons) && old(run) <= run
      ensures var at, items := old(itemSet.pointer), old(itemSet.itemArray);
              if at + 1 < |items| then itemSet.itemArray == items && itemSet.pointer == at
              else && itemSet.pointer == 0
                   && SortedByNextVisit(itemSet.itemArray) && multiset(itemSet.itemArray) == multiset(items)
    {
      var sortNeeded := TestSort();
      if sortNeeded {
        SortItems();
      }
    }

    /** The rest of a turn with a ready item. */
    method FinishTurn(item: SamplingItem) returns (task: SamplingTask)
      requires Valid() && state.orch == Scheduler.Due(item.key) && taken == item
      modifies `samplingTaskC, `run, `state, itemSet, clock, item`nextVisit
      ensures Valid() && state.orch.Idle? && state.cons == old(state.cons) && old(run) <= run
      ensures old(clock.now) <= clock.now
      ensures item.nextVisit == NextSlot(cfg, item.timestamp, clock.now)
      ensures samplingTaskC == old(samplingTaskC) + [task]
      ensures task.item == item && task.visitRound == NextIndex(cfg, item.timestamp, clock.now) + 2
      ensures var stays := item.nextVisit < item.sampleUntil;
              var left := if stays then old(itemSet.itemArray) else WithoutKey(old(itemSet.itemArray), item.key);
              && itemSet.itemMap == (if stays then old(itemSet.itemMap) else old(itemSet.itemMap) - {item.key})
              && (if old(itemSet.pointer) + 1 < |left|
                  then itemSet.itemArray == left && itemSet.pointer == old(itemSet.pointer)
                  else && itemSet.pointer == 0 && SortedByNextVisit(itemSet.itemArray)
                       && multiset(itemSet.itemArray) == multiset(left))
    {
      task := Dispatch(item);
      SortAtEnd();
    }

    /**
     One turn of the orchestrator, wherever the consumer is. If the item under the cursor is ready it gets a
     task, and leaves the set exactly if its new next visit is not before the end of its sampling; the array is
     sorted if the cursor then is at its end, and otherwise the cursor has moved on by one. If no item is ready
     the array is sorted and nothing else happens.
     */
    method OrchestratorTurn() returns (task: SamplingTask?)
      requires Valid() && state.orch.Idle?
      modifies `samplingTaskC, `run, `state, `taken, itemSet, clock, itemSet.itemMap.Values
      ensures Valid() && state.orch.Idle? && state.cons == old(state.cons) && old(run) <= run
      ensures var at, items := old(itemSet.pointer), old(itemSet.itemArray);
              0 <= at < |items| && ZERO_TIME != old(items[at].nextVisit) < old(clock.now) ==> task != null
      ensures task == null ==>
                && samplingTaskC == old(samplingTaskC) && itemSet.itemMap == old(itemSet.itemMap)
                && var at, items := old(itemSet.pointer), old(itemSet.itemArray);
                   && !(0 <= at < |items| && ZERO_TIME != items[at].nextVisit < clock.now)
                   && itemSet.pointer == 0
                   && SortedByNextVisit(itemSet.itemArray) && multiset(itemSet.itemArray) == multiset(items)
      ensures task != null ==>
                && samplingTaskC == old(samplingTaskC) + [task]
                && var at, items, item := old(itemSet.pointer), old(itemSet.itemArray), task.item;
                   && 0 <= at < |items| && item == items[at]
                   && item in old(itemSet.itemMap.Values)
                   && ZERO_TIME != old(item.nextVisit) < clock.now
                   && item.nextVisit == NextSlot(cfg, item.timestamp, clock.now)
                   && task.visitRound == NextIndex(cfg, item.timestamp, clock.now) + 2
                   && var stays := item.nextVisit < item.sampleUntil;
                      var left := if stays then items else WithoutKey(items, item.key);
                      && itemSet.itemMap == (if stays then old(itemSet.itemMap) else old(itemSet.itemMap) - {item.key})
                      && (if at + 2 < |left| then itemSet.itemArray == left && itemSet.pointer == at + 1
                          else && itemSet.pointer == 0 && SortedByNextVisit(itemSet.itemArray)
                               && multiset(itemSet.itemArray) == multiset(left))
    {
      var nextItem := Fetch();
      if nextItem == null {
        return null;
      }
      task := FinishTurn(nextItem);
    }

    // ----- The steps of the consumer -----

    /** While the consumer rests every item of the set has a next visit, so an item without one is not in it. */
    lemma NewIsOutside(item: SamplingItem)
      requires Valid() && state.cons.Resting? && item.nextVisit == ZERO_TIME
      ensures item !in itemSet.itemMap.Values
    {
      Invariant();
      forall k | k in itemSet.itemMap ensures itemSet.itemMap[k].nextVisit != ZERO_TIME {
        assert k in state.next;
      }
    }

    /** The addition, seen from the set. */
    method EnterItem(item: SamplingItem) returns (added: bool)
      requires Sound() && Supported(item)
      modifies itemSet`itemMap, itemSet`itemArray
      ensures Sound()
      ensures added <==> item.key !in old(itemSet.itemMap)
      ensures itemSet.itemMap == if added then old(itemSet.itemMap)[item.key := item] else old(itemSet.itemMap)
      ensures Keys(itemSet.itemArray)
           == if added then old(Keys(itemSet.itemArray)) + [item.key] else old(Keys(itemSet.itemArray))
      ensures NextVisits() == if added then old(NextVisits())[item.key := item.nextVisit] else old(NextVisits())
      ensures old(TakenInHand()) ==> TakenInHand()
      ensures old(Logged()) ==> Logged()
    {
      KeysAppend(itemSet.itemArray, item);
      added := itemSet.AddItem(item);
      if added {
        NextVisitsAdded(item);
      }
    }

    /** The addition in the machine, once the set has changed. */
    ghost method NoteAdded(item: SamplingItem, added: bool)
      requires Sound() && TakenInHand() && Logged() && Supported(item)
      requires ZERO_TIME < start && Reached(world, Scheduler.Init(start), run, state)
      requires state.cons.Resting? && !state.orch.Syncing? && state.now == clock.now && state.pointer == itemSet.pointer
      requires added <==> item.key !in state.next
      requires Keys(itemSet.itemArray) == if added then state.order + [item.key] else state.order
      requires NextVisits() == if added then state.next[item.key := ZERO_TIME] else state.next
      requires if added then item.key in itemSet.itemMap && itemSet.itemMap[item.key] == item
               else item !in itemSet.itemMap.Values
      modifies `run, `state, `adding
      ensures Valid() && adding == item
      ensures run == old(run) + [Scheduler.Tick(clock.now), Scheduler.Add(item.key)] && state.orch == old(state.orch)
      ensures state.cons == Scheduler.Adding(item.key, added)
    {
      adding := item;
      Take(Scheduler.Add(item.key));
    }

    /** The first step of the consumer, wherever the orchestrator is: an item of a key in the set is dropped. */
    method AddNew(item: SamplingItem)
      requires Valid() && state.cons.Resting? && !state.orch.Syncing?
      requires Supported(item) && item.nextVisit == ZERO_TIME
      modifies itemSet`itemMap, itemSet`itemArray, `run, `state, `adding
      ensures Valid() && adding == item
      ensures run == old(run) + [Scheduler.Tick(clock.now), Scheduler.Add(item.key)] && state.orch == old(state.orch)
      ensures state.cons == Scheduler.Adding(item.key, item.key !in old(itemSet.itemMap))
      ensures itemSet.itemMap == WithNew(old(itemSet.itemMap), item)
    {
      NewIsOutside(item);
      var added := EnterItem(item);
      NoteAdded(item, added);
    }

    /** What the orchestrator has in hand is not the item being added, which has no next visit. */
    lemma AddedIsNotTaken()
      requires Valid() && state.cons.Adding?
      ensures state.cons.added ==> state.cons.key in state.next
      ensures state.cons.added && state.orch.Due? ==> state.cons.key != state.orch.key
      ensures state.cons.added && state.orch.Removing? ==> state.cons.key != state.orch.visit.key
    {
      Invariant();
    }

    /** The second step: the item is scheduled, whether it was added or dropped. */
    method ScheduleNew(item: SamplingItem)
      requires Valid() && state.cons.Adding? && adding == item
      modifies clock, item`nextVisit, `run, `state
      ensures Valid() && old(clock.now) <= clock.now
      ensures run == old(run) + [Scheduler.Tick(clock.now), Scheduler.Touch] && state.orch == old(state.orch)
      ensures state.cons.Resting?
      ensures item.nextVisit == NextSlot(cfg, item.timestamp, clock.now)
    {
      AddedIsNotTaken();
      var visitRound, valid := Schedule(item);
      Take(Scheduler.Touch);
    }

    /** One item from the scrapers, which have not given it a next visit. */
    method ConsumeItem(item: SamplingItem)
      requires Valid() && state.cons.Resting? && !state.orch.Syncing?
      requires Supported(item) && item.nextVisit == ZERO_TIME
      modifies itemSet`itemMap, itemSet`itemArray, clock, item`nextVisit, `run, `state, `adding
      ensures Valid() && state.cons.Resting? && state.orch == old(state.orch) && old(run) <= run
      ensures item.nextVisit == NextSlot(cfg, item.timestamp, clock.now)
      ensures itemSet.itemMap == WithNew(old(itemSet.itemMap), item)
    {
      AddNew(item);
      ScheduleNew(item);
    }

    /** A whole notification, item after item. */
    method ConsumeNewSamplingItems(items: seq<SamplingItem>)
      requires Valid() && state.cons.Resting? && !state.orch.Syncing?
      requires forall i :: 0 <= i < |items| ==> Supported(items[i]) && items[i].nextVisit == ZERO_TIME
      requires forall i, j :: 0 <= i < j < |items| ==> items[i] != items[j]
      modifies itemSet`itemMap, itemSet`itemArray, clock, items, `run, `state, `adding
      ensures Valid() && state.cons.Resting? && state.orch == old(state.orch) && old(run) <= run
      ensures itemSet.itemMap == Consumed(old(itemSet.itemMap), items)
    {
      for i := 0 to |items|
        invariant Valid() && state.cons.Resting? && state.orch == old(state.orch) && old(run) <= run
        invariant forall j :: i <= j < |items| ==> items[j].nextVisit == ZERO_TIME
        invariant itemSet.itemMap == Consumed(old(itemSet.itemMap), items[..i])
      {
        ConsumeItem(items[i]);
        assert items[..i + 1][..i] == items[..i];
      }
      assert items[..|items|] == items;
    }

    // ----- The steps of the start-up -----

    /**
     One row of the database enters the set exactly if its first slot that is not in the past precedes the
     end of its sampling and its key is not there yet.
     */
    method AddRow(row: SamplingItem)
      requires itemSet.Valid() && clock.Valid() && Int64(cfg.base)
      requires DelayLoop.Reaches(cfg, row.timestamp, clock.horizon)
      requires row !in itemSet.itemMap.Values
      modifies itemSet`itemMap, itemSet`itemArray, clock, row`nextVisit
      ensures itemSet.Valid() && clock.Valid() && old(clock.now) <= clock.now
      ensures row.nextVisit == NextSlot(cfg, row.timestamp, clock.now)
      ensures var enters := row.nextVisit < row.sampleUntil && row.key !in old(itemSet.itemMap);
              && itemSet.itemMap == (if enters then old(itemSet.itemMap)[row.key := row] else old(itemSet.itemMap))
              && Keys(itemSet.itemArray)
                 == (if enters then old(Keys(itemSet.itemArray)) + [row.key] else old(Keys(itemSet.itemArray)))
              && NextVisits() == (if enters then old(NextVisits())[row.key := row.nextVisit] else old(NextVisits()))
    {
      var visitRound, validNextVisit := UpdateNextVisitTime(row);
      NextVisitsKept();
      if !validNextVisit {
        return;
      }
      label updated:
      KeysAppend(itemSet.itemArray, row);
      var added := itemSet.AddItem(row);
      if added {
        NextVisitsAdded@updated(row);
      }
    }

    /**
     The same in the life of the process. Rows of one key need not agree; as long as they do, the start-up is
     a run of the machine.
     */
    method SyncRow(row: SamplingItem)
      requires itemSet.Valid() && clock.Valid() && Int64(cfg.base)
      requires DelayLoop.Reaches(cfg, row.timestamp, clock.horizon)
      requires row !in itemSet.itemMap.Values
      modifies itemSet`itemMap, itemSet`itemArray, clock, row`nextVisit, `run, `state
      ensures itemSet.Valid() && clock.Valid() && old(clock.now) <= clock.now
      ensures row.nextVisit == NextSlot(cfg, row.timestamp, clock.now)
      ensures itemSet.itemMap
           == if row.nextVisit < row.sampleUntil && row.key !in old(itemSet.itemMap)
              then old(itemSet.itemMap)[row.key := row] else old(itemSet.itemMap)
      ensures old(Starting()) && Supported(row)
              ==> Starting() && run == old(run) + [Scheduler.Tick(clock.now), Scheduler.SyncRow(row.key)]
    {
      ghost var agrees := Starting() && Supported(row);
      AddRow(row);
      if agrees {
        LoopGivesFirst(world, row.key, cfg, row.timestamp, clock.now, clock.horizon);
        Take(Scheduler.SyncRow(row.key));
      }
    }

    ghost predicate Starting()
      reads this, itemSet, itemSet.itemMap.Values, clock
    {
      Valid() && state.orch.Syncing? && state.cons.Resting?
    }

    method SyncDone()
      requires Starting()
      modifies `run, `state
      ensures Valid() && state.orch.Waiting? && state.cons.Resting?
      ensures run == old(run) + [Scheduler.Tick(clock.now), Scheduler.SyncDone]
    {
      Take(Scheduler.SyncDone);
    }

    // ----- What holds of the tasks sent -----

    /**
     At every moment of every process, whatever steps led there: the tasks sent for a key carry strictly
     increasing rounds, each at least 3.
     */
    lemma TasksInOrder()
      requires Valid()
      ensures forall i :: 0 <= i < |samplingTaskC| ==> samplingTaskC[i].visitRound >= 3
      ensures forall i, j :: 0 <= i < j < |samplingTaskC| && samplingTaskC[i].item.key == samplingTaskC[j].item.key
                ==> samplingTaskC[i].visitRound < samplingTaskC[j].visitRound
    {
      Rounds.UniqueRounds(world, start, run);
      var earlier := |state.log| - |samplingTaskC|;
      forall i | 0 <= i < |samplingTaskC| ensures samplingTaskC[i].visitRound >= 3 {
        assert Matches(samplingTaskC[i], state.log[earlier + i]);
      }
      forall i, j | 0 <= i < j < |samplingTaskC| && samplingTaskC[i].item.key == samplingTaskC[j].item.key
        ensures samplingTaskC[i].visitRound < samplingTaskC[j].visitRound
      {
        assert Matches(samplingTaskC[i], state.log[earlier + i]) && Matches(samplingTaskC[j], state.log[earlier + j]);
      }
    }

    /**
     And they number at most the slots of the key before the end of its sampling, and one more for each time
     the consumer scheduled it after that.
     */
    lemma TasksBounded(key: string)
      requires Valid()
      ensures |set i | 0 <= i < |samplingTaskC| && samplingTaskC[i].item.key == key|
              <= BoundedVisits.SlotsBefore(world, key)
                 + BoundedVisits.LateAdds(world, Scheduler.Init(start), run, key)
    {
      BoundedVisits.VisitsBounded(world, start, run, key);
      TasksCounted(key, |samplingTaskC|);
      TasksOfCounts(samplingTaskC, key);
      assert samplingTaskC[..|samplingTaskC|] == samplingTaskC && state.log[..|state.log|] == state.log;
    }

    lemma {:induction false} TasksCounted(key: string, n: nat)
      requires Logged() && n <= |samplingTaskC|
      ensures var log := state.log[..|state.log| - |samplingTaskC| + n];
              TasksOf(samplingTaskC[..n], key)
              <= BoundedVisits.Count(world, log, key, true) + BoundedVisits.Count(world, log, key, false)
    {
      if n > 0 {
        TasksCounted(key, n - 1);
        var m := |state.log| - |samplingTaskC| + n;
        assert samplingTaskC[..n][..n - 1] == samplingTaskC[..n - 1];
        assert state.log[..m][..m - 1] == state.log[..m - 1];
        assert Matches(samplingTaskC[n - 1], state.log[m - 1]);
      }
    }
  }

  /** The number of tasks for the key. */
  function TasksOf(tasks: seq<SamplingTask>, key: string): nat {
    if tasks == [] then 0
    else TasksOf(tasks[..|tasks| - 1], key) + if tasks[|tasks| - 1].item.key == key then 1 else 0
  }

  lemma {:induction false} TasksOfCounts(tasks: seq<SamplingTask>, key: string)
    ensures TasksOf(tasks, key) == |set i | 0 <= i < |tasks| && tasks[i].item.key == key|
  {
    var all := set i | 0 <= i < |tasks| && tasks[i].item.key == key;
    if tasks == [] {
      assert all == {};
    } else {
      var n := |tasks| - 1;
      TasksOfCounts(tasks[..n], key);
      assert all == (set i | 0 <= i < n && tasks[..n][i].item.key == key)
                    + if tasks[n].item.key == key then {n} else {};
    }
  }

  function WithNew(m: map<string, SamplingItem>, item: SamplingItem): map<string, SamplingItem> {
    if item.key in m then m else m[item.key := item]
  }

  /** The set after a notification. */
  function Consumed(m: map<string, SamplingItem>, items: seq<SamplingItem>): map<string, SamplingItem> {
    if items == [] then m else WithNew(Consumed(m, items[..|items| - 1]), items[|items| - 1])
  }

  /** Every new key enters the set with one of the items; what was in the set stays as it is. */
  lemma {:induction false} ConsumedKeys(m: map<string, SamplingItem>, items: seq<SamplingItem>)
    ensures Consumed(m, items).Keys == m.Keys + KeySet(items)
    ensures forall k :: k in m ==> Consumed(m, items)[k] == m[k]
    ensures forall k :: k in Consumed(m, items) && k !in m ==> Consumed(m, items)[k] in items
  {
    if items != [] {
      var n := |items| - 1;
      ConsumedKeys(m, items[..n]);
      KeySetGrows(items, n);
      assert items[..n + 1] == items;
    }
  }

  ghost function KeySet(items: seq<SamplingItem>): set<string> {
    set i | 0 <= i < |items| :: items[i].key
  }

  lemma KeySetGrows(items: seq<SamplingItem>, i: nat)
    requires i < |items|
    ensures KeySet(items[..i + 1]) == KeySet(items[..i]) + {items[i].key}
  {
    assert items[..i + 1] == items[..i] + [items[i]];
    assert items[i].key in KeySet(items[..i + 1]) by {
      assert items[..i + 1][i] == items[i];
    }
    forall k | k in KeySet(items[..i]) ensures k in KeySet(items[..i + 1]) {
      var j :| 0 <= j < i && items[..i][j].key == k;
      assert items[..i + 1][j].key == k;
    }
  }
}
