/**
 Rounds over restarts that change the slots. The database keeps whole seconds, so an item whose timestamp has
 a fraction of a second comes back from a crash with a slightly earlier one, and with slots that all come
 earlier by as much. The rounds of its tasks increase all the same.
 */
module Restarts {
  import opened Scheduler
  import opened Slots
  import opened Rounds
  import VisitSchedule

  /** Every slot of the second world is at or before the same one of the first. */
  ghost predicate NoLater(w: World, w': World) {
    forall key, k: nat :: w'.Slot(key, k) <= w.Slot(key, k)
  }

  /** So it is when the timestamps are cut off to an earlier time and the settings stay. */
  lemma CutOff(cfg: VisitSchedule.DelayConfig, seen: string -> int, stored: string -> int, w: World, w': World)
    requires forall key :: stored(key) <= seen(key)
    requires forall key, k: nat :: w.Slot(key, k) == VisitSchedule.Slot(cfg, seen(key), k)
    requires forall key, k: nat :: w'.Slot(key, k) == VisitSchedule.Slot(cfg, stored(key), k)
    ensures NoLater(w, w')
  {
  }

  ghost predicate RoundInv(w: World, s: State)
    requires w.Unbounded()
  {
    var visits := AllVisits(s);
    && (forall i :: 0 <= i < |visits| ==>
          visits[i].round >= 3 && visits[i].at <= s.now && visits[i].round - 2 <= w.Index(visits[i].key, visits[i].at))
    && Increase(visits)
    && (forall k :: Pending(s, k) ==> w.IsSlot(k, s.next[k]))
    && (forall i :: 0 <= i < |visits| && Pending(s, visits[i].key)
          ==> visits[i].round - 2 <= w.Index(visits[i].key, s.next[visits[i].key]))
  }

  ghost predicate Increase(visits: seq<Visit>) {
    forall i, j :: 0 <= i < j < |visits| && visits[i].key == visits[j].key ==> visits[i].round < visits[j].round
  }

  // ----- One process -----

  lemma ScheduleKeepsRounds(w: World, s: State, s': State, k: string)
    requires w.Unbounded() && RoundInv(w, s)
    requires s'.next == s.next[k := w.First(k, s.now)]
    requires s'.now == s.now && AllVisits(s') == AllVisits(s)
    ensures RoundInv(w, s')
  {
    var visits := AllVisits(s);
    FirstMonotoneAndStable(w.slots(k), s.now, w.First(k, s.now));
    forall i | 0 <= i < |visits| && visits[i].key == k ensures visits[i].round - 2 <= w.Index(k, s'.next[k]) {
      FirstMonotoneAndStable(w.slots(k), visits[i].at, s.now);
    }
    forall j | Pending(s', j) ensures w.IsSlot(j, s'.next[j]) {
      assert j == k || Pending(s, j);
    }
  }

  lemma TaskExtends(w: World, s: State, s': State, v: Visit)
    requires w.Unbounded() && RoundInv(w, s)
    requires s'.next == s.next && s'.now == s.now && AllVisits(s') == AllVisits(s) + [v]
    requires v.round >= 3 && v.at == s.now && v.round - 2 <= w.Index(v.key, s.now)
    requires v.key in s.next && v.round - 2 <= w.Index(v.key, s.next[v.key])
    requires forall i :: 0 <= i < |AllVisits(s)| && AllVisits(s)[i].key == v.key ==> AllVisits(s)[i].round < v.round
    ensures RoundInv(w, s')
  {
    assert forall k :: Pending(s', k) <==> Pending(s, k);
  }

  lemma UpdateKeepsRounds(w: World, s: State)
    requires w.Unbounded() && SetInv(w, s) && RoundInv(w, s) && Enabled(s, Update)
    ensures RoundInv(w, Step(w, s, Update))
  {
    var v, s' := NewVisit(w, s), Step(w, s, Update);
    var scheduled := s'.(orch := s.orch);
    var visits := AllVisits(s);
    assert Pending(s, v.key);
    FirstMonotoneAndStable(w.slots(v.key), v.due, s.now);
    ScheduleKeepsRounds(w, s, scheduled, v.key);
    FirstMonotoneAndStable(w.slots(v.key), s.now, v.next);
    assert AllVisits(s') == visits + [v];
    TaskExtends(w, scheduled, s', v);
  }

  lemma RoundInvStep(w: World, s: State, a: Action)
    requires w.Unbounded() && SetInv(w, s) && RoundInv(w, s) && Enabled(s, a)
    ensures RoundInv(w, Step(w, s, a))
  {
    var s' := Step(w, s, a);
    if a.SyncRow? && s' != s {
      ScheduleKeepsRounds(w, s, s', a.key);
    } else if a.Touch? && s.cons.added {
      ScheduleKeepsRounds(w, s, s', s.cons.key);
    } else if a.Update? {
      UpdateKeepsRounds(w, s);
    } else {
      assert AllVisits(s') <= AllVisits(s);
      assert forall k :: Pending(s', k) ==> Pending(s, k) && s'.next[k] == s.next[k];
    }
  }

  lemma {:induction false} RoundInvRun(w: World, s: State, run: seq<Action>)
    requires w.Unbounded() && SetInv(w, s) && RoundInv(w, s) && Legal(w, s, run)
    ensures SetInv(w, Run(w, s, run)) && RoundInv(w, Run(w, s, run))
    decreases |run|
  {
    if run != [] {
      SetInvStep(w, s, run[0]);
      RoundInvStep(w, s, run[0]);
      RoundInvRun(w, Step(w, s, run[0]), run[1..]);
    }
  }

  // ----- All processes -----

  /** A process with its slots and the steps it takes before it crashes. */
  datatype Process = Process(world: World, run: seq<Action>)

  ghost function Ended(p: Process, s: State): State
    requires p.world.Unbounded() && Legal(p.world, s, p.run)
  {
    Step(p.world, Run(p.world, s, p.run), Crash)
  }

  ghost predicate Follow(s: State, ps: seq<Process>)
    decreases |ps|
  {
    ps == [] ||
    (&& ps[0].world.Unbounded() && Legal(ps[0].world, s, ps[0].run)
     && (|ps| > 1 ==> NoLater(ps[0].world, ps[1].world))
     && Follow(Ended(ps[0], s), ps[1..]))
  }

  ghost function End(s: State, ps: seq<Process>): State
    requires Follow(s, ps)
    decreases |ps|
  {
    if ps == [] then s else End(Ended(ps[0], s), ps[1..])
  }

  /** After a crash nothing is pending, and with earlier slots the indices only grow. */
  lemma NextProcess(w: World, w': World, s: State)
    requires w.Unbounded() && w'.Unbounded() && NoLater(w, w')
    requires RoundInv(w, s) && ZERO_TIME < s.now
    ensures SetInv(w', Step(w, s, Crash)) && RoundInv(w', Step(w, s, Crash))
  {
    var s' := Step(w, s, Crash);
    var visits := AllVisits(s');
    assert visits == s.log <= AllVisits(s);
    forall i | 0 <= i < |visits| ensures visits[i].round - 2 <= w'.Index(visits[i].key, visits[i].at) {
      var v := visits[i];
      assert v == AllVisits(s)[i];
      var n := w'.Index(v.key, v.at);
      assert w'.Slot(v.key, n) <= w.Slot(v.key, n);
    }
  }

  lemma {:induction false} OverProcesses(s: State, ps: seq<Process>)
    requires ps != [] && Follow(s, ps) && SetInv(ps[0].world, s) && RoundInv(ps[0].world, s)
    ensures forall i :: 0 <= i < |End(s, ps).log| ==> End(s, ps).log[i].round >= 3
    ensures Increase(End(s, ps).log)
    decreases |ps|
  {
    var w, end := ps[0].world, Run(ps[0].world, s, ps[0].run);
    RoundInvRun(w, s, ps[0].run);
    var crashed := Ended(ps[0], s);
    if |ps| > 1 {
      NextProcess(w, ps[1].world, end);
      OverProcesses(crashed, ps[1..]);
    } else {
      assert ps[1..] == [];
      assert End(crashed, []) == crashed;
      assert forall i :: 0 <= i < |end.log| ==> AllVisits(end)[i] == end.log[i];
    }
  }

  /**
   Over any number of processes, each with slots no later than the one before: the tasks of a key carry
   strictly increasing rounds, each at least 3.
   */
  lemma RoundsOverRestarts(start: int, ps: seq<Process>)
    requires ps != [] && ZERO_TIME < start && Follow(Init(start), ps)
    ensures forall i :: 0 <= i < |End(Init(start), ps).log| ==> End(Init(start), ps).log[i].round >= 3
    ensures Increase(End(Init(start), ps).log)
  {
    OverProcesses(Init(start), ps);
  }
}
