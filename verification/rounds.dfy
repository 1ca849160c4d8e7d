/**
 What the tasks handed out over a whole run have in common, through any number of crashes and
 re-synchronisations with the database.
 */
module Rounds {
  import opened Scheduler
  import opened Slots

  function InFlight(orch: Orchestrator): seq<Visit> {
    match orch
    case Removing(v) => [v]
    case Sending(v) => [v]
    case _ => []
  }

  function AllVisits(s: State): seq<Visit> {
    s.log + InFlight(s.orch)
  }

  ghost predicate GoodVisit(w: World, now: int, v: Visit)
    requires w.Unbounded()
  {
    && ZERO_TIME < v.due < v.at <= now
    && w.IsSlot(v.key, v.due)
    && v.next == w.First(v.key, v.at)
    && v.round == w.Index(v.key, v.at) + 2
  }

  /** Visits of a key follow each other: the later one was due no earlier than the slot set by the other. */
  ghost predicate Chained(visits: seq<Visit>) {
    forall i, j :: 0 <= i < j < |visits| && visits[i].key == visits[j].key ==> visits[i].next <= visits[j].due
  }

  ghost predicate Pending(s: State, k: string) {
    k in s.next && s.next[k] != ZERO_TIME
  }

  ghost predicate LogInv(w: World, s: State)
    requires w.Unbounded()
  {
    var visits := AllVisits(s);
    && (forall i :: 0 <= i < |visits| ==> GoodVisit(w, s.now, visits[i]))
    && Chained(visits)
    && (forall i :: 0 <= i < |visits| && Pending(s, visits[i].key) ==> visits[i].next <= s.next[visits[i].key])
    && (forall k :: Pending(s, k) ==> Current(w, k, s.next[k], s.now))
  }

  /** A next visit is a slot and, until the clock passes it, the one that would be computed again now. */
  ghost predicate Current(w: World, k: string, next: int, now: int)
    requires w.Unbounded()
  {
    && next > ZERO_TIME && w.IsSlot(k, next)
    && (now <= next ==> w.First(k, now) == next)
  }

  ghost predicate Inv(w: World, s: State)
    requires w.Unbounded()
  {
    SetInv(w, s) && LogInv(w, s)
  }

  /** A slot computed now is a slot, and not before any slot computed earlier. */
  lemma FirstFollows(w: World, key: string, at: int, now: int)
    requires w.Unbounded() && at <= now
    ensures w.IsSlot(key, w.First(key, now))
    ensures w.First(key, at) <= w.First(key, now)
  {
    FirstMonotoneAndStable(w.slots(key), at, now);
    FirstMonotoneAndStable(w.slots(key), now, w.First(key, now));
  }

  /** Giving the item of `k` the slot computed now keeps the log invariant. */
  lemma ScheduleKeeps(w: World, s: State, s': State, k: string)
    requires w.Unbounded() && SetInv(w, s) && LogInv(w, s)
    requires s'.next == s.next[k := w.First(k, s.now)]
    requires s'.now == s.now && AllVisits(s') == AllVisits(s)
    ensures LogInv(w, s')
  {
    FirstFollows(w, k, s.now, s.now);
    var visits := AllVisits(s);
    forall i | 0 <= i < |visits| && visits[i].key == k ensures visits[i].next <= s'.next[k] {
      assert GoodVisit(w, s.now, visits[i]);
      FirstFollows(w, k, visits[i].at, s.now);
    }
    forall j | Pending(s', j) ensures Current(w, j, s'.next[j], s.now) {
      assert j == k || Pending(s, j);
    }
  }

  lemma LogExtends(w: World, s: State, s': State, v: Visit)
    requires w.Unbounded() && LogInv(w, s)
    requires s'.next == s.next && s'.now == s.now && AllVisits(s') == AllVisits(s) + [v]
    requires GoodVisit(w, s.now, v) && Pending(s, v.key) && v.next == s.next[v.key]
    requires forall i :: 0 <= i < |AllVisits(s)| && AllVisits(s)[i].key == v.key ==> AllVisits(s)[i].next <= v.due
    ensures LogInv(w, s')
  {
    assert forall k :: Pending(s', k) <==> Pending(s, k);
  }

  lemma UpdateKeeps(w: World, s: State)
    requires w.Unbounded() && SetInv(w, s) && LogInv(w, s)
    requires s.orch.Due? && s.orch.key in s.next
    ensures LogInv(w, Step(w, s, Update))
  {
    var v, s' := NewVisit(w, s), Step(w, s, Update);
    var scheduled := s'.(orch := s.orch);
    assert Pending(s, v.key);
    ScheduleKeeps(w, s, scheduled, v.key);
    LogExtends(w, scheduled, s', v);
  }

  /** The visits of the new state are among those of the old one, and every item has the same next visit. */
  lemma FewerKeeps(w: World, s: State, s': State)
    requires w.Unbounded() && LogInv(w, s)
    requires s.now <= s'.now
    requires AllVisits(s') <= AllVisits(s)
    requires forall k :: Pending(s', k) ==> Pending(s, k) && s'.next[k] == s.next[k]
    ensures LogInv(w, s')
  {
    var visits := AllVisits(s');
    forall i | 0 <= i < |visits| ensures GoodVisit(w, s'.now, visits[i]) {
      assert visits[i] == AllVisits(s)[i];
    }
    forall k | Pending(s', k) ensures Current(w, k, s'.next[k], s'.now) {
      assert Pending(s, k);
      FirstMonotoneAndStable(w.slots(k), s.now, s'.now);
    }
  }

  lemma InvStep(w: World, s: State, a: Action)
    requires w.Unbounded() && Inv(w, s) && Enabled(s, a)
    ensures Inv(w, Step(w, s, a))
  {
    SetInvStep(w, s, a);
    var s' := Step(w, s, a);
    if a.SyncRow? && s' != s {
      ScheduleKeeps(w, s, s', a.key);
    } else if a.Touch? && s.cons.added {
      ScheduleKeeps(w, s, s', s.cons.key);
    } else if a.Update? {
      UpdateKeeps(w, s);
    } else {
      if a.Send? {
        assert AllVisits(s') == AllVisits(s);
      }
      FewerKeeps(w, s, s');
    }
  }

  lemma {:induction false} InvRun(w: World, s: State, run: seq<Action>)
    requires w.Unbounded() && Inv(w, s) && Legal(w, s, run)
    ensures Inv(w, Run(w, s, run))
    decreases |run|
  {
    if run != [] {
      InvStep(w, s, run[0]);
      InvRun(w, Step(w, s, run[0]), run[1..]);
    }
  }

  lemma InitInv(w: World, now: int)
    requires w.Unbounded() && ZERO_TIME < now
    ensures Inv(w, Init(now))
  {
  }

  // ----- Unique rounds -----

  /** A due slot that has passed makes the round at least 3 and moves the item to a later slot. */
  lemma VisitAdvances(w: World, now: int, v: Visit)
    requires w.Unbounded() && GoodVisit(w, now, v)
    ensures v.round >= 3
    ensures v.due < v.at <= v.next
    ensures w.Index(v.key, v.due) < w.Index(v.key, v.at) == w.Index(v.key, v.next)
  {
    FirstMonotoneAndStable(w.slots(v.key), v.due, v.at);
    FirstMonotoneAndStable(w.slots(v.key), v.at, v.next);
  }

  /** Two tasks of one key: the later one has the higher round and the later next visit. */
  lemma VisitsOrdered(w: World, s: State, i: nat, j: nat)
    requires w.Unbounded() && Inv(w, s)
    requires i < j < |s.log| && s.log[i].key == s.log[j].key
    ensures s.log[i].round < s.log[j].round && s.log[i].next <= s.log[j].due < s.log[j].next
    ensures w.Index(s.log[i].key, s.log[i].due) < w.Index(s.log[i].key, s.log[j].due)
  {
    var u, v := s.log[i], s.log[j];
    assert AllVisits(s)[i] == u && AllVisits(s)[j] == v;
    VisitAdvances(w, s.now, u);
    VisitAdvances(w, s.now, v);
    FirstMonotoneAndStable(w.slots(u.key), u.next, v.due);
  }

  ghost predicate RoundsIncrease(log: seq<Visit>) {
    forall i, j :: 0 <= i < j < |log| && log[i].key == log[j].key
      ==> log[i].round < log[j].round && log[i].next <= log[j].due < log[j].next
  }

  /**
   In every run from the start of the process, whatever interleaving, clock and crashes: the tasks of a key
   carry strictly increasing rounds, each at least 3, and strictly increasing next visits; each was handed out
   strictly after the slot that was due, and is due no earlier than the next visit set by the one before.
   */
  lemma UniqueRounds(w: World, start: int, run: seq<Action>)
    requires w.Unbounded() && ZERO_TIME < start && Legal(w, Init(start), run)
    ensures var log := Run(w, Init(start), run).log;
            && (forall i :: 0 <= i < |log| ==> log[i].round >= 3 && log[i].due < log[i].at <= log[i].next)
            && RoundsIncrease(log)
  {
    InitInv(w, start);
    InvRun(w, Init(start), run);
    var s := Run(w, Init(start), run);
    forall i | 0 <= i < |s.log|
      ensures s.log[i].round >= 3 && s.log[i].due < s.log[i].at <= s.log[i].next
    {
      assert AllVisits(s)[i] == s.log[i];
      VisitAdvances(w, s.now, s.log[i]);
    }
    forall i, j | 0 <= i < j < |s.log| && s.log[i].key == s.log[j].key
      ensures s.log[i].round < s.log[j].round && s.log[i].next <= s.log[j].due < s.log[j].next
    {
      VisitsOrdered(w, s, i, j);
    }
  }

  /** The start-up goes on, and looks at no row of `k`. */
  predicate SyncsOthers(a: Action, k: string) {
    a.Tick? || (a.SyncRow? && a.key != k)
  }

  lemma {:induction false} OtherRows(w: World, s: State, run: seq<Action>, k: string)
    requires w.Unbounded() && Legal(w, s, run) && s.orch.Syncing? && k !in s.next
    requires forall i :: 0 <= i < |run| ==> SyncsOthers(run[i], k)
    ensures var end := Run(w, s, run); end.orch.Syncing? && k !in end.next && s.now <= end.now
    decreases |run|
  {
    if run != [] {
      OtherRows(w, Step(w, s, run[0]), run[1..], k);
    }
  }

  /**
   A crash is transparent for an item whose next visit has not come up when its row is looked at, wherever
   that row stands among the others: it comes back with that same next visit.
   */
  lemma RestartTransparent(w: World, s: State, rows: seq<Action>, k: string)
    requires w.Unbounded() && Inv(w, s) && Pending(s, k)
    requires Legal(w, Step(w, s, Crash), rows) && forall i :: 0 <= i < |rows| ==> SyncsOthers(rows[i], k)
    requires Run(w, Step(w, s, Crash), rows).now <= s.next[k] < w.Until(k)
    ensures var syncing := Run(w, Step(w, s, Crash), rows);
            && syncing.orch.Syncing?
            && var synced := Step(w, syncing, SyncRow(k));
               synced.order == syncing.order + [k] && synced.next == syncing.next[k := s.next[k]]
  {
    var end := Run(w, Step(w, s, Crash), rows);
    OtherRows(w, Step(w, s, Crash), rows, k);
    assert Current(w, k, s.next[k], s.now);
    FirstMonotoneAndStable(w.slots(k), s.now, end.now);
  }

  /**
   An item leaves the set only by a crash, or in the step just before the task computed for it is handed
   out; that task was for a ready item and its next visit is past the end of sampling.
   */
  lemma LeavesOnlyWithTask(w: World, s: State, a: Action, k: string)
    requires w.Unbounded() && Inv(w, s) && Enabled(s, a)
    requires k in s.next && k !in Step(w, s, a).next
    ensures a.Crash? || (a.Remove? && Step(w, s, a).orch.Sending?
                         && var v := Step(w, s, a).orch.visit;
                            v.key == k && v.due < v.at && v.next >= w.Until(k))
  {
    if a.Remove? {
      var v := s.orch.visit;
      var n := |s.log|;
      assert AllVisits(s)[n] == v;
    }
  }
}
