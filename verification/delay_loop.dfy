/**
 computeNextVisitTime as the program runs it: delays are 64-bit durations that wrap around, and the clock
 is read again on every turn of the loop.
 */
module DelayLoop {
  import opened VisitSchedule
  import Slots

  const MIN_INT64: int := -0x8000_0000_0000_0000
  const MAX_INT64: int := 0x7fff_ffff_ffff_ffff

  predicate Int64(x: int) {
    MIN_INT64 <= x <= MAX_INT64
  }

  /** Two's complement wrap-around of a 64-bit signed integer. */
  function Wrap64(x: int): (r: int)
    ensures Int64(r)
    ensures Int64(x) ==> r == x
  {
    (x - MIN_INT64) % 0x1_0000_0000_0000_0000 + MIN_INT64
  }

  /** The delay after `k` turns, in 64 bits. */
  function WrappedDelay(cfg: DelayConfig, k: nat): int {
    Wrap64(if k == 0 then cfg.base else cfg.Apply(WrappedDelay(cfg, k - 1)))
  }

  function WrappedSlot(cfg: DelayConfig, timestamp: int, k: nat): int {
    timestamp + WrappedDelay(cfg, k)
  }

  /** The wall clock: each reading is at or after the one before. It does not pass `horizon`. */
  class Clock {
    var now: int
    const horizon: int

    predicate Valid()
      reads this
    {
      now <= horizon
    }

    constructor (start: int, horizon: int)
      requires start <= horizon
      ensures Valid() && now == start && this.horizon == horizon
    {
      this.now := start;
      this.horizon := horizon;
    }

    method Read() returns (t: int)
      requires Valid()
      modifies this
      ensures Valid() && t == now && old(now) <= now
    {
      t :| now <= t <= horizon;
      now := t;
    }
  }

  /** Some slot is late enough to end the loop however the clock behaves up to its horizon. */
  ghost predicate Reaches(cfg: DelayConfig, timestamp: int, horizon: int) {
    exists k: nat :: WrappedSlot(cfg, timestamp, k) >= horizon
  }

  function WrappedSlots(cfg: DelayConfig, timestamp: int): nat -> int {
    (k: nat) => WrappedSlot(cfg, timestamp, k)
  }

  lemma ReachesSlots(cfg: DelayConfig, timestamp: int, now: int, horizon: int)
    requires Reaches(cfg, timestamp, horizon) && now <= horizon
    ensures Slots.Reaches(WrappedSlots(cfg, timestamp), now)
  {
    var k: nat :| WrappedSlot(cfg, timestamp, k) >= horizon;
    assert WrappedSlots(cfg, timestamp)(k) >= now;
  }

  /** The index of the first 64-bit slot that is not before `now`, if there is one. */
  ghost function NextIndex(cfg: DelayConfig, timestamp: int, now: int): nat {
    var slots := WrappedSlots(cfg, timestamp);
    if Slots.Reaches(slots, now) then Slots.FirstIndex(slots, now) else 0
  }

  ghost function NextSlot(cfg: DelayConfig, timestamp: int, now: int): int {
    WrappedSlot(cfg, timestamp, NextIndex(cfg, timestamp, now))
  }

  lemma NextIsFirst(cfg: DelayConfig, timestamp: int, now: int, k: nat)
    requires WrappedSlot(cfg, timestamp, k) >= now
    requires forall j: nat | j < k :: WrappedSlot(cfg, timestamp, j) < now
    ensures k == NextIndex(cfg, timestamp, now)
  {
    Slots.FirstIsUnique(WrappedSlots(cfg, timestamp), now, k);
  }

  /**
   Whatever the clock does between two turns, the result is the first slot that is not before the last
   reading: the loop behaves as if it had run in an instant at the time of that reading. The stored next
   visit has no influence, because the first test of the loop can never hold.
   */
  method ComputeNextVisitTime(itemT: int, itemNextV: int, cfg: DelayConfig, clock: Clock)
    returns (visitRound: int, nextVisitTime: int)
    requires Int64(cfg.base)
    requires clock.Valid()
    requires Reaches(cfg, itemT, clock.horizon)
    modifies clock
    ensures clock.Valid() && old(clock.now) <= clock.now
    ensures visitRound == NextIndex(cfg, itemT, clock.now) + 2
    ensures nextVisitTime == WrappedSlot(cfg, itemT, visitRound - 2) >= clock.now
    ensures forall j: nat | j < visitRound - 2 :: WrappedSlot(cfg, itemT, j) < clock.now
  {
    ghost var enough: nat :| WrappedSlot(cfg, itemT, enough) >= clock.horizon;
    var multCnt := 1;
    var delay := cfg.base;
    var nextVisit := itemT + delay;
    multCnt := multCnt + 1;
    var t := clock.Read();
    while (nextVisit < itemNextV && nextVisit == itemNextV) || nextVisit < t
      invariant clock.Valid() && old(clock.now) <= clock.now == t
      invariant 2 <= multCnt <= enough + 2
      invariant delay == WrappedDelay(cfg, multCnt - 2) && nextVisit == itemT + delay
      invariant forall j: nat | j < multCnt - 2 :: WrappedSlot(cfg, itemT, j) < t
      decreases enough + 2 - multCnt
    {
      delay := Wrap64(cfg.Apply(delay));
      nextVisit := itemT + delay;
      multCnt := multCnt + 1;
      t := clock.Read();
    }
    NextIsFirst(cfg, itemT, clock.now, multCnt - 2);
    return multCnt, nextVisit;
  }

  // ----- When 64 bits are enough -----

  /** The settings make progress and the delays needed up to `now` fit a 64-bit duration. */
  predicate Fits(cfg: DelayConfig, timestamp: int, now: int) {
    cfg.Progresses() && MaxDelay(cfg, timestamp, now) <= MAX_INT64
  }

  /** No turn of the loop overflows, so the 64-bit slots are the ideal ones. */
  lemma {:induction false} NoOverflow(cfg: DelayConfig, timestamp: int, now: int, k: nat)
    requires Fits(cfg, timestamp, now)
    requires k <= FirstIndex(cfg, timestamp, now)
    ensures WrappedDelay(cfg, k) == Delay(cfg, k)
    ensures 0 < Delay(cfg, k) <= MAX_INT64
  {
    DelayPositive(cfg, k);
    DelayBound(cfg, timestamp, now, k);
    if k > 0 {
      NoOverflow(cfg, timestamp, now, k - 1);
    }
  }

  lemma FitsReaches(cfg: DelayConfig, timestamp: int, horizon: int)
    requires Fits(cfg, timestamp, horizon)
    ensures Int64(cfg.base)
    ensures Reaches(cfg, timestamp, horizon)
  {
    var k := FirstIndex(cfg, timestamp, horizon);
    NoOverflow(cfg, timestamp, horizon, k);
    NoOverflow(cfg, timestamp, horizon, 0);
    assert WrappedSlot(cfg, timestamp, k) >= horizon;
  }

  /** The index found among the 64-bit slots is the ideal one. */
  lemma WrappedFirstIsFirst(cfg: DelayConfig, timestamp: int, now: int, horizon: int)
    requires now <= horizon && Fits(cfg, timestamp, horizon)
    ensures NextIndex(cfg, timestamp, now) == FirstIndex(cfg, timestamp, now)
    ensures NextSlot(cfg, timestamp, now) == FirstSlot(cfg, timestamp, now)
  {
    var i := FirstIndex(cfg, timestamp, now);
    FirstSlotMonotoneAndStable(cfg, timestamp, now, horizon);
    forall j: nat | j <= i ensures WrappedSlot(cfg, timestamp, j) == Slot(cfg, timestamp, j) {
      NoOverflow(cfg, timestamp, horizon, j);
    }
    NextIsFirst(cfg, timestamp, now, i);
  }

  /** An item further in the past than a 64-bit duration can span keeps the loop turning forever. */
  lemma TooOldNeverReaches(cfg: DelayConfig, timestamp: int, now: int, k: nat)
    requires now - timestamp > MAX_INT64
    ensures WrappedSlot(cfg, timestamp, k) < now
  {
    assert Int64(WrappedDelay(cfg, k));
  }
}
