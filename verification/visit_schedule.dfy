/**
 The slots at which an item wants to be visited, and the first of them that is not in the past.

 An item seen at `timestamp` has the slots `timestamp + Delay(0)`, `timestamp + Delay(1)`, ...; the delay
 starts at the configured base and every further slot applies the network's delay function once.
 Times and durations are integers in nanoseconds, here without any bound on their size
 (DelayLoop relates them to the 64-bit durations of the program).
 */
module VisitSchedule {

  datatype Mode = Constant | Exponential

  datatype DelayConfig = DelayConfig(mode: Mode, base: int, multiplier: int) {
    /** Under these settings the slots of an item grow without bound. */
    predicate Progresses() {
      && base > 0
      && (mode.Exponential? ==> multiplier >= 2)
    }

    /** addConstantDelay and addExponentialDelay. */
    function Apply(delay: int): int {
      match mode
      case Constant => delay + base
      case Exponential => delay * multiplier
    }
  }

  function Pow(b: int, n: nat): int {
    if n == 0 then 1 else b * Pow(b, n - 1)
  }

  /** The delay after `k` turns of the loop. */
  function Delay(cfg: DelayConfig, k: nat): int {
    if k == 0 then cfg.base else cfg.Apply(Delay(cfg, k - 1))
  }

  function Slot(cfg: DelayConfig, timestamp: int, k: nat): int {
    timestamp + Delay(cfg, k)
  }

  /** `k` is the first slot that is not before `now`. */
  ghost predicate IsFirst(cfg: DelayConfig, timestamp: int, now: int, k: nat) {
    && Slot(cfg, timestamp, k) >= now
    && forall j: nat | j < k :: Slot(cfg, timestamp, j) < now
  }

  // ----- Closed form and growth -----

  lemma {:induction false} DelayClosedForm(cfg: DelayConfig, k: nat)
    ensures cfg.mode.Constant? ==> Delay(cfg, k) == (k + 1) * cfg.base
    ensures cfg.mode.Exponential? ==> Delay(cfg, k) == cfg.base * Pow(cfg.multiplier, k)
  {
    if k > 0 {
      DelayClosedForm(cfg, k - 1);
      var p := Pow(cfg.multiplier, k - 1);
      assert cfg.base * p * cfg.multiplier == cfg.base * (cfg.multiplier * p);
    }
  }

  lemma {:induction false} DelayPositive(cfg: DelayConfig, k: nat)
    requires cfg.Progresses()
    ensures Delay(cfg, k) >= cfg.base
    ensures Delay(cfg, k + 1) > Delay(cfg, k)
  {
    if k > 0 {
      DelayPositive(cfg, k - 1);
    }
    if cfg.mode.Exponential? {
      var d := Delay(cfg, k);
      assert d * cfg.multiplier == d * (cfg.multiplier - 1) + d >= d + d;
    }
  }

  lemma {:induction false} SlotsIncrease(cfg: DelayConfig, timestamp: int, j: nat, k: nat)
    requires cfg.Progresses()
    requires j < k
    ensures Slot(cfg, timestamp, j) < Slot(cfg, timestamp, k)
    decreases k
  {
    DelayPositive(cfg, k - 1);
    if j < k - 1 {
      SlotsIncrease(cfg, timestamp, j, k - 1);
    }
  }

  /** Slots are ordered exactly as their indices. */
  lemma SlotOrder(cfg: DelayConfig, timestamp: int, j: nat, k: nat)
    requires cfg.Progresses()
    ensures Slot(cfg, timestamp, j) < Slot(cfg, timestamp, k) <==> j < k
  {
    if j < k {
      SlotsIncrease(cfg, timestamp, j, k);
    } else if k < j {
      SlotsIncrease(cfg, timestamp, k, j);
    }
  }

  // ----- The first slot not before now -----

  function FirstIndexFrom(cfg: DelayConfig, timestamp: int, now: int, k: nat): (r: nat)
    requires cfg.Progresses()
    ensures r >= k && Slot(cfg, timestamp, r) >= now
    ensures forall j: nat | k <= j < r :: Slot(cfg, timestamp, j) < now
    decreases now - Slot(cfg, timestamp, k)
  {
    if Slot(cfg, timestamp, k) >= now then k
    else
      DelayPositive(cfg, k);
      FirstIndexFrom(cfg, timestamp, now, k + 1)
  }

  function FirstIndex(cfg: DelayConfig, timestamp: int, now: int): (r: nat)
    requires cfg.Progresses()
    ensures IsFirst(cfg, timestamp, now, r)
  {
    FirstIndexFrom(cfg, timestamp, now, 0)
  }

  function FirstSlot(cfg: DelayConfig, timestamp: int, now: int): (t: int)
    requires cfg.Progresses()
    ensures t >= now
  {
    Slot(cfg, timestamp, FirstIndex(cfg, timestamp, now))
  }

  lemma FirstIsUnique(cfg: DelayConfig, timestamp: int, now: int, k: nat)
    requires cfg.Progresses()
    requires IsFirst(cfg, timestamp, now, k)
    ensures k == FirstIndex(cfg, timestamp, now)
  {
    var r := FirstIndex(cfg, timestamp, now);
    assert !(k < r) && !(r < k);
  }

  /**
   Restart transparency: moving the clock forward never brings an earlier slot, and as long as the clock
   has not passed the pending slot, computing it again gives the same slot.
   */
  lemma FirstSlotMonotoneAndStable(cfg: DelayConfig, timestamp: int, now: int, later: int)
    requires cfg.Progresses()
    requires now <= later
    ensures FirstIndex(cfg, timestamp, now) <= FirstIndex(cfg, timestamp, later)
    ensures FirstSlot(cfg, timestamp, now) <= FirstSlot(cfg, timestamp, later)
    ensures FirstSlot(cfg, timestamp, later) == FirstSlot(cfg, timestamp, now)
            <==> later <= FirstSlot(cfg, timestamp, now)
  {
    var i, j := FirstIndex(cfg, timestamp, now), FirstIndex(cfg, timestamp, later);
    assert !(j < i);
    SlotOrder(cfg, timestamp, i, j);
    SlotOrder(cfg, timestamp, j, i);
    if later <= Slot(cfg, timestamp, i) {
      FirstIsUnique(cfg, timestamp, later, i);
    }
  }

  /** What one computation returns, with the round counter written as the program counts it. */
  lemma FirstSlotClosedForm(cfg: DelayConfig, timestamp: int, now: int, round: nat)
    requires cfg.Progresses()
    requires round == FirstIndex(cfg, timestamp, now) + 2
    ensures cfg.mode.Constant? ==> FirstSlot(cfg, timestamp, now) == timestamp + (round - 1) * cfg.base
    ensures cfg.mode.Exponential?
            ==> FirstSlot(cfg, timestamp, now) == timestamp + cfg.base * Pow(cfg.multiplier, round - 2)
  {
    DelayClosedForm(cfg, round - 2);
  }

  // ----- How far the loop goes -----

  /** The delays the loop computes are bounded by the age of the item. */
  lemma DelayBound(cfg: DelayConfig, timestamp: int, now: int, k: nat)
    requires cfg.Progresses()
    requires k <= FirstIndex(cfg, timestamp, now)
    ensures Delay(cfg, k) <= MaxDelay(cfg, timestamp, now)
  {
    if k > 0 {
      var d := Delay(cfg, k - 1);
      DelayPositive(cfg, k - 1);
      assert Slot(cfg, timestamp, k - 1) < now;
      if cfg.mode.Exponential? {
        assert d * cfg.multiplier <= (now - timestamp) * cfg.multiplier;
      }
    }
  }

  function MaxDelay(cfg: DelayConfig, timestamp: int, now: int): int {
    var grown := match cfg.mode
      case Constant => now - timestamp + cfg.base
      case Exponential => (now - timestamp) * cfg.multiplier;
    if grown < cfg.base then cfg.base else grown
  }

  /** Exponential mode turns the loop at most logarithmically often, to base `multiplier`, in the age of the item. */
  lemma FewTurns(cfg: DelayConfig, timestamp: int, now: int)
    requires cfg.Progresses() && cfg.mode.Exponential?
    ensures var k := FirstIndex(cfg, timestamp, now);
            k > 0 ==> cfg.base * Pow(2, k - 1) <= cfg.base * Pow(cfg.multiplier, k - 1) < now - timestamp
  {
    var k := FirstIndex(cfg, timestamp, now);
    if k > 0 {
      DelayClosedForm(cfg, k - 1);
      PowMonotone(cfg.multiplier, k - 1);
      assert Slot(cfg, timestamp, k - 1) < now;
      assert cfg.base * Pow(2, k - 1) <= cfg.base * Pow(cfg.multiplier, k - 1);
    }
  }

  lemma {:induction false} PowMonotone(b: int, n: nat)
    requires b >= 2
    ensures n + 1 <= Pow(2, n) <= Pow(b, n)
  {
    if n > 0 {
      PowMonotone(b, n - 1);
      var p := Pow(b, n - 1);
      assert b * p == 2 * p + (b - 2) * p;
    }
  }
}
