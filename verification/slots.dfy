/** Sequences of times, and the first of them that is not before a given time; they need not be in order. */
module Slots {

  ghost predicate Reaches(slots: nat -> int, t: int) {
    exists k: nat :: slots(k) >= t
  }

  ghost predicate Unbounded(slots: nat -> int) {
    forall t: int :: Reaches(slots, t)
  }

  /** `k` is the first slot that is not before `now`. */
  ghost predicate IsFirst(slots: nat -> int, now: int, k: nat) {
    && slots(k) >= now
    && forall j: nat | j < k :: slots(j) < now
  }

  ghost function FirstIndexFrom(slots: nat -> int, now: int, k: nat, enough: nat): (r: nat)
    requires k <= enough && slots(enough) >= now
    requires forall j: nat | j < k :: slots(j) < now
    ensures IsFirst(slots, now, r)
    decreases enough - k
  {
    if slots(k) >= now then k else FirstIndexFrom(slots, now, k + 1, enough)
  }

  ghost function FirstIndex(slots: nat -> int, now: int): (r: nat)
    requires Reaches(slots, now)
    ensures IsFirst(slots, now, r)
  {
    var enough: nat :| slots(enough) >= now;
    FirstIndexFrom(slots, now, 0, enough)
  }

  ghost function First(slots: nat -> int, now: int): (t: int)
    requires Reaches(slots, now)
    ensures t >= now
  {
    slots(FirstIndex(slots, now))
  }

  lemma FirstIsUnique(slots: nat -> int, now: int, k: nat)
    requires IsFirst(slots, now, k)
    ensures Reaches(slots, now) && k == FirstIndex(slots, now)
  {
    var r := FirstIndex(slots, now);
    assert !(k < r) && !(r < k);
  }

  /**
   Moving the clock forward never brings an earlier slot or index, and exactly as long as the clock has not
   passed the pending slot, computing it again gives the same one.
   */
  lemma FirstMonotoneAndStable(slots: nat -> int, now: int, later: int)
    requires Unbounded(slots) && now <= later
    ensures FirstIndex(slots, now) <= FirstIndex(slots, later)
    ensures First(slots, now) <= First(slots, later)
    ensures later <= First(slots, now) ==> FirstIndex(slots, later) == FirstIndex(slots, now)
    ensures later > First(slots, now)
            ==> FirstIndex(slots, later) > FirstIndex(slots, now) && First(slots, later) > First(slots, now)
  {
    var i, j := FirstIndex(slots, now), FirstIndex(slots, later);
    assert !(j < i);
    if later <= slots(i) {
      FirstIsUnique(slots, later, i);
    }
  }

  /** An index is below that of a time exactly if no slot up to it has reached the time. */
  lemma IndexBelow(slots: nat -> int, t: int, k: nat)
    requires Reaches(slots, t)
    ensures k < FirstIndex(slots, t) <==> forall j: nat | j <= k :: slots(j) < t
  {
  }
}
