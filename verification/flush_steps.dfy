/**
 A flush taken apart. The program takes the pending rows, writes them, and empties the buffer afterwards, with
 no lock over the three; rows may be added while the write is under way, and other flushes of the same table
 may start. Rows are known here by their number in the order of addition.
 */
module FlushSteps {
  import opened Batches

  /** The rows `lo`, ..., `hi - 1`, taken for one write. */
  datatype Span = Span(lo: nat, hi: nat) {
    predicate Covers(r: nat) {
      lo <= r < hi
    }
  }

  datatype Write = Write(span: Span, written: bool)

  /**
   The rows from `base` on are in the buffer; `mark` is the number of rows there were when the last flush
   started; `open` are the writes under way and `sent` those that have ended.
   */
  datatype Table = Table(total: nat, base: nat, mark: nat, open: seq<Span>, sent: seq<Write>)

  datatype Action = Add | Begin | Finish(i: nat, ok: bool)

  const EMPTY: Table := Table(0, 0, 0, [], [])

  predicate Enabled(t: Table, a: Action) {
    a.Finish? ==> a.i < |t.open|
  }

  /** getPersistable, and the end of the write with the deferred reset; without rows nothing is written. */
  function Step(t: Table, a: Action): Table
    requires Enabled(t, a)
  {
    match a
    case Add => t.(total := t.total + 1)
    case Begin => t.(open := t.open + [Span(t.base, t.total)], mark := t.total)
    case Finish(i, ok) =>
      var span := t.open[i];
      t.(base := t.total, open := t.open[..i] + t.open[i + 1..],
         sent := if span.lo < span.hi then t.sent + [Write(span, ok)] else t.sent)
  }

  ghost predicate Legal(t: Table, run: seq<Action>)
    decreases |run|
  {
    run == [] || (Enabled(t, run[0]) && Legal(Step(t, run[0]), run[1..]))
  }

  ghost function Run(t: Table, run: seq<Action>): Table
    requires Legal(t, run)
    decreases |run|
  {
    if run == [] then t else Run(Step(t, run[0]), run[1..])
  }

  // ----- The fate of a row -----

  ghost predicate InWrite(t: Table, r: nat) {
    || (exists s :: s in t.open && s.Covers(r))
    || (exists w :: w in t.sent && w.span.Covers(r))
  }

  /** The row has left the buffer, and no write ever took it. */
  ghost predicate Dropped(t: Table, r: nat) {
    r < t.base && !InWrite(t, r)
  }

  /** The rows added since the last start of a flush and since the last reset: no flush has seen them. */
  predicate Unseen(t: Table, r: nat) {
    t.base <= r < t.total && t.mark <= r
  }

  ghost predicate Inv(t: Table) {
    && t.base <= t.total && t.mark <= t.total
    && (t.open == [] ==> t.mark <= t.base)
    && (forall s :: s in t.open ==> s.hi <= t.mark)
    && (forall w :: w in t.sent ==> w.span.hi <= t.mark)
    && (forall r: nat :: t.base <= r < t.mark ==> InWrite(t, r))
  }

  lemma AddFate(t: Table, r: nat)
    requires Inv(t)
    ensures Inv(Step(t, Add))
    ensures InWrite(Step(t, Add), r) <==> InWrite(t, r)
  {
    assert forall q: nat :: InWrite(Step(t, Add), q) <==> InWrite(t, q);
  }

  lemma BeginFate(t: Table, r: nat)
    requires Inv(t)
    ensures Inv(Step(t, Begin))
    ensures InWrite(Step(t, Begin), r) <==> InWrite(t, r) || t.base <= r < t.total
  {
    var t', span := Step(t, Begin), Span(t.base, t.total);
    assert span in t'.open;
    forall q: nat ensures InWrite(t', q) <==> InWrite(t, q) || span.Covers(q) {
      assert forall s :: s in t'.open <==> s in t.open || s == span;
    }
  }

  lemma OneLess<T>(s: seq<T>, i: nat)
    requires i < |s|
    ensures forall x :: x in s <==> x in s[..i] + s[i + 1..] || x == s[i]
  {
    assert s == s[..i] + [s[i]] + s[i + 1..];
  }

  lemma FinishFate(t: Table, a: Action, r: nat)
    requires Inv(t) && a.Finish? && Enabled(t, a)
    ensures Inv(Step(t, a))
    ensures InWrite(Step(t, a), r) <==> InWrite(t, r)
  {
    var t', span, write := Step(t, a), t.open[a.i], Write(t.open[a.i], a.ok);
    OneLess(t.open, a.i);
    assert forall w :: w in t'.sent <==> w in t.sent || (w == write && span.lo < span.hi);
    assert write.span == span;
  }

  /**
   Only the end of a flush drops rows, and exactly those that no flush has seen: added after the last flush of
   the table started and not yet reset, whether or not any write fails.
   */
  lemma DropsExactly(t: Table, a: Action, r: nat)
    requires Inv(t) && Enabled(t, a)
    ensures Inv(Step(t, a))
    ensures Dropped(Step(t, a), r) <==> Dropped(t, r) || (a.Finish? && Unseen(t, r))
  {
    match a
    case Add => AddFate(t, r);
    case Begin => BeginFate(t, r);
    case Finish(_, _) => FinishFate(t, a, r);
  }

  /** Some end of a flush in the run comes upon the row unseen. */
  ghost predicate Overtaken(t: Table, run: seq<Action>, r: nat)
    requires Legal(t, run)
    decreases |run|
  {
    run != [] && ((run[0].Finish? && Unseen(t, r)) || Overtaken(Step(t, run[0]), run[1..], r))
  }

  lemma {:induction false} DropsInRun(t: Table, run: seq<Action>, r: nat)
    requires Inv(t) && Legal(t, run)
    ensures Inv(Run(t, run))
    ensures Dropped(Run(t, run), r) <==> Dropped(t, r) || Overtaken(t, run, r)
    decreases |run|
  {
    if run != [] {
      DropsExactly(t, run[0], r);
      DropsInRun(Step(t, run[0]), run[1..], r);
    }
  }

  /**
   Over every interleaving each row added is in the buffer, or in some write, or was dropped; and it was
   dropped if and only if a flush ended that had started, like all others until then, before the row came.
   */
  lemma RowFates(run: seq<Action>, r: nat)
    requires Legal(EMPTY, run) && r < Run(EMPTY, run).total
    ensures var t := Run(EMPTY, run);
            && (t.base <= r || InWrite(t, r) || Dropped(t, r))
            && (Dropped(t, r) <==> Overtaken(EMPTY, run, r))
  {
    DropsInRun(EMPTY, run, r);
  }

  // ----- What a caller can tell -----

  ghost predicate CanBeDropped(t: Table, r: nat) {
    exists run :: Legal(t, run) && Dropped(Run(t, run), r)
  }

  /** Without a write under way a flush that comes later takes the row, and one under way has done so already. */
  lemma {:induction false} TakenInTime(t: Table, run: seq<Action>, r: nat)
    requires Inv(t) && Legal(t, run) && r < t.total
    requires !Dropped(t, r) && (t.open == [] || !Unseen(t, r))
    ensures !Dropped(Run(t, run), r)
    decreases |run|
  {
    if run != [] {
      DropsExactly(t, run[0], r);
      TakenInTime(Step(t, run[0]), run[1..], r);
    }
  }

  /**
   A row may be dropped later on if and only if no flush has seen it and some write is under way now; the end
   of any such write drops it, also a successful one.
   */
  lemma AtRiskExactly(t: Table, r: nat)
    requires Inv(t) && r < t.total && !Dropped(t, r)
    ensures CanBeDropped(t, r) <==> Unseen(t, r) && t.open != []
  {
    if Unseen(t, r) && t.open != [] {
      var a := Finish(0, true);
      DropsExactly(t, a, r);
      assert [a][1..] == [];
      assert Legal(Step(t, a), []);
      assert Legal(t, [a]) && Run(t, [a]) == Step(t, a);
      assert Dropped(Run(t, [a]), r);
    }
    forall run | Legal(t, run) && !(Unseen(t, r) && t.open != []) ensures !Dropped(Run(t, run), r) {
      TakenInTime(t, run, r);
    }
  }

  /** So a new row is safe for good exactly if no write of the table is under way when it is added. */
  lemma AddedSafely(t: Table)
    requires Inv(t)
    ensures CanBeDropped(Step(t, Add), t.total) <==> t.open != []
  {
    AddFate(t, t.total);
    AtRiskExactly(Step(t, Add), t.total);
  }

  // ----- Rows that are sent twice -----

  function Covering(spans: seq<Span>, r: nat): nat {
    if spans == [] then 0
    else Covering(spans[..|spans| - 1], r) + if spans[|spans| - 1].Covers(r) then 1 else 0
  }

  function Spans(sent: seq<Write>): seq<Span> {
    seq(|sent|, i requires 0 <= i < |sent| => sent[i].span)
  }

  /** The number of writes, ended or under way, that contain the row. */
  function Copies(t: Table, r: nat): nat {
    Covering(t.open, r) + Covering(Spans(t.sent), r)
  }

  lemma CoveringNext(spans: seq<Span>, span: Span, r: nat)
    ensures Covering(spans + [span], r) == Covering(spans, r) + if span.Covers(r) then 1 else 0
  {
    assert (spans + [span])[..|spans|] == spans;
  }

  lemma {:induction false} CoveringWithout(spans: seq<Span>, i: nat, r: nat)
    requires i < |spans|
    ensures Covering(spans, r) == Covering(spans[..i] + spans[i + 1..], r) + if spans[i].Covers(r) then 1 else 0
  {
    var n := |spans| - 1;
    if i == n {
      assert spans[..n] + spans[n + 1..] == spans[..n];
    } else {
      CoveringWithout(spans[..n], i, r);
      assert spans[..i] + spans[i + 1..] == (spans[..n][..i] + spans[..n][i + 1..]) + [spans[n]];
      CoveringNext(spans[..n][..i] + spans[..n][i + 1..], spans[n], r);
    }
  }

  /** A flush takes exactly the rows in the buffer, once more if they have been taken before; nothing else does. */
  lemma CopiesStep(t: Table, a: Action, r: nat)
    requires Enabled(t, a)
    ensures Copies(Step(t, a), r) == Copies(t, r) + if a.Begin? && t.base <= r < t.total then 1 else 0
  {
    match a
    case Add =>
    case Begin => CoveringNext(t.open, Span(t.base, t.total), r);
    case Finish(i, ok) =>
      CoveringWithout(t.open, i, r);
      if t.open[i].lo < t.open[i].hi {
        CoveringNext(Spans(t.sent), t.open[i], r);
        assert Spans(Step(t, a).sent) == Spans(t.sent) + [t.open[i]];
      }
  }

  lemma {:induction false} CoveredSomewhere(spans: seq<Span>, r: nat)
    ensures Covering(spans, r) > 0 <==> exists s :: s in spans && s.Covers(r)
  {
    if spans != [] {
      var n := |spans| - 1;
      CoveredSomewhere(spans[..n], r);
      assert spans == spans[..n] + [spans[n]];
    }
  }

  /** The rows in the buffer that some flush has taken are those below the mark; they are the ones sent again. */
  lemma TakenAgain(t: Table, r: nat)
    requires Inv(t) && t.base <= r < t.total
    ensures Copies(t, r) > 0 <==> r < t.mark
    ensures Copies(Step(t, Begin), r) > 1 <==> r < t.mark
  {
    CoveredSomewhere(t.open, r);
    CoveredSomewhere(Spans(t.sent), r);
    if r < t.mark {
      assert InWrite(t, r);
      if w :| w in t.sent && w.span.Covers(r) {
        var i :| 0 <= i < |t.sent| && t.sent[i] == w;
        assert Spans(t.sent)[i] == w.span;
      }
    }
    CopiesStep(t, Begin, r);
  }

  /** Some flush of the run finds rows in the buffer that another one has taken. */
  ghost predicate Retakes(t: Table, run: seq<Action>)
    requires Legal(t, run)
    decreases |run|
  {
    run != [] && ((run[0].Begin? && t.base < t.mark) || Retakes(Step(t, run[0]), run[1..]))
  }

  ghost predicate NoneTwice(t: Table) {
    forall r: nat :: Copies(t, r) <= 1
  }

  /** A row that has been taken and left the buffer is taken no more. */
  lemma TwiceStep(t: Table, a: Action)
    requires Inv(t) && Enabled(t, a) && NoneTwice(t)
    ensures NoneTwice(Step(t, a)) <==> !(a.Begin? && t.base < t.mark)
  {
    forall r: nat ensures Copies(Step(t, a), r) <= 1 <==> !(a.Begin? && t.base <= r < t.mark) {
      CopiesStep(t, a, r);
      if t.base <= r < t.total {
        TakenAgain(t, r);
      }
    }
    if a.Begin? && t.base < t.mark {
      assert Copies(Step(t, a), t.base) > 1;
    }
  }

  lemma {:induction false} TwiceStays(t: Table, run: seq<Action>, r: nat)
    requires Legal(t, run)
    ensures Copies(t, r) <= Copies(Run(t, run), r)
    decreases |run|
  {
    if run != [] {
      CopiesStep(t, run[0], r);
      TwiceStays(Step(t, run[0]), run[1..], r);
    }
  }

  /**
   Over every interleaving: some row is written twice if and only if a flush starts while the buffer holds
   rows that an earlier one took and has not reset yet. That takes two flushes of the table at once.
   */
  lemma {:induction false} SentTwiceExactly(t: Table, run: seq<Action>)
    requires Inv(t) && NoneTwice(t) && Legal(t, run)
    ensures NoneTwice(Run(t, run)) <==> !Retakes(t, run)
    ensures OneAtATime(t, run) ==> !Retakes(t, run)
    decreases |run|
  {
    if run != [] {
      var t' := Step(t, run[0]);
      TwiceStep(t, run[0]);
      DropsExactly(t, run[0], 0);
      if NoneTwice(t') {
        SentTwiceExactly(t', run[1..]);
      } else {
        var r: nat :| Copies(t', r) > 1;
        TwiceStays(t', run[1..], r);
      }
    }
  }

  /** With one row and two flushes at once the row is stored twice. */
  lemma OneRowTwice()
    ensures var run := [Add, Begin, Begin, Finish(0, true), Finish(0, true)];
            && Legal(EMPTY, run)
            && Run(EMPTY, run).sent == [Write(Span(0, 1), true), Write(Span(0, 1), true)]
  {
    var t1 := Step(Step(Step(EMPTY, Add), Begin), Begin);
    assert t1 == Table(1, 0, 1, [Span(0, 1), Span(0, 1)], []);
    var t2 := Step(t1, Finish(0, true));
    assert t2 == Table(1, 1, 1, [Span(0, 1)], [Write(Span(0, 1), true)]);
    var t3 := Step(t2, Finish(0, true));
    var run := [Add, Begin, Begin, Finish(0, true), Finish(0, true)];
    assert run[4..][1..] == [] && run[3..][1..] == run[4..] && run[2..][1..] == run[3..];
    assert Legal(t2, run[4..]) && Legal(t1, run[3..]);
    assert Run(t2, run[4..]) == t3 && Run(t1, run[3..]) == t3;
    assert run[1..][1..] == run[2..];
    assert Legal(Step(Step(EMPTY, Add), Begin), run[2..]);
  }

  // ----- One flush at a time -----

  ghost predicate Ordered(t: Table) {
    && |t.open| <= 1
    && (t.open != [] ==> t.open[0].lo == t.base)
    && (forall i :: 0 <= i < |t.sent| ==> t.sent[i].span.hi <= t.base)
    && forall i, j :: 0 <= i < j < |t.sent| ==> t.sent[i].span.hi <= t.sent[j].span.lo
  }

  ghost predicate OneAtATime(t: Table, run: seq<Action>)
    requires Legal(t, run)
    decreases |run|
  {
    run == [] || ((run[0].Begin? ==> t.open == []) && OneAtATime(Step(t, run[0]), run[1..]))
  }

  lemma OrderedStep(t: Table, a: Action)
    requires Inv(t) && Ordered(t) && Enabled(t, a) && (a.Begin? ==> t.open == [])
    ensures Ordered(Step(t, a))
  {
    if a.Finish? && t.open[a.i].lo < t.open[a.i].hi {
      assert t.open[a.i] in t.open;
      assert Step(t, a).sent == t.sent + [Write(t.open[a.i], a.ok)];
    }
  }

  /** If no flush of the table starts while another is under way, no row is sent twice. */
  lemma {:induction false} SentOnce(t: Table, run: seq<Action>)
    requires Inv(t) && Ordered(t) && Legal(t, run) && OneAtATime(t, run)
    ensures Ordered(Run(t, run))
    decreases |run|
  {
    if run != [] {
      DropsExactly(t, run[0], 0);
      OrderedStep(t, run[0]);
      SentOnce(Step(t, run[0]), run[1..]);
    }
  }

  // ----- A flush in one piece -----

  /** The rows behind the numbers. */
  ghost function View<T>(t: Table, added: seq<T>): Buffer<T>
    requires t.base <= t.total == |added|
    requires forall i :: 0 <= i < |t.sent| ==> t.sent[i].span.lo <= t.sent[i].span.hi <= t.total
  {
    Buffer(added[t.base..], t.total,
           seq(|t.sent|, i requires 0 <= i < |t.sent| =>
             Batch(added[t.sent[i].span.lo..t.sent[i].span.hi], t.sent[i].written)))
  }

  /** A flush while nothing is added and no other flush is under way is one of the whole buffer, and drops nothing. */
  lemma FlushInOnePiece<T>(t: Table, ok: bool, added: seq<T>, r: nat)
    requires Inv(t) && t.open == [] && t.total == |added|
    requires forall i :: 0 <= i < |t.sent| ==> t.sent[i].span.lo <= t.sent[i].span.hi <= t.total
    ensures var t' := Step(Step(t, Begin), Finish(0, ok));
            && (forall i :: 0 <= i < |t'.sent| ==> t'.sent[i].span.lo <= t'.sent[i].span.hi <= t'.total)
            && t'.base <= t'.total == |added|
            && View(t', added) == Flush(View(t, added), ok)
            && (Dropped(t', r) <==> Dropped(t, r))
  {
    DropsExactly(t, Begin, r);
    DropsExactly(Step(t, Begin), Finish(0, ok), r);
    assert added[t.base..t.total] == added[t.base..];
    assert Step(Step(t, Begin), Finish(0, ok)).open == [];
    var t' := Step(Step(t, Begin), Finish(0, ok));
    assert View(t', added).pending == [] == Flush(View(t, added), ok).pending;
    assert View(t', added).sent == Flush(View(t, added), ok).sent;
  }
}
