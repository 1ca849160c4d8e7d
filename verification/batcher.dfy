/** One table's buffer of rows waiting to be written, on values. */
module Batches {

  /** A batch handed to the database, and whether the write succeeded. */
  datatype Batch<T> = Batch(rows: seq<T>, written: bool)

  datatype Buffer<T> = Buffer(pending: seq<T>, total: nat, sent: seq<Batch<T>>)

  /** The buffer is emptied whether or not the write succeeds; an empty buffer sends nothing. */
  function Flush<T>(b: Buffer<T>, ok: bool): Buffer<T> {
    if b.pending == [] then b else b.(pending := [], sent := b.sent + [Batch(b.pending, ok)])
  }

  function AddRow<T>(b: Buffer<T>, maxSize: nat, row: T, ok: bool): Buffer<T> {
    var b' := b.(pending := b.pending + [row], total := b.total + 1);
    if |b'.pending| >= maxSize then Flush(b', ok) else b'
  }

  function Cap(maxSize: nat): nat {
    if maxSize < 1 then 1 else maxSize
  }

  /** The rows of the batches for which `written` is as given, in order. */
  function RowsOf<T>(sent: seq<Batch<T>>, written: bool): seq<T> {
    if sent == [] then []
    else
      var last := sent[|sent| - 1];
      RowsOf(sent[..|sent| - 1], written) + if last.written == written then last.rows else []
  }

  function AllRows<T>(sent: seq<Batch<T>>): seq<T> {
    if sent == [] then [] else AllRows(sent[..|sent| - 1]) + sent[|sent| - 1].rows
  }

  /** All rows that the buffer has ever been given. */
  function Rows<T>(b: Buffer<T>): seq<T> {
    AllRows(b.sent) + b.pending
  }

  /** An addition keeps all rows in order, and sends something exactly if it fills the buffer. */
  lemma AddRowRows<T>(b: Buffer<T>, maxSize: nat, row: T, ok: bool)
    ensures var b' := AddRow(b, maxSize, row, ok);
            && Rows(b') == Rows(b) + [row] && b'.total == b.total + 1
            && (|b.pending| + 1 < maxSize ==> b'.sent == b.sent)
            && (|b.pending| + 1 >= maxSize ==> b'.pending == [] && b'.sent == b.sent + [Batch(b.pending + [row], ok)])
  {
    SentOneMore(b.sent, Batch(b.pending + [row], ok));
  }

  /** Everything added is in the batches sent or still pending, in the order it was added. */
  ghost predicate Holds<T>(b: Buffer<T>, maxSize: nat, added: seq<T>) {
    && Rows(b) == added
    && b.total == |added|
    && |b.pending| < Cap(maxSize)
    && forall i :: 0 <= i < |b.sent| ==> 1 <= |b.sent[i].rows| <= Cap(maxSize)
  }

  lemma SentOneMore<T>(sent: seq<Batch<T>>, last: Batch<T>)
    ensures AllRows(sent + [last]) == AllRows(sent) + last.rows
    ensures forall w :: RowsOf(sent + [last], w) == RowsOf(sent, w) + if last.written == w then last.rows else []
  {
    assert (sent + [last])[..|sent|] == sent;
  }

  lemma FlushHolds<T>(b: Buffer<T>, maxSize: nat, added: seq<T>, ok: bool)
    requires AllRows(b.sent) + b.pending == added && b.total == |added| && |b.pending| <= Cap(maxSize)
    requires forall i :: 0 <= i < |b.sent| ==> 1 <= |b.sent[i].rows| <= Cap(maxSize)
    ensures Holds(Flush(b, ok), maxSize, added) && Flush(b, ok).pending == []
  {
    if b.pending != [] {
      SentOneMore(b.sent, Batch(b.pending, ok));
    }
  }

  lemma AddRowHolds<T>(b: Buffer<T>, maxSize: nat, added: seq<T>, row: T, ok: bool)
    requires Holds(b, maxSize, added)
    ensures Holds(AddRow(b, maxSize, row, ok), maxSize, added + [row])
  {
    var b' := b.(pending := b.pending + [row], total := b.total + 1);
    assert AllRows(b'.sent) + b'.pending == added + [row];
    if |b'.pending| >= maxSize {
      FlushHolds(b', maxSize, added + [row], ok);
    }
  }

  /** Nothing is lost but what was in a batch whose write failed, and nothing is written twice. */
  lemma {:induction false} NothingElseLost<T>(sent: seq<Batch<T>>)
    ensures multiset(AllRows(sent)) == multiset(RowsOf(sent, true)) + multiset(RowsOf(sent, false))
  {
    if sent != [] {
      NothingElseLost(sent[..|sent| - 1]);
    }
  }
}
