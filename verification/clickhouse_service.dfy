/** The write side of the database service: six buffered tables, flushed when full and on a periodic sweep. */
module ClickhouseService {
  import opened Batches

  class QueryBatcher<T> {
    var items: seq<T>
    const maxFlushT: int
    var lastFlushT: int
    const maxSize: nat
    var currentItems: nat
    var totalItems: nat

    ghost predicate Valid()
      reads this
    {
      currentItems == |items|
    }

    constructor (maxFlushT: int, maxBatchSize: nat, now: int)
      ensures Valid() && items == [] && totalItems == 0
      ensures maxSize == maxBatchSize && this.maxFlushT == maxFlushT
    {
      items := [];
      this.maxFlushT := maxFlushT;
      lastFlushT := now;
      maxSize := maxBatchSize;
      currentItems := 0;
      totalItems := 0;
    }

    method AddItem(item: T) returns (full: bool)
      requires Valid()
      modifies `items, `currentItems, `totalItems
      ensures Valid()
      ensures items == old(items) + [item] && totalItems == old(totalItems) + 1
      ensures full <==> |items| >= maxSize
    {
      items := items + [item];
      currentItems := currentItems + 1;
      totalItems := totalItems + 1;
      full := IsFull();
    }

    predicate IsFull()
      reads this
    {
      currentItems >= maxSize
    }

    /**
     The last flush is compared with itself and not with the clock, so that a buffer is never due for its
     age, unless the configured interval is negative.
     */
    predicate IsFlusheable(): (due: bool)
      reads this
      ensures due <==> maxFlushT < 0
    {
      lastFlushT > lastFlushT + maxFlushT
    }

    method GetPersistable() returns (rows: seq<T>, n: nat)
      requires Valid()
      ensures rows == items && n == |items|
    {
      return items, currentItems;
    }

    method ResetBatcher(now: int)
      modifies `items, `currentItems, `lastFlushT
      ensures Valid() && items == [] && lastFlushT == now
    {
      lastFlushT := now;
      items := [];
      currentItems := 0;
    }
  }

  // ----- The six tables, on values -----

  const TABLES: nat := 6
  const BLOCKS: nat := 0
  const SAMPLING_ITEMS: nat := 1
  const SAMPLE_GENERIC_VISITS: nat := 2
  const SAMPLE_VALUE_VISITS: nat := 3
  const PEER_INFO_VISITS: nat := 4
  const IPNS_RECORD_VISITS: nat := 5

  type Table = t: nat | t < TABLES

  /** An operation, with the outcome of each write it may lead to. */
  datatype Op<T> = Persist(table: Table, row: T, ok: bool) | Sweep(oks: seq<bool>)

  ghost predicate WellFormed<T>(op: Op<T>) {
    op.Sweep? ==> |op.oks| == TABLES
  }

  /** The sweep from table `i` on: it goes no further than the first table whose write fails. */
  function SweepFrom<T>(s: seq<Buffer<T>>, i: nat, oks: seq<bool>): (r: seq<Buffer<T>>)
    requires |s| == TABLES && |oks| == TABLES && i <= TABLES
    ensures |r| == TABLES
    decreases TABLES - i
  {
    if i == TABLES then s
    else
      var s' := s[i := Flush(s[i], oks[i])];
      if FlushFails(s[i], oks[i]) then s' else SweepFrom(s', i + 1, oks)
  }

  predicate FlushFails<T>(b: Buffer<T>, ok: bool) {
    b.pending != [] && !ok
  }

  function Apply<T>(sizes: seq<nat>, s: seq<Buffer<T>>, op: Op<T>): (r: seq<Buffer<T>>)
    requires |s| == |sizes| == TABLES && (op.Sweep? ==> |op.oks| == TABLES)
    ensures |r| == TABLES
  {
    match op
    case Persist(t, row, ok) => s[t := AddRow(s[t], sizes[t], row, ok)]
    case Sweep(oks) => SweepFrom(s, 0, oks)
  }

  ghost function Run<T>(sizes: seq<nat>, s: seq<Buffer<T>>, ops: seq<Op<T>>): (r: seq<Buffer<T>>)
    requires |s| == |sizes| == TABLES && forall op :: op in ops ==> WellFormed(op)
    ensures |r| == TABLES
    decreases |ops|
  {
    if ops == [] then s
    else
      assert WellFormed(ops[|ops| - 1]);
      Apply(sizes, Run(sizes, s, ops[..|ops| - 1]), ops[|ops| - 1])
  }

  function Empty<T>(): seq<Buffer<T>> {
    seq(TABLES, _ => Buffer([], 0, []))
  }

  /** The rows a run adds to a table, in order. */
  function Added<T>(ops: seq<Op<T>>, table: Table): seq<T> {
    if ops == [] then []
    else
      var op := ops[|ops| - 1];
      Added(ops[..|ops| - 1], table) + if op.Persist? && op.table == table then [op.row] else []
  }

  // ----- The sweep -----

  /** The table at which the sweep stops, or the number of tables. */
  function StopsAt<T>(s: seq<Buffer<T>>, i: nat, oks: seq<bool>): (r: nat)
    requires |s| == TABLES && |oks| == TABLES && i <= TABLES
    ensures i <= r <= TABLES
    ensures r < TABLES ==> FlushFails(s[r], oks[r])
    ensures forall j :: i <= j < r ==> !FlushFails(s[j], oks[j])
    decreases TABLES - i
  {
    if i == TABLES || FlushFails(s[i], oks[i]) then i else StopsAt(s, i + 1, oks)
  }

  /** A sweep flushes every table up to and including the first whose write fails, and no other. */
  lemma {:induction false} SweepStops<T>(s: seq<Buffer<T>>, i: nat, oks: seq<bool>)
    requires |s| == TABLES && |oks| == TABLES && i <= TABLES
    ensures var r, stop := SweepFrom(s, i, oks), StopsAt(s, i, oks);
            forall j :: 0 <= j < TABLES ==> r[j] == if i <= j <= stop then Flush(s[j], oks[j]) else s[j]
    decreases TABLES - i
  {
    if i < TABLES && !FlushFails(s[i], oks[i]) {
      var s' := s[i := Flush(s[i], oks[i])];
      SweepStops(s', i + 1, oks);
      SameStop(s, s', i + 1, oks);
    }
  }

  lemma {:induction false} SameStop<T>(s: seq<Buffer<T>>, s': seq<Buffer<T>>, i: nat, oks: seq<bool>)
    requires |s| == |s'| == TABLES && |oks| == TABLES && i <= TABLES
    requires forall j :: i <= j < TABLES ==> s[j] == s'[j]
    ensures StopsAt(s, i, oks) == StopsAt(s', i, oks)
    decreases TABLES - i
  {
    if i < TABLES && !FlushFails(s[i], oks[i]) {
      SameStop(s, s', i + 1, oks);
    }
  }

  /**
   A sweep that succeeds leaves all six buffers empty; one that fails leaves the buffers up to the table that
   failed empty, so that its rows are gone, and all later ones as they were.
   */
  lemma SweepEmpties<T>(s: seq<Buffer<T>>, oks: seq<bool>)
    requires |s| == TABLES && |oks| == TABLES
    ensures var r, stop := SweepFrom(s, 0, oks), StopsAt(s, 0, oks);
            && (forall j :: 0 <= j < TABLES && j <= stop ==> r[j].pending == [])
            && (forall j :: stop < j < TABLES ==> r[j] == s[j])
            && (stop < TABLES ==> r[stop].sent == s[stop].sent + [Batch(s[stop].pending, false)])
  {
    SweepStops(s, 0, oks);
  }

  /** The tables once the first `n` of them are flushed. */
  function Swept<T>(s: seq<Buffer<T>>, n: nat, oks: seq<bool>): (r: seq<Buffer<T>>)
    requires |s| == TABLES && |oks| == TABLES && n <= TABLES
    ensures |r| == TABLES
  {
    seq(TABLES, j requires 0 <= j < TABLES => if j < n then Flush(s[j], oks[j]) else s[j])
  }

  predicate NoneFails<T>(s: seq<Buffer<T>>, n: nat, oks: seq<bool>)
    requires |s| == TABLES && |oks| == TABLES && n <= TABLES
  {
    forall j :: 0 <= j < n ==> !FlushFails(s[j], oks[j])
  }

  /** A sweep is the flush of all tables up to one that fails or is the last. */
  lemma SweptIsSweep<T>(s: seq<Buffer<T>>, t: Table, oks: seq<bool>)
    requires |s| == TABLES && |oks| == TABLES && NoneFails(s, t, oks)
    requires FlushFails(s[t], oks[t]) || t == TABLES - 1
    ensures Swept(s, t + 1, oks) == SweepFrom(s, 0, oks)
    ensures FlushFails(s[t], oks[t]) <==> StopsAt(s, 0, oks) < TABLES
  {
    SweepStops(s, 0, oks);
    var stop := StopsAt(s, 0, oks);
    assert stop == t || (stop == TABLES && t == TABLES - 1);
  }

  // ----- Conservation over all runs -----

  /** The operations add the rows to the table, one each, in order. */
  ghost predicate Inserts<T>(ops: seq<Op<T>>, t: Table, rows: seq<T>) {
    && |ops| == |rows|
    && (forall op :: op in ops ==> WellFormed(op))
    && forall i :: 0 <= i < |ops| ==> ops[i].Persist? && ops[i].table == t && ops[i].row == rows[i]
  }

  lemma InsertsNext<T>(ops: seq<Op<T>>, t: Table, rows: seq<T>, i: nat, op: Op<T>)
    requires i < |rows| && Inserts(ops, t, rows[..i])
    requires op.Persist? && op.table == t && op.row == rows[i]
    ensures Inserts(ops + [op], t, rows[..i + 1])
  {
  }

  lemma RunNext<T>(sizes: seq<nat>, s: seq<Buffer<T>>, ops: seq<Op<T>>, op: Op<T>)
    requires |s| == |sizes| == TABLES && (forall op :: op in ops ==> WellFormed(op)) && WellFormed(op)
    ensures forall o :: o in ops + [op] ==> WellFormed(o)
    ensures Run(sizes, s, ops + [op]) == Apply(sizes, Run(sizes, s, ops), op)
  {
    assert (ops + [op])[..|ops|] == ops;
  }

  /** Rows added one by one to a table are in it, in order, behind what it had; nothing else is. */
  lemma {:induction false} RunRows<T>(sizes: seq<nat>, s: seq<Buffer<T>>, ops: seq<Op<T>>, t: Table, rows: seq<T>)
    requires |s| == |sizes| == TABLES && Inserts(ops, t, rows)
    ensures Rows(Run(sizes, s, ops)[t]) == Rows(s[t]) + rows
    ensures Run(sizes, s, ops)[t].total == s[t].total + |rows|
    decreases |ops|
  {
    if ops == [] {
      assert Rows(s[t]) + rows == Rows(s[t]);
    } else {
      var n := |ops| - 1;
      RunRows(sizes, s, ops[..n], t, rows[..n]);
      AddRowRows(Run(sizes, s, ops[..n])[t], sizes[t], rows[n], ops[n].ok);
      assert rows == rows[..n] + [rows[n]];
    }
  }

  /**
   In every run, with any pattern of write failures and for each table: the rows added are, in order, those of
   all batches sent followed by those pending; the counter counts them; the buffer stays below the batch size
   between operations; and every batch has at least one row and at most the batch size.
   */
  lemma {:induction false} Conservation<T>(sizes: seq<nat>, ops: seq<Op<T>>, table: Table)
    requires |sizes| == TABLES && forall op :: op in ops ==> WellFormed(op)
    ensures Holds(Run(sizes, Empty(), ops)[table], sizes[table], Added(ops, table))
    decreases |ops|
  {
    if ops != [] {
      var before, op := ops[..|ops| - 1], ops[|ops| - 1];
      Conservation(sizes, before, table);
      assert WellFormed(op);
      var s := Run(sizes, Empty(), before);
      match op
      case Persist(t, row, ok) =>
        if t == table {
          AddRowHolds(s[t], sizes[t], Added(before, t), row, ok);
        }
      case Sweep(oks) =>
        SweepStops(s, 0, oks);
        FlushHolds(s[table], sizes[table], Added(before, table), oks[table]);
    }
  }

  /** What is in the database, what was lost, and what is waiting add up to what was added. */
  lemma Accounting<T>(sizes: seq<nat>, ops: seq<Op<T>>, table: Table)
    requires |sizes| == TABLES && forall op :: op in ops ==> WellFormed(op)
    ensures var b := Run(sizes, Empty(), ops)[table];
            multiset(Added(ops, table))
            == multiset(RowsOf(b.sent, true)) + multiset(RowsOf(b.sent, false)) + multiset(b.pending)
  {
    Conservation(sizes, ops, table);
    var b := Run(sizes, Empty(), ops)[table];
    NothingElseLost(b.sent);
  }

  // ----- The database -----

  /** The rows of one batch, written to one table. */
  datatype Write<T> = Write(table: Table, rows: seq<T>)

  /**
   The server behind the connection: the writes attempted so far, in order, and what becomes of each; a write
   may fail for any reason. That is only learned by attempting it.
   */
  class Database<T> {
    const outcomes: nat -> bool
    var writes: seq<Write<T>>

    constructor (outcomes: nat -> bool)
      ensures this.outcomes == outcomes && writes == []
    {
      this.outcomes := outcomes;
      writes := [];
    }

    method PersistBatch(table: Table, rows: seq<T>) returns (ok: bool)
      modifies this
      ensures writes == old(writes) + [Write(table, rows)]
      ensures ok <==> outcomes(|old(writes)|)
    {
      ok := outcomes(|writes|);
      writes := writes + [Write(table, rows)];
    }
  }

  /** The batches of one table among the writes, each with its outcome. */
  function SentTo<T>(writes: seq<Write<T>>, outcomes: nat -> bool, table: Table): seq<Batch<T>> {
    if writes == [] then []
    else
      var n := |writes| - 1;
      SentTo(writes[..n], outcomes, table)
      + if writes[n].table == table then [Batch(writes[n].rows, outcomes(n))] else []
  }

  lemma SentOneWrite<T>(writes: seq<Write<T>>, outcomes: nat -> bool, write: Write<T>)
    ensures forall t: Table :: SentTo(writes + [write], outcomes, t)
              == SentTo(writes, outcomes, t)
                 + if write.table == t then [Batch(write.rows, outcomes(|writes|))] else []
  {
    assert (writes + [write])[..|writes|] == writes;
  }

  /** The writes of a sweep over the first `n` tables. */
  function SweepWrites<T>(s: seq<Buffer<T>>, n: nat): seq<Write<T>>
    requires |s| == TABLES && n <= TABLES
  {
    if n == 0 then []
    else SweepWrites(s, n - 1) + if s[n - 1].pending == [] then [] else [Write(n - 1, s[n - 1].pending)]
  }

  /** They are pending rows of those tables, in the order of the tables. */
  lemma {:induction false} SweepWritesAre<T>(s: seq<Buffer<T>>, n: nat, i: nat)
    requires |s| == TABLES && n <= TABLES && i < |SweepWrites(s, n)|
    ensures var w := SweepWrites(s, n)[i]; w.table < n && w.rows == s[w.table].pending != []
    ensures forall j :: 0 <= j < i ==> SweepWrites(s, n)[j].table < SweepWrites(s, n)[i].table
  {
    var before := SweepWrites(s, n - 1);
    if i < |before| {
      SweepWritesAre(s, n - 1, i);
    } else {
      forall j | 0 <= j < |before| ensures before[j].table < n - 1 {
        SweepWritesAre(s, n - 1, j);
      }
    }
  }

  /** And all that there are. */
  lemma {:induction false} SweepWritesAll<T>(s: seq<Buffer<T>>, n: nat, t: Table)
    requires |s| == TABLES && t < n <= TABLES && s[t].pending != []
    ensures Write(t, s[t].pending) in SweepWrites(s, n)
  {
    if t < n - 1 {
      SweepWritesAll(s, n - 1, t);
    } else {
      assert SweepWrites(s, n)[|SweepWrites(s, t)|] == Write(t, s[t].pending);
    }
  }

  /** The first `n` tables are flushed and no write has failed; the sweep began with `s` and `w`. */
  ghost predicate Sweeping<T>(s: seq<Buffer<T>>, w: seq<Write<T>>, outcomes: nat -> bool, n: nat, oks: seq<bool>,
                              now: seq<Buffer<T>>, writes: seq<Write<T>>)
    requires |s| == |oks| == TABLES && n <= TABLES
  {
    && now == Swept(s, n, oks) && NoneFails(s, n, oks)
    && writes == w + SweepWrites(s, n)
    && forall i :: |w| <= i < |writes| ==> outcomes(i)
  }

  /** The sweep has ended with table `last`. */
  ghost predicate SweepEnded<T>(s: seq<Buffer<T>>, w: seq<Write<T>>, outcomes: nat -> bool, last: Table, oks: seq<bool>,
                                now: seq<Buffer<T>>, writes: seq<Write<T>>, failed: bool)
    requires |s| == |now| == |oks| == TABLES
  {
    && now == SweepFrom(s, 0, oks) && (failed <==> StopsAt(s, 0, oks) < TABLES)
    && writes == w + SweepWrites(s, last + 1)
    && (failed <==> s[last].pending != [] && writes != [] && !outcomes(|writes| - 1))
    && (!failed ==> last == TABLES - 1)
    && (forall i :: |w| <= i < |writes| - (if failed then 1 else 0) ==> outcomes(i))
    && forall t :: 0 <= t < TABLES ==> now[t].pending == if t <= last then [] else s[t].pending
  }

  lemma SweepStep<T>(s: seq<Buffer<T>>, w: seq<Write<T>>, outcomes: nat -> bool, t: Table, oks: seq<bool>,
                     now: seq<Buffer<T>>, writes: seq<Write<T>>)
    requires |s| == |oks| == TABLES && Sweeping(s, w, outcomes, t, oks, now, writes)
    ensures var rows, ok := s[t].pending, outcomes(|writes|);
            var oks' := oks[t := ok];
            var now', writes' := now[t := Flush(now[t], ok)], writes + if rows == [] then [] else [Write(t, rows)];
            var failed := rows != [] && !ok;
            && now[t] == s[t]
            && (!failed ==> Sweeping(s, w, outcomes, t + 1, oks', now', writes'))
            && (failed || t == TABLES - 1 ==> SweepEnded(s, w, outcomes, t, oks', now', writes', failed))
  {
    var oks' := oks[t := outcomes(|writes|)];
    assert now[t := Flush(now[t], outcomes(|writes|))] == Swept(s, t + 1, oks');
    assert NoneFails(s, t, oks');
    if FlushFails(s[t], oks'[t]) || t == TABLES - 1 {
      SweptIsSweep(s, t, oks');
    }
  }

  // ----- The service -----

  class ClickHouseDB<T> {
    const qBatchers: seq<QueryBatcher<T>>
    const database: Database<T>

    ghost predicate Valid()
      reads this, qBatchers
    {
      && |qBatchers| == TABLES
      && (forall t :: 0 <= t < TABLES ==> qBatchers[t].Valid())
      && forall t, u :: 0 <= t < u < TABLES ==> qBatchers[t] != qBatchers[u]
    }

    ghost function Sizes(): (sizes: seq<nat>)
      requires |qBatchers| == TABLES
      ensures |sizes| == TABLES
    {
      seq(TABLES, t requires 0 <= t < TABLES => qBatchers[t].maxSize)
    }

    ghost function TableState(t: Table): Buffer<T>
      requires |qBatchers| == TABLES
      reads qBatchers[t], database
    {
      Buffer(qBatchers[t].items, qBatchers[t].totalItems, SentTo(database.writes, database.outcomes, t))
    }

    /** What is pending in the batchers and what has really been written, table by table. */
    ghost function Abs(): (s: seq<Buffer<T>>)
      requires |qBatchers| == TABLES
      reads qBatchers, database
      ensures |s| == TABLES
    {
      seq(TABLES, t requires 0 <= t < TABLES reads qBatchers, database => TableState(t))
    }

    lemma PendingRows()
      requires |qBatchers| == TABLES
      ensures forall t :: 0 <= t < TABLES ==> Abs()[t].pending == qBatchers[t].items
    {
    }

    /** What will become of the next write. */
    ghost function NextOutcome(): bool
      reads database
    {
      database.outcomes(|database.writes|)
    }

    /** Init has made one new batcher for each of the six tables. */
    constructor (batchers: seq<QueryBatcher<T>>, database: Database<T>)
      requires |batchers| == TABLES && database.writes == []
      requires forall t, u :: 0 <= t < u < TABLES ==> batchers[t] != batchers[u]
      requires forall t :: 0 <= t < TABLES
                 ==> batchers[t].Valid() && batchers[t].items == [] && batchers[t].totalItems == 0
      ensures Valid() && qBatchers == batchers && this.database == database && Abs() == Empty()
    {
      qBatchers := batchers;
      this.database := database;
    }

    /**
     The batcher is reset in any case, also when the write fails. Exactly one write is made if there are rows,
     of all of them, and the caller learns what becomes of it.
     */
    method FlushBatcher(t: Table) returns (failed: bool)
      requires Valid()
      modifies qBatchers[t], database
      ensures Valid() && qBatchers[t].items == [] && qBatchers[t].totalItems == old(qBatchers[t].totalItems)
      ensures database.writes
           == if old(qBatchers[t].items) == [] then old(database.writes)
              else old(database.writes) + [Write(t, old(qBatchers[t].items))]
      ensures failed <==> old(qBatchers[t].items) != [] && !database.outcomes(|old(database.writes)|)
      ensures Abs() == old(Abs())[t := Flush(old(Abs())[t], old(NextOutcome()))]
    {
      var batcher := qBatchers[t];
      var persistable, itemsN := batcher.GetPersistable();
      var now: int := *;
      failed := false;
      if itemsN > 0 {
        SentOneWrite(database.writes, database.outcomes, Write(t, persistable));
        assert Abs()[t].pending == persistable;
        var written := database.PersistBatch(t, persistable);
        failed := !written;
      }
      batcher.ResetBatcher(now);
      forall u: Table
        ensures TableState(u) == if u == t then Flush(old(TableState(u)), old(NextOutcome())) else old(TableState(u))
      {
      }
    }

    /** The outcome of the flush is dropped, so that no caller learns of a failed write. */
    method FlushBatcherIfNeeded(t: Table) returns (failed: bool)
      requires Valid()
      modifies qBatchers[t], database
      ensures Valid() && !failed
      ensures qBatchers[t].totalItems == old(qBatchers[t].totalItems)
      ensures var due := |old(qBatchers[t].items)| >= qBatchers[t].maxSize || qBatchers[t].maxFlushT < 0;
              && qBatchers[t].items == (if due then [] else old(qBatchers[t].items))
              && database.writes
                 == (if due && old(qBatchers[t].items) != []
                     then old(database.writes) + [Write(t, old(qBatchers[t].items))] else old(database.writes))
              && Abs() == (if due then old(Abs())[t := Flush(old(Abs())[t], old(NextOutcome()))] else old(Abs()))
    {
      if qBatchers[t].IsFull() || qBatchers[t].IsFlusheable() {
        var ignored := FlushBatcher(t);
      }
      failed := false;
    }

    /** The row is counted and waits in its batcher; the database is as it was. */
    method Enter(t: Table, row: T) returns (full: bool)
      requires Valid()
      modifies qBatchers[t]
      ensures Valid()
      ensures qBatchers[t].items == old(qBatchers[t].items) + [row]
      ensures qBatchers[t].totalItems == old(qBatchers[t].totalItems) + 1
      ensures full <==> |qBatchers[t].items| >= qBatchers[t].maxSize
      ensures var b := old(Abs())[t];
              Abs() == old(Abs())[t := b.(pending := b.pending + [row], total := b.total + 1)]
    {
      full := qBatchers[t].AddItem(row);
    }

    /**
     PersistNewBlock, PersistNewSamplingItem and the four PersistNew...Visit, which differ in the table only.
     A write is made exactly if the row fills the buffer, of all rows in it.
     */
    method PersistNew(t: Table, row: T) returns (failed: bool)
      requires Valid()
      modifies qBatchers[t], database
      ensures Valid() && !failed
      ensures var rows := old(qBatchers[t].items) + [row];
              && qBatchers[t].items == (if |rows| >= qBatchers[t].maxSize then [] else rows)
              && database.writes
                 == old(database.writes) + (if |rows| >= qBatchers[t].maxSize then [Write(t, rows)] else [])
              && qBatchers[t].totalItems == old(qBatchers[t].totalItems) + 1
      ensures Abs() == Apply(Sizes(), old(Abs()), Persist(t, row, old(NextOutcome())))
    {
      var flushable := Enter(t, row);
      failed := false;
      if flushable {
        failed := FlushBatcherIfNeeded(t);
      }
    }

    method PersistNewSamplingItems(rows: seq<T>) returns (failed: bool, ghost ops: seq<Op<T>>)
      requires Valid()
      modifies qBatchers[SAMPLING_ITEMS], database
      ensures Valid() && !failed
      ensures Inserts(ops, SAMPLING_ITEMS, rows) && Abs() == Run(Sizes(), old(Abs()), ops)
      ensures qBatchers[SAMPLING_ITEMS].totalItems == old(qBatchers[SAMPLING_ITEMS].totalItems) + |rows|
      ensures Rows(Abs()[SAMPLING_ITEMS]) == Rows(old(Abs()[SAMPLING_ITEMS])) + rows
    {
      ghost var s := Abs();
      ops := [];
      failed := false;
      for i := 0 to |rows|
        invariant Valid() && !failed
        invariant Inserts(ops, SAMPLING_ITEMS, rows[..i]) && Abs() == Run(Sizes(), s, ops)
      {
        ghost var op := Persist(SAMPLING_ITEMS, rows[i], NextOutcome());
        failed := PersistNew(SAMPLING_ITEMS, rows[i]);
        RunNext(Sizes(), s, ops, op);
        InsertsNext(ops, SAMPLING_ITEMS, rows, i, op);
        ops := ops + [op];
      }
      assert rows[..|rows|] == rows;
      RunRows(Sizes(), s, ops, SAMPLING_ITEMS, rows);
      assert qBatchers[SAMPLING_ITEMS].totalItems == Abs()[SAMPLING_ITEMS].total;
    }

    /** One table of the sweep. */
    method SweepTable(t: Table, ghost s: seq<Buffer<T>>, ghost w: seq<Write<T>>, ghost oks: seq<bool>)
      returns (failed: bool, ghost oks': seq<bool>)
      requires Valid() && |s| == TABLES && |oks| == TABLES
      requires Sweeping(s, w, database.outcomes, t, oks, Abs(), database.writes)
      modifies qBatchers[t], database
      ensures Valid() && |oks'| == TABLES
      ensures !failed ==> Sweeping(s, w, database.outcomes, t + 1, oks', Abs(), database.writes)
      ensures failed || t == TABLES - 1
              ==> SweepEnded(s, w, database.outcomes, t, oks', Abs(), database.writes, failed)
    {
      oks' := oks[t := NextOutcome()];
      ghost var now, writes := Abs(), database.writes;
      assert qBatchers[t].items == now[t].pending;
      failed := FlushBatcher(t);
      SweepStep(s, w, database.outcomes, t, oks, now, writes);
    }

    /** The six tables in order. */
    method SweepTables() returns (failed: bool, ghost oks: seq<bool>, ghost last: Table)
      requires Valid()
      modifies qBatchers, database
      ensures Valid() && |oks| == TABLES
      ensures SweepEnded(old(Abs()), old(database.writes), database.outcomes, last, oks, Abs(), database.writes, failed)
    {
      ghost var s, w := Abs(), database.writes;
      oks := seq(TABLES, _ => true);
      last := BLOCKS;
      failed, oks := SweepTable(BLOCKS, s, w, oks);
      if failed { return; }
      last := SAMPLING_ITEMS;
      failed, oks := SweepTable(SAMPLING_ITEMS, s, w, oks);
      if failed { return; }
      last := SAMPLE_GENERIC_VISITS;
      failed, oks := SweepTable(SAMPLE_GENERIC_VISITS, s, w, oks);
      if failed { return; }
      last := SAMPLE_VALUE_VISITS;
      failed, oks := SweepTable(SAMPLE_VALUE_VISITS, s, w, oks);
      if failed { return; }
      last := PEER_INFO_VISITS;
      failed, oks := SweepTable(PEER_INFO_VISITS, s, w, oks);
      if failed { return; }
      last := IPNS_RECORD_VISITS;
      failed, oks := SweepTable(IPNS_RECORD_VISITS, s, w, oks);
    }

    /**
     The sweep writes what is pending, table after table up to `last`, the first whose write fails or the last of
     all; the caller learns exactly whether that write failed. No earlier one did.
     */
    method FlushAllBatchers() returns (failed: bool, ghost oks: seq<bool>, ghost last: Table)
      requires Valid()
      modifies qBatchers, database
      ensures Valid()
      ensures |oks| == TABLES && Abs() == Apply(Sizes(), old(Abs()), Sweep(oks))
      ensures failed <==> StopsAt(old(Abs()), 0, oks) < TABLES
      ensures database.writes == old(database.writes) + SweepWrites(old(Abs()), last + 1)
      ensures failed <==> old(qBatchers[last].items) != [] && !database.outcomes(|database.writes| - 1)
      ensures !failed ==> last == TABLES - 1
      ensures forall i :: |old(database.writes)| <= i < |database.writes| - (if failed then 1 else 0)
                ==> database.outcomes(i)
      ensures forall t :: 0 <= t < TABLES
                ==> qBatchers[t].items == if t <= last then [] else old(qBatchers[t].items)
    {
      PendingRows();
      failed, oks, last := SweepTables();
      PendingRows();
    }
  }
}
