/** The cells of an Avail block as sampling items, and the times at which they are sampled. */
module AvailBlocks {
  import opened Models
  import opened VisitSchedule
  import opened AvailKeys
  import opened Arithmetic
  import Scheduler
  import Rounds
  import BoundedVisits
  import Draining

  const SECOND: int := 1_000_000_000
  const HOUR: int := 3600 * SECOND
  const BLOCK_TTL: int := 24 * HOUR
  const TWO_32: nat := 0x1_0000_0000

  datatype Block = Block(receivedAt: int, number: nat, rows: nat, columns: nat) {
    function UTCTimestamp(): int {
      receivedAt * SECOND
    }

    function SampleUntil(): int {
      UTCTimestamp() + BLOCK_TTL + 3 * HOUR
    }

    /** The key of the cell at position `i` of the list, row after row. */
    function CellKey(i: nat): AvailKey
      requires columns > 0
    {
      AvailKey(number, i / columns, i % columns)
    }

    ghost predicate IsCell(i: nat, item: SamplingItem)
      requires columns > 0
    {
      && item.key == CellKey(i).Print()
      && item.blockLink == number
      && item.dasRow == (i / columns) % TWO_32 && item.dasColumn == (i % columns) % TWO_32
      && item.timestamp == UTCTimestamp() && item.sampleUntil == SampleUntil()
    }
  }

  lemma Position(columns: nat, row: nat, column: nat)
    requires column < columns
    ensures (row * columns + column) / columns == row
    ensures (row * columns + column) % columns == column
  {
    DivModUnique(row * columns + column, columns, row, column);
  }

  /** What the item of a cell is, with all times in nanoseconds: it is sampled for 27 hours after the block. */
  lemma CellItem(b: Block, i: nat, item: SamplingItem)
    requires b.columns > 0 && b.IsCell(i, item)
    ensures item.key == AvailKey(b.number, i / b.columns, i % b.columns).Print()
    ensures item.blockLink == b.number
    ensures item.dasRow == (i / b.columns) % 0x1_0000_0000 && item.dasColumn == (i % b.columns) % 0x1_0000_0000
    ensures item.timestamp == b.receivedAt * 1_000_000_000
    ensures item.sampleUntil == (b.receivedAt + 27 * 3600) * 1_000_000_000
  {
  }

  /** The loops run over 64-bit signed counters; a list of more cells could not be allocated. */
  method GetDASSamplingItems(b: Block) returns (items: seq<SamplingItem>)
    requires b.rows < TWO_63 && b.columns < TWO_63
    ensures |items| == b.rows * b.columns
    ensures forall i :: 0 <= i < |items| ==> fresh(items[i]) && items[i].nextVisit == ZERO_TIME
    ensures forall i :: 0 <= i < |items| ==> b.columns > 0 && b.IsCell(i, items[i])
    ensures forall i, j :: 0 <= i < j < |items| ==> items[i] != items[j]
  {
    items := [];
    for row := 0 to b.rows
      invariant |items| == row * b.columns
      invariant forall i :: 0 <= i < |items| ==> fresh(items[i]) && items[i].nextVisit == ZERO_TIME
      invariant forall i :: 0 <= i < |items| ==> b.columns > 0 && b.IsCell(i, items[i])
      invariant forall i, j :: 0 <= i < j < |items| ==> items[i] != items[j]
    {
      for col := 0 to b.columns
        invariant |items| == row * b.columns + col
        invariant forall i :: 0 <= i < |items| ==> fresh(items[i]) && items[i].nextVisit == ZERO_TIME
        invariant forall i :: 0 <= i < |items| ==> b.columns > 0 && b.IsCell(i, items[i])
        invariant forall i, j :: 0 <= i < j < |items| ==> items[i] != items[j]
      {
        var segmentKey := AvailKey(b.number, row, col);
        var item := new SamplingItem(
          segmentKey.Print(), segmentKey.block, segmentKey.row % TWO_32, segmentKey.column % TWO_32,
          b.UTCTimestamp(), b.SampleUntil());
        Position(b.columns, row, col);
        items := items + [item];
      }
    }
  }

  lemma SamePosition(columns: nat, i: nat, j: nat)
    requires columns > 0 && i / columns == j / columns && i % columns == j % columns
    ensures i == j
  {
    assert i == columns * (i / columns) + i % columns;
    assert j == columns * (j / columns) + j % columns;
  }

  /** Different cells have different keys, within a block and across blocks. */
  lemma CellKeysDistinct(b: Block, i: nat, c: Block, j: nat)
    requires b.columns > 0 && c.columns > 0
    requires b.number == c.number ==> b.columns == c.columns
    ensures b.CellKey(i).Print() == c.CellKey(j).Print() <==> b.number == c.number && i == j
  {
    var k, l := b.CellKey(i), c.CellKey(j);
    if k.Print() == l.Print() {
      PrintInjective(k, l);
      SamePosition(b.columns, i, j);
    }
  }

  /** The list is a bijection with the grid: the cell of each row and column is at exactly one position. */
  lemma CellsCoverGrid(b: Block, row: nat, column: nat, i: nat)
    requires row < b.rows && column < b.columns
    ensures row * b.columns + column < b.rows * b.columns
    ensures b.CellKey(i) == AvailKey(b.number, row, column) <==> i == row * b.columns + column
  {
    Position(b.columns, row, column);
    MulAtLeast(b.columns, b.rows - row);
    assert b.rows * b.columns == row * b.columns + b.columns * (b.rows - row);
    if b.CellKey(i) == AvailKey(b.number, row, column) {
      SamePosition(b.columns, i, row * b.columns + column);
    }
  }

  // ----- Avail's schedule -----

  const AVAIL_DELAY: DelayConfig := DelayConfig(Exponential, 180 * SECOND, 2)

  lemma AvailDelays()
    ensures Delay(AVAIL_DELAY, 9) == 25 * HOUR + 36 * 60 * SECOND
    ensures Delay(AVAIL_DELAY, 10) == 51 * HOUR + 12 * 60 * SECOND
  {
    var d := AVAIL_DELAY;
    assert Delay(d, 0) == 180 * SECOND;
    assert Delay(d, 2) == 720 * SECOND;
    assert Delay(d, 4) == 2880 * SECOND;
    assert Delay(d, 6) == 11520 * SECOND;
    assert Delay(d, 8) == 46080 * SECOND;
  }

  /**
   With Avail's settings an item has ten slots before the end of its sampling. The last is 25 h 36 min after
   the block, past the 24 hours for which the network keeps the cell, as the 27 hours were chosen for.
   */
  lemma AvailTenSlots(w: Scheduler.World, key: string, b: Block)
    requires w.Unbounded() && w.Until(key) == b.SampleUntil()
    requires forall k: nat | k <= 10 :: w.Slot(key, k) == Slot(AVAIL_DELAY, b.UTCTimestamp(), k)
    ensures BoundedVisits.SlotsBefore(w, key) == 10
    ensures b.UTCTimestamp() + BLOCK_TTL < Slot(AVAIL_DELAY, b.UTCTimestamp(), 9) < b.SampleUntil()
  {
    AvailDelays();
    forall j: nat | j <= 9 ensures w.Slot(key, j) < w.Until(key) {
      SlotOrder(AVAIL_DELAY, b.UTCTimestamp(), 9, j);
    }
    BoundedVisits.SlotsBeforeCounts(w, key, 9);
    assert w.Slot(key, 10) >= w.Until(key);
    BoundedVisits.SlotsBeforeCounts(w, key, 10);
  }

  /** So a cell is visited at most ten times, whatever else goes on, until it is added anew with no slot left. */
  lemma AvailTenVisits(w: Scheduler.World, s: Scheduler.State, run: seq<Scheduler.Action>, key: string, b: Block)
    requires w.Unbounded() && w.Until(key) == b.SampleUntil()
    requires forall k: nat | k <= 10 :: w.Slot(key, k) == Slot(AVAIL_DELAY, b.UTCTimestamp(), k)
    requires Rounds.Inv(w, s) && Scheduler.Legal(w, s, run)
    requires Draining.LateEntries(w, s, run, key) == 0
    ensures Draining.VisitsOf(w, s, run, key) <= 10
  {
    AvailTenSlots(w, key, b);
    Draining.ItemVisits(w, s, run, key);
  }
}
