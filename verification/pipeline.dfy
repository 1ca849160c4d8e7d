/** A block on its way from the chain into the item set. */
module Pipeline {
  import opened Models
  import opened AvailBlocks
  import opened AvailKeys
  import opened Arithmetic
  import Sampler = DataSampler

  lemma {:induction false} KeySetSize(items: seq<SamplingItem>, n: nat)
    requires n <= |items|
    requires forall i, j :: 0 <= i < j < |items| ==> items[i].key != items[j].key
    ensures |Sampler.KeySet(items[..n])| == n
  {
    if n > 0 {
      KeySetSize(items, n - 1);
      Sampler.KeySetGrows(items, n - 1);
    }
  }

  /** The keys of a block's list are all different, and all of that block. */
  lemma BlockKeys(b: Block, items: seq<SamplingItem>)
    requires items != [] ==> b.columns > 0
    requires forall i :: 0 <= i < |items| ==> b.IsCell(i, items[i])
    ensures |Sampler.KeySet(items)| == |items|
    ensures forall x :: x in Sampler.KeySet(items) ==> exists k: AvailKey :: k.block == b.number && k.Print() == x
  {
    forall i, j | 0 <= i < j < |items| ensures items[i].key != items[j].key {
      assert b.IsCell(i, items[i]) && b.IsCell(j, items[j]);
      CellKeysDistinct(b, i, b, j);
    }
    KeySetSize(items, |items|);
    assert items[..|items|] == items;
    forall x | x in Sampler.KeySet(items) ensures exists k: AvailKey :: k.block == b.number && k.Print() == x {
      var i :| 0 <= i < |items| && items[i].key == x;
      assert b.IsCell(i, items[i]);
      assert b.CellKey(i).block == b.number && b.CellKey(i).Print() == x;
    }
  }

  lemma DisjointSizes<T>(a: set<T>, b: set<T>)
    requires a !! b
    ensures |a + b| == |a| + |b|
  {
  }

  /** The item of the block's cell at a row and column. */
  ghost predicate IsItemOf(b: Block, row: nat, column: nat, item: SamplingItem) {
    && item.key == AvailKey(b.number, row, column).Print()
    && item.blockLink == b.number
    && item.dasRow == row % 0x1_0000_0000 && item.dasColumn == column % 0x1_0000_0000
    && item.timestamp == b.receivedAt * 1_000_000_000
    && item.sampleUntil == (b.receivedAt + 27 * 3600) * 1_000_000_000
  }

  lemma InGrid(rows: nat, columns: nat, i: nat)
    requires i < rows * columns
    ensures columns > 0 && i / columns < rows && i % columns < columns
  {
    if i / columns >= rows {
      MulAtLeast(columns, i / columns - rows);
    }
  }

  ghost predicate IsGrid(b: Block, items: seq<SamplingItem>) {
    && |items| == b.rows * b.columns
    && forall i :: 0 <= i < |items| ==> b.columns > 0 && b.IsCell(i, items[i])
  }

  /** Every item of the list is that of a cell of the grid. */
  lemma ItemInGrid(b: Block, items: seq<SamplingItem>, i: nat) returns (row: nat, column: nat)
    requires IsGrid(b, items) && i < |items|
    ensures row < b.rows && column < b.columns && IsItemOf(b, row, column, items[i])
  {
    InGrid(b.rows, b.columns, i);
    CellItem(b, i, items[i]);
    row, column := i / b.columns, i % b.columns;
  }

  /** Every cell of the grid has its item in the list. */
  lemma CellInList(b: Block, items: seq<SamplingItem>, row: nat, column: nat) returns (i: nat)
    requires IsGrid(b, items) && row < b.rows && column < b.columns
    ensures i < |items| && items[i].key == AvailKey(b.number, row, column).Print()
  {
    i := row * b.columns + column;
    CellsCoverGrid(b, row, column, i);
    assert b.IsCell(i, items[i]);
  }

  /** So the set has each cell's item under the key of the cell. */
  lemma CellEnters(b: Block, m: map<string, SamplingItem>, items: seq<SamplingItem>, row: nat, column: nat)
    requires IsGrid(b, items) && row < b.rows && column < b.columns
    requires AvailKey(b.number, row, column).Print() !in m
    requires forall k :: k in Sampler.Consumed(m, items) ==> Sampler.Consumed(m, items)[k].key == k
    ensures var m', k := Sampler.Consumed(m, items), AvailKey(b.number, row, column).Print();
            k in m' && IsItemOf(b, row, column, m'[k])
  {
    var m', k := Sampler.Consumed(m, items), AvailKey(b.number, row, column).Print();
    Sampler.ConsumedKeys(m, items);
    var i := CellInList(b, items, row, column);
    assert k in Sampler.KeySet(items);
    var j :| 0 <= j < |items| && items[j] == m'[k];
    var r, c := ItemInGrid(b, items, j);
    PrintInjective(AvailKey(b.number, row, column), AvailKey(b.number, r, c));
  }

  /** And it has no other new key. */
  lemma OnlyCellsEnter(b: Block, m: map<string, SamplingItem>, items: seq<SamplingItem>, x: string)
    returns (row: nat, column: nat)
    requires IsGrid(b, items) && x in Sampler.Consumed(m, items) && x !in m
    ensures row < b.rows && column < b.columns && x == AvailKey(b.number, row, column).Print()
  {
    Sampler.ConsumedKeys(m, items);
    assert x in Sampler.KeySet(items);
    var i :| 0 <= i < |items| && items[i].key == x;
    row, column := ItemInGrid(b, items, i);
  }

  ghost predicate NoneIn(b: Block, m: map<string, SamplingItem>) {
    forall k: AvailKey :: k.block == b.number ==> k.Print() !in m
  }

  /** The set after the block's list: its cells, and nothing else that is new. */
  lemma GridEnters(b: Block, m: map<string, SamplingItem>, items: seq<SamplingItem>)
    requires IsGrid(b, items)
    requires forall k :: k in Sampler.Consumed(m, items) ==> Sampler.Consumed(m, items)[k].key == k
    ensures var m' := Sampler.Consumed(m, items);
            && (forall row: nat, column: nat | row < b.rows && column < b.columns ::
                  var k := AvailKey(b.number, row, column).Print();
                  k in m' && (k !in m ==> IsItemOf(b, row, column, m'[k])))
            && (forall x :: x in m' && x !in m
                  ==> exists row: nat, column: nat ::
                        row < b.rows && column < b.columns && x == AvailKey(b.number, row, column).Print())
            && (forall x :: x in m ==> x in m' && m'[x] == m[x])
            && (NoneIn(b, m) ==> |m'.Keys| == |m.Keys| + b.rows * b.columns)
  {
    var m' := Sampler.Consumed(m, items);
    Sampler.ConsumedKeys(m, items);
    BlockKeys(b, items);
    if NoneIn(b, m) {
      DisjointSizes(m.Keys, Sampler.KeySet(items));
    }
    forall row: nat, column: nat | row < b.rows && column < b.columns
      ensures var k := AvailKey(b.number, row, column).Print();
              k in m' && (k !in m ==> IsItemOf(b, row, column, m'[k]))
    {
      if AvailKey(b.number, row, column).Print() !in m {
        CellEnters(b, m, items, row, column);
      }
    }
    forall x | x in m' && x !in m
      ensures exists row: nat, column: nat ::
                row < b.rows && column < b.columns && x == AvailKey(b.number, row, column).Print()
    {
      var row, column := OnlyCellsEnter(b, m, items, x);
    }
  }

  /**
   Tracking a block adds an item for each cell of its grid that is not in the set yet, under the key of the
   cell and with the block's times, and leaves everything else in the set as it is; if none is, it adds
   exactly rows * columns items.
   */
  method TrackBlock(ds: Sampler.DataSampler, b: Block)
    requires ds.Valid() && ds.state.cons.Resting? && !ds.state.orch.Syncing?
    requires b.rows < TWO_63 && b.columns < TWO_63
    requires forall k: AvailKey :: k.block == b.number
               ==> ds.SupportedKey(k.Print(), b.UTCTimestamp(), b.SampleUntil())
    modifies ds.itemSet`itemMap, ds.itemSet`itemArray, ds.clock, ds`run, ds`state, ds`adding
    ensures ds.Valid() && ds.state.cons.Resting? && ds.state.orch == old(ds.state.orch) && old(ds.run) <= ds.run
    ensures forall row: nat, column: nat | row < b.rows && column < b.columns ::
              var k := AvailKey(b.number, row, column).Print();
              && k in ds.itemSet.itemMap
              && var item := ds.itemSet.itemMap[k];
                 k !in old(ds.itemSet.itemMap) ==>
                 && item.key == k && item.blockLink == b.number
                 && item.dasRow == row % 0x1_0000_0000 && item.dasColumn == column % 0x1_0000_0000
                 && item.timestamp == b.receivedAt * 1_000_000_000
                 && item.sampleUntil == (b.receivedAt + 27 * 3600) * 1_000_000_000
    ensures forall x :: x in ds.itemSet.itemMap && x !in old(ds.itemSet.itemMap)
              ==> exists row: nat, column: nat ::
                    row < b.rows && column < b.columns && x == AvailKey(b.number, row, column).Print()
    ensures forall x :: x in old(ds.itemSet.itemMap)
              ==> x in ds.itemSet.itemMap && ds.itemSet.itemMap[x] == old(ds.itemSet.itemMap)[x]
    ensures NoneIn(b, old(ds.itemSet.itemMap))
            ==> |ds.itemSet.itemMap.Keys| == |old(ds.itemSet.itemMap.Keys)| + b.rows * b.columns
  {
    var items := GetDASSamplingItems(b);
    forall i | 0 <= i < |items| ensures ds.Supported(items[i]) {
      assert b.IsCell(i, items[i]);
    }
    ghost var m := ds.itemSet.itemMap;
    ds.ConsumeNewSamplingItems(items);
    GridEnters(b, m, items);
  }
}
