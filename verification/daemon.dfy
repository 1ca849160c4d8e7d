/** Rebuilding the item set from the database when the process starts. */
module Daemon {
  import opened Models
  import opened VisitSchedule
  import opened DelayLoop
  import Sampler = DataSampler

  /** The row's first slot that is not before `now` precedes the end of its sampling. */
  ghost predicate StillSampled(cfg: DelayConfig, row: SamplingItem, now: int)
  {
    NextSlot(cfg, row.timestamp, now) < row.sampleUntil
  }

  /** The items in the set after the rows were looked at, each at its own reading of the clock. */
  ghost function Synced(cfg: DelayConfig, rows: seq<SamplingItem>, readings: seq<int>): map<string, SamplingItem>
    requires |readings| == |rows|
    decreases |rows|
  {
    if rows == [] then map[]
    else
      var n := |rows| - 1;
      var m := Synced(cfg, rows[..n], readings[..n]);
      WithItem(cfg, m, rows[n], readings[n])
  }

  ghost function WithItem(cfg: DelayConfig, m: map<string, SamplingItem>, row: SamplingItem, now: int)
    : map<string, SamplingItem>
  {
    if StillSampled(cfg, row, now) && row.key !in m then m[row.key := row] else m
  }

  lemma SyncedNext(cfg: DelayConfig, rows: seq<SamplingItem>, readings: seq<int>, now: int)
    requires |readings| < |rows|
    ensures var i := |readings|;
            var m := Synced(cfg, rows[..i], readings);
            Synced(cfg, rows[..i + 1], readings + [now])
            == WithItem(cfg, m, rows[i], now)
  {
    var i := |readings|;
    assert rows[..i + 1][..i] == rows[..i] && (readings + [now])[..i] == readings;
  }

  lemma {:induction false} SyncedAmong(cfg: DelayConfig, rows: seq<SamplingItem>, readings: seq<int>)
    requires |readings| == |rows|
    ensures forall k :: k in Synced(cfg, rows, readings) ==> Synced(cfg, rows, readings)[k] in rows
    decreases |rows|
  {
    if rows != [] {
      var n := |rows| - 1;
      SyncedAmong(cfg, rows[..n], readings[..n]);
      assert rows[n] in rows;
    }
  }

  /** All rows have the data of their keys. */
  ghost predicate AllSupported(ds: Sampler.DataSampler, rows: seq<SamplingItem>) {
    forall i :: 0 <= i < |rows| ==> ds.Supported(rows[i])
  }

  /** The body of the loop over the rows. */
  method SyncItem(ds: Sampler.DataSampler, item: SamplingItem)
    requires ds.itemSet.Valid() && ds.clock.Valid() && Int64(ds.cfg.base)
    requires Reaches(ds.cfg, item.timestamp, ds.clock.horizon)
    requires item !in ds.itemSet.itemMap.Values
    modifies ds.itemSet`itemMap, ds.itemSet`itemArray, ds.clock, item`nextVisit, ds`run, ds`state
    ensures ds.itemSet.Valid() && ds.clock.Valid() && old(ds.clock.now) <= ds.clock.now
    ensures item.nextVisit == NextSlot(ds.cfg, item.timestamp, ds.clock.now)
    ensures ds.itemSet.itemMap == WithItem(ds.cfg, old(ds.itemSet.itemMap), item, ds.clock.now)
    ensures old(ds.Starting()) && ds.Supported(item) ==> ds.Starting() && old(ds.run) <= ds.run
  {
    ds.SyncRow(item);
  }

  /** The first rows have been looked at, each at its own reading of the clock since `start`. */
  ghost predicate SyncedSoFar(ds: Sampler.DataSampler, rows: seq<SamplingItem>, readings: seq<int>, start: int)
    reads ds.itemSet, ds.clock, rows
  {
    && |readings| <= |rows|
    && ds.itemSet.Valid() && ds.clock.Valid() && start <= ds.clock.now
    && (forall j :: 0 <= j < |readings| ==> start <= readings[j] <= ds.clock.now)
    && (forall j :: 0 <= j < |readings| ==> rows[j].nextVisit == NextSlot(ds.cfg, rows[j].timestamp, readings[j]))
    && ds.itemSet.itemMap == Synced(ds.cfg, rows[..|readings|], readings)
  }

  method SyncNextItem(ds: Sampler.DataSampler, item: SamplingItem,
                      ghost rows: seq<SamplingItem>, ghost readings: seq<int>, ghost start: int)
    returns (ghost readings': seq<int>)
    requires |readings| < |rows| && item == rows[|readings|]
    requires SyncedSoFar(ds, rows, readings, start) && Int64(ds.cfg.base)
    requires Reaches(ds.cfg, item.timestamp, ds.clock.horizon)
    requires forall i, j :: 0 <= i < j < |rows| ==> rows[i] != rows[j]
    modifies ds.itemSet`itemMap, ds.itemSet`itemArray, ds.clock, item`nextVisit, ds`run, ds`state
    ensures |readings'| == |readings| + 1 && SyncedSoFar(ds, rows, readings', start)
    ensures old(ds.Starting()) && ds.Supported(item) ==> ds.Starting() && old(ds.run) <= ds.run
  {
    SyncedAmong(ds.cfg, rows[..|readings|], readings);
    SyncItem(ds, item);
    SyncedNext(ds.cfg, rows, readings, ds.clock.now);
    readings' := readings + [ds.clock.now];
  }

  /**
   The loop over the rows, which need not agree on the times of a key. If they do, the start-up is a run of
   the machine, and its end may follow.
   */
  method SyncNetworkScrapper(ds: Sampler.DataSampler, rows: seq<SamplingItem>) returns (ghost readings: seq<int>)
    requires ds.itemSet.Valid() && ds.itemSet.itemMap == map[]
    requires ds.clock.Valid() && Int64(ds.cfg.base)
    requires forall i :: 0 <= i < |rows| ==> Reaches(ds.cfg, rows[i].timestamp, ds.clock.horizon)
    requires forall i, j :: 0 <= i < j < |rows| ==> rows[i] != rows[j]
    modifies ds.itemSet`itemMap, ds.itemSet`itemArray, ds.clock, rows, ds`run, ds`state
    ensures ds.itemSet.Valid() && ds.clock.Valid()
    ensures |readings| == |rows|
    ensures forall i :: 0 <= i < |rows| ==> old(ds.clock.now) <= readings[i] <= ds.clock.now
    ensures forall i :: 0 <= i < |rows| ==> rows[i].nextVisit == NextSlot(ds.cfg, rows[i].timestamp, readings[i])
    ensures ds.itemSet.itemMap == Synced(ds.cfg, rows, readings)
    ensures old(ds.Starting()) && AllSupported(ds, rows) ==> ds.Starting() && old(ds.run) <= ds.run
  {
    ghost var agree, start := ds.Starting() && AllSupported(ds, rows), ds.clock.now;
    readings := [];
    for i := 0 to |rows|
      invariant |readings| == i && SyncedSoFar(ds, rows, readings, start)
      invariant agree ==> ds.Starting() && old(ds.run) <= ds.run
    {
      assert agree ==> ds.Supported(rows[i]);
      readings := SyncNextItem(ds, rows[i], rows, readings, start);
    }
    assert rows[..|rows|] == rows;
  }

  /**
   The set holds exactly one item for each key that has some row still sampled at its reading: the first
   such row. Rows of one key may disagree on their times.
   */
  lemma {:induction false} SyncedIsFirstPerKey(cfg: DelayConfig, rows: seq<SamplingItem>, readings: seq<int>)
    requires |readings| == |rows|
    ensures var m := Synced(cfg, rows, readings);
            && (forall i :: 0 <= i < |rows| && StillSampled(cfg, rows[i], readings[i]) ==> rows[i].key in m)
            && (forall k :: k in m ==> exists i :: IsFirstRow(cfg, rows, readings, k, i) && m[k] == rows[i])
    decreases |rows|
  {
    if rows != [] {
      var n := |rows| - 1;
      var before, m := Synced(cfg, rows[..n], readings[..n]), Synced(cfg, rows, readings);
      SyncedIsFirstPerKey(cfg, rows[..n], readings[..n]);
      forall i | 0 <= i < |rows| && StillSampled(cfg, rows[i], readings[i]) ensures rows[i].key in m {
        assert i == n || rows[..n][i] == rows[i];
      }
      forall k | k in m ensures exists i :: IsFirstRow(cfg, rows, readings, k, i) && m[k] == rows[i] {
        if k in before {
          var i :| IsFirstRow(cfg, rows[..n], readings[..n], k, i) && before[k] == rows[..n][i];
          assert IsFirstRow(cfg, rows, readings, k, i) by {
            forall j | 0 <= j < i ensures !(rows[j].key == k && StillSampled(cfg, rows[j], readings[j])) {
              assert rows[..n][j] == rows[j] && readings[..n][j] == readings[j];
            }
          }
        } else {
          assert IsFirstRow(cfg, rows, readings, k, n) by {
            forall j | 0 <= j < n ensures !(rows[j].key == k && StillSampled(cfg, rows[j], readings[j])) {
              assert rows[..n][j] == rows[j] && readings[..n][j] == readings[j];
            }
          }
        }
      }
    }
  }

  ghost predicate IsFirstRow(cfg: DelayConfig, rows: seq<SamplingItem>, readings: seq<int>, k: string, i: int)
    requires |readings| == |rows|
  {
    && 0 <= i < |rows|
    && rows[i].key == k && StillSampled(cfg, rows[i], readings[i])
    && forall j :: 0 <= j < i ==> !(rows[j].key == k && StillSampled(cfg, rows[j], readings[j]))
  }
}
