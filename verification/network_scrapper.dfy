/** The cache that keeps a block from being processed twice. */
module NetworkScrapper {

  // ----- The cache of seen blocks -----

  /** The block is one of the last `n` of the sequence. */
  ghost predicate Recent(s: seq<nat>, n: int, block: nat) {
    exists j :: 0 <= j < |s| && |s| - n <= j && s[j] == block
  }

  /**
   The least-recently-used cache of the golang-lru library, with the operations the scrapper uses: Contains
   does not count as a use, and an addition to a full cache evicts the oldest entry. `entries` runs from the
   oldest to the newest.
   */
  class LruCache {
    const size: nat
    var entries: seq<nat>

    ghost predicate Valid()
      reads this
    {
      && size > 0 && |entries| <= size
      && forall i, j :: 0 <= i < j < |entries| ==> entries[i] != entries[j]
    }

    constructor (size: nat)
      requires size > 0
      ensures Valid() && entries == [] && this.size == size
    {
      this.size := size;
      entries := [];
    }

    predicate Contains(block: nat)
      reads this
    {
      block in entries
    }

    method Add(block: nat)
      requires Valid() && !Contains(block)
      modifies this
      ensures Valid()
      ensures entries
           == if |old(entries)| < size then old(entries) + [block] else old(entries)[1..] + [block]
    {
      entries := entries + [block];
      if |entries| > size {
        entries := entries[1..];
      }
    }
  }

  /** The numbers processed from a stream of notifications, with a cache of the given size. */
  ghost function Processed(size: nat, stream: seq<nat>): seq<nat> {
    if stream == [] then []
    else
      var before := Processed(size, stream[..|stream| - 1]);
      var block := stream[|stream| - 1];
      if Recent(before, size, block) then before else before + [block]
  }

  /** The same with a record of everything ever seen. */
  function ProcessedOnce(stream: seq<nat>): seq<nat> {
    if stream == [] then []
    else
      var before := ProcessedOnce(stream[..|stream| - 1]);
      var block := stream[|stream| - 1];
      if block in before then before else before + [block]
  }

  class Scrapper {
    const internalBlockCache: LruCache
    /** The stream of block numbers offered so far, by start-up rows and by notifications. */
    ghost var stream: seq<nat>

    ghost predicate Valid()
      reads this, internalBlockCache
    {
      && internalBlockCache.Valid()
      && internalBlockCache.entries == Newest(Processed(internalBlockCache.size, stream), internalBlockCache.size)
    }

    constructor (size: nat)
      requires size > 0
      ensures Valid() && fresh(internalBlockCache)
      ensures internalBlockCache.size == size && stream == [] && Processed(size, stream) == []
    {
      internalBlockCache := new LruCache(size);
      stream := [];
    }

    /**
     The test at the head of blockTrackerCallBackFn, and of the loop over the rows at start-up: a block passes
     exactly if it is none of the last `size` blocks that passed. Over any stream the blocks let through are
     those that `Processed` lists.
     */
    method Offer(block: nat) returns (process: bool)
      requires Valid()
      modifies this, internalBlockCache
      ensures Valid()
      ensures stream == old(stream) + [block]
      ensures var size, passed := internalBlockCache.size, Processed(internalBlockCache.size, old(stream));
              process <==> forall j :: 0 <= j < |passed| && |passed| - size <= j ==> passed[j] != block
      ensures var size := internalBlockCache.size;
              Processed(size, stream)
              == if process then Processed(size, old(stream)) + [block] else Processed(size, old(stream))
    {
      ghost var before := Processed(internalBlockCache.size, stream);
      NewestHas(before, internalBlockCache.size, block);
      NewestNext(before, internalBlockCache.size, block);
      ProcessedNext(internalBlockCache.size, stream, block);
      stream := stream + [block];
      if internalBlockCache.Contains(block) {
        return false;
      }
      internalBlockCache.Add(block);
      return true;
    }
  }

  /** The last `n` blocks let through, or all of them if they are fewer. */
  ghost function Newest(passed: seq<nat>, n: nat): seq<nat> {
    if |passed| <= n then passed else passed[|passed| - n..]
  }

  lemma NewestHas(passed: seq<nat>, n: nat, block: nat)
    ensures block in Newest(passed, n) <==> Recent(passed, n, block)
    ensures block !in Newest(passed, n) <==> forall j :: 0 <= j < |passed| && |passed| - n <= j ==> passed[j] != block
  {
    var newest := Newest(passed, n);
    var from := |passed| - |newest|;
    if block in newest {
      var i :| 0 <= i < |newest| && newest[i] == block;
      assert passed[from + i] == block;
    }
    forall j | 0 <= j < |passed| && |passed| - n <= j && passed[j] == block ensures block in newest {
      assert newest[j - from] == block;
    }
  }

  lemma NewestNext(passed: seq<nat>, n: nat, block: nat)
    requires n > 0
    ensures var newest := Newest(passed, n);
            Newest(passed + [block], n) == if |newest| < n then newest + [block] else newest[1..] + [block]
  {
  }

  /** Every block that comes back does so before `size` other blocks were let through since its last time. */
  ghost predicate ReturnsInTime(size: nat, stream: seq<nat>) {
    forall i :: 0 <= i < |stream| && stream[i] in ProcessedOnce(stream[..i])
      ==> var once := ProcessedOnce(stream[..i]);
          exists j :: 0 <= j < |once| && |once| - size <= j && once[j] == stream[i]
  }

  lemma {:induction false} CoversStream(size: nat, stream: seq<nat>)
    ensures forall x :: x in stream <==> x in ProcessedOnce(stream)
    ensures forall x :: x in stream <==> x in Processed(size, stream)
  {
    if stream != [] {
      var n := |stream| - 1;
      CoversStream(size, stream[..n]);
      assert stream == stream[..n] + [stream[n]];
      var before := Processed(size, stream[..n]);
      assert forall x :: Recent(before, size, x) ==> x in before;
    }
  }

  lemma InTimePrefix(size: nat, stream: seq<nat>)
    requires stream != []
    ensures var n := |stream| - 1;
            var once := ProcessedOnce(stream[..n]);
            ReturnsInTime(size, stream)
            <==> ReturnsInTime(size, stream[..n]) && (stream[n] in once ==> Recent(once, size, stream[n]))
  {
    var n := |stream| - 1;
    var before := stream[..n];
    assert forall i :: 0 <= i < n ==> before[..i] == stream[..i] && before[i] == stream[i];
  }

  /**
   The bounded cache lets through exactly the blocks that a record of everything ever seen would, if and only
   if no block comes back after `size` or more others; from the first that does, it has let through more.
   */
  lemma {:induction false} CacheRefinesRecord(size: nat, stream: seq<nat>)
    requires size > 0
    ensures Processed(size, stream) == ProcessedOnce(stream) <==> ReturnsInTime(size, stream)
    ensures Processed(size, stream) == ProcessedOnce(stream) || |Processed(size, stream)| > |ProcessedOnce(stream)|
  {
    if stream != [] {
      var n := |stream| - 1;
      CacheRefinesRecord(size, stream[..n]);
      InTimePrefix(size, stream);
      CoversStream(size, stream[..n]);
      var p := Processed(size, stream[..n]);
      assert forall x :: Recent(p, size, x) ==> x in p;
    }
  }

  ghost predicate Increasing(stream: seq<nat>) {
    forall i, j :: 0 <= i < j < |stream| ==> stream[i] < stream[j]
  }

  lemma IncreasingPrefix(stream: seq<nat>)
    requires Increasing(stream) && stream != []
    ensures var n := |stream| - 1;
            Increasing(stream[..n]) && stream[n] !in stream[..n] && stream == stream[..n] + [stream[n]]
  {
  }

  /** Blocks that arrive in increasing order are all let through, each once. */
  lemma {:induction false} IncreasingAllProcessed(size: nat, stream: seq<nat>)
    requires Increasing(stream)
    ensures Processed(size, stream) == stream
  {
    if stream != [] {
      var n := |stream| - 1;
      IncreasingPrefix(stream);
      IncreasingAllProcessed(size, stream[..n]);
      CoversStream(size, stream[..n]);
      assert !Recent(stream[..n], size, stream[n]);
    }
  }

  // ----- A cache seeded at start-up -----

  /** The blocks let through of those that arrive after start-up: all but the ones the seed still holds. */
  ghost function Passed(size: nat, seed: seq<nat>, arriving: seq<nat>): seq<nat> {
    if arriving == [] then []
    else
      var before := Passed(size, seed, arriving[..|arriving| - 1]);
      var block := arriving[|arriving| - 1];
      if Recent(seed, size - |before|, block) then before else before + [block]
  }

  lemma RecentInSum(seed: seq<nat>, passed: seq<nat>, size: nat, block: nat)
    requires block !in passed
    ensures Recent(seed + passed, size, block) <==> Recent(seed, size - |passed|, block)
  {
    var all := seed + passed;
    if j :| 0 <= j < |all| && |all| - size <= j && all[j] == block {
      assert seed[j] == block;
    }
    if j :| 0 <= j < |seed| && |seed| - (size - |passed|) <= j && seed[j] == block {
      assert all[j] == block;
    }
  }

  /** Of blocks that arrive in increasing order, those let through do so as well, and are among them. */
  lemma {:induction false} PassedIncreases(size: nat, seed: seq<nat>, arriving: seq<nat>)
    requires Increasing(arriving)
    ensures Increasing(Passed(size, seed, arriving))
    ensures forall x :: x in Passed(size, seed, arriving) ==> x in arriving
  {
    if arriving != [] {
      var n := |arriving| - 1;
      IncreasingPrefix(arriving);
      PassedIncreases(size, seed, arriving[..n]);
      var before := Passed(size, seed, arriving[..n]);
      forall i | 0 <= i < |before| ensures before[i] < arriving[n] {
        assert before[i] in before;
        var j :| 0 <= j < n && arriving[..n][j] == before[i];
      }
    }
  }

  /**
   When it arrives, the cache still holds the block from the start-up: at position `j` of the seed, with fewer
   than `size` blocks let through from there on.
   */
  ghost predicate KeptBack(size: nat, seed: seq<nat>, arriving: seq<nat>, i: nat)
    requires i < |arriving|
  {
    exists j :: 0 <= j < |seed| && seed[j] == arriving[i] && |seed| - j + |Passed(size, seed, arriving[..i])| <= size
  }

  lemma {:induction false} PassedExactly(size: nat, seed: seq<nat>, arriving: seq<nat>, i: nat)
    requires Increasing(arriving) && i < |arriving|
    ensures arriving[i] in Passed(size, seed, arriving) <==> !KeptBack(size, seed, arriving, i)
    decreases |arriving|
  {
    var n := |arriving| - 1;
    IncreasingPrefix(arriving);
    PassedIncreases(size, seed, arriving[..n]);
    if i < n {
      PassedExactly(size, seed, arriving[..n], i);
      assert arriving[..n][..i] == arriving[..i] && arriving[..n][i] == arriving[i];
    }
  }

  lemma ProcessedNext(size: nat, stream: seq<nat>, block: nat)
    ensures var before := Processed(size, stream);
            Processed(size, stream + [block]) == if Recent(before, size, block) then before else before + [block]
  {
    assert (stream + [block])[..|stream|] == stream;
  }

  lemma PassedNext(size: nat, seed: seq<nat>, arrived: seq<nat>, block: nat)
    ensures var before := Passed(size, seed, arrived);
            Passed(size, seed, arrived + [block])
            == if Recent(seed, size - |before|, block) then before else before + [block]
  {
    var all := arrived + [block];
    assert all[..|all| - 1] == arrived && all[|all| - 1] == block;
  }

  lemma SameDecision(size: nat, seed: seq<nat>, before: seq<nat>, block: nat, all: seq<nat>, after: seq<nat>)
    requires block !in before
    requires all == if Recent(seed + before, size, block) then seed + before else seed + before + [block]
    requires after == if Recent(seed, size - |before|, block) then before else before + [block]
    ensures all == seed + after
  {
    RecentInSum(seed, before, size, block);
  }

  lemma Regroup<T>(a: seq<T>, b: seq<T>, c: seq<T>)
    ensures a + (b + c) == a + b + c
  {
  }

  lemma SeededNext(size: nat, rows: seq<nat>, arrived: seq<nat>, block: nat)
    requires Increasing(arrived) && block !in arrived
    requires Processed(size, rows + arrived) == Processed(size, rows) + Passed(size, Processed(size, rows), arrived)
    ensures Processed(size, rows + arrived + [block])
         == Processed(size, rows) + Passed(size, Processed(size, rows), arrived + [block])
  {
    var seed := Processed(size, rows);
    PassedIncreases(size, seed, arrived);
    ProcessedNext(size, rows + arrived, block);
    PassedNext(size, seed, arrived, block);
    SameDecision(size, seed, Passed(size, seed, arrived), block,
                 Processed(size, rows + arrived + [block]), Passed(size, seed, arrived + [block]));
  }

  /** With any seed: what the cache lets through in all is the seed's share and then what Passed describes. */
  lemma {:induction false} SeededCache(size: nat, rows: seq<nat>, arriving: seq<nat>)
    requires Increasing(arriving)
    ensures Processed(size, rows + arriving)
         == Processed(size, rows) + Passed(size, Processed(size, rows), arriving)
  {
    if arriving == [] {
      assert rows + arriving == rows;
    } else {
      var n := |arriving| - 1;
      IncreasingPrefix(arriving);
      SeededCache(size, rows, arriving[..n]);
      SeededNext(size, rows, arriving[..n], arriving[n]);
      Regroup(rows, arriving[..n], [arriving[n]]);
    }
  }
}
