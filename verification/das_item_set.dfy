/**
 The set of items under sampling: a map by key and a sortable array that share the same mutable items,
 and a cursor into the array.
 */
module DasItemSet {
  import opened Models
  import opened Sequences

  /** The array without its first item that has the given key. */
  ghost function WithoutKey(items: seq<SamplingItem>, key: string): seq<SamplingItem> {
    if items == [] then []
    else if items[0].key == key then items[1..]
    else [items[0]] + WithoutKey(items[1..], key)
  }

  ghost predicate HasKey(items: seq<SamplingItem>, key: string) {
    exists i :: 0 <= i < |items| && items[i].key == key
  }

  ghost predicate DistinctKeys(items: seq<SamplingItem>) {
    forall i, j :: 0 <= i < j < |items| ==> items[i].key != items[j].key
  }

  /** Every key of the map has its item in the array, and every item in the array is the one of its key. */
  ghost predicate Agree(itemMap: map<string, SamplingItem>, items: seq<SamplingItem>) {
    && (forall k :: k in itemMap ==> itemMap[k].key == k && itemMap[k] in items)
    && (forall i :: 0 <= i < |items| ==> items[i].key in itemMap && itemMap[items[i].key] == items[i])
  }

  ghost predicate SortedByNextVisit(items: seq<SamplingItem>)
    reads items
  {
    forall i, j :: 0 <= i < j < |items| ==> items[i].nextVisit <= items[j].nextVisit
  }

  class ItemSet {
    var itemMap: map<string, SamplingItem>
    var itemArray: seq<SamplingItem>
    var pointer: int

    ghost predicate Consistent()
      reads `itemMap, `itemArray
    {
      Agree(itemMap, itemArray) && DistinctKeys(itemArray)
    }

    ghost predicate Valid()
      reads this
    {
      Consistent() && -1 <= pointer
    }

    constructor ()
      ensures Valid()
      ensures itemMap == map[] && itemArray == [] && pointer == -1
    {
      itemMap := map[];
      itemArray := [];
      pointer := -1;
    }

    predicate IsInit()
      reads this
    {
      |itemArray| > 0
    }

    /** An item whose key is already in the set is dropped; the item under that key stays as it is. */
    method AddItem(c: SamplingItem) returns (added: bool)
      requires Valid()
      modifies `itemMap, `itemArray
      ensures Valid()
      ensures added <==> c.key !in old(itemMap)
      ensures itemArray == if added then old(itemArray) + [c] else old(itemArray)
      ensures itemMap == if added then old(itemMap)[c.key := c] else old(itemMap)
    {
      if c.key in itemMap {
        return false;
      }
      itemMap := itemMap[c.key := c];
      itemArray := itemArray + [c];
      return true;
    }

    /** The cursor is left alone, so it then stands one item further than before. */
    method RemoveItem(key: string) returns (removed: bool)
      modifies `itemMap, `itemArray
      ensures itemMap == old(itemMap) - {key}
      ensures itemArray == if key in old(itemMap) then WithoutKey(old(itemArray), key) else old(itemArray)
      ensures removed <==> key in old(itemMap) && HasKey(old(itemArray), key)
      ensures old(Valid()) ==> Valid() && (removed <==> key in old(itemMap))
    {
      if key !in itemMap {
        return false;
      }
      ghost var was, wasMap := itemArray, itemMap;
      itemMap := itemMap - {key};
      for idx := 0 to |itemArray|
        invariant itemArray == was
        invariant forall j :: 0 <= j < idx ==> was[j].key != key
      {
        if itemArray[idx].key == key {
          itemArray := itemArray[..idx] + itemArray[idx + 1..];
          WithoutKeyIs(was, key, idx);
          if old(Valid()) {
            RemovalKeepsAgreement(wasMap, was, idx);
          }
          return true;
        }
      }
      WithoutAbsentKey(was, key);
      return false;
    }

    method Next() returns (item: SamplingItem?)
      requires Valid()
      modifies `pointer
      ensures Valid()
      ensures item == if 0 <= old(pointer) < |itemArray| then itemArray[old(pointer)] else null
      ensures pointer == if item != null then old(pointer) + 1 else old(pointer)
      ensures item != null ==> item.key in itemMap && itemMap[item.key] == item
    {
      if pointer >= |itemArray| || pointer < 0 {
        return null;
      }
      item := itemArray[pointer];
      pointer := pointer + 1;
    }

    /** The time the cursor looks at, and whether the array has to be sorted before it can go on. */
    method NextVisitTime() returns (t: int, sortNeeded: bool)
      requires Valid()
      ensures sortNeeded <==> pointer + 1 >= |itemArray|
      ensures !sortNeeded ==> t == itemArray[pointer + 1].nextVisit
      ensures sortNeeded ==> t == if |itemArray| == 1 && pointer == 0 then itemArray[0].nextVisit else ZERO_TIME
    {
      if pointer == 0 && |itemArray| == 1 {
        return itemArray[pointer].nextVisit, true;
      }
      if pointer + 1 >= |itemArray| {
        return ZERO_TIME, true;
      }
      return itemArray[pointer + 1].nextVisit, false;
    }

    method Swap(i: nat, j: nat)
      requires i < |itemArray| && j < |itemArray|
      modifies `itemArray
      ensures itemArray == old(itemArray)[i := old(itemArray)[j]][j := old(itemArray)[i]]
      ensures multiset(itemArray) == multiset(old(itemArray))
    {
      itemArray := itemArray[i := itemArray[j]][j := itemArray[i]];
    }

    predicate Less(i: nat, j: nat)
      requires i < |itemArray| && j < |itemArray|
      reads this, itemArray
    {
      itemArray[i].nextVisit < itemArray[j].nextVisit
    }

    /** Stands for the library's sort over Less and Swap; items with equal next visits may come out in any order. */
    method Sort()
      modifies `itemArray
      ensures multiset(itemArray) == multiset(old(itemArray))
      ensures SortedByNextVisit(itemArray)
    {
      var n := |itemArray|;
      for i := 0 to n
        invariant |itemArray| == n
        invariant multiset(itemArray) == multiset(old(itemArray))
        invariant SortedByNextVisit(itemArray[..i])
      {
        var j := i;
        while j > 0 && Less(j, j - 1)
          invariant 0 <= j <= i < n == |itemArray|
          invariant multiset(itemArray) == multiset(old(itemArray))
          invariant forall p, q :: 0 <= p < q <= i && q != j ==> itemArray[p].nextVisit <= itemArray[q].nextVisit
        {
          Swap(j, j - 1);
          j := j - 1;
        }
      }
      assert itemArray[..n] == itemArray;
    }

    method SortItemList()
      requires Valid()
      modifies `itemArray, `pointer
      ensures Valid()
      ensures multiset(itemArray) == multiset(old(itemArray))
      ensures SortedByNextVisit(itemArray)
      ensures pointer == 0
    {
      Sort();
      PermutationKeepsAgreement(itemMap, old(itemArray), itemArray);
      pointer := 0;
    }
  }

  lemma {:induction false} WithoutKeyIs(items: seq<SamplingItem>, key: string, idx: nat)
    requires idx < |items| && items[idx].key == key
    requires forall j :: 0 <= j < idx ==> items[j].key != key
    ensures WithoutKey(items, key) == items[..idx] + items[idx + 1..]
  {
    if idx > 0 {
      WithoutKeyIs(items[1..], key, idx - 1);
      assert items[..idx] == [items[0]] + items[1..][..idx - 1];
    }
  }

  lemma {:induction false} WithoutAbsentKey(items: seq<SamplingItem>, key: string)
    requires forall j :: 0 <= j < |items| ==> items[j].key != key
    ensures WithoutKey(items, key) == items
  {
    if items != [] {
      WithoutAbsentKey(items[1..], key);
    }
  }

  lemma RemovalMembers(items: seq<SamplingItem>, idx: nat)
    requires DistinctKeys(items) && idx < |items|
    ensures DistinctKeys(items[..idx] + items[idx + 1..])
    ensures forall x :: x in items[..idx] + items[idx + 1..] <==> x in items && x != items[idx]
  {
    var rest := items[..idx] + items[idx + 1..];
    assert items == items[..idx] + [items[idx]] + items[idx + 1..];
    assert forall i :: 0 <= i < |rest| ==> rest[i] == items[if i < idx then i else i + 1];
  }

  lemma RemovalKeepsAgreement(itemMap: map<string, SamplingItem>, items: seq<SamplingItem>, idx: nat)
    requires Agree(itemMap, items) && DistinctKeys(items)
    requires idx < |items|
    ensures Agree(itemMap - {items[idx].key}, items[..idx] + items[idx + 1..])
    ensures DistinctKeys(items[..idx] + items[idx + 1..])
  {
    RemovalMembers(items, idx);
    var rest := items[..idx] + items[idx + 1..];
    forall i | 0 <= i < |rest|
      ensures rest[i].key != items[idx].key && rest[i].key in itemMap && itemMap[rest[i].key] == rest[i] {
      assert rest[i] in items;
    }
  }

  lemma PermutationKeepsAgreement(itemMap: map<string, SamplingItem>, was: seq<SamplingItem>, now: seq<SamplingItem>)
    requires Agree(itemMap, was) && DistinctKeys(was)
    requires multiset(now) == multiset(was)
    ensures Agree(itemMap, now) && DistinctKeys(now)
  {
    PermutationKeeps(was, now);
    forall i | 0 <= i < |now| ensures now[i].key in itemMap && itemMap[now[i].key] == now[i] {
      assert now[i] in was;
    }
  }
}
