/** Facts about sequences that several modules need. */
module Sequences {

  /** Two permutations stay permutations when one occurrence of the same element is taken out of both. */
  lemma RestIsPermutation<T>(a: seq<T>, b: seq<T>, i: nat)
    requires multiset(a) == multiset(b)
    requires a != [] && i < |b| && b[i] == a[0]
    ensures multiset(a[1..]) == multiset(b[..i] + b[i + 1..])
  {
    assert a == [a[0]] + a[1..];
    assert b == b[..i] + [b[i]] + b[i + 1..];
    assert multiset(b[..i] + b[i + 1..]) == multiset(b) - multiset{a[0]};
    assert multiset(a[1..]) == multiset(a) - multiset{a[0]};
  }

  /** The places at which the predicate holds. */
  ghost function Places<T>(s: seq<T>, p: T -> bool): set<int> {
    set i | 0 <= i < |s| && p(s[i])
  }

  lemma PlacesLast<T>(s: seq<T>, x: T, p: T -> bool)
    ensures |Places(s + [x], p)| == |Places(s, p)| + if p(x) then 1 else 0
  {
    assert forall i :: 0 <= i < |s| ==> (s + [x])[i] == s[i];
    assert Places(s + [x], p) == Places(s, p) + if p(x) then {|s|} else {};
  }

  lemma {:induction false} PlacesFirst<T>(s: seq<T>, p: T -> bool)
    requires s != []
    ensures |Places(s, p)| == (if p(s[0]) then 1 else 0) + |Places(s[1..], p)|
  {
    var n := |s| - 1;
    assert s == s[..n] + [s[n]];
    PlacesLast(s[..n], s[n], p);
    if n == 0 {
      assert Places(s[..0], p) == Places(s[1..], p) == {};
    } else {
      PlacesFirst(s[..n], p);
      assert s[1..] == s[..n][1..] + [s[n]];
      PlacesLast(s[..n][1..], s[n], p);
    }
  }

  ghost predicate Distinct<T>(s: seq<T>) {
    forall i, j :: 0 <= i < j < |s| ==> s[i] != s[j]
  }

  lemma {:induction false} DistinctIffNoRepeat<T>(s: seq<T>)
    ensures Distinct(s) <==> forall x :: multiset(s)[x] <= 1
  {
    if s != [] {
      var last := |s| - 1;
      assert s == s[..last] + [s[last]];
      DistinctIffNoRepeat(s[..last]);
      var m := multiset(s[..last]);
      assert multiset(s) == m + multiset{s[last]};
      if Distinct(s) {
        assert s[last] !in m;
      } else if Distinct(s[..last]) {
        assert s[last] in s[..last];
        assert multiset(s)[s[last]] >= 2;
      } else {
        var x :| m[x] > 1;
        assert multiset(s)[x] >= m[x];
      }
    }
  }

  lemma PermutationKeeps<T>(s: seq<T>, sorted: seq<T>)
    requires Distinct(s) && multiset(sorted) == multiset(s)
    ensures Distinct(sorted) && |sorted| == |s|
    ensures forall x :: x in sorted <==> x in s
  {
    forall x ensures x in sorted <==> x in s {
      assert x in sorted <==> x in multiset(sorted);
      assert x in s <==> x in multiset(s);
    }
    assert |sorted| == |multiset(sorted)| && |s| == |multiset(s)|;
    DistinctIffNoRepeat(s);
    DistinctIffNoRepeat(sorted);
  }
}
