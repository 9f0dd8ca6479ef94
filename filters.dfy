/** The two list filters of the library: Kotlin's `filter` over permission names, and
    `filterIndexed` over names paired with the host's per-name grant results. */
module Filters {
  import opened Flags

  /** `a` is `b` with some elements left out, the rest in their original order. */
  ghost predicate IsSubsequence(a: seq<string>, b: seq<string>)
    decreases |b|
  {
    a == [] || (b != [] && ((a[0] == b[0] && IsSubsequence(a[1..], b[1..])) || IsSubsequence(a, b[1..])))
  }

  /** Kotlin's `names.filter(keep)`: the names that satisfy `keep`, in order. */
  function Filter(names: seq<string>, keep: string -> bool): (r: seq<string>)
    ensures |r| <= |names|
    ensures forall x :: x in r <==> x in names && keep(x)
  {
    if names == [] then []
    else (if keep(names[0]) then [names[0]] else []) + Filter(names[1..], keep)
  }

  /** The filter keeps order: its result is a subsequence of its input. */
  lemma {:induction false} FilterOrdered(names: seq<string>, keep: string -> bool)
    ensures IsSubsequence(Filter(names, keep), names)
  {
    if names != [] {
      FilterOrdered(names[1..], keep);
      var rest := Filter(names[1..], keep);
      if keep(names[0]) {
        assert Filter(names, keep) == [names[0]] + rest;
        assert ([names[0]] + rest)[1..] == rest;
      } else {
        assert Filter(names, keep) == rest;
      }
    }
  }

  /** The filter keeps every occurrence of a kept name and none of a dropped one. */
  lemma {:induction false} FilterCount(names: seq<string>, keep: string -> bool, x: string)
    ensures multiset(Filter(names, keep))[x] == if keep(x) then multiset(names)[x] else 0
  {
    if names != [] {
      FilterCount(names[1..], keep, x);
      assert names == [names[0]] + names[1..];
      assert multiset(names) == multiset([names[0]]) + multiset(names[1..]);
    }
  }

  /** The filter drops something exactly when some name fails `keep`. */
  lemma {:induction false} FilterShorter(names: seq<string>, keep: string -> bool)
    ensures |Filter(names, keep)| < |names| <==> exists x :: x in names && !keep(x)
  {
    if names != [] {
      FilterShorter(names[1..], keep);
      if !keep(names[0]) {
        assert names[0] in names;
      } else {
        forall x | x in names && !keep(x) ensures x in names[1..] {
          assert x == names[0] || x in names[1..];
        }
      }
    }
  }

  /** Kotlin's `names.filterIndexed { i, _ -> results[i] != PERMISSION_GRANTED }`. The
      host hands `names` and `results` together; `results[i]` is read for every index of
      `names`, so `results` must be at least as long. */
  function FilterIndexed(names: seq<string>, results: seq<int>): (r: seq<string>)
    requires |names| <= |results|
    ensures |r| <= |names|
    ensures r == [] <==> forall i :: 0 <= i < |names| ==> results[i] == PermissionGranted
  {
    if names == [] then []
    else
      var rest := FilterIndexed(names[1..], results[1..]);
      assert forall i :: 1 <= i < |names| ==> results[1..][i - 1] == results[i];
      (if results[0] != PermissionGranted then [names[0]] else []) + rest
  }

  /** A name is in the result exactly when it stands at an index whose result is not
      "granted". */
  lemma {:induction false} FilterIndexedMember(names: seq<string>, results: seq<int>, x: string)
    requires |names| <= |results|
    ensures x in FilterIndexed(names, results) <==>
            exists i :: 0 <= i < |names| && names[i] == x && results[i] != PermissionGranted
  {
    if names != [] {
      FilterIndexedMember(names[1..], results[1..], x);
      var rest := FilterIndexed(names[1..], results[1..]);
      if x in rest {
        var j :| 0 <= j < |names[1..]| && names[1..][j] == x && results[1..][j] != PermissionGranted;
        assert names[j + 1] == x && results[j + 1] != PermissionGranted;
      }
      if exists i :: 0 <= i < |names| && names[i] == x && results[i] != PermissionGranted {
        var i :| 0 <= i < |names| && names[i] == x && results[i] != PermissionGranted;
        if i > 0 {
          assert names[1..][i - 1] == x && results[1..][i - 1] != PermissionGranted;
        }
      }
    }
  }

  /** The indexed filter keeps order too. */
  lemma {:induction false} FilterIndexedOrdered(names: seq<string>, results: seq<int>)
    requires |names| <= |results|
    ensures IsSubsequence(FilterIndexed(names, results), names)
  {
    if names != [] {
      FilterIndexedOrdered(names[1..], results[1..]);
      var rest := FilterIndexed(names[1..], results[1..]);
      if results[0] != PermissionGranted {
        assert FilterIndexed(names, results) == [names[0]] + rest;
        assert ([names[0]] + rest)[1..] == rest;
      } else {
        assert FilterIndexed(names, results) == rest;
      }
    }
  }

  /** The indexes of `names` that hold `x` and whose result is not "granted". */
  ghost function DeniedAt(names: seq<string>, results: seq<int>, x: string): set<int>
    requires |names| <= |results|
  {
    set i | 0 <= i < |names| && names[i] == x && results[i] != PermissionGranted
  }

  /** Some element of a non-empty set of indexes. */
  ghost function PickOne(a: set<int>): (k: int)
    requires |a| > 0
    ensures k in a
  {
    assert exists k :: k in a by {
      if forall k :: k !in a {
        assert false;
      }
    }
    var k :| k in a; k
  }

  /** Shifting a set of indexes by one keeps its size. */
  lemma {:induction false} ShiftedSize(a: set<int>)
    ensures |set i | i in a :: i + 1| == |a|
    decreases a
  {
    if |a| > 0 {
      var k := PickOne(a);
      var all := set i | i in a :: i + 1;
      var smaller := set i | i in a - {k} :: i + 1;
      ShiftedSize(a - {k});
      assert k + 1 !in smaller;
      assert all == smaller + {k + 1} by {
        forall j | j in all ensures j in smaller || j == k + 1 {
          var i :| i in a && j == i + 1;
          if i != k {
            assert i in a - {k};
          }
        }
      }
    }
  }

  /** The denied indexes of a non-empty list: possibly index 0, and the tail's indexes
      moved up by one. */
  lemma DeniedAtSplit(names: seq<string>, results: seq<int>, x: string)
    requires 0 < |names| <= |results|
    ensures DeniedAt(names, results, x) ==
      (if names[0] == x && results[0] != PermissionGranted then {0} else {}) +
      (set i | i in DeniedAt(names[1..], results[1..], x) :: i + 1)
  {
    var tail := DeniedAt(names[1..], results[1..], x);
    forall i | i in DeniedAt(names, results, x) && i > 0
      ensures i in (set j | j in tail :: j + 1)
    {
      assert i - 1 in tail;
    }
  }

  /** The indexed filter keeps a name once for every index that holds it with a result
      other than "granted". */
  lemma {:induction false} FilterIndexedCount(names: seq<string>, results: seq<int>, x: string)
    requires |names| <= |results|
    ensures multiset(FilterIndexed(names, results))[x] == |DeniedAt(names, results, x)|
  {
    if names == [] {
      assert DeniedAt(names, results, x) == {};
    } else {
      FilterIndexedCount(names[1..], results[1..], x);
      var tail := DeniedAt(names[1..], results[1..], x);
      var shifted := set i | i in tail :: i + 1;
      DeniedAtSplit(names, results, x);
      ShiftedSize(tail);
      assert 0 !in shifted;
      var rest := FilterIndexed(names[1..], results[1..]);
      var head := if results[0] != PermissionGranted then [names[0]] else [];
      assert FilterIndexed(names, results) == head + rest;
      assert multiset(head + rest) == multiset(head) + multiset(rest);
    }
  }

  /** `idx` lists, in increasing order, every index of `names` whose result is not
      "granted" and no other, and `d` holds the names at those indexes. */
  ghost predicate DeniedIndexes(idx: seq<int>, d: seq<string>, names: seq<string>, results: seq<int>)
    requires |names| <= |results|
  {
    |idx| == |d| &&
    (forall k :: 0 <= k < |idx| ==>
       0 <= idx[k] < |names| && d[k] == names[idx[k]] && results[idx[k]] != PermissionGranted) &&
    (forall k, l :: 0 <= k < l < |idx| ==> idx[k] < idx[l]) &&
    (forall i :: 0 <= i < |names| && results[i] != PermissionGranted ==> i in idx)
  }

  /** The tail's denied indexes, moved up by one, are the denied indexes of `names` past
      index 0. */
  lemma ShiftedIndexes(names: seq<string>, results: seq<int>, tail: seq<int>, rest: seq<string>)
    returns (up: seq<int>)
    requires 0 < |names| <= |results|
    requires DeniedIndexes(tail, rest, names[1..], results[1..])
    ensures |up| == |tail|
    ensures forall k :: 0 <= k < |up| ==>
      1 <= up[k] < |names| && rest[k] == names[up[k]] && results[up[k]] != PermissionGranted
    ensures forall k, l :: 0 <= k < l < |up| ==> up[k] < up[l]
    ensures forall i :: 1 <= i < |names| && results[i] != PermissionGranted ==> i in up
  {
    up := seq(|tail|, k requires 0 <= k < |tail| => tail[k] + 1);
    forall k | 0 <= k < |up|
      ensures 1 <= up[k] < |names| && rest[k] == names[up[k]] && results[up[k]] != PermissionGranted
    {
      assert names[1..][tail[k]] == names[tail[k] + 1];
      assert results[1..][tail[k]] == results[tail[k] + 1];
    }
    forall i | 1 <= i < |names| && results[i] != PermissionGranted ensures i in up {
      assert results[1..][i - 1] == results[i];
      var k :| 0 <= k < |tail| && tail[k] == i - 1;
      assert up[k] == i;
    }
  }

  /** Index 0, when denied, goes in front of the denied indexes past it. */
  lemma PrependedIndexes(names: seq<string>, results: seq<int>, up: seq<int>, rest: seq<string>)
    returns (idx: seq<int>)
    requires 0 < |names| <= |results| && results[0] != PermissionGranted
    requires |up| == |rest|
    requires forall k :: 0 <= k < |up| ==>
      1 <= up[k] < |names| && rest[k] == names[up[k]] && results[up[k]] != PermissionGranted
    requires forall k, l :: 0 <= k < l < |up| ==> up[k] < up[l]
    requires forall i :: 1 <= i < |names| && results[i] != PermissionGranted ==> i in up
    ensures DeniedIndexes(idx, [names[0]] + rest, names, results)
  {
    idx := [0] + up;
    var d := [names[0]] + rest;
    forall k | 0 <= k < |idx|
      ensures 0 <= idx[k] < |names| && d[k] == names[idx[k]] && results[idx[k]] != PermissionGranted
    {
      if k > 0 {
        assert idx[k] == up[k - 1] && d[k] == rest[k - 1];
      }
    }
    forall k, l | 0 <= k < l < |idx| ensures idx[k] < idx[l] {
      assert idx[l] == up[l - 1];
      if k > 0 {
        assert idx[k] == up[k - 1];
      }
    }
    forall i | 0 <= i < |names| && results[i] != PermissionGranted ensures i in idx {
      if i > 0 {
        assert i in up;
      }
    }
  }

  /** A granted index 0 adds nothing to the denied indexes past it. */
  lemma SkippedIndexes(names: seq<string>, results: seq<int>, up: seq<int>, rest: seq<string>)
    requires 0 < |names| <= |results| && results[0] == PermissionGranted
    requires |up| == |rest|
    requires forall k :: 0 <= k < |up| ==>
      1 <= up[k] < |names| && rest[k] == names[up[k]] && results[up[k]] != PermissionGranted
    requires forall k, l :: 0 <= k < l < |up| ==> up[k] < up[l]
    requires forall i :: 1 <= i < |names| && results[i] != PermissionGranted ==> i in up
    ensures DeniedIndexes(up, rest, names, results)
  {
  }

  /** The indexes kept by the indexed filter, one per entry of its result: the result is
      the names at the non-granted indexes, taken in index order. */
  lemma {:induction false} FilterIndexedPositions(names: seq<string>, results: seq<int>) returns (idx: seq<int>)
    requires |names| <= |results|
    ensures DeniedIndexes(idx, FilterIndexed(names, results), names, results)
  {
    if names == [] {
      idx := [];
    } else {
      var tail := FilterIndexedPositions(names[1..], results[1..]);
      var rest := FilterIndexed(names[1..], results[1..]);
      var up := ShiftedIndexes(names, results, tail, rest);
      if results[0] != PermissionGranted {
        idx := PrependedIndexes(names, results, up, rest);
        assert FilterIndexed(names, results) == [names[0]] + rest;
      } else {
        SkippedIndexes(names, results, up, rest);
        idx := up;
        assert FilterIndexed(names, results) == rest;
      }
    }
  }

  /** When the results say "granted" exactly for the names `keep` rejects, the indexed
      filter and the plain filter give the same list. */
  lemma {:induction false} FilterIndexedAgrees(names: seq<string>, results: seq<int>, keep: string -> bool)
    requires |names| <= |results|
    requires forall i :: 0 <= i < |names| ==> (results[i] != PermissionGranted <==> keep(names[i]))
    ensures FilterIndexed(names, results) == Filter(names, keep)
  {
    if names != [] {
      assert forall i :: 0 <= i < |names[1..]| ==> names[1..][i] == names[i + 1] && results[1..][i] == results[i + 1];
      FilterIndexedAgrees(names[1..], results[1..], keep);
    }
  }
}
