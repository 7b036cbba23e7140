/** Sequence building blocks of the feed view: `Array.prototype.filter`,
    subsequences, and the stable descending sort that `Array.prototype.sort`
    performs with a comparator of the shape `(a, b) => key(b) - key(a)`
    (the ECMAScript sort is stable since the 2019 edition). */
module Seqs {

  // ---------------------------------------------------------------------------
  // Filtering
  // ---------------------------------------------------------------------------

  /** The elements of `s` that satisfy `keep`, in their original order. */
  function Filter<T>(s: seq<T>, keep: T -> bool): (r: seq<T>)
    ensures |r| <= |s|
    ensures forall i :: 0 <= i < |r| ==> r[i] in s && keep(r[i])
    ensures forall i :: 0 <= i < |s| && keep(s[i]) ==> s[i] in r
  {
    if s == [] then []
    else
      assert s == [s[0]] + s[1..];
      (if keep(s[0]) then [s[0]] else []) + Filter(s[1..], keep)
  }

  /** One step of `Filter` on a sequence written as head and tail. */
  lemma FilterCons<T>(x: T, s: seq<T>, keep: T -> bool)
    ensures Filter([x] + s, keep) == (if keep(x) then [x] else []) + Filter(s, keep)
  {
    assert ([x] + s)[1..] == s;
  }

  lemma {:induction false} FilterConcat<T>(a: seq<T>, b: seq<T>, keep: T -> bool)
    ensures Filter(a + b, keep) == Filter(a, keep) + Filter(b, keep)
  {
    if a != [] {
      FilterConcat(a[1..], b, keep);
      assert a + b == [a[0]] + (a[1..] + b);
      FilterCons(a[0], a[1..] + b, keep);
      FilterCons(a[0], a[1..], keep);
      assert [a[0]] + a[1..] == a;
    } else {
      assert a + b == b;
    }
  }

  /** Each element occurs in the filtered sequence as often as in the input
      when it is kept, and not at all otherwise. */
  lemma {:induction false} FilterMultiset<T>(s: seq<T>, keep: T -> bool)
    ensures forall x :: multiset(Filter(s, keep))[x] == if keep(x) then multiset(s)[x] else 0
  {
    if s != [] {
      FilterMultiset(s[1..], keep);
      assert s == [s[0]] + s[1..];
    }
  }

  /** Filtering with a predicate every element meets changes nothing. */
  lemma {:induction false} FilterAll<T>(s: seq<T>, keep: T -> bool)
    requires forall x :: x in s ==> keep(x)
    ensures Filter(s, keep) == s
  {
    if s != [] {
      FilterAll(s[1..], keep);
      assert s == [s[0]] + s[1..];
    }
  }

  /** Filters with predicates that agree on the elements give the same result. */
  lemma {:induction false} FilterExt<T>(s: seq<T>, f: T -> bool, g: T -> bool)
    requires forall x :: x in s ==> f(x) == g(x)
    ensures Filter(s, f) == Filter(s, g)
  {
    if s != [] {
      FilterExt(s[1..], f, g);
    }
  }

  /** Two filters in a row are one filter with the conjunction. */
  lemma {:induction false} FilterFilter<T>(s: seq<T>, f: T -> bool, g: T -> bool, both: T -> bool)
    requires forall x :: x in s ==> both(x) == (f(x) && g(x))
    ensures Filter(Filter(s, f), g) == Filter(s, both)
  {
    if s != [] {
      assert s == [s[0]] + s[1..];
      assert s[0] in s;
      assert forall x :: x in s[1..] ==> x in s;
      FilterFilter(s[1..], f, g, both);
      FilterCons(s[0], s[1..], f);
      FilterCons(s[0], s[1..], both);
      if f(s[0]) {
        FilterCons(s[0], Filter(s[1..], f), g);
      } else {
        assert Filter(s, f) == Filter(s[1..], f);
        assert Filter(s, both) == Filter(s[1..], both);
      }
    }
  }

  // ---------------------------------------------------------------------------
  // Subsequences and duplicates
  // ---------------------------------------------------------------------------

  /** `a` is obtained from `b` by deleting elements, keeping the order of the
      rest. */
  predicate IsSubsequence<T(==)>(a: seq<T>, b: seq<T>)
    decreases |b|
  {
    a == [] ||
    (b != [] && ((a[0] == b[0] && IsSubsequence(a[1..], b[1..])) || IsSubsequence(a, b[1..])))
  }

  lemma {:induction false} FilterIsSubsequence<T>(s: seq<T>, keep: T -> bool)
    ensures IsSubsequence(Filter(s, keep), s)
  {
    if s != [] {
      FilterIsSubsequence(s[1..], keep);
      assert s == [s[0]] + s[1..];
      FilterCons(s[0], s[1..], keep);
      var a := Filter(s, keep);
      if keep(s[0]) {
        assert a[0] == s[0] && a[1..] == Filter(s[1..], keep);
      } else {
        assert a == Filter(s[1..], keep);
      }
    }
  }

  predicate NoDup<T(==)>(s: seq<T>) {
    forall i, j :: 0 <= i < j < |s| ==> s[i] != s[j]
  }

  /** Deleting elements cannot create a duplicate. */
  lemma {:induction false} FilterNoDup<T>(s: seq<T>, keep: T -> bool)
    requires NoDup(s)
    ensures NoDup(Filter(s, keep))
  {
    if s != [] {
      var t := Filter(s[1..], keep);
      FilterNoDup(s[1..], keep);
      if keep(s[0]) {
        assert s[0] !in s[1..] by {
          forall j | 0 <= j < |s[1..]| ensures s[1..][j] != s[0] {
            assert s[1..][j] == s[j + 1];
          }
        }
        var r := [s[0]] + t;
        forall i, j | 0 <= i < j < |r| ensures r[i] != r[j] {
          assert r[j] == t[j - 1];
          if i > 0 {
            assert r[i] == t[i - 1];
          }
        }
      }
    }
  }

  /** A duplicate-free sequence has as many distinct elements as positions. */
  lemma {:induction false} NoDupCard<T>(s: seq<T>)
    requires NoDup(s)
    ensures |set x | x in s| == |s|
  {
    if s != [] {
      NoDupCard(s[1..]);
      var rest := set x | x in s[1..];
      assert (set x | x in s) == rest + {s[0]};
      assert s[0] !in rest by {
        forall j | 0 <= j < |s[1..]| ensures s[1..][j] != s[0] {
          assert s[1..][j] == s[j + 1];
        }
      }
    }
  }

  // ---------------------------------------------------------------------------
  // Stable sort in descending key order
  // ---------------------------------------------------------------------------

  /** Keys never increase along `s`. */
  predicate SortedDesc<T>(s: seq<T>, key: T -> int) {
    forall i, j :: 0 <= i < j < |s| ==> key(s[i]) >= key(s[j])
  }

  /** The elements whose key equals `k`. */
  function KeyIs<T>(key: T -> int, k: int): T -> bool {
    x => key(x) == k
  }

  /** An element whose key bounds a sorted sequence can go in front of it. */
  lemma ConsSorted<T>(y: T, t: seq<T>, key: T -> int)
    requires SortedDesc(t, key)
    requires forall j :: 0 <= j < |t| ==> key(y) >= key(t[j])
    ensures SortedDesc([y] + t, key)
  {
    var r := [y] + t;
    forall i, j | 0 <= i < j < |r| ensures key(r[i]) >= key(r[j]) {
      assert r[j] == t[j - 1];
      if i > 0 {
        assert r[i] == t[i - 1];
      }
    }
  }

  /** Puts `x` in front of the first element whose key is not larger, so `x`
      comes before the elements with an equal key. */
  function Insert<T>(x: T, s: seq<T>, key: T -> int): (r: seq<T>)
    requires SortedDesc(s, key)
    ensures |r| == |s| + 1
    ensures SortedDesc(r, key)
    ensures multiset(r) == multiset(s) + multiset{x}
  {
    if s == [] || key(x) >= key(s[0]) then
      ConsSorted(x, s, key);
      [x] + s
    else
      var t := Insert(x, s[1..], key);
      MultisetBound(s[0], x, s[1..], t, key);
      ConsSorted(s[0], t, key);
      assert s == [s[0]] + s[1..];
      [s[0]] + t
  }

  /** A bound on the keys of `u` and on `key(x)` bounds every element of a
      permutation of `u` plus `x`. */
  lemma MultisetBound<T>(y: T, x: T, u: seq<T>, t: seq<T>, key: T -> int)
    requires multiset(t) == multiset(u) + multiset{x}
    requires key(y) >= key(x)
    requires forall j :: 0 <= j < |u| ==> key(y) >= key(u[j])
    ensures forall j :: 0 <= j < |t| ==> key(y) >= key(t[j])
  {
    forall j | 0 <= j < |t| ensures key(y) >= key(t[j]) {
      assert t[j] in multiset(t);
      if t[j] != x {
        assert t[j] in multiset(u);
        var k :| 0 <= k < |u| && u[k] == t[j];
      }
    }
  }

  /** Insertion sort, inserting from the back so that earlier elements stay in
      front of later ones with the same key. */
  function SortDesc<T>(s: seq<T>, key: T -> int): (r: seq<T>)
    ensures |r| == |s|
    ensures SortedDesc(r, key)
    ensures multiset(r) == multiset(s)
  {
    if s == [] then []
    else
      assert s == [s[0]] + s[1..];
      Insert(s[0], SortDesc(s[1..], key), key)
  }

  lemma {:induction false} InsertStable<T>(x: T, s: seq<T>, key: T -> int, k: int)
    requires SortedDesc(s, key)
    ensures Filter(Insert(x, s, key), KeyIs(key, k)) == Filter([x] + s, KeyIs(key, k))
  {
    if s != [] && key(x) < key(s[0]) {
      var eq := KeyIs(key, k);
      var t := s[1..];
      InsertStable(x, t, key, k);
      FilterCons(s[0], Insert(x, t, key), eq);
      FilterCons(x, t, eq);
      FilterCons(x, s, eq);
      FilterCons(s[0], t, eq);
      assert [s[0]] + t == s;
    }
  }

  /** Stability: among the elements sharing any one key, the sort keeps the
      input order. */
  lemma {:induction false} SortStable<T>(s: seq<T>, key: T -> int, k: int)
    ensures Filter(SortDesc(s, key), KeyIs(key, k)) == Filter(s, KeyIs(key, k))
  {
    if s != [] {
      var eq := KeyIs(key, k);
      var t := SortDesc(s[1..], key);
      SortStable(s[1..], key, k);
      InsertStable(s[0], t, key, k);
      FilterCons(s[0], t, eq);
      FilterCons(s[0], s[1..], eq);
      assert [s[0]] + s[1..] == s;
    }
  }

  /** If `b` orders the key class of `a`'s head as `a` does, `b`'s head has a
      key at least as large. */
  lemma HeadKeyBound<T>(a: seq<T>, b: seq<T>, key: T -> int)
    requires a != [] && SortedDesc(b, key)
    requires Filter(a, KeyIs(key, key(a[0]))) == Filter(b, KeyIs(key, key(a[0])))
    ensures b != [] && key(b[0]) >= key(a[0])
  {
    var eq := KeyIs(key, key(a[0]));
    assert a == [a[0]] + a[1..];
    FilterCons(a[0], a[1..], eq);
    var f := Filter(b, eq);
    assert f[0] in b && eq(f[0]);
    var j :| 0 <= j < |b| && b[j] == f[0];
  }

  /** Equal filterings of sequences with the same head have equal
      filterings of the tails. */
  lemma TailsAgree<T>(a: seq<T>, b: seq<T>, keep: T -> bool)
    requires a != [] && b != [] && a[0] == b[0]
    requires Filter(a, keep) == Filter(b, keep)
    ensures Filter(a[1..], keep) == Filter(b[1..], keep)
  {
    var fa, fb := Filter(a[1..], keep), Filter(b[1..], keep);
    if keep(a[0]) {
      assert Filter(a, keep) == [a[0]] + fa;
      assert Filter(b, keep) == [a[0]] + fb;
      assert fa == Filter(a, keep)[1..];
    } else {
      assert Filter(a, keep) == fa;
      assert Filter(b, keep) == fb;
    }
  }

  /** Sortedness and per-key order determine a sequence: two sorted sequences
      that agree on the order of every key class are equal. */
  lemma {:induction false} SortedStableUnique<T>(a: seq<T>, b: seq<T>, key: T -> int)
    requires SortedDesc(a, key) && SortedDesc(b, key)
    requires forall k :: Filter(a, KeyIs(key, k)) == Filter(b, KeyIs(key, k))
    ensures a == b
    decreases |a| + |b|
  {
    if a != [] {
      HeadKeyBound(a, b, key);
    }
    if b != [] {
      HeadKeyBound(b, a, key);
    }
    if a != [] && b != [] {
      var eq := KeyIs(key, key(a[0]));
      assert eq(a[0]) && eq(b[0]);
      assert Filter(a, eq)[0] == a[0];
      assert Filter(b, eq)[0] == b[0];
      forall k ensures Filter(a[1..], KeyIs(key, k)) == Filter(b[1..], KeyIs(key, k)) {
        TailsAgree(a, b, KeyIs(key, k));
      }
      SortedStableUnique(a[1..], b[1..], key);
      assert a == [a[0]] + a[1..];
      assert b == [b[0]] + b[1..];
    }
  }

  /** `SortDesc` is the one sequence that is sorted and keeps every key class
      in input order. */
  lemma SortDescCharacterized<T>(s: seq<T>, r: seq<T>, key: T -> int)
    requires SortedDesc(r, key)
    requires forall k :: Filter(r, KeyIs(key, k)) == Filter(s, KeyIs(key, k))
    ensures r == SortDesc(s, key)
  {
    forall k ensures Filter(r, KeyIs(key, k)) == Filter(SortDesc(s, key), KeyIs(key, k)) {
      SortStable(s, key, k);
    }
    SortedStableUnique(r, SortDesc(s, key), key);
  }

  /** When every element's key is at most `key(x)`, the sort puts `x` first. */
  lemma SortDescLeader<T>(x: T, s: seq<T>, key: T -> int)
    requires forall y :: y in s ==> key(y) <= key(x)
    ensures SortDesc([x] + s, key) == [x] + SortDesc(s, key)
  {
    var t := SortDesc(s, key);
    assert ([x] + s)[1..] == s;
    if t != [] {
      assert t[0] in multiset(t);
      assert t[0] in s;
    }
  }
}
