/** `Array.prototype.sort` on a copy, as the match and player lists use it.  The language
    standard makes that sort stable, and every comparator in these lists compares one integer
    key (`(a, b) => key(a) - key(b)` or a sign-equivalent form), so the sort is modelled as a
    stable insertion sort by that key.  The list modules prove that their comparators agree in
    sign with the key they pass here. */
module Sorting {
  import opened Seqs

  /** Keys never decrease from left to right. */
  ghost predicate SortedBy<T>(s: seq<T>, key: T -> int)
  {
    forall i, j :: 0 <= i < j < |s| ==> key(s[i]) <= key(s[j])
  }

  /** Keys strictly increase from left to right. */
  ghost predicate StrictlySortedBy<T>(s: seq<T>, key: T -> int)
  {
    forall i, j :: 0 <= i < j < |s| ==> key(s[i]) < key(s[j])
  }

  /** No two positions of `s` carry the same key. */
  ghost predicate DistinctKeys<T>(s: seq<T>, key: T -> int)
  {
    forall i, j :: 0 <= i < j < |s| ==> key(s[i]) != key(s[j])
  }

  /** The elements whose key is `k`. */
  function KeyIs<T>(key: T -> int, k: int): T -> bool
  {
    x => key(x) == k
  }

  /** Places `x` in front of the first element whose key is not smaller, so that `x` stays
      ahead of the elements with an equal key. */
  function Insert<T(!new)>(x: T, s: seq<T>, key: T -> int): (r: seq<T>)
    ensures |r| == |s| + 1
  {
    if s == [] then [x]
    else if key(x) <= key(s[0]) then [x] + s
    else [s[0]] + Insert(x, s[1..], key)
  }

  /** Inserting adds `x` and loses nothing. */
  lemma {:induction false} InsertPermutes<T(!new)>(x: T, s: seq<T>, key: T -> int)
    ensures multiset(Insert(x, s, key)) == multiset(s) + multiset{x}
  {
    if s != [] && key(x) > key(s[0]) {
      InsertPermutes(x, s[1..], key);
      assert s == [s[0]] + s[1..];
    }
  }

  /** Inserting an element no smaller than `b` into elements no smaller than `b` keeps every
      element no smaller than `b`. */
  lemma {:induction false} InsertLowerBound<T(!new)>(x: T, s: seq<T>, key: T -> int, b: int)
    requires b <= key(x)
    requires forall i :: 0 <= i < |s| ==> b <= key(s[i])
    ensures forall i :: 0 <= i < |Insert(x, s, key)| ==> b <= key(Insert(x, s, key)[i])
  {
    if s != [] && key(x) > key(s[0]) {
      InsertLowerBound(x, s[1..], key, b);
    }
  }

  lemma {:induction false} InsertSorted<T(!new)>(x: T, s: seq<T>, key: T -> int)
    requires SortedBy(s, key)
    ensures SortedBy(Insert(x, s, key), key)
  {
    if s != [] && key(x) > key(s[0]) {
      var rest := Insert(x, s[1..], key);
      SortedTail(s, key);
      InsertSorted(x, s[1..], key);
      InsertLowerBound(x, s[1..], key, key(s[0]));
      var r := [s[0]] + rest;
      forall i, j | 0 <= i < j < |r| ensures key(r[i]) <= key(r[j]) {
        assert r[j] == rest[j - 1];
        if i > 0 {
          assert r[i] == rest[i - 1];
        }
      }
    }
  }

  /** The copy-sort: each element in turn inserted into the sorted rest. */
  function Sort<T(!new)>(s: seq<T>, key: T -> int): (r: seq<T>)
    ensures |r| == |s|
  {
    if s == [] then [] else Insert(s[0], Sort(s[1..], key), key)
  }

  /** The sorted copy is a permutation of the input. */
  lemma {:induction false} SortPermutes<T(!new)>(s: seq<T>, key: T -> int)
    ensures multiset(Sort(s, key)) == multiset(s)
  {
    if s != [] {
      SortPermutes(s[1..], key);
      InsertPermutes(s[0], Sort(s[1..], key), key);
      assert s == [s[0]] + s[1..];
    }
  }

  lemma {:induction false} SortSorted<T(!new)>(s: seq<T>, key: T -> int)
    ensures SortedBy(Sort(s, key), key)
  {
    if s != [] {
      SortSorted(s[1..], key);
      InsertSorted(s[0], Sort(s[1..], key), key);
    }
  }

  lemma {:induction false} InsertStable<T(!new)>(x: T, s: seq<T>, key: T -> int, k: int)
    ensures Filter(Insert(x, s, key), KeyIs(key, k))
         == (if key(x) == k then [x] else []) + Filter(s, KeyIs(key, k))
  {
    var p := KeyIs(key, k);
    FilterSingle(x, p);
    if s == [] {
      assert Insert(x, s, key) == [x];
    } else if key(x) <= key(s[0]) {
      assert Insert(x, s, key) == [x] + s;
      FilterAppend([x], s, p);
    } else {
      var rest := Insert(x, s[1..], key);
      assert Insert(x, s, key) == [s[0]] + rest;
      InsertStable(x, s[1..], key, k);
      FilterAppend([s[0]], rest, p);
      FilterSingle(s[0], p);
    }
  }

  /** Stability: among the elements sharing one key, the sort keeps the original order. */
  lemma {:induction false} SortStable<T(!new)>(s: seq<T>, key: T -> int, k: int)
    ensures Filter(Sort(s, key), KeyIs(key, k)) == Filter(s, KeyIs(key, k))
  {
    if s != [] {
      InsertStable(s[0], Sort(s[1..], key), key, k);
      SortStable(s[1..], key, k);
    }
  }

  lemma {:induction false} DistinctKeysFilter<T(!new)>(s: seq<T>, key: T -> int, k: int)
    requires DistinctKeys(s, key)
    ensures |Filter(s, KeyIs(key, k))| <= 1
  {
    if s != [] {
      if key(s[0]) == k {
        assert forall y :: y in s[1..] ==> !KeyIs(key, k)(y) by {
          forall y | y in s[1..] ensures key(y) != k {
            var j :| 0 <= j < |s[1..]| && s[1..][j] == y;
            assert s[j + 1] == y;
          }
        }
        FilterNone(s[1..], KeyIs(key, k));
      } else {
        DistinctKeysFilter(s[1..], key, k);
      }
    }
  }

  /** With pairwise distinct keys the sorted copy is strictly increasing. */
  lemma SortStrict<T(!new)>(s: seq<T>, key: T -> int)
    requires DistinctKeys(s, key)
    ensures StrictlySortedBy(Sort(s, key), key)
  {
    var r := Sort(s, key);
    SortSorted(s, key);
    forall i, j | 0 <= i < j < |r| ensures key(r[i]) < key(r[j]) {
      if key(r[i]) == key(r[j]) {
        var k := key(r[i]);
        FilterTwo(r, KeyIs(key, k), i, j);
        SortStable(s, key, k);
        DistinctKeysFilter(s, key, k);
        assert false;
      }
    }
  }

  /** A strictly sorted sequence is the only sorted arrangement of its elements. */
  lemma {:induction false} SortedUnique<T(!new)>(x: seq<T>, y: seq<T>, key: T -> int)
    requires StrictlySortedBy(x, key) && SortedBy(y, key)
    requires multiset(x) == multiset(y)
    ensures x == y
  {
    assert |x| == |multiset(x)| == |multiset(y)| == |y|;
    if x != [] {
      SameHead(x, y, key);
      TailMultiset(x);
      TailMultiset(y);
      StrictTail(x, key);
      SortedTail(y, key);
      SortedUnique(x[1..], y[1..], key);
    }
  }

  lemma TailMultiset<T>(x: seq<T>)
    requires x != []
    ensures multiset(x[1..]) == multiset(x) - multiset{x[0]}
  {
    assert x == [x[0]] + x[1..];
  }

  lemma {:induction false} StrictTail<T>(x: seq<T>, key: T -> int)
    requires StrictlySortedBy(x, key) && x != []
    ensures StrictlySortedBy(x[1..], key)
  {
    forall i, j | 0 <= i < j < |x[1..]| ensures key(x[1..][i]) < key(x[1..][j]) {
      assert x[1..][i] == x[i + 1] && x[1..][j] == x[j + 1];
    }
  }

  lemma {:induction false} SortedTail<T>(y: seq<T>, key: T -> int)
    requires SortedBy(y, key) && y != []
    ensures SortedBy(y[1..], key)
  {
    forall i, j | 0 <= i < j < |y[1..]| ensures key(y[1..][i]) <= key(y[1..][j]) {
      assert y[1..][i] == y[i + 1] && y[1..][j] == y[j + 1];
    }
  }

  /** Both arrangements start with the element of least key. */
  lemma SameHead<T(!new)>(x: seq<T>, y: seq<T>, key: T -> int)
    requires StrictlySortedBy(x, key) && SortedBy(y, key)
    requires multiset(x) == multiset(y) && x != [] && y != []
    ensures x[0] == y[0]
  {
    assert x[0] in multiset(y);
    var j :| 0 <= j < |y| && y[j] == x[0];
    assert y[0] in multiset(x);
    var i :| 0 <= i < |x| && x[i] == y[0];
    assert key(y[0]) <= key(y[j]);
    assert key(x[0]) <= key(x[i]);
  }

  /** When all keys differ, sorting by the negated key gives the reverse of sorting by the key. */
  lemma SortReverse<T(!new)>(s: seq<T>, key: T -> int, negated: T -> int)
    requires forall x :: negated(x) == -key(x)
    requires DistinctKeys(s, key)
    ensures Sort(s, negated) == Reverse(Sort(s, key))
  {
    var up := Sort(s, key);
    var back := Reverse(up);
    SortPermutes(s, key);
    SortPermutes(s, negated);
    ReverseMultiset(up);
    SortSorted(s, key);
    assert SortedBy(back, negated);
    SortStrict(s, negated);
    SortedUnique(Sort(s, negated), back, negated);
  }
}
