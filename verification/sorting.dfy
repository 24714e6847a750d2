/** Python's `list.sort(key=..., reverse=True)`: a stable sort into non-increasing key order.
    Elements with equal keys keep their original relative order. The bot sorts detections by
    confidence and clusters by density score this way. */
module Sorting {

  ghost predicate SortedDesc<T>(s: seq<T>, key: T -> real) {
    forall i, j :: 0 <= i < j < |s| ==> key(s[i]) >= key(s[j])
  }

  /** The elements of `s` whose key equals `c`, in their order in `s`. Stability of a sort is
      the statement that this subsequence is the same before and after sorting, for every `c`. */
  function WithKey<T>(s: seq<T>, key: T -> real, c: real): (r: seq<T>)
    ensures |r| <= |s|
  {
    if s == [] then []
    else (if key(s[0]) == c then [s[0]] else []) + WithKey(s[1..], key, c)
  }

  /** Inserts `x`, which came before every element of `s` in the input, in front of the first
      element whose key is not greater than its own. */
  function Insert<T>(x: T, s: seq<T>, key: T -> real): (r: seq<T>)
    ensures |r| == |s| + 1
  {
    if s == [] || key(s[0]) <= key(x) then [x] + s
    else [s[0]] + Insert(x, s[1..], key)
  }

  function SortDesc<T>(s: seq<T>, key: T -> real): (r: seq<T>)
    ensures |r| == |s|
  {
    if s == [] then [] else Insert(s[0], SortDesc(s[1..], key), key)
  }

  lemma {:induction false} InsertSorted<T>(x: T, s: seq<T>, key: T -> real)
    requires SortedDesc(s, key)
    ensures SortedDesc(Insert(x, s, key), key)
  {
    if s == [] || key(s[0]) <= key(x) {
    } else {
      InsertSorted(x, s[1..], key);
      var t := Insert(x, s[1..], key);
      assert Insert(x, s, key) == [s[0]] + t;
      InsertMultiset(x, s[1..], key);
      forall k | 0 <= k < |t|
        ensures key(s[0]) >= key(t[k])
      {
        assert t[k] in multiset(t);
        if t[k] != x {
          assert t[k] in multiset(s[1..]);
          var m :| 0 <= m < |s[1..]| && s[1..][m] == t[k];
          assert s[m + 1] == t[k];
        }
      }
    }
  }

  lemma {:induction false} SortDescSorted<T>(s: seq<T>, key: T -> real)
    ensures SortedDesc(SortDesc(s, key), key)
  {
    if s != [] {
      SortDescSorted(s[1..], key);
      InsertSorted(s[0], SortDesc(s[1..], key), key);
    }
  }

  lemma {:induction false} InsertMultiset<T>(x: T, s: seq<T>, key: T -> real)
    ensures multiset(Insert(x, s, key)) == multiset{x} + multiset(s)
  {
    if s == [] || key(s[0]) <= key(x) {
    } else {
      InsertMultiset(x, s[1..], key);
      assert s == [s[0]] + s[1..];
    }
  }

  /** The sort is a permutation of its input. */
  lemma {:induction false} SortDescPermutation<T>(s: seq<T>, key: T -> real)
    ensures multiset(SortDesc(s, key)) == multiset(s)
  {
    if s != [] {
      SortDescPermutation(s[1..], key);
      InsertMultiset(s[0], SortDesc(s[1..], key), key);
      assert s == [s[0]] + s[1..];
    }
  }

  lemma {:induction false} WithKeyConcat<T>(a: seq<T>, b: seq<T>, key: T -> real, c: real)
    ensures WithKey(a + b, key, c) == WithKey(a, key, c) + WithKey(b, key, c)
  {
    if a == [] {
      assert a + b == b;
    } else {
      var ab := a + b;
      assert ab[0] == a[0];
      assert ab[1..] == a[1..] + b;
      WithKeyConcat(a[1..], b, key, c);
      var h := if key(a[0]) == c then [a[0]] else [];
      assert WithKey(ab, key, c) == h + WithKey(ab[1..], key, c);
      assert WithKey(a, key, c) == h + WithKey(a[1..], key, c);
    }
  }

  lemma {:induction false} WithKeyInsert<T>(x: T, s: seq<T>, key: T -> real, c: real)
    ensures WithKey(Insert(x, s, key), key, c) == WithKey([x], key, c) + WithKey(s, key, c)
  {
    if s == [] || key(s[0]) <= key(x) {
      WithKeyConcat([x], s, key, c);
    } else {
      WithKeyInsert(x, s[1..], key, c);
      WithKeyConcat([s[0]], Insert(x, s[1..], key), key, c);
      WithKeyConcat([s[0]], s[1..], key, c);
      assert [s[0]] + s[1..] == s;
    }
  }

  /** Stability: for every key value, the elements carrying it appear in the sorted output in
      the same order as in the input. */
  lemma {:induction false} SortDescStable<T>(s: seq<T>, key: T -> real, c: real)
    ensures WithKey(SortDesc(s, key), key, c) == WithKey(s, key, c)
  {
    if s != [] {
      SortDescStable(s[1..], key, c);
      WithKeyInsert(s[0], SortDesc(s[1..], key), key, c);
      WithKeyConcat([s[0]], s[1..], key, c);
      assert [s[0]] + s[1..] == s;
    }
  }

  /** Sorting an already sorted sequence leaves it unchanged. */
  lemma {:induction false} SortDescOfSorted<T>(s: seq<T>, key: T -> real)
    requires SortedDesc(s, key)
    ensures SortDesc(s, key) == s
  {
    if s != [] {
      SortDescOfSorted(s[1..], key);
      assert SortDesc(s, key) == Insert(s[0], s[1..], key);
      if s[1..] != [] {
        assert key(s[1..][0]) <= key(s[0]);
      }
    }
  }

  /** The first element of the sorted sequence carries the greatest key. */
  lemma SortDescHeadIsMax<T>(s: seq<T>, key: T -> real)
    requires s != []
    ensures SortDesc(s, key)[0] in s
    ensures forall e :: e in s ==> key(SortDesc(s, key)[0]) >= key(e)
  {
    var r := SortDesc(s, key);
    SortDescSorted(s, key);
    SortDescPermutation(s, key);
    assert r[0] in multiset(r);
    forall e | e in s
      ensures key(r[0]) >= key(e)
    {
      assert e in multiset(r);
      var k :| 0 <= k < |r| && r[k] == e;
    }
  }
}
