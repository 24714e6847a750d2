/** Duplicate suppression (`remove_duplicates`): detections are sorted by confidence, highest
    first and stably, and then kept greedily: a detection is dropped when its centre lies closer
    than `minDistance` to the centre of a detection already kept. */
module Dedup {
  import opened Geometry
  import opened Detections
  import opened Sorting

  /** `distance < min_distance` between the centres of two detections. */
  predicate TooClose(a: Detection, b: Detection, minDistance: int) {
    CloserThan(a.pos, b.pos, minDistance)
  }

  predicate NearAny(d: Detection, kept: seq<Detection>, minDistance: int) {
    exists k :: k in kept && TooClose(d, k, minDistance)
  }

  /** The greedy pass over `s`, written as a recursion on prefixes: the result for `s` is the
      result for all but the last detection, extended by the last one unless it is a duplicate. */
  function Greedy(s: seq<Detection>, minDistance: int): (r: seq<Detection>)
    ensures |r| <= |s|
  {
    if s == [] then []
    else
      var kept := Greedy(s[..|s| - 1], minDistance);
      if NearAny(s[|s| - 1], kept, minDistance) then kept else kept + [s[|s| - 1]]
  }

  function RemoveDuplicates(objects: seq<Detection>, minDistance: int): seq<Detection> {
    if objects == [] then [] else Greedy(SortDesc(objects, Confidence), minDistance)
  }

  /** No two kept detections are closer than `minDistance`. */
  ghost predicate Separated(s: seq<Detection>, minDistance: int) {
    forall i, j :: 0 <= i < |s| && 0 <= j < |s| && i != j ==> !TooClose(s[i], s[j], minDistance)
  }

  /** `a` is `b` with some elements left out, order kept. */
  ghost predicate IsSubseq(a: seq<Detection>, b: seq<Detection>)
    decreases |b|
  {
    if a == [] then true
    else if b == [] then false
    else (a[|a| - 1] == b[|b| - 1] && IsSubseq(a[..|a| - 1], b[..|b| - 1]))
         || IsSubseq(a, b[..|b| - 1])
  }

  /** The loop of `remove_duplicates`, with the early `break` of its inner loop. */
  method RemoveDuplicatesLoop(objects: seq<Detection>, minDistance: int) returns (filtered: seq<Detection>)
    ensures filtered == RemoveDuplicates(objects, minDistance)
    ensures |filtered| <= |objects|
    ensures Separated(filtered, minDistance)
  {
    if |objects| == 0 {
      return [];
    }
    var sorted := SortDesc(objects, Confidence);
    filtered := [];
    var i := 0;
    while i < |sorted|
      invariant 0 <= i <= |sorted|
      invariant filtered == Greedy(sorted[..i], minDistance)
    {
      var obj := sorted[i];
      var isDuplicate := false;
      var j := 0;
      while j < |filtered|
        invariant 0 <= j <= |filtered|
        invariant !isDuplicate
        invariant forall k :: 0 <= k < j ==> !TooClose(obj, filtered[k], minDistance)
      {
        var dx := obj.pos.x - filtered[j].pos.x;
        var dy := obj.pos.y - filtered[j].pos.y;
        if minDistance > 0 && dx * dx + dy * dy < minDistance * minDistance {
          isDuplicate := true;
          break;
        }
        j := j + 1;
      }
      if isDuplicate {
        assert filtered[j] in filtered && TooClose(obj, filtered[j], minDistance);
      } else {
        forall k | k in filtered
          ensures !TooClose(obj, k, minDistance)
        {
          var m :| 0 <= m < |filtered| && filtered[m] == k;
        }
      }
      assert isDuplicate <==> NearAny(obj, filtered, minDistance);
      if !isDuplicate {
        filtered := filtered + [obj];
      }
      assert sorted[..i + 1][..i] == sorted[..i];
      i := i + 1;
    }
    assert sorted[..|sorted|] == sorted;
    GreedySeparated(sorted, minDistance);
  }

  lemma {:induction false} GreedyElements(s: seq<Detection>, minDistance: int)
    ensures forall k :: k in Greedy(s, minDistance) ==> k in s
  {
    if s != [] {
      var s' := s[..|s| - 1];
      GreedyElements(s', minDistance);
      forall k | k in s'
        ensures k in s
      {
        var i :| 0 <= i < |s'| && s'[i] == k;
        assert s[i] == k;
      }
    }
  }

  /** The kept detections are pairwise at least `minDistance` apart. */
  lemma {:induction false} GreedySeparated(s: seq<Detection>, minDistance: int)
    ensures Separated(Greedy(s, minDistance), minDistance)
  {
    if s != [] {
      var s' := s[..|s| - 1];
      var last := s[|s| - 1];
      var kept := Greedy(s', minDistance);
      GreedySeparated(s', minDistance);
      if !NearAny(last, kept, minDistance) {
        var r := kept + [last];
        forall i, j | 0 <= i < |r| && 0 <= j < |r| && i != j
          ensures !TooClose(r[i], r[j], minDistance)
        {
          if i == |kept| {
            assert r[j] in kept;
          } else if j == |kept| {
            assert r[i] in kept;
            SqDistSymmetric(r[i].pos, r[j].pos);
          }
        }
      }
    }
  }

  /** An earlier prefix keeps a prefix of what a longer prefix keeps. */
  lemma {:induction false} GreedyPrefix(s: seq<Detection>, n: nat, minDistance: int)
    requires n <= |s|
    ensures Greedy(s[..n], minDistance) <= Greedy(s, minDistance)
    decreases |s|
  {
    if n < |s| {
      var s' := s[..|s| - 1];
      assert s'[..n] == s[..n];
      GreedyPrefix(s', n, minDistance);
    } else {
      assert s[..n] == s;
    }
  }

  /** Every detection is kept, or lies closer than `minDistance` to a kept detection that comes
      before it. */
  lemma {:induction false} GreedyCovers(s: seq<Detection>, minDistance: int)
    ensures forall i :: 0 <= i < |s| ==>
      s[i] in Greedy(s, minDistance) ||
      exists j :: 0 <= j < i && s[j] in Greedy(s, minDistance) && TooClose(s[i], s[j], minDistance)
  {
    if s != [] {
      var n := |s| - 1;
      var s' := s[..n];
      var kept := Greedy(s', minDistance);
      var r := Greedy(s, minDistance);
      GreedyCovers(s', minDistance);
      GreedyPrefix(s, n, minDistance);
      assert kept <= r;
      forall i | 0 <= i < |s|
        ensures s[i] in r || exists j :: 0 <= j < i && s[j] in r && TooClose(s[i], s[j], minDistance)
      {
        if i < n {
          assert s'[i] == s[i];
          if s[i] !in r {
            assert s[i] !in kept;
            var j :| 0 <= j < i && s'[j] in kept && TooClose(s'[i], s'[j], minDistance);
            assert s[j] == s'[j];
          }
        } else if NearAny(s[n], kept, minDistance) {
          var k :| k in kept && TooClose(s[n], k, minDistance);
          GreedyElements(s', minDistance);
          var j :| 0 <= j < |s'| && s'[j] == k;
          assert s[j] == k;
        }
      }
    }
  }

  lemma {:induction false} GreedySubseq(s: seq<Detection>, minDistance: int)
    ensures IsSubseq(Greedy(s, minDistance), s)
  {
    if s != [] {
      var s' := s[..|s| - 1];
      var kept := Greedy(s', minDistance);
      GreedySubseq(s', minDistance);
      if !NearAny(s[|s| - 1], kept, minDistance) {
        var r := kept + [s[|s| - 1]];
        assert r[..|r| - 1] == kept;
      } else if kept != [] {
        assert IsSubseq(kept, s');
      }
    }
  }

  lemma {:induction false} GreedySorted(s: seq<Detection>, minDistance: int)
    requires SortedDesc(s, Confidence)
    ensures SortedDesc(Greedy(s, minDistance), Confidence)
  {
    if s != [] {
      var s' := s[..|s| - 1];
      var kept := Greedy(s', minDistance);
      GreedySorted(s', minDistance);
      GreedyElements(s', minDistance);
      if !NearAny(s[|s| - 1], kept, minDistance) {
        var r := kept + [s[|s| - 1]];
        forall i, j | 0 <= i < j < |r|
          ensures Confidence(r[i]) >= Confidence(r[j])
        {
          if j == |kept| {
            assert r[i] in s';
            var m :| 0 <= m < |s'| && s'[m] == r[i];
            assert s[m] == r[i];
          }
        }
      }
    }
  }

  lemma {:induction false} GreedyNonEmpty(s: seq<Detection>, minDistance: int)
    requires s != []
    ensures Greedy(s, minDistance) != []
    ensures Greedy(s, minDistance)[0] == s[0]
  {
    var s' := s[..|s| - 1];
    if s' != [] {
      GreedyNonEmpty(s', minDistance);
    }
  }

  lemma {:induction false} GreedyOfSeparated(s: seq<Detection>, minDistance: int)
    requires Separated(s, minDistance)
    ensures Greedy(s, minDistance) == s
  {
    if s != [] {
      var s' := s[..|s| - 1];
      assert Separated(s', minDistance);
      GreedyOfSeparated(s', minDistance);
      forall k | k in s'
        ensures !TooClose(s[|s| - 1], k, minDistance)
      {
        var j :| 0 <= j < |s'| && s'[j] == k;
        assert s[j] == k;
      }
    }
  }

  /** Empty input gives empty output; otherwise the output is non-empty, no longer than the input,
      and starts with the most confident detection. */
  lemma RemoveDuplicatesSize(objects: seq<Detection>, minDistance: int)
    ensures RemoveDuplicates(objects, minDistance) == [] <==> objects == []
    ensures |RemoveDuplicates(objects, minDistance)| <= |objects|
    ensures objects != [] ==>
      forall d :: d in objects ==> RemoveDuplicates(objects, minDistance)[0].confidence >= d.confidence
  {
    if objects != [] {
      var sorted := SortDesc(objects, Confidence);
      GreedyNonEmpty(sorted, minDistance);
      SortDescHeadIsMax(objects, Confidence);
    }
  }

  /** The kept detections are pairwise separated, every dropped detection lies closer than
      `minDistance` to a kept one of equal or higher confidence, and every kept one is an input. */
  lemma RemoveDuplicatesSeparatesAndCovers(objects: seq<Detection>, minDistance: int)
    ensures Separated(RemoveDuplicates(objects, minDistance), minDistance)
    ensures forall d :: d in RemoveDuplicates(objects, minDistance) ==> d in objects
    ensures forall d :: d in objects ==>
      d in RemoveDuplicates(objects, minDistance) ||
      exists k :: k in RemoveDuplicates(objects, minDistance)
                  && TooClose(d, k, minDistance) && k.confidence >= d.confidence
  {
    if objects != [] {
      var sorted := SortDesc(objects, Confidence);
      var r := Greedy(sorted, minDistance);
      GreedySeparated(sorted, minDistance);
      GreedyCovers(sorted, minDistance);
      GreedyElements(sorted, minDistance);
      SortDescSorted(objects, Confidence);
      SortDescPermutation(objects, Confidence);
      forall d | d in r
        ensures d in objects
      {
        assert d in multiset(sorted);
      }
      forall d | d in objects
        ensures d in r || exists k :: k in r && TooClose(d, k, minDistance) && k.confidence >= d.confidence
      {
        assert d in multiset(sorted);
        var i :| 0 <= i < |sorted| && sorted[i] == d;
        if d !in r {
          var j :| 0 <= j < i && sorted[j] in r && TooClose(sorted[i], sorted[j], minDistance);
          assert Confidence(sorted[j]) >= Confidence(sorted[i]);
        }
      }
    }
  }

  /** The output is a subsequence of the stably confidence-sorted input, and is itself ordered by
      non-increasing confidence. */
  lemma RemoveDuplicatesOrdered(objects: seq<Detection>, minDistance: int)
    ensures objects != [] ==> IsSubseq(RemoveDuplicates(objects, minDistance), SortDesc(objects, Confidence))
    ensures SortedDesc(RemoveDuplicates(objects, minDistance), Confidence)
  {
    if objects != [] {
      var sorted := SortDesc(objects, Confidence);
      GreedySubseq(sorted, minDistance);
      SortDescSorted(objects, Confidence);
      GreedySorted(sorted, minDistance);
    }
  }

  /** Removing duplicates a second time with the same distance changes nothing. */
  lemma RemoveDuplicatesIdempotent(objects: seq<Detection>, minDistance: int)
    ensures RemoveDuplicates(RemoveDuplicates(objects, minDistance), minDistance)
            == RemoveDuplicates(objects, minDistance)
  {
    var r := RemoveDuplicates(objects, minDistance);
    if r != [] {
      RemoveDuplicatesOrdered(objects, minDistance);
      RemoveDuplicatesSeparatesAndCovers(objects, minDistance);
      SortDescOfSorted(r, Confidence);
      GreedyOfSeparated(r, minDistance);
    }
  }
}
