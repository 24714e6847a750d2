/** The positions at which a condition holds, in increasing order: the index list behind a
    Python list comprehension or filtering loop, used to state that a filtered list keeps the
    order and the multiplicity of its source. */
module Indexing {

  /** The positions of the `true` entries of `flags`, each once, in increasing order. */
  function Positions(flags: seq<bool>): (r: seq<nat>)
    ensures forall j: nat :: j in r <==> j < |flags| && flags[j]
    ensures forall k :: 0 <= k < |r| ==> r[k] < |flags|
  {
    if flags == [] then []
    else
      var k := |flags| - 1;
      var front := Positions(flags[..k]);
      assert forall j :: 0 <= j < k ==> flags[..k][j] == flags[j];
      front + (if flags[k] then [k] else [])
  }

  /** Positions of a list extended by one flag. */
  lemma PositionsSnoc(flags: seq<bool>, b: bool)
    ensures Positions(flags + [b]) == Positions(flags) + (if b then [|flags|] else [])
  {
    assert (flags + [b])[..|flags|] == flags;
  }

  lemma {:induction false} PositionsIncreasing(flags: seq<bool>)
    ensures forall a, b :: 0 <= a < b < |Positions(flags)| ==> Positions(flags)[a] < Positions(flags)[b]
  {
    if flags != [] {
      var k := |flags| - 1;
      var front, r := Positions(flags[..k]), Positions(flags);
      PositionsIncreasing(flags[..k]);
      if flags[k] {
        assert r == front + [k];
        forall a, b | 0 <= a < b < |r|
          ensures r[a] < r[b]
        {
          assert r[a] == front[a];
          if b < |front| {
            assert r[b] == front[b];
          }
        }
      } else {
        assert r == front;
      }
    }
  }

  /** The entries of `xs` whose flag is `true`, in order. */
  function Select<T>(xs: seq<T>, flags: seq<bool>): seq<T>
    requires |xs| == |flags|
  {
    if xs == [] then []
    else
      var k := |xs| - 1;
      Select(xs[..k], flags[..k]) + (if flags[k] then [xs[k]] else [])
  }

  lemma SelectSnoc<T>(xs: seq<T>, flags: seq<bool>, x: T, b: bool)
    requires |xs| == |flags|
    ensures Select(xs + [x], flags + [b]) == Select(xs, flags) + (if b then [x] else [])
  {
    assert (xs + [x])[..|xs|] == xs;
    assert (flags + [b])[..|flags|] == flags;
  }

  /** Entry `k` of the selection is the entry of `xs` at the `k`-th flagged position. */
  lemma {:induction false} SelectAtPositions<T>(xs: seq<T>, flags: seq<bool>)
    requires |xs| == |flags|
    ensures |Select(xs, flags)| == |Positions(flags)|
    ensures forall k :: 0 <= k < |Select(xs, flags)| ==>
      Positions(flags)[k] < |xs| && Select(xs, flags)[k] == xs[Positions(flags)[k]]
  {
    if xs != [] {
      var k := |xs| - 1;
      SelectAtPositions(xs[..k], flags[..k]);
      assert xs == xs[..k] + [xs[k]];
      assert flags == flags[..k] + [flags[k]];
      SelectSnoc(xs[..k], flags[..k], xs[k], flags[k]);
      PositionsSnoc(flags[..k], flags[k]);
    }
  }
}
