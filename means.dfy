/**
 * Plain and weighted means of sample values, and the bounds they keep:
 * a mean of values in `[lo, hi]` is itself in `[lo, hi]`.
 */
module Means {
  /** The sum of `vs`, accumulated from the front as a loop does. */
  function Sum(vs: seq<real>): real
  {
    if |vs| == 0 then 0.0 else Sum(vs[..|vs| - 1]) + vs[|vs| - 1]
  }

  /** Adding one more value to the running sum. */
  lemma SumAppend(vs: seq<real>, v: real)
    ensures Sum(vs + [v]) == Sum(vs) + v
  {
    assert (vs + [v])[..|vs|] == vs;
  }

  /** The sum of a prefix one longer adds the next value. */
  lemma SumNext(vs: seq<real>, k: nat)
    requires k < |vs|
    ensures Sum(vs[..k + 1]) == Sum(vs[..k]) + vs[k]
  {
    assert vs[..k + 1][..k] == vs[..k];
  }

  /** `sum(k: ws[k] * vs[k])`, accumulated from the front. */
  function Dot(ws: seq<real>, vs: seq<real>): real
    requires |ws| == |vs|
  {
    if |ws| == 0 then 0.0 else Dot(ws[..|ws| - 1], vs[..|vs| - 1]) + ws[|ws| - 1] * vs[|vs| - 1]
  }

  lemma DotAppend(ws: seq<real>, vs: seq<real>, w: real, v: real)
    requires |ws| == |vs|
    ensures Dot(ws + [w], vs + [v]) == Dot(ws, vs) + w * v
  {
    assert (ws + [w])[..|ws|] == ws;
    assert (vs + [v])[..|vs|] == vs;
  }

  lemma DotNext(ws: seq<real>, vs: seq<real>, k: nat)
    requires |ws| == |vs| && k < |ws|
    ensures Dot(ws[..k + 1], vs[..k + 1]) == Dot(ws[..k], vs[..k]) + ws[k] * vs[k]
  {
    assert ws[..k + 1][..k] == ws[..k];
    assert vs[..k + 1][..k] == vs[..k];
  }

  predicate AllWithin(vs: seq<real>, lo: real, hi: real)
  {
    forall k :: 0 <= k < |vs| ==> lo <= vs[k] <= hi
  }

  predicate AllPositive(ws: seq<real>)
  {
    forall k :: 0 <= k < |ws| ==> ws[k] > 0.0
  }

  /** `n` values in `[lo, hi]` sum to between `n * lo` and `n * hi`. */
  lemma {:induction false} SumWithin(vs: seq<real>, lo: real, hi: real)
    requires AllWithin(vs, lo, hi)
    ensures |vs| as real * lo <= Sum(vs) <= |vs| as real * hi
  {
    if |vs| > 0 {
      var front := vs[..|vs| - 1];
      assert AllWithin(front, lo, hi) by {
        forall k | 0 <= k < |front|
          ensures lo <= front[k] <= hi
        {
          assert front[k] == vs[k];
        }
      }
      SumWithin(front, lo, hi);
      assert lo <= vs[|vs| - 1] <= hi;
    }
  }

  /** Dividing bounds `lo * s <= a <= hi * s` by a positive `s`. */
  lemma QuotientWithin(a: real, s: real, lo: real, hi: real)
    requires s > 0.0 && lo * s <= a <= hi * s
    ensures lo <= a / s <= hi
  {
    var q := a / s;
    assert q * s == a;
  }

  /** The arithmetic mean; the caller guarantees at least one value. */
  function Mean(vs: seq<real>): real
    requires |vs| > 0
  {
    Sum(vs) / |vs| as real
  }

  /** The mean of values in `[lo, hi]` lies in `[lo, hi]`. */
  lemma MeanWithin(vs: seq<real>, lo: real, hi: real)
    requires |vs| > 0 && AllWithin(vs, lo, hi)
    ensures lo <= Mean(vs) <= hi
  {
    SumWithin(vs, lo, hi);
    var n := |vs| as real;
    assert lo * n <= Sum(vs) <= hi * n;
    QuotientWithin(Sum(vs), n, lo, hi);
  }

  /** A weighted sum over positive weights is bracketed by the value bounds times the weight total. */
  lemma DotWithin(ws: seq<real>, vs: seq<real>, lo: real, hi: real)
    requires |ws| == |vs| && AllPositive(ws) && AllWithin(vs, lo, hi)
    ensures lo * Sum(ws) <= Dot(ws, vs) <= hi * Sum(ws)
  {
    DotAbove(ws, vs, lo);
    DotBelow(ws, vs, hi);
  }

  lemma {:induction false} DotAbove(ws: seq<real>, vs: seq<real>, lo: real)
    requires |ws| == |vs|
    requires forall k :: 0 <= k < |ws| ==> ws[k] > 0.0
    requires forall k :: 0 <= k < |vs| ==> lo <= vs[k]
    ensures lo * Sum(ws) <= Dot(ws, vs)
  {
    if |ws| > 0 {
      var n := |ws| - 1;
      var fw, fv := ws[..n], vs[..n];
      DotAbove(fw, fv, lo);
      var w, v := ws[n], vs[n];
      assert lo * w <= w * v by {
        ScaleWithin(w, v, lo, v);
      }
      var s, d := Sum(fw), Dot(fw, fv);
      assert Sum(ws) == s + w;
      assert Dot(ws, vs) == d + w * v;
      assert lo * (s + w) == lo * s + lo * w;
    }
  }

  lemma {:induction false} DotBelow(ws: seq<real>, vs: seq<real>, hi: real)
    requires |ws| == |vs|
    requires forall k :: 0 <= k < |ws| ==> ws[k] > 0.0
    requires forall k :: 0 <= k < |vs| ==> vs[k] <= hi
    ensures Dot(ws, vs) <= hi * Sum(ws)
  {
    if |ws| > 0 {
      var n := |ws| - 1;
      var fw, fv := ws[..n], vs[..n];
      DotBelow(fw, fv, hi);
      var w, v := ws[n], vs[n];
      assert w * v <= hi * w by {
        ScaleWithin(w, v, v, hi);
      }
      var s, d := Sum(fw), Dot(fw, fv);
      assert Sum(ws) == s + w;
      assert Dot(ws, vs) == d + w * v;
      assert hi * (s + w) == hi * s + hi * w;
    }
  }

  lemma ScaleWithin(w: real, v: real, lo: real, hi: real)
    requires w > 0.0 && lo <= v <= hi
    ensures lo * w <= w * v <= hi * w
  {
  }

  /** The weights of at least one positive weight sum to a positive total. */
  lemma {:induction false} SumPositive(ws: seq<real>)
    requires |ws| > 0 && AllPositive(ws)
    ensures Sum(ws) > 0.0
  {
    var n := |ws| - 1;
    if n > 0 {
      assert AllPositive(ws[..n]) by {
        forall k | 0 <= k < n
          ensures ws[..n][k] > 0.0
        {
          assert ws[..n][k] == ws[k];
        }
      }
      SumPositive(ws[..n]);
    }
    assert ws[n] > 0.0;
  }

  /** `sum(w * v) / sum(w)`; the caller guarantees a non-zero weight total. */
  function WeightedMean(ws: seq<real>, vs: seq<real>): real
    requires |ws| == |vs| && Sum(ws) != 0.0
  {
    Dot(ws, vs) / Sum(ws)
  }

  /**
   * With positive weights, the weighted mean lies between the smallest and
   * the largest value; in particular a constant `c` is reproduced exactly.
   */
  lemma WeightedMeanWithin(ws: seq<real>, vs: seq<real>, lo: real, hi: real)
    requires |ws| == |vs| && |ws| > 0 && AllPositive(ws) && AllWithin(vs, lo, hi)
    ensures Sum(ws) > 0.0
    ensures lo <= WeightedMean(ws, vs) <= hi
  {
    SumPositive(ws);
    DotWithin(ws, vs, lo, hi);
    QuotientWithin(Dot(ws, vs), Sum(ws), lo, hi);
  }

  /** A boundary of uniform value `c` is reproduced exactly. */
  lemma WeightedMeanOfConstant(ws: seq<real>, vs: seq<real>, c: real)
    requires |ws| == |vs| && |ws| > 0 && AllPositive(ws)
    requires forall k :: 0 <= k < |vs| ==> vs[k] == c
    ensures Sum(ws) > 0.0 && WeightedMean(ws, vs) == c
  {
    WeightedMeanWithin(ws, vs, c, c);
  }
}
