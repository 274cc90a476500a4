/**
 The clamped piecewise-linear interpolation that the tiles use to turn a
 distance into a visual property, as react-native-reanimated interpolates a
 value over an input range and an output range with clamping at both ends.

 Between two consecutive anchors the output is the straight line through
 them; the anchor that applies is the first whose successor the value has
 not yet reached; below the first input and above the last one the output is
 held at the first and last output respectively.
 */
module Interpolation {

  /** An interpolation configuration: `inputs` is the input range, `outputs` the output range. */
  datatype Curve = Curve(inputs: seq<real>, outputs: seq<real>)

  predicate StrictlyIncreasing(s: seq<real>) {
    forall i, j :: 0 <= i < j < |s| ==> s[i] < s[j]
  }

  predicate NonIncreasing(s: seq<real>) {
    forall i, j :: 0 <= i < j < |s| ==> s[i] >= s[j]
  }

  /** At least two anchors, as many outputs as inputs, inputs strictly increasing. */
  predicate Valid(c: Curve) {
    2 <= |c.inputs| && |c.inputs| == |c.outputs| && StrictlyIncreasing(c.inputs)
  }

  /** Index of the last anchor. */
  function Last(c: Curve): (r: nat)
    requires Valid(c)
  {
    |c.inputs| - 1
  }

  lemma DivSelf(a: real)
    requires a > 0.0
    ensures a / a == 1.0
  {
  }

  /** The straight line through anchors `k` and `k + 1`, extended on both sides. */
  function Segment(c: Curve, k: nat, x: real): (r: real)
    requires Valid(c) && k < Last(c)
    ensures x == c.inputs[k] ==> r == c.outputs[k]
    ensures x == c.inputs[k + 1] ==> r == c.outputs[k + 1]
  {
    var inS, inE := c.inputs[k], c.inputs[k + 1];
    var outS, outE := c.outputs[k], c.outputs[k + 1];
    var t := (x - inS) / (inE - inS);
    DivSelf(inE - inS);
    assert x == inS ==> t == 0.0;
    assert x == inE ==> t == 1.0;
    outS + t * (outE - outS)
  }

  /** Segment selection from anchor `k` on: the first segment whose right end the value has not reached, or the last one. */
  function Piecewise(c: Curve, k: nat, x: real): (r: real)
    requires Valid(c) && k < Last(c)
    ensures x == c.inputs[k] ==> r == c.outputs[k]
    ensures x == c.inputs[Last(c)] ==> r == c.outputs[Last(c)]
    decreases Last(c) - k
  {
    if k + 1 == Last(c) || x < c.inputs[k + 1] then Segment(c, k, x)
    else Piecewise(c, k + 1, x)
  }

  /** Interpolation clamped on both sides: at or below the first input the output is the first output; at or above the last input, the last output. */
  function Interpolate(c: Curve, x: real): (r: real)
    requires Valid(c)
    ensures x <= c.inputs[0] ==> r == c.outputs[0]
    ensures x >= c.inputs[Last(c)] ==> r == c.outputs[Last(c)]
  {
    if x < c.inputs[0] then c.outputs[0]
    else if x > c.inputs[Last(c)] then c.outputs[Last(c)]
    else Piecewise(c, 0, x)
  }

  /** Inside segment `j` (both ends included) the selection from any earlier anchor yields that segment's line. */
  lemma {:induction false} PiecewiseInSegment(c: Curve, k: nat, j: nat, x: real)
    requires Valid(c) && k <= j < Last(c)
    requires c.inputs[j] <= x <= c.inputs[j + 1]
    ensures Piecewise(c, k, x) == Segment(c, j, x)
    decreases Last(c) - k
  {
    if k + 1 == Last(c) {
    } else if x < c.inputs[k + 1] {
      // an earlier segment would need inputs[k + 1] <= inputs[j] <= x, so k == j
    } else if k < j {
      PiecewiseInSegment(c, k + 1, j, x);
    } else {
      // k == j and x sits exactly on anchor j + 1, which segment j + 1 also passes through
      assert x == c.inputs[k + 1];
      PiecewiseInSegment(c, k + 1, k + 1, x);
    }
  }

  /** Linear between consecutive anchors: on [inputs[j], inputs[j + 1]] the output is the line through anchors j and j + 1. */
  lemma InSegment(c: Curve, j: nat, x: real)
    requires Valid(c) && j < Last(c)
    requires c.inputs[j] <= x <= c.inputs[j + 1]
    ensures Interpolate(c, x) == Segment(c, j, x)
  {
    assert c.inputs[0] <= c.inputs[j] && c.inputs[j + 1] <= c.inputs[Last(c)];
    PiecewiseInSegment(c, 0, j, x);
  }

  /** Every value inside the input range lies in some segment. */
  lemma {:induction false} FindSegment(c: Curve, k: nat, x: real) returns (j: nat)
    requires Valid(c) && k < Last(c)
    requires c.inputs[k] <= x <= c.inputs[Last(c)]
    ensures k <= j < Last(c) && c.inputs[j] <= x <= c.inputs[j + 1]
    decreases Last(c) - k
  {
    if x <= c.inputs[k + 1] {
      j := k;
    } else {
      j := FindSegment(c, k + 1, x);
    }
  }

  /** The curve passes through every anchor. */
  lemma AnchorValue(c: Curve, k: nat)
    requires Valid(c) && k < |c.inputs|
    ensures Interpolate(c, c.inputs[k]) == c.outputs[k]
  {
    if k < Last(c) {
      InSegment(c, k, c.inputs[k]);
    } else {
      InSegment(c, k - 1, c.inputs[k]);
    }
  }

  /** A falling line falls: for outE <= outS, a larger input never gives a larger output. */
  lemma SegmentNonIncreasing(c: Curve, k: nat, x: real, y: real)
    requires Valid(c) && k < Last(c)
    requires c.outputs[k + 1] <= c.outputs[k]
    requires x <= y
    ensures Segment(c, k, x) >= Segment(c, k, y)
  {
    var d := c.inputs[k + 1] - c.inputs[k];
    var drop := c.outputs[k] - c.outputs[k + 1];
    assert d > 0.0;
    var t := (y - x) / d;
    assert t >= 0.0;
    assert (y - c.inputs[k]) / d == (x - c.inputs[k]) / d + t;
    assert Segment(c, k, x) - Segment(c, k, y) == t * drop;
  }

  /** With non-increasing outputs the interpolation is non-increasing over all reals. */
  lemma Monotone(c: Curve, x: real, y: real)
    requires Valid(c) && NonIncreasing(c.outputs)
    requires x <= y
    ensures Interpolate(c, x) >= Interpolate(c, y)
  {
    var first, last := c.inputs[0], c.inputs[Last(c)];
    if x == y || y <= first || last <= x {
    } else if x <= first && last <= y {
    } else if x <= first {
      // Interpolate(c, x) is the first output, the largest of all
      var jy := FindSegment(c, 0, y);
      InSegment(c, jy, y);
      SegmentNonIncreasing(c, jy, c.inputs[jy], y);
    } else if last <= y {
      var jx := FindSegment(c, 0, x);
      InSegment(c, jx, x);
      SegmentNonIncreasing(c, jx, x, c.inputs[jx + 1]);
    } else {
      var jx := FindSegment(c, 0, x);
      var jy := FindSegment(c, 0, y);
      InSegment(c, jx, x);
      InSegment(c, jy, y);
      if jx == jy {
        SegmentNonIncreasing(c, jx, x, y);
      } else {
        // jy < jx would give y <= inputs[jy + 1] <= inputs[jx] <= x, so jx < jy
        SegmentNonIncreasing(c, jx, x, c.inputs[jx + 1]);
        SegmentNonIncreasing(c, jy, c.inputs[jy], y);
      }
    }
  }

  /** With non-increasing outputs every output lies between the last and the first output. */
  lemma Bounded(c: Curve, x: real)
    requires Valid(c) && NonIncreasing(c.outputs)
    ensures c.outputs[Last(c)] <= Interpolate(c, x) <= c.outputs[0]
  {
    var first, last := c.inputs[0], c.inputs[Last(c)];
    var lo := if x < first then x else first;
    var hi := if x > last then x else last;
    Monotone(c, lo, x);
    Monotone(c, x, hi);
  }
}
