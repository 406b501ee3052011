/** Remotion's `interpolate(input, inputRange, outputRange, options)` with the
    default linear easing: pick the segment of `inputRange` the input falls in
    (`findRange`), extrapolate past either end as the options say (`extend`,
    the default, or `clamp`), and map linearly onto the output segment. */
module Interpolation {

  datatype Extrapolate = Extend | Clamp

  predicate Increasing(xs: seq<real>) {
    forall i :: 0 < i < |xs| ==> xs[i - 1] < xs[i]
  }

  /** `findRange`: scanning from index `i`, the first breakpoint at or above
      the input closes the segment; past the second-to-last breakpoint the
      last segment is used. */
  function FindRange(input: real, xs: seq<real>, i: nat): (k: nat)
    requires 1 <= i <= |xs| - 1
    ensures i - 1 <= k <= |xs| - 2
    ensures k + 1 < |xs| - 1 ==> input <= xs[k + 1]
    ensures forall j :: i <= j <= k ==> xs[j] < input
    decreases |xs| - i
  {
    if i == |xs| - 1 || xs[i] >= input then i - 1 else FindRange(input, xs, i + 1)
  }

  /** `interpolateFunction` on one segment `[x0, x1] -> [y0, y1]`. */
  function InterpolateSegment(input: real, x0: real, x1: real, y0: real, y1: real,
                              left: Extrapolate, right: Extrapolate): real
    requires x0 < x1
  {
    var a := if input < x0 && left == Clamp then x0 else input;
    var b := if a > x1 && right == Clamp then x1 else a;
    if y0 == y1 then y0 else (b - x0) / (x1 - x0) * (y1 - y0) + y0
  }

  function Interpolate(input: real, xs: seq<real>, ys: seq<real>, left: Extrapolate, right: Extrapolate): real
    requires |xs| == |ys| >= 2 && Increasing(xs)
  {
    var k := FindRange(input, xs, 1);
    InterpolateSegment(input, xs[k], xs[k + 1], ys[k], ys[k + 1], left, right)
  }

  /** Inside its segment the interpolation is the straight line through the end points. */
  lemma SegmentInside(input: real, x0: real, x1: real, y0: real, y1: real, left: Extrapolate, right: Extrapolate)
    requires x0 < x1 && x0 <= input <= x1
    ensures InterpolateSegment(input, x0, x1, y0, y1, left, right) == (input - x0) / (x1 - x0) * (y1 - y0) + y0
  {
    if y0 == y1 {
      assert (input - x0) / (x1 - x0) * (y1 - y0) == 0.0;
    }
  }

  /** Clamped on the left, every input before the segment yields its first value. */
  lemma SegmentClampLeft(input: real, x0: real, x1: real, y0: real, y1: real, right: Extrapolate)
    requires x0 < x1 && input < x0
    ensures InterpolateSegment(input, x0, x1, y0, y1, Clamp, right) == y0
  {
    assert (x0 - x0) / (x1 - x0) == 0.0;
  }

  /** Clamped on the right, every input after the segment yields its last value. */
  lemma SegmentClampRight(input: real, x0: real, x1: real, y0: real, y1: real, left: Extrapolate)
    requires x0 < x1 && input > x1
    ensures InterpolateSegment(input, x0, x1, y0, y1, left, Clamp) == y1
  {
    assert (x1 - x0) / (x1 - x0) == 1.0;
  }

  // ---------------------------------------------------------------------
  // The fade envelope `[s0, s1, s2, s3] -> [0, 1, 1, 0]`, clamped on both sides

  function FadeInOut(input: real, s0: real, s1: real, s2: real, s3: real): real
    requires s0 < s1 < s2 < s3
  {
    Interpolate(input, [s0, s1, s2, s3], [0.0, 1.0, 1.0, 0.0], Clamp, Clamp)
  }

  /** The fade envelope written out piece by piece: 0 up to the start, a
      linear rise to 1, a hold at 1, a linear fall to 0, and 0 from the end on. */
  function FadeReference(input: real, s0: real, s1: real, s2: real, s3: real): real
    requires s0 < s1 < s2 < s3
  {
    if input <= s0 then 0.0
    else if input <= s1 then (input - s0) / (s1 - s0)
    else if input <= s2 then 1.0
    else if input <= s3 then 1.0 - (input - s2) / (s3 - s2)
    else 0.0
  }

  /** `interpolate` over the four breakpoints agrees with the piecewise envelope everywhere. */
  lemma FadeInOutIsReference(input: real, s0: real, s1: real, s2: real, s3: real)
    requires s0 < s1 < s2 < s3
    ensures FadeInOut(input, s0, s1, s2, s3) == FadeReference(input, s0, s1, s2, s3)
  {
    if input <= s1 {
      FadeRising(input, s0, s1, s2, s3);
      if input == s0 {
        assert (s0 - s0) / (s1 - s0) == 0.0;
      }
    } else if input <= s2 {
      FadeHolding(input, s0, s1, s2, s3);
    } else {
      FadeFalling(input, s0, s1, s2, s3);
    }
  }

  /** The envelope piece by piece, each piece with its closed interval. */
  lemma FadeInOutShape(input: real, s0: real, s1: real, s2: real, s3: real)
    requires s0 < s1 < s2 < s3
    ensures input <= s0 ==> FadeInOut(input, s0, s1, s2, s3) == 0.0
    ensures s0 <= input <= s1 ==> FadeInOut(input, s0, s1, s2, s3) == (input - s0) / (s1 - s0)
    ensures s1 <= input <= s2 ==> FadeInOut(input, s0, s1, s2, s3) == 1.0
    ensures s2 <= input <= s3 ==> FadeInOut(input, s0, s1, s2, s3) == 1.0 - (input - s2) / (s3 - s2)
    ensures s3 <= input ==> FadeInOut(input, s0, s1, s2, s3) == 0.0
  {
    FadeInOutIsReference(input, s0, s1, s2, s3);
    if input == s0 {
      assert (s0 - s0) / (s1 - s0) == 0.0;
    } else if input == s1 {
      assert (s1 - s0) / (s1 - s0) == 1.0;
    } else if input == s2 {
      assert (s2 - s2) / (s3 - s2) == 0.0;
    } else if input == s3 {
      assert (s3 - s2) / (s3 - s2) == 1.0;
    }
  }

  /** Up to the end of the rise the first segment is used. */
  lemma FadeRising(input: real, s0: real, s1: real, s2: real, s3: real)
    requires s0 < s1 < s2 < s3 && input <= s1
    ensures FadeInOut(input, s0, s1, s2, s3) == if input < s0 then 0.0 else (input - s0) / (s1 - s0)
  {
    var xs := [s0, s1, s2, s3];
    assert Increasing(xs);
    assert FindRange(input, xs, 1) == 0;
    if input < s0 {
      SegmentClampLeft(input, s0, s1, 0.0, 1.0, Clamp);
    } else {
      SegmentInside(input, s0, s1, 0.0, 1.0, Clamp, Clamp);
    }
  }

  /** Between the end of the rise and the start of the fall the middle segment is used. */
  lemma FadeHolding(input: real, s0: real, s1: real, s2: real, s3: real)
    requires s0 < s1 < s2 < s3 && s1 < input <= s2
    ensures FadeInOut(input, s0, s1, s2, s3) == 1.0
  {
    var xs := [s0, s1, s2, s3];
    assert Increasing(xs);
    assert FindRange(input, xs, 1) == 1;
  }

  /** After the start of the fall the last segment is used. */
  lemma FadeFalling(input: real, s0: real, s1: real, s2: real, s3: real)
    requires s0 < s1 < s2 < s3 && s2 < input
    ensures FadeInOut(input, s0, s1, s2, s3) == if input > s3 then 0.0 else 1.0 - (input - s2) / (s3 - s2)
  {
    var xs := [s0, s1, s2, s3];
    assert Increasing(xs);
    assert FindRange(input, xs, 1) == 2;
    if input > s3 {
      SegmentClampRight(input, s2, s3, 1.0, 0.0, Clamp);
    } else {
      SegmentInside(input, s2, s3, 1.0, 0.0, Clamp, Clamp);
    }
  }

  lemma RatioBounds(x: real, d: real)
    requires d > 0.0 && 0.0 <= x <= d
    ensures 0.0 <= x / d <= 1.0
  {
  }

  lemma RatioMonotone(x: real, y: real, d: real)
    requires d > 0.0 && x <= y
    ensures x / d <= y / d
  {
  }

  /** The envelope stays within `[0, 1]`, is 0 outside the open window, and
      is positive strictly inside it. */
  lemma FadeInOutBounds(input: real, s0: real, s1: real, s2: real, s3: real)
    requires s0 < s1 < s2 < s3
    ensures 0.0 <= FadeInOut(input, s0, s1, s2, s3) <= 1.0
    ensures FadeInOut(input, s0, s1, s2, s3) > 0.0 <==> s0 < input < s3
  {
    FadeInOutShape(input, s0, s1, s2, s3);
    if s0 <= input <= s1 {
      RatioBounds(input - s0, s1 - s0);
    } else if s2 <= input <= s3 {
      RatioBounds(input - s2, s3 - s2);
      if input < s3 {
        assert (input - s2) / (s3 - s2) < 1.0;
      }
    }
  }

  /** The envelope never decreases before the hold ends and never increases
      after it starts. */
  lemma FadeInOutMonotone(x: real, y: real, s0: real, s1: real, s2: real, s3: real)
    requires s0 < s1 < s2 < s3 && x <= y
    ensures y <= s2 ==> FadeInOut(x, s0, s1, s2, s3) <= FadeInOut(y, s0, s1, s2, s3)
    ensures s1 <= x ==> FadeInOut(x, s0, s1, s2, s3) >= FadeInOut(y, s0, s1, s2, s3)
  {
    FadeInOutShape(x, s0, s1, s2, s3);
    FadeInOutShape(y, s0, s1, s2, s3);
    FadeInOutBounds(x, s0, s1, s2, s3);
    FadeInOutBounds(y, s0, s1, s2, s3);
    if s0 <= x && y <= s1 {
      RatioMonotone(x - s0, y - s0, s1 - s0);
    }
    if s2 <= x && y <= s3 {
      RatioMonotone(x - s2, y - s2, s3 - s2);
    }
  }

  // ---------------------------------------------------------------------
  // The rise `[0, d] -> [0, 1]`, extended to the left and clamped to the right

  function Rise(input: real, d: real): real
    requires d > 0.0
  {
    Interpolate(input, [0.0, d], [0.0, 1.0], Extend, Clamp)
  }

  /** A linear rise from 0 at frame 0 to 1 at `d`, held at 1 afterwards. */
  lemma RiseShape(input: real, d: real)
    requires d > 0.0
    ensures input <= d ==> Rise(input, d) == input / d
    ensures input >= d ==> Rise(input, d) == 1.0
    ensures 0.0 <= input ==> 0.0 <= Rise(input, d) <= 1.0
  {
    var xs := [0.0, d];
    assert Increasing(xs);
    assert FindRange(input, xs, 1) == 0;
    assert Rise(input, d) == InterpolateSegment(input, 0.0, d, 0.0, 1.0, Extend, Clamp);
    if input > d {
      SegmentClampRight(input, 0.0, d, 0.0, 1.0, Extend);
    } else {
      assert input / d * (1.0 - 0.0) + 0.0 == input / d;
    }
    if 0.0 <= input <= d {
      RatioBounds(input, d);
    }
  }
}
