/** The black-space heuristic of full-system.py: the share of grayscale pixels that are exactly 0. */
module BlackPixels {
  import opened Wrappers
  import opened Rounding

  /** One grayscale ("L" mode) intensity. */
  type Intensity = g: int | 0 <= g < 256

  /** `np.sum(image_array == 0)`. */
  function CountBlack(gray: seq<Intensity>): (c: nat)
    ensures c <= |gray|
  {
    if gray == [] then 0 else (if gray[0] == 0 then 1 else 0) + CountBlack(gray[1..])
  }

  /** The count is the multiplicity of intensity 0 among the pixels. */
  lemma {:induction false} CountBlackIsMultiplicity(gray: seq<Intensity>)
    ensures CountBlack(gray) == multiset(gray)[0]
  {
    if gray != [] {
      CountBlackIsMultiplicity(gray[1..]);
      assert gray == [gray[0]] + gray[1..];
    }
  }

  /** (black / total) * 100 in exact arithmetic, before rounding. */
  function ExactBlackPercentage(gray: seq<Intensity>): (p: real)
    requires |gray| > 0
    ensures 0.0 <= p <= 100.0
    ensures p == 0.0 <==> 0 !in gray
    ensures p == 100.0 <==> forall i :: 0 <= i < |gray| ==> gray[i] == 0
  {
    var c := CountBlack(gray);
    CountBlackIsMultiplicity(gray);
    AllBlackIffFullCount(gray);
    assert c == 0 <==> 0 !in gray;
    PercentOf(c, |gray|);
    (c as real / |gray| as real) * 100.0
  }

  /** c out of n > 0, as a percentage: within [0, 100], at the ends exactly for none and all. */
  lemma PercentOf(c: nat, n: nat)
    requires 0 < n && c <= n
    ensures 0.0 <= (c as real / n as real) * 100.0 <= 100.0
    ensures (c as real / n as real) * 100.0 == 0.0 <==> c == 0
    ensures (c as real / n as real) * 100.0 == 100.0 <==> c == n
  {
    var q := c as real / n as real;
    assert q * n as real == c as real;
    assert q * 100.0 == 100.0 <==> q == 1.0;
    if q == 1.0 {
      assert c as real == n as real;
    }
  }

  lemma {:induction false} AllBlackIffFullCount(gray: seq<Intensity>)
    ensures CountBlack(gray) == |gray| <==> forall i :: 0 <= i < |gray| ==> gray[i] == 0
  {
    if gray != [] {
      AllBlackIffFullCount(gray[1..]);
      if CountBlack(gray) == |gray| {
        assert gray[0] == 0 && CountBlack(gray[1..]) == |gray[1..]|;
        forall i | 0 <= i < |gray| ensures gray[i] == 0 {
          if i > 0 { assert gray[i] == gray[1..][i - 1]; }
        }
      }
    }
  }

  /**
   * `calculate_black_pixel_percentage`: the exact percentage rounded to two
   * places. An image without pixels makes numpy divide 0 by 0; None stands for
   * that NaN, which compares false against every threshold.
   */
  function BlackPercentage(gray: seq<Intensity>): (r: Option<real>)
    ensures r.None? <==> |gray| == 0
    ensures r.Some? ==> 0.0 <= r.value <= 100.0
  {
    if |gray| == 0 then None
    else
      Round2Bounds(ExactBlackPercentage(gray));
      Some(Round2(ExactBlackPercentage(gray)))
  }
}
