/**
 * Python's `round(x, 2)` on an exact real: the nearest multiple of 0.01,
 * ties going to the even hundredth.
 */
module Rounding {

  function Round2(x: real): (r: real)
    ensures x - 0.005 <= r <= x + 0.005
  {
    var y := x * 100.0;
    var k := y.Floor;
    var frac := y - k as real;
    var n := if frac < 0.5 then k else if frac > 0.5 then k + 1 else if k % 2 == 0 then k else k + 1;
    n as real / 100.0
  }

  /** Rounding a percentage keeps it a percentage. */
  lemma Round2Bounds(x: real)
    requires 0.0 <= x <= 100.0
    ensures 0.0 <= Round2(x) <= 100.0
  {
    var y := x * 100.0;
    var k := y.Floor;
    assert 0 <= k <= 10000;
    if k == 10000 {
      assert y == 10000.0;
    }
  }

  lemma Round2Monotone(x: real, z: real)
    requires x <= z
    ensures Round2(x) <= Round2(z)
  {
    var kx, kz := (x * 100.0).Floor, (z * 100.0).Floor;
    assert kx <= kz;
  }

  /** The full-system black-space rule tests `round(p, 2) > 2`: it fires exactly above 2.005 (2.005 itself rounds to the even 2.00). */
  lemma Round2AboveTwo(p: real)
    ensures Round2(p) > 2.0 <==> p > 2.005
  {
    var y := p * 100.0;
    var k := y.Floor;
    if p > 2.005 {
      assert y > 200.5;
      assert k >= 200;
    } else {
      assert y <= 200.5;
      assert k <= 200;
    }
  }

  /** Whole numbers are already rounded. */
  lemma Round2Whole(n: int)
    ensures Round2(n as real) == n as real
  {
    var y := n as real * 100.0;
    assert y == (100 * n) as real;
    assert y.Floor == 100 * n;
  }
}
