/**
 * Crop boxes, rotation angles and the transformation catalogues of the
 * scripts, as integer geometry over an image of width w and height h.
 */
module Geometry {

  /** A PIL crop box (left, upper, right, lower); numpy slicing uses the same four bounds. */
  datatype Box = Box(left: int, top: int, right: int, bottom: int) {
    predicate Ordered() { left <= right && top <= bottom }
    predicate Within(w: nat, h: nat) { 0 <= left <= right <= w && 0 <= top <= bottom <= h }
    function Width(): int { right - left }
    function Height(): int { bottom - top }
  }

  /** `int(f * n)` for the fraction f = k / 100, in exact arithmetic. */
  function Fraction(k: nat, n: nat): (r: nat)
    ensures k <= 100 ==> r <= n
  {
    k * n / 100
  }

  lemma FractionMonotone(j: nat, k: nat, n: nat)
    requires j <= k
    ensures Fraction(j, n) <= Fraction(k, n)
  {
    assert j * n <= k * n;
  }

  /** A crop that trims the fraction k / 100 off each side: (int(f w), int(f h), int((1 - f) w), int((1 - f) h)). */
  function FractionalCrop(w: nat, h: nat, k: nat): (b: Box)
    requires k <= 50
    ensures b.Within(w, h)
    ensures b.left == Fraction(k, w) && b.top == Fraction(k, h)
    ensures b.right == Fraction(100 - k, w) && b.bottom == Fraction(100 - k, h)
  {
    FractionMonotone(k, 100 - k, w);
    FractionMonotone(k, 100 - k, h);
    Box(Fraction(k, w), Fraction(k, h), Fraction(100 - k, w), Fraction(100 - k, h))
  }

  /** The right margin w - int((1 - f) w) is the left margin int(f w), or one more when f w is fractional. */
  lemma FractionalCropNearlyCentred(w: nat, h: nat, k: nat)
    requires k <= 50
    ensures var b := FractionalCrop(w, h, k);
      b.left <= w - b.right <= b.left + 1 && b.top <= h - b.bottom <= b.top + 1
  {
    assert (100 - k) * w == 100 * w - k * w;
    assert (100 - k) * h == 100 * h - k * h;
  }

  /** A heavier crop lies inside a milder one. */
  lemma FractionalCropsNest(w: nat, h: nat, j: nat, k: nat)
    requires j <= k <= 50
    ensures var outer, inner := FractionalCrop(w, h, j), FractionalCrop(w, h, k);
      outer.left <= inner.left && inner.right <= outer.right
      && outer.top <= inner.top && inner.bottom <= outer.bottom
  {
    FractionMonotone(j, k, w);
    FractionMonotone(j, k, h);
    FractionMonotone(100 - k, 100 - j, w);
    FractionMonotone(100 - k, 100 - j, h);
  }

  /** `resize_and_crop`: the resized size and the crop box taken from it. */
  datatype Standardized = Standardized(newWidth: nat, newHeight: nat, box: Box)

  function Max(x: real, y: real): real { if x >= y then x else y }

  /**
   * scale = max(tw / ow, th / oh); the image is resized to
   * (int(ow scale), int(oh scale)) and cropped to a tw x th box whose offsets
   * are (new - target) // 2. Exact arithmetic: floats can land one below.
   */
  function ResizeAndCrop(ow: nat, oh: nat, tw: nat, th: nat): (s: Standardized)
    requires ow >= 1 && oh >= 1
    ensures s.newWidth >= tw && s.newHeight >= th
    ensures s.newWidth == tw || s.newHeight == th
    ensures s.box.Within(s.newWidth, s.newHeight)
    ensures s.box.Width() == tw && s.box.Height() == th
    ensures s.box.left <= s.newWidth - s.box.right <= s.box.left + 1
    ensures s.box.top <= s.newHeight - s.box.bottom <= s.box.top + 1
  {
    var scale := Max(tw as real / ow as real, th as real / oh as real);
    CoverLemma(ow, tw, scale);
    CoverLemma(oh, th, scale);
    var nw, nh := (ow as real * scale).Floor, (oh as real * scale).Floor;
    var left, top := (nw - tw) / 2, (nh - th) / 2;
    Standardized(nw, nh, Box(left, top, left + tw, top + th))
  }

  /** Scaling by at least t / o covers t; scaling by exactly t / o lands on t. */
  lemma CoverLemma(o: nat, t: nat, scale: real)
    requires o >= 1 && scale >= t as real / o as real
    ensures (o as real * scale).Floor >= t
    ensures scale == t as real / o as real ==> (o as real * scale).Floor == t
  {
    assert o as real * (t as real / o as real) == t as real;
    assert o as real * scale >= o as real * (t as real / o as real);
  }

  /** An inclusive range `random.randint(lo, hi)` draws from. */
  datatype Range = Range(lo: int, hi: int) {
    predicate NonEmpty() { lo <= hi }
    predicate Contains(v: int) { lo <= v <= hi }
  }

  /** The ranges of a random crop's four coordinates. */
  datatype CropRanges = CropRanges(left: Range, top: Range, right: Range, bottom: Range) {
    predicate Draws(b: Box) {
      left.Contains(b.left) && top.Contains(b.top) && right.Contains(b.right) && bottom.Contains(b.bottom)
    }
  }

  /** full-system.py's `random_crop`, and random_script.py's extensive crops: [0, n // 4] and [3 n // 4, n]. */
  function ExtensiveCropRanges(w: nat, h: nat): CropRanges {
    CropRanges(Range(0, w / 4), Range(0, h / 4), Range(3 * w / 4, w), Range(3 * h / 4, h))
  }

  /** random_script.py's mild crops: [n // 8, n // 4] and [3 n // 4, 7 n // 8]. */
  function MildCropRanges(w: nat, h: nat): CropRanges {
    CropRanges(Range(w / 8, w / 4), Range(h / 8, h / 4), Range(3 * w / 4, 7 * w / 8), Range(3 * h / 4, 7 * h / 8))
  }

  /** Every randint call of a random crop has a non-empty range, so none of them raises. */
  lemma CropRangesNonEmpty(w: nat, h: nat)
    ensures var e := ExtensiveCropRanges(w, h);
      e.left.NonEmpty() && e.top.NonEmpty() && e.right.NonEmpty() && e.bottom.NonEmpty()
    ensures var m := MildCropRanges(w, h);
      m.left.NonEmpty() && m.top.NonEmpty() && m.right.NonEmpty() && m.bottom.NonEmpty()
  {
  }

  /** Any extensive random crop lies in the image and keeps its central box from n // 4 to 3 n // 4. */
  lemma ExtensiveCropInside(w: nat, h: nat, b: Box)
    requires ExtensiveCropRanges(w, h).Draws(b)
    ensures b.Within(w, h)
    ensures b.left <= w / 4 && 3 * w / 4 <= b.right && b.top <= h / 4 && 3 * h / 4 <= b.bottom
  {
  }

  /** A mild crop is also an extensive one, and trims at least n // 8 on every side. */
  lemma MildCropInside(w: nat, h: nat, b: Box)
    requires MildCropRanges(w, h).Draws(b)
    ensures ExtensiveCropRanges(w, h).Draws(b)
    ensures b.Within(w, h)
    ensures w / 8 <= b.left && b.right <= 7 * w / 8 && h / 8 <= b.top && b.bottom <= 7 * h / 8
  {
  }

  /** full-system.py's `random_rotation` draws from [1, 359]: never a whole turn. */
  const RandomRotationRange: Range := Range(1, 359)

  /** random_script.py's mild and extensive rotation ranges. */
  const MildRotationRange: Range := Range(0, 45)
  const ExtensiveRotationRange: Range := Range(45, 360)

  lemma RotationRanges(angle: int)
    ensures RandomRotationRange.Contains(angle) ==> angle % 360 != 0
    ensures MildRotationRange.Contains(angle) && ExtensiveRotationRange.Contains(angle) ==> angle == 45
  {
  }

  /** One transformation of the catalogue. */
  datatype Transform = Crop(box: Box) | Rotate(degrees: int)

  datatype Variant = Variant(name: string, transform: Transform)

  datatype Size = Size(width: nat, height: nat)

  /**
   * The size of a transformed w x h image: a crop box's extent, or the input
   * size for a rotation (PIL's `rotate` without expand and `cv2.warpAffine`
   * with dsize (w, h) both keep the canvas).
   */
  function OutputSize(w: nat, h: nat, t: Transform): (s: Size)
    requires t.Crop? ==> t.box.Ordered()
    ensures t.Rotate? ==> s == Size(w, h)
    ensures t.Crop? && t.box.Within(w, h) ==> s.width <= w && s.height <= h
  {
    match t
    case Crop(b) => Size(b.right - b.left, b.bottom - b.top)
    case Rotate(_) => Size(w, h)
  }

  const FixedNames: seq<string> := [
    "Mild Crop 1", "Mild Crop 2", "Heavy Crop 1", "Heavy Crop 2",
    "Mild Rotation 1", "Mild Rotation 2", "Heavy Rotation 1", "Heavy Rotation 2"]

  /** Trimmed percentage of each fixed crop, and angle of each fixed rotation. */
  const CropMargins: seq<nat> := [5, 10, 20, 25]
  const FixedAngles: seq<int> := [10, 15, 45, 90]

  /**
   * The eight fixed variants of data_breakdown.py and image_check.py, named
   * in insertion order: the four crops trimming 5, 10, 20 and 25 percent,
   * then the rotations by 10, 15, 45 and 90 degrees.
   */
  function FixedBattery(w: nat, h: nat): (vs: seq<Variant>)
    ensures |vs| == 8 && Names(vs) == FixedNames
    ensures forall i :: 0 <= i < 4 ==> vs[i].transform == Crop(FractionalCrop(w, h, CropMargins[i]))
    ensures forall i :: 4 <= i < 8 ==> vs[i].transform == Rotate(FixedAngles[i - 4])
  {
    [ Variant("Mild Crop 1", Crop(FractionalCrop(w, h, 5))),
      Variant("Mild Crop 2", Crop(FractionalCrop(w, h, 10))),
      Variant("Heavy Crop 1", Crop(FractionalCrop(w, h, 20))),
      Variant("Heavy Crop 2", Crop(FractionalCrop(w, h, 25))),
      Variant("Mild Rotation 1", Rotate(10)),
      Variant("Mild Rotation 2", Rotate(15)),
      Variant("Heavy Rotation 1", Rotate(45)),
      Variant("Heavy Rotation 2", Rotate(90)) ]
  }

  /**
   * A transformation that yields no pixels: a crop box with no columns or no
   * rows, which numpy slicing turns into an empty array.
   */
  predicate EmptyOutput(t: Transform) {
    t.Crop? && (t.box.right <= t.box.left || t.box.bottom <= t.box.top)
  }

  /** An image with a side of at most one pixel, on which every fixed crop is empty. */
  predicate CropsVanish(w: nat, h: nat) {
    w <= 1 || h <= 1
  }

  /** A crop trimming at most a quarter off each side keeps a pixel of every side of at least two. */
  lemma FractionGap(k: nat, n: nat)
    requires k <= 25 && 2 <= n
    ensures Fraction(k, n) < Fraction(100 - k, n)
  {
    assert (100 - k) * n == k * n + (100 - 2 * k) * n;
    assert (100 - 2 * k) * n >= 50 * n >= 100;
    assert (k * n + 100) / 100 == k * n / 100 + 1;
  }

  /**
   * Some fixed variant is empty exactly when a side has at most one pixel;
   * then the first of them, "Mild Crop 1", already is.
   */
  lemma FixedBatteryEmptyIff(w: nat, h: nat)
    ensures (exists i :: 0 <= i < 8 && EmptyOutput(FixedBattery(w, h)[i].transform)) <==> CropsVanish(w, h)
    ensures CropsVanish(w, h) ==> EmptyOutput(FixedBattery(w, h)[0].transform)
  {
    var vs := FixedBattery(w, h);
    if CropsVanish(w, h) {
      assert Fraction(95, w) == Fraction(5, w) || Fraction(95, h) == Fraction(5, h);
      assert EmptyOutput(vs[0].transform);
    } else {
      forall i | 0 <= i < 4
        ensures !EmptyOutput(vs[i].transform)
      {
        FractionGap(CropMargins[i], w);
        FractionGap(CropMargins[i], h);
      }
      assert forall i :: 4 <= i < 8 ==> !EmptyOutput(vs[i].transform);
    }
  }

  const FullNames: seq<string> := FixedNames + ["Random Crop", "Random Rotation"]

  /**
   * full-system.py's ten variants: the fixed eight, then the random crop and
   * the random rotation, named as the report's columns whatever the draws.
   */
  function FullBattery(w: nat, h: nat, randomBox: Box, randomAngle: int): (vs: seq<Variant>)
    ensures |vs| == 10 && Names(vs) == FullNames
    ensures vs[..8] == FixedBattery(w, h)
    ensures vs[8].transform == Crop(randomBox) && vs[9].transform == Rotate(randomAngle)
  {
    var fixed := FixedBattery(w, h);
    var vs := fixed + [Variant("Random Crop", Crop(randomBox)), Variant("Random Rotation", Rotate(randomAngle))];
    assert vs[..8] == fixed;
    NamesConcat(fixed, [Variant("Random Crop", Crop(randomBox)), Variant("Random Rotation", Rotate(randomAngle))]);
    vs
  }

  function Names(vs: seq<Variant>): (names: seq<string>)
    ensures |names| == |vs| && forall i :: 0 <= i < |vs| ==> names[i] == vs[i].name
  {
    if vs == [] then [] else [vs[0].name] + Names(vs[1..])
  }

  /** The names of a concatenation are the names of its parts, in order. */
  lemma NamesConcat(a: seq<Variant>, b: seq<Variant>)
    ensures Names(a + b) == Names(a) + Names(b)
  {
    assert forall i :: 0 <= i < |a + b| ==> Names(a + b)[i] == (a + b)[i].name;
  }

  /** With the random box drawn from the extensive ranges, every crop box of the ten variants lies inside the image. */
  lemma FullBatteryLayout(w: nat, h: nat, randomBox: Box, randomAngle: int)
    requires ExtensiveCropRanges(w, h).Draws(randomBox)
    ensures forall i :: 0 <= i < 10 && FullBattery(w, h, randomBox, randomAngle)[i].transform.Crop? ==>
              FullBattery(w, h, randomBox, randomAngle)[i].transform.box.Within(w, h)
  {
    ExtensiveCropInside(w, h, randomBox);
    var fixed, full := FixedBattery(w, h), FullBattery(w, h, randomBox, randomAngle);
    assert full[..8] == fixed;
    forall i | 0 <= i < 10 && full[i].transform.Crop?
      ensures full[i].transform.box.Within(w, h)
    {
      if i < 8 {
        assert full[i] == fixed[i];
      }
    }
  }

  lemma FullNamesDistinct()
    ensures |FullNames| == 10
    ensures forall i, j :: 0 <= i < j < |FullNames| ==> FullNames[i] != FullNames[j]
  {
  }
}
