/**
 * Perceptual hashes and the three ways the scripts turn two of them into a
 * similarity: over the n*n bit count as a percentage (full-system.py,
 * data-refined.py) or as a fraction (data_breakdown.py, image_check.py,
 * angle_testing.py), and over the bit length of the first hash's integer
 * value (hash_script.py, random_script.py).
 */
module ImageHashing {
  import opened Wrappers
  import opened Numerals

  /** A hash as imagehash returns it: the matrix of bits `hash.hash`, row by row. */
  datatype ImageHash = ImageHash(rows: seq<seq<bool>>)

  predicate Square(h: ImageHash) {
    forall i :: 0 <= i < |h.rows| ==> |h.rows[i]| == |h.rows|
  }

  /** imagehash's default hash size; every hash the scripts compute is 8 by 8. */
  const HashSize: nat := 8

  predicate DefaultShape(h: ImageHash) {
    Square(h) && |h.rows| == HashSize
  }

  /** A hash as `imagehash.phash` and the others return it with the default size: 8 by 8 bits. */
  type Hash8 = h: ImageHash | DefaultShape(h) witness ImageHash(seq(8, i => seq(8, j => false)))

  /** imagehash subtracts only hashes of one shape; a non-empty one, or the division fails. */
  predicate Comparable(a: ImageHash, b: ImageHash) {
    Square(a) && Square(b) && |a.rows| == |b.rows| && |a.rows| >= 1
  }

  lemma DefaultShapesComparable(a: ImageHash, b: ImageHash)
    requires DefaultShape(a) && DefaultShape(b)
    ensures Comparable(a, b)
  {
  }

  /** The bits in row-major order (`hash.flatten()`). */
  function Flatten(m: seq<seq<bool>>): seq<bool> {
    if m == [] then [] else m[0] + Flatten(m[1..])
  }

  lemma {:induction false} FlattenLength(m: seq<seq<bool>>, n: nat)
    requires forall i :: 0 <= i < |m| ==> |m[i]| == n
    ensures |Flatten(m)| == |m| * n
  {
    if m != [] {
      FlattenLength(m[1..], n);
    }
  }

  lemma {:induction false} FlattenInjective(m1: seq<seq<bool>>, m2: seq<seq<bool>>, n: nat)
    requires |m1| == |m2|
    requires forall i :: 0 <= i < |m1| ==> |m1[i]| == n && |m2[i]| == n
    requires Flatten(m1) == Flatten(m2)
    ensures m1 == m2
  {
    if m1 != [] {
      assert m1[0] == Flatten(m1)[..n] == Flatten(m2)[..n] == m2[0];
      assert Flatten(m1[1..]) == Flatten(m1)[n..] == Flatten(m2)[n..] == Flatten(m2[1..]);
      FlattenInjective(m1[1..], m2[1..], n);
      assert m1 == [m1[0]] + m1[1..];
      assert m2 == [m2[0]] + m2[1..];
    }
  }

  function BitCount(h: ImageHash): (c: nat)
    requires Square(h)
    ensures c == |Flatten(h.rows)|
    ensures |h.rows| >= 1 ==> c >= 1
  {
    FlattenLength(h.rows, |h.rows|);
    |h.rows| * |h.rows|
  }

  /** A count d out of n > 0 is a fraction in [0, 1]. */
  lemma RatioInUnit(d: nat, n: nat)
    requires 0 < n && d <= n
    ensures 0.0 <= d as real / n as real <= 1.0
  {
  }

  /** Number of positions at which two equally long bit sequences differ. */
  function Mismatches(x: seq<bool>, y: seq<bool>): (d: nat)
    requires |x| == |y|
    ensures d <= |x|
    ensures d == 0 <==> x == y
  {
    if x == [] then 0
    else (if x[0] != y[0] then 1 else 0) + Mismatches(x[1..], y[1..])
  }

  lemma {:induction false} MismatchesSymmetric(x: seq<bool>, y: seq<bool>)
    requires |x| == |y|
    ensures Mismatches(x, y) == Mismatches(y, x)
  {
    if x != [] {
      MismatchesSymmetric(x[1..], y[1..]);
    }
  }

  /** `hash1 - hash2`: the Hamming distance between the two bit matrices. */
  function Distance(a: ImageHash, b: ImageHash): (d: nat)
    requires Comparable(a, b)
    ensures d <= BitCount(a)
  {
    FlattenLength(a.rows, |a.rows|);
    FlattenLength(b.rows, |b.rows|);
    Mismatches(Flatten(a.rows), Flatten(b.rows))
  }

  lemma DistanceZeroIff(a: ImageHash, b: ImageHash)
    requires Comparable(a, b)
    ensures Distance(a, b) == 0 <==> a == b
  {
    FlattenLength(a.rows, |a.rows|);
    FlattenLength(b.rows, |b.rows|);
    if Distance(a, b) == 0 {
      FlattenInjective(a.rows, b.rows, |a.rows|);
    }
  }

  lemma DistanceSymmetric(a: ImageHash, b: ImageHash)
    requires Comparable(a, b)
    ensures Distance(a, b) == Distance(b, a)
  {
    FlattenLength(a.rows, |a.rows|);
    FlattenLength(b.rows, |b.rows|);
    MismatchesSymmetric(Flatten(a.rows), Flatten(b.rows));
  }

  /** `calculate_hash_similarity(hash1, hash2)`: (1 - d / n^2) * 100, with n^2 taken from hash1. */
  function HashSimilarity(a: ImageHash, b: ImageHash): (r: real)
    requires Comparable(a, b)
    ensures 0.0 <= r <= 100.0
  {
    RatioInUnit(Distance(a, b), BitCount(a));
    (1.0 - Distance(a, b) as real / BitCount(a) as real) * 100.0
  }

  /** Identical hashes and only identical hashes score 100; the score does not depend on argument order. */
  lemma HashSimilarityProperties(a: ImageHash, b: ImageHash)
    requires Comparable(a, b)
    ensures HashSimilarity(a, b) == 100.0 <==> a == b
    ensures HashSimilarity(a, a) == 100.0
    ensures HashSimilarity(a, b) == HashSimilarity(b, a)
  {
    DistanceZeroIff(a, b);
    DistanceZeroIff(a, a);
    DistanceSymmetric(a, b);
  }

  /** The duplicate rule's `> 70` on 8x8 hashes: at most 19 of the 64 bits may differ. */
  lemma HashSimilarityAboveSeventy(a: ImageHash, b: ImageHash)
    requires DefaultShape(a) && DefaultShape(b)
    ensures Comparable(a, b)
    ensures HashSimilarity(a, b) > 70.0 <==> Distance(a, b) <= 19
  {
    var d := Distance(a, b) as real;
    assert BitCount(a) == 64;
    assert HashSimilarity(a, b) == (1.0 - d / 64.0) * 100.0;
  }

  /** `phash_similarity`: 1 - (hash1 - hash2) / len(hash1.hash) ** 2, a fraction. */
  function PHashFraction(a: ImageHash, b: ImageHash): (r: real)
    requires Comparable(a, b)
    ensures r * 100.0 == HashSimilarity(a, b)
    ensures 0.0 <= r <= 1.0
  {
    RatioInUnit(Distance(a, b), BitCount(a));
    1.0 - Distance(a, b) as real / BitCount(a) as real
  }

  /** The bits read as one binary number, most significant first. */
  function BitsValue(bits: seq<bool>): (v: nat)
    ensures v < Pow(2, |bits|)
  {
    if bits == [] then 0
    else 2 * BitsValue(bits[..|bits| - 1]) + (if bits[|bits| - 1] then 1 else 0)
  }

  function HashValue(h: ImageHash): nat {
    BitsValue(Flatten(h.rows))
  }

  /** `str(hash)`: the bits as lower-case hexadecimal, zero-padded to ceil(bits / 4) digits. */
  function HashText(h: ImageHash): (s: string)
    requires Square(h) && |h.rows| >= 1
    ensures IsHexString(s)
    ensures ParseHex(s) == HashValue(h)
  {
    var bits := BitCount(h);
    var width := (bits + 3) / 4;
    PowMonotone(2, bits, 4 * width);
    Pow16IsPow2(width);
    ParseToHexWidth(HashValue(h), width);
    ToHexWidth(HashValue(h), width)
  }

  /** `len(bin(int(str(hash), 16))) - 2`: the bit length of the hash's value, leading zeros dropped, 1 for zero. */
  function TotalBits(h: ImageHash): (t: nat)
    requires Square(h) && |h.rows| >= 1
    ensures 1 <= t <= BitCount(h)
  {
    var v := ParseHex(HashText(h));
    assert v < Pow(2, BitCount(h));
    BinaryLength(v, BitCount(h));
    |Binary(v)|
  }

  /** `compare_hashes` and random_script.py: (1 - d / total_bits) * 100, with no clamp. */
  function BitLengthSimilarity(a: ImageHash, b: ImageHash): (r: real)
    requires Comparable(a, b)
    ensures r <= 100.0
  {
    (1.0 - Distance(a, b) as real / TotalBits(a) as real) * 100.0
  }

  /** Never above the n^2-based score, and equal to it once the first bit of hash1 is set. */
  lemma BitLengthSimilarityAgainstFullWidth(a: ImageHash, b: ImageHash)
    requires Comparable(a, b)
    ensures BitLengthSimilarity(a, b) <= HashSimilarity(a, b)
    ensures TotalBits(a) == BitCount(a) ==> BitLengthSimilarity(a, b) == HashSimilarity(a, b)
    ensures a == b ==> BitLengthSimilarity(a, b) == 100.0
  {
    DivideByLarger(Distance(a, b) as real, TotalBits(a) as real, BitCount(a) as real);
    if a == b {
      DistanceZeroIff(a, b);
    }
  }

  lemma DivideByLarger(d: real, t: real, n: real)
    requires 0.0 <= d && 0.0 < t <= n
    ensures d / n <= d / t
  {
    var x, y := d / n, d / t;
    assert x * n == d && y * t == d;
    assert x * t <= x * n;
  }

  /** A hash whose every bit has one value. */
  function UniformHash(n: nat, bit: bool): (h: ImageHash)
    ensures Square(h) && |h.rows| == n
  {
    ImageHash(seq(n, _ => seq(n, _ => bit)))
  }

  lemma {:induction false} FlattenUniform(m: seq<seq<bool>>, bit: bool)
    requires forall i, j :: 0 <= i < |m| && 0 <= j < |m[i]| ==> m[i][j] == bit
    ensures forall k :: 0 <= k < |Flatten(m)| ==> Flatten(m)[k] == bit
  {
    if m != [] {
      FlattenUniform(m[1..], bit);
    }
  }

  lemma {:induction false} ZeroBitsValue(bits: seq<bool>)
    requires forall k :: 0 <= k < |bits| ==> !bits[k]
    ensures BitsValue(bits) == 0
  {
    if bits != [] {
      ZeroBitsValue(bits[..|bits| - 1]);
    }
  }

  lemma {:induction false} OppositeMismatches(x: seq<bool>, y: seq<bool>)
    requires |x| == |y|
    requires forall k :: 0 <= k < |x| ==> x[k] != y[k]
    ensures Mismatches(x, y) == |x|
  {
    if x != [] {
      OppositeMismatches(x[1..], y[1..]);
    }
  }

  lemma ZeroHashTotalBits(n: nat)
    requires n >= 1
    ensures TotalBits(UniformHash(n, false)) == 1
  {
    var a := UniformHash(n, false);
    FlattenUniform(a.rows, false);
    ZeroBitsValue(Flatten(a.rows));
    assert HashValue(a) == 0;
    assert Binary(0) == "0";
  }

  lemma OppositeHashesDistance(n: nat)
    requires n >= 1
    ensures Comparable(UniformHash(n, false), UniformHash(n, true))
    ensures Distance(UniformHash(n, false), UniformHash(n, true)) == BitCount(UniformHash(n, false))
  {
    var a, b := UniformHash(n, false), UniformHash(n, true);
    FlattenUniform(a.rows, false);
    FlattenUniform(b.rows, true);
    FlattenLength(a.rows, n);
    FlattenLength(b.rows, n);
    OppositeMismatches(Flatten(a.rows), Flatten(b.rows));
  }

  /**
   * As written, compare_hashes divides by the bit length of hash1's value: an
   * all-zero 8x8 hash1 has bit length 1, so against an all-one hash2 the
   * "percentage" is (1 - 64 / 1) * 100.
   */
  lemma BitLengthSimilarityCanBeNegative()
    ensures Comparable(UniformHash(8, false), UniformHash(8, true))
    ensures BitLengthSimilarity(UniformHash(8, false), UniformHash(8, true)) == -6300.0
    ensures HashSimilarity(UniformHash(8, false), UniformHash(8, true)) == 0.0
  {
    OppositeHashScores(8);
  }

  lemma OppositeHashScores(n: nat)
    requires n >= 1
    ensures Comparable(UniformHash(n, false), UniformHash(n, true))
    ensures BitLengthSimilarity(UniformHash(n, false), UniformHash(n, true)) == 100.0 - 100.0 * (n * n) as real
    ensures HashSimilarity(UniformHash(n, false), UniformHash(n, true)) == 0.0
  {
    OppositeBitLengthScore(n);
    OppositeFullWidthScore(n);
  }

  lemma OppositeBitLengthScore(n: nat)
    requires n >= 1
    ensures Comparable(UniformHash(n, false), UniformHash(n, true))
    ensures BitLengthSimilarity(UniformHash(n, false), UniformHash(n, true)) == 100.0 - 100.0 * (n * n) as real
  {
    var a, b := UniformHash(n, false), UniformHash(n, true);
    ZeroHashTotalBits(n);
    OppositeHashesDistance(n);
    var d := Distance(a, b);
    assert d == n * n;
    assert BitLengthSimilarity(a, b) == (1.0 - d as real / 1.0) * 100.0;
  }

  lemma OppositeFullWidthScore(n: nat)
    requires n >= 1
    ensures Comparable(UniformHash(n, false), UniformHash(n, true))
    ensures HashSimilarity(UniformHash(n, false), UniformHash(n, true)) == 0.0
  {
    var a, b := UniformHash(n, false), UniformHash(n, true);
    OppositeHashesDistance(n);
    var d := Distance(a, b);
    assert d == BitCount(a) >= 1;
    assert d as real / BitCount(a) as real == 1.0;
  }

  /** The hash algorithms the dropdown and `generate_hash` know. */
  datatype HashAlgorithm = PHash | AHash | DHash | WHash

  /** The four hashes imagehash would compute for one image, each of the default size. */
  datatype LibraryHashes = LibraryHashes(phash: Hash8, ahash: Hash8, dhash: Hash8, whash: Hash8)

  /** The `hash_type` branches of `generate_hash`: one algorithm per supported tag, each tag its own. */
  function SelectAlgorithm(tag: string): (a: Option<HashAlgorithm>)
    ensures a.Some? <==> tag in ["phash", "ahash", "dhash", "whash"]
    ensures a == Some(PHash) <==> tag == "phash"
    ensures a == Some(AHash) <==> tag == "ahash"
    ensures a == Some(DHash) <==> tag == "dhash"
    ensures a == Some(WHash) <==> tag == "whash"
  {
    if tag == "phash" then Some(PHash)
    else if tag == "ahash" then Some(AHash)
    else if tag == "dhash" then Some(DHash)
    else if tag == "whash" then Some(WHash)
    else None
  }

  /** `generate_hash(image, hash_type)`: the chosen library hash, or None for any other tag. */
  function GenerateHash(image: LibraryHashes, tag: string): (r: Option<Hash8>)
    ensures r.None? <==> tag !in ["phash", "ahash", "dhash", "whash"]
    ensures tag == "phash" ==> r == Some(image.phash)
    ensures tag == "ahash" ==> r == Some(image.ahash)
    ensures tag == "dhash" ==> r == Some(image.dhash)
    ensures tag == "whash" ==> r == Some(image.whash)
  {
    match SelectAlgorithm(tag)
    case None => None
    case Some(PHash) => Some(image.phash)
    case Some(AHash) => Some(image.ahash)
    case Some(DHash) => Some(image.dhash)
    case Some(WHash) => Some(image.whash)
  }
}
