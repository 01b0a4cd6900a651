/**
 * ORB keypoint matching scores, and random_script.py's descriptor encoding:
 * descriptor bytes as '0'/'1' strings, SHA-256 over their concatenation, and
 * the Hamming distance between two hexadecimal digests.
 */
module FeatureMatching {
  import opened Wrappers
  import opened Numerals

  type Byte = b: int | 0 <= b < 256

  /** One ORB descriptor row (32 bytes for ORB's default configuration). */
  type Descriptor = seq<Byte>

  /** A descriptor array; OpenCV returns one only when it found a keypoint, one row per keypoint. */
  type DescriptorRows = s: seq<Descriptor> | |s| >= 1 witness [[]]

  /** `kp, des = orb.detectAndCompute(img, None)`: `des` is None or has a row per keypoint. */
  datatype Detection = NoDescriptors | Detected(descriptors: DescriptorRows) {
    function Keypoints(): nat
      requires Detected?
    {
      |descriptors|
    }
  }

  /** Matches below this Hamming distance count as good. */
  const GoodMatchDistance: nat := 42

  /** `[m for m in matches if m.distance < 42]`, on the match distances. */
  function GoodMatches(distances: seq<nat>): (good: seq<nat>)
    ensures |good| <= |distances|
    ensures forall i :: 0 <= i < |good| ==> good[i] < GoodMatchDistance
  {
    if distances == [] then []
    else (if distances[0] < GoodMatchDistance then [distances[0]] else []) + GoodMatches(distances[1..])
  }

  /** The filter keeps every distance below 42 as often as it occurs, and nothing else. */
  lemma {:induction false} GoodMatchesMultiset(distances: seq<nat>)
    ensures forall d :: multiset(GoodMatches(distances))[d] == if d < GoodMatchDistance then multiset(distances)[d] else 0
  {
    if distances != [] {
      GoodMatchesMultiset(distances[1..]);
      assert distances == [distances[0]] + distances[1..];
    }
  }

  function MinKeypoints(a: Detection, b: Detection): (m: nat)
    requires a.Detected? && b.Detected?
    ensures m >= 1 && m <= a.Keypoints() && m <= b.Keypoints()
  {
    if a.Keypoints() <= b.Keypoints() then a.Keypoints() else b.Keypoints()
  }

  /** good / min(len(kp1), len(kp2)) * 100, capped at 100. */
  function CappedRatio(good: nat, a: Detection, b: Detection): (r: real)
    requires a.Detected? && b.Detected?
    ensures 0.0 <= r <= 100.0
    ensures r == 0.0 <==> good == 0
    ensures good <= MinKeypoints(a, b) ==> r == good as real / MinKeypoints(a, b) as real * 100.0
  {
    var raw := good as real / MinKeypoints(a, b) as real * 100.0;
    assert good <= MinKeypoints(a, b) ==> raw <= 100.0;
    if raw < 100.0 then raw else 100.0
  }

  /**
   * image_check.py's and angle_testing.py's `orb_similarity`: 0 when either
   * descriptor array is missing, otherwise the capped share of good matches.
   */
  function OrbSimilarity(a: Detection, b: Detection, matches: seq<nat>): (r: real)
    ensures 0.0 <= r <= 100.0
    ensures a.NoDescriptors? || b.NoDescriptors? ==> r == 0.0
    ensures r == 0.0 <==> a.NoDescriptors? || b.NoDescriptors? || GoodMatches(matches) == []
  {
    if a.NoDescriptors? || b.NoDescriptors? then 0.0
    else CappedRatio(|GoodMatches(matches)|, a, b)
  }

  /** data_breakdown.py's `orb_similarity`, which also returns 0 early when there are no matches at all. */
  function BreakdownOrbSimilarity(a: Detection, b: Detection, matches: seq<nat>): (r: real)
    ensures 0.0 <= r <= 100.0
    ensures a.NoDescriptors? || b.NoDescriptors? || matches == [] ==> r == 0.0
  {
    if a.NoDescriptors? || b.NoDescriptors? then 0.0
    else if |matches| == 0 then 0.0
    else CappedRatio(|GoodMatches(matches)|, a, b)
  }

  /** The extra early return changes nothing: both versions give the same score on every input. */
  lemma OrbVariantsAgree(a: Detection, b: Detection, matches: seq<nat>)
    ensures BreakdownOrbSimilarity(a, b, matches) == OrbSimilarity(a, b, matches)
  {
    if matches == [] {
      assert GoodMatches(matches) == [];
    }
  }

  /** A cross-checked matcher pairs each keypoint at most once; then the cap of 100 never cuts in. */
  lemma OrbCapInactive(a: Detection, b: Detection, matches: seq<nat>)
    requires a.Detected? && b.Detected?
    requires |matches| <= MinKeypoints(a, b)
    ensures OrbSimilarity(a, b, matches) == |GoodMatches(matches)| as real / MinKeypoints(a, b) as real * 100.0
  {
  }

  /** `format(byte, '08b')`: the byte's binary digits zero-filled to eight. */
  function ByteBits(b: Byte): (s: string)
    ensures |s| == 8 && IsBitString(s)
  {
    assert Pow(2, 8) == 256;
    ZFillBinary(b, 8);
    ZFill(Binary(b), 8)
  }

  /** The characters of ByteBits are the byte's bits, most significant first. */
  lemma ByteBitsMostSignificantFirst(b: Byte)
    ensures ByteBits(b) == ToBinaryWidth(b, 8)
    ensures ParseBinary(ByteBits(b)) == b
  {
    assert Pow(2, 8) == 256;
    ZFillBinary(b, 8);
    ParseToBinaryWidth(b, 8);
  }

  /** `''.join(format(byte, '08b') for byte in descriptor)`. */
  function DescriptorBits(d: Descriptor): (s: string)
    ensures |s| == 8 * |d| && IsBitString(s)
  {
    if d == [] then ""
    else
      var head, tail := ByteBits(d[0]), DescriptorBits(d[1..]);
      BitStringConcat(head, tail);
      head + tail
  }

  lemma BitStringConcat(x: string, y: string)
    requires IsBitString(x) && IsBitString(y)
    ensures IsBitString(x + y)
  {
    assert forall i :: 0 <= i < |x + y| ==> (x + y)[i] == if i < |x| then x[i] else y[i - |x|];
  }

  /** Reads a bit string back eight characters at a time. */
  function DecodeDescriptor(s: string): (d: Descriptor)
    requires IsBitString(s) && |s| % 8 == 0
    ensures |d| == |s| / 8
  {
    if s == [] then []
    else
      ToBinaryWidthParse(s[..8]);
      assert Pow(2, 8) == 256;
      [ParseBinary(s[..8])] + DecodeDescriptor(s[8..])
  }

  /** The encoding loses nothing: decoding a descriptor's bit string gives the descriptor back. */
  lemma {:induction false} DescriptorBitsRoundTrip(d: Descriptor)
    ensures DecodeDescriptor(DescriptorBits(d)) == d
  {
    if d != [] {
      var s := DescriptorBits(d);
      assert s[..8] == ByteBits(d[0]);
      assert s[8..] == DescriptorBits(d[1..]);
      ByteBitsMostSignificantFirst(d[0]);
      DescriptorBitsRoundTrip(d[1..]);
    }
  }

  /** `orb_descriptors_to_bitstring`: one bit string per descriptor, in order. */
  method DescriptorsToBitstrings(descriptors: seq<Descriptor>) returns (bitstrings: seq<string>)
    ensures |bitstrings| == |descriptors|
    ensures forall i :: 0 <= i < |descriptors| ==> bitstrings[i] == DescriptorBits(descriptors[i])
  {
    bitstrings := [];
    for i := 0 to |descriptors|
      invariant |bitstrings| == i
      invariant forall j :: 0 <= j < i ==> bitstrings[j] == DescriptorBits(descriptors[j])
    {
      var bitstring := DescriptorBits(descriptors[i]);
      bitstrings := bitstrings + [bitstring];
    }
  }

  /** `''.join(bitstrings)` over every descriptor: the text that orb_descriptors_to_sha256 hashes. */
  function ConcatenatedBits(descriptors: seq<Descriptor>): (s: string)
    ensures IsBitString(s)
  {
    if descriptors == [] then ""
    else
      var head, tail := DescriptorBits(descriptors[0]), ConcatenatedBits(descriptors[1..]);
      BitStringConcat(head, tail);
      head + tail
  }

  /** Position by position over the shorter string, as `zip` does. */
  function ZipMismatches(x: string, y: string): (d: nat)
    ensures d <= |x| && d <= |y|
  {
    if x == [] || y == [] then 0
    else (if x[0] != y[0] then 1 else 0) + ZipMismatches(x[1..], y[1..])
  }

  lemma {:induction false} ZipMismatchesSelf(x: string)
    ensures ZipMismatches(x, x) == 0
  {
    if x != [] {
      ZipMismatchesSelf(x[1..]);
    }
  }

  lemma {:induction false} ZipMismatchesSymmetric(x: string, y: string)
    ensures ZipMismatches(x, y) == ZipMismatches(y, x)
  {
    if x != [] && y != [] {
      ZipMismatchesSymmetric(x[1..], y[1..]);
    }
  }

  lemma {:induction false} ZipMismatchesZero(x: string, y: string)
    requires |x| == |y| && ZipMismatches(x, y) == 0
    ensures x == y
  {
    if x != [] {
      ZipMismatchesZero(x[1..], y[1..]);
      assert x == [x[0]] + x[1..] && y == [y[0]] + y[1..];
    }
  }

  /** Width both digests are zero-filled to. */
  const DigestBits: nat := 256

  function Bin256(h: string): string
    requires IsHexString(h)
  {
    ZFill(Binary(ParseHex(h)), DigestBits)
  }

  /**
   * `hamming_distance(hash1, hash2)` on hexadecimal strings: zero on equal
   * inputs; for inputs of at most 64 digits, at most 256 and zero exactly
   * when both strings name the same number.
   */
  function HexHammingDistance(h1: string, h2: string): (d: nat)
    requires IsHexString(h1) && IsHexString(h2)
    ensures h1 == h2 ==> d == 0
    ensures |h1| <= 64 && |h2| <= 64 ==> d <= DigestBits && (d == 0 <==> ParseHex(h1) == ParseHex(h2))
  {
    ZipMismatchesSelf(Bin256(h1));
    var d := ZipMismatches(Bin256(h1), Bin256(h2));
    if |h1| <= 64 && |h2| <= 64 then
      HexDistanceFixedWidth(h1, h2, DigestBits / 4);
      d
    else d
  }

  /** A string of at most k hexadecimal digits, zero-filled in binary to 4k places, is its fixed-width rendering. */
  lemma HexFixedWidth(h: string, k: nat)
    requires IsHexString(h) && |h| <= k
    ensures ParseHex(h) < Pow(2, 4 * k)
    ensures ZFill(Binary(ParseHex(h)), 4 * k) == ToBinaryWidth(ParseHex(h), 4 * k)
  {
    PowMonotone(16, |h|, k);
    Pow16IsPow2(k);
    ZFillBinary(ParseHex(h), 4 * k);
  }

  /** Two strings of at most k hexadecimal digits: zip over 4k positions, zero exactly on equal values. */
  lemma HexDistanceFixedWidth(h1: string, h2: string, k: nat)
    requires IsHexString(h1) && IsHexString(h2) && |h1| <= k && |h2| <= k
    ensures ZipMismatches(ZFill(Binary(ParseHex(h1)), 4 * k), ZFill(Binary(ParseHex(h2)), 4 * k)) <= 4 * k
    ensures ZipMismatches(ZFill(Binary(ParseHex(h1)), 4 * k), ZFill(Binary(ParseHex(h2)), 4 * k)) == 0
            <==> ParseHex(h1) == ParseHex(h2)
  {
    HexFixedWidth(h1, k);
    HexFixedWidth(h2, k);
    var x, y := ZFill(Binary(ParseHex(h1)), 4 * k), ZFill(Binary(ParseHex(h2)), 4 * k);
    if ZipMismatches(x, y) == 0 {
      ZipMismatchesZero(x, y);
      ParseToBinaryWidth(ParseHex(h1), 4 * k);
      ParseToBinaryWidth(ParseHex(h2), 4 * k);
    }
    if ParseHex(h1) == ParseHex(h2) {
      ZipMismatchesSelf(x);
    }
  }

  /** The distance does not depend on the order of its arguments. */
  lemma HexHammingSymmetric(h1: string, h2: string)
    requires IsHexString(h1) && IsHexString(h2)
    ensures HexHammingDistance(h1, h2) == HexHammingDistance(h2, h1)
  {
    ZipMismatchesSymmetric(Bin256(h1), Bin256(h2));
  }

  /** `(1 - hamming_dist / 256) * 100`. */
  function DigestSimilarity(h1: string, h2: string): (r: real)
    requires IsHexString(h1) && IsHexString(h2) && |h1| <= 64 && |h2| <= 64
    ensures 0.0 <= r <= 100.0
    ensures h1 == h2 ==> r == 100.0
  {
    (1.0 - HexHammingDistance(h1, h2) as real / DigestBits as real) * 100.0
  }

  /** What SHA-256 guarantees of a hex digest: 64 hexadecimal digits. */
  ghost predicate IsDigestFunction(sha256: string -> string) {
    forall s :: IsHexString(sha256(s)) && |sha256(s)| == 64
  }

  /** count / min(len(kp1), len(kp2)) * 100, uncapped. */
  function MatchRatio(count: nat, a: Detection, b: Detection): (r: real)
    requires a.Detected? && b.Detected?
    ensures 0.0 <= r
    ensures count <= MinKeypoints(a, b) ==> r <= 100.0
  {
    count as real / MinKeypoints(a, b) as real * 100.0
  }

  /**
   * random_script.py's `orb_feature_matching`: None when either descriptor
   * array is missing, otherwise every cross-checked match over the smaller
   * keypoint count (no distance filter, no cap) and the digest similarity.
   */
  function OrbFeatureMatching(a: Detection, b: Detection, matches: seq<nat>, sha256: string -> string): (r: Option<(real, real)>)
    requires IsDigestFunction(sha256)
    ensures r.None? <==> a.NoDescriptors? || b.NoDescriptors?
    ensures r.Some? ==> 0.0 <= r.value.0 && 0.0 <= r.value.1 <= 100.0
    ensures r.Some? && |matches| <= MinKeypoints(a, b) ==> r.value.0 <= 100.0
  {
    if a.Detected? && b.Detected? then
      var digestA := sha256(ConcatenatedBits(a.descriptors));
      var digestB := sha256(ConcatenatedBits(b.descriptors));
      assert IsHexString(digestA) && |digestA| == 64;
      assert IsHexString(digestB) && |digestB| == 64;
      Some((MatchRatio(|matches|, a, b), DigestSimilarity(digestA, digestB)))
    else None
  }

  /** Counting every match instead of the good ones, uncapped, never scores below the GUIs' orb_similarity. */
  lemma OrbFeatureMatchingAtLeastOrbSimilarity(a: Detection, b: Detection, matches: seq<nat>, sha256: string -> string)
    requires IsDigestFunction(sha256)
    requires a.Detected? && b.Detected?
    ensures OrbFeatureMatching(a, b, matches, sha256).Some?
    ensures OrbSimilarity(a, b, matches) <= OrbFeatureMatching(a, b, matches, sha256).value.0
  {
    var m := MinKeypoints(a, b) as real;
    var g := |GoodMatches(matches)| as real;
    var all := |matches| as real;
    PercentMonotone(g, all, m);
    assert OrbFeatureMatching(a, b, matches, sha256).value.0 == MatchRatio(|matches|, a, b);
  }

  lemma PercentMonotone(x: real, y: real, m: real)
    requires 0.0 <= x <= y && m > 0.0
    ensures x / m * 100.0 <= y / m * 100.0
  {
    var q, r := x / m, y / m;
    assert (r - q) * m == y - x;
  }
}
