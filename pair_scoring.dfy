/**
 * The comparison image_check.py and angle_testing.py make between the
 * original and another image: `phash_similarity(...) * 100` and
 * `orb_similarity(...)`, both shown rounded to two places.
 */
module PairScoring {
  import opened Rounding
  import opened ImageHashing
  import opened FeatureMatching

  /** What the libraries report about one image: its pHash and its ORB detection. */
  datatype Shot = Shot(hash: Hash8, detection: Detection)

  /** `round(phash_sim, 2)` and `round(orb_sim, 2)` as a result line shows them. */
  datatype Readout = Readout(phash: real, orb: real)

  /**
   * The two rounded percentages; `matcher` is the cross-checked BFMatcher's
   * distances for two descriptor sets. Both are percentages within half a
   * hundredth of the exact scores; an unchanged hash reads 100 and a missing
   * descriptor array reads 0 for ORB.
   */
  function Compare(original: Shot, other: Shot, matcher: (Detection, Detection) -> seq<nat>): (r: Readout)
    ensures Comparable(original.hash, other.hash)
    ensures 0.0 <= r.phash <= 100.0 && 0.0 <= r.orb <= 100.0
    ensures HashSimilarity(original.hash, other.hash) - 0.005 <= r.phash <= HashSimilarity(original.hash, other.hash) + 0.005
    ensures original.hash == other.hash ==> r.phash == 100.0
    ensures var orb := OrbSimilarity(original.detection, other.detection, matcher(original.detection, other.detection));
      orb - 0.005 <= r.orb <= orb + 0.005
    ensures original.detection.NoDescriptors? || other.detection.NoDescriptors? ==> r.orb == 0.0
  {
    DefaultShapesComparable(original.hash, other.hash);
    var phashSim := PHashFraction(original.hash, other.hash) * 100.0;
    var orbSim := OrbSimilarity(original.detection, other.detection, matcher(original.detection, other.detection));
    Round2Bounds(phashSim);
    Round2Bounds(orbSim);
    HashSimilarityProperties(original.hash, other.hash);
    Round2Whole(100);
    Round2Whole(0);
    Readout(Round2(phashSim), Round2(orbSim))
  }
}
