/**
 * random_script.py's `apply_transformations`: two mild and two extensive
 * random crops, two mild and two extensive random rotations, then for each
 * transformed image its hash, the bit-length similarity to the original's
 * hash and the ORB match ratio.
 */
module RandomTransformations {
  import opened Wrappers
  import opened ImageHashing
  import opened FeatureMatching
  import opened Geometry

  /** The values the `random.randint` calls returned, in call order: per crop a box, per rotation an angle. */
  datatype Draws = Draws(mildCrops: seq<Box>, extensiveCrops: seq<Box>, mildAngles: seq<int>, extensiveAngles: seq<int>)

  /** Two draws of each kind, each within the inclusive ranges its randint calls were given. */
  predicate ValidDraws(w: nat, h: nat, d: Draws) {
    && |d.mildCrops| == 2 && |d.extensiveCrops| == 2 && |d.mildAngles| == 2 && |d.extensiveAngles| == 2
    && (forall i :: 0 <= i < 2 ==> MildCropRanges(w, h).Draws(d.mildCrops[i]))
    && (forall i :: 0 <= i < 2 ==> ExtensiveCropRanges(w, h).Draws(d.extensiveCrops[i]))
    && (forall i :: 0 <= i < 2 ==> MildRotationRange.Contains(d.mildAngles[i]))
    && (forall i :: 0 <= i < 2 ==> ExtensiveRotationRange.Contains(d.extensiveAngles[i]))
  }

  function Crops(boxes: seq<Box>): (ts: seq<Transform>)
    ensures |ts| == |boxes| && forall i :: 0 <= i < |boxes| ==> ts[i] == Crop(boxes[i])
  {
    seq(|boxes|, i requires 0 <= i < |boxes| => Crop(boxes[i]))
  }

  function Rotations(angles: seq<int>): (ts: seq<Transform>)
    ensures |ts| == |angles| && forall i :: 0 <= i < |angles| ==> ts[i] == Rotate(angles[i])
  {
    seq(|angles|, i requires 0 <= i < |angles| => Rotate(angles[i]))
  }

  /** The `transformed_images` list: the crops in draw order, then the rotations in draw order. */
  function RandomBattery(d: Draws): (ts: seq<Transform>)
    ensures var crops := |d.mildCrops| + |d.extensiveCrops|;
      && |ts| == crops + |d.mildAngles| + |d.extensiveAngles|
      && (forall i :: 0 <= i < crops ==> ts[i].Crop?)
      && (forall i :: crops <= i < |ts| ==> ts[i].Rotate?)
  {
    Crops(d.mildCrops) + Crops(d.extensiveCrops) + Rotations(d.mildAngles) + Rotations(d.extensiveAngles)
  }

  /**
   * Eight transformations: two mild crops, two extensive crops, two rotations
   * by at most 45 degrees and two by 45 to 360 degrees; every crop box lies
   * inside the image, the mild ones inside the band from an eighth to a
   * quarter of each side.
   */
  lemma RandomBatteryLayout(w: nat, h: nat, d: Draws)
    requires ValidDraws(w, h, d)
    ensures var ts := RandomBattery(d);
      && |ts| == 8
      && (forall i :: 0 <= i < 2 ==>
            ts[i] == Crop(d.mildCrops[i]) && ts[2 + i] == Crop(d.extensiveCrops[i])
            && ts[4 + i] == Rotate(d.mildAngles[i]) && ts[6 + i] == Rotate(d.extensiveAngles[i]))
      && (forall i :: 0 <= i < 4 ==> ts[i].Crop? && ts[i].box.Within(w, h))
      && (forall i :: 0 <= i < 2 ==>
            w / 8 <= ts[i].box.left <= w / 4 && 3 * w / 4 <= ts[i].box.right <= 7 * w / 8
            && h / 8 <= ts[i].box.top <= h / 4 && 3 * h / 4 <= ts[i].box.bottom <= 7 * h / 8)
      && (forall i :: 4 <= i < 8 ==> ts[i].Rotate?)
      && (forall i :: 4 <= i < 6 ==> 0 <= ts[i].degrees <= 45)
      && (forall i :: 6 <= i < 8 ==> 45 <= ts[i].degrees <= 360)
  {
    forall b | b in d.mildCrops
      ensures b.Within(w, h) && w / 8 <= b.left && b.right <= 7 * w / 8 && h / 8 <= b.top && b.bottom <= 7 * h / 8
    {
      MildCropInside(w, h, b);
    }
    forall b | b in d.extensiveCrops
      ensures b.Within(w, h)
    {
      ExtensiveCropInside(w, h, b);
    }
  }

  /** The four loops of `range(2)` that append the crops and the rotations to `transformed_images`. */
  method TransformImages(w: nat, h: nat, d: Draws) returns (transformed: seq<Transform>)
    requires ValidDraws(w, h, d)
    ensures transformed == RandomBattery(d)
  {
    transformed := [];
    for k := 0 to 2
      invariant transformed == Crops(d.mildCrops[..k])
    {
      assert d.mildCrops[..k + 1] == d.mildCrops[..k] + [d.mildCrops[k]];
      transformed := transformed + [Crop(d.mildCrops[k])];
    }
    assert d.mildCrops[..2] == d.mildCrops;
    ghost var mild := transformed;
    for k := 0 to 2
      invariant transformed == mild + Crops(d.extensiveCrops[..k])
    {
      assert d.extensiveCrops[..k + 1] == d.extensiveCrops[..k] + [d.extensiveCrops[k]];
      transformed := transformed + [Crop(d.extensiveCrops[k])];
    }
    assert d.extensiveCrops[..2] == d.extensiveCrops;
    ghost var crops := transformed;
    for k := 0 to 2
      invariant transformed == crops + Rotations(d.mildAngles[..k])
    {
      assert d.mildAngles[..k + 1] == d.mildAngles[..k] + [d.mildAngles[k]];
      transformed := transformed + [Rotate(d.mildAngles[k])];
    }
    assert d.mildAngles[..2] == d.mildAngles;
    ghost var mildRotations := transformed;
    for k := 0 to 2
      invariant transformed == mildRotations + Rotations(d.extensiveAngles[..k])
    {
      assert d.extensiveAngles[..k + 1] == d.extensiveAngles[..k] + [d.extensiveAngles[k]];
      transformed := transformed + [Rotate(d.extensiveAngles[k])];
    }
    assert d.extensiveAngles[..2] == d.extensiveAngles;
  }

  /** What the libraries report for one transformed image: its four hashes, its ORB detection and its matches against the original. */
  datatype Observation = Observation(hashes: LibraryHashes, detection: Detection, matches: seq<nat>)

  /** `(transformed_img, transformed_hash, hash_similarity_percentage, orb_similarity)`; the ORB score is None when a descriptor array is missing. */
  datatype Similarity = Similarity(transform: Transform, hash: Hash8, hashSimilarity: real, orbSimilarity: Option<real>)

  /** The optional first component of `orb_feature_matching`. */
  function OrbRatio(a: Detection, b: Detection, matches: seq<nat>, sha256: string -> string): Option<real>
    requires IsDigestFunction(sha256)
  {
    match OrbFeatureMatching(a, b, matches, sha256)
    case None => None
    case Some(scores) => Some(scores.0)
  }

  /**
   * One pass of the result loop. It raises, and is None, when
   * `original_hash - transformed_hash` meets a None hash, or when
   * `cv2.cvtColor(..., COLOR_RGB2GRAY)` refuses the original image, which the
   * model records as a missing `original` detection: a PIL mode without three
   * or four channels ("L", "P", "LA", "I;16") is refused, and the crops and
   * rotations keep the original's mode. Otherwise the pass describes its image.
   */
  function Record(originalHash: Option<Hash8>, original: Option<Detection>, t: Transform, seen: Observation, tag: string, sha256: string -> string): (pass: Option<Similarity>)
    requires IsDigestFunction(sha256)
    ensures pass.None? <==> originalHash.None? || SelectAlgorithm(tag).None? || original.None?
    ensures pass.Some? ==> Describes(originalHash.value, original.value, t, seen, tag, pass.value)
  {
    match GenerateHash(seen.hashes, tag)
    case None => None
    case Some(th) =>
      if originalHash.None? || original.None? then None
      else
        DefaultShapesComparable(originalHash.value, th);
        Some(Similarity(t, th, BitLengthSimilarity(originalHash.value, th), OrbRatio(original.value, seen.detection, seen.matches, sha256)))
  }

  /**
   * The `similarity_results` list after the loop over `transforms`, or None
   * once a pass has raised: a non-empty loop raises exactly when its passes
   * do, and one that does not raise has a result per transformation.
   */
  function Results(originalHash: Option<Hash8>, original: Option<Detection>, transforms: seq<Transform>, observe: Transform -> Observation, tag: string, sha256: string -> string): (rs: Option<seq<Similarity>>)
    requires IsDigestFunction(sha256)
    ensures transforms != [] ==> (rs.None? <==> originalHash.None? || SelectAlgorithm(tag).None? || original.None?)
    ensures rs.Some? ==> |rs.value| == |transforms|
  {
    if transforms == [] then Some([])
    else
      var last := transforms[|transforms| - 1];
      match Results(originalHash, original, transforms[..|transforms| - 1], observe, tag, sha256)
      case None => None
      case Some(rs) =>
        match Record(originalHash, original, last, observe(last), tag, sha256)
        case None => None
        case Some(s) => Some(rs + [s])
  }

  /**
   * What a recorded result says: its transformation, the transformed
   * image's hash for the chosen type, the bit-length similarity to the
   * original's hash, and an ORB ratio that is missing exactly when a
   * descriptor array is. Such a similarity is at most 100, and exactly 100
   * when the transformed image hashes like the original.
   */
  predicate Describes(originalHash: ImageHash, original: Detection, t: Transform, seen: Observation, tag: string, s: Similarity): (b: bool)
    ensures b ==> s.hashSimilarity <= 100.0
    ensures b && s.hash == originalHash ==> s.hashSimilarity == 100.0
  {
    if s.transform == t && Some(s.hash) == GenerateHash(seen.hashes, tag) && Comparable(originalHash, s.hash) then
      BitLengthSimilarityAgainstFullWidth(originalHash, s.hash);
      && s.hashSimilarity == BitLengthSimilarity(originalHash, s.hash)
      && (s.orbSimilarity.None? <==> original.NoDescriptors? || seen.detection.NoDescriptors?)
    else false
  }

  /** A loop that does not raise records one result per transformation, in order, each describing its transformed image. */
  lemma {:induction false} ResultsMeaning(originalHash: Option<Hash8>, original: Option<Detection>, transforms: seq<Transform>, observe: Transform -> Observation, tag: string, sha256: string -> string)
    requires IsDigestFunction(sha256)
    requires Results(originalHash, original, transforms, observe, tag, sha256).Some?
    ensures var r := Results(originalHash, original, transforms, observe, tag, sha256).value;
      forall i :: 0 <= i < |transforms| ==> Describes(originalHash.value, original.value, transforms[i], observe(transforms[i]), tag, r[i])
  {
    if transforms != [] {
      var n := |transforms| - 1;
      var init, last := transforms[..n], transforms[n];
      assert transforms[..n + 1] == transforms && transforms == init + [last];
      ResultsStep(originalHash, original, transforms, n, observe, tag, sha256);
      var before := Results(originalHash, original, init, observe, tag, sha256);
      var pass := Record(originalHash, original, last, observe(last), tag, sha256);
      assert before.Some? && pass.Some?;
      ResultsMeaning(originalHash, original, init, observe, tag, sha256);
      DescribedSnoc(originalHash.value, original.value, init, last, observe, tag, before.value, pass.value);
    }
  }

  /** Results that describe their transformations, followed by a description of one more, describe the longer run. */
  lemma DescribedSnoc(originalHash: ImageHash, original: Detection, init: seq<Transform>, last: Transform, observe: Transform -> Observation, tag: string, rs: seq<Similarity>, s: Similarity)
    requires |rs| == |init|
    requires forall i :: 0 <= i < |init| ==> Describes(originalHash, original, init[i], observe(init[i]), tag, rs[i])
    requires Describes(originalHash, original, last, observe(last), tag, s)
    ensures forall i :: 0 <= i < |init| + 1 ==>
              Describes(originalHash, original, (init + [last])[i], observe((init + [last])[i]), tag, (rs + [s])[i])
  {
    forall i | 0 <= i < |init| + 1
      ensures Describes(originalHash, original, (init + [last])[i], observe((init + [last])[i]), tag, (rs + [s])[i])
    {
      if i < |init| {
        assert (init + [last])[i] == init[i] && (rs + [s])[i] == rs[i];
      }
    }
  }

  /** One pass of the result loop: hash the transformed image, subtract the hashes, score ORB. */
  method RecordPass(originalHash: Option<Hash8>, original: Option<Detection>, t: Transform, seen: Observation, tag: string, sha256: string -> string)
    returns (pass: Option<Similarity>)
    requires IsDigestFunction(sha256)
    ensures pass == Record(originalHash, original, t, seen, tag, sha256)
  {
    var transformedHash := GenerateHash(seen.hashes, tag);
    if originalHash.None? || transformedHash.None? {
      return None;
    }
    var hash := transformedHash.value;
    DefaultShapesComparable(originalHash.value, hash);
    var hashSimilarity := BitLengthSimilarity(originalHash.value, hash);
    if original.None? {
      // the grey conversion of the original raises inside orb_feature_matching
      return None;
    }
    var orb := OrbRatio(original.value, seen.detection, seen.matches, sha256);
    pass := Some(Similarity(t, hash, hashSimilarity, orb));
  }

  /**
   * `apply_transformations(img, hash_type)`: the eight random
   * transformations, then the result loop, which consults the global
   * `original_hash` and `original_img`.
   */
  method ApplyTransformations(w: nat, h: nat, d: Draws, tag: string, originalHash: Option<Hash8>, original: Option<Detection>, observe: Transform -> Observation, sha256: string -> string)
    returns (results: Option<seq<Similarity>>)
    requires ValidDraws(w, h, d)
    requires IsDigestFunction(sha256)
    ensures results == Results(originalHash, original, RandomBattery(d), observe, tag, sha256)
  {
    var transformed := TransformImages(w, h, d);
    var similarity: seq<Similarity> := [];
    for i := 0 to |transformed|
      invariant Results(originalHash, original, transformed[..i], observe, tag, sha256) == Some(similarity)
    {
      var t := transformed[i];
      var pass := RecordPass(originalHash, original, t, observe(t), tag, sha256);
      ResultsStep(originalHash, original, transformed, i, observe, tag, sha256);
      if pass.None? {
        results := None;
        NoneStaysNone(originalHash, original, transformed, i + 1, observe, tag, sha256);
        return;
      }
      similarity := similarity + [pass.value];
    }
    assert transformed[..|transformed|] == transformed;
    results := Some(similarity);
  }

  /** The loop over one more transformation: the earlier results extended by its record, or raised when either raises. */
  lemma ResultsStep(originalHash: Option<Hash8>, original: Option<Detection>, transforms: seq<Transform>, i: nat, observe: Transform -> Observation, tag: string, sha256: string -> string)
    requires IsDigestFunction(sha256)
    requires i < |transforms|
    ensures var before, pass := Results(originalHash, original, transforms[..i], observe, tag, sha256), Record(originalHash, original, transforms[i], observe(transforms[i]), tag, sha256);
      Results(originalHash, original, transforms[..i + 1], observe, tag, sha256)
      == if before.None? || pass.None? then None else Some(before.value + [pass.value])
  {
    assert transforms[..i + 1][..i] == transforms[..i];
  }

  /** Once a pass has raised, the loop over any longer prefix has raised too. */
  lemma {:induction false} NoneStaysNone(originalHash: Option<Hash8>, original: Option<Detection>, transforms: seq<Transform>, k: nat, observe: Transform -> Observation, tag: string, sha256: string -> string)
    requires IsDigestFunction(sha256)
    requires k <= |transforms|
    requires Results(originalHash, original, transforms[..k], observe, tag, sha256).None?
    ensures Results(originalHash, original, transforms, observe, tag, sha256).None?
    decreases |transforms| - k
  {
    if k < |transforms| {
      assert transforms[..k + 1][..k] == transforms[..k];
      NoneStaysNone(originalHash, original, transforms, k + 1, observe, tag, sha256);
    } else {
      assert transforms[..k] == transforms;
    }
  }

  /**
   * Every run of `apply_transformations` with a supported hash type, a
   * hashed original and an original the grey conversion accepts records eight results, for the crops and then the
   * rotations in draw order.
   */
  lemma ApplyTransformationsLayout(w: nat, h: nat, d: Draws, tag: string, originalHash: Option<Hash8>, original: Option<Detection>, observe: Transform -> Observation, sha256: string -> string)
    requires ValidDraws(w, h, d)
    requires IsDigestFunction(sha256)
    requires originalHash.Some? && SelectAlgorithm(tag).Some? && original.Some?
    ensures var r := Results(originalHash, original, RandomBattery(d), observe, tag, sha256);
      && r.Some? && |r.value| == 8
      && forall i :: 0 <= i < 8 ==> r.value[i].transform == RandomBattery(d)[i] && r.value[i].hashSimilarity <= 100.0
  {
    RandomBatteryLayout(w, h, d);
    var ts := RandomBattery(d);
    ResultsMeaning(originalHash, original, ts, observe, tag, sha256);
  }
}
