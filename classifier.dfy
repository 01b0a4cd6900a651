/** full-system.py's `is_duplicate`: three rules in a fixed order, each adding its reason. */
module DuplicateClassifier {
  import opened Numerals
  import opened Rounding
  import opened ImageHashing
  import opened BlackPixels

  datatype Reason = Dimensions | BlackSpace | PHashMatch | NoDuplicate

  /** The reason strings the report shows. */
  function Label(r: Reason): string {
    match r
    case Dimensions => "Dimensions"
    case BlackSpace => "Black Space"
    case PHashMatch => "pHash"
    case NoDuplicate => "No Duplicate"
  }

  /** Position of a rule in the evaluation order; "No Duplicate" comes after all of them. */
  function Rank(r: Reason): nat {
    match r
    case Dimensions => 0
    case BlackSpace => 1
    case PHashMatch => 2
    case NoDuplicate => 3
  }

  const MinDimension: nat := 720
  const BlackSpaceThreshold: real := 2.0
  const HashThreshold: real := 70.0

  /** What is_duplicate reads of one transformed image: its size, its grayscale pixels and its pHash. */
  datatype Inspected = Inspected(width: nat, height: nat, gray: seq<Intensity>, phash: ImageHash)

  /** `image.size[0] < 720 or image.size[1] < 720`. */
  predicate DimensionsRule(v: Inspected) {
    v.width < MinDimension || v.height < MinDimension
  }

  /** An image that passes the size check has at least 720 x 720 pixels. */
  lemma DimensionsRuleArea(v: Inspected)
    ensures !DimensionsRule(v) ==> MinDimension * MinDimension <= v.width * v.height
  {
    if !DimensionsRule(v) {
      assert MinDimension * MinDimension <= v.width * MinDimension <= v.width * v.height;
    }
  }

  /** `calculate_black_pixel_percentage(image) > 2`; NaN for an empty image compares false. */
  predicate BlackSpaceRule(v: Inspected) {
    var p := BlackPercentage(v.gray);
    p.Some? && p.value > BlackSpaceThreshold
  }

  /** An image that fires the black-space check has a black pixel. */
  lemma BlackSpaceRuleBlack(v: Inspected)
    ensures BlackSpaceRule(v) ==> 0 in v.gray
  {
  }

  /** `calculate_hash_similarity(standardized_phash, calculate_phash(image)) > 70`. */
  predicate PHashRule(v: Inspected, standardized: ImageHash)
    requires Comparable(standardized, v.phash)
  {
    HashSimilarity(standardized, v.phash) > HashThreshold
  }

  /** An unchanged hash always fires, and a hash that fires differs in fewer than three tenths of its bits. */
  lemma PHashRuleBits(v: Inspected, standardized: ImageHash)
    requires Comparable(standardized, v.phash)
    ensures standardized == v.phash ==> PHashRule(v, standardized)
    ensures PHashRule(v, standardized) ==> 10 * Distance(standardized, v.phash) < 3 * BitCount(standardized)
  {
    HashSimilarityProperties(standardized, v.phash);
    if PHashRule(v, standardized) {
      ScoreAboveSeventy(Distance(standardized, v.phash), BitCount(standardized));
    }
  }

  /** A score above 70 over n bits leaves fewer than three tenths of them differing. */
  lemma ScoreAboveSeventy(d: nat, n: nat)
    requires 1 <= n && (1.0 - d as real / n as real) * 100.0 > 70.0
    ensures 10 * d < 3 * n
  {
    var dr, nr := d as real, n as real;
    var q := dr / nr;
    assert q < 0.3;
    assert q * nr == dr;
    ScaleStrict(q, 0.3, nr);
    assert 10.0 * dr < 3.0 * nr;
    assert (10 * d) as real == 10.0 * dr && (3 * n) as real == 3.0 * nr;
  }

  lemma ScaleStrict(x: real, y: real, z: real)
    requires x < y && 0.0 < z
    ensures x * z < y * z
  {
  }

  function Fired(v: Inspected, standardized: ImageHash): seq<Reason>
    requires Comparable(standardized, v.phash)
  {
    (if DimensionsRule(v) then [Dimensions] else [])
    + (if BlackSpaceRule(v) then [BlackSpace] else [])
    + (if PHashRule(v, standardized) then [PHashMatch] else [])
  }

  datatype Verdict = Verdict(duplicate: bool, reasons: seq<Reason>)

  /**
   * The verdict is "duplicate" iff some rule fired; the reasons are the fired
   * rules, or "No Duplicate" alone. So the reasons are never empty and come
   * in rule order without repeats; each rule's reason is present exactly when
   * its condition holds; "No Duplicate" appears only alone, and exactly when
   * the verdict is "not duplicate".
   */
  function Classify(v: Inspected, standardized: ImageHash): (c: Verdict)
    requires Comparable(standardized, v.phash)
    ensures |c.reasons| >= 1
    ensures forall i, j :: 0 <= i < j < |c.reasons| ==> Rank(c.reasons[i]) < Rank(c.reasons[j])
    ensures Dimensions in c.reasons <==> v.width < MinDimension || v.height < MinDimension
    ensures BlackSpace in c.reasons <==> BlackSpaceRule(v)
    ensures PHashMatch in c.reasons <==> HashSimilarity(standardized, v.phash) > HashThreshold
    ensures NoDuplicate in c.reasons <==> c.reasons == [NoDuplicate]
    ensures c.duplicate <==> NoDuplicate !in c.reasons
  {
    var fired := Fired(v, standardized);
    Verdict(DimensionsRule(v) || BlackSpaceRule(v) || PHashRule(v, standardized),
            if fired == [] then [NoDuplicate] else fired)
  }

  /** `is_duplicate(image, standardized_phash)`: appends a reason per firing rule, then derives the flag from the list. */
  method IsDuplicate(v: Inspected, standardized: ImageHash) returns (duplicate: bool, reasons: seq<Reason>)
    requires Comparable(standardized, v.phash)
    ensures Verdict(duplicate, reasons) == Classify(v, standardized)
  {
    reasons := [];
    if v.width < MinDimension || v.height < MinDimension {
      reasons := reasons + [Dimensions];
    }
    var black := BlackPercentage(v.gray);
    if black.Some? && black.value > BlackSpaceThreshold {
      reasons := reasons + [BlackSpace];
    }
    if HashSimilarity(standardized, v.phash) > HashThreshold {
      reasons := reasons + [PHashMatch];
    }
    assert reasons == Fired(v, standardized);
    assert NoDuplicate !in reasons;
    if reasons == [] {
      reasons := reasons + [NoDuplicate];
    }
    duplicate := reasons != [] && reasons != [NoDuplicate];
    assert reasons != [NoDuplicate] <==> Fired(v, standardized) != [];
  }

  /** Because the percentage is rounded to two places first, black space fires exactly above 2.005 percent. */
  lemma BlackSpaceRuleExact(v: Inspected)
    requires |v.gray| > 0
    ensures BlackSpaceRule(v) <==> ExactBlackPercentage(v.gray) > 2.005
  {
    Round2AboveTwo(ExactBlackPercentage(v.gray));
  }

  /** With the library's 8x8 hashes, the pHash rule fires when at most 19 bits differ. */
  lemma PHashRuleExact(v: Inspected, standardized: ImageHash)
    requires DefaultShape(standardized) && DefaultShape(v.phash)
    ensures Comparable(standardized, v.phash)
    ensures PHashRule(v, standardized) <==> Distance(standardized, v.phash) <= 19
  {
    HashSimilarityAboveSeventy(standardized, v.phash);
  }

  /**
   * The Reason cell: `", ".join(reasons)` for a duplicate, "No Duplicate"
   * otherwise; a single reason shows as its own label, and two or more are
   * separated by ", ".
   */
  function ReasonCell(c: Verdict): (cell: string)
    ensures !c.duplicate ==> cell == Label(NoDuplicate)
    ensures c.duplicate && |c.reasons| == 1 ==> cell == Label(c.reasons[0])
    ensures c.duplicate && |c.reasons| >= 2 ==> cell == Label(c.reasons[0]) + ", " + Join(Labels(c.reasons[1..]), ", ")
  {
    if c.duplicate then Join(Labels(c.reasons), ", ") else "No Duplicate"
  }

  function Labels(rs: seq<Reason>): (ls: seq<string>)
    ensures |ls| == |rs| && forall i :: 0 <= i < |rs| ==> ls[i] == Label(rs[i])
  {
    if rs == [] then [] else [Label(rs[0])] + Labels(rs[1..])
  }

  /** Both branches of the row write amount to joining the reasons. */
  lemma ReasonCellJoinsReasons(v: Inspected, standardized: ImageHash)
    requires Comparable(standardized, v.phash)
    ensures ReasonCell(Classify(v, standardized)) == Join(Labels(Classify(v, standardized).reasons), ", ")
  {
  }
}
