/**
 * image_check.py: one uploaded image, the eight fixed variants of it, and a
 * result line per variant giving its pHash and ORB similarity to the original.
 */
module ImageCheck {
  import opened Wrappers
  import opened ImageHashing
  import opened FeatureMatching
  import opened Geometry
  import opened PairScoring

  /**
   * The uploaded image as the libraries see it: its size, its own pHash and
   * ORB detection, and those of the image each transformation yields.
   */
  datatype Upload = Upload(width: nat, height: nat, shot: Shot, transformed: Transform -> Shot)

  /** One line `"{name}: pHash {p}%, ORB {o}%"` of the results label. */
  datatype ResultLine = ResultLine(name: string, scores: Readout)

  /**
   * `apply_transformations` and `rotate_image`: the eight variants in the
   * dict's insertion order; crop k keeps rows int(f h) to int((1 - f) h) and
   * columns int(f w) to int((1 - f) w) for its margin f, and every rotation
   * keeps the w x h canvas.
   */
  lemma AlteredImageSizes(w: nat, h: nat)
    ensures |FixedBattery(w, h)| == 8 && Names(FixedBattery(w, h)) == FixedNames
    ensures forall i :: 0 <= i < 4 ==>
              OutputSize(w, h, FixedBattery(w, h)[i].transform)
              == Size(Fraction(100 - CropMargins[i], w) - Fraction(CropMargins[i], w),
                      Fraction(100 - CropMargins[i], h) - Fraction(CropMargins[i], h))
    ensures forall i :: 4 <= i < 8 ==> OutputSize(w, h, FixedBattery(w, h)[i].transform) == Size(w, h)
  {
  }

  /** The line for one variant: its name and the rounded scores of the original against it. */
  function Line(u: Upload, v: Variant, matcher: (Detection, Detection) -> seq<nat>): (line: ResultLine)
    ensures line.name == v.name
    ensures 0.0 <= line.scores.phash <= 100.0 && 0.0 <= line.scores.orb <= 100.0
    ensures u.transformed(v.transform).hash == u.shot.hash ==> line.scores.phash == 100.0
    ensures u.transformed(v.transform).detection.NoDescriptors? ==> line.scores.orb == 0.0
  {
    ResultLine(v.name, Compare(u.shot, u.transformed(v.transform), matcher))
  }

  /** The `results` list after the loop of `process_image` has visited `variants`. */
  function ResultLines(u: Upload, variants: seq<Variant>, matcher: (Detection, Detection) -> seq<nat>): (lines: seq<ResultLine>)
    ensures |lines| == |variants|
  {
    if variants == [] then []
    else ResultLines(u, variants[..|variants| - 1], matcher) + [Line(u, variants[|variants| - 1], matcher)]
  }

  /** Line i belongs to variant i. */
  lemma {:induction false} ResultLinesInOrder(u: Upload, variants: seq<Variant>, matcher: (Detection, Detection) -> seq<nat>)
    ensures forall i :: 0 <= i < |variants| ==> ResultLines(u, variants, matcher)[i] == Line(u, variants[i], matcher)
  {
    if variants != [] {
      var init := variants[..|variants| - 1];
      ResultLinesInOrder(u, init, matcher);
      assert forall i :: 0 <= i < |init| ==> variants[i] == init[i];
    }
  }

  /**
   * After processing there are exactly eight lines, named as the catalogue in
   * its order, each holding two percentages; a variant whose pHash equals the
   * original's reads 100, and a variant without descriptors reads 0 for ORB.
   */
  lemma ProcessedLines(u: Upload, matcher: (Detection, Detection) -> seq<nat>)
    ensures var lines := ResultLines(u, FixedBattery(u.width, u.height), matcher);
      && |lines| == 8
      && (forall i :: 0 <= i < 8 ==> lines[i].name == FixedNames[i])
      && (forall i :: 0 <= i < 8 ==>
            0.0 <= lines[i].scores.phash <= 100.0 && 0.0 <= lines[i].scores.orb <= 100.0)
      && (forall i :: 0 <= i < 8 && u.transformed(FixedBattery(u.width, u.height)[i].transform).hash == u.shot.hash ==>
            lines[i].scores.phash == 100.0)
      && (forall i :: 0 <= i < 8 && u.transformed(FixedBattery(u.width, u.height)[i].transform).detection.NoDescriptors? ==>
            lines[i].scores.orb == 0.0)
  {
    var variants := FixedBattery(u.width, u.height);
    ResultLinesInOrder(u, variants, matcher);
    forall i | 0 <= i < 8
      ensures variants[i].name == FixedNames[i]
    {
      assert Names(variants)[i] == variants[i].name;
    }
    forall i | 0 <= i < 8
      ensures Compare(u.shot, u.transformed(variants[i].transform), matcher) == ResultLines(u, variants, matcher)[i].scores
    {
    }
    forall i | 0 <= i < 8
      ensures var r := Compare(u.shot, u.transformed(variants[i].transform), matcher);
        && 0.0 <= r.phash <= 100.0 && 0.0 <= r.orb <= 100.0
        && (u.transformed(variants[i].transform).hash == u.shot.hash ==> r.phash == 100.0)
        && (u.transformed(variants[i].transform).detection.NoDescriptors? ==> r.orb == 0.0)
    {
      var r := Compare(u.shot, u.transformed(variants[i].transform), matcher);
    }
  }

  /** The application's state: the uploaded image, the altered images kept for download, and the results label. */
  class ImageProcessor {
    var original: Option<Upload>
    var alteredImages: seq<Variant>
    var shownResults: seq<ResultLine>

    constructor ()
      ensures original == None && alteredImages == [] && shownResults == []
    {
      original := None;
      alteredImages := [];
      shownResults := [];
    }

    /** `upload_image`: a chosen, readable image replaces the original; a cancelled dialog or a load error changes nothing. */
    method UploadImage(pick: Option<Upload>)
      modifies this`original
      ensures original == (if pick.Some? then pick else old(original))
    {
      if pick.Some? {
        original := pick;
      }
    }

    /**
     * `process_image`: without an uploaded image the attribute lookup fails
     * and nothing changes. Otherwise the altered images become the fixed
     * catalogue of the original, and the loop compares the original with
     * each variant; `cv2.cvtColor` in `phash_similarity` raises on a variant
     * without pixels, which ends the call before the label is set. When no
     * variant is empty the label shows one line per variant, in catalogue
     * order. `processed` says whether the label was set.
     */
    method ProcessImage(matcher: (Detection, Detection) -> seq<nat>) returns (processed: bool)
      modifies this`alteredImages, this`shownResults
      ensures processed <==> original.Some? && !CropsVanish(original.value.width, original.value.height)
      ensures original.None? ==> alteredImages == old(alteredImages)
      ensures original.Some? ==> alteredImages == FixedBattery(original.value.width, original.value.height)
      ensures !processed ==> shownResults == old(shownResults)
      ensures processed ==> shownResults == ResultLines(original.value, alteredImages, matcher)
    {
      if original.None? {
        return false;
      }
      var u := original.value;
      var transformations := FixedBattery(u.width, u.height);
      alteredImages := transformations;
      FixedBatteryEmptyIff(u.width, u.height);
      var results: seq<ResultLine> := [];
      for i := 0 to |transformations|
        invariant results == ResultLines(u, transformations[..i], matcher)
        invariant forall j :: 0 <= j < i ==> !EmptyOutput(transformations[j].transform)
      {
        assert transformations[..i + 1][..i] == transformations[..i];
        var v := transformations[i];
        if EmptyOutput(v.transform) {
          return false;
        }
        var scores := Compare(u.shot, u.transformed(v.transform), matcher);
        results := results + [ResultLine(v.name, scores)];
      }
      assert transformations[..|transformations|] == transformations;
      shownResults := results;
      processed := true;
    }
  }
}
