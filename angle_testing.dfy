/**
 * angle_testing.py: an original image, exactly four comparison images, and a
 * numbered result per comparison image giving its pHash and ORB similarity to
 * the original.
 */
module AngleTesting {
  import opened Wrappers
  import opened FeatureMatching
  import opened PairScoring

  /**
   * What loading one path gives: `Image.open` fails, `cv2.cvtColor` fails on
   * the opened image, or both succeed and the libraries see the image as `shot`.
   */
  datatype Opening = Unreadable | Unconvertible | Readable(shot: Shot)

  /** One entry `"Image {index} vs Original: pHash {p}%, ORB {o}%"` of `similarity_results`. */
  datatype NumberedResult = NumberedResult(index: nat, scores: Readout)

  /** The selection size `upload_comparison_images` insists on. */
  const ComparisonCount: nat := 4

  /**
   * The PIL list (each image stood for by its path) and the OpenCV list after
   * the loading loop over `paths`: it stops at the first path that raises,
   * and a path whose conversion raises is already in the PIL list.
   */
  function Loaded(paths: seq<string>, open: string -> Opening): (lists: (seq<string>, seq<Shot>))
    ensures |lists.1| <= |lists.0| <= |paths|
  {
    if paths == [] then ([], [])
    else match open(paths[0])
      case Unreadable => ([], [])
      case Unconvertible => ([paths[0]], [])
      case Readable(shot) =>
        var rest := Loaded(paths[1..], open);
        ([paths[0]] + rest.0, [shot] + rest.1)
  }

  predicate AllReadable(paths: seq<string>, open: string -> Opening) {
    forall i :: 0 <= i < |paths| ==> open(paths[i]).Readable?
  }

  /**
   * The PIL list is always a prefix of the selection and at most one longer
   * than the OpenCV list; both hold every path exactly when every path loads,
   * entry i then being path i and its image.
   */
  lemma {:induction false} LoadedMeaning(paths: seq<string>, open: string -> Opening)
    ensures var lists := Loaded(paths, open);
      && lists.0 == paths[..|lists.0|]
      && |lists.0| <= |lists.1| + 1
      && (|lists.1| == |paths| <==> AllReadable(paths, open))
      && (AllReadable(paths, open) ==> lists.0 == paths && forall i :: 0 <= i < |paths| ==> lists.1[i] == open(paths[i]).shot)
  {
    if paths != [] {
      LoadedMeaning(paths[1..], open);
      var rest := Loaded(paths[1..], open);
      if open(paths[0]).Readable? {
        assert AllReadable(paths, open) <==> AllReadable(paths[1..], open) by {
          if AllReadable(paths[1..], open) {
            forall i | 0 <= i < |paths|
              ensures open(paths[i]).Readable?
            {
              if i > 0 {
                assert paths[i] == paths[1..][i - 1];
              }
            }
          }
          if AllReadable(paths, open) {
            forall i | 0 <= i < |paths[1..]|
              ensures open(paths[1..][i]).Readable?
            {
              assert paths[1..][i] == paths[i + 1];
            }
          }
        }
        assert [paths[0]] + paths[1..][..|rest.0|] == paths[..1 + |rest.0|];
      } else {
        assert !open(paths[0]).Readable?;
        assert !AllReadable(paths, open);
      }
    }
  }

  /** Result i, numbered from 1, compares the original with comparison image i. */
  function Numbered(original: Shot, comparisons: seq<Shot>, matcher: (Detection, Detection) -> seq<nat>): (rs: seq<NumberedResult>)
    ensures |rs| == |comparisons|
  {
    if comparisons == [] then []
    else
      var n := |comparisons|;
      Numbered(original, comparisons[..n - 1], matcher) + [NumberedResult(n, Compare(original, comparisons[n - 1], matcher))]
  }

  /**
   * One result per comparison image, in order and numbered 1, 2, ...; each
   * holds two percentages, 100 for pHash when the pHashes agree and 0 for ORB
   * when either image has no descriptors.
   */
  lemma {:induction false} NumberedMeaning(original: Shot, comparisons: seq<Shot>, matcher: (Detection, Detection) -> seq<nat>)
    ensures var rs := Numbered(original, comparisons, matcher);
      forall i :: 0 <= i < |comparisons| ==>
        && rs[i].index == i + 1
        && rs[i].scores == Compare(original, comparisons[i], matcher)
        && 0.0 <= rs[i].scores.phash <= 100.0 && 0.0 <= rs[i].scores.orb <= 100.0
        && (comparisons[i].hash == original.hash ==> rs[i].scores.phash == 100.0)
        && (original.detection.NoDescriptors? || comparisons[i].detection.NoDescriptors? ==> rs[i].scores.orb == 0.0)
  {
    if comparisons != [] {
      var n := |comparisons|;
      var init := comparisons[..n - 1];
      NumberedMeaning(original, init, matcher);
      assert forall i :: 0 <= i < n - 1 ==> comparisons[i] == init[i];
      var last := Compare(original, comparisons[n - 1], matcher);
    }
  }

  /** The loading loop from path i on: what loading path i gives, then, if it loads, the loop from path i + 1. */
  lemma LoadedFrom(paths: seq<string>, i: nat, open: string -> Opening)
    requires i < |paths|
    ensures open(paths[i]).Unreadable? ==> Loaded(paths[i..], open) == ([], [])
    ensures open(paths[i]).Unconvertible? ==> Loaded(paths[i..], open) == ([paths[i]], [])
    ensures open(paths[i]).Readable? ==>
              Loaded(paths[i..], open) == ([paths[i]] + Loaded(paths[i + 1..], open).0, [open(paths[i]).shot] + Loaded(paths[i + 1..], open).1)
  {
    assert paths[i..][1..] == paths[i + 1..];
  }

  lemma Regroup<T>(done: seq<T>, x: T, rest: seq<T>)
    ensures done + ([x] + rest) == (done + [x]) + rest
  {
  }

  /** The application's state: the original, the two comparison lists, and the stored results. */
  class ImageComparison {
    var original: Option<Shot>
    var comparisonImages: seq<string>
    var comparisonImagesCv: seq<Shot>
    var similarityResults: seq<NumberedResult>

    constructor ()
      ensures original == None && comparisonImages == [] && comparisonImagesCv == [] && similarityResults == []
    {
      original := None;
      comparisonImages := [];
      comparisonImagesCv := [];
      similarityResults := [];
    }

    /**
     * `upload_original_image`: a chosen path whose image opens and converts
     * becomes the original; a cancelled dialog (an empty path) or a raising
     * load leaves it as it was.
     */
    method UploadOriginalImage(path: string, open: string -> Opening)
      modifies this`original
      ensures path != "" && open(path).Readable? ==> original == Some(open(path).shot)
      ensures path == "" || !open(path).Readable? ==> original == old(original)
    {
      if path != "" {
        match open(path)
        case Readable(shot) => original := Some(shot);
        case _ =>
      }
    }

    /**
     * `upload_comparison_images`: a selection of any size but four changes
     * nothing; otherwise both lists are rebuilt from empty by the loading loop.
     */
    method UploadComparisonImages(paths: seq<string>, open: string -> Opening)
      modifies this`comparisonImages, this`comparisonImagesCv
      ensures |paths| != ComparisonCount ==> comparisonImages == old(comparisonImages) && comparisonImagesCv == old(comparisonImagesCv)
      ensures |paths| == ComparisonCount ==> (comparisonImages, comparisonImagesCv) == Loaded(paths, open)
    {
      if |paths| != ComparisonCount {
        return;
      }
      comparisonImagesCv := [];
      comparisonImages := [];
      assert paths[0..] == paths;
      for i := 0 to |paths|
        invariant Loaded(paths, open).0 == comparisonImages + Loaded(paths[i..], open).0
        invariant Loaded(paths, open).1 == comparisonImagesCv + Loaded(paths[i..], open).1
      {
        LoadedFrom(paths, i, open);
        match open(paths[i])
        case Unreadable =>
          assert comparisonImages + [] == comparisonImages && comparisonImagesCv + [] == comparisonImagesCv;
          return;
        case Unconvertible =>
          comparisonImages := comparisonImages + [paths[i]];
          assert comparisonImagesCv + [] == comparisonImagesCv;
          return;
        case Readable(shot) =>
          Regroup(comparisonImages, paths[i], Loaded(paths[i + 1..], open).0);
          Regroup(comparisonImagesCv, shot, Loaded(paths[i + 1..], open).1);
          comparisonImages := comparisonImages + [paths[i]];
          comparisonImagesCv := comparisonImagesCv + [shot];
      }
      assert paths[|paths|..] == [];
      assert comparisonImages + [] == comparisonImages && comparisonImagesCv + [] == comparisonImagesCv;
    }

    /**
     * `compare_images`: without an original or with other than four converted
     * comparison images nothing changes; otherwise the results are reset and
     * rebuilt with one numbered result per comparison image.
     */
    method CompareImages(matcher: (Detection, Detection) -> seq<nat>) returns (compared: bool)
      modifies this`similarityResults
      ensures compared <==> original.Some? && |comparisonImagesCv| == ComparisonCount
      ensures !compared ==> similarityResults == old(similarityResults)
      ensures compared ==> similarityResults == Numbered(original.value, comparisonImagesCv, matcher)
    {
      if original.None? || |comparisonImagesCv| != ComparisonCount {
        return false;
      }
      var o := original.value;
      similarityResults := [];
      for i := 0 to |comparisonImagesCv|
        invariant similarityResults == Numbered(o, comparisonImagesCv[..i], matcher)
      {
        assert comparisonImagesCv[..i + 1][..i] == comparisonImagesCv[..i];
        var scores := Compare(o, comparisonImagesCv[i], matcher);
        similarityResults := similarityResults + [NumberedResult(i + 1, scores)];
      }
      assert comparisonImagesCv[..|comparisonImagesCv|] == comparisonImagesCv;
      compared := true;
    }
  }
}
