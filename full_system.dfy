/**
 * full-system.py's `process_images` and `write_to_excel`: every listed file
 * (up to the sample size) is standardized, transformed ten ways and each
 * variant classified; the row, the error log and the two counters are
 * accumulated, and one failing file does not stop the batch.
 */
module FullSystemBatch {
  import opened Numerals
  import opened Rounding
  import opened ImageHashing
  import opened BlackPixels
  import opened Geometry
  import opened DuplicateClassifier
  import opened ReportRows
  import opened Listing
  import opened BatchLog

  /**
   * What the libraries report of one transformed variant: the size, pixels
   * and pHash `is_duplicate` reads off it, or the exception raised on it.
   */
  datatype Inspection = Inspection(inspected: Inspected) | Raised(message: string)

  /** What trying one file produced before the variant loop. */
  datatype Opening =
    | OpenFailed(message: string)
    | Opened(width: nat, height: nat, standardizedHash: ImageHash, randomBox: Box, randomAngle: int, inspections: seq<Inspection>)

  datatype SourceFile = SourceFile(name: string, opening: Opening)

  /** The number of variants each file is put through. */
  const VariantCount: nat := 10

  /** What the libraries guarantee: 8x8 hashes and one inspection per variant. */
  predicate WellFormed(f: SourceFile) {
    match f.opening
    case OpenFailed(_) => true
    case Opened(w, h, std, box, angle, inspections) =>
      && DefaultShape(std)
      && |inspections| == VariantCount
      && forall i :: 0 <= i < |inspections| && inspections[i].Inspection? ==> DefaultShape(inspections[i].inspected.phash)
  }

  /** The random crop and angle were drawn from the ranges `random_crop` and `random_rotation` use. */
  predicate RandomDrawsInRange(f: SourceFile)
    requires f.opening.Opened?
  {
    var o := f.opening;
    ExtensiveCropRanges(o.width, o.height).Draws(o.randomBox) && RandomRotationRange.Contains(o.randomAngle)
  }

  /** Each inspected size is the size of the variant's transformation: a crop box's extent, or the image size for a rotation. */
  predicate SizesMatchBattery(f: SourceFile)
    requires WellFormed(f) && f.opening.Opened? && RandomDrawsInRange(f)
  {
    var o := f.opening;
    ExtensiveCropInside(o.width, o.height, o.randomBox);
    FullBatteryLayout(o.width, o.height, o.randomBox, o.randomAngle);
    forall i :: 0 <= i < VariantCount && o.inspections[i].Inspection? ==>
      var size := OutputSize(o.width, o.height, Battery(f)[i].transform);
      o.inspections[i].inspected.width == size.width && o.inspections[i].inspected.height == size.height
  }

  /**
   * With the draws in range and the sizes those of the transformations, no
   * variant handed to is_duplicate is larger than the original image, and
   * every rotation has its size.
   */
  lemma VariantsFitImage(f: SourceFile, i: nat)
    requires WellFormed(f) && f.opening.Opened? && RandomDrawsInRange(f) && SizesMatchBattery(f)
    requires i < VariantCount && f.opening.inspections[i].Inspection?
    ensures var o := f.opening;
            o.inspections[i].inspected.width <= o.width && o.inspections[i].inspected.height <= o.height
    ensures Battery(f)[i].transform.Rotate? ==>
              f.opening.inspections[i].inspected.width == f.opening.width
              && f.opening.inspections[i].inspected.height == f.opening.height
  {
    var o := f.opening;
    FullBatteryLayout(o.width, o.height, o.randomBox, o.randomAngle);
  }

  predicate AllWellFormed(files: seq<SourceFile>) {
    forall i :: 0 <= i < |files| ==> WellFormed(files[i])
  }

  function Battery(f: SourceFile): seq<Variant>
    requires f.opening.Opened?
  {
    var o := f.opening;
    FullBattery(o.width, o.height, o.randomBox, o.randomAngle)
  }

  /** What is_duplicate sees of variant i. */
  function InspectedAt(f: SourceFile, i: nat): Inspected
    requires WellFormed(f) && f.opening.Opened? && i < VariantCount && f.opening.inspections[i].Inspection?
  {
    f.opening.inspections[i].inspected
  }

  function VerdictAt(f: SourceFile, i: nat): Verdict
    requires WellFormed(f) && f.opening.Opened? && i < VariantCount && f.opening.inspections[i].Inspection?
  {
    Classify(InspectedAt(f, i), f.opening.standardizedHash)
  }

  /** Index of the first inspection that raised, or the length when none did. */
  function FirstRaised(inspections: seq<Inspection>): (k: nat)
    ensures k <= |inspections|
    ensures forall j :: 0 <= j < k ==> inspections[j].Inspection?
    ensures k < |inspections| ==> inspections[k].Raised?
  {
    if inspections == [] then 0
    else if inspections[0].Raised? then 0
    else 1 + FirstRaised(inspections[1..])
  }

  predicate InspectedUpTo(f: SourceFile, i: nat)
    requires f.opening.Opened?
  {
    i <= |f.opening.inspections| && forall j :: 0 <= j < i ==> f.opening.inspections[j].Inspection?
  }

  /** A list of inspections whose first i succeeded and which raised at i, or has no more, first raises at i. */
  lemma {:induction false} FirstRaisedIs(inspections: seq<Inspection>, i: nat)
    requires i <= |inspections| && forall j :: 0 <= j < i ==> inspections[j].Inspection?
    requires i == |inspections| || inspections[i].Raised?
    ensures FirstRaised(inspections) == i
  {
    if i > 0 {
      assert inspections[0].Inspection?;
      FirstRaisedIs(inspections[1..], i - 1);
    }
  }

  type Row = map<string, string>

  function YesNo(duplicate: bool): string { if duplicate then "Yes" else "No" }

  /** The two cells a verdict fills: "Yes" with the joined reasons, or "No" with "No Duplicate". */
  function CellPair(c: Verdict): (string, string) { (YesNo(c.duplicate), ReasonCell(c)) }

  /** The reason columns, in battery order. */
  const FullKeys: seq<string> := ReasonKeys(FullNames)

  /** The cell pairs of the first i variants, in battery order. */
  function VariantCells(f: SourceFile, i: nat): (cells: seq<(string, string)>)
    requires WellFormed(f) && f.opening.Opened? && i <= VariantCount && InspectedUpTo(f, i)
    ensures |cells| == i
  {
    if i == 0 then [] else VariantCells(f, i - 1) + [CellPair(VerdictAt(f, i - 1))]
  }

  lemma {:induction false} VariantCellsAt(f: SourceFile, i: nat)
    requires WellFormed(f) && f.opening.Opened? && i <= VariantCount && InspectedUpTo(f, i)
    ensures forall j :: 0 <= j < i ==> VariantCells(f, i)[j] == CellPair(VerdictAt(f, j))
  {
    if i > 0 {
      assert InspectedUpTo(f, i - 1);
      VariantCellsAt(f, i - 1);
      var prev := VariantCells(f, i - 1);
      assert VariantCells(f, i) == prev + [CellPair(VerdictAt(f, i - 1))];
      forall j | 0 <= j < i - 1
        ensures VariantCells(f, i)[j] == CellPair(VerdictAt(f, j))
      {
        assert VariantCells(f, i)[j] == prev[j];
      }
    }
  }

  /** The row dict after the first i variants were classified. */
  function PartialRow(f: SourceFile, i: nat): Row
    requires WellFormed(f) && f.opening.Opened? && i <= VariantCount && InspectedUpTo(f, i)
  {
    RowOf("Image Name", f.name, FullNames, FullKeys, VariantCells(f, i))
  }

  /**
   * The row dict after i variants holds the file name under "Image Name",
   * and each classified variant's flag under its name and its reason cell
   * under its reason key.
   */
  lemma PartialRowContents(f: SourceFile, i: nat)
    requires WellFormed(f) && f.opening.Opened? && i <= VariantCount && InspectedUpTo(f, i)
    ensures var row := PartialRow(f, i);
      && "Image Name" in row && row["Image Name"] == f.name
      && (forall j :: 0 <= j < i ==>
            && FullNames[j] in row && row[FullNames[j]] == YesNo(VerdictAt(f, j).duplicate)
            && FullKeys[j] in row && row[FullKeys[j]] == ReasonCell(VerdictAt(f, j)))
  {
    var cells := VariantCells(f, i);
    var row := PartialRow(f, i);
    VariantCellsAt(f, i);
    RowKeysDistinct();
    RowLookup("Image Name", f.name, FullNames, FullKeys, cells);
    forall j | 0 <= j < i
      ensures row[FullNames[j]] == YesNo(VerdictAt(f, j).duplicate) && row[FullKeys[j]] == ReasonCell(VerdictAt(f, j))
    {
      assert cells[j] == CellPair(VerdictAt(f, j));
    }
  }

  /** The row dict after i variants has no key but "Image Name" and the two keys of each classified variant. */
  lemma PartialRowKeys(f: SourceFile, i: nat)
    requires WellFormed(f) && f.opening.Opened? && i <= VariantCount && InspectedUpTo(f, i)
    ensures forall k :: k in PartialRow(f, i) ==> k == "Image Name" || exists j :: 0 <= j < i && (k == FullNames[j] || k == FullKeys[j])
  {
    var cells := VariantCells(f, i);
    RowOfKeys("Image Name", f.name, FullNames, FullKeys, cells);
    forall k | k in PartialRow(f, i)
      ensures k == "Image Name" || exists j :: 0 <= j < i && (k == FullNames[j] || k == FullKeys[j])
    {
      if k != "Image Name" {
        var j :| 0 <= j < |cells| && (k == FullNames[j] || k == FullKeys[j]);
      }
    }
  }

  /** How many of the first i variants were flagged. */
  function FlaggedCount(f: SourceFile, i: nat): (n: nat)
    requires WellFormed(f) && f.opening.Opened? && i <= VariantCount && InspectedUpTo(f, i)
    ensures n <= i
  {
    if i == 0 then 0 else FlaggedCount(f, i - 1) + if VerdictAt(f, i - 1).duplicate then 1 else 0
  }

  /** Classifying one more variant writes its two cells under its name and reason key, and counts its flag. */
  lemma VariantStep(f: SourceFile, i: nat)
    requires WellFormed(f) && f.opening.Opened? && i < VariantCount && InspectedUpTo(f, i)
    requires f.opening.inspections[i].Inspection?
    ensures InspectedUpTo(f, i + 1)
    ensures PartialRow(f, i + 1)
         == PartialRow(f, i)[FullNames[i] := YesNo(VerdictAt(f, i).duplicate)][FullKeys[i] := ReasonCell(VerdictAt(f, i))]
    ensures FlaggedCount(f, i + 1) == FlaggedCount(f, i) + if VerdictAt(f, i).duplicate then 1 else 0
  {
    assert InspectedUpTo(f, i + 1);
    RowOfSnoc("Image Name", f.name, FullNames, FullKeys, VariantCells(f, i), CellPair(VerdictAt(f, i)));
  }

  /** One file's effect: a row and its flagged count, or an error entry with the counts already made before the exception. */
  datatype FileResult = Completed(row: Row, duplicates: nat) | Failed(error: string, duplicates: nat, processes: nat)

  /**
   * One file's outcome: the error of a file that cannot be opened; the row
   * of all ten verdicts when no variant raised; otherwise the error of the
   * first variant that raised, with the flags and processes counted before it.
   */
  function ProcessFile(f: SourceFile): (r: FileResult)
    requires WellFormed(f)
    ensures Bounded(r)
  {
    match f.opening
    case OpenFailed(m) => Failed(ErrorLine(f.name, m), 0, 0)
    case Opened(_, _, _, _, _, inspections) =>
      var k := FirstRaised(inspections);
      if k < VariantCount then Failed(ErrorLine(f.name, inspections[k].message), FlaggedCount(f, k), k)
      else Completed(PartialRow(f, VariantCount), FlaggedCount(f, VariantCount))
  }

  /** What ProcessFile guarantees of each outcome, which is all the batch-level facts need. */
  predicate Bounded(r: FileResult) {
    match r
    case Completed(_, d) => d <= VariantCount
    case Failed(_, d, p) => d <= p < VariantCount
  }

  datatype BatchRun = BatchRun(results: seq<Row>, errorLog: seq<string>, duplicates: nat, processes: nat)

  /** A completed file adds its row and ten processes; a failed one its error entry and the processes made before the exception. */
  function Step(run: BatchRun, r: FileResult): (next: BatchRun)
    ensures run.results <= next.results && run.errorLog <= next.errorLog
    ensures |next.results| + |next.errorLog| == |run.results| + |run.errorLog| + 1
    ensures run.duplicates <= next.duplicates && run.processes <= next.processes
  {
    match r
    case Completed(row, d) => BatchRun(run.results + [row], run.errorLog, run.duplicates + d, run.processes + VariantCount)
    case Failed(e, d, p) => BatchRun(run.results, run.errorLog + [e], run.duplicates + d, run.processes + p)
  }

  /** The run after the outcomes in order, from empty lists and zero counters: one row or error entry per outcome. */
  function Fold(rs: seq<FileResult>): (run: BatchRun)
    ensures |run.results| + |run.errorLog| == |rs|
  {
    if rs == [] then BatchRun([], [], 0, 0) else Step(Fold(rs[..|rs| - 1]), rs[|rs| - 1])
  }

  lemma FoldSnoc(rs: seq<FileResult>, r: FileResult)
    ensures Fold(rs + [r]) == Step(Fold(rs), r)
  {
    assert (rs + [r])[..|rs|] == rs;
  }

  /** Each file's outcome, in listing order. */
  function Outcomes(files: seq<SourceFile>): (rs: seq<FileResult>)
    requires AllWellFormed(files)
    ensures |rs| == |files|
  {
    if files == [] then [] else Outcomes(files[..|files| - 1]) + [ProcessFile(files[|files| - 1])]
  }

  lemma {:induction false} OutcomesAt(files: seq<SourceFile>)
    requires AllWellFormed(files)
    ensures forall i :: 0 <= i < |files| ==> Outcomes(files)[i] == ProcessFile(files[i]) && Bounded(Outcomes(files)[i])
  {
    if files != [] {
      var init := files[..|files| - 1];
      OutcomesAt(init);
      var rs := Outcomes(files);
      assert rs == Outcomes(init) + [ProcessFile(files[|files| - 1])];
      forall i | 0 <= i < |files|
        ensures rs[i] == ProcessFile(files[i]) && Bounded(rs[i])
      {
        if i < |init| {
          assert rs[i] == Outcomes(init)[i] && init[i] == files[i];
        }
      }
    }
  }

  /** The run after processing the files in order. */
  function Accumulate(files: seq<SourceFile>): (run: BatchRun)
    requires AllWellFormed(files)
    ensures |run.results| + |run.errorLog| == |files|
  {
    Fold(Outcomes(files))
  }

  lemma AccumulatePrefix(files: seq<SourceFile>, idx: nat)
    requires AllWellFormed(files)
    requires idx < |files|
    ensures AllWellFormed(files[..idx]) && AllWellFormed(files[..idx + 1])
    ensures Accumulate(files[..idx + 1]) == Step(Accumulate(files[..idx]), ProcessFile(files[idx]))
  {
    var before, after := files[..idx], files[..idx + 1];
    assert after[..idx] == before && after[idx] == files[idx];
    assert Outcomes(after) == Outcomes(before) + [ProcessFile(files[idx])];
    FoldSnoc(Outcomes(before), ProcessFile(files[idx]));
  }

  /**
   * One pass of `process_images`'s try block on one file: the variant loop,
   * returning the file's contribution to the row list, the error log and
   * the two counters.
   */
  method ProcessOneFile(file: SourceFile) returns (r: FileResult)
    requires WellFormed(file)
    ensures r == ProcessFile(file)
  {
    match file.opening {
      case OpenFailed(m) =>
        r := Failed(ErrorLine(file.name, m), 0, 0);
      case Opened(width, height, standardizedHash, randomBox, randomAngle, inspections) =>
        var transformations := FullBattery(width, height, randomBox, randomAngle);
        var row: Row := map["Image Name" := file.name];
        var duplicates: nat := 0;
        var i := 0;
        while i < |transformations|
          invariant 0 <= i <= |transformations| == VariantCount
          invariant InspectedUpTo(file, i)
          invariant row == PartialRow(file, i) && duplicates == FlaggedCount(file, i)
        {
          match inspections[i] {
            case Raised(m) =>
              // the exception leaves the loop: the except clause logs it, the row is dropped
              FirstRaisedIs(inspections, i);
              return Failed(ErrorLine(file.name, m), duplicates, i);
            case Inspection(inspected) =>
              row, duplicates := CheckVariant(file, i, transformations[i].name, inspected, row, duplicates);
              i := i + 1;
          }
        }
        FirstRaisedIs(inspections, i);
        r := Completed(row, duplicates);
    }
  }

  /**
   * The body of the variant loop for variant i: classify the variant, count
   * a duplicate and write its two cells into the row.
   */
  method CheckVariant(file: SourceFile, i: nat, name: string, inspected: Inspected, row: Row, duplicates: nat)
    returns (row': Row, duplicates': nat)
    requires WellFormed(file) && file.opening.Opened? && i < VariantCount && InspectedUpTo(file, i)
    requires file.opening.inspections[i] == Inspection(inspected) && name == FullNames[i]
    requires row == PartialRow(file, i) && duplicates == FlaggedCount(file, i)
    ensures InspectedUpTo(file, i + 1)
    ensures row' == PartialRow(file, i + 1) && duplicates' == FlaggedCount(file, i + 1)
  {
    assert ReasonKey(name) == FullKeys[i] && inspected == InspectedAt(file, i);
    var duplicateFlag, reasons := IsDuplicate(inspected, file.opening.standardizedHash);
    assert Verdict(duplicateFlag, reasons) == VerdictAt(file, i);
    VariantStep(file, i);
    duplicates' := duplicates;
    if duplicateFlag {
      duplicates' := duplicates + 1;
      row' := row[name := "Yes"];
      row' := row'[ReasonKey(name) := Join(Labels(reasons), ", ")];
    } else {
      row' := row[name := "No"];
      row' := row'[ReasonKey(name) := "No Duplicate"];
    }
  }

  /** What the try block leaves behind for one file: its row, or its error entry, and the counter increments made. */
  method Record(results: seq<Row>, errorLog: seq<string>, duplicatesCounter: nat, processesCounter: nat, r: FileResult)
    returns (results': seq<Row>, errorLog': seq<string>, duplicatesCounter': nat, processesCounter': nat)
    ensures BatchRun(results', errorLog', duplicatesCounter', processesCounter')
         == Step(BatchRun(results, errorLog, duplicatesCounter, processesCounter), r)
  {
    results', errorLog' := results, errorLog;
    match r {
      case Completed(row, d) =>
        results' := results + [row];
        duplicatesCounter' := duplicatesCounter + d;
        processesCounter' := processesCounter + VariantCount;
      case Failed(e, d, p) =>
        errorLog' := errorLog + [e];
        duplicatesCounter' := duplicatesCounter + d;
        processesCounter' := processesCounter + p;
    }
  }

  /** `process_images`, without the timer, the console output and the files it writes. */
  method ProcessImages(listing: seq<SourceFile>, sampleSize: nat) returns (run: BatchRun)
    requires AllWellFormed(listing)
    ensures run == Accumulate(Take(listing, sampleSize))
  {
    var files := Take(listing, sampleSize);
    var results: seq<Row> := [];
    var errorLog: seq<string> := [];
    var duplicatesCounter: nat := 0;
    var processesCounter: nat := 0;
    for idx := 0 to |files|
      invariant BatchRun(results, errorLog, duplicatesCounter, processesCounter) == Accumulate(files[..idx])
    {
      AccumulatePrefix(files, idx);
      var r := ProcessOneFile(files[idx]);
      results, errorLog, duplicatesCounter, processesCounter := Record(results, errorLog, duplicatesCounter, processesCounter, r);
    }
    assert files[..|files|] == files;
    run := BatchRun(results, errorLog, duplicatesCounter, processesCounter);
  }

  // ----- what a batch amounts to -----

  /** The rows of the completed outcomes, front to back: a filter, against the fold above. */
  function RowsOf(rs: seq<FileResult>): seq<Row> {
    if rs == [] then [] else (if rs[0].Completed? then [rs[0].row] else []) + RowsOf(rs[1..])
  }

  /** The error entries of the failed outcomes, front to back. */
  function ErrorsOf(rs: seq<FileResult>): seq<string> {
    if rs == [] then [] else (if rs[0].Failed? then [rs[0].error] else []) + ErrorsOf(rs[1..])
  }

  /** How many outcomes completed. */
  function CompletedCount(rs: seq<FileResult>): (n: nat)
    ensures n <= |rs|
  {
    if rs == [] then 0 else (if rs[0].Completed? then 1 else 0) + CompletedCount(rs[1..])
  }

  lemma {:induction false} FiltersSnoc(rs: seq<FileResult>, r: FileResult)
    ensures RowsOf(rs + [r]) == RowsOf(rs) + (if r.Completed? then [r.row] else [])
    ensures ErrorsOf(rs + [r]) == ErrorsOf(rs) + (if r.Failed? then [r.error] else [])
    ensures CompletedCount(rs + [r]) == CompletedCount(rs) + (if r.Completed? then 1 else 0)
  {
    if rs != [] {
      assert (rs + [r])[1..] == rs[1..] + [r];
      FiltersSnoc(rs[1..], r);
    } else {
      assert [r][1..] == [];
    }
  }

  lemma {:induction false} FoldRowsAndErrors(rs: seq<FileResult>)
    ensures Fold(rs).results == RowsOf(rs)
    ensures Fold(rs).errorLog == ErrorsOf(rs)
  {
    if rs != [] {
      var init := rs[..|rs| - 1];
      assert rs == init + [rs[|rs| - 1]];
      FoldRowsAndErrors(init);
      FiltersSnoc(init, rs[|rs| - 1]);
    }
  }

  /**
   * One row per file that completed and one error entry per file that
   * failed, each in listing order: a failing file neither stops the batch
   * nor leaves a row behind.
   */
  lemma BatchRowsAndErrors(files: seq<SourceFile>)
    requires AllWellFormed(files)
    ensures Accumulate(files).results == RowsOf(Outcomes(files))
    ensures Accumulate(files).errorLog == ErrorsOf(Outcomes(files))
  {
    FoldRowsAndErrors(Outcomes(files));
  }

  lemma {:induction false} FoldAccounting(rs: seq<FileResult>)
    requires forall i :: 0 <= i < |rs| ==> Bounded(rs[i])
    ensures var run := Fold(rs);
            && |run.results| + |run.errorLog| == |rs|
            && |run.results| == CompletedCount(rs)
            && run.duplicates <= run.processes <= VariantCount * |rs|
            && VariantCount * |run.results| <= run.processes
  {
    if rs != [] {
      var init := rs[..|rs| - 1];
      assert rs == init + [rs[|rs| - 1]];
      FoldAccounting(init);
      FiltersSnoc(init, rs[|rs| - 1]);
    }
  }

  /**
   * Every file leaves exactly one row or one error entry; the duplicates
   * counter never passes the processes counter, which grows by ten per
   * completed file and by fewer than ten per failed one.
   */
  lemma BatchAccounting(files: seq<SourceFile>)
    requires AllWellFormed(files)
    ensures var run := Accumulate(files);
            && |run.results| + |run.errorLog| == |files|
            && run.duplicates <= run.processes <= VariantCount * |files|
            && VariantCount * |run.results| <= run.processes
  {
    OutcomesAt(files);
    FoldAccounting(Outcomes(files));
  }

  lemma {:induction false} FoldClean(rs: seq<FileResult>)
    requires forall i :: 0 <= i < |rs| ==> rs[i].Completed?
    ensures Fold(rs).errorLog == [] && |Fold(rs).results| == |rs| && Fold(rs).processes == VariantCount * |rs|
  {
    if rs != [] {
      FoldClean(rs[..|rs| - 1]);
    }
  }

  /** A batch in which no file raises completes every file and counts all ten variants of each. */
  lemma CleanBatch(files: seq<SourceFile>)
    requires AllWellFormed(files)
    requires forall i :: 0 <= i < |files| ==> files[i].opening.Opened? && FirstRaised(files[i].opening.inspections) == VariantCount
    ensures Accumulate(files).errorLog == []
    ensures |Accumulate(files).results| == |files|
    ensures Accumulate(files).processes == VariantCount * |files|
  {
    var rs := Outcomes(files);
    OutcomesAt(files);
    FoldClean(rs);
  }

  // ----- write_to_excel -----

  /** The header row `write_to_excel` spells out: "Image Name", then each variant's name and reason column. */
  function Headers(): (h: seq<string>)
    ensures |h| == 21 && h[0] == "Image Name"
  {
    ["Image Name"] + HeaderPairs(FullNames, FullKeys)
  }

  /** The keys full-system.py writes into a row never collide. */
  lemma RowKeysDistinct()
    ensures |FullNames| == |FullKeys| == VariantCount && DistinctKeys("Image Name", FullNames, FullKeys)
  {
    FullNamesDistinct();
    assert forall j :: 0 <= j < |FullNames| ==> 10 < |FullNames[j]| <= 17;
    DistinctKeysFromLengths("Image Name", FullNames);
  }

  /** After "Image Name" the header row holds each variant's name and reason column, in battery order. */
  lemma HeadersLayout()
    ensures forall j :: 0 <= j < 10 ==> Headers()[1 + 2 * j] == FullNames[j] && Headers()[2 + 2 * j] == ReasonKey(FullNames[j])
  {
    FullNamesDistinct();
    var pairs := HeaderPairs(FullNames, FullKeys);
    forall j | 0 <= j < 10
      ensures Headers()[1 + 2 * j] == FullNames[j] && Headers()[2 + 2 * j] == ReasonKey(FullNames[j])
    {
      assert Headers()[1 + 2 * j] == pairs[2 * j];
      assert Headers()[2 + 2 * j] == pairs[2 * j + 1];
    }
  }

  /**
   * A completed file's spreadsheet row: the file name, then for each
   * variant in header order "Yes" or "No" and the reason cell of its verdict.
   */
  lemma CompletedRowLayout(f: SourceFile)
    requires WellFormed(f) && ProcessFile(f).Completed?
    ensures var cells := Cells(ProcessFile(f).row, Headers());
            && f.opening.Opened? && InspectedUpTo(f, VariantCount)
            && |cells| == 21 && cells[0] == f.name
            && forall j :: 0 <= j < 10 ==>
                 cells[1 + 2 * j] == YesNo(VerdictAt(f, j).duplicate) && cells[2 + 2 * j] == ReasonCell(VerdictAt(f, j))
  {
    VariantCellsAt(f, VariantCount);
    RowKeysDistinct();
    RowCells("Image Name", f.name, FullNames, FullKeys, VariantCells(f, VariantCount));
  }

  datatype SheetCell = Text(text: string) | Count(count: nat) | Seconds(seconds: real)

  function TextCells(ss: seq<string>): (cs: seq<SheetCell>)
    ensures |cs| == |ss| && forall i :: 0 <= i < |ss| ==> cs[i] == Text(ss[i])
  {
    if ss == [] then [] else [Text(ss[0])] + TextCells(ss[1..])
  }

  function DataRows(headers: seq<string>, rows: seq<Row>): (sheet: seq<seq<SheetCell>>)
    ensures |sheet| == |rows| && forall i :: 0 <= i < |rows| ==> sheet[i] == TextCells(Cells(rows[i], headers))
  {
    if rows == [] then [] else [TextCells(Cells(rows[0], headers))] + DataRows(headers, rows[1..])
  }

  /**
   * A blank line, then the three totals: the processes counter, the
   * duplicates counter and the runtime to within half a hundredth of a second.
   */
  function Summary(run: BatchRun, runtime: real): (rows: seq<seq<SheetCell>>)
    ensures |rows| == 4 && rows[0] == [] && forall i :: 1 <= i < 4 ==> |rows[i]| == 2 && rows[i][0].Text?
    ensures rows[1][1] == Count(run.processes) && rows[2][1] == Count(run.duplicates)
    ensures rows[3][1].Seconds? && runtime - 0.005 <= rows[3][1].seconds <= runtime + 0.005
  {
    [[],
     [Text("Total Processes"), Count(run.processes)],
     [Text("Total Duplicates"), Count(run.duplicates)],
     [Text("Total Runtime (seconds)"), Seconds(Round2(runtime))]]
  }

  /** A header row, one row per dict looked up by those headers, then the totals. */
  function Sheet(headers: seq<string>, run: BatchRun, runtime: real): (sheet: seq<seq<SheetCell>>)
    ensures |sheet| == |run.results| + 5
  {
    [TextCells(headers)] + DataRows(headers, run.results) + Summary(run, runtime)
  }

  /** The sheet `write_to_excel` appends row by row; the runtime is the elapsed wall-clock time handed in. */
  function Workbook(run: BatchRun, runtime: real): (sheet: seq<seq<SheetCell>>)
    ensures |sheet| == |run.results| + 5
  {
    Sheet(Headers(), run, runtime)
  }

  lemma SheetLayout(headers: seq<string>, run: BatchRun, runtime: real)
    ensures var sheet := Sheet(headers, run, runtime);
            && sheet[0] == TextCells(headers)
            && (forall i :: 0 <= i < |run.results| ==> sheet[1 + i] == TextCells(Cells(run.results[i], headers)))
            && sheet[|run.results| + 1] == []
            && sheet[|run.results| + 2] == [Text("Total Processes"), Count(run.processes)]
            && sheet[|run.results| + 3] == [Text("Total Duplicates"), Count(run.duplicates)]
            && sheet[|run.results| + 4] == [Text("Total Runtime (seconds)"), Seconds(Round2(runtime))]
  {
    var sheet := Sheet(headers, run, runtime);
    var body := DataRows(headers, run.results);
    var tail := Summary(run, runtime);
    var n := |run.results|;
    forall i | 0 <= i < n
      ensures sheet[1 + i] == TextCells(Cells(run.results[i], headers))
    {
      assert sheet[1 + i] == body[i];
    }
    assert sheet[n + 1] == tail[0];
    assert sheet[n + 2] == tail[1];
    assert sheet[n + 3] == tail[2];
    assert sheet[n + 4] == tail[3];
  }

  /** The header row, then the batch's rows in order, a blank line and the three totals. */
  lemma WorkbookLayout(run: BatchRun, runtime: real)
    ensures var sheet := Workbook(run, runtime);
            && sheet[0] == TextCells(Headers())
            && (forall i :: 0 <= i < |run.results| ==> sheet[1 + i] == TextCells(Cells(run.results[i], Headers())))
            && sheet[|run.results| + 1] == []
            && sheet[|run.results| + 2] == [Text("Total Processes"), Count(run.processes)]
            && sheet[|run.results| + 3] == [Text("Total Duplicates"), Count(run.duplicates)]
            && sheet[|run.results| + 4] == [Text("Total Runtime (seconds)"), Seconds(Round2(runtime))]
  {
    SheetLayout(Headers(), run, runtime);
  }
}
