/**
 * data-refined.py's `process_images` and `write_to_excel`: every listed file
 * (up to the sample size) is opened, skipped with a log entry when both of
 * its sides are below 720, and otherwise hashed before and after
 * standardization; each file leaves one result row or one error entry.
 */
module RefinedBatch {
  import opened Numerals
  import opened Rounding
  import opened ImageHashing
  import opened Listing
  import opened BatchLog

  /** `STANDARDIZED_SIZE`, a square. */
  const StandardizedSize: nat := 720

  /** What the libraries report once the size check is passed: both pHashes, or the exception raised on the way. */
  datatype Hashing = HashFailed(message: string) | Hashed(original: ImageHash, standardized: ImageHash)

  datatype Opening = OpenFailed(message: string) | Opened(width: nat, height: nat, hashing: Hashing)

  datatype ListedFile = ListedFile(name: string, opening: Opening)

  /** imagehash computes 8x8 hashes. */
  predicate WellFormed(f: ListedFile) {
    f.opening.Opened? && f.opening.hashing.Hashed? ==>
      DefaultShape(f.opening.hashing.original) && DefaultShape(f.opening.hashing.standardized)
  }

  predicate AllWellFormed(files: seq<ListedFile>) {
    forall i :: 0 <= i < |files| ==> WellFormed(files[i])
  }

  /** The skip rule: both sides below the standardized size. */
  predicate TooSmall(width: nat, height: nat) {
    width < StandardizedSize && height < StandardizedSize
  }

  /**
   * `f"{w}x{h}"`: the only 'x' follows the width's digits, and the digits on
   * either side of it read back as the width and the height.
   */
  function SizeText(width: nat, height: nat): (s: string)
    ensures var k := |Decimal(width)|;
      && k < |s|
      && (forall i :: 0 <= i < |s| ==> (s[i] == 'x' <==> i == k))
      && IsDecimalString(s[..k]) && IsDecimalString(s[k + 1..])
      && ParseDecimal(s[..k]) == width && ParseDecimal(s[k + 1..]) == height
  {
    var w, h := Decimal(width), Decimal(height);
    var s := w + "x" + h;
    assert s[..|w|] == w && s[|w| + 1..] == h;
    DecimalRoundTrip(width);
    DecimalRoundTrip(height);
    s
  }

  /** `str(original_size)`, Python's rendering of the pair. */
  function SizePair(width: nat, height: nat): (s: string)
    ensures 2 <= |s| && s[0] == '(' && s[|s| - 1] == ')'
  {
    "(" + Decimal(width) + ", " + Decimal(height) + ")"
  }

  /** Both sides read back between the parentheses of the size pair, around ", ". */
  lemma SizePairReadsBack(width: nat, height: nat)
    ensures var s, k, m := SizePair(width, height), |Decimal(width)|, |Decimal(height)|;
      && |s| == k + m + 4
      && s[k + 1..k + 3] == ", "
      && IsDecimalString(s[1..k + 1]) && ParseDecimal(s[1..k + 1]) == width
      && IsDecimalString(s[k + 3..|s| - 1]) && ParseDecimal(s[k + 3..|s| - 1]) == height
  {
    PairLayout(Decimal(width), Decimal(height));
    DecimalRoundTrip(width);
    DecimalRoundTrip(height);
  }

  /** Where the two numerals sit in "(w, h)". */
  lemma PairLayout(w: string, h: string)
    ensures var s := "(" + w + ", " + h + ")";
      && |s| == |w| + |h| + 4
      && s[|w| + 1..|w| + 3] == ", "
      && s[1..|w| + 1] == w && s[|w| + 3..|s| - 1] == h
  {
    var s := "(" + w + ", " + h + ")";
    assert s[1..|w| + 1] == w;
    assert s[|w| + 3..|s| - 1] == h;
  }

  /** `str(720)`. */
  lemma StandardizedDecimal()
    ensures Decimal(StandardizedSize) == "720"
  {
    assert Decimal(7) == "7";
    assert Decimal(72) == "72";
  }

  /** The log entry of a skipped file. */
  function SmallEntry(name: string, width: nat, height: nat): (s: string)
    ensures 6 <= |s| && s[..6] == "Image "
  {
    var limit := Decimal(StandardizedSize) + "x" + Decimal(StandardizedSize);
    "Image " + name + " is smaller than " + limit + ": " + SizePair(width, height)
  }

  /** The entry is "Image ", the name, " is smaller than 720x720: ", then the size pair. */
  lemma SmallEntryLayout(name: string, width: nat, height: nat)
    ensures var s := SmallEntry(name, width, height);
      && |s| == 32 + |name| + |SizePair(width, height)|
      && s[6..6 + |name|] == name
      && s[6 + |name|..32 + |name|] == " is smaller than 720x720: "
      && s[32 + |name|..] == SizePair(width, height)
  {
    StandardizedDecimal();
  }

  /** The dict appended to `results`, one field per column. */
  datatype ResultRow = ResultRow(imageName: string, originalSize: string, originalPHash: string, standardizedPHash: string, similarity: real)

  /** One file's effect: a result row, or an entry in the error log. */
  datatype Outcome = Row(row: ResultRow) | Logged(entry: string)

  /**
   * What the try block does with one file: a result row exactly when the
   * file opens, is not too small and both hashes compute; a log entry
   * otherwise.
   */
  function ProcessFile(f: ListedFile): (r: Outcome)
    requires WellFormed(f)
    ensures r.Row? <==> f.opening.Opened? && !TooSmall(f.opening.width, f.opening.height) && f.opening.hashing.Hashed?
  {
    match f.opening
    case OpenFailed(m) => Logged(ErrorLine(f.name, m))
    case Opened(w, h, hashing) =>
      if TooSmall(w, h) then Logged(SmallEntry(f.name, w, h))
      else match hashing
        case HashFailed(m) => Logged(ErrorLine(f.name, m))
        case Hashed(o, s) =>
          Row(ResultRow(f.name, SizeText(w, h), HashText(o), HashText(s), Round2(HashSimilarity(o, s))))
  }

  /** Each file's outcome, in listing order. */
  function Outcomes(files: seq<ListedFile>): (rs: seq<Outcome>)
    requires AllWellFormed(files)
    ensures |rs| == |files|
  {
    if files == [] then [] else Outcomes(files[..|files| - 1]) + [ProcessFile(files[|files| - 1])]
  }

  /** The rows among the outcomes, in order. */
  function RowsOf(rs: seq<Outcome>): seq<ResultRow> {
    if rs == [] then [] else RowsOf(rs[..|rs| - 1]) + (if rs[|rs| - 1].Row? then [rs[|rs| - 1].row] else [])
  }

  /** The log entries among the outcomes, in order. */
  function EntriesOf(rs: seq<Outcome>): seq<string> {
    if rs == [] then [] else EntriesOf(rs[..|rs| - 1]) + (if rs[|rs| - 1].Logged? then [rs[|rs| - 1].entry] else [])
  }

  /** One more file appends its row or its entry, and nothing else. */
  lemma OutcomesStep(files: seq<ListedFile>, idx: nat)
    requires AllWellFormed(files) && idx < |files|
    ensures AllWellFormed(files[..idx]) && AllWellFormed(files[..idx + 1])
    ensures var rs, r := Outcomes(files[..idx]), ProcessFile(files[idx]);
            && RowsOf(Outcomes(files[..idx + 1])) == RowsOf(rs) + (if r.Row? then [r.row] else [])
            && EntriesOf(Outcomes(files[..idx + 1])) == EntriesOf(rs) + (if r.Logged? then [r.entry] else [])
  {
    assert files[..idx + 1][..idx] == files[..idx];
    var rs := Outcomes(files[..idx]);
    assert Outcomes(files[..idx + 1]) == rs + [ProcessFile(files[idx])];
    assert (rs + [ProcessFile(files[idx])])[..|rs|] == rs;
  }

  /** `process_images`, without the console output and the files it writes. */
  method ProcessImages(listing: seq<ListedFile>, sampleSize: nat) returns (results: seq<ResultRow>, errorLog: seq<string>)
    requires AllWellFormed(listing)
    ensures results == RowsOf(Outcomes(Take(listing, sampleSize)))
    ensures errorLog == EntriesOf(Outcomes(Take(listing, sampleSize)))
  {
    var files := Take(listing, sampleSize);
    results := [];
    errorLog := [];
    for idx := 0 to |files|
      invariant AllWellFormed(files[..idx])
      invariant results == RowsOf(Outcomes(files[..idx])) && errorLog == EntriesOf(Outcomes(files[..idx]))
    {
      var file := files[idx];
      OutcomesStep(files, idx);
      match file.opening {
        case OpenFailed(m) =>
          errorLog := errorLog + [ErrorLine(file.name, m)];
        case Opened(width, height, hashing) =>
          if width < StandardizedSize && height < StandardizedSize {
            errorLog := errorLog + [SmallEntry(file.name, width, height)];
            continue;
          }
          match hashing {
            case HashFailed(m) =>
              errorLog := errorLog + [ErrorLine(file.name, m)];
            case Hashed(originalHash, standardizedHash) =>
              var similarity := HashSimilarity(originalHash, standardizedHash);
              results := results + [ResultRow(file.name, SizeText(width, height), HashText(originalHash),
                                              HashText(standardizedHash), Round2(similarity))];
          }
      }
    }
    assert files[..|files|] == files;
  }

  // ----- what a batch amounts to -----

  /**
   * Skipped exactly when both sides are below 720: one side of 720 or more
   * is enough for a file whose hashes compute to yield a row.
   */
  lemma SkipRule(f: ListedFile)
    requires WellFormed(f) && f.opening.Opened?
    ensures var o := f.opening;
            ProcessFile(f) == Logged(SmallEntry(f.name, o.width, o.height)) <==> TooSmall(o.width, o.height)
    ensures var o := f.opening;
            o.hashing.Hashed? ==> (ProcessFile(f).Row? <==> o.width >= StandardizedSize || o.height >= StandardizedSize)
  {
    var o := f.opening;
    if !TooSmall(o.width, o.height) && o.hashing.HashFailed? {
      assert ErrorLine(f.name, o.hashing.message)[0] == 'E';
      assert SmallEntry(f.name, o.width, o.height)[0] == 'I';
    }
  }

  /**
   * A row names its file, records its size as "WxH" and its two hashes as
   * hexadecimal text, and scores the pair as a percentage and 100 when
   * standardization left the hash unchanged.
   */
  lemma RowFields(f: ListedFile)
    requires WellFormed(f) && ProcessFile(f).Row?
    ensures var r, o := ProcessFile(f).row, f.opening;
            && o.Opened? && o.hashing.Hashed?
            && r.imageName == f.name
            && r.originalSize == SizeText(o.width, o.height)
            && ParseHex(r.originalPHash) == HashValue(o.hashing.original)
            && ParseHex(r.standardizedPHash) == HashValue(o.hashing.standardized)
            && 0.0 <= r.similarity <= 100.0
            && (o.hashing.original == o.hashing.standardized ==> r.similarity == 100.0)
  {
    var o := f.opening;
    var a, b := o.hashing.original, o.hashing.standardized;
    Round2Bounds(HashSimilarity(a, b));
    HashSimilarityProperties(a, b);
    Round2Whole(100);
  }

  /** The "WxH" text determines the size: the digits before the 'x' are the width, those after the height. */
  lemma SizeTextInjective(w1: nat, h1: nat, w2: nat, h2: nat)
    requires SizeText(w1, h1) == SizeText(w2, h2)
    ensures w1 == w2 && h1 == h2
  {
    var s := SizeText(w1, h1);
    assert s[|Decimal(w2)|] == 'x';
  }

  lemma {:induction false} FilterAccounting(rs: seq<Outcome>)
    ensures |RowsOf(rs)| + |EntriesOf(rs)| == |rs|
  {
    if rs != [] {
      FilterAccounting(rs[..|rs| - 1]);
    }
  }

  /** Every file leaves exactly one row or one log entry: nothing is dropped and the batch goes on after an error. */
  lemma BatchAccounting(files: seq<ListedFile>)
    requires AllWellFormed(files)
    ensures |RowsOf(Outcomes(files))| + |EntriesOf(Outcomes(files))| == |files|
  {
    FilterAccounting(Outcomes(files));
  }

  lemma {:induction false} OutcomesAt(files: seq<ListedFile>)
    requires AllWellFormed(files)
    ensures forall i :: 0 <= i < |files| ==> Outcomes(files)[i] == ProcessFile(files[i])
  {
    if files != [] {
      var init := files[..|files| - 1];
      OutcomesAt(init);
      OutcomesPrefix(files);
      forall i | 0 <= i < |init|
        ensures Outcomes(files)[i] == ProcessFile(files[i])
      {
        assert init[i] == files[i];
      }
    }
  }

  /** Dropping the last file keeps the outcomes of the others, and the last file's outcome closes the list. */
  lemma OutcomesPrefix(files: seq<ListedFile>)
    requires AllWellFormed(files) && files != []
    ensures AllWellFormed(files[..|files| - 1])
    ensures Outcomes(files) == Outcomes(files[..|files| - 1]) + [ProcessFile(files[|files| - 1])]
  {
  }

  lemma {:induction false} AllRows(rs: seq<Outcome>)
    requires forall i :: 0 <= i < |rs| ==> rs[i].Row?
    ensures EntriesOf(rs) == [] && |RowsOf(rs)| == |rs|
  {
    if rs != [] {
      AllRows(rs[..|rs| - 1]);
    }
  }

  /** A batch of readable files with a side of at least 720 whose hashes compute logs nothing and yields a row per file. */
  lemma CleanBatch(files: seq<ListedFile>)
    requires AllWellFormed(files)
    requires forall i :: 0 <= i < |files| ==> files[i].opening.Opened? && files[i].opening.hashing.Hashed?
    requires forall i :: 0 <= i < |files| ==> !TooSmall(files[i].opening.width, files[i].opening.height)
    ensures EntriesOf(Outcomes(files)) == [] && |RowsOf(Outcomes(files))| == |files|
  {
    OutcomesAt(files);
    AllRows(Outcomes(files));
  }

  // ----- write_to_excel -----

  const Headers: seq<string> := ["Image Name", "Original Size", "Original pHash", "Standardized pHash", "Hash Similarity (%)"]

  datatype SheetCell = Text(text: string) | Number(value: real)

  /** The five values of a row, in header order. */
  function RowCells(r: ResultRow): (cs: seq<SheetCell>)
    ensures |cs| == |Headers|
  {
    [Text(r.imageName), Text(r.originalSize), Text(r.originalPHash), Text(r.standardizedPHash), Number(r.similarity)]
  }

  function HeaderCells(): (cs: seq<SheetCell>)
    ensures |cs| == |Headers| && forall i :: 0 <= i < |Headers| ==> cs[i] == Text(Headers[i])
  {
    [Text(Headers[0]), Text(Headers[1]), Text(Headers[2]), Text(Headers[3]), Text(Headers[4])]
  }

  /** `write_to_excel` without the workbook: the sheet's rows as appended. */
  method WriteToExcel(data: seq<ResultRow>) returns (sheet: seq<seq<SheetCell>>)
    ensures |sheet| == |data| + 1
    ensures sheet[0] == HeaderCells()
    ensures forall i :: 0 <= i < |data| ==> sheet[i + 1] == RowCells(data[i])
  {
    sheet := [HeaderCells()];
    for i := 0 to |data|
      invariant |sheet| == i + 1 && sheet[0] == HeaderCells()
      invariant forall j :: 0 <= j < i ==> sheet[j + 1] == RowCells(data[j])
    {
      sheet := sheet + [RowCells(data[i])];
    }
  }
}
