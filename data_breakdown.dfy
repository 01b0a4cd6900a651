/**
 * data_breakdown.py's `process_images`: every readable image of the folder
 * is compared with its eight fixed variants and with the first five random
 * images, one row of rounded percentages per image, under a 27-column
 * header; then every percentage cell is coloured by its band.
 */
module BreakdownReport {
  import opened Wrappers
  import opened Rounding
  import opened ImageHashing
  import opened FeatureMatching
  import opened Geometry
  import opened ColourBands

  predicate EndsWith(s: string, suffix: string) {
    |suffix| <= |s| && s[|s| - |suffix|..] == suffix
  }

  /** `f.endswith(('.png', '.jpg', '.jpeg'))`: such a name has at least four characters, and its last four are one of the suffixes' endings. */
  predicate HasImageExtension(f: string): (b: bool)
    ensures b ==> 4 <= |f| && f[|f| - 4..] in {".png", ".jpg", "jpeg"}
  {
    if EndsWith(f, ".jpeg") then
      assert f[|f| - 4..] == f[|f| - 5..][1..];
      true
    else EndsWith(f, ".png") || EndsWith(f, ".jpg")
  }

  /** The directory listing filtered to image files, in listing order. */
  function ImageNames(names: seq<string>): (kept: seq<string>)
    ensures |kept| <= |names|
    ensures forall f :: f in kept <==> f in names && HasImageExtension(f)
  {
    if names == [] then []
    else (if HasImageExtension(names[0]) then [names[0]] else []) + ImageNames(names[1..])
  }

  /** The filter keeps the listing's order: filtering a concatenation concatenates the filtered parts. */
  lemma {:induction false} ImageNamesConcat(a: seq<string>, b: seq<string>)
    ensures ImageNames(a + b) == ImageNames(a) + ImageNames(b)
  {
    if a != [] {
      assert (a + b)[0] == a[0] && (a + b)[1..] == a[1..] + b;
      ImageNamesConcat(a[1..], b);
    } else {
      assert a + b == b;
    }
  }

  const MaxRandomImages: nat := 5

  /** `random_image_files[:5]`: the first five image files of the random folder. */
  function RandomSelection(names: seq<string>): (sel: seq<string>)
    ensures sel <= ImageNames(names)
    ensures |sel| == if |ImageNames(names)| < MaxRandomImages then |ImageNames(names)| else MaxRandomImages
  {
    var files := ImageNames(names);
    if |files| < MaxRandomImages then files else files[..MaxRandomImages]
  }

  /**
   * What the libraries report for a pair of images compared: both pHashes,
   * both ORB detections and the cross-checked match distances.
   */
  datatype Comparison = Comparison(hashA: Hash8, hashB: Hash8, detA: Detection, detB: Detection, matches: seq<nat>)

  /** The two numbers a comparison adds to a row. */
  datatype Scores = Scores(phash: real, orb: real)

  /**
   * `round(phash_similarity(...) * 100, 2)` and `round(orb_similarity(...), 2)`:
   * both are percentages, each within half a hundredth of the exact similarity.
   */
  function Score(c: Comparison): (s: Scores)
    ensures 0.0 <= s.phash <= 100.0 && 0.0 <= s.orb <= 100.0
    ensures HashSimilarity(c.hashA, c.hashB) - 0.005 <= s.phash <= HashSimilarity(c.hashA, c.hashB) + 0.005
    ensures BreakdownOrbSimilarity(c.detA, c.detB, c.matches) - 0.005 <= s.orb <= BreakdownOrbSimilarity(c.detA, c.detB, c.matches) + 0.005
  {
    Round2Bounds(PHashFraction(c.hashA, c.hashB) * 100.0);
    Round2Bounds(BreakdownOrbSimilarity(c.detA, c.detB, c.matches));
    Scores(Round2(PHashFraction(c.hashA, c.hashB) * 100.0), Round2(BreakdownOrbSimilarity(c.detA, c.detB, c.matches)))
  }

  /** The scores of a run of comparisons, in order. */
  function ScoresOf(cs: seq<Comparison>): (ss: seq<Scores>)
    ensures |ss| == |cs|
  {
    if cs == [] then [] else ScoresOf(cs[..|cs| - 1]) + [Score(cs[|cs| - 1])]
  }

  lemma {:induction false} ScoresOfInOrder(cs: seq<Comparison>)
    ensures forall i :: 0 <= i < |cs| ==> ScoresOf(cs)[i] == Score(cs[i])
  {
    if cs != [] {
      var init := cs[..|cs| - 1];
      ScoresOfInOrder(init);
      assert forall i :: 0 <= i < |init| ==> cs[i] == init[i];
    }
  }

  /** A worksheet cell's value; Empty is what a cell past the end of a shorter row holds. */
  datatype Value = Text(text: string) | Number(number: real) | Empty

  /** `row.extend([phash, orb])` for each comparison in turn: comparison i fills positions 2i and 2i + 1. */
  function PairCells(ss: seq<Scores>): (row: seq<Value>)
    ensures |row| == 2 * |ss|
    ensures forall i :: 0 <= i < |ss| ==> row[2 * i] == Number(ss[i].phash) && row[2 * i + 1] == Number(ss[i].orb)
  {
    if ss == [] then []
    else
      var init, last := ss[..|ss| - 1], ss[|ss| - 1];
      var row := PairCells(init) + [Number(last.phash), Number(last.orb)];
      assert forall i :: 0 <= i < |init| ==> ss[i] == init[i];
      row
  }

  lemma PairCellsSnoc(ss: seq<Scores>, s: Scores)
    ensures PairCells(ss + [s]) == PairCells(ss) + [Number(s.phash), Number(s.orb)]
  {
    assert (ss + [s])[..|ss|] == ss;
  }

  /** Extending a prefix of the comparisons by one adds that comparison's two cells. */
  lemma PairCellsPrefixStep(cs: seq<Comparison>, i: nat)
    requires i < |cs|
    ensures PairCells(ScoresOf(cs[..i + 1])) == PairCells(ScoresOf(cs[..i])) + [Number(Score(cs[i]).phash), Number(Score(cs[i]).orb)]
  {
    assert cs[..i + 1][..i] == cs[..i];
    PairCellsSnoc(ScoresOf(cs[..i]), Score(cs[i]));
  }

  /** The keys of `sel` that are in `keep`, in order. */
  function Kept<K(==, !new)>(sel: seq<K>, keep: set<K>): (kept: seq<K>)
    ensures |kept| <= |sel|
    ensures forall k :: k in kept <==> k in sel && k in keep
  {
    if sel == [] then []
    else
      var last := sel[|sel| - 1];
      Kept(sel[..|sel| - 1], keep) + (if last in keep then [last] else [])
  }

  /** The loop over `sel` that skips keys outside `keep` and scores the others. */
  function KeptScores<K(==)>(sel: seq<K>, keep: set<K>, score: K -> Scores): (ss: seq<Scores>)
    ensures |ss| <= |sel|
    ensures (forall i :: 0 <= i < |sel| ==> sel[i] in keep) ==> |ss| == |sel|
    ensures (forall i :: 0 <= i < |sel| ==> sel[i] !in keep) ==> ss == []
  {
    if sel == [] then []
    else
      var last := sel[|sel| - 1];
      KeptScores(sel[..|sel| - 1], keep, score) + (if last in keep then [score(last)] else [])
  }

  lemma KeptScoresSnoc<K>(sel: seq<K>, keep: set<K>, score: K -> Scores, x: K)
    ensures x in keep ==> KeptScores(sel + [x], keep, score) == KeptScores(sel, keep, score) + [score(x)]
    ensures x !in keep ==> KeptScores(sel + [x], keep, score) == KeptScores(sel, keep, score)
  {
    assert (sel + [x])[..|sel|] == sel;
    assert KeptScores(sel, keep, score) + [] == KeptScores(sel, keep, score);
  }

  /** Skipping leaves the scores of the kept keys back to back, in order. */
  lemma {:induction false} KeptScoresInOrder<K(!new)>(sel: seq<K>, keep: set<K>, score: K -> Scores)
    ensures |KeptScores(sel, keep, score)| == |Kept(sel, keep)|
    ensures forall j :: 0 <= j < |Kept(sel, keep)| ==> KeptScores(sel, keep, score)[j] == score(Kept(sel, keep)[j])
  {
    if sel != [] {
      KeptScoresInOrder(sel[..|sel| - 1], keep, score);
    }
  }

  /**
   * What `cv2.imread` and the libraries give for one readable original: its
   * size, the comparison with each of its eight variants in catalogue order,
   * and its comparison with each random file (consulted only for the random
   * files that read).
   */
  datatype Reading = Reading(width: nat, height: nat, variants: seq<Comparison>, randoms: string -> Comparison)

  /**
   * The two folders: both listings, the readable originals (a file missing
   * here reads as None) and the random files that read successfully.
   */
  datatype Folders = Folders(imageListing: seq<string>, randomListing: seq<string>, originals: map<string, Reading>, readableRandoms: set<string>)

  /** The number of fixed variants `apply_transformations` produces. */
  const VariantCount: nat := 8

  /** Every readable original has one comparison per variant. */
  predicate FoldersFit(f: Folders) {
    forall name :: name in f.originals ==> |f.originals[name].variants| == VariantCount
  }

  function RandomScorer(r: Reading): string -> Scores {
    f => Score(r.randoms(f))
  }

  /** One image's row: its name, two cells per variant, then two per selected random image that reads. */
  function Row(name: string, r: Reading, sel: seq<string>, readable: set<string>): (row: seq<Value>)
    ensures PercentRow(row) && row[0] == Text(name)
  {
    var ss, rs := ScoresOf(r.variants), KeptScores(sel, readable, RandomScorer(r));
    ScoresOfInRange(r.variants);
    KeptScoresInRange(r, sel, readable);
    PairCellsPercentages(ss);
    PairCellsPercentages(rs);
    var row := [Text(name)] + PairCells(ss) + PairCells(rs);
    NameThenPercentages(Text(name), PairCells(ss), PairCells(rs));
    row
  }

  /**
   * The row has 17 cells plus two per readable random image; after the name
   * come each variant's pHash and ORB cells, then each readable random image's.
   */
  lemma RowLayout(name: string, r: Reading, sel: seq<string>, readable: set<string>)
    requires |r.variants| == VariantCount
    ensures var row, used := Row(name, r, sel, readable), Kept(sel, readable);
      && |row| == 1 + 2 * VariantCount + 2 * |used|
      && row[0] == Text(name)
      && (forall i :: 0 <= i < VariantCount ==>
            row[1 + 2 * i] == Number(Score(r.variants[i]).phash) && row[2 + 2 * i] == Number(Score(r.variants[i]).orb))
      && (forall j :: 0 <= j < |used| ==>
            row[17 + 2 * j] == Number(Score(r.randoms(used[j])).phash) && row[18 + 2 * j] == Number(Score(r.randoms(used[j])).orb))
  {
    var used := Kept(sel, readable);
    var ss, rs := ScoresOf(r.variants), KeptScores(sel, readable, RandomScorer(r));
    var a, b := PairCells(ss), PairCells(rs);
    KeptScoresInOrder(sel, readable, RandomScorer(r));
    ScoresOfInOrder(r.variants);
    forall i | 0 <= i < VariantCount
      ensures Row(name, r, sel, readable)[1 + 2 * i] == Number(Score(r.variants[i]).phash)
      ensures Row(name, r, sel, readable)[2 + 2 * i] == Number(Score(r.variants[i]).orb)
    {
      InFirstRun(Text(name), a, b, 2 * i);
      InFirstRun(Text(name), a, b, 2 * i + 1);
    }
    forall j | 0 <= j < |used|
      ensures Row(name, r, sel, readable)[17 + 2 * j] == Number(Score(r.randoms(used[j])).phash)
      ensures Row(name, r, sel, readable)[18 + 2 * j] == Number(Score(r.randoms(used[j])).orb)
    {
      assert rs[j] == RandomScorer(r)(used[j]);
      InSecondRun(Text(name), a, b, 2 * j);
      InSecondRun(Text(name), a, b, 2 * j + 1);
    }
  }

  /** Position 1 + k of a name followed by two runs is position k of the first run. */
  lemma InFirstRun<T>(x: T, a: seq<T>, b: seq<T>, k: nat)
    requires k < |a|
    ensures ([x] + a + b)[1 + k] == a[k]
  {
  }

  /** Position 1 + |a| + k of a name followed by runs a and b is position k of b. */
  lemma InSecondRun<T>(x: T, a: seq<T>, b: seq<T>, k: nat)
    requires k < |b|
    ensures ([x] + a + b)[1 + |a| + k] == b[k]
  {
  }

  /** Cells that all hold percentages. */
  predicate Percentages(cells: seq<Value>) {
    forall c :: 0 <= c < |cells| ==> cells[c].Number? && 0.0 <= cells[c].number <= 100.0
  }

  predicate ScoresInRange(ss: seq<Scores>) {
    forall i :: 0 <= i < |ss| ==> 0.0 <= ss[i].phash <= 100.0 && 0.0 <= ss[i].orb <= 100.0
  }

  lemma PairCellsPercentages(ss: seq<Scores>)
    requires ScoresInRange(ss)
    ensures Percentages(PairCells(ss))
  {
    var row := PairCells(ss);
    forall c | 0 <= c < |row|
      ensures row[c].Number? && 0.0 <= row[c].number <= 100.0
    {
      var i := c / 2;
      if c == 2 * i {
        assert row[c] == Number(ss[i].phash);
      } else {
        assert row[c] == Number(ss[i].orb);
      }
    }
  }

  lemma ScoresOfInRange(cs: seq<Comparison>)
    ensures ScoresInRange(ScoresOf(cs))
  {
    ScoresOfInOrder(cs);
    forall i | 0 <= i < |cs|
      ensures 0.0 <= ScoresOf(cs)[i].phash <= 100.0 && 0.0 <= ScoresOf(cs)[i].orb <= 100.0
    {
      assert ScoresOf(cs)[i] == Score(cs[i]);
    }
  }

  lemma KeptScoresInRange(r: Reading, sel: seq<string>, readable: set<string>)
    ensures ScoresInRange(KeptScores(sel, readable, RandomScorer(r)))
  {
    var rs := KeptScores(sel, readable, RandomScorer(r));
    KeptScoresInOrder(sel, readable, RandomScorer(r));
    forall j | 0 <= j < |rs|
      ensures 0.0 <= rs[j].phash <= 100.0 && 0.0 <= rs[j].orb <= 100.0
    {
      assert rs[j] == Score(r.randoms(Kept(sel, readable)[j]));
    }
  }

  /** A row as the colouring pass meets it: a name, then only percentages. */
  predicate PercentRow(row: seq<Value>) {
    |row| >= 1 && row[0].Text? && Percentages(row[1..])
  }

  lemma NameThenPercentages(name: Value, a: seq<Value>, b: seq<Value>)
    requires name.Text? && Percentages(a) && Percentages(b)
    ensures ([name] + a + b)[0] == name && PercentRow([name] + a + b)
  {
    assert ([name] + a + b)[1..] == a + b;
  }

  /** The rows the image loop appends: one per listed name that reads, in order; unreadable originals add none. */
  function Rows(f: Folders, names: seq<string>): (rows: seq<seq<Value>>)
    ensures |rows| <= |names|
  {
    if names == [] then []
    else
      var last := names[|names| - 1];
      Rows(f, names[..|names| - 1])
      + (if last in f.originals then [Row(last, f.originals[last], RandomSelection(f.randomListing), f.readableRandoms)] else [])
  }

  /** A row for every name that reads, and none when no name reads. */
  lemma {:induction false} RowsCount(f: Folders, names: seq<string>)
    ensures (forall i :: 0 <= i < |names| ==> names[i] in f.originals) ==> |Rows(f, names)| == |names|
    ensures (forall i :: 0 <= i < |names| ==> names[i] !in f.originals) ==> Rows(f, names) == []
  {
    if names != [] {
      RowsCount(f, names[..|names| - 1]);
    }
  }

  /** A readable listed name has its row among the rows. */
  lemma {:induction false} RowOfName(f: Folders, names: seq<string>, name: string) returns (i: nat)
    requires name in names && name in f.originals
    ensures i < |Rows(f, names)|
    ensures Rows(f, names)[i] == Row(name, f.originals[name], RandomSelection(f.randomListing), f.readableRandoms)
  {
    var last := names[|names| - 1];
    var init := names[..|names| - 1];
    if last == name {
      i := |Rows(f, init)|;
    } else {
      assert name in init by { assert names == init + [last]; }
      i := RowOfName(f, init, name);
    }
  }

  /** Every image row is a name followed by percentages. */
  lemma {:induction false} RowsPercentages(f: Folders, names: seq<string>)
    ensures forall r :: 0 <= r < |Rows(f, names)| ==> PercentRow(Rows(f, names)[r])
  {
    if names != [] {
      RowsPercentages(f, names[..|names| - 1]);
      var last := names[|names| - 1];
    }
  }

  /** The two measures reported per comparison. */
  datatype Metric = PHashPercent | OrbPercent

  /** A header column: the leading title, or a measure of one labelled comparison. */
  datatype Column = Title(title: string) | Measure(subject: string, metric: Metric)

  /** The heading written above a column: `f"{label} pHash %"` or `f"{label} ORB %"`. */
  function ColumnName(c: Column): string {
    match c
    case Title(t) => t
    case Measure(subject, PHashPercent) => subject + " pHash %"
    case Measure(subject, OrbPercent) => subject + " ORB %"
  }

  /** A pHash column and an ORB column for each label in turn. */
  function MetricColumns(labels: seq<string>): (cols: seq<Column>)
    ensures |cols| == 2 * |labels|
    ensures forall i :: 0 <= i < |labels| ==> cols[2 * i] == Measure(labels[i], PHashPercent) && cols[2 * i + 1] == Measure(labels[i], OrbPercent)
  {
    if labels == [] then []
    else
      var init, last := labels[..|labels| - 1], labels[|labels| - 1];
      assert forall i :: 0 <= i < |init| ==> labels[i] == init[i];
      MetricColumns(init) + [Measure(last, PHashPercent), Measure(last, OrbPercent)]
  }

  const RandomLabels: seq<string> := ["Random Image 1", "Random Image 2", "Random Image 3", "Random Image 4", "Random Image 5"]

  /**
   * The header list: "Original Image", then a pHash and an ORB column per
   * variant, then the same pair per random image.
   */
  const Header: seq<Column> := [Title("Original Image")] + MetricColumns(FixedNames) + MetricColumns(RandomLabels)

  /** 27 columns: the original, a pHash and an ORB column per variant in catalogue order, then per random image 1 to 5. */
  lemma HeaderLayout()
    ensures |Header| == 1 + 2 * |FixedNames| + 2 * MaxRandomImages == 27
    ensures Header[0] == Title("Original Image")
    ensures forall i :: 0 <= i < |FixedNames| ==>
              Header[1 + 2 * i] == Measure(FixedNames[i], PHashPercent) && Header[2 + 2 * i] == Measure(FixedNames[i], OrbPercent)
    ensures forall j :: 0 <= j < MaxRandomImages ==>
              Header[17 + 2 * j] == Measure(RandomLabels[j], PHashPercent) && Header[18 + 2 * j] == Measure(RandomLabels[j], OrbPercent)
  {
    var a, b := MetricColumns(FixedNames), MetricColumns(RandomLabels);
    forall i | 0 <= i < |FixedNames|
      ensures Header[1 + 2 * i] == Measure(FixedNames[i], PHashPercent) && Header[2 + 2 * i] == Measure(FixedNames[i], OrbPercent)
    {
      InFirstRun(Title("Original Image"), a, b, 2 * i);
      InFirstRun(Title("Original Image"), a, b, 2 * i + 1);
    }
    forall j | 0 <= j < MaxRandomImages
      ensures Header[17 + 2 * j] == Measure(RandomLabels[j], PHashPercent) && Header[18 + 2 * j] == Measure(RandomLabels[j], OrbPercent)
    {
      InSecondRun(Title("Original Image"), a, b, 2 * j);
      InSecondRun(Title("Original Image"), a, b, 2 * j + 1);
    }
  }

  /** The header row of the sheet: each column's heading as text. */
  function HeaderRow(): (row: seq<Value>)
    ensures |row| == |Header| && forall i :: 0 <= i < |Header| ==> row[i] == Text(ColumnName(Header[i]))
  {
    seq(|Header|, i requires 0 <= i < |Header| => Text(ColumnName(Header[i])))
  }

  /** `ws.max_column`: the length of the longest row. */
  function MaxColumn(sheet: seq<seq<Value>>): (m: nat)
    ensures forall i :: 0 <= i < |sheet| ==> |sheet[i]| <= m
    ensures sheet != [] ==> exists i :: 0 <= i < |sheet| && |sheet[i]| == m
  {
    if sheet == [] then 0
    else
      var m := MaxColumn(sheet[..|sheet| - 1]);
      var n := |sheet[|sheet| - 1]|;
      if n > m then n else m
  }

  /**
   * The sheet of `process_images`: the header row, then at most one row per
   * listed file, each a name followed by percentages.
   */
  function Sheet(f: Folders): (sheet: seq<seq<Value>>)
    ensures 1 <= |sheet| <= 1 + |f.imageListing| && sheet[0] == HeaderRow()
    ensures forall i :: 1 <= i < |sheet| ==> PercentRow(sheet[i])
  {
    var rows := Rows(f, ImageNames(f.imageListing));
    RowsPercentages(f, ImageNames(f.imageListing));
    [HeaderRow()] + rows
  }

  /** Every image row has 17 cells plus two per readable random image among the first five. */
  lemma {:induction false} RowsWidth(f: Folders, names: seq<string>)
    requires FoldersFit(f)
    ensures forall i :: 0 <= i < |Rows(f, names)| ==>
              |Rows(f, names)[i]| == 17 + 2 * |Kept(RandomSelection(f.randomListing), f.readableRandoms)|
  {
    if names != [] {
      RowsWidth(f, names[..|names| - 1]);
      var last := names[|names| - 1];
      if last in f.originals {
        RowLayout(last, f.originals[last], RandomSelection(f.randomListing), f.readableRandoms);
      }
    }
  }

  /** No image row outgrows the header, so the sheet is exactly 27 columns wide. */
  lemma SheetWidth(f: Folders)
    requires FoldersFit(f)
    ensures MaxColumn(Sheet(f)) == |Header| == 27
  {
    HeaderLayout();
    var sheet := Sheet(f);
    var rows := Rows(f, ImageNames(f.imageListing));
    var used := Kept(RandomSelection(f.randomListing), f.readableRandoms);
    assert |used| <= MaxRandomImages;
    RowsWidth(f, ImageNames(f.imageListing));
    assert forall i :: 1 <= i < |sheet| ==> sheet[i] == rows[i - 1];
    assert |sheet[0]| == 27;
  }

  /** A cell of the colouring range: the row's value, or Empty past its end. */
  function CellAt(row: seq<Value>, column: nat): Value {
    if column < |row| then row[column] else Empty
  }

  /** The fill a fresh cell ends with; text raises ValueError, which is ignored, and an empty cell is skipped too. */
  function FillOf(v: Value): Option<string> {
    match v
    case Number(p) => ColourFor(p)
    case Text(_) => None
    case Empty => None
  }

  /** The fills of one row over columns 2 to max_column. */
  function RowFills(row: seq<Value>, maxColumn: nat): (fills: seq<Option<string>>)
    requires maxColumn >= 1
    ensures |fills| == maxColumn - 1
    ensures forall c :: 0 <= c < maxColumn - 1 ==> fills[c] == FillOf(CellAt(row, c + 1))
  {
    seq(maxColumn - 1, c requires 0 <= c < maxColumn - 1 => FillOf(CellAt(row, c + 1)))
  }

  /** The colouring pass with empty cells skipped: every fill it leaves, row by row. */
  function Fills(rows: seq<seq<Value>>, maxColumn: nat): (fills: seq<seq<Option<string>>>)
    requires maxColumn >= 1
    ensures |fills| == |rows| && forall r :: 0 <= r < |rows| ==> fills[r] == RowFills(rows[r], maxColumn)
  {
    seq(|rows|, r requires 0 <= r < |rows| => RowFills(rows[r], maxColumn))
  }

  /** The loop of the colouring pass over one row, colouring a worksheet cell per percentage. */
  method ColourRow(row: seq<Value>, maxColumn: nat) returns (fills: seq<Option<string>>)
    requires maxColumn >= 1
    ensures fills == RowFills(row, maxColumn)
  {
    fills := [];
    for c := 1 to maxColumn
      invariant |fills| == c - 1
      invariant forall k :: 0 <= k < c - 1 ==> fills[k] == FillOf(CellAt(row, k + 1))
    {
      var cell := new Cell();
      var value := CellAt(row, c);
      if value.Number? {
        ColourCell(cell, value.number);
      }
      fills := fills + [cell.fill];
    }
  }

  /** `for row in ws.iter_rows(min_row=2, min_col=2, ...)`, with empty cells skipped. */
  method ColourRows(rows: seq<seq<Value>>, maxColumn: nat) returns (fills: seq<seq<Option<string>>>)
    requires maxColumn >= 1
    ensures fills == Fills(rows, maxColumn)
  {
    fills := [];
    for r := 0 to |rows|
      invariant |fills| == r
      invariant forall k :: 0 <= k < r ==> fills[k] == RowFills(rows[k], maxColumn)
    {
      var rowFills := ColourRow(rows[r], maxColumn);
      fills := fills + [rowFills];
    }
  }

  /** Column k + 2 of a row holds a percentage coloured by its band, or lies past the row's end and stays unfilled. */
  predicate BandColoured(row: seq<Value>, fills: seq<Option<string>>) {
    forall k :: 0 <= k < |fills| ==>
      if k + 1 < |row| then row[k + 1].Number? && fills[k] == ColourFor(row[k + 1].number) && fills[k].Some?
      else fills[k].None?
  }

  lemma ColouredCells(row: seq<Value>, maxColumn: nat)
    requires maxColumn >= 1 && PercentRow(row)
    ensures BandColoured(row, RowFills(row, maxColumn))
  {
    var fills := RowFills(row, maxColumn);
    forall k | 0 <= k < |fills| && k + 1 < |row|
      ensures fills[k].Some?
    {
      assert fills[k] == ColourFor(row[k + 1].number);
    }
  }

  /** The outcome of visiting one cell as the loop is written: only ValueError is caught. */
  datatype Visit = Filled(fill: Option<string>) | RaisedTypeError

  /** `float(cell.value)`: a number converts, text raises ValueError (caught), an empty cell's None raises TypeError. */
  function VisitAsWritten(v: Value): Visit {
    match v
    case Number(p) => Filled(ColourFor(p))
    case Text(_) => Filled(None)
    case Empty => RaisedTypeError
  }

  /**
   * The colouring pass as written: None when a TypeError escapes and the
   * workbook is never saved, which is when some visited cell is empty;
   * otherwise the fills agree with those of the pass that skips empty cells.
   */
  function FillsAsWritten(rows: seq<seq<Value>>, maxColumn: nat): (saved: Option<seq<seq<Option<string>>>>)
    requires maxColumn >= 1
    ensures saved.None? <==> exists r, c :: 0 <= r < |rows| && 1 <= c < maxColumn && CellAt(rows[r], c).Empty?
    ensures saved.Some? ==> saved.value == Fills(rows, maxColumn)
  {
    if exists r, c :: 0 <= r < |rows| && 1 <= c < maxColumn && VisitAsWritten(CellAt(rows[r], c)).RaisedTypeError?
    then None
    else Some(Fills(rows, maxColumn))
  }

  /** The colouring loop over one row as written: a TypeError at the first empty cell, or the row's fills. */
  method ColourRowAsWritten(row: seq<Value>, maxColumn: nat) returns (fills: Option<seq<Option<string>>>)
    requires maxColumn >= 1
    ensures fills.None? <==> exists c :: 1 <= c < maxColumn && VisitAsWritten(CellAt(row, c)).RaisedTypeError?
    ensures fills.Some? ==> fills.value == RowFills(row, maxColumn)
  {
    var done: seq<Option<string>> := [];
    for c := 1 to maxColumn
      invariant |done| == c - 1
      invariant forall k :: 1 <= k < c ==> CellAt(row, k) != Empty
      invariant forall k :: 0 <= k < c - 1 ==> done[k] == FillOf(CellAt(row, k + 1))
    {
      var cell := new Cell();
      match CellAt(row, c) {
        case Number(p) =>
          ColourCell(cell, p);
        case Text(_) =>
          // float(text) raises ValueError, which the loop ignores
        case Empty =>
          // float(None) raises TypeError, which nothing catches
          return None;
      }
      done := done + [cell.fill];
    }
    fills := Some(done);
  }

  /** `for row in ws.iter_rows(min_row=2, min_col=2, ...)` as written: the first TypeError ends the pass. */
  method ColourRowsAsWritten(rows: seq<seq<Value>>, maxColumn: nat) returns (saved: Option<seq<seq<Option<string>>>>)
    requires maxColumn >= 1
    ensures saved == FillsAsWritten(rows, maxColumn)
  {
    var fills: seq<seq<Option<string>>> := [];
    for r := 0 to |rows|
      invariant |fills| == r
      invariant forall k :: 0 <= k < r ==> fills[k] == RowFills(rows[k], maxColumn)
      invariant forall k, c :: 0 <= k < r && 1 <= c < maxColumn ==> CellAt(rows[k], c) != Empty
    {
      var rowFills := ColourRowAsWritten(rows[r], maxColumn);
      if rowFills.None? {
        var c :| 1 <= c < maxColumn && VisitAsWritten(CellAt(rows[r], c)).RaisedTypeError?;
        assert CellAt(rows[r], c).Empty?;
        return None;
      }
      fills := fills + [rowFills.value];
    }
    assert fills == Fills(rows, maxColumn);
    saved := Some(fills);
  }

  /** As written, the pass over image rows fails exactly when some row is shorter than max_column. */
  lemma FillsAsWrittenFailsOnShortRows(rows: seq<seq<Value>>, maxColumn: nat)
    requires maxColumn >= 2
    requires forall r :: 0 <= r < |rows| ==> PercentRow(rows[r])
    ensures FillsAsWritten(rows, maxColumn).None? <==> exists r :: 0 <= r < |rows| && |rows[r]| < maxColumn
  {
    if exists r :: 0 <= r < |rows| && |rows[r]| < maxColumn {
      var r :| 0 <= r < |rows| && |rows[r]| < maxColumn;
      assert VisitAsWritten(CellAt(rows[r], |rows[r]|)).RaisedTypeError?;
    }
  }

  /**
   * With an original readable and fewer than five readable random images,
   * its row stops short of column 27 and the pass as written raises.
   */
  lemma FewRandomsAbortColouring(f: Folders, name: string)
    requires FoldersFit(f)
    requires name in ImageNames(f.imageListing) && name in f.originals
    requires |Kept(RandomSelection(f.randomListing), f.readableRandoms)| < MaxRandomImages
    ensures MaxColumn(Sheet(f)) == 27
    ensures FillsAsWritten(Sheet(f)[1..], 27).None?
  {
    var rows := Rows(f, ImageNames(f.imageListing));
    SheetWidth(f);
    assert Sheet(f)[1..] == rows;
    var i := RowOfName(f, ImageNames(f.imageListing), name);
    RowLayout(name, f.originals[name], RandomSelection(f.randomListing), f.readableRandoms);
    RowsPercentages(f, ImageNames(f.imageListing));
    FillsAsWrittenFailsOnShortRows(rows, 27);
  }

  /** The corrected pass colours every percentage cell of every image row by its band, and nothing else. */
  lemma ColouredSheet(f: Folders)
    requires FoldersFit(f)
    ensures MaxColumn(Sheet(f)) == 27
    ensures forall r :: 0 <= r < |Sheet(f)[1..]| ==> BandColoured(Sheet(f)[1..][r], Fills(Sheet(f)[1..], 27)[r])
  {
    SheetWidth(f);
    var rows := Sheet(f)[1..];
    assert rows == Rows(f, ImageNames(f.imageListing));
    RowsPercentages(f, ImageNames(f.imageListing));
    forall r | 0 <= r < |rows|
      ensures BandColoured(rows[r], Fills(rows, 27)[r])
    {
      ColouredCells(rows[r], 27);
    }
  }

  /** The two rounded cells one comparison adds to a row. */
  method ScoreCells(c: Comparison) returns (cells: seq<Value>)
    ensures cells == [Number(Score(c).phash), Number(Score(c).orb)]
  {
    var phashSim := PHashFraction(c.hashA, c.hashB);
    var orbSim := BreakdownOrbSimilarity(c.detA, c.detB, c.matches);
    cells := [Number(Round2(phashSim * 100.0)), Number(Round2(orbSim))];
  }

  /**
   * The loop over the variants of one image: two cells per variant, in
   * catalogue order. `cv2.cvtColor` in `phash_similarity` raises on a variant
   * without pixels, so the loop gives None when some variant is empty.
   */
  method VariantCells(cs: seq<Comparison>, transformations: seq<Variant>) returns (cells: Option<seq<Value>>)
    requires |cs| == |transformations|
    ensures cells.None? <==> exists i :: 0 <= i < |transformations| && EmptyOutput(transformations[i].transform)
    ensures cells.Some? ==> cells.value == PairCells(ScoresOf(cs))
  {
    var acc: seq<Value> := [];
    for i := 0 to |transformations|
      invariant acc == PairCells(ScoresOf(cs[..i]))
      invariant forall j :: 0 <= j < i ==> !EmptyOutput(transformations[j].transform)
    {
      if EmptyOutput(transformations[i].transform) {
        return None;
      }
      var pair := ScoreCells(cs[i]);
      PairCellsPrefixStep(cs, i);
      acc := acc + pair;
      assert forall j :: 0 <= j < i + 1 ==> !EmptyOutput(transformations[j].transform) by {
        assert forall j :: 0 <= j < i ==> !EmptyOutput(transformations[j].transform);
      }
    }
    assert cs[..|transformations|] == cs;
    cells := Some(acc);
  }

  /** The loop over the selected random images: two cells per image that reads, skipping the others. */
  method RandomCells(r: Reading, sel: seq<string>, readable: set<string>) returns (cells: seq<Value>)
    ensures cells == PairCells(KeptScores(sel, readable, RandomScorer(r)))
  {
    cells := [];
    for j := 0 to |sel|
      invariant cells == PairCells(KeptScores(sel[..j], readable, RandomScorer(r)))
    {
      assert sel[..j + 1] == sel[..j] + [sel[j]];
      KeptScoresSnoc(sel[..j], readable, RandomScorer(r), sel[j]);
      if sel[j] !in readable {
        continue;
      }
      var pair := ScoreCells(r.randoms(sel[j]));
      assert RandomScorer(r)(sel[j]) == Score(r.randoms(sel[j]));
      PairCellsSnoc(KeptScores(sel[..j], readable, RandomScorer(r)), Score(r.randoms(sel[j])));
      cells := cells + pair;
    }
    assert sel[..|sel|] == sel;
  }

  /**
   * One image's row: its name, then the variant cells, then the random-image
   * cells; None when a side of the original has at most one pixel, so that a
   * fixed crop is empty and the variant loop raises.
   */
  method AssembleRow(name: string, r: Reading, sel: seq<string>, readable: set<string>) returns (row: Option<seq<Value>>)
    requires |r.variants| == VariantCount
    ensures row.None? <==> CropsVanish(r.width, r.height)
    ensures row.Some? ==> row.value == Row(name, r, sel, readable)
  {
    var transformations := FixedBattery(r.width, r.height);
    FixedBatteryEmptyIff(r.width, r.height);
    var variants := VariantCells(r.variants, transformations);
    if variants.None? {
      return None;
    }
    var randoms := RandomCells(r, sel, readable);
    row := Some([Text(name)] + variants.value + randoms);
  }

  /** Some listed original that reads has a side of at most one pixel. */
  predicate RaisesOnEmptyCrop(f: Folders, names: seq<string>) {
    exists i :: 0 <= i < |names| && names[i] in f.originals && CropsVanish(f.originals[names[i]].width, f.originals[names[i]].height)
  }

  /** The image loop over one more name: a row for it when its original reads, none otherwise. */
  lemma RowsStep(f: Folders, names: seq<string>, i: nat)
    requires i < |names|
    ensures Rows(f, names[..i + 1]) == Rows(f, names[..i]) + (if names[i] in f.originals then [Row(names[i], f.originals[names[i]], RandomSelection(f.randomListing), f.readableRandoms)] else [])
  {
    assert names[..i + 1][..i] == names[..i];
  }

  /**
   * The loop over the image files: a row per file whose original reads, in
   * listing order; None when the variant loop of some readable original
   * raises on an empty crop, which ends `process_images`.
   */
  method ImageRows(f: Folders, imageFiles: seq<string>) returns (rows: Option<seq<seq<Value>>>)
    requires FoldersFit(f)
    ensures rows.None? <==> RaisesOnEmptyCrop(f, imageFiles)
    ensures rows.Some? ==> rows.value == Rows(f, imageFiles)
  {
    var sel := RandomSelection(f.randomListing);
    var acc: seq<seq<Value>> := [];
    for i := 0 to |imageFiles|
      invariant acc == Rows(f, imageFiles[..i])
      invariant forall j :: 0 <= j < i && imageFiles[j] in f.originals ==>
                  !CropsVanish(f.originals[imageFiles[j]].width, f.originals[imageFiles[j]].height)
    {
      RowsStep(f, imageFiles, i);
      var name := imageFiles[i];
      if name !in f.originals {
        assert acc + [] == acc;
        continue;
      }
      var row := AssembleRow(name, f.originals[name], sel, f.readableRandoms);
      if row.None? {
        return None;
      }
      acc := acc + [row.value];
    }
    assert imageFiles[..|imageFiles|] == imageFiles;
    rows := Some(acc);
  }

  /** The workbook `wb.save` writes: the sheet's rows and the fill of every visited cell. */
  datatype Workbook = Workbook(sheet: seq<seq<Value>>, fills: seq<seq<Option<string>>>)

  /**
   * `process_images`: the header and a row per readable image file in
   * listing order, then the colouring pass as written over the image rows.
   * The workbook is saved unless the image loop raises on an empty crop or
   * the colouring pass raises on an empty cell.
   */
  method ProcessImages(f: Folders) returns (saved: Option<Workbook>)
    requires FoldersFit(f)
    ensures saved.Some? <==> !RaisesOnEmptyCrop(f, ImageNames(f.imageListing)) && FillsAsWritten(Sheet(f)[1..], 27).Some?
    ensures saved.Some? ==> saved.value == Workbook(Sheet(f), FillsAsWritten(Sheet(f)[1..], 27).value)
  {
    var rows := ImageRows(f, ImageNames(f.imageListing));
    if rows.None? {
      return None;
    }
    var sheet := [HeaderRow()] + rows.value;
    SheetWidth(f);
    assert sheet[1..] == rows.value;
    var fills := ColourRowsAsWritten(rows.value, MaxColumn(sheet));
    if fills.None? {
      return None;
    }
    saved := Some(Workbook(sheet, fills.value));
  }
}
