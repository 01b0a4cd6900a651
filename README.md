# Image hashing and duplicate detection, modelled in Dafny

The repository is a set of Python scripts. Each script hashes images, matches
their ORB features and scores how similar an image stays under crops and
rotations. The libraries that do the pixel work (imagehash, OpenCV, PIL)
are not modelled. What they report enters the model as opaque inputs:
hash bit matrices, ORB detections with their keypoint counts, match
distances, grayscale pixels and image sizes. The logic around those calls
is modelled and proved:

- `full-system.py`:
  - the duplicate rules (dimensions, black space, pHash) and their reasons;
  - the batch loop with its results, error log and two counters;
  - the fixed and random transformation catalogue;
  - the `resize_and_crop` geometry;
  - the header and rows of the workbook.
- `data-refined.py`: the sampled batch with its size-skip rule, its rows and errors, and its five-column sheet.
- `data_breakdown.py`: the 27-column similarity sheet and the ten-band colouring of its percentage cells.
- `random_script.py`:
  - the `generate_hash` dispatch;
  - the ORB descriptor bit strings;
  - the hex Hamming distance;
  - the eight random transformations;
  - the bit-length similarity of each transformed image.
- `hash_script.py`: the two hash slots and their comparison.
- `image_check.py`: the eight-variant catalogue and its result lines.
- `angle_testing.py`: the four-image guard and the numbered comparison results.

Modules:

- Shared modules of small pieces:
  - `Wrappers`: the option type.
  - `Listing`: the `[:sample_size]` slice of a directory listing.
  - `BatchLog`: the error-log entry of both batch scripts.
  - `Numerals`: `bin`, `hex`, `zfill` and string joins.
  - `Rounding`: Python's `round(x, 2)` on exact reals.
  - `ImageHashing`: hash similarity, both the n²-based score and the bit-length score, and `generate_hash`.
  - `BlackPixels`: the black-pixel percentage.
  - `FeatureMatching`: the ORB scores and the descriptor encoders.
  - `Geometry`: crop boxes, rotations and `resize_and_crop`.
  - `PairScoring`: the rounded pHash and ORB pair shown by the two GUIs with result lists.
- One module per script's own logic: `DuplicateClassifier`, `ReportRows`, `FullSystemBatch`, `RefinedBatch`, `ColourBands`, `BreakdownReport`, `RandomTransformations`, `HashCompare`, `ImageCheck` and `AngleTesting`.

How the source's state is modelled:

- Loops that append to lists or bump counters are methods with loop invariants. Each one is proved equal to a specification function over the prefix it has visited.
- GUI state becomes classes whose fields the methods update:
  - the global hash slots;
  - `ImageProcessorApp`: the uploaded image, the altered images and the results label;
  - `ImageComparisonApp`: the original, both comparison lists and the results.

Points where the code and its general description differ, and the model follows the code:

- The bit-length similarity of `hash_script.py` and `random_script.py` is not clamped to [0, 100]. It may fall below 0 (see Findings).
- In `orb_feature_matching` (random_script.py), the ORB ratio has no distance filter and no cap.
- Two hashes of different shapes are not rejected by a check in the scripts. The model makes comparability a precondition of the hash arithmetic. With imagehash's default size, every hash is 8 x 8, so comparability holds for every pair the scripts compare.
- Variant order: the fixed catalogue of `data_breakdown.py` and `image_check.py` has eight variants. The catalogue of `full-system.py` has ten: the eight plus a random crop and a random rotation.

## Model

| member | source | states |
|---|---|---|
| DuplicateClassifier.IsDuplicate | full-system.py:95-108 | the flag and reason list the rule-by-rule appends produce are exactly the verdict Classify defines |
| DuplicateClassifier.DimensionsRuleArea | full-system.py:98-99 | an image that passes the size check has at least 720 x 720 pixels |
| DuplicateClassifier.BlackSpaceRuleBlack | full-system.py:101-102 | an image that fires the black-space check has a black pixel |
| DuplicateClassifier.PHashRuleBits | full-system.py:104-105 | an unchanged hash always fires; a hash that fires differs in fewer than three tenths of its bits |
| DuplicateClassifier.Classify | full-system.py:95-108 | reasons are never empty and come in rule order without repeats; each rule's reason is present iff its condition holds; "No Duplicate" appears only alone, and the verdict is duplicate iff it is absent |
| DuplicateClassifier.BlackSpaceRuleExact | full-system.py:101 | because the percentage is rounded first, the black-space rule fires iff the exact percentage exceeds 2.005 |
| DuplicateClassifier.PHashRuleExact | full-system.py:104 | on 8x8 hashes the pHash rule fires iff at most 19 of 64 bits differ |
| DuplicateClassifier.Labels | full-system.py:136 | one label per reason, in order |
| DuplicateClassifier.ReasonCell | full-system.py:133-139 | a non-duplicate gets "No Duplicate"; a duplicate gets its first reason's label, followed by ", " and the others' labels in order when there are more |
| DuplicateClassifier.ReasonCellJoinsReasons | full-system.py:133-139 | the "No Duplicate" branch writes the same text as joining the reasons would |
| ReportRows.RowOfSnoc | full-system.py:135-139 | writing one more variant updates exactly its name key and its reason key |
| ReportRows.RowOf | full-system.py:127 | the dict always holds "Image Name" |
| ReportRows.RowOfKeys | full-system.py:127-139 | a row holds the name and reason keys of every variant written, and no key but those and "Image Name" |
| ReportRows.HeaderPairs | full-system.py:164-168 | each name is followed by its reason key, two columns per name |
| ReportRows.Cells | full-system.py:175 | one cell per header: the row's value, or "" for a missing key |
| ReportRows.RowLookup | full-system.py:127-139 | with distinct keys the row holds the file name and both cells of every variant written |
| ReportRows.RowCells | full-system.py:174-175 | reading a full row back by the headers gives the name, then each variant's two cells in turn |
| ReportRows.ReasonKeys | full-system.py:136 | the key f"{name} Reason" of each name, in order |
| ReportRows.DistinctKeysFromLengths | full-system.py:127-139 | distinct names whose lengths exceed the first key's by one to seven give pairwise distinct row keys |
| FullSystemBatch.VariantsFitImage | full-system.py:63-92 | with the random draws in their ranges, no variant is larger than the image, and each rotation has its size |
| FullSystemBatch.FirstRaised | full-system.py:131-146 | the index of the first variant whose inspection raised: all before it succeeded |
| FullSystemBatch.FirstRaisedIs | full-system.py:131-146 | an inspection list that succeeded up to i and raised at i (or ended) first raises at i |
| FullSystemBatch.VariantCells | full-system.py:131-139 | one cell pair per variant classified so far |
| FullSystemBatch.VariantCellsAt | full-system.py:131-139 | cell pair j is "Yes"/"No" and the reason cell of variant j's verdict |
| FullSystemBatch.FlaggedCount | full-system.py:133-134 | the duplicates counted never exceed the variants classified |
| FullSystemBatch.VariantStep | full-system.py:131-140 | classifying one more variant writes its two row keys and adds one to the count exactly when it is flagged |
| FullSystemBatch.PartialRowContents | full-system.py:127-139 | after i variants the row maps "Image Name" to the file and each variant j < i's name to "Yes"/"No" and its reason key to its reason cell |
| FullSystemBatch.PartialRowKeys | full-system.py:127-139 | after i variants the row holds no other key |
| BatchLog.ErrorLine | full-system.py:146 | the error entry is 19 characters longer than the file name and message together and starts with 'E', unlike a skipped-file entry (data-refined.py:102 logs alike) |
| BatchLog.ErrorLineLayout | full-system.py:146 | the error entry is "Error processing ", the file name, ": ", then the exception message |
| FullSystemBatch.ProcessFile | full-system.py:122-146 | a failed file has fewer than ten processes and no more flags than processes; a completed one at most ten flags |
| FullSystemBatch.FoldSnoc | full-system.py:119-146 | the run after one more file is that file's step applied to the run so far |
| FullSystemBatch.Step | full-system.py:133-146 | one file keeps the earlier results and errors as prefixes, adds exactly one entry to one of them, and never lowers a counter |
| FullSystemBatch.Fold | full-system.py:119-146 | every processed file leaves exactly one result row or one error entry |
| Listing.Take | full-system.py:113 | `[:sample_size]`: the first min(n, len) entries, in listing order (data-refined.py:61 samples alike) |
| FullSystemBatch.Outcomes | full-system.py:119-146 | one outcome per listed file |
| FullSystemBatch.OutcomesAt | full-system.py:119-146 | outcome i is file i's outcome, and is bounded |
| FullSystemBatch.AccumulatePrefix | full-system.py:119-146 | processing one more file steps the run so far by that file's outcome |
| FullSystemBatch.Accumulate | full-system.py:119-146 | processing the files in order leaves one result row or one error entry per file |
| FullSystemBatch.ProcessOneFile | full-system.py:122-146 | the variant loop with its early exit yields exactly the outcome ProcessFile defines |
| FullSystemBatch.CheckVariant | full-system.py:131-140 | one loop pass keeps the row and the counter equal to those of the first i + 1 variants |
| FullSystemBatch.Record | full-system.py:134-146 | a completed file appends its row, a failed one its error entry; both add their counter increments |
| FullSystemBatch.ProcessImages | full-system.py:111-146 | the rows, error log and counters are those of processing the sampled files in order |
| FullSystemBatch.CompletedCount | full-system.py:142 | no more completed files than files |
| FullSystemBatch.FiltersSnoc | full-system.py:142-146 | one more outcome adds its row or its error entry, and counts a completed file |
| FullSystemBatch.FoldRowsAndErrors | full-system.py:142-146 | the accumulated rows are the completed outcomes' rows, the error log the failed ones' entries |
| FullSystemBatch.BatchRowsAndErrors | full-system.py:119-146 | one row per completed file and one error entry per failed file, in listing order |
| FullSystemBatch.FoldAccounting | full-system.py:116-146 | rows plus errors equal the outcomes; duplicates <= processes <= 10 per file, and 10 per completed file at least |
| FullSystemBatch.BatchAccounting | full-system.py:116-146 | every file leaves one row or one error; duplicates <= processes <= 10 x files; 10 processes per row at least |
| FullSystemBatch.FoldClean | full-system.py:119-142 | all-completed outcomes leave no errors, one row each and ten processes each |
| FullSystemBatch.CleanBatch | full-system.py:119-142 | a batch in which nothing raises has an empty error log, a row per file and ten processes per file |
| FullSystemBatch.RowKeysDistinct | full-system.py:127-139 | the 21 keys a row is written under never collide |
| FullSystemBatch.HeadersLayout | full-system.py:163-168 | after "Image Name", header 2j + 1 is variant j's name and header 2j + 2 its reason column, in battery order |
| FullSystemBatch.Headers | full-system.py:163-168 | 21 headers, the first "Image Name" |
| FullSystemBatch.CompletedRowLayout | full-system.py:174-175 | a completed file's sheet row: its name, then "Yes"/"No" and the reason cell of each verdict in header order |
| FullSystemBatch.TextCells | full-system.py:171-175 | one text cell per string, in order |
| FullSystemBatch.DataRows | full-system.py:173-175 | one sheet row per result dict, looked up by the headers |
| FullSystemBatch.Sheet | full-system.py:158-181 | the header row, the data rows and four summary rows |
| FullSystemBatch.Workbook | full-system.py:158-181 | five rows more than there are result rows |
| FullSystemBatch.SheetLayout | full-system.py:170-181 | header, rows in order, a blank row, then total processes, total duplicates and the rounded runtime |
| FullSystemBatch.Summary | full-system.py:178-181 | a blank row, then "Total Processes" with the process count, "Total Duplicates" with the duplicate count, and the runtime rounded to within half a hundredth |
| FullSystemBatch.WorkbookLayout | full-system.py:163-181 | the same layout under full-system.py's own 21 headers |
| ImageHashing.DefaultShapesComparable | full-system.py:28-29 | two default-size hashes can be subtracted and divided by their bit count |
| ImageHashing.FlattenLength | full-system.py:28 | n rows of n bits flatten to n*n bits |
| ImageHashing.FlattenInjective | full-system.py:28 | equally shaped matrices with the same flattened bits are equal |
| ImageHashing.BitCount | full-system.py:29 | `len(hash1.hash) ** 2` is the number of bits, at least 1 for a non-empty hash |
| ImageHashing.RatioInUnit | full-system.py:30 | a count out of a larger positive count is a fraction in [0, 1] |
| ImageHashing.Mismatches | full-system.py:28 | at most the length, and 0 exactly for equal bit sequences |
| ImageHashing.MismatchesSymmetric | full-system.py:28 | counting mismatches does not depend on argument order |
| ImageHashing.Distance | full-system.py:28 | `hash1 - hash2` is at most the bit count |
| ImageHashing.DistanceZeroIff | full-system.py:28 | the distance is 0 exactly for equal hashes |
| ImageHashing.DistanceSymmetric | full-system.py:28 | the distance does not depend on argument order |
| ImageHashing.HashSimilarity | full-system.py:27-31 | `calculate_hash_similarity` lies in [0, 100] |
| ImageHashing.HashSimilarityProperties | full-system.py:27-31 | 100 exactly for identical hashes, and symmetric |
| ImageHashing.HashSimilarityAboveSeventy | full-system.py:104 | on 8x8 hashes the score exceeds 70 iff at most 19 bits differ |
| ImageHashing.PHashFraction | image_check.py:85-88 | `phash_similarity` is a fraction in [0, 1] whose hundredfold is HashSimilarity |
| ImageHashing.BitsValue | hash_script.py:57 | the bits read as a binary number stay below 2^len |
| ImageHashing.HashText | hash_script.py:57 | `str(hash)` is a hex string that parses back to the hash's value |
| ImageHashing.TotalBits | hash_script.py:57 | the bit length of hash1's value is between 1 and the bit count |
| ImageHashing.BitLengthSimilarity | hash_script.py:55-58 | (1 - d / total_bits) * 100 never exceeds 100 |
| ImageHashing.BitLengthSimilarityAgainstFullWidth | hash_script.py:55-58 | never above the n^2-based score; equal to it when hash1's leading bit is set; 100 for equal hashes |
| ImageHashing.DivideByLarger | hash_script.py:58 | dividing by the larger denominator gives the smaller ratio |
| ImageHashing.UniformHash | hash_script.py:55-58 | an n x n matrix of one bit value |
| ImageHashing.FlattenUniform | hash_script.py:55 | a uniform matrix flattens to a uniform bit sequence |
| ImageHashing.ZeroBitsValue | hash_script.py:57 | all-zero bits read as 0 |
| ImageHashing.OppositeMismatches | hash_script.py:55 | complementary bit sequences differ everywhere |
| ImageHashing.ZeroHashTotalBits | hash_script.py:57 | an all-zero hash has bit length 1 |
| ImageHashing.OppositeHashesDistance | hash_script.py:55 | the all-zero and all-one hashes differ in all n*n bits |
| ImageHashing.BitLengthSimilarityCanBeNegative | hash_script.py:55-58 | an all-zero hash1 against an all-one hash2 scores -6300, while the n^2-based score is 0 |
| ImageHashing.OppositeHashScores | hash_script.py:55-58 | for n x n hashes the opposite pair scores 100 - 100 n^2 by bit length and 0 by bit count |
| ImageHashing.OppositeBitLengthScore | hash_script.py:55-58 | the opposite pair scores 100 - 100 n^2 by bit length |
| ImageHashing.OppositeFullWidthScore | full-system.py:27-31 | the opposite pair scores 0 over the n^2 bit count |
| ImageHashing.GenerateHash | hash_script.py:11-19 | the chosen library hash for the four known tags, None for every other tag |
| ImageHashing.SelectAlgorithm | random_script.py:21-29 | a hash exactly for the tags "phash", "ahash", "dhash" and "whash", each choosing its own algorithm |
| BlackPixels.CountBlack | full-system.py:37 | no more black pixels than pixels |
| BlackPixels.CountBlackIsMultiplicity | full-system.py:37 | `np.sum(image_array == 0)` is the multiplicity of intensity 0 |
| BlackPixels.ExactBlackPercentage | full-system.py:37-39 | a percentage in [0, 100], 0 iff no pixel is black, 100 iff all are |
| BlackPixels.PercentOf | full-system.py:39 | c of n as a percentage is in [0, 100], 0 iff c = 0, 100 iff c = n |
| BlackPixels.AllBlackIffFullCount | full-system.py:37-38 | the count equals the size iff every pixel is 0 |
| BlackPixels.BlackPercentage | full-system.py:34-40 | undefined (NaN) exactly for an image without pixels, otherwise a rounded percentage in [0, 100] |
| Rounding.Round2 | full-system.py:40 | `round(x, 2)` lies within 0.005 of x |
| Rounding.Round2Bounds | full-system.py:40 | rounding a percentage keeps it in [0, 100] |
| Rounding.Round2Monotone | full-system.py:40 | rounding preserves order |
| Rounding.Round2AboveTwo | full-system.py:101 | `round(p, 2) > 2` iff p > 2.005 |
| Rounding.Round2Whole | image_check.py:112 | whole numbers round to themselves |
| Numerals.Pow | random_script.py:48 | a positive base has positive powers |
| Numerals.Pow16IsPow2 | hash_script.py:57 | 16^k = 2^(4k): k hex digits carry 4k bits |
| Numerals.PowMonotone | hash_script.py:57 | powers grow with the exponent |
| Numerals.Binary | hash_script.py:57 | `bin(v)[2:]` is a non-empty bit string with no leading zero |
| Numerals.BinaryLength | hash_script.py:57 | a value below 2^k has at most k binary digits |
| Numerals.ZFill | random_script.py:48 | `zfill(width)` left-pads with '0' to the width and keeps the string as its suffix |
| Numerals.ToBinaryWidth | random_script.py:35 | `format(v, '08b')`: exactly k bit characters |
| Numerals.ParseToBinaryWidth | random_script.py:35 | reading the k bits back gives v |
| Numerals.ToBinaryWidthParse | random_script.py:35 | a bit string is the fixed-width rendering of its value |
| Numerals.ZFillBinary | random_script.py:48 | `bin(v)[2:].zfill(k)` is the k-bit rendering when v fits |
| Numerals.ZeroPrefix | random_script.py:48 | a one-bit value renders as k - 1 zeros and its bit |
| Numerals.HexValue | random_script.py:48 | a hex digit's value is below 16 |
| Numerals.ParseHex | random_script.py:48 | `int(s, 16)` is below 16^len |
| Numerals.HexChar | hash_script.py:57 | the digit character of a value below 16 reads back as that value |
| Numerals.ToHexWidth | hash_script.py:57 | exactly k hexadecimal digits |
| Numerals.ParseToHexWidth | hash_script.py:57 | `int(str(hash), 16)` recovers the value from its k-digit text |
| Numerals.Decimal | data-refined.py:94 | `str(n)` is a digit string without a leading zero |
| Numerals.DecimalRoundTrip | data-refined.py:94 | reading the decimal text back gives n |
| Numerals.Join | full-system.py:136 | joining a single part gives that part |
| Numerals.JoinLength | full-system.py:136 | the joined text is as long as the parts together plus one separator between each two |
| Numerals.JoinTwo | full-system.py:136 | two parts join as the first, the separator, then the second |
| FeatureMatching.GoodMatches | image_check.py:99 | keeps only distances below 42, never more matches than there were |
| FeatureMatching.GoodMatchesMultiset | image_check.py:99 | every distance below 42 is kept as often as it occurs, and nothing else |
| FeatureMatching.MinKeypoints | image_check.py:100 | `min(len(kp1), len(kp2))` is at least 1 and at most each count |
| FeatureMatching.CappedRatio | image_check.py:100-101 | `min(good / min_kp * 100, 100)` lies in [0, 100], is 0 iff no good match, and is the plain ratio while good <= min_kp |
| FeatureMatching.OrbSimilarity | image_check.py:90-101 | in [0, 100]; 0 iff a descriptor array is missing or no match is good |
| FeatureMatching.BreakdownOrbSimilarity | data_breakdown.py:50-66 | in [0, 100]; 0 when a descriptor array is missing or there are no matches |
| FeatureMatching.OrbVariantsAgree | data_breakdown.py:59-61 | the extra early return for no matches gives the same score as the GUIs' version |
| FeatureMatching.OrbCapInactive | image_check.py:97-101 | with at most min_kp cross-checked matches the cap never cuts in |
| FeatureMatching.ByteBits | random_script.py:35 | `format(byte, '08b')` is exactly eight bit characters |
| FeatureMatching.ByteBitsMostSignificantFirst | random_script.py:35 | those characters are the byte's bits, most significant first, and read back as the byte |
| FeatureMatching.DescriptorBits | random_script.py:35 | a k-byte descriptor becomes 8k bit characters |
| FeatureMatching.BitStringConcat | random_script.py:35 | joining bit strings gives a bit string |
| FeatureMatching.DecodeDescriptor | random_script.py:35 | 8k bits decode to k bytes |
| FeatureMatching.DescriptorBitsRoundTrip | random_script.py:35 | the encoding is invertible: decoding a descriptor's bits gives it back |
| FeatureMatching.DescriptorsToBitstrings | random_script.py:32-37 | one bit string per descriptor, in order |
| FeatureMatching.ConcatenatedBits | random_script.py:41-42 | the text hashed by `orb_descriptors_to_sha256` is a bit string |
| FeatureMatching.ZipMismatches | random_script.py:50 | `zip` compares no more positions than the shorter string has |
| FeatureMatching.ZipMismatchesSelf | random_script.py:50 | a string is at distance 0 from itself |
| FeatureMatching.ZipMismatchesSymmetric | random_script.py:50 | the count does not depend on argument order |
| FeatureMatching.ZipMismatchesZero | random_script.py:50 | equally long strings at distance 0 are equal |
| FeatureMatching.HexFixedWidth | random_script.py:48 | at most k hex digits, zero-filled to 4k bits, are the fixed-width rendering of their value |
| FeatureMatching.HexDistanceFixedWidth | random_script.py:48-50 | on such renderings the distance is at most 4k, and 0 iff the values are equal |
| FeatureMatching.HexHammingDistance | random_script.py:47-50 | `hamming_distance` is 0 on equal inputs; for inputs of at most 64 digits it is at most 256 and 0 iff their values agree |
| FeatureMatching.HexHammingSymmetric | random_script.py:47-50 | the distance does not depend on argument order |
| FeatureMatching.DigestSimilarity | random_script.py:70 | (1 - d / 256) * 100 lies in [0, 100] and is 100 for equal digests |
| FeatureMatching.MatchRatio | random_script.py:85 | all matches over the smaller keypoint count, non-negative, at most 100 when the matches do not outnumber it |
| FeatureMatching.OrbFeatureMatching | random_script.py:53-89 | None iff a descriptor array is missing; otherwise a non-negative match ratio and a digest similarity in [0, 100] |
| FeatureMatching.OrbFeatureMatchingAtLeastOrbSimilarity | random_script.py:82-85 | counting every match, uncapped, never scores below the filtered and capped score |
| FeatureMatching.PercentMonotone | random_script.py:85 | a larger count over the same positive base is a larger percentage |
| Geometry.Fraction | full-system.py:81-84 | `int(f * n)` for f <= 1 is at most n |
| Geometry.FractionMonotone | full-system.py:81-84 | a larger fraction trims at least as far |
| Geometry.FractionalCrop | full-system.py:81-84 | the box (int(f w), int(f h), int((1 - f) w), int((1 - f) h)) lies inside the image |
| Geometry.FractionalCropNearlyCentred | full-system.py:81-84 | the right margin equals the left one or exceeds it by one pixel, and likewise vertically |
| Geometry.FractionalCropsNest | full-system.py:81-84 | a heavier crop lies inside a milder one |
| Geometry.ResizeAndCrop | full-system.py:43-61 | the resized image covers the target, one side exactly; the crop box lies inside it, is exactly tw x th, and is centred up to one pixel |
| Geometry.CoverLemma | full-system.py:48-50 | scaling by at least t / o covers t, scaling by exactly t / o lands on t |
| Geometry.CropRangesNonEmpty | random_script.py:99-112 | every randint range of a mild or extensive crop is non-empty |
| Geometry.ExtensiveCropInside | full-system.py:64-70 | an extensive crop lies inside the image and keeps the box from n // 4 to 3n // 4 |
| Geometry.MildCropInside | random_script.py:99-104 | a mild crop is an extensive one that trims at least n // 8 on every side |
| Geometry.RotationRanges | full-system.py:73-75 | a random rotation is never a whole turn; the mild and extensive ranges share only 45 degrees |
| Geometry.OutputSize | image_check.py:80-83 | a rotation keeps the w x h canvas, and a crop inside the image is no larger than it |
| Geometry.FixedBatteryEmptyIff | image_check.py:69-72 | some fixed variant has no pixels exactly when a side of the image has at most one, and then "Mild Crop 1" has none |
| Geometry.Names | full-system.py:80-91 | the variant names in order |
| Geometry.NamesConcat | full-system.py:80-91 | the names of two catalogues put together are the names of each, in order |
| Geometry.FixedBattery | image_check.py:68-77 | eight variants named in insertion order: crops trimming 5, 10, 20 and 25 percent, then rotations by 10, 15, 45 and 90 degrees |
| Geometry.FullBattery | full-system.py:78-92 | ten variants named as the report's columns: the fixed eight, a crop by the random box, then a rotation by the random angle |
| Geometry.FullBatteryLayout | full-system.py:78-92 | with the random box drawn from the extensive ranges, every crop box of the ten variants lies inside the image |
| Geometry.FullNamesDistinct | full-system.py:80-91 | the ten variant names are distinct |
| RefinedBatch.Outcomes | data-refined.py:65-102 | one outcome per listed file |
| RefinedBatch.ProcessFile | data-refined.py:65-102 | a file yields a row iff it opens, is not too small and its hashes compute; otherwise one log entry |
| RefinedBatch.SizeText | data-refined.py:94 | "WxH": the decimal width, one "x", the decimal height, each side reading back as its number |
| RefinedBatch.OutcomesStep | data-refined.py:65-102 | one more file appends its row or its log entry, and nothing else |
| RefinedBatch.ProcessImages | data-refined.py:60-102 | the result rows and the error log are those of the sampled files' outcomes, in listing order |
| RefinedBatch.SkipRule | data-refined.py:75-77 | a file is logged as too small iff both sides are below 720; a file whose hashes compute yields a row iff one side is at least 720 |
| RefinedBatch.SizePair | data-refined.py:76 | `str(original_size)` is enclosed in parentheses |
| RefinedBatch.SizePairReadsBack | data-refined.py:76 | the size pair is "(", the width, ", ", the height, ")", both numbers reading back |
| RefinedBatch.SmallEntry | data-refined.py:76 | the entry of a skipped file starts with "Image " |
| RefinedBatch.SmallEntryLayout | data-refined.py:76 | the entry is "Image ", the file name, " is smaller than 720x720: ", then the size pair |
| RefinedBatch.StandardizedDecimal | data-refined.py:76 | the 720 of the message is the decimal numeral of the standardized size |
| RefinedBatch.RowFields | data-refined.py:92-98 | a row names its file, holds "WxH", hex texts that parse to both hashes, and a rounded percentage that is 100 for an unchanged hash |
| RefinedBatch.SizeTextInjective | data-refined.py:94 | the "WxH" text determines width and height |
| RefinedBatch.FilterAccounting | data-refined.py:65-102 | rows plus log entries are as many as outcomes |
| RefinedBatch.BatchAccounting | data-refined.py:65-102 | every file leaves exactly one row or one log entry |
| RefinedBatch.OutcomesAt | data-refined.py:65-102 | outcome i is file i's outcome |
| RefinedBatch.AllRows | data-refined.py:92-98 | outcomes that are all rows log nothing and keep one row each |
| RefinedBatch.CleanBatch | data-refined.py:65-98 | readable files with a side of at least 720 whose hashes compute log nothing and give a row each |
| RefinedBatch.RowCells | data-refined.py:125 | five cells, in header order |
| RefinedBatch.HeaderCells | data-refined.py:120-121 | the five header texts in order |
| RefinedBatch.WriteToExcel | data-refined.py:115-125 | the header row, then one row of five cells per result, in order |
| ColourBands.PaletteDistinct | data_breakdown.py:71-90 | the ten band colours are pairwise distinct |
| ColourBands.ColourFor | data_breakdown.py:70-90 | some colour exactly for 0 <= p <= 100, and the colour of the band p lies in |
| ColourBands.ColourIsBand | data_breakdown.py:71-90 | p gets the colour of band k exactly when it lies in [10k, 10k + 10), or in [90, 100] for the last band |
| ColourBands.BandsPartition | data_breakdown.py:71-90 | every percentage lies in exactly one band |
| ColourBands.Cell.constructor | data_breakdown.py:92-94 | a fresh cell has no fill |
| ColourBands.ColourCell | data_breakdown.py:69-94 | a percentage in [0, 100] sets its band's colour as the fill; any other value leaves the fill as it was |
| BreakdownReport.ImageNames | data_breakdown.py:98-99 | keeps exactly the listed names ending in .png, .jpg or .jpeg, in listing order |
| BreakdownReport.HasImageExtension | data_breakdown.py:98-99 | a name that passes has at least four characters, its last four being ".png", ".jpg" or "jpeg" |
| BreakdownReport.ImageNamesConcat | data_breakdown.py:98 | filtering a listing in two parts is filtering each part, in order |
| BreakdownReport.RandomSelection | data_breakdown.py:99-102 | the random images used are a prefix of the random folder's image files, five of them or all when there are fewer |
| BreakdownReport.ScoresOfInOrder | data_breakdown.py:141-149 | the scores of the variant loop are the scores of each variant, in catalogue order |
| BreakdownReport.Score | data_breakdown.py:143-149 | both stored numbers are percentages, each within half a hundredth of the exact pHash and ORB similarity |
| BreakdownReport.ScoresOf | data_breakdown.py:141-149 | one score per comparison |
| BreakdownReport.PairCells | data_breakdown.py:149 | extending a row with two numbers per comparison puts comparison i at positions 2i and 2i + 1 |
| BreakdownReport.PairCellsSnoc | data_breakdown.py:149 | one more comparison adds exactly its two cells at the end |
| BreakdownReport.Kept | data_breakdown.py:152-158 | the random files the loop keeps are exactly the selected ones that read |
| BreakdownReport.KeptScores | data_breakdown.py:152-161 | never more scores than selected files; one per file when all read, none when none reads |
| BreakdownReport.KeptScoresSnoc | data_breakdown.py:152-161 | a random file that reads adds its scores, one that does not read adds nothing |
| BreakdownReport.KeptScoresInOrder | data_breakdown.py:152-161 | skipped random files leave no gap: score j belongs to the j-th readable random file |
| BreakdownReport.RowLayout | data_breakdown.py:139-161 | a row has 1 + 2 * 8 + 2 * (readable random images) cells: the name, each variant's pHash and ORB cells, then each readable random image's |
| BreakdownReport.Row | data_breakdown.py:139-164 | the row starts with the file name and every later cell is a percentage |
| BreakdownReport.PairCellsPercentages | data_breakdown.py:149 | cells built from in-range scores all hold percentages |
| BreakdownReport.ScoresOfInRange | data_breakdown.py:141-149 | every variant score lies in [0, 100] |
| BreakdownReport.KeptScoresInRange | data_breakdown.py:152-161 | every random-image score lies in [0, 100] |
| BreakdownReport.Rows | data_breakdown.py:128-164 | never more rows than listed image files |
| BreakdownReport.RowsCount | data_breakdown.py:128-133 | a row for every name when all originals read, and no row when none reads |
| BreakdownReport.RowOfName | data_breakdown.py:128-164 | every listed original that reads has its row among the rows |
| BreakdownReport.RowsPercentages | data_breakdown.py:128-164 | every image row is a name followed by percentages |
| BreakdownReport.Sheet | data_breakdown.py:110-164 | the header row first, then at most one row per listed file, each a name followed by percentages |
| BreakdownReport.MetricColumns | data_breakdown.py:110-123 | a pHash column and an ORB column per label, label i at columns 2i and 2i + 1 |
| BreakdownReport.HeaderLayout | data_breakdown.py:110-123 | the header has 27 columns: "Original Image", then pHash and ORB per variant in catalogue order, then per random image 1 to 5 |
| BreakdownReport.HeaderRow | data_breakdown.py:110-125 | the appended header row holds each column's heading as text |
| BreakdownReport.MaxColumn | data_breakdown.py:167 | `ws.max_column` is the length of the longest row: no row is longer and some row has it |
| BreakdownReport.RowsWidth | data_breakdown.py:139-164 | every image row has 17 cells plus two per readable selected random image |
| BreakdownReport.SheetWidth | data_breakdown.py:125-167 | no image row outgrows the header, so the sheet is exactly 27 columns wide |
| BreakdownReport.RowFills | data_breakdown.py:167-173 | one fill per column 2 to max_column; every cell is visited, including cells past the row's end |
| BreakdownReport.Fills | data_breakdown.py:167-173 | one list of fills per image row, the header excluded |
| BreakdownReport.ColourRow | data_breakdown.py:168-173 | the corrected cell loop, which skips empty cells, gives each cell the fill its value's band dictates |
| BreakdownReport.ColourRows | data_breakdown.py:167-173 | the corrected row loop gives every image row its fills |
| BreakdownReport.ColouredCells | data_breakdown.py:167-173 | in a row of percentages each cell gets its band's colour and the columns past the row's end stay unfilled |
| BreakdownReport.FillsAsWrittenFailsOnShortRows | data_breakdown.py:167-173 | as written, the pass raises an uncaught TypeError exactly when some image row is shorter than max_column |
| BreakdownReport.FewRandomsAbortColouring | data_breakdown.py:152-176 | with a readable original and fewer than five readable random images the pass as written raises before the workbook is saved |
| BreakdownReport.FillsAsWritten | data_breakdown.py:166-176 | the pass as written reaches `wb.save` exactly when no visited cell is empty, and then holds every visited cell's fill |
| BreakdownReport.ColourRowAsWritten | data_breakdown.py:168-173 | the cell loop as written fails exactly when a visited cell is empty, and otherwise gives each cell its band's fill |
| BreakdownReport.ColourRowsAsWritten | data_breakdown.py:167-176 | the row loop as written gives the fills of FillsAsWritten: none when some visited cell is empty |
| BreakdownReport.ColouredSheet | data_breakdown.py:166-173 | with empty cells skipped, every percentage cell of every image row is coloured by its band and nothing else is |
| BreakdownReport.ScoreCells | data_breakdown.py:143-149 | one comparison adds its rounded pHash percentage and its rounded ORB score |
| BreakdownReport.VariantCells | data_breakdown.py:141-149 | the variant loop raises exactly when some variant has no pixels (cvtColor, data_breakdown.py:38); otherwise it builds two cells per variant, in catalogue order |
| BreakdownReport.RandomCells | data_breakdown.py:152-161 | the random loop builds two cells per selected random image that reads, skipping the others |
| BreakdownReport.AssembleRow | data_breakdown.py:136-161 | the row raises exactly when a side of the original has at most one pixel; otherwise it is the name, the variant cells, then the random-image cells |
| BreakdownReport.RowsStep | data_breakdown.py:128-164 | one more listed name adds its row when its original reads and nothing when it does not |
| BreakdownReport.ImageRows | data_breakdown.py:128-164 | the image loop raises exactly when some listed original that reads has a side of at most one pixel; otherwise it builds one row per listed file whose original reads, in listing order |
| BreakdownReport.ProcessImages | data_breakdown.py:97-176 | the workbook is saved exactly when no readable original has a side of at most one pixel and no visited cell is empty; it then holds the header, one row per readable image file in listing order, and every visited cell's fill |
| RandomTransformations.Crops | random_script.py:99-113 | one crop per drawn box, in draw order |
| RandomTransformations.Rotations | random_script.py:116-124 | one rotation per drawn angle, in draw order |
| RandomTransformations.RandomBatteryLayout | random_script.py:99-124 | eight transformations: two mild crops inside the eighth-to-quarter band, two extensive crops inside the image, two rotations by 0 to 45 degrees and two by 45 to 360 |
| RandomTransformations.RandomBattery | random_script.py:94-124 | one transformation per draw: the mild and extensive crops first, then the rotations |
| RandomTransformations.TransformImages | random_script.py:94-124 | the four loops append the crops, then the rotations, in draw order |
| RandomTransformations.Record | random_script.py:127-136 | a pass raises exactly when the original has no hash, the hash type is unsupported or the original does not convert to grey (random_script.py:56); otherwise it records the transformation, its hash, the bit-length similarity and an ORB ratio missing exactly when a descriptor array is |
| RandomTransformations.Results | random_script.py:127-136 | a loop over at least one transformation raises exactly when the original has no hash, the hash type is unsupported or the original does not convert to grey; one that does not raise holds one result per transformation |
| RandomTransformations.ResultsMeaning | random_script.py:127-136 | a loop that does not raise records one result per transformation, in order, each describing its transformed image against the original |
| RandomTransformations.Describes | random_script.py:127-136 | a described similarity is at most 100, and exactly 100 when the transformed image hashes like the original |
| RandomTransformations.RecordPass | random_script.py:128-136 | one pass of the result loop computes the record of its transformed image |
| RandomTransformations.ApplyTransformations | random_script.py:92-138 | the result is the result loop over the random battery, or the exception of its first failing pass |
| RandomTransformations.ResultsStep | random_script.py:127-136 | one more pass extends the results by its record, or raises when it or an earlier pass raises |
| RandomTransformations.NoneStaysNone | random_script.py:127-136 | once a pass has raised, the loop over every longer prefix has raised |
| RandomTransformations.ApplyTransformationsLayout | random_script.py:92-138 | with a hashed original, a supported hash type and an original that converts to grey, there are eight results, for the crops then the rotations in draw order, each scoring at most 100 |
| HashCompare.HashSlots.constructor | hash_script.py:7-8 | both hash slots start empty |
| HashCompare.HashSlots.LoadAndHashImage | hash_script.py:22-49 | image number 1 changes only hash1 and 2 only hash2, each receiving the generated hash; any other number, a cancelled dialog or a load error changes neither |
| HashCompare.HashSlots.CompareHashes | hash_script.py:52-63 | a percentage exactly when both slots are set; at most 100, exactly 100 for equal hashes, and the n^2-based score when hash1's leading bit is set |
| HashCompare.LoadBothThenCompare | hash_script.py:22-63 | the same image loaded into both slots with a supported hash type compares at 100 |
| ImageCheck.AlteredImageSizes | image_check.py:65-83 | eight variants named in insertion order; crop k has the size between its int(f * side) and int((1 - f) * side) bounds, and every rotation keeps width and height |
| PairScoring.Compare | image_check.py:108-112 | both rounded readings are percentages within half a hundredth of the exact scores; an unchanged pHash reads 100 and a missing descriptor array reads 0 for ORB |
| ImageCheck.ResultLines | image_check.py:108-112 | one result line per variant |
| ImageCheck.Line | image_check.py:110-112 | the line names its variant and holds two percentages; an unchanged pHash reads 100 and a variant without descriptors reads 0 for ORB |
| ImageCheck.ResultLinesInOrder | image_check.py:108-112 | line i names variant i and holds the original's scores against it |
| ImageCheck.ProcessedLines | image_check.py:103-112 | exactly eight lines, named in catalogue order, each holding two percentages; an unchanged pHash reads 100 and a variant without descriptors reads 0 for ORB |
| ImageCheck.ImageProcessor.constructor | image_check.py:20-42 | no image, no altered images and no result lines at start |
| ImageCheck.ImageProcessor.UploadImage | image_check.py:44-56 | a chosen readable image replaces the original; a cancelled dialog or a load error leaves the OpenCV original unchanged |
| ImageCheck.ImageProcessor.ProcessImage | image_check.py:103-117 | without an image nothing changes; otherwise the altered images become the fixed catalogue, and the label shows one line per variant in order exactly when both sides of the image exceed one pixel; on a thinner image a crop is empty, cvtColor raises and the label stays |
| AngleTesting.Loaded | angle_testing.py:64-76 | the loading loop never yields more converted images than opened ones, nor more opened images than paths |
| AngleTesting.LoadedMeaning | angle_testing.py:64-76 | the opened list is a prefix of the selection, at most one longer than the converted list; both hold every path exactly when every path loads, entry i being path i |
| AngleTesting.LoadedFrom | angle_testing.py:68-71 | loading from path i on gives nothing when path i does not open, only the opened image when it does not convert, and that image in both lists before the rest otherwise |
| AngleTesting.Numbered | angle_testing.py:101-108 | one result per comparison image |
| AngleTesting.NumberedMeaning | angle_testing.py:101-108 | result i is numbered i + 1 and holds the original's scores against comparison image i, both percentages |
| AngleTesting.ImageComparison.constructor | angle_testing.py:19-22 | no original, no comparison images and no results at start |
| AngleTesting.ImageComparison.UploadOriginalImage | angle_testing.py:44-55 | a chosen image that opens and converts becomes the original; a cancelled dialog or a load error leaves it |
| AngleTesting.ImageComparison.UploadComparisonImages | angle_testing.py:57-76 | a selection of other than four images changes nothing; four are loaded into freshly emptied lists, stopping at the first load error |
| AngleTesting.ImageComparison.CompareImages | angle_testing.py:96-115 | nothing changes unless an original is set and four images are held; then the results are reset and rebuilt, one numbered result per image |

## Left out

- The tkinter GUI is not modelled: windows, dialogs, labels, thumbnails, canvas scrolling, message boxes and button states. A dialog's answer enters as a parameter (a chosen path or a cancelled pick).
- `display_transformations` and `upload_and_compare_second_image` (random_script.py) are not modelled. They only lay out labels and log values that the modelled functions already compute.
- `download_images` (image_check.py) and `download_results` (angle_testing.py) are not modelled. They only write files.
- The text of the result lines is not modelled. Lines and results are structured values (a name or an index, and two numbers).
- Library internals are opaque inputs:
  - pixel decoding;
  - LANCZOS resizing, `cv2.warpAffine` and PIL `rotate`;
  - the perceptual hashes;
  - ORB detection and the cross-checked `BFMatcher`.
- PIL images in `angle_testing.py` are stood for by their paths.
- SHA-256 in `orb_descriptors_to_sha256` is a foreign call. It enters as a function parameter that is required to give 64 hex digits. Only the bit strings fed to it are modelled.
- Files and workbooks are not modelled:
  - openpyxl workbook creation;
  - the worksheet objects;
  - `wb.save`;
  - the error-log file.
  Only the sheet's rows, the cell fills and the error entries are modelled.
- The order of `os.listdir` is an input sequence.
- Randomness: every `random.randint(a, b)` result is a parameter required to lie in [a, b]. No distribution is modelled.
- `time.time` is not modelled. The runtime it measures enters as a parameter.
- Floating point: percentages are modelled as exact reals.
  - `int(f * n)` for a crop fraction f = k/100 is modelled as floor(k * n / 100). The float product can differ from it by one.
  - The containment property of `resize_and_crop` holds only in exact arithmetic.
- `round(x, 2)` is modelled on exact reals with ties to even. It does not model binary floating-point representation error.
- `unix-data.py` is not part of this model. It dumps file metadata and timestamps and has no logic to prove.
- The scripts run no concurrent code, so there is no concurrency to model.
- Console logging is not modelled: the progress and error prints of full-system.py (lines 120, 145, 155, 184) and data-refined.py (lines 101, 112, 129), and the four hash and distance prints of random_script.py:72-75. They write values the model already computes and change nothing.
- FeatureMatching.OrbFeatureMatching: takes the ORB detections of images already converted to grey. The `cv2.cvtColor(..., COLOR_RGB2GRAY)` calls at random_script.py:56-57 raise for a PIL image without three or four channels; that failure enters RandomTransformations.Record as a missing detection of the original. The transformed images share the original's mode, so the same refusal applies to them and is not modelled separately.
- ImageCheck.ImageProcessor.constructor: `__init__` never sets `original_image_cv`. The constructor's empty original stands for that missing attribute. A call of `process_image` before any upload therefore fails, and the model leaves everything unchanged.
- AngleTesting.ImageComparison.constructor: `__init__` never sets `comparison_images`. The constructor starts that list empty.
- ImageCheck.ImageProcessor.UploadImage: `self.original_image` is assigned before the conversion that can raise, and `display_image` thumbnails it in place to 200 x 200. The model keeps only the OpenCV original, which is what `process_image` reads; the PIL image is read only by `download_images`, which is not modelled.
- RandomTransformations.Record: a random crop of an image with a side of one pixel can be empty. What imagehash and ORB make of such an image enters as the observation of that transformation; a library failure on it is not modelled.
- AngleTesting.ImageComparison.UploadOriginalImage: when a conversion fails, the PIL `original_image` is still replaced. The model keeps only the OpenCV original, which is what the comparisons read.

## Findings

| source | as written | input that shows it | evidently intended | confidence | as-written member | corrected member |
|---|---|---|---|---|---|---|
| hash_script.py:55-58 | the Hamming distance is divided by the bit length of hash1's integer value, which is 1 for an all-zero hash | an all-zero 8 x 8 hash1 against an all-one hash2 gives distance 64 over 1 bit, a similarity of -6300 % | divide by the hash's 64 bits, as the comment "total number of bits in the hash" says, giving a score in [0, 100] | not executed | ImageHashing.BitLengthSimilarityCanBeNegative | ImageHashing.HashSimilarityProperties |
| data_breakdown.py:167-173 | the colouring pass runs to `ws.max_column` and calls `float(cell.value)` on every cell; only ValueError is caught | a readable original of at least 2 x 2 pixels with fewer than five readable random images gives a row shorter than 27 cells; `float(None)` on a cell past its end raises TypeError, and the workbook is never saved | visit only the filled cells, so every percentage is coloured and the sheet is saved | not executed | BreakdownReport.FewRandomsAbortColouring (the pass as written: BreakdownReport.ProcessImages, BreakdownReport.FillsAsWritten) | BreakdownReport.ColourRows (proved by BreakdownReport.ColouredSheet) |
