# face-verification-api, modelled in Dafny

The repository is a small face-verification service and a set of
evaluation scripts around it. The service takes two images, detects the
faces in each, compares the first face of each by cosine similarity and
answers with a percentage, a same-person verdict and a confidence band.
The scripts read benchmark pair files (CALFW/CPLFW `image label` rows,
LFW tab-separated rows), turn them into image pairs, score them against
the service, and count the outcomes.

Face detection, embeddings, ROC analysis and HTTP are foreign libraries.
What this project models is the logic of the repository's own code:

- **Pair-file reading** (`PairFile`). Lines are cleaned as
  `[line.strip() for line in lines if line.strip()]` and read as
  `image label` rows. Rows with fewer than two tokens are skipped, and a
  label that is not an integer raises ValueError. Samples are split by
  label, and consecutive items are paired with
  `range(0, len - 1, 2)`. The debugging scripts read labels with
  `int(line.split()[1])` and no guard.
- **The multi-dataset evaluator** (`EvaluateAll`). It covers:
  - `load_pairs` and the `max_pairs` balancing;
  - the scoring loop, where a missing image or a failed request counts
    the pair as failed;
  - inclusive threshold predictions;
  - the confusion counts with TAR and FAR.
- **The LFW evaluator** (`EvaluateLfw`). It covers:
  - `load_lfw_pairs`: the header is skipped; three fields make a
    same-person row and four fields a different-person row; any other
    row is skipped;
  - `get_image_path`, which builds `dir/person/person_NNNN.jpg`;
  - `max_pairs` truncation;
  - the skip-and-record loop with its strict threshold.
- **The service** (`Server`). It covers the order in which
  `verify_faces` and `calculate_similarity` raise their HTTP errors, the
  use of the first face only, the `(c + 1) * 50` rescale, and the verdict
  (`score > 65`, confidence bands at 60 and 75).
- **The debugging scripts**, one module each: `check_pairs`
  (`CheckAllPairs`), `analyze_full_file` (`CheckMore`), `test_load_pairs`
  (`TestParsing`), `check_pairs_format` (`DebugLabels`),
  `check_first_100.py` (`CheckFirst100`), `verify_calfw_labels.py`
  (`VerifyCalfwLabels`) and `debug_calfw_format.py` (`DebugCalfwFormat`).
- **The Python built-ins** these rely on (`Py`): `str.isspace`, `strip`,
  `split`, `split(sep)`, `join`, `endswith`, `int()` on strings,
  `format(n, "04d")`, slicing with a possibly negative bound, and a
  POSIX `os.path.join`. Each covers the inputs these scripts can give it;
  the limits of that are listed under "Left out".

Python exceptions become the `Err` side of a `Result`. `int()` raises
`ValueError`, and an index past the end of a list raises `IndexError`.
HTTP errors are `HttpError(status, detail)`. Scores are `real`.

Some inputs are parameters of the model rather than computed values:
- file existence (`fileExists`);
- the remote scoring call (`score`);
- image decoding (`decode`);
- the face detector (`model`);
- the cosine computation (`cosine`);
- the ROC-optimal threshold (`optimalThreshold`).

Two points of the service follow the code, where a quick reading suggests
otherwise:
- `verify_faces` decodes both images before `calculate_similarity`
  checks whether a model is loaded. An undecodable image is therefore
  reported as 400 even when no model is loaded.
- `calculate_similarity` runs the detector on both images before looking
  at either face count. A detector failure on image 2 is therefore
  reported as 500 even when image 1 has no face.

## Model

| member | source | states |
|---|---|---|
| Py.Strip | evaluation/evaluate_all.py:24 | `strip()` is empty exactly for a blank line; otherwise it starts and ends with a non-whitespace character; it is never longer than the line |
| Py.StripTrimmed | evaluation/evaluate_all.py:24 | a line with no whitespace at either end is its own strip |
| Py.StripPadded | evaluation/evaluate_lfw.py:23 | `strip()` removes exactly the trailing whitespace (line ending) appended to a trimmed text |
| Py.SplitTokens | evaluation/evaluate_all.py:31 | every token of `split()` is non-empty and free of whitespace |
| Py.Split | evaluation/evaluate_all.py:31 | `split()` never gives more tokens than the string has characters |
| Py.SplitBlank | evaluation/evaluate_all.py:31 | `split()` yields no token exactly when the string is blank |
| Py.SplitStrip | evaluation/evaluate_all.py:24-31 | splitting a stripped line gives the same tokens as splitting the raw line |
| Py.SplitTrailingSpaces | evaluation/evaluate_all.py:31 | trailing whitespace never changes the tokens |
| Py.SplitJoinRoundTrip | evaluation/evaluate_all.py:31 | joining whitespace-free words with single spaces and splitting again gives the words back |
| Py.SplitOn | evaluation/verify_calfw_labels.py:14 | `split('_')` gives one more piece than there are separators, and no piece contains the separator |
| Py.JoinSplitOn | evaluation/verify_calfw_labels.py:27 | joining the pieces of `split(sep)` with `sep` gives the string back |
| Py.Join | evaluation/verify_calfw_labels.py:27 | `sep.join(parts)` starts with the first part |
| Py.SplitOnJoin | evaluation/evaluate_lfw.py:23 | splitting a join of separator-free pieces on the separator gives the pieces back |
| Py.ParseDigits | evaluation/evaluate_all.py:34 | the digit part of `int()` succeeds exactly for well-formed digits (single underscores between digits) |
| Py.ParseInt | evaluation/evaluate_all.py:34 | `int()` on a string fails only with ValueError, and always fails on a string holding one of the separator controls U+001C to U+001F, which `str.isspace()` accepts but `int()` does not skip |
| Py.SeparatorNotSkipped | evaluation/evaluate_lfw.py:29-31 | U+001C is whitespace to `strip()`, yet `int("\x1c5")` raises ValueError |
| Py.ParseIntUnsigned | evaluation/evaluate_all.py:34 | `int()` of a well-formed digit string is its decimal value |
| Py.ParseIntNegative | evaluation/evaluate_all.py:34 | `int()` of a minus sign and well-formed digits is the negated value |
| Py.NatDigits | evaluation/evaluate_lfw.py:48 | a number is written as decimal digits whose value is the number |
| Py.FormatZeroPadded | evaluation/evaluate_lfw.py:48 | `f"{n:0Wd}"` is at least W long, and exactly W long unless the sign and digits need more |
| Py.ParseIntFormatRoundTrip | evaluation/evaluate_lfw.py:29-48 | `int()` reads back every zero-padded rendering of an integer, negative ones included, at any width |
| Py.FourDigitWidth | evaluation/evaluate_lfw.py:48 | `f"{n:04d}"` is exactly four digits for 0 <= n <= 9999 |
| Py.NatDigitsLength | evaluation/evaluate_lfw.py:48 | a number below 10^k has at most k digits |
| Py.Take | evaluation/evaluate_all.py:107 | `xs[:n]` is a prefix of length min(n, len) for n >= 0, and drops -n items from the end for a negative n |
| Py.DropFirst | evaluation/evaluate_lfw.py:20 | `xs[1:]` is the list without its first item, and empty for an empty list |
| Py.StepPairs | evaluation/evaluate_all.py:42-47 | `for i in range(start, stop, 2)` visits ceil((stop - start)/2) pairs, pair k being items start+2k and start+2k+1 |
| Py.AdjacentPairsCount | evaluation/test_parsing.py:27 | `range(0, len - 1, 2)` visits floor(len/2) pairs, and `range(0, min(2c, len - 1), 2)` visits min(c, floor(len/2)) |
| Py.Sequence | evaluation/check_first_100.py:6-9 | a loop of reads that may raise yields one value per read when it completes |
| Py.SequenceOk | evaluation/check_first_100.py:6-9 | the loop completes exactly when every read succeeds, and its values are the reads' values in order |
| Py.SequenceErr | evaluation/check_first_100.py:6-9 | a loop that raises raises the error of a read whose predecessors all succeeded |
| Py.SequenceFirstError | evaluation/check_first_100.py:6-9 | once a prefix of the loop raises, the whole loop raises the same error |
| Py.SequencePrefix | evaluation/check_first_100.py:6-9 | when the loop completes, each prefix completes with the first values |
| Py.SequenceStep | evaluation/check_first_100.py:6-9 | one more read either raises its own error or appends its value |
| Py.PathJoin | evaluation/evaluate_all.py:124-125 | `os.path.join(a, b)` ends with b, and is b alone when b is absolute |
| Py.PathJoinShape | evaluation/evaluate_all.py:124-125 | for a relative b, what precedes b in `os.path.join(a, b)` is a, or a followed by one '/' |
| Py.EndsWithSplit | evaluation/verify_calfw_labels.py:23 | a string ending with a suffix is its remaining prefix followed by the suffix |
| Py.EndsWithConcat | evaluation/verify_calfw_labels.py:23 | any text followed by a suffix ends with that suffix |
| PairFile.CleanLine | evaluation/evaluate_all.py:24 | a raw line contributes nothing exactly when it is blank, and otherwise its strip, a clean line |
| PairFile.CleanLines | evaluation/evaluate_all.py:24 | the cleaned file has no more lines than the raw one, and every kept line is non-empty with no whitespace at either end |
| PairFile.CleanLinesOne | evaluation/evaluate_all.py:24 | cleaning a single line keeps its strip, or drops it when blank |
| PairFile.CleanLinesAppend | evaluation/evaluate_all.py:24 | cleaning works line by line and keeps file order |
| PairFile.CleanLinesIdempotent | evaluation/evaluate_all.py:24 | cleaning cleaned lines changes nothing |
| PairFile.CleanLineHasToken | evaluation/verify_calfw_labels.py:26 | a clean line has a first token, so `line.split()[0]` cannot raise |
| PairFile.ParseLine | evaluation/evaluate_all.py:31-34 | a row is skipped exactly when it has fewer than two tokens; otherwise it is read exactly when its second token parses, as (first token, label), and fails with ValueError otherwise |
| PairFile.ParseLineIgnoresExtraTokens | evaluation/evaluate_all.py:31-34 | tokens after the second never change how a row is read |
| PairFile.ParseLineRoundTrip | evaluation/evaluate_all.py:31-34 | a sample written as `image label` reads back as itself |
| PairFile.ParseSamples | evaluation/evaluate_all.py:30-34 | reading the rows fails only with ValueError and yields at most one sample per line |
| PairFile.ParseSamplesOk | evaluation/evaluate_all.py:30-34 | the rows read exactly when every row is skipped or has an integer label |
| PairFile.ParseSamplesAllRows | evaluation/check_all_pairs.py:7-12 | when every line holds a row, sample k is line k's first token and line k's label |
| PairFile.ParseSamplesHead | evaluation/check_all_pairs.py:7-12 | a first line holding a row gives the first sample, followed by the samples of the rest |
| PairFile.ParseSamplesAppend | evaluation/evaluate_all.py:30-34 | reading a file reads its parts in order, and fails exactly when a part fails |
| PairFile.SplitByLabel | evaluation/evaluate_all.py:36-39 | every sample lands in exactly one group, and each positive image comes from a sample labelled exactly 1 |
| PairFile.SplitByLabelAppend | evaluation/evaluate_all.py:36-39 | the split is stable: it splits the parts of a file and concatenates them in order |
| PairFile.SplitByLabelOne | evaluation/evaluate_all.py:36-39 | a sample labelled 1 goes to the positives, and any other label to the negatives |
| PairFile.PairUp | evaluation/test_parsing.py:27-32 | the pairs of `range(0, stop, 2)` over a group are items 2k and 2k+1, all with the given label |
| PairFile.GroupPairs | evaluation/evaluate_all.py:42-55 | a group of n items gives floor(n/2) pairs, pair k being items 2k and 2k+1 |
| PairFile.CappedGroupPairs | evaluation/test_parsing.py:27-40 | the capped pairing is the first min(5, floor(n/2)) pairs of the uncapped one |
| PairFile.Flatten | evaluation/evaluate_all.py:42-47 | unpairing gives two images per pair |
| PairFile.GroupPairsUnpair | evaluation/evaluate_all.py:42-47 | unpairing the consecutive pairs gives the group back, minus an odd last item |
| PairFile.ReadLabel | evaluation/check_more.py:13-17 | an unguarded `int(line.split()[1])` raises IndexError exactly for a line of fewer than two tokens, and otherwise is `int()` of the second token |
| PairFile.ReadLabelAgreesWithParseLine | evaluation/check_more.py:13-17 | the unguarded read raises IndexError exactly on the lines the loaders skip; otherwise both reads see the same label or both raise ValueError |
| PairFile.LinePairs | evaluation/check_more.py:12-14 | the loop over lines visits floor(n/2) pairs, pair k being lines 2k and 2k+1 |
| PairFile.Both | evaluation/check_more.py:16-17 | the two reads of an iteration yield both labels, or else the error of the first read that fails, line 2k first |
| PairFile.PairReads | evaluation/check_more.py:12-17 | one label read per pair of lines |
| PairFile.PairReadsPrefix | evaluation/check_more.py:12-17 | the reads of a prefix of the pairs are the prefix of the reads |
| PairFile.ReadPairLabels | evaluation/check_more.py:12-17 | a completed loop of label reads yields one label pair per line pair |
| PairFile.ReadPairLabelsOk | evaluation/check_more.py:12-17 | the loop completes exactly when every label read succeeds, and then gives each pair's two labels in order |
| PairFile.ReadPairLabelsFirstError | evaluation/check_more.py:12-17 | once the first k pairs raise, the whole loop raises the same error |
| PairFile.ReadPairLabelsPrefix | evaluation/check_more.py:12-17 | when the loop completes, each prefix completes with the first label pairs |
| PairFile.ReadPairLabelsStep | evaluation/check_more.py:12-17 | one more iteration raises the first line's error, else the second line's, else appends both labels |
| PairFile.CountEqual | evaluation/check_more.py:19-22 | the number of equal label pairs never exceeds the number of pairs |
| PairFile.CountEqualStep | evaluation/check_more.py:19-22 | one more pair adds one to the count exactly when its two labels are equal |
| EvaluateAll.PairsOf | evaluation/evaluate_all.py:41-57 | every loaded pair is labelled 0 or 1 |
| EvaluateAll.LoadPairs | evaluation/evaluate_all.py:16-57 | `load_pairs` fails exactly when a row's label is not an integer, with ValueError, and otherwise pairs the rows it read |
| EvaluateAll.PairsOfShape | evaluation/evaluate_all.py:41-57 | there are floor(P/2) + floor(N/2) pairs: pair k < floor(P/2) is positives 2k and 2k+1 labelled 1, then pair floor(P/2)+j is negatives 2j and 2j+1 labelled 0 |
| EvaluateAll.GroupPairsConcat | evaluation/evaluate_all.py:41-57 | the positive pairing followed by the negative pairing has that shape, whatever the two groups are |
| EvaluateAll.ShortLineNoSamples | evaluation/evaluate_all.py:24-32 | a blank line, or a line of one token, yields no sample |
| EvaluateAll.LoadPairsIgnoresShortLine | evaluation/evaluate_all.py:24-32 | inserting a line of fewer than two tokens anywhere in the file never changes what is loaded |
| EvaluateAll.WithLabel | evaluation/evaluate_all.py:103-104 | the filter keeps only pairs with the wanted label, each taken from the list, never more than the list |
| EvaluateAll.WithLabelAppend | evaluation/evaluate_all.py:103-104 | filtering works piece by piece and keeps the order |
| EvaluateAll.WithLabelAll | evaluation/evaluate_all.py:103-104 | filtering a list whose pairs all carry the label keeps all of it |
| EvaluateAll.WithLabelNone | evaluation/evaluate_all.py:103-104 | filtering a list where no pair carries the label keeps nothing |
| EvaluateAll.WithLabelPartition | evaluation/evaluate_all.py:103-104 | on 0/1 labels, the same-person and different-person lists together are as long as the whole |
| EvaluateAll.Truthy | evaluation/evaluate_all.py:101 | Python truthiness of `max_pairs`: false for None and for 0, true for any other number; no own contract, its effect is stated by Balance and EvaluateLfw.Truncate |
| EvaluateAll.Balance | evaluation/evaluate_all.py:101-107 | when `max_pairs` is None or 0 the list is unchanged; a positive `max_pairs` gives at most `max_pairs` pairs; every kept pair comes from the list |
| EvaluateAll.BalanceCounts | evaluation/evaluate_all.py:101-107 | for a positive `max_pairs` the balanced list's same-person pairs are the first min(h, S) of the original, in order, and likewise for the different-person pairs (h = max_pairs // 2) |
| EvaluateAll.BalanceSameFirst | evaluation/evaluate_all.py:101-107 | for a positive `max_pairs` the balanced list holds all its same-person pairs first, then all its different-person pairs |
| EvaluateAll.PairsOfLabels | evaluation/evaluate_all.py:41-57 | the same-person pairs of a loaded list are those built from the positives, and the different-person pairs those from the negatives |
| EvaluateAll.Normalise | evaluation/evaluate_all.py:143 | the normalised score times 100 is the service's score |
| EvaluateAll.Attempt | evaluation/evaluate_all.py:124-145 | a pair is scored exactly when both image files exist and the service answers, and the stored score is the answer divided by 100 |
| EvaluateAll.Scored | evaluation/evaluate_all.py:122-145 | the evaluated labels and scores are equally many, never more than the pairs |
| EvaluateAll.ScoredLabels | evaluation/evaluate_all.py:142 | every evaluated label is a pair's 0/1 label |
| EvaluateAll.ScoredAll | evaluation/evaluate_all.py:122-145 | when every file exists and the service always answers, every pair is evaluated, with its own label, in order |
| EvaluateAll.ScoredNoFiles | evaluation/evaluate_all.py:128-131 | when no image file exists, nothing is evaluated |
| EvaluateAll.CollectScores | evaluation/evaluate_all.py:117-145 | the loop builds the labels and scores of the scored pairs, and every pair is evaluated or counted as failed exactly once: `len(y_true) + failed == len(pairs)` |
| EvaluateAll.PredictAtLeast | evaluation/evaluate_all.py:156-160 | each prediction is 0 or 1, and is 1 exactly when the score is at least the threshold |
| EvaluateAll.PredictAtLeastMonotone | evaluation/evaluate_all.py:156-160 | raising the threshold never adds a predicted positive |
| EvaluateAll.CountWhere | evaluation/evaluate_all.py:180-183 | one cell's count never exceeds either list's length, `zip` stopping at the shorter |
| EvaluateAll.CellsBound | evaluation/evaluate_all.py:180-183 | a sample falls in at most one cell, so the four cells together count at most the zipped length |
| EvaluateAll.ConfusionOf | evaluation/evaluate_all.py:180-183 | the four cells never count more samples than the shorter list holds |
| EvaluateAll.ConfusionOfOne | evaluation/evaluate_all.py:180-183 | a single sample counts once, in the cell of its (label, prediction): tp for (1, 1), fp for (0, 1), tn for (0, 0), fn for (1, 0), and in none otherwise |
| EvaluateAll.CountWhereAppend | evaluation/evaluate_all.py:180-183 | a cell's count over two zipped pieces of equal length is the sum of the pieces' counts |
| EvaluateAll.ConfusionOfAppend | evaluation/evaluate_all.py:180-183 | the matrix of two zipped pieces of equal length is the cellwise sum of theirs; with ConfusionOfOne this fixes every cell as the number of samples with its (label, prediction) |
| EvaluateAll.ConfusionTotals | evaluation/evaluate_all.py:180-183 | on 0/1 lists of equal length, tp+fp+tn+fn is the number of samples, tp+fn the label-1 count, fp+tn the label-0 count and tp+fp the predicted positives |
| EvaluateAll.CountOf | evaluation/check_first_100.py:11-12 | `labels.count(v)` never exceeds the number of labels, and is 0 exactly when v does not occur |
| EvaluateAll.Rate | evaluation/evaluate_all.py:185-186 | TAR and FAR are 0 when their denominator is 0; otherwise rate × denominator = numerator, and the rate lies in [0, 1] |
| EvaluateAll.Tar | evaluation/evaluate_all.py:185 | TAR lies in [0, 1], is 0 when there are no label-1 samples, and otherwise TAR × (tp + fn) = tp |
| EvaluateAll.Far | evaluation/evaluate_all.py:186 | FAR lies in [0, 1], is 0 when there are no label-0 samples, and otherwise FAR × (fp + tn) = fp |
| EvaluateAll.MetricsAt | evaluation/evaluate_all.py:180-217 | the counts are the confusion matrix of the labels against the inclusive predictions at the threshold; they cover every evaluated sample and tp+fn is the label-1 count; the reported TAR and FAR are 100 × the rates of those counts, in [0, 100] |
| EvaluateAll.EvaluateDataset | evaluation/evaluate_all.py:90-223 | fails exactly when loading fails, with ValueError; is None exactly when no pair was evaluated; otherwise total = evaluated + failed, and the two metric blocks are the inclusive counts, TAR and FAR of the evaluated labels and scores at 0.65 (reported as 65) and at the supplied optimal threshold (reported ×100), TAR and FAR in percent |
| EvaluateLfw.RowOf | evaluation/evaluate_lfw.py:29-31 | a row reads exactly when both image numbers parse, and fails with ValueError otherwise |
| EvaluateLfw.Fields | evaluation/evaluate_lfw.py:23 | `line.strip().split('\t')`; no own contract, its fields are stated by FieldsRejoin, ReadFields and ParseRow |
| EvaluateLfw.FieldsRejoin | evaluation/evaluate_lfw.py:23 | a row has at least one field, none holding a tab, and the fields joined with tabs give the stripped line back |
| EvaluateLfw.ParseRow | evaluation/evaluate_lfw.py:23-42 | a row is skipped exactly when it has neither 3 nor 4 tab fields; 3 fields give label 1 with one person twice, 4 fields give label 0 with two persons; a non-integer number raises ValueError |
| EvaluateLfw.ParseRowRoundTrip | evaluation/evaluate_lfw.py:23-42 | the row written for a pair, with any line ending, reads back as that pair |
| EvaluateLfw.ReadFields | evaluation/evaluate_lfw.py:23 | tab-joined fields, with a line ending, strip and split back into themselves |
| EvaluateLfw.ParseRows | evaluation/evaluate_lfw.py:22-42 | the rows read exactly when no kept row has a non-integer number, fail with ValueError otherwise, and give at most one 0/1-labelled pair per row |
| EvaluateLfw.ParseRowsAppend | evaluation/evaluate_lfw.py:22-42 | the rows of two pieces of a file read exactly when both pieces do, and give the first piece's pairs followed by the second's |
| EvaluateLfw.ParseRowsOne | evaluation/evaluate_lfw.py:22-42 | a single row gives no pairs when it is skipped, ValueError when a number does not read, and otherwise exactly its own pair; with ParseRowsAppend this fixes the pairs of any file, in file order |
| EvaluateLfw.LoadLfwPairs | evaluation/evaluate_lfw.py:15-44 | a file of at most one line gives no pairs; otherwise the file loads exactly when every row after the header is skipped or reads, fails only with ValueError, and gives fewer pairs than lines |
| EvaluateLfw.LoadLfwHeaderIgnored | evaluation/evaluate_lfw.py:20 | the first line is discarded whatever it holds, and the pairs are those of the remaining rows |
| EvaluateLfw.ImageName | evaluation/evaluate_lfw.py:48 | `f"{person}_{idx:04d}.jpg"`; no own contract, its format is stated by ImageNameShape |
| EvaluateLfw.ImageNameShape | evaluation/evaluate_lfw.py:48 | the file name starts with the person and an underscore, ends with `.jpg`, and between them holds at least four characters that `int()` reads back as the image number |
| EvaluateLfw.ImagePath | evaluation/evaluate_lfw.py:46-50 | the image path always ends with `person_NNNN.jpg` |
| EvaluateLfw.ImagePathShape | evaluation/evaluate_lfw.py:46-50 | for a slash-free person under a directory without a trailing slash the path is `dir/person/person_NNNN.jpg`, NNNN at least four characters and read back by `int()` |
| EvaluateLfw.PersonDirectory | evaluation/evaluate_lfw.py:49 | the person's directory is the dataset directory, a '/', and the name |
| EvaluateLfw.ImageNumberWidth | evaluation/evaluate_lfw.py:48 | an image number from 0 to 9999 is written with exactly four digits |
| EvaluateLfw.Truncate | evaluation/evaluate_lfw.py:79-80 | the kept pairs are a prefix; a truthy positive `max_pairs` keeps exactly min(max_pairs, len) pairs; None or 0 keeps all |
| EvaluateLfw.LfwAttempt | evaluation/evaluate_lfw.py:89-98 | a pair is scored only when both image paths exist, and then its score is the service's answer |
| EvaluateLfw.LfwScored | evaluation/evaluate_lfw.py:88-103 | `y_true`, `y_scores` and `y_pred` always have equal length, at most the number of pairs |
| EvaluateLfw.Record | evaluation/evaluate_lfw.py:100-103 | a skipped pair leaves the three lists as they were; a scored pair makes each one entry longer |
| EvaluateLfw.RecordAppends | evaluation/evaluate_lfw.py:100-103 | a scored pair keeps every earlier entry and appends its label, and its score divided by 100 |
| EvaluateLfw.RecordKeepsStrict | evaluation/evaluate_lfw.py:100-103 | recording a scored pair keeps every prediction strict |
| EvaluateLfw.LfwPredictionsStrict | evaluation/evaluate_lfw.py:103 | every prediction is 0 or 1, and is 1 exactly when the normalised score is strictly above 0.65 |
| EvaluateLfw.NormalisedStrict | evaluation/evaluate_lfw.py:102-103 | `score > 65.0` on the percentage scale is `score / 100 > 0.65` on the normalised scale |
| EvaluateLfw.StrictVersusInclusive | evaluation/evaluate_lfw.py:103 | the LFW predictions and the inclusive predictions at 0.65 differ exactly on a score of 0.65 |
| EvaluateLfw.Evaluate | evaluation/evaluate_lfw.py:74-103 | fails exactly when loading fails, with ValueError; otherwise reports the truncated pair count and the scoring loop's lists, never more evaluated pairs than total pairs |
| EvaluateLfw.ScorePairs | evaluation/evaluate_lfw.py:88-103 | the loop skips pairs with a missing image or failed request and records the others in order |
| Server.Rescale | server.py:81 | the percentage determines the cosine: c = p/50 - 1 |
| Server.RescaleRange | server.py:81 | a cosine in [-1, 1] becomes a percentage in [0, 100], with -1, 0 and 1 going to 0, 50 and 100 |
| Server.RescaleOnto | server.py:81 | every percentage in [0, 100] is the rescale of a cosine in [-1, 1] |
| Server.RescaleMonotone | server.py:81 | a higher cosine gives a strictly higher percentage |
| Server.Preprocess | server.py:41-54 | decoding fails exactly when the decoder fails, with 400 and "Image processing error: " before the message |
| Server.CalculateSimilarity | server.py:56-88 | no model gives 500 "Face model not loaded"; there is a result exactly when a model is loaded, both detections succeed with a face each and the cosine of the first faces succeeds, and it is that cosine rescaled; every error is 400 or 500 |
| Server.ConfidenceOf | server.py:121-126 | high exactly above 75, medium exactly in (60, 75], low exactly at 60 or below |
| Server.MakeVerdict | server.py:119-134 | same person exactly above 65; the confidence is the score's band; model "InsightFace ArcFace" and status "success" |
| Server.VerdictConsistent | server.py:119-126 | a same-person verdict never has low confidence, and high confidence always means same person |
| Server.ThresholdIsStrict | server.py:119 | a score of exactly 65 is not the same person, with medium confidence |
| Server.VerifyFaces | server.py:99-139 | succeeds exactly when both images decode and the similarity succeeds, and then answers the verdict of that similarity; with both images decoded, an error is the similarity's error; every error is 400 or 500 |
| Server.VerifyFacesSuccess | server.py:99-134 | two decodable images with a face each and a working cosine get the verdict of the rescaled cosine of their first faces |
| Server.DecodeErrorsFirst | server.py:112-113 | an undecodable image 1, then image 2, is reported as 400 before any model or face check |
| Server.ModelCheckedBeforeDetection | server.py:58-59 | with both images decoded and no model, the response is 500 "Face model not loaded" |
| Server.NoFaceImage1First | server.py:66-69 | when image 1 has no face, the 400 names image 1, whatever image 2 holds |
| Server.DetectorFailureBeforeFaceCount | server.py:63-69 | a detector failure on image 2 is reported as 500 even when image 1 has no face |
| Server.FirstFaceOnly | server.py:72-73 | detectors that agree on the first face of each image give the same answer |
| Server.ScoreSymmetric | server.py:72-81 | with a symmetric cosine, swapping two images that both show a face gives the same score |
| CheckAllPairs.PairByEquality | evaluation/check_all_pairs.py:16-26 | floor(S/2) pairs of consecutive samples 2k and 2k+1, labelled 1 exactly when their labels are equal |
| CheckAllPairs.FirstDifferent | evaluation/check_all_pairs.py:37-42 | the reported index is the lowest pair labelled 0, and there is none exactly when no pair is labelled 0 |
| CheckAllPairs.CheckPairs | evaluation/check_all_pairs.py:1-42 | fails exactly when a label is not an integer, with ValueError; same and diff count the pairs labelled 1 and 0 and sum to the number of pairs; a first different pair exists exactly when diff > 0, and is the lowest index of a pair labelled 0 |
| CheckAllPairs.WithLabelMember | evaluation/check_all_pairs.py:37-42 | a pair labelled 0 at any index makes the different-pair count positive |
| CheckAllPairs.CountEqualIsSame | evaluation/check_all_pairs.py:20-29 | counting equal label pairs counts the pairs marked same |
| CheckAllPairs.RowsPairAlike | evaluation/check_all_pairs.py:16-29 | on lines that all hold rows, pairing samples and pairing lines read the same labels and count the same number of same-label pairs |
| CheckAllPairs.SameCountAgreesWithLineCount | evaluation/check_all_pairs.py:16-29 | on files where every line holds a row, `check_pairs` and `analyze_full_file` both succeed and report the same same-person count |
| CheckAllPairs.AllPositiveAgreesWithLoader | evaluation/check_all_pairs.py:16-26 | with every label 1, pairing samples as they stand gives exactly the loader's pairs |
| CheckAllPairs.SplitByLabelAllPositive | evaluation/evaluate_all.py:36-39 | with every label 1 the positives are all images in order and there are no negatives |
| CheckMore.Window | evaluation/check_more.py:29-30 | the shown lines are lines 6000 to min(6010, n) - 1, in order, and none when n <= 6000 |
| CheckMore.ReadPair | evaluation/check_more.py:13-17 | one iteration reads line 2k's label, then line 2k+1's, and the first failure is what the whole loop raises |
| CheckMore.CountLabelPairs | evaluation/check_more.py:9-22 | the loop fails exactly when a label read fails, with that error; it counts the equal-label pairs as same, and same + diff == n // 2 |
| CheckMore.AnalyzeFullFile | evaluation/check_more.py:1-30 | reports n lines and n // 2 pairs, the same count of the label reads, same + diff == n // 2, and the window, or the first read error |
| TestParsing.CappedLabels | evaluation/test_parsing.py:26-49 | the label-1 pairs of the capped list are exactly the capped positive pairs, and the label-0 pairs are the capped negative pairs |
| TestParsing.TestLoadPairs | evaluation/test_parsing.py:1-49 | fails exactly when a label is not an integer; the pairs are the first min(5, floor(P/2)) pairs of the positives, then the first min(5, floor(N/2)) pairs of the negatives; label_1 + label_0 == len(pairs); the preview is the first min(10, len) pairs |
| TestParsing.TestLoadPairsIsBalancedLoad | evaluation/test_parsing.py:9-40 | the test script builds exactly what the evaluator's loader followed by `max_pairs = 10` balancing builds |
| DebugLabels.PreviewPairs | evaluation/debug_labels.py:12-14 | min(5, floor(n/2)) pairs, pair k being lines 2k and 2k+1 |
| DebugLabels.PreviewPairsPrefix | evaluation/debug_labels.py:12 | the previewed pairs are the first pairs of the whole-file loop |
| DebugLabels.CheckPairsFormat | evaluation/debug_labels.py:1-24 | fails exactly when a previewed label read fails, with that error; reports n lines, the first min(10, n) lines, and min(5, floor(n/2)) pairs |
| DebugLabels.Labelled | evaluation/debug_labels.py:16-19 | pair k holds the first token and the label of each of its two lines, and is same (1) exactly when the labels agree and different (0) otherwise |
| DebugLabels.CheckPairsFormatPairs | evaluation/debug_labels.py:12-19 | pair k holds the first token and label of lines 2k and 2k+1, and is same exactly when the labels agree |
| DebugLabels.AgreesWithFullRead | evaluation/debug_labels.py:12-17 | when `analyze_full_file`'s reads succeed, this script's do too and see its first labels |
| CheckFirst100.LineReads | evaluation/check_first_100.py:6-8 | one read per sampled index, in order: a line that exists is read, an index past the end raises IndexError |
| CheckFirst100.LineRead | evaluation/check_first_100.py:7-8 | a line past the end raises IndexError, and any other line is read unguarded |
| CheckFirst100.ReadLabels | evaluation/check_first_100.py:6-9 | a completed loop gives one label per sampled line |
| CheckFirst100.ReadLabelsOk | evaluation/check_first_100.py:6-9 | the loop completes exactly when the file has every sampled line and each label reads, and then gives those labels in order |
| CheckFirst100.ShortFileRaisesIndexError | evaluation/check_first_100.py:6-7 | a file shorter than the sample whose lines all read raises IndexError |
| CheckFirst100.BinaryCounts | evaluation/check_first_100.py:11-12 | `count(1) + count(0)` never exceeds the number of labels, with equality exactly when every label is 0 or 1 |
| CheckFirst100.Survey | evaluation/check_first_100.py:5-25 | succeeds exactly when the sampled reads do, with their error otherwise; ones and zeros are `count(1)` and `count(0)` of the labels read, ones + zeros <= count; one comparison per pair, SAME exactly when the labels are equal |
| CheckFirst100.SurveyCounts | evaluation/check_first_100.py:6-12 | the file has every sampled line; the two counts cover all of them exactly when each label reads as 0 or 1; there are no ones exactly when no sampled label reads as 1, and no zeros exactly when none reads as 0 |
| CheckFirst100.SurveyComparisons | evaluation/check_first_100.py:16-23 | comparison k holds the labels of lines 2k and 2k+1 |
| CheckFirst100.FirstHundred | evaluation/check_first_100.py:1-25 | succeeds exactly when the first 100 cleaned lines all read, raising the first failing read's error otherwise; success needs at least 100 lines and gives ones = `count(1)` and zeros = `count(0)` of those labels, ones + zeros <= 100, and exactly 10 comparisons |
| VerifyCalfwLabels.NameOf | evaluation/verify_calfw_labels.py:14-15 | indexing the pieces raises IndexError exactly when the file name has no '_'; otherwise the name holds exactly one '_' |
| VerifyCalfwLabels.JoinedName | evaluation/verify_calfw_labels.py:27 | the joined name never raises, is a prefix of the file name with at most one '_', and is the whole file name when that has at most one '_' |
| VerifyCalfwLabels.JoinTwo | evaluation/verify_calfw_labels.py:27 | joining the first two pieces puts one '_' between them |
| VerifyCalfwLabels.FirstTwoPrefix | evaluation/verify_calfw_labels.py:14-15 | the first two pieces with their '_' are how the file name starts |
| VerifyCalfwLabels.FirstTwoCount | evaluation/verify_calfw_labels.py:14-15 | two '_'-free pieces joined by '_' hold exactly one '_' |
| VerifyCalfwLabels.NamesAgree | evaluation/verify_calfw_labels.py:14-27 | where the indexing form succeeds, it agrees with the joining form |
| VerifyCalfwLabels.NameOfFileName | evaluation/verify_calfw_labels.py:14-15 | `First_Last_rest` names `First_Last`, both ways |
| VerifyCalfwLabels.SameName | evaluation/verify_calfw_labels.py:14-16 | the comparison succeeds exactly when both names have a '_', and reports SAME exactly when the names are equal |
| VerifyCalfwLabels.SamePersonSameName | evaluation/verify_calfw_labels.py:14-16 | two files `First_Last_*` of one person compare as SAME |
| VerifyCalfwLabels.LabelOneExamplesSame | evaluation/verify_calfw_labels.py:7-16 | all three hard-coded label-1 pairs report SAME |
| VerifyCalfwLabels.CarlReiner | evaluation/verify_calfw_labels.py:8-16 | `Carl_Reiner_0001.jpg` and `Carl_Reiner_0003.jpg` report SAME |
| VerifyCalfwLabels.BernardLaw | evaluation/verify_calfw_labels.py:9-16 | `Bernard_Law_0001.jpg` and `Bernard_Law_0004.jpg` report SAME |
| VerifyCalfwLabels.IanSmith | evaluation/verify_calfw_labels.py:10-16 | `Ian_Smith_0001.jpg` and `Ian_Smith_0004.jpg` report SAME |
| VerifyCalfwLabels.EndingInZero | evaluation/verify_calfw_labels.py:23 | keeps exactly the lines ending in " 0", each from the file, no more than the file has |
| VerifyCalfwLabels.EndingInZeroAppend | evaluation/verify_calfw_labels.py:23 | the filter works piece by piece and keeps file order |
| VerifyCalfwLabels.EndingInZeroOne | evaluation/verify_calfw_labels.py:23 | a single line is kept exactly when it ends in " 0" |
| VerifyCalfwLabels.ZeroRowSelected | evaluation/verify_calfw_labels.py:23 | a row `image 0` is selected and its label reads as 0 |
| VerifyCalfwLabels.FilterIsTextual | evaluation/verify_calfw_labels.py:23 | the filter looks at the text: `a.jpg 1 0` is selected although its label reads as 1 |
| VerifyCalfwLabels.LabelZeroNames | evaluation/verify_calfw_labels.py:20-28 | the first min(3, m) lines ending in " 0", each with its first token and the name joined from it |
| DebugCalfwFormat.ShowRow | evaluation/debug_calfw_format.py:6-9 | a row shows exactly when the line exists and has two tokens, else IndexError; it keeps the raw label text and the joined name |
| DebugCalfwFormat.RowsFrom | evaluation/debug_calfw_format.py:5-9 | a completed run of rows has one row per line |
| DebugCalfwFormat.RowsFromOk | evaluation/debug_calfw_format.py:5-9 | a run of rows shows exactly when each line exists with two tokens, fails only with IndexError, and shows the rows in order |
| DebugCalfwFormat.FirstRows | evaluation/debug_calfw_format.py:5-9 | the first loop, `for i in range(20)` without a bound check; no own contract, its outcome is stated by FirstRowsOk |
| DebugCalfwFormat.RowsFromShort | evaluation/debug_calfw_format.py:5-6 | rows that run past the end of the file raise IndexError |
| DebugCalfwFormat.FirstRowsOk | evaluation/debug_calfw_format.py:5-9 | the first loop completes exactly when each of its lines exists with two tokens, and shows rows 0 to count-1 |
| DebugCalfwFormat.WindowSize | evaluation/debug_calfw_format.py:14-15 | the window visits the indices from lo below both hi and the file length, and none when lo is past either |
| DebugCalfwFormat.WindowRows | evaluation/debug_calfw_format.py:14-19 | the window loop, `for i in range(5998, 6020): if i < len(lines)`; no own contract, its outcome is stated by WindowRowsOk |
| DebugCalfwFormat.WindowRowsOk | evaluation/debug_calfw_format.py:14-19 | the window shows exactly when each existing line in it has two tokens, and then shows those rows in order |
| DebugCalfwFormat.ShowLines | evaluation/debug_calfw_format.py:4-20 | a completed script shows twenty rows and one row per existing window line |
| DebugCalfwFormat.ShowLinesSteps | evaluation/debug_calfw_format.py:4-20 | the script raises the first loop's error, else the window's, else shows both |
| DebugCalfwFormat.ShowLinesOk | evaluation/debug_calfw_format.py:5-19 | the script completes exactly when the lines are `Showable`: the first twenty lines exist with two tokens and every existing window line has two tokens; it fails only with IndexError |
| DebugCalfwFormat.ShowLinesRows | evaluation/debug_calfw_format.py:5-19 | a completed script shows rows 0 to 19, then rows 5998 onwards that the file has, each from its own line |
| DebugCalfwFormat.RowKeepsLabelText | evaluation/debug_calfw_format.py:8 | a non-integer label is shown as written and never raises |
| DebugCalfwFormat.DebugFormat | evaluation/debug_calfw_format.py:1-20 | the script on a file's raw lines completes exactly when each of the first twenty cleaned lines exists with two tokens and each existing cleaned window line has two; it then shows twenty rows, and otherwise raises IndexError |
| DebugCalfwFormat.ShortFileFails | evaluation/debug_calfw_format.py:5-6 | a file of fewer than twenty lines always fails with IndexError |

## Left out

- HTTP plumbing: the FastAPI app, CORS, uvicorn, `read_root`, `health_check`, and the `requests` calls of the evaluators. These are I/O. The service's answer is a parameter that gives a score or nothing.
- InsightFace model loading (`load_face_model`), face detection and embeddings. These are a foreign library, so the detector is a parameter and a face is its embedding.
- Image decoding with PIL and cv2. This is a foreign library, so the decoder is a parameter.
- The floating-point cosine (`np.dot`, `np.linalg.norm`). It is foreign numerics, so the cosine is a parameter returning a real or an error message.
- Server.CalculateSimilarity: the score is not rounded by `round(x, 2)`. Floats are modelled as exact reals, and IEEE rounding is out of scope.
- Server.VerifyFaces: the same-person test and the bands apply to the unrounded score, for the reason above.
- EvaluateAll.EvaluateDataset: the ROC-optimal threshold (`roc_curve`, `argmax`) is a parameter. `accuracy_score`, `precision_score`, `recall_score` and `roc_auc_score` are not computed; they are a foreign library over floats. The reported TAR and FAR are 100 × the rates, as the source reports them, but the `round(..., 2)` applied to them is left out for the same reason as above.
- EvaluateAll.ConfusionOf: its own contract only bounds the total. Each cell is the count of the samples with that cell's (label, prediction), but that is stated by ConfusionOfOne and ConfusionOfAppend, which together fix every cell on every input. This keeps the function's contract light, since every metric depends on it.
- EvaluateAll.ConfusionTotals: states only the row and column sums on 0/1 lists. The cells themselves are fixed by ConfusionOfOne and ConfusionOfAppend, and MetricsAt equates its counts with ConfusionOf.
- EvaluateLfw.Evaluate: accuracy, precision, recall and AUC are not computed, for the same reason.
- EvaluateAll.ScoredAll: its premise is that every path exists and the service answers every request. This is stronger than "the paths of these pairs exist", because file existence and the service are opaque functions.
- EvaluateAll.Normalise: `score / 100.0` is exact real division, not a float division.
- Py.ParseInt: non-ASCII decimal digits, which Python's `int()` also accepts, are rejected.
- Py.ParseInt: the limit on the number of digits that CPython 3.11 and later place on `int()` of a string (4300 by default) is not modelled. It is an interpreter setting that can be raised or switched off, and earlier versions have no limit; every string this model accepts is parsed, however long.
- Py.PathJoin: only POSIX `os.path.join` is modelled. The Windows paths hard-coded in the scripts' `main` functions are configuration, not logic.
- Printing, `tqdm` progress bars and JSON saving (`print_results`, `save_results`) are output only. Opening and reading files is replaced by taking the file's lines as input. The `main` functions' dataset tables and server checks are left out too.
- `analyze_scores.py`, `check_images.py`, `check_pair_names.py`, `client.py`, `test_singel_pair.py`, `download_datasets.py` and `download_models.py` are not part of this model. They probe directories, print JSON, or download files.
