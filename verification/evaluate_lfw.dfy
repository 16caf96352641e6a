/**
 * The LFW evaluator (`LFWEvaluator`): reading the tab-separated rows of the
 * LFW pairs file, building image paths, truncating to `max_pairs`, and the
 * skip-and-threshold bookkeeping of the scoring loop.
 */
module EvaluateLfw {
  import opened Wrappers
  import opened Py
  import opened PairFile
  import opened EvaluateAll

  /** One LFW pair: two (person, image number) references and the label. */
  datatype LfwPair = LfwPair(person1: string, img1: int, person2: string, img2: int, same: int)

  // ---------------------------------------------------------------------------
  // load_lfw_pairs

  /** The tab-separated fields of a stripped row. */
  function Fields(line: string): seq<string>
  {
    SplitOn(Strip(line), '\t')
  }

  /** There is at least one field, none holds a tab, and joined with tabs they give the stripped row back. */
  lemma FieldsRejoin(line: string)
    ensures |Fields(line)| >= 1
    ensures forall k :: 0 <= k < |Fields(line)| ==> '\t' !in Fields(line)[k]
    ensures Join("\t", Fields(line)) == Strip(line)
  {
    JoinSplitOn(Strip(line), '\t');
  }

  /** Both image numbers of a row go through `int()`, the first one first. */
  function RowOf(person1: string, idx1: string, person2: string, idx2: string, same: int): (r: Result<LfwPair, Exception>)
    ensures r.Ok? <==> ParseInt(idx1).Ok? && ParseInt(idx2).Ok?
    ensures r.Err? ==> r.error == ValueError
    ensures r.Ok? ==> r.value == LfwPair(person1, ParseInt(idx1).value, person2, ParseInt(idx2).value, same)
  {
    var i1 :- ParseInt(idx1);
    var i2 :- ParseInt(idx2);
    Ok(LfwPair(person1, i1, person2, i2, same))
  }

  /**
   * One row of `load_lfw_pairs`: three fields are a same-person pair (the one
   * person appears twice), four fields a different-person pair, and any other
   * field count is skipped (None); a non-integer image number raises ValueError.
   */
  function ParseRow(line: string): (r: Option<Result<LfwPair, Exception>>)
    ensures r.None? <==> |Fields(line)| != 3 && |Fields(line)| != 4
    ensures r.Some? && r.value.Err? ==> r.value.error == ValueError
    ensures r.Some? && r.value.Ok? ==>
      var p := r.value.value;
      && IsLabel(p.same)
      && (p.same == 1 <==> |Fields(line)| == 3)
      && p.person1 == Fields(line)[0]
      && ParseInt(Fields(line)[1]) == Ok(p.img1)
      && (p.same == 1 ==> p.person2 == p.person1 && ParseInt(Fields(line)[2]) == Ok(p.img2))
      && (p.same == 0 ==> p.person2 == Fields(line)[2] && ParseInt(Fields(line)[3]) == Ok(p.img2))
  {
    var f := Fields(line);
    if |f| == 3 then Some(RowOf(f[0], f[1], f[0], f[2], 1))
    else if |f| == 4 then Some(RowOf(f[0], f[1], f[2], f[3], 0))
    else None
  }

  /** The row the LFW pairs file holds for a pair: three fields when it is a same-person pair, four otherwise. */
  function FormatRow(p: LfwPair): string
  {
    if p.same == 1 then Join("\t", [p.person1, Str(p.img1), Str(p.img2)])
    else Join("\t", [p.person1, Str(p.img1), p.person2, Str(p.img2)])
  }

  /** A pair that the file format can hold: names without tabs, the first starting with a visible character. */
  predicate Writable(p: LfwPair) {
    && IsLabel(p.same)
    && p.person1 != [] && !IsSpace(p.person1[0]) && '\t' !in p.person1 && '\t' !in p.person2
    && (p.same == 1 ==> p.person2 == p.person1)
  }

  /** A number written by `str()` holds no tab and ends with a visible character. */
  lemma StrFieldShape(n: int)
    ensures '\t' !in Str(n) && Str(n) != [] && !IsSpace(Str(n)[|Str(n)| - 1])
  {
    StrIsToken(n);
    assert IsSpace('\t');
  }

  /** Reading back the row of a writable pair, with its line ending and any trailing whitespace, gives the pair. */
  lemma ParseRowRoundTrip(p: LfwPair, ending: string)
    requires Writable(p)
    requires AllSpace(ending)
    ensures ParseRow(FormatRow(p) + ending) == Some(Ok(p))
  {
    RowFieldsReadBack(p, ending);
    ParseIntFormatRoundTrip(p.img1, 0);
    ParseIntFormatRoundTrip(p.img2, 0);
  }

  /** The fields read back from a written row are the fields written. */
  lemma RowFieldsReadBack(p: LfwPair, ending: string)
    requires Writable(p)
    requires AllSpace(ending)
    ensures Fields(FormatRow(p) + ending) == RowFields(p)
  {
    StrFieldShape(p.img1);
    StrFieldShape(p.img2);
    var parts := RowFields(p);
    assert FormatRow(p) == Join("\t", parts);
    ReadFields(parts, ending);
  }

  /** The fields `FormatRow` writes for a pair. */
  function RowFields(p: LfwPair): seq<string>
  {
    if p.same == 1 then [p.person1, Str(p.img1), Str(p.img2)]
    else [p.person1, Str(p.img1), p.person2, Str(p.img2)]
  }

  /** Tab-joined fields, the first starting and the last ending with a visible character, split back into themselves. */
  lemma ReadFields(parts: seq<string>, ending: string)
    requires |parts| >= 1 && parts[0] != [] && parts[|parts| - 1] != []
    requires !IsSpace(parts[0][0]) && !IsSpace(parts[|parts| - 1][|parts[|parts| - 1]| - 1])
    requires forall k :: 0 <= k < |parts| ==> '\t' !in parts[k]
    requires AllSpace(ending)
    ensures Fields(Join("\t", parts) + ending) == parts
  {
    var text := Join("\t", parts);
    JoinEnds(parts);
    StripPadded(text, ending);
    SplitOnJoin(parts, '\t');
  }

  /** A tab-join of fields starts with the first field's first character and ends with the last field's last character. */
  lemma JoinEnds(parts: seq<string>)
    requires |parts| >= 1 && parts[0] != [] && parts[|parts| - 1] != []
    ensures var t := Join("\t", parts); t != [] && t[0] == parts[0][0] && t[|t| - 1] == parts[|parts| - 1][|parts[|parts| - 1]| - 1]
  {
    JoinLast(parts);
  }

  lemma {:induction false} JoinLast(parts: seq<string>)
    requires |parts| >= 1 && parts[|parts| - 1] != []
    ensures var t := Join("\t", parts); t != [] && t[|t| - 1] == parts[|parts| - 1][|parts[|parts| - 1]| - 1]
    decreases |parts|
  {
    if |parts| > 1 {
      JoinLast(parts[1..]);
    }
  }

  /** Every row after the header, in file order; the first non-integer image number raises ValueError. */
  function ParseRows(rows: seq<string>): (r: Result<seq<LfwPair>, Exception>)
    ensures r.Ok? <==> forall k :: 0 <= k < |rows| ==> ParseRow(rows[k]).None? || ParseRow(rows[k]).value.Ok?
    ensures r.Err? ==> r.error == ValueError
    ensures r.Ok? ==> |r.value| <= |rows| && forall k :: 0 <= k < |r.value| ==> IsLabel(r.value[k].same)
  {
    if |rows| == 0 then Ok([])
    else
      assert forall k :: 1 <= k < |rows| ==> rows[k] == rows[1..][k - 1];
      RowStep(ParseRow(rows[0]), ParseRows(rows[1..]))
  }

  /** What one row adds in front of the pairs read from the rows after it. */
  function RowStep(row: Option<Result<LfwPair, Exception>>, rest: Result<seq<LfwPair>, Exception>): Result<seq<LfwPair>, Exception>
  {
    match row
    case None => rest
    case Some(Err(e)) => Err(e)
    case Some(Ok(p)) => if rest.Err? then rest else Ok([p] + rest.value)
  }

  /** Reading works row by row: the pairs of a file are those of its parts, in order. */
  lemma {:induction false} ParseRowsAppend(a: seq<string>, b: seq<string>)
    ensures ParseRows(a + b).Ok? <==> ParseRows(a).Ok? && ParseRows(b).Ok?
    ensures ParseRows(a + b).Ok? ==> ParseRows(a + b).value == ParseRows(a).value + ParseRows(b).value
    decreases |a|
  {
    if |a| == 0 {
      assert a + b == b;
    } else {
      assert (a + b)[0] == a[0];
      assert (a + b)[1..] == a[1..] + b;
      ParseRowsAppend(a[1..], b);
      assert ParseRows(a + b) == RowStep(ParseRow(a[0]), ParseRows(a[1..] + b));
      assert ParseRows(a) == RowStep(ParseRow(a[0]), ParseRows(a[1..]));
      RowStepConcat(ParseRow(a[0]), ParseRows(a[1..]), ParseRows(b), ParseRows(a[1..] + b));
    }
  }

  /** A row read in front of the concatenation of two results is the row read in front of the first, then the second. */
  lemma RowStepConcat(row: Option<Result<LfwPair, Exception>>, x: Result<seq<LfwPair>, Exception>, y: Result<seq<LfwPair>, Exception>, xy: Result<seq<LfwPair>, Exception>)
    requires xy.Ok? <==> x.Ok? && y.Ok?
    requires xy.Ok? ==> xy.value == x.value + y.value
    ensures RowStep(row, xy).Ok? <==> RowStep(row, x).Ok? && y.Ok?
    ensures RowStep(row, xy).Ok? ==> RowStep(row, xy).value == RowStep(row, x).value + y.value
  {
    if row.Some? && row.value.Ok? && xy.Ok? {
      assert [row.value.value] + xy.value == ([row.value.value] + x.value) + y.value;
    }
  }

  /** A single row gives its pair, nothing when it is skipped, or its ValueError. */
  lemma ParseRowsOne(row: string)
    ensures ParseRow(row).None? ==> ParseRows([row]) == Ok([])
    ensures ParseRow(row).Some? && ParseRow(row).value.Err? ==> ParseRows([row]) == Err(ValueError)
    ensures ParseRow(row).Some? && ParseRow(row).value.Ok? ==> ParseRows([row]) == Ok([ParseRow(row).value.value])
  {
    assert [row][1..] == [];
    assert ParseRows([row]) == RowStep(ParseRow(row), Ok([]));
    RowStepAlone(ParseRow(row));
  }

  /** In front of no pairs, a row read gives just its pair. */
  lemma RowStepAlone(row: Option<Result<LfwPair, Exception>>)
    ensures row.Some? && row.value.Ok? ==> RowStep(row, Ok([])) == Ok([row.value.value])
  {
    if row.Some? && row.value.Ok? {
      assert [row.value.value] + [] == [row.value.value];
    }
  }

  /**
   * `load_lfw_pairs` on the lines of the file: the first line is the header
   * and is never read; every later row is read as `ParseRows` reads it.
   */
  function LoadLfwPairs(raw: seq<string>): (r: Result<seq<LfwPair>, Exception>)
    ensures |raw| <= 1 ==> r == Ok([])
    ensures r.Ok? <==> forall k :: 1 <= k < |raw| ==> ParseRow(raw[k]).None? || ParseRow(raw[k]).value.Ok?
    ensures r.Err? ==> r.error == ValueError
    ensures r.Ok? ==> |r.value| < |raw| || |raw| == 0
  {
    assert |raw| > 0 ==> forall k :: 1 <= k < |raw| ==> raw[k] == raw[1..][k - 1];
    ParseRows(DropFirst(raw))
  }

  /** Whatever the header says, the pairs are the same. */
  lemma LoadLfwHeaderIgnored(header1: string, header2: string, rows: seq<string>)
    ensures LoadLfwPairs([header1] + rows) == LoadLfwPairs([header2] + rows)
    ensures LoadLfwPairs([header1] + rows) == ParseRows(rows)
  {
    assert DropFirst([header1] + rows) == rows;
    assert DropFirst([header2] + rows) == rows;
  }

  // ---------------------------------------------------------------------------
  // get_image_path

  /** `f"{person}_{idx:04d}.jpg"` */
  function ImageName(person: string, idx: int): string
  {
    person + "_" + FormatZeroPadded(idx, 4) + ".jpg"
  }

  /**
   * The file name is the person, an underscore, a number of at least four
   * characters that `int()` reads back as the image number, and the `.jpg`
   * extension.
   */
  lemma ImageNameShape(person: string, idx: int)
    ensures var r := ImageName(person, idx);
      && |r| >= |person| + 9
      && r[..|person|] == person && r[|person|] == '_' && EndsWith(r, ".jpg")
      && ParseInt(r[|person| + 1..|r| - 4]) == Ok(idx)
  {
    ParseIntFormatRoundTrip(idx, 4);
    var r := ImageName(person, idx);
    assert r[|person| + 1..|r| - 4] == FormatZeroPadded(idx, 4);
  }

  /** `get_image_path`: `os.path.join(lfw_dir, person, name)`; the path always ends with the file name. */
  function ImagePath(dir: string, person: string, idx: int): (r: string)
    ensures EndsWith(r, ImageName(person, idx))
  {
    PathJoin(PathJoin(dir, person), ImageName(person, idx))
  }

  /**
   * For a person name without '/' under a directory without a trailing
   * slash, the path is `dir/person/person_NNNN.jpg`, the number written with
   * at least four digits and read back by `int()`.
   */
  lemma ImagePathShape(dir: string, person: string, idx: int)
    requires dir != [] && dir[|dir| - 1] != '/'
    requires person != [] && '/' !in person
    ensures ImagePath(dir, person, idx) == dir + "/" + person + "/" + ImageName(person, idx)
    ensures |FormatZeroPadded(idx, 4)| >= 4
    ensures ParseInt(FormatZeroPadded(idx, 4)) == Ok(idx)
  {
    ParseIntFormatRoundTrip(idx, 4);
    PersonDirectory(dir, person);
    var a := dir + "/" + person;
    var name := ImageName(person, idx);
    assert name[0] == person[0];
    assert PathJoin(a, name) == a + "/" + name;
  }

  /** The person's directory is the dataset directory, a '/', and the person's name. */
  lemma PersonDirectory(dir: string, person: string)
    requires dir != [] && dir[|dir| - 1] != '/'
    requires person != [] && '/' !in person
    ensures PathJoin(dir, person) == dir + "/" + person
    ensures (dir + "/" + person)[|dir + "/" + person| - 1] != '/'
  {
    assert (dir + "/" + person)[|dir + "/" + person| - 1] == person[|person| - 1];
  }

  /** An image number from 0 to 9999 is written with exactly four digits. */
  lemma ImageNumberWidth(idx: int)
    requires 0 <= idx <= 9999
    ensures var d := FormatZeroPadded(idx, 4); |d| == 4 && forall i :: 0 <= i < 4 ==> IsDigit(d[i])
  {
    FourDigitWidth(idx);
  }

  // ---------------------------------------------------------------------------
  // evaluate

  /** `pairs[:max_pairs]` when `max_pairs` is truthy, otherwise all pairs. */
  function Truncate(pairs: seq<LfwPair>, maxPairs: Option<int>): (r: seq<LfwPair>)
    ensures |r| <= |pairs| && r == pairs[..|r|]
    ensures !Truthy(maxPairs) ==> r == pairs
    ensures Truthy(maxPairs) && maxPairs.value > 0 ==> |r| == Min(maxPairs.value, |pairs|)
  {
    if Truthy(maxPairs) then Take(pairs, maxPairs.value) else pairs
  }

  /** The strict threshold this evaluator hard-codes, on the 0-100 scale; the server keeps its own `SameThreshold` of the same value. */
  const LfwSameThreshold: real := 65.0

  /** The outcome of the scoring loop: labels, normalised scores and strict predictions of the scored pairs. */
  datatype Scores = Scores(yTrue: seq<int>, yScores: seq<real>, yPred: seq<int>)

  /** The service score of a pair whose two images exist, or None when an image is missing or the request fails. */
  function LfwAttempt(dir: string, p: LfwPair, fileExists: string -> bool, score: (string, string) -> Option<real>): (r: Option<real>)
    ensures r.Some? ==> fileExists(ImagePath(dir, p.person1, p.img1)) && fileExists(ImagePath(dir, p.person2, p.img2))
    ensures fileExists(ImagePath(dir, p.person1, p.img1)) && fileExists(ImagePath(dir, p.person2, p.img2)) ==>
      r == score(ImagePath(dir, p.person1, p.img1), ImagePath(dir, p.person2, p.img2))
  {
    var path1 := ImagePath(dir, p.person1, p.img1);
    var path2 := ImagePath(dir, p.person2, p.img2);
    if !fileExists(path1) || !fileExists(path2) then None else score(path1, path2)
  }

  /**
   * One iteration: a skipped pair changes nothing; a scored pair adds one
   * entry to each list.
   */
  function Record(acc: Scores, p: LfwPair, outcome: Option<real>): (r: Scores)
    ensures outcome.None? ==> r == acc
    ensures outcome.Some? ==>
      |r.yTrue| == |acc.yTrue| + 1 && |r.yScores| == |acc.yScores| + 1 && |r.yPred| == |acc.yPred| + 1
  {
    match outcome
    case None => acc
    case Some(s) => Scores(acc.yTrue + [p.same], acc.yScores + [Normalise(s)], acc.yPred + [if s > LfwSameThreshold then 1 else 0])
  }

  /**
   * A scored pair appends to each list and keeps the earlier entries: its
   * label, and its score on the normalised scale.
   */
  lemma RecordAppends(acc: Scores, p: LfwPair, s: real)
    ensures var r := Record(acc, p, Some(s));
      && r.yTrue[..|acc.yTrue|] == acc.yTrue && r.yTrue[|acc.yTrue|] == p.same
      && r.yScores[..|acc.yScores|] == acc.yScores && r.yScores[|acc.yScores|] * 100.0 == s
      && r.yPred[..|acc.yPred|] == acc.yPred
  {
    var r := Record(acc, p, Some(s));
    assert r.yTrue == acc.yTrue + [p.same];
    assert r.yScores == acc.yScores + [Normalise(s)];
    assert r.yPred == acc.yPred + [if s > LfwSameThreshold then 1 else 0];
  }

  /** The three lists of the scoring loop, built pair by pair. */
  function LfwScored(dir: string, pairs: seq<LfwPair>, fileExists: string -> bool, score: (string, string) -> Option<real>): (r: Scores)
    ensures |r.yTrue| == |r.yScores| == |r.yPred| <= |pairs|
  {
    if |pairs| == 0 then Scores([], [], [])
    else
      var p := pairs[|pairs| - 1];
      Record(LfwScored(dir, pairs[..|pairs| - 1], fileExists, score), p, LfwAttempt(dir, p, fileExists, score))
  }

  /** Every prediction is 1 exactly when the normalised score is strictly above 0.65. */
  predicate PredictsStrictly(r: Scores) {
    |r.yPred| == |r.yScores|
    && forall k :: 0 <= k < |r.yPred| ==> IsLabel(r.yPred[k]) && (r.yPred[k] == 1 <==> r.yScores[k] > 0.65)
  }

  /** Recording a pair keeps every prediction strict. */
  lemma RecordKeepsStrict(acc: Scores, p: LfwPair, outcome: Option<real>)
    requires PredictsStrictly(acc)
    ensures PredictsStrictly(Record(acc, p, outcome))
  {
    if outcome.Some? {
      var s := outcome.value;
      var r := Record(acc, p, outcome);
      var n := |acc.yPred|;
      NormalisedStrict(s);
      assert r.yPred[n] == 1 <==> r.yScores[n] > 0.65;
      assert forall k :: 0 <= k < n ==> r.yPred[k] == acc.yPred[k] && r.yScores[k] == acc.yScores[k];
    }
  }

  /** The loop's predictions are the strict ones: 1 exactly when the normalised score is above 0.65. */
  lemma {:induction false} LfwPredictionsStrict(dir: string, pairs: seq<LfwPair>, fileExists: string -> bool, score: (string, string) -> Option<real>)
    ensures PredictsStrictly(LfwScored(dir, pairs, fileExists, score))
    decreases |pairs|
  {
    if |pairs| > 0 {
      var xs := pairs[..|pairs| - 1];
      var p := pairs[|pairs| - 1];
      LfwPredictionsStrict(dir, xs, fileExists, score);
      RecordKeepsStrict(LfwScored(dir, xs, fileExists, score), p, LfwAttempt(dir, p, fileExists, score));
    }
  }

  /** `score > 65.0` on the 0-100 scale is `score / 100 > 0.65` on the normalised scale. */
  lemma NormalisedStrict(s: real)
    ensures s > LfwSameThreshold <==> Normalise(s) > 0.65
  {
  }

  /**
   * The strict predictions of this evaluator and the inclusive predictions of
   * the multi-dataset evaluator disagree only on a score of exactly 65.
   */
  lemma StrictVersusInclusive(dir: string, pairs: seq<LfwPair>, fileExists: string -> bool, score: (string, string) -> Option<real>)
    ensures var r := LfwScored(dir, pairs, fileExists, score);
      forall k :: 0 <= k < |r.yPred| ==>
        (r.yPred[k] != PredictAtLeast(r.yScores, DefaultThreshold)[k] <==> r.yScores[k] == DefaultThreshold)
  {
    LfwPredictionsStrict(dir, pairs, fileExists, score);
  }

  /** The result of `evaluate` as far as this model computes it. */
  datatype LfwRun = LfwRun(totalPairs: nat, scores: Scores)

  /**
   * `evaluate`: load the pairs, truncate them, and score each pair whose two
   * images exist; pairs with a missing image or a failed request are skipped
   * without being counted.
   */
  method Evaluate(dir: string, raw: seq<string>, maxPairs: Option<int>,
                  fileExists: string -> bool, score: (string, string) -> Option<real>)
    returns (r: Result<LfwRun, Exception>)
    ensures r.Err? <==> LoadLfwPairs(raw).Err?
    ensures r.Err? ==> r.error == ValueError
    ensures r.Ok? ==> r.value.totalPairs == |Truncate(LoadLfwPairs(raw).value, maxPairs)|
    ensures r.Ok? ==> r.value.scores == LfwScored(dir, Truncate(LoadLfwPairs(raw).value, maxPairs), fileExists, score)
    ensures r.Ok? ==> |r.value.scores.yTrue| <= r.value.totalPairs
  {
    var loaded := LoadLfwPairs(raw);
    if loaded.Err? {
      return Err(loaded.error);
    }
    var pairs := Truncate(loaded.value, maxPairs);
    var scores := ScorePairs(dir, pairs, fileExists, score);
    return Ok(LfwRun(|pairs|, scores));
  }

  /** The scoring loop of `evaluate`: a pair with a missing image is skipped, as is one whose request fails. */
  method ScorePairs(dir: string, pairs: seq<LfwPair>, fileExists: string -> bool, score: (string, string) -> Option<real>)
    returns (r: Scores)
    ensures r == LfwScored(dir, pairs, fileExists, score)
  {
    var yTrue: seq<int> := [];
    var yScores: seq<real> := [];
    var yPred: seq<int> := [];
    for i := 0 to |pairs|
      invariant Scores(yTrue, yScores, yPred) == LfwScored(dir, pairs[..i], fileExists, score)
    {
      assert pairs[..i + 1][..i] == pairs[..i];
      var path1 := ImagePath(dir, pairs[i].person1, pairs[i].img1);
      var path2 := ImagePath(dir, pairs[i].person2, pairs[i].img2);
      if !fileExists(path1) || !fileExists(path2) {
        continue;
      }
      var s := score(path1, path2);
      if s.Some? {
        yTrue := yTrue + [pairs[i].same];
        yScores := yScores + [Normalise(s.value)];
        yPred := yPred + [if s.value > LfwSameThreshold then 1 else 0];
      }
    }
    assert pairs[..|pairs|] == pairs;
    return Scores(yTrue, yScores, yPred);
  }
}
