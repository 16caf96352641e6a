/**
 * `check_pairs_format`: a preview of the first ten lines, then the first
 * five pairs of consecutive lines with both labels read without any guard and
 * compared.
 */
module DebugLabels {
  import opened Wrappers
  import opened Py
  import opened PairFile

  /** One pair as the script prints it: both images, both labels, and whether the labels agree. */
  datatype LabelledPair = LabelledPair(img1: string, label1: int, img2: string, label2: int, isSame: int)

  /** What `check_pairs_format` reports. */
  datatype FormatReport = FormatReport(totalLines: nat, preview: seq<string>, pairs: seq<LabelledPair>)

  /** Lines shown in the preview, and the line bound of the pairing loop. */
  const PreviewSize: nat := 10

  /** `range(0, min(10, len(lines) - 1), 2)` over the lines. */
  function PreviewPairs(lines: seq<string>): (r: seq<(string, string)>)
    ensures |r| == Min(PreviewSize / 2, |lines| / 2)
    ensures forall k :: 0 <= k < |r| ==> r[k] == (lines[2 * k], lines[2 * k + 1])
  {
    AdjacentPairsCount(lines, PreviewSize / 2);
    StepPairs(lines, 0, Min(PreviewSize, |lines| - 1))
  }

  /** The previewed pairs are the first pairs of the whole-file loop. */
  lemma PreviewPairsPrefix(lines: seq<string>)
    ensures PreviewPairs(lines) == LinePairs(lines)[..|PreviewPairs(lines)|]
  {
  }

  /** The reported pairs: the first token of each line as its image, the labels read, and whether they agree. */
  function Labelled(ps: seq<(string, string)>, labels: seq<(int, int)>): (r: seq<LabelledPair>)
    requires |labels| == |ps|
    requires forall k :: 0 <= k < |ps| ==> |Split(ps[k].0)| >= 1 && |Split(ps[k].1)| >= 1
    ensures |r| == |ps|
    ensures forall k :: 0 <= k < |r| ==>
      && r[k].img1 == Split(ps[k].0)[0] && r[k].label1 == labels[k].0
      && r[k].img2 == Split(ps[k].1)[0] && r[k].label2 == labels[k].1
      && (r[k].isSame == 1 <==> labels[k].0 == labels[k].1)
      && (r[k].isSame == 0 <==> labels[k].0 != labels[k].1)
  {
    seq(|ps|, k requires 0 <= k < |ps| =>
      LabelledPair(Split(ps[k].0)[0], labels[k].0, Split(ps[k].1)[0], labels[k].1, if labels[k].0 == labels[k].1 then 1 else 0))
  }

  /**
   * `check_pairs_format` on the lines of a file: for each previewed pair the
   * first line's image and label are read, then the second's; the first read
   * that fails raises (IndexError for a line of one token, ValueError for a
   * label that is not an integer).
   */
  function CheckPairsFormat(raw: seq<string>): (r: Result<FormatReport, Exception>)
    ensures r.Ok? <==> ReadPairLabels(PreviewPairs(CleanLines(raw))).Ok?
    ensures r.Err? ==> r == Err(ReadPairLabels(PreviewPairs(CleanLines(raw))).error)
    ensures r.Ok? ==>
      && r.value.totalLines == |CleanLines(raw)|
      && |r.value.preview| == Min(PreviewSize, |CleanLines(raw)|)
      && r.value.preview == CleanLines(raw)[..|r.value.preview|]
      && |r.value.pairs| == Min(PreviewSize / 2, |CleanLines(raw)| / 2)
  {
    var lines := CleanLines(raw);
    var ps := PreviewPairs(lines);
    var read := ReadPairLabels(ps);
    if read.Err? then Err(read.error)
    else
      ReadPairLabelsOk(ps);
      Ok(FormatReport(|lines|, Take(lines, PreviewSize), Labelled(ps, read.value)))
  }

  /**
   * Each reported pair holds the first token and the label of line 2k and of
   * line 2k+1, and is marked same exactly when the two labels agree.
   */
  lemma CheckPairsFormatPairs(raw: seq<string>)
    requires CheckPairsFormat(raw).Ok?
    ensures var pairs := CheckPairsFormat(raw).value.pairs;
      var lines := CleanLines(raw);
      forall k :: 0 <= k < |pairs| ==>
      && Ok(pairs[k].label1) == ReadLabel(lines[2 * k]) && Ok(pairs[k].label2) == ReadLabel(lines[2 * k + 1])
      && pairs[k].img1 == Split(lines[2 * k])[0] && pairs[k].img2 == Split(lines[2 * k + 1])[0]
      && (pairs[k].isSame == 1 <==> pairs[k].label1 == pairs[k].label2)
      && (pairs[k].isSame == 0 <==> pairs[k].label1 != pairs[k].label2)
  {
    var lines := CleanLines(raw);
    var ps := PreviewPairs(lines);
    var read := ReadPairLabels(ps);
    ReadPairLabelsOk(ps);
    var pairs := CheckPairsFormat(raw).value.pairs;
    assert pairs == Labelled(ps, read.value);
    forall k | 0 <= k < |pairs|
      ensures Ok(pairs[k].label1) == ReadLabel(lines[2 * k]) && Ok(pairs[k].label2) == ReadLabel(lines[2 * k + 1])
      ensures pairs[k].img1 == Split(lines[2 * k])[0] && pairs[k].img2 == Split(lines[2 * k + 1])[0]
      ensures pairs[k].isSame == 1 <==> pairs[k].label1 == pairs[k].label2
      ensures pairs[k].isSame == 0 <==> pairs[k].label1 != pairs[k].label2
    {
      assert ps[k] == (lines[2 * k], lines[2 * k + 1]);
      assert pairs[k] == LabelledPair(Split(ps[k].0)[0], read.value[k].0, Split(ps[k].1)[0], read.value[k].1,
                                      if read.value[k].0 == read.value[k].1 then 1 else 0);
    }
  }

  /**
   * When the whole-file read of `analyze_full_file` succeeds, so does this
   * script's, and its labels are the first ones of that read.
   */
  lemma AgreesWithFullRead(lines: seq<string>)
    requires ReadPairLabels(LinePairs(lines)).Ok?
    ensures ReadPairLabels(PreviewPairs(lines)).Ok?
    ensures var n := |PreviewPairs(lines)|;
      ReadPairLabels(PreviewPairs(lines)).value == ReadPairLabels(LinePairs(lines)).value[..n]
  {
    PreviewPairsPrefix(lines);
    ReadPairLabelsPrefix(LinePairs(lines), |PreviewPairs(lines)|);
  }
}
