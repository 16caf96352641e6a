/**
 * `analyze_full_file`: the lines of a pair file read two at a time as they
 * stand, the label of each read without any guard, the pairs with equal
 * labels counted, and the window of lines 6000 to 6009 shown.
 */
module CheckMore {
  import opened Wrappers
  import opened Py
  import opened PairFile

  /** What `analyze_full_file` reports. */
  datatype Analysis = Analysis(totalLines: nat, totalPairs: nat, sameCount: nat, diffCount: nat, window: seq<string>)

  /** First line of the window the script shows. */
  const WindowStart: nat := 6000

  /** One past the last line of the window. */
  const WindowStop: nat := 6010

  /** `range(6000, min(6010, len(lines)))`: the lines from 6000 on, at most ten, none when the file is shorter. */
  function Window(lines: seq<string>): (r: seq<string>)
    ensures |lines| <= WindowStart ==> r == []
    ensures |lines| > WindowStart ==> |r| == Min(WindowStop, |lines|) - WindowStart
    ensures forall k :: 0 <= k < |r| ==> r[k] == lines[WindowStart + k]
  {
    var stop := Min(WindowStop, |lines|);
    if WindowStart < stop then lines[WindowStart..stop] else []
  }

  /**
   * One iteration's reads in `analyze_full_file`: line 2k's label, then line
   * 2k+1's; the first that fails is what the whole loop raises.
   */
  method ReadPair(ps: seq<(string, string)>, k: nat, ghost labels: seq<(int, int)>) returns (r: Result<(int, int), Exception>)
    requires k < |ps| && ReadPairLabels(ps[..k]) == Ok(labels)
    ensures r.Err? ==> ReadPairLabels(ps) == Err(r.error)
    ensures r.Ok? ==> ReadPairLabels(ps[..k + 1]) == Ok(labels + [r.value])
  {
    ReadPairLabelsStep(ps, k, labels);
    var label1 := ReadLabel(ps[k].0);
    if label1.Err? {
      ReadPairLabelsFirstError(ps, k + 1);
      return Err(label1.error);
    }
    var label2 := ReadLabel(ps[k].1);
    if label2.Err? {
      ReadPairLabelsFirstError(ps, k + 1);
      return Err(label2.error);
    }
    return Ok((label1.value, label2.value));
  }

  /**
   * The counting loop of `analyze_full_file`: for each pair of lines, line
   * 2k's label is read, then line 2k+1's, and the first read that fails is
   * raised, IndexError for a line of one token and ValueError for a label
   * that is not an integer; otherwise the same-label and different-label
   * pair counts.
   */
  method CountLabelPairs(lines: seq<string>) returns (r: Result<(nat, nat), Exception>)
    ensures r.Ok? <==> ReadPairLabels(LinePairs(lines)).Ok?
    ensures r.Err? ==> r == Err(ReadPairLabels(LinePairs(lines)).error)
    ensures r.Ok? ==> r.value.0 == CountEqual(ReadPairLabels(LinePairs(lines)).value)
    ensures r.Ok? ==> r.value.0 + r.value.1 == |lines| / 2
  {
    // Pair k of the loop is lines 2k and 2k+1.
    var ps := LinePairs(lines);
    ghost var labels: seq<(int, int)> := [];
    var sameCount, diffCount := 0, 0;
    var k := 0;
    while k < |ps|
      invariant 0 <= k <= |ps|
      invariant ReadPairLabels(ps[..k]) == Ok(labels)
      invariant sameCount == CountEqual(labels) && sameCount + diffCount == k
    {
      var read := ReadPair(ps, k, labels);
      if read.Err? {
        return Err(read.error);
      }
      if read.value.0 == read.value.1 {
        sameCount := sameCount + 1;
      } else {
        diffCount := diffCount + 1;
      }
      CountEqualStep(labels, read.value);
      labels := labels + [read.value];
      k := k + 1;
    }
    assert ps[..k] == ps;
    r := Ok((sameCount, diffCount));
  }

  /** `analyze_full_file` on the lines of a file. */
  method AnalyzeFullFile(raw: seq<string>) returns (r: Result<Analysis, Exception>)
    ensures r.Ok? <==> ReadPairLabels(LinePairs(CleanLines(raw))).Ok?
    ensures r.Err? ==> r == Err(ReadPairLabels(LinePairs(CleanLines(raw))).error)
    ensures r.Ok? ==>
      && r.value.totalLines == |CleanLines(raw)| && r.value.totalPairs == |CleanLines(raw)| / 2
      && r.value.sameCount == CountEqual(ReadPairLabels(LinePairs(CleanLines(raw))).value)
      && r.value.sameCount + r.value.diffCount == |CleanLines(raw)| / 2
      && r.value.window == Window(CleanLines(raw))
  {
    var lines := CleanLines(raw);
    var counts := CountLabelPairs(lines);
    if counts.Err? {
      return Err(counts.error);
    }
    r := Ok(Analysis(|lines|, |lines| / 2, counts.value.0, counts.value.1, Window(lines)));
  }
}
