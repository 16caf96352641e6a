/**
 * `check_first_100.py`: the labels of the first hundred lines read without
 * any guard and counted, then the first ten pairs of consecutive lines
 * compared.
 */
module CheckFirst100 {
  import opened Wrappers
  import opened Py
  import opened PairFile
  import opened EvaluateAll

  /** Lines whose labels the script reads. */
  const Sampled: nat := 100

  /** Pairs of consecutive lines the script compares. */
  const Compared: nat := 10

  /** `int(lines[i].split()[1])`: a line past the end raises IndexError before anything is split. */
  function LineRead(lines: seq<string>, i: nat): (r: Result<int, Exception>)
    ensures i >= |lines| ==> r == Err(IndexError)
    ensures i < |lines| ==> r == ReadLabel(lines[i])
  {
    if i < |lines| then ReadLabel(lines[i]) else Err(IndexError)
  }

  /** The reads of lines 0 to count - 1, in order. */
  function LineReads(lines: seq<string>, count: nat): (rs: seq<Result<int, Exception>>)
    ensures |rs| == count
    ensures forall i :: 0 <= i < count && i < |lines| ==> rs[i] == ReadLabel(lines[i])
    ensures forall i :: |lines| <= i < count ==> rs[i] == Err(IndexError)
  {
    seq(count, i requires 0 <= i < count => LineRead(lines, i))
  }

  /**
   * `for i in range(count): int(lines[i].split()[1])`: a line past the end
   * raises IndexError, a line of one token IndexError, a label that is not an
   * integer ValueError, whichever line comes first.
   */
  function ReadLabels(lines: seq<string>, count: nat): (r: Result<seq<int>, Exception>)
    ensures r.Ok? ==> |r.value| == count
  {
    Sequence(LineReads(lines, count))
  }

  /** The sampled lines read exactly when they all exist and each label reads, and then give those labels in order. */
  lemma ReadLabelsOk(lines: seq<string>, count: nat)
    ensures ReadLabels(lines, count).Ok? <==> count <= |lines| && forall i :: 0 <= i < count ==> ReadLabel(lines[i]).Ok?
    ensures ReadLabels(lines, count).Ok? ==> forall i :: 0 <= i < count ==> ReadLabel(lines[i]) == Ok(ReadLabels(lines, count).value[i])
  {
    var rs := LineReads(lines, count);
    SequenceOk(rs);
    if count > |lines| {
      assert rs[|lines|] == Err(IndexError);
    } else {
      forall i | 0 <= i < count
        ensures rs[i] == ReadLabel(lines[i])
      {
        assert rs[i] == LineRead(lines, i);
      }
    }
  }

  /** A file shorter than the count, with every line it has readable, raises IndexError at the first missing line. */
  lemma ShortFileRaisesIndexError(lines: seq<string>, count: nat)
    requires |lines| < count
    requires forall i :: 0 <= i < |lines| ==> ReadLabel(lines[i]).Ok?
    ensures ReadLabels(lines, count) == Err(IndexError)
  {
    var rs := LineReads(lines, count);
    var n := |lines|;
    assert forall i :: 0 <= i < n ==> rs[..n][i] == LineRead(lines, i);
    SequenceOk(rs[..n]);
    assert rs[n] == Err(IndexError);
    SequenceStep(rs, n, Sequence(rs[..n]).value);
    SequenceFirstError(rs, n + 1);
  }

  /** Two labels of each compared pair and whether they agree. */
  datatype Comparison = Comparison(label1: int, label2: int, isSame: bool)

  /** What the script reports: the two label counts and the first ten comparisons. */
  datatype SampleReport = SampleReport(ones: nat, zeros: nat, pairs: seq<Comparison>)

  /** `labels.count(1) + labels.count(0)` never exceeds the number of labels, and reaches it exactly when every label is 0 or 1. */
  lemma {:induction false} BinaryCounts(xs: seq<int>)
    ensures CountOf(xs, 1) + CountOf(xs, 0) <= |xs|
    ensures CountOf(xs, 1) + CountOf(xs, 0) == |xs| <==> forall i :: 0 <= i < |xs| ==> IsLabel(xs[i])
    decreases |xs|
  {
    if |xs| > 0 {
      BinaryCounts(xs[1..]);
      assert forall i :: 1 <= i < |xs| ==> xs[i] == xs[1..][i - 1];
    }
  }

  /**
   * The script's two loops for a given number of sampled lines and compared
   * pairs: the labels of the sampled lines are read, the ones and zeros
   * counted, and lines 2k and 2k+1 compared for each compared pair k by
   * reading their labels again.
   */
  function Survey(lines: seq<string>, count: nat, compared: nat): (r: Result<SampleReport, Exception>)
    requires 2 * compared <= count
    ensures r.Ok? <==> ReadLabels(lines, count).Ok?
    ensures r.Err? ==> r == Err(ReadLabels(lines, count).error)
    ensures r.Ok? ==> r.value.ones + r.value.zeros <= count && |r.value.pairs| == compared
    ensures r.Ok? ==>
      && r.value.ones == CountOf(ReadLabels(lines, count).value, 1)
      && r.value.zeros == CountOf(ReadLabels(lines, count).value, 0)
    ensures r.Ok? ==> forall k :: 0 <= k < compared ==>
      (r.value.pairs[k].isSame <==> r.value.pairs[k].label1 == r.value.pairs[k].label2)
  {
    var labels :- ReadLabels(lines, count);
    BinaryCounts(labels);
    var pairs := seq(compared, k requires 0 <= k < compared =>
      Comparison(labels[2 * k], labels[2 * k + 1], labels[2 * k] == labels[2 * k + 1]));
    Ok(SampleReport(CountOf(labels, 1), CountOf(labels, 0), pairs))
  }

  /**
   * The ones and zeros cover every sampled line exactly when each label reads
   * as 0 or 1; there are no ones exactly when no sampled label reads as 1, and
   * no zeros exactly when none reads as 0.
   */
  lemma SurveyCounts(lines: seq<string>, count: nat, compared: nat)
    requires 2 * compared <= count
    requires Survey(lines, count, compared).Ok?
    ensures count <= |lines| && var r := Survey(lines, count, compared).value;
      && (r.ones + r.zeros == count <==> forall i :: 0 <= i < count ==> ReadLabel(lines[i]) in {Ok(0), Ok(1)})
      && (r.ones == 0 <==> forall i :: 0 <= i < count ==> ReadLabel(lines[i]) != Ok(1))
      && (r.zeros == 0 <==> forall i :: 0 <= i < count ==> ReadLabel(lines[i]) != Ok(0))
  {
    ReadLabelsOk(lines, count);
    var labels := ReadLabels(lines, count).value;
    BinaryCounts(labels);
    LabelsOfLines(lines, labels);
  }

  /** Labels read from the first lines: which of them are 0 or 1, and whether a 0 or a 1 is among them, is read off the lines. */
  lemma LabelsOfLines(lines: seq<string>, labels: seq<int>)
    requires |labels| <= |lines|
    requires forall i :: 0 <= i < |labels| ==> ReadLabel(lines[i]) == Ok(labels[i])
    ensures (forall i :: 0 <= i < |labels| ==> IsLabel(labels[i])) <==> forall i :: 0 <= i < |labels| ==> ReadLabel(lines[i]) in {Ok(0), Ok(1)}
    ensures 1 !in labels <==> forall i :: 0 <= i < |labels| ==> ReadLabel(lines[i]) != Ok(1)
    ensures 0 !in labels <==> forall i :: 0 <= i < |labels| ==> ReadLabel(lines[i]) != Ok(0)
  {
    forall v | v == 0 || v == 1
      ensures v in labels <==> exists i :: 0 <= i < |labels| && ReadLabel(lines[i]) == Ok(v)
    {
      if v in labels {
        var i :| 0 <= i < |labels| && labels[i] == v;
        assert ReadLabel(lines[i]) == Ok(v);
      }
    }
  }

  /** Comparison k holds the labels of lines 2k and 2k+1, read again. */
  lemma SurveyComparisons(lines: seq<string>, count: nat, compared: nat)
    requires 2 * compared <= count
    requires Survey(lines, count, compared).Ok?
    ensures 2 * compared <= |lines| && var r := Survey(lines, count, compared).value;
      forall k :: 0 <= k < compared ==>
      ReadLabel(lines[2 * k]) == Ok(r.pairs[k].label1) && ReadLabel(lines[2 * k + 1]) == Ok(r.pairs[k].label2)
  {
    ReadLabelsOk(lines, count);
    var labels := ReadLabels(lines, count).value;
    var r := Survey(lines, count, compared).value;
    forall k | 0 <= k < compared
      ensures r.pairs[k].label1 == labels[2 * k] && r.pairs[k].label2 == labels[2 * k + 1]
    {
    }
  }

  /**
   * The script on the lines of a file: a hundred lines sampled, ten pairs
   * compared; it raises the first failing read's error.
   */
  function FirstHundred(raw: seq<string>): (r: Result<SampleReport, Exception>)
    ensures r.Ok? <==> ReadLabels(CleanLines(raw), Sampled).Ok?
    ensures r.Err? ==> r == Err(ReadLabels(CleanLines(raw), Sampled).error)
    ensures r.Ok? ==>
      && r.value.ones == CountOf(ReadLabels(CleanLines(raw), Sampled).value, 1)
      && r.value.zeros == CountOf(ReadLabels(CleanLines(raw), Sampled).value, 0)
    ensures r.Ok? ==> Sampled <= |CleanLines(raw)|
    ensures r.Ok? ==> r.value.ones + r.value.zeros <= Sampled && |r.value.pairs| == Compared
  {
    Survey(CleanLines(raw), Sampled, Compared)
  }
}
