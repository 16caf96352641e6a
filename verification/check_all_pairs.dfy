/**
 * `check_pairs`: the samples of a pair file paired as they stand, two
 * consecutive samples at a time, each pair labelled 1 when its two labels
 * agree; the same/different counts and the first different pair.
 */
module CheckAllPairs {
  import opened Wrappers
  import opened Py
  import opened PairFile
  import opened EvaluateAll

  /**
   * `range(0, len(all_samples) - 1, 2)` over the samples in file order:
   * pair k is samples 2k and 2k+1, labelled 1 exactly when their labels are
   * equal; an odd last sample is dropped.
   */
  function PairByEquality(samples: seq<Sample>): (r: seq<Pair>)
    ensures |r| == |samples| / 2
    ensures forall k :: 0 <= k < |r| ==>
      && r[k].img1 == samples[2 * k].img && r[k].img2 == samples[2 * k + 1].img
      && IsLabel(r[k].same)
      && (r[k].same == 1 <==> samples[2 * k].tag == samples[2 * k + 1].tag)
  {
    AdjacentPairsCount(samples, 0);
    var ps := StepPairs(samples, 0, |samples| - 1);
    seq(|ps|, k requires 0 <= k < |ps| => Pair(ps[k].0.img, ps[k].1.img, if ps[k].0.tag == ps[k].1.tag then 1 else 0))
  }

  /** Index of the first pair labelled 0, if any. */
  function FirstDifferent(pairs: seq<Pair>): (r: Option<nat>)
    ensures r.Some? ==> r.value < |pairs| && pairs[r.value].same == 0
    ensures r.Some? ==> forall j :: 0 <= j < r.value ==> pairs[j].same != 0
    ensures r.None? ==> forall j :: 0 <= j < |pairs| ==> pairs[j].same != 0
  {
    if |pairs| == 0 then None
    else if pairs[0].same == 0 then Some(0)
    else
      match FirstDifferent(pairs[1..])
      case None => None
      case Some(i) => Some(i + 1)
  }

  /** What `check_pairs` reports: the pairs, the two counts, and where the first different pair is. */
  datatype Summary = Summary(pairs: seq<Pair>, same: nat, diff: nat, firstDifferent: Option<nat>)

  /** `check_pairs` on the lines of a file; a non-integer label raises ValueError before anything is paired. */
  function CheckPairs(raw: seq<string>): (r: Result<Summary, Exception>)
    ensures r.Ok? <==> ParseSamples(CleanLines(raw)).Ok?
    ensures r.Err? ==> r.error == ValueError
    ensures r.Ok? ==> r.value.pairs == PairByEquality(ParseSamples(CleanLines(raw)).value)
    ensures r.Ok? ==> r.value.same == |WithLabel(r.value.pairs, 1)| && r.value.diff == |WithLabel(r.value.pairs, 0)|
    ensures r.Ok? ==> r.value.same + r.value.diff == |r.value.pairs|
    ensures r.Ok? && r.value.firstDifferent.Some? ==> r.value.diff > 0
    ensures r.Ok? && r.value.firstDifferent.Some? ==>
      var i := r.value.firstDifferent.value;
      i < |r.value.pairs| && r.value.pairs[i].same == 0 && forall j :: 0 <= j < i ==> r.value.pairs[j].same != 0
    ensures r.Ok? && r.value.firstDifferent.None? ==> r.value.diff == 0
  {
    var samples :- ParseSamples(CleanLines(raw));
    var pairs := PairByEquality(samples);
    WithLabelPartition(pairs);
    var first := FirstDifferent(pairs);
    if first.Some? then
      assert pairs[first.value] in WithLabel([pairs[first.value]], 0);
      WithLabelMember(pairs, first.value, 0);
      Ok(Summary(pairs, |WithLabel(pairs, 1)|, |WithLabel(pairs, 0)|, first))
    else
      WithLabelNone(pairs, 0);
      Ok(Summary(pairs, |WithLabel(pairs, 1)|, |WithLabel(pairs, 0)|, first))
  }

  /** A pair carrying the label survives the filter, so the filtered list is not empty. */
  lemma {:induction false} WithLabelMember(pairs: seq<Pair>, i: nat, want: int)
    requires i < |pairs| && pairs[i].same == want
    ensures |WithLabel(pairs, want)| > 0
    decreases i
  {
    if i > 0 {
      WithLabelMember(pairs[1..], i - 1, want);
    }
  }

  /** Counting equal label pairs counts the pairs marked same, when the marks follow the labels. */
  lemma {:induction false} CountEqualIsSame(labels: seq<(int, int)>, pairs: seq<Pair>)
    requires |labels| == |pairs|
    requires forall k :: 0 <= k < |pairs| ==> (pairs[k].same == 1 <==> labels[k].0 == labels[k].1)
    ensures CountEqual(labels) == |WithLabel(pairs, 1)|
    decreases |pairs|
  {
    if |pairs| > 0 {
      var n := |pairs| - 1;
      CountEqualIsSame(labels[..n], pairs[..n]);
      WithLabelAppend(pairs[..n], [pairs[n]], 1);
      assert pairs[..n] + [pairs[n]] == pairs;
      assert [pairs[n]][1..] == [];
    }
  }

  /**
   * When every line of the file holds a row, `check_pairs` and
   * `analyze_full_file` pair the same lines and agree on the number of
   * same-label pairs.
   */
  lemma SameCountAgreesWithLineCount(raw: seq<string>)
    requires AllRows(CleanLines(raw))
    requires CheckPairs(raw).Ok?
    ensures ReadPairLabels(LinePairs(CleanLines(raw))).Ok?
    ensures CheckPairs(raw).value.same == CountEqual(ReadPairLabels(LinePairs(CleanLines(raw))).value)
  {
    var lines := CleanLines(raw);
    var samples := ParseSamples(lines).value;
    var pairs := PairByEquality(samples);
    var read := ReadPairLabels(LinePairs(lines));
    RowsPairAlike(lines);
    assert read.Ok? && |WithLabel(pairs, 1)| == CountEqual(read.value);
    var r := CheckPairs(raw).value;
    assert r.pairs == pairs;
    assert r.same == |WithLabel(pairs, 1)|;
  }

  /** On lines that all hold rows, the sample pairs and the line pairs carry the same labels. */
  lemma RowsPairAlike(lines: seq<string>)
    requires AllRows(lines)
    requires ParseSamples(lines).Ok?
    ensures var read := ReadPairLabels(LinePairs(lines));
      read.Ok? && |WithLabel(PairByEquality(ParseSamples(lines).value), 1)| == CountEqual(read.value)
  {
    var samples := ParseSamples(lines).value;
    ParseSamplesAllRows(lines);
    AdjacentPairsCount(lines, 0);
    var ps := LinePairs(lines);
    forall k | 0 <= k < |ps|
      ensures ReadLabel(ps[k].0) == Ok(samples[2 * k].tag) && ReadLabel(ps[k].1) == Ok(samples[2 * k + 1].tag)
    {
      assert ps[k] == (lines[2 * k], lines[2 * k + 1]);
    }
    ReadPairLabelsOk(ps);
    var read := ReadPairLabels(ps);
    var pairs := PairByEquality(samples);
    forall k | 0 <= k < |pairs|
      ensures pairs[k].same == 1 <==> read.value[k].0 == read.value[k].1
    {
      assert read.value[k].0 == samples[2 * k].tag;
      assert read.value[k].1 == samples[2 * k + 1].tag;
    }
    CountEqualIsSame(read.value, pairs);
  }

  /** When every sample is labelled 1, pairing as they stand and pairing within the label groups give the same list. */
  lemma AllPositiveAgreesWithLoader(samples: seq<Sample>)
    requires forall k :: 0 <= k < |samples| ==> samples[k].tag == 1
    ensures PairByEquality(samples) == PairsOf(samples)
  {
    SplitByLabelAllPositive(samples);
    var pos := SplitByLabel(samples).0;
    assert GroupPairs(SplitByLabel(samples).1, 0) == [];
    assert PairsOf(samples) == GroupPairs(pos, 1) + [];
    assert GroupPairs(pos, 1) + [] == GroupPairs(pos, 1);
  }

  /** With every label 1 the positives are all the images, in order, and there are no negatives. */
  lemma {:induction false} SplitByLabelAllPositive(samples: seq<Sample>)
    requires forall k :: 0 <= k < |samples| ==> samples[k].tag == 1
    ensures |SplitByLabel(samples).0| == |samples| && SplitByLabel(samples).1 == []
    ensures forall k :: 0 <= k < |samples| ==> SplitByLabel(samples).0[k] == samples[k].img
    decreases |samples|
  {
    if |samples| > 0 {
      var n := |samples| - 1;
      SplitByLabelAllPositive(samples[..n]);
    }
  }
}
