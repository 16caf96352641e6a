/**
 * `test_load_pairs`: the loader's split by label, with each group's pairing
 * capped at its first five pairs, a preview of the first ten pairs, and the
 * label counts.
 */
module TestParsing {
  import opened Wrappers
  import opened Py
  import opened PairFile
  import opened EvaluateAll

  /** What `test_load_pairs` reports. */
  datatype ParsingReport = ParsingReport(positives: nat, negatives: nat, pairs: seq<Pair>, preview: seq<Pair>, label1: nat, label0: nat)

  /** Pairs shown in the preview. */
  const PreviewSize: nat := 10

  /** The same-person pairs of a capped list are exactly those of its positive group, and likewise for the negatives. */
  lemma CappedLabels(pos: seq<string>, neg: seq<string>)
    ensures var pairs := CappedGroupPairs(pos, 1) + CappedGroupPairs(neg, 0);
      && WithLabel(pairs, 1) == CappedGroupPairs(pos, 1)
      && WithLabel(pairs, 0) == CappedGroupPairs(neg, 0)
  {
    var a := CappedGroupPairs(pos, 1);
    var b := CappedGroupPairs(neg, 0);
    assert forall k :: 0 <= k < |a| ==> a[k] == GroupPairs(pos, 1)[k];
    assert forall k :: 0 <= k < |b| ==> b[k] == GroupPairs(neg, 0)[k];
    WithLabelAppend(a, b, 1);
    WithLabelAppend(a, b, 0);
    WithLabelAll(a, 1);
    WithLabelNone(b, 1);
    WithLabelAll(b, 0);
    WithLabelNone(a, 0);
    assert a + [] == a;
    assert [] + b == b;
  }

  /**
   * `test_load_pairs` on the lines of a file: the rows are split by label as
   * the loader does (a non-integer label raises ValueError), at most five
   * same-person and five different-person pairs are built, the same-person
   * ones first, each group's in pairing order, and the two label counts add
   * up to the number of pairs.
   */
  function TestLoadPairs(raw: seq<string>): (r: Result<ParsingReport, Exception>)
    ensures r.Ok? <==> ParseSamples(CleanLines(raw)).Ok?
    ensures r.Err? ==> r.error == ValueError
    ensures r.Ok? ==>
      var groups := SplitByLabel(ParseSamples(CleanLines(raw)).value);
      && r.value.positives == |groups.0| && r.value.negatives == |groups.1|
      && r.value.label1 == Min(5, |groups.0| / 2) && r.value.label0 == Min(5, |groups.1| / 2)
      && r.value.label1 + r.value.label0 == |r.value.pairs|
      && WithLabel(r.value.pairs, 1) == GroupPairs(groups.0, 1)[..r.value.label1]
      && WithLabel(r.value.pairs, 0) == GroupPairs(groups.1, 0)[..r.value.label0]
      && r.value.pairs == WithLabel(r.value.pairs, 1) + WithLabel(r.value.pairs, 0)
      && |r.value.preview| == Min(PreviewSize, |r.value.pairs|) && r.value.preview == r.value.pairs[..|r.value.preview|]
  {
    var samples :- ParseSamples(CleanLines(raw));
    var groups := SplitByLabel(samples);
    var pairs := CappedGroupPairs(groups.0, 1) + CappedGroupPairs(groups.1, 0);
    CappedLabels(groups.0, groups.1);
    Ok(ParsingReport(|groups.0|, |groups.1|, pairs, Take(pairs, PreviewSize), |WithLabel(pairs, 1)|, |WithLabel(pairs, 0)|))
  }

  /**
   * The test script builds exactly what the evaluator's loader followed by
   * `max_pairs = 10` balancing builds: the first five same-person pairs,
   * then the first five different-person pairs.
   */
  lemma TestLoadPairsIsBalancedLoad(raw: seq<string>)
    requires TestLoadPairs(raw).Ok?
    ensures LoadPairs(raw).Ok?
    ensures TestLoadPairs(raw).value.pairs == Balance(LoadPairs(raw).value, Some(10))
  {
    var samples := ParseSamples(CleanLines(raw)).value;
    var groups := SplitByLabel(samples);
    var loaded := LoadPairs(raw).value;
    PairsOfLabels(samples);
    var same := Take(WithLabel(loaded, 1), 5);
    var diff := Take(WithLabel(loaded, 0), 5);
    assert Balance(loaded, Some(10)) == same + diff;
    assert same == CappedGroupPairs(groups.0, 1);
    assert diff == CappedGroupPairs(groups.1, 0);
  }
}
