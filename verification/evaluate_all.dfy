/**
 * The bookkeeping of the multi-dataset evaluator (`FaceVerificationEvaluator`):
 * loading the pairs of an `image label` pair file, balancing them, accounting
 * for every pair in the scoring loop, thresholding the scores, and counting
 * the confusion matrix with its TAR and FAR.
 */
module EvaluateAll {
  import opened Wrappers
  import opened Py
  import opened PairFile

  /** The two labels a pair can carry: 1 same person, 0 different persons. */
  predicate IsLabel(v: int) { v == 0 || v == 1 }

  // ---------------------------------------------------------------------------
  // load_pairs

  /**
   * The pairing half of `load_pairs`: floor(P/2) same-person pairs of
   * consecutive positives, then floor(N/2) different-person pairs of
   * consecutive negatives.
   */
  function PairsOf(samples: seq<Sample>): (r: seq<Pair>)
    ensures forall k :: 0 <= k < |r| ==> IsLabel(r[k].same)
  {
    var groups := SplitByLabel(samples);
    GroupPairs(groups.0, 1) + GroupPairs(groups.1, 0)
  }

  /** `load_pairs` on the lines of a file; a non-integer label raises ValueError. */
  function LoadPairs(raw: seq<string>): (r: Result<seq<Pair>, Exception>)
    ensures r.Ok? <==> ParseSamples(CleanLines(raw)).Ok?
    ensures r.Err? ==> r.error == ValueError
    ensures r.Ok? ==> r.value == PairsOf(ParseSamples(CleanLines(raw)).value)
  {
    var samples :- ParseSamples(CleanLines(raw));
    Ok(PairsOf(samples))
  }

  /**
   * The shape of the pair list: pair k < floor(P/2) is positives 2k and 2k+1
   * labelled 1; after them, pair floor(P/2) + j is negatives 2j and 2j+1
   * labelled 0; an odd last sample of either group is dropped.
   */
  lemma PairsOfShape(samples: seq<Sample>)
    ensures ShapedPairs(SplitByLabel(samples).0, SplitByLabel(samples).1, PairsOf(samples))
  {
    GroupPairsConcat(SplitByLabel(samples).0, SplitByLabel(samples).1, PairsOf(samples));
  }

  /**
   * Pair k < floor(|pos|/2) is positives 2k and 2k+1 labelled 1; pair
   * floor(|pos|/2) + j is negatives 2j and 2j+1 labelled 0; nothing else.
   */
  predicate ShapedPairs(pos: seq<string>, neg: seq<string>, r: seq<Pair>) {
    && |r| == |pos| / 2 + |neg| / 2
    && (forall k :: 0 <= k < |pos| / 2 ==> r[k] == Pair(pos[2 * k], pos[2 * k + 1], 1))
    && (forall j :: 0 <= j < |neg| / 2 ==> r[|pos| / 2 + j] == Pair(neg[2 * j], neg[2 * j + 1], 0))
  }

  /** The two pairings placed one after the other. */
  lemma GroupPairsConcat(pos: seq<string>, neg: seq<string>, r: seq<Pair>)
    requires r == GroupPairs(pos, 1) + GroupPairs(neg, 0)
    ensures ShapedPairs(pos, neg, r)
  {
    var a := GroupPairs(pos, 1);
    var b := GroupPairs(neg, 0);
    forall k | 0 <= k < |a|
      ensures r[k] == Pair(pos[2 * k], pos[2 * k + 1], 1)
    {
      assert r[k] == a[k];
    }
    forall j | 0 <= j < |b|
      ensures r[|a| + j] == Pair(neg[2 * j], neg[2 * j + 1], 0)
    {
      assert r[|a| + j] == b[j];
    }
  }

  /** A raw line with fewer than two tokens (a blank line included) reads as no sample. */
  lemma ShortLineNoSamples(line: string)
    requires |Split(line)| < 2
    ensures ParseSamples(CleanLines([line])) == Ok([])
  {
    CleanLinesOne(line);
    SplitStrip(line);
    var x := CleanLines([line]);
    if x != [] {
      assert x[1..] == [];
    }
  }

  /** Lines that read as no sample can be dropped from anywhere in the file. */
  lemma ParseSamplesSkip(ca: seq<string>, x: seq<string>, cb: seq<string>)
    requires ParseSamples(x) == Ok([])
    ensures ParseSamples(ca + (x + cb)) == ParseSamples(ca + cb)
  {
    ParseSamplesAppend(ca, x + cb);
    ParseSamplesAppend(x, cb);
    ParseSamplesAppend(ca, cb);
    if ParseSamples(x + cb).Ok? {
      assert [] + ParseSamples(cb).value == ParseSamples(cb).value;
    }
  }

  /** A raw line with fewer than two tokens (a blank line included) never changes what is loaded. */
  lemma LoadPairsIgnoresShortLine(a: seq<string>, line: string, b: seq<string>)
    requires |Split(line)| < 2
    ensures LoadPairs(a + [line] + b) == LoadPairs(a + b)
  {
    ShortLineNoSamples(line);
    CleanThree(a, line, b);
    ParseSamplesSkip(CleanLines(a), CleanLines([line]), CleanLines(b));
  }

  lemma CleanThree(a: seq<string>, line: string, b: seq<string>)
    ensures CleanLines(a + [line] + b) == CleanLines(a) + (CleanLines([line]) + CleanLines(b))
    ensures CleanLines(a + b) == CleanLines(a) + CleanLines(b)
  {
    CleanLinesAppend(a + [line], b);
    CleanLinesAppend(a, [line]);
    CleanLinesAppend(a, b);
    AppendAssoc(CleanLines(a), CleanLines([line]), CleanLines(b));
  }

  // ---------------------------------------------------------------------------
  // Balancing with max_pairs

  /** `[p for p in pairs if p['label'] == want]` */
  function WithLabel(pairs: seq<Pair>, want: int): (r: seq<Pair>)
    ensures |r| <= |pairs|
    ensures forall k :: 0 <= k < |r| ==> r[k].same == want && r[k] in pairs
  {
    if |pairs| == 0 then []
    else
      var rest := WithLabel(pairs[1..], want);
      assert forall k :: 0 <= k < |rest| ==> rest[k] in pairs;
      (if pairs[0].same == want then [pairs[0]] else []) + rest
  }

  /** Filtering works piece by piece and keeps the order. */
  lemma {:induction false} WithLabelAppend(a: seq<Pair>, b: seq<Pair>, want: int)
    ensures WithLabel(a + b, want) == WithLabel(a, want) + WithLabel(b, want)
    decreases |a|
  {
    if |a| == 0 {
      assert a + b == b;
    } else {
      var head := if a[0].same == want then [a[0]] else [];
      assert (a + b)[0] == a[0];
      assert (a + b)[1..] == a[1..] + b;
      assert WithLabel(a + b, want) == head + WithLabel(a[1..] + b, want);
      WithLabelAppend(a[1..], b, want);
      assert head + (WithLabel(a[1..], want) + WithLabel(b, want)) == (head + WithLabel(a[1..], want)) + WithLabel(b, want);
    }
  }

  /** Filtering a list whose every pair carries the label keeps all of it. */
  lemma {:induction false} WithLabelAll(pairs: seq<Pair>, want: int)
    requires forall k :: 0 <= k < |pairs| ==> pairs[k].same == want
    ensures WithLabel(pairs, want) == pairs
    decreases |pairs|
  {
    if |pairs| > 0 {
      WithLabelAll(pairs[1..], want);
      assert pairs == [pairs[0]] + pairs[1..];
    }
  }

  /** Filtering a list where no pair carries the label keeps nothing. */
  lemma {:induction false} WithLabelNone(pairs: seq<Pair>, want: int)
    requires forall k :: 0 <= k < |pairs| ==> pairs[k].same != want
    ensures WithLabel(pairs, want) == []
    decreases |pairs|
  {
    if |pairs| > 0 {
      WithLabelNone(pairs[1..], want);
    }
  }

  /** A label-0/1 list splits into its same-person and different-person pairs. */
  lemma {:induction false} WithLabelPartition(pairs: seq<Pair>)
    requires forall k :: 0 <= k < |pairs| ==> IsLabel(pairs[k].same)
    ensures |WithLabel(pairs, 1)| + |WithLabel(pairs, 0)| == |pairs|
    decreases |pairs|
  {
    if |pairs| > 0 {
      WithLabelPartition(pairs[1..]);
    }
  }

  /** Python's truthiness of `max_pairs`: neither None nor 0. */
  predicate Truthy(maxPairs: Option<int>) { maxPairs.Some? && maxPairs.value != 0 }

  /**
   * The `max_pairs` step of `evaluate_dataset`: when `max_pairs` is truthy,
   * the first `max_pairs // 2` same-person pairs followed by the first
   * `max_pairs // 2` different-person pairs; otherwise the list unchanged.
   */
  function Balance(pairs: seq<Pair>, maxPairs: Option<int>): (r: seq<Pair>)
    ensures !Truthy(maxPairs) ==> r == pairs
    ensures Truthy(maxPairs) && maxPairs.value > 0 ==> |r| <= maxPairs.value
    ensures forall k :: 0 <= k < |r| ==> r[k] in pairs
  {
    if Truthy(maxPairs) then
      var half := maxPairs.value / 2;
      var same := Take(WithLabel(pairs, 1), half);
      var diff := Take(WithLabel(pairs, 0), half);
      assert forall k :: 0 <= k < |same| ==> same[k] == WithLabel(pairs, 1)[k];
      assert forall k :: 0 <= k < |diff| ==> diff[k] == WithLabel(pairs, 0)[k];
      same + diff
    else pairs
  }

  /**
   * For a positive `max_pairs` the balanced list holds the first
   * min(h, S) same-person pairs, in their original order, and the first
   * min(h, D) different-person pairs, with h = max_pairs // 2.
   */
  lemma BalanceCounts(pairs: seq<Pair>, m: int)
    requires m > 0
    ensures var r := Balance(pairs, Some(m));
      WithLabel(r, 1) == WithLabel(pairs, 1)[..Min(m / 2, |WithLabel(pairs, 1)|)]
      && WithLabel(r, 0) == WithLabel(pairs, 0)[..Min(m / 2, |WithLabel(pairs, 0)|)]
  {
    var same := Take(WithLabel(pairs, 1), m / 2);
    var diff := Take(WithLabel(pairs, 0), m / 2);
    assert Balance(pairs, Some(m)) == same + diff;
    assert forall k :: 0 <= k < |same| ==> same[k] == WithLabel(pairs, 1)[k];
    assert forall k :: 0 <= k < |diff| ==> diff[k] == WithLabel(pairs, 0)[k];
    WithLabelAppend(same, diff, 1);
    WithLabelAppend(same, diff, 0);
    WithLabelAll(same, 1);
    WithLabelNone(diff, 1);
    WithLabelAll(diff, 0);
    WithLabelNone(same, 0);
    assert [] + diff == diff;
  }

  /**
   * A truthy `max_pairs` puts every kept same-person pair before every kept
   * different-person pair: the balanced list is its label-1 pairs followed by
   * its label-0 pairs.
   */
  lemma BalanceSameFirst(pairs: seq<Pair>, maxPairs: Option<int>)
    requires Truthy(maxPairs)
    ensures var r := Balance(pairs, maxPairs); r == WithLabel(r, 1) + WithLabel(r, 0)
  {
    var half := maxPairs.value / 2;
    var same := Take(WithLabel(pairs, 1), half);
    var diff := Take(WithLabel(pairs, 0), half);
    assert Balance(pairs, maxPairs) == same + diff;
    assert forall k :: 0 <= k < |same| ==> same[k] == WithLabel(pairs, 1)[k];
    assert forall k :: 0 <= k < |diff| ==> diff[k] == WithLabel(pairs, 0)[k];
    WithLabelAppend(same, diff, 1);
    WithLabelAppend(same, diff, 0);
    WithLabelAll(same, 1);
    WithLabelNone(diff, 1);
    WithLabelAll(diff, 0);
    WithLabelNone(same, 0);
    assert same + [] == same;
    assert [] + diff == diff;
  }

  /** The same-person pairs of a loaded list are those built from the positives, and likewise for the negatives. */
  lemma PairsOfLabels(samples: seq<Sample>)
    ensures WithLabel(PairsOf(samples), 1) == GroupPairs(SplitByLabel(samples).0, 1)
    ensures WithLabel(PairsOf(samples), 0) == GroupPairs(SplitByLabel(samples).1, 0)
  {
    var a := GroupPairs(SplitByLabel(samples).0, 1);
    var b := GroupPairs(SplitByLabel(samples).1, 0);
    assert PairsOf(samples) == a + b;
    WithLabelAppend(a, b, 1);
    WithLabelAppend(a, b, 0);
    WithLabelAll(a, 1);
    WithLabelNone(b, 1);
    WithLabelAll(b, 0);
    WithLabelNone(a, 0);
    assert a + [] == a;
  }

  // ---------------------------------------------------------------------------
  // The scoring loop

  /** `score / 100.0`: a service score in percent, normalised to the [0, 1] scale. */
  function Normalise(score: real): (r: real)
    ensures r * 100.0 == score
  {
    score / 100.0
  }

  /**
   * One iteration of the scoring loop: the pair is scored only when both image
   * files exist and the service returns a score, which is stored divided by 100.
   */
  function Attempt(dir: string, p: Pair, fileExists: string -> bool, score: (string, string) -> Option<real>): (r: Option<real>)
    ensures r.Some? <==> fileExists(PathJoin(dir, p.img1)) && fileExists(PathJoin(dir, p.img2))
                         && score(PathJoin(dir, p.img1), PathJoin(dir, p.img2)).Some?
    ensures r.Some? ==> r.value * 100.0 == score(PathJoin(dir, p.img1), PathJoin(dir, p.img2)).value
  {
    var path1 := PathJoin(dir, p.img1);
    var path2 := PathJoin(dir, p.img2);
    if !fileExists(path1) then None
    else if !fileExists(path2) then None
    else
      var s :- score(path1, path2);
      Some(Normalise(s))
  }

  /** The labels and normalised scores of the pairs that were scored, in order. */
  function Scored(dir: string, pairs: seq<Pair>, fileExists: string -> bool, score: (string, string) -> Option<real>): (r: (seq<int>, seq<real>))
    ensures |r.0| == |r.1| <= |pairs|
  {
    if |pairs| == 0 then ([], [])
    else
      var init := Scored(dir, pairs[..|pairs| - 1], fileExists, score);
      var p := pairs[|pairs| - 1];
      match Attempt(dir, p, fileExists, score)
      case None => init
      case Some(s) => (init.0 + [p.same], init.1 + [s])
  }

  /** Every evaluated label is the label of some pair, so 0/1 pairs give 0/1 labels. */
  lemma {:induction false} ScoredLabels(dir: string, pairs: seq<Pair>, fileExists: string -> bool, score: (string, string) -> Option<real>)
    requires forall k :: 0 <= k < |pairs| ==> IsLabel(pairs[k].same)
    ensures forall k :: 0 <= k < |Scored(dir, pairs, fileExists, score).0| ==> IsLabel(Scored(dir, pairs, fileExists, score).0[k])
    decreases |pairs|
  {
    if |pairs| > 0 {
      var init := pairs[..|pairs| - 1];
      assert forall k :: 0 <= k < |init| ==> init[k] == pairs[k];
      ScoredLabels(dir, init, fileExists, score);
    }
  }

  /** When every image file exists and the service always answers, every pair is evaluated, with its own label, in order. */
  lemma {:induction false} ScoredAll(dir: string, pairs: seq<Pair>, fileExists: string -> bool, score: (string, string) -> Option<real>)
    requires forall path :: fileExists(path)
    requires forall a, b :: score(a, b).Some?
    ensures |Scored(dir, pairs, fileExists, score).0| == |pairs|
    ensures forall k :: 0 <= k < |pairs| ==> Scored(dir, pairs, fileExists, score).0[k] == pairs[k].same
    decreases |pairs|
  {
    if |pairs| > 0 {
      var n := |pairs| - 1;
      var init := pairs[..n];
      ScoredAll(dir, init, fileExists, score);
      var before := Scored(dir, init, fileExists, score).0;
      var after := Scored(dir, pairs, fileExists, score).0;
      assert Attempt(dir, pairs[n], fileExists, score).Some?;
      assert after == before + [pairs[n].same];
      forall k | 0 <= k < |pairs|
        ensures after[k] == pairs[k].same
      {
        if k < n {
          assert after[k] == before[k] && init[k] == pairs[k];
        }
      }
    }
  }

  /** When no image file exists, nothing is evaluated. */
  lemma {:induction false} ScoredNoFiles(dir: string, pairs: seq<Pair>, fileExists: string -> bool, score: (string, string) -> Option<real>)
    requires forall path :: !fileExists(path)
    ensures Scored(dir, pairs, fileExists, score).0 == []
    decreases |pairs|
  {
    if |pairs| > 0 {
      ScoredNoFiles(dir, pairs[..|pairs| - 1], fileExists, score);
    }
  }

  /**
   * The loop of `evaluate_dataset`: a missing image or a failed request counts
   * the pair as failed, any other pair is evaluated; every pair is counted
   * exactly once.
   */
  method CollectScores(dir: string, pairs: seq<Pair>, fileExists: string -> bool, score: (string, string) -> Option<real>)
    returns (yTrue: seq<int>, yScores: seq<real>, failed: nat)
    ensures (yTrue, yScores) == Scored(dir, pairs, fileExists, score)
    ensures |yTrue| + failed == |pairs|
  {
    yTrue, yScores, failed := [], [], 0;
    for i := 0 to |pairs|
      invariant (yTrue, yScores) == Scored(dir, pairs[..i], fileExists, score)
      invariant |yTrue| + failed == i
    {
      assert pairs[..i + 1][..i] == pairs[..i];
      var path1 := PathJoin(dir, pairs[i].img1);
      var path2 := PathJoin(dir, pairs[i].img2);
      if !fileExists(path1) {
        failed := failed + 1;
        continue;
      }
      if !fileExists(path2) {
        failed := failed + 1;
        continue;
      }
      var s := score(path1, path2);
      if s.Some? {
        yTrue := yTrue + [pairs[i].same];
        yScores := yScores + [Normalise(s.value)];
      } else {
        failed := failed + 1;
      }
    }
    assert pairs[..|pairs|] == pairs;
  }

  // ---------------------------------------------------------------------------
  // Predictions and counts

  /** `xs.count(v)`: never more than the list holds, and zero exactly when `v` is absent. */
  function CountOf(xs: seq<int>, v: int): (n: nat)
    ensures n <= |xs|
    ensures n == 0 <==> v !in xs
  {
    if |xs| == 0 then 0 else (if xs[0] == v then 1 else 0) + CountOf(xs[1..], v)
  }

  /** `[1 if score >= threshold else 0 for score in scores]`: the inclusive threshold of this evaluator. */
  function PredictAtLeast(scores: seq<real>, threshold: real): (r: seq<int>)
    ensures |r| == |scores|
    ensures forall k :: 0 <= k < |r| ==> IsLabel(r[k]) && (r[k] == 1 <==> scores[k] >= threshold)
  {
    seq(|scores|, k requires 0 <= k < |scores| => if scores[k] >= threshold then 1 else 0)
  }

  /** Raising the threshold never adds a predicted positive. */
  lemma {:induction false} PredictAtLeastMonotone(scores: seq<real>, lo: real, hi: real)
    requires lo <= hi
    ensures CountOf(PredictAtLeast(scores, hi), 1) <= CountOf(PredictAtLeast(scores, lo), 1)
    decreases |scores|
  {
    if |scores| > 0 {
      PredictAtLeastMonotone(scores[1..], lo, hi);
      assert PredictAtLeast(scores, hi)[1..] == PredictAtLeast(scores[1..], hi);
      assert PredictAtLeast(scores, lo)[1..] == PredictAtLeast(scores[1..], lo);
    }
  }

  /** The four cells of the confusion matrix. */
  datatype Confusion = Confusion(tp: nat, fp: nat, tn: nat, fn: nat)

  /**
   * `sum([1 for t, p in zip(y_true, y_pred) if t == want and p == predicted])`:
   * the samples of one cell, `zip` stopping at the shorter list.
   */
  function CountWhere(yTrue: seq<int>, yPred: seq<int>, want: int, predicted: int): (n: nat)
    ensures n <= |yTrue| && n <= |yPred|
  {
    if |yTrue| == 0 || |yPred| == 0 then 0
    else (if yTrue[0] == want && yPred[0] == predicted then 1 else 0) + CountWhere(yTrue[1..], yPred[1..], want, predicted)
  }

  /**
   * The four cell counts `tp_*`, `fp_*`, `tn_*` and `fn_*`; a label or
   * prediction other than 0/1 falls in no cell.
   */
  function ConfusionOf(yTrue: seq<int>, yPred: seq<int>): (c: Confusion)
    ensures c.tp + c.fp + c.tn + c.fn <= |yTrue| && c.tp + c.fp + c.tn + c.fn <= |yPred|
  {
    CellsBound(yTrue, yPred);
    Confusion(CountWhere(yTrue, yPred, 1, 1), CountWhere(yTrue, yPred, 0, 1),
              CountWhere(yTrue, yPred, 0, 0), CountWhere(yTrue, yPred, 1, 0))
  }

  /** A sample falls in at most one of the four cells. */
  lemma {:induction false} CellsBound(yTrue: seq<int>, yPred: seq<int>)
    ensures CountWhere(yTrue, yPred, 1, 1) + CountWhere(yTrue, yPred, 0, 1)
          + CountWhere(yTrue, yPred, 0, 0) + CountWhere(yTrue, yPred, 1, 0) <= |yTrue|
    ensures CountWhere(yTrue, yPred, 1, 1) + CountWhere(yTrue, yPred, 0, 1)
          + CountWhere(yTrue, yPred, 0, 0) + CountWhere(yTrue, yPred, 1, 0) <= |yPred|
    decreases |yTrue|
  {
    if |yTrue| > 0 && |yPred| > 0 {
      CellsBound(yTrue[1..], yPred[1..]);
    }
  }

  /** Cellwise sum of two confusion matrices. */
  function Plus(c: Confusion, d: Confusion): Confusion
  {
    Confusion(c.tp + d.tp, c.fp + d.fp, c.tn + d.tn, c.fn + d.fn)
  }

  /** One sample adds one to the cell of its (label, prediction), and nothing when either is not 0/1. */
  lemma ConfusionOfOne(t: int, p: int)
    ensures ConfusionOf([t], [p]) == Confusion(
      if t == 1 && p == 1 then 1 else 0, if t == 0 && p == 1 then 1 else 0,
      if t == 0 && p == 0 then 1 else 0, if t == 1 && p == 0 then 1 else 0)
  {
    assert [t][1..] == [] && [p][1..] == [];
  }

  /** Counting works piece by piece over zipped lists of equal length. */
  lemma ConfusionOfAppend(a: seq<int>, x: seq<int>, b: seq<int>, y: seq<int>)
    requires |a| == |x|
    ensures ConfusionOf(a + b, x + y) == Plus(ConfusionOf(a, x), ConfusionOf(b, y))
  {
    var c, d, e := ConfusionOf(a, x), ConfusionOf(b, y), ConfusionOf(a + b, x + y);
    assert e.tp == c.tp + d.tp by { CountWhereAppend(a, x, b, y, 1, 1); }
    assert e.fp == c.fp + d.fp by { CountWhereAppend(a, x, b, y, 0, 1); }
    assert e.tn == c.tn + d.tn by { CountWhereAppend(a, x, b, y, 0, 0); }
    assert e.fn == c.fn + d.fn by { CountWhereAppend(a, x, b, y, 1, 0); }
  }

  /** One cell's count works piece by piece over zipped lists of equal length. */
  lemma {:induction false} CountWhereAppend(a: seq<int>, x: seq<int>, b: seq<int>, y: seq<int>, want: int, predicted: int)
    requires |a| == |x|
    ensures CountWhere(a + b, x + y, want, predicted) == CountWhere(a, x, want, predicted) + CountWhere(b, y, want, predicted)
    decreases |a|
  {
    if |a| == 0 {
      assert a + b == b && x + y == y;
    } else {
      assert (a + b)[0] == a[0] && (x + y)[0] == x[0];
      assert (a + b)[1..] == a[1..] + b && (x + y)[1..] == x[1..] + y;
      CountWhereAppend(a[1..], x[1..], b, y, want, predicted);
    }
  }

  /**
   * For 0/1 labels and predictions of equal length, the cells cover every
   * sample once, tp + fn counts the label-1 samples, fp + tn the label-0
   * samples, and tp + fp the predicted positives.
   */
  lemma {:induction false} ConfusionTotals(yTrue: seq<int>, yPred: seq<int>)
    requires |yTrue| == |yPred|
    requires forall k :: 0 <= k < |yTrue| ==> IsLabel(yTrue[k]) && IsLabel(yPred[k])
    ensures var c := ConfusionOf(yTrue, yPred); c.tp + c.fp + c.tn + c.fn == |yTrue|
    ensures var c := ConfusionOf(yTrue, yPred); c.tp + c.fn == CountOf(yTrue, 1)
    ensures var c := ConfusionOf(yTrue, yPred); c.fp + c.tn == CountOf(yTrue, 0)
    ensures var c := ConfusionOf(yTrue, yPred); c.tp + c.fp == CountOf(yPred, 1)
    decreases |yTrue|
  {
    if |yTrue| > 0 {
      ConfusionTotals(yTrue[1..], yPred[1..]);
    }
  }

  /** `num / (num + other) if num + other > 0 else 0` */
  function Rate(num: nat, other: nat): (r: real)
    ensures 0.0 <= r <= 1.0
    ensures num + other == 0 ==> r == 0.0
    ensures num + other > 0 ==> r * (num + other) as real == num as real
  {
    if num + other > 0 then num as real / (num + other) as real else 0.0
  }

  /** True acceptance rate: the share of label-1 samples predicted positive, 0 when there are none. */
  function Tar(c: Confusion): (r: real)
    ensures 0.0 <= r <= 1.0
    ensures c.tp + c.fn == 0 ==> r == 0.0
    ensures c.tp + c.fn > 0 ==> r * (c.tp + c.fn) as real == c.tp as real
  {
    Rate(c.tp, c.fn)
  }

  /** False acceptance rate: the share of label-0 samples predicted positive, 0 when there are none. */
  function Far(c: Confusion): (r: real)
    ensures 0.0 <= r <= 1.0
    ensures c.fp + c.tn == 0 ==> r == 0.0
    ensures c.fp + c.tn > 0 ==> r * (c.fp + c.tn) as real == c.fp as real
  {
    Rate(c.fp, c.tn)
  }

  // ---------------------------------------------------------------------------
  // evaluate_dataset

  /** The counts and rates reported for one threshold; the threshold, TAR and FAR are in percent. */
  datatype Metrics = Metrics(thresholdPercent: real, counts: Confusion, tar: real, far: real)

  /** The part of the result dictionary this model computes. */
  datatype Report = Report(totalPairs: nat, evaluatedPairs: nat, failedPairs: nat, optimal: Metrics, atDefault: Metrics)

  /** The fixed threshold, on the normalised [0, 1] scale. */
  const DefaultThreshold: real := 0.65

  /**
   * Confusion counts of the inclusive predictions at one threshold, with TAR
   * and FAR reported as percentages (`tar * 100`, `far * 100`).
   */
  function MetricsAt(yTrue: seq<int>, yScores: seq<real>, threshold: real, percent: real): (m: Metrics)
    requires |yTrue| == |yScores|
    requires forall k :: 0 <= k < |yTrue| ==> IsLabel(yTrue[k])
    ensures m.counts == ConfusionOf(yTrue, PredictAtLeast(yScores, threshold))
    ensures m.counts.tp + m.counts.fp + m.counts.tn + m.counts.fn == |yTrue|
    ensures m.counts.tp + m.counts.fn == CountOf(yTrue, 1)
    ensures m.tar == 100.0 * Tar(m.counts) && m.far == 100.0 * Far(m.counts) && m.thresholdPercent == percent
    ensures 0.0 <= m.tar <= 100.0 && 0.0 <= m.far <= 100.0
  {
    var pred := PredictAtLeast(yScores, threshold);
    var c := ConfusionOf(yTrue, pred);
    ConfusionTotals(yTrue, pred);
    Metrics(percent, c, 100.0 * Tar(c), 100.0 * Far(c))
  }

  /**
   * The report's two metric blocks are the inclusive-prediction metrics at the
   * fixed threshold and at `optimal`, each with its threshold in percent.
   */
  predicate ReportsMetrics(rep: Report, yTrue: seq<int>, yScores: seq<real>, optimal: real)
    requires |yTrue| == |yScores|
    requires forall k :: 0 <= k < |yTrue| ==> IsLabel(yTrue[k])
  {
    && rep.atDefault == MetricsAt(yTrue, yScores, DefaultThreshold, 65.0)
    && rep.optimal == MetricsAt(yTrue, yScores, optimal, optimal * 100.0)
  }

  /**
   * `evaluate_dataset`: load, balance, score every pair, and report; None when
   * no pair could be evaluated. The ROC-optimal threshold is supplied by
   * `optimalThreshold`.
   */
  method EvaluateDataset(raw: seq<string>, dir: string, maxPairs: Option<int>,
                         fileExists: string -> bool, score: (string, string) -> Option<real>,
                         optimalThreshold: (seq<int>, seq<real>) -> real)
    returns (r: Result<Option<Report>, Exception>)
    ensures r.Err? <==> LoadPairs(raw).Err?
    ensures r.Err? ==> r.error == ValueError
    ensures r.Ok? ==> (r.value.None? <==> |Scored(dir, Balance(LoadPairs(raw).value, maxPairs), fileExists, score).0| == 0)
    ensures r.Ok? && r.value.Some? ==>
      var rep := r.value.value;
      && rep.totalPairs == |Balance(LoadPairs(raw).value, maxPairs)|
      && rep.evaluatedPairs > 0
      && rep.evaluatedPairs + rep.failedPairs == rep.totalPairs
      && rep.atDefault.thresholdPercent == 65.0
      && rep.optimal.counts.tp + rep.optimal.counts.fp + rep.optimal.counts.tn + rep.optimal.counts.fn == rep.evaluatedPairs
      && rep.atDefault.counts.tp + rep.atDefault.counts.fp + rep.atDefault.counts.tn + rep.atDefault.counts.fn == rep.evaluatedPairs
    ensures r.Ok? && r.value.Some? ==>
      var rep := r.value.value;
      var s := Scored(dir, Balance(LoadPairs(raw).value, maxPairs), fileExists, score);
      && rep.evaluatedPairs == |s.0|
      && (forall k :: 0 <= k < |s.0| ==> IsLabel(s.0[k]))
      && ReportsMetrics(rep, s.0, s.1, optimalThreshold(s.0, s.1))
  {
    var loaded := LoadPairs(raw);
    if loaded.Err? {
      return Err(loaded.error);
    }
    var pairs := Balance(loaded.value, maxPairs);
    assert forall k :: 0 <= k < |pairs| ==> IsLabel(pairs[k].same);
    var yTrue, yScores, failed := CollectScores(dir, pairs, fileExists, score);
    ScoredLabels(dir, pairs, fileExists, score);
    if |yTrue| == 0 {
      return Ok(None);
    }
    ghost var s := Scored(dir, Balance(LoadPairs(raw).value, maxPairs), fileExists, score);
    assert s.0 == yTrue && s.1 == yScores;
    var optimal := optimalThreshold(yTrue, yScores);
    var mOpt := MetricsAt(yTrue, yScores, optimal, optimal * 100.0);
    var mDef := MetricsAt(yTrue, yScores, DefaultThreshold, 65.0);
    var rep := Report(|pairs|, |yTrue|, failed, mOpt, mDef);
    assert ReportsMetrics(rep, s.0, s.1, optimal);
    return Ok(Some(rep));
  }
}
