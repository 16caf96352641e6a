/**
 * What the CALFW/CPLFW pair-file scripts have in common: cleaning the raw
 * lines, reading `image label` rows, splitting the samples by label, pairing
 * consecutive items, and reading the label of a line without any guard.
 */
module PairFile {
  import opened Wrappers
  import opened Py

  /** One row of a pair file: an image name and its integer label. */
  datatype Sample = Sample(img: string, tag: int)

  /** Two images and whether they show the same person (1) or not (0). */
  datatype Pair = Pair(img1: string, img2: string, same: int)

  // ---------------------------------------------------------------------------
  // Cleaning

  /** A line as the scripts keep it: non-empty, no whitespace at either end. */
  predicate IsCleanLine(line: string) {
    line != [] && !IsSpace(line[0]) && !IsSpace(line[|line| - 1])
  }

  /** What one raw line contributes: its strip, or nothing when it is blank. */
  function CleanLine(line: string): (r: seq<string>)
    ensures |r| <= 1
    ensures r == [] <==> AllSpace(line)
    ensures r != [] ==> r[0] == Strip(line) && IsCleanLine(r[0])
  {
    var s := Strip(line);
    if s == [] then [] else [s]
  }

  /** `[line.strip() for line in lines if line.strip()]`: the stripped non-blank lines, in file order. */
  function CleanLines(raw: seq<string>): (r: seq<string>)
    ensures |r| <= |raw|
    ensures forall k :: 0 <= k < |r| ==> IsCleanLine(r[k])
  {
    if |raw| == 0 then [] else CleanLine(raw[0]) + CleanLines(raw[1..])
  }

  /** A single raw line contributes its strip, or nothing when it is blank. */
  lemma CleanLinesOne(line: string)
    ensures CleanLines([line]) == CleanLine(line)
  {
    assert [line][1..] == [];
  }

  /** Cleaning works line by line: the cleaned file is the cleaned parts, in order. */
  lemma {:induction false} CleanLinesAppend(a: seq<string>, b: seq<string>)
    ensures CleanLines(a + b) == CleanLines(a) + CleanLines(b)
    decreases |a|
  {
    if |a| > 0 {
      assert (a + b)[0] == a[0];
      assert (a + b)[1..] == a[1..] + b;
      CleanLinesAppend(a[1..], b);
      AppendAssoc(CleanLine(a[0]), CleanLines(a[1..]), CleanLines(b));
    } else {
      assert a + b == b;
    }
  }

  /** Cleaning already-clean lines changes nothing. */
  lemma {:induction false} CleanLinesIdempotent(raw: seq<string>)
    ensures CleanLines(CleanLines(raw)) == CleanLines(raw)
  {
    CleanLinesOfClean(CleanLines(raw));
  }

  lemma {:induction false} CleanLinesOfClean(lines: seq<string>)
    requires forall k :: 0 <= k < |lines| ==> IsCleanLine(lines[k])
    ensures CleanLines(lines) == lines
    decreases |lines|
  {
    if |lines| > 0 {
      StripTrimmed(lines[0]);
      CleanLinesOfClean(lines[1..]);
      assert lines == [lines[0]] + lines[1..];
    }
  }

  /** A clean line has at least one token. */
  lemma CleanLineHasToken(line: string)
    requires IsCleanLine(line)
    ensures |Split(line)| >= 1
  {
    SplitBlank(line);
  }

  // ---------------------------------------------------------------------------
  // Reading rows

  /**
   * One line as the loaders read it: a line with fewer than two tokens is
   * skipped (None); otherwise the first token is the image, the second must
   * parse as an int, and any further tokens are ignored.
   */
  function ParseLine(line: string): (r: Option<Result<Sample, Exception>>)
    ensures r.None? <==> |Split(line)| < 2
    ensures r.Some? ==> (r.value.Ok? <==> ParseInt(Split(line)[1]).Ok?)
    ensures r.Some? && r.value.Ok? ==> r.value.value == Sample(Split(line)[0], ParseInt(Split(line)[1]).value)
    ensures r.Some? && r.value.Err? ==> r.value.error == ValueError
  {
    var parts := Split(line);
    if |parts| < 2 then None
    else
      match ParseInt(parts[1])
      case Ok(n) => Some(Ok(Sample(parts[0], n)))
      case Err(e) => Some(Err(e))
  }

  /** Tokens after the second never change how a row is read. */
  lemma ParseLineIgnoresExtraTokens(img: string, tag: string, extra: seq<string>)
    requires IsToken(img) && IsToken(tag)
    requires forall k :: 0 <= k < |extra| ==> IsToken(extra[k])
    ensures ParseLine(Join(" ", [img, tag] + extra)) == ParseLine(img + " " + tag)
  {
    FirstTwoTokens(img, tag, extra);
    ParseLineOfTokens(Join(" ", [img, tag] + extra), img, tag);
    ParseLineOfTokens(img + " " + tag, img, tag);
  }

  /** Both lines split into `img` and `tag` first. */
  lemma FirstTwoTokens(img: string, tag: string, extra: seq<string>)
    requires IsToken(img) && IsToken(tag)
    requires forall k :: 0 <= k < |extra| ==> IsToken(extra[k])
    ensures var s := Split(Join(" ", [img, tag] + extra)); |s| >= 2 && s[0] == img && s[1] == tag
    ensures var s := Split(img + " " + tag); |s| >= 2 && s[0] == img && s[1] == tag
  {
    var long := [img, tag] + extra;
    forall k | 0 <= k < |long| ensures IsToken(long[k]) {
      if k >= 2 { assert long[k] == extra[k - 2]; }
    }
    SplitJoinRoundTrip(long);
    SplitJoinRoundTrip([img, tag]);
    assert Join(" ", [img, tag]) == img + " " + tag by {
      assert [img, tag][1..] == [tag];
    }
  }

  /** A row is read from its first two tokens alone. */
  lemma ParseLineOfTokens(line: string, img: string, tag: string)
    requires |Split(line)| >= 2 && Split(line)[0] == img && Split(line)[1] == tag
    ensures ParseLine(line) == match ParseInt(tag) { case Ok(n) => Some(Ok(Sample(img, n))) case Err(e) => Some(Err(e)) }
  {
  }

  /** `str(label)` is a single token. */
  lemma StrIsToken(n: int)
    ensures IsToken(Str(n))
  {
    var t := Str(n);
    var digits := NatDigits(if n < 0 then -n else n);
    if n < 0 {
      assert t == "-" + digits;
    } else {
      assert t == digits;
    }
    assert forall i :: 0 <= i < |t| ==> t[i] == '-' || IsDigit(t[i]);
  }

  /** Writing a sample as `image label` and reading the line back gives the sample. */
  lemma ParseLineRoundTrip(s: Sample)
    requires IsToken(s.img)
    ensures ParseLine(s.img + " " + Str(s.tag)) == Some(Ok(s))
  {
    StrIsToken(s.tag);
    var words := [s.img, Str(s.tag)];
    assert Join(" ", words) == s.img + " " + Str(s.tag) by {
      assert words[1..] == [Str(s.tag)];
    }
    SplitJoinRoundTrip(words);
    ParseIntFormatRoundTrip(s.tag, 0);
  }

  /** The row either is skipped or yields a sample: its label parsed. */
  predicate LabelParses(line: string) {
    ParseLine(line).None? || ParseLine(line).value.Ok?
  }

  /**
   * The reading loop of `load_pairs`, `check_pairs` and `test_load_pairs`:
   * every row with at least two tokens becomes a sample, in file order; a row
   * whose label is not an integer raises ValueError.
   */
  function ParseSamples(lines: seq<string>): (r: Result<seq<Sample>, Exception>)
    ensures r.Err? ==> r.error == ValueError
    ensures r.Ok? ==> |r.value| <= |lines|
  {
    if |lines| == 0 then Ok([])
    else
      var rest := ParseSamples(lines[1..]);
      match ParseLine(lines[0])
      case None => rest
      case Some(Err(e)) => Err(e)
      case Some(Ok(s)) => if rest.Err? then rest else Ok([s] + rest.value)
  }

  /** The file reads exactly when every row's label parses. */
  lemma {:induction false} ParseSamplesOk(lines: seq<string>)
    ensures ParseSamples(lines).Ok? <==> forall k :: 0 <= k < |lines| ==> LabelParses(lines[k])
    decreases |lines|
  {
    if |lines| > 0 {
      ParseSamplesOk(lines[1..]);
      assert forall k :: 1 <= k < |lines| ==> lines[k] == lines[1..][k - 1];
      assert ParseSamples(lines).Ok? <==> LabelParses(lines[0]) && ParseSamples(lines[1..]).Ok?;
    }
  }

  /** Every line holds a row: at least two tokens, none skipped. */
  predicate AllRows(lines: seq<string>) {
    forall k :: 0 <= k < |lines| ==> |Split(lines[k])| >= 2
  }

  /** When every line holds a row, each line gives one sample: its first token and its label. */
  lemma {:induction false} ParseSamplesAllRows(lines: seq<string>)
    requires AllRows(lines)
    requires ParseSamples(lines).Ok?
    ensures |ParseSamples(lines).value| == |lines|
    ensures forall k :: 0 <= k < |lines| ==>
      ParseSamples(lines).value[k].img == Split(lines[k])[0] && ReadLabel(lines[k]) == Ok(ParseSamples(lines).value[k].tag)
    decreases |lines|
  {
    if |lines| > 0 {
      var rest := lines[1..];
      forall k | 0 <= k < |rest|
        ensures |Split(rest[k])| >= 2
      {
        assert rest[k] == lines[k + 1];
      }
      ParseSamplesHead(lines);
      ParseSamplesAllRows(rest);
      var v := ParseSamples(lines).value;
      var w := ParseSamples(rest).value;
      forall k | 0 <= k < |lines|
        ensures v[k].img == Split(lines[k])[0] && ReadLabel(lines[k]) == Ok(v[k].tag)
      {
        if k > 0 {
          assert v[k] == w[k - 1] && lines[k] == rest[k - 1];
        }
      }
    }
  }

  /** A first line holding a row gives the first sample: its first token and its label. */
  lemma ParseSamplesHead(lines: seq<string>)
    requires |lines| > 0 && |Split(lines[0])| >= 2
    requires ParseSamples(lines).Ok?
    ensures ParseSamples(lines[1..]).Ok? && ReadLabel(lines[0]).Ok?
    ensures ParseSamples(lines).value == [Sample(Split(lines[0])[0], ReadLabel(lines[0]).value)] + ParseSamples(lines[1..]).value
  {
  }

  /** Reading works row by row: the samples of a file are those of its parts, in order. */
  lemma {:induction false} ParseSamplesAppend(a: seq<string>, b: seq<string>)
    ensures ParseSamples(a + b).Ok? <==> ParseSamples(a).Ok? && ParseSamples(b).Ok?
    ensures ParseSamples(a + b).Ok? ==> ParseSamples(a + b).value == ParseSamples(a).value + ParseSamples(b).value
    decreases |a|
  {
    if |a| == 0 {
      assert a + b == b;
    } else {
      assert (a + b)[0] == a[0];
      assert (a + b)[1..] == a[1..] + b;
      ParseSamplesAppend(a[1..], b);
      match ParseLine(a[0])
      case None =>
      case Some(Err(e)) =>
      case Some(Ok(s)) =>
        if ParseSamples(a + b).Ok? {
          assert ParseSamples(a + b).value == [s] + ParseSamples(a[1..] + b).value;
        }
    }
  }

  // ---------------------------------------------------------------------------
  // Splitting by label and pairing

  /**
   * The split of `load_pairs` and `test_load_pairs`: images of samples whose
   * label is exactly 1, then images of all other samples, each in file order.
   */
  function SplitByLabel(ss: seq<Sample>): (r: (seq<string>, seq<string>))
    ensures |r.0| + |r.1| == |ss|
    ensures forall k :: 0 <= k < |r.0| ==> Sample(r.0[k], 1) in ss
  {
    if |ss| == 0 then ([], [])
    else
      var init := SplitByLabel(ss[..|ss| - 1]);
      var s := ss[|ss| - 1];
      assert forall x :: x in ss[..|ss| - 1] ==> x in ss;
      if s.tag == 1 then (init.0 + [s.img], init.1) else (init.0, init.1 + [s.img])
  }

  /** The split is stable: splitting a file is splitting its parts and concatenating. */
  lemma {:induction false} SplitByLabelAppend(a: seq<Sample>, b: seq<Sample>)
    ensures SplitByLabel(a + b).0 == SplitByLabel(a).0 + SplitByLabel(b).0
    ensures SplitByLabel(a + b).1 == SplitByLabel(a).1 + SplitByLabel(b).1
    decreases |b|
  {
    if |b| == 0 {
      assert a + b == a;
    } else {
      var b' := b[..|b| - 1];
      assert (a + b)[..|a + b| - 1] == a + b';
      assert (a + b)[|a + b| - 1] == b[|b| - 1];
      SplitByLabelAppend(a, b');
    }
  }

  /** A sample labelled 1 goes to the positives, any other label to the negatives. */
  lemma SplitByLabelOne(s: Sample)
    ensures SplitByLabel([s]) == if s.tag == 1 then ([s.img], []) else ([], [s.img])
  {
    var ss := [s];
    assert ss[..|ss| - 1] == [];
    assert SplitByLabel(ss[..|ss| - 1]) == ([], []);
    assert ss[|ss| - 1] == s;
    if s.tag == 1 {
      assert SplitByLabel(ss) == ([] + [s.img], []);
      assert [] + [s.img] == [s.img];
    } else {
      assert SplitByLabel(ss) == ([], [] + [s.img]);
      assert [] + [s.img] == [s.img];
    }
  }

  /** The pairs `(group[i], group[i + 1])` of `for i in range(0, stop, 2)`, all with the given label. */
  function PairUp(group: seq<string>, stop: int, same: int): (r: seq<Pair>)
    requires stop <= |group| - 1
    ensures |r| == |StepPairs(group, 0, stop)|
    ensures forall k :: 0 <= k < |r| ==> r[k] == Pair(group[2 * k], group[2 * k + 1], same)
  {
    var ps := StepPairs(group, 0, stop);
    seq(|ps|, k requires 0 <= k < |ps| => Pair(ps[k].0, ps[k].1, same))
  }

  /**
   * `range(0, len(group) - 1, 2)`: floor(n/2) pairs, pair k being items 2k and
   * 2k+1; an odd last item is dropped.
   */
  function GroupPairs(group: seq<string>, same: int): (r: seq<Pair>)
    ensures |r| == |group| / 2
    ensures forall k :: 0 <= k < |r| ==> r[k] == Pair(group[2 * k], group[2 * k + 1], same)
  {
    AdjacentPairsCount(group, 0);
    PairUp(group, |group| - 1, same)
  }

  /** `range(0, min(10, len(group) - 1), 2)`: the first min(5, floor(n/2)) pairs of the uncapped pairing. */
  function CappedGroupPairs(group: seq<string>, same: int): (r: seq<Pair>)
    ensures |r| == Min(5, |group| / 2)
    ensures r == GroupPairs(group, same)[..|r|]
  {
    AdjacentPairsCount(group, 5);
    PairUp(group, Min(10, |group| - 1), same)
  }

  /** The images of a list of pairs, pair by pair. */
  function Flatten(pairs: seq<Pair>): (r: seq<string>)
    ensures |r| == 2 * |pairs|
  {
    if |pairs| == 0 then [] else [pairs[0].img1, pairs[0].img2] + Flatten(pairs[1..])
  }

  lemma {:induction false} FlattenIndex(pairs: seq<Pair>, i: nat)
    requires i < 2 * |pairs|
    ensures Flatten(pairs)[i] == if i % 2 == 0 then pairs[i / 2].img1 else pairs[i / 2].img2
    decreases |pairs|
  {
    if i >= 2 {
      FlattenIndex(pairs[1..], i - 2);
    }
  }

  /** Unpairing the consecutive pairs gives the group back, minus an odd last item. */
  lemma GroupPairsUnpair(group: seq<string>, same: int)
    ensures Flatten(GroupPairs(group, same)) == group[..2 * (|group| / 2)]
  {
    var ps := GroupPairs(group, same);
    forall i | 0 <= i < 2 * |ps|
      ensures Flatten(ps)[i] == group[i]
    {
      FlattenIndex(ps, i);
    }
  }

  // ---------------------------------------------------------------------------
  // Unguarded label reads

  /**
   * `int(line.split()[1])` as the debugging scripts write it, without a
   * length check: a short line raises IndexError, a non-integer ValueError.
   */
  function ReadLabel(line: string): (r: Result<int, Exception>)
    ensures r == Err(IndexError) <==> |Split(line)| < 2
    ensures r.Ok? ==> ParseInt(Split(line)[1]) == r
  {
    var parts := Split(line);
    if |parts| < 2 then Err(IndexError) else ParseInt(parts[1])
  }

  /**
   * The unguarded read and the loaders' read agree: a line the loaders skip
   * makes the unguarded read raise IndexError, and otherwise both see the same
   * label or both raise ValueError.
   */
  lemma ReadLabelAgreesWithParseLine(line: string)
    ensures ParseLine(line).None? <==> ReadLabel(line) == Err(IndexError)
    ensures ParseLine(line).Some? && ParseLine(line).value.Ok? <==> ReadLabel(line).Ok?
    ensures ReadLabel(line).Ok? ==> ReadLabel(line).value == ParseLine(line).value.value.tag
    ensures ParseLine(line).Some? && ParseLine(line).value.Err? <==> ReadLabel(line) == Err(ValueError)
  {
  }

  /** `range(0, len(lines) - 1, 2)` over the lines of a file: line 2k with line 2k+1. */
  function LinePairs(lines: seq<string>): (r: seq<(string, string)>)
    ensures |r| == |lines| / 2
    ensures forall k :: 0 <= k < |r| ==> r[k] == (lines[2 * k], lines[2 * k + 1])
  {
    AdjacentPairsCount(lines, 0);
    StepPairs(lines, 0, |lines| - 1)
  }

  /** The two label reads of one pair of lines, first line first: the first error raised, or both labels. */
  function Both(a: Result<int, Exception>, b: Result<int, Exception>): (r: Result<(int, int), Exception>)
    ensures r.Ok? <==> a.Ok? && b.Ok?
    ensures r.Ok? ==> r.value == (a.value, b.value)
    ensures r.Err? ==> r == (if a.Err? then Err(a.error) else Err(b.error))
  {
    if a.Err? then Err(a.error) else if b.Err? then Err(b.error) else Ok((a.value, b.value))
  }

  /** The label reads of each pair of lines. */
  function PairReads(ps: seq<(string, string)>): (rs: seq<Result<(int, int), Exception>>)
    ensures |rs| == |ps|
  {
    seq(|ps|, k requires 0 <= k < |ps| => Both(ReadLabel(ps[k].0), ReadLabel(ps[k].1)))
  }

  /** Reading a prefix of the pairs is the prefix of the reads. */
  lemma PairReadsPrefix(ps: seq<(string, string)>, n: nat)
    requires n <= |ps|
    ensures PairReads(ps[..n]) == PairReads(ps)[..n]
  {
  }

  /** Both labels of each pair of lines, read in loop order; the first failing read raises. */
  function ReadPairLabels(ps: seq<(string, string)>): (r: Result<seq<(int, int)>, Exception>)
    ensures r.Ok? ==> |r.value| == |ps|
  {
    Sequence(PairReads(ps))
  }

  /** The pairs read exactly when every label read succeeds, and then give those labels, pair by pair. */
  lemma ReadPairLabelsOk(ps: seq<(string, string)>)
    ensures ReadPairLabels(ps).Ok? <==> forall k :: 0 <= k < |ps| ==> ReadLabel(ps[k].0).Ok? && ReadLabel(ps[k].1).Ok?
    ensures ReadPairLabels(ps).Ok? ==> forall k :: 0 <= k < |ps| ==>
      Ok(ReadPairLabels(ps).value[k].0) == ReadLabel(ps[k].0) && Ok(ReadPairLabels(ps).value[k].1) == ReadLabel(ps[k].1)
  {
    var rs := PairReads(ps);
    SequenceOk(rs);
    assert forall k :: 0 <= k < |ps| ==> rs[k] == Both(ReadLabel(ps[k].0), ReadLabel(ps[k].1));
  }

  /** Once a prefix of the pairs raises, reading the whole list raises the same error. */
  lemma ReadPairLabelsFirstError(ps: seq<(string, string)>, n: nat)
    requires n <= |ps| && ReadPairLabels(ps[..n]).Err?
    ensures ReadPairLabels(ps) == ReadPairLabels(ps[..n])
  {
    PairReadsPrefix(ps, n);
    SequenceFirstError(PairReads(ps), n);
  }

  /** When the whole list reads, every prefix reads too, giving the first labels of the whole. */
  lemma ReadPairLabelsPrefix(ps: seq<(string, string)>, n: nat)
    requires n <= |ps| && ReadPairLabels(ps).Ok?
    ensures ReadPairLabels(ps[..n]) == Ok(ReadPairLabels(ps).value[..n])
  {
    PairReadsPrefix(ps, n);
    SequencePrefix(PairReads(ps), n);
  }

  /** One more pair of lines: read its two labels after those already read, in that order. */
  lemma ReadPairLabelsStep(ps: seq<(string, string)>, k: nat, labels: seq<(int, int)>)
    requires k < |ps| && ReadPairLabels(ps[..k]) == Ok(labels)
    ensures ReadLabel(ps[k].0).Err? ==> ReadPairLabels(ps[..k + 1]) == Err(ReadLabel(ps[k].0).error)
    ensures ReadLabel(ps[k].0).Ok? && ReadLabel(ps[k].1).Err? ==> ReadPairLabels(ps[..k + 1]) == Err(ReadLabel(ps[k].1).error)
    ensures ReadLabel(ps[k].0).Ok? && ReadLabel(ps[k].1).Ok? ==>
      ReadPairLabels(ps[..k + 1]) == Ok(labels + [(ReadLabel(ps[k].0).value, ReadLabel(ps[k].1).value)])
  {
    PairReadsPrefix(ps, k);
    PairReadsPrefix(ps, k + 1);
    SequenceStep(PairReads(ps), k, labels);
  }

  /** Number of label pairs whose two labels are equal. */
  function CountEqual(labels: seq<(int, int)>): (n: nat)
    ensures n <= |labels|
  {
    if |labels| == 0 then 0
    else CountEqual(labels[..|labels| - 1]) + (if labels[|labels| - 1].0 == labels[|labels| - 1].1 then 1 else 0)
  }

  /** One more pair of labels adds one to the count exactly when its labels are equal. */
  lemma CountEqualStep(labels: seq<(int, int)>, x: (int, int))
    ensures CountEqual(labels + [x]) == CountEqual(labels) + (if x.0 == x.1 then 1 else 0)
  {
    assert (labels + [x])[..|labels|] == labels;
  }
}
