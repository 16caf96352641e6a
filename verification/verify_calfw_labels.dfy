/**
 * `verify_calfw_labels.py`: a person's name read from an image file name
 * (`First_Last_0001.jpg`), two ways; three hard-coded label-1 pairs compared
 * by name; and the names of the first three lines ending in " 0".
 */
module VerifyCalfwLabels {
  import opened Wrappers
  import opened Py
  import opened PairFile

  /**
   * `img.split('_')[0] + '_' + img.split('_')[1]`: the first two
   * underscore-separated pieces; a name without an underscore raises
   * IndexError.
   */
  function NameOf(img: string): (r: Result<string, Exception>)
    ensures r.Err? <==> '_' !in img
    ensures r.Err? ==> r.error == IndexError
    ensures r.Ok? ==> Count(r.value, '_') == 1
  {
    var parts := SplitOn(img, '_');
    CountPositive(img, '_');
    if |parts| < 2 then Err(IndexError)
    else
      FirstTwoCount(parts[0], parts[1]);
      Ok(parts[0] + "_" + parts[1])
  }

  /**
   * `'_'.join(img.split('_')[:2])`: never raises; the name is the start of
   * the file name up to its second underscore, holding at most one
   * underscore, and the whole file name when it has at most one.
   */
  function JoinedName(img: string): (r: string)
    ensures |r| <= |img| && r == img[..|r|]
    ensures Count(r, '_') <= 1
    ensures Count(img, '_') <= 1 ==> r == img
    ensures '_' !in img ==> r == img
  {
    var parts := SplitOn(img, '_');
    JoinedNameShape(img);
    Join("_", Take(parts, 2))
  }

  /** The facts behind `JoinedName`. */
  lemma JoinedNameShape(img: string)
    ensures var r := Join("_", Take(SplitOn(img, '_'), 2));
      && |r| <= |img| && r == img[..|r|]
      && Count(r, '_') <= 1
      && (Count(img, '_') <= 1 ==> r == img)
      && ('_' !in img ==> r == img)
  {
    var parts := SplitOn(img, '_');
    CountPositive(img, '_');
    if |parts| == 1 {
      assert Take(parts, 2) == parts;
      JoinSplitOn(img, '_');
      assert "_" == ['_'];
      assert Join("_", parts) == parts[0];
    } else {
      JoinTwo(parts);
      FirstTwoPrefix(img);
      FirstTwoCount(parts[0], parts[1]);
      if |parts| == 2 {
        assert Take(parts, 2) == parts;
        JoinSplitOn(img, '_');
        assert "_" == ['_'];
      }
    }
  }

  /** Joining the first two pieces puts one underscore between them. */
  lemma JoinTwo(parts: seq<string>)
    requires |parts| >= 2
    ensures Join("_", Take(parts, 2)) == parts[0] + "_" + parts[1]
  {
    assert Take(parts, 2) == [parts[0], parts[1]];
    assert [parts[0], parts[1]][1..] == [parts[1]];
  }

  /** The first two pieces with their underscore are where the file name starts. */
  lemma FirstTwoPrefix(img: string)
    requires |SplitOn(img, '_')| >= 2
    ensures var parts := SplitOn(img, '_'); var r := parts[0] + "_" + parts[1];
      |r| <= |img| && img[..|r|] == r
  {
    var parts := SplitOn(img, '_');
    JoinSplitOn(img, '_');
    assert "_" == ['_'];
    JoinHead("_", parts);
    var tail := Join("_", parts[1..]);
    assert img == parts[0] + "_" + tail;
    assert tail[..|parts[1]|] == parts[1];
  }

  /** Two underscore-free pieces joined by one underscore hold exactly one. */
  lemma FirstTwoCount(a: string, b: string)
    requires '_' !in a && '_' !in b
    ensures Count(a + "_" + b, '_') == 1
  {
    CountAppend(a, "_", '_');
    CountAppend(a + "_", b, '_');
    CountPositive(a, '_');
    CountPositive(b, '_');
  }

  /** Where the indexing form succeeds, the two ways of reading a name agree. */
  lemma NamesAgree(img: string)
    requires NameOf(img).Ok?
    ensures NameOf(img).value == JoinedName(img)
  {
    JoinTwo(SplitOn(img, '_'));
  }

  /** Splitting after an underscore-free first piece: the piece, then the pieces of the rest. */
  lemma SplitOnHead(x: string, t: string)
    requires '_' !in x
    ensures SplitOn(x + "_" + t, '_') == [x] + SplitOn(t, '_')
  {
    SplitOnPrefix(x, "_" + t, '_');
    assert x + "_" + t == x + ("_" + t);
    assert ("_" + t)[1..] == t;
    assert SplitOn("_" + t, '_') == [""] + SplitOn(t, '_');
    assert x + "" == x;
  }

  /** A file name `First_Last_rest` names the person `First_Last`, both ways. */
  lemma NameOfFileName(first: string, last: string, rest: string)
    requires '_' !in first && '_' !in last
    ensures NameOf(first + "_" + last + "_" + rest) == Ok(first + "_" + last)
    ensures JoinedName(first + "_" + last + "_" + rest) == first + "_" + last
  {
    var img := first + "_" + last + "_" + rest;
    SplitOnHead(last, rest);
    assert img == first + "_" + (last + "_" + rest);
    SplitOnHead(first, last + "_" + rest);
    assert SplitOn(img, '_') == [first, last] + SplitOn(rest, '_');
    NamesAgree(img);
  }

  /** `name1 == name2` for a pair of file names, image 1's name read first. */
  function SameName(img1: string, img2: string): (r: Result<bool, Exception>)
    ensures r.Ok? <==> '_' in img1 && '_' in img2
    ensures r.Ok? ==> (r.value <==> NameOf(img1) == NameOf(img2))
  {
    var name1 :- NameOf(img1);
    var name2 :- NameOf(img2);
    Ok(name1 == name2)
  }

  /** The label-1 pairs the script checks by hand. */
  const LabelOneExamples: seq<(string, string)> := [
    ("Carl_Reiner_0001.jpg", "Carl_Reiner_0003.jpg"),
    ("Bernard_Law_0001.jpg", "Bernard_Law_0004.jpg"),
    ("Ian_Smith_0001.jpg", "Ian_Smith_0004.jpg")
  ]

  /** Two files of one person compare as the same name. */
  lemma SamePersonSameName(first: string, last: string, rest1: string, rest2: string)
    requires '_' !in first && '_' !in last
    ensures SameName(FileName(first, last, rest1), FileName(first, last, rest2)) == Ok(true)
  {
    NameOfFileName(first, last, rest1);
    NameOfFileName(first, last, rest2);
  }

  /** `First_Last_rest`, spelled out. */
  function FileName(first: string, last: string, rest: string): string
  {
    first + "_" + last + "_" + rest
  }

  /** A hard-coded file name is `First_Last_rest` with the pieces given. */
  lemma Spelled(img: string, first: string, last: string, rest: string)
    requires |img| == |FileName(first, last, rest)|
    requires forall i :: 0 <= i < |img| ==> img[i] == FileName(first, last, rest)[i]
    ensures img == FileName(first, last, rest)
  {
  }

  /** Each of the three hard-coded pairs is reported SAME. */
  lemma LabelOneExamplesSame()
    ensures forall k :: 0 <= k < |LabelOneExamples| ==> SameName(LabelOneExamples[k].0, LabelOneExamples[k].1) == Ok(true)
  {
    forall k | 0 <= k < |LabelOneExamples|
      ensures SameName(LabelOneExamples[k].0, LabelOneExamples[k].1) == Ok(true)
    {
      if k == 0 {
        CarlReiner();
      } else if k == 1 {
        BernardLaw();
      } else {
        IanSmith();
      }
    }
  }

  /** `Carl_Reiner_0001.jpg` and `Carl_Reiner_0003.jpg` name the same person. */
  lemma CarlReiner()
    ensures SameName(LabelOneExamples[0].0, LabelOneExamples[0].1) == Ok(true)
  {
    Spelled(LabelOneExamples[0].0, "Carl", "Reiner", "0001.jpg");
    Spelled(LabelOneExamples[0].1, "Carl", "Reiner", "0003.jpg");
    SamePersonSameName("Carl", "Reiner", "0001.jpg", "0003.jpg");
  }

  /** `Bernard_Law_0001.jpg` and `Bernard_Law_0004.jpg` name the same person. */
  lemma BernardLaw()
    ensures SameName(LabelOneExamples[1].0, LabelOneExamples[1].1) == Ok(true)
  {
    Spelled(LabelOneExamples[1].0, "Bernard", "Law", "0001.jpg");
    Spelled(LabelOneExamples[1].1, "Bernard", "Law", "0004.jpg");
    SamePersonSameName("Bernard", "Law", "0001.jpg", "0004.jpg");
  }

  /** `Ian_Smith_0001.jpg` and `Ian_Smith_0004.jpg` name the same person. */
  lemma IanSmith()
    ensures SameName(LabelOneExamples[2].0, LabelOneExamples[2].1) == Ok(true)
  {
    Spelled(LabelOneExamples[2].0, "Ian", "Smith", "0001.jpg");
    Spelled(LabelOneExamples[2].1, "Ian", "Smith", "0004.jpg");
    SamePersonSameName("Ian", "Smith", "0001.jpg", "0004.jpg");
  }

  /** `[l for l in lines if l.endswith(' 0')]`, in file order. */
  function EndingInZero(lines: seq<string>): (r: seq<string>)
    ensures |r| <= |lines|
    ensures forall k :: 0 <= k < |r| ==> EndsWith(r[k], " 0") && r[k] in lines
    ensures forall k :: 0 <= k < |lines| && EndsWith(lines[k], " 0") ==> lines[k] in r
  {
    if |lines| == 0 then []
    else
      var rest := EndingInZero(lines[1..]);
      assert forall k :: 1 <= k < |lines| ==> lines[k] == lines[1..][k - 1];
      (if EndsWith(lines[0], " 0") then [lines[0]] else []) + rest
  }

  /** The filter works piece by piece and keeps file order and repeats. */
  lemma {:induction false} EndingInZeroAppend(a: seq<string>, b: seq<string>)
    ensures EndingInZero(a + b) == EndingInZero(a) + EndingInZero(b)
    decreases |a|
  {
    if |a| == 0 {
      assert a + b == b;
    } else {
      var head := if EndsWith(a[0], " 0") then [a[0]] else [];
      assert (a + b)[0] == a[0];
      assert (a + b)[1..] == a[1..] + b;
      assert EndingInZero(a + b) == head + EndingInZero(a[1..] + b);
      EndingInZeroAppend(a[1..], b);
      assert head + (EndingInZero(a[1..]) + EndingInZero(b)) == (head + EndingInZero(a[1..])) + EndingInZero(b);
    }
  }

  /** A single line is kept exactly when it ends in " 0". */
  lemma EndingInZeroOne(line: string)
    ensures EndingInZero([line]) == if EndsWith(line, " 0") then [line] else []
  {
    assert [line][1..] == [];
  }

  /** A line of single-space-separated tokens reads its label from the second token. */
  lemma ReadLabelOfWords(words: seq<string>)
    requires |words| >= 2 && forall k :: 0 <= k < |words| ==> IsToken(words[k])
    ensures ReadLabel(Join(" ", words)) == ParseInt(words[1])
  {
    SplitJoinRoundTrip(words);
  }

  /** `int("0")` and `int("1")`. */
  lemma SingleDigits()
    ensures ParseInt("0") == Ok(0) && ParseInt("1") == Ok(1)
  {
    assert WellFormedDigits("0") && WellFormedDigits("1");
    ParseIntUnsigned("0");
    ParseIntUnsigned("1");
  }

  /** A row written as `image 0` passes the filter, and its label reads as 0. */
  lemma ZeroRowSelected(img: string)
    requires IsToken(img)
    ensures EndsWith(img + " 0", " 0")
    ensures ReadLabel(img + " 0") == Ok(0)
  {
    var words := [img, "0"];
    assert IsToken("0");
    assert Join(" ", words) == img + " 0" by {
      assert words[1..] == ["0"];
    }
    ReadLabelOfWords(words);
    SingleDigits();
  }

  /** The row of the example below, as the tokens it is joined from. */
  lemma ExampleRowTokens()
    ensures var words := ["a.jpg", "1", "0"];
      (forall k :: 0 <= k < |words| ==> IsToken(words[k])) && Join(" ", words) == "a.jpg 1 0"
  {
    var words := ["a.jpg", "1", "0"];
    assert IsToken("a.jpg") && IsToken("1") && IsToken("0");
    assert words[1..] == ["1", "0"];
    assert words[1..][1..] == ["0"];
  }

  /** The filter looks at the line's end, not at its label: a row labelled 1 with a trailing `0` token is selected too. */
  lemma FilterIsTextual()
    ensures EndsWith("a.jpg 1 0", " 0") && ReadLabel("a.jpg 1 0") == Ok(1)
  {
    ExampleRowTokens();
    ReadLabelOfWords(["a.jpg", "1", "0"]);
    SingleDigits();
  }

  /** The lines the script looks at. */
  const Shown: nat := 3

  /**
   * The label-0 half of the script on the lines of a file: the first three
   * lines ending in " 0", each with its image (first token) and the name
   * read from it by joining.
   */
  function LabelZeroNames(raw: seq<string>): (r: seq<(string, string)>)
    ensures |r| == Min(Shown, |EndingInZero(CleanLines(raw))|)
    ensures forall k :: 0 <= k < |r| ==>
      var line := EndingInZero(CleanLines(raw))[k];
      && |Split(line)| >= 1 && r[k].0 == Split(line)[0]
      && r[k].1 == JoinedName(r[k].0)
  {
    var lines := CleanLines(raw);
    var picked := Take(EndingInZero(lines), Shown);
    forall k | 0 <= k < |picked|
      ensures |Split(picked[k])| >= 1
    {
      assert picked[k] == EndingInZero(lines)[k];
      var j :| 0 <= j < |lines| && lines[j] == picked[k];
      CleanLineHasToken(lines[j]);
    }
    seq(|picked|, k requires 0 <= k < |picked| => (Split(picked[k])[0], JoinedName(Split(picked[k])[0])))
  }
}
