/**
 * `debug_calfw_format.py`: the first twenty rows and the rows around line
 * 6000 shown as name and raw label text; the label is never parsed, so the
 * only error is IndexError.
 */
module DebugCalfwFormat {
  import opened Wrappers
  import opened Py
  import opened PairFile
  import opened VerifyCalfwLabels

  /** One shown row: its line number, the name read from its image, and its label as written. */
  datatype Row = Row(index: nat, name: string, tag: string)

  /** Rows shown from the start of the file. */
  const FirstCount: nat := 20

  /** The transition window: `range(5998, 6020)`. */
  const TransitionStart: nat := 5998
  const TransitionStop: nat := 6020

  /**
   * Line i shown as a row: `lines[i]` raises IndexError past the end, and so
   * does `parts[1]` on a line of one token; the label text is kept as is.
   */
  function ShowRow(lines: seq<string>, i: nat): (r: Result<Row, Exception>)
    ensures r.Ok? <==> i < |lines| && |Split(lines[i])| >= 2
    ensures r.Err? ==> r.error == IndexError
    ensures r.Ok? ==> r.value.index == i && r.value.tag == Split(lines[i])[1] && r.value.name == JoinedName(Split(lines[i])[0])
  {
    if i >= |lines| then Err(IndexError)
    else
      var parts := Split(lines[i]);
      if |parts| < 2 then Err(IndexError)
      else Ok(Row(i, JoinedName(parts[0]), parts[1]))
  }

  /** Rows lo to lo + n - 1, shown in order; the first failing one raises. */
  function RowsFrom(lines: seq<string>, lo: nat, n: nat): (r: Result<seq<Row>, Exception>)
    ensures r.Ok? ==> |r.value| == n
  {
    Sequence(seq(n, k requires 0 <= k < n => ShowRow(lines, lo + k)))
  }

  /** The rows show exactly when each of them exists and has two tokens or more; the only error is IndexError. */
  lemma RowsFromOk(lines: seq<string>, lo: nat, n: nat)
    ensures RowsFrom(lines, lo, n).Ok? <==> forall i :: lo <= i < lo + n ==> i < |lines| && |Split(lines[i])| >= 2
    ensures RowsFrom(lines, lo, n).Err? ==> RowsFrom(lines, lo, n).error == IndexError
    ensures RowsFrom(lines, lo, n).Ok? ==> forall i :: lo <= i < lo + n ==> ShowRow(lines, i) == Ok(RowsFrom(lines, lo, n).value[i - lo])
  {
    var rs := seq(n, k requires 0 <= k < n => ShowRow(lines, lo + k));
    assert RowsFrom(lines, lo, n) == Sequence(rs);
    SequenceOk(rs);
    if Sequence(rs).Ok? {
      forall i | lo <= i < lo + n
        ensures ShowRow(lines, i) == Ok(Sequence(rs).value[i - lo])
        ensures i < |lines| && |Split(lines[i])| >= 2
      {
        assert rs[i - lo] == ShowRow(lines, i);
      }
    } else {
      SequenceErr(rs);
      var k :| 0 <= k < n && rs[k] == Err(Sequence(rs).error) && forall j :: 0 <= j < k ==> rs[j].Ok?;
      assert rs[k] == ShowRow(lines, lo + k);
    }
  }

  /** Rows that run past the end of the file raise IndexError. */
  lemma RowsFromShort(lines: seq<string>, lo: nat, n: nat)
    requires 0 < n && |lines| < lo + n
    ensures RowsFrom(lines, lo, n) == Err(IndexError)
  {
    RowsFromOk(lines, lo, n);
    var last := if lo < |lines| then |lines| else lo;
    assert !(last < |lines|);
  }

  /** `for i in range(count)` without a bound check: rows 0 to count-1, the first failing one raising. */
  function FirstRows(lines: seq<string>, count: nat): Result<seq<Row>, Exception>
  {
    RowsFrom(lines, 0, count)
  }

  /** Rows in the window `[lo, hi)` that exist. */
  function WindowSize(lines: seq<string>, lo: nat, hi: nat): (n: nat)
    ensures n > 0 ==> lo + n <= |lines| && lo + n <= hi
    ensures n == 0 <==> lo >= hi || lo >= |lines|
    ensures n > 0 ==> lo + n == Min(hi, |lines|)
  {
    if Min(hi, |lines|) > lo then Min(hi, |lines|) - lo else 0
  }

  /** `for i in range(lo, hi): if i < len(lines)`: the rows of the window that exist, in order. */
  function WindowRows(lines: seq<string>, lo: nat, hi: nat): Result<seq<Row>, Exception>
  {
    RowsFrom(lines, lo, WindowSize(lines, lo, hi))
  }

  /** The window shows exactly when each of its lines that exists has two tokens or more, and then shows those lines' rows in order. */
  lemma WindowRowsOk(lines: seq<string>, lo: nat, hi: nat)
    ensures WindowRows(lines, lo, hi).Ok? <==> forall i :: lo <= i < hi && i < |lines| ==> |Split(lines[i])| >= 2
    ensures WindowRows(lines, lo, hi).Err? ==> WindowRows(lines, lo, hi).error == IndexError
    ensures WindowRows(lines, lo, hi).Ok? ==>
      && |WindowRows(lines, lo, hi).value| == WindowSize(lines, lo, hi)
      && forall i :: lo <= i < hi && i < |lines| ==> ShowRow(lines, i) == Ok(WindowRows(lines, lo, hi).value[i - lo])
  {
    var n := WindowSize(lines, lo, hi);
    RowsFromOk(lines, lo, n);
    if RowsFrom(lines, lo, n).Ok? {
      var v := RowsFrom(lines, lo, n).value;
      forall i | lo <= i < hi && i < |lines|
        ensures |Split(lines[i])| >= 2 && ShowRow(lines, i) == Ok(v[i - lo])
      {
        assert i < lo + n;
      }
    } else {
      var i :| lo <= i < lo + n && !(i < |lines| && |Split(lines[i])| >= 2);
      assert i < hi && i < |lines|;
    }
  }

  /** The first rows show exactly when each of them exists and has two tokens or more, and then come in order. */
  lemma FirstRowsOk(lines: seq<string>, count: nat)
    ensures FirstRows(lines, count).Ok? <==> forall i :: 0 <= i < count ==> i < |lines| && |Split(lines[i])| >= 2
    ensures FirstRows(lines, count).Err? ==> FirstRows(lines, count).error == IndexError
    ensures FirstRows(lines, count).Ok? ==> forall i :: 0 <= i < count ==> ShowRow(lines, i) == Ok(FirstRows(lines, count).value[i])
  {
    var rs := seq(count, k requires 0 <= k < count => ShowRow(lines, k));
    assert FirstRows(lines, count) == Sequence(rs) by {
      assert rs == seq(count, k requires 0 <= k < count => ShowRow(lines, 0 + k));
    }
    SequenceOk(rs);
    if Sequence(rs).Ok? {
      forall i | 0 <= i < count
        ensures ShowRow(lines, i) == Ok(Sequence(rs).value[i])
        ensures i < |lines| && |Split(lines[i])| >= 2
      {
        assert rs[i] == ShowRow(lines, i);
      }
    } else {
      SequenceErr(rs);
      var k :| 0 <= k < count && rs[k] == Err(Sequence(rs).error) && forall j :: 0 <= j < k ==> rs[j].Ok?;
      assert rs[k] == ShowRow(lines, k);
    }
  }

  /** The two loops of the script on its cleaned lines: the first twenty rows, then the transition window. */
  function ShowLines(lines: seq<string>): (r: Result<(seq<Row>, seq<Row>), Exception>)
    ensures r.Ok? ==> |r.value.0| == FirstCount && |r.value.1| == WindowSize(lines, TransitionStart, TransitionStop)
  {
    var first :- FirstRows(lines, FirstCount);
    var window :- WindowRows(lines, TransitionStart, TransitionStop);
    Ok((first, window))
  }

  /** The two loops' outcomes decide the script's: the first error raised, or both lists of rows. */
  lemma ShowLinesSteps(lines: seq<string>)
    ensures var first := FirstRows(lines, FirstCount); var window := WindowRows(lines, TransitionStart, TransitionStop);
      ShowLines(lines) ==
        if first.Err? then Err(first.error) else if window.Err? then Err(window.error) else Ok((first.value, window.value))
  {
  }

  /** Each of the first twenty lines exists with two tokens or more, and so does each line of the window that exists. */
  predicate Showable(lines: seq<string>)
  {
    && (forall i :: 0 <= i < FirstCount ==> i < |lines| && |Split(lines[i])| >= 2)
    && (forall i :: TransitionStart <= i < TransitionStop && i < |lines| ==> |Split(lines[i])| >= 2)
  }

  /**
   * The script completes exactly when each of the first twenty lines exists
   * and has two tokens or more, and so does each line of the window that
   * exists; any failure is IndexError.
   */
  lemma ShowLinesOk(lines: seq<string>)
    ensures ShowLines(lines).Ok? <==> Showable(lines)
    ensures ShowLines(lines).Err? ==> ShowLines(lines).error == IndexError
  {
    var first := FirstRows(lines, FirstCount);
    var window := WindowRows(lines, TransitionStart, TransitionStop);
    ShowLinesSteps(lines);
    assert ShowLines(lines).Ok? <==> first.Ok? && window.Ok?;
    FirstRowsOk(lines, FirstCount);
    WindowRowsOk(lines, TransitionStart, TransitionStop);
    if first.Ok? {
      forall i | 0 <= i < FirstCount
        ensures i < |lines| && |Split(lines[i])| >= 2
      {
      }
    } else {
      var i :| 0 <= i < FirstCount && !(i < |lines| && |Split(lines[i])| >= 2);
    }
  }

  /** A completed script shows rows 0 to 19, then the rows of the window that the file has, in order. */
  lemma ShowLinesRows(lines: seq<string>)
    requires ShowLines(lines).Ok?
    ensures var r := ShowLines(lines);
      && (forall i :: 0 <= i < FirstCount ==> ShowRow(lines, i) == Ok(r.value.0[i]))
      && (forall i :: TransitionStart <= i < TransitionStop && i < |lines| ==>
            ShowRow(lines, i) == Ok(r.value.1[i - TransitionStart]))
  {
    ShowLinesSteps(lines);
    FirstRowsOk(lines, FirstCount);
    WindowRowsOk(lines, TransitionStart, TransitionStop);
  }

  /**
   * The script on the lines of a file: it completes exactly when each of the
   * first twenty cleaned lines exists with two tokens or more, and so does
   * each cleaned line of the window that exists; any failure is IndexError.
   */
  function DebugFormat(raw: seq<string>): (r: Result<(seq<Row>, seq<Row>), Exception>)
    ensures r.Err? ==> r.error == IndexError
    ensures r.Ok? <==> Showable(CleanLines(raw))
    ensures r.Ok? ==> |r.value.0| == FirstCount
  {
    ShowLinesOk(CleanLines(raw));
    ShowLines(CleanLines(raw))
  }

  /**
   * Unlike the label reads of the other scripts, a row whose label is not an
   * integer is shown without error: its label text is kept.
   */
  lemma RowKeepsLabelText(img: string, tag: string)
    requires IsToken(img) && IsToken(tag)
    ensures ShowRow([img + " " + tag], 0) == Ok(Row(0, JoinedName(img), tag))
  {
    var words := [img, tag];
    assert Join(" ", words) == img + " " + tag by {
      assert words[1..] == [tag];
    }
    SplitJoinRoundTrip(words);
  }

  /** A file of fewer than twenty lines always fails, with IndexError. */
  lemma ShortFileFails(raw: seq<string>)
    requires |CleanLines(raw)| < FirstCount
    ensures DebugFormat(raw) == Err(IndexError)
  {
    RowsFromShort(CleanLines(raw), 0, FirstCount);
    assert FirstRows(CleanLines(raw), FirstCount).Err?;
  }
}
