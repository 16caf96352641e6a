/**
 * The Python built-ins the scripts and the server lean on, written out with the
 * edge cases they exhibit: whitespace stripping and splitting, splitting on one
 * separator and joining, `int()` on a string, zero-padded integer formatting,
 * list slicing with a possibly negative bound, the `range(start, stop, 2)`
 * pairing idiom and a POSIX `os.path.join`.
 */
module Py {
  import opened Wrappers

  /** The exceptions the modelled code can raise from built-in operations. */
  datatype Exception = ValueError | IndexError

  function Min(a: int, b: int): int { if a <= b then a else b }

  /** Concatenation is associative; stated once so that proofs about big terms need not rediscover it. */
  lemma AppendAssoc<T>(x: seq<T>, y: seq<T>, z: seq<T>)
    ensures (x + y) + z == x + (y + z)
  {
  }

  // ---------------------------------------------------------------------------
  // Whitespace: str.isspace, str.strip, str.split

  /** `c.isspace()`: exactly the characters `str.strip()` and `str.split()` treat as whitespace. */
  predicate IsSpace(c: char) {
    || c == ' '
    || ('\t' <= c <= '\r')
    || ('\U{1c}' <= c <= '\U{1f}')
    || c == '\U{85}' || c == '\U{a0}' || c == '\U{1680}'
    || ('\U{2000}' <= c <= '\U{200a}')
    || c == '\U{2028}' || c == '\U{2029}' || c == '\U{202f}' || c == '\U{205f}' || c == '\U{3000}'
  }

  predicate AllSpace(s: string) { forall i :: 0 <= i < |s| ==> IsSpace(s[i]) }

  predicate NoSpace(s: string) { forall i :: 0 <= i < |s| ==> !IsSpace(s[i]) }

  /** Number of whitespace characters at the start of `s`. */
  function LeadingSpaces(s: string): (n: nat)
    ensures n <= |s|
    ensures forall i :: 0 <= i < n ==> IsSpace(s[i])
    ensures n == |s| || !IsSpace(s[n])
  {
    if |s| > 0 && IsSpace(s[0]) then
      var n := 1 + LeadingSpaces(s[1..]);
      assert forall i :: 1 <= i < n ==> s[i] == s[1..][i - 1];
      n
    else 0
  }

  /** Number of whitespace characters at the end of `s`. */
  function TrailingSpaces(s: string): (n: nat)
    ensures n <= |s|
    ensures forall i :: |s| - n <= i < |s| ==> IsSpace(s[i])
    ensures n == |s| || !IsSpace(s[|s| - n - 1])
  {
    if |s| > 0 && IsSpace(s[|s| - 1]) then 1 + TrailingSpaces(s[..|s| - 1]) else 0
  }

  /** `s.strip()`: empty exactly for blank strings, otherwise bounded by non-whitespace on both ends. */
  function Strip(s: string): (r: string)
    ensures |r| <= |s|
    ensures r == [] <==> AllSpace(s)
    ensures r == [] || (!IsSpace(r[0]) && !IsSpace(r[|r| - 1]))
  {
    var lo := LeadingSpaces(s);
    if lo == |s| then []
    else
      var n := TrailingSpaces(s);
      assert |s| - n > lo;
      s[lo..|s| - n]
  }

  /** A string with no whitespace at either end is its own strip. */
  lemma StripTrimmed(s: string)
    requires s == [] || (!IsSpace(s[0]) && !IsSpace(s[|s| - 1]))
    ensures Strip(s) == s
  {
    if s != [] {
      assert LeadingSpaces(s) == 0;
      assert TrailingSpaces(s) == 0;
      assert s[0..|s|] == s;
    }
  }

  /** Whitespace appended to a trimmed string is exactly what `strip()` removes. */
  lemma {:induction false} StripPadded(t: string, sp: string)
    requires t != [] && !IsSpace(t[0]) && !IsSpace(t[|t| - 1])
    requires AllSpace(sp)
    ensures Strip(t + sp) == t
    decreases |sp|
  {
    var s := t + sp;
    assert s[0] == t[0];
    assert LeadingSpaces(s) == 0;
    TrailingPadded(t, sp);
    assert s[0..|s| - |sp|] == t;
  }

  lemma {:induction false} TrailingPadded(t: string, sp: string)
    requires t != [] && !IsSpace(t[|t| - 1])
    requires AllSpace(sp)
    ensures TrailingSpaces(t + sp) == |sp|
    decreases |sp|
  {
    var s := t + sp;
    if |sp| == 0 {
      assert s == t;
    } else {
      assert s[..|s| - 1] == t + sp[..|sp| - 1];
      assert s[|s| - 1] == sp[|sp| - 1];
      TrailingPadded(t, sp[..|sp| - 1]);
    }
  }

  /** Length of the whitespace-free run at the start of `s`. */
  function WordLength(s: string): (n: nat)
    ensures n <= |s|
    ensures forall i :: 0 <= i < n ==> !IsSpace(s[i])
    ensures n == |s| || IsSpace(s[n])
  {
    if |s| == 0 || IsSpace(s[0]) then 0
    else
      var n := 1 + WordLength(s[1..]);
      assert forall i :: 1 <= i < n ==> s[i] == s[1..][i - 1];
      n
  }

  /** `s.split()`: the maximal runs of non-whitespace characters, in order; each token takes at least one character. */
  function Split(s: string): (r: seq<string>)
    ensures |r| <= |s|
    decreases |s|
  {
    if |s| == 0 then []
    else if IsSpace(s[0]) then Split(s[1..])
    else
      var n := WordLength(s);
      [s[..n]] + Split(s[n..])
  }

  /** A token of `split()`: non-empty and free of whitespace. */
  predicate IsToken(w: string) { w != [] && NoSpace(w) }

  /** Every token of `split()` is non-empty and whitespace-free. */
  lemma {:induction false} SplitTokens(s: string)
    ensures forall k :: 0 <= k < |Split(s)| ==> IsToken(Split(s)[k])
    decreases |s|
  {
    if |s| > 0 {
      if IsSpace(s[0]) {
        SplitTokens(s[1..]);
      } else {
        var n := WordLength(s);
        var rest := Split(s[n..]);
        SplitTokens(s[n..]);
        assert IsToken(s[..n]);
        assert Split(s) == [s[..n]] + rest;
        forall k | 0 <= k < |Split(s)|
          ensures IsToken(Split(s)[k])
        {
          if k > 0 {
            assert Split(s)[k] == rest[k - 1];
          }
        }
      }
    }
  }

  /** `split()` yields no token exactly for a blank string. */
  lemma {:induction false} SplitBlank(s: string)
    ensures Split(s) == [] <==> AllSpace(s)
    decreases |s|
  {
    if |s| > 0 && IsSpace(s[0]) {
      SplitBlank(s[1..]);
      assert AllSpace(s) <==> AllSpace(s[1..]) by {
        assert forall i :: 1 <= i < |s| ==> s[i] == s[1..][i - 1];
      }
    }
  }

  /** A leading whitespace-free word ended by whitespace or by the end of the string is the first token. */
  lemma SplitLeadingWord(w: string, rest: string)
    requires IsToken(w)
    requires rest == [] || IsSpace(rest[0])
    ensures Split(w + rest) == [w] + Split(rest)
  {
    var s := w + rest;
    assert s[0] == w[0];
    assert forall i :: 0 <= i < |w| ==> s[i] == w[i];
    assert |rest| > 0 ==> s[|w|] == rest[0];
    assert WordLength(s) == |w|;
    assert s[..|w|] == w;
    assert s[|w|..] == rest;
  }

  /** Leading whitespace is invisible to `split()`. */
  lemma {:induction false} SplitDropSpaces(s: string, k: nat)
    requires k <= |s|
    requires forall i :: 0 <= i < k ==> IsSpace(s[i])
    ensures Split(s) == Split(s[k..])
    decreases k
  {
    if k > 0 {
      assert s[1..][k - 1..] == s[k..];
      SplitDropSpaces(s[1..], k - 1);
    }
  }

  /** Trailing whitespace is invisible to `split()`. */
  lemma {:induction false} SplitTrailingSpaces(s: string, sp: string)
    requires AllSpace(sp)
    ensures Split(s + sp) == Split(s)
    decreases |s|
  {
    var t := s + sp;
    if |s| == 0 {
      assert t == sp;
      SplitBlank(sp);
    } else if IsSpace(s[0]) {
      assert t[0] == s[0] && t[1..] == s[1..] + sp;
      SplitTrailingSpaces(s[1..], sp);
    } else {
      var n := WordLength(s);
      assert forall i :: 0 <= i < |s| ==> t[i] == s[i];
      assert n == |s| ==> |sp| == 0 || IsSpace(t[n]);
      assert WordLength(t) == n;
      assert t[..n] == s[..n];
      assert t[n..] == s[n..] + sp;
      SplitTrailingSpaces(s[n..], sp);
    }
  }

  /** `s.strip().split() == s.split()` */
  lemma SplitStrip(s: string)
    ensures Split(Strip(s)) == Split(s)
  {
    var lo := LeadingSpaces(s);
    SplitDropSpaces(s, lo);
    if lo == |s| {
      assert s[lo..] == [];
    } else {
      StripInner(s);
    }
  }

  lemma StripInner(s: string)
    requires LeadingSpaces(s) < |s|
    ensures Split(Strip(s)) == Split(s[LeadingSpaces(s)..])
  {
    var lo := LeadingSpaces(s);
    var hi := |s| - TrailingSpaces(s);
    assert Strip(s) == s[lo..hi];
    SliceSplit(s, lo, hi);
    SuffixAllSpace(s, hi);
    SplitTrailingSpaces(s[lo..hi], s[hi..]);
  }

  lemma SliceSplit(s: string, lo: nat, hi: nat)
    requires lo <= hi <= |s|
    ensures s[lo..] == s[lo..hi] + s[hi..]
  {
  }

  lemma SuffixAllSpace(s: string, hi: nat)
    requires hi <= |s|
    requires forall i :: hi <= i < |s| ==> IsSpace(s[i])
    ensures AllSpace(s[hi..])
  {
    assert forall i :: 0 <= i < |s| - hi ==> s[hi..][i] == s[hi + i];
  }

  /** `sep.join(parts)`: the pieces in order with `sep` between them, so it starts with the first piece. */
  function Join(sep: string, parts: seq<string>): (r: string)
    ensures |parts| >= 1 ==> |parts[0]| <= |r| && r[..|parts[0]|] == parts[0]
  {
    if |parts| == 0 then ""
    else if |parts| == 1 then parts[0]
    else parts[0] + sep + Join(sep, parts[1..])
  }

  /** Joining whitespace-free words with single spaces and splitting again gives the words back. */
  lemma {:induction false} SplitJoinRoundTrip(words: seq<string>)
    requires forall k :: 0 <= k < |words| ==> IsToken(words[k])
    ensures Split(Join(" ", words)) == words
    decreases |words|
  {
    if |words| == 0 {
      assert Join(" ", words) == "";
    } else if |words| == 1 {
      SplitLeadingWord(words[0], "");
      assert words[0] + "" == words[0];
      assert Split(Join(" ", words)) == [words[0]];
    } else {
      var tail := Join(" ", words[1..]);
      var spaced := " " + tail;
      assert Join(" ", words) == words[0] + spaced;
      SplitLeadingWord(words[0], spaced);
      assert Split(Join(" ", words)) == [words[0]] + Split(spaced);
      assert spaced[1..] == tail;
      assert Split(spaced) == Split(tail);
      SplitJoinRoundTrip(words[1..]);
      assert Split(tail) == words[1..];
      assert words == [words[0]] + words[1..];
    }
  }

  // ---------------------------------------------------------------------------
  // Splitting on one separator: str.split(sep)

  /** Number of occurrences of `c` in `s`. */
  function Count(s: string, c: char): nat
  {
    if |s| == 0 then 0 else (if s[0] == c then 1 else 0) + Count(s[1..], c)
  }

  /** `s.split(sep)` for a one-character separator: the text between separators, one more piece than separators. */
  function SplitOn(s: string, sep: char): (r: seq<string>)
    ensures |r| == Count(s, sep) + 1
    ensures forall k :: 0 <= k < |r| ==> sep !in r[k]
  {
    if |s| == 0 then [""]
    else
      var rest := SplitOn(s[1..], sep);
      if s[0] == sep then [""] + rest
      else [[s[0]] + rest[0]] + rest[1..]
  }

  /** Prepending text to the first piece prepends it to the join. */
  lemma JoinPrepend(sep: string, x: string, parts: seq<string>)
    requires |parts| >= 1
    ensures Join(sep, [x + parts[0]] + parts[1..]) == x + Join(sep, parts)
  {
    var ps := [x + parts[0]] + parts[1..];
    if |parts| > 1 {
      assert ps[1..] == parts[1..];
    }
  }

  /** Splitting on a separator and joining with it again is the identity. */
  lemma {:induction false} JoinSplitOn(s: string, sep: char)
    ensures Join([sep], SplitOn(s, sep)) == s
    decreases |s|
  {
    if |s| > 0 {
      var rest := SplitOn(s[1..], sep);
      JoinSplitOn(s[1..], sep);
      if s[0] == sep {
        assert ([""] + rest)[1..] == rest;
      } else {
        JoinPrepend([sep], [s[0]], rest);
      }
      assert s == [s[0]] + s[1..];
    }
  }

  /** Text free of the separator, followed by more text: it extends the first piece. */
  lemma {:induction false} SplitOnPrefix(x: string, t: string, sep: char)
    requires sep !in x
    ensures SplitOn(x + t, sep) == [x + SplitOn(t, sep)[0]] + SplitOn(t, sep)[1..]
    decreases |x|
  {
    if |x| == 0 {
      assert x + t == t;
      assert x + SplitOn(t, sep)[0] == SplitOn(t, sep)[0];
      assert SplitOn(t, sep) == [SplitOn(t, sep)[0]] + SplitOn(t, sep)[1..];
    } else {
      var s := x + t;
      assert s[0] == x[0] && s[1..] == x[1..] + t;
      SplitOnPrefix(x[1..], t, sep);
      assert [x[0]] + (x[1..] + SplitOn(t, sep)[0]) == x + SplitOn(t, sep)[0];
    }
  }

  /** Joining separator-free pieces with the separator and splitting again gives the pieces back. */
  lemma {:induction false} SplitOnJoin(parts: seq<string>, sep: char)
    requires |parts| >= 1
    requires forall k :: 0 <= k < |parts| ==> sep !in parts[k]
    ensures SplitOn(Join([sep], parts), sep) == parts
    decreases |parts|
  {
    if |parts| == 1 {
      SplitOnPrefix(parts[0], "", sep);
      assert parts[0] + "" == parts[0];
      assert SplitOn("", sep) == [""];
    } else {
      var tail := Join([sep], parts[1..]);
      assert Join([sep], parts) == parts[0] + ([sep] + tail);
      SplitOnPrefix(parts[0], [sep] + tail, sep);
      assert ([sep] + tail)[1..] == tail;
      SplitOnJoin(parts[1..], sep);
      assert SplitOn([sep] + tail, sep) == [""] + parts[1..];
      assert parts[0] + "" == parts[0];
      assert parts == [parts[0]] + parts[1..];
    }
  }

  /** A character occurs in a string exactly when its count is positive. */
  lemma {:induction false} CountPositive(s: string, c: char)
    ensures Count(s, c) > 0 <==> c in s
    decreases |s|
  {
    if |s| > 0 {
      CountPositive(s[1..], c);
      assert c in s <==> s[0] == c || c in s[1..];
    }
  }

  /** Counting works piece by piece. */
  lemma {:induction false} CountAppend(a: string, b: string, c: char)
    ensures Count(a + b, c) == Count(a, c) + Count(b, c)
    decreases |a|
  {
    if |a| == 0 {
      assert a + b == b;
    } else {
      assert (a + b)[0] == a[0];
      assert (a + b)[1..] == a[1..] + b;
      CountAppend(a[1..], b, c);
    }
  }

  /** The join of two or more pieces starts with the first piece and the separator. */
  lemma JoinHead(sep: string, parts: seq<string>)
    requires |parts| >= 2
    ensures Join(sep, parts) == parts[0] + sep + Join(sep, parts[1..])
  {
  }

  /** `s.endswith(suffix)` */
  predicate EndsWith(s: string, suffix: string) {
    |suffix| <= |s| && s[|s| - |suffix|..] == suffix
  }

  /** A string that ends with the suffix is some text followed by the suffix. */
  lemma EndsWithSplit(s: string, suffix: string)
    requires EndsWith(s, suffix)
    ensures s == s[..|s| - |suffix|] + suffix
  {
  }

  /** Any text followed by the suffix ends with it. */
  lemma EndsWithConcat(pre: string, suffix: string)
    ensures EndsWith(pre + suffix, suffix)
  {
    assert (pre + suffix)[|pre|..] == suffix;
  }

  // ---------------------------------------------------------------------------
  // int(s) and format(n, "0<width>d")

  predicate IsDigit(c: char) { '0' <= c <= '9' }

  predicate DigitsOrUnderscores(d: string) {
    forall i :: 0 <= i < |d| ==> IsDigit(d[i]) || d[i] == '_'
  }

  /** The digit part `int()` accepts: decimal digits, single underscores allowed between two digits. */
  predicate WellFormedDigits(d: string) {
    && |d| > 0 && IsDigit(d[0]) && IsDigit(d[|d| - 1])
    && DigitsOrUnderscores(d)
    && !HasDoubleUnderscore(d)
  }

  predicate HasDoubleUnderscore(d: string) {
    |d| >= 2 && ((d[0] == '_' && d[1] == '_') || HasDoubleUnderscore(d[1..]))
  }

  /** A string with no underscore at all has no doubled one. */
  lemma {:induction false} NoUnderscoreNoDouble(d: string)
    requires forall i :: 0 <= i < |d| ==> d[i] != '_'
    ensures !HasDoubleUnderscore(d)
    decreases |d|
  {
    if |d| >= 2 {
      NoUnderscoreNoDouble(d[1..]);
    }
  }

  /** Value of a run of digits and underscores, most significant first; underscores carry no value. */
  function DigitsValue(d: string): nat
    requires DigitsOrUnderscores(d)
  {
    if |d| == 0 then 0
    else if d[|d| - 1] == '_' then DigitsValue(d[..|d| - 1])
    else 10 * DigitsValue(d[..|d| - 1]) + (d[|d| - 1] as int - '0' as int)
  }

  /** The digit part of `int()`: well-formed digits or ValueError. */
  function ParseDigits(d: string): (r: Result<nat, Exception>)
    ensures r.Ok? <==> WellFormedDigits(d)
  {
    if WellFormedDigits(d) then Ok(DigitsValue(d)) else Err(ValueError)
  }

  /**
   * The ASCII information separators U+001C to U+001F: `str.isspace()` holds
   * for them, but `int()` skips only the C-locale ASCII spaces (and turns
   * non-ASCII whitespace into spaces), so they are never whitespace to it.
   */
  predicate IsSeparatorControl(c: char) { '\U{1c}' <= c <= '\U{1f}' }

  /** Whether any character of `s` is an ASCII information separator. */
  predicate HasSeparatorControl(s: string) { exists i :: 0 <= i < |s| && IsSeparatorControl(s[i]) }

  /**
   * `int(s)` for a string: surrounding whitespace, an optional sign, then
   * well-formed digits; anything else raises ValueError. An information
   * separator fails wherever it stands: at either end `int()` does not skip
   * it, and inside it is not a digit.
   */
  function ParseInt(s: string): (r: Result<int, Exception>)
    ensures r.Err? ==> r.error == ValueError
    ensures HasSeparatorControl(s) ==> r.Err?
  {
    if HasSeparatorControl(s) then Err(ValueError)
    else
      var t := Strip(s);
      var signed := |t| > 0 && (t[0] == '+' || t[0] == '-');
      var v :- ParseDigits(if signed then t[1..] else t);
      Ok(if signed && t[0] == '-' then 0 - v as int else v)
  }

  /** `str.strip()` removes a leading U+001C, but `int()` rejects it: `int('\x1c5')` raises ValueError. */
  lemma SeparatorNotSkipped()
    ensures IsSpace('\U{1c}') && Strip("\U{1c}5") == "5"
    ensures ParseInt("\U{1c}5") == Err(ValueError)
  {
    var s := "\U{1c}5";
    assert IsSeparatorControl(s[0]);
    assert LeadingSpaces(s[1..]) == 0;
    assert LeadingSpaces(s) == 1;
    assert TrailingSpaces(s) == 0;
  }

  function DigitChar(d: nat): char
    requires d < 10
  {
    ('0' as int + d) as char
  }

  /** The decimal digits of `n` without leading zeros; reading them back gives `n`. */
  function NatDigits(n: nat): (d: string)
    ensures |d| >= 1
    ensures forall i :: 0 <= i < |d| ==> IsDigit(d[i])
    ensures DigitsValue(d) == n
  {
    if n < 10 then [DigitChar(n)]
    else
      var d := NatDigits(n / 10) + [DigitChar(n % 10)];
      assert d[..|d| - 1] == NatDigits(n / 10);
      d
  }

  function Zeros(k: nat): (z: string)
    ensures |z| == k && forall i :: 0 <= i < k ==> z[i] == '0'
  {
    seq(k, _ => '0')
  }

  /**
   * `format(n, "0<width>d")`, as in `f"{n:04d}"`: a minus sign for negative
   * numbers, then zeros until the whole text is `width` long, then the digits.
   */
  function FormatZeroPadded(n: int, width: nat): (r: string)
    ensures |r| == (if n < 0 then 1 else 0) + |NatDigits(if n < 0 then -n else n)| || |r| == width
    ensures |r| >= width
  {
    var sign := if n < 0 then "-" else "";
    var digits := NatDigits(if n < 0 then -n else n);
    var fill := if |sign| + |digits| < width then width - |sign| - |digits| else 0;
    sign + Zeros(fill) + digits
  }

  /** `str(n)` */
  function Str(n: int): string
  {
    FormatZeroPadded(n, 0)
  }

  lemma {:induction false} DigitsValueZeros(k: nat)
    ensures DigitsValue(Zeros(k)) == 0
  {
    if k > 0 {
      assert Zeros(k)[..k - 1] == Zeros(k - 1);
      DigitsValueZeros(k - 1);
    }
  }

  /** Leading zeros do not change the value of a digit string. */
  lemma {:induction false} DigitsValueLeadingZeros(k: nat, d: string)
    requires forall i :: 0 <= i < |d| ==> IsDigit(d[i])
    ensures DigitsOrUnderscores(Zeros(k) + d)
    ensures DigitsValue(Zeros(k) + d) == DigitsValue(d)
    decreases |d|
  {
    var z := Zeros(k) + d;
    assert forall i :: 0 <= i < |z| ==> IsDigit(z[i]);
    if |d| == 0 {
      assert z == Zeros(k);
      DigitsValueZeros(k);
    } else {
      assert z[..|z| - 1] == Zeros(k) + d[..|d| - 1];
      DigitsValueLeadingZeros(k, d[..|d| - 1]);
    }
  }

  /** `int()` on a trimmed, unsigned digit string. */
  lemma ParseIntUnsigned(t: string)
    requires WellFormedDigits(t)
    ensures ParseInt(t) == Ok(DigitsValue(t) as int)
  {
    StripTrimmed(t);
    var u := Strip(t);
    assert u == t;
    assert !(u[0] == '+' || u[0] == '-');
    assert WellFormedDigits(u);
  }

  /** `int()` on a minus sign followed by a digit string. */
  lemma ParseIntNegative(t: string)
    requires |t| > 1 && t[0] == '-' && WellFormedDigits(t[1..])
    ensures ParseInt(t) == Ok(-(DigitsValue(t[1..]) as int))
  {
    StripTrimmed(t);
  }

  /** Zeros followed by the digits of a number form a well-formed digit string worth that number. */
  lemma PaddedDigits(fill: nat, n: nat)
    ensures WellFormedDigits(Zeros(fill) + NatDigits(n))
    ensures DigitsValue(Zeros(fill) + NatDigits(n)) == n
  {
    var body := Zeros(fill) + NatDigits(n);
    DigitsValueLeadingZeros(fill, NatDigits(n));
    assert forall i :: 0 <= i < |body| ==> IsDigit(body[i]);
    NoUnderscoreNoDouble(body);
  }

  /** `int()` reads back every zero-padded rendering of an integer, whatever the width. */
  lemma ParseIntFormatRoundTrip(n: int, width: nat)
    ensures ParseInt(FormatZeroPadded(n, width)) == Ok(n)
  {
    if n < 0 {
      FormatNegative(n, width);
    } else {
      FormatNonNegative(n, width);
    }
  }

  lemma FormatNonNegative(n: nat, width: nat)
    ensures ParseInt(FormatZeroPadded(n, width)) == Ok(n as int)
  {
    var t := FormatZeroPadded(n, width);
    var fill := if |NatDigits(n)| < width then width - |NatDigits(n)| else 0;
    assert t == Zeros(fill) + NatDigits(n) by {
      assert t == "" + Zeros(fill) + NatDigits(n);
    }
    PaddedDigits(fill, n);
    ParseIntUnsigned(t);
  }

  lemma FormatNegative(n: int, width: nat)
    requires n < 0
    ensures ParseInt(FormatZeroPadded(n, width)) == Ok(n)
  {
    NegativeText(n, width);
    ParseIntNegative(FormatZeroPadded(n, width));
  }

  /** A negative number is written as a minus sign and then well-formed digits worth its magnitude. */
  lemma NegativeText(n: int, width: nat)
    requires n < 0
    ensures var t := FormatZeroPadded(n, width);
      |t| > 1 && t[0] == '-' && WellFormedDigits(t[1..]) && DigitsValue(t[1..]) == -n
  {
    var t := FormatZeroPadded(n, width);
    var m: nat := -n;
    var fill := if 1 + |NatDigits(m)| < width then width - 1 - |NatDigits(m)| else 0;
    var body := Zeros(fill) + NatDigits(m);
    AppendAssoc("-", Zeros(fill), NatDigits(m));
    assert t == "-" + body;
    assert t[1..] == body;
    PaddedDigits(fill, m);
  }

  /** Pow10(k) is 10 to the power k. */
  function Pow10(k: nat): nat
  {
    if k == 0 then 1 else 10 * Pow10(k - 1)
  }

  /** A number below 10^k has at most k digits. */
  lemma {:induction false} NatDigitsLength(n: nat, k: nat)
    requires 1 <= k && n < Pow10(k)
    ensures |NatDigits(n)| <= k
    decreases k
  {
    if n >= 10 {
      assert k >= 2;
      NatDigitsLength(n / 10, k - 1);
    }
  }

  /** `f"{n:04d}"` is exactly four characters for 0 <= n <= 9999. */
  lemma FourDigitWidth(n: int)
    requires 0 <= n <= 9999
    ensures |FormatZeroPadded(n, 4)| == 4
    ensures forall i :: 0 <= i < 4 ==> IsDigit(FormatZeroPadded(n, 4)[i])
  {
    NatDigitsLength(n, 4);
  }

  // ---------------------------------------------------------------------------
  // Lists: slicing and the pairing loop

  /** `xs[:n]` for any integer `n`: a prefix, with a negative `n` counting from the end. */
  function Take<T>(xs: seq<T>, n: int): (r: seq<T>)
    ensures |r| <= |xs| && r == xs[..|r|]
    ensures 0 <= n ==> |r| == Min(n, |xs|)
    ensures n < 0 ==> |r| == (if |xs| + n > 0 then |xs| + n else 0)
  {
    var stop := if n < 0 then |xs| + n else n;
    if stop <= 0 then [] else if stop < |xs| then xs[..stop] else xs
  }

  /** `xs[1:]` */
  function DropFirst<T>(xs: seq<T>): (r: seq<T>)
    ensures |xs| > 0 ==> xs == [xs[0]] + r
    ensures |xs| == 0 ==> r == []
  {
    if |xs| == 0 then [] else xs[1..]
  }

  /** The pairs `(xs[i], xs[i + 1])` visited by `for i in range(start, stop, 2)`. */
  function StepPairs<T>(xs: seq<T>, start: nat, stop: int): (r: seq<(T, T)>)
    requires stop <= |xs| - 1
    ensures |r| == if start < stop then (stop - start + 1) / 2 else 0
    ensures forall k :: 0 <= k < |r| ==> r[k] == (xs[start + 2 * k], xs[start + 2 * k + 1])
    decreases stop - start
  {
    if start < stop then [(xs[start], xs[start + 1])] + StepPairs(xs, start + 2, stop) else []
  }

  /**
   * `range(0, len(xs) - 1, 2)` visits floor(len/2) pairs, the odd last element
   * left over; capping the stop at `2 * cap` visits min(cap, floor(len/2)).
   */
  lemma AdjacentPairsCount<T>(xs: seq<T>, cap: nat)
    ensures |StepPairs(xs, 0, |xs| - 1)| == |xs| / 2
    ensures |StepPairs(xs, 0, Min(2 * cap, |xs| - 1))| == Min(cap, |xs| / 2)
  {
  }

  // ---------------------------------------------------------------------------
  // Loops of reads that may raise

  /** A loop of reads that may raise, run in order: the error of the first one that raises, or all the values. */
  function Sequence<T>(rs: seq<Result<T, Exception>>): (r: Result<seq<T>, Exception>)
    ensures r.Ok? ==> |r.value| == |rs|
  {
    if |rs| == 0 then Ok([])
    else
      var init := Sequence(rs[..|rs| - 1]);
      var last := rs[|rs| - 1];
      if init.Err? then init
      else if last.Err? then Err(last.error)
      else Ok(init.value + [last.value])
  }

  /** The loop completes exactly when every read succeeds, and then gives their values in order. */
  lemma {:induction false} SequenceOk<T>(rs: seq<Result<T, Exception>>)
    ensures Sequence(rs).Ok? <==> forall k :: 0 <= k < |rs| ==> rs[k].Ok?
    ensures Sequence(rs).Ok? ==> forall k :: 0 <= k < |rs| ==> rs[k] == Ok(Sequence(rs).value[k])
    decreases |rs|
  {
    if |rs| > 0 {
      var init := rs[..|rs| - 1];
      SequenceOk(init);
      assert forall k :: 0 <= k < |rs| - 1 ==> rs[k] == init[k];
    }
  }

  /** A loop that raises raises the error of its first failing read, every read before it having succeeded. */
  lemma {:induction false} SequenceErr<T>(rs: seq<Result<T, Exception>>)
    requires Sequence(rs).Err?
    ensures exists k :: 0 <= k < |rs| && rs[k] == Err(Sequence(rs).error) && forall j :: 0 <= j < k ==> rs[j].Ok?
    decreases |rs|
  {
    var init := rs[..|rs| - 1];
    assert forall j :: 0 <= j < |rs| - 1 ==> rs[j] == init[j];
    if Sequence(init).Err? {
      SequenceErr(init);
      var k :| 0 <= k < |init| && init[k] == Err(Sequence(init).error) && forall j :: 0 <= j < k ==> init[j].Ok?;
      assert rs[k] == init[k];
    } else {
      SequenceOk(init);
      assert rs[|rs| - 1] == Err(Sequence(rs).error);
    }
  }

  /** Once a prefix of the reads raises, the whole loop raises the same error. */
  lemma {:induction false} SequenceFirstError<T>(rs: seq<Result<T, Exception>>, n: nat)
    requires n <= |rs| && Sequence(rs[..n]).Err?
    ensures Sequence(rs) == Sequence(rs[..n])
    decreases |rs| - n
  {
    if n < |rs| {
      assert rs[..n + 1][..n] == rs[..n];
      SequenceFirstError(rs, n + 1);
    } else {
      assert rs[..n] == rs;
    }
  }

  /** When the whole loop completes, every prefix of it does, giving the first values. */
  lemma {:induction false} SequencePrefix<T>(rs: seq<Result<T, Exception>>, n: nat)
    requires n <= |rs| && Sequence(rs).Ok?
    ensures Sequence(rs[..n]) == Ok(Sequence(rs).value[..n])
    decreases |rs|
  {
    if n < |rs| {
      var init := rs[..|rs| - 1];
      assert init[..n] == rs[..n];
      assert Sequence(init).Ok?;
      var v := Sequence(init).value;
      assert Sequence(rs).value == v + [rs[|rs| - 1].value];
      SequencePrefix(init, n);
      assert (v + [rs[|rs| - 1].value])[..n] == v[..n];
    } else {
      assert rs[..n] == rs;
      assert Sequence(rs).value[..n] == Sequence(rs).value;
    }
  }

  /** One more read after those already done: it raises, or its value is appended. */
  lemma SequenceStep<T>(rs: seq<Result<T, Exception>>, k: nat, values: seq<T>)
    requires k < |rs| && Sequence(rs[..k]) == Ok(values)
    ensures rs[k].Err? ==> Sequence(rs[..k + 1]) == Err(rs[k].error)
    ensures rs[k].Ok? ==> Sequence(rs[..k + 1]) == Ok(values + [rs[k].value])
  {
    var qs := rs[..k + 1];
    assert qs[..|qs| - 1] == rs[..k];
    assert qs[|qs| - 1] == rs[k];
  }

  // ---------------------------------------------------------------------------
  // Paths

  /**
   * `os.path.join(a, b)` on POSIX: an absolute `b` wins; otherwise one '/'
   * between, unless `a` is empty or already ends in '/'. The joined path ends
   * with `b`.
   */
  function PathJoin(a: string, b: string): (r: string)
    ensures EndsWith(r, b)
    ensures |b| > 0 && b[0] == '/' ==> r == b
  {
    if |b| > 0 && b[0] == '/' then b
    else if |a| == 0 || a[|a| - 1] == '/' then a + b
    else a + "/" + b
  }

  /** What precedes a relative `b` in the joined path is `a`, with or without an added '/'. */
  lemma PathJoinShape(a: string, b: string)
    requires |b| == 0 || b[0] != '/'
    ensures var r := PathJoin(a, b); r[..|r| - |b|] == a || r[..|r| - |b|] == a + "/"
  {
  }
}
