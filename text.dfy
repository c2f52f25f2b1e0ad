/**
 * The pieces of Python's string handling that the controller's input loop and
 * the label-file parser rely on: `str.strip()`, `str.split(sep)` and `int(s)`
 * for decimal text, together with the conversions back (`str(n)` and
 * `sep.join(parts)`) that serve as their inverses.
 */
module PyText {

  datatype Option<T> = None | Some(value: T)

  datatype Result<T, E> = Ok(value: T) | Err(error: E)

  /** The separators U+001C to U+001F: whitespace for `str.isspace()`, but not skipped by `int()`. */
  predicate IsSeparator(c: char) {
    '\U{1C}' <= c <= '\U{1F}'
  }

  /** The characters for which Python's `str.isspace()` holds. */
  predicate IsSpace(c: char) {
    || c == ' '
    || ('\t' <= c <= '\r')
    || IsSeparator(c)
    || c == '\U{85}' || c == '\U{A0}' || c == '\U{1680}'
    || ('\U{2000}' <= c <= '\U{200A}')
    || c == '\U{2028}' || c == '\U{2029}' || c == '\U{202F}' || c == '\U{205F}' || c == '\U{3000}'
  }

  /**
   * The whitespace `int()` skips around a number. CPython turns non-ASCII
   * whitespace into ' ' and then skips only ' ' and `\t` to `\r`, so the
   * separators U+001C to U+001F, whitespace for `str.isspace()`, are not
   * skipped and make `int()` fail.
   */
  predicate IsIntSpace(c: char) {
    IsSpace(c) && !IsSeparator(c)
  }

  /** Drops the leading `space` characters and nothing else (`s.lstrip()` for `IsSpace`). */
  function TrimStart(s: string, space: char -> bool): (r: string)
    ensures |r| <= |s| && r == s[|s| - |r|..]
    ensures r == [] || !space(r[0])
    ensures forall i :: 0 <= i < |s| - |r| ==> space(s[i])
  {
    if s != [] && space(s[0]) then TrimStart(s[1..], space) else s
  }

  /** Drops the trailing `space` characters and nothing else (`s.rstrip()` for `IsSpace`). */
  function TrimEnd(s: string, space: char -> bool): (r: string)
    ensures |r| <= |s| && r == s[..|r|]
    ensures r == [] || !space(r[|r| - 1])
    ensures forall i :: |r| <= i < |s| ==> space(s[i])
  {
    if s != [] && space(s[|s| - 1]) then TrimEnd(s[..|s| - 1], space) else s
  }

  /** `r` is the slice of `s` from `a`, and everything of `s` before and after that slice is a `space` character. */
  predicate TrimmedSlice(s: string, a: int, r: string, space: char -> bool) {
    && 0 <= a <= |s| - |r| && r == s[a..a + |r|]
    && (forall i :: 0 <= i < a ==> space(s[i]))
    && (forall i :: a + |r| <= i < |s| ==> space(s[i]))
  }

  /**
   * Cutting `space` characters from both ends: the result is a slice of `s`
   * that neither starts nor ends with one, and everything cut off is one.
   */
  function Trim(s: string, space: char -> bool): (r: string)
    ensures r == [] || (!space(r[0]) && !space(r[|r| - 1]))
    ensures r == [] <==> forall i :: 0 <= i < |s| ==> space(s[i])
    ensures exists a :: TrimmedSlice(s, a, r, space)
  {
    var t := TrimStart(s, space);
    var r := TrimEnd(t, space);
    TrimBoth(s, t, r, space);
    r
  }

  /** Cutting from the front of `s` and then from the back gives a trimmed slice of `s`. */
  lemma TrimBoth(s: string, t: string, r: string, space: char -> bool)
    requires |t| <= |s| && t == s[|s| - |t|..] && forall i :: 0 <= i < |s| - |t| ==> space(s[i])
    requires |r| <= |t| && r == t[..|r|] && forall i :: |r| <= i < |t| ==> space(t[i])
    requires r == [] || !space(r[0])
    ensures TrimmedSlice(s, |s| - |t|, r, space)
    ensures r == [] <==> forall i :: 0 <= i < |s| ==> space(s[i])
  {
    var lo := |s| - |t|;
    assert forall i :: lo <= i < |s| ==> s[i] == t[i - lo];
    assert r == s[lo..lo + |r|];
    if r != [] {
      assert s[lo] == r[0];
    }
  }

  /** Text with no `space` character at either end is left alone. */
  lemma TrimUnpadded(s: string, space: char -> bool)
    requires s == [] || (!space(s[0]) && !space(s[|s| - 1]))
    ensures Trim(s, space) == s
  {
    assert TrimStart(s, space) == s;
    assert TrimEnd(s, space) == s;
  }

  /** Neither starts nor ends with whitespace. */
  predicate Unpadded(s: string) {
    s == [] || (!IsSpace(s[0]) && !IsSpace(s[|s| - 1]))
  }

  /**
   * `s.strip()`: the result is a slice of `s` that neither starts nor ends
   * with whitespace, and everything cut off on either side is whitespace.
   */
  function Strip(s: string): (r: string)
    ensures Unpadded(r)
    ensures r == [] <==> forall i :: 0 <= i < |s| ==> IsSpace(s[i])
    ensures exists a :: TrimmedSlice(s, a, r, IsSpace)
  {
    Trim(s, IsSpace)
  }

  /** Text that already has no whitespace at either end is left alone by `strip()`. */
  lemma StripUnpadded(s: string)
    requires Unpadded(s)
    ensures Strip(s) == s
  {
    TrimUnpadded(s, IsSpace);
  }

  /** One trailing whitespace character (a file line's newline) is removed by `strip()`. */
  lemma {:induction false} StripNewline(s: string, c: char)
    requires s != [] && Unpadded(s)
    requires IsSpace(c)
    ensures Strip(s + [c]) == s
  {
    var t := s + [c];
    assert TrimStart(t, IsSpace) == t;
    assert t[..|t| - 1] == s;
    assert TrimEnd(t, IsSpace) == TrimEnd(s, IsSpace);
    assert TrimEnd(s, IsSpace) == s;
  }

  predicate IsDigit(c: char) {
    '0' <= c <= '9'
  }

  /** The characters `int()` admits after the sign: ASCII digits and underscores. */
  predicate DigitsOrUnderscores(s: string) {
    forall i :: 0 <= i < |s| ==> IsDigit(s[i]) || s[i] == '_'
  }

  /**
   * The digit part `int()` accepts: non-empty, starting and ending with a
   * digit, an underscore only ever followed by a digit (PEP 515 grouping).
   */
  predicate IsDigitRun(s: string) {
    && |s| > 0
    && IsDigit(s[0]) && IsDigit(s[|s| - 1])
    && DigitsOrUnderscores(s)
    && (forall i :: 0 <= i < |s| - 1 && s[i] == '_' ==> IsDigit(s[i + 1]))
  }

  /** The value of a digit run, reading the digits left to right and skipping underscores. */
  function DigitsValue(s: string): nat
    requires DigitsOrUnderscores(s)
  {
    if s == [] then 0
    else
      var c := s[|s| - 1];
      if c == '_' then DigitsValue(s[..|s| - 1])
      else DigitsValue(s[..|s| - 1]) * 10 + (c as int - '0' as int)
  }

  /**
   * `int(s)` on a `str`: surrounding whitespace other than U+001C to U+001F
   * is ignored, then one optional sign and a digit run; anything else is the
   * `ValueError` (`None`).
   */
  function ParseInt(s: string): Option<int> {
    ParseSigned(Trim(s, IsIntSpace))
  }

  /** The stripped text `int()` reads: one optional sign, then a digit run. */
  function ParseSigned(t: string): Option<int> {
    var signed := |t| > 0 && (t[0] == '-' || t[0] == '+');
    var body := if signed then t[1..] else t;
    if !IsDigitRun(body) then None
    else if signed && t[0] == '-' then Some(-(DigitsValue(body) as int))
    else Some(DigitsValue(body))
  }

  function DigitChar(d: nat): (c: char)
    requires d < 10
    ensures IsDigit(c)
  {
    ('0' as int + d) as char
  }

  /** `str(n)` for a natural number: its decimal digits, most significant first. */
  function NatDecimal(n: nat): (s: string)
    ensures |s| > 0
    ensures forall i :: 0 <= i < |s| ==> IsDigit(s[i])
  {
    if n < 10 then [DigitChar(n)] else NatDecimal(n / 10) + [DigitChar(n % 10)]
  }

  /** `str(n)` for any integer. */
  function Decimal(n: int): string {
    if n < 0 then "-" + NatDecimal(-n) else NatDecimal(n)
  }

  lemma {:induction false} NatDecimalValue(n: nat)
    ensures DigitsValue(NatDecimal(n)) == n
  {
    var s := NatDecimal(n);
    if n >= 10 {
      assert s[..|s| - 1] == NatDecimal(n / 10);
      NatDecimalValue(n / 10);
    } else {
      assert s[..|s| - 1] == [];
    }
  }

  /** A run of plain digits is one `int()` accepts. */
  lemma AllDigitsRun(s: string)
    requires |s| > 0 && forall i :: 0 <= i < |s| ==> IsDigit(s[i])
    ensures IsDigitRun(s)
  {
  }

  /** `int()` of an unsigned digit run is the run's value. */
  lemma ParseUnsigned(body: string)
    requires IsDigitRun(body)
    ensures ParseInt(body) == Some(DigitsValue(body))
  {
    assert !(body[0] == '-' || body[0] == '+');
    assert ParseSigned(body) == Some(DigitsValue(body));
    TrimUnpadded(body, IsIntSpace);
  }

  /** `int()` of a minus sign followed by a digit run is the negated value. */
  lemma ParseNegative(body: string)
    requires IsDigitRun(body)
    ensures ParseInt("-" + body) == Some(-(DigitsValue(body) as int))
  {
    var s := "-" + body;
    assert s[0] == '-' && s[|s| - 1] == body[|body| - 1];
    TrimUnpadded(s, IsIntSpace);
    SignedNegative(body);
  }

  /** The sign and digit rule alone, on text with nothing to strip. */
  lemma SignedNegative(body: string)
    requires IsDigitRun(body)
    ensures ParseSigned("-" + body) == Some(-(DigitsValue(body) as int))
  {
    var s := "-" + body;
    assert s[0] == '-' && s[1..] == body;
  }

  /** A separator anywhere in the text after the whitespace is cut makes the sign-and-digits rule fail. */
  lemma SignedRefuses(t: string, k: int)
    requires 0 <= k < |t| && IsSeparator(t[k])
    ensures ParseSigned(t) == None
  {
    var signed := t[0] == '-' || t[0] == '+';
    var body := if signed then t[1..] else t;
    var m := if signed then k - 1 else k;
    assert body[m] == t[k];
  }

  /** `int()` refuses any text holding a separator, wherever it stands. */
  lemma ParseIntRefusesSeparator(s: string, j: int)
    requires 0 <= j < |s| && IsSeparator(s[j])
    ensures ParseInt(s) == None
  {
    var r := Trim(s, IsIntSpace);
    var a :| TrimmedSlice(s, a, r, IsIntSpace);
    assert !IsIntSpace(s[j]);
    assert r[j - a] == s[j];
    SignedRefuses(r, j - a);
  }

  /** Cutting by two tests that agree on every character of `s` cuts the same prefix. */
  lemma {:induction false} TrimStartAgree(s: string, p: char -> bool, q: char -> bool)
    requires forall i :: 0 <= i < |s| ==> p(s[i]) == q(s[i])
    ensures TrimStart(s, p) == TrimStart(s, q)
    decreases |s|
  {
    if s != [] && p(s[0]) {
      assert forall i :: 0 <= i < |s| - 1 ==> s[1..][i] == s[i + 1];
      TrimStartAgree(s[1..], p, q);
    }
  }

  /** Cutting by two tests that agree on every character of `s` cuts the same suffix. */
  lemma {:induction false} TrimEndAgree(s: string, p: char -> bool, q: char -> bool)
    requires forall i :: 0 <= i < |s| ==> p(s[i]) == q(s[i])
    ensures TrimEnd(s, p) == TrimEnd(s, q)
    decreases |s|
  {
    if s != [] && p(s[|s| - 1]) {
      assert forall i :: 0 <= i < |s| - 1 ==> s[..|s| - 1][i] == s[i];
      TrimEndAgree(s[..|s| - 1], p, q);
    }
  }

  /** Cutting by two tests that agree on every character of `s` gives the same result. */
  lemma TrimAgree(s: string, p: char -> bool, q: char -> bool)
    requires forall i :: 0 <= i < |s| ==> p(s[i]) == q(s[i])
    ensures Trim(s, p) == Trim(s, q)
  {
    TrimStartAgree(s, p, q);
    var t := TrimStart(s, p);
    assert forall i :: 0 <= i < |t| ==> t[i] == s[|s| - |t| + i];
    TrimEndAgree(t, p, q);
  }

  /** On text without separators, `int()` skips exactly what `strip()` removes. */
  lemma ParseIntStrip(s: string)
    requires forall i :: 0 <= i < |s| ==> !IsSeparator(s[i])
    ensures ParseInt(s) == ParseSigned(Strip(s))
  {
    forall i | 0 <= i < |s| ensures IsIntSpace(s[i]) == IsSpace(s[i]) {
      assert !IsSeparator(s[i]);
    }
    TrimAgree(s, IsIntSpace, IsSpace);
  }

  /** `int(str(n)) == n`: printing a number and reading it back gives the number. */
  lemma ParseDecimal(n: int)
    ensures ParseInt(Decimal(n)) == Some(n)
  {
    var m := if n < 0 then -n else n;
    NatDecimalValue(m);
    AllDigitsRun(NatDecimal(m));
    if n < 0 {
      ParseNegative(NatDecimal(m));
    } else {
      ParseUnsigned(NatDecimal(m));
    }
  }

  /** The text form of a number has no whitespace at its ends and no separator in it. */
  lemma DecimalShape(n: int)
    ensures var s := Decimal(n); |s| > 0 && Unpadded(s)
    ensures forall i :: 0 <= i < |Decimal(n)| ==> IsDigit(Decimal(n)[i]) || Decimal(n)[i] == '-'
  {
  }

  function Count(s: string, c: char): nat {
    if s == [] then 0 else (if s[0] == c then 1 else 0) + Count(s[1..], c)
  }

  /**
   * `s.split(sep)` for a one-character separator: the pieces between
   * separators, one more piece than there are separators, none containing one.
   */
  function Split(s: string, sep: char): (parts: seq<string>)
    ensures |parts| == Count(s, sep) + 1
    ensures forall i :: 0 <= i < |parts| ==> sep !in parts[i]
  {
    if s == [] then [[]]
    else
      var rest := Split(s[1..], sep);
      if s[0] == sep then [[]] + rest
      else [[s[0]] + rest[0]] + rest[1..]
  }

  /** `sep.join(parts)`. */
  function Join(parts: seq<string>, sep: char): string
    requires |parts| > 0
  {
    if |parts| == 1 then parts[0] else parts[0] + [sep] + Join(parts[1..], sep)
  }

  /** Joining the pieces of a split gives back the text. */
  lemma {:induction false} JoinSplit(s: string, sep: char)
    ensures Join(Split(s, sep), sep) == s
  {
    if s != [] {
      var rest := Split(s[1..], sep);
      JoinSplit(s[1..], sep);
      if s[0] == sep {
        assert Split(s, sep)[1..] == rest;
      } else {
        var parts := Split(s, sep);
        if |rest| == 1 {
          assert parts == [[s[0]] + rest[0]];
        } else {
          assert parts[1..] == rest[1..];
          assert Join(rest, sep) == rest[0] + [sep] + Join(rest[1..], sep);
        }
      }
    }
  }

  /** A separator-free prefix joins the first piece of what follows it. */
  lemma {:induction false} SplitPrefix(w: string, t: string, sep: char)
    requires sep !in w
    ensures Split(w + t, sep) == [w + Split(t, sep)[0]] + Split(t, sep)[1..]
  {
    if w != [] {
      assert (w + t)[1..] == w[1..] + t;
      SplitPrefix(w[1..], t, sep);
      assert [w[0]] + (w[1..] + Split(t, sep)[0]) == w + Split(t, sep)[0];
    } else {
      var parts := Split(t, sep);
      assert w + t == t;
      assert w + parts[0] == parts[0];
      assert parts == [parts[0]] + parts[1..];
    }
  }

  /** Splitting a join of separator-free pieces gives back the pieces. */
  lemma {:induction false} SplitJoin(parts: seq<string>, sep: char)
    requires |parts| > 0
    requires forall i :: 0 <= i < |parts| ==> sep !in parts[i]
    ensures Split(Join(parts, sep), sep) == parts
  {
    if |parts| == 1 {
      SplitPrefix(parts[0], [], sep);
      assert parts[0] + [] == parts[0];
    } else {
      var tail := Join(parts[1..], sep);
      SplitJoin(parts[1..], sep);
      assert Split([sep] + tail, sep) == [[]] + parts[1..];
      SplitPrefix(parts[0], [sep] + tail, sep);
      assert parts[0] + [sep] + tail == parts[0] + ([sep] + tail);
      assert parts[0] + [] == parts[0];
    }
  }
}
