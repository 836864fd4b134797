/**
 * The string operations of Python that the scraper relies on: `str.strip()`,
 * ASCII digit runs read by `int(...)`, decimal rendering of integers and
 * `int(s)` on a header value, and the code-point order that `sorted` and
 * `list.sort` use on strings.
 */
module Text {
  import opened Wrappers

  /** Python's `str.isspace()`: the characters `str.strip()` removes. */
  predicate IsSpace(c: char) {
    var n := c as int;
    n == 32 || 9 <= n <= 13 || 28 <= n <= 31 || n == 0x85 || n == 0xA0 || n == 0x1680
    || 0x2000 <= n <= 0x200A || n == 0x2028 || n == 0x2029 || n == 0x202F || n == 0x205F
    || n == 0x3000
  }

  /** `s.lstrip()`. */
  function LStrip(s: string): string {
    if |s| > 0 && IsSpace(s[0]) then LStrip(s[1..]) else s
  }

  /** `s.rstrip()`. */
  function RStrip(s: string): string {
    if |s| > 0 && IsSpace(s[|s| - 1]) then RStrip(s[..|s| - 1]) else s
  }

  /** `s.strip()`. */
  function Strip(s: string): string {
    RStrip(LStrip(s))
  }

  /** `lstrip` keeps the longest suffix of `s` that does not start with whitespace. */
  lemma {:induction false} LStripSpec(s: string)
    ensures var r := LStrip(s);
      && |r| <= |s| && r == s[|s| - |r|..]
      && (forall i :: 0 <= i < |s| - |r| ==> IsSpace(s[i]))
      && (r == [] || !IsSpace(r[0]))
  {
    if |s| > 0 && IsSpace(s[0]) {
      LStripSpec(s[1..]);
    }
  }

  /** `rstrip` keeps the longest prefix of `s` that does not end with whitespace. */
  lemma {:induction false} RStripSpec(s: string)
    ensures var r := RStrip(s);
      && |r| <= |s| && r == s[..|r|]
      && (forall i :: |r| <= i < |s| ==> IsSpace(s[i]))
      && (r == [] || !IsSpace(r[|r| - 1]))
  {
    if |s| > 0 && IsSpace(s[|s| - 1]) {
      RStripSpec(s[..|s| - 1]);
    }
  }

  /**
   * `strip` removes whitespace from both ends and touches nothing else:
   * the result is a slice `s[a..b]` with only whitespace outside it and
   * none at either of its ends.
   */
  lemma StripSpec(s: string)
    ensures exists a, b :: StripSlice(s, a, b)
  {
    LStripSpec(s);
    var l := LStrip(s);
    RStripSpec(l);
    var a := |s| - |l|;
    var b := a + |RStrip(l)|;
    assert s[a..b] == l[..|RStrip(l)|];
    assert StripSlice(s, a, b);
  }

  /** `Strip(s)` is `s[a..b]`, every character outside it is whitespace, and it neither starts nor ends with whitespace. */
  predicate StripSlice(s: string, a: int, b: int) {
    && 0 <= a <= b <= |s| && Strip(s) == s[a..b]
    && (forall i :: 0 <= i < a ==> IsSpace(s[i]))
    && (forall i :: b <= i < |s| ==> IsSpace(s[i]))
    && (a == b || (!IsSpace(s[a]) && !IsSpace(s[b - 1])))
  }

  /** A string with no whitespace at either end is its own strip. */
  lemma StripNoop(s: string)
    requires s == [] || (!IsSpace(s[0]) && !IsSpace(s[|s| - 1]))
    ensures Strip(s) == s
  {
  }

  predicate StartsWith(s: string, prefix: string) {
    |prefix| <= |s| && s[..|prefix|] == prefix
  }

  /** `[0-9]` in a Python `str` regex: ASCII digits only. */
  predicate IsDigit(c: char) {
    '0' <= c <= '9'
  }

  /** Some character of `s` is a decimal digit. */
  predicate HasDigit(s: string) {
    exists i :: 0 <= i < |s| && IsDigit(s[i])
  }

  /** Some character of `s` is a minus sign. */
  predicate HasMinus(s: string) {
    exists i :: 0 <= i < |s| && s[i] == '-'
  }

  predicate AllDigits(s: string) {
    forall i :: 0 <= i < |s| ==> IsDigit(s[i])
  }

  /** Length of the longest run of digits at the start of `s` (what a greedy `[0-9]+` consumes). */
  function DigitRun(s: string): (n: nat)
    ensures n <= |s| && AllDigits(s[..n])
    ensures n < |s| ==> !IsDigit(s[n])
  {
    if |s| > 0 && IsDigit(s[0]) then
      var k := DigitRun(s[1..]);
      assert s[..k + 1] == [s[0]] + s[1..][..k];
      k + 1
    else 0
  }

  /** A greedy `[0-9]+` consumes exactly the digits written before a non-digit. */
  lemma {:induction false} DigitRunOf(digits: string, tail: string)
    requires AllDigits(digits)
    requires tail == [] || !IsDigit(tail[0])
    ensures DigitRun(digits + tail) == |digits|
  {
    if digits != [] {
      assert (digits + tail)[1..] == digits[1..] + tail;
      DigitRunOf(digits[1..], tail);
    }
  }

  /** Length of the longest prefix of `s` whose characters all satisfy `p` (a greedy `[...]*`). */
  function Span(s: string, p: char -> bool): (n: nat)
    ensures n <= |s| && forall i :: 0 <= i < n ==> p(s[i])
    ensures n < |s| ==> !p(s[n])
  {
    if |s| > 0 && p(s[0]) then Span(s[1..], p) + 1 else 0
  }

  /** `int(ds)` for a string of ASCII digits (leading zeros allowed, as `int` allows them). */
  function DecimalValue(ds: string): nat
    requires AllDigits(ds)
  {
    if ds == [] then 0
    else DecimalValue(ds[..|ds| - 1]) * 10 + (ds[|ds| - 1] as int - '0' as int)
  }

  function DigitChar(d: nat): (c: char)
    requires d < 10
    ensures IsDigit(c) && c as int - '0' as int == d
  {
    (d + '0' as int) as char
  }

  /** `str(n)` for a non-negative integer: its shortest decimal spelling. */
  function Render(n: nat): (s: string)
    ensures |s| > 0 && AllDigits(s) && DecimalValue(s) == n
    ensures |s| > 1 ==> s[0] != '0'
  {
    if n < 10 then [DigitChar(n)]
    else
      var s := Render(n / 10) + [DigitChar(n % 10)];
      assert s[..|s| - 1] == Render(n / 10);
      s
  }

  /**
   * The digits-and-underscores body of a Python integer literal as `int()`
   * accepts it: a digit, then digits each optionally preceded by a single
   * underscore.
   */
  predicate UnderscoredDigits(b: string) {
    && |b| > 0 && IsDigit(b[0])
    && (|b| == 1 || UnderscoredDigits(b[1..]) || (b[1] == '_' && UnderscoredDigits(b[2..])))
  }

  /** `b` with its underscores removed. */
  function DropUnderscores(b: string): string {
    if b == [] then []
    else if b[0] == '_' then DropUnderscores(b[1..])
    else [b[0]] + DropUnderscores(b[1..])
  }

  /** What is left of an accepted body once its underscores go is a non-empty run of digits. */
  lemma {:induction false} DropUnderscoresDigits(b: string)
    requires UnderscoredDigits(b)
    ensures AllDigits(DropUnderscores(b)) && |DropUnderscores(b)| > 0
  {
    if |b| > 1 {
      if UnderscoredDigits(b[1..]) {
        DropUnderscoresDigits(b[1..]);
      } else {
        assert b[1..][1..] == b[2..];
        DropUnderscoresDigits(b[2..]);
      }
    }
  }

  /** A non-empty run of plain digits is an accepted body. */
  lemma {:induction false} DigitsAccepted(ds: string)
    requires |ds| > 0 && AllDigits(ds)
    ensures UnderscoredDigits(ds)
  {
    if |ds| > 1 {
      DigitsAccepted(ds[1..]);
    }
  }

  /** Every character that strip keeps is a character of the string. */
  lemma StrippedCharIn(s: string, k: nat)
    requires k < |Strip(s)|
    ensures exists i :: 0 <= i < |s| && s[i] == Strip(s)[k]
  {
    StripSpec(s);
    var a, b :| StripSlice(s, a, b);
    assert s[a + k] == Strip(s)[k];
  }

  /**
   * `int(s)` on a decimal string, or None where Python raises ValueError:
   * surrounding whitespace is ignored, one optional sign, then digits with
   * optional single underscores between them.
   */
  function ParseInt(s: string): Option<int> {
    var t := Strip(s);
    var signed := |t| > 0 && (t[0] == '+' || t[0] == '-');
    var body := if signed then t[1..] else t;
    if UnderscoredDigits(body) then
      DropUnderscoresDigits(body);
      var v: int := DecimalValue(DropUnderscores(body));
      Some(if signed && t[0] == '-' then -v else v)
    else None
  }

  /**
   * `int()` accepts only text holding a digit, and returns a negative number
   * only from text holding a minus sign.
   */
  lemma ParseIntAccepted(s: string)
    ensures ParseInt(s).Some? ==> HasDigit(s)
    ensures ParseInt(s).Some? && ParseInt(s).value < 0 ==> HasMinus(s)
  {
    var t := Strip(s);
    var signed := |t| > 0 && (t[0] == '+' || t[0] == '-');
    var body := if signed then t[1..] else t;
    if UnderscoredDigits(body) {
      StrippedCharIn(s, if signed then 1 else 0);
      StrippedCharIn(s, 0);
    }
  }

  lemma DropUnderscoresOfDigits(ds: string)
    requires AllDigits(ds)
    ensures DropUnderscores(ds) == ds
  {
    if ds != [] {
      DropUnderscoresOfDigits(ds[1..]);
    }
  }

  /** `int(str(n)) == n`: parsing undoes rendering. */
  lemma ParseIntRender(n: nat)
    ensures ParseInt(Render(n)) == Some(n)
  {
    var s := Render(n);
    DropUnderscoresOfDigits(s);
    StripNoop(s);
    DigitsAccepted(s);
  }

  /** `int("-" + str(n)) == -n`. */
  lemma ParseIntRenderNegative(n: nat)
    ensures ParseInt("-" + Render(n)) == Some(-(n as int))
  {
    var s := Render(n);
    var m := "-" + s;
    DropUnderscoresOfDigits(s);
    StripNoop(m);
    var t := Strip(m);
    assert t == m;
    assert t[0] == '-' && t[1..] == s;
    DigitsAccepted(s);
  }

  /** Python's `<` on `str`: lexicographic by code point, a proper prefix first. */
  predicate StrLess(a: string, b: string) {
    if |a| == 0 then |b| > 0
    else if |b| == 0 then false
    else if a[0] != b[0] then a[0] < b[0]
    else StrLess(a[1..], b[1..])
  }

  lemma {:induction false} StrLessIrreflexive(a: string)
    ensures !StrLess(a, a)
  {
    if |a| > 0 {
      StrLessIrreflexive(a[1..]);
    }
  }

  lemma {:induction false} StrLessTransitive(a: string, b: string, c: string)
    requires StrLess(a, b) && StrLess(b, c)
    ensures StrLess(a, c)
  {
    if |a| > 0 && |b| > 0 && |c| > 0 && a[0] == b[0] && b[0] == c[0] {
      StrLessTransitive(a[1..], b[1..], c[1..]);
    }
  }

  /** Any two different strings are ordered one way or the other. */
  lemma {:induction false} StrLessTotal(a: string, b: string)
    requires a != b
    ensures StrLess(a, b) || StrLess(b, a)
  {
    if |a| > 0 && |b| > 0 && a[0] == b[0] {
      assert a == [a[0]] + a[1..] && b == [b[0]] + b[1..];
      StrLessTotal(a[1..], b[1..]);
    }
  }

  lemma {:induction false} StrLessAsymmetric(a: string, b: string)
    requires StrLess(a, b)
    ensures !StrLess(b, a)
  {
    if |a| > 0 && |b| > 0 && a[0] == b[0] {
      StrLessAsymmetric(a[1..], b[1..]);
    }
  }
}
