/** The few pieces of Python's string machinery the finder relies on:
    `int()` applied to entry text, `str()` of a non-negative count,
    `str.upper()` / `str.isupper()` on state codes, and `<` on strings. */
module Text {
  import opened Wrappers

  predicate IsDigit(c: char) { '0' <= c <= '9' }

  function DigitValue(c: char): (d: nat)
    requires IsDigit(c)
    ensures d < 10
  {
    (c as int) - ('0' as int)
  }

  function DigitChar(d: nat): (c: char)
    requires d < 10
    ensures IsDigit(c) && DigitValue(c) == d
  {
    (('0' as int) + d) as char
  }

  /** The characters `str.isspace()` holds for; `int()` ignores them around a number. */
  predicate IsSpace(c: char) {
    c in {' ', '\t', '\n', '\r', '\U{0B}', '\U{0C}', '\U{1C}', '\U{1D}', '\U{1E}', '\U{1F}',
          '\U{85}', '\U{A0}', '\U{1680}', '\U{2028}', '\U{2029}', '\U{202F}', '\U{205F}', '\U{3000}'}
    || ('\U{2000}' <= c <= '\U{200A}')
  }

  /** `s` without its leading whitespace. */
  function TrimLeft(s: string): (r: string)
    ensures |r| <= |s| && r == s[|s| - |r|..]
    ensures r != [] ==> !IsSpace(r[0])
  {
    if s != [] && IsSpace(s[0]) then TrimLeft(s[1..]) else s
  }

  /** `s` without its trailing whitespace. */
  function TrimRight(s: string): (r: string)
    ensures |r| <= |s| && r == s[..|r|]
    ensures r != [] ==> !IsSpace(r[|r| - 1])
  {
    if s != [] && IsSpace(s[|s| - 1]) then TrimRight(s[..|s| - 1]) else s
  }

  function Strip(s: string): string {
    TrimRight(TrimLeft(s))
  }

  /** A run of decimal digits in which single underscores may separate two
      digits, the digit syntax Python's `int()` accepts ("1_000"). */
  predicate DigitRun(d: string) {
    |d| > 0 && IsDigit(d[0])
    && (|d| == 1 || DigitRun(d[1..]) || (d[1] == '_' && DigitRun(d[2..])))
  }

  /** Digits alone always form a run. */
  lemma {:induction false} AllDigitsRun(d: string)
    requires |d| > 0 && forall i :: 0 <= i < |d| ==> IsDigit(d[i])
    ensures DigitRun(d)
  {
    if |d| > 1 {
      AllDigitsRun(d[1..]);
    }
  }

  /** A run ends in a digit. */
  lemma {:induction false} DigitRunEnds(d: string)
    requires DigitRun(d)
    ensures IsDigit(d[0]) && IsDigit(d[|d| - 1])
  {
    if |d| > 1 {
      if DigitRun(d[1..]) {
        DigitRunEnds(d[1..]);
        assert d[|d| - 1] == d[1..][|d| - 2];
      } else {
        DigitRunEnds(d[2..]);
        assert d[|d| - 1] == d[2..][|d| - 3];
      }
    }
  }

  /** The number a digit run denotes; underscores carry no value. */
  function DigitsValue(d: string): nat {
    if d == [] then 0
    else if IsDigit(d[|d| - 1]) then DigitsValue(d[..|d| - 1]) * 10 + DigitValue(d[|d| - 1])
    else DigitsValue(d[..|d| - 1])
  }

  /** Some character of `s` is a digit. */
  predicate HasDigit(s: string) {
    exists i :: 0 <= i < |s| && IsDigit(s[i])
  }

  /** Python's `int(s)` in base 10: `None` where it raises `ValueError`.
      Surrounding whitespace is ignored and one sign may precede the digits. */
  function ParseInt(s: string): (r: Option<int>)
    ensures r.Some? ==> HasDigit(s)
    ensures s == "" ==> r.None?
  {
    StrippedDigit(s);
    ParseStripped(Strip(s))
  }

  /** A digit of the stripped text is a digit of the text. */
  lemma StrippedDigit(s: string)
    ensures ParseStripped(Strip(s)).Some? ==> HasDigit(s)
  {
    var l := TrimLeft(s);
    var t := TrimRight(l);
    if ParseStripped(t).Some? {
      var i :| 0 <= i < |t| && IsDigit(t[i]);
      assert s[|s| - |l| + i] == t[i];
      assert HasDigit(s);
    }
  }

  /** `int()` on text without surrounding whitespace. */
  function ParseStripped(t: string): (r: Option<int>)
    ensures r.Some? ==> HasDigit(t)
  {
    if t != [] && (t[0] == '+' || t[0] == '-') then
      var n: int := DigitsValue(t[1..]);
      if DigitRun(t[1..]) then
        DigitRunEnds(t[1..]);
        assert t[1] == t[1..][0];
        Some(if t[0] == '-' then -n else n)
      else None
    else if DigitRun(t) then DigitRunEnds(t); Some(DigitsValue(t))
    else None
  }

  /** Python's `str(n)` for a non-negative integer. */
  function NatText(n: nat): (r: string)
    ensures |r| > 0
    ensures forall i :: 0 <= i < |r| ==> IsDigit(r[i])
  {
    if n < 10 then [DigitChar(n)] else NatText(n / 10) + [DigitChar(n % 10)]
  }

  /** Python's `str(v)` for any integer. */
  function IntText(v: int): (r: string)
    ensures |r| > 0 && IsDigit(r[|r| - 1])
  {
    if v < 0 then "-" + NatText(-v) else NatText(v)
  }

  lemma {:induction false} NatTextValue(n: nat)
    ensures DigitsValue(NatText(n)) == n
  {
    var r := NatText(n);
    if n < 10 {
      assert r[..0] == [];
    } else {
      assert r[..|r| - 1] == NatText(n / 10);
      NatTextValue(n / 10);
    }
  }

  lemma StripUnchanged(s: string)
    requires s != [] && !IsSpace(s[0]) && !IsSpace(s[|s| - 1])
    ensures Strip(s) == s
  {
    assert TrimLeft(s) == s;
  }

  /** `int()` reads back every integer `str()` writes. */
  lemma ParseIntText(v: int)
    ensures ParseInt(IntText(v)) == Some(v)
  {
    if v < 0 {
      ParseNegativeText(v);
    } else {
      ParseNatText(v);
    }
  }

  lemma ParseNatText(v: int)
    requires v >= 0
    ensures ParseInt(IntText(v)) == Some(v)
  {
    var t := IntText(v);
    assert t == NatText(v);
    NatTextValue(v);
    AllDigitsRun(t);
    ParseDigits(t);
  }

  lemma ParseNegativeText(v: int)
    requires v < 0
    ensures ParseInt(IntText(v)) == Some(v)
  {
    var d := NatText(-v);
    NatTextValue(-v);
    AllDigitsRun(d);
    ParseMinusRun(d, -v);
    assert IntText(v) == "-" + d;
  }

  lemma ParseMinusRun(d: string, n: nat)
    requires DigitRun(d) && DigitsValue(d) == n
    ensures ParseInt("-" + d) == Some(-(n as int))
  {
    assert ("-" + d)[1..] == d;
    ParseNegatedDigits("-" + d);
  }

  /** `int()` of a bare digit run is its value. */
  lemma ParseDigits(t: string)
    requires DigitRun(t)
    ensures ParseInt(t) == Some(DigitsValue(t))
  {
    DigitRunEnds(t);
    StripUnchanged(t);
  }

  /** `int()` of a minus sign followed by a digit run is the negated value. */
  lemma ParseNegatedDigits(t: string)
    requires |t| > 1 && t[0] == '-' && DigitRun(t[1..])
    ensures ParseInt(t) == Some(-(DigitsValue(t[1..]) as int))
  {
    DigitRunEnds(t[1..]);
    assert t[|t| - 1] == t[1..][|t| - 2];
    StripUnchanged(t);
  }

  /** A one-character text is an integer exactly when it is a digit. */
  lemma ParseSingleChar(c: char)
    ensures ParseInt([c]) == if IsDigit(c) then Some(DigitValue(c)) else None
  {
    if IsSpace(c) {
      assert TrimLeft([c]) == TrimLeft([]);
    } else {
      StripUnchanged([c]);
      assert [c][1..] == [];
      if IsDigit(c) {
        assert DigitRun([c]);
        assert [c][..0] == [];
        assert DigitsValue([c]) == DigitValue(c);
        assert c != '+' && c != '-';
      } else {
        assert !DigitRun([c]);
      }
    }
  }

  // ---------------------------------------------------------------- case

  /** Letters `str.upper()` changes, among those a state entry can hold:
      ASCII a-z, dotless i (U+0131) and long s (U+017F). */
  predicate IsLowerLetter(c: char) {
    ('a' <= c <= 'z') || c == '\U{131}' || c == '\U{17F}'
  }

  /** Upper-case letters among those a state entry can hold: ASCII A-Z,
      dotted capital I (U+0130) and the Kelvin sign (U+212A). */
  predicate IsUpperLetter(c: char) {
    ('A' <= c <= 'Z') || c == '\U{130}' || c == '\U{212A}'
  }

  function UpperChar(c: char): (u: char)
    ensures !IsLowerLetter(u)
    ensures IsLowerLetter(c) ==> IsUpperLetter(u)
    ensures !IsLowerLetter(c) ==> u == c
  {
    if 'a' <= c <= 'z' then ((c as int) - 32) as char
    else if c == '\U{131}' then 'I'
    else if c == '\U{17F}' then 'S'
    else c
  }

  /** Python's `str.upper()` on the characters above. */
  function ToUpper(s: string): string {
    seq(|s|, i requires 0 <= i < |s| => UpperChar(s[i]))
  }

  predicate HasNoLower(s: string) {
    forall i :: 0 <= i < |s| ==> !IsLowerLetter(s[i])
  }

  /** Python's `str.isupper()`: some cased character, and no lower-case one. */
  predicate IsUpper(s: string) {
    (exists i :: 0 <= i < |s| && (IsLowerLetter(s[i]) || IsUpperLetter(s[i]))) && HasNoLower(s)
  }

  lemma ToUpperNoLower(s: string)
    ensures |ToUpper(s)| == |s| && HasNoLower(ToUpper(s))
  {
  }

  /** Upper-casing changes nothing in a text without lower-case letters. */
  lemma ToUpperFixes(s: string)
    requires HasNoLower(s)
    ensures ToUpper(s) == s
  {
  }

  lemma ToUpperIdempotent(s: string)
    ensures ToUpper(ToUpper(s)) == ToUpper(s)
  {
    ToUpperNoLower(s);
    ToUpperFixes(ToUpper(s));
  }

  // ---------------------------------------------------------------- order

  /** Python's `a <= b` on strings: lexicographic by code point, a proper
      prefix first. */
  function StrLe(a: string, b: string): (le: bool)
    ensures a <= b ==> le
  {
    a == [] || (b != [] && (a[0] < b[0] || (a[0] == b[0] && StrLe(a[1..], b[1..]))))
  }

  lemma {:induction false} StrLeTotal(a: string, b: string)
    ensures StrLe(a, b) || StrLe(b, a)
  {
    if a != [] && b != [] && a[0] == b[0] {
      StrLeTotal(a[1..], b[1..]);
    }
  }

  lemma {:induction false} StrLeTransitive(a: string, b: string, c: string)
    requires StrLe(a, b) && StrLe(b, c)
    ensures StrLe(a, c)
  {
    if a != [] && a[0] == b[0] && b[0] == c[0] {
      StrLeTransitive(a[1..], b[1..], c[1..]);
    }
  }

  lemma {:induction false} StrLeAntisymmetric(a: string, b: string)
    requires StrLe(a, b) && StrLe(b, a)
    ensures a == b
  {
    if a != [] {
      StrLeAntisymmetric(a[1..], b[1..]);
    }
  }
}
