/** The key-stroke validators of the search form. Tk calls each with the text
    an edit would leave in its entry and rejects the edit when it returns false,
    so an entry only ever holds text its validator accepts. */
module Validation {
  import opened Wrappers
  import opened Text

  /** `^[\d\-]` tested on a single character. */
  predicate DigitOrDash(c: char) {
    IsDigit(c) || c == '-'
  }

  /** Whether `int()` reads `t` as an integer lying in [lo, hi]. */
  predicate IntegerIn(t: string, lo: int, hi: int) {
    ParseInt(t).Some? && lo <= ParseInt(t).value <= hi
  }

  /** Whether `int()` reads `t` as an integer strictly between lo and hi. */
  predicate IntegerInside(t: string, lo: int, hi: int) {
    ParseInt(t).Some? && lo < ParseInt(t).value < hi
  }

  /** `latitude_validation`: the empty text, a bare minus or a single digit
      (a number still being typed), or an integer from -90 to 90. */
  function LatitudeValidation(lat: string): (ok: bool)
    ensures ok <==> lat == "" || lat == "-" || IntegerIn(lat, -90, 90)
  {
    if |lat| == 1 then ParseSingleChar(lat[0]); assert lat == [lat[0]];
      DigitOrDash(lat[0]) || IntegerIn(lat, -90, 90)
    else
      |lat| == 0 || IntegerIn(lat, -90, 90)
  }

  /** `longitude_validation`: as for latitude, but the integer must lie
      strictly between -180 and 180. */
  function LongitudeValidation(lon: string): (ok: bool)
    ensures ok <==> lon == "" || lon == "-" || IntegerIn(lon, -179, 179)
  {
    if |lon| == 1 then ParseSingleChar(lon[0]); assert lon == [lon[0]];
      DigitOrDash(lon[0]) || IntegerInside(lon, -180, 180)
    else
      |lon| == 0 || IntegerInside(lon, -180, 180)
  }

  /** A typed integer is kept in a latitude entry exactly when it is in [-90, 90]. */
  lemma LatitudeAcceptsExactly(v: int)
    ensures LatitudeValidation(IntText(v)) <==> -90 <= v <= 90
  {
    ParseIntText(v);
  }

  /** A typed integer is kept in a longitude entry exactly when -180 < v < 180. */
  lemma LongitudeAcceptsExactly(v: int)
    ensures LongitudeValidation(IntText(v)) <==> -180 < v < 180
  {
    ParseIntText(v);
  }

  /** The bounds themselves: both latitude poles are accepted, the
      antimeridian is rejected on either side. */
  lemma CoordinateBounds()
    ensures LatitudeValidation("90") && LatitudeValidation("-90")
    ensures !LatitudeValidation("91") && !LatitudeValidation("-91")
    ensures !LongitudeValidation("180") && !LongitudeValidation("-180")
    ensures LongitudeValidation("179") && LongitudeValidation("-179")
  {
    assert IntText(90) == "90" && IntText(-90) == "-90";
    assert IntText(91) == "91" && IntText(-91) == "-91";
    assert IntText(180) == "180" && IntText(-180) == "-180";
    assert IntText(179) == "179" && IntText(-179) == "-179";
    LatitudeAcceptsExactly(90);
    LatitudeAcceptsExactly(-90);
    LatitudeAcceptsExactly(91);
    LatitudeAcceptsExactly(-91);
    LongitudeAcceptsExactly(180);
    LongitudeAcceptsExactly(-180);
    LongitudeAcceptsExactly(179);
    LongitudeAcceptsExactly(-179);
  }

  /** The characters `[A-Z]` matches under `re.I`: the 52 ASCII letters and
      U+0130, U+0131, U+017F and U+212A, which case-fold onto ASCII letters. */
  predicate IsStateLetter(c: char) {
    IsLowerLetter(c) || IsUpperLetter(c)
  }

  /** `re.search(r"[^A-Z]", st, flags=re.I)`: a scan for a character outside
      that class. */
  function FindNonLetter(st: string): (found: bool)
    ensures found <==> exists i :: 0 <= i < |st| && !IsStateLetter(st[i])
  {
    if st == [] then false
    else if !IsStateLetter(st[0]) then true
    else
      var rest := FindNonLetter(st[1..]);
      assert forall i :: 1 <= i < |st| ==> st[i] == st[1..][i - 1];
      rest
  }

  /** `state_validation`: at most two characters, all letters. */
  function StateValidation(st: string): (ok: bool)
    ensures ok <==> |st| <= 2 && forall i :: 0 <= i < |st| ==> IsStateLetter(st[i])
  {
    !(FindNonLetter(st) || |st| > 2)
  }

  /** One alternative of `^$|^[\-0-9]{1}$|^[\-0-9]{1}[0-9]+$` matched up to `$`:
      empty, or a digit or minus followed by digits only. */
  predicate ElevPattern(t: string) {
    t == [] || (DigitOrDash(t[0]) && forall i :: 1 <= i < |t| ==> IsDigit(t[i]))
  }

  /** A pattern match other than "" and "-" is an integer for `int()`. */
  lemma ElevPatternParses(t: string)
    requires ElevPattern(t) && t != "" && t != "-"
    ensures ParseInt(t).Some?
  {
    if t[0] == '-' {
      var d := t[1..];
      assert forall i :: 0 <= i < |d| ==> d[i] == t[i + 1];
      AllDigitsRun(d);
      ParseNegatedDigits(t);
    } else {
      AllDigitsRun(t);
      ParseDigits(t);
    }
  }

  /** `int()` ignores one trailing newline. */
  lemma ParseIgnoresNewline(t: string)
    requires t != [] && !IsSpace(t[0]) && !IsSpace(t[|t| - 1])
    ensures ParseInt(t + "\n") == ParseInt(t)
  {
    var u := t + "\n";
    StripUnchanged(t);
    assert TrimLeft(u) == u;
    assert u[..|u| - 1] == t;
    assert TrimRight(u) == TrimRight(t);
  }

  /** `elev_validation`. Python's `$` also matches just before a final
      newline, so a pattern match followed by "\n" is accepted too. Every
      text it keeps, other than "", "-", "\n" and "-\n", is an integer for
      `int()`. */
  function ElevValidation(elev: string): (ok: bool)
    ensures ok ==> elev == "" || elev == "-" || elev == "\n" || elev == "-\n" || ParseInt(elev).Some?
  {
    MatchedElevParses(elev);
    ElevPattern(elev) || NewlineMatch(elev)
  }

  /** A pattern match followed by the newline `$` lets through. */
  predicate NewlineMatch(elev: string) {
    |elev| > 0 && elev[|elev| - 1] == '\n' && ElevPattern(elev[..|elev| - 1])
  }

  lemma MatchedElevParses(elev: string)
    ensures ElevPattern(elev) || NewlineMatch(elev) ==>
      elev == "" || elev == "-" || elev == "\n" || elev == "-\n" || ParseInt(elev).Some?
  {
    if ElevPattern(elev) {
      if elev != "" && elev != "-" {
        ElevPatternParses(elev);
      }
    } else if NewlineMatch(elev) {
      var t := elev[..|elev| - 1];
      assert elev == t + "\n";
      if t != "" && t != "-" {
        ElevPatternParses(t);
        ParseIgnoresNewline(t);
      }
    }
  }

  /** Every integer `str()` writes is a valid elevation entry. */
  lemma ElevAcceptsIntegers(v: int)
    ensures ElevValidation(IntText(v))
  {
    var t := IntText(v);
    if v < 0 {
      assert t[0] == '-' && t[1..] == NatText(-v);
    }
    assert ElevPattern(t);
  }

  /** Text the pattern rejects: a minus after the first character. */
  lemma ElevRejectsInnerMinus()
    ensures !ElevValidation("5-") && !ElevValidation("--1")
    ensures ElevValidation("-") && ElevValidation("5\n")
  {
    assert "5-"[1] == '-' && "--1"[1] == '-';
    assert "5\n"[..1] == "5";
  }
}
