/**
 * Numbers as the two runtimes see them: JavaScript's `number` as an exact
 * real or NaN (IEEE-754 rounding is not modelled), JavaScript's
 * `parseInt(s, 10)` and Python's `int(s)`.
 */
module Numbers {
  import opened Wrappers
  import opened Text

  /** A JavaScript number: an exact rational value, or NaN. */
  datatype Number = Num(value: real) | NaN

  function FromInt(n: int): Number {
    Num(n as real)
  }

  /** `a < b`: false whenever either side is NaN. */
  predicate Lt(a: Number, b: Number) {
    a.Num? && b.Num? && a.value < b.value
  }

  /** `a > b`: false whenever either side is NaN. */
  predicate Gt(a: Number, b: Number) {
    Lt(b, a)
  }

  /** `a >= b`: false whenever either side is NaN. */
  predicate Ge(a: Number, b: Number) {
    a.Num? && b.Num? && a.value >= b.value
  }

  /** `a === b`: NaN equals nothing, itself included. */
  predicate StrictEq(a: Number, b: Number) {
    a.Num? && b.Num? && a.value == b.value
  }

  function Sub(a: Number, b: Number): Number {
    if a.Num? && b.Num? then Num(a.value - b.value) else NaN
  }

  /** `a / b` for a divisor that is not zero (the code never divides by zero). */
  function Div(a: Number, b: Number): Number
    requires b != Num(0.0)
  {
    if a.Num? && b.Num? then Num(a.value / b.value) else NaN
  }

  function Mul(a: Number, b: Number): Number {
    if a.Num? && b.Num? then Num(a.value * b.value) else NaN
  }

  predicate IsDigit(c: char) {
    '0' <= c <= '9'
  }

  predicate AllDigits(s: string) {
    forall i :: 0 <= i < |s| ==> IsDigit(s[i])
  }

  /** The decimal value of a string of digits. */
  function DigitsValue(s: string): nat
    requires AllDigits(s)
  {
    if s == [] then 0 else DigitsValue(s[..|s| - 1]) * 10 + (s[|s| - 1] as int - '0' as int)
  }

  /** The longest prefix of `s` made of decimal digits. */
  function DigitPrefix(s: string): (r: string)
    ensures |r| <= |s| && r == s[..|r|] && AllDigits(r)
    ensures |r| < |s| ==> !IsDigit(s[|r|])
  {
    if |s| == 0 || !IsDigit(s[0]) then "" else [s[0]] + DigitPrefix(s[1..])
  }

  predicate IsSign(c: char) {
    c == '+' || c == '-'
  }

  /** The text after an optional leading sign. */
  function Unsigned(t: string): string {
    if |t| > 0 && IsSign(t[0]) then t[1..] else t
  }

  /** `v`, negated when `t` starts with a minus sign. */
  function Signed(t: string, v: nat): int {
    if |t| > 0 && t[0] == '-' then -(v as int) else v
  }

  /**
   * `parseInt(s, 10)`: after leading whitespace, an optional sign and at
   * least one digit; whatever follows the digits is ignored. None is NaN.
   */
  function ParseIntJs(s: string): Option<int> {
    ReadJs(TrimStart(Js, s))
  }

  function ReadJs(t: string): Option<int> {
    var d := DigitPrefix(Unsigned(t));
    if d == "" then None else Some(Signed(t, DigitsValue(d)))
  }

  /**
   * Digits with single underscores between them, as Python's `int()`
   * accepts them ("1_000").
   */
  predicate IsPyDigits(s: string) {
    |s| > 0 && IsDigit(s[0]) && IsDigit(s[|s| - 1])
    && (forall i :: 0 <= i < |s| ==> IsDigit(s[i]) || s[i] == '_')
    && (forall i :: 0 <= i < |s| - 1 ==> s[i] == '_' ==> s[i + 1] != '_')
  }

  /** The digits of `s` with the underscores removed. */
  function DropUnderscores(s: string): (r: string)
    requires forall i :: 0 <= i < |s| ==> IsDigit(s[i]) || s[i] == '_'
    ensures AllDigits(r)
    ensures '_' !in s ==> r == s
  {
    if s == [] then ""
    else if s[0] == '_' then DropUnderscores(s[1..])
    else [s[0]] + DropUnderscores(s[1..])
  }

  /**
   * Python's `int(s)`: the whole string, once stripped of whitespace, must
   * be an optional sign followed by digits; anything else raises
   * ValueError, which is None here.
   */
  function ParseIntPy(s: string): Option<int> {
    ReadPy(Trim(Py, s))
  }

  function ReadPy(t: string): Option<int> {
    var body := Unsigned(t);
    if IsPyDigits(body) then Some(Signed(t, DigitsValue(DropUnderscores(body)))) else None
  }

  /** No character that Python treats as whitespace is lost on JavaScript. */
  predicate PySpacesAreJsSpaces(s: string) {
    forall i :: 0 <= i < |s| ==> IsPySpace(s[i]) ==> IsJsSpace(s[i])
  }

  lemma {:induction false} TrimStartPyJs(s: string)
    requires PySpacesAreJsSpaces(s)
    requires TrimStart(Py, s) == [] || !IsJsSpace(TrimStart(Py, s)[0])
    ensures TrimStart(Js, s) == TrimStart(Py, s)
  {
    if |s| > 0 && IsPySpace(s[0]) {
      assert s[1..][..] == s[1..];
      TrimStartPyJs(s[1..]);
    }
  }

  lemma DigitPrefixOfDigits(d: string, rest: string)
    requires AllDigits(d)
    requires rest == [] || !IsDigit(rest[0])
    ensures DigitPrefix(d + rest) == d
  {
    if d != [] {
      assert (d + rest)[1..] == d[1..] + rest;
      DigitPrefixOfDigits(d[1..], rest);
    }
  }

  lemma NotJsSpaceSignDigit(c: char)
    requires IsSign(c) || IsDigit(c)
    ensures !IsJsSpace(c) && !IsPySpace(c)
  {
  }

  /** What follows the body in the JavaScript view is whitespace, so no digit. */
  lemma {:induction false} BodyThenSpace(tp: string, t: string, off: nat)
    requires |t| <= |tp| && t == tp[..|t|] && off <= |t|
    requires forall i :: |t| <= i < |tp| ==> IsPySpace(tp[i])
    ensures tp[off..] == t[off..] + tp[|t|..]
    ensures tp[|t|..] == [] || !IsDigit(tp[|t|..][0])
  {
    assert tp == t + tp[|t|..];
  }

  /** The shape of a string Python's `int()` accepts, seen from both sides of its strip. */
  lemma PyAcceptedShape(s: string)
    requires ParseIntPy(s).Some? && PySpacesAreJsSpaces(s)
    ensures var tp := TrimStart(Py, s); var t := TrimEnd(Py, tp);
      && |t| > 0 && |t| <= |tp| && t == tp[..|t|] && tp[0] == t[0]
      && IsPyDigits(Unsigned(t))
      && TrimStart(Js, s) == tp
      && (forall i :: |t| <= i < |tp| ==> IsPySpace(tp[i]))
  {
    var tp := TrimStart(Py, s);
    var t := TrimEnd(Py, tp);
    TrimStartShape(Py, s);
    TrimEndShape(Py, tp);
    assert t == Trim(Py, s);
    assert IsPyDigits(Unsigned(t));
    NotJsSpaceSignDigit(t[0]);
    TrimStartPyJs(s);
  }

  /**
   * Where Python's `int()` accepts a string without underscores and without
   * a whitespace character that only Python skips, `parseInt` reads the
   * same value.
   */
  lemma ParseIntPyImpliesJs(s: string)
    requires ParseIntPy(s).Some?
    requires '_' !in s && PySpacesAreJsSpaces(s)
    ensures ParseIntJs(s) == ParseIntPy(s)
  {
    PyAcceptedShape(s);
    var tp := TrimStart(Py, s);
    var t := TrimEnd(Py, tp);
    var body := Unsigned(t);
    var off := if IsSign(t[0]) then 1 else 0;
    BodyThenSpace(tp, t, off);
    assert body == t[off..];
    assert '_' !in body by {
      TrimStartShape(Py, s);
      assert '_' !in tp;
    }
    DigitPrefixOfDigits(body, tp[|t|..]);
    assert Unsigned(tp) == body + tp[|t|..];
    assert DropUnderscores(body) == body;
    assert ParseIntJs(s) == ReadJs(tp);
    assert ParseIntPy(s) == ReadPy(t);
  }

  lemma PrefixDigits12()
    ensures DigitPrefix("12x") == "12" && DigitsValue("12") == 12
  {
    DigitPrefixOfDigits("12", "x");
    assert "12" + "x" == "12x";
    assert "12"[..1] == "1";
    assert "1"[..0] == "";
  }

  lemma NoTrim12x()
    ensures TrimStart(Js, "12x") == "12x" && Trim(Py, "12x") == "12x"
  {
    assert !IsJsSpace('1') && !IsPySpace('1') && !IsPySpace('x');
    assert TrimStart(Py, "12x") == "12x";
  }

  /** `parseInt` ignores trailing junk; Python's `int()` rejects it. */
  lemma ParseIntTrailingJunk()
    ensures ParseIntJs("12x") == Some(12)
    ensures ParseIntPy("12x") == None
  {
    NoTrim12x();
    PrefixDigits12();
    assert !IsPyDigits("12x");
  }

  lemma NoTrim1u0()
    ensures TrimStart(Js, "1_0") == "1_0" && Trim(Py, "1_0") == "1_0"
  {
    assert !IsJsSpace('1') && !IsPySpace('1') && !IsPySpace('0');
    assert TrimStart(Py, "1_0") == "1_0";
  }

  lemma Digits1u0()
    ensures DigitPrefix("1_0") == "1" && DigitsValue("1") == 1
    ensures IsPyDigits("1_0") && DropUnderscores("1_0") == "10" && DigitsValue("10") == 10
  {
    DigitPrefixOfDigits("1", "_0");
    assert "1" + "_0" == "1_0";
    assert "1"[..0] == "";
    assert "1_0"[1..] == "_0";
    assert "_0"[1..] == "0";
    assert "0"[1..] == "";
    assert "10"[..1] == "1";
  }

  /** Python reads digit groups ("1_0" is ten); `parseInt` stops at the underscore. */
  lemma ParseIntUnderscore()
    ensures ParseIntJs("1_0") == Some(1)
    ensures ParseIntPy("1_0") == Some(10)
  {
    NoTrim1u0();
    Digits1u0();
  }
}
