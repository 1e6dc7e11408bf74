/** The slice of JavaScript value semantics the route handlers rely on:
    request-body values and their truthiness, `String.prototype.trim`,
    and `Number(...)` applied to a path segment. */
module JsValues {

  /** The result of `Number(text)`: not-a-number, an integral value, or a
      finite value with a non-zero fractional part, kept in its canonical
      decimal spelling (`-0.5`, `12.25`). */
  datatype Number =
    | NaN
    | Int(value: int)
    | Fraction(negative: bool, whole: nat, digits: string)

  /** A value found in a JSON request body. Arrays are the arrays of tag ids
      the product handlers receive. Any other object is `Object`, which
      records only whether its `length` property is truthy. An absent field
      reads as `Undefined`. */
  datatype Value =
    | Undefined
    | Null
    | Bool(b: bool)
    | Num(n: Number)
    | Str(s: string)
    | Array(elems: seq<int>)
    | Object(truthyLength: bool)

  /** JavaScript truthiness, as used by `!x` and `x && y`. */
  function Truthy(v: Value): (r: bool)
    ensures !r <==> v in {Undefined, Null, Bool(false), Num(NaN), Num(Int(0)), Str("")}
  {
    match v
    case Undefined => false
    case Null => false
    case Bool(b) => b
    case Num(n) => !n.NaN? && n != Int(0)
    case Str(s) => s != ""
    case Array(_) => true
    case Object(_) => true
  }

  /** The `WhiteSpace` and `LineTerminator` characters that `trim` removes. */
  predicate IsWhitespace(c: char) {
    c == '\t' || c == '\n' || c == '\U{000B}' || c == '\U{000C}' || c == '\r' ||
    c == ' ' || c == '\U{00A0}' || c == '\U{1680}' ||
    ('\U{2000}' <= c <= '\U{200A}') ||
    c == '\U{2028}' || c == '\U{2029}' || c == '\U{202F}' || c == '\U{205F}' ||
    c == '\U{3000}' || c == '\U{FEFF}'
  }

  predicate AllWhitespace(s: string) {
    forall i :: 0 <= i < |s| ==> IsWhitespace(s[i])
  }

  /** `s` with its leading whitespace removed. */
  function TrimStart(s: string): (r: string)
    ensures |r| <= |s| && r == s[|s| - |r|..]
    ensures AllWhitespace(s[..|s| - |r|])
    ensures r == [] || !IsWhitespace(r[0])
  {
    if s != [] && IsWhitespace(s[0]) then TrimStart(s[1..]) else s
  }

  /** `s` with its trailing whitespace removed. */
  function TrimEnd(s: string): (r: string)
    ensures |r| <= |s| && r == s[..|r|]
    ensures AllWhitespace(s[|r|..])
    ensures r == [] || !IsWhitespace(r[|r| - 1])
  {
    if s != [] && IsWhitespace(s[|s| - 1]) then TrimEnd(s[..|s| - 1]) else s
  }

  /** `String.prototype.trim`. */
  function Trim(s: string): string {
    TrimEnd(TrimStart(s))
  }

  /** `s.trim().length === 0` holds exactly when every character of `s` is
      whitespace. */
  lemma {:induction false} TrimEmptyIffBlank(s: string)
    ensures Trim(s) == [] <==> AllWhitespace(s)
  {
    var t := TrimStart(s);
    if Trim(s) == [] {
      assert t == [];
    }
  }

  /** The check both handlers apply to a name field:
      `typeof v === 'string' && v.trim().length !== 0`. */
  function IsNonBlankString(v: Value): (ok: bool)
    ensures ok <==> v.Str? && !AllWhitespace(v.s)
  {
    if v.Str? then TrimEmptyIffBlank(v.s); Trim(v.s) != [] else false
  }

  // ---------------------------------------------------------------------
  // Number(text)

  predicate IsDigit(c: char) {
    '0' <= c <= '9'
  }

  predicate AllDigits(s: string) {
    forall i :: 0 <= i < |s| ==> IsDigit(s[i])
  }

  /** The value of a string of decimal digits. */
  function DigitsValue(s: string): nat
    requires AllDigits(s)
  {
    if s == [] then 0 else DigitsValue(s[..|s| - 1]) * 10 + (s[|s| - 1] as int - '0' as int)
  }

  /** `s` without trailing zero digits. */
  function DropTrailingZeros(s: string): (r: string)
    ensures |r| <= |s| && r == s[..|r|]
    ensures r == [] || r[|r| - 1] != '0'
    ensures forall i :: |r| <= i < |s| ==> s[i] == '0'
  {
    if s != [] && s[|s| - 1] == '0' then DropTrailingZeros(s[..|s| - 1]) else s
  }

  /** The index of the first '.' in `s`, or `|s|` when there is none. */
  function DotIndex(s: string): (i: nat)
    ensures i <= |s|
    ensures i < |s| ==> s[i] == '.'
    ensures forall j :: 0 <= j < i ==> s[j] != '.'
  {
    if s == [] then 0
    else if s[0] == '.' then 0
    else 1 + DotIndex(s[1..])
  }

  /** A `Number` that stands for a JavaScript number: a fraction's digits
      are decimal digits, at least one, and do not end in zero. */
  predicate Canonical(n: Number) {
    n.Fraction? ==> n.digits != [] && AllDigits(n.digits) && n.digits[|n.digits| - 1] != '0'
  }

  /** An unsigned decimal literal: digits, optionally followed by '.' and
      more digits, with at least one digit in all. */
  function Unsigned(t: string): (r: Number)
    ensures Canonical(r)
  {
    var i := DotIndex(t);
    var whole := t[..i];
    var frac := if i < |t| then t[i + 1..] else [];
    if t == [] || t == "." || !AllDigits(whole) || !AllDigits(frac) then NaN
    else
      var digits := DropTrailingZeros(frac);
      if digits == [] then Int(DigitsValue(whole))
      else Fraction(false, DigitsValue(whole), digits)
  }

  function Negate(n: Number): (r: Number)
    ensures Canonical(n) ==> Canonical(r)
  {
    match n
    case NaN => NaN
    case Int(v) => Int(-v)
    case Fraction(neg, w, d) => Fraction(!neg, w, d)
  }

  /** `Number(s)` for a path segment: surrounding whitespace is ignored, the
      empty string is 0, an optional sign precedes a decimal literal, and
      anything else is NaN. */
  function ToNumber(s: string): (r: Number)
    ensures Canonical(r)
    ensures AllWhitespace(s) ==> r == Int(0)
  {
    TrimEmptyIffBlank(s);
    var t := Trim(s);
    if t == [] then Int(0)
    else if t[0] == '-' then Negate(Unsigned(t[1..]))
    else if t[0] == '+' then Unsigned(t[1..])
    else Unsigned(t)
  }

  /** The decimal spelling of a natural number. */
  function Digits(n: nat): (r: string)
    ensures r != [] && AllDigits(r)
  {
    var d := ["0123456789"[n % 10]];
    if n < 10 then d else Digits(n / 10) + d
  }

  /** The plain decimal spelling of an integer. */
  function DecimalString(n: int): string {
    if n < 0 then "-" + Digits(-n) else Digits(n)
  }

  /** How a template literal prints a number, in plain decimal only (no
      exponent form). `Number` reads the text back as the same number. */
  function NumberToString(n: Number): (r: string)
    ensures Canonical(n) ==> ToNumber(r) == n
  {
    match n
    case NaN => NaNRead(); "NaN"
    case Int(v) => ToNumberOfDecimal(v); DecimalString(v)
    case Fraction(neg, w, d) => FractionRead(neg, w, d); (if neg then "-" else "") + (Digits(w) + "." + d)
  }

  lemma {:induction false} DigitsValueOfDigits(n: nat)
    ensures DigitsValue(Digits(n)) == n
  {
    if n >= 10 {
      DigitsValueOfDigits(n / 10);
      var s := Digits(n);
      assert s[..|s| - 1] == Digits(n / 10);
    }
  }

  lemma NoWhitespaceTrims(s: string)
    requires s != [] && !IsWhitespace(s[0]) && !IsWhitespace(s[|s| - 1])
    ensures Trim(s) == s
  {
  }

  lemma UnsignedDigits(s: string)
    requires s != [] && AllDigits(s)
    ensures Unsigned(s) == Int(DigitsValue(s))
  {
    assert s[..|s|] == s;
  }

  /** Text that starts with a digit and ends without whitespace is read as
      an unsigned literal. */
  lemma PlainRead(t: string)
    requires t != [] && IsDigit(t[0]) && !IsWhitespace(t[|t| - 1])
    ensures ToNumber(t) == Unsigned(t)
  {
    NoWhitespaceTrims(t);
    assert t[0] != '-' && t[0] != '+';
  }

  /** Text that starts with a minus and ends without whitespace is read as
      the negated unsigned literal after the minus. */
  lemma SignedRead(t: string)
    requires |t| >= 2 && t[0] == '-' && !IsWhitespace(t[|t| - 1])
    ensures ToNumber(t) == Negate(Unsigned(t[1..]))
  {
    NoWhitespaceTrims(t);
  }

  /** Text that starts with a character that cannot begin a number, and
      ends without whitespace, reads as NaN. */
  lemma NotNumberRead(t: string)
    requires t != [] && !IsWhitespace(t[0]) && !IsWhitespace(t[|t| - 1])
    requires !IsDigit(t[0]) && t[0] !in {'-', '+', '.'}
    ensures ToNumber(t) == NaN
  {
    NoWhitespaceTrims(t);
    var i := DotIndex(t);
    assert i >= 1 && t[..i][0] == t[0];
  }

  lemma NaNRead()
    ensures ToNumber("NaN") == NaN
  {
    NotNumberRead("NaN");
  }

  /** An integer id printed in decimal reads back as the same id: a path
      segment built from a row id addresses that row. */
  lemma {:induction false} ToNumberOfDecimal(n: int)
    ensures ToNumber(DecimalString(n)) == Int(n)
  {
    var m: nat := if n < 0 then -n else n;
    var ds := Digits(m);
    DigitsValueOfDigits(m);
    UnsignedDigits(ds);
    assert IsDigit(ds[0]) && IsDigit(ds[|ds| - 1]);
    if n < 0 {
      var t := DecimalString(n);
      assert t[1..] == ds && t[|t| - 1] == ds[|ds| - 1];
      SignedRead(t);
    } else {
      PlainRead(ds);
    }
  }

  /** The whole part's digits, a '.' and canonical fraction digits form an
      unsigned literal for that fraction, which begins and ends with a
      digit. */
  lemma UnsignedFraction(w: nat, d: string)
    requires d != [] && AllDigits(d) && d[|d| - 1] != '0'
    ensures var u := Digits(w) + "." + d;
      && Unsigned(u) == Fraction(false, w, d)
      && u != [] && IsDigit(u[0]) && IsDigit(u[|u| - 1])
  {
    var ds := Digits(w);
    var u := ds + "." + d;
    assert forall j :: 0 <= j < |ds| ==> u[j] == ds[j] && IsDigit(ds[j]);
    assert u[|ds|] == '.';
    assert DotIndex(u) == |ds|;
    assert u[..|ds|] == ds;
    assert u[|ds| + 1..] == d;
    assert u[|u| - 1] == d[|d| - 1];
    DigitsValueOfDigits(w);
  }

  /** The same text after a minus reads back as the negative fraction. */
  lemma NegativeFractionRead(w: nat, d: string)
    requires d != [] && AllDigits(d) && d[|d| - 1] != '0'
    ensures ToNumber("-" + (Digits(w) + "." + d)) == Fraction(true, w, d)
  {
    var u := Digits(w) + "." + d;
    UnsignedFraction(w, d);
    MinusRead(u);
  }

  /** Text that begins and ends with a digit, printed without a sign,
      reads as an unsigned literal. */
  lemma NoSignRead(u: string)
    requires u != [] && IsDigit(u[0]) && IsDigit(u[|u| - 1])
    ensures ToNumber("" + u) == Unsigned(u)
  {
    assert "" + u == u;
    PlainRead(u);
  }

  /** A minus before text that ends in a digit reads as the negated
      unsigned literal. */
  lemma MinusRead(u: string)
    requires u != [] && IsDigit(u[|u| - 1])
    ensures ToNumber("-" + u) == Negate(Unsigned(u))
  {
    var t := "-" + u;
    assert t[1..] == u && t[|t| - 1] == u[|u| - 1];
    SignedRead(t);
  }

  /** A canonical fraction printed by a template literal reads back as the
      same fraction. */
  lemma FractionRead(neg: bool, w: nat, d: string)
    ensures Canonical(Fraction(neg, w, d)) ==>
      ToNumber((if neg then "-" else "") + (Digits(w) + "." + d)) == Fraction(neg, w, d)
  {
    if Canonical(Fraction(neg, w, d)) {
      if neg {
        NegativeFractionRead(w, d);
      } else {
        UnsignedFraction(w, d);
        NoSignRead(Digits(w) + "." + d);
      }
    }
  }
}
