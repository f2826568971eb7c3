/**
 * `parseFloat` over the decimal grammar of ECMAScript's StrDecimalLiteral:
 * leading white space is skipped, then the longest prefix of the form
 * [sign] digits [. digits] [exponent] is read (at least one digit in the
 * mantissa) and the rest of the text is ignored; no such prefix is NaN,
 * modelled as `None`. Values are exact reals.
 */
module Numbers {
  import opened Wrappers
  import opened Text

  predicate IsDigit(c: char) {
    '0' <= c <= '9'
  }

  function DigitValue(c: char): nat
    requires IsDigit(c)
  {
    (c as int - '0' as int) as nat
  }

  /** The longest prefix of `s` made of decimal digits. */
  function DigitPrefix(s: string): (r: string)
    ensures |r| <= |s| && r == s[..|r|]
    ensures forall i :: 0 <= i < |r| ==> IsDigit(r[i])
    ensures |r| == |s| || !IsDigit(s[|r|])
  {
    if |s| > 0 && IsDigit(s[0]) then [s[0]] + DigitPrefix(s[1..]) else ""
  }

  /** The number a string of decimal digits denotes, most significant digit first. */
  function DigitsValue(ds: string): nat
    requires forall i :: 0 <= i < |ds| ==> IsDigit(ds[i])
  {
    if ds == [] then 0 else DigitsValue(ds[..|ds| - 1]) * 10 + DigitValue(ds[|ds| - 1])
  }

  function Pow10(n: nat): (r: nat)
    ensures r >= 1
  {
    if n == 0 then 1 else 10 * Pow10(n - 1)
  }

  /** `m` times 10 raised to the integer power `e`. */
  function ScaleBy(m: real, e: int): (r: real)
    ensures e >= 0 ==> r == m * (Pow10(e) as real)
    ensures e < 0 ==> r * (Pow10(-e) as real) == m
  {
    if e >= 0 then m * (Pow10(e) as real) else m / (Pow10(-e) as real)
  }

  /** The exponent part `e`/`E` [sign] digits at the start of `s`, or 0 when there is none. */
  function ExponentOf(s: string): int {
    if |s| >= 2 && (s[0] == 'e' || s[0] == 'E') then
      var signed := s[1] == '+' || s[1] == '-';
      var ds := DigitPrefix(if signed then s[2..] else s[1..]);
      if ds == [] then 0 else if s[1] == '-' then -(DigitsValue(ds) as int) else DigitsValue(ds)
    else 0
  }

  /** `u` begins with a digit, or with a point followed by a digit: the start of a decimal literal. */
  predicate StartsNumber(u: string) {
    (|u| > 0 && IsDigit(u[0])) || (|u| > 1 && u[0] == '.' && IsDigit(u[1]))
  }

  /** `t` without a leading `+` or `-`. */
  function SkipSign(t: string): (u: string)
    ensures |u| <= |t| && u == t[|t| - |u|..]
  {
    if |t| > 0 && (t[0] == '-' || t[0] == '+') then t[1..] else t
  }

  /** The value of the digits `whole` . `frac`. */
  function Mantissa(whole: string, frac: string): (r: real)
    requires forall i :: 0 <= i < |whole| ==> IsDigit(whole[i])
    requires forall i :: 0 <= i < |frac| ==> IsDigit(frac[i])
    ensures r >= 0.0
  {
    DigitsValue(whole) as real + (DigitsValue(frac) as real) / (Pow10(|frac|) as real)
  }

  /** Every character of `s` is a decimal digit. */
  predicate AllDigits(s: string) {
    forall i :: 0 <= i < |s| ==> IsDigit(s[i])
  }

  /** An unsigned literal as scanned: its whole digits, its fraction digits and its exponent. */
  datatype Literal = Literal(whole: string, frac: string, exponent: int)

  /** The longest literal digits [. digits] [exponent] at the start of `u`, or `None` without a digit in the mantissa. */
  function Scan(u: string): (r: Option<Literal>)
    ensures r.None? <==> !StartsNumber(u)
    ensures r.Some? ==> AllDigits(r.value.whole) && AllDigits(r.value.frac)
  {
    var whole := DigitPrefix(u);
    ScanFrom(whole, u[|whole|..])
  }

  /** The literal once its whole digits are read: a point starts the fraction. */
  function ScanFrom(whole: string, afterWhole: string): (r: Option<Literal>)
    requires AllDigits(whole)
    ensures r.None? <==> whole == [] && !(|afterWhole| > 1 && afterWhole[0] == '.' && IsDigit(afterWhole[1]))
    ensures r.Some? ==> AllDigits(r.value.whole) && AllDigits(r.value.frac)
  {
    if |afterWhole| > 0 && afterWhole[0] == '.' then ScanFraction(whole, afterWhole[1..])
    else if whole == [] then None
    else Some(Literal(whole, "", ExponentOf(afterWhole)))
  }

  /** The literal once its point is read: the fraction digits, then the exponent. */
  function ScanFraction(whole: string, afterPoint: string): (r: Option<Literal>)
    requires AllDigits(whole)
    ensures r.None? <==> whole == [] && !(|afterPoint| > 0 && IsDigit(afterPoint[0]))
    ensures r.Some? ==> AllDigits(r.value.whole) && AllDigits(r.value.frac)
  {
    var frac := DigitPrefix(afterPoint);
    if whole == [] && frac == [] then None
    else Some(Literal(whole, frac, ExponentOf(afterPoint[|frac|..])))
  }

  /** The value a scanned literal denotes. */
  function ValueOf(l: Literal): real
    requires AllDigits(l.whole) && AllDigits(l.frac)
  {
    ScaleBy(Mantissa(l.whole, l.frac), l.exponent)
  }

  /** The value of the unsigned literal at the start of `u`, or `None` when there is none. */
  function ParseMagnitude(u: string): (r: Option<real>)
    ensures r.None? <==> !StartsNumber(u)
  {
    match Scan(u)
    case None => None
    case Some(l) => Some(ValueOf(l))
  }

  /** JavaScript's `parseFloat`; `None` stands for NaN. */
  function ParseFloat(s: string): (r: Option<real>)
    ensures r.None? <==> !StartsNumber(SkipSign(TrimStart(s)))
  {
    var t := TrimStart(s);
    match ParseMagnitude(SkipSign(t))
    case None => None
    case Some(m) => Some(if |t| > 0 && t[0] == '-' then -m else m)
  }

  /** The decimal rendering of a natural number, without leading zeros. */
  function NatText(n: nat): (r: string)
    ensures |r| > 0
    ensures forall i :: 0 <= i < |r| ==> IsDigit(r[i])
  {
    var d := ['0' + (n % 10) as char];
    if n < 10 then d else NatText(n / 10) + d
  }

  lemma {:induction false} DigitsValueOfNatText(n: nat)
    ensures DigitsValue(NatText(n)) == n
  {
    var r := NatText(n);
    if n >= 10 {
      DigitsValueOfNatText(n / 10);
      assert r[..|r| - 1] == NatText(n / 10);
    }
  }

  /** The digit prefix stops exactly where the digits do. */
  lemma {:induction false} DigitPrefixOfDigits(ds: string, tail: string)
    requires forall i :: 0 <= i < |ds| ==> IsDigit(ds[i])
    requires tail == [] || !IsDigit(tail[0])
    ensures DigitPrefix(ds + tail) == ds
  {
    if |ds| > 0 {
      assert (ds + tail)[1..] == ds[1..] + tail;
      DigitPrefixOfDigits(ds[1..], tail);
    } else {
      assert ds + tail == tail;
    }
  }

  lemma ScanInteger(ds: string)
    requires |ds| > 0 && AllDigits(ds)
    ensures Scan(ds) == Some(Literal(ds, "", 0))
  {
    DigitPrefixOfDigits(ds, "");
    assert ds + "" == ds;
    assert ds[|ds|..] == "";
  }

  lemma IntegerValue(ds: string)
    requires AllDigits(ds)
    ensures ValueOf(Literal(ds, "", 0)) == DigitsValue(ds) as real
  {
    assert DigitsValue("") == 0 && Pow10(0) == 1;
  }

  /** A text made only of digits reads as their value. */
  lemma IntegerMagnitude(ds: string)
    requires |ds| > 0 && AllDigits(ds)
    ensures ParseMagnitude(ds) == Some(DigitsValue(ds) as real)
  {
    ScanInteger(ds);
    IntegerValue(ds);
  }

  /** Scanning starts with the whole digits, up to the first non-digit. */
  lemma ScanOfWhole(whole: string, v: string)
    requires AllDigits(whole)
    requires v == [] || !IsDigit(v[0])
    ensures Scan(whole + v) == ScanFrom(whole, v)
  {
    DigitPrefixOfDigits(whole, v);
    assert (whole + v)[|whole|..] == v;
  }

  lemma ScanFractionDigits(whole: string, frac: string, tail: string)
    requires AllDigits(whole) && AllDigits(frac)
    requires tail == [] || (!IsDigit(tail[0]) && tail[0] != 'e' && tail[0] != 'E')
    requires |whole| + |frac| > 0
    ensures ScanFraction(whole, frac + tail) == Some(Literal(whole, frac, 0))
  {
    DigitPrefixOfDigits(frac, tail);
    assert (frac + tail)[|frac|..] == tail;
  }

  lemma ScanDecimal(whole: string, frac: string, tail: string)
    requires |whole| + |frac| > 0 && AllDigits(whole) && AllDigits(frac)
    requires tail == [] || (!IsDigit(tail[0]) && tail[0] != 'e' && tail[0] != 'E')
    ensures Scan(whole + ("." + (frac + tail))) == Some(Literal(whole, frac, 0))
  {
    var v := "." + (frac + tail);
    ScanOfWhole(whole, v);
    assert v[1..] == frac + tail;
    ScanFractionDigits(whole, frac, tail);
  }

  /**
   * A literal whole . frac, with a digit on at least one side of the point
   * (".5" and "12." included), followed by neither a digit nor an exponent,
   * reads as its mantissa.
   */
  lemma DecimalMagnitude(whole: string, frac: string, tail: string)
    requires |whole| + |frac| > 0 && AllDigits(whole) && AllDigits(frac)
    requires tail == [] || (!IsDigit(tail[0]) && tail[0] != 'e' && tail[0] != 'E')
    ensures ParseMagnitude(whole + ("." + (frac + tail))) == Some(Mantissa(whole, frac))
  {
    ScanDecimal(whole, frac, tail);
    assert ValueOf(Literal(whole, frac, 0)) == Mantissa(whole, frac);
  }

  /** Round trip: `parseFloat` reads back the decimal rendering of every natural number. */
  lemma ParseFloatNatText(n: nat)
    ensures ParseFloat(NatText(n)) == Some(n as real)
  {
    var s := NatText(n);
    assert !IsWhite(s[0]);
    assert TrimStart(s) == s;
    assert SkipSign(s) == s;
    DigitsValueOfNatText(n);
    IntegerMagnitude(s);
  }
}

/**
 * The values `parseFloat` gives: a literal after white space and a sign,
 * decimals with a digit on either side of the point, and exponents.
 */
module NumberValues {
  import opened Wrappers
  import opened Text
  import opened Numbers

  /** The leading white space of a text is exactly the white space before its first non-white character. */
  lemma {:induction false} TrimStartAfterWhite(w: string, rest: string)
    requires AllWhite(w)
    requires rest == [] || !IsWhite(rest[0])
    ensures TrimStart(w + rest) == rest
  {
    if w == [] {
      assert w + rest == rest;
    } else {
      assert (w + rest)[1..] == w[1..] + rest;
      TrimStartAfterWhite(w[1..], rest);
    }
  }

  /** An optional sign before a literal: skipping it leaves the literal, and it is `-` exactly when negative. */
  lemma {:induction false} SignBeforeLiteral(sgn: string, body: string)
    requires sgn == "" || sgn == "+" || sgn == "-"
    requires StartsNumber(body)
    ensures var t := sgn + body;
      && !IsWhite(t[0])
      && SkipSign(t) == body
      && (|t| > 0 && t[0] == '-') == (sgn == "-")
  {
    var t := sgn + body;
    assert t[0] == (if sgn == "" then body[0] else sgn[0]);
    if sgn != "" { assert t[1..] == body; }
  }

  /** `parseFloat` of a text whose start, once trimmed, is a signed literal. */
  lemma {:induction false} ParseFloatOfTrimmed(s: string, t: string, body: string)
    requires TrimStart(s) == t && SkipSign(t) == body && ParseMagnitude(body).Some?
    ensures ParseFloat(s) == Some(if |t| > 0 && t[0] == '-' then -ParseMagnitude(body).value else ParseMagnitude(body).value)
  {
  }

  /**
   * `parseFloat` skips leading white space, reads an optional sign and
   * negates the magnitude of what follows when the sign is `-`.
   */
  lemma {:induction false} ParseFloatOfLiteral(w: string, sgn: string, body: string)
    requires AllWhite(w)
    requires sgn == "" || sgn == "+" || sgn == "-"
    requires StartsNumber(body)
    ensures ParseMagnitude(body).Some?
    ensures ParseFloat(w + sgn + body) == Some(if sgn == "-" then -ParseMagnitude(body).value else ParseMagnitude(body).value)
  {
    var t := sgn + body;
    assert w + sgn + body == w + t;
    SignBeforeLiteral(sgn, body);
    TrimStartAfterWhite(w, t);
    ParseFloatOfTrimmed(w + t, t, body);
  }

  /** A decimal literal with a digit on either side of the point begins a number, so ParseFloatOfLiteral applies to it. */
  lemma {:induction false} DecimalStartsNumber(whole: string, frac: string, tail: string)
    requires |whole| + |frac| > 0 && AllDigits(whole) && AllDigits(frac)
    ensures StartsNumber(whole + ("." + (frac + tail)))
  {
    var body := whole + ("." + (frac + tail));
    if |whole| == 0 {
      assert body == "." + (frac + tail);
      assert body[1] == frac[0];
    } else {
      assert body[0] == whole[0];
    }
  }

  /** An exponent `e`/`E`, an optional sign and digits read as that signed power of ten. */
  lemma {:induction false} ExponentOfDigits(e: char, esgn: string, ds: string, tail: string)
    requires e == 'e' || e == 'E'
    requires esgn == "" || esgn == "+" || esgn == "-"
    requires |ds| > 0 && AllDigits(ds)
    requires tail == [] || !IsDigit(tail[0])
    ensures ExponentOf([e] + esgn + ds + tail) == if esgn == "-" then -(DigitsValue(ds) as int) else DigitsValue(ds)
  {
    var digits := ds + tail;
    var x := [e] + (esgn + digits);
    assert [e] + esgn + ds + tail == x;
    assert x[1..] == esgn + digits;
    assert |x| >= 2 && x[0] == e;
    var signed := x[1] == '+' || x[1] == '-';
    if esgn == "" {
      assert x[1] == ds[0] && !signed;
      assert x[1..] == digits;
    } else {
      assert x[1] == esgn[0] && signed;
      assert x[2..] == digits;
    }
    var rest := if signed then x[2..] else x[1..];
    assert rest == digits;
    DigitPrefixOfDigits(ds, tail);
    assert DigitPrefix(rest) == ds;
    assert (x[1] == '-') == (esgn == "-");
  }

  /**
   * Digits not followed by a point, then any text that does not continue the
   * digits: the digits' value scaled by whatever exponent the text begins with
   * ("12 kWh", "1e5", "1e+" alike).
   */
  lemma {:induction false} IntegerThenTail(ds: string, x: string)
    requires |ds| > 0 && AllDigits(ds)
    requires x == [] || (!IsDigit(x[0]) && x[0] != '.')
    ensures ParseMagnitude(ds + x) == Some(ScaleBy(DigitsValue(ds) as real, ExponentOf(x)))
  {
    ScanOfWhole(ds, x);
    assert ScanFrom(ds, x) == Some(Literal(ds, "", ExponentOf(x)));
    assert Pow10(0) == 1 && DigitsValue("") == 0;
    assert Mantissa(ds, "") == DigitsValue(ds) as real;
  }

  /**
   * Digits, a point and digits (a digit on at least one side), then any text
   * that does not continue the fraction: the mantissa scaled by whatever
   * exponent the text begins with ("1.5 kWh", "1.5e3", "1.5e" alike).
   */
  lemma {:induction false} DecimalThenTail(whole: string, frac: string, x: string)
    requires |whole| + |frac| > 0 && AllDigits(whole) && AllDigits(frac)
    requires x == [] || !IsDigit(x[0])
    ensures ParseMagnitude(whole + ("." + (frac + x))) == Some(ScaleBy(Mantissa(whole, frac), ExponentOf(x)))
  {
    var v := "." + (frac + x);
    ScanOfWhole(whole, v);
    assert v[1..] == frac + x;
    DigitPrefixOfDigits(frac, x);
    assert (frac + x)[|frac|..] == x;
    assert ScanFraction(whole, frac + x) == Some(Literal(whole, frac, ExponentOf(x)));
  }

  /** A text that does not begin with `e` or `E` carries no exponent. */
  lemma NoExponentMark(x: string)
    requires x == [] || (x[0] != 'e' && x[0] != 'E')
    ensures ExponentOf(x) == 0
  {
  }

  /** An exponent mark and an optional sign not followed by a digit ("1.5e", "1e+", "1e+-5") are ignored: the exponent is 0. */
  lemma {:induction false} DanglingExponent(e: char, esgn: string, tail: string)
    requires e == 'e' || e == 'E'
    requires esgn == "" || esgn == "+" || esgn == "-"
    requires tail == [] || (!IsDigit(tail[0]) && (esgn == "" ==> tail[0] != '+' && tail[0] != '-'))
    ensures ExponentOf([e] + esgn + tail) == 0
  {
    var x := [e] + (esgn + tail);
    assert [e] + esgn + tail == x;
    if |x| >= 2 {
      var signed := x[1] == '+' || x[1] == '-';
      var rest := if signed then x[2..] else x[1..];
      if esgn == "" {
        assert x[1..] == tail && !signed;
      } else {
        assert x[1] == esgn[0] && signed && x[2..] == tail;
      }
      assert rest == tail;
      assert DigitPrefix(rest) == [];
    }
  }

  /** A second sign after the exponent's sign ends the literal: "1e+-5" reads as 1. */
  lemma SecondExponentSignIgnored()
    ensures ParseMagnitude("1e+-5") == Some(1.0)
  {
    assert "1e+-5" == "1" + "e+-5";
    assert ['e'] + "+" + "-5" == "e+-5";
    DanglingExponent('e', "+", "-5");
    IntegerThenTail("1", "e+-5");
    assert DigitsValue("1") == 1;
  }

  /** A decimal literal with an exponent reads as its mantissa scaled by that power of ten. */
  lemma {:induction false} ExponentMagnitude(whole: string, frac: string, e: char, esgn: string, ds: string, tail: string)
    requires |whole| + |frac| > 0 && AllDigits(whole) && AllDigits(frac)
    requires e == 'e' || e == 'E'
    requires esgn == "" || esgn == "+" || esgn == "-"
    requires |ds| > 0 && AllDigits(ds)
    requires tail == [] || !IsDigit(tail[0])
    ensures ParseMagnitude(whole + ("." + (frac + ([e] + esgn + ds + tail))))
            == Some(ScaleBy(Mantissa(whole, frac), if esgn == "-" then -(DigitsValue(ds) as int) else DigitsValue(ds)))
  {
    var x := [e] + esgn + ds + tail;
    var v := "." + (frac + x);
    ScanOfWhole(whole, v);
    assert v[1..] == frac + x;
    DigitPrefixOfDigits(frac, x);
    assert (frac + x)[|frac|..] == x;
    ExponentOfDigits(e, esgn, ds, tail);
  }
}
