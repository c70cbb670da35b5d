/**
 * The channel catalogue page (`assets/js/channel-lists.js`): choosing a
 * package, sanitising the group selector, deciding which group files to
 * fetch, the per-package group cache and request bookkeeping, the search
 * matcher, and the context the page renders from.
 *
 * JSON payloads are given as datatypes: a missing or falsy text field is the
 * empty string, a missing number is `None`. Fetch results are a parameter.
 */
module ChannelLists {
  import opened Wrappers
  import opened Strings
  import opened Sequences

  const All: string := "all"
  const LimitAllAbove: int := 4000

  // ---------------------------------------------------------------- Number()

  /**
   * A numeric literal as `Number()` reads it (the StringNumericLiteral
   * grammar of section 7.1.4.1.1 of ECMA-262): a finite value
   * `±mantissa · 10^exponent`, or an infinity.
   */
  datatype Numeral = Finite(negative: bool, mantissa: nat, exponent: int) | Infinite

  /** The bases of the `0b`, `0o` and `0x` literals. */
  datatype Radix = Binary | Octal | Hex

  function Base(radix: Radix): nat
  {
    match radix
    case Binary => 2
    case Octal => 8
    case Hex => 16
  }

  /** `v · base`, written out per base. */
  function Shift(radix: Radix, v: nat): (r: nat)
    ensures r == v * Base(radix)
  {
    match radix
    case Binary => 2 * v
    case Octal => 8 * v
    case Hex => 16 * v
  }

  /** Horner's rule over digits in a base, from the value `acc` of the digits before; `None` at a character that is not a digit of that base. */
  function RadixValue(s: string, radix: Radix, acc: nat): Option<nat>
  {
    if s == [] then Some(acc)
    else if !IsHexDigit(s[0]) || HexDigitValue(s[0]) >= Base(radix) then None
    else RadixValue(s[1..], radix, Shift(radix, acc) + HexDigitValue(s[0]))
  }

  /** The base a radix prefix letter names (`b`, `o`, `x`, in either case). */
  function RadixOf(c: char): Option<Radix>
  {
    if c == 'x' || c == 'X' then Some(Hex)
    else if c == 'o' || c == 'O' then Some(Octal)
    else if c == 'b' || c == 'B' then Some(Binary)
    else None
  }

  /** NonDecimalIntegerLiteral: `0x…`, `0o…` or `0b…`, with no sign and at least one digit. */
  function NonDecimal(t: string): Option<nat>
  {
    if |t| >= 3 && t[0] == '0' && RadixOf(t[1]).Some? then RadixValue(t[2..], RadixOf(t[1]).value, 0) else None
  }

  /** An exponent part (`e` or `E`, an optional sign, digits) ending the literal; the empty text is exponent 0. */
  function ExponentPart(s: string): Option<int>
  {
    if s == [] then Some(0)
    else if s[0] != 'e' && s[0] != 'E' then None
    else
      var body := s[1..];
      var digits := if body != [] && (body[0] == '-' || body[0] == '+') then body[1..] else body;
      if digits == [] || !AllDigits(digits) then None
      else if body[0] == '-' then Some(-(DigitsValue(digits) as int))
      else Some(DigitsValue(digits))
  }

  /**
   * StrUnsignedDecimalLiteral: `Infinity`, or digits with an optional
   * fraction and an optional exponent, with at least one digit before or
   * after the point.
   */
  function UnsignedDecimal(body: string): Option<Numeral>
  {
    if body == "Infinity" then Some(Infinite)
    else
      var whole := LeadingDigits(body);
      AfterDigits(whole, body[|whole|..])
  }

  /** The rest of a decimal literal after its whole digits: an optional point and fraction digits, then the exponent part. */
  function AfterDigits(whole: string, rest: string): Option<Numeral>
    requires AllDigits(whole)
  {
    if rest != [] && rest[0] == '.' then
      var frac := LeadingDigits(rest[1..]);
      Decimal(whole, frac, rest[1..][|frac|..])
    else Decimal(whole, [], rest)
  }

  /** The value of whole and fraction digits followed by an exponent part; at least one digit is needed. */
  function Decimal(whole: string, frac: string, tail: string): Option<Numeral>
    requires AllDigits(whole) && AllDigits(frac)
  {
    if whole == [] && frac == [] then None
    else
      match ExponentPart(tail)
      case None => None
      case Some(e) => AllDigitsConcat(whole, frac); Some(Finite(false, DigitsValue(whole + frac), e - |frac|))
  }

  /** A trimmed, non-blank text: a radix literal, or a signed decimal literal. */
  function Numeric(t: string): Option<Numeral>
  {
    match NonDecimal(t)
    case Some(v) => Some(Finite(false, v, 0))
    case None =>
      var body := if t != [] && (t[0] == '-' || t[0] == '+') then t[1..] else t;
      match UnsignedDecimal(body)
      case None => None
      case Some(Infinite) => Some(Infinite)
      case Some(Finite(_, m, e)) => Some(Finite(t != [] && t[0] == '-', m, e))
  }

  function Pow10(k: nat): (r: nat)
    ensures r >= 1
  {
    if k == 0 then 1 else 10 * Pow10(k - 1)
  }

  /** `m · 10^k`, one digit at a time. */
  function ScaleUp(m: nat, k: nat): nat
  {
    if k == 0 then m else 10 * ScaleUp(m, k - 1)
  }

  /** `m / 10^k` when `10^k` divides `m`, `None` otherwise. */
  function ScaleDown(m: nat, k: nat): Option<nat>
  {
    if k == 0 then Some(m) else if m % 10 != 0 then None else ScaleDown(m / 10, k - 1)
  }

  /** `Number.isInteger` of a numeral, and the integer it is; `None` for an infinity or a fraction. */
  function IntegerOf(n: Numeral): Option<int>
  {
    match n
    case Infinite => None
    case Finite(negative, m, e) =>
      var magnitude := if e >= 0 then Some(ScaleUp(m, e)) else ScaleDown(m, -e);
      match magnitude
      case None => None
      case Some(v) => Some(if negative then -(v as int) else v as int)
  }

  /**
   * `Number(s)` where `Number.isInteger` holds of it: blanks around, then a
   * radix or a decimal literal; the blank text is 0. `None` stands for NaN,
   * an infinity and a non-integer. Arithmetic is exact.
   */
  function JsInteger(s: string): Option<int>
    decreases |s|
  {
    if s == [] then Some(0)
    else if IsSpace(s[0]) then JsInteger(s[1..])
    else if IsSpace(s[|s| - 1]) then JsInteger(s[..|s| - 1])
    else LiteralInteger(s)
  }

  /** The integer a literal with no blank at either end stands for. */
  function LiteralInteger(t: string): Option<int>
  {
    match Numeric(t)
    case None => None
    case Some(n) => IntegerOf(n)
  }

  lemma AllDigitsConcat(a: string, b: string)
    requires AllDigits(a) && AllDigits(b)
    ensures AllDigits(a + b)
  {
  }

  /** Text with no blank at either end is read as a literal. */
  lemma JsIntegerPlain(t: string)
    requires t != [] && !IsSpace(t[0]) && !IsSpace(t[|t| - 1])
    ensures JsInteger(t) == LiteralInteger(t)
  {
  }

  /** An exponent part `e` and digits is that number. */
  lemma ExponentDigits(x: string)
    requires x != [] && AllDigits(x)
    ensures ExponentPart("e" + x) == Some(DigitsValue(x) as int)
  {
    assert ("e" + x)[1..] == x;
    assert x[0] != '-' && x[0] != '+';
  }

  /**
   * A decimal literal written as digits, an optional point with its fraction
   * digits, and an exponent part is the mantissa of all its digits, scaled by
   * the exponent less the number of fraction digits.
   */
  lemma UnsignedDecimalOf(whole: string, point: string, frac: string, tail: string)
    requires AllDigits(whole) && AllDigits(frac) && whole != []
    requires point == "." || (point == [] && frac == [])
    requires tail == [] || (!IsDigit(tail[0]) && tail[0] != '.')
    ensures UnsignedDecimal(whole + point + frac + tail) == Decimal(whole, frac, tail)
  {
    var body := whole + point + frac + tail;
    assert body != "Infinity" by { assert body[0] == whole[0]; }
    var after := point + frac + tail;
    assert body == whole + after;
    assert after == [] || !IsDigit(after[0]);
    LeadingDigitsOf(whole, after);
    assert body[|whole|..] == after;
    if point == "." {
      AfterPoint(whole, frac, tail);
    } else {
      assert after == tail;
    }
  }

  lemma AfterPoint(whole: string, frac: string, tail: string)
    requires AllDigits(whole) && AllDigits(frac)
    requires tail == [] || !IsDigit(tail[0])
    ensures AfterDigits(whole, "." + frac + tail) == Decimal(whole, frac, tail)
  {
    var rest := "." + frac + tail;
    assert rest[1..] == frac + tail;
    LeadingDigitsOf(frac, tail);
    assert (frac + tail)[|frac|..] == tail;
  }

  /** The value of digits with an exponent part. */
  lemma DecimalValue(whole: string, frac: string, tail: string)
    requires AllDigits(whole) && AllDigits(frac) && whole != []
    requires ExponentPart(tail).Some?
    ensures AllDigits(whole + frac)
    ensures Decimal(whole, frac, tail) == Some(Finite(false, DigitsValue(whole + frac), ExponentPart(tail).value - |frac|))
  {
    AllDigitsConcat(whole, frac);
  }

  /** A literal starting with a digit other than a radix prefix is an unsigned decimal literal. */
  lemma DecimalNumeric(t: string)
    requires t != [] && IsDigit(t[0]) && NonDecimal(t) == None
    ensures Numeric(t) == match UnsignedDecimal(t)
      case None => None
      case Some(Infinite) => Some(Infinite)
      case Some(Finite(_, m, e)) => Some(Finite(false, m, e))
  {
  }

  /** A literal starting with a minus sign is the negated unsigned decimal literal after it. */
  lemma NegatedNumeric(d: string)
    requires d != []
    ensures Numeric("-" + d) == match UnsignedDecimal(d)
      case None => None
      case Some(Infinite) => Some(Infinite)
      case Some(Finite(_, m, e)) => Some(Finite(true, m, e))
  {
    assert ("-" + d)[1..] == d;
  }

  /** Text that starts with a digit and continues with a digit, a point or an `e` is no radix literal. */
  lemma NoRadixPrefix(t: string)
    requires |t| >= 2 && (IsDigit(t[1]) || t[1] == '.' || t[1] == 'e')
    ensures NonDecimal(t) == None
  {
  }

  /** Plain digits read as their value. */
  /** Plain digits are an unsigned decimal literal of their value. */
  lemma UnsignedDigits(d: string)
    requires d != [] && AllDigits(d)
    ensures UnsignedDecimal(d) == Some(Finite(false, DigitsValue(d), 0))
  {
    assert d + [] + [] + [] == d;
    UnsignedDecimalOf(d, [], [], []);
    DecimalValue(d, [], []);
    assert d + [] == d;
  }

  /** Plain digits read as their value. */
  lemma JsIntegerDigits(d: string)
    requires d != [] && AllDigits(d)
    ensures JsInteger(d) == Some(DigitsValue(d) as int)
  {
    assert LiteralInteger(d) == Some(DigitsValue(d) as int) by {
      if |d| >= 2 { NoRadixPrefix(d); }
      UnsignedDigits(d);
      DecimalNumeric(d);
    }
    JsIntegerPlain(d);
  }

  /** The digits of a number, with nothing around them, read back as that number. */
  lemma JsIntegerOfDigits(n: nat)
    ensures Trim(NatToString(n)) == NatToString(n)
    ensures JsInteger(NatToString(n)) == Some(n)
  {
    var d := NatToString(n);
    DigitsTrimmed(d);
    JsIntegerDigits(d);
    DigitsRoundTrip(n);
  }

  /** Text with no blank at either end is its own trim. */
  lemma PlainTrimmed(t: string)
    requires t != [] && !IsSpace(t[0]) && !IsSpace(t[|t| - 1])
    ensures Trim(t) == t
  {
    assert TrimStart(t) == t;
    assert TrimEnd(t) == t;
  }

  lemma DigitsTrimmed(d: string)
    requires d != [] && AllDigits(d)
    ensures Trim(d) == d
  {
    PlainTrimmed(d);
  }

  lemma SignTrimmed(d: string)
    requires d != [] && AllDigits(d)
    ensures Trim("-" + d) == "-" + d
  {
    var t := "-" + d;
    assert t[|t| - 1] == d[|d| - 1];
    PlainTrimmed(t);
  }

  /** A minus sign in front of a number negates it; `-0` is 0. */
  lemma JsIntegerNegative(n: nat)
    ensures JsInteger("-" + NatToString(n)) == Some(-(n as int))
  {
    var d := NatToString(n);
    JsIntegerNegatedDigits(d);
    DigitsRoundTrip(n);
  }

  lemma LiteralNegatedDigits(d: string)
    requires d != [] && AllDigits(d)
    ensures LiteralInteger("-" + d) == Some(-(DigitsValue(d) as int))
  {
    UnsignedDigits(d);
    NegatedNumeric(d);
  }

  lemma JsIntegerNegatedDigits(d: string)
    requires d != [] && AllDigits(d)
    ensures JsInteger("-" + d) == Some(-(DigitsValue(d) as int))
  {
    LiteralNegatedDigits(d);
    var t := "-" + d;
    assert t[|t| - 1] == d[|d| - 1];
    JsIntegerPlain(t);
  }

  function Zeros(k: nat): (r: string)
    ensures |r| == k && AllDigits(r)
    ensures forall i :: 0 <= i < k ==> r[i] == '0'
  {
    if k == 0 then [] else Zeros(k - 1) + "0"
  }

  /** Appending zeros multiplies the value of digits by a power of ten. */
  lemma {:induction false} DigitsZeros(d: string, k: nat)
    requires AllDigits(d)
    ensures AllDigits(d + Zeros(k))
    ensures DigitsValue(d + Zeros(k)) == ScaleUp(DigitsValue(d), k)
  {
    if k > 0 {
      DigitsZeros(d, k - 1);
      var s := d + Zeros(k);
      assert s[..|s| - 1] == d + Zeros(k - 1);
      assert s[|s| - 1] == '0';
      assert AllDigits(s);
      assert DigitsValue(s) == DigitsValue(s[..|s| - 1]) * 10;
    } else {
      assert d + Zeros(k) == d;
    }
  }

  /** Scaling digit by digit is multiplying by the power of ten. */
  lemma {:induction false} ScaleUpIsProduct(m: nat, k: nat)
    ensures ScaleUp(m, k) == m * Pow10(k)
  {
    if k > 0 {
      ScaleUpIsProduct(m, k - 1);
      assert 10 * (m * Pow10(k - 1)) == m * (10 * Pow10(k - 1));
    }
  }

  /** Dividing out the power of ten a number was scaled by gives the number back. */
  lemma {:induction false} ScaleDownUp(m: nat, k: nat)
    ensures ScaleDown(ScaleUp(m, k), k) == Some(m)
  {
    if k > 0 {
      ScaleDownUp(m, k - 1);
    }
  }

  /** `NeK`, the exponent form: the number times ten to the K (`"1e3"` is 1000). */
  lemma JsIntegerExponent(n: nat, k: nat)
    ensures JsInteger(NatToString(n) + "e" + NatToString(k)) == Some(n * Pow10(k))
  {
    var d := NatToString(n);
    var x := NatToString(k);
    LiteralExponent(d, x);
    var t := d + "e" + x;
    assert t[0] == d[0] && t[|t| - 1] == x[|x| - 1];
    JsIntegerPlain(t);
    DigitsRoundTrip(n);
    DigitsRoundTrip(k);
    ScaleUpIsProduct(n, k);
  }

  lemma LiteralExponent(d: string, x: string)
    requires d != [] && AllDigits(d) && x != [] && AllDigits(x)
    ensures LiteralInteger(d + "e" + x) == Some(ScaleUp(DigitsValue(d), DigitsValue(x)) as int)
  {
    var t := d + "e" + x;
    if |d| >= 2 { assert t[1] == d[1]; } else { assert t[1] == 'e'; }
    NoRadixPrefix(t);
    UnsignedExponent(d, x);
    DecimalNumeric(t);
  }

  lemma UnsignedExponent(d: string, x: string)
    requires d != [] && AllDigits(d) && x != [] && AllDigits(x)
    ensures UnsignedDecimal(d + "e" + x) == Some(Finite(false, DigitsValue(d), DigitsValue(x)))
  {
    ExponentDigits(x);
    assert d + [] + [] + ("e" + x) == d + "e" + x;
    assert d + [] == d;
    UnsignedDecimalOf(d, [], [], "e" + x);
    DecimalValue(d, [], "e" + x);
  }

  /** A fraction of zeros after the point changes nothing (`"5.00"` is 5). */
  lemma JsIntegerZeroFraction(n: nat, k: nat)
    ensures JsInteger(NatToString(n) + "." + Zeros(k)) == Some(n)
  {
    var d := NatToString(n);
    var t := d + "." + Zeros(k);
    LiteralZeroFraction(d, k);
    assert t[0] == d[0];
    assert t[|t| - 1] == '.' || t[|t| - 1] == '0';
    JsIntegerPlain(t);
    DigitsRoundTrip(n);
  }

  lemma LiteralZeroFraction(d: string, k: nat)
    requires d != [] && AllDigits(d)
    ensures LiteralInteger(d + "." + Zeros(k)) == Some(DigitsValue(d) as int)
  {
    var t := d + "." + Zeros(k);
    if |d| >= 2 { assert t[1] == d[1]; } else { assert t[1] == '.'; }
    NoRadixPrefix(t);
    UnsignedZeroFraction(d, k);
    DecimalNumeric(t);
    IntegerOfScaled(DigitsValue(d), k);
  }

  /** A mantissa scaled up by `10^k` with exponent `-k` is the integer it started from. */
  lemma IntegerOfScaled(m: nat, k: nat)
    ensures IntegerOf(Finite(false, ScaleUp(m, k), -(k as int))) == Some(m as int)
  {
    ScaleDownUp(m, k);
  }

  lemma UnsignedZeroFraction(d: string, k: nat)
    requires d != [] && AllDigits(d)
    ensures UnsignedDecimal(d + "." + Zeros(k)) == Some(Finite(false, ScaleUp(DigitsValue(d), k), -(k as int)))
  {
    assert d + "." + Zeros(k) + [] == d + "." + Zeros(k);
    UnsignedDecimalOf(d, ".", Zeros(k), []);
    DecimalValue(d, Zeros(k), []);
    DigitsZeros(d, k);
  }

  /** `0x…`, `0o…` and `0b…` read as their value in base 16, 8 and 2 (`"0x10"` is 16). */
  lemma JsIntegerRadix(c: char, h: string)
    requires RadixOf(c).Some? && h != [] && RadixValue(h, RadixOf(c).value, 0).Some?
    ensures JsInteger("0" + [c] + h) == Some(RadixValue(h, RadixOf(c).value, 0).value as int)
  {
    var t := "0" + [c] + h;
    assert t[|t| - 1] == h[|h| - 1];
    assert !IsSpace(h[|h| - 1]) by { assert h[..0] + h == h; RadixDigitChars(h, RadixOf(c).value, 0); }
    JsIntegerPlain(t);
    assert t[2..] == h;
  }

  /** Every character of a string that has a value in a base is a digit of it. */
  lemma {:induction false} RadixDigitChars(h: string, radix: Radix, acc: nat)
    requires h != [] && RadixValue(h, radix, acc).Some?
    ensures IsHexDigit(h[|h| - 1])
    decreases |h|
  {
    if |h| > 1 {
      RadixDigitChars(h[1..], radix, Shift(radix, acc) + HexDigitValue(h[0]));
      assert h[1..][|h| - 2] == h[|h| - 1];
    }
  }

  /** `Infinity`, signed or not, is not an integer. */
  lemma JsIntegerInfinity(sign: string)
    requires sign == "" || sign == "-" || sign == "+"
    ensures JsInteger(sign + "Infinity") == None
  {
    var t := sign + "Infinity";
    assert t[|t| - 1] == 'y';
    assert t[0] == '-' || t[0] == '+' || t[0] == 'I';
    JsIntegerPlain(t);
    assert (if t[0] == '-' || t[0] == '+' then t[1..] else t) == "Infinity";
  }

  // ---------------------------------------------------------------- sanitiseGroupValue

  /** A selector value: "all" or the canonical decimal digits of a group index. */
  predicate IsGroupValue(v: string)
  {
    v == All || (v != [] && AllDigits(v) && NatToString(DigitsValue(v)) == v)
  }

  /**
   * `sanitiseGroupValue`: "all" for a missing or blank value, any case of
   * "all", and anything that is not a non-negative integer; otherwise the
   * integer written out.
   */
  function Sanitise(value: Option<string>): (r: string)
    ensures IsGroupValue(r)
  {
    if value.None? then All else SanitiseTrimmed(Trim(value.value))
  }

  /** `sanitiseGroupValue` after trimming. */
  function SanitiseTrimmed(t: string): (r: string)
    ensures IsGroupValue(r)
  {
    if t == [] || Lower(t) == All then All
    else
      match JsInteger(t)
      case Some(n) =>
        if n >= 0 then DigitsRoundTrip(n); NatToString(n) else All
      case None => All
  }

  /** A selector value is left as it is, so sanitising twice changes nothing. */
  lemma SanitiseKeepsValues(v: string)
    requires IsGroupValue(v)
    ensures Sanitise(Some(v)) == v
  {
    if v == All {
      DigitsTrimmedAll();
    } else {
      DigitsTrimmed(v);
      DigitsKept(v);
    }
  }

  lemma DigitsKept(v: string)
    requires IsGroupValue(v) && v != All
    ensures SanitiseTrimmed(v) == v
  {
    JsIntegerOfDigits(DigitsValue(v));
    assert Lower(v)[0] == v[0];
  }

  lemma DigitsTrimmedAll()
    ensures Trim(All) == All && Lower(All) == All
  {
    assert All[0] == 'a' && All[2] == 'l';
    assert TrimStart(All) == All;
    assert TrimEnd(All) == All;
  }

  lemma SanitiseIdempotent(value: Option<string>)
    ensures Sanitise(Some(Sanitise(value))) == Sanitise(value)
  {
    SanitiseKeepsValues(Sanitise(value));
  }

  /** The cases that fall back to "all": missing, blank, or "all" in any letter case. */
  lemma SanitiseFallbacks(v: string)
    ensures (forall i :: 0 <= i < |v| ==> IsSpace(v[i])) ==> Sanitise(Some(v)) == All
    ensures Lower(Trim(v)) == All ==> Sanitise(Some(v)) == All
    ensures Sanitise(None) == All
  {
    TrimBlank(v);
  }

  /** A negative number falls back to "all"; `-0` is the integer 0. */
  lemma SanitiseNegative(n: nat)
    ensures Sanitise(Some("-" + NatToString(n))) == (if n == 0 then "0" else All)
  {
    SignTrimmed(NatToString(n));
    NegativeKept(n);
  }

  lemma NegativeKept(n: nat)
    ensures SanitiseTrimmed("-" + NatToString(n)) == (if n == 0 then "0" else All)
  {
    JsIntegerNegative(n);
    assert Lower("-" + NatToString(n))[0] == '-';
  }

  /** A literal that starts with a digit and reads as a non-negative integer is sanitised to that integer's digits. */
  lemma SanitiseLiteral(t: string, v: nat)
    requires t != [] && IsDigit(t[0]) && !IsSpace(t[|t| - 1])
    requires JsInteger(t) == Some(v)
    ensures Sanitise(Some(t)) == NatToString(v)
  {
    PlainTrimmed(t);
    assert Lower(t)[0] == t[0];
  }

  /** The exponent form is sanitised to the digits of its value (`"1e3"` gives "1000"). */
  lemma SanitiseExponent(n: nat, k: nat)
    ensures Sanitise(Some(NatToString(n) + "e" + NatToString(k))) == NatToString(n * Pow10(k))
  {
    var d, x := NatToString(n), NatToString(k);
    var t := d + "e" + x;
    JsIntegerExponent(n, k);
    ScaleUpIsProduct(n, k);
    assert t[0] == d[0] && t[|t| - 1] == x[|x| - 1];
    SanitiseLiteral(t, ScaleUp(n, k));
  }

  /** A radix literal is sanitised to the decimal digits of its value (`"0x10"` gives "16"). */
  lemma SanitiseRadix(c: char, h: string)
    requires RadixOf(c).Some? && h != [] && RadixValue(h, RadixOf(c).value, 0).Some?
    ensures Sanitise(Some("0" + [c] + h)) == NatToString(RadixValue(h, RadixOf(c).value, 0).value)
  {
    var t := "0" + [c] + h;
    JsIntegerRadix(c, h);
    assert t[|t| - 1] == h[|h| - 1];
    RadixDigitChars(h, RadixOf(c).value, 0);
    SanitiseLiteral(t, RadixValue(h, RadixOf(c).value, 0).value);
  }

  // ---------------------------------------------------------------- escapeHtml and plural

  /** `escapeHtml`: `&` first, then `<`, `>`, `"` and `'`. */
  function EscapeHtml(s: string): string
  {
    var a := ReplaceAll(s, "&", "&amp;");
    var b := ReplaceAll(a, "<", "&lt;");
    var c := ReplaceAll(b, ">", "&gt;");
    var d := ReplaceAll(c, "\"", "&quot;");
    ReplaceAll(d, "'", "&#39;")
  }

  /** A replacement that does not bring `d` in keeps a text free of it. */
  lemma {:induction false} ReplaceKeepsOut(s: string, c: char, rep: string, d: char)
    requires d !in s && d !in rep
    ensures d !in ReplaceAll(s, [c], rep)
    decreases |s|
  {
    if s != [] {
      ReplaceKeepsOut(s[1..], c, rep, d);
    }
  }

  /** The escaped text has none of `<`, `>`, `"`, `'`. */
  lemma EscapeHtmlClean(s: string)
    ensures var r := EscapeHtml(s); '<' !in r && '>' !in r && '"' !in r && '\'' !in r
  {
    var a := ReplaceAll(s, "&", "&amp;");
    var b := ReplaceAll(a, "<", "&lt;");
    var c := ReplaceAll(b, ">", "&gt;");
    var d := ReplaceAll(c, "\"", "&quot;");
    ReplaceAllCharGone(a, '<', "&lt;");
    ReplaceKeepsOut(b, '>', "&gt;", '<');
    ReplaceKeepsOut(c, '"', "&quot;", '<');
    ReplaceKeepsOut(d, '\'', "&#39;", '<');
    ReplaceAllCharGone(b, '>', "&gt;");
    ReplaceKeepsOut(c, '"', "&quot;", '>');
    ReplaceKeepsOut(d, '\'', "&#39;", '>');
    ReplaceAllCharGone(c, '"', "&quot;");
    ReplaceKeepsOut(d, '\'', "&#39;", '"');
    ReplaceAllCharGone(d, '\'', "&#39;");
  }

  /** A text with none of the five characters comes back unchanged. */
  lemma EscapeHtmlPlain(s: string)
    requires '&' !in s && '<' !in s && '>' !in s && '"' !in s && '\'' !in s
    ensures EscapeHtml(s) == s
  {
    ContainsChar(s, '&');
    ReplaceAllNoMatch(s, "&", "&amp;");
    ContainsChar(s, '<');
    ReplaceAllNoMatch(s, "<", "&lt;");
    ContainsChar(s, '>');
    ReplaceAllNoMatch(s, ">", "&gt;");
    ContainsChar(s, '"');
    ReplaceAllNoMatch(s, "\"", "&quot;");
    ContainsChar(s, '\'');
    ReplaceAllNoMatch(s, "'", "&#39;");
  }

  /** `plural`: the suffix for a count. */
  function Plural(value: int): (r: string)
    ensures r == [] <==> value == 1
    ensures r != [] ==> r == "s"
  {
    if value == 1 then "" else "s"
  }

  // ---------------------------------------------------------------- packages

  datatype GroupMeta = GroupMeta(name: string, totalChannels: Option<int>, dataPath: string)

  /** A package of the catalogue; `groups` is `None` when the payload's value is not an array. */
  datatype Package = Package(slug: string, groups: Option<seq<Option<GroupMeta>>>,
                             totalChannels: Option<int>, totalGroups: Option<int>)

  function Groups(pkg: Package): seq<Option<GroupMeta>>
  {
    if pkg.groups.Some? then pkg.groups.value else []
  }

  /** `getDefaultKey`: "english" when offered, else the first key; `None` without keys. */
  function DefaultKey(keys: seq<string>): (r: Option<string>)
    ensures r.None? <==> keys == []
    ensures r.Some? ==> r.value in keys
    ensures "english" in keys ==> r == Some("english")
    ensures "english" !in keys && keys != [] ==> r == Some(keys[0])
  {
    if keys == [] then None else if "english" in keys then Some("english") else Some(keys[0])
  }

  /** A package name from the URL or the page attribute counts when it is non-empty and known. */
  predicate Names(packages: map<string, Package>, p: Option<string>)
  {
    p.Some? && p.value != [] && p.value in packages
  }

  /** `resolveInitialPackage`: the URL's package, else the page's default package, else the default key. */
  function InitialPackage(keys: seq<string>, packages: map<string, Package>, fromUrl: Option<string>,
                          fromAttribute: Option<string>): (r: Option<string>)
    ensures Names(packages, fromUrl) ==> r == fromUrl
    ensures !Names(packages, fromUrl) && Names(packages, fromAttribute) ==> r == fromAttribute
    ensures !Names(packages, fromUrl) && !Names(packages, fromAttribute) ==> r == DefaultKey(keys)
  {
    if Names(packages, fromUrl) then fromUrl
    else if Names(packages, fromAttribute) then fromAttribute
    else DefaultKey(keys)
  }

  /** With the keys of the package table, the choice is always a known package, and missing only without packages. */
  lemma InitialPackageKnown(keys: seq<string>, packages: map<string, Package>, fromUrl: Option<string>,
                            fromAttribute: Option<string>)
    requires forall k :: k in keys <==> k in packages
    ensures var r := InitialPackage(keys, packages, fromUrl, fromAttribute);
      (r.Some? ==> r.value in packages) && (r.None? <==> keys == [])
  {
  }

  // ---------------------------------------------------------------- which groups to load

  /** `groups.map((_, index) => index)`. */
  function Indices(n: nat): (r: seq<nat>)
    ensures |r| == n && forall i :: 0 <= i < n ==> r[i] == i
  {
    if n == 0 then [] else Indices(n - 1) + [n - 1]
  }

  predicate Ascending(s: seq<nat>)
  {
    forall i, j :: 0 <= i < j < |s| ==> s[i] < s[j]
  }

  /** `determineIndicesToLoad` for the current selector and search text. */
  function IndicesToLoad(pkg: Package, currentGroup: string, searchQuery: string): (r: seq<nat>)
    ensures Ascending(r)
    ensures forall k :: 0 <= k < |r| ==> r[k] < |Groups(pkg)|
  {
    var n := |Groups(pkg)|;
    if currentGroup == All then
      if Trim(searchQuery) != [] then Indices(n)
      else if pkg.totalChannels.Some? && pkg.totalChannels.value <= LimitAllAbove then Indices(n)
      else []
    else
      match JsInteger(currentGroup)
      case Some(i) => if 0 <= i < n then [i] else []
      case None => []
  }

  /** The cases of `determineIndicesToLoad`. */
  lemma IndicesToLoadCases(pkg: Package, currentGroup: string, searchQuery: string)
    ensures var n := |Groups(pkg)|; var r := IndicesToLoad(pkg, currentGroup, searchQuery);
      (currentGroup == All && Trim(searchQuery) != [] ==> r == Indices(n)) &&
      (currentGroup == All && Trim(searchQuery) == [] ==>
         r == (if pkg.totalChannels.Some? && pkg.totalChannels.value <= LimitAllAbove then Indices(n) else [])) &&
      (IsGroupValue(currentGroup) && currentGroup != All ==>
         r == (if DigitsValue(currentGroup) < n then [DigitsValue(currentGroup)] else []))
  {
    if IsGroupValue(currentGroup) && currentGroup != All {
      GroupValueIndex(currentGroup);
    }
  }

  /** A selector other than "all" reads back as the index it spells. */
  lemma GroupValueIndex(g: string)
    requires IsGroupValue(g) && g != All
    ensures JsInteger(g) == Some(DigitsValue(g))
  {
    JsIntegerOfDigits(DigitsValue(g));
  }

  // ---------------------------------------------------------------- loadGroups

  datatype Channel = NoChannel | Channel(name: string, group: string)

  /** A loaded group as the cache keeps it. */
  datatype CachedGroup = CachedGroup(name: string, totalChannels: int, channels: seq<Channel>)

  /** The JSON of a group file; `channels` is `None` when it is not an array. */
  datatype GroupData = GroupData(name: string, totalChannels: Option<int>, channels: Option<seq<Channel>>)

  datatype FetchResult = Failed | Fetched(data: GroupData)

  /** `pkg.groups?.[index]` exists and names a data file. */
  predicate HasPath(groups: seq<Option<GroupMeta>>, i: nat)
  {
    i < |groups| && groups[i].Some? && groups[i].value.dataPath != []
  }

  function Elems(s: seq<nat>): set<nat>
  {
    set x | x in s
  }

  /**
   * The indices for which the synchronous pass of `loadGroups` starts a
   * fetch: not cached, no request pending (including one started earlier in
   * the same pass), and a data file named.
   */
  function Started(indices: seq<nat>, cached: set<nat>, pending: set<nat>, groups: seq<Option<GroupMeta>>): (r: seq<nat>)
    ensures forall k :: 0 <= k < |r| ==> r[k] in indices && r[k] !in cached && r[k] !in pending && HasPath(groups, r[k])
    ensures forall j, k :: 0 <= j < k < |r| ==> r[j] != r[k]
  {
    if indices == [] then []
    else
      var prev := Started(indices[..|indices| - 1], cached, pending, groups);
      var i := indices[|indices| - 1];
      if i in cached || i in pending || i in prev || !HasPath(groups, i) then prev else prev + [i]
  }

  function GroupLabel(index: nat): string
  {
    "Group " + NatToString(index + 1)
  }

  /** What a successful load stores: the file's name, else the meta's, else "Group n". */
  function Stored(index: nat, meta: GroupMeta, data: GroupData): (r: CachedGroup)
    ensures data.channels.Some? ==> r.channels == data.channels.value
    ensures data.channels.None? ==> r.channels == []
    ensures r.totalChannels == if data.totalChannels.Some? then data.totalChannels.value else |r.channels|
    ensures r.name != []
  {
    var channels := data.channels.GetOr([]);
    CachedGroup(if data.name != [] then data.name else if meta.name != [] then meta.name else GroupLabel(index),
                data.totalChannels.GetOr(|channels|),
                channels)
  }

  /** The cache after the started fetches settle: each success stores its group, a failure stores nothing. */
  function Settle(cache: map<nat, CachedGroup>, started: seq<nat>, fetched: nat -> FetchResult,
                  groups: seq<Option<GroupMeta>>): map<nat, CachedGroup>
    requires forall k :: 0 <= k < |started| ==> HasPath(groups, started[k])
  {
    if started == [] then cache
    else
      var prev := Settle(cache, started[..|started| - 1], fetched, groups);
      var i := started[|started| - 1];
      assert HasPath(groups, i);
      match fetched(i)
      case Fetched(data) => prev[i := Stored(i, groups[i].value, data)]
      case Failed => prev
  }

  /** Old entries stay; exactly the successful loads are added, with what `Stored` gives. */
  lemma {:induction false} SettleCorrect(cache: map<nat, CachedGroup>, started: seq<nat>, fetched: nat -> FetchResult,
                                         groups: seq<Option<GroupMeta>>, k: nat)
    requires forall j :: 0 <= j < |started| ==> HasPath(groups, started[j])
    ensures k in Settle(cache, started, fetched, groups) <==> k in cache || (k in started && fetched(k).Fetched?)
    ensures k in cache && k !in started ==> Settle(cache, started, fetched, groups)[k] == cache[k]
    ensures k in started && fetched(k).Fetched? ==>
      Settle(cache, started, fetched, groups)[k] == Stored(k, groups[k].value, fetched(k).data)
  {
    if started != [] {
      var front := started[..|started| - 1];
      SettleCorrect(cache, front, fetched, groups, k);
      assert forall x :: x in started <==> x in front || x == started[|started| - 1];
    }
  }

  /** The progress values: 1, 2, …, n. */
  function CountUp(n: nat): (r: seq<nat>)
    ensures |r| == n && forall i :: 0 <= i < n ==> r[i] == i + 1
  {
    if n == 0 then [] else CountUp(n - 1) + [n]
  }

  /** `channelMatcher`: every channel for an empty query, otherwise a real channel whose name or group contains it. */
  function Matcher(query: string): (m: Channel -> bool)
  {
    if query == [] then (c: Channel) => true
    else (c: Channel) => c.Channel? && ((c.name != [] && Contains(Lower(c.name), query)) ||
                                        (c.group != [] && Contains(Lower(c.group), query)))
  }

  lemma MatcherCases(query: string, c: Channel)
    ensures query == [] ==> Matcher(query)(c)
    ensures query != [] ==>
      (Matcher(query)(c) <==> c.Channel? && (Contains(Lower(c.name), query) || Contains(Lower(c.group), query)))
  {
    if query != [] && c.Channel? {
      if c.name == [] {
        assert !Contains(Lower(c.name), query);
      }
      if c.group == [] {
        assert !Contains(Lower(c.group), query);
      }
    }
  }

  // ---------------------------------------------------------------- render context

  datatype GroupView = GroupView(index: nat, name: string, totalChannels: int, channels: seq<Channel>,
                                 dataPath: Option<string>)

  datatype Evaluated = Evaluated(index: nat, name: string, channels: seq<Channel>, totalChannels: int)

  datatype Context = Context(groups: seq<GroupView>, counts: seq<int>, filteredGroups: seq<Evaluated>,
                             totalChannels: int, totalGroups: int, hasQuery: bool,
                             searchMatches: Option<int>, searchGroupCount: Option<int>,
                             activeKey: string, shouldLimitAll: bool)

  /** One group as the page shows it: the meta first, then the cache, then defaults. */
  function View(index: nat, meta: Option<GroupMeta>, cache: map<nat, CachedGroup>): (r: GroupView)
    ensures r.index == index && r.name != []
    ensures r.channels == if index in cache then cache[index].channels else []
  {
    var cached := if index in cache then Some(cache[index]) else None;
    GroupView(index,
              if meta.Some? && meta.value.name != [] then meta.value.name
              else if cached.Some? && cached.value.name != [] then cached.value.name
              else GroupLabel(index),
              if meta.Some? && meta.value.totalChannels.Some? then meta.value.totalChannels.value
              else if cached.Some? then cached.value.totalChannels
              else 0,
              if cached.Some? then cached.value.channels else [],
              if meta.Some? && meta.value.dataPath != [] then Some(meta.value.dataPath) else None)
  }

  function Views(metas: seq<Option<GroupMeta>>, cache: map<nat, CachedGroup>): (r: seq<GroupView>)
    ensures |r| == |metas| && forall i :: 0 <= i < |r| ==> r[i] == View(i, metas[i], cache)
  {
    seq(|metas|, i requires 0 <= i < |metas| => View(i, metas[i], cache))
  }

  function Sum(xs: seq<int>): int
  {
    if xs == [] then 0 else Sum(xs[..|xs| - 1]) + xs[|xs| - 1]
  }

  function SumLengths(gs: seq<Evaluated>): nat
  {
    if gs == [] then 0 else SumLengths(gs[..|gs| - 1]) + |gs[|gs| - 1].channels|
  }

  /** The selector after validation: a group value naming an existing group, else "all". */
  function ActiveKey(currentGroup: string, n: nat): (r: string)
    ensures r == All || (r == currentGroup && JsInteger(r).Some? && 0 <= JsInteger(r).value < n)
    ensures currentGroup == All ==> r == All
    ensures JsInteger(currentGroup).Some? && 0 <= JsInteger(currentGroup).value < n ==> r == currentGroup
  {
    if currentGroup == All then All
    else
      match JsInteger(currentGroup)
      case Some(i) => if 0 <= i < n then currentGroup else All
      case None => All
  }

  function Evaluate(view: GroupView, hasQuery: bool, query: string): (r: Evaluated)
    ensures r.index == view.index
  {
    Evaluated(view.index, view.name, if hasQuery then Filter(view.channels, Matcher(query)) else view.channels,
              view.totalChannels)
  }

  function HasMatches(): Evaluated -> bool
  {
    (g: Evaluated) => g.channels != []
  }

  /** `activeIndices`: every group for "all", else the one group the validated selector names. */
  function ActiveIndices(activeKey: string, n: nat): (r: seq<nat>)
    requires activeKey == All || (JsInteger(activeKey).Some? && 0 <= JsInteger(activeKey).value < n)
    ensures Ascending(r) && forall k :: 0 <= k < |r| ==> r[k] < n
    ensures activeKey == All ==> |r| == n
    ensures activeKey != All ==> |r| == 1
  {
    if activeKey == All then Indices(n) else [JsInteger(activeKey).value]
  }

  /** The active groups, evaluated against the query, in the order of the indices. */
  function EvaluatedGroups(views: seq<GroupView>, indices: seq<nat>, hasQuery: bool, query: string): (r: seq<Evaluated>)
    requires forall i :: 0 <= i < |views| ==> views[i].index == i
    requires forall k :: 0 <= k < |indices| ==> indices[k] < |views|
    ensures |r| == |indices|
    ensures forall k :: 0 <= k < |r| ==> r[k].index == indices[k]
    ensures forall k :: 0 <= k < |r| ==> r[k] == Evaluate(views[indices[k]], hasQuery, query)
  {
    seq(|indices|, k requires 0 <= k < |indices| => Evaluate(views[indices[k]], hasQuery, query))
  }

  /** `buildRenderContext` for a package, its group cache and the current selector and search text. */
  function RenderContext(pkg: Package, cache: map<nat, CachedGroup>, currentGroup: string, searchQuery: string): (r: Context)
    ensures |r.groups| == |Groups(pkg)|
    ensures r.activeKey == ActiveKey(currentGroup, |Groups(pkg)|)
    ensures r.hasQuery <==> Trim(searchQuery) != []
  {
    var t := Trim(searchQuery);
    assert |Lower(t)| == |t|;
    Render(pkg, cache, ActiveKey(currentGroup, |Groups(pkg)|), Lower(t))
  }

  /** The context for a validated selector and a trimmed, lower-cased query. */
  function Render(pkg: Package, cache: map<nat, CachedGroup>, activeKey: string, query: string): (r: Context)
    requires activeKey == All || (JsInteger(activeKey).Some? && 0 <= JsInteger(activeKey).value < |Groups(pkg)|)
    ensures |r.groups| == |Groups(pkg)| && r.activeKey == activeKey && r.hasQuery == (query != [])
  {
    var groups := Views(Groups(pkg), cache);
    var counts := seq(|groups|, i requires 0 <= i < |groups| => groups[i].totalChannels);
    var totalChannels := pkg.totalChannels.GetOr(Sum(counts));
    var hasQuery := query != [];
    var evaluated := EvaluatedGroups(groups, ActiveIndices(activeKey, |groups|), hasQuery, query);
    var shouldLimitAll := !hasQuery && activeKey == All && totalChannels > LimitAllAbove;
    Context(groups, counts,
            if shouldLimitAll then [] else if hasQuery then Filter(evaluated, HasMatches()) else evaluated,
            totalChannels, pkg.totalGroups.GetOr(|groups|), hasQuery,
            if hasQuery then Some(SumLengths(evaluated)) else None,
            if hasQuery then Some(|Filter(evaluated, HasMatches())|) else None,
            activeKey, shouldLimitAll)
  }

  /** Groups without matches add nothing to the match count. */
  lemma {:induction false} SumSkipsEmpty(gs: seq<Evaluated>)
    ensures SumLengths(Filter(gs, HasMatches())) == SumLengths(gs)
  {
    if gs != [] {
      SumSkipsEmpty(gs[..|gs| - 1]);
      var f := Filter(gs[..|gs| - 1], HasMatches());
      var last := gs[|gs| - 1];
      if last.channels != [] {
        assert Filter(gs, HasMatches()) == f + [last];
        assert (f + [last])[..|f|] == f;
      } else {
        assert Filter(gs, HasMatches()) == f;
      }
    }
  }

  /** Without a query, the "all" view of a package over the limit shows no groups. */
  lemma RenderLimit(pkg: Package, cache: map<nat, CachedGroup>, currentGroup: string, searchQuery: string)
    ensures var r := RenderContext(pkg, cache, currentGroup, searchQuery);
      (r.shouldLimitAll <==> !r.hasQuery && r.activeKey == All && r.totalChannels > LimitAllAbove) &&
      (r.shouldLimitAll ==> r.filteredGroups == []) &&
      (r.hasQuery <==> Trim(searchQuery) != [])
  {
  }

  /** A filter keeps indices that ascend along the list ascending. */
  lemma {:induction false} FilterAscending(gs: seq<Evaluated>, keep: Evaluated -> bool)
    requires forall j, k :: 0 <= j < k < |gs| ==> gs[j].index < gs[k].index
    ensures var f := Filter(gs, keep); forall j, k :: 0 <= j < k < |f| ==> f[j].index < f[k].index
  {
    if gs != [] {
      var front := gs[..|gs| - 1];
      FilterAscending(front, keep);
      var f := Filter(front, keep);
      var last := gs[|gs| - 1];
      forall j | 0 <= j < |f|
        ensures f[j].index < last.index
      {
        FilterMembers(front, keep, f[j]);
      }
    }
  }

  /**
   * With a query, the shown groups are exactly the active groups with at
   * least one match, in ascending index order, each holding the matching
   * channels of its group in list order; the counts are the number of those
   * groups and the sum of their matches.
   */
  lemma RenderSearch(pkg: Package, cache: map<nat, CachedGroup>, currentGroup: string, searchQuery: string)
    requires Trim(searchQuery) != []
    ensures var r := RenderContext(pkg, cache, currentGroup, searchQuery);
      var query := Lower(Trim(searchQuery));
      var active := ActiveIndices(r.activeKey, |r.groups|);
      r.searchGroupCount == Some(|r.filteredGroups|) &&
      r.searchMatches == Some(SumLengths(r.filteredGroups)) &&
      (forall k :: 0 <= k < |r.filteredGroups| ==>
         r.filteredGroups[k].channels != [] && r.filteredGroups[k].index in active &&
         r.filteredGroups[k].channels == Filter(r.groups[r.filteredGroups[k].index].channels, Matcher(query))) &&
      (forall i :: 0 <= i < |r.groups| && i in active && Filter(r.groups[i].channels, Matcher(query)) != [] ==>
         exists k :: 0 <= k < |r.filteredGroups| && r.filteredGroups[k].index == i) &&
      (forall j, k :: 0 <= j < k < |r.filteredGroups| ==> r.filteredGroups[j].index < r.filteredGroups[k].index)
  {
    var t := Trim(searchQuery);
    assert |Lower(t)| == |t|;
    RenderSearchFor(pkg, cache, ActiveKey(currentGroup, |Groups(pkg)|), Lower(t));
  }

  lemma RenderSearchFor(pkg: Package, cache: map<nat, CachedGroup>, activeKey: string, query: string)
    requires activeKey == All || (JsInteger(activeKey).Some? && 0 <= JsInteger(activeKey).value < |Groups(pkg)|)
    requires query != []
    ensures var r := Render(pkg, cache, activeKey, query);
      var active := ActiveIndices(r.activeKey, |r.groups|);
      r.searchGroupCount == Some(|r.filteredGroups|) &&
      r.searchMatches == Some(SumLengths(r.filteredGroups)) &&
      (forall k :: 0 <= k < |r.filteredGroups| ==>
         r.filteredGroups[k].channels != [] && r.filteredGroups[k].index in active &&
         r.filteredGroups[k].channels == Filter(r.groups[r.filteredGroups[k].index].channels, Matcher(query))) &&
      (forall i :: 0 <= i < |r.groups| && i in active && Filter(r.groups[i].channels, Matcher(query)) != [] ==>
         exists k :: 0 <= k < |r.filteredGroups| && r.filteredGroups[k].index == i) &&
      (forall j, k :: 0 <= j < k < |r.filteredGroups| ==> r.filteredGroups[j].index < r.filteredGroups[k].index)
  {
    var r := Render(pkg, cache, activeKey, query);
    var active := ActiveIndices(activeKey, |r.groups|);
    var evaluated := EvaluatedGroups(r.groups, active, true, query);
    assert r.filteredGroups == Filter(evaluated, HasMatches());
    SumSkipsEmpty(evaluated);
    SearchShown(r.groups, active, query);
  }

  /** The groups a search shows out of the active ones. */
  lemma SearchShown(views: seq<GroupView>, active: seq<nat>, query: string)
    requires forall i :: 0 <= i < |views| ==> views[i].index == i
    requires Ascending(active) && forall k :: 0 <= k < |active| ==> active[k] < |views|
    ensures var shown := Filter(EvaluatedGroups(views, active, true, query), HasMatches());
      (forall k :: 0 <= k < |shown| ==>
         shown[k].channels != [] && shown[k].index in active &&
         shown[k].channels == Filter(views[shown[k].index].channels, Matcher(query))) &&
      (forall i :: 0 <= i < |views| && i in active && Filter(views[i].channels, Matcher(query)) != [] ==>
         exists k :: 0 <= k < |shown| && shown[k].index == i) &&
      (forall j, k :: 0 <= j < k < |shown| ==> shown[j].index < shown[k].index)
  {
    var evaluated := EvaluatedGroups(views, active, true, query);
    var shown := Filter(evaluated, HasMatches());
    forall k | 0 <= k < |shown|
      ensures shown[k].index in active
      ensures shown[k].channels == Filter(views[shown[k].index].channels, Matcher(query))
    {
      FilterMembers(evaluated, HasMatches(), shown[k]);
      var p :| 0 <= p < |evaluated| && evaluated[p] == shown[k];
    }
    forall i | 0 <= i < |views| && i in active && Filter(views[i].channels, Matcher(query)) != []
      ensures exists k :: 0 <= k < |shown| && shown[k].index == i
    {
      var p :| 0 <= p < |active| && active[p] == i;
      FilterMembers(evaluated, HasMatches(), evaluated[p]);
      var k :| 0 <= k < |shown| && shown[k] == evaluated[p];
    }
    FilterAscending(evaluated, HasMatches());
  }

  // ---------------------------------------------------------------- page state

  class CataloguePage {
    var packages: map<string, Package>
    var currentPackage: Option<string>
    var currentGroup: string
    var searchQuery: string
    var groupCache: map<string, map<nat, CachedGroup>>
    var groupRequests: map<string, set<nat>>
    /** `DEFAULT_GROUP`, the sanitised `data-default-group` of the script tag. */
    const defaultGroup: string

    predicate Valid()
      reads this
    {
      IsGroupValue(currentGroup) && IsGroupValue(defaultGroup)
    }

    /** The initial `state`, with the packages `loadChannelData` read. */
    constructor (defaultGroupAttribute: Option<string>, loaded: map<string, Package>)
      ensures Valid()
      ensures defaultGroup == Sanitise(defaultGroupAttribute) && currentGroup == defaultGroup
      ensures packages == loaded && currentPackage == None && searchQuery == []
      ensures groupCache == map[] && groupRequests == map[]
    {
      var g := Sanitise(defaultGroupAttribute);
      assert IsGroupValue(g);
      defaultGroup := g;
      currentGroup := g;
      packages := loaded;
      currentPackage := None;
      searchQuery := "";
      groupCache := map[];
      groupRequests := map[];
    }

    function CacheOf(slug: string): map<nat, CachedGroup>
      reads this
    {
      if slug in groupCache then groupCache[slug] else map[]
    }

    function RequestsOf(slug: string): set<nat>
      reads this
    {
      if slug in groupRequests then groupRequests[slug] else {}
    }

    method EnsureGroupCache(slug: string)
      modifies this`groupCache
      ensures groupCache == if slug in old(groupCache) then old(groupCache) else old(groupCache)[slug := map[]]
    {
      if slug !in groupCache {
        groupCache := groupCache[slug := map[]];
      }
    }

    method EnsureGroupRequests(slug: string)
      modifies this`groupRequests
      ensures groupRequests == if slug in old(groupRequests) then old(groupRequests) else old(groupRequests)[slug := {}]
    {
      if slug !in groupRequests {
        groupRequests := groupRequests[slug := {}];
      }
    }

    /** `setActivePackage`: an unknown key changes nothing; a known one becomes current, resetting the group unless told to keep it. */
    method SetActivePackage(key: string, preserveGroup: bool) returns (found: bool)
      requires Valid()
      modifies this`currentPackage, this`currentGroup
      ensures Valid()
      ensures found == (key in packages)
      ensures found ==> currentPackage == Some(key) && currentGroup == (if preserveGroup then old(currentGroup) else defaultGroup)
      ensures !found ==> currentPackage == old(currentPackage) && currentGroup == old(currentGroup)
    {
      if key !in packages {
        return false;
      }
      currentPackage := Some(key);
      if !preserveGroup {
        currentGroup := defaultGroup;
      }
      return true;
    }

    /** `setActiveGroup`: the selector is stored sanitised. */
    method SetActiveGroup(value: Option<string>)
      requires Valid()
      modifies this`currentGroup
      ensures Valid() && currentGroup == Sanitise(value)
    {
      currentGroup := Sanitise(value);
    }

    /** `setSearchQuery`: the raw text is stored; trimming and case happen when the context is built. */
    method SetSearchQuery(value: string)
      requires Valid()
      modifies this`searchQuery
      ensures Valid() && searchQuery == value
    {
      searchQuery := value;
    }

    /**
     * `loadGroups`: a synchronous pass over the indices counts cached and
     * file-less groups as done, waits for pending requests and starts a
     * fetch for the rest; the started fetches then settle (taken in the order
     * they were started), each storing its group on success and deleting its
     * request. Returns the progress values reported.
     */
    method LoadGroups(pkg: Package, indices: seq<nat>, fetched: nat -> FetchResult) returns (progress: seq<nat>)
      requires Valid()
      modifies this`groupCache, this`groupRequests
      ensures Valid()
      ensures progress == CountUp(|indices|)
      ensures indices == [] ==> groupCache == old(groupCache) && groupRequests == old(groupRequests)
      ensures indices != [] ==>
        var cache0 := old(CacheOf(pkg.slug));
        var pending := old(RequestsOf(pkg.slug));
        var started := Started(indices, cache0.Keys, pending, Groups(pkg));
        groupCache == old(groupCache)[pkg.slug := Settle(cache0, started, fetched, Groups(pkg))] &&
        groupRequests == old(groupRequests)[pkg.slug := pending]
    {
      if indices == [] {
        return [];
      }
      ghost var cache0, pending, caches0, requests0 := CacheOf(pkg.slug), RequestsOf(pkg.slug), groupCache, groupRequests;
      EnsureGroupCache(pkg.slug);
      EnsureGroupRequests(pkg.slug);
      var cache := groupCache[pkg.slug];
      var requests := groupRequests[pkg.slug];
      assert cache == cache0 && requests == pending;
      cache, requests, progress := LoadInto(cache, requests, indices, fetched, Groups(pkg));
      groupCache := groupCache[pkg.slug := cache];
      groupRequests := groupRequests[pkg.slug := requests];
      if pkg.slug !in caches0 {
        Overwrite(caches0, pkg.slug, map[], cache);
      }
      if pkg.slug !in requests0 {
        Overwrite(requests0, pkg.slug, {}, pending);
      }
    }

    /** `buildRenderContext`: also writes a selector naming no group back as "all". */
    method BuildRenderContext(pkg: Package) returns (ctx: Context)
      requires Valid()
      modifies this`groupCache, this`currentGroup
      ensures Valid()
      ensures ctx == RenderContext(pkg, old(CacheOf(pkg.slug)), old(currentGroup), searchQuery)
      ensures currentGroup == ActiveKey(old(currentGroup), |Groups(pkg)|)
      ensures groupCache == if pkg.slug in old(groupCache) then old(groupCache) else old(groupCache)[pkg.slug := map[]]
    {
      ghost var cache0 := CacheOf(pkg.slug);
      EnsureGroupCache(pkg.slug);
      var cache := groupCache[pkg.slug];
      assert cache == cache0;
      ctx := RenderContext(pkg, cache, currentGroup, searchQuery);
      currentGroup := ctx.activeKey;
    }
  }

  lemma Overwrite<K, V>(m: map<K, V>, k: K, v: V, w: V)
    ensures m[k := v][k := w] == m[k := w]
  {
  }

  /** The steps of `loadGroups` on one package's cache and request set. */
  method LoadInto(cache0: map<nat, CachedGroup>, pending: set<nat>, indices: seq<nat>, fetched: nat -> FetchResult,
                  groups: seq<Option<GroupMeta>>)
    returns (cache: map<nat, CachedGroup>, requests: set<nat>, progress: seq<nat>)
    ensures cache == Settle(cache0, Started(indices, cache0.Keys, pending, groups), fetched, groups)
    ensures requests == pending
    ensures progress == CountUp(|indices|)
  {
    var started, awaited, completed;
    started, awaited, completed, progress := StartLoads(indices, cache0.Keys, pending, groups);
    requests := pending + Elems(started);
    completed, progress := AwaitPending(awaited, completed, progress);
    cache, requests, completed, progress := SettleLoads(cache0, requests, pending, started, fetched, groups, completed, progress);
  }

  /** The synchronous pass of `loadGroups`. */
  method StartLoads(indices: seq<nat>, cached: set<nat>, pending: set<nat>, groups: seq<Option<GroupMeta>>)
    returns (started: seq<nat>, awaited: nat, completed: nat, progress: seq<nat>)
    ensures started == Started(indices, cached, pending, groups)
    ensures completed + awaited + |started| == |indices|
    ensures progress == CountUp(completed)
  {
    started, awaited, completed, progress := [], 0, 0, [];
    var requests := pending;
    var k := 0;
    while k < |indices|
      invariant 0 <= k <= |indices|
      invariant started == Started(indices[..k], cached, pending, groups)
      invariant requests == pending + Elems(started)
      invariant completed + awaited + |started| == k
      invariant progress == CountUp(completed)
    {
      var index := indices[k];
      assert indices[..k + 1][..k] == indices[..k];
      if index in cached {
        completed := completed + 1;
        progress := progress + [completed];
      } else if index in requests {
        awaited := awaited + 1;
      } else if !HasPath(groups, index) {
        completed := completed + 1;
        progress := progress + [completed];
      } else {
        requests := requests + {index};
        started := started + [index];
      }
      k := k + 1;
    }
    assert indices[..|indices|] == indices;
  }

  /** The requests another call started settle; each counts as done here. */
  method AwaitPending(awaited: nat, completed0: nat, progress0: seq<nat>) returns (completed: nat, progress: seq<nat>)
    requires progress0 == CountUp(completed0)
    ensures completed == completed0 + awaited && progress == CountUp(completed)
  {
    completed, progress := completed0, progress0;
    var a := 0;
    while a < awaited
      invariant 0 <= a <= awaited
      invariant completed == completed0 + a && progress == CountUp(completed)
    {
      completed := completed + 1;
      progress := progress + [completed];
      a := a + 1;
    }
  }

  /** The started fetches settle: `then` stores the group, `finally` counts it and deletes its request. */
  method SettleLoads(cache0: map<nat, CachedGroup>, requests0: set<nat>, ghost pending: set<nat>, started: seq<nat>,
                     fetched: nat -> FetchResult, groups: seq<Option<GroupMeta>>, completed0: nat, progress0: seq<nat>)
    returns (cache: map<nat, CachedGroup>, requests: set<nat>, completed: nat, progress: seq<nat>)
    requires forall k :: 0 <= k < |started| ==> HasPath(groups, started[k]) && started[k] !in pending
    requires forall j, k :: 0 <= j < k < |started| ==> started[j] != started[k]
    requires requests0 == pending + Elems(started)
    requires progress0 == CountUp(completed0)
    ensures cache == Settle(cache0, started, fetched, groups)
    ensures requests == pending
    ensures completed == completed0 + |started| && progress == CountUp(completed)
  {
    cache, requests, completed, progress := cache0, requests0, completed0, progress0;
    var j := 0;
    while j < |started|
      invariant 0 <= j <= |started|
      invariant cache == Settle(cache0, started[..j], fetched, groups)
      invariant requests == pending + Elems(started[j..])
      invariant completed == completed0 + j && progress == CountUp(completed)
    {
      var index := started[j];
      assert started[..j + 1][..j] == started[..j];
      match fetched(index) {
        case Fetched(data) =>
          cache := cache[index := Stored(index, groups[index].value, data)];
        case Failed =>
      }
      completed := completed + 1;
      progress := progress + [completed];
      assert Elems(started[j..]) == {index} + Elems(started[j + 1..]) by {
        assert started[j..] == [index] + started[j + 1..];
      }
      assert index !in Elems(started[j + 1..]);
      requests := requests - {index};
      j := j + 1;
    }
    assert started[..|started|] == started;
  }

  /** Every listed index that is neither cached nor pending and names a data file gets its fetch. */
  lemma {:induction false} StartedComplete(indices: seq<nat>, cached: set<nat>, pending: set<nat>,
                                           groups: seq<Option<GroupMeta>>, i: nat)
    requires i in indices && i !in cached && i !in pending && HasPath(groups, i)
    ensures i in Started(indices, cached, pending, groups)
  {
    var front := indices[..|indices| - 1];
    if i in front {
      StartedComplete(front, cached, pending, groups, i);
    }
  }
}
