/** The number JavaScript makes of a string when a relational operator needs one (`ToNumber`
    applied to a string, section 7.1.4.1 of ECMA-262): the text between the leading and the
    trailing white space is the empty string (0), a decimal literal with an optional sign,
    fraction and exponent, `Infinity` with an optional sign, or an unsigned hexadecimal,
    octal or binary integer; any other text is NaN. Finite values are kept exact. */
module JsNumber {
  import opened Wrappers
  import Text

  datatype Numeric = NaN | PosInf | NegInf | Finite(x: real)

  /** `v >= k`: false for NaN. */
  predicate AtLeast(v: Numeric, k: int) {
    match v
    case NaN => false
    case PosInf => true
    case NegInf => false
    case Finite(x) => x >= k as real
  }

  /** `v < k`: false for NaN. */
  predicate Below(v: Numeric, k: int) {
    match v
    case NaN => false
    case PosInf => false
    case NegInf => true
    case Finite(x) => x < k as real
  }

  /** Apart from NaN, a number is either at least `k` or below it. */
  lemma AtLeastOrBelow(v: Numeric, k: int)
    ensures Below(v, k) <==> !v.NaN? && !AtLeast(v, k)
  {
  }

  function Negate(v: Numeric): (r: Numeric)
    ensures v.Finite? ==> r == Finite(-v.x)
  {
    match v
    case NaN => NaN
    case PosInf => NegInf
    case NegInf => PosInf
    case Finite(x) => Finite(-x)
  }

  /** `m` times ten to the power `e`. */
  function Scale(m: nat, e: int): (r: real)
    ensures r >= 0.0
    ensures r == 0.0 <==> m == 0
    decreases if e >= 0 then e else -e
  {
    if e == 0 then m as real
    else if e > 0 then 10.0 * Scale(m, e - 1)
    else Scale(m, e + 1) / 10.0
  }

  /** The value of one digit in the given radix (letters in either case), if it is one. */
  function RadixDigit(c: char, radix: nat): (r: Option<nat>)
    ensures r.Some? ==> r.value < radix
  {
    var d := if '0' <= c <= '9' then c as int - '0' as int
      else if 'a' <= c <= 'z' then c as int - 'a' as int + 10
      else if 'A' <= c <= 'Z' then c as int - 'A' as int + 10
      else radix;
    if d < radix then Some(d) else None
  }

  /** `v` times the radix, for the three radixes a prefix selects. */
  function Shift(v: nat, radix: nat): nat {
    if radix == 16 then 16 * v else if radix == 8 then 8 * v else if radix == 2 then 2 * v else v * radix
  }

  /** The value of a non-empty string of digits in the given radix. */
  function RadixValue(ds: string, radix: nat): (r: Option<nat>)
    ensures r.Some? ==> ds != [] && forall i | 0 <= i < |ds| :: RadixDigit(ds[i], radix).Some?
  {
    if ds == [] then None
    else
      var last := RadixDigit(ds[|ds| - 1], radix);
      if last.None? then None
      else if |ds| == 1 then last
      else match RadixValue(ds[..|ds| - 1], radix)
        case None => None
        case Some(v) => Some(Shift(v, radix) + last.value)
  }

  predicate IsExponentMark(c: char) {
    c == 'e' || c == 'E'
  }

  /** The position of the first exponent mark. */
  function ExponentMark(t: string): (r: Option<nat>)
    ensures r.Some? ==> (r.value < |t| && IsExponentMark(t[r.value])
      && forall i | 0 <= i < r.value :: !IsExponentMark(t[i]))
    ensures r.None? ==> forall i | 0 <= i < |t| :: !IsExponentMark(t[i])
  {
    if t == [] then None
    else if IsExponentMark(t[0]) then Some(0)
    else match ExponentMark(t[1..])
      case None => None
      case Some(i) => Some(i + 1)
  }

  /** An exponent: decimal digits, with an optional sign. */
  function ExponentValue(t: string): (r: Option<int>)
  {
    var signed := t != [] && (t[0] == '+' || t[0] == '-');
    var ds := if signed then t[1..] else t;
    if ds == [] || !Text.AllDigits(ds) then None
    else Some(if signed && t[0] == '-' then -(Text.DigitsValue(ds) as int) else Text.DigitsValue(ds))
  }

  /** An unsigned decimal literal: digits with an optional `.` and fraction (one of the two
      parts not empty), then an optional exponent. */
  function DecimalValue(t: string): (r: Option<real>)
    ensures r.Some? ==> r.value >= 0.0
  {
    var mark := ExponentMark(t);
    var mantissa := if mark.None? then t else t[..mark.value];
    var exponent := if mark.None? then Some(0) else ExponentValue(t[mark.value + 1..]);
    var point := Text.IndexOf(mantissa, '.');
    var whole := if point.None? then mantissa else mantissa[..point.value];
    var fraction := if point.None? then "" else mantissa[point.value + 1..];
    if exponent.None? || (whole == [] && fraction == []) || !Text.AllDigits(whole) || !Text.AllDigits(fraction) then None
    else Some(Scale(Text.DigitsValue(whole + fraction), exponent.value - |fraction|))
  }

  /** An unsigned decimal literal or `Infinity`. */
  function Unsigned(t: string): Numeric {
    if t == "Infinity" then PosInf
    else match DecimalValue(t)
      case None => NaN
      case Some(x) => Finite(x)
  }

  /** The radix a letter after a leading `0` selects. */
  function RadixMark(c: char): Option<nat> {
    if c == 'x' || c == 'X' then Some(16)
    else if c == 'o' || c == 'O' then Some(8)
    else if c == 'b' || c == 'B' then Some(2)
    else None
  }

  /** `Number(s)` for a string `s`. */
  function StringToNumber(s: string): Numeric {
    Literal(Text.Trim(s))
  }

  /** The number a string without surrounding white space spells. */
  function Literal(t: string): Numeric {
    if t == "" then Finite(0.0)
    else if |t| >= 2 && t[0] == '0' && RadixMark(t[1]).Some? then
      var radix := RadixMark(t[1]).value;
      match RadixValue(t[2..], radix)
      case None => NaN
      case Some(v) => Finite(v as real)
    else if t[0] == '+' then Unsigned(t[1..])
    else if t[0] == '-' then Negate(Unsigned(t[1..]))
    else Unsigned(t)
  }

  /** A numeral of decimal digits has neither an exponent mark nor a point. */
  lemma AllDigitsHaveNoMark(t: string)
    requires Text.AllDigits(t)
    ensures ExponentMark(t).None? && Text.IndexOf(t, '.').None?
  {
    forall i | 0 <= i < |t|
      ensures !IsExponentMark(t[i]) && t[i] != '.'
    {
      assert Text.IsDigit(t[i]);
    }
  }

  /** A non-empty string of decimal digits reads as its value, with or without a sign. */
  lemma DigitsUnsigned(t: string)
    requires t != [] && Text.AllDigits(t)
    ensures Unsigned(t) == Finite(Text.DigitsValue(t) as real)
  {
    DigitsDecimal(t);
    assert t != "Infinity" by { assert Text.IsDigit(t[0]); }
  }

  lemma DigitsLiteral(t: string)
    requires t != [] && Text.AllDigits(t)
    ensures Literal(t) == Finite(Text.DigitsValue(t) as real)
  {
    DigitsUnsigned(t);
    DigitsHaveNoPrefix(t);
  }

  /** Digits carry neither a sign nor a radix prefix. */
  lemma DigitsHaveNoPrefix(t: string)
    requires t != [] && Text.AllDigits(t)
    ensures Literal(t) == Unsigned(t)
  {
    assert Text.IsDigit(t[0]);
    if |t| >= 2 {
      assert Text.IsDigit(t[1]);
    }
  }

  lemma DigitsDecimal(t: string)
    requires t != [] && Text.AllDigits(t)
    ensures DecimalValue(t) == Some(Text.DigitsValue(t) as real)
  {
    AllDigitsHaveNoMark(t);
    assert t + "" == t;
  }

  /** A literal with neither a sign nor a radix prefix is an unsigned decimal one. */
  lemma UnsignedLiteral(t: string)
    requires t != [] && t[0] != '+' && t[0] != '-'
    requires |t| >= 2 && t[0] == '0' ==> RadixMark(t[1]).None?
    ensures Literal(t) == Unsigned(t)
  {
  }

  /** A string that neither starts nor ends with white space is read as it stands. */
  lemma Untrimmed(t: string)
    requires t != [] && !Text.IsSpace(t[0]) && !Text.IsSpace(t[|t| - 1])
    ensures Text.Trim(t) == t && StringToNumber(t) == Literal(t)
  {
  }

  /** The numeral `String(n)` of a natural number converts back to `n`. */
  lemma NatToStringRoundTrip(n: nat)
    ensures StringToNumber(Text.NatToString(n)) == Finite(n as real)
  {
    var t := Text.NatToString(n);
    assert Text.IsDigit(t[0]) && Text.IsDigit(t[|t| - 1]);
    DigitsLiteral(t);
    Untrimmed(t);
  }

  /** White space around a string does not change its number. */
  lemma SpacesAround(s: string)
    ensures StringToNumber(s) == StringToNumber(Text.Trim(s))
  {
    Text.TrimIdempotent(s);
  }

  lemma ExponentLiteral()
    ensures Literal("5e2") == Finite(500.0)
  {
    var t := "5e2";
    assert ExponentMark(t[1..]) == Some(0);
    assert t[2..] == "2" && "2"[..0] == [] && ExponentValue("2") == Some(2);
    assert t[..1] == "5" && "5"[..0] == [] && Text.IndexOf("5", '.') == None;
    assert "5" + "" == "5";
    assert Scale(5, 2) == 500.0;
  }

  lemma FiveHundredDigits()
    ensures Text.AllDigits("500") && Text.DigitsValue("500") == 500
    ensures Text.AllDigits("5000") && Text.DigitsValue("5000") == 5000
  {
    assert "5000"[..3] == "500" && "500"[..2] == "50" && "50"[..1] == "5" && "5"[..0] == [];
  }

  /** A sign before a literal applies to the unsigned literal after it. */
  lemma SignedLiterals(t: string)
    ensures Literal("+" + t) == Unsigned(t) && Literal("-" + t) == Negate(Unsigned(t))
  {
    assert ("+" + t)[1..] == t && ("-" + t)[1..] == t;
  }

  lemma SignedLiteral()
    ensures Literal("+500") == Finite(500.0)
  {
    FiveHundredDigits();
    DigitsUnsigned("500");
    SignedLiterals("500");
    assert "+" + "500" == "+500";
  }

  /** Digits, a point and digits: the value of all the digits, scaled down by the fraction's. */
  lemma PointDecimal(whole: string, fraction: string)
    requires whole != [] && Text.AllDigits(whole) && Text.AllDigits(fraction)
    ensures DecimalValue(whole + "." + fraction)
      == Some(Scale(Text.DigitsValue(whole + fraction), -|fraction|))
  {
    var t := whole + "." + fraction;
    PointDecimalHasNoMark(whole, fraction);
    PointDecimalPoint(whole, fraction);
    assert t[..|whole|] == whole && t[|whole| + 1..] == fraction;
  }

  lemma PointDecimalHasNoMark(whole: string, fraction: string)
    requires Text.AllDigits(whole) && Text.AllDigits(fraction)
    ensures ExponentMark(whole + "." + fraction).None?
  {
    var t := whole + "." + fraction;
    AllDigitsHaveNoMark(whole);
    AllDigitsHaveNoMark(fraction);
    forall i | 0 <= i < |t|
      ensures !IsExponentMark(t[i])
    {
      if i < |whole| { assert t[i] == whole[i]; }
      else if i > |whole| { assert t[i] == fraction[i - |whole| - 1]; }
    }
  }

  lemma PointDecimalPoint(whole: string, fraction: string)
    requires Text.AllDigits(whole)
    ensures Text.IndexOf(whole + "." + fraction, '.') == Some(|whole|)
  {
    var t := whole + "." + fraction;
    forall i | 0 <= i < |whole|
      ensures t[..|whole|][i] != '.'
    {
      assert Text.IsDigit(whole[i]);
    }
    Text.IndexOfFirst(t, '.', |whole|);
  }

  lemma FractionLiteral()
    ensures Literal("500.0") == Finite(500.0)
  {
    FiveHundredDigits();
    PointDecimal("500", "0");
    assert "500" + "." + "0" == "500.0" && "500" + "0" == "5000";
    assert Scale(5000, -1) == 500.0;
    UnsignedLiteral("500.0");
  }

  lemma HexLiteral()
    ensures Literal("0x1f4") == Finite(500.0)
  {
    var ds := "0x1f4"[2..];
    assert ds == "1f4" && ds[..2] == "1f" && ds[..2][..1] == "1";
    assert RadixValue("1", 16) == Some(1);
    assert RadixValue("1f", 16) == Some(31);
    assert RadixValue(ds, 16) == Some(500);
  }

  /** A status of 500 written in other ways than its numeral. */
  lemma ExponentSpelling()
    ensures StringToNumber("5e2") == Finite(500.0)
  {
    ExponentLiteral();
    Untrimmed("5e2");
  }

  lemma SignedSpelling()
    ensures StringToNumber("+500") == Finite(500.0)
  {
    SignedLiteral();
    Untrimmed("+500");
  }

  lemma FractionSpelling()
    ensures StringToNumber("500.0") == Finite(500.0)
  {
    FractionLiteral();
    Untrimmed("500.0");
  }

  lemma HexSpelling()
    ensures StringToNumber("0x1f4") == Finite(500.0)
  {
    HexLiteral();
    Untrimmed("0x1f4");
  }
}
