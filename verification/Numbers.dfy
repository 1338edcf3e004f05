/** Numbers in performance data (perfdata.py): signed integers, decimals and scientific notation, as a text
    starts with them.

    The regular expressions are written out as the scans they perform; each is deterministic, so the
    first match is the only one. */
module Numbers {
  import opened Basics
  import opened Texts

  datatype Number = Int(n: int) | Float(r: real) {
    function Value(): real {
      if Int? then n as real else r
    }
  }

  // ---- The scans ----------------------------------------------------------------------------------

  function SignLength(s: string): (n: nat)
    ensures n <= |s|
  {
    if s != [] && s[0] in "+-" then 1 else 0
  }

  /** `\d+\.?\d*|\.\d+` */
  function MantissaLength(s: string): (n: nat)
    ensures n <= |s|
  {
    var whole := Prefix(s, IsDigit);
    if whole > 0 then
      if whole < |s| && s[whole] == '.' then whole + 1 + Prefix(s[whole + 1..], IsDigit) else whole
    else if s != [] && s[0] == '.' && Prefix(s[1..], IsDigit) > 0 then 1 + Prefix(s[1..], IsDigit)
    else 0
  }

  /** `[eE][-+]?\d+`, or nothing. */
  function ExponentLength(s: string): (n: nat)
    ensures n <= |s|
  {
    if s != [] && s[0] in "eE" then
      var sign := SignLength(s[1..]);
      var digits := Prefix(s[1 + sign..], IsDigit);
      if digits > 0 then 1 + sign + digits else 0
    else 0
  }

  /** The length of the number a text starts with; 0 when it starts with none. */
  function NumberLength(s: string): (n: nat)
    ensures n <= |s|
  {
    var sign := SignLength(s);
    var mantissa := MantissaLength(s[sign..]);
    if mantissa == 0 then 0 else sign + mantissa + ExponentLength(s[sign + mantissa..])
  }

  function Power10(n: nat): real {
    if n == 0 then 1.0 else 10.0 * Power10(n - 1)
  }

  lemma Power10Positive(n: nat)
    ensures Power10(n) > 0.0
  {
  }

  predicate IsInteger(s: string) {
    var digits := s[SignLength(s)..];
    digits != [] && Prefix(digits, IsDigit) == |digits|
  }

  /** The value of the digits at the front of `s`. */
  function LeadingValue(s: string): nat {
    PrefixMeans(s, IsDigit);
    DigitsValue(s[..Prefix(s, IsDigit)])
  }

  function Signed(s: string, magnitude: real): real {
    if s != [] && s[0] == '-' then -magnitude else magnitude
  }

  /** What follows the point. */
  function AfterPoint(body: string): string {
    var whole := Prefix(body, IsDigit);
    if whole < |body| && body[whole] == '.' then body[whole + 1..] else []
  }

  function Mantissa(body: string): real {
    LeadingValue(body) as real + Fraction(AfterPoint(body))
  }

  function Unsigned(body: string): real {
    var exponent := body[MantissaLength(body)..];
    if ExponentLength(exponent) > 0 then Scaled(Mantissa(body), exponent[1..]) else Mantissa(body)
  }

  /** The value of a decimal text: whole part, fraction, exponent. */
  function RealValue(s: string): real {
    Signed(s, Unsigned(s[SignLength(s)..]))
  }

  function Fraction(s: string): real {
    Power10Positive(Prefix(s, IsDigit));
    LeadingValue(s) as real / Power10(Prefix(s, IsDigit))
  }

  /** Times, or over, a power of ten. */
  function Moved(m: real, down: bool, e: nat): real {
    Power10Positive(e);
    if down then m / Power10(e) else m * Power10(e)
  }

  function Scaled(mantissa: real, exponent: string): real {
    Moved(mantissa, exponent != [] && exponent[0] == '-', LeadingValue(exponent[SignLength(exponent)..]))
  }

  /** `_num`: an integer where the text is one, else a decimal, else nothing. */
  function NumberOf(token: string): Option<Number> {
    var t := Strip(token);
    if t == [] then None
    else if IsInteger(t) then
      var digits := t[SignLength(t)..];
      PrefixMeans(digits, IsDigit);
      assert digits[..Prefix(digits, IsDigit)] == digits;
      Some(Int(if t[0] == '-' then -(DigitsValue(digits) as int) else DigitsValue(digits)))
    else if NumberLength(t) == |t| then Some(Float(RealValue(t)))
    else None
  }

  // ---- Figures to print -----------------------------------------------------------------------------

  datatype Exponent = Exponent(mark: char, sign: string, digits: string)

  /** A figure: an integer, or a decimal with its sign, its digits before the point and, if there is one, after it, and
      its exponent. */
  datatype Figure = Whole(n: int) | Decimal(sign: string, whole: string, point: bool, fraction: string,
                                            exponent: Option<Exponent>)

  predicate IsSign(s: string) {
    |s| <= 1 && (s != [] ==> s[0] == '-' || s[0] == '+')
  }

  ghost predicate IsMantissa(whole: string, point: bool, fraction: string) {
    && Every(whole, IsDigit) && Every(fraction, IsDigit)
    && (whole != [] || fraction != []) && (!point ==> fraction == [])
  }

  ghost predicate IsExponent(e: Option<Exponent>) {
    e.Some? ==>
      && (e.value.mark == 'e' || e.value.mark == 'E') && IsSign(e.value.sign)
      && e.value.digits != [] && Every(e.value.digits, IsDigit)
  }

  /** Without a point and an exponent it would be an integer. */
  ghost predicate IsFigure(g: Figure) {
    g.Decimal? ==>
      && IsSign(g.sign) && IsMantissa(g.whole, g.point, g.fraction) && IsExponent(g.exponent)
      && (g.point || g.exponent.Some?)
  }

  function MantissaText(whole: string, point: bool, fraction: string): string {
    whole + if point then "." + fraction else ""
  }

  function ExponentText(e: Option<Exponent>): string {
    if e.None? then "" else [e.value.mark] + (e.value.sign + e.value.digits)
  }

  function SignOf(g: Figure): string {
    if g.Whole? then (if g.n < 0 then "-" else "") else g.sign
  }

  /** What a figure shows after the sign. */
  function BodyOf(g: Figure): string {
    match g
    case Whole(n) => PrintNat(if n < 0 then -n else n)
    case Decimal(_, whole, point, fraction, exponent) => MantissaText(whole, point, fraction) + ExponentText(exponent)
  }

  function PrintFigure(g: Figure): string {
    SignOf(g) + BodyOf(g)
  }

  /** 1 and `n` zeros. */
  function Tens(n: nat): (r: nat)
    ensures r > 0
  {
    if n == 0 then 1 else 10 * Tens(n - 1)
  }

  /** Times, or over, 1 and `e` zeros. */
  function Shifted(m: real, down: bool, e: nat): real {
    if down then m / Tens(e) as real else m * Tens(e) as real
  }

  function WithSign(sign: string, x: real): real {
    if sign == "-" then -x else x
  }

  /** The number a figure shows: its digits, the point taken out, moved down by the digits after the point and then as
      the exponent says. */
  function Shown(g: Figure): Number
    requires IsFigure(g)
  {
    match g
    case Whole(n) => Int(n)
    case Decimal(sign, whole, _, fraction, exponent) => Float(WithSign(sign, ShownMagnitude(whole, fraction, exponent)))
  }

  function ShownMagnitude(whole: string, fraction: string, exponent: Option<Exponent>): real
    requires Every(whole, IsDigit) && Every(fraction, IsDigit) && IsExponent(exponent)
  {
    var m := Shifted(AllDigits(whole, fraction) as real, true, |fraction|);
    match exponent
    case None => m
    case Some(x) => Shifted(m, x.sign == "-", DigitsValue(x.digits))
  }

  function AllDigits(whole: string, fraction: string): nat
    requires Every(whole, IsDigit) && Every(fraction, IsDigit)
  {
    EveryAppend(whole, fraction, IsDigit);
    DigitsValue(whole + fraction)
  }

  /** What may follow a number without being read as part of it. */
  predicate StopsNumber(after: string) {
    after == [] || !(IsDigit(after[0]) || after[0] in ".eE")
  }

  // ---- How far a figure is read -----------------------------------------------------------------------

  lemma PointSplits(front: string, digits: string, after: string)
    ensures var s := front + ("." + digits) + after;
      && s == front + ("." + digits + after) && s[|front|] == '.'
      && s[|front| + 1..] == digits + after && s[|front| + 1 + |digits|..] == after
  {
  }

  lemma MantissaRead(whole: string, point: bool, fraction: string, after: string)
    requires IsMantissa(whole, point, fraction) && (after == [] || !(IsDigit(after[0]) || after[0] == '.'))
    ensures var m := MantissaText(whole, point, fraction);
      && MantissaLength(m + after) == |m| && Prefix(m + after, IsDigit) == |whole| && (m + after)[|m|..] == after
  {
    if point {
      PointSplits(whole, fraction, after);
      PrefixIs(whole, "." + fraction + after, IsDigit);
      PrefixIs(fraction, after, IsDigit);
    } else {
      assert whole + "" == whole;
      PrefixIs(whole, after, IsDigit);
    }
  }

  lemma SignRead(sign: string, body: string)
    requires IsSign(sign) && (body == [] || (body[0] != '+' && body[0] != '-'))
    ensures SignLength(sign + body) == |sign| && (sign + body)[|sign|..] == body
  {
    if sign + body != [] {
      assert (sign + body)[0] == if sign != [] then sign[0] else body[0];
    }
  }

  lemma MarkRead(mark: char, sign: string, digits: string, after: string)
    requires (mark == 'e' || mark == 'E') && IsSign(sign) && digits != [] && Every(digits, IsDigit)
    requires after == [] || !IsDigit(after[0])
    ensures var s := [mark] + (sign + digits) + after;
      && s[1..] == sign + (digits + after) && SignLength(s[1..]) == |sign|
      && s[1 + |sign|..] == digits + after && Prefix(s[1 + |sign|..], IsDigit) == |digits|
  {
    var s := [mark] + (sign + digits) + after;
    assert s[1..] == sign + (digits + after);
    assert (digits + after)[0] == digits[0];
    SignRead(sign, digits + after);
    assert s[1 + |sign|..] == digits + after;
    PrefixIs(digits, after, IsDigit);
  }

  lemma ExponentRead(e: Option<Exponent>, after: string)
    requires IsExponent(e) && StopsNumber(after)
    ensures ExponentLength(ExponentText(e) + after) == |ExponentText(e)|
  {
    if e.Some? {
      MarkRead(e.value.mark, e.value.sign, e.value.digits, after);
    } else {
      assert "" + after == after;
    }
  }

  lemma ExponentStopsMantissa(e: Option<Exponent>, after: string)
    requires IsExponent(e) && StopsNumber(after)
    ensures var s := ExponentText(e) + after; s == [] || !(IsDigit(s[0]) || s[0] == '.')
  {
  }

  lemma BodyStarts(g: Figure)
    requires IsFigure(g)
    ensures BodyOf(g) != [] && BodyOf(g)[0] != '+' && BodyOf(g)[0] != '-'
  {
    match g
    case Whole(n) =>
      PrintNatDigits(if n < 0 then -n else n);
      assert IsDigit(BodyOf(g)[0]);
    case Decimal(_, whole, point, fraction, exponent) =>
      var m := MantissaText(whole, point, fraction);
      assert m != [] && (IsDigit(m[0]) || m[0] == '.');
      assert BodyOf(g)[0] == m[0];
  }

  /** How far the mantissa and the exponent of a figure are read. */
  lemma BodyRead(g: Figure, after: string)
    requires IsFigure(g) && StopsNumber(after)
    ensures var s := BodyOf(g) + after;
      MantissaLength(s) > 0 && MantissaLength(s) + ExponentLength(s[MantissaLength(s)..]) == |BodyOf(g)|
  {
    match g
    case Whole(n) =>
      var digits := BodyOf(g);
      PrintNatDigits(if n < 0 then -n else n);
      PrefixIs(digits, after, IsDigit);
      assert (digits + after)[|digits|..] == after;
    case Decimal(_, whole, point, fraction, exponent) =>
      var m, e := MantissaText(whole, point, fraction), ExponentText(exponent);
      assert BodyOf(g) + after == m + (e + after);
      ExponentStopsMantissa(exponent, after);
      MantissaRead(whole, point, fraction, e + after);
      ExponentRead(exponent, after);
  }

  lemma SignedLength(sign: string, s: string, m: nat)
    requires IsSign(sign) && s != [] && s[0] != '+' && s[0] != '-' && m == MantissaLength(s) && m > 0
    ensures NumberLength(sign + s) == |sign| + m + ExponentLength(s[m..])
  {
    SignRead(sign, s);
    assert (sign + s)[|sign| + m..] == s[m..];
  }

  lemma SignOfIsSign(g: Figure)
    requires IsFigure(g)
    ensures IsSign(SignOf(g))
  {
  }

  lemma SignedText(sign: string, body: string, after: string)
    requires body != []
    ensures (sign + body) + after == sign + (body + after) && (body + after)[0] == body[0]
  {
  }

  /** A printed figure is read to its end and no further. */
  lemma FigureLength(g: Figure, after: string)
    requires IsFigure(g) && StopsNumber(after)
    ensures PrintFigure(g) != [] && NumberLength(PrintFigure(g) + after) == |PrintFigure(g)|
  {
    var sign, body := SignOf(g), BodyOf(g);
    BodyStarts(g);
    SignOfIsSign(g);
    BodyRead(g, after);
    SignedText(sign, body, after);
    SignedLength(sign, body + after, MantissaLength(body + after));
  }

  // ---- What a figure is read as -------------------------------------------------------------------------

  lemma Power10IsTens(n: nat)
    ensures Power10(n) == Tens(n) as real
  {
  }

  lemma Shift(x: nat, k: nat, f: nat, d: nat)
    ensures 10 * (x * k + f) + d == x * (10 * k) + (10 * f + d)
  {
  }

  lemma {:induction false} DigitsConcat(a: string, b: string)
    requires Every(a, IsDigit) && Every(b, IsDigit)
    ensures Every(a + b, IsDigit) && DigitsValue(a + b) == DigitsValue(a) * Tens(|b|) + DigitsValue(b)
  {
    EveryAppend(a, b, IsDigit);
    if b == [] {
      assert a + b == a;
    } else {
      var front, c := b[..|b| - 1], b[|b| - 1];
      assert Every(front, IsDigit);
      DigitsConcat(a, front);
      OneDigitMore(a, front, c);
      assert b == front + [c];
    }
  }

  lemma OneDigitMore(a: string, front: string, c: char)
    requires Every(a, IsDigit) && Every(front, IsDigit) && Every(a + front, IsDigit) && IsDigit(c)
    requires Every(a + (front + [c]), IsDigit) && Every(front + [c], IsDigit)
    requires DigitsValue(a + front) == DigitsValue(a) * Tens(|front|) + DigitsValue(front)
    ensures DigitsValue(a + (front + [c])) == DigitsValue(a) * Tens(|front + [c]|) + DigitsValue(front + [c])
  {
    assert a + (front + [c]) == (a + front) + [c];
    DigitsAppend(a + front, c);
    DigitsAppend(front, c);
    Shift(DigitsValue(a), Tens(|front|), DigitsValue(front), DigitValue(c));
  }

  lemma {:induction false} CastProduct(w: nat, k: nat)
    ensures (w * k) as real == w as real * k as real
  {
    if w == 0 {
    } else {
      CastProduct(w - 1, k);
      assert w * k == (w - 1) * k + k;
    }
  }

  lemma OverCommon(w: real, f: real, k: real)
    requires k > 0.0
    ensures w + f / k == (w * k + f) / k
  {
    assert (w + f / k) * k == w * k + f / k * k == w * k + f;
  }

  lemma Together(w: nat, f: nat, k: nat, p: real, all: nat)
    requires k > 0 && p == k as real && all == w * k + f
    ensures w as real + f as real / p == all as real / k as real
  {
    CastProduct(w, k);
    OverCommon(w as real, f as real, p);
  }

  /** The digits before and after the point, as one number over a power of ten. */
  lemma PartsTogether(whole: string, fraction: string)
    requires Every(whole, IsDigit) && Every(fraction, IsDigit)
    ensures Power10(|fraction|) > 0.0
    ensures DigitsValue(whole) as real + DigitsValue(fraction) as real / Power10(|fraction|)
         == Shifted(AllDigits(whole, fraction) as real, true, |fraction|)
  {
    Power10IsTens(|fraction|);
    DigitsConcat(whole, fraction);
    Together(DigitsValue(whole), DigitsValue(fraction), Tens(|fraction|), Power10(|fraction|),
             AllDigits(whole, fraction));
  }

  lemma LeadingIs(digits: string, after: string)
    requires Every(digits, IsDigit) && (after == [] || !IsDigit(after[0]))
    ensures Prefix(digits + after, IsDigit) == |digits| && LeadingValue(digits + after) == DigitsValue(digits)
  {
    PrefixIs(digits, after, IsDigit);
    assert (digits + after)[..|digits|] == digits;
  }

  lemma FractionIs(digits: string, after: string)
    requires Every(digits, IsDigit) && (after == [] || !IsDigit(after[0]))
    ensures Power10(|digits|) > 0.0 && Fraction(digits + after) == DigitsValue(digits) as real / Power10(|digits|)
  {
    LeadingIs(digits, after);
    Power10Positive(|digits|);
  }

  lemma MantissaParts(whole: string, point: bool, fraction: string, after: string)
    requires IsMantissa(whole, point, fraction) && (after == [] || !(IsDigit(after[0]) || after[0] == '.'))
    ensures var body := MantissaText(whole, point, fraction) + after;
      && LeadingValue(body) == DigitsValue(whole)
      && AfterPoint(body) == if point then fraction + after else []
  {
    MantissaRead(whole, point, fraction, after);
    if point {
      PointSplits(whole, fraction, after);
      LeadingIs(whole, "." + fraction + after);
    } else {
      assert whole + "" == whole;
      LeadingIs(whole, after);
    }
  }

  /** The mantissa's value. */
  lemma MantissaValue(whole: string, point: bool, fraction: string, after: string)
    requires IsMantissa(whole, point, fraction) && (after == [] || !(IsDigit(after[0]) || after[0] == '.'))
    ensures Mantissa(MantissaText(whole, point, fraction) + after)
         == Shifted(AllDigits(whole, fraction) as real, true, |fraction|)
  {
    MantissaParts(whole, point, fraction, after);
    PartsTogether(whole, fraction);
    FractionIs(fraction, if point then after else []);
    assert point || fraction + [] == [];
  }

  lemma MinusExactly(sign: string)
    requires IsSign(sign)
    ensures sign == "-" <==> sign != [] && sign[0] == '-'
  {
  }

  lemma ScaledBy(m: real, sign: string, digits: string)
    requires IsSign(sign) && digits != [] && Every(digits, IsDigit)
    ensures Scaled(m, sign + digits) == Moved(m, sign != [] && sign[0] == '-', DigitsValue(digits))
  {
    assert digits + [] == digits && IsDigit(digits[0]);
    SignRead(sign, digits);
    LeadingIs(digits, []);
    assert (sign + digits)[0] == if sign != [] then sign[0] else digits[0];
  }

  lemma MovedIsShifted(m: real, down: bool, e: nat)
    ensures Moved(m, down, e) == Shifted(m, down, e)
  {
    Power10IsTens(e);
  }

  /** What the exponent does to it. */
  lemma ExponentValue(m: real, sign: string, digits: string)
    requires IsSign(sign) && digits != [] && Every(digits, IsDigit)
    ensures Scaled(m, sign + digits) == Shifted(m, sign == "-", DigitsValue(digits))
  {
    ScaledBy(m, sign, digits);
    MovedIsShifted(m, sign == "-", DigitsValue(digits));
    MinusExactly(sign);
  }

  /** The characters a figure is written in. */
  predicate IsFigureChar(c: char) {
    IsDigit(c) || c == '-' || c == '+' || c == '.' || c == 'e' || c == 'E'
  }

  lemma FigureChars(g: Figure)
    requires IsFigure(g)
    ensures Every(PrintFigure(g), IsFigureChar)
  {
    match g
    case Whole(n) =>
      PrintNatDigits(if n < 0 then -n else n);
      DigitChars(PrintNat(if n < 0 then -n else n));
      EveryAppend(SignOf(g), BodyOf(g), IsFigureChar);
    case Decimal(sign, whole, point, fraction, exponent) =>
      DigitChars(whole);
      DigitChars(fraction);
      EveryAppend(".", fraction, IsFigureChar);
      EveryAppend(whole, if point then "." + fraction else "", IsFigureChar);
      ExponentChars(exponent);
      EveryAppend(MantissaText(whole, point, fraction), ExponentText(exponent), IsFigureChar);
      EveryAppend(sign, BodyOf(g), IsFigureChar);
  }

  lemma ExponentChars(e: Option<Exponent>)
    requires IsExponent(e)
    ensures Every(ExponentText(e), IsFigureChar)
  {
    if e.Some? {
      DigitChars(e.value.digits);
      EveryAppend(e.value.sign, e.value.digits, IsFigureChar);
      EveryAppend([e.value.mark], e.value.sign + e.value.digits, IsFigureChar);
    }
  }

  lemma DigitChars(digits: string)
    requires Every(digits, IsDigit)
    ensures Every(digits, IsFigureChar)
  {
  }

  lemma FigureIsStripped(s: string)
    requires s != [] && Every(s, IsFigureChar)
    ensures Strip(s) == s
  {
    assert IsFigureChar(s[0]) && IsFigureChar(s[|s| - 1]);
    StripKeeps(s);
  }

  /** A text of digits, with or without a minus sign, is read as the integer it shows. */
  lemma NumberOfDigits(t: string, negative: bool, digits: string)
    requires digits != [] && Every(digits, IsDigit) && t == if negative then "-" + digits else digits
    ensures NumberOf(t) == Some(Int(if negative then -(DigitsValue(digits) as int) else DigitsValue(digits)))
  {
    assert IsDigit(digits[0]) && IsDigit(digits[|digits| - 1]) && t[|t| - 1] == digits[|digits| - 1];
    assert t[0] == if negative then '-' else digits[0];
    StripKeeps(t);
    assert t[SignLength(t)..] == digits;
    PrefixIs(digits, [], IsDigit);
    assert digits + [] == digits;
  }

  /** Reading a printed integer gives it back. */
  lemma NumberOfPrintInt(n: int)
    ensures NumberOf(PrintFigure(Whole(n))) == Some(Int(n))
  {
    var magnitude := if n < 0 then -n else n;
    var digits := PrintNat(magnitude);
    PrintNatDigits(magnitude);
    assert PrintFigure(Whole(n)) == if n < 0 then "-" + digits else digits;
    NumberOfDigits(PrintFigure(Whole(n)), n < 0, digits);
  }

  lemma DecimalIsNoInteger(g: Figure)
    requires IsFigure(g) && g.Decimal?
    ensures PrintFigure(g) != [] && !IsInteger(PrintFigure(g))
  {
    var m, e := MantissaText(g.whole, g.point, g.fraction), ExponentText(g.exponent);
    BodyStarts(g);
    SignRead(g.sign, BodyOf(g));
    assert e + [] == e && StopsNumber([]);
    ExponentStopsMantissa(g.exponent, []);
    MantissaRead(g.whole, g.point, g.fraction, e);
  }

  lemma SignedBy(sign: string, body: string, x: real)
    requires IsSign(sign) && body != [] && body[0] != '-'
    ensures Signed(sign + body, x) == WithSign(sign, x)
  {
    MinusExactly(sign);
    assert (sign + body)[0] == if sign != [] then sign[0] else body[0];
  }

  lemma UnsignedValue(g: Figure)
    requires IsFigure(g) && g.Decimal?
    ensures var magnitude := Shifted(AllDigits(g.whole, g.fraction) as real, true, |g.fraction|);
      Unsigned(BodyOf(g)) ==
        match g.exponent
        case None => magnitude
        case Some(x) => Scaled(magnitude, x.sign + x.digits)
  {
    var m, e := MantissaText(g.whole, g.point, g.fraction), ExponentText(g.exponent);
    assert e + [] == e && StopsNumber([]);
    ExponentStopsMantissa(g.exponent, []);
    MantissaRead(g.whole, g.point, g.fraction, e);
    MantissaValue(g.whole, g.point, g.fraction, e);
    ExponentRead(g.exponent, []);
    assert g.exponent.Some? ==> e[1..] == g.exponent.value.sign + g.exponent.value.digits;
  }

  lemma DecimalValue(g: Figure)
    requires IsFigure(g) && g.Decimal?
    ensures RealValue(PrintFigure(g)) == Shown(g).r
  {
    BodyStarts(g);
    SignRead(g.sign, BodyOf(g));
    UnsignedValue(g);
    SignedBy(g.sign, BodyOf(g), Unsigned(BodyOf(g)));
    if g.exponent.Some? {
      var x := g.exponent.value;
      ExponentValue(Shifted(AllDigits(g.whole, g.fraction) as real, true, |g.fraction|), x.sign, x.digits);
    }
  }

  /** Reading a printed figure gives its number back. */
  lemma NumberOfFigure(g: Figure)
    requires IsFigure(g)
    ensures NumberOf(PrintFigure(g)) == Some(Shown(g))
  {
    if g.Whole? {
      NumberOfPrintInt(g.n);
    } else {
      FigureChars(g);
      DecimalIsNoInteger(g);
      FigureIsStripped(PrintFigure(g));
      FigureLength(g, []);
      assert PrintFigure(g) + [] == PrintFigure(g);
      DecimalValue(g);
    }
  }
}
