/** Money: exact decimal texts at a fixed scale, and totals over cost buckets that do not overlap. */
module UsageImport {
  import opened Prelude
  import opened Control
  import opened Text
  import opened Ordering

  const I128_MAX: int := 0x7FFF_FFFF_FFFF_FFFF_FFFF_FFFF_FFFF_FFFF

  datatype Fault = DecimalFormat | DecimalRange | DecimalPrecision

  // ---------------------------------------------------------------- decimal texts

  /** A decimal text taken apart: digits before and after the point, and a power of ten. */
  datatype Decimal = Decimal(whole: string, frac: string, exponent: int)

  predicate IsExponentLetter(c: char) {
    c == 'e' || c == 'E'
  }

  /** Splits at the first exponent letter. */
  function SplitExponent(s: string): (string, Option<string>) {
    if s == [] then ([], None)
    else if IsExponentLetter(s[0]) then ([], Some(s[1..]))
    else
      var (mantissa, exponent) := SplitExponent(s[1..]);
      ([s[0]] + mantissa, exponent)
  }

  predicate HasExponentLetter(s: string) {
    exists c | c in s :: IsExponentLetter(c)
  }

  function ParseExponent(s: Option<string>): Result<int, Fault> {
    if s.None? then Ok(0)
    else
      match ParseI64(s.value)
      case None => Err(DecimalFormat)
      case Some(e) =>
        if !(-0x8000_0000 <= e <= 0x7FFF_FFFF) then Err(DecimalFormat)
        else if !(-18 <= e <= 18) then Err(DecimalRange)
        else Ok(e)
  }

  function ParseMantissa(s: string): Option<(string, string)> {
    var (whole, frac) :=
      match SplitOnce(s, '.')
      case None => (s, [])
      case Some((w, f)) => (w, f);
    if '.' in frac || whole == [] || !IsDigits(whole) || !IsDigits(frac) then None else Some((whole, frac))
  }

  function ParseDecimal(value: string, scale: nat): Result<Decimal, Fault> {
    if ByteLength(value) > 64 || value == [] || value[0] == '-' || value[0] == '+' || scale > 12 then Err(DecimalFormat)
    else
      var (mantissa, letters) := SplitExponent(value);
      if letters.Some? && HasExponentLetter(letters.value) then Err(DecimalFormat)
      else
        match ParseExponent(letters)
        case Err(f) => Err(f)
        case Ok(exponent) =>
          match ParseMantissa(mantissa)
          case None => Err(DecimalFormat)
          case Some((whole, frac)) => Ok(Decimal(whole, frac, exponent))
  }

  // ---------------------------------------------------------------- how numbers are spelled

  /** A decimal text by its parts: digits, an optional point with digits, an optional exponent. */
  datatype Spelling = Spelling(whole: string, frac: string, dotted: bool, letter: Option<char>, numeral: string)

  predicate IsSpelling(t: Spelling) {
    && t.whole != [] && IsDigits(t.whole) && IsDigits(t.frac)
    && (!t.dotted ==> t.frac == [])
    && (match t.letter
        case None => t.numeral == []
        case Some(c) => c in {'e', 'E'} && IsPower(t.numeral))
  }

  /** Digits, behind a sign or not. */
  predicate IsPower(s: string) {
    && s != [] && (s[0] in {'+', '-'} ==> s[1..] != [] && IsDigits(s[1..]))
    && (s[0] !in {'+', '-'} ==> IsDigits(s))
  }

  function PowerOf(s: string): int
    requires IsPower(s)
  {
    var size: int := if s[0] in {'+', '-'} then NumeralValue(s[1..]) else NumeralValue(s);
    if s[0] == '-' then -size else size
  }

  lemma PowerMeaning(s: string)
    ensures IsPower(s) <==> IsSignedNumeral(s)
    ensures IsPower(s) ==> PowerOf(s) == SignedValue(s)
  {
    hide NumeralValue;
    if s != [] {
      assert s[0] in s;
    }
  }

  function Mantissa(t: Spelling): string {
    t.whole + (if t.dotted then ['.'] + t.frac else [])
  }

  function Written(t: Spelling): string {
    Mantissa(t) + (match t.letter case None => [] case Some(c) => [c] + t.numeral)
  }

  function ExponentOf(t: Spelling): int
    requires IsSpelling(t)
  {
    if t.letter.None? then 0 else PowerOf(t.numeral)
  }

  function NumberOf(t: Spelling): Decimal
    requires IsSpelling(t)
  {
    Decimal(t.whole, t.frac, ExponentOf(t))
  }

  /** The text is this spelling, within the limits on length, scale and exponent. */
  predicate Spells(t: Spelling, value: string, scale: nat) {
    && IsSpelling(t) && Written(t) == value
    && ByteLength(value) <= 64 && scale <= 12 && -18 <= ExponentOf(t) <= 18
  }

  predicate HasNoLetter(s: string) {
    'e' !in s && 'E' !in s
  }

  lemma {:induction false} SplitExponentParts(s: string)
    ensures var (mantissa, rest) := SplitExponent(s);
            && HasNoLetter(mantissa)
            && (rest.None? ==> s == mantissa)
            && (rest.Some? ==>
                  |mantissa| < |s| && IsExponentLetter(s[|mantissa|]) && s == mantissa + [s[|mantissa|]] + rest.value)
  {
    if s != [] && !IsExponentLetter(s[0]) {
      SplitExponentParts(s[1..]);
      assert s == [s[0]] + s[1..];
    }
  }

  lemma {:induction false} SplitExponentJoins(mantissa: string, c: char, rest: string)
    requires HasNoLetter(mantissa) && IsExponentLetter(c)
    ensures SplitExponent(mantissa + [c] + rest) == (mantissa, Some(rest))
  {
    var s := mantissa + [c] + rest;
    if mantissa == [] {
      assert s[1..] == rest;
    } else {
      SplitExponentJoins(mantissa[1..], c, rest);
      assert s[1..] == mantissa[1..] + [c] + rest;
      assert [s[0]] + mantissa[1..] == mantissa;
      assert mantissa[0] in mantissa;
    }
  }

  lemma NumeralHasNoLetter(s: string)
    requires IsSignedNumeral(s)
    ensures HasNoLetter(s)
  {
    if Unsigned(s) != s {
      assert s == [s[0]] + s[1..];
    }
  }

  lemma MantissaMeaning(s: string, whole: string, frac: string)
    ensures ParseMantissa(s) == Some((whole, frac)) ==>
              exists dotted: bool :: Mantissa(Spelling(whole, frac, dotted, None, [])) == s
                && IsSpelling(Spelling(whole, frac, dotted, None, []))
    ensures IsSpelling(Spelling(whole, frac, true, None, [])) ==>
              ParseMantissa(whole + ['.'] + frac) == Some((whole, frac))
    ensures IsSpelling(Spelling(whole, [], false, None, [])) ==> ParseMantissa(whole) == Some((whole, []))
  {
    SplitOnceParts(s, '.');
    if ParseMantissa(s) == Some((whole, frac)) {
      var dotted := SplitOnce(s, '.').Some?;
      assert whole + [] == whole;
      assert whole + (['.'] + frac) == whole + ['.'] + frac;
      assert Mantissa(Spelling(whole, frac, dotted, None, [])) == s;
    }
    if IsDigits(whole) {
      DigitsHaveNoPoint(whole);
      NoSeparator(whole, '.');
      SplitOnceMeaning(whole, '.', frac);
      if IsDigits(frac) {
        DigitsHaveNoPoint(frac);
      }
    }
  }

  lemma MantissaHasNoLetter(t: Spelling)
    requires IsSpelling(t)
    ensures HasNoLetter(Mantissa(t)) && Mantissa(t) != [] && IsDigit(Mantissa(t)[0])
    ensures ParseMantissa(Mantissa(t)) == Some((t.whole, t.frac))
  {
    hide ParseMantissa;
    MantissaMeaning([], t.whole, t.frac);
    assert Mantissa(t)[0] == t.whole[0];
    if t.dotted {
      assert Mantissa(t) == t.whole + ['.'] + t.frac;
      assert IsSpelling(Spelling(t.whole, t.frac, true, None, []));
    } else {
      assert Mantissa(t) == t.whole;
      assert IsSpelling(Spelling(t.whole, [], false, None, []));
    }
  }

  lemma {:induction false} NoLetterNoSplit(s: string)
    requires HasNoLetter(s)
    ensures SplitExponent(s) == (s, None)
  {
    if s != [] {
      assert s[0] in s;
      NoLetterNoSplit(s[1..]);
      assert [s[0]] + s[1..] == s;
    }
  }

  /** Every spelled text within the limits parses into the parts it was spelled with. */
  lemma SpelledParses(t: Spelling, value: string, scale: nat)
    requires Spells(t, value, scale)
    ensures ParseDecimal(value, scale) == Ok(NumberOf(t))
  {
    hide ParseMantissa;
    hide IsDigits;
    MantissaHasNoLetter(t);
    assert value[0] == Mantissa(t)[0];
    match t.letter {
      case None =>
        assert Written(t) == Mantissa(t);
        NoLetterNoSplit(value);
      case Some(c) =>
        assert Written(t) == Mantissa(t) + [c] + t.numeral;
        SplitExponentJoins(Mantissa(t), c, t.numeral);
        PowerMeaning(t.numeral);
        NumeralHasNoLetter(t.numeral);
    }
  }

  lemma ExponentMeaning(s: string, e: int)
    ensures ParseExponent(Some(s)) == Ok(e) <==> IsSignedNumeral(s) && e == SignedValue(s) && -18 <= e <= 18
  {
    hide IsDigits;
    hide NumeralValue;
  }

  lemma WrittenParts(t: Spelling, mantissa: string)
    requires Mantissa(t) == mantissa
    ensures t.letter.None? ==> Written(t) == mantissa
    ensures t.letter.Some? ==> Written(t) == mantissa + [t.letter.value] + t.numeral
  {
  }

  /** Every text that parses is spelled that way. */
  lemma ParsedIsSpelled(value: string, scale: nat) returns (t: Spelling)
    requires ParseDecimal(value, scale).Ok?
    ensures Spells(t, value, scale) && ParseDecimal(value, scale) == Ok(NumberOf(t))
  {
    hide ParseMantissa;
    hide ParseExponent;
    hide SplitExponent;
    hide IsDigits;
    hide ByteLength;
    hide IsSignedNumeral;
    hide SignedValue;
    hide IsPower;
    hide PowerOf;
    hide Written;
    hide Mantissa;
    SplitExponentParts(value);
    NoExponent();
    var (mantissa, rest) := SplitExponent(value);
    var (whole, frac) := ParseMantissa(mantissa).value;
    MantissaMeaning(mantissa, whole, frac);
    var dotted: bool :| Mantissa(Spelling(whole, frac, dotted, None, [])) == mantissa
      && IsSpelling(Spelling(whole, frac, dotted, None, []));
    if rest.None? {
      t := Spelling(whole, frac, dotted, None, []);
    } else {
      ExponentMeaning(rest.value, ParseExponent(rest).value);
      PowerMeaning(rest.value);
      t := Spelling(whole, frac, dotted, Some(value[|mantissa|]), rest.value);
      SameMantissa(t);
    }
    WrittenParts(t, mantissa);
  }

  lemma NoExponent()
    ensures ParseExponent(None) == Ok(0)
  {
  }

  lemma SameMantissa(t: Spelling)
    ensures Mantissa(t) == Mantissa(Spelling(t.whole, t.frac, t.dotted, None, []))
  {
  }

  /** The accepted texts are exactly the spelled ones, and they are read as what they spell. */
  lemma GrammarIsExact(value: string, scale: nat, d: Decimal)
    ensures ParseDecimal(value, scale) == Ok(d) <==> exists t :: Spells(t, value, scale) && NumberOf(t) == d
  {
    hide ParseDecimal;
    hide ByteLength;
    hide Written;
    if ParseDecimal(value, scale) == Ok(d) {
      var t := ParsedIsSpelled(value, scale);
    }
    if t :| Spells(t, value, scale) && NumberOf(t) == d {
      SpelledParses(t, value, scale);
    }
  }

  predicate IsDecimal(d: Decimal) {
    IsDigits(d.whole) && IsDigits(d.frac) && -18 <= d.exponent <= 18
  }

  lemma ParsedIsDecimal(value: string, scale: nat)
    ensures ParseDecimal(value, scale).Ok? ==> IsDecimal(ParseDecimal(value, scale).value) && scale <= 12
  {
  }

  function Digits(d: Decimal): nat
    requires IsDecimal(d)
  {
    NumeralValue(d.whole + d.frac)
  }

  function Shift(d: Decimal, scale: nat): int {
    scale + d.exponent - |d.frac|
  }

  /** Checked 128-bit scaling of the digits, then a 64-bit result. */
  function Scale(d: Decimal, scale: nat): Result<int, Fault>
    requires IsDecimal(d)
  {
    var n, shift := Digits(d), Shift(d, scale);
    if n > I128_MAX then Err(DecimalRange)
    else if Power10(if shift >= 0 then shift else -shift) > I128_MAX then Err(DecimalRange)
    else if shift >= 0 then
      var scaled := n * Power10(shift);
      if scaled > I128_MAX || scaled > I64_MAX then Err(DecimalRange) else Ok(scaled)
    else
      var divisor := Power10(-shift);
      if n % divisor != 0 then Err(DecimalPrecision)
      else if n / divisor > I64_MAX then Err(DecimalRange)
      else Ok(n / divisor)
  }

  function DecimalFixed(value: string, scale: nat): Result<int, Fault> {
    match ParseDecimal(value, scale)
    case Err(f) => Err(f)
    case Ok(d) =>
      ParsedIsDecimal(value, scale);
      Scale(d, scale)
  }

  // ---------------------------------------------------------------- what a text denotes

  function TenTo(e: int): real
    decreases if e >= 0 then e else -e
  {
    if e == 0 then 1.0 else if e > 0 then 10.0 * TenTo(e - 1) else TenTo(e + 1) / 10.0
  }

  /** The number a decimal text stands for. */
  function Denoted(d: Decimal): real
    requires IsDecimal(d)
  {
    (NumeralValue(d.whole) as real + NumeralValue(d.frac) as real * TenTo(-|d.frac|)) * TenTo(d.exponent)
  }

  /** The scaled number, which the result has to equal. */
  function Target(d: Decimal, scale: nat): real
    requires IsDecimal(d)
  {
    Denoted(d) * TenTo(scale)
  }

  lemma TenToNext(a: int)
    ensures TenTo(a + 1) == 10.0 * TenTo(a)
  {
  }

  lemma {:induction false} TenToAdd(a: int, b: int)
    ensures TenTo(a + b) == TenTo(a) * TenTo(b)
    decreases if b >= 0 then b else -b
  {
    hide TenTo;
    TenToNothing();
    if b > 0 {
      TenToAdd(a, b - 1);
      TenToNext(a + b - 1);
      TenToNext(b - 1);
      Tenfold(TenTo(a), TenTo(b - 1));
    } else if b < 0 {
      TenToAdd(a, b + 1);
      TenToNext(a + b);
      TenToNext(b);
      Tenfold(TenTo(a), TenTo(b));
    }
  }

  lemma Tenfold(x: real, y: real)
    ensures x * (10.0 * y) == 10.0 * (x * y)
  {
  }

  lemma {:induction false} TenToIsPower(k: nat)
    ensures TenTo(k) == Power10(k) as real && TenTo(k) > 0.0
  {
    if k > 0 {
      TenToIsPower(k - 1);
    }
  }

  lemma {:induction false} CastProduct(a: int, b: nat)
    ensures (a * b) as real == a as real * b as real
  {
    if b > 0 {
      CastProduct(a, b - 1);
      assert a * b == a * (b - 1) + a;
      assert a as real * b as real == a as real * (b - 1) as real + a as real;
    }
  }

  lemma {:induction false} NumeralOfJoined(a: string, b: string)
    requires IsDigits(a) && IsDigits(b)
    ensures IsDigits(a + b) && NumeralValue(a + b) == NumeralValue(a) * Power10(|b|) + NumeralValue(b)
  {
    if b == [] {
      assert a + b == a;
    } else {
      var front, c := b[..|b| - 1], b[|b| - 1];
      NumeralOfJoined(a, front);
      assert (a + b)[..|a + b| - 1] == a + front;
      NumeralSteps(a + b);
      NumeralSteps(b);
      hide NumeralValue;
      Regrouped(NumeralValue(a), Power10(|front|), NumeralValue(front), DigitValue(c));
    }
  }

  lemma NumeralSteps(s: string)
    requires s != [] && IsDigits(s)
    ensures NumeralValue(s) == NumeralValue(s[..|s| - 1]) * 10 + DigitValue(s[|s| - 1])
  {
  }

  lemma Regrouped(x: int, p: int, y: int, d: int)
    ensures (x * p + y) * 10 + d == x * (10 * p) + (y * 10 + d)
  {
  }

  /** The denoted number at a scale is the digits times a power of ten. */
  lemma TargetIsShifted(d: Decimal, scale: nat)
    requires IsDecimal(d)
    ensures Target(d, scale) == Digits(d) as real * TenTo(Shift(d, scale))
  {
    hide NumeralValue;
    hide Power10;
    hide TenTo;
    var w, f, l := NumeralValue(d.whole), NumeralValue(d.frac), |d.frac|;
    NumeralOfJoined(d.whole, d.frac);
    CastProduct(w, Power10(l));
    TenToIsPower(l);
    TenToAdd(l, -l);
    TenToNothing();
    TenToAdd(d.exponent, scale);
    TenToAdd(-l, d.exponent + scale);
    Factored(w as real, f as real, TenTo(l), TenTo(-l), TenTo(d.exponent), TenTo(scale));
  }

  lemma TenToNothing()
    ensures TenTo(0) == 1.0
  {
  }

  lemma Factored(w: real, f: real, p: real, q: real, x: real, y: real)
    requires p * q == 1.0
    ensures (w + f * q) * x * y == (w * p + f) * (q * (x * y))
  {
    assert (w * p + f) * q == w * (p * q) + f * q;
    assert (w + f * q) * x * y == (w + f * q) * (x * y);
  }

  /** The checked arithmetic stays inside 128 bits before the result is known. */
  predicate FitsIntermediates(d: Decimal, scale: nat)
    requires IsDecimal(d)
  {
    Digits(d) <= 0x7FFF_FFFF_FFFF_FFFF_FFFF_FFFF_FFFF_FFFF && Shift(d, scale) >= -38
  }

  lemma {:induction false} PowersGrow(a: nat, b: nat)
    requires a <= b
    ensures Power10(a) <= Power10(b)
  {
    if a < b {
      PowersGrow(a, b - 1);
    }
  }

  lemma LargestPower()
    ensures Power10(38) <= I128_MAX < Power10(39)
  {
    assert Power10(10) == 10000000000;
    PowersAdd(10, 10);
    PowersAdd(20, 10);
    assert Power10(8) == 100000000;
    PowersAdd(30, 8);
    assert Power10(39) == 10 * Power10(38);
  }

  lemma {:induction false} PowersAdd(a: nat, b: nat)
    ensures Power10(a + b) == Power10(a) * Power10(b)
  {
    if b > 0 {
      PowersAdd(a, b - 1);
      assert Power10(a) * (10 * Power10(b - 1)) == 10 * (Power10(a) * Power10(b - 1));
    }
  }

  /** Scaling up, the target is an integer and there is only one. */
  lemma TargetAbove(d: Decimal, scale: nat, v: int)
    requires IsDecimal(d) && Shift(d, scale) >= 0
    ensures v as real == Target(d, scale) <==> v == Digits(d) * Power10(Shift(d, scale))
  {
    hide Target;
    hide Digits;
    hide Power10;
    hide TenTo;
    var n, p := Digits(d), Power10(Shift(d, scale));
    TargetIsShifted(d, scale);
    TenToIsPower(Shift(d, scale));
    CastProduct(n, p);
    assert Target(d, scale) == (n * p) as real;
  }

  /** Scaling down, the target is an integer exactly when the division leaves nothing. */
  lemma TargetBelow(d: Decimal, scale: nat, v: int)
    requires IsDecimal(d) && Shift(d, scale) < 0
    ensures var divisor := Power10(-Shift(d, scale));
      v as real == Target(d, scale) <==> Digits(d) % divisor == 0 && Digits(d) / divisor == v
  {
    hide Target;
    hide Digits;
    hide Power10;
    hide TenTo;
    var shift := Shift(d, scale);
    TargetIsShifted(d, scale);
    TenToIsPower(-shift);
    TenToAdd(shift, -shift);
    TenToNothing();
    WholeQuotient(Digits(d), Power10(-shift), TenTo(shift), v);
  }

  /** Exactness of the scaling, for whatever parts the text was read into. */
  lemma ParsedIsExact(value: string, scale: nat, v: int)
    requires ParseDecimal(value, scale).Ok?
    ensures var d := ParseDecimal(value, scale).value;
      && IsDecimal(d)
      && (DecimalFixed(value, scale) == Ok(v) <==>
            FitsIntermediates(d, scale) && v <= I64_MAX && v as real == Target(d, scale))
      && (DecimalFixed(value, scale) == Err(DecimalPrecision) ==> v as real != Target(d, scale))
  {
    hide ParseDecimal;
    hide Digits;
    hide Power10;
    hide Target;
    ParsedIsDecimal(value, scale);
    var d := ParseDecimal(value, scale).value;
    IntermediatesFit(d, scale);
    if Shift(d, scale) >= 0 {
      TargetAbove(d, scale, v);
    } else {
      TargetBelow(d, scale, v);
    }
  }

  lemma IntermediatesFit(d: Decimal, scale: nat)
    requires IsDecimal(d) && scale <= 12
    ensures var shift := Shift(d, scale);
      Power10(if shift >= 0 then shift else -shift) <= I128_MAX <==> shift >= -38
  {
    hide Power10;
    LargestPower();
    var shift := Shift(d, scale);
    if shift >= -38 {
      PowersGrow(if shift >= 0 then shift else -shift, 38);
    } else {
      PowersGrow(39, -shift);
    }
  }

  /** Dividing by d and multiplying by its reciprocal agree exactly on multiples of d. */
  lemma WholeQuotient(n: nat, d: nat, r: real, v: int)
    requires d > 0 && r * d as real == 1.0
    ensures v as real == n as real * r <==> n % d == 0 && n / d == v
  {
    CastProduct(v, d);
    var x, y := n as real * r, d as real;
    assert x * y == n as real * (r * y);
    if v as real == x {
      assert (v * d) as real == n as real;
      assert v * d == n;
      ExactDivision(v, d, n);
    }
    if n % d == 0 && n / d == v {
      assert v * d == n;
      SameProduct(v as real, x, y);
    }
  }

  lemma ExactDivision(v: int, d: nat, n: nat)
    requires d > 0 && v * d == n
    ensures n % d == 0 && n / d == v
  {
    var q, r := n / d, n % d;
    assert n == q * d + r;
    assert (v - q) * d == r;
    Multiples(v - q, d);
  }

  lemma Multiples(m: int, d: int)
    requires d > 0
    ensures m >= 1 ==> m * d >= d
    ensures m <= -1 ==> m * d <= -d
  {
  }

  lemma SameProduct(a: real, b: real, y: real)
    requires y > 0.0 && a * y == b * y
    ensures a == b
  {
  }

  predicate IsWhole(v: int, x: real) {
    v as real == x
  }

  ghost predicate IsInteger(x: real) {
    exists v: int :: IsWhole(v, x)
  }

  /** The precision complaint, for whatever parts the text was read into. */
  lemma ParsedPrecision(value: string, scale: nat)
    requires ParseDecimal(value, scale).Ok?
    ensures var d := ParseDecimal(value, scale).value;
      && IsDecimal(d)
      && (DecimalFixed(value, scale) == Err(DecimalPrecision) <==>
            FitsIntermediates(d, scale) && !IsInteger(Target(d, scale)))
  {
    hide ParseDecimal;
    hide Digits;
    hide Power10;
    hide Target;
    ParsedIsDecimal(value, scale);
    var d := ParseDecimal(value, scale).value;
    var n, shift := Digits(d), Shift(d, scale);
    IntermediatesFit(d, scale);
    if shift >= 0 {
      TargetAbove(d, scale, n * Power10(shift));
      assert IsWhole(n * Power10(shift), Target(d, scale));
    } else {
      var q := n / Power10(-shift);
      TargetBelow(d, scale, q);
      assert n % Power10(-shift) == 0 ==> IsWhole(q, Target(d, scale));
      if v: int :| IsWhole(v, Target(d, scale)) {
        TargetBelow(d, scale, v);
      }
    }
  }

  /** The text spells a number that v equals at the scale, in range and with fitting intermediates. */
  predicate Amounts(t: Spelling, value: string, scale: nat, v: int) {
    && Spells(t, value, scale)
    && FitsIntermediates(NumberOf(t), scale) && v <= 0x7FFF_FFFF_FFFF_FFFF
    && v as real == Target(NumberOf(t), scale)
  }

  /** The text spells a number that no integer equals at the scale. */
  ghost predicate FallsBetween(t: Spelling, value: string, scale: nat) {
    && Spells(t, value, scale)
    && FitsIntermediates(NumberOf(t), scale) && !IsInteger(Target(NumberOf(t), scale))
  }

  /**
   * Exact both ways: a text is accepted with v exactly when it spells a number that v equals at the
   * scale, v is in range and the intermediates fit.
   */
  lemma DecimalIsExact(value: string, scale: nat, v: int)
    ensures DecimalFixed(value, scale) == Ok(v) <==> exists t :: Amounts(t, value, scale, v)
  {
    hide ParseDecimal;
    hide Scale;
    hide Target;
    hide FitsIntermediates;
    if DecimalFixed(value, scale) == Ok(v) {
      ParsedIsExact(value, scale, v);
      var t := ParsedIsSpelled(value, scale);
      assert Amounts(t, value, scale, v);
    }
    if t :| Amounts(t, value, scale, v) {
      SpelledParses(t, value, scale);
      ParsedIsExact(value, scale, v);
    }
  }

  /** Precision is refused exactly when the text spells a number that no integer equals at the scale. */
  lemma PrecisionIsExact(value: string, scale: nat)
    ensures DecimalFixed(value, scale) == Err(DecimalPrecision) <==> exists t :: FallsBetween(t, value, scale)
  {
    ParseNeverComplainsOfPrecision(value, scale);
    hide ParseDecimal;
    hide Scale;
    hide Target;
    hide FitsIntermediates;
    hide IsInteger;
    if DecimalFixed(value, scale) == Err(DecimalPrecision) {
      ParsedPrecision(value, scale);
      var t := ParsedIsSpelled(value, scale);
      assert FallsBetween(t, value, scale);
    }
    if t :| FallsBetween(t, value, scale) {
      SpelledParses(t, value, scale);
      ParsedPrecision(value, scale);
    }
  }

  lemma ParseNeverComplainsOfPrecision(value: string, scale: nat)
    ensures ParseDecimal(value, scale) != Err(DecimalPrecision)
  {
  }

  /** The text in front of the first exponent letter and the text behind it, if there is one. */
  predicate DividesInto(value: string, mantissa: string, power: Option<string>) {
    && HasNoLetter(mantissa)
    && match power
       case None => value == mantissa
       case Some(s) => value == mantissa + ['e'] + s || value == mantissa + ['E'] + s
  }

  /** Digits with at most one point, and at least one digit before it. */
  ghost predicate IsMantissa(s: string) {
    exists whole, frac, dotted: bool ::
      IsSpelling(Spelling(whole, frac, dotted, None, [])) && Mantissa(Spelling(whole, frac, dotted, None, [])) == s
  }

  /** A power as such is a numeral of 32 bits; whether it is small enough is another question. */
  predicate IsWord(s: string) {
    IsPower(s) && -0x8000_0000 <= PowerOf(s) <= 0x7FFF_FFFF
  }

  /** Not a decimal text at all: by its length, its first character, its power or its mantissa. */
  ghost predicate IsMisspelt(value: string, scale: nat, mantissa: string, power: Option<string>) {
    && DividesInto(value, mantissa, power)
    && (|| ByteLength(value) > 64 || scale > 12 || value == "" || value[0] in {'+', '-'}
        || (power.Some? && !IsWord(power.value))
        || ((power.None? || -18 <= PowerOf(power.value) <= 18) && !IsMantissa(mantissa)))
  }

  lemma DivisionMeaning(value: string, mantissa: string, power: Option<string>)
    ensures DividesInto(value, mantissa, power) <==> SplitExponent(value) == (mantissa, power)
  {
    SplitExponentParts(value);
    if DividesInto(value, mantissa, power) {
      match power {
        case None => NoLetterNoSplit(value);
        case Some(s) =>
          SplitExponentJoins(mantissa, 'e', s);
          SplitExponentJoins(mantissa, 'E', s);
      }
    }
  }

  lemma MantissaIsParsed(s: string)
    ensures IsMantissa(s) <==> ParseMantissa(s).Some?
  {
    hide ParseMantissa;
    hide Mantissa;
    hide IsSpelling;
    if ParseMantissa(s).Some? {
      var (whole, frac) := ParseMantissa(s).value;
      MantissaMeaning(s, whole, frac);
    }
    if whole, frac, dotted: bool :|
      IsSpelling(Spelling(whole, frac, dotted, None, [])) && Mantissa(Spelling(whole, frac, dotted, None, [])) == s
    {
      MantissaHasNoLetter(Spelling(whole, frac, dotted, None, []));
    }
  }

  lemma WordMeaning(s: string)
    ensures HasExponentLetter(s) || ParseExponent(Some(s)) == Err(DecimalFormat) <==> !IsWord(s)
    ensures IsWord(s) ==> (ParseExponent(Some(s)).Ok? <==> -18 <= PowerOf(s) <= 18)
  {
    hide NumeralValue;
    PowerMeaning(s);
    if IsPower(s) {
      NumeralHasNoLetter(s);
    }
  }

  /** A text is refused for its format exactly when it is not a decimal text; all else refused is out of range. */
  lemma FormatIsExact(value: string, scale: nat)
    ensures DecimalFixed(value, scale) == Err(DecimalFormat) <==>
      exists mantissa, power :: IsMisspelt(value, scale, mantissa, power)
  {
    hide ByteLength;
    hide ParseMantissa;
    hide ParseExponent;
    hide SplitExponent;
    hide HasExponentLetter;
    hide IsWord;
    hide PowerOf;
    hide IsMantissa;
    hide Scale;
    var (mantissa, power) := SplitExponent(value);
    forall m, p ensures DividesInto(value, m, p) <==> m == mantissa && p == power {
      DivisionMeaning(value, m, p);
    }
    hide DividesInto;
    MantissaIsParsed(mantissa);
    NoExponent();
    if power.Some? {
      WordMeaning(power.value);
    }
    ScaleNeverComplainsOfFormat(value, scale);
    if DecimalFixed(value, scale) == Err(DecimalFormat) {
      assert IsMisspelt(value, scale, mantissa, power);
    }
  }

  lemma ScaleNeverComplainsOfFormat(value: string, scale: nat)
    ensures ParseDecimal(value, scale).Ok? ==> DecimalFixed(value, scale) != Err(DecimalFormat)
  {
  }

  // ---------------------------------------------------------------- printing

  /** Exactly k digits. */
  function Padded(x: nat, k: nat): (s: string)
    ensures |s| == k && IsDigits(s)
  {
    if k == 0 then [] else Padded(x / 10, k - 1) + [Digit(x % 10)]
  }

  lemma {:induction false} PaddedValue(x: nat, k: nat)
    requires x < Power10(k)
    ensures NumeralValue(Padded(x, k)) == x
  {
    if k > 0 {
      PaddedValue(x / 10, k - 1);
      assert Padded(x, k)[..k - 1] == Padded(x / 10, k - 1);
    }
  }

  function Quotient(v: nat, p: nat): (q: nat)
    requires p >= 1
    ensures q <= v
  {
    Multiples(v / p - v, p);
    Scaled(v, p);
    v / p
  }

  function Remainder(v: nat, p: nat): (r: nat)
    requires p >= 1
    ensures r < p && v == Quotient(v, p) * p + r
  {
    v % p
  }

  /** The amount at a scale, written out with all its decimals. */
  function PrintFixed(v: nat, scale: nat): string {
    var p := Power10(scale);
    if scale == 0 then Numeral(v) else Numeral(Quotient(v, p)) + ['.'] + Padded(Remainder(v, p), scale)
  }

  lemma {:induction false} PlainLength(s: string)
    requires IsPlain(s)
    ensures ByteLength(s) == |s|
  {
    if s != [] {
      assert s[0] in s;
      PlainLength(s[1..]);
    }
  }

  lemma {:induction false} NoSeparator(s: string, c: char)
    requires c !in s
    ensures SplitOnce(s, c) == None
  {
    if s != [] {
      NoSeparator(s[1..], c);
    }
  }

  lemma NumeralIsShort(v: nat)
    requires v <= I64_MAX
    ensures |Numeral(v)| <= 19
  {
    hide Power10;
    SmallPowers();
    PowersAdd(10, 9);
    NumeralLength(v, 19);
  }

  lemma SmallPowers()
    ensures Power10(10) == 10000000000 && Power10(9) == 1000000000
  {
    assert Power10(5) == 100000;
    PowersAdd(5, 5);
    PowersAdd(5, 4);
  }

  lemma Scaled(v: nat, p: nat)
    requires p >= 1
    ensures v * p >= v
  {
  }

  predicate IsPlain(s: string) {
    forall c | c in s :: IsDigit(c) || c == '.'
  }

  /** A short text of digits around an optional point parses into its parts. */
  lemma PlainParts(text: string, whole: string, frac: string, scale: nat)
    requires whole != [] && IsDigits(whole) && IsDigits(frac) && |text| <= 64 && scale <= 12
    requires (text == whole && frac == []) || text == whole + ['.'] + frac
    ensures ParseDecimal(text, scale) == Ok(Decimal(whole, frac, 0))
  {
    hide IsDigit;
    hide ParseDecimal;
    var t := Spelling(whole, frac, text != whole, None, []);
    assert IsPlain(text);
    PlainLength(text);
    assert whole + [] == whole && whole + [] + [] == whole;
    assert whole + (['.'] + frac) + [] == whole + ['.'] + frac;
    SpelledParses(t, text, scale);
  }

  lemma DigitsHaveNoPoint(s: string)
    requires IsDigits(s)
    ensures '.' !in s
  {
  }

  /** The parts of a printed amount. */
  lemma PrintedParts(v: nat, scale: nat)
    requires v <= I64_MAX && scale <= 12
    ensures ParseDecimal(PrintFixed(v, scale), scale).Ok?
    ensures var d := ParseDecimal(PrintFixed(v, scale), scale).value;
      IsDecimal(d) && Digits(d) == v && Shift(d, scale) == 0
  {
    hide Power10;
    hide NumeralValue;
    hide Numeral;
    hide Padded;
    hide Quotient;
    hide Remainder;
    hide ParseDecimal;
    hide IsDigits;
    var p := Power10(scale);
    if scale == 0 {
      var whole := Numeral(v);
      NothingIsDigits();
      NumeralIsShort(v);
      PlainParts(whole, whole, [], scale);
      NumeralRoundTrip(v);
      assert whole + [] == whole;
    } else {
      var q, r := Quotient(v, p), Remainder(v, p);
      var whole, frac := Numeral(q), Padded(r, scale);
      NumeralIsShort(q);
      PlainParts(whole + ['.'] + frac, whole, frac, scale);
      NumeralRoundTrip(q);
      PaddedValue(r, scale);
      NumeralOfJoined(whole, frac);
    }
  }

  lemma NothingIsDigits()
    ensures IsDigits([])
  {
  }

  /** Printing a non-negative amount at any supported scale and parsing it gives the amount back. */
  lemma PrintThenParse(v: nat, scale: nat)
    requires v <= I64_MAX && scale <= 12
    ensures DecimalFixed(PrintFixed(v, scale), scale) == Ok(v)
  {
    hide ParseDecimal;
    hide NumeralValue;
    hide PrintFixed;
    PrintedParts(v, scale);
  }

  function Zeros(n: nat): (z: string)
    ensures |z| == n
  {
    seq(n, i => '0')
  }

  lemma {:induction false} ZerosAreNothing(n: nat)
    ensures IsDigits(Zeros(n)) && NumeralValue(Zeros(n)) == 0
  {
    if n > 0 {
      ZerosAreNothing(n - 1);
      assert Zeros(n)[..n - 1] == Zeros(n - 1);
    }
  }

  /** Acceptance is not complete: zero written with thirty-nine decimals is refused as out of range. */
  lemma IntermediateOverflow()
    ensures var text := "0" + ['.'] + Zeros(39);
      && ParseDecimal(text, 0) == Ok(Decimal("0", Zeros(39), 0))
      && IsDigits(Zeros(39)) && Target(Decimal("0", Zeros(39), 0), 0) == 0.0
      && DecimalFixed(text, 0) == Err(DecimalRange)
  {
    hide Power10;
    hide TenTo;
    hide NumeralValue;
    hide ParseDecimal;
    var d := Decimal("0", Zeros(39), 0);
    ZerosAreNothing(39);
    ZeroIsNothing();
    PlainParts("0" + ['.'] + Zeros(39), "0", Zeros(39), 0);
    NumeralOfJoined("0", Zeros(39));
    TargetIsShifted(d, 0);
    assert Shift(d, 0) == -39 && Digits(d) == 0;
    LargestPower();
  }

  lemma ZeroIsNothing()
    ensures IsDigits("0") && NumeralValue("0") == 0
  {
    assert "0"[..0] == [];
  }

  // ---------------------------------------------------------------- cost buckets

  datatype Bucket = Bucket(start: int, end: int, amount: int)

  datatype CostFault = OverlappingBuckets | InvalidBucket | DuplicateBucket | SumRange

  predicate IsBucket(b: Bucket) {
    0 <= b.start < b.end && b.amount >= 0
  }

  predicate ByStart(a: Bucket, b: Bucket) {
    a.start <= b.start
  }

  predicate HasOverlap(ordered: seq<Bucket>) {
    exists i | 0 <= i < |ordered| - 1 :: ordered[i].end > ordered[i + 1].start
  }

  function Periods(rows: seq<Bucket>): set<(int, int)> {
    set r | r in rows :: (r.start, r.end)
  }

  /** Adds up the rows in the order given. */
  function Tally(rows: seq<Bucket>): Result<int, CostFault> {
    if rows == [] then Ok(0)
    else
      var front, r := rows[..|rows| - 1], rows[|rows| - 1];
      match Tally(front)
      case Err(f) => Err(f)
      case Ok(total) =>
        if r.start < 0 || r.end <= r.start || r.amount < 0 then Err(InvalidBucket)
        else if (r.start, r.end) in Periods(front) then Err(DuplicateBucket)
        else if total + r.amount > I64_MAX then Err(SumRange)
        else Ok(total + r.amount)
  }

  function Summary(rows: seq<Bucket>): Result<int, CostFault> {
    if HasOverlap(Sort(rows, ByStart)) then Err(OverlappingBuckets) else Tally(rows)
  }

  function Sum(rows: seq<Bucket>): int {
    if rows == [] then 0 else Sum(rows[..|rows| - 1]) + rows[|rows| - 1].amount
  }

  predicate Apart(a: Bucket, b: Bucket) {
    a.end <= b.start || b.end <= a.start
  }

  predicate AllBuckets(rows: seq<Bucket>) {
    forall r | r in rows :: IsBucket(r)
  }

  predicate PairwiseApart(rows: seq<Bucket>) {
    forall i, j | 0 <= i < j < |rows| :: Apart(rows[i], rows[j])
  }

  /** The same, without positions. */
  ghost predicate ApartAndSingle(rows: seq<Bucket>) {
    && (forall a, b | a in rows && b in rows && a != b :: Apart(a, b))
    && (forall a | a in rows :: multiset(rows)[a] == 1)
  }

  lemma PairsWithoutPositions(rows: seq<Bucket>)
    requires AllBuckets(rows)
    ensures PairwiseApart(rows) <==> ApartAndSingle(rows)
  {
    if PairwiseApart(rows) {
      forall a, b | a in rows && b in rows && a != b ensures Apart(a, b) {
        var i :| 0 <= i < |rows| && rows[i] == a;
        var j :| 0 <= j < |rows| && rows[j] == b;
        assert i < j || j < i;
      }
      forall a | a in rows ensures multiset(rows)[a] == 1 {
        if multiset(rows)[a] >= 2 {
          TwiceMeansTwo(rows, a);
        }
      }
    }
    if ApartAndSingle(rows) {
      forall i, j | 0 <= i < j < |rows| ensures Apart(rows[i], rows[j]) {
        if rows[i] == rows[j] {
          TwiceInSequence(rows, i, j);
        }
      }
    }
  }

  lemma ApartIsOrderFree(a: seq<Bucket>, b: seq<Bucket>)
    requires multiset(a) == multiset(b)
    ensures AllBuckets(a) <==> AllBuckets(b)
    ensures AllBuckets(a) ==> (PairwiseApart(a) <==> PairwiseApart(b))
  {
    hide PairwiseApart;
    hide Apart;
    PermutedMembers(a, b);
    if AllBuckets(a) {
      PairsWithoutPositions(a);
      PairsWithoutPositions(b);
    }
  }

  lemma SortedByStart(rows: seq<Bucket>)
    ensures multiset(Sort(rows, ByStart)) == multiset(rows)
    ensures var s := Sort(rows, ByStart); forall i, j | 0 <= i < j < |s| :: s[i].start <= s[j].start
  {
    hide Sort;
    hide IsSorted;
    assert IsTotalPreorder(ByStart);
    SortMeaning(rows, ByStart);
    var sorted := Sort(rows, ByStart);
    forall i, j | 0 <= i < j < |sorted| ensures sorted[i].start <= sorted[j].start {
      SortedAt(sorted, ByStart, i, j);
    }
  }

  /** In start order, checking neighbours is enough. */
  lemma NeighboursSuffice(ordered: seq<Bucket>)
    requires AllBuckets(ordered)
    requires forall i, j | 0 <= i < j < |ordered| :: ordered[i].start <= ordered[j].start
    ensures PairwiseApart(ordered) <==> !HasOverlap(ordered)
  {
    if !HasOverlap(ordered) {
      forall i, j | 0 <= i < j < |ordered| ensures Apart(ordered[i], ordered[j]) {
        assert ordered[i].end <= ordered[i + 1].start;
      }
    } else {
      var i :| 0 <= i < |ordered| - 1 && ordered[i].end > ordered[i + 1].start;
      assert ordered[i + 1] in ordered;
      assert !Apart(ordered[i], ordered[i + 1]);
    }
  }

  /** The neighbour check on valid rows decides whether any two of them overlap. */
  lemma OverlapIsDecided(rows: seq<Bucket>)
    requires AllBuckets(rows)
    ensures HasOverlap(Sort(rows, ByStart)) <==> !PairwiseApart(rows)
  {
    hide HasOverlap;
    hide PairwiseApart;
    hide AllBuckets;
    hide Sort;
    var sorted := Sort(rows, ByStart);
    SortedByStart(rows);
    ApartIsOrderFree(rows, sorted);
    NeighboursSuffice(sorted);
  }

  lemma {:induction false} TallyMeaning(rows: seq<Bucket>)
    ensures Tally(rows).Ok? ==> AllBuckets(rows) && Tally(rows).value == Sum(rows) <= I64_MAX
    ensures AllBuckets(rows) && PairwiseApart(rows) ==>
      Sum(rows) >= 0 && Tally(rows) == (if Sum(rows) <= I64_MAX then Ok(Sum(rows)) else Err(SumRange))
    ensures Tally(rows) == Err(DuplicateBucket) ==>
      exists i, j | 0 <= i < j < |rows| ::
        rows[i].start == rows[j].start && IsBucket(rows[i]) && IsBucket(rows[j])
  {
    if rows != [] {
      var front, r := rows[..|rows| - 1], rows[|rows| - 1];
      assert rows == front + [r];
      TallyMeaning(front);
      if AllBuckets(rows) && PairwiseApart(rows) {
        assert AllBuckets(front) && PairwiseApart(front);
        assert IsBucket(r);
        forall q | q in front ensures (q.start, q.end) != (r.start, r.end) {
          var i :| 0 <= i < |front| && front[i] == q;
          assert Apart(rows[i], rows[|front|]);
        }
      }
      if Tally(rows) == Err(DuplicateBucket) {
        DuplicateIsBehind(rows);
      }
    }
  }

  lemma DuplicateIsBehind(rows: seq<Bucket>)
    requires rows != [] && Tally(rows) == Err(DuplicateBucket)
    requires var front := rows[..|rows| - 1];
      && (Tally(front).Ok? ==> AllBuckets(front))
      && (Tally(front) == Err(DuplicateBucket) ==>
            exists i, j | 0 <= i < j < |front| ::
              front[i].start == front[j].start && IsBucket(front[i]) && IsBucket(front[j]))
    ensures exists i, j | 0 <= i < j < |rows| ::
      rows[i].start == rows[j].start && IsBucket(rows[i]) && IsBucket(rows[j])
  {
    var front, r := rows[..|rows| - 1], rows[|rows| - 1];
    if Tally(front).Ok? {
      var q :| q in front && (q.start, q.end) == (r.start, r.end);
      var i :| 0 <= i < |front| && front[i] == q;
      assert rows[i].start == rows[|front|].start && IsBucket(rows[i]) && IsBucket(rows[|front|]);
    } else {
      var i, j :| 0 <= i < j < |front| && front[i].start == front[j].start && IsBucket(front[i]) && IsBucket(front[j]);
      assert rows[i].start == rows[j].start && IsBucket(rows[i]) && IsBucket(rows[j]);
    }
  }

  /**
   * A summary succeeds exactly when all rows are valid, no two of them overlap, neighbours in time or
   * not, and the sum fits; then it is the exact sum.
   */
  lemma SummaryMeaning(rows: seq<Bucket>)
    ensures Summary(rows).Ok? <==> AllBuckets(rows) && PairwiseApart(rows) && Sum(rows) <= 0x7FFF_FFFF_FFFF_FFFF
    ensures Summary(rows).Ok? ==> Summary(rows).value == Sum(rows)
  {
    hide Sort;
    hide HasOverlap;
    hide AllBuckets;
    hide PairwiseApart;
    hide Tally;
    TallyMeaning(rows);
    if AllBuckets(rows) {
      OverlapIsDecided(rows);
    }
  }

  /** Two valid rows with one start overlap, so no duplicate gets past the overlap check. */
  lemma DuplicatesAreUnreachable(rows: seq<Bucket>)
    ensures Summary(rows) != Err(DuplicateBucket)
  {
    hide Tally;
    hide Sort;
    hide HasOverlap;
    if Summary(rows) == Err(DuplicateBucket) {
      TallyMeaning(rows);
      var i, j :| 0 <= i < j < |rows| && rows[i].start == rows[j].start && IsBucket(rows[i]) && IsBucket(rows[j]);
      SharedStartOverlaps(rows, i, j);
    }
  }

  lemma SharedStartOverlaps(rows: seq<Bucket>, i: nat, j: nat)
    requires i < j < |rows| && rows[i].start == rows[j].start && IsBucket(rows[i]) && IsBucket(rows[j])
    ensures HasOverlap(Sort(rows, ByStart))
  {
    hide Sort;
    var sorted := Sort(rows, ByStart);
    SortedByStart(rows);
    PermutedMembers(rows, sorted);
    var p, q := TwoPlaces(rows, sorted, i, j);
    assert sorted[p].start <= sorted[p + 1].start <= sorted[q].start;
    assert sorted[p].end > sorted[p + 1].start;
  }

  lemma {:induction false} SumAppend(a: seq<Bucket>, b: seq<Bucket>)
    ensures Sum(a + b) == Sum(a) + Sum(b)
  {
    if b == [] {
      assert a + b == a;
    } else {
      SumAppend(a, b[..|b| - 1]);
      assert (a + b)[..|a + b| - 1] == a + b[..|b| - 1];
    }
  }

  lemma {:induction false} SumIsOrderFree(a: seq<Bucket>, b: seq<Bucket>)
    requires multiset(a) == multiset(b)
    ensures Sum(a) == Sum(b)
    decreases |a|
  {
    PermutedMembers(a, b);
    if a != [] {
      var l, r := WithoutLast(a, b);
      var last := a[|a| - 1];
      SumIsOrderFree(a[..|a| - 1], l + r);
      SumAppend(l, r);
      SumAppend(l + [last], r);
      SumAppend(l, [last]);
      assert [last][..0] == [];
    }
  }

  /** Rows may come in any order: the same rows succeed with the same total. */
  lemma SummaryIsOrderFree(a: seq<Bucket>, b: seq<Bucket>)
    requires multiset(a) == multiset(b)
    ensures Summary(a).Ok? <==> Summary(b).Ok?
    ensures Summary(a).Ok? ==> Summary(a) == Summary(b)
  {
    hide Summary;
    hide AllBuckets;
    hide PairwiseApart;
    SummaryMeaning(a);
    SummaryMeaning(b);
    SumIsOrderFree(a, b);
    ApartIsOrderFree(a, b);
  }

  // ---------------------------------------------------------------- the loops

  lemma {:induction false} TallyStops(rows: seq<Bucket>, i: nat)
    requires i <= |rows|
    ensures Tally(rows[..i]).Err? ==> Tally(rows) == Tally(rows[..i])
    decreases |rows|
  {
    if i == |rows| {
      assert rows[..i] == rows;
    } else {
      assert rows[..|rows| - 1][..i] == rows[..i];
      TallyStops(rows[..|rows| - 1], i);
    }
  }

  method CheckNeighbours(ordered: seq<Bucket>) returns (overlap: bool)
    ensures overlap <==> HasOverlap(ordered)
  {
    var i := 0;
    while i + 1 < |ordered|
      invariant i == 0 || 0 < i < |ordered|
      invariant forall k | 0 <= k < i :: ordered[k].end <= ordered[k + 1].start
    {
      if ordered[i].end > ordered[i + 1].start {
        return true;
      }
      i := i + 1;
    }
    return false;
  }

  method CostSummary(rows: seq<Bucket>) returns (r: Result<int, CostFault>)
    ensures r == Summary(rows)
  {
    hide Sort;
    hide HasOverlap;
    hide Periods;
    NoPeriods();
    var overlap := CheckNeighbours(Sort(rows, ByStart));
    if overlap {
      return Err(OverlappingBuckets);
    }
    var total := 0;
    var seen: set<(int, int)> := {};
    var i := 0;
    assert rows[..0] == [];
    while i < |rows|
      invariant 0 <= i <= |rows|
      invariant Tally(rows[..i]) == Ok(total) && seen == Periods(rows[..i])
    {
      var row := rows[i];
      assert rows[..i + 1][..i] == rows[..i];
      PeriodsGrow(rows[..i], row);
      assert rows[..i + 1] == rows[..i] + [row];
      TallyStops(rows, i + 1);
      if row.start < 0 || row.end <= row.start || row.amount < 0 {
        return Err(InvalidBucket);
      }
      if (row.start, row.end) in seen {
        return Err(DuplicateBucket);
      }
      seen := seen + {(row.start, row.end)};
      if total + row.amount > I64_MAX {
        return Err(SumRange);
      }
      total := total + row.amount;
      i := i + 1;
    }
    assert rows[..i] == rows;
    return Ok(total);
  }

  lemma NoPeriods()
    ensures Periods([]) == {}
  {
  }

  lemma PeriodsGrow(rows: seq<Bucket>, r: Bucket)
    ensures Periods(rows + [r]) == Periods(rows) + {(r.start, r.end)}
  {
    forall q | q in rows ensures q in rows + [r] {
    }
    assert r in rows + [r];
  }
}
