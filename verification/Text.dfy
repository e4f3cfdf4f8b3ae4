/** The string operations the parsers are built from. */
module Text {
  import opened Prelude
  import opened Control

  predicate IsAscii(s: string) {
    forall c | c in s :: c <= '\U{7f}'
  }

  /** The bytes of an ASCII string. */
  function AsciiBytes(s: string): (b: Bytes)
    requires IsAscii(s)
    ensures |b| == |s|
  {
    seq(|s|, i requires 0 <= i < |s| =>
      assert s[i] in s;
      s[i] as int as byte)
  }

  function TrimStart(s: string): string {
    if s != [] && IsWhitespace(s[0]) then TrimStart(s[1..]) else s
  }

  function TrimEnd(s: string): string {
    if s != [] && IsWhitespace(s[|s| - 1]) then TrimEnd(s[..|s| - 1]) else s
  }

  function Trim(s: string): string {
    TrimEnd(TrimStart(s))
  }

  /** Splits at the first separator. */
  function SplitOnce(s: string, separator: char): Option<(string, string)> {
    if s == [] then None
    else if s[0] == separator then Some(([], s[1..]))
    else
      match SplitOnce(s[1..], separator)
      case None => None
      case Some((before, after)) => Some(([s[0]] + before, after))
  }

  lemma {:induction false} SplitOnceMeaning(before: string, separator: char, after: string)
    requires separator !in before
    ensures SplitOnce(before + [separator] + after, separator) == Some((before, after))
  {
    var s := before + [separator] + after;
    if before == [] {
      assert s[1..] == after;
    } else {
      SplitOnceMeaning(before[1..], separator, after);
      assert s[1..] == before[1..] + [separator] + after;
      assert [before[0]] + before[1..] == before;
    }
  }

  /** The parts of a split join to the whole, and the separator does not occur before the split. */
  lemma {:induction false} SplitOnceParts(s: string, separator: char)
    ensures match SplitOnce(s, separator)
            case None => separator !in s
            case Some((before, after)) => s == before + [separator] + after && separator !in before
  {
    if s != [] && s[0] != separator {
      SplitOnceParts(s[1..], separator);
      assert s == [s[0]] + s[1..];
    }
  }

  /** Splits at the last separator. */
  function RSplitOnce(s: string, separator: char): Option<(string, string)> {
    if s == [] then None
    else if s[|s| - 1] == separator then Some((s[..|s| - 1], []))
    else
      match RSplitOnce(s[..|s| - 1], separator)
      case None => None
      case Some((before, after)) => Some((before, after + [s[|s| - 1]]))
  }

  lemma {:induction false} RSplitOnceMeaning(before: string, separator: char, after: string)
    requires separator !in after
    ensures RSplitOnce(before + [separator] + after, separator) == Some((before, after))
  {
    var s := before + [separator] + after;
    if after == [] {
      assert s[..|s| - 1] == before;
    } else {
      var front := after[..|after| - 1];
      RSplitOnceMeaning(before, separator, front);
      assert s[..|s| - 1] == before + [separator] + front;
      assert front + [after[|after| - 1]] == after;
    }
  }

  // ---------------------------------------------------------------- decimal numerals

  predicate IsDigits(s: string) {
    forall c | c in s :: IsDigit(c)
  }

  function DigitValue(c: char): (v: nat)
    requires IsDigit(c)
    ensures v < 10
  {
    c as int - '0' as int
  }

  /** The number a string of digits denotes; leading zeros are allowed. */
  function NumeralValue(s: string): nat
    requires IsDigits(s)
  {
    if s == [] then 0 else NumeralValue(s[..|s| - 1]) * 10 + DigitValue(s[|s| - 1])
  }

  function Digit(v: nat): (c: char)
    requires v < 10
    ensures IsDigit(c) && DigitValue(c) == v
  {
    (v + '0' as int) as char
  }

  /** The usual decimal numeral, without leading zeros. */
  function Numeral(n: nat): (s: string)
    ensures IsDigits(s) && s != []
  {
    if n < 10 then [Digit(n)] else Numeral(n / 10) + [Digit(n % 10)]
  }

  /** Reading a printed numeral gives the number back. */
  lemma {:induction false} NumeralRoundTrip(n: nat)
    ensures NumeralValue(Numeral(n)) == n
  {
    if n >= 10 {
      NumeralRoundTrip(n / 10);
      var s := Numeral(n);
      assert s[..|s| - 1] == Numeral(n / 10);
    } else {
      assert [Digit(n)][..0] == [];
    }
  }

  lemma {:induction false} NumeralLength(n: nat, limit: nat)
    requires limit > 0 && n < Power10(limit)
    ensures |Numeral(n)| <= limit
  {
    if n >= 10 {
      NumeralLength(n / 10, limit - 1);
    }
  }

  function Power10(k: nat): (p: nat)
    ensures p >= 1
  {
    if k == 0 then 1 else 10 * Power10(k - 1)
  }

  /** A numeral behind an optional sign. */
  predicate IsSignedNumeral(s: string) {
    Unsigned(s) != [] && IsDigits(Unsigned(s))
  }

  function Unsigned(s: string): string {
    if s != [] && (s[0] == '+' || s[0] == '-') then s[1..] else s
  }

  function SignedValue(s: string): int
    requires IsSignedNumeral(s)
  {
    var magnitude: int := NumeralValue(Unsigned(s));
    if s[0] == '-' then -magnitude else magnitude
  }

  /** Reads a signed 64-bit numeral: an optional sign and at least one digit. */
  function ParseI64(s: string): Option<int> {
    if IsSignedNumeral(s) && I64_MIN <= SignedValue(s) <= I64_MAX then Some(SignedValue(s)) else None
  }

  lemma ParsesNumeral(n: nat)
    requires n <= I64_MAX
    ensures ParseI64(Numeral(n)) == Some(n)
  {
    NumeralRoundTrip(n);
    assert IsDigit(Numeral(n)[0]);
  }
}
