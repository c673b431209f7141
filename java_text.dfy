/**
 * The Java library text conversions the relay relies on: the decimal text
 * of an integer and java.lang.Long.decode, over ASCII digits.
 */
module JavaText {
  import opened Wrappers

  const MinLong: int := -0x8000_0000_0000_0000
  const MaxLong: int := 0x7FFF_FFFF_FFFF_FFFF

  predicate IsRadix(radix: int) { 2 <= radix <= 36 }

  /** Character.digit over ASCII: the value of c as a digit in the radix, if it is one. */
  function DigitValue(c: char, radix: int): (d: Option<nat>)
    requires IsRadix(radix)
    ensures d.Some? ==> d.value < radix
  {
    var v :=
      if '0' <= c <= '9' then c as int - '0' as int
      else if 'a' <= c <= 'z' then c as int - 'a' as int + 10
      else if 'A' <= c <= 'Z' then c as int - 'A' as int + 10
      else radix;
    if v < radix then Some(v) else None
  }

  /** Character.forDigit: the lower-case digit character for d. */
  function DigitChar(d: nat): char
    requires d < 36
  {
    if d < 10 then ('0' as int + d) as char else ('a' as int + d - 10) as char
  }

  predicate AllDigits(s: string, radix: int)
    requires IsRadix(radix)
  {
    forall k :: 0 <= k < |s| ==> DigitValue(s[k], radix).Some?
  }

  /** The value of a string of digits, most significant first. */
  function DigitsValue(s: string, radix: int): nat
    requires IsRadix(radix) && AllDigits(s, radix)
    decreases |s|
  {
    if s == [] then 0
    else DigitsValue(s[..|s| - 1], radix) * radix + DigitValue(s[|s| - 1], radix).value
  }

  /** Long.toString(n, radix) for n >= 0: the digits without leading zeros. */
  function Digits(n: nat, radix: int): (s: string)
    requires IsRadix(radix)
    ensures |s| >= 1
    decreases n
  {
    if n < radix then [DigitChar(n)]
    else
      DivMod(n, radix);
      Digits(n / radix, radix) + [DigitChar(n % radix)]
  }

  /** String.valueOf(n): the decimal text of an integer. */
  function DecimalString(n: int): string {
    if n < 0 then "-" + Digits(-n, 10) else Digits(n, 10)
  }

  /** s.startsWith(prefix, at). */
  predicate HasPrefixAt(s: string, at: nat, prefix: string) {
    at + |prefix| <= |s| && s[at..at + |prefix|] == prefix
  }

  /** Where Long.decode finds the sign, the radix and the first digit of s. */
  datatype Layout = Layout(negative: bool, radix: int, start: nat)

  /**
   * An optional sign, then "0x", "0X" or "#" for hexadecimal, a leading "0"
   * followed by more text for octal, else decimal.
   */
  function LayoutOf(s: string): (l: Layout)
    requires s != []
    ensures IsRadix(l.radix) && l.start <= |s|
    ensures l.radix == 8 || l.radix == 10 || l.radix == 16
    ensures l.negative <==> s[0] == '-'
  {
    var index := if s[0] == '-' || s[0] == '+' then 1 else 0;
    if HasPrefixAt(s, index, "0x") || HasPrefixAt(s, index, "0X") then Layout(s[0] == '-', 16, index + 2)
    else if HasPrefixAt(s, index, "#") then Layout(s[0] == '-', 16, index + 1)
    else if HasPrefixAt(s, index, "0") && |s| > index + 1 then Layout(s[0] == '-', 8, index + 1)
    else Layout(s[0] == '-', 10, index)
  }

  /**
   * Long.valueOf(digits, radix) on the text after the prefix: a sign there,
   * an empty string or a non-digit is rejected.
   */
  function ParseUnsigned(digits: string, radix: int): Option<nat>
    requires IsRadix(radix)
  {
    if HasPrefixAt(digits, 0, "-") || HasPrefixAt(digits, 0, "+") then None
    else if digits == [] || !AllDigits(digits, radix) then None
    else Some(DigitsValue(digits, radix))
  }

  /** The signed value, when it fits in a long (the magnitude of Long.MIN_VALUE only with a minus sign). */
  function SignedLong(negative: bool, magnitude: nat): Option<int> {
    if negative then (if magnitude <= MaxLong + 1 then Some(0 - magnitude) else None)
    else (if magnitude <= MaxLong then Some(magnitude) else None)
  }

  /**
   * java.lang.Long.decode; every case in which it throws
   * NumberFormatException gives None.
   */
  function LongDecode(s: string): (r: Option<int>)
    ensures r.Some? ==> MinLong <= r.value <= MaxLong
  {
    if s == [] then None
    else
      var layout := LayoutOf(s);
      match ParseUnsigned(s[layout.start..], layout.radix)
      case None => None
      case Some(magnitude) => SignedLong(layout.negative, magnitude)
  }

  /** Digits followed by one more digit. */
  lemma DigitsValueSnoc(s: string, c: char, radix: int)
    requires IsRadix(radix) && AllDigits(s, radix) && DigitValue(c, radix).Some?
    ensures AllDigits(s + [c], radix)
    ensures DigitsValue(s + [c], radix) == DigitsValue(s, radix) * radix + DigitValue(c, radix).value
  {
    assert (s + [c])[..|s|] == s;
  }

  lemma DigitCharValue(d: nat, radix: int)
    requires IsRadix(radix) && d < radix
    ensures DigitValue(DigitChar(d), radix) == Some(d)
    ensures DigitChar(d) != '-' && DigitChar(d) != '+' && DigitChar(d) != '#'
    ensures DigitChar(d) == '0' <==> d == 0
  {
  }

  /** Reading back the digits of n gives n: Long.toString and Long.parseLong are inverse. */
  lemma {:induction false} DigitsRoundTrip(n: nat, radix: int)
    requires IsRadix(radix)
    ensures AllDigits(Digits(n, radix), radix)
    ensures DigitsValue(Digits(n, radix), radix) == n
    ensures Digits(n, radix)[0] == '0' ==> n == 0 && |Digits(n, radix)| == 1
    ensures Digits(n, radix)[0] != '-' && Digits(n, radix)[0] != '+' && Digits(n, radix)[0] != '#'
    decreases n
  {
    if n < radix {
      DigitCharValue(n, radix);
      assert Digits(n, radix) == [DigitChar(n)];
      DigitsValueSnoc([], DigitChar(n), radix);
      assert [] + [DigitChar(n)] == [DigitChar(n)];
    } else {
      var q, d := n / radix, n % radix;
      DivMod(n, radix);
      DigitsRoundTrip(q, radix);
      DigitCharValue(d, radix);
      var prefix := Digits(q, radix);
      assert Digits(n, radix) == prefix + [DigitChar(d)];
      DigitsValueSnoc(prefix, DigitChar(d), radix);
      assert Digits(n, radix)[0] == prefix[0];
    }
  }

  lemma DivMod(n: nat, radix: int)
    requires IsRadix(radix) && n >= radix
    ensures 1 <= n / radix < n && 0 <= n % radix < radix
    ensures (n / radix) * radix + n % radix == n
  {
  }

  /** The digits of n, read as an unsigned number in the same radix, give n back. */
  lemma ParseDigits(n: nat, radix: int)
    requires IsRadix(radix)
    ensures ParseUnsigned(Digits(n, radix), radix) == Some(n)
  {
    DigitsRoundTrip(n, radix);
  }

  /**
   * Long.decode reads back the decimal text of every long, and rejects the
   * decimal text of every integer outside the long range.
   */
  lemma DecodeDecimal(n: int)
    ensures LongDecode(DecimalString(n)) == if MinLong <= n <= MaxLong then Some(n) else None
  {
    var m: nat := if n < 0 then -n else n;
    var index := if n < 0 then 1 else 0;
    DecimalLayout(n);
    ParseDigits(m, 10);
    assert LongDecode(DecimalString(n)) == SignedLong(n < 0, m);
  }

  /** The decimal text of n is a sign for negative n, then the digits of |n|, and Long.decode reads it as decimal. */
  lemma DecimalLayout(n: int)
    ensures var index := if n < 0 then 1 else 0;
      var s := DecimalString(n);
      s != [] && LayoutOf(s) == Layout(n < 0, 10, index) &&
      s[index..] == Digits(if n < 0 then -n else n, 10)
  {
    var s := DecimalString(n);
    var m: nat := if n < 0 then -n else n;
    var index := if n < 0 then 1 else 0;
    var d := Digits(m, 10);
    DigitsRoundTrip(m, 10);
    assert s[index..] == d && |s| == index + |d|;
    assert s[index] == d[0];
    PrefixHead(s, index, "0x");
    PrefixHead(s, index, "0X");
    PrefixHead(s, index, "#");
    PrefixHead(s, index, "0");
  }

  /** A prefix found at a position puts its first character there. */
  lemma PrefixHead(s: string, at: nat, prefix: string)
    requires prefix != []
    ensures HasPrefixAt(s, at, prefix) ==> at < |s| && s[at] == prefix[0]
  {
    if HasPrefixAt(s, at, prefix) {
      assert s[at..at + |prefix|][0] == prefix[0];
    }
  }

  /** The unsigned parse of any digit text is the number the digits spell. */
  lemma ParseDigitText(d: string, radix: int)
    requires IsRadix(radix) && d != [] && AllDigits(d, radix)
    ensures ParseUnsigned(d, radix) == Some(DigitsValue(d, radix))
  {
    assert DigitValue(d[0], radix).Some?;
    assert DigitValue('-', radix) == None && DigitValue('+', radix) == None;
    assert d[0..1] == [d[0]];
  }

  /** radix to the power e. */
  function Power(radix: nat, e: nat): nat {
    if e == 0 then 1 else radix * Power(radix, e - 1)
  }

  /** A text of k digits spells a number below radix^k. */
  lemma {:induction false} DigitsValueBound(s: string, radix: int)
    requires IsRadix(radix) && AllDigits(s, radix)
    ensures DigitsValue(s, radix) < Power(radix, |s|)
    decreases |s|
  {
    if s != [] {
      var front := s[..|s| - 1];
      assert AllDigits(front, radix);
      DigitsValueBound(front, radix);
      var high := DigitsValue(front, radix);
      var low := DigitValue(s[|s| - 1], radix).value;
      var bound := Power(radix, |front|);
      assert DigitsValue(s, radix) == high * radix + low;
      assert Power(radix, |s|) == radix * bound;
      NextDigitBound(high, low, bound, radix);
    }
  }

  /** One more digit below the radix keeps the number below the next power. */
  lemma NextDigitBound(high: nat, low: nat, bound: nat, radix: nat)
    requires high < bound && low < radix
    ensures high * radix + low < radix * bound
  {
    MulMono(high + 1, bound, radix);
    assert (high + 1) * radix == high * radix + radix;
  }

  lemma MulMono(a: nat, b: nat, c: nat)
    requires a <= b
    ensures a * c <= b * c
  {
  }

  lemma {:induction false} PowerMono(radix: nat, e1: nat, e2: nat)
    requires 1 <= radix && e1 <= e2
    ensures Power(radix, e1) <= Power(radix, e2)
    decreases e2
  {
    if e1 < e2 {
      PowerMono(radix, e1, e2 - 1);
      MulMono(1, radix, Power(radix, e2 - 1));
    }
  }

  /**
   * A colour written "#" and one to fifteen hex digits, in either case and
   * with leading zeros allowed, decodes to the number the digits spell.
   */
  lemma DecodeHashHex(d: string)
    requires 1 <= |d| <= 15 && AllDigits(d, 16)
    ensures LongDecode("#" + d) == Some(DigitsValue(d, 16))
  {
    FifteenHexDigitsFit(d);
    DecodePrefixedText("", "#", 16, d);
    assert "" + "#" + d == "#" + d;
  }

  /** At most fifteen hex digits spell a number below 2^60, which fits in a long. */
  lemma FifteenHexDigitsFit(d: string)
    requires |d| <= 15 && AllDigits(d, 16)
    ensures DigitsValue(d, 16) <= MaxLong
  {
    DigitsValueBound(d, 16);
    PowerMono(16, |d|, 15);
    SixteenToFifteen();
  }

  lemma SixteenToFifteen()
    ensures Power(16, 15) == 0x1000_0000_0000_0000
  {
    assert Power(16, 3) == 0x1000;
    assert Power(16, 6) == 0x100_0000;
    assert Power(16, 9) == 0x10_0000_0000;
    assert Power(16, 12) == 0x1_0000_0000_0000;
  }

  /** The radix prefixes Long.decode reads after the sign. */
  predicate RadixPrefix(prefix: string, radix: int) {
    ((prefix == "0x" || prefix == "0X" || prefix == "#") && radix == 16) || (prefix == "0" && radix == 8)
  }

  /** The signs Long.decode accepts: none, '-' or '+'. */
  predicate SignText(sign: string) {
    sign == "" || sign == "-" || sign == "+"
  }

  /** A sign, a radix prefix and digits are read with that radix, from right after the prefix. */
  lemma PrefixedLayout(sign: string, prefix: string, radix: int, d: string)
    requires SignText(sign) && RadixPrefix(prefix, radix) && d != [] && AllDigits(d, radix)
    ensures var s := sign + prefix + d;
      s != [] && LayoutOf(s) == Layout(sign == "-", radix, |sign| + |prefix|) &&
      s[|sign| + |prefix|..] == d
  {
    var s := sign + prefix + d;
    assert s[|sign| + |prefix|..] == d;
    if prefix == "0x" || prefix == "0X" {
      HexLayout(sign, prefix, d);
    } else if prefix == "#" {
      HashLayout(sign, d);
    } else {
      assert DigitValue(d[0], 8).Some?;
      OctalLayout(sign, d);
    }
  }

  lemma HexLayout(sign: string, prefix: string, d: string)
    requires SignText(sign)
    requires prefix == "0x" || prefix == "0X"
    ensures LayoutOf(sign + prefix + d) == Layout(sign == "-", 16, |sign| + 2)
  {
    var s := sign + prefix + d;
    assert s[0] == '-' <==> sign == "-";
    assert s[0] == '-' || s[0] == '+' <==> sign != "";
    assert s[|sign|..|sign| + 2] == prefix;
  }

  lemma HashLayout(sign: string, d: string)
    requires SignText(sign)
    ensures LayoutOf(sign + "#" + d) == Layout(sign == "-", 16, |sign| + 1)
  {
    var s := sign + "#" + d;
    var index := |sign|;
    assert s[0] == '-' <==> sign == "-";
    assert s[0] == '-' || s[0] == '+' <==> sign != "";
    assert s[index..index + 1] == "#";
    assert s[index] == '#';
    PrefixHead(s, index, "0x");
    PrefixHead(s, index, "0X");
    assert HasPrefixAt(s, index, "#");
  }

  lemma OctalLayout(sign: string, d: string)
    requires SignText(sign)
    requires d != [] && DigitValue(d[0], 8).Some?
    ensures LayoutOf(sign + "0" + d) == Layout(sign == "-", 8, |sign| + 1)
  {
    var s := sign + "0" + d;
    var index := |sign|;
    assert s[0] == '-' <==> sign == "-";
    assert s[0] == '-' || s[0] == '+' <==> sign != "";
    assert s[index] == '0' && s[index + 1] == d[0];
    assert s[index..index + 1] == "0";
    assert d[0] != 'x' && d[0] != 'X';
    assert s[index..index + 2] == ['0', d[0]];
  }

  /**
   * Hexadecimal ("0x", "0X", "#") and octal ("0") text, after no sign, '-'
   * or '+', with digits of either case and leading zeros allowed, decodes
   * to the signed value of its digits when that fits in a long.
   */
  lemma DecodePrefixedText(sign: string, prefix: string, radix: int, d: string)
    requires SignText(sign) && RadixPrefix(prefix, radix) && d != [] && AllDigits(d, radix)
    ensures LongDecode(sign + prefix + d) == SignedLong(sign == "-", DigitsValue(d, radix))
  {
    PrefixedLayout(sign, prefix, radix, d);
    ParseDigitText(d, radix);
  }

  /**
   * Long.toString's digits of n behind a hexadecimal or octal prefix, with or
   * without a minus sign, decode to the value exactly when it fits in a long.
   */
  lemma DecodePrefixed(negative: bool, prefix: string, radix: int, n: nat)
    requires RadixPrefix(prefix, radix)
    ensures LongDecode((if negative then "-" else "") + prefix + Digits(n, radix)) ==
      var magnitude: int := n;
      if n <= (if negative then -MinLong else MaxLong) then Some(if negative then -magnitude else magnitude) else None
  {
    DigitsRoundTrip(n, radix);
    DecodePrefixedText(if negative then "-" else "", prefix, radix, Digits(n, radix));
  }

  /** Slack's documented example colour. */
  lemma SlackExampleColour()
    ensures LongDecode("#439FE0") == Some(0x439FE0)
  {
    var d1 := "4";
    assert DigitsValue(d1, 16) == 4 by {
      assert d1[..0] == [];
    }
    DigitsValueSnoc(d1, '3', 16);
    var d2 := d1 + ['3'];
    DigitsValueSnoc(d2, '9', 16);
    var d3 := d2 + ['9'];
    DigitsValueSnoc(d3, 'F', 16);
    var d4 := d3 + ['F'];
    DigitsValueSnoc(d4, 'E', 16);
    var d5 := d4 + ['E'];
    DigitsValueSnoc(d5, '0', 16);
    var d := d5 + ['0'];
    assert DigitsValue(d, 16) == 0x439FE0;
    DecodeHashHex(d);
    assert "#" + d == "#439FE0";
  }
}
