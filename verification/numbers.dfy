/** JavaScript's `parseInt` with no radix argument and the decimal `String(n)`
    of a whole number: what the salary cell does to whatever the salary field
    holds before it decides whether to render anything. */
module Numbers {
  import opened Values
  import Strings

  /** The value of `c` as a digit in base `radix` (10 or 16), or -1. */
  function DigitValue(c: char, radix: nat): (d: int)
    requires radix == 10 || radix == 16
    ensures -1 <= d < radix
  {
    if '0' <= c <= '9' then c as int - '0' as int
    else if radix == 16 && 'a' <= c <= 'f' then c as int - 'a' as int + 10
    else if radix == 16 && 'A' <= c <= 'F' then c as int - 'A' as int + 10
    else -1
  }

  predicate IsDigit(c: char, radix: nat)
    requires radix == 10 || radix == 16
  {
    DigitValue(c, radix) >= 0
  }

  /** The length of the longest prefix of `s` made of base-`radix` digits. */
  function DigitPrefix(s: string, radix: nat): (k: nat)
    requires radix == 10 || radix == 16
    ensures k <= |s|
    ensures forall i :: 0 <= i < k ==> IsDigit(s[i], radix)
    ensures k < |s| ==> !IsDigit(s[k], radix)
  {
    if |s| > 0 && IsDigit(s[0], radix) then 1 + DigitPrefix(s[1..], radix) else 0
  }

  /** The number a string of base-`radix` digits denotes, most significant first. */
  function DigitsValue(s: string, radix: nat): (n: nat)
    requires radix == 10 || radix == 16
    requires forall i :: 0 <= i < |s| ==> IsDigit(s[i], radix)
  {
    if s == [] then 0
    else
      assert IsDigit(s[|s| - 1], radix);
      DigitsValue(s[..|s| - 1], radix) * radix + DigitValue(s[|s| - 1], radix)
  }

  /** The magnitude `parseInt` reads after the sign: a `0x`/`0X` prefix
      switches to base 16, and the longest run of digits that follows is the
      number; no digit at all is `NaN` (`None`). */
  function ParseMagnitude(u: string): (r: Option<nat>)
  {
    var hex := |u| >= 2 && u[0] == '0' && (u[1] == 'x' || u[1] == 'X');
    var radix := if hex then 16 else 10;
    var digits := if hex then u[2..] else u;
    var k := DigitPrefix(digits, radix);
    if k == 0 then None else Some(DigitsValue(digits[..k], radix))
  }

  /** `parseInt(s)` with no radix, `None` standing for `NaN`: leading
      whitespace is skipped and one `-` or `+` is read before the magnitude
      (section 19.2.5 of ECMA-262). */
  function ParseInt(s: string): (r: Option<int>)
  {
    var t := s[Strings.LeadingWhitespace(s)..];
    if |t| > 0 && t[0] == '-' then
      match ParseMagnitude(t[1..])
      case None => None
      case Some(m) => Some(-(m as int))
    else if |t| > 0 && t[0] == '+' then
      match ParseMagnitude(t[1..])
      case None => None
      case Some(m) => Some(m)
    else
      match ParseMagnitude(t)
      case None => None
      case Some(m) => Some(m)
  }

  function DigitChar(d: nat): (c: char)
    requires d < 10
    ensures DigitValue(c, 10) == d
  {
    ('0' as int + d) as char
  }

  /** The decimal numeral of `n`, without leading zeros. */
  function NatToString(n: nat): (s: string)
    ensures |s| > 0
    ensures forall i :: 0 <= i < |s| ==> IsDigit(s[i], 10)
    ensures s[0] == '0' ==> n == 0 && |s| == 1
  {
    if n < 10 then [DigitChar(n)] else NatToString(n / 10) + [DigitChar(n % 10)]
  }

  /** `String(n)` for a whole number `n`. */
  function IntToString(n: int): (s: string)
    ensures |s| > 0
    ensures n >= 0 ==> s == NatToString(n)
    ensures n < 0 ==> s == "-" + NatToString(-n)
  {
    if n < 0 then "-" + NatToString(-n) else NatToString(n)
  }

  lemma {:induction false} DigitsValueOfNatToString(n: nat)
    ensures DigitsValue(NatToString(n), 10) == n
  {
    if n >= 10 {
      var s := NatToString(n / 10);
      DigitsValueOfNatToString(n / 10);
      assert (s + [DigitChar(n % 10)])[..|s|] == s;
    }
  }

  lemma MagnitudeOfNatToString(m: nat)
    ensures ParseMagnitude(NatToString(m)) == Some(m)
  {
    var d := NatToString(m);
    DigitsValueOfNatToString(m);
    DigitPrefixAll(d, 10);
    assert d[..|d|] == d;
  }

  /** `parseInt(String(n)) === n` for every whole number `n`. */
  lemma ParseIntOfIntToString(n: int)
    ensures ParseInt(IntToString(n)) == Some(n)
  {
    if n < 0 {
      ParseIntOfNegative(-n);
    } else {
      ParseIntOfNatToString(n);
    }
  }

  /** A string that starts with a digit or a sign has no leading whitespace. */
  lemma NoLeadingWhitespace(s: string)
    requires |s| > 0 && (IsDigit(s[0], 10) || s[0] == '-')
    ensures Strings.LeadingWhitespace(s) == 0
  {
  }

  lemma ParseIntOfNatToString(m: nat)
    ensures ParseInt(NatToString(m)) == Some(m)
  {
    var s := NatToString(m);
    NoLeadingWhitespace(s);
    assert s[0..] == s;
    MagnitudeOfNatToString(m);
  }

  lemma ParseIntOfNegative(m: nat)
    requires m > 0
    ensures ParseInt("-" + NatToString(m)) == Some(-(m as int))
  {
    var s := "-" + NatToString(m);
    NoLeadingWhitespace(s);
    assert s[0..] == s;
    assert s[1..] == NatToString(m);
    MagnitudeOfNatToString(m);
  }

  lemma {:induction false} DigitPrefixAll(s: string, radix: nat)
    requires radix == 10 || radix == 16
    requires forall i :: 0 <= i < |s| ==> IsDigit(s[i], radix)
    ensures DigitPrefix(s, radix) == |s|
  {
    if |s| > 0 {
      DigitPrefixAll(s[1..], radix);
    }
  }

  lemma {:induction false} DigitPrefixStops(d: string, t: string, radix: nat)
    requires radix == 10 || radix == 16
    requires forall i :: 0 <= i < |d| ==> IsDigit(d[i], radix)
    requires t == [] || !IsDigit(t[0], radix)
    ensures DigitPrefix(d + t, radix) == |d|
  {
    if |d| > 0 {
      assert (d + t)[1..] == d[1..] + t;
      DigitPrefixStops(d[1..], t, radix);
    } else {
      assert d + t == t;
    }
  }

  /** `parseInt` reads the leading numeral and ignores whatever follows it
      once a character is not a digit: `parseInt("12abc") === 12`. A `0`
      followed by `x` or `X` would instead start a hexadecimal numeral. */
  lemma ParseIntIgnoresTrailing(n: nat, t: string)
    requires t == [] || (!IsDigit(t[0], 10) && (n == 0 ==> t[0] != 'x' && t[0] != 'X'))
    ensures ParseInt(NatToString(n) + t) == Some(n)
  {
    var d := NatToString(n);
    var s := d + t;
    assert s[0] == d[0];
    assert Strings.LeadingWhitespace(s) == 0;
    assert s[0..] == s;
    DigitPrefixStops(d, t, 10);
    assert s[..|d|] == d;
    DigitsValueOfNatToString(n);
    if |s| >= 2 && s[0] == '0' {
      assert |d| == 1 && s[1] == t[0];
    }
  }

  /** `parseInt(value)` for a cell value: numbers go through `String(n)`,
      text is parsed as it is, and `null` becomes the text "null" (so `NaN`). */
  function ParseValue(v: Value): (r: Option<int>)
    ensures v.Number? ==> r == Some(v.n)
    ensures v.Null? ==> r == None
  {
    match v
    case Null => ParseInt("null")
    case Text(s) => ParseInt(s)
    case Number(n) => ParseIntOfIntToString(n); ParseInt(IntToString(n))
  }
}
