/** Decimal numerals: Python's `str(n)`, `f"{n:02d}"` and `int(s)` on ASCII decimal strings. */
module Numerals {
  import opened Results
  import opened Text

  predicate IsDigit(c: char) { '0' <= c <= '9' }

  predicate AllDigits(s: string) { forall i :: 0 <= i < |s| ==> IsDigit(s[i]) }

  function DigitChar(d: nat): (c: char)
    requires d < 10
    ensures IsDigit(c) && DigitValue(c) == d
  {
    ('0' as int + d) as char
  }

  function DigitValue(c: char): nat
    requires IsDigit(c)
  {
    c as int - '0' as int
  }

  /** The digits of a string, every other character dropped: the grouping commas and decimal point of an amount, the underscores of a numeral. */
  function DigitsOf(s: string): (d: string)
    ensures AllDigits(d)
  {
    if s == [] then [] else (if IsDigit(s[0]) then [s[0]] else []) + DigitsOf(s[1..])
  }

  lemma {:induction false} DigitsOfAppend(a: string, b: string)
    ensures DigitsOf(a + b) == DigitsOf(a) + DigitsOf(b)
  {
    if a == [] {
      assert a + b == b;
    } else {
      assert (a + b)[0] == a[0];
      assert (a + b)[1..] == a[1..] + b;
      DigitsOfAppend(a[1..], b);
    }
  }

  lemma {:induction false} DigitsOfDigits(s: string)
    requires AllDigits(s)
    ensures DigitsOf(s) == s
  {
    if s != [] {
      DigitsOfDigits(s[1..]);
    }
  }

  /** The number a string of decimal digits denotes; leading zeros are allowed, as `int()` allows them. */
  function DigitsValue(s: string): nat
    requires AllDigits(s)
  {
    if s == [] then 0 else DigitsValue(s[..|s| - 1]) * 10 + DigitValue(s[|s| - 1])
  }

  /** `str(n)`: the decimal digits of n without leading zeros ("0" for zero), read back as n. */
  function NatToString(n: nat): (s: string)
    ensures 1 <= |s| && AllDigits(s)
    ensures DigitsValue(s) == n
    ensures |s| > 1 ==> s[0] != '0'
  {
    if n < 10 then [DigitChar(n)]
    else
      var s := NatToString(n / 10) + [DigitChar(n % 10)];
      assert s[..|s| - 1] == NatToString(n / 10);
      s
  }

  /** `str(i)` for a signed integer. */
  function IntToString(i: int): (s: string)
    ensures 1 <= |s|
    ensures '-' in s <==> i < 0
  {
    if i < 0 then "-" + NatToString(-i) else NatToString(i)
  }

  function Zeros(k: nat): (z: string)
    ensures |z| == k && AllDigits(z)
  {
    if k == 0 then "" else "0" + Zeros(k - 1)
  }

  /** `f"{n:0{width}d}"`: the digits of n padded on the left with zeros to at least `width` characters. */
  function PadZeros(n: nat, width: nat): (s: string)
    ensures AllDigits(s)
    ensures |s| == if |NatToString(n)| < width then width else |NatToString(n)|
    ensures DigitsValue(s) == n
  {
    var digits := NatToString(n);
    var pad := if |digits| < width then width - |digits| else 0;
    LeadingZeros(pad, digits);
    Zeros(pad) + digits
  }

  /** Leading zeros do not change the value of a numeral. */
  lemma {:induction false} LeadingZeros(k: nat, s: string)
    requires AllDigits(s)
    ensures AllDigits(Zeros(k) + s) && DigitsValue(Zeros(k) + s) == DigitsValue(s)
  {
    var z := Zeros(k);
    if s == [] {
      assert z + s == z;
      ZerosValue(k);
    } else {
      var t := z + s;
      assert t[..|t| - 1] == z + s[..|s| - 1];
      LeadingZeros(k, s[..|s| - 1]);
    }
  }

  lemma {:induction false} ZerosValue(k: nat)
    ensures DigitsValue(Zeros(k)) == 0
  {
    if k > 0 {
      var z := Zeros(k);
      assert z[..|z| - 1] == Zeros(k - 1) by {
        ZerosShift(k);
      }
      ZerosValue(k - 1);
    }
  }

  lemma {:induction false} ZerosShift(k: nat)
    requires k > 0
    ensures Zeros(k) == Zeros(k - 1) + "0"
  {
    if k > 1 {
      ZerosShift(k - 1);
    }
  }

  /** The value of a concatenation: the left part shifted by the length of the right part. */
  lemma {:induction false} DigitsValueAppend(a: string, b: string)
    requires AllDigits(a) && AllDigits(b)
    ensures AllDigits(a + b)
    ensures DigitsValue(a + b) == DigitsValue(a) * Pow10(|b|) + DigitsValue(b)
  {
    if b == [] {
      assert a + b == a;
    } else {
      var t := a + b;
      var b' := b[..|b| - 1];
      assert t[..|t| - 1] == a + b';
      assert t[|t| - 1] == b[|b| - 1];
      DigitsValueAppend(a, b');
      ShiftStep(DigitsValue(a), DigitsValue(b'), Pow10(|b'|), DigitValue(b[|b| - 1]));
    }
  }

  lemma ShiftStep(va: nat, vb: nat, p: nat, d: nat)
    ensures (va * p + vb) * 10 + d == va * (10 * p) + (vb * 10 + d)
  {
  }

  function Pow10(k: nat): (p: nat)
    ensures p >= 1
  {
    if k == 0 then 1 else 10 * Pow10(k - 1)
  }

  /**
   * The digit part `int()` accepts, restricted to ASCII digits: a single underscore may separate
   * two digits ("1_000"); no leading, trailing or doubled underscore.
   */
  predicate IsNumeral(s: string)
  {
    && s != [] && IsDigit(s[0]) && IsDigit(s[|s| - 1])
    && (forall i :: 0 <= i < |s| ==> IsDigit(s[i]) || s[i] == '_')
    && (forall i :: 0 <= i < |s| - 1 ==> s[i] == '_' ==> s[i + 1] != '_')
  }

  /**
   * `sys.int_info.default_max_str_digits`: `int()` refuses, with ValueError, a decimal numeral of
   * more digits than this, and `str()` refuses to print such an integer.
   */
  const MaxStrDigits := 4300

  /**
   * `int(s)`: surrounding whitespace is ignored, one optional sign is allowed, and an ASCII
   * numeral of at most `MaxStrDigits` digits must follow, whose underscores do not count.
   * Anything else is None: a ValueError in Python, except for the decimal digits of other
   * scripts, which this model does not accept.
   */
  function ParseInt(s: string): (r: Option<int>)
    ensures r.Some? ==> Strip(s) != []
  {
    var t := Strip(s);
    if t == [] then None
    else if t[0] == '+' || t[0] == '-' then
      match ReadNumeral(t[1..])
      case Some(n) => Some(if t[0] == '-' then -(n as int) else n)
      case None => None
    else ReadNumeral(t)
  }

  /** The unsigned part of `int()`: an ASCII numeral of at most `MaxStrDigits` digits, read without its underscores. */
  function ReadNumeral(s: string): Option<nat>
  {
    if IsNumeral(s) && |DigitsOf(s)| <= MaxStrDigits then Some(DigitsValue(DigitsOf(s))) else None
  }

  /** A plain digit string is a numeral whose digits are itself. */
  lemma DigitsNumeral(s: string)
    requires s != [] && AllDigits(s)
    ensures IsNumeral(s) && DigitsOf(s) == s
  {
    DigitsOfDigits(s);
  }

  /** A plain digit string reads as the number it denotes, unless it is too long for `int()`. */
  lemma ReadDigits(s: string)
    requires s != [] && AllDigits(s)
    ensures ReadNumeral(s) == if |s| <= MaxStrDigits then Some(DigitsValue(s)) else None
  {
    DigitsNumeral(s);
  }

  /** Twelve as the numeral "12". */
  lemma Twelve()
    ensures AllDigits("12") && DigitsValue("12") == 12
  {
    assert "12"[..1] == "1";
  }

  /** A single underscore between digits is accepted and does not count, as in Python's `int()`. */
  lemma UnderscoreNumeral()
    ensures ParseInt("1_2") == Some(12)
  {
    var s := "1_2";
    assert !IsSpace(s[0]) && !IsSpace(s[2]);
    assert TrimStart(s) == s && TrimEnd(s) == s;
    assert IsNumeral(s);
    assert DigitsOf(s[2..]) == "2";
    assert DigitsOf(s[1..]) == "2";
    assert DigitsOf(s) == "12";
    Twelve();
  }

  /** A no-break space around the digits is whitespace to `int()`. */
  lemma NoBreakSpaceNumeral()
    ensures ParseInt([0xa0 as char, '1', '2']) == Some(12)
  {
    NoBreakSpaceStrips();
    DigitsNumeral("12");
    Twelve();
  }

  lemma NoBreakSpaceStrips()
    ensures Strip([0xa0 as char, '1', '2']) == "12"
  {
    var s := [0xa0 as char, '1', '2'];
    assert s[0] as int == 0xa0 && s[1..] == "12";
    assert TrimStart(s) == TrimStart("12");
    StripDigits("12");
  }

  /** A leading underscore makes `int()` raise ValueError. */
  lemma LeadingUnderscore()
    ensures ParseInt("_12") == None
  {
    assert !IsSpace('_') && !IsSpace('2');
    assert TrimStart("_12") == "_12" && TrimEnd("_12") == "_12";
  }

  /** A trailing underscore makes `int()` raise ValueError. */
  lemma TrailingUnderscore()
    ensures ParseInt("12_") == None
  {
    assert !IsSpace('1') && !IsSpace('_');
    assert TrimStart("12_") == "12_" && TrimEnd("12_") == "12_";
  }

  /** Two underscores in a row make `int()` raise ValueError. */
  lemma DoubledUnderscore()
    ensures ParseInt("1__2") == None
  {
    assert !IsSpace('1') && !IsSpace('2');
    assert TrimStart("1__2") == "1__2" && TrimEnd("1__2") == "1__2";
    assert "1__2"[1] == '_' && "1__2"[2] == '_';
  }

  /** Stripping a numeral leaves it unchanged. */
  lemma StripDigits(s: string)
    requires s != [] && AllDigits(s)
    ensures Strip(s) == s
  {
    assert !IsSpace(s[0]) && TrimStart(s) == s;
    assert !IsSpace(s[|s| - 1]);
  }

  /** A digit string of any padding reads back as the number it denotes, unless it is too long. */
  lemma ParseDigits(s: string)
    requires s != [] && AllDigits(s)
    ensures ParseInt(s) == if |s| <= MaxStrDigits then Some(DigitsValue(s)) else None
  {
    StripDigits(s);
    DigitsNumeral(s);
    assert IsDigit(s[0]);
  }

  /** `int(str(i)) == i` for every integer of at most `MaxStrDigits` digits; longer ones are refused. */
  lemma IntToStringRoundTrip(i: int)
    ensures ParseInt(IntToString(i)) == if |NatToString(if i < 0 then -i else i)| <= MaxStrDigits then Some(i) else None
  {
    if i < 0 {
      ParseNegative(NatToString(-i));
    } else {
      ParseDigits(NatToString(i));
    }
  }

  /** A minus sign before a digit string negates what the digits read as. */
  lemma ParseNegative(d: string)
    requires d != [] && AllDigits(d)
    ensures ParseInt("-" + d) == if |d| <= MaxStrDigits then Some(-(DigitsValue(d) as int)) else None
  {
    StripNegative(d);
    ParseMinus("-" + d, d);
  }

  /** A stripped string of a minus sign and a digit string reads as the digits negated. */
  lemma ParseMinus(t: string, d: string)
    requires d != [] && AllDigits(d)
    requires Strip(t) == t && t != [] && t[0] == '-' && t[1..] == d
    ensures ParseInt(t) == if |d| <= MaxStrDigits then Some(-(DigitsValue(d) as int)) else None
  {
    ReadDigits(d);
    assert ParseInt(t) == match ReadNumeral(d) case Some(n) => Some(-(n as int)) case None => None;
  }

  lemma StripNegative(d: string)
    requires d != [] && AllDigits(d)
    ensures Strip("-" + d) == "-" + d && ("-" + d)[0] == '-' && ("-" + d)[1..] == d
  {
    var s := "-" + d;
    assert !IsSpace(s[0]) && TrimStart(s) == s;
    assert s[|s| - 1] == d[|d| - 1] && !IsSpace(s[|s| - 1]);
  }

  /** A number below 10^k prints with at most k digits. */
  lemma {:induction false} NumeralLength(n: nat, k: nat)
    requires 1 <= k && n < Pow10(k)
    ensures |NatToString(n)| <= k
  {
    if n >= 10 {
      assert Pow10(1) == 10;
      assert k >= 2;
      assert n / 10 < Pow10(k - 1);
      NumeralLength(n / 10, k - 1);
    }
  }

  /** Numbers from 1000 to 9999 print with exactly four digits. */
  lemma FourDigitYear(n: nat)
    requires 1000 <= n <= 9999
    ensures |NatToString(n)| == 4
  {
    assert |NatToString(n / 1000)| == 1;
    assert |NatToString(n / 100)| == 2;
    assert |NatToString(n / 10)| == 3;
  }
}
