/** Decimal numerals: `parseInt(s, 10)` and the rendering of a number as text (`String(n)`). */
module Decimal {
  import opened Wrappers
  import Text

  predicate IsDigit(c: char)
  {
    '0' <= c <= '9'
  }

  function DigitValue(c: char): nat
    requires IsDigit(c)
  {
    c as int - '0' as int
  }

  function DigitChar(d: nat): (c: char)
    requires d < 10
    ensures IsDigit(c) && DigitValue(c) == d
  {
    ('0' as int + d) as char
  }

  predicate AllDigits(s: string)
  {
    forall i :: 0 <= i < |s| ==> IsDigit(s[i])
  }

  /** The longest prefix of `s` made of decimal digits. */
  function DigitPrefix(s: string): (d: string)
    ensures |d| <= |s| && d == s[..|d|] && AllDigits(d)
    ensures |d| < |s| ==> !IsDigit(s[|d|])
  {
    if |s| > 0 && IsDigit(s[0]) then [s[0]] + DigitPrefix(s[1..]) else []
  }

  /** The number a digit string denotes, most significant digit first. */
  function Value(d: string): nat
    requires AllDigits(d)
  {
    if |d| == 0 then 0 else Value(d[..|d| - 1]) * 10 + DigitValue(d[|d| - 1])
  }

  /**
   * `parseInt(s, 10)`: skip leading white space, take one optional sign, then the longest run
   * of digits; `None` stands for `NaN` (no digit at all).
   */
  function ParseInt(s: string): (r: Option<int>)
    ensures r.Some? ==> exists k :: 0 <= k < |s| && IsDigit(s[k])
    ensures |s| > 0 && AllDigits(s) ==> r == Some(Value(s) as int)
    ensures |s| > 1 && s[0] == '-' && AllDigits(s[1..]) ==> r == Some(-(Value(s[1..]) as int))
  {
    BareDigitRun(s);
    SignedDigitRun(s);
    DigitWitness(s);
    Read(Unsigned(s), IsNegative(s))
  }

  /** The digit run at the front of `u`, negated when `negative`; `None` when there is none. */
  function Read(u: string, negative: bool): (r: Option<int>)
    ensures r.None? <==> |DigitPrefix(u)| == 0
  {
    var d := DigitPrefix(u);
    if |d| == 0 then None
    else Some(if negative then -(Value(d) as int) else Value(d) as int)
  }

  lemma ParseIntIsRead(s: string)
    ensures ParseInt(s) == Read(Unsigned(s), IsNegative(s))
  {
  }

  /** The first character after the leading white space is a minus sign. */
  predicate IsNegative(s: string)
  {
    var t := Text.TrimStart(s);
    |t| > 0 && t[0] == '-'
  }

  /** When digits are read, the first of them is a digit of `s` itself. */
  lemma DigitWitness(s: string)
    ensures Read(Unsigned(s), IsNegative(s)).Some? ==> IsDigit(s[|s| - |Unsigned(s)|])
  {
    var u := Unsigned(s);
    if |DigitPrefix(u)| > 0 {
      assert s[|s| - |u|] == u[0] == DigitPrefix(u)[0];
    }
  }

  /** What `parseInt` reads digits from: `s` after its leading white space and one optional sign. */
  function Unsigned(s: string): (u: string)
    ensures |u| <= |s| && u == s[|s| - |u|..]
  {
    var t := Text.TrimStart(s);
    if |t| > 0 && (t[0] == '-' || t[0] == '+') then t[1..] else t
  }

  lemma BareDigitRun(s: string)
    ensures |s| > 0 && AllDigits(s) ==> Read(Unsigned(s), IsNegative(s)) == Some(Value(s) as int)
  {
    if |s| > 0 && AllDigits(s) {
      WholeDigitRun(s);
    }
  }

  lemma SignedDigitRun(s: string)
    ensures |s| > 1 && s[0] == '-' && AllDigits(s[1..]) ==>
              Read(Unsigned(s), IsNegative(s)) == Some(-(Value(s[1..]) as int))
  {
    if |s| > 1 && s[0] == '-' && AllDigits(s[1..]) {
      Text.TrimStartKeeps(s);
      WholeDigitRun(s[1..]);
    }
  }

  /** A digit run, bare or behind a minus sign, is read whole: no space is skipped and no digit left. */
  lemma WholeDigitRun(d: string)
    requires |d| > 0 && AllDigits(d)
    ensures Text.TrimStart(d) == d && DigitPrefix(d) == d
  {
    assert IsDigit(d[0]);
    Text.TrimStartKeeps(d);
    assert d + "" == d;
    DigitPrefixOfDigits(d, "");
  }

  /** `String(n)` for a non-negative integer: digits, no sign, no leading zero. */
  function NatToString(n: nat): (s: string)
    ensures |s| > 0 && AllDigits(s)
    ensures |s| > 1 ==> s[0] != '0'
  {
    if n < 10 then [DigitChar(n)] else NatToString(n / 10) + [DigitChar(n % 10)]
  }

  lemma {:induction false} ValueOfNatToString(n: nat)
    ensures Value(NatToString(n)) == n
    decreases n
  {
    var s := NatToString(n);
    if n >= 10 {
      ValueOfNatToString(n / 10);
      assert s[..|s| - 1] == NatToString(n / 10);
    }
  }

  /** A digit string followed by a non-digit: the digit prefix is exactly the digit string. */
  lemma {:induction false} DigitPrefixOfDigits(d: string, rest: string)
    requires AllDigits(d)
    requires |rest| > 0 ==> !IsDigit(rest[0])
    ensures DigitPrefix(d + rest) == d
    decreases |d|
  {
    if |d| > 0 {
      assert (d + rest)[1..] == d[1..] + rest;
      DigitPrefixOfDigits(d[1..], rest);
    } else {
      assert d + rest == rest;
    }
  }

  /** White space is skipped only before the first digit. */
  lemma StartsWithDigit(s: string)
    requires |s| > 0 && IsDigit(s[0])
    ensures Text.TrimStart(s) == s
  {
    Text.TrimStartKeeps(s);
  }

  /** `parseInt` reads back what `String(n)` wrote, whatever non-digit text follows it. */
  lemma ParseIntOfNatToString(n: nat, rest: string)
    requires |rest| > 0 ==> !IsDigit(rest[0])
    ensures ParseInt(NatToString(n) + rest) == Some(n)
  {
    var s := NatToString(n) + rest;
    StartsWithDigit(s);
    DigitPrefixOfDigits(NatToString(n), rest);
    ValueOfNatToString(n);
  }

  /** The same with nothing after the digits. */
  lemma ParseIntRoundTrip(n: nat)
    ensures ParseInt(NatToString(n)) == Some(n)
  {
    assert NatToString(n) + "" == NatToString(n);
    ParseIntOfNatToString(n, "");
  }

  lemma ParseIntSigned(s: string)
    requires |s| > 1 && s[0] == '-' && AllDigits(s[1..])
    ensures ParseInt(s) == Some(-(Value(s[1..]) as int))
  {
  }

  /** White space in front is skipped: `parseInt(" 2")` reads 2. */
  lemma ParseIntSkipsSpace(c: char, s: string)
    requires Text.IsSpace(c)
    ensures ParseInt([c] + s) == ParseInt(s)
  {
    Text.TrimStartSkipsSpace(c, s);
    SameTrimSameParse([c] + s, s);
  }

  /** `parseInt` only sees the text after the leading white space. */
  lemma SameTrimSameParse(s1: string, s2: string)
    requires Text.TrimStart(s1) == Text.TrimStart(s2)
    ensures ParseInt(s1) == ParseInt(s2)
  {
    ParseIntIsRead(s1);
    ParseIntIsRead(s2);
  }

  /** A plus sign in front is read and ignored. */
  lemma ParseIntPlus(n: nat)
    ensures ParseInt("+" + NatToString(n)) == Some(n)
  {
    var d := NatToString(n);
    var s := "+" + d;
    Text.TrimStartKeeps(s);
    assert s[1..] == d;
    assert Unsigned(s) == d;
    WholeDigitRun(d);
    ValueOfNatToString(n);
  }

  /** A minus sign in front negates the value. */
  lemma ParseIntNegative(n: nat)
    ensures ParseInt("-" + NatToString(n)) == Some(-(n as int))
  {
    var d := NatToString(n);
    var s := "-" + d;
    assert s[1..] == d;
    assert AllDigits(s[1..]);
    ParseIntSigned(s);
    ValueOfNatToString(n);
  }

  /** Text with no digit after the optional space and sign parses to NaN. */
  lemma ParseIntNoDigits(s: string)
    requires forall i :: 0 <= i < |s| ==> !IsDigit(s[i])
    ensures ParseInt(s) == None
  {
    var t := Text.TrimStart(s);
    var u := Unsigned(s);
    if |u| > 0 {
      assert u[0] in s;
    }
  }
}
