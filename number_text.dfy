/**
  Decimal text of numbers as the JavaScript runtime produces and reads it:
  `Number.prototype.toString()` on integers, `String.prototype.padStart(2, "0")`,
  and `parseInt(s, 10)`.
*/
module NumberText {
  import opened Wrappers

  predicate IsDigit(c: char)
  {
    '0' <= c <= '9'
  }

  predicate AllDigits(s: string)
  {
    forall i :: 0 <= i < |s| ==> IsDigit(s[i])
  }

  function DigitValue(c: char): (d: nat)
    requires IsDigit(c)
    ensures d < 10
  {
    (c as int) - ('0' as int)
  }

  function DigitChar(d: nat): (c: char)
    requires d < 10
    ensures IsDigit(c) && DigitValue(c) == d
  {
    (('0' as int) + d) as char
  }

  /** The value of a string of decimal digits, most significant first. */
  function DigitsValue(s: string): nat
    requires AllDigits(s)
  {
    if s == [] then 0 else DigitsValue(s[..|s| - 1]) * 10 + DigitValue(s[|s| - 1])
  }

  /** `n.toString()` for a non-negative integer: its digits, without leading zeros. */
  function NatToString(n: nat): (s: string)
    ensures |s| >= 1 && AllDigits(s)
    ensures (s[0] == '0') == (n == 0)
    ensures n < 10 <==> |s| == 1
    ensures 10 <= n < 100 <==> |s| == 2
  {
    if n < 10 then [DigitChar(n)] else NatToString(n / 10) + [DigitChar(n % 10)]
  }

  /** `i.toString()` for any integer. */
  function IntToString(i: int): string
  {
    if i < 0 then "-" + NatToString(-i) else NatToString(i)
  }

  /** `s.padStart(2, "0")`. */
  function PadStart2(s: string): (r: string)
    ensures |r| == if |s| >= 2 then |s| else 2
    ensures r[|r| - |s|..] == s
    ensures forall i :: 0 <= i < |r| - |s| ==> r[i] == '0'
  {
    if |s| >= 2 then s else if |s| == 1 then "0" + s else "00"
  }

  /** Number of leading decimal digits of `s`. */
  function DigitPrefixLength(s: string): (k: nat)
    ensures k <= |s| && AllDigits(s[..k])
    ensures k < |s| ==> !IsDigit(s[k])
  {
    if s == [] || !IsDigit(s[0]) then 0
    else
      var k := 1 + DigitPrefixLength(s[1..]);
      assert s[..k] == [s[0]] + s[1..][..k - 1];
      k
  }

  /**
    `parseInt(s, 10)`: an optional sign followed by the longest run of decimal
    digits; `None` stands for `NaN` (no digit after the sign). Leading white
    space, which `parseInt` skips, is not modelled.
  */
  function ParseInt(s: string): Option<int>
  {
    if |s| > 0 && s[0] == '-' then
      match ParseDigits(s[1..])
      case Some(v) => Some(-v)
      case None => None
    else if |s| > 0 && s[0] == '+' then ParseDigits(s[1..])
    else ParseDigits(s)
  }

  /** The longest run of leading decimal digits, read as a number. */
  function ParseDigits(t: string): Option<int>
  {
    var k := DigitPrefixLength(t);
    if k == 0 then None else Some(DigitsValue(t[..k]))
  }

  lemma {:induction false} DigitsValueOfNatToString(n: nat)
    ensures DigitsValue(NatToString(n)) == n
  {
    if n >= 10 {
      var s := NatToString(n);
      var p := NatToString(n / 10);
      assert s == p + [DigitChar(n % 10)];
      assert s[..|s| - 1] == p;
      DigitsValueOfNatToString(n / 10);
    }
  }

  lemma {:induction false} DigitPrefixOfDigits(s: string, rest: string)
    requires AllDigits(s)
    requires rest == [] || !IsDigit(rest[0])
    ensures DigitPrefixLength(s + rest) == |s|
  {
    if s != [] {
      assert (s + rest)[1..] == s[1..] + rest;
      DigitPrefixOfDigits(s[1..], rest);
    } else {
      assert s + rest == rest;
    }
  }

  lemma ParseDigitsOf(digits: string, rest: string)
    requires |digits| >= 1 && AllDigits(digits)
    requires rest == [] || !IsDigit(rest[0])
    ensures ParseDigits(digits + rest) == Some(DigitsValue(digits) as int)
  {
    DigitPrefixOfDigits(digits, rest);
    assert (digits + rest)[..|digits|] == digits;
  }

  lemma ParseIntOfMinus(t: string, v: int)
    requires ParseDigits(t) == Some(v)
    ensures ParseInt("-" + t) == Some(-v)
  {
    assert ("-" + t)[1..] == t;
  }

  lemma ParseIntOfNegative(i: int, rest: string)
    requires i < 0
    requires rest == [] || !IsDigit(rest[0])
    ensures ParseInt("-" + (NatToString(-i) + rest)) == Some(i)
  {
    var d := NatToString(-i);
    DigitsValueOfNatToString(-i);
    ParseDigitsOf(d, rest);
    ParseIntOfMinus(d + rest, -i);
  }

  lemma ParseIntOfNonNegative(n: nat, rest: string)
    requires rest == [] || !IsDigit(rest[0])
    ensures ParseInt(NatToString(n) + rest) == Some(n)
  {
    var d := NatToString(n);
    DigitsValueOfNatToString(n);
    ParseDigitsOf(d, rest);
    assert IsDigit((d + rest)[0]);
  }

  /** `parseInt` reads back what `toString` wrote, up to the first non-digit. */
  lemma ParseIntOfIntToString(i: int, rest: string)
    requires rest == [] || !IsDigit(rest[0])
    ensures ParseInt(IntToString(i) + rest) == Some(i)
  {
    if i < 0 {
      ParseIntOfNegative(i, rest);
      assert IntToString(i) + rest == "-" + (NatToString(-i) + rest);
    } else {
      ParseIntOfNonNegative(i, rest);
    }
  }

  /** Two-digit decimal text of `n`, as `n.toString().padStart(2, "0")` writes it. */
  lemma TwoDigitText(n: nat)
    requires n < 100
    ensures |PadStart2(NatToString(n))| == 2
    ensures AllDigits(PadStart2(NatToString(n)))
    ensures 10 * DigitValue(PadStart2(NatToString(n))[0]) + DigitValue(PadStart2(NatToString(n))[1]) == n
  {
    var s := NatToString(n);
    DigitsValueOfNatToString(n);
    if n >= 10 {
      assert s[..1] == [s[0]];
      assert s[..|s| - 1] == [s[0]];
    }
  }

  /** `String(n).padStart(2, "0")` for `n` below 100. */
  function TwoDigits(n: nat): (r: string)
    requires n < 100
    ensures |r| == 2 && IsDigit(r[0]) && IsDigit(r[1])
    ensures 10 * DigitValue(r[0]) + DigitValue(r[1]) == n
  {
    TwoDigitText(n);
    PadStart2(NatToString(n))
  }
}
