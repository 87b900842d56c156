/**
 * `Number.prototype.toString(16)` for non-negative integers, as both
 * `hashShort` variants use it: lowercase digits, no leading zeros, and
 * "0" for zero.  `ParseHex` is its inverse on canonical digit strings.
 */
module JsHex {

  /** One of `0`-`9`, `a`-`f`. */
  predicate IsHexDigit(c: char) {
    '0' <= c <= '9' || 'a' <= c <= 'f'
  }

  function HexDigit(d: nat): (c: char)
    requires d < 16
    ensures IsHexDigit(c)
  {
    if d < 10 then ('0' as int + d) as char else ('a' as int + d - 10) as char
  }

  /** The value of a lowercase hexadecimal digit. */
  function DigitValue(c: char): (d: nat)
    requires IsHexDigit(c)
    ensures d < 16 && HexDigit(d) == c
  {
    if '0' <= c <= '9' then (c as int - '0' as int) else (c as int - 'a' as int) + 10
  }

  lemma DigitRoundTrip(d: nat)
    requires d < 16
    ensures DigitValue(HexDigit(d)) == d
  {
  }

  predicate IsLowerHex(s: string) {
    forall i :: 0 <= i < |s| ==> IsHexDigit(s[i])
  }

  /** A digit string as `toString(16)` prints it: no leading zero unless it is "0". */
  predicate IsCanonicalHex(s: string) {
    |s| >= 1 && IsLowerHex(s) && (s[0] == '0' ==> s == "0")
  }

  function ToHex(n: nat): (s: string)
    ensures IsCanonicalHex(s)
    ensures s[0] == '0' <==> n == 0
    decreases n
  {
    if n < 16 then [HexDigit(n)] else ToHex(n / 16) + [HexDigit(n % 16)]
  }

  function ParseHex(s: string): nat
    requires IsLowerHex(s)
  {
    if s == [] then 0 else 16 * ParseHex(s[..|s| - 1]) + DigitValue(s[|s| - 1])
  }

  function Pow16(k: nat): (p: nat)
    ensures p >= 1
  {
    if k == 0 then 1 else 16 * Pow16(k - 1)
  }

  /** Reading back what `ToHex` printed gives the number. */
  lemma {:induction false} ParseToHex(n: nat)
    ensures ParseHex(ToHex(n)) == n
    decreases n
  {
    var s := ToHex(n);
    if n >= 16 {
      var q, r := n / 16, n % 16;
      assert n == 16 * q + r;
      ParseToHex(q);
      assert s == ToHex(q) + [HexDigit(r)];
      assert s[..|s| - 1] == ToHex(q);
      DigitRoundTrip(r);
      assert ParseHex(s) == 16 * ParseHex(ToHex(q)) + DigitValue(HexDigit(r));
    } else {
      DigitRoundTrip(n);
    }
  }

  /** A canonical digit string with a non-zero leading digit denotes at least 16^(|s|-1). */
  lemma {:induction false} ParseHexLowerBound(s: string)
    requires IsLowerHex(s) && |s| >= 1 && s[0] != '0'
    ensures ParseHex(s) >= Pow16(|s| - 1)
    decreases |s|
  {
    if |s| > 1 {
      var p := s[..|s| - 1];
      assert p[0] == s[0];
      ParseHexLowerBound(p);
    } else {
      assert DigitValue(s[0]) != 0;
    }
  }

  /** Printing what `ParseHex` read gives back every canonical string. */
  lemma {:induction false} ToHexParse(s: string)
    requires IsCanonicalHex(s)
    ensures ToHex(ParseHex(s)) == s
    decreases |s|
  {
    if |s| > 1 {
      var p := s[..|s| - 1];
      assert p[0] == s[0] && s[0] != '0';
      ParseHexLowerBound(p);
      ToHexParse(p);
      var n, q, d := ParseHex(s), ParseHex(p), DigitValue(s[|s| - 1]);
      assert n == 16 * q + d && d < 16 && q >= 1;
      assert n / 16 == q && n % 16 == d;
      assert ToHex(n) == ToHex(q) + [HexDigit(d)];
      assert s == p + [s[|s| - 1]];
    }
  }

  /** Distinct numbers print as distinct strings. */
  lemma ToHexInjective(a: nat, b: nat)
    requires ToHex(a) == ToHex(b)
    ensures a == b
  {
    ParseToHex(a);
    ParseToHex(b);
  }

  /** A number below 16^k prints with at most k digits; so a 32-bit value prints with 1 to 8. */
  lemma {:induction false} ToHexLength(n: nat, k: nat)
    requires k >= 1 && n < Pow16(k)
    ensures |ToHex(n)| <= k
    decreases n
  {
    if n >= 16 {
      assert n / 16 < Pow16(k - 1);
      ToHexLength(n / 16, k - 1);
    }
  }

  lemma Pow16Eight()
    ensures Pow16(8) == 0x1_0000_0000
  {
  }
}
