// Decimal text as printf writes it and atoi reads it.
module Decimal {
  predicate IsDigit(c: char) {
    '0' <= c <= '9'
  }

  // %u
  function PrintNat(n: nat): (r: string)
    ensures r != [] && forall i | 0 <= i < |r| :: IsDigit(r[i])
  {
    (if n < 10 then [] else PrintNat(n / 10)) + ['0' + (n % 10) as char]
  }

  // %d
  function PrintInt(n: int): (r: string)
    ensures r != [] && (r[0] == '-' <==> n < 0)
  {
    if n < 0 then "-" + PrintNat(-n) else PrintNat(n)
  }

  // The number a run of digits stands for.
  function DigitsValue(s: string): nat
    requires forall i | 0 <= i < |s| :: IsDigit(s[i])
  {
    if s == [] then 0
    else
      assert IsDigit(s[|s| - 1]);
      10 * DigitsValue(s[..|s| - 1]) + (s[|s| - 1] as int - '0' as int)
  }

  // The leading digits of s.
  function LeadingDigits(s: string): (r: string)
    ensures r <= s && forall i | 0 <= i < |r| :: IsDigit(r[i])
    ensures |r| < |s| ==> !IsDigit(s[|r|])
  {
    if s == [] || !IsDigit(s[0]) then [] else [s[0]] + LeadingDigits(s[1..])
  }

  // White space in the C locale.
  predicate IsSpace(c: char) {
    c == ' ' || '\t' <= c <= '\r'
  }

  // atoi, for text whose value fits an int.
  function Atoi(s: string): int {
    if s == [] then 0
    else if IsSpace(s[0]) then Atoi(s[1..])
    else if s[0] == '-' then 0 - DigitsValue(LeadingDigits(s[1..]))
    else if s[0] == '+' then DigitsValue(LeadingDigits(s[1..]))
    else DigitsValue(LeadingDigits(s))
  }

  lemma {:induction false} LeadingDigitsExact(d: string, rest: string)
    requires forall i | 0 <= i < |d| :: IsDigit(d[i])
    requires rest != [] ==> !IsDigit(rest[0])
    ensures LeadingDigits(d + rest) == d
  {
    if d == [] {
      assert d + rest == rest;
    } else {
      assert (d + rest)[1..] == d[1..] + rest;
      LeadingDigitsExact(d[1..], rest);
    }
  }

  lemma {:induction false} PrintNatValue(n: nat)
    ensures DigitsValue(PrintNat(n)) == n
  {
    var s := PrintNat(n);
    if n < 10 {
      assert s[..|s| - 1] == [];
    } else {
      PrintNatValue(n / 10);
      assert s[..|s| - 1] == PrintNat(n / 10);
    }
  }

  lemma LeadingNumber(n: nat, rest: string)
    requires rest != [] ==> !IsDigit(rest[0])
    ensures DigitsValue(LeadingDigits(PrintNat(n) + rest)) == n
  {
    PrintNatValue(n);
    LeadingDigitsExact(PrintNat(n), rest);
  }

  lemma AtoiUnsigned(s: string, n: nat)
    requires s != [] && IsDigit(s[0]) && DigitsValue(LeadingDigits(s)) == n
    ensures Atoi(s) == n
  {
  }

  // Printing and reading back, whatever non-digit text follows the number.
  lemma AtoiPrintNat(n: nat, rest: string)
    requires rest != [] ==> !IsDigit(rest[0])
    ensures Atoi(PrintNat(n) + rest) == n
  {
    LeadingNumber(n, rest);
    AtoiUnsigned(PrintNat(n) + rest, n);
  }

  function Pow10(k: nat): nat {
    if k == 0 then 1 else 10 * Pow10(k - 1)
  }

  lemma {:induction false} PrintNatLength(n: nat, k: nat)
    requires 0 < k && n < Pow10(k)
    ensures |PrintNat(n)| <= k
  {
    if n >= 10 {
      assert k > 1 by {
        assert Pow10(1) == 10 * Pow10(0);
      }
      PrintNatLength(n / 10, k - 1);
    }
  }
}
