/** Decimal numbers as printf prints them with %d, %lld and %02x, and as a reader takes them. */
module Decimal {

  predicate IsDigit(c: char) {
    '0' <= c <= '9'
  }

  function DigitChar(n: nat): char
    requires n < 10
  {
    '0' + n as char
  }

  /** A digit of %x. */
  function HexChar(n: nat): char
    requires n < 16
  {
    if n < 10 then '0' + n as char else 'a' + (n - 10) as char
  }

  function NatText(n: nat): (s: string)
    ensures s != [] && forall i :: 0 <= i < |s| ==> IsDigit(s[i])
    ensures n > 0 ==> s[0] != '0'
  {
    if n < 10 then [DigitChar(n)] else NatText(n / 10) + [DigitChar(n % 10)]
  }

  function IntText(n: int): (s: string)
    ensures s != [] && (s[0] == '-' || IsDigit(s[0]))
  {
    if n < 0 then ['-'] + NatText(-n) else NatText(n)
  }

  /** Reads digits on top of the value `acc` read so far. */
  function ReadDigits(s: string, acc: nat): (r: (nat, string))
    ensures |r.1| <= |s|
  {
    if s == [] || !IsDigit(s[0]) then (acc, s) else ReadDigits(s[1..], 10 * acc + (s[0] as int - '0' as int))
  }

  lemma {:induction false} ReadNatText(n: nat, t: string)
    ensures ReadDigits(NatText(n) + t, 0) == ReadDigits(t, n)
    decreases n
  {
    if n < 10 {
      assert (NatText(n) + t)[1..] == t;
    } else {
      var last := [DigitChar(n % 10)];
      assert NatText(n) + t == NatText(n / 10) + (last + t);
      ReadNatText(n / 10, last + t);
      assert (last + t)[1..] == t;
    }
  }

  /** Two numbers with the same text are the same. */
  lemma NatTextInjective(m: nat, n: nat)
    requires NatText(m) == NatText(n)
    ensures m == n
  {
    ReadNatText(m, []);
    ReadNatText(n, []);
  }
}
