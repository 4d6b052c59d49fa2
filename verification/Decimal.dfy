/** Integers in decimal: what str() prints and the value of a run of digits. */
module Decimal {
  predicate IsIntChar(c: char) { '0' <= c <= '9' || c == '-' }

  function Digits(n: nat): (r: string)
    ensures r != [] && forall c | c in r :: '0' <= c <= '9'
  {
    if n < 10 then [('0' as int + n) as char] else Digits(n / 10) + [('0' as int + n % 10) as char]
  }

  function IntText(n: int): (r: string)
    ensures r != [] && forall c | c in r :: IsIntChar(c)
  {
    if n < 0 then ['-'] + Digits(-n) else Digits(n)
  }

  function DigitsValue(s: string): int {
    if s == [] then 0 else DigitsValue(s[..|s| - 1]) * 10 + (s[|s| - 1] as int - '0' as int)
  }

  lemma {:induction false} DigitsRoundTrip(n: nat)
    ensures DigitsValue(Digits(n)) == n
  {
    if n >= 10 {
      DigitsRoundTrip(n / 10);
      assert Digits(n)[..|Digits(n)| - 1] == Digits(n / 10);
    } else {
      assert Digits(n)[..0] == [];
    }
  }

  lemma IntTextShape(n: int)
    ensures IntText(n)[0] == '-' <==> n < 0
    ensures DigitsValue(if n < 0 then IntText(n)[1..] else IntText(n)) == if n < 0 then -n else n
  {
    var m := if n < 0 then -n else n;
    DigitsRoundTrip(m);
    assert Digits(m)[0] in Digits(m);
    assert n < 0 ==> IntText(n)[1..] == Digits(m);
  }
}
