/** Whole numbers as text, as an f-string writes them. */
module Decimal {
  predicate IsDigit(c: char) { '0' <= c <= '9' }

  function DigitValue(c: char): int requires IsDigit(c) { c as int - '0' as int }

  function DigitChar(d: int): (c: char)
    requires 0 <= d < 10
    ensures IsDigit(c) && DigitValue(c) == d
  {
    ('0' as int + d) as char
  }

  /** `str(n)` */
  function Render(n: nat): (raw: string)
    ensures raw != "" && forall c <- raw :: IsDigit(c)
  {
    if n < 10 then [DigitChar(n)] else Render(n / 10) + [DigitChar(n % 10)]
  }

  lemma {:induction false} RenderInjective(n: nat, m: nat)
    requires Render(n) == Render(m)
    ensures n == m
  {
    var last := |Render(n)| - 1;
    assert Render(n)[last] == DigitChar(n % 10) && Render(m)[last] == DigitChar(m % 10);
    assert n % 10 == DigitValue(DigitChar(n % 10)) == DigitValue(DigitChar(m % 10)) == m % 10;
    assert |Render(n)| == 1 <==> n < 10;
    assert |Render(m)| == 1 <==> m < 10;
    if n >= 10 {
      assert Render(n)[..last] == Render(n / 10) && Render(m)[..last] == Render(m / 10);
      RenderInjective(n / 10, m / 10);
    }
  }

  function IntText(n: int): (raw: string)
    ensures forall c <- raw :: IsDigit(c) || c == '-'
  {
    if n < 0 then "-" + Render(-n) else Render(n)
  }

  lemma IntTextInjective(n: int, m: int)
    requires IntText(n) == IntText(m)
    ensures n == m
  {
    var a, b := if n < 0 then -n else n, if m < 0 then -m else m;
    assert IsDigit(Render(a)[0]) && IsDigit(Render(b)[0]);
    if n < 0 {
      assert IntText(n)[0] == '-';
      assert IntText(n)[1..] == Render(a) && IntText(m)[1..] == Render(b);
    } else {
      assert IntText(m)[0] != '-';
    }
    RenderInjective(a, b);
  }
}
