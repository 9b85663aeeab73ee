/** Decimal rendering of integers, as Rust's `Display` prints them, and its inverse. */
module Decimal {

  predicate IsDigit(c: char) { '0' <= c <= '9' }

  function DigitOf(n: nat): (c: char)
    requires n < 10
    ensures IsDigit(c)
  {
    '0' + n as char
  }

  function Render(n: nat): (s: string)
    ensures s != [] && forall c | c in s :: IsDigit(c)
  {
    if n < 10 then [DigitOf(n)] else Render(n / 10) + [DigitOf(n % 10)]
  }

  function Value(s: string): (n: nat)
    requires forall c | c in s :: IsDigit(c)
  {
    if s == [] then 0
    else
      assert IsDigit(s[|s| - 1]);
      10 * Value(s[..|s| - 1]) + (s[|s| - 1] as int - '0' as int)
  }

  lemma {:induction false} ValueOfRender(n: nat)
    ensures Value(Render(n)) == n
  {
    if n >= 10 {
      ValueOfRender(n / 10);
      assert Render(n)[..|Render(n)| - 1] == Render(n / 10);
    }
  }

  /** No number but zero starts with a zero. */
  lemma {:induction false} NoLeadingZero(n: nat)
    ensures Render(n)[0] == '0' <==> n == 0
  {
    if n >= 10 {
      NoLeadingZero(n / 10);
    }
  }

  lemma RenderInjective(m: nat, n: nat)
    requires Render(m) == Render(n)
    ensures m == n
  {
    ValueOfRender(m);
    ValueOfRender(n);
  }

  function RenderInt(i: int): (s: string)
    ensures s != [] && forall c | c in s :: IsDigit(c) || c == '-'
  {
    if i < 0 then "-" + Render(-i) else Render(i)
  }

  lemma SignShown(i: int)
    ensures RenderInt(i)[0] == '-' <==> i < 0
  {
    if i >= 0 {
      assert Render(i)[0] in Render(i);
    }
  }

  lemma RenderIntInjective(i: int, j: int)
    requires RenderInt(i) == RenderInt(j)
    ensures i == j
  {
    SignShown(i);
    SignShown(j);
    if i < 0 {
      assert RenderInt(i)[1..] == Render(-i) && RenderInt(j)[1..] == Render(-j);
      RenderInjective(-i, -j);
    } else {
      RenderInjective(i, j);
    }
  }
}
