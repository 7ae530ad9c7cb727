/** Decimal numerals, as Python's str and int produce and read them for non-negative numbers. */
module Decimals {
  import opened Base

  predicate IsDigit(c: char) { '0' <= c <= '9' }

  function Digit(d: nat): (c: char)
    requires d < 10
    ensures IsDigit(c) && c as int - '0' as int == d
  {
    ('0' as int + d) as char
  }

  function Show(n: nat): (s: string)
    ensures s != "" && forall i :: 0 <= i < |s| ==> IsDigit(s[i])
  {
    if n < 10 then [Digit(n)] else Show(n / 10) + [Digit(n % 10)]
  }

  /** None where int() raises ValueError; signs, blanks and underscores are not accepted here. */
  function Read(s: string): Option<nat> {
    if s == "" then None
    else
      var c := s[|s| - 1];
      if !IsDigit(c) then None
      else if |s| == 1 then Some(c as int - '0' as int)
      else match Read(s[..|s| - 1])
        case None => None
        case Some(n) => Some(10 * n + (c as int - '0' as int))
  }

  lemma {:induction false} ReadShow(n: nat)
    ensures Read(Show(n)) == Some(n)
  {
    if n >= 10 {
      ReadShow(n / 10);
      assert Show(n)[..|Show(n)| - 1] == Show(n / 10);
    }
  }

  lemma ShowInjective(m: nat, n: nat)
    requires Show(m) == Show(n)
    ensures m == n
  {
    ReadShow(m);
    ReadShow(n);
  }
}
