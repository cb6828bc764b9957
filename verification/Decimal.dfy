/** Decimal rendering of integers, and reading them back. */
module Decimal {
  import opened Prelude

  function Digit(d: nat): char
    requires d < 10
  {
    '0' + d as char
  }

  function Digits(n: nat): (s: string)
    ensures |s| >= 1 && forall i :: 0 <= i < |s| ==> '0' <= s[i] <= '9'
  {
    if n < 10 then [Digit(n)] else Digits(n / 10) + [Digit(n % 10)]
  }

  /** Integer.toString */
  function ToString(n: int): string {
    if n < 0 then "-" + Digits(-n) else Digits(n)
  }

  /** The number a run of digits denotes, if it is one. */
  function ParseDigits(s: string): Option<nat> {
    if s == [] then None else
      var last := s[|s| - 1];
      if !('0' <= last <= '9') then None
      else if |s| == 1 then Some((last - '0') as nat)
      else match ParseDigits(s[..|s| - 1])
        case None => None
        case Some(high) => Some(high * 10 + (last - '0') as nat)
  }

  const MIN_INT := -0x8000_0000
  const MAX_INT := 0x7fff_ffff

  function Bounded(n: int): Option<int> {
    if MIN_INT <= n <= MAX_INT then Some(n) else None
  }

  /** Integer.parseInt: an optional sign, then digits, within 32 bits. */
  function ParseInt(s: string): Option<int> {
    if s == [] then None
    else if s[0] == '-' then
      match ParseDigits(s[1..]) case None => None case Some(n) => Bounded(0 - n)
    else
      match ParseDigits(if s[0] == '+' then s[1..] else s) case None => None case Some(n) => Bounded(n)
  }

  lemma {:induction false} ParseRendered(n: nat)
    ensures ParseDigits(Digits(n)) == Some(n)
  {
    if n >= 10 {
      ParseRendered(n / 10);
      assert Digits(n)[..|Digits(n)| - 1] == Digits(n / 10);
    }
  }

  /** Printing and parsing a 32-bit integer gives it back. */
  lemma ParseToString(n: int)
    requires MIN_INT <= n <= MAX_INT
    ensures ParseInt(ToString(n)) == Some(n)
  {
    var s := ToString(n);
    if n < 0 {
      assert s[0] == '-' && s[1..] == Digits(-n);
      ParseRendered(-n);
      assert ParseDigits(s[1..]) == Some(-n);
    } else {
      assert '0' <= s[0] <= '9';
      ParseRendered(n);
      assert ParseDigits(s) == Some(n);
    }
  }

  lemma DigitsInjective(m: nat, n: nat)
    ensures Digits(m) == Digits(n) <==> m == n
  {
    ParseRendered(m);
    ParseRendered(n);
  }

  lemma NegativesInjective(m: nat, n: nat)
    ensures "-" + Digits(m) == "-" + Digits(n) <==> m == n
  {
    DigitsInjective(m, n);
    assert ("-" + Digits(m))[1..] == Digits(m) && ("-" + Digits(n))[1..] == Digits(n);
  }

  /** Different integers print differently, of any size. */
  lemma ToStringInjective(m: int, n: int)
    ensures ToString(m) == ToString(n) <==> m == n
  {
    if m < 0 && n < 0 {
      NegativesInjective(-m, -n);
    } else if m >= 0 && n >= 0 {
      DigitsInjective(m, n);
    } else {
      assert ToString(m)[0] != ToString(n)[0];
    }
  }
}
