/** Machine integers and their decimal rendering, as `ostream <<` writes them. */
module Decimal {
  import opened Quotients

  const U64_LIMIT: int := 0x1_0000_0000_0000_0000
  const U64_MAX: u64 := 0xFFFF_FFFF_FFFF_FFFF

  type u64 = x: int | 0 <= x < 0x1_0000_0000_0000_0000

  predicate IsDigit(c: char) {
    '0' <= c <= '9'
  }

  /** The characters `istream >>` skips before a number (the C locale's blanks). */
  predicate IsBlank(c: char) {
    c == ' ' || '\t' <= c <= '\r'
  }

  /** The blanks are space, tab, line feed, vertical tab, form feed and carriage return. */
  lemma {:induction false} BlanksAre(c: char)
    ensures IsBlank(c) <==> c in {' ', '\t', '\n', 11 as char, 12 as char, '\r'}
  {
  }

  predicate AllDigits(s: string) {
    forall i :: 0 <= i < |s| ==> IsDigit(s[i])
  }

  function Show(n: nat): (s: string)
    ensures 1 <= |s| && AllDigits(s)
  {
    if n < 10 then [n as char + '0'] else Show(n / 10) + [(n % 10) as char + '0']
  }

  function Value(s: string): nat
    requires AllDigits(s)
  {
    if s == [] then 0 else Value(s[..|s| - 1]) * 10 + (s[|s| - 1] as int - '0' as int)
  }

  function Power10(n: nat): (p: nat)
    ensures p > 0
  {
    if n == 0 then 1 else 10 * Power10(n - 1)
  }

  /** The digit of 10 to the power `i`. */
  function Digit(n: nat, i: nat): char {
    (n / Power10(i) % 10) as char + '0'
  }

  lemma {:induction false} LastDigit(t: nat, d: nat)
    requires d < 10
    ensures (10 * t + d) / 10 == t && Digit(10 * t + d, 0) == d as char + '0'
  {
    assert Power10(0) == 1;
  }

  /** A number is given by its digits, the last one being the digit of 10 to the power 0. */
  lemma {:induction false} ValueByDigits(s: string, i: nat)
    requires AllDigits(s) && i < |s|
    ensures s[|s| - 1 - i] == Digit(Value(s), i)
    decreases i
  {
    var t := s[..|s| - 1];
    LastDigit(Value(t), s[|s| - 1] as int - '0' as int);
    if i > 0 {
      ValueByDigits(t, i - 1);
      DivideTwice(Value(s), 10, Power10(i - 1));
    }
  }

  lemma {:induction false} ValueIsBelow(s: string)
    requires AllDigits(s)
    ensures Value(s) < Power10(|s|)
  {
    if s != [] {
      ValueIsBelow(s[..|s| - 1]);
    }
  }

  /** A rendered number has its own digits and no zero in front. */
  lemma {:induction false} DigitsOfShow(n: nat)
    ensures forall i :: 0 <= i < |Show(n)| ==> Show(n)[|Show(n)| - 1 - i] == Digit(n, i)
    ensures n < Power10(|Show(n)|) && (n > 0 ==> Show(n)[0] != '0')
  {
    ValueOfShow(n);
    ValueIsBelow(Show(n));
    forall i | 0 <= i < |Show(n)| ensures Show(n)[|Show(n)| - 1 - i] == Digit(n, i) {
      ValueByDigits(Show(n), i);
    }
    if n > 0 {
      NoLeadingZero(n);
    }
  }

  lemma {:induction false} NoLeadingZero(n: nat)
    requires n > 0
    ensures Show(n)[0] != '0'
  {
    if n >= 10 {
      NoLeadingZero(n / 10);
    }
  }

  /** Reading a rendered number gives the number back. */
  lemma {:induction false} ValueOfShow(n: nat)
    ensures Value(Show(n)) == n
  {
    if n < 10 {
      assert Show(n)[..0] == [];
    } else {
      ValueOfShow(n / 10);
      assert Show(n)[..|Show(n)| - 1] == Show(n / 10);
    }
  }
}
