/** Whole numbers as Python's `str` spells them and `int` reads them back. */
module Decimal {

  predicate IsDigit(c: char) { '0' <= c <= '9' }

  /** What `str.isdecimal` answers of the ASCII texts written here. */
  predicate IsDecimal(s: string) {
    s != "" && forall i | 0 <= i < |s| :: IsDigit(s[i])
  }

  function DigitOf(n: nat): (c: char)
    requires n < 10
    ensures IsDigit(c)
  {
    ('0' as int + n) as char
  }

  function DigitValue(c: char): (n: nat)
    requires IsDigit(c)
    ensures n < 10 && DigitOf(n) == c
  {
    c as int - '0' as int
  }

  /** The number a run of digits spells, leading zeros and all. */
  function Value(s: string): nat
    requires forall i | 0 <= i < |s| :: IsDigit(s[i])
    decreases |s|
  {
    if s == "" then 0 else 10 * Value(s[..|s| - 1]) + DigitValue(s[|s| - 1])
  }

  /** The one spelling of a count: reading it back gives the count, and no zero leads it but zero's own. */
  function Spell(n: nat): (s: string)
    ensures IsDecimal(s) && Value(s) == n
    ensures s[0] == '0' ==> s == "0"
  {
    if n < 10 then
      var s := [DigitOf(n)];
      assert s[..0] == "";
      s
    else
      var s := Spell(n / 10) + [DigitOf(n % 10)];
      assert s[..|s| - 1] == Spell(n / 10);
      s
  }

  function SpellInt(z: int): (s: string) {
    if z < 0 then "-" + Spell(-z) else Spell(z)
  }

  /** A decimal spelling of an integer is that of a count, and reads back as it. */
  lemma SpellIntDecimal(z: int)
    ensures IsDecimal(SpellInt(z)) <==> z >= 0
    ensures z >= 0 ==> Value(SpellInt(z)) == z
  {
    assert !IsDigit('-');
    if z < 0 {
      assert SpellInt(z)[0] == '-';
    }
  }
}
