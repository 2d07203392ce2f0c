// Decimal rendering of numbers, as used by the generators to name nets,
// instances and control lines ("X%u", "S%d_%d", "dfxtp_%d_i", "n_%u").

module Names {

  function Digit(d: nat): char
    requires d < 10
  {
    (('0' as int) + d) as char
  }

  function Decimal(n: nat): (s: string)
    ensures s != ""
    ensures forall c | c in s :: '0' <= c <= '9'
  {
    if n < 10 then [Digit(n)] else Decimal(n / 10) + [Digit(n % 10)]
  }

  /** The number that a row of digits stands for. */
  function Reading(s: string): int {
    if s == "" then 0 else 10 * Reading(s[..|s| - 1]) + (s[|s| - 1] as int - '0' as int)
  }

  /** Reading the rendering of a number gives the number. */
  lemma {:induction false} DecimalReads(n: nat)
    ensures Reading(Decimal(n)) == n
    ensures n > 0 ==> Decimal(n)[0] != '0'
  {
    var s := Decimal(n);
    if n >= 10 {
      DecimalReads(n / 10);
      assert s[..|s| - 1] == Decimal(n / 10);
    } else {
      assert s[..|s| - 1] == "";
    }
  }

  /** Two numbers with the same decimal rendering are the same number. */
  lemma {:induction false} DecimalInjective(a: nat, b: nat)
    requires Decimal(a) == Decimal(b)
    ensures a == b
  {
    var s, t := Decimal(a), Decimal(b);
    assert s[|s| - 1] == Digit(a % 10) && t[|t| - 1] == Digit(b % 10);
    assert a % 10 == b % 10;
    if a < 10 || b < 10 {
      assert |s| == 1;
    } else {
      assert s[..|s| - 1] == Decimal(a / 10) && t[..|t| - 1] == Decimal(b / 10);
      DecimalInjective(a / 10, b / 10);
    }
  }

  /** Prefixing with the same text keeps names distinct. */
  lemma PrefixedDecimalInjective(prefix: string, a: nat, b: nat)
    requires prefix + Decimal(a) == prefix + Decimal(b)
    ensures a == b
  {
    assert (prefix + Decimal(a))[|prefix|..] == Decimal(a);
    assert (prefix + Decimal(b))[|prefix|..] == Decimal(b);
    DecimalInjective(a, b);
  }
}
