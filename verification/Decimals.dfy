/** Decimal numbers as byte texts: fmt's %d and strconv.AppendInt for naturals, and
    reading them back. */
module Decimals {
  import opened Texts

  predicate IsDigit(b: byte) {
    0x30 <= b <= 0x39
  }

  function Digits(n: nat): (d: Text)
    ensures d != [] && forall i :: 0 <= i < |d| ==> IsDigit(d[i])
  {
    if n < 10 then [0x30 + n] else Digits(n / 10) + [0x30 + n % 10]
  }

  /** The number the digits of a text write, whatever its size; other bytes are skipped. */
  function Decimal(f: Text): nat {
    if f == [] then 0
    else
      var c: int := f[|f| - 1];
      if IsDigit(f[|f| - 1]) then Decimal(f[..|f| - 1]) * 10 + (c - 0x30) else Decimal(f[..|f| - 1])
  }

  lemma {:induction false} DecimalOfDigits(n: nat)
    ensures Decimal(Digits(n)) == n
  {
    if n >= 10 {
      DecimalOfDigits(n / 10);
      assert Digits(n)[..|Digits(n)| - 1] == Digits(n / 10);
    } else {
      assert Digits(n)[..0] == [];
    }
  }

  function Pow10(k: nat): nat {
    if k == 0 then 1 else 10 * Pow10(k - 1)
  }

  lemma {:induction false} DigitCount(n: nat, k: nat)
    requires k >= 1 && n < Pow10(k)
    ensures |Digits(n)| <= k
  {
    if n >= 10 {
      DigitCount(n / 10, k - 1);
    }
  }
}
