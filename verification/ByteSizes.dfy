/** Human-readable byte counts. */
module ByteSizes {
  import opened Arithmetic

  datatype Size = Plain(bytes: int) | Scaled(bytes: int, div: int, unit: char)

  const UNITS: string := "KMGTPE"

  /** For every 64-bit count the loop ends with a divisor of 1024 to the unit's rank that brings the count into the
      range from 1 to just under 1024, and neither the divisor nor the unit's index overflows. */
  method FormatBytes(bytes: int) returns (size: Size, exp: nat)
    requires -0x8000_0000_0000_0000 <= bytes < 0x8000_0000_0000_0000
    ensures bytes < 1024 ==> size == Plain(bytes)
    ensures bytes >= 1024 ==>
              && exp < |UNITS| && size == Scaled(bytes, Pow(1024, exp + 1), UNITS[exp])
              && size.div <= bytes < 1024 * size.div && size.div < 0x8000_0000_0000_0000
  {
    exp := 0;
    if bytes < 1024 {
      return Plain(bytes), exp;
    }
    var div := 1024;
    var n := bytes / 1024;
    while n >= 1024
      invariant div == Pow(1024, exp + 1) && n >= 1
      invariant n * div <= bytes < (n + 1) * div
      invariant exp <= 5 && div > 0
      decreases n
    {
      ghost var n0, div0 := n, div;
      DivisorFits(exp, div, n, bytes);
      div := div * 1024;
      exp := exp + 1;
      n := n / 1024;
      Rescale(n0, div0, bytes);
    }
    MulKeepsOrder(1, n, div);
    MulKeepsOrder(n + 1, 1024, div);
    size := Scaled(bytes, div, UNITS[exp]);
  }

  lemma MulKeepsOrder(x: int, y: int, d: int)
    requires x <= y && d >= 0
    ensures x * d <= y * d
  {
  }

  lemma Rescale(n: int, div: int, bytes: int)
    requires n >= 0 && div > 0 && n * div <= bytes < (n + 1) * div
    ensures n / 1024 * (div * 1024) <= bytes < (n / 1024 + 1) * (div * 1024)
  {
    var q := n / 1024;
    MulKeepsOrder(1024 * q, n, div);
    MulKeepsOrder(n + 1, 1024 * (q + 1), div);
    assert q * (div * 1024) == (1024 * q) * div;
    assert (q + 1) * (div * 1024) == (1024 * (q + 1)) * div;
  }

  /** While the loop goes on the divisor is still far from its last value. */
  lemma DivisorFits(exp: nat, div: int, n: int, bytes: int)
    requires exp <= 5 && div == Pow(1024, exp + 1) && n >= 1024 && n * div <= bytes < 0x8000_0000_0000_0000
    ensures exp < 5
  {
    assert Pow(1024, 3) == 0x4000_0000;
    assert Pow(1024, 6) == 0x1000_0000_0000_0000;
    MulKeepsOrder(1024, n, div);
  }
}
