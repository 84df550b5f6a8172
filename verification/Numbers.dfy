/** Decimal numerals. */
module Numbers {

  predicate IsDigit(c: char) {
    '0' <= c <= '9'
  }

  predicate AllDigits(s: string) {
    forall i | 0 <= i < |s| :: IsDigit(s[i])
  }

  function Digit(d: nat): (c: char)
    requires d < 10
    ensures IsDigit(c) && c as int - '0' as int == d
  {
    (d + '0' as int) as char
  }

  /** The decimal digits of `n`, without leading zeros. */
  function Digits(n: nat): (s: string)
    ensures s != "" && AllDigits(s)
  {
    if n < 10 then [Digit(n)] else Digits(n / 10) + [Digit(n % 10)]
  }

  /** `strconv.Itoa`, and what "%d" prints. */
  function Itoa(n: int): string {
    if n < 0 then "-" + Digits(-n) else Digits(n)
  }

  function Number(s: string): nat
    requires AllDigits(s)
  {
    if s == "" then 0 else Number(s[..|s| - 1]) * 10 + (s[|s| - 1] as int - '0' as int)
  }

  lemma {:induction false} NumberOfDigits(n: nat)
    ensures Number(Digits(n)) == n
  {
    if n < 10 {
      assert Digits(n)[..0] == "";
    } else {
      var s := Digits(n);
      assert s[..|s| - 1] == Digits(n / 10);
      NumberOfDigits(n / 10);
    }
  }

  /** Different numbers print differently, and no numeral holds a colon. */
  lemma ItoaInjective(m: int, n: int)
    ensures Itoa(m) == Itoa(n) <==> m == n
    ensures ':' !in Itoa(m)
  {
    hide Digits, Number;
    if Itoa(m) == Itoa(n) {
      var s, t := Digits(if m < 0 then -m else m), Digits(if n < 0 then -n else n);
      NumberOfDigits(if m < 0 then -m else m);
      NumberOfDigits(if n < 0 then -n else n);
      assert Itoa(m)[0] == if m < 0 then '-' else s[0];
      assert Itoa(n)[0] == if n < 0 then '-' else t[0];
      if m < 0 {
        assert Itoa(m)[1..] == s && Itoa(n)[1..] == t;
      }
    }
  }
}
