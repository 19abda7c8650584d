/** Natural numbers in decimal, as `str` prints them. */
module DecimalText {
  function Digit(n: nat): char
    requires n < 10
  {
    "0123456789"[n]
  }

  function Decimal(n: nat): (text: string)
    ensures text != ""
  {
    if n < 10 then [Digit(n)] else Decimal(n / 10) + [Digit(n % 10)]
  }

  /** What a text of digits is worth. */
  function Worth(text: string): int {
    if text == "" then 0 else 10 * Worth(text[..|text| - 1]) + (text[|text| - 1] as int - '0' as int)
  }

  /** Digits alone, without a leading zero, worth the number. */
  lemma {:induction false} DecimalIsWorth(n: nat)
    ensures Worth(Decimal(n)) == n
    ensures forall c :: c in Decimal(n) ==> '0' <= c <= '9'
    ensures n > 0 ==> Decimal(n)[0] != '0'
  {
    var text := Decimal(n);
    assert text[|text| - 1] == Digit(n % 10);
    assert Digit(n % 10) as int - '0' as int == n % 10;
    if n >= 10 {
      DecimalIsWorth(n / 10);
      assert text[..|text| - 1] == Decimal(n / 10);
    } else {
      assert text[..0] == "";
    }
  }

  lemma {:induction false} DecimalInjective(m: nat, n: nat)
    ensures Decimal(m) == Decimal(n) ==> m == n
    ensures '\0' !in Decimal(m)
    decreases m
  {
    if m >= 10 {
      DecimalInjective(m / 10, n / 10);
    }
    if Decimal(m) == Decimal(n) {
      var a, b := Decimal(m), Decimal(n);
      assert |a| == 1 <==> m < 10;
      assert |b| == 1 <==> n < 10;
      assert a[|a| - 1] == Digit(m % 10) && b[|b| - 1] == Digit(n % 10);
      if m >= 10 {
        assert a[..|a| - 1] == Decimal(m / 10) && b[..|b| - 1] == Decimal(n / 10);
      }
    }
  }
}
