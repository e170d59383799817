/** Food ids: a letter followed by a counter in decimal. */
module FoodIds {

  function Digit(d: nat): char
    requires d < 10
  {
    "0123456789"[d]
  }

  function Decimal(n: nat): string
  {
    if n < 10 then [Digit(n)] else Decimal(n / 10) + [Digit(n % 10)]
  }

  function DigitValue(c: char): int
  {
    if '0' <= c <= '9' then c as int - '0' as int else 0
  }

  function ParseDecimal(s: string): int
  {
    if s == "" then 0 else 10 * ParseDecimal(s[..|s| - 1]) + DigitValue(s[|s| - 1])
  }

  lemma DigitRoundTrip(d: nat)
    requires d < 10
    ensures DigitValue(Digit(d)) == d
  {
    assert d == 0 || d == 1 || d == 2 || d == 3 || d == 4 || d == 5 || d == 6 || d == 7 || d == 8 || d == 9;
  }

  lemma {:induction false} DecimalRoundTrip(n: nat)
    ensures ParseDecimal(Decimal(n)) == n
  {
    var s := Decimal(n);
    DigitRoundTrip(n % 10);
    if n < 10 {
      assert s[..|s| - 1] == "";
    } else {
      DecimalRoundTrip(n / 10);
      assert s[..|s| - 1] == Decimal(n / 10);
    }
  }

  function FoodId(n: nat): string
  {
    "f" + Decimal(n)
  }

  lemma FoodIdsAreDistinct(m: nat, n: nat)
    requires FoodId(m) == FoodId(n)
    ensures m == n
  {
    assert FoodId(m)[1..] == Decimal(m) && FoodId(n)[1..] == Decimal(n);
    DecimalRoundTrip(m);
    DecimalRoundTrip(n);
  }

  /** Every id handed out while the counter ran up to n. */
  ghost function Issued(n: nat): set<string>
  {
    set k | 1 <= k <= n :: FoodId(k)
  }

  lemma NextIdIsNew(n: nat)
    ensures FoodId(n + 1) !in Issued(n)
    ensures Issued(n + 1) == Issued(n) + {FoodId(n + 1)}
  {
    if FoodId(n + 1) in Issued(n) {
      var k :| 1 <= k <= n && FoodId(k) == FoodId(n + 1);
      FoodIdsAreDistinct(k, n + 1);
    }
  }

  lemma IssuedGrows(m: nat, n: nat)
    requires m <= n
    ensures Issued(m) <= Issued(n)
  {
  }
}
