/** Products, quotients and remainders of natural numbers. */
module Arith {

  lemma MulAssoc(x: int, y: int, z: int)
    ensures x * y * z == x * (y * z)
  {
  }

  lemma MulLe(x: int, y: int, d: nat)
    requires x <= y
    ensures x * d <= y * d
  {
  }

  lemma Distribute(x: int, y: int, d: int)
    ensures (x + y) * d == x * d + y * d
    ensures (x - y) * d == x * d - y * d
  {
  }

  lemma Succ(k: int, d: int)
    ensures (k + 1) * d == k * d + d
  {
  }

  // A multiple of d that is smaller than d in absolute value is 0.
  lemma SmallMultiple(k: int, d: nat)
    requires 0 - d < k * d < d
    ensures k == 0
  {
    if k >= 1 {
      MulLe(1, k, d);
    } else if k <= -1 {
      MulLe(k, -1, d);
    }
  }

  // Quotient and remainder are unique, for negative dividends too.
  lemma DivModUnique(q: int, d: nat, r: nat)
    requires r < d
    ensures (q * d + r) / d == q && (q * d + r) % d == r
  {
    var x := q * d + r;
    assert x == x / d * d + x % d;
    Distribute(x / d, q, d);
    SmallMultiple(x / d - q, d);
  }

  lemma ModSmall(x: nat, d: nat)
    requires x < d
    ensures x % d == x && x / d == 0 && x % 1 == 0
  {
  }

  lemma MultipleMod(k: int, d: nat)
    requires d > 0
    ensures k * d % d == 0 && k * d / d == k
  {
    DivModUnique(k, d, 0);
  }

  lemma DivMod(x: int, d: nat)
    requires d > 0
    ensures x == x / d * d + x % d && 0 <= x % d < d
    ensures x >= 0 ==> x / d >= 0
  {
  }

  // Reducing modulo a multiple of a first does not change the remainder modulo a.
  lemma ModMod(x: nat, e: nat, a: nat)
    requires e > 0 && a > 0
    ensures e * a > 0
    ensures x % (e * a) % a == x % a
  {
    MulLe(1, e, a);
    DivMod(x, e * a);
    var q, r := x / (e * a), x % (e * a);
    DivMod(r, a);
    MulAssoc(q, e, a);
    Distribute(q * e, r / a, a);
    DivModUnique(q * e + r / a, a, r % a);
  }

  // Between a multiple of a and a larger multiple of a there is room for a.
  lemma MultipleRoom(x: nat, e: nat, a: nat)
    requires a > 0 && x % a == 0 && x < e * a
    ensures x + a <= e * a
  {
    DivMod(x, a);
    if x / a >= e {
      MulLe(e, x / a, a);
    }
    MulLe(x / a + 1, e, a);
    Distribute(x / a, 1, a);
  }

  lemma QuotientBelow(x: nat, d: nat, q: nat)
    requires d > 0 && x < q * d
    ensures 0 <= x / d < q
  {
    DivMod(x, d);
    if x / d >= q {
      MulLe(q, x / d, d);
    }
  }

  lemma QuotientAtMost(y: nat, d: nat)
    requires d > 0
    ensures 0 <= y / d <= y
  {
    DivMod(y, d);
    MulLe(1, d, y / d);
  }

  // Floor division of a negative number through the division of its complement.
  lemma FloorOfNegative(y: int, d: nat)
    requires y >= 0 && d > 0
    ensures (-y - 1) / d == -(y / d) - 1
  {
    var q, r := y / d, y % d;
    DivMod(y, d);
    Distribute(-q, 1, d);
    assert -q * d == -(q * d);
    DivModUnique(-q - 1, d, d - 1 - r);
  }
}
