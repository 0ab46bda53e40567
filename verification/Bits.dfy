/** Unsigned machine words as natural numbers, with C's bitwise operators defined bit by bit.
    A w-bit word is a nat below Pow2(w); every truncation is written out as `% Pow2(w)`. */
module Bits {
  import opened Arith

  function Pow2(k: nat): (p: nat)
    ensures p >= 1
  {
    if k == 0 then 1 else 2 * Pow2(k - 1)
  }

  function And(x: nat, y: nat): nat
  {
    if x == 0 || y == 0 then 0
    else 2 * And(x / 2, y / 2) + (if x % 2 == 1 && y % 2 == 1 then 1 else 0)
  }

  function Or(x: nat, y: nat): nat
    decreases x + y
  {
    if x == 0 then y else if y == 0 then x
    else 2 * Or(x / 2, y / 2) + (if x % 2 == 1 || y % 2 == 1 then 1 else 0)
  }

  function Xor(x: nat, y: nat): nat
    decreases x + y
  {
    if x == 0 then y else if y == 0 then x
    else 2 * Xor(x / 2, y / 2) + (if x % 2 != y % 2 then 1 else 0)
  }

  // 2^64, the number of values of a uint64_t, uintptr_t or size_t.
  const WORD: nat := 0x1_0000_0000_0000_0000

  // `x << k` on a 64-bit word.
  function Shl(x: nat, k: nat): (r: nat)
    ensures r < WORD
  {
    x * Pow2(k) % WORD
  }

  // `x >> k` on an unsigned word.
  function Shr(x: nat, k: nat): nat
  {
    DivMod(x, Pow2(k));
    x / Pow2(k)
  }

  // `~x` on a 64-bit word.
  function Not(x: nat): nat
    requires x < WORD
  {
    WORD - 1 - x
  }

  // Bit i of x, counted from the least significant.
  predicate Bit(x: nat, i: nat)
  {
    if i == 0 then x % 2 == 1 else Bit(x / 2, i - 1)
  }

  lemma {:induction false} Pow2Add(a: nat, b: nat)
    ensures Pow2(a + b) == Pow2(a) * Pow2(b)
  {
    if a == 0 {
    } else {
      Pow2Add(a - 1, b);
      assert Pow2(a + b) == 2 * Pow2(a - 1 + b);
    }
  }

  lemma Pow2Mono(a: nat, b: nat)
    requires a <= b
    ensures Pow2(a) <= Pow2(b)
  {
    Pow2Add(a, b - a);
    assert Pow2(a) * Pow2(b - a) >= Pow2(a) * 1;
  }

  lemma HalfMod(x: nat, p: nat)
    requires p >= 1
    ensures x % (2 * p) == 2 * (x / 2 % p) + x % 2
    ensures x / (2 * p) == x / 2 / p
  {
    var q, r := x / 2 / p, x / 2 % p;
    assert x / 2 == p * q + r;
    assert x == q * (2 * p) + (2 * r + x % 2) by {
      assert p * q * 2 == q * (2 * p);
    }
    DivModUnique(q, 2 * p, 2 * r + x % 2);
  }

  // `x & ((1 << k) - 1)` keeps the low k bits.
  lemma {:induction false} AndLow(x: nat, k: nat)
    ensures And(x, Pow2(k) - 1) == x % Pow2(k)
  {
    if k == 0 {
    } else if x == 0 {
      ModSmall(0, Pow2(k));
    } else {
      AndLow(x / 2, k - 1);
      HalfMod(x, Pow2(k - 1));
      assert (Pow2(k) - 1) / 2 == Pow2(k - 1) - 1;
    }
  }

  lemma AndEven(x: nat, m: nat)
    ensures And(x, 2 * m) == 2 * And(x / 2, m)
  {
    assert 2 * m / 2 == m;
  }

  lemma {:induction false} AndClear(x: nat, k: nat, w: nat)
    requires k <= w && x < Pow2(w) && Pow2(k) <= Pow2(w)
    ensures And(x, Pow2(w) - Pow2(k)) == x - x % Pow2(k)
    decreases k
  {
    if k == 0 {
      AndLow(x, w);
      ModSmall(x, Pow2(w));
    } else {
      var p, q := Pow2(k - 1), Pow2(w - 1);
      AndClear(x / 2, k - 1, w - 1);
      ClearDouble(x, p, q);
      assert Pow2(w) == 2 * q && Pow2(k) == 2 * p;
    }
  }

  lemma ClearDouble(x: nat, p: nat, q: nat)
    requires 1 <= p <= q && And(x / 2, q - p) == x / 2 - x / 2 % p
    ensures And(x, 2 * q - 2 * p) == x - x % (2 * p)
  {
    hide And;
    AndEven(x, q - p);
    HalfMod(x, p);
  }

  // `x & ~((1 << k) - 1)` clears the low k bits of a 64-bit word.
  lemma AndHigh(x: nat, k: nat)
    requires k <= 64 && x < WORD
    ensures Pow2(k) <= WORD
    ensures And(x, Not(Pow2(k) - 1)) == x - x % Pow2(k)
  {
    WordIsPow2();
    Pow2Mono(k, 64);
    AndClear(x, k, 64);
  }

  lemma WordIsPow2()
    ensures Pow2(64) == WORD
  {
    assert Pow2(8) == 0x100;
    Pow2Add(8, 8);
    Pow2Add(16, 16);
    Pow2Add(32, 32);
  }

  // A power of two divides every larger one.
  lemma Pow2Split(a: nat, m: nat) returns (e: nat)
    requires a <= m
    ensures e > 0 && Pow2(m) == e * Pow2(a) && e == Pow2(m - a)
    ensures a < m ==> e >= 2
  {
    e := Pow2(m - a);
    Pow2Add(m - a, a);
  }

  lemma Pow2Below(a: nat)
    ensures a < 64 ==> 2 * Pow2(a) <= WORD
    ensures a == 64 ==> Pow2(a) == WORD
    ensures a >= 64 ==> Pow2(a) >= WORD
  {
    WordIsPow2();
    if a < 64 {
      Pow2Mono(a + 1, 64);
    } else {
      Pow2Mono(64, a);
    }
  }

  // 2^a * 2^b fits a word when a + b < 64.
  lemma Pow2Product(a: nat, b: nat)
    requires a + b <= 64
    ensures Pow2(a + b) == Pow2(a) * Pow2(b) <= WORD
    ensures a + b < 64 ==> Pow2(a) * Pow2(b) < WORD
    ensures a + b == 64 ==> Pow2(a) * Pow2(b) == WORD
  {
    Pow2Add(a, b);
    Pow2Below(a + b);
  }

  // OR of words with no common bit range is addition.
  lemma {:induction false} OrDisjoint(x: nat, y: nat, k: nat)
    requires x % Pow2(k) == 0 && y < Pow2(k)
    ensures Or(x, y) == x + y
    decreases k
  {
    if x == 0 || y == 0 {
    } else {
      HalfMod(x, Pow2(k - 1));
      OrDisjoint(x / 2, y / 2, k - 1);
    }
  }

  lemma {:induction false} OrComm(x: nat, y: nat)
    ensures Or(x, y) == Or(y, x)
    decreases x + y
  {
    if x != 0 && y != 0 {
      OrComm(x / 2, y / 2);
    }
  }

  lemma {:induction false} OrAssoc(x: nat, y: nat, z: nat)
    ensures Or(x, Or(y, z)) == Or(Or(x, y), z)
    decreases x + y + z
  {
    if x != 0 && y != 0 && z != 0 {
      OrAssoc(x / 2, y / 2, z / 2);
      assert Or(y, z) / 2 == Or(y / 2, z / 2);
      assert Or(x, y) / 2 == Or(x / 2, y / 2);
    }
  }

  // XOR with all ones is complement.
  lemma {:induction false} XorOnes(x: nat, w: nat)
    requires x < Pow2(w)
    ensures Xor(x, Pow2(w) - 1) == Pow2(w) - 1 - x
  {
    if w == 0 || x == 0 {
    } else {
      XorOnes(x / 2, w - 1);
      assert (Pow2(w) - 1) / 2 == Pow2(w - 1) - 1;
    }
  }

  lemma {:induction false} BitOr(x: nat, y: nat, i: nat)
    ensures Bit(Or(x, y), i) == (Bit(x, i) || Bit(y, i))
    decreases i
  {
    if x == 0 || y == 0 {
      BitZero(i);
    } else {
      var o := Or(x / 2, y / 2);
      assert Or(x, y) == 2 * o + (if x % 2 == 1 || y % 2 == 1 then 1 else 0);
      assert Or(x, y) / 2 == o;
      if i > 0 {
        BitOr(x / 2, y / 2, i - 1);
      }
    }
  }

  lemma {:induction false} BitZero(i: nat)
    ensures !Bit(0, i)
  {
    if i > 0 {
      BitZero(i - 1);
    }
  }

  lemma {:induction false} BitPow2(k: nat, i: nat)
    ensures Bit(Pow2(k), i) == (i == k)
  {
    if k == 0 {
      if i > 0 {
        BitZero(i - 1);
      }
    } else if i > 0 {
      BitPow2(k - 1, i - 1);
    }
  }

  lemma {:induction false} BitOnes(w: nat, i: nat)
    requires i < w
    ensures Bit(Pow2(w) - 1, i)
  {
    if i > 0 {
      BitOnes(w - 1, i - 1);
      assert (Pow2(w) - 1) / 2 == Pow2(w - 1) - 1;
    }
  }

  // Two words with the same bits are the same word.
  lemma {:induction false} BitsDetermine(x: nat, y: nat)
    requires forall i: nat :: Bit(x, i) == Bit(y, i)
    ensures x == y
    decreases x + y
  {
    assert Bit(x, 0) == Bit(y, 0);
    if x != 0 || y != 0 {
      if x / 2 + y / 2 < x + y {
        forall i: nat ensures Bit(x / 2, i) == Bit(y / 2, i) {
          assert Bit(x, i + 1) == Bit(y, i + 1);
        }
        BitsDetermine(x / 2, y / 2);
      }
    }
  }

  lemma {:induction false} SomeBit(x: nat, w: nat) returns (i: nat)
    requires 0 < x < Pow2(w)
    ensures i < w && Bit(x, i)
  {
    if x % 2 == 1 {
      i := 0;
    } else {
      var j := SomeBit(x / 2, w - 1);
      i := j + 1;
    }
  }

  // The C idiom `al && !(al & (al - 1))` says exactly that al is a power of two.
  lemma {:induction false} PowerOfTwoIdiom(al: nat) returns (k: nat)
    requires al > 0 && And(al, al - 1) == 0
    ensures al == Pow2(k)
  {
    if al == 1 {
      k := 0;
    } else if al % 2 == 1 {
      AndSelf(al / 2);
      assert false;
    } else {
      assert (al - 1) / 2 == al / 2 - 1;
      assert And(al, al - 1) == 2 * And(al / 2, al / 2 - 1);
      var j := PowerOfTwoIdiom(al / 2);
      k := j + 1;
    }
  }

  lemma {:induction false} AndSelf(x: nat)
    ensures And(x, x) == x
  {
    if x > 0 {
      AndSelf(x / 2);
    }
  }
}
