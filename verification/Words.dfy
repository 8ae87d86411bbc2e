/** Go's `uint64` words as naturals below 2^64, with the bitwise operators the two
    sliding bitmaps use, each read off bit by bit. */
module Words {

  const WORD: int := 0x1_0000_0000_0000_0000

  type Word = w: int | 0 <= w < WORD

  /** Bit `i` of a natural, 0 being the least significant. */
  predicate Bit(w: nat, i: nat) {
    if i == 0 then w % 2 == 1 else Bit(w / 2, i - 1)
  }

  /** Digit-wise `x | y`. */
  function Or(x: nat, y: nat): nat {
    if x == 0 && y == 0 then 0
    else 2 * Or(x / 2, y / 2) + (if x % 2 == 1 || y % 2 == 1 then 1 else 0)
  }

  /** Digit-wise `x & y`. */
  function And(x: nat, y: nat): nat {
    if x == 0 then 0
    else 2 * And(x / 2, y / 2) + (if x % 2 == 1 && y % 2 == 1 then 1 else 0)
  }

  /** `w << n`: each step doubles and drops the bit that leaves the word. */
  function Shl(w: Word, n: nat): Word {
    if n == 0 then w else 2 * Shl(w, n - 1) % WORD
  }

  /** `w >> n` */
  function Shr(w: Word, n: nat): Word {
    if n == 0 then w else Shr(w / 2, n - 1)
  }

  function Pow2(n: nat): (p: nat)
    ensures p > 0
  {
    if n == 0 then 1 else 2 * Pow2(n - 1)
  }

  lemma {:induction false} OrBounded(x: nat, y: nat, n: nat)
    requires x < Pow2(n) && y < Pow2(n)
    ensures Or(x, y) < Pow2(n)
  {
    if n > 0 {
      OrBounded(x / 2, y / 2, n - 1);
    }
  }

  lemma {:induction false} PowWord()
    ensures Pow2(64) == WORD
  {
    assert Pow2(8) == 0x100;
    assert Pow2(16) == 0x1_0000;
    assert Pow2(24) == 0x100_0000;
    assert Pow2(32) == 0x1_0000_0000;
    assert Pow2(40) == 0x100_0000_0000;
    assert Pow2(48) == 0x1_0000_0000_0000;
    assert Pow2(56) == 0x100_0000_0000_0000;
  }

  /** The word-sized or. */
  function OrWord(x: Word, y: Word): (w: Word) {
    PowWord();
    OrBounded(x, y, 64);
    Or(x, y)
  }

  lemma {:induction false} BitZero(i: nat)
    ensures !Bit(0, i)
  {
    if i > 0 {
      BitZero(i - 1);
    }
  }

  lemma {:induction false} BitOr(x: nat, y: nat, i: nat)
    ensures Bit(Or(x, y), i) == (Bit(x, i) || Bit(y, i))
  {
    if x == 0 && y == 0 {
      BitZero(i);
    } else if i > 0 {
      BitOr(x / 2, y / 2, i - 1);
    }
  }

  lemma {:induction false} BitAnd(x: nat, y: nat, i: nat)
    ensures Bit(And(x, y), i) == (Bit(x, i) && Bit(y, i))
  {
    if x == 0 {
      BitZero(i);
    } else if i > 0 {
      BitAnd(x / 2, y / 2, i - 1);
    }
  }

  lemma {:induction false} BitShr(w: Word, n: nat, i: nat)
    ensures Bit(Shr(w, n), i) == Bit(w, n + i)
  {
    if n > 0 {
      BitShr(w / 2, n - 1, i);
    }
  }

  lemma {:induction false} BitHigh(w: nat, n: nat, i: nat)
    requires w < Pow2(n) && n <= i
    ensures !Bit(w, i)
  {
    if n == 0 {
      BitZero(i);
    } else {
      BitHigh(w / 2, n - 1, i - 1);
    }
  }

  lemma ModHalf(w: nat, p: nat)
    requires p > 0
    ensures (w % (2 * p)) % 2 == w % 2
    ensures (w % (2 * p)) / 2 == (w / 2) % p
  {
    var q, r := Divided(w, 2 * p);
    DoubleTimes(p, q);
    HalfOf(w, p, q, r);
  }

  lemma Divided(w: nat, m: nat) returns (q: nat, r: nat)
    requires m > 0
    ensures w == m * q + r && r < m && r == w % m
  {
    q, r := w / m, w % m;
  }

  lemma DoubleTimes(p: nat, q: nat)
    ensures (2 * p) * q == 2 * (p * q)
  {}

  lemma HalfOf(w: nat, p: nat, q: nat, r: nat)
    requires w == 2 * (p * q) + r && r < 2 * p
    ensures r % 2 == w % 2 && r / 2 == (w / 2) % p
  {
    HalfSum(p * q, r);
    ModUnique(w / 2, p, q, r / 2);
  }

  lemma HalfSum(a: nat, r: nat)
    ensures (2 * a + r) / 2 == a + r / 2 && (2 * a + r) % 2 == r % 2
  {}

  lemma {:induction false} MulGap(p: nat, a: nat, b: nat)
    requires a < b
    ensures p * a + p <= p * b
  {
    if a + 1 < b {
      MulGap(p, a, b - 1);
    }
  }

  lemma ModUnique(w: nat, p: nat, q: nat, r: nat)
    requires w == p * q + r && r < p
    ensures w % p == r
  {
    if q < w / p {
      MulGap(p, q, w / p);
    } else if q > w / p {
      MulGap(p, w / p, q);
    }
  }

  lemma {:induction false} BitMod(w: nat, n: nat, i: nat)
    requires i < n
    ensures Bit(w % Pow2(n), i) == Bit(w, i)
  {
    ModHalf(w, Pow2(n - 1));
    if i > 0 {
      BitMod(w / 2, n - 1, i - 1);
    }
  }

  lemma {:induction false} BitShl(w: Word, n: nat, i: nat)
    ensures Bit(Shl(w, n), i) == (n <= i < 64 && Bit(w, i - n))
  {
    PowWord();
    if i >= 64 {
      BitHigh(Shl(w, n), 64, i);
    } else if n > 0 {
      BitMod(2 * Shl(w, n - 1), 64, i);
      if i > 0 {
        BitShl(w, n - 1, i - 1);
      }
    }
  }

  lemma {:induction false} SomeBit(w: nat) returns (i: nat)
    requires w != 0
    ensures Bit(w, i)
  {
    if w % 2 == 1 {
      i := 0;
    } else {
      i := SomeBit(w / 2);
      i := i + 1;
    }
  }

  /** `mask := uint64(1) << n`: testing and setting it tests and sets bit `n`. */
  lemma BitMask(w: Word, n: nat)
    requires n < 64
    ensures And(w, Shl(1, n)) != 0 <==> Bit(w, n)
    ensures forall i: nat :: Bit(OrWord(w, Shl(1, n)), i) == (i == n || Bit(w, i))
  {
    forall i: nat
      ensures Bit(Shl(1, n), i) == (i == n)
      ensures Bit(OrWord(w, Shl(1, n)), i) == (i == n || Bit(w, i))
    {
      BitShl(1, n, i);
      if i > n {
        BitZero(i - n - 1);
      }
      BitOr(w, Shl(1, n), i);
    }
    BitAnd(w, Shl(1, n), n);
    if And(w, Shl(1, n)) == 0 {
      BitZero(n);
    } else {
      var i := SomeBit(And(w, Shl(1, n)));
      BitAnd(w, Shl(1, n), i);
    }
  }
}
