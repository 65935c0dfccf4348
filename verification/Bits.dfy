/** Bits of natural numbers: exclusive or, shifts and truncation, each pinned bit by bit. */
module Bits {

  import opened Statistics

  /** Bit i of x. */
  function Bit(x: nat, i: nat): (b: nat)
    ensures b < 2
  {
    if i == 0 then x % 2 else Bit(x / 2, i - 1)
  }

  /** Exclusive or of the low `bits` bits. */
  function Xor(a: nat, b: nat, bits: nat): (r: nat) {
    if bits == 0 then 0 else 2 * Xor(a / 2, b / 2, bits - 1) + if a % 2 == b % 2 then 0 else 1
  }

  lemma ModDouble(a: nat, p: nat)
    requires p > 0
    ensures a % (2 * p) == 2 * (a / 2 % p) + a % 2
  {
    var h := a / 2;
    assert a == h / p * (2 * p) + (2 * (h % p) + a % 2);
    Remainder(a, 2 * p, h / p, 2 * (h % p) + a % 2);
  }

  lemma DivDouble(a: nat, p: nat)
    requires p > 0
    ensures a / (2 * p) == a / 2 / p
  {
    var h := a / 2;
    assert a == h / p * (2 * p) + (2 * (h % p) + a % 2);
    Remainder(a, 2 * p, h / p, 2 * (h % p) + a % 2);
  }

  lemma Pow2Plus8(n: nat)
    ensures Pow2(n + 8) == 0x100 * Pow2(n)
  {
    assert Pow2(n + 2) == 4 * Pow2(n);
    assert Pow2(n + 4) == 4 * Pow2(n + 2);
    assert Pow2(n + 6) == 4 * Pow2(n + 4);
  }

  // ---------------------------------------------------------------- bits and numbers

  /** A number below 2^n is its low n bits. */
  lemma {:induction false} BitsDetermine(x: nat, y: nat, n: nat)
    requires x < Pow2(n) && y < Pow2(n) && forall i :: 0 <= i < n ==> Bit(x, i) == Bit(y, i)
    ensures x == y
  {
    if n > 0 {
      forall i | 0 <= i < n - 1 ensures Bit(x / 2, i) == Bit(y / 2, i) {
        assert Bit(x, i + 1) == Bit(y, i + 1);
      }
      BitsDetermine(x / 2, y / 2, n - 1);
      assert Bit(x, 0) == Bit(y, 0);
    }
  }

  lemma {:induction false} HighBitIsZero(x: nat, n: nat, i: nat)
    requires x < Pow2(n) && n <= i
    ensures Bit(x, i) == 0
  {
    if i > 0 {
      HighBitIsZero(x / 2, if n == 0 then 0 else n - 1, i - 1);
    }
  }

  lemma {:induction false} TruncatedBit(x: nat, n: nat, i: nat)
    requires i < n
    ensures Bit(x % Pow2(n), i) == Bit(x, i)
  {
    ModDouble(x, Pow2(n - 1));
    if i > 0 {
      TruncatedBit(x / 2, n - 1, i - 1);
    }
  }

  /** Bit i of q, which is x shifted right by m. */
  lemma {:induction false} ShiftedRightBit(x: nat, m: nat, q: nat, i: nat)
    requires q == x / Pow2(m)
    ensures Bit(q, i) == Bit(x, i + m)
    decreases m
  {
    if m > 0 {
      DivDouble(x, Pow2(m - 1));
      ShiftedRightBit(x / 2, m - 1, q, i);
    }
  }

  lemma {:induction false} ShiftedLeftBit(x: nat, m: nat, i: nat)
    ensures Bit(x * Pow2(m), i) == if i < m then 0 else Bit(x, i - m)
    decreases m
  {
    if m > 0 {
      var y := x * Pow2(m - 1);
      assert x * Pow2(m) == 2 * y;
      if i > 0 {
        ShiftedLeftBit(x, m - 1, i - 1);
      }
    }
  }

  // ---------------------------------------------------------------- exclusive or

  lemma {:induction false} XorFitsBits(a: nat, b: nat, bits: nat)
    ensures Xor(a, b, bits) < Pow2(bits)
  {
    if bits > 0 {
      XorFitsBits(a / 2, b / 2, bits - 1);
    }
  }

  /** Main result: a bit of the exclusive or is set exactly when the two bits differ. */
  lemma {:induction false} XorBit(a: nat, b: nat, bits: nat, i: nat)
    requires i < bits
    ensures Bit(Xor(a, b, bits), i) == if Bit(a, i) == Bit(b, i) then 0 else 1
  {
    if i > 0 {
      XorBit(a / 2, b / 2, bits - 1, i - 1);
    }
  }

  /** A second exclusive or with the same value undoes the first. */
  lemma XorTwice(a: nat, b: nat, bits: nat)
    requires a < Pow2(bits)
    ensures Xor(Xor(a, b, bits), b, bits) == a
  {
    XorFitsBits(Xor(a, b, bits), b, bits);
    forall i | 0 <= i < bits ensures Bit(Xor(Xor(a, b, bits), b, bits), i) == Bit(a, i) {
      XorBit(Xor(a, b, bits), b, bits, i);
      XorBit(a, b, bits, i);
    }
    BitsDetermine(Xor(Xor(a, b, bits), b, bits), a, bits);
  }

  lemma XorCommutes(a: nat, b: nat, bits: nat)
    ensures Xor(a, b, bits) == Xor(b, a, bits)
  {
    XorFitsBits(a, b, bits);
    XorFitsBits(b, a, bits);
    forall i | 0 <= i < bits ensures Bit(Xor(a, b, bits), i) == Bit(Xor(b, a, bits), i) {
      XorBit(a, b, bits, i);
      XorBit(b, a, bits, i);
    }
    BitsDetermine(Xor(a, b, bits), Xor(b, a, bits), bits);
  }

  // ---------------------------------------------------------------- odd multipliers

  /** A multiplier with an inverse modulo m loses nothing. */
  lemma InvertibleMultiplier(x: int, y: int, k: int, inverse: int, c: int, m: int, a: int)
    requires 0 <= x < m && 0 <= y < m && k * inverse == 1 + c * m
    requires (x * k + a) % m == (y * k + a) % m
    ensures x == y
  {
    var p, q := (x * k + a) / m, (y * k + a) / m;
    var d := x - y;
    assert x * k + a - p * m == y * k + a - q * m;
    MultipleOfModulus(d, k, p - q, m);
    assert d * (k * inverse) == (p - q) * m * inverse by {
      assert d * k == (p - q) * m;
      assert d * (k * inverse) == d * k * inverse;
    }
    assert d == m * ((p - q) * inverse - c * d) by {
      assert d * (1 + c * m) == d + c * d * m;
    }
    SmallIsZero(d, (p - q) * inverse - c * d, m);
  }

  lemma MultipleOfModulus(d: int, k: int, r: int, m: int)
    ensures d * k - r * m == 0 <==> d * k == r * m
  {
  }

  lemma SmallIsZero(d: int, r: int, m: int)
    requires -m < d < m && d == m * r
    ensures d == 0
  {
  }
}
