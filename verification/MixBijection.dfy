/** The mixing round loses nothing: each of its steps is undone by an inverse, through any number of
    rounds; and the checksum tells apart byte strings that differ in one byte. */
module MixBijection {

  import opened Statistics
  import opened Bits
  import opened Kernels
  import opened ChunkedDispatch

  const WORD: nat := 0x1_0000_0000

  lemma WordIsPow2(n: nat)
    requires n == 32
    ensures Pow2(n) == WORD
  {
    Pow2Plus8(n - 32);
    Pow2Plus8(n - 24);
    Pow2Plus8(n - 16);
    Pow2Plus8(n - 8);
  }

  // ---------------------------------------------------------------- the shift to the right

  /** Bit i of the exclusive or of a word and what it is mixed with, which fits a word. */
  lemma MixedBit(x: U32, y: U32, n: nat, i: nat)
    requires n == 32 && i < n
    ensures Xor(x, y, n) < WORD && Bit(Xor(x, y, n), i) == if Bit(x, i) == Bit(y, i) then 0 else 1
  {
    WordIsPow2(n);
    XorFitsBits(x, y, n);
    XorBit(x, y, n, i);
  }

  /** Bit i of a word mixed with itself shifted right by 13. */
  lemma RightBit(x: U32, i: nat)
    requires i < 32
    ensures Bit(XorShiftRight(x), i) == if Bit(x, i) == Bit(x, i + 13) then 0 else 1
  {
    var q := x / 0x2000;
    MixedBit(x, q, 32, i);
    ShiftedBy13(x, q, 13, i);
  }

  lemma ShiftedBy13(x: nat, q: nat, m: nat, i: nat)
    requires m == 13 && q == x / 0x2000
    ensures Bit(q, i) == Bit(x, i + m)
  {
    Pow2Plus8(m - 8);
    assert Pow2(m - 8) == 4 * Pow2(m - 10) && Pow2(m - 10) == 4 * Pow2(m - 12);
    ShiftedRightBit(x, m, q, i);
  }

  /** The shift to the right is undone by feeding the result back, 13 bits at a time. */
  function UndoRight(y: U32, passes: nat): (x: U32) {
    if passes == 0 then 0 else Xor32(y, UndoRight(y, passes - 1) / 0x2000)
  }

  /** After each pass 13 more bits, from the top, are those of the original word. */
  lemma {:induction false} UndoRightBits(x: U32, passes: nat, i: nat)
    requires i < 32 && i + 13 * passes >= 32
    ensures Bit(UndoRight(XorShiftRight(x), passes), i) == Bit(x, i)
  {
    var before := UndoRight(XorShiftRight(x), passes - 1);
    if i + 13 < 32 {
      UndoRightBits(x, passes - 1, i + 13);
    } else {
      TopBitIsZero(before, 32, i + 13);
      TopBitIsZero(x, 32, i + 13);
    }
    FedBackRight(x, before, i);
  }

  /** One pass: a bit comes right when the bit 13 above it is. */
  lemma FedBackRight(x: U32, before: U32, i: nat)
    requires i < 32 && Bit(before, i + 13) == Bit(x, i + 13)
    ensures Bit(Xor32(XorShiftRight(x), before / 0x2000), i) == Bit(x, i)
  {
    var q: U32 := before / 0x2000;
    RightBit(x, i);
    MixedBit(XorShiftRight(x), q, 32, i);
    ShiftedBy13(before, q, 13, i);
  }

  lemma TopBitIsZero(x: U32, n: nat, i: nat)
    requires n == 32 <= i
    ensures Bit(x, i) == 0
  {
    WordIsPow2(n);
    HighBitIsZero(x, n, i);
  }

  lemma WordsAgree(x: U32, y: U32, n: nat)
    requires n == 32 && forall i :: 0 <= i < n ==> Bit(x, i) == Bit(y, i)
    ensures x == y
  {
    WordIsPow2(n);
    BitsDetermine(x, y, n);
  }

  lemma UndoRightRoundTrips(x: U32)
    ensures UndoRight(XorShiftRight(x), 3) == x
  {
    forall i | 0 <= i < 32 ensures Bit(UndoRight(XorShiftRight(x), 3), i) == Bit(x, i) {
      UndoRightBits(x, 3, i);
    }
    WordsAgree(UndoRight(XorShiftRight(x), 3), x, 32);
  }

  // ---------------------------------------------------------------- the shift to the left

  lemma LeftBit(x: U32, i: nat)
    requires i < 32
    ensures Bit(XorShiftLeft(x), i) == if Bit(x, i) == (if i < 7 then 0 else Bit(x, i - 7)) then 0 else 1
  {
    var y := x * 0x80 % WORD;
    MixedBit(x, y, 32, i);
    ShiftedBy7(x, y, 7, 32, i);
  }

  lemma ShiftedBy7(x: nat, y: nat, m: nat, n: nat, i: nat)
    requires m == 7 && n == 32 && i < n && y == x * 0x80 % WORD
    ensures Bit(y, i) == if i < m then 0 else Bit(x, i - m)
  {
    WordIsPow2(n);
    assert Pow2(m) == 4 * Pow2(m - 2) && Pow2(m - 2) == 4 * Pow2(m - 4) && Pow2(m - 4) == 4 * Pow2(m - 6);
    TruncatedBit(x * 0x80, n, i);
    ShiftedLeftBit(x, m, i);
  }

  function UndoLeft(y: U32, passes: nat): (x: U32) {
    if passes == 0 then 0 else Xor32(y, UndoLeft(y, passes - 1) * 0x80 % WORD)
  }

  /** After each pass 7 more bits, from the bottom, are those of the original word. */
  lemma {:induction false} UndoLeftBits(x: U32, passes: nat, i: nat)
    requires i < 32 && i < 7 * passes
    ensures Bit(UndoLeft(XorShiftLeft(x), passes), i) == Bit(x, i)
  {
    if i >= 7 {
      UndoLeftBits(x, passes - 1, i - 7);
    }
    FedBackLeft(x, UndoLeft(XorShiftLeft(x), passes - 1), i);
  }

  /** One pass: a bit comes right when the bit 7 below it is, if there is one. */
  lemma FedBackLeft(x: U32, before: U32, i: nat)
    requires i < 32 && (i >= 7 ==> Bit(before, i - 7) == Bit(x, i - 7))
    ensures Bit(Xor32(XorShiftLeft(x), before * 0x80 % WORD), i) == Bit(x, i)
  {
    var shifted: U32 := before * 0x80 % WORD;
    LeftBit(x, i);
    MixedBit(XorShiftLeft(x), shifted, 32, i);
    ShiftedBy7(before, shifted, 7, 32, i);
  }

  lemma UndoLeftRoundTrips(x: U32)
    ensures UndoLeft(XorShiftLeft(x), 5) == x
  {
    forall i | 0 <= i < 32 ensures Bit(UndoLeft(XorShiftLeft(x), 5), i) == Bit(x, i) {
      UndoLeftBits(x, 5, i);
    }
    WordsAgree(UndoLeft(XorShiftLeft(x), 5), x, 32);
  }

  // ---------------------------------------------------------------- the round

  /** An odd multiplier is undone by its inverse modulo 2^32. */
  function UndoMulAdd(y: U32, inverse: U32, addend: U32): (x: U32) {
    (y - addend) * inverse % WORD
  }

  lemma UndoMulAddRoundTrips(x: U32, k: U32, inverse: U32, c: nat, a: U32)
    requires k * inverse == 1 + c * WORD
    ensures UndoMulAdd(MulAdd(x, k, a), inverse, a) == x
  {
    var y := MulAdd(x, k, a);
    var q := (x * k + a) / WORD;
    assert y == x * k + a - q * WORD;
    InverseCancels(x, k, inverse, c, q, WORD);
    Remainder((y - a) * inverse, WORD, x * c - q * inverse, x);
  }

  lemma InverseCancels(x: int, k: int, inverse: int, c: int, q: int, m: int)
    requires k * inverse == 1 + c * m
    ensures (x * k - q * m) * inverse == (x * c - q * inverse) * m + x
  {
    assert x * k * inverse == x * (k * inverse);
    assert x * (1 + c * m) == x + x * c * m;
  }

  /** The inverse of a round: its four steps undone in reverse order. */
  function UndoRound(r: U32): (x: U32) {
    UndoMulAdd(UndoRight(UndoMulAdd(UndoLeft(r, 5), 3066638151, 3266489917), 3), 4276115653, 1013904223)
  }

  /** Main result: the inverse gives every word back. */
  lemma RoundTrips(x: U32)
    ensures UndoRound(MixRound(x)) == x
  {
    var a := MulAdd(x, 1664525, 1013904223);
    var b := XorShiftRight(a);
    var d := MulAdd(b, 2246822519, 3266489917);
    UndoLeftRoundTrips(d);
    UndoMulAddRoundTrips(b, 2246822519, 3066638151, 1604247758, 3266489917);
    UndoRightRoundTrips(a);
    UndoMulAddRoundTrips(x, 1664525, 4276115653, 1657219, 1013904223);
  }

  lemma RoundInjective(x: U32, y: U32)
    requires MixRound(x) == MixRound(y)
    ensures x == y
  {
    RoundTrips(x);
    RoundTrips(y);
  }

  /** Main result: through any number of rounds distinct inputs keep distinct outputs. */
  lemma {:induction false} MixIsInjective(x: U32, y: U32, rounds: nat)
    requires Mix(x, rounds) == Mix(y, rounds)
    ensures x == y
  {
    if rounds > 0 {
      RoundInjective(Mix(x, rounds - 1), Mix(y, rounds - 1));
      MixIsInjective(x, y, rounds - 1);
    }
  }

  // ---------------------------------------------------------------- the checksum

  const DOUBLE_WORD: nat := 0x1_0000_0000_0000_0000

  lemma DoubleWordIsPow2(n: nat)
    requires n == 64
    ensures Pow2(n) == DOUBLE_WORD
  {
    WordIsPow2(n - 32);
    Pow2Plus8(n - 32);
    Pow2Plus8(n - 24);
    Pow2Plus8(n - 16);
    Pow2Plus8(n - 8);
  }

  /** A step loses neither the hash nor the byte. */
  lemma FnvStepInjective(h: U64, g: U64, a: nat, b: nat)
    requires a < 256 && b < 256 && FnvStep(h, a) == FnvStep(g, b) && (h == g || a == b)
    ensures h == g && a == b
  {
    DoubleWordIsPow2(64);
    XorFitsBits(h, a, 64);
    XorFitsBits(g, b, 64);
    InvertibleMultiplier(Xor(h, a, 64), Xor(g, b, 64), FNV_PRIME, 14886173955864302971, 887285111055, DOUBLE_WORD, 0);
    if a == b {
      XorTwice(h, a, 64);
      XorTwice(g, a, 64);
    } else {
      XorCommutes(h, a, 64);
      XorCommutes(h, b, 64);
      XorTwice(a, h, 64);
      XorTwice(b, h, 64);
    }
  }

  predicate AreBytes(s: seq<nat>) {
    forall i :: 0 <= i < |s| ==> s[i] < 256
  }

  /** Main result: the checksum tells apart any two byte strings of one length that differ in one byte. */
  lemma {:induction false} ChecksumDetectsOneByte(s: seq<nat>, t: seq<nat>, i: nat)
    requires AreBytes(s) && AreBytes(t) && |s| == |t| && i < |s| && s[i] != t[i]
    requires forall j :: 0 <= j < |s| && j != i ==> s[j] == t[j]
    ensures Fnv1a(s) != Fnv1a(t)
  {
    var n := |s| - 1;
    if Fnv1a(s) == Fnv1a(t) {
      if i == n {
        assert s[..n] == t[..n];
      } else {
        ChecksumDetectsOneByte(s[..n], t[..n], i);
      }
      FnvStepInjective(Fnv1a(s[..n]), Fnv1a(t[..n]), s[n], t[n]);
      assert false;
    }
  }
}
