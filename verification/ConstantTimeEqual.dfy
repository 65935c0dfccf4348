/** The credential comparison that does not stop at the first difference, and exactly when it
    agrees with equality. */
module ConstantTimeEqual {

  import opened Statistics
  import opened Bits
  import opened Base64

  /** Inclusive or of the low `bits` bits. */
  function Or(a: nat, b: nat, bits: nat): (r: nat) {
    if bits == 0 then 0 else 2 * Or(a / 2, b / 2, bits - 1) + if a % 2 == 1 || b % 2 == 1 then 1 else 0
  }

  /** The low `bits` bits agree. */
  predicate LowEqual(a: nat, b: nat, bits: nat) {
    bits == 0 || (a % 2 == b % 2 && LowEqual(a / 2, b / 2, bits - 1))
  }

  lemma {:induction false} XorIsZero(a: nat, b: nat, bits: nat)
    ensures Xor(a, b, bits) == 0 <==> LowEqual(a, b, bits)
  {
    if bits > 0 {
      XorIsZero(a / 2, b / 2, bits - 1);
    }
  }

  lemma {:induction false} OrIsZero(a: nat, b: nat, bits: nat)
    ensures Or(a, b, bits) == 0 <==> LowEqual(a, 0, bits) && LowEqual(b, 0, bits)
  {
    if bits > 0 {
      OrIsZero(a / 2, b / 2, bits - 1);
    }
  }

  /** The operators leave nothing above their width. */
  lemma {:induction false} XorFits(a: nat, b: nat, bits: nat)
    ensures LowEqual(Xor(a, b, bits), 0, bits) <==> Xor(a, b, bits) == 0
  {
    if bits > 0 {
      XorFits(a / 2, b / 2, bits - 1);
    }
  }

  lemma {:induction false} OrFits(a: nat, b: nat, bits: nat)
    ensures LowEqual(Or(a, b, bits), 0, bits) <==> Or(a, b, bits) == 0
  {
    if bits > 0 {
      OrFits(a / 2, b / 2, bits - 1);
    }
  }

  lemma {:induction false} LowEqualMod(a: nat, b: nat, bits: nat)
    ensures LowEqual(a, b, bits) <==> a % Pow2(bits) == b % Pow2(bits)
  {
    if bits > 0 {
      LowEqualMod(a / 2, b / 2, bits - 1);
      LowEqualDouble(a, b, Pow2(bits - 1), Pow2(bits));
    }
  }

  lemma LowEqualDouble(a: nat, b: nat, p: nat, q: nat)
    requires p > 0 && q == 2 * p
    ensures a % q == b % q <==> a / 2 % p == b / 2 % p && a % 2 == b % 2
  {
    ModDouble(a, p);
    ModDouble(b, p);
  }

  /** The low bits of an unsigned int. */
  lemma LowWord(a: nat, b: nat, bits: nat)
    requires bits == 32
    ensures LowEqual(a, b, bits) <==> a % 0x1_0000_0000 == b % 0x1_0000_0000
  {
    LowEqualMod(a, b, bits);
    Pow2Plus8(bits - 32);
    Pow2Plus8(bits - 24);
    Pow2Plus8(bits - 16);
    Pow2Plus8(bits - 8);
  }

  /** The character at i, or 0 beyond the end. */
  function At(s: seq<Byte>, i: nat): (c: Byte) {
    if i < |s| then s[i] else 0
  }

  predicate PaddedEqual(a: seq<Byte>, b: seq<Byte>, n: nat) {
    forall i :: 0 <= i < n ==> At(a, i) == At(b, i)
  }

  function Longer(a: seq<Byte>, b: seq<Byte>): (n: nat) {
    if |a| > |b| then |a| else |b|
  }

  /** What the loop computes: the sizes agree modulo 2^32 and the zero-padded contents agree. */
  predicate Matches(a: seq<Byte>, b: seq<Byte>) {
    |a| % 0x1_0000_0000 == |b| % 0x1_0000_0000 && PaddedEqual(a, b, Longer(a, b))
  }

  /** The sizes are compared after truncation to an unsigned int, then every padded character is
      folded in. */
  method Compare(a: seq<Byte>, b: seq<Byte>) returns (equal: bool)
    ensures equal == Matches(a, b)
  {
    var diff := Difference(|a|, |b|, 32);
    var i := 0;
    while i < Longer(a, b)
      invariant 0 <= i <= Longer(a, b) && Fits(diff, 32)
      invariant diff == 0 <==> |a| % 0x1_0000_0000 == |b| % 0x1_0000_0000 && PaddedEqual(a, b, i)
    {
      diff := Fold(diff, At(a, i), At(b, i), 32);
      i := i + 1;
    }
    equal := diff == 0;
  }

  predicate Fits(x: nat, bits: nat) {
    LowEqual(x, 0, bits) <==> x == 0
  }

  method Difference(x: nat, y: nat, bits: nat) returns (d: nat)
    requires bits == 32
    ensures Fits(d, bits) && (d == 0 <==> x % 0x1_0000_0000 == y % 0x1_0000_0000)
  {
    XorIsZero(x, y, bits);
    XorFits(x, y, bits);
    LowWord(x, y, bits);
    d := Xor(x, y, bits);
  }

  method Fold(diff: nat, x: Byte, y: Byte, bits: nat) returns (r: nat)
    requires bits == 32 && Fits(diff, bits)
    ensures Fits(r, bits) && (r == 0 <==> diff == 0 && x == y)
  {
    var d := Difference(x, y, bits);
    OrIsZero(diff, d, bits);
    OrFits(diff, d, bits);
    r := Or(diff, d, bits);
  }

  /** k * 2^32 zeros. */
  function ZeroWords(k: nat): (r: seq<Byte>)
    ensures |r| == k * 0x1_0000_0000 && forall i :: 0 <= i < |r| ==> r[i] == 0
  {
    seq(k * 0x1_0000_0000, _ => 0)
  }

  /** The longer string is the shorter one followed by a positive multiple of 2^32 zeros. */
  ghost predicate ZeroExtends(longer: seq<Byte>, shorter: seq<Byte>) {
    exists k: nat :: k > 0 && longer == shorter + ZeroWords(k)
  }

  lemma PaddedIsZeroExtended(longer: seq<Byte>, shorter: seq<Byte>, k: nat)
    requires k > 0 && |longer| == |shorter| + k * 0x1_0000_0000 && PaddedEqual(longer, shorter, |longer|)
    ensures ZeroExtends(longer, shorter)
  {
    forall i | 0 <= i < |longer| ensures longer[i] == (shorter + ZeroWords(k))[i] {
      assert At(longer, i) == At(shorter, i);
    }
    assert longer == shorter + ZeroWords(k);
  }

  lemma ZeroExtendedMatches(longer: seq<Byte>, shorter: seq<Byte>)
    requires ZeroExtends(longer, shorter)
    ensures Matches(longer, shorter) && Matches(shorter, longer)
  {
    var k: nat :| k > 0 && longer == shorter + ZeroWords(k);
    Congruent(|shorter|, k);
  }

  lemma Congruent(n: nat, k: nat)
    ensures (n + k * 0x1_0000_0000) % 0x1_0000_0000 == n % 0x1_0000_0000
  {
    Remainder(n + k * 0x1_0000_0000, 0x1_0000_0000, n / 0x1_0000_0000 + k, n % 0x1_0000_0000);
  }

  lemma LongerMatch(longer: seq<Byte>, shorter: seq<Byte>)
    requires |longer| > |shorter| && |longer| % 0x1_0000_0000 == |shorter| % 0x1_0000_0000
    requires PaddedEqual(longer, shorter, |longer|)
    ensures ZeroExtends(longer, shorter)
  {
    var k := |longer| / 0x1_0000_0000 - |shorter| / 0x1_0000_0000;
    PaddedIsZeroExtended(longer, shorter, k);
  }

  /** Main result: the comparison is equality, except that it also accepts two strings of which one is
      the other followed by a positive multiple of 2^32 zeros. */
  lemma MatchesExactlyWhen(a: seq<Byte>, b: seq<Byte>)
    ensures Matches(a, b) <==> a == b || ZeroExtends(a, b) || ZeroExtends(b, a)
  {
    if Matches(a, b) {
      if |a| == |b| {
        forall i | 0 <= i < |a| ensures a[i] == b[i] {
          assert At(a, i) == At(b, i);
        }
      } else if |a| > |b| {
        LongerMatch(a, b);
      } else {
        assert PaddedEqual(b, a, |b|);
        LongerMatch(b, a);
      }
    } else if ZeroExtends(a, b) {
      ZeroExtendedMatches(a, b);
    } else if ZeroExtends(b, a) {
      ZeroExtendedMatches(b, a);
    }
  }

  lemma ZeroExtensionIsLong(longer: seq<Byte>, shorter: seq<Byte>)
    requires ZeroExtends(longer, shorter)
    ensures |longer| >= 0x1_0000_0000 && 0 in longer
  {
    var k: nat :| k > 0 && longer == shorter + ZeroWords(k);
    assert longer[|longer| - 1] == 0;
  }

  /** For strings shorter than 2^32 it is equality. */
  lemma ShortStringsMatchOnlyWhenEqual(a: seq<Byte>, b: seq<Byte>)
    requires |a| < 0x1_0000_0000 && |b| < 0x1_0000_0000
    ensures Matches(a, b) <==> a == b
  {
    MatchesExactlyWhen(a, b);
    if ZeroExtends(a, b) {
      ZeroExtensionIsLong(a, b);
    }
    if ZeroExtends(b, a) {
      ZeroExtensionIsLong(b, a);
    }
  }

  const MAX_REQUEST_BYTES: nat := 8192

  /** What the endpoint relies on: a presented credential fits its request, so against an expected one
      without zero bytes, however long, the comparison is equality. */
  lemma PresentedCredentialMatchesOnlyWhenEqual(presented: seq<Byte>, expected: seq<Byte>)
    requires |presented| <= MAX_REQUEST_BYTES && 0 !in expected
    ensures Matches(presented, expected) <==> presented == expected
  {
    MatchesExactlyWhen(presented, expected);
    if ZeroExtends(presented, expected) {
      ZeroExtensionIsLong(presented, expected);
    }
    if ZeroExtends(expected, presented) {
      ZeroExtensionIsLong(expected, presented);
    }
  }

  /** The function alone has the exception: the empty string matches 2^32 zeros. */
  lemma EmptyMatchesZeros() returns (zeros: seq<Byte>)
    ensures zeros != [] && Matches([], zeros)
  {
    zeros := seq(0x1_0000_0000, _ => 0);
    assert |zeros| > 0;
  }
}
