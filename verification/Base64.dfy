/** The base64 decoder with its 32-bit bit accumulator, against the encoding of section 4 of
    RFC 4648. */
module Base64 {

  import opened SimdWidth
  import opened Statistics

  type Byte = x: int | 0 <= x < 256 witness 0
  type Sextet = x: int | 0 <= x < 64 witness 0

  // ---------------------------------------------------------------- characters

  /** The character of a sextet: A-Z, a-z, 0-9, '+', '/'. */
  function ToChar(s: Sextet): (c: Byte) {
    if s < 26 then 65 + s else if s < 52 then 71 + s else if s < 62 then s - 4 else if s == 62 then 43 else 47
  }

  function FromChar(c: Byte): (s: Option<Sextet>) {
    if 65 <= c <= 90 then Some(c - 65)
    else if 97 <= c <= 122 then Some(c - 71)
    else if 48 <= c <= 57 then Some(c + 4)
    else if c == 43 then Some(62)
    else if c == 47 then Some(63)
    else None
  }

  const PAD: Byte := 61

  /** isspace in the C locale. */
  predicate IsSpace(c: Byte) {
    c == 32 || 9 <= c <= 13
  }

  lemma AlphabetRoundTrips(s: Sextet)
    ensures FromChar(ToChar(s)) == Some(s) && !IsSpace(ToChar(s)) && ToChar(s) != PAD
  {
  }

  /** Every byte is exactly one of: white space, padding, a character of the alphabet, or a foreign one
      that makes the decoder give up. */
  lemma BytesAreSorted(c: Byte)
    ensures IsSpace(c) <==> c in {9, 10, 11, 12, 13, 32}
    ensures FromChar(c).Some? <==> (exists s: Sextet :: ToChar(s) == c)
    ensures !(IsSpace(c) && FromChar(c).Some?) && !(c == PAD && (IsSpace(c) || FromChar(c).Some?))
  {
    if FromChar(c).Some? {
      assert ToChar(FromChar(c).value) == c;
    }
  }

  // ---------------------------------------------------------------- reference encoding

  /** Three bytes as four sextets. */
  function Group(a: Byte, b: Byte, c: Byte): (r: seq<Sextet>)
    ensures |r| == 4
  {
    [a / 4, a % 4 * 16 + b / 16, b % 16 * 4 + c / 64, c % 64]
  }

  /** The sextets of a byte string: a final group of one byte gives two, of two bytes three. */
  function ToSextets(bytes: seq<Byte>): (r: seq<Sextet>) {
    if bytes == [] then []
    else if |bytes| == 1 then Group(bytes[0], 0, 0)[..2]
    else if |bytes| == 2 then Group(bytes[0], bytes[1], 0)[..3]
    else Group(bytes[0], bytes[1], bytes[2]) + ToSextets(bytes[3..])
  }

  function ToChars(s: seq<Sextet>): (r: seq<Byte>)
    ensures |r| == |s| && forall i :: 0 <= i < |s| ==> r[i] == ToChar(s[i])
  {
    seq(|s|, i requires 0 <= i < |s| => ToChar(s[i]))
  }

  function Padding(n: nat): (r: seq<Byte>) {
    if n % 3 == 0 then [] else if n % 3 == 1 then [PAD, PAD] else [PAD]
  }

  /** Section 4 of RFC 4648: characters in groups of four, padded with '='. */
  function Encode(bytes: seq<Byte>): (r: seq<Byte>) {
    ToChars(ToSextets(bytes)) + Padding(|bytes|)
  }

  /** Groups of three bytes, the last of which may be short. */
  function Groups(n: nat): (r: nat) {
    if n == 0 then 0 else if n <= 3 then 1 else 1 + Groups(n - 3)
  }

  lemma {:induction false} PaddedLength(bytes: seq<Byte>)
    ensures |ToSextets(bytes)| + |Padding(|bytes|)| == 4 * Groups(|bytes|)
  {
    if |bytes| > 3 {
      PaddedLength(bytes[3..]);
      PaddingRepeats(|bytes|, |bytes| - 3);
    }
  }

  lemma PaddingRepeats(n: nat, m: nat)
    requires n == m + 3
    ensures Padding(n) == Padding(m)
  {
  }

  /** The padding completes the last group: an encoding is four characters per group of three bytes. */
  lemma EncodingIsPadded(bytes: seq<Byte>)
    ensures |Encode(bytes)| == 4 * Groups(|bytes|)
  {
    PaddedLength(bytes);
  }

  // ---------------------------------------------------------------- reference decoding

  /** What the decoder reads: sextets up to the first '=', without white space, or None when a
      character outside the alphabet comes first. */
  function Payload(input: seq<Byte>): (r: Option<seq<Sextet>>) {
    if input == [] || input[0] == PAD then Some([])
    else if IsSpace(input[0]) then Payload(input[1..])
    else
      match FromChar(input[0])
      case None => None
      case Some(s) =>
        match Payload(input[1..])
        case None => None
        case Some(rest) => Some([s] + rest)
  }

  /** The three bytes of a group, each from two neighbouring sextets. */
  function FirstByte(a: Sextet, b: Sextet): (r: Byte) {
    a as int * 4 + b as int / 16
  }

  function SecondByte(b: Sextet, c: Sextet): (r: Byte) {
    b as int % 16 * 16 + c as int / 4
  }

  function ThirdByte(c: Sextet, d: Sextet): (r: Byte) {
    c as int % 4 * 64 + d as int
  }

  /** The byte that the last of n sextets completes. */
  function Completes(n: nat, a: Sextet, b: Sextet): (r: seq<Byte>) {
    if n % 4 == 1 then []
    else if n % 4 == 2 then [FirstByte(a, b)]
    else if n % 4 == 3 then [SecondByte(a, b)]
    else [ThirdByte(a, b)]
  }

  /** The bytes that the last sextet of a string completes. */
  function LastBytes(s: seq<Sextet>): (r: seq<Byte>) {
    if |s| < 2 then [] else Completes(|s|, s[|s| - 2], s[|s| - 1])
  }

  /** The whole bytes held by a string of sextets. */
  function FromSextets(s: seq<Sextet>): (r: seq<Byte>) {
    if s == [] then [] else FromSextets(s[..|s| - 1]) + LastBytes(s)
  }

  function Decode(input: seq<Byte>): (r: seq<Byte>) {
    match Payload(input)
    case None => []
    case Some(s) => FromSextets(s)
  }

  // ---------------------------------------------------------------- the accumulator

  /** The accumulator holds the bits not yet output: none, 6, 4 or 2 of the last sextet. */
  predicate Holds(s: seq<Sextet>, val: U32, valb: int) {
    if |s| % 4 == 0 then valb == -8
    else if |s| % 4 == 1 then valb == -2 && val % 64 == s[|s| - 1]
    else if |s| % 4 == 2 then valb == -4 && val % 16 == s[|s| - 1] % 16
    else valb == -6 && val % 4 == s[|s| - 1] % 4
  }

  function ShiftIn(val: U32, s: Sextet): (r: U32) {
    (val * 64 + s) % 0x1_0000_0000
  }

  /** The low bits after a sextet is shifted in, when k of the old value's low values matter. */
  lemma ShiftInLow(val: U32, s: Sextet, k: int)
    requires k in {1, 4, 16, 64}
    ensures ShiftIn(val, s) % (64 * k) == val % k * 64 + s
  {
    var v, q := ShiftIn(val, s), (val * 64 + s) / 0x1_0000_0000;
    assert val * 64 + s == q * 0x1_0000_0000 + v;
    if k == 1 {
      Remainder(v, 64, val - q * 0x400_0000, s);
    } else if k == 4 {
      Remainder(v, 256, val / 4 - q * 0x100_0000, val % 4 * 64 + s);
    } else if k == 16 {
      Remainder(v, 1024, val / 16 - q * 0x40_0000, val % 16 * 64 + s);
    } else {
      Remainder(v, 4096, val / 64 - q * 0x10_0000, val % 64 * 64 + s);
    }
  }

  /** The byte that leaves the accumulator, if one does. */
  function Emitted(val: U32, valb: int): (r: Byte)
    requires valb in {0, 2, 4}
  {
    (if valb == 4 then val / 16 else if valb == 2 then val / 4 else val) % 256
  }

  /** A byte above d low values, masked out of x. */
  lemma MaskAfterShift(x: int, d: int)
    requires x >= 0 && d in {4, 16}
    ensures x / d % 256 == x % (256 * d) / d
  {
    var q, r := x / (256 * d), x % (256 * d);
    assert x == (256 * q + r / d) * d + r % d;
    Remainder(x, d, 256 * q + r / d, r % d);
    Remainder(x / d, 256, q, r / d);
  }

  lemma LowerBits(x: int, d: int)
    requires x >= 0 && d in {4, 16}
    ensures x % d == x % 64 % d
  {
    var q, r := x / 64, x % 64;
    assert x == (64 / d * q + r / d) * d + r % d;
    Remainder(x, d, 64 / d * q + r / d, r % d);
  }

  /** What a shifted-in sextet leaves in the accumulator and sends out, by phase. */
  lemma ShiftPhase(phase: nat, val: U32, a: Sextet, b: Sextet)
    requires phase < 4
    requires phase == 1 ==> val % 64 == a
    requires phase == 2 ==> val % 16 == a % 16
    requires phase == 3 ==> val % 4 == a % 4
    ensures var v := ShiftIn(val, b);
            && v % 64 == b && v % 16 == b % 16 && v % 4 == b % 4
            && (phase == 1 ==> Emitted(v, 4) == FirstByte(a, b))
            && (phase == 2 ==> Emitted(v, 2) == SecondByte(a, b))
            && (phase == 3 ==> Emitted(v, 0) == ThirdByte(a, b))
  {
    var v := ShiftIn(val, b);
    ShiftInLow(val, b, 1);
    LowerBits(v, 4);
    LowerBits(v, 16);
    MaskAfterShift(v, 4);
    MaskAfterShift(v, 16);
    if phase == 1 {
      ShiftInLow(val, b, 64);
    } else if phase == 2 {
      ShiftInLow(val, b, 16);
    } else if phase == 3 {
      ShiftInLow(val, b, 4);
    }
  }

  lemma NextPhase(n: nat)
    ensures (n + 1) % 4 == if n % 4 == 3 then 0 else n % 4 + 1
  {
  }

  /** A shifted-in sextet keeps the accumulator in step, and what leaves it is what the sextet
      completes. */
  lemma ShiftStep(s: seq<Sextet>, val: U32, valb: int, next: Sextet)
    requires Holds(s, val, valb)
    ensures var v, b := ShiftIn(val, next), valb + 6;
            if b < 0 then Holds(s + [next], v, b) && LastBytes(s + [next]) == []
            else b in {0, 2, 4} && Holds(s + [next], v, b - 8) && LastBytes(s + [next]) == [Emitted(v, b)]
  {
    var all, n := s + [next], |s| % 4;
    NextPhase(|s|);
    assert all[|all| - 1] == next && (s != [] ==> all[|all| - 2] == s[|s| - 1]);
    ShiftPhase(n, val, if s == [] then 0 else s[|s| - 1], next);
  }

  lemma AppendSextet(s: seq<Sextet>, x: Sextet)
    ensures FromSextets(s + [x]) == FromSextets(s) + LastBytes(s + [x])
  {
    assert (s + [x])[..|s|] == s;
  }

  /** The decoding loop: 32-bit accumulator, white space skipped, '=' ends, anything else rejects. */
  method Base64Decode(input: seq<Byte>) returns (output: seq<Byte>)
    ensures output == Decode(input)
  {
    output := [];
    var val: U32, valb := 0, -8;
    ghost var s: seq<Sextet> := [];
    var i := 0;
    assert input[0..] == input;
    PrefixedNone(Payload(input));
    while i < |input|
      invariant 0 <= i <= |input|
      invariant Holds(s, val, valb) && output == FromSextets(s)
      invariant Payload(input) == Prefixed(s, Payload(input[i..]))
    {
      var c := input[i];
      assert input[i..][1..] == input[i + 1..];
      i := i + 1;
      if IsSpace(c) {
        continue;
      }
      if c == PAD {
        assert Payload(input) == Some(s) by { assert s + [] == s; }
        break;
      }
      var pos := FromChar(c);
      if pos.None? {
        return [];
      }
      ShiftStep(s, val, valb, pos.value);
      AppendSextet(s, pos.value);
      PrefixedNext(s, pos.value, Payload(input[i..]));
      s := s + [pos.value];
      val := ShiftIn(val, pos.value);
      valb := valb + 6;
      if valb >= 0 {
        output := output + [Emitted(val, valb)];
        valb := valb - 8;
      }
    }
    assert Payload(input) == Some(s) by { assert s + [] == s; }
  }

  function Prefixed(s: seq<Sextet>, rest: Option<seq<Sextet>>): (r: Option<seq<Sextet>>) {
    match rest case None => None case Some(t) => Some(s + t)
  }

  lemma PrefixedNone(rest: Option<seq<Sextet>>)
    ensures Prefixed([], rest) == rest
  {
    if rest.Some? { assert [] + rest.value == rest.value; }
  }

  lemma PrefixedNext(s: seq<Sextet>, next: Sextet, rest: Option<seq<Sextet>>)
    ensures Prefixed(s, Prefixed([next], rest)) == Prefixed(s + [next], rest)
  {
    if rest.Some? {
      assert s + ([next] + rest.value) == s + [next] + rest.value;
    }
  }

  // ---------------------------------------------------------------- round trip

  lemma LastBytesOfGroup(group: seq<Sextet>, s: seq<Sextet>)
    requires |group| == 4 && s != []
    ensures LastBytes(group + s) == LastBytes(s)
  {
    var all := group + s;
    assert |all| % 4 == |s| % 4 && all[|all| - 1] == s[|s| - 1];
    assert |s| > 1 ==> all[|all| - 2] == s[|s| - 2];
  }

  lemma Associative(a: seq<Byte>, b: seq<Byte>, c: seq<Byte>)
    ensures a + b + c == a + (b + c)
  {
  }

  /** A whole group decodes on its own. */
  lemma {:induction false} FromGroups(group: seq<Sextet>, s: seq<Sextet>)
    requires |group| == 4
    ensures FromSextets(group + s) == FromSextets(group) + FromSextets(s)
  {
    if s == [] {
      assert group + s == group;
    } else {
      var init := s[..|s| - 1];
      FromGroups(group, init);
      assert (group + s)[..|group + s| - 1] == group + init;
      LastBytesOfGroup(group, s);
      Associative(FromSextets(group), FromSextets(init), LastBytes(s));
    }
  }

  lemma GroupRoundTrips(a: Byte, b: Byte, c: Byte)
    ensures FromSextets(Group(a, b, c)) == [a, b, c]
    ensures FromSextets(Group(a, b, c)[..3]) == [a, b]
    ensures FromSextets(Group(a, b, c)[..2]) == [a]
  {
    var g := Group(a, b, c);
    GroupBytes(a, b, c);
    assert FromSextets(g[..1]) == [] by { assert g[..1][..0] == []; }
    AppendSextet(g[..1], g[1]);
    AppendSextet(g[..2], g[2]);
    AppendSextet(g[..3], g[3]);
    assert g[..1] + [g[1]] == g[..2] && g[..2] + [g[2]] == g[..3] && g[..3] + [g[3]] == g;
  }

  lemma GroupBytes(a: Byte, b: Byte, c: Byte)
    ensures var g := Group(a, b, c);
            FirstByte(g[0], g[1]) == a && SecondByte(g[1], g[2]) == b && ThirdByte(g[2], g[3]) == c
  {
  }

  lemma {:induction false} SextetsRoundTrip(bytes: seq<Byte>)
    ensures FromSextets(ToSextets(bytes)) == bytes
  {
    if |bytes| == 1 {
      GroupRoundTrips(bytes[0], 0, 0);
    } else if |bytes| == 2 {
      GroupRoundTrips(bytes[0], bytes[1], 0);
    } else if |bytes| >= 3 {
      GroupRoundTrips(bytes[0], bytes[1], bytes[2]);
      SextetsRoundTrip(bytes[3..]);
      FromGroups(Group(bytes[0], bytes[1], bytes[2]), ToSextets(bytes[3..]));
    }
  }

  lemma {:induction false} PayloadOfChars(s: seq<Sextet>, pad: seq<Byte>)
    requires pad == [] || pad[0] == PAD
    ensures Payload(ToChars(s) + pad) == Some(s)
  {
    var input := ToChars(s) + pad;
    if s != [] {
      AlphabetRoundTrips(s[0]);
      assert input[1..] == ToChars(s[1..]) + pad;
      PayloadOfChars(s[1..], pad);
      assert [s[0]] + s[1..] == s;
    } else {
      assert input == pad;
    }
  }

  /** Main result: for every byte string, both paddings included, the decoder returns the bytes
      from their encoding. */
  lemma DecodeInvertsEncode(bytes: seq<Byte>)
    ensures Decode(Encode(bytes)) == bytes
  {
    PayloadOfChars(ToSextets(bytes), Padding(|bytes|));
    SextetsRoundTrip(bytes);
  }

  /** White space may be inserted anywhere without changing the result. */
  lemma {:induction false} SpacesAreSkipped(before: seq<Byte>, space: Byte, after: seq<Byte>)
    requires IsSpace(space)
    ensures Decode(before + [space] + after) == Decode(before + after)
  {
    PayloadSkips(before, space, after);
  }

  lemma {:induction false} PayloadSkips(before: seq<Byte>, space: Byte, after: seq<Byte>)
    requires IsSpace(space)
    ensures Payload(before + [space] + after) == Payload(before + after)
  {
    var with, without := before + [space] + after, before + after;
    if before == [] {
      assert with[1..] == without;
    } else {
      assert with[1..] == before[1..] + [space] + after && without[1..] == before[1..] + after;
      PayloadSkips(before[1..], space, after);
    }
  }
}
