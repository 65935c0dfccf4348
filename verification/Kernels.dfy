/** The registered mixing kernel: one scalar mix, and vector kernels of 4, 8 and 16 lanes with a
    scalar tail. */
module Kernels {

  import opened SimdWidth
  import opened Statistics
  import opened Bits

  const EINVAL: int := 22
  const SIZE_MAX: int := 0xFFFF_FFFF_FFFF_FFFF

  // ---------------------------------------------------------------- the mix

  /** Multiplication and addition modulo 2^32. */
  function MulAdd(x: U32, multiplier: U32, addend: U32): (r: U32) {
    (x * multiplier + addend) % 0x1_0000_0000
  }

  function Xor32(a: U32, b: U32): (r: U32) {
    Xor(a, b, 32) % 0x1_0000_0000
  }

  function XorShiftRight(x: U32): (r: U32) {
    Xor32(x, x / 0x2000)
  }

  function XorShiftLeft(x: U32): (r: U32) {
    Xor32(x, x * 0x80 % 0x1_0000_0000)
  }

  function MixRound(value: U32): (r: U32) {
    XorShiftLeft(MulAdd(XorShiftRight(MulAdd(value, 1664525, 1013904223)), 2246822519, 3266489917))
  }

  /** `rounds` rounds of the scalar mix. */
  function Mix(value: U32, rounds: nat): (r: U32) {
    if rounds == 0 then value else MixRound(Mix(value, rounds - 1))
  }

  function MixAll(values: seq<U32>, rounds: nat): (r: seq<U32>)
    ensures |r| == |values|
    ensures forall i :: 0 <= i < |values| ==> r[i] == Mix(values[i], rounds)
  {
    seq(|values|, i requires 0 <= i < |values| => Mix(values[i], rounds))
  }

  method MixScalar(value: U32, rounds: nat) returns (r: U32)
    ensures r == Mix(value, rounds)
  {
    r := value;
    for round := 0 to rounds
      invariant r == Mix(value, round)
    {
      r := MulAdd(r, 1664525, 1013904223);
      r := XorShiftRight(r);
      r := MulAdd(r, 2246822519, 3266489917);
      r := XorShiftLeft(r);
    }
  }

  // ---------------------------------------------------------------- vectors of lanes

  type Vector = seq<U32>

  function VectorMulAdd(v: Vector, multiplier: U32, addend: U32): (r: Vector) {
    seq(|v|, i requires 0 <= i < |v| => MulAdd(v[i], multiplier, addend))
  }

  function VectorXorShiftRight(v: Vector): (r: Vector) {
    seq(|v|, i requires 0 <= i < |v| => XorShiftRight(v[i]))
  }

  function VectorXorShiftLeft(v: Vector): (r: Vector) {
    seq(|v|, i requires 0 <= i < |v| => XorShiftLeft(v[i]))
  }

  /** The instruction sequence of a vector kernel's round. */
  function VectorRound(v: Vector): (r: Vector) {
    VectorXorShiftLeft(
      VectorMulAdd(VectorXorShiftRight(VectorMulAdd(v, 1664525, 1013904223)), 2246822519, 3266489917))
  }

  lemma VectorRoundIsLanewise(v: Vector)
    ensures |VectorRound(v)| == |v|
    ensures forall i :: 0 <= i < |v| ==> VectorRound(v)[i] == MixRound(v[i])
  {
  }

  /** The vector rounds compute the scalar mix in every lane. */
  method MixVector(v: Vector, rounds: nat) returns (r: Vector)
    ensures r == MixAll(v, rounds)
  {
    r := v;
    for round := 0 to rounds
      invariant r == MixAll(v, round)
    {
      VectorRoundIsLanewise(r);
      r := VectorRound(r);
    }
  }

  function Lanes(w: Width): (n: nat)
    ensures n in {4, 8, 16}
  {
    match w
    case Sse41 => 4
    case Avx2 => 8
    case Avx512 => 16
  }

  // ---------------------------------------------------------------- kernels

  /** `output` after mixing `input` over [offset, offset + count). */
  function Mixed(output: seq<U32>, input: seq<U32>, rounds: nat, offset: nat, count: nat): (r: seq<U32>)
    requires |output| == |input| && offset + count <= |input|
    ensures |r| == |output|
    ensures forall k :: 0 <= k < |r| ==>
              r[k] == if offset <= k < offset + count then Mix(input[k], rounds) else output[k]
  {
    seq(|output|, k requires 0 <= k < |output| =>
      if offset <= k < offset + count then Mix(input[k], rounds) else output[k])
  }

  lemma MixedIs(output: seq<U32>, input: seq<U32>, rounds: nat, offset: nat, count: nat, result: seq<U32>)
    requires |output| == |input| == |result| && offset + count <= |input|
    requires forall k :: 0 <= k < |input| ==>
               result[k] == if offset <= k < offset + count then Mix(input[k], rounds) else output[k]
    ensures result == Mixed(output, input, rounds, offset, count)
  {
  }

  /** Mixing a range and then the next one mixes their union. */
  lemma MixedConsecutive(output: seq<U32>, input: seq<U32>, rounds: nat, offset: nat, first: nat, second: nat)
    requires |output| == |input| && offset + first + second <= |input|
    ensures Mixed(Mixed(output, input, rounds, offset, first), input, rounds, offset + first, second)
         == Mixed(output, input, rounds, offset, first + second)
  {
    MixedIs(output, input, rounds, offset, first + second,
      Mixed(Mixed(output, input, rounds, offset, first), input, rounds, offset + first, second));
  }

  class KernelContext {
    const input: array<U32>
    const output: array<U32>
    const rounds: nat

    ghost predicate Valid() {
      input != output && input.Length == output.Length && input.Length <= SIZE_MAX / 4
    }

    constructor (input: array<U32>, output: array<U32>, rounds: nat)
      requires input != output && input.Length == output.Length <= SIZE_MAX / 4
      ensures Valid() && this.input == input && this.output == output && this.rounds == rounds
    {
      this.input, this.output, this.rounds := input, output, rounds;
    }

    /** The kernel of a width: whole vectors first, then the tail one by one. */
    method Kernel(width: Width, offset: nat, count: nat) returns (rc: int)
      requires Valid()
      modifies output
      ensures rc == if offset > input.Length || count > input.Length - offset then EINVAL else 0
      ensures rc != 0 ==> output[..] == old(output[..])
      ensures rc == 0 ==> output[..] == Mixed(old(output[..]), input[..], rounds, offset, count)
    {
      if offset > input.Length || count > input.Length - offset {
        return EINVAL;
      }
      var index := VectorLoop(Lanes(width), offset, offset + count);
      TailLoop(index, offset + count);
      MixedIs(old(output[..]), input[..], rounds, offset, count, output[..]);
      return 0;
    }

    /** Whole vectors from `offset`, as long as one fits before `end`. */
    method VectorLoop(lanes: nat, offset: nat, end: nat) returns (index: nat)
      requires Valid() && offset <= end <= input.Length && lanes in {4, 8, 16}
      modifies output
      ensures offset <= index <= end < index + lanes
      ensures forall k :: 0 <= k < input.Length ==>
                output[k] == if offset <= k < index then Mix(input[k], rounds) else old(output[k])
    {
      index := offset;
      while index + lanes <= end
        invariant offset <= index <= end && index + lanes <= SIZE_MAX
        invariant forall k :: 0 <= k < input.Length ==>
                    output[k] == if offset <= k < index then Mix(input[k], rounds) else old(output[k])
      {
        var value := MixVector(input[index..index + lanes], rounds);
        StoreVector(index, value);
        index := index + lanes;
      }
    }

    /** The rest, one item at a time. */
    method TailLoop(start: nat, end: nat)
      requires Valid() && start <= end <= input.Length
      modifies output
      ensures forall k :: 0 <= k < input.Length ==>
                output[k] == if start <= k < end then Mix(input[k], rounds) else old(output[k])
    {
      var index := start;
      while index < end
        invariant start <= index <= end
        invariant forall k :: 0 <= k < input.Length ==>
                    output[k] == if start <= k < index then Mix(input[k], rounds) else old(output[k])
      {
        output[index] := MixScalar(input[index], rounds);
        index := index + 1;
      }
    }

    method StoreVector(index: nat, value: Vector)
      requires Valid() && index + |value| <= output.Length
      modifies output
      ensures forall k :: 0 <= k < output.Length ==>
                output[k] == if index <= k < index + |value| then value[k - index] else old(output[k])
    {
      for n := 0 to |value|
        invariant forall k :: 0 <= k < output.Length ==>
                    output[k] == if index <= k < index + n then value[k - index] else old(output[k])
      {
        output[index + n] := value[n];
      }
    }
  }
}
