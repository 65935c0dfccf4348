/** The published selection: one atomic word that tags a 64-byte aligned slot address with a
    width, and diagnostic mirrors that are stored one after another. */
module TrampolineState {

  import opened SimdWidth

  /** An address or a tagged address; 0 is null. */
  type Bits = x: int | 0 <= x < 0x1_0000_0000_0000_0000 witness 0

  datatype Selection = Selected(width: Width, slot: Bits) | NoDevice | Corrupt

  /** The low two bits of an aligned slot are free to hold a width. */
  predicate Encodable(slot: Bits) {
    slot != 0 && slot % 4 == 0
  }

  /** An aligned address or-ed with a two-bit width is their sum. */
  function Encode(width: Width, slot: Bits): (word: Bits) {
    if Encodable(slot) then slot + Index(width) else 0
  }

  function WidthOf(tag: int): (w: Width) {
    if tag == 0 then Sse41 else if tag == 1 then Avx2 else Avx512
  }

  /** The low two bits are the width, the rest the slot. */
  function Decode(word: Bits): (s: Selection) {
    if word == 0 then NoDevice
    else if word % 4 > 2 || word - word % 4 == 0 then Corrupt
    else Selected(WidthOf(word % 4), word - word % 4)
  }

  /** Tagging round-trips for every aligned slot and refuses every other one. */
  lemma TaggingRoundTrips(width: Width, slot: Bits)
    ensures Decode(Encode(width, slot)) == if Encodable(slot) then Selected(width, slot) else NoDevice
  {
    if Encodable(slot) {
      assert (slot + Index(width)) % 4 == Index(width);
    }
  }

  /** Only encoded selections decode: a decoded word is the tagging of what it decodes to. */
  lemma DecodingRoundTrips(word: Bits)
    requires Decode(word).Selected?
    ensures Encode(Decode(word).width, Decode(word).slot) == word
  {
  }

  // ---------------------------------------------------------------- stores

  datatype Cells = Cells(
    word: Bits, width: Width, widthByte: Width, active: Bits, initialized: bool, attempt: int, patched: Width)

  datatype Store =
    | Word(bits: Bits) | MirrorWidth(w: Width) | MirrorByte(w: Width) | MirrorActive(slot: Bits)
    | Initialized(flag: bool) | Attempted(raw: int) | Patched(w: Width)

  const INITIAL: Cells := Cells(0, Sse41, Sse41, 0, false, 0, Sse41)

  function Write(c: Cells, s: Store): (r: Cells) {
    match s
    case Word(b) => c.(word := b)
    case MirrorWidth(w) => c.(width := w)
    case MirrorByte(w) => c.(widthByte := w)
    case MirrorActive(a) => c.(active := a)
    case Initialized(f) => c.(initialized := f)
    case Attempted(raw) => c.(attempt := raw)
    case Patched(w) => c.(patched := w)
  }

  function WriteAll(c: Cells, stores: seq<Store>): (r: Cells) {
    if stores == [] then c else Write(WriteAll(c, stores[..|stores| - 1]), stores[|stores| - 1])
  }

  datatype Operation = Reset(slot: Bits) | Publish(width: Width, slot: Bits)

  /** The stores of an operation, in program order; a publication that cannot be encoded stores
      nothing. */
  function StoresOf(op: Operation): (r: seq<Store>) {
    match op
    case Reset(slot) =>
      [Word(Encode(Sse41, slot)), MirrorWidth(Sse41), MirrorByte(Sse41), MirrorActive(slot),
       Initialized(false), Attempted(0), Patched(Sse41)]
    case Publish(width, slot) =>
      if !Encodable(slot) then []
      else [Word(Encode(width, slot)), MirrorWidth(width), MirrorByte(width), MirrorActive(slot),
            Initialized(true), Patched(width)]
  }

  /** The word comes first and once, and a publication does not touch the last attempt. */
  lemma StoresShape(op: Operation)
    ensures var r := StoresOf(op);
            && (r != [] ==> r[0].Word? && forall i :: 1 <= i < |r| ==> !r[i].Word?)
            && (op.Publish? ==> forall i :: 0 <= i < |r| ==> !r[i].Attempted?)
  {
  }

  /** What a completed publication leaves in the cells: the word and every mirror agree, and the last
      attempt is not touched. */
  lemma PublishedCells(c: Cells, width: Width, slot: Bits)
    requires Encodable(slot)
    ensures WriteAll(c, StoresOf(Publish(width, slot)))
         == Cells(Encode(width, slot), width, width, slot, true, c.attempt, width)
  {
    var stores := StoresOf(Publish(width, slot));
    WriteAllFirst(c, stores);
    WriteAllFirst(Write(c, stores[0]), stores[1..]);
    var rest := stores[2..];
    assert stores[1..][1..] == rest;
    var c2 := Write(Write(c, stores[0]), stores[1]);
    WriteAllFirst(c2, rest);
    WriteAllFirst(Write(c2, rest[0]), rest[1..]);
    assert rest[1..][1..] == rest[2..];
    var c4 := Write(Write(c2, rest[0]), rest[1]);
    WriteAllFirst(c4, rest[2..]);
    assert rest[2..][1..] == [stores[5]];
  }

  /** And a completed reset: SSE4.1 everywhere, not initialized, no attempt. */
  lemma ResetCells(c: Cells, slot: Bits)
    ensures WriteAll(c, StoresOf(Reset(slot))) == Cells(Encode(Sse41, slot), Sse41, Sse41, slot, false, 0, Sse41)
  {
    var stores := StoresOf(Reset(slot));
    WriteAllFirst(c, stores);
    WriteAllFirst(Write(c, stores[0]), stores[1..]);
    var rest := stores[2..];
    assert stores[1..][1..] == rest;
    var c2 := Write(Write(c, stores[0]), stores[1]);
    WriteAllFirst(c2, rest);
    WriteAllFirst(Write(c2, rest[0]), rest[1..]);
    assert rest[1..][1..] == rest[2..];
    var c4 := Write(Write(c2, rest[0]), rest[1]);
    WriteAllFirst(c4, rest[2..]);
    assert rest[2..][1..] == [stores[5], stores[6]];
    WriteAllFirst(Write(c4, stores[4]), [stores[5], stores[6]]);
    assert [stores[5], stores[6]][1..] == [stores[6]];
  }

  lemma {:induction false} WriteAllFirst(c: Cells, stores: seq<Store>)
    requires stores != []
    ensures WriteAll(c, stores) == WriteAll(Write(c, stores[0]), stores[1..])
  {
    if |stores| > 1 {
      var front := stores[..|stores| - 1];
      WriteAllFirst(c, front);
      assert stores[1..][..|stores| - 2] == front[1..];
    }
  }

  function AllStores(ops: seq<Operation>): (r: seq<Store>) {
    if ops == [] then [] else AllStores(ops[..|ops| - 1]) + StoresOf(ops[|ops| - 1])
  }

  /** What a run of operations selects: the pair of the last one that is not refused. */
  function SelectedBy(ops: seq<Operation>): (r: Selection) {
    if ops == [] then NoDevice
    else
      match ops[|ops| - 1]
      case Reset(slot) => if Encodable(slot) then Selected(Sse41, slot) else NoDevice
      case Publish(width, slot) =>
        if Encodable(slot) then Selected(width, slot) else SelectedBy(ops[..|ops| - 1])
  }

  lemma {:induction false} WriteConcat(c: Cells, a: seq<Store>, b: seq<Store>)
    ensures WriteAll(c, a + b) == WriteAll(WriteAll(c, a), b)
  {
    if b == [] {
      assert a + b == a;
    } else {
      assert (a + b)[..|a + b| - 1] == a + b[..|b| - 1];
      WriteConcat(c, a, b[..|b| - 1]);
    }
  }

  /** Only the first store of an operation touches the word. */
  lemma {:induction false} WordOfPrefix(c: Cells, stores: seq<Store>)
    requires stores != [] && stores[0].Word?
    requires forall i :: 1 <= i < |stores| ==> !stores[i].Word?
    ensures WriteAll(c, stores).word == stores[0].bits
  {
    if |stores| > 1 {
      WordOfPrefix(c, stores[..|stores| - 1]);
    } else {
      assert stores[..0] == [];
    }
  }

  lemma {:induction false} AttemptKept(c: Cells, stores: seq<Store>)
    requires forall i :: 0 <= i < |stores| ==> !stores[i].Attempted?
    ensures WriteAll(c, stores).attempt == c.attempt
  {
    if stores != [] {
      AttemptKept(c, stores[..|stores| - 1]);
    }
  }

  lemma {:induction false} AllStoresPrefix(ops: seq<Operation>, n: nat)
    requires n <= |ops|
    ensures AllStores(ops[..n]) <= AllStores(ops)
  {
    if n == |ops| {
      assert ops[..n] == ops;
    } else {
      var before := ops[..|ops| - 1];
      AllStoresPrefix(before, n);
      assert before[..n] == ops[..n];
    }
  }

  /** How many operations have begun when k stores have happened. */
  lemma BegunAt(ops: seq<Operation>, k: nat) returns (begun: nat)
    requires k <= |AllStores(ops)|
    ensures begun <= |ops| && |AllStores(ops[..begun])| >= k
    ensures if begun == 0 then k == 0 else |AllStores(ops[..begun - 1])| < k
  {
    begun := |ops|;
    assert ops[..begun] == ops;
    while begun > 0 && |AllStores(ops[..begun - 1])| >= k
      invariant begun <= |ops| && |AllStores(ops[..begun])| >= k
    {
      begun := begun - 1;
    }
    if begun == 0 { assert ops[..0] == []; }
  }

  /** Main result: whenever a reader takes its snapshot, between any two stores of any run of
      serialized operations, it gets exactly the pair selected by the operations begun so far. */
  lemma SnapshotIsNeverTorn(ops: seq<Operation>, k: nat) returns (begun: nat)
    requires k <= |AllStores(ops)|
    ensures begun <= |ops|
    ensures Decode(WriteAll(INITIAL, AllStores(ops)[..k]).word) == SelectedBy(ops[..begun])
    ensures |AllStores(ops[..begun])| >= k
    ensures begun > 0 ==> |AllStores(ops[..begun - 1])| < k
  {
    begun := BegunAt(ops, k);
    AllStoresPrefix(ops, begun);
    var prefix := ops[..begun];
    assert AllStores(ops)[..k] == AllStores(prefix)[..k];
    if begun > 0 {
      assert prefix[..begun - 1] == ops[..begun - 1];
      SnapshotDuringLast(prefix, k);
    } else {
      assert AllStores(prefix)[..k] == [];
    }
  }

  lemma SnapshotDuringLast(ops: seq<Operation>, k: nat)
    requires ops != [] && |AllStores(ops[..|ops| - 1])| < k <= |AllStores(ops)|
    ensures Decode(WriteAll(INITIAL, AllStores(ops)[..k]).word) == SelectedBy(ops)
  {
    var done, last := AllStores(ops[..|ops| - 1]), StoresOf(ops[|ops| - 1]);
    assert AllStores(ops)[..k] == done + last[..k - |done|];
    WriteConcat(INITIAL, done, last[..k - |done|]);
    StoresShape(ops[|ops| - 1]);
    WordOfPrefix(WriteAll(INITIAL, done), last[..k - |done|]);
    LastWordSelects(ops[|ops| - 1], ops);
  }

  lemma LastWordSelects(op: Operation, ops: seq<Operation>)
    requires ops != [] && op == ops[|ops| - 1] && StoresOf(op) != []
    ensures StoresOf(op)[0].Word? && Decode(StoresOf(op)[0].bits) == SelectedBy(ops)
  {
    match op
    case Reset(slot) => TaggingRoundTrips(Sse41, slot);
    case Publish(width, slot) => TaggingRoundTrips(width, slot);
  }

  /** The mirrors give no such guarantee: a reader between two mirror stores of a second
      publication sees the new width with the old slot. */
  lemma MirrorsCanBeTorn(first: Bits, second: Bits) returns (ops: seq<Operation>, k: nat)
    requires Encodable(first) && Encodable(second) && first != second
    ensures ops == [Publish(Sse41, first), Publish(Avx512, second)] && k <= |AllStores(ops)|
    ensures var c := WriteAll(INITIAL, AllStores(ops)[..k]); c.width == Avx512 && c.active == first
  {
    ops := [Publish(Sse41, first), Publish(Avx512, second)];
    var a, b := StoresOf(ops[0]), StoresOf(ops[1]);
    k := |a| + 2;
    assert ops[..1] == [ops[0]] && ops[..1][..0] == [];
    assert AllStores(ops[..1]) == a && AllStores(ops) == AllStores(ops[..1]) + b;
    assert AllStores(ops)[..k] == a + [b[0]] + [b[1]];
    WriteLast(INITIAL, a + [b[0]], b[1]);
    WriteLast(INITIAL, a, b[0]);
    WriteLast(INITIAL, a[..5], a[5]);
    WriteLast(INITIAL, a[..4], a[4]);
    WriteLast(INITIAL, a[..3], a[3]);
    assert a[..3] + [a[3]] == a[..4] && a[..4] + [a[4]] == a[..5] && a[..5] + [a[5]] == a;
  }

  lemma WriteLast(c: Cells, stores: seq<Store>, s: Store)
    ensures WriteAll(c, stores + [s]) == Write(WriteAll(c, stores), s)
  {
    assert (stores + [s])[..|stores|] == stores;
  }
}
