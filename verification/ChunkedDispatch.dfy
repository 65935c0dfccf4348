/** Chunked execution of the registered kernel under any schedule of selected widths, admission
    answers and faults, the benchmark pass that uses it, and the checksum of its output. */
module ChunkedDispatch {

  import opened SimdWidth
  import opened Statistics
  import opened Bits
  import opened Kernels

  // ---------------------------------------------------------------- width resolution

  /** Which kernels are registered, and the widest the host can run. SSE4.1 is mandatory. */
  datatype Dispatch = Dispatch(hostMax: Width, hasAvx2: bool, hasAvx512: bool)

  predicate Registered(d: Dispatch, w: Width) {
    match w
    case Sse41 => true
    case Avx2 => d.hasAvx2
    case Avx512 => d.hasAvx512
  }

  predicate AtMost(a: Width, b: Width) {
    Index(a) <= Index(b)
  }

  /** The widest registered kernel within both the selection and the host. */
  function Resolve(d: Dispatch, selected: Width): (r: Width)
    ensures Registered(d, r) && AtMost(r, selected) && AtMost(r, d.hostMax)
    ensures forall w :: Registered(d, w) && AtMost(w, selected) && AtMost(w, d.hostMax) ==> AtMost(w, r)
  {
    var capped := if AtMost(selected, d.hostMax) then selected else d.hostMax;
    if capped == Avx512 && d.hasAvx512 then Avx512
    else if AtMost(Avx2, capped) && d.hasAvx2 then Avx2
    else Sse41
  }

  /** What one execution meets: the selection it reads, whether a wide entry is admitted, whether the
      dispatcher itself fails before the callback, and whether its thread may account for work: only
      the owner may while a runtime is live. */
  datatype Attempt = Attempt(selected: Width, admitted: bool, fault: bool, accounts: bool)

  /** A wide kernel that is not admitted falls back to SSE4.1. */
  function UsedWidth(d: Dispatch, a: Attempt): (r: Width)
    ensures Registered(d, r) && (IsWide(r) ==> a.admitted)
    ensures r == Sse41 || r == Resolve(d, a.selected)
    ensures r == Sse41 <==> !a.admitted || Resolve(d, a.selected) == Sse41
  {
    var resolved := Resolve(d, a.selected);
    if IsWide(resolved) && !a.admitted then Sse41 else resolved
  }

  // ---------------------------------------------------------------- tiling

  datatype Chunk = Chunk(offset: nat, count: nat, width: Width)

  /** The chunks follow one another from lo to hi; none is empty or longer than `size`, and all
      but the last are full. */
  predicate Tiles(chunks: seq<Chunk>, lo: nat, hi: nat, size: nat) {
    if chunks == [] then lo == hi
    else
      var last := chunks[|chunks| - 1];
      && 0 < last.count <= size && last.offset + last.count == hi
      && Tiles(chunks[..|chunks| - 1], lo, last.offset, size)
      && AllFull(chunks[..|chunks| - 1], size)
  }

  predicate Contains(c: Chunk, k: int) {
    c.offset <= k < c.offset + c.count
  }

  lemma {:induction false} TilesWithin(chunks: seq<Chunk>, lo: nat, hi: nat, size: nat, i: nat)
    requires Tiles(chunks, lo, hi, size) && i < |chunks|
    ensures lo <= chunks[i].offset && chunks[i].offset + chunks[i].count <= hi
  {
    var last := |chunks| - 1;
    if last > 0 {
      TilesWithin(chunks[..last], lo, chunks[last].offset, size, if i < last then i else last - 1);
      assert chunks[..last][last - 1] == chunks[last - 1];
    }
  }

  /** Every index of the range lies in exactly one chunk. */
  lemma {:induction false} TilesCoverOnce(chunks: seq<Chunk>, lo: nat, hi: nat, size: nat, k: nat) returns (i: nat)
    requires Tiles(chunks, lo, hi, size) && lo <= k < hi
    ensures i < |chunks| && Contains(chunks[i], k)
    ensures forall j :: 0 <= j < |chunks| && Contains(chunks[j], k) ==> j == i
  {
    var last := |chunks| - 1;
    if k >= chunks[last].offset {
      i := last;
      forall j | 0 <= j < last ensures !Contains(chunks[j], k) {
        TilesWithin(chunks[..last], lo, chunks[last].offset, size, j);
      }
    } else {
      i := TilesCoverOnce(chunks[..last], lo, chunks[last].offset, size, k);
      forall j | 0 <= j < |chunks| && Contains(chunks[j], k) ensures j == i {
        assert j < last ==> chunks[..last][j] == chunks[j];
      }
    }
  }

  function ItemsAt(chunks: seq<Chunk>, w: Width): (r: nat) {
    if chunks == [] then 0
    else
      var last := chunks[|chunks| - 1];
      ItemsAt(chunks[..|chunks| - 1], w) + if last.width == w then last.count else 0
  }

  /** The items executed at the three widths add up to the range. */
  lemma {:induction false} WidthItemsAddUp(chunks: seq<Chunk>, lo: nat, hi: nat, size: nat)
    requires Tiles(chunks, lo, hi, size)
    ensures lo + ItemsAt(chunks, Sse41) + ItemsAt(chunks, Avx2) + ItemsAt(chunks, Avx512) == hi
  {
    if chunks != [] {
      WidthItemsAddUp(chunks[..|chunks| - 1], lo, chunks[|chunks| - 1].offset, size);
    }
  }

  // ---------------------------------------------------------------- chunked execution

  /** One execution: resolve, enter or fall back, run the kernel, account for completed work. */
  method Execute(d: Dispatch, ctx: KernelContext, a: Attempt, offset: nat, count: nat)
      returns (rc: int, used: Width, accounted: nat)
    requires ctx.Valid()
    modifies ctx.output
    ensures rc == if a.fault then -1 else if offset + count > ctx.input.Length then EINVAL else 0
    ensures rc != 0 ==> ctx.output[..] == old(ctx.output[..]) && accounted == 0
    ensures rc == 0 ==>
              && ctx.output[..] == Mixed(old(ctx.output[..]), ctx.input[..], ctx.rounds, offset, count)
              && accounted == (if a.accounts then count else 0) && used == UsedWidth(d, a)
  {
    used, accounted := Sse41, 0;
    if a.fault {
      return -1, used, accounted;
    }
    var actual := UsedWidth(d, a);
    rc := ctx.Kernel(actual, offset, count);
    if rc == 0 {
      used := actual;
      if count > 0 && a.accounts {
        accounted := count;
      }
    }
  }

  /** The part of the range that the chunks have completed. */
  ghost predicate Completed(now: seq<U32>, was: seq<U32>, input: seq<U32>, rounds: nat, offset: nat, done: nat)
    requires |was| == |input|
  {
    if done == 0 then now == was
    else offset + done <= |input| && now == Mixed(was, input, rounds, offset, done)
  }

  lemma CompletedNext(now: seq<U32>, mid: seq<U32>, was: seq<U32>, input: seq<U32>, rounds: nat, offset: nat,
      done: nat, count: nat)
    requires |was| == |input| && Completed(mid, was, input, rounds, offset, done) && count > 0
    requires |mid| == |input| && offset + done + count <= |input|
    requires now == Mixed(mid, input, rounds, offset + done, count)
    ensures Completed(now, was, input, rounds, offset, done + count)
  {
    if done > 0 {
      MixedConsecutive(was, input, rounds, offset, done, count);
    }
  }

  predicate AllFull(chunks: seq<Chunk>, size: nat) {
    forall i :: 0 <= i < |chunks| ==> chunks[i].count == size
  }

  lemma TilesAppend(chunks: seq<Chunk>, lo: nat, hi: nat, size: nat, c: Chunk)
    requires Tiles(chunks, lo, hi, size) && AllFull(chunks, size)
    requires c.offset == hi && 0 < c.count <= size
    ensures Tiles(chunks + [c], lo, hi + c.count, size)
  {
    assert (chunks + [c])[..|chunks|] == chunks;
  }

  /** Every chunk ran, without a fault, at the width its own attempt resolved to. */
  predicate FollowsSchedule(d: Dispatch, schedule: nat -> Attempt, chunks: seq<Chunk>) {
    forall i :: 0 <= i < |chunks| ==> chunks[i].width == UsedWidth(d, schedule(i)) && !schedule(i).fault
  }

  /** The items of the chunks whose thread may account for work. */
  function AccountedBy(schedule: nat -> Attempt, chunks: seq<Chunk>): (n: nat) {
    if chunks == [] then 0
    else
      var last := |chunks| - 1;
      AccountedBy(schedule, chunks[..last]) + if schedule(last).accounts then chunks[last].count else 0
  }

  lemma AccountedAppend(schedule: nat -> Attempt, chunks: seq<Chunk>, c: Chunk)
    ensures AccountedBy(schedule, chunks + [c])
         == AccountedBy(schedule, chunks) + if schedule(|chunks|).accounts then c.count else 0
  {
    assert (chunks + [c])[..|chunks|] == chunks;
  }

  /** On the owner thread the work counter grows by exactly the completed part; no schedule grows it
      by more. */
  lemma {:induction false} OwnerAccountsEverything(schedule: nat -> Attempt, chunks: seq<Chunk>, lo: nat, hi: nat, size: nat)
    requires Tiles(chunks, lo, hi, size)
    ensures lo + AccountedBy(schedule, chunks) <= hi
    ensures (forall i :: 0 <= i < |chunks| ==> schedule(i).accounts) ==> lo + AccountedBy(schedule, chunks) == hi
  {
    if chunks != [] {
      OwnerAccountsEverything(schedule, chunks[..|chunks| - 1], lo, chunks[|chunks| - 1].offset, size);
    }
  }

  /** Main result: whatever width each chunk resolves to, the chunks tile the completed part of the
      range without overlap, the output is the scalar mix over exactly that part, and the work
      counter has grown by the chunks whose thread may account. A failed call stopped at a chunk that
      faulted or lay outside the buffers; a successful one completed the whole range. */
  method ExecuteChunked(d: Dispatch, ctx: KernelContext, schedule: nat -> Attempt, offset: nat, total: nat,
      size: nat) returns (rc: int, last: Width, chunks: seq<Chunk>, done: nat, accounted: nat)
    requires ctx.Valid() && offset <= SIZE_MAX && total <= SIZE_MAX
    modifies ctx.output
    ensures Completed(ctx.output[..], old(ctx.output[..]), ctx.input[..], ctx.rounds, offset, done)
    ensures Tiles(chunks, offset, offset + done, size) && FollowsSchedule(d, schedule, chunks)
    ensures accounted == AccountedBy(schedule, chunks)
    ensures size == 0 || offset + total > SIZE_MAX ==> rc != 0 && done == 0
    ensures rc == 0 ==> done == total
    ensures rc == 0 && total > 0 ==> chunks != [] && last == chunks[|chunks| - 1].width
    ensures rc != 0 && size > 0 && offset + total <= SIZE_MAX ==>
              done < total && (schedule(|chunks|).fault || offset + total > ctx.input.Length)
  {
    if size == 0 || offset > SIZE_MAX - total {
      return -1, Sse41, [], 0, 0;
    }
    if total == 0 {
      last := Resolve(d, schedule(0).selected);
      return 0, last, [], 0, 0;
    }
    rc, last, chunks, done, accounted := ExecuteLoop(d, ctx, schedule, offset, total, size);
  }

  /** The chunk that follows the completed part. */
  method ExecuteNext(d: Dispatch, ctx: KernelContext, a: Attempt, offset: nat, done: nat, count: nat,
      ghost was: seq<U32>) returns (rc: int, used: Width, accounted: nat)
    requires ctx.Valid() && count > 0 && |was| == ctx.input.Length
    requires Completed(ctx.output[..], was, ctx.input[..], ctx.rounds, offset, done)
    modifies ctx.output
    ensures rc == 0 <==> !a.fault && offset + done + count <= ctx.input.Length
    ensures rc == 0 ==> accounted == (if a.accounts then count else 0) && used == UsedWidth(d, a)
    ensures Completed(ctx.output[..], was, ctx.input[..], ctx.rounds, offset, if rc == 0 then done + count else done)
  {
    ghost var mid := ctx.output[..];
    rc, used, accounted := Execute(d, ctx, a, offset + done, count);
    if rc == 0 {
      CompletedNext(ctx.output[..], mid, was, ctx.input[..], ctx.rounds, offset, done, count);
    }
  }

  /** The executed chunks, where they lead and what they account for. */
  predicate Progress(d: Dispatch, schedule: nat -> Attempt, chunks: seq<Chunk>, lo: nat, hi: nat, size: nat, accounted: nat) {
    && Tiles(chunks, lo, hi, size) && FollowsSchedule(d, schedule, chunks)
    && accounted == AccountedBy(schedule, chunks)
  }

  lemma ProgressAppend(d: Dispatch, schedule: nat -> Attempt, chunks: seq<Chunk>, lo: nat, hi: nat, size: nat,
      accounted: nat, c: Chunk)
    requires Progress(d, schedule, chunks, lo, hi, size, accounted) && AllFull(chunks, size)
    requires c.offset == hi && 0 < c.count <= size
    requires var a := schedule(|chunks|); !a.fault && c.width == UsedWidth(d, a)
    ensures Progress(d, schedule, chunks + [c], lo, hi + c.count, size,
              accounted + if schedule(|chunks|).accounts then c.count else 0)
  {
    TilesAppend(chunks, lo, hi, size, c);
    AccountedAppend(schedule, chunks, c);
  }

  /** Progress with `remaining` items to go: every chunk so far is full, and the last one ran at `last`. */
  predicate Going(d: Dispatch, schedule: nat -> Attempt, chunks: seq<Chunk>, lo: nat, done: nat, remaining: nat,
      size: nat, accounted: nat, last: Width) {
    && Progress(d, schedule, chunks, lo, lo + done, size, accounted)
    && (remaining > 0 ==> AllFull(chunks, size))
    && (done > 0 ==> chunks != [] && last == chunks[|chunks| - 1].width)
  }

  lemma GoingAppend(d: Dispatch, schedule: nat -> Attempt, chunks: seq<Chunk>, lo: nat, done: nat, remaining: nat,
      size: nat, accounted: nat, last: Width, c: Chunk)
    requires Going(d, schedule, chunks, lo, done, remaining, size, accounted, last) && remaining > 0 && size > 0
    requires c.offset == lo + done && c.count == if remaining < size then remaining else size
    requires var a := schedule(|chunks|); !a.fault && c.width == UsedWidth(d, a)
    ensures Going(d, schedule, chunks + [c], lo, done + c.count, remaining - c.count, size,
              accounted + (if schedule(|chunks|).accounts then c.count else 0), c.width)
  {
    ProgressAppend(d, schedule, chunks, lo, lo + done, size, accounted, c);
  }

  method ExecuteLoop(d: Dispatch, ctx: KernelContext, schedule: nat -> Attempt, offset: nat, total: nat,
      size: nat) returns (rc: int, last: Width, chunks: seq<Chunk>, done: nat, accounted: nat)
    requires ctx.Valid() && total > 0 && size > 0
    modifies ctx.output
    ensures Completed(ctx.output[..], old(ctx.output[..]), ctx.input[..], ctx.rounds, offset, done)
    ensures Tiles(chunks, offset, offset + done, size) && FollowsSchedule(d, schedule, chunks)
    ensures accounted == AccountedBy(schedule, chunks)
    ensures rc == 0 ==> done == total && chunks != [] && last == chunks[|chunks| - 1].width
    ensures rc != 0 ==> done < total && (schedule(|chunks|).fault || offset + total > ctx.input.Length)
  {
    rc, last, chunks, done, accounted := 0, Sse41, [], 0, 0;
    var remaining: nat := total;
    ghost var was := ctx.output[..];
    while remaining > 0
      invariant rc == 0 && done + remaining == total
      invariant Completed(ctx.output[..], was, ctx.input[..], ctx.rounds, offset, done)
      invariant Going(d, schedule, chunks, offset, done, remaining, size, accounted, last)
      decreases remaining
    {
      var count := if remaining < size then remaining else size;
      var used, items;
      rc, used, items := ExecuteNext(d, ctx, schedule(|chunks|), offset, done, count, was);
      if rc != 0 {
        return;
      }
      GoingAppend(d, schedule, chunks, offset, done, remaining, size, accounted, last, Chunk(offset + done, count, used));
      last, chunks := used, chunks + [Chunk(offset + done, count, used)];
      done, accounted, remaining := done + count, accounted + items, remaining - count;
    }
  }

  // ---------------------------------------------------------------- benchmark passes

  /** Progress counters of the benchmark, with one slot per width. */
  class BenchmarkResult {
    var completedPasses: nat
    var completedWorkItems: nat
    const widthWorkItems: array<nat>

    /** Conservation: the items counted per width add up to the items completed. */
    ghost predicate Valid()
      reads this, widthWorkItems
    {
      && widthWorkItems.Length == 3
      && completedWorkItems == widthWorkItems[0] + widthWorkItems[1] + widthWorkItems[2]
    }

    constructor ()
      ensures Valid() && fresh(widthWorkItems) && completedPasses == 0 && completedWorkItems == 0
    {
      completedPasses, completedWorkItems := 0, 0;
      widthWorkItems := new nat[3](_ => 0);
    }

    method Count(used: Width, items: nat)
      requires Valid()
      modifies this`completedWorkItems, widthWorkItems
      ensures Valid() && completedWorkItems == old(completedWorkItems) + items
      ensures forall i :: 0 <= i < 3 ==>
                widthWorkItems[i] == old(widthWorkItems[i]) + if i == Index(used) then items else 0
    {
      completedWorkItems := completedWorkItems + items;
      widthWorkItems[Index(used)] := widthWorkItems[Index(used)] + items;
    }

    /** One pass over the whole buffer in chunks of any size: it succeeds unless an execution
        faults, and then the output is the scalar mix of the whole input. */
    method RunPass(d: Dispatch, fixed: Option<Width>, ctx: KernelContext, schedule: nat -> Attempt, size: nat)
        returns (ok: bool)
      requires Valid() && ctx.Valid() && size > 0
      modifies this, widthWorkItems, ctx.output
      ensures Valid()
      ensures ok ==> ctx.output[..] == MixAll(ctx.input[..], ctx.rounds)
      ensures ok ==> completedPasses == old(completedPasses) + 1
      ensures ok ==> completedWorkItems == old(completedWorkItems) + ctx.input.Length
      ensures fixed.Some? ==> ok
      ensures (forall n :: !schedule(n).fault) ==> ok
    {
      var offset, n: nat := 0, 0;
      ghost var was := ctx.output[..];
      while offset < ctx.input.Length
        invariant offset <= ctx.input.Length && Valid()
        invariant Completed(ctx.output[..], was, ctx.input[..], ctx.rounds, 0, offset)
        invariant completedPasses == old(completedPasses)
        invariant completedWorkItems == old(completedWorkItems) + offset
      {
        var count := if ctx.input.Length - offset > size then size else ctx.input.Length - offset;
        // a fixed mode calls its kernel directly: a dispatch that always resolves to it
        var attempt := match fixed
          case None => schedule(n)
          case Some(w) => Attempt(w, true, false, false);
        var wide := Dispatch(Avx512, true, true);
        var rc, used, items := ExecuteNext(if fixed.Some? then wide else d, ctx, attempt, 0, offset, count, was);
        if rc != 0 {
          return false;
        }
        Count(used, count);
        offset, n := offset + count, n + 1;
      }
      assert ctx.output[..] == MixAll(ctx.input[..], ctx.rounds);
      completedPasses := completedPasses + 1;
      return true;
    }
  }

  // ---------------------------------------------------------------- checksum

  const FNV_OFFSET: U64 := 1469598103934665603
  const FNV_PRIME: U64 := 1099511628211

  function FnvStep(hash: U64, byte: nat): (r: U64) {
    Xor(hash, byte, 64) * FNV_PRIME % 0x1_0000_0000_0000_0000
  }

  /** FNV-1a over a byte string. */
  function Fnv1a(bytes: seq<nat>): (r: U64) {
    if bytes == [] then FNV_OFFSET else FnvStep(Fnv1a(bytes[..|bytes| - 1]), bytes[|bytes| - 1])
  }

  function Byte(value: U32, n: nat): (r: nat)
    ensures r < 0x100
  {
    ShiftRight(value, 8 * n) % 0x100
  }

  /** The four bytes of a value, least significant first. */
  function ValueBytes(value: U32): (r: seq<nat>)
    ensures |r| == 4
  {
    [Byte(value, 0), Byte(value, 1), Byte(value, 2), Byte(value, 3)]
  }

  /** The bytes are the digits of the value to the base 256. */
  lemma BytesAreDigits(value: U32)
    ensures var b := ValueBytes(value); value == b[0] + 0x100 * b[1] + 0x1_0000 * b[2] + 0x100_0000 * b[3]
  {
    Shift8(value, 0);
    Shift8(value, 8);
    Shift8(value, 16);
    var v1, v2, v3 := ShiftRight(value, 8), ShiftRight(value, 16), ShiftRight(value, 24);
    assert v3 < 0x100;
  }

  lemma Shift8(x: U64, n: nat)
    ensures ShiftRight(x, n + 8) == ShiftRight(x, n) / 0x100
  {
    ShiftMore(x, n, 8);
    ShiftByte(ShiftRight(x, n), 8);
  }

  lemma ShiftByte(y: U64, m: nat)
    requires m == 8
    ensures ShiftRight(y, m) == y / 0x100
  {
    ShiftRightIsFloor(y, m);
    Pow2Plus8(m - 8);
    Remainder(y, 0x100, ShiftRight(y, m), y - ShiftRight(y, m) * 0x100);
  }

  lemma {:induction false} ShiftMore(x: U64, n: nat, m: nat)
    ensures ShiftRight(x, n + m) == ShiftRight(ShiftRight(x, n), m)
    decreases n
  {
    if n > 0 {
      ShiftMore(x / 2, n - 1, m);
    }
  }

  function LittleEndian(values: seq<U32>): (r: seq<nat>)
    ensures |r| == 4 * |values|
  {
    if values == [] then []
    else LittleEndian(values[..|values| - 1]) + ValueBytes(values[|values| - 1])
  }

  lemma FnvAppend(bytes: seq<nat>, byte: nat)
    ensures Fnv1a(bytes + [byte]) == FnvStep(Fnv1a(bytes), byte)
  {
    assert (bytes + [byte])[..|bytes|] == bytes;
  }

  /** The inner loop folds the four bytes of one value. */
  method HashValue(seed: U64, value: U32, ghost bytes: seq<nat>) returns (hash: U64)
    requires seed == Fnv1a(bytes)
    ensures hash == Fnv1a(bytes + ValueBytes(value))
  {
    hash := seed;
    assert bytes + ValueBytes(value)[..0] == bytes;
    for byte := 0 to 4
      invariant hash == Fnv1a(bytes + ValueBytes(value)[..byte])
    {
      hash := FnvStep(hash, Byte(value, byte));
      FnvAppend(bytes + ValueBytes(value)[..byte], Byte(value, byte));
      assert bytes + ValueBytes(value)[..byte] + [Byte(value, byte)] == bytes + ValueBytes(value)[..byte + 1];
    }
    assert ValueBytes(value)[..4] == ValueBytes(value);
  }

  /** The checksum loop folds the little-endian bytes of the output. */
  method ChecksumOutput(ctx: KernelContext) returns (hash: U64)
    ensures hash == Fnv1a(LittleEndian(ctx.output[..]))
  {
    hash := FNV_OFFSET;
    for index := 0 to ctx.output.Length
      invariant hash == Fnv1a(LittleEndian(ctx.output[..index]))
    {
      assert ctx.output[..index + 1][..index] == ctx.output[..index];
      hash := HashValue(hash, ctx.output[index], LittleEndian(ctx.output[..index]));
    }
    assert ctx.output[..ctx.output.Length] == ctx.output[..];
  }

  /** The checksum of a successful run is that of the scalar mix: two contexts with the same input
      and rounds whose outputs are both complete have the same checksum, whatever widths ran. */
  lemma ChecksumIsScheduleIndependent(a: seq<U32>, b: seq<U32>, input: seq<U32>, was: seq<U32>, was': seq<U32>,
      rounds: nat)
    requires |was| == |was'| == |input|
    requires Completed(a, was, input, rounds, 0, |input|) && Completed(b, was', input, rounds, 0, |input|)
    ensures a == b == MixAll(input, rounds)
    ensures Fnv1a(LittleEndian(a)) == Fnv1a(LittleEndian(MixAll(input, rounds))) == Fnv1a(LittleEndian(b))
  {
    assert a == MixAll(input, rounds);
    assert b == MixAll(input, rounds);
  }
}
