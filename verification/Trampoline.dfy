/** The trampoline table: one code page built writable and sealed executable, a slot per width,
    the published selection and the attested hash of the selected slot. Operations run under the
    patch lock; system calls and the hash primitive may fail and are inputs. */
module Trampoline {

  import opened SimdWidth
  import opened Statistics
  import opened WidthAuthorization
  import opened TrampolineState

  type Code = seq<nat>

  datatype Protection = Unmapped | ReadWrite | ReadExecute

  /** How the calls an operation may make turn out. `page` is the address mmap returns. */
  datatype Outside = Outside(
    page: Option<Bits>, sealed: bool, verified: bool, hashed: bool, hashLock: bool, maxWidth: Width)

  const PAGE_SIZE: int := 4096
  const SLOT_STRIDE: int := 64

  /** mmap returns page-aligned, non-null addresses whose page fits the address space. */
  predicate PageAddress(page: Bits) {
    page != 0 && page % PAGE_SIZE == 0
  }

  function SlotAddress(page: Bits, w: Width): (slot: Bits)
    requires PageAddress(page)
    ensures Encodable(slot)
  {
    PageHoldsSlots(page);
    match w
    case Sse41 => page
    case Avx2 => page + SLOT_STRIDE
    case Avx512 => page + 2 * SLOT_STRIDE
  }

  lemma PageHoldsSlots(page: Bits)
    requires PageAddress(page)
    ensures page + PAGE_SIZE <= 0x1_0000_0000_0000_0000
    ensures page % 4 == 0 && (page + 64) % 4 == 0 && (page + 128) % 4 == 0
  {
    var n := page / 4096;
    assert page == 4096 * n;
    assert n < 0x10_0000_0000_0000;
    Remainder(page, 4, 1024 * n, 0);
    Remainder(page + 64, 4, 1024 * n + 16, 0);
    Remainder(page + 128, 4, 1024 * n + 32, 0);
  }

  /** The slots lie 64 bytes apart inside one page, in the order of the widths. */
  lemma SlotsAreApart(page: Bits, w: Width)
    requires PageAddress(page)
    ensures SlotAddress(page, w) == page + Index(w) * 64 && SlotAddress(page, w) + 64 <= page + PAGE_SIZE
  {
    match w
    case Sse41 =>
    case Avx2 =>
    case Avx512 =>
  }

  /** The page can be built: mapped, every payload padded, sealed and verified. */
  ghost predicate Buildable(payload: Width -> Code, outside: Outside) {
    && outside.page.Some? && outside.sealed && outside.verified
    && HasLandingPad(payload(Sse41)) && HasLandingPad(payload(Avx2)) && HasLandingPad(payload(Avx512))
  }

  /** The ENDBR64 landing pad, little-endian. */
  predicate HasLandingPad(code: Code) {
    |code| >= 4 && code[0] == 0xF3 && code[1] == 0x0F && code[2] == 0x1E && code[3] == 0xFA
  }

  lemma LandingPadExactly(code: Code)
    ensures HasLandingPad(code) <==> [0xF3, 0x0F, 0x1E, 0xFA] <= code
  {
    if |code| >= 4 {
      assert code[..4] == [code[0], code[1], code[2], code[3]];
    }
  }

  lemma EveryWidth(payload: Width -> Code)
    ensures HasLandingPad(payload(Sse41)) && HasLandingPad(payload(Avx2)) && HasLandingPad(payload(Avx512))
       <==> forall w: Width :: HasLandingPad(payload(w))
  {
    if HasLandingPad(payload(Sse41)) && HasLandingPad(payload(Avx2)) && HasLandingPad(payload(Avx512)) {
      forall w: Width ensures HasLandingPad(payload(w)) {
        match w
        case Sse41 =>
        case Avx2 =>
        case Avx512 =>
      }
    }
  }

  class Table {
    const sha: Code -> Code
    const payload: Width -> Code
    var page: Option<Bits>
    var protection: Protection
    var writableFlag: bool
    var slots: map<Width, Bits>
    var code: map<Width, Code>
    var active: Bits
    var inactive: Bits
    var cells: Cells
    var hash: Code
    var hashValid: bool

    ghost function Selection(): (s: Selection)
      reads this
    {
      Decode(cells.word)
    }

    /** The table is absent, or sealed with every slot holding its canonical payload. */
    ghost predicate Sealed()
      reads this
    {
      if page.None? then protection == Unmapped && !writableFlag && slots == map[]
      else
        && PageAddress(page.value) && protection == ReadExecute && !writableFlag
        && forall w: Width ::
             && w in slots && slots[w] == SlotAddress(page.value, w)
             && w in code && code[w] == payload(w) && HasLandingPad(code[w])
    }

    /** What is published is the slot of its width on the sealed page, and a valid hash is the hash
        of the code in the selected slot. */
    ghost predicate Valid()
      reads this
    {
      && Sealed()
      && (cells.initialized ==> Selection().Selected?)
      && match Selection()
         case NoDevice => !hashValid
         case Corrupt => false
         case Selected(w, slot) =>
           page.Some? && slot == SlotAddress(page.value, w) && (hashValid ==> hash == sha(code[w]))
    }

    constructor (sha: Code -> Code, payload: Width -> Code)
      ensures Valid() && Selection() == NoDevice && this.sha == sha && this.payload == payload
    {
      this.sha, this.payload := sha, payload;
      page, protection, writableFlag, slots, code := None, Unmapped, false, map[], map[];
      active, inactive, cells, hash, hashValid := 0, 0, INITIAL, [], false;
    }

    /** Map writable, fill, seal, verify. Nothing is published while the page is writable: the
        selection is not touched here and there is none to begin with. */
    method BuildPage(outside: Outside) returns (ok: bool)
      requires Valid() && page.None? && (outside.page.Some? ==> PageAddress(outside.page.value))
      modifies this`page, this`protection, this`writableFlag, this`slots, this`code, this`active, this`inactive
      ensures Valid() && ok == page.Some? && (ok ==> page == outside.page)
      ensures ok <==> Buildable(payload, outside)
    {
      assert Selection() == NoDevice;
      if outside.page.None? {
        return false;
      }
      page, protection, writableFlag := outside.page, ReadWrite, true;
      var padded := HasLandingPad(payload(Sse41)) && HasLandingPad(payload(Avx2)) && HasLandingPad(payload(Avx512));
      EveryWidth(payload);
      if !padded {
        Discard();
        return false;
      }
      Fill(outside.page.value);
      if outside.sealed {
        protection, writableFlag := ReadExecute, false;
      }
      if !outside.sealed || !outside.verified {
        Discard();
        return false;
      }
      return true;
    }

    /** Copy every canonical payload into its slot. */
    method Fill(base: Bits)
      requires PageAddress(base)
      modifies this`slots, this`code
      ensures forall w: Width :: w in slots && slots[w] == SlotAddress(base, w)
      ensures forall w: Width :: w in code && code[w] == payload(w)
    {
      slots, code := map[], map[];
      for i := 0 to 3
        invariant forall w: Width :: Index(w) < i ==> w in slots && slots[w] == SlotAddress(base, w)
        invariant forall w: Width :: Index(w) < i ==> w in code && code[w] == payload(w)
      {
        slots := slots[WidthOf(i) := SlotAddress(base, WidthOf(i))];
        code := code[WidthOf(i) := payload(WidthOf(i))];
        assert forall w: Width :: Index(w) == i ==> w == WidthOf(i);
      }
      assert forall w: Width :: Index(w) < 3;
    }

    method Discard()
      modifies this`page, this`protection, this`writableFlag, this`slots, this`active, this`inactive
      ensures page == None && protection == Unmapped && !writableFlag && slots == map[] && active == inactive == 0
    {
      page, protection, writableFlag, slots, active, inactive := None, Unmapped, false, map[], 0, 0;
    }

    /** Store by store, as concurrent readers can observe them. */
    method StoreAll(stores: seq<Store>)
      modifies this`cells
      ensures cells == WriteAll(old(cells), stores)
    {
      for i := 0 to |stores|
        invariant cells == WriteAll(old(cells), stores[..i])
      {
        assert stores[..i + 1][..i] == stores[..i];
        cells := Write(cells, stores[i]);
      }
      assert stores[..|stores|] == stores;
    }

    method PublishSelection(width: Width, slot: Bits)
      requires Encodable(slot)
      modifies this`cells
      ensures cells == WriteAll(old(cells), StoresOf(Publish(width, slot)))
      ensures cells == Cells(Encode(width, slot), width, width, slot, true, old(cells.attempt), width)
      ensures Decode(cells.word) == Selected(width, slot)
    {
      StoreAll(StoresOf(Publish(width, slot)));
      PublishedCells(old(cells), width, slot);
      TaggingRoundTrips(width, slot);
    }

    method ResetSelection(slot: Bits)
      requires Encodable(slot)
      modifies this`cells
      ensures cells == WriteAll(old(cells), StoresOf(Reset(slot)))
      ensures cells == Cells(Encode(Sse41, slot), Sse41, Sse41, slot, false, 0, Sse41)
      ensures Decode(cells.word) == Selected(Sse41, slot)
    {
      StoreAll(StoresOf(Reset(slot)));
      ResetCells(old(cells), slot);
      TaggingRoundTrips(Sse41, slot);
    }

    /** Initialize to SSE4.1 with no attested hash. */
    method Init(outside: Outside) returns (ok: bool)
      requires Valid() && (outside.page.Some? ==> PageAddress(outside.page.value))
      modifies this
      ensures Valid()
      ensures ok <==> (old(page).Some? || Buildable(payload, outside)) && outside.hashLock
      ensures ok ==> page.Some? && Selection() == Selected(Sse41, SlotAddress(page.value, Sse41)) && !hashValid
      ensures ok ==> !cells.initialized && cells.attempt == 0 && active == slots[Sse41] && inactive == slots[Avx2]
      ensures !ok ==> cells == old(cells) && hashValid == old(hashValid) && hash == old(hash)
    {
      if page.None? {
        ok := BuildPage(outside);
        if !ok {
          return;
        }
      }
      if !outside.hashLock {
        return false;
      }
      active, inactive := slots[Sse41], slots[Avx2];
      ResetSelection(slots[Sse41]);
      hashValid := false;
      return true;
    }

    /** Publish the selection and its hash as one transaction. */
    method Commit(width: Width, target: Bits, outside: Outside) returns (ok: bool)
      requires Valid() && page.Some? && target == SlotAddress(page.value, width)
      modifies this`active, this`inactive, this`cells, this`hash, this`hashValid
      ensures Valid() && ok == (outside.hashed && outside.hashLock) && cells.attempt == old(cells.attempt)
      ensures ok ==> cells.initialized && cells.width == cells.patched == width && active == target && inactive == old(cells.active)
      ensures ok ==> Selection() == Selected(width, target) && hashValid && hash == sha(payload(width))
      ensures !ok ==> cells == old(cells) && hashValid == old(hashValid) && hash == old(hash)
    {
      var newHash := sha(code[width]);
      if !outside.hashed || !outside.hashLock {
        return false;
      }
      hashValid := false;
      active, inactive := target, cells.active;
      PublishSelection(width, target);
      hash := newHash;
      hashValid := true;
      return true;
    }

    /** Select a width: any failure leaves selection and hash as they were. */
    method Patch(requested: int, outside: Outside) returns (ok: bool)
      requires Valid() && (outside.page.Some? ==> PageAddress(outside.page.value))
      modifies this
      ensures Valid()
      ensures cells.attempt == requested % 256
      ensures ok <==>
        && 0 <= requested <= Index(outside.maxWidth) && (old(page).Some? || Buildable(payload, outside))
        && outside.verified && outside.hashed && outside.hashLock
      ensures ok ==> cells.initialized && cells.width == cells.patched == WidthOf(requested) && active == slots[WidthOf(requested)]
      ensures ok ==> page.Some? && Selection() == Selected(WidthOf(requested), SlotAddress(page.value, WidthOf(requested)))
      ensures ok ==> hashValid && hash == sha(payload(WidthOf(requested)))
      ensures !ok ==> Selection() == old(Selection()) && hashValid == old(hashValid) && hash == old(hash)
    {
      cells := Write(cells, Attempted(requested % 256));
      if requested < 0 || requested > 2 || requested > Index(outside.maxWidth) {
        return false;
      }
      var width := WidthOf(requested);
      if page.None? {
        ok := BuildPage(outside);
        if !ok {
          return;
        }
      }
      if !HasLandingPad(payload(width)) || !outside.verified {
        return false;
      }
      ok := Commit(width, slots[width], outside);
    }

    /** The public selector holds the guard lock around the authorization check and the patch, so
        a wide selection is committed only while it is authorized. */
    method GuardedPatch(requested: int, guardLock: bool, stopping: bool, g: Guard, l: Limits, now: nat,
        outside: Outside) returns (ok: bool)
      requires Valid() && (outside.page.Some? ==> PageAddress(outside.page.value))
      modifies this
      ensures Valid()
      ensures ok ==> guardLock && 0 <= requested <= 2 && WidthAuthorized(WidthOf(requested), stopping, g, l, now)
      ensures ok <==>
        && guardLock && 0 <= requested <= Index(outside.maxWidth) && (old(page).Some? || Buildable(payload, outside))
        && (requested > 0 ==> !stopping && GuardAuthorizes(g, l, now))
        && outside.verified && outside.hashed && outside.hashLock
      ensures ok ==> page.Some? && Selection() == Selected(WidthOf(requested), SlotAddress(page.value, WidthOf(requested)))
      ensures !ok ==> Selection() == old(Selection()) && hashValid == old(hashValid) && hash == old(hash)
    {
      if !guardLock {
        return false;
      }
      if requested > 0 && !WidthAuthorized(Avx2, stopping, g, l, now) {
        return false;
      }
      ok := Patch(requested, outside);
    }

    /** The hash getter: a returned hash is the hash of the payload of the selected width. */
    method ActiveHash(locked: bool) returns (r: Option<Code>)
      requires Valid()
      ensures r.Some? <==> locked && hashValid
      ensures r.Some? ==> Selection().Selected? && r.value == sha(payload(Selection().width))
    {
      if !locked || !hashValid {
        return None;
      }
      return Some(hash);
    }

    /** Self-validation of a valid table fails only before the first selection or on the mapping
        check. */
    method SelfValidate(outside: Outside) returns (ok: bool)
      requires Valid()
      ensures ok == (cells.initialized && outside.verified)
    {
      if !cells.initialized {
        return false;
      }
      var w := Decode(cells.word).width;
      return code[w] == payload(w) && HasLandingPad(code[w]) && outside.verified && !writableFlag;
    }
  }
}
