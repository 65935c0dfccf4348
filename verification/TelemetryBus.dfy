/** Per-source slots of the telemetry bus and the fused reading chosen from them: which key each
    slot holds, and which reading fusion selects, whatever the order of publication and of map
    iteration. Timestamps count from the epoch; 0 is the default of a fresh slot. */
module TelemetryBus {

  import opened SimdWidth

  /** A reading; a non-finite value is None. */
  datatype Reading = Reading(value: Option<real>, valid: bool, quality: int, timestamp: nat)

  const FRESH_SLOT: Reading := Reading(Some(0.0), false, 0, 0)

  // ---------------------------------------------------------------- slots

  /** Newer wins, and quality breaks ties; a slot still at the epoch is always replaced. */
  predicate Replaces(slot: Reading, r: Reading) {
    slot.timestamp == 0 || r.timestamp > slot.timestamp
    || (r.timestamp == slot.timestamp && r.quality >= slot.quality)
  }

  function Offer(slot: Reading, r: Reading): (s: Reading) {
    if Replaces(slot, r) then r else slot
  }

  function SlotAfter(readings: seq<Reading>): (s: Reading) {
    if readings == [] then FRESH_SLOT
    else Offer(SlotAfter(readings[..|readings| - 1]), readings[|readings| - 1])
  }

  /** The order of slots: timestamp first, then quality. */
  predicate SlotKeyAtMost(a: Reading, b: Reading) {
    a.timestamp < b.timestamp || (a.timestamp == b.timestamp && a.quality <= b.quality)
  }

  predicate SlotGreatest(s: Reading, readings: seq<Reading>) {
    && (exists i :: 0 <= i < |readings| && readings[i] == s)
    && forall i :: 0 <= i < |readings| ==> SlotKeyAtMost(readings[i], s)
  }

  predicate SomePositive(readings: seq<Reading>) {
    exists i :: 0 <= i < |readings| && readings[i].timestamp > 0
  }

  /** What the slot holds: the greatest key once a positive timestamp was published, else the last
      reading. */
  lemma {:induction false} SlotHolds(readings: seq<Reading>)
    requires readings != []
    ensures if SomePositive(readings) then SlotGreatest(SlotAfter(readings), readings)
            else SlotAfter(readings) == readings[|readings| - 1]
    ensures SomePositive(readings) <==> SlotAfter(readings).timestamp > 0
  {
    var n := |readings| - 1;
    var before := readings[..n];
    assert readings == before + [readings[n]];
    if n > 0 {
      SlotHolds(before);
      if SomePositive(before) {
        SlotStep(before, readings[n]);
      } else {
        LastIsFirstPositive(before, readings[n]);
      }
    } else {
      assert before == [];
    }
  }

  lemma SlotStep(before: seq<Reading>, r: Reading)
    requires SlotGreatest(SlotAfter(before), before) && SlotAfter(before).timestamp > 0
    ensures SlotGreatest(Offer(SlotAfter(before), r), before + [r]) && SomePositive(before + [r])
  {
    var slot, all := SlotAfter(before), before + [r];
    var i :| 0 <= i < |before| && before[i] == slot;
    assert all[i] == slot && all[|before|] == r;
  }

  lemma LastIsFirstPositive(before: seq<Reading>, r: Reading)
    requires !SomePositive(before)
    ensures SomePositive(before + [r]) <==> r.timestamp > 0
    ensures r.timestamp > 0 ==> SlotGreatest(r, before + [r])
  {
    var all := before + [r];
    assert all[|before|] == r;
    forall i | 0 <= i < |before| ensures all[i].timestamp == 0 {
      assert before[i].timestamp == 0;
    }
  }

  /** Main result: the slot holds the greatest (timestamp, quality) key exactly when some published
      timestamp is positive or the last reading's quality is the greatest of all. */
  lemma SlotIsGreatestExactlyWhen(readings: seq<Reading>)
    requires readings != []
    ensures SlotGreatest(SlotAfter(readings), readings) <==>
      SomePositive(readings)
      || forall i :: 0 <= i < |readings| ==> readings[i].quality <= readings[|readings| - 1].quality
  {
    SlotHolds(readings);
    if !SomePositive(readings) {
      assert forall i :: 0 <= i < |readings| ==> readings[i].timestamp == 0;
    }
  }

  /** Zero timestamps really do defeat it. */
  lemma ZeroTimestampsForget() returns (readings: seq<Reading>)
    ensures |readings| == 2 && !SlotGreatest(SlotAfter(readings), readings)
  {
    readings := [Reading(None, true, 2, 0), Reading(None, true, 1, 0)];
    SlotIsGreatestExactlyWhen(readings);
    assert readings[0].quality > readings[1].quality;
    assert !SomePositive(readings);
  }

  /** With positive timestamps the key held does not depend on the order of publication. */
  lemma SlotKeyIsOrderIndependent(a: seq<Reading>, b: seq<Reading>)
    requires multiset(a) == multiset(b) && SomePositive(a)
    ensures SlotAfter(a).timestamp == SlotAfter(b).timestamp && SlotAfter(a).quality == SlotAfter(b).quality
  {
    var p :| 0 <= p < |a| && a[p].timestamp > 0;
    assert a[p] in multiset(b);
    var q :| 0 <= q < |b| && b[q] == a[p];
    SlotHolds(a);
    SlotHolds(b);
    var i :| 0 <= i < |a| && a[i] == SlotAfter(a);
    var j :| 0 <= j < |b| && b[j] == SlotAfter(b);
    assert a[i] in multiset(b) && b[j] in multiset(a);
    var i' :| 0 <= i' < |b| && b[i'] == a[i];
    var j' :| 0 <= j' < |a| && a[j'] == b[j];
    assert SlotKeyAtMost(b[i'], SlotAfter(b)) && SlotKeyAtMost(a[j'], SlotAfter(a));
  }

  // ---------------------------------------------------------------- the bus

  type Signal = nat
  type Source = string

  datatype Publication = Publication(signal: Signal, source: Source, reading: Reading)

  /** An empty source is the default one. */
  function KeyOf(p: Publication): (k: (Signal, Source)) {
    (p.signal, if p.source == "" then "default" else p.source)
  }

  /** The readings published to one slot, in order. */
  function PublishedTo(log: seq<Publication>, key: (Signal, Source)): (r: seq<Reading>) {
    if log == [] then []
    else
      var before, last := PublishedTo(log[..|log| - 1], key), log[|log| - 1];
      if KeyOf(last) == key then before + [last.reading] else before
  }

  lemma PublishedNext(log: seq<Publication>, p: Publication, key: (Signal, Source))
    ensures PublishedTo(log + [p], key) == if KeyOf(p) == key then PublishedTo(log, key) + [p.reading] else PublishedTo(log, key)
  {
    assert (log + [p])[..|log|] == log;
  }

  lemma SlotAfterNext(readings: seq<Reading>, r: Reading)
    ensures SlotAfter(readings + [r]) == Offer(SlotAfter(readings), r)
  {
    assert (readings + [r])[..|readings|] == readings;
  }

  /** Every slot is what its own publications left in it. */
  ghost predicate SlotsFollow(slots: map<(Signal, Source), Reading>, log: seq<Publication>) {
    && (forall k :: k in slots ==> slots[k] == SlotAfter(PublishedTo(log, k)))
    && (forall k :: k !in slots ==> PublishedTo(log, k) == [])
  }

  lemma PublishFollows(slots: map<(Signal, Source), Reading>, log: seq<Publication>, p: Publication, slot: Reading)
    requires SlotsFollow(slots, log)
    requires slot == Offer(if KeyOf(p) in slots then slots[KeyOf(p)] else FRESH_SLOT, p.reading)
    ensures SlotsFollow(slots[KeyOf(p) := slot], log + [p])
  {
    SlotAfterNext(PublishedTo(log, KeyOf(p)), p.reading);
    forall k ensures k !in slots[KeyOf(p) := slot] ==> PublishedTo(log + [p], k) == [] {
      PublishedNext(log, p, k);
    }
    forall k | k in slots[KeyOf(p) := slot] ensures slots[KeyOf(p) := slot][k] == SlotAfter(PublishedTo(log + [p], k)) {
      PublishedNext(log, p, k);
    }
  }

  class Bus {
    var slots: map<(Signal, Source), Reading>
    ghost var log: seq<Publication>

    ghost predicate Valid()
      reads this
    {
      SlotsFollow(slots, log)
    }

    constructor ()
      ensures Valid() && log == []
    {
      slots, log := map[], [];
    }

    method Publish(p: Publication)
      requires Valid()
      modifies this
      ensures Valid() && log == old(log) + [p]
      ensures forall k :: k != KeyOf(p) && k in old(slots) ==> k in slots && slots[k] == old(slots)[k]
    {
      var key := KeyOf(p);
      var slot := if key in slots then slots[key] else FRESH_SLOT;
      if slot.timestamp == 0 || p.reading.timestamp > slot.timestamp
         || (p.reading.timestamp == slot.timestamp && p.reading.quality >= slot.quality) {
        slot := p.reading;
      }
      PublishFollows(slots, log, p, slot);
      slots := slots[key := slot];
      log := log + [p];
    }
  }

  // ---------------------------------------------------------------- selection

  /** The latest reading prefers valid ones, then newer ones, then higher quality. */
  predicate LatestKeyAtMost(a: Reading, b: Reading) {
    if a.valid != b.valid then b.valid else SlotKeyAtMost(a, b)
  }

  /** Every candidate before r has a smaller key. */
  ghost predicate IsFirst(r: Reading, candidates: seq<Reading>) {
    exists i :: 0 <= i < |candidates| && candidates[i] == r && forall k :: 0 <= k < i ==> !LatestKeyAtMost(r, candidates[k])
  }

  method Latest(candidates: seq<Reading>) returns (best: Option<Reading>)
    ensures best.None? <==> candidates == []
    ensures best.Some? ==> best.value in candidates
    ensures best.Some? ==> forall r :: r in candidates ==> LatestKeyAtMost(r, best.value)
    ensures best.Some? ==> IsFirst(best.value, candidates)
  {
    best := None;
    for i := 0 to |candidates|
      invariant best.None? <==> i == 0
      invariant best.Some? ==> best.value in candidates[..i]
      invariant best.Some? ==> forall k :: 0 <= k < i ==> LatestKeyAtMost(candidates[k], best.value)
      invariant best.Some? ==> IsFirst(best.value, candidates)
    {
      var r := candidates[i];
      if best.None? || (r.valid && !best.value.valid)
         || (r.valid == best.value.valid && r.timestamp > best.value.timestamp)
         || (r.valid == best.value.valid && r.timestamp == best.value.timestamp && r.quality > best.value.quality) {
        best := Some(r);
      }
    }
  }

  /** Usable for fusion: valid, finite, stamped, not from the future, inside the window. */
  predicate Eligible(r: Reading, now: nat, window: nat) {
    r.valid && r.value.Some? && 0 < r.timestamp <= now && now - r.timestamp <= window
  }

  /** Fusion prefers quality, then recency. */
  predicate FusedKeyAtMost(a: Reading, b: Reading) {
    a.quality < b.quality || (a.quality == b.quality && a.timestamp <= b.timestamp)
  }

  predicate FusedChoice(best: Option<Reading>, candidates: seq<Reading>, now: nat, window: nat) {
    match best
    case None => forall r :: r in candidates ==> !Eligible(r, now, window)
    case Some(b) =>
      && b in candidates && Eligible(b, now, window)
      && forall r :: r in candidates && Eligible(r, now, window) ==> FusedKeyAtMost(r, b)
  }

  /** The first of the greatest eligible candidates in iteration order. */
  function Fuse(candidates: seq<Reading>, now: nat, window: nat): (best: Option<Reading>) {
    if candidates == [] then None
    else
      var before, r := Fuse(candidates[..|candidates| - 1], now, window), candidates[|candidates| - 1];
      if Eligible(r, now, window) && (before.None? || !FusedKeyAtMost(r, before.value)) then Some(r) else before
  }

  method AssignValue(candidates: seq<Reading>, now: nat, window: nat) returns (best: Option<Reading>)
    ensures best == Fuse(candidates, now, window)
  {
    best := None;
    for i := 0 to |candidates|
      invariant best == Fuse(candidates[..i], now, window)
    {
      assert candidates[..i + 1][..i] == candidates[..i];
      var r := candidates[i];
      if !r.valid || r.value.None? {
        continue;
      }
      if r.timestamp == 0 || r.timestamp > now {
        continue;
      }
      if now - r.timestamp > window {
        continue;
      }
      if best.None? || r.quality > best.value.quality
         || (r.quality == best.value.quality && r.timestamp > best.value.timestamp) {
        best := Some(r);
      }
    }
    assert candidates[..|candidates|] == candidates;
  }

  /** Main result: fusion selects an eligible reading with the greatest (quality, timestamp) key, or
      nothing when none is eligible. */
  lemma {:induction false} FuseSelectsGreatest(candidates: seq<Reading>, now: nat, window: nat)
    ensures FusedChoice(Fuse(candidates, now, window), candidates, now, window)
  {
    if candidates != [] {
      var before, last := candidates[..|candidates| - 1], candidates[|candidates| - 1];
      FuseSelectsGreatest(before, now, window);
      assert candidates == before + [last];
    }
  }

  /** There is a fused reading exactly when some candidate is valid and finite and carries a stamp that is
      positive, not in the future and at most the window old. */
  lemma FusedExactlyWhen(candidates: seq<Reading>, now: nat, window: nat)
    ensures Fuse(candidates, now, window).Some? <==>
      exists r :: r in candidates && r.valid && r.value.Some? && r.timestamp != 0 && r.timestamp <= now <= r.timestamp + window
  {
    FuseSelectsGreatest(candidates, now, window);
  }

  predicate SameFusedKey(x: Option<Reading>, y: Option<Reading>) {
    x.Some? == y.Some? && (x.Some? ==> x.value.quality == y.value.quality && x.value.timestamp == y.value.timestamp)
  }

  /** The key selected depends only on which candidates there are, and so does the reading when no
      two eligible ones share a key. */
  lemma FusedKeyOfMembers(a: seq<Reading>, b: seq<Reading>, now: nat, window: nat)
    requires forall r :: r in a <==> r in b
    ensures var x, y := Fuse(a, now, window), Fuse(b, now, window);
            SameFusedKey(x, y) && (DistinctKeys(a, now, window) ==> x == y)
  {
    FuseSelectsGreatest(a, now, window);
    FuseSelectsGreatest(b, now, window);
  }

  /** So the iteration order does not matter to the key, nor to the reading when keys are distinct. */
  lemma FusedKeyIsOrderIndependent(a: seq<Reading>, b: seq<Reading>, now: nat, window: nat)
    requires multiset(a) == multiset(b)
    ensures var x, y := Fuse(a, now, window), Fuse(b, now, window);
            SameFusedKey(x, y) && (DistinctKeys(a, now, window) ==> x == y)
  {
    SameMembers(a, b);
    FusedKeyOfMembers(a, b, now, window);
  }

  predicate DistinctKeys(s: seq<Reading>, now: nat, window: nat) {
    forall r, t | r in s && t in s && Eligible(r, now, window) && Eligible(t, now, window) ::
      r.quality == t.quality && r.timestamp == t.timestamp ==> r == t
  }

  lemma SameMembers(a: seq<Reading>, b: seq<Reading>)
    requires multiset(a) == multiset(b)
    ensures forall r :: r in a <==> r in b
  {
    forall r ensures r in a <==> r in b {
      assert r in a <==> r in multiset(a);
      assert r in b <==> r in multiset(b);
    }
  }

  /** With a shared key the value does depend on it. */
  lemma TiesAreOrderDependent(now: nat, window: nat) returns (a: seq<Reading>, b: seq<Reading>)
    requires now > 0
    ensures multiset(a) == multiset(b) && Fuse(a, now, window) != Fuse(b, now, window)
  {
    var r, t := Reading(Some(1.0), true, 0, now), Reading(Some(2.0), true, 0, now);
    a, b := [r, t], [t, r];
    assert a[..1] == [r] && b[..1] == [t] && [r][..0] == [] && [t][..0] == [];
    assert Fuse([r], now, window) == Some(r) && Fuse([t], now, window) == Some(t);
    assert a == [r] + [t] && b == [t] + [r];
  }

  // ---------------------------------------------------------------- from publications to the fused reading

  /** The candidates of a signal: what the publications left in the slot of each source, in some map
      order. */
  function SlotsOf(log: seq<Publication>, signal: Signal, sources: seq<Source>): (r: seq<Reading>)
    ensures |r| == |sources|
    ensures forall i :: 0 <= i < |sources| ==> r[i] == SlotAfter(PublishedTo(log, (signal, sources[i])))
  {
    seq(|sources|, i requires 0 <= i < |sources| => SlotAfter(PublishedTo(log, (signal, sources[i]))))
  }

  /** Every listed source has published a reading with a positive timestamp. */
  predicate Stamped(log: seq<Publication>, signal: Signal, sources: seq<Source>) {
    forall s :: s in sources ==> SomePositive(PublishedTo(log, (signal, s)))
  }

  /** What a slot was published: exactly the readings of the publications to its key. */
  lemma {:induction false} PublishedMembers(log: seq<Publication>, key: (Signal, Source), r: Reading)
    ensures r in PublishedTo(log, key) <==> exists p :: p in log && KeyOf(p) == key && p.reading == r
  {
    if log != [] {
      var init, last := log[..|log| - 1], log[|log| - 1];
      PublishedMembers(init, key, r);
      assert log == init + [last];
      assert last in log;
      if r in PublishedTo(init, key) {
        var p :| p in init && KeyOf(p) == key && p.reading == r;
        assert p in log;
      }
    }
  }

  lemma StampedSlot(log: seq<Publication>, signal: Signal, sources: seq<Source>, s: Source)
    requires Stamped(log, signal, sources) && s in sources
    ensures var readings := PublishedTo(log, (signal, s));
            readings != [] && SomePositive(readings) && SlotGreatest(SlotAfter(readings), readings)
  {
    SlotHolds(PublishedTo(log, (signal, s)));
  }

  /** Main result: with a positive timestamp from every source the fused reading is, among the newest (and then best)
      reading of every source, an eligible one with the greatest (quality, timestamp) key; there is none
      exactly when no source's newest reading is eligible. */
  lemma FusedIsGreatestOfNewest(log: seq<Publication>, signal: Signal, sources: seq<Source>, now: nat, window: nat)
    requires Stamped(log, signal, sources)
    ensures forall s :: s in sources ==>
      var readings := PublishedTo(log, (signal, s)); SlotGreatest(SlotAfter(readings), readings)
    ensures match Fuse(SlotsOf(log, signal, sources), now, window)
      case None => forall s :: s in sources ==> !Eligible(SlotAfter(PublishedTo(log, (signal, s))), now, window)
      case Some(b) =>
        && Eligible(b, now, window)
        && (exists s :: s in sources && b == SlotAfter(PublishedTo(log, (signal, s))))
        && forall s :: s in sources && Eligible(SlotAfter(PublishedTo(log, (signal, s))), now, window) ==>
             FusedKeyAtMost(SlotAfter(PublishedTo(log, (signal, s))), b)
  {
    var slots := SlotsOf(log, signal, sources);
    FuseSelectsGreatest(slots, now, window);
    forall s | s in sources
      ensures SlotAfter(PublishedTo(log, (signal, s))) in slots
      ensures SlotGreatest(SlotAfter(PublishedTo(log, (signal, s))), PublishedTo(log, (signal, s)))
    {
      StampedSlot(log, signal, sources, s);
      var i :| 0 <= i < |sources| && sources[i] == s;
      assert slots[i] in slots;
    }
  }

  /** No source publishes two different readings of the signal with the same timestamp and quality. */
  predicate NoSourceTies(log: seq<Publication>, signal: Signal) {
    forall p, q | p in log && q in log && KeyOf(p) == KeyOf(q) && KeyOf(p).0 == signal ::
      p.reading.timestamp == q.reading.timestamp && p.reading.quality == q.reading.quality ==> p.reading == q.reading
  }

  lemma SlotOfMembers(log: seq<Publication>, log': seq<Publication>, key: (Signal, Source))
    requires (forall p :: p in log <==> p in log') && NoSourceTies(log, key.0)
    requires SomePositive(PublishedTo(log, key)) && SomePositive(PublishedTo(log', key))
    ensures SlotAfter(PublishedTo(log, key)) == SlotAfter(PublishedTo(log', key))
  {
    var a, b := PublishedTo(log, key), PublishedTo(log', key);
    SlotHolds(a);
    SlotHolds(b);
    var x, y := SlotAfter(a), SlotAfter(b);
    PublishedMembers(log, key, x);
    PublishedMembers(log', key, x);
    PublishedMembers(log, key, y);
    PublishedMembers(log', key, y);
    assert x in a && y in b;
    assert x in b && y in a;
    assert SlotKeyAtMost(x, y) && SlotKeyAtMost(y, x);
  }

  /** Main result: with a positive timestamp from every source and no ties within one, the fused key is the same
      whatever the order of publication and the order in which the map lists the sources. */
  lemma FusedKeyIgnoresBothOrders(log: seq<Publication>, log': seq<Publication>, signal: Signal,
      sources: seq<Source>, sources': seq<Source>, now: nat, window: nat)
    requires Stamped(log, signal, sources) && Stamped(log', signal, sources') && NoSourceTies(log, signal)
    requires (forall p :: p in log <==> p in log') && forall s :: s in sources <==> s in sources'
    ensures SameFusedKey(Fuse(SlotsOf(log, signal, sources), now, window), Fuse(SlotsOf(log', signal, sources'), now, window))
  {
    SlotsAmong(log, log', signal, sources, sources');
    SlotsAmong(log', log, signal, sources', sources);
    FusedKeyOfMembers(SlotsOf(log, signal, sources), SlotsOf(log', signal, sources'), now, window);
  }

  lemma SlotsAmong(log: seq<Publication>, log': seq<Publication>, signal: Signal, sources: seq<Source>, sources': seq<Source>)
    requires Stamped(log, signal, sources) && Stamped(log', signal, sources') && NoSourceTies(log, signal)
    requires (forall p :: p in log <==> p in log') && forall s :: s in sources <==> s in sources'
    ensures forall r :: r in SlotsOf(log, signal, sources) ==> r in SlotsOf(log', signal, sources')
  {
    var a, b := SlotsOf(log, signal, sources), SlotsOf(log', signal, sources');
    forall r | r in a ensures r in b {
      var i :| 0 <= i < |a| && a[i] == r;
      assert sources[i] in sources;
      var j :| 0 <= j < |sources'| && sources'[j] == sources[i];
      StampedSlot(log, signal, sources, sources[i]);
      StampedSlot(log', signal, sources', sources'[j]);
      SlotOfMembers(log, log', (signal, sources[i]));
      assert b[j] == r;
    }
  }

  /** A tie within a source does make the order matter: published last, the invalid reading of two
      with the same key leaves nothing to fuse. */
  lemma SourceTiesAreOrderDependent(now: nat, window: nat) returns (log: seq<Publication>, log': seq<Publication>)
    requires now > 0
    ensures multiset(log) == multiset(log') && Stamped(log, 0, ["x"]) && Stamped(log', 0, ["x"])
    ensures Fuse(SlotsOf(log, 0, ["x"]), now, window).Some? && Fuse(SlotsOf(log', 0, ["x"]), now, window).None?
  {
    var good, bad := Reading(Some(1.0), true, 0, now), Reading(None, false, 0, now);
    var p, q := Publication(0, "x", good), Publication(0, "x", bad);
    log, log' := [q, p], [p, q];
    assert log == [q] + [p] && log' == [p] + [q];
    TwoPublications(q, p);
    TwoPublications(p, q);
    OneSlot(log);
    OneSlot(log');
    FuseSelectsGreatest(SlotsOf(log, 0, ["x"]), now, window);
    FuseSelectsGreatest(SlotsOf(log', 0, ["x"]), now, window);
  }

  lemma OneSlot(log: seq<Publication>)
    ensures SlotsOf(log, 0, ["x"]) == [SlotAfter(PublishedTo(log, (0, "x")))]
  {
  }

  lemma TwoPublications(p: Publication, q: Publication)
    requires KeyOf(p) == KeyOf(q) == (0, "x")
    ensures PublishedTo([p, q], (0, "x")) == [p.reading, q.reading]
    ensures SlotAfter([p.reading, q.reading]) == Offer(p.reading, q.reading)
  {
    assert [p, q][..1] == [p] && [p][..0] == [];
    assert PublishedTo([p], (0, "x")) == [p.reading];
    assert [p.reading, q.reading][..1] == [p.reading] && [p.reading][..0] == [];
    assert SlotAfter([p.reading]) == p.reading;
  }
}
