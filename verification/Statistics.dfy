/** Integer EWMA and the trimmed mean of a short ratio history. */
module Statistics {

  type U32 = x: int | 0 <= x < 0x1_0000_0000 witness 0

  type U64 = x: int | 0 <= x < 0x1_0000_0000_0000_0000 witness 0

  const U32_MAX: int := 0xFFFF_FFFF

  const RATIO_HISTORY: nat := 8

  // ---------------------------------------------------------------- EWMA

  function ShiftRight(x: U64, n: nat): (r: U64)
    ensures r <= x
  {
    if n == 0 then x else ShiftRight(x / 2, n - 1)
  }

  /** A right shift of a difference, but never less than one. */
  function EwmaStep(delta: U64, shift: nat): (step: U64)
    requires delta > 0
    ensures 1 <= step <= delta
  {
    var step := ShiftRight(delta, shift);
    if step == 0 then 1 else step
  }

  function UpdateEwma(prev: U64, sample: U64, shift: nat): (r: U64)
    ensures prev == 0 || shift == 0 ==> r == sample
    ensures prev > 0 && prev <= sample ==> prev <= r <= sample && (prev < sample ==> prev < r)
    ensures prev > 0 && sample <= prev ==> sample <= r <= prev && (sample < prev ==> r < prev)
  {
    if prev == 0 || shift == 0 then sample
    else if sample == prev then prev
    else if sample > prev then
      var next := prev + EwmaStep(sample - prev, shift);
      if next > sample then sample else next
    else
      var next := prev - EwmaStep(prev - sample, shift);
      if next < sample then sample else next
  }

  function Pow2(n: nat): (r: nat)
    ensures r > 0
  {
    if n == 0 then 1 else 2 * Pow2(n - 1)
  }

  /** q is the floor of n / d. */
  predicate IsFloor(q: int, n: int, d: int) {
    q * d <= n < q * d + d
  }

  lemma FloorOfHalf(q: nat, x: nat, p: nat)
    requires IsFloor(q, x / 2, p)
    ensures IsFloor(q, x, 2 * p)
  {
    var m := q * p;
    assert q * (2 * p) == 2 * m;
  }

  /** A right shift by n is the floor of the division by 2^n. */
  lemma {:induction false} ShiftRightIsFloor(x: U64, n: nat)
    ensures IsFloor(ShiftRight(x, n), x, Pow2(n))
  {
    if n > 0 {
      ShiftRightIsFloor(x / 2, n - 1);
      FloorOfHalf(ShiftRight(x / 2, n - 1), x, Pow2(n - 1));
    }
  }

  lemma FloorIsZero(q: nat, x: nat, p: nat)
    requires p > 0 && IsFloor(q, x, p)
    ensures q == 0 <==> x < p
  {
    if q > 0 {
      MulMonotone(0, q, p);
      if q > 1 { MulMonotone(1, q, p); }
    }
  }

  lemma MovesByStep(prev: U64, sample: U64, shift: nat)
    requires prev > 0 && shift > 0 && prev != sample
    ensures Distance(UpdateEwma(prev, sample, shift), prev) == EwmaStep(Distance(prev, sample), shift)
  {
  }

  /** The average moves by the 2^shift-th part of the distance, rounded down, but by at least one. */
  lemma EwmaMoves(prev: U64, sample: U64, shift: nat)
    requires prev > 0 && shift > 0 && prev != sample
    ensures var moved, distance := Distance(UpdateEwma(prev, sample, shift), prev), Distance(prev, sample);
            if distance < Pow2(shift) then moved == 1 else IsFloor(moved, distance, Pow2(shift))
  {
    var distance := Distance(prev, sample);
    MovesByStep(prev, sample, shift);
    ShiftRightIsFloor(distance, shift);
    FloorIsZero(ShiftRight(distance, shift), distance, Pow2(shift));
  }

  function EwmaRun(prev: U64, sample: U64, shift: nat, n: nat): (r: U64) {
    if n == 0 then prev else UpdateEwma(EwmaRun(prev, sample, shift, n - 1), sample, shift)
  }

  function Distance(a: int, b: int): (d: nat) {
    if a < b then b - a else a - b
  }

  /** The average of a steady signal reaches it exactly, in no more steps than the first
      distance, for every shift: the forced step of one rules out a stuck remainder. */
  lemma {:induction false} EwmaConverges(prev: U64, sample: U64, shift: nat, n: nat)
    requires prev > 0 && sample > 0
    ensures EwmaRun(prev, sample, shift, n) > 0
    ensures Distance(EwmaRun(prev, sample, shift, n), sample) + n <= Distance(prev, sample)
         || EwmaRun(prev, sample, shift, n) == sample
  {
    if n > 0 {
      EwmaConverges(prev, sample, shift, n - 1);
    }
  }

  // ---------------------------------------------------------------- trimmed mean, as a value

  function Sum(s: seq<U32>): (n: nat) {
    if s == [] then 0 else Sum(s[..|s| - 1]) + s[|s| - 1]
  }

  function Min(s: seq<U32>): (m: U32)
    requires s != []
  {
    if |s| == 1 then s[0]
    else
      var rest := Min(s[..|s| - 1]);
      if s[|s| - 1] < rest then s[|s| - 1] else rest
  }

  function Max(s: seq<U32>): (m: U32)
    requires s != []
  {
    if |s| == 1 then s[0]
    else
      var rest := Max(s[..|s| - 1]);
      if s[|s| - 1] > rest then s[|s| - 1] else rest
  }

  /** The mean without one smallest and one largest value; up to two values keep both. */
  function TrimmedMean(s: seq<U32>): (r: int) {
    if s == [] then 0
    else if |s| <= 2 then Sum(s) / |s|
    else (Sum(s) - Min(s) - Max(s)) / (|s| - 2)
  }

  function Without(s: seq<U32>, i: nat): (r: seq<U32>)
    requires i < |s|
    ensures |r| == |s| - 1
    ensures forall k :: 0 <= k < |r| ==> r[k] == s[if k < i then k else k + 1]
  {
    s[..i] + s[i + 1..]
  }

  predicate Within(s: seq<U32>, lo: int, hi: int) {
    forall i :: 0 <= i < |s| ==> lo <= s[i] <= hi
  }

  /** The extremes bound the values and are attained. */
  lemma {:induction false} ExtremesBound(s: seq<U32>)
    requires s != []
    ensures Within(s, Min(s), Max(s))
  {
    if |s| > 1 {
      ExtremesBound(s[..|s| - 1]);
    }
  }

  lemma {:induction false} MinAttained(s: seq<U32>) returns (i: nat)
    requires s != []
    ensures i < |s| && s[i] == Min(s)
  {
    if |s| == 1 || s[|s| - 1] < Min(s[..|s| - 1]) {
      i := |s| - 1;
    } else {
      i := MinAttained(s[..|s| - 1]);
    }
  }

  lemma {:induction false} MaxAttained(s: seq<U32>) returns (i: nat)
    requires s != []
    ensures i < |s| && s[i] == Max(s)
  {
    if |s| == 1 || s[|s| - 1] > Max(s[..|s| - 1]) {
      i := |s| - 1;
    } else {
      i := MaxAttained(s[..|s| - 1]);
    }
  }

  /** Values bounded and attained are the extremes. */
  lemma ExtremesAre(s: seq<U32>, i: nat, j: nat)
    requires i < |s| && j < |s| && Within(s, s[i], s[j])
    ensures Min(s) == s[i] && Max(s) == s[j]
  {
    ExtremesBound(s);
    var a := MinAttained(s);
    var b := MaxAttained(s);
  }

  lemma {:induction false} SumWithout(s: seq<U32>, i: nat)
    requires i < |s|
    ensures Sum(s) == Sum(Without(s, i)) + s[i]
  {
    var last := |s| - 1;
    if i == last {
      assert Without(s, i) == s[..last];
    } else {
      SumWithout(s[..last], i);
      assert Without(s, i)[..last - 1] == Without(s[..last], i);
    }
  }

  lemma MulSucc(x: int, n: int)
    ensures x * (n + 1) == x * n + x
  {
  }

  lemma {:induction false} SumBounds(s: seq<U32>, lo: int, hi: int)
    requires Within(s, lo, hi)
    ensures lo * |s| <= Sum(s) <= hi * |s|
  {
    if s != [] {
      var n := |s| - 1;
      SumBounds(s[..n], lo, hi);
      MulSucc(lo, n);
      MulSucc(hi, n);
    }
  }

  lemma MulMonotone(a: int, b: int, n: int)
    requires n > 0 && a < b
    ensures a * n < b * n
  {
  }

  lemma ProductBound(x: int, y: int, a: int, b: int)
    requires 0 <= x <= a && 0 <= y <= b
    ensures 0 <= x * y <= a * b
  {
    assert x * y <= a * y;
    assert a * y <= a * b;
  }

  lemma Floor(n: int, d: int)
    requires d > 0
    ensures n / d * d <= n < n / d * d + d
  {
    assert n == n / d * d + n % d;
  }

  lemma QuotientBounds(total: int, n: int, lo: int, hi: int)
    requires n > 0 && lo * n <= total <= hi * n
    ensures lo <= total / n <= hi
  {
    var q := total / n;
    assert q * n <= total < q * n + n;
    if q < lo {
      MulSucc(n, q);
      if q + 1 < lo { MulMonotone(q + 1, lo, n); }
    }
    if q > hi {
      MulMonotone(hi, q, n);
    }
  }

  lemma SmallMultiple(d: int, m: int)
    requires m > 0 && -m < d * m < m
    ensures d == 0
  {
    if d > 0 { MulSucc(m, d - 1); MulSign(m, d - 1); }
    if d < 0 { MulSucc(m, -d - 1); MulSign(m, -d - 1); }
  }

  lemma MulSign(m: int, n: int)
    requires m > 0 && n >= 0
    ensures m * n >= 0
  {
  }

  lemma Distribute(a: int, b: int, m: int)
    ensures (a - b) * m == a * m - b * m
  {
  }

  /** Quotient and remainder are unique. */
  lemma Remainder(x: int, m: int, q: int, r: int)
    requires m > 0 && x == q * m + r && 0 <= r < m
    ensures x % m == r && x / m == q
  {
    Floor(x, m);
    Distribute(x / m, q, m);
    SmallMultiple(x / m - q, m);
    assert x % m == x - x / m * m;
  }

  /** A smallest and a largest value sit at different positions. */
  lemma ExtremesApart(s: seq<U32>) returns (i: nat, j: nat)
    requires |s| >= 2
    ensures i < |s| && j < |s| && i != j && s[i] == Min(s) && s[j] == Max(s)
  {
    ExtremesBound(s);
    i := MinAttained(s);
    j := MaxAttained(s);
    if i == j {
      j := if i == 0 then 1 else 0;
    }
  }

  /** The sum without one smallest and one largest value is a sum of the others. */
  lemma TrimmedSumBounds(s: seq<U32>, lo: int, hi: int)
    requires |s| >= 2 && Within(s, lo, hi)
    ensures lo * (|s| - 2) <= Sum(s) - Min(s) - Max(s) <= hi * (|s| - 2)
  {
    var i, j := ExtremesApart(s);
    var rest := Without(s, i);
    SumWithout(s, i);
    WithoutAt(s, i, j);
    SumWithoutBounds(rest, if j < i then j else j - 1, lo, hi);
  }

  lemma WithoutAt(s: seq<U32>, i: nat, j: nat)
    requires i < |s| && j < |s| && i != j
    ensures Without(s, i)[if j < i then j else j - 1] == s[j]
  {
  }

  /** The trimmed mean of values in a range lies in that range. */
  lemma TrimmedMeanBounds(s: seq<U32>, lo: int, hi: int)
    requires s != [] && Within(s, lo, hi)
    ensures lo <= TrimmedMean(s) <= hi
  {
    if |s| <= 2 {
      SumBounds(s, lo, hi);
      QuotientBounds(Sum(s), |s|, lo, hi);
    } else {
      TrimmedSumBounds(s, lo, hi);
      QuotientBounds(Sum(s) - Min(s) - Max(s), |s| - 2, lo, hi);
    }
  }

  /** The extremes of all values in terms of value i and the extremes of the others. */
  lemma OutlierExtremes(v: seq<U32>, i: nat)
    requires |v| >= 2 && i < |v|
    ensures var others := Without(v, i);
            && Min(v) == (if v[i] < Min(others) then v[i] else Min(others))
            && Max(v) == (if v[i] > Max(others) then v[i] else Max(others))
  {
    var others := Without(v, i);
    ExtremesBound(others);
    var a := MinAttained(others);
    var b := MaxAttained(others);
    forall k | 0 <= k < |v| ensures k == i || Min(others) <= v[k] <= Max(others) {
      assert k != i ==> v[k] == others[if k < i then k else k - 1];
    }
    ExtremesAre(v, if v[i] < Min(others) then i else if a < i then a else a + 1,
      if v[i] > Max(others) then i else if b < i then b else b + 1);
  }

  /** A sum of values in a range, without one of them. */
  lemma SumWithoutBounds(s: seq<U32>, i: nat, lo: int, hi: int)
    requires i < |s| && Within(s, lo, hi)
    ensures lo * (|s| - 1) <= Sum(s) - s[i] <= hi * (|s| - 1)
  {
    SumWithout(s, i);
    SumBounds(Without(s, i), lo, hi);
  }

  lemma WithinAll(v: seq<U32>, i: nat, lo: int, hi: int)
    requires i < |v| && Within(Without(v, i), lo, hi) && lo <= v[i] <= hi
    ensures Within(v, lo, hi)
  {
    var others := Without(v, i);
    forall k | 0 <= k < |v| ensures lo <= v[k] <= hi {
      assert k != i ==> v[k] == others[if k < i then k else k - 1];
    }
  }

  /** The sum without one smallest and one largest value, once value i is set apart. */
  lemma OutlierSumBounds(v: seq<U32>, i: nat)
    requires |v| >= 3 && i < |v|
    ensures var others := Without(v, i);
            Min(others) * (|v| - 2) <= Sum(v) - Min(v) - Max(v) <= Max(others) * (|v| - 2)
  {
    var others := Without(v, i);
    var lo, hi := Min(others), Max(others);
    ExtremesBound(others);
    if lo <= v[i] <= hi {
      WithinAll(v, i, lo, hi);
      TrimmedSumBounds(v, lo, hi);
    } else {
      OutlierExtremes(v, i);
      SumWithout(v, i);
      var k;
      if v[i] < lo {
        k := MaxAttained(others);
      } else {
        k := MinAttained(others);
      }
      SumWithoutBounds(others, k, lo, hi);
    }
  }

  /** Main result: with three or more values, whichever one is replaced by an outlier of any
      size, the trimmed mean stays between the smallest and the largest of the others. */
  lemma OutlierResilience(s: seq<U32>, i: nat, outlier: U32)
    requires |s| >= 3 && i < |s|
    ensures Min(Without(s, i)) <= TrimmedMean(s[i := outlier]) <= Max(Without(s, i))
  {
    var v := s[i := outlier];
    assert Without(v, i) == Without(s, i);
    OutlierSumBounds(v, i);
    QuotientBounds(Sum(v) - Min(v) - Max(v), |v| - 2, Min(Without(s, i)), Max(Without(s, i)));
  }

  lemma MultisetWithout(s: seq<U32>, i: nat)
    requires i < |s|
    ensures multiset(s) == multiset(Without(s, i)) + multiset{s[i]}
  {
    assert s == s[..i] + [s[i]] + s[i + 1..];
  }

  lemma Cancel(m: multiset<U32>, n: multiset<U32>, x: U32)
    requires m + multiset{x} == n + multiset{x}
    ensures m == n
  {
    assert m == m + multiset{x} - multiset{x};
    assert n == n + multiset{x} - multiset{x};
  }

  lemma {:induction false} SumOfPermutation(a: seq<U32>, b: seq<U32>)
    requires multiset(a) == multiset(b)
    ensures Sum(a) == Sum(b) && |a| == |b|
  {
    assert |a| == |multiset(a)| && |b| == |multiset(b)|;
    if a != [] {
      var last := |a| - 1;
      assert a[last] in multiset(b);
      var i :| 0 <= i < |b| && b[i] == a[last];
      MultisetWithout(a, last);
      MultisetWithout(b, i);
      Cancel(multiset(Without(a, last)), multiset(Without(b, i)), a[last]);
      SumOfPermutation(Without(a, last), Without(b, i));
      SumWithout(a, last);
      SumWithout(b, i);
    }
  }

  lemma ExtremesOfPermutation(a: seq<U32>, b: seq<U32>)
    requires multiset(a) == multiset(b) && a != []
    ensures b != [] && Min(a) == Min(b) && Max(a) == Max(b)
  {
    assert a[0] in multiset(b);
    ExtremesBound(b);
    var i := MinAttained(b);
    var j := MaxAttained(b);
    assert b[i] in multiset(a) && b[j] in multiset(a);
    var i' :| 0 <= i' < |a| && a[i'] == b[i];
    var j' :| 0 <= j' < |a| && a[j'] == b[j];
    forall k | 0 <= k < |a| ensures Min(b) <= a[k] <= Max(b) {
      assert a[k] in multiset(b);
    }
    ExtremesAre(a, i', j');
  }

  /** The trimmed mean does not depend on the order of the values. */
  lemma TrimmedMeanOfPermutation(a: seq<U32>, b: seq<U32>)
    requires multiset(a) == multiset(b)
    ensures TrimmedMean(a) == TrimmedMean(b)
  {
    SumOfPermutation(a, b);
    if a != [] {
      ExtremesOfPermutation(a, b);
    }
  }

  // ---------------------------------------------------------------- trimmed mean, as computed

  /** Insertion from the right, as the inner loop does it. */
  function Insert(s: seq<U32>, key: U32): (r: seq<U32>)
    ensures |r| == |s| + 1
  {
    if s == [] || s[|s| - 1] <= key then s + [key] else Insert(s[..|s| - 1], key) + [s[|s| - 1]]
  }

  function InsertionSort(s: seq<U32>): (r: seq<U32>)
    ensures |r| == |s|
  {
    if s == [] then [] else Insert(InsertionSort(s[..|s| - 1]), s[|s| - 1])
  }

  predicate Sorted(s: seq<U32>) {
    forall i, j :: 0 <= i < j < |s| ==> s[i] <= s[j]
  }

  lemma {:induction false} InsertPermutes(s: seq<U32>, key: U32)
    ensures multiset(Insert(s, key)) == multiset(s) + multiset{key}
  {
    if s != [] && s[|s| - 1] > key {
      InsertPermutes(s[..|s| - 1], key);
      assert s == s[..|s| - 1] + [s[|s| - 1]];
    }
  }

  lemma {:induction false} InsertWithin(s: seq<U32>, key: U32, lo: int, hi: int)
    requires Within(s, lo, hi) && lo <= key <= hi
    ensures Within(Insert(s, key), lo, hi)
  {
    if s != [] && s[|s| - 1] > key {
      InsertWithin(s[..|s| - 1], key, lo, hi);
    }
  }

  lemma {:induction false} InsertSorts(s: seq<U32>, key: U32)
    requires Sorted(s)
    ensures Sorted(Insert(s, key))
  {
    if s != [] && s[|s| - 1] > key {
      InsertSorts(s[..|s| - 1], key);
      InsertWithin(s[..|s| - 1], key, 0, s[|s| - 1]);
    }
  }

  /** The in-place sort sorts and permutes. */
  lemma {:induction false} InsertionSortSorts(s: seq<U32>)
    ensures Sorted(InsertionSort(s)) && multiset(InsertionSort(s)) == multiset(s)
  {
    if s != [] {
      InsertionSortSorts(s[..|s| - 1]);
      InsertSorts(InsertionSort(s[..|s| - 1]), s[|s| - 1]);
      InsertPermutes(InsertionSort(s[..|s| - 1]), s[|s| - 1]);
      assert s == s[..|s| - 1] + [s[|s| - 1]];
    }
  }

  /** Sort `scratch` in place. */
  method SortInPlace(scratch: array<U32>)
    requires scratch.Length > 0
    modifies scratch
    ensures scratch[..] == InsertionSort(old(scratch[..]))
  {
    ghost var was := scratch[..];
    var i := 1;
    assert was[..1] == [was[0]] && was[..1][..0] == [];
    while i < scratch.Length
      invariant 1 <= i <= scratch.Length
      invariant scratch[..i] == InsertionSort(was[..i])
      invariant scratch[i..] == was[i..]
    {
      assert was[..i + 1][..i] == was[..i];
      assert scratch[i] == scratch[i..][0] == was[i];
      InsertAt(scratch, i);
      assert scratch[i + 1..] == was[i..][1..];
      i := i + 1;
    }
    assert was[..i] == was && scratch[..i] == scratch[..];
  }

  /** Where insertion from the right stops. */
  lemma {:induction false} InsertPosition(s: seq<U32>, key: U32, j: nat)
    requires j <= |s| && (j == 0 || s[j - 1] <= key)
    requires forall k :: j <= k < |s| ==> s[k] > key
    ensures Insert(s, key) == s[..j] + [key] + s[j..]
  {
    if j < |s| {
      var init := s[..|s| - 1];
      InsertPosition(init, key, j);
      assert init[..j] == s[..j] && init[j..] + [s[|s| - 1]] == s[j..];
    }
  }

  /** Insert element i into the sorted prefix before it by shifting larger values right. */
  method InsertAt(scratch: array<U32>, i: nat)
    requires i < scratch.Length
    modifies scratch
    ensures scratch[..i + 1] == Insert(old(scratch[..i]), old(scratch[i]))
    ensures scratch[i + 1..] == old(scratch[i + 1..])
  {
    ghost var prefix := scratch[..i];
    var key := scratch[i];
    var j := i;
    while j > 0 && scratch[j - 1] > key
      invariant 0 <= j <= i
      invariant forall k :: 0 <= k < j ==> scratch[k] == prefix[k]
      invariant forall k :: j < k <= i ==> scratch[k] == prefix[k - 1]
      invariant forall k :: j <= k < i ==> prefix[k] > key
      invariant forall k :: i < k < scratch.Length ==> scratch[k] == old(scratch[k])
    {
      scratch[j] := scratch[j - 1];
      j := j - 1;
    }
    scratch[j] := key;
    assert scratch[..i + 1] == prefix[..j] + [key] + prefix[j..];
    InsertPosition(prefix, key, j);
  }

  /** In a sorted sequence the values between the ends sum to the trimmed sum. */
  lemma SortedTrim(s: seq<U32>)
    requires |s| >= 2 && Sorted(s)
    ensures Sum(s[1..|s| - 1]) == Sum(s) - Min(s) - Max(s)
  {
    ExtremesAre(s, 0, |s| - 1);
    SumWithoutEnds(s, |s| - 1);
  }

  lemma SumWithoutEnds(s: seq<U32>, last: nat)
    requires |s| == last + 1 >= 2
    ensures Sum(s[1..last]) == Sum(s) - s[0] - s[last]
  {
    var front := s[..last];
    SumWithout(s, last);
    assert Without(s, last) == front;
    SumWithout(front, 0);
    assert Without(front, 0) == s[1..last];
  }

  /** The computation: copy up to eight values, sort them in place, then average without the
      ends. It returns the trimmed mean of the values copied. */
  method ComputeTrimmedMean(values: array<U32>, count: nat) returns (r: U32)
    requires count <= values.Length || values.Length >= RATIO_HISTORY
    ensures var n := if count > RATIO_HISTORY then RATIO_HISTORY else count;
            r == TrimmedMean(values[..n])
  {
    if count == 0 {
      return 0;
    }
    var n := if count > RATIO_HISTORY then RATIO_HISTORY else count;
    var scratch := new U32[n](i requires 0 <= i < n reads values => values[i]);
    ghost var copied := values[..n];
    assert scratch[..] == copied;
    SortInPlace(scratch);
    InsertionSortSorts(copied);
    TrimmedMeanOfPermutation(scratch[..], copied);
    r := MeanBetweenEnds(scratch);
  }

  /** The mean of sorted values, without the two ends when there are more than two. */
  method MeanBetweenEnds(scratch: array<U32>) returns (r: U32)
    requires scratch.Length > 0 && Sorted(scratch[..])
    ensures r == TrimmedMean(scratch[..])
  {
    var n := scratch.Length;
    TrimmedMeanBounds(scratch[..], 0, U32_MAX);
    if n <= 2 {
      var sum := SumRange(scratch, 0, n);
      assert scratch[0..n] == scratch[..];
      return sum / n;
    }
    var sum := SumRange(scratch, 1, n - 1);
    assert scratch[1..n - 1] == scratch[..][1..n - 1];
    SortedTrim(scratch[..]);
    return sum / (n - 2);
  }

  method SumRange(a: array<U32>, lo: nat, hi: nat) returns (sum: nat)
    requires lo <= hi <= a.Length
    ensures sum == Sum(a[lo..hi])
  {
    sum := 0;
    var i := lo;
    while i < hi
      invariant lo <= i <= hi
      invariant sum == Sum(a[lo..i])
    {
      assert a[lo..i + 1][..i - lo] == a[lo..i];
      sum := sum + a[i];
      i := i + 1;
    }
  }
}
