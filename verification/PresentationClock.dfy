/** From 32-bit NTP-short timestamps to presentation time and MoQ group numbers. */
module PresentationClock {
  import opened Options

  /** NTP short format counts 1/65536 seconds modulo 2^32 (section 6 of RFC 5905). */
  const NTP_SHORT_MODULUS: int := 0x1_0000_0000
  const HALF: int := 0x8000_0000
  const TICKS_PER_SECOND: int := 65536
  const I64_LIMIT: int := 0x8000_0000_0000_0000

  type U32 = n: int | 0 <= n < 0x1_0000_0000

  function WrappingSub(a: U32, b: U32): U32 {
    (a - b) % NTP_SHORT_MODULUS
  }

  function AsI32(x: U32): int {
    if x < HALF then x else x - NTP_SHORT_MODULUS
  }

  /** The low 64 bits of `x`, read as a signed number. */
  function AsI64(x: nat): int {
    var low := x % (2 * I64_LIMIT);
    if low < I64_LIMIT then low else low - 2 * I64_LIMIT
  }

  function AbsDiff(a: int, b: int): nat {
    if a < b then b - a else a - b
  }

  /** The first of three candidates with the least distance to `reference`. */
  function FirstNearest(a: int, b: int, c: int, reference: int): int {
    var ab := if AbsDiff(b, reference) < AbsDiff(a, reference) then b else a;
    if AbsDiff(c, reference) < AbsDiff(ab, reference) then c else ab
  }

  /** Elapsed ticks, given the highest elapsed ticks seen so far and the elapsed ticks modulo 2^32. */
  function Unwrap(highest: Option<int>, base: U32): int {
    match highest
    case None => AsI32(base)
    case Some(reference) =>
      var era := reference / NTP_SHORT_MODULUS;
      FirstNearest(
        base + (era - 1) * NTP_SHORT_MODULUS,
        base + era * NTP_SHORT_MODULUS,
        base + (era + 1) * NTP_SHORT_MODULUS,
        reference)
  }

  function Highest(highest: Option<int>, ticks: int): Option<int> {
    match highest
    case None => Some(ticks)
    case Some(h) => Some(if h < ticks then ticks else h)
  }

  /** The elapsed times one can tell apart: less than 2^31 ahead of the highest seen, at most 2^31 behind. */
  predicate InWindow(highest: Option<int>, ticks: int) {
    var reference := if highest.Some? then highest.value else 0;
    reference - HALF <= ticks < reference + HALF
  }

  /** Unwrapping picks the one candidate in the window. */
  lemma UnwrapInWindow(highest: Option<int>, base: U32)
    ensures InWindow(highest, Unwrap(highest, base))
    ensures Unwrap(highest, base) % NTP_SHORT_MODULUS == base
  {
    if highest.Some? {
      var era := highest.value / NTP_SHORT_MODULUS;
      SameEra(base, era - 1);
      SameEra(base, era);
      SameEra(base, era + 1);
    }
  }

  lemma SameEra(base: U32, era: int)
    ensures (base + era * NTP_SHORT_MODULUS) % NTP_SHORT_MODULUS == base
  {
  }

  /** Times of one window that agree modulo 2^32 are equal. */
  lemma WindowSeparates(highest: Option<int>, a: int, b: int)
    requires InWindow(highest, a) && InWindow(highest, b)
    requires a % NTP_SHORT_MODULUS == b % NTP_SHORT_MODULUS
    ensures a == b
  {
  }

  /** The timestamp a packet carries `ticks` after the epoch. */
  function Stamp(epoch: U32, ticks: int): U32 {
    (epoch + ticks) % NTP_SHORT_MODULUS
  }

  /** One packet is unwrapped to its true time exactly when that time is in the window. */
  lemma UnwrapExact(highest: Option<int>, epoch: U32, ticks: int)
    ensures Unwrap(highest, WrappingSub(Stamp(epoch, ticks), epoch)) == ticks <==> InWindow(highest, ticks)
  {
    var base := WrappingSub(Stamp(epoch, ticks), epoch);
    StampRoundTrip(epoch, ticks);
    UnwrapInWindow(highest, base);
    if InWindow(highest, ticks) {
      WindowSeparates(highest, ticks, Unwrap(highest, base));
    }
  }

  lemma StampRoundTrip(epoch: U32, ticks: int)
    ensures WrappingSub(Stamp(epoch, ticks), epoch) == ticks % NTP_SHORT_MODULUS
  {
  }

  // ---------------------------------------------------------------- whole runs

  function HighestOf(times: seq<int>): Option<int> {
    if times == [] then None else Highest(HighestOf(times[..|times| - 1]), times[|times| - 1])
  }

  /** It is the greatest of them. */
  lemma {:induction false} HighestIsGreatest(times: seq<int>)
    ensures HighestOf(times).None? <==> times == []
    ensures HighestOf(times).Some? ==> HighestOf(times).value in times && forall i :: 0 <= i < |times| ==>
        times[i] <= HighestOf(times).value
  {
    if times != [] {
      HighestIsGreatest(times[..|times| - 1]);
      assert times[|times| - 1] in times;
      assert forall x :: x in times[..|times| - 1] ==> x in times;
    }
  }

  /** The elapsed times a track computes for the timestamps it sees, one after the other. */
  function UnwrapAll(epoch: U32, stamps: seq<U32>): (times: seq<int>)
    ensures |times| == |stamps|
  {
    if stamps == [] then []
    else
      var before := UnwrapAll(epoch, stamps[..|stamps| - 1]);
      before + [Unwrap(HighestOf(before), WrappingSub(stamps[|stamps| - 1], epoch))]
  }

  function Stamps(epoch: U32, truth: seq<int>): (stamps: seq<U32>)
    ensures |stamps| == |truth|
  {
    seq(|truth|, i requires 0 <= i < |truth| => Stamp(epoch, truth[i]))
  }

  /** Every packet is within half a cycle of the latest one before it. */
  ghost predicate Trackable(truth: seq<int>) {
    forall i :: 0 <= i < |truth| ==> InWindow(HighestOf(truth[..i]), truth[i])
  }

  /**
   * Over a run of any length, across any number of 32-bit wraps, every unwrapped time is the true
   * one if and only if no packet strays more than half a cycle from the latest time before it.
   */
  lemma {:induction false} RunExactlyWhenTrackable(epoch: U32, truth: seq<int>)
    ensures UnwrapAll(epoch, Stamps(epoch, truth)) == truth <==> Trackable(truth)
  {
    hide Unwrap;
    hide InWindow;
    hide Trackable;
    hide Stamps;
    hide HighestOf;
    if truth == [] {
      TrackableNone();
    } else {
      var n := |truth| - 1;
      RunExactlyWhenTrackable(epoch, truth[..n]);
      UnwrapExact(HighestOf(truth[..n]), epoch, truth[n]);
      StampsSnoc(epoch, truth);
      TrackableSnoc(truth);
      SnocEqual(UnwrapAll(epoch, Stamps(epoch, truth)), truth);
    }
  }

  lemma TrackableNone()
    ensures Trackable([])
  {
  }

  lemma SnocEqual(a: seq<int>, b: seq<int>)
    requires |a| == |b| && a != []
    ensures a == b <==> a[..|a| - 1] == b[..|a| - 1] && a[|a| - 1] == b[|a| - 1]
  {
    var n := |a| - 1;
    assert a == a[..n] + [a[n]] && b == b[..n] + [b[n]];
  }

  lemma StampsSnoc(epoch: U32, truth: seq<int>)
    requires truth != []
    ensures var n := |truth| - 1;
            Stamps(epoch, truth)[..n] == Stamps(epoch, truth[..n]) && Stamps(epoch, truth)[n] == Stamp(epoch, truth[n])
  {
  }

  lemma TrackableSnoc(truth: seq<int>)
    requires truth != []
    ensures var n := |truth| - 1;
            Trackable(truth) <==> Trackable(truth[..n]) && InWindow(HighestOf(truth[..n]), truth[n])
  {
    var n := |truth| - 1;
    assert forall i :: 0 <= i < n ==> truth[..n][..i] == truth[..i] && truth[..n][i] == truth[i];
  }

  /** Intermediate candidates stay within 64-bit integers while the highest time does so by two eras. */
  lemma UnwrapFitsI64(reference: int, base: U32, step: int)
    requires -I64_LIMIT + 2 * NTP_SHORT_MODULUS <= reference < I64_LIMIT - 2 * NTP_SHORT_MODULUS
    requires -1 <= step <= 1
    ensures -I64_LIMIT <= base + (reference / NTP_SHORT_MODULUS + step) * NTP_SHORT_MODULUS < I64_LIMIT
  {
  }

  // ---------------------------------------------------------------- group numbers

  /** Elapsed ticks rescaled to the track's timescale, truncated to 64 bits as the source does. */
  function PresentationTicks(elapsed: int, timescale: U32): int {
    if elapsed < 0 then 0 else AsI64(elapsed * timescale / TICKS_PER_SECOND)
  }

  function GroupIdForTicks(ticks: int, duration: nat): nat
    requires 0 < duration
  {
    if ticks < 0 then 0 else ticks / duration
  }

  function GroupNumber(elapsed: int, timescale: U32, duration: nat): nat
    requires 0 < duration
  {
    GroupIdForTicks(PresentationTicks(elapsed, timescale), duration)
  }

  /** The rescaled time fits a signed 64-bit integer. */
  predicate TicksInRange(elapsed: int, timescale: U32) {
    elapsed * timescale / TICKS_PER_SECOND < I64_LIMIT
  }

  /** The conversion is exact exactly when the rescaled time fits. */
  lemma PresentationTicksExact(elapsed: nat, timescale: U32)
    ensures PresentationTicks(elapsed, timescale) == elapsed * timescale / TICKS_PER_SECOND <==>
        TicksInRange(elapsed, timescale)
  {
    ProductNonNegative(elapsed, timescale);
    AsI64Exact(elapsed * timescale / TICKS_PER_SECOND);
  }

  lemma AsI64Exact(x: nat)
    ensures AsI64(x) == x <==> x < I64_LIMIT
  {
  }

  /** Otherwise the cast wraps around: it keeps the low 64 bits. */
  lemma AsI64Wraps(x: nat)
    ensures -I64_LIMIT <= AsI64(x) < I64_LIMIT && (x - AsI64(x)) % (2 * I64_LIMIT) == 0
  {
  }

  lemma ProductNonNegative(a: nat, b: nat)
    ensures 0 <= a * b
  {
  }

  lemma QuotientIs(x: int, d: int, q: int)
    requires 0 < d && q * d <= x < (q + 1) * d
    ensures x / d == q
  {
    var r := x / d;
    assert r * d <= x < (r + 1) * d;
    if r < q {
      MulAtMost(r + 1, q, d);
    } else if q < r {
      MulAtMost(q + 1, r, d);
    }
  }

  lemma MulAtMost(a: int, b: int, d: int)
    requires a <= b && 0 < d
    ensures a * d <= b * d
  {
  }

  /** Dividing twice, rounding down each time, is dividing once by the product. */
  lemma NestedFloor(x: int, a: int, b: int)
    requires 0 < a && 0 < b
    ensures 0 < a * b && x / a / b == x / (a * b)
  {
    var q := x / a / b;
    var y := x / a;
    assert q * b <= y <= q * b + b - 1;
    MulAtMost(q * b, y, a);
    MulAtMost(y + 1, q * b + b, a);
    assert y * a <= x < (y + 1) * a;
    assert (q * b) * a == q * (a * b) && (q * b + b) * a == (q + 1) * (a * b);
    QuotientIs(x, a * b, q);
  }

  /** While the time fits, the group number is one exact division of the elapsed time. */
  lemma GroupNumberIsFloor(elapsed: nat, timescale: U32, duration: nat)
    requires 0 < duration && TicksInRange(elapsed, timescale)
    ensures 0 < 65536 * duration
    ensures GroupNumber(elapsed, timescale, duration) == elapsed * timescale / (65536 * duration)
  {
    ProductNonNegative(elapsed, timescale);
    PresentationTicksExact(elapsed, timescale);
    NestedFloor(elapsed * timescale, TICKS_PER_SECOND, duration);
  }

  /** Group numbers never go back while time does not. */
  lemma GroupNumberMonotone(earlier: int, later: int, timescale: U32, duration: nat)
    requires 0 < duration && earlier <= later && TicksInRange(later, timescale)
    ensures GroupNumber(earlier, timescale, duration) <= GroupNumber(later, timescale, duration)
  {
    if 0 <= earlier {
      ProductNonNegative(earlier, timescale);
      ProductNonNegative(later, timescale);
      ProductMonotone(earlier, later, timescale);
      QuotientMonotone(earlier * timescale, later * timescale, TICKS_PER_SECOND);
      PresentationTicksExact(earlier, timescale);
      PresentationTicksExact(later, timescale);
      QuotientMonotone(PresentationTicks(earlier, timescale), PresentationTicks(later, timescale), duration);
    }
  }

  lemma ProductMonotone(a: int, b: int, c: nat)
    requires a <= b
    ensures a * c <= b * c
  {
  }

  lemma QuotientMonotone(a: int, b: int, d: int)
    requires a <= b && 0 < d
    ensures a / d <= b / d
  {
    if b / d < a / d {
      MulAtMost(b / d + 1, a / d, d);
    }
  }

  /** Tracks whose group durations are equal in seconds give one time one group number. */
  lemma EqualDurationsAlign(elapsed: int, timescaleA: U32, durationA: nat, timescaleB: U32, durationB: nat)
    requires 0 < durationA && 0 < durationB
    requires durationA * timescaleB == durationB * timescaleA
    requires TicksInRange(elapsed, timescaleA) && TicksInRange(elapsed, timescaleB)
    ensures GroupNumber(elapsed, timescaleA, durationA) == GroupNumber(elapsed, timescaleB, durationB)
  {
    hide TicksInRange;
    if 0 <= elapsed {
      GroupNumberIsFloor(elapsed, timescaleA, durationA);
      GroupNumberIsFloor(elapsed, timescaleB, durationB);
      CommonDenominator(elapsed, timescaleA, durationA, timescaleB, durationB);
    }
  }

  lemma CommonDenominator(x: int, a: int, da: int, b: int, db: int)
    requires 0 < da && 0 < db && da * b == db * a
    ensures 0 < TICKS_PER_SECOND * da && 0 < TICKS_PER_SECOND * db
    ensures x * a / (TICKS_PER_SECOND * da) == x * b / (TICKS_PER_SECOND * db)
  {
    ScaledFloor(x * a, TICKS_PER_SECOND * da, db);
    ScaledFloor(x * b, TICKS_PER_SECOND * db, da);
    CrossProducts(x, a, da, b, db);
  }

  lemma CrossProducts(x: int, a: int, da: int, b: int, db: int)
    requires da * b == db * a
    ensures x * a * db == x * b * da
    ensures TICKS_PER_SECOND * da * db == TICKS_PER_SECOND * db * da
  {
    assert x * a * db == x * (db * a);
    assert x * b * da == x * (da * b);
  }

  /** Scaling both sides of a division leaves the quotient as it is. */
  lemma ScaledFloor(x: int, d: int, c: int)
    requires 0 < d && 0 < c
    ensures 0 < d * c && (x * c) / (d * c) == x / d
  {
    var q := x / d;
    assert q * d <= x <= q * d + d - 1;
    MulAtMost(q * d, x, c);
    MulAtMost(x + 1, q * d + d, c);
    assert (q * d) * c == q * (d * c) && (q * d + d) * c == (q + 1) * (d * c);
    assert (x + 1) * c == x * c + c;
    QuotientIs(x * c, d * c, q);
  }
}
