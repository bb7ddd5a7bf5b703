/** Catalog validation of MMTP tracks and switching sets, and the timing the publisher derives. */
module Catalog {
  import opened Options
  import opened PresentationClock

  type U64 = n: int | 0 <= n < 0x1_0000_0000_0000_0000

  datatype Packaging = Cmaf | Loc | Mmtp | FecRepair | Datagram

  datatype FecAlgorithm = RaptorQ | ReedSolomon

  datatype Fec = Fec(
    algorithm: FecAlgorithm, sourceSymbols: U32, repairSymbols: U32, symbolSize: U32,
    interleaveDepthMs: Option<U32>, repairContainer: Option<string>)

  datatype Track = Track(
    name: string, packaging: Option<Packaging>, hasMmtpMode: bool, timescale: Option<U32>,
    groupDurationMs: Option<U32>, groupDurationTicks: Option<U64>, altGroup: Option<U32>, fec: Option<Fec>)

  /** The catalog's own fields. */
  datatype Root = Root(version: int, streamingFormat: string, streamingFormatVersion: string)

  /** What the checks that are not modelled say: each track as a repair track, FEC references, multicast. */
  datatype OtherVerdicts = OtherVerdicts(repairTracks: seq<bool>, fecReferences: bool, multicast: bool)

  datatype CatalogError =
    | InvalidRoot
    | OtherCheck
    | InvalidTrack(track: string)
    | MissingMmtpMode(track: string)
    | MissingTimescale(track: string)
    | ZeroTimescale(track: string)
    | MissingGroupDuration(track: string)
    | ZeroGroupDuration(track: string)
    | GroupDurationNotExact(track: string)
    | InvalidFecParams(track: string)
    | SwitchingSetGroupDurationMismatch(altGroup: U32, track: string, other: string)

  datatype Outcome = Ok | Err(error: CatalogError)

  /** The timescale; validation rules out a missing one before this is used. */
  function Timescale(track: Track): U32 {
    if track.timescale.Some? then track.timescale.value else 0
  }

  /** The group duration in ticks; given ticks win over milliseconds. */
  function DurationTicks(track: Track): nat {
    if track.groupDurationTicks.Some? then track.groupDurationTicks.value
    else if track.groupDurationMs.Some? then
      ProductNonNegative(track.groupDurationMs.value, Timescale(track));
      track.groupDurationMs.value * Timescale(track) / 1000
    else 0
  }

  predicate FecValid(fec: Fec) {
    && 0 < fec.sourceSymbols && 0 < fec.repairSymbols && 0 < fec.symbolSize
    && (fec.algorithm.RaptorQ? ==> fec.symbolSize % 8 == 0)
    && fec.interleaveDepthMs != Some(0)
    && (fec.repairContainer.Some? ==> fec.repairContainer.value == "native")
  }

  /** A usable MMTP track: a positive timescale and a positive group duration, exact in ticks. */
  ghost predicate MmtpValid(track: Track) {
    && track.hasMmtpMode
    && track.timescale.Some? && 0 < track.timescale.value
    && 0 < DurationTicks(track)
    && track.groupDurationMs != Some(0)
    && (track.groupDurationTicks.None? && track.groupDurationMs.Some? ==>
          DurationTicks(track) * 1000 == track.groupDurationMs.value * track.timescale.value)
    && (track.fec.Some? ==> FecValid(track.fec.value))
  }

  /** The error names the track and something that is wrong with it. */
  ghost predicate Blames(track: Track, error: CatalogError) {
    match error
    case MissingMmtpMode(name) => name == track.name && !track.hasMmtpMode
    case MissingTimescale(name) => name == track.name && track.timescale.None?
    case ZeroTimescale(name) => name == track.name && track.timescale == Some(0)
    case MissingGroupDuration(name) =>
        name == track.name && track.groupDurationMs.None? && track.groupDurationTicks.None?
    case ZeroGroupDuration(name) =>
        name == track.name && (track.groupDurationMs == Some(0) || track.groupDurationTicks == Some(0))
    case GroupDurationNotExact(name) =>
      name == track.name && track.groupDurationTicks.None? && track.groupDurationMs.Some?
      && (track.groupDurationMs.value * Timescale(track)) % 1000 != 0
    case InvalidFecParams(name) => name == track.name && track.fec.Some? && !FecValid(track.fec.value)
    case _ => false
  }

  method ValidateMmtpTrack(track: Track) returns (r: Outcome)
    ensures r.Ok? <==> MmtpValid(track)
    ensures r.Err? ==> Blames(track, r.error)
  {
    if !track.hasMmtpMode {
      return Err(MissingMmtpMode(track.name));
    }
    if track.timescale.None? {
      return Err(MissingTimescale(track.name));
    }
    var timescale := track.timescale.value;
    if timescale == 0 {
      return Err(ZeroTimescale(track.name));
    }
    if track.groupDurationMs.None? && track.groupDurationTicks.None? {
      return Err(MissingGroupDuration(track.name));
    }
    if track.groupDurationMs == Some(0) || track.groupDurationTicks == Some(0) {
      return Err(ZeroGroupDuration(track.name));
    }
    if track.groupDurationTicks.None? {
      var product := track.groupDurationMs.value * timescale;
      PositiveProduct(track.groupDurationMs.value, timescale);
      if product % 1000 != 0 {
        return Err(GroupDurationNotExact(track.name));
      }
    }
    if track.fec.Some? {
      var fec := track.fec.value;
      if fec.sourceSymbols == 0 || fec.repairSymbols == 0 || fec.symbolSize == 0 {
        return Err(InvalidFecParams(track.name));
      }
      if fec.algorithm.RaptorQ? && fec.symbolSize % 8 != 0 {
        return Err(InvalidFecParams(track.name));
      }
      if fec.interleaveDepthMs == Some(0) {
        return Err(InvalidFecParams(track.name));
      }
      if fec.repairContainer.Some? && fec.repairContainer.value != "native" {
        return Err(InvalidFecParams(track.name));
      }
    }
    return Ok;
  }

  lemma PositiveProduct(a: int, b: int)
    requires 0 < a && 0 < b
    ensures 0 < a * b
  {
  }

  // ---------------------------------------------------------------- switching sets

  /** An MMTP track of the given switching set. */
  predicate InSet(track: Track, altGroup: U32) {
    track.packaging == Some(Mmtp) && track.altGroup == Some(altGroup)
  }

  /** Equal group durations in seconds: ticks over timescale, compared by cross-multiplication. */
  predicate SameDuration(a: Track, b: Track) {
    DurationTicks(a) * Timescale(b) == DurationTicks(b) * Timescale(a)
  }

  ghost predicate AllMmtpValid(tracks: seq<Track>) {
    forall i :: 0 <= i < |tracks| && tracks[i].packaging == Some(Mmtp) ==> MmtpValid(tracks[i])
  }

  /** Any two tracks of one switching set have the same duration. */
  ghost predicate SetsAligned(tracks: seq<Track>) {
    forall i, j, altGroup ::
        0 <= i < |tracks| && 0 <= j < |tracks| && InSet(tracks[i], altGroup) && InSet(tracks[j], altGroup) ==>
      SameDuration(tracks[i], tracks[j])
  }

  datatype Anchor = Anchor(ticks: nat, timescale: U32, name: string)

  function AnchorOf(track: Track): Anchor {
    Anchor(DurationTicks(track), Timescale(track), track.name)
  }

  /** Equality of durations is transitive: the middle timescale cancels. */
  lemma SameDurationTransitive(a: Track, b: Track, c: Track)
    requires MmtpValid(a) && MmtpValid(b) && MmtpValid(c)
    requires SameDuration(a, b) && SameDuration(b, c)
    ensures SameDuration(a, c)
  {
    CrossCancel(DurationTicks(a), Timescale(a), DurationTicks(b), Timescale(b), DurationTicks(c), Timescale(c));
  }

  lemma CrossCancel(a: int, at: int, b: int, bt: int, c: int, ct: int)
    requires a * bt == b * at && b * ct == c * bt && 0 < bt
    ensures a * ct == c * at
  {
    assert a * ct * bt == (a * bt) * ct == (b * at) * ct;
    assert c * at * bt == (c * bt) * at == (b * ct) * at;
    assert (b * at) * ct == (b * ct) * at;
    CancelRight(a * ct, c * at, bt);
  }

  lemma CancelRight(x: int, y: int, d: int)
    requires x * d == y * d && 0 < d
    ensures x == y
  {
    assert (x - y) * d == 0;
  }

  /** `anchor` describes the first track of its set among the first `n`, and every other one there matches it. */
  ghost predicate Anchors(tracks: seq<Track>, n: nat, anchors: map<U32, Anchor>, firsts: map<U32, nat>)
    requires n <= |tracks|
  {
    && anchors.Keys == firsts.Keys
    && (forall g :: g in firsts ==>
        firsts[g] < n && InSet(tracks[firsts[g]], g) && anchors[g] == AnchorOf(tracks[firsts[g]]))
    && (forall i, g :: 0 <= i < n && InSet(tracks[i], g) ==>
        g in firsts && firsts[g] <= i && SameDuration(tracks[i], tracks[firsts[g]]))
  }

  lemma AnchorsAlign(tracks: seq<Track>, anchors: map<U32, Anchor>, firsts: map<U32, nat>)
    requires AllMmtpValid(tracks) && Anchors(tracks, |tracks|, anchors, firsts)
    ensures SetsAligned(tracks)
  {
    forall i, j, g | 0 <= i < |tracks| && 0 <= j < |tracks| && InSet(tracks[i], g) && InSet(tracks[j], g)
      ensures SameDuration(tracks[i], tracks[j])
    {
      SameDurationTransitive(tracks[i], tracks[firsts[g]], tracks[j]);
    }
  }

  /** The error names two tracks of a set, the earlier one second, whose durations differ. */
  ghost predicate NamesMismatch(tracks: seq<Track>, error: CatalogError) {
    && error.SwitchingSetGroupDurationMismatch?
    && exists i, j ::
         && 0 <= i < j < |tracks|
         && tracks[i].packaging == Some(Mmtp) && tracks[i].altGroup == Some(error.altGroup)
         && tracks[j].packaging == Some(Mmtp) && tracks[j].altGroup == Some(error.altGroup)
         && error.other == tracks[i].name && error.track == tracks[j].name
         && DurationTicks(tracks[i]) * Timescale(tracks[j]) != DurationTicks(tracks[j]) * Timescale(tracks[i])
  }

  /**
   * Each track is compared only with the first of its set. That is enough: the result is Ok if and
   * only if all pairs agree, and a reported mismatch names two tracks of the set that differ.
   */
  method ValidateSwitchingSets(tracks: seq<Track>) returns (r: Outcome)
    requires AllMmtpValid(tracks)
    ensures r.Ok? <==> SetsAligned(tracks)
    ensures r.Err? ==> NamesMismatch(tracks, r.error)
  {
    hide AllMmtpValid;
    hide Anchors;
    var anchors: map<U32, Anchor> := map[];
    ghost var firsts: map<U32, nat> := map[];
    NoAnchors(tracks);
    var i := 0;
    while i < |tracks|
      invariant i <= |tracks|
      invariant Anchors(tracks, i, anchors, firsts)
    {
      var track := tracks[i];
      if track.packaging == Some(Mmtp) && track.altGroup.Some? {
        var altGroup := track.altGroup.value;
        var timescale, ticks := Timescale(track), DurationTicks(track);
        if altGroup in anchors {
          var anchor := anchors[altGroup];
          AnchorDecides(tracks, i, anchors, firsts, altGroup);
          if ticks * anchor.timescale != anchor.ticks * timescale {
            return Err(SwitchingSetGroupDurationMismatch(altGroup, track.name, anchor.name));
          }
        } else {
          AnchorNew(tracks, i, anchors, firsts, altGroup);
          anchors := anchors[altGroup := Anchor(ticks, timescale, track.name)];
          firsts := firsts[altGroup := i];
        }
      } else {
        AnchorSkip(tracks, i, anchors, firsts);
      }
      i := i + 1;
    }
    AnchorsAlign(tracks, anchors, firsts);
    return Ok;
  }

  lemma NoAnchors(tracks: seq<Track>)
    ensures Anchors(tracks, 0, map[], map[])
  {
  }

  lemma AnchorSkip(tracks: seq<Track>, n: nat, anchors: map<U32, Anchor>, firsts: map<U32, nat>)
    requires n < |tracks| && Anchors(tracks, n, anchors, firsts)
    requires forall g :: !InSet(tracks[n], g)
    ensures Anchors(tracks, n + 1, anchors, firsts)
  {
  }

  lemma AnchorNew(tracks: seq<Track>, n: nat, anchors: map<U32, Anchor>, firsts: map<U32, nat>, g: U32)
    requires n < |tracks| && Anchors(tracks, n, anchors, firsts)
    requires InSet(tracks[n], g) && g !in anchors
    ensures Anchors(tracks, n + 1, anchors[g := AnchorOf(tracks[n])], firsts[g := n])
  {
  }

  /** Comparing with the anchor's numbers is comparing with the first track of the set. */
  lemma AnchorDecides(tracks: seq<Track>, n: nat, anchors: map<U32, Anchor>, firsts: map<U32, nat>, g: U32)
    requires n < |tracks| && Anchors(tracks, n, anchors, firsts)
    requires InSet(tracks[n], g) && g in anchors
    ensures g in firsts && firsts[g] < n && InSet(tracks[firsts[g]], g) && anchors[g].name == tracks[firsts[g]].name
    ensures SameDuration(tracks[firsts[g]], tracks[n]) <==>
        DurationTicks(tracks[n]) * anchors[g].timescale == anchors[g].ticks * Timescale(tracks[n])
    ensures SameDuration(tracks[firsts[g]], tracks[n]) ==> Anchors(tracks, n + 1, anchors, firsts)
  {
  }

  /** Named, packaged tracks whose MMTP timing is usable and whose switching sets agree. */
  ghost predicate Accepted(tracks: seq<Track>) {
    && (forall i :: 0 <= i < |tracks| ==> tracks[i].name != "" && tracks[i].packaging.Some?)
    && AllMmtpValid(tracks)
    && SetsAligned(tracks)
  }

  ghost predicate RootValid(root: Root) {
    root.version == 1 && root.streamingFormat == "mmtp" && root.streamingFormatVersion != ""
  }

  ghost predicate OthersPass(tracks: seq<Track>, others: OtherVerdicts)
    requires |others.repairTracks| == |tracks|
  {
    && (forall i :: 0 <= i < |tracks| && tracks[i].packaging == Some(FecRepair) ==> others.repairTracks[i])
    && others.fecReferences && others.multicast
  }

  /** An error points at something that is wrong with the catalog. */
  ghost predicate Explains(root: Root, tracks: seq<Track>, others: OtherVerdicts, error: CatalogError)
    requires |others.repairTracks| == |tracks|
  {
    match error
    case InvalidRoot => !RootValid(root) || tracks == []
    case OtherCheck => !OthersPass(tracks, others)
    case InvalidTrack(name) => exists i ::
        0 <= i < |tracks| && tracks[i].name == name && (name == "" || tracks[i].packaging.None?)
    case SwitchingSetGroupDurationMismatch(_, _, _) => NamesMismatch(tracks, error)
    case _ => exists i :: 0 <= i < |tracks| && tracks[i].packaging == Some(Mmtp) && Blames(tracks[i], error)
  }

  /** Track checks first, switching sets after, so the latter only meet tracks with usable timing. */
  method Validate(root: Root, tracks: seq<Track>, others: OtherVerdicts) returns (r: Outcome)
    requires |others.repairTracks| == |tracks|
    ensures r.Ok? <==> RootValid(root) && tracks != [] && Accepted(tracks) && OthersPass(tracks, others)
    ensures r.Err? ==> Explains(root, tracks, others, r.error)
  {
    hide MmtpValid;
    hide SetsAligned;
    if root.version != 1 || root.streamingFormat != "mmtp" || root.streamingFormatVersion == "" || |tracks| == 0 {
      return Err(InvalidRoot);
    }
    var i := 0;
    while i < |tracks|
      invariant i <= |tracks|
      invariant forall k :: 0 <= k < i ==> tracks[k].name != "" && tracks[k].packaging.Some?
      invariant forall k :: 0 <= k < i && tracks[k].packaging == Some(Mmtp) ==> MmtpValid(tracks[k])
      invariant forall k :: 0 <= k < i && tracks[k].packaging == Some(FecRepair) ==> others.repairTracks[k]
    {
      var track := tracks[i];
      if track.name == "" || track.packaging.None? {
        return Err(InvalidTrack(track.name));
      }
      match track.packaging.value {
        case Mmtp =>
          r := ValidateMmtpTrack(track);
          if r.Err? {
            return;
          }
        case FecRepair =>
          if !others.repairTracks[i] {
            return Err(OtherCheck);
          }
        case _ =>
      }
      i := i + 1;
    }
    if !others.fecReferences {
      return Err(OtherCheck);
    }
    r := ValidateSwitchingSets(tracks);
    if r.Ok? && !others.multicast {
      return Err(OtherCheck);
    }
  }

  // ---------------------------------------------------------------- publisher timing

  function CeilDiv(numerator: nat, denominator: nat): nat
    requires 0 < denominator
  {
    (numerator + denominator - 1) / denominator
  }

  /** How many source groups share one repair group. */
  function RepairGroupDepth(depthMs: Option<U32>, timescale: U32, duration: nat): nat
    requires 0 < duration
  {
    if depthMs.None? then 1
    else
      ProductNonNegative(depthMs.value, timescale);
      var depth := CeilDiv(depthMs.value * timescale, duration * 1000);
      if depth < 1 then 1 else depth
  }

  lemma CeilDivIsLeast(n: nat, d: nat)
    requires 0 < d
    ensures n <= CeilDiv(n, d) * d
    ensures forall e: nat :: e < CeilDiv(n, d) ==> e * d < n
  {
    var q := CeilDiv(n, d);
    assert q * d <= n + d - 1 < (q + 1) * d;
    forall e: nat | e < q
      ensures e * d < n
    {
      MulAtMost(e + 1, q, d);
    }
  }

  /** The depth is the least positive number of groups that covers the interleave depth, and it fits 64 bits. */
  lemma RepairDepthIsLeast(depthMs: U32, timescale: U32, duration: nat)
    requires 0 < duration
    ensures var depth := RepairGroupDepth(Some(depthMs), timescale, duration);
            && 1 <= depth < 0x1_0000_0000_0000_0000
            && depthMs * timescale <= depth * (duration * 1000)
            && forall e: nat :: 1 <= e < depth ==> e * (duration * 1000) < depthMs * timescale
  {
    ProductNonNegative(depthMs, timescale);
    CeilDivIsLeast(depthMs * timescale, duration * 1000);
    CeilDivBounded(depthMs, timescale, duration * 1000);
  }

  lemma CeilDivBounded(a: U32, b: U32, d: nat)
    requires 0 < d
    ensures 0 <= a * b && CeilDiv(a * b, d) < 0x1_0000_0000_0000_0000
  {
    ProductNonNegative(a, b);
    MulAtMost32(a, b);
    var n := a * b;
    if 0 < n {
      CeilDivIsLeast(n, d);
      if n < CeilDiv(n, d) {
        assert n * d < n;
        MulByOneOrMore(n, d);
      }
    } else {
      QuotientIs(d - 1, d, 0);
    }
  }

  lemma MulByOneOrMore(n: nat, d: nat)
    requires 0 < d
    ensures n <= n * d
  {
  }

  lemma MulAtMost32(a: U32, b: U32)
    ensures a * b <= 0xFFFF_FFFF * 0xFFFF_FFFF
  {
    ProductMonotone(a, 0xFFFF_FFFF, b);
    ProductMonotone(b, 0xFFFF_FFFF, 0xFFFF_FFFF);
  }

  /**
   * In an accepted catalog, any two MMTP tracks of one switching set give the same elapsed time
   * the same group number, whatever their timescales, while the time fits 64 bits in both.
   */
  lemma AcceptedTracksAlign(tracks: seq<Track>, i: nat, j: nat, altGroup: U32, elapsed: int)
    requires Accepted(tracks)
    requires i < |tracks| && tracks[i].packaging == Some(Mmtp) && tracks[i].altGroup == Some(altGroup)
    requires j < |tracks| && tracks[j].packaging == Some(Mmtp) && tracks[j].altGroup == Some(altGroup)
    requires TicksInRange(elapsed, Timescale(tracks[i])) && TicksInRange(elapsed, Timescale(tracks[j]))
    ensures 0 < DurationTicks(tracks[i]) && 0 < DurationTicks(tracks[j])
    ensures GroupNumber(elapsed, Timescale(tracks[i]), DurationTicks(tracks[i]))
         == GroupNumber(elapsed, Timescale(tracks[j]), DurationTicks(tracks[j]))
  {
    hide TicksInRange;
    hide GroupNumber;
    assert InSet(tracks[i], altGroup) && InSet(tracks[j], altGroup);
    assert SameDuration(tracks[i], tracks[j]);
    EqualDurationsAlign(elapsed, Timescale(tracks[i]), DurationTicks(tracks[i]),
                        Timescale(tracks[j]), DurationTicks(tracks[j]));
  }

  /**
   * What acceptance says of an MMTP track in plain numbers: its timescale is positive, its duration is
   * the given ticks, or else exactly the given milliseconds in ticks, and its FEC parameters are usable.
   */
  lemma AcceptedTrackIsUsable(tracks: seq<Track>, i: nat)
    requires Accepted(tracks) && i < |tracks| && tracks[i].packaging == Some(Mmtp)
    ensures var track := tracks[i];
            && track.name != "" && track.timescale.Some? && 0 < track.timescale.value && 0 < DurationTicks(track)
            && (track.groupDurationTicks.Some? ==> DurationTicks(track) == track.groupDurationTicks.value)
            && (track.groupDurationTicks.None? ==>
                  && track.groupDurationMs.Some? && 0 < track.groupDurationMs.value
                  && DurationTicks(track) * 1000 == track.groupDurationMs.value * track.timescale.value)
            && (track.fec.Some? ==>
                  var fec := track.fec.value;
                  && 0 < fec.sourceSymbols && 0 < fec.repairSymbols && 0 < fec.symbolSize
                  && (fec.algorithm == RaptorQ ==> exists words :: fec.symbolSize == 8 * words)
                  && (fec.interleaveDepthMs.Some? ==> 0 < fec.interleaveDepthMs.value)
                  && (fec.repairContainer.None? || fec.repairContainer.value == "native"))
  {
    var track := tracks[i];
    assert MmtpValid(track);
    if track.fec.Some? && track.fec.value.algorithm == RaptorQ {
      assert track.fec.value.symbolSize == 8 * (track.fec.value.symbolSize / 8);
    }
  }
}
