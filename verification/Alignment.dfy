/** From an accepted catalog to equal group numbers on every track of a switching set. */
module Alignment {
  import opened Options
  import opened PresentationClock
  import C = Catalog
  import opened DispatchSpec
  import opened DispatchRuns

  const SOURCE_PRIORITY: U8 := 128

  /** The state the publisher builds for a usable MMTP track. */
  function BuildTrack(track: C.Track, repairPriority: Option<U8>): Track
    requires 0 < C.DurationTicks(track)
  {
    var depthMs := if track.fec.Some? then track.fec.value.interleaveDepthMs else None;
    var depth := C.RepairGroupDepth(depthMs, C.Timescale(track), C.DurationTicks(track));
    if depthMs.Some? then
      C.RepairDepthIsLeast(depthMs.value, C.Timescale(track), C.DurationTicks(track));
      NewTrack(SOURCE_PRIORITY, C.Timescale(track), C.DurationTicks(track), depth, repairPriority)
    else NewTrack(SOURCE_PRIORITY, C.Timescale(track), C.DurationTicks(track), 1, repairPriority)
  }

  predicate ReachesClock(t: Track, p: Packet) {
    p.packetType.Mpu? && Refusal(t, p).None?
  }

  /** The timestamps of a run that reached the track's clock. */
  function ClockedStamps(t: Track, epoch: U32, inputs: seq<Input>): seq<U32> {
    if inputs == [] then []
    else
      var n := |inputs| - 1;
      ClockedStamps(t, epoch, inputs[..n]) +
      if ReachesClock(Run(t, epoch, inputs[..n]), inputs[n].packet) then [inputs[n].packet.timestamp] else []
  }

  lemma PutFragmentKeepsClock(t: Track, group: nat, p: Packet, env: Env)
    ensures var u := PutFragment(t, group, p, env).track;
            u.highest == t.highest && u.timescale == t.timescale && u.duration == t.duration
  {
    hide Resolve;
  }

  /** A packet moves the clock exactly when it reaches it, and never the timing. */
  lemma StepMovesClock(t: Track, epoch: U32, p: Packet, env: Env)
    ensures var u := DispatchTrack(t, epoch, p, env).track;
            && u.timescale == t.timescale && u.duration == t.duration
            && u.highest == if ReachesClock(t, p) then Highest(t.highest, Elapsed(t, epoch, p.timestamp)) else t.highest
  {
    hide FormulaGroup;
    hide Elapsed;
    hide PutFragment;
    var group := FormulaGroup(t, epoch, p.timestamp);
    PutFragmentKeepsClock(EnterGroup(Clocked(t, epoch, p), group), group, p, env);
  }

  /** The track's clock after a run is the highest of the times unwrapped from the timestamps that reached it. */
  lemma {:induction false} RunClock(t: Track, epoch: U32, inputs: seq<Input>)
    requires t.highest.None?
    ensures var u := Run(t, epoch, inputs);
            && u.timescale == t.timescale && u.duration == t.duration
            && u.highest == HighestOf(UnwrapAll(epoch, ClockedStamps(t, epoch, inputs)))
  {
    hide DispatchTrack;
    hide ReachesClock;
    hide Unwrap;
    hide UnwrapAll;
    hide HighestOf;
    hide Highest;
    ClockStarts(epoch);
    if inputs != [] {
      var n := |inputs| - 1;
      var before := Run(t, epoch, inputs[..n]);
      RunClock(t, epoch, inputs[..n]);
      StepMovesClock(before, epoch, inputs[n].packet, inputs[n].env);
      var stamps := ClockedStamps(t, epoch, inputs[..n]);
      assert stamps + [] == stamps;
      ClockSnoc(epoch, stamps, inputs[n].packet.timestamp);
    }
  }

  lemma ClockStarts(epoch: U32)
    ensures HighestOf(UnwrapAll(epoch, [])) == None
  {
  }

  lemma ClockSnoc(epoch: U32, stamps: seq<U32>, stamp: U32)
    ensures var times := UnwrapAll(epoch, stamps);
            HighestOf(UnwrapAll(epoch, stamps + [stamp]))
                == Highest(HighestOf(times), Unwrap(HighestOf(times), WrappingSub(stamp, epoch)))
  {
    hide Unwrap;
    hide Highest;
    assert (stamps + [stamp])[..|stamps|] == stamps;
    var times := UnwrapAll(epoch, stamps);
    var next := Unwrap(HighestOf(times), WrappingSub(stamp, epoch));
    assert (times + [next])[..|times|] == times;
  }

  /** A run of a fresh track whose packets truly came at the given elapsed times. */
  ghost predicate TrueRun(t: Track, epoch: U32, inputs: seq<Input>, truth: seq<int>) {
    && t.highest.None?
    && ClockedStamps(t, epoch, inputs) == Stamps(epoch, truth)
    && Trackable(truth)
  }

  /** After a trackable run, a packet in the window is placed by its true time. */
  lemma PlacedByTrueTime(t: Track, epoch: U32, inputs: seq<Input>, truth: seq<int>, ticks: int)
    requires TrueRun(t, epoch, inputs, truth) && InWindow(HighestOf(truth), ticks)
    ensures FormulaGroup(Run(t, epoch, inputs), epoch, Stamp(epoch, ticks))
        == GroupNumber(ticks, t.timescale, t.duration)
  {
    hide Unwrap;
    hide GroupNumber;
    hide InWindow;
    hide Trackable;
    RunClock(t, epoch, inputs);
    RunExactlyWhenTrackable(epoch, truth);
    UnwrapExact(HighestOf(truth), epoch, ticks);
  }

  /**
   * Cross-track alignment: two tracks of one switching set of an accepted catalog, after any
   * trackable runs of their own under one epoch, put packets of the same true time in the same group.
   */
  lemma SwitchingSetAligns(
    catalog: seq<C.Track>, i: nat, j: nat, altGroup: U32, epoch: U32, ticks: int,
    a: Track, inputsA: seq<Input>, truthA: seq<int>,
    b: Track, inputsB: seq<Input>, truthB: seq<int>)
    requires C.Accepted(catalog) && i < |catalog| && j < |catalog|
    requires C.InSet(catalog[i], altGroup) && C.InSet(catalog[j], altGroup)
    requires a.timescale == C.Timescale(catalog[i]) && a.duration == C.DurationTicks(catalog[i])
    requires b.timescale == C.Timescale(catalog[j]) && b.duration == C.DurationTicks(catalog[j])
    requires TrueRun(a, epoch, inputsA, truthA) && InWindow(HighestOf(truthA), ticks)
    requires TrueRun(b, epoch, inputsB, truthB) && InWindow(HighestOf(truthB), ticks)
    requires TicksInRange(ticks, a.timescale) && TicksInRange(ticks, b.timescale)
    ensures FormulaGroup(Run(a, epoch, inputsA), epoch, Stamp(epoch, ticks))
         == FormulaGroup(Run(b, epoch, inputsB), epoch, Stamp(epoch, ticks))
  {
    hide FormulaGroup;
    hide GroupNumber;
    hide TicksInRange;
    hide InWindow;
    hide TrueRun;
    hide C.Accepted;
    PlacedByTrueTime(a, epoch, inputsA, truthA, ticks);
    PlacedByTrueTime(b, epoch, inputsB, truthB, ticks);
    C.AcceptedTracksAlign(catalog, i, j, altGroup, ticks);
  }

  // ---------------------------------------------------------------- the whole publisher

  /** The packets of one packet id, in order. */
  function InputsFor(id: nat, arrivals: seq<Arrival>): seq<Input> {
    if arrivals == [] then []
    else
      var last := arrivals[|arrivals| - 1];
      InputsFor(id, arrivals[..|arrivals| - 1]) + if last.packetId == id then [Input(last.packet, last.env)] else []
  }

  /** A packet that does not reach the clock is dispatched the same whatever the epoch. */
  lemma EpochUnread(t: Track, a: U32, b: U32, p: Packet, env: Env)
    requires !ReachesClock(t, p)
    ensures DispatchTrack(t, a, p, env) == DispatchTrack(t, b, p, env)
  {
    hide FormulaGroup;
    hide PutFragment;
    hide Clocked;
  }

  lemma RunOne(t: Track, epoch: U32, inputs: seq<Input>, input: Input)
    ensures Run(t, epoch, inputs + [input])
        == DispatchTrack(Run(t, epoch, inputs), epoch, input.packet, input.env).track
  {
    assert (inputs + [input])[..|inputs|] == inputs;
  }

  /**
   * However the packets of all tracks interleave, each track ends as if it had run alone on its own
   * packets, under the one epoch the publisher settled on.
   */
  lemma {:induction false} EachTrackRunsAlone(pub: Publication, arrivals: seq<Arrival>, id: nat, epoch: U32)
    requires pub.epoch.None? && id in pub.tracks
    requires PublishAll(pub, arrivals).epoch.None? || PublishAll(pub, arrivals).epoch == Some(epoch)
    ensures id in PublishAll(pub, arrivals).tracks
    ensures PublishAll(pub, arrivals).tracks[id] == Run(pub.tracks[id], epoch, InputsFor(id, arrivals))
  {
    hide DispatchTrack;
    hide Refusal;
    if arrivals != [] {
      var n := |arrivals| - 1;
      var before, last := PublishAll(pub, arrivals[..n]), arrivals[n];
      EachTrackRunsAlone(pub, arrivals[..n], id, epoch);
      var inputs := InputsFor(id, arrivals[..n]);
      assert inputs + [] == inputs;
      if last.packetId == id {
        RunOne(pub.tracks[id], epoch, inputs, Input(last.packet, last.env));
        if !ReachesClock(before.tracks[id], last.packet) {
          EpochUnread(before.tracks[id], Epoch(before.epoch, last.packet.timestamp), epoch, last.packet, last.env);
        }
      }
    }
  }

  /** A set epoch stays. */
  lemma {:induction false} EpochIsSetOnce(pub: Publication, arrivals: seq<Arrival>, n: nat)
    requires n <= |arrivals| && PublishAll(pub, arrivals[..n]).epoch.Some?
    ensures PublishAll(pub, arrivals).epoch == PublishAll(pub, arrivals[..n]).epoch
  {
    if n == |arrivals| {
      assert arrivals[..n] == arrivals;
    } else {
      var before := arrivals[..|arrivals| - 1];
      assert before[..n] == arrivals[..n];
      EpochIsSetOnce(pub, before, n);
    }
  }

  /** Arrival `m` reached the clock of its track. */
  ghost predicate Clocks(pub: Publication, arrivals: seq<Arrival>, m: nat)
    requires m < |arrivals|
  {
    var before, a := PublishAll(pub, arrivals[..m]), arrivals[m];
    a.packetId in before.tracks && ReachesClock(before.tracks[a.packetId], a.packet)
  }

  lemma EpochAtFirst(pub: Publication)
    ensures PublishAll(pub, []) == pub
  {
  }

  /** The last arrival sets the epoch if it reaches a clock and nothing did before. */
  lemma EpochMoves(pub: Publication, arrivals: seq<Arrival>)
    requires arrivals != []
    ensures var n := |arrivals| - 1;
            var before := PublishAll(pub, arrivals[..n]);
            PublishAll(pub, arrivals).epoch ==
              if before.epoch.None? && Clocks(pub, arrivals, n) then Some(arrivals[n].packet.timestamp)
                  else before.epoch
  {
    hide DispatchTrack;
    hide Refusal;
  }

  ghost predicate FirstToClock(pub: Publication, arrivals: seq<Arrival>, m: nat) {
    m < |arrivals| && Clocks(pub, arrivals, m) && forall k :: 0 <= k < m ==> !Clocks(pub, arrivals, k)
  }

  lemma ClocksEarlier(pub: Publication, arrivals: seq<Arrival>, n: nat)
    requires n <= |arrivals|
    ensures forall m :: 0 <= m < n ==> (Clocks(pub, arrivals[..n], m) <==> Clocks(pub, arrivals, m))
  {
    hide PublishAll;
    hide ReachesClock;
    assert forall m :: 0 <= m < n ==> arrivals[..n][..m] == arrivals[..m] && arrivals[..n][m] == arrivals[m];
  }

  /** The epoch after any arrivals is the timestamp of the first of them to reach a clock, and unset if none did. */
  lemma {:induction false} EpochIsFirstClocked(pub: Publication, arrivals: seq<Arrival>)
    requires pub.epoch.None?
    ensures PublishAll(pub, arrivals).epoch.None? <==> forall m :: 0 <= m < |arrivals| ==> !Clocks(pub, arrivals, m)
    ensures PublishAll(pub, arrivals).epoch.Some? ==>
              exists m: nat ::
                FirstToClock(pub, arrivals, m) && PublishAll(pub, arrivals).epoch == Some(arrivals[m].packet.timestamp)
  {
    hide PublishAll;
    hide Clocks;
    if arrivals == [] {
      EpochAtFirst(pub);
    } else {
      var n := |arrivals| - 1;
      var before := arrivals[..n];
      EpochIsFirstClocked(pub, before);
      EpochMoves(pub, arrivals);
      ClocksEarlier(pub, arrivals, n);
      if PublishAll(pub, before).epoch.Some? {
        var m: nat :| FirstToClock(pub, before, m) && PublishAll(pub, before).epoch == Some(before[m].packet.timestamp);
        assert FirstToClock(pub, arrivals, m);
      } else if Clocks(pub, arrivals, n) {
        assert FirstToClock(pub, arrivals, n);
      }
    }
  }

  /** A publisher's track for a catalog track, before any packet. */
  ghost predicate Fresh(t: Track, track: C.Track) {
    t.timescale == C.Timescale(track) && t.duration == C.DurationTicks(track) && t.highest.None?
  }

  /**
   * Alignment end to end: a publisher with tracks for an accepted catalog receives any interleaving
   * of packets. Any two of its tracks in one switching set whose packets were trackable then put the
   * same true time in the same group.
   */
  lemma PublisherAligns(
    catalog: seq<C.Track>, i: nat, j: nat, altGroup: U32,
    pub: Publication, a: nat, b: nat, arrivals: seq<Arrival>, epoch: U32,
    truthA: seq<int>, truthB: seq<int>, ticks: int)
    requires C.Accepted(catalog) && i < |catalog| && j < |catalog|
    requires C.InSet(catalog[i], altGroup) && C.InSet(catalog[j], altGroup)
    requires pub.epoch.None? && a in pub.tracks && b in pub.tracks
    requires Fresh(pub.tracks[a], catalog[i]) && Fresh(pub.tracks[b], catalog[j])
    requires PublishAll(pub, arrivals).epoch == Some(epoch)
    requires TrueRun(pub.tracks[a], epoch, InputsFor(a, arrivals), truthA) && InWindow(HighestOf(truthA), ticks)
    requires TrueRun(pub.tracks[b], epoch, InputsFor(b, arrivals), truthB) && InWindow(HighestOf(truthB), ticks)
    requires TicksInRange(ticks, C.Timescale(catalog[i])) && TicksInRange(ticks, C.Timescale(catalog[j]))
    ensures var after := PublishAll(pub, arrivals);
            && a in after.tracks && b in after.tracks
            && FormulaGroup(after.tracks[a], epoch, Stamp(epoch, ticks))
                == FormulaGroup(after.tracks[b], epoch, Stamp(epoch, ticks))
  {
    hide FormulaGroup;
    hide TicksInRange;
    hide InWindow;
    hide TrueRun;
    hide PublishAll;
    hide C.Accepted;
    EachTrackRunsAlone(pub, arrivals, a, epoch);
    EachTrackRunsAlone(pub, arrivals, b, epoch);
    SwitchingSetAligns(catalog, i, j, altGroup, epoch, ticks,
                       pub.tracks[a], InputsFor(a, arrivals), truthA, pub.tracks[b], InputsFor(b, arrivals), truthB);
  }

  /** A written media packet is the last event of its track, in the group of its time. */
  lemma WrittenInItsGroup(t: Track, epoch: U32, p: Packet, env: Env)
    requires SourceInv(t) && p.packetType.Mpu? && DispatchTrack(t, epoch, p, env).outcome.Written?
    ensures var log := DispatchTrack(t, epoch, p, env).track.log;
            && log != [] && log[|log| - 1].Wrote? && log[|log| - 1].packet == p
            && log[|log| - 1].group == FormulaGroup(t, epoch, p.timestamp)
  {
    hide FormulaGroup;
    hide Elapsed;
    hide SourceInv;
    hide PutFragment;
    var group := FormulaGroup(t, epoch, p.timestamp);
    var clocked := Clocked(t, epoch, p);
    SourceInvFrame(t, clocked);
    EnterGroupKeeps(clocked, group);
    PutInGroup(EnterGroup(clocked, group), group, p, env);
  }

  lemma PutInGroup(t: Track, group: nat, p: Packet, env: Env)
    requires SourceInv(t) && t.currentGroup == Some(group) && PutFragment(t, group, p, env).outcome.Written?
    ensures var log := PutFragment(t, group, p, env).track.log;
            log != [] && log[|log| - 1].Wrote? && log[|log| - 1].packet == p && log[|log| - 1].group == group
  {
    hide SinkInv;
    hide Resolve;
  }

  /** What became of arrival `m`. */
  function OutcomeOf(pub: Publication, arrivals: seq<Arrival>, m: nat): Outcome
    requires m < |arrivals|
  {
    var before, a := PublishAll(pub, arrivals[..m]), arrivals[m];
    if a.packetId !in before.tracks then Failed(UnknownPacketId)
    else DispatchTrack(before.tracks[a.packetId], Epoch(before.epoch, a.packet.timestamp), a.packet, a.env).outcome
  }

  /** The event arrival `m` left last on its own track. */
  ghost predicate WroteInGroup(pub: Publication, arrivals: seq<Arrival>, m: nat, group: nat)
    requires m < |arrivals|
  {
    var after, a := PublishAll(pub, arrivals[..m + 1]), arrivals[m];
    && a.packetId in after.tracks
    && var log := after.tracks[a.packetId].log;
       log != [] && log[|log| - 1].Wrote? && log[|log| - 1].packet == a.packet && log[|log| - 1].group == group
  }

  /** A media packet written in a publisher's run is found in the group of its true time. */
  lemma WrittenByTrueTime(pub: Publication, arrivals: seq<Arrival>, m: nat, epoch: U32, truth: seq<int>, ticks: int)
    requires pub.epoch.None? && m < |arrivals| && arrivals[m].packetId in pub.tracks
    requires PublishAll(pub, arrivals).epoch == Some(epoch)
    requires arrivals[m].packet.packetType.Mpu? && arrivals[m].packet.timestamp == Stamp(epoch, ticks)
    requires OutcomeOf(pub, arrivals, m) == Written
    requires var t := pub.tracks[arrivals[m].packetId];
             SourceInv(t) && TrueRun(t, epoch, InputsFor(arrivals[m].packetId, arrivals[..m]), truth)
    requires InWindow(HighestOf(truth), ticks)
    ensures var t := pub.tracks[arrivals[m].packetId];
            WroteInGroup(pub, arrivals, m, GroupNumber(ticks, t.timescale, t.duration))
  {
    hide DispatchTrack;
    hide FormulaGroup;
    hide GroupNumber;
    hide InWindow;
    hide TrueRun;
    hide SourceInv;
    hide Stamp;
    hide Refusal;
    hide ClockedStamps;
    hide Run;
    hide InputsFor;
    hide PublishAll;
    hide HighestOf;
    hide EpochAfter;
    var id, p, env := arrivals[m].packetId, arrivals[m].packet, arrivals[m].env;
    var before, inputs := PublishAll(pub, arrivals[..m]), InputsFor(id, arrivals[..m]);
    EpochOfPrefix(pub, arrivals, m, epoch);
    EachTrackRunsAlone(pub, arrivals[..m], id, epoch);
    RunKeepsSource(pub.tracks[id], epoch, inputs);
    WrittenSetsEpoch(pub, arrivals, m, epoch);
    WrittenInItsGroup(before.tracks[id], epoch, p, env);
    PlacedByTrueTime(pub.tracks[id], epoch, inputs, truth, ticks);
    PublishNext(pub, arrivals, m);
  }

  lemma PublishNext(pub: Publication, arrivals: seq<Arrival>, m: nat)
    requires m < |arrivals|
    ensures PublishAll(pub, arrivals[..m + 1]) == PublishOne(PublishAll(pub, arrivals[..m]), arrivals[m])
  {
    assert arrivals[..m + 1][..m] == arrivals[..m];
  }

  /** A written media packet was dispatched under the epoch the publisher keeps. */
  lemma WrittenSetsEpoch(pub: Publication, arrivals: seq<Arrival>, m: nat, epoch: U32)
    requires m < |arrivals| && PublishAll(pub, arrivals).epoch == Some(epoch)
    requires arrivals[m].packet.packetType.Mpu? && OutcomeOf(pub, arrivals, m) == Written
    ensures Epoch(PublishAll(pub, arrivals[..m]).epoch, arrivals[m].packet.timestamp) == epoch
  {
    hide DispatchTrack;
    hide Refusal;
    var before, a := PublishAll(pub, arrivals[..m]), arrivals[m];
    WrittenReachesClock(before.tracks[a.packetId], Epoch(before.epoch, a.packet.timestamp), a.packet, a.env);
    PublishNext(pub, arrivals, m);
    EpochOfPrefix(pub, arrivals, m + 1, epoch);
  }

  lemma WrittenReachesClock(t: Track, epoch: U32, p: Packet, env: Env)
    requires p.packetType.Mpu? && DispatchTrack(t, epoch, p, env).outcome.Written?
    ensures ReachesClock(t, p)
  {
  }

  lemma EpochOfPrefix(pub: Publication, arrivals: seq<Arrival>, m: nat, epoch: U32)
    requires m <= |arrivals| && PublishAll(pub, arrivals).epoch == Some(epoch)
    ensures var before := PublishAll(pub, arrivals[..m]); before.epoch.None? || before.epoch == Some(epoch)
  {
    if PublishAll(pub, arrivals[..m]).epoch.Some? {
      EpochIsSetOnce(pub, arrivals, m);
    }
  }

  /**
   * Alignment on the wire: in any interleaving of packets, two media packets of the same true time
   * written on two tracks of one switching set are found in the same group of their tracks.
   */
  lemma WrittenTogether(
    catalog: seq<C.Track>, i: nat, j: nat, altGroup: U32,
    pub: Publication, arrivals: seq<Arrival>, m: nat, n: nat, epoch: U32, truthA: seq<int>, truthB: seq<int>,
        ticks: int)
    returns (group: nat)
    requires C.Accepted(catalog) && i < |catalog| && j < |catalog|
    requires C.InSet(catalog[i], altGroup) && C.InSet(catalog[j], altGroup)
    requires pub.epoch.None? && PublishAll(pub, arrivals).epoch == Some(epoch)
    requires m < |arrivals| && arrivals[m].packetId in pub.tracks && Fresh(pub.tracks[arrivals[m].packetId], catalog[i])
    requires n < |arrivals| && arrivals[n].packetId in pub.tracks && Fresh(pub.tracks[arrivals[n].packetId], catalog[j])
    requires SourceInv(pub.tracks[arrivals[m].packetId]) && SourceInv(pub.tracks[arrivals[n].packetId])
    requires arrivals[m].packet.packetType.Mpu? && arrivals[m].packet.timestamp == Stamp(epoch, ticks)
    requires arrivals[n].packet.packetType.Mpu? && arrivals[n].packet.timestamp == Stamp(epoch, ticks)
    requires OutcomeOf(pub, arrivals, m) == Written && OutcomeOf(pub, arrivals, n) == Written
    requires TrueRun(pub.tracks[arrivals[m].packetId], epoch, InputsFor(arrivals[m].packetId, arrivals[..m]), truthA)
    requires TrueRun(pub.tracks[arrivals[n].packetId], epoch, InputsFor(arrivals[n].packetId, arrivals[..n]), truthB)
    requires InWindow(HighestOf(truthA), ticks) && InWindow(HighestOf(truthB), ticks)
    requires TicksInRange(ticks, C.Timescale(catalog[i])) && TicksInRange(ticks, C.Timescale(catalog[j]))
    ensures WroteInGroup(pub, arrivals, m, group) && WroteInGroup(pub, arrivals, n, group)
  {
    hide GroupNumber;
    hide TicksInRange;
    hide InWindow;
    hide TrueRun;
    hide PublishAll;
    hide OutcomeOf;
    hide WroteInGroup;
    hide SourceInv;
    hide Stamp;
    hide C.Accepted;
    WrittenByTrueTime(pub, arrivals, m, epoch, truthA, ticks);
    WrittenByTrueTime(pub, arrivals, n, epoch, truthB, ticks);
    C.AcceptedTracksAlign(catalog, i, j, altGroup, ticks);
    group := GroupNumber(ticks, C.Timescale(catalog[i]), C.DurationTicks(catalog[i]));
  }

  /** Built tracks start fresh, with the catalog's timing. */
  lemma BuildTrackTiming(track: C.Track, repairPriority: Option<U8>)
    requires 0 < C.DurationTicks(track)
    ensures var t := BuildTrack(track, repairPriority);
            && t.timescale == C.Timescale(track) && t.duration == C.DurationTicks(track)
            && t.highest.None? && SourceInv(t) && RepairInv(t)
            && (track.fec.None? || track.fec.value.interleaveDepthMs.None? ==> t.depth == 1)
            && (track.fec.Some? && track.fec.value.interleaveDepthMs.Some? ==>
                  var wanted := track.fec.value.interleaveDepthMs.value * t.timescale;
                  && wanted <= t.depth * (t.duration * 1000)
                  && forall e: nat :: 1 <= e < t.depth ==> e * (t.duration * 1000) < wanted)
            && (t.repair.Some? <==> repairPriority.Some?) && t.priority == 128
            && (t.repair.Some? ==> t.repair.value.priority == repairPriority.value)
  {
    hide SourceInv;
    hide RepairInv;
    if track.fec.Some? && track.fec.value.interleaveDepthMs.Some? {
      C.RepairDepthIsLeast(track.fec.value.interleaveDepthMs.value, C.Timescale(track), C.DurationTicks(track));
    }
    var t := BuildTrack(track, repairPriority);
    NewTrackInv(t.priority, t.timescale, t.duration, t.depth, repairPriority);
  }
}
