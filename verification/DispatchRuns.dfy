/** What holds of a track's sinks after any run of dispatched packets, accepted or not. */
module DispatchRuns {
  import opened Options
  import opened PresentationClock
  import opened DispatchSpec

  datatype Input = Input(packet: Packet, env: Env)

  /** A track after a run of packets, sink failures included. */
  function Run(t: Track, epoch: U32, inputs: seq<Input>): Track {
    if inputs == [] then t
    else
      var n := |inputs| - 1;
      DispatchTrack(Run(t, epoch, inputs[..n]), epoch, inputs[n].packet, inputs[n].env).track
  }

  function OutcomeAt(t: Track, epoch: U32, inputs: seq<Input>, i: nat): Outcome
    requires i < |inputs|
  {
    DispatchTrack(Run(t, epoch, inputs[..i]), epoch, inputs[i].packet, inputs[i].env).outcome
  }

  // ---------------------------------------------------------------- what a sink has seen

  ghost predicate Opened(log: seq<Event>, group: nat, subgroup: nat) {
    exists i :: 0 <= i < |log| && log[i].Created? && log[i].group == group && log[i].subgroup == subgroup
  }

  /** The MFU subgroups of a group in the order they were opened. */
  ghost function MfuOpens(log: seq<Event>, group: nat): seq<nat> {
    if log == [] then []
    else
      var last := log[|log| - 1];
      var before := MfuOpens(log[..|log| - 1], group);
      if last.Created? && last.group == group && last.subgroup != 0 then before + [last.subgroup] else before
  }

  ghost predicate CountsFromOne(ids: seq<nat>) {
    forall i :: 0 <= i < |ids| ==> ids[i] == i + 1
  }

  ghost predicate GroupsNeverDecrease(log: seq<Event>) {
    forall i, j :: 0 <= i <= j < |log| ==> log[i].group <= log[j].group
  }

  ghost predicate OpenedOnce(log: seq<Event>) {
    forall i, j :: 0 <= i < j < |log| && log[i].Created? && log[j].Created? ==>
      log[i].group != log[j].group || log[i].subgroup != log[j].subgroup
  }

  /** Subgroup 0 holds only MPU metadata, every other subgroup only MFUs. */
  ghost predicate KindsSeparate(log: seq<Event>) {
    forall i :: 0 <= i < |log| && log[i].Wrote? ==>
      log[i].packet.fragmentType == Some(if log[i].subgroup == 0 then Init else Mfu)
  }

  ghost predicate MfusInOrder(log: seq<Event>) {
    forall group :: CountsFromOne(MfuOpens(log, group))
  }

  /** The source sink of a track. */
  ghost predicate SinkInv(log: seq<Event>) {
    GroupsNeverDecrease(log) && OpenedOnce(log) && KindsSeparate(log) && MfusInOrder(log)
  }

  ghost predicate UpTo(log: seq<Event>, group: nat) {
    forall i :: 0 <= i < |log| ==> log[i].group <= group
  }

  /** The per-group tables describe exactly what is open in the current group. */
  ghost predicate TablesInv(t: Track, group: nat) {
    && UpTo(t.log, group)
    && (t.initGroup.Some? ==> t.initGroup.value == Subgroup(group, 0))
    && (Opened(t.log, group, 0) <==> t.initGroup.Some?)
    && t.nextSubgroup == |t.mfuGroups| + 1
    && |MfuOpens(t.log, group)| == |t.mfuGroups|
    && (forall id: nat :: id != 0 && Opened(t.log, group, id) ==> id < t.nextSubgroup)
    && (forall m :: m in t.mfuGroups ==> t.mfuGroups[m].group == group && 1 <= t.mfuGroups[m].id < t.nextSubgroup)
    && (forall m, n :: m in t.mfuGroups && n in t.mfuGroups && m != n ==> t.mfuGroups[m] != t.mfuGroups[n])
  }

  ghost predicate AtPriority(log: seq<Event>, priority: U8) {
    forall i :: 0 <= i < |log| && log[i].Created? ==> log[i].priority == priority
  }

  ghost predicate SourceInv(t: Track) {
    && SinkInv(t.log)
    && AtPriority(t.log, t.priority)
    && match t.currentGroup
       case None => t.log == [] && t.initGroup.None? && t.mfuGroups == map[] && t.active == map[] && t.nextSubgroup == 1
       case Some(group) => TablesInv(t, group)
  }

  // ---------------------------------------------------------------- one event at a time

  lemma AppendWrote(log: seq<Event>, e: Event)
    requires SinkInv(log) && UpTo(log, e.group) && e.Wrote?
    requires e.packet.fragmentType == Some(if e.subgroup == 0 then Init else Mfu)
    ensures SinkInv(log + [e]) && UpTo(log + [e], e.group)
    ensures forall id :: Opened(log + [e], e.group, id) <==> Opened(log, e.group, id)
    ensures MfuOpens(log + [e], e.group) == MfuOpens(log, e.group)
  {
    OpensAfter(log, e);
    OpenedAfter(log, e);
  }

  lemma AppendCreated(log: seq<Event>, e: Event)
    requires SinkInv(log) && UpTo(log, e.group) && e.Created?
    requires !Opened(log, e.group, e.subgroup)
    requires e.subgroup == 0 || e.subgroup == |MfuOpens(log, e.group)| + 1
    ensures SinkInv(log + [e]) && UpTo(log + [e], e.group)
    ensures forall id :: Opened(log + [e], e.group, id) <==> Opened(log, e.group, id) || id == e.subgroup
    ensures MfuOpens(log + [e], e.group) == MfuOpens(log, e.group) + if e.subgroup == 0 then [] else [e.subgroup]
  {
    OpensAfter(log, e);
    OpenedAfter(log, e);
    assert OpenedOnce(log + [e]) by {
      forall i | 0 <= i < |log| && log[i].Created?
        ensures log[i].group != e.group || log[i].subgroup != e.subgroup
      {
        assert log[i].group == e.group && log[i].subgroup == e.subgroup ==> Opened(log, e.group, e.subgroup);
      }
    }
  }

  lemma OpensAfter(log: seq<Event>, e: Event)
    ensures forall group :: MfuOpens(log + [e], group) ==
              MfuOpens(log, group) + if e.Created? && e.group == group && e.subgroup != 0 then [e.subgroup] else []
  {
    assert (log + [e])[..|log|] == log;
  }

  lemma OpenedAfter(log: seq<Event>, e: Event)
    ensures forall group, id :: Opened(log + [e], group, id) <==>
              Opened(log, group, id) || (e.Created? && e.group == group && e.subgroup == id)
  {
    forall group, id
      ensures Opened(log + [e], group, id) <==>
              Opened(log, group, id) || (e.Created? && e.group == group && e.subgroup == id)
    {
      if Opened(log, group, id) {
        var i :| 0 <= i < |log| && log[i].Created? && log[i].group == group && log[i].subgroup == id;
        assert (log + [e])[i] == log[i];
      }
      assert (log + [e])[|log|] == e;
      assert forall i :: 0 <= i < |log| ==> (log + [e])[i] == log[i];
    }
  }

  /** Nothing has been opened in a group the log has not reached. */
  lemma {:induction false} NothingBeyond(log: seq<Event>, group: nat)
    requires forall i :: 0 <= i < |log| ==> log[i].group < group
    ensures MfuOpens(log, group) == [] && forall id :: !Opened(log, group, id)
  {
    if log != [] {
      NothingBeyond(log[..|log| - 1], group);
    }
  }

  // ---------------------------------------------------------------- one packet at a time

  lemma PutKeeps(t: Track, s: Subgroup, p: Packet, env: Env)
    requires SourceInv(t) && t.currentGroup == Some(s.group)
    requires p.fragmentType == Some(if s.id == 0 then Init else Mfu)
    ensures SourceInv(Put(t, s, p, env).track)
  {
    hide SinkInv;
    hide UpTo;
    hide Opened;
    hide MfuOpens;
    AppendWrote(t.log, Wrote(s.group, s.id, p));
  }

  lemma EnterGroupKeeps(t: Track, group: nat)
    requires SourceInv(t) && !Stale(t, group)
    ensures SourceInv(EnterGroup(t, group)) && EnterGroup(t, group).currentGroup == Some(group)
  {
    hide SinkInv;
    if t.currentGroup != Some(group) {
      NothingBeyond(t.log, group);
    }
  }

  lemma PutInitKeeps(t: Track, group: nat, p: Packet, env: Env)
    requires SourceInv(t) && t.currentGroup == Some(group) && p.fragmentType == Some(Init)
    ensures SourceInv(PutInit(t, group, p, env).track)
  {
    hide SinkInv;
    hide UpTo;
    hide Opened;
    hide MfuOpens;
    if t.initGroup.Some? {
      PutKeeps(t, t.initGroup.value, p, env);
    } else if env.createOk {
      var e := Created(group, 0, t.priority);
      AppendCreated(t.log, e);
      PutKeeps(t.(log := t.log + [e], initGroup := Some(Subgroup(group, 0))), Subgroup(group, 0), p, env);
    }
  }

  lemma PutMfuKeeps(t: Track, group: nat, identity: Identity, p: Packet, env: Env)
    requires SourceInv(t) && t.currentGroup == Some(group) && p.fragmentType == Some(Mfu)
    ensures SourceInv(PutMfu(t, group, identity, p, env).track)
  {
    hide SinkInv;
    hide UpTo;
    hide Opened;
    hide MfuOpens;
    if identity in t.mfuGroups {
      PutKeeps(t, t.mfuGroups[identity], p, env);
    } else if env.createOk {
      var e := Created(group, t.nextSubgroup, t.priority);
      AppendCreated(t.log, e);
      var s := Subgroup(group, t.nextSubgroup);
      PutKeeps(t.(log := t.log + [e], nextSubgroup := t.nextSubgroup + 1, mfuGroups := t.mfuGroups[identity := s]),
          s, p, env);
    }
  }

  /** Every packet, accepted, dropped or refused, keeps the track's sink and tables in order. */
  lemma StepKeepsSource(t: Track, epoch: U32, p: Packet, env: Env)
    requires SourceInv(t)
    ensures SourceInv(DispatchTrack(t, epoch, p, env).track)
  {
    hide SinkInv;
    hide TablesInv;
    hide FormulaGroup;
    hide Elapsed;
    hide PutInit;
    hide PutMfu;
    hide Resolve;
    if p.packetType.Mpu? && Refusal(t, p).None? {
      var group := FormulaGroup(t, epoch, p.timestamp);
      var clocked := Clocked(t, epoch, p);
      SourceInvFrame(t, clocked);
      if !Stale(t, group) {
        EnterGroupKeeps(clocked, group);
        var entered := EnterGroup(clocked, group);
        if p.fragmentType == Some(Init) {
          PutInitKeeps(entered, group, p, env);
        } else if p.fragmentType == Some(Mfu) && Resolve(entered.active, p).Resolved? {
          var r := Resolve(entered.active, p);
          SourceInvFrame(entered, entered.(active := r.active));
          PutMfuKeeps(entered.(active := r.active), group, r.identity, p, env);
        }
      }
    } else if p.packetType.Repair? {
      SourceInvFrame(t, DispatchRepair(t, p, env).track);
    }
  }

  /** The invariant looks only at the sink and the per-group tables. */
  lemma SourceInvFrame(t: Track, u: Track)
    requires SourceInv(t)
    requires u.log == t.log && u.priority == t.priority && u.currentGroup == t.currentGroup
        && u.initGroup == t.initGroup
    requires u.mfuGroups == t.mfuGroups && u.nextSubgroup == t.nextSubgroup
    requires u.active == t.active || t.currentGroup.Some?
    ensures SourceInv(u)
  {
    hide SinkInv;
    hide UpTo;
    hide Opened;
    hide MfuOpens;
  }

  // ---------------------------------------------------------------- whole runs

  /**
   * Subgroup identity over every run: group ids never go back, no subgroup is opened twice,
   * subgroup 0 holds only MPU metadata, each group's MFU subgroups are opened as 1, 2, 3, ...,
   * and the next id is always one more than the MFU subgroups open now.
   */
  lemma {:induction false} RunKeepsSource(t: Track, epoch: U32, inputs: seq<Input>)
    requires SourceInv(t)
    ensures SourceInv(Run(t, epoch, inputs))
  {
    hide SourceInv;
    hide DispatchTrack;
    if inputs != [] {
      var n := |inputs| - 1;
      RunKeepsSource(t, epoch, inputs[..n]);
      StepKeepsSource(Run(t, epoch, inputs[..n]), epoch, inputs[n].packet, inputs[n].env);
    }
  }

  lemma NewTrackInv(priority: U8, timescale: U32, duration: Positive, depth: Positive, repairPriority: Option<U8>)
    ensures SourceInv(NewTrack(priority, timescale, duration, depth, repairPriority))
    ensures RepairInv(NewTrack(priority, timescale, duration, depth, repairPriority))
  {
  }

  // ---------------------------------------------------------------- repair alignment

  /** The repair track opens strictly increasing groups, none ahead of the source group over the depth. */
  ghost predicate RepairInv(t: Track) {
    t.repair.Some? ==>
      var r := t.repair.value;
      && (forall i, j :: 0 <= i < j < |r.log| && r.log[i].Created? && r.log[j].Created? ==>
          r.log[i].group < r.log[j].group)
      && (forall i :: 0 <= i < |r.log| ==>
          r.currentGroup.Some? && r.log[i].group <= r.currentGroup.value && r.log[i].subgroup == 0)
      && AtPriority(r.log, r.priority)
      && (r.currentGroup.Some? ==> t.currentGroup.Some? && r.currentGroup.value <= t.currentGroup.value / t.depth)
  }

  lemma PutFragmentFrame(t: Track, group: nat, p: Packet, env: Env)
    ensures var u := PutFragment(t, group, p, env).track;
            u.depth == t.depth && u.repair == t.repair && u.currentGroup == t.currentGroup
  {
    hide Resolve;
  }

  /** A dispatched packet leaves the other sink alone, never lowers the current group, and keeps the configuration. */
  lemma StepFrame(t: Track, epoch: U32, p: Packet, env: Env)
    ensures var u := DispatchTrack(t, epoch, p, env).track;
            && u.depth == t.depth
            && (!p.packetType.Repair? ==> u.repair == t.repair)
            && (!p.packetType.Mpu? ==> u.currentGroup == t.currentGroup && u.log == t.log)
            && (t.currentGroup.Some? ==> u.currentGroup.Some? && t.currentGroup.value <= u.currentGroup.value)
  {
    hide FormulaGroup;
    hide Elapsed;
    hide PutFragment;
    var group := FormulaGroup(t, epoch, p.timestamp);
    PutFragmentFrame(EnterGroup(Clocked(t, epoch, p), group), group, p, env);
  }

  lemma StepKeepsRepair(t: Track, epoch: U32, p: Packet, env: Env)
    requires RepairInv(t)
    ensures RepairInv(DispatchTrack(t, epoch, p, env).track)
  {
    hide DispatchMpu;
    StepFrame(t, epoch, p, env);
    var u := DispatchTrack(t, epoch, p, env).track;
    if p.packetType.Mpu? && t.currentGroup.Some? {
      QuotientMonotone(t.currentGroup.value, u.currentGroup.value, t.depth);
    }
  }

  lemma {:induction false} RunKeepsRepair(t: Track, epoch: U32, inputs: seq<Input>)
    requires RepairInv(t)
    ensures RepairInv(Run(t, epoch, inputs))
  {
    hide RepairInv;
    hide DispatchTrack;
    if inputs != [] {
      var n := |inputs| - 1;
      RunKeepsRepair(t, epoch, inputs[..n]);
      StepKeepsRepair(Run(t, epoch, inputs[..n]), epoch, inputs[n].packet, inputs[n].env);
    }
  }

  /** A written repair object is in the group of its source group over the depth. */
  lemma RepairLandsInItsGroup(t: Track, epoch: U32, p: Packet, env: Env)
    requires p.packetType.Repair? && DispatchTrack(t, epoch, p, env).outcome.Written?
    ensures t.currentGroup.Some?
    ensures var u := DispatchTrack(t, epoch, p, env).track;
            && u.repair.Some? && u.repair.value.log != []
            && u.repair.value.log[|u.repair.value.log| - 1] == Wrote(t.currentGroup.value / t.depth, 0, p)
            && u.repair.value.currentGroup == Some(t.currentGroup.value / t.depth)
  {
  }

  // ---------------------------------------------------------------- each payload exactly once

  /** The packets written to a sink, in order. */
  ghost function Payloads(log: seq<Event>): seq<Packet> {
    if log == [] then []
    else
      var last := log[|log| - 1];
      Payloads(log[..|log| - 1]) + if last.Wrote? then [last.packet] else []
  }

  lemma PayloadsAfter(log: seq<Event>, e: Event)
    ensures Payloads(log + [e]) == Payloads(log) + if e.Wrote? then [e.packet] else []
  {
    assert (log + [e])[..|log|] == log;
  }

  lemma PutPayload(t: Track, s: Subgroup, p: Packet, env: Env)
    ensures var step := Put(t, s, p, env);
            Payloads(step.track.log) == Payloads(t.log) + if step.outcome.Written? then [p] else []
  {
    PayloadsAfter(t.log, Wrote(s.group, s.id, p));
  }

  /** A media packet is written once to its track when it is accepted, and not at all otherwise. */
  lemma MediaWrittenOnce(t: Track, epoch: U32, p: Packet, env: Env)
    requires p.packetType.Mpu?
    ensures var step := DispatchTrack(t, epoch, p, env);
            && Payloads(step.track.log) == Payloads(t.log) + (if step.outcome.Written? then [p] else [])
            && step.track.repair == t.repair
            && (step.outcome.StaleDropped? ==> step.track.log == t.log && step.track.currentGroup == t.currentGroup)
            && !step.outcome.Skipped?
  {
    hide Payloads;
    hide FormulaGroup;
    hide Elapsed;
    hide Put;
    hide Resolve;
    StepFrame(t, epoch, p, env);
    if Refusal(t, p).None? {
      var group := FormulaGroup(t, epoch, p.timestamp);
      var u := EnterGroup(Clocked(t, epoch, p), group);
      PutNeverDrops();
      if p.fragmentType == Some(Init) {
        PutInitPayload(u, group, p, env);
      } else if p.fragmentType == Some(Mfu) && Resolve(u.active, p).Resolved? {
        var r := Resolve(u.active, p);
        PutMfuPayload(u.(active := r.active), group, r.identity, p, env);
      }
    }
  }

  lemma PutNeverDrops()
    ensures forall t, s, p, env :: Put(t, s, p, env).outcome.Written? || Put(t, s, p, env).outcome.Failed?
  {
  }

  lemma PutInitPayload(t: Track, group: nat, p: Packet, env: Env)
    ensures var step := PutInit(t, group, p, env);
            Payloads(step.track.log) == Payloads(t.log) + if step.outcome.Written? then [p] else []
  {
    hide Payloads;
    hide Put;
    if t.initGroup.Some? {
      PutPayload(t, t.initGroup.value, p, env);
    } else {
      var e := Created(group, 0, t.priority);
      PayloadsAfter(t.log, e);
      PutPayload(t.(log := t.log + [e], initGroup := Some(Subgroup(group, 0))), Subgroup(group, 0), p, env);
    }
  }

  lemma PutMfuPayload(t: Track, group: nat, identity: Identity, p: Packet, env: Env)
    ensures var step := PutMfu(t, group, identity, p, env);
            Payloads(step.track.log) == Payloads(t.log) + if step.outcome.Written? then [p] else []
  {
    hide Payloads;
    hide Put;
    if identity in t.mfuGroups {
      PutPayload(t, t.mfuGroups[identity], p, env);
    } else {
      var e := Created(group, t.nextSubgroup, t.priority);
      PayloadsAfter(t.log, e);
      var s := Subgroup(group, t.nextSubgroup);
      PutPayload(t.(log := t.log + [e], nextSubgroup := t.nextSubgroup + 1, mfuGroups := t.mfuGroups[identity := s]),
          s, p, env);
    }
  }

  /** A repair packet is written once to the repair track when it is accepted, and not at all otherwise. */
  lemma RepairWrittenOnce(t: Track, epoch: U32, p: Packet, env: Env)
    requires p.packetType.Repair? && t.repair.Some?
    ensures var step := DispatchTrack(t, epoch, p, env);
            && step.track.repair.Some?
            && Payloads(step.track.repair.value.log)
                == Payloads(t.repair.value.log) + (if step.outcome.Written? then [p] else [])
            && step.track.log == t.log
            && (step.outcome.Written? || step.outcome.Failed?)
  {
    hide Payloads;
    if t.currentGroup.Some? {
      var r := t.repair.value;
      var group := t.currentGroup.value / t.depth;
      var e := Created(group, 0, r.priority);
      PayloadsAfter(r.log, e);
      PayloadsAfter(r.log, Wrote(group, 0, p));
      PayloadsAfter(r.log + [e], Wrote(group, 0, p));
    }
  }

  /** The media packets of a run that were accepted. */
  ghost function Accepted(t: Track, epoch: U32, inputs: seq<Input>): seq<Packet> {
    if inputs == [] then []
    else
      var n := |inputs| - 1;
      var step := DispatchTrack(Run(t, epoch, inputs[..n]), epoch, inputs[n].packet, inputs[n].env);
      Accepted(t, epoch, inputs[..n]) + if inputs[n].packet.packetType.Mpu? && step.outcome.Written?
          then [inputs[n].packet] else []
  }

  /** Over every run, what the source track carries is the accepted media packets, each once, in order. */
  lemma {:induction false} RunWritesAcceptedOnce(t: Track, epoch: U32, inputs: seq<Input>)
    ensures Payloads(Run(t, epoch, inputs).log) == Payloads(t.log) + Accepted(t, epoch, inputs)
  {
    hide DispatchTrack;
    hide Payloads;
    if inputs != [] {
      var n := |inputs| - 1;
      var before := Run(t, epoch, inputs[..n]);
      RunWritesAcceptedOnce(t, epoch, inputs[..n]);
      if inputs[n].packet.packetType.Mpu? {
        MediaWrittenOnce(before, epoch, inputs[n].packet, inputs[n].env);
      } else {
        StepFrame(before, epoch, inputs[n].packet, inputs[n].env);
      }
    }
  }

  // ---------------------------------------------------------------- sequence numbers and headers

  predicate HeaderError(outcome: Outcome) {
    outcome.Failed? &&
    (outcome.error.MissingSequence? || outcome.error.MissingFragmentType? || outcome.error.Aggregated?
        || outcome.error.SequenceRegression?)
  }

  /** Input `i` is a media packet that was not turned away for its headers. */
  ghost predicate Heard(t: Track, epoch: U32, inputs: seq<Input>, i: nat)
    requires i < |inputs|
  {
    inputs[i].packet.packetType.Mpu? && !HeaderError(OutcomeAt(t, epoch, inputs, i))
  }

  /** A media packet is turned away for its headers with its track untouched, or becomes the last sequence heard. */
  lemma StepHears(t: Track, epoch: U32, p: Packet, env: Env)
    ensures var step := DispatchTrack(t, epoch, p, env);
            && (HeaderError(step.outcome) ==> step.track == t)
            && (!p.packetType.Mpu? ==> !HeaderError(step.outcome) && step.track.lastSequence == t.lastSequence)
            && (p.packetType.Mpu? ==>
                  (HeaderError(step.outcome) <==>
                   || p.mpuSequence.None? || p.fragmentType.None? || p.aggregation
                   || (t.lastSequence.Some? && p.mpuSequence.value < t.lastSequence.value)))
            && (p.packetType.Mpu? && !HeaderError(step.outcome) ==> step.track.lastSequence == p.mpuSequence)
  {
    hide FormulaGroup;
    hide Elapsed;
    if p.packetType.Mpu? && Refusal(t, p).None? {
      var group := FormulaGroup(t, epoch, p.timestamp);
      PutFragmentHears(EnterGroup(Clocked(t, epoch, p), group), group, p, env);
    }
  }

  lemma PutFragmentHears(t: Track, group: nat, p: Packet, env: Env)
    ensures var step := PutFragment(t, group, p, env);
            !HeaderError(step.outcome) && step.track.lastSequence == t.lastSequence && !step.outcome.StaleDropped?
  {
  }

  /** The last sequence kept is that of the newest packet heard, and no earlier one was higher. */
  lemma {:induction false} RunHears(t: Track, epoch: U32, inputs: seq<Input>)
    requires t.lastSequence.None?
    ensures var last := Run(t, epoch, inputs).lastSequence;
            && (last.Some? <==> exists i :: 0 <= i < |inputs| && Heard(t, epoch, inputs, i))
            && (last.Some? ==> exists i ::
                  0 <= i < |inputs| && Heard(t, epoch, inputs, i) && inputs[i].packet.mpuSequence == last)
            && (forall i :: 0 <= i < |inputs| && Heard(t, epoch, inputs, i) ==>
                  last.Some? && inputs[i].packet.mpuSequence.Some? && inputs[i].packet.mpuSequence.value <= last.value)
  {
    hide DispatchTrack;
    if inputs != [] {
      var n := |inputs| - 1;
      var before := inputs[..n];
      RunHears(t, epoch, before);
      StepHears(Run(t, epoch, before), epoch, inputs[n].packet, inputs[n].env);
      assert forall i :: 0 <= i < n ==> before[..i] == inputs[..i] && before[i] == inputs[i];
      assert forall i :: 0 <= i < n ==> (Heard(t, epoch, inputs, i) <==> Heard(t, epoch, before, i));
      var last, last' := Run(t, epoch, before).lastSequence, Run(t, epoch, inputs).lastSequence;
      if Heard(t, epoch, inputs, n) {
        assert inputs[n].packet.mpuSequence == last';
      } else if last.Some? {
        var i :| 0 <= i < n && Heard(t, epoch, before, i) && before[i].packet.mpuSequence == last;
        assert Heard(t, epoch, inputs, i);
      }
    }
  }

  /**
   * Which media packets are turned away for their headers, with the track left wholly as it was: those
   * without a sequence number or fragment type, the aggregated ones, and those whose sequence number is
   * below that of some media packet heard before.
   */
  lemma TurnedAwayExactly(t: Track, epoch: U32, inputs: seq<Input>, n: nat)
    requires t.lastSequence.None? && n < |inputs| && inputs[n].packet.packetType.Mpu?
    ensures HeaderError(OutcomeAt(t, epoch, inputs, n)) <==>
            || inputs[n].packet.mpuSequence.None? || inputs[n].packet.fragmentType.None? || inputs[n].packet.aggregation
            || exists i :: 0 <= i < n && Heard(t, epoch, inputs, i)
                 && inputs[i].packet.mpuSequence.Some?
                 && inputs[n].packet.mpuSequence.value < inputs[i].packet.mpuSequence.value
    ensures HeaderError(OutcomeAt(t, epoch, inputs, n)) ==> Run(t, epoch, inputs[..n + 1]) == Run(t, epoch, inputs[..n])
  {
    hide DispatchTrack;
    var before, p := inputs[..n], inputs[n].packet;
    RunHears(t, epoch, before);
    StepHears(Run(t, epoch, before), epoch, p, inputs[n].env);
    assert inputs[..n + 1][..n] == before;
    assert forall i :: 0 <= i < n ==> before[..i] == inputs[..i] && before[i] == inputs[i];
    assert forall i :: 0 <= i < n ==> (Heard(t, epoch, inputs, i) <==> Heard(t, epoch, before, i));
    var last := Run(t, epoch, before).lastSequence;
    if last.Some? {
      var i :| 0 <= i < n && Heard(t, epoch, before, i) && before[i].packet.mpuSequence == last;
      assert Heard(t, epoch, inputs, i);
    }
  }

  /** What is on a track: whole-header media packets, one data unit each, metadata or MFUs. */
  ghost predicate Publishable(p: Packet) {
    && p.packetType.Mpu? && p.mpuSequence.Some? && !p.aggregation
    && (p.fragmentType == Some(Init) || p.fragmentType == Some(Mfu))
  }

  ghost predicate SequencesInv(t: Track) {
    var packets := Payloads(t.log);
    && (forall i :: 0 <= i < |packets| ==>
          Publishable(packets[i]) && t.lastSequence.Some? && packets[i].mpuSequence.value <= t.lastSequence.value)
    && (forall i, j :: 0 <= i < j < |packets| ==>
          packets[i].mpuSequence.Some? && packets[j].mpuSequence.Some?
          && packets[i].mpuSequence.value <= packets[j].mpuSequence.value)
  }

  lemma WrittenIsPublishable(t: Track, epoch: U32, p: Packet, env: Env)
    requires p.packetType.Mpu? && DispatchTrack(t, epoch, p, env).outcome.Written?
    ensures Publishable(p)
  {
    hide FormulaGroup;
    hide Elapsed;
  }

  lemma StepKeepsSequences(t: Track, epoch: U32, p: Packet, env: Env)
    requires SequencesInv(t)
    ensures SequencesInv(DispatchTrack(t, epoch, p, env).track)
  {
    hide DispatchTrack;
    hide Payloads;
    var step := DispatchTrack(t, epoch, p, env);
    StepHears(t, epoch, p, env);
    assert Payloads(t.log) + [] == Payloads(t.log);
    if p.packetType.Mpu? {
      MediaWrittenOnce(t, epoch, p, env);
      if step.outcome.Written? {
        WrittenIsPublishable(t, epoch, p, env);
      }
    } else {
      StepFrame(t, epoch, p, env);
    }
  }

  /**
   * Over every run of a fresh track the MPU sequence numbers of the packets on it never decrease, and
   * no aggregated packet, none without its headers and no movie fragment is ever among them.
   */
  lemma {:induction false} RunKeepsSequences(t: Track, epoch: U32, inputs: seq<Input>)
    requires t.log == []
    ensures SequencesInv(Run(t, epoch, inputs))
  {
    hide DispatchTrack;
    if inputs != [] {
      var n := |inputs| - 1;
      RunKeepsSequences(t, epoch, inputs[..n]);
      StepKeepsSequences(Run(t, epoch, inputs[..n]), epoch, inputs[n].packet, inputs[n].env);
    }
  }

  // ---------------------------------------------------------------- stale packets

  /** The group of a packet's time when it came in. */
  ghost function GroupOf(t: Track, epoch: U32, inputs: seq<Input>, i: nat): nat
    requires i < |inputs|
  {
    FormulaGroup(Run(t, epoch, inputs[..i]), epoch, inputs[i].packet.timestamp)
  }

  lemma StepMovesGroup(t: Track, epoch: U32, p: Packet, env: Env)
    ensures var step, group := DispatchTrack(t, epoch, p, env), FormulaGroup(t, epoch, p.timestamp);
            if p.packetType.Mpu? && !HeaderError(step.outcome) then
              && step.track.currentGroup
                  == Some(if t.currentGroup.Some? && group < t.currentGroup.value then t.currentGroup.value else group)
              && (step.outcome.StaleDropped? <==> t.currentGroup.Some? && group < t.currentGroup.value)
            else step.track.currentGroup == t.currentGroup && !step.outcome.StaleDropped?
  {
    hide FormulaGroup;
    hide Elapsed;
    hide PutFragment;
    if p.packetType.Mpu? && Refusal(t, p).None? {
      var group := FormulaGroup(t, epoch, p.timestamp);
      var entered := EnterGroup(Clocked(t, epoch, p), group);
      PutFragmentHears(entered, group, p, env);
      PutFragmentFrame(entered, group, p, env);
    }
  }

  /** The current group is the highest of the groups of the packets heard. */
  lemma {:induction false} RunGroupIsHighest(t: Track, epoch: U32, inputs: seq<Input>)
    requires t.currentGroup.None?
    ensures var current := Run(t, epoch, inputs).currentGroup;
            && (current.Some? ==> exists i ::
                  0 <= i < |inputs| && Heard(t, epoch, inputs, i) && GroupOf(t, epoch, inputs, i) == current.value)
            && (forall i :: 0 <= i < |inputs| && Heard(t, epoch, inputs, i) ==>
                  current.Some? && GroupOf(t, epoch, inputs, i) <= current.value)
  {
    hide DispatchTrack;
    hide FormulaGroup;
    if inputs != [] {
      var n := |inputs| - 1;
      var before := inputs[..n];
      RunGroupIsHighest(t, epoch, before);
      StepMovesGroup(Run(t, epoch, before), epoch, inputs[n].packet, inputs[n].env);
      assert forall i :: 0 <= i < n ==> before[..i] == inputs[..i] && before[i] == inputs[i];
      assert forall i :: 0 <= i < n ==> (Heard(t, epoch, inputs, i) <==> Heard(t, epoch, before, i));
      assert forall i :: 0 <= i < n ==> GroupOf(t, epoch, inputs, i) == GroupOf(t, epoch, before, i);
      var current, current' := Run(t, epoch, before).currentGroup, Run(t, epoch, inputs).currentGroup;
      if current'.Some? && current' != current {
        assert Heard(t, epoch, inputs, n) && GroupOf(t, epoch, inputs, n) == current'.value;
      } else if current.Some? {
        var i :| 0 <= i < n && Heard(t, epoch, before, i) && GroupOf(t, epoch, before, i) == current.value;
        assert Heard(t, epoch, inputs, i) && GroupOf(t, epoch, inputs, i) == current.value;
      }
    }
  }

  /** A packet is dropped as stale exactly when it is heard and some packet heard before was of a later group. */
  lemma StaleExactly(t: Track, epoch: U32, inputs: seq<Input>, n: nat)
    requires t.currentGroup.None? && n < |inputs|
    ensures OutcomeAt(t, epoch, inputs, n).StaleDropped? <==>
            && Heard(t, epoch, inputs, n)
            && exists i :: 0 <= i < n && Heard(t, epoch, inputs, i)
                && GroupOf(t, epoch, inputs, n) < GroupOf(t, epoch, inputs, i)
  {
    hide DispatchTrack;
    hide FormulaGroup;
    var before := inputs[..n];
    RunGroupIsHighest(t, epoch, before);
    StepMovesGroup(Run(t, epoch, before), epoch, inputs[n].packet, inputs[n].env);
    assert forall i :: 0 <= i < n ==> before[..i] == inputs[..i] && before[i] == inputs[i];
    assert forall i :: 0 <= i < n ==> (Heard(t, epoch, inputs, i) <==> Heard(t, epoch, before, i));
    assert forall i :: 0 <= i < n ==> GroupOf(t, epoch, inputs, i) == GroupOf(t, epoch, before, i);
    var current := Run(t, epoch, before).currentGroup;
    if current.Some? {
      var i :| 0 <= i < n && Heard(t, epoch, before, i) && GroupOf(t, epoch, before, i) == current.value;
      assert Heard(t, epoch, inputs, i) && GroupOf(t, epoch, inputs, i) == current.value;
    }
  }

  /**
   * A repair packet is written exactly when there is a source group and a repair track, and the
   * transport does its part.
   */
  lemma RepairWrittenExactly(t: Track, epoch: U32, p: Packet, env: Env)
    requires p.packetType.Repair?
    ensures DispatchTrack(t, epoch, p, env).outcome.Written? <==>
            && t.currentGroup.Some? && t.repair.Some? && env.putOk
            && (env.createOk || t.repair.value.currentGroup == Some(t.currentGroup.value / t.depth))
  {
  }
}
