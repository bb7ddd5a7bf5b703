/** Which packet of a run put what where: whole fragment chains, and the first event of each group. */
module DispatchPlaces {
  import opened Options
  import opened PresentationClock
  import opened DispatchSpec
  import opened DispatchRuns
  import opened DispatchChains

  // ---------------------------------------------------------------- a run by its inputs

  /** The subgroup input `i` was written to, read off the log it left. */
  ghost function WroteAt(t: Track, epoch: U32, inputs: seq<Input>, i: nat): Option<Subgroup>
    requires i < |inputs|
  {
    var before, after := Run(t, epoch, inputs[..i]).log, Run(t, epoch, inputs[..i + 1]).log;
    if |before| < |after| && after[|after| - 1].Wrote?
    then Some(Subgroup(after[|after| - 1].group, after[|after| - 1].subgroup)) else None
  }

  ghost function AdmittedAt(t: Track, epoch: U32, inputs: seq<Input>, i: nat): Option<Piece>
    requires i < |inputs|
  {
    Admitted(Run(t, epoch, inputs[..i]), epoch, inputs[i].packet)
  }

  lemma RunNext(t: Track, epoch: U32, inputs: seq<Input>, i: nat)
    requires i < |inputs|
    ensures Run(t, epoch, inputs[..i + 1])
        == DispatchTrack(Run(t, epoch, inputs[..i]), epoch, inputs[i].packet, inputs[i].env).track
  {
    assert inputs[..i + 1][..i] == inputs[..i];
  }

  lemma {:induction false} RunConcat(t: Track, epoch: U32, a: seq<Input>, b: seq<Input>)
    ensures Run(t, epoch, a + b) == Run(Run(t, epoch, a), epoch, b)
  {
    hide DispatchTrack;
    if b == [] {
      assert a + b == a;
    } else {
      var n := |b| - 1;
      RunConcat(t, epoch, a, b[..n]);
      assert (a + b)[..|a| + n] == a + b[..n];
    }
  }

  // ---------------------------------------------------------------- chains by their inputs

  predicate IsFirst(p: Packet) {
    p.packetType.Mpu? && p.fragmentType == Some(Mfu) && p.indicator == 1 && p.identity.Some?
  }

  predicate IsContinuation(p: Packet) {
    p.packetType.Mpu? && p.fragmentType == Some(Mfu) && (p.indicator == 2 || p.indicator == 3)
  }

  /** Input `i` admitted the first fragment for a timestamp in a group, and nothing before `n` ended or replaced it. */
  ghost predicate StartsFor(t: Track, epoch: U32, inputs: seq<Input>, i: nat, n: nat, group: nat, timestamp: U32)
    requires n <= |inputs|
  {
    && i < n && IsFirst(inputs[i].packet) && inputs[i].packet.timestamp == timestamp
    && AdmittedAt(t, epoch, inputs, i).Some? && AdmittedAt(t, epoch, inputs, i).value.group == group
    && forall j :: i < j < n && inputs[j].packet.timestamp == timestamp && AdmittedAt(t, epoch, inputs, j).Some? ==>
         inputs[j].packet.indicator == 2
  }

  /** Where an entry of the chain table comes from: this packet, or the table before it. */
  lemma StepActive(t: Track, epoch: U32, p: Packet, env: Env, timestamp: U32)
    requires t.currentGroup.None? ==> t.active == map[]
    requires timestamp in DispatchTrack(t, epoch, p, env).track.active
    ensures var u, admitted := DispatchTrack(t, epoch, p, env).track, Admitted(t, epoch, p);
            && u.currentGroup.Some?
            && (|| (IsFirst(p) && p.timestamp == timestamp && p.identity.value == u.active[timestamp].identity
                    && admitted.Some? && admitted.value.group == u.currentGroup.value)
                || (timestamp in t.active && t.active[timestamp].identity == u.active[timestamp].identity
                    && t.currentGroup == u.currentGroup
                    && (admitted.Some? && p.timestamp == timestamp ==> p.indicator == 2)))
  {
    hide FormulaGroup;
    hide Elapsed;
    hide Resolve;
    hide PutMfu;
    hide PutInit;
    if p.packetType.Mpu? && Refusal(t, p).None? {
      var group := FormulaGroup(t, epoch, p.timestamp);
      var entered := EnterGroup(Clocked(t, epoch, p), group);
      PutInitFrame(entered, group, p, env);
      var r := Resolve(entered.active, p);
      if r.Resolved? {
        PutMfuFrame(entered.(active := r.active), group, r.identity, p, env);
        ResolveActive(entered.active, p);
      }
    }
  }

  /** A chain after a fragment was taken is the one it started, or one open before that it did not end. */
  lemma ResolveActive(active: map<U32, ActiveMfu>, p: Packet)
    requires Resolve(active, p).Resolved?
    ensures var r := Resolve(active, p);
            forall timestamp :: timestamp in r.active ==>
              || (p.indicator == 1 && p.identity.Some? && p.timestamp == timestamp
                  && r.active[timestamp].identity == p.identity.value)
              || (timestamp in active && r.active[timestamp].identity == active[timestamp].identity
                  && (p.timestamp == timestamp && p.indicator != 0 ==> p.indicator == 2))
  {
  }

  lemma ActiveNeedsGroup(t: Track, epoch: U32, p: Packet, env: Env)
    requires t.currentGroup.None? ==> t.active == map[]
    ensures var u := DispatchTrack(t, epoch, p, env).track; u.currentGroup.None? ==> u.active == map[]
  {
    hide FormulaGroup;
    hide Elapsed;
  }

  /** Every open chain was started by one input of the run. */
  lemma {:induction false} OpenChainFirst(t: Track, epoch: U32, inputs: seq<Input>, timestamp: U32) returns (i: nat)
    requires t.currentGroup.None? && t.active == map[]
    requires timestamp in Run(t, epoch, inputs).active
    ensures Run(t, epoch, inputs).currentGroup.Some?
    ensures StartsFor(t, epoch, inputs, i, |inputs|, Run(t, epoch, inputs).currentGroup.value, timestamp)
    ensures inputs[i].packet.identity.value == Run(t, epoch, inputs).active[timestamp].identity
  {
    hide DispatchTrack;
    hide Admitted;
    var n := |inputs| - 1;
    var before, last := Run(t, epoch, inputs[..n]), inputs[n];
    GroupBeforeActive(t, epoch, inputs[..n]);
    StepActive(before, epoch, last.packet, last.env, timestamp);
    var admitted := Admitted(before, epoch, last.packet);
    var u := Run(t, epoch, inputs);
    if IsFirst(last.packet) && last.packet.timestamp == timestamp
        && last.packet.identity.value == u.active[timestamp].identity
       && admitted.Some? && admitted.value.group == u.currentGroup.value {
      i := n;
    } else {
      i := OpenChainFirst(t, epoch, inputs[..n], timestamp);
      assert forall j :: 0 <= j < n ==> inputs[..n][..j] == inputs[..j];
    }
  }

  lemma {:induction false} GroupBeforeActive(t: Track, epoch: U32, inputs: seq<Input>)
    requires t.currentGroup.None? && t.active == map[]
    ensures Run(t, epoch, inputs).currentGroup.None? ==> Run(t, epoch, inputs).active == map[]
  {
    hide DispatchTrack;
    if inputs != [] {
      var n := |inputs| - 1;
      GroupBeforeActive(t, epoch, inputs[..n]);
      ActiveNeedsGroup(Run(t, epoch, inputs[..n]), epoch, inputs[n].packet, inputs[n].env);
    }
  }

  /** An admitted fragment is written to its identity's subgroup, or the transport failed it. */
  lemma AdmittedIsWrittenOrFailed(t: Track, epoch: U32, p: Packet, env: Env)
    requires Admitted(t, epoch, p).Some?
    ensures var step := DispatchTrack(t, epoch, p, env);
            && step.track.currentGroup == Some(Admitted(t, epoch, p).value.group)
            && (step.outcome == Written || (step.outcome == Failed(SinkFailed) && !(env.createOk && env.putOk)))
            && (step.outcome != Written ==>
                step.track.log == t.log || (|step.track.log| == |t.log| + 1 && step.track.log[|t.log|].Created?))
            && (step.outcome == Written ==> |t.log| < |step.track.log| && step.track.log[|step.track.log| - 1].Wrote?)
  {
    hide FormulaGroup;
    hide Elapsed;
    hide Resolve;
  }

  /** A written continuation was admitted to a chain open before it, and went to that chain's identity. */
  lemma ContinuationOfTable(t: Track, epoch: U32, p: Packet, env: Env)
    requires IsContinuation(p) && DispatchTrack(t, epoch, p, env).outcome.Written?
    ensures Admitted(t, epoch, p).Some? && p.timestamp in t.active
        && t.currentGroup == Some(Admitted(t, epoch, p).value.group)
    ensures var u, identity := DispatchTrack(t, epoch, p, env).track, t.active[p.timestamp].identity;
            && u.currentGroup == t.currentGroup && identity in u.mfuGroups
            && |t.log| < |u.log|
            && u.log[|u.log| - 1] == Wrote(u.mfuGroups[identity].group, u.mfuGroups[identity].id, p)
  {
    hide FormulaGroup;
    hide Elapsed;
  }

  /**
   * A fragment chain over any run of a fresh track. A written continuation has one first fragment, an
   * earlier input of its timestamp and group that nothing has ended since. The two are in the same
   * subgroup if and only if the first was written at all; if it was not, the transport had failed it.
   */
  lemma ContinuationAndItsFirst(t: Track, epoch: U32, inputs: seq<Input>, n: nat) returns (i: nat)
    requires t.currentGroup.None? && t.active == map[]
    requires n < |inputs| && IsContinuation(inputs[n].packet) && OutcomeAt(t, epoch, inputs, n) == Written
    ensures AdmittedAt(t, epoch, inputs, n).Some?
    ensures StartsFor(t, epoch, inputs, i, n, AdmittedAt(t, epoch, inputs, n).value.group, inputs[n].packet.timestamp)
    ensures WroteAt(t, epoch, inputs, n).Some?
    ensures OutcomeAt(t, epoch, inputs, i) == Written <==> WroteAt(t, epoch, inputs, i) == WroteAt(t, epoch, inputs, n)
    ensures OutcomeAt(t, epoch, inputs, i) != Written ==>
              && OutcomeAt(t, epoch, inputs, i) == Failed(SinkFailed) && WroteAt(t, epoch, inputs, i).None?
              && !(inputs[i].env.createOk && inputs[i].env.putOk)
  {
    hide DispatchTrack;
    hide Admitted;
    var past, p := Run(t, epoch, inputs[..n]), inputs[n].packet;
    RunNext(t, epoch, inputs, n);
    ContinuationOfTable(past, epoch, p, inputs[n].env);
    i := OpenChainFirst(t, epoch, inputs[..n], p.timestamp);
    assert forall j :: 0 <= j < n ==> inputs[..n][..j] == inputs[..j];
    var identity := past.active[p.timestamp].identity;
    RunNext(t, epoch, inputs, i);
    var then', first := Run(t, epoch, inputs[..i]), inputs[i].packet;
    AdmittedIsWrittenOrFailed(then', epoch, first, inputs[i].env);
    if OutcomeAt(t, epoch, inputs, i) == Written {
      MfuLandsInItsSubgroup(then', epoch, first, inputs[i].env);
      SubgroupStays(t, epoch, inputs, i, n, identity);
    }
  }

  lemma SubgroupStays(t: Track, epoch: U32, inputs: seq<Input>, i: nat, n: nat, identity: Identity)
    requires i <= n < |inputs|
    requires var first, last := Run(t, epoch, inputs[..i + 1]), Run(t, epoch, inputs[..n + 1]);
             first.currentGroup.Some? && last.currentGroup == first.currentGroup && identity in first.mfuGroups
    ensures var first, last := Run(t, epoch, inputs[..i + 1]), Run(t, epoch, inputs[..n + 1]);
            identity in last.mfuGroups && last.mfuGroups[identity] == first.mfuGroups[identity]
  {
    hide Run;
    var rest := inputs[i + 1..n + 1];
    assert inputs[..n + 1] == inputs[..i + 1] + rest;
    RunConcat(t, epoch, inputs[..i + 1], rest);
    RunKeepsSubgroups(Run(t, epoch, inputs[..i + 1]), epoch, rest, identity);
  }

  /** Fragments of one chain: those admitted for the timestamp from its first fragment on. */
  ghost predicate InChain(t: Track, epoch: U32, inputs: seq<Input>, j: nat, timestamp: U32)
    requires j < |inputs|
  {
    AdmittedAt(t, epoch, inputs, j).Some? && inputs[j].packet.timestamp == timestamp
  }

  /** The first fragment of a chain is the only one. */
  lemma FirstIsUnique(
      t: Track, epoch: U32, inputs: seq<Input>, a: nat, b: nat, m: nat, n: nat, group: nat, other: nat, timestamp: U32)
    requires a < m <= n <= |inputs| && StartsFor(t, epoch, inputs, a, n, group, timestamp)
    requires StartsFor(t, epoch, inputs, b, m, other, timestamp)
    ensures a == b
  {
  }

  /**
   * As the publisher's loop has it, which ends at the first error: with no failure, a whole chain lies
   * in one subgroup.
   */
  lemma WholeChainInOneSubgroup(t: Track, epoch: U32, inputs: seq<Input>, n: nat) returns (i: nat)
    requires t.currentGroup.None? && t.active == map[]
    requires n < |inputs| && IsContinuation(inputs[n].packet) && OutcomeAt(t, epoch, inputs, n) == Written
    requires forall j :: 0 <= j < n ==> !OutcomeAt(t, epoch, inputs, j).Failed?
    ensures AdmittedAt(t, epoch, inputs, n).Some?
    ensures StartsFor(t, epoch, inputs, i, n, AdmittedAt(t, epoch, inputs, n).value.group, inputs[n].packet.timestamp)
    ensures WroteAt(t, epoch, inputs, n).Some?
    ensures forall j :: i <= j <= n && InChain(t, epoch, inputs, j, inputs[n].packet.timestamp) ==>
              WroteAt(t, epoch, inputs, j) == WroteAt(t, epoch, inputs, n)
  {
    hide WroteAt;
    hide OutcomeAt;
    hide Admitted;
    i := ContinuationAndItsFirst(t, epoch, inputs, n);
    var timestamp := inputs[n].packet.timestamp;
    forall j | i < j < n && InChain(t, epoch, inputs, j, timestamp)
      ensures WroteAt(t, epoch, inputs, j) == WroteAt(t, epoch, inputs, n)
    {
      MiddleIsWritten(t, epoch, inputs, j);
      var first := ContinuationAndItsFirst(t, epoch, inputs, j);
      FirstIsUnique(t, epoch, inputs, i, first, j, n, AdmittedAt(t, epoch, inputs, n).value.group,
                    AdmittedAt(t, epoch, inputs, j).value.group, timestamp);
    }
  }

  lemma MiddleIsWritten(t: Track, epoch: U32, inputs: seq<Input>, j: nat)
    requires j < |inputs| && AdmittedAt(t, epoch, inputs, j).Some? && inputs[j].packet.indicator == 2
    requires !OutcomeAt(t, epoch, inputs, j).Failed?
    ensures IsContinuation(inputs[j].packet) && OutcomeAt(t, epoch, inputs, j) == Written
  {
    hide DispatchTrack;
    AdmittedIsWrittenOrFailed(Run(t, epoch, inputs[..j]), epoch, inputs[j].packet, inputs[j].env);
  }

  // ---------------------------------------------------------------- metadata first?

  /** A track no packet has touched. */
  ghost predicate Untouched(t: Track) {
    && SourceInv(t) && t.currentGroup.None? && t.lastSequence.None? && t.highest.None?
  }

  /** An MFU as the very first packet is not refused: it opens subgroup 1 of a group without metadata. */
  lemma MfuFirstIsAccepted(t: Track, epoch: U32, p: Packet)
    requires Untouched(t) && p.packetType.Mpu? && p.fragmentType == Some(Mfu) && p.mpuSequence.Some? && !p.aggregation
    requires p.indicator == 0 && p.identity.Some?
    ensures var step, group := DispatchTrack(t, epoch, p, Env(true, true)), FormulaGroup(t, epoch, p.timestamp);
            && step.outcome == Written && step.track.initGroup.None?
            && step.track.log == [Created(group, 1, t.priority)] + [Wrote(group, 1, p)]
  {
    hide FormulaGroup;
    hide Elapsed;
    hide SinkInv;
  }

  /**
   * Nor is it refused anywhere else: on any track in any state, a whole MFU as the first packet of a new
   * MPU is written to its identity's subgroup, whether or not that MPU's metadata was ever seen.
   */
  lemma NewMpuMayStartWithMfu(t: Track, epoch: U32, p: Packet)
    requires p.packetType.Mpu? && p.fragmentType == Some(Mfu) && p.mpuSequence.Some? && !p.aggregation
    requires p.indicator == 0 && p.identity.Some?
    requires t.lastSequence.None? || t.lastSequence.value < p.mpuSequence.value
    requires !Stale(t, FormulaGroup(t, epoch, p.timestamp))
    ensures var step := DispatchTrack(t, epoch, p, Env(true, true));
            && step.outcome == Written
            && step.track.initGroup == EnterGroup(t, FormulaGroup(t, epoch, p.timestamp)).initGroup
            && p.identity.value in step.track.mfuGroups
            && Payloads(step.track.log) == Payloads(t.log) + [p]
  {
    hide FormulaGroup;
    hide Elapsed;
    hide Payloads;
    MediaWrittenOnce(t, epoch, p, Env(true, true));
  }

  /** Position `k` is the first event of its group. */
  ghost predicate FirstOfGroup(log: seq<Event>, k: nat) {
    k < |log| && forall j :: 0 <= j < k ==> log[j].group != log[k].group
  }

  /** Every group of a track starts with its metadata's subgroup. */
  ghost predicate MetadataFirst(log: seq<Event>) {
    forall k :: 0 <= k < |log| && FirstOfGroup(log, k) ==> log[k].Created? && log[k].subgroup == 0
  }

  /**
   * Told before the call: this packet will be the first to open anything in its group. It is a media
   * packet that passes the header checks and is not stale, its group has no event yet, the transport
   * opens subgroups, and it is metadata or an MFU fragment that has its place.
   */
  ghost predicate WillOpenGroup(t: Track, epoch: U32, p: Packet, env: Env) {
    var group := FormulaGroup(t, epoch, p.timestamp);
    && p.packetType.Mpu? && Refusal(t, p).None? && !Stale(t, group) && env.createOk
    && (forall j :: 0 <= j < |t.log| ==> t.log[j].group != group)
    && (p.fragmentType == Some(Init)
        || (p.fragmentType == Some(Mfu) && Resolve(EnterGroup(Clocked(t, epoch, p), group).active, p).Resolved?))
  }

  ghost predicate OpensGroup(t: Track, epoch: U32, inputs: seq<Input>, i: nat)
    requires i < |inputs|
  {
    WillOpenGroup(Run(t, epoch, inputs[..i]), epoch, inputs[i].packet, inputs[i].env)
  }

  /** What one packet adds to the log, in the words of the tables before it. */
  lemma StepGains(t: Track, epoch: U32, p: Packet, env: Env)
    requires SourceInv(t)
    ensures var u := DispatchTrack(t, epoch, p, env).track;
            && t.log <= u.log
            && (|t.log| < |u.log| ==>
                  && p.packetType.Mpu? && u.currentGroup.Some?
                  && (p.fragmentType == Some(Init) || p.fragmentType == Some(Mfu))
                  && forall k :: |t.log| <= k < |u.log| ==> u.log[k].group == u.currentGroup.value)
  {
    hide FormulaGroup;
    hide Elapsed;
    hide Resolve;
    hide SourceInv;
    hide PutInit;
    hide PutMfu;
    if p.packetType.Mpu? && Refusal(t, p).None? {
      var group := FormulaGroup(t, epoch, p.timestamp);
      var clocked := Clocked(t, epoch, p);
      if !Stale(t, group) {
        SourceInvFrame(t, clocked);
        EnterGroupKeeps(clocked, group);
        var entered := EnterGroup(clocked, group);
        PutInitGains(entered, group, p, env);
        PutFragmentFrame(entered, group, p, env);
        var r := Resolve(entered.active, p);
        if r.Resolved? {
          SourceInvFrame(entered, entered.(active := r.active));
          PutMfuGains(entered.(active := r.active), group, r.identity, p, env);
        }
      }
    }
  }

  ghost predicate Gains(before: seq<Event>, after: seq<Event>, group: nat) {
    before <= after && forall k :: |before| <= k < |after| ==> after[k].group == group
  }

  lemma PutInitGains(t: Track, group: nat, p: Packet, env: Env)
    requires SourceInv(t) && t.currentGroup == Some(group)
    ensures Gains(t.log, PutInit(t, group, p, env).track.log, group)
  {
    hide SinkInv;
  }

  lemma PutMfuGains(t: Track, group: nat, identity: Identity, p: Packet, env: Env)
    requires SourceInv(t) && t.currentGroup == Some(group)
    ensures Gains(t.log, PutMfu(t, group, identity, p, env).track.log, group)
  {
    hide SinkInv;
  }

  lemma {:induction false} EmptyGroupHasNoOpens(log: seq<Event>, group: nat)
    requires forall j :: 0 <= j < |log| ==> log[j].group != group
    ensures MfuOpens(log, group) == [] && !Opened(log, group, 0)
  {
    if log != [] {
      EmptyGroupHasNoOpens(log[..|log| - 1], group);
    }
  }

  /** In a group nothing was opened in, a packet opens subgroup 0 or 1 by its kind before it writes. */
  lemma FirstOpens(t: Track, group: nat, p: Packet, env: Env)
    requires SourceInv(t) && t.currentGroup == Some(group) && forall j :: 0 <= j < |t.log| ==> t.log[j].group != group
    requires |t.log| < |PutFragment(t, group, p, env).track.log|
    ensures PutFragment(t, group, p, env).track.log[|t.log|]
        == Created(group, if p.fragmentType == Some(Init) then 0 else 1, t.priority)
    ensures p.fragmentType == Some(Init) || p.fragmentType == Some(Mfu)
  {
    hide SinkInv;
    hide Resolve;
    EmptyGroupHasNoOpens(t.log, group);
    assert t.initGroup.None? && t.mfuGroups == map[] && t.nextSubgroup == 1;
  }

  /** An input that opens a group opens subgroup 0 exactly when it is metadata, and subgroup 1 otherwise. */
  lemma OpeningTellsKind(t: Track, epoch: U32, p: Packet, env: Env)
    requires SourceInv(t) && FirstOfGroup(DispatchTrack(t, epoch, p, env).track.log, |t.log|)
    ensures var e := DispatchTrack(t, epoch, p, env).track.log[|t.log|];
            && e.Created? && (e.subgroup == 0 <==> p.fragmentType == Some(Init))
            && (e.subgroup != 0 ==> e.subgroup == 1 && p.fragmentType == Some(Mfu))
  {
    hide FormulaGroup;
    hide Elapsed;
    hide SourceInv;
    hide PutFragment;
    StepGains(t, epoch, p, env);
    var group := FormulaGroup(t, epoch, p.timestamp);
    var clocked := Clocked(t, epoch, p);
    var entered := EnterGroup(clocked, group);
    SourceInvFrame(t, clocked);
    EnterGroupKeeps(clocked, group);
    var u := DispatchTrack(t, epoch, p, env).track;
    PutFragmentFrame(entered, group, p, env);
    forall j | 0 <= j < |entered.log|
      ensures entered.log[j].group != group
    {
      assert t.log[j] == u.log[j];
    }
    FirstOpens(entered, group, p, env);
  }

  /** Where nothing is open yet, a packet with its place opens a subgroup as soon as the transport lets it. */
  lemma UnopenedOpens(t: Track, group: nat, p: Packet, env: Env)
    requires SourceInv(t) && t.currentGroup == Some(group) && forall j :: 0 <= j < |t.log| ==> t.log[j].group != group
    ensures |t.log| < |PutFragment(t, group, p, env).track.log| <==>
            env.createOk && (p.fragmentType == Some(Init)
                || (p.fragmentType == Some(Mfu) && Resolve(t.active, p).Resolved?))
  {
    hide SinkInv;
    hide Resolve;
    EmptyGroupHasNoOpens(t.log, group);
    assert t.initGroup.None? && t.mfuGroups == map[];
  }

  /** The packets told before the call are exactly those whose first event is the first of its group. */
  lemma WillOpenGroupExactly(t: Track, epoch: U32, p: Packet, env: Env)
    requires SourceInv(t)
    ensures FirstOfGroup(DispatchTrack(t, epoch, p, env).track.log, |t.log|) <==> WillOpenGroup(t, epoch, p, env)
  {
    hide FormulaGroup;
    hide Elapsed;
    hide SourceInv;
    hide PutFragment;
    hide Resolve;
    StepGains(t, epoch, p, env);
    var u := DispatchTrack(t, epoch, p, env).track;
    if p.packetType.Mpu? && Refusal(t, p).None? && !Stale(t, FormulaGroup(t, epoch, p.timestamp)) {
      var group := FormulaGroup(t, epoch, p.timestamp);
      var clocked := Clocked(t, epoch, p);
      var entered := EnterGroup(clocked, group);
      SourceInvFrame(t, clocked);
      EnterGroupKeeps(clocked, group);
      PutFragmentFrame(entered, group, p, env);
      assert forall j :: 0 <= j < |t.log| ==> u.log[j] == t.log[j];
      if forall j :: 0 <= j < |t.log| ==> t.log[j].group != group {
        UnopenedOpens(entered, group, p, env);
      }
    }
  }

  lemma {:induction false} LogOnlyGrows(t: Track, epoch: U32, inputs: seq<Input>, i: nat)
    requires SourceInv(t) && i <= |inputs|
    ensures Run(t, epoch, inputs[..i]).log <= Run(t, epoch, inputs).log
  {
    hide DispatchTrack;
    hide SourceInv;
    if i < |inputs| {
      var n := |inputs| - 1;
      LogOnlyGrows(t, epoch, inputs[..n], i);
      assert inputs[..n][..i] == inputs[..i];
      RunKeepsSource(t, epoch, inputs[..n]);
      StepGains(Run(t, epoch, inputs[..n]), epoch, inputs[n].packet, inputs[n].env);
    } else {
      assert inputs[..i] == inputs;
    }
  }

  /** The first event of a group is the first event of the input that opened the group. */
  lemma {:induction false} FirstEventHasInput(t: Track, epoch: U32, inputs: seq<Input>, k: nat) returns (i: nat)
    requires SourceInv(t) && t.log == [] && FirstOfGroup(Run(t, epoch, inputs).log, k)
    ensures i < |inputs| && OpensGroup(t, epoch, inputs, i) && |Run(t, epoch, inputs[..i]).log| == k
  {
    hide DispatchTrack;
    hide SourceInv;
    var n := |inputs| - 1;
    var before, after := Run(t, epoch, inputs[..n]), Run(t, epoch, inputs);
    RunKeepsSource(t, epoch, inputs[..n]);
    StepGains(before, epoch, inputs[n].packet, inputs[n].env);
    assert inputs[..n + 1] == inputs;
    if k < |before.log| {
      i := FirstEventHasInput(t, epoch, inputs[..n], k);
      assert inputs[..n][..i] == inputs[..i] && inputs[..n][..i + 1] == inputs[..i + 1];
    } else {
      i := n;
      assert after.log[|before.log|].group == after.log[k].group;
      WillOpenGroupExactly(before, epoch, inputs[n].packet, inputs[n].env);
    }
  }

  /**
   * The exact condition for metadata to come first. Over any run of a fresh track, every group starts
   * with subgroup 0 if and only if every packet about to be the first to open anything in its group is
   * metadata. Dispatch never checks that; it is left to whoever sends the packets.
   */
  lemma MetadataFirstExactly(t: Track, epoch: U32, inputs: seq<Input>)
    requires SourceInv(t) && t.log == []
    ensures MetadataFirst(Run(t, epoch, inputs).log) <==>
            forall i :: 0 <= i < |inputs| && OpensGroup(t, epoch, inputs, i) ==>
                inputs[i].packet.fragmentType == Some(Init)
  {
    hide DispatchTrack;
    hide SourceInv;
    var log := Run(t, epoch, inputs).log;
    forall i | 0 <= i < |inputs| && OpensGroup(t, epoch, inputs, i)
      ensures FirstOfGroup(log, |Run(t, epoch, inputs[..i]).log|)
      ensures var e := log[|Run(t, epoch, inputs[..i]).log|];
              e.Created? && (e.subgroup == 0 <==> inputs[i].packet.fragmentType == Some(Init))
    {
      RunNext(t, epoch, inputs, i);
      RunKeepsSource(t, epoch, inputs[..i]);
      WillOpenGroupExactly(Run(t, epoch, inputs[..i]), epoch, inputs[i].packet, inputs[i].env);
      OpeningTellsKind(Run(t, epoch, inputs[..i]), epoch, inputs[i].packet, inputs[i].env);
      LogOnlyGrows(t, epoch, inputs, i + 1);
    }
    forall k | 0 <= k < |log| && FirstOfGroup(log, k)
      ensures exists i :: 0 <= i < |inputs| && OpensGroup(t, epoch, inputs, i) && |Run(t, epoch, inputs[..i]).log| == k
    {
      var i := FirstEventHasInput(t, epoch, inputs, k);
    }
  }
}
