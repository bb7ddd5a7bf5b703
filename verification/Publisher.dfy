/** The publisher's tracks as objects, changed in place packet by packet. */
module Publishing {
  import opened Options
  import opened PresentationClock
  import opened DispatchSpec
  import opened DispatchRuns
  import opened DispatchChains

  /** The presentation epoch all tracks of a publisher share. */
  class SharedEpoch {
    var value: Option<U32>

    constructor ()
      ensures value == None
    {
      value := None;
    }
  }

  /** Whether an MFU fragment has a place, and whose. */
  datatype Joining = Joins(identity: Identity) | StaysOut(error: DispatchError)

  class TrackState {
    const priority: U8
    const timescale: U32
    const duration: Positive
    const depth: Positive
    const epoch: SharedEpoch
    var log: seq<Event>
    var currentGroup: Option<nat>
    var lastSequence: Option<U32>
    var initGroup: Option<Subgroup>
    var mfuGroups: map<Identity, Subgroup>
    var active: map<U32, ActiveMfu>
    var nextSubgroup: nat
    var highest: Option<int>
    var repair: Option<RepairSink>
    /** The MFU fragments admitted so far. */
    ghost var history: seq<Piece>

    constructor (
        priority: U8, timescale: U32, duration: Positive, depth: Positive, epoch: SharedEpoch,
        repairPriority: Option<U8>)
      ensures Value() == NewTrack(priority, timescale, duration, depth, repairPriority)
      ensures Valid() && history == [] && this.epoch == epoch
    {
      this.priority, this.timescale, this.duration, this.depth, this.epoch :=
          priority, timescale, duration, depth, epoch;
      log, currentGroup, lastSequence, initGroup, highest := [], None, None, None, None;
      mfuGroups, active, nextSubgroup := map[], map[], 1;
      repair := if repairPriority.Some? then Some(RepairSink(repairPriority.value, None, [])) else None;
      history := [];
      new;
      NewTrackInv(priority, timescale, duration, depth, repairPriority);
    }

    ghost function Value(): Track
      reads this
    {
      Track(priority, timescale, duration, depth, log, currentGroup, lastSequence, initGroup, mfuGroups, active,
          nextSubgroup, highest, repair)
    }

    /** Subgroups, repair groups and fragment chains are in order. */
    ghost predicate Valid()
      reads this
    {
      SourceInv(Value()) && RepairInv(Value()) && ChainsInv(Value(), history)
    }

    /** The MoQ group of a timestamp; sets the shared epoch and advances this track's clock. */
    method FormulaGroupId(timestamp: U32) returns (group: nat)
      requires Valid()
      modifies this`highest, epoch
      ensures Valid()
      ensures epoch.value == Some(Epoch(old(epoch.value), timestamp))
      ensures group == FormulaGroup(old(Value()), epoch.value.value, timestamp)
      ensures highest == Highest(old(highest), Elapsed(old(Value()), epoch.value.value, timestamp))
    {
      hide SourceInv;
      hide RepairInv;
      hide ChainsInv;
      hide Unwrap;
      ghost var before := Value();
      if epoch.value.None? {
        epoch.value := Some(timestamp);
      }
      var elapsed := Unwrap(highest, WrappingSub(timestamp, epoch.value.value));
      highest := Highest(highest, elapsed);
      group := GroupIdForTicks(PresentationTicks(elapsed, timescale), duration);
      ClockFrame(before, Value(), history);
    }

    /** A new group starts with empty per-group tables. */
    method AdvanceToGroup(group: nat)
      requires Valid() && !Stale(Value(), group) && currentGroup != Some(group)
      modifies this
      ensures Valid() && Value() == EnterGroup(old(Value()), group) && history == old(history)
    {
      hide SourceInv;
      hide RepairInv;
      hide ChainsInv;
      EnterGroupKeepsAll(Value(), group, history);
      currentGroup := Some(group);
      initGroup := None;
      mfuGroups := map[];
      active := map[];
      nextSubgroup := 1;
    }

    /**
     * Find the identity of an MFU fragment and move its chain on. A fragment is taken exactly when it
     * is whole and names its identity, or fits the history of its group: a first one where no chain is
     * open for its timestamp, a later one that counts on from the chain that is. A refused fragment
     * leaves everything as it was.
     */
    method FollowChain(group: nat, p: Packet) returns (r: Joining)
      requires Valid() && currentGroup == Some(group)
      modifies this`active, this`history
      ensures Valid()
      ensures r.Joins? <==>
          (p.indicator == 0 && p.identity.Some?) || (p.indicator != 0 && Continues(old(history), PieceOf(group, p)))
      ensures r.Joins? ==> Some(r.identity) == IdentityOf(old(history), group, p)
      ensures history == old(history) + if r.Joins? && p.indicator != 0 then [PieceOf(group, p)] else []
      ensures Resolve(old(active), p) == (if r.Joins? then Resolved(r.identity, active) else Refused(r.error))
      ensures r.StaysOut? ==> active == old(active)
    {
      hide SourceInv;
      hide RepairInv;
      hide ChainsInv;
      hide Continues;
      hide IdentityOf;
      ghost var before := Value();
      ResolveExactly(before, history, group, p);
      if p.indicator == 0 && p.identity.Some? {
        return Joins(p.identity.value);
      }
      if p.indicator == 1 && p.identity.Some? {
        if p.timestamp in active {
          return StaysOut(OverlappingMfus);
        }
        active := active[p.timestamp := ActiveMfu(p.identity.value, p.counter)];
        r := Joins(p.identity.value);
      } else if (p.indicator == 2 || p.indicator == 3) && p.identity.None? {
        if p.timestamp !in active {
          return StaysOut(NoActiveMfu);
        }
        var mfu := active[p.timestamp];
        var expected := if mfu.counter == 255 then 0 else mfu.counter + 1;
        if p.counter != expected {
          return StaysOut(CounterGap);
        }
        r := Joins(mfu.identity);
        active := active[p.timestamp := mfu.(counter := p.counter)];
        if p.indicator == 3 {
          active := active - {p.timestamp};
          assert active == old(active) - {p.timestamp};
        }
      } else {
        return StaysOut(InconsistentIndicator);
      }
      history := history + [PieceOf(group, p)];
      ActiveFrame(before, Value());
    }

    /** Open a subgroup in the current group, if the transport lets us. */
    method Open(group: nat, id: nat, env: Env) returns (ok: bool)
      modifies this`log
      ensures ok == env.createOk
      ensures log == if ok then old(log) + [Created(group, id, priority)] else old(log)
    {
      ok := env.createOk;
      if ok {
        log := log + [Created(group, id, priority)];
      }
    }

    /** Write to an open subgroup, if the transport lets us. */
    method PutObject(s: Subgroup, p: Packet, env: Env) returns (outcome: Outcome)
      modifies this`log
      ensures outcome == if env.putOk then Written else Failed(SinkFailed)
      ensures log == if env.putOk then old(log) + [Wrote(s.group, s.id, p)] else old(log)
    {
      if !env.putOk {
        return Failed(SinkFailed);
      }
      log := log + [Wrote(s.group, s.id, p)];
      outcome := Written;
    }

    method PutMetadata(group: nat, p: Packet, env: Env) returns (outcome: Outcome)
      modifies this`log, this`initGroup
      ensures Step(Value(), outcome) == PutInit(old(Value()), group, p, env)
    {
      if initGroup.None? {
        var ok := Open(group, 0, env);
        if !ok {
          return Failed(SinkFailed);
        }
        initGroup := Some(Subgroup(group, 0));
      }
      outcome := PutObject(initGroup.value, p, env);
    }

    method PutFragmentOf(identity: Identity, group: nat, p: Packet, env: Env) returns (outcome: Outcome)
      modifies this`log, this`nextSubgroup, this`mfuGroups
      ensures Step(Value(), outcome) == PutMfu(old(Value()), group, identity, p, env)
    {
      if identity !in mfuGroups {
        var id := nextSubgroup;
        var ok := Open(group, id, env);
        if !ok {
          return Failed(SinkFailed);
        }
        nextSubgroup := id + 1;
        mfuGroups := mfuGroups[identity := Subgroup(group, id)];
      }
      outcome := PutObject(mfuGroups[identity], p, env);
    }

    /**
     * Write a packet of the current group. Written, it is the last thing on the track: metadata in
     * subgroup 0, an MFU in the subgroup of its identity or of the chain it continues. Otherwise no
     * payload is added, and a packet refused for its headers leaves the whole track as it was.
     */
    method PutPacket(group: nat, p: Packet, env: Env) returns (outcome: Outcome)
      requires Valid() && currentGroup == Some(group) && p.fragmentType.Some?
      modifies this
      ensures Valid() && Lands(group, p, old(history), Value(), outcome)
      ensures Payloads(log) == old(Payloads(log)) + if outcome.Written? then [p] else []
      ensures outcome.Failed? && outcome.error != SinkFailed ==> Value() == old(Value()) && history == old(history)
      ensures Step(Value(), outcome) == PutFragment(old(Value()), group, p, env)
    {
      hide SourceInv;
      hide RepairInv;
      hide ChainsInv;
      hide Payloads;
      hide Lands;
      hide Resolve;
      hide PutInit;
      hide PutMfu;
      ghost var before, past := Value(), history;
      PutFragmentMeans(before, past, group, p, env);
      assert past + [] == past;
      match p.fragmentType.value {
        case Init =>
          outcome := PutMetadata(group, p, env);
        case Mfu =>
          var r := FollowChain(group, p);
          if r.StaysOut? {
            return Failed(r.error);
          }
          assert Value() == before.(active := active);
          outcome := PutFragmentOf(r.identity, group, p, env);
        case Fragment =>
          outcome := Failed(MovieFragment);
      }
    }

    /**
     * A media packet: header checks, clock, stale drop, change of group, then the write. Its payload is
     * on the track once if it was written and not at all otherwise.
     */
    method DispatchMpuPacket(p: Packet, env: Env) returns (outcome: Outcome)
      requires Valid()
      modifies this, epoch
      ensures Valid()
      ensures Step(Value(), outcome) == DispatchMpu(old(Value()), Epoch(old(epoch.value), p.timestamp), p, env)
      ensures epoch.value == if Refusal(old(Value()), p).None? then Some(Epoch(old(epoch.value), p.timestamp))
          else old(epoch.value)
      ensures Payloads(log) == old(Payloads(log)) + if outcome.Written? then [p] else []
      ensures repair == old(repair)
    {
      hide SourceInv;
      hide RepairInv;
      hide ChainsInv;
      hide Payloads;
      hide Lands;
      hide FormulaGroup;
      hide Elapsed;
      hide PutFragment;
      ghost var before := Value();
      assert Payloads(log) + [] == Payloads(log);
      if p.mpuSequence.None? {
        return Failed(MissingSequence);
      }
      if p.fragmentType.None? {
        return Failed(MissingFragmentType);
      }
      if p.aggregation {
        return Failed(Aggregated);
      }
      if lastSequence.Some? && p.mpuSequence.value < lastSequence.value {
        return Failed(SequenceRegression);
      }
      lastSequence := p.mpuSequence;
      ClockFrame(before, Value(), history);
      var group := FormulaGroupId(p.timestamp);
      SequenceAlone(before, p.mpuSequence, epoch.value.value, p.timestamp);
      if currentGroup.Some? && group < currentGroup.value {
        return StaleDropped;
      }
      if currentGroup != Some(group) {
        AdvanceToGroup(group);
      }
      PutFragmentFrame(Value(), group, p, env);
      outcome := PutPacket(group, p, env);
    }

    /**
     * A repair packet goes to the repair track's group for the current source group, opened first where
     * it is not the open one. Nothing else of the track changes.
     */
    method DispatchRepairPacket(p: Packet, env: Env) returns (outcome: Outcome)
      requires Valid()
      modifies this`repair
      ensures Valid()
      ensures Step(Value(), outcome) == DispatchRepair(old(Value()), p, env)
      ensures outcome.Written? ==>
                && currentGroup.Some? && repair.Some? && repair.value.log != []
                && repair.value.log[|repair.value.log| - 1] == Wrote(currentGroup.value / depth, 0, p)
      ensures outcome.Failed? ==>
                (repair.Some? <==> old(repair).Some?)
                    && (repair.Some? ==> Payloads(repair.value.log) == Payloads(old(repair).value.log))
    {
      hide SourceInv;
      hide ChainsInv;
      hide RepairInv;
      ghost var before := Value();
      RepairMeans(before, history, p, env);
      if currentGroup.None? {
        return Failed(RepairBeforeSource);
      }
      if repair.None? {
        return Failed(NoRepairTrack);
      }
      var group := currentGroup.value / depth;
      var sink := repair.value;
      if sink.currentGroup != Some(group) {
        if !env.createOk {
          return Failed(SinkFailed);
        }
        sink := sink.(log := sink.log + [Created(group, 0, sink.priority)], currentGroup := Some(group));
      }
      if env.putOk {
        sink := sink.(log := sink.log + [Wrote(group, 0, p)]);
      }
      repair := Some(sink);
      outcome := if env.putOk then Written else Failed(SinkFailed);
    }
  }

  class Publisher {
    const epoch: SharedEpoch
    const tracks: map<nat, TrackState>

    /** Every packet id has a track state of its own; all of them share the epoch. */
    ghost predicate Valid()
      reads this, tracks.Values
    {
      && (forall id :: id in tracks ==> tracks[id].epoch == epoch && tracks[id].Valid())
      && (forall a, b :: a in tracks && b in tracks && a != b ==> tracks[a] != tracks[b])
    }

    ghost function View(): Publication
      reads this, epoch, tracks.Values
    {
      Publication(map id | id in tracks :: tracks[id].Value(), epoch.value)
    }

    constructor (epoch: SharedEpoch, tracks: map<nat, TrackState>)
      requires forall id :: id in tracks ==> tracks[id].epoch == epoch && tracks[id].Valid()
      requires forall a, b :: a in tracks && b in tracks && a != b ==> tracks[a] != tracks[b]
      ensures Valid() && this.epoch == epoch && this.tracks == tracks
    {
      this.epoch, this.tracks := epoch, tracks;
    }

    /** Dispatch one packet to its track; every other track is left alone. */
    method Dispatch(packetId: nat, p: Packet, env: Env) returns (outcome: Outcome)
      requires Valid()
      modifies epoch, if packetId in tracks then {tracks[packetId]} else {}
      ensures Valid()
      ensures View() == PublishOne(old(View()), Arrival(packetId, p, env))
      ensures outcome == if packetId in tracks
                         then DispatchTrack(old(tracks[packetId].Value()), Epoch(old(epoch.value), p.timestamp), p,
                             env).outcome
                         else Failed(UnknownPacketId)
    {
      hide DispatchMpu;
      hide DispatchRepair;
      hide Refusal;
      hide SourceInv;
      hide RepairInv;
      hide ChainsInv;
      if packetId !in tracks {
        return Failed(UnknownPacketId);
      }
      ghost var before := View();
      var track := tracks[packetId];
      match p.packetType {
        case Mpu => outcome := track.DispatchMpuPacket(p, env);
        case Repair => outcome := track.DispatchRepairPacket(p, env);
        case _ => outcome := Skipped;
      }
      assert View().tracks == before.tracks[packetId := track.Value()];
    }
  }

  // ---------------------------------------------------------------- what the methods rest on

  function PieceOf(group: nat, p: Packet): Piece {
    Piece(group, p.timestamp, p.indicator, p.counter, p.identity)
  }

  /** The invariants do not look at the clock or the last sequence number. */
  lemma ClockFrame(t: Track, u: Track, history: seq<Piece>)
    requires SourceInv(t) && RepairInv(t) && ChainsInv(t, history)
    requires u == t.(highest := u.highest, lastSequence := u.lastSequence)
    ensures SourceInv(u) && RepairInv(u) && ChainsInv(u, history)
  {
    hide SourceInv;
    hide RepairInv;
    SourceInvFrame(t, u);
    RepairFrame(t, u);
  }

  lemma EnterGroupKeepsAll(t: Track, group: nat, history: seq<Piece>)
    requires SourceInv(t) && RepairInv(t) && ChainsInv(t, history) && !Stale(t, group)
    ensures var u := EnterGroup(t, group);
            SourceInv(u) && RepairInv(u) && ChainsInv(u, history) && u.currentGroup == Some(group)
  {
    hide SourceInv;
    hide ChainsInv;
    EnterGroupKeeps(t, group);
    EnterGroupKeepsChains(t, history, group);
    if t.currentGroup.Some? {
      QuotientMonotone(t.currentGroup.value, group, t.depth);
    }
  }

  lemma ActiveFrame(t: Track, u: Track)
    requires SourceInv(t) && RepairInv(t) && t.currentGroup.Some? && u == t.(active := u.active)
    ensures SourceInv(u) && RepairInv(u)
  {
    hide SourceInv;
    hide RepairInv;
    SourceInvFrame(t, u);
    RepairFrame(t, u);
  }

  /** The chain rules take exactly the fragments that fit the history, and give them the chain's identity. */
  lemma ResolveExactly(t: Track, history: seq<Piece>, group: nat, p: Packet)
    requires ChainsInv(t, history) && t.currentGroup == Some(group)
    ensures var r, f := Resolve(t.active, p), PieceOf(group, p);
            && (r.Resolved? <==> (p.indicator == 0 && p.identity.Some?) || (p.indicator != 0 && Continues(history, f)))
            && (r.Resolved? ==> Some(r.identity) == IdentityOf(history, group, p))
            && (r.Resolved? && p.indicator == 0 ==> r.active == t.active)
            && (r.Resolved? && p.indicator != 0 ==> ChainsInv(t.(active := r.active), history + [f]))
  {
    hide Chain;
    hide WellChained;
    assert Chain(history, group, p.timestamp) == if p.timestamp in t.active then Some(t.active[p.timestamp]) else None;
    var r := Resolve(t.active, p);
    if r.Resolved? && p.indicator != 0 {
      ResolveFollowsScan(t.active, history, group, p);
    }
  }

  /** The identity an MFU fragment carries, or that of the chain its history says it continues. */
  ghost function IdentityOf(history: seq<Piece>, group: nat, p: Packet): Option<Identity> {
    if p.identity.Some? then p.identity
    else
      match Chain(history, group, p.timestamp)
      case Some(mfu) => Some(mfu.identity)
      case None => None
  }

  /** Where a written packet is found afterwards. */
  ghost predicate Lands(group: nat, p: Packet, history: seq<Piece>, u: Track, outcome: Outcome) {
    outcome.Written? ==>
      && u.log != []
      && match p.fragmentType
         case Some(Init) => u.log[|u.log| - 1] == Wrote(group, 0, p)
         case Some(Mfu) =>
           var identity := IdentityOf(history, group, p);
           && identity.Some? && identity.value in u.mfuGroups && u.mfuGroups[identity.value].group == group
           && 1 <= u.mfuGroups[identity.value].id
           && u.log[|u.log| - 1] == Wrote(group, u.mfuGroups[identity.value].id, p)
         case _ => false
  }

  /** Everything a step with a packet of the current group promises. */
  ghost predicate Means(t: Track, history: seq<Piece>, group: nat, p: Packet, step: Step) {
    var admitted := p.fragmentType == Some(Mfu) && p.indicator != 0 && Resolve(t.active, p).Resolved?;
    && SourceInv(step.track) && RepairInv(step.track)
    && ChainsInv(step.track, history + if admitted then [PieceOf(group, p)] else [])
    && Lands(group, p, history, step.track, step.outcome)
    && Payloads(step.track.log) == Payloads(t.log) + (if step.outcome.Written? then [p] else [])
    && (step.outcome.Failed? && step.outcome.error != SinkFailed ==> step.track == t && !admitted)
  }

  lemma PutFragmentMeans(t: Track, history: seq<Piece>, group: nat, p: Packet, env: Env)
    requires SourceInv(t) && RepairInv(t) && ChainsInv(t, history) && t.currentGroup == Some(group)
        && p.fragmentType.Some?
    ensures Means(t, history, group, p, PutFragment(t, group, p, env))
  {
    hide SourceInv;
    hide RepairInv;
    hide ChainsInv;
    hide Resolve;
    hide Payloads;
    hide PutMfu;
    match p.fragmentType.value {
      case Init =>
        PutInitKeeps(t, group, p, env);
        PutInitFrame(t, group, p, env);
        PutInitPayload(t, group, p, env);
        PutFragmentFrame(t, group, p, env);
        ChainsFrame(t, PutInit(t, group, p, env).track, history);
        RepairFrame(t, PutInit(t, group, p, env).track);
        TablesOf(t, group);
        assert history + [] == history;
      case Mfu =>
        ResolveRefuses(t.active, p);
        if Resolve(t.active, p).Resolved? {
          PutMfuMeans(t, history, group, p, env);
        } else {
          assert history + [] == history;
        }
      case Fragment =>
        assert history + [] == history;
    }
  }

  lemma PutMfuMeans(t: Track, history: seq<Piece>, group: nat, p: Packet, env: Env)
    requires SourceInv(t) && RepairInv(t) && ChainsInv(t, history) && t.currentGroup == Some(group)
    requires p.fragmentType == Some(Mfu) && Resolve(t.active, p).Resolved?
    ensures Means(t, history, group, p, PutFragment(t, group, p, env))
  {
    hide SourceInv;
    hide RepairInv;
    hide ChainsInv;
    hide Resolve;
    hide Payloads;
    hide PutMfu;
    hide IdentityOf;
    var r := Resolve(t.active, p);
    var joined := t.(active := r.active);
    var step := PutMfu(joined, group, r.identity, p, env);
    var later := history + if p.indicator != 0 then [PieceOf(group, p)] else [];
    ResolveExactly(t, history, group, p);
    assert history + [] == history;
    ActiveFrame(t, joined);
    PutMfuKeeps(joined, group, r.identity, p, env);
    PutMfuFrame(joined, group, r.identity, p, env);
    PutMfuPayload(joined, group, r.identity, p, env);
    PutFragmentFrame(t, group, p, env);
    PutMfuLands(joined, group, r.identity, p, env);
    assert ChainsInv(joined, later);
    ChainsFrame(joined, step.track, later);
    TablesOf(step.track, group);
    RepairFrame(t, step.track);
  }

  lemma PutMfuLands(t: Track, group: nat, identity: Identity, p: Packet, env: Env)
    ensures var step := PutMfu(t, group, identity, p, env);
            && (step.outcome == Written || step.outcome == Failed(SinkFailed))
            && (step.outcome.Written? ==>
                  && identity in step.track.mfuGroups && step.track.log != []
                  && step.track.log[|step.track.log| - 1]
                      == Wrote(step.track.mfuGroups[identity].group, step.track.mfuGroups[identity].id, p))
  {
  }

  lemma RepairFrame(t: Track, u: Track)
    requires RepairInv(t) && u.repair == t.repair && u.depth == t.depth && u.currentGroup == t.currentGroup
    ensures RepairInv(u)
  {
  }

  lemma ChainsFrame(t: Track, u: Track, history: seq<Piece>)
    requires ChainsInv(t, history) && u.active == t.active && u.currentGroup == t.currentGroup
    ensures ChainsInv(u, history)
  {
  }

  lemma TablesOf(t: Track, group: nat)
    requires SourceInv(t) && t.currentGroup == Some(group)
    ensures t.initGroup.Some? ==> t.initGroup.value == Subgroup(group, 0)
    ensures forall m :: m in t.mfuGroups ==> t.mfuGroups[m].group == group && 1 <= t.mfuGroups[m].id
  {
  }

  lemma ResolveRefuses(active: map<U32, ActiveMfu>, p: Packet)
    ensures Resolve(active, p).Refused? ==> Resolve(active, p).error != SinkFailed
  {
  }

  /** A time does not depend on the sequence number. */
  lemma SequenceAlone(t: Track, sequence: Option<U32>, epoch: U32, timestamp: U32)
    ensures var u := t.(lastSequence := sequence);
            Elapsed(u, epoch, timestamp) == Elapsed(t, epoch, timestamp)
                && FormulaGroup(u, epoch, timestamp) == FormulaGroup(t, epoch, timestamp)
  {
  }

  lemma RepairMeans(t: Track, history: seq<Piece>, p: Packet, env: Env)
    requires SourceInv(t) && RepairInv(t) && ChainsInv(t, history)
    ensures var step := DispatchRepair(t, p, env);
            && SourceInv(step.track) && RepairInv(step.track) && ChainsInv(step.track, history)
            && (step.outcome.Written? ==>
                  && t.currentGroup.Some? && step.track.repair.Some? && step.track.repair.value.log != []
                  && step.track.repair.value.log[|step.track.repair.value.log| - 1]
                      == Wrote(t.currentGroup.value / t.depth, 0, p))
            && (step.outcome.Failed? ==>
                  && (step.track.repair.Some? <==> t.repair.Some?)
                  && (t.repair.Some? ==> Payloads(step.track.repair.value.log) == Payloads(t.repair.value.log)))
  {
    hide SourceInv;
    hide ChainsInv;
    hide Payloads;
    RepairKeeps(t, p, env);
    SourceInvFrame(t, DispatchRepair(t, p, env).track);
    ChainsFrame(t, DispatchRepair(t, p, env).track, history);
    if t.currentGroup.Some? && t.repair.Some? {
      PayloadsAfter(t.repair.value.log, Created(t.currentGroup.value / t.depth, 0, t.repair.value.priority));
    }
  }

  lemma RepairKeeps(t: Track, p: Packet, env: Env)
    requires RepairInv(t)
    ensures RepairInv(DispatchRepair(t, p, env).track)
  {
  }

  /** The transport does its part: it takes the object, and opens its subgroup unless that is open already. */
  predicate Carried(env: Env, isOpen: bool) {
    env.putOk && (env.createOk || isOpen)
  }

  /**
   * Exactly when a media packet with good headers is written. It is not of a group before the current
   * one, it is metadata or an MFU fragment that has its place in the history, and the transport carries
   * it: subgroup 0, or the subgroup of its identity, is open in its group or can be opened.
   */
  lemma WrittenExactly(t: Track, epoch: U32, p: Packet, env: Env, history: seq<Piece>)
    requires SourceInv(t) && RepairInv(t) && ChainsInv(t, history) && p.packetType.Mpu? && Refusal(t, p).None?
    ensures var group := FormulaGroup(t, epoch, p.timestamp);
            DispatchTrack(t, epoch, p, env).outcome.Written? <==>
            && (t.currentGroup.Some? ==> t.currentGroup.value <= group)
            && match p.fragmentType
               case Some(Init) => Carried(env, Opened(t.log, group, 0))
               case Some(Mfu) =>
                 && ((p.indicator == 0 && p.identity.Some?)
                     || (p.indicator != 0 && Continues(history, PieceOf(group, p))))
                 && IdentityOf(history, group, p).Some?
                 && Carried(env, t.currentGroup == Some(group) && IdentityOf(history, group, p).value in t.mfuGroups)
               case _ => false
  {
    hide FormulaGroup;
    hide Elapsed;
    hide SourceInv;
    hide RepairInv;
    hide ChainsInv;
    hide PutFragment;
    hide Continues;
    hide IdentityOf;
    hide Opened;
    var group := FormulaGroup(t, epoch, p.timestamp);
    if !Stale(t, group) {
      var clocked := Clocked(t, epoch, p);
      var entered := EnterGroup(clocked, group);
      ClockFrame(t, clocked, history);
      EnterGroupKeepsAll(clocked, group, history);
      OpenedInEntered(t, entered, group);
      PutExactly(entered, group, p, env, history);
    }
  }

  /** In the group just entered subgroup 0 is open exactly if the log says so. */
  lemma OpenedInEntered(t: Track, entered: Track, group: nat)
    requires SourceInv(entered) && entered.currentGroup == Some(group) && entered.log == t.log
    ensures entered.initGroup.Some? <==> Opened(t.log, group, 0)
  {
    hide SinkInv;
  }

  lemma PutExactly(t: Track, group: nat, p: Packet, env: Env, history: seq<Piece>)
    requires ChainsInv(t, history) && t.currentGroup == Some(group)
    ensures PutFragment(t, group, p, env).outcome.Written? <==>
            match p.fragmentType
            case Some(Init) => Carried(env, t.initGroup.Some?)
            case Some(Mfu) =>
              && ((p.indicator == 0 && p.identity.Some?) || (p.indicator != 0 && Continues(history, PieceOf(group, p))))
              && IdentityOf(history, group, p).Some?
              && Carried(env, IdentityOf(history, group, p).value in t.mfuGroups)
            case _ => false
  {
    hide ChainsInv;
    hide Continues;
    hide IdentityOf;
    hide Resolve;
    ResolveExactly(t, history, group, p);
  }

  /** Every failure is what it says it is. */
  ghost predicate TellsWhy(t: Track, history: seq<Piece>, group: nat, p: Packet, env: Env, error: DispatchError) {
    var chain := Chain(history, group, p.timestamp);
    match error
    case UnknownPacketId => false
    case MissingSequence => p.packetType.Mpu? && p.mpuSequence.None?
    case MissingFragmentType => p.packetType.Mpu? && p.fragmentType.None?
    case Aggregated => p.packetType.Mpu? && p.aggregation
    case SequenceRegression =>
      p.packetType.Mpu? && p.mpuSequence.Some? && t.lastSequence.Some? && p.mpuSequence.value < t.lastSequence.value
    case OverlappingMfus => p.fragmentType == Some(Mfu) && p.indicator == 1 && chain.Some?
    case NoActiveMfu => p.fragmentType == Some(Mfu) && (p.indicator == 2 || p.indicator == 3) && chain.None?
    case CounterGap =>
      && p.fragmentType == Some(Mfu) && (p.indicator == 2 || p.indicator == 3)
      && chain.Some? && p.counter != (if chain.value.counter == 255 then 0 else chain.value.counter + 1)
    case InconsistentIndicator =>
      && p.fragmentType == Some(Mfu)
      && (p.indicator > 3 || (p.indicator <= 1 && p.identity.None?) || (2 <= p.indicator && p.identity.Some?))
    case MovieFragment => p.fragmentType == Some(Fragment)
    case RepairBeforeSource => p.packetType.Repair? && t.currentGroup.None?
    case NoRepairTrack => p.packetType.Repair? && t.repair.None?
    case SinkFailed => !env.createOk || !env.putOk
  }

  lemma FailureTellsWhy(t: Track, epoch: U32, p: Packet, env: Env, history: seq<Piece>)
    requires ChainsInv(t, history) && DispatchTrack(t, epoch, p, env).outcome.Failed?
    ensures TellsWhy(t, history, FormulaGroup(t, epoch, p.timestamp), p, env,
        DispatchTrack(t, epoch, p, env).outcome.error)
  {
    hide FormulaGroup;
    hide Elapsed;
    hide PutFragment;
    hide ChainsInv;
    hide Chain;
    var group := FormulaGroup(t, epoch, p.timestamp);
    if p.packetType.Mpu? && Refusal(t, p).None? && !Stale(t, group) {
      var clocked := Clocked(t, epoch, p);
      ChainsFrame(t, clocked, history);
      EnterGroupKeepsChains(clocked, history, group);
      PutTellsWhy(t, EnterGroup(clocked, group), group, p, env, history);
    }
  }

  lemma PutTellsWhy(t: Track, entered: Track, group: nat, p: Packet, env: Env, history: seq<Piece>)
    requires ChainsInv(entered, history) && entered.currentGroup == Some(group)
    requires p.packetType.Mpu? && p.fragmentType.Some? && PutFragment(entered, group, p, env).outcome.Failed?
    ensures TellsWhy(t, history, group, p, env, PutFragment(entered, group, p, env).outcome.error)
  {
    hide Chain;
    hide WellChained;
    assert Chain(history, group, p.timestamp)
        == if p.timestamp in entered.active then Some(entered.active[p.timestamp]) else None;
  }
}
