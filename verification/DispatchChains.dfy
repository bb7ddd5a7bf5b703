/** Fragment chains: which subgroup an MFU continuation, which carries no identity, belongs to. */
module DispatchChains {
  import opened Options
  import opened PresentationClock
  import opened DispatchSpec
  import opened DispatchRuns

  /** A fragment that passed the chain checks in the group that was current. */
  datatype Piece = Piece(group: nat, timestamp: U32, indicator: U8, counter: U8, identity: Option<Identity>)

  /** The fragment a dispatched packet adds to the history, whether or not the sink then takes it. */
  ghost function Admitted(t: Track, epoch: U32, p: Packet): Option<Piece> {
    var group := FormulaGroup(t, epoch, p.timestamp);
    if p.packetType.Mpu? && Refusal(t, p).None? && !Stale(t, group) && p.fragmentType == Some(Mfu) && p.indicator != 0
       && Resolve(EnterGroup(Clocked(t, epoch, p), group).active, p).Resolved?
    then Some(Piece(group, p.timestamp, p.indicator, p.counter, p.identity))
    else None
  }

  ghost function History(t: Track, epoch: U32, inputs: seq<Input>): seq<Piece> {
    if inputs == [] then []
    else
      var n := |inputs| - 1;
      var admitted := Admitted(Run(t, epoch, inputs[..n]), epoch, inputs[n].packet);
      History(t, epoch, inputs[..n]) + if admitted.Some? then [admitted.value] else []
  }

  predicate Matches(f: Piece, group: nat, timestamp: U32) {
    f.group == group && f.timestamp == timestamp
  }

  /** The chain open for a group and timestamp, found by scanning the history from the newest fragment back. */
  ghost function Chain(history: seq<Piece>, group: nat, timestamp: U32): Option<ActiveMfu> {
    if history == [] then None
    else
      var last, before := history[|history| - 1], history[..|history| - 1];
      if !Matches(last, group, timestamp) then Chain(before, group, timestamp)
      else if last.indicator == 1 && last.identity.Some? then Some(ActiveMfu(last.identity.value, last.counter))
      else
        match Chain(before, group, timestamp)
        case Some(mfu) => if last.indicator == 2 then Some(ActiveMfu(mfu.identity, last.counter)) else None
        case None => None
  }

  /** A fragment in place: a first one where no chain is open, a later one that counts on from its chain. */
  ghost predicate Continues(history: seq<Piece>, f: Piece) {
    match Chain(history, f.group, f.timestamp)
    case None => f.indicator == 1 && f.identity.Some?
    case Some(mfu) => (f.indicator == 2 || f.indicator == 3) && f.identity.None? && f.counter == (mfu.counter + 1) % 256
  }

  ghost predicate WellChained(history: seq<Piece>) {
    forall i :: 0 <= i < |history| ==> Continues(history[..i], history[i])
  }

  /** The table of active chains is what the scan of the history finds. */
  ghost predicate TableIsScan(active: map<U32, ActiveMfu>, history: seq<Piece>, group: nat) {
    forall timestamp: U32 ::
      Chain(history, group, timestamp) == if timestamp in active then Some(active[timestamp]) else None
  }

  ghost predicate WithinGroup(history: seq<Piece>, group: nat) {
    forall i :: 0 <= i < |history| ==> history[i].group <= group
  }

  ghost predicate ChainsInv(t: Track, history: seq<Piece>) {
    && WellChained(history)
    && match t.currentGroup
       case None => history == [] && t.active == map[]
       case Some(group) => WithinGroup(history, group) && TableIsScan(t.active, history, group)
  }

  lemma {:induction false} NoChainBeyond(history: seq<Piece>, group: nat, timestamp: U32)
    requires forall i :: 0 <= i < |history| ==> history[i].group < group
    ensures Chain(history, group, timestamp).None?
  {
    if history != [] {
      NoChainBeyond(history[..|history| - 1], group, timestamp);
    }
  }

  lemma ChainAfter(history: seq<Piece>, f: Piece, group: nat, timestamp: U32)
    ensures Chain(history + [f], group, timestamp) ==
            if !Matches(f, group, timestamp) then Chain(history, group, timestamp)
            else if f.indicator == 1 && f.identity.Some? then Some(ActiveMfu(f.identity.value, f.counter))
            else if Chain(history, group, timestamp).Some? && f.indicator == 2
            then Some(ActiveMfu(Chain(history, group, timestamp).value.identity, f.counter)) else None
  {
    assert (history + [f])[..|history|] == history;
  }

  lemma WellChainedAfter(history: seq<Piece>, f: Piece)
    requires WellChained(history) && Continues(history, f)
    ensures WellChained(history + [f])
  {
    hide Continues;
    var longer := history + [f];
    forall i | 0 <= i < |longer|
      ensures Continues(longer[..i], longer[i])
    {
      assert longer[..i] == if i == |history| then history else history[..i];
    }
  }

  /** Entering a group keeps the table in step with the scan. */
  lemma EnterGroupKeepsChains(t: Track, history: seq<Piece>, group: nat)
    requires ChainsInv(t, history) && !Stale(t, group)
    ensures ChainsInv(EnterGroup(t, group), history) && EnterGroup(t, group).currentGroup == Some(group)
  {
    hide WellChained;
    if t.currentGroup != Some(group) {
      forall timestamp: U32
        ensures Chain(history, group, timestamp).None?
      {
        NoChainBeyond(history, group, timestamp);
      }
    }
  }

  /** The chain rules and the scan agree on every fragment. */
  lemma ResolveFollowsScan(active: map<U32, ActiveMfu>, history: seq<Piece>, group: nat, p: Packet)
    requires TableIsScan(active, history, group) && WellChained(history)
    requires Resolve(active, p).Resolved? && p.indicator != 0
    ensures var f := Piece(group, p.timestamp, p.indicator, p.counter, p.identity);
            && Continues(history, f)
            && WellChained(history + [f])
            && TableIsScan(Resolve(active, p).active, history + [f], group)
  {
    hide WellChained;
    hide Chain;
    var f := Piece(group, p.timestamp, p.indicator, p.counter, p.identity);
    assert Chain(history, group, p.timestamp) == if p.timestamp in active then Some(active[p.timestamp]) else None;
    WellChainedAfter(history, f);
    var after := Resolve(active, p).active;
    forall timestamp: U32
      ensures Chain(history + [f], group, timestamp) == if timestamp in after then Some(after[timestamp]) else None
    {
      ChainAfter(history, f, group, timestamp);
      assert Chain(history, group, timestamp) == if timestamp in active then Some(active[timestamp]) else None;
    }
  }

  /** The subgroup tables do not touch the chains. */
  lemma PutMfuFrame(t: Track, group: nat, identity: Identity, p: Packet, env: Env)
    ensures var u := PutMfu(t, group, identity, p, env).track; u.active == t.active && u.currentGroup == t.currentGroup
  {
  }

  lemma PutInitFrame(t: Track, group: nat, p: Packet, env: Env)
    ensures var u := PutInit(t, group, p, env).track; u.active == t.active && u.currentGroup == t.currentGroup
  {
  }

  lemma StepKeepsChains(t: Track, epoch: U32, p: Packet, env: Env, history: seq<Piece>)
    requires ChainsInv(t, history)
    ensures var admitted := Admitted(t, epoch, p);
            ChainsInv(DispatchTrack(t, epoch, p, env).track, history + if admitted.Some? then [admitted.value] else [])
  {
    hide WellChained;
    hide TableIsScan;
    hide FormulaGroup;
    hide Elapsed;
    hide Resolve;
    hide PutInit;
    hide PutMfu;
    if Admitted(t, epoch, p).None? {
      assert history + [] == history;
    }
    if p.packetType.Mpu? && Refusal(t, p).None? {
      var group := FormulaGroup(t, epoch, p.timestamp);
      var clocked := Clocked(t, epoch, p);
      if !Stale(t, group) {
        EnterGroupKeepsChains(clocked, history, group);
        var entered := EnterGroup(clocked, group);
        if p.fragmentType == Some(Init) {
          PutInitFrame(entered, group, p, env);
        } else if p.fragmentType == Some(Mfu) && Resolve(entered.active, p).Resolved? {
          var r := Resolve(entered.active, p);
          PutMfuFrame(entered.(active := r.active), group, r.identity, p, env);
          if p.indicator != 0 {
            ResolveFollowsScan(entered.active, history, group, p);
          } else {
            CompleteLeavesChains(entered.active, p);
          }
        }
      }
    }
  }

  lemma CompleteLeavesChains(active: map<U32, ActiveMfu>, p: Packet)
    requires p.indicator == 0 && Resolve(active, p).Resolved?
    ensures Resolve(active, p).active == active
  {
  }

  /** Over every run the table of active chains is the scan of the admitted fragments. */
  lemma {:induction false} RunFollowsChains(t: Track, epoch: U32, inputs: seq<Input>)
    requires ChainsInv(t, [])
    ensures ChainsInv(Run(t, epoch, inputs), History(t, epoch, inputs))
  {
    hide ChainsInv;
    hide DispatchTrack;
    hide Admitted;
    if inputs != [] {
      var n := |inputs| - 1;
      RunFollowsChains(t, epoch, inputs[..n]);
      StepKeepsChains(Run(t, epoch, inputs[..n]), epoch, inputs[n].packet, inputs[n].env,
          History(t, epoch, inputs[..n]));
    }
  }

  // ---------------------------------------------------------------- what an open chain means

  /** How many fragments of a chain came after position `i`. */
  ghost function Since(history: seq<Piece>, i: nat, group: nat, timestamp: U32): nat {
    if |history| <= i + 1 then 0
    else
      var n := |history| - 1;
      Since(history[..n], i, group, timestamp) + if Matches(history[n], group, timestamp) then 1 else 0
  }

  /** Position `i` starts a chain that nothing has ended: a first fragment followed only by middle ones. */
  ghost predicate StartsOpenChain(history: seq<Piece>, i: nat, group: nat, timestamp: U32) {
    && i < |history| && Matches(history[i], group, timestamp) && history[i].indicator == 1 && history[i].identity.Some?
    && forall j :: i < j < |history| && Matches(history[j], group, timestamp) ==> history[j].indicator == 2
  }

  lemma WellChainedPrefix(history: seq<Piece>, n: nat)
    requires WellChained(history) && n <= |history|
    ensures WellChained(history[..n])
  {
    hide Continues;
    forall i | 0 <= i < n
      ensures Continues(history[..n][..i], history[..n][i])
    {
      assert history[..n][..i] == history[..i];
    }
  }

  /** An open chain has its identity and its count from the first fragment that started it. */
  lemma {:induction false} ChainHasStart(history: seq<Piece>, group: nat, timestamp: U32) returns (i: nat)
    requires WellChained(history) && Chain(history, group, timestamp).Some?
    ensures StartsOpenChain(history, i, group, timestamp)
    ensures Chain(history, group, timestamp).value.identity == history[i].identity.value
    ensures Chain(history, group, timestamp).value.counter
        == (history[i].counter + Since(history, i, group, timestamp)) % 256
  {
    hide WellChained;
    hide Continues;
    var n := |history| - 1;
    LastContinues(history);
    WellChainedPrefix(history, n);
    if Matches(history[n], group, timestamp) && history[n].indicator == 1 {
      i := n;
    } else {
      i := ChainHasStart(history[..n], group, timestamp);
      CountOn(history[i].counter + Since(history[..n], i, group, timestamp));
    }
  }

  /** The newest piece either starts a chain or counts on from the one before it. */
  lemma LastContinues(history: seq<Piece>)
    requires WellChained(history) && history != []
    ensures var n := |history| - 1;
            var f, chain := history[n], Chain(history[..n], history[n].group, history[n].timestamp);
            && (f.indicator == 1 ==> f.identity.Some?)
            && (f.indicator != 1 ==> chain.Some? && f.counter == (chain.value.counter + 1) % 256)
  {
    assert Continues(history[..|history| - 1], history[|history| - 1]);
  }

  lemma CountOn(n: int)
    ensures (n % 256 + 1) % 256 == (n + 1) % 256
  {
  }

  /** A first fragment that nothing has ended is an open chain. */
  lemma {:induction false} StartKeepsChain(history: seq<Piece>, i: nat, group: nat, timestamp: U32)
    requires WellChained(history) && StartsOpenChain(history, i, group, timestamp)
    ensures Chain(history, group, timestamp).Some?
  {
    var n := |history| - 1;
    if i < n {
      WellChainedPrefix(history, n);
      assert history[..n][i] == history[i];
      StartKeepsChain(history[..n], i, group, timestamp);
    }
  }

  /**
   * A written continuation belongs to the latest first fragment of its timestamp in the current
   * group that no last fragment has ended, counts on from it modulo 256, and lands in the subgroup
   * of that fragment's identity.
   */
  lemma ContinuationJoinsItsChain(t: Track, epoch: U32, p: Packet, env: Env, history: seq<Piece>) returns (i: nat)
    requires ChainsInv(t, history)
    requires p.packetType.Mpu? && p.fragmentType == Some(Mfu) && (p.indicator == 2 || p.indicator == 3)
    requires DispatchTrack(t, epoch, p, env).outcome.Written?
    ensures t.currentGroup == Some(FormulaGroup(t, epoch, p.timestamp))
    ensures StartsOpenChain(history, i, t.currentGroup.value, p.timestamp)
    ensures p.counter == (history[i].counter + Since(history, i, t.currentGroup.value, p.timestamp) + 1) % 256
    ensures var u, identity := DispatchTrack(t, epoch, p, env).track, history[i].identity.value;
            && identity in u.mfuGroups
            && (identity in t.mfuGroups ==> u.mfuGroups == t.mfuGroups)
            && u.log != [] && u.log[|u.log| - 1] == Wrote(u.mfuGroups[identity].group, u.mfuGroups[identity].id, p)
  {
    hide FormulaGroup;
    hide Elapsed;
    hide Chain;
    hide Since;
    hide StartsOpenChain;
    hide WellChained;
    var group := FormulaGroup(t, epoch, p.timestamp);
    var entered := EnterGroup(Clocked(t, epoch, p), group);
    assert p.timestamp in entered.active;
    assert t.currentGroup == Some(group);
    assert Chain(history, group, p.timestamp) == Some(t.active[p.timestamp]);
    i := ChainHasStart(history, group, p.timestamp);
  }

  /** An MFU fragment that carries its identity is written to that identity's subgroup. */
  lemma MfuLandsInItsSubgroup(t: Track, epoch: U32, p: Packet, env: Env)
    requires p.packetType.Mpu? && p.fragmentType == Some(Mfu) && p.identity.Some?
    requires DispatchTrack(t, epoch, p, env).outcome.Written?
    ensures var u := DispatchTrack(t, epoch, p, env).track;
            && p.identity.value in u.mfuGroups
            && u.log != [] && u.log[|u.log| - 1]
                == Wrote(u.mfuGroups[p.identity.value].group, u.mfuGroups[p.identity.value].id, p)
  {
    hide FormulaGroup;
    hide Elapsed;
  }

  lemma StepKeepsSubgroups(t: Track, epoch: U32, p: Packet, env: Env, identity: Identity)
    requires identity in t.mfuGroups && DispatchTrack(t, epoch, p, env).track.currentGroup == t.currentGroup
    ensures var u := DispatchTrack(t, epoch, p, env).track;
            identity in u.mfuGroups && u.mfuGroups[identity] == t.mfuGroups[identity]
  {
    hide FormulaGroup;
    hide Elapsed;
    hide Resolve;
  }

  /** While the group stays, an identity keeps its subgroup: a whole fragment chain lands in one subgroup. */
  lemma {:induction false} RunKeepsSubgroups(t: Track, epoch: U32, inputs: seq<Input>, identity: Identity)
    requires t.currentGroup.Some? && identity in t.mfuGroups && Run(t, epoch, inputs).currentGroup == t.currentGroup
    ensures var u := Run(t, epoch, inputs); identity in u.mfuGroups && u.mfuGroups[identity] == t.mfuGroups[identity]
  {
    hide DispatchTrack;
    if inputs != [] {
      var n := |inputs| - 1;
      var before := Run(t, epoch, inputs[..n]);
      GroupNeverDrops(t, epoch, inputs[..n]);
      StepFrame(before, epoch, inputs[n].packet, inputs[n].env);
      RunKeepsSubgroups(t, epoch, inputs[..n], identity);
      StepKeepsSubgroups(before, epoch, inputs[n].packet, inputs[n].env, identity);
    }
  }

  lemma {:induction false} GroupNeverDrops(t: Track, epoch: U32, inputs: seq<Input>)
    requires t.currentGroup.Some?
    ensures Run(t, epoch, inputs).currentGroup.Some? && t.currentGroup.value <= Run(t, epoch, inputs).currentGroup.value
  {
    hide DispatchTrack;
    if inputs != [] {
      var n := |inputs| - 1;
      GroupNeverDrops(t, epoch, inputs[..n]);
      StepFrame(Run(t, epoch, inputs[..n]), epoch, inputs[n].packet, inputs[n].env);
    }
  }

  // ---------------------------------------------------------------- sink failures

  /** Every open chain's subgroup is open. */
  ghost predicate ChainsOpened(t: Track) {
    forall timestamp :: timestamp in t.active ==> t.active[timestamp].identity in t.mfuGroups
  }

  lemma PutMfuOpens(t: Track, group: nat, identity: Identity, p: Packet, env: Env)
    requires env.createOk
    ensures var u := PutMfu(t, group, identity, p, env).track;
            u.active == t.active && u.mfuGroups.Keys == t.mfuGroups.Keys + {identity}
  {
  }

  lemma ResolveStartsOne(active: map<U32, ActiveMfu>, p: Packet)
    requires Resolve(active, p).Resolved?
    ensures var r := Resolve(active, p);
            forall timestamp :: timestamp in r.active ==>
              r.active[timestamp].identity == r.identity
              || (timestamp in active && r.active[timestamp].identity == active[timestamp].identity)
  {
  }

  lemma StepKeepsChainsOpened(t: Track, epoch: U32, p: Packet, env: Env)
    requires ChainsOpened(t) && env.createOk
    ensures ChainsOpened(DispatchTrack(t, epoch, p, env).track)
  {
    hide FormulaGroup;
    hide Elapsed;
    hide Resolve;
    hide PutMfu;
    var group := FormulaGroup(t, epoch, p.timestamp);
    var entered := EnterGroup(Clocked(t, epoch, p), group);
    if Resolve(entered.active, p).Resolved? {
      var r := Resolve(entered.active, p);
      ResolveStartsOne(entered.active, p);
      PutMfuOpens(entered.(active := r.active), group, r.identity, p, env);
    }
  }

  /** While the transport opens every subgroup asked for, every open chain's identity has an open subgroup. */
  lemma {:induction false} RunKeepsChainsOpened(t: Track, epoch: U32, inputs: seq<Input>)
    requires ChainsOpened(t) && forall i :: 0 <= i < |inputs| ==> inputs[i].env.createOk
    ensures ChainsOpened(Run(t, epoch, inputs))
  {
    hide DispatchTrack;
    hide ChainsOpened;
    if inputs != [] {
      var n := |inputs| - 1;
      RunKeepsChainsOpened(t, epoch, inputs[..n]);
      StepKeepsChainsOpened(Run(t, epoch, inputs[..n]), epoch, inputs[n].packet, inputs[n].env);
    }
  }

  /** Reading a timestamp again right away gives the same time. */
  lemma ReadAgain(t: Track, epoch: U32, timestamp: U32)
    ensures var e := Elapsed(t, epoch, timestamp); Elapsed(t.(highest := Highest(t.highest, e)), epoch, timestamp) == e
  {
    hide Unwrap;
    var base := WrappingSub(timestamp, epoch);
    var e := Unwrap(t.highest, base);
    UnwrapInWindow(t.highest, base);
    UnwrapInWindow(Some(e), base);
    WindowSeparates(Some(e), e, Unwrap(Some(e), base));
  }

  /** The next fragment of the MFU that `first` starts, in a packet of its own. */
  predicate FollowsOn(first: Packet, next: Packet) {
    && next.packetType.Mpu? && next.fragmentType == Some(Mfu) && !next.aggregation
    && next.mpuSequence == first.mpuSequence && next.timestamp == first.timestamp
    && (next.indicator == 2 || next.indicator == 3) && next.identity.None? && next.counter == (first.counter + 1) % 256
  }

  /**
   * A chain is registered before its first fragment is written. So whenever the transport fails that
   * fragment, in opening its subgroup or in writing to it, the dispatch fails but the chain stays, and
   * the next fragment, if it is dispatched at all, is written without its first.
   */
  lemma RefusedStartStillHasContinuation(t: Track, epoch: U32, first: Packet, next: Packet, env: Env)
    requires first.packetType.Mpu? && first.fragmentType == Some(Mfu) && first.indicator == 1 && FollowsOn(first, next)
    requires DispatchTrack(t, epoch, first, env).outcome == Failed(SinkFailed)
    ensures var u := DispatchTrack(t, epoch, first, env).track;
            var step := DispatchTrack(u, epoch, next, Env(true, true));
            && Payloads(u.log) == Payloads(t.log)
            && step.outcome == Written && Payloads(step.track.log) == Payloads(t.log) + [next]
  {
    hide DispatchTrack;
    hide Payloads;
    var u := DispatchTrack(t, epoch, first, env).track;
    FailedStartStays(t, epoch, first, env);
    NextIsWritten(u, epoch, next);
    MediaWrittenOnce(t, epoch, first, env);
    MediaWrittenOnce(u, epoch, next, Env(true, true));
    assert Payloads(t.log) + [] == Payloads(t.log);
  }

  /** What a first fragment that the transport failed leaves behind. */
  lemma FailedStartStays(t: Track, epoch: U32, first: Packet, env: Env)
    requires first.packetType.Mpu? && first.fragmentType == Some(Mfu) && first.indicator == 1
    requires DispatchTrack(t, epoch, first, env).outcome == Failed(SinkFailed)
    ensures var u := DispatchTrack(t, epoch, first, env).track;
            && u.lastSequence == first.mpuSequence && first.mpuSequence.Some?
            && u.currentGroup == Some(FormulaGroup(u, epoch, first.timestamp))
            && first.timestamp in u.active && u.active[first.timestamp].counter == first.counter
  {
    hide Elapsed;
    hide GroupNumber;
    hide PutMfu;
    ReadAgain(t, epoch, first.timestamp);
    var group := FormulaGroup(t, epoch, first.timestamp);
    var entered := EnterGroup(Clocked(t, epoch, first), group);
    assert Resolve(entered.active, first).Resolved?;
    var r := Resolve(entered.active, first);
    PutMfuFrame(entered.(active := r.active), group, r.identity, first, env);
    PutMfuKeepsClock(entered.(active := r.active), group, r.identity, first, env);
    var u := DispatchTrack(t, epoch, first, env).track;
    TimeAlone(u, t.(highest := u.highest), epoch, first.timestamp);
  }

  lemma PutMfuKeepsClock(t: Track, group: nat, identity: Identity, p: Packet, env: Env)
    ensures var u := PutMfu(t, group, identity, p, env).track;
            u.highest == t.highest && u.lastSequence == t.lastSequence && u.timescale == t.timescale
                && u.duration == t.duration
  {
  }

  lemma NextIsWritten(u: Track, epoch: U32, next: Packet)
    requires next.packetType.Mpu? && next.fragmentType == Some(Mfu) && !next.aggregation
    requires next.mpuSequence == u.lastSequence && next.mpuSequence.Some? && next.identity.None?
    requires u.currentGroup == Some(FormulaGroup(u, epoch, next.timestamp)) && next.timestamp in u.active
    requires (next.indicator == 2 || next.indicator == 3)
        && next.counter == (u.active[next.timestamp].counter + 1) % 256
    ensures DispatchTrack(u, epoch, next, Env(true, true)).outcome == Written
  {
    hide FormulaGroup;
    hide Elapsed;
  }

  /** A time depends on the track's clock and nothing else in it. */
  lemma TimeAlone(t: Track, u: Track, epoch: U32, timestamp: U32)
    requires t.highest == u.highest
    ensures Elapsed(t, epoch, timestamp) == Elapsed(u, epoch, timestamp)
  {
  }
}
