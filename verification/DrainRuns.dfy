/** What a whole drain guarantees: who has ended when it is over, and how long it can be held open. */
module DrainRuns {
  import opened Options
  import opened DrainSpec

  // ---------------------------------------------------------------- from the call onwards

  /** Where a session of the call's state stands in a later one. */
  ghost predicate Progressed(was: Admission, now: Admission) {
    && (was.flagged <==> now.flagged)
    && (was.flagged ==> !was.phase.Counted?)
    && (was.phase.Ended? ==> now == was)
    && (was.phase.Serving? ==> now.phase.Serving? || now.phase.Ended?)
    && (was.goaway.Some? ==> now.goaway == was.goaway)
  }

  /** The broadcast as `finished` found it: sessions that hold a broadcast token or have given it back. */
  predicate InBroadcast(a: Admission) {
    a.flagged && (a.phase.Serving? || a.phase.Ended?)
  }

  /** An admission that has read the signal as unset and not yet taken its broadcast token. */
  predicate MidJoin(c: State) {
    exists id :: id in c.admissions && c.admissions[id].phase.Unsignalled?
  }

  /** What any later state `s` owes to the state `c` right after the call of `finished`. */
  ghost predicate Since(timeout: Time, c: State, s: State) {
    && c.wait.Some? && s.wait.Some? && s.signalled
    && s.wait.value.began == c.wait.value.began
    && (forall id :: id in c.admissions ==> id in s.admissions && Progressed(c.admissions[id], s.admissions[id]))
    && (forall id :: id in s.admissions && id !in c.admissions ==> !s.admissions[id].flagged)
    && (s.wait.value.emptied ==> forall id :: id in c.admissions ==> s.admissions[id].phase.Ended?)
    && (s.wait.value.redirected ==> forall id :: id in c.admissions && InBroadcast(c.admissions[id]) ==>
        s.admissions[id].phase.Ended?)
    && (s.wait.value.deadline.Some? ==> DeadlineOk(timeout, c, s, s.wait.value.deadline.value))
  }

  ghost predicate DeadlineOk(timeout: Time, c: State, s: State, deadline: Time) {
    && s.wait.Some? && s.wait.value.redirected && timeout > 0
    && (forall id :: id in c.admissions && id in s.admissions && InBroadcast(c.admissions[id]) ==>
          s.admissions[id].goaway.Some? ==> s.admissions[id].goaway.value + timeout <= deadline)
    && (!MidJoin(c) ==> deadline == Later(s.last, s.wait.value.began) + timeout)
  }

  lemma SinceCall(timeout: Time, s: State)
    requires Inv(timeout, s) && Apply(timeout, s, Call).Some?
    ensures var c := Apply(timeout, s, Call).value; Since(timeout, c, c)
  {
    var c := Apply(timeout, s, Call).value;
    forall id | id in c.admissions
      ensures c.wait.value.redirected && InBroadcast(c.admissions[id]) ==> c.admissions[id].phase.Ended?
    {
      assert AdmissionOk(s, s.admissions[id]);
    }
  }

  lemma SincePut(timeout: Time, c: State, s: State, id: Id, a: Admission)
    requires Inv(timeout, s) && Since(timeout, c, s) && id in s.admissions && Progressed(s.admissions[id], a)
    requires a.goaway == s.admissions[id].goaway || !InBroadcast(a)
    ensures Since(timeout, c, Put(s, id, a))
  {
    var s' := Put(s, id, a);
    forall other | other in c.admissions
      ensures other in s'.admissions && Progressed(c.admissions[other], s'.admissions[other])
    {
      assert Progressed(c.admissions[other], s.admissions[other]);
    }
  }

  lemma SinceGoaway(timeout: Time, c: State, s: State, id: Id, sent: Time)
    requires Inv(timeout, s) && Since(timeout, c, s) && Apply(timeout, s, Goaway(id, sent)).Some?
    ensures Since(timeout, c, Apply(timeout, s, Goaway(id, sent)).value)
  {
    var s' := Apply(timeout, s, Goaway(id, sent)).value;
    var a := s.admissions[id];
    forall other | other in c.admissions
      ensures other in s'.admissions && Progressed(c.admissions[other], s'.admissions[other])
    {
      assert Progressed(c.admissions[other], s.admissions[other]);
    }
    if s.wait.value.deadline.Some? && a.flagged {
      assert id in c.admissions && Progressed(c.admissions[id], a);
      assert MidJoin(c);
    }
  }

  lemma SinceLeave(timeout: Time, c: State, s: State, id: Id)
    requires Inv(timeout, s) && Since(timeout, c, s) && InPhase(s, id, Serving)
    ensures Since(timeout, c, Apply(timeout, s, Leave(id)).value)
  {
    var a := s.admissions[id].(phase := Ended);
    SincePut(timeout, c, s, id, a);
    var s1 := Put(s, id, a);
    var s' := Latch(s1);
    if s'.wait.value.redirected {
      forall other | other in c.admissions && InBroadcast(c.admissions[other])
        ensures s'.admissions[other].phase.Ended?
      {
        assert Progressed(c.admissions[other], s1.admissions[other]);
        if !s.wait.value.redirected {
          assert !HoldsBroadcast(s1.admissions[other]);
        }
      }
    }
  }

  lemma SinceArm(timeout: Time, c: State, s: State)
    requires Inv(timeout, s) && Since(timeout, c, s) && Apply(timeout, s, Arm).Some?
    ensures Since(timeout, c, Apply(timeout, s, Arm).value)
  {
    var s' := Apply(timeout, s, Arm).value;
    var deadline := s'.wait.value.deadline.value;
    forall id | id in c.admissions && id in s'.admissions && InBroadcast(c.admissions[id])
        && s'.admissions[id].goaway.Some?
      ensures s'.admissions[id].goaway.value + timeout <= deadline
    {
      assert AdmissionOk(s, s.admissions[id]) && Progressed(c.admissions[id], s.admissions[id]);
    }
  }

  lemma SinceOther(timeout: Time, c: State, s: State, step: Step)
    requires Since(timeout, c, s) && Apply(timeout, s, step).Some?
    requires step.Tick? || step.Signal? || step.Count? || step.Call? || step.Report?
    ensures Since(timeout, c, Apply(timeout, s, step).value)
  {
    hide Progressed;
    var s' := Apply(timeout, s, step).value;
    assert forall id :: id in s.admissions ==> id in s'.admissions && s'.admissions[id] == s.admissions[id];
  }

  lemma SinceStep(timeout: Time, c: State, s: State, step: Step)
    requires Inv(timeout, s) && Since(timeout, c, s) && Apply(timeout, s, step).Some?
    ensures Since(timeout, c, Apply(timeout, s, step).value)
  {
    hide DeadlineOk;
    var s' := Apply(timeout, s, step).value;
    match step {
      case Check(id) =>
        assert AdmissionOk(s, s.admissions[id]);
        SincePut(timeout, c, s, id, s'.admissions[id]);
      case Join(id) =>
        assert AdmissionOk(s, s.admissions[id]);
        SincePut(timeout, c, s, id, s'.admissions[id]);
      case Goaway(id, sent) => SinceGoaway(timeout, c, s, id, sent);
      case Leave(id) => SinceLeave(timeout, c, s, id);
      case Arm => SinceArm(timeout, c, s);
      case _ => SinceOther(timeout, c, s, step);
    }
  }

  lemma {:induction false} SinceRun(timeout: Time, c: State, steps: seq<Step>)
    requires Inv(timeout, c) && Since(timeout, c, c) && After(timeout, c, steps).Some?
    ensures Since(timeout, c, After(timeout, c, steps).value)
  {
    if steps != [] {
      var before := steps[..|steps| - 1];
      SinceRun(timeout, c, before);
      RunKeeps(timeout, c, before);
      SinceStep(timeout, c, After(timeout, c, before).value, steps[|steps| - 1]);
    }
  }

  /** A run of the whole drain, cut right after the call of `finished`. */
  ghost predicate CallsAt(timeout: Time, start: Time, steps: seq<Step>, k: nat) {
    k < |steps| && steps[k] == Call && After(timeout, Start(start), steps).Some?
  }

  lemma {:induction false} PrefixRuns(timeout: Time, s: State, steps: seq<Step>, k: nat)
    requires k <= |steps| && After(timeout, s, steps).Some?
    ensures After(timeout, s, steps[..k]).Some?
    ensures After(timeout, s, steps) == After(timeout, After(timeout, s, steps[..k]).value, steps[k..])
  {
    Prefix(timeout, s, steps, k);
    AfterConcat(timeout, s, steps[..k], steps[k..]);
    assert steps[..k] + steps[k..] == steps;
  }

  lemma {:induction false} Prefix(timeout: Time, s: State, steps: seq<Step>, k: nat)
    requires k <= |steps| && After(timeout, s, steps).Some?
    ensures After(timeout, s, steps[..k]).Some?
  {
    if k < |steps| {
      var before := steps[..|steps| - 1];
      Prefix(timeout, s, before, k);
      assert before[..k] == steps[..k];
    } else {
      assert steps[..k] == steps;
    }
  }

  ghost function AtCall(timeout: Time, start: Time, steps: seq<Step>, k: nat): State
    requires CallsAt(timeout, start, steps, k)
  {
    PrefixRuns(timeout, Start(start), steps, k + 1);
    After(timeout, Start(start), steps[..k + 1]).value
  }

  lemma RunSinceCall(timeout: Time, start: Time, steps: seq<Step>, k: nat)
    requires CallsAt(timeout, start, steps, k)
    ensures var s := After(timeout, Start(start), steps).value;
            Inv(timeout, s) && Since(timeout, AtCall(timeout, start, steps, k), s)
  {
    var init := Start(start);
    PrefixRuns(timeout, init, steps, k);
    PrefixRuns(timeout, init, steps, k + 1);
    assert steps[..k + 1][..k] == steps[..k];
    RunKeeps(timeout, init, steps[..k]);
    RunKeeps(timeout, init, steps[..k + 1]);
    RunKeeps(timeout, init, steps);
    SinceCall(timeout, After(timeout, init, steps[..k]).value);
    SinceRun(timeout, AtCall(timeout, start, steps, k), steps[k + 1..]);
  }

  // ---------------------------------------------------------------- what the two reports mean

  /**
   * Ceiling: the timeout is not zero, it has run out since the call and since every GOAWAY of the
   * broadcast, and every session of the broadcast has ended.
   */
  lemma CeilingIsLate(timeout: Time, start: Time, steps: seq<Step>, k: nat)
    requires CallsAt(timeout, start, steps, k)
    requires After(timeout, Start(start), steps).value.result == Some(Ceiling)
    ensures var c, s := AtCall(timeout, start, steps, k), After(timeout, Start(start), steps).value;
            && timeout > 0 && c.now + timeout <= s.now
            && forall id :: id in c.admissions && InBroadcast(c.admissions[id]) ==>
                 && id in s.admissions && s.admissions[id].phase.Ended?
                 && (s.admissions[id].goaway.Some? ==> s.admissions[id].goaway.value + timeout <= s.now)
  {
    CallLatchesExactly(timeout, start, steps, k);
    RunSinceCall(timeout, start, steps, k);
  }

  /**
   * If no admission was halfway in when `finished` was called, "broadcast" is every session that saw no
   * signal, and the ceiling is exact.
   */
  lemma CeilingWaitsForAllBeforeTheSignal(timeout: Time, start: Time, steps: seq<Step>, k: nat)
    requires CallsAt(timeout, start, steps, k) && !MidJoin(AtCall(timeout, start, steps, k))
    requires After(timeout, Start(start), steps).value.result == Some(Ceiling)
    ensures var s := After(timeout, Start(start), steps).value;
            && s.wait.Some? && s.wait.value.deadline == Some(Later(s.last, s.wait.value.began) + timeout)
            && Later(s.last, s.wait.value.began) + timeout <= s.now
            && forall id :: id in s.admissions && s.admissions[id].flagged ==> s.admissions[id].phase.Ended?
  {
    hide Inv;
    hide After;
    hide Since;
    RunSinceCall(timeout, start, steps, k);
    CallStateOk(timeout, start, steps, k);
    BroadcastIsAllFlagged(timeout, AtCall(timeout, start, steps, k), After(timeout, Start(start), steps).value);
  }

  lemma BroadcastIsAllFlagged(timeout: Time, c: State, s: State)
    requires Inv(timeout, c) && Inv(timeout, s) && Since(timeout, c, s) && !MidJoin(c) && s.result == Some(Ceiling)
    ensures s.wait.Some? && s.wait.value.deadline == Some(Later(s.last, s.wait.value.began) + timeout)
    ensures Later(s.last, s.wait.value.began) + timeout <= s.now
    ensures forall id :: id in s.admissions && s.admissions[id].flagged ==> s.admissions[id].phase.Ended?
  {
    forall id | id in s.admissions && s.admissions[id].flagged
      ensures s.admissions[id].phase.Ended?
    {
      assert id in c.admissions && Progressed(c.admissions[id], s.admissions[id]) && AdmissionOk(c, c.admissions[id]);
    }
  }

  lemma CallStateOk(timeout: Time, start: Time, steps: seq<Step>, k: nat)
    requires CallsAt(timeout, start, steps, k)
    ensures Inv(timeout, AtCall(timeout, start, steps, k))
  {
    PrefixRuns(timeout, Start(start), steps, k + 1);
    RunKeeps(timeout, Start(start), steps[..k + 1]);
  }

  /** Drained: every session admitted before the call has ended. */
  lemma DrainedEndsAllBeforeTheCall(timeout: Time, start: Time, steps: seq<Step>, k: nat)
    requires CallsAt(timeout, start, steps, k)
    requires After(timeout, Start(start), steps).value.result == Some(Drained)
    ensures var c, s := AtCall(timeout, start, steps, k), After(timeout, Start(start), steps).value;
            forall id :: id in c.admissions ==> id in s.admissions && s.admissions[id].phase.Ended?
  {
    RunSinceCall(timeout, start, steps, k);
  }

  /** With a zero timeout there is no deadline and the drain never ends at the ceiling. */
  lemma ZeroTimeoutHasNoCeiling(start: Time, steps: seq<Step>)
    requires After(0, Start(start), steps).Some?
    ensures var s := After(0, Start(start), steps).value;
            s.result != Some(Ceiling) && (s.wait.Some? ==> s.wait.value.deadline.None?)
  {
    RunKeeps(0, Start(start), steps);
  }

  // ---------------------------------------------------------------- the state told by the steps

  ghost predicate Flagged(s: State, id: Id) {
    id in s.admissions && s.admissions[id].flagged
  }

  ghost predicate SentAt(s: State, id: Id, sent: Time) {
    id in s.admissions && s.admissions[id].goaway == Some(sent)
  }

  lemma StepTells(timeout: Time, s: State, step: Step, id: Id, sent: Time)
    requires Inv(timeout, s) && Apply(timeout, s, step).Some?
    ensures var s' := Apply(timeout, s, step).value;
            && (s'.signalled <==> s.signalled || step == Signal)
            && s'.now == (if step.Tick? then step.later else s.now)
            && (Flagged(s', id) <==> Flagged(s, id) || (step == Check(id) && !s.signalled))
            && (SentAt(s', id, sent) <==> SentAt(s, id, sent) || step == Goaway(id, sent))
            && (InPhase(s', id, Counted) <==> (InPhase(s, id, Counted) && step != Check(id)) || step == Count(id))
            && (InPhase(s', id, Unsignalled) <==>
                (InPhase(s, id, Unsignalled) && step != Join(id)) || (step == Check(id) && !s.signalled))
  {
    hide SessionsEmpty;
    hide BroadcastEmpty;
    hide LastIsReal;
    if id in s.admissions {
      assert AdmissionOk(s, s.admissions[id]);
    }
  }

  function LastTick(start: Time, steps: seq<Step>): Time {
    if steps == [] then start
    else
      var last := steps[|steps| - 1];
      if last.Tick? then last.later else LastTick(start, steps[..|steps| - 1])
  }

  /** Session `id` read the signal before it fired. */
  ghost predicate CheckedBeforeSignal(steps: seq<Step>, id: Id) {
    exists k :: 0 <= k < |steps| && steps[k] == Check(id) && Signal !in steps[..k]
  }

  lemma CheckedLater(steps: seq<Step>, step: Step, id: Id)
    ensures CheckedBeforeSignal(steps + [step], id) <==>
            CheckedBeforeSignal(steps, id) || (step == Check(id) && Signal !in steps)
  {
    var more := steps + [step];
    assert forall k :: 0 <= k <= |steps| ==> more[..k] == steps[..k];
    assert steps[..|steps|] == steps;
    if CheckedBeforeSignal(steps, id) {
      var k :| 0 <= k < |steps| && steps[k] == Check(id) && Signal !in steps[..k];
      assert more[k] == Check(id) && Signal !in more[..k];
    }
    if step == Check(id) && Signal !in steps {
      assert more[|steps|] == Check(id) && Signal !in more[..|steps|];
    }
  }

  /**
   * What a state says is what was done: the signal has fired, the time is the last told, the sessions of
   * the broadcast are those that read the signal before it fired, and each GOAWAY time is the one sent.
   */
  lemma {:induction false} RunTells(timeout: Time, start: Time, steps: seq<Step>, id: Id, sent: Time)
    requires After(timeout, Start(start), steps).Some?
    ensures var s := After(timeout, Start(start), steps).value;
            && (s.signalled <==> Signal in steps)
            && s.now == LastTick(start, steps)
            && (Flagged(s, id) <==> CheckedBeforeSignal(steps, id))
            && (SentAt(s, id, sent) <==> Goaway(id, sent) in steps)
            && (id in s.admissions <==> Count(id) in steps)
            && (InPhase(s, id, Ended) <==> Leave(id) in steps)
  {
    hide Apply;
    hide Inv;
    hide CheckedBeforeSignal;
    if steps == [] {
      NobodyChecked(id);
    } else {
      var before, last := steps[..|steps| - 1], steps[|steps| - 1];
      assert steps == before + [last];
      RunTells(timeout, start, before, id, sent);
      RunKeeps(timeout, Start(start), before);
      StepTells(timeout, After(timeout, Start(start), before).value, last, id, sent);
      StepOpensAndEnds(timeout, After(timeout, Start(start), before).value, last, id);
      CheckedLater(before, last, id);
    }
  }

  lemma NobodyChecked(id: Id)
    ensures !CheckedBeforeSignal([], id)
  {
  }

  // ---------------------------------------------------------------- Drained and the sessions still open

  /**
   * The wait for the sessions completes exactly because, at some instant since the call, every session
   * admitted by then had ended. So a session still open when Drained is reported arrived after that instant.
   */
  lemma {:induction false} LatchedMeansWasEmpty(timeout: Time, c: State, steps: seq<Step>) returns (n: nat)
    requires c.wait.Some? && (c.wait.value.emptied <==> SessionsEmpty(c.admissions))
    requires After(timeout, c, steps).Some? && After(timeout, c, steps).value.wait.Some?
    requires After(timeout, c, steps).value.wait.value.emptied
    ensures n <= |steps| && After(timeout, c, steps[..n]).Some?
        && SessionsEmpty(After(timeout, c, steps[..n]).value.admissions)
  {
    hide Apply;
    hide SessionsEmpty;
    if steps == [] {
      n := 0;
    } else {
      var before := steps[..|steps| - 1];
      WaitStays(timeout, c, before);
      var s := After(timeout, c, before).value;
      if s.wait.value.emptied {
        n := LatchedMeansWasEmpty(timeout, c, before);
        assert before[..n] == steps[..n];
      } else {
        n := |steps|;
        assert steps[..n] == steps;
        LatchedOnlyWhenEmpty(timeout, s, steps[|steps| - 1]);
      }
    }
  }

  lemma LatchedOnlyWhenEmpty(timeout: Time, s: State, step: Step)
    requires s.wait.Some? && !s.wait.value.emptied && Apply(timeout, s, step).Some?
    ensures var s' := Apply(timeout, s, step).value;
            s'.wait.Some? && (s'.wait.value.emptied ==> SessionsEmpty(s'.admissions))
  {
  }

  lemma {:induction false} WaitStays(timeout: Time, c: State, steps: seq<Step>)
    requires c.wait.Some? && After(timeout, c, steps).Some?
    ensures After(timeout, c, steps).value.wait.Some?
  {
    if steps != [] {
      WaitStays(timeout, c, steps[..|steps| - 1]);
    }
  }

  /** From an instant with no open session, the open ones later are exactly those admitted since and not ended since. */
  lemma {:induction false} OpenOnesAreNew(timeout: Time, empty: State, steps: seq<Step>)
    requires SessionsEmpty(empty.admissions) && After(timeout, empty, steps).Some?
    ensures var s := After(timeout, empty, steps).value;
            forall id ::
              && (id in s.admissions <==> id in empty.admissions || Count(id) in steps)
              && (InPhase(s, id, Ended) <==> id in empty.admissions || Leave(id) in steps)
  {
    hide Apply;
    if steps != [] {
      var before, last := steps[..|steps| - 1], steps[|steps| - 1];
      OpenOnesAreNew(timeout, empty, before);
      var s0, s := After(timeout, empty, before).value, After(timeout, empty, steps).value;
      assert steps == before + [last];
      forall id
        ensures id in s.admissions <==> id in empty.admissions || Count(id) in steps
        ensures InPhase(s, id, Ended) <==> id in empty.admissions || Leave(id) in steps
      {
        StepOpensAndEnds(timeout, s0, last, id);
      }
    }
  }

  /** Only its own Count admits a session, and only its own Leave ends it. */
  lemma StepOpensAndEnds(timeout: Time, s: State, step: Step, id: Id)
    requires Apply(timeout, s, step).Some?
    ensures var s' := Apply(timeout, s, step).value;
            && (id in s'.admissions <==> id in s.admissions || step == Count(id))
            && (InPhase(s', id, Ended) <==> InPhase(s, id, Ended) || step == Leave(id))
  {
    hide SessionsEmpty;
    hide BroadcastEmpty;
  }

  ghost predicate IsOpen(s: State, id: Id) {
    id in s.admissions && !s.admissions[id].phase.Ended?
  }

  /**
   * What Drained means, exactly. There was an instant after the call with no session open; the sessions
   * open now are those admitted after that instant that have not ended; so the report is clean if and
   * only if every session admitted after it has ended. Sessions admitted before it do no harm.
   */
  lemma DrainedExactly(timeout: Time, start: Time, steps: seq<Step>, k: nat) returns (n: nat)
    requires CallsAt(timeout, start, steps, k)
    requires After(timeout, Start(start), steps).value.result == Some(Drained)
    ensures k < n <= |steps| && After(timeout, Start(start), steps[..n]).Some?
    ensures SessionsEmpty(After(timeout, Start(start), steps[..n]).value.admissions)
    ensures var s := After(timeout, Start(start), steps).value;
            && (forall id :: IsOpen(s, id) <==> Count(id) in steps[n..] && Leave(id) !in steps[n..])
            && (SessionsEmpty(s.admissions) <==> forall id :: Count(id) in steps[n..] ==> Leave(id) in steps[n..])
  {
    hide After;
    hide Inv;
    hide Since;
    var init := Start(start);
    var c, rest := AtCall(timeout, start, steps, k), steps[k + 1..];
    DrainedHasLatched(timeout, start, steps, k);
    CallLatchesExactly(timeout, start, steps, k);
    PrefixRuns(timeout, init, steps, k + 1);
    var m := LatchedMeansWasEmpty(timeout, c, rest);
    n := k + 1 + m;
    assert steps[..n] == steps[..k + 1] + rest[..m];
    AfterConcat(timeout, init, steps[..k + 1], rest[..m]);
    PrefixRuns(timeout, init, steps, n);
    OpenOnesAreNew(timeout, After(timeout, init, steps[..n]).value, steps[n..]);
    AdmittedOnce(timeout, After(timeout, init, steps[..n]).value, steps[n..]);
    var s := After(timeout, init, steps).value;
    assert forall id :: id in s.admissions ==> (s.admissions[id].phase.Ended? <==> InPhase(s, id, Ended));
  }

  /** A session is admitted at most once, and only a session that was not there. */
  lemma {:induction false} AdmittedOnce(timeout: Time, s: State, steps: seq<Step>)
    requires After(timeout, s, steps).Some?
    ensures forall id :: Count(id) in steps ==> id !in s.admissions
    ensures forall id :: id in s.admissions ==> id in After(timeout, s, steps).value.admissions
  {
    if steps != [] {
      AdmittedOnce(timeout, s, steps[..|steps| - 1]);
      assert steps == steps[..|steps| - 1] + [steps[|steps| - 1]];
    }
  }

  lemma DrainedHasLatched(timeout: Time, start: Time, steps: seq<Step>, k: nat)
    requires CallsAt(timeout, start, steps, k)
    requires After(timeout, Start(start), steps).value.result == Some(Drained)
    ensures var s := After(timeout, Start(start), steps).value; s.wait.Some? && s.wait.value.emptied
  {
    RunKeeps(timeout, Start(start), steps);
  }

  /** In particular, if no session is admitted after the call, Drained comes only with none open. */
  lemma DrainedWithoutArrivalsIsEmpty(timeout: Time, start: Time, steps: seq<Step>, k: nat)
    requires CallsAt(timeout, start, steps, k)
    requires After(timeout, Start(start), steps).value.result == Some(Drained)
    requires forall id :: Count(id) !in steps[k + 1..]
    ensures SessionsEmpty(After(timeout, Start(start), steps).value.admissions)
  {
    hide After;
    var n := DrainedExactly(timeout, start, steps, k);
    forall id
      ensures Count(id) !in steps[n..]
    {
      assert steps[n..] == steps[k + 1..][n - k - 1..];
      assert Count(id) !in steps[k + 1..];
    }
  }

  lemma CallLatchesExactly(timeout: Time, start: Time, steps: seq<Step>, k: nat)
    requires CallsAt(timeout, start, steps, k)
    ensures var c := AtCall(timeout, start, steps, k);
            && c.wait.Some? && c.wait.value.began == c.now
            && (c.wait.value.emptied <==> SessionsEmpty(c.admissions))
            && (c.wait.value.redirected <==> BroadcastEmpty(c.admissions))
  {
    PrefixRuns(timeout, Start(start), steps, k + 1);
    assert steps[..k + 1][..k] == steps[..k];
  }

  lemma AfterOne(timeout: Time, s: State, steps: seq<Step>, step: Step)
    ensures After(timeout, s, steps + [step]) ==
            if After(timeout, s, steps).None? then None else Apply(timeout, After(timeout, s, steps).value, step)
  {
    assert (steps + [step])[..|steps|] == steps;
  }

  /** Any session admitted between the empty instant and the report is still open when Drained is reported. */
  lemma DrainedCanLeaveASessionOpen(timeout: Time, s: State, id: Id)
    requires Waiting(s) && s.wait.value.emptied && id !in s.admissions
    ensures var end := After(timeout, s, [] + [Count(id)] + [Report(Drained)]);
            end.Some? && end.value.result == Some(Drained) && InPhase(end.value, id, Counted)
  {
    AfterOne(timeout, s, [], Count(id));
    AfterOne(timeout, s, [] + [Count(id)], Report(Drained));
  }

  function Holders(s: State): set<Id> {
    set h | h in s.admissions && HoldsBroadcast(s.admissions[h])
  }

  /** The sessions of the broadcast can all end while one admission stays halfway in. */
  lemma {:induction false} BroadcastCanEnd(timeout: Time, s: State, id: Id) returns (steps: seq<Step>)
    requires Inv(timeout, s) && Waiting(s) && s.wait.value.deadline.None? && InPhase(s, id, Unsignalled)
    ensures After(timeout, s, steps).Some?
    ensures var end := After(timeout, s, steps).value;
            && Inv(timeout, end) && Waiting(end) && end.wait.value.redirected && end.wait.value.deadline.None?
            && InPhase(end, id, Unsignalled)
    decreases Holders(s)
  {
    if BroadcastEmpty(s.admissions) {
      steps := [];
    } else {
      var h :| h in s.admissions && HoldsBroadcast(s.admissions[h]);
      StepKeeps(timeout, s, Leave(h));
      var s1 := Apply(timeout, s, Leave(h)).value;
      assert h in Holders(s) && h !in Holders(s1) && Holders(s1) <= Holders(s);
      var rest := BroadcastCanEnd(timeout, s1, id);
      AfterOne(timeout, s, [], Leave(h));
      AfterConcat(timeout, s, [] + [Leave(h)], rest);
      steps := [] + [Leave(h)] + rest;
    }
  }

  /**
   * The condition of CeilingWaitsForAllBeforeTheSignal is needed in every case: from any call that
   * finds an admission halfway in, some continuation reports Ceiling with that session still open.
   */
  lemma MidJoinCanOutliveTheCeiling(timeout: Time, c: State, id: Id) returns (steps: seq<Step>)
    requires Inv(timeout, c) && Waiting(c) && c.wait.value.deadline.None? && InPhase(c, id, Unsignalled) && timeout > 0
    ensures After(timeout, c, steps).Some?
    ensures var end := After(timeout, c, steps).value;
            end.result == Some(Ceiling) && InPhase(end, id, Serving) && end.admissions[id].flagged
  {
    hide After;
    var gone := BroadcastCanEnd(timeout, c, id);
    var s := After(timeout, c, gone).value;
    var deadline := Later(s.last, s.wait.value.began) + timeout;
    var later := if deadline < s.now then s.now else deadline;
    assert AdmissionOk(s, s.admissions[id]);
    AfterOne(timeout, c, gone, Join(id));
    AfterOne(timeout, c, gone + [Join(id)], Arm);
    AfterOne(timeout, c, gone + [Join(id)] + [Arm], Tick(later));
    steps := gone + [Join(id)] + [Arm] + [Tick(later)] + [Report(Ceiling)];
    AfterOne(timeout, c, gone + [Join(id)] + [Arm] + [Tick(later)], Report(Ceiling));
  }

  // ---------------------------------------------------------------- arrivals cannot hold the drain open

  predicate Touches(step: Step, late: set<Id>) {
    match step
    case Count(id) => id in late
    case Check(id) => id in late
    case Join(id) => id in late
    case Goaway(id, _) => id in late
    case Leave(id) => id in late
    case _ => false
  }

  /** The run as it would have been without those sessions. */
  function Without(steps: seq<Step>, late: set<Id>): seq<Step> {
    if steps == [] then []
    else
      var before, last := Without(steps[..|steps| - 1], late), steps[|steps| - 1];
      if Touches(last, late) then before else before + [last]
  }

  /** Sessions in `late` came after the signal. */
  ghost predicate Arrivals(s: State, late: set<Id>) {
    forall id :: id in late && id in s.admissions ==> !s.admissions[id].flagged
  }

  /** Two states that differ only in the late sessions and, possibly, in an earlier empty instant without them. */
  ghost predicate Twin(a: State, b: State, late: set<Id>) {
    && b.now == a.now && b.signalled == a.signalled && b.last == a.last && b.result == a.result
    && b.admissions == a.admissions - late
    && (a.wait.Some? <==> b.wait.Some?)
    && (a.wait.Some? ==>
          var x, y := a.wait.value, b.wait.value;
          y.began == x.began && y.redirected == x.redirected && y.deadline == x.deadline && (x.emptied ==> y.emptied))
  }

  lemma TwinTrackers(a: State, b: State, late: set<Id>)
    requires Twin(a, b, late) && Arrivals(a, late)
    ensures SessionsEmpty(a.admissions) ==> SessionsEmpty(b.admissions)
    ensures BroadcastEmpty(a.admissions) <==> BroadcastEmpty(b.admissions)
  {
    if BroadcastEmpty(b.admissions) {
      forall id | id in a.admissions
        ensures !HoldsBroadcast(a.admissions[id])
      {
        if id !in late {
          assert id in b.admissions;
        }
      }
    }
  }

  lemma LateStepUnseen(timeout: Time, a: State, b: State, late: set<Id>, step: Step)
    requires Inv(timeout, a) && Inv(timeout, b) && Twin(a, b, late) && Touches(step, late)
        && Apply(timeout, a, step).Some?
    requires Arrivals(a, late) && Arrivals(Apply(timeout, a, step).value, late)
    ensures Twin(Apply(timeout, a, step).value, b, late)
  {
    TwinTrackers(a, b, late);
    var a' := Apply(timeout, a, step).value;
    assert a'.admissions - late == a.admissions - late;
    if step.Leave? {
      var a1 := Put(a, step.id, a.admissions[step.id].(phase := Ended));
      TwinTrackers(a1, b, late);
    }
  }

  lemma PutFollows(a: State, b: State, late: set<Id>, id: Id, x: Admission)
    requires Twin(a, b, late) && id !in late
    ensures Twin(Put(a, id, x), Put(b, id, x), late)
    ensures InPhase(a, id, x.phase) <==> InPhase(b, id, x.phase)
    ensures id in a.admissions <==> id in b.admissions
    ensures id in a.admissions ==> b.admissions[id] == a.admissions[id]
  {
    assert b.admissions[id := x] == a.admissions[id := x] - late;
  }

  lemma LeaveFollows(timeout: Time, a: State, b: State, late: set<Id>, id: Id)
    requires Twin(a, b, late) && id !in late && InPhase(a, id, Serving) && Arrivals(a, late)
    ensures InPhase(b, id, Serving)
    ensures Twin(Apply(timeout, a, Leave(id)).value, Apply(timeout, b, Leave(id)).value, late)
  {
    var gone := a.admissions[id].(phase := Ended);
    PutFollows(a, b, late, id, gone);
    TwinTrackers(Put(a, id, gone), Put(b, id, gone), late);
  }

  lemma OtherStepFollows(timeout: Time, a: State, b: State, late: set<Id>, step: Step)
    requires Twin(a, b, late) && !Touches(step, late) && Apply(timeout, a, step).Some? && Arrivals(a, late)
    ensures Apply(timeout, b, step).Some? && Twin(Apply(timeout, a, step).value, Apply(timeout, b, step).value, late)
  {
    hide SessionsEmpty;
    hide BroadcastEmpty;
    hide Arrivals;
    match step {
      case Count(id) => PutFollows(a, b, late, id, Admission(Counted, false, None));
      case Check(id) => PutFollows(a, b, late, id,
          Admission(if a.signalled then Serving else Unsignalled, !a.signalled, None));
      case Join(id) => PutFollows(a, b, late, id, a.admissions[id].(phase := Serving));
      case Goaway(id, sent) => PutFollows(a, b, late, id, a.admissions[id].(goaway := Some(sent)));
      case Leave(id) => LeaveFollows(timeout, a, b, late, id);
      case _ => TwinTrackers(a, b, late);
    }
  }

  lemma FlagStays(timeout: Time, s: State, step: Step, late: set<Id>)
    requires Inv(timeout, s) && Apply(timeout, s, step).Some? && Arrivals(Apply(timeout, s, step).value, late)
    ensures Arrivals(s, late)
  {
    forall id | id in late && id in s.admissions
      ensures !s.admissions[id].flagged
    {
      assert AdmissionOk(s, s.admissions[id]);
      assert id in Apply(timeout, s, step).value.admissions;
    }
  }

  /**
   * Sessions that arrive during the drain are invisible to the ceiling: leave all their steps out of
   * any run and the rest is still a run, with the same clock, the same deadline and the same report.
   */
  lemma {:induction false} ArrivalsCannotMoveTheCeiling(timeout: Time, start: Time, steps: seq<Step>, late: set<Id>)
    requires After(timeout, Start(start), steps).Some? && Arrivals(After(timeout, Start(start), steps).value, late)
    ensures After(timeout, Start(start), Without(steps, late)).Some?
    ensures Twin(After(timeout, Start(start), steps).value, After(timeout, Start(start), Without(steps, late)).value,
        late)
  {
    var init := Start(start);
    if steps != [] {
      var before, last := steps[..|steps| - 1], steps[|steps| - 1];
      var a := After(timeout, init, before).value;
      RunKeeps(timeout, init, before);
      FlagStays(timeout, a, last, late);
      ArrivalsCannotMoveTheCeiling(timeout, start, before, late);
      var b := After(timeout, init, Without(before, late)).value;
      RunKeeps(timeout, init, Without(before, late));
      if Touches(last, late) {
        LateStepUnseen(timeout, a, b, late, last);
      } else {
        OtherStepFollows(timeout, a, b, late, last);
        AfterOne(timeout, init, Without(before, late), last);
      }
    }
  }

  // ---------------------------------------------------------------- the drain does end

  /** Once the broadcast has ended, the drain can be over by the deadline, however many sessions are open. */
  lemma CeilingIsReached(timeout: Time, s: State) returns (steps: seq<Step>)
    requires Inv(timeout, s) && Waiting(s) && timeout > 0 && BroadcastEmpty(s.admissions)
    ensures After(timeout, s, steps).Some?
    ensures var end := After(timeout, s, steps).value;
            && end.result == Some(Ceiling) && end.admissions == s.admissions && end.wait.Some?
            && end.wait.value.deadline.Some?
            && end.now == (if end.wait.value.deadline.value < s.now then s.now else end.wait.value.deadline.value)
  {
    hide After;
    hide Inv;
    hide BroadcastEmpty;
    var arm := Armed(timeout, s);
    var armed := After(timeout, s, arm).value;
    var deadline := armed.wait.value.deadline.value;
    var later := if deadline < s.now then s.now else deadline;
    AfterOne(timeout, s, arm, Tick(later));
    AfterOne(timeout, s, arm + [Tick(later)], Report(Ceiling));
    steps := arm + [Tick(later)] + [Report(Ceiling)];
  }

  lemma Armed(timeout: Time, s: State) returns (steps: seq<Step>)
    requires Inv(timeout, s) && Waiting(s) && timeout > 0 && BroadcastEmpty(s.admissions)
    ensures After(timeout, s, steps).Some?
    ensures var armed := After(timeout, s, steps).value;
            Waiting(armed) && armed.wait.value.deadline.Some? && armed.now == s.now && armed.admissions == s.admissions
  {
    if s.wait.value.deadline.Some? {
      steps := [];
    } else {
      AfterOne(timeout, s, [], Arm);
      steps := [] + [Arm];
    }
  }

  /** Nothing that happens later takes the ceiling away again, or moves a deadline that is set. */
  lemma {:induction false} DeadlineIsFinal(timeout: Time, s: State, steps: seq<Step>)
    requires s.wait.Some? && s.wait.value.deadline.Some? && After(timeout, s, steps).Some?
    ensures var end := After(timeout, s, steps).value;
            && end.wait.Some? && end.wait.value.deadline == s.wait.value.deadline && s.now <= end.now
            && (s.wait.value.deadline.value <= s.now && end.result.None? ==> Apply(timeout, end, Report(Ceiling)).Some?)
  {
    if steps != [] {
      DeadlineIsFinal(timeout, s, steps[..|steps| - 1]);
    }
  }
}
