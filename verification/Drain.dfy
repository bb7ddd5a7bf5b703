/**
 * The draft-19 drain: sessions are admitted, a signal starts the drain, each session is sent a GOAWAY
 * and ends, and one call to `finished` reports why the drain is over. Every access to the signal, the
 * two task trackers and the GOAWAY clock is a step, in any interleaving; time passes between steps.
 *
 * A tracker's `wait` is a latch: once the closed tracker has been empty, the wait completes even if
 * a token is taken again before it is looked at.
 */
module DrainSpec {
  import opened Options

  type Id = nat
  /** Milliseconds. */
  type Time = nat

  /** `admit` takes a session token, reads the signal, and if it has not fired takes a broadcast token. */
  datatype Phase = Counted | Unsignalled | Serving | Ended

  /** `flagged`: the signal had not fired when it was read. */
  datatype Admission = Admission(phase: Phase, flagged: bool, goaway: Option<Time>)

  datatype End = Drained | Ceiling

  /** A call of `finished`: what its two waits have latched, and the deadline once it is computed. */
  datatype Wait = Wait(began: Time, emptied: bool, redirected: bool, deadline: Option<Time>)

  datatype State = State(
    now: Time, signalled: bool, admissions: map<Id, Admission>, last: Option<Time>, wait: Option<Wait>,
        result: Option<End>)

  datatype Step =
    | Tick(later: Time)
    | Signal
    | Count(id: Id)
    | Check(id: Id)
    | Join(id: Id)
    | Goaway(id: Id, sent: Time)
    | Leave(id: Id)
    | Call
    | Arm
    | Report(end: End)

  function Start(now: Time): State {
    State(now, false, map[], None, None, None)
  }

  predicate HoldsBroadcast(a: Admission) {
    a.flagged && a.phase.Serving?
  }

  predicate SessionsEmpty(admissions: map<Id, Admission>) {
    forall id :: id in admissions ==> admissions[id].phase.Ended?
  }

  predicate BroadcastEmpty(admissions: map<Id, Admission>) {
    forall id :: id in admissions ==> !HoldsBroadcast(admissions[id])
  }

  predicate InPhase(s: State, id: Id, phase: Phase) {
    id in s.admissions && s.admissions[id].phase == phase
  }

  function Later(last: Option<Time>, t: Time): Time {
    if last.Some? && last.value > t then last.value else t
  }

  function Put(s: State, id: Id, a: Admission): State {
    s.(admissions := s.admissions[id := a])
  }

  /** A token was dropped: the waits of a running call notice an empty tracker. */
  function Latch(s: State): State {
    if s.wait.None? then s
    else
      var wait := s.wait.value;
      s.(wait := Some(wait.(
        emptied := wait.emptied || SessionsEmpty(s.admissions),
        redirected := wait.redirected || BroadcastEmpty(s.admissions))))
  }

  predicate Waiting(s: State) {
    s.wait.Some? && s.result.None?
  }

  /** One step, or None where it cannot be taken. */
  function Apply(timeout: Time, s: State, step: Step): Option<State> {
    match step
    case Tick(later) => if s.now <= later then Some(s.(now := later)) else None
    case Signal => Some(s.(signalled := true))
    case Count(id) => if id in s.admissions then None else Some(Put(s, id, Admission(Counted, false, None)))
    case Check(id) =>
      if !InPhase(s, id, Counted) then None
      else if s.signalled then Some(Put(s, id, Admission(Serving, false, None)))
      else Some(Put(s, id, Admission(Unsignalled, true, None)))
    case Join(id) => if InPhase(s, id, Unsignalled) then Some(Put(s, id, s.admissions[id].(phase := Serving))) else None
    case Goaway(id, sent) =>
      if !InPhase(s, id, Serving) || !s.signalled || s.admissions[id].goaway.Some? || s.now < sent then None
      else
        var noted := Put(s, id, s.admissions[id].(goaway := Some(sent)));
        Some(if s.admissions[id].flagged then noted.(last := Some(Later(s.last, sent))) else noted)
    case Leave(id) => if InPhase(s, id, Serving) then Some(Latch(Put(s, id, s.admissions[id].(phase := Ended))))
        else None
    case Call =>
      if !s.signalled || s.wait.Some? then None
      else Some(s.(wait := Some(Wait(s.now, SessionsEmpty(s.admissions), BroadcastEmpty(s.admissions), None))))
    case Arm =>
      if !Waiting(s) || !s.wait.value.redirected || timeout == 0 || s.wait.value.deadline.Some? then None
      else Some(s.(wait := Some(s.wait.value.(deadline := Some(Later(s.last, s.wait.value.began) + timeout)))))
    case Report(Drained) => if Waiting(s) && s.wait.value.emptied then Some(s.(result := Some(Drained))) else None
    case Report(Ceiling) =>
      if Waiting(s) && s.wait.value.deadline.Some? && s.wait.value.deadline.value <= s.now
          then Some(s.(result := Some(Ceiling))) else None
  }

  function After(timeout: Time, s: State, steps: seq<Step>): Option<State> {
    if steps == [] then Some(s)
    else
      var before := After(timeout, s, steps[..|steps| - 1]);
      if before.None? then None else Apply(timeout, before.value, steps[|steps| - 1])
  }

  lemma {:induction false} AfterConcat(timeout: Time, s: State, first: seq<Step>, more: seq<Step>)
    requires After(timeout, s, first).Some?
    ensures After(timeout, s, first + more) == After(timeout, After(timeout, s, first).value, more)
  {
    if more == [] {
      assert first + more == first;
    } else {
      var n := |more| - 1;
      assert (first + more)[..|first + more| - 1] == first + more[..n];
      AfterConcat(timeout, s, first, more[..n]);
    }
  }

  // ---------------------------------------------------------------- what every reachable state keeps

  ghost predicate AdmissionOk(s: State, a: Admission) {
    && (a.phase.Counted? ==> !a.flagged)
    && (a.phase.Unsignalled? ==> a.flagged)
    && (a.goaway.Some? ==> s.signalled && a.goaway.value <= s.now && (a.phase.Serving? || a.phase.Ended?))
    && (a.goaway.Some? && a.flagged ==> s.last.Some? && a.goaway.value <= s.last.value)
  }

  /** The clock is the latest GOAWAY of a session whose admission saw no signal. */
  ghost predicate LastIsReal(s: State) {
    s.last.Some? ==> exists id :: id in s.admissions && s.admissions[id].flagged && s.admissions[id].goaway == s.last
  }

  ghost predicate WaitOk(timeout: Time, s: State, wait: Wait) {
    && s.signalled && wait.began <= s.now
    && (SessionsEmpty(s.admissions) ==> wait.emptied)
    && (BroadcastEmpty(s.admissions) ==> wait.redirected)
    && (wait.deadline.Some? ==>
          && wait.redirected && timeout > 0
          && wait.began + timeout <= wait.deadline.value <= Later(s.last, wait.began) + timeout)
  }

  ghost predicate Inv(timeout: Time, s: State) {
    && (forall id :: id in s.admissions ==> AdmissionOk(s, s.admissions[id]))
    && LastIsReal(s)
    && (s.wait.Some? ==> WaitOk(timeout, s, s.wait.value))
    && (s.result.Some? ==> s.wait.Some?)
    && (s.result == Some(Drained) ==> s.wait.value.emptied)
    && (s.result == Some(Ceiling) ==> s.wait.value.deadline.Some? && s.wait.value.deadline.value <= s.now)
  }

  lemma PutKeeps(timeout: Time, s: State, id: Id, a: Admission)
    requires Inv(timeout, s) && AdmissionOk(s, a)
    requires id in s.admissions ==>
        (s.admissions[id].flagged ==>
            a.flagged && (s.admissions[id].goaway.Some? ==> a.goaway == s.admissions[id].goaway))
    requires !a.phase.Ended?
    requires id in s.admissions && HoldsBroadcast(s.admissions[id]) ==> HoldsBroadcast(a)
    ensures Inv(timeout, Put(s, id, a))
  {
    var s' := Put(s, id, a);
    if s.last.Some? {
      var at :| at in s.admissions && s.admissions[at].flagged && s.admissions[at].goaway == s.last;
      assert s'.admissions[at].flagged && s'.admissions[at].goaway == s'.last;
    }
    assert s'.admissions[id] == a;
    if BroadcastEmpty(s'.admissions) {
      forall other | other in s.admissions
        ensures !HoldsBroadcast(s.admissions[other])
      {
        assert !HoldsBroadcast(s'.admissions[other]);
      }
    }
  }

  lemma GoawayKeeps(timeout: Time, s: State, id: Id, sent: Time)
    requires Inv(timeout, s) && Apply(timeout, s, Goaway(id, sent)).Some?
    ensures Inv(timeout, Apply(timeout, s, Goaway(id, sent)).value)
  {
    var a := s.admissions[id];
    if !a.flagged {
      PutKeeps(timeout, s, id, a.(goaway := Some(sent)));
    } else {
      var s' := Put(s, id, a.(goaway := Some(sent))).(last := Some(Later(s.last, sent)));
      if s'.last.value == sent {
        assert s'.admissions[id].goaway == s'.last;
      } else {
        var at :| at in s.admissions && s.admissions[at].flagged && s.admissions[at].goaway == s.last;
        assert s'.admissions[at].flagged && s'.admissions[at].goaway == s'.last;
      }
      assert HoldsBroadcast(s'.admissions[id]);
      forall other | other in s'.admissions
        ensures AdmissionOk(s', s'.admissions[other])
      {
        assert AdmissionOk(s, s.admissions[other]);
      }
    }
  }

  lemma LeaveKeeps(timeout: Time, s: State, id: Id)
    requires Inv(timeout, s) && InPhase(s, id, Serving)
    ensures Inv(timeout, Apply(timeout, s, Leave(id)).value)
  {
    var s' := Apply(timeout, s, Leave(id)).value;
    if s.last.Some? {
      var at :| at in s.admissions && s.admissions[at].flagged && s.admissions[at].goaway == s.last;
      assert s'.admissions[at].flagged && s'.admissions[at].goaway == s'.last;
    }
    forall other | other in s'.admissions
      ensures AdmissionOk(s', s'.admissions[other])
    {
      assert AdmissionOk(s, s.admissions[other]);
    }
  }

  lemma StepKeeps(timeout: Time, s: State, step: Step)
    requires Inv(timeout, s) && Apply(timeout, s, step).Some?
    ensures Inv(timeout, Apply(timeout, s, step).value)
  {
    var s' := Apply(timeout, s, step).value;
    match step {
      case Count(id) => PutKeeps(timeout, s, id, Admission(Counted, false, None));
      case Check(id) =>
        assert AdmissionOk(s, s.admissions[id]);
        PutKeeps(timeout, s, id, s'.admissions[id]);
      case Join(id) =>
        assert AdmissionOk(s, s.admissions[id]);
        PutKeeps(timeout, s, id, s'.admissions[id]);
      case Goaway(id, sent) => GoawayKeeps(timeout, s, id, sent);
      case Leave(id) => LeaveKeeps(timeout, s, id);
      case _ =>
        assert s'.admissions == s.admissions && s'.last == s.last;
        forall id | id in s'.admissions
          ensures AdmissionOk(s', s'.admissions[id])
        {
          assert AdmissionOk(s, s.admissions[id]);
        }
    }
  }

  lemma {:induction false} RunKeeps(timeout: Time, s: State, steps: seq<Step>)
    requires Inv(timeout, s) && After(timeout, s, steps).Some?
    ensures Inv(timeout, After(timeout, s, steps).value)
  {
    if steps != [] {
      RunKeeps(timeout, s, steps[..|steps| - 1]);
      StepKeeps(timeout, After(timeout, s, steps[..|steps| - 1]).value, steps[|steps| - 1]);
    }
  }
}
