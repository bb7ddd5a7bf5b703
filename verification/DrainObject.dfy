/**
 * The drain as the relay holds it: two token counters, the signal, the GOAWAY clock and the call that
 * waits. The trackers only count; the proofs tie each count to the sessions that hold a token.
 */
module DrainObject {
  import opened Options
  import opened DrainSpec
  import opened DrainRuns

  function Open(admissions: map<Id, Admission>): set<Id> {
    set id | id in admissions && !admissions[id].phase.Ended?
  }

  function Redirecting(admissions: map<Id, Admission>): set<Id> {
    set id | id in admissions && HoldsBroadcast(admissions[id])
  }

  lemma CountsTellEmptiness(admissions: map<Id, Admission>)
    ensures |Open(admissions)| == 0 <==> SessionsEmpty(admissions)
    ensures |Redirecting(admissions)| == 0 <==> BroadcastEmpty(admissions)
  {
    if SessionsEmpty(admissions) {
      assert Open(admissions) == {};
    } else {
      var id :| id in admissions && !admissions[id].phase.Ended?;
      assert id in Open(admissions);
    }
    if BroadcastEmpty(admissions) {
      assert Redirecting(admissions) == {};
    } else {
      var id :| id in admissions && HoldsBroadcast(admissions[id]);
      assert id in Redirecting(admissions);
    }
  }

  lemma CountsAfterAdmit(admissions: map<Id, Admission>, id: Id, flagged: bool)
    requires id !in admissions
    ensures var after := admissions[id := Admission(Serving, flagged, None)];
            && |Open(after)| == |Open(admissions)| + 1
            && |Redirecting(after)| == |Redirecting(admissions)| + if flagged then 1 else 0
  {
    var after := admissions[id := Admission(Serving, flagged, None)];
    assert id !in Open(admissions) && Open(after) == Open(admissions) + {id};
    if flagged {
      assert id !in Redirecting(admissions) && Redirecting(after) == Redirecting(admissions) + {id};
    } else {
      assert Redirecting(after) == Redirecting(admissions);
    }
  }

  lemma CountsAfterRelease(admissions: map<Id, Admission>, id: Id)
    requires id in admissions && admissions[id].phase.Serving?
    ensures var after := admissions[id := admissions[id].(phase := Ended)];
            && |Open(after)| == |Open(admissions)| - 1
            && |Redirecting(after)| == |Redirecting(admissions)| - if admissions[id].flagged then 1 else 0
  {
    var after := admissions[id := admissions[id].(phase := Ended)];
    assert id in Open(admissions) && Open(after) == Open(admissions) - {id};
    if admissions[id].flagged {
      assert id in Redirecting(admissions) && Redirecting(after) == Redirecting(admissions) - {id};
    } else {
      assert Redirecting(after) == Redirecting(admissions);
    }
  }

  lemma AfterNothing(timeout: Time, s: State)
    ensures After(timeout, s, []) == Some(s)
  {
  }

  /** The steps of one undisturbed `admit`. */
  function AdmitSteps(id: Id, signalled: bool): seq<Step> {
    [] + [Count(id)] + [Check(id)] + if signalled then [] else [Join(id)]
  }

  lemma AdmitAtOnce(timeout: Time, s: State, id: Id)
    requires id !in s.admissions
    ensures After(timeout, s, AdmitSteps(id, s.signalled)) == Some(Put(s, id, Admission(Serving, !s.signalled, None)))
  {
    AfterOne(timeout, s, [], Count(id));
    AfterOne(timeout, s, [] + [Count(id)], Check(id));
    var s1 := Put(s, id, Admission(Counted, false, None));
    if s.signalled {
      assert AdmitSteps(id, true) == [] + [Count(id)] + [Check(id)];
      assert s1.admissions[id := Admission(Serving, false, None)]
          == s.admissions[id := Admission(Serving, false, None)];
    } else {
      AfterOne(timeout, s, [] + [Count(id)] + [Check(id)], Join(id));
      assert s1.admissions[id := Admission(Unsignalled, true, None)][id := Admission(Serving, true, None)]
          == s.admissions[id := Admission(Serving, true, None)];
    }
  }

  class Draft19Drain {
    const timeout: Time
    var clock: Time
    var signalled: bool
    var sessions: nat
    var broadcast: nat
    var last: Option<Time>
    var admissions: map<Id, Admission>
    var wait: Option<Wait>
    var result: Option<End>

    ghost function View(): State
      reads this
    {
      State(clock, signalled, admissions, last, wait, result)
    }

    ghost predicate Valid()
      reads this
    {
      && sessions == |Open(admissions)| && broadcast == |Redirecting(admissions)|
      && Inv(timeout, View())
    }

    constructor (timeout: Time, now: Time)
      ensures Valid() && View() == Start(now) && this.timeout == timeout
    {
      this.timeout := timeout;
      clock, signalled, sessions, broadcast, last := now, false, 0, 0, None;
      admissions, wait, result := map[], None, None;
    }

    method Admit(id: Id)
      requires Valid() && id !in admissions
      modifies this
      ensures Valid() && After(timeout, old(View()), AdmitSteps(id, old(signalled))) == Some(View())
    {
      hide Inv;
      hide After;
      hide Open;
      hide Redirecting;
      AdmitAtOnce(timeout, View(), id);
      RunKeeps(timeout, View(), AdmitSteps(id, signalled));
      CountsAfterAdmit(admissions, id, !signalled);
      sessions := sessions + 1;
      if !signalled {
        broadcast := broadcast + 1;
      }
      admissions := admissions[id := Admission(Serving, !signalled, None)];
    }

    /** Only a session of the broadcast moves the clock, and only forwards. */
    method GoawaySent(id: Id, sent: Time)
      requires Valid() && InPhase(View(), id, Serving) && signalled && admissions[id].goaway.None? && sent <= clock
      modifies this
      ensures Valid() && Apply(timeout, old(View()), Goaway(id, sent)) == Some(View())
    {
      hide Inv;
      StepKeeps(timeout, View(), Goaway(id, sent));
      ghost var before := admissions;
      if admissions[id].flagged {
        last := Some(if last.Some? && last.value > sent then last.value else sent);
      }
      admissions := admissions[id := admissions[id].(goaway := Some(sent))];
      assert Open(admissions) == Open(before) && Redirecting(admissions) == Redirecting(before);
    }

    /** The session ends and drops its tokens; a count that reaches zero wakes the wait on it. */
    method Release(id: Id)
      requires Valid() && InPhase(View(), id, Serving)
      modifies this
      ensures Valid() && Apply(timeout, old(View()), Leave(id)) == Some(View())
    {
      hide Inv;
      hide Open;
      hide Redirecting;
      StepKeeps(timeout, View(), Leave(id));
      CountsAfterRelease(admissions, id);
      var flagged := admissions[id].flagged;
      admissions := admissions[id := admissions[id].(phase := Ended)];
      sessions := sessions - 1;
      if flagged {
        broadcast := broadcast - 1;
      }
      CountsTellEmptiness(admissions);
      if wait.Some? {
        wait := Some(wait.value.(
          emptied := wait.value.emptied || sessions == 0,
          redirected := wait.value.redirected || broadcast == 0));
      }
    }

    /** `finished` up to its first suspension. */
    method BeginFinished()
      requires Valid() && signalled && wait.None?
      modifies this
      ensures Valid() && Apply(timeout, old(View()), Call) == Some(View())
    {
      StepKeeps(timeout, View(), Call);
      CountsTellEmptiness(admissions);
      wait := Some(Wait(clock, sessions == 0, broadcast == 0, None));
    }

    /** The ceiling branch of the select: compute the deadline once the broadcast has ended, then wait for it. */
    method PollCeiling() returns (done: bool, ghost steps: seq<Step>)
      requires Valid() && Waiting(View())
      modifies this`wait, this`result
      ensures Valid() && After(timeout, old(View()), steps) == Some(View())
      ensures wait.Some? && wait.value.emptied == old(wait.value.emptied)
          && wait.value.redirected == old(wait.value.redirected)
      ensures wait.value.deadline.None? ==> timeout == 0 || !wait.value.redirected
      ensures done <==> wait.value.deadline.Some? && wait.value.deadline.value <= clock
      ensures result == if done then Some(Ceiling) else None
    {
      hide Inv;
      hide After;
      hide Open;
      hide Redirecting;
      AfterNothing(timeout, View());
      steps := [];
      if wait.value.redirected && timeout != 0 && wait.value.deadline.None? {
        AfterOne(timeout, View(), [], Arm);
        steps := [] + [Arm];
        var sent := if last.Some? && last.value > wait.value.began then last.value else wait.value.began;
        wait := Some(wait.value.(deadline := Some(sent + timeout)));
      }
      done := wait.value.deadline.Some? && wait.value.deadline.value <= clock;
      if done {
        AfterOne(timeout, old(View()), steps, Report(Ceiling));
        steps := steps + [Report(Ceiling)];
        result := Some(Ceiling);
      }
      RunKeeps(timeout, old(View()), steps);
    }

    /** The sessions branch of the select. */
    method PollSessions() returns (done: bool, ghost steps: seq<Step>)
      requires Valid() && Waiting(View())
      modifies this`result
      ensures Valid() && After(timeout, old(View()), steps) == Some(View())
      ensures done == wait.value.emptied && result == if done then Some(Drained) else None
    {
      hide Inv;
      hide After;
      hide Open;
      hide Redirecting;
      AfterNothing(timeout, View());
      steps := [];
      done := wait.value.emptied;
      if done {
        AfterOne(timeout, View(), [], Report(Drained));
        steps := [] + [Report(Drained)];
        result := Some(Drained);
      }
      RunKeeps(timeout, old(View()), steps);
    }

    /**
     * One poll of `finished`. The two branches of the select are looked at in either order; a branch
     * that is found complete wins. Nothing is reported exactly while neither is.
     */
    method Poll(ceilingFirst: bool) returns (end: Option<End>, ghost steps: seq<Step>)
      requires Valid() && Waiting(View())
      modifies this`wait, this`result
      ensures Valid() && After(timeout, old(View()), steps) == Some(View())
      ensures end == result && wait.Some?
      ensures end.None? <==>
          !old(wait.value.emptied) && (wait.value.deadline.Some? ==> clock < wait.value.deadline.value)
      ensures wait.value.deadline.None? ==> timeout == 0 || !wait.value.redirected || end == Some(Drained)
    {
      hide Valid;
      hide After;
      ghost var before := View();
      var done;
      ghost var first, second;
      if ceilingFirst {
        done, first := PollCeiling();
      } else {
        done, first := PollSessions();
      }
      steps := first;
      if !done {
        if ceilingFirst {
          done, second := PollSessions();
        } else {
          done, second := PollCeiling();
        }
        AfterConcat(timeout, before, first, second);
        steps := first + second;
      }
      end := result;
    }
  }
}
