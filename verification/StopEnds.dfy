/** Every stop of the world can be completed, and so can every restart: the threads that are waited for need no help
    from client code, and no sleeping thread needs to be woken by anything but its restart signal. */
module StopEnds {
  import opened Basics
  import opened StopWorld

  /** A step of the thread that stops the world, or of a suspend handler; only the restart signal wakes a thread. */
  predicate Prompt(s: State, a: Action)
    requires Enabled(s, a)
  {
    match a
    case Register(_) => false
    case Unregister(_) => false
    case SetExcused(_, _) => false
    case Die(_) => false
    case BeginStop(_) => false
    case WakeUp(id) => s.threads[id].restartPending
    case _ => true
  }

  ghost predicate PromptStep(s: State, t: State) {
    exists a :: Does(s, a, t) && Prompt(s, a)
  }

  function Last(run: seq<State>): State
    requires run != []
  {
    run[|run| - 1]
  }

  /** whole continues run by prompt steps. */
  ghost predicate Continues(run: seq<State>, whole: seq<State>) {
    && run != [] && Run(whole) && run <= whole
    && forall i :: |run| <= i < |whole| ==> PromptStep(whole[i - 1], whole[i])
  }

  lemma NoSteps(run: seq<State>)
    requires Run(run)
    ensures Continues(run, run)
  {
  }

  lemma OneStep(run: seq<State>, a: Action) returns (longer: seq<State>)
    requires Run(run) && Enabled(Last(run), a) && Prompt(Last(run), a)
    ensures longer != [] && Continues(run, longer) && Last(longer) == Next(Last(run), a)
  {
    hide Next, Enabled, Prompt, Initial;
    longer := run + [Next(Last(run), a)];
    assert Does(Last(run), a, Last(longer));
    forall i | 0 < i < |longer|
      ensures StepOf(longer, i)
    {
      if i < |run| {
        assert StepOf(run, i);
      }
    }
  }

  lemma Joined(run: seq<State>, longer: seq<State>, whole: seq<State>)
    requires Continues(run, longer) && Continues(longer, whole)
    ensures Continues(run, whole)
  {
    hide PromptStep, Run;
    forall i | |run| <= i < |whole|
      ensures PromptStep(whole[i - 1], whole[i])
    {
      if i < |longer| {
        assert whole[i - 1] == longer[i - 1] && whole[i] == longer[i];
      }
    }
  }

  // ---- Stopping

  lemma {:induction false} SignalsSent(run: seq<State>) returns (whole: seq<State>)
    requires Run(run) && Last(run).stage.Suspending?
    ensures whole != [] && Continues(run, whole) && Last(whole).stage.Awaiting?
    decreases Last(run).stage.todo
  {
    var s := Last(run);
    if id :| id in s.stage.todo {
      var longer := OneStep(run, Signal(id));
      whole := SignalsSent(longer);
      Joined(run, longer, whole);
    } else {
      whole := OneStep(run, EndSignals);
    }
  }

  /** How far thread id is from the acknowledgement that the barrier waits for. */
  function Away(s: State, id: nat): int {
    if s.stage.Awaiting? && id in s.stage.sent && id in s.threads then Distance(s, s.threads[id]) else 0
  }

  function AwayAll(s: State, n: nat): int { SumTo((id: nat) => Away(s, id), n) }

  ghost predicate Numbered(s: State, n: nat) { forall id :: id in s.threads ==> id < n }

  lemma AwaySound(s: State, n: nat)
    ensures AwayAll(s, n) >= 0
  {
    SumNonNegative((id: nat) => Away(s, id), n);
  }

  /** The next step of a thread in a handler changes nothing but that thread and, if it posts, the semaphore. */
  lemma OwnStepOnly(s: State, id: Id)
    requires id in s.threads && Enabled(s, OwnStep(s, id))
    ensures var t := Next(s, OwnStep(s, id));
            && t.stage == s.stage && t.stopCount == s.stopCount && id in t.threads
            && t.threads == s.threads[id := t.threads[id]]
  {
  }

  lemma StepCloser(s: State, t: State, id: Id, n: nat)
    requires s.stage.Awaiting? && id in s.stage.sent && id in s.threads && id in t.threads && Numbered(s, n)
    requires t.stage == s.stage && t.stopCount == s.stopCount && t.threads == s.threads[id := t.threads[id]]
    requires Distance(t, t.threads[id]) < Distance(s, s.threads[id])
    ensures AwayAll(t, n) < AwayAll(s, n) && Numbered(t, n)
  {
    SumUpdate((j: nat) => Away(s, j), (j: nat) => Away(t, j), n, id);
  }

  lemma SemWaitCloser(s: State, n: nat)
    requires Enabled(s, SemWait) && Numbered(s, n)
    ensures AwayAll(Next(s, SemWait), n) <= AwayAll(s, n) && Numbered(Next(s, SemWait), n)
  {
    var t := Next(s, SemWait);
    SumBound((j: nat) => Away(s, j), (j: nat) => Away(t, j), n, n, 0);
  }

  lemma LeftSound(run: seq<State>)
    requires Run(run) && Last(run).stage.Awaiting?
    ensures Last(run).stage.left >= 0
  {
    RunKeeps(run, |run| - 1);
  }

  /** The barrier is passed: its threads acknowledge one by one. */
  lemma {:induction false} BarrierPasses(run: seq<State>, n: nat, m: int) returns (whole: seq<State>)
    requires Run(run) && Last(run).stage.Awaiting? && Numbered(Last(run), n)
    requires m == Last(run).stage.left + AwayAll(Last(run), n) && m >= 0
    ensures whole != [] && Continues(run, whole) && Last(whole).stage.Stopped?
    decreases m
  {
    hide AwayAll, Away, Distance, StepOf, Initial, Continues;
    var s, i := Last(run), |run| - 1;
    if s.stage.left <= 0 {
      whole := OneStep(run, BarrierDone);
    } else {
      var longer: seq<State>;
      if s.sem > 0 {
        longer := OneStep(run, SemWait);
        SemWaitCloser(s, n);
      } else {
        SemSound(run);
        BarrierNotStuck(run, i);
        var id :| Awaited(s, id);
        AwaitedThreadAdvances(run, i, id);
        OwnStepPrompt(s, id);
        longer := OneStep(run, OwnStep(s, id));
        OwnStepOnly(s, id);
        StepCloser(s, Last(longer), id, n);
      }
      ContinuesRun(run, longer);
      AwaySound(Last(longer), n);
      LeftSound(longer);
      whole := BarrierPasses(longer, n, Last(longer).stage.left + AwayAll(Last(longer), n));
      Joined(run, longer, whole);
    }
  }

  lemma ContinuesRun(run: seq<State>, whole: seq<State>)
    requires Continues(run, whole)
    ensures Run(whole)
  {
  }

  lemma SemSound(run: seq<State>)
    requires Run(run)
    ensures Last(run).sem >= 0
  {
    RunKeeps(run, |run| - 1);
  }

  lemma OwnStepPrompt(s: State, id: Id)
    requires id in s.threads && Enabled(s, OwnStep(s, id))
    requires OwnStep(s, id).WakeUp? ==> s.threads[id].restartPending
    ensures Prompt(s, OwnStep(s, id))
  {
  }

  /** From every state of every run in which the world is being stopped, GC_stop_world can return. */
  lemma StopCompletes(run: seq<State>) returns (whole: seq<State>)
    requires Run(run) && Signalling(Last(run).stage)
    ensures whole != [] && Continues(run, whole) && Last(whole).stage.Stopped?
  {
    hide StepOf, Initial, Continues, AwayAll, PromptStep;
    var longer := run;
    if Last(run).stage.Suspending? {
      longer := SignalsSent(run);
      ContinuesRun(run, longer);
    } else {
      NoSteps(run);
    }
    var n := AllBelow(Last(longer).threads.Keys);
    AwaySound(Last(longer), n);
    LeftSound(longer);
    whole := BarrierPasses(longer, n, Last(longer).stage.left + AwayAll(Last(longer), n));
    Joined(run, longer, whole);
  }

  // ---- Restarting

  lemma {:induction false} RestartsSent(run: seq<State>) returns (whole: seq<State>)
    requires Run(run) && (Last(run).stage.Stopped? || Last(run).stage.Restarting?)
    ensures whole != [] && Continues(run, whole) && Last(whole).stage.Unlocked?
    decreases Last(run).stage.Stopped?, if Last(run).stage.Restarting? then Last(run).stage.todo else {}
  {
    var s := Last(run);
    if s.stage.Stopped? {
      var longer := OneStep(run, BeginStart);
      whole := RestartsSent(longer);
      Joined(run, longer, whole);
    } else if id :| id in s.stage.todo {
      var longer := OneStep(run, SignalRestart(id));
      whole := RestartsSent(longer);
      Joined(run, longer, whole);
    } else {
      whole := OneStep(run, EndRestart);
    }
  }

  /** How far a thread is from its return to client code once the world has been restarted. */
  function ToReturn(s: State, id: nat): int {
    if id !in s.threads then 0 else
      match s.threads[id].pc
      case Acked => 3
      case Suspended => 2
      case Woken => 1
      case _ => 0
  }

  function ToReturnAll(s: State, n: nat): int { SumTo((id: nat) => ToReturn(s, id), n) }

  lemma ToReturnSound(s: State, n: nat)
    ensures ToReturnAll(s, n) >= 0
  {
    SumNonNegative((id: nat) => ToReturn(s, id), n);
  }

  /** A thread that is still in the handler has a step to take: its restart signal is pending if it sleeps. */
  lemma ParkedThreadReturns(run: seq<State>, id: Id)
    requires Run(run) && Last(run).stage.Unlocked? && id in Last(run).threads && !Last(run).threads[id].pc.Running?
    ensures var s := Last(run);
            && Enabled(s, OwnStep(s, id)) && Prompt(s, OwnStep(s, id))
            && ToReturn(Next(s, OwnStep(s, id)), id) < ToReturn(s, id)
  {
    var i := |run| - 1;
    RunKeeps(run, i);
    RunWakeful(run, i);
    NothingLeftOver(run, i);
    Known(run[i], id);
    WakeKnown(run[i], id);
  }

  lemma ReturnsCloser(s: State, t: State, id: Id, n: nat)
    requires id in s.threads && id in t.threads && Numbered(s, n) && t.threads == s.threads[id := t.threads[id]]
    requires ToReturn(t, id) < ToReturn(s, id)
    ensures ToReturnAll(t, n) < ToReturnAll(s, n) && Numbered(t, n)
  {
    SumUpdate((j: nat) => ToReturn(s, j), (j: nat) => ToReturn(t, j), n, id);
  }

  lemma {:induction false} EveryoneReturns(run: seq<State>, n: nat, m: int) returns (whole: seq<State>)
    requires Run(run) && Last(run).stage.Unlocked? && Numbered(Last(run), n)
    requires m == ToReturnAll(Last(run), n) && m >= 0
    ensures whole != [] && Continues(run, whole) && Last(whole).stage.Unlocked?
    ensures forall id :: id in Last(whole).threads ==> Last(whole).threads[id].pc.Running?
    decreases m
  {
    hide StepOf, Initial, Continues, ToReturnAll, ToReturn;
    var s := Last(run);
    if id :| id in s.threads && !s.threads[id].pc.Running? {
      ParkedThreadReturns(run, id);
      var longer := OneStep(run, OwnStep(s, id));
      OwnStepOnly(s, id);
      ReturnsCloser(s, Last(longer), id, n);
      ContinuesRun(run, longer);
      ToReturnSound(Last(longer), n);
      whole := EveryoneReturns(longer, n, ToReturnAll(Last(longer), n));
      Joined(run, longer, whole);
    } else {
      whole := run;
      NoSteps(run);
    }
  }

  /** From every state of every run in which the world is stopped or being restarted, all threads can return to client
      code. */
  lemma RestartCompletes(run: seq<State>) returns (whole: seq<State>)
    requires Run(run) && (Last(run).stage.Stopped? || Last(run).stage.Restarting?)
    ensures whole != [] && Continues(run, whole) && Last(whole).stage.Unlocked?
    ensures forall id :: id in Last(whole).threads ==> Last(whole).threads[id].pc.Running?
  {
    hide StepOf, Initial, Continues, ToReturnAll, PromptStep;
    var longer := RestartsSent(run);
    ContinuesRun(run, longer);
    var n := AllBelow(Last(longer).threads.Keys);
    ToReturnSound(Last(longer), n);
    whole := EveryoneReturns(longer, n, ToReturnAll(Last(longer), n));
    Joined(run, longer, whole);
  }
}
