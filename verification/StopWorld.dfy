/** The signal handshake of pthread_stop_world.c that stops and restarts the world, as atomic steps of any number of
    threads: no signal retries, distinct suspend and restart signals. */
module StopWorld {
  import opened Basics

  const THREAD_RESTARTED := 1

  type Id = nat

  /** Where a thread is in GC_suspend_handler_inner, which it leaves for Running; the other signals are blocked
      meanwhile, except inside sigsuspend. */
  datatype Pc =
    | Running      // client code
    | Entered      // suspend signal delivered, GC_stop_count not yet read
    | Loaded       // my_stop_count is set
    | Checked      // not a duplicate
    | Saved        // stack pointer stored
    | Acked        // semaphore posted, last_stop_count not yet stored
    | Suspended    // about to call sigsuspend, or inside it
    | Woken        // sigsuspend returned, GC_stop_count not yet compared

  datatype Thread = Thread(
    pc: Pc,
    mine: nat,              // my_stop_count
    last: nat,              // last_stop_count
    savedFor: nat,          // value of GC_stop_count for which the stack pointer was stored
    ackedFor: nat,          // value of GC_stop_count of the latest sem_post, and
    acks: nat,              // how often this thread posted for that value
    suspendPending: bool, restartPending: bool,
    excused: bool,          // FINISHED or DO_BLOCKING
    gone: bool)             // no longer known to the system: signals to it fail with ESRCH

  datatype Stage =
    | Unlocked                                             // nobody is stopping the world
    | Suspending(self: Id, todo: set<Id>, sent: set<Id>, n: int)   // in GC_suspend_all
    | Awaiting(self: Id, sent: set<Id>, left: int)         // in suspend_restart_barrier
    | Stopped(self: Id, sent: set<Id>)                     // GC_stop_world returned
    | Restarting(self: Id, todo: set<Id>)                  // in GC_restart_all

  datatype State = State(threads: map<Id, Thread>, stopCount: nat, sem: int, stage: Stage)

  datatype Action =
    | Register(id: Id) | Unregister(id: Id) | SetExcused(id: Id, excused: bool) | Die(id: Id)
    | BeginStop(id: Id) | Signal(id: Id) | EndSignals | SemWait | BarrierDone
    | BeginStart | SignalRestart(id: Id) | EndRestart
    | Deliver(id: Id) | DeliverRestart(id: Id)
    | Load(id: Id) | Check(id: Id) | Save(id: Id) | Post(id: Id) | StoreLast(id: Id) | WakeUp(id: Id) | Compare(id: Id)

  const NewThread := Thread(Running, 0, 0, 0, 0, 0, false, false, false, false)

  function Put(s: State, id: Id, t: Thread): State {
    s.(threads := s.threads[id := t])
  }

  /** Thread id exists, is alive and is at pc. */
  predicate At(s: State, id: Id, pc: Pc) {
    id in s.threads && !s.threads[id].gone && s.threads[id].pc == pc
  }

  predicate Even(n: nat) { n % 2 == 0 }

  predicate Enabled(s: State, a: Action) {
    match a
    // changes of the thread table and of its flags need the allocation lock
    case Register(id) => s.stage.Unlocked? && id !in s.threads
    case Unregister(id) => s.stage.Unlocked? && id in s.threads && s.threads[id].pc.Running?
    case SetExcused(id, _) => s.stage.Unlocked? && At(s, id, Running)
    // a thread may cease to exist at any time, the one that stops the world and those that owe an answer excepted
    case Die(id) => At(s, id, Running) && !s.threads[id].suspendPending && (s.stage.Unlocked? || id != s.stage.self)
    case BeginStop(id) => s.stage.Unlocked? && At(s, id, Running)
    case Signal(id) => s.stage.Suspending? && id in s.stage.todo
    case EndSignals => s.stage.Suspending? && s.stage.todo == {}
    case SemWait => s.stage.Awaiting? && s.stage.left > 0 && s.sem > 0
    case BarrierDone => s.stage.Awaiting? && s.stage.left <= 0
    case BeginStart => s.stage.Stopped?
    case SignalRestart(id) => s.stage.Restarting? && id in s.stage.todo
    case EndRestart => s.stage.Restarting? && s.stage.todo == {}
    case Deliver(id) => At(s, id, Running) && s.threads[id].suspendPending
    case DeliverRestart(id) => At(s, id, Running) && s.threads[id].restartPending
    case Load(id) => At(s, id, Entered)
    case Check(id) => At(s, id, Loaded)
    case Save(id) => At(s, id, Checked)
    case Post(id) => At(s, id, Saved)
    case StoreLast(id) => At(s, id, Acked)
    case WakeUp(id) => At(s, id, Suspended)  // by the restart signal or by any other that is not blocked
    case Compare(id) => At(s, id, Woken)
  }

  /** One iteration of the loop of GC_suspend_all. */
  function DoSignal(s: State, id: Id): State
    requires s.stage.Suspending?
  {
    var Suspending(self, todo, sent, n) := s.stage;
    var next := Suspending(self, todo - {id}, sent, n);
    if id == self || id !in s.threads then s.(stage := next) else
      var t := s.threads[id];
      if t.excused || t.last == s.stopCount then s.(stage := next)
      else if t.gone then s.(stage := next)
      else Put(s, id, t.(suspendPending := true)).(stage := Suspending(self, todo - {id}, sent + {id}, n + 1))
  }

  /** One iteration of the loop of GC_restart_all. */
  function DoSignalRestart(s: State, id: Id): State
    requires s.stage.Restarting?
  {
    var Restarting(self, todo) := s.stage;
    var s' := s.(stage := Restarting(self, todo - {id}));
    if id == self || id !in s.threads || s.threads[id].excused || s.threads[id].gone then s'
    else Put(s', id, s.threads[id].(restartPending := true))
  }

  function DoLoad(s: State, id: Id): State
    requires id in s.threads
  {
    // a count with the low bit set means that the world is being restarted
    if Even(s.stopCount) then Put(s, id, s.threads[id].(pc := Loaded, mine := s.stopCount))
    else Put(s, id, s.threads[id].(pc := Running, mine := s.stopCount))
  }

  function DoCheck(s: State, id: Id): State
    requires id in s.threads
  {
    var t := s.threads[id];
    // last & ~THREAD_RESTARTED
    if t.last - t.last % 2 == t.mine then Put(s, id, t.(pc := Running)) else Put(s, id, t.(pc := Checked))
  }

  function DoPost(s: State, id: Id): State
    requires id in s.threads
  {
    var t := s.threads[id];
    Put(s, id, t.(pc := Acked, ackedFor := t.mine,
                  acks := if t.ackedFor == t.mine then t.acks + 1 else 1)).(sem := s.sem + 1)
  }

  function DoCompare(s: State, id: Id): State
    requires id in s.threads
  {
    var t := s.threads[id];
    Put(s, id, t.(pc := if s.stopCount == t.mine then Suspended else Running))
  }

  function Next(s: State, a: Action): State
    requires Enabled(s, a)
  {
    match a
    case Register(id) => Put(s, id, NewThread)
    case Unregister(id) => s.(threads := s.threads - {id})
    case SetExcused(id, e) => Put(s, id, s.threads[id].(excused := e))
    case Die(id) => Put(s, id, s.threads[id].(gone := true))
    case BeginStop(id) => s.(stopCount := s.stopCount + THREAD_RESTARTED,
                             stage := Suspending(id, s.threads.Keys, {}, 0))
    case Signal(id) => DoSignal(s, id)
    case EndSignals => s.(stage := Awaiting(s.stage.self, s.stage.sent, s.stage.n))
    case SemWait => s.(sem := s.sem - 1, stage := Awaiting(s.stage.self, s.stage.sent, s.stage.left - 1))
    case BarrierDone => s.(stage := Stopped(s.stage.self, s.stage.sent))
    case BeginStart => s.(stopCount := s.stopCount + THREAD_RESTARTED,
                          stage := Restarting(s.stage.self, s.threads.Keys))
    case SignalRestart(id) => DoSignalRestart(s, id)
    case EndRestart => s.(stage := Unlocked)
    case Deliver(id) => Put(s, id, s.threads[id].(pc := Entered, suspendPending := false))
    case DeliverRestart(id) => Put(s, id, s.threads[id].(restartPending := false))
    case Load(id) => DoLoad(s, id)
    case Check(id) => DoCheck(s, id)
    case Save(id) => Put(s, id, s.threads[id].(pc := Saved, savedFor := s.threads[id].mine))
    case Post(id) => DoPost(s, id)
    case StoreLast(id) => Put(s, id, s.threads[id].(pc := Suspended, last := s.threads[id].mine))
    case WakeUp(id) => Put(s, id, s.threads[id].(pc := Woken, restartPending := false))
    case Compare(id) => DoCompare(s, id)
  }

  // ---- The invariant

  /** Between delivery of the suspend signal and the acknowledgement. */
  predicate Arriving(pc: Pc) {
    pc.Entered? || pc.Loaded? || pc.Checked? || pc.Saved?
  }

  /** Between the acknowledgement and the return from the handler. */
  predicate Parked(pc: Pc) {
    pc.Acked? || pc.Suspended? || pc.Woken?
  }

  function Sent(g: Stage): set<Id> {
    match g
    case Suspending(_, _, sent, _) => sent
    case Awaiting(_, sent, _) => sent
    case Stopped(_, sent) => sent
    case _ => {}
  }

  predicate Signalling(g: Stage) {
    g.Suspending? || g.Awaiting?
  }

  ghost predicate ThreadOk(s: State, id: Id, t: Thread) {
    && t.last <= s.stopCount && t.ackedFor <= s.stopCount && t.acks <= 1
    && (t.last == s.stopCount && Even(s.stopCount) ==> t.ackedFor == s.stopCount)
    && (t.ackedFor > 0 ==> Even(t.ackedFor) && t.acks == 1)
    && Even(t.last)
    && (Parked(t.pc) ==> t.mine == t.ackedFor == t.savedFor > 0)
    && (t.pc.Suspended? || t.pc.Woken? ==> t.last == t.mine)
    // a signal that has not been acknowledged belongs to the stop in progress
    && (t.suspendPending || Arriving(t.pc) ==> Signalling(s.stage) && id in Sent(s.stage) && t.ackedFor != s.stopCount)
    && !(t.suspendPending && Arriving(t.pc))
    && (t.pc.Loaded? || t.pc.Checked? || t.pc.Saved? ==> t.mine == s.stopCount)
    && (t.pc.Saved? ==> t.savedFor == s.stopCount)
    // an acknowledged stop parks the thread until GC_stop_count changes
    && (t.ackedFor == s.stopCount && Even(s.stopCount) && s.stopCount > 0 ==> Parked(t.pc) && id in Sent(s.stage))
    && (t.gone ==> t.pc.Running? && !t.suspendPending)
    && (id in Sent(s.stage) ==>
          !t.gone && !t.excused && (t.suspendPending || Arriving(t.pc) || t.ackedFor == s.stopCount))
  }

  function Acknowledged(s: State): set<Id> {
    set id | id in s.threads && id in Sent(s.stage) && s.threads[id].ackedFor == s.stopCount
  }

  ghost predicate StageOk(s: State) {
    match s.stage
    case Unlocked => !Even(s.stopCount) && s.sem == 0
    case Suspending(self, todo, sent, n) =>
      && Even(s.stopCount) && s.stopCount > 0 && At(s, self, Running)
      && sent <= s.threads.Keys && todo <= s.threads.Keys && sent !! todo && self !in sent
      && n == |sent| && s.sem == |Acknowledged(s)|
      && (forall id :: id in s.threads && id !in todo && id != self ==>
            id in sent || s.threads[id].excused || s.threads[id].gone)
    case Awaiting(self, sent, left) =>
      && Even(s.stopCount) && s.stopCount > 0 && At(s, self, Running)
      && sent <= s.threads.Keys && self !in sent
      && 0 <= left <= |sent| && s.sem == |Acknowledged(s)| - (|sent| - left)
      && (forall id :: id in s.threads && id != self ==> id in sent || s.threads[id].excused || s.threads[id].gone)
    case Stopped(self, sent) =>
      && Even(s.stopCount) && s.stopCount > 0 && At(s, self, Running) && s.sem == 0
      && sent <= s.threads.Keys && self !in sent
      && (forall id :: id in sent ==> s.threads[id].ackedFor == s.stopCount)
      && (forall id :: id in s.threads && id != self ==> id in sent || s.threads[id].excused || s.threads[id].gone)
    case Restarting(self, todo) => !Even(s.stopCount) && s.sem == 0
  }

  ghost predicate Inv(s: State) {
    StageOk(s) && s.sem >= 0 && forall id :: id in s.threads ==> ThreadOk(s, id, s.threads[id])
  }

  // ---- Each step keeps the invariant

  /** The steps of a single thread that neither lock nor post. */
  predicate Local(a: Action) {
    || a.Deliver? || a.DeliverRestart? || a.Load? || a.Check? || a.Save? || a.StoreLast? || a.WakeUp? || a.Compare?
  }

  /** A step that only changes thread id, and neither its acknowledgements nor its flags. */
  ghost predicate ChangesOnly(s: State, t: State, id: Id) {
    && id in s.threads && id in t.threads
    && t == s.(threads := s.threads[id := t.threads[id]])
    && (var x, y := s.threads[id], t.threads[id];
        && y.ackedFor == x.ackedFor && y.excused == x.excused && y.gone == x.gone
        && (x.pc.Running? && !x.suspendPending ==> y.pc.Running?))
  }

  lemma StageKept(s: State, t: State, id: Id)
    requires Inv(s) && ChangesOnly(s, t, id)
    ensures StageOk(t)
  {
    assert ThreadOk(s, id, s.threads[id]);
    assert Acknowledged(t) == Acknowledged(s);
    match s.stage
    case Unlocked =>
    case Suspending(self, todo, sent, n) => SelfKept(s, t, id, self);
    case Awaiting(self, sent, left) => SelfKept(s, t, id, self);
    case Stopped(self, sent) => SelfKept(s, t, id, self);
    case Restarting(self, todo) =>
  }

  lemma SelfKept(s: State, t: State, id: Id, self: Id)
    requires ChangesOnly(s, t, id) && At(s, self, Running) && self !in Sent(s.stage)
    requires ThreadOk(s, id, s.threads[id])
    ensures At(t, self, Running)
  {
  }

  lemma Known(s: State, id: Id)
    requires Inv(s) && id in s.threads
    ensures ThreadOk(s, id, s.threads[id])
    ensures Signalling(s.stage) ==> Even(s.stopCount) && s.stopCount > 0
    ensures s.stage.Unlocked? || s.stage.Restarting? ==> !Even(s.stopCount)
  {
  }

  /** The steps of the suspend handler before the acknowledgement. */
  lemma ArrivingStepOk(s: State, a: Action)
    requires Inv(s) && Enabled(s, a) && (a.Deliver? || a.Load? || a.Check? || a.Save?)
    ensures ChangesOnly(s, Next(s, a), a.id)
    ensures ThreadOk(Next(s, a), a.id, Next(s, a).threads[a.id])
  {
    hide Inv;
    Known(s, a.id);
    match a
    case Deliver(_) =>
    case Load(_) =>
    case Check(_) =>
    case Save(_) =>
  }

  /** The steps after it. */
  lemma ParkedStepOk(s: State, a: Action)
    requires Inv(s) && Enabled(s, a) && (a.DeliverRestart? || a.StoreLast? || a.WakeUp? || a.Compare?)
    ensures ChangesOnly(s, Next(s, a), a.id)
    ensures ThreadOk(Next(s, a), a.id, Next(s, a).threads[a.id])
  {
    hide Inv;
    Known(s, a.id);
    match a
    case DeliverRestart(_) =>
    case StoreLast(_) =>
    case WakeUp(_) =>
    case Compare(_) =>
  }

  lemma LocalStepOk(s: State, a: Action)
    requires Inv(s) && Enabled(s, a) && Local(a)
    ensures ChangesOnly(s, Next(s, a), a.id)
    ensures ThreadOk(Next(s, a), a.id, Next(s, a).threads[a.id])
  {
    hide *;
    if a.Deliver? || a.Load? || a.Check? || a.Save? {
      ArrivingStepOk(s, a);
    } else {
      LocalIsEither(a);
      ParkedStepOk(s, a);
    }
  }

  lemma LocalIsEither(a: Action)
    requires Local(a)
    ensures a.Deliver? || a.Load? || a.Check? || a.Save? || a.DeliverRestart? || a.StoreLast? || a.WakeUp? || a.Compare?
  {
  }

  lemma ThreadsKept(s: State, t: State, id: Id)
    requires Inv(s) && ChangesOnly(s, t, id) && ThreadOk(t, id, t.threads[id]) && StageOk(t)
    ensures Inv(t)
  {
  }

  lemma LocalKeeps(s: State, a: Action)
    requires Inv(s) && Enabled(s, a) && Local(a)
    ensures Inv(Next(s, a))
  {
    hide Inv, Next, ThreadOk, StageOk;
    LocalStepOk(s, a);
    StageKept(s, Next(s, a), a.id);
    ThreadsKept(s, Next(s, a), a.id);
  }

  /** Acknowledging: the semaphore and the number of acknowledged threads grow together. */
  lemma PostKeeps(s: State, id: Id)
    requires Inv(s) && Enabled(s, Post(id))
    ensures Inv(Next(s, Post(id)))
  {
    var t := Next(s, Post(id));
    assert ThreadOk(s, id, s.threads[id]);
    assert Acknowledged(t) == Acknowledged(s) + {id};
    forall i | i in t.threads ensures ThreadOk(t, i, t.threads[i]) {
      assert ThreadOk(s, i, s.threads[i]);
    }
  }

  lemma TableKeeps(s: State, a: Action)
    requires Inv(s) && Enabled(s, a) && (a.Register? || a.Unregister? || a.SetExcused?)
    ensures Inv(Next(s, a))
  {
  }

  /** A thread that ceases to exist owes no acknowledgement, whatever the stage. */
  lemma DieKeeps(s: State, id: Id)
    requires Inv(s) && Enabled(s, Die(id))
    ensures Inv(Next(s, Die(id)))
  {
    var t := Next(s, Die(id));
    assert ThreadOk(s, id, s.threads[id]);
    assert id !in Sent(s.stage);
    assert Acknowledged(t) == Acknowledged(s);
    forall i | i in t.threads
      ensures ThreadOk(t, i, t.threads[i])
    {
      assert ThreadOk(s, i, s.threads[i]);
    }
  }

  lemma BeginStopKeeps(s: State, id: Id)
    requires Inv(s) && Enabled(s, BeginStop(id))
    ensures Inv(Next(s, BeginStop(id)))
  {
  }

  lemma SignalThreadsOk(s: State, id: Id)
    requires Inv(s) && Enabled(s, Signal(id))
    ensures var t := DoSignal(s, id); forall i :: i in t.threads ==> ThreadOk(t, i, t.threads[i])
  {
  }

  lemma SignalStageOk(s: State, id: Id)
    requires Inv(s) && Enabled(s, Signal(id))
    ensures StageOk(DoSignal(s, id))
  {
    Known(s, id);
    assert Acknowledged(DoSignal(s, id)) == Acknowledged(s);
  }

  lemma SignalKeeps(s: State, id: Id)
    requires Inv(s) && Enabled(s, Signal(id))
    ensures Inv(Next(s, Signal(id)))
  {
    SignalThreadsOk(s, id);
    SignalStageOk(s, id);
  }

  lemma BarrierKeeps(s: State, a: Action)
    requires Inv(s) && Enabled(s, a) && (a.EndSignals? || a.SemWait?)
    ensures Inv(Next(s, a))
  {
  }

  /** When the barrier is passed every signalled thread has acknowledged, and the semaphore is back to zero. */
  lemma BarrierDoneKeeps(s: State)
    requires Inv(s) && Enabled(s, BarrierDone)
    ensures Inv(Next(s, BarrierDone))
    ensures Acknowledged(s) == Sent(s.stage) && s.sem == 0
  {
    var t := Next(s, BarrierDone);
    SubsetSize(Acknowledged(s), Sent(s.stage));
    forall i | i in t.threads ensures ThreadOk(t, i, t.threads[i]) {
      assert ThreadOk(s, i, s.threads[i]);
      assert i in Sent(s.stage) ==> i in Acknowledged(s);
    }
    forall i | i in t.stage.sent ensures t.threads[i].ackedFor == t.stopCount {
      assert i in Acknowledged(s);
    }
  }

  lemma StartKeeps(s: State, a: Action)
    requires Inv(s) && Enabled(s, a) && (a.BeginStart? || a.SignalRestart? || a.EndRestart?)
    ensures Inv(Next(s, a))
  {
    var t := Next(s, a);
    forall i | i in t.threads ensures ThreadOk(t, i, t.threads[i]) {
      assert ThreadOk(s, i, s.threads[i]);
    }
  }

  lemma NextKeeps(s: State, a: Action)
    requires Inv(s) && Enabled(s, a)
    ensures Inv(Next(s, a))
  {
    hide Inv;
    match a
    case Register(_) => TableKeeps(s, a);
    case Unregister(_) => TableKeeps(s, a);
    case SetExcused(_, _) => TableKeeps(s, a);
    case Die(id) => DieKeeps(s, id);
    case BeginStop(id) => BeginStopKeeps(s, id);
    case Signal(id) => SignalKeeps(s, id);
    case EndSignals => BarrierKeeps(s, a);
    case SemWait => BarrierKeeps(s, a);
    case BarrierDone => BarrierDoneKeeps(s);
    case BeginStart => StartKeeps(s, a);
    case SignalRestart(_) => StartKeeps(s, a);
    case EndRestart => StartKeeps(s, a);
    case Post(id) => PostKeeps(s, id);
    case _ => LocalKeeps(s, a);
  }

  // ---- Whole runs

  predicate Does(s: State, a: Action, t: State) {
    Enabled(s, a) && t == Next(s, a)
  }

  ghost predicate Steps(s: State, t: State) {
    exists a :: Does(s, a, t)
  }

  ghost predicate StepOf(run: seq<State>, i: nat)
    requires 0 < i < |run|
  {
    Steps(run[i - 1], run[i])
  }

  /** Right after GC_stop_init: the world runs and any threads are registered. */
  predicate Initial(s: State) {
    && s.stopCount == THREAD_RESTARTED && s.sem == 0 && s.stage.Unlocked?
    && forall id :: id in s.threads ==> s.threads[id] == NewThread
  }

  ghost predicate Run(run: seq<State>) {
    run != [] && Initial(run[0]) && forall i :: 0 < i < |run| ==> StepOf(run, i)
  }

  lemma {:induction false} RunKeeps(run: seq<State>, i: nat)
    requires Run(run) && i < |run|
    ensures Inv(run[i])
  {
    if i > 0 {
      RunKeeps(run, i - 1);
      assert StepOf(run, i);
      var a :| Does(run[i - 1], a, run[i]);
      NextKeeps(run[i - 1], a);
    }
  }

  /** A thread that a stopped world can rely on: it acknowledged exactly once for this value of GC_stop_count, its
      stack pointer was stored for this value, and it is inside the suspend handler. */
  predicate Halted(t: Thread, stopCount: nat) {
    Parked(t.pc) && t.mine == stopCount && t.savedFor == stopCount && t.ackedFor == stopCount && t.acks == 1
  }

  /** Whenever GC_stop_world has returned, in any run with any threads and any number of earlier stops. */
  lemma WorldIsStopped(run: seq<State>, i: nat)
    requires Run(run) && i < |run| && run[i].stage.Stopped?
    ensures var s := run[i];
            && s.sem == 0 && Even(s.stopCount)
            && forall id :: id in s.threads && id != s.stage.self && !s.threads[id].excused && !s.threads[id].gone ==>
                 Halted(s.threads[id], s.stopCount)
  {
    RunKeeps(run, i);
    var s := run[i];
    forall id | id in s.threads && id != s.stage.self && !s.threads[id].excused && !s.threads[id].gone
      ensures Halted(s.threads[id], s.stopCount)
    {
      assert ThreadOk(s, id, s.threads[id]);
    }
  }

  /** A halted thread stays in the handler until GC_stop_count changes. */
  lemma {:induction false} HaltedUntilRestart(run: seq<State>, i: nat, j: nat, id: Id)
    requires Run(run) && i <= j < |run| && run[i].stage.Stopped?
    requires forall k :: i <= k <= j ==> run[k].stopCount == run[i].stopCount
    requires id in run[i].threads && Halted(run[i].threads[id], run[i].stopCount)
    ensures run[j].stage == run[i].stage && id in run[j].threads && Halted(run[j].threads[id], run[i].stopCount)
    decreases j
  {
    if i < j {
      HaltedUntilRestart(run, i, j - 1, id);
      RunKeeps(run, j - 1);
      assert StepOf(run, j);
      var a :| Does(run[j - 1], a, run[j]);
      assert run[j].stopCount == run[j - 1].stopCount;
      StoppedStep(run[j - 1], a, id);
    }
  }

  lemma StoppedStep(s: State, a: Action, id: Id)
    requires Inv(s) && Enabled(s, a) && s.stage.Stopped? && Next(s, a).stopCount == s.stopCount
    requires id in s.threads && Halted(s.threads[id], s.stopCount)
    ensures Next(s, a).stage == s.stage && id in Next(s, a).threads && Halted(Next(s, a).threads[id], s.stopCount)
  {
  }

  /** No acknowledgement is left over when the world is about to be stopped again, even while threads are still on
      their way out of the previous handler. */
  lemma NothingLeftOver(run: seq<State>, i: nat)
    requires Run(run) && i < |run| && (run[i].stage.Unlocked? || run[i].stage.Restarting?)
    ensures run[i].sem == 0
    ensures forall id :: id in run[i].threads ==>
              !run[i].threads[id].suspendPending && !Arriving(run[i].threads[id].pc) && run[i].threads[id].acks <= 1
  {
    RunKeeps(run, i);
    forall id | id in run[i].threads
      ensures !run[i].threads[id].suspendPending && !Arriving(run[i].threads[id].pc) && run[i].threads[id].acks <= 1
    {
      assert ThreadOk(run[i], id, run[i].threads[id]);
    }
  }

  // ---- Nobody waits for ever

  /** A thread that is about to call sigsuspend, or inside it, after its stop is over: the restart signal is pending or
      has yet to be sent. */
  ghost predicate WakeOk(s: State, id: Id, t: Thread) {
    && ((t.pc.Acked? || t.pc.Suspended?) && t.mine != s.stopCount ==>
          t.restartPending || (s.stage.Restarting? && id in s.stage.todo))
    && (Parked(t.pc) ==> !t.excused)
  }

  ghost predicate Wakeful(s: State) {
    && (forall id :: id in s.threads ==> WakeOk(s, id, s.threads[id]))
    && (s.stage.Restarting? ==> At(s, s.stage.self, Running))
  }

  lemma WakefulKept(s: State, a: Action)
    requires Inv(s) && Wakeful(s) && Enabled(s, a)
    ensures Wakeful(Next(s, a))
  {
    var t := Next(s, a);
    forall id | id in t.threads
      ensures WakeOk(t, id, t.threads[id])
    {
      if id in s.threads {
        WakeOkKept(s, a, id);
      }
    }
    if t.stage.Restarting? && s.stage.Restarting? {
      assert ThreadOk(s, s.stage.self, s.threads[s.stage.self]);
    }
  }

  lemma WakeOkKept(s: State, a: Action, id: Id)
    requires Inv(s) && Wakeful(s) && Enabled(s, a) && id in s.threads && id in Next(s, a).threads
    ensures WakeOk(Next(s, a), id, Next(s, a).threads[id])
  {
    hide Inv, Wakeful;
    if Local(a) || a.Post? {
      WakeOkInThread(s, a, id);
    } else {
      WakeOkInTable(s, a, id);
    }
  }

  lemma WakeKnown(s: State, id: Id)
    requires Wakeful(s) && id in s.threads
    ensures WakeOk(s, id, s.threads[id])
    ensures s.stage.Restarting? ==> At(s, s.stage.self, Running)
  {
  }

  lemma WakeOkInThread(s: State, a: Action, id: Id)
    requires Inv(s) && Wakeful(s) && Enabled(s, a) && id in s.threads && (Local(a) || a.Post?)
    ensures WakeOk(Next(s, a), id, Next(s, a).threads[id])
  {
    hide Inv, StageOk, Wakeful;
    Known(s, id);
    WakeKnown(s, id);
    match a
    case Load(_) =>
    case Check(_) =>
    case Post(_) =>
    case Compare(_) =>
    case _ =>
  }

  lemma WakeOkInTable(s: State, a: Action, id: Id)
    requires Inv(s) && Wakeful(s) && Enabled(s, a) && id in s.threads && id in Next(s, a).threads && !Local(a) &&
             !a.Post?
    ensures WakeOk(Next(s, a), id, Next(s, a).threads[id])
  {
    hide Inv, StageOk, Wakeful;
    Known(s, id);
    WakeKnown(s, id);
    match a
    case Signal(_) =>
    case SignalRestart(_) =>
    case _ =>
  }

  lemma {:induction false} RunWakeful(run: seq<State>, i: nat)
    requires Run(run) && i < |run|
    ensures Wakeful(run[i])
  {
    if i > 0 {
      RunWakeful(run, i - 1);
      RunKeeps(run, i - 1);
      assert StepOf(run, i);
      var a :| Does(run[i - 1], a, run[i]);
      WakefulKept(run[i - 1], a);
    }
  }

  /** How many steps a signalled thread is away from its acknowledgement. */
  function Distance(s: State, t: Thread): nat {
    if t.ackedFor == s.stopCount then 0 else
      match t.pc
      case Acked => 8
      case Suspended => 7
      case Woken => 6
      case Running => 5
      case Entered => 4
      case Loaded => 3
      case Checked => 2
      case Saved => 1
  }

  /** What thread id does next on its way to the acknowledgement. */
  function OwnStep(s: State, id: Id): Action
    requires id in s.threads
  {
    match s.threads[id].pc
    case Running => Deliver(id)
    case Entered => Load(id)
    case Loaded => Check(id)
    case Checked => Save(id)
    case Saved => Post(id)
    case Acked => StoreLast(id)
    case Suspended => WakeUp(id)
    case Woken => Compare(id)
  }

  predicate Awaited(s: State, id: Id) {
    s.stage.Awaiting? && id in s.stage.sent && id in s.threads && s.threads[id].ackedFor != s.stopCount
  }

  /** The barrier of GC_stop_world is never stuck: an awaited thread, even one that still sleeps in the handler for the
      previous stop, has a step to take, and each one it takes brings it closer to posting. */
  lemma AwaitedThreadAdvances(run: seq<State>, i: nat, id: Id)
    requires Run(run) && i < |run| && Awaited(run[i], id)
    ensures var s := run[i];
            var a := OwnStep(s, id);
            && Enabled(s, a) && (a.WakeUp? ==> s.threads[id].restartPending)
            && Distance(Next(s, a), Next(s, a).threads[id]) < Distance(s, s.threads[id])
  {
    RunKeeps(run, i);
    RunWakeful(run, i);
    Known(run[i], id);
    assert WakeOk(run[i], id, run[i].threads[id]);
  }

  /** No other step takes it further away while the barrier lasts. */
  lemma NothingSetsBack(run: seq<State>, i: nat, id: Id, a: Action)
    requires Run(run) && i < |run| && Awaited(run[i], id) && Enabled(run[i], a) && Next(run[i], a).stage.Awaiting?
    ensures var s, t := run[i], Next(run[i], a);
            id in t.threads && Distance(t, t.threads[id]) <= Distance(s, s.threads[id])
  {
    RunKeeps(run, i);
    Known(run[i], id);
    assert StageOk(run[i]);
  }

  /** If the stopping thread has to wait at the barrier, there is a thread it waits for. */
  lemma BarrierNotStuck(run: seq<State>, i: nat)
    requires Run(run) && i < |run| && run[i].stage.Awaiting? && run[i].stage.left > 0 && run[i].sem == 0
    ensures exists id :: Awaited(run[i], id)
  {
    RunKeeps(run, i);
    var s := run[i];
    var sent := s.stage.sent;
    assert sent * Acknowledged(s) == Acknowledged(s);
    var missing := sent - Acknowledged(s);
    assert |missing| > 0;
    var id :| id in missing;
    assert Awaited(s, id);
  }
}
