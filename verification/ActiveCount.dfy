/** When GC_active_count, once zero, stays zero while a parallel mark goes on (mark.c). */
module ActiveCount {
  import opened ParallelMark

  /** The steps that raise the count from zero: somebody enters GC_mark_local, or goes on with what it finds on the
      shared stack after all. */
  predicate Raises(s: State, a: Action) {
    a.Begin? || a.Join? || (a.Decide? && s.firstNonempty <= Top(s))
  }

  lemma NobodyActive(s: State, id: nat, wanted: set<Obj>, bound: set<Obj>)
    requires Inv(s, wanted, bound) && s.active == 0 && id in s.helpers
    ensures !Active(s.helpers[id].pc)
    ensures s.lock == id <==> s.helpers[id].pc.Waiting? || s.helpers[id].pc.Deciding?
  {
    assert id !in ActiveIds(s);
  }

  /** Exactly those steps do. */
  lemma RaisesExactly(s: State, a: Action, wanted: set<Obj>, bound: set<Obj>)
    requires Inv(s, wanted, bound) && s.active == 0 && Enabled(s, a)
    ensures Next(s, a).active > 0 <==> Raises(s, a)
    ensures Next(s, a).active >= 0
    ensures !Raises(s, a) ==> a.TestWait? || a.Wake? || a.Decide? || a.Return?
  {
    hide Inv;
    if !a.Begin? && !a.Return? && a.id in s.helpers {
      NobodyActive(s, a.id, wanted, bound);
    }
  }

  // ---- Between two points of a run

  ghost predicate RaisingStep(s: State, t: State) {
    exists a :: Does(s, a, t) && Raises(s, a)
  }

  lemma StepRaisesExactly(s: State, t: State, wanted: set<Obj>, bound: set<Obj>)
    requires Inv(s, wanted, bound) && s.active == 0 && Steps(s, t)
    ensures t.active > 0 <==> RaisingStep(s, t)
    ensures t.active >= 0
  {
    hide Inv, Next, Enabled;
    var a :| Does(s, a, t);
    forall b | Does(s, b, t)
      ensures t.active >= 0 && (t.active > 0 <==> Raises(s, b))
    {
      RaisesExactly(s, b, wanted, bound);
    }
  }

  /** From an index where the count is zero it stays zero up to j if and only if no step up to there enters, or goes on
      with, GC_mark_local. */
  lemma {:induction false} StaysZeroExactly(s: State, run: seq<State>, i: nat, j: nat, wanted: set<Obj>)
    requires Ready(s, wanted) && Run(run) && run[0] == Next(s, Begin)
    requires i <= j < |run| && run[i].active == 0
    ensures (forall k :: i <= k <= j ==> run[k].active == 0) <==>
            (forall k :: i <= k < j ==> !RaisingStep(run[k], run[k + 1]))
    decreases j
  {
    hide Inv, Next, RaisingStep;
    if i < j {
      StaysZeroExactly(s, run, i, j - 1, wanted);
      RunKeeps(s, run, j - 1, wanted, WideBound(s));
      assert StepOf(run, j);
      if run[j - 1].active == 0 {
        StepRaisesExactly(run[j - 1], run[j], wanted, WideBound(s));
      }
    }
  }

  // ---- In every continuation

  predicate PassedIt(h: Helper) { h.pc.Advancing? ==> h.pc.seen < h.first }

  /** What a mark phase keeps besides Inv: helper 0 has come in; a helper that is about to advance GC_first_nonempty has
      passed it; and once a helper has left, GC_first_nonempty is above the top of the shared stack. */
  ghost predicate Underway(s: State) {
    && 0 in s.helpers && !s.helpers[0].pc.Outside?
    && (forall id :: id in s.helpers ==> PassedIt(s.helpers[id]))
    && (SomeoneLeft(s) ==> s.firstNonempty > Top(s))
  }

  lemma NothingToGive(s: State, a: Action, wanted: set<Obj>, bound: set<Obj>)
    requires Inv(s, wanted, bound) && Enabled(s, a)
    ensures SomeoneLeft(s) ==> !a.ReturnAll? && !a.ShareHalf?
  {
    if a.ReturnAll? || a.ShareHalf? {
      assert !NoWork(s.helpers[a.id]);
    }
  }

  /** The step from s to t changes at most helper id; the helper comes in, leaves and gets ready to advance
      GC_first_nonempty only as it should; the shared stack grows only by what is given back; and GC_first_nonempty does
      not fall. */
  ghost predicate Fine(s: State, t: State, id: nat, mayLeave: bool, gives: bool) {
    && id in s.helpers && id in t.helpers && t.helpers == s.helpers[id := t.helpers[id]]
    && (var h, k := s.helpers[id], t.helpers[id];
        && !k.pc.Outside? && (k.pc.Left? ==> h.pc.Left? || mayLeave) && PassedIt(k))
    && t.firstNonempty >= s.firstNonempty && (!gives ==> Top(t) == Top(s))
  }

  lemma ReadFirstFine(s: State, id: nat)
    requires Enabled(s, ReadFirst(id))
    ensures Fine(s, Next(s, ReadFirst(id)), id, false, false)
  {
  }

  lemma SwapFirstFine(s: State, id: nat)
    requires Enabled(s, SwapFirst(id)) && PassedIt(s.helpers[id])
    ensures Fine(s, Next(s, SwapFirst(id)), id, false, false)
  {
  }

  lemma ReadTopFine(s: State, id: nat)
    requires Enabled(s, ReadTop(id))
    ensures Fine(s, Next(s, ReadTop(id)), id, false, false)
  {
  }

  lemma LockIdleFine(s: State, id: nat)
    requires Enabled(s, LockIdle(id))
    ensures Fine(s, Next(s, LockIdle(id)), id, false, false)
  {
  }

  lemma LoopStep(s: State, a: Action)
    requires Underway(s) && Enabled(s, a) && (a.ReadFirst? || a.SwapFirst? || a.ReadTop? || a.LockIdle?)
    ensures Fine(s, Next(s, a), a.id, false, false)
  {
    hide Fine, Next, SomeoneLeft;
    match a
    case ReadFirst(id) => ReadFirstFine(s, id);
    case SwapFirst(id) => SwapFirstFine(s, id);
    case ReadTop(id) => ReadTopFine(s, id);
    case LockIdle(id) => LockIdleFine(s, id);
    case _ =>
  }

  lemma IdleStep(s: State, a: Action)
    requires Enabled(s, a) && (a.Join? || a.TestWait? || a.Wake? || a.Decide?)
    ensures Fine(s, Next(s, a), a.id, a.Decide? && s.firstNonempty > Top(s), false)
  {
    match a
    case Join(_) =>
    case TestWait(_) =>
    case Wake(_) =>
    case Decide(_) =>
    case _ =>
  }

  lemma StealStep(s: State, a: Action)
    requires Enabled(s, a) && (a.ReadDescr? || a.Claim? || a.LocalDone? || a.TakeRange?)
    ensures Fine(s, Next(s, a), a.id, false, false)
  {
    match a
    case ReadDescr(_) =>
    case Claim(_) =>
    case LocalDone(_) =>
    case TakeRange(_, _, _) =>
    case _ =>
  }

  lemma WorkStep(s: State, a: Action)
    requires Enabled(s, a) && (a.Examine? || a.SetMark? || a.ReturnAll? || a.ShareHalf?)
    ensures Fine(s, Next(s, a), a.id, false, a.ReturnAll? || a.ShareHalf?)
  {
    hide Untaken;
    match a
    case Examine(_) =>
    case SetMark(_) =>
    case ReturnAll(_) =>
    case ShareHalf(_) =>
    case _ =>
  }

  lemma FineKeeps(s: State, t: State, id: nat, mayLeave: bool, gives: bool)
    requires Underway(s) && Fine(s, t, id, mayLeave, gives)
    requires (SomeoneLeft(s) ==> !gives) && (mayLeave ==> !gives && s.firstNonempty > Top(s))
    ensures Underway(t)
  {
    if i :| i in t.helpers && t.helpers[i].pc.Left? && !mayLeave {
      assert SomeoneLeft(s) by {
        assert i in s.helpers && s.helpers[i].pc.Left?;
      }
    }
  }

  lemma ReturnKept(s: State)
    requires Underway(s) && Enabled(s, Return)
    ensures Underway(Next(s, Return))
  {
    assert SomeoneLeft(s);
  }

  lemma UnderwayKept(s: State, a: Action, wanted: set<Obj>, bound: set<Obj>)
    requires Inv(s, wanted, bound) && Underway(s) && Enabled(s, a)
    ensures Underway(Next(s, a))
  {
    hide Inv, Fine, Next;
    NothingToGive(s, a, wanted, bound);
    if a.Return? {
      ReturnKept(s);
    } else if a.ReadFirst? || a.SwapFirst? || a.ReadTop? || a.LockIdle? {
      LoopStep(s, a);
      FineKeeps(s, Next(s, a), a.id, false, false);
    } else if a.Join? || a.TestWait? || a.Wake? || a.Decide? {
      IdleStep(s, a);
      FineKeeps(s, Next(s, a), a.id, a.Decide? && s.firstNonempty > Top(s), false);
    } else if a.ReadDescr? || a.Claim? || a.LocalDone? || a.TakeRange? {
      StealStep(s, a);
      FineKeeps(s, Next(s, a), a.id, false, false);
    } else {
      WorkStep(s, a);
      FineKeeps(s, Next(s, a), a.id, false, a.ReturnAll? || a.ShareHalf?);
    }
  }

  lemma {:induction false} RunUnderway(s: State, run: seq<State>, i: nat, wanted: set<Obj>)
    requires Ready(s, wanted) && Run(run) && run[0] == Next(s, Begin) && i < |run|
    ensures Underway(run[i])
  {
    hide Inv;
    if i > 0 {
      RunUnderway(s, run, i - 1, wanted);
      RunKeeps(s, run, i - 1, wanted, WideBound(s));
      assert StepOf(run, i);
      var a :| Does(run[i - 1], a, run[i]);
      UnderwayKept(run[i - 1], a, wanted, WideBound(s));
    }
  }

  /** Nothing is left on the shared stack and nobody can come in any more: help is no longer wanted, or helper 0 holds
      the mark lock and is about to leave, or everybody is in already. */
  predicate Settled(s: State) {
    && s.firstNonempty > Top(s)
    && (!s.helpWanted || s.lock == 0 || forall id :: id in s.helpers ==> !s.helpers[id].pc.Outside?)
  }

  lemma SettledKept(s: State, a: Action, wanted: set<Obj>, bound: set<Obj>)
    requires Inv(s, wanted, bound) && Underway(s) && s.active == 0 && Settled(s) && Enabled(s, a)
    ensures Next(s, a).active == 0 && Settled(Next(s, a))
  {
    hide Inv;
    RaisesExactly(s, a, wanted, bound);
    if a.TestWait? || a.Decide? {
      NobodyActive(s, a.id, wanted, bound);
    }
  }

  ghost predicate StaysZero(s: State) {
    forall rest: seq<State> :: Run(rest) && rest[0] == s ==> Last(rest).active == 0
  }

  lemma {:induction false} SettledStays(rest: seq<State>, n: nat, wanted: set<Obj>, bound: set<Obj>)
    requires Run(rest) && n < |rest|
    requires Inv(rest[0], wanted, bound) && Underway(rest[0]) && rest[0].active == 0 && Settled(rest[0])
    ensures Inv(rest[n], wanted, bound) && Underway(rest[n]) && rest[n].active == 0 && Settled(rest[n])
  {
    hide Inv, Underway, Settled;
    if n > 0 {
      SettledStays(rest, n - 1, wanted, bound);
      assert StepOf(rest, n);
      var a :| Does(rest[n - 1], a, rest[n]);
      NextKeeps(rest[n - 1], a, wanted, bound);
      UnderwayKept(rest[n - 1], a, wanted, bound);
      SettledKept(rest[n - 1], a, wanted, bound);
    }
  }

  lemma OneMore(rest: seq<State>, a: Action) returns (longer: seq<State>)
    requires Run(rest) && Enabled(Last(rest), a)
    ensures Run(longer) && longer[0] == rest[0] && Last(longer) == Next(Last(rest), a)
  {
    hide Next, Enabled;
    longer := rest + [Next(Last(rest), a)];
    forall i | 0 < i < |longer|
      ensures StepOf(longer, i)
    {
      if i < |rest| {
        assert StepOf(rest, i);
      } else {
        assert Does(longer[i - 1], a, longer[i]);
      }
    }
  }

  /** The helper that holds the mark lock comes to its decision. */
  lemma HolderDecides(s: State, id: nat) returns (rest: seq<State>)
    requires id in s.helpers && (s.helpers[id].pc.Waiting? || s.helpers[id].pc.Deciding?) && s.active == 0
    ensures Run(rest) && rest[0] == s && Last(rest) == DoDecide(AtPc(s, id, Deciding), id)
  {
    rest := [s];
    if s.helpers[id].pc.Waiting? {
      rest := OneMore(rest, TestWait(id));
    } else {
      assert s.helpers[id := s.helpers[id].(pc := Deciding)] == s.helpers;
    }
    rest := OneMore(rest, Decide(id));
  }

  lemma RisesWithWork(s: State, wanted: set<Obj>, bound: set<Obj>) returns (rest: seq<State>)
    requires Inv(s, wanted, bound) && Underway(s) && s.active == 0 && s.firstNonempty <= Top(s)
    ensures Run(rest) && rest[0] == s && Last(rest).active > 0
  {
    NobodyActive(s, 0, wanted, bound);
    assert !s.helpers[0].pc.Left? by {
      assert s.helpers[0].pc.Left? ==> SomeoneLeft(s);
    }
    if s.lock == FREE {
      rest := OneMore([s], Wake(0));
      rest := OneMore(rest, TestWait(0));
      rest := OneMore(rest, Decide(0));
    } else {
      assert s.lock in s.helpers;
      rest := HolderDecides(s, s.lock);
    }
  }

  lemma RisesByJoining(s: State, id: nat, wanted: set<Obj>, bound: set<Obj>) returns (rest: seq<State>)
    requires Inv(s, wanted, bound) && s.active == 0 && s.firstNonempty > Top(s)
    requires s.helpWanted && s.lock != 0 && id in s.helpers && s.helpers[id].pc.Outside?
    ensures Run(rest) && rest[0] == s && Last(rest).active > 0
  {
    if s.lock == FREE {
      rest := OneMore([s], Join(id));
    } else {
      assert s.lock in s.helpers;
      rest := HolderDecides(s, s.lock);
      rest := OneMore(rest, Join(id));
    }
  }

  /** Otherwise it can rise. */
  lemma UnsettledRises(s: State, wanted: set<Obj>, bound: set<Obj>) returns (rest: seq<State>)
    requires Inv(s, wanted, bound) && Underway(s) && s.active == 0 && !Settled(s)
    ensures Run(rest) && rest[0] == s && Last(rest).active > 0
  {
    hide Inv, Underway;
    if s.firstNonempty <= Top(s) {
      rest := RisesWithWork(s, wanted, bound);
    } else {
      var id :| id in s.helpers && s.helpers[id].pc.Outside?;
      rest := RisesByJoining(s, id, wanted, bound);
    }
  }

  /** Once zero, the count stays zero whatever happens next if and only if nothing is left on the shared stack and
      nobody can come in any more. */
  lemma StaysZeroForGood(s: State, run: seq<State>, i: nat, wanted: set<Obj>)
    requires Ready(s, wanted) && Run(run) && run[0] == Next(s, Begin) && i < |run| && run[i].active == 0
    ensures StaysZero(run[i]) <==> Settled(run[i])
  {
    hide Inv, Underway, Settled, Next, Ready;
    var bound := WideBound(s);
    RunKeeps(s, run, i, wanted, bound);
    RunUnderway(s, run, i, wanted);
    if Settled(run[i]) {
      forall rest: seq<State> | Run(rest) && rest[0] == run[i]
        ensures Last(rest).active == 0
      {
        SettledStays(rest, |rest| - 1, wanted, bound);
      }
    } else {
      var rest := UnsettledRises(run[i], wanted, bound);
    }
  }

  // ---- It may rise again

  const Idle := Helper(Outside, 0, [], [], false)

  /** Three threads and nothing to mark. */
  const Start := State(map[], {}, [], 4096, 0, 0, 0, false, false, FREE, map[0 := Idle, 1 := Idle, 2 := Idle], false,
                       {})

  /** The state that actions lead to, one after the other. */
  lemma TakeSteps(s: State, a: Action, b: Action, c: Action, d: Action) returns (rest: seq<State>)
    requires Enabled(s, a) && Enabled(Next(s, a), b) && Enabled(Next(Next(s, a), b), c)
    requires Enabled(Next(Next(Next(s, a), b), c), d)
    ensures Run(rest) && rest[0] == s && Last(rest) == Next(Next(Next(Next(s, a), b), c), d)
  {
    hide Next, Enabled;
    rest := OneMore([s], a);
    rest := OneMore(rest, b);
    rest := OneMore(rest, c);
    rest := OneMore(rest, d);
  }

  lemma RunsJoin(run: seq<State>, rest: seq<State>) returns (whole: seq<State>)
    requires Run(run) && Run(rest) && rest[0] == Last(run)
    ensures Run(whole) && whole[0] == run[0] && Last(whole) == Last(rest)
  {
    whole := run + rest[1..];
    forall i | 0 < i < |whole|
      ensures StepOf(whole, i)
    {
      if i < |run| {
        assert StepOf(run, i);
      } else {
        assert StepOf(rest, i - |run| + 1);
      }
    }
  }

  /** Helper 0 has found nothing to do. */
  const Halfway := Start.(active := 1, helperCount := 2, helpWanted := true, lock := 0,
                          helpers := map[0 := Idle.(pc := Waiting), 1 := Idle.(pc := AtLoop), 2 := Idle])

  lemma ToHalfway() returns (run: seq<State>)
    ensures Run(run) && run[0] == Next(Start, Begin) && Last(run) == Halfway
  {
    run := TakeSteps(Next(Start, Begin), Join(1), ReadFirst(0), ReadTop(0), LockIdle(0));
    assert Last(run).helpers == Halfway.helpers;
  }

  /** Helper 0 sleeps, and helper 1 has found nothing to do either. */
  const NoneActive := Start.(helperCount := 2, helpWanted := true, lock := 1, notified := {0, 1, 2},
                             helpers := map[0 := Idle.(pc := Sleeping), 1 := Idle.(pc := Waiting), 2 := Idle])

  lemma FromHalfway() returns (run: seq<State>)
    ensures Run(run) && run[0] == Halfway && Last(run) == NoneActive
  {
    run := TakeSteps(Halfway, TestWait(0), ReadFirst(1), ReadTop(1), LockIdle(1));
    assert Last(run).helpers == NoneActive.helpers;
  }

  /** Contrary to a comment in the source, GC_active_count does not stay zero once it has returned to zero: helper 0
      goes to sleep, helper 1 finds the count at zero while helper 2 has not come in yet, and then helper 2 does. */
  lemma MayRise() returns (run: seq<State>, rest: seq<State>)
    ensures Ready(Start, {}) && Run(run) && run[0] == Next(Start, Begin) && Last(run).active == 0
    ensures Run(rest) && rest[0] == Last(run) && Last(rest).active > 0
  {
    hide Inv, Underway, Ready, Run, Enabled, Next, Settled, Bounds;
    run := ToHalfway();
    var more := FromHalfway();
    run := RunsJoin(run, more);
    ThreadsReady();
    RunKeeps(Start, run, |run| - 1, {}, WideBound(Start));
    RunUnderway(Start, run, |run| - 1, {});
    rest := UnsettledRises(NoneActive, {}, WideBound(Start));
  }

  lemma ThreadsReady()
    ensures Ready(Start, {}) && Bounds(Start, WideBound(Start)) && NoneActive.active == 0 && !Settled(NoneActive)
  {
    assert NoneActive.helpers[2].pc.Outside?;
  }
}
