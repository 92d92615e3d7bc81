/** The drivers of alloc.c that start, continue and finish a mark phase. */
module MarkDriver {
  import opened MarkHeap
  import opened MarkSpec
  import opened Marking
  import opened Mutator

  /** Dead: the collector aborted the process because static roots did not fit on the mark stack. */
  datatype Result = Done | Stopped | Dead

  /** The bound established when marks were cleared and the closure proved at the end meet: the marked objects are
      exactly those reachable from the roots or from uncollectable objects. */
  ghost predicate Exact(h: Heap, base: set<Obj>, marks: set<Obj>) {
    forall o :: o in marks <==> Reachable(h, base, o)
  }

  lemma MarksExact(s: Snapshot, base: set<Obj>)
    requires Consistent(s) && s.state == MS_NONE && s.dirty == {} && s.rootsFresh && s.stale == iset{}
    requires base <= s.marks <= ReachableSet(s.heap, base)
    ensures Exact(s.heap, base, s.marks)
  {
    FinishedIsClosed(s);
    ReachableInClosed(s.heap, base, s.marks);
  }

  /** Everything reachable from the roots or from marked objects is marked, but for what stale words lead to. */
  ghost predicate OnlyStaleMissed(h: Heap, marks: set<Obj>, stale: iset<int>) {
    && ClosedBut(h, marks, stale) && RootsIn(h, marks)
    && forall o :: Reachable(h, marks, o) && o !in marks <==> Missed(h, marks, stale, o)
  }

  /** Without stale words that is everything reachable. */
  lemma NothingMissed(h: Heap, marks: set<Obj>)
    ensures OnlyStaleMissed(h, marks, iset{}) <==> forall o :: Reachable(h, marks, o) ==> o in marks
  {
    forall o
      ensures !Missed(h, marks, iset{}, o)
    {
    }
    if forall o :: Reachable(h, marks, o) ==> o in marks {
      forall o, a | o in marks && Slot(h, o, a) && HasTarget(h, a)
        ensures Target(h, a) in marks
      {
        assert PointsTo(h, o, Target(h, a));
        assert PathTo(h, marks, [o, Target(h, a)], Target(h, a));
      }
      forall a | RootSlot(h, a) && HasTarget(h, a)
        ensures Target(h, a) in marks
      {
        assert RootTarget(h, Target(h, a));
        assert PathTo(h, marks, [Target(h, a)], Target(h, a));
      }
    }
  }

  lemma ReachableTransitive(h: Heap, base: set<Obj>, marks: set<Obj>)
    requires Exact(h, base, marks)
    ensures forall o :: Reachable(h, marks, o) ==> o in marks
  {
    forall o | Reachable(h, marks, o) ensures o in marks {
      var path :| PathTo(h, marks, path, o);
      if path[0] in marks {
        var front :| PathTo(h, base, front, path[0]);
        PathJoin(h, base, front, path, o);
      } else {
        assert PathTo(h, base, path, o);
      }
    }
  }

  lemma PathJoin(h: Heap, base: set<Obj>, front: seq<Obj>, path: seq<Obj>, o: Obj)
    requires path != [] && PathTo(h, base, front, path[0])
    requires path[|path| - 1] == o && forall i :: 0 <= i < |path| - 1 ==> PointsTo(h, path[i], path[i + 1])
    ensures Reachable(h, base, o)
  {
    var joined := front + path[1..];
    forall i | 0 <= i < |joined| - 1 ensures PointsTo(h, joined[i], joined[i + 1]) {
      if i < |front| - 1 {
        assert PointsTo(h, front[i], front[i + 1]);
      } else {
        var j := i - (|front| - 1);
        assert PointsTo(h, path[j], path[j + 1]);
      }
    }
    assert PathTo(h, base, joined, o);
  }

  class Driver {
    const m: Marker
    const incremental: bool
    const rate: int
    const maxPriorAttempts: int
    const fullFreq: int
    var gcNo: int
    var isFullGc: bool
    var needFullGc: bool
    var attempts: int
    var deficit: int
    var partialGcs: int

    constructor (m: Marker, incremental: bool)
      ensures this.m == m && this.incremental == incremental && deficit == 0 && attempts == 0
      ensures rate == 10 && maxPriorAttempts == 3
    {
      this.m, this.incremental := m, incremental;
      rate, maxPriorAttempts, fullFreq := 10, 3, 19;
      gcNo, isFullGc, needFullGc, attempts, deficit, partialGcs := 0, false, false, 0, 0, 0;
    }

    /** GC_stopped_mark. It gives up only when the stop function says so, and only too many static roots for the mark
        stack can end the process; otherwise the loop is proved to terminate, whatever overflows on the way. */
    method StoppedMark(stop: Stop) returns (r: Result)
      requires m.Valid() && m.state in {MS_NONE, MS_INVALID}
      modifies this`gcNo, this`deficit, m, m.stack
      ensures m.stack == old(m.stack) || fresh(m.stack)
      ensures old(|m.heap.roots|) <= ROOT_ROOM ==> r != Dead
      ensures r != Dead ==> m.Valid() && m.heap == old(m.heap) && old(m.marks) <= m.marks && m.bound == old(m.bound)
      ensures r != Dead ==> m.stale == old(m.stale)
      ensures r == Stopped ==> deficit >= 0 && stop == After(deficit) && m.state != MS_NONE
      ensures stop == After(0) ==> r == Stopped
      ensures r == Done ==> m.state == MS_NONE && m.dirtyPages == {} && m.rootsFresh
      ensures r == Done ==> OnlyStaleMissed(m.heap, m.marks, m.stale)
      ensures gcNo == old(gcNo) + if r == Done then 1 else 0
      ensures r != Stopped ==> deficit == old(deficit)
    {
      hide Consistent, HeapWF, BoundWF, Bounded;
      m.InitiateGc();
      var finished, i;
      ghost var trace;
      finished, i, trace := m.MarkUntilDone(stop);
      match finished
      case Aborted => r := Dead;
      case More =>
        deficit := i;
        r := Stopped;
      case Finished =>
        m.FinishedClosed();
        gcNo := gcNo + 1;
        r := Done;
    }

    /** What is left of a stop function's patience after one more question. */
    function AskedOnce(stop: Stop): Stop {
      if stop.After? && stop.polls > 0 then After(stop.polls - 1) else stop
    }

    /** GC_finish_collection, as far as the mark phase is concerned. After a partial collection the next one is a full
        one if the heap has grown enough. */
    method FinishCollection()
      modifies this`isFullGc, this`attempts, this`needFullGc
      ensures !isFullGc && attempts == 0 && (old(isFullGc) ==> !needFullGc)
    {
      if isFullGc {
        needFullGc := false;
      } else {
        needFullGc := *;
      }
      attempts := 0;
      isFullGc := false;
    }

    function AttemptsLeft(): nat
      reads this
    {
      if attempts < maxPriorAttempts then maxPriorAttempts - attempts else 0
    }

    /** The stopped mark with which GC_collect_a_little_inner follows up the end of a phase: it may run out of time only
        so many times in a row. */
    method FollowUp(timeout: Stop) returns (r: Result)
      requires m.Valid() && m.state == MS_NONE
      modifies this, m, m.stack
      ensures m.stack == old(m.stack) || fresh(m.stack)
      ensures old(|m.heap.roots|) <= ROOT_ROOM ==> r != Dead
      ensures r != Dead ==> m.Valid() && m.heap == old(m.heap) && old(m.marks) <= m.marks
      ensures r != Dead ==> m.stale == old(m.stale)
      ensures r == Done ==> m.state == MS_NONE && attempts == 0 && !isFullGc
      ensures r == Done ==> OnlyStaleMissed(m.heap, m.marks, m.stale)
      ensures r == Stopped ==> timeout.After? && m.state != MS_NONE
      ensures timeout == After(0) && old(attempts) < maxPriorAttempts ==> r == Stopped
      ensures r == Stopped ==> attempts == old(attempts) + 1 <= maxPriorAttempts && isFullGc == old(isFullGc)
      ensures gcNo == old(gcNo) + if r == Done then 1 else 0
    {
      hide Consistent, HeapWF, BoundWF, Bounded, OnlyStaleMissed, Missed;
      r := StoppedMark(if attempts < maxPriorAttempts then timeout else Never);
      if r == Done {
        FinishCollection();
      } else if r == Stopped {
        attempts := attempts + 1;
      }
    }

    /** Marking steps that a stopped mark took in vain count against those of later calls. */
    method PayDeficit(maxDeficit: int)
      requires maxDeficit > 0
      modifies this`deficit
      ensures if old(deficit) <= 0 then deficit == old(deficit)
              else 0 <= deficit < old(deficit) && (deficit > 0 ==> deficit == old(deficit) - maxDeficit)
    {
      if deficit > 0 {
        deficit := deficit - maxDeficit;
        if deficit < 0 {
          deficit := 0;
        }
      }
    }

    /** The incremental part of GC_collect_a_little_inner: at most rate * n marking steps with the world running,
        and a stopped mark as soon as they finish a phase: either the collection has ended, or it is still in progress
        and has fewer attempts left because time ran out, or is closer to the end of its phase, or has a smaller
        deficit. */
    method ContinueCollection(n: int, timeout: Stop) returns (r: Result)
      requires incremental && n > 0 && rate * n > 0
      requires m.Valid() && m.state != MS_NONE
      modifies this, m, m.stack
      ensures m.stack == old(m.stack) || fresh(m.stack)
      ensures old(|m.heap.roots|) <= ROOT_ROOM ==> r != Dead
      ensures r == Stopped ==> m.state != MS_NONE
      ensures r != Dead ==> m.Valid() && m.heap == old(m.heap) && old(m.marks) <= m.marks
      ensures r != Dead ==> m.stale == old(m.stale)
      ensures r != Dead && m.state != MS_NONE ==>
                || AttemptsLeft() < old(AttemptsLeft())
                || (AttemptsLeft() == old(AttemptsLeft()) &&
                    (Smaller(m.Snap(), old(m.Snap())) || (m.Snap() == old(m.Snap()) && 0 <= deficit < old(deficit))))
      ensures r == Done ==> m.state == MS_NONE && attempts == 0 && !isFullGc
      ensures r == Done ==> OnlyStaleMissed(m.heap, m.marks, m.stale)
      ensures r == Stopped && attempts != old(attempts) ==>
                timeout.After? && attempts == old(attempts) + 1 <= maxPriorAttempts
      ensures r == Stopped ==> isFullGc == old(isFullGc)
      ensures gcNo == old(gcNo) + if r == Done then 1 else 0
    {
      hide Consistent, HeapWF, BoundWF, Bounded, MarkStep, FinishStep, Smaller, OnlyStaleMissed, Missed;
      var maxDeficit := rate * n;
      var finished, i;
      ghost var trace;
      finished, i, trace := m.MarkSteps(deficit, maxDeficit);
      if finished == Aborted {
        return Dead;
      }
      r := Stopped;
      if i < maxDeficit {
        r := FollowUp(timeout);
        if r == Dead {
          return;
        }
      }
      PayDeficit(maxDeficit);
    }

    /** The first loop of GC_try_to_collect_inner: finish an incremental collection in progress, if there is one.
        Repeated attempts, overflows and deficits included, it terminates; left is what remains of the stop function's
        patience. */
    method FinishInProgress(stop: Stop) returns (r: Result, left: Stop)
      requires incremental && rate > 0 && m.Valid()
      modifies this, m, m.stack
      ensures m.stack == old(m.stack) || fresh(m.stack)
      ensures old(|m.heap.roots|) <= ROOT_ROOM ==> r != Dead
      ensures r != Dead ==> m.Valid() && m.heap == old(m.heap) && old(m.marks) <= m.marks
      ensures r == Stopped ==> stop.After? && m.state != MS_NONE
      ensures left.After? <==> stop.After?
      ensures r == Done ==> m.state == MS_NONE && (old(m.state) != MS_NONE ==> gcNo > old(gcNo))
      ensures old(m.state) == MS_NONE ==> r == Done && m.Snap() == old(m.Snap())
      ensures gcNo >= old(gcNo)
    {
      hide Consistent, HeapWF, BoundWF, Bounded, MarkStep, FinishStep, Reachable;
      left := stop;
      while m.state != MS_NONE
        invariant m.stack == old(m.stack) || fresh(m.stack)
        invariant m.Valid() && m.heap == old(m.heap) && old(m.marks) <= m.marks
        invariant old(m.state) == MS_NONE ==> m.Snap() == old(m.Snap())
        invariant gcNo >= old(gcNo) && (m.state == MS_NONE && old(m.state) != MS_NONE ==> gcNo > old(gcNo))
        invariant left.After? <==> stop.After?
        decreases AttemptsLeft(), Unmarked(m.Snap()), Rank(m.Snap()), BlocksLeft(m.Snap()), Bytes(m.Entries()), deficit
      {
        if left == After(0) {
          return Stopped, left;
        }
        left := AskedOnce(left);
        m.MeasureBounded();
        var timeout: Stop := *;
        r := ContinueCollection(1, timeout);
        if r == Dead {
          return;
        }
        if m.state == MS_NONE {
          break;
        }
      }
      r := Done;
    }

    /** GC_reclaim_all as far as the stop function goes: it is asked any number of times. */
    method ReclaimAll(stop: Stop) returns (ok: bool, left: Stop)
      ensures !ok ==> stop.After?
      ensures left.After? <==> stop.After?
    {
      left := stop;
      var lists: nat := *;
      while lists > 0
        invariant left.After? <==> stop.After?
      {
        if left == After(0) {
          return false, left;
        }
        left := AskedOnce(left);
        lists := lists - 1;
      }
      ok := true;
    }

    /** The second half of GC_try_to_collect_inner: a full collection with the world stopped, from clear marks. */
    method FullCollection(stop: Stop) returns (r: Result)
      requires m.Sane()
      modifies this, m, m.stack
      ensures m.stack == old(m.stack) || fresh(m.stack)
      ensures old(|m.heap.roots|) <= ROOT_ROOM ==> r != Dead
      ensures r != Dead ==> m.Sane() && (incremental ==> m.Valid()) && m.heap == old(m.heap)
      ensures r == Stopped ==> stop.After? && m.state != MS_NONE
      ensures stop == After(0) ==> r == Stopped
      ensures r == Done ==> m.Valid() && m.state == MS_NONE && m.stale == iset{}
      ensures r == Done ==> Exact(m.heap, Uncollectable(old(m.Snap())), m.marks)
      ensures r == Done ==> !isFullGc && !needFullGc && attempts == 0
      ensures gcNo == old(gcNo) + if r == Done then 1 else 0
    {
      hide Consistent, HeapWF, BoundWF, Bounded, MarkStep, FinishStep, Reachable, Exact, ReachableSet, OnlyStaleMissed;
      ghost var base := Uncollectable(m.Snap());
      m.InvalidateMarkState();
      m.ClearMarks();
      isFullGc := true;
      r := StoppedMark(stop);
      if r == Stopped && !incremental {
        m.InvalidateMarkState();
      }
      if r == Done {
        MarksExact(m.Snap(), base);
        FinishCollection();
      }
    }

    /** GC_try_to_collect_inner: finish an incremental collection that is in progress, then do a full collection with
        the world stopped. On success the marked objects are exactly the reachable ones. */
    method TryToCollectInner(stop: Stop) returns (r: Result, ghost base: set<Obj>)
      requires rate > 0
      requires m.Sane() && (incremental ==> m.Valid())
      modifies this, m, m.stack
      ensures m.stack == old(m.stack) || fresh(m.stack)
      ensures old(|m.heap.roots|) <= ROOT_ROOM ==> r != Dead
      ensures r != Dead ==> m.Sane() && (incremental ==> m.Valid()) && m.heap == old(m.heap)
      ensures r == Stopped ==> stop.After?
      ensures stop == After(0) ==> r == Stopped && m.Snap() == old(m.Snap())
      ensures r == Done ==> m.Valid() && m.state == MS_NONE && m.stale == iset{} && Exact(m.heap, base, m.marks)
      ensures r == Done ==> !isFullGc && !needFullGc && attempts == 0 && gcNo > old(gcNo)
      ensures r == Done ==> Uncollectable(old(m.Snap())) <= base <= m.heap.objs.Keys
      ensures r == Done ==> forall o :: o in base ==> m.heap.objs[o].uncollectable
      ensures r == Done && (!incremental || old(m.state) == MS_NONE) ==> base == Uncollectable(old(m.Snap()))
    {
      hide Consistent, HeapWF, BoundWF, Bounded, MarkStep, FinishStep, Reachable, Exact, ReachableSet, Smaller;
      base := {};
      if stop == After(0) {
        return Stopped, base;
      }
      var left := AskedOnce(stop);
      if incremental {
        r, left := FinishInProgress(left);
        if r != Done {
          return;
        }
      }
      var reclaimed;
      reclaimed, left := ReclaimAll(left);
      if !reclaimed {
        return Stopped, base;
      }
      base := Uncollectable(m.Snap());
      r := FullCollection(left);
    }

    /** The next collection is to be a full one. */
    predicate FullIsDue()
      reads this`needFullGc, this`partialGcs
    {
      needFullGc || partialGcs >= fullFreq
    }

    /** A full collection starts with clear marks, a partial one keeps those of the previous collection. */
    method ChooseKind()
      requires m.Valid() && m.state == MS_NONE
      modifies this`partialGcs, this`isFullGc, m
      ensures m.Valid() && m.state in {MS_NONE, MS_INVALID} && m.heap == old(m.heap) && m.stack == old(m.stack)
      ensures partialGcs == (if old(FullIsDue()) then 0 else old(partialGcs) + 1) &&
              isFullGc == old(isFullGc || FullIsDue())
      ensures if !old(FullIsDue()) then m.Snap() == old(m.Snap())
              else m.marks == Uncollectable(old(m.Snap())) && m.bound == ReachableSet(m.heap, m.marks)
                   && m.stale == iset{}
    {
      hide Consistent, HeapWF, BoundWF, Bounded;
      EmptyWhenNone(m.Snap());
      if needFullGc || partialGcs >= fullFreq {
        assert m.Entries() == [];
        m.ClearMarks();
        partialGcs := 0;
        isFullGc := true;
      } else {
        partialGcs := partialGcs + 1;
      }
    }

    /** GC_maybe_gc: a partial or a full collection, with the world stopped until time runs out. */
    method MaybeGc(shouldCollect: bool, timeout: Stop) returns (r: Result)
      requires rate > 0
      requires m.Sane() && (incremental ==> m.Valid() && m.state == MS_NONE)
      modifies this, m, m.stack
      ensures m.stack == old(m.stack) || fresh(m.stack)
      ensures old(|m.heap.roots|) <= ROOT_ROOM ==> r != Dead
      ensures shouldCollect && r == Stopped ==> incremental && timeout.After? && m.state != MS_NONE
      ensures r != Dead ==> m.Sane() && (incremental ==> m.Valid()) && m.heap == old(m.heap)
      ensures shouldCollect && incremental && timeout == After(0) ==> r == Stopped
      ensures r == Done ==> m.state == MS_NONE && OnlyStaleMissed(m.heap, m.marks, m.stale)
      ensures r == Done ==> m.Valid() && m.stale <= old(m.stale)
      ensures r == Done && incremental && !old(FullIsDue()) ==> old(m.marks) <= m.marks
      ensures r == Done && (!incremental || old(FullIsDue())) ==> Exact(m.heap, Uncollectable(old(m.Snap())), m.marks)
      ensures incremental && shouldCollect ==> partialGcs == if old(FullIsDue()) then 0 else old(partialGcs) + 1
      ensures r == Done ==> attempts == 0 && !isFullGc && gcNo > old(gcNo)
      ensures incremental && shouldCollect && r == Stopped ==>
                isFullGc == old(isFullGc || FullIsDue()) && attempts == old(attempts) + if isFullGc then 0 else 1
      ensures !shouldCollect ==> r == Stopped && m.Snap() == old(m.Snap()) && partialGcs == old(partialGcs)
    {
      hide Consistent, HeapWF, BoundWF, Bounded, Reachable, Exact, OnlyStaleMissed, Missed;
      if !shouldCollect {
        return Stopped;
      }
      if !incremental {
        ghost var base;
        r, base := TryToCollectInner(Never);
        if r == Done {
          ReachableTransitive(m.heap, base, m.marks);
          NothingMissed(m.heap, m.marks);
        }
        return;
      }
      ghost var full, base := FullIsDue(), Uncollectable(m.Snap());
      ChooseKind();
      r := StoppedMark(timeout);
      if r == Done {
        if full {
          MarksExact(m.Snap(), base);
        }
        FinishCollection();
      } else if !isFullGc && r == Stopped {
        attempts := attempts + 1;
      }
    }

    /** GC_collect_a_little_inner: goes on with an incremental collection that is in progress, or sees whether one is
        due. */
    method CollectALittle(n: int, shouldCollect: bool, timeout: Stop) returns (r: Result)
      requires rate > 0 && rate * n > 0 && n > 0
      requires m.Sane() && (incremental ==> m.Valid())
      modifies this, m, m.stack
      ensures m.stack == old(m.stack) || fresh(m.stack)
      ensures old(|m.heap.roots|) <= ROOT_ROOM ==> r != Dead
      ensures r == Stopped && (shouldCollect || (incremental && old(m.state) != MS_NONE)) ==>
                incremental && m.state != MS_NONE
      ensures r == Stopped && old(m.state) == MS_NONE && shouldCollect ==> timeout.After?
      ensures r != Dead ==> m.Sane() && (incremental ==> m.Valid()) && m.heap == old(m.heap)
      ensures r == Done ==> m.state == MS_NONE && OnlyStaleMissed(m.heap, m.marks, m.stale)
      ensures r == Done ==> m.Valid() && m.stale <= old(m.stale)
      ensures r == Done && incremental && (old(m.state) != MS_NONE || !old(FullIsDue())) ==> old(m.marks) <= m.marks
      ensures r == Done && (!incremental || (old(m.state) == MS_NONE && old(FullIsDue()))) ==>
                Exact(m.heap, Uncollectable(old(m.Snap())), m.marks)
      ensures r == Done ==> attempts == 0 && !isFullGc
    {
      hide Consistent, HeapWF, BoundWF, Bounded, Smaller, OnlyStaleMissed, Exact;
      if incremental && m.state != MS_NONE {
        r := ContinueCollection(n, timeout);
      } else {
        r := MaybeGc(shouldCollect, timeout);
      }
    }

    /** The world runs for a while, and then an allocation makes the collector do a little. */
    method Round(n: int, shouldCollect: bool, timeout: Stop, heap: Heap, marks: set<Obj>, dirty: set<int>,
                 ghost stale: iset<int>, ghost run: seq<Snapshot>)
      returns (r: Result)
      requires rate > 0 && rate * n > 0 && n > 0 && m.Valid() && MutatorRun(run) && run[0] == m.Snap()
      requires run[|run| - 1] ==
                 m.Snap().(heap := heap, marks := marks, dirty := dirty, rootsFresh := false, stale := stale)
      modifies this, m, m.stack
      ensures |heap.roots| <= ROOT_ROOM ==> r != Dead
      ensures r == Stopped && (shouldCollect || (incremental && old(m.state) != MS_NONE)) ==> m.state != MS_NONE
      ensures r != Dead ==> m.Sane() && (incremental ==> m.Valid()) && m.heap == heap
      ensures r == Done ==> m.state == MS_NONE && OnlyStaleMissed(heap, m.marks, m.stale)
    {
      hide Consistent, HeapWF, BoundWF, Bounded, MutatorStep, OnlyStaleMissed;
      m.MutatorsRun(heap, marks, dirty, stale, run);
      r := CollectALittle(n, shouldCollect, timeout);
    }
  }
}
