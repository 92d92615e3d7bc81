/** Runs of the collector interleaved with the mutators in any way. */
module MarkRuns {
  import opened MarkHeap
  import opened MarkSpec
  import opened Mutator

  /** A step of GC_mark_some, whether or not it ends the mark phase. */
  ghost predicate MarkSomeStep(s: Snapshot, t: Snapshot) {
    MarkStep(s, t) || FinishStep(s, t)
  }

  ghost predicate AnyStep(s: Snapshot, t: Snapshot) {
    || MarkSomeStep(s, t)
    || MutatorStep(s, t)
    || (s.state in {MS_NONE, MS_INVALID} && t == Initiated(s))
    || t == Cleared(s)
    || t == Cleared(Flushed(s))
  }

  /** GC_invalidate_mark_state, before a collection in progress is given up for a new one. */
  ghost function Flushed(s: Snapshot): Snapshot { s.(stack := []) }

  ghost predicate StepOf(run: seq<Snapshot>, i: nat)
    requires 0 < i < |run|
  {
    AnyStep(run[i - 1], run[i])
  }

  ghost predicate Run(run: seq<Snapshot>) {
    run != [] && Consistent(run[0]) && forall i :: 0 < i < |run| ==> StepOf(run, i)
  }

  lemma AnyStepKeeps(s: Snapshot, t: Snapshot)
    requires Consistent(s) && AnyStep(s, t)
    ensures Consistent(t)
  {
    if MarkStep(s, t) {
      MarkStepKeeps(s, t);
    } else if FinishStep(s, t) {
      FinishStepKeeps(s, t);
    } else if MutatorStep(s, t) {
      MutatorStepRespectsBarrier(s, t);
      MutatorKeeps(s, t);
    } else if t == Cleared(s) {
      ClearedConsistent(s);
    } else if t == Cleared(Flushed(s)) {
      ClearedConsistent(Flushed(s));
    } else {
      InitiatedConsistent(s);
    }
  }

  lemma {:induction false} RunConsistent(run: seq<Snapshot>, i: nat)
    requires Run(run) && i < |run|
    ensures Consistent(run[i])
  {
    if i > 0 {
      RunConsistent(run, i - 1);
      assert StepOf(run, i);
      AnyStepKeeps(run[i - 1], run[i]);
    }
  }

  /** From index k on the world is stopped: marking was initiated there and only marking steps follow. */
  ghost predicate StoppedFrom(run: seq<Snapshot>, k: nat) {
    && 0 < k < |run|
    && run[k - 1].state in {MS_NONE, MS_INVALID} && run[k] == Initiated(run[k - 1])
    && forall i :: k < i < |run| ==> MarkSomeStep(run[i - 1], run[i])
  }

  lemma {:induction false} StoppedKeeps(run: seq<Snapshot>, k: nat, i: nat)
    requires Run(run) && StoppedFrom(run, k) && k <= i < |run|
    ensures run[i].dirty == {} && run[i].heap == run[k].heap
    ensures run[i].state in {MS_ROOTS_PUSHED, MS_NONE} ==> run[i].rootsFresh
    decreases i
  {
    hide Consistent, MarkStep, FinishStep, Smaller;
    if i > k {
      StoppedKeeps(run, k, i - 1);
      RunConsistent(run, i - 1);
      assert MarkSomeStep(run[i - 1], run[i]);
      AfterMarkSome(run[i - 1], run[i], if MarkStep(run[i - 1], run[i]) then More else Finished);
    }
  }

  /** Whatever happened before - mutator runs between any two steps, overflows, abandoned attempts, earlier
      generations - a stopped mark that reaches MS_NONE has marked exactly those objects reachable at that moment, from
      the roots or from marked objects, that no stale word has to lead to. */
  lemma StoppedMarkIsSafe(run: seq<Snapshot>, k: nat)
    requires Run(run) && StoppedFrom(run, k)
    requires run[|run| - 1].state == MS_NONE
    ensures var t := run[|run| - 1];
            forall o :: Reachable(t.heap, t.marks, o) && o !in t.marks <==> Missed(t.heap, t.marks, t.stale, o)
  {
    var t := run[|run| - 1];
    StoppedKeeps(run, k, |run| - 1);
    RunConsistent(run, |run| - 1);
    FinishedIsClosed(t);
    MissedExactly(t.heap, t.marks, t.stale);
  }

  // ---- Stale words

  /** The word at a named nothing until an allocation made it a pointer. */
  ghost predicate MadeStale(s: Snapshot, t: Snapshot, a: int) {
    (exists b :: Allocated(s, t, b)) && WentStale(s, t, a)
  }

  /** Stale words lie in marked objects, where only the mutator can change them. */
  ghost predicate StaleHeld(s: Snapshot) {
    forall a :: a in s.stale ==> InMarked(s, a)
  }

  lemma StaleStep(s: Snapshot, t: Snapshot, a: int)
    requires Consistent(s) && AnyStep(s, t) && StaleHeld(s) && a in t.stale
    ensures InMarked(t, a)
    ensures (a in s.stale || MadeStale(s, t, a)) && Load(t.heap, a) == Load(s.heap, a)
  {
    hide Consistent, HeapWF, MarkStep, FinishStep;
    if MarkSomeStep(s, t) {
      AfterMarkSome(s, t, if MarkStep(s, t) then More else Finished);
      InMarkedMore(s, t, a);
    } else if MutatorStep(s, t) {
      StaleMutatorStep(s, t, a);
    } else if a in s.stale {
      InMarkedMore(s, t, a);
    }
  }

  lemma InMarkedMore(s: Snapshot, t: Snapshot, a: int)
    requires s.heap == t.heap && s.marks <= t.marks
    ensures InMarked(s, a) ==> InMarked(t, a)
  {
  }

  lemma StaleMutatorStep(s: Snapshot, t: Snapshot, a: int)
    requires Consistent(s) && MutatorStep(s, t) && StaleHeld(s) && a in t.stale
    ensures InMarked(t, a)
    ensures a in s.stale || MadeStale(s, t, a)
    ensures Load(t.heap, a) == Load(s.heap, a)
  {
    hide Consistent, HeapWF;
    if o, p :| Wrote(s, t, o, p) {
      SlotsKept(s, t, a);
    } else if RootsChanged(s, t) {
      SlotsKept(s, t, a);
    } else if b :| Allocated(s, t, b) {
      AllocatedStale(s, t, b, a);
    }
  }

  lemma SlotsKept(s: Snapshot, t: Snapshot, a: int)
    requires t.heap.objs == s.heap.objs && t.marks == s.marks
    ensures InMarked(s, a) ==> InMarked(t, a)
  {
    if o :| o in s.marks && Slot(s.heap, o, a) {
      assert Slot(t.heap, o, a);
    }
  }

  lemma AllocatedStale(s: Snapshot, t: Snapshot, b: Block, a: int)
    requires Allocated(s, t, b) && StaleHeld(s) && a in t.stale
    ensures InMarked(t, a) && (a in s.stale || WentStale(s, t, a)) && Load(t.heap, a) == Load(s.heap, a)
  {
    hide HeapWF;
    assert InMarked(s, a);
    var o :| o in s.marks && Slot(s.heap, o, a);
    assert Slot(t.heap, o, a);
  }

  lemma {:induction false} RunStaleHeld(run: seq<Snapshot>, i: nat)
    requires Run(run) && run[0].stale == iset{} && i < |run|
    ensures StaleHeld(run[i])
  {
    if i > 0 {
      RunStaleHeld(run, i - 1);
      RunConsistent(run, i - 1);
      assert StepOf(run, i);
      forall a | a in run[i].stale
        ensures InMarked(run[i], a)
      {
        StaleStep(run[i - 1], run[i], a);
      }
    }
  }

  ghost predicate UnchangedFrom(run: seq<Snapshot>, k: nat, i: nat, a: int)
    requires i < |run|
  {
    forall j :: k <= j <= i ==> Load(run[j].heap, a) == Load(run[i].heap, a)
  }

  lemma StaleAt(run: seq<Snapshot>, i: nat, a: int)
    requires Run(run) && run[0].stale == iset{} && i < |run| && a in run[i].stale
    ensures i > 0 && (a in run[i - 1].stale || MadeStale(run[i - 1], run[i], a))
    ensures i > 0 && Load(run[i].heap, a) == Load(run[i - 1].heap, a)
  {
    RunStaleHeld(run, i - 1);
    RunConsistent(run, i - 1);
    assert StepOf(run, i);
    StaleStep(run[i - 1], run[i], a);
  }

  /** A word is stale only if it stood in a marked object of a clean block when what it names was allocated, and has not
      been written since before that. */
  lemma {:induction false} StaleHistory(run: seq<Snapshot>, i: nat, a: int) returns (k: nat)
    requires Run(run) && run[0].stale == iset{} && i < |run| && a in run[i].stale
    ensures 0 < k <= i && MadeStale(run[k - 1], run[k], a) && UnchangedFrom(run, k - 1, i, a)
  {
    hide Run, MadeStale, Load;
    StaleAt(run, i, a);
    if a in run[i - 1].stale {
      k := StaleHistory(run, i - 1, a);
    } else {
      k := i;
    }
  }

  /** The step from s to t allocates what a word in a marked object of a clean block happened to name. */
  ghost predicate MakesStale(s: Snapshot, t: Snapshot) {
    exists a :: MadeStale(s, t, a)
  }

  /** Missing an object takes such a step. */
  lemma MissingTakesAllocation(run: seq<Snapshot>, o: Obj) returns (i: nat)
    requires Run(run) && run[0].stale == iset{}
    requires Missed(run[|run| - 1].heap, run[|run| - 1].marks, run[|run| - 1].stale, o)
    ensures 0 < i < |run| && MakesStale(run[i - 1], run[i])
  {
    var t := run[|run| - 1];
    var a := MissedHasStaleWord(t.heap, t.marks, t.stale, o);
    i := StaleHistory(run, |run| - 1, a);
  }

  /** Without one everything reachable is marked. */
  lemma StoppedMarkIsComplete(run: seq<Snapshot>, k: nat)
    requires Run(run) && run[0].stale == iset{} && StoppedFrom(run, k) && run[|run| - 1].state == MS_NONE
    requires forall i :: 0 < i < |run| ==> !MakesStale(run[i - 1], run[i])
    ensures var t := run[|run| - 1]; forall o :: Reachable(t.heap, t.marks, o) ==> o in t.marks
  {
    hide MakesStale, Missed;
    var t := run[|run| - 1];
    StoppedMarkIsSafe(run, k);
    forall o
      ensures !Missed(t.heap, t.marks, t.stale, o)
    {
      if Missed(t.heap, t.marks, t.stale, o) {
        var i := MissingTakesAllocation(run, o);
      }
    }
  }

  lemma MissedHasStaleWord(h: Heap, marks: set<Obj>, stale: iset<int>, o: Obj) returns (a: int)
    requires Missed(h, marks, stale, o)
    ensures a in stale
  {
    var path :| OverlookedPath(h, marks, stale, path, o);
    var p;
    p, a :| p in marks && Slot(h, p, a) && a in stale && Open(h, marks, a) && Target(h, a) == path[0];
  }

  // ---- An object that is missed

  /** One object in the first block, whose only word is left over from before: it holds the address of the second block,
      which is free. A root refers to the object, and it is marked. */
  ghost function LeftOver(): Snapshot {
    var b := Block(HBLKSIZE, HBLKSIZE, WORD, false);
    var h := Heap([b], map[HBLKSIZE := b], map[HBLKSIZE := 2 * HBLKSIZE, 1 := HBLKSIZE], map[HBLKSIZE := HBLKSIZE],
                  [Mse(1, WORD)], [], 0, 4 * HBLKSIZE);
    Snapshot(h, {HBLKSIZE}, [], MS_NONE, 0, true, {}, {}, false, iset{})
  }

  /** The second block is allocated for one pointer-free object. */
  ghost function SecondBlock(): Block { Block(2 * HBLKSIZE, HBLKSIZE, 0, false) }

  ghost function SecondAllocated(): Snapshot {
    var s := LeftOver();
    s.(heap := s.heap.(blocks := s.heap.blocks + [SecondBlock()], objs := s.heap.objs[2 * HBLKSIZE := SecondBlock()],
                       resolve := s.heap.resolve[2 * HBLKSIZE := 2 * HBLKSIZE]),
       dirty := {2 * HBLKSIZE}, stale := iset{HBLKSIZE})
  }

  lemma OneObject(p: int, descr: int)
    requires p > 0 && Page(p) == p && 0 <= descr <= WORD
    ensures var b := Block(p, HBLKSIZE, descr, false); b.WF() && Objs(b) == [p] && b.End() == p + HBLKSIZE
  {
    PageOf(0, 0);
    PageOf(HBLKSIZE, 2 * HBLKSIZE - 1);
    assert ObjsFrom(p + HBLKSIZE, HBLKSIZE, p) == [];
  }

  lemma PageStarts()
    ensures Page(HBLKSIZE) == HBLKSIZE && Page(2 * HBLKSIZE) == 2 * HBLKSIZE
  {
    PageOf(0, 0);
    PageOf(HBLKSIZE, HBLKSIZE);
  }

  lemma LeftOverConsistent()
    ensures Consistent(LeftOver())
  {
    PageOf(0, 0);
    OneObject(HBLKSIZE, WORD);
  }

  lemma TwoBlocksApart()
    ensures BlocksWF(SecondAllocated().heap.blocks)
  {
    hide Objs, Page;
    var bs := SecondAllocated().heap.blocks;
    PageStarts();
    OneObject(HBLKSIZE, WORD);
    OneObject(2 * HBLKSIZE, 0);
    assert bs == [LeftOver().heap.blocks[0], SecondBlock()];
  }

  lemma TwoBlocks()
    ensures HeapWF(SecondAllocated().heap)
  {
    hide Objs, Page, BlocksWF;
    var h, b, c := SecondAllocated().heap, LeftOver().heap.blocks[0], SecondBlock();
    TwoBlocksApart();
    PageStarts();
    OneObject(HBLKSIZE, WORD);
    OneObject(2 * HBLKSIZE, 0);
    assert h.blocks == [b, c] && h.objs == map[HBLKSIZE := b, 2 * HBLKSIZE := c];
  }

  lemma OnlyOneStale(a: int)
    ensures WentStale(LeftOver(), SecondAllocated(), a) <==> a == HBLKSIZE
  {
    var s, t := LeftOver(), SecondAllocated();
    assert Slot(s.heap, HBLKSIZE, a) <==> a == HBLKSIZE;
    assert !AnyPage(2 * HBLKSIZE, 2 * HBLKSIZE, t.dirty);
    assert !BlockDirty(s.heap.objs[HBLKSIZE], t.dirty);
    assert a == HBLKSIZE ==> !HasTarget(s.heap, a) && HasTarget(t.heap, a);
  }

  lemma SecondIsAllocated()
    ensures Allocated(LeftOver(), SecondAllocated(), SecondBlock())
  {
    hide HeapWF, WentStale;
    var s, t := LeftOver(), SecondAllocated();
    TwoBlocks();
    forall a
      ensures WentStale(s, t, a) <==> a in t.stale
    {
      OnlyOneStale(a);
    }
    assert t.stale == s.stale + iset a | WentStale(s, t, a);
  }

  /** The steps of a stopped mark from there: the dirty second block is scanned and has nothing marked, the roots are
      pushed, and scanning them finds the first object, which is marked. */
  ghost function SecondScanned(): Snapshot { Initiated(SecondAllocated()).(scan := 3 * HBLKSIZE) }

  ghost function RootsThere(): Snapshot {
    SecondScanned().(scan := 0, stack := [Mse(1, WORD)], state := MS_ROOTS_PUSHED, rootsFresh := true)
  }

  lemma ScansSecond()
    ensures ScanStep(Initiated(SecondAllocated()), SecondScanned())
  {
    var s, t := Initiated(SecondAllocated()), SecondScanned();
    var bs := s.heap.blocks;
    assert bs == [LeftOver().heap.blocks[0], SecondBlock()];
    assert !AnyPage(2 * HBLKSIZE, 2 * HBLKSIZE, s.grungy);
    assert Skippable(s, bs[0]);
    assert BlockPushed(s.heap, s.marks, t.stack, bs[1]);
    assert NextBlock(bs, 3 * HBLKSIZE) == 2 > NextBlock(bs, 0);
    assert Scanned(s, t);
  }

  lemma RootOnly(a: int)
    ensures RootSlot(SecondAllocated().heap, a) || CoveredBy([Mse(1, WORD)], a) ==> a == 1
    ensures RootSlot(SecondAllocated().heap, 1) && !Open(SecondAllocated().heap, {HBLKSIZE}, 1)
  {
    CoveredByOne(Mse(1, WORD), a);
    CoveredByOne(Mse(1, WORD), 1);
  }

  lemma PushesRoots()
    ensures ScanStep(SecondScanned(), RootsThere())
  {
    var s, t := SecondScanned(), RootsThere();
    var m := s.(scan := 0);
    assert Scanned(s, m);
    forall a
      ensures !(RootSlot(s.heap, a) && Open(s.heap, t.marks, a))
    {
      RootOnly(a);
    }
    assert RootsPushed(m, t);
  }

  lemma ScansRoots()
    ensures MarkedFrom(RootsThere(), RootsThere().(stack := []))
  {
    var s, t := RootsThere(), RootsThere().(stack := []);
    forall a
      ensures !(CoveredBy(s.stack, a) && Open(s.heap, t.marks, a))
    {
      RootOnly(a);
    }
    BytesPush([], Mse(1, WORD));
    assert s.stack == [] + [Mse(1, WORD)];
  }

  /** The whole run, and that each of its steps is one. */
  ghost function MissingRun(): seq<Snapshot> {
    [LeftOver(), SecondAllocated(), Initiated(SecondAllocated()), SecondScanned(), RootsThere(),
     RootsThere().(stack := []),
     RootsThere().(stack := [], state := MS_NONE)]
  }

  lemma MissingSteps()
    ensures AnyStep(LeftOver(), SecondAllocated()) && MarkSomeStep(Initiated(SecondAllocated()), SecondScanned())
    ensures MarkSomeStep(SecondScanned(), RootsThere()) && MarkSomeStep(RootsThere(), RootsThere().(stack := []))
    ensures MarkSomeStep(RootsThere().(stack := []), RootsThere().(stack := [], state := MS_NONE))
  {
    hide Allocated, ScanStep, MarkedFrom;
    SecondIsAllocated();
    assert MutatorStep(LeftOver(), SecondAllocated());
    ScansSecond();
    PushesRoots();
    ScansRoots();
  }

  lemma LeftOverLeadsOn()
    ensures Reachable(SecondAllocated().heap, {HBLKSIZE}, 2 * HBLKSIZE)
  {
    var h := SecondAllocated().heap;
    assert Slot(h, HBLKSIZE, HBLKSIZE) && HasTarget(h, HBLKSIZE) && Target(h, HBLKSIZE) == 2 * HBLKSIZE;
    assert PointsTo(h, HBLKSIZE, 2 * HBLKSIZE);
    assert PathTo(h, {HBLKSIZE}, [HBLKSIZE, 2 * HBLKSIZE], 2 * HBLKSIZE);
  }

  /** A stopped mark that misses an object: the left-over word leads to it, and the write barrier knows nothing of that
      word. */
  lemma StaleWordIsMissed() returns (run: seq<Snapshot>)
    ensures Run(run) && run[0].stale == iset{} && StoppedFrom(run, 2) && run[|run| - 1].state == MS_NONE
    ensures var t := run[|run| - 1]; exists o :: Reachable(t.heap, t.marks, o) && o !in t.marks
  {
    hide MarkSomeStep, Reachable, Consistent, MutatorStep;
    run := MissingRun();
    LeftOverConsistent();
    MissingSteps();
    LeftOverLeadsOn();
    forall i | 0 < i < |run|
      ensures StepOf(run, i)
    {
      assert AnyStep(run[i - 1], run[i]);
    }
    assert Reachable(run[6].heap, run[6].marks, 2 * HBLKSIZE);
  }

  /** A stopped mark cannot go on for ever: while the world is stopped every step is smaller in the
      well-founded order of MarkSpec.Smaller, overflows included. */
  lemma StoppedMarkProgresses(run: seq<Snapshot>, k: nat, i: nat)
    requires Run(run) && StoppedFrom(run, k) && k < i < |run| && run[i].state != MS_NONE
    ensures Smaller(run[i], run[i - 1])
  {
    hide Consistent, MarkStep, Smaller;
    RunConsistent(run, i - 1);
    assert MarkSomeStep(run[i - 1], run[i]);
    MarkStepKeeps(run[i - 1], run[i]);
  }
}
