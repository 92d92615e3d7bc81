/** What each state of the marker promises, as predicates over a snapshot of the collector's state,
    and what the marking, scanning and mutator steps keep of those promises. */
module MarkSpec {
  import opened MarkHeap

  datatype MarkState = MS_NONE | MS_PUSH_RESCUERS | MS_PUSH_UNCOLLECTABLE
                     | MS_ROOTS_PUSHED | MS_INVALID | MS_PARTIALLY_INVALID

  datatype Snapshot = Snapshot(
    heap: Heap,
    marks: set<Obj>,
    stack: seq<Mse>,
    state: MarkState,
    scan: int,                 // GC_scan_ptr, 0 for NULL
    objectsAreMarked: bool,
    dirty: set<int>,           // pages written since the dirty bits were last read
    grungy: set<int>,          // pages that were dirty when the bits were last read
    rootsFresh: bool,          // no mutator has run since the roots were last pushed
    stale: iset<int>)          // positions whose word only became a pointer when what it names was allocated

  // ---- Grey positions

  /** Marking moved from (es, m) to (es', m') without losing a pending position: whatever was pending and still
      refers to an unmarked object is pending, and so is every such position of a newly marked object. */
  ghost predicate Kept(h: Heap, es: seq<Mse>, m: set<Obj>, es': seq<Mse>, m': set<Obj>) {
    && m <= m'
    && (forall a :: CoveredBy(es, a) && Open(h, m', a) ==> CoveredBy(es', a))
    && (forall o, a :: o in m' && o !in m && Slot(h, o, a) && Open(h, m', a) ==> CoveredBy(es', a))
  }

  lemma KeptTransitive(h: Heap, es0: seq<Mse>, m0: set<Obj>, es1: seq<Mse>, m1: set<Obj>, es2: seq<Mse>, m2: set<Obj>)
    requires Kept(h, es0, m0, es1, m1) && Kept(h, es1, m1, es2, m2)
    ensures Kept(h, es0, m0, es2, m2)
  {
  }

  lemma CoveredByConcat(xs: seq<Mse>, ys: seq<Mse>, a: int)
    ensures CoveredBy(xs + ys, a) <==> CoveredBy(xs, a) || CoveredBy(ys, a)
  {
    if CoveredBy(xs, a) {
      var i :| 0 <= i < |xs| && Covers(xs[i], a);
      assert Covers((xs + ys)[i], a);
    }
    if CoveredBy(ys, a) {
      var i :| 0 <= i < |ys| && Covers(ys[i], a);
      assert Covers((xs + ys)[|xs| + i], a);
    }
    if CoveredBy(xs + ys, a) {
      var i :| 0 <= i < |xs + ys| && Covers((xs + ys)[i], a);
      if i < |xs| {
        assert Covers(xs[i], a);
      } else {
        assert Covers(ys[i - |xs|], a);
      }
    }
  }

  lemma CoveredByOne(e: Mse, a: int)
    ensures CoveredBy([e], a) <==> Covers(e, a)
  {
    if Covers(e, a) {
      assert Covers([e][0], a);
    }
  }

  /** Pending work that a step leaves alone stays pending. */
  lemma KeptFrame(h: Heap, es: seq<Mse>, m: set<Obj>, es': seq<Mse>, m': set<Obj>, rest: seq<Mse>)
    requires Kept(h, es, m, es', m')
    ensures Kept(h, es + rest, m, es' + rest, m')
  {
    forall a ensures CoveredBy(es + rest, a) <==> CoveredBy(es, a) || CoveredBy(rest, a) {
      CoveredByConcat(es, rest, a);
    }
    forall a ensures CoveredBy(es' + rest, a) <==> CoveredBy(es', a) || CoveredBy(rest, a) {
      CoveredByConcat(es', rest, a);
    }
  }

  // ---- Soundness of marking

  ghost predicate Bounded(h: Heap, es: seq<Mse>, bound: set<Obj>) {
    forall a :: CoveredBy(es, a) && HasTarget(h, a) ==> Target(h, a) in bound
  }

  ghost predicate BoundWF(h: Heap, bound: set<Obj>) {
    Closed(h, bound) && RootsIn(h, bound) && bound <= h.objs.Keys
  }

  // ---- Termination measure

  function Bytes(es: seq<Mse>): int {
    if es == [] then 0 else Bytes(es[..|es| - 1]) + es[|es| - 1].descr
  }

  lemma BytesPush(es: seq<Mse>, e: Mse)
    ensures Bytes(es + [e]) == Bytes(es) + e.descr
  {
  }

  lemma {:induction false} BytesNonNegative(es: seq<Mse>)
    requires forall i :: 0 <= i < |es| ==> es[i].descr > 0
    ensures Bytes(es) >= 0 && (es != [] ==> Bytes(es) > 0)
  {
    if es != [] {
      BytesNonNegative(es[..|es| - 1]);
    }
  }

  lemma MoreMarksFewerUnmarked(all: set<Obj>, m: set<Obj>, m': set<Obj>)
    requires m <= m' <= all
    ensures |all - m'| <= |all - m|
    ensures m != m' ==> |all - m'| < |all - m|
  {
    assert all - m == (all - m') + (m' - m);
    assert m' == m + (m' - m);
    assert m != m' ==> m' - m != {};
  }

  function Unmarked(s: Snapshot): nat { |s.heap.objs.Keys - s.marks| }

  function Rank(s: Snapshot): nat {
    match s.state
    case MS_NONE => 0
    case MS_ROOTS_PUSHED => 1
    case MS_PUSH_RESCUERS => 2
    case MS_PARTIALLY_INVALID => 3
    case MS_INVALID => if s.objectsAreMarked then 4 else 6
    case MS_PUSH_UNCOLLECTABLE => 5
  }

  function BlocksLeft(s: Snapshot): nat {
    if s.state == MS_INVALID && s.scan == 0 then 0
    else 1 + |s.heap.blocks| - NextBlock(s.heap.blocks, s.scan)
  }

  /** t is smaller than s in the order by unmarked objects, state, blocks still to scan and bytes on the stack. */
  predicate Smaller(t: Snapshot, s: Snapshot) {
    || Unmarked(t) < Unmarked(s)
    || (Unmarked(t) == Unmarked(s) &&
        (|| Rank(t) < Rank(s)
         || (Rank(t) == Rank(s) &&
             (|| BlocksLeft(t) < BlocksLeft(s)
              || (BlocksLeft(t) == BlocksLeft(s) && Bytes(t.stack) < Bytes(s.stack))))))
  }

  lemma SmallerTransitive(u: Snapshot, t: Snapshot, s: Snapshot)
    requires Smaller(u, t) && (Smaller(t, s) || t == s)
    ensures Smaller(u, s)
  {
  }

  // ---- The invariant of each state

  function AnyPage(p: int, lim: int, pages: set<int>): bool
    decreases lim - p
  {
    p < lim && (p in pages || AnyPage(p + HBLKSIZE, lim, pages))
  }

  predicate BlockDirty(b: Block, pages: set<int>) {
    if b.sz <= MAXOBJBYTES then b.start in pages else AnyPage(b.start, b.start + b.sz, pages)
  }

  /** The marker will still come across position a of the marked object o. */
  ghost predicate Tracked(s: Snapshot, o: Obj, a: int)
    requires o in s.heap.objs
  {
    var b := s.heap.objs[o];
    || CoveredBy(s.stack, a)
    || BlockDirty(b, s.dirty)
    || s.state == MS_INVALID
    || (s.state == MS_PARTIALLY_INVALID && b.start >= s.scan)
    || (s.state == MS_PUSH_RESCUERS && b.start >= s.scan && BlockDirty(b, s.grungy))
    || (s.state == MS_PUSH_UNCOLLECTABLE && b.start >= s.scan && b.uncollectable)
  }

  /** Except for stale words, of which the write barrier knows nothing. */
  ghost predicate ObjectsTracked(s: Snapshot) {
    forall o, a :: o in s.marks && Slot(s.heap, o, a) && Open(s.heap, s.marks, a) && a !in s.stale ==> Tracked(s, o, a)
  }

  /** Once roots were pushed, and until a mutator runs again, no unmarked root target is forgotten. */
  ghost predicate RootsTracked(s: Snapshot) {
    s.rootsFresh && s.state in {MS_ROOTS_PUSHED, MS_NONE} ==>
      forall a :: RootSlot(s.heap, a) && Open(s.heap, s.marks, a) ==> CoveredBy(s.stack, a)
  }

  /** Right after mark bits were cleared only uncollectable objects are marked. */
  ghost predicate OnlyUncollectable(s: Snapshot) {
    s.scan == 0 && forall o :: o in s.marks && o in s.heap.objs ==> s.heap.objs[o].uncollectable
  }

  ghost predicate Consistent(s: Snapshot) {
    && HeapWF(s.heap)
    && s.marks <= s.heap.objs.Keys
    && (forall i :: 0 <= i < |s.stack| ==> s.stack[i].descr > 0)
    && s.scan >= 0
    && ObjectsTracked(s)
    && RootsTracked(s)
    && (s.state == MS_NONE ==> s.stack == [])
    && (s.state == MS_INVALID && !s.objectsAreMarked ==> OnlyUncollectable(s))
    && (s.state == MS_PARTIALLY_INVALID ==> s.objectsAreMarked)
  }

  // ---- Steps

  /** What one call of GC_mark_from does to the state. */
  ghost predicate MarkedFrom(s: Snapshot, t: Snapshot) {
    && t == s.(marks := t.marks, stack := t.stack, state := t.state, objectsAreMarked := true)
    && s.marks <= t.marks <= s.heap.objs.Keys
    && (t.state == s.state || t.state == MS_INVALID)
    && (t.state != MS_INVALID ==> Kept(s.heap, s.stack, s.marks, t.stack, t.marks))
    && (t.marks == s.marks ==> t.state == s.state)
    && (t.marks == s.marks && s.stack != [] ==> Bytes(t.stack) < Bytes(s.stack))
    && (forall i :: 0 <= i < |t.stack| ==> t.stack[i].descr > 0)
  }

  lemma MarkedFromKeeps(s: Snapshot, t: Snapshot)
    requires Consistent(s) && MarkedFrom(s, t) && s.state != MS_NONE
    ensures Consistent(t) && StepFrame(s, t)
    ensures s.stack != [] ==> Smaller(t, s) || (s.state == MS_INVALID && !s.objectsAreMarked)
  {
    forall o, a | o in t.marks && Slot(t.heap, o, a) && Open(t.heap, t.marks, a) && a !in t.stale
      ensures Tracked(t, o, a)
    {
      assert Open(s.heap, s.marks, a);
      if t.state != MS_INVALID && o in s.marks {
        assert Tracked(s, o, a);
      }
    }
    forall a | RootSlot(t.heap, a) && Open(t.heap, t.marks, a) && t.rootsFresh && t.state == MS_ROOTS_PUSHED
      ensures CoveredBy(t.stack, a)
    {
      assert Open(s.heap, s.marks, a);
    }
    MoreMarksFewerUnmarked(s.heap.objs.Keys, s.marks, t.marks);
  }

  /** Every unmarked target of a marked object of block b is pending in es. */
  ghost predicate BlockPushed(h: Heap, marks: set<Obj>, es: seq<Mse>, b: Block) {
    forall o, a :: o in marks && o in h.objs && h.objs[o] == b && Slot(h, o, a) && Open(h, marks, a) ==>
          CoveredBy(es, a)
  }

  /** The scan of the current state does not look for block b. */
  ghost predicate Skippable(s: Snapshot, b: Block) {
    || (s.state == MS_PUSH_RESCUERS && !BlockDirty(b, s.grungy))
    || (s.state == MS_PUSH_UNCOLLECTABLE && !b.uncollectable)
  }

  /** The scan moved on: the blocks it passed were either of no interest or had their marked objects pushed. */
  ghost predicate Scanned(s: Snapshot, t: Snapshot) {
    && t == s.(stack := t.stack, scan := t.scan, objectsAreMarked := t.objectsAreMarked)
    && (s.objectsAreMarked ==> t.objectsAreMarked)
    && s.stack <= t.stack
    && (forall i :: 0 <= i < |t.stack| ==> t.stack[i].descr > 0)
    && t.scan >= 0
    && forall i :: 0 <= i < |s.heap.blocks| && s.heap.blocks[i].start >= s.scan
                   && (t.scan == 0 || s.heap.blocks[i].start < t.scan) ==>
         Skippable(s, s.heap.blocks[i]) || BlockPushed(s.heap, s.marks, t.stack, s.heap.blocks[i])
  }

  lemma CoveredByPrefix(es: seq<Mse>, es': seq<Mse>, a: int)
    requires es <= es' && CoveredBy(es, a)
    ensures CoveredBy(es', a)
  {
  }

  lemma ScannedKeeps(s: Snapshot, t: Snapshot)
    requires Consistent(s) && Scanned(s, t)
    requires s.state in {MS_PUSH_RESCUERS, MS_PUSH_UNCOLLECTABLE, MS_PARTIALLY_INVALID} ||
             (s.state == MS_INVALID && s.objectsAreMarked)
    ensures t.scan > 0 ==> Consistent(t)
    ensures t.scan == 0 && s.state != MS_INVALID ==>
              forall o, a :: o in t.marks && Slot(t.heap, o, a) && Open(t.heap, t.marks, a) && a !in t.stale ==>
                CoveredBy(t.stack, a) || BlockDirty(t.heap.objs[o], t.dirty)
    ensures t.scan == 0 && s.state == MS_INVALID ==> Consistent(t)
  {
    forall o, a | o in t.marks && Slot(t.heap, o, a) && Open(t.heap, t.marks, a) && a !in t.stale
      ensures t.scan > 0 ==> Tracked(t, o, a)
      ensures t.scan == 0 && s.state != MS_INVALID ==> CoveredBy(t.stack, a) || BlockDirty(t.heap.objs[o], t.dirty)
    {
      var b := s.heap.objs[o];
      assert Tracked(s, o, a);
      if CoveredBy(s.stack, a) {
        CoveredByPrefix(s.stack, t.stack, a);
      } else if !BlockDirty(b, s.dirty) && s.state != MS_INVALID {
        var i :| 0 <= i < |s.heap.blocks| && s.heap.blocks[i] == b;
        assert b.start >= s.scan;
        if t.scan == 0 || b.start < t.scan {
          assert Skippable(s, s.heap.blocks[i]) || BlockPushed(s.heap, s.marks, t.stack, s.heap.blocks[i]);
        }
      }
    }
  }

  /** Pushing the roots after the last block was scanned: static ranges, then eagerly scanned words. */
  ghost predicate RootsPushed(s: Snapshot, t: Snapshot) {
    && t == s.(marks := t.marks, stack := t.stack, state := t.state, objectsAreMarked := true, rootsFresh := true)
    && s.marks <= t.marks <= s.heap.objs.Keys
    && t.state == (if t.marks == s.marks then MS_ROOTS_PUSHED else t.state)
    && t.state in {MS_ROOTS_PUSHED, MS_INVALID}
    && (forall i :: 0 <= i < |t.stack| ==> t.stack[i].descr > 0)
    && (t.state == MS_ROOTS_PUSHED ==>
          && Kept(s.heap, s.stack, s.marks, t.stack, t.marks)
          && forall a :: RootSlot(s.heap, a) && Open(s.heap, t.marks, a) ==> CoveredBy(t.stack, a))
  }

  lemma RootsPushedKeeps(s: Snapshot, t: Snapshot)
    requires HeapWF(s.heap) && s.marks <= s.heap.objs.Keys && s.scan == 0
    requires forall o, a :: o in s.marks && Slot(s.heap, o, a) && Open(s.heap, s.marks, a) && a !in s.stale ==>
               CoveredBy(s.stack, a) || BlockDirty(s.heap.objs[o], s.dirty)
    requires RootsPushed(s, t)
    ensures Consistent(t)
    ensures Rank(s) > 1 ==> Smaller(t, s)
  {
    forall o, a | o in t.marks && Slot(t.heap, o, a) && Open(t.heap, t.marks, a) && a !in t.stale
      ensures Tracked(t, o, a)
    {
      assert Open(s.heap, s.marks, a);
    }
    MoreMarksFewerUnmarked(s.heap.objs.Keys, s.marks, t.marks);
  }

  // ---- One call of GC_mark_some

  datatype Outcome = Finished | More | Aborted

  /** A scan that moved from h to next left fewer blocks to visit. */
  predicate Advanced(bs: seq<Block>, h: int, next: int) {
    next == 0 || (next > 0 && NextBlock(bs, next) > NextBlock(bs, h))
  }

  /** One block scanned; the roots are pushed when that was the end of the heap. */
  ghost predicate ScanStep(s: Snapshot, t: Snapshot) {
    exists m :: Scanned(s, m) && Advanced(s.heap.blocks, s.scan, m.scan) &&
        if m.scan != 0 then t == m else RootsPushed(m, t)
  }

  /** A call of GC_mark_some that does not end the mark phase. */
  ghost predicate MarkStep(s: Snapshot, t: Snapshot) {
    match s.state
    case MS_NONE => false
    case MS_PUSH_RESCUERS => (s.stack != [] && MarkedFrom(s, t)) || ScanStep(s, t)
    case MS_PUSH_UNCOLLECTABLE => (s.stack != [] && MarkedFrom(s, t)) || ScanStep(s, t)
    case MS_ROOTS_PUSHED => s.stack != [] && MarkedFrom(s, t)
    case _ =>
      if !s.objectsAreMarked then t == s.(state := MS_PUSH_UNCOLLECTABLE)
      else if s.stack != [] then MarkedFrom(s, t)
      else if s.state == MS_PARTIALLY_INVALID then ScanStep(s, t)
      else if s.scan == 0 then ScanStep(s.(state := MS_PARTIALLY_INVALID), t)
      else Scanned(s, t) && Advanced(s.heap.blocks, s.scan, t.scan)
  }

  lemma StepByMarking(s: Snapshot, t: Snapshot)
    requires s.state != MS_NONE && s.stack != [] && MarkedFrom(s, t)
    requires s.state in {MS_INVALID, MS_PARTIALLY_INVALID} ==> s.objectsAreMarked
    ensures MarkStep(s, t)
  {
  }

  lemma StepToUncollectable(s: Snapshot)
    requires s.state in {MS_INVALID, MS_PARTIALLY_INVALID} && !s.objectsAreMarked
    ensures MarkStep(s, s.(state := MS_PUSH_UNCOLLECTABLE))
  {
  }

  lemma StepByScan(s: Snapshot, t: Snapshot)
    requires ScanStep(s, t)
    requires s.state in {MS_PUSH_RESCUERS, MS_PUSH_UNCOLLECTABLE} ||
             (s.state == MS_PARTIALLY_INVALID && s.objectsAreMarked && s.stack == [])
    ensures MarkStep(s, t)
  {
  }

  lemma StepByRescan(s: Snapshot, m: Snapshot, t: Snapshot)
    requires s.state == MS_INVALID && s.objectsAreMarked && s.stack == []
    requires if s.scan == 0 then m == s.(state := MS_PARTIALLY_INVALID) && ScanStep(m, t)
             else Scanned(s, t) && Advanced(s.heap.blocks, s.scan, t.scan)
    ensures MarkStep(s, t)
  {
  }

  /** A call of GC_mark_some that reports the end of the mark phase. */
  ghost predicate FinishStep(s: Snapshot, t: Snapshot) {
    s.state in {MS_NONE, MS_ROOTS_PUSHED} && s.stack == [] && t == s.(state := MS_NONE)
  }

  /** What a marking step leaves alone, and the fact that roots are fresh once they were pushed. */
  ghost predicate StepFrame(s: Snapshot, t: Snapshot) {
    && t.heap == s.heap && t.dirty == s.dirty && t.grungy == s.grungy && t.stale == s.stale && s.marks <= t.marks
    && (s.rootsFresh ==> t.rootsFresh)
    && (t.state in {MS_ROOTS_PUSHED, MS_NONE} && s.state !in {MS_ROOTS_PUSHED, MS_NONE} ==> t.rootsFresh)
  }

  lemma ScannedFrame(s: Snapshot, m: Snapshot)
    requires Scanned(s, m)
    ensures m == s.(stack := m.stack, scan := m.scan, objectsAreMarked := m.objectsAreMarked)
    ensures s.objectsAreMarked ==> m.objectsAreMarked
  {
  }

  lemma RootsPushedFrame(m: Snapshot, t: Snapshot)
    requires RootsPushed(m, t)
    ensures StepFrame(m, t) && t.rootsFresh && (Rank(t) <= 1 || Unmarked(t) < Unmarked(m))
    ensures Unmarked(t) <= Unmarked(m)
  {
    MoreMarksFewerUnmarked(m.heap.objs.Keys, m.marks, t.marks);
  }

  lemma ScanRootsKeeps(s: Snapshot, m: Snapshot, t: Snapshot)
    requires Consistent(s) && Scanned(s, m) && m.scan == 0 && RootsPushed(m, t)
    requires s.state in {MS_PUSH_RESCUERS, MS_PUSH_UNCOLLECTABLE, MS_PARTIALLY_INVALID}
    ensures Consistent(t) && Smaller(t, m) && StepFrame(m, t)
  {
    ScannedKeeps(s, m);
    RootsPushedKeeps(m, t);
  }

  lemma ScanStepKeeps(s: Snapshot, t: Snapshot)
    requires Consistent(s) && ScanStep(s, t)
    requires s.state in {MS_PUSH_RESCUERS, MS_PUSH_UNCOLLECTABLE, MS_PARTIALLY_INVALID}
    ensures Consistent(t) && Smaller(t, s) && StepFrame(s, t)
  {
    hide Consistent, Scanned, RootsPushed, Tracked;
    var m :| Scanned(s, m) && Advanced(s.heap.blocks, s.scan, m.scan) &&
        if m.scan != 0 then t == m else RootsPushed(m, t);
    ScannedFrame(s, m);
    if m.scan == 0 {
      ScanRootsKeeps(s, m, t);
      RootsPushedFrame(m, t);
    } else {
      ScannedKeeps(s, m);
    }
  }

  /** Starting a scan of the whole heap for marked objects. */
  lemma RescanConsistent(s: Snapshot)
    requires Consistent(s) && s.state == MS_INVALID && s.objectsAreMarked && s.scan == 0
    ensures Consistent(s.(state := MS_PARTIALLY_INVALID))
  {
  }

  lemma UncollectableStepKeeps(s: Snapshot)
    requires Consistent(s) && s.state in {MS_INVALID, MS_PARTIALLY_INVALID} && !s.objectsAreMarked
    ensures var t := s.(state := MS_PUSH_UNCOLLECTABLE);
            Consistent(t) && Smaller(t, s) && StepFrame(s, t)
  {
  }

  lemma RescanStepKeeps(s: Snapshot, t: Snapshot)
    requires Consistent(s) && s.state == MS_INVALID && s.objectsAreMarked && s.scan == 0
    requires ScanStep(s.(state := MS_PARTIALLY_INVALID), t)
    ensures Consistent(t) && Smaller(t, s) && StepFrame(s, t)
  {
    hide Consistent, ScanStep;
    RescanConsistent(s);
    ScanStepKeeps(s.(state := MS_PARTIALLY_INVALID), t);
  }

  lemma InvalidScanKeeps(s: Snapshot, t: Snapshot)
    requires Consistent(s) && s.state == MS_INVALID && s.objectsAreMarked && s.scan != 0
    requires Scanned(s, t) && Advanced(s.heap.blocks, s.scan, t.scan)
    ensures Consistent(t) && Smaller(t, s) && StepFrame(s, t)
  {
  }

  /** Every call of GC_mark_some keeps the invariant and makes progress in a well-founded order. */
  lemma MarkStepKeeps(s: Snapshot, t: Snapshot)
    requires Consistent(s) && MarkStep(s, t)
    ensures Consistent(t) && Smaller(t, s) && StepFrame(s, t)
  {
    hide Consistent, MarkedFrom, ScanStep, Scanned, Smaller, StepFrame;
    if s.state in {MS_INVALID, MS_PARTIALLY_INVALID} && !s.objectsAreMarked {
      UncollectableStepKeeps(s);
    } else if s.stack != [] && MarkedFrom(s, t) {
      MarkedFromKeeps(s, t);
    } else if s.state != MS_INVALID {
      ScanStepKeeps(s, t);
    } else if s.scan == 0 {
      RescanStepKeeps(s, t);
    } else {
      InvalidScanKeeps(s, t);
    }
  }

  lemma FinishStepKeeps(s: Snapshot, t: Snapshot)
    requires Consistent(s) && FinishStep(s, t)
    ensures Consistent(t) && StepFrame(s, t)
  {
  }

  /** The calls of GC_mark_some that led from s to t, none of which ended the mark phase. */
  ghost predicate MarkTrace(s: Snapshot, trace: seq<Snapshot>, t: Snapshot) {
    && trace != [] && trace[0] == s && trace[|trace| - 1] == t
    && forall k :: 0 <= k < |trace| - 1 ==> MarkStep(trace[k], trace[k + 1])
  }

  lemma TraceMore(s: Snapshot, trace: seq<Snapshot>, t: Snapshot, u: Snapshot)
    requires MarkTrace(s, trace, t) && MarkStep(t, u)
    ensures MarkTrace(s, trace + [u], u)
  {
    hide MarkStep;
    var longer := trace + [u];
    forall k | 0 <= k < |longer| - 1
      ensures MarkStep(longer[k], longer[k + 1])
    {
      if k < |trace| - 1 {
        assert MarkStep(trace[k], trace[k + 1]);
      }
    }
  }

  lemma NoTrace(s: Snapshot)
    ensures MarkTrace(s, [s], s)
  {
  }

  lemma NotDoneYet(s: Snapshot, t: Snapshot)
    requires MarkStep(s, t)
    ensures t.state != MS_NONE
  {
  }

  lemma EmptyWhenNone(s: Snapshot)
    requires Consistent(s)
    ensures s.state == MS_NONE ==> s.stack == []
    ensures Bytes(s.stack) >= 0
  {
    BytesNonNegative(s.stack);
  }

  lemma AfterMarkSome(s: Snapshot, t: Snapshot, r: Outcome)
    requires Consistent(s)
    requires r == More ==> MarkStep(s, t)
    requires r == Finished ==> FinishStep(s, t)
    requires r != Aborted
    ensures Consistent(t)
    ensures t.heap == s.heap && t.dirty == s.dirty && t.stale == s.stale && s.marks <= t.marks &&
            (s.rootsFresh ==> t.rootsFresh)
    ensures t.state in {MS_ROOTS_PUSHED, MS_NONE} && s.state !in {MS_ROOTS_PUSHED, MS_NONE} ==> t.rootsFresh
    ensures r == More ==> Smaller(t, s)
    ensures r == Finished ==> t.state == MS_NONE && s.state in {MS_ROOTS_PUSHED, MS_NONE}
  {
    if r == More {
      MarkStepKeeps(s, t);
    } else {
      FinishStepKeeps(s, t);
    }
  }

  // ---- Starting a collection

  ghost function Uncollectable(s: Snapshot): set<Obj> {
    set o | o in s.marks && o in s.heap.objs && s.heap.objs[o].uncollectable
  }

  /** GC_clear_marks: the marks of uncollectable objects stay, and those objects will all be scanned again. */
  ghost function Cleared(s: Snapshot): Snapshot {
    s.(marks := Uncollectable(s), objectsAreMarked := false, state := MS_INVALID, scan := 0, stale := iset{})
  }

  /** GC_initiate_gc: read the dirty bits and start from the first block. */
  ghost function Initiated(s: Snapshot): Snapshot {
    s.(grungy := if s.state == MS_INVALID then s.grungy else s.dirty, dirty := {},
       state := if s.state == MS_NONE then MS_PUSH_RESCUERS else s.state, scan := 0)
  }

  lemma ClearedConsistent(s: Snapshot)
    requires HeapWF(s.heap) && forall i :: 0 <= i < |s.stack| ==> s.stack[i].descr > 0
    ensures Consistent(Cleared(s))
  {
  }

  lemma InitiatedConsistent(s: Snapshot)
    requires Consistent(s) && s.state in {MS_NONE, MS_INVALID}
    ensures Consistent(Initiated(s))
  {
  }

  /** A run of the mutators, as far as the write barrier lets the collector know it: whatever a marked object now
      refers to was already referred to from the same position by a marked object, unless the block is dirty now or the
      word is stale. */
  ghost predicate MutatorRan(s: Snapshot, t: Snapshot) {
    && t == s.(heap := t.heap, marks := t.marks, dirty := t.dirty, stale := t.stale, rootsFresh := false)
    && HeapWF(t.heap) && t.marks <= t.heap.objs.Keys && s.dirty <= t.dirty
    && (forall o, a :: o in t.marks && Slot(t.heap, o, a) && Open(t.heap, t.marks, a) ==>
          || BlockDirty(t.heap.objs[o], t.dirty) || a in t.stale
          || (&& o in s.marks && Slot(s.heap, o, a) && Open(s.heap, s.marks, a) && a !in s.stale
              && t.heap.objs[o] == s.heap.objs[o]))
    // only uncollectable objects are allocated marked
    && (forall o :: o in t.marks ==>
          t.heap.objs[o].uncollectable || (o in s.marks && o in s.heap.objs && !s.heap.objs[o].uncollectable))
  }

  /** No interleaving of mutator runs breaks the invariant, whatever state marking was interrupted in. */
  lemma MutatorKeeps(s: Snapshot, t: Snapshot)
    requires Consistent(s) && MutatorRan(s, t)
    ensures Consistent(t)
  {
    forall o, a | o in t.marks && Slot(t.heap, o, a) && Open(t.heap, t.marks, a) && a !in t.stale
      ensures Tracked(t, o, a)
    {
      if !BlockDirty(t.heap.objs[o], t.dirty) {
        assert Tracked(s, o, a);
        BlockDirtyMonotone(t.heap.objs[o], s.dirty, t.dirty);
      }
    }
  }

  // ---- The end of a mark phase

  /** Every pointer in an object of c stays within c, except for those at positions in stale. */
  ghost predicate ClosedBut(h: Heap, c: set<Obj>, stale: iset<int>) {
    forall o, a :: o in c && Slot(h, o, a) && HasTarget(h, a) && a !in stale ==> Target(h, a) in c
  }

  /** A marking that has finished with no mutator run since the dirty bits were read left no pointer from a
      marked object or a root to an unmarked one, except for stale words. */
  lemma FinishedIsClosed(s: Snapshot)
    requires Consistent(s) && s.state == MS_NONE && s.dirty == {} && s.rootsFresh
    ensures ClosedBut(s.heap, s.marks, s.stale) && RootsIn(s.heap, s.marks)
    ensures s.stale == iset{} ==> Closed(s.heap, s.marks)
  {
    forall b ensures !BlockDirty(b, {}) {
      AnyPageEmpty(b.start, b.start + b.sz);
    }
    forall o, a | o in s.marks && Slot(s.heap, o, a) && HasTarget(s.heap, a) && a !in s.stale
      ensures Target(s.heap, a) in s.marks
    {
      assert Open(s.heap, s.marks, a) ==> Tracked(s, o, a);
    }
    forall a | RootSlot(s.heap, a) && HasTarget(s.heap, a) ensures Target(s.heap, a) in s.marks {
      assert Open(s.heap, s.marks, a) ==> CoveredBy(s.stack, a);
    }
  }

  /** A stale word in a marked object refers to the unmarked object p. */
  ghost predicate Overlooked(h: Heap, marks: set<Obj>, stale: iset<int>, p: Obj) {
    exists o, a :: o in marks && Slot(h, o, a) && a in stale && Open(h, marks, a) && Target(h, a) == p
  }

  /** path leads from an overlooked object to o through unmarked objects. */
  ghost predicate OverlookedPath(h: Heap, marks: set<Obj>, stale: iset<int>, path: seq<Obj>, o: Obj) {
    && path != [] && Overlooked(h, marks, stale, path[0]) && path[|path| - 1] == o
    && (forall i :: 0 <= i < |path| ==> path[i] !in marks)
    && forall i :: 0 <= i < |path| - 1 ==> PointsTo(h, path[i], path[i + 1])
  }

  ghost predicate Missed(h: Heap, marks: set<Obj>, stale: iset<int>, o: Obj) {
    exists path :: OverlookedPath(h, marks, stale, path, o)
  }

  lemma {:induction false} PathIsMissed(h: Heap, marks: set<Obj>, stale: iset<int>, path: seq<Obj>, o: Obj)
    requires ClosedBut(h, marks, stale) && RootsIn(h, marks) && PathTo(h, marks, path, o)
    ensures o in marks || Missed(h, marks, stale, o)
    decreases |path|
  {
    var n := |path|;
    if n == 1 {
      assert path[0] in marks;
    } else {
      var front, p := path[..n - 1], path[n - 2];
      forall i | 0 <= i < |front| - 1
        ensures PointsTo(h, front[i], front[i + 1])
      {
        assert PointsTo(h, path[i], path[i + 1]);
      }
      PathIsMissed(h, marks, stale, front, p);
      assert PointsTo(h, path[n - 2], path[n - 2 + 1]);
      if o !in marks {
        if p in marks {
          assert Overlooked(h, marks, stale, o);
          assert OverlookedPath(h, marks, stale, [o], o);
        } else {
          OneMoreMissed(h, marks, stale, p, o);
        }
      }
    }
  }

  lemma OneMoreMissed(h: Heap, marks: set<Obj>, stale: iset<int>, p: Obj, o: Obj)
    requires Missed(h, marks, stale, p) && PointsTo(h, p, o) && o !in marks
    ensures Missed(h, marks, stale, o)
  {
    var path :| OverlookedPath(h, marks, stale, path, p);
    var longer := path + [o];
    forall i | 0 <= i < |longer| - 1
      ensures PointsTo(h, longer[i], longer[i + 1])
    {
      if i < |path| - 1 {
        assert PointsTo(h, path[i], path[i + 1]);
      }
    }
    assert OverlookedPath(h, marks, stale, longer, o);
  }

  lemma MissedIsReachable(h: Heap, marks: set<Obj>, stale: iset<int>, o: Obj)
    requires Missed(h, marks, stale, o)
    ensures Reachable(h, marks, o) && o !in marks
  {
    var path :| OverlookedPath(h, marks, stale, path, o);
    var p, a :| p in marks && Slot(h, p, a) && a in stale && Open(h, marks, a) && Target(h, a) == path[0];
    var whole := [p] + path;
    forall i | 0 <= i < |whole| - 1
      ensures PointsTo(h, whole[i], whole[i + 1])
    {
      if i > 0 {
        assert PointsTo(h, path[i - 1], path[i - 1 + 1]);
      }
    }
    assert PathTo(h, marks, whole, o);
  }

  /** Exactly the objects that stale words lead to are reachable and yet not marked, so everything reachable is marked
      if and only if no stale word in a marked object refers to an unmarked one. */
  lemma MissedExactly(h: Heap, marks: set<Obj>, stale: iset<int>)
    requires ClosedBut(h, marks, stale) && RootsIn(h, marks)
    ensures forall o :: Reachable(h, marks, o) && o !in marks <==> Missed(h, marks, stale, o)
    ensures (forall o :: Reachable(h, marks, o) ==> o in marks) <==> (forall p :: !Overlooked(h, marks, stale, p))
  {
    forall o
      ensures Reachable(h, marks, o) && o !in marks <==> Missed(h, marks, stale, o)
    {
      if Reachable(h, marks, o) {
        var path :| PathTo(h, marks, path, o);
        PathIsMissed(h, marks, stale, path, o);
      }
      if Missed(h, marks, stale, o) {
        MissedIsReachable(h, marks, stale, o);
      }
    }
    forall p | Overlooked(h, marks, stale, p)
      ensures Missed(h, marks, stale, p)
    {
      assert OverlookedPath(h, marks, stale, [p], p);
    }
  }

  lemma {:induction false} AnyPageMonotone(p: int, lim: int, pages: set<int>, pages': set<int>)
    requires pages <= pages' && AnyPage(p, lim, pages)
    ensures AnyPage(p, lim, pages')
    decreases lim - p
  {
    if p !in pages {
      AnyPageMonotone(p + HBLKSIZE, lim, pages, pages');
    }
  }

  lemma BlockDirtyMonotone(b: Block, pages: set<int>, pages': set<int>)
    requires pages <= pages'
    ensures BlockDirty(b, pages) ==> BlockDirty(b, pages')
  {
    if BlockDirty(b, pages) && b.sz > MAXOBJBYTES {
      AnyPageMonotone(b.start, b.start + b.sz, pages, pages');
    }
  }

  lemma {:induction false} AnyPageEmpty(p: int, lim: int)
    ensures !AnyPage(p, lim, {})
    decreases lim - p
  {
    if p < lim {
      AnyPageEmpty(p + HBLKSIZE, lim);
    }
  }
}
