/** What the client program does between marking steps, and why each such step respects the write-barrier contract
    that the marker's invariant needs. */
module Mutator {
  import opened MarkHeap
  import opened MarkSpec

  /** Positions whose word overlaps the word at a. */
  predicate Overlaps(p: int, a: int) { a - WORD < p < a + WORD }

  /** A store of one word inside object o; the page written to becomes dirty, and no word there is stale any more. */
  ghost predicate Wrote(s: Snapshot, t: Snapshot, o: Obj, a: int) {
    && o in s.heap.objs && o <= a && a + WORD <= o + s.heap.objs[o].sz
    && (forall p :: !Overlaps(p, a) ==> Load(t.heap, p) == Load(s.heap, p))
    && t == s.(heap := s.heap.(mem := t.heap.mem), dirty := s.dirty + {Page(a)}, rootsFresh := false,
               stale := iset p | p in s.stale && !Overlaps(p, a))
  }

  /** Stores to registers, stacks and static data are not recorded page by page. */
  ghost predicate RootsChanged(s: Snapshot, t: Snapshot) {
    && HeapWF(t.heap)
    && (forall o, p :: Slot(s.heap, o, p) ==> Load(t.heap, p) == Load(s.heap, p))
    && t == s.(heap := s.heap.(mem := t.heap.mem, roots := t.heap.roots, stackRoots := t.heap.stackRoots),
               rootsFresh := false)
  }

  /** The word at position a of a marked, clean object named no object in s and names one in t. */
  ghost predicate WentStale(s: Snapshot, t: Snapshot, a: int) {
    exists o :: o in s.marks && Slot(s.heap, o, a) && !HasTarget(s.heap, a) && HasTarget(t.heap, a)
                && !BlockDirty(s.heap.objs[o], t.dirty)
  }

  /** Object o lies in block b. */
  predicate Within(h: Heap, o: Obj, b: Block) { o in h.objs && h.objs[o] == b }

  /** A fresh block b: all of its pages count as dirty, and its objects are unmarked unless uncollectable. Words that
      happen to name them, left over from before, turn into pointers. */
  ghost predicate Allocated(s: Snapshot, t: Snapshot, b: Block) {
    && HeapWF(t.heap) && b in t.heap.blocks
    && (forall o :: o in s.heap.objs ==> o in t.heap.objs && t.heap.objs[o] == s.heap.objs[o])
    && (forall o :: o in t.heap.objs && o !in s.heap.objs ==> t.heap.objs[o] == b)
    && (forall w :: w in s.heap.resolve ==> w in t.heap.resolve && t.heap.resolve[w] == s.heap.resolve[w])
    && (forall w :: w in t.heap.resolve && w !in s.heap.resolve ==> Within(t.heap, t.heap.resolve[w], b))
    && t == s.(heap := s.heap.(blocks := t.heap.blocks, objs := t.heap.objs, resolve := t.heap.resolve,
                               least := t.heap.least, greatest := t.heap.greatest),
               marks := t.marks, dirty := t.dirty, rootsFresh := false,
               stale := s.stale + iset a | WentStale(s, t, a))
    && s.dirty <= t.dirty && BlockDirty(b, t.dirty)
    && s.marks <= t.marks <= t.heap.objs.Keys
    && (forall o :: o in t.marks && o !in s.marks ==> t.heap.objs[o] == b && b.uncollectable)
  }

  /** Position a lies in a marked object. */
  ghost predicate InMarked(s: Snapshot, a: int) {
    exists o :: o in s.marks && Slot(s.heap, o, a)
  }

  /** Sweeping or explicit deallocation: objects disappear together with their mark bits. */
  ghost predicate Reclaimed(s: Snapshot, t: Snapshot) {
    && HeapWF(t.heap)
    && (forall o :: o in t.heap.objs ==> o in s.heap.objs && t.heap.objs[o] == s.heap.objs[o])
    && (forall w :: w in t.heap.resolve ==> w in s.heap.resolve && t.heap.resolve[w] == s.heap.resolve[w])
    && t == s.(heap := s.heap.(blocks := t.heap.blocks, objs := t.heap.objs, resolve := t.heap.resolve),
               marks := s.marks * t.heap.objs.Keys, rootsFresh := false,
               stale := iset a | a in s.stale && InMarked(t, a))
  }

  ghost predicate MutatorStep(s: Snapshot, t: Snapshot) {
    || (exists o, a :: Wrote(s, t, o, a))
    || RootsChanged(s, t)
    || (exists b :: Allocated(s, t, b))
    || Reclaimed(s, t)
  }

  // ---- Layout of objects

  lemma {:induction false} ObjsFromSpaced(p: int, sz: int, lim: int)
    requires sz > 0
    ensures forall i :: 0 <= i < |ObjsFrom(p, sz, lim)| ==> p <= ObjsFrom(p, sz, lim)[i] <= lim
    ensures forall i, j :: 0 <= i < j < |ObjsFrom(p, sz, lim)| ==>
              ObjsFrom(p, sz, lim)[i] + sz <= ObjsFrom(p, sz, lim)[j]
    decreases lim - p
  {
    if p <= lim {
      ObjsFromSpaced(p + sz, sz, lim);
    }
  }

  lemma ObjectInBlock(b: Block, o: Obj)
    requires b.WF() && o in Objs(b)
    ensures b.start <= o && o + b.sz <= b.End()
    ensures b.sz <= MAXOBJBYTES ==> o + b.sz <= b.start + HBLKSIZE
    ensures b.sz > MAXOBJBYTES ==> o == b.start
  {
    ObjsFromSpaced(b.start, b.sz, b.Limit());
  }

  lemma ObjectsOfBlockDisjoint(b: Block, o: Obj, o': Obj)
    requires b.WF() && o in Objs(b) && o' in Objs(b) && o != o'
    ensures o + b.sz <= o' || o' + b.sz <= o
  {
    ObjsFromSpaced(b.start, b.sz, b.Limit());
    var i :| 0 <= i < |Objs(b)| && Objs(b)[i] == o;
    var j :| 0 <= j < |Objs(b)| && Objs(b)[j] == o';
  }

  /** Distinct objects never share a byte. */
  lemma ObjectsDisjoint(h: Heap, o: Obj, o': Obj)
    requires HeapWF(h) && o in h.objs && o' in h.objs && o != o'
    ensures o + h.objs[o].sz <= o' || o' + h.objs[o'].sz <= o
  {
    var b, b' := h.objs[o], h.objs[o'];
    var i :| 0 <= i < |h.blocks| && h.blocks[i] == b;
    var j :| 0 <= j < |h.blocks| && h.blocks[j] == b';
    if i == j {
      ObjectsOfBlockDisjoint(b, o, o');
    } else {
      ObjectInBlock(b, o);
      ObjectInBlock(b', o');
    }
  }

  // ---- The write barrier

  lemma PageOf(p: int, a: int)
    requires Page(p) == p
    ensures p <= a < p + HBLKSIZE ==> Page(a) == p
    ensures Page(p + HBLKSIZE) == p + HBLKSIZE
  {
    if WORD == 1 {
      var k := p / 512;
      assert p == 512 * k && (p + 512) / 512 == k + 1;
      assert 512 * k <= a < 512 * k + 512 ==> a / 512 == k;
    } else {
      var k := p / 1024;
      assert p == 1024 * k && (p + 1024) / 1024 == k + 1;
      assert 1024 * k <= a < 1024 * k + 1024 ==> a / 1024 == k;
    }
  }

  lemma {:induction false} PageFound(p: int, lim: int, a: int, pages: set<int>)
    requires Page(p) == p && p <= a < lim && Page(a) in pages
    ensures AnyPage(p, lim, pages)
    decreases lim - p
  {
    PageOf(p, a);
    if a >= p + HBLKSIZE {
      PageFound(p + HBLKSIZE, lim, a, pages);
    }
  }

  lemma WrittenBlockDirty(b: Block, o: Obj, a: int, pages: set<int>)
    requires b.WF() && o in Objs(b) && o <= a < o + b.sz && Page(a) in pages
    ensures BlockDirty(b, pages)
  {
    ObjectInBlock(b, o);
    PageOf(b.start, a);
    if b.sz > MAXOBJBYTES {
      PageFound(b.start, b.start + b.sz, a, pages);
    }
  }

  lemma WriteRespectsBarrier(s: Snapshot, t: Snapshot, o: Obj, a: int)
    requires Consistent(s) && Wrote(s, t, o, a)
    ensures MutatorRan(s, t)
  {
    var b := s.heap.objs[o];
    WrittenBlockDirty(b, o, a, t.dirty);
    forall o', p | o' in t.marks && Slot(t.heap, o', p) && Open(t.heap, t.marks, p)
      ensures BlockDirty(t.heap.objs[o'], t.dirty) || p in t.stale || (Open(s.heap, s.marks, p) && p !in s.stale)
    {
      if o' != o {
        ObjectsDisjoint(s.heap, o, o');
        assert s.heap.objs[o'].WF();
        assert !Overlaps(p, a);
        assert Load(t.heap, p) == Load(s.heap, p);
      }
    }
  }

  /** Each kind of mutator step meets the contract of MutatorRan. */
  lemma MutatorStepRespectsBarrier(s: Snapshot, t: Snapshot)
    requires Consistent(s) && MutatorStep(s, t)
    ensures MutatorRan(s, t)
  {
    if o, a :| Wrote(s, t, o, a) {
      WriteRespectsBarrier(s, t, o, a);
    } else if RootsChanged(s, t) {
      RootChangeRespectsBarrier(s, t);
    } else if b :| Allocated(s, t, b) {
      AllocationRespectsBarrier(s, t, b);
    } else {
      ReclaimingRespectsBarrier(s, t);
    }
  }

  lemma AllocationRespectsBarrier(s: Snapshot, t: Snapshot, b: Block)
    requires Consistent(s) && Allocated(s, t, b)
    ensures MutatorRan(s, t)
  {
    forall o, p | o in t.marks && Slot(t.heap, o, p) && Open(t.heap, t.marks, p)
      ensures || BlockDirty(t.heap.objs[o], t.dirty) || p in t.stale
              || (o in s.marks && Slot(s.heap, o, p) && Open(s.heap, s.marks, p))
    {
      if o in s.marks {
        assert Slot(s.heap, o, p);
        if !HasTarget(s.heap, p) && !BlockDirty(s.heap.objs[o], t.dirty) {
          assert WentStale(s, t, p);
        }
      }
    }
  }

  lemma RootChangeRespectsBarrier(s: Snapshot, t: Snapshot)
    requires Consistent(s) && RootsChanged(s, t)
    ensures MutatorRan(s, t)
  {
    forall o, p | o in t.marks && Slot(t.heap, o, p) && Open(t.heap, t.marks, p)
      ensures Slot(s.heap, o, p) && Open(s.heap, s.marks, p)
    {
      assert Slot(s.heap, o, p);
    }
  }

  lemma ReclaimingRespectsBarrier(s: Snapshot, t: Snapshot)
    requires Consistent(s) && Reclaimed(s, t)
    ensures MutatorRan(s, t)
  {
  }

  // ---- Runs

  ghost predicate StepAt(run: seq<Snapshot>, i: int)
    requires 0 < i < |run|
  {
    MutatorStep(run[i - 1], run[i])
  }

  /** Any number of mutator steps in a row. */
  ghost predicate MutatorRun(run: seq<Snapshot>) {
    run != [] && forall i :: 0 < i < |run| ==> StepAt(run, i)
  }

  lemma {:induction false} MutatorRunKeeps(run: seq<Snapshot>)
    requires MutatorRun(run) && Consistent(run[0])
    ensures Consistent(run[|run| - 1])
    decreases |run|
  {
    if |run| > 1 {
      assert StepAt(run, 1);
      MutatorStepRespectsBarrier(run[0], run[1]);
      MutatorKeeps(run[0], run[1]);
      var rest := run[1..];
      forall i | 0 < i < |rest| ensures StepAt(rest, i) {
        assert StepAt(run, i + 1);
      }
      MutatorRunKeeps(rest);
    }
  }
}
