/** The marker of mark.c: a bounded mark stack, mark bits, and the state machine GC_mark_some. */
module Marking {
  import opened MarkHeap
  import opened MarkSpec
  import opened Mutator

  // ---- Pending positions during the scan of one range

  lemma CoveredByPush(es: seq<Mse>, e: Mse, a: int)
    ensures CoveredBy(es + [e], a) <==> CoveredBy(es, a) || Covers(e, a)
  {
    CoveredByConcat(es, [e], a);
    CoveredByOne(e, a);
  }

  /** Removing the range e from the pending work is fine once nothing in it refers to an unmarked object. */
  lemma KeptDrop(h: Heap, es: seq<Mse>, m: set<Obj>, e: Mse)
    requires forall a :: Covers(e, a) ==> !Open(h, m, a)
    ensures Kept(h, es + [e], m, es, m)
  {
  }

  /** Examining the lowest position of the window at p while the stack moved from es1 to es2. */
  lemma KeptAdvance(h: Heap, es0: seq<Mse>, m0: set<Obj>, es1: seq<Mse>, m1: set<Obj>, es2: seq<Mse>, m2: set<Obj>,
                    p: int, len: int)
    requires Kept(h, es0, m0, es1 + [Mse(p, len)], m1)
    requires Kept(h, es1, m1, es2, m2)
    requires !Open(h, m2, p)
    ensures Kept(h, es0, m0, es2 + [Mse(p + 1, len - 1)], m2)
  {
    var w, w' := Mse(p, len), Mse(p + 1, len - 1);
    KeptFrame(h, es1, m1, es2, m2, [w]);
    KeptTransitive(h, es0, m0, es1 + [w], m1, es2 + [w], m2);
    forall a | CoveredBy(es2 + [w], a) && Open(h, m2, a) ensures CoveredBy(es2 + [w'], a) {
      CoveredByPush(es2, w, a);
      CoveredByPush(es2, w', a);
    }
    KeptTransitive(h, es0, m0, es2 + [w], m2, es2 + [w'], m2);
  }

  /** Of the range e only the part w and positions that refer to marked objects or nothing had to be examined. */
  lemma RangeScanned(h: Heap, es: seq<Mse>, m: set<Obj>, es': seq<Mse>, m': set<Obj>, e: Mse, w: Mse)
    requires Kept(h, es + [w], m, es', m')
    requires forall a :: Covers(e, a) && Open(h, m', a) ==> Covers(w, a)
    ensures Kept(h, es + [e], m, es', m')
  {
    forall a | CoveredBy(es + [e], a) && Open(h, m', a) ensures CoveredBy(es', a) {
      CoveredByPush(es, e, a);
      CoveredByPush(es, w, a);
    }
  }

  lemma KeptReflexive(h: Heap, es: seq<Mse>, m: set<Obj>)
    ensures Kept(h, es, m, es, m)
  {
  }

  // ---- How often a position is examined

  /** How many of the ranges in es cover position a. */
  function Times(es: seq<Mse>, a: int): int {
    if es == [] then 0 else Times(es[..|es| - 1], a) + if Covers(es[|es| - 1], a) then 1 else 0
  }

  lemma TimesPush(es: seq<Mse>, e: Mse, a: int)
    ensures Times(es + [e], a) == Times(es, a) + if Covers(e, a) then 1 else 0
  {
  }

  /** The objects of c that have a candidate pointer at position a. */
  function Holders(h: Heap, c: set<Obj>, a: int): set<Obj> { set o | o in c && Slot(h, o, a) }

  lemma OneHolder(h: Heap, c: set<Obj>, a: int)
    requires HeapWF(h)
    ensures |Holders(h, c, a)| == if exists o :: o in c && Slot(h, o, a) then 1 else 0
  {
    if o :| o in c && Slot(h, o, a) {
      forall o' | o' in Holders(h, c, a)
        ensures o' == o
      {
        if o' != o {
          SlotsDisjoint(h, o, o', a);
        }
      }
      assert Holders(h, c, a) == {o};
    } else {
      assert Holders(h, c, a) == {};
    }
  }

  /** No position is a candidate pointer of two objects. */
  lemma SlotsDisjoint(h: Heap, o: Obj, o': Obj, a: int)
    requires HeapWF(h) && o != o' && Slot(h, o, a)
    ensures !Slot(h, o', a)
  {
    if Slot(h, o', a) {
      ObjSized(h, o);
      ObjSized(h, o');
      ObjectsDisjoint(h, o, o');
    }
  }

  /** From (es, m) to (es', m') nothing got lost and nothing was examined too often: a position has been examined as
      often as it was pending or became so with a newly marked object, less what is still pending. */
  ghost predicate Balanced(h: Heap, es: seq<Mse>, m: set<Obj>, seen: multiset<int>, es': seq<Mse>, m': set<Obj>) {
    m <= m' && forall a :: seen[a] + Times(es', a) == Times(es, a) + |Holders(h, m' - m, a)|
  }

  lemma BalancedReflexive(h: Heap, es: seq<Mse>, m: set<Obj>)
    ensures Balanced(h, es, m, multiset{}, es, m)
  {
    forall a
      ensures Holders(h, m - m, a) == {}
    {
    }
  }

  lemma BalancedTransitive(h: Heap, es0: seq<Mse>, m0: set<Obj>, seen1: multiset<int>, es1: seq<Mse>, m1: set<Obj>,
                           seen2: multiset<int>, es2: seq<Mse>, m2: set<Obj>)
    requires Balanced(h, es0, m0, seen1, es1, m1) && Balanced(h, es1, m1, seen2, es2, m2)
    ensures Balanced(h, es0, m0, seen1 + seen2, es2, m2)
  {
    forall a
      ensures |Holders(h, m2 - m0, a)| == |Holders(h, m1 - m0, a)| + |Holders(h, m2 - m1, a)|
    {
      assert Holders(h, m2 - m0, a) == Holders(h, m1 - m0, a) + Holders(h, m2 - m1, a);
    }
  }

  lemma BalancedUnseen(h: Heap, es0: seq<Mse>, m0: set<Obj>, es1: seq<Mse>, m1: set<Obj>, es2: seq<Mse>, m2: set<Obj>)
    requires Balanced(h, es0, m0, multiset{}, es1, m1) && Balanced(h, es1, m1, multiset{}, es2, m2)
    ensures Balanced(h, es0, m0, multiset{}, es2, m2)
  {
    BalancedTransitive(h, es0, m0, multiset{}, es1, m1, multiset{}, es2, m2);
  }

  /** A newly marked object is pushed once. */
  lemma BalancedMarkOne(h: Heap, es: seq<Mse>, m: set<Obj>, o: Obj, es': seq<Mse>)
    requires o !in m && o in h.objs
    requires es' == if h.objs[o].descr == 0 then es else es + [Mse(o, h.objs[o].descr)]
    ensures Balanced(h, es, m, multiset{}, es', m + {o})
  {
    forall a
      ensures Times(es', a) == Times(es, a) + |Holders(h, m + {o} - m, a)|
    {
      TimesPush(es, Mse(o, h.objs[o].descr), a);
      assert Holders(h, m + {o} - m, a) == if Slot(h, o, a) then {o} else {};
    }
  }

  /** The positions of a range taken off the stack have been examined once. */
  lemma BalancedRange(h: Heap, es: seq<Mse>, m: set<Obj>, range: Mse, seen: multiset<int>, es': seq<Mse>)
    requires forall a :: Times(es, a) == Times(es', a) + if Covers(range, a) then 1 else 0
    requires forall a :: seen[a] == if Covers(range, a) then 1 else 0
    ensures Balanced(h, es, m, seen, es', m)
  {
    forall a
      ensures Holders(h, m - m, a) == {}
    {
    }
  }

  /** Once the stack is empty, every position that was pending has been examined as often as it was, and every position
      of a newly marked object exactly once more. */
  lemma AllExaminedOnce(h: Heap, es: seq<Mse>, m: set<Obj>, seen: multiset<int>, m': set<Obj>)
    requires HeapWF(h) && Balanced(h, es, m, seen, [], m')
    ensures forall a :: seen[a] == Times(es, a) + |Holders(h, m' - m, a)| <= Times(es, a) + 1
    ensures forall o, a :: o in m' - m && Slot(h, o, a) ==> seen[a] == Times(es, a) + 1
  {
    forall a
      ensures |Holders(h, m' - m, a)| == if exists o :: o in m' - m && Slot(h, o, a) then 1 else 0
    {
      OneHolder(h, m' - m, a);
    }
  }

  lemma BoundedPush(h: Heap, es: seq<Mse>, e: Mse, bound: set<Obj>)
    ensures Bounded(h, es + [e], bound) <==> Bounded(h, es, bound) && Bounded(h, [e], bound)
  {
    forall a ensures CoveredBy(es + [e], a) <==> CoveredBy(es, a) || CoveredBy([e], a) {
      CoveredByConcat(es, [e], a);
    }
  }

  lemma BoundedPrefix(h: Heap, es: seq<Mse>, n: nat, bound: set<Obj>)
    requires n <= |es| && Bounded(h, es, bound)
    ensures Bounded(h, es[..n], bound)
  {
  }

  /** The top entry e was replaced by left (nothing, or what remains of it) and the range w about to be scanned. */
  lemma RangeTaken(h: Heap, es: seq<Mse>, e: Mse, left: seq<Mse>, w: Mse, m: set<Obj>, bound: set<Obj>)
    requires Bounded(h, es + [e], bound)
    requires forall a :: Covers(e, a) <==> Covers(w, a) || CoveredBy(left, a)
    ensures Kept(h, es + [e], m, es + left + [w], m)
    ensures Bounded(h, es + left, bound) && Bounded(h, [w], bound)
  {
    forall a
      ensures CoveredBy(es + left + [w], a) <==> CoveredBy(es + [e], a)
      ensures CoveredBy(es + left, a) ==> CoveredBy(es + [e], a)
      ensures CoveredBy([w], a) ==> CoveredBy(es + [e], a)
    {
      CoveredByPush(es, e, a);
      CoveredByConcat(es, left, a);
      CoveredByPush(es + left, w, a);
      CoveredByOne(w, a);
    }
  }

  lemma TimesTaken(es: seq<Mse>, e: Mse, left: seq<Mse>, w: Mse)
    requires |left| <= 1
    requires forall a :: Covers(e, a) <==> Covers(w, a) || CoveredBy(left, a)
    requires forall a :: !(Covers(w, a) && CoveredBy(left, a))
    ensures forall a :: Times(es + [e], a) == Times(es + left, a) + if Covers(w, a) then 1 else 0
  {
    forall a
      ensures Times(es + [e], a) == Times(es + left, a) + if Covers(w, a) then 1 else 0
    {
      TimesPush(es, e, a);
      if left == [] {
        assert es + left == es;
      } else {
        assert left == [left[0]];
        TimesPush(es, left[0], a);
        CoveredByOne(left[0], a);
      }
    }
  }

  /** What a stop function does when asked again and again: it always answers no, or first yes when it has been asked a
      number of times before. */
  datatype Stop = Never | After(polls: nat)

  /** GC_block_empty: no object of the block is marked. */
  predicate BlockEmpty(marks: set<Obj>, b: Block)
    requires b.sz > 0
  {
    forall o :: o in Objs(b) ==> o !in marks
  }

  ghost predicate ObjectPushed(h: Heap, es: seq<Mse>, o: Obj) {
    forall a :: Slot(h, o, a) ==> CoveredBy(es, a)
  }

  lemma PushedObject(h: Heap, es: seq<Mse>, o: Obj)
    requires HeapWF(h) && o in h.objs
    ensures ObjectPushed(h, es + [Mse(o, h.objs[o].descr)], o)
    ensures h.objs[o].descr == 0 ==> ObjectPushed(h, es, o)
  {
    forall a | Slot(h, o, a) ensures CoveredBy(es + [Mse(o, h.objs[o].descr)], a) {
      CoveredByPush(es, Mse(o, h.objs[o].descr), a);
    }
  }

  lemma ObjectsMakeBlockPushed(h: Heap, marks: set<Obj>, es: seq<Mse>, b: Block)
    requires HeapWF(h) && b in h.blocks && b.WF()
    requires forall o :: o in Objs(b) && o in marks ==> ObjectPushed(h, es, o)
    ensures BlockPushed(h, marks, es, b)
  {
  }

  lemma NothingToPush(h: Heap, marks: set<Obj>, es: seq<Mse>, b: Block)
    requires HeapWF(h) && b in h.blocks && b.WF() && (b.descr == 0 || BlockEmpty(marks, b))
    ensures BlockPushed(h, marks, es, b)
  {
  }

  lemma BlockKnown(h: Heap, i: nat)
    requires HeapWF(h) && i < |h.blocks|
    ensures h.blocks[i].WF() && h.blocks[i].End() > h.blocks[i].start
    ensures forall j :: i < j < |h.blocks| ==> h.blocks[i].End() <= h.blocks[j].start
    ensures forall o :: o in Objs(h.blocks[i]) ==> o in h.objs
  {
  }

  lemma NextBlockAfter(h: Heap, i: nat)
    requires HeapWF(h) && i < |h.blocks|
    ensures NextBlock(h.blocks, h.blocks[i].End()) == i + 1
  {
    BlockKnown(h, i);
    hide HeapWF;
    if i + 1 < |h.blocks| {
      assert h.blocks[i].End() <= h.blocks[i + 1].start;
    }
  }

  /** A scan that skipped uninteresting blocks and pushed block i has done its part up to the end of block i. */
  lemma ScanStops(s: Snapshot, t: Snapshot, i: nat)
    requires HeapWF(s.heap) && NextBlock(s.heap.blocks, s.scan) <= i <= |s.heap.blocks|
    requires t == s.(stack := t.stack, scan := t.scan, objectsAreMarked := t.objectsAreMarked)
    requires s.objectsAreMarked ==> t.objectsAreMarked
    requires s.stack <= t.stack && forall k :: 0 <= k < |t.stack| ==> t.stack[k].descr > 0
    requires forall j :: 0 <= j < i && s.heap.blocks[j].start >= s.scan ==> Skippable(s, s.heap.blocks[j])
    requires i == |s.heap.blocks| ==> t.scan == 0
    requires i < |s.heap.blocks| ==>
               t.scan == s.heap.blocks[i].End() > 0 && BlockPushed(s.heap, s.marks, t.stack, s.heap.blocks[i])
    ensures Scanned(s, t) && Advanced(s.heap.blocks, s.scan, t.scan)
  {
    hide HeapWF, BlockPushed, Skippable;
    if i < |s.heap.blocks| {
      BlockKnown(s.heap, i);
      NextBlockAfter(s.heap, i);
    }
  }

  lemma RootKnown(h: Heap, bound: set<Obj>, e: Mse)
    requires HeapWF(h) && BoundWF(h, bound) && (e in h.roots || e in h.stackRoots)
    ensures Bounded(h, [e], bound)
    ensures e in h.roots ==> e.descr > 0
  {
  }

  lemma KeptAppend(h: Heap, es: seq<Mse>, m: set<Obj>, more: seq<Mse>)
    ensures Kept(h, es, m, es + more, m)
  {
    forall a | CoveredBy(es, a) ensures CoveredBy(es + more, a) {
      CoveredByConcat(es, more, a);
    }
  }

  /** With all static ranges pushed and all stack words examined, every root position is accounted for. */
  lemma RootsKept(h: Heap, es0: seq<Mse>, m0: set<Obj>, es: seq<Mse>, m: set<Obj>)
    requires Kept(h, es0 + h.roots, m0, es, m)
    requires forall j, a :: 0 <= j < |h.stackRoots| && Covers(h.stackRoots[j], a) ==> !Open(h, m, a)
    ensures forall a :: RootSlot(h, a) && Open(h, m, a) ==> CoveredBy(es, a)
  {
    forall a | RootSlot(h, a) && Open(h, m, a) ensures CoveredBy(es, a) {
      CoveredByConcat(es0, h.roots, a);
    }
  }

  lemma LeastBound(h: Heap, m: set<Obj>)
    requires HeapWF(h) && m <= h.objs.Keys
    ensures BoundWF(h, ReachableSet(h, m)) && m <= ReachableSet(h, m) <= h.objs.Keys
    ensures Bounded(h, [], ReachableSet(h, m))
  {
    ReachableSetClosed(h, m);
  }

  lemma WholeHeapBound(s: Snapshot)
    requires Consistent(s)
    ensures BoundWF(s.heap, s.heap.objs.Keys) && Bounded(s.heap, s.stack, s.heap.objs.Keys)
  {
  }

  lemma ScannedHeap(s: Snapshot, t: Snapshot)
    requires Scanned(s, t)
    ensures t.heap == s.heap
  {
  }

  lemma ObjSized(h: Heap, o: Obj)
    requires HeapWF(h) && o in h.objs
    ensures h.objs[o].WF()
  {
  }

  lemma OneFewer(all: set<Obj>, m: set<Obj>, o: Obj)
    requires o in all && o !in m
    ensures |all - (m + {o})| == |all - m| - 1
  {
    assert all - m == (all - (m + {o})) + {o};
  }

  lemma ObjKnown(h: Heap, bound: set<Obj>, o: Obj)
    requires HeapWF(h) && BoundWF(h, bound) && o in bound
    ensures o in h.objs && h.objs[o].WF()
    ensures Bounded(h, [Mse(o, h.objs[o].descr)], bound)
  {
  }

  /** Marking object o and pushing it, unless it has nothing to scan, loses no pending position. */
  lemma KeptMarkOne(h: Heap, es: seq<Mse>, m: set<Obj>, es': seq<Mse>, o: Obj)
    requires o in h.objs && o !in m && h.objs[o].descr >= 0
    requires es' == if h.objs[o].descr == 0 then es else es + [Mse(o, h.objs[o].descr)]
    ensures Kept(h, es, m, es', m + {o})
  {
    forall a
      ensures CoveredBy(es, a) ==> CoveredBy(es', a)
      ensures Slot(h, o, a) ==> CoveredBy(es', a)
    {
      CoveredByPush(es, Mse(o, h.objs[o].descr), a);
    }
  }

  lemma ObjsFromStep(p: int, sz: int, lim: int)
    requires sz > 0
    ensures p <= lim ==> ObjsFrom(p, sz, lim) == [p] + ObjsFrom(p + sz, sz, lim) && |ObjsFrom(p, sz, lim)| > 0
    ensures p > lim ==> ObjsFrom(p, sz, lim) == []
  {
  }

  lemma ObjOfBlock(h: Heap, b: Block, done: seq<Obj>, p: Obj)
    requires HeapWF(h) && b in h.blocks && b.WF() && p <= b.Limit()
    requires Objs(b) == done + ObjsFrom(p, b.sz, b.Limit())
    ensures p in h.objs && h.objs[p] == b
  {
  }

  lemma DonePushed(h: Heap, marks: set<Obj>, es: seq<Mse>, es': seq<Mse>, done: seq<Obj>, p: Obj)
    requires es <= es'
    requires forall o :: o in done && o in marks ==> ObjectPushed(h, es, o)
    requires p in marks ==> ObjectPushed(h, es', p)
    ensures forall o :: o in done + [p] && o in marks ==> ObjectPushed(h, es', o)
  {
  }

  class Marker {
    var heap: Heap
    var marks: set<Obj>
    var stack: array<Mse>        // GC_mark_stack; its length is GC_mark_stack_size
    var top: int                 // index of GC_mark_stack_top, -1 when empty
    var state: MarkState
    var scanPtr: int
    var objectsAreMarked: bool
    var stackTooSmall: bool
    var dirtyPages: set<int>
    var grungyPages: set<int>
    ghost var rootsFresh: bool
    ghost var stale: iset<int>
    ghost var bound: set<Obj>    // no object outside may get marked

    /** GC_mark_init, for a heap with nothing marked in it. */
    constructor (h: Heap)
      requires HeapWF(h)
      ensures Valid() && fresh(stack) && heap == h && marks == {} && state == MS_NONE && top == -1 && stale == iset{}
    {
      heap, marks, top, state, scanPtr := h, {}, -1, MS_NONE, 0;
      stack := new Mse[INITIAL_MARK_STACK_SIZE];
      objectsAreMarked, stackTooSmall, dirtyPages, grungyPages := false, false, {}, {};
      rootsFresh, stale, bound := false, iset{}, h.objs.Keys;
    }

    ghost predicate Shape()
      reads this
    {
      stack.Length >= INITIAL_MARK_STACK_SIZE && -1 <= top < stack.Length
    }

    ghost function Entries(): seq<Mse>
      requires Shape()
      reads this, stack
    {
      stack[..top + 1]
    }

    ghost function Snap(): Snapshot
      requires Shape()
      reads this, stack
    {
      Snapshot(heap, marks, Entries(), state, scanPtr, objectsAreMarked, dirtyPages, grungyPages, rootsFresh, stale)
    }

    ghost predicate Sane()
      reads this, stack
    {
      && Shape()
      && HeapWF(heap)
      && (forall i :: 0 <= i <= top ==> stack[i].descr > 0)
      && BoundWF(heap, bound) && marks <= bound <= heap.objs.Keys && Bounded(heap, Entries(), bound)
      && scanPtr >= 0
    }

    /** The stack has room even if every object that is not marked yet gets marked and pushed. */
    ghost predicate Roomy()
      reads this
    {
      top + |heap.objs.Keys - marks| < stack.Length
    }

    ghost predicate Valid()
      reads this, stack
    {
      Sane() && Consistent(Snap())
    }

    /** GC_signal_mark_stack_overflow for the sequential marker. */
    method SignalOverflow()
      requires top >= GC_MARK_STACK_DISCARDS
      modifies this`state, this`stackTooSmall, this`top
      ensures state == MS_INVALID && top == old(top) - GC_MARK_STACK_DISCARDS
    {
      state := MS_INVALID;
      stackTooSmall := true;
      top := top - GC_MARK_STACK_DISCARDS;
    }

    /** GC_push_obj. */
    method PushObj(o: Obj)
      requires Sane() && o in heap.objs && Bounded(heap, [Mse(o, heap.objs[o].descr)], bound)
      modifies this`top, this`state, this`stackTooSmall, stack
      ensures Sane()
      ensures var d := heap.objs[o].descr;
              if d == 0 then Entries() == old(Entries()) && state == old(state)
              else if old(top) + 1 < stack.Length then
                Entries() == old(Entries()) + [Mse(o, d)] && state == old(state)
              else
                Entries() == old(Entries())[..stack.Length - GC_MARK_STACK_DISCARDS] + [Mse(o, d)] &&
                    state == MS_INVALID
    {
      hide HeapWF, BoundWF, Bounded;
      var d := heap.objs[o].descr;
      ghost var es := Entries();
      ObjSized(heap, o);
      if d != 0 {
        top := top + 1;
        if top >= stack.Length {
          SignalOverflow();
        }
        BoundedPrefix(heap, es, top, bound);
        BoundedPush(heap, es[..top], Mse(o, d), bound);
        stack[top] := Mse(o, d);
        assert Entries() == es[..top] + [Mse(o, d)];
      }
    }

    /** Marks object o and pushes it. */
    method MarkAndPush(o: Obj)
      requires Sane() && o in bound && o !in marks
      modifies this`marks, this`top, this`state, this`stackTooSmall, stack
      ensures Sane() && marks == old(marks) + {o}
      ensures old(Roomy()) ==> Roomy() && state == old(state)
      ensures state == old(state) || state == MS_INVALID
      ensures state != MS_INVALID ==> Kept(heap, old(Entries()), old(marks), Entries(), marks)
      ensures state != MS_INVALID ==> Balanced(heap, old(Entries()), old(marks), multiset{}, Entries(), marks)
    {
      hide HeapWF, BoundWF, Kept, Bounded, Balanced;
      ghost var es, m := Entries(), marks;
      ObjKnown(heap, bound, o);
      marks := marks + {o};
      OneFewer(heap.objs.Keys, m, o);
      PushObj(o);
      if state != MS_INVALID {
        KeptMarkOne(heap, es, m, Entries(), o);
        BalancedMarkOne(heap, es, m, o, Entries());
      }
    }

    /** PUSH_CONTENTS on the word w: mark its target if that was unmarked, and push it. */
    method PushContents(w: int)
      requires Sane()
      requires w in heap.resolve ==> heap.resolve[w] in bound
      modifies this`marks, this`top, this`state, this`stackTooSmall, stack
      ensures Sane()
      ensures old(Roomy()) ==> Roomy() && state == old(state)
      ensures marks == old(marks) + if w in heap.resolve then {heap.resolve[w]} else {}
      ensures state == old(state) || (state == MS_INVALID && marks != old(marks))
      ensures marks == old(marks) ==> Entries() == old(Entries())
      ensures state != MS_INVALID ==> Kept(heap, old(Entries()), old(marks), Entries(), marks)
      ensures state != MS_INVALID ==> Balanced(heap, old(Entries()), old(marks), multiset{}, Entries(), marks)
    {
      hide HeapWF, BoundWF, Kept, Bounded, Balanced;
      KeptReflexive(heap, Entries(), marks);
      BalancedReflexive(heap, Entries(), marks);
      if w in heap.resolve {
        var o := heap.resolve[w];
        if o !in marks {
          MarkAndPush(o);
        }
      }
    }

    /** First half of a range scan: walk down from the end to the highest plausible word. Everything above it is
        no pointer. Ghost result: how often each position was examined. */
    method FindDeferred(start: int, end: int)
      returns (found: bool, limit: int, deferred: int, ghost seen: multiset<int>)
      requires HeapWF(heap)
      requires end - start >= WORD
      ensures start <= limit + 1 && limit + 1 + WORD <= end
      ensures forall a :: Covers(Mse(start, end - start), a) && a > limit + (if found then 1 else 0) ==>
                !HasTarget(heap, a)
      ensures found ==> deferred == Load(heap, limit + 1)
      ensures !found ==> start > limit
      ensures forall a :: seen[a] == if Covers(Mse(start, end - start), a) && a > limit then 1 else 0
    {
      ghost var range := Mse(start, end - start);
      limit := end - WORD;
      seen := multiset{};
      while true
        invariant start <= limit <= end - WORD
        invariant forall a :: Covers(range, a) && a > limit ==> !HasTarget(heap, a)
        invariant forall a :: seen[a] == if Covers(range, a) && a > limit then 1 else 0
        decreases limit - start + WORD
      {
        deferred := Load(heap, limit);
        seen := seen + multiset{limit};
        limit := limit - 1;
        if Plausible(heap, deferred) {
          return true, limit, deferred, seen;
        }
        if start > limit {
          return false, limit, deferred, seen;
        }
      }
    }

    /** LOAD_WORD, the plausibility test and PUSH_CONTENTS for the word at position p. */
    method ExamineSlot(p: int)
      requires Sane()
      requires HasTarget(heap, p) ==> Target(heap, p) in bound
      modifies this`marks, this`top, this`state, this`stackTooSmall, stack
      ensures Sane()
      ensures old(Roomy()) ==> Roomy() && state == old(state)
      ensures old(marks) <= marks && !Open(heap, marks, p)
      ensures state == old(state) || (state == MS_INVALID && marks != old(marks))
      ensures marks == old(marks) ==> Entries() == old(Entries())
      ensures state != MS_INVALID ==> Kept(heap, old(Entries()), old(marks), Entries(), marks)
      ensures state != MS_INVALID ==> Balanced(heap, old(Entries()), old(marks), multiset{}, Entries(), marks)
    {
      BalancedReflexive(heap, Entries(), marks);
      var current := Load(heap, p);
      if Plausible(heap, current) {
        PushContents(current);
      }
    }

    /** Second half of a range scan: the positions from start to limit, upwards. */
    method ExamineUpTo(start: int, limit: int) returns (ghost seen: multiset<int>)
      requires Sane()
      requires start <= limit + 1
      requires forall a :: start <= a <= limit && HasTarget(heap, a) ==> Target(heap, a) in bound
      modifies this`marks, this`top, this`state, this`stackTooSmall, stack
      ensures Sane()
      ensures old(Roomy()) ==> Roomy() && state == old(state)
      ensures old(marks) <= marks
      ensures state == old(state) || (state == MS_INVALID && marks != old(marks))
      ensures marks == old(marks) ==> Entries() == old(Entries())
      ensures state != MS_INVALID ==>
                Kept(heap, old(Entries()) + [Mse(start, limit + WORD - start)], old(marks), Entries(), marks)
      ensures forall a :: seen[a] == if start <= a <= limit then 1 else 0
      ensures state != MS_INVALID ==> Balanced(heap, old(Entries()), old(marks), multiset{}, Entries(), marks)
    {
      hide HeapWF, BoundWF, Roomy, Kept, Balanced;
      ghost var es0, m0, w := Entries(), marks, Mse(start, limit + WORD - start);
      KeptReflexive(heap, es0 + [w], m0);
      BalancedReflexive(heap, es0, m0);
      var p := start;
      seen := multiset{};
      while p <= limit
        invariant start <= p <= limit + 1
        invariant Sane()
        invariant m0 <= marks
        invariant old(Roomy()) ==> Roomy() && state == old(state)
        invariant state == old(state) || (state == MS_INVALID && marks != m0)
        invariant marks == m0 ==> Entries() == es0
        invariant state != MS_INVALID ==> Kept(heap, es0 + [w], m0, Entries() + [Mse(p, limit + WORD - p)], marks)
        invariant forall a :: seen[a] == if start <= a < p then 1 else 0
        invariant state != MS_INVALID ==> Balanced(heap, es0, m0, multiset{}, Entries(), marks)
      {
        ghost var es1, m1 := Entries(), marks;
        seen := seen + multiset{p};
        ExamineSlot(p);
        if state != MS_INVALID {
          KeptAdvance(heap, es0 + [w], m0, es1, m1, Entries(), marks, p, limit + WORD - p);
          BalancedUnseen(heap, es0, m0, es1, m1, Entries(), marks);
        }
        p := p + 1;
      }
      ghost var left := Mse(p, limit + WORD - p);
      KeptDrop(heap, Entries(), marks, left);
      if state != MS_INVALID {
        KeptTransitive(heap, es0 + [w], m0, Entries() + [left], marks, Entries(), marks);
      }
    }

    /** Scan of one range in GC_mark_from: the highest plausible word is deferred, the words below it are examined
        upwards, then the deferred one. Each candidate position is examined exactly once. */
    method ScanRange(start: int, end: int) returns (ghost seen: multiset<int>)
      requires Sane()
      requires end - start >= WORD
      requires Bounded(heap, [Mse(start, end - start)], bound)
      modifies this`marks, this`top, this`state, this`stackTooSmall, stack
      ensures Sane()
      ensures old(Roomy()) ==> Roomy() && state == old(state)
      ensures old(marks) <= marks
      ensures state == old(state) || (state == MS_INVALID && marks != old(marks))
      ensures marks == old(marks) ==> Entries() == old(Entries())
      ensures state != MS_INVALID ==>
                Kept(heap, old(Entries()) + [Mse(start, end - start)], old(marks), Entries(), marks)
      ensures forall a :: seen[a] == if Covers(Mse(start, end - start), a) then 1 else 0
      ensures state != MS_INVALID ==> Balanced(heap, old(Entries()), old(marks), multiset{}, Entries(), marks)
    {
      hide HeapWF, BoundWF, Roomy, Kept, Balanced;
      ghost var es, m, range := Entries(), marks, Mse(start, end - start);
      forall a | Covers(range, a) && HasTarget(heap, a) ensures Target(heap, a) in bound {
        CoveredByOne(range, a);
      }
      var found, limit, deferred;
      found, limit, deferred, seen := FindDeferred(start, end);
      if !found {
        KeptDrop(heap, es, m, range);
        BalancedReflexive(heap, es, m);
        return;
      }
      ghost var w := Mse(start, limit + WORD - start);
      ghost var seenUp := ExamineUpTo(start, limit);
      seen := seen + seenUp;
      ghost var es1, m1 := Entries(), marks;
      assert Covers(range, limit + 1);
      PushContents(deferred);
      if state != MS_INVALID {
        KeptTransitive(heap, es + [w], m, es1, m1, Entries(), marks);
        RangeScanned(heap, es, m, Entries(), marks, range, w);
        BalancedUnseen(heap, es, m, es1, m1, Entries(), marks);
      }
    }

    /** The start of one iteration of GC_mark_from: take the top entry, or only the first SPLIT_RANGE_WORDS - 1
        words of a long one. Each candidate position of the entry ends up in [start, end) or in what stays on
        the stack, and never in both. */
    method TakeRange() returns (start: int, end: int)
      requires Sane() && top >= 0
      modifies this`top, stack
      ensures Sane()
      ensures old(top) - 1 <= top <= old(top)
      ensures Entries()[..old(top)] == old(Entries())[..old(top)]
      ensures forall a :: Covers(old(stack[top]), a) <==>
                Covers(Mse(start, end - start), a) || CoveredBy(Entries()[old(top)..], a)
      ensures forall a :: !(Covers(Mse(start, end - start), a) && CoveredBy(Entries()[old(top)..], a))
      ensures forall a :: Times(old(Entries()), a) ==
                          Times(Entries(), a) + if Covers(Mse(start, end - start), a) then 1 else 0
      ensures Bounded(heap, [Mse(start, end - start)], bound)
      ensures Kept(heap, old(Entries()), marks, Entries() + [Mse(start, end - start)], marks)
      ensures Bytes(Entries()) < Bytes(old(Entries()))
    {
      hide HeapWF, BoundWF;
      var e := stack[top];
      ghost var es, es', left: seq<Mse> := Entries(), Entries()[..top], [];
      assert es == es' + [e];
      BytesPush(es', e);
      start := e.start;
      if e.descr >= SPLIT_RANGE_WORDS * WORD {
        var cut := (SPLIT_RANGE_WORDS - 1) * WORD;
        var rest := Mse(e.start + cut, e.descr - cut);
        end := e.start + cut + WORD - 1;
        stack[top] := rest;
        left := [rest];
        BytesPush(es', rest);
        forall a
          ensures Covers(e, a) <==> Covers(Mse(start, end - start), a) || CoveredBy(left, a)
          ensures !(Covers(Mse(start, end - start), a) && CoveredBy(left, a))
        {
          SplitCoversOnce(e, a);
          CoveredByOne(rest, a);
        }
      } else {
        end := e.start + e.descr;
        top := top - 1;
      }
      assert Entries() == es' + left;
      assert es' + [] == es';
      RangeTaken(heap, es', e, left, Mse(start, end - start), marks, bound);
      TimesTaken(es', e, left, Mse(start, end - start));
    }

    /** One iteration of GC_mark_from; returns the credit it costs. */
    method MarkOneRange() returns (cost: int, ghost seen: multiset<int>)
      requires Sane() && top >= 0
      modifies this`marks, this`top, this`state, this`stackTooSmall, stack
      ensures Sane()
      ensures old(Roomy()) ==> Roomy() && state == old(state)
      ensures old(marks) <= marks
      ensures state == old(state) || (state == MS_INVALID && marks != old(marks))
      ensures marks == old(marks) ==> Bytes(Entries()) < Bytes(old(Entries()))
      ensures state != MS_INVALID ==> Kept(heap, old(Entries()), old(marks), Entries(), marks)
      ensures state != MS_INVALID ==> Balanced(heap, old(Entries()), old(marks), seen, Entries(), marks)
    {
      hide HeapWF, BoundWF, Kept, Balanced, Times;
      ghost var es, m := Entries(), marks;
      var start, end := TakeRange();
      ghost var range, es1 := Mse(start, end - start), Entries();
      if end - start < WORD {
        KeptDrop(heap, es1, m, range);
        KeptTransitive(heap, es, m, es1 + [range], m, es1, m);
        BalancedRange(heap, es, m, range, multiset{}, es1);
        return 0, multiset{};
      }
      cost := end - start;
      seen := ScanRange(start, end);
      BalancedRange(heap, es, m, range, seen, es1);
      if state != MS_INVALID {
        KeptTransitive(heap, es, m, es1 + [range], m, Entries(), marks);
        BalancedTransitive(heap, es, m, seen, es1, m, multiset{}, Entries(), marks);
        assert seen + multiset{} == seen;
      }
    }

    /** GC_mark_from: scan ranges from the mark stack until it is empty or about one page was looked at. */
    method MarkFrom() returns (ghost seen: multiset<int>)
      requires Sane()
      modifies this`marks, this`top, this`state, this`stackTooSmall, this`objectsAreMarked, stack
      ensures Sane()
      ensures old(Roomy()) ==> Roomy() && state == old(state)
      ensures MarkedFrom(old(Snap()), Snap())
      ensures state != MS_INVALID ==> Balanced(heap, old(Entries()), old(marks), seen, Entries(), marks)
    {
      hide HeapWF, BoundWF, Kept, Balanced;
      objectsAreMarked := true;
      seen := MarkRanges();
    }

    /** The loop of GC_mark_from. */
    method MarkRanges() returns (ghost seen: multiset<int>)
      requires Sane()
      modifies this`marks, this`top, this`state, this`stackTooSmall, stack
      ensures Sane()
      ensures old(Roomy()) ==> Roomy() && state == old(state)
      ensures old(marks) <= marks
      ensures state == old(state) || (state == MS_INVALID && marks != old(marks))
      ensures state != MS_INVALID ==> Kept(heap, old(Entries()), old(marks), Entries(), marks)
      ensures state != MS_INVALID ==> Balanced(heap, old(Entries()), old(marks), seen, Entries(), marks)
      ensures marks == old(marks) && old(top) >= 0 ==> Bytes(Entries()) < Bytes(old(Entries()))
    {
      hide HeapWF, BoundWF, Roomy, Kept, Balanced;
      var credit := HBLKSIZE;
      ghost var es0, m0 := Entries(), marks;
      KeptReflexive(heap, es0, m0);
      BalancedReflexive(heap, es0, m0);
      seen := multiset{};
      while top >= 0 && credit >= 0
        invariant Sane()
        invariant m0 <= marks
        invariant old(Roomy()) ==> Roomy() && state == old(state)
        invariant state == old(state) || (state == MS_INVALID && marks != m0)
        invariant state != MS_INVALID ==> Kept(heap, es0, m0, Entries(), marks)
        invariant state != MS_INVALID ==> Balanced(heap, es0, m0, seen, Entries(), marks)
        invariant marks == m0 ==> Bytes(Entries()) < Bytes(es0) || (credit == HBLKSIZE && Entries() == es0)
        decreases |heap.objs.Keys - marks|, Bytes(Entries())
      {
        ghost var es, m := Entries(), marks;
        BytesNonNegative(es);
        var cost;
        ghost var more;
        cost, more := MarkOneRange();
        credit := credit - cost;
        MoreMarksFewerUnmarked(heap.objs.Keys, m, marks);
        if state != MS_INVALID {
          KeptTransitive(heap, es0, m0, es, m, Entries(), marks);
          BalancedTransitive(heap, es0, m0, seen, es, m, more, Entries(), marks);
        }
        seen := seen + more;
      }
    }

    // ---- Pushing marked objects block by block

    /** GC_push_marked: push the marked objects of one block. When the stack has room for all of them, as it has in
        every state of GC_mark_some that calls this, nothing is lost. */
    method PushMarked(b: Block)
      requires Sane() && b in heap.blocks && b.WF()
      modifies this`top, this`state, this`stackTooSmall, this`objectsAreMarked, stack
      ensures Sane()
      ensures old(objectsAreMarked) ==> objectsAreMarked
      ensures old(top) + 1 + |Objs(b)| <= stack.Length ==>
                && state == old(state) && old(Entries()) <= Entries() && top <= old(top) + |Objs(b)|
                && BlockPushed(heap, marks, Entries(), b)
    {
      hide HeapWF, BoundWF, ObjectPushed, BlockPushed, Bounded;
      if b.descr == 0 || BlockEmpty(marks, b) {
        NothingToPush(heap, marks, Entries(), b);
        return;
      }
      objectsAreMarked := true;
      PushMarkedObjects(b);
      if old(top) + 1 + |Objs(b)| <= stack.Length {
        ObjectsMakeBlockPushed(heap, marks, Entries(), b);
      }
    }

    /** The loop of GC_push_marked. */
    method PushMarkedObjects(b: Block)
      requires Sane() && b in heap.blocks && b.WF()
      modifies this`top, this`state, this`stackTooSmall, stack
      ensures Sane()
      ensures old(top) + 1 + |Objs(b)| <= stack.Length ==>
                && state == old(state) && old(Entries()) <= Entries() && top <= old(top) + |Objs(b)|
                && forall o :: o in Objs(b) && o in marks ==> ObjectPushed(heap, Entries(), o)
    {
      hide HeapWF, BoundWF, ObjectPushed, BlockPushed, Bounded, ObjsFrom;
      ghost var es0, room := Entries(), top + 1 + |Objs(b)| <= stack.Length;
      ghost var done: seq<Obj> := [];
      var p, lim := b.start, b.Limit();
      while p <= lim
        invariant Sane()
        invariant Objs(b) == done + ObjsFrom(p, b.sz, lim)
        invariant room ==> state == old(state) && top <= old(top) + |done| && es0 <= Entries()
        invariant room ==> forall o :: o in done && o in marks ==> ObjectPushed(heap, Entries(), o)
        decreases lim - p
      {
        ghost var es := Entries();
        ObjsFromStep(p, b.sz, lim);
        ObjOfBlock(heap, b, done, p);
        if p in marks {
          ObjKnown(heap, bound, p);
          PushObj(p);
          if room {
            PushedObject(heap, es, p);
          }
        }
        if room {
          DonePushed(heap, marks, es, Entries(), done, p);
        }
        assert Objs(b) == done + [p] + ObjsFrom(p + b.sz, b.sz, lim);
        done := done + [p];
        p := p + b.sz;
      }
      ObjsFromStep(p, b.sz, lim);
      assert Objs(b) == done;
    }

    /** GC_push_next_marked: push the next block at or above h; the result is 0 when there is none. */
    method PushNextMarked(h: int) returns (next: int)
      requires Sane() && h == scanPtr && top < 0
      modifies this`top, this`state, this`stackTooSmall, this`objectsAreMarked, stack
      ensures Sane() && state == old(state) && top <= old(top) + 256
      ensures Scanned(old(Snap()), Snap().(scan := next)) && Advanced(heap.blocks, h, next)
    {
      hide HeapWF, BoundWF, BlockPushed, Scanned;
      ghost var s := Snap();
      var i := NextBlock(heap.blocks, h);
      next := PushBlockAt(i);
      ScanStops(s, Snap().(scan := next), i);
    }

    /** The common end of the three scans: push block i unless the scan is at the end of the heap. */
    method PushBlockAt(i: nat) returns (next: int)
      requires Sane() && i <= |heap.blocks| && top + 1 + 256 <= stack.Length
      modifies this`top, this`state, this`stackTooSmall, this`objectsAreMarked, stack
      ensures Sane() && state == old(state) && top <= old(top) + 256
      ensures old(objectsAreMarked) ==> objectsAreMarked
      ensures old(Entries()) <= Entries()
      ensures i == |heap.blocks| ==> next == 0
      ensures i < |heap.blocks| ==> next == heap.blocks[i].End() > heap.blocks[i].start && next > 0
      ensures i < |heap.blocks| ==> BlockPushed(heap, marks, Entries(), heap.blocks[i])
    {
      hide HeapWF, BoundWF, BlockPushed;
      if i == |heap.blocks| {
        return 0;
      }
      var b := heap.blocks[i];
      BlockKnown(heap, i);
      BlockObjsFit(b);
      PushMarked(b);
      next := b.End();
    }

    /** GC_block_was_dirty. */
    method BlockWasDirty(b: Block) returns (r: bool)
      ensures r == BlockDirty(b, grungyPages)
    {
      if b.sz <= MAXOBJBYTES {
        return b.start in grungyPages;
      }
      var p := b.start;
      while p < b.start + b.sz
        invariant AnyPage(b.start, b.start + b.sz, grungyPages) == AnyPage(p, b.start + b.sz, grungyPages)
        decreases b.start + b.sz - p
      {
        if p in grungyPages {
          return true;
        }
        p := p + HBLKSIZE;
      }
      return false;
    }

    /** The search loop of GC_push_next_marked_dirty. */
    method NextDirty(h: int) returns (i: nat)
      requires HeapWF(heap)
      ensures NextBlock(heap.blocks, h) <= i <= |heap.blocks|
      ensures forall j :: 0 <= j < i && heap.blocks[j].start >= h ==> !BlockDirty(heap.blocks[j], grungyPages)
      ensures i < |heap.blocks| ==> BlockDirty(heap.blocks[i], grungyPages)
    {
      hide HeapWF, BlockDirty;
      i := NextBlock(heap.blocks, h);
      while i < |heap.blocks|
        invariant NextBlock(heap.blocks, h) <= i <= |heap.blocks|
        invariant forall j :: 0 <= j < i && heap.blocks[j].start >= h ==> !BlockDirty(heap.blocks[j], grungyPages)
      {
        var dirty := BlockWasDirty(heap.blocks[i]);
        if dirty {
          break;
        }
        NextBlockAfter(heap, i);
        i := NextBlock(heap.blocks, heap.blocks[i].End());
      }
    }

    /** The search loop of GC_push_next_marked_uncollectable. */
    method NextUncollectable(h: int) returns (i: nat)
      requires HeapWF(heap)
      ensures NextBlock(heap.blocks, h) <= i <= |heap.blocks|
      ensures forall j :: 0 <= j < i && heap.blocks[j].start >= h ==> !heap.blocks[j].uncollectable
      ensures i < |heap.blocks| ==> heap.blocks[i].uncollectable
    {
      hide HeapWF;
      i := NextBlock(heap.blocks, h);
      while i < |heap.blocks| && !heap.blocks[i].uncollectable
        invariant NextBlock(heap.blocks, h) <= i <= |heap.blocks|
        invariant forall j :: 0 <= j < i && heap.blocks[j].start >= h ==> !heap.blocks[j].uncollectable
      {
        NextBlockAfter(heap, i);
        i := NextBlock(heap.blocks, heap.blocks[i].End());
      }
    }

    /** GC_push_next_marked_dirty: as GC_push_next_marked, but only for a block with a dirty page. */
    method PushNextMarkedDirty(h: int) returns (next: int)
      requires Sane() && h == scanPtr && state == MS_PUSH_RESCUERS && top + 1 + 256 <= stack.Length
      modifies this`top, this`state, this`stackTooSmall, this`objectsAreMarked, stack
      ensures Sane() && state == old(state) && top <= old(top) + 256
      ensures Scanned(old(Snap()), Snap().(scan := next)) && Advanced(heap.blocks, h, next)
    {
      hide HeapWF, BoundWF, BlockPushed, Scanned, BlockDirty;
      ghost var s := Snap();
      var i := NextDirty(h);
      next := PushBlockAt(i);
      ScanStops(s, Snap().(scan := next), i);
    }

    /** GC_push_next_marked_uncollectable: as GC_push_next_marked, but only for an uncollectable block. */
    method PushNextMarkedUncollectable(h: int) returns (next: int)
      requires Sane() && h == scanPtr && state == MS_PUSH_UNCOLLECTABLE && top + 1 + 256 <= stack.Length
      modifies this`top, this`state, this`stackTooSmall, this`objectsAreMarked, stack
      ensures Sane() && state == old(state) && top <= old(top) + 256
      ensures Scanned(old(Snap()), Snap().(scan := next)) && Advanced(heap.blocks, h, next)
    {
      hide HeapWF, BoundWF, BlockPushed, Scanned;
      ghost var s := Snap();
      var i := NextUncollectable(h);
      next := PushBlockAt(i);
      ScanStops(s, Snap().(scan := next), i);
    }

    // ---- Roots

    /** GC_push_all; the collector aborts when there is no room. */
    method PushAll(e: Mse) returns (ok: bool)
      requires Sane() && e.descr > 0 && Bounded(heap, [e], bound)
      modifies this`top, stack
      ensures ok <==> old(top) + 1 < stack.Length
      ensures if ok then Sane() && Entries() == old(Entries()) + [e] && top == old(top) + 1 else top == old(top)
    {
      hide HeapWF, BoundWF;
      ghost var es := Entries();
      if top + 1 >= stack.Length {
        return false;
      }
      top := top + 1;
      stack[top] := e;
      assert Entries() == es + [e];
      BoundedPush(heap, es, e, bound);
      return true;
    }

    /** GC_push_all_eager: mark from every word of the range at once. */
    method PushAllEager(e: Mse)
      requires Sane() && Bounded(heap, [e], bound)
      modifies this`marks, this`top, this`state, this`stackTooSmall, stack
      ensures Sane()
      ensures old(Roomy()) ==> Roomy() && state == old(state)
      ensures old(marks) <= marks
      ensures state == old(state) || (state == MS_INVALID && marks != old(marks))
      ensures state != MS_INVALID ==> Kept(heap, old(Entries()), old(marks), Entries(), marks)
      ensures forall a :: Covers(e, a) ==> !Open(heap, marks, a)
    {
      hide HeapWF, BoundWF, Roomy, Kept;
      ghost var es0, m0 := Entries(), marks;
      KeptReflexive(heap, es0, m0);
      var p, lim := e.start, e.start + e.descr - WORD;
      while p <= lim
        invariant p >= e.start
        invariant Sane()
        invariant m0 <= marks
        invariant old(Roomy()) ==> Roomy() && state == old(state)
        invariant state == old(state) || (state == MS_INVALID && marks != m0)
        invariant state != MS_INVALID ==> Kept(heap, es0, m0, Entries(), marks)
        invariant forall a :: Covers(e, a) && a < p ==> !Open(heap, marks, a)
      {
        ghost var es, m := Entries(), marks;
        CoveredByOne(e, p);
        ExamineSlot(p);
        if state != MS_INVALID {
          KeptTransitive(heap, es0, m0, es, m, Entries(), marks);
        }
        p := p + 1;
      }
    }

    /** The static part of GC_push_roots: every range goes onto the stack, if there is room for all of them. */
    method PushStaticRoots() returns (ok: bool)
      requires Sane()
      modifies this`top, stack
      ensures ok <==> old(top) + 1 + |heap.roots| <= stack.Length
      ensures ok ==> Sane() && Entries() == old(Entries()) + heap.roots && top == old(top) + |heap.roots|
    {
      hide HeapWF, BoundWF, Bounded;
      ghost var es0 := Entries();
      var i := 0;
      while i < |heap.roots|
        invariant 0 <= i <= |heap.roots| && Sane()
        invariant Entries() == es0 + heap.roots[..i] && top == old(top) + i
      {
        RootKnown(heap, bound, heap.roots[i]);
        ok := PushAll(heap.roots[i]);
        if !ok {
          return;
        }
        assert es0 + heap.roots[..i] + [heap.roots[i]] == es0 + heap.roots[..i + 1];
        i := i + 1;
      }
      ok := true;
      assert heap.roots[..i] == heap.roots;
    }

    /** The part of GC_push_roots that deals with stacks and registers: every word of them is examined at once. */
    method PushStackRoots()
      requires Sane()
      modifies this`marks, this`top, this`state, this`stackTooSmall, stack
      ensures Sane() && old(marks) <= marks
      ensures old(Roomy()) ==> Roomy() && state == old(state)
      ensures state == old(state) || (state == MS_INVALID && marks != old(marks))
      ensures state != MS_INVALID ==> Kept(heap, old(Entries()), old(marks), Entries(), marks)
      ensures forall j, a :: 0 <= j < |heap.stackRoots| && Covers(heap.stackRoots[j], a) ==> !Open(heap, marks, a)
    {
      hide HeapWF, BoundWF, Roomy, Kept, Bounded;
      ghost var es0, m0 := Entries(), marks;
      KeptReflexive(heap, es0, m0);
      var i := 0;
      while i < |heap.stackRoots|
        invariant 0 <= i <= |heap.stackRoots|
        invariant Sane() && m0 <= marks
        invariant old(Roomy()) ==> Roomy() && state == old(state)
        invariant state == old(state) || (state == MS_INVALID && marks != m0)
        invariant state != MS_INVALID ==> Kept(heap, es0, m0, Entries(), marks)
        invariant forall j, a :: 0 <= j < i && Covers(heap.stackRoots[j], a) ==> !Open(heap, marks, a)
      {
        ghost var es, m := Entries(), marks;
        RootKnown(heap, bound, heap.stackRoots[i]);
        PushAllEager(heap.stackRoots[i]);
        if state != MS_INVALID {
          KeptTransitive(heap, es0, m0, es, m, Entries(), marks);
        }
        assert forall a :: Open(heap, marks, a) ==> Open(heap, m, a);
        i := i + 1;
      }
    }

    /** GC_push_roots, with the root set always pushed whole: static data first, stacks and registers last. */
    method PushRoots() returns (ok: bool)
      requires Sane()
      modifies this`marks, this`top, this`state, this`stackTooSmall, stack
      ensures ok <==> old(top) + 1 + |heap.roots| <= stack.Length
      ensures ok ==> Sane()
      ensures old(marks) <= marks
      ensures ok ==> state == old(state) || (state == MS_INVALID && marks != old(marks))
      ensures ok && state != MS_INVALID ==> Kept(heap, old(Entries()), old(marks), Entries(), marks)
      ensures ok && state != MS_INVALID ==>
                forall a :: RootSlot(heap, a) && Open(heap, marks, a) ==> CoveredBy(Entries(), a)
    {
      hide HeapWF, BoundWF, Bounded, Kept;
      ghost var es0, m0 := Entries(), marks;
      ok := PushStaticRoots();
      if !ok {
        return;
      }
      ghost var es1 := Entries();
      KeptAppend(heap, es0, m0, heap.roots);
      PushStackRoots();
      if state != MS_INVALID {
        KeptTransitive(heap, es0, m0, es1, m0, Entries(), marks);
        RootsKept(heap, es0, m0, Entries(), marks);
      }
    }

    // ---- The state machine

    /** push_roots_and_advance. */
    method PushRootsAndAdvance() returns (ok: bool)
      requires Sane()
      modifies this`marks, this`top, this`state, this`stackTooSmall, this`objectsAreMarked, this`rootsFresh, stack
      ensures ok <==> old(scanPtr) != 0 || old(top) + 1 + |heap.roots| <= stack.Length
      ensures ok ==> Sane()
      ensures old(scanPtr) != 0 ==> ok && Snap() == old(Snap())
      ensures old(scanPtr) == 0 && ok && old(state) != MS_INVALID ==> RootsPushed(old(Snap()), Snap())
    {
      hide HeapWF, BoundWF, Kept;
      if scanPtr != 0 {
        return true;
      }
      ok := PushRoots();
      if !ok {
        return;
      }
      objectsAreMarked := true;
      if state != MS_INVALID {
        state := MS_ROOTS_PUSHED;
      }
      rootsFresh := true;
    }

    /** alloc_mark_stack: the stack becomes empty; growing it may silently fail. */
    method AllocMarkStack(n: nat)
      requires Sane() && n >= INITIAL_MARK_STACK_SIZE
      modifies this`stack, this`top, this`stackTooSmall
      ensures stack == old(stack) || (fresh(stack) && stack.Length == n)
      ensures Sane() && top == -1 && !stackTooSmall
    {
      hide HeapWF, BoundWF;
      var available: bool := *;
      stackTooSmall := false;
      if available {
        stack := new Mse[n];
      }
      top := -1;
    }

    /** What follows a scan in three of the states: push the roots if the scan reached the end of the heap. */
    method FinishScan(ghost s: Snapshot) returns (r: Outcome)
      requires Sane() && Scanned(s, Snap()) && Advanced(heap.blocks, s.scan, scanPtr) && state != MS_INVALID
      modifies this`marks, this`top, this`state, this`stackTooSmall, this`objectsAreMarked, this`rootsFresh, stack
      ensures r == if scanPtr != 0 || old(top) + 1 + |heap.roots| <= stack.Length then More else Aborted
      ensures r == More ==> Sane() && ScanStep(s, Snap())
    {
      hide HeapWF, BoundWF, RootsPushed, Scanned, Bounded;
      ghost var m := Snap();
      assert m.heap == s.heap by { ScannedHeap(s, m); }
      var ok := PushRootsAndAdvance();
      r := if ok then More else Aborted;
    }

    /** The body of GC_mark_some, state by state. */
    method MarkSomeInner() returns (r: Outcome)
      requires Sane() && (state == MS_NONE ==> top < 0)
      modifies this`marks, this`stack, this`top, this`state, this`scanPtr, this`objectsAreMarked, this`stackTooSmall,
               this`rootsFresh, stack
      ensures stack == old(stack) || fresh(stack)
      ensures r != Aborted ==> Sane()
      ensures |heap.roots| <= ROOT_ROOM ==> r != Aborted
      ensures r == More ==> MarkStep(old(Snap()), Snap())
      ensures r == Finished ==> FinishStep(old(Snap()), Snap())
    {
      hide HeapWF, BoundWF, Scanned, ScanStep, MarkedFrom, Bounded, MarkStep;
      match state
      case MS_NONE => r := Finished;
      case MS_PUSH_RESCUERS => r := MarkSomeRescuers();
      case MS_PUSH_UNCOLLECTABLE => r := MarkSomeUncollectable();
      case MS_ROOTS_PUSHED => r := MarkSomeRootsPushed();
      case _ => r := MarkSomeInvalid();
    }

    /** The state MS_PUSH_RESCUERS: push marked objects of dirty blocks. */
    method MarkSomeRescuers() returns (r: Outcome)
      requires Sane() && state == MS_PUSH_RESCUERS
      modifies this`marks, this`top, this`state, this`scanPtr, this`objectsAreMarked, this`stackTooSmall,
               this`rootsFresh, stack
      ensures r == Aborted || r == More
      ensures |heap.roots| <= ROOT_ROOM ==> r != Aborted
      ensures r == More ==> Sane() && MarkStep(old(Snap()), Snap())
    {
      hide HeapWF, BoundWF, Scanned, ScanStep, MarkedFrom, Bounded, MarkStep;
      ghost var s := Snap();
      r := More;
      if top >= stack.Length - INITIAL_MARK_STACK_SIZE / 2 {
        stackTooSmall := true;
        ghost var seen := MarkFrom();
        StepByMarking(s, Snap());
      } else {
        scanPtr := PushNextMarkedDirty(scanPtr);
        r := FinishScan(s);
        if r == More { StepByScan(s, Snap()); }
      }
    }

    /** The state MS_PUSH_UNCOLLECTABLE: push uncollectable blocks, whose marks survive. */
    method MarkSomeUncollectable() returns (r: Outcome)
      requires Sane() && state == MS_PUSH_UNCOLLECTABLE
      modifies this`marks, this`top, this`state, this`scanPtr, this`objectsAreMarked, this`stackTooSmall,
               this`rootsFresh, stack
      ensures r == Aborted || r == More
      ensures |heap.roots| <= ROOT_ROOM ==> r != Aborted
      ensures r == More ==> Sane() && MarkStep(old(Snap()), Snap())
    {
      hide HeapWF, BoundWF, Scanned, ScanStep, MarkedFrom, Bounded, MarkStep;
      ghost var s := Snap();
      r := More;
      if top >= stack.Length / 4 {
        ghost var seen := MarkFrom();
        StepByMarking(s, Snap());
      } else {
        scanPtr := PushNextMarkedUncollectable(scanPtr);
        r := FinishScan(s);
        if r == More { StepByScan(s, Snap()); }
      }
    }

    /** The state MS_ROOTS_PUSHED: empty the mark stack. */
    method MarkSomeRootsPushed() returns (r: Outcome)
      requires Sane() && state == MS_ROOTS_PUSHED
      modifies this`marks, this`stack, this`top, this`state, this`scanPtr, this`objectsAreMarked, this`stackTooSmall,
               this`rootsFresh, stack
      ensures stack == old(stack) || fresh(stack)
      ensures r != Aborted && Sane()
      ensures r == More ==> MarkStep(old(Snap()), Snap())
      ensures r == Finished ==> FinishStep(old(Snap()), Snap())
    {
      hide HeapWF, BoundWF, Scanned, ScanStep, MarkedFrom, Bounded, MarkStep;
      ghost var s := Snap();
      if top >= 0 {
        ghost var seen := MarkFrom();
        StepByMarking(s, Snap());
        return More;
      }
      state := MS_NONE;
      if stackTooSmall {
        AllocMarkStack(2 * stack.Length);
      }
      assert Entries() == s.stack;
      return Finished;
    }

    /** The states MS_INVALID and MS_PARTIALLY_INVALID: recover from a lost mark stack. */
    method MarkSomeInvalid() returns (r: Outcome)
      requires Sane() && state in {MS_INVALID, MS_PARTIALLY_INVALID}
      modifies this`marks, this`stack, this`top, this`state, this`scanPtr, this`objectsAreMarked, this`stackTooSmall,
               this`rootsFresh, stack
      ensures stack == old(stack) || fresh(stack)
      ensures r == Aborted || r == More
      ensures |heap.roots| <= ROOT_ROOM ==> r != Aborted
      ensures r == More ==> Sane() && MarkStep(old(Snap()), Snap())
    {
      hide HeapWF, BoundWF, Scanned, ScanStep, MarkedFrom, Bounded, MarkStep;
      ghost var s := Snap();
      r := More;
      if !objectsAreMarked {
        state := MS_PUSH_UNCOLLECTABLE;
        StepToUncollectable(s);
      } else if top >= 0 {
        ghost var seen := MarkFrom();
        StepByMarking(s, Snap());
      } else {
        r := ScanForMarked();
      }
    }

    /** Scanning the heap for marked objects with an empty mark stack. */
    method ScanForMarked() returns (r: Outcome)
      requires Sane() && state in {MS_INVALID, MS_PARTIALLY_INVALID} && objectsAreMarked && top < 0
      modifies this`marks, this`stack, this`top, this`state, this`scanPtr, this`objectsAreMarked, this`stackTooSmall,
               this`rootsFresh, stack
      ensures stack == old(stack) || fresh(stack)
      ensures r == Aborted || r == More
      ensures |heap.roots| <= ROOT_ROOM ==> r != Aborted
      ensures r == More ==> Sane() && MarkStep(old(Snap()), Snap())
    {
      hide HeapWF, BoundWF, Scanned, ScanStep, MarkedFrom, Bounded, MarkStep;
      ghost var s := Snap();
      if scanPtr == 0 && state == MS_INVALID {
        StartRescan();
      }
      ghost var m := Snap();
      r := PushNextOrRoots();
      if r == More {
        if s.state == MS_PARTIALLY_INVALID {
          StepByScan(s, Snap());
        } else {
          StepByRescan(s, m, Snap());
        }
      }
    }

    /** The common start of both recoveries: from here on the scan goes over the marked objects of every block, and as
        nothing is pending a larger stack can be put in place first. */
    method StartRescan()
      requires Sane() && top < 0
      modifies this`stack, this`top, this`state, this`stackTooSmall
      ensures stack == old(stack) || fresh(stack)
      ensures Sane() && top < 0 && Snap() == old(Snap()).(state := MS_PARTIALLY_INVALID)
    {
      hide HeapWF, BoundWF, Bounded;
      ghost var s := Snap();
      if stackTooSmall {
        AllocMarkStack(2 * stack.Length);
      }
      state := MS_PARTIALLY_INVALID;
      assert Entries() == s.stack;
    }

    method PushNextOrRoots() returns (r: Outcome)
      requires Sane() && state in {MS_INVALID, MS_PARTIALLY_INVALID} && top < 0
      modifies this`marks, this`top, this`state, this`scanPtr, this`objectsAreMarked, this`stackTooSmall,
               this`rootsFresh, stack
      ensures r == Aborted || r == More
      ensures |heap.roots| <= ROOT_ROOM ==> r != Aborted
      ensures r == More ==> Sane()
      ensures r == More ==> if old(state) == MS_PARTIALLY_INVALID then ScanStep(old(Snap()), Snap())
                            else Scanned(old(Snap()), Snap()) && Advanced(heap.blocks, old(scanPtr), scanPtr)
    {
      hide HeapWF, BoundWF, Scanned, ScanStep, MarkedFrom, Bounded, MarkStep;
      ghost var s := Snap();
      scanPtr := PushNextMarked(scanPtr);
      r := More;
      if state == MS_PARTIALLY_INVALID {
        r := FinishScan(s);
      }
    }

    /** GC_mark_some: one small step of marking; Finished means that a mark phase just ended, More that a measure
        got smaller which cannot do so for ever. */
    method MarkSome() returns (r: Outcome)
      requires Valid()
      modifies this`marks, this`stack, this`top, this`state, this`scanPtr, this`objectsAreMarked, this`stackTooSmall,
               this`rootsFresh, stack
      ensures stack == old(stack) || fresh(stack)
      ensures |heap.roots| <= ROOT_ROOM ==> r != Aborted
      ensures r != Aborted ==> Valid() && old(marks) <= marks && (old(rootsFresh) ==> rootsFresh)
      ensures r != Aborted && state in {MS_ROOTS_PUSHED, MS_NONE} && old(state) !in {MS_ROOTS_PUSHED, MS_NONE} ==>
                rootsFresh
      ensures r == More ==> MarkStep(old(Snap()), Snap()) && Smaller(Snap(), old(Snap())) && state != MS_NONE
      ensures r == Finished ==>
                FinishStep(old(Snap()), Snap()) && state == MS_NONE && old(state) in {MS_ROOTS_PUSHED, MS_NONE}
    {
      hide HeapWF, BoundWF, Bounded, Consistent, MarkStep, FinishStep, Smaller;
      ghost var s := Snap();
      EmptyWhenNone(s);
      r := MarkSomeInner();
      if r != Aborted {
        AfterMarkSome(s, Snap(), r);
        if r == More {
          NotDoneYet(s, Snap());
        }
      }
    }

    lemma MeasureBounded()
      requires Valid()
      ensures Bytes(Entries()) >= 0
    {
      BytesNonNegative(Entries());
    }

    /** The loop of GC_stopped_mark: mark until done or until the stop function says so. If that never does, the loop
        still terminates, whatever overflows on the way. */
    method MarkUntilDone(stop: Stop) returns (r: Outcome, i: nat, ghost trace: seq<Snapshot>)
      requires Valid() && dirtyPages == {} && state !in {MS_ROOTS_PUSHED, MS_NONE}
      modifies this`marks, this`stack, this`top, this`state, this`scanPtr, this`objectsAreMarked, this`stackTooSmall,
               this`rootsFresh, stack
      ensures stack == old(stack) || fresh(stack)
      ensures |heap.roots| <= ROOT_ROOM ==> r != Aborted
      ensures r != Aborted ==> Valid() && old(marks) <= marks
      ensures r == More ==> stop == After(i) && state != MS_NONE
      ensures r != More && stop.After? ==> i < stop.polls
      ensures r == Finished ==> state == MS_NONE && rootsFresh
      ensures r == More ==> |trace| == i + 1 && MarkTrace(old(Snap()), trace, Snap())
    {
      hide HeapWF, BoundWF, Bounded, Consistent, MarkStep, MarkTrace, FinishStep, Rank, BlocksLeft, Bytes, Unmarked;
      i := 0;
      trace := [Snap()];
      NoTrace(Snap());
      while true
        invariant stack == old(stack) || fresh(stack)
        invariant Valid() && old(marks) <= marks
        invariant state != MS_NONE && (state == MS_ROOTS_PUSHED ==> rootsFresh)
        invariant stop.After? ==> i <= stop.polls
        invariant |trace| == i + 1 && MarkTrace(old(Snap()), trace, Snap())
        decreases Unmarked(Snap()), Rank(Snap()), BlocksLeft(Snap()), Bytes(Entries())
      {
        if stop == After(i) {
          return More, i, trace;
        }
        MeasureBounded();
        ghost var before := Snap();
        r := MarkSome();
        if r != More {
          return;
        }
        TraceMore(old(Snap()), trace, before, Snap());
        trace := trace + [Snap()];
        i := i + 1;
      }
    }

    /** The loop of GC_collect_a_little_inner: up to last - first marking steps. */
    method MarkSteps(first: int, last: int) returns (r: Outcome, i: int, ghost trace: seq<Snapshot>)
      requires Valid() && state != MS_NONE
      modifies this`marks, this`stack, this`top, this`state, this`scanPtr, this`objectsAreMarked, this`stackTooSmall,
               this`rootsFresh, stack
      ensures stack == old(stack) || fresh(stack)
      ensures |heap.roots| <= ROOT_ROOM ==> r != Aborted
      ensures r != Aborted ==> Valid() && old(marks) <= marks
      ensures r == More ==> state != MS_NONE
      ensures r == Finished ==> state == MS_NONE && i < last
      ensures r == More ==>
                |trace| == 1 + (if first < last then last - first else 0) && MarkTrace(old(Snap()), trace, Snap())
      ensures r == More ==> if first >= last then Snap() == old(Snap()) && i == first
                            else i == last && Smaller(Snap(), old(Snap()))
    {
      hide HeapWF, BoundWF, Bounded, Consistent, Smaller, MarkStep, MarkTrace, FinishStep;
      i := first;
      r := More;
      ghost var s := Snap();
      trace := [s];
      NoTrace(s);
      while i < last
        invariant stack == old(stack) || fresh(stack)
        invariant Valid() && old(marks) <= marks && state != MS_NONE
        invariant |trace| == 1 + (i - first) && MarkTrace(s, trace, Snap())
        invariant r == More
        invariant if i == first then Snap() == s else first < i <= last && Smaller(Snap(), s)
      {
        ghost var before := Snap();
        r := MarkSome();
        if r != More {
          return;
        }
        SmallerTransitive(Snap(), before, s);
        TraceMore(s, trace, before, Snap());
        trace := trace + [Snap()];
        i := i + 1;
      }
    }

    lemma FinishedClosed()
      requires Valid() && state == MS_NONE && dirtyPages == {} && rootsFresh
      ensures ClosedBut(heap, marks, stale) && RootsIn(heap, marks)
      ensures forall o :: Reachable(heap, marks, o) && o !in marks <==> Missed(heap, marks, stale, o)
    {
      FinishedIsClosed(Snap());
      MissedExactly(heap, marks, stale);
    }

    // ---- Starting, abandoning and interrupting a collection

    /** GC_clear_marks. */
    method ClearMarks()
      requires Sane()
      modifies this`marks, this`objectsAreMarked, this`state, this`scanPtr, this`stale, this`bound
      ensures Valid() && Snap() == Cleared(old(Snap()))
      ensures top < 0 ==> bound == ReachableSet(heap, marks)
    {
      hide BoundWF, Consistent;
      ghost var s := Snap();
      UnmarkCollectable();
      forall o ensures o in marks <==> o in Uncollectable(s) {
        assert s.heap == heap && (o in s.marks ==> o in heap.objs);
      }
      assert marks == Uncollectable(s);
      objectsAreMarked := false;
      state := MS_INVALID;
      scanPtr := 0;
      stale := iset{};
      ClearedConsistent(s);
      if top < 0 {
        bound := ReachableSet(heap, marks);
        LeastBound(heap, marks);
      }
    }

    /** GC_apply_to_all_blocks(clear_marks_for_block). */
    method UnmarkCollectable()
      requires HeapWF(heap) && marks <= heap.objs.Keys
      modifies this`marks
      ensures forall o :: o in marks <==> o in old(marks) && heap.objs[o].uncollectable
    {
      ghost var m := marks;
      var i := 0;
      while i < |heap.blocks|
        invariant 0 <= i <= |heap.blocks|
        invariant marks <= m
        invariant forall o :: o in m ==>
                    (o in marks <==> heap.objs[o].uncollectable || heap.objs[o] !in heap.blocks[..i])
      {
        var b := heap.blocks[i];
        if !b.uncollectable {
          marks := marks - set o | o in Objs(b);
        }
        assert heap.blocks[..i + 1] == heap.blocks[..i] + [b];
        i := i + 1;
      }
      assert heap.blocks[..i] == heap.blocks;
      forall o | o in m ensures heap.objs[o] in heap.blocks {}
    }

    /** GC_invalidate_mark_state: flush the mark stack. */
    method InvalidateMarkState()
      requires Sane()
      modifies this`state, this`top
      ensures Sane() && top < 0 && state == MS_INVALID
    {
      hide HeapWF, BoundWF;
      state := MS_INVALID;
      top := -1;
    }

    /** GC_initiate_gc; the dirty bits are read even when their output is not needed. */
    method InitiateGc()
      requires Valid() && state in {MS_NONE, MS_INVALID}
      modifies this`grungyPages, this`dirtyPages, this`state, this`scanPtr
      ensures Valid() && Snap() == Initiated(old(Snap()))
    {
      hide HeapWF, BoundWF, Consistent;
      InitiatedConsistent(Snap());
      if state != MS_INVALID {
        grungyPages := dirtyPages;
      }
      dirtyPages := {};
      if state == MS_NONE {
        state := MS_PUSH_RESCUERS;
      }
      scanPtr := 0;
    }

    /** The world runs for a while between two marking steps: any number of mutator steps that end with this heap,
        these mark bits and these dirty pages. */
    method MutatorsRun(heap': Heap, marks': set<Obj>, dirty': set<int>, ghost stale': iset<int>,
                       ghost run: seq<Snapshot>)
      requires Valid()
      requires MutatorRun(run) && run[0] == Snap()
      requires run[|run| - 1] ==
                 Snap().(heap := heap', marks := marks', dirty := dirty', rootsFresh := false, stale := stale')
      modifies this`heap, this`marks, this`dirtyPages, this`rootsFresh, this`stale, this`bound
      ensures Valid() && Snap() == run[|run| - 1]
    {
      hide HeapWF, BoundWF, Bounded;
      MutatorRunKeeps(run);
      heap, marks, dirtyPages, rootsFresh, stale := heap', marks', dirty', false, stale';
      bound := heap.objs.Keys;
      assert Snap() == run[|run| - 1];
      WholeHeapBound(Snap());
    }
  }
}
