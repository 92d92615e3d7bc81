/** GC_finalize in its default mode: which objects are enqueued for finalization, what is marked for them, and which
    disappearing links are cleared and dropped (finalize.c). */
module Finalization {
  import opened MarkHeap
  import opened MarkSpec
  import opened Marking
  import opened Mutator
  import LinkTables

  type LinkTable<V> = LinkTables.LinkTable<V>

  /** The marking procedures for finalization ordering. */
  datatype MarkProc = Normal | IgnoreSelf | NullProc

  datatype Finalizer = Finalizer(fn: int, clientData: int, proc: MarkProc)

  /** The word w does not point into object o itself. */
  predicate Outside(h: Heap, o: Obj, w: int)
    requires o in h.objs
  {
    w < o || w >= o + h.objs[o].sz
  }

  /** The marking procedure of object o follows the word at position a. */
  predicate Follows(h: Heap, o: Obj, proc: MarkProc, a: int) {
    Slot(h, o, a) && (proc.Normal? || (proc.IgnoreSelf? && Outside(h, o, Load(h, a))))
  }

  /** Everything that the marking procedure of o refers to is in c. */
  ghost predicate HopsIn(h: Heap, o: Obj, proc: MarkProc, c: set<Obj>) {
    forall a :: Follows(h, o, proc, a) && HasTarget(h, a) ==> Target(h, a) in c
  }

  /** t is what the marking procedure of some finalizable object refers to. */
  ghost predicate Hop(h: Heap, fo: map<Obj, Finalizer>, t: Obj) {
    exists o, a :: o in fo && Follows(h, o, fo[o].proc, a) && HasTarget(h, a) && Target(h, a) == t
  }

  ghost function Hops(h: Heap, fo: map<Obj, Finalizer>): set<Obj> {
    set t | t in h.objs && Hop(h, fo, t)
  }

  lemma HopsInHops(h: Heap, fo: map<Obj, Finalizer>, o: Obj)
    requires HeapWF(h) && o in fo
    ensures HopsIn(h, o, fo[o].proc, Hops(h, fo))
  {
  }

  // ---- Stale words

  /** The heap as it is without the words at the given positions. */
  ghost function WithoutWords(h: Heap, stale: iset<int>): Heap {
    h.(mem := map a | a in h.mem && a !in stale :: h.mem[a])
  }

  lemma WithoutTargets(h: Heap, stale: iset<int>, a: int)
    requires 0 !in h.resolve
    ensures HasTarget(WithoutWords(h, stale), a) <==> HasTarget(h, a) && a !in stale
    ensures HasTarget(WithoutWords(h, stale), a) ==> Target(WithoutWords(h, stale), a) == Target(h, a)
  {
  }

  /** Whether the layout of a heap is sound does not depend on its memory. */
  lemma MemoryOnly(x: Heap, y: Heap)
    requires y == x.(mem := y.mem)
    ensures HeapWF(x) ==> HeapWF(y)
  {
    hide Objs, BlocksWF;
  }

  /** Marks that are closed but for stale words are closed in the heap without them. */
  lemma WithoutCloses(h: Heap, stale: iset<int>, c: set<Obj>)
    requires 0 !in h.resolve
    ensures Closed(WithoutWords(h, stale), c) <==> ClosedBut(h, c, stale)
    ensures RootsIn(h, c) ==> RootsIn(WithoutWords(h, stale), c)
    ensures HeapWF(h) ==> HeapWF(WithoutWords(h, stale))
    ensures stale == iset{} ==> WithoutWords(h, stale) == h
  {
    var x := WithoutWords(h, stale);
    forall a
      ensures HasTarget(x, a) <==> HasTarget(h, a) && a !in stale
      ensures HasTarget(x, a) ==> Target(x, a) == Target(h, a)
    {
      WithoutTargets(h, stale, a);
    }
    MemoryOnly(h, x);
    assert stale == iset{} ==> x.mem == h.mem;
    hide HasTarget, Target, HeapWF, WithoutWords;
    assert forall o, a :: Slot(x, o, a) == Slot(h, o, a);
    assert forall a :: RootSlot(x, a) == RootSlot(h, a);
  }

  /** What a marking procedure refers to without regard to stale words is less. */
  lemma FewerHops(h: Heap, stale: iset<int>, o: Obj, proc: MarkProc, c: set<Obj>)
    requires 0 !in h.resolve && HopsIn(h, o, proc, c)
    ensures HopsIn(WithoutWords(h, stale), o, proc, c)
  {
    var x := WithoutWords(h, stale);
    forall a | Follows(x, o, proc, a) && HasTarget(x, a)
      ensures Target(x, a) in c
    {
      WithoutTargets(h, stale, a);
      assert Follows(h, o, proc, a);
    }
  }

  // ---- Clearing links

  /** Position p is not in c, but its word overlaps the word at a position in c. */
  ghost predicate NextTo(c: set<int>, p: int) {
    p !in c && exists a :: a in c && Overlaps(p, a)
  }

  /** What becomes of the word at p when the words at the positions in c are set to NULL: the words that overlap them
      change as well. */
  ghost predicate ClearedWord(x: Heap, y: Heap, c: set<int>, p: int) {
    if p in c then Load(y, p) == 0
    else if NextTo(c, p) then Load(x, p) == 0 ==> Load(y, p) == 0
    else Load(y, p) == Load(x, p)
  }

  /** y is x after the words at the positions in c have been set to NULL. */
  ghost predicate ClearedAt(x: Heap, y: Heap, c: set<int>) {
    && y == x.(mem := y.mem)
    && forall p: int :: ClearedWord(x, y, c, p)
  }

  /** Nothing marks what the words next to cleared ones happen to name now. */
  ghost function Disturbed(c: set<int>): iset<int> { iset p | NextTo(c, p) }

  /** y is x with some locations cleared. */
  ghost predicate ClearedFrom(x: Heap, y: Heap) {
    && y == x.(mem := y.mem)
    && forall a :: Load(y, a) == Load(x, a) || Load(y, a) == 0
  }

  lemma ClearedTargets(x: Heap, y: Heap, a: int)
    requires ClearedFrom(x, y) && 0 !in x.resolve
    ensures HasTarget(y, a) ==> HasTarget(x, a) && Target(x, a) == Target(y, a)
  {
  }

  /** Clearing locations leaves a closed set closed. */
  lemma ClearKeeps(x: Heap, y: Heap, c: set<Obj>)
    requires ClearedFrom(x, y) && 0 !in x.resolve
    ensures Closed(x, c) ==> Closed(y, c)
    ensures RootsIn(x, c) ==> RootsIn(y, c)
  {
    forall a
      ensures HasTarget(y, a) ==> HasTarget(x, a) && Target(x, a) == Target(y, a)
    {
      ClearedTargets(x, y, a);
    }
    hide HasTarget, Target;
    assert forall o, a :: Slot(y, o, a) == Slot(x, o, a);
    assert forall a :: RootSlot(y, a) == RootSlot(x, a);
  }

  /** Up to stale words, of which there are more now, setting links to NULL only clears. */
  lemma ClearedWithout(x: Heap, y: Heap, cleared: set<int>, stale: iset<int>)
    requires ClearedAt(x, y, cleared)
    ensures ClearedFrom(WithoutWords(x, stale), WithoutWords(y, stale + Disturbed(cleared)))
  {
    forall p: int
      ensures var w, v := Load(WithoutWords(x, stale), p),
              Load(WithoutWords(y, stale + Disturbed(cleared)), p); v == w || v == 0
    {
      assert ClearedWord(x, y, cleared, p);
    }
  }

  lemma ClearedStillClosed(x: Heap, y: Heap, cleared: set<int>, stale: iset<int>, c: set<Obj>)
    requires ClearedAt(x, y, cleared) && 0 !in x.resolve
    ensures y.objs == x.objs && 0 !in y.resolve
    ensures Closed(WithoutWords(x, stale), c) ==> Closed(WithoutWords(y, stale + Disturbed(cleared)), c)
    ensures RootsIn(WithoutWords(x, stale), c) ==> RootsIn(WithoutWords(y, stale + Disturbed(cleared)), c)
  {
    ClearedWithout(x, y, cleared, stale);
    ClearKeeps(WithoutWords(x, stale), WithoutWords(y, stale + Disturbed(cleared)), c);
  }

  lemma ClearedWellFormed(x: Heap, y: Heap, c: set<int>)
    requires ClearedAt(x, y, c) && HeapWF(x)
    ensures HeapWF(y) && y.objs == x.objs && y.resolve == x.resolve
  {
    MemoryOnly(x, y);
  }

  /** Setting links to NULL in two goes is setting all of them; words next to one another are no exception. */
  lemma ClearedTwice(x: Heap, y: Heap, z: Heap, c: set<int>, d: set<int>)
    requires ClearedAt(x, y, c) && ClearedAt(y, z, d)
    ensures ClearedAt(x, z, c + d)
  {
    forall p: int
      ensures ClearedWord(x, z, c + d, p)
    {
      assert ClearedWord(x, y, c, p) && ClearedWord(y, z, d, p);
    }
  }

  lemma NothingCleared(h: Heap)
    ensures ClearedAt(h, h, {})
  {
  }

  // ---- What the marking for finalization reaches

  /** All that is marked once every finalizable object has had its marking procedure run, starting from marks. */
  ghost function FinMarks(h: Heap, marks: set<Obj>, fo: map<Obj, Finalizer>): set<Obj> {
    ReachableSet(h, marks + Hops(h, fo))
  }

  lemma FinMarksBound(h: Heap, marks: set<Obj>, fo: map<Obj, Finalizer>)
    requires HeapWF(h) && marks <= h.objs.Keys
    ensures BoundWF(h, FinMarks(h, marks, fo)) && marks + Hops(h, fo) <= FinMarks(h, marks, fo) <= h.objs.Keys
  {
    ReachableSetClosed(h, marks + Hops(h, fo));
  }

  /** A closed set that holds the marks and what the procedures refer to holds FinMarks. */
  lemma FinMarksLeast(h: Heap, marks: set<Obj>, fo: map<Obj, Finalizer>, c: set<Obj>)
    requires HeapWF(h) && Closed(h, c) && RootsIn(h, c) && marks <= c
    requires forall o :: o in fo ==> HopsIn(h, o, fo[o].proc, c)
    ensures FinMarks(h, marks, fo) <= c
  {
    forall t | t in Hops(h, fo)
      ensures t in c
    {
      var o, a :| o in fo && Follows(h, o, fo[o].proc, a) && HasTarget(h, a) && Target(h, a) == t;
      assert HopsIn(h, o, fo[o].proc, c);
    }
    ReachableInClosed(h, marks + Hops(h, fo), c);
  }

  /** A chain of pointers from p to o. */
  ghost predicate PointerChain(h: Heap, path: seq<Obj>, p: Obj, o: Obj) {
    && |path| >= 2 && path[0] == p && path[|path| - 1] == o
    && forall i :: 0 <= i < |path| - 1 ==> PointsTo(h, path[i], path[i + 1])
  }

  /** An object at the end of a chain of one or more pointers from a finalizable object that is marked through normally
      is marked, so it is not enqueued; in particular no such object on a cycle is. */
  lemma NoChainToEnqueued(h: Heap, marks: set<Obj>, fo: map<Obj, Finalizer>, p: Obj, path: seq<Obj>, o: Obj)
    requires HeapWF(h) && marks <= h.objs.Keys && p in fo && fo[p].proc.Normal? && PointerChain(h, path, p, o)
    ensures o in FinMarks(h, marks, fo)
  {
    var base := marks + Hops(h, fo);
    assert PointsTo(h, path[0], path[0 + 1]);
    var a :| Slot(h, p, a) && HasTarget(h, a) && Target(h, a) == path[1];
    assert Follows(h, p, fo[p].proc, a);
    assert Hop(h, fo, path[1]);
    var tail := path[1..];
    forall i | 0 <= i < |tail| - 1
      ensures PointsTo(h, tail[i], tail[i + 1])
    {
      assert PointsTo(h, path[i + 1], path[i + 1 + 1]);
    }
    assert PathTo(h, base, tail, o);
    ReachableIsObject(h, marks, fo, tail, o);
  }

  lemma ReachableIsObject(h: Heap, marks: set<Obj>, fo: map<Obj, Finalizer>, path: seq<Obj>, o: Obj)
    requires HeapWF(h) && marks <= h.objs.Keys && PathTo(h, marks + Hops(h, fo), path, o)
    ensures o in FinMarks(h, marks, fo)
  {
    FinMarksBound(h, marks, fo);
    ReachableInClosed(h, marks + Hops(h, fo), FinMarks(h, marks, fo));
    assert Reachable(h, marks + Hops(h, fo), o);
  }

  /** If every enqueued object is one that is marked through normally, everything reachable from them is marked. */
  lemma NormalEnqueuedClosed(h: Heap, c: set<Obj>, fo: map<Obj, Finalizer>, enqueued: set<Obj>)
    requires HeapWF(h) && Closed(h, c) && Hops(h, fo) <= c && AllNormal(fo, enqueued)
    ensures Closed(h, c + enqueued)
  {
    forall o, a | o in enqueued && Slot(h, o, a) && HasTarget(h, a)
      ensures Target(h, a) in c
    {
      HopsInHops(h, fo, o);
      assert Follows(h, o, fo[o].proc, a);
    }
  }

  /** No object enqueued is at the end of a chain of pointers from an entry that is marked through normally. */
  ghost predicate InOrder(h: Heap, fo: map<Obj, Finalizer>, enqueued: set<Obj>) {
    forall p, path, o :: p in fo && fo[p].proc.Normal? && o in enqueued ==> !PointerChain(h, path, p, o)
  }

  /** What GC_finalize enqueues is in order, and closed together with the marks if only normal entries are enqueued:
      the first pass has marked c, which holds all it has to. */
  lemma EnqueuedInOrder(h: Heap, m0: set<Obj>, fo: map<Obj, Finalizer>, c: set<Obj>, enqueued: set<Obj>)
    requires HeapWF(h) && m0 <= h.objs.Keys && enqueued == StillUnmarked(fo, c)
    requires Closed(h, c) && FinMarks(h, m0, fo) <= c
    ensures InOrder(h, fo, enqueued)
    ensures AllNormal(fo, enqueued) ==> Closed(h, c + enqueued)
  {
    forall p, path, o | p in fo && fo[p].proc.Normal? && o in enqueued
      ensures !PointerChain(h, path, p, o)
    {
      if PointerChain(h, path, p, o) {
        NoChainToEnqueued(h, m0, fo, p, path, o);
      }
    }
    FinMarksBound(h, m0, fo);
    if AllNormal(fo, enqueued) {
      NormalEnqueuedClosed(h, c, fo, enqueued);
    }
  }

  /** The entries of the enqueued objects all have the normal mark procedure. */
  ghost predicate AllNormal(fo: map<Obj, Finalizer>, enqueued: set<Obj>) {
    forall o :: o in enqueued ==> o in fo && fo[o].proc.Normal?
  }

  /** What the first pass of GC_finalize may have marked when it began with marks m0 that are closed but for stale
      words: everything that it reaches without them, and nothing that it does not reach with them. */
  ghost predicate PassMarks(h: Heap, stale: iset<int>, m0: set<Obj>, fo: map<Obj, Finalizer>, c: set<Obj>) {
    && FinMarks(WithoutWords(h, stale), m0, fo) <= c <= FinMarks(h, m0, fo)
    && Closed(WithoutWords(h, stale), c) && RootsIn(WithoutWords(h, stale), c)
  }

  /** With no stale words that leaves one set. */
  lemma PassMarksExact(h: Heap, m0: set<Obj>, fo: map<Obj, Finalizer>, c: set<Obj>)
    requires HeapWF(h) && m0 <= h.objs.Keys && 0 !in h.resolve
    ensures PassMarks(h, iset{}, m0, fo, c) <==> c == FinMarks(h, m0, fo)
  {
    WithoutCloses(h, iset{}, c);
    ReachableSetClosed(h, m0 + Hops(h, fo));
  }

  // ---- GC_mark_fo

  /** Marking from m0 to m1 with nothing left on the stack: the newly marked objects refer to marked ones only. */
  lemma DrainedCloses(h: Heap, stale: iset<int>, es: seq<Mse>, m0: set<Obj>, m1: set<Obj>)
    requires Kept(h, es, m0, [], m1) && 0 !in h.resolve
    ensures forall a :: CoveredBy(es, a) ==> !Open(h, m1, a)
    ensures Closed(WithoutWords(h, stale), m0) ==> Closed(WithoutWords(h, stale), m1)
  {
    WithoutCloses(h, stale, m0);
    WithoutCloses(h, stale, m1);
  }

  /** MARK_FROM_MARK_STACK until the stack is empty. Unless it overflows, a position of a newly marked object is
      examined exactly once, and any other as often as it was pending. */
  method Drain(m: Marker) returns (ghost seen: multiset<int>)
    requires m.Sane()
    modifies m`marks, m`top, m`state, m`stackTooSmall, m`objectsAreMarked, m.stack
    ensures m.Sane() && m.top == -1 && old(m.marks) <= m.marks
    ensures m.state == old(m.state) || m.state == MS_INVALID
    ensures old(m.Roomy()) ==> m.state == old(m.state)
    ensures m.state != MS_INVALID ==> Kept(m.heap, old(m.Entries()), old(m.marks), [], m.marks)
    ensures m.state != MS_INVALID ==>
              forall a :: seen[a] == Times(old(m.Entries()), a) + |Holders(m.heap, m.marks - old(m.marks), a)| <=
                                     Times(old(m.Entries()), a) + 1
  {
    hide HeapWF, BoundWF, Bounded, Kept, Closed, Balanced;
    ghost var es0, m0, h := m.Entries(), m.marks, m.heap;
    KeptReflexive(h, es0, m0);
    BalancedReflexive(h, es0, m0);
    seen := multiset{};
    while m.top >= 0
      invariant m.Sane() && m0 <= m.marks && (m.state == old(m.state) || m.state == MS_INVALID)
      invariant old(m.Roomy()) ==> m.Roomy() && m.state == old(m.state)
      invariant m.state != MS_INVALID ==> Kept(h, es0, m0, m.Entries(), m.marks)
      invariant m.state != MS_INVALID ==> Balanced(h, es0, m0, seen, m.Entries(), m.marks)
      decreases |m.heap.objs.Keys - m.marks|, Bytes(m.Entries())
    {
      ghost var es, marks := m.Entries(), m.marks;
      BytesNonNegative(es);
      ghost var more := m.MarkFrom();
      MoreMarksFewerUnmarked(h.objs.Keys, marks, m.marks);
      if m.state != MS_INVALID {
        KeptTransitive(h, es0, m0, es, marks, m.Entries(), m.marks);
        BalancedTransitive(h, es0, m0, seen, es, marks, more, m.Entries(), m.marks);
      }
      seen := seen + more;
    }
    assert m.Entries() == [];
    if m.state != MS_INVALID {
      AllExaminedOnce(h, es0, m0, seen, m.marks);
    }
  }

  /** GC_ignore_self_finalize_mark_proc: pushes what the object refers to outside itself. */
  method PushOutside(m: Marker, o: Obj)
    requires m.Sane() && o in m.heap.objs && HopsIn(m.heap, o, IgnoreSelf, m.bound)
    modifies m`marks, m`top, m`state, m`stackTooSmall, m.stack
    ensures m.Sane() && old(m.marks) <= m.marks && (m.state == old(m.state) || m.state == MS_INVALID)
    ensures old(m.Roomy()) ==> m.Roomy() && m.state == old(m.state)
    ensures m.state != MS_INVALID ==> Kept(m.heap, old(m.Entries()), old(m.marks), m.Entries(), m.marks)
    ensures HopsIn(m.heap, o, IgnoreSelf, m.marks)
  {
    hide HeapWF, BoundWF, Bounded, Kept;
    ghost var es0, m0, h := m.Entries(), m.marks, m.heap;
    KeptReflexive(h, es0, m0);
    var p, scanLimit := o, o + m.heap.objs[o].descr - WORD;
    while p <= scanLimit
      invariant old(m.Roomy()) ==> m.Roomy() && m.state == old(m.state)
      invariant o <= p && m.Sane() && m0 <= m.marks && (m.state == old(m.state) || m.state == MS_INVALID)
      invariant m.state != MS_INVALID ==> Kept(h, es0, m0, m.Entries(), m.marks)
      invariant forall a :: a < p && Follows(h, o, IgnoreSelf, a) ==> !Open(h, m.marks, a)
    {
      if Outside(m.heap, o, Load(m.heap, p)) {
        ghost var es, marks := m.Entries(), m.marks;
        assert Follows(h, o, IgnoreSelf, p);
        m.ExamineSlot(p);
        if m.state != MS_INVALID {
          KeptTransitive(h, es0, m0, es, marks, m.Entries(), m.marks);
        }
      }
      p := p + 1;
    }
  }

  /** The mark stack has room for all unmarked objects and one more. */
  ghost predicate AllFit(m: Marker)
    reads m`heap, m`marks, m`stack
  {
    |m.heap.objs.Keys - m.marks| < m.stack.Length
  }

  /** GC_mark_fo. Unless the mark stack overflows, everything reachable by one or more pointers, the first of which the
      marking procedure follows, ends up marked; whether o itself does depends on the chains. */
  method MarkFo(m: Marker, o: Obj, proc: MarkProc)
    requires m.Sane() && m.top == -1 && o in m.heap.objs && HopsIn(m.heap, o, proc, m.bound) && 0 !in m.heap.resolve
    modifies m`marks, m`top, m`state, m`stackTooSmall, m`objectsAreMarked, m.stack
    ensures m.Sane() && m.top == -1 && old(m.marks) <= m.marks && (m.state == old(m.state) || m.state == MS_INVALID)
    ensures old(AllFit(m)) ==> AllFit(m) && m.state == old(m.state)
    ensures m.state != MS_INVALID ==> HopsIn(m.heap, o, proc, m.marks)
    ensures m.state != MS_INVALID && Closed(WithoutWords(m.heap, m.stale), old(m.marks)) ==>
              Closed(WithoutWords(m.heap, m.stale), m.marks)
  {
    hide HeapWF, BoundWF, Bounded, Kept, Closed, HopsIn, WithoutWords;
    ghost var m0, h, stale := m.marks, m.heap, m.stale;
    assert m.Entries() == [];
    match proc {
      case Normal =>
        NormalBounded(h, o, m.bound);
        m.PushObj(o);
        ghost var es := m.Entries();
        NormalPushed(h, o, es);
        ghost var seen := Drain(m);
        if m.state != MS_INVALID {
          DrainedCloses(h, stale, es, m0, m.marks);
          NormalFollowed(h, o, es, m.marks);
        }
      case IgnoreSelf =>
        PushOutside(m, o);
        ghost var es, m1 := m.Entries(), m.marks;
        ghost var seen := Drain(m);
        MoreHops(h, o, proc, m1, m.marks);
        if m.state != MS_INVALID {
          KeptTransitive(h, [], m0, es, m1, [], m.marks);
          DrainedCloses(h, stale, [], m0, m.marks);
        }
      case NullProc =>
        ghost var seen := Drain(m);
        if m.state != MS_INVALID {
          DrainedCloses(h, stale, [], m0, m.marks);
        }
        NullHops(h, o, m.marks);
    }
    MoreMarksFewerUnmarked(h.objs.Keys, m0, m.marks);
  }

  lemma NullHops(h: Heap, o: Obj, c: set<Obj>)
    ensures HopsIn(h, o, NullProc, c)
  {
  }

  lemma MoreHops(h: Heap, o: Obj, proc: MarkProc, c: set<Obj>, d: set<Obj>)
    requires HopsIn(h, o, proc, c) && c <= d
    ensures HopsIn(h, o, proc, d)
  {
  }

  lemma NormalBounded(h: Heap, o: Obj, bound: set<Obj>)
    requires o in h.objs && HopsIn(h, o, Normal, bound)
    ensures Bounded(h, [Mse(o, h.objs[o].descr)], bound)
  {
  }

  /** What GC_push_obj leaves on the empty stack covers the object. */
  lemma NormalPushed(h: Heap, o: Obj, es: seq<Mse>)
    requires o in h.objs
    requires es == if h.objs[o].descr == 0 then [] else [Mse(o, h.objs[o].descr)]
    ensures forall a :: Slot(h, o, a) ==> CoveredBy(es, a)
  {
    forall a | Slot(h, o, a)
      ensures CoveredBy(es, a)
    {
      CoveredByOne(Mse(o, h.objs[o].descr), a);
    }
  }

  lemma NormalFollowed(h: Heap, o: Obj, es: seq<Mse>, marks: set<Obj>)
    requires o in h.objs && (forall a :: Slot(h, o, a) ==> CoveredBy(es, a))
    requires forall a :: CoveredBy(es, a) ==> !Open(h, marks, a)
    ensures HopsIn(h, o, Normal, marks)
  {
  }

  // ---- The tables

  /** Location a lies in object o: GC_base returns o for it. */
  predicate Holds(objs: map<Obj, Block>, o: Obj, a: int) { o in objs && o <= a < o + objs[o].sz }

  /** Location a lies outside the heap, or in a marked object. */
  predicate LocationMarked(objs: map<Obj, Block>, marks: set<Obj>, a: int) {
    forall o :: o in objs && Holds(objs, o, a) ==> o in marks
  }

  /** There is at most one object to look at. */
  lemma LocationInOneObject(h: Heap, marks: set<Obj>, o: Obj, a: int)
    requires HeapWF(h) && Holds(h.objs, o, a)
    ensures forall o' :: Holds(h.objs, o', a) ==> o' == o
    ensures LocationMarked(h.objs, marks, a) <==> o in marks
  {
    forall o' | Holds(h.objs, o', a) && o' != o
      ensures false
    {
      ObjectsDisjoint(h, o, o');
    }
  }

  /** The links to marked objects. */
  ghost function ToMarked(links: map<int, Obj>, marks: set<Obj>): map<int, Obj> {
    map a: int | a in links && links[a] in marks :: links[a]
  }

  /** The links at locations that still exist. */
  ghost function AtMarked(links: map<int, Obj>, objs: map<Obj, Block>, marks: set<Obj>): map<int, Obj> {
    map a: int | a in links && LocationMarked(objs, marks, a) :: links[a]
  }

  /** The locations that are cleared because their link's object is not marked. */
  ghost function ToUnmarked(links: map<int, Obj>, marks: set<Obj>): set<int> {
    set a: int | a in links && links[a] !in marks
  }

  ghost function KeysOf<V>(es: seq<(int, V)>): set<int> { set j | 0 <= j < |es| :: es[j].0 }

  lemma SweptUnmarked(links: map<int, Obj>, left: map<int, Obj>, es: seq<(int, Obj)>, marks: set<Obj>,
                      gone: (int, Obj) -> bool)
    requires LinkTables.Swept(links, left, es, gone) && (forall a: int, o: Obj :: gone(a, o) <==> o !in marks)
    requires forall a: int :: a in left ==> !gone(a, left[a])
    ensures left == ToMarked(links, marks) && KeysOf(es) == ToUnmarked(links, marks)
  {
    forall a: int
      ensures a in left <==> a in links && links[a] in marks
      ensures a in left ==> left[a] == links[a]
      ensures a in KeysOf(es) <==> a in links && links[a] !in marks
    {
      SweptAt(links, left, es, gone, a);
      if a in links {
        var o: Obj := links[a];
        assert gone(a, o) <==> o !in marks;
      }
    }
    LinkTables.SameMap(left, ToMarked(links, marks));
  }

  lemma SweptAt<V>(m: map<int, V>, left: map<int, V>, es: seq<(int, V)>, gone: (int, V) -> bool, a: int)
    requires LinkTables.Swept(m, left, es, gone) && (forall k: int :: k in left ==> !gone(k, left[k]))
    ensures a in left ==> a in m && left[a] == m[a] && !gone(a, m[a]) && a !in KeysOf(es)
    ensures a in KeysOf(es) ==> a in m && gone(a, m[a])
    ensures a in m ==> a in left || a in KeysOf(es)
  {
  }

  lemma SweptDangling(links: map<int, Obj>, left: map<int, Obj>, es: seq<(int, Obj)>, objs: map<Obj, Block>,
                      marks: set<Obj>, gone: (int, Obj) -> bool)
    requires LinkTables.Swept(links, left, es, gone)
    requires forall a: int, o: Obj :: gone(a, o) <==> !LocationMarked(objs, marks, a)
    requires forall a: int :: a in left ==> !gone(a, left[a])
    ensures left == AtMarked(links, objs, marks)
  {
    forall a: int
      ensures a in left <==> a in links && LocationMarked(objs, marks, a)
      ensures a in left ==> left[a] == links[a]
    {
      SweptAt(links, left, es, gone, a);
      if a in links {
        var o: Obj := links[a];
        assert gone(a, o) <==> !LocationMarked(objs, marks, a);
      }
    }
    var kept := AtMarked(links, objs, marks);
    assert forall a: int :: a in kept <==> a in left;
    assert kept.Keys == left.Keys;
    forall a | a in left.Keys
      ensures left[a] == kept[a]
    {
    }
    LinkTables.SameMap(left, AtMarked(links, objs, marks));
  }

  lemma KeysOfMore<V>(es: seq<(int, V)>, n: nat)
    requires n < |es|
    ensures KeysOf(es[..n + 1]) == KeysOf(es[..n]) + {es[n].0}
  {
  }

  /** es in reverse order: entries are put in front of the queue one by one. */
  function Reversed<T>(es: seq<T>): seq<T> {
    if es == [] then [] else Reversed(es[1..]) + [es[0]]
  }

  lemma {:induction false} ReversedMore<T>(es: seq<T>, x: T)
    ensures Reversed(es + [x]) == [x] + Reversed(es)
  {
    if es == [] {
      assert es + [x] == [x];
    } else {
      assert (es + [x])[1..] == es[1..] + [x];
      ReversedMore(es[1..], x);
    }
  }

  lemma WholeBound(h: Heap)
    requires HeapWF(h)
    ensures BoundWF(h, h.objs.Keys)
  {
  }

  /** The finalizable objects that are enqueued are those that are not marked. */
  ghost function StillUnmarked<V>(fo: map<Obj, V>, marks: set<Obj>): set<Obj> { fo.Keys - marks }

  lemma SweptFinalizable(fo: map<Obj, Finalizer>, left: map<Obj, Finalizer>, es: seq<(Obj, Finalizer)>, marks: set<Obj>,
                         gone: (Obj, Finalizer) -> bool)
    requires LinkTables.Swept(fo, left, es, gone) && (forall o: Obj, f: Finalizer :: gone(o, f) <==> o !in marks)
    requires forall o: Obj :: o in left ==> !gone(o, left[o])
    ensures KeysOf(es) == StillUnmarked(fo, marks) && left == fo - StillUnmarked(fo, marks) &&
            LinkTables.EntriesOf(es, fo)
  {
    forall o: Obj
      ensures o in left <==> o in fo && o in marks
      ensures o in left ==> left[o] == fo[o]
      ensures o in KeysOf(es) <==> o in fo && o !in marks
    {
      SweptAt(fo, left, es, gone, o);
      if o in fo {
        var f: Finalizer := fo[o];
        assert gone(o, f) <==> o !in marks;
      }
    }
    var kept := fo - StillUnmarked(fo, marks);
    assert forall o: Obj :: o in kept <==> o in left;
    assert kept.Keys == left.Keys;
    forall o | o in left.Keys
      ensures left[o] == kept[o]
    {
    }
    LinkTables.SameMap(left, kept);
  }

  class Finalizers {
    const m: Marker
    const dl: LinkTable<Obj>        // GC_dl_hashtbl: short links
    const ll: LinkTable<Obj>        // GC_ll_hashtbl: long links
    const fo: LinkTable<Finalizer>  // GC_fnlz_roots.fo_head
    var finalizeNow: seq<(Obj, Finalizer)>

    constructor (m: Marker)
      ensures this.m == m && fresh(dl) && fresh(ll) && fresh(fo) && dl.Valid() && ll.Valid() && fo.Valid()
      ensures dl.Map() == map[] && ll.Map() == map[] && fo.Map() == map[] && finalizeNow == [] && dl != ll
    {
      this.m := m;
      dl := new LinkTables.LinkTable<Obj>();
      ll := new LinkTables.LinkTable<Obj>();
      fo := new LinkTables.LinkTable<Finalizer>();
      finalizeNow := [];
    }

    ghost predicate Ready()
      reads m, m.stack
    {
      m.Sane() && m.top == -1 && 0 !in m.heap.resolve
    }

    ghost predicate Valid()
      reads m, m.stack, dl, ll, fo
    {
      && Ready() && dl != ll && dl.Valid() && ll.Valid() && fo.Valid()
      && (forall o :: o in fo.Map() ==> o in m.heap.objs)
    }

    /** A store of NULL at position a. Where a word takes two steps it changes half of the words on either side. */
    method StoreNull(a: int)
      modifies m`heap
      ensures ClearedAt(old(m.heap), m.heap, {a})
    {
      var mem := m.heap.mem[a := 0];
      if WORD == 2 {
        var below: int, above: int := *, *;
        mem := mem[a - 1 := if Load(m.heap, a - 1) == 0 then 0 else below]
                  [a + 1 := if Load(m.heap, a + 1) == 0 then 0 else above];
      }
      ghost var x := m.heap;
      m.heap := m.heap.(mem := mem);
      forall p: int
        ensures ClearedWord(x, m.heap, {a}, p)
      {
        assert Overlaps(p, a) ==> NextTo({a}, p) || p == a;
      }
    }

    /** Sets the locations of the links in es to NULL. */
    method ClearLocations(es: seq<(int, Obj)>)
      requires Ready()
      modifies m`heap, m`bound, m`stale
      ensures Ready() && ClearedAt(old(m.heap), m.heap, KeysOf(es))
      ensures m.stale == old(m.stale) + Disturbed(KeysOf(es))
    {
      hide HeapWF, Closed, RootsIn, ClearedAt;
      var n := 0;
      ghost var h := m.heap;
      NothingCleared(h);
      assert KeysOf(es[..0]) == {};
      while n < |es|
        invariant n <= |es| && ClearedAt(h, m.heap, KeysOf(es[..n])) && m.stale == old(m.stale)
      {
        KeysOfMore(es, n);
        ghost var x := m.heap;
        StoreNull(es[n].0);
        ClearedTwice(h, x, m.heap, KeysOf(es[..n]), {es[n].0});
        n := n + 1;
      }
      assert es[..n] == es;
      ClearedWellFormed(h, m.heap, KeysOf(es));
      WholeBound(m.heap);
      assert m.Entries() == [];
      m.bound, m.stale := m.heap.objs.Keys, m.stale + Disturbed(KeysOf(es));
    }

    /** GC_make_disappearing_links_disappear(table, FALSE). */
    method DropDead(t: LinkTable<Obj>)
      requires Ready() && t.Valid()
      modifies m`heap, m`bound, m`stale, t
      ensures Ready() && t.Valid()
      ensures t.Map() == ToMarked(old(t.Map()), m.marks)
      ensures ClearedAt(old(m.heap), m.heap, ToUnmarked(old(t.Map()), m.marks))
      ensures m.stale == old(m.stale) + Disturbed(ToUnmarked(old(t.Map()), m.marks))
    {
      var marks := m.marks;
      var gone := (a: int, o: Obj) => o !in marks;
      ghost var links := t.Map();
      var es := t.Sweep(gone);
      SweptUnmarked(links, t.Map(), es, marks, gone);
      ClearLocations(es);
    }

    /** GC_make_disappearing_links_disappear(table, TRUE). */
    method DropDangling(t: LinkTable<Obj>)
      requires t.Valid()
      modifies t
      ensures t.Valid() && t.Map() == AtMarked(old(t.Map()), m.heap.objs, m.marks)
    {
      var marks, where := m.marks, m.heap.objs;
      var gone := (a: int, o: Obj) => !LocationMarked(where, marks, a);
      ghost var links := t.Map();
      var es := t.Sweep(gone);
      SweptDangling(links, t.Map(), es, where, marks, gone);
    }

    /** The first pass of GC_finalize: runs the marking procedure of every finalizable object that is not marked. */
    method MarkFinalizable()
      requires Valid() && m.state == MS_NONE
      requires Closed(WithoutWords(m.heap, m.stale), m.marks) && RootsIn(WithoutWords(m.heap, m.stale), m.marks)
      modifies m`marks, m`top, m`state, m`stackTooSmall, m`objectsAreMarked, m`bound, m.stack
      ensures Valid() && m.state in {MS_NONE, MS_INVALID} && old(m.marks) <= m.marks
      ensures old(AllFit(m)) ==> m.state == MS_NONE
      ensures m.state == MS_NONE ==> PassMarks(m.heap, m.stale, old(m.marks), fo.Map(), m.marks)
    {
      hide *;
      ghost var marks0, h, x := m.marks, m.heap, WithoutWords(m.heap, m.stale);
      ghost var all := RaiseBound();
      var es := FinalizableObjects();
      NoHopsYet(x, es);
      var n := 0;
      while n < |es|
        invariant n <= |es| && Valid() && m.bound == FinMarks(h, marks0, all) && marks0 <= m.marks
        invariant m.state == MS_NONE || m.state == MS_INVALID
        invariant old(AllFit(m)) ==> AllFit(m) && m.state == MS_NONE
        invariant m.state == MS_NONE ==> Closed(x, m.marks) && AllHopsIn(x, es[..n], m.marks)
      {
        InTable(all, es, n);
        ghost var marks := m.marks;
        MarkOne(es[n].0, es[n].1, marks0, all);
        OneMoreHops(x, es, n, marks, m.marks);
        n := n + 1;
      }
      if m.state == MS_NONE {
        assert es[..n] == es;
        MarksWithin();
        PassDone(h, m.stale, marks0, all, es, m.marks);
      }
    }

    method FinalizableObjects() returns (es: seq<(Obj, Finalizer)>)
      requires Valid()
      ensures LinkTables.EntriesOf(es, fo.Map()) && forall k: int :: k in fo.Map() ==> LinkTables.InList(k, es)
    {
      es := fo.List();
    }

    lemma NoHopsYet(h: Heap, es: seq<(Obj, Finalizer)>)
      ensures AllHopsIn(h, es[..0], m.marks)
    {
    }

    lemma MarksWithin()
      requires Valid()
      ensures HeapWF(m.heap) && m.marks <= m.bound && 0 !in m.heap.resolve
    {
    }

    lemma InTable(all: map<Obj, Finalizer>, es: seq<(Obj, Finalizer)>, n: nat)
      requires Valid() && all == fo.Map() && LinkTables.EntriesOf(es, all) && n < |es|
      ensures es[n].0 in all && all[es[n].0] == es[n].1 && es[n].0 in m.heap.objs
    {
      var o: Obj := es[n].0;
      assert o in fo.Map();
    }

    /** Runs the marking procedure of one finalizable object, unless it is marked. */
    method MarkOne(o: Obj, f: Finalizer, ghost marks0: set<Obj>, ghost all: map<Obj, Finalizer>)
      requires Valid() && o in all && all[o] == f && o in m.heap.objs && marks0 <= m.marks
      requires m.bound == FinMarks(m.heap, marks0, all) && (m.state == MS_NONE || m.state == MS_INVALID)
      modifies m`marks, m`top, m`state, m`stackTooSmall, m`objectsAreMarked, m.stack
      ensures Valid() && old(m.marks) <= m.marks && (m.state == old(m.state) || m.state == MS_INVALID)
      ensures old(AllFit(m)) ==> AllFit(m) && m.state == old(m.state)
      ensures m.state == MS_NONE && Closed(WithoutWords(m.heap, m.stale), old(m.marks)) ==>
                Closed(WithoutWords(m.heap, m.stale), m.marks) &&
                    HopsIn(WithoutWords(m.heap, m.stale), o, f.proc, m.marks)
    {
      hide HeapWF, BoundWF, Closed, RootsIn, HopsIn, FinMarks, WithoutWords;
      HopsBound(m.heap, marks0, all, o);
      if o !in m.marks {
        MarkFo(m, o, f.proc);
        if m.state == MS_NONE {
          FewerHops(m.heap, m.stale, o, f.proc, m.marks);
        }
      } else if Closed(WithoutWords(m.heap, m.stale), m.marks) {
        MarkedHops(WithoutWords(m.heap, m.stale), o, f.proc, m.marks);
      }
    }

    /** For the first pass, nothing outside FinMarks may get marked. */
    ghost method RaiseBound() returns (all: map<Obj, Finalizer>)
      requires Valid()
      modifies m`bound
      ensures Valid() && all == fo.Map() && m.bound == FinMarks(m.heap, m.marks, all)
    {
      all := fo.Map();
      FinMarksBound(m.heap, m.marks, all);
      m.bound := FinMarks(m.heap, m.marks, all);
      assert m.Entries() == [];
    }

    /** The second pass of GC_finalize: moves the finalizable objects that are still not marked to the queue, and marks
        them. */
    method Enqueue() returns (ghost es: seq<(Obj, Finalizer)>)
      requires Valid()
      modifies m`marks, m`bound, fo, `finalizeNow
      ensures Valid() && m.marks == old(m.marks) + KeysOf(es)
      ensures LinkTables.EntriesOf(es, old(fo.Map())) && KeysOf(es) == StillUnmarked(old(fo.Map()), old(m.marks))
      ensures fo.Map() == old(fo.Map()) - KeysOf(es)
      ensures finalizeNow == Reversed(es) + old(finalizeNow)
    {
      hide *;
      var removed := TakeUnmarked();
      es := removed;
      Prepend(removed);
    }

    /** Takes the entries of unmarked objects out of the table. */
    method TakeUnmarked() returns (es: seq<(Obj, Finalizer)>)
      requires Valid()
      modifies fo
      ensures Valid() && InHeap(es)
      ensures LinkTables.EntriesOf(es, old(fo.Map())) && KeysOf(es) == StillUnmarked(old(fo.Map()), m.marks)
      ensures fo.Map() == old(fo.Map()) - KeysOf(es)
    {
      hide HeapWF, BoundWF, LinkTables.Swept, LinkTables.Hashed, LinkTables.Keyed;
      ghost var all := fo.Map();
      var marks := m.marks;
      var gone := (o: Obj, f: Finalizer) => o !in marks;
      es := fo.Sweep(gone);
      SweptFinalizable(all, fo.Map(), es, marks, gone);
      EntriesInHeap(all, es);
    }

    ghost predicate InHeap(es: seq<(Obj, Finalizer)>)
      reads m
    {
      forall j :: 0 <= j < |es| ==> es[j].0 in m.heap.objs
    }

    lemma EntriesInHeap(all: map<Obj, Finalizer>, es: seq<(Obj, Finalizer)>)
      requires LinkTables.EntriesOf(es, all) && forall o :: o in all ==> o in m.heap.objs
      ensures InHeap(es)
    {
    }

    /** Puts the entries in front of the queue one after the other, and marks their objects. */
    method Prepend(es: seq<(Obj, Finalizer)>)
      requires Valid() && InHeap(es)
      modifies m`marks, m`bound, `finalizeNow
      ensures Valid() && m.marks == old(m.marks) + KeysOf(es) && finalizeNow == Reversed(es) + old(finalizeNow)
    {
      hide LinkTables.Hashed, LinkTables.Keyed, LinkTables.Contents, HeapWF, BoundWF, KeysOf, Reversed, Bounded;
      PrependAll(es);
    }

    method PrependAll(es: seq<(Obj, Finalizer)>)
      requires Ready() && InHeap(es)
      modifies m`marks, m`bound, `finalizeNow
      ensures Ready() && m.marks == old(m.marks) + KeysOf(es) && finalizeNow == Reversed(es) + old(finalizeNow)
    {
      hide HeapWF, Closed, RootsIn, Reversed;
      ghost var queue, marks := finalizeNow, m.marks;
      WholeBound(m.heap);
      m.bound := m.heap.objs.Keys;
      assert m.Entries() == [];
      NothingReversed<(Obj, Finalizer)>();
      assert es[..0] == [];
      var n := 0;
      while n < |es|
        invariant n <= |es| && Ready() && m.bound == m.heap.objs.Keys
        invariant finalizeNow == Reversed(es[..n]) + queue && m.marks == marks + KeysOf(es[..n])
      {
        KeysOfMore(es, n);
        assert es[..n + 1] == es[..n] + [es[n]];
        ReversedMore(es[..n], es[n]);
        m.marks := m.marks + {es[n].0};
        finalizeNow := [es[n]] + finalizeNow;
        n := n + 1;
      }
      assert es[..n] == es;
    }

    /** GC_finalize. With m0 the marks before, h1 the heap once short links to unmarked objects have been cleared,
        stale1 its stale words, and m1 what is marked for finalization: exactly the finalizable objects outside m1 are
        enqueued and marked; short links are judged by m0 and long ones by the final marks; links at locations inside
        unmarked objects are dropped, and of the others only those whose object was not marked, whose locations are
        cleared. No enqueued object can be reached by pointers from an entry that is marked through normally, and if all
        enqueued entries are, everything reachable from them is marked, save by stale words. Nothing is promised about
        the marks if the mark stack overflows. */
    method Finalize() returns (ghost h1: Heap, ghost stale1: iset<int>, ghost m1: set<Obj>,
                               ghost es: seq<(Obj, Finalizer)>)
      requires Valid() && m.state == MS_NONE && ClosedBut(m.heap, m.marks, m.stale) && RootsIn(m.heap, m.marks)
      modifies m`heap, m`marks, m`top, m`state, m`stackTooSmall, m`objectsAreMarked, m`bound, m`stale, m.stack, dl, ll,
               fo, `finalizeNow
      ensures Valid()
      ensures old(AllFit(m)) ==> m.state == MS_NONE
      ensures ClearedAt(old(m.heap), h1, ToUnmarked(old(dl.Map()), old(m.marks)))
      ensures stale1 == old(m.stale) + Disturbed(ToUnmarked(old(dl.Map()), old(m.marks)))
      ensures LinkTables.EntriesOf(es, old(fo.Map())) && KeysOf(es) == StillUnmarked(old(fo.Map()), m1)
      ensures old(m.marks) <= m1 && m.marks == m1 + KeysOf(es)
      ensures m.state == MS_NONE ==> PassMarks(h1, stale1, old(m.marks), old(fo.Map()), m1)
      ensures m.state == MS_NONE && stale1 == iset{} ==> m1 == FinMarks(h1, old(m.marks), old(fo.Map()))
      ensures m.state == MS_NONE ==> InOrder(WithoutWords(h1, stale1), old(fo.Map()), KeysOf(es))
      ensures m.state == MS_NONE && AllNormal(old(fo.Map()), KeysOf(es)) ==> ClosedBut(m.heap, m.marks, m.stale)
      ensures fo.Map() == old(fo.Map()) - KeysOf(es) && finalizeNow == Reversed(es) + old(finalizeNow)
      ensures dl.Map() == AtMarked(ToMarked(old(dl.Map()), old(m.marks)), m.heap.objs, m.marks)
      ensures ll.Map() == AtMarked(ToMarked(old(ll.Map()), m.marks), m.heap.objs, m.marks)
      ensures ClearedAt(h1, m.heap, ToUnmarked(old(ll.Map()), m.marks))
      ensures m.stale == stale1 + Disturbed(ToUnmarked(old(ll.Map()), m.marks))
    {
      hide *;
      ghost var m0 := m.marks;
      Prepared();
      ghost var all := fo.Map();
      DropDeadLinks(dl, m0);
      h1, stale1 := m.heap, m.stale;
      HeapKnown();
      MarkFinalizable();
      m1 := m.marks;
      es := Enqueue();
      ghost var marks := m.marks;
      if m.state == MS_NONE {
        InOrderNow(h1, stale1, m0, all, m1, KeysOf(es));
      }
      DropDanglingLinks(dl);
      DropDeadLinks(ll, marks);
      DropDanglingLinks(ll);
      HeapKnown();
      WithoutCloses(m.heap, m.stale, m.marks);
    }

    lemma HeapKnown()
      requires Valid()
      ensures HeapWF(m.heap) && m.marks <= m.heap.objs.Keys && 0 !in m.heap.resolve
    {
    }

    lemma Prepared()
      requires Valid() && ClosedBut(m.heap, m.marks, m.stale) && RootsIn(m.heap, m.marks)
      ensures dl != ll && fo.Valid()
      ensures Closed(WithoutWords(m.heap, m.stale), m.marks) && RootsIn(WithoutWords(m.heap, m.stale), m.marks)
    {
      WithoutCloses(m.heap, m.stale, m.marks);
    }

    method DropDeadLinks(t: LinkTable<Obj>, ghost c: set<Obj>)
      requires Valid() && (t == dl || t == ll)
      modifies m`heap, m`bound, m`stale, t
      ensures Valid()
      ensures m.heap.objs == old(m.heap.objs) && (old(AllFit(m)) ==> AllFit(m))
      ensures Closed(old(WithoutWords(m.heap, m.stale)), c) ==> Closed(WithoutWords(m.heap, m.stale), c)
      ensures RootsIn(old(WithoutWords(m.heap, m.stale)), c) ==> RootsIn(WithoutWords(m.heap, m.stale), c)
      ensures t.Map() == ToMarked(old(t.Map()), m.marks)
      ensures ClearedAt(old(m.heap), m.heap, ToUnmarked(old(t.Map()), m.marks))
      ensures m.stale == old(m.stale) + Disturbed(ToUnmarked(old(t.Map()), m.marks))
    {
      hide LinkTables.Hashed, LinkTables.Keyed, LinkTables.Contents, HeapWF, BoundWF, ToMarked, ToUnmarked, Bounded,
        Closed, RootsIn, ClearedAt, WithoutWords;
      DropDead(t);
      ClearedStillClosed(old(m.heap), m.heap, ToUnmarked(old(t.Map()), m.marks), old(m.stale), c);
    }

    method DropDanglingLinks(t: LinkTable<Obj>)
      requires Valid() && (t == dl || t == ll)
      modifies t
      ensures Valid() && t.Map() == AtMarked(old(t.Map()), m.heap.objs, m.marks)
    {
      hide LinkTables.Hashed, LinkTables.Keyed, LinkTables.Contents, HeapWF, BoundWF, AtMarked, Bounded;
      DropDangling(t);
    }
  }

  lemma InOrderNow(h: Heap, stale: iset<int>, m0: set<Obj>, fo: map<Obj, Finalizer>, m1: set<Obj>, enqueued: set<Obj>)
    requires HeapWF(h) && m0 <= h.objs.Keys && 0 !in h.resolve && enqueued == StillUnmarked(fo, m1)
    requires PassMarks(h, stale, m0, fo, m1)
    ensures InOrder(WithoutWords(h, stale), fo, enqueued)
    ensures stale == iset{} ==> m1 == FinMarks(h, m0, fo)
    ensures AllNormal(fo, enqueued) ==> Closed(WithoutWords(h, stale), m1 + enqueued)
  {
    WithoutCloses(h, stale, m1);
    EnqueuedInOrder(WithoutWords(h, stale), m0, fo, m1, enqueued);
    if stale == iset{} {
      PassMarksExact(h, m0, fo, m1);
    }
  }

  /** After GC_finalize every link that is left refers to a marked object, from outside the heap or from a marked
      object; a link to an object that has just been enqueued is left exactly when it is a long one. */
  lemma LinksLeft(links: map<int, Obj>, objs: map<Obj, Block>, m0: set<Obj>, marks: set<Obj>, a: int)
    requires m0 <= marks && a in links
    ensures a in AtMarked(ToMarked(links, m0), objs, marks) ==> links[a] in marks && LocationMarked(objs, marks, a)
    ensures a in AtMarked(ToMarked(links, marks), objs, marks) <==> links[a] in marks && LocationMarked(objs, marks, a)
    ensures links[a] in marks && links[a] !in m0 && LocationMarked(objs, marks, a) ==>
              a in AtMarked(ToMarked(links, marks), objs, marks) && a !in AtMarked(ToMarked(links, m0), objs, marks)
              && a in ToUnmarked(links, m0)
  {
  }

  lemma NothingReversed<T>()
    ensures Reversed<T>([]) == []
  {
  }

  /** The marking procedures of the finalizable objects in es refer to objects in c only. */
  ghost predicate AllHopsIn(h: Heap, es: seq<(Obj, Finalizer)>, c: set<Obj>) {
    forall j :: 0 <= j < |es| ==> HopsIn(h, es[j].0, es[j].1.proc, c)
  }

  lemma HopsBound(h: Heap, marks: set<Obj>, fo: map<Obj, Finalizer>, o: Obj)
    requires HeapWF(h) && marks <= h.objs.Keys && o in fo
    ensures HopsIn(h, o, fo[o].proc, FinMarks(h, marks, fo))
  {
    HopsInHops(h, fo, o);
    FinMarksBound(h, marks, fo);
    MoreHops(h, o, fo[o].proc, Hops(h, fo), FinMarks(h, marks, fo));
  }

  lemma MarkedHops(h: Heap, o: Obj, proc: MarkProc, c: set<Obj>)
    requires Closed(h, c) && o in c
    ensures HopsIn(h, o, proc, c)
  {
  }

  lemma OneMoreHops(h: Heap, es: seq<(Obj, Finalizer)>, n: nat, c: set<Obj>, d: set<Obj>)
    requires n < |es| && c <= d
    ensures AllHopsIn(h, es[..n], c) && HopsIn(h, es[n].0, es[n].1.proc, d) ==> AllHopsIn(h, es[..n + 1], d)
  {
  }

  /** The first pass has marked what it should. */
  lemma PassDone(h: Heap, stale: iset<int>, m0: set<Obj>, fo: map<Obj, Finalizer>, es: seq<(Obj, Finalizer)>,
                 marks: set<Obj>)
    requires HeapWF(h) && 0 !in h.resolve && m0 <= marks <= FinMarks(h, m0, fo)
    requires Closed(WithoutWords(h, stale), marks) && RootsIn(WithoutWords(h, stale), m0)
    requires LinkTables.EntriesOf(es, fo) && (forall k: int :: k in fo ==> LinkTables.InList(k, es)) &&
             AllHopsIn(WithoutWords(h, stale), es, marks)
    ensures PassMarks(h, stale, m0, fo, marks)
  {
    var x := WithoutWords(h, stale);
    forall o | o in fo
      ensures HopsIn(x, o, fo[o].proc, marks)
    {
      assert LinkTables.InList(o, es);
      var j :| 0 <= j < |es| && es[j].0 == o;
    }
    WithoutCloses(h, stale, marks);
    FinMarksLeast(x, m0, fo, marks);
  }
}
