/** A full collection from beginning to end, as far as marking and finalization go. */
module Collection {
  import opened MarkHeap
  import opened MarkSpec
  import opened Marking
  import opened MarkDriver
  import opened Finalization
  import LinkTables

  lemma ExactClosed(h: Heap, base: set<Obj>, marks: set<Obj>)
    requires HeapWF(h) && base <= h.objs.Keys && Exact(h, base, marks)
    ensures ClosedBut(h, marks, iset{}) && RootsIn(h, marks)
    ensures forall o :: Reachable(h, base, o) ==> o in marks
  {
    ReachableSetClosed(h, base);
    ReachableInClosed(h, base, ReachableSet(h, base));
    assert forall o :: o in marks <==> o in ReachableSet(h, base);
  }

  /** GC_finalize after a mark phase that has just ended: nothing marked is enqueued, whatever is enqueued is marked,
      and the entries in the table and the queue together stay the same. */
  method FinalizeAfter(f: Finalizers) returns (ghost es: seq<(Obj, Finalizer)>)
    requires f.Valid() && f.m.state == MS_NONE && ClosedBut(f.m.heap, f.m.marks, f.m.stale) &&
             RootsIn(f.m.heap, f.m.marks)
    modifies f, f.m, f.m.stack, f.dl, f.ll, f.fo
    ensures f.dl.Valid() && f.ll.Valid() && f.fo.Valid()
    ensures f.fo.Map() == old(f.fo.Map()) - KeysOf(es) && f.finalizeNow == Reversed(es) + old(f.finalizeNow)
    ensures KeysOf(es) <= old(f.fo.Map()).Keys - old(f.m.marks) && old(f.m.marks) + KeysOf(es) <= f.m.marks
  {
    hide *;
    WellFormed(f);
    ghost var h1, stale1, m1;
    ghost var all := f.fo.Map();
    h1, stale1, m1, es := f.Finalize();
    EnqueuedUnmarked(all, m1, KeysOf(es));
    WellFormed(f);
  }

  lemma EnqueuedUnmarked(fo: map<Obj, Finalizer>, c: set<Obj>, enqueued: set<Obj>)
    requires enqueued == StillUnmarked(fo, c)
    ensures enqueued <= fo.Keys - c
  {
  }

  lemma WellFormed(f: Finalizers)
    requires f.Valid()
    ensures HeapWF(f.m.heap) && f.dl.Valid() && f.ll.Valid() && f.fo.Valid()
  {
  }

  /** GC_try_to_collect_inner followed by GC_finalize. What was reachable from the roots or from uncollectable objects
      stays marked and is never enqueued; what is enqueued is marked as well. */
  method CollectAndFinalize(d: Driver, f: Finalizers)
    returns (r: Result, ghost base: set<Obj>, ghost es: seq<(Obj, Finalizer)>)
    requires d.m == f.m && d.rate > 0 && d.m.Sane() && (d.incremental ==> d.m.Valid())
    requires f.dl != f.ll && f.dl.Valid() && f.ll.Valid() && f.fo.Valid() && 0 !in d.m.heap.resolve
    requires forall o :: o in f.fo.Map() ==> o in d.m.heap.objs
    modifies d, d.m, d.m.stack, f, f.dl, f.ll, f.fo
    ensures f.dl.Valid() && f.ll.Valid() && f.fo.Valid()
    ensures old(|d.m.heap.roots|) <= ROOT_ROOM ==> r == Done
    ensures r != Done ==> f.fo.Map() == old(f.fo.Map()) && f.finalizeNow == old(f.finalizeNow) && es == []
    ensures r == Done ==>
              f.fo.Map() == old(f.fo.Map()) - KeysOf(es) && f.finalizeNow == Reversed(es) + old(f.finalizeNow)
    ensures r == Done ==> Uncollectable(old(d.m.Snap())) <= base
    ensures r == Done && (!d.incremental || old(d.m.state) == MS_NONE) ==> base == Uncollectable(old(d.m.Snap()))
    ensures r == Done ==>
              && KeysOf(es) <= old(f.fo.Map()).Keys && KeysOf(es) <= d.m.marks
              && forall o :: Reachable(old(d.m.heap), base, o) ==> o in d.m.marks && o !in KeysOf(es)
  {
    hide *;
    es := [];
    r, base := d.TryToCollectInner(Never);
    if r == Done {
      Ready(f);
      WellFormed(f);
      ExactClosed(f.m.heap, base, f.m.marks);
      es := FinalizeAfter(f);
    }
  }

  /** GC_collect_a_little_inner followed, if that ended a collection, by GC_finalize. With marks and stale as the mark
      phase left them: an object that is enqueued although it can still be reached is one that a stale word leads to. */
  method CollectALittleAndFinalize(d: Driver, f: Finalizers, n: int, shouldCollect: bool, timeout: Stop)
    returns (r: Result, ghost marks: set<Obj>, ghost stale: iset<int>, ghost es: seq<(Obj, Finalizer)>)
    requires d.m == f.m && d.rate > 0 && d.rate * n > 0 && n > 0 && d.m.Sane() && (d.incremental ==> d.m.Valid())
    requires f.dl != f.ll && f.dl.Valid() && f.ll.Valid() && f.fo.Valid() && 0 !in d.m.heap.resolve
    requires forall o :: o in f.fo.Map() ==> o in d.m.heap.objs
    modifies d, d.m, d.m.stack, f, f.dl, f.ll, f.fo
    ensures f.dl.Valid() && f.ll.Valid() && f.fo.Valid()
    ensures old(|d.m.heap.roots|) <= ROOT_ROOM ==> r != Dead
    ensures r == Stopped && shouldCollect ==> d.incremental && d.m.state != MS_NONE
    ensures r != Done ==> f.fo.Map() == old(f.fo.Map()) && f.finalizeNow == old(f.finalizeNow) && es == []
    ensures r == Done ==>
              f.fo.Map() == old(f.fo.Map()) - KeysOf(es) && f.finalizeNow == Reversed(es) + old(f.finalizeNow)
    ensures r == Done ==>
              && KeysOf(es) <= old(f.fo.Map()).Keys - marks && marks + KeysOf(es) <= d.m.marks
              && OnlyStaleMissed(old(d.m.heap), marks, stale) && stale <= old(d.m.stale)
    ensures r == Done && d.incremental && (old(d.m.state) != MS_NONE || !old(d.FullIsDue())) ==> old(d.m.marks) <= marks
    ensures r == Done && (!d.incremental || (old(d.m.state) == MS_NONE && old(d.FullIsDue()))) ==>
              Exact(old(d.m.heap), Uncollectable(old(d.m.Snap())), marks)
    ensures r == Done ==>
              forall o :: o in KeysOf(es) && Reachable(old(d.m.heap), marks, o) ==>
                Missed(old(d.m.heap), marks, stale, o)
  {
    hide *;
    es, marks, stale := [], {}, iset{};
    r := d.CollectALittle(n, shouldCollect, timeout);
    if r == Done {
      Ready(f);
      marks, stale := f.m.marks, f.m.stale;
      MissedOnly(f.m.heap, marks, stale);
      es := FinalizeAfter(f);
    }
  }
  lemma Ready(f: Finalizers)
    requires f.m.Valid() && f.m.state == MS_NONE && 0 !in f.m.heap.resolve
    requires f.dl != f.ll && f.dl.Valid() && f.ll.Valid() && f.fo.Valid()
    requires forall o :: o in f.fo.Map() ==> o in f.m.heap.objs
    ensures f.Valid()
  {
  }

  lemma MissedOnly(h: Heap, marks: set<Obj>, stale: iset<int>)
    requires OnlyStaleMissed(h, marks, stale)
    ensures ClosedBut(h, marks, stale) && RootsIn(h, marks)
    ensures forall o :: Reachable(h, marks, o) && o !in marks ==> Missed(h, marks, stale, o)
  {
  }
}
