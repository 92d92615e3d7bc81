/** Runs of the heap block allocator: expanding the heap, allocating, freeing, unmapping and merging in any order. */
module HeapRuns {
  import opened Basics
  import opened HeapMap
  import opened FreeLists
  import opened Coalescing
  import opened HeapAccount
  import opened HeapOps
  import opened BlockAllocation
  import MergeUnmapped
  import HeaderIndex

  /** One call of the allocator. Unmap is what GC_unmap_old does to one block. */
  datatype Op =
    | Expand(p: nat, n: nat)
    | Allocate(r: Request, policy: Policy)
    | Release(h: nat)
    | Unmap(h: nat)
    | Merge

  /** Everything is mapped, and no free block could be merged with its successor. */
  ghost predicate Tidy(x: Index) { AllMapped(x) && Apart(x) }

  /** The heap is smaller than 2 to the power 63 bytes. */
  predicate Small(pages: nat) { pages < SIGNED_PAGES }

  lemma SmallerToo(m: nat, n: nat)
    requires m <= n
    ensures Small(n) ==> Small(m)
  {
  }

  lemma TidyAlone(a: Allocator)
    requires a.Valid() && Small(a.heapSize) && Tidy(a.headers.view)
    ensures a.Now().mapped && a.Now().alone
  {
    SmallHeapAlone(a.headers.view, a.owner);
  }

  lemma AloneTidy(a: Allocator)
    requires a.Now().mapped && a.Now().alone
    ensures Tidy(a.headers.view)
  {
  }

  method AllocateBlock(a: Allocator, r: Request, policy: Policy)
    requires a.Valid() && a.blackList.Valid() && r.Valid()
    modifies a`lists, a`owner, a`largeFree, a`bytesDropped, a`dropCount, a.headers, a.heads, a.freePages
    ensures a.Valid()
    ensures Small(a.heapSize) && Tidy(old(a.headers.view)) ==> Tidy(a.headers.view)
  {
    hide *;
    ghost var small, tidy := Small(a.heapSize), Tidy(a.headers.view);
    if small && tidy {
      TidyAlone(a);
    }
    ghost var past := a.Now();
    var h, drops, choice := a.Allochblk(r, policy);
    AloneKept(past, a.Now(), h, drops, r);
    if small && tidy {
      AloneTidy(a);
    }
  }

  lemma AloneKept(past: Past, now: Past, h: Option<nat>, drops: map<nat, Hdr>, r: Request)
    requires if h.Some? then Gave(past, now, drops, h.value, r) else Dropped(past, now, drops)
    ensures (past.mapped ==> now.mapped) && (past.alone ==> now.alone)
  {
  }

  method ReleaseBlock(a: Allocator, h: nat)
    requires a.Valid() && IsUsed(a.headers.view, h)
    modifies a`lists, a`owner, a`largeFree, a.headers, a.heads, a.freePages
    ensures a.Valid() && (Tidy(old(a.headers.view)) ==> Tidy(a.headers.view))
  {
    hide Good, Sectioned, Plausible, UsedMapped, AllMapped, Apart, UsedBlocks;
    a.Free(h);
  }

  /** The n pages from p on are in no section of the heap. */
  predicate NotInSections(sects: seq<Sect>, p: nat, n: nat) {
    forall i :: 0 <= i < |sects| ==>
          sects[i].start + sects[i].pages <= p || p + n <= sects[i].start || sects[i].pages == 0
  }

  lemma NewRange(o: Owner, sects: seq<Sect>, p: nat, n: nat)
    requires Sectioned(o, sects) && NotInSections(sects, p, n)
    ensures forall q: nat :: p <= q < p + n ==> q !in o
  {
  }

  method ExpandHeap(a: Allocator, p: nat, n: nat)
    requires a.Valid() && n > 0 && p + n <= ADDRESS_PAGES && NotInSections(a.sects, p, n)
    modifies a, a.headers, a.heads, a.freePages
    ensures a.Valid() && a.heapSize >= old(a.heapSize) && (Tidy(old(a.headers.view)) ==> Tidy(a.headers.view))
  {
    hide Good, Sectioned, Plausible, UsedMapped, AllMapped, Apart, UsedBlocks, NotInSections;
    NewRange(a.owner, a.sects, p, n);
    a.AddToHeap(p, n);
  }

  method UnmapBlock(a: Allocator, h: nat)
    requires a.Valid() && IsFree(a.headers.view, h)
    modifies a.headers
    ensures a.Valid()
  {
    hide Good, Sectioned, Plausible, UsedBlocks, AllMapped;
    a.SetUnmapped(h, true);
  }

  /** Performs op if the collector may: memory to be added must not be in the heap yet, and only used blocks are freed
      and free ones unmapped. */
  method Perform(a: Allocator, op: Op)
    requires a.Valid() && a.blackList.Valid()
    modifies a, a.headers, a.heads, a.freePages
    ensures a.Valid() && a.heapSize >= old(a.heapSize)
    ensures !op.Unmap? && Small(a.heapSize) && Tidy(old(a.headers.view)) ==> Tidy(a.headers.view)
  {
    hide Good, Sectioned, Plausible, UsedMapped, Tidy, UsedBlocks, Total, HeaderIndex.Shows, HeaderIndex.Chained;
    match op
    case Expand(p, n) =>
      if n > 0 && p + n <= ADDRESS_PAGES && NotInSections(a.sects, p, n) {
        ExpandHeap(a, p, n);
      }
    case Allocate(r, policy) =>
      if r.Valid() {
        AllocateBlock(a, r, policy);
      }
    case Release(h) =>
      var e := a.headers.Get(h);
      if e.Header? && !e.hdr.free {
        ReleaseBlock(a, h);
      }
    case Unmap(h) =>
      var e := a.headers.Get(h);
      if e.Header? && e.hdr.free {
        UnmapBlock(a, h);
      }
    case Merge =>
      MergeBlocks(a);
  }

  method MergeBlocks(a: Allocator)
    requires a.Valid()
    modifies a`lists, a`owner, a.headers, a.heads, a.freePages
    ensures a.Valid() && AllApart(a.headers.view)
    ensures Tidy(old(a.headers.view)) ==> Tidy(a.headers.view)
  {
    hide *;
    TidyParts(a.headers.view);
    ghost var steps := MergeUnmapped.MergeUnmapped(a);
    TidyParts(a.headers.view);
  }

  lemma TidyParts(x: Index)
    ensures Tidy(x) ==> AllMapped(x)
    ensures AllMapped(x) && AllApart(x) ==> Tidy(x)
  {
  }

  /** Calls in any order and number keep the heap map, the free lists and the counters consistent; and as long as
      nothing is unmapped and the heap is smaller than 2 to the power 63 bytes, no two free blocks that could be merged
      are ever left next to each other. */
  method Run(a: Allocator, ops: seq<Op>)
    requires a.Valid() && a.blackList.Valid()
    modifies a, a.headers, a.heads, a.freePages
    ensures a.Valid()
    ensures a.largeFree == |FreePages(a.headers.view, a.owner)|
    ensures |UsedPages(a.headers.view, a.owner)| + a.largeFree == a.heapSize
    ensures NoneUnmaps(ops) && Small(a.heapSize) && Tidy(old(a.headers.view)) ==> AllApart(a.headers.view)
  {
    hide *;
    ghost var tidy := Tidy(a.headers.view);
    var n := 0;
    while n < |ops|
      invariant n <= |ops| && a.Valid()
      invariant NoneUnmaps(ops) && Small(a.heapSize) && tidy ==> Tidy(a.headers.view)
    {
      ghost var size := a.heapSize;
      Perform(a, ops[n]);
      SmallerToo(size, a.heapSize);
      NoneUnmapsAt(ops, n);
      n := n + 1;
    }
    a.Conservation();
    if Tidy(a.headers.view) {
      TidyAllApart(a.headers.view);
    }
  }

  ghost predicate NoneUnmaps(ops: seq<Op>) { forall i :: 0 <= i < |ops| ==> !ops[i].Unmap? }

  lemma NoneUnmapsAt(ops: seq<Op>, n: nat)
    requires n < |ops|
    ensures NoneUnmaps(ops) ==> !ops[n].Unmap?
  {
  }

  lemma TidyAllApart(x: Index)
    requires Tidy(x)
    ensures AllApart(x)
  {
    AllMappedAllApart(x);
  }
}
