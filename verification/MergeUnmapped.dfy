/** GC_merge_unmapped: coalescing of adjacent free blocks that GC_freehblk has left apart because one of them was
    unmapped (allchblk.c). */
module MergeUnmapped {
  import opened HeapMap
  import opened FreeLists
  import opened Tiling
  import opened Coalescing
  import opened HeapAccount
  import opened HeapOps
  import opened BlockAllocation
  import HeaderIndex

  /** No free block of a size for lists below n could be merged with its successor. */
  ghost predicate DoneBelow(x: Index, n: nat) {
    forall p: nat :: IsFree(x, p) && ListFor(x[p].hdr.blocks) < n ==> !Mergeable(x, p)
  }

  /** Nor could the first k blocks of s. */
  ghost predicate DoneUpTo(x: Index, s: seq<nat>, k: nat) {
    forall j :: 0 <= j < k && j < |s| ==> !Mergeable(x, s[j])
  }

  /** x and y differ in links and in the unmapped flags of free blocks only. */
  ghost predicate SameSizesEverywhere(x: Index, y: Index) {
    && x.Keys == y.Keys
    && forall p: nat :: p in x ==>
         (IsHdr(x, p) <==> IsHdr(y, p)) &&
             (IsHdr(x, p) ==> y[p].hdr.free == x[p].hdr.free && y[p].hdr.blocks == x[p].hdr.blocks)
  }

  // ---- The free blocks and their flags

  lemma ShapeFree(x: Index, y: Index)
    requires SameShape(x, y)
    ensures FreeBlocks(x) == FreeBlocks(y)
  {
    forall p: nat
      ensures p in FreeBlocks(x) <==> p in FreeBlocks(y)
      ensures p in FreeBlocks(x) ==> FreeBlocks(x)[p] == FreeBlocks(y)[p]
    {
      assert p in x ==> SameBlock(x[p], y[p]);
    }
  }

  lemma FlaggedFree(x: Index, h: nat, u: bool)
    requires IsFree(x, h)
    ensures FreeBlocks(Flagged(x, h, u)) == FreeBlocks(x)[h := FreeBlock(x[h].hdr.blocks, u)]
  {
  }

  lemma MergedFree(x: Index, h: nat, b: nat)
    requires IsFree(x, h) && IsFree(x, b) && h != b
    ensures FreeBlocks(Merged(x, h, b)) ==
            (FreeBlocks(x) - {b})[h := FreeBlock(x[h].hdr.blocks + x[b].hdr.blocks, x[h].hdr.unmapped)]
  {
  }

  /** What becomes of the free blocks when h is merged with its successor. Of two that differ the smaller one, the first
      if they are of the same size, is mapped or unmapped like the other. */
  ghost predicate MergesPair(free: map<nat, FreeBlock>, free': map<nat, FreeBlock>, h: nat) {
    h in free && var next := h + free[h].blocks;
    && next in free && next != h && Fits(free[h].blocks, free[next].blocks)
    && free' == (free - {next})[h := FreeBlock(free[h].blocks + free[next].blocks,
                 if free[h].blocks > free[next].blocks then free[h].unmapped else free[next].unmapped)]
  }

  ghost predicate MergesSome(free: map<nat, FreeBlock>, free': map<nat, FreeBlock>) {
    exists h: nat :: MergesPair(free, free', h)
  }

  /** Merging pair after pair leads from free to free'. */
  ghost predicate Merges(free: map<nat, FreeBlock>, steps: seq<map<nat, FreeBlock>>, free': map<nat, FreeBlock>) {
    && steps != [] && steps[0] == free && steps[|steps| - 1] == free'
    && forall i :: 0 <= i < |steps| - 1 ==> MergesSome(steps[i], steps[i + 1])
  }

  lemma NoMerges(free: map<nat, FreeBlock>)
    ensures Merges(free, [free], free)
  {
  }

  lemma MergesMore(free: map<nat, FreeBlock>, steps: seq<map<nat, FreeBlock>>, mid: map<nat, FreeBlock>,
                   free': map<nat, FreeBlock>, h: nat)
    requires Merges(free, steps, mid) && MergesPair(mid, free', h)
    ensures Merges(free, steps + [free'], free')
  {
    hide MergesPair;
    var longer := steps + [free'];
    forall i | 0 <= i < |longer| - 1
      ensures MergesSome(longer[i], longer[i + 1])
    {
      if i < |steps| - 1 {
        assert MergesSome(steps[i], steps[i + 1]);
      } else {
        assert MergesPair(longer[i], longer[i + 1], h);
      }
    }
  }

  lemma PairMerged(x: Index, y: Index, h: nat, u: bool)
    requires Mergeable(x, h) && End(x, h) != h
    requires FreeBlocks(y) ==
               (FreeBlocks(x) - {End(x, h)})[h := FreeBlock(x[h].hdr.blocks + x[End(x, h)].hdr.blocks, u)]
    requires u == if H(x, h).blocks > H(x, End(x, h)).blocks then H(x, h).unmapped else H(x, End(x, h)).unmapped
    ensures MergesPair(FreeBlocks(x), FreeBlocks(y), h)
  {
  }

  lemma SameShapeSizes(x: Index, y: Index)
    requires SameShape(x, y)
    ensures SameSizesEverywhere(x, y)
  {
  }

  lemma SizesTrans(x: Index, y: Index, z: Index)
    requires SameSizesEverywhere(x, y) && SameSizesEverywhere(y, z)
    ensures SameSizesEverywhere(x, z)
  {
  }

  /** Merging two blocks makes nothing else mergeable: what did not fit next to the first does not fit next to both. */
  lemma DoneAfterMerge(x: Index, o: Owner, h: nat, n: nat, y: Index, z: Index)
    requires Tiled(x, o) && IsFree(x, h) && IsFree(x, End(x, h)) && DoneBelow(y, n) && n == ListFor(x[h].hdr.blocks)
    requires SameSizesEverywhere(y, x) && SameSizesEverywhere(Merged(x, h, End(x, h)), z)
    ensures DoneBelow(z, n)
  {
  }

  lemma FlaggedSizes(x: Index, h: nat, u: bool)
    requires IsHdr(x, h)
    ensures SameSizesEverywhere(x, Flagged(x, h, u))
  {
  }

  lemma MergedKeys(x: Index, o: Owner, h: nat, b: nat, z: Index)
    requires Tiled(x, o) && IsHdr(x, h) && IsHdr(x, b) && h != b && SameSizesEverywhere(Merged(x, h, b), z)
    ensures |z.Keys| == |x.Keys| - 1
  {
  }

  /** The state once h and its successor are off their lists and merged. */
  ghost predicate Joined(x: Index, o: Owner, h: nat, y: Index) {
    Tiled(x, o) && IsFree(x, h) && IsFree(x, End(x, h)) && y == Merged(x, h, End(x, h))
  }

  lemma SizesAt(x: Index, y: Index, h: nat)
    requires SameSizesEverywhere(x, y) && IsFree(x, h)
    ensures IsFree(y, h) && y[h].hdr.blocks == x[h].hdr.blocks && (IsFree(x, End(x, h)) ==> IsFree(y, End(y, h)))
  {
  }

  /** Takes loose block h's successor off its list and merges the two. */
  method Join(a: Allocator, h: nat, next: nat) returns (ghost x: Index, ghost o: Owner)
    requires a.Ready() && Good(a.S(), {h}, Nothing) && IsFree(a.headers.view, h) && End(a.headers.view, h) == next
    requires IsFree(a.headers.view, next)
    modifies a`lists, a`owner, a.headers, a.heads, a.freePages
    ensures a.Ready() && Good(a.S(), {h}, Nothing) && SameSizesEverywhere(old(a.headers.view), x)
    ensures Joined(x, o, h, a.headers.view) && IsFree(a.headers.view, h) && End(x, h) == next
    ensures FreeBlocks(x) == FreeBlocks(old(a.headers.view))
    ensures Quiet(old(a.S()), a.S(), old(a.headers.view)[h].hdr.blocks - a.headers.view[h].hdr.blocks)
    ensures AllMapped(old(a.headers.view)) ==> AllMapped(a.headers.view)
  {
    hide HeaderIndex.Shows, HeaderIndex.Chained, Consistent, Tiled, SameShape, UsedBlocks;
    BlockNotEmpty(a.S(), h, {h});
    a.RemoveNext(h, next);
    x, o := a.headers.view, a.owner;
    SameShapeSizes(old(a.headers.view), x);
    ShapeFree(old(a.headers.view), x);
    ShapeKeepsMapped(old(a.headers.view), x);
    MergedMapped(x, h, next);
    a.MergeLoose(h, next, {h, next});
    assert {h, next} - {next} == {h};
  }

  lemma JoinedDone(x0: Index, x: Index, o: Owner, h: nat, y: Index, z: Index, n: nat)
    requires SameSizesEverywhere(x0, x) && Joined(x, o, h, y) && SameSizesEverywhere(y, z)
    requires IsFree(x0, h) && n == ListFor(x0[h].hdr.blocks)
    ensures DoneBelow(x0, n) ==> DoneBelow(z, n)
    ensures |z.Keys| == |x0.Keys| - 1
  {
    SizesAt(x0, x, h);
    assert BlockOwns(x, o, h);
    MergedKeys(x, o, h, End(x, h), z);
    if DoneBelow(x0, n) {
      DoneAfterMerge(x, o, h, n, x0, z);
    }
  }

  /** Sets the unmapped flag of block h, at place k of list i, and takes it off the list. */
  method FlagAndTakeOff(a: Allocator, h: nat, i: nat, ghost k: nat, u: bool)
    requires a.Ready() && Good(a.S(), {}, Nothing) && i <= N_HBLK_FLS && i < |a.lists| && k < |a.lists[i]| &&
             a.lists[i][k] == h
    requires IsFree(a.headers.view, h)
    modifies a`lists, a.headers, a.heads, a.freePages
    ensures a.Ready() && Good(a.S(), {h}, Nothing) && SameSizesEverywhere(old(a.headers.view), a.headers.view)
    ensures Quiet(old(a.S()), a.S(), 0 - old(a.headers.view)[h].hdr.blocks)
    ensures FreeBlocks(a.headers.view) ==
            FreeBlocks(old(a.headers.view))[h := FreeBlock(old(a.headers.view)[h].hdr.blocks, u)]
    ensures AllMapped(old(a.headers.view)) && !u ==> AllMapped(a.headers.view)
  {
    hide HeaderIndex.Shows, HeaderIndex.Chained, Good, SameShape, UsedBlocks, SameSizesEverywhere, AllMapped, AloneBut;
    ghost var x0 := a.headers.view;
    a.SetUnmapped(h, u);
    FlaggedSizes(x0, h, u);
    ghost var x1 := a.headers.view;
    FlaggedFree(x0, h, u);
    a.TakeOff(h, i, k, Nothing);
    SameShapeSizes(x1, a.headers.view);
    ShapeFree(x1, a.headers.view);
    SizesTrans(x0, x1, a.headers.view);
  }

  /** The free blocks after h has been joined with its successor, whose flag is lost. */
  ghost function JoinedFree(free: map<nat, FreeBlock>, h: nat): map<nat, FreeBlock> {
    if h in free && h + free[h].blocks in free then
      var next := h + free[h].blocks;
      (free - {next})[h := FreeBlock(free[h].blocks + free[next].blocks, free[h].unmapped)]
    else free
  }

  lemma JoinedFreeBlocks(x: Index, o: Owner, h: nat, y: Index)
    requires Joined(x, o, h, y)
    ensures FreeBlocks(y) == JoinedFree(FreeBlocks(x), h)
  {
    assert BlockOwns(x, o, h);
    MergedFree(x, h, End(x, h));
  }

  /** Merges loose block h with its successor and puts it on the list for its size. */
  method JoinAndAdd(a: Allocator, h: nat, ghost x0: Index, ghost n: nat)
    requires a.Ready() && Good(a.S(), {h}, Nothing) && SameSizesEverywhere(x0, a.headers.view)
    requires IsFree(x0, h) && IsFree(x0, End(x0, h)) && n == ListFor(x0[h].hdr.blocks)
    modifies a`lists, a`owner, a.headers, a.heads, a.freePages
    ensures a.Ready() && Good(a.S(), {}, Nothing) && Quiet(old(a.S()), a.S(), x0[h].hdr.blocks)
    ensures DoneBelow(x0, n) ==> DoneBelow(a.headers.view, n)
    ensures |a.headers.view.Keys| == |x0.Keys| - 1
    ensures FreeBlocks(a.headers.view) == JoinedFree(FreeBlocks(old(a.headers.view)), h)
    ensures AllMapped(old(a.headers.view)) ==> AllMapped(a.headers.view)
  {
    hide HeaderIndex.Shows, HeaderIndex.Chained, Good, SameShape, UsedBlocks, SameSizesEverywhere, DoneBelow, Joined,
      ListFor, AllMapped;
    ghost var x2 := a.headers.view;
    SizesAt(x0, x2, h);
    var hdr := a.headers.HdrAt(h);
    ghost var x, o := Join(a, h, h + hdr.blocks);
    SizesTrans(x0, x2, x);
    ghost var y := a.headers.view;
    assert Freed(y, h) == y;
    a.AddToFl(h, {h}, Nothing);
    assert {h} - {h} == {};
    SameShapeSizes(y, a.headers.view);
    ShapeFree(y, a.headers.view);
    JoinedFreeBlocks(x, o, h, y);
    ShapeKeepsMapped(y, a.headers.view);
    JoinedDone(x0, x, o, h, y, a.headers.view, n);
  }

  /** Merges free block h, at place k of list i, with its successor; both are unmapped or mapped as u says by then. */
  method MergeWithNext(a: Allocator, h: nat, i: nat, ghost k: nat, u: bool)
    requires a.Valid() && i <= N_HBLK_FLS && i < |a.lists| && k < |a.lists[i]| && a.lists[i][k] == h
    requires IsFree(a.headers.view, h) && IsFree(a.headers.view, End(a.headers.view, h))
    modifies a`lists, a`owner, a.headers, a.heads, a.freePages
    ensures a.Valid() && UsedBlocks(a.headers.view) == UsedBlocks(old(a.headers.view)) &&
            a.owner.Keys == old(a.owner.Keys)
    ensures DoneBelow(old(a.headers.view), i) ==> DoneBelow(a.headers.view, i)
    ensures |a.headers.view.Keys| == |old(a.headers.view).Keys| - 1
    ensures End(old(a.headers.view), h) != h
    ensures var x, next := old(a.headers.view), End(old(a.headers.view), h);
            FreeBlocks(a.headers.view) ==
            (FreeBlocks(x) - {next})[h := FreeBlock(x[h].hdr.blocks + x[next].hdr.blocks, u)]
    ensures AllMapped(old(a.headers.view)) && !u ==> AllMapped(a.headers.view)
  {
    hide HeaderIndex.Shows, HeaderIndex.Chained, Good, UsedBlocks, SameSizesEverywhere, DoneBelow, Sectioned,
      Plausible, Total, UsedMapped, ListFor, AllMapped, FreeBlocks, JoinedFree;
    ghost var x0 := a.headers.view;
    OnItsList(a, i, k);
    BlockNotEmpty(a.S(), h, {});
    FlagAndTakeOff(a, h, i, k, u);
    ghost var free := FreeBlocks(a.headers.view);
    JoinAndAdd(a, h, x0, i);
    FlagThenJoin(x0, h, u, free);
    SameUsedMapped(x0, a.headers.view);
    SameKeys(old(a.owner), a.owner, a.sects, a.least, a.greatest);
  }

  lemma FlagThenJoin(x: Index, h: nat, u: bool, free: map<nat, FreeBlock>)
    requires IsFree(x, h) && IsFree(x, End(x, h)) && End(x, h) != h
    requires free == FreeBlocks(x)[h := FreeBlock(x[h].hdr.blocks, u)]
    ensures JoinedFree(free, h) ==
            (FreeBlocks(x) - {End(x, h)})[h := FreeBlock(x[h].hdr.blocks + x[End(x, h)].hdr.blocks, u)]
  {
  }

  lemma SameUsedMapped(x: Index, y: Index)
    requires UsedBlocks(x) == UsedBlocks(y) && UsedMapped(x)
    ensures UsedMapped(y)
  {
  }

  lemma OnItsList(a: Allocator, i: nat, k: nat)
    requires a.Valid() && i <= N_HBLK_FLS && i < |a.lists| && k < |a.lists[i]|
    ensures var h := a.lists[i][k]; IsFree(a.headers.view, h) && ListFor(a.headers.view[h].hdr.blocks) == i
  {
  }

  /** GC_merge_unmapped: pair after pair is merged, and afterwards no free block could be merged with its successor,
      whatever mixture of mapped and unmapped blocks there was. */
  method MergeUnmapped(a: Allocator) returns (ghost steps: seq<map<nat, FreeBlock>>)
    requires a.Valid()
    modifies a`lists, a`owner, a.headers, a.heads, a.freePages
    ensures a.Valid() && UsedBlocks(a.headers.view) == UsedBlocks(old(a.headers.view)) &&
            a.owner.Keys == old(a.owner.Keys)
    ensures AllApart(a.headers.view)
    ensures Merges(FreeBlocks(old(a.headers.view)), steps, FreeBlocks(a.headers.view))
    ensures AllMapped(old(a.headers.view)) ==> AllMapped(a.headers.view)
  {
    hide *;
    var i := 0;
    NothingDoneYet(a);
    steps := [FreeBlocks(a.headers.view)];
    NoMerges(FreeBlocks(a.headers.view));
    while i <= N_HBLK_FLS
      invariant Merges(FreeBlocks(old(a.headers.view)), steps, FreeBlocks(a.headers.view))
      invariant a.Valid() && UsedBlocks(a.headers.view) == UsedBlocks(old(a.headers.view)) &&
                a.owner.Keys == old(a.owner.Keys)
      invariant i <= N_HBLK_FLS + 1 && DoneBelow(a.headers.view, i)
      invariant AllMapped(old(a.headers.view)) ==> AllMapped(a.headers.view)
    {
      steps := MergeList(a, i, FreeBlocks(old(a.headers.view)), steps);
      i := i + 1;
    }
    DoneEverywhere(a.headers.view);
  }

  lemma NothingDoneYet(a: Allocator)
    ensures DoneBelow(a.headers.view, 0) && 0 <= N_HBLK_FLS
  {
  }

  lemma DoneEverywhere(x: Index)
    requires DoneBelow(x, N_HBLK_FLS + 1)
    ensures AllApart(x)
  {
  }

  /** The walk over list i, which starts over after each merge. */
  method MergeList(a: Allocator, i: nat, ghost free: map<nat, FreeBlock>, ghost before: seq<map<nat, FreeBlock>>)
    returns (ghost steps: seq<map<nat, FreeBlock>>)
    requires Merges(free, before, FreeBlocks(a.headers.view))
    requires a.Valid() && i <= N_HBLK_FLS && DoneBelow(a.headers.view, i)
    modifies a`lists, a`owner, a.headers, a.heads, a.freePages
    ensures a.Valid() && UsedBlocks(a.headers.view) == UsedBlocks(old(a.headers.view)) &&
            a.owner.Keys == old(a.owner.Keys)
    ensures DoneBelow(a.headers.view, i + 1) && Merges(free, steps, FreeBlocks(a.headers.view))
    ensures AllMapped(old(a.headers.view)) ==> AllMapped(a.headers.view)
  {
    hide *;
    steps := before;
    WalkStart(a, i);
    var h := a.heads[i];
    ghost var k := 0;
    while h != 0
      invariant a.Valid() && UsedBlocks(a.headers.view) == UsedBlocks(old(a.headers.view)) &&
                a.owner.Keys == old(a.owner.Keys)
      invariant DoneBelow(a.headers.view, i) && a.At(i, k, h) && i < |a.lists| &&
                DoneUpTo(a.headers.view, a.lists[i], k)
      invariant AllMapped(old(a.headers.view)) ==> AllMapped(a.headers.view)
      invariant Merges(free, steps, FreeBlocks(a.headers.view))
      decreases |a.headers.view.Keys|, |a.lists[i]| - k
    {
      a.AtBlock(i, k, h);
      var hdr := a.headers.HdrAt(h);
      var merge, u := Consider(a, h, hdr);
      if merge {
        MappedPair(a.headers.view, h);
        ghost var x := a.headers.view;
        MergeWithNext(a, h, i, k, u);
        PairMerged(x, a.headers.view, h, u);
        MergesMore(free, steps, FreeBlocks(x), FreeBlocks(a.headers.view), h);
        steps := steps + [FreeBlocks(a.headers.view)];
        WalkStart(a, i);
        h := a.heads[i];
        k := 0;
      } else {
        WalkOn(a, i, k, h);
        h := hdr.next;
        k := k + 1;
      }
    }
    WalkEnd(a, i, k);
  }

  /** Whether h can be merged with its successor, and whether the merged block is to be unmapped. The smaller of two
      blocks that differ follows the other. */
  method Consider(a: Allocator, h: nat, hdr: Hdr) returns (merge: bool, unmapped: bool)
    requires a.Ready() && IsFree(a.headers.view, h) && hdr == H(a.headers.view, h)
    ensures merge <==> Mergeable(a.headers.view, h)
    ensures merge ==> IsFree(a.headers.view, End(a.headers.view, h))
    ensures merge ==> var nhdr := H(a.headers.view, End(a.headers.view, h));
                      unmapped == if hdr.blocks > nhdr.blocks then hdr.unmapped else nhdr.unmapped
  {
    hide HeaderIndex.Shows, HeaderIndex.Chained;
    var e := a.headers.Get(h + hdr.blocks);
    if !(e.Header? && e.hdr.free && Fits(hdr.blocks, e.hdr.blocks)) {
      return false, false;
    }
    if !hdr.unmapped && e.hdr.unmapped {
      return true, if hdr.blocks > e.hdr.blocks then false else true;
    } else if !e.hdr.unmapped && hdr.unmapped {
      return true, if hdr.blocks > e.hdr.blocks then true else false;
    }
    return true, hdr.unmapped;
  }

  lemma MappedPair(x: Index, h: nat)
    requires IsFree(x, h) && IsFree(x, End(x, h))
    ensures AllMapped(x) ==> !H(x, h).unmapped && !H(x, End(x, h)).unmapped
  {
  }

  lemma WalkStart(a: Allocator, i: nat)
    requires a.Valid() && i <= N_HBLK_FLS
    ensures a.heads.Length == N_HBLK_FLS + 1 && i < a.heads.Length && i < |a.lists|
    ensures a.At(i, 0, a.heads[i]) && DoneUpTo(a.headers.view, a.lists[i], 0)
  {
  }

  lemma WalkOn(a: Allocator, i: nat, k: nat, h: nat)
    requires a.Valid() && a.At(i, k, h) && h != 0 && i < |a.lists| && DoneUpTo(a.headers.view, a.lists[i], k)
    requires !Mergeable(a.headers.view, h)
    ensures IsHdr(a.headers.view, h) && a.At(i, k + 1, H(a.headers.view, h).next)
    ensures DoneUpTo(a.headers.view, a.lists[i], k + 1)
  {
    a.BlockAt(i, k);
  }

  lemma WalkEnd(a: Allocator, i: nat, k: nat)
    requires a.Valid() && a.At(i, k, 0) && i < |a.lists| && DoneUpTo(a.headers.view, a.lists[i], k)
    requires DoneBelow(a.headers.view, i)
    ensures DoneBelow(a.headers.view, i + 1)
  {
  }
}
