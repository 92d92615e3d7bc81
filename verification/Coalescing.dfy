/** Adjacent free blocks that could have been merged, and how each operation on blocks keeps them away. */
module Coalescing {
  import opened Basics
  import opened HeapMap
  import opened FreeLists
  import opened Tiling

  /** 2 to the power 63, in pages: block sizes from here on are negative as signed words. */
  const SIGNED_PAGES := 0x8_0000_0000_0000

  /** The merged size is positive as a signed word. Two disjoint blocks have less than 2 to the power 64 bytes, so the
      sum does not wrap past the negative half. */
  predicate Fits(a: nat, b: nat) { a + b < SIGNED_PAGES }

  predicate Adjacent(x: Index, p: nat) { IsFree(x, p) && IsFree(x, End(x, p)) }

  /** Free block p could be merged with its successor. */
  predicate Mergeable(x: Index, p: nat) {
    Adjacent(x, p) && Fits(x[p].hdr.blocks, x[End(x, p)].hdr.blocks)
  }

  /** Free block p and its successor are both free and mapped. */
  predicate Touching(x: Index, p: nat) {
    Adjacent(x, p) && !x[p].hdr.unmapped && !x[End(x, p)].hdr.unmapped
  }

  /** Free block p could be merged with its successor without remapping or unmapping anything. */
  predicate MergeableAsIs(x: Index, p: nat) { Touching(x, p) && Mergeable(x, p) }

  predicate EndsAt(x: Index, p: nat, h: nat) { IsFree(x, p) && End(x, p) == h }

  /** No two adjacent free, mapped blocks that would fit together. */
  ghost predicate Apart(x: Index) { forall p: nat :: !MergeableAsIs(x, p) }

  /** ... except for the block before h. */
  ghost predicate ApartBut(x: Index, h: nat) { forall p: nat :: MergeableAsIs(x, p) ==> EndsAt(x, p, h) }

  /** ... except for h with its two neighbours. */
  ghost predicate ApartAround(x: Index, h: nat) { forall p: nat :: MergeableAsIs(x, p) ==> p == h || EndsAt(x, p, h) }

  /** Whatever their mapping: what GC_merge_unmapped is to reach. */
  ghost predicate AllApart(x: Index) { forall p: nat :: !Mergeable(x, p) }

  ghost predicate AllMapped(x: Index) { forall p: nat :: IsHdr(x, p) ==> !x[p].hdr.unmapped }

  /** No two adjacent free, mapped blocks at all. */
  ghost predicate Alone(x: Index) { forall p: nat :: !Touching(x, p) }

  ghost predicate AloneBut(x: Index, h: nat) { forall p: nat :: Touching(x, p) ==> EndsAt(x, p, h) }

  ghost predicate AloneNear(x: Index, h: nat) { forall p: nat :: Touching(x, p) ==> p == h || EndsAt(x, p, h) }

  lemma AllMappedAllApart(x: Index)
    requires AllMapped(x) && Apart(x)
    ensures AllApart(x)
  {
    forall p: nat
      ensures !Mergeable(x, p)
    {
      assert !MergeableAsIs(x, p);
    }
  }

  /** Two neighbours together are no larger than the heap. */
  lemma NeighboursFit(x: Index, o: Owner, p: nat)
    requires Tiled(x, o) && Adjacent(x, p)
    ensures x[p].hdr.blocks + x[End(x, p)].hdr.blocks <= |o.Keys|
  {
    var q := End(x, p);
    assert BlockOwns(x, o, p) && BlockOwns(x, o, q);
    var n := x[p].hdr.blocks + x[q].hdr.blocks;
    hide Tiled;
    PagesCount(p, n);
    assert Pages(p, n) <= o.Keys;
    SubsetSize(Pages(p, n), o.Keys);
  }

  /** In a heap smaller than 2 to the power 63 bytes any two blocks fit together, so nothing is left unmerged for its
      size. */
  lemma SmallHeapAlone(x: Index, o: Owner)
    requires Tiled(x, o) && |o.Keys| < SIGNED_PAGES && Apart(x)
    ensures Alone(x)
  {
    forall p: nat
      ensures !Touching(x, p)
    {
      assert !MergeableAsIs(x, p);
      if Adjacent(x, p) {
        NeighboursFit(x, o, p);
      }
    }
  }

  /** Only one block ends where another starts. */
  lemma OneBefore(x: Index, o: Owner, p: nat, q: nat)
    requires Tiled(x, o) && IsHdr(x, p) && IsHdr(x, q)
    ensures End(x, p) == End(x, q) ==> p == q
  {
    assert BlockOwns(x, o, p) && BlockOwns(x, o, q);
    assert o[End(x, p) - 1] == p && o[End(x, q) - 1] == q;
  }

  lemma ShapeKeepsApart(x: Index, y: Index)
    requires SameShape(x, y)
    ensures Apart(x) ==> Apart(y)
    ensures AllApart(x) ==> AllApart(y)
    ensures Alone(x) ==> Alone(y)
    ensures forall p: nat :: Mergeable(x, p) == Mergeable(y, p) && Touching(x, p) == Touching(y, p)
  {
    forall p: nat
      ensures Mergeable(x, p) == Mergeable(y, p) && Touching(x, p) == Touching(y, p)
      ensures MergeableAsIs(x, p) == MergeableAsIs(y, p)
    {
      assert p in x ==> SameBlock(x[p], y[p]);
      if IsHdr(x, p) {
        assert End(x, p) in x ==> SameBlock(x[End(x, p)], y[End(x, p)]);
      }
    }
  }

  lemma ShapeKeepsBut(x: Index, y: Index, h: nat)
    requires SameShape(x, y)
    ensures AloneBut(x, h) ==> AloneBut(y, h)
    ensures ApartBut(x, h) ==> ApartBut(y, h)
    ensures ApartAround(x, h) ==> ApartAround(y, h)
    ensures AloneNear(x, h) ==> AloneNear(y, h)
  {
    ShapeKeepsApart(x, y);
    forall p: nat
      ensures EndsAt(x, p, h) == EndsAt(y, p, h)
    {
      assert p in x ==> SameBlock(x[p], y[p]);
    }
  }

  lemma ShapeKeepsMapped(x: Index, y: Index)
    requires SameShape(x, y)
    ensures AllMapped(x) ==> AllMapped(y)
  {
  }

  /** A used block becomes free and mapped: only it and the block before it are affected. */
  lemma FreeKeepsApart(x: Index, o: Owner, h: nat, d: Hdr)
    requires Tiled(x, o) && IsUsed(x, h) && d.blocks == x[h].hdr.blocks && Apart(x)
    ensures ApartAround(NotInUse(x, h, d), h)
  {
    var y := NotInUse(x, h, d);
    assert BlockOwns(x, o, h);
    forall p: nat | p != h && MergeableAsIs(y, p)
      ensures EndsAt(y, p, h)
    {
      assert !MergeableAsIs(x, p);
    }
  }

  /** Merging h with the free block after it: nothing after the merged block fits if nothing fitted after the second. */
  lemma MergeNextKeepsApart(x: Index, o: Owner, h: nat)
    requires Tiled(x, o) && IsFree(x, h) && IsFree(x, End(x, h))
    requires ApartAround(x, h)
    requires !x[End(x, h)].hdr.unmapped
    ensures ApartBut(Merged(x, h, End(x, h)), h)
  {
    var b := End(x, h);
    var y := Merged(x, h, b);
    assert BlockOwns(x, o, h) && BlockOwns(x, o, b);
    forall p: nat | MergeableAsIs(y, p)
      ensures EndsAt(y, p, h)
    {
      if p == h {
        assert !MergeableAsIs(x, b);
      } else {
        OneBefore(x, o, p, h);
        assert MergeableAsIs(x, p) || End(y, p) == h;
      }
    }
  }

  lemma MergeNextKeepsEnds(x: Index, o: Owner, h: nat)
    requires Tiled(x, o) && IsFree(x, h) && IsFree(x, End(x, h))
    ensures var y := Merged(x, h, End(x, h));
            forall p: nat :: EndsAt(x, p, h) ==> EndsAt(y, p, h) && y[p] == x[p]
    ensures var y := Merged(x, h, End(x, h));
            forall p: nat :: EndsAt(y, p, h) ==> EndsAt(x, p, h)
  {
  }

  /** Merging h into the free block before it. */
  lemma MergePrevKeepsApart(x: Index, o: Owner, a: nat, h: nat)
    requires Tiled(x, o) && IsFree(x, a) && IsFree(x, h) && End(x, a) == h && ApartBut(x, h)
    requires !x[a].hdr.unmapped && !x[h].hdr.unmapped
    ensures Apart(Merged(x, a, h))
  {
    var y := Merged(x, a, h);
    assert BlockOwns(x, o, a) && BlockOwns(x, o, h);
    forall p: nat
      ensures !MergeableAsIs(y, p)
    {
      if MergeableAsIs(y, p) {
        OneBefore(x, o, p, a);
        assert p == a ==> MergeableAsIs(x, h);
        assert p != a ==> MergeableAsIs(x, p);
      }
    }
  }

  lemma SplitAlone(x: Index, o: Owner, h: nat, n: nat, d: Hdr)
    requires Tiled(x, o) && IsFree(x, h) && h < n < End(x, h) && d.free && d.blocks == End(x, h) - n
    requires !x[h].hdr.unmapped
    ensures Alone(x) ==> AloneBut(Split(x, h, n, d), n)
    ensures AloneBut(x, h) ==> AloneNear(Split(x, h, n, d), h)
  {
    var y := Split(x, h, n, d);
    assert BlockOwns(x, o, h);
    forall p: nat
      ensures Touching(y, p) ==> p == h || p == n || (Touching(x, p) && End(y, p) == End(x, p))
      ensures Touching(y, n) ==> Touching(x, h)
      ensures p != h && p != n && IsFree(y, p) ==> IsFree(x, p) && End(x, p) == End(y, p) != n
    {
      if IsHdr(x, p) {
        assert BlockOwns(x, o, p);
        OneBefore(x, o, p, h);
      }
    }
  }

  lemma UseAlone(x: Index, o: Owner, h: nat, d: Hdr)
    requires Tiled(x, o) && IsFree(x, h) && !d.free && AloneNear(x, h)
    ensures Alone(InUse(x, h, d))
  {
    var y := InUse(x, h, d);
    forall p: nat
      ensures !Touching(y, p)
    {
      assert Touching(y, p) ==> Touching(x, p);
    }
  }
}
