/** The steps that allocation and freeing are made of, each with all it does to the state of the block allocator: the
    index, the interval map and the free lists. */
module HeapOps {
  import opened HeapMap
  import opened FreeLists
  import opened Tiling
  import opened Coalescing
  import opened HeapAccount

  datatype State = State(x: Index, o: Owner, f: Lists)

  ghost predicate Good(s: State, loose: set<nat>, mis: Misplaced) {
    Tiled(s.x, s.o) && Consistent(s.x, s.f, loose, mis)
  }

  /** Nothing a caller of the allocator knows of has changed; the free lists count as many pages as before and delta
      more. */
  ghost predicate Quiet(s: State, t: State, delta: int) {
    t.o.Keys == s.o.Keys && UsedBlocks(t.x) == UsedBlocks(s.x) && Total(t.f.sums) == Total(s.f.sums) + delta
  }

  /** GC_remove_from_fl_at for the block at place k of list i. */
  ghost function Remove(s: State, i: nat, k: nat): State
    requires Sized(s.f) && i <= N_HBLK_FLS && k < |s.f.lists[i]|
    requires LinksExist(s.x, s.f.lists[i][k]) && s.x[s.f.lists[i][k]].hdr.blocks <= s.f.sums[i]
  {
    var h := s.f.lists[i][k];
    State(Unlinked(s.x, h), s.o, Removed(s.f, i, k, s.x[h].hdr))
  }

  lemma RemoveGood(s: State, i: nat, k: nat, loose: set<nat>, mis: Misplaced)
    requires Good(s, loose, mis) && i <= N_HBLK_FLS && k < |s.f.lists[i]|
    requires mis.Misplaced? ==> mis.page == s.f.lists[i][k]
    ensures var h := s.f.lists[i][k];
            && h != 0 && IsFree(s.x, h) && LinksExist(s.x, h) && s.x[h].hdr.blocks <= s.f.sums[i]
            && Good(Remove(s, i, k), loose + {h}, Nothing) && Quiet(s, Remove(s, i, k), 0 - s.x[h].hdr.blocks)
            && SameShape(s.x, Remove(s, i, k).x)
  {
    var h := s.f.lists[i][k];
    RemoveKeeps(s.x, s.f, i, k, loose, mis);
    LinksOnList(s.x, s.f, i, k, loose, mis);
    hide Consistent, Tiled, Unlinked, UsedBlocks, SameShape, LinksExist;
    TiledShape(s.x, Unlinked(s.x, h), s.o);
    TotalUpdate(s.f.sums, i, s.f.sums[i] - s.x[h].hdr.blocks);
  }

  /** GC_add_to_fl. */
  ghost function Add(s: State, h: nat): State
    requires Sized(s.f) && IsHdr(s.x, h)
    requires var head := s.f.heads[ListFor(s.x[h].hdr.blocks)]; head != 0 ==> IsHdr(s.x, head)
  {
    State(Pushed(s.x, h, s.f.heads[ListFor(s.x[h].hdr.blocks)]), s.o, Added(s.f, h, s.x[h].hdr.blocks))
  }

  lemma AddGood(s: State, h: nat, loose: set<nat>, mis: Misplaced)
    requires Good(s, loose, mis) && IsFree(s.x, h) && h in loose && (mis.Misplaced? ==> mis.page != h)
    ensures var head := s.f.heads[ListFor(s.x[h].hdr.blocks)]; head != 0 ==> IsHdr(s.x, head)
    ensures Good(Add(s, h), loose - {h}, mis) && Quiet(s, Add(s, h), s.x[h].hdr.blocks)
    ensures SameShape(s.x, Add(s, h).x)
  {
    var i := ListFor(s.x[h].hdr.blocks);
    BlockPositive(s, h);
    PushKeeps(s.x, s.f, h, loose, mis);
    hide Consistent, Tiled, Pushed, UsedBlocks, SameShape;
    TiledShape(s.x, Pushed(s.x, h, s.f.heads[i]), s.o);
    TotalUpdate(s.f.sums, i, s.f.sums[i] + s.x[h].hdr.blocks);
  }

  lemma BlockPositive(s: State, h: nat)
    requires Tiled(s.x, s.o) && IsHdr(s.x, h)
    ensures h > 0 && s.x[h].hdr.blocks > 0 && h in s.o && s.o[h] == h
  {
    assert BlockOwns(s.x, s.o, h);
    assert PageOwned(s.x, s.o, h);
  }

  /** Two loose blocks become one. */
  ghost function Merge(s: State, a: nat, b: nat): State
    requires IsHdr(s.x, a) && IsHdr(s.x, b)
  {
    State(Merged(s.x, a, b), Given(s.o, b, End(s.x, b), a), s.f)
  }

  lemma MergeGood(s: State, a: nat, b: nat, loose: set<nat>)
    requires Good(s, loose, Nothing) && IsFree(s.x, a) && IsFree(s.x, b) && End(s.x, a) == b && a in loose && b in loose
    ensures Good(Merge(s, a, b), loose - {b}, Nothing) && Quiet(s, Merge(s, a, b), 0)
    ensures IsFree(Merge(s, a, b).x, a) && End(Merge(s, a, b).x, a) == End(s.x, b)
  {
    BlockPositive(s, a);
    TiledMerge(s.x, s.o, a, b);
    MergedUsed(s.x, a, b);
    hide Tiled, UsedBlocks, Consistent;
    FrameKeeps(s.x, Merged(s.x, a, b), s.f, loose, loose - {b}, Nothing);
  }

  /** Loose block h is cut in two at page n; d is the header of the second part. */
  ghost function Cut(s: State, h: nat, n: nat, d: Hdr): State
    requires IsHdr(s.x, h) && h < n
  {
    State(Split(s.x, h, n, d), Given(s.o, n, End(s.x, h), n), s.f)
  }

  lemma CutGood(s: State, h: nat, n: nat, d: Hdr, loose: set<nat>)
    requires Good(s, loose, Nothing) && IsFree(s.x, h) && h in loose && h < n < End(s.x, h)
    requires d.free && d.blocks == End(s.x, h) - n
    ensures n !in s.x && Good(Cut(s, h, n, d), loose + {n}, Nothing) && Quiet(s, Cut(s, h, n, d), 0)
  {
    TiledSplit(s.x, s.o, h, n, d);
    SplitUsed(s.x, h, n, d);
    hide Tiled, UsedBlocks, Consistent;
    FrameKeeps(s.x, Split(s.x, h, n, d), s.f, loose, loose + {n}, Nothing);
  }

  /** Loose block h is given out with header d. */
  ghost function Use(s: State, h: nat, d: Hdr): State
    requires IsHdr(s.x, h)
  {
    State(InUse(s.x, h, d), s.o, s.f)
  }

  lemma UseGood(s: State, h: nat, d: Hdr, loose: set<nat>)
    requires Good(s, loose, Nothing) && IsFree(s.x, h) && h in loose
    requires !d.free && HdrOk(d) && d.blocks == s.x[h].hdr.blocks
    ensures Good(Use(s, h, d), loose - {h}, Nothing)
    ensures UsedBlocks(Use(s, h, d).x) == UsedBlocks(s.x)[h := d]
  {
    TiledUse(s.x, s.o, h, d);
    InUseUsed(s.x, s.o, h, d);
    var y := InUse(s.x, h, d);
    forall p: nat | IsFree(s.x, p) && p != h
      ensures p in y && y[p] == s.x[p]
    {
      assert BlockOwns(s.x, s.o, h) && BlockOwns(s.x, s.o, p);
    }
    hide Tiled, UsedBlocks, Consistent;
    FrameKeeps(s.x, y, s.f, loose, loose - {h}, Nothing);
  }

  /** Used block h is returned, and is loose with header d. */
  ghost function Return(s: State, h: nat, d: Hdr): State
    requires IsHdr(s.x, h)
  {
    State(NotInUse(s.x, h, d), s.o, s.f)
  }

  lemma ReturnGood(s: State, h: nat, d: Hdr, loose: set<nat>)
    requires Good(s, loose, Nothing) && IsUsed(s.x, h) && h !in loose && d.free && d.blocks == s.x[h].hdr.blocks
    ensures Counts(h, s.x[h].hdr.blocks).Keys <= s.x.Keys
    ensures Good(Return(s, h, d), loose + {h}, Nothing)
    ensures UsedBlocks(Return(s, h, d).x) == UsedBlocks(s.x) - {h}
  {
    TiledFree(s.x, s.o, h, d);
    NotInUseUsed(s.x, s.o, h, d);
    var y := NotInUse(s.x, h, d);
    forall p: nat | IsFree(s.x, p)
      ensures p in y && y[p] == s.x[p]
    {
      assert BlockOwns(s.x, s.o, h) && BlockOwns(s.x, s.o, p);
    }
    hide Tiled, UsedBlocks, Consistent;
    FrameKeeps(s.x, y, s.f, loose, loose + {h}, Nothing);
  }

  /** New pages from p on join the heap as one loose block. */
  ghost function Extend(s: State, p: nat, d: Hdr): State {
    State(s.x[p := Header(d)], Extended(s.o, p, d.blocks), s.f)
  }

  lemma ExtendGood(s: State, p: nat, d: Hdr, loose: set<nat>)
    requires Good(s, loose, Nothing) && NewPages(s.o, p, d.blocks) && d.free
    ensures Good(Extend(s, p, d), loose + {p}, Nothing) && UsedBlocks(Extend(s, p, d).x) == UsedBlocks(s.x)
    ensures Extend(s, p, d).o.Keys == s.o.Keys + Pages(p, d.blocks) && s.o.Keys !! Pages(p, d.blocks)
  {
    TiledExtend(s.x, s.o, p, d);
    assert p in Pages(p, d.blocks) && p !in s.o && p !in s.x;
    SameUsed(s.x, s.x[p := Header(d)]);
    hide Tiled, UsedBlocks, Consistent;
    FrameKeeps(s.x, s.x[p := Header(d)], s.f, loose, loose + {p}, Nothing);
  }

  /** GC_split_block up to its call of GC_add_to_fl: the part of h from n on takes the place of h on list i. */
  ghost function Halve(s: State, i: nat, k: nat, n: nat): State
    requires Sized(s.f) && i <= N_HBLK_FLS && k < |s.f.lists[i]| && s.f.lists[i][k] < n
    requires LinksExist(s.x, s.f.lists[i][k]) && n - s.f.lists[i][k] <= s.x[s.f.lists[i][k]].hdr.blocks <= s.f.sums[i]
  {
    var h := s.f.lists[i][k];
    State(Halved(s.x, h, n, n - h), Given(s.o, n, End(s.x, h), n), HalvedLists(s.f, i, k, n, n - h))
  }

  lemma HalvedIsSplit(x: Index, h: nat, n: nat)
    requires LinksExist(x, h) && h < n && n - h <= x[h].hdr.blocks && n !in x
    requires x[h].hdr.prev != h && x[h].hdr.next != h && (x[h].hdr.prev != 0 ==> x[h].hdr.prev != x[h].hdr.next)
    ensures SameShape(Split(x, h, n, TailHdr(x, h, n - h)), Halved(x, h, n, n - h))
    ensures Halved(x, h, n, n - h)[h] == Header(x[h].hdr.(blocks := n - h))
  {
  }

  lemma HalveLinks(s: State, i: nat, k: nat)
    requires Consistent(s.x, s.f, {}, Nothing) && i <= N_HBLK_FLS && k < |s.f.lists[i]|
    ensures Sized(s.f)
    ensures var h := s.f.lists[i][k];
            && IsFree(s.x, h) && LinksExist(s.x, h) && s.x[h].hdr.blocks <= s.f.sums[i]
            && s.x[h].hdr.prev != h && s.x[h].hdr.next != h
            && (s.x[h].hdr.prev != 0 ==> s.x[h].hdr.prev != s.x[h].hdr.next)
  {
    LinksOnList(s.x, s.f, i, k, {}, Nothing);
    assert ListOk(s.x, s.f.lists[i], s.f.heads[i], s.f.sums[i], i, {}, Nothing);
    LinksThere(s.x, s.f.lists[i], s.f.heads[i], k);
  }

  lemma GivenKeys(o: Owner, from: nat, to: nat, b: nat)
    ensures Given(o, from, to, b).Keys == o.Keys
  {
  }

  lemma HalveGood(s: State, i: nat, k: nat, n: nat)
    requires Good(s, {}, Nothing) && i <= N_HBLK_FLS && k < |s.f.lists[i]|
    requires var h := s.f.lists[i][k]; IsHdr(s.x, h) && h < n < End(s.x, h)
    ensures var h := s.f.lists[i][k];
            && n !in s.x && IsFree(s.x, h) && LinksExist(s.x, h) && s.x[h].hdr.blocks <= s.f.sums[i]
            && Good(Halve(s, i, k, n), {h}, Misplaced(n, i)) && Quiet(s, Halve(s, i, k, n), h - n)
            && SameShape(Split(s.x, h, n, TailHdr(s.x, h, n - h)), Halve(s, i, k, n).x)
            && Halve(s, i, k, n).x[h] == Header(s.x[h].hdr.(blocks := n - h))
  {
    hide Tiled, UsedBlocks, Consistent, LinksExist, SameShape, Halved, Split, Given;
    HalveLinks(s, i, k);
    var h := s.f.lists[i][k];
    TiledSplit(s.x, s.o, h, n, TailHdr(s.x, h, n - h));
    HalveKeeps(s.x, s.f, i, k, n, n - h);
    GivenKeys(s.o, n, End(s.x, h), n);
    HalvedIsSplit(s.x, h, n);
    var y, z := Halved(s.x, h, n, n - h), Split(s.x, h, n, TailHdr(s.x, h, n - h));
    TiledShape(z, y, Given(s.o, n, End(s.x, h), n));
    TotalUpdate(s.f.sums, i, s.f.sums[i] - (n - h));
  }

  lemma FlagGood(s: State, h: nat, u: bool, loose: set<nat>, mis: Misplaced)
    requires Good(s, loose, mis) && IsFree(s.x, h)
    ensures Good(s.(x := Flagged(s.x, h, u)), loose, mis) && Quiet(s, s.(x := Flagged(s.x, h, u)), 0)
  {
    FlagKeeps(s.x, s.f, h, u, loose, mis);
    FlagTiled(s.x, s.o, h, u);
  }

  lemma FlagTiled(x: Index, o: Owner, h: nat, u: bool)
    requires Tiled(x, o) && IsFree(x, h)
    ensures Tiled(Flagged(x, h, u), o)
  {
    var y := Flagged(x, h, u);
    forall p: nat | p in o
      ensures PageOwned(y, o, p)
    {
      assert PageOwned(x, o, p);
    }
    forall b: nat | IsHdr(y, b)
      ensures BlockOwns(y, o, b)
    {
      assert BlockOwns(x, o, b);
    }
  }
}
