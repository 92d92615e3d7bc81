/** The heap block allocator (allchblk.c and GC_add_to_heap in alloc.c). Sizes are counted in pages. Allocation of
    headers and index pages is taken to succeed. */
module BlockAllocation {
  import opened Basics
  import opened HeapMap
  import opened FreeLists
  import opened Tiling
  import opened Coalescing
  import opened HeapAccount
  import opened HeapOps
  import HeaderIndex
  import BlackListing

  /** Header h is marked free. */
  function Freed(x: Index, h: nat): Index
    requires IsHdr(x, h)
  {
    x[h := Header(x[h].hdr.(free := true))]
  }

  const ADDRESS_PAGES := 0x10_0000_0000_0000

  lemma EmptyHeapGood(s: State)
    requires s.x == map[] && s.o == map[] && Sized(s.f)
    requires forall i :: 0 <= i <= N_HBLK_FLS ==> s.f.lists[i] == [] && s.f.heads[i] == 0 && s.f.sums[i] == 0
    ensures Good(s, {}, Nothing) && Total(s.f.sums) == 0
  {
    NothingFree(s.f.sums);
  }

  /** A heap section: its first page and its size. */
  datatype Sect = Sect(start: nat, pages: nat)

  predicate InSect(t: Sect, p: nat) { t.start <= p < t.start + t.pages }

  /** The heap is what its sections cover. */
  ghost predicate Sectioned(o: Owner, sects: seq<Sect>) {
    forall p: nat :: p in o <==> exists i :: 0 <= i < |sects| && InSect(sects[i], p)
  }

  /** Every heap address lies strictly above least and below greatest. */
  ghost predicate Plausible(o: Owner, least: nat, greatest: nat) {
    forall p: nat :: p in o ==> 0 < least < p * HBLKSIZE && (p + 1) * HBLKSIZE <= greatest
  }

  /** GC_freehblk and its callers take used blocks to be mapped. */
  ghost predicate UsedMapped(x: Index) {
    forall b: nat :: b in UsedBlocks(x) ==> !UsedBlocks(x)[b].unmapped
  }

  lemma {:induction false} NothingFree(sums: seq<nat>)
    requires forall i :: 0 <= i < |sums| ==> sums[i] == 0
    ensures Total(sums) == 0
  {
    if sums != [] {
      NothingFree(sums[1..]);
    }
  }

  lemma PlaceOf(s: State, h: nat, loose: set<nat>) returns (k: nat)
    requires Good(s, loose, Nothing) && IsFree(s.x, h) && h !in loose
    ensures var i := ListFor(s.x[h].hdr.blocks); k < |s.f.lists[i]| && s.f.lists[i][k] == h
  {
    var i := ListFor(s.x[h].hdr.blocks);
    k :| k < |s.f.lists[i]| && s.f.lists[i][k] == h;
  }

  lemma PrevLink(s: State, i: nat, k: nat, loose: set<nat>, mis: Misplaced)
    requires Good(s, loose, mis) && i <= N_HBLK_FLS && k < |s.f.lists[i]|
    ensures var h := s.f.lists[i][k]; IsHdr(s.x, h) && (s.x[h].hdr.prev == 0 <==> k == 0) && s.x[h].hdr.prev != h
  {
    LinksOnList(s.x, s.f, i, k, loose, mis);
    assert ListOk(s.x, s.f.lists[i], s.f.heads[i], s.f.sums[i], i, loose, mis);
    LinksThere(s.x, s.f.lists[i], s.f.heads[i], k);
  }

  lemma BlockNotEmpty(s: State, a: nat, loose: set<nat>)
    requires Good(s, loose, Nothing) && IsHdr(s.x, a)
    ensures a < End(s.x, a) && a > 0
  {
    BlockPositive(s, a);
  }

  /** The header at p has changed at most in its links. */
  predicate SameAt(x: Index, y: Index, p: nat) { p in x && p in y && SameBlock(x[p], y[p]) }

  lemma ShapeAt(x: Index, y: Index, p: nat)
    requires SameShape(x, y) && p in x
    ensures SameAt(x, y, p)
  {
  }

  lemma ShapeKeepsEnds(x: Index, y: Index, h: nat)
    requires SameShape(x, y)
    ensures forall p: nat :: EndsAt(x, p, h) == EndsAt(y, p, h)
    ensures forall p: nat :: EndsAt(x, p, h) ==> y[p].hdr.unmapped == x[p].hdr.unmapped
  {
  }

  lemma MergedMapped(x: Index, a: nat, b: nat)
    requires IsHdr(x, a) && IsHdr(x, b)
    ensures IsFree(x, a) && a != b ==>
              IsFree(Merged(x, a, b), a) && Merged(x, a, b)[a].hdr.unmapped == x[a].hdr.unmapped
    ensures IsFree(x, a) && a != b ==> Merged(x, a, b)[a].hdr.blocks == x[a].hdr.blocks + x[b].hdr.blocks
    ensures AllMapped(x) ==> AllMapped(Merged(x, a, b))
  {
  }

  lemma MergeFacts(t: State, h: nat, loose: set<nat>)
    requires Good(t, loose, Nothing) && IsFree(t.x, h) && IsFree(t.x, End(t.x, h)) && !t.x[End(t.x, h)].hdr.unmapped
    ensures var y := Merged(t.x, h, End(t.x, h));
            && (ApartAround(t.x, h) ==> ApartBut(y, h))
            && (forall p: nat :: EndsAt(y, p, h) ==> EndsAt(t.x, p, h))
            && (forall p: nat :: EndsAt(t.x, p, h) ==> EndsAt(y, p, h) && y[p] == t.x[p])
  {
    MergeNextKeepsEnds(t.x, t.o, h);
    if ApartAround(t.x, h) {
      MergeNextKeepsApart(t.x, t.o, h);
    }
  }

  lemma NotMergeable(x: Index, h: nat)
    requires IsFree(x, h) && !x[h].hdr.unmapped
    requires var e := Lookup(x, End(x, h));
             !(e.Header? && e.hdr.free && !e.hdr.unmapped && x[h].hdr.blocks + e.hdr.blocks < SIGNED_PAGES)
    ensures ApartAround(x, h) ==> ApartBut(x, h)
  {
  }

  lemma MergePrevFacts(t: State, a: nat, h: nat, loose: set<nat>)
    requires Good(t, loose, Nothing) && IsFree(t.x, a) && IsFree(t.x, h) && End(t.x, a) == h
    requires !t.x[a].hdr.unmapped && !t.x[h].hdr.unmapped
    ensures ApartBut(t.x, h) ==> Apart(Merged(t.x, a, h))
  {
    if ApartBut(t.x, h) {
      MergePrevKeepsApart(t.x, t.o, a, h);
    }
  }

  lemma NothingBefore(s: State, x: Index, h: nat, prev: Option<nat>)
    requires Good(s, {h}, Nothing) && s.x == x
    requires IsFree(x, h) &&
             ((prev.None? && forall p: nat :: !EndsAt(x, p, h)) || (prev.Some? && EndsAt(x, prev.value, h)))
    requires prev.Some? ==> x[prev.value].hdr.unmapped || x[h].hdr.blocks + x[prev.value].hdr.blocks >= SIGNED_PAGES
    ensures ApartBut(x, h) ==> Apart(x)
  {
    if ApartBut(x, h) {
      forall p: nat
        ensures !MergeableAsIs(x, p)
      {
        if EndsAt(x, p, h) {
          OneBefore(x, s.o, p, prev.value);
        }
      }
    }
  }

  /** h is a used, mapped block whose other pages either all have entries or none has. */
  predicate Freeable(x: Index, h: nat) {
    && IsUsed(x, h) && !x[h].hdr.unmapped && x[h].hdr.objSz > 0 && x[h].hdr.blocks == ObjSzToBlocks(x[h].hdr.objSz)
    && (Counts(h, x[h].hdr.blocks).Keys <= x.Keys || Counts(h, x[h].hdr.blocks).Keys !! x.Keys)
  }

  /** The header GC_freehblk gives to block h. */
  function FreeHdr(x: Index, h: nat): Hdr
    requires IsHdr(x, h)
  {
    x[h].hdr.(free := true)
  }

  /** Freeing a used block of a consistent heap. */
  lemma FreeingIsAllowed(s: State, h: nat)
    requires Good(s, {}, Nothing) && IsUsed(s.x, h) && UsedMapped(s.x)
    ensures Freeable(s.x, h) && Good(s.(x := NotInUse(s.x, h, FreeHdr(s.x, h))), {h}, Nothing)
    ensures UsedBlocks(NotInUse(s.x, h, FreeHdr(s.x, h))) == UsedBlocks(s.x) - {h}
    ensures Apart(s.x) ==> ApartAround(NotInUse(s.x, h, FreeHdr(s.x, h)), h)
    ensures AllMapped(s.x) ==> AllMapped(NotInUse(s.x, h, FreeHdr(s.x, h)))
  {
    var d := FreeHdr(s.x, h);
    ReturnGood(s, h, d, {});
    assert {} + {h} == {h};
    assert h in UsedBlocks(s.x) && UsedBlocks(s.x)[h] == s.x[h].hdr;
    assert BlockOwns(s.x, s.o, h);
    if Apart(s.x) {
      FreeKeepsApart(s.x, s.o, h, d);
    }
  }

  /** The block GC_add_to_heap makes of new pages, which has a header but no counts. */
  function NewHdr(n: nat): Hdr { Hdr(n, n * HBLKSIZE, false, false, 0, 0) }

  /** Freeing the new block only sets its flag: there are no counts to remove. */
  lemma NewBlockFreed(s: State, p: nat, n: nat)
    requires Tiled(s.x, s.o) && NewPages(s.o, p, n)
    ensures var x := s.x[p := Header(NewHdr(n))];
            && Freeable(x, p) && FreeHdr(x, p) == NewHdr(n).(free := true)
            && NotInUse(x, p, FreeHdr(x, p)) == s.x[p := Header(FreeHdr(x, p))]
  {
    assert ObjSzToBlocks(n * HBLKSIZE) == n;
    forall q: nat | q in Counts(p, n)
      ensures q !in s.x && q != p
    {
      assert q !in s.o;
    }
  }

  lemma NewBlockApart(s: State, p: nat, d: Hdr)
    requires p !in s.x
    ensures Apart(s.x) ==> ApartAround(s.x[p := Header(d)], p)
    ensures AllMapped(s.x) && !d.unmapped ==> AllMapped(s.x[p := Header(d)])
  {
    var y := s.x[p := Header(d)];
    forall q: nat | MergeableAsIs(y, q) && Apart(s.x)
      ensures q == p || EndsAt(y, q, p)
    {
      assert !MergeableAsIs(s.x, q);
    }
  }

  lemma NotThere(s: State, p: nat, n: nat)
    requires Good(s, {}, Nothing) && NewPages(s.o, p, n)
    ensures Tiled(s.x, s.o) && p !in s.x
  {
    assert p !in s.o;
  }

  lemma AddingIsAllowed(s: State, p: nat, n: nat)
    requires Good(s, {}, Nothing) && NewPages(s.o, p, n)
    ensures var x := s.x[p := Header(NewHdr(n))];
            && Freeable(x, p)
            && Good(State(NotInUse(x, p, FreeHdr(x, p)), Extended(s.o, p, n), s.f), {p}, Nothing)
            && UsedBlocks(NotInUse(x, p, FreeHdr(x, p))) == UsedBlocks(s.x)
            && (Apart(s.x) ==> ApartAround(NotInUse(x, p, FreeHdr(x, p)), p))
            && (AllMapped(s.x) ==> AllMapped(NotInUse(x, p, FreeHdr(x, p))))
    ensures Extended(s.o, p, n).Keys == s.o.Keys + Pages(p, n) && s.o.Keys !! Pages(p, n)
  {
    hide Good, Tiled, Apart, ApartAround, AllMapped, Freeable, FreeHdr, NotInUse, NewPages, UsedBlocks, Extended, Pages;
    var d := NewHdr(n).(free := true);
    NotThere(s, p, n);
    NewBlockFreed(s, p, n);
    NewBlockApart(s, p, d);
    ExtendGood(s, p, d, {});
    assert {} + {p} == {p};
  }

  lemma SameKeys(o: Owner, o': Owner, sects: seq<Sect>, least: nat, greatest: nat)
    requires o.Keys == o'.Keys
    ensures Sectioned(o, sects) ==> Sectioned(o', sects)
    ensures Plausible(o, least, greatest) ==> Plausible(o', least, greatest)
  {
  }

  lemma MoreHeap(o: Owner, o': Owner, sects: seq<Sect>, p: nat, n: nat)
    requires Sectioned(o, sects) && o'.Keys == o.Keys + Pages(p, n)
    ensures Sectioned(o', sects + [Sect(p, n)])
  {
    var t := sects + [Sect(p, n)];
    forall q: nat
      ensures q in o' <==> exists i :: 0 <= i < |t| && InSect(t[i], q)
    {
      if q in Pages(p, n) {
        assert InSect(t[|sects|], q);
      }
      if q in o {
        var i :| 0 <= i < |sects| && InSect(sects[i], q);
        assert InSect(t[i], q);
      }
    }
  }

  lemma MorePlausible(o: Owner, o': Owner, least: nat, greatest: nat, least': nat, greatest': nat, p: nat, n: nat)
    requires Plausible(o, least, greatest) && o'.Keys == o.Keys + Pages(p, n) && p > 1 && n > 0
    requires least' == if p * HBLKSIZE <= least || least == 0 then p * HBLKSIZE - 8 else least
    requires greatest' == if (p + n) * HBLKSIZE >= greatest then (p + n) * HBLKSIZE else greatest
    ensures Plausible(o', least', greatest')
  {
  }

  /** Only the first n pages of h count. */
  function Trimmed(x: Index, h: nat, n: nat): Index
    requires IsHdr(x, h)
  {
    x[h := Header(x[h].hdr.(blocks := n))]
  }

  lemma TrimCommutes(x: Index, h: nat, rest: nat, d: Hdr, head: nat)
    requires IsHdr(x, h) && h < rest && head != h && head != rest && (head != 0 ==> IsHdr(x, head))
    ensures Trimmed(Pushed(x[rest := Header(d)], rest, head), h, rest - h) == Pushed(Split(x, h, rest, d), rest, head)
  {
  }

  function RestHdr(n: nat): Hdr { Hdr(n, 0, true, false, 0, 0) }

  /** Cutting loose block h at rest and putting the second part on its list. */
  lemma CutAndAdd(s: State, h: nat, rest: nat)
    requires Good(s, {h}, Nothing) && IsFree(s.x, h) && h < rest < End(s.x, h)
    ensures var d := RestHdr(End(s.x, h) - rest); var z := Cut(s, h, rest, d);
            var head := s.f.heads[ListFor(d.blocks)];
            && IsHdr(z.x, rest) && head != h && head != rest && (head != 0 ==> IsHdr(s.x, head) && IsHdr(z.x, head))
            && Good(Add(z, rest), {h}, Nothing) && Quiet(s, Add(z, rest), End(s.x, h) - rest)
            && SameShape(z.x, Add(z, rest).x)
  {
    var d := RestHdr(End(s.x, h) - rest);
    var z := Cut(s, h, rest, d);
    CutGood(s, h, rest, d, {h});
    assert {h} + {rest} == {h, rest} && {h, rest} - {rest} == {h};
    HeadOnList(z.x, z.f, ListFor(d.blocks), {h, rest}, Nothing);
    HeadOnList(s.x, s.f, ListFor(d.blocks), {h}, Nothing);
    BlockPositive(s, h);
    hide Consistent, Tiled, Given;
    AddGood(z, rest, {h, rest}, Nothing);
  }

  lemma CutAndAddAlone(s: State, h: nat, rest: nat, y: Index)
    requires Good(s, {h}, Nothing) && IsFree(s.x, h) && h < rest < End(s.x, h)
    requires SameShape(Cut(s, h, rest, RestHdr(End(s.x, h) - rest)).x, y)
    ensures !s.x[h].hdr.unmapped && AloneBut(s.x, h) ==> AloneNear(y, h)
    ensures AllMapped(s.x) ==> AllMapped(y)
  {
    var d := RestHdr(End(s.x, h) - rest);
    var z := Cut(s, h, rest, d);
    ShapeKeepsMapped(z.x, y);
    if !s.x[h].hdr.unmapped {
      CutAlone(s, h, rest, d);
      ShapeKeepsBut(z.x, y, h);
    }
  }

  lemma CutAlone(s: State, h: nat, rest: nat, d: Hdr)
    requires Good(s, {h}, Nothing) && IsFree(s.x, h) && !s.x[h].hdr.unmapped && h < rest < End(s.x, h)
    requires d.free && d.blocks == End(s.x, h) - rest
    ensures AloneBut(s.x, h) ==> AloneNear(Cut(s, h, rest, d).x, h)
  {
    SplitAlone(s.x, s.o, h, rest, d);
  }

  /** Header n is not (yet) marked free. */
  function Unfreed(x: Index, n: nat): Index
    requires IsHdr(x, n)
  {
    x[n := Header(x[n].hdr.(free := false))]
  }

  /** Marking n free commutes with putting h on its list. */
  lemma FreeingCommutes(y: Index, h: nat, n: nat, head: nat)
    requires IsFree(y, h) && IsFree(y, n) && h != n && (head != 0 ==> IsHdr(y, head)) && h != head
    ensures Freed(Unfreed(y, n), h) == Unfreed(y, n)
    ensures IsHdr(Pushed(Unfreed(y, n), h, head), n)
    ensures Freed(Pushed(Unfreed(y, n), h, head), n) == Pushed(y, h, head)
  {
  }

  lemma HalvedUnfreed(x: Index, h: nat, n: nat, hs: nat, blank: Hdr)
    requires LinksExist(x, h) && hs <= x[h].hdr.blocks && n !in x && n > h && n != 0
    ensures var d := x[h].hdr; var x1 := x[n := Header(blank)];
            && IsHdr(Halved(x, h, n, hs), n)
            && IsHdr(Replaced(x1, n, Hdr(d.blocks - hs, 0, false, false, 0, 0), d.prev, d.next), h)
            && Unfreed(Halved(x, h, n, hs), n)
               == Replaced(x1, n, Hdr(d.blocks - hs, 0, false, false, 0, 0), d.prev,
                           d.next)[h := Header(d.(blocks := hs))]
  {
  }

  /** Block number k of list i can be cut at page n. */
  ghost predicate CanSplit(s: State, i: nat, k: nat, h: nat, n: nat) {
    && Good(s, {}, Nothing) && i <= N_HBLK_FLS && k < |s.f.lists[i]| && s.f.lists[i][k] == h
    && IsHdr(s.x, h) && h < n < End(s.x, h) && !s.x[h].hdr.unmapped
  }

  /** ... so its links are in order. */
  lemma CanSplitFacts(s: State, i: nat, k: nat, h: nat, n: nat)
    requires CanSplit(s, i, k, h, n)
    ensures n !in s.x && n != 0 && IsFree(s.x, h) && LinksExist(s.x, h) && s.x[h].hdr.blocks <= s.f.sums[i]
    ensures Sized(s.f) && (s.x[h].hdr.prev == 0 <==> k == 0)
  {
    HalveGood(s, i, k, n);
    PrevLink(s, i, k, {}, Nothing);
    BlockPositive(s, h);
  }

  lemma SplitSteps(s: State, i: nat, k: nat, h: nat, n: nat, y: State)
    requires CanSplit(s, i, k, h, n) && Sized(s.f) && LinksExist(s.x, h) && s.x[h].hdr.blocks <= s.f.sums[i]
    requires y == Halve(s, i, k, n)
    ensures Good(y, {h}, Misplaced(n, i)) && IsFree(y.x, h) && y.x[h].hdr.blocks == n - h && IsFree(y.x, n)
    ensures var head := y.f.heads[ListFor(n - h)]; head != h && (head != 0 ==> IsHdr(y.x, head))
    ensures Good(Add(y, h), {}, Misplaced(n, i)) && Quiet(s, Add(y, h), 0)
    ensures SameShape(y.x, Add(y, h).x) && SameShape(Split(s.x, h, n, TailHdr(s.x, h, n - h)), y.x)
  {
    HalveGood(s, i, k, n);
    BlockPositive(s, h);
    var z := Split(s.x, h, n, TailHdr(s.x, h, n - h));
    ShapeAt(z, y.x, n);
    hide Tiled, Consistent, Halve, LinksExist, SameShape;
    AddGood(y, h, {h}, Misplaced(n, i));
    assert {h} - {h} == {};
    HeadOnList(y.x, y.f, ListFor(n - h), {h}, Misplaced(n, i));
  }

  /** What GC_split_block comes to: n has what h had beyond it, and only h may be next to it. */
  lemma SplitResult(s: State, i: nat, k: nat, h: nat, n: nat, y: Index, z: Index)
    requires CanSplit(s, i, k, h, n)
    requires SameShape(Split(s.x, h, n, TailHdr(s.x, h, n - h)), y) && SameShape(y, z)
    ensures IsFree(z, n) && End(z, n) == End(s.x, h) && !z[n].hdr.unmapped
    ensures Alone(s.x) ==> AloneBut(z, n)
    ensures AllMapped(s.x) ==> AllMapped(z)
  {
    var x1 := Split(s.x, h, n, TailHdr(s.x, h, n - h));
    CanSplitFacts(s, i, k, h, n);
    SplitAlone(s.x, s.o, h, n, TailHdr(s.x, h, n - h));
    ShapeAt(x1, y, n);
    ShapeAt(y, z, n);
    ShapeKeepsBut(x1, y, n);
    ShapeKeepsBut(y, z, n);
    ShapeKeepsMapped(x1, y);
    ShapeKeepsMapped(y, z);
  }

  /** The header setup_header gives to a block of n pages. */
  predicate SetUp(d: Hdr, n: nat, sz: nat) { d.blocks == n && d.objSz == sz && !d.free && !d.unmapped }

  lemma UseSteps(s: State, x: Index, h: nat, n: nat, d: Hdr)
    requires IsFree(x, h) && s.x == Trimmed(x, h, n) && Good(s, {h}, Nothing)
    requires SetUp(d, n, d.objSz) && d.objSz > 0 && d.objSz % GRANULE_BYTES == 0 && n == ObjSzToBlocks(d.objSz)
    ensures (x + Counts(h, n))[h := Header(d)] == Use(s, h, d).x
    ensures Good(Use(s, h, d), {}, Nothing) && UsedBlocks(Use(s, h, d).x) == UsedBlocks(x)[h := d]
    ensures AloneNear(s.x, h) ==> Alone(Use(s, h, d).x)
    ensures AllMapped(s.x) ==> AllMapped(Use(s, h, d).x)
  {
    UseGood(s, h, d, {h});
    assert {h} - {h} == {};
    SameUsed(x, s.x);
    if AloneNear(s.x, h) {
      UseAlone(s.x, s.o, h, d);
    }
  }

  /** While a block is being dropped page by page: what is left of it, from p on, still counts as one free block. */
  function Left(x: Index, p: nat, limit: nat, d: Hdr): Index {
    if p < limit then x[p := Header(d.(blocks := limit - p, free := true, unmapped := false))] else x
  }

  function LeftOwner(o: Owner, p: nat, limit: nat): Owner {
    if p < limit then Given(o, p, limit, p) else o
  }

  ghost function LeftLoose(p: nat, limit: nat): set<nat> { if p < limit then {p} else {} }

  function LeftHdr(n: nat, d: Hdr): Hdr { d.(blocks := n, free := true, unmapped := false) }

  lemma DropIndex(x: Index, p: nat, limit: nat, d: Hdr, e: Hdr)
    requires p < limit
    ensures var y := Left(x, p, limit, d);
            && (p + 1 == limit ==> InUse(y, p, e) == Left(x[p := Header(e)], p + 1, limit, d))
            && (p + 1 < limit ==>
                  InUse(Split(y, p, p + 1, LeftHdr(limit - (p + 1), d)), p, e) ==
                        Left(x[p := Header(e)], p + 1, limit, d))
  {
  }

  lemma UseFacts(c: State, p: nat, e: Hdr, loose: set<nat>)
    requires Good(c, loose, Nothing) && IsFree(c.x, p) && p in loose && SetUp(e, 1, HBLKSIZE) && c.x[p].hdr.blocks == 1
    ensures Good(Use(c, p, e), loose - {p}, Nothing) && UsedBlocks(Use(c, p, e).x) == UsedBlocks(c.x)[p := e]
    ensures AloneNear(c.x, p) ==> Alone(Use(c, p, e).x) && forall q: nat :: AloneBut(Use(c, p, e).x, q)
    ensures AloneBut(c.x, p) ==> AloneNear(c.x, p)
    ensures AllMapped(c.x) ==> AllMapped(Use(c, p, e).x)
  {
    UseGood(c, p, e, loose);
    if AloneNear(c.x, p) {
      UseAlone(c.x, c.o, p, e);
    }
  }

  /** The state once page p of the block has been set up with header e. */
  ghost function DropState(s: State, x: Index, p: nat, limit: nat, d: Hdr, e: Hdr): State {
    State(Left(x[p := Header(e)], p + 1, limit, d), LeftOwner(s.o, p + 1, limit), s.f)
  }

  ghost predicate DropGoes(s: State, t: State, p: nat, limit: nat, e: Hdr) {
    && Good(t, LeftLoose(p + 1, limit), Nothing) && t.o.Keys == s.o.Keys
    && UsedBlocks(t.x) == UsedBlocks(s.x)[p := e]
    && (AloneBut(s.x, p) ==> Alone(t.x) && AloneBut(t.x, p + 1))
    && (AllMapped(s.x) ==> AllMapped(t.x))
  }

  lemma DropLast(s: State, x: Index, p: nat, limit: nat, d: Hdr, e: Hdr)
    requires p + 1 == limit && s.x == Left(x, p, limit, d) && Good(s, {p}, Nothing) && SetUp(e, 1, HBLKSIZE)
    ensures DropGoes(s, DropState(s, x, p, limit, d, e), p, limit, e)
  {
    DropIndex(x, p, limit, d, e);
    assert s.x[p] == Header(LeftHdr(limit - p, d));
    UseFacts(s, p, e, {p});
    assert {p} - {p} == {};
    hide InUse, Left, Good, UsedBlocks, AllMapped, AloneNear, AloneBut, Alone;
    assert Use(s, p, e) == DropState(s, x, p, limit, d, e);
  }

  /** The page to be dropped next is cut off. */
  ghost function DropCut(s: State, p: nat, limit: nat, d: Hdr): State
    requires IsHdr(s.x, p) && p + 1 < limit
  {
    Cut(s, p, p + 1, LeftHdr(limit - (p + 1), d))
  }

  lemma DropCutFacts(s: State, x: Index, p: nat, limit: nat, d: Hdr)
    requires p + 1 < limit && s.x == Left(x, p, limit, d) && Good(s, {p}, Nothing)
    ensures IsFree(s.x, p)
    ensures var c := DropCut(s, p, limit, d);
            && Good(c, {p, p + 1}, Nothing) && c.o.Keys == s.o.Keys && UsedBlocks(c.x) == UsedBlocks(s.x)
            && IsFree(c.x, p) && c.x[p].hdr.blocks == 1
            && (AloneBut(s.x, p) ==> AloneNear(c.x, p))
            && (AllMapped(s.x) ==> AllMapped(c.x))
  {
    var rest := LeftHdr(limit - (p + 1), d);
    assert s.x[p] == Header(LeftHdr(limit - p, d));
    hide Left, Good, UsedBlocks, AllMapped, Given, AloneNear, AloneBut, Split;
    CutGood(s, p, p + 1, rest, {p});
    CutAlone(s, p, p + 1, rest);
    CutMapped(s, p, p + 1, rest);
    assert {p} + {p + 1} == {p, p + 1};
  }

  lemma DropNext(s: State, x: Index, p: nat, limit: nat, d: Hdr, e: Hdr)
    requires p + 1 < limit && s.x == Left(x, p, limit, d) && Good(s, {p}, Nothing) && SetUp(e, 1, HBLKSIZE)
    ensures DropGoes(s, DropState(s, x, p, limit, d, e), p, limit, e)
  {
    DropCutFacts(s, x, p, limit, d);
    var c := DropCut(s, p, limit, d);
    UseFacts(c, p, e, {p, p + 1});
    DropStateNext(s, x, p, limit, d, e);
    hide InUse, Split, Left, Good, UsedBlocks, AllMapped, Given, AloneNear, AloneBut, Alone, DropCut, DropState, Use;
    assert {p, p + 1} - {p} == {p + 1};
  }

  lemma DropStateNext(s: State, x: Index, p: nat, limit: nat, d: Hdr, e: Hdr)
    requires p + 1 < limit && s.x == Left(x, p, limit, d) && IsFree(s.x, p) && IsFree(DropCut(s, p, limit, d).x, p)
    ensures Use(DropCut(s, p, limit, d), p, e) == DropState(s, x, p, limit, d, e)
  {
    DropIndex(x, p, limit, d, e);
    assert s.x[p] == Header(LeftHdr(limit - p, d));
    hide InUse, Split, Left, Given;
  }

  lemma DropStep(s: State, x: Index, p: nat, limit: nat, d: Hdr, e: Hdr)
    requires p < limit && s.x == Left(x, p, limit, d) && Good(s, {p}, Nothing) && SetUp(e, 1, HBLKSIZE)
    ensures DropGoes(s, DropState(s, x, p, limit, d, e), p, limit, e)
  {
    hide *;
    if p + 1 < limit {
      DropNext(s, x, p, limit, d, e);
    } else {
      DropLast(s, x, p, limit, d, e);
    }
  }

  lemma CutMapped(s: State, h: nat, n: nat, d: Hdr)
    requires IsFree(s.x, h) && h < n && !d.unmapped
    ensures AllMapped(s.x) ==> AllMapped(Cut(s, h, n, d).x)
    ensures IsFree(Cut(s, h, n, d).x, h) && Cut(s, h, n, d).x[h].hdr.blocks == n - h
  {
  }

  /** y is x with the pages in drops set up as used blocks. */
  ghost predicate OnlySetUp(x: Index, y: Index, drops: map<nat, Hdr>) {
    && (forall q: nat :: q in drops ==> q in y && y[q] == Header(drops[q]) && !drops[q].free)
    && (forall q: nat :: q in x ==> q in y)
    && forall q: nat :: q in y && q !in drops ==> q in x && y[q] == x[q]
  }

  lemma NothingSetUp(x: Index)
    ensures OnlySetUp(x, x, map[])
  {
  }

  lemma OneMoreSetUp(x: Index, y: Index, drops: map<nat, Hdr>, p: nat, e: Hdr)
    requires OnlySetUp(x, y, drops) && SetUp(e, 1, HBLKSIZE)
    ensures OnlySetUp(x, y[p := Header(e)], drops[p := e])
  {
  }

  lemma DropsFreeNothing(x: Index, y: Index, z: Index, drops: map<nat, Hdr>)
    requires SameShape(x, y) && OnlySetUp(y, z, drops)
    ensures Remains(FreeBlocks(x), FreeBlocks(z), drops)
  {
    forall p: nat | p in FreeBlocks(x)
      ensures p in FreeBlocks(z) || p in drops
    {
      assert SameBlock(x[p], y[p]);
    }
    forall p: nat | p in FreeBlocks(z)
      ensures p in FreeBlocks(x) && FreeBlocks(z)[p] == FreeBlocks(x)[p]
    {
      assert SameBlock(x[p], y[p]);
    }
  }

  lemma DropsGrow(drops: map<nat, Hdr>, h: nat, p: nat, e: Hdr)
    requires h <= p && drops.Keys == Pages(h, p - h)
    ensures drops[p := e].Keys == Pages(h, p + 1 - h)
  {
  }

  lemma AloneAloneBut(x: Index, q: nat)
    ensures Alone(x) ==> AloneBut(x, q)
  {
  }

  lemma TrimmedUsed(x: Index, q: nat, n: nat)
    requires IsFree(x, q)
    ensures UsedBlocks(Trimmed(x, q, n)) == UsedBlocks(x)
  {
  }

  /** The block at place k of list n and its links. */
  lemma ListBlock(s: State, n: nat, k: nat)
    requires Good(s, {}, Nothing) && n <= N_HBLK_FLS && k < |s.f.lists[n]|
    ensures var h := s.f.lists[n][k];
            && h != 0 && IsFree(s.x, h) && s.x[h].hdr.blocks <= Total(s.f.sums)
            && s.x[h].hdr.next == Elem(s.f.lists[n], k + 1) && s.x[h].hdr.prev == Elem(s.f.lists[n], k - 1)
            && (s.x[h].hdr.next != 0 ==> IsFree(s.x, s.x[h].hdr.next))
            && (s.x[h].hdr.prev != 0 ==> IsFree(s.x, s.x[h].hdr.prev))
  {
    LinksOnList(s.x, s.f, n, k, {}, Nothing);
    PartOfTotal(s.f.sums, n);
  }

  lemma {:induction false} PartOfTotal(sums: seq<nat>, n: nat)
    requires n < |sums|
    ensures sums[n] <= Total(sums)
  {
    if n > 0 {
      PartOfTotal(sums[1..], n - 1);
    }
  }

  lemma PlaceOnList(s: State, n: nat, k: nat)
    requires Good(s, {}, Nothing) && n <= N_HBLK_FLS && k <= |s.f.lists[n]|
    ensures Elem(s.f.lists[n], k) == 0 <==> k == |s.f.lists[n]|
    ensures s.f.heads[n] == Elem(s.f.lists[n], 0)
  {
  }

  /** No used block starts inside a free one. */
  lemma FreePagesNotUsed(s: State, h: nat)
    requires Good(s, {}, Nothing) && IsFree(s.x, h)
    ensures Pages(h, s.x[h].hdr.blocks) !! UsedBlocks(s.x).Keys
  {
    forall p: nat | p in Pages(h, s.x[h].hdr.blocks)
      ensures p !in UsedBlocks(s.x).Keys
    {
      InsideNoHeader(s.x, s.o, h, p);
    }
  }

  lemma MappedHere(x: Index, h: nat)
    requires IsHdr(x, h)
    ensures AllMapped(x) ==> !x[h].hdr.unmapped
  {
  }

  lemma UsedMappedMore(x: Index, y: Index, h: nat)
    requires UsedMapped(x) && IsUsed(y, h) && !y[h].hdr.unmapped && UsedBlocks(y) == UsedBlocks(x)[h := y[h].hdr]
    ensures UsedMapped(y)
  {
  }

  lemma HeaderPositive(x: Index, o: Owner, h: nat)
    requires Tiled(x, o) && IsHdr(x, h)
    ensures h > 0
  {
    assert BlockOwns(x, o, h);
    assert PageOwned(x, o, h);
  }

  lemma InsideNoHeader(x: Index, o: Owner, b: nat, p: nat)
    requires Tiled(x, o) && IsHdr(x, b)
    ensures b < p < End(x, b) ==> !IsHdr(x, p)
  {
    if b < p < End(x, b) {
      NoHeaderInside(x, o, b, p);
    }
  }

  /** The block that the page before header h belongs to ends at h. */
  lemma BlockWithLast(x: Index, o: Owner, p: nat, h: nat)
    requires Tiled(x, o) && IsHdr(x, h) && IsHdr(x, p) && p < h && h - 1 in o && o[h - 1] == o[p]
    ensures End(x, p) == h
  {
    assert BlockOwns(x, o, p) && BlockOwns(x, o, h);
    assert PageOwned(x, o, h - 1);
    InsideNoHeader(x, o, p, h);
  }

  lemma OnlyOneEndsAt(x: Index, o: Owner, p: nat, h: nat)
    requires Tiled(x, o) && IsUsed(x, p) && End(x, p) == h
    ensures forall q: nat :: !EndsAt(x, q, h)
  {
    forall q: nat
      ensures !EndsAt(x, q, h)
    {
      if IsFree(x, q) {
        OneBefore(x, o, p, q);
      }
    }
  }

  /** If no block header stands between q and h and q does not end at h, nothing does. */
  lemma NoneEndsAt(x: Index, o: Owner, h: nat, q: Option<nat>)
    requires Tiled(x, o) && h > 0
    requires q.Some? ==> IsHdr(x, q.value) && q.value < h && End(x, q.value) != h
    requires forall p: nat :: p <= h - 1 && (q.Some? ==> p > q.value) ==> !IsHdr(x, p)
    ensures forall p: nat :: IsHdr(x, p) ==> End(x, p) != h
  {
    forall p: nat | IsHdr(x, p)
      ensures End(x, p) != h
    {
      assert BlockOwns(x, o, p);
      if q.Some? && p < q.value {
        InsideNoHeader(x, o, p, q.value);
      }
    }
  }

  datatype MaySplit = No | Yes | AvoidRemapped

  const MAX_BLACK_LIST_ALLOC := 2

  /** What is to be allocated: the object size, whether its kind is pointer-free or uncollectable, and IGNORE_OFF_PAGE.
      blLimit is GC_black_list_spacing, in bytes. */
  datatype Request = Request(sz: nat, ptrFree: bool, uncollectable: bool, ignoreOffPage: bool, blLimit: nat,
                             findLeak: bool)
  {
    predicate Valid() { sz > 0 && sz % GRANULE_BYTES == 0 }

    function Needed(): nat { ObjSzToBlocks(sz) }

    /** Whether the black lists matter for the request, and for how many of its pages. */
    predicate Checked() { !uncollectable && (!ptrFree || Needed() > MAX_BLACK_LIST_ALLOC) }

    function EffNeeded(): nat { if ignoreOffPage then 1 else Needed() }
  }

  /** What GC_allochblk decides its split limit by: whether more of the heap should be used even at the price of
      splitting, whether finalizers free a lot, whether memory can be unmapped, and the large-object byte counts. */
  datatype Policy = Policy(useAll: bool, finalizersHeavy: bool, canUnmap: bool, largeAllocd: nat, maxLargeAllocd: nat)

  /** The bytes on free lists n and up. */
  function BytesFrom(sums: seq<nat>, n: nat): nat
    decreases |sums| - n
  {
    if n >= |sums| then 0 else sums[n] * HBLKSIZE + BytesFrom(sums, n + 1)
  }

  /** Blocks on list n are not split: finalizers free a lot, or lists n and up do not hold enough large free bytes. */
  predicate KeptBack(sums: seq<nat>, p: Policy, n: nat) {
    !p.useAll && (p.finalizersHeavy || p.largeAllocd + BytesFrom(sums, n) < p.maxLargeAllocd)
  }

  ghost predicate KeptBackFrom(sums: seq<nat>, p: Policy, from: nat) {
    forall n: nat :: from <= n <= N_HBLK_FLS ==> KeptBack(sums, p, n)
  }

  /** What GC_allochblk_nth does with the block it looks at. */
  datatype Verdict = Pass | TakeFrom(start: nat) | DropAll

  /** What matters of a free block for the search. */
  datatype FreeBlock = FreeBlock(blocks: nat, unmapped: bool)

  ghost function FreeBlocks(x: Index): map<nat, FreeBlock> {
    map p: nat | p in x && IsFree(x, p) :: FreeBlock(x[p].hdr.blocks, x[p].hdr.unmapped)
  }

  /** Every free block of y is one of x. */
  ghost predicate FewerFree(x: map<nat, FreeBlock>, y: map<nat, FreeBlock>) {
    forall p: nat :: p in y ==> p in x && y[p] == x[p]
  }

  /** From x to y nothing but free blocks that start in drops went. */
  ghost predicate Remains(x: map<nat, FreeBlock>, y: map<nat, FreeBlock>, drops: map<nat, Hdr>) {
    FewerFree(x, y) && forall p: nat :: p in x ==> p in y || p in drops
  }

  lemma RemainsMore(x: map<nat, FreeBlock>, y: map<nat, FreeBlock>, z: map<nat, FreeBlock>, d: map<nat, Hdr>,
                    e: map<nat, Hdr>)
    requires Remains(x, y, d) && Remains(y, z, e)
    ensures Remains(x, z, d + e)
  {
  }

  /** Where the search of a list stopped: the free blocks there were, and the list, whose k-th block was taken or cut.
      */
  datatype Choice = Choice(free: map<nat, FreeBlock>, order: seq<nat>, k: nat)

  /** No list has grown. */
  ghost predicate NoneMore(sums: seq<nat>, sums': seq<nat>) {
    |sums| == |sums'| && forall i :: 0 <= i < |sums| ==> sums'[i] <= sums[i]
  }

  /** What can be told about the allocator from outside: the used blocks, the heap's pages, the counters, whether every
      block is mapped, and whether, besides, no two free blocks are adjacent; and what there is to search. */
  datatype Past =
    Past(used: map<nat, Hdr>, pages: set<nat>, largeFree: nat, bytesDropped: nat, mapped: bool, alone: bool,
         free: map<nat, FreeBlock>, sums: seq<nat>)

  /** From a to b some blocks have been dropped, and nothing else. */
  ghost predicate Dropped(a: Past, b: Past, drops: map<nat, Hdr>) {
    && drops.Keys !! a.used.Keys && b.used == a.used + drops && b.pages == a.pages
    && (forall p: nat :: p in drops ==> SetUp(drops[p], 1, HBLKSIZE))
    && b.largeFree + |drops| == a.largeFree && b.bytesDropped == a.bytesDropped + |drops| * HBLKSIZE
    && (a.mapped ==> b.mapped) && (a.alone ==> b.alone)
    && Remains(a.free, b.free, drops) && NoneMore(a.sums, b.sums)
  }

  /** From a to b block h has been given out for r and some blocks have been dropped, and nothing else. */
  ghost predicate Gave(a: Past, b: Past, drops: map<nat, Hdr>, h: nat, r: Request) {
    && drops.Keys !! a.used.Keys && h !in a.used && h !in drops && h in b.used
    && SetUp(b.used[h], r.Needed(), r.sz) && b.used == (a.used + drops)[h := b.used[h]] && b.pages == a.pages
    && (forall p: nat :: p in drops ==> SetUp(drops[p], 1, HBLKSIZE))
    && b.largeFree + |drops| + r.Needed() == a.largeFree && b.bytesDropped == a.bytesDropped + |drops| * HBLKSIZE
    && (a.mapped ==> b.mapped) && (a.alone ==> b.alone)
  }

  lemma UnionSize(d: map<nat, Hdr>, e: map<nat, Hdr>)
    requires d.Keys !! e.Keys
    ensures |d + e| == |d| + |e|
  {
  }

  lemma UnionFacts(a: map<nat, Hdr>, d: map<nat, Hdr>, e: map<nat, Hdr>)
    ensures a + (d + e) == (a + d) + e && (d + e).Keys == d.Keys + e.Keys && (a + d).Keys == a.Keys + d.Keys
    ensures forall p: nat :: p in d + e ==> (d + e)[p] == if p in e then e[p] else d[p]
  {
  }

  /** The maps of blocks dropped first and later, seen from the start. */
  lemma UsedAfterBoth(used: map<nat, Hdr>, d: map<nat, Hdr>, e: map<nat, Hdr>)
    requires d.Keys !! used.Keys && e.Keys !! (used + d).Keys
    ensures (d + e).Keys !! used.Keys && (used + d) + e == used + (d + e) && |d + e| == |d| + |e|
    ensures forall p: nat :: p in d + e ==> (d + e)[p] == if p in e then e[p] else d[p]
  {
    UnionFacts(used, d, e);
    UnionSize(d, e);
  }

  lemma SetUpBoth(d: map<nat, Hdr>, e: map<nat, Hdr>)
    requires forall p: nat :: p in d ==> SetUp(d[p], 1, HBLKSIZE)
    requires forall p: nat :: p in e ==> SetUp(e[p], 1, HBLKSIZE)
    ensures forall p: nat :: p in d + e ==> SetUp((d + e)[p], 1, HBLKSIZE)
  {
  }

  lemma DroppedMore(a: Past, b: Past, c: Past, d: map<nat, Hdr>, e: map<nat, Hdr>)
    requires Dropped(a, b, d) && Dropped(b, c, e)
    ensures Dropped(a, c, d + e)
  {
    RemainsMore(a.free, b.free, c.free, d, e);
    hide SetUp, Remains;
    SetUpBoth(d, e);
    UsedAfterBoth(a.used, d, e);
  }

  lemma DroppedThenGave(a: Past, b: Past, c: Past, d: map<nat, Hdr>, e: map<nat, Hdr>, h: nat, r: Request)
    requires Dropped(a, b, d) && Gave(b, c, e, h, r)
    ensures Gave(a, c, d + e, h, r)
  {
    hide SetUp, ObjSzToBlocks;
    SetUpBoth(d, e);
    UsedAfterBoth(a.used, d, e);
  }

  lemma GaveOne(a: Past, b: Past, h: nat, d: Hdr, r: Request)
    requires h !in a.used && SetUp(d, r.Needed(), r.sz) && b.used == a.used[h := d] && b.pages == a.pages
    requires b.largeFree + r.Needed() == a.largeFree && b.bytesDropped == a.bytesDropped
    requires (a.mapped ==> b.mapped) && (a.alone ==> b.alone)
    ensures Gave(a, b, map[], h, r)
  {
  }

  lemma PagesDropped(a: Past, b: Past, drops: map<nat, Hdr>, h: nat, n: nat)
    requires drops.Keys == Pages(h, n) && Pages(h, n) !! a.used.Keys && b.used == a.used + drops && b.pages == a.pages
    requires forall p: nat :: p in drops ==> SetUp(drops[p], 1, HBLKSIZE)
    requires b.largeFree + n == a.largeFree && b.bytesDropped == a.bytesDropped + n * HBLKSIZE
    requires (a.mapped ==> b.mapped) && (a.alone ==> b.alone)
    requires Remains(a.free, b.free, drops) && NoneMore(a.sums, b.sums)
    ensures Dropped(a, b, drops)
  {
    hide Pages;
    PagesCount(h, n);
    assert |drops| == |drops.Keys|;
  }

  lemma UsedMappedDrops(x: Index, y: Index, drops: map<nat, Hdr>)
    requires UsedMapped(x) && UsedBlocks(y) == UsedBlocks(x) + drops
    requires forall p: nat :: p in drops ==> SetUp(drops[p], 1, HBLKSIZE)
    ensures UsedMapped(y)
  {
  }

  lemma NothingDropped(a: Past)
    ensures Dropped(a, a, map[])
  {
  }

  class Allocator {
    const headers: HeaderIndex.Headers
    const blackList: BlackListing.BlackList
    const heads: array<nat>     // GC_hblkfreelist
    const freePages: array<nat> // GC_free_bytes
    var largeFree: nat          // GC_large_free_bytes
    var heapSize: nat           // GC_heapsize
    var bytesDropped: nat       // GC_bytes_dropped
    var dropCount: nat
    var sects: seq<Sect>        // GC_heap_sects
    var least: nat              // GC_least_plausible_heap_addr
    var greatest: nat           // GC_greatest_plausible_heap_addr
    ghost var lists: seq<seq<nat>>
    ghost var owner: Owner

    ghost predicate Ready()
      reads headers
    {
      headers.Valid() && heads != freePages && heads.Length == N_HBLK_FLS + 1 && freePages.Length == N_HBLK_FLS + 1
    }

    ghost function S(): State
      reads `lists, `owner, headers, heads, freePages
    {
      State(headers.view, owner, Lists(lists, heads[..], freePages[..]))
    }

    ghost predicate Valid()
      reads `lists, `owner, `largeFree, `heapSize, `sects, `least, `greatest, headers, heads, freePages
    {
      && Ready() && Good(S(), {}, Nothing)
      && largeFree == Total(freePages[..]) && heapSize == |owner.Keys|
      && UsedMapped(headers.view)
      && Sectioned(owner, sects) && Plausible(owner, least, greatest)
    }

    constructor (allInterior: bool)
      ensures Valid() && fresh(headers) && fresh(heads) && fresh(freePages) && fresh(blackList)
      ensures heapSize == 0 && UsedBlocks(headers.view) == map[]
    {
      headers := new HeaderIndex.Headers();
      blackList := new BlackListing.BlackList(allInterior);
      heads, freePages := new nat[N_HBLK_FLS + 1](_ => 0), new nat[N_HBLK_FLS + 1](_ => 0);
      largeFree, heapSize, bytesDropped, dropCount := 0, 0, 0, 0;
      sects, least, greatest := [], 0, 0;
      lists, owner := seq(N_HBLK_FLS + 1, _ => []), map[];
      new;
      EmptyHeapGood(S());
    }

    method RemoveFromFlAt(h: nat, index: nat, ghost k: nat)
      requires Ready() && |lists| == N_HBLK_FLS + 1 && index <= N_HBLK_FLS && k < |lists[index]| && lists[index][k] == h
      requires LinksExist(headers.view, h) && headers.view[h].hdr.blocks <= freePages[index]
      requires headers.view[h].hdr.prev == 0 <==> k == 0
      requires headers.view[h].hdr.prev != h
      modifies this`lists, headers, heads, freePages
      ensures Ready() && S() == old(Remove(S(), index, k))
    {
      hide HeaderIndex.Shows, HeaderIndex.Chained;
      var hdr := headers.HdrAt(h);
      if hdr.prev == 0 {
        heads[index] := hdr.next;
      } else {
        var phdr := headers.HdrAt(hdr.prev);
        headers.Update(hdr.prev, phdr.(next := hdr.next));
      }
      freePages[index] := freePages[index] - hdr.blocks;
      if hdr.next != 0 {
        var nhdr := headers.HdrAt(hdr.next);
        headers.Update(hdr.next, nhdr.(prev := hdr.prev));
      }
      lists := lists[index := Without(lists[index], k)];
    }

    /** GC_remove_from_fl: takes free block h off the list for its size. */
    method RemoveFromFl(h: nat, ghost loose: set<nat>)
      requires Ready() && Good(S(), loose, Nothing) && IsFree(headers.view, h) && h !in loose
      modifies this`lists, headers, heads, freePages
      ensures Ready() && Good(S(), loose + {h}, Nothing) && owner == old(owner)
      ensures Quiet(old(S()), S(), 0 - old(H(headers.view, h)).blocks)
      ensures SameShape(old(headers.view), headers.view)
    {
      hide HeaderIndex.Shows, HeaderIndex.Chained, Tiled, Quiet, SameShape;
      var hdr := headers.HdrAt(h);
      var index := ListFor(hdr.blocks);
      ghost var k := PlaceOf(S(), h, loose);
      RemoveGood(S(), index, k, loose, Nothing);
      PrevLink(S(), index, k, loose, Nothing);
      hide Consistent, LinksExist;
      RemoveFromFlAt(h, index, k);
    }

    /** GC_add_to_fl: puts loose block h in front of the list for its size and marks it free. */
    method AddToFl(h: nat, ghost loose: set<nat>, ghost mis: Misplaced)
      requires Ready() && IsHdr(headers.view, h) && h in loose && (mis.Misplaced? ==> mis.page != h)
      requires Good(S().(x := Freed(headers.view, h)), loose, mis)
      modifies this`lists, headers, heads, freePages
      ensures Ready() && Good(S(), loose - {h}, mis) && owner == old(owner)
      ensures Quiet(old(S().(x := Freed(headers.view, h))), S(), old(H(headers.view, h)).blocks)
      ensures SameShape(old(Freed(headers.view, h)), headers.view)
    {
      hide HeaderIndex.Shows, HeaderIndex.Chained, Tiled, Quiet, SameShape;
      var hdr := headers.HdrAt(h);
      var index := ListFor(hdr.blocks);
      ghost var s := S().(x := Freed(headers.view, h));
      AddGood(s, h, loose, mis);
      HeadOnList(s.x, s.f, index, loose, mis);
      BlockPositive(s, h);
      hide Consistent;
      PutFirst(h, index);
    }

    method PutFirst(h: nat, index: nat)
      requires Ready() && |lists| == N_HBLK_FLS + 1 && IsHdr(headers.view, h)
      requires index == ListFor(headers.view[h].hdr.blocks)
      requires heads[index] != h && (heads[index] != 0 ==> IsHdr(headers.view, heads[index]))
      modifies this`lists, headers, heads, freePages
      ensures Ready() && S() == old(Add(S().(x := Freed(headers.view, h)), h))
    {
      hide HeaderIndex.Shows, HeaderIndex.Chained, ListFor;
      var hdr := headers.HdrAt(h);
      var second := heads[index];
      heads[index] := h;
      freePages[index] := freePages[index] + hdr.blocks;
      headers.Update(h, hdr.(next := second, prev := 0, free := true));
      assert headers.view == old(Freed(headers.view, h)[h := Header(hdr.(next := second, prev := 0, free := true))]);
      if second != 0 {
        var secondHdr := headers.HdrAt(second);
        headers.Update(second, secondHdr.(prev := h));
      }
      lists := lists[index := [h] + lists[index]];
    }

    /** get_block_ending_at. */
    method GetBlockEndingAt(h: nat) returns (r: Option<nat>)
      requires Ready() && Tiled(headers.view, owner) && IsHdr(headers.view, h)
      ensures r.Some? ==> IsHdr(headers.view, r.value) && End(headers.view, r.value) == h
      ensures r.None? ==> forall p: nat :: IsHdr(headers.view, p) ==> End(headers.view, p) != h
    {
      hide HeaderIndex.Shows, HeaderIndex.Chained, Tiled;
      ghost var x := headers.view;
      HeaderPositive(x, owner, h);
      var p: nat := h - 1;
      var phdr := headers.Get(p);
      if !phdr.Nil? {
        HeaderIndex.OwnerOf(x, owner, p);
      }
      while phdr.Count?
        invariant p <= h - 1 && phdr == Lookup(x, p) && (phdr.Nil? <==> p !in x)
        invariant h - 1 in x ==> p in x && p in owner && h - 1 in owner && owner[p] == owner[h - 1]
        invariant p == h - 1 || (p in x && h - 1 in x)
        decreases p
      {
        CountLeadsBack(x, owner, p);
        p := p - phdr.jump;
        phdr := headers.Get(p);
      }
      if !phdr.Nil? {
        BlockWithLast(x, owner, p, h);
        return Some(p);
      }
      var q := headers.PrevBlock(h - 1, owner);
      if q.Some? {
        var qhdr := headers.HdrAt(q.value);
        if q.value + qhdr.blocks == h {
          return q;
        }
      }
      NoneEndsAt(x, owner, h, q);
      r := None;
    }

    /** GC_free_block_ending_at. */
    method FreeBlockEndingAt(h: nat) returns (r: Option<nat>)
      requires Ready() && Tiled(headers.view, owner) && IsHdr(headers.view, h)
      ensures r.Some? ==> EndsAt(headers.view, r.value, h)
      ensures r.None? ==> forall p: nat :: !EndsAt(headers.view, p, h)
    {
      hide HeaderIndex.Shows, HeaderIndex.Chained, Tiled;
      var p := GetBlockEndingAt(h);
      if p.Some? {
        var phdr := headers.HdrAt(p.value);
        if phdr.free {
          return p;
        }
        OnlyOneEndsAt(headers.view, owner, p.value, h);
      }
      r := None;
    }

    /** Loose block b, which follows loose block a, becomes part of it. */
    method MergeLoose(a: nat, b: nat, ghost loose: set<nat>)
      requires Ready() && Good(S(), loose, Nothing) && a in loose && b in loose
      requires IsFree(headers.view, a) && IsFree(headers.view, b) && End(headers.view, a) == b
      modifies this`owner, headers
      ensures Ready() && S() == old(Merge(S(), a, b)) && Good(S(), loose - {b}, Nothing) && Quiet(old(S()), S(), 0)
    {
      hide HeaderIndex.Shows, HeaderIndex.Chained, Good, Quiet;
      MergeGood(S(), a, b, loose);
      var bhdr := headers.HdrAt(b);
      var ahdr := headers.HdrAt(a);
      BlockNotEmpty(S(), a, loose);
      headers.Update(a, ahdr.(blocks := ahdr.blocks + bhdr.blocks));
      headers.RemoveHeader(b);
      owner := Given(owner, b, b + bhdr.blocks, a);
      assert headers.view == old(Merged(headers.view, a, b));
    }

    /** Coalesces loose block h with its successor, if possible. */
    method CoalesceNext(h: nat)
      requires Ready() && Good(S(), {h}, Nothing) && IsFree(headers.view, h) && !headers.view[h].hdr.unmapped
      modifies this`lists, this`owner, headers, heads, freePages
      ensures Ready() && Good(S(), {h}, Nothing) && IsFree(headers.view, h) && !headers.view[h].hdr.unmapped
      ensures Quiet(old(S()), S(), old(H(headers.view, h)).blocks - H(headers.view, h).blocks)
      ensures ApartAround(old(headers.view), h) ==> ApartBut(headers.view, h)
      ensures AllMapped(old(headers.view)) ==> AllMapped(headers.view)
      ensures forall p: nat :: EndsAt(headers.view, p, h) ==> EndsAt(old(headers.view), p, h)
      ensures forall p: nat :: EndsAt(old(headers.view), p, h) ==>
                EndsAt(headers.view, p, h) && headers.view[p].hdr.unmapped == old(headers.view)[p].hdr.unmapped
    {
      hide HeaderIndex.Shows, HeaderIndex.Chained, Good, SameShape, ApartAround, ApartBut, MergeableAsIs, AllMapped,
        Merged;
      ghost var x, s := headers.view, S();
      var hdr := headers.HdrAt(h);
      var next := h + hdr.blocks;
      BlockNotEmpty(s, h, {h});
      var e := headers.Get(next);
      if e.Header? && e.hdr.free && !e.hdr.unmapped && hdr.blocks + e.hdr.blocks < SIGNED_PAGES {
        RemoveNext(h, next);
        ghost var y, t := headers.view, S();
        ShapeKeepsBut(x, y, h);
        ShapeKeepsEnds(x, y, h);
        ShapeKeepsMapped(x, y);
        MergedMapped(y, h, next);
        MergeFacts(t, h, {h, next});
        MergeLoose(h, next, {h, next});
        assert {h, next} - {next} == {h};
      } else {
        NotMergeable(x, h);
      }
    }

    method RemoveNext(h: nat, next: nat)
      requires Ready() && Good(S(), {h}, Nothing) && IsFree(headers.view, h) && IsFree(headers.view, next) && next != h
      modifies this`lists, headers, heads, freePages
      ensures Ready() && Good(S(), {h, next}, Nothing) && owner == old(owner)
      ensures Quiet(old(S()), S(), 0 - old(H(headers.view, next)).blocks)
      ensures SameShape(old(headers.view), headers.view)
      ensures SameAt(old(headers.view), headers.view, h) && SameAt(old(headers.view), headers.view, next)
    {
      hide Good, Quiet;
      RemoveFromFl(next, {h});
      assert {h} + {next} == {h, next};
      ShapeAt(old(headers.view), headers.view, h);
      ShapeAt(old(headers.view), headers.view, next);
    }

    /** Coalesces loose block h with prev, the free block that ends at it, if possible. */
    method CoalescePrev(h: nat, prev: Option<nat>) returns (b: nat)
      requires Ready() && Good(S(), {h}, Nothing) && IsFree(headers.view, h) && !headers.view[h].hdr.unmapped
      requires prev.Some? ==> EndsAt(headers.view, prev.value, h)
      requires prev.None? ==> forall p: nat :: !EndsAt(headers.view, p, h)
      modifies this`lists, this`owner, headers, heads, freePages
      ensures Ready() && Good(S(), {b}, Nothing) && IsFree(headers.view, b) && !headers.view[b].hdr.unmapped
      ensures Quiet(old(S()), S(), old(H(headers.view, h)).blocks - H(headers.view, b).blocks)
      ensures ApartBut(old(headers.view), h) ==> Apart(headers.view)
      ensures AllMapped(old(headers.view)) ==> AllMapped(headers.view)
    {
      hide HeaderIndex.Shows, HeaderIndex.Chained, Good, SameShape, Apart, ApartBut, MergeableAsIs, AllMapped, Merged;
      ghost var x := headers.view;
      b := h;
      if prev.Some? {
        var hdr := headers.HdrAt(h);
        var phdr := headers.HdrAt(prev.value);
        BlockNotEmpty(S(), prev.value, {h});
        if !phdr.unmapped && hdr.blocks + phdr.blocks < SIGNED_PAGES {
          RemoveNext(h, prev.value);
          ghost var t := S();
          assert {h, prev.value} == {prev.value, h};
          ShapeKeepsBut(x, t.x, h);
          ShapeKeepsMapped(x, t.x);
          MergedMapped(t.x, prev.value, h);
          MergePrevFacts(t, prev.value, h, {prev.value, h});
          MergeLoose(prev.value, h, {prev.value, h});
          assert {prev.value, h} - {h} == {prev.value};
          return prev.value;
        }
      }
      NothingBefore(S(), x, h, prev);
    }

    /** GC_freehblk. The used block h may hold forwarding counts, or none when GC_add_to_heap has just made it. */
    method Freehblk(h: nat)
      requires Ready() && Freeable(headers.view, h)
      requires Good(S().(x := NotInUse(headers.view, h, FreeHdr(headers.view, h))), {h}, Nothing)
      modifies this`lists, this`owner, this`largeFree, headers, heads, freePages
      ensures Ready() && Good(S(), {}, Nothing)
      ensures Quiet(old(S().(x := NotInUse(headers.view, h, FreeHdr(headers.view, h)))), S(),
                    old(FreeHdr(headers.view, h)).blocks)
      ensures largeFree == old(largeFree + FreeHdr(headers.view, h).blocks)
      ensures ApartAround(old(NotInUse(headers.view, h, FreeHdr(headers.view, h))), h) ==> Apart(headers.view)
      ensures AllMapped(old(NotInUse(headers.view, h, FreeHdr(headers.view, h)))) ==> AllMapped(headers.view)
    {
      hide HeaderIndex.Shows, HeaderIndex.Chained, Good, Apart, ApartBut, ApartAround, EndsAt, AllMapped;
      ghost var x1 := NotInUse(headers.view, h, FreeHdr(headers.view, h));
      var hdr := headers.HdrAt(h);
      var size := ObjSzToBlocks(hdr.objSz);
      headers.RemoveCounts(h, size);
      headers.Update(h, hdr.(blocks := size, free := true));
      assert headers.view == x1;
      var prev := BlockBefore(h);
      CoalesceNext(h);
      var b := CoalescePrev(h, prev);
      largeFree := largeFree + size;
      ghost var y := headers.view;
      assert Freed(y, b) == y;
      AddToFl(b, {b}, Nothing);
      assert {b} - {b} == {};
      ShapeKeepsApart(y, headers.view);
      ShapeKeepsMapped(y, headers.view);
    }

    method BlockBefore(h: nat) returns (r: Option<nat>)
      requires Ready() && Good(S(), {h}, Nothing) && IsHdr(headers.view, h)
      ensures r.Some? ==> EndsAt(headers.view, r.value, h)
      ensures r.None? ==> forall p: nat :: !EndsAt(headers.view, p, h)
    {
      r := FreeBlockEndingAt(h);
    }

    /** GC_freehblk for a block in use, as its callers see it. */
    method Free(h: nat)
      requires Valid() && IsUsed(headers.view, h)
      modifies this`lists, this`owner, this`largeFree, headers, heads, freePages
      ensures Valid() && UsedBlocks(headers.view) == UsedBlocks(old(headers.view)) - {h}
      ensures owner.Keys == old(owner.Keys)
      ensures largeFree == old(largeFree + H(headers.view, h).blocks)
      ensures Apart(old(headers.view)) ==> Apart(headers.view)
      ensures AllMapped(old(headers.view)) ==> AllMapped(headers.view)
    {
      hide Good, Ready, Apart, ApartAround, AllMapped, Freeable, NotInUse, Sectioned, Plausible, UsedBlocks, Pages;
      FreeingIsAllowed(S(), h);
      Freehblk(h);
      SameKeys(old(owner), owner, sects, least, greatest);
    }

    /** GC_add_to_heap for n pages from p on. Pages 0 and 1, and the last page of the address space if the end of the
        range would wrap to address zero, are left out. */
    method AddToHeap(p: nat, n: nat)
      requires Valid() && n > 0 && p + n <= ADDRESS_PAGES
      requires forall q: nat :: p <= q < p + n ==> q !in owner
      modifies this, headers, heads, freePages
      ensures Valid() && UsedBlocks(headers.view) == UsedBlocks(old(headers.view))
      ensures forall q: nat :: q in owner <==> q in old(owner) || (p <= q < p + n && 1 < q < ADDRESS_PAGES - 1)
      ensures largeFree - old(largeFree) == heapSize - old(heapSize) >= 0
      ensures Apart(old(headers.view)) ==> Apart(headers.view)
      ensures AllMapped(old(headers.view)) ==> AllMapped(headers.view)
    {
      hide Good, Ready, Apart, ApartAround, AllMapped, Sectioned, Plausible, UsedBlocks;
      var q, m := p, n;
      while q <= 1
        invariant q + m == p + n && p <= q && m > 0
        invariant q == p || q <= 2
      {
        q := q + 1;
        m := m - 1;
        if m == 0 {
          return;
        }
      }
      var endp := (q + m) % ADDRESS_PAGES;
      if endp <= q {
        assert q + m == ADDRESS_PAGES && endp == 0;
        m := m - 1;
        if m == 0 {
          return;
        }
        endp := (endp + ADDRESS_PAGES - 1) % ADDRESS_PAGES;
      }
      AddSection(q, m, endp);
    }

    method AddSection(p: nat, n: nat, endp: nat)
      requires Valid() && NewPages(owner, p, n) && p > 1 && endp == p + n
      modifies this, headers, heads, freePages
      ensures Valid() && UsedBlocks(headers.view) == UsedBlocks(old(headers.view))
      ensures owner.Keys == old(owner.Keys) + Pages(p, n)
      ensures largeFree == old(largeFree) + n && heapSize == old(heapSize) + n
      ensures Apart(old(headers.view)) ==> Apart(headers.view)
      ensures AllMapped(old(headers.view)) ==> AllMapped(headers.view)
    {
      hide Good, Apart, AllMapped, Sectioned, Plausible, UsedBlocks, Pages, Total, Ready;
      ghost var o := owner;
      FreeNewBlock(p, n);
      heapSize := heapSize + n;
      NoteSection(o, p, n, endp);
    }

    method NoteSection(ghost o: Owner, p: nat, n: nat, endp: nat)
      requires Sectioned(o, sects) && Plausible(o, least, greatest)
      requires p > 1 && n > 0 && endp == p + n && owner.Keys == o.Keys + Pages(p, n)
      modifies `sects, `least, `greatest
      ensures Sectioned(owner, sects) && Plausible(owner, least, greatest)
    {
      hide Sectioned, Plausible;
      MoreHeap(o, owner, sects, p, n);
      sects := sects + [Sect(p, n)];
      if p * HBLKSIZE <= least || least == 0 {
        least := p * HBLKSIZE - 8;
      }
      if (p + n) * HBLKSIZE >= greatest {
        greatest := endp * HBLKSIZE;
      }
      MorePlausible(o, owner, old(least), old(greatest), least, greatest, p, n);
    }

    method FreeNewBlock(p: nat, n: nat)
      requires Ready() && Good(S(), {}, Nothing) && NewPages(owner, p, n)
      modifies this`lists, this`owner, this`largeFree, headers, heads, freePages
      ensures Ready() && Good(S(), {}, Nothing) && UsedBlocks(headers.view) == UsedBlocks(old(headers.view))
      ensures owner.Keys == old(owner.Keys) + Pages(p, n) && |owner.Keys| == |old(owner.Keys)| + n
      ensures largeFree == old(largeFree) + n && Total(freePages[..]) == old(Total(freePages[..])) + n
      ensures Apart(old(headers.view)) ==> Apart(headers.view)
      ensures AllMapped(old(headers.view)) ==> AllMapped(headers.view)
    {
      hide Good, Apart, ApartAround, AllMapped, Freeable, NotInUse, NewPages, UsedBlocks, Pages, Extended,
        HeaderIndex.Shows, HeaderIndex.Chained;
      AddingIsAllowed(S(), p, n);
      headers.InstallHeader(p, NewHdr(n));
      owner := Extended(owner, p, n);
      Freehblk(p);
      PagesCount(p, n);
    }

    /** GC_get_first_part: takes free block h, at place k of list index, off the list and puts what it has beyond n
        pages on the list for its size. The header of h is left for the caller to set up. */
    method GetFirstPart(h: nat, n: nat, index: nat, ghost k: nat, ghost mis: Misplaced)
      requires Ready() && Good(S(), {}, mis) && index <= N_HBLK_FLS && k < |lists[index]| && lists[index][k] == h
      requires mis.Misplaced? ==> mis.page == h
      requires IsHdr(headers.view, h) && 0 < n <= headers.view[h].hdr.blocks
      modifies `lists, `owner, headers, heads, freePages
      ensures Ready() && IsFree(headers.view, h) && Good(S().(x := Trimmed(headers.view, h, n)), {h}, Nothing)
      ensures Quiet(old(S()), S().(x := Trimmed(headers.view, h, n)), 0 - n)
      ensures !old(headers.view)[h].hdr.unmapped && AloneBut(old(headers.view), h) ==>
                AloneNear(Trimmed(headers.view, h, n), h)
      ensures AllMapped(old(headers.view)) ==> AllMapped(Trimmed(headers.view, h, n))
    {
      hide Consistent, AllMapped, Tiled, SameShape, HeaderIndex.Shows, HeaderIndex.Chained;
      var hdr := headers.HdrAt(h);
      var total := hdr.blocks;
      TakeOff(h, index, k, mis);
      ghost var s := S();
      if total == n {
        assert Trimmed(headers.view, h, n) == headers.view;
        return;
      }
      PutRest(h, h + n, total - n);
    }

    /** Puts the part of loose block h from rest on, of size pages, on the list for its size. */
    method PutRest(h: nat, rest: nat, size: nat)
      requires Ready() && Good(S(), {h}, Nothing) && |lists| == N_HBLK_FLS + 1
      requires IsFree(headers.view, h) && h < rest && size > 0 && End(headers.view, h) == rest + size
      modifies `lists, `owner, headers, heads, freePages
      ensures Ready() && IsFree(headers.view, h) && Good(S().(x := Trimmed(headers.view, h, rest - h)), {h}, Nothing)
      ensures Quiet(old(S()), S().(x := Trimmed(headers.view, h, rest - h)), size)
      ensures !old(headers.view)[h].hdr.unmapped && AloneBut(old(headers.view), h) ==>
                AloneNear(Trimmed(headers.view, h, rest - h), h)
      ensures AllMapped(old(headers.view)) ==> AllMapped(Trimmed(headers.view, h, rest - h))
    {
      hide Good, AllMapped, Quiet, ListFor, AloneBut, AloneNear, SameShape;
      ghost var s := S();
      CutAndAdd(s, h, rest);
      headers.InstallHeader(rest, Hdr(size, 0, false, false, 0, 0));
      owner := Given(owner, rest, rest + size, rest);
      assert Freed(headers.view, rest) == s.x[rest := Header(RestHdr(size))];
      PutFirst(rest, ListFor(size));
      TrimCommutes(s.x, h, rest, RestHdr(size), s.f.heads[ListFor(size)]);
      CutAndAddAlone(s, h, rest, Trimmed(headers.view, h, rest - h));
    }

    method TakeOff(h: nat, index: nat, ghost k: nat, ghost mis: Misplaced)
      requires Ready() && Good(S(), {}, mis) && index <= N_HBLK_FLS && k < |lists[index]| && lists[index][k] == h
      requires mis.Misplaced? ==> mis.page == h
      requires IsHdr(headers.view, h)
      modifies `lists, headers, heads, freePages
      ensures Ready() && Good(S(), {h}, Nothing) && SameShape(old(headers.view), headers.view)
      ensures IsFree(headers.view, h) && headers.view[h].hdr.blocks == old(headers.view)[h].hdr.blocks
      ensures Quiet(old(S()), S(), 0 - old(headers.view)[h].hdr.blocks)
      ensures headers.view[h].hdr.unmapped == old(headers.view)[h].hdr.unmapped
      ensures AloneBut(old(headers.view), h) ==> AloneBut(headers.view, h)
      ensures |lists| == N_HBLK_FLS + 1 && lists == old(lists)[index := Without(old(lists)[index], k)]
      ensures AllMapped(old(headers.view)) ==> AllMapped(headers.view)
      ensures NoneMore(old(freePages[..]), freePages[..])
    {
      RemoveGood(S(), index, k, {}, mis);
      PrevLink(S(), index, k, {}, mis);
      hide Consistent, Tiled, SameShape, LinksExist, HeaderIndex.Shows, HeaderIndex.Chained;
      RemoveFromFlAt(h, index, k);
      assert {} + {h} == {h};
      ShapeAt(old(headers.view), headers.view, h);
      ShapeKeepsBut(old(headers.view), headers.view, h);
      ShapeKeepsMapped(old(headers.view), headers.view);
    }

    /** Puts n, with header d but for the links, where a block with links prev and next was on list index. */
    method LinkInPlace(n: nat, d: Hdr, prev: nat, next: nat, index: nat)
      requires Ready() && index <= N_HBLK_FLS && IsHdr(headers.view, n)
      requires (prev != 0 ==> IsHdr(headers.view, prev)) && (next != 0 ==> IsHdr(headers.view, next))
      modifies headers, heads
      ensures Ready() && headers.view == Replaced(old(headers.view), n, d, prev, next)
      ensures heads[..] == if prev == 0 then old(heads[..])[index := n] else old(heads[..])
    {
      hide HeaderIndex.Shows, HeaderIndex.Chained;
      headers.Update(n, d.(next := next, prev := prev));
      if prev != 0 {
        var phdr := headers.HdrAt(prev);
        headers.Update(prev, phdr.(next := n));
      } else {
        heads[index] := n;
      }
      if next != 0 {
        var nhdr := headers.HdrAt(next);
        headers.Update(next, nhdr.(prev := n));
      }
    }

    /** The first half of GC_split_block: n, whose header has just been installed, takes the place of h. */
    method SwapIn(h: nat, n: nat, index: nat, ghost k: nat, ghost s: State, ghost blank: Hdr)
      requires Ready() && |lists| == N_HBLK_FLS + 1 && index <= N_HBLK_FLS && k < |lists[index]| && lists[index][k] == h
      requires s.o == owner && s.f == S().f && headers.view == s.x[n := Header(blank)] && n !in s.x && n > h && n != 0
      requires LinksExist(s.x, h) && n < End(s.x, h) && s.x[h].hdr.blocks <= freePages[index]
      requires s.x[h].hdr.prev == 0 <==> k == 0
      modifies `lists, `owner, headers, heads, freePages
      ensures Ready() && IsHdr(Halve(s, index, k, n).x, n)
      ensures S() == Halve(s, index, k, n).(x := Unfreed(Halve(s, index, k, n).x, n))
    {
      hide HeaderIndex.Shows, HeaderIndex.Chained, Replaced, Halved, Given, Swapped;
      var hdr := headers.HdrAt(h);
      var hSize := n - h;
      HalvedUnfreed(s.x, h, n, hSize, blank);
      LinkInPlace(n, Hdr(hdr.blocks - hSize, 0, false, false, 0, 0), hdr.prev, hdr.next, index);
      freePages[index] := freePages[index] - hSize;
      headers.Update(h, hdr.(blocks := hSize));
      owner := Given(owner, n, h + hdr.blocks, n);
      lists := lists[index := Swapped(lists[index], k, n)];
    }

    /** GC_split_block: cuts free block h at n, whose header has just been installed. n ends up on list index, which
        need not be the one for its size. */
    method SplitBlock(h: nat, n: nat, index: nat, ghost k: nat, ghost s: State, ghost blank: Hdr)
      returns (ghost k': nat)
      requires Ready() && s.o == owner && s.f == S().f && headers.view == s.x[n := Header(blank)]
      requires CanSplit(s, index, k, h, n)
      modifies `lists, `owner, headers, heads, freePages
      ensures Ready() && Good(S(), {}, Misplaced(n, index)) && Quiet(s, S(), 0)
      ensures index < |lists| && k' < |lists[index]| && lists[index][k'] == n
      ensures IsFree(headers.view, n) && End(headers.view, n) == End(s.x, h) && !headers.view[n].hdr.unmapped
      ensures Alone(s.x) ==> AloneBut(headers.view, n)
      ensures AllMapped(s.x) ==> AllMapped(headers.view)
    {
      hide HeaderIndex.Shows, HeaderIndex.Chained, Good, ListFor, Quiet, SameShape, AloneBut, AllMapped;
      CanSplitFacts(s, index, k, h, n);
      SwapIn(h, n, index, k, s, blank);
      ghost var y := Halve(s, index, k, n);
      SplitSteps(s, index, k, h, n, y);
      SplitResult(s, index, k, h, n, y.x, Add(y, h).x);
      ghost var head := y.f.heads[ListFor(n - h)];
      FreeingCommutes(y.x, h, n, head);
      hide LinksExist;
      PutFirst(h, ListFor(n - h));
      MarkFree(n);
      assert S() == Add(y, h);
      k' := if ListFor(n - h) == index then k + 1 else k;
    }

    method MarkFree(n: nat)
      requires Ready() && IsHdr(headers.view, n)
      modifies headers
      ensures Ready() && headers.view == Freed(old(headers.view), n)
    {
      var nhdr := headers.HdrAt(n);
      headers.Update(n, nhdr.(free := true));
    }

    /** Gives out loose block h, of n pages: GC_install_counts and setup_header. */
    method UseBlock(h: nat, n: nat, sz: nat)
      requires Ready() && IsFree(headers.view, h) && Good(S().(x := Trimmed(headers.view, h, n)), {h}, Nothing)
      requires sz > 0 && sz % GRANULE_BYTES == 0 && n == ObjSzToBlocks(sz)
      modifies headers
      ensures Ready() && Good(S(), {}, Nothing)
      ensures IsUsed(headers.view, h) && SetUp(headers.view[h].hdr, n, sz)
      ensures UsedBlocks(headers.view) == UsedBlocks(old(headers.view))[h := headers.view[h].hdr]
      ensures AloneNear(old(Trimmed(headers.view, h, n)), h) ==> Alone(headers.view)
      ensures AllMapped(old(Trimmed(headers.view, h, n))) ==> AllMapped(headers.view)
    {
      hide HeaderIndex.Shows, HeaderIndex.Chained, Good, AloneNear, Alone, AllMapped, UsedBlocks;
      ghost var x, s := headers.view, S().(x := Trimmed(headers.view, h, n));
      var hdr := headers.HdrAt(h);
      hdr := hdr.(blocks := n, objSz := sz, free := false, unmapped := false);
      UseSteps(s, x, h, n, hdr);
      headers.InstallCounts(h, n);
      headers.Update(h, hdr);
    }

    /** Allocates and drops free block h, at place k of list index, in single pages. */
    method DropBlock(h: nat, index: nat, ghost k: nat) returns (ghost drops: map<nat, Hdr>)
      requires Ready() && Good(S(), {}, Nothing) && index <= N_HBLK_FLS && k < |lists[index]| && lists[index][k] == h
      requires IsHdr(headers.view, h) && !headers.view[h].hdr.unmapped && headers.view[h].hdr.blocks <= largeFree
      modifies `lists, `owner, `largeFree, `bytesDropped, headers, heads, freePages
      ensures Ready() && Good(S(), {}, Nothing) && owner.Keys == old(owner.Keys)
      ensures drops.Keys == Pages(h, old(H(headers.view, h)).blocks)
      ensures forall p: nat :: p in drops ==> SetUp(drops[p], 1, HBLKSIZE)
      ensures UsedBlocks(headers.view) == UsedBlocks(old(headers.view)) + drops
      ensures lists == old(lists)[index := Without(old(lists)[index], k)]
      ensures Total(freePages[..]) == old(Total(freePages[..])) - old(H(headers.view, h)).blocks
      ensures largeFree == old(largeFree) - old(H(headers.view, h)).blocks
      ensures bytesDropped == old(bytesDropped) + old(H(headers.view, h)).blocks * HBLKSIZE
      ensures Alone(old(headers.view)) ==> Alone(headers.view)
      ensures AllMapped(old(headers.view)) ==> AllMapped(headers.view)
      ensures Remains(FreeBlocks(old(headers.view)), FreeBlocks(headers.view), drops)
      ensures NoneMore(old(freePages[..]), freePages[..])
    {
      hide HeaderIndex.Shows, HeaderIndex.Chained, Good, AllMapped, UsedBlocks, Without, Remains, NoneMore, SameShape;
      var hdr := headers.HdrAt(h);
      var total := hdr.blocks;
      largeFree := largeFree - total;
      bytesDropped := bytesDropped + total * HBLKSIZE;
      ghost var x := headers.view;
      TakeOff(h, index, k, Nothing);
      ghost var y := headers.view;
      drops := SetUpPages(h, total);
      DropsFreeNothing(x, y, headers.view, drops);
    }

    /** Makes each page of loose block h a used block of its own. */
    method SetUpPages(h: nat, total: nat) returns (ghost drops: map<nat, Hdr>)
      requires Ready() && Good(S(), {h}, Nothing) && IsFree(headers.view, h)
      requires !headers.view[h].hdr.unmapped && headers.view[h].hdr.blocks == total
      modifies `owner, headers
      ensures Ready() && Good(S(), {}, Nothing) && owner.Keys == old(owner.Keys)
      ensures drops.Keys == Pages(h, total)
      ensures forall p: nat :: p in drops ==> SetUp(drops[p], 1, HBLKSIZE)
      ensures UsedBlocks(headers.view) == UsedBlocks(old(headers.view)) + drops
      ensures AloneBut(old(headers.view), h) ==> Alone(headers.view)
      ensures AllMapped(old(headers.view)) ==> AllMapped(headers.view)
      ensures OnlySetUp(old(headers.view), headers.view, drops)
    {
      hide HeaderIndex.Shows, HeaderIndex.Chained, Good, Alone, AloneBut, AllMapped, UsedBlocks, Pages, OnlySetUp;
      ghost var d := headers.view[h].hdr;
      var p, limit := h, h + total;
      BlockNotEmpty(S(), h, {h});
      drops := map[];
      NothingSetUp(headers.view);
      assert drops.Keys == Pages(h, 0);
      assert Left(headers.view, h, limit, d) == headers.view;
      while p < limit
        invariant h <= p <= limit && Ready() && owner.Keys == old(owner.Keys)
        invariant Good(S().(x := Left(headers.view, p, limit, d)), LeftLoose(p, limit), Nothing)
        invariant drops.Keys == Pages(h, p - h) && forall q: nat :: q in drops ==> SetUp(drops[q], 1, HBLKSIZE)
        invariant UsedBlocks(Left(headers.view, p, limit, d)) == UsedBlocks(old(headers.view)) + drops
        invariant AloneBut(old(headers.view), h) ==> AloneBut(Left(headers.view, p, limit, d), p)
        invariant AloneBut(old(headers.view), h) && p > h ==> Alone(Left(headers.view, p, limit, d))
        invariant AllMapped(old(headers.view)) ==> AllMapped(Left(headers.view, p, limit, d))
        invariant p == h ==> IsHdr(headers.view, h)
        invariant OnlySetUp(old(headers.view), headers.view, drops)
      {
        ghost var y := headers.view;
        ghost var e := SetUpPage(p, p == h, limit, d);
        OneMoreSetUp(old(headers.view), y, drops, p, e);
        DropsGrow(drops, h, p, e);
        drops := drops[p := e];
        p := p + 1;
      }
    }

    method SetUpPage(p: nat, first: bool, limit: nat, ghost d: Hdr) returns (ghost e: Hdr)
      requires Ready() && p < limit && (first ==> IsHdr(headers.view, p))
      requires Good(S().(x := Left(headers.view, p, limit, d)), {p}, Nothing)
      modifies `owner, headers
      ensures Ready() && owner.Keys == old(owner.Keys) && SetUp(e, 1, HBLKSIZE)
      ensures headers.view == old(headers.view)[p := Header(e)]
      ensures Good(S().(x := Left(headers.view, p + 1, limit, d)), LeftLoose(p + 1, limit), Nothing)
      ensures UsedBlocks(Left(headers.view, p + 1, limit, d)) ==
                UsedBlocks(old(Left(headers.view, p, limit, d)))[p := e]
      ensures AloneBut(old(Left(headers.view, p, limit, d)), p) ==>
                Alone(Left(headers.view, p + 1, limit, d)) && AloneBut(Left(headers.view, p + 1, limit, d), p + 1)
      ensures AllMapped(old(Left(headers.view, p, limit, d))) ==> AllMapped(Left(headers.view, p + 1, limit, d))
    {
      hide HeaderIndex.Shows, HeaderIndex.Chained, Good, Alone, AloneBut, AllMapped, UsedBlocks, Left, LeftLoose;
      ghost var x, s := headers.view, S().(x := Left(headers.view, p, limit, d));
      if !first {
        headers.InstallHeader(p, Hdr(0, 0, false, false, 0, 0));
      }
      var hdr := headers.HdrAt(p);
      hdr := hdr.(blocks := 1, objSz := HBLKSIZE, free := false, unmapped := false);
      e := hdr;
      DropStep(s, x, p, limit, d, e);
      headers.Update(p, hdr);
      owner := LeftOwner(owner, p + 1, limit);
      assert headers.view == x[p := Header(e)];
    }

    /** GC_allochblk_nth would rather go on to the next block of the list: it is smaller, big enough, and clean. */
    method NextIsBetter(hdr: Hdr, needed: nat) returns (better: bool)
      requires Ready() && blackList.Valid() && (hdr.next != 0 ==> IsHdr(headers.view, hdr.next))
      ensures better <==> hdr.next != 0 && needed <= H(headers.view, hdr.next).blocks < hdr.blocks
                          && blackList.Clean(hdr.next, needed)
    {
      hide HeaderIndex.Shows, HeaderIndex.Chained;
      if hdr.next == 0 {
        return false;
      }
      var nhdr := headers.HdrAt(hdr.next);
      if nhdr.blocks < hdr.blocks && nhdr.blocks >= needed {
        var listed := blackList.IsBlackListed(hdr.next, needed);
        return listed.None?;
      }
      better := false;
    }

    /** r is so large, and block b so much larger, that the black lists may be ignored. */
    predicate Exceeds(b: FreeBlock, r: Request) {
      r.Needed() * HBLKSIZE > r.blLimit && (b.blocks - r.Needed()) * HBLKSIZE > r.blLimit
    }

    /** Nowhere in [p, end) can the first of r.EffNeeded() clean pages be. */
    ghost predicate NoCleanStart(p: nat, end: nat, r: Request)
      requires blackList.Valid()
      reads blackList
    {
      forall q: nat :: p <= q < end ==> !blackList.Clean(q, r.EffNeeded())
    }

    /** Part of block hbp is taken, from start on: its first page if the black lists do not matter, otherwise the lowest
        clean one with enough pages after it; the black lists are ignored only if there is none and the block is large
        enough. */
    ghost predicate TakeOk(hbp: nat, b: FreeBlock, r: Request, maySplit: MaySplit, start: nat)
      reads blackList
    {
      && blackList.Valid() && hbp <= start && start + r.Needed() <= hbp + b.blocks
      && (maySplit.No? ==> b.blocks == r.Needed())
      && (maySplit.AvoidRemapped? && b.unmapped ==> start == hbp)
      && (r.Checked() && blackList.Clean(start, r.EffNeeded()) ==> NoCleanStart(hbp, start, r))
      && (r.Checked() && !blackList.Clean(start, r.EffNeeded()) ==>
            start == hbp && Exceeds(b, r) && NoCleanStart(hbp, hbp + b.blocks - r.Needed() + 1, r))
      && (!r.Checked() ==> start == hbp)
    }

    /** Block hbp is to be dropped: no page of it is clean. */
    ghost predicate DropOk(hbp: nat, hdr: Hdr, r: Request)
      reads blackList
    {
      && blackList.Valid() && !hdr.unmapped && r.Needed() == 1 && r.Checked() && !r.findLeak
      && forall p: nat :: hbp <= p < hbp + hdr.blocks ==> !blackList.Clean(p, 1)
    }

    /** Block hbp is passed over: it is too small, the next one is better, it would have to be remapped and then split,
        or no page with enough pages after it is clean and the black lists count for its size. */
    ghost predicate PassOk(hbp: nat, hdr: Hdr, r: Request, maySplit: MaySplit)
      requires hdr.next != 0 ==> IsHdr(headers.view, hdr.next)
      reads headers, blackList
    {
      && blackList.Valid()
      && (|| hdr.blocks < r.Needed() || (maySplit.No? && hdr.blocks != r.Needed())
          || (!maySplit.No? && hdr.next != 0 && r.Needed() <= H(headers.view, hdr.next).blocks < hdr.blocks
              && blackList.Clean(hdr.next, r.Needed()))
          || (r.Checked() && maySplit.AvoidRemapped? && hdr.unmapped && !blackList.Clean(hbp, r.EffNeeded()))
          || (r.Checked() && !(r.Needed() * HBLKSIZE > r.blLimit && (hdr.blocks - r.Needed()) * HBLKSIZE > r.blLimit)
              && forall p: nat :: hbp <= p && p + r.Needed() <= hbp + hdr.blocks ==>
                   !blackList.Clean(p, r.EffNeeded())))
    }

    /** Decides about block hbp. */
    method Examine(hbp: nat, hdr: Hdr, r: Request, maySplit: MaySplit) returns (v: Verdict)
      requires Ready() && blackList.Valid() && r.Valid() && (hdr.next != 0 ==> IsHdr(headers.view, hdr.next))
      modifies `dropCount
      ensures v.TakeFrom? ==> TakeOk(hbp, FreeBlock(hdr.blocks, hdr.unmapped), r, maySplit, v.start)
      ensures v.DropAll? ==> DropOk(hbp, hdr, r) && dropCount == old(dropCount) + 1 && dropCount % 4 == 0
      ensures v.Pass? ==> PassOk(hbp, hdr, r, maySplit)
    {
      var needed := r.Needed();
      if hdr.blocks < needed {
        return Pass;
      }
      if hdr.blocks != needed {
        if maySplit.No? {
          return Pass;
        }
        var better := NextIsBetter(hdr, needed);
        if better {
          return Pass;
        }
      }
      if !r.Checked() {
        return TakeFrom(hbp);
      }
      var searchEnd := hbp + hdr.blocks - needed;
      var last := blackList.FirstClean(hbp, searchEnd, r.EffNeeded());
      var avail: int := hdr.blocks - (last - hbp);
      if avail >= needed {
        if last != hbp && maySplit.AvoidRemapped? && hdr.unmapped {
          return Pass;
        }
        return TakeFrom(last);
      } else if needed * HBLKSIZE > r.blLimit && (hdr.blocks - needed) * HBLKSIZE > r.blLimit {
        return TakeFrom(hbp);
      } else if avail == 0 && needed == 1 && !hdr.unmapped && !r.findLeak {
        dropCount := dropCount + 1;
        if dropCount % 4 == 0 {
          return DropAll;
        }
      }
      v := Pass;
    }

    /** Unmaps or remaps free block h. */
    method SetUnmapped(h: nat, unmapped: bool)
      requires Ready() && IsFree(headers.view, h) && Good(S(), {}, Nothing)
      modifies headers
      ensures Ready() && headers.view == Flagged(old(headers.view), h, unmapped) && Good(S(), {}, Nothing)
      ensures Quiet(old(S()), S(), 0)
      ensures AllMapped(old(headers.view)) && !unmapped ==> AllMapped(headers.view)
    {
      hide HeaderIndex.Shows, HeaderIndex.Chained, Good;
      FlagGood(S(), h, unmapped, {}, Nothing);
      var hdr := headers.HdrAt(h);
      headers.Update(h, hdr.(unmapped := unmapped));
    }

    /** Maps block hbp, at place k of list index, and cuts it at q if q is not its start. */
    method Prepare(hbp: nat, q: nat, index: nat, ghost k: nat) returns (ghost k': nat, ghost mis: Misplaced)
      requires Ready() && Good(S(), {}, Nothing) && index <= N_HBLK_FLS && k < |lists[index]| && lists[index][k] == hbp
      requires IsFree(headers.view, hbp) && hbp <= q < End(headers.view, hbp)
      modifies `lists, `owner, headers, heads, freePages
      ensures Ready() && Good(S(), {}, mis) && Quiet(old(S()), S(), 0)
      ensures index < |lists| && k' < |lists[index]| && lists[index][k'] == q && (mis.Misplaced? ==> mis.page == q)
      ensures IsFree(headers.view, q) && End(headers.view, q) == old(End(headers.view, hbp)) &&
              !headers.view[q].hdr.unmapped
      ensures !old(headers.view)[hbp].hdr.unmapped && Alone(old(headers.view)) ==> AloneBut(headers.view, q)
      ensures AllMapped(old(headers.view)) ==> AllMapped(headers.view)
    {
      assert |lists| == N_HBLK_FLS + 1;
      hide HeaderIndex.Shows, HeaderIndex.Chained, Good, Alone, AloneBut, AllMapped, UsedBlocks;
      var hdr := headers.HdrAt(hbp);
      k', mis := k, Nothing;
      if hdr.unmapped {
        SetUnmapped(hbp, false);
      }
      if q != hbp {
        ghost var s := S();
        headers.InstallHeader(q, Hdr(0, 0, false, false, 0, 0));
        k' := SplitBlock(hbp, q, index, k, s, Hdr(0, 0, false, false, 0, 0));
        mis := Misplaced(q, index);
      } else {
        AloneAloneBut(headers.view, q);
      }
    }

    ghost function Now(): Past
      reads `owner, `largeFree, `bytesDropped, headers, freePages
    {
      Past(UsedBlocks(headers.view), owner.Keys, largeFree, bytesDropped, AllMapped(headers.view),
           AllMapped(headers.view) && Alone(headers.view), FreeBlocks(headers.view), freePages[..])
    }

    /** Gives out the part of free block hbp that starts at q and has the pages r needs. */
    method Allocate(hbp: nat, q: nat, index: nat, ghost k: nat, r: Request)
      requires Valid() && index <= N_HBLK_FLS && k < |lists[index]| && lists[index][k] == hbp && r.Valid()
      requires IsFree(headers.view, hbp) && hbp <= q && q + r.Needed() <= End(headers.view, hbp)
      modifies `lists, `owner, `largeFree, headers, heads, freePages
      ensures Valid() && Gave(old(Now()), Now(), map[], q, r)
    {
      hide HeaderIndex.Shows, HeaderIndex.Chained, Good, Alone, AllMapped, UsedBlocks, Sectioned, Plausible, Gave,
        Total, Pages, UsedMapped;
      ghost var past := Now();
      FreePagesNotUsed(S(), hbp);
      MappedHere(headers.view, hbp);
      HandOut(hbp, q, index, k, r.sz);
      largeFree := largeFree - r.Needed();
      SameKeys(old(owner), owner, sects, least, greatest);
      UsedMappedMore(old(headers.view), headers.view, q);
      GaveOne(past, Now(), q, headers.view[q].hdr, r);
    }

    method HandOut(hbp: nat, q: nat, index: nat, ghost k: nat, sz: nat)
      requires Ready() && Good(S(), {}, Nothing) && index <= N_HBLK_FLS && k < |lists[index]| && lists[index][k] == hbp
      requires sz > 0 && sz % GRANULE_BYTES == 0
      requires IsFree(headers.view, hbp) && hbp <= q && q + ObjSzToBlocks(sz) <= End(headers.view, hbp)
      modifies `lists, `owner, headers, heads, freePages
      ensures Ready() && Good(S(), {}, Nothing) && owner.Keys == old(owner.Keys)
      ensures IsUsed(headers.view, q) && SetUp(headers.view[q].hdr, ObjSzToBlocks(sz), sz)
      ensures UsedBlocks(headers.view) == UsedBlocks(old(headers.view))[q := headers.view[q].hdr]
      ensures Total(freePages[..]) + ObjSzToBlocks(sz) == old(Total(freePages[..]))
      ensures !old(headers.view)[hbp].hdr.unmapped && Alone(old(headers.view)) ==> Alone(headers.view)
      ensures AllMapped(old(headers.view)) ==> AllMapped(headers.view)
    {
      hide HeaderIndex.Shows, HeaderIndex.Chained, Good, Alone, AloneBut, AloneNear, AllMapped, UsedBlocks;
      ghost var k', mis := Prepare(hbp, q, index, k);
      GetFirstPart(q, ObjSzToBlocks(sz), index, k', mis);
      TrimmedUsed(headers.view, q, ObjSzToBlocks(sz));
      UseBlock(q, ObjSzToBlocks(sz), sz);
    }

    /** Free block b is too small for r, on a list whose blocks may be split or not. */
    predicate TooSmall(b: FreeBlock, r: Request, maySplit: MaySplit) {
      b.blocks < r.Needed() || (maySplit.No? && b.blocks != r.Needed())
    }

    /** Free block p cannot serve r: it is too small, or, if the black lists matter to r, it would have to be remapped
        and then split, or no page with enough pages after it is clean although the black lists count for its size. */
    ghost predicate Unfit(p: nat, b: FreeBlock, r: Request, maySplit: MaySplit)
      requires blackList.Valid()
      reads blackList
    {
      || TooSmall(b, r, maySplit)
      || (r.Checked() && maySplit.AvoidRemapped? && b.unmapped && !blackList.Clean(p, r.EffNeeded()))
      || (r.Checked() && !(r.Needed() * HBLKSIZE > r.blLimit && (b.blocks - r.Needed()) * HBLKSIZE > r.blLimit)
          && forall q: nat :: p <= q && q + r.Needed() <= p + b.blocks ==> !blackList.Clean(q, r.EffNeeded()))
    }

    /** No free block of a size for lists [from, to) can serve r. */
    ghost predicate Searched(free: map<nat, FreeBlock>, r: Request, maySplit: MaySplit, from: nat, to: nat)
      requires blackList.Valid()
      reads blackList
    {
      forall p: nat :: p in free && from <= ListFor(free[p].blocks) < to ==> Unfit(p, free[p], r, maySplit)
    }

    ghost predicate UnfitAt(r: Request, maySplit: MaySplit, n: nat, j: nat)
      requires blackList.Valid() && n < |lists| && j < |lists[n]|
      reads `lists, headers, blackList
    {
      lists[n][j] in FreeBlocks(headers.view) && Unfit(lists[n][j], FreeBlocks(headers.view)[lists[n][j]], r, maySplit)
    }

    /** Block k of list n will be taken: it is big enough and clean. */
    ghost predicate FitsAt(r: Request, maySplit: MaySplit, n: nat, k: nat)
      requires blackList.Valid() && n < |lists| && k < |lists[n]|
      reads `lists, headers, blackList
    {
      && lists[n][k] in FreeBlocks(headers.view) && !TooSmall(FreeBlocks(headers.view)[lists[n][k]], r, maySplit)
      && blackList.Clean(lists[n][k], r.Needed())
    }

    /** The first k blocks of list n cannot serve r, unless they were passed over for a smaller one that will and comes
        next. */
    ghost predicate PassedOver(r: Request, maySplit: MaySplit, n: nat, k: nat)
      requires blackList.Valid() && n < |lists|
      reads `lists, headers, blackList
    {
      || (forall j: nat :: j < k && j < |lists[n]| ==> UnfitAt(r, maySplit, n, j))
      || (k < |lists[n]| && FitsAt(r, maySplit, n, k))
    }

    /** Free block q is smaller than p, but large enough, and clean. */
    ghost predicate Better(free: map<nat, FreeBlock>, p: nat, q: nat, r: Request, maySplit: MaySplit)
      requires blackList.Valid()
      reads blackList
    {
      && p in free && q in free && !maySplit.No? && r.Needed() <= free[q].blocks < free[p].blocks
      && blackList.Clean(q, r.Needed())
    }

    /** Block j of a list is passed over because it cannot serve r, or because the next one is better. */
    ghost predicate PassedAt(free: map<nat, FreeBlock>, order: seq<nat>, j: nat, r: Request, maySplit: MaySplit)
      requires blackList.Valid() && j < |order|
      reads blackList
    {
      || (order[j] in free && Unfit(order[j], free[order[j]], r, maySplit))
      || (j + 1 < |order| && Better(free, order[j], order[j + 1], r, maySplit))
    }

    /** The first k blocks of a list are passed over. */
    ghost predicate InOrder(free: map<nat, FreeBlock>, order: seq<nat>, k: nat, r: Request, maySplit: MaySplit)
      requires blackList.Valid() && k <= |order|
      reads blackList
    {
      forall j: nat :: j < k ==> PassedAt(free, order, j, r, maySplit)
    }

    /** Block c.k, the first of its list that is not to be passed over, serves r from start on. */
    ghost predicate Chosen(c: Choice, start: nat, r: Request, maySplit: MaySplit)
      reads blackList
    {
      && c.k < |c.order| && c.order[c.k] in c.free
      && TakeOk(c.order[c.k], c.free[c.order[c.k]], r, maySplit, start)
      && InOrder(c.free, c.order, c.k, r, maySplit)
    }

    /** The search was on list n. */
    predicate OnList(c: Choice, n: nat, lists: seq<seq<nat>>) { n < |lists| && c.order == lists[n] }

    lemma ListNamed(c: Choice, n: nat)
      requires n < |lists| && c.order == lists[n]
      ensures OnList(c, n, lists)
    {
    }

    lemma SomethingDropped(d: map<nat, Hdr>, e: map<nat, Hdr>)
      requires d != map[]
      ensures d + e != map[]
    {
      var p :| p in d;
      assert p in d + e;
    }

    lemma NothingDroppedYet(d: map<nat, Hdr>, e: map<nat, Hdr>)
      ensures d + e == map[] ==> d == map[] && e == map[]
    {
      if d != map[] {
        SomethingDropped(d, e);
      } else {
        assert d + e == e;
      }
    }

    /** Only single pages are dropped, for requests of one page that the black lists matter to. */
    ghost predicate DropsFor(drops: map<nat, Hdr>, r: Request) { drops != map[] ==> r.Needed() == 1 && r.Checked() }

    /** No object may start on any of the pages in drops. */
    ghost predicate Unusable(drops: map<nat, Hdr>)
      reads blackList
    {
      blackList.Valid() && forall p: nat :: p in drops ==> !blackList.Clean(p, 1)
    }

    lemma ListsValid()
      requires Valid()
      ensures Ready() && |lists| == N_HBLK_FLS + 1
    {
    }

    /** The block at place k of list n, its links, and the links of the block before it. */
    lemma BlockAt(n: nat, k: nat)
      requires Valid() && n <= N_HBLK_FLS && n < |lists| && k < |lists[n]|
      ensures var h := lists[n][k];
              && IsFree(headers.view, h) && H(headers.view, h).blocks <= largeFree
              && H(headers.view, h).next == Elem(lists[n], k + 1) && H(headers.view, h).prev == Elem(lists[n], k - 1)
              && (H(headers.view, h).next != 0 ==> IsFree(headers.view, H(headers.view, h).next))
              && (H(headers.view, h).prev == 0 <==> k == 0)
              && (H(headers.view, h).next == 0 <==> k + 1 == |lists[n]|)
    {
      hide Good, UsedMapped, Sectioned, Plausible;
      ListBlock(S(), n, k);
      PlaceOnList(S(), n, k + 1);
      if k > 0 {
        PlaceOnList(S(), n, k - 1);
      }
    }

    /** Drops block h, at place k of list n. */
    method DropHere(h: nat, n: nat, ghost k: nat) returns (ghost drops: map<nat, Hdr>)
      requires Valid() && n <= N_HBLK_FLS && k < |lists[n]| && lists[n][k] == h
      requires IsHdr(headers.view, h) && !headers.view[h].hdr.unmapped
      modifies `lists, `owner, `largeFree, `bytesDropped, headers, heads, freePages
      ensures Valid() && Dropped(old(Now()), Now(), drops) && drops.Keys == Pages(h, old(H(headers.view, h)).blocks)
      ensures lists == old(lists)[n := Without(old(lists)[n], k)]
    {
      hide HeaderIndex.Shows, HeaderIndex.Chained, Good, Alone, AllMapped, UsedBlocks, Sectioned, Plausible, Pages,
        Without, UsedMapped, Dropped, SetUp, Total, Remains, NoneMore, FreeBlocks;
      ListBlock(S(), n, k);
      FreePagesNotUsed(S(), h);
      ghost var x, past, size := headers.view, Now(), headers.view[h].hdr.blocks;
      drops := DropBlock(h, n, k);
      PagesDropped(past, Now(), drops, h, size);
      UsedMappedDrops(x, headers.view, drops);
      SameKeys(old(owner), owner, sects, least, greatest);
    }

    lemma NothingUnusable(r: Request)
      requires blackList.Valid()
      ensures Unusable(map[]) && DropsFor(map[], r)
    {
    }

    lemma MoreUnusable(d: map<nat, Hdr>, e: map<nat, Hdr>, r: Request)
      requires Unusable(d) && Unusable(e) && DropsFor(d, r) && DropsFor(e, r)
      ensures Unusable(d + e) && DropsFor(d + e, r)
    {
    }

    /** The search stands at place k of list n. */
    ghost predicate At(n: nat, k: nat, hbp: nat)
      reads `lists
    {
      && |lists| == N_HBLK_FLS + 1 && n <= N_HBLK_FLS && k <= |lists[n]|
      && hbp == Elem(lists[n], k) && (hbp == 0 ==> k == |lists[n]|)
    }

    lemma AtStart(r: Request, maySplit: MaySplit, n: nat)
      requires Valid() && n <= N_HBLK_FLS && blackList.Valid()
      ensures |lists| == N_HBLK_FLS + 1 && Ready() && At(n, 0, heads[n]) && PassedOver(r, maySplit, n, 0)
      ensures InOrder(FreeBlocks(headers.view), lists[n], 0, r, maySplit)
    {
    }

    lemma AtBlock(n: nat, k: nat, hbp: nat)
      requires Valid() && At(n, k, hbp) && hbp != 0
      ensures |lists| == N_HBLK_FLS + 1 && k < |lists[n]| && lists[n][k] == hbp && Ready() && IsFree(headers.view, hbp)
      ensures IsHdr(headers.view, hbp) && headers.Valid()
      ensures H(headers.view, hbp).next != 0 ==> IsHdr(headers.view, H(headers.view, hbp).next)
    {
      ListsValid();
      BlockAt(n, k);
    }

    lemma AtNext(n: nat, k: nat, hbp: nat, r: Request, maySplit: MaySplit)
      requires Valid() && At(n, k, hbp) && hbp != 0 && IsHdr(headers.view, hbp)
      requires H(headers.view, hbp).next != 0 ==> IsHdr(headers.view, H(headers.view, hbp).next)
      requires PassOk(hbp, H(headers.view, hbp), r, maySplit) && PassedOver(r, maySplit, n, k)
      requires InOrder(FreeBlocks(headers.view), lists[n], k, r, maySplit)
      ensures At(n, k + 1, H(headers.view, hbp).next) && PassedOver(r, maySplit, n, k + 1)
      ensures k < |lists[n]| && InOrder(FreeBlocks(headers.view), lists[n], k + 1, r, maySplit)
    {
      BlockAt(n, k);
      hide Valid, Ready;
      var next := H(headers.view, hbp).next;
      assert next == Elem(lists[n], k + 1);
      Passed(n, k, r, maySplit);
      PassedInOrder(n, k, r, maySplit);
    }

    lemma CleanFewer(h: nat, n: nat, m: nat)
      requires blackList.Valid() && blackList.Clean(h, n) && (m <= n || m == 1)
      ensures blackList.Clean(h, m)
    {
    }

    /** Passing over a block that would do means that the next one will. */
    lemma Passed(n: nat, k: nat, r: Request, maySplit: MaySplit)
      requires blackList.Valid() && n < |lists| && k < |lists[n]| && IsFree(headers.view, lists[n][k])
      requires var next := H(headers.view, lists[n][k]).next;
               && next == Elem(lists[n], k + 1) && (next == 0 <==> k + 1 == |lists[n]|)
               && (next != 0 ==> IsFree(headers.view, next))
      requires PassOk(lists[n][k], H(headers.view, lists[n][k]), r, maySplit) && PassedOver(r, maySplit, n, k)
      ensures PassedOver(r, maySplit, n, k + 1)
    {
      var hbp := lists[n][k];
      assert FreeBlocks(headers.view)[hbp] == FreeBlock(H(headers.view, hbp).blocks, H(headers.view, hbp).unmapped);
      if FitsAt(r, maySplit, n, k) {
        CleanFewer(hbp, r.Needed(), r.EffNeeded());
        assert FitsAt(r, maySplit, n, k + 1);
      } else if !UnfitAt(r, maySplit, n, k) {
        assert FitsAt(r, maySplit, n, k + 1);
      }
    }

    lemma PassedInOrder(n: nat, k: nat, r: Request, maySplit: MaySplit)
      requires blackList.Valid() && n < |lists| && k < |lists[n]| && IsFree(headers.view, lists[n][k])
      requires var next := H(headers.view, lists[n][k]).next;
               && next == Elem(lists[n], k + 1) && (next == 0 <==> k + 1 == |lists[n]|)
               && (next != 0 ==> IsFree(headers.view, next))
      requires PassOk(lists[n][k], H(headers.view, lists[n][k]), r, maySplit)
      requires InOrder(FreeBlocks(headers.view), lists[n], k, r, maySplit)
      ensures InOrder(FreeBlocks(headers.view), lists[n], k + 1, r, maySplit)
    {
      var free, hbp := FreeBlocks(headers.view), lists[n][k];
      assert free[hbp] == FreeBlock(H(headers.view, hbp).blocks, H(headers.view, hbp).unmapped);
      assert PassedAt(free, lists[n], k, r, maySplit);
    }

    lemma AtEnd(n: nat, k: nat, r: Request, maySplit: MaySplit)
      requires Valid() && blackList.Valid() && At(n, k, 0) && PassedOver(r, maySplit, n, k)
      ensures Searched(FreeBlocks(headers.view), r, maySplit, n, n + 1)
    {
      hide Unfit;
      var free := FreeBlocks(headers.view);
      forall p: nat | p in free && ListFor(free[p].blocks) == n
        ensures Unfit(p, free[p], r, maySplit)
      {
        var j := PlaceOf(S(), p, {});
        assert UnfitAt(r, maySplit, n, j);
      }
    }

    /** A block with no clean page is not one that would do. */
    lemma DropMeansUnfit(n: nat, k: nat, h: nat, r: Request, maySplit: MaySplit)
      requires Valid() && At(n, k, h) && h != 0 && IsHdr(headers.view, h) && DropOk(h, H(headers.view, h), r)
      requires PassedOver(r, maySplit, n, k)
      ensures blackList.Valid() && |lists| == N_HBLK_FLS + 1 && k < |lists[n]|
      ensures forall j: nat :: j < k ==> UnfitAt(r, maySplit, n, j)
    {
      BlockAt(n, k);
      hide Valid, Ready;
      assert FreeBlocks(headers.view)[h] == FreeBlock(H(headers.view, h).blocks, H(headers.view, h).unmapped);
      assert !FitsAt(r, maySplit, n, k);
    }

    /** The blocks before a dropped one stay as they are. */
    lemma DropKeepsPassed(was: seq<nat>, free: map<nat, FreeBlock>, n: nat, k: nat, r: Request, maySplit: MaySplit)
      requires Valid() && blackList.Valid()
      requires n <= N_HBLK_FLS && n < |lists| && k < |was| && lists[n] == Without(was, k)
      requires FewerFree(free, FreeBlocks(headers.view))
      requires forall j: nat :: j < k ==> was[j] in free && Unfit(was[j], free[was[j]], r, maySplit)
      ensures PassedOver(r, maySplit, n, k)
      ensures k <= |lists[n]| && InOrder(FreeBlocks(headers.view), lists[n], k, r, maySplit)
    {
      hide Unfit;
      forall j: nat | j < k && j < |lists[n]|
        ensures UnfitAt(r, maySplit, n, j)
      {
        BlockAt(n, j);
        assert lists[n][j] == was[j] && was[j] in FreeBlocks(headers.view);
      }
    }

    /** Drops block h, at place k of list n, and goes on with the block after the one before it; if there is none before
        it, the search is to start over. */
    method DropAndStepBack(h: nat, n: nat, ghost k: nat, r: Request, ghost maySplit: MaySplit, ghost past: Past,
                           ghost dropped: map<nat, Hdr>)
      returns (next: nat, restart: bool, ghost drops: map<nat, Hdr>)
      requires Valid() && At(n, k, h) && h != 0 && IsHdr(headers.view, h) && DropOk(h, H(headers.view, h), r)
      requires Dropped(past, Now(), dropped) && Unusable(dropped) && PassedOver(r, maySplit, n, k)
      modifies `lists, `owner, `largeFree, `bytesDropped, headers, heads, freePages
      ensures Valid() && Dropped(past, Now(), drops) && Unusable(drops)
      ensures |lists| == N_HBLK_FLS + 1 && |lists[n]| < |old(lists)[n]|
      ensures !restart ==> At(n, k, next) && PassedOver(r, maySplit, n, k)
      ensures k <= |lists[n]| && InOrder(FreeBlocks(headers.view), lists[n], k, r, maySplit)
      ensures DropsFor(drops, r) && drops != map[]
    {
      hide *;
      DropAllowed(n, k, h, r);
      DropMeansUnfit(n, k, h, r, maySplit);
      ghost var now, was := Now(), lists[n];
      UnfitBefore(n, k, r, maySplit);
      ghost var more;
      next, more := DropAndLook(h, n, k);
      DroppedFree(now, Now(), more);
      DropKeepsPassed(was, now.free, n, k, r, maySplit);
      DroppedMore(past, now, Now(), dropped, more);
      drops := dropped + more;
      DropUnusable(h, old(H(headers.view, h)), r, dropped, more);
      restart := next == 0;
      if !restart {
        next := NextOf(next, n, k - 1);
      }
    }

    lemma UnfitBefore(n: nat, k: nat, r: Request, maySplit: MaySplit)
      requires blackList.Valid() && n < |lists| && k < |lists[n]|
      requires forall j: nat :: j < k ==> UnfitAt(r, maySplit, n, j)
      ensures forall j: nat :: j < k ==>
                lists[n][j] in Now().free && Unfit(lists[n][j], Now().free[lists[n][j]], r, maySplit)
    {
      hide Unfit;
      forall j: nat | j < k
        ensures lists[n][j] in Now().free && Unfit(lists[n][j], Now().free[lists[n][j]], r, maySplit)
      {
        assert UnfitAt(r, maySplit, n, j);
      }
    }

    lemma DroppedRemains(a: Past, b: Past, drops: map<nat, Hdr>)
      requires Dropped(a, b, drops)
      ensures Remains(a.free, b.free, drops) && NoneMore(a.sums, b.sums)
    {
    }

    lemma DroppedFree(a: Past, b: Past, drops: map<nat, Hdr>)
      requires Dropped(a, b, drops) && b == Now()
      ensures FewerFree(a.free, FreeBlocks(headers.view)) && NoneMore(a.sums, freePages[..])
    {
    }

    lemma NowSearched()
      ensures Now().free == FreeBlocks(headers.view) && Now().sums == freePages[..]
    {
    }

    /** Drops block h, at place k of list n, and returns the block before it. */
    method DropAndLook(h: nat, n: nat, ghost k: nat) returns (prev: nat, ghost drops: map<nat, Hdr>)
      requires Valid() && n <= N_HBLK_FLS && |lists| == N_HBLK_FLS + 1 && k < |lists[n]| && lists[n][k] == h
      requires IsHdr(headers.view, h) && !headers.view[h].hdr.unmapped
      modifies `lists, `owner, `largeFree, `bytesDropped, headers, heads, freePages
      ensures Valid() && Dropped(old(Now()), Now(), drops) && drops.Keys == Pages(h, old(H(headers.view, h)).blocks)
      ensures |lists| == N_HBLK_FLS + 1 && lists[n] == Without(old(lists)[n], k) && |lists[n]| == |old(lists)[n]| - 1
      ensures prev != 0 ==> k > 0 && lists[n][k - 1] == prev
    {
      hide Now, Dropped, Pages, Good, UsedMapped, Sectioned, Plausible, HeaderIndex.Shows, HeaderIndex.Chained;
      BlockAt(n, k);
      var hdr := headers.HdrAt(h);
      drops := DropHere(h, n, k);
      prev := hdr.prev;
    }

    lemma DropAllowed(n: nat, k: nat, h: nat, r: Request)
      requires Valid() && At(n, k, h) && h != 0 && IsHdr(headers.view, h) && DropOk(h, H(headers.view, h), r)
      ensures n <= N_HBLK_FLS && |lists| == N_HBLK_FLS + 1 && k < |lists[n]| && lists[n][k] == h
      ensures !headers.view[h].hdr.unmapped && H(headers.view, h).blocks > 0
    {
      BlockNotEmpty(S(), h, {});
    }

    lemma DropUnusable(h: nat, hdr: Hdr, r: Request, dropped: map<nat, Hdr>, more: map<nat, Hdr>)
      requires hdr.blocks > 0 && DropOk(h, hdr, r) && Unusable(dropped) && more.Keys == Pages(h, hdr.blocks)
      ensures Unusable(dropped + more) && DropsFor(dropped + more, r) && dropped + more != map[]
    {
      assert h in more.Keys;
      SomethingDropped(more, dropped);
      assert h in dropped + more;
    }

    method NextOf(h: nat, n: nat, ghost k: nat) returns (next: nat)
      requires Valid() && n <= N_HBLK_FLS && k < |lists[n]| && lists[n][k] == h
      ensures At(n, k + 1, next)
    {
      BlockAt(n, k);
      hide UsedMapped, Sectioned, Plausible, Good, HeaderIndex.Shows, HeaderIndex.Chained;
      var hdr := headers.HdrAt(h);
      next := hdr.next;
    }

    /** GC_allochblk_nth: the first block of list n that will do, if any. */
    method AllochblkNth(r: Request, n: nat, maySplit: MaySplit)
      returns (result: Option<nat>, ghost drops: map<nat, Hdr>, ghost choice: Choice)
      requires Valid() && blackList.Valid() && r.Valid() && n <= N_HBLK_FLS
      modifies `lists, `owner, `largeFree, `bytesDropped, `dropCount, headers, heads, freePages
      ensures Valid() && Unusable(drops) && DropsFor(drops, r)
      ensures result.Some? ==> Gave(old(Now()), Now(), drops, result.value, r)
      ensures result.Some? ==>
                && Remains(old(FreeBlocks(headers.view)), choice.free, drops)
                && Chosen(choice, result.value, r, maySplit) && ListFor(choice.free[choice.order[choice.k]].blocks) == n
      ensures result.None? ==> Dropped(old(Now()), Now(), drops)
      ensures drops == map[] ==> if result.None? then lists == old(lists) else OnList(choice, n, old(lists))
      ensures !r.Checked() && result.None? ==>
                headers.view == old(headers.view) && lists == old(lists) && freePages[..] == old(freePages[..])
      ensures result.None? ==> Searched(FreeBlocks(headers.view), r, maySplit, n, n + 1)
      decreases |lists[n]|, 0
    {
      hide *;
      ghost var past := Now();
      NowSearched();
      drops, choice := map[], Choice(map[], [], 0);
      NothingDropped(past);
      NothingUnusable(r);
      AtStart(r, maySplit, n);
      var hbp := heads[n];
      ghost var k := 0;
      while hbp != 0
        invariant Valid() && At(n, k, hbp) && |lists| == N_HBLK_FLS + 1 && k <= |lists[n]| <= |old(lists)[n]|
        invariant Dropped(past, Now(), drops) && Unusable(drops)
        invariant !r.Checked() ==>
                    headers.view == old(headers.view) && lists == old(lists) && freePages[..] == old(freePages[..])
        invariant PassedOver(r, maySplit, n, k) && InOrder(FreeBlocks(headers.view), lists[n], k, r, maySplit)
        invariant DropsFor(drops, r) && (drops == map[] ==> lists == old(lists))
        decreases |lists[n]|, |lists[n]| - k
      {
        AtBlock(n, k, hbp);
        var hdr := headers.HdrAt(hbp);
        var verdict := Examine(hbp, hdr, r, maySplit);
        match verdict
        case Pass =>
          AtNext(n, k, hbp, r, maySplit);
          hbp := hdr.next;
          k := k + 1;
        case TakeFrom(start) =>
          choice := Give(hbp, start, n, k, r, maySplit, past, drops);
          return Some(start), drops, choice;
        case DropAll =>
          var restart;
          hbp, restart, drops := DropAndStepBack(hbp, n, k, r, maySplit, past, drops);
          if restart {
            result, drops, choice := StartOver(r, n, maySplit, past, drops);
            return;
          }
      }
      AtEnd(n, k, r, maySplit);
      result := None;
    }

    method StartOver(r: Request, n: nat, maySplit: MaySplit, ghost past: Past, ghost dropped: map<nat, Hdr>)
      returns (result: Option<nat>, ghost drops: map<nat, Hdr>, ghost choice: Choice)
      requires Valid() && blackList.Valid() && r.Valid() && n <= N_HBLK_FLS && Dropped(past, Now(), dropped) &&
               Unusable(dropped) && DropsFor(dropped, r) && dropped != map[]
      modifies `lists, `owner, `largeFree, `bytesDropped, `dropCount, headers, heads, freePages
      ensures Valid() && Unusable(drops) && DropsFor(drops, r) && drops != map[]
      ensures result.Some? ==> Gave(past, Now(), drops, result.value, r)
      ensures result.Some? ==>
                && Remains(past.free, choice.free, drops)
                && Chosen(choice, result.value, r, maySplit) && ListFor(choice.free[choice.order[choice.k]].blocks) == n
      ensures result.None? ==> Dropped(past, Now(), drops)
      ensures result.None? ==> Searched(FreeBlocks(headers.view), r, maySplit, n, n + 1)
      decreases |lists[n]|, 1
    {
      hide *;
      ghost var now := Now();
      NowSearched();
      ghost var again;
      result, again, choice := AllochblkNth(r, n, maySplit);
      MoreUnusable(dropped, again, r);
      DroppedRemains(past, now, dropped);
      if result.Some? {
        DroppedThenGave(past, now, Now(), dropped, again, result.value, r);
        RemainsMore(past.free, now.free, choice.free, dropped, again);
      } else {
        DroppedMore(past, now, Now(), dropped, again);
      }
      drops := dropped + again;
      SomethingDropped(dropped, again);
    }

    method Give(hbp: nat, start: nat, n: nat, ghost k: nat, r: Request, maySplit: MaySplit,
                ghost past: Past, ghost drops: map<nat, Hdr>)
      returns (ghost choice: Choice)
      requires Valid() && At(n, k, hbp) && hbp != 0 && r.Valid() && IsHdr(headers.view, hbp)
      requires TakeOk(hbp, FreeBlock(H(headers.view, hbp).blocks, H(headers.view, hbp).unmapped), r, maySplit, start)
      requires Dropped(past, Now(), drops) && InOrder(FreeBlocks(headers.view), lists[n], k, r, maySplit)
      modifies `lists, `owner, `largeFree, headers, heads, freePages
      ensures Valid() && Gave(past, Now(), drops, start, r)
      ensures Remains(past.free, choice.free, drops) && Chosen(choice, start, r, maySplit)
      ensures ListFor(choice.free[choice.order[choice.k]].blocks) == n && OnList(choice, n, old(lists))
    {
      hide *;
      GiveAllowed(hbp, start, n, k, r, maySplit);
      ghost var now := Now();
      NowSearched();
      DroppedRemains(past, now, drops);
      choice := Choice(now.free, lists[n], k);
      assert OnList(choice, n, lists) by { ListsValid(); ListNamed(choice, n); }
      GiveChosen(choice, hbp, start, n, k, r, maySplit);
      Allocate(hbp, start, n, k, r);
      DroppedThenGave(past, now, Now(), drops, map[], start, r);
      assert drops + map[] == drops;
    }

    lemma GiveAllowed(hbp: nat, start: nat, n: nat, k: nat, r: Request, maySplit: MaySplit)
      requires Valid() && At(n, k, hbp) && hbp != 0 && r.Valid() && IsHdr(headers.view, hbp)
      requires TakeOk(hbp, FreeBlock(H(headers.view, hbp).blocks, H(headers.view, hbp).unmapped), r, maySplit, start)
      ensures n <= N_HBLK_FLS && n < |lists| && k < |lists[n]| && lists[n][k] == hbp
      ensures IsFree(headers.view, hbp) && hbp <= start && start + r.Needed() <= End(headers.view, hbp)
    {
      BlockAt(n, k);
    }

    lemma GiveChosen(c: Choice, hbp: nat, start: nat, n: nat, k: nat, r: Request, maySplit: MaySplit)
      requires Valid() && n <= N_HBLK_FLS && n < |lists| && k < |lists[n]| && lists[n][k] == hbp
      requires IsFree(headers.view, hbp) && c == Choice(FreeBlocks(headers.view), lists[n], k)
      requires TakeOk(hbp, FreeBlock(H(headers.view, hbp).blocks, H(headers.view, hbp).unmapped), r, maySplit, start)
      requires InOrder(FreeBlocks(headers.view), lists[n], k, r, maySplit)
      ensures Chosen(c, start, r, maySplit) && ListFor(c.free[c.order[c.k]].blocks) == n
    {
      ListBlock(S(), n, k);
      hide Valid, Ready;
      assert c.free[hbp] == FreeBlock(H(headers.view, hbp).blocks, H(headers.view, hbp).unmapped);
    }

    /** GC_enough_large_bytes_left: the largest n such that lists n and up hold enough free bytes, or 0. */
    method EnoughLargeBytesLeft(p: Policy) returns (n: nat)
      requires Ready()
      ensures n <= N_HBLK_FLS
      ensures n > 0 ==> p.largeAllocd + BytesFrom(freePages[..], n) >= p.maxLargeAllocd
      ensures forall m: nat :: n < m <= N_HBLK_FLS ==> p.largeAllocd + BytesFrom(freePages[..], m) < p.maxLargeAllocd
    {
      var i: int := N_HBLK_FLS;
      var bytes := p.largeAllocd;
      while i >= 0
        invariant -1 <= i <= N_HBLK_FLS && bytes == p.largeAllocd + BytesFrom(freePages[..], i + 1)
        invariant forall m: nat :: i < m <= N_HBLK_FLS ==>
                    p.largeAllocd + BytesFrom(freePages[..], m) < p.maxLargeAllocd
      {
        bytes := bytes + freePages[i] * HBLKSIZE;
        if bytes >= p.maxLargeAllocd {
          return i;
        }
        i := i - 1;
      }
      n := 0;
    }

    /** The way GC_allochblk splits blocks under a policy, unless its limit is 0. */
    function Splitting(policy: Policy): MaySplit {
      if !policy.useAll && !policy.finalizersHeavy && policy.canUnmap then AvoidRemapped else Yes
    }

    /** No free block of exactly the size that r needs can serve it; and every larger one that could is kept back, which
        none is if all of the heap should be used. */
    ghost predicate NoRoom(r: Request, policy: Policy)
      requires blackList.Valid()
      reads headers, freePages, blackList
    {
      forall p: nat :: IsFree(headers.view, p) ==>
        var b := FreeBlock(H(headers.view, p).blocks, H(headers.view, p).unmapped);
        && Unfit(p, b, r, No)
        && (Unfit(p, b, r, Splitting(policy)) || KeptBack(freePages[..], policy, ListFor(b.blocks)))
    }

    /** Some free block is just what r needs. */
    ghost predicate ExactFit(free: map<nat, FreeBlock>, r: Request)
      requires blackList.Valid()
      reads blackList
    {
      exists p: nat :: p in free && free[p].blocks == r.Needed() && !Unfit(p, free[p], r, No)
    }

    /** No free block of exactly the size that r needs can serve it. */
    ghost predicate NoExactFit(free: map<nat, FreeBlock>, r: Request)
      requires blackList.Valid()
      reads blackList
    {
      Searched(free, r, No, ListFor(r.Needed()), ListFor(r.Needed()) + 1)
    }

    /** What is given out is a block of exactly the size needed; or there is none that can serve, and it is cut off a
        block on the lowest list that has one to serve, which is not kept back. */
    ghost predicate BestFit(c: Choice, start: nat, r: Request, policy: Policy, sums: seq<nat>)
      requires blackList.Valid() && c.k < |c.order| && c.order[c.k] in c.free
      reads blackList
    {
      var n := ListFor(c.free[c.order[c.k]].blocks);
      || Chosen(c, start, r, No)
      || (NoExactFit(c.free, r) && Chosen(c, start, r, Splitting(policy))
          && Searched(c.free, r, Splitting(policy), ListFor(r.Needed()), n) && !KeptBack(sums, policy, n))
    }

    lemma NotExact(free: map<nat, FreeBlock>, r: Request)
      requires blackList.Valid()
      ensures NoExactFit(free, r) ==> !ExactFit(free, r)
    {
    }

    /** Dropping takes no block that would fit exactly. */
    lemma ExactFitRemains(a: map<nat, FreeBlock>, b: map<nat, FreeBlock>, drops: map<nat, Hdr>, r: Request)
      requires blackList.Valid() && r.Valid() && Remains(a, b, drops) && Unusable(drops) && DropsFor(drops, r)
      requires ExactFit(a, r)
      ensures ExactFit(b, r)
    {
      hide ObjSzToBlocks, BlackListing.BlackList.Clean;
      var p: nat :| p in a && a[p].blocks == r.Needed() && !Unfit(p, a[p], r, No);
      if p in drops {
        assert drops != map[] && !blackList.Clean(p, 1);
        assert r.EffNeeded() == 1;
      }
    }

    /** A block that fits exactly is given out whole. */
    lemma ExactFitTaken(a: map<nat, FreeBlock>, c: Choice, drops: map<nat, Hdr>, start: nat, r: Request, policy: Policy,
                        sums: seq<nat>)
      requires blackList.Valid() && r.Valid() && Remains(a, c.free, drops) && Unusable(drops) && DropsFor(drops, r)
      requires c.k < |c.order| && c.order[c.k] in c.free && BestFit(c, start, r, policy, sums)
      ensures ExactFit(a, r) ==> start in a && a[start].blocks == r.Needed()
    {
      if ExactFit(a, r) {
        ExactFitRemains(a, c.free, drops, r);
        NotExact(c.free, r);
      }
    }

    /** Nothing was given out, so nothing fitted exactly. */
    lemma NoExactFitBefore(a: map<nat, FreeBlock>, drops: map<nat, Hdr>, r: Request)
      requires blackList.Valid() && r.Valid() && Remains(a, FreeBlocks(headers.view), drops) && Unusable(drops)
      requires DropsFor(drops, r) && NoExactFit(FreeBlocks(headers.view), r)
      ensures !ExactFit(a, r)
    {
      NotExact(FreeBlocks(headers.view), r);
      if ExactFit(a, r) {
        ExactFitRemains(a, FreeBlocks(headers.view), drops, r);
      }
    }

    lemma NoneMoreAgain(a: seq<nat>, b: seq<nat>, c: seq<nat>)
      requires NoneMore(a, b) && NoneMore(b, c)
      ensures NoneMore(a, c)
    {
    }

    lemma NoneMoreYet(a: seq<nat>)
      ensures NoneMore(a, a)
    {
    }

    lemma SearchedFewer(a: map<nat, FreeBlock>, b: map<nat, FreeBlock>, r: Request, maySplit: MaySplit, from: nat,
                        to: nat)
      requires blackList.Valid() && Searched(a, r, maySplit, from, to) && FewerFree(a, b)
      ensures Searched(b, r, maySplit, from, to)
    {
    }

    lemma SearchedMore(free: map<nat, FreeBlock>, r: Request, maySplit: MaySplit, from: nat, n: nat)
      requires blackList.Valid() && Searched(free, r, maySplit, from, n) && Searched(free, r, maySplit, n, n + 1)
      ensures Searched(free, r, maySplit, from, n + 1)
    {
    }

    lemma {:induction false} BytesShrink(sums: seq<nat>, sums': seq<nat>, n: nat)
      requires NoneMore(sums, sums')
      ensures BytesFrom(sums', n) <= BytesFrom(sums, n)
      decreases |sums| - n
    {
      if n < |sums| {
        BytesShrink(sums, sums', n + 1);
      }
    }

    lemma SearchedAll(r: Request, policy: Policy, maySplit: MaySplit, to: nat, sums: seq<nat>)
      requires blackList.Valid() && (maySplit == Yes || maySplit == Splitting(policy))
      requires Searched(FreeBlocks(headers.view), r, maySplit, ListFor(r.Needed()), to)
      requires NoExactFit(FreeBlocks(headers.view), r)
      requires KeptBackFrom(sums, policy, to) && NoneMore(sums, freePages[..])
      ensures NoRoom(r, policy)
    {
      var free := FreeBlocks(headers.view);
      forall p: nat | IsFree(headers.view, p)
        ensures Unfit(p, free[p], r, No)
        ensures Unfit(p, free[p], r, Splitting(policy)) || KeptBack(freePages[..], policy, ListFor(free[p].blocks))
      {
        var b := free[p].blocks;
        if b == r.Needed() {
          assert Unfit(p, free[p], r, No);
        }
        if b >= r.Needed() {
          ListForMonotone(r.Needed(), b);
          if ListFor(b) < to {
            assert Unfit(p, free[p], r, maySplit);
          } else {
            BytesShrink(sums, freePages[..], ListFor(b));
            assert KeptBack(sums, policy, ListFor(b));
          }
        }
      }
    }

    lemma NothingKeptBack(policy: Policy)
      ensures KeptBackFrom(freePages[..], policy, N_HBLK_FLS + 1)
    {
    }

    lemma KeptBackMore(sums: seq<nat>, policy: Policy, from: nat, to: nat)
      requires KeptBackFrom(sums, policy, from) && from <= to
      ensures KeptBackFrom(sums, policy, to)
    {
    }

    lemma {:induction false} BytesFromMonotone(sums: seq<nat>, n: nat, m: nat)
      requires n <= m
      ensures BytesFrom(sums, m) <= BytesFrom(sums, n)
      decreases m - n
    {
      if n < m {
        BytesFromMonotone(sums, n + 1, m);
      }
    }

    /** Up to the split limit nothing is kept back, by what was on the lists at first. */
    lemma UpToLimit(before: seq<nat>, sums: seq<nat>, policy: Policy, n: nat, limit: nat)
      requires NoneMore(before, sums) && n <= limit && !KeptBack(sums, policy, limit)
      ensures !KeptBack(before, policy, n)
    {
      BytesFromMonotone(sums, n, limit);
      BytesShrink(before, sums, n);
    }

    /** The second part of GC_allochblk: part of a larger block, if the split limit lets it be cut. */
    method SearchLarger(r: Request, policy: Policy, ghost past: Past, ghost dropped: map<nat, Hdr>)
      returns (result: Option<nat>, ghost drops: map<nat, Hdr>, ghost choice: Choice)
      requires Valid() && blackList.Valid() && r.Valid() && r.Needed() < SIGNED_PAGES
      requires Dropped(past, Now(), dropped) && Unusable(dropped) && DropsFor(dropped, r)
      requires Searched(FreeBlocks(headers.view), r, No, ListFor(r.Needed()), ListFor(r.Needed()) + 1)
      modifies `lists, `owner, `largeFree, `bytesDropped, `dropCount, headers, heads, freePages
      ensures Valid() && Unusable(drops) && DropsFor(drops, r)
      ensures result.Some? ==> Gave(past, Now(), drops, result.value, r)
      ensures result.Some? ==>
                && Remains(past.free, choice.free, drops) && choice.k < |choice.order|
                && choice.order[choice.k] in choice.free && BestFit(choice, result.value, r, policy, past.sums)
      ensures result.Some? && drops == map[] ==>
                dropped == map[] && OnList(choice, ListFor(choice.free[choice.order[choice.k]].blocks), old(lists))
      ensures result.None? ==> Dropped(past, Now(), drops) && NoExactFit(FreeBlocks(headers.view), r)
      ensures result.None? ==> NoRoom(r, policy)
    {
      hide *;
      ghost var sums := freePages[..];
      drops, choice := dropped, Choice(map[], [], 0);
      var start, maySplit, limit := ListFor(r.Needed()), Yes, N_HBLK_FLS;
      NothingKeptBack(policy);
      NoneMoreYet(sums);
      DroppedRemains(past, Now(), drops);
      NowSearched();
      if !policy.useAll {
        maySplit, limit := SplitLimit(policy);
      }
      LimitNotKeptBack(policy, maySplit, limit);
      ghost var from := start;
      StartOfSearch(r, start, maySplit);
      if start < UNIQUE_THRESHOLD {
        start := start + 1;
      }
      while start <= limit
        invariant Valid() && Dropped(past, Now(), drops) && Unusable(drops) && DropsFor(drops, r)
        invariant from <= start <= N_HBLK_FLS + 1 && limit <= N_HBLK_FLS && !maySplit.No? && |lists| == N_HBLK_FLS + 1
        invariant KeptBackFrom(sums, policy, limit + 1) && NoneMore(sums, freePages[..])
        invariant Searched(FreeBlocks(headers.view), r, maySplit, from, start)
        invariant NoExactFit(FreeBlocks(headers.view), r) &&
                  (drops == map[] ==> dropped == map[] && lists == old(lists))
      {
        ghost var before := freePages[..];
        result, drops, choice := SearchList(r, start, maySplit, from, past, drops);
        if result.Some? {
          UpToLimit(past.sums, sums, policy, start, limit);
          ChosenBest(choice, result.value, r, policy, past.sums);
          return;
        }
        NoneMoreAgain(sums, before, freePages[..]);
        start := start + 1;
      }
      KeptBackMore(sums, policy, limit + 1, start);
      SearchedAll(r, policy, maySplit, start, sums);
      result := None;
    }

    /** GC_allochblk: a block for r, first one that fits exactly, then, up to the split limit, part of a larger one. If
        there is an exact fit, it is what is given out, whatever the policy. */
    method Allochblk(r: Request, policy: Policy)
      returns (result: Option<nat>, ghost drops: map<nat, Hdr>, ghost choice: Choice)
      requires Valid() && blackList.Valid() && r.Valid()
      modifies `lists, `owner, `largeFree, `bytesDropped, `dropCount, headers, heads, freePages
      ensures Valid() && Unusable(drops) && DropsFor(drops, r)
      ensures result.Some? ==> Gave(old(Now()), Now(), drops, result.value, r)
      ensures result.Some? ==>
                && Remains(old(FreeBlocks(headers.view)), choice.free, drops) && choice.k < |choice.order|
                && choice.order[choice.k] in choice.free
                && BestFit(choice, result.value, r, policy, old(freePages[..]))
      ensures result.Some? && drops == map[] ==>
                OnList(choice, ListFor(choice.free[choice.order[choice.k]].blocks), old(lists))
      ensures result.None? ==> Dropped(old(Now()), Now(), drops)
      ensures result.None? && r.Needed() < SIGNED_PAGES ==> NoRoom(r, policy)
      ensures r.Needed() < SIGNED_PAGES && ExactFit(old(FreeBlocks(headers.view)), r) ==>
                && result.Some? && result.value in old(FreeBlocks(headers.view))
                && old(FreeBlocks(headers.view))[result.value].blocks == r.Needed()
    {
      hide *;
      ghost var past := Now();
      NowSearched();
      drops, choice := map[], Choice(map[], [], 0);
      NothingDropped(past);
      NothingUnusable(r);
      var blocks := r.Needed();
      if blocks >= SIGNED_PAGES {
        return None, drops, choice;
      }
      result, drops, choice := AllochblkNth(r, ListFor(blocks), No);
      if result.Some? {
        ChosenExactly(choice, result.value, r, policy, past.sums);
      } else {
        result, drops, choice := SearchLarger(r, policy, past, drops);
      }
      if result.Some? {
        ExactFitTaken(past.free, choice, drops, result.value, r, policy, past.sums);
      } else {
        DroppedRemains(past, Now(), drops);
        NowSearched();
        NoExactFitBefore(past.free, drops, r);
      }
    }

    lemma ChosenExactly(c: Choice, start: nat, r: Request, policy: Policy, sums: seq<nat>)
      requires Chosen(c, start, r, No)
      ensures blackList.Valid() && c.k < |c.order| && c.order[c.k] in c.free && BestFit(c, start, r, policy, sums)
    {
    }

    lemma ChosenBest(c: Choice, start: nat, r: Request, policy: Policy, sums: seq<nat>)
      requires blackList.Valid() && Chosen(c, start, r, Splitting(policy)) && NoExactFit(c.free, r)
      requires var n := ListFor(c.free[c.order[c.k]].blocks);
               Searched(c.free, r, Splitting(policy), ListFor(r.Needed()), n) && !KeptBack(sums, policy, n)
      ensures c.k < |c.order| && c.order[c.k] in c.free && BestFit(c, start, r, policy, sums)
    {
    }

    lemma LimitNotKeptBack(policy: Policy, maySplit: MaySplit, limit: nat)
      requires if policy.useAll then maySplit == Yes
               else limit > 0 ==> maySplit == Splitting(policy) && !KeptBack(freePages[..], policy, limit)
      ensures limit > 0 ==> maySplit == Splitting(policy) && !KeptBack(freePages[..], policy, limit)
    {
    }

    lemma StartOfSearch(r: Request, start: nat, maySplit: MaySplit)
      requires Valid() && blackList.Valid() && r.Valid() && start == ListFor(r.Needed()) && !maySplit.No?
      requires Searched(FreeBlocks(headers.view), r, No, start, start + 1)
      ensures |lists| == N_HBLK_FLS + 1 && 0 < start <= N_HBLK_FLS
      ensures Searched(FreeBlocks(headers.view), r, maySplit, start, start) && NoExactFit(FreeBlocks(headers.view), r)
      ensures start < UNIQUE_THRESHOLD ==> Searched(FreeBlocks(headers.view), r, maySplit, start, start + 1)
    {
      var free := FreeBlocks(headers.view);
      forall p: nat | p in free && ListFor(free[p].blocks) == start < UNIQUE_THRESHOLD
        ensures Unfit(p, free[p], r, maySplit)
      {
        assert Unfit(p, free[p], r, No);
        SameList(free[p].blocks, r.Needed());
      }
    }

    lemma SameList(a: nat, b: nat)
      requires ListFor(a) == ListFor(b) < UNIQUE_THRESHOLD
      ensures a == b
    {
      if a < b {
        ListForMonotone(a, b);
      } else if b < a {
        ListForMonotone(b, a);
      }
    }

    method SplitLimit(policy: Policy) returns (maySplit: MaySplit, limit: nat)
      requires Valid()
      requires !policy.useAll
      ensures !maySplit.No? && limit <= N_HBLK_FLS && KeptBackFrom(freePages[..], policy, limit + 1)
      ensures limit > 0 ==> maySplit == Splitting(policy) && !KeptBack(freePages[..], policy, limit)
      ensures maySplit.AvoidRemapped? <==> policy.canUnmap && limit > 0
      ensures maySplit == Yes || maySplit == Splitting(policy)
    {
      maySplit := Yes;
      if policy.finalizersHeavy {
        limit := 0;
      } else {
        limit := EnoughLargeBytesLeft(policy);
        if policy.canUnmap && limit > 0 {
          maySplit := AvoidRemapped;
        }
      }
    }

    method SearchList(r: Request, n: nat, maySplit: MaySplit, ghost from: nat, ghost past: Past,
                      ghost dropped: map<nat, Hdr>)
      returns (result: Option<nat>, ghost drops: map<nat, Hdr>, ghost choice: Choice)
      requires Valid() && blackList.Valid() && r.Valid() && n <= N_HBLK_FLS && !maySplit.No? &&
               |lists| == N_HBLK_FLS + 1
      requires Dropped(past, Now(), dropped) && Unusable(dropped) && DropsFor(dropped, r) && from <= n
      requires Searched(FreeBlocks(headers.view), r, maySplit, from, n) && NoExactFit(FreeBlocks(headers.view), r)
      modifies `lists, `owner, `largeFree, `bytesDropped, `dropCount, headers, heads, freePages
      ensures Valid() && Unusable(drops) && DropsFor(drops, r) && |lists| == N_HBLK_FLS + 1
      ensures result.Some? ==> Gave(past, Now(), drops, result.value, r)
      ensures result.Some? ==>
                && Remains(past.free, choice.free, drops) && Chosen(choice, result.value, r, maySplit)
                && ListFor(choice.free[choice.order[choice.k]].blocks) == n
                && Searched(choice.free, r, maySplit, from, n) && NoExactFit(choice.free, r)
      ensures result.None? ==> Dropped(past, Now(), drops)
      ensures result.None? ==> Searched(FreeBlocks(headers.view), r, maySplit, from, n + 1)
      ensures drops == map[] ==>
                dropped == map[] && if result.None? then lists == old(lists) else OnList(choice, n, old(lists))
      ensures result.None? ==> NoExactFit(FreeBlocks(headers.view), r)
      ensures result.None? ==> NoneMore(old(freePages[..]), freePages[..])
    {
      hide *;
      ghost var now := Now();
      NowSearched();
      DroppedRemains(past, now, dropped);
      ghost var more;
      result, more, choice := AllochblkNth(r, n, maySplit);
      MoreUnusable(dropped, more, r);
      drops := dropped + more;
      NothingDroppedYet(dropped, more);
      ListsValid();
      if result.Some? {
        DroppedThenGave(past, now, Now(), dropped, more, result.value, r);
        RemainsMore(past.free, now.free, choice.free, dropped, more);
        OnlyFewer(now.free, choice.free, more);
        SearchedFewer(now.free, choice.free, r, maySplit, from, n);
        NoExactFitFewer(now.free, choice.free, r);
      } else {
        DroppedMore(past, now, Now(), dropped, more);
        DroppedFree(now, Now(), more);
        SearchedFewer(now.free, FreeBlocks(headers.view), r, maySplit, from, n);
        SearchedMore(FreeBlocks(headers.view), r, maySplit, from, n);
        NoExactFitFewer(now.free, FreeBlocks(headers.view), r);
      }
    }

    lemma OnlyFewer(a: map<nat, FreeBlock>, b: map<nat, FreeBlock>, drops: map<nat, Hdr>)
      requires Remains(a, b, drops)
      ensures FewerFree(a, b)
    {
    }

    lemma NoExactFitFewer(a: map<nat, FreeBlock>, b: map<nat, FreeBlock>, r: Request)
      requires blackList.Valid() && NoExactFit(a, r) && FewerFree(a, b)
      ensures NoExactFit(b, r)
    {
    }

    /** The counters agree with the heap: what is free on the lists, and what is used or dropped, add up to the heap. */
    lemma Conservation()
      requires Valid()
      ensures largeFree == |FreePages(headers.view, owner)|
      ensures |UsedPages(headers.view, owner)| + largeFree == heapSize
    {
      FreeBytesConserved(headers.view, owner, S().f);
    }

    /** GC_compute_large_free_bytes, in pages: the blocks on all lists add up to GC_large_free_bytes. */
    method ComputeLargeFree() returns (total: nat)
      requires Valid()
      ensures total == largeFree
    {
      hide Good, UsedMapped, Sectioned, Plausible, HeaderIndex.Shows, HeaderIndex.Chained;
      total := 0;
      var i := 0;
      while i <= N_HBLK_FLS
        invariant i <= N_HBLK_FLS + 1 && total == Total(freePages[..i])
      {
        var sum := PagesOnList(i);
        TotalAppend(freePages[..i], freePages[i]);
        assert freePages[..i + 1] == freePages[..i] + [freePages[i]];
        total := total + sum;
        i := i + 1;
      }
      assert freePages[..i] == freePages[..];
    }

    method PagesOnList(i: nat) returns (sum: nat)
      requires Valid() && i <= N_HBLK_FLS
      ensures sum == freePages[i]
    {
      hide Good, UsedMapped, Sectioned, Plausible, HeaderIndex.Shows, HeaderIndex.Chained;
      WalkStarts(i);
      var h := heads[i];
      ghost var k := 0;
      sum := 0;
      assert lists[i][0..] == lists[i];
      while h != 0
        invariant At(i, k, h) && k <= |lists[i]| && AllHdrs(headers.view, lists[i][k..])
        invariant sum + Sum(headers.view, lists[i][k..]) == freePages[i]
        decreases |lists[i]| - k
      {
        AtBlock(i, k, h);
        assert lists[i][k..][0] == h && lists[i][k..][1..] == lists[i][k + 1..];
        WalksOn(i, k, h);
        var hdr := headers.HdrAt(h);
        sum := sum + hdr.blocks;
        h := hdr.next;
        k := k + 1;
      }
    }

    lemma WalkStarts(i: nat)
      requires Valid() && i <= N_HBLK_FLS
      ensures Ready() && |lists| == N_HBLK_FLS + 1 && At(i, 0, heads[i])
      ensures AllHdrs(headers.view, lists[i]) && Sum(headers.view, lists[i]) == freePages[i]
    {
      HeadOnList(headers.view, S().f, i, {}, Nothing);
      assert ListOk(headers.view, S().f.lists[i], S().f.heads[i], S().f.sums[i], i, {}, Nothing);
    }

    lemma WalksOn(i: nat, k: nat, h: nat)
      requires Valid() && At(i, k, h) && h != 0 && IsHdr(headers.view, h)
      ensures k < |lists[i]| && At(i, k + 1, H(headers.view, h).next)
      ensures AllHdrs(headers.view, lists[i][k..]) ==> AllHdrs(headers.view, lists[i][k + 1..])
    {
      BlockAt(i, k);
      hide Valid, Ready;
      assert H(headers.view, h).next == Elem(lists[i], k + 1);
    }
  }
}
