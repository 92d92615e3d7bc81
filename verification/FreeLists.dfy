/** The size-classed, doubly linked lists of free blocks (allchblk.c), as values: what it means for the lists, their
    heads and their byte counts to agree with the headers, and what each relinking does to that. */
module FreeLists {
  import opened Basics
  import opened HeapMap

  const UNIQUE_THRESHOLD := 32
  const HUGE_THRESHOLD := 256
  const FL_COMPRESSION := 8
  const N_HBLK_FLS := (HUGE_THRESHOLD - UNIQUE_THRESHOLD) / FL_COMPRESSION + UNIQUE_THRESHOLD

  /** GC_hblk_fl_from_blocks. */
  function ListFor(blocks: nat): (i: int)
    ensures 0 <= i <= N_HBLK_FLS
    ensures blocks < UNIQUE_THRESHOLD ==> i == blocks
    ensures blocks >= HUGE_THRESHOLD ==> i == N_HBLK_FLS
  {
    if blocks <= UNIQUE_THRESHOLD then blocks
    else if blocks >= HUGE_THRESHOLD then N_HBLK_FLS
    else (blocks - UNIQUE_THRESHOLD) / FL_COMPRESSION + UNIQUE_THRESHOLD
  }

  /** Larger blocks are never on lists of smaller numbers; below the first threshold a list has a single size. */
  lemma ListForMonotone(a: nat, b: nat)
    requires a <= b
    ensures ListFor(a) <= ListFor(b)
    ensures a < b && a < UNIQUE_THRESHOLD ==> ListFor(a) < ListFor(b)
  {
  }

  /** GC_split_block leaves one block on a list that need not be the one for its size. */
  datatype Misplaced = Nothing | Misplaced(page: nat, list: nat)

  function Home(x: Index, mis: Misplaced, p: nat): nat
    requires IsHdr(x, p)
  {
    if mis.Misplaced? && mis.page == p then mis.list else ListFor(x[p].hdr.blocks)
  }

  predicate LinkOk(x: Index, s: seq<nat>, j: nat)
    requires j < |s|
  {
    IsHdr(x, s[j]) && x[s[j]].hdr.next == Elem(s, j + 1) && x[s[j]].hdr.prev == Elem(s, j - 1)
  }

  /** The blocks of s are linked in that order, from head. */
  ghost predicate Chain(x: Index, s: seq<nat>, head: nat) {
    && head == Elem(s, 0) && NoDuplicates(s) && 0 !in s
    && forall j: nat {:trigger LinkOk(x, s, j)} :: j < |s| ==> LinkOk(x, s, j)
  }

  ghost predicate AllHdrs(x: Index, s: seq<nat>) { forall j :: 0 <= j < |s| ==> IsHdr(x, s[j]) }

  /** The pages of the blocks of s together. */
  ghost function Sum(x: Index, s: seq<nat>): nat
    requires AllHdrs(x, s)
  {
    if s == [] then 0 else x[s[0]].hdr.blocks + Sum(x, s[1..])
  }

  function Swapped(s: seq<nat>, k: nat, n: nat): seq<nat>
    requires k < |s|
  {
    s[k := n]
  }

  /** x with the links of block p changed. */
  function WithNext(x: Index, p: nat, next: nat): Index
    requires p != 0 ==> IsHdr(x, p)
  {
    if p == 0 then x else x[p := Header(x[p].hdr.(next := next))]
  }

  function WithPrev(x: Index, p: nat, prev: nat): Index
    requires p != 0 ==> IsHdr(x, p)
  {
    if p == 0 then x else x[p := Header(x[p].hdr.(prev := prev))]
  }

  /** x and y differ in links only. */
  ghost predicate SameShape(x: Index, y: Index) {
    && x.Keys == y.Keys
    && forall p: nat :: p in x ==> SameBlock(x[p], y[p])
  }

  predicate SameBlock(e: Entry, f: Entry) {
    if e.Header? then f.Header? && f.hdr == e.hdr.(next := f.hdr.next, prev := f.hdr.prev) else f == e
  }

  lemma TiledShape(x: Index, y: Index, o: Owner)
    requires Tiled(x, o) && SameShape(x, y)
    ensures Tiled(y, o)
  {
    forall p: nat | p in o
      ensures PageOwned(y, o, p)
    {
      assert PageOwned(x, o, p);
      assert SameBlock(x[o[p]], y[o[p]]);
      assert p in x ==> SameBlock(x[p], y[p]);
    }
    forall b: nat | IsHdr(y, b)
      ensures BlockOwns(y, o, b)
    {
      assert SameBlock(x[b], y[b]);
      assert BlockOwns(x, o, b);
    }
  }

  /** y has the blocks of s with the sizes they have in x. */
  ghost predicate SameSizes(x: Index, y: Index, s: seq<nat>) {
    AllHdrs(x, s) && AllHdrs(y, s) && forall j :: 0 <= j < |s| ==> x[s[j]].hdr.blocks == y[s[j]].hdr.blocks
  }

  lemma {:induction false} SumSame(x: Index, y: Index, s: seq<nat>)
    requires SameSizes(x, y, s)
    ensures Sum(x, s) == Sum(y, s)
  {
    if s != [] {
      SumSame(x, y, s[1..]);
    }
  }

  lemma {:induction false} SumConcat(x: Index, s: seq<nat>, t: seq<nat>)
    requires AllHdrs(x, s) && AllHdrs(x, t)
    ensures AllHdrs(x, s + t) && Sum(x, s + t) == Sum(x, s) + Sum(x, t)
  {
    if s == [] {
      assert s + t == t;
    } else {
      assert (s + t)[1..] == s[1..] + t;
      SumConcat(x, s[1..], t);
    }
  }

  lemma SumWithout(x: Index, s: seq<nat>, k: nat)
    requires k < |s| && AllHdrs(x, s)
    ensures AllHdrs(x, Without(s, k)) && Sum(x, s) == Sum(x, Without(s, k)) + x[s[k]].hdr.blocks
  {
    assert s == s[..k] + ([s[k]] + s[k + 1..]);
    SumConcat(x, s[..k], [s[k]] + s[k + 1..]);
    SumConcat(x, s[..k], s[k + 1..]);
    assert Without(s, k) == s[..k] + s[k + 1..];
  }

  predicate SameLinks(a: Hdr, b: Hdr) { a.next == b.next && a.prev == b.prev }

  lemma ChainSame(x: Index, y: Index, s: seq<nat>, head: nat)
    requires Chain(x, s, head)
    requires forall j :: 0 <= j < |s| ==> IsHdr(x, s[j]) && IsHdr(y, s[j]) && SameLinks(x[s[j]].hdr, y[s[j]].hdr)
    ensures Chain(y, s, head)
  {
    forall j: nat | j < |s|
      ensures LinkOk(y, s, j)
    {
      assert LinkOk(x, s, j);
    }
  }

  /** x after the neighbours of block h are linked to each other. */
  function Unlinked(x: Index, h: nat): Index
    requires IsHdr(x, h) && (x[h].hdr.prev != 0 ==> IsHdr(x, x[h].hdr.prev)) &&
             (x[h].hdr.next != 0 ==> IsHdr(x, x[h].hdr.next))
  {
    var d := x[h].hdr;
    WithPrev(WithNext(x, d.prev, d.next), d.next, d.prev)
  }

  /** x after block h is put in front of the list that starts at head. */
  function Pushed(x: Index, h: nat, head: nat): Index
    requires IsHdr(x, h) && (head != 0 ==> IsHdr(x, head))
  {
    WithPrev(x[h := Header(x[h].hdr.(next := head, prev := 0))], head, h)
  }

  /** x after block n, with header d, takes the place of a block with links prev and next. */
  function Replaced(x: Index, n: nat, d: Hdr, prev: nat, next: nat): Index
    requires (prev != 0 ==> IsHdr(x, prev)) && (next != 0 ==> IsHdr(x, next))
  {
    WithPrev(WithNext(x[n := Header(d.(next := next, prev := prev))], prev, n), next, n)
  }

  lemma LinksThere(x: Index, s: seq<nat>, head: nat, k: nat)
    requires Chain(x, s, head) && k < |s|
    ensures IsHdr(x, s[k]) && x[s[k]].hdr.next == Elem(s, k + 1) && x[s[k]].hdr.prev == Elem(s, k - 1)
    ensures k > 0 ==> IsHdr(x, s[k - 1]) && s[k - 1] != 0 && s[k - 1] != s[k]
    ensures k + 1 < |s| ==> IsHdr(x, s[k + 1]) && s[k + 1] != 0 && s[k + 1] != s[k]
    ensures 0 < k && k + 1 < |s| ==> s[k - 1] != s[k + 1]
  {
    assert LinkOk(x, s, k);
    assert k > 0 ==> LinkOk(x, s, k - 1);
    assert k + 1 < |s| ==> LinkOk(x, s, k + 1);
  }

  lemma ChainUnlink(x: Index, s: seq<nat>, head: nat, k: nat)
    requires Chain(x, s, head) && k < |s|
    ensures IsHdr(x, s[k]) && (x[s[k]].hdr.prev != 0 ==> IsHdr(x, x[s[k]].hdr.prev))
    ensures x[s[k]].hdr.next != 0 ==> IsHdr(x, x[s[k]].hdr.next)
    ensures Chain(Unlinked(x, s[k]), Without(s, k), if k == 0 then x[s[k]].hdr.next else head)
  {
    LinksThere(x, s, head, k);
    ElemWithout(s, k, 0);
    WithoutMembers(s, k);
    var y, t := Unlinked(x, s[k]), Without(s, k);
    forall j: nat | j < |t|
      ensures LinkOk(y, t, j)
    {
      UnlinkedAt(x, s, head, k, j);
    }
  }

  lemma UnlinkedAt(x: Index, s: seq<nat>, head: nat, k: nat, j: nat)
    requires Chain(x, s, head) && k < |s| && j < |Without(s, k)|
    requires IsHdr(x, s[k]) && (x[s[k]].hdr.prev != 0 ==> IsHdr(x, x[s[k]].hdr.prev)) &&
             (x[s[k]].hdr.next != 0 ==> IsHdr(x, x[s[k]].hdr.next))
    ensures LinkOk(Unlinked(x, s[k]), Without(s, k), j)
  {
    hide Without;
    LinksThere(x, s, head, k);
    ElemWithout(s, k, j - 1);
    ElemWithout(s, k, j);
    ElemWithout(s, k, j + 1);
    LinksThere(x, s, head, if j < k then j else j + 1);
  }

  lemma ChainPush(x: Index, s: seq<nat>, head: nat, h: nat)
    requires Chain(x, s, head) && IsHdr(x, h) && h !in s && h != 0
    ensures head != 0 ==> IsHdr(x, head)
    ensures Chain(Pushed(x, h, head), [h] + s, h)
  {
    if s != [] {
      LinksThere(x, s, head, 0);
    }
    var y, t := Pushed(x, h, head), [h] + s;
    forall j: nat | j < |t|
      ensures LinkOk(y, t, j)
    {
      if j > 0 {
        assert LinkOk(x, s, j - 1);
        assert Elem(t, j + 1) == Elem(s, j);
        assert Elem(t, j - 1) == if j == 1 then h else Elem(s, j - 2);
      } else {
        assert Elem(t, 1) == Elem(s, 0);
      }
    }
  }

  lemma ChainReplace(x: Index, s: seq<nat>, head: nat, k: nat, n: nat, d: Hdr)
    requires Chain(x, s, head) && k < |s| && n !in s && n != 0
    ensures IsHdr(x, s[k]) && (x[s[k]].hdr.prev != 0 ==> IsHdr(x, x[s[k]].hdr.prev))
    ensures x[s[k]].hdr.next != 0 ==> IsHdr(x, x[s[k]].hdr.next)
    ensures Chain(Replaced(x, n, d, x[s[k]].hdr.prev, x[s[k]].hdr.next), s[k := n], if k == 0 then n else head)
  {
    LinksThere(x, s, head, k);
    var y, t := Replaced(x, n, d, x[s[k]].hdr.prev, x[s[k]].hdr.next), s[k := n];
    forall j: nat | j < |t|
      ensures LinkOk(y, t, j)
    {
      LinksThere(x, s, head, j);
    }
  }

  /** The lists, GC_hblkfreelist and GC_free_bytes (counted in pages). */
  datatype Lists = Lists(lists: seq<seq<nat>>, heads: seq<nat>, sums: seq<nat>)

  /** Block p is a free block that belongs on list i. Blocks in loose are free but on no list for the moment. */
  predicate Member(x: Index, p: nat, i: nat, loose: set<nat>, mis: Misplaced) {
    IsFree(x, p) && p !in loose && Home(x, mis, p) == i
  }

  ghost predicate ListOk(x: Index, s: seq<nat>, head: nat, sum: nat, i: nat, loose: set<nat>, mis: Misplaced) {
    && Chain(x, s, head)
    && (forall j :: 0 <= j < |s| ==> Member(x, s[j], i, loose, mis))
    && sum == Sum(x, s)
  }

  predicate Sized(f: Lists) { |f.lists| == |f.heads| == |f.sums| == N_HBLK_FLS + 1 }

  /** Every free block that is not loose is on exactly the list it belongs to. */
  ghost predicate Consistent(x: Index, f: Lists, loose: set<nat>, mis: Misplaced) {
    && Sized(f) && (mis.Misplaced? ==> mis.list <= N_HBLK_FLS)
    && (forall i: nat {:trigger f.lists[i]} :: i <= N_HBLK_FLS ==>
          ListOk(x, f.lists[i], f.heads[i], f.sums[i], i, loose, mis))
    && (forall p: nat {:trigger IsFree(x, p)} :: IsFree(x, p) && p !in loose ==> p in f.lists[Home(x, mis, p)])
  }

  lemma ListFrame(x: Index, y: Index, s: seq<nat>, head: nat, sum: nat, i: nat,
                  loose: set<nat>, mis: Misplaced, loose': set<nat>, mis': Misplaced)
    requires ListOk(x, s, head, sum, i, loose, mis)
    requires forall j :: 0 <= j < |s| ==> s[j] in y && y[s[j]] == x[s[j]] && Member(y, s[j], i, loose', mis')
    ensures ListOk(y, s, head, sum, i, loose', mis')
  {
    ChainSame(x, y, s, head);
    SumSame(x, y, s);
  }

  /** Changes to blocks that are on no list. */
  lemma FrameKeeps(x: Index, y: Index, f: Lists, loose: set<nat>, loose': set<nat>, mis: Misplaced)
    requires Consistent(x, f, loose, mis)
    requires forall p: nat :: IsFree(y, p) && p !in loose' <==> IsFree(x, p) && p !in loose
    requires forall p: nat :: IsFree(x, p) && p !in loose ==> p in y && y[p] == x[p]
    ensures Consistent(y, f, loose', mis)
  {
    forall i: nat | i <= N_HBLK_FLS
      ensures ListOk(y, f.lists[i], f.heads[i], f.sums[i], i, loose', mis)
    {
      ListFrame(x, y, f.lists[i], f.heads[i], f.sums[i], i, loose, mis, loose', mis);
    }
  }

  function Removed(f: Lists, i: nat, k: nat, d: Hdr): Lists
    requires Sized(f) && i <= N_HBLK_FLS && k < |f.lists[i]| && d.blocks <= f.sums[i]
  {
    Lists(f.lists[i := Without(f.lists[i], k)], if k == 0 then f.heads[i := d.next] else f.heads,
          f.sums[i := f.sums[i] - d.blocks])
  }

  predicate LinksExist(x: Index, h: nat) {
    IsHdr(x, h) && (x[h].hdr.prev != 0 ==> IsHdr(x, x[h].hdr.prev)) && (x[h].hdr.next != 0 ==> IsHdr(x, x[h].hdr.next))
  }

  lemma UnlinkedShape(x: Index, h: nat)
    requires LinksExist(x, h)
    ensures SameShape(x, Unlinked(x, h))
    ensures forall p: nat :: p in x && p != x[h].hdr.prev && p != x[h].hdr.next ==> Unlinked(x, h)[p] == x[p]
  {
  }

  lemma UnlinkedUsed(x: Index, h: nat)
    requires LinksExist(x, h)
    requires (x[h].hdr.prev != 0 ==> IsFree(x, x[h].hdr.prev)) && (x[h].hdr.next != 0 ==> IsFree(x, x[h].hdr.next))
    ensures UsedBlocks(Unlinked(x, h)) == UsedBlocks(x)
  {
    SameUsed(x, Unlinked(x, h));
  }

  /** The neighbours of a block on list i are on list i. */
  lemma LinksOnList(x: Index, f: Lists, i: nat, k: nat, loose: set<nat>, mis: Misplaced)
    requires Consistent(x, f, loose, mis) && i <= N_HBLK_FLS && k < |f.lists[i]|
    ensures var h := f.lists[i][k];
            && Member(x, h, i, loose, mis) && LinksExist(x, h) && x[h].hdr.blocks <= f.sums[i]
            && h != 0 && x[h].hdr.prev == Elem(f.lists[i], k - 1) && x[h].hdr.next == Elem(f.lists[i], k + 1)
            && (x[h].hdr.prev != 0 ==> Member(x, x[h].hdr.prev, i, loose, mis))
            && (x[h].hdr.next != 0 ==> Member(x, x[h].hdr.next, i, loose, mis))
  {
    var s, h := f.lists[i], f.lists[i][k];
    assert ListOk(x, s, f.heads[i], f.sums[i], i, loose, mis);
    LinksThere(x, s, f.heads[i], k);
    SumWithout(x, s, k);
  }

  lemma RemoveFromList(x: Index, s: seq<nat>, head: nat, sum: nat, i: nat, k: nat, loose: set<nat>, mis: Misplaced)
    requires ListOk(x, s, head, sum, i, loose, mis) && k < |s| && LinksExist(x, s[k]) && x[s[k]].hdr.blocks <= sum
    requires mis.Misplaced? ==> mis.page == s[k]
    ensures ListOk(Unlinked(x, s[k]), Without(s, k), if k == 0 then x[s[k]].hdr.next else head,
                   sum - x[s[k]].hdr.blocks, i, loose + {s[k]}, Nothing)
  {
    ChainUnlink(x, s, head, k);
    SumWithout(x, s, k);
    WithoutMembers(s, k);
    UnlinkedShape(x, s[k]);
    var y, t := Unlinked(x, s[k]), Without(s, k);
    hide Unlinked, Without, Chain;
    forall j | 0 <= j < |t|
      ensures Member(y, t[j], i, loose + {s[k]}, Nothing) && IsHdr(x, t[j]) && x[t[j]].hdr.blocks == y[t[j]].hdr.blocks
    {
      assert t[j] in s && t[j] != s[k];
      assert Member(x, t[j], i, loose, mis);
      assert SameBlock(x[t[j]], y[t[j]]);
    }
    SumSame(x, y, t);
  }

  lemma RemoveFromOther(x: Index, f: Lists, i: nat, k: nat, i': nat, loose: set<nat>, mis: Misplaced)
    requires Consistent(x, f, loose, mis) && i <= N_HBLK_FLS && k < |f.lists[i]| && i' <= N_HBLK_FLS && i' != i
    requires mis.Misplaced? ==> mis.page == f.lists[i][k]
    requires LinksExist(x, f.lists[i][k])
    ensures ListOk(Unlinked(x, f.lists[i][k]), f.lists[i'], f.heads[i'], f.sums[i'], i', loose + {f.lists[i][k]},
                   Nothing)
  {
    var h := f.lists[i][k];
    LinksOnList(x, f, i, k, loose, mis);
    UnlinkedShape(x, h);
    assert ListOk(x, f.lists[i'], f.heads[i'], f.sums[i'], i', loose, mis);
    hide Unlinked, LinksExist, Consistent, Chain;
    ListFrame(x, Unlinked(x, h), f.lists[i'], f.heads[i'], f.sums[i'], i', loose, mis, loose + {h}, Nothing);
  }

  lemma RemoveComplete(x: Index, f: Lists, i: nat, k: nat, p: nat, loose: set<nat>, mis: Misplaced)
    requires Consistent(x, f, loose, mis) && i <= N_HBLK_FLS && k < |f.lists[i]|
    requires mis.Misplaced? ==> mis.page == f.lists[i][k]
    requires LinksExist(x, f.lists[i][k]) && x[f.lists[i][k]].hdr.blocks <= f.sums[i]
    requires IsFree(Unlinked(x, f.lists[i][k]), p) && p !in loose + {f.lists[i][k]}
    ensures p in Removed(f, i, k, x[f.lists[i][k]].hdr).lists[Home(Unlinked(x, f.lists[i][k]), Nothing, p)]
  {
    var s, h := f.lists[i], f.lists[i][k];
    assert ListOk(x, s, f.heads[i], f.sums[i], i, loose, mis);
    UnlinkedShape(x, h);
    WithoutMembers(s, k);
    hide Unlinked, LinksExist, Without, ListOk;
    assert SameBlock(x[p], Unlinked(x, h)[p]);
    assert IsFree(x, p);
  }

  /** GC_remove_from_fl_at takes one block off its list and leaves everything else as it is. */
  lemma RemoveKeeps(x: Index, f: Lists, i: nat, k: nat, loose: set<nat>, mis: Misplaced)
    requires Consistent(x, f, loose, mis) && i <= N_HBLK_FLS && k < |f.lists[i]|
    requires mis.Misplaced? ==> mis.page == f.lists[i][k]
    ensures var h := f.lists[i][k];
            && IsFree(x, h) && LinksExist(x, h) && x[h].hdr.blocks <= f.sums[i]
            && Consistent(Unlinked(x, h), Removed(f, i, k, x[h].hdr), loose + {h}, Nothing)
            && SameShape(x, Unlinked(x, h)) && UsedBlocks(Unlinked(x, h)) == UsedBlocks(x)
  {
    var s, h := f.lists[i], f.lists[i][k];
    LinksOnList(x, f, i, k, loose, mis);
    UnlinkedShape(x, h);
    assert ListOk(x, s, f.heads[i], f.sums[i], i, loose, mis);
    var y, g := Unlinked(x, h), Removed(f, i, k, x[h].hdr);
    UnlinkedUsed(x, h);
    hide Unlinked, LinksExist, ListOk, Without, Home, UsedBlocks;
    forall i': nat | i' <= N_HBLK_FLS
      ensures ListOk(y, g.lists[i'], g.heads[i'], g.sums[i'], i', loose + {h}, Nothing)
    {
      if i' == i {
        RemoveFromList(x, s, f.heads[i], f.sums[i], i, k, loose, mis);
      } else {
        RemoveFromOther(x, f, i, k, i', loose, mis);
      }
    }
    forall p: nat | IsFree(y, p) && p !in loose + {h}
      ensures p in g.lists[Home(y, Nothing, p)]
    {
      RemoveComplete(x, f, i, k, p, loose, mis);
    }
  }

  function Added(f: Lists, h: nat, blocks: nat): Lists
    requires Sized(f)
  {
    var i := ListFor(blocks);
    Lists(f.lists[i := [h] + f.lists[i]], f.heads[i := h], f.sums[i := f.sums[i] + blocks])
  }

  lemma HeadOnList(x: Index, f: Lists, i: nat, loose: set<nat>, mis: Misplaced)
    requires Consistent(x, f, loose, mis) && i <= N_HBLK_FLS
    ensures f.heads[i] == Elem(f.lists[i], 0)
    ensures f.heads[i] != 0 ==> IsHdr(x, f.heads[i]) && Member(x, f.heads[i], i, loose, mis)
  {
    assert ListOk(x, f.lists[i], f.heads[i], f.sums[i], i, loose, mis);
  }

  lemma PushedShape(x: Index, h: nat, head: nat)
    requires IsHdr(x, h) && (head != 0 ==> IsHdr(x, head))
    ensures SameShape(x, Pushed(x, h, head))
    ensures forall p: nat :: p in x && p != h && p != head ==> Pushed(x, h, head)[p] == x[p]
  {
  }

  lemma PushedUsed(x: Index, h: nat, head: nat)
    requires IsFree(x, h) && (head != 0 ==> IsFree(x, head))
    ensures UsedBlocks(Pushed(x, h, head)) == UsedBlocks(x)
  {
    SameUsed(x, Pushed(x, h, head));
  }

  lemma PushOnList(x: Index, s: seq<nat>, head: nat, sum: nat, i: nat, h: nat, loose: set<nat>, mis: Misplaced)
    requires ListOk(x, s, head, sum, i, loose, mis) && IsFree(x, h) && h in loose && h != 0
    requires Home(x, mis, h) == i && (head != 0 ==> IsHdr(x, head))
    ensures ListOk(Pushed(x, h, head), [h] + s, h, sum + x[h].hdr.blocks, i, loose - {h}, mis)
  {
    assert h !in s;
    ChainPush(x, s, head, h);
    PushedShape(x, h, head);
    var y, t := Pushed(x, h, head), [h] + s;
    SumConcat(x, [h], s);
    hide Pushed, Chain;
    assert SameBlock(x[h], y[h]);
    forall j | 0 <= j < |t|
      ensures Member(y, t[j], i, loose - {h}, mis) && IsHdr(x, t[j]) && x[t[j]].hdr.blocks == y[t[j]].hdr.blocks
    {
      assert j > 0 ==> Member(x, s[j - 1], i, loose, mis);
      assert SameBlock(x[t[j]], y[t[j]]);
    }
    SumSame(x, y, t);
  }

  lemma PushOther(x: Index, f: Lists, h: nat, i': nat, loose: set<nat>, mis: Misplaced)
    requires Consistent(x, f, loose, mis) && IsFree(x, h) && h in loose && i' <= N_HBLK_FLS
    requires i' != ListFor(x[h].hdr.blocks)
    requires var head := f.heads[ListFor(x[h].hdr.blocks)]; head != 0 ==> IsHdr(x, head)
    ensures ListOk(Pushed(x, h, f.heads[ListFor(x[h].hdr.blocks)]), f.lists[i'], f.heads[i'], f.sums[i'], i',
                   loose - {h}, mis)
  {
    var i := ListFor(x[h].hdr.blocks);
    HeadOnList(x, f, i, loose, mis);
    PushedShape(x, h, f.heads[i]);
    var y := Pushed(x, h, f.heads[i]);
    assert ListOk(x, f.lists[i'], f.heads[i'], f.sums[i'], i', loose, mis);
    hide Pushed, Consistent, Chain, ListFor;
    assert forall j :: 0 <= j < |f.lists[i']| ==> Member(x, f.lists[i'][j], i', loose, mis);
    ListFrame(x, y, f.lists[i'], f.heads[i'], f.sums[i'], i', loose, mis, loose - {h}, mis);
  }

  /** GC_add_to_fl puts a loose block in front of the list for its size. */
  lemma PushKeeps(x: Index, f: Lists, h: nat, loose: set<nat>, mis: Misplaced)
    requires Consistent(x, f, loose, mis) && IsFree(x, h) && h in loose && h != 0
    requires mis.Misplaced? ==> mis.page != h
    ensures var i := ListFor(x[h].hdr.blocks);
            && (f.heads[i] != 0 ==> IsHdr(x, f.heads[i]))
            && Consistent(Pushed(x, h, f.heads[i]), Added(f, h, x[h].hdr.blocks), loose - {h}, mis)
            && SameShape(x, Pushed(x, h, f.heads[i])) && UsedBlocks(Pushed(x, h, f.heads[i])) == UsedBlocks(x)
  {
    var i := ListFor(x[h].hdr.blocks);
    HeadOnList(x, f, i, loose, mis);
    PushedShape(x, h, f.heads[i]);
    assert ListOk(x, f.lists[i], f.heads[i], f.sums[i], i, loose, mis);
    var y, g := Pushed(x, h, f.heads[i]), Added(f, h, x[h].hdr.blocks);
    PushedUsed(x, h, f.heads[i]);
    hide Pushed, ListOk, ListFor, UsedBlocks;
    forall i': nat | i' <= N_HBLK_FLS
      ensures ListOk(y, g.lists[i'], g.heads[i'], g.sums[i'], i', loose - {h}, mis)
    {
      if i' == i {
        PushOnList(x, f.lists[i], f.heads[i], f.sums[i], i, h, loose, mis);
      } else {
        PushOther(x, f, h, i', loose, mis);
      }
    }
    forall p: nat | IsFree(y, p) && p !in loose - {h}
      ensures p in g.lists[Home(y, mis, p)]
    {
      assert SameBlock(x[p], y[p]);
      assert IsFree(x, p);
    }
  }

  /** What GC_split_block does to h, on list i at place k: n takes its place on the list, and h shrinks to hs pages. */
  function Halved(x: Index, h: nat, n: nat, hs: nat): Index
    requires LinksExist(x, h) && hs <= x[h].hdr.blocks && n != h
  {
    var d := x[h].hdr;
    Replaced(x, n, TailHdr(x, h, hs), d.prev, d.next)[h := Header(d.(blocks := hs))]
  }

  function HalvedLists(f: Lists, i: nat, k: nat, n: nat, hs: nat): Lists
    requires Sized(f) && i <= N_HBLK_FLS && k < |f.lists[i]| && hs <= f.sums[i]
  {
    Lists(f.lists[i := Swapped(f.lists[i], k, n)], if k == 0 then f.heads[i := n] else f.heads,
          f.sums[i := f.sums[i] - hs])
  }

  lemma HalvedShape(x: Index, h: nat, n: nat, hs: nat)
    requires LinksExist(x, h) && hs <= x[h].hdr.blocks && n !in x && n != 0
    requires x[h].hdr.prev != h && x[h].hdr.next != h && (x[h].hdr.prev != 0 ==> x[h].hdr.prev != x[h].hdr.next)
    ensures var y := Halved(x, h, n, hs); var d := x[h].hdr;
            && y.Keys == x.Keys + {n}
            && y[h] == Header(d.(blocks := hs))
            && y[n] == Header(Hdr(d.blocks - hs, 0, true, false, d.next, d.prev))
            && (forall p: nat :: p in x && p != h ==> SameBlock(x[p], y[p]))
            && (forall p: nat :: p in x && p != h && p != d.prev && p != d.next ==> y[p] == x[p])
  {
  }

  lemma SumSwapped(x: Index, s: seq<nat>, k: nat, n: nat)
    requires k < |s| && AllHdrs(x, s) && IsHdr(x, n)
    ensures AllHdrs(x, Swapped(s, k, n)) && Sum(x, Swapped(s, k, n)) == Sum(x, s) - x[s[k]].hdr.blocks + x[n].hdr.blocks
  {
    SumWithout(x, s, k);
    SumWithout(x, Swapped(s, k, n), k);
    assert Without(s, k) == Without(Swapped(s, k, n), k);
  }

  /** The header GC_split_block gives to the second part. */
  function TailHdr(x: Index, h: nat, hs: nat): Hdr
    requires IsHdr(x, h) && hs <= x[h].hdr.blocks
  {
    Hdr(x[h].hdr.blocks - hs, 0, true, false, 0, 0)
  }

  lemma HalveChain(x: Index, s: seq<nat>, head: nat, k: nat, n: nat, hs: nat)
    requires Chain(x, s, head) && k < |s| && LinksExist(x, s[k]) && n !in x && n !in s && n != 0
    requires hs <= x[s[k]].hdr.blocks
    ensures Chain(Halved(x, s[k], n, hs), Swapped(s, k, n), if k == 0 then n else head)
  {
    var h, d := s[k], x[s[k]].hdr;
    ChainReplace(x, s, head, k, n, TailHdr(x, h, hs));
    var z := Replaced(x, n, TailHdr(x, h, hs), d.prev, d.next);
    var t := Swapped(s, k, n);
    assert forall j :: 0 <= j < |t| ==> t[j] != h by {
      assert NoDuplicates(s);
    }
    assert Halved(x, h, n, hs) == z[h := Header(d.(blocks := hs))];
    forall j: nat | j < |t|
      ensures IsHdr(z, t[j])
    {
      assert LinkOk(z, t, j);
    }
    hide Replaced, Halved, LinkOk;
    ChainSame(z, z[h := Header(d.(blocks := hs))], t, if k == 0 then n else head);
  }

  lemma HalveMembers(x: Index, s: seq<nat>, head: nat, sum: nat, i: nat, k: nat, n: nat, hs: nat)
    requires ListOk(x, s, head, sum, i, {}, Nothing) && k < |s| && LinksExist(x, s[k]) && n !in x && n != 0
    requires hs <= x[s[k]].hdr.blocks
    ensures var y := Halved(x, s[k], n, hs); var t := Swapped(s, k, n);
            && (forall j :: 0 <= j < |t| ==> Member(y, t[j], i, {s[k]}, Misplaced(n, i)))
            && SameSizes(x[n := Header(TailHdr(x, s[k], hs))], y, t)
  {
    var h := s[k];
    LinksThere(x, s, head, k);
    HalvedShape(x, h, n, hs);
    var y, t := Halved(x, h, n, hs), Swapped(s, k, n);
    assert NoDuplicates(s);
    hide Halved, Chain;
    forall j | 0 <= j < |t|
      ensures Member(y, t[j], i, {h}, Misplaced(n, i)) && IsHdr(x[n := Header(TailHdr(x, h, hs))], t[j])
      ensures x[n := Header(TailHdr(x, h, hs))][t[j]].hdr.blocks == y[t[j]].hdr.blocks
    {
      if j != k {
        assert t[j] == s[j] && Member(x, s[j], i, {}, Nothing);
        assert SameBlock(x[s[j]], y[s[j]]);
      }
    }
  }

  lemma HalveList(x: Index, s: seq<nat>, head: nat, sum: nat, i: nat, k: nat, n: nat, hs: nat)
    requires ListOk(x, s, head, sum, i, {}, Nothing) && k < |s| && LinksExist(x, s[k]) && n !in x && n != 0
    requires hs <= x[s[k]].hdr.blocks <= sum
    ensures ListOk(Halved(x, s[k], n, hs), Swapped(s, k, n), if k == 0 then n else head, sum - hs, i, {s[k]},
                   Misplaced(n, i))
  {
    assert forall j :: 0 <= j < |s| ==> Member(x, s[j], i, {}, Nothing);
    HalveChain(x, s, head, k, n, hs);
    HalveMembers(x, s, head, sum, i, k, n, hs);
    hide Halved, Chain, Swapped, LinksExist;
    var w := x[n := Header(TailHdr(x, s[k], hs))];
    SumSwapped(w, s, k, n);
    SumSame(x, w, s);
    SumSame(w, Halved(x, s[k], n, hs), Swapped(s, k, n));
  }

  lemma HalveOther(x: Index, f: Lists, i: nat, k: nat, n: nat, hs: nat, i': nat)
    requires Consistent(x, f, {}, Nothing) && i <= N_HBLK_FLS && k < |f.lists[i]| && i' <= N_HBLK_FLS && i' != i
    requires LinksExist(x, f.lists[i][k]) && hs <= x[f.lists[i][k]].hdr.blocks && n !in x && n != 0
    ensures ListOk(Halved(x, f.lists[i][k], n, hs), f.lists[i'], f.heads[i'], f.sums[i'], i', {f.lists[i][k]},
                   Misplaced(n, i))
  {
    var h := f.lists[i][k];
    LinksOnList(x, f, i, k, {}, Nothing);
    assert ListOk(x, f.lists[i], f.heads[i], f.sums[i], i, {}, Nothing);
    LinksThere(x, f.lists[i], f.heads[i], k);
    HalvedShape(x, h, n, hs);
    assert ListOk(x, f.lists[i'], f.heads[i'], f.sums[i'], i', {}, Nothing);
    hide Halved, LinksExist, Consistent, Chain;
    assert forall j :: 0 <= j < |f.lists[i']| ==> Member(x, f.lists[i'][j], i', {}, Nothing);
    ListFrame(x, Halved(x, h, n, hs), f.lists[i'], f.heads[i'], f.sums[i'], i', {}, Nothing, {h}, Misplaced(n, i));
  }

  lemma HalveComplete(x: Index, f: Lists, i: nat, k: nat, n: nat, hs: nat, p: nat)
    requires Consistent(x, f, {}, Nothing) && i <= N_HBLK_FLS && k < |f.lists[i]|
    requires LinksExist(x, f.lists[i][k]) && hs <= x[f.lists[i][k]].hdr.blocks <= f.sums[i] && n !in x && n != 0
    requires IsFree(Halved(x, f.lists[i][k], n, hs), p) && p != f.lists[i][k]
    ensures p in HalvedLists(f, i, k, n, hs).lists[Home(Halved(x, f.lists[i][k], n, hs), Misplaced(n, i), p)]
  {
    var s, h := f.lists[i], f.lists[i][k];
    assert ListOk(x, s, f.heads[i], f.sums[i], i, {}, Nothing);
    LinksThere(x, s, f.heads[i], k);
    HalvedShape(x, h, n, hs);
    var y := Halved(x, h, n, hs);
    hide Halved, LinksExist, ListOk;
    assert Swapped(s, k, n)[k] == n;
    if p != n {
      assert SameBlock(x[p], y[p]);
      assert IsFree(x, p);
      if p in s {
        var j :| 0 <= j < |s| && s[j] == p;
        assert Swapped(s, k, n)[j] == p;
      }
    }
  }

  lemma HalvedUsed(x: Index, h: nat, n: nat, hs: nat)
    requires IsFree(x, h) && LinksExist(x, h) && hs <= x[h].hdr.blocks && n !in x && n != 0
    requires (x[h].hdr.prev != 0 ==> IsFree(x, x[h].hdr.prev)) && (x[h].hdr.next != 0 ==> IsFree(x, x[h].hdr.next))
    ensures UsedBlocks(Halved(x, h, n, hs)) == UsedBlocks(x)
  {
    SameUsed(x, Halved(x, h, n, hs));
  }

  /** GC_split_block up to its call of GC_add_to_fl. */
  lemma HalveKeeps(x: Index, f: Lists, i: nat, k: nat, n: nat, hs: nat)
    requires Consistent(x, f, {}, Nothing) && i <= N_HBLK_FLS && k < |f.lists[i]|
    requires hs <= x[f.lists[i][k]].hdr.blocks && n !in x && n != 0
    ensures var h := f.lists[i][k];
            && IsFree(x, h) && LinksExist(x, h) && x[h].hdr.blocks <= f.sums[i]
            && Consistent(Halved(x, h, n, hs), HalvedLists(f, i, k, n, hs), {h}, Misplaced(n, i))
            && UsedBlocks(Halved(x, h, n, hs)) == UsedBlocks(x)
  {
    var s, h := f.lists[i], f.lists[i][k];
    LinksOnList(x, f, i, k, {}, Nothing);
    assert ListOk(x, s, f.heads[i], f.sums[i], i, {}, Nothing);
    var y, g := Halved(x, h, n, hs), HalvedLists(f, i, k, n, hs);
    HalvedUsed(x, h, n, hs);
    hide Halved, LinksExist, ListOk, Swapped, Home, UsedBlocks;
    forall i': nat | i' <= N_HBLK_FLS
      ensures ListOk(y, g.lists[i'], g.heads[i'], g.sums[i'], i', {h}, Misplaced(n, i))
    {
      if i' == i {
        HalveList(x, s, f.heads[i], f.sums[i], i, k, n, hs);
      } else {
        HalveOther(x, f, i, k, n, hs, i');
      }
    }
    forall p: nat | IsFree(y, p) && p !in {h}
      ensures p in g.lists[Home(y, Misplaced(n, i), p)]
    {
      HalveComplete(x, f, i, k, n, hs, p);
    }
  }

  /** x with block h unmapped or mapped. */
  function Flagged(x: Index, h: nat, unmapped: bool): Index
    requires IsHdr(x, h)
  {
    x[h := Header(x[h].hdr.(unmapped := unmapped))]
  }

  /** The lists do not care which blocks are mapped. */
  lemma FlagKeeps(x: Index, f: Lists, h: nat, u: bool, loose: set<nat>, mis: Misplaced)
    requires Consistent(x, f, loose, mis) && IsFree(x, h)
    ensures Consistent(Flagged(x, h, u), f, loose, mis) && UsedBlocks(Flagged(x, h, u)) == UsedBlocks(x)
  {
    var y := Flagged(x, h, u);
    SameUsed(x, y);
    forall i: nat | i <= N_HBLK_FLS
      ensures ListOk(y, f.lists[i], f.heads[i], f.sums[i], i, loose, mis)
    {
      var s := f.lists[i];
      assert ListOk(x, s, f.heads[i], f.sums[i], i, loose, mis);
      FlagList(x, h, u, s, f.heads[i], f.sums[i], i, loose, mis);
    }
    forall p: nat | IsFree(y, p) && p !in loose
      ensures p in f.lists[Home(y, mis, p)]
    {
      assert IsFree(x, p);
    }
  }

  lemma FlagList(x: Index, h: nat, u: bool, s: seq<nat>, head: nat, sum: nat, i: nat, loose: set<nat>, mis: Misplaced)
    requires ListOk(x, s, head, sum, i, loose, mis) && IsFree(x, h)
    ensures ListOk(Flagged(x, h, u), s, head, sum, i, loose, mis)
  {
    assert forall j :: 0 <= j < |s| ==> Member(x, s[j], i, loose, mis);
    ChainSame(x, Flagged(x, h, u), s, head);
    SumSame(x, Flagged(x, h, u), s);
  }
}
