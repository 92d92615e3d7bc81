/** Conservation: the byte counts of the free lists add up to the free pages of the heap. */
module HeapAccount {
  import opened Basics
  import opened HeapMap
  import opened FreeLists
  import opened Tiling

  function Total(sums: seq<nat>): nat { if sums == [] then 0 else sums[0] + Total(sums[1..]) }

  /** The pages that belong to free blocks. */
  ghost function FreePages(x: Index, o: Owner): set<nat> { set p | p in o && IsFree(x, o[p]) }

  /** The pages that belong to used blocks, including those dropped because they are black-listed. */
  ghost function UsedPages(x: Index, o: Owner): set<nat> { set p | p in o && !IsFree(x, o[p]) }

  lemma {:induction false} TotalUpdate(sums: seq<nat>, i: nat, v: nat)
    requires i < |sums|
    ensures Total(sums[i := v]) == Total(sums) - sums[i] + v
  {
    if i > 0 {
      assert sums[i := v][1..] == sums[1..][i - 1 := v];
      TotalUpdate(sums[1..], i - 1, v);
    }
  }

  /** The pages of the blocks on a list. */
  ghost function ListPages(x: Index, s: seq<nat>): set<nat>
    requires AllHdrs(x, s)
  {
    if s == [] then {} else Pages(s[0], x[s[0]].hdr.blocks) + ListPages(x, s[1..])
  }

  lemma {:induction false} ListPagesOwned(x: Index, o: Owner, s: seq<nat>)
    requires Tiled(x, o) && AllHdrs(x, s)
    ensures forall p :: p in ListPages(x, s) <==> p in o && o[p] in s
  {
    if s != [] {
      ListPagesOwned(x, o, s[1..]);
      assert BlockOwns(x, o, s[0]);
      forall p: nat
        ensures p in Pages(s[0], x[s[0]].hdr.blocks) <==> p in o && o[p] == s[0]
      {
        if p in o {
          assert PageOwned(x, o, p);
        }
      }
      assert s == [s[0]] + s[1..];
    }
  }

  lemma {:induction false} ListPagesCount(x: Index, o: Owner, s: seq<nat>)
    requires Tiled(x, o) && AllHdrs(x, s) && NoDuplicates(s)
    ensures |ListPages(x, s)| == Sum(x, s)
  {
    if s != [] {
      ListPagesCount(x, o, s[1..]);
      ListPagesOwned(x, o, s[1..]);
      PagesCount(s[0], x[s[0]].hdr.blocks);
      assert BlockOwns(x, o, s[0]);
      assert Pages(s[0], x[s[0]].hdr.blocks) !! ListPages(x, s[1..]);
    }
  }

  /** The pages on the first n lists, and how many there are. */
  ghost function PagesBelow(x: Index, o: Owner, n: nat): set<nat> {
    set p | p in o && IsFree(x, o[p]) && ListFor(x[o[p]].hdr.blocks) < n
  }

  lemma OneMoreList(x: Index, o: Owner, f: Lists, i: nat)
    requires Tiled(x, o) && Consistent(x, f, {}, Nothing) && i <= N_HBLK_FLS
    ensures |PagesBelow(x, o, i + 1)| == |PagesBelow(x, o, i)| + f.sums[i]
  {
    var s := f.lists[i];
    OnListExactly(x, f, i);
    assert ListOk(x, s, f.heads[i], f.sums[i], i, {}, Nothing);
    ListPagesCount(x, o, s);
    ListPagesOwned(x, o, s);
    hide Consistent, ListOk, Tiled, ListFor, ListPages, IsFree;
    assert PagesBelow(x, o, i + 1) == PagesBelow(x, o, i) + ListPages(x, s);
    assert PagesBelow(x, o, i) !! ListPages(x, s);
  }

  lemma {:induction false} CountBelow(x: Index, o: Owner, f: Lists, n: nat)
    requires Tiled(x, o) && Consistent(x, f, {}, Nothing) && n <= N_HBLK_FLS + 1
    ensures |PagesBelow(x, o, n)| == Total(f.sums[..n])
  {
    if n > 0 {
      CountBelow(x, o, f, n - 1);
      OneMoreList(x, o, f, n - 1);
      hide Consistent, Tiled, PagesBelow, ListPages;
      assert f.sums[..n] == f.sums[..n - 1] + [f.sums[n - 1]];
      TotalAppend(f.sums[..n - 1], f.sums[n - 1]);
    }
  }

  lemma OnListExactly(x: Index, f: Lists, i: nat)
    requires Consistent(x, f, {}, Nothing) && i <= N_HBLK_FLS
    ensures forall p :: p in f.lists[i] <==> IsFree(x, p) && ListFor(x[p].hdr.blocks) == i
  {
  }

  lemma {:induction false} TotalAppend(s: seq<nat>, v: nat)
    ensures Total(s + [v]) == Total(s) + v
  {
    if s == [] {
      assert s + [v] == [v];
    } else {
      assert (s + [v])[1..] == s[1..] + [v];
      TotalAppend(s[1..], v);
    }
  }

  /** The counts of the lists add up to the size of the free part of the heap; used and free pages together are the
      heap. */
  lemma FreeBytesConserved(x: Index, o: Owner, f: Lists)
    requires Tiled(x, o) && Consistent(x, f, {}, Nothing)
    ensures Total(f.sums) == |FreePages(x, o)|
    ensures |UsedPages(x, o)| + Total(f.sums) == |o.Keys|
  {
    CountBelow(x, o, f, N_HBLK_FLS + 1);
    assert f.sums[..N_HBLK_FLS + 1] == f.sums;
    assert FreePages(x, o) == PagesBelow(x, o, N_HBLK_FLS + 1);
    assert FreePages(x, o) !! UsedPages(x, o);
    assert FreePages(x, o) + UsedPages(x, o) == o.Keys;
  }
}
