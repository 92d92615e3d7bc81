/** How splitting, coalescing, using, freeing and adding blocks keep the heap tiled. */
module Tiling {
  import opened HeapMap

  /** Pages [from, to) now belong to block b. */
  function Given(o: Owner, from: nat, to: nat, b: nat): Owner {
    map p | p in o :: if from <= p < to then b else o[p]
  }

  /** Block b, which follows a, becomes part of a. */
  function Merged(x: Index, a: nat, b: nat): Index
    requires IsHdr(x, a) && IsHdr(x, b)
  {
    (x - {b})[a := Header(x[a].hdr.(blocks := x[a].hdr.blocks + x[b].hdr.blocks))]
  }

  lemma TiledMerge(x: Index, o: Owner, a: nat, b: nat)
    requires Tiled(x, o) && IsFree(x, a) && IsFree(x, b) && End(x, a) == b
    ensures Tiled(Merged(x, a, b), Given(o, b, End(x, b), a))
  {
    var y, q := Merged(x, a, b), Given(o, b, End(x, b), a);
    assert BlockOwns(x, o, a) && BlockOwns(x, o, b);
    forall p: nat | p in q
      ensures PageOwned(y, q, p)
    {
      assert PageOwned(x, o, p);
      assert b <= p < End(x, b) <==> o[p] == b;
    }
    forall c: nat | IsHdr(y, c)
      ensures BlockOwns(y, q, c)
    {
      assert BlockOwns(x, o, c);
      if c != a {
        assert forall p: nat :: c <= p < End(x, c) ==> p in o && o[p] == c;
      }
    }
  }

  /** The part of free block h from page n on becomes a block of its own, with header d. */
  function Split(x: Index, h: nat, n: nat, d: Hdr): Index
    requires IsHdr(x, h) && h < n
  {
    x[h := Header(x[h].hdr.(blocks := n - h))][n := Header(d)]
  }

  lemma TiledSplit(x: Index, o: Owner, h: nat, n: nat, d: Hdr)
    requires Tiled(x, o) && IsFree(x, h) && h < n < End(x, h)
    requires d.free && d.blocks == End(x, h) - n
    ensures n !in x && Tiled(Split(x, h, n, d), Given(o, n, End(x, h), n))
  {
    var y, q := Split(x, h, n, d), Given(o, n, End(x, h), n);
    assert BlockOwns(x, o, h);
    assert PageOwned(x, o, n);
    forall p: nat | p in q
      ensures PageOwned(y, q, p)
    {
      assert PageOwned(x, o, p);
      assert h <= p < End(x, h) <==> o[p] == h;
    }
    forall c: nat | IsHdr(y, c)
      ensures BlockOwns(y, q, c)
    {
      if c != n {
        assert BlockOwns(x, o, c);
        assert c != h ==> forall p: nat :: c <= p < End(x, c) ==> p in o && o[p] == c;
      }
    }
  }

  /** Free block h is put to use with header d. */
  function InUse(x: Index, h: nat, d: Hdr): Index
    requires IsHdr(x, h)
  {
    (x + Counts(h, x[h].hdr.blocks))[h := Header(d)]
  }

  lemma TiledUse(x: Index, o: Owner, h: nat, d: Hdr)
    requires Tiled(x, o) && IsFree(x, h) && !d.free && HdrOk(d) && d.blocks == x[h].hdr.blocks
    ensures Tiled(InUse(x, h, d), o)
  {
    var y := InUse(x, h, d);
    assert BlockOwns(x, o, h);
    forall p: nat | p in o
      ensures PageOwned(y, o, p)
    {
      assert PageOwned(x, o, p);
      assert h <= p < End(x, h) <==> o[p] == h;
      assert BlockOwns(x, o, o[p]);
    }
    forall c: nat | IsHdr(y, c)
      ensures BlockOwns(y, o, c)
    {
      assert BlockOwns(x, o, c);
    }
  }

  /** Used block h becomes free, with header d. */
  function NotInUse(x: Index, h: nat, d: Hdr): Index
    requires IsHdr(x, h)
  {
    (x - Counts(h, x[h].hdr.blocks).Keys)[h := Header(d)]
  }

  lemma TiledFree(x: Index, o: Owner, h: nat, d: Hdr)
    requires Tiled(x, o) && IsUsed(x, h) && d.free && d.blocks == x[h].hdr.blocks
    ensures Counts(h, x[h].hdr.blocks).Keys <= x.Keys
    ensures Tiled(NotInUse(x, h, d), o)
  {
    var y := NotInUse(x, h, d);
    assert BlockOwns(x, o, h);
    forall p: nat | p in Counts(h, x[h].hdr.blocks).Keys
      ensures p in x
    {
      assert PageOwned(x, o, p);
    }
    forall p: nat | p in o
      ensures PageOwned(y, o, p)
    {
      assert PageOwned(x, o, p);
      assert h <= p < End(x, h) <==> o[p] == h;
      assert BlockOwns(x, o, o[p]);
    }
    forall c: nat | IsHdr(y, c)
      ensures BlockOwns(y, o, c)
    {
      assert BlockOwns(x, o, c);
    }
  }

  /** The pages of n blocks from p on. */
  function Pages(p: nat, n: nat): (s: set<nat>)
    ensures forall q: nat :: q in s <==> p <= q < p + n
  {
    if n == 0 then {} else {p} + Counts(p, n).Keys
  }

  lemma {:induction false} PagesCount(p: nat, n: nat)
    ensures |Pages(p, n)| == n
  {
    hide Pages;
    if n == 0 {
      assert Pages(p, n) == {};
    } else {
      PagesCount(p, n - 1);
      assert Pages(p, n) == Pages(p, n - 1) + {p + n - 1};
    }
  }

  /** Pages [p, p + n) are added to the heap as one block. */
  function Extended(o: Owner, p: nat, n: nat): Owner { o + map q | q in Pages(p, n) :: p }

  predicate NewPages(o: Owner, p: nat, n: nat) { p > 0 && n > 0 && forall q: nat :: p <= q < p + n ==> q !in o }

  lemma TiledExtend(x: Index, o: Owner, p: nat, d: Hdr)
    requires Tiled(x, o) && NewPages(o, p, d.blocks) && d.free
    ensures Tiled(x[p := Header(d)], Extended(o, p, d.blocks))
  {
    var y, o' := x[p := Header(d)], Extended(o, p, d.blocks);
    assert p !in o;
    forall q: nat | q in o'
      ensures PageOwned(y, o', q)
    {
      if q in o {
        assert PageOwned(x, o, q);
      }
    }
    forall c: nat | IsHdr(y, c)
      ensures BlockOwns(y, o', c)
    {
      if c != p {
        assert BlockOwns(x, o, c);
      }
    }
  }

  lemma MergedUsed(x: Index, a: nat, b: nat)
    requires IsFree(x, a) && IsFree(x, b) && a != b
    ensures UsedBlocks(Merged(x, a, b)) == UsedBlocks(x)
  {
  }

  lemma SplitUsed(x: Index, h: nat, n: nat, d: Hdr)
    requires IsFree(x, h) && h < n && n !in x && d.free
    ensures UsedBlocks(Split(x, h, n, d)) == UsedBlocks(x)
  {
  }

  lemma InUseUsed(x: Index, o: Owner, h: nat, d: Hdr)
    requires Tiled(x, o) && IsFree(x, h) && !d.free
    ensures UsedBlocks(InUse(x, h, d)) == UsedBlocks(x)[h := d]
  {
    var y := InUse(x, h, d);
    forall b: nat | IsUsed(x, b)
      ensures b in y && y[b] == x[b]
    {
      assert BlockOwns(x, o, h) && BlockOwns(x, o, b);
    }
    assert forall b: nat :: b in UsedBlocks(y) <==> b in UsedBlocks(x) || b == h;
  }

  lemma NotInUseUsed(x: Index, o: Owner, h: nat, d: Hdr)
    requires Tiled(x, o) && IsUsed(x, h) && d.free
    ensures UsedBlocks(NotInUse(x, h, d)) == UsedBlocks(x) - {h}
  {
    var y := NotInUse(x, h, d);
    forall b: nat | IsUsed(x, b) && b != h
      ensures b in y && y[b] == x[b]
    {
      assert BlockOwns(x, o, h) && BlockOwns(x, o, b);
    }
    assert forall b: nat :: b in UsedBlocks(y) <==> b in UsedBlocks(x) && b != h;
  }
}
