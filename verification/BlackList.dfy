/** The tables of pages that false pointers were seen to point to, and the scan that looks for a stretch of pages
    clear of them (blacklst.c, and the search loop of GC_allochblk_nth in allchblk.c). */
module BlackListing {
  import opened Basics

  const WORDSZ := 64
  const PHT_ENTRIES := 0x4_0000
  const PHT_SIZE := PHT_ENTRIES / WORDSZ

  type Table = seq<bv64>

  function PhtHash(page: nat): (i: int)
    ensures 0 <= i < PHT_ENTRIES
  {
    page % PHT_ENTRIES
  }

  function BitOf(w: bv64, k: nat): bool
    requires k < WORDSZ
  {
    ((w >> k) & 1) != 0
  }

  /** get_pht_entry_from_index. */
  function BitAt(bl: Table, index: nat): bool
    requires |bl| == PHT_SIZE && index < PHT_ENTRIES
  {
    BitOf(bl[index / WORDSZ], index % WORDSZ)
  }

  lemma ZeroWord(k: nat)
    requires k < WORDSZ
    ensures !BitOf(0, k)
  {
  }

  /** The pages that share a table word with page p, from p on, are hashed without wrapping. */
  lemma SameWord(p: nat, d: nat)
    requires d < WORDSZ - PhtHash(p) % WORDSZ
    ensures PhtHash(p + d) == PhtHash(p) + d
    ensures PhtHash(p + d) / WORDSZ == PhtHash(p) / WORDSZ
  {
    var q, r := PhtHash(p) / WORDSZ, PhtHash(p) % WORDSZ;
    assert PhtHash(p) == q * WORDSZ + r && r + d < WORDSZ;
    assert q < PHT_SIZE;
    var m := p / PHT_ENTRIES;
    assert p == m * PHT_ENTRIES + PhtHash(p);
    assert PhtHash(p) + d < PHT_ENTRIES;
    assert (m * PHT_ENTRIES + (PhtHash(p) + d)) % PHT_ENTRIES == PhtHash(p) + d;
  }

  class BlackList {
    const allInterior: bool  // GC_all_interior_pointers
    var oldNormal: Table
    var incompleteNormal: Table
    var oldStack: Table
    var incompleteStack: Table

    predicate Valid()
      reads this
    {
      |oldNormal| == PHT_SIZE && |incompleteNormal| == PHT_SIZE && |oldStack| == PHT_SIZE &&
          |incompleteStack| == PHT_SIZE
    }

    constructor (allInterior: bool)
      ensures Valid() && this.allInterior == allInterior
      ensures forall p: nat :: !ListedNormal(p) && !ListedStack(p)
    {
      this.allInterior := allInterior;
      oldNormal, incompleteNormal := seq(PHT_SIZE, _ => 0), seq(PHT_SIZE, _ => 0);
      oldStack, incompleteStack := seq(PHT_SIZE, _ => 0), seq(PHT_SIZE, _ => 0);
      new;
      forall p: nat
        ensures !ListedNormal(p) && !ListedStack(p)
      {
        ZeroWord(PhtHash(p) % WORDSZ);
      }
    }

    predicate ListedNormal(p: nat)
      requires Valid()
      reads this
    {
      BitAt(oldNormal, PhtHash(p)) || BitAt(incompleteNormal, PhtHash(p))
    }

    predicate ListedStack(p: nat)
      requires Valid()
      reads this
    {
      BitAt(oldStack, PhtHash(p)) || BitAt(incompleteStack, PhtHash(p))
    }

    /** Nothing on a black list keeps a block of n pages from starting at h. The first page is looked at even for
        n == 0. */
    ghost predicate Clean(h: nat, n: nat)
      requires Valid()
      reads this
    {
      (allInterior || !ListedNormal(h)) && forall p: nat :: h <= p < h + n || p == h ==> !ListedStack(p)
    }

    /** GC_is_black_listed for n pages at h: the page after the first listed one, or None. */
    method IsBlackListed(h: nat, n: nat) returns (r: Option<nat>)
      requires Valid()
      ensures r.None? <==> Clean(h, n)
      ensures r.Some? && !allInterior && ListedNormal(h) ==> r.value == h + 1
      ensures r.Some? && (allInterior || !ListedNormal(h)) ==>
                h < r.value && (r.value <= h + n || r.value == h + 1) && ListedStack(r.value - 1)
                && forall p: nat :: h <= p < r.value - 1 ==> !ListedStack(p)
    {
      hide PhtHash, BitAt;
      var index := PhtHash(h);
      if !allInterior && (BitAt(oldNormal, index) || BitAt(incompleteNormal, index)) {
        return Some(h + 1);
      }
      var i := 0;
      while true
        invariant index == PhtHash(h + i) && (i == 0 || i < n)
        invariant forall p: nat :: h <= p < h + i ==> !ListedStack(p)
        decreases n - i
      {
        if oldStack[index / WORDSZ] == 0 && incompleteStack[index / WORDSZ] == 0 {
          ClearWord(h + i);
          i := i + (WORDSZ - index % WORDSZ);
        } else {
          if BitAt(oldStack, index) || BitAt(incompleteStack, index) {
            assert ListedStack(h + i);
            return Some(h + (i + 1));
          }
          i := i + 1;
        }
        if i >= n {
          break;
        }
        index := PhtHash(h + i);
      }
      r := None;
    }

    lemma ClearWord(p: nat)
      requires Valid()
      requires oldStack[PhtHash(p) / WORDSZ] == 0 && incompleteStack[PhtHash(p) / WORDSZ] == 0
      ensures forall q: nat :: p <= q < p + (WORDSZ - PhtHash(p) % WORDSZ) ==> !ListedStack(q)
    {
      forall q: nat | p <= q < p + (WORDSZ - PhtHash(p) % WORDSZ)
        ensures !ListedStack(q)
      {
        SameWord(p, q - p);
        ZeroWord(PhtHash(q) % WORDSZ);
      }
    }

    /** The search of GC_allochblk_nth: the lowest start from h on where n pages are clean. If there is none up to
        searchEnd, any page after it is returned. */
    method FirstClean(h: nat, searchEnd: nat, n: nat) returns (r: nat)
      requires Valid() && n > 0
      ensures h <= r && (r <= searchEnd ==> Clean(r, n))
      ensures forall q: nat :: h <= q < r ==> !Clean(q, n)
    {
      r := h;
      while r <= searchEnd
        invariant h <= r
        invariant forall q: nat :: h <= q < r ==> !Clean(q, n)
        decreases searchEnd + 1 - r
      {
        var next := IsBlackListed(r, n);
        if next.None? {
          break;
        }
        NoneCleanBelow(r, n, next.value);
        r := next.value;
      }
    }

    lemma NoneCleanBelow(h: nat, n: nat, r: nat)
      requires Valid() && n > 0 && h < r
      requires (r == h + 1 && !allInterior && ListedNormal(h)) || (r <= h + n && ListedStack(r - 1))
      ensures forall q: nat :: h <= q < r ==> !Clean(q, n)
    {
      forall q: nat | h <= q < r
        ensures !Clean(q, n)
      {
        if r <= h + n && ListedStack(r - 1) {
          var p: nat := r - 1;
          assert q <= p < q + n;
        }
      }
    }
  }
}
