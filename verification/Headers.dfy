/** The two-level index from pages to block headers (headers.c), and the lookups over it (GC_base in misc.c).
    The top level is a map from the high-order bits of a page to its bottom index; the bottom indices are also linked
    in ascending and descending order. */
module HeaderIndex {
  import opened Basics
  import opened HeapMap

  const BOTTOM_SZ := 1024

  /** asc_link and desc_link are None for a null link. */
  datatype Bottom = Bottom(index: seq<Entry>, asc: Option<nat>, desc: Option<nat>)

  type Bottoms = map<nat, Bottom>

  function Key(p: nat): nat { p / BOTTOM_SZ }

  function Slot(p: nat): (j: int)
    ensures 0 <= j < BOTTOM_SZ
  {
    p % BOTTOM_SZ
  }

  function Page(k: nat, j: nat): nat { k * BOTTOM_SZ + j }

  lemma PageOfParts(p: nat)
    ensures Page(Key(p), Slot(p)) == p
  {
  }

  lemma PartsOfPage(k: nat, j: nat)
    requires j < BOTTOM_SZ
    ensures Key(Page(k, j)) == k && Slot(Page(k, j)) == j
  {
  }

  lemma SamePage(p: nat, q: nat)
    requires Key(p) == Key(q) && Slot(p) == Slot(q)
    ensures p == q
  {
    PageOfParts(p);
    PageOfParts(q);
  }

  function LinkAt(keys: seq<nat>, i: int): Option<nat> {
    if 0 <= i < |keys| then Some(keys[i]) else None
  }

  ghost predicate Ascending(keys: seq<nat>) {
    forall i, j :: 0 <= i < j < |keys| ==> keys[i] < keys[j]
  }

  predicate ChainAt(b: Bottoms, keys: seq<nat>, i: nat)
    requires i < |keys|
  {
    && keys[i] in b
    && b[keys[i]].asc == LinkAt(keys, i + 1)
    && b[keys[i]].desc == LinkAt(keys, i - 1)
  }

  /** The bottom indices are exactly those of keys, and their links run through keys in order. */
  ghost predicate Chained(b: Bottoms, keys: seq<nat>) {
    && Ascending(keys)
    && (forall k :: k in b <==> k in keys)
    && (forall i: nat {:trigger ChainAt(b, keys, i)} :: 0 <= i < |keys| ==> ChainAt(b, keys, i))
  }

  predicate Full(b: Bottoms) { forall k :: k in b ==> |b[k].index| == BOTTOM_SZ }

  /** HDR(p): a page without bottom index reads as nil (GC_all_nils). */
  function EntryAt(b: Bottoms, p: nat): Entry
    requires Full(b)
  {
    if Key(p) in b then b[Key(p)].index[Slot(p)] else Nil
  }

  /** The flat map x is what the index stands for. */
  ghost predicate Shows(b: Bottoms, x: Index) {
    Full(b) && NoNils(x) && forall p: nat :: EntryAt(b, p) == Lookup(x, p)
  }

  function Stored(b: Bottoms, p: nat, e: Entry): Bottoms
    requires Full(b) && Key(p) in b
  {
    b[Key(p) := b[Key(p)].(index := b[Key(p)].index[Slot(p) := e])]
  }

  function Written(x: Index, p: nat, e: Entry): Index { if e.Nil? then x - {p} else x[p := e] }

  lemma StoredShows(b: Bottoms, x: Index, p: nat, e: Entry)
    requires Shows(b, x) && Key(p) in b
    ensures Shows(Stored(b, p, e), Written(x, p, e))
  {
    hide Key, Slot;
    forall q: nat
      ensures EntryAt(Stored(b, p, e), q) == Lookup(Written(x, p, e), q)
    {
      assert EntryAt(b, q) == Lookup(x, q);
      if Key(q) == Key(p) && Slot(q) == Slot(p) {
        SamePage(p, q);
      }
    }
  }

  lemma StoredChained(b: Bottoms, keys: seq<nat>, p: nat, e: Entry)
    requires Full(b) && Chained(b, keys) && Key(p) in b
    ensures Chained(Stored(b, p, e), keys)
  {
    hide Key, Slot;
    forall i: nat | i < |keys|
      ensures ChainAt(Stored(b, p, e), keys, i)
    {
      assert ChainAt(b, keys, i);
    }
  }

  function AllNil(): seq<Entry> { seq(BOTTOM_SZ, _ => Nil) }

  /** The index after a new, empty bottom index hi is linked in between pi and q. */
  function Inserted(b: Bottoms, hi: nat, pi: Option<nat>, q: Option<nat>): Bottoms {
    var b1 := b[hi := Bottom(AllNil(), q, pi)];
    var b2 := if q.Some? && q.value in b1 then b1[q.value := b1[q.value].(desc := Some(hi))] else b1;
    if pi.Some? && pi.value in b2 then b2[pi.value := b2[pi.value].(asc := Some(hi))] else b2
  }

  lemma InsertedShows(b: Bottoms, x: Index, hi: nat, pi: Option<nat>, q: Option<nat>)
    requires Shows(b, x) && hi !in b
    ensures Shows(Inserted(b, hi, pi, q), x)
  {
    hide Key, Slot;
    var b' := Inserted(b, hi, pi, q);
    assert forall k :: k in b' <==> k in b || k == hi;
    assert forall k :: k in b ==> b'[k].index == b[k].index;
    forall p: nat
      ensures EntryAt(b', p) == Lookup(x, p)
    {
      assert EntryAt(b, p) == Lookup(x, p);
    }
  }

  function Insert(keys: seq<nat>, hi: nat, i: nat): seq<nat>
    requires i <= |keys|
  {
    keys[..i] + [hi] + keys[i..]
  }

  /** Where key number j of the longer sequence comes from. */
  function Before(i: nat, j: int): int { if j < i then j else j - 1 }

  lemma InsertAt(keys: seq<nat>, hi: nat, i: nat, j: nat)
    requires i <= |keys| && j <= |keys|
    ensures |Insert(keys, hi, i)| == |keys| + 1
    ensures Insert(keys, hi, i)[j] == if j == i then hi else keys[Before(i, j)]
  {
  }

  lemma InsertMembers(keys: seq<nat>, hi: nat, i: nat)
    requires i <= |keys|
    ensures |Insert(keys, hi, i)| == |keys| + 1
    ensures forall k :: k in Insert(keys, hi, i) <==> k in keys || k == hi
  {
    assert keys == keys[..i] + keys[i..];
  }

  lemma InsertAscending(keys: seq<nat>, hi: nat, i: nat)
    requires Ascending(keys) && i <= |keys|
    requires forall j :: 0 <= j < i ==> keys[j] < hi
    requires forall j :: i <= j < |keys| ==> keys[j] > hi
    ensures Ascending(Insert(keys, hi, i))
  {
  }

  lemma InsertedLinks(b: Bottoms, hi: nat, pi: Option<nat>, q: Option<nat>)
    requires hi !in b && (pi.Some? ==> pi.value in b) && (q.Some? ==> q.value in b)
    ensures Inserted(b, hi, pi, q).Keys == b.Keys + {hi}
    ensures Inserted(b, hi, pi, q)[hi].asc == q && Inserted(b, hi, pi, q)[hi].desc == pi
    ensures forall k :: k in b ==> Inserted(b, hi, pi, q)[k].asc == if pi == Some(k) then Some(hi) else b[k].asc
    ensures forall k :: k in b ==> Inserted(b, hi, pi, q)[k].desc == if q == Some(k) then Some(hi) else b[k].desc
  {
  }

  lemma NeighboursExist(b: Bottoms, keys: seq<nat>, i: nat)
    requires Chained(b, keys) && i <= |keys|
    ensures i > 0 ==> keys[i - 1] in b
    ensures i < |keys| ==> keys[i] in b
  {
  }

  lemma InsertedChained(b: Bottoms, keys: seq<nat>, hi: nat, i: nat)
    requires Chained(b, keys) && i <= |keys| && hi !in b
    requires forall j :: 0 <= j < i ==> keys[j] < hi
    requires forall j :: i <= j < |keys| ==> keys[j] > hi
    ensures Inserted(b, hi, LinkAt(keys, i - 1), LinkAt(keys, i)).Keys == b.Keys + {hi}
    ensures Chained(Inserted(b, hi, LinkAt(keys, i - 1), LinkAt(keys, i)), Insert(keys, hi, i))
  {
    hide Inserted, Insert, ChainAt;
    var pi, q := LinkAt(keys, i - 1), LinkAt(keys, i);
    var b' := Inserted(b, hi, pi, q);
    var keys' := Insert(keys, hi, i);
    InsertMembers(keys, hi, i);
    InsertAscending(keys, hi, i);
    InsertedLinks(b, hi, pi, q);
    forall j: nat | 0 <= j < |keys'|
      ensures ChainAt(b', keys', j)
    {
      InsertedChainAt(b, keys, hi, i, j);
    }
  }

  lemma InsertedChainAt(b: Bottoms, keys: seq<nat>, hi: nat, i: nat, j: nat)
    requires Chained(b, keys) && i <= |keys| && hi !in b && j <= |keys|
    ensures |Insert(keys, hi, i)| == |keys| + 1
    ensures ChainAt(Inserted(b, hi, LinkAt(keys, i - 1), LinkAt(keys, i)), Insert(keys, hi, i), j)
  {
    hide Inserted, Insert, Ascending;
    NeighboursExist(b, keys, i);
    InsertedLinks(b, hi, LinkAt(keys, i - 1), LinkAt(keys, i));
    InsertMembers(keys, hi, i);
    InsertedLinkAt(keys, hi, i, j + 1);
    InsertedLinkAt(keys, hi, i, j - 1);
    InsertAt(keys, hi, i, j);
    if j != i {
      var m := Before(i, j);
      assert ChainAt(b, keys, m);
      if m != i {
        DistinctKeys(keys, m, i);
      }
      if m != i - 1 {
        DistinctKeys(keys, m, i - 1);
      }
    }
  }

  lemma DistinctKeys(keys: seq<nat>, m: nat, i: int)
    requires Ascending(keys) && m < |keys| && m != i
    ensures LinkAt(keys, i) != Some(keys[m])
  {
  }

  lemma InsertedLinkAt(keys: seq<nat>, hi: nat, i: nat, j: int)
    requires i <= |keys|
    ensures LinkAt(Insert(keys, hi, i), j) == if j == i then Some(hi) else LinkAt(keys, Before(i, j))
  {
    InsertMembers(keys, hi, i);
    if 0 <= j <= |keys| {
      InsertAt(keys, hi, i, j);
    }
  }

  lemma CountsStep(x: Index, h: nat, p: nat)
    requires h < p
    ensures x + Counts(h, p + 1 - h) == Written(x + Counts(h, p - h), p, CountFor(h, p))
    ensures h + 1 == p ==> x + Counts(h, 1) == x
  {
  }

  lemma KeyOfStep(h: nat, i: nat)
    ensures Key(h + i * BOTTOM_SZ) == Key(h) + i
  {
  }

  /** Stepping by BOTTOM_SZ from h meets every bottom index of [h, h + n) but possibly the last. */
  lemma KeysOfRange(h: nat, n: nat, i: nat)
    requires n > 0 && h + i * BOTTOM_SZ >= h + n
    ensures forall q: nat :: h <= q < h + n ==> Key(h) <= Key(q) < Key(h) + i || Key(q) == Key(h + n - 1)
  {
    KeyOfStep(h, i);
  }

  lemma FirstKey(b: Bottoms, keys: seq<nat>)
    requires Chained(b, keys)
    ensures forall k :: k in b ==> |keys| > 0 && keys[0] <= k
  {
  }

  lemma OnlyAt(k: nat, j: nat)
    requires j < BOTTOM_SZ
    ensures forall q: nat :: Key(q) == k && Slot(q) == j ==> q == Page(k, j)
  {
  }

  lemma KeysAscend(b: Bottoms, keys: seq<nat>, i: nat)
    requires Chained(b, keys) && i < |keys|
    ensures keys[i] in b && b[keys[i]].asc == LinkAt(keys, i + 1) && b[keys[i]].desc == LinkAt(keys, i - 1)
    ensures (i > 0 ==> keys[i - 1] < keys[i]) && (i + 1 < |keys| ==> keys[i] < keys[i + 1])
    ensures forall k :: k in b && k < keys[i] ==> i > 0 && k <= keys[i - 1]
    ensures forall k :: k in b && k > keys[i] ==> i + 1 < |keys| && k >= keys[i + 1]
  {
    assert ChainAt(b, keys, i);
    forall k | k in b && k != keys[i]
      ensures k < keys[i] ==> i > 0 && k <= keys[i - 1]
      ensures k > keys[i] ==> i + 1 < |keys| && k >= keys[i + 1]
    {
      var m :| 0 <= m < |keys| && keys[m] == k;
    }
  }

  /** The blocks GC_next_block looks for. */
  predicate Sought(x: Index, p: nat, allowFree: bool) { IsHdr(x, p) && (allowFree || !x[p].hdr.free) }

  /** Whatever stands at p, the walk of GC_next_block may step over it without missing a sought block: over one page
      when p has no header, over the block when it is free and free blocks are not sought. */
  lemma NothingSought(x: Index, o: Owner, p: nat, allowFree: bool)
    requires Tiled(x, o)
    ensures IsHdr(x, p) ==> x[p].hdr.blocks > 0
    ensures !Sought(x, p, allowFree) ==>
              var n := if IsHdr(x, p) then x[p].hdr.blocks else 1;
              forall q: nat :: Key(q) == Key(p) && Slot(p) <= Slot(q) < Slot(p) + n ==> !Sought(x, q, allowFree)
  {
    hide Key, Slot;
    if IsHdr(x, p) {
      assert BlockOwns(x, o, p);
    }
    if !Sought(x, p, allowFree) {
      var n := if IsHdr(x, p) then x[p].hdr.blocks else 1;
      forall q: nat | Key(q) == Key(p) && Slot(p) <= Slot(q) < Slot(p) + n
        ensures !Sought(x, q, allowFree)
      {
        SameBottom(p, q);
        if q != p {
          NoHeaderInside(x, o, p, q);
        }
      }
    }
  }

  /** The walk down of GC_prev_block and GC_apply_to_all_blocks steps from p over no header. */
  lemma NoHeaderStepped(x: Index, o: Owner, p: nat)
    requires Tiled(x, o) && !IsHdr(x, p)
    ensures Lookup(x, p).Count? ==> Lookup(x, p).jump > 0
    ensures var c := if p in x && x[p].Count? then x[p].jump else 1;
            forall q: nat :: Key(q) == Key(p) && Slot(p) - c < Slot(q) <= Slot(p) ==> !IsHdr(x, q)
  {
    hide Key, Slot, Tiled;
    var c := if p in x && x[p].Count? then x[p].jump else 1;
    if p in x && x[p].Count? {
      CountLeadsBack(x, o, p);
    }
    forall q: nat | Key(q) == Key(p) && Slot(p) - c < Slot(q) <= Slot(p)
      ensures !IsHdr(x, q)
    {
      SameBottom(p, q);
    }
  }

  lemma IndexOf(b: Bottoms, keys: seq<nat>, k: nat) returns (i: nat)
    requires Chained(b, keys) && k in b
    ensures i < |keys| && keys[i] == k
  {
    i :| 0 <= i < |keys| && keys[i] == k;
  }

  lemma InBottoms(b: Bottoms, x: Index)
    requires Shows(b, x)
    ensures forall q: nat :: q in x ==> Key(q) in b
  {
    hide Key, Slot;
    forall q: nat | q in x
      ensures Key(q) in b
    {
      assert EntryAt(b, q) == Lookup(x, q);
    }
  }

  /** The pages of a bottom index between two of its slots. */
  lemma SameBottom(p: nat, q: nat)
    requires Key(p) == Key(q)
    ensures q - p == Slot(q) - Slot(p)
  {
    PageOfParts(p);
    PageOfParts(q);
  }

  lemma KeysGrow(h: nat)
    ensures forall q: nat :: h <= q ==> Key(h) <= Key(q) && (Key(h) == Key(q) ==> Slot(h) <= Slot(q))
    ensures forall q: nat :: q <= h ==> Key(q) <= Key(h) && (Key(h) == Key(q) ==> Slot(q) <= Slot(h))
    ensures forall q: nat :: Key(q) > Key(h) ==> q > h
    ensures forall q: nat :: Key(q) < Key(h) ==> q < h
    ensures forall q: nat :: Key(q) == Key(h) && Slot(q) >= Slot(h) ==> q >= h
    ensures forall q: nat :: Key(q) == Key(h) && Slot(q) <= Slot(h) ==> q <= h
  {
  }

  const WORD_BYTES := 8

  function PageOf(a: nat): nat { a / HBLKSIZE }

  /** HBLKDISPL. */
  function Displ(a: nat): (d: int)
    ensures 0 <= d < HBLKSIZE
  {
    a % HBLKSIZE
  }

  function WordDown(a: nat): (w: int)
    ensures 0 <= w <= a < w + WORD_BYTES && w % WORD_BYTES == 0
  {
    a - a % WORD_BYTES
  }

  lemma PageSpan(a: nat, h: nat)
    ensures PageOf(a) == h <==> h * HBLKSIZE <= a < (h + 1) * HBLKSIZE
    ensures PageOf(a) == h ==> a == h * HBLKSIZE + Displ(a) && WordDown(a) >= h * HBLKSIZE && PageOf(WordDown(a)) == h
    ensures PageOf(h * HBLKSIZE) == h && WordDown(h * HBLKSIZE) == h * HBLKSIZE && Displ(h * HBLKSIZE) == 0
  {
    assert (h * HBLKSIZE) % WORD_BYTES == 0;
  }

  predicate IsMultiple(n: nat, sz: nat)
    requires sz > 0
  {
    n % sz == 0
  }

  function Remainder(d: nat, sz: nat): (r: int)
    requires sz > 0
    ensures 0 <= r <= d && r < sz && (d < sz ==> r == d)
  {
    d % sz
  }

  /** n is d rounded down to a multiple of sz. */
  predicate RoundsDown(d: nat, sz: nat, n: nat)
    requires sz > 0
  {
    IsMultiple(n, sz) && n <= d < n + sz
  }

  lemma RoundDown(d: nat, sz: nat)
    requires sz > 0
    ensures RoundsDown(d, sz, d - Remainder(d, sz))
  {
    var q := d / sz;
    var n := q * sz;
    assert d - Remainder(d, sz) == n;
    Multiples(n / sz, q, sz);
    Multiples(q, n / sz, sz);
    assert n == (n / sz) * sz + n % sz;
  }

  lemma RoundDownOnce(d: nat, sz: nat, n: nat, m: nat)
    requires sz > 0 && RoundsDown(d, sz, n) && RoundsDown(d, sz, m)
    ensures n == m
  {
    Multiples(n / sz, m / sz, sz);
    Multiples(m / sz, n / sz, sz);
    assert n == (n / sz) * sz && m == (m / sz) * sz;
  }

  lemma MultipleOfGranule(sz: nat, n: nat)
    requires sz > 0 && sz % GRANULE_BYTES == 0 && IsMultiple(n, sz)
    ensures n % WORD_BYTES == 0
  {
    var g, k := sz / GRANULE_BYTES, n / sz;
    assert n == k * sz;
    assert sz == g * GRANULE_BYTES;
    assert k * (g * GRANULE_BYTES) == (2 * (k * g)) * WORD_BYTES;
  }

  /** r is the address of an object of used block b: the only object of a large block, or one of the objects laid out
      from the start of a small block that fit in it. */
  predicate IsObject(x: Index, b: nat, r: nat) {
    && IsUsed(x, b)
    && r >= b * HBLKSIZE
    && var sz := x[b].hdr.objSz;
       sz > 0 && if sz > HBLKSIZE then r == b * HBLKSIZE
                 else IsMultiple(r - b * HBLKSIZE, sz) && r + sz <= (b + 1) * HBLKSIZE
  }

  /** Address p lies in the object of block b at r. */
  predicate Holds(x: Index, b: nat, r: nat, p: nat) {
    IsObject(x, b, r) && r <= p < r + x[b].hdr.objSz
  }

  lemma UsedSize(x: Index, o: Owner, b: nat)
    requires Tiled(x, o) && IsUsed(x, b)
    ensures var h := x[b].hdr; h.objSz > 0 && h.objSz % GRANULE_BYTES == 0 && h.objSz <= h.blocks * HBLKSIZE
    ensures x[b].hdr.objSz <= HBLKSIZE ==> x[b].hdr.blocks == 1
  {
    assert BlockOwns(x, o, b);
  }

  lemma HolderOwns(x: Index, o: Owner, b: nat, r: nat, p: nat)
    requires Tiled(x, o) && Holds(x, b, r, p)
    ensures PageOf(p) in o && o[PageOf(p)] == b
    ensures x[b].hdr.objSz <= HBLKSIZE ==> PageOf(p) == b
  {
    UsedSize(x, o, b);
    assert BlockOwns(x, o, b);
    assert b <= PageOf(p) < End(x, b);
  }

  /** What GC_base computes from a word-aligned address w in page h is the only candidate. */
  lemma Candidate(x: Index, o: Owner, h: nat, p: nat, a: nat)
    requires Tiled(x, o) && IsUsed(x, h) && PageOf(p) in o && o[PageOf(p)] == h && x[h].hdr.objSz > 0
    requires var w := if h == PageOf(p) then WordDown(p) else h * HBLKSIZE;
             a == w - Remainder(Displ(w), x[h].hdr.objSz)
    ensures a >= h * HBLKSIZE && a <= p
    ensures if x[h].hdr.objSz > HBLKSIZE then a == h * HBLKSIZE
            else PageOf(p) == h && RoundsDown(Displ(WordDown(p)), x[h].hdr.objSz, a - h * HBLKSIZE)
  {
    UsedSize(x, o, h);
    var sz := x[h].hdr.objSz;
    assert PageOwned(x, o, PageOf(p));
    hide Tiled, PageOf, WordDown, Displ, RoundsDown, Remainder;
    PageSpan(p, h);
    PageSpan(p, PageOf(p));
    var w := if h == PageOf(p) then WordDown(p) else h * HBLKSIZE;
    PageSpan(w, h);
    if sz <= HBLKSIZE {
      RoundDown(Displ(w), sz);
    }
  }

  /** A small object that holds p starts at p's word rounded down to a multiple of the object size. */
  lemma SmallHolder(x: Index, o: Owner, b: nat, r: nat, p: nat)
    requires Tiled(x, o) && Holds(x, b, r, p) && x[b].hdr.objSz <= HBLKSIZE
    ensures PageOf(p) == b && RoundsDown(Displ(WordDown(p)), x[b].hdr.objSz, r - b * HBLKSIZE)
  {
    HolderOwns(x, o, b, r, p);
    UsedSize(x, o, b);
    hide Tiled, PageOf, WordDown, Displ, IsMultiple, Remainder;
    PageSpan(p, b);
    PageSpan(WordDown(p), b);
    var sz, n := x[b].hdr.objSz, r - b * HBLKSIZE;
    var w := Displ(WordDown(p));
    MultipleOfGranule(sz, n);
    assert WordDown(p) == b * HBLKSIZE + w && p == b * HBLKSIZE + Displ(p);
    assert n <= Displ(p) < n + sz;
    WordMultiple(b, WordDown(p));
    WordsBelow(n, Displ(p), w);
  }

  lemma RemainderFits(a: nat, sz: nat)
    requires sz > 0
    ensures Remainder(Displ(a), sz) <= a
  {
  }

  lemma WordMultiple(b: nat, w: nat)
    requires w >= b * HBLKSIZE && w % WORD_BYTES == 0
    ensures (w - b * HBLKSIZE) % WORD_BYTES == 0
  {
  }

  lemma WordsBelow(n: nat, d: nat, w: nat)
    requires n % WORD_BYTES == 0 && w % WORD_BYTES == 0 && n <= d && w <= d < w + WORD_BYTES
    ensures n <= w
  {
  }

  /** At most one object holds an address. */
  lemma OneHolder(x: Index, o: Owner, b: nat, r: nat, b': nat, r': nat, p: nat)
    requires Tiled(x, o) && Holds(x, b, r, p) && Holds(x, b', r', p)
    ensures b == b' && r == r'
  {
    HolderOwns(x, o, b, r, p);
    HolderOwns(x, o, b', r', p);
    if x[b].hdr.objSz <= HBLKSIZE {
      SmallHolder(x, o, b, r, p);
      SmallHolder(x, o, b', r', p);
      RoundDownOnce(Displ(WordDown(p)), x[b].hdr.objSz, r - b * HBLKSIZE, r' - b * HBLKSIZE);
    }
  }

  lemma OwnerOf(x: Index, o: Owner, h: nat)
    requires Tiled(x, o) && h in x
    ensures h in o && (IsHdr(x, h) ==> o[h] == h)
  {
    if IsHdr(x, h) {
      assert BlockOwns(x, o, h);
    }
  }

  lemma NilHasNoUser(x: Index, o: Owner, h: nat)
    requires Tiled(x, o) && h !in x
    ensures h in o ==> !IsUsed(x, o[h])
  {
    if h in o {
      assert PageOwned(x, o, h);
    }
  }

  lemma NoHolder(x: Index, o: Owner, p: nat)
    requires Tiled(x, o) && (PageOf(p) in o ==> !IsUsed(x, o[PageOf(p)]))
    ensures forall b: nat, r: nat :: !Holds(x, b, r, p)
  {
    forall b: nat, r: nat
      ensures !Holds(x, b, r, p)
    {
      if Holds(x, b, r, p) {
        HolderOwns(x, o, b, r, p);
      }
    }
  }

  /** Where GC_base ends up in block h of the page of p: at the holder of p if there is one. */
  lemma BaseIsRight(x: Index, o: Owner, h: nat, p: nat, a: nat)
    requires Tiled(x, o) && IsUsed(x, h) && PageOf(p) in o && o[PageOf(p)] == h && x[h].hdr.objSz > 0
    requires var w := if h == PageOf(p) then WordDown(p) else h * HBLKSIZE;
             a == w - Remainder(Displ(w), x[h].hdr.objSz)
    ensures var limit := a + x[h].hdr.objSz;
            if (limit > (h + 1) * HBLKSIZE && x[h].hdr.objSz <= HBLKSIZE) || p >= limit
            then forall b: nat, r: nat :: !Holds(x, b, r, p)
            else Holds(x, h, a, p)
  {
    hide Tiled, PageOf, WordDown, Displ, IsMultiple, Remainder;
    Candidate(x, o, h, p, a);
    forall b: nat, r: nat
      ensures Holds(x, b, r, p) ==> b == h && r == a
    {
      if Holds(x, b, r, p) {
        HolderOwns(x, o, b, r, p);
        if x[h].hdr.objSz <= HBLKSIZE {
          SmallHolder(x, o, b, r, p);
          RoundDownOnce(Displ(WordDown(p)), x[h].hdr.objSz, a - h * HBLKSIZE, r - h * HBLKSIZE);
        }
      }
    }
  }

  class Headers {
    var bottoms: Bottoms
    var allBottoms: Option<nat>     // GC_all_bottom_indices
    var allBottomsEnd: Option<nat>  // GC_all_bottom_indices_end
    ghost var keys: seq<nat>
    ghost var view: Index

    ghost predicate Valid()
      reads this
    {
      && Shows(bottoms, view) && Chained(bottoms, keys)
      && allBottoms == LinkAt(keys, 0) && allBottomsEnd == LinkAt(keys, |keys| - 1)
    }

    constructor ()
      ensures Valid() && view == map[]
    {
      bottoms, allBottoms, allBottomsEnd, keys, view := map[], None, None, [], map[];
    }

    method Get(p: nat) returns (e: Entry)
      requires Valid()
      ensures e == Lookup(view, p) && (e.Nil? <==> p !in view)
    {
      e := EntryAt(bottoms, p);
    }

    /** Reads the header at h. */
    method HdrAt(h: nat) returns (hdr: Hdr)
      requires Valid() && IsHdr(view, h)
      ensures hdr == H(view, h)
    {
      hide Shows, Chained;
      var e := Get(h);
      hdr := e.hdr;
    }

    /** Makes sure that page p has a bottom index. */
    method GetIndex(p: nat)
      requires Valid()
      modifies this
      ensures Valid() && view == old(view)
      ensures bottoms.Keys == old(bottoms.Keys) + {Key(p)}
    {
      hide Shows, Key;
      var hi := Key(p);
      if hi in bottoms {
        return;
      }
      var pi, q, i := FindPlace(hi);
      LinkIn(hi, pi, q, i);
    }

    /** The bottom indices between which hi belongs. */
    method FindPlace(hi: nat) returns (pi: Option<nat>, q: Option<nat>, ghost i: nat)
      requires Valid() && hi !in bottoms
      ensures i <= |keys| && q == LinkAt(keys, i) && pi == LinkAt(keys, i - 1)
      ensures forall j :: 0 <= j < i ==> keys[j] < hi
      ensures forall j :: i <= j < |keys| ==> keys[j] > hi
      ensures forall k :: k in bottoms && k > hi ==> i < |keys| && k >= keys[i]
    {
      hide Shows;
      pi, q, i := None, allBottoms, 0;
      while q.Some? && q.value < hi
        invariant i <= |keys| && q == LinkAt(keys, i) && pi == LinkAt(keys, i - 1)
        invariant forall j :: 0 <= j < i ==> keys[j] < hi
        decreases |keys| - i
      {
        assert ChainAt(bottoms, keys, i);
        pi := q;
        q := bottoms[q.value].asc;
        i := i + 1;
      }
      assert forall j :: i <= j < |keys| ==> keys[j] in bottoms && keys[j] >= keys[i];
    }

    method LinkIn(hi: nat, pi: Option<nat>, q: Option<nat>, ghost i: nat)
      requires Valid() && hi !in bottoms
      requires i <= |keys| && q == LinkAt(keys, i) && pi == LinkAt(keys, i - 1)
      requires forall j :: 0 <= j < i ==> keys[j] < hi
      requires forall j :: i <= j < |keys| ==> keys[j] > hi
      modifies this
      ensures Valid() && view == old(view) && bottoms.Keys == old(bottoms.Keys) + {hi}
    {
      hide Shows, Chained, AllNil, Insert;
      NeighboursExist(bottoms, keys, i);
      InsertMembers(keys, hi, i);
      InsertedLinkAt(keys, hi, i, 0);
      InsertedLinkAt(keys, hi, i, |keys|);
      InsertedShows(bottoms, view, hi, pi, q);
      InsertedChained(bottoms, keys, hi, i);
      bottoms := bottoms[hi := Bottom(AllNil(), q, pi)];
      if q.None? {
        allBottomsEnd := Some(hi);
      } else {
        bottoms := bottoms[q.value := bottoms[q.value].(desc := Some(hi))];
      }
      if pi.None? {
        allBottoms := Some(hi);
      } else {
        bottoms := bottoms[pi.value := bottoms[pi.value].(asc := Some(hi))];
      }
      keys := Insert(keys, hi, i);
    }

    /** SET_HDR. */
    method SetHdr(p: nat, e: Entry)
      requires Valid() && Key(p) in bottoms
      modifies this
      ensures Valid() && bottoms.Keys == old(bottoms.Keys) && view == Written(old(view), p, e)
    {
      hide Key, Slot, Chained;
      StoredShows(bottoms, view, p, e);
      StoredChained(bottoms, keys, p, e);
      bottoms := bottoms[Key(p) := bottoms[Key(p)].(index := bottoms[Key(p)].index[Slot(p) := e])];
      view := Written(view, p, e);
    }

    method InstallHeader(h: nat, hdr: Hdr)
      requires Valid()
      modifies this
      ensures Valid() && view == old(view)[h := Header(hdr)]
    {
      hide Shows, Chained, Key;
      GetIndex(h);
      SetHdr(h, Header(hdr));
    }

    /** Changes fields of a header in place. */
    method Update(h: nat, hdr: Hdr)
      requires Valid() && IsHdr(view, h)
      modifies this
      ensures Valid() && view == old(view)[h := Header(hdr)]
    {
      hide Chained, Key, Slot;
      assert EntryAt(bottoms, h) == Lookup(view, h);
      SetHdr(h, Header(hdr));
    }

    method RemoveHeader(h: nat)
      requires Valid() && IsHdr(view, h)
      modifies this
      ensures Valid() && view == old(view) - {h}
    {
      hide Chained, Key, Slot;
      assert EntryAt(bottoms, h) == Lookup(view, h);
      SetHdr(h, Nil);
    }

    /** Sets up forwarding counts for the block of n pages at h, across as many bottom indices as it spans. */
    method InstallCounts(h: nat, n: nat)
      requires Valid() && n > 0
      modifies this
      ensures Valid() && view == old(view) + Counts(h, n)
    {
      hide Shows, Chained, Key, Counts;
      IndicesFor(h, n);
      var p := h + 1;
      CountsStep(view, h, p);
      while p < h + n
        invariant h < p <= h + n
        invariant Valid() && view == old(view) + Counts(h, p - h)
        invariant forall q: nat :: h <= q < h + n ==> Key(q) in bottoms
      {
        var i := p - h;
        SetHdr(p, Count(if i > MAX_JUMP then MAX_JUMP else i));
        CountsStep(old(view), h, p);
        p := p + 1;
      }
    }

    method IndicesFor(h: nat, n: nat)
      requires Valid() && n > 0
      modifies this
      ensures Valid() && view == old(view)
      ensures forall q: nat :: h <= q < h + n ==> Key(q) in bottoms
    {
      hide Shows, Chained, Key;
      var p := h;
      ghost var i := 0;
      while p < h + n
        invariant p == h + i * BOTTOM_SZ
        invariant Valid() && view == old(view)
        invariant forall k :: Key(h) <= k < Key(h) + i ==> k in bottoms
        decreases h + n - p
      {
        KeyOfStep(h, i);
        GetIndex(p);
        p := p + BOTTOM_SZ;
        i := i + 1;
      }
      GetIndex(h + n - 1);
      KeysOfRange(h, n, i);
    }

    /** Removes the forwarding counts of the block of n pages at h, if it has any. */
    method RemoveCounts(h: nat, n: nat)
      requires Valid()
      requires Counts(h, n).Keys <= view.Keys || Counts(h, n).Keys !! view.Keys
      modifies this
      ensures Valid() && view == old(view) - Counts(h, n).Keys
    {
      hide Chained, Key, Slot;
      if n <= 1 {
        assert old(view) - Counts(h, n).Keys == old(view);
        return;
      }
      var e := Get(h + 1);
      assert h + 1 in Counts(h, n).Keys;
      if e == Nil {
        assert old(view) - Counts(h, n).Keys == old(view);
        return;
      }
      var p := h + 1;
      while p < h + n
        invariant h < p <= h + n
        invariant Valid() && view == old(view) - Counts(h, p - h).Keys
        invariant forall q: nat :: p <= q < h + n ==> q in view
      {
        assert EntryAt(bottoms, p) == Lookup(view, p);
        SetHdr(p, Nil);
        assert Counts(h, p + 1 - h).Keys == Counts(h, p - h).Keys + {p};
        p := p + 1;
      }
    }

    /** The inner loop of GC_next_block: the first sought entry of bottom index k from slot j0 on. */
    method NextIn(k: nat, j0: nat, allowFree: bool, ghost o: Owner) returns (j: nat)
      requires Valid() && Tiled(view, o) && k in bottoms
      ensures j >= j0 && (j < BOTTOM_SZ ==> Sought(view, Page(k, j), allowFree))
      ensures forall q: nat :: Key(q) == k && j0 <= Slot(q) < j ==> !Sought(view, q, allowFree)
    {
      hide Chained, Key, Slot, Page, Tiled;
      j := j0;
      while j < BOTTOM_SZ
        invariant j >= j0
        invariant forall q: nat :: Key(q) == k && j0 <= Slot(q) < j ==> !Sought(view, q, allowFree)
      {
        ghost var p := Page(k, j);
        PartsOfPage(k, j);
        assert EntryAt(bottoms, p) == Lookup(view, p);
        var e := bottoms[k].index[j];
        NothingSought(view, o, p, allowFree);
        if !e.Header? {
          j := j + 1;
        } else if allowFree || !e.hdr.free {
          return;
        } else {
          j := j + e.hdr.blocks;
        }
      }
    }

    /** GC_next_block: the first block, or the first used block, at or above h. */
    method NextBlock(h: nat, allowFree: bool, ghost o: Owner) returns (r: Option<nat>)
      requires Valid() && Tiled(view, o)
      ensures r.Some? ==> r.value >= h && Sought(view, r.value, allowFree)
      ensures forall q: nat :: h <= q && (r.Some? ==> q < r.value) ==> !Sought(view, q, allowFree)
    {
      hide Shows, Chained, Key, Slot, Page, Tiled;
      InBottoms(bottoms, view);
      KeysGrow(h);
      var j, bi := Slot(h), Some(Key(h));
      ghost var i := 0;
      if Key(h) !in bottoms {
        var pi;
        pi, bi, i := FindPlace(Key(h));
        j := 0;
      } else {
        i := IndexOf(bottoms, keys, Key(h));
      }
      while bi.Some?
        invariant i <= |keys| && bi == LinkAt(keys, i)
        invariant bi.Some? ==> Key(h) <= bi.value && j == if bi.value == Key(h) then Slot(h) else 0
        invariant forall q: nat :: h <= q && q in view && (bi.Some? ==> Key(q) < bi.value) ==>
                    !Sought(view, q, allowFree)
        decreases |keys| - i
      {
        KeysAscend(bottoms, keys, i);
        var j' := NextIn(bi.value, j, allowFree, o);
        if j' < BOTTOM_SZ {
          PartsOfPage(bi.value, j');
          KeysGrow(Page(bi.value, j'));
          return Some(Page(bi.value, j'));
        }
        j := 0;
        bi := bottoms[bi.value].asc;
        i := i + 1;
      }
      r := None;
    }

    /** The inner loop of GC_prev_block: the last header of bottom index k at or below slot j0. */
    method PrevIn(k: nat, j0: int, ghost o: Owner) returns (j: int)
      requires Valid() && Tiled(view, o) && k in bottoms && j0 < BOTTOM_SZ
      ensures j <= j0 && (j >= 0 ==> IsHdr(view, Page(k, j)))
      ensures forall q: nat :: Key(q) == k && j < Slot(q) <= j0 ==> !IsHdr(view, q)
    {
      hide Chained, Key, Slot, Page, Tiled;
      j := j0;
      while j >= 0
        invariant j <= j0
        invariant forall q: nat :: Key(q) == k && j < Slot(q) <= j0 ==> !IsHdr(view, q)
        decreases j
      {
        ghost var p := Page(k, j);
        PartsOfPage(k, j);
        assert EntryAt(bottoms, p) == Lookup(view, p);
        var e := bottoms[k].index[j];
        if e.Header? {
          return;
        }
        NoHeaderStepped(view, o, p);
        if e.Nil? {
          j := j - 1;
        } else {
          j := j - e.jump;
        }
      }
    }

    /** The last bottom index whose key is at most hi. */
    method FindPlaceDown(hi: nat) returns (bi: Option<nat>, ghost i: int)
      requires Valid()
      ensures -1 <= i < |keys| && bi == LinkAt(keys, i) && (bi.Some? ==> bi.value <= hi && bi.value in bottoms)
      ensures forall k :: k in bottoms && k <= hi ==> i >= 0 && k <= keys[i]
    {
      hide Shows;
      bi, i := allBottomsEnd, |keys| - 1;
      assert forall k :: k in bottoms && k <= hi ==> i >= 0 && k <= keys[i];
      while bi.Some? && bi.value > hi
        invariant -1 <= i < |keys| && bi == LinkAt(keys, i)
        invariant forall k :: k in bottoms && k <= hi ==> i >= 0 && k <= keys[i]
        decreases i
      {
        KeysAscend(bottoms, keys, i);
        bi := bottoms[bi.value].desc;
        i := i - 1;
      }
    }

    /** GC_prev_block: the last block at or below h, used or free. */
    method PrevBlock(h: nat, ghost o: Owner) returns (r: Option<nat>)
      requires Valid() && Tiled(view, o)
      ensures r.Some? ==> r.value <= h && IsHdr(view, r.value)
      ensures forall q: nat :: q <= h && (r.Some? ==> q > r.value) ==> !IsHdr(view, q)
    {
      hide Shows, Chained, Key, Slot, Page, Tiled;
      InBottoms(bottoms, view);
      KeysGrow(h);
      var bi: Option<nat>, j: int := Some(Key(h)), Slot(h);
      ghost var i: int := 0;
      if Key(h) !in bottoms {
        bi, i := FindPlaceDown(Key(h));
        j := BOTTOM_SZ - 1;
      } else {
        i := IndexOf(bottoms, keys, Key(h));
        KeysAscend(bottoms, keys, i);
      }
      while bi.Some?
        invariant -1 <= i < |keys| && bi == LinkAt(keys, i)
        invariant bi.Some? ==> bi.value <= Key(h) && j == if bi.value == Key(h) then Slot(h) else BOTTOM_SZ - 1
        invariant forall q: nat :: q <= h && q in view && (bi.Some? ==> Key(q) > bi.value) ==> !IsHdr(view, q)
        decreases i
      {
        KeysAscend(bottoms, keys, i);
        var j' := PrevIn(bi.value, j, o);
        if j' >= 0 {
          PartsOfPage(bi.value, j');
          KeysGrow(Page(bi.value, j'));
          return Some(Page(bi.value, j'));
        }
        j := BOTTOM_SZ - 1;
        bi := bottoms[bi.value].desc;
        i := i - 1;
      }
      r := None;
    }

    /** The inner loop of GC_apply_to_all_blocks: appends the used blocks that start in bottom index k to done. */
    method ApplyIn(k: nat, done: seq<nat>, ghost o: Owner) returns (visited: seq<nat>)
      requires Valid() && Tiled(view, o) && k in bottoms
      requires NoDuplicates(done) && forall b :: b in done ==> Key(b) != k
      ensures NoDuplicates(visited)
      ensures forall b :: b in visited <==> b in done || (Key(b) == k && IsUsed(view, b))
    {
      hide Chained, Key, Slot, Page, Tiled;
      visited := done;
      var j: int := BOTTOM_SZ - 1;
      while j >= 0
        invariant j < BOTTOM_SZ && NoDuplicates(visited)
        invariant forall b :: b in visited <==> b in done || (Key(b) == k && Slot(b) > j && IsUsed(view, b))
        decreases j
      {
        ghost var p := Page(k, j);
        PartsOfPage(k, j);
        assert EntryAt(bottoms, p) == Lookup(view, p);
        OnlyAt(k, j);
        var e := bottoms[k].index[j];
        if e.Header? {
          if !e.hdr.free {
            visited := visited + [Page(k, j)];
          }
          j := j - 1;
        } else if e.Nil? {
          j := j - 1;
        } else {
          NoHeaderStepped(view, o, p);
          j := j - e.jump;
        }
      }
    }

    /** GC_apply_to_all_blocks, with the blocks that fn is called for in the order of the calls. */
    method ApplyToAllBlocks(ghost o: Owner) returns (visited: seq<nat>)
      requires Valid() && Tiled(view, o)
      ensures NoDuplicates(visited)
      ensures forall b :: b in visited <==> IsUsed(view, b)
    {
      hide Shows, Chained, Key, Slot, Page, Tiled;
      InBottoms(bottoms, view);
      visited := [];

      var bi := allBottoms;
      ghost var i := 0;
      FirstKey(bottoms, keys);
      while bi.Some?
        invariant i <= |keys| && bi == LinkAt(keys, i) && NoDuplicates(visited)
        invariant forall b :: b in visited <==> IsUsed(view, b) && (bi.Some? ==> Key(b) < bi.value)
        decreases |keys| - i
      {
        KeysAscend(bottoms, keys, i);
        visited := ApplyIn(bi.value, visited, o);
        bi := bottoms[bi.value].asc;
        i := i + 1;
      }
    }

    /** GC_base: the start of the object that holds address p. */
    method Base(p: nat, ghost o: Owner) returns (r: Option<nat>)
      requires Valid() && Tiled(view, o)
      ensures r.Some? ==> exists b: nat :: Holds(view, b, r.value, p)
      ensures r.None? ==> forall b: nat, r': nat :: !Holds(view, b, r', p)
    {
      hide Shows, Chained, Tiled, PageOf, WordDown, Displ, Holds, Remainder;
      var a: nat, h: nat := p, PageOf(p);
      var e := Get(h);
      if e.Nil? {
        NilHasNoUser(view, o, h);
        NoHolder(view, o, p);
        return None;
      }
      OwnerOf(view, o, h);
      while !e.Header?
        invariant h >= 0 && h in view && e == view[h] && !e.Nil?
        invariant PageOf(p) in o && h in o && o[h] == o[PageOf(p)]
        invariant a == (if h == PageOf(p) then p else h * HBLKSIZE)
        invariant h <= PageOf(p)
        decreases h
      {
        CountLeadsBack(view, o, h);
        h := h - e.jump;
        a := h * HBLKSIZE;
        e := Get(h);
      }
      OwnerOf(view, o, h);
      if e.hdr.free {
        NoHolder(view, o, p);
        return None;
      }
      a := WordDown(a);
      PageSpan(p, h);
      UsedSize(view, o, h);
      var sz := e.hdr.objSz;
      RemainderFits(a, sz);
      Candidate(view, o, h, p, a - Remainder(Displ(a), sz));
      a := a - Remainder(Displ(a), sz);
      var limit := a + sz;
      BaseIsRight(view, o, h, p, a);
      if (limit > (h + 1) * HBLKSIZE && sz <= HBLKSIZE) || p >= limit {
        return None;
      }
      r := Some(a);
    }
  }
}
