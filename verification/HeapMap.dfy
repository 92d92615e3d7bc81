/** Headers of heap blocks, and what it means for the map from pages to headers to agree with a plain interval map.
    Block addresses are page numbers (multiples of HBLKSIZE). */
module HeapMap {

  const HBLKSIZE := 4096
  const GRANULE_BYTES := 16
  const MAX_JUMP := HBLKSIZE - 1

  /** hb_sz holds the size in bytes of a free block, and the object size of a used one; here blocks is the size of
      the block in pages in both cases and objSz the object size of a used block. */
  datatype Hdr = Hdr(blocks: nat, objSz: nat, free: bool, unmapped: bool, next: nat, prev: nat)

  /** What the index holds for a page. */
  datatype Entry = Nil | Count(jump: nat) | Header(hdr: Hdr)

  /** The entries that are not nil. */
  type Index = map<nat, Entry>

  /** The plain interval map: page -> first page of the block it belongs to. */
  type Owner = map<nat, nat>

  function Lookup(x: Index, p: nat): Entry { if p in x then x[p] else Nil }

  predicate NoNils(x: Index) { forall p: nat :: p in x ==> !x[p].Nil? }

  function ObjSzToBlocks(sz: nat): nat { (sz + HBLKSIZE - 1) / HBLKSIZE }

  predicate IsHdr(x: Index, p: nat) { p in x && x[p].Header? }

  predicate IsFree(x: Index, p: nat) { IsHdr(x, p) && x[p].hdr.free }

  predicate IsUsed(x: Index, p: nat) { IsHdr(x, p) && !x[p].hdr.free }

  function H(x: Index, p: nat): Hdr
    requires IsHdr(x, p)
  {
    x[p].hdr
  }

  function End(x: Index, p: nat): nat
    requires IsHdr(x, p)
  {
    p + x[p].hdr.blocks
  }

  /** The forwarding count of page p of a block that starts at h. */
  function CountFor(h: nat, p: nat): Entry
    requires h <= p
  {
    Count(if p - h > MAX_JUMP then MAX_JUMP else p - h)
  }

  /** The entries that GC_install_counts writes for a block of n pages at h. */
  function Counts(h: nat, n: nat): Index { map p: nat | h < p < h + n :: CountFor(h, p) }

  predicate HdrOk(h: Hdr) {
    h.blocks > 0 && (!h.free ==> h.objSz > 0 && h.blocks == ObjSzToBlocks(h.objSz) && h.objSz % GRANULE_BYTES == 0)
  }

  /** Page p of block b: the first page has the header; the others hold forwarding counts when the block is used and
      nothing when it is free. */
  predicate PageOk(x: Index, p: nat, b: nat)
    requires IsHdr(x, b)
  {
    p == b || (p > b && if H(x, b).free then p !in x else p in x && x[p] == CountFor(b, p))
  }

  /** The interval map and the header agree on the block that page p belongs to. */
  predicate PageOwned(x: Index, o: Owner, p: nat)
    requires p in o
  {
    p > 0 && IsHdr(x, o[p]) && o[p] <= p < End(x, o[p]) && PageOk(x, p, o[p])
  }

  /** The block at b owns all its pages. */
  predicate BlockOwns(x: Index, o: Owner, b: nat)
    requires IsHdr(x, b)
  {
    HdrOk(H(x, b)) && forall p: nat :: b <= p < End(x, b) ==> p in o && o[p] == b
  }

  /** The heap is tiled by blocks, and index and interval map agree on them. */
  ghost predicate Tiled(x: Index, o: Owner) {
    && (forall p: nat :: p in x ==> p in o)
    && (forall p: nat {:trigger PageOwned(x, o, p)} :: p in o ==> PageOwned(x, o, p))
    && (forall b: nat {:trigger BlockOwns(x, o, b)} :: IsHdr(x, b) ==> BlockOwns(x, o, b))
  }

  lemma NoHeaderInside(x: Index, o: Owner, b: nat, p: nat)
    requires Tiled(x, o) && IsHdr(x, b) && b < p < End(x, b)
    ensures !IsHdr(x, p) && p in o && o[p] == b
  {
    assert BlockOwns(x, o, b);
    assert IsHdr(x, p) ==> BlockOwns(x, o, p);
  }

  /** A forwarding count leads towards the start of its own block and never past a header. */
  lemma CountLeadsBack(x: Index, o: Owner, p: nat)
    requires Tiled(x, o) && p in x && x[p].Count?
    ensures p in o && IsUsed(x, o[p]) && 1 <= x[p].jump <= p - o[p]
    ensures forall q: nat :: p - x[p].jump < q <= p ==> !IsHdr(x, q)
    ensures p - x[p].jump in x && p - x[p].jump in o && o[p - x[p].jump] == o[p]
  {
    assert PageOwned(x, o, p);
    var b := o[p];
    forall q: nat | p - x[p].jump < q <= p
      ensures !IsHdr(x, q)
    {
      NoHeaderInside(x, o, b, q);
    }
    assert BlockOwns(x, o, b);
    assert PageOwned(x, o, p - x[p].jump);
  }

  /** The used blocks and their headers: all that callers of the allocator know of the heap. */
  ghost function UsedBlocks(x: Index): map<nat, Hdr> { map b: nat | b in x && IsUsed(x, b) :: x[b].hdr }

  lemma SameUsed(x: Index, y: Index)
    requires forall b: nat :: IsUsed(x, b) ==> b in y && y[b] == x[b]
    requires forall b: nat :: IsUsed(y, b) ==> IsUsed(x, b)
    ensures UsedBlocks(x) == UsedBlocks(y)
  {
  }
}
