/** The heap as the marker sees it: blocks of equally sized objects in address order, the words
    found at candidate pointer positions, and the test that turns a word into an object base. */
module MarkHeap {

  /** Addresses and sizes count steps of ALIGNMENT bytes, so that every address is a possible pointer position.
      A word of 8 bytes is one step on most 64-bit targets and two where pointers may be 4-byte aligned;
      everything below holds for both. */
  type StepsPerWord = w: int | w == 1 || w == 2 witness 1
  const WORD: StepsPerWord

  const HBLKSIZE := 512 * WORD      // 4096 bytes
  const GRANULE_BYTES := 2 * WORD   // 16 bytes
  const MAXOBJBYTES := 256 * WORD   // half a block
  const SPLIT_RANGE_WORDS := 128
  const INITIAL_MARK_STACK_SIZE := 4096
  const GC_MARK_STACK_DISCARDS := INITIAL_MARK_STACK_SIZE / 8

  /** As many static root ranges always fit on the mark stack when they are pushed. */
  const ROOT_ROOM := INITIAL_MARK_STACK_SIZE / 2 - 256

  /** The start of the page that holds address a. */
  function Page(a: int): int {
    if WORD == 1 then a / 512 * 512 else a / 1024 * 1024
  }

  /** Base address of an object. */
  type Obj = int

  /** A mark stack entry: a range of memory still to be scanned. */
  datatype Mse = Mse(start: int, descr: int)

  datatype Block = Block(start: int, sz: int, descr: int, uncollectable: bool) {
    function Bytes(): int { Page(sz + HBLKSIZE - 1) }
    function End(): int { start + Bytes() }
    /** Last address at which an object of this block may begin. */
    function Limit(): int { if sz > MAXOBJBYTES then start else start + HBLKSIZE - sz }
    predicate WF() {
      && start > 0 && Page(start) == start
      && sz >= GRANULE_BYTES
      && 0 <= descr <= sz
    }
  }

  function ObjsFrom(p: int, sz: int, lim: int): seq<Obj>
    requires sz > 0
    decreases lim - p
  {
    if p > lim then [] else [p] + ObjsFrom(p + sz, sz, lim)
  }

  function Objs(b: Block): seq<Obj>
    requires b.sz > 0
  {
    ObjsFrom(b.start, b.sz, b.Limit())
  }

  datatype Heap = Heap(
    blocks: seq<Block>,        // allocated blocks in address order
    objs: map<Obj, Block>,     // header lookup for object bases
    mem: map<int, int>,        // word found at a position
    resolve: map<int, Obj>,    // words that are valid pointers, and the object each refers to
    roots: seq<Mse>,           // static data: pushed as ranges
    stackRoots: seq<Mse>,      // registers and the hot end of a stack: scanned eagerly
    least: int, greatest: int) // plausible heap bounds

  function Load(h: Heap, a: int): int {
    if a in h.mem then h.mem[a] else 0
  }

  /** The range e has a candidate pointer at position a. */
  predicate Covers(e: Mse, a: int) {
    e.start <= a && a + WORD <= e.start + e.descr
  }

  ghost predicate CoveredBy(es: seq<Mse>, a: int) {
    exists i :: 0 <= i < |es| && Covers(es[i], a)
  }

  /** Position a lies in the scanned part of object o. */
  predicate Slot(h: Heap, o: Obj, a: int) {
    o in h.objs && Covers(Mse(o, h.objs[o].descr), a)
  }

  ghost predicate RootSlot(h: Heap, a: int) {
    CoveredBy(h.roots, a) || CoveredBy(h.stackRoots, a)
  }

  predicate HasTarget(h: Heap, a: int) {
    Load(h, a) in h.resolve
  }

  function Target(h: Heap, a: int): Obj
    requires HasTarget(h, a)
  {
    h.resolve[Load(h, a)]
  }

  /** The word at a refers to an object that is not marked. */
  predicate Open(h: Heap, marks: set<Obj>, a: int) {
    HasTarget(h, a) && Target(h, a) !in marks
  }

  predicate Plausible(h: Heap, w: int) {
    h.least <= w < h.greatest
  }

  ghost predicate BlocksWF(bs: seq<Block>) {
    && (forall i :: 0 <= i < |bs| ==> bs[i].WF())
    && (forall i, j :: 0 <= i < j < |bs| ==> bs[i].End() <= bs[j].start)
  }

  ghost predicate HeapWF(h: Heap) {
    && BlocksWF(h.blocks)
    && (forall o :: o in h.objs ==> h.objs[o] in h.blocks && o in Objs(h.objs[o]))
    && (forall i, o :: 0 <= i < |h.blocks| && o in Objs(h.blocks[i]) ==> o in h.objs && h.objs[o] == h.blocks[i])
    && (forall w :: w in h.resolve ==> h.resolve[w] in h.objs && Plausible(h, w))
    && (forall i :: 0 <= i < |h.roots| ==> h.roots[i].descr > 0)
  }

  // ---- Reachability

  ghost predicate PointsTo(h: Heap, o: Obj, t: Obj) {
    exists a :: Slot(h, o, a) && HasTarget(h, a) && Target(h, a) == t
  }

  ghost predicate RootTarget(h: Heap, t: Obj) {
    exists a :: RootSlot(h, a) && HasTarget(h, a) && Target(h, a) == t
  }

  /** path leads from a root target or a member of base to o along pointers. */
  ghost predicate PathTo(h: Heap, base: set<Obj>, path: seq<Obj>, o: Obj) {
    && path != []
    && (path[0] in base || RootTarget(h, path[0]))
    && path[|path| - 1] == o
    && forall i :: 0 <= i < |path| - 1 ==> PointsTo(h, path[i], path[i + 1])
  }

  ghost predicate Reachable(h: Heap, base: set<Obj>, o: Obj) {
    exists path :: PathTo(h, base, path, o)
  }

  /** Every pointer in an object of c stays within c. */
  ghost predicate Closed(h: Heap, c: set<Obj>) {
    forall o, a :: o in c && Slot(h, o, a) && HasTarget(h, a) ==> Target(h, a) in c
  }

  ghost predicate RootsIn(h: Heap, c: set<Obj>) {
    forall a :: RootSlot(h, a) && HasTarget(h, a) ==> Target(h, a) in c
  }

  lemma {:induction false} PathStaysInClosed(h: Heap, base: set<Obj>, c: set<Obj>, path: seq<Obj>, o: Obj)
    requires Closed(h, c) && RootsIn(h, c) && base <= c
    requires PathTo(h, base, path, o)
    ensures o in c
    decreases |path|
  {
    if |path| > 1 {
      var n := |path|;
      var front := path[..n - 1];
      assert PathTo(h, base, front, path[n - 2]) by {
        forall i | 0 <= i < |front| - 1 ensures PointsTo(h, front[i], front[i + 1]) {
          assert PointsTo(h, path[i], path[i + 1]);
        }
      }
      PathStaysInClosed(h, base, c, front, path[n - 2]);
      assert PointsTo(h, path[n - 2], path[n - 2 + 1]);
    }
  }

  /** A closed set holding the base and the root targets holds everything reachable. */
  lemma ReachableInClosed(h: Heap, base: set<Obj>, c: set<Obj>)
    requires Closed(h, c) && RootsIn(h, c) && base <= c
    ensures forall o :: Reachable(h, base, o) ==> o in c
  {
    forall o | Reachable(h, base, o) ensures o in c {
      var path :| PathTo(h, base, path, o);
      PathStaysInClosed(h, base, c, path, o);
    }
  }

  ghost function ReachableSet(h: Heap, base: set<Obj>): (r: set<Obj>)
    ensures forall o :: o in r <==> o in h.objs && Reachable(h, base, o)
  {
    set o | o in h.objs && Reachable(h, base, o)
  }

  /** The reachable objects themselves form such a set, so they are the least one. */
  lemma ReachableSetClosed(h: Heap, base: set<Obj>)
    requires HeapWF(h) && base <= h.objs.Keys
    ensures Closed(h, ReachableSet(h, base)) && RootsIn(h, ReachableSet(h, base)) && base <= ReachableSet(h, base)
    ensures ReachableSet(h, base) <= h.objs.Keys
  {
    var r := ReachableSet(h, base);
    forall o, a | o in r && Slot(h, o, a) && HasTarget(h, a) ensures Target(h, a) in r {
      var path :| PathTo(h, base, path, o);
      var longer := path + [Target(h, a)];
      assert PointsTo(h, o, Target(h, a));
      assert PathTo(h, base, longer, Target(h, a)) by {
        forall i | 0 <= i < |longer| - 1 ensures PointsTo(h, longer[i], longer[i + 1]) {
          if i < |path| - 1 {
            assert PointsTo(h, path[i], path[i + 1]);
          }
        }
      }
    }
    forall a | RootSlot(h, a) && HasTarget(h, a) ensures Target(h, a) in r {
      assert RootTarget(h, Target(h, a));
      assert PathTo(h, base, [Target(h, a)], Target(h, a));
    }
    forall o | o in base ensures o in r {
      assert PathTo(h, base, [o], o);
    }
  }

  // ---- Blocks and their objects

  /** Index of the first block that starts at or above p; |bs| when there is none. */
  function NextBlock(bs: seq<Block>, p: int): (i: int)
    ensures 0 <= i <= |bs|
    ensures forall j :: 0 <= j < i ==> bs[j].start < p
    ensures i < |bs| ==> bs[i].start >= p
  {
    if |bs| == 0 || bs[0].start >= p then 0 else
      var r := NextBlock(bs[1..], p);
      assert forall j :: 0 < j < r + 1 ==> bs[j] == bs[1..][j - 1];
      r + 1
  }

  /** A block never holds more objects than the room that every scanning state leaves on the mark stack. */
  lemma {:induction false} ObjsFromFit(p: int, sz: int, lim: int)
    requires sz >= GRANULE_BYTES
    ensures |ObjsFrom(p, sz, lim)| * 2 * WORD <= if p > lim then 0 else lim - p + GRANULE_BYTES
    decreases lim - p
  {
    if p <= lim {
      ObjsFromFit(p + sz, sz, lim);
      if WORD == 1 {} else {}
    }
  }

  lemma BlockObjsFit(b: Block)
    requires b.WF()
    ensures |Objs(b)| <= 256
  {
    ObjsFromFit(b.start, b.sz, b.Limit());
    if WORD == 1 {} else {}
  }

  // ---- Ranges

  /** Splitting a long range after SPLIT_RANGE_WORDS - 1 words puts every candidate position on exactly one side;
      the window ends WORD - 1 steps late so that words straddling the cut are kept. */
  lemma SplitCoversOnce(e: Mse, a: int)
    requires e.descr >= SPLIT_RANGE_WORDS * WORD
    ensures var cut := (SPLIT_RANGE_WORDS - 1) * WORD;
            var window := Mse(e.start, cut + WORD - 1);
            var rest := Mse(e.start + cut, e.descr - cut);
            && (Covers(e, a) <==> Covers(window, a) || Covers(rest, a))
            && !(Covers(window, a) && Covers(rest, a))
            && window.descr > 0 && rest.descr > 0
  {
  }

  /** Size of the first half when a long range is halved for sharing between markers: whole words. */
  function HalfSize(descr: int): int {
    if WORD == 1 then descr / 2 else descr / 4 * 2
  }

  /** Halving a range for sharing examines every candidate position at least once, and only
      the one at the cut twice. */
  lemma HalvesCover(e: Mse, a: int)
    requires e.descr >= 2 * WORD
    ensures var n := HalfSize(e.descr);
            var first, second := Mse(e.start, n + WORD), Mse(e.start + n, e.descr - n);
            && (Covers(e, a) <==> Covers(first, a) || Covers(second, a))
            && (Covers(first, a) && Covers(second, a) <==> a == e.start + n)
            && 0 < second.descr < e.descr && 0 < first.descr <= e.descr
  {
  }
}
