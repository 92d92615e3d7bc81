/** The map from object sizes in bytes to sizes in granules, which is filled on demand (malloc.c and misc.c). */
module SizeMapping {
  import opened Basics

  const GRANULE_BYTES := 16
  const HBLK_GRANULES := 256
  const MAXOBJBYTES := 2048
  const MAXOBJGRANULES := 128
  const TINY_FREELISTS := 25

  /** ROUNDED_UP_GRANULES, with the byte that is added to each object when interior pointers count. */
  function RoundedUpGranules(lb: nat, extra: nat): nat { (lb + GRANULE_BYTES - 1 + extra) / GRANULE_BYTES }

  /** The lowest granule count used for size lb: even, so that objects can be aligned to two granules. */
  function EvenUp(g: nat): nat { (g + 1) / 2 * 2 }

  /** The largest even object size of which as many fit in a heap block as of size g. */
  function AsManyPerBlock(g: nat): nat
    requires g > 0
  {
    var n := HBLK_GRANULES / g;
    if n == 0 then 0 else (HBLK_GRANULES / n) / 2 * 2
  }

  lemma RoundedUpMonotone(lb: nat, lb': nat, extra: nat)
    requires lb <= lb'
    ensures RoundedUpGranules(lb, extra) <= RoundedUpGranules(lb', extra)
  {
  }

  lemma EvenUpMonotone(g: nat, g': nat)
    requires g <= g'
    ensures EvenUp(g) <= EvenUp(g')
  {
  }

  lemma QuotientAtLeast(a: nat, d: nat, q: nat)
    requires d > 0 && q * d <= a
    ensures a / d >= q
  {
    Multiples(a / d, q, d);
  }

  lemma QuotientTimes(a: nat, d: nat)
    requires d > 0
    ensures (a / d) * d <= a
  {
  }

  /** Evening down a number that is at least g, for even g. */
  lemma EvenDown(q: nat, g: nat)
    requires g <= q && g % 2 == 0
    ensures g <= q / 2 * 2 <= q && (q / 2 * 2) % 2 == 0
  {
  }

  lemma TimesLess(q: nat, a: nat, b: nat)
    requires a <= b
    ensures q * a <= q * b
  {
  }

  /** The final rounding of GC_extend_size_map never makes objects smaller and never lowers their number per block. */
  lemma RoundingKeepsObjects(g: nat)
    requires 0 < g <= MAXOBJGRANULES && g % 2 == 0
    ensures g <= AsManyPerBlock(g) <= MAXOBJGRANULES && AsManyPerBlock(g) % 2 == 0
    ensures HBLK_GRANULES / AsManyPerBlock(g) == HBLK_GRANULES / g
  {
    var n := HBLK_GRANULES / g;
    QuotientTimes(HBLK_GRANULES, g);
    TimesLess(2, g, MAXOBJGRANULES);
    QuotientAtLeast(HBLK_GRANULES, g, 2);
    var q := HBLK_GRANULES / n;
    QuotientTimes(HBLK_GRANULES, n);
    TimesLess(q, 2, n);
    QuotientAtLeast(HBLK_GRANULES, n, g);
    EvenDown(q, g);
    var g' := AsManyPerBlock(g);
    assert g' == q / 2 * 2;
    TimesLess(n, g', q);
    QuotientAtLeast(HBLK_GRANULES, g', n);
    var n' := HBLK_GRANULES / g';
    QuotientTimes(HBLK_GRANULES, g');
    TimesLess(n', g, g');
    QuotientAtLeast(HBLK_GRANULES, g, n');
  }

  /** And it makes them as large as it can: with any larger even size fewer of them fit in a block. */
  lemma RoundingIsLargest(g: nat, h: nat)
    requires 0 < g <= MAXOBJGRANULES && g % 2 == 0 && h > AsManyPerBlock(g) && h % 2 == 0
    ensures HBLK_GRANULES / h < HBLK_GRANULES / g
  {
    var n, k := HBLK_GRANULES / g, HBLK_GRANULES / h;
    QuotientTimes(HBLK_GRANULES, g);
    TimesLess(2, g, MAXOBJGRANULES);
    QuotientAtLeast(HBLK_GRANULES, g, 2);
    if k >= n {
      QuotientTimes(HBLK_GRANULES, h);
      TimesLess(h, n, k);
      QuotientAtLeast(HBLK_GRANULES, n, h);
    }
  }

  lemma RoundingIsLargestOfAll(g: nat)
    requires 0 < g <= MAXOBJGRANULES && g % 2 == 0
    ensures forall h: nat :: h > AsManyPerBlock(g) && h % 2 == 0 ==> HBLK_GRANULES / h < HBLK_GRANULES / g
  {
    forall h: nat | h > AsManyPerBlock(g) && h % 2 == 0
      ensures HBLK_GRANULES / h < HBLK_GRANULES / g
    {
      RoundingIsLargest(g, h);
    }
  }

  /** Entry j of the size map: objects of size j fit, with the extra byte, in the number of granules given. */
  predicate Covers(j: nat, g: nat, extra: nat) { j + extra <= g * GRANULE_BYTES && g <= MAXOBJGRANULES }

  /** 0 stands for an entry that has not been filled. The filled entries cover their sizes and do not decrease; and
      every size that would fit in what a smaller size is given has been filled too. */
  ghost predicate Sound(m: seq<nat>, extra: nat) {
    && |m| == MAXOBJBYTES + 1
    && (forall j :: 0 <= j < |m| && m[j] != 0 ==> Covers(j, m[j], extra))
    && (forall j, k :: 0 <= j < k < |m| && m[j] != 0 && m[k] != 0 ==> m[j] <= m[k])
    && (forall j, k :: 0 <= j < k < |m| && m[j] != 0 && k + extra <= m[j] * GRANULE_BYTES ==> m[k] != 0)
  }

  /** m with entries low and up, as far as g granules reach, set to g. */
  function Filled(m: seq<nat>, low: nat, g: nat, extra: nat): seq<nat> {
    seq(|m|, j requires 0 <= j < |m| => if low <= j && j + extra <= g * GRANULE_BYTES then g else m[j])
  }

  /** Filling from an unfilled entry on keeps the map sound, even where it overwrites filled entries. */
  lemma FillingIsSound(m: seq<nat>, low: nat, g: nat, extra: nat)
    requires Sound(m, extra) && low < |m| && m[low] == 0 && low + extra <= g * GRANULE_BYTES && 0 < g <= MAXOBJGRANULES
    ensures Sound(Filled(m, low, g, extra), extra)
    ensures forall j :: 0 <= j < |m| && m[j] != 0 ==> Filled(m, low, g, extra)[j] != 0
  {
  }

  lemma FilledAt(m: seq<nat>, low: nat, g: nat, extra: nat, i: nat)
    requires low <= i < |m| && g >= RoundedUpGranules(i, extra)
    ensures Filled(m, low, g, extra)[i] == g && low + extra <= g * GRANULE_BYTES
  {
  }

  class SizeMap {
    const extra: nat           // EXTRA_BYTES
    const sizeMap: array<nat>  // GC_size_map

    ghost predicate Valid()
      reads sizeMap
    {
      && extra <= 1 && sizeMap.Length == MAXOBJBYTES + 1 && Sound(sizeMap[..], extra)
      && forall j :: 0 <= j <= (TINY_FREELISTS - 1) * GRANULE_BYTES - extra ==> sizeMap[j] != 0
    }

    /** GC_init_size_map. */
    constructor (interiorPointers: bool)
      ensures Valid() && fresh(sizeMap) && extra == if interiorPointers then 1 else 0
      ensures forall j :: 0 < j <= (TINY_FREELISTS - 1) * GRANULE_BYTES - extra ==>
                sizeMap[j] == RoundedUpGranules(j, extra)
    {
      extra := if interiorPointers then 1 else 0;
      sizeMap := new nat[MAXOBJBYTES + 1](_ => 0);
      new;
      sizeMap[0] := 1;
      var i := 1;
      while i <= (TINY_FREELISTS - 1) * GRANULE_BYTES - extra
        invariant 1 <= i <= (TINY_FREELISTS - 1) * GRANULE_BYTES - extra + 1
        invariant sizeMap[0] == 1 && forall j :: 0 < j < i ==> sizeMap[j] == RoundedUpGranules(j, extra)
        invariant forall j :: i <= j <= MAXOBJBYTES ==> sizeMap[j] == 0
      {
        sizeMap[i] := RoundedUpGranules(i, extra);
        i := i + 1;
      }
    }

    /** GC_extend_size_map: fills entries around i with g granules, from the unfilled entry low on. The last rounding
        goes from asked to g granules and leaves the number of objects per block as it is. */
    method Extend(i: nat) returns (ghost low: nat, ghost g: nat, ghost asked: nat)
      requires Valid() && i + extra <= MAXOBJBYTES && sizeMap[i] == 0
      modifies sizeMap
      ensures Valid() && sizeMap[i] == g
      ensures low <= i && old(sizeMap[low]) == 0 && g >= asked >= RoundedUpGranules(i, extra) && asked > 0
      ensures asked <= EvenUp(RoundedUpGranules(i, extra) + RoundedUpGranules(i, extra) / 8)
      ensures RoundedUpGranules(i, extra) * GRANULE_BYTES * 3 / 4 <= low
      ensures var b := RoundedUpGranules(i, extra) * GRANULE_BYTES;
              b - b / 8 <= i && (old(sizeMap[..])[b - b / 8] == 0 ==> asked <= EvenUp(RoundedUpGranules(i, extra)))
      ensures g % 2 == 0 && HBLK_GRANULES / g == HBLK_GRANULES / asked
      ensures forall h: nat :: h > g && h % 2 == 0 ==> HBLK_GRANULES / h < HBLK_GRANULES / asked
      ensures sizeMap[..] == Filled(old(sizeMap[..]), low, g, extra)
      ensures forall j :: 0 <= j <= MAXOBJBYTES && old(sizeMap[j]) != 0 ==> sizeMap[j] != 0
    {
      hide Sound, AsManyPerBlock, Filled;
      NotTiny(i);
      var lowLimit, granules := Choose(i);
      RoundingKeepsObjects(granules);
      RoundingIsLargestOfAll(granules);
      asked := granules;
      granules := AsManyPerBlock(granules);
      low, g := lowLimit, granules;
      ghost var was := sizeMap[..];
      FilledAt(was, low, g, extra, i);
      FillingIsSound(was, low, g, extra);
      Fill(lowLimit, granules);
      assert forall j :: 0 <= j <= MAXOBJBYTES ==> sizeMap[j] == sizeMap[..][j] && was[j] == old(sizeMap[j]);
    }

    lemma NotTiny(i: nat)
      requires Valid() && i < sizeMap.Length && sizeMap[i] == 0
      ensures i + extra > (TINY_FREELISTS - 1) * GRANULE_BYTES
    {
    }

    /** Where the search for the first entry to fill may start. */
    lemma Searchable(i: nat)
      requires extra <= 1 && i + extra <= MAXOBJBYTES && i + extra > (TINY_FREELISTS - 1) * GRANULE_BYTES
      ensures var g := RoundedUpGranules(i, extra);
              var b := g * GRANULE_BYTES;
              0 < g <= MAXOBJGRANULES && b - b / 4 <= b - b / 8 <= i
    {
    }

    lemma RoundedEven(g: nat, least: nat)
      requires least <= g && 0 < least <= MAXOBJGRANULES
      ensures EvenUp(g) >= least && EvenUp(g) % 2 == 0
    {
    }

    /** The first entry to fill, and the granules to fill with before the last rounding. */
    method Choose(i: nat) returns (lowLimit: nat, granules: nat)
      requires sizeMap.Length == MAXOBJBYTES + 1 && extra <= 1 && i + extra <= MAXOBJBYTES && sizeMap[i] == 0
      requires i + extra > (TINY_FREELISTS - 1) * GRANULE_BYTES
      ensures lowLimit <= i && sizeMap[lowLimit] == 0
      ensures RoundedUpGranules(i, extra) <= granules <= MAXOBJGRANULES && granules % 2 == 0 && granules > 0
      ensures granules <= EvenUp(RoundedUpGranules(i, extra) + RoundedUpGranules(i, extra) / 8)
      ensures RoundedUpGranules(i, extra) * GRANULE_BYTES * 3 / 4 <= lowLimit
      ensures var b := RoundedUpGranules(i, extra) * GRANULE_BYTES;
              b - b / 8 <= i && (sizeMap[b - b / 8] == 0 ==> granules <= EvenUp(RoundedUpGranules(i, extra)))
    {
      hide RoundedUpGranules, EvenUp;
      Searchable(i);
      var origGranules := RoundedUpGranules(i, extra);
      var byteSz := origGranules * GRANULE_BYTES;
      var smallerThanI := byteSz - byteSz / 8;
      if sizeMap[smallerThanI] == 0 {
        lowLimit := FirstUnfilled(byteSz - byteSz / 4, i);
        granules := origGranules;
      } else {
        lowLimit := FirstUnfilled(smallerThanI + 1, i);
        RoundedUpMonotone(lowLimit, i, extra);
        granules := RoundedUpGranules(lowLimit, extra);
        granules := granules + granules / 8;
        if granules < origGranules {
          granules := origGranules;
        }
      }
      RoundedEven(granules, origGranules);
      EvenUpMonotone(granules, origGranules + origGranules / 8);
      granules := EvenUp(granules);
      if granules > MAXOBJGRANULES {
        granules := MAXOBJGRANULES;
      }
    }

    method FirstUnfilled(from: nat, i: nat) returns (low: nat)
      requires sizeMap.Length == MAXOBJBYTES + 1 && from <= i <= MAXOBJBYTES && sizeMap[i] == 0
      ensures from <= low <= i && sizeMap[low] == 0
    {
      low := from;
      while sizeMap[low] != 0
        invariant from <= low <= i
        decreases i - low
      {
        low := low + 1;
      }
    }

    method Fill(low: nat, g: nat)
      requires sizeMap.Length == MAXOBJBYTES + 1 && g <= MAXOBJGRANULES && extra <= g * GRANULE_BYTES
      modifies sizeMap
      ensures sizeMap[..] == Filled(old(sizeMap[..]), low, g, extra)
    {
      var byteSz := g * GRANULE_BYTES - extra;
      var j := low;
      while j <= byteSz
        invariant low <= j && (j <= byteSz + 1 || j == low)
        invariant forall k :: 0 <= k <= MAXOBJBYTES ==> sizeMap[k] == if low <= k < j then g else old(sizeMap[k])
      {
        sizeMap[j] := g;
        j := j + 1;
      }
    }
  }
}
