/** The sorted table of address ranges that are not to be scanned for roots (mark_rts.c). */
module Exclusions {
  import opened Basics

  const MAX_EXCLUSIONS := 512

  /** Addresses from start up to but not including finish. */
  datatype Range = Range(start: nat, finish: nat)

  predicate In(a: nat, r: Range) { r.start <= a < r.finish }

  ghost predicate InSome(a: nat, rs: seq<Range>) { exists i :: 0 <= i < |rs| && In(a, rs[i]) }

  /** The ranges are not empty, disjoint and in ascending order. */
  ghost predicate Sorted(rs: seq<Range>) {
    && (forall i :: 0 <= i < |rs| ==> rs[i].start < rs[i].finish)
    && (forall i, j :: 0 <= i < j < |rs| ==> rs[i].finish <= rs[j].start)
  }

  /** In ascending order, and with a gap between any two. */
  ghost predicate Separated(rs: seq<Range>) {
    && (forall i :: 0 <= i < |rs| ==> rs[i].start < rs[i].finish)
    && (forall i, j :: 0 <= i < j < |rs| ==> rs[i].finish < rs[j].start)
  }

  function Inserted(rs: seq<Range>, k: nat, r: Range): seq<Range>
    requires k <= |rs|
  {
    rs[..k] + [r] + rs[k..]
  }

  lemma InsertedSorted(rs: seq<Range>, k: nat, r: Range)
    requires Sorted(rs) && k <= |rs| && r.start < r.finish
    requires (forall i :: 0 <= i < k ==> rs[i].finish <= r.start) && (k < |rs| ==> r.finish <= rs[k].start)
    ensures Sorted(Inserted(rs, k, r))
    ensures forall a: nat :: InSome(a, Inserted(rs, k, r)) <==> InSome(a, rs) || In(a, r)
  {
    var t := Inserted(rs, k, r);
    forall i, j | 0 <= i < j < |t|
      ensures t[i].finish <= t[j].start
    {
      assert k < |rs| && j > k + 1 ==> rs[k].finish <= rs[j - 1].start;
    }
    forall a: nat
      ensures InSome(a, t) <==> InSome(a, rs) || In(a, r)
    {
      if In(a, r) {
        assert In(a, t[k]);
      }
      if InSome(a, rs) {
        var i :| 0 <= i < |rs| && In(a, rs[i]);
        assert In(a, t[if i < k then i else i + 1]);
      }
    }
  }

  lemma ExtendedSorted(rs: seq<Range>, k: nat, start: nat)
    requires Sorted(rs) && k < |rs| && start < rs[k].start && forall i :: 0 <= i < k ==> rs[i].finish <= start
    ensures Sorted(rs[k := rs[k].(start := start)])
    ensures forall a: nat :: InSome(a, rs[k := rs[k].(start := start)]) <==> InSome(a, rs) || start <= a < rs[k].start
  {
    var t := rs[k := rs[k].(start := start)];
    forall a: nat
      ensures InSome(a, t) <==> InSome(a, rs) || start <= a < rs[k].start
    {
      if start <= a < rs[k].start {
        assert In(a, t[k]);
      }
      if InSome(a, rs) {
        var i :| 0 <= i < |rs| && In(a, rs[i]);
        assert In(a, t[i]);
      }
    }
  }

  /** What GC_exclude_static_roots_inner comes to; the last two are its calls of ABORT. */
  datatype Outcome = Excluded | Overlap | TooMany

  class ExclusionTable {
    const table: array<Range>  // GC_excl_table
    var entries: nat           // GC_excl_table_entries

    ghost predicate Valid()
      reads this, table
    {
      table.Length == MAX_EXCLUSIONS && entries <= MAX_EXCLUSIONS && Sorted(table[..entries])
    }

    constructor ()
      ensures Valid() && entries == 0 && fresh(table)
    {
      table := new Range[MAX_EXCLUSIONS](_ => Range(0, 0));
      entries := 0;
    }

    /** GC_next_exclusion: the first exclusion that ends above address a. */
    method NextExclusion(a: nat) returns (r: Option<nat>)
      requires Valid() && entries > 0
      ensures r.Some? ==> r.value < entries && table[r.value].finish > a
      ensures r.Some? ==> forall i :: 0 <= i < r.value ==> table[i].finish <= a
      ensures r.None? ==> forall i :: 0 <= i < entries ==> table[i].finish <= a
    {
      var low, high := 0, entries - 1;
      ghost var rs := table[..entries];
      while high > low
        invariant 0 <= low <= high < entries
        invariant forall i :: 0 <= i < low ==> rs[i].finish <= a
        invariant high < entries - 1 ==> rs[high].finish > a
      {
        var mid := (low + high) / 2;
        if table[mid].finish <= a {
          assert forall i :: 0 <= i < mid ==> rs[i].finish <= rs[mid].start < rs[mid].finish;
          low := mid + 1;
        } else {
          high := mid;
        }
      }
      if table[low].finish <= a {
        return None;
      }
      r := Some(low);
    }

    /** GC_exclude_static_roots_inner. The new range is refused exactly when it overlaps one that is there; otherwise it
        is merged with the range it ends at, or gets an entry of its own. */
    method Exclude(start: nat, finish: nat) returns (outcome: Outcome)
      requires Valid() && start < finish
      modifies this, table
      ensures Valid()
      ensures outcome.Overlap? <==> exists a: nat :: start <= a < finish && InSome(a, old(table[..entries]))
      ensures outcome.Excluded? ==> forall a: nat ::
                InSome(a, table[..entries]) <==> InSome(a, old(table[..entries])) || start <= a < finish
      ensures outcome.TooMany? ==> old(entries) == MAX_EXCLUSIONS
      ensures !outcome.Excluded? ==> entries == old(entries) && table[..] == old(table[..])
    {
      ghost var rs := table[..entries];
      var next := None;
      if entries > 0 {
        next := NextExclusion(start);
      }
      var k := if next.Some? then next.value else entries;
      assert forall i :: 0 <= i < k ==> rs[i].finish <= start;
      if next.Some? {
        if table[k].start < finish {
          Overlapping(rs, k, start, finish);
          return Overlap;
        }
        NotOverlapping(rs, k, start, finish);
        if table[k].start == finish {
          ExtendedSorted(rs, k, start);
          table[k] := table[k].(start := start);
          assert table[..entries] == rs[k := rs[k].(start := start)];
          return Excluded;
        }
      } else {
        NotOverlapping(rs, k, start, finish);
      }
      if entries == MAX_EXCLUSIONS {
        return TooMany;
      }
      InsertedSorted(rs, k, Range(start, finish));
      Shift(k);
      table[k] := Range(start, finish);
      entries := entries + 1;
      assert table[..entries] == Inserted(rs, k, Range(start, finish));
      outcome := Excluded;
    }

    lemma Overlapping(rs: seq<Range>, k: nat, start: nat, finish: nat)
      requires Sorted(rs) && k < |rs| && rs[k].finish > start && rs[k].start < finish && start < finish
      ensures exists a: nat :: start <= a < finish && InSome(a, rs)
    {
      var a := if rs[k].start < start then start else rs[k].start;
      assert In(a, rs[k]);
      assert InSome(a, rs);
    }

    lemma NotOverlapping(rs: seq<Range>, k: nat, start: nat, finish: nat)
      requires Sorted(rs) && k <= |rs| && (forall i :: 0 <= i < k ==> rs[i].finish <= start)
      requires k < |rs| ==> rs[k].start >= finish
      ensures forall a: nat :: start <= a < finish ==> !InSome(a, rs)
    {
    }

    /** Moves the entries from k on up by one place. */
    method Shift(k: nat)
      requires table.Length == MAX_EXCLUSIONS && k <= entries < MAX_EXCLUSIONS
      modifies table
      ensures forall i :: 0 <= i < k ==> table[i] == old(table[i])
      ensures forall i :: k < i <= entries ==> table[i] == old(table[i - 1])
    {
      var i := entries;
      while i > k
        invariant k <= i <= entries
        invariant forall j :: 0 <= j < i ==> table[j] == old(table[j])
        invariant forall j {:trigger table[j]} :: i < j <= entries ==> table[j] == old(table[j - 1])
      {
        table[i] := table[i - 1];
        i := i - 1;
      }
    }

    /** GC_push_conditional_with_exclusions, with the ranges it pushes in the order of the calls: what is not excluded
        of [bottom, top), as non-empty pieces from the bottom up. */
    method PushWithExclusions(bottom: nat, top: nat) returns (pushed: seq<Range>)
      requires Valid() && entries > 0
      ensures Separated(pushed)
      ensures forall a: nat :: InSome(a, pushed) <==> bottom <= a < top && !InSome(a, table[..entries])
    {
      ghost var rs := table[..entries];
      pushed := [];
      var b := bottom;
      while b < top
        invariant b >= bottom && Separated(pushed)
        invariant forall i :: 0 <= i < |pushed| ==> pushed[i].finish < b
        invariant forall a: nat :: InSome(a, pushed) <==> bottom <= a < b && a < top && !InSome(a, rs)
        decreases top - b
      {
        var next := NextExclusion(b);
        var excl := if next.Some? then table[next.value] else Range(top, top);
        var k := if next.Some? then next.value else entries;
        assert forall i :: 0 <= i < k ==> rs[i].finish <= b;
        if excl.start >= top {
          ClearUpTo(rs, k, b, top);
          PieceAdded(pushed, Range(b, top), rs, bottom, top);
          pushed := pushed + [Range(b, top)];
          break;
        }
        ClearUpTo(rs, k, b, excl.start);
        if excl.start > b {
          PieceAdded(pushed, Range(b, excl.start), rs, bottom, top);
          pushed := pushed + [Range(b, excl.start)];
        }
        ExcludedFrom(rs, k);
        b := excl.finish;
      }
    }

    lemma ClearUpTo(rs: seq<Range>, k: nat, b: nat, e: nat)
      requires Sorted(rs) && k <= |rs| && (forall i :: 0 <= i < k ==> rs[i].finish <= b) &&
               (k < |rs| ==> e <= rs[k].start)
      ensures forall a: nat :: b <= a < e ==> !InSome(a, rs)
    {
    }

    lemma ExcludedFrom(rs: seq<Range>, k: nat)
      requires k < |rs|
      ensures forall a: nat :: In(a, rs[k]) ==> InSome(a, rs)
    {
    }

    lemma PieceAdded(pushed: seq<Range>, r: Range, rs: seq<Range>, bottom: nat, top: nat)
      requires bottom <= r.start < r.finish <= top && (forall a: nat :: In(a, r) ==> !InSome(a, rs))
      requires forall a: nat :: InSome(a, pushed) <==> bottom <= a < r.start && a < top && !InSome(a, rs)
      ensures forall a: nat :: InSome(a, pushed + [r]) <==> bottom <= a < r.finish && a < top && !InSome(a, rs)
    {
      var t := pushed + [r];
      forall a: nat
        ensures InSome(a, t) <==> InSome(a, pushed) || In(a, r)
      {
        if In(a, r) {
          assert In(a, t[|pushed|]);
        }
        if InSome(a, pushed) {
          var i :| 0 <= i < |pushed| && In(a, pushed[i]);
          assert In(a, t[i]);
        }
      }
    }
  }
}
