/** The chained hash tables of finalize.c: for disappearing links, keyed by the address of the link, and for finalizable
    objects, keyed by the address of the object. */
module LinkTables {
  import opened Basics

  /** One hash_chain_entry; next is 0 at the end of a chain. */
  datatype Cell<V> = Cell(key: int, next: nat, value: V)

  type Cells<V> = map<nat, Cell<V>>

  function Pow2(n: nat): (p: int)
    ensures p > 0
  {
    if n == 0 then 1 else 2 * Pow2(n - 1)
  }

  /** The low n bits of the exclusive or of a and b. */
  function XorLow(a: int, b: int, n: nat): (x: int)
    ensures 0 <= x < Pow2(n)
    decreases n
  {
    if n == 0 then 0 else (a % 2 + b % 2) % 2 + 2 * XorLow(a / 2, b / 2, n - 1)
  }

  /** HASH2 for a key in words. */
  function Hash(key: int, log: nat): (b: int)
    ensures 0 <= b < Pow2(log)
  {
    XorLow(key, key / Pow2(log), log)
  }

  predicate LinkOk<V>(cells: Cells<V>, s: seq<nat>, j: nat)
    requires j < |s|
  {
    s[j] in cells && cells[s[j]].next == Elem(s, j + 1)
  }

  /** The cells of s are linked in that order, from head. */
  ghost predicate Chain<V>(cells: Cells<V>, s: seq<nat>, head: nat) {
    && head == Elem(s, 0) && NoDuplicates(s) && 0 !in s
    && forall j: nat {:trigger LinkOk(cells, s, j)} :: j < |s| ==> LinkOk(cells, s, j)
  }

  predicate InBucket<V>(cells: Cells<V>, c: nat, b: nat, log: nat) {
    c in cells && Hash(cells[c].key, log) == b
  }

  ghost predicate BucketOk<V>(cells: Cells<V>, s: seq<nat>, head: nat, b: nat, log: nat) {
    Chain(cells, s, head) && forall j :: 0 <= j < |s| ==> InBucket(cells, s[j], b, log)
  }

  /** at finds the cell of each key: no key has two cells, and no cell is without. */
  ghost predicate Keyed<V>(cells: Cells<V>, at: map<int, nat>) {
    && (forall c: nat :: c in cells ==> cells[c].key in at && at[cells[c].key] == c)
    && (forall k: int :: k in at ==> at[k] in cells && cells[at[k]].key == k)
  }

  /** The chains are those of the table: each cell is in the chain its key hashes to. */
  ghost predicate Hashed<V>(cells: Cells<V>, chains: seq<seq<nat>>, heads: seq<nat>, log: nat) {
    && |chains| == |heads| == Pow2(log)
    && (forall b: nat {:trigger chains[b]} :: b < |chains| ==> BucketOk(cells, chains[b], heads[b], b, log))
    && (forall c: nat :: c in cells ==> c in chains[Hash(cells[c].key, log)])
  }

  ghost function Contents<V>(cells: Cells<V>, at: map<int, nat>): (m: map<int, V>)
    requires Keyed(cells, at)
    ensures m.Keys == at.Keys
  {
    map k: int | k in at :: cells[at[k]].value
  }

  lemma LinkHere<V>(cells: Cells<V>, s: seq<nat>, head: nat, j: nat)
    requires Chain(cells, s, head) && j < |s|
    ensures s[j] in cells && s[j] != 0 && cells[s[j]].next == Elem(s, j + 1)
    ensures Elem(s, j + 1) == 0 <==> j + 1 == |s|
  {
    assert LinkOk(cells, s, j);
  }

  /** Cells that keep their keys and links. */
  lemma BucketFrame<V>(x: Cells<V>, y: Cells<V>, s: seq<nat>, head: nat, b: nat, log: nat)
    requires BucketOk(x, s, head, b, log)
    requires forall j :: 0 <= j < |s| ==>
               s[j] in x && s[j] in y && y[s[j]].key == x[s[j]].key && y[s[j]].next == x[s[j]].next
    ensures BucketOk(y, s, head, b, log)
  {
    forall j: nat | j < |s|
      ensures LinkOk(y, s, j)
    {
      assert LinkOk(x, s, j);
    }
    assert forall j :: 0 <= j < |s| ==> InBucket(x, s[j], b, log);
  }

  // ---- Adding a cell

  /** Cell c, with key and value, in front of the chain that starts at head. */
  function Pushed<V>(cells: Cells<V>, c: nat, key: int, head: nat, value: V): Cells<V> {
    cells[c := Cell(key, head, value)]
  }

  lemma PushBucket<V>(cells: Cells<V>, s: seq<nat>, head: nat, b: nat, log: nat, c: nat, key: int, value: V)
    requires BucketOk(cells, s, head, b, log) && c !in s && c != 0 && Hash(key, log) == b
    ensures BucketOk(Pushed(cells, c, key, head, value), [c] + s, c, b, log)
  {
    var y, t := Pushed(cells, c, key, head, value), [c] + s;
    forall j: nat | j < |t|
      ensures LinkOk(y, t, j) && InBucket(y, t[j], b, log)
    {
      if j > 0 {
        assert LinkOk(cells, s, j - 1) && InBucket(cells, s[j - 1], b, log);
        assert Elem(t, j + 1) == Elem(s, j);
      } else {
        assert Elem(t, 1) == Elem(s, 0);
      }
    }
  }

  lemma PushHashed<V>(cells: Cells<V>, chains: seq<seq<nat>>, heads: seq<nat>, log: nat, c: nat, key: int, value: V)
    requires Hashed(cells, chains, heads, log) && c !in cells && c != 0
    ensures var b := Hash(key, log);
            Hashed(Pushed(cells, c, key, heads[b], value), chains[b := [c] + chains[b]], heads[b := c], log)
  {
    var b := Hash(key, log);
    var y, t := Pushed(cells, c, key, heads[b], value), chains[b := [c] + chains[b]];
    forall i: nat | i < |t|
      ensures BucketOk(y, t[i], heads[b := c][i], i, log)
    {
      assert BucketOk(cells, chains[i], heads[i], i, log);
      CellsKnown(cells, chains[i], heads[i]);
      if i == b {
        PushBucket(cells, chains[b], heads[b], b, log, c, key, value);
      } else {
        BucketFrame(cells, y, chains[i], heads[i], i, log);
      }
    }
    forall d: nat | d in y
      ensures d in t[Hash(y[d].key, log)]
    {
      if d != c {
        assert d in chains[Hash(cells[d].key, log)];
      }
    }
  }

  lemma CellsKnown<V>(cells: Cells<V>, s: seq<nat>, head: nat)
    requires Chain(cells, s, head)
    ensures forall j :: 0 <= j < |s| ==> s[j] in cells
  {
    forall j: nat | j < |s|
      ensures s[j] in cells
    {
      assert LinkOk(cells, s, j);
    }
  }

  // ---- Taking a cell out

  /** The cell at place k of the chain s is unlinked; it stays where it is. */
  function Unlinked<V>(cells: Cells<V>, s: seq<nat>, k: nat): Cells<V>
    requires k < |s| && s[k] in cells && (k > 0 ==> s[k - 1] in cells)
  {
    if k == 0 then cells else cells[s[k - 1] := cells[s[k - 1]].(next := cells[s[k]].next)]
  }

  lemma UnlinkBucket<V>(cells: Cells<V>, s: seq<nat>, head: nat, b: nat, log: nat, k: nat)
    requires BucketOk(cells, s, head, b, log) && k < |s| && s[k] in cells && (k > 0 ==> s[k - 1] in cells)
    ensures BucketOk(Unlinked(cells, s, k), Without(s, k), if k == 0 then cells[s[k]].next else head, b, log)
  {
    var y, t := Unlinked(cells, s, k), Without(s, k);
    LinkHere(cells, s, head, k);
    ElemWithout(s, k, 0);
    WithoutMembers(s, k);
    forall j: nat | j < |t|
      ensures LinkOk(y, t, j) && InBucket(y, t[j], b, log)
    {
      ElemWithout(s, k, j);
      ElemWithout(s, k, j + 1);
      var m := if j < k then j else j + 1;
      LinkHere(cells, s, head, m);
      assert InBucket(cells, s[m], b, log);
      assert NoDuplicates(s);
    }
  }

  /** Removing cell c, unlinked from place k of its chain. */
  lemma RemoveHashed<V>(cells: Cells<V>, chains: seq<seq<nat>>, heads: seq<nat>, log: nat, b: nat, k: nat)
    requires Hashed(cells, chains, heads, log) && b < |chains| && k < |chains[b]|
    ensures var s := chains[b];
            && s[k] in cells && (k > 0 ==> s[k - 1] in cells)
            && Hashed(Unlinked(cells, s, k) - {s[k]}, chains[b := Without(s, k)],
                      if k == 0 then heads[b := cells[s[k]].next] else heads, log)
  {
    var s := chains[b];
    assert BucketOk(cells, s, heads[b], b, log);
    CellsKnown(cells, s, heads[b]);
    var c := s[k];
    var heads' := if k == 0 then heads[b := cells[c].next] else heads;
    var y, t := Unlinked(cells, s, k) - {c}, chains[b := Without(s, k)];
    UnlinkBucket(cells, s, heads[b], b, log, k);
    WithoutMembers(s, k);
    forall i: nat | i < |t|
      ensures BucketOk(y, t[i], heads'[i], i, log)
    {
      if i == b {
        RemainBucket(Unlinked(cells, s, k), t[b], heads'[b], b, log, c);
      } else {
        RemoveOther(cells, chains, heads, log, b, k, i);
      }
    }
    forall d: nat | d in y
      ensures d in t[Hash(y[d].key, log)]
    {
      assert d in chains[Hash(cells[d].key, log)];
    }
  }

  lemma RemainBucket<V>(x: Cells<V>, s: seq<nat>, head: nat, b: nat, log: nat, c: nat)
    requires BucketOk(x, s, head, b, log) && c !in s
    ensures BucketOk(x - {c}, s, head, b, log)
  {
    CellsKnown(x, s, head);
    BucketFrame(x, x - {c}, s, head, b, log);
  }

  lemma RemoveOther<V>(cells: Cells<V>, chains: seq<seq<nat>>, heads: seq<nat>, log: nat, b: nat, k: nat, i: nat)
    requires Hashed(cells, chains, heads, log) && b < |chains| && k < |chains[b]| && i < |chains| && i != b
    requires chains[b][k] in cells && (k > 0 ==> chains[b][k - 1] in cells)
    ensures BucketOk(Unlinked(cells, chains[b], k) - {chains[b][k]}, chains[i], heads[i], i, log)
  {
    assert BucketOk(cells, chains[i], heads[i], i, log);
    assert BucketOk(cells, chains[b], heads[b], b, log);
    CellsKnown(cells, chains[i], heads[i]);
    assert forall j :: 0 <= j < |chains[i]| ==> InBucket(cells, chains[i][j], i, log);
    assert InBucket(cells, chains[b][k], b, log) && (k > 0 ==> InBucket(cells, chains[b][k - 1], b, log));
    BucketFrame(cells, Unlinked(cells, chains[b], k) - {chains[b][k]}, chains[i], heads[i], i, log);
  }

  // ---- The cells and the map they stand for

  lemma SameMap<V>(m: map<int, V>, n: map<int, V>)
    requires m.Keys == n.Keys && forall k :: k in m.Keys ==> m[k] == n[k]
    ensures m == n
  {
    forall k | k in m.Keys
      ensures m[k] == n[k]
    {
    }
    assert m.Items == n.Items;
  }

  lemma PushedContents<V>(cells: Cells<V>, at: map<int, nat>, c: nat, key: int, head: nat, value: V)
    requires Keyed(cells, at) && c !in cells && key !in at
    ensures Keyed(Pushed(cells, c, key, head, value), at[key := c])
    ensures Contents(Pushed(cells, c, key, head, value), at[key := c]) == Contents(cells, at)[key := value]
  {
    SameMap(Contents(Pushed(cells, c, key, head, value), at[key := c]), Contents(cells, at)[key := value]);
  }

  lemma RemovedContents<V>(cells: Cells<V>, at: map<int, nat>, s: seq<nat>, k: nat)
    requires Keyed(cells, at) && k < |s| && s[k] in cells && (k > 0 ==> s[k - 1] in cells && s[k - 1] != s[k])
    ensures var key := cells[s[k]].key; var y := Unlinked(cells, s, k) - {s[k]};
            Keyed(y, at - {key}) && Contents(y, at - {key}) == Contents(cells, at) - {key}
  {
    var key := cells[s[k]].key;
    SameMap(Contents(Unlinked(cells, s, k) - {s[k]}, at - {key}), Contents(cells, at) - {key});
  }

  /** The value of cell c is replaced. */
  function Revalued<V>(cells: Cells<V>, c: nat, value: V): Cells<V>
    requires c in cells
  {
    cells[c := cells[c].(value := value)]
  }

  lemma RevaluedContents<V>(cells: Cells<V>, at: map<int, nat>, c: nat, value: V)
    requires Keyed(cells, at) && c in cells
    ensures Keyed(Revalued(cells, c, value), at)
    ensures Contents(Revalued(cells, c, value), at) == Contents(cells, at)[cells[c].key := value]
  {
    SameMap(Contents(Revalued(cells, c, value), at), Contents(cells, at)[cells[c].key := value]);
  }

  lemma RevaluedHashed<V>(cells: Cells<V>, chains: seq<seq<nat>>, heads: seq<nat>, log: nat, c: nat, value: V)
    requires Hashed(cells, chains, heads, log) && c in cells
    ensures Hashed(Revalued(cells, c, value), chains, heads, log)
  {
    var y := Revalued(cells, c, value);
    forall b: nat | b < |chains|
      ensures BucketOk(y, chains[b], heads[b], b, log)
    {
      assert BucketOk(cells, chains[b], heads[b], b, log);
      CellsKnown(cells, chains[b], heads[b]);
      BucketFrame(cells, y, chains[b], heads[b], b, log);
    }
  }

  lemma KeyInChain<V>(cells: Cells<V>, chains: seq<seq<nat>>, heads: seq<nat>, log: nat, at: map<int, nat>, key: int)
    requires Hashed(cells, chains, heads, log) && Keyed(cells, at)
    ensures key in at ==> at[key] in cells && cells[at[key]].key == key && at[key] in chains[Hash(key, log)]
  {
  }

  /** A key that no cell of its chain has is not in the table. */
  lemma NotInChain<V>(cells: Cells<V>, chains: seq<seq<nat>>, heads: seq<nat>, log: nat, at: map<int, nat>, key: int)
    requires Hashed(cells, chains, heads, log) && Keyed(cells, at)
    requires forall j :: 0 <= j < |chains[Hash(key, log)]| ==>
               chains[Hash(key, log)][j] in cells && cells[chains[Hash(key, log)][j]].key != key
    ensures key !in at
  {
  }

  lemma HashedSizes<V>(cells: Cells<V>, chains: seq<seq<nat>>, heads: seq<nat>, log: nat)
    requires Hashed(cells, chains, heads, log)
    ensures |chains| == |heads| == Pow2(log)
  {
  }

  lemma PrevHere<V>(cells: Cells<V>, chains: seq<seq<nat>>, heads: seq<nat>, log: nat, b: nat, k: nat)
    requires Hashed(cells, chains, heads, log) && b < |chains| && k < |chains[b]|
    ensures Elem(chains[b], k - 1) == 0 <==> k == 0
    ensures k > 0 ==> chains[b][k - 1] in cells && chains[b][k - 1] != chains[b][k]
    ensures chains[b][k] in cells
  {
  }

  lemma KeyAt<V>(cells: Cells<V>, at: map<int, nat>, key: int)
    requires Keyed(cells, at) && key in at
    ensures at[key] in cells && cells[at[key]].key == key
  {
  }

  // ---- Rehashing

  /** While a table with cells x0 is rehashed: the cells in sub have been moved to the new chains, the others are as
      they were. */
  ghost predicate Rehashing<V>(x0: Cells<V>, x: Cells<V>, sub: Cells<V>, chains: seq<seq<nat>>, heads: seq<nat>,
                               log: nat) {
    && x.Keys == x0.Keys && sub.Keys <= x0.Keys
    && (forall c: nat :: c in x0 ==> x[c].key == x0[c].key && x[c].value == x0[c].value)
    && (forall c: nat :: c in x0 ==> x[c] == if c in sub then sub[c] else x0[c])
    && Hashed(sub, chains, heads, log)
  }

  /** Exactly the cells of the first i chains, and the first j cells of chain i, have been moved. */
  ghost predicate MovedSoFar<V>(x0: Cells<V>, sub: Cells<V>, chains: seq<seq<nat>>, log: nat, i: nat, j: nat)
    requires i < |chains| ==> j <= |chains[i]|
  {
    forall c: nat :: c in x0 ==>
      (c in sub <==> Hash(x0[c].key, log) < i || (i < |chains| && Hash(x0[c].key, log) == i && c in chains[i][..j]))
  }

  /** Nothing has been moved yet, and every new chain is empty. */
  lemma RehashStart<V>(x0: Cells<V>, chains: seq<seq<nat>>, heads: seq<nat>, log: nat)
    requires |chains| == |heads| == Pow2(log) && forall b :: 0 <= b < |chains| ==> chains[b] == [] && heads[b] == 0
    ensures Rehashing(x0, x0, map[], chains, heads, log)
  {
  }

  /** Cell c, the next to be moved, goes in front of the new chain of its key. */
  lemma RehashStep<V>(x0: Cells<V>, x: Cells<V>, sub: Cells<V>, chains: seq<seq<nat>>, heads: seq<nat>, log: nat,
                      c: nat)
    requires Rehashing(x0, x, sub, chains, heads, log) && c in x0 && c !in sub && c != 0
    ensures |heads| == |chains| == Pow2(log)
    ensures var b := Hash(x0[c].key, log); var e := Cell(x0[c].key, heads[b], x0[c].value);
            Rehashing(x0, x[c := e], sub[c := e], chains[b := [c] + chains[b]], heads[b := c], log)
  {
    hide Hashed, Hash;
    HashedSizes(sub, chains, heads, log);
    PushHashed(sub, chains, heads, log, c, x0[c].key, x0[c].value);
  }

  lemma CellOf<V>(x0: Cells<V>, chains: seq<seq<nat>>, heads: seq<nat>, log: nat, i: nat, j: nat)
    requires Hashed(x0, chains, heads, log) && i < |chains| && Elem(chains[i], j) != 0
    ensures j < |chains[i]| && chains[i][j] in x0
  {
  }

  lemma NextToMove<V>(x0: Cells<V>, sub: Cells<V>, chains: seq<seq<nat>>, heads: seq<nat>, log: nat, i: nat, j: nat,
                      e: Cell<V>)
    requires Hashed(x0, chains, heads, log) && i < |chains| && j < |chains[i]| && MovedSoFar(x0, sub, chains, log, i, j)
    ensures var c := chains[i][j]; c in x0 && c !in sub && c != 0 && x0[c].next == Elem(chains[i], j + 1)
    ensures Elem(chains[i], j + 1) == 0 <==> j + 1 == |chains[i]|
    ensures MovedSoFar(x0, sub[chains[i][j] := e], chains, log, i, j + 1)
  {
    var s, c := chains[i], chains[i][j];
    assert BucketOk(x0, s, heads[i], i, log);
    LinkHere(x0, s, heads[i], j);
    assert InBucket(x0, s[j], i, log);
    assert s[..j + 1] == s[..j] + [c];
    assert c !in s[..j] by {
      assert NoDuplicates(s);
    }
  }

  lemma ChainMoved<V>(x0: Cells<V>, sub: Cells<V>, chains: seq<seq<nat>>, heads: seq<nat>, log: nat, i: nat)
    requires Hashed(x0, chains, heads, log) && i < |chains| && MovedSoFar(x0, sub, chains, log, i, |chains[i]|)
    ensures MovedSoFar(x0, sub, chains, log, i + 1, 0)
  {
    assert chains[i][..|chains[i]|] == chains[i];
    forall c: nat | c in x0
      ensures c in sub <==> Hash(x0[c].key, log) < i + 1
    {
      assert c in chains[Hash(x0[c].key, log)];
    }
  }

  lemma ChainStart<V>(x0: Cells<V>, chains: seq<seq<nat>>, heads: seq<nat>, log: nat, i: nat)
    requires Hashed(x0, chains, heads, log) && i < |chains|
    ensures heads[i] == Elem(chains[i], 0) && (heads[i] == 0 <==> chains[i] == [])
  {
  }

  /** Once every chain has been moved, the new chains hold the whole table. */
  lemma RehashDone<V>(x0: Cells<V>, x: Cells<V>, sub: Cells<V>, chains: seq<seq<nat>>, heads: seq<nat>, log: nat,
                      old_: seq<seq<nat>>, oldLog: nat, at: map<int, nat>)
    requires Rehashing(x0, x, sub, chains, heads, log) && Keyed(x0, at)
    requires x0 == map[] || (|old_| == Pow2(oldLog) && MovedSoFar(x0, sub, old_, oldLog, |old_|, 0))
    ensures Hashed(x, chains, heads, log) && Keyed(x, at) && Contents(x, at) == Contents(x0, at)
  {
    assert forall c: nat :: c in x0 ==> c in sub;
    forall b: nat | b < |chains|
      ensures BucketOk(x, chains[b], heads[b], b, log)
    {
      assert BucketOk(sub, chains[b], heads[b], b, log);
      CellsKnown(sub, chains[b], heads[b]);
      BucketFrame(sub, x, chains[b], heads[b], b, log);
    }
    forall c: nat | c in x
      ensures c in chains[Hash(x[c].key, log)]
    {
      assert c in chains[Hash(sub[c].key, log)];
    }
    SameMap(Contents(x, at), Contents(x0, at));
  }

  lemma SameCells<V>(x0: Cells<V>, x: Cells<V>, sub: Cells<V>, chains: seq<seq<nat>>, heads: seq<nat>, log: nat)
    requires Rehashing(x0, x, sub, chains, heads, log)
    ensures x.Keys == x0.Keys
  {
  }

  lemma CellNow<V>(x0: Cells<V>, x: Cells<V>, sub: Cells<V>, chains: seq<seq<nat>>, heads: seq<nat>, log: nat, c: nat)
    requires Rehashing(x0, x, sub, chains, heads, log) && c in x0 && c !in sub
    ensures c in x && x[c] == x0[c]
  {
  }

  lemma NothingMoved<V>(x0: Cells<V>, chains: seq<seq<nat>>, log: nat)
    ensures MovedSoFar(x0, map[], chains, log, 0, 0)
  {
  }

  // ---- Walks over the whole table

  ghost predicate InList<V>(k: int, es: seq<(int, V)>) { exists j :: 0 <= j < |es| && es[j].0 == k }

  ghost predicate DistinctKeys<V>(es: seq<(int, V)>) {
    forall i, j :: 0 <= i < j < |es| ==> es[i].0 != es[j].0
  }

  /** The entries of es are entries of m, each at most once. */
  ghost predicate EntriesOf<V>(es: seq<(int, V)>, m: map<int, V>) {
    DistinctKeys(es) && forall j :: 0 <= j < |es| ==> es[j].0 in m && m[es[j].0] == es[j].1
  }

  /** m is what is left of m0 once the entries of es, all of which are gone, have been taken out. */
  ghost predicate Swept<V>(m0: map<int, V>, m: map<int, V>, es: seq<(int, V)>, gone: (int, V) -> bool) {
    && EntriesOf(es, m0)
    && (forall k: int :: k in m ==> k in m0 && m[k] == m0[k] && !InList(k, es))
    && (forall k: int :: k in m0 ==> k in m || InList(k, es))
    && (forall j :: 0 <= j < |es| ==> gone(es[j].0, es[j].1))
  }

  lemma SweepOne<V>(m0: map<int, V>, m: map<int, V>, es: seq<(int, V)>, gone: (int, V) -> bool, key: int)
    requires Swept(m0, m, es, gone) && key in m && gone(key, m[key])
    ensures Swept(m0, m - {key}, es + [(key, m[key])], gone)
  {
    var t := es + [(key, m[key])];
    forall j | 0 <= j < |es|
      ensures es[j].0 != key
    {
      assert InList(es[j].0, es);
    }
    assert t[|es|].0 == key;
    forall k: int
      ensures InList(k, t) <==> InList(k, es) || k == key
    {
      if InList(k, es) {
        var j :| 0 <= j < |es| && es[j].0 == k;
        assert t[j].0 == k;
      }
    }
  }

  /** The walk has passed the chains before i and the first k cells of chain i. */
  ghost predicate Passed(at: map<int, nat>, chains: seq<seq<nat>>, log: nat, i: nat, k: nat, key: int)
    requires key in at && (i < |chains| ==> k <= |chains[i]|)
  {
    Hash(key, log) < i || (i < |chains| && Hash(key, log) == i && at[key] in chains[i][..k])
  }

  /** No entry that the walk has passed is gone. */
  ghost predicate StillThere<V>(m: map<int, V>, at: map<int, nat>, chains: seq<seq<nat>>, log: nat, i: nat, k: nat,
                                gone: (int, V) -> bool)
    requires m.Keys == at.Keys && (i < |chains| ==> k <= |chains[i]|)
  {
    forall key: int :: key in at && Passed(at, chains, log, i, k, key) ==> !gone(key, m[key])
  }

  /** The cell at place k of chain i, its key and what comes after it. */
  lemma WalkHere<V>(cells: Cells<V>, at: map<int, nat>, chains: seq<seq<nat>>, heads: seq<nat>, log: nat, i: nat,
                    k: nat)
    requires Hashed(cells, chains, heads, log) && Keyed(cells, at) && i < |chains| && k < |chains[i]|
    ensures var c := chains[i][k];
            && c in cells && c != 0 && Hash(cells[c].key, log) == i && cells[c].key in at && at[cells[c].key] == c
            && cells[c].next == Elem(chains[i], k + 1) && (cells[c].next == 0 <==> k + 1 == |chains[i]|)
            && Contents(cells, at)[cells[c].key] == cells[c].value
  {
    assert BucketOk(cells, chains[i], heads[i], i, log);
    LinkHere(cells, chains[i], heads[i], k);
    assert InBucket(cells, chains[i][k], i, log);
  }

  lemma PassOne<V>(m: map<int, V>, at: map<int, nat>, cells: Cells<V>, chains: seq<seq<nat>>, log: nat, i: nat, k: nat,
                   gone: (int, V) -> bool)
    requires m.Keys == at.Keys && Keyed(cells, at) && i < |chains| && k < |chains[i]| && chains[i][k] in cells
    requires StillThere(m, at, chains, log, i, k, gone)
    requires var key := cells[chains[i][k]].key; key in at && !gone(key, m[key])
    ensures StillThere(m, at, chains, log, i, k + 1, gone)
  {
  }

  lemma PassChain<V>(m: map<int, V>, at: map<int, nat>, cells: Cells<V>, chains: seq<seq<nat>>, heads: seq<nat>,
                     log: nat, i: nat, gone: (int, V) -> bool)
    requires m.Keys == at.Keys && Keyed(cells, at) && Hashed(cells, chains, heads, log) && i < |chains|
    requires StillThere(m, at, chains, log, i, |chains[i]|, gone)
    ensures StillThere(m, at, chains, log, i + 1, 0, gone)
  {
    forall key: int | key in at && Passed(at, chains, log, i + 1, 0, key)
      ensures !gone(key, m[key])
    {
      KeyInChain(cells, chains, heads, log, at, key);
      assert chains[i][..|chains[i]|] == chains[i];
      assert Passed(at, chains, log, i, |chains[i]|, key);
    }
  }

  lemma PassDeleted<V>(m: map<int, V>, at: map<int, nat>, chains: seq<seq<nat>>, log: nat, i: nat, k: nat,
                       gone: (int, V) -> bool, key: int, chains': seq<seq<nat>>)
    requires m.Keys == at.Keys && i < |chains| && k < |chains[i]| && StillThere(m, at, chains, log, i, k, gone)
    requires chains' == chains[i := Without(chains[i], k)]
    ensures (m - {key}).Keys == (at - {key}).Keys && StillThere(m - {key}, at - {key}, chains', log, i, k, gone)
  {
  }

  lemma NothingSwept<V>(m: map<int, V>, gone: (int, V) -> bool)
    ensures Swept(m, m, [], gone)
  {
  }

  lemma NothingPassed<V>(m: map<int, V>, at: map<int, nat>, chains: seq<seq<nat>>, log: nat, gone: (int, V) -> bool)
    requires m.Keys == at.Keys
    ensures StillThere(m, at, chains, log, 0, 0, gone)
  {
  }

  lemma AllPassed<V>(m: map<int, V>, at: map<int, nat>, chains: seq<seq<nat>>, heads: seq<nat>, log: nat,
                     gone: (int, V) -> bool)
    requires m.Keys == at.Keys && StillThere(m, at, chains, log, |heads|, 0, gone)
    requires at == map[] || |heads| == Pow2(log)
    ensures forall k: int :: k in m ==> !gone(k, m[k])
  {
  }

  /** es holds exactly the keys that the walk has passed. */
  ghost predicate Listed<V>(at: map<int, nat>, chains: seq<seq<nat>>, log: nat, i: nat, k: nat, es: seq<(int, V)>)
    requires i < |chains| ==> k <= |chains[i]|
  {
    forall key: int :: key in at ==> (InList(key, es) <==> Passed(at, chains, log, i, k, key))
  }

  lemma PassedOne<V>(cells: Cells<V>, at: map<int, nat>, chains: seq<seq<nat>>, heads: seq<nat>, log: nat, i: nat,
                     k: nat)
    requires Hashed(cells, chains, heads, log) && Keyed(cells, at) && i < |chains| && k < |chains[i]|
    ensures chains[i][k] in cells && cells[chains[i][k]].key in at && at[cells[chains[i][k]].key] == chains[i][k]
    ensures var x := cells[chains[i][k]].key;
            && !Passed(at, chains, log, i, k, x)
            && forall key: int :: key in at ==>
                 (Passed(at, chains, log, i, k + 1, key) <==> Passed(at, chains, log, i, k, key) || key == x)
  {
    WalkHere(cells, at, chains, heads, log, i, k);
    var c := chains[i][k];
    assert BucketOk(cells, chains[i], heads[i], i, log);
    assert chains[i][..k + 1] == chains[i][..k] + [c];
    assert c !in chains[i][..k];
  }

  lemma InListMore<V>(es: seq<(int, V)>, x: (int, V))
    ensures forall key: int :: InList(key, es + [x]) <==> InList(key, es) || key == x.0
  {
    var t := es + [x];
    forall key: int
      ensures InList(key, t) <==> InList(key, es) || key == x.0
    {
      assert t[|es|] == x;
      if InList(key, es) {
        var j :| 0 <= j < |es| && es[j].0 == key;
        assert t[j].0 == key;
      }
    }
  }

  lemma EntriesMore<V>(es: seq<(int, V)>, x: (int, V), m: map<int, V>)
    requires EntriesOf(es, m) && !InList(x.0, es) && x.0 in m && m[x.0] == x.1
    ensures EntriesOf(es + [x], m)
  {
    forall j | 0 <= j < |es|
      ensures es[j].0 != x.0
    {
    }
  }

  lemma ListOne<V>(cells: Cells<V>, at: map<int, nat>, chains: seq<seq<nat>>, heads: seq<nat>, log: nat, i: nat,
                   k: nat, es: seq<(int, V)>)
    requires Hashed(cells, chains, heads, log) && Keyed(cells, at) && i < |chains| && k < |chains[i]|
    requires Listed(at, chains, log, i, k, es) && EntriesOf(es, Contents(cells, at))
    ensures chains[i][k] in cells
    ensures var e := cells[chains[i][k]];
            Listed(at, chains, log, i, k + 1, es + [(e.key, e.value)]) &&
                EntriesOf(es + [(e.key, e.value)], Contents(cells, at))
  {
    hide Hashed, EntriesOf, InList, Passed;
    PassedOne(cells, at, chains, heads, log, i, k);
    var e := cells[chains[i][k]];
    InListMore(es, (e.key, e.value));
    EntriesMore(es, (e.key, e.value), Contents(cells, at));
  }

  lemma ListChain<V>(cells: Cells<V>, at: map<int, nat>, chains: seq<seq<nat>>, heads: seq<nat>, log: nat, i: nat,
                     es: seq<(int, V)>)
    requires Hashed(cells, chains, heads, log) && Keyed(cells, at) && i < |chains|
    requires Listed(at, chains, log, i, |chains[i]|, es)
    ensures Listed(at, chains, log, i + 1, 0, es)
  {
    assert chains[i][..|chains[i]|] == chains[i];
    forall key: int | key in at
      ensures InList(key, es) <==> Passed(at, chains, log, i + 1, 0, key)
    {
      KeyInChain(cells, chains, heads, log, at, key);
      assert Passed(at, chains, log, i + 1, 0, key) <==> Passed(at, chains, log, i, |chains[i]|, key);
    }
  }

  lemma ListNothing<V>(at: map<int, nat>, chains: seq<seq<nat>>, log: nat, m: map<int, V>)
    ensures Listed<V>(at, chains, log, 0, 0, []) && EntriesOf([], m)
  {
  }

  lemma ListedAll<V>(at: map<int, nat>, chains: seq<seq<nat>>, log: nat, n: nat, es: seq<(int, V)>)
    requires n >= |chains| && Listed(at, chains, log, n, 0, es) && (at == map[] || n == Pow2(log))
    ensures forall k: int :: k in at ==> InList(k, es)
  {
  }

  datatype MoveResult = Moved | NotFound | Duplicate

  class LinkTable<V> {
    var cells: Cells<V>
    var heads: seq<nat>  // the table of chain heads; empty for NULL
    var log: nat
    var entries: nat
    var unusedCell: nat  // where the allocator puts the next cell
    ghost var chains: seq<seq<nat>>
    ghost var at: map<int, nat>

    ghost predicate Valid()
      reads this
    {
      && Keyed(cells, at) && entries == |at|
      && (forall c: nat :: c in cells ==> 0 < c < unusedCell) && unusedCell > 0
      && (if heads == [] then cells == map[] && chains == [] else Hashed(cells, chains, heads, log))
    }

    /** What the table stands for. */
    ghost function Map(): map<int, V>
      requires Valid()
      reads this
    {
      Contents(cells, at)
    }

    constructor ()
      ensures Valid() && Map() == map[]
    {
      cells, heads, log, entries, unusedCell := map[], [], 0, 0, 1;
      chains, at := [], map[];
    }

    /** Walks the chain of key; prev is the cell before the one found. */
    method Find(key: int) returns (curr: nat, prev: nat, ghost k: nat)
      requires Valid() && heads != []
      ensures Hash(key, log) < |chains|
      ensures curr != 0 ==> key in at && at[key] == curr
      ensures curr != 0 ==> k < |chains[Hash(key, log)]| && chains[Hash(key, log)][k] == curr
                            && prev == Elem(chains[Hash(key, log)], k - 1)
      ensures curr == 0 ==> key !in at
    {
      var b := Hash(key, log);
      ghost var s := chains[b];
      assert BucketOk(cells, s, heads[b], b, log);
      curr, prev, k := heads[b], 0, 0;
      while curr != 0
        invariant k <= |s| && curr == Elem(s, k) && prev == Elem(s, k - 1) && (curr == 0 ==> k == |s|)
        invariant forall j :: 0 <= j < k ==> s[j] in cells && cells[s[j]].key != key
        decreases |s| - k
      {
        LinkHere(cells, s, heads[b], k);
        if cells[curr].key == key {
          return;
        }
        prev := curr;
        curr := cells[curr].next;
        k := k + 1;
      }
      NotInChain(cells, chains, heads, log, at, key);
    }

    /** Puts a new cell for key in front of its chain. */
    method Insert(key: int, value: V)
      requires Valid() && heads != [] && key !in at
      modifies this
      ensures Valid() && heads != [] && log == old(log) && Map() == old(Map())[key := value]
    {
      hide Hashed, Keyed, Contents;
      var b, c := Hash(key, log), unusedCell;
      HashedSizes(cells, chains, heads, log);
      PushHashed(cells, chains, heads, log, c, key, value);
      PushedContents(cells, at, c, key, heads[b], value);
      unusedCell := unusedCell + 1;
      cells := cells[c := Cell(key, heads[b], value)];
      heads := heads[b := c];
      entries := entries + 1;
      chains := chains[b := [c] + chains[b]];
      at := at[key := c];
    }

    /** Takes the cell curr, found with its predecessor prev at place k of the chain of its key, out of the table. */
    method Delete(key: int, curr: nat, prev: nat, ghost k: nat)
      requires Valid() && heads != [] && curr != 0 && key in at && at[key] == curr && Hash(key, log) < |chains|
      requires k < |chains[Hash(key, log)]| && chains[Hash(key, log)][k] == curr
      requires prev == Elem(chains[Hash(key, log)], k - 1)
      modifies this
      ensures Valid() && log == old(log) && |heads| == |old(heads)| && unusedCell == old(unusedCell)
      ensures at == old(at) - {key} && Map() == old(Map()) - {key}
      ensures chains == old(chains)[Hash(key, log) := Without(old(chains)[Hash(key, log)], k)]
    {
      hide Hashed, Contents, Without, Keyed, Hash;
      var b := Hash(key, log);
      KeyAt(cells, at, key);
      HashedSizes(cells, chains, heads, log);
      PrevHere(cells, chains, heads, log, b, k);
      RemoveHashed(cells, chains, heads, log, b, k);
      RemovedContents(cells, at, chains[b], k);
      var next := cells[curr].next;
      if prev == 0 {
        heads := heads[b := next];
      } else {
        cells := cells[prev := cells[prev].(next := next)];
      }
      cells := cells - {curr};
      entries := entries - 1;
      at := at - {key};
      chains := chains[b := Without(chains[b], k)];
    }

    /** Replaces the value of cell curr. */
    method SetValue(key: int, curr: nat, value: V)
      requires Valid() && key in at && at[key] == curr
      modifies `cells
      ensures Valid() && Map() == old(Map())[key := value]
    {
      hide Hashed, Contents, Keyed;
      KeyAt(cells, at, key);
      RevaluedContents(cells, at, curr, value);
      if heads != [] {
        RevaluedHashed(cells, chains, heads, log, curr, value);
      }
      cells := cells[curr := cells[curr].(value := value)];
    }

    /** GC_register_disappearing_link_inner: true stands for GC_DUPLICATE, where only the object is replaced. */
    method Register(key: int, value: V) returns (duplicate: bool)
      requires Valid()
      modifies this
      ensures Valid() && Map() == old(Map())[key := value] && (duplicate <==> key in old(Map()))
    {
      GrowIfCrowded();
      var curr, prev, k := Find(key);
      if curr != 0 {
        SetValue(key, curr, value);
        return true;
      }
      Insert(key, value);
      duplicate := false;
    }

    /** GC_unregister_disappearing_link_inner. */
    method Unregister(key: int) returns (r: Option<V>)
      requires Valid()
      modifies this
      ensures Valid() && Map() == old(Map()) - {key}
      ensures r == if key in old(Map()) then Some(old(Map())[key]) else None
    {
      if heads == [] {
        return None;
      }
      var curr, prev, k := Find(key);
      if curr == 0 {
        return None;
      }
      r := Some(cells[curr].value);
      Delete(key, curr, prev, k);
    }

    /** GC_move_disappearing_link_inner. The cell moves to the front of the chain of the new key, which may be the chain
        it was in. */
    method Move(key: int, newKey: int) returns (r: MoveResult)
      requires Valid()
      modifies this
      ensures Valid()
      ensures r.NotFound? <==> key !in old(Map())
      ensures r.Duplicate? <==> key in old(Map()) && newKey in old(Map()) && newKey != key
      ensures !r.Moved? || newKey == key ==> Map() == old(Map())
      ensures r.Moved? && newKey != key ==> Map() == (old(Map()) - {key})[newKey := old(Map())[key]]
    {
      if heads == [] {
        return NotFound;
      }
      var curr, prev, k := Find(key);
      if curr == 0 {
        return NotFound;
      } else if key == newKey {
        return Moved;
      }
      var other, _, _ := Find(newKey);
      if other != 0 {
        return Duplicate;
      }
      var value := cells[curr].value;
      Delete(key, curr, prev, k);
      Insert(newKey, value);
      r := Moved;
    }

    /** GC_register_finalizer_inner: a finalizer of None removes the one that is there; an object outside the heap gets
        none. Returns the finalizer that was there. */
    method SetFinalizer(obj: int, fn: Option<V>, inHeap: bool) returns (was: Option<V>)
      requires Valid()
      modifies this
      ensures Valid()
      ensures was == if obj in old(Map()) then Some(old(Map())[obj]) else None
      ensures Map() == if fn.None? then old(Map()) - {obj}
                       else if obj in old(Map()) || inHeap then old(Map())[obj := fn.value] else old(Map())
    {
      GrowIfCrowded();
      var curr, prev, k := Find(obj);
      if curr != 0 {
        was := Some(cells[curr].value);
        if fn.None? {
          Delete(obj, curr, prev, k);
        } else {
          SetValue(obj, curr, fn.value);
        }
        return;
      }
      was := None;
      if fn.None? || !inHeap {
        return;
      }
      Insert(obj, fn.value);
    }

    method GrowIfCrowded()
      requires Valid()
      modifies this
      ensures Valid() && heads != [] && Map() == old(Map())
      ensures log == old(log) + if old(heads == [] || entries > Pow2(log)) then 1 else 0
    {
      if heads == [] || entries > Pow2(log) {
        Grow();
      }
    }

    /** GC_grow_table: doubles the table of heads, or makes the first one, and rehashes every cell into it. */
    method Grow()
      requires Valid()
      modifies this
      ensures Valid() && heads != [] && log == old(log) + 1 && Map() == old(Map())
    {
      hide Hashed, Keyed, Contents, Rehashing, MovedSoFar, Hash, Pow2;
      var newLog := log + 1;
      var newHeads := seq(Pow2(newLog), _ => 0);
      ghost var newChains: seq<seq<nat>> := seq(Pow2(newLog), _ => []);
      ghost var x0, sub: Cells<V> := cells, map[];
      RehashStart(x0, newChains, newHeads, newLog);
      NothingMoved(x0, chains, log);
      if heads != [] {
        HashedSizes(x0, chains, heads, log);
      }
      var i := 0;
      while i < |heads|
        invariant i <= |heads| == |chains| && (heads != [] ==> Hashed(x0, chains, heads, log))
        invariant MovedSoFar(x0, sub, chains, log, i, 0)
        invariant Rehashing(x0, cells, sub, newChains, newHeads, newLog)
        modifies `cells
      {
        newHeads, newChains, sub := RehashChain(x0, i, newLog, newHeads, newChains, sub);
        i := i + 1;
      }
      if heads != [] {
        HashedSizes(x0, chains, heads, log);
      }
      RehashDone(x0, cells, sub, newChains, newHeads, newLog, chains, log, at);
      SameCells(x0, cells, sub, newChains, newHeads, newLog);
      HashedSizes(cells, newChains, newHeads, newLog);
      assert |newHeads| > 0;
      log, heads := newLog, newHeads;
      chains := newChains;
    }

    method RehashChain(ghost x0: Cells<V>, i: nat, newLog: nat, newHeads: seq<nat>, ghost newChains: seq<seq<nat>>,
                       ghost sub: Cells<V>)
      returns (heads': seq<nat>, ghost chains': seq<seq<nat>>, ghost sub': Cells<V>)
      requires i < |heads| == |chains| && Hashed(x0, chains, heads, log)
      requires MovedSoFar(x0, sub, chains, log, i, 0) && Rehashing(x0, cells, sub, newChains, newHeads, newLog)
      modifies `cells
      ensures MovedSoFar(x0, sub', chains, log, i + 1, 0) && Rehashing(x0, cells, sub', chains', heads', newLog)
    {
      hide Hashed, Rehashing, MovedSoFar, Hash, Pow2;
      heads', chains', sub' := newHeads, newChains, sub;
      ChainStart(x0, chains, heads, log, i);
      var p := heads[i];
      ghost var j := 0;
      while p != 0
        invariant j <= |chains[i]| && p == Elem(chains[i], j) && (p == 0 ==> j == |chains[i]|)
        invariant MovedSoFar(x0, sub', chains, log, i, j) && Rehashing(x0, cells, sub', chains', heads', newLog)
        decreases |chains[i]| - j
      {
        ghost var s := sub';
        CellOf(x0, chains, heads, log, i, j);
        NextToMove(x0, s, chains, heads, log, i, j, x0[p]);
        CellNow(x0, cells, sub', chains', heads', newLog, p);
        RehashStep(x0, cells, sub', chains', heads', newLog, p);
        var next := cells[p].next;
        var b := Hash(cells[p].key, newLog);
        cells := cells[p := cells[p].(next := heads'[b])];
        sub' := sub'[p := cells[p]];
        NextToMove(x0, s, chains, heads, log, i, j, cells[p]);
        chains' := chains'[b := [p] + chains'[b]];
        heads' := heads'[b := p];
        p := next;
        j := j + 1;
      }
      ChainMoved(x0, sub', chains, heads, log, i);
    }

    /** The loop over all chains of GC_make_disappearing_links_disappear and of the enqueuing part of GC_finalize: takes
        out the entries that are gone, and returns them in the order it finds them. */
    method Sweep(gone: (int, V) -> bool) returns (removed: seq<(int, V)>)
      requires Valid()
      modifies this
      ensures Valid() && Swept(old(Map()), Map(), removed, gone)
      ensures forall k: int :: k in Map() ==> !gone(k, Map()[k])
    {
      hide Hashed, Keyed, Contents, Swept, StillThere, Hash, Pow2;
      removed := [];
      NothingSwept(Map(), gone);
      NothingPassed(Map(), at, chains, log, gone);
      var i := 0;
      while i < |heads|
        invariant Valid() && i <= |heads| && |heads| == |old(heads)|
        invariant Swept(old(Map()), Map(), removed, gone) && StillThere(Map(), at, chains, log, i, 0, gone)
      {
        removed := SweepChain(i, gone, old(Map()), removed);
        i := i + 1;
      }
      SizeKnown();
      AllPassed(Map(), at, chains, heads, log, gone);
    }

    lemma SizeKnown()
      requires Valid()
      ensures at == map[] || |heads| == Pow2(log)
      ensures heads != [] ==> |chains| == |heads| == Pow2(log)
    {
      assert forall k: int :: k in at ==> at[k] in cells;
      if heads == [] {
        assert at == map[];
      }
    }

    method SweepChain(i: nat, gone: (int, V) -> bool, ghost m0: map<int, V>, before: seq<(int, V)>)
      returns (removed: seq<(int, V)>)
      requires Valid() && i < |heads|
      requires Swept(m0, Map(), before, gone) && StillThere(Map(), at, chains, log, i, 0, gone)
      modifies this
      ensures Valid() && |heads| == |old(heads)|
      ensures Swept(m0, Map(), removed, gone) && StillThere(Map(), at, chains, log, i + 1, 0, gone)
    {
      hide Hashed, Keyed, Contents, Swept, StillThere, Hash, Pow2, Without;
      removed := before;
      HashedSizes(cells, chains, heads, log);
      ChainStart(cells, chains, heads, log, i);
      var curr, prev := heads[i], 0;
      ghost var k := 0;
      while curr != 0
        invariant Valid() && |heads| == |old(heads)| && |chains| == |heads|
        invariant k <= |chains[i]| && curr == Elem(chains[i], k) && prev == Elem(chains[i], k - 1) &&
                  (curr == 0 ==> k == |chains[i]|)
        invariant Swept(m0, Map(), removed, gone) && StillThere(Map(), at, chains, log, i, k, gone)
        decreases |chains[i]| - k
      {
        CellOf(cells, chains, heads, log, i, k);
        WalkHere(cells, at, chains, heads, log, i, k);
        var e := cells[curr];
        ghost var s := chains[i];
        ElemWithout(s, k, k);
        ElemWithout(s, k, k - 1);
        if gone(e.key, e.value) {
          SweepHere(i, curr, prev, k, e, gone, m0, removed);
          removed := removed + [(e.key, e.value)];
        } else {
          PassOne(Map(), at, cells, chains, log, i, k, gone);
          prev := curr;
          k := k + 1;
        }
        curr := e.next;
      }
      PassChain(Map(), at, cells, chains, heads, log, i, gone);
    }

    /** Deletes the cell curr, which is gone, during the walk. */
    method SweepHere(i: nat, curr: nat, prev: nat, ghost k: nat, e: Cell<V>, gone: (int, V) -> bool,
                     ghost m0: map<int, V>, ghost removed: seq<(int, V)>)
      requires Valid() && i < |heads| == |chains| && k < |chains[i]| && chains[i][k] == curr &&
               prev == Elem(chains[i], k - 1)
      requires curr in cells && cells[curr] == e && gone(e.key, e.value)
      requires Swept(m0, Map(), removed, gone) && StillThere(Map(), at, chains, log, i, k, gone)
      modifies this
      ensures Valid() && |heads| == |old(heads)| && |chains| == |heads| && chains[i] == Without(old(chains)[i], k)
      ensures Swept(m0, Map(), removed + [(e.key, e.value)], gone) && StillThere(Map(), at, chains, log, i, k, gone)
    {
      hide Hashed, Keyed, Contents, Swept, StillThere, Hash, Pow2, Without;
      SizeKnown();
      WalkHere(cells, at, chains, heads, log, i, k);
      SweepOne(m0, Map(), removed, gone, e.key);
      PassDeleted(Map(), at, chains, log, i, k, gone, e.key, chains[i := Without(chains[i], k)]);
      Delete(e.key, curr, prev, k);
      SizeKnown();
    }

    /** All entries, in the order of a walk over the chains. */
    method List() returns (es: seq<(int, V)>)
      requires Valid()
      ensures EntriesOf(es, Map()) && forall k: int :: k in Map() ==> InList(k, es)
    {
      hide Hashed, Keyed, Contents, Listed, EntriesOf, InList, Hash, Pow2;
      es := [];
      ListNothing(at, chains, log, Map());
      SizeKnown();
      var i := 0;
      while i < |heads|
        invariant i <= |heads| && (heads != [] ==> |chains| == |heads|)
        invariant Listed(at, chains, log, i, 0, es) && EntriesOf(es, Map())
      {
        ChainStart(cells, chains, heads, log, i);
        var curr := heads[i];
        ghost var k := 0;
        while curr != 0
          invariant k <= |chains[i]| && curr == Elem(chains[i], k) && (curr == 0 ==> k == |chains[i]|)
          invariant Listed(at, chains, log, i, k, es) && EntriesOf(es, Map())
          decreases |chains[i]| - k
        {
          CellOf(cells, chains, heads, log, i, k);
          WalkHere(cells, at, chains, heads, log, i, k);
          ListOne(cells, at, chains, heads, log, i, k, es);
          es := es + [(cells[curr].key, cells[curr].value)];
          curr := cells[curr].next;
          k := k + 1;
        }
        ListChain(cells, at, chains, heads, log, i, es);
        i := i + 1;
      }
      ListedAll(at, chains, log, |heads|, es);
    }
  }
}
