/** Parallel marking comes to an end: no reachable state is stuck, and every schedule in which helpers wake only when
    they are notified leads to the return of GC_do_parallel_mark. And the mark state becomes invalid only by an
    overflow. */
module ParallelEnds {
  import opened Basics
  import opened ParallelMark
  import opened ActiveCount

  // ---- Overflows

  /** The entries that action a pushes do not fit on the shared stack, or on the helper's local one. */
  predicate Overflows(s: State, a: Action)
    requires Enabled(s, a)
  {
    match a
    case ReturnAll(id) => |s.stack| + |s.helpers[id].local| > s.capacity
    case ShareHalf(id) => |s.stack| + (|s.helpers[id].local| - 1) / 2 > s.capacity
    case SetMark(id) => Children(s, s.helpers[id].cur[0]) != [] && |s.helpers[id].local| >= LOCAL_MARK_STACK_SIZE
    case _ => false
  }

  /** Exactly such a step makes the mark state invalid. */
  lemma InvalidExactly(s: State, a: Action)
    requires Enabled(s, a)
    ensures Next(s, a).invalid <==> s.invalid || Overflows(s, a)
  {
    hide Untaken;
    match a
    case ReturnAll(_) =>
    case ShareHalf(_) =>
    case SetMark(_) =>
    case _ =>
  }

  ghost predicate OverflowStep(s: State, t: State) {
    exists a :: Does(s, a, t) && Overflows(s, a)
  }

  /** So over a run it is valid as long as everything that is pushed fits. */
  lemma {:induction false} ValidWhileFitting(s: State, run: seq<State>, n: nat, wanted: set<Obj>)
    requires Ready(s, wanted) && Run(run) && run[0] == Next(s, Begin) && n < |run|
    ensures run[n].invalid <==> exists k: nat :: k < n && OverflowStep(run[k], run[k + 1])
  {
    hide Next, Enabled, Overflows, Ready;
    if n == 0 {
      StartsValid(s, wanted);
    } else {
      ValidWhileFitting(s, run, n - 1, wanted);
      assert StepOf(run, n);
      var a :| Does(run[n - 1], a, run[n]);
      InvalidExactly(run[n - 1], a);
      assert run[n].invalid ==> run[n - 1].invalid || OverflowStep(run[n - 1], run[n - 1 + 1]);
      if OverflowStep(run[n - 1], run[n]) {
        var b :| Does(run[n - 1], b, run[n]) && Overflows(run[n - 1], b);
        InvalidExactly(run[n - 1], b);
      }
    }
  }

  lemma StartsValid(s: State, wanted: set<Obj>)
    requires Ready(s, wanted)
    ensures !Next(s, Begin).invalid
  {
  }

  // ---- A measure

  /** No helper but id changes, and what helpers and objects there are stays the same. */
  ghost predicate Frame(s: State, t: State, id: nat) {
    && id in s.helpers && id in t.helpers && t.helpers == s.helpers[id := t.helpers[id]]
    && t.children == s.children && t.capacity == s.capacity
    && (t.helpers[id].pc.Outside? <==> s.helpers[id].pc.Outside?)
  }

  /** Every helper has a number below n. */
  ghost predicate Numbered(s: State, n: nat) { forall id :: id in s.helpers ==> id < n }

  function OutsideOne(s: State, id: nat): int {
    if id in s.helpers then B(s.helpers[id].pc.Outside?) else 0
  }

  /** Helper id is about to mark an object that another helper has marked since it looked. */
  function StaleOne(s: State, id: nat): int {
    if id in s.helpers && s.helpers[id].cur != [] then B(s.helpers[id].unmarked &&
                                                         s.helpers[id].cur[0] in s.marks) else 0
  }

  function EntryWork(e: Entry): int { 6 * |e.targets| + 1 }

  /** The work in all shared entries from p on, taken or not. */
  function Ahead(stack: seq<Shared>, p: nat): int
    decreases |stack| - p
  {
    if p >= |stack| then 0 else EntryWork(stack[p].entry) + 1 + Ahead(stack, p + 1)
  }

  function LocalWork(es: seq<Entry>): int {
    if es == [] then 0 else LocalWork(es[..|es| - 1]) + EntryWork(es[|es| - 1])
  }

  /** How far helper h has come on the shared stack. */
  function Position(h: Helper): nat {
    if h.pc.Stealing? || h.pc.Claiming? then h.pc.p else h.first
  }

  /** A helper never goes back on the shared stack, so it takes each entry once at most. */
  function WorkOne(s: State, id: nat): int {
    if id in s.helpers && Inside(s.helpers[id].pc) then
      var h := s.helpers[id];
      Ahead(s.stack, Position(h)) + LocalWork(h.local) + 2 * |h.cur| - B(h.unmarked)
    else 0
  }

  /** How far helper id is from finding more work, from advancing GC_first_nonempty, or from leaving. Active helpers
      outweigh what waking all sleeping ones adds. */
  function RankOne(s: State, id: nat, heavy: nat): int {
    if id !in s.helpers then 0 else
      var h := s.helpers[id];
      var more := s.firstNonempty <= Top(s);
      var behind := h.first <= s.firstNonempty;
      match h.pc
      case Outside => 0
      case Left => 0
      case Sleeping => if more then heavy + (if behind then 35 else 15) else if id in s.notified then 5 else 1
      case Waiting => if more then heavy + (if behind then 34 else 14) else 4
      case Deciding => if more then heavy + (if behind then 33 else 12) else if s.active > 0 then heavy + 33 else 3
      case AtLoop => heavy + if behind then 32 else 10
      case Advancing(seen) => heavy + if seen == s.firstNonempty then 8 else if behind then 32 else 20
      case AtTop => heavy + if behind then 31 else 18
      case WantLock => heavy + if behind then 30 else 16
      case Stealing(p, _, _, _) => heavy + if p == h.first then 7 else 40
      case Claiming(p, _, _, _) => heavy + if p == h.first then 6 else 39
      case Marking => heavy + 38
  }

  function OutsideAll(s: State, n: nat): int { SumTo((id: nat) => OutsideOne(s, id), n) }

  function StaleAll(s: State, n: nat): int { SumTo((id: nat) => StaleOne(s, id), n) }

  function WorkAll(s: State, n: nat): int { SumTo((id: nat) => WorkOne(s, id), n) }

  function RankAll(s: State, n: nat): int { SumTo((id: nat) => RankOne(s, id, 4 * n), n) + B(!s.returned) }

  function Room(s: State): int { if |s.stack| < s.capacity then s.capacity - |s.stack| else 0 }

  function Gap(s: State): int { |s.stack| - s.firstNonempty }

  /** In the order of importance: helpers still outside, unmarked objects, objects about to be marked twice, room on the
      shared stack, entries and words still to be looked at, entries not known to be taken, and places in the code. */
  datatype Measure = Measure(outside: int, unmarked: int, stale: int, room: int, work: int, gap: int, rank: int) {
    predicate Sound() {
      outside >= 0 && unmarked >= 0 && stale >= 0 && room >= 0 && work >= 0 && gap >= 0 && rank >= 0
    }

    predicate Below(m: Measure) {
      if outside != m.outside then outside < m.outside
      else if unmarked != m.unmarked then unmarked < m.unmarked
      else if stale != m.stale then stale < m.stale
      else if room != m.room then room < m.room
      else if work != m.work then work < m.work
      else if gap != m.gap then gap < m.gap
      else rank < m.rank
    }
  }

  function MeasureOf(s: State, bound: set<Obj>, n: nat): Measure {
    Measure(OutsideAll(s, n), |bound - s.marks|, StaleAll(s, n), Room(s), WorkAll(s, n), Gap(s), RankAll(s, n))
  }

  // ---- How the parts of the measure change

  lemma OutsideKept(s: State, t: State, id: nat, n: nat)
    requires Frame(s, t, id) && Numbered(s, n)
    ensures OutsideAll(t, n) == OutsideAll(s, n)
  {
    SumUpdate((j: nat) => OutsideOne(s, j), (j: nat) => OutsideOne(t, j), n, id);
    SumUpdate((j: nat) => OutsideOne(t, j), (j: nat) => OutsideOne(s, j), n, id);
  }

  lemma StaleKept(s: State, t: State, id: nat, n: nat)
    requires Frame(s, t, id) && Numbered(s, n) && t.marks == s.marks
    ensures StaleAll(t, n) <= StaleAll(s, n) + StaleOne(t, id) - StaleOne(s, id)
  {
    SumUpdate((j: nat) => StaleOne(s, j), (j: nat) => StaleOne(t, j), n, id);
  }

  /** The stacks hold the same entries, some of them taken since. */
  ghost predicate SameEntries(x: seq<Shared>, y: seq<Shared>) {
    |x| == |y| && forall i :: 0 <= i < |x| ==> x[i].entry == y[i].entry
  }

  lemma {:induction false} AheadSame(x: seq<Shared>, y: seq<Shared>, p: nat)
    requires SameEntries(x, y)
    ensures Ahead(x, p) == Ahead(y, p)
    decreases |x| - p
  {
    if p < |x| {
      AheadSame(x, y, p + 1);
    }
  }

  lemma {:induction false} AheadLess(stack: seq<Shared>, p: nat, q: nat)
    requires p <= q
    ensures Ahead(stack, q) <= Ahead(stack, p) && Ahead(stack, q) >= 0
    ensures p < q && p < |stack| ==> Ahead(stack, q) < Ahead(stack, p)
    decreases |stack| - p
  {
    if p < |stack| {
      AheadLess(stack, p + 1, if q == p then p + 1 else q);
    }
  }

  lemma {:induction false} LocalWorkNonNegative(es: seq<Entry>)
    ensures LocalWork(es) >= |es|
  {
    if es != [] {
      LocalWorkNonNegative(es[..|es| - 1]);
    }
  }

  lemma LocalWorkPush(es: seq<Entry>, e: Entry)
    ensures LocalWork(es + [e]) == LocalWork(es) + EntryWork(e)
  {
    assert (es + [e])[..|es|] == es;
  }

  lemma {:induction false} LocalWorkDrop(es: seq<Entry>, k: nat)
    requires k <= |es|
    ensures LocalWork(es[k..]) + k <= LocalWork(es)
  {
    if k == |es| {
      LocalWorkNonNegative(es);
    } else {
      var front, e := es[..|es| - 1], es[|es| - 1];
      LocalWorkDrop(front, k);
      assert es[k..] == front[k..] + [e];
      LocalWorkPush(front[k..], e);
    }
  }

  lemma WorkKept(s: State, t: State, id: nat, n: nat)
    requires Frame(s, t, id) && Numbered(s, n) && SameEntries(s.stack, t.stack)
    ensures WorkAll(t, n) <= WorkAll(s, n) + WorkOne(t, id) - WorkOne(s, id)
  {
    forall j: nat | j < n && j != id
      ensures WorkOne(t, j) <= WorkOne(s, j)
    {
      if j in s.helpers {
        AheadSame(s.stack, t.stack, Position(s.helpers[j]));
      }
    }
    SumUpdate((j: nat) => WorkOne(s, j), (j: nat) => WorkOne(t, j), n, id);
  }

  /** Nobody else is deciding by a count that changes. */
  ghost predicate OthersCalm(s: State, t: State, id: nat) {
    forall j :: j in s.helpers && j != id && s.helpers[j].pc.Deciding? ==> t.active == s.active
  }

  lemma RankKept(s: State, t: State, id: nat, n: nat)
    requires Frame(s, t, id) && Numbered(s, n) && OthersCalm(s, t, id)
    requires |t.stack| == |s.stack| && t.firstNonempty == s.firstNonempty && t.returned == s.returned
    requires forall j :: j in s.helpers && j != id && s.helpers[j].pc.Sleeping? && j in t.notified ==> j in s.notified
    ensures RankAll(t, n) <= RankAll(s, n) + RankOne(t, id, 4 * n) - RankOne(s, id, 4 * n)
  {
    SumUpdate((j: nat) => RankOne(s, j, 4 * n), (j: nat) => RankOne(t, j, 4 * n), n, id);
  }

  /** Waking the sleeping helpers adds 4 for each at most. */
  lemma RankNotified(s: State, t: State, id: nat, n: nat)
    requires Frame(s, t, id) && Numbered(s, n) && OthersCalm(s, t, id)
    requires |t.stack| == |s.stack| && t.firstNonempty == s.firstNonempty && t.returned == s.returned
    ensures RankAll(t, n) <= RankAll(s, n) + 4 * n + RankOne(t, id, 4 * n) - RankOne(s, id, 4 * n)
  {
    SumBound((j: nat) => RankOne(s, j, 4 * n), (j: nat) => RankOne(t, j, 4 * n), n, id, 4);
  }

  /** While there is something on the shared stack it does not matter who is notified. */
  lemma RankWithWork(s: State, t: State, id: nat, n: nat)
    requires Frame(s, t, id) && Numbered(s, n) && OthersCalm(s, t, id)
    requires |t.stack| == |s.stack| && t.firstNonempty == s.firstNonempty <= Top(s) && t.returned == s.returned
    ensures RankAll(t, n) <= RankAll(s, n) + RankOne(t, id, 4 * n) - RankOne(s, id, 4 * n)
  {
    SumUpdate((j: nat) => RankOne(s, j, 4 * n), (j: nat) => RankOne(t, j, 4 * n), n, id);
  }

  /** What every step but a mark or a new helper leaves alone. */
  ghost predicate Settles(s: State, t: State, id: nat, n: nat) {
    Frame(s, t, id) && Numbered(s, n) && t.marks == s.marks && StaleOne(t, id) <= StaleOne(s, id)
  }

  lemma ByRoom(s: State, t: State, id: nat, bound: set<Obj>, n: nat)
    requires Settles(s, t, id, n) && |s.stack| < |t.stack| <= s.capacity
    ensures MeasureOf(t, bound, n).Below(MeasureOf(s, bound, n))
  {
    hide OutsideAll, StaleAll, WorkAll, RankAll;
    OutsideKept(s, t, id, n);
    StaleKept(s, t, id, n);
  }

  lemma ByWork(s: State, t: State, id: nat, bound: set<Obj>, n: nat)
    requires Settles(s, t, id, n) && SameEntries(s.stack, t.stack) && WorkOne(t, id) < WorkOne(s, id)
    ensures MeasureOf(t, bound, n).Below(MeasureOf(s, bound, n))
  {
    hide OutsideAll, StaleAll, WorkAll, RankAll, WorkOne;
    OutsideKept(s, t, id, n);
    StaleKept(s, t, id, n);
    WorkKept(s, t, id, n);
  }

  lemma ByGap(s: State, t: State, id: nat, bound: set<Obj>, n: nat)
    requires Settles(s, t, id, n) && s.stack == t.stack && WorkOne(t, id) <= WorkOne(s, id)
    requires t.firstNonempty > s.firstNonempty
    ensures MeasureOf(t, bound, n).Below(MeasureOf(s, bound, n))
  {
    hide OutsideAll, StaleAll, WorkAll, RankAll, WorkOne;
    OutsideKept(s, t, id, n);
    StaleKept(s, t, id, n);
    WorkKept(s, t, id, n);
  }

  lemma ByRank(s: State, t: State, id: nat, bound: set<Obj>, n: nat)
    requires Settles(s, t, id, n) && s.stack == t.stack && WorkOne(t, id) <= WorkOne(s, id)
    requires t.firstNonempty == s.firstNonempty && RankAll(t, n) < RankAll(s, n)
    ensures MeasureOf(t, bound, n).Below(MeasureOf(s, bound, n))
  {
    hide OutsideAll, StaleAll, WorkAll, RankAll, WorkOne;
    OutsideKept(s, t, id, n);
    StaleKept(s, t, id, n);
    WorkKept(s, t, id, n);
  }

  // ---- Each step makes the measure smaller

  /** What the invariant says that matters here. */
  lemma Facts(s: State, id: nat, wanted: set<Obj>, bound: set<Obj>)
    requires Inv(s, wanted, bound) && id in s.helpers
    ensures HelperOk(s, s.helpers[id]) && s.firstNonempty <= |s.stack| && s.active >= 0
    ensures forall j :: j in s.helpers ==> (s.lock == j <==> s.helpers[j].pc.Waiting? || s.helpers[j].pc.Deciding?)
    ensures s.helpers[id].cur != [] ==> s.helpers[id].cur[0] in bound
    ensures s.marks <= bound && (Inside(s.helpers[id].pc) ==> s.helpers[id].first <= |s.stack|)
  {
    if s.helpers[id].cur != [] {
      assert HelperHas(s.helpers[id], s.helpers[id].cur[0]);
    }
  }

  /** A steal that has just begun has an entry to look at. */
  predicate StealOk(h: Helper) {
    match h.pc
    case Stealing(p, high, count, max) => p == h.first ==> p <= high && count <= max
    case _ => true
  }

  /** A step that only moves helper id, with no effect on any work. */
  ghost predicate Moved(s: State, t: State, id: nat, n: nat) {
    && Frame(s, t, id) && Numbered(s, n) && OthersCalm(s, t, id) && t.marks == s.marks && t.stack == s.stack
    && t.firstNonempty == s.firstNonempty && t.returned == s.returned
    && (var h, k := s.helpers[id], t.helpers[id];
        && k.local == h.local && k.cur == h.cur && k.unmarked == h.unmarked && Position(k) == Position(h)
        && Inside(h.pc) && (Inside(k.pc) || (h.cur == [] && !h.unmarked)))
  }

  lemma MovedSettles(s: State, t: State, id: nat, n: nat)
    requires Moved(s, t, id, n)
    ensures Settles(s, t, id, n) && WorkOne(t, id) <= WorkOne(s, id)
  {
    AheadLess(s.stack, Position(s.helpers[id]), Position(s.helpers[id]));
    LocalWorkNonNegative(s.helpers[id].local);
  }

  lemma ByMove(s: State, t: State, id: nat, bound: set<Obj>, n: nat)
    requires Moved(s, t, id, n) && RankOne(t, id, 4 * n) < RankOne(s, id, 4 * n)
    requires s.firstNonempty <= Top(s) ||
             forall j :: j in s.helpers && j != id && s.helpers[j].pc.Sleeping? && j in t.notified ==> j in s.notified
    ensures MeasureOf(t, bound, n).Below(MeasureOf(s, bound, n))
  {
    hide RankAll, WorkOne, MeasureOf, RankOne;
    MovedSettles(s, t, id, n);
    if s.firstNonempty <= Top(s) {
      RankWithWork(s, t, id, n);
    } else {
      RankKept(s, t, id, n);
    }
    ByRank(s, t, id, bound, n);
  }

  lemma ByMoveNotified(s: State, t: State, id: nat, bound: set<Obj>, n: nat)
    requires Moved(s, t, id, n) && RankOne(t, id, 4 * n) + 4 * n < RankOne(s, id, 4 * n)
    ensures MeasureOf(t, bound, n).Below(MeasureOf(s, bound, n))
  {
    hide RankAll, WorkOne, MeasureOf, RankOne;
    MovedSettles(s, t, id, n);
    RankNotified(s, t, id, n);
    ByRank(s, t, id, bound, n);
  }

  lemma ReadFirstShrinks(s: State, id: nat, wanted: set<Obj>, bound: set<Obj>, n: nat)
    requires Inv(s, wanted, bound) && Numbered(s, n) && Enabled(s, ReadFirst(id))
    ensures MeasureOf(DoReadFirst(s, id), bound, n).Below(MeasureOf(s, bound, n))
  {
    hide Inv, MeasureOf, RankAll, Ahead, LocalWork, TakenBelow;
    Facts(s, id, wanted, bound);
    var t, h := DoReadFirst(s, id), s.helpers[id];
    if h.first < s.firstNonempty {
      AheadLess(s.stack, h.first, s.firstNonempty);
      ByWork(s, t, id, bound, n);
    } else {
      ByMove(s, t, id, bound, n);
    }
  }

  lemma SwapFirstShrinks(s: State, id: nat, wanted: set<Obj>, bound: set<Obj>, n: nat)
    requires Inv(s, wanted, bound) && Numbered(s, n) && Enabled(s, SwapFirst(id)) && PassedIt(s.helpers[id])
    ensures MeasureOf(DoSwapFirst(s, id), bound, n).Below(MeasureOf(s, bound, n))
  {
    hide Inv, MeasureOf, RankAll, Ahead, LocalWork, TakenBelow;
    Facts(s, id, wanted, bound);
    var t, h := DoSwapFirst(s, id), s.helpers[id];
    if s.firstNonempty == h.pc.seen {
      ByGap(s, t, id, bound, n);
    } else {
      ByMove(s, t, id, bound, n);
    }
  }

  lemma ReadTopShrinks(s: State, id: nat, wanted: set<Obj>, bound: set<Obj>, n: nat)
    requires Inv(s, wanted, bound) && Numbered(s, n) && Enabled(s, ReadTop(id))
    ensures MeasureOf(DoReadTop(s, id), bound, n).Below(MeasureOf(s, bound, n))
  {
    hide Inv, MeasureOf, RankAll, WorkOne, StaleOne, TakenBelow;
    Facts(s, id, wanted, bound);
    var t := DoReadTop(s, id);
    ByMove(s, t, id, bound, n);
  }

  lemma LockIdleShrinks(s: State, id: nat, wanted: set<Obj>, bound: set<Obj>, n: nat)
    requires Inv(s, wanted, bound) && Numbered(s, n) && Enabled(s, LockIdle(id))
    ensures MeasureOf(DoLockIdle(s, id), bound, n).Below(MeasureOf(s, bound, n))
  {
    hide Inv, MeasureOf, RankAll, WorkOne, StaleOne, TakenBelow;
    Facts(s, id, wanted, bound);
    var t, h := DoLockIdle(s, id), s.helpers[id];
    if Top(s) - h.first + 1 == 0 && s.firstNonempty > Top(s) {
      ByMoveNotified(s, t, id, bound, n);
    } else {
      ByMove(s, t, id, bound, n);
    }
  }

  lemma TestWaitShrinks(s: State, id: nat, wanted: set<Obj>, bound: set<Obj>, n: nat)
    requires Inv(s, wanted, bound) && Numbered(s, n) && Enabled(s, TestWait(id))
    ensures MeasureOf(DoTestWait(s, id), bound, n).Below(MeasureOf(s, bound, n))
  {
    hide Inv, MeasureOf, RankAll, WorkOne, StaleOne, TakenBelow;
    Facts(s, id, wanted, bound);
    var t := DoTestWait(s, id);
    ByMove(s, t, id, bound, n);
  }

  lemma WakeShrinks(s: State, id: nat, wanted: set<Obj>, bound: set<Obj>, n: nat)
    requires Inv(s, wanted, bound) && Numbered(s, n) && Enabled(s, Wake(id)) && id in s.notified
    ensures MeasureOf(Next(s, Wake(id)), bound, n).Below(MeasureOf(s, bound, n))
  {
    hide Inv, MeasureOf, RankAll, WorkOne, StaleOne, TakenBelow;
    Facts(s, id, wanted, bound);
    var t := Next(s, Wake(id));
    ByMove(s, t, id, bound, n);
  }

  /** When only one helper is inside, no other sleeps. */
  lemma LastOneInside(s: State, id: nat, wanted: set<Obj>, bound: set<Obj>)
    requires Inv(s, wanted, bound) && id in s.helpers && Inside(s.helpers[id].pc) && s.helperCount == 1
    ensures forall j :: j in s.helpers && j != id ==> !Inside(s.helpers[j].pc)
  {
    forall j | j in s.helpers && j != id && Inside(s.helpers[j].pc)
      ensures false
    {
      SubsetSize({id, j}, InsideIds(s));
    }
  }

  lemma LeaveShrinks(s: State, id: nat, wanted: set<Obj>, bound: set<Obj>, n: nat)
    requires Inv(s, wanted, bound) && Numbered(s, n) && Enabled(s, Decide(id))
    requires s.active == 0 && s.firstNonempty > Top(s)
    ensures MeasureOf(DoDecide(s, id), bound, n).Below(MeasureOf(s, bound, n))
  {
    hide Inv, MeasureOf, RankAll, WorkOne, StaleOne, TakenBelow;
    Facts(s, id, wanted, bound);
    if s.helperCount == 1 {
      LastOneInside(s, id, wanted, bound);
    }
    ByMove(s, DoDecide(s, id), id, bound, n);
  }

  lemma GoOnShrinks(s: State, id: nat, wanted: set<Obj>, bound: set<Obj>, n: nat)
    requires Inv(s, wanted, bound) && Numbered(s, n) && Enabled(s, Decide(id))
    requires s.active != 0 || s.firstNonempty <= Top(s)
    ensures MeasureOf(DoDecide(s, id), bound, n).Below(MeasureOf(s, bound, n))
  {
    hide Inv, MeasureOf, RankAll, WorkOne, StaleOne, TakenBelow;
    Facts(s, id, wanted, bound);
    ByMove(s, DoDecide(s, id), id, bound, n);
  }

  lemma DecideShrinks(s: State, id: nat, wanted: set<Obj>, bound: set<Obj>, n: nat)
    requires Inv(s, wanted, bound) && Numbered(s, n) && Enabled(s, Decide(id))
    ensures MeasureOf(DoDecide(s, id), bound, n).Below(MeasureOf(s, bound, n))
  {
    hide *;
    if s.active == 0 && s.firstNonempty > Top(s) {
      LeaveShrinks(s, id, wanted, bound, n);
    } else {
      GoOnShrinks(s, id, wanted, bound, n);
    }
  }

  lemma PassedEntry(s: State, t: State, id: nat, bound: set<Obj>, n: nat)
    requires Settles(s, t, id, n) && s.stack == t.stack && Inside(t.helpers[id].pc) && Inside(s.helpers[id].pc)
    requires Position(s.helpers[id]) < Position(t.helpers[id]) && Position(s.helpers[id]) < |s.stack|
    requires t.helpers[id].local == s.helpers[id].local && t.helpers[id].cur == s.helpers[id].cur
    requires t.helpers[id].unmarked == s.helpers[id].unmarked
    ensures MeasureOf(t, bound, n).Below(MeasureOf(s, bound, n))
  {
    hide MeasureOf, LocalWork, Ahead;
    AheadLess(s.stack, Position(s.helpers[id]), Position(t.helpers[id]));
    ByWork(s, t, id, bound, n);
  }

  lemma ReadDescrShrinks(s: State, id: nat, wanted: set<Obj>, bound: set<Obj>, n: nat)
    requires Inv(s, wanted, bound) && Numbered(s, n) && Enabled(s, ReadDescr(id)) && StealOk(s.helpers[id])
    ensures MeasureOf(DoReadDescr(s, id), bound, n).Below(MeasureOf(s, bound, n))
  {
    hide Inv, MeasureOf, RankAll, Ahead, LocalWork, TakenBelow;
    Facts(s, id, wanted, bound);
    var t := DoReadDescr(s, id);
    if t.helpers[id].pc.Stealing? {
      PassedEntry(s, t, id, bound, n);
    } else {
      ByMove(s, t, id, bound, n);
    }
  }

  lemma ClaimShrinks(s: State, id: nat, wanted: set<Obj>, bound: set<Obj>, n: nat)
    requires Inv(s, wanted, bound) && Numbered(s, n) && Enabled(s, Claim(id))
    ensures MeasureOf(DoClaim(s, id), bound, n).Below(MeasureOf(s, bound, n))
  {
    hide Inv, MeasureOf, LocalWork;
    Facts(s, id, wanted, bound);
    var t, h := DoClaim(s, id), s.helpers[id];
    LocalWorkPush(h.local, s.stack[h.pc.p].entry);
    AheadSame(s.stack, t.stack, h.pc.p + 1);
    ByWork(s, t, id, bound, n);
  }

  lemma TakeRangeShrinks(s: State, a: Action, wanted: set<Obj>, bound: set<Obj>, n: nat)
    requires Inv(s, wanted, bound) && Numbered(s, n) && a.TakeRange? && Enabled(s, a) && Timely(s, a)
    ensures MeasureOf(Next(s, a), bound, n).Below(MeasureOf(s, bound, n))
  {
    hide Inv, MeasureOf, LocalWork;
    var id := a.id;
    Facts(s, id, wanted, bound);
    var t, h := Next(s, a), s.helpers[id];
    var e, rest := Last(h.local), h.local[..|h.local| - 1];
    assert h.local == rest + [e];
    LocalWorkPush(rest, e);
    LocalWorkPush(rest, Entry(e.targets[a.j..], e.len));
    ByWork(s, t, id, bound, n);
  }

  lemma ExamineShrinks(s: State, id: nat, wanted: set<Obj>, bound: set<Obj>, n: nat)
    requires Inv(s, wanted, bound) && Numbered(s, n) && Enabled(s, Examine(id))
    ensures MeasureOf(DoExamine(s, id), bound, n).Below(MeasureOf(s, bound, n))
  {
    hide Inv, MeasureOf;
    Facts(s, id, wanted, bound);
    ByWork(s, DoExamine(s, id), id, bound, n);
  }

  lemma MarkedOne(bound: set<Obj>, m: set<Obj>, o: Obj)
    requires o in bound && o !in m
    ensures |bound - (m + {o})| == |bound - m| - 1
  {
    assert bound - m == (bound - (m + {o})) + {o};
  }

  lemma SetMarkShrinks(s: State, id: nat, wanted: set<Obj>, bound: set<Obj>, n: nat)
    requires Inv(s, wanted, bound) && Numbered(s, n) && Enabled(s, SetMark(id))
    ensures MeasureOf(DoSetMark(s, id), bound, n).Below(MeasureOf(s, bound, n))
  {
    hide Inv, OutsideAll, StaleAll, WorkAll, RankAll;
    Facts(s, id, wanted, bound);
    var t, o := DoSetMark(s, id), s.helpers[id].cur[0];
    OutsideKept(s, t, id, n);
    if o in s.marks {
      assert t.marks == s.marks;
      StaleKept(s, t, id, n);
    } else {
      MarkedOne(bound, s.marks, o);
    }
  }

  lemma ReturnAllShrinks(s: State, id: nat, wanted: set<Obj>, bound: set<Obj>, n: nat)
    requires Inv(s, wanted, bound) && Numbered(s, n) && Enabled(s, ReturnAll(id))
    ensures MeasureOf(DoReturnAll(s, id), bound, n).Below(MeasureOf(s, bound, n))
  {
    hide Inv, MeasureOf, LocalWork, Untaken, Ahead;
    Facts(s, id, wanted, bound);
    var t, h := DoReturnAll(s, id), s.helpers[id];
    if t.invalid && t.stack == s.stack {
      LocalWorkDrop(h.local, |h.local|);
      assert h.local[|h.local|..] == [];
      ByWork(s, t, id, bound, n);
    } else {
      ByRoom(s, t, id, bound, n);
    }
  }

  lemma ShareHalfShrinks(s: State, id: nat, wanted: set<Obj>, bound: set<Obj>, n: nat)
    requires Inv(s, wanted, bound) && Numbered(s, n) && Enabled(s, ShareHalf(id))
    ensures MeasureOf(DoShareHalf(s, id), bound, n).Below(MeasureOf(s, bound, n))
  {
    hide Inv, MeasureOf, LocalWork, Untaken, Ahead;
    Facts(s, id, wanted, bound);
    var t, h := DoShareHalf(s, id), s.helpers[id];
    if t.invalid && t.stack == s.stack {
      LocalWorkDrop(h.local, (|h.local| - 1) / 2);
      ByWork(s, t, id, bound, n);
    } else {
      ByRoom(s, t, id, bound, n);
    }
  }

  lemma LocalDoneShrinks(s: State, id: nat, wanted: set<Obj>, bound: set<Obj>, n: nat)
    requires Inv(s, wanted, bound) && Numbered(s, n) && Enabled(s, LocalDone(id))
    ensures MeasureOf(Next(s, LocalDone(id)), bound, n).Below(MeasureOf(s, bound, n))
  {
    hide Inv, MeasureOf, RankAll, WorkOne, StaleOne, TakenBelow;
    Facts(s, id, wanted, bound);
    var t := Next(s, LocalDone(id));
    ByMove(s, t, id, bound, n);
  }

  lemma JoinShrinks(s: State, id: nat, bound: set<Obj>, n: nat)
    requires Numbered(s, n) && Enabled(s, Join(id))
    ensures MeasureOf(Next(s, Join(id)), bound, n).Below(MeasureOf(s, bound, n))
  {
    var t := Next(s, Join(id));
    SumUpdate((j: nat) => OutsideOne(s, j), (j: nat) => OutsideOne(t, j), n, id);
  }

  lemma RankReturned(s: State, t: State, n: nat)
    requires t == s.(returned := true) && !s.returned && 0 in s.helpers && Numbered(s, n)
    ensures RankAll(t, n) < RankAll(s, n)
  {
    SumUpdate((j: nat) => RankOne(s, j, 4 * n), (j: nat) => RankOne(t, j, 4 * n), n, 0);
  }

  lemma ReturnShrinks(s: State, bound: set<Obj>, n: nat)
    requires Numbered(s, n) && 0 in s.helpers && !s.returned
    ensures MeasureOf(s.(returned := true), bound, n).Below(MeasureOf(s, bound, n))
  {
    hide RankAll, MeasureOf, Ahead, LocalWork;
    var t := s.(returned := true);
    assert t.helpers == s.helpers[0 := t.helpers[0]];
    RankReturned(s, t, n);
    ByRank(s, t, 0, bound, n);
  }

  /** A helper, or the thread that started the mark, wakes only when notified; and a range that is taken off a stack has
      something in it, unless it has nothing at all, and is cut so that one word at most is looked at twice. */
  predicate Timely(s: State, a: Action)
    requires Enabled(s, a)
  {
    match a
    case Wake(id) => id in s.notified
    case Return => 0 in s.notified
    case TakeRange(id, k, j) => k <= j + 1 && (j > 0 || Last(s.helpers[id].local).targets == [])
    case _ => true
  }

  lemma StepShrinks(s: State, a: Action, wanted: set<Obj>, bound: set<Obj>, n: nat)
    requires Inv(s, wanted, bound) && Numbered(s, n) && Enabled(s, a) && Timely(s, a) && !a.Begin?
    requires forall id :: id in s.helpers ==> PassedIt(s.helpers[id]) && StealOk(s.helpers[id])
    ensures MeasureOf(Next(s, a), bound, n).Below(MeasureOf(s, bound, n))
  {
    hide Inv, MeasureOf;
    match a
    case Join(id) => JoinShrinks(s, id, bound, n);
    case ReadFirst(id) => ReadFirstShrinks(s, id, wanted, bound, n);
    case SwapFirst(id) => SwapFirstShrinks(s, id, wanted, bound, n);
    case ReadTop(id) => ReadTopShrinks(s, id, wanted, bound, n);
    case LockIdle(id) => LockIdleShrinks(s, id, wanted, bound, n);
    case TestWait(id) => TestWaitShrinks(s, id, wanted, bound, n);
    case Wake(id) => WakeShrinks(s, id, wanted, bound, n);
    case Decide(id) => DecideShrinks(s, id, wanted, bound, n);
    case ReadDescr(id) => ReadDescrShrinks(s, id, wanted, bound, n);
    case Claim(id) => ClaimShrinks(s, id, wanted, bound, n);
    case TakeRange(_, _, _) => TakeRangeShrinks(s, a, wanted, bound, n);
    case Examine(id) => ExamineShrinks(s, id, wanted, bound, n);
    case SetMark(id) => SetMarkShrinks(s, id, wanted, bound, n);
    case ReturnAll(id) => ReturnAllShrinks(s, id, wanted, bound, n);
    case ShareHalf(id) => ShareHalfShrinks(s, id, wanted, bound, n);
    case LocalDone(id) => LocalDoneShrinks(s, id, wanted, bound, n);
    case Return => ReturnShrinks(s, bound, n);
  }

  // ---- No lost wake-up

  /** A helper sleeps without having been notified only while its reason to sleep lasts; and when all have left, the
      thread that started the mark has been notified. */
  ghost predicate NobodyForgotten(s: State) {
    && (forall id :: id in s.helpers && s.helpers[id].pc.Sleeping? && id !in s.notified ==>
          s.active > 0 && s.firstNonempty > Top(s))
    && (0 in s.helpers && s.helpers[0].pc.Left? && s.helperCount == 0 ==> 0 in s.notified)
  }

  ghost predicate Steady(s: State) {
    Underway(s) && NobodyForgotten(s) && forall id :: id in s.helpers ==> StealOk(s.helpers[id])
  }

  lemma SomeoneInside(s: State, id: nat, wanted: set<Obj>, bound: set<Obj>)
    requires Inv(s, wanted, bound) && id in s.helpers && Inside(s.helpers[id].pc)
    ensures s.helperCount > 0
  {
    assert id in InsideIds(s);
  }

  /** Only helper id has moved, and nobody is forgotten. */
  ghost predicate Calm(s: State, t: State, id: nat) {
    && id in s.helpers && id in t.helpers && t.helpers == s.helpers[id := t.helpers[id]]
    && StealOk(t.helpers[id]) && NobodyForgotten(t)
  }

  /** A step that neither puts a helper to sleep nor takes away a reason to sleep forgets nobody. */
  lemma CalmKept(s: State, t: State, id: nat)
    requires NobodyForgotten(s) && id in s.helpers && id in t.helpers && t.helpers == s.helpers[id := t.helpers[id]]
    requires StealOk(t.helpers[id]) && !t.helpers[id].pc.Sleeping? && t.notified == s.notified && t.helperCount > 0
    requires t.firstNonempty >= s.firstNonempty && |t.stack| == |s.stack| && (s.active > 0 ==> t.active > 0)
    ensures Calm(s, t, id)
  {
  }

  /** Nor does one that notifies all. */
  lemma CalmNotified(s: State, t: State, id: nat)
    requires id in s.helpers && id in t.helpers && t.helpers == s.helpers[id := t.helpers[id]]
    requires StealOk(t.helpers[id]) && t.notified == s.helpers.Keys
    ensures Calm(s, t, id)
  {
  }

  lemma ReadFirstCalm(s: State, id: nat)
    requires NobodyForgotten(s) && Enabled(s, ReadFirst(id)) && s.helperCount > 0
    ensures Calm(s, DoReadFirst(s, id), id)
  {
    hide NobodyForgotten, Calm;
    CalmKept(s, DoReadFirst(s, id), id);
  }

  lemma SwapFirstCalm(s: State, id: nat)
    requires NobodyForgotten(s) && Enabled(s, SwapFirst(id)) && s.helperCount > 0 && PassedIt(s.helpers[id])
    ensures Calm(s, DoSwapFirst(s, id), id)
  {
    hide NobodyForgotten, Calm;
    CalmKept(s, DoSwapFirst(s, id), id);
  }

  lemma ReadTopCalm(s: State, id: nat)
    requires NobodyForgotten(s) && Enabled(s, ReadTop(id)) && s.helperCount > 0
    ensures Calm(s, DoReadTop(s, id), id)
  {
    hide NobodyForgotten, Calm;
    CalmKept(s, DoReadTop(s, id), id);
  }

  lemma LockIdleCalm(s: State, id: nat)
    requires NobodyForgotten(s) && Enabled(s, LockIdle(id)) && s.helperCount > 0 && s.helpers[id].first <= |s.stack|
    ensures Calm(s, DoLockIdle(s, id), id)
  {
    hide NobodyForgotten, Calm;
    if Top(s) - s.helpers[id].first + 1 == 0 && s.active == 1 {
      CalmNotified(s, DoLockIdle(s, id), id);
    } else {
      CalmKept(s, DoLockIdle(s, id), id);
    }
  }

  lemma TestWaitCalm(s: State, id: nat)
    requires NobodyForgotten(s) && Enabled(s, TestWait(id)) && s.helperCount > 0
    ensures Calm(s, DoTestWait(s, id), id)
  {
  }

  lemma WakeCalm(s: State, id: nat)
    requires NobodyForgotten(s) && Enabled(s, Wake(id)) && s.helperCount > 0
    ensures Calm(s, AtPc(s, id, Waiting).(lock := id), id)
  {
    hide NobodyForgotten, Calm;
    CalmKept(s, AtPc(s, id, Waiting).(lock := id), id);
  }

  lemma DecideCalm(s: State, id: nat)
    requires NobodyForgotten(s) && Enabled(s, Decide(id)) && s.helperCount > 0 && s.active >= 0
    ensures Calm(s, DoDecide(s, id), id)
  {
    if s.active != 0 || s.firstNonempty <= Top(s) {
      hide NobodyForgotten, Calm;
      CalmKept(s, DoDecide(s, id), id);
    } else if s.helperCount == 1 {
      hide NobodyForgotten, Calm;
      CalmNotified(s, DoDecide(s, id), id);
    }
  }

  lemma JoinCalm(s: State, id: nat)
    requires NobodyForgotten(s) && Enabled(s, Join(id)) && s.helperCount >= 0 && s.active >= 0
    ensures Calm(s, EnterMarkLocal(s.(helperCount := s.helperCount + 1), id), id)
  {
    hide NobodyForgotten, Calm;
    CalmKept(s, EnterMarkLocal(s.(helperCount := s.helperCount + 1), id), id);
  }

  lemma ReadDescrCalm(s: State, id: nat)
    requires NobodyForgotten(s) && Enabled(s, ReadDescr(id)) && s.helperCount > 0 && HelperOk(s, s.helpers[id])
    ensures Calm(s, DoReadDescr(s, id), id)
  {
    hide NobodyForgotten, Calm;
    CalmKept(s, DoReadDescr(s, id), id);
  }

  lemma ClaimCalm(s: State, id: nat)
    requires NobodyForgotten(s) && Enabled(s, Claim(id)) && s.helperCount > 0 && HelperOk(s, s.helpers[id])
    ensures Calm(s, DoClaim(s, id), id)
  {
    hide NobodyForgotten, Calm;
    CalmKept(s, DoClaim(s, id), id);
  }

  lemma TakeRangeCalm(s: State, id: nat, k: nat, j: nat)
    requires NobodyForgotten(s) && Enabled(s, TakeRange(id, k, j)) && s.helperCount > 0
    ensures Calm(s, DoTakeRange(s, id, k, j), id)
  {
    hide NobodyForgotten, Calm;
    CalmKept(s, DoTakeRange(s, id, k, j), id);
  }

  lemma ExamineCalm(s: State, id: nat)
    requires NobodyForgotten(s) && Enabled(s, Examine(id)) && s.helperCount > 0
    ensures Calm(s, DoExamine(s, id), id)
  {
    hide NobodyForgotten, Calm;
    CalmKept(s, DoExamine(s, id), id);
  }

  lemma SetMarkCalm(s: State, id: nat)
    requires NobodyForgotten(s) && Enabled(s, SetMark(id)) && s.helperCount > 0
    ensures Calm(s, DoSetMark(s, id), id)
  {
    hide NobodyForgotten, Calm;
    CalmKept(s, DoSetMark(s, id), id);
  }

  lemma ReturnAllCalm(s: State, id: nat)
    requires Enabled(s, ReturnAll(id))
    ensures Calm(s, DoReturnAll(s, id), id)
  {
    hide NobodyForgotten, Calm, Untaken;
    CalmNotified(s, DoReturnAll(s, id), id);
  }

  lemma ShareHalfCalm(s: State, id: nat)
    requires Enabled(s, ShareHalf(id))
    ensures Calm(s, DoShareHalf(s, id), id)
  {
    hide NobodyForgotten, Calm, Untaken;
    CalmNotified(s, DoShareHalf(s, id), id);
  }

  lemma LocalDoneCalm(s: State, id: nat)
    requires NobodyForgotten(s) && Enabled(s, LocalDone(id)) && s.helperCount > 0
    ensures Calm(s, AtPc(s, id, AtLoop), id)
  {
    hide NobodyForgotten, Calm;
    CalmKept(s, AtPc(s, id, AtLoop), id);
  }

  lemma StepCalm(s: State, a: Action)
    requires NobodyForgotten(s) && Enabled(s, a) && !a.Begin? && !a.Return? && a.id in s.helpers
    requires s.helperCount >= 0 && s.active >= 0 && (!a.Join? ==> s.helperCount > 0)
    requires HelperOk(s, s.helpers[a.id]) && (!a.Join? ==> s.helpers[a.id].first <= |s.stack|)
    requires PassedIt(s.helpers[a.id])
    ensures Calm(s, Next(s, a), a.id)
  {
    hide NobodyForgotten, Calm, HelperOk, Untaken;
    match a
    case Join(id) => JoinCalm(s, id);
    case ReadFirst(id) => ReadFirstCalm(s, id);
    case SwapFirst(id) => SwapFirstCalm(s, id);
    case ReadTop(id) => ReadTopCalm(s, id);
    case LockIdle(id) => LockIdleCalm(s, id);
    case TestWait(id) => TestWaitCalm(s, id);
    case Wake(id) => WakeCalm(s, id);
    case Decide(id) => DecideCalm(s, id);
    case ReadDescr(id) => ReadDescrCalm(s, id);
    case Claim(id) => ClaimCalm(s, id);
    case TakeRange(id, k, j) => TakeRangeCalm(s, id, k, j);
    case Examine(id) => ExamineCalm(s, id);
    case SetMark(id) => SetMarkCalm(s, id);
    case ReturnAll(id) => ReturnAllCalm(s, id);
    case ShareHalf(id) => ShareHalfCalm(s, id);
    case LocalDone(id) => LocalDoneCalm(s, id);
  }

  /** Whoever takes a step is inside, or joins. */
  lemma StepperInside(s: State, a: Action)
    requires Enabled(s, a) && !a.Begin? && !a.Return?
    ensures a.id in s.helpers && (!a.Join? ==> Inside(s.helpers[a.id].pc))
  {
  }

  lemma NobodyLess(s: State, wanted: set<Obj>, bound: set<Obj>)
    requires Inv(s, wanted, bound)
    ensures s.helperCount >= 0
  {
  }

  /** No step of anyone changes another helper. */
  lemma OthersSteal(s: State, t: State, id: nat)
    requires Calm(s, t, id) && forall j :: j in s.helpers ==> StealOk(s.helpers[j])
    ensures t.helpers.Keys == s.helpers.Keys && NobodyForgotten(t)
    ensures forall j :: j in t.helpers ==> StealOk(t.helpers[j])
  {
  }

  lemma SteadyKept(s: State, a: Action, wanted: set<Obj>, bound: set<Obj>)
    requires Inv(s, wanted, bound) && Steady(s) && Enabled(s, a) && !a.Begin?
    ensures Steady(Next(s, a)) && Next(s, a).helpers.Keys == s.helpers.Keys
  {
    hide Inv, Underway, StealOk, NobodyForgotten, Calm, HelperOk;
    UnderwayKept(s, a, wanted, bound);
    if a.Return? {
      ReturnForgetsNobody(s);
    } else {
      hide Next, Enabled;
      StepperInside(s, a);
      Facts(s, a.id, wanted, bound);
      NobodyLess(s, wanted, bound);
      UnderwayPassed(s);
      if !a.Join? {
        SomeoneInside(s, a.id, wanted, bound);
      }
      StepCalm(s, a);
      OthersSteal(s, Next(s, a), a.id);
    }
  }

  lemma ReturnForgetsNobody(s: State)
    requires NobodyForgotten(s)
    ensures NobodyForgotten(s.(returned := true))
  {
  }

  lemma NoSecondBegin(s: State)
    requires Underway(s)
    ensures !Enabled(s, Begin)
  {
  }

  lemma StartsSteady(s: State, wanted: set<Obj>)
    requires Ready(s, wanted) && Underway(Next(s, Begin))
    ensures Steady(Next(s, Begin))
  {
  }

  lemma {:induction false} RunSteady(s: State, run: seq<State>, i: nat, wanted: set<Obj>)
    requires Ready(s, wanted) && Run(run) && run[0] == Next(s, Begin) && i < |run|
    ensures Steady(run[i])
  {
    hide Inv, Underway, Steady, Next, Enabled, Ready;
    RunUnderway(s, run, i, wanted);
    if i == 0 {
      StartsSteady(s, wanted);
    } else {
      RunSteady(s, run, i - 1, wanted);
      RunUnderway(s, run, i - 1, wanted);
      RunKeeps(s, run, i - 1, wanted, WideBound(s));
      assert StepOf(run, i);
      var a :| Does(run[i - 1], a, run[i]);
      NoSecondBegin(run[i - 1]);
      SteadyKept(run[i - 1], a, wanted, WideBound(s));
    }
  }

  // ---- Nothing is stuck

  /** What helper h does next if it is active, or inside and needs no lock. */
  function OwnStep(s: State, id: nat): Action
    requires id in s.helpers
  {
    var h := s.helpers[id];
    match h.pc
    case Outside => Join(id)
    case Left => Return
    case Sleeping => Wake(id)
    case Waiting => TestWait(id)
    case Deciding => Decide(id)
    case AtLoop => ReadFirst(id)
    case Advancing(_) => SwapFirst(id)
    case AtTop => ReadTop(id)
    case WantLock => LockIdle(id)
    case Stealing(_, _, _, _) => ReadDescr(id)
    case Claiming(_, _, _, _) => Claim(id)
    case Marking =>
      if h.cur != [] then if h.unmarked then SetMark(id) else Examine(id)
      else if h.local != [] then TakeRange(id, |Last(h.local).targets|, |Last(h.local).targets|)
      else LocalDone(id)
  }

  /** a can be done now, without being woken for no reason and without another helper's joining. */
  predicate CanGo(s: State, a: Action) { Enabled(s, a) && Timely(s, a) && !a.Join? && !a.Begin? }

  lemma HolderGoes(s: State, id: nat, wanted: set<Obj>, bound: set<Obj>)
    requires Inv(s, wanted, bound) && id in s.helpers && s.lock == id
    ensures CanGo(s, OwnStep(s, id))
  {
    hide Inv, HelperOk;
    Facts(s, id, wanted, bound);
  }

  lemma ActiveGoes(s: State, id: nat, wanted: set<Obj>, bound: set<Obj>)
    requires Inv(s, wanted, bound) && id in s.helpers && s.lock == FREE && Active(s.helpers[id].pc)
    ensures CanGo(s, OwnStep(s, id))
  {
    hide Inv, TakenBelow;
    Facts(s, id, wanted, bound);
  }

  lemma SleeperGoes(s: State, id: nat, wanted: set<Obj>, bound: set<Obj>)
    requires Inv(s, wanted, bound) && Steady(s) && id in s.helpers && s.lock == FREE && s.helpers[id].pc.Sleeping?
    requires s.active == 0
    ensures CanGo(s, OwnStep(s, id))
  {
  }

  lemma StarterGoes(s: State, wanted: set<Obj>, bound: set<Obj>)
    requires Inv(s, wanted, bound) && Steady(s) && s.lock == FREE && !s.returned
    requires forall id :: id in s.helpers ==> !Inside(s.helpers[id].pc)
    ensures CanGo(s, Return)
  {
    assert InsideIds(s) == {};
  }

  lemma LockHeld(s: State, wanted: set<Obj>, bound: set<Obj>)
    requires Inv(s, wanted, bound)
    ensures s.lock == FREE || s.lock in s.helpers
    ensures s.active == 0 <==> forall id :: id in s.helpers ==> !Active(s.helpers[id].pc)
    ensures forall id :: id in s.helpers ==> (s.lock == id <==> s.helpers[id].pc.Waiting? || s.helpers[id].pc.Deciding?)
  {
    if id :| id in s.helpers && Active(s.helpers[id].pc) {
      assert id in ActiveIds(s);
    } else {
      assert ActiveIds(s) == {};
    }
  }

  /** Short of the return of GC_do_parallel_mark there is always someone who can go on. */
  lemma NotStuck(s: State, wanted: set<Obj>, bound: set<Obj>) returns (a: Action)
    requires Inv(s, wanted, bound) && Steady(s) && !s.returned
    ensures CanGo(s, a)
  {
    hide Inv, Steady, CanGo, OwnStep;
    LockHeld(s, wanted, bound);
    if s.lock != FREE {
      a := OwnStep(s, s.lock);
      HolderGoes(s, s.lock, wanted, bound);
    } else if id :| id in s.helpers && Active(s.helpers[id].pc) {
      a := OwnStep(s, id);
      ActiveGoes(s, id, wanted, bound);
    } else if id :| id in s.helpers && s.helpers[id].pc.Sleeping? {
      a := OwnStep(s, id);
      SleeperGoes(s, id, wanted, bound);
    } else {
      a := Return;
      StarterGoes(s, wanted, bound);
    }
  }

  // ---- Every schedule ends

  /** t follows s by a step that is not a wake-up for no reason. */
  ghost predicate TimelyStep(s: State, t: State) {
    exists a :: Does(s, a, t) && Timely(s, a)
  }

  /** The same without a helper's joining. */
  ghost predicate OwnProgress(s: State, t: State) {
    exists a :: Does(s, a, t) && CanGo(s, a)
  }

  lemma MeasureSound(s: State, wanted: set<Obj>, bound: set<Obj>, n: nat)
    requires Inv(s, wanted, bound)
    ensures MeasureOf(s, bound, n).Sound()
  {
    hide Inv, TakenBelow;
    forall id: nat | id < n
      ensures WorkOne(s, id) >= 0
    {
      if id in s.helpers {
        Facts(s, id, wanted, bound);
        AheadLess(s.stack, Position(s.helpers[id]), Position(s.helpers[id]));
        LocalWorkNonNegative(s.helpers[id].local);
      }
    }
    SumNonNegative((id: nat) => OutsideOne(s, id), n);
    SumNonNegative((id: nat) => StaleOne(s, id), n);
    SumNonNegative((id: nat) => WorkOne(s, id), n);
    SumNonNegative((id: nat) => RankOne(s, id, 4 * n), n);
    GapSound(s, wanted, bound);
  }

  lemma GapSound(s: State, wanted: set<Obj>, bound: set<Obj>)
    requires Inv(s, wanted, bound)
    ensures Gap(s) >= 0
  {
  }

  /** What is known of every state under way. */
  ghost predicate OnTheWay(s: State, wanted: set<Obj>, bound: set<Obj>, n: nat) {
    Inv(s, wanted, bound) && Steady(s) && Numbered(s, n)
  }

  lemma TimelyStepShrinks(s: State, a: Action, wanted: set<Obj>, bound: set<Obj>, n: nat)
    requires OnTheWay(s, wanted, bound, n) && Enabled(s, a) && Timely(s, a)
    ensures !a.Begin? && OnTheWay(Next(s, a), wanted, bound, n)
    ensures MeasureOf(Next(s, a), bound, n).Below(MeasureOf(s, bound, n))
    ensures MeasureOf(s, bound, n).Sound() && MeasureOf(Next(s, a), bound, n).Sound()
  {
    hide Inv, Next, Enabled, Timely, MeasureOf, Underway, NobodyForgotten;
    NoSecondBegin(s);
    NextKeeps(s, a, wanted, bound);
    SteadyKept(s, a, wanted, bound);
    assert Numbered(Next(s, a), n) by { assert Next(s, a).helpers.Keys == s.helpers.Keys; }
    assert forall id :: id in s.helpers ==> PassedIt(s.helpers[id]) by { UnderwayPassed(s); }
    StepShrinks(s, a, wanted, bound, n);
    MeasureSound(s, wanted, bound, n);
    MeasureSound(Next(s, a), wanted, bound, n);
  }

  lemma UnderwayPassed(s: State)
    requires Underway(s)
    ensures forall id :: id in s.helpers ==> PassedIt(s.helpers[id])
  {
  }

  /** From any state on the way, steps of those that are inside lead to the return. */
  lemma {:induction false} ContinuesToReturn(s: State, wanted: set<Obj>, bound: set<Obj>, n: nat, m: Measure)
    returns (rest: seq<State>)
    requires OnTheWay(s, wanted, bound, n) && m == MeasureOf(s, bound, n) && m.Sound()
    ensures rest != [] && rest[0] == s && Last(rest).returned
    ensures forall i :: 0 < i < |rest| ==> OwnProgress(rest[i - 1], rest[i])
    decreases m.outside, m.unmarked, m.stale, m.room, m.work, m.gap, m.rank
  {
    hide Inv, Next, Enabled, Timely, MeasureOf, Steady;
    if s.returned {
      rest := [s];
    } else {
      var a := NotStuck(s, wanted, bound);
      TimelyStepShrinks(s, a, wanted, bound, n);
      var t := Next(s, a);
      assert Does(s, a, t) && OwnProgress(s, t);
      var more := ContinuesToReturn(t, wanted, bound, n, MeasureOf(t, bound, n));
      rest := [s] + more;
      forall i | 0 < i < |rest|
        ensures OwnProgress(rest[i - 1], rest[i])
      {
        if i > 1 {
          assert rest[i - 1] == more[i - 2] && rest[i] == more[i - 1];
        }
      }
    }
  }

  lemma RunKnown(s: State, run: seq<State>, i: nat, wanted: set<Obj>) returns (n: nat)
    requires Ready(s, wanted) && Run(run) && run[0] == Next(s, Begin) && i < |run|
    ensures OnTheWay(run[i], wanted, WideBound(s), n)
  {
    hide Inv, Steady, Next, Ready;
    RunKeeps(s, run, i, wanted, WideBound(s));
    RunSteady(s, run, i, wanted);
    n := AllBelow(run[i].helpers.Keys);
  }

  /** From every state of every run GC_do_parallel_mark can still return, by steps of the helpers that are inside:
      nobody has to join, and nobody to wake without having been notified. */
  lemma ParallelMarkCanReturn(s: State, run: seq<State>, i: nat, wanted: set<Obj>) returns (rest: seq<State>)
    requires Ready(s, wanted) && Run(run) && run[0] == Next(s, Begin) && i < |run|
    ensures rest != [] && rest[0] == run[i] && Last(rest).returned
    ensures forall k :: 0 < k < |rest| ==> OwnProgress(rest[k - 1], rest[k])
  {
    hide Inv, Steady, Next, Ready, MeasureOf;
    var n := RunKnown(s, run, i, wanted);
    var bound := WideBound(s);
    KnownSound(run[i], wanted, bound, n);
    rest := ContinuesToReturn(run[i], wanted, bound, n, MeasureOf(run[i], bound, n));
  }

  lemma KnownSound(s: State, wanted: set<Obj>, bound: set<Obj>, n: nat)
    requires OnTheWay(s, wanted, bound, n)
    ensures MeasureOf(s, bound, n).Sound()
  {
    hide Inv, Steady, MeasureOf;
    MeasureSound(s, wanted, bound, n);
  }

  /** In no state of any run short of the return is everybody stuck. */
  lemma NeverStuck(s: State, run: seq<State>, i: nat, wanted: set<Obj>) returns (a: Action)
    requires Ready(s, wanted) && Run(run) && run[0] == Next(s, Begin) && i < |run| && !run[i].returned
    ensures Enabled(run[i], a) && Timely(run[i], a) && !a.Join?
  {
    hide Inv, Steady, Next, Ready, Enabled, Timely;
    var n := RunKnown(s, run, i, wanted);
    a := NotStuck(run[i], wanted, WideBound(s));
  }

  /** A schedule without wake-ups for no reason comes to the return from its i-th state on. */
  lemma {:induction false} ScheduleEnds(schedule: nat -> State, i: nat, wanted: set<Obj>, bound: set<Obj>, n: nat,
                                        m: Measure)
    returns (j: nat)
    requires OnTheWay(schedule(i), wanted, bound, n) && m == MeasureOf(schedule(i), bound, n) && m.Sound()
    requires forall k: nat :: schedule(k).returned || TimelyStep(schedule(k), schedule(k + 1))
    ensures j >= i && schedule(j).returned
    decreases m.outside, m.unmarked, m.stale, m.room, m.work, m.gap, m.rank
  {
    hide Inv, Next, Enabled, Timely, MeasureOf, Steady, OnTheWay;
    j := i;
    if !schedule(i).returned {
      var a :| Does(schedule(i), a, schedule(i + 1)) && Timely(schedule(i), a);
      TimelyStepShrinks(schedule(i), a, wanted, bound, n);
      j := ScheduleEnds(schedule, i + 1, wanted, bound, n, MeasureOf(schedule(i + 1), bound, n));
    }
  }

  /** However the threads are scheduled, and whoever joins when, GC_do_parallel_mark returns. */
  lemma ParallelMarkReturns(s: State, schedule: nat -> State, wanted: set<Obj>)
    requires Ready(s, wanted) && schedule(0) == Next(s, Begin)
    requires forall k: nat :: schedule(k).returned || TimelyStep(schedule(k), schedule(k + 1))
    ensures exists j: nat :: schedule(j).returned
  {
    hide Inv, Steady, Next, Ready, MeasureOf, TimelyStep;
    var run := [schedule(0)];
    var n := RunKnown(s, run, 0, wanted);
    KnownSound(schedule(0), wanted, WideBound(s), n);
    var j := ScheduleEnds(schedule, 0, wanted, WideBound(s), n, MeasureOf(schedule(0), WideBound(s), n));
  }
}
