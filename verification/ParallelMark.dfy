/** The parallel marker of mark.c as atomic steps of any number of helpers. The heap does not change while it runs. */
module ParallelMark {

  const LOCAL_MARK_STACK_SIZE := 4096
  const GC_MARK_STACK_DISCARDS := 512
  const ENTRIES_TO_GET := 5

  const FREE := -1

  type Obj = int

  /** A mark stack entry: what the words of its range refer to, and the length of the range in bytes. */
  datatype Entry = Entry(targets: seq<Obj>, len: nat)

  /** An entry of the shared stack; its descriptor is zeroed when a helper takes it. */
  datatype Shared = Shared(entry: Entry, taken: bool)

  datatype Pc =
    | Outside                                                // not in GC_mark_local
    | AtLoop                                                 // at the top of the loop of GC_mark_local
    | Advancing(seen: nat)                                   // about to compare-and-swap GC_first_nonempty
    | AtTop                                                  // about to read GC_mark_stack_top without the lock
    | WantLock                                               // the shared stack looked empty
    | Waiting                                                // inactive, lock held, about to test the wait condition
    | Sleeping                                               // inactive, in GC_wait_marker
    | Deciding                                               // inactive, lock held, about to leave or go on
    | Stealing(p: nat, high: int, count: nat, max: nat)      // in the loop of GC_steal_mark_stack
    | Claiming(p: nat, high: int, count: nat, max: nat)      // saw a descriptor, about to zero it
    | Marking                                                // in GC_do_local_mark
    | Left                                                   // returned from GC_mark_local

  datatype Helper = Helper(
    pc: Pc,
    first: nat,          // my_first_nonempty, as an index
    local: seq<Entry>,   // the local mark stack
    cur: seq<Obj>,       // rest of the range being scanned
    unmarked: bool)      // the first word of cur was seen to refer to an unmarked object

  datatype State = State(
    children: map<Obj, seq<Obj>>,
    marks: set<Obj>,
    stack: seq<Shared>,
    capacity: nat,
    firstNonempty: nat,
    active: int, helperCount: int, helpWanted: bool,
    invalid: bool,       // GC_mark_state became MS_INVALID
    lock: int,           // who holds the mark lock, FREE when nobody does
    helpers: map<nat, Helper>,  // helper 0 is the thread that initiated marking
    returned: bool,      // GC_do_parallel_mark returned
    notified: set<nat>)  // whom GC_notify_all_marker has woken since they last went to sleep

  datatype Action =
    | Begin | Join(id: nat)
    | ReadFirst(id: nat) | SwapFirst(id: nat) | ReadTop(id: nat)
    | LockIdle(id: nat) | TestWait(id: nat) | Wake(id: nat) | Decide(id: nat)
    | ReadDescr(id: nat) | Claim(id: nat)
    | TakeRange(id: nat, k: nat, j: nat) | Examine(id: nat) | SetMark(id: nat)
    | ReturnAll(id: nat) | ShareHalf(id: nat) | LocalDone(id: nat)
    | Return

  function Children(s: State, o: Obj): seq<Obj> {
    if o in s.children then s.children[o] else []
  }

  predicate Active(pc: Pc) {
    pc.AtLoop? || pc.Advancing? || pc.AtTop? || pc.WantLock? || pc.Stealing? || pc.Claiming? || pc.Marking?
  }

  predicate Inside(pc: Pc) {
    !pc.Outside? && !pc.Left?
  }

  function Top(s: State): int { |s.stack| - 1 }

  function With(s: State, id: nat, h: Helper): State {
    s.(helpers := s.helpers[id := h])
  }

  function AtPc(s: State, id: nat, pc: Pc): State
    requires id in s.helpers
  {
    With(s, id, s.helpers[id].(pc := pc))
  }

  predicate Enabled(s: State, a: Action) {
    match a
    case Begin => s.lock == FREE && 0 in s.helpers && s.helpers[0].pc.Outside? && !s.helpWanted && s.active == 0 &&
        s.helperCount == 0
    case Join(id) => s.lock == FREE && s.helpWanted && id in s.helpers && s.helpers[id].pc.Outside?
    case ReadFirst(id) => id in s.helpers && s.helpers[id].pc.AtLoop?
    case SwapFirst(id) => id in s.helpers && s.helpers[id].pc.Advancing?
    case ReadTop(id) => id in s.helpers && s.helpers[id].pc.AtTop?
    case LockIdle(id) => s.lock == FREE && id in s.helpers && s.helpers[id].pc.WantLock?
    case TestWait(id) => id in s.helpers && s.helpers[id].pc.Waiting?
    case Wake(id) => s.lock == FREE && id in s.helpers && s.helpers[id].pc.Sleeping?
    case Decide(id) => id in s.helpers && s.helpers[id].pc.Deciding?
    case ReadDescr(id) => id in s.helpers && s.helpers[id].pc.Stealing?
    case Claim(id) => id in s.helpers && s.helpers[id].pc.Claiming? && s.helpers[id].pc.p < |s.stack|
    case TakeRange(id, k, j) =>
      && id in s.helpers && s.helpers[id].pc.Marking? && s.helpers[id].cur == [] && !s.helpers[id].unmarked
      && s.helpers[id].local != [] && j <= k <= |Last(s.helpers[id].local).targets|
    case Examine(id) => id in s.helpers && s.helpers[id].pc.Marking? && s.helpers[id].cur != [] &&
        !s.helpers[id].unmarked
    case SetMark(id) => id in s.helpers && s.helpers[id].pc.Marking? && s.helpers[id].cur != [] &&
        s.helpers[id].unmarked
    case ReturnAll(id) =>
      && s.lock == FREE && id in s.helpers && s.helpers[id].pc.Marking? && s.helpers[id].cur == []
      && |s.helpers[id].local| - 1 >= LOCAL_MARK_STACK_SIZE / 2
    case ShareHalf(id) =>
      && s.lock == FREE && id in s.helpers && s.helpers[id].pc.Marking? && s.helpers[id].cur == []
      && |s.helpers[id].local| - 1 > 1
    case LocalDone(id) =>
      id in s.helpers && s.helpers[id].pc.Marking? && s.helpers[id].cur == [] && s.helpers[id].local == []
    case Return => s.lock == FREE && 0 in s.helpers && s.helpers[0].pc.Left? && s.helperCount == 0 && !s.returned
  }

  function Last<T>(xs: seq<T>): T
    requires xs != []
  {
    xs[|xs| - 1]
  }

  /** GC_notify_all_marker. */
  function NotifyAll(s: State): State { s.(notified := s.helpers.Keys) }

  /** GC_mark_local on entry, lock held throughout. */
  function EnterMarkLocal(s: State, id: nat): State
    requires id in s.helpers
  {
    With(s, id, Helper(AtLoop, s.firstNonempty, [], [], false)).(active := s.active + 1)
  }

  function StealFrom(s: State, h: Helper): Pc {
    var n := Top(s) - h.first + 1;
    Stealing(h.first, Top(s), 0, if n < 2 * ENTRIES_TO_GET then 1 else ENTRIES_TO_GET)
  }

  function Untaken(es: seq<Entry>): (r: seq<Shared>)
    ensures |r| == |es| && forall i :: 0 <= i < |es| ==> r[i] == Shared(es[i], false)
  {
    seq(|es|, i requires 0 <= i < |es| => Shared(es[i], false))
  }

  /** GC_return_mark_stack: append entries to the shared stack, or drop them when there is no room, and wake the
      sleeping helpers. */
  function GiveBack(s: State, es: seq<Entry>): State {
    if |s.stack| + |es| > s.capacity then NotifyAll(s.(invalid := true))
    else NotifyAll(s.(stack := s.stack + Untaken(es)))
  }

  /** Push the ranges of a newly marked object on a local stack; on overflow discard entries and give up the
      marker's invariant. */
  function PushLocal(s: State, h: Helper, o: Obj): (State, seq<Entry>) {
    var cs := Children(s, o);
    if cs == [] then (s, h.local)
    else if |h.local| < LOCAL_MARK_STACK_SIZE then (s, h.local + [Entry(cs, |cs|)])
    else (s.(invalid := true), h.local[..|h.local| - GC_MARK_STACK_DISCARDS] + [Entry(cs, |cs|)])
  }

  // ---- The steps

  /** Start of the loop of GC_mark_local: compare my_first_nonempty with GC_first_nonempty. */
  function DoReadFirst(s: State, id: nat): State
    requires id in s.helpers
  {
    var h := s.helpers[id];
    if h.first < s.firstNonempty then With(s, id, h.(first := s.firstNonempty, pc := AtTop))
    else if s.firstNonempty < h.first then AtPc(s, id, Advancing(s.firstNonempty))
    else AtPc(s, id, AtTop)
  }

  function DoSwapFirst(s: State, id: nat): State
    requires id in s.helpers && s.helpers[id].pc.Advancing?
  {
    var h := s.helpers[id];
    AtPc(if s.firstNonempty == h.pc.seen then s.(firstNonempty := h.first) else s, id, AtTop)
  }

  function DoReadTop(s: State, id: nat): State
    requires id in s.helpers
  {
    var h := s.helpers[id];
    if Top(s) < h.first then AtPc(s, id, WantLock) else AtPc(s, id, StealFrom(s, h))
  }

  function DoLockIdle(s: State, id: nat): State
    requires id in s.helpers
  {
    var h := s.helpers[id];
    if Top(s) - h.first + 1 == 0 then
      AtPc(if s.active == 1 then NotifyAll(s) else s, id, Waiting).(active := s.active - 1, lock := id)
    else AtPc(s, id, StealFrom(s, h))
  }

  function DoTestWait(s: State, id: nat): State
    requires id in s.helpers
  {
    if s.active > 0 && s.firstNonempty > Top(s) then
      AtPc(s, id, Sleeping).(lock := FREE, notified := s.notified - {id})
    else AtPc(s, id, Deciding)
  }

  function DoDecide(s: State, id: nat): State
    requires id in s.helpers
  {
    if s.active == 0 && s.firstNonempty > Top(s) then
      // helper 0 goes to sleep if others are still inside; the last one to leave wakes it
      var s' := if s.helperCount == 1 then NotifyAll(s) else s.(notified := s.notified - if id == 0 then {id} else {});
      AtPc(s', id, Left).(helperCount := s.helperCount - 1, lock := FREE, helpWanted := s.helpWanted && id != 0)
    else AtPc(s, id, AtLoop).(active := s.active + 1, lock := FREE)
  }

  /** One iteration of GC_steal_mark_stack up to reading the descriptor, or its end. */
  function DoReadDescr(s: State, id: nat): State
    requires id in s.helpers && s.helpers[id].pc.Stealing?
  {
    var h := s.helpers[id];
    var pc := h.pc;
    if pc.p <= pc.high && pc.count <= pc.max && pc.p < |s.stack| then
      AtPc(s, id, if s.stack[pc.p].taken then Stealing(pc.p + 1, pc.high, pc.count, pc.max)
                  else Claiming(pc.p, pc.high, pc.count, pc.max))
    else With(s, id, h.(pc := Marking, first := pc.p))
  }

  /** Zeroing the descriptor and copying the entry; another helper may be doing the same. */
  function DoClaim(s: State, id: nat): State
    requires id in s.helpers && s.helpers[id].pc.Claiming? && s.helpers[id].pc.p < |s.stack|
  {
    var h := s.helpers[id];
    var pc, e := h.pc, s.stack[h.pc.p].entry;
    With(s.(stack := s.stack[pc.p := Shared(e, true)]), id,
         h.(pc := Stealing(pc.p + 1, pc.high, pc.count + 1 + e.len / 256, pc.max), local := h.local + [e]))
  }

  /** Take a range from the local stack: the words before k are scanned now, the words from j on stay. */
  function DoTakeRange(s: State, id: nat, k: nat, j: nat): State
    requires id in s.helpers && s.helpers[id].local != [] && j <= k <= |Last(s.helpers[id].local).targets|
  {
    var h := s.helpers[id];
    var e := Last(h.local);
    var rest := h.local[..|h.local| - 1];
    With(s, id, h.(cur := e.targets[..k],
                   local := if j == |e.targets| then rest else rest + [Entry(e.targets[j..], e.len)]))
  }

  function DoExamine(s: State, id: nat): State
    requires id in s.helpers && s.helpers[id].cur != []
  {
    var h := s.helpers[id];
    With(s, id, if h.cur[0] in s.marks then h.(cur := h.cur[1..]) else h.(unmarked := true))
  }

  /** Not atomic with the test before it: another helper may have marked the object meanwhile. */
  function DoSetMark(s: State, id: nat): State
    requires id in s.helpers && s.helpers[id].cur != []
  {
    var h := s.helpers[id];
    var (s', local) := PushLocal(s, h, h.cur[0]);
    With(s'.(marks := s.marks + {h.cur[0]}), id, h.(cur := h.cur[1..], unmarked := false, local := local))
  }

  function DoReturnAll(s: State, id: nat): State
    requires id in s.helpers
  {
    var h := s.helpers[id];
    With(GiveBack(s, h.local), id, h.(pc := AtLoop, local := []))
  }

  /** Share the load: the lower half of the local stack goes to the shared one. */
  function DoShareHalf(s: State, id: nat): State
    requires id in s.helpers && |s.helpers[id].local| > 2
  {
    var h := s.helpers[id];
    var k := (|h.local| - 1) / 2;
    With(GiveBack(s, h.local[..k]), id, h.(local := h.local[k..]))
  }

  function Next(s: State, a: Action): State
    requires Enabled(s, a)
  {
    match a
    case Begin => EnterMarkLocal(s.(firstNonempty := 0, active := 0, helperCount := 1, helpWanted := true), 0)
    case Join(id) => EnterMarkLocal(s.(helperCount := s.helperCount + 1), id)
    case ReadFirst(id) => DoReadFirst(s, id)
    case SwapFirst(id) => DoSwapFirst(s, id)
    case ReadTop(id) => DoReadTop(s, id)
    case LockIdle(id) => DoLockIdle(s, id)
    case TestWait(id) => DoTestWait(s, id)
    case Wake(id) => AtPc(s, id, Waiting).(lock := id)
    case Decide(id) => DoDecide(s, id)
    case ReadDescr(id) => DoReadDescr(s, id)
    case Claim(id) => DoClaim(s, id)
    case TakeRange(id, k, j) => DoTakeRange(s, id, k, j)
    case Examine(id) => DoExamine(s, id)
    case SetMark(id) => DoSetMark(s, id)
    case ReturnAll(id) => DoReturnAll(s, id)
    case ShareHalf(id) => DoShareHalf(s, id)
    case LocalDone(id) => AtPc(s, id, AtLoop)
    case Return => s.(returned := true)
  }

  // ---- Pending work

  ghost predicate InEntries(es: seq<Entry>, c: Obj) {
    exists i :: 0 <= i < |es| && c in es[i].targets
  }

  ghost predicate InShared(stack: seq<Shared>, c: Obj) {
    exists i :: 0 <= i < |stack| && !stack[i].taken && c in stack[i].entry.targets
  }

  /** Some shared entry, taken or not, refers to c. */
  ghost predicate WasShared(stack: seq<Shared>, c: Obj) {
    exists i :: 0 <= i < |stack| && c in stack[i].entry.targets
  }

  ghost predicate HelperHas(h: Helper, c: Obj) {
    c in h.cur || InEntries(h.local, c)
  }

  /** Someone will still examine a word that refers to c. */
  ghost predicate Pending(s: State, c: Obj) {
    InShared(s.stack, c) || exists id :: id in s.helpers && HelperHas(s.helpers[id], c)
  }

  ghost predicate NoWork(h: Helper) {
    h.local == [] && h.cur == [] && !h.unmarked
  }

  /** Nothing is left to do: every shared entry was taken and every local stack is empty. */
  ghost predicate Quiet(s: State) {
    && (forall i :: 0 <= i < |s.stack| ==> s.stack[i].taken)
    && (forall id :: id in s.helpers ==> NoWork(s.helpers[id]) && !s.helpers[id].pc.Claiming?)
  }

  // ---- The invariant

  ghost predicate TakenBelow(stack: seq<Shared>, n: nat) {
    n <= |stack| && forall i :: 0 <= i < n ==> stack[i].taken
  }

  ghost predicate HelperOk(s: State, h: Helper) {
    && (Inside(h.pc) ==> TakenBelow(s.stack, h.first))
    && (h.pc.Stealing? ==> h.first <= h.pc.p && TakenBelow(s.stack, h.pc.p) && h.pc.high <= Top(s))
    && (h.pc.Claiming? ==> h.first <= h.pc.p <= h.pc.high <= Top(s) && TakenBelow(s.stack, h.pc.p))
    && (!h.pc.Marking? ==> h.cur == [] && !h.unmarked)
    && (!h.pc.Marking? && !h.pc.Stealing? && !h.pc.Claiming? ==> h.local == [])
    && (h.unmarked ==> h.cur != [])
  }

  function ActiveIds(s: State): set<nat> {
    set id | id in s.helpers && Active(s.helpers[id].pc)
  }

  function InsideIds(s: State): set<nat> {
    set id | id in s.helpers && Inside(s.helpers[id].pc)
  }

  ghost predicate Counts(s: State) {
    && s.active == |ActiveIds(s)| && s.helperCount == |InsideIds(s)|
    && (s.lock == FREE || s.lock in s.helpers)
    && (forall id :: id in s.helpers ==> (s.lock == id <==> s.helpers[id].pc.Waiting? || s.helpers[id].pc.Deciding?))
  }

  /** No child of a marked object and no target of `wanted` is forgotten. */
  ghost predicate NothingLost(s: State, wanted: set<Obj>) {
    !s.invalid ==>
      && (forall o, c :: o in s.marks && c in Children(s, o) ==> c in s.marks || Pending(s, c))
      && (forall c :: c in wanted ==> c in s.marks || Pending(s, c))
  }

  /** Only objects of `bound` get marked. */
  ghost predicate Within(s: State, bound: set<Obj>) {
    && s.marks <= bound
    && (forall c :: WasShared(s.stack, c) ==> c in bound)
    && (forall id, c :: id in s.helpers && HelperHas(s.helpers[id], c) ==> c in bound)
    && (forall o, c :: o in bound && c in Children(s, o) ==> c in bound)
  }

  ghost predicate SomeoneLeft(s: State) {
    exists id :: id in s.helpers && s.helpers[id].pc.Left?
  }

  ghost predicate Inv(s: State, wanted: set<Obj>, bound: set<Obj>) {
    && TakenBelow(s.stack, s.firstNonempty)
    && (forall id :: id in s.helpers ==> HelperOk(s, s.helpers[id]))
    && Counts(s)
    && NothingLost(s, wanted)
    && Within(s, bound)
    && (SomeoneLeft(s) || s.returned ==> Quiet(s))
  }

  // ---- Steps that change one helper

  function B(b: bool): int { if b then 1 else 0 }

  /** The work that helper h and the shared stack hold between them. */
  ghost predicate Work(stack: seq<Shared>, h: Helper, c: Obj) {
    InShared(stack, c) || HelperHas(h, c)
  }

  ghost predicate Grows(stack: seq<Shared>, stack': seq<Shared>) {
    |stack| <= |stack'| && forall i :: 0 <= i < |stack| && stack[i].taken ==> stack'[i].taken
  }

  /** t differs from s in helper id, and in the shared variables in ways that keep the counts and the lock right. */
  ghost predicate Updates(s: State, t: State, id: nat) {
    && id in s.helpers && id in t.helpers
    && t.helpers == s.helpers[id := t.helpers[id]]
    && t.children == s.children
    && Grows(s.stack, t.stack)
    && TakenBelow(t.stack, t.firstNonempty)
    && HelperOk(t, t.helpers[id])
    && (var pc, pc' := s.helpers[id].pc, t.helpers[id].pc;
        && t.active == s.active + B(Active(pc')) - B(Active(pc))
        && t.helperCount == s.helperCount + B(Inside(pc')) - B(Inside(pc))
        && (if pc'.Waiting? || pc'.Deciding? then t.lock == id && (s.lock == FREE || s.lock == id)
            else t.lock == (if pc.Waiting? || pc.Deciding? then FREE else s.lock)))
  }

  /** No pending word is lost, and a newly marked object's words are pending. */
  ghost predicate KeepsWork(s: State, t: State, id: nat)
    requires id in s.helpers && id in t.helpers
  {
    && s.marks <= t.marks && (s.invalid ==> t.invalid)
    && (!t.invalid ==> forall c :: Work(s.stack, s.helpers[id], c) ==> c in t.marks || Work(t.stack, t.helpers[id], c))
    && (!t.invalid ==> forall o, c :: o in t.marks && o !in s.marks && c in Children(s, o) ==>
          Work(t.stack, t.helpers[id], c))
  }

  ghost predicate Held(stack: seq<Shared>, h: Helper, c: Obj) {
    WasShared(stack, c) || HelperHas(h, c)
  }

  /** Nothing comes from nowhere: a helper holds what it or the shared stack held before, or the words of an object
      referred to from there, and marks only such objects. */
  ghost predicate NewWork(s: State, t: State, id: nat)
    requires id in s.helpers && id in t.helpers
  {
    && (forall o :: o in t.marks ==> o in s.marks || Held(s.stack, s.helpers[id], o))
    && (forall c :: Held(t.stack, t.helpers[id], c) ==>
          || Held(s.stack, s.helpers[id], c)
          || exists o :: Held(s.stack, s.helpers[id], o) && c in Children(s, o))
  }

  lemma CardinalityUpdate(x: set<nat>, id: nat, b: bool)
    ensures |if b then x + {id} else x - {id}| == |x| + B(b) - B(id in x)
  {
  }

  lemma IdsUpdated(s: State, t: State, id: nat)
    requires id in s.helpers && id in t.helpers && t.helpers == s.helpers[id := t.helpers[id]]
    ensures ActiveIds(t) == if Active(t.helpers[id].pc) then ActiveIds(s) + {id} else ActiveIds(s) - {id}
    ensures InsideIds(t) == if Inside(t.helpers[id].pc) then InsideIds(s) + {id} else InsideIds(s) - {id}
  {
  }

  lemma CountsKept(s: State, t: State, id: nat)
    requires Counts(s) && Updates(s, t, id)
    ensures Counts(t)
  {
    hide HelperOk, Grows, TakenBelow, Active, Inside, ActiveIds, InsideIds;
    IdsUpdated(s, t, id);
    IdKnown(s, id);
    CardinalityUpdate(ActiveIds(s), id, Active(t.helpers[id].pc));
    CardinalityUpdate(InsideIds(s), id, Inside(t.helpers[id].pc));
  }

  lemma IdKnown(s: State, id: nat)
    requires id in s.helpers
    ensures id in ActiveIds(s) <==> Active(s.helpers[id].pc)
    ensures id in InsideIds(s) <==> Inside(s.helpers[id].pc)
  {
  }

  /** What the invariant says about one helper and the lock. */
  lemma Known(s: State, id: nat, wanted: set<Obj>, bound: set<Obj>)
    requires Inv(s, wanted, bound) && id in s.helpers
    ensures HelperOk(s, s.helpers[id])
    ensures s.lock == id <==> s.helpers[id].pc.Waiting? || s.helpers[id].pc.Deciding?
    ensures TakenBelow(s.stack, s.firstNonempty)
  {
  }

  lemma PendingKept(s: State, t: State, id: nat, c: Obj)
    requires Updates(s, t, id) && KeepsWork(s, t, id) && !t.invalid
    requires Pending(s, c)
    ensures c in t.marks || Pending(t, c)
  {
    if Work(s.stack, s.helpers[id], c) {
      assert id in t.helpers;
    } else {
      var i :| i in s.helpers && HelperHas(s.helpers[i], c);
      assert i in t.helpers && HelperHas(t.helpers[i], c);
    }
  }

  lemma NothingLostKept(s: State, t: State, id: nat, wanted: set<Obj>)
    requires NothingLost(s, wanted) && Updates(s, t, id) && KeepsWork(s, t, id)
    ensures NothingLost(t, wanted)
  {
    if !t.invalid {
      forall o, c | o in t.marks && c in Children(t, o) ensures c in t.marks || Pending(t, c) {
        if o in s.marks {
          if c !in s.marks {
            PendingKept(s, t, id, c);
          }
        } else {
          assert Work(t.stack, t.helpers[id], c);
        }
      }
      forall c | c in wanted ensures c in t.marks || Pending(t, c) {
        if c !in s.marks {
          PendingKept(s, t, id, c);
        }
      }
    }
  }

  lemma WithinKept(s: State, t: State, id: nat, bound: set<Obj>)
    requires Within(s, bound) && Updates(s, t, id) && NewWork(s, t, id)
    ensures Within(t, bound)
  {
    forall c | Held(s.stack, s.helpers[id], c) ensures c in bound {}
    forall o | o in t.marks ensures o in bound {}
    forall c | WasShared(t.stack, c) ensures c in bound {
      assert Held(t.stack, t.helpers[id], c);
    }
    forall i, c | i in t.helpers && HelperHas(t.helpers[i], c) ensures c in bound {
      if i == id {
        assert Held(t.stack, t.helpers[id], c);
      } else {
        assert i in s.helpers && HelperHas(s.helpers[i], c);
      }
    }
  }

  /** Once someone left, a step that neither leaves nor claims finds nothing to do and keeps it that way. */
  ghost predicate StaysQuiet(s: State, t: State, id: nat)
    requires id in s.helpers && id in t.helpers
  {
    && (t.helpers[id].pc.Left? || t.returned ==> SomeoneLeft(s) || s.returned || Quiet(t))
    && (Quiet(s) ==> t.stack == s.stack && NoWork(t.helpers[id]) && !t.helpers[id].pc.Claiming?)
  }

  lemma QuietKept(s: State, t: State, id: nat)
    requires Updates(s, t, id) && StaysQuiet(s, t, id)
    requires SomeoneLeft(s) || s.returned ==> Quiet(s)
    ensures SomeoneLeft(t) || t.returned ==> Quiet(t)
  {
  }

  lemma OthersStayOk(s: State, t: State, id: nat)
    requires Updates(s, t, id) && forall i :: i in s.helpers ==> HelperOk(s, s.helpers[i])
    ensures forall i :: i in t.helpers ==> HelperOk(t, t.helpers[i])
  {
  }

  /** The invariant holds again; marks only grow, and whoever left has left for good. */
  ghost predicate Good(s: State, t: State, wanted: set<Obj>, bound: set<Obj>) {
    && Inv(t, wanted, bound)
    && s.marks <= t.marks && t.children == s.children && (SomeoneLeft(s) ==> SomeoneLeft(t))
  }

  lemma LeavingIsFinal(s: State, t: State, id: nat)
    requires Updates(s, t, id) && !s.helpers[id].pc.Left?
    ensures SomeoneLeft(s) ==> SomeoneLeft(t)
  {
    if SomeoneLeft(s) {
      var i :| i in s.helpers && s.helpers[i].pc.Left?;
      assert i in t.helpers && t.helpers[i].pc.Left?;
    }
  }

  lemma UpdateKeeps(s: State, t: State, id: nat, wanted: set<Obj>, bound: set<Obj>)
    requires Inv(s, wanted, bound) && Updates(s, t, id)
    requires KeepsWork(s, t, id) && NewWork(s, t, id) && StaysQuiet(s, t, id) && !s.helpers[id].pc.Left?
    ensures Good(s, t, wanted, bound)
  {
    LeavingIsFinal(s, t, id);
    hide NothingLost, Counts, Within, Quiet, HelperOk, KeepsWork, NewWork, StaysQuiet, SomeoneLeft;
    CountsKept(s, t, id);
    NothingLostKept(s, t, id, wanted);
    WithinKept(s, t, id, bound);
    OthersStayOk(s, t, id);
    QuietKept(s, t, id);
  }

  // ---- The steps one by one

  /** A step that moves a helper without touching any work. */
  lemma MoveKeeps(s: State, t: State, id: nat, wanted: set<Obj>, bound: set<Obj>)
    requires Inv(s, wanted, bound) && Updates(s, t, id)
    requires t.stack == s.stack && t.marks == s.marks && t.invalid == s.invalid && t.returned == s.returned
    requires t.helpers[id].local == s.helpers[id].local && t.helpers[id].cur == s.helpers[id].cur
    requires t.helpers[id].unmarked == s.helpers[id].unmarked
    requires !s.helpers[id].pc.Left? && (t.helpers[id].pc.Left? ==> Quiet(t))
    requires t.helpers[id].pc.Claiming? ==> !Quiet(s)
    ensures Good(s, t, wanted, bound)
  {
    hide HelperOk, Updates, Counts;
    assert id in s.helpers && id in t.helpers by { UpdatesIds(s, t, id); }
    UpdateKeeps(s, t, id, wanted, bound);
  }

  /** A move of an active helper that stays active, with no effect on shared variables. */
  lemma StayKeeps(s: State, id: nat, h: Helper, wanted: set<Obj>, bound: set<Obj>)
    requires Inv(s, wanted, bound) && id in s.helpers && TakenBelow(s.stack, s.firstNonempty)
    requires Active(s.helpers[id].pc) && Active(h.pc) && HelperOk(With(s, id, h), h)
    requires h.local == s.helpers[id].local && h.cur == s.helpers[id].cur && h.unmarked == s.helpers[id].unmarked
    requires h.pc.Claiming? ==> !Quiet(s)
    ensures Good(s, With(s, id, h), wanted, bound)
  {
    hide Inv, Quiet, HelperOk, TakenBelow, Good;
    MoveKeeps(s, With(s, id, h), id, wanted, bound);
  }

  lemma UpdatesIds(s: State, t: State, id: nat)
    requires Updates(s, t, id)
    ensures id in s.helpers && id in t.helpers
  {
  }

  lemma ReadFirstKeeps(s: State, id: nat, wanted: set<Obj>, bound: set<Obj>)
    requires Inv(s, wanted, bound) && Enabled(s, ReadFirst(id))
    ensures Good(s, DoReadFirst(s, id), wanted, bound)
  {
    hide Inv, Quiet, Good;
    Known(s, id, wanted, bound);
    StayKeeps(s, id, DoReadFirst(s, id).helpers[id], wanted, bound);
  }

  lemma SwapFirstKeeps(s: State, id: nat, wanted: set<Obj>, bound: set<Obj>)
    requires Inv(s, wanted, bound) && Enabled(s, SwapFirst(id))
    ensures Good(s, DoSwapFirst(s, id), wanted, bound)
  {
    hide Inv, Quiet, Good;
    Known(s, id, wanted, bound);
    MoveKeeps(s, DoSwapFirst(s, id), id, wanted, bound);
  }

  lemma ReadTopKeeps(s: State, id: nat, wanted: set<Obj>, bound: set<Obj>)
    requires Inv(s, wanted, bound) && Enabled(s, ReadTop(id))
    ensures Good(s, DoReadTop(s, id), wanted, bound)
  {
    hide Inv, Quiet, Good;
    Known(s, id, wanted, bound);
    StayKeeps(s, id, DoReadTop(s, id).helpers[id], wanted, bound);
  }

  lemma LockIdleKeeps(s: State, id: nat, wanted: set<Obj>, bound: set<Obj>)
    requires Inv(s, wanted, bound) && Enabled(s, LockIdle(id))
    ensures Good(s, DoLockIdle(s, id), wanted, bound)
  {
    hide Inv, Quiet, Good;
    Known(s, id, wanted, bound);
    var h := s.helpers[id];
    if Top(s) - h.first + 1 == 0 {
      MoveKeeps(s, DoLockIdle(s, id), id, wanted, bound);
    } else {
      MoveKeeps(s, DoLockIdle(s, id), id, wanted, bound);
    }
  }

  lemma TestWaitKeeps(s: State, id: nat, wanted: set<Obj>, bound: set<Obj>)
    requires Inv(s, wanted, bound) && Enabled(s, TestWait(id))
    ensures Good(s, DoTestWait(s, id), wanted, bound)
  {
    hide Inv, Quiet, Good;
    Known(s, id, wanted, bound);
    var h := s.helpers[id];
    if s.active > 0 && s.firstNonempty > Top(s) {
      MoveKeeps(s, DoTestWait(s, id), id, wanted, bound);
    } else {
      MoveKeeps(s, DoTestWait(s, id), id, wanted, bound);
    }
  }

  lemma WakeKeeps(s: State, id: nat, wanted: set<Obj>, bound: set<Obj>)
    requires Inv(s, wanted, bound) && Enabled(s, Wake(id))
    ensures Good(s, Next(s, Wake(id)), wanted, bound)
  {
    hide Inv, Quiet, Good;
    Known(s, id, wanted, bound);
    MoveKeeps(s, Next(s, Wake(id)), id, wanted, bound);
  }

  /** When a helper finds that nobody is active and that all shared entries were passed, nothing is left to do. */
  lemma LeavingIsQuiet(s: State, id: nat, wanted: set<Obj>, bound: set<Obj>)
    requires Inv(s, wanted, bound) && Enabled(s, Decide(id))
    requires s.active == 0 && s.firstNonempty > Top(s)
    ensures Quiet(s)
  {
    assert ActiveIds(s) == {};
    forall i | i in s.helpers ensures NoWork(s.helpers[i]) && !s.helpers[i].pc.Claiming? {
      assert i !in ActiveIds(s);
      assert HelperOk(s, s.helpers[i]);
    }
  }

  lemma QuietMoves(s: State, t: State, id: nat)
    requires Quiet(s) && id in s.helpers && t.stack == s.stack &&
             t.helpers == s.helpers[id := s.helpers[id].(pc := Left)]
    ensures Quiet(t)
  {
  }

  lemma DecideKeeps(s: State, id: nat, wanted: set<Obj>, bound: set<Obj>)
    requires Inv(s, wanted, bound) && Enabled(s, Decide(id))
    ensures Good(s, DoDecide(s, id), wanted, bound)
  {
    hide Inv, Quiet, Good;
    Known(s, id, wanted, bound);
    var t := DoDecide(s, id);
    if s.active == 0 && s.firstNonempty > Top(s) {
      LeavingIsQuiet(s, id, wanted, bound);
      QuietMoves(s, t, id);
    }
    MoveKeeps(s, t, id, wanted, bound);
  }

  lemma NotAllTaken(s: State, p: nat)
    ensures p < |s.stack| && !s.stack[p].taken ==> !Quiet(s)
  {
  }

  lemma ReadDescrKeeps(s: State, id: nat, wanted: set<Obj>, bound: set<Obj>)
    requires Inv(s, wanted, bound) && Enabled(s, ReadDescr(id))
    ensures Good(s, DoReadDescr(s, id), wanted, bound)
  {
    hide Inv, Quiet, Good;
    Known(s, id, wanted, bound);
    NotAllTaken(s, s.helpers[id].pc.p);
    StayKeeps(s, id, DoReadDescr(s, id).helpers[id], wanted, bound);
  }

  lemma LocalDoneKeeps(s: State, id: nat, wanted: set<Obj>, bound: set<Obj>)
    requires Inv(s, wanted, bound) && Enabled(s, LocalDone(id))
    ensures Good(s, Next(s, LocalDone(id)), wanted, bound)
  {
    hide Inv, Quiet, Good;
    Known(s, id, wanted, bound);
    MoveKeeps(s, Next(s, LocalDone(id)), id, wanted, bound);
  }

  lemma InEntriesConcat(xs: seq<Entry>, ys: seq<Entry>, c: Obj)
    ensures InEntries(xs + ys, c) <==> InEntries(xs, c) || InEntries(ys, c)
  {
    if InEntries(xs, c) {
      var i :| 0 <= i < |xs| && c in xs[i].targets;
      assert c in (xs + ys)[i].targets;
    }
    if InEntries(ys, c) {
      var i :| 0 <= i < |ys| && c in ys[i].targets;
      assert c in (xs + ys)[|xs| + i].targets;
    }
    if InEntries(xs + ys, c) {
      var i :| 0 <= i < |xs + ys| && c in (xs + ys)[i].targets;
      if i < |xs| {
        assert c in xs[i].targets;
      } else {
        assert c in ys[i - |xs|].targets;
      }
    }
  }

  lemma InEntriesPush(xs: seq<Entry>, e: Entry, c: Obj)
    ensures InEntries(xs + [e], c) <==> InEntries(xs, c) || c in e.targets
  {
    InEntriesConcat(xs, [e], c);
    if c in e.targets {
      assert c in [e][0].targets;
    }
  }

  lemma SharedAppend(stack: seq<Shared>, es: seq<Entry>, c: Obj)
    ensures InShared(stack + Untaken(es), c) <==> InShared(stack, c) || InEntries(es, c)
    ensures WasShared(stack + Untaken(es), c) <==> WasShared(stack, c) || InEntries(es, c)
  {
    var both := stack + Untaken(es);
    forall i | 0 <= i < |stack| ensures both[i] == stack[i] {}
    forall i | 0 <= i < |es| ensures both[|stack| + i] == Shared(es[i], false) {}
    if InEntries(es, c) {
      var i :| 0 <= i < |es| && c in es[i].targets;
      assert c in both[|stack| + i].entry.targets;
    }
    if WasShared(both, c) {
      var i :| 0 <= i < |both| && c in both[i].entry.targets && (InShared(both, c) ==> !both[i].taken);
      if i >= |stack| {
        assert c in es[i - |stack|].targets;
      }
    }
  }

  lemma GivenBack(s: State, es: seq<Entry>)
    ensures var t := GiveBack(s, es);
            && Grows(s.stack, t.stack) && (s.invalid ==> t.invalid)
            && (forall c :: !t.invalid ==> (InShared(t.stack, c) <==> InShared(s.stack, c) || InEntries(es, c)))
            && (forall c :: WasShared(t.stack, c) ==> WasShared(s.stack, c) || InEntries(es, c))
  {
    forall c
      ensures InShared(s.stack + Untaken(es), c) <==> InShared(s.stack, c) || InEntries(es, c)
      ensures WasShared(s.stack + Untaken(es), c) <==> WasShared(s.stack, c) || InEntries(es, c)
    {
      SharedAppend(s.stack, es, c);
    }
  }

  /** What holds after any step of helper id that keeps it inside and active. */
  lemma WorkStepKeeps(s: State, t: State, id: nat, wanted: set<Obj>, bound: set<Obj>)
    requires Inv(s, wanted, bound) && id in s.helpers && id in t.helpers
    requires t == s.(stack := t.stack, marks := t.marks, invalid := t.invalid, notified := t.notified,
                     helpers := s.helpers[id := t.helpers[id]])
    requires Grows(s.stack, t.stack) && TakenBelow(t.stack, t.firstNonempty) && HelperOk(t, t.helpers[id])
    requires Active(s.helpers[id].pc) && Active(t.helpers[id].pc)
    requires KeepsWork(s, t, id) && NewWork(s, t, id)
    requires Quiet(s) ==> t.stack == s.stack && NoWork(t.helpers[id]) && !t.helpers[id].pc.Claiming?
    ensures Good(s, t, wanted, bound)
  {
    hide Inv, HelperOk, KeepsWork, NewWork, Quiet;
    Known(s, id, wanted, bound);
    UpdateKeeps(s, t, id, wanted, bound);
  }

  /** Zeroing a descriptor takes nothing from the shared stack but what that entry refers to. */
  lemma ClaimShared(stack: seq<Shared>, p: nat, c: Obj)
    requires p < |stack|
    ensures var stack' := stack[p := Shared(stack[p].entry, true)];
            && (InShared(stack, c) ==> InShared(stack', c) || c in stack[p].entry.targets)
            && (c in stack[p].entry.targets ==> WasShared(stack, c))
            && (WasShared(stack', c) ==> WasShared(stack, c))
  {
    var stack' := stack[p := Shared(stack[p].entry, true)];
    if InShared(stack, c) {
      var i :| 0 <= i < |stack| && !stack[i].taken && c in stack[i].entry.targets;
      assert i != p ==> stack'[i] == stack[i];
    }
    if WasShared(stack', c) {
      var i :| 0 <= i < |stack'| && c in stack'[i].entry.targets;
      assert c in stack[i].entry.targets;
    }
  }

  lemma ClaimKeeps(s: State, id: nat, wanted: set<Obj>, bound: set<Obj>)
    requires Inv(s, wanted, bound) && Enabled(s, Claim(id))
    ensures Good(s, DoClaim(s, id), wanted, bound)
  {
    hide Inv, Quiet, Good;
    Known(s, id, wanted, bound);
    var t, h := DoClaim(s, id), s.helpers[id];
    var p, e := h.pc.p, s.stack[h.pc.p].entry;
    forall c
      ensures InShared(s.stack, c) ==> InShared(t.stack, c) || c in e.targets
      ensures c in e.targets ==> WasShared(s.stack, c)
      ensures WasShared(t.stack, c) ==> WasShared(s.stack, c)
      ensures InEntries(t.helpers[id].local, c) <==> InEntries(h.local, c) || c in e.targets
    {
      InEntriesPush(h.local, e, c);
      ClaimShared(s.stack, p, c);
    }
    NotQuiet(s, id);
    WorkStepKeeps(s, t, id, wanted, bound);
  }

  lemma NotQuiet(s: State, id: nat)
    requires id in s.helpers && (s.helpers[id].pc.Claiming? || !NoWork(s.helpers[id]))
    ensures !Quiet(s)
  {
  }

  lemma TakeRangeKeeps(s: State, id: nat, k: nat, j: nat, wanted: set<Obj>, bound: set<Obj>)
    requires Inv(s, wanted, bound) && Enabled(s, TakeRange(id, k, j))
    ensures Good(s, DoTakeRange(s, id, k, j), wanted, bound)
  {
    hide Inv, Quiet, Good;
    Known(s, id, wanted, bound);
    var t, h := DoTakeRange(s, id, k, j), s.helpers[id];
    var e, rest := Last(h.local), h.local[..|h.local| - 1];
    assert h.local == rest + [e];
    forall c ensures HelperHas(h, c) <==> HelperHas(t.helpers[id], c) {
      InEntriesPush(rest, e, c);
      InEntriesPush(rest, Entry(e.targets[j..], e.len), c);
      assert c in e.targets <==> c in e.targets[..k] || c in e.targets[j..] by {
        assert e.targets == e.targets[..k] + e.targets[k..];
        assert e.targets[j..] == e.targets[j..k] + e.targets[k..];
      }
    }
    NotQuiet(s, id);
    WorkStepKeeps(s, t, id, wanted, bound);
  }

  lemma ExamineKeeps(s: State, id: nat, wanted: set<Obj>, bound: set<Obj>)
    requires Inv(s, wanted, bound) && Enabled(s, Examine(id))
    ensures Good(s, DoExamine(s, id), wanted, bound)
  {
    hide Inv, Quiet, Good;
    Known(s, id, wanted, bound);
    var t, h := DoExamine(s, id), s.helpers[id];
    assert h.cur == [h.cur[0]] + h.cur[1..];
    NotQuiet(s, id);
    WorkStepKeeps(s, t, id, wanted, bound);
  }

  lemma SetMarkKeeps(s: State, id: nat, wanted: set<Obj>, bound: set<Obj>)
    requires Inv(s, wanted, bound) && Enabled(s, SetMark(id))
    ensures Good(s, DoSetMark(s, id), wanted, bound)
  {
    hide Inv, Quiet, Good;
    Known(s, id, wanted, bound);
    var t, h := DoSetMark(s, id), s.helpers[id];
    var o := h.cur[0];
    assert h.cur == [o] + h.cur[1..];
    var cs := Children(s, o);
    forall c
      ensures !t.invalid && cs != [] ==> (InEntries(t.helpers[id].local, c) <==> InEntries(h.local, c) || c in cs)
      ensures InEntries(t.helpers[id].local, c) ==> InEntries(h.local, c) || c in cs
    {
      InEntriesPush(h.local, Entry(cs, |cs|), c);
      if |h.local| >= LOCAL_MARK_STACK_SIZE {
        var k := |h.local| - GC_MARK_STACK_DISCARDS;
        InEntriesPush(h.local[..k], Entry(cs, |cs|), c);
        InEntriesConcat(h.local[..k], h.local[k..], c);
        assert h.local == h.local[..k] + h.local[k..];
      }
    }
    assert HelperHas(h, o);
    NotQuiet(s, id);
    WorkStepKeeps(s, t, id, wanted, bound);
  }

  lemma ReturnAllKeeps(s: State, id: nat, wanted: set<Obj>, bound: set<Obj>)
    requires Inv(s, wanted, bound) && Enabled(s, ReturnAll(id))
    ensures Good(s, DoReturnAll(s, id), wanted, bound)
  {
    hide Inv, Quiet, Good;
    Known(s, id, wanted, bound);
    var t, h := DoReturnAll(s, id), s.helpers[id];
    GivenBack(s, h.local);
    NotQuiet(s, id);
    WorkStepKeeps(s, t, id, wanted, bound);
  }

  lemma ShareHalfKeeps(s: State, id: nat, wanted: set<Obj>, bound: set<Obj>)
    requires Inv(s, wanted, bound) && Enabled(s, ShareHalf(id))
    ensures Good(s, DoShareHalf(s, id), wanted, bound)
  {
    hide Inv, Quiet, Good;
    Known(s, id, wanted, bound);
    var t, h := DoShareHalf(s, id), s.helpers[id];
    var k := (|h.local| - 1) / 2;
    GivenBack(s, h.local[..k]);
    assert h.local == h.local[..k] + h.local[k..];
    forall c ensures InEntries(h.local, c) <==> InEntries(h.local[..k], c) || InEntries(h.local[k..], c) {
      InEntriesConcat(h.local[..k], h.local[k..], c);
    }
    NotQuiet(s, id);
    WorkStepKeeps(s, t, id, wanted, bound);
  }

  lemma EnterKeeps(s: State, a: Action, wanted: set<Obj>, bound: set<Obj>)
    requires Inv(s, wanted, bound) && Enabled(s, a) && (a.Begin? || a.Join?)
    ensures Good(s, Next(s, a), wanted, bound)
  {
    var id := if a.Begin? then 0 else a.id;
    hide Inv, Quiet, Good;
    Known(s, id, wanted, bound);
    MoveKeeps(s, Next(s, a), id, wanted, bound);
  }

  lemma ReturnKeeps(s: State, wanted: set<Obj>, bound: set<Obj>)
    requires Inv(s, wanted, bound) && Enabled(s, Return)
    ensures Good(s, Next(s, Return), wanted, bound)
  {
    var t := Next(s, Return);
    assert s.helpers[0].pc.Left? && SomeoneLeft(s);
    forall c ensures Pending(t, c) <==> Pending(s, c) {}
    assert ActiveIds(t) == ActiveIds(s) && InsideIds(t) == InsideIds(s);
    forall i | i in t.helpers ensures HelperOk(t, t.helpers[i]) {
      assert HelperOk(s, s.helpers[i]);
    }
  }

  /** Every step of every helper keeps the invariant. */
  lemma NextKeeps(s: State, a: Action, wanted: set<Obj>, bound: set<Obj>)
    requires Inv(s, wanted, bound) && Enabled(s, a)
    ensures Good(s, Next(s, a), wanted, bound)
  {
    hide Inv;
    match a
    case Begin => EnterKeeps(s, a, wanted, bound);
    case Join(_) => EnterKeeps(s, a, wanted, bound);
    case ReadFirst(id) => ReadFirstKeeps(s, id, wanted, bound);
    case SwapFirst(id) => SwapFirstKeeps(s, id, wanted, bound);
    case ReadTop(id) => ReadTopKeeps(s, id, wanted, bound);
    case LockIdle(id) => LockIdleKeeps(s, id, wanted, bound);
    case TestWait(id) => TestWaitKeeps(s, id, wanted, bound);
    case Wake(id) => WakeKeeps(s, id, wanted, bound);
    case Decide(id) => DecideKeeps(s, id, wanted, bound);
    case ReadDescr(id) => ReadDescrKeeps(s, id, wanted, bound);
    case Claim(id) => ClaimKeeps(s, id, wanted, bound);
    case TakeRange(id, k, j) => TakeRangeKeeps(s, id, k, j, wanted, bound);
    case Examine(id) => ExamineKeeps(s, id, wanted, bound);
    case SetMark(id) => SetMarkKeeps(s, id, wanted, bound);
    case ReturnAll(id) => ReturnAllKeeps(s, id, wanted, bound);
    case ShareHalf(id) => ShareHalfKeeps(s, id, wanted, bound);
    case LocalDone(id) => LocalDoneKeeps(s, id, wanted, bound);
    case Return => ReturnKeeps(s, wanted, bound);
  }

  // ---- Whole runs

  /** The state in which GC_mark_some calls GC_do_parallel_mark: no helper has started, nothing was taken, and every
      unmarked child of a marked object, and every wanted object, is on the shared stack. */
  ghost predicate Ready(s: State, wanted: set<Obj>) {
    && Enabled(s, Begin) && !s.returned && !s.invalid
    && (forall id :: id in s.helpers ==> s.helpers[id].pc.Outside? && NoWork(s.helpers[id]))
    && (forall i :: 0 <= i < |s.stack| ==> !s.stack[i].taken)
    && (forall o, c :: o in s.marks && c in Children(s, o) ==> c in s.marks || InShared(s.stack, c))
    && (forall c :: c in wanted ==> c in s.marks || InShared(s.stack, c))
  }

  predicate Does(s: State, a: Action, t: State) {
    Enabled(s, a) && t == Next(s, a)
  }

  ghost predicate Steps(s: State, t: State) {
    exists a :: Does(s, a, t)
  }

  ghost predicate StepOf(run: seq<State>, i: nat)
    requires 0 < i < |run|
  {
    Steps(run[i - 1], run[i])
  }

  ghost predicate Run(run: seq<State>) {
    run != [] && forall i :: 0 < i < |run| ==> StepOf(run, i)
  }

  /** A set that holds everything that marking may legitimately reach. */
  ghost predicate Bounds(s: State, bound: set<Obj>) {
    && s.marks <= bound
    && (forall c :: WasShared(s.stack, c) ==> c in bound)
    && (forall o, c :: o in bound && c in Children(s, o) ==> c in bound)
  }

  /** GC_first_nonempty may hold anything before the run; starting sets it. */
  lemma BeginEstablishes(s: State, wanted: set<Obj>, bound: set<Obj>)
    requires Ready(s, wanted) && Bounds(s, bound)
    ensures Inv(Next(s, Begin), wanted, bound)
  {
    var r := s.(firstNonempty := 0);
    assert Next(s, Begin) == Next(r, Begin);
    assert ActiveIds(r) == {} && InsideIds(r) == {};
    forall id, c | id in r.helpers ensures !HelperHas(r.helpers[id], c) {
      assert NoWork(r.helpers[id]);
    }
    assert NothingLost(r, wanted);
    assert Inv(r, wanted, bound);
    EnterKeeps(r, Begin, wanted, bound);
  }

  lemma {:induction false} RunKeeps(s: State, run: seq<State>, i: nat, wanted: set<Obj>, bound: set<Obj>)
    requires Ready(s, wanted) && Bounds(s, bound)
    requires Run(run) && run[0] == Next(s, Begin) && i < |run|
    ensures Inv(run[i], wanted, bound)
    ensures run[i].children == s.children && s.marks <= run[i].marks
  {
    hide Inv;
    if i == 0 {
      BeginEstablishes(s, wanted, bound);
    } else {
      RunKeeps(s, run, i - 1, wanted, bound);
      assert StepOf(run, i);
      var a :| Does(run[i - 1], a, run[i]);
      NextKeeps(run[i - 1], a, wanted, bound);
    }
  }

  /** Termination is detected correctly, for any number of helpers and any interleaving: as soon as one helper has
      left GC_mark_local, every shared entry was taken and every local stack is empty, and so it stays. */
  lemma LeftMeansQuiet(s: State, run: seq<State>, i: nat, j: nat, wanted: set<Obj>)
    requires Ready(s, wanted) && Run(run) && run[0] == Next(s, Begin)
    requires i <= j < |run| && SomeoneLeft(run[i])
    ensures Quiet(run[i]) && Quiet(run[j])
    decreases j
  {
    var bound := WideBound(s);
    RunKeeps(s, run, i, wanted, bound);
    RunKeeps(s, run, j, wanted, bound);
    LeftStaysLeft(s, run, i, j, wanted, bound);
  }

  lemma {:induction false} LeftStaysLeft(s: State, run: seq<State>, i: nat, j: nat, wanted: set<Obj>, bound: set<Obj>)
    requires Ready(s, wanted) && Bounds(s, bound) && Run(run) && run[0] == Next(s, Begin)
    requires i <= j < |run| && SomeoneLeft(run[i])
    ensures SomeoneLeft(run[j])
    decreases j
  {
    hide Inv;
    if i < j {
      LeftStaysLeft(s, run, i, j - 1, wanted, bound);
      RunKeeps(s, run, j - 1, wanted, bound);
      assert StepOf(run, j);
      var a :| Does(run[j - 1], a, run[j]);
      NextKeeps(run[j - 1], a, wanted, bound);
    }
  }

  ghost function Union(xs: seq<seq<Obj>>): (r: set<Obj>)
    ensures forall i, c :: 0 <= i < |xs| && c in xs[i] ==> c in r
  {
    if xs == [] then {} else
      var r := (set c | c in xs[0]) + Union(xs[1..]);
      assert forall i, c :: 0 < i < |xs| && c in xs[i] ==> c in xs[1..][i - 1];
      r
  }

  /** Some bound always exists. */
  ghost function WideBound(s: State): (bound: set<Obj>)
    ensures Bounds(s, bound)
  {
    var kids := set o, c | o in s.children && c in s.children[o] :: c;
    var ts := seq(|s.stack|, i requires 0 <= i < |s.stack| => s.stack[i].entry.targets);
    assert forall i :: 0 <= i < |s.stack| ==> s.stack[i].entry.targets == ts[i];
    s.marks + kids + Union(ts)
  }

  /** GC_do_parallel_mark returned with the mark state still valid: no work was lost. The marked set is closed, holds
      everything that was wanted, and is contained in every closed set that holds the initial marks and targets. */
  lemma ParallelMarkIsExact(s: State, run: seq<State>, wanted: set<Obj>, bound: set<Obj>)
    requires Ready(s, wanted) && Bounds(s, bound)
    requires Run(run) && run[0] == Next(s, Begin)
    requires var t := run[|run| - 1]; t.returned && !t.invalid
    ensures var t := run[|run| - 1];
            && Quiet(t)
            && s.marks + wanted <= t.marks <= bound
            && forall o, c :: o in t.marks && c in Children(s, o) ==> c in t.marks
  {
    var t := run[|run| - 1];
    RunKeeps(s, run, |run| - 1, wanted, bound);
    forall c ensures !Pending(t, c) {
      QuietHasNoWork(t, c);
    }
    forall c | c in wanted ensures c in t.marks {}
  }

  lemma QuietHasNoWork(t: State, c: Obj)
    requires Quiet(t)
    ensures !Pending(t, c)
  {
  }
}
