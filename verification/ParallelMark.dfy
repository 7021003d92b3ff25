/**
 The parallel mark protocol as interleaved atomic steps.  Helpers take entries off a
 shared stack without a lock, so that two of them may take the same one; they hand work
 back, count themselves active or waiting, and leave under the mark lock.
 */
module ParallelModel {
  import opened Config
  import opened ObjectGraph

  type Thread = nat

  /** The thread that holds the allocation lock and starts mark cycles. */
  const MAIN: Thread := 0

  datatype Entry = Entry(loc: Loc, lo: nat, hi: nat)

  /** A slot of the shared stack; it is dead once its descriptor has been zeroed. */
  datatype Slot = Slot(entry: Entry, live: bool)

  /** What a helper holds in registers while it marks from its local stack. */
  datatype Cursor =
    | Idle
    | Scanning(range: Entry)
    | Unmarked(range: Entry, obj: Obj)   // the word at range.lo points to an object that was found unmarked
    | Pushing(range: Entry, obj: Obj)    // its mark bit has been set, it is about to be pushed

  datatype Pc =
    | Outside                                       // not in this cycle
    | Entering                                      // counted as a helper, not yet active
    | AtLoop                                        // top of the loop of GC_mark_local
    | GotFirst(first: nat)                          // has read the shared first-nonempty index
    | AtTop                                         // about to read the top of the shared stack
    | NeedLock                                      // saw nothing to take
    | Waiting                                       // inactive, until there is work or nobody is active
    | Stealing(next: nat, high: nat, taken: nat, max: nat, seen: bool)
    | Working(cursor: Cursor)                       // marking from the local stack
    | MainDone                                      // initiator: back from GC_mark_local
    | MainWait                                      // initiator: help withdrawn, waiting for the helpers

  datatype Helper = Helper(pc: Pc, myFirst: nat, local: seq<Entry>, myMarkNo: nat)

  datatype State = State(
    mem: Memory,
    marked: set<Obj>,
    invalid: bool,
    shared: seq<Slot>,
    size: nat,
    first: nat,
    helpWanted: bool,
    helperCount: nat,
    activeCount: nat,
    markNo: nat,
    threads: map<Thread, Helper>)

  const ENTRIES_TO_GET: nat := 5

  const LOCAL_MARK_STACK_SIZE: nat := HBLKSIZE
  /** Ranges of more words than this are halved, to be shared. */
  const SHARE_WORDS: nat := 2048 / WORD_BYTES
  /** Number of marker threads besides the initiator. */
  const MARKERS_M1: nat

  predicate IsActive(pc: Pc) {
    pc.AtLoop? || pc.GotFirst? || pc.AtTop? || pc.NeedLock? || pc.Stealing? || pc.Working?
  }

  predicate IsHelping(pc: Pc) {
    IsActive(pc) || pc.Entering? || pc.Waiting?
  }

  // -------------------------------------------------------------------- steps

  datatype Step =
    | Begin(mem: Memory, marked: set<Obj>, stack: seq<Entry>)
    | SkipCycle(t: Thread)
    | Join(t: Thread)
    | Enter(t: Thread)
    | ReadFirst(t: Thread)
    | FixFirst(t: Thread)
    | ReadTop(t: Thread)
    | LockTop(t: Thread)
    | Wake(t: Thread)
    | Leave(t: Thread)
    | StealRead(t: Thread)
    | StealTake(t: Thread)
    | StealEnd(t: Thread)
    | SplitLocal(t: Thread)
    | TakeLocal(t: Thread)
    | ScanWord(t: Thread)
    | SetMark(t: Thread)
    | PushMarked(t: Thread)
    | RangeEnd(t: Thread)
    | ReturnAll(t: Thread)
    | ReturnBottom(t: Thread)
    | LocalEmpty(t: Thread)
    | WithdrawHelp
    | Finish

  function Pc_(s: State, t: Thread): Pc
    requires t in s.threads
  {
    s.threads[t].pc
  }

  /** The condition under which starting a cycle aborts. */
  predicate BadStart(s: State) {
    s.helpWanted || s.activeCount != 0 || s.helperCount != 0
  }

  ghost predicate EntryOk(mem: Memory, e: Entry) {
    e.loc in mem && e.lo < e.hi <= |mem[e.loc]|
  }

  ghost predicate OnEntries(stack: seq<Entry>, l: Loc, k: nat) {
    exists i :: 0 <= i < |stack| && Holds(stack[i], l, k)
  }

  function Width(e: Entry): nat {
    if e.lo <= e.hi then e.hi - e.lo else 0
  }

  function Last(stack: seq<Entry>): Entry
    requires stack != []
  {
    stack[|stack| - 1]
  }

  predicate Holds(e: Entry, l: Loc, k: nat) {
    e.loc == l && e.lo <= k < e.hi
  }

  ghost predicate White(mem: Memory, marked: set<Obj>, l: Loc, k: nat) {
    && l in mem && k < |mem[l]| && mem[l][k].To? && mem[l][k].obj !in marked
    && (l.InRoot? || l.obj in marked)
  }

  /** A mark phase whose roots have been pushed: what is not marked yet is on the stack. */
  ghost predicate RootsArePushed(mem: Memory, marked: set<Obj>, stack: seq<Entry>) {
    && (forall i :: 0 <= i < |stack| ==> EntryOk(mem, stack[i]))
    && (forall l, k :: White(mem, marked, l, k) ==> OnEntries(stack, l, k))
    && (forall l, k :: l in mem && 0 <= k < |mem[l]| && mem[l][k].To? ==> InHeap(mem[l][k].obj) in mem)
  }

  ghost predicate Enabled(s: State, step: Step) {
    match step
    case Begin(mem, marked, stack) =>
      && MAIN in s.threads && Pc_(s, MAIN).Outside? && !BadStart(s)
      && RootsArePushed(mem, marked, stack) && |stack| <= s.size
    case SkipCycle(t) =>
      && t != MAIN && t in s.threads && Pc_(s, t).Outside?
      && (|| s.threads[t].myMarkNo < s.markNo
          || (s.helpWanted && s.markNo == s.threads[t].myMarkNo && s.helperCount > MARKERS_M1))
    case Join(t) =>
      && t != MAIN && t in s.threads && Pc_(s, t).Outside?
      && s.helpWanted && s.markNo == s.threads[t].myMarkNo && s.helperCount <= MARKERS_M1
    case Enter(t) => t in s.threads && Pc_(s, t).Entering?
    case ReadFirst(t) => t in s.threads && Pc_(s, t).AtLoop?
    case FixFirst(t) => t in s.threads && Pc_(s, t).GotFirst?
    case ReadTop(t) => t in s.threads && Pc_(s, t).AtTop?
    case LockTop(t) => t in s.threads && Pc_(s, t).NeedLock?
    case Wake(t) =>
      && t in s.threads && Pc_(s, t).Waiting?
      && s.first < |s.shared|
    case Leave(t) =>
      && t in s.threads && Pc_(s, t).Waiting?
      && s.activeCount == 0 && s.first >= |s.shared|
    case StealRead(t) =>
      && t in s.threads && Pc_(s, t).Stealing? && !Pc_(s, t).seen
      && Pc_(s, t).next < Pc_(s, t).high && Pc_(s, t).taken <= Pc_(s, t).max
    case StealTake(t) => t in s.threads && Pc_(s, t).Stealing? && Pc_(s, t).seen
    case StealEnd(t) =>
      && t in s.threads && Pc_(s, t).Stealing? && !Pc_(s, t).seen
      && (Pc_(s, t).next >= Pc_(s, t).high || Pc_(s, t).taken > Pc_(s, t).max)
    case SplitLocal(t) =>
      && t in s.threads && Pc_(s, t) == Working(Idle) && 0 < |s.threads[t].local| < LOCAL_MARK_STACK_SIZE
      && Width(Last(s.threads[t].local)) > SHARE_WORDS
    case TakeLocal(t) =>
      t in s.threads && Pc_(s, t) == Working(Idle) && s.threads[t].local != []
    case ScanWord(t) =>
      && t in s.threads && Pc_(s, t).Working? && Pc_(s, t).cursor.Scanning?
      && Pc_(s, t).cursor.range.lo < Pc_(s, t).cursor.range.hi
    case SetMark(t) => t in s.threads && Pc_(s, t).Working? && Pc_(s, t).cursor.Unmarked?
    case PushMarked(t) => t in s.threads && Pc_(s, t).Working? && Pc_(s, t).cursor.Pushing?
    case RangeEnd(t) =>
      && t in s.threads && Pc_(s, t).Working? && Pc_(s, t).cursor.Scanning?
      && Pc_(s, t).cursor.range.lo >= Pc_(s, t).cursor.range.hi
    case ReturnAll(t) =>
      && t in s.threads && Pc_(s, t) == Working(Idle)
      && |s.threads[t].local| > LOCAL_MARK_STACK_SIZE / 2
    case ReturnBottom(t) =>
      && t in s.threads && Pc_(s, t) == Working(Idle) && |s.threads[t].local| > 2
    case LocalEmpty(t) => t in s.threads && Pc_(s, t) == Working(Idle) && s.threads[t].local == []
    case WithdrawHelp => MAIN in s.threads && Pc_(s, MAIN).MainDone?
    case Finish => MAIN in s.threads && Pc_(s, MAIN).MainWait? && s.helperCount == 0
  }

  function WithThread(s: State, t: Thread, h: Helper): State {
    s.(threads := s.threads[t := h])
  }

  function Live(stack: seq<Entry>): seq<Slot> {
    seq(|stack|, i requires 0 <= i < |stack| => Slot(stack[i], true))
  }

  /** How much of its quota a helper uses up by taking an entry. */
  function StealCost(e: Entry): nat {
    1 + Width(e) * WORD_BYTES / 256
  }

  function StealFrom(h: Helper, top: nat): Helper
    requires h.myFirst <= top
  {
    var n := top - h.myFirst;
    h.(pc := Stealing(h.myFirst, top, 0, if n < 2 * ENTRIES_TO_GET then 1 else ENTRIES_TO_GET, false))
  }

  /** Copy entries back to the shared stack, or drop them if there is no room. */
  function Return(s: State, stack: seq<Entry>): State {
    if |s.shared| + |stack| > s.size then s.(invalid := true)
    else s.(shared := s.shared + Live(stack))
  }

  /** Take the top of a local stack, all of it or the head of a long range. */
  function TakeTop(h: Helper): Helper
    requires h.local != []
  {
    var n := |h.local| - 1;
    var e := h.local[n];
    if e.hi >= e.lo + SPLIT_RANGE_WORDS then
      var cut := e.lo + SPLIT_RANGE_WORDS - 1;
      h.(local := h.local[..n] + [e.(lo := cut)], pc := Working(Scanning(e.(hi := cut))))
    else
      h.(local := h.local[..n], pc := Working(Scanning(e)))
  }

  /** Push an object's words on a full or not so full local stack. */
  function PushLocal(local: seq<Entry>, e: Entry): seq<Entry> {
    if |local| < LOCAL_MARK_STACK_SIZE then local + [e]
    else local[..if |local| < MARK_STACK_DISCARDS then 0 else |local| - MARK_STACK_DISCARDS] + [e]
  }

  function Words(mem: Memory, l: Loc): nat {
    if l in mem then |mem[l]| else 0
  }

  function Halves(e: Entry): seq<Entry> {
    var mid := e.lo + Width(e) / 2;
    [e.(hi := mid + 1), e.(lo := mid)]
  }

  function Apply(s: State, step: Step): State
    requires Enabled(s, step)
  {
    match step
    case Begin(mem, marked, stack) =>
      s.(mem := mem, marked := marked, invalid := false, shared := Live(stack), first := 0,
         activeCount := 0, helperCount := 1, helpWanted := true,
         threads := s.threads[MAIN := s.threads[MAIN].(pc := Entering)])
    case SkipCycle(t) => WithThread(s, t, s.threads[t].(myMarkNo := s.threads[t].myMarkNo + 1))
    case Join(t) => WithThread(s, t, s.threads[t].(pc := Entering)).(helperCount := s.helperCount + 1)
    case Enter(t) =>
      WithThread(s, t, s.threads[t].(pc := AtLoop, myFirst := s.first)).(activeCount := s.activeCount + 1)
    case ReadFirst(t) => WithThread(s, t, s.threads[t].(pc := GotFirst(s.first)))
    case FixFirst(t) =>
      var h := s.threads[t];
      if h.myFirst < h.pc.first then WithThread(s, t, h.(pc := AtTop, myFirst := h.pc.first))
      else if h.pc.first < h.myFirst && s.first == h.pc.first then
        WithThread(s, t, h.(pc := AtTop)).(first := h.myFirst)
      else WithThread(s, t, h.(pc := AtTop))
    case ReadTop(t) =>
      var h := s.threads[t];
      if |s.shared| <= h.myFirst then WithThread(s, t, h.(pc := NeedLock))
      else WithThread(s, t, StealFrom(h, |s.shared|))
    case LockTop(t) =>
      var h := s.threads[t];
      if |s.shared| <= h.myFirst then
        WithThread(s, t, h.(pc := Waiting)).(activeCount := if s.activeCount == 0 then 0 else s.activeCount - 1)
      else WithThread(s, t, StealFrom(h, |s.shared|))
    case Wake(t) => WithThread(s, t, s.threads[t].(pc := AtLoop)).(activeCount := s.activeCount + 1)
    case Leave(t) =>
      var h := s.threads[t];
      WithThread(s, t, if t == MAIN then h.(pc := MainDone) else h.(pc := Outside, myMarkNo := h.myMarkNo + 1))
      .(helperCount := if s.helperCount == 0 then 0 else s.helperCount - 1)
    case StealRead(t) =>
      var h := s.threads[t];
      if h.pc.next < |s.shared| && s.shared[h.pc.next].live then WithThread(s, t, h.(pc := h.pc.(seen := true)))
      else WithThread(s, t, h.(pc := h.pc.(next := h.pc.next + 1)))
    case StealTake(t) =>
      var h := s.threads[t];
      var p := h.pc.next;
      if p < |s.shared| then
        var e := s.shared[p].entry;
        WithThread(s, t, h.(local := h.local + [e],
          pc := h.pc.(next := p + 1, seen := false, taken := h.pc.taken + StealCost(e))))
        .(shared := s.shared[p := s.shared[p].(live := false)])
      else s
    case StealEnd(t) =>
      var h := s.threads[t];
      WithThread(s, t, h.(myFirst := h.pc.next, pc := Working(Idle)))
    case SplitLocal(t) =>
      var h := s.threads[t];
      WithThread(s, t, h.(local := h.local[..|h.local| - 1] + Halves(Last(h.local))))
    case TakeLocal(t) => WithThread(s, t, TakeTop(s.threads[t]))
    case ScanWord(t) =>
      var h := s.threads[t];
      var e := h.pc.cursor.range;
      var word := if e.lo < Words(s.mem, e.loc) then s.mem[e.loc][e.lo] else Null;
      if word.To? && word.obj !in s.marked then WithThread(s, t, h.(pc := Working(Unmarked(e, word.obj))))
      else WithThread(s, t, h.(pc := Working(Scanning(e.(lo := e.lo + 1)))))
    case SetMark(t) =>
      var h := s.threads[t];
      var c := h.pc.cursor;
      WithThread(s, t, h.(pc := Working(Pushing(c.range.(lo := c.range.lo + 1), c.obj)))).(marked := s.marked + {c.obj})
    case PushMarked(t) =>
      var h := s.threads[t];
      var c := h.pc.cursor;
      var n := Words(s.mem, InHeap(c.obj));
      if n == 0 then WithThread(s, t, h.(pc := Working(Scanning(c.range))))
      else
        WithThread(s, t, h.(pc := Working(Scanning(c.range)), local := PushLocal(h.local, Entry(InHeap(c.obj), 0, n))))
        .(invalid := s.invalid || |h.local| >= LOCAL_MARK_STACK_SIZE)
    case RangeEnd(t) => WithThread(s, t, s.threads[t].(pc := Working(Idle)))
    case ReturnAll(t) => Return(WithThread(s, t, s.threads[t].(pc := AtLoop, local := [])), s.threads[t].local)
    case ReturnBottom(t) =>
      var h := s.threads[t];
      var cut := (|h.local| - 1) / 2;
      Return(WithThread(s, t, h.(local := h.local[cut..])), h.local[..cut])
    case LocalEmpty(t) => WithThread(s, t, s.threads[t].(pc := AtLoop))
    case WithdrawHelp => WithThread(s, MAIN, s.threads[MAIN].(pc := MainWait)).(helpWanted := false)
    case Finish => WithThread(s, MAIN, s.threads[MAIN].(pc := Outside)).(markNo := s.markNo + 1)
  }

  // --------------------------------------------------------------- invariants

  ghost function ActiveSet(threads: map<Thread, Helper>): set<Thread> {
    set t | t in threads && IsActive(threads[t].pc)
  }

  ghost function HelpingSet(threads: map<Thread, Helper>): set<Thread> {
    set t | t in threads && IsHelping(threads[t].pc)
  }

  /** The counters say how many threads are active, and how many are helping. */
  ghost predicate CountsOk(s: State) {
    s.activeCount == |ActiveSet(s.threads)| && s.helperCount == |HelpingSet(s.threads)|
  }

  /** Nobody helps outside a cycle, and help is wanted until the initiator withdraws the request. */
  ghost predicate CycleOk(s: State) {
    && MAIN in s.threads
    && (s.helpWanted <==> (IsHelping(Pc_(s, MAIN)) || Pc_(s, MAIN).MainDone?))
    && (Pc_(s, MAIN).Outside? ==> s.helperCount == 0)
    && (forall t :: t in s.threads && t != MAIN ==> !s.threads[t].pc.MainDone? && !s.threads[t].pc.MainWait?)
  }

  ghost predicate DeadBelow(shared: seq<Slot>, n: nat) {
    n <= |shared| && forall j :: 0 <= j < n ==> !shared[j].live
  }

  ghost predicate SharedOk(s: State) {
    && |s.shared| <= s.size && DeadBelow(s.shared, s.first)
    && (forall j :: 0 <= j < |s.shared| ==> EntryOk(s.mem, s.shared[j].entry))
    && (forall l, k :: l in s.mem && 0 <= k < |s.mem[l]| && s.mem[l][k].To? ==> InHeap(s.mem[l][k].obj) in s.mem)
  }

  ghost predicate RangeOk(mem: Memory, e: Entry) {
    e.loc in mem && e.lo <= e.hi <= |mem[e.loc]|
  }

  ghost predicate CursorOk(mem: Memory, c: Cursor) {
    match c
    case Idle => true
    case Scanning(r) => RangeOk(mem, r)
    case Unmarked(r, o) => RangeOk(mem, r) && r.lo < r.hi && mem[r.loc][r.lo] == To(o) && InHeap(o) in mem
    case Pushing(r, o) => RangeOk(mem, r) && InHeap(o) in mem
  }

  ghost predicate EntriesOk(mem: Memory, stack: seq<Entry>) {
    forall i :: 0 <= i < |stack| ==> EntryOk(mem, stack[i])
  }

  /** A helper has passed only dead slots, and holds work only while it is active. */
  ghost predicate HelperOk(s: State, h: Helper) {
    && (IsActive(h.pc) || h.pc.Waiting? ==> DeadBelow(s.shared, h.myFirst))
    && (h.pc.GotFirst? ==> h.pc.first <= s.first)
    && (h.pc.Stealing? ==>
          && DeadBelow(s.shared, h.pc.next) && h.pc.next <= h.pc.high <= |s.shared|
          && (h.pc.seen ==> h.pc.next < h.pc.high))
    && (h.pc.Working? ==> CursorOk(s.mem, h.pc.cursor))
    && (h.pc.Working? || h.pc.Stealing? || h.local == [])
    && EntriesOk(s.mem, h.local)
  }

  ghost predicate HelpersOk(s: State) {
    forall t :: t in s.threads ==> HelperOk(s, s.threads[t])
  }

  ghost predicate OnLive(shared: seq<Slot>, l: Loc, k: nat) {
    exists j :: 0 <= j < |shared| && shared[j].live && Holds(shared[j].entry, l, k)
  }

  ghost predicate CursorCarries(c: Cursor, l: Loc, k: nat) {
    match c
    case Idle => false
    case Scanning(r) => Holds(r, l, k)
    case Unmarked(r, _) => Holds(r, l, k)
    case Pushing(r, o) => Holds(r, l, k) || l == InHeap(o)
  }

  ghost predicate Carries(h: Helper, l: Loc, k: nat) {
    OnEntries(h.local, l, k) || (h.pc.Working? && CursorCarries(h.pc.cursor, l, k))
  }

  ghost predicate Covered(s: State, l: Loc, k: nat) {
    OnLive(s.shared, l, k) || exists t :: t in s.threads && Carries(s.threads[t], l, k)
  }

  /** Unless work has been dropped, every pointer to an unmarked object is in somebody's hands. */
  ghost predicate Coverage(s: State) {
    s.invalid || forall l, k :: White(s.mem, s.marked, l, k) ==> Covered(s, l, k)
  }

  /** No work is left anywhere: on the shared stack, on a local stack, or in registers. */
  ghost predicate Quiescent(s: State) {
    && DeadBelow(s.shared, |s.shared|)
    && forall t :: t in s.threads ==> NothingInHand(s.threads[t])
  }

  ghost predicate NothingInHand(h: Helper) {
    h.local == [] && (h.pc.Working? ==> h.pc.cursor.Idle?) && (h.pc.Stealing? ==> !h.pc.seen)
  }

  /** Once the initiator is back from its own marking, nothing is left to do. */
  ghost predicate DoneOk(s: State) {
    MAIN in s.threads && (Pc_(s, MAIN).MainDone? || Pc_(s, MAIN).MainWait? || Pc_(s, MAIN).Outside? ==> Quiescent(s))
  }

  ghost predicate Inv(s: State) {
    CountsOk(s) && CycleOk(s) && SharedOk(s) && HelpersOk(s) && Coverage(s) && DoneOk(s)
  }
}

/** Every step of every thread keeps the protocol's invariant. */
module ParallelSafety {
  import opened ObjectGraph
  import opened ParallelModel

  // ----------------------------------------------------------------- counting

  lemma ActiveSetUpdate(threads: map<Thread, Helper>, t: Thread, h: Helper)
    requires t in threads
    ensures var n := |ActiveSet(threads[t := h])| - |ActiveSet(threads)|;
      n == (if IsActive(h.pc) then 1 else 0) - (if IsActive(threads[t].pc) then 1 else 0)
  {
    assert ActiveSet(threads[t := h]) - {t} == ActiveSet(threads) - {t};
    SetSplit(ActiveSet(threads), t);
    SetSplit(ActiveSet(threads[t := h]), t);
  }

  lemma HelpingSetUpdate(threads: map<Thread, Helper>, t: Thread, h: Helper)
    requires t in threads
    ensures var n := |HelpingSet(threads[t := h])| - |HelpingSet(threads)|;
      n == (if IsHelping(h.pc) then 1 else 0) - (if IsHelping(threads[t].pc) then 1 else 0)
  {
    assert HelpingSet(threads[t := h]) - {t} == HelpingSet(threads) - {t};
    SetSplit(HelpingSet(threads), t);
    SetSplit(HelpingSet(threads[t := h]), t);
  }

  lemma SetSplit(a: set<Thread>, t: Thread)
    ensures |a| == |a - {t}| + if t in a then 1 else 0
  {
    if t in a {
      assert a == (a - {t}) + {t};
    } else {
      assert a == a - {t};
    }
  }

  lemma NobodyActive(s: State)
    requires CountsOk(s) && s.activeCount == 0
    ensures forall t :: t in s.threads ==> !IsActive(s.threads[t].pc)
  {
    assert ActiveSet(s.threads) == {};
    assert forall t :: t in s.threads && IsActive(s.threads[t].pc) ==> t in ActiveSet(s.threads);
  }

  lemma NobodyHelping(s: State)
    requires CountsOk(s) && s.helperCount == 0
    ensures forall t :: t in s.threads ==> !IsHelping(s.threads[t].pc)
  {
    assert HelpingSet(s.threads) == {};
    assert forall t :: t in s.threads && IsHelping(s.threads[t].pc) ==> t in HelpingSet(s.threads);
  }

  function One(b: bool): int {
    if b then 1 else 0
  }

  /** Only thread `t` moves; the counters change by what its move is worth. */
  lemma CountsFollow(s: State, u: State, t: Thread)
    requires CountsOk(s) && t in s.threads && t in u.threads && u.threads == s.threads[t := u.threads[t]]
    requires u.activeCount == s.activeCount + One(IsActive(u.threads[t].pc)) - One(IsActive(s.threads[t].pc))
    requires u.helperCount == s.helperCount + One(IsHelping(u.threads[t].pc)) - One(IsHelping(s.threads[t].pc))
    ensures CountsOk(u)
  {
    ActiveSetUpdate(s.threads, t, u.threads[t]);
    HelpingSetUpdate(s.threads, t, u.threads[t]);
  }

  /** A thread that is active, or helping, is counted. */
  lemma Counted(s: State, t: Thread)
    requires CountsOk(s) && t in s.threads
    ensures IsActive(s.threads[t].pc) ==> 0 < s.activeCount
    ensures IsHelping(s.threads[t].pc) ==> 0 < s.helperCount
  {
    SetSplit(ActiveSet(s.threads), t);
    SetSplit(HelpingSet(s.threads), t);
  }

  /** The step is taken by one helper, in the midst of a cycle. */
  predicate IsThreadStep(step: Step) {
    !step.Begin? && !step.WithdrawHelp? && !step.Finish?
  }

  /** Thread `t` alone moves, and the counters account for it. */
  ghost predicate Moves(s: State, u: State, t: Thread) {
    && t in s.threads && t in u.threads && u.threads == s.threads[t := u.threads[t]]
    && u.activeCount == s.activeCount + One(IsActive(u.threads[t].pc)) - One(IsActive(s.threads[t].pc))
    && u.helperCount == s.helperCount + One(IsHelping(u.threads[t].pc)) - One(IsHelping(s.threads[t].pc))
    && u.helpWanted == s.helpWanted && u.markNo == s.markNo
  }

  predicate IsCountingStep(step: Step) {
    step.SkipCycle? || step.Join? || step.Enter? || step.LockTop? || step.Wake? || step.Leave?
  }

  predicate IsSharedStep(step: Step) {
    step.ReadFirst? || step.FixFirst? || step.ReadTop? || step.StealRead? || step.StealTake? || step.StealEnd?
  }

  lemma CountingStepMoves(s: State, step: Step)
    requires CountsOk(s) && IsCountingStep(step) && Enabled(s, step)
    ensures Moves(s, Apply(s, step), step.t)
  {
    Counted(s, step.t);
  }

  lemma SharedStepMoves(s: State, step: Step)
    requires IsSharedStep(step) && Enabled(s, step)
    ensures Moves(s, Apply(s, step), step.t)
  {
  }

  lemma LocalStepMoves(s: State, step: Step)
    requires IsThreadStep(step) && !IsSharedStep(step) && !IsCountingStep(step) && Enabled(s, step)
    ensures Moves(s, Apply(s, step), step.t)
  {
  }

  lemma ThreadStepMoves(s: State, step: Step)
    requires CountsOk(s) && IsThreadStep(step) && Enabled(s, step)
    ensures Moves(s, Apply(s, step), step.t)
  {
    if IsCountingStep(step) {
      CountingStepMoves(s, step);
    } else if IsSharedStep(step) {
      SharedStepMoves(s, step);
    } else {
      LocalStepMoves(s, step);
    }
  }

  lemma CountsKeep(s: State, step: Step)
    requires CountsOk(s) && CycleOk(s) && Enabled(s, step)
    ensures CountsOk(Apply(s, step))
  {
    var u := Apply(s, step);
    if step.Begin? {
      NobodyHelping(s);
      CountsFollow(s, u, MAIN);
    } else if IsThreadStep(step) {
      ThreadStepMoves(s, step);
      CountsFollow(s, u, step.t);
    } else {
      CountsFollow(s, u, MAIN);
    }
  }

  // -------------------------------------------------------------------- cycle

  /** Where a thread's own move can take it. */
  lemma ThreadStepPc(s: State, step: Step)
    requires IsThreadStep(step) && Enabled(s, step)
    ensures var u := Apply(s, step); var t := step.t;
      && t in s.threads && t in u.threads
      && (!IsHelping(s.threads[t].pc) ==>
           t != MAIN && s.threads[t].pc.Outside? && (IsHelping(u.threads[t].pc) ==> s.helpWanted))
      && (IsHelping(s.threads[t].pc) && !IsHelping(u.threads[t].pc) ==>
            u.threads[t].pc == if t == MAIN then MainDone else Outside)
      && (!IsHelping(s.threads[t].pc) && !IsHelping(u.threads[t].pc) ==> u.threads[t].pc.Outside?)
  {
  }

  lemma CycleKeep(s: State, step: Step)
    requires CountsOk(s) && CycleOk(s) && Enabled(s, step)
    ensures CycleOk(Apply(s, step))
  {
    if IsThreadStep(step) {
      ThreadStepMoves(s, step);
      ThreadStepPc(s, step);
    }
  }

  // ------------------------------------------------------------- shared stack

  lemma LiveEntries(stack: seq<Entry>, mem: Memory)
    requires EntriesOk(mem, stack)
    ensures |Live(stack)| == |stack|
    ensures forall j :: 0 <= j < |stack| ==>
      Live(stack)[j] == Slot(stack[j], true) && EntryOk(mem, Live(stack)[j].entry)
  {
  }

  predicate TouchesShared(step: Step) {
    step.Begin? || step.FixFirst? || step.StealTake? || step.ReturnAll? || step.ReturnBottom?
  }

  /** The steps of a helper at work on its local stack. */
  predicate IsLocal(step: Step) {
    || step.StealRead? || step.StealTake? || step.StealEnd? || step.SplitLocal? || step.TakeLocal? || step.ScanWord?
    || step.SetMark? || step.PushMarked? || step.RangeEnd? || step.ReturnAll? || step.ReturnBottom? || step.LocalEmpty?
  }

  lemma SharedFrame(s: State, step: Step)
    requires !TouchesShared(step) && Enabled(s, step)
    ensures var u := Apply(s, step);
      u.mem == s.mem && u.shared == s.shared && u.size == s.size && u.first == s.first
  {
    if IsLocal(step) {
      LocalSharedFrame(s, step);
    } else {
      OtherSharedFrame(s, step);
    }
  }

  lemma LocalSharedFrame(s: State, step: Step)
    requires !TouchesShared(step) && Enabled(s, step) && IsLocal(step)
    ensures var u := Apply(s, step);
      u.mem == s.mem && u.shared == s.shared && u.size == s.size && u.first == s.first
  {
  }

  lemma OtherSharedFrame(s: State, step: Step)
    requires !TouchesShared(step) && Enabled(s, step) && !IsLocal(step)
    ensures var u := Apply(s, step);
      u.mem == s.mem && u.shared == s.shared && u.size == s.size && u.first == s.first
  {
  }

  lemma ReturnSharedOk(s: State, u: State, stack: seq<Entry>)
    requires SharedOk(s) && EntriesOk(s.mem, stack)
    requires u.mem == s.mem && u.shared == s.shared && u.size == s.size && u.first == s.first
    ensures SharedOk(Return(u, stack))
  {
    LiveEntries(stack, s.mem);
  }

  lemma SharedKeep(s: State, step: Step)
    requires SharedOk(s) && HelpersOk(s) && Enabled(s, step)
    ensures SharedOk(Apply(s, step))
  {
    if !TouchesShared(step) {
      SharedFrame(s, step);
    } else if step.Begin? {
      LiveEntries(step.stack, step.mem);
    } else {
      TouchedSharedOk(s, step);
    }
  }

  lemma TouchedSharedOk(s: State, step: Step)
    requires SharedOk(s) && HelpersOk(s) && Enabled(s, step) && TouchesShared(step) && !step.Begin?
    ensures SharedOk(Apply(s, step))
  {
    match step
    case ReturnAll(t) => ReturnAllSharedOk(s, t);
    case ReturnBottom(t) => ReturnBottomSharedOk(s, t);
    case FixFirst(t) => FixFirstSharedOk(s, t);
    case StealTake(t) => StealTakeSharedOk(s, t);
  }

  lemma ReturnAllSharedOk(s: State, t: Thread)
    requires SharedOk(s) && HelpersOk(s) && Enabled(s, ReturnAll(t))
    ensures SharedOk(Apply(s, ReturnAll(t)))
  {
    var h := s.threads[t];
    assert HelperOk(s, h);
    ReturnSharedOk(s, WithThread(s, t, h.(pc := AtLoop, local := [])), h.local);
  }

  lemma ReturnBottomSharedOk(s: State, t: Thread)
    requires SharedOk(s) && HelpersOk(s) && Enabled(s, ReturnBottom(t))
    ensures SharedOk(Apply(s, ReturnBottom(t)))
  {
    var h := s.threads[t];
    assert HelperOk(s, h);
    var cut := (|h.local| - 1) / 2;
    ReturnSharedOk(s, WithThread(s, t, h.(local := h.local[cut..])), h.local[..cut]);
  }

  lemma FixFirstSharedOk(s: State, t: Thread)
    requires SharedOk(s) && HelpersOk(s) && Enabled(s, FixFirst(t))
    ensures SharedOk(Apply(s, FixFirst(t)))
  {
    assert HelperOk(s, s.threads[t]);
  }

  lemma StealTakeSharedOk(s: State, t: Thread)
    requires SharedOk(s) && HelpersOk(s) && Enabled(s, StealTake(t))
    ensures SharedOk(Apply(s, StealTake(t)))
  {
    assert HelperOk(s, s.threads[t]);
  }

  // ------------------------------------------------------------------ helpers

  /** Within a cycle slots are only added and emptied, and the first-nonempty index only grows. */
  ghost predicate SharedGrows(s: State, u: State) {
    && u.mem == s.mem && s.first <= u.first && |s.shared| <= |u.shared|
    && forall j :: 0 <= j < |s.shared| ==> u.shared[j].live ==> s.shared[j].live
  }

  lemma StepSharedGrows(s: State, step: Step)
    requires SharedOk(s) && HelpersOk(s) && Enabled(s, step) && !step.Begin?
    ensures SharedGrows(s, Apply(s, step))
  {
    if !TouchesShared(step) {
      SharedFrame(s, step);
    } else {
      TouchedSharedGrows(s, step);
    }
  }

  lemma TouchedSharedGrows(s: State, step: Step)
    requires SharedOk(s) && HelpersOk(s) && Enabled(s, step) && TouchesShared(step) && !step.Begin?
    ensures SharedGrows(s, Apply(s, step))
  {
    assert HelperOk(s, s.threads[step.t]);
    if step.FixFirst? || step.StealTake? {
      TakenSharedGrows(s, step);
    } else {
      ReturnedSharedGrows(s, step);
    }
  }

  lemma TakenSharedGrows(s: State, step: Step)
    requires Enabled(s, step) && (step.FixFirst? || step.StealTake?) && HelperOk(s, s.threads[step.t])
    ensures SharedGrows(s, Apply(s, step))
  {
  }

  lemma ReturnedSharedGrows(s: State, step: Step)
    requires Enabled(s, step) && (step.ReturnAll? || step.ReturnBottom?)
    ensures SharedGrows(s, Apply(s, step))
  {
  }

  lemma HelperOkMono(s: State, u: State, h: Helper)
    requires HelperOk(s, h) && SharedGrows(s, u)
    ensures HelperOk(u, h)
  {
  }

  /** Mentioning `Unfold` makes the definition of a folded predicate available to the verifier. */
  ghost predicate Unfold(k: nat) {
    true
  }

  /** The helper that has just moved is in order; kept folded. */
  ghost predicate MoverOk(s: State, t: Thread) {
    forall k: nat {:trigger Unfold(k)} :: Unfold(k) ==> t in s.threads && HelperOk(s, s.threads[t])
  }

  /** Thread `step.t` is in order and about to take the step; kept folded. */
  ghost predicate MayMove(s: State, step: Step) {
    && IsThreadStep(step)
    && forall k: nat {:trigger Unfold(k)} :: Unfold(k) ==>
         Enabled(s, step) && SharedOk(s) && step.t in s.threads && HelperOk(s, s.threads[step.t])
  }

  ghost predicate MovesWell(s: State, step: Step) {
    MayMove(s, step) && forall k: nat {:trigger Unfold(k)} :: Unfold(k) ==> MoverOk(Apply(s, step), step.t)
  }

  lemma CountingStepHelperOk(s: State, step: Step)
    requires MayMove(s, step) && IsCountingStep(step)
    ensures MovesWell(s, step)
  {
    assert Unfold(0);
  }

  lemma IndexStepHelperOk(s: State, step: Step)
    requires MayMove(s, step) && (step.ReadFirst? || step.FixFirst? || step.ReadTop? || step.StealEnd?)
    ensures MovesWell(s, step)
  {
    assert Unfold(0);
  }

  lemma StealReadHelperOk(s: State, step: Step)
    requires MayMove(s, step) && step.StealRead?
    ensures MovesWell(s, step)
  {
    assert Unfold(0);
  }

  lemma StealTakeHelperOk(s: State, step: Step)
    requires MayMove(s, step) && step.StealTake?
    ensures MovesWell(s, step)
  {
    assert Unfold(0);
  }

  lemma SplitLocalHelperOk(s: State, step: Step)
    requires MayMove(s, step) && step.SplitLocal?
    ensures MovesWell(s, step)
  {
    assert Unfold(0);
  }

  lemma TakeLocalHelperOk(s: State, step: Step)
    requires MayMove(s, step) && step.TakeLocal?
    ensures MovesWell(s, step)
  {
    assert Unfold(0);
  }

  lemma ScanStepHelperOk(s: State, step: Step)
    requires MayMove(s, step) && (step.ScanWord? || step.SetMark? || step.RangeEnd? || step.LocalEmpty?)
    ensures MovesWell(s, step)
  {
    assert Unfold(0);
  }

  lemma PushMarkedHelperOk(s: State, step: Step)
    requires MayMove(s, step) && step.PushMarked?
    ensures MovesWell(s, step)
  {
    assert Unfold(0);
  }

  lemma ReturnHelperOk(s: State, step: Step)
    requires MayMove(s, step) && (step.ReturnAll? || step.ReturnBottom?)
    ensures MovesWell(s, step)
  {
    assert Unfold(0);
  }

  lemma ThreadStepHelperOk(s: State, step: Step)
    requires MayMove(s, step)
    ensures MovesWell(s, step)
  {
    match step
    case StealRead(_) => StealReadHelperOk(s, step);
    case StealTake(_) => StealTakeHelperOk(s, step);
    case SplitLocal(_) => SplitLocalHelperOk(s, step);
    case TakeLocal(_) => TakeLocalHelperOk(s, step);
    case PushMarked(_) => PushMarkedHelperOk(s, step);
    case ReturnAll(_) => ReturnHelperOk(s, step);
    case ReturnBottom(_) => ReturnHelperOk(s, step);
    case _ =>
      if IsCountingStep(step) {
        CountingStepHelperOk(s, step);
      } else if IsSharedStep(step) {
        IndexStepHelperOk(s, step);
      } else {
        ScanStepHelperOk(s, step);
      }
  }

  lemma BeginHelpersOk(s: State, step: Step)
    requires CountsOk(s) && HelpersOk(s) && CycleOk(s) && step.Begin? && Enabled(s, step)
    ensures HelpersOk(Apply(s, step))
  {
    var u := Apply(s, step);
    NobodyHelping(s);
    forall t | t in u.threads ensures HelperOk(u, u.threads[t]) {
      assert HelperOk(s, s.threads[t]);
    }
  }

  /** Only the mover changes, and the others get along with what it does to the shared stack. */
  lemma OthersKeep(s: State, u: State, t: Thread)
    requires HelpersOk(s) && SharedGrows(s, u) && t in s.threads && t in u.threads
    requires u.threads == s.threads[t := u.threads[t]] && HelperOk(u, u.threads[t])
    ensures HelpersOk(u)
  {
    forall v | v in u.threads ensures HelperOk(u, u.threads[v]) {
      if v != t {
        assert HelperOk(s, s.threads[v]);
        HelperOkMono(s, u, s.threads[v]);
      }
    }
  }

  lemma ThreadHelpersKeep(s: State, step: Step)
    requires CountsOk(s) && SharedOk(s) && HelpersOk(s) && Enabled(s, step) && IsThreadStep(step)
    ensures HelpersOk(Apply(s, step))
  {
    assert HelperOk(s, s.threads[step.t]);
    StepSharedGrows(s, step);
    ThreadStepMoves(s, step);
    ThreadStepHelperOk(s, step);
    assert Unfold(0);
    OthersKeep(s, Apply(s, step), step.t);
  }

  lemma MainHelpersKeep(s: State, step: Step)
    requires SharedOk(s) && HelpersOk(s) && Enabled(s, step) && (step.WithdrawHelp? || step.Finish?)
    ensures HelpersOk(Apply(s, step))
  {
    assert HelperOk(s, s.threads[MAIN]);
    StepSharedGrows(s, step);
    OthersKeep(s, Apply(s, step), MAIN);
  }

  lemma HelpersKeep(s: State, step: Step)
    requires CountsOk(s) && SharedOk(s) && HelpersOk(s) && Enabled(s, step) && !step.Begin?
    ensures HelpersOk(Apply(s, step))
  {
    if IsThreadStep(step) {
      ThreadHelpersKeep(s, step);
    } else {
      MainHelpersKeep(s, step);
    }
  }

  // ----------------------------------------------------------------- coverage

  /** What the mover had in hand, and what lay on the shared stack, is still in somebody's hands. */
  ghost predicate HandedOn(s: State, u: State, t: Thread) {
    && t in s.threads && t in u.threads && u.threads == s.threads[t := u.threads[t]] && u.mem == s.mem
    && forall l, k :: White(u.mem, u.marked, l, k) && (OnLive(s.shared, l, k) || Carries(s.threads[t], l, k)) ==>
         OnLive(u.shared, l, k) || Carries(u.threads[t], l, k)
  }

  lemma CoverageHandedOn(s: State, u: State, t: Thread)
    requires Coverage(s) && (u.invalid || (!s.invalid && HandedOn(s, u, t) && u.marked == s.marked))
    ensures Coverage(u)
  {
    if !u.invalid {
      forall l, k: nat | White(u.mem, u.marked, l, k) ensures Covered(u, l, k) {
        assert Covered(s, l, k);
        if !OnLive(s.shared, l, k) {
          var v :| v in s.threads && Carries(s.threads[v], l, k);
          assert v != t ==> u.threads[v] == s.threads[v];
        }
      }
    }
  }

  lemma OnEntriesAppend(a: seq<Entry>, b: seq<Entry>, l: Loc, k: nat)
    ensures OnEntries(a + b, l, k) <==> OnEntries(a, l, k) || OnEntries(b, l, k)
  {
    if OnEntries(a, l, k) {
      var i :| 0 <= i < |a| && Holds(a[i], l, k);
      assert (a + b)[i] == a[i];
    }
    if OnEntries(b, l, k) {
      var i :| 0 <= i < |b| && Holds(b[i], l, k);
      assert (a + b)[|a| + i] == b[i];
    }
  }

  lemma OnLiveAppend(shared: seq<Slot>, stack: seq<Entry>, l: Loc, k: nat)
    ensures OnLive(shared, l, k) || OnEntries(stack, l, k) ==> OnLive(shared + Live(stack), l, k)
  {
    var all := shared + Live(stack);
    if OnLive(shared, l, k) {
      var j :| 0 <= j < |shared| && shared[j].live && Holds(shared[j].entry, l, k);
      assert all[j] == shared[j];
    }
    if OnEntries(stack, l, k) {
      var i :| 0 <= i < |stack| && Holds(stack[i], l, k);
      assert all[|shared| + i] == Slot(stack[i], true);
    }
  }

  predicate IsQuiet(step: Step) {
    || IsCountingStep(step) || step.ReadFirst? || step.FixFirst? || step.ReadTop? || step.StealRead? || step.StealEnd?
    || step.RangeEnd? || step.LocalEmpty?
  }

  lemma QuietHandsOn(s: State, step: Step)
    requires Enabled(s, step) && IsQuiet(step)
    ensures var u := Apply(s, step); HandedOn(s, u, step.t) && u.marked == s.marked && u.invalid == s.invalid
  {
    if IsCountingStep(step) {
      CountingHandsOn(s, step);
    } else {
      OtherHandsOn(s, step);
    }
  }

  lemma CountingHandsOn(s: State, step: Step)
    requires Enabled(s, step) && IsCountingStep(step)
    ensures var u := Apply(s, step); HandedOn(s, u, step.t) && u.marked == s.marked && u.invalid == s.invalid
  {
    var u := Apply(s, step);
    assert u.shared == s.shared && u.threads[step.t].local == s.threads[step.t].local;
  }

  lemma OtherHandsOn(s: State, step: Step)
    requires Enabled(s, step) && IsQuiet(step) && !IsCountingStep(step)
    ensures var u := Apply(s, step); HandedOn(s, u, step.t) && u.marked == s.marked && u.invalid == s.invalid
  {
    var u := Apply(s, step);
    assert u.shared == s.shared && u.threads[step.t].local == s.threads[step.t].local;
  }

  lemma StealTakeHandsOn(s: State, t: Thread)
    requires Enabled(s, StealTake(t))
    ensures var u := Apply(s, StealTake(t)); HandedOn(s, u, t) && u.marked == s.marked && u.invalid == s.invalid
  {
    var u := Apply(s, StealTake(t));
    var h := s.threads[t];
    var p := h.pc.next;
    if p < |s.shared| {
      var e := s.shared[p].entry;
      forall l, k: nat | OnLive(s.shared, l, k) || Carries(h, l, k)
        ensures OnLive(u.shared, l, k) || Carries(u.threads[t], l, k)
      {
        OnEntriesAppend(h.local, [e], l, k);
        if OnLive(s.shared, l, k) {
          var j :| 0 <= j < |s.shared| && s.shared[j].live && Holds(s.shared[j].entry, l, k);
          if j == p {
            assert Holds([e][0], l, k);
          } else {
            assert u.shared[j] == s.shared[j];
          }
        }
      }
    } else {
      assert u.threads == s.threads[t := u.threads[t]];
    }
  }

  lemma SplitLocalHandsOn(s: State, t: Thread)
    requires Enabled(s, SplitLocal(t))
    ensures var u := Apply(s, SplitLocal(t)); HandedOn(s, u, t) && u.marked == s.marked && u.invalid == s.invalid
  {
    var u := Apply(s, SplitLocal(t));
    var h := s.threads[t];
    var n := |h.local| - 1;
    var e := h.local[n];
    forall l, k: nat | Carries(h, l, k) ensures Carries(u.threads[t], l, k) {
      assert h.local == h.local[..n] + [e];
      OnEntriesAppend(h.local[..n], [e], l, k);
      OnEntriesAppend(h.local[..n], Halves(e), l, k);
      if OnEntries([e], l, k) {
        assert Holds(Halves(e)[0], l, k) || Holds(Halves(e)[1], l, k);
      }
    }
  }

  lemma TakeLocalHandsOn(s: State, t: Thread)
    requires Enabled(s, TakeLocal(t))
    ensures var u := Apply(s, TakeLocal(t)); HandedOn(s, u, t) && u.marked == s.marked && u.invalid == s.invalid
  {
    var u := Apply(s, TakeLocal(t));
    var h := s.threads[t];
    var n := |h.local| - 1;
    var e := h.local[n];
    forall l, k: nat | Carries(h, l, k) ensures Carries(u.threads[t], l, k) {
      assert h.local == h.local[..n] + [e];
      OnEntriesAppend(h.local[..n], [e], l, k);
      var rest := u.threads[t].local[n..];
      assert u.threads[t].local == h.local[..n] + rest;
      OnEntriesAppend(h.local[..n], rest, l, k);
      if OnEntries([e], l, k) && !Holds(u.threads[t].pc.cursor.range, l, k) {
        assert Holds(rest[0], l, k);
      }
    }
  }

  lemma ScanWordHandsOn(s: State, t: Thread)
    requires Enabled(s, ScanWord(t)) && HelperOk(s, s.threads[t])
    ensures var u := Apply(s, ScanWord(t)); HandedOn(s, u, t) && u.marked == s.marked && u.invalid == s.invalid
  {
    var u := Apply(s, ScanWord(t));
    var h := s.threads[t];
    forall l, k: nat | White(u.mem, u.marked, l, k) && Carries(h, l, k) ensures Carries(u.threads[t], l, k) {
      assert u.threads[t].local == h.local;
    }
  }

  lemma PushMarkedHandsOn(s: State, t: Thread)
    requires Enabled(s, PushMarked(t)) && HelperOk(s, s.threads[t])
    ensures var u := Apply(s, PushMarked(t)); u.invalid || (!s.invalid && HandedOn(s, u, t) && u.marked == s.marked)
  {
    var u := Apply(s, PushMarked(t));
    var h := s.threads[t];
    var c := h.pc.cursor;
    var e := Entry(InHeap(c.obj), 0, Words(s.mem, InHeap(c.obj)));
    if !u.invalid {
      forall l, k: nat | White(u.mem, u.marked, l, k) && Carries(h, l, k) ensures Carries(u.threads[t], l, k) {
        OnEntriesAppend(h.local, [e], l, k);
        if l == InHeap(c.obj) {
          assert Holds([e][0], l, k);
        }
      }
    }
  }

  lemma ReturnHandsOn(s: State, t: Thread, h: Helper, stack: seq<Entry>)
    requires t in s.threads
    requires forall l, k :: Carries(s.threads[t], l, k) ==> Carries(h, l, k) || OnEntries(stack, l, k)
    ensures var u := Return(WithThread(s, t, h), stack);
      u.invalid || (!s.invalid && HandedOn(s, u, t) && u.marked == s.marked)
  {
    var u := Return(WithThread(s, t, h), stack);
    forall l, k: nat | !u.invalid && (OnLive(s.shared, l, k) || Carries(s.threads[t], l, k))
      ensures OnLive(u.shared, l, k) || Carries(u.threads[t], l, k)
    {
      OnLiveAppend(s.shared, stack, l, k);
    }
  }

  lemma ReturnStepHandsOn(s: State, step: Step)
    requires Enabled(s, step) && (step.ReturnAll? || step.ReturnBottom?)
    ensures var u := Apply(s, step); u.invalid || (!s.invalid && HandedOn(s, u, step.t) && u.marked == s.marked)
  {
    var t := step.t;
    var h := s.threads[t];
    if step.ReturnAll? {
      ReturnHandsOn(s, t, h.(pc := AtLoop, local := []), h.local);
    } else {
      var cut := (|h.local| - 1) / 2;
      var kept := h.(local := h.local[cut..]);
      forall l, k: nat | Carries(h, l, k) ensures Carries(kept, l, k) || OnEntries(h.local[..cut], l, k) {
        assert h.local == h.local[..cut] + h.local[cut..];
        OnEntriesAppend(h.local[..cut], h.local[cut..], l, k);
      }
      ReturnHandsOn(s, t, kept, h.local[..cut]);
    }
  }

  /** Setting a mark bit hands the object's own words to the helper that set it. */
  lemma SetMarkCoverage(s: State, t: Thread)
    requires Enabled(s, SetMark(t)) && HelperOk(s, s.threads[t]) && Coverage(s)
    ensures Coverage(Apply(s, SetMark(t)))
  {
    var u := Apply(s, SetMark(t));
    var h := s.threads[t];
    var c := h.pc.cursor;
    forall l, k: nat | !s.invalid && White(u.mem, u.marked, l, k) ensures Covered(u, l, k) {
      if l == InHeap(c.obj) {
        assert Carries(u.threads[t], l, k);
      } else {
        assert White(s.mem, s.marked, l, k) && Covered(s, l, k);
        if !OnLive(s.shared, l, k) {
          var v :| v in s.threads && Carries(s.threads[v], l, k);
          assert Carries(u.threads[v], l, k);
        }
      }
    }
  }

  lemma BeginCoverage(s: State, step: Step)
    requires step.Begin? && Enabled(s, step)
    ensures Coverage(Apply(s, step))
  {
    var u := Apply(s, step);
    forall l, k: nat | White(u.mem, u.marked, l, k) ensures Covered(u, l, k) {
      OnLiveAppend([], step.stack, l, k);
      assert [] + Live(step.stack) == u.shared;
    }
  }

  lemma CoverageKeep(s: State, step: Step)
    requires HelpersOk(s) && Coverage(s) && Enabled(s, step)
    ensures Coverage(Apply(s, step))
  {
    if step.Begin? {
      BeginCoverage(s, step);
    } else if step.SetMark? {
      SetMarkCoverage(s, step.t);
    } else if step.WithdrawHelp? || step.Finish? {
      MainCoverage(s, step);
    } else if MovesWork(step) {
      WorkCoverage(s, step);
    } else {
      QuietCoverage(s, step);
    }
  }

  lemma MainCoverage(s: State, step: Step)
    requires Coverage(s) && Enabled(s, step) && (step.WithdrawHelp? || step.Finish?)
    ensures Coverage(Apply(s, step))
  {
    CoverageHandedOn(s, Apply(s, step), MAIN);
  }

  /** The steps that move work about: between the shared stack, a local stack and a range being scanned. */
  predicate MovesWork(step: Step) {
    || step.StealTake? || step.SplitLocal? || step.TakeLocal? || step.ScanWord? || step.PushMarked?
    || step.ReturnAll? || step.ReturnBottom?
  }

  lemma WorkCoverage(s: State, step: Step)
    requires HelpersOk(s) && Coverage(s) && Enabled(s, step) && MovesWork(step)
    ensures Coverage(Apply(s, step))
  {
    var u := Apply(s, step);
    match step
    case StealTake(t) => StealTakeHandsOn(s, t); CoverageHandedOn(s, u, t);
    case SplitLocal(t) => SplitLocalHandsOn(s, t); CoverageHandedOn(s, u, t);
    case TakeLocal(t) => TakeLocalHandsOn(s, t); CoverageHandedOn(s, u, t);
    case ScanWord(t) => ScanWordHandsOn(s, t); CoverageHandedOn(s, u, t);
    case PushMarked(t) => PushMarkedHandsOn(s, t); CoverageHandedOn(s, u, t);
    case ReturnAll(t) => ReturnStepHandsOn(s, step); CoverageHandedOn(s, u, t);
    case ReturnBottom(t) => ReturnStepHandsOn(s, step); CoverageHandedOn(s, u, t);
  }

  lemma QuietCoverage(s: State, step: Step)
    requires Coverage(s) && Enabled(s, step) && IsQuiet(step)
    ensures Coverage(Apply(s, step))
  {
    QuietHandsOn(s, step);
    CoverageHandedOn(s, Apply(s, step), step.t);
  }

  // --------------------------------------------------------------- quiescence

  /** Termination detection is right: when a helper leaves, no work is left anywhere. */
  lemma LeaveMeansQuiescent(s: State, t: Thread)
    requires CountsOk(s) && SharedOk(s) && HelpersOk(s) && Enabled(s, Leave(t))
    ensures Quiescent(s) && Quiescent(Apply(s, Leave(t)))
  {
    NobodyActive(s);
    forall v | v in s.threads ensures NothingInHand(s.threads[v]) {
      assert HelperOk(s, s.threads[v]);
    }
  }

  /** Once no work is left, helpers that join late find none and create none. */
  lemma QuiescencePersists(s: State, step: Step)
    requires Quiescent(s) && Enabled(s, step) && !step.Begin?
    ensures Quiescent(Apply(s, step))
  {
    var u := Apply(s, step);
    var t := if IsThreadStep(step) then step.t else MAIN;
    assert t in s.threads && NothingInHand(s.threads[t]);
    MoverHasNothing(s, step);
    forall v | v in u.threads ensures NothingInHand(u.threads[v]) {
      assert v != t ==> u.threads[v] == s.threads[v];
    }
  }

  lemma MoverHasNothing(s: State, step: Step)
    requires Enabled(s, step) && !step.Begin? && DeadBelow(s.shared, |s.shared|)
    requires (if IsThreadStep(step) then step.t else MAIN) in s.threads
    requires NothingInHand(s.threads[if IsThreadStep(step) then step.t else MAIN])
    ensures var u := Apply(s, step); var t := if IsThreadStep(step) then step.t else MAIN;
      t in u.threads && u.threads == s.threads[t := u.threads[t]] && NothingInHand(u.threads[t]) && u.shared == s.shared
  {
    if IsLocal(step) {
      LocalHasNothing(s, step);
    } else {
      OtherHasNothing(s, step);
    }
  }

  lemma LocalHasNothing(s: State, step: Step)
    requires Enabled(s, step) && IsLocal(step) && DeadBelow(s.shared, |s.shared|)
    requires step.t in s.threads && NothingInHand(s.threads[step.t])
    ensures var u := Apply(s, step);
      step.t in u.threads && u.threads == s.threads[step.t := u.threads[step.t]] && NothingInHand(u.threads[step.t]) &&
        u.shared == s.shared
  {
  }

  lemma OtherHasNothing(s: State, step: Step)
    requires Enabled(s, step) && !step.Begin? && !IsLocal(step)
    requires (if IsThreadStep(step) then step.t else MAIN) in s.threads
    requires NothingInHand(s.threads[if IsThreadStep(step) then step.t else MAIN])
    ensures var u := Apply(s, step); var t := if IsThreadStep(step) then step.t else MAIN;
      t in u.threads && u.threads == s.threads[t := u.threads[t]] && NothingInHand(u.threads[t]) && u.shared == s.shared
  {
    if IsThreadStep(step) {
      ThreadHasNothing(s, step);
    }
  }

  lemma ThreadHasNothing(s: State, step: Step)
    requires Enabled(s, step) && IsThreadStep(step) && !IsLocal(step)
    requires step.t in s.threads && NothingInHand(s.threads[step.t])
    ensures var u := Apply(s, step);
      && step.t in u.threads && u.threads == s.threads[step.t := u.threads[step.t]]
      && NothingInHand(u.threads[step.t]) && u.shared == s.shared
  {
  }

  lemma StaysHelping(s: State, step: Step)
    requires IsThreadStep(step) && Enabled(s, step) && !step.Leave? && IsHelping(Pc_(s, step.t))
    ensures var u := Apply(s, step); step.t in u.threads && IsHelping(Pc_(u, step.t))
  {
    if IsLocal(step) {
      LocalStaysHelping(s, step);
    } else {
      OtherStaysHelping(s, step);
    }
  }

  lemma LocalStaysHelping(s: State, step: Step)
    requires IsLocal(step) && Enabled(s, step) && IsHelping(Pc_(s, step.t))
    ensures var u := Apply(s, step); step.t in u.threads && IsHelping(Pc_(u, step.t))
  {
  }

  lemma OtherStaysHelping(s: State, step: Step)
    requires IsThreadStep(step) && !IsLocal(step) && Enabled(s, step) && !step.Leave? && IsHelping(Pc_(s, step.t))
    ensures var u := Apply(s, step); step.t in u.threads && IsHelping(Pc_(u, step.t))
  {
  }

  /** The initiator comes back from its own marking only by leaving. */
  lemma MainStaysIn(s: State, step: Step)
    requires CountsOk(s) && MAIN in s.threads && IsHelping(Pc_(s, MAIN)) && Enabled(s, step) && step != Leave(MAIN)
    ensures var u := Apply(s, step); MAIN in u.threads && IsHelping(Pc_(u, MAIN))
  {
    if IsThreadStep(step) {
      if step.t == MAIN {
        StaysHelping(s, step);
      } else {
        ThreadStepMoves(s, step);
      }
    }
  }

  lemma MainRemains(s: State, step: Step)
    requires CountsOk(s) && MAIN in s.threads && Enabled(s, step)
    ensures MAIN in Apply(s, step).threads
  {
    if IsThreadStep(step) {
      ThreadStepMoves(s, step);
    }
  }

  lemma QuiescentIsDone(s: State)
    requires Quiescent(s) && MAIN in s.threads
    ensures DoneOk(s)
  {
  }

  lemma HelpingIsNotDone(s: State)
    requires MAIN in s.threads && IsHelping(Pc_(s, MAIN))
    ensures DoneOk(s)
  {
  }

  lemma DoneKeep(s: State, step: Step)
    requires CountsOk(s) && SharedOk(s) && HelpersOk(s) && DoneOk(s) && Enabled(s, step)
    ensures DoneOk(Apply(s, step))
  {
    MainRemains(s, step);
    var u := Apply(s, step);
    if step.Begin? {
      HelpingIsNotDone(u);
    } else if IsHelping(Pc_(s, MAIN)) && step != Leave(MAIN) {
      MainStaysIn(s, step);
      HelpingIsNotDone(u);
    } else {
      if step == Leave(MAIN) {
        LeaveMeansQuiescent(s, MAIN);
      }
      QuiescencePersists(s, step);
      QuiescentIsDone(u);
    }
  }

  // --------------------------------------------------------------- whole runs

  lemma StepKeepsInv(s: State, step: Step)
    requires Inv(s) && Enabled(s, step)
    ensures Inv(Apply(s, step))
  {
    CountsKeep(s, step);
    CycleKeep(s, step);
    SharedKeep(s, step);
    if step.Begin? {
      BeginHelpersOk(s, step);
    } else {
      HelpersKeep(s, step);
    }
    CoverageKeep(s, step);
    DoneKeep(s, step);
  }

  ghost predicate LeadsKey(k: nat, s: State, step: Step, u: State) {
    true
  }

  /** `step` can be taken in `s` and leads to `u`.  Folded: the definition is available where the key is mentioned. */
  ghost predicate Leads(s: State, step: Step, u: State) {
    forall k: nat {:trigger LeadsKey(k, s, step, u)} :: LeadsKey(k, s, step, u) ==>
      Enabled(s, step) && u == Apply(s, step)
  }

  lemma LeadsFacts(s: State, step: Step, u: State)
    requires Leads(s, step, u)
    ensures Enabled(s, step) && u == Apply(s, step)
  {
    assert LeadsKey(0, s, step, u);
  }

  /** `steps`, taken one after the other, lead from `s` to `u`. */
  ghost predicate Runs(s: State, steps: seq<Step>, u: State)
    decreases |steps|
  {
    if steps == [] then s == u
    else exists m :: Leads(s, steps[0], m) && Runs(m, steps[1..], u)
  }

  lemma {:induction false} RunKeepsInv(s: State, steps: seq<Step>, u: State)
    requires Inv(s) && Runs(s, steps, u)
    ensures Inv(u)
    decreases |steps|
  {
    if steps != [] {
      var m :| Leads(s, steps[0], m) && Runs(m, steps[1..], u);
      LeadsFacts(s, steps[0], m);
      StepKeepsInv(s, steps[0]);
      RunKeepsInv(m, steps[1..], u);
    }
  }

  /** Before the first cycle: every thread outside, no work, nothing marked. */
  ghost predicate Initial(s: State) {
    && s.mem == map[] && s.marked == {} && !s.invalid && s.shared == [] && s.first == 0
    && !s.helpWanted && s.helperCount == 0 && s.activeCount == 0
    && MAIN in s.threads
    && forall t :: t in s.threads ==> s.threads[t].pc.Outside? && s.threads[t].local == []
  }

  lemma InitialInv(s: State)
    requires Initial(s)
    ensures Inv(s)
  {
    assert ActiveSet(s.threads) == {} && HelpingSet(s.threads) == {};
  }

  /**
   Termination detection is correct on every run: whenever a helper leaves, the shared stack
   and all local stacks are empty, and unless work was dropped the marks are complete.
   */
  lemma TerminationIsDetected(start: State, steps: seq<Step>, s: State, t: Thread)
    requires Initial(start) && Runs(start, steps, s) && Enabled(s, Leave(t))
    ensures Quiescent(s) && Quiescent(Apply(s, Leave(t)))
    ensures s.invalid || MarksComplete(s.mem, s.marked)
  {
    InitialInv(start);
    RunKeepsInv(start, steps, s);
    LeaveMeansQuiescent(s, t);
    if !s.invalid {
      QuiescentMarksComplete(s);
    }
  }

  lemma NothingCovered(s: State)
    requires Quiescent(s)
    ensures forall l, k :: !Covered(s, l, k)
  {
    forall t, l, k: nat | t in s.threads ensures !Carries(s.threads[t], l, k) {
      assert NothingInHand(s.threads[t]);
    }
  }

  lemma QuiescentMarksComplete(s: State)
    requires Coverage(s) && Quiescent(s) && !s.invalid
    ensures MarksComplete(s.mem, s.marked)
  {
    NothingCovered(s);
    forall l, p | PointsTo(s.mem, l, p) && (l.InRoot? || l.obj in s.marked) ensures p in s.marked {
      var k :| 0 <= k < |s.mem[l]| && s.mem[l][k] == To(p);
      assert !White(s.mem, s.marked, l, k);
    }
  }

  /** Whatever late helpers do, nothing is left to do until the next cycle begins. */
  lemma {:induction false} QuiescentUntilNextCycle(s: State, steps: seq<Step>, u: State)
    requires Quiescent(s) && Runs(s, steps, u)
    requires forall i :: 0 <= i < |steps| ==> !steps[i].Begin?
    ensures Quiescent(u)
    decreases |steps|
  {
    if steps != [] {
      assert !steps[0].Begin?;
      var m :| Leads(s, steps[0], m) && Runs(m, steps[1..], u);
      LeadsFacts(s, steps[0], m);
      QuiescencePersists(s, steps[0]);
      forall i | 0 <= i < |steps[1..]| ensures !steps[1..][i].Begin? {
        assert !steps[i + 1].Begin?;
      }
      QuiescentUntilNextCycle(m, steps[1..], u);
    }
  }

  /**
   Mark cycles do not overlap: never more threads are active than help, the cycle number
   advances only when nobody helps and no work is left, helpers join only while the initiator
   has not withdrawn its request, and a cycle never starts in a bad state.
   */
  lemma CyclesDoNotOverlap(start: State, steps: seq<Step>, s: State)
    requires Initial(start) && Runs(start, steps, s)
    ensures s.activeCount <= s.helperCount
    ensures Enabled(s, Finish) ==> s.activeCount == 0 && s.helperCount == 0 && Quiescent(s)
    ensures MAIN in s.threads && (Pc_(s, MAIN).Outside? ==> !BadStart(s))
    ensures forall t :: Enabled(s, Join(t)) ==> IsHelping(Pc_(s, MAIN)) || Pc_(s, MAIN).MainDone?
  {
    InitialInv(start);
    RunKeepsInv(start, steps, s);
    assert ActiveSet(s.threads) <= HelpingSet(s.threads);
    SubsetSize(ActiveSet(s.threads), HelpingSet(s.threads));
  }

  /** Two threads in a cycle without work, for the run below. */
  function TwoThreads(main: Pc, other: Pc, wanted: bool, helpers: nat, active: nat): State {
    State(map[], {}, false, [], 0, 0, wanted, helpers, active, 0,
      map[MAIN := Helper(main, 0, [], 0), 1 := Helper(other, 0, [], 0)])
  }

  lemma TwoThreadsBegin()
    ensures var s := TwoThreads(Outside, Outside, false, 0, 0); var step := Begin(map[], {}, []);
      Enabled(s, step) && Apply(s, step) == TwoThreads(Entering, Outside, true, 1, 0)
  {
    assert Live([]) == [];
  }

  lemma TwoThreadsRun(s: State, step: Step, u: State, rest: seq<Step>, w: State)
    requires Enabled(s, step) && Apply(s, step) == u && Runs(u, rest, w)
    ensures Runs(s, [step] + rest, w)
  {
    assert ([step] + rest)[1..] == rest;
    assert Leads(s, step, u);
  }

  lemma MainEnters()
    ensures Runs(TwoThreads(Outside, Outside, false, 0, 0), [Begin(map[], {}, []), Enter(MAIN)],
      TwoThreads(AtLoop, Outside, true, 1, 1))
  {
    var enter := TwoThreads(Entering, Outside, true, 1, 0);
    var loop := TwoThreads(AtLoop, Outside, true, 1, 1);
    TwoThreadsBegin();
    TwoThreadsRun(enter, Enter(MAIN), loop, [], loop);
    TwoThreadsRun(TwoThreads(Outside, Outside, false, 0, 0), Begin(map[], {}, []), enter, [Enter(MAIN)], loop);
    assert [Begin(map[], {}, [])] + [Enter(MAIN)] == [Begin(map[], {}, []), Enter(MAIN)];
  }

  lemma MainLooks()
    ensures Runs(TwoThreads(AtLoop, Outside, true, 1, 1), [ReadFirst(MAIN), FixFirst(MAIN)],
      TwoThreads(AtTop, Outside, true, 1, 1))
  {
    var top := TwoThreads(AtTop, Outside, true, 1, 1);
    var got := TwoThreads(GotFirst(0), Outside, true, 1, 1);
    TwoThreadsRun(got, FixFirst(MAIN), top, [], top);
    TwoThreadsRun(TwoThreads(AtLoop, Outside, true, 1, 1), ReadFirst(MAIN), got, [FixFirst(MAIN)], top);
    assert [ReadFirst(MAIN)] + [FixFirst(MAIN)] == [ReadFirst(MAIN), FixFirst(MAIN)];
  }

  lemma MainGivesUp()
    ensures Runs(TwoThreads(AtTop, Outside, true, 1, 1), [ReadTop(MAIN), LockTop(MAIN)],
      TwoThreads(Waiting, Outside, true, 1, 0))
  {
    var dry := TwoThreads(Waiting, Outside, true, 1, 0);
    var locked := TwoThreads(NeedLock, Outside, true, 1, 1);
    TwoThreadsRun(locked, LockTop(MAIN), dry, [], dry);
    TwoThreadsRun(TwoThreads(AtTop, Outside, true, 1, 1), ReadTop(MAIN), locked, [LockTop(MAIN)], dry);
    assert [ReadTop(MAIN)] + [LockTop(MAIN)] == [ReadTop(MAIN), LockTop(MAIN)];
  }

  lemma MainLeaves()
    ensures Runs(TwoThreads(Waiting, Outside, true, 1, 0), [Leave(MAIN)], TwoThreads(MainDone, Outside, true, 0, 0))
  {
    var done := TwoThreads(MainDone, Outside, true, 0, 0);
    TwoThreadsRun(TwoThreads(Waiting, Outside, true, 1, 0), Leave(MAIN), done, [], done);
  }

  lemma {:induction false} RunsAppend(s: State, first: seq<Step>, t: State, second: seq<Step>, u: State)
    requires Runs(s, first, t) && Runs(t, second, u)
    ensures Runs(s, first + second, u)
    decreases |first|
  {
    if first == [] {
      assert first + second == second;
    } else {
      var m :| Leads(s, first[0], m) && Runs(m, first[1..], t);
      RunsAppend(m, first[1..], t, second, u);
      assert (first + second)[1..] == first[1..] + second;
    }
  }

  /**
   The active count can leave zero again within a cycle: a helper may join after the last active
   thread has left, as long as the initiator has not withdrawn its request for help.
   */
  lemma LateHelperReactivates()
    ensures exists start, steps, dry, again ::
      && Initial(start) && Runs(start, steps + [LockTop(MAIN), Leave(MAIN)], dry)
      && dry.activeCount == 0 && dry.helperCount == 0
      && Runs(dry, [Join(1), Enter(1)], again) && again.activeCount == 1
  {
    var dry := TwoThreads(MainDone, Outside, true, 0, 0);
    var again := TwoThreads(MainDone, AtLoop, true, 1, 1);
    var start, steps := MainRunsDry();
    HelperJoinsLate();
    assert Runs(start, steps + [LockTop(MAIN), Leave(MAIN)], dry) && Runs(dry, [Join(1), Enter(1)], again);
  }

  lemma MainRunsDry() returns (start: State, steps: seq<Step>)
    ensures Initial(start) && Runs(start, steps + [LockTop(MAIN), Leave(MAIN)],
      TwoThreads(MainDone, Outside, true, 0, 0))
  {
    start := TwoThreads(Outside, Outside, false, 0, 0);
    var waiting := TwoThreads(Waiting, Outside, true, 1, 0);
    var done := TwoThreads(MainDone, Outside, true, 0, 0);
    var loop := TwoThreads(AtLoop, Outside, true, 1, 1);
    var top := TwoThreads(AtTop, Outside, true, 1, 1);
    MainEnters();
    MainLooks();
    MainGivesUp();
    MainLeaves();
    var first, second, third := [Begin(map[], {}, []), Enter(MAIN)], [ReadFirst(MAIN), FixFirst(MAIN)],
      [ReadTop(MAIN), LockTop(MAIN)];
    RunsAppend(start, first, loop, second, top);
    RunsAppend(start, first + second, top, third, waiting);
    RunsAppend(start, first + second + third, waiting, [Leave(MAIN)], done);
    steps := first + second + [ReadTop(MAIN)];
    assert first + second + third + [Leave(MAIN)] == steps + [LockTop(MAIN), Leave(MAIN)];
  }

  lemma HelperJoinsLate()
    ensures Runs(TwoThreads(MainDone, Outside, true, 0, 0), [Join(1), Enter(1)],
      TwoThreads(MainDone, AtLoop, true, 1, 1))
  {
    var dry := TwoThreads(MainDone, Outside, true, 0, 0);
    var joined := TwoThreads(MainDone, Entering, true, 1, 0);
    var again := TwoThreads(MainDone, AtLoop, true, 1, 1);
    TwoThreadsRun(joined, Enter(1), again, [], again);
    TwoThreadsRun(dry, Join(1), joined, [Enter(1)], again);
    assert [Join(1)] + [Enter(1)] == [Join(1), Enter(1)];
  }

  /** Nobody is active and nothing is on the shared stack. */
  ghost predicate Dry(s: State) {
    s.activeCount == 0 && s.first >= |s.shared|
  }

  /** Within a cycle the active count leaves zero exactly when a helper that has joined enters. */
  lemma OnlyEnterReactivates(s: State, step: Step)
    requires CountsOk(s) && Dry(s) && Enabled(s, step) && !step.Begin?
    ensures Apply(s, step).activeCount != 0 <==> step.Enter?
    ensures !step.Enter? ==> Dry(Apply(s, step))
  {
    NobodyActive(s);
    if IsLocal(step) {
      NobodyWorks(s, step);
    }
  }

  lemma NobodyWorks(s: State, step: Step)
    requires (forall t :: t in s.threads ==> !IsActive(s.threads[t].pc)) && IsLocal(step)
    ensures !Enabled(s, step)
  {
  }

  /** Over a whole run: it stays zero as long as nobody enters. */
  lemma {:induction false} DryUntilEntered(s: State, steps: seq<Step>, u: State)
    requires Inv(s) && Dry(s) && Runs(s, steps, u)
    requires forall i :: 0 <= i < |steps| ==> !steps[i].Begin? && !steps[i].Enter?
    ensures Dry(u)
    decreases |steps|
  {
    if steps != [] {
      var m :| Leads(s, steps[0], m) && Runs(m, steps[1..], u);
      LeadsFacts(s, steps[0], m);
      OnlyEnterReactivates(s, steps[0]);
      StepKeepsInv(s, steps[0]);
      DryUntilEntered(m, steps[1..], u);
    }
  }
}
