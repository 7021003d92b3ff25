/**
 What the parallel marker does with its work: it drops entries exactly when a stack overflows, it marks
 nothing but what has to be marked, and it never gets stuck.
 */
module ParallelWork {
  import opened Config
  import opened ObjectGraph
  import opened ParallelModel
  import opened ParallelSafety
  import MarkExact

  // ----------------------------------------------------------------- overflow

  /** The shared stack has no room for `n` more entries. */
  predicate SharedFull(s: State, n: nat) {
    |s.shared| + n > s.size
  }

  /** A step that has to give up work because the stack it goes to is full. */
  predicate Overflows(s: State, step: Step) {
    match step
    case ReturnAll(t) => t in s.threads && SharedFull(s, |s.threads[t].local|)
    case ReturnBottom(t) => t in s.threads && s.threads[t].local != [] && SharedFull(s, (|s.threads[t].local| - 1) / 2)
    case PushMarked(t) =>
      && t in s.threads && |s.threads[t].local| >= LOCAL_MARK_STACK_SIZE
      && s.threads[t].pc.Working? && s.threads[t].pc.cursor.Pushing?
      && InHeap(s.threads[t].pc.cursor.obj) in s.mem && s.mem[InHeap(s.threads[t].pc.cursor.obj)] != []
    case _ => false
  }

  lemma QuietNeverInvalidates(s: State, step: Step)
    requires Enabled(s, step) && IsQuiet(step)
    ensures Apply(s, step).invalid == s.invalid
  {
    QuietHandsOn(s, step);
  }

  lemma WorkInvalidates(s: State, step: Step)
    requires Enabled(s, step) && MovesWork(step) && !s.invalid
    ensures Apply(s, step).invalid <==> Overflows(s, step)
  {
  }

  /** Within a cycle the marks become invalid exactly when a stack overflows. */
  lemma OnlyOverflowInvalidates(s: State, step: Step)
    requires Enabled(s, step) && !step.Begin? && !s.invalid
    ensures Apply(s, step).invalid <==> Overflows(s, step)
  {
    if IsQuiet(step) {
      QuietNeverInvalidates(s, step);
    } else if MovesWork(step) {
      WorkInvalidates(s, step);
    }
  }

  /**
   With room for them, a helper's entries go to the shared stack: all of them, or the older ones while the
   helper keeps the others.  What was on the shared stack stays as it is.
   */
  lemma ReturnsWork(s: State, step: Step, u: State)
    requires Leads(s, step, u) && (step.ReturnAll? || step.ReturnBottom?) && !Overflows(s, step)
    ensures step.t in s.threads && step.t in u.threads
    ensures var h, n := s.threads[step.t], |u.shared| - |s.shared|;
      && 0 < n <= |h.local| && (step.ReturnAll? <==> n == |h.local|)
      && (step.ReturnBottom? ==> 2 * n < |h.local| <= 2 * n + 2)
      && u.shared[..|s.shared|] == s.shared
      && (forall i :: 0 <= i < n ==> u.shared[|s.shared| + i] == Slot(h.local[i], true))
      && u.threads[step.t].local == h.local[n..]
  {
    LeadsFacts(s, step, u);
  }

  /** So no word of theirs gets lost. */
  lemma ReturnLosesNoWord(s: State, step: Step, u: State, l: Loc, k: nat)
    requires Leads(s, step, u) && (step.ReturnAll? || step.ReturnBottom?) && !Overflows(s, step)
    requires step.t in s.threads && OnEntries(s.threads[step.t].local, l, k)
    ensures step.t in u.threads && (OnLive(u.shared, l, k) || OnEntries(u.threads[step.t].local, l, k))
    ensures step.ReturnAll? ==> OnLive(u.shared, l, k)
  {
    ReturnsWork(s, step, u);
    WordsKept(s.shared, u.shared, s.threads[step.t].local, |u.shared| - |s.shared|, l, k);
  }

  lemma WordsKept(shared: seq<Slot>, shared': seq<Slot>, local: seq<Entry>, n: nat, l: Loc, k: nat)
    requires n <= |local| && |shared'| == |shared| + n && OnEntries(local, l, k)
    requires forall i :: 0 <= i < n ==> shared'[|shared| + i] == Slot(local[i], true)
    ensures OnLive(shared', l, k) || OnEntries(local[n..], l, k)
    ensures n == |local| ==> OnLive(shared', l, k)
  {
    var i :| 0 <= i < |local| && Holds(local[i], l, k);
    if i < n {
      assert shared'[|shared| + i] == Slot(local[i], true);
    } else {
      assert local[n..][i - n] == local[i];
    }
  }

  /** A marked object is pushed on top of what the helper has; an overflow loses its newest entries, and no more. */
  lemma PushKeepsOlder(s: State, t: Thread)
    requires Enabled(s, PushMarked(t))
    ensures var h, u, o := s.threads[t], Apply(s, PushMarked(t)), s.threads[t].pc.cursor.obj;
      && t in u.threads && u.threads[t].pc.Working?
      && var local := u.threads[t].local;
         if InHeap(o) !in s.mem || s.mem[InHeap(o)] == [] then local == h.local
         else
           && 0 < |local| && local[|local| - 1] == Entry(InHeap(o), 0, |s.mem[InHeap(o)]|)
           && |local| - 1 <= |h.local| && local[..|local| - 1] == h.local[..|local| - 1]
           && |h.local| - (|local| - 1) <= (if Overflows(s, PushMarked(t)) then MARK_STACK_DISCARDS else 0)
  {
  }

  /** A long range is shared in two halves that overlap in one word. */
  lemma SplitsInHalves(s: State, t: Thread)
    requires Enabled(s, SplitLocal(t))
    ensures var h, u := s.threads[t], Apply(s, SplitLocal(t)); var n := |h.local|;
      && t in u.threads && u.shared == s.shared && u.marked == s.marked
      && var local := u.threads[t].local;
         && |local| == n + 1 && local[..n - 1] == h.local[..n - 1]
         && local[n - 1].loc == local[n].loc == h.local[n - 1].loc
         && local[n - 1].lo == h.local[n - 1].lo && local[n].hi == h.local[n - 1].hi
         && local[n - 1].hi == local[n].lo + 1
         && (h.local[n - 1].lo <= h.local[n - 1].hi ==>
              2 * (local[n].lo - h.local[n - 1].lo) <= h.local[n - 1].hi - h.local[n - 1].lo
                <= 2 * (local[n].lo - h.local[n - 1].lo) + 1)
  {
  }

  /** A run within a cycle in which no stack overflows. */
  ghost predicate CalmRuns(s: State, steps: seq<Step>, u: State)
    decreases |steps|
  {
    if steps == [] then s == u
    else !steps[0].Begin? && !Overflows(s, steps[0]) && exists m :: Leads(s, steps[0], m) && CalmRuns(m, steps[1..], u)
  }

  lemma {:induction false} CalmRunStaysValid(s: State, steps: seq<Step>, u: State)
    requires CalmRuns(s, steps, u) && !s.invalid
    ensures Runs(s, steps, u) && !u.invalid && forall i :: 0 <= i < |steps| ==> !steps[i].Begin?
    decreases |steps|
  {
    if steps != [] {
      var m :| Leads(s, steps[0], m) && CalmRuns(m, steps[1..], u);
      LeadsFacts(s, steps[0], m);
      OnlyOverflowInvalidates(s, steps[0]);
      CalmRunStaysValid(m, steps[1..], u);
      forall i | 0 <= i < |steps| ensures !steps[i].Begin? {
        assert i > 0 ==> steps[i] == steps[1..][i - 1];
      }
    }
  }

  /** If no stack has overflowed since the marks were valid, they are complete when a helper leaves. */
  lemma CalmTermination(start: State, before: seq<Step>, s: State, steps: seq<Step>, u: State, t: Thread)
    requires Initial(start) && Runs(start, before, s) && !s.invalid && CalmRuns(s, steps, u) && Enabled(u, Leave(t))
    ensures Quiescent(u) && MarksComplete(u.mem, u.marked)
  {
    CalmRunStaysValid(s, steps, u);
    RunsAppend(start, before, s, steps, u);
    TerminationIsDetected(start, before + steps, u, t);
  }

  // ----------------------------------------------------------------- stealing

  /**
   While it steals, a helper has taken at most one entry more than its quota: 1 from a short stack, else 5.
   It begins with the first slot it has not passed, and does not stop there.
   */
  ghost predicate StealsFew(h: Helper) {
    h.pc.Stealing? ==>
      && h.myFirst <= h.pc.high && h.pc.max <= (if h.pc.high - h.myFirst < 10 then 1 else 5)
      && |h.local| <= h.pc.taken && (h.pc.seen ==> h.pc.taken <= h.pc.max) && |h.local| <= h.pc.max + 1
      && h.myFirst <= h.pc.next && (h.pc.next == h.myFirst ==> h.pc.taken == 0 && h.myFirst < h.pc.high)
  }

  ghost predicate AllStealFew(s: State) {
    forall t :: t in s.threads ==> StealsFew(s.threads[t])
  }

  lemma OthersStealFew(s: State, u: State, t: Thread)
    requires AllStealFew(s) && t in s.threads && t in u.threads && u.threads == s.threads[t := u.threads[t]]
    requires StealsFew(u.threads[t])
    ensures AllStealFew(u)
  {
  }

  lemma TopStealsFew(s: State, step: Step)
    requires HelpersOk(s) && AllStealFew(s) && Enabled(s, step) && (step.ReadTop? || step.LockTop?)
    ensures AllStealFew(Apply(s, step))
  {
    assert HelperOk(s, s.threads[step.t]);
    OthersStealFew(s, Apply(s, step), step.t);
  }

  lemma StealStealsFew(s: State, step: Step)
    requires AllStealFew(s) && Enabled(s, step) && (step.StealRead? || step.StealTake?)
    ensures AllStealFew(Apply(s, step))
  {
    assert StealsFew(s.threads[step.t]);
    OthersStealFew(s, Apply(s, step), step.t);
  }

  lemma WorkStealsFew(s: State, step: Step)
    requires AllStealFew(s) && Enabled(s, step) && MovesWork(step) && !step.StealTake?
    ensures AllStealFew(Apply(s, step))
  {
    OthersStealFew(s, Apply(s, step), step.t);
  }

  lemma StepStealsFew(s: State, step: Step)
    requires HelpersOk(s) && AllStealFew(s) && Enabled(s, step)
    ensures AllStealFew(Apply(s, step))
  {
    if step.ReadTop? || step.LockTop? {
      TopStealsFew(s, step);
    } else if step.StealRead? || step.StealTake? {
      StealStealsFew(s, step);
    } else if MovesWork(step) {
      WorkStealsFew(s, step);
    } else if step.Begin? || step.WithdrawHelp? || step.Finish? {
      OthersStealFew(s, Apply(s, step), MAIN);
    } else {
      OthersStealFew(s, Apply(s, step), step.t);
    }
  }

  lemma {:induction false} RunStealsFew(s: State, steps: seq<Step>, u: State)
    requires Inv(s) && AllStealFew(s) && Runs(s, steps, u)
    ensures AllStealFew(u)
    decreases |steps|
  {
    if steps != [] {
      var m :| Leads(s, steps[0], m) && Runs(m, steps[1..], u);
      LeadsFacts(s, steps[0], m);
      StepKeepsInv(s, steps[0]);
      StepStealsFew(s, steps[0]);
      RunStealsFew(m, steps[1..], u);
    }
  }

  /** On every run, a helper never takes more than two entries from a short stack or six from a long one. */
  lemma HelpersStealFew(start: State, steps: seq<Step>, s: State, t: Thread)
    requires Initial(start) && Runs(start, steps, s) && t in s.threads && s.threads[t].pc.Stealing?
    ensures var h := s.threads[t]; |h.local| <= if h.pc.high < h.myFirst + 10 then 2 else 6
  {
    InitialInv(start);
    RunStealsFew(start, steps, s);
    assert StealsFew(s.threads[t]);
  }

  // ---------------------------------------------------------------- precision

  ghost predicate LiveEntry(mem: Memory, kept: set<Obj>, e: Entry) {
    MarkExact.LiveArea(mem, kept, e.loc)
  }

  ghost predicate LiveEntries(mem: Memory, kept: set<Obj>, stack: seq<Entry>) {
    forall i :: 0 <= i < |stack| ==> LiveEntry(mem, kept, stack[i])
  }

  ghost predicate LiveCursor(mem: Memory, kept: set<Obj>, c: Cursor) {
    match c
    case Idle => true
    case Scanning(r) => LiveEntry(mem, kept, r)
    case Unmarked(r, o) => LiveEntry(mem, kept, r) && MarkExact.Live(mem, kept, o)
    case Pushing(r, o) => LiveEntry(mem, kept, r) && MarkExact.Live(mem, kept, o)
  }

  ghost predicate LiveHelper(mem: Memory, kept: set<Obj>, h: Helper) {
    LiveEntries(mem, kept, h.local) && (h.pc.Working? ==> LiveCursor(mem, kept, h.pc.cursor))
  }

  ghost predicate LiveShared(mem: Memory, kept: set<Obj>, shared: seq<Slot>) {
    forall j :: 0 <= j < |shared| ==> LiveEntry(mem, kept, shared[j].entry)
  }

  ghost predicate LiveMarks(mem: Memory, kept: set<Obj>, marked: set<Obj>) {
    forall o :: o in marked ==> MarkExact.Live(mem, kept, o)
  }

  ghost predicate LiveHelpers(mem: Memory, kept: set<Obj>, threads: map<Thread, Helper>) {
    forall t :: t in threads ==> LiveHelper(mem, kept, threads[t])
  }

  /** Everything marked, and everything in anybody's hands, is led to by `kept` or by a root. */
  ghost predicate Precise(s: State, kept: set<Obj>) {
    LiveMarks(s.mem, kept, s.marked) && LiveShared(s.mem, kept, s.shared) && LiveHelpers(s.mem, kept, s.threads)
  }

  lemma PreciseMove(s: State, u: State, t: Thread, kept: set<Obj>)
    requires Precise(s, kept) && u.mem == s.mem && u.marked == s.marked && LiveShared(u.mem, kept, u.shared)
    requires t in u.threads && u.threads == s.threads[t := u.threads[t]] && LiveHelper(u.mem, kept, u.threads[t])
    ensures Precise(u, kept)
  {
  }

  /** Steps of a thread that move no work. */
  lemma QuietPrecise(s: State, step: Step, kept: set<Obj>)
    requires Precise(s, kept) && Enabled(s, step) && IsQuiet(step)
    ensures Precise(Apply(s, step), kept)
  {
    var u := Apply(s, step);
    QuietHandsOn(s, step);
    QuietKeepsLive(s, step, kept);
    PreciseMove(s, u, step.t, kept);
  }

  lemma QuietKeepsLive(s: State, step: Step, kept: set<Obj>)
    requires Precise(s, kept) && Enabled(s, step) && IsQuiet(step)
    ensures var u := Apply(s, step);
      step.t in u.threads && u.shared == s.shared && LiveHelper(s.mem, kept, u.threads[step.t])
  {
    assert LiveHelper(s.mem, kept, s.threads[step.t]);
    if IsCountingStep(step) {
      CountingKeepsLive(s, step, kept);
    }
  }

  lemma CountingKeepsLive(s: State, step: Step, kept: set<Obj>)
    requires Enabled(s, step) && IsCountingStep(step) && LiveHelper(s.mem, kept, s.threads[step.t])
    ensures var u := Apply(s, step);
      step.t in u.threads && u.shared == s.shared && LiveHelper(s.mem, kept, u.threads[step.t])
  {
  }

  lemma MainPrecise(s: State, step: Step, kept: set<Obj>)
    requires Precise(s, kept) && Enabled(s, step) && (step.WithdrawHelp? || step.Finish?)
    ensures Precise(Apply(s, step), kept)
  {
    assert LiveHelper(s.mem, kept, s.threads[MAIN]);
    PreciseMove(s, Apply(s, step), MAIN, kept);
  }

  lemma StealPrecise(s: State, t: Thread, kept: set<Obj>)
    requires Precise(s, kept) && Enabled(s, StealTake(t))
    ensures Precise(Apply(s, StealTake(t)), kept)
  {
    assert LiveHelper(s.mem, kept, s.threads[t]);
    PreciseMove(s, Apply(s, StealTake(t)), t, kept);
  }

  lemma SplitPrecise(s: State, t: Thread, kept: set<Obj>)
    requires Precise(s, kept) && Enabled(s, SplitLocal(t))
    ensures Precise(Apply(s, SplitLocal(t)), kept)
  {
    assert LiveHelper(s.mem, kept, s.threads[t]);
    PreciseMove(s, Apply(s, SplitLocal(t)), t, kept);
  }

  lemma TakePrecise(s: State, t: Thread, kept: set<Obj>)
    requires Precise(s, kept) && Enabled(s, TakeLocal(t))
    ensures Precise(Apply(s, TakeLocal(t)), kept)
  {
    assert LiveHelper(s.mem, kept, s.threads[t]);
    PreciseMove(s, Apply(s, TakeLocal(t)), t, kept);
  }

  lemma ScanPrecise(s: State, t: Thread, kept: set<Obj>)
    requires Precise(s, kept) && Enabled(s, ScanWord(t))
    ensures Precise(Apply(s, ScanWord(t)), kept)
  {
    var h := s.threads[t];
    assert LiveHelper(s.mem, kept, h);
    var e := h.pc.cursor.range;
    if e.lo < Words(s.mem, e.loc) && s.mem[e.loc][e.lo].To? {
      MarkExact.LiveWord(s.mem, kept, e.loc, e.lo);
    }
    PreciseMove(s, Apply(s, ScanWord(t)), t, kept);
  }

  lemma SetMarkPrecise(s: State, t: Thread, kept: set<Obj>)
    requires Precise(s, kept) && Enabled(s, SetMark(t))
    ensures Precise(Apply(s, SetMark(t)), kept)
  {
    assert LiveHelper(s.mem, kept, s.threads[t]);
    var u := Apply(s, SetMark(t));
    PreciseMove(s, u.(marked := s.marked), t, kept);
  }

  lemma PushPrecise(s: State, t: Thread, kept: set<Obj>)
    requires Precise(s, kept) && Enabled(s, PushMarked(t))
    ensures Precise(Apply(s, PushMarked(t)), kept)
  {
    assert LiveHelper(s.mem, kept, s.threads[t]);
    PreciseMove(s, Apply(s, PushMarked(t)), t, kept);
  }

  lemma ReturnPrecise(s: State, step: Step, kept: set<Obj>)
    requires Precise(s, kept) && Enabled(s, step) && (step.ReturnAll? || step.ReturnBottom?)
    ensures Precise(Apply(s, step), kept)
  {
    var h := s.threads[step.t];
    assert LiveHelper(s.mem, kept, h);
    if step.ReturnAll? {
      ReturnedPrecise(s, step.t, h.(pc := AtLoop, local := []), h.local, kept);
    } else {
      var cut := (|h.local| - 1) / 2;
      ReturnedPrecise(s, step.t, h.(local := h.local[cut..]), h.local[..cut], kept);
    }
  }

  lemma ReturnedPrecise(s: State, t: Thread, h: Helper, stack: seq<Entry>, kept: set<Obj>)
    requires Precise(s, kept) && t in s.threads && LiveHelper(s.mem, kept, h) && LiveEntries(s.mem, kept, stack)
    ensures Precise(Return(WithThread(s, t, h), stack), kept)
  {
    PreciseMove(s, Return(WithThread(s, t, h), stack), t, kept);
  }

  lemma WorkPrecise(s: State, step: Step, kept: set<Obj>)
    requires Precise(s, kept) && Enabled(s, step) && MovesWork(step)
    ensures Precise(Apply(s, step), kept)
  {
    match step
    case StealTake(t) => StealPrecise(s, t, kept);
    case SplitLocal(t) => SplitPrecise(s, t, kept);
    case TakeLocal(t) => TakePrecise(s, t, kept);
    case ScanWord(t) => ScanPrecise(s, t, kept);
    case PushMarked(t) => PushPrecise(s, t, kept);
    case ReturnAll(t) => ReturnPrecise(s, step, kept);
    case ReturnBottom(t) => ReturnPrecise(s, step, kept);
  }

  /** No step of a thread marks or hands on anything that is not live. */
  lemma StepPrecise(s: State, step: Step, kept: set<Obj>)
    requires Precise(s, kept) && Enabled(s, step) && !step.Begin?
    ensures Precise(Apply(s, step), kept)
  {
    if step.SetMark? {
      SetMarkPrecise(s, step.t, kept);
    } else if step.WithdrawHelp? || step.Finish? {
      MainPrecise(s, step, kept);
    } else if MovesWork(step) {
      WorkPrecise(s, step, kept);
    } else {
      QuietPrecise(s, step, kept);
    }
  }

  lemma {:induction false} RunPrecise(s: State, steps: seq<Step>, u: State, kept: set<Obj>)
    requires Precise(s, kept) && Runs(s, steps, u) && forall i :: 0 <= i < |steps| ==> !steps[i].Begin?
    ensures Precise(u, kept)
    decreases |steps|
  {
    if steps != [] {
      var m :| Leads(s, steps[0], m) && Runs(m, steps[1..], u);
      LeadsFacts(s, steps[0], m);
      StepPrecise(s, steps[0], kept);
      RunPrecise(m, steps[1..], u, kept);
    }
  }

  /** A cycle begins precisely if the stack it begins with does. */
  lemma BeginPrecise(b: State, begin: Step, kept: set<Obj>)
    requires Inv(b) && begin.Begin? && Enabled(b, begin)
    requires LiveMarks(begin.mem, kept, begin.marked) && LiveEntries(begin.mem, kept, begin.stack)
    ensures Precise(Apply(b, begin), kept)
  {
    var u := Apply(b, begin);
    NobodyHelping(b);
    forall t | t in u.threads ensures LiveHelper(u.mem, kept, u.threads[t]) {
      assert HelperOk(b, b.threads[t]);
    }
  }

  // ----------------------------------------------------------------- progress

  ghost predicate CanMove(s: State, t: Thread) {
    exists step :: IsThreadStep(step) && step.t == t && Enabled(s, step)
  }

  lemma Moves(s: State, step: Step)
    requires IsThreadStep(step) && Enabled(s, step)
    ensures CanMove(s, step.t)
  {
  }

  /** An active thread always has something to do next. */
  lemma ActiveCanMove(s: State, t: Thread)
    requires t in s.threads && IsActive(s.threads[t].pc)
    ensures CanMove(s, t)
  {
    match s.threads[t].pc
    case AtLoop => Moves(s, ReadFirst(t));
    case GotFirst(_) => Moves(s, FixFirst(t));
    case AtTop => Moves(s, ReadTop(t));
    case NeedLock => Moves(s, LockTop(t));
    case Stealing(_, _, _, _, _) => StealingCanMove(s, t);
    case Working(c) => WorkingCanMove(s, t);
  }

  lemma StealingCanMove(s: State, t: Thread)
    requires t in s.threads && s.threads[t].pc.Stealing?
    ensures CanMove(s, t)
  {
    var pc := s.threads[t].pc;
    if pc.seen {
      Moves(s, StealTake(t));
    } else if pc.next < pc.high && pc.taken <= pc.max {
      Moves(s, StealRead(t));
    } else {
      Moves(s, StealEnd(t));
    }
  }

  lemma WorkingCanMove(s: State, t: Thread)
    requires t in s.threads && s.threads[t].pc.Working?
    ensures CanMove(s, t)
  {
    match s.threads[t].pc.cursor
    case Idle => if s.threads[t].local == [] { Moves(s, LocalEmpty(t)); } else { Moves(s, TakeLocal(t)); }
    case Scanning(r) => if r.lo < r.hi { Moves(s, ScanWord(t)); } else { Moves(s, RangeEnd(t)); }
    case Unmarked(_, _) => Moves(s, SetMark(t));
    case Pushing(_, _) => Moves(s, PushMarked(t));
  }

  lemma SomeoneCounted(s: State) returns (t: Thread)
    requires CountsOk(s) && s.activeCount > 0
    ensures t in s.threads && IsActive(s.threads[t].pc)
  {
    t :| t in ActiveSet(s.threads);
  }

  /** If a thread helps, it can move, or it waits and an active one can. */
  lemma HelperCanMove(s: State, t: Thread) returns (v: Thread)
    requires CountsOk(s) && t in s.threads && IsHelping(s.threads[t].pc)
    ensures CanMove(s, v)
  {
    v := t;
    if IsActive(s.threads[t].pc) {
      ActiveCanMove(s, t);
    } else if s.threads[t].pc.Entering? {
      Moves(s, Enter(t));
    } else if s.first < |s.shared| {
      Moves(s, Wake(t));
    } else if s.activeCount == 0 {
      Moves(s, Leave(t));
    } else {
      v := SomeoneCounted(s);
      ActiveCanMove(s, v);
    }
  }

  /** The protocol never gets stuck: until a cycle is over, some thread can take a step. */
  lemma NeverStuck(s: State)
    requires Inv(s) && !Pc_(s, MAIN).Outside?
    ensures exists step :: Enabled(s, step) && !step.Begin?
  {
    var pc := Pc_(s, MAIN);
    if pc.MainDone? {
      assert Enabled(s, WithdrawHelp);
    } else if pc.MainWait? && s.helperCount == 0 {
      assert Enabled(s, Finish);
    } else {
      var t := MAIN;
      if pc.MainWait? {
        t :| t in HelpingSet(s.threads);
      }
      var v := HelperCanMove(s, t);
    }
  }
}
