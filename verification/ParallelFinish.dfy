/**
 A parallel cycle can always be brought to its end.  From any state a thread can run by itself until it waits:
 there is a measure of the work in front of it that each of its steps brings down.
 */
module ParallelFinish {
  import opened Config
  import opened ObjectGraph
  import opened ParallelModel
  import opened ParallelSafety
  import opened ParallelWork

  // ------------------------------------------------------------- the work ahead

  /** The objects that are neither marked nor just about to be marked by the thread. */
  ghost function Unmarked(mem: Memory, marked: set<Obj>, pc: Pc): set<Obj> {
    set l | l in mem && l.InHeap? && l.obj !in marked &&
      !(pc.Working? && pc.cursor.Unmarked? && pc.cursor.obj == l.obj) :: l.obj
  }

  function EntryCost(e: Entry): nat {
    3 * Width(e) + 2
  }

  function LocalCost(local: seq<Entry>): nat {
    if local == [] then 0 else LocalCost(local[..|local| - 1]) + EntryCost(local[|local| - 1])
  }

  /** The live slots, but for the one that the thread is about to take. */
  function SharedCost(shared: seq<Slot>, claim: int): nat {
    if shared == [] then 0
    else
      var n := |shared| - 1;
      SharedCost(shared[..n], claim) + (if shared[n].live && n != claim then EntryCost(shared[n].entry) + 3 else 0)
  }

  function CursorCost(mem: Memory, c: Cursor): nat {
    match c
    case Idle => 0
    case Scanning(r) => Width(r) + 1
    case Unmarked(r, o) => Width(r) + 1 + (3 * Words(mem, InHeap(o)) + 2) + 2
    case Pushing(r, o) => Width(r) + 1 + (3 * Words(mem, InHeap(o)) + 2) + 1
  }

  function Claim(pc: Pc): int {
    if pc.Stealing? && pc.seen then pc.next else -1
  }

  /** What a thread has in hand besides its local stack. */
  function HandCost(mem: Memory, shared: seq<Slot>, pc: Pc): nat {
    if pc.Working? then CursorCost(mem, pc.cursor)
    else if pc.Stealing? && pc.seen && pc.next < |shared| then EntryCost(shared[pc.next].entry) + 2
    else 0
  }

  function Cost(s: State, t: Thread): nat
    requires t in s.threads
  {
    var h := s.threads[t];
    LocalCost(h.local) + HandCost(s.mem, s.shared, h.pc) + SharedCost(s.shared, Claim(h.pc))
  }

  /** The thread has passed all slots, but the shared index of the first slot that counts lags behind. */
  predicate Lags(s: State, h: Helper) {
    s.first < |s.shared| <= h.myFirst
  }

  /** How far the thread is in its loop. */
  function LoopRank(s: State, h: Helper): (r: nat)
    ensures r < 24
  {
    match h.pc
    case Stealing(next, _, _, _, _) => if next == h.myFirst then 0 else 23
    case Working(_) => 22
    case GotFirst(f) => if !Lags(s, h) then 4 else if f == s.first then 7 else 12
    case AtTop => if Lags(s, h) then 11 else 3
    case NeedLock => if Lags(s, h) then 10 else 2
    case Waiting => if Lags(s, h) then 9 else if s.first < |s.shared| then 6 else 1
    case AtLoop => if Lags(s, h) then 8 else 5
    case _ => 0
  }

  /** How many slots are in front of the thread. */
  function Ahead(s: State, h: Helper): nat {
    var pos := if h.pc.Stealing? then h.pc.next else h.myFirst;
    if pos < |s.shared| then |s.shared| - pos else 0
  }

  function LoopCost(s: State, t: Thread): nat
    requires t in s.threads
  {
    24 * Ahead(s, s.threads[t]) + LoopRank(s, s.threads[t])
  }

  /** The thread is at work, or it waits although there is something to look at. */
  predicate Busy(s: State, t: Thread) {
    t in s.threads && (IsActive(s.threads[t].pc) || (s.threads[t].pc.Waiting? && s.first < |s.shared|))
  }

  /** The thread waits, and may leave as soon as nobody is active. */
  predicate Settled(s: State, t: Thread) {
    t in s.threads && s.threads[t].pc.Waiting? && s.first >= |s.shared|
  }

  /** What a thread does when it runs by itself. */
  function NextStep(s: State, t: Thread): Step
    requires t in s.threads
  {
    var h := s.threads[t];
    match h.pc
    case Waiting => Wake(t)
    case AtLoop => ReadFirst(t)
    case GotFirst(_) => FixFirst(t)
    case AtTop => ReadTop(t)
    case NeedLock => LockTop(t)
    case Stealing(next, high, taken, max, seen) =>
      if seen then StealTake(t) else if next < high && taken <= max then StealRead(t) else StealEnd(t)
    case Working(c) =>
      (match c
       case Idle => if h.local == [] then LocalEmpty(t) else TakeLocal(t)
       case Scanning(r) => if r.lo < r.hi then ScanWord(t) else RangeEnd(t)
       case Unmarked(_, _) => SetMark(t)
       case Pushing(_, _) => PushMarked(t))
    case _ => Enter(t)
  }

  /** `u` is `s` but for thread `t` and what is shared. */
  ghost predicate OnlyMoved(s: State, u: State, t: Thread) {
    && t in s.threads && t in u.threads && u.threads == s.threads[t := u.threads[t]]
    && u.mem == s.mem && u.markNo == s.markNo && u.helperCount == s.helperCount && u.helpWanted == s.helpWanted
  }

  /** Less work, or as much work and less of the loop, is ahead of thread `t` in `u` than in `s`. */
  ghost predicate Less(s: State, u: State, t: Thread)
    requires t in s.threads && t in u.threads
  {
    var a, b := |Unmarked(s.mem, s.marked, s.threads[t].pc)|, |Unmarked(u.mem, u.marked, u.threads[t].pc)|;
    b < a || (b == a && (Cost(u, t) < Cost(s, t) || (Cost(u, t) == Cost(s, t) && LoopCost(u, t) < LoopCost(s, t))))
  }

  ghost predicate Progress(s: State, u: State, t: Thread) {
    OnlyMoved(s, u, t) && (Busy(u, t) || Settled(u, t)) && Less(s, u, t)
  }

  ghost predicate AdvancesKey(k: nat, s: State, step: Step, u: State, t: Thread) {
    true
  }

  /** `step` leads from `s` to `u` and is progress for `t`.  Folded: available where the key is mentioned. */
  ghost predicate Advances(s: State, step: Step, u: State, t: Thread) {
    forall k: nat {:trigger AdvancesKey(k, s, step, u, t)} :: AdvancesKey(k, s, step, u, t) ==>
      Enabled(s, step) && u == Apply(s, step) && Progress(s, u, t)
  }

  lemma AdvancesFacts(s: State, step: Step, u: State, t: Thread)
    requires Advances(s, step, u, t)
    ensures Leads(s, step, u) && Progress(s, u, t)
  {
    assert AdvancesKey(0, s, step, u, t);
  }

  // ------------------------------------------------------------------ the loop

  /** Neither about to take an entry nor about to mark. */
  predicate EmptyHands(pc: Pc) {
    (pc.Working? ==> pc.cursor.Idle?) && (pc.Stealing? ==> !pc.seen)
  }

  lemma LoopLess(s: State, u: State, t: Thread)
    requires OnlyMoved(s, u, t) && u.marked == s.marked && u.shared == s.shared
    requires u.threads[t].local == s.threads[t].local
    requires EmptyHands(s.threads[t].pc) && EmptyHands(u.threads[t].pc) && LoopCost(u, t) < LoopCost(s, t)
    ensures Less(s, u, t)
  {
    assert Unmarked(u.mem, u.marked, u.threads[t].pc) == Unmarked(s.mem, s.marked, s.threads[t].pc);
  }

  lemma ReadFirstProgress(s: State, t: Thread) returns (u: State)
    requires HelpersOk(s) && Enabled(s, ReadFirst(t))
    ensures Advances(s, ReadFirst(t), u, t)
  {
    u := Apply(s, ReadFirst(t));
    LoopLess(s, u, t);
  }

  lemma FixFirstProgress(s: State, t: Thread) returns (u: State)
    requires HelpersOk(s) && Enabled(s, FixFirst(t))
    ensures Advances(s, FixFirst(t), u, t)
  {
    u := Apply(s, FixFirst(t));
    assert HelperOk(s, s.threads[t]);
    LoopLess(s, u, t);
  }

  lemma ReadTopProgress(s: State, t: Thread) returns (u: State)
    requires HelpersOk(s) && Enabled(s, ReadTop(t))
    ensures Advances(s, ReadTop(t), u, t)
  {
    u := Apply(s, ReadTop(t));
    assert HelperOk(s, s.threads[t]);
    LoopLess(s, u, t);
  }

  lemma LockTopProgress(s: State, t: Thread) returns (u: State)
    requires HelpersOk(s) && Enabled(s, LockTop(t))
    ensures Advances(s, LockTop(t), u, t)
  {
    u := Apply(s, LockTop(t));
    assert HelperOk(s, s.threads[t]);
    LoopLess(s, u, t);
  }

  lemma WakeProgress(s: State, t: Thread) returns (u: State)
    requires HelpersOk(s) && Enabled(s, Wake(t))
    ensures Advances(s, Wake(t), u, t)
  {
    u := Apply(s, Wake(t));
    LoopLess(s, u, t);
  }

  lemma LocalEmptyProgress(s: State, t: Thread) returns (u: State)
    requires HelpersOk(s) && Enabled(s, LocalEmpty(t))
    ensures Advances(s, LocalEmpty(t), u, t)
  {
    u := Apply(s, LocalEmpty(t));
    LoopLess(s, u, t);
  }

  lemma StealEndProgress(s: State, t: Thread) returns (u: State)
    requires AllStealFew(s) && Enabled(s, StealEnd(t))
    ensures Advances(s, StealEnd(t), u, t)
  {
    u := Apply(s, StealEnd(t));
    assert StealsFew(s.threads[t]);
    LoopLess(s, u, t);
  }

  // --------------------------------------------------------------------- costs

  lemma LocalPush(local: seq<Entry>, e: Entry)
    ensures LocalCost(local + [e]) == LocalCost(local) + EntryCost(e)
  {
    assert (local + [e])[..|local|] == local;
  }

  lemma {:induction false} LocalPrefix(local: seq<Entry>, k: nat)
    requires k <= |local|
    ensures LocalCost(local[..k]) <= LocalCost(local)
    decreases |local|
  {
    if k < |local| {
      var n := |local| - 1;
      LocalPrefix(local[..n], k);
      assert local[..n][..k] == local[..k];
    } else {
      assert local[..k] == local;
    }
  }

  lemma PushCost(local: seq<Entry>, e: Entry)
    ensures LocalCost(PushLocal(local, e)) <= LocalCost(local) + EntryCost(e)
  {
    if |local| < LOCAL_MARK_STACK_SIZE {
      LocalPush(local, e);
    } else {
      var k := if |local| < MARK_STACK_DISCARDS then 0 else |local| - MARK_STACK_DISCARDS;
      LocalPrefix(local, k);
      LocalPush(local[..k], e);
    }
  }

  /** A live slot costs more than its entry does in hand. */
  lemma {:induction false} ClaimOne(shared: seq<Slot>, i: nat)
    requires i < |shared| && shared[i].live
    ensures SharedCost(shared, -1) == SharedCost(shared, i) + EntryCost(shared[i].entry) + 3
    decreases |shared|
  {
    var n := |shared| - 1;
    if i < n {
      ClaimOne(shared[..n], i);
    } else {
      ClaimNone(shared[..n], i);
    }
  }

  lemma {:induction false} ClaimNone(shared: seq<Slot>, i: nat)
    requires |shared| <= i
    ensures SharedCost(shared, i) == SharedCost(shared, -1)
    decreases |shared|
  {
    if shared != [] {
      ClaimNone(shared[..|shared| - 1], i);
    }
  }

  /** A slot that was claimed costs nothing once it is dead. */
  lemma {:induction false} ClaimedDies(shared: seq<Slot>, i: nat)
    requires i < |shared|
    ensures SharedCost(shared[i := shared[i].(live := false)], -1) == SharedCost(shared, i)
    decreases |shared|
  {
    var n := |shared| - 1;
    var dead := shared[i := shared[i].(live := false)];
    if i < n {
      ClaimedDies(shared[..n], i);
      assert dead[..n] == shared[..n][i := shared[i].(live := false)];
    } else {
      ClaimNone(shared[..n], i);
      assert dead[..n] == shared[..n];
    }
  }

  // --------------------------------------------------------------------- steps

  lemma CostLess(s: State, u: State, t: Thread)
    requires OnlyMoved(s, u, t) && u.marked == s.marked && Cost(u, t) < Cost(s, t)
    requires !(s.threads[t].pc.Working? && s.threads[t].pc.cursor.Unmarked?)
    requires !(u.threads[t].pc.Working? && u.threads[t].pc.cursor.Unmarked?)
    ensures Less(s, u, t)
  {
    assert Unmarked(u.mem, u.marked, u.threads[t].pc) == Unmarked(s.mem, s.marked, s.threads[t].pc);
  }

  lemma StealReadProgress(s: State, t: Thread) returns (u: State)
    requires HelpersOk(s) && AllStealFew(s) && Enabled(s, StealRead(t))
    ensures Advances(s, StealRead(t), u, t)
  {
    u := Apply(s, StealRead(t));
    assert HelperOk(s, s.threads[t]);
    assert StealsFew(s.threads[t]);
    var next := s.threads[t].pc.next;
    if s.shared[next].live {
      ClaimOne(s.shared, next);
      CostLess(s, u, t);
    } else {
      LoopLess(s, u, t);
    }
  }

  lemma StealTakeProgress(s: State, t: Thread) returns (u: State)
    requires HelpersOk(s) && Enabled(s, StealTake(t))
    ensures Advances(s, StealTake(t), u, t)
  {
    u := Apply(s, StealTake(t));
    assert HelperOk(s, s.threads[t]);
    var h := s.threads[t];
    ClaimedDies(s.shared, h.pc.next);
    LocalPush(h.local, s.shared[h.pc.next].entry);
    CostLess(s, u, t);
  }

  lemma TakeLocalProgress(s: State, t: Thread) returns (u: State)
    requires HelpersOk(s) && Enabled(s, TakeLocal(t))
    ensures Advances(s, TakeLocal(t), u, t)
  {
    u := Apply(s, TakeLocal(t));
    assert HelperOk(s, s.threads[t]);
    TakeCost(s.mem, s.threads[t]);
    CostLess(s, u, t);
  }

  lemma TakeCost(mem: Memory, h: Helper)
    requires h.local != [] && EntriesOk(mem, h.local)
    ensures var g := TakeTop(h);
      g.pc.Working? && g.pc.cursor.Scanning? && LocalCost(g.local) + CursorCost(mem, g.pc.cursor) < LocalCost(h.local)
  {
    var n := |h.local| - 1;
    var e := h.local[n];
    if e.hi >= e.lo + SPLIT_RANGE_WORDS {
      LocalPush(h.local[..n], e.(lo := e.lo + SPLIT_RANGE_WORDS - 1));
    }
  }

  lemma RangeEndProgress(s: State, t: Thread) returns (u: State)
    requires Enabled(s, RangeEnd(t))
    ensures Advances(s, RangeEnd(t), u, t)
  {
    u := Apply(s, RangeEnd(t));
    CostLess(s, u, t);
  }

  lemma PushMarkedProgress(s: State, t: Thread) returns (u: State)
    requires Enabled(s, PushMarked(t))
    ensures Advances(s, PushMarked(t), u, t)
  {
    u := Apply(s, PushMarked(t));
    var h := s.threads[t];
    PushCost(h.local, Entry(InHeap(h.pc.cursor.obj), 0, Words(s.mem, InHeap(h.pc.cursor.obj))));
    CostLess(s, u, t);
  }

  lemma SetMarkProgress(s: State, t: Thread) returns (u: State)
    requires Enabled(s, SetMark(t))
    ensures Advances(s, SetMark(t), u, t)
  {
    u := Apply(s, SetMark(t));
    assert Unmarked(u.mem, u.marked, u.threads[t].pc) == Unmarked(s.mem, s.marked, s.threads[t].pc);
  }

  lemma ScanWordProgress(s: State, t: Thread) returns (u: State)
    requires SharedOk(s) && HelpersOk(s) && Enabled(s, ScanWord(t))
    ensures Advances(s, ScanWord(t), u, t)
  {
    u := Apply(s, ScanWord(t));
    var h := s.threads[t];
    assert HelperOk(s, h);
    var e := h.pc.cursor.range;
    var word := s.mem[e.loc][e.lo];
    if word.To? && word.obj !in s.marked {
      ClaimedObject(s.mem, s.marked, h.pc, u.threads[t].pc, word.obj);
    } else {
      CostLess(s, u, t);
    }
  }

  lemma ClaimedObject(mem: Memory, marked: set<Obj>, pc: Pc, pc': Pc, o: Obj)
    requires InHeap(o) in mem && o !in marked && !(pc.Working? && pc.cursor.Unmarked?)
    requires pc'.Working? && pc'.cursor.Unmarked? && pc'.cursor.obj == o
    ensures |Unmarked(mem, marked, pc')| < |Unmarked(mem, marked, pc)|
  {
    assert InHeap(o) in mem && o in Unmarked(mem, marked, pc);
    assert Unmarked(mem, marked, pc') == Unmarked(mem, marked, pc) - {o};
  }

  lemma LoopProgress(s: State, t: Thread) returns (u: State)
    requires HelpersOk(s) && Busy(s, t) && !s.threads[t].pc.Working? && !s.threads[t].pc.Stealing?
    ensures Advances(s, NextStep(s, t), u, t)
  {
    match s.threads[t].pc
    case Waiting => u := WakeProgress(s, t);
    case AtLoop => u := ReadFirstProgress(s, t);
    case GotFirst(_) => u := FixFirstProgress(s, t);
    case AtTop => u := ReadTopProgress(s, t);
    case NeedLock => u := LockTopProgress(s, t);
  }

  lemma StealProgress(s: State, t: Thread) returns (u: State)
    requires HelpersOk(s) && AllStealFew(s) && t in s.threads && s.threads[t].pc.Stealing?
    ensures Advances(s, NextStep(s, t), u, t)
  {
    var pc := s.threads[t].pc;
    if pc.seen {
      u := StealTakeProgress(s, t);
    } else if pc.next < pc.high && pc.taken <= pc.max {
      u := StealReadProgress(s, t);
    } else {
      u := StealEndProgress(s, t);
    }
  }

  lemma WorkProgress(s: State, t: Thread) returns (u: State)
    requires SharedOk(s) && HelpersOk(s) && t in s.threads && s.threads[t].pc.Working?
    ensures Advances(s, NextStep(s, t), u, t)
  {
    match s.threads[t].pc.cursor
    case Idle => if s.threads[t].local == [] { u := LocalEmptyProgress(s, t); } else { u := TakeLocalProgress(s, t); }
    case Scanning(r) => if r.lo < r.hi { u := ScanWordProgress(s, t); } else { u := RangeEndProgress(s, t); }
    case Unmarked(_, _) => u := SetMarkProgress(s, t);
    case Pushing(_, _) => u := PushMarkedProgress(s, t);
  }

  /** Whatever a thread has to do next, it can, and it is progress. */
  lemma NextStepProgress(s: State, t: Thread) returns (u: State)
    requires SharedOk(s) && HelpersOk(s) && AllStealFew(s) && Busy(s, t)
    ensures Advances(s, NextStep(s, t), u, t)
  {
    if s.threads[t].pc.Working? {
      u := WorkProgress(s, t);
    } else if s.threads[t].pc.Stealing? {
      u := StealProgress(s, t);
    } else {
      u := LoopProgress(s, t);
    }
  }

  // ---------------------------------------------------------------------- runs

  ghost predicate WithinCycle(steps: seq<Step>) {
    forall i :: 0 <= i < |steps| ==> !steps[i].Begin?
  }

  /** `steps` lead from `s` to `u` within the cycle, and `u` is again a state that can come up. */
  ghost predicate Continues(s: State, steps: seq<Step>, u: State) {
    Runs(s, steps, u) && WithinCycle(steps) && Inv(u) && AllStealFew(u)
  }

  lemma OneStep(s: State, step: Step, u: State)
    requires Inv(s) && AllStealFew(s) && Leads(s, step, u) && !step.Begin?
    ensures Continues(s, [step], u)
  {
    assert Inv(u) && AllStealFew(u) by {
      LeadsFacts(s, step, u);
      StepKeepsInv(s, step);
      StepStealsFew(s, step);
    }
    assert [step][0] == step && [step][1..] == [];
    assert Runs(u, [step][1..], u);
  }

  lemma Both(s: State, first: seq<Step>, m: State, second: seq<Step>, u: State)
    requires Continues(s, first, m) && Continues(m, second, u)
    ensures Continues(s, first + second, u)
  {
    RunsAppend(s, first, m, second, u);
  }

  lemma OnlyMovedTwice(s: State, m: State, u: State, t: Thread)
    requires OnlyMoved(s, m, t) && OnlyMoved(m, u, t)
    ensures OnlyMoved(s, u, t)
  {
  }

  /** By itself a busy thread gets to where it waits and has nothing left to look at. */
  lemma {:induction false} SoloRun(s: State, t: Thread) returns (steps: seq<Step>, u: State)
    requires Inv(s) && AllStealFew(s) && Busy(s, t)
    ensures Continues(s, steps, u) && OnlyMoved(s, u, t) && Settled(u, t)
    decreases |Unmarked(s.mem, s.marked, s.threads[t].pc)|, Cost(s, t), LoopCost(s, t)
  {
    var m := NextStepProgress(s, t);
    AdvancesFacts(s, NextStep(s, t), m, t);
    OneStep(s, NextStep(s, t), m);
    steps, u := [NextStep(s, t)], m;
    if !Settled(m, t) {
      var more;
      more, u := SoloRun(m, t);
      Both(s, steps, m, more, u);
      OnlyMovedTwice(s, m, u, t);
      steps := steps + more;
    }
  }

  /** The threads that have yet to get there. */
  ghost function Unsettled(threads: map<Thread, Helper>): set<Thread> {
    set t | t in threads && (IsActive(threads[t].pc) || threads[t].pc.Entering?)
  }

  /** Everybody who helps waits, and the shared index is past all slots if anybody does. */
  ghost predicate AllWait(s: State) {
    && Unsettled(s.threads) == {}
    && forall t :: t in s.threads && s.threads[t].pc.Waiting? ==> s.first >= |s.shared|
  }

  lemma Enters(s: State, t: Thread) returns (u: State)
    requires Inv(s) && AllStealFew(s) && t in s.threads && s.threads[t].pc.Entering?
    ensures Continues(s, [Enter(t)], u) && OnlyMoved(s, u, t) && Busy(u, t)
  {
    u := Apply(s, Enter(t));
    OneStep(s, Enter(t), u);
  }

  /** A thread that is not waiting yet gets there. */
  lemma SettleOne(s: State, t: Thread) returns (steps: seq<Step>, u: State)
    requires Inv(s) && AllStealFew(s) && t in Unsettled(s.threads)
    ensures Continues(s, steps, u) && OnlyMoved(s, u, t) && Settled(u, t)
  {
    if s.threads[t].pc.Entering? {
      var m := Enters(s, t);
      var more;
      more, u := SoloRun(m, t);
      Both(s, [Enter(t)], m, more, u);
      OnlyMovedTwice(s, m, u, t);
      steps := [Enter(t)] + more;
    } else {
      steps, u := SoloRun(s, t);
    }
  }

  lemma Idly(s: State)
    requires Inv(s) && AllStealFew(s)
    ensures Continues(s, [], s)
  {
  }

  ghost predicate MainIn(s: State) {
    MAIN in s.threads && !s.threads[MAIN].pc.Outside?
  }

  lemma OneFewer(s: State, u: State, t: Thread)
    requires OnlyMoved(s, u, t) && t in Unsettled(s.threads) && Settled(u, t)
    ensures Unsettled(u.threads) == Unsettled(s.threads) - {t} && (MainIn(s) ==> MainIn(u)) && u.markNo == s.markNo
  {
  }

  lemma NoneMore(s: State, u: State, t: Thread)
    requires OnlyMoved(s, u, t) && Unsettled(s.threads) == {} && Settled(u, t) && MainIn(s)
    ensures AllWait(u) && MainIn(u) && u.markNo == s.markNo
  {
    forall v | v in u.threads ensures v !in Unsettled(u.threads) {
      assert v !in Unsettled(s.threads);
    }
  }

  /** One after the other, all threads get there. */
  lemma {:induction false} Gather(s: State) returns (steps: seq<Step>, u: State)
    requires Inv(s) && AllStealFew(s) && MainIn(s)
    ensures Continues(s, steps, u) && AllWait(u) && MainIn(u) && u.markNo == s.markNo
    decreases |Unsettled(s.threads)|
  {
    if t :| t in Unsettled(s.threads) {
      var first, m := SettleOne(s, t);
      OneFewer(s, m, t);
      var more;
      more, u := Gather(m);
      Both(s, first, m, more, u);
      steps := first + more;
    } else if t :| t in s.threads && s.threads[t].pc.Waiting? && s.first < |s.shared| {
      steps, u := SoloRun(s, t);
      NoneMore(s, u, t);
    } else {
      Idly(s);
      steps, u := [], s;
    }
  }

  // ---------------------------------------------------------------- the end

  ghost function WaitingSet(threads: map<Thread, Helper>): set<Thread> {
    set t | t in threads && threads[t].pc.Waiting?
  }

  lemma LeavesOne(s: State, t: Thread) returns (u: State)
    requires Inv(s) && AllStealFew(s) && AllWait(s) && MainIn(s) && t in WaitingSet(s.threads)
    ensures Continues(s, [Leave(t)], u) && AllWait(u) && MainIn(u) && u.markNo == s.markNo
    ensures WaitingSet(u.threads) == WaitingSet(s.threads) - {t}
  {
    forall v | v in s.threads ensures v !in ActiveSet(s.threads) {
      assert v !in Unsettled(s.threads);
    }
    assert ActiveSet(s.threads) == {};
    u := Apply(s, Leave(t));
    OneStep(s, Leave(t), u);
    forall v | v in u.threads ensures v !in Unsettled(u.threads) {
      assert v !in Unsettled(s.threads);
    }
  }

  lemma {:induction false} AllLeave(s: State) returns (steps: seq<Step>, u: State)
    requires Inv(s) && AllStealFew(s) && AllWait(s) && MainIn(s)
    ensures Continues(s, steps, u) && AllWait(u) && MainIn(u) && u.markNo == s.markNo && WaitingSet(u.threads) == {}
    decreases |WaitingSet(s.threads)|
  {
    if t :| t in WaitingSet(s.threads) {
      var m := LeavesOne(s, t);
      var more;
      more, u := AllLeave(m);
      Both(s, [Leave(t)], m, more, u);
      steps := [Leave(t)] + more;
    } else {
      Idly(s);
      steps, u := [], s;
    }
  }

  lemma Withdraws(s: State) returns (u: State)
    requires Inv(s) && AllStealFew(s) && MAIN in s.threads && s.threads[MAIN].pc.MainDone?
    ensures Continues(s, [WithdrawHelp], u) && OnlyMain(s, u) && u.threads[MAIN].pc.MainWait?
  {
    u := Apply(s, WithdrawHelp);
    OneStep(s, WithdrawHelp, u);
  }

  ghost predicate OnlyMain(s: State, u: State) {
    && MAIN in s.threads && MAIN in u.threads && u.threads == s.threads[MAIN := u.threads[MAIN]]
    && u.helperCount == s.helperCount && u.markNo == s.markNo
  }

  /** The initiator, which waits for the helpers, ends the cycle. */
  lemma Finishes(s: State) returns (u: State)
    requires Inv(s) && AllStealFew(s) && MAIN in s.threads && s.threads[MAIN].pc.MainWait? && s.helperCount == 0
    ensures Continues(s, [Finish], u) && !MainIn(u) && u.markNo == s.markNo + 1
  {
    u := Apply(s, Finish);
    OneStep(s, Finish, u);
  }

  lemma NobodyHelps(s: State)
    requires CountsOk(s) && AllWait(s) && WaitingSet(s.threads) == {} && MainIn(s)
    ensures s.helperCount == 0 && (s.threads[MAIN].pc.MainDone? || s.threads[MAIN].pc.MainWait?)
  {
    forall t | t in s.threads ensures !IsHelping(s.threads[t].pc) {
      assert t !in Unsettled(s.threads) && t !in WaitingSet(s.threads);
    }
    assert HelpingSet(s.threads) == {};
  }

  lemma EndCycle(s: State) returns (steps: seq<Step>, u: State)
    requires Inv(s) && AllStealFew(s) && AllWait(s) && WaitingSet(s.threads) == {} && MainIn(s)
    ensures Continues(s, steps, u) && !MainIn(u) && u.markNo == s.markNo + 1
  {
    NobodyHelps(s);
    if s.threads[MAIN].pc.MainDone? {
      var m := Withdraws(s);
      u := Finishes(m);
      Both(s, [WithdrawHelp], m, [Finish], u);
      steps := [WithdrawHelp] + [Finish];
    } else {
      u := Finishes(s);
      steps := [Finish];
    }
  }

  /**
   However a run has gone so far, the cycle it is in can be brought to its end.  So no thread ever has to wait
   for something that cannot happen, and no state makes the threads go in circles.
   */
  lemma CycleCanFinish(start: State, before: seq<Step>, s: State) returns (steps: seq<Step>, u: State)
    requires Initial(start) && Runs(start, before, s) && MAIN in s.threads && !s.threads[MAIN].pc.Outside?
    ensures Runs(s, steps, u) && (forall i :: 0 <= i < |steps| ==> !steps[i].Begin?)
    ensures MAIN in u.threads && u.threads[MAIN].pc.Outside? && u.markNo == s.markNo + 1 && Quiescent(u)
  {
    InitialInv(start);
    RunKeepsInv(start, before, s);
    RunStealsFew(start, before, s);
    var first, m := Gather(s);
    var second, n := AllLeave(m);
    var third;
    third, u := EndCycle(n);
    Both(s, first, m, second, n);
    Both(s, first + second, n, third, u);
    steps := first + second + third;
  }
}
