/** The parallel arm of the marker: what it starts from, and what it ends with. */
module ParallelStart {
  import opened ObjectGraph
  import MarkModel
  import MarkExact
  import opened ParallelModel
  import opened ParallelSafety
  import opened ParallelWork

  function ToShared(stack: seq<MarkModel.Entry>): (shared: seq<Entry>)
    ensures |shared| == |stack|
    ensures forall i :: 0 <= i < |stack| ==> shared[i] == Entry(stack[i].loc, stack[i].lo, stack[i].hi)
  {
    seq(|stack|, i requires 0 <= i < |stack| => Entry(stack[i].loc, stack[i].lo, stack[i].hi))
  }

  /** With the roots pushed and the world stopped, the mark stack covers all that is not marked yet. */
  lemma RootsPushedCovers(s: MarkModel.State)
    requires MarkModel.Inv(s) && s.stopped && s.phase == MarkModel.RootsPushed && s.cursor.Idle?
    ensures RootsArePushed(s.heap.mem, s.marked, ToShared(s.stack))
  {
    var shared := ToShared(s.stack);
    forall i | 0 <= i < |shared| ensures EntryOk(s.heap.mem, shared[i]) {
      assert MarkModel.RangeOk(s.heap.mem, s.stack[i].loc, s.stack[i].lo, s.stack[i].hi);
    }
    forall l, k: nat | White(s.heap.mem, s.marked, l, k) ensures OnEntries(shared, l, k) {
      assert MarkModel.White(s, l, k) && MarkModel.Justified(s, l, k);
      var i :| 0 <= i < |s.stack| && s.stack[i].loc == l && s.stack[i].lo <= k < s.stack[i].hi;
      assert Holds(shared[i], l, k);
    }
  }

  lemma {:induction false} MemoryStays(s: State, steps: seq<Step>, u: State)
    requires Inv(s) && Runs(s, steps, u) && forall i :: 0 <= i < |steps| ==> !steps[i].Begin?
    ensures u.mem == s.mem
    decreases |steps|
  {
    if steps != [] {
      var m :| Leads(s, steps[0], m) && Runs(m, steps[1..], u);
      LeadsFacts(s, steps[0], m);
      StepSharedGrows(s, steps[0]);
      StepKeepsInv(s, steps[0]);
      MemoryStays(m, steps[1..], u);
    }
  }

  /** `u` can be reached within the cycle that begins with `begin`, and a thread can leave it there. */
  ghost predicate LeftAt(b: State, begin: Step, steps: seq<Step>, u: State, t: Thread)
    requires Enabled(b, begin)
  {
    Runs(Apply(b, begin), steps, u) && Enabled(u, Leave(t)) && forall i :: 0 <= i < |steps| ==> !steps[i].Begin?
  }

  lemma CycleCompletes(b: State, begin: Step, steps: seq<Step>, u: State, t: Thread)
    requires Inv(b) && begin.Begin? && Enabled(b, begin) && LeftAt(b, begin, steps, u, t)
    ensures u.mem == begin.mem && (u.invalid || MarksComplete(begin.mem, u.marked))
  {
    StepKeepsInv(b, begin);
    MemoryStays(Apply(b, begin), steps, u);
    RunKeepsInv(Apply(b, begin), steps, u);
    LeaveMeansQuiescent(u, t);
    if !u.invalid {
      QuiescentMarksComplete(u);
    }
  }

  /** The marker has pushed the roots in a stopped world, and no cycle is under way. */
  ghost predicate ReadyToStart(s: MarkModel.State, b: State) {
    && MarkModel.Inv(s) && s.stopped && s.phase == MarkModel.RootsPushed && s.cursor.Idle?
    && Inv(b) && MAIN in b.threads && Pc_(b, MAIN).Outside? && !BadStart(b) && |s.stack| <= b.size
  }

  function Start(s: MarkModel.State): Step {
    Begin(s.heap.mem, s.marked, ToShared(s.stack))
  }

  /**
   A marker that has pushed the roots in a stopped world can start a parallel cycle, and the marks
   are complete as soon as the first thread leaves that cycle, unless a stack has overflowed.
   */
  lemma ParallelArmCompletes(s: MarkModel.State, b: State)
    requires ReadyToStart(s, b)
    ensures Enabled(b, Start(s))
    ensures forall steps, u, t :: LeftAt(b, Start(s), steps, u, t) ==>
      u.mem == s.heap.mem && (u.invalid || MarksComplete(s.heap.mem, u.marked))
    ensures forall steps, u, t :: CalmRuns(Apply(b, Start(s)), steps, u) && Enabled(u, Leave(t)) ==>
      MarksComplete(s.heap.mem, u.marked)
  {
    RootsPushedCovers(s);
    forall steps, u, t | LeftAt(b, Start(s), steps, u, t)
      ensures u.mem == s.heap.mem && (u.invalid || MarksComplete(s.heap.mem, u.marked))
    {
      CycleCompletes(b, Start(s), steps, u, t);
    }
    forall steps, u, t | CalmRuns(Apply(b, Start(s)), steps, u) && Enabled(u, Leave(t))
      ensures MarksComplete(s.heap.mem, u.marked)
    {
      CalmRunStaysValid(Apply(b, Start(s)), steps, u);
      CycleCompletes(b, Start(s), steps, u, t);
    }
  }

  /**
   And they are exact: if all that is marked or on the stack at the start is what `kept` and the roots
   lead to, then so is all that any thread marks; without an overflow it ends up being all of that.
   */
  lemma ParallelArmIsExact(s: MarkModel.State, b: State, kept: set<Obj>, steps: seq<Step>, u: State, t: Thread)
    requires ReadyToStart(s, b) && MarkExact.Precise(s, kept) && kept <= s.marked
    requires Enabled(b, Start(s)) && CalmRuns(Apply(b, Start(s)), steps, u) && Enabled(u, Leave(t))
    ensures forall o :: o in u.marked <==> MarkExact.Live(s.heap.mem, kept, o)
  {
    var begun := Apply(b, Start(s));
    CalmRunStaysValid(begun, steps, u);
    CycleCompletes(b, Start(s), steps, u, t);
    BeginPrecise(b, Start(s), kept);
    RunPrecise(begun, steps, u, kept);
    StepKeepsInv(b, Start(s));
    MarksGrow(begun, steps, u);
    forall o | MarkExact.Live(s.heap.mem, kept, o) ensures o in u.marked {
      MarkExact.CompleteHoldsLive(s.heap.mem, kept, u.marked, o);
    }
  }

  lemma {:induction false} MarksGrow(s: State, steps: seq<Step>, u: State)
    requires Runs(s, steps, u) && forall i :: 0 <= i < |steps| ==> !steps[i].Begin?
    ensures s.marked <= u.marked
    decreases |steps|
  {
    if steps != [] {
      var m :| Leads(s, steps[0], m) && Runs(m, steps[1..], u);
      LeadsFacts(s, steps[0], m);
      StepMarksGrow(s, steps[0]);
      MarksGrow(m, steps[1..], u);
    }
  }

  lemma StepMarksGrow(s: State, step: Step)
    requires Enabled(s, step) && !step.Begin?
    ensures s.marked <= Apply(s, step).marked
  {
  }
}
