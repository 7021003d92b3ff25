/** Runs of marking steps alone, and the measure that bounds them. */
module MarkProgress {
  import opened Config
  import opened ObjectGraph
  import opened MarkModel
  import opened MarkSafety

  ghost predicate MarkerSteps(steps: seq<Step>) {
    forall i :: 0 <= i < |steps| ==> IsMarkerStep(steps[i])
  }

  ghost predicate RunKey(k: nat, s: State, t: State) {
    true
  }

  /** Marking steps alone lead from `s` to `t`.  Folded: the definition is available where the key is mentioned. */
  ghost predicate MarkerRun(s: State, t: State) {
    forall k: nat {:trigger RunKey(k, s, t)} :: RunKey(k, s, t) ==>
      exists steps :: MarkerSteps(steps) && Runs(s, steps, t)
  }

  lemma MarkerRunEmpty(s: State)
    ensures MarkerRun(s, s)
  {
    assert MarkerSteps([]) && Runs(s, [], s);
  }

  lemma MarkerRunSteps(s: State, t: State) returns (steps: seq<Step>)
    requires MarkerRun(s, t)
    ensures MarkerSteps(steps) && Runs(s, steps, t)
  {
    assert RunKey(0, s, t);
    steps :| MarkerSteps(steps) && Runs(s, steps, t);
  }

  lemma MarkerRunTrans(s: State, t: State, u: State)
    requires MarkerRun(s, t) && MarkerRun(t, u)
    ensures MarkerRun(s, u)
  {
    var first := MarkerRunSteps(s, t);
    var second := MarkerRunSteps(t, u);
    RunsAppend(s, first, t, second, u);
    assert MarkerSteps(first + second);
  }

  lemma MarkerRunStep(s: State, t: State, step: Step)
    requires MarkerRun(s, t) && IsMarkerStep(step) && Enabled(t, step)
    ensures MarkerRun(s, Apply(t, step))
  {
    var u := Apply(t, step);
    SingleStepRuns(t, step);
    assert MarkerSteps([step]);
    MarkerRunTrans(s, t, u);
  }

  /** What marking leaves alone, and that it never unmarks an object. */
  ghost predicate MarkerFrame(s: State, t: State) {
    && t.heap == s.heap && t.incremental == s.incremental && t.stopped == s.stopped && t.grungy == s.grungy
    && s.marked <= t.marked && s.size <= t.size
  }

  /** What scanning a range may change: it marks objects, pushes them, and may overflow the stack. */
  ghost predicate ScanFrame(s: State, t: State) {
    && t == s.(marked := t.marked, stack := t.stack, cursor := t.cursor, phase := t.phase, tooSmall := t.tooSmall)
    && s.marked <= t.marked && (t.phase == s.phase || t.phase == Invalid)
  }

  lemma {:induction false} PushMarkedFrame(s: State, objs: seq<Obj>)
    ensures SameButStack(s, PushMarked(s, objs))
    decreases |objs|
  {
    if objs != [] {
      PushMarkedFrame(PushIfMarked(s, objs[0]), objs[1..]);
    }
  }

  lemma PushEntryFrame(s: State, e: Entry)
    ensures var t := PushEntry(s, e);
      t == s.(stack := t.stack, phase := t.phase, tooSmall := t.tooSmall) && (t.phase == s.phase || t.phase == Invalid)
  {
  }

  lemma MarkAndPushFrame(s: State, r: Ref)
    ensures MarkerFrame(s, MarkAndPush(s, r)) && ScanFrame(s, MarkAndPush(s, r))
  {
    if r.To? && r.obj !in s.marked && InHeap(r.obj) in s.heap.mem {
      PushEntryFrame(s.(marked := s.marked + {r.obj}), Entry(InHeap(r.obj), 0, |s.heap.mem[InHeap(r.obj)]|));
    }
  }

  lemma ScanNextKeepsFrame(s: State)
    requires Enabled(s, ScanNext)
    ensures MarkerFrame(s, Apply(s, ScanNext))
  {
    var c := s.cursor;
    var word := if c.loc in s.heap.mem && c.lo < |s.heap.mem[c.loc]| then s.heap.mem[c.loc][c.lo] else Null;
    MarkAndPushFrame(s.(cursor := c.(lo := c.lo + 1)), word);
  }

  lemma ScanBlockKeepsFrame(s: State, a: nat)
    requires Enabled(s, ScanBlock(a))
    ensures MarkerFrame(s, Apply(s, ScanBlock(a)))
  {
    PushMarkedFrame(s, s.heap.blocks[a].objs);
  }

  lemma MarkerStepFrame(s: State, step: Step)
    requires IsMarkerStep(step) && Enabled(s, step)
    ensures MarkerFrame(s, Apply(s, step))
  {
    match step
    case ScanBlock(a) => ScanBlockKeepsFrame(s, a);
    case ScanNext => ScanNextKeepsFrame(s);
    case ScanHeld => MarkAndPushFrame(s.(cursor := Idle), s.cursor.held);
    case _ =>
  }

  lemma {:induction false} MarkerStepsFrame(s: State, steps: seq<Step>, t: State)
    requires MarkerSteps(steps) && Runs(s, steps, t)
    ensures MarkerFrame(s, t)
    decreases |steps|
  {
    if steps != [] {
      assert IsMarkerStep(steps[0]);
      var m :| Leads(s, steps[0], m) && Runs(m, steps[1..], t);
      LeadsFacts(s, steps[0], m);
      MarkerStepFrame(s, steps[0]);
      forall i | 0 <= i < |steps[1..]| ensures IsMarkerStep(steps[1..][i]) {
        assert IsMarkerStep(steps[i + 1]);
      }
      MarkerStepsFrame(m, steps[1..], t);
    }
  }

  lemma MarkerRunFrame(s: State, t: State)
    requires MarkerRun(s, t)
    ensures MarkerFrame(s, t)
  {
    var steps := MarkerRunSteps(s, t);
    MarkerStepsFrame(s, steps, t);
  }

  // ------------------------------------------------------------------ measure

  function Width(e: Entry): nat {
    if e.lo <= e.hi then e.hi - e.lo else 0
  }

  /** Words waiting on the stack. */
  function StackWork(stack: seq<Entry>): nat {
    if stack == [] then 0 else StackWork(stack[..|stack| - 1]) + Width(stack[|stack| - 1])
  }

  lemma StackWorkPush(stack: seq<Entry>, e: Entry)
    ensures StackWork(stack + [e]) == StackWork(stack) + Width(e)
  {
    assert (stack + [e])[..|stack|] == stack;
  }

  ghost function Unmarked(s: State): nat {
    |s.heap.home.Keys - s.marked|
  }

  ghost function Ahead(s: State): set<nat> {
    set a | a in s.heap.blocks && s.scan <= a
  }

  ghost function BlocksAhead(s: State): nat {
    |Ahead(s)|
  }

  /** How many phases are still to come, provided that nothing new gets marked. */
  function Rank(s: State): nat {
    match s.phase
    case Invalid => if s.scan == 0 then 4 else 5
    case PartiallyInvalid => 3
    case PushUncollectable => 2
    case PushRescuers => 2
    case RootsPushed => 1
    case None => 0
  }

  /** `t` is closer to the end of marking than `s`. */
  ghost predicate Closer(t: State, s: State) {
    || Unmarked(t) < Unmarked(s)
    || (Unmarked(t) == Unmarked(s) && Rank(t) < Rank(s))
    || (Unmarked(t) == Unmarked(s) && Rank(t) == Rank(s) && BlocksAhead(t) < BlocksAhead(s))
    || (Unmarked(t) == Unmarked(s) && Rank(t) == Rank(s) && BlocksAhead(t) == BlocksAhead(s)
        && StackWork(t.stack) < StackWork(s.stack))
  }

  lemma MoreMarkedIsCloser(s: State, t: State)
    requires t.heap == s.heap && s.marked < t.marked && Sound(t)
    ensures Unmarked(t) < Unmarked(s) && Closer(t, s)
  {
    SoundStack(t);
    var a := s.heap.home.Keys - s.marked;
    var b := t.heap.home.Keys - t.marked;
    var o :| o in t.marked && o !in s.marked;
    assert o in a && o !in b && b <= a - {o};
    SubsetSize(b, a - {o});
  }

  lemma ScanAdvanceIsCloser(s: State, t: State, a: nat)
    requires t.heap == s.heap && t.marked == s.marked && t.phase == s.phase && a in s.heap.blocks &&
      s.scan <= a < t.scan
    requires s.scan == 0 ==> s.phase != Invalid
    ensures Closer(t, s)
  {
    assert a in Ahead(s) && a !in Ahead(t) && Ahead(t) <= Ahead(s) - {a};
    SubsetSize(Ahead(t), Ahead(s) - {a});
  }

  /** With room for one entry per object, pushing a block does not overflow the stack. */
  lemma {:induction false} PushMarkedFits(s: State, objs: seq<Obj>)
    requires |s.stack| + |objs| <= s.size
    ensures PushMarked(s, objs) == s.(stack := PushMarked(s, objs).stack)
    decreases |objs|
  {
    if objs != [] {
      PushMarkedFits(PushIfMarked(s, objs[0]), objs[1..]);
    }
  }

  lemma BlockFits(s: State, a: nat)
    requires Sound(s) && a in s.heap.blocks && |s.stack| + MAX_BLOCK_OBJS <= s.size
    ensures PushMarked(s, s.heap.blocks[a].objs) == s.(stack := PushMarked(s, s.heap.blocks[a].objs).stack)
    ensures 0 < s.heap.blocks[a].pages
  {
    SoundInv(s);
    PushMarkedFits(s, s.heap.blocks[a].objs);
  }
}
