/** Marking is exact: it marks nothing but what the roots and the objects marked beforehand lead to. */
module MarkExact {
  import opened Config
  import opened ObjectGraph
  import opened MarkModel
  import opened MarkSafety
  import opened MarkProgress

  /** A chain of pointers leads to `o` from a root or from one of the objects in `kept`, or `o` is one of these. */
  ghost predicate Live(mem: Memory, kept: set<Obj>, o: Obj) {
    exists path: seq<Obj> :: LivePath(mem, kept, path) && path[|path| - 1] == o
  }

  ghost predicate LivePath(mem: Memory, kept: set<Obj>, path: seq<Obj>) {
    |path| > 0 && (path[0] in kept || IsRootTarget(mem, path[0])) && IsPath(mem, path)
  }

  lemma LiveStart(mem: Memory, kept: set<Obj>, o: Obj)
    requires o in kept || IsRootTarget(mem, o)
    ensures Live(mem, kept, o)
  {
    assert LivePath(mem, kept, [o]);
  }

  lemma LiveFurther(mem: Memory, kept: set<Obj>, o: Obj, p: Obj)
    requires Live(mem, kept, o) && PointsTo(mem, InHeap(o), p)
    ensures Live(mem, kept, p)
  {
    var path: seq<Obj> :| LivePath(mem, kept, path) && path[|path| - 1] == o;
    var longer := path + [p];
    forall i | 0 <= i < |longer| - 1 ensures PointsTo(mem, InHeap(longer[i]), longer[i + 1]) {
      if i < |path| - 1 {
        assert PointsTo(mem, InHeap(path[i]), path[i + 1]);
      }
    }
    assert LivePath(mem, kept, longer);
  }

  ghost predicate LiveArea(mem: Memory, kept: set<Obj>, l: Loc) {
    l.InHeap? ==> Live(mem, kept, l.obj)
  }

  ghost predicate LiveStack(mem: Memory, kept: set<Obj>, stack: seq<Entry>) {
    forall i :: 0 <= i < |stack| ==> LiveArea(mem, kept, stack[i].loc)
  }

  ghost predicate LiveCursor(mem: Memory, kept: set<Obj>, c: Cursor) {
    c.Scanning? ==> LiveArea(mem, kept, c.loc) && (c.held.To? ==> Live(mem, kept, c.held.obj))
  }

  /** Everything marked or about to be scanned is live. */
  ghost predicate Precise(s: State, kept: set<Obj>) {
    && (forall o :: o in s.marked ==> Live(s.heap.mem, kept, o))
    && LiveStack(s.heap.mem, kept, s.stack) && LiveCursor(s.heap.mem, kept, s.cursor)
  }

  /** A word of a live area leads to a live object. */
  lemma LiveWord(mem: Memory, kept: set<Obj>, l: Loc, k: nat)
    requires LiveArea(mem, kept, l) && l in mem && k < |mem[l]| && mem[l][k].To?
    ensures Live(mem, kept, mem[l][k].obj)
  {
    var p := mem[l][k].obj;
    assert PointsTo(mem, l, p);
    if l.InHeap? {
      LiveFurther(mem, kept, l.obj, p);
    } else {
      LiveStart(mem, kept, p);
    }
  }

  lemma PushPrecise(s: State, e: Entry, kept: set<Obj>)
    requires Precise(s, kept) && LiveArea(s.heap.mem, kept, e.loc)
    ensures Precise(PushEntry(s, e), kept)
  {
  }

  lemma MarkPrecise(s: State, r: Ref, kept: set<Obj>)
    requires Precise(s, kept) && (r.To? ==> Live(s.heap.mem, kept, r.obj))
    ensures Precise(MarkAndPush(s, r), kept)
  {
    if r.To? && r.obj !in s.marked && InHeap(r.obj) in s.heap.mem {
      PushPrecise(s.(marked := s.marked + {r.obj}), Entry(InHeap(r.obj), 0, |s.heap.mem[InHeap(r.obj)]|), kept);
    }
  }

  lemma {:induction false} PushMarkedPrecise(s: State, objs: seq<Obj>, kept: set<Obj>)
    requires Precise(s, kept)
    ensures Precise(PushMarked(s, objs), kept)
    decreases |objs|
  {
    if objs != [] {
      var o := objs[0];
      if o in s.marked && InHeap(o) in s.heap.mem {
        PushPrecise(s, Entry(InHeap(o), 0, |s.heap.mem[InHeap(o)]|), kept);
      }
      PushMarkedPrecise(PushIfMarked(s, o), objs[1..], kept);
    }
  }

  lemma TakeTopPrecise(s: State, kept: set<Obj>)
    requires Precise(s, kept) && s.stack != []
    ensures Precise(TakeTopEntry(s), kept)
  {
    assert LiveArea(s.heap.mem, kept, s.stack[|s.stack| - 1].loc);
  }

  lemma HoldPrecise(s: State, kept: set<Obj>)
    requires Precise(s, kept) && Enabled(s, HoldLast)
    ensures Precise(Apply(s, HoldLast), kept)
  {
    var c := s.cursor;
    if c.loc in s.heap.mem && c.hi - 1 < |s.heap.mem[c.loc]| && s.heap.mem[c.loc][c.hi - 1].To? {
      LiveWord(s.heap.mem, kept, c.loc, c.hi - 1);
    }
  }

  /** Moving on within a range keeps what is known of it. */
  lemma AdvancePrecise(s: State, lo: nat, kept: set<Obj>)
    requires Precise(s, kept) && s.cursor.Scanning?
    ensures Precise(s.(cursor := s.cursor.(lo := lo)), kept)
  {
  }

  /** The word under the cursor. */
  function Word(s: State): Ref
    requires s.cursor.Scanning?
  {
    var c := s.cursor;
    if c.loc in s.heap.mem && c.lo < |s.heap.mem[c.loc]| then s.heap.mem[c.loc][c.lo] else Null
  }

  lemma WordPrecise(s: State, kept: set<Obj>)
    requires Precise(s, kept) && s.cursor.Scanning?
    ensures Word(s).To? ==> Live(s.heap.mem, kept, Word(s).obj)
  {
    if Word(s).To? {
      LiveWord(s.heap.mem, kept, s.cursor.loc, s.cursor.lo);
    }
  }

  lemma ScanIsMark(s: State)
    requires s.cursor.Scanning? && s.cursor.lo < s.cursor.hi
    ensures ScanWord(s) == MarkAndPush(s.(cursor := s.cursor.(lo := s.cursor.lo + 1)), Word(s))
  {
  }

  lemma MarkedPrecise(s: State, r: Ref, t: State, kept: set<Obj>)
    requires Precise(s, kept) && (r.To? ==> Live(s.heap.mem, kept, r.obj)) && t == MarkAndPush(s, r)
    ensures Precise(t, kept)
  {
    MarkPrecise(s, r, kept);
  }

  lemma ScanPrecise(s: State, t: State, kept: set<Obj>)
    requires Precise(s, kept) && s.cursor.Scanning? && s.cursor.lo < s.cursor.hi && t == ScanWord(s)
    ensures Precise(t, kept)
  {
    ScanIsMark(s);
    WordPrecise(s, kept);
    AdvancePrecise(s, s.cursor.lo + 1, kept);
    MarkedPrecise(s.(cursor := s.cursor.(lo := s.cursor.lo + 1)), Word(s), t, kept);
  }

  lemma RootRangePrecise(s: State, r: nat, kept: set<Obj>)
    requires Precise(s, kept) && Enabled(s, RootRange(r))
    ensures Precise(Apply(s, RootRange(r)), kept)
  {
    PushPrecise(s.(rootsTodo := s.rootsTodo - {r}), Entry(InRoot(r), 0, |s.heap.mem[InRoot(r)]|), kept);
  }

  lemma ScanBlockPrecise(s: State, a: nat, kept: set<Obj>)
    requires Precise(s, kept) && Enabled(s, ScanBlock(a))
    ensures Precise(Apply(s, ScanBlock(a)), kept)
  {
    PushMarkedPrecise(s, s.heap.blocks[a].objs, kept);
    PushMarkedFrame(s, s.heap.blocks[a].objs);
  }

  lemma StepPrecise(s: State, step: Step, kept: set<Obj>)
    requires Precise(s, kept) && Enabled(s, step) && IsMarkerStep(step)
    ensures Precise(Apply(s, step), kept)
  {
    match step
    case TakeTop => TakeTopPrecise(s, kept);
    case HoldLast => HoldPrecise(s, kept);
    case ScanNext => ScanPrecise(s, ScanWord(s), kept);
    case ScanHeld => MarkPrecise(s.(cursor := Idle), s.cursor.held, kept);
    case ScanBlock(a) => ScanBlockPrecise(s, a, kept);
    case RootRange(r) => RootRangePrecise(s, r, kept);
    case _ =>
  }

  lemma {:induction false} RunPrecise(s: State, steps: seq<Step>, t: State, kept: set<Obj>)
    requires Precise(s, kept) && MarkerSteps(steps) && Runs(s, steps, t)
    ensures Precise(t, kept)
    decreases |steps|
  {
    if steps != [] {
      assert IsMarkerStep(steps[0]);
      var m :| Leads(s, steps[0], m) && Runs(m, steps[1..], t);
      LeadsFacts(s, steps[0], m);
      StepPrecise(s, steps[0], kept);
      forall i | 0 <= i < |steps[1..]| ensures IsMarkerStep(steps[1..][i]) {
        assert IsMarkerStep(steps[i + 1]);
      }
      RunPrecise(m, steps[1..], t, kept);
    }
  }

  /** Complete marks hold everything that marked objects and roots lead to. */
  lemma CompleteHoldsLive(mem: Memory, kept: set<Obj>, marked: set<Obj>, o: Obj)
    requires MarksComplete(mem, marked) && kept <= marked && Live(mem, kept, o)
    ensures o in marked
  {
    var path: seq<Obj> :| LivePath(mem, kept, path) && path[|path| - 1] == o;
    ClosedSetHoldsPath(mem, marked, path);
  }

  /**
   A stopped mark that starts with nothing on the stack ends with exactly these marks: what was
   marked at its start, and what that and the roots lead to.
   */
  lemma MarksExactly(s: State, t: State)
    requires s.stack == [] && s.cursor.Idle? && MarkerRun(s, t) && MarksComplete(t.heap.mem, t.marked)
    ensures forall o :: o in t.marked <==> Live(t.heap.mem, s.marked, o)
  {
    forall o | o in s.marked ensures Live(s.heap.mem, s.marked, o) {
      LiveStart(s.heap.mem, s.marked, o);
    }
    MarkerRunFrame(s, t);
    var steps := MarkerRunSteps(s, t);
    RunPrecise(s, steps, t, s.marked);
    forall o | Live(t.heap.mem, s.marked, o) ensures o in t.marked {
      CompleteHoldsLive(t.heap.mem, s.marked, t.marked, o);
    }
  }

  lemma LiveFromRoots(mem: Memory, o: Obj)
    ensures Live(mem, {}, o) <==> Reachable(mem, o)
  {
    if Reachable(mem, o) {
      var path: seq<Obj> :| |path| > 0 && IsRootTarget(mem, path[0]) && IsPath(mem, path) && path[|path| - 1] == o;
      assert LivePath(mem, {}, path);
    }
  }

  /**
   Sweeping after such a mark leaves exactly the objects that the roots and the objects marked beforehand lead
   to: the reachable ones, if nothing was marked.
   */
  lemma SweepLeavesLive(s: State, t: State, o: Obj)
    requires s.stack == [] && s.cursor.Idle? && MarkerRun(s, t) && Inv(t) && Enabled(t, Sweep)
    ensures o in Apply(t, Sweep).heap.home <==> o in t.heap.home && Live(t.heap.mem, s.marked, o)
    ensures s.marked == {} ==> (o in Apply(t, Sweep).heap.home <==> o in t.heap.home && Reachable(t.heap.mem, o))
  {
    FinishedMarksAreClosed(t);
    MarksExactly(s, t);
    SweepFreesGarbage(t, o);
    LiveFromRoots(t.heap.mem, o);
  }
}
