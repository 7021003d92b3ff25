/**
 When recovering from a fault in the midst of marking loses nothing, whatever happens afterwards:
 exactly if the marks made so far are on record, or are on objects that need not be looked at again.
 */
module MarkRecovery {
  import opened Config
  import opened ObjectGraph
  import opened MarkModel
  import opened MarkSafety
  import opened MarkProgress

  /** However the run goes on from `s`: whenever a stopped mark is complete, everything reachable is marked. */
  ghost predicate LosesNothing(s: State) {
    forall steps, end, o :: Runs(s, steps, end) && Enabled(end, FinishStop) && Reachable(end.heap.mem, o) ==>
      o in end.marked
  }

  lemma RecoverableLosesNothing(s: State)
    requires Inv(s) && MarkerRuns(s) && Recoverable(s)
    ensures LosesNothing(Recovered(s))
  {
    FaultKeeps(s);
    forall steps, end, o | Runs(Recovered(s), steps, end) && Enabled(end, FinishStop) && Reachable(end.heap.mem, o)
      ensures o in end.marked
    {
      EndsComplete(Recovered(s), steps, end);
    }
  }

  lemma EndsComplete(s: State, steps: seq<Step>, end: State)
    requires Inv(s) && Runs(s, steps, end) && Enabled(end, FinishStop)
    ensures forall o :: Reachable(end.heap.mem, o) ==> o in end.marked
  {
    RunKeepsInv(s, steps, end);
    FinishedMarksAreClosed(end);
    ClosedSetHoldsReachable(end.heap.mem, end.marked);
  }

  // ------------------------------------------------------------------------ runs

  ghost predicate Goes(s: State, t: State) {
    exists steps :: Runs(s, steps, t)
  }

  lemma GoesNowhere(s: State)
    ensures Goes(s, s)
  {
    assert Runs(s, [], s);
  }

  lemma GoesStep(s: State, step: Step)
    requires Enabled(s, step)
    ensures Goes(s, Apply(s, step))
  {
    SingleStepRuns(s, step);
  }

  lemma GoesOn(s: State, t: State, u: State)
    requires Goes(s, t) && Goes(t, u)
    ensures Goes(s, u)
  {
    var first :| Runs(s, first, t);
    var second :| Runs(t, second, u);
    RunsAppend(s, first, t, second, u);
  }

  // ----------------------------------------------------------- what the mutator does

  /** After the recovery: object `o` has been marked, that is not on record, and its words have not been looked at. */
  ghost predicate Stale(s: State, o: Obj) {
    && HeapWellFormed(s.heap) && s.marked <= s.heap.home.Keys && INITIAL_MARK_STACK_SIZE <= s.size
    && s.stack == [] && s.cursor == Idle && s.phase == Invalid && s.scan == 0 && !s.objectsMarked && !s.pushing
    && o in s.marked && !Harmless(s.heap, o)
  }

  lemma StaleFacts(s: State, o: Obj)
    requires Stale(s, o)
    ensures o in s.heap.home && s.heap.home[o] in s.heap.blocks && InHeap(o) in s.heap.mem &&
      s.heap.mem[InHeap(o)] != []
    ensures !IsUncollectable(s.heap.blocks[s.heap.home[o]].kind) && 0 < s.heap.blocks[s.heap.home[o]].pages
  {
  }

  lemma Resume(s: State, o: Obj) returns (t: State)
    requires Stale(s, o)
    ensures Goes(s, t) && Stale(t, o) && !t.stopped
  {
    t := s.(stopped := false);
    if s.stopped {
      GoesStep(s, Abandon);
    } else {
      GoesNowhere(s);
    }
  }

  function Written(s: State, l: Loc, words: seq<Ref>, dirty: set<nat>): State {
    s.(heap := s.heap.(mem := s.heap.mem[l := words]), dirty := dirty)
  }

  lemma WrittenStale(s: State, o: Obj, l: Loc, k: nat, v: Ref, dirty: set<nat>)
    requires Stale(s, o) && l in s.heap.mem && k < |s.heap.mem[l]| && (v.To? ==> v.obj in s.heap.home)
    ensures Stale(Written(s, l, s.heap.mem[l][k := v], dirty), o)
  {
    WriteHeapOk(s.heap, l, k, v);
  }

  lemma WriteObject(s: State, p: Obj, k: nat, v: Ref) returns (t: State)
    requires HeapWellFormed(s.heap) && !s.stopped && (v.To? ==> v.obj in s.heap.home)
    requires InHeap(p) in s.heap.mem && k < |s.heap.mem[InHeap(p)]|
    ensures Goes(s, t) && t == Written(s, InHeap(p), s.heap.mem[InHeap(p)][k := v], t.dirty)
  {
    var step := Store(p, k, v, s.heap.home[p]);
    GoesStep(s, step);
    t := Apply(s, step);
  }

  lemma WriteRoot(s: State, r: nat, k: nat, v: Ref) returns (t: State)
    requires !s.stopped && InRoot(r) in s.heap.mem && k < |s.heap.mem[InRoot(r)]| && (v.To? ==> v.obj in s.heap.home)
    ensures Goes(s, t) && t == Written(s, InRoot(r), s.heap.mem[InRoot(r)][k := v], t.dirty)
  {
    var step := RootStore(r, k, v);
    GoesStep(s, step);
    t := Apply(s, step);
  }

  /** The mutator can store any reference in any word. */
  lemma Write(s: State, o: Obj, l: Loc, k: nat, v: Ref) returns (t: State)
    requires Stale(s, o) && !s.stopped && l in s.heap.mem && k < |s.heap.mem[l]| && (v.To? ==> v.obj in s.heap.home)
    ensures Goes(s, t) && Stale(t, o) && !t.stopped && t == Written(s, l, s.heap.mem[l][k := v], t.dirty)
  {
    if l.InHeap? {
      t := WriteObject(s, l.obj, k, v);
    } else {
      t := WriteRoot(s, l.area, k, v);
    }
    WrittenStale(s, o, l, k, v, t.dirty);
  }

  lemma WrittenTwice(s: State, l: Loc, a: seq<Ref>, d: set<nat>, b: seq<Ref>, e: set<nat>)
    ensures Written(Written(s, l, a, d), l, b, e) == Written(s, l, b, e)
  {
    assert s.heap.mem[l := a][l := b] == s.heap.mem[l := b];
  }

  ghost predicate NullFrom(words: seq<Ref>, k: nat) {
    forall j :: k <= j < |words| ==> words[j].Null?
  }

  lemma {:induction false} BlankArea(s: State, o: Obj, l: Loc, k: nat) returns (t: State)
    requires Stale(s, o) && !s.stopped && l in s.heap.mem && k <= |s.heap.mem[l]| && NullFrom(s.heap.mem[l], k)
    ensures Goes(s, t) && Stale(t, o) && !t.stopped
    ensures l in t.heap.mem && t == Written(s, l, t.heap.mem[l], t.dirty)
    ensures |t.heap.mem[l]| == |s.heap.mem[l]| && NullFrom(t.heap.mem[l], 0)
    decreases k
  {
    if k == 0 {
      t := s;
      GoesNowhere(s);
      assert s.heap.mem[l := s.heap.mem[l]] == s.heap.mem;
    } else {
      var m := Write(s, o, l, k - 1, Null);
      t := BlankArea(m, o, l, k - 1);
      GoesOn(s, m, t);
      WrittenTwice(s, l, m.heap.mem[l], m.dirty, t.heap.mem[l], t.dirty);
    }
  }

  ghost function FullAreas(mem: Memory): set<Loc> {
    set l | l in mem && !NullFrom(mem[l], 0)
  }

  lemma OneFewer(mem: Memory, mem': Memory, l: Loc)
    requires l in FullAreas(mem) && l in mem' && mem' == mem[l := mem'[l]] && NullFrom(mem'[l], 0)
    ensures FullAreas(mem') == FullAreas(mem) - {l} && |FullAreas(mem')| < |FullAreas(mem)|
  {
    assert FullAreas(mem') == FullAreas(mem) - {l};
  }

  lemma {:induction false} BlankAll(s: State, o: Obj) returns (t: State)
    requires Stale(s, o) && !s.stopped
    ensures Goes(s, t) && Stale(t, o) && !t.stopped && FullAreas(t.heap.mem) == {}
    decreases |FullAreas(s.heap.mem)|
  {
    if FullAreas(s.heap.mem) == {} {
      t := s;
      GoesNowhere(s);
    } else {
      var l :| l in FullAreas(s.heap.mem);
      var m := BlankArea(s, o, l, |s.heap.mem[l]|);
      OneFewer(s.heap.mem, m.heap.mem, l);
      t := BlankAll(m, o);
      GoesOn(s, m, t);
    }
  }

  lemma {:induction false} Above(numbers: set<nat>) returns (x: nat)
    ensures forall y :: y in numbers ==> y < x
    decreases |numbers|
  {
    x := 0;
    if numbers != {} {
      var y :| y in numbers;
      var z := Above(numbers - {y});
      x := if z <= y then y + 1 else z;
      forall n | n in numbers ensures n < x {
        assert n == y || n in numbers - {y};
      }
    }
  }

  /** A new object, in a block of its own. */
  lemma AddObject(s: State, o: Obj) returns (t: State, x: Obj)
    requires Stale(s, o) && !s.stopped && FullAreas(s.heap.mem) == {}
    ensures Goes(s, t) && Stale(t, o) && !t.stopped && FullAreas(t.heap.mem) == {} && x in t.heap.home && x !in t.marked
  {
    x := Above(s.heap.home.Keys);
    var ends := set c | c in s.heap.blocks :: c + s.heap.blocks[c].pages;
    var a := Above(ends);
    var b := Block(Normal, 1, [x]);
    forall c | c in s.heap.blocks ensures c + s.heap.blocks[c].pages <= a {
      assert c + s.heap.blocks[c].pages in ends;
    }
    assert MAX_BLOCK_OBJS >= 1;
    GoesStep(s, AllocBlock(a, b, 0));
    t := Apply(s, AllocBlock(a, b, 0));
    AllocHeapOk(s.heap, a, b, 0);
    AllocExtends(s.heap, a, b, 0);
    StillStale(s, t, o);
    NewIsBlank(s.heap, t.heap);
    assert x in b.objs by { assert b.objs[0] == x; }
  }

  lemma StillStale(s: State, t: State, o: Obj)
    requires Stale(s, o) && t == s.(heap := t.heap) && HeapWellFormed(t.heap) && Extends(s.heap, t.heap)
    ensures Stale(t, o)
  {
  }

  lemma NewIsBlank(h: Heap, t: Heap)
    requires Extends(h, t) && FullAreas(h.mem) == {}
    ensures FullAreas(t.mem) == {}
  {
    forall l | l in t.mem ensures NullFrom(t.mem[l], 0) {
      if l in h.mem {
        assert l !in FullAreas(h.mem);
      }
    }
  }

  /** Every word outside `o` is no pointer or points to a marked object. */
  ghost predicate Calm(s: State, o: Obj) {
    forall l, k :: l in s.heap.mem && 0 <= k < |s.heap.mem[l]| && l != InHeap(o) && s.heap.mem[l][k].To? ==>
      s.heap.mem[l][k].obj in s.marked
  }

  /** Reachable object `x` is referenced from `o` alone, which is marked. */
  ghost predicate Trap(s: State, o: Obj, x: Obj) {
    Calm(s, o) && o in s.marked && x !in s.marked && PointsTo(s.heap.mem, InHeap(o), x) && IsRootTarget(s.heap.mem, o)
  }

  lemma SetTrap(s: State, o: Obj, x: Obj) returns (t: State)
    requires Stale(s, o) && !s.stopped && FullAreas(s.heap.mem) == {} && x in s.heap.home && x !in s.marked
    ensures Goes(s, t) && Stale(t, o) && !t.stopped && Trap(t, o, x)
  {
    StaleFacts(s, o);
    var m := Write(s, o, InHeap(o), 0, To(x));
    var r := Above(Roots(m.heap.mem));
    var n := AddedRoot(m, o, r);
    t := Write(n, o, InRoot(r), 0, To(o));
    GoesOn(s, m, n);
    GoesOn(s, n, t);
    TrapIsSet(s, m, n, t, o, x, r);
  }

  lemma AddedRoot(s: State, o: Obj, r: nat) returns (t: State)
    requires Stale(s, o) && !s.stopped && forall q :: q in Roots(s.heap.mem) ==> q < r
    ensures InRoot(r) !in s.heap.mem
    ensures Goes(s, t) && Stale(t, o) && !t.stopped &&
      t == s.(heap := s.heap.(mem := s.heap.mem[InRoot(r) := Blank(1)]))
  {
    assert InRoot(r) in s.heap.mem ==> r in Roots(s.heap.mem);
    GoesStep(s, AddRoot(r, 1));
    t := Apply(s, AddRoot(r, 1));
    AddRootHeapOk(s.heap, r, 1);
  }

  lemma TrapIsSet(s: State, m: State, n: State, t: State, o: Obj, x: Obj, r: nat)
    requires FullAreas(s.heap.mem) == {} && InHeap(o) in s.heap.mem && s.heap.mem[InHeap(o)] != [] && o in s.marked &&
      x !in s.marked
    requires m == Written(s, InHeap(o), s.heap.mem[InHeap(o)][0 := To(x)], m.dirty)
    requires InRoot(r) !in m.heap.mem && n == m.(heap := m.heap.(mem := m.heap.mem[InRoot(r) := Blank(1)]))
    requires t == Written(n, InRoot(r), n.heap.mem[InRoot(r)][0 := To(o)], t.dirty)
    ensures Trap(t, o, x)
  {
    assert t.heap.mem[InHeap(o)][0] == To(x) && t.heap.mem[InRoot(r)][0] == To(o);
    assert PointsTo(t.heap.mem, InRoot(r), o);
    forall l | l in s.heap.mem ensures NullFrom(s.heap.mem[l], 0) {
      assert l !in FullAreas(s.heap.mem);
    }
  }

  // -------------------------------------------------------------- what the marker does

  /**
   Marking in a stopped world that finds nothing new: only the words of `o`, which it does not look at, lead
   anywhere.
   */
  ghost predicate Quiet(s: State, o: Obj) {
    && HeapWellFormed(s.heap) && INITIAL_MARK_STACK_SIZE <= s.size && s.stopped && s.phase == PushUncollectable &&
       Calm(s, o)
    && o in s.heap.home && !IsUncollectable(s.heap.blocks[s.heap.home[o]].kind)
  }

  /** A range outside `o` is scanned without effect. */
  lemma {:induction false} ScanCalmly(s: State, o: Obj)
    requires Quiet(s, o) && s.cursor.Scanning? && s.cursor.held.Null? && s.cursor.loc != InHeap(o)
    requires RangeOk(s.heap.mem, s.cursor.loc, s.cursor.lo, s.cursor.hi)
    ensures Goes(s, s.(cursor := Idle))
    decreases s.cursor.hi - s.cursor.lo
  {
    if s.cursor.lo == s.cursor.hi {
      GoesStep(s, ScanHeld);
    } else {
      var t := s.(cursor := s.cursor.(lo := s.cursor.lo + 1));
      GoesStep(s, ScanNext);
      ScanCalmly(t, o);
      GoesOn(s, t, s.(cursor := Idle));
    }
  }

  /** The entries of a stack are ranges outside `o`. */
  ghost predicate Elsewhere(mem: Memory, stack: seq<Entry>, o: Obj) {
    forall i :: 0 <= i < |stack| ==>
      stack[i].loc != InHeap(o) && RangeOk(mem, stack[i].loc, stack[i].lo, stack[i].hi) && stack[i].lo < stack[i].hi
  }

  lemma TopIsElsewhere(s: State, o: Obj)
    requires s.stack != [] && Elsewhere(s.heap.mem, s.stack, o)
    ensures var m := TakeTopEntry(s);
      && Elsewhere(s.heap.mem, m.stack, o) && m.cursor.loc != InHeap(o) && m.cursor.held.Null?
      && RangeOk(s.heap.mem, m.cursor.loc, m.cursor.lo, m.cursor.hi)
  {
  }

  lemma TopIsWork(stack: seq<Entry>, m: seq<Entry>)
    requires stack != []
    requires var n := |stack| - 1; var e := stack[n];
      e.lo < e.hi && (m == stack[..n] || exists cut: nat :: e.lo < cut < e.hi && m == stack[..n] + [e.(lo := cut)])
    ensures StackWork(m) < StackWork(stack)
  {
    var n := |stack| - 1;
    var e := stack[n];
    if m != stack[..n] {
      var cut: nat :| e.lo < cut < e.hi && m == stack[..n] + [e.(lo := cut)];
      StackWorkPush(stack[..n], e.(lo := cut));
    }
  }

  /** The top entry is scanned, or the head of it. */
  lemma DrainOneCalmly(s: State, o: Obj) returns (t: State)
    requires Quiet(s, o) && s.cursor.Idle? && !s.pushing && s.stack != [] && Elsewhere(s.heap.mem, s.stack, o)
    ensures Goes(s, t) && t == s.(stack := t.stack, objectsMarked := true)
    ensures Elsewhere(s.heap.mem, t.stack, o) && StackWork(t.stack) < StackWork(s.stack)
  {
    var m := TakeTopEntry(s);
    GoesStep(s, TakeTop);
    TopIsElsewhere(s, o);
    TopIsWork(s.stack, m.stack);
    ScanCalmly(m, o);
    t := m.(cursor := Idle);
    GoesOn(s, m, t);
  }

  lemma {:induction false} DrainCalmly(s: State, o: Obj) returns (t: State)
    requires Quiet(s, o) && s.cursor.Idle? && !s.pushing && Elsewhere(s.heap.mem, s.stack, o)
    ensures Goes(s, t) && t == s.(stack := [], objectsMarked := t.objectsMarked)
    decreases StackWork(s.stack)
  {
    if s.stack == [] {
      t := s;
      GoesNowhere(s);
    } else {
      var m := DrainOneCalmly(s, o);
      t := DrainCalmly(m, o);
      GoesOn(s, m, t);
    }
  }

  /** Entry `e` is all of an object among `objs`. */
  ghost predicate WholeObject(mem: Memory, objs: seq<Obj>, e: Entry) {
    e.loc.InHeap? && e.loc.obj in objs && e.loc in mem && mem[e.loc] != [] && e.lo == 0 && e.hi == |mem[e.loc]|
  }

  lemma {:induction false} PushedObjects(s: State, objs: seq<Obj>)
    requires |s.stack| + |objs| <= s.size
    ensures var t := PushMarked(s, objs);
      && t == s.(stack := t.stack) && s.stack <= t.stack
      && forall i :: |s.stack| <= i < |t.stack| ==> WholeObject(s.heap.mem, objs, t.stack[i])
    decreases |objs|
  {
    if objs != [] {
      var m := PushIfMarked(s, objs[0]);
      PushedObjects(m, objs[1..]);
      var t := PushMarked(s, objs);
      forall i | |s.stack| <= i < |t.stack| ensures WholeObject(s.heap.mem, objs, t.stack[i]) {
        if i < |m.stack| {
          assert t.stack[i] == m.stack[i];
        } else {
          assert WholeObject(s.heap.mem, objs[1..], t.stack[i]);
        }
      }
    }
  }

  /** No block is left for the scan of the uncollectable objects. */
  ghost predicate Scanned(s: State) {
    forall c :: c in s.heap.blocks && s.scan <= c ==> !Relevant(s, c)
  }

  lemma {:induction false} LeastRelevant(s: State, a: nat) returns (least: nat)
    requires a in s.heap.blocks && s.scan <= a && Relevant(s, a)
    ensures least in s.heap.blocks && s.scan <= least && Relevant(s, least)
    ensures forall c :: c in s.heap.blocks && s.scan <= c < least ==> !Relevant(s, c)
    decreases a
  {
    least := a;
    if c :| c in s.heap.blocks && s.scan <= c < a && Relevant(s, c) {
      least := LeastRelevant(s, c);
    }
  }

  lemma ObjectsElsewhere(s: State, o: Obj, a: nat, stack: seq<Entry>)
    requires Quiet(s, o) && a in s.heap.blocks && IsUncollectable(s.heap.blocks[a].kind)
    requires forall i :: 0 <= i < |stack| ==> WholeObject(s.heap.mem, s.heap.blocks[a].objs, stack[i])
    ensures Elsewhere(s.heap.mem, stack, o)
  {
    forall i | 0 <= i < |stack| ensures stack[i].loc != InHeap(o) {
      assert WholeObject(s.heap.mem, s.heap.blocks[a].objs, stack[i]);
      assert s.heap.home[stack[i].loc.obj] == a;
    }
  }

  /** One block of uncollectable objects. */
  lemma ScanOneCalmly(s: State, o: Obj, a: nat) returns (t: State)
    requires Quiet(s, o) && s.cursor.Idle? && !s.pushing && s.stack == [] && Enabled(s, ScanBlock(a))
    ensures Goes(s, t) && s.scan <= a < t.scan && t == s.(scan := t.scan, objectsMarked := t.objectsMarked)
  {
    var b := s.heap.blocks[a];
    PushedObjects(s, b.objs);
    var m := Apply(s, ScanBlock(a));
    GoesStep(s, ScanBlock(a));
    ObjectsElsewhere(s, o, a, m.stack);
    t := DrainCalmly(m, o);
    GoesOn(s, m, t);
  }

  lemma {:induction false} ScanBlocksCalmly(s: State, o: Obj) returns (t: State)
    requires Quiet(s, o) && s.cursor.Idle? && !s.pushing && s.stack == []
    ensures Goes(s, t) && t == s.(scan := t.scan, objectsMarked := t.objectsMarked) && Scanned(t)
    decreases |Ahead(s)|
  {
    if a :| a in s.heap.blocks && s.scan <= a && Relevant(s, a) {
      var least := LeastRelevant(s, a);
      var m := ScanOneCalmly(s, o, least);
      assert Ahead(m) <= Ahead(s) - {least};
      SubsetSize(Ahead(m), Ahead(s) - {least});
      t := ScanBlocksCalmly(m, o);
      GoesOn(s, m, t);
    } else {
      t := s;
      GoesNowhere(s);
    }
  }

  lemma {:induction false} PushRootsCalmly(s: State, o: Obj)
    requires Quiet(s, o) && s.cursor.Idle? && s.pushing && forall r :: r in s.rootsTodo ==> InRoot(r) in s.heap.mem
    ensures Goes(s, s.(rootsTodo := {}))
    decreases |s.rootsTodo|
  {
    if s.rootsTodo == {} {
      GoesNowhere(s);
    } else {
      var r :| r in s.rootsTodo;
      var m := Apply(s, RootEager(r));
      GoesStep(s, RootEager(r));
      ScanCalmly(m, o);
      PushRootsCalmly(m.(cursor := Idle), o);
      GoesOn(s, m, m.(cursor := Idle));
      GoesOn(s, m.(cursor := Idle), s.(rootsTodo := {}));
    }
  }

  /** From the roots to the end. */
  lemma FinishCalmly(s: State, o: Obj) returns (t: State)
    requires Quiet(s, o) && s.cursor.Idle? && !s.pushing && s.stack == [] && Scanned(s)
    ensures Goes(s, t) && t.stopped && t.phase == None && t.heap == s.heap && t.marked == s.marked
  {
    var a := Apply(s, ScanEnd);
    GoesStep(s, ScanEnd);
    PushRootsCalmly(a, o);
    var b := a.(rootsTodo := {});
    GoesOn(s, a, b);
    var c := Apply(b, EndRoots);
    GoesStep(b, EndRoots);
    GoesOn(s, b, c);
    t := Apply(c, Finish(false));
    GoesStep(c, Finish(false));
    GoesOn(s, c, t);
  }

  /** The next stopped mark passes over the trap. */
  lemma Collect(s: State, o: Obj, x: Obj) returns (t: State)
    requires Stale(s, o) && !s.stopped && Trap(s, o, x)
    ensures Goes(s, t) && t.stopped && t.phase == None && t.heap == s.heap && t.marked == s.marked
  {
    StaleFacts(s, o);
    var a := Apply(s, StartStop);
    GoesStep(s, StartStop);
    var b := Apply(a, GoUncollectable);
    GoesStep(a, GoUncollectable);
    GoesOn(s, a, b);
    var c := ScanBlocksCalmly(b, o);
    GoesOn(s, b, c);
    t := FinishCalmly(c, o);
    GoesOn(s, c, t);
  }

  lemma TrappedIsReachable(mem: Memory, o: Obj, x: Obj)
    requires IsRootTarget(mem, o) && PointsTo(mem, InHeap(o), x)
    ensures Reachable(mem, x)
  {
    var path := [o, x];
    assert IsPath(mem, path);
  }

  /** A mark that is not on record can cost a reachable object. */
  lemma StaleLosesSomething(s: State, o: Obj)
    requires Stale(s, o)
    ensures !LosesNothing(s)
  {
    var a := Resume(s, o);
    var b := BlankAll(a, o);
    var c, x := AddObject(b, o);
    var d := SetTrap(c, o, x);
    var end := Collect(d, o, x);
    GoesOn(s, a, b);
    GoesOn(s, b, c);
    GoesOn(s, c, d);
    GoesOn(s, d, end);
    TrappedIsReachable(end.heap.mem, o, x);
    var steps :| Runs(s, steps, end);
    assert Enabled(end, FinishStop);
  }

  /**
   Recovering from a fault loses nothing in any run that follows, exactly if the marks made so far are
   on record, or are all on objects that are uncollectable or have no words.
   */
  lemma RecoveryIsSafe(s: State)
    requires Inv(s) && MarkerRuns(s) && s.phase != None
    ensures LosesNothing(Recovered(s)) <==> Recoverable(s)
  {
    if Recoverable(s) {
      RecoverableLosesNothing(s);
    } else {
      var o :| o in s.marked && !Harmless(s.heap, o);
      StaleLosesSomething(Recovered(s), o);
    }
  }
}
