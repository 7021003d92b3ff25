/** Every step of the marker, the collection driver and the mutator keeps the invariant. */
module MarkSafety {
  import opened Config
  import opened ObjectGraph
  import opened MarkModel

  /** States that differ only in the mark stack and the fields overflow touches. */
  ghost predicate SameButStack(s: State, t: State) {
    t == s.(stack := t.stack, phase := t.phase, tooSmall := t.tooSmall)
  }

  lemma PushEntryFacts(s: State, e: Entry)
    requires StackWellFormed(s) && RangeOk(s.heap.mem, e.loc, e.lo, e.hi) && e.lo < e.hi
    ensures var t := PushEntry(s, e);
      && SameButStack(s, t) && StackWellFormed(t)
      && (t.phase == Invalid || (t.phase == s.phase && t.stack == s.stack + [e]))
  {
  }

  lemma OnStackAppend(stack: seq<Entry>, more: seq<Entry>, l: Loc, k: nat)
    ensures OnStack(stack + more, l, k) <==> OnStack(stack, l, k) || OnStack(more, l, k)
  {
    var all := stack + more;
    if OnStack(stack, l, k) {
      var i :| 0 <= i < |stack| && stack[i].loc == l && stack[i].lo <= k < stack[i].hi;
      assert all[i] == stack[i];
    }
    if OnStack(more, l, k) {
      var i :| 0 <= i < |more| && more[i].loc == l && more[i].lo <= k < more[i].hi;
      assert all[|stack| + i] == more[i];
    }
  }

  /** Marking an object and pushing its words leaves nothing unaccounted for. */
  lemma MarkAndPushKeeps(s: State, r: Ref)
    requires HeapWellFormed(s.heap) && s.marked <= s.heap.home.Keys && StackWellFormed(s)
    requires r.To? ==> r.obj in s.heap.home
    ensures var t := MarkAndPush(s, r);
      && t.marked <= t.heap.home.Keys && StackWellFormed(t)
      && SameButStack(s.(marked := t.marked), t)
      && (r.To? ==> r.obj in t.marked) && s.marked <= t.marked
      && (t.phase == Invalid || (t.phase == s.phase
          && (forall l, k :: OnStack(s.stack, l, k) ==> OnStack(t.stack, l, k))
          && (forall o, k :: o in t.marked && o !in s.marked && White(t, InHeap(o), k) ==>
               OnStack(t.stack, InHeap(o), k))))
  {
    if r.To? && r.obj !in s.marked && s.heap.mem[InHeap(r.obj)] != [] {
      PushEntryFacts(s.(marked := s.marked + {r.obj}), Entry(InHeap(r.obj), 0, |s.heap.mem[InHeap(r.obj)]|));
      if MarkAndPush(s, r).phase != Invalid {
        MarkCovers(s, r.obj);
      }
    }
  }

  /** Without an overflow, what was on the stack still is, and so are all words of the object. */
  lemma MarkCovers(s: State, o: Obj)
    requires InHeap(o) in s.heap.mem && s.heap.mem[InHeap(o)] != [] && o !in s.marked
    requires MarkAndPush(s, To(o)).phase != Invalid
    ensures var t := MarkAndPush(s, To(o));
      && (forall l, k :: OnStack(s.stack, l, k) ==> OnStack(t.stack, l, k))
      && (forall k :: White(t, InHeap(o), k) ==> OnStack(t.stack, InHeap(o), k))
  {
    var t, e := MarkAndPush(s, To(o)), Entry(InHeap(o), 0, |s.heap.mem[InHeap(o)]|);
    forall l, k | OnStack(s.stack, l, k) || OnStack([e], l, k) ensures OnStack(t.stack, l, k) {
      OnStackAppend(s.stack, [e], l, k);
    }
    forall k | White(t, InHeap(o), k) ensures OnStack([e], InHeap(o), k) {
      assert [e][0] == e;
    }
  }

  /** Pushing a block's marked objects puts every word of theirs on the stack, unless the stack overflowed. */
  lemma {:induction false} PushMarkedFacts(s: State, objs: seq<Obj>)
    requires StackWellFormed(s)
    ensures var t := PushMarked(s, objs);
      && SameButStack(s, t) && StackWellFormed(t)
      && (t.phase == Invalid || (t.phase == s.phase
          && (forall l, k :: OnStack(s.stack, l, k) ==> OnStack(t.stack, l, k))
          && (forall o, k :: o in objs && o in s.marked && White(s, InHeap(o), k) ==> OnStack(t.stack, InHeap(o), k))))
      && (t.phase != s.phase ==> exists o ::
           o in objs && o in s.marked && InHeap(o) in s.heap.mem && s.heap.mem[InHeap(o)] != [])
    decreases |objs|
  {
    if objs != [] {
      var o := objs[0];
      var n := if InHeap(o) in s.heap.mem then |s.heap.mem[InHeap(o)]| else 0;
      var e := Entry(InHeap(o), 0, n);
      var t := if o in s.marked && n > 0 then PushEntry(s, e) else s;
      if o in s.marked && n > 0 {
        PushEntryFacts(s, e);
        forall l, k | t.phase != Invalid && (OnStack(s.stack, l, k) || OnStack([e], l, k))
          ensures OnStack(t.stack, l, k)
        {
          OnStackAppend(s.stack, [e], l, k);
        }
      }
      PushMarkedFacts(t, objs[1..]);
      var u := PushMarked(s, objs);
      assert u == PushMarked(t, objs[1..]);
      forall p, k | u.phase != Invalid && p in objs && p in s.marked && White(s, InHeap(p), k)
        ensures OnStack(u.stack, InHeap(p), k)
      {
        if p == o {
          assert [e][0] == e;
          assert OnStack([e], InHeap(p), k);
        } else {
          assert p in objs[1..];
          assert White(t, InHeap(p), k);
        }
      }
    }
  }

  // ------------------------------------------------------------- GC_mark_from

  /** The range taken from the top of the stack is split between the cursor and what stays on the stack. */
  lemma TakeTopCovers(s: State, l: Loc, k: nat)
    requires s.stack != [] && OnStack(s.stack, l, k)
    ensures var t := TakeTopEntry(s);
      OnStack(t.stack, l, k) || (t.cursor.loc == l && t.cursor.lo <= k < t.cursor.hi)
  {
    var t := TakeTopEntry(s);
    var n := |s.stack| - 1;
    var e := s.stack[n];
    assert s.stack == s.stack[..n] + [e];
    OnStackAppend(s.stack[..n], [e], l, k);
    assert t.stack == s.stack[..n] + t.stack[n..];
    OnStackAppend(s.stack[..n], t.stack[n..], l, k);
    if !OnStack(s.stack[..n], l, k) && !(t.cursor.lo <= k < t.cursor.hi) {
      assert t.stack[n..][0].loc == l && t.stack[n..][0].lo <= k < t.stack[n..][0].hi;
    }
  }

  lemma TakeTopStackOk(s: State)
    requires StackWellFormed(s) && s.stack != []
    ensures StackWellFormed(TakeTopEntry(s))
  {
  }

  lemma TakeTopGrey(s: State)
    requires GreyInvariant(s) && Enabled(s, TakeTop) && s.cursor.Idle?
    ensures GreyInvariant(Apply(s, TakeTop))
  {
    var t := TakeTopEntry(s);
    forall l, k: nat | White(t, l, k) ensures Justified(t, l, k) {
      assert White(s, l, k) && Justified(s, l, k);
      if OnStack(s.stack, l, k) {
        TakeTopCovers(s, l, k);
      }
    }
  }

  lemma TakeTopKeeps(s: State)
    requires Inv(s) && Enabled(s, TakeTop)
    ensures Inv(Apply(s, TakeTop))
  {
    TakeTopStackOk(s);
    TakeTopGrey(s);
  }

  lemma HoldLastKeeps(s: State)
    requires Inv(s) && Enabled(s, HoldLast)
    ensures Inv(Apply(s, HoldLast))
  {
    var t := Apply(s, HoldLast);
    forall l, k: nat | White(t, l, k) ensures Justified(t, l, k) {
      assert White(s, l, k) && Justified(s, l, k);
    }
  }

  lemma ScanNextKeeps(s: State)
    requires Inv(s) && Enabled(s, ScanNext)
    ensures Inv(Apply(s, ScanNext))
  {
    var c := s.cursor;
    MarkAndPushKeeps(s.(cursor := c.(lo := c.lo + 1)), s.heap.mem[c.loc][c.lo]);
    ScanNextGrey(s);
  }

  lemma ScanNextGrey(s: State)
    requires Inv(s) && Enabled(s, ScanNext)
    ensures GreyInvariant(Apply(s, ScanNext))
  {
    var c := s.cursor;
    var m := s.(cursor := c.(lo := c.lo + 1));
    MarkAndPushKeeps(m, s.heap.mem[c.loc][c.lo]);
    ScannedGrey(s, MarkAndPush(m, s.heap.mem[c.loc][c.lo]));
  }

  lemma ScannedGrey(s: State, t: State)
    requires GreyInvariant(s) && MarksMore(s, t) && s.cursor.Scanning? && s.cursor.lo < s.cursor.hi
    requires RangeOk(s.heap.mem, s.cursor.loc, s.cursor.lo, s.cursor.hi) && t.cursor == s.cursor.(lo := s.cursor.lo + 1)
    requires var r := s.heap.mem[s.cursor.loc][s.cursor.lo]; r.To? ==> r.obj in t.marked
    ensures GreyInvariant(t)
  {
    GreyAfterMark(s, t);
  }

  /** More is marked, and what is newly marked is on the stack, with all that was there, unless it overflowed. */
  ghost predicate MarksMore(s: State, t: State) {
    && s.marked <= t.marked && SameButStack(s.(marked := t.marked, cursor := t.cursor), t)
    && (t.phase == Invalid || (t.phase == s.phase
        && (forall l, k :: OnStack(s.stack, l, k) ==> OnStack(t.stack, l, k))
        && (forall o, k :: o in t.marked && o !in s.marked && White(t, InHeap(o), k) ==>
             OnStack(t.stack, InHeap(o), k))))
  }

  /** Marking more accounts for what it marks; whatever else the cursor leaves behind has to be marked. */
  lemma GreyAfterMark(s: State, t: State)
    requires GreyInvariant(s) && MarksMore(s, t)
    requires forall l, k: nat :: White(t, l, k) && AtCursor(s.cursor, l, k, s.heap.mem[l][k]) ==>
      AtCursor(t.cursor, l, k, s.heap.mem[l][k])
    ensures GreyInvariant(t)
  {
    forall l, k: nat | White(t, l, k) ensures Justified(t, l, k) {
      assert White(s, l, k) && Justified(s, l, k);
    }
  }

  lemma ScanHeldKeeps(s: State)
    requires Inv(s) && Enabled(s, ScanHeld)
    ensures Inv(Apply(s, ScanHeld))
  {
    MarkAndPushKeeps(s.(cursor := Idle), s.cursor.held);
    ScanHeldGrey(s);
  }

  lemma ScanHeldGrey(s: State)
    requires Inv(s) && Enabled(s, ScanHeld)
    ensures GreyInvariant(Apply(s, ScanHeld))
  {
    MarkAndPushKeeps(s.(cursor := Idle), s.cursor.held);
    GreyAfterMark(s, MarkAndPush(s.(cursor := Idle), s.cursor.held));
  }

  // ------------------------------------------------------------- GC_mark_some

  lemma ScanBlockKeeps(s: State, a: nat)
    requires Inv(s) && Enabled(s, ScanBlock(a))
    ensures Inv(Apply(s, ScanBlock(a)))
  {
    PushMarkedFacts(s, s.heap.blocks[a].objs);
    ScanBlockGrey(s, a);
  }

  lemma ScanBlockGrey(s: State, a: nat)
    requires Inv(s) && Enabled(s, ScanBlock(a))
    ensures GreyInvariant(Apply(s, ScanBlock(a)))
  {
    PushMarkedFacts(s, s.heap.blocks[a].objs);
    GreyAfterScan(s, a, Apply(s, ScanBlock(a)));
  }

  /** Going on past a block accounts for its marked objects by the stack. */
  lemma GreyAfterScan(s: State, a: nat, t: State)
    requires Inv(s) && Enabled(s, ScanBlock(a)) && t.scan == a + s.heap.blocks[a].pages
    requires SameButStack(s.(scan := t.scan, objectsMarked := t.objectsMarked), t)
    requires t.phase == Invalid || (t.phase == s.phase
      && (forall l, k :: OnStack(s.stack, l, k) ==> OnStack(t.stack, l, k))
      && (forall o, k :: o in s.heap.blocks[a].objs && o in s.marked && White(s, InHeap(o), k) ==>
           OnStack(t.stack, InHeap(o), k)))
    ensures GreyInvariant(t)
  {
    forall l, k: nat | t.phase != Invalid && White(t, l, k) ensures Justified(t, l, k) {
      assert White(s, l, k) && Justified(s, l, k);
    }
  }

  lemma ScanEndKeeps(s: State)
    requires Inv(s) && Enabled(s, ScanEnd)
    ensures Inv(Apply(s, ScanEnd))
  {
    ScanEndGrey(s);
  }

  lemma ScanEndGrey(s: State)
    requires Inv(s) && Enabled(s, ScanEnd)
    ensures GreyInvariant(Apply(s, ScanEnd))
  {
    var t := Apply(s, ScanEnd);
    forall l, k: nat | White(t, l, k) ensures Justified(t, l, k) {
      assert White(s, l, k) && Justified(s, l, k);
    }
  }

  lemma RevalidateKeeps(s: State, grow: bool)
    requires Inv(s) && Enabled(s, Revalidate(grow))
    ensures Inv(Apply(s, Revalidate(grow)))
  {
    RevalidateGrey(s, grow);
  }

  lemma RevalidateGrey(s: State, grow: bool)
    requires Inv(s) && Enabled(s, Revalidate(grow))
    ensures GreyInvariant(Apply(s, Revalidate(grow)))
  {
    var t := Apply(s, Revalidate(grow));
    forall l, k: nat | White(t, l, k) ensures Justified(t, l, k) {
      assert White(s, l, k) && Justified(s, l, k);
    }
  }

  lemma GoUncollectableKeeps(s: State)
    requires Inv(s) && Enabled(s, GoUncollectable)
    ensures Inv(Apply(s, GoUncollectable))
  {
    GoUncollectableGrey(s);
  }

  lemma GoUncollectableGrey(s: State)
    requires Inv(s) && Enabled(s, GoUncollectable)
    ensures GreyInvariant(Apply(s, GoUncollectable))
  {
    var t := Apply(s, GoUncollectable);
    forall l, k: nat | White(t, l, k) ensures Justified(t, l, k) {
      assert White(s, l, k) && Justified(s, l, k);
    }
  }

  lemma FinishKeeps(s: State, grow: bool)
    requires Inv(s) && Enabled(s, Finish(grow))
    ensures Inv(Apply(s, Finish(grow)))
  {
    FinishGrey(s, grow);
  }

  lemma FinishGrey(s: State, grow: bool)
    requires Inv(s) && Enabled(s, Finish(grow))
    ensures GreyInvariant(Apply(s, Finish(grow)))
  {
    var t := Apply(s, Finish(grow));
    forall l, k: nat | White(t, l, k) ensures Justified(t, l, k) {
      assert White(s, l, k) && Justified(s, l, k);
    }
  }

  lemma EndRootsKeeps(s: State)
    requires Inv(s) && Enabled(s, EndRoots)
    ensures Inv(Apply(s, EndRoots))
  {
    EndRootsGrey(s);
  }

  lemma EndRootsGrey(s: State)
    requires Inv(s) && Enabled(s, EndRoots)
    ensures GreyInvariant(Apply(s, EndRoots))
  {
    var t := Apply(s, EndRoots);
    forall l, k: nat | White(t, l, k) ensures Justified(t, l, k) {
      assert White(s, l, k) && Justified(s, l, k);
    }
  }

  lemma NoteTooSmallKeeps(s: State)
    requires Inv(s) && Enabled(s, NoteTooSmall)
    ensures Inv(Apply(s, NoteTooSmall))
  {
    NoteTooSmallGrey(s);
  }

  lemma NoteTooSmallGrey(s: State)
    requires Inv(s) && Enabled(s, NoteTooSmall)
    ensures GreyInvariant(Apply(s, NoteTooSmall))
  {
    var t := Apply(s, NoteTooSmall);
    forall l, k: nat | White(t, l, k) ensures Justified(t, l, k) {
      assert White(s, l, k) && Justified(s, l, k);
    }
  }

  // ------------------------------------------------------------ GC_push_roots

  lemma RootRangeKeeps(s: State, r: nat)
    requires Inv(s) && Enabled(s, RootRange(r))
    ensures Inv(Apply(s, RootRange(r)))
  {
    var t := Apply(s, RootRange(r));
    var u := s.(rootsTodo := s.rootsTodo - {r});
    var n := |s.heap.mem[InRoot(r)]|;
    var e := Entry(InRoot(r), 0, n);
    if n > 0 {
      PushEntryFacts(u, e);
    }
    forall l, k: nat | White(t, l, k) ensures Justified(t, l, k) {
      assert White(s, l, k) && Justified(s, l, k);
      if l == InRoot(r) {
        assert [e][0] == e;
        assert OnStack([e], l, k);
      }
      OnStackAppend(s.stack, [e], l, k);
    }
  }

  lemma RootEagerKeeps(s: State, r: nat)
    requires Inv(s) && Enabled(s, RootEager(r))
    ensures Inv(Apply(s, RootEager(r)))
  {
    var t := Apply(s, RootEager(r));
    forall l, k: nat | White(t, l, k) ensures Justified(t, l, k) {
      assert White(s, l, k) && Justified(s, l, k);
    }
  }

  // -------------------------------------------------------- collection driver

  lemma DriverKeeps(s: State, step: Step)
    requires Inv(s) && Enabled(s, step)
    requires || step.StartStop? || step.Abandon? || step.FinishStop? || step.ClearMarks? || step.Invalidate? ||
      step.Fault?
      || step.Sweep?
    ensures Inv(Apply(s, step))
  {
    match step
    case StartStop => StartStopKeeps(s);
    case ClearMarks => ClearMarksKeeps(s);
    case Abandon => StartWorldKeeps(s, step);
    case FinishStop => StartWorldKeeps(s, step);
    case Invalidate => InvalidateKeeps(s);
    case Fault => FaultKeeps(s);
    case Sweep => SweepKeeps(s);
  }

  lemma StartWorldKeeps(s: State, step: Step)
    requires Inv(s) && Enabled(s, step) && (step == Abandon || step == FinishStop)
    ensures Inv(Apply(s, step))
  {
    var t := s.(stopped := false);
    forall l, k: nat | White(t, l, k) ensures Justified(t, l, k) {
      assert White(s, l, k) && Justified(s, l, k);
    }
  }

  lemma InvalidateKeeps(s: State)
    requires Inv(s) && Enabled(s, Invalidate)
    ensures Inv(Apply(s, Invalidate))
  {
    var t := Apply(s, Invalidate);
    forall l, k: nat | White(t, l, k) ensures Justified(t, l, k) {
      assert White(s, l, k) && Justified(s, l, k);
    }
  }

  lemma StartStopKeeps(s: State)
    requires Inv(s) && Enabled(s, StartStop)
    ensures Inv(Apply(s, StartStop))
  {
    var t := Apply(s, StartStop);
    forall l, k: nat | White(t, l, k) ensures Justified(t, l, k) {
      assert White(s, l, k) && Justified(s, l, k);
    }
  }

  lemma ClearMarksKeeps(s: State)
    requires Inv(s) && Enabled(s, ClearMarks)
    ensures Inv(Apply(s, ClearMarks))
  {
  }

  lemma FaultKeeps(s: State)
    requires Inv(s) && MarkerRuns(s) && Recoverable(s)
    ensures Inv(Recovered(s))
  {
    var t := Recovered(s);
    forall l, k: nat | White(t, l, k) ensures Justified(t, l, k) {
      assert White(s, l, k);
    }
  }

  // -------------------------------------------------------------------- sweep

  lemma {:induction false} KeptMembers(objs: seq<Obj>, marked: set<Obj>)
    ensures |Kept(objs, marked)| <= |objs|
    ensures forall o :: o in Kept(objs, marked) <==> o in objs && o in marked
    decreases |objs|
  {
    if objs != [] {
      var n := |objs| - 1;
      KeptMembers(objs[..n], marked);
      assert objs == objs[..n] + [objs[n]];
    }
  }

  lemma SweptLayout(h: Heap, marked: set<Obj>)
    requires LayoutOk(h.blocks)
    ensures LayoutOk(Swept(h, marked).blocks)
  {
    var u := Swept(h, marked);
    forall a | a in u.blocks ensures 0 < u.blocks[a].pages && |u.blocks[a].objs| <= MAX_BLOCK_OBJS {
      KeptMembers(h.blocks[a].objs, marked);
    }
  }

  lemma SweptHomes(h: Heap, marked: set<Obj>)
    requires HomesOk(h)
    ensures HomesOk(Swept(h, marked))
  {
    var u := Swept(h, marked);
    forall a, o | a in u.blocks && o in u.blocks[a].objs ensures o in u.home && u.home[o] == a {
      KeptMembers(h.blocks[a].objs, marked);
    }
    forall o | o in u.home ensures u.home[o] in u.blocks && o in u.blocks[u.home[o]].objs {
      KeptMembers(h.blocks[h.home[o]].objs, marked);
    }
  }

  lemma SweptPointers(h: Heap, marked: set<Obj>, l: Loc, k: nat)
    requires ContentsOk(h) && MarksComplete(h.mem, marked)
    requires var u := Swept(h, marked); l in u.mem && k < |u.mem[l]| && u.mem[l][k].To?
    ensures h.mem[l][k].obj in Swept(h, marked).home
  {
    var p := h.mem[l][k].obj;
    assert PointsTo(h.mem, l, p);
    assert p in marked;
  }

  lemma SweptContents(h: Heap, marked: set<Obj>)
    requires HeapWellFormed(h) && MarksComplete(h.mem, marked) && HomesOk(Swept(h, marked))
    ensures ContentsOk(Swept(h, marked))
  {
    var u := Swept(h, marked);
    forall l, k | l in u.mem && 0 <= k < |u.mem[l]| && u.mem[l][k].To? ensures u.mem[l][k].obj in u.home {
      SweptPointers(h, marked, l, k);
    }
  }

  lemma SweepKeeps(s: State)
    requires Inv(s) && Enabled(s, Sweep)
    ensures Inv(Apply(s, Sweep))
  {
    var t := Apply(s, Sweep);
    FinishedMarksAreClosed(s);
    SweptLayout(s.heap, s.marked);
    SweptHomes(s.heap, s.marked);
    SweptContents(s.heap, s.marked);
    assert forall l, k: nat :: !White(t, l, k);
  }

  /** A path from a marked object stays among marked objects. */
  lemma MarkedPath(mem: Memory, marked: set<Obj>, path: seq<Obj>)
    requires ClosedUnderPointers(mem, marked) && IsPath(mem, path) && |path| > 0 && path[0] in marked
    ensures forall i :: 0 <= i < |path| ==> path[i] in marked
  {
    forall i | 0 <= i < |path| ensures path[i] in marked {
      ClosedSetHoldsPath(mem, marked, path[..i + 1]);
    }
  }

  /** A root path of a swept heap was one before. */
  lemma SweptPath(mem: Memory, swept: Memory, path: seq<Obj>)
    requires forall l :: l in swept ==> l in mem && mem[l] == swept[l]
    requires |path| > 0 && IsRootTarget(swept, path[0]) && IsPath(swept, path)
    ensures IsRootTarget(mem, path[0]) && IsPath(mem, path)
  {
    assert forall l, p :: PointsTo(swept, l, p) ==> PointsTo(mem, l, p);
  }

  /** A path among marked objects survives. */
  lemma PathKept(mem: Memory, swept: Memory, marked: set<Obj>, path: seq<Obj>)
    requires forall l :: l in mem && (l.InRoot? || l.obj in marked) ==> l in swept && mem[l] == swept[l]
    requires |path| > 0 && IsRootTarget(mem, path[0]) && IsPath(mem, path) &&
      forall i :: 0 <= i < |path| ==> path[i] in marked
    ensures IsRootTarget(swept, path[0]) && IsPath(swept, path)
  {
    assert forall l, p :: PointsTo(mem, l, p) && (l.InRoot? || l.obj in marked) ==> PointsTo(swept, l, p);
  }

  /**
   Sweeping frees garbage only: what is reachable stays, with its contents, and is still all that is reachable.
   And it frees everything that is not marked.
   */
  lemma SweepFreesGarbage(s: State, o: Obj)
    requires Inv(s) && Enabled(s, Sweep)
    ensures var heap := Apply(s, Sweep).heap;
      && (o in heap.home <==> o in s.heap.home && o in s.marked)
      && (InHeap(o) in heap.mem <==> InHeap(o) in s.heap.mem && o in s.marked)
      && (forall a, k :: a in heap.blocks && 0 <= k < |heap.blocks[a].objs| ==> heap.blocks[a].objs[k] in s.marked)
    ensures var mem := Apply(s, Sweep).heap.mem;
      && (Reachable(mem, o) <==> Reachable(s.heap.mem, o))
      && (Reachable(s.heap.mem, o) && InHeap(o) in s.heap.mem ==>
           InHeap(o) in mem && mem[InHeap(o)] == s.heap.mem[InHeap(o)])
  {
    FinishedMarksAreClosed(s);
    SweptReach(s.heap.mem, Swept(s.heap, s.marked).mem, s.marked, o);
    forall a | a in s.heap.blocks
      ensures forall k :: 0 <= k < |Kept(s.heap.blocks[a].objs, s.marked)| ==>
        Kept(s.heap.blocks[a].objs, s.marked)[k] in s.marked
    {
      OnlyMarkedKept(s.heap.blocks[a].objs, s.marked);
    }
  }

  lemma {:induction false} OnlyMarkedKept(objs: seq<Obj>, marked: set<Obj>)
    ensures forall k :: 0 <= k < |Kept(objs, marked)| ==> Kept(objs, marked)[k] in marked
  {
    if objs != [] {
      OnlyMarkedKept(objs[..|objs| - 1], marked);
    }
  }

  lemma SweptReach(mem: Memory, swept: Memory, marked: set<Obj>, o: Obj)
    requires MarksComplete(mem, marked)
    requires forall l :: l in swept ==> l in mem && mem[l] == swept[l]
    requires forall l :: l in mem && (l.InRoot? || l.obj in marked) ==> l in swept && mem[l] == swept[l]
    ensures Reachable(swept, o) <==> Reachable(mem, o)
    ensures Reachable(mem, o) ==> o in marked
  {
    if Reachable(swept, o) {
      var path: seq<Obj> :| |path| > 0 && IsRootTarget(swept, path[0]) && IsPath(swept, path) && path[|path| - 1] == o;
      SweptPath(mem, swept, path);
    }
    if Reachable(mem, o) {
      var path: seq<Obj> :| |path| > 0 && IsRootTarget(mem, path[0]) && IsPath(mem, path) && path[|path| - 1] == o;
      MarkedPath(mem, marked, path);
      PathKept(mem, swept, marked, path);
    }
  }

  // ------------------------------------------------------------------ mutator

  /** The mutator never shrinks an area, so ranges waiting to be scanned stay inside it. */
  lemma StackOkAcrossHeaps(s: State, t: State)
    requires StackWellFormed(s)
    requires t.stack == s.stack && t.size == s.size && t.cursor == s.cursor
    requires s.heap.home.Keys <= t.heap.home.Keys
    requires forall l :: l in s.heap.mem ==> l in t.heap.mem && |s.heap.mem[l]| == |t.heap.mem[l]|
    ensures StackWellFormed(t)
  {
    forall i | 0 <= i < |t.stack| ensures RangeOk(t.heap.mem, t.stack[i].loc, t.stack[i].lo, t.stack[i].hi) {
      assert RangeOk(s.heap.mem, s.stack[i].loc, s.stack[i].lo, s.stack[i].hi);
    }
  }

  /** Besides the grey invariant, nothing depends on the contents of memory or on what is new in it. */
  lemma FrameAcrossHeaps(s: State, t: State)
    requires HeapWellFormed(s.heap) && s.marked <= s.heap.home.Keys && StackWellFormed(s) && PhaseWellFormed(s)
    requires t == s.(heap := t.heap, dirty := t.dirty) && s.heap.home.Keys <= t.heap.home.Keys
    requires HeapWellFormed(t.heap)
    requires forall l :: l in s.heap.mem ==> l in t.heap.mem && |s.heap.mem[l]| == |t.heap.mem[l]|
    requires forall p :: InUncollectable(s.heap, p) ==> InUncollectable(t.heap, p)
    ensures StackWellFormed(t) && PhaseWellFormed(t)
  {
    StackOkAcrossHeaps(s, t);
    if OnlyHarmlessMarked(s) {
      forall p | p in s.marked ensures Harmless(t.heap, p) {
        assert Harmless(s.heap, p);
      }
    }
  }

  lemma WriteHeapOk(h: Heap, l: Loc, k: nat, v: Ref)
    requires HeapWellFormed(h) && l in h.mem && k < |h.mem[l]| && (v.To? ==> v.obj in h.home)
    ensures HeapWellFormed(h.(mem := h.mem[l := h.mem[l][k := v]]))
  {
  }

  /** A store leaves alone everything but the grey invariant. */
  lemma WriteKeeps(s: State, t: State, l: Loc, k: nat, v: Ref)
    requires HeapWellFormed(s.heap) && s.marked <= s.heap.home.Keys && StackWellFormed(s) && PhaseWellFormed(s)
    requires l in s.heap.mem && k < |s.heap.mem[l]| && (v.To? ==> v.obj in s.heap.home)
    requires t == s.(heap := s.heap.(mem := s.heap.mem[l := s.heap.mem[l][k := v]]), dirty := t.dirty)
    ensures HeapWellFormed(t.heap) && StackWellFormed(t) && PhaseWellFormed(t)
  {
    WriteHeapOk(s.heap, l, k, v);
    FrameAcrossHeaps(s, t);
  }

  lemma StoreGrey(s: State, o: Obj, k: nat, v: Ref, page: nat)
    requires GreyInvariant(s) && Enabled(s, Store(o, k, v, page))
    ensures GreyInvariant(Apply(s, Store(o, k, v, page)))
  {
    var t := Apply(s, Store(o, k, v, page));
    forall l, j: nat | White(t, l, j) ensures Justified(t, l, j) {
      if l == InHeap(o) && j == k {
        assert t.incremental ==> PageHash(page) in t.dirty;
        assert Excused(t, o);
      } else {
        assert White(s, l, j) && Justified(s, l, j);
      }
    }
  }

  lemma StoreKeeps(s: State, o: Obj, k: nat, v: Ref, page: nat)
    requires Inv(s) && Enabled(s, Store(o, k, v, page))
    ensures Inv(Apply(s, Store(o, k, v, page)))
  {
    WriteKeeps(s, Apply(s, Store(o, k, v, page)), InHeap(o), k, v);
    StoreGrey(s, o, k, v, page);
  }

  lemma RootStoreKeeps(s: State, r: nat, k: nat, v: Ref)
    requires Inv(s) && Enabled(s, RootStore(r, k, v))
    ensures Inv(Apply(s, RootStore(r, k, v)))
  {
    WriteKeeps(s, Apply(s, RootStore(r, k, v)), InRoot(r), k, v);
    RootStoreGrey(s, r, k, v);
  }

  lemma RootStoreGrey(s: State, r: nat, k: nat, v: Ref)
    requires GreyInvariant(s) && Enabled(s, RootStore(r, k, v))
    ensures GreyInvariant(Apply(s, RootStore(r, k, v)))
  {
    var t := Apply(s, RootStore(r, k, v));
    forall l, j: nat | White(t, l, j) ensures Justified(t, l, j) {
      if l != InRoot(r) || j != k {
        assert White(s, l, j) && Justified(s, l, j);
      }
    }
  }

  lemma AddRootHeapOk(h: Heap, r: nat, n: nat)
    requires HeapWellFormed(h)
    ensures HeapWellFormed(h.(mem := h.mem[InRoot(r) := Blank(n)]))
  {
  }

  lemma AddRootKeeps(s: State, r: nat, n: nat)
    requires Inv(s) && Enabled(s, AddRoot(r, n))
    ensures Inv(Apply(s, AddRoot(r, n)))
  {
    AddRootHeapOk(s.heap, r, n);
    StackOkAcrossHeaps(s, Apply(s, AddRoot(r, n)));
    AddRootGrey(s, r, n);
  }

  lemma AddRootGrey(s: State, r: nat, n: nat)
    requires GreyInvariant(s) && Enabled(s, AddRoot(r, n))
    ensures GreyInvariant(Apply(s, AddRoot(r, n)))
  {
    var t := Apply(s, AddRoot(r, n));
    forall l, j: nat | White(t, l, j) ensures Justified(t, l, j) {
      assert White(s, l, j) && Justified(s, l, j);
    }
  }

  lemma AllocHomesOk(h: Heap, a: nat, b: Block, words: nat)
    requires HeapWellFormed(h) && PagesFree(h.blocks, a, b) && 0 < b.pages
    requires forall o :: o in b.objs ==> o !in h.home
    ensures var t := AllocHeap(h, a, b, words);
      && (forall c :: c in h.blocks ==> c != a)
      && (forall o :: o in h.home ==>
           o in t.home && t.home[o] == h.home[o] && t.blocks[h.home[o]] == h.blocks[h.home[o]])
      && (forall l :: l in h.mem ==> l in t.mem && t.mem[l] == h.mem[l])
      && (forall l, k :: l in t.mem && 0 <= k < |t.mem[l]| && t.mem[l][k].To? ==> l in h.mem)
  {
    forall c | c in h.blocks ensures c != a {
      assert c + h.blocks[c].pages <= a || a + b.pages <= c;
    }
  }

  lemma AllocContentsOk(h: Heap, a: nat, b: Block, words: nat)
    requires HeapWellFormed(h) && PagesFree(h.blocks, a, b) && 0 < b.pages
    requires forall o :: o in b.objs ==> o !in h.home
    ensures ContentsOk(AllocHeap(h, a, b, words))
  {
    AllocHomesOk(h, a, b, words);
  }

  lemma AllocLayoutOk(blocks: map<nat, Block>, a: nat, b: Block)
    requires LayoutOk(blocks) && 0 < b.pages && |b.objs| <= MAX_BLOCK_OBJS && PagesFree(blocks, a, b)
    ensures a !in blocks && LayoutOk(blocks[a := b])
  {
    if a in blocks {
      assert false;
    }
  }

  lemma AllocObjsHome(h: Heap, a: nat, b: Block, words: nat)
    requires HomesOk(h) && a !in h.blocks && forall o :: o in b.objs ==> o !in h.home
    ensures var t := AllocHeap(h, a, b, words);
      forall c, o :: c in t.blocks && o in t.blocks[c].objs ==> o in t.home && t.home[o] == c
  {
    var t := AllocHeap(h, a, b, words);
    forall c, o | c in t.blocks && o in t.blocks[c].objs ensures o in t.home && t.home[o] == c {
      if c != a { assert h.home[o] == c; }
    }
  }

  lemma AllocHomes(h: Heap, a: nat, b: Block, words: nat)
    requires HomesOk(h) && a !in h.blocks && forall o :: o in b.objs ==> o !in h.home
    ensures HomesOk(AllocHeap(h, a, b, words))
  {
    var t := AllocHeap(h, a, b, words);
    AllocObjsHome(h, a, b, words);
    forall o | o in t.home ensures t.home[o] in t.blocks && o in t.blocks[t.home[o]].objs {
      if o in h.home { assert o in h.blocks[h.home[o]].objs; }
    }
  }

  /** What was there is as it was, and what is new holds no pointers. */
  ghost predicate Extends(h: Heap, t: Heap) {
    && (forall p :: p in h.home ==> p in t.home && t.home[p] == h.home[p] && h.home[p] in t.blocks)
    && (forall b :: b in h.blocks ==>
         b in t.blocks && t.blocks[b].kind == h.blocks[b].kind && t.blocks[b].pages == h.blocks[b].pages)
    && (forall l :: l in h.mem ==> l in t.mem && t.mem[l] == h.mem[l])
    && (forall l, k :: l in t.mem && 0 <= k < |t.mem[l]| && t.mem[l][k].To? ==> l in h.mem)
  }

  lemma AllocExtends(h: Heap, a: nat, b: Block, words: nat)
    requires HeapWellFormed(h) && PagesFree(h.blocks, a, b) && 0 < b.pages
    requires forall o :: o in b.objs ==> o !in h.home
    ensures Extends(h, AllocHeap(h, a, b, words))
  {
    AllocHomesOk(h, a, b, words);
  }

  /** Allocation does not touch what is known of a word that was there before. */
  lemma JustifiedAcrossHeaps(s: State, t: State, l: Loc, k: nat)
    requires l in s.heap.mem && k < |s.heap.mem[l]| && l in t.heap.mem && t.heap.mem[l] == s.heap.mem[l]
    requires Justified(s, l, k) && t == s.(heap := t.heap)
    requires l.InHeap? && l.obj in s.heap.home && s.heap.home[l.obj] in s.heap.blocks ==>
      && l.obj in t.heap.home && t.heap.home[l.obj] == s.heap.home[l.obj] && t.heap.home[l.obj] in t.heap.blocks
      && var b, c := s.heap.blocks[s.heap.home[l.obj]], t.heap.blocks[s.heap.home[l.obj]];
         b.kind == c.kind && b.pages == c.pages
    ensures Justified(t, l, k)
  {
  }

  lemma AllocHeapOk(h: Heap, a: nat, b: Block, words: nat)
    requires HeapWellFormed(h)
    requires 0 < b.pages && |b.objs| <= MAX_BLOCK_OBJS && PagesFree(h.blocks, a, b)
    requires forall o :: o in b.objs ==> o !in h.home
    ensures HeapWellFormed(AllocHeap(h, a, b, words))
  {
    AllocLayoutOk(h.blocks, a, b);
    AllocHomes(h, a, b, words);
    AllocContentsOk(h, a, b, words);
  }

  lemma AllocGrey(s: State, a: nat, b: Block, words: nat)
    requires HeapWellFormed(s.heap) && GreyInvariant(s) && Enabled(s, AllocBlock(a, b, words)) &&
      s.marked <= s.heap.home.Keys
    ensures GreyInvariant(Apply(s, AllocBlock(a, b, words)))
  {
    AllocExtends(s.heap, a, b, words);
    GreyAcrossHeaps(s, Apply(s, AllocBlock(a, b, words)));
  }

  lemma AllocBlockKeeps(s: State, a: nat, b: Block, words: nat)
    requires Inv(s) && Enabled(s, AllocBlock(a, b, words))
    ensures Inv(Apply(s, AllocBlock(a, b, words)))
  {
    AllocHomesOk(s.heap, a, b, words);
    AllocHeapOk(s.heap, a, b, words);
    FrameAcrossHeaps(s, Apply(s, AllocBlock(a, b, words)));
    AllocGrey(s, a, b, words);
  }

  lemma AllocInHomesOk(h: Heap, a: nat, o: Obj, words: nat)
    requires HomesOk(h) && a in h.blocks && o !in h.home
    ensures HomesOk(AllocIn(h, a, o, words))
  {
    var u := AllocIn(h, a, o, words);
    assert forall b, p :: b in u.blocks && p in u.blocks[b].objs ==>
      (b in h.blocks && p in h.blocks[b].objs) || (b == a && p == o);
  }

  lemma AllocInContentsOk(h: Heap, a: nat, o: Obj, words: nat)
    requires HeapWellFormed(h) && a in h.blocks && o !in h.home
    ensures ContentsOk(AllocIn(h, a, o, words))
  {
    var u := AllocIn(h, a, o, words);
    assert forall b :: b in h.blocks ==> b in u.blocks && u.blocks[b].kind == h.blocks[b].kind;
  }

  lemma AllocInLayoutOk(blocks: map<nat, Block>, a: nat, o: Obj)
    requires LayoutOk(blocks) && a in blocks && |blocks[a].objs| < MAX_BLOCK_OBJS
    ensures LayoutOk(blocks[a := blocks[a].(objs := blocks[a].objs + [o])])
  {
  }

  /** The heap stays well formed, and every object that was there is in a block of the same kind. */
  lemma AllocInHeapOk(h: Heap, a: nat, o: Obj, words: nat)
    requires HeapWellFormed(h) && a in h.blocks && o !in h.home && |h.blocks[a].objs| < MAX_BLOCK_OBJS
    ensures HeapWellFormed(AllocIn(h, a, o, words))
    ensures forall p :: InUncollectable(h, p) ==> InUncollectable(AllocIn(h, a, o, words), p)
  {
    AllocInLayoutOk(h.blocks, a, o);
    AllocInHomesOk(h, a, o, words);
    AllocInContentsOk(h, a, o, words);
    AllocInKinds(h, a, o, words);
  }

  lemma AllocInKinds(h: Heap, a: nat, o: Obj, words: nat)
    requires a in h.blocks && o !in h.home
    ensures forall p :: InUncollectable(h, p) ==> InUncollectable(AllocIn(h, a, o, words), p)
  {
  }

  lemma AllocObjectKeeps(s: State, a: nat, o: Obj, words: nat)
    requires Inv(s) && Enabled(s, AllocObject(a, o, words))
    ensures Inv(Apply(s, AllocObject(a, o, words)))
  {
    AllocInHeapOk(s.heap, a, o, words);
    FrameAcrossHeaps(s, Apply(s, AllocObject(a, o, words)));
    AllocObjectGrey(s, a, o, words);
  }

  lemma AllocInExtends(h: Heap, a: nat, o: Obj, words: nat)
    requires HeapWellFormed(h) && a in h.blocks && o !in h.home
    ensures Extends(h, AllocIn(h, a, o, words))
  {
  }

  lemma AllocObjectGrey(s: State, a: nat, o: Obj, words: nat)
    requires HeapWellFormed(s.heap) && GreyInvariant(s) && Enabled(s, AllocObject(a, o, words)) &&
      s.marked <= s.heap.home.Keys
    ensures GreyInvariant(Apply(s, AllocObject(a, o, words)))
  {
    AllocInExtends(s.heap, a, o, words);
    GreyAcrossHeaps(s, Apply(s, AllocObject(a, o, words)));
  }

  lemma GreyAcrossHeaps(s: State, t: State)
    requires HeapWellFormed(s.heap) && GreyInvariant(s) && t == s.(heap := t.heap) && Extends(s.heap, t.heap)
    ensures GreyInvariant(t)
  {
    forall l, j: nat | White(t, l, j) ensures Justified(t, l, j) {
      assert White(s, l, j);
      JustifiedAcrossHeaps(s, t, l, j);
    }
  }

  lemma NewUncollectableGrey(s: State, o: Obj)
    requires GreyInvariant(s) && Enabled(s, NewUncollectable(o))
    ensures GreyInvariant(Apply(s, NewUncollectable(o)))
  {
    var t := Apply(s, NewUncollectable(o));
    forall l, j: nat | White(t, l, j) ensures Justified(t, l, j) {
      assert White(s, l, j) && Justified(s, l, j);
      assert s.heap.mem[l][j] in s.heap.mem[l];
    }
  }

  lemma NewUncollectableKeeps(s: State, o: Obj)
    requires Inv(s) && Enabled(s, NewUncollectable(o))
    ensures Inv(Apply(s, NewUncollectable(o)))
  {
    NewUncollectableGrey(s, o);
  }

  // --------------------------------------------------------------- whole runs

  lemma StepKeepsInv(s: State, step: Step)
    requires Inv(s) && Enabled(s, step)
    ensures Inv(Apply(s, step))
  {
    if IsMarkerStep(step) {
      MarkerStepKeeps(s, step);
    } else {
      OtherStepKeeps(s, step);
    }
  }

  lemma MarkerStepKeeps(s: State, step: Step)
    requires Inv(s) && Enabled(s, step) && IsMarkerStep(step)
    ensures Inv(Apply(s, step))
  {
    match step
    case TakeTop => TakeTopKeeps(s);
    case HoldLast => HoldLastKeeps(s);
    case ScanNext => ScanNextKeeps(s);
    case ScanHeld => ScanHeldKeeps(s);
    case ScanBlock(a) => ScanBlockKeeps(s, a);
    case ScanEnd => ScanEndKeeps(s);
    case Revalidate(grow) => RevalidateKeeps(s, grow);
    case GoUncollectable => GoUncollectableKeeps(s);
    case Finish(grow) => FinishKeeps(s, grow);
    case RootRange(r) => RootRangeKeeps(s, r);
    case RootEager(r) => RootEagerKeeps(s, r);
    case EndRoots => EndRootsKeeps(s);
    case NoteTooSmall => NoteTooSmallKeeps(s);
  }

  lemma OtherStepKeeps(s: State, step: Step)
    requires Inv(s) && Enabled(s, step) && !IsMarkerStep(step)
    ensures Inv(Apply(s, step))
  {
    if IsMutatorStep(step) {
      MutatorKeeps(s, step);
    } else {
      DriverKeeps(s, step);
    }
  }

  predicate IsMutatorStep(step: Step) {
    step.Store? || step.RootStore? || step.AddRoot? || step.AllocBlock? || step.AllocObject? || step.NewUncollectable?
  }

  lemma MutatorKeeps(s: State, step: Step)
    requires Inv(s) && Enabled(s, step) && IsMutatorStep(step)
    ensures Inv(Apply(s, step))
  {
    match step
    case Store(o, k, v, page) => StoreKeeps(s, o, k, v, page);
    case RootStore(r, k, v) => RootStoreKeeps(s, r, k, v);
    case AddRoot(r, n) => AddRootKeeps(s, r, n);
    case AllocBlock(a, b, words) => AllocBlockKeeps(s, a, b, words);
    case AllocObject(a, o, words) => AllocObjectKeeps(s, a, o, words);
    case NewUncollectable(o) => NewUncollectableKeeps(s, o);
  }

  ghost predicate LeadsKey(k: nat, s: State, step: Step, t: State) {
    true
  }

  /** `step` can be taken in `s` and leads to `t`.  Folded: the definition is available where the key is mentioned. */
  ghost predicate Leads(s: State, step: Step, t: State) {
    forall k: nat {:trigger LeadsKey(k, s, step, t)} :: LeadsKey(k, s, step, t) ==>
      Enabled(s, step) && t == Apply(s, step)
  }

  lemma LeadsFacts(s: State, step: Step, t: State)
    requires Leads(s, step, t)
    ensures Enabled(s, step) && t == Apply(s, step)
  {
    assert LeadsKey(0, s, step, t);
  }

  /** `steps`, taken one after the other, lead from `s` to `t`. */
  ghost predicate Runs(s: State, steps: seq<Step>, t: State)
    decreases |steps|
  {
    if steps == [] then s == t
    else exists m :: Leads(s, steps[0], m) && Runs(m, steps[1..], t)
  }

  lemma {:induction false} RunKeepsInv(s: State, steps: seq<Step>, t: State)
    requires Inv(s) && Runs(s, steps, t)
    ensures Inv(t)
    decreases |steps|
  {
    if steps != [] {
      var m :| Leads(s, steps[0], m) && Runs(m, steps[1..], t);
      LeadsFacts(s, steps[0], m);
      StepKeepsInv(s, steps[0]);
      RunKeepsInv(m, steps[1..], t);
    }
  }

  /** Nothing marked, no collection under way, the mutator running. */
  ghost predicate Initial(s: State) {
    && HeapWellFormed(s.heap)
    && s.marked == {} && s.stack == [] && INITIAL_MARK_STACK_SIZE <= s.size
    && s.cursor == Idle && s.phase == None && s.scan == 0 && !s.objectsMarked && !s.pushing
    && s.dirty == {} && !s.stopped
  }

  /** The marks are complete: they hold everything the roots point to and are closed under pointers. */
  lemma FinishedMarksAreClosed(s: State)
    requires Inv(s) && s.stopped && s.phase == None
    ensures MarksComplete(s.heap.mem, s.marked)
  {
    forall l, k: nat | White(s, l, k) ensures l.InHeap? && l.obj !in s.marked {
      assert Justified(s, l, k);
    }
    forall l, p | PointsTo(s.heap.mem, l, p) && (l.InRoot? || l.obj in s.marked) ensures p in s.marked {
      var k :| 0 <= k < |s.heap.mem[l]| && s.heap.mem[l][k] == To(p);
      assert !White(s, l, k);
    }
  }

  /**
   Incremental marking is safe.  Whatever the interleaving of marking steps with pointer
   stores, allocations, root changes, overflows and abandoned attempts to finish with the
   world stopped: when a stopped mark completes, every reachable object is marked.
   */
  lemma MarkingIsSafe(start: State, steps: seq<Step>, s: State)
    requires Initial(start) && Runs(start, steps, s)
    requires Enabled(s, FinishStop)
    ensures MarksComplete(s.heap.mem, s.marked)
    ensures forall o :: Reachable(s.heap.mem, o) ==> o in s.marked
  {
    RunKeepsInv(start, steps, s);
    FinishedMarksAreClosed(s);
    ClosedSetHoldsReachable(s.heap.mem, s.marked);
  }

  lemma {:induction false} RunsAppend(s: State, first: seq<Step>, t: State, second: seq<Step>, u: State)
    requires Runs(s, first, t) && Runs(t, second, u)
    ensures Runs(s, first + second, u)
    decreases |first|
  {
    if first == [] {
      assert first + second == second;
    } else {
      var m :| Leads(s, first[0], m) && Runs(m, first[1..], t);
      RunsAppend(m, first[1..], t, second, u);
      assert (first + second)[1..] == first[1..] + second;
    }
  }

  lemma SingleStepRuns(s: State, step: Step)
    requires Enabled(s, step)
    ensures Runs(s, [step], Apply(s, step))
  {
    var t := Apply(s, step);
    assert [step][1..] == [];
    assert Leads(s, step, t) && Runs(t, [], t);
  }

  ghost predicate SoundKey(k: nat, s: State) {
    true
  }

  /** `Inv`, kept folded: code that only passes the invariant along need not look inside. */
  ghost predicate Sound(s: State) {
    forall k: nat {:trigger SoundKey(k, s)} :: SoundKey(k, s) ==> Inv(s)
  }

  lemma SoundStep(s: State, step: Step)
    requires Sound(s) && Enabled(s, step)
    ensures Sound(Apply(s, step))
  {
    assert SoundKey(0, s);
    StepKeepsInv(s, step);
  }

  lemma SoundInv(s: State)
    requires Sound(s)
    ensures Inv(s)
  {
    assert SoundKey(0, s);
  }

  lemma SoundStack(s: State)
    requires Sound(s)
    ensures StackWellFormed(s) && s.marked <= s.heap.home.Keys
  {
    SoundInv(s);
  }

  lemma InitialSound(s: State)
    requires Initial(s)
    ensures Sound(s)
  {
    forall l, k: nat | White(s, l, k) ensures Justified(s, l, k) {
      assert l.InHeap? ==> l.obj !in s.marked;
    }
  }
}
