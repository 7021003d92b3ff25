/** The marker proper: the code that takes the steps of the state machine. */
module Marker {
  import opened Config
  import opened ObjectGraph
  import opened MarkModel
  import opened MarkSafety
  import opened MarkProgress
  import opened MarkExact
  import Division

  /** `Aborted` is the fatal error for a root range that finds no room on the mark stack. */
  datatype Outcome = More | Done | Aborted

  class Collector {
    const incremental: bool
    /** Root areas that are scanned on the spot instead of being pushed as a range. */
    const eager: set<nat>
    var heap: Heap
    var marked: set<Obj>
    var stack: seq<Entry>
    var size: nat
    var tooSmall: bool
    var cursor: Cursor
    var phase: Phase
    var scan: nat
    var objectsMarked: bool
    var pushing: bool
    var rootsTodo: set<nat>
    var dirty: set<nat>
    var grungy: set<nat>
    var stopped: bool

    ghost function Snap(): State
      reads this
    {
      State(incremental, heap, marked, stack, size, tooSmall, cursor, phase, scan, objectsMarked, pushing, rootsTodo,
            dirty, grungy, stopped)
    }

    /** A marking step can be taken: the invariant holds and the marker may run. */
    ghost predicate Ready()
      reads this
    {
      Sound(Snap()) && MarkerRuns(Snap())
    }

    constructor (incremental: bool, eager: set<nat>, heap: Heap)
      requires HeapWellFormed(heap)
      ensures Initial(Snap()) && Resting()
      ensures this.incremental == incremental && this.eager == eager && this.heap == heap
    {
      this.incremental, this.eager, this.heap := incremental, eager, heap;
      marked, stack, size, tooSmall, cursor := {}, [], INITIAL_MARK_STACK_SIZE, false, Idle;
      phase, scan, objectsMarked, pushing, rootsTodo := Phase.None, 0, false, false, {};
      dirty, grungy, stopped := {}, {}, false;
      new;
      InitialSound(Snap());
    }

    // ------------------------------------------------------------ mark stack

    method PushEntry(e: Entry)
      modifies this
      ensures Snap() == MarkModel.PushEntry(old(Snap()), e)
      ensures |old(stack)| < size ==> stack == old(stack) + [e] && phase == old(phase) && tooSmall == old(tooSmall)
      ensures |old(stack)| >= size ==> phase == Invalid && tooSmall && stack != [] && stack[|stack| - 1] == e
      ensures |old(stack)| >= size ==> stack[..|stack| - 1] <= old(stack)
      ensures |old(stack)| >= size ==>
        |stack| == if |old(stack)| < MARK_STACK_DISCARDS then 1 else |old(stack)| - MARK_STACK_DISCARDS + 1
    {
      if |stack| < size {
        stack := stack + [e];
      } else {
        var kept := if |stack| < MARK_STACK_DISCARDS then 0 else |stack| - MARK_STACK_DISCARDS;
        phase, tooSmall := Invalid, true;
        stack := stack[..kept] + [e];
      }
    }

    method MarkAndPush(r: Ref)
      modifies this
      ensures Snap() == MarkModel.MarkAndPush(old(Snap()), r)
    {
      if r.To? && r.obj !in marked {
        marked := marked + {r.obj};
        if InHeap(r.obj) in heap.mem && heap.mem[InHeap(r.obj)] != [] {
          PushEntry(Entry(InHeap(r.obj), 0, |heap.mem[InHeap(r.obj)]|));
        }
      }
    }

    // ---------------------------------------------------------- GC_mark_from

    method TakeTop()
      requires Ready() && Enabled(Snap(), Step.TakeTop)
      modifies this
      ensures Snap() == TakeTopEntry(old(Snap())) && Ready()
    {
      SoundStep(Snap(), Step.TakeTop);
      var n := |stack| - 1;
      var e := stack[n];
      objectsMarked := true;
      if e.hi >= e.lo + SPLIT_RANGE_WORDS {
        var cut := e.lo + SPLIT_RANGE_WORDS - 1;
        stack := stack[..n] + [e.(lo := cut)];
        cursor := Scanning(e.loc, e.lo, cut, Null);
      } else {
        stack := stack[..n];
        cursor := Scanning(e.loc, e.lo, e.hi, Null);
      }
    }

    /** Read the last word of the range ahead of its turn. */
    method HoldLast()
      requires Ready() && Enabled(Snap(), Step.HoldLast)
      modifies this
      ensures Snap() == Apply(old(Snap()), Step.HoldLast) && Ready()
    {
      SoundStack(Snap());
      SoundStep(Snap(), Step.HoldLast);
      cursor := cursor.(hi := cursor.hi - 1, held := heap.mem[cursor.loc][cursor.hi - 1]);
    }

    method ScanNext()
      requires Ready() && Enabled(Snap(), Step.ScanNext)
      modifies this
      ensures Snap() == Apply(old(Snap()), Step.ScanNext) && Ready()
    {
      SoundStack(Snap());
      SoundStep(Snap(), Step.ScanNext);
      var word := heap.mem[cursor.loc][cursor.lo];
      cursor := cursor.(lo := cursor.lo + 1);
      MarkAndPush(word);
    }

    method ScanHeld()
      requires Ready() && Enabled(Snap(), Step.ScanHeld)
      modifies this
      ensures Snap() == Apply(old(Snap()), Step.ScanHeld) && Ready()
    {
      SoundStep(Snap(), Step.ScanHeld);
      var word := cursor.held;
      cursor := Idle;
      MarkAndPush(word);
    }

    /** Look for a pointer from the far end of the range, and keep it for later. */
    method HoldBack()
      requires Ready() && cursor.Scanning? && cursor.held.Null?
      modifies this
      ensures Ready() && cursor.Scanning? && MarkerRun(old(Snap()), Snap())
      ensures Snap() == old(Snap()).(cursor := cursor)
    {
      ghost var start := Snap();
      MarkerRunEmpty(start);
      while cursor.held.Null? && cursor.lo < cursor.hi
        invariant Ready() && cursor.Scanning? && MarkerRun(start, Snap())
        invariant Snap() == start.(cursor := cursor)
        decreases cursor.hi - cursor.lo
      {
        MarkerRunStep(start, Snap(), Step.HoldLast);
        HoldLast();
      }
    }

    /** `ScanNext` as a step of a run. */
    method ScanOneWord()
      requires Ready() && cursor.Scanning? && cursor.lo < cursor.hi
      modifies this
      ensures Ready() && MarkerRun(old(Snap()), Snap()) && ScanFrame(old(Snap()), Snap())
      ensures cursor == old(cursor).(lo := old(cursor).lo + 1)
      ensures marked == old(marked) ==> Snap() == old(Snap()).(cursor := cursor)
    {
      MarkerRunEmpty(Snap());
      MarkerRunStep(Snap(), Snap(), Step.ScanNext);
      ScanNextFrame(Snap());
      ScanNext();
    }

    method ScanForward()
      requires Ready() && cursor.Scanning?
      modifies this
      ensures Ready() && cursor.Scanning? && cursor.lo == cursor.hi && MarkerRun(old(Snap()), Snap())
      ensures ScanFrame(old(Snap()), Snap())
      ensures marked == old(marked) ==> Snap() == old(Snap()).(cursor := cursor)
    {
      ghost var start := Snap();
      SoundStack(start);
      MarkerRunEmpty(start);
      while cursor.lo < cursor.hi
        invariant Ready() && cursor.Scanning? && cursor.lo <= cursor.hi && MarkerRun(start, Snap())
        invariant ScanFrame(start, Snap())
        invariant marked == start.marked ==> Snap() == start.(cursor := cursor)
        decreases cursor.hi - cursor.lo
      {
        ghost var before := Snap();
        ScanOneWord();
        MarkerRunTrans(start, before, Snap());
      }
    }

    /** Scan the range in the cursor: backwards up to a pointer, then forwards, then the pointer held back. */
    method ScanRange()
      requires Ready() && cursor.Scanning? && cursor.held.Null?
      modifies this
      ensures Ready() && cursor.Idle? && MarkerRun(old(Snap()), Snap()) && ScanFrame(old(Snap()), Snap())
      ensures marked == old(marked) ==> Snap() == old(Snap()).(cursor := Idle)
    {
      ghost var start := Snap();
      HoldBack();
      ghost var mid := Snap();
      ScanForward();
      MarkerRunTrans(start, mid, Snap());
      MarkerRunStep(start, Snap(), Step.ScanHeld);
      ScanHeldFrame(Snap());
      ScanHeld();
    }

    /** Take one range off the stack, or the head of a long one, and scan it. */
    method MarkOne() returns (words: nat)
      requires Ready() && cursor.Idle? && !pushing && phase != Phase.None && stack != []
      modifies this
      ensures Ready() && cursor.Idle? && MarkerRun(old(Snap()), Snap()) && words > 0
      ensures ScanFrame(old(Snap()).(objectsMarked := true), Snap())
      ensures marked == old(marked) ==>
        && Snap() == old(Snap()).(stack := stack, objectsMarked := true)
        && StackWork(stack) < StackWork(old(stack))
    {
      ghost var start := Snap();
      MarkerRunEmpty(start);
      MarkerRunStep(start, start, Step.TakeTop);
      TakeTopWork(start);
      TakeTop();
      words := cursor.hi - cursor.lo;
      ghost var mid := Snap();
      ScanRange();
      MarkerRunTrans(start, mid, Snap());
    }

    /** Mark from the stack until about a page of memory has been looked at. */
    method MarkFrom()
      requires Ready() && cursor.Idle? && !pushing && phase != Phase.None && stack != []
      modifies this
      ensures Ready() && cursor.Idle? && MarkerRun(old(Snap()), Snap())
      ensures ScanFrame(old(Snap()).(objectsMarked := true), Snap())
      ensures Closer(Snap(), old(Snap()))
    {
      ghost var start := Snap();
      var words := MarkOne();
      var credit: int := HBLKSIZE - words * WORD_BYTES;
      while stack != [] && credit >= 0
        invariant Ready() && cursor.Idle? && MarkerRun(start, Snap()) && Drained(start, Snap())
        decreases if credit >= 0 then credit + 1 else 0
      {
        ghost var before := Snap();
        words := MarkOne();
        credit := credit - words * WORD_BYTES;
        MarkerRunTrans(start, before, Snap());
        DrainedFurther(start, before, Snap());
      }
      DrainedIsCloser(start, Snap());
    }

    // ------------------------------------------------------- heap block scan

    /** The used block with the lowest address not below `h`, if any. */
    method NextUsedBlock(h: nat) returns (found: bool, a: nat)
      ensures found ==> a in heap.blocks && h <= a && forall c :: c in heap.blocks && h <= c ==> a <= c
      ensures !found ==> forall c :: c in heap.blocks ==> c < h
    {
      found, a := false, 0;
      var rest := heap.blocks.Keys;
      while rest != {}
        invariant rest <= heap.blocks.Keys
        invariant found ==> a in heap.blocks && h <= a
        invariant forall c :: c in heap.blocks && c !in rest && h <= c ==> found && a <= c
        decreases rest
      {
        var c :| c in rest;
        rest := rest - {c};
        if h <= c && (!found || c < a) {
          found, a := true, c;
        }
      }
    }

    /** Is any page of the block grungy? */
    method BlockDirty(a: nat, b: Block) returns (r: bool)
      ensures r == BlockWasDirty(a, b, grungy)
    {
      var page := a;
      while page < a + b.pages
        invariant a <= page <= a + b.pages
        invariant forall p :: a <= p < page ==> PageHash(p) !in grungy
      {
        if PageHash(page) in grungy {
          return true;
        }
        page := page + 1;
      }
      r := false;
    }

    /** Does the current phase push from block `a`? */
    method IsRelevant(a: nat) returns (r: bool)
      requires a in heap.blocks
      ensures r == Relevant(Snap(), a)
    {
      r := true;
      if phase == PushRescuers {
        r := BlockDirty(a, heap.blocks[a]);
      } else if phase == PushUncollectable {
        r := heap.blocks[a].kind == Uncollectable;
      }
    }

    /** The next block from which the current phase pushes. */
    method NextRelevant() returns (found: bool, a: nat)
      requires Sound(Snap())
      ensures found ==> a in heap.blocks && scan <= a && Relevant(Snap(), a) && NoneBefore(Snap(), a)
      ensures !found ==> NoneLeft(Snap())
    {
      found, a := NextUsedBlock(scan);
      while found
        invariant found ==> a in heap.blocks && scan <= a && NoneBefore(Snap(), a)
        invariant !found ==> NoneLeft(Snap())
        decreases found, BlocksFrom(heap.blocks, a)
      {
        var relevant := IsRelevant(a);
        if relevant {
          return;
        }
        ghost var skipped := a;
        found, a := NextUsedBlock(a + heap.blocks[a].pages);
        BlockSkipped(Snap(), skipped, found, a);
      }
    }

    method PushObject(o: Obj) returns (isMarked: bool)
      modifies this
      ensures Snap() == PushIfMarked(old(Snap()), o) && (isMarked <==> o in old(marked))
    {
      isMarked := o in marked;
      if isMarked && InHeap(o) in heap.mem && heap.mem[InHeap(o)] != [] {
        PushEntry(Entry(InHeap(o), 0, |heap.mem[InHeap(o)]|));
      }
    }

    /** Push the marked objects among `objs`, and say whether there are any. */
    method PushObjects(objs: seq<Obj>) returns (some: bool)
      modifies this
      ensures Snap() == PushMarked(old(Snap()), objs)
      ensures some <==> AnyMarked(objs, old(marked))
    {
      ghost var start := Snap();
      some := false;
      var i := 0;
      while i < |objs|
        invariant i <= |objs| && marked == start.marked
        invariant PushMarked(start, objs) == PushMarked(Snap(), objs[i..])
        invariant some <==> AnyMarked(objs[..i], start.marked)
      {
        PushMarkedStep(Snap(), objs, i);
        var isMarked := PushObject(objs[i]);
        some := some || isMarked;
        i := i + 1;
      }
      assert objs[..i] == objs;
    }

    /** Push the marked objects of block `a`. */
    method PushMarkedOf(a: nat)
      requires Ready() && Enabled(Snap(), ScanBlock(a))
      modifies this
      ensures Snap() == Apply(old(Snap()), ScanBlock(a)) && Ready()
    {
      SoundStep(Snap(), ScanBlock(a));
      var b := heap.blocks[a];
      PushMarkedFrame(Snap(), b.objs);
      var some := PushObjects(b.objs);
      scan := a + b.pages;
      objectsMarked := objectsMarked || (some && !IsPointerFree(b.kind));
    }

    /** The scan has run past the last block; the roots are next, unless the whole scan has to be repeated. */
    method EndScan()
      requires Ready() && Enabled(Snap(), ScanEnd)
      modifies this
      ensures Snap() == Apply(old(Snap()), ScanEnd) && Ready()
    {
      SoundStep(Snap(), ScanEnd);
      scan := 0;
      if phase != Invalid {
        pushing := true;
        rootsTodo := set l | l in heap.mem && l.InRoot? :: l.area;
      }
    }

    /** Push the next block of the current phase, or find that there is none left. */
    method PushNext() returns (ended: bool)
      requires Ready() && ScanAllowed(Snap()) && |stack| + MAX_BLOCK_OBJS <= size
      modifies this
      ensures Ready() && MarkerRun(old(Snap()), Snap())
      ensures ended <==> NoneLeft(old(Snap()))
      ensures ended ==> Enabled(old(Snap()), ScanEnd) && Snap() == Apply(old(Snap()), ScanEnd)
      ensures !ended ==> ScannedBlock(old(Snap()), Snap())
    {
      ghost var start := Snap();
      MarkerRunEmpty(start);
      var found, a := NextRelevant();
      ended := !found;
      if found {
        MarkerRunStep(start, start, ScanBlock(a));
        ScanBlockProgress(start, a);
        PushMarkedOf(a);
      } else {
        MarkerRunStep(start, start, ScanEnd);
        EndScan();
      }
    }

    // ---------------------------------------------------------- GC_push_roots

    /** Push the range of a root area; fails if it finds no room on the stack. */
    method PushRootRange(r: nat) returns (ok: bool)
      requires Ready() && pushing && cursor.Idle? && r in rootsTodo && InRoot(r) in heap.mem
      modifies this
      ensures Ready() && (ok <==> Enabled(old(Snap()), RootRange(r)))
      ensures Snap() == if ok then Apply(old(Snap()), RootRange(r)) else old(Snap())
    {
      ok := heap.mem[InRoot(r)] == [] || |stack| < size;
      if ok {
        SoundStep(Snap(), RootRange(r));
        rootsTodo := rootsTodo - {r};
        if heap.mem[InRoot(r)] != [] {
          PushEntry(Entry(InRoot(r), 0, |heap.mem[InRoot(r)]|));
        }
      }
    }

    /** Mark from the area on the spot. */
    method PushRootEagerly(r: nat)
      requires Ready() && Enabled(Snap(), RootEager(r))
      modifies this
      ensures Ready() && cursor.Idle? && MarkerRun(old(Snap()), Snap())
      ensures ScanFrame(old(Snap()).(rootsTodo := old(rootsTodo) - {r}), Snap())
      ensures marked == old(marked) ==> phase == old(phase)
    {
      ghost var start := Snap();
      MarkerRunEmpty(start);
      MarkerRunStep(start, start, RootEager(r));
      SoundStep(start, RootEager(r));
      rootsTodo := rootsTodo - {r};
      cursor := Scanning(InRoot(r), 0, |heap.mem[InRoot(r)]|, Null);
      ghost var mid := Snap();
      ScanRange();
      MarkerRunTrans(start, mid, Snap());
    }

    method EndPushRoots()
      requires Ready() && Enabled(Snap(), EndRoots)
      modifies this
      ensures Snap() == Apply(old(Snap()), EndRoots) && Ready()
    {
      SoundStep(Snap(), EndRoots);
      pushing, objectsMarked := false, true;
      if phase != Invalid {
        phase := RootsPushed;
      }
    }

    method PushNextRange(r: nat, ghost start: State) returns (ok: bool)
      requires Ready() && pushing && cursor.Idle? && r in rootsTodo - eager && InRoot(r) in heap.mem
      requires MarkerRun(start, Snap()) && RangesFrame(start, Snap(), eager)
      modifies this
      ensures Ready() && MarkerRun(start, Snap()) && RangesFrame(start, Snap(), eager)
      ensures ok ==> rootsTodo == old(rootsTodo) - {r}
      ensures !ok ==> Snap() == old(Snap()) && |start.stack| + |Ranges(heap.mem, start.rootsTodo, eager)| > size
    {
      ghost var before := Snap();
      RangePushed(before, r, eager);
      ok := PushRootRange(r);
      if ok {
        MarkerRunStep(start, before, RootRange(r));
        SoundStack(Snap());
        RangesFurther(start, before, Snap(), r, eager);
      }
    }

    /** Push the static ranges.  This succeeds exactly if the stack has room for all of them. */
    method PushRanges() returns (ok: bool)
      requires Ready() && pushing && cursor.Idle?
      requires forall r :: r in rootsTodo ==> InRoot(r) in heap.mem
      modifies this
      ensures Ready() && MarkerRun(old(Snap()), Snap()) && RangesFrame(old(Snap()), Snap(), eager)
      ensures ok <==> |old(stack)| + |Ranges(heap.mem, old(rootsTodo), eager)| <= size
      ensures ok ==> rootsTodo == old(rootsTodo) * eager
    {
      ghost var start := Snap();
      MarkerRunEmpty(start);
      SoundStack(start);
      while rootsTodo - eager != {}
        invariant Ready() && MarkerRun(start, Snap()) && RangesFrame(start, Snap(), eager)
        decreases rootsTodo
      {
        var r :| r in rootsTodo - eager;
        ok := PushNextRange(r, start);
        if !ok {
          return;
        }
      }
      NoRangesLeft(Snap(), eager);
      ok := true;
    }

    /** Mark from the stacks, which are left until the end because they may overflow the mark stack. */
    method PushEagerAreas()
      requires Ready() && pushing && cursor.Idle?
      requires forall r :: r in rootsTodo ==> InRoot(r) in heap.mem
      modifies this
      ensures Ready() && cursor.Idle? && pushing && MarkerRun(old(Snap()), Snap())
      ensures RootFrame(old(Snap()), Snap()) && rootsTodo == {}
    {
      ghost var start := Snap();
      MarkerRunEmpty(start);
      while rootsTodo != {}
        invariant Ready() && MarkerRun(start, Snap()) && RootFrame(start, Snap())
        invariant pushing && cursor.Idle? && rootsTodo <= start.rootsTodo
        decreases rootsTodo
      {
        var r :| r in rootsTodo;
        ghost var before := Snap();
        PushRootEagerly(r);
        MarkerRunTrans(start, before, Snap());
      }
    }

    method PushRoots() returns (ok: bool)
      requires Ready() && pushing && cursor.Idle? && phase != Invalid
      requires forall r :: r in rootsTodo ==> InRoot(r) in heap.mem
      modifies this
      ensures Ready() && MarkerRun(old(Snap()), Snap())
      ensures ok <==> |old(stack)| + |Ranges(old(heap).mem, old(rootsTodo), eager)| <= old(size)
      ensures ok ==> RootsDone(old(Snap()), Snap())
    {
      ghost var start := Snap();
      ok := PushRanges();
      if ok {
        ghost var mid := Snap();
        PushEagerAreas();
        MarkerRunTrans(start, mid, Snap());
        MarkerRunStep(start, Snap(), EndRoots);
        EndPushRoots();
      }
    }

    // ----------------------------------------------------------- GC_mark_some

    /** Push one more block; after the last one, push the roots. */
    method ScanSome() returns (r: Outcome)
      requires Ready() && ScanAllowed(Snap()) && |stack| + MAX_BLOCK_OBJS <= size
      modifies this
      ensures Ready() && MarkerRun(old(Snap()), Snap()) && r != Done
      ensures r == More ==> Advanced(old(Snap()), Snap())
      ensures r == Aborted <==> NoneLeft(old(Snap())) && RootsOverflow(old(Snap()), eager)
    {
      ghost var start := Snap();
      var ended := PushNext();
      r := More;
      if ended {
        if phase != Invalid {
          ghost var mid := Snap();
          var ok := PushRoots();
          MarkerRunTrans(start, mid, Snap());
          if ok {
            RootsDoneIsProgress(start, mid, Snap());
          } else {
            r := Aborted;
          }
        } else {
          RestartIsProgress(start);
        }
      }
    }

    /** Mark from the stack for a while. */
    method DrainSome()
      requires Ready() && cursor.Idle? && !pushing && phase != Phase.None && stack != []
      modifies this
      ensures Ready() && MarkerRun(old(Snap()), Snap()) && Advanced(old(Snap()), Snap())
    {
      MarkFrom();
    }

    method SetTooSmall()
      requires Ready() && phase != Phase.None
      modifies this
      ensures Snap() == old(Snap()).(tooSmall := true) && Ready() && MarkerRun(old(Snap()), Snap())
    {
      MarkerRunEmpty(Snap());
      MarkerRunStep(Snap(), Snap(), NoteTooSmall);
      SoundStep(Snap(), NoteTooSmall);
      tooSmall := true;
    }

    method SomeRescuers() returns (r: Outcome)
      requires Ready() && phase == PushRescuers && cursor.Idle? && !pushing
      modifies this
      ensures Ready() && MarkerRun(old(Snap()), Snap()) && r != Done
      ensures r == More ==> Advanced(old(Snap()), Snap())
      ensures RootsFit(old(heap).mem, eager) ==> r != Aborted
    {
      SoundStack(Snap());
      if |stack| - 1 >= size - INITIAL_MARK_STACK_SIZE / 2 {
        ghost var start := Snap();
        SetTooSmall();
        ghost var mid := Snap();
        DrainSome();
        MarkerRunTrans(start, mid, Snap());
        NotedIsProgress(start, mid, Snap());
        r := More;
      } else {
        RoomForRoots(Snap(), eager);
        r := ScanSome();
      }
    }

    method SomeUncollectable() returns (r: Outcome)
      requires Ready() && phase == PushUncollectable && cursor.Idle? && !pushing
      modifies this
      ensures Ready() && MarkerRun(old(Snap()), Snap()) && r != Done
      ensures r == More ==> Advanced(old(Snap()), Snap())
      ensures RootsFit(old(heap).mem, eager) ==> r != Aborted
    {
      SoundStack(Snap());
      if |stack| - 1 >= size / 4 {
        DrainSome();
        r := More;
      } else {
        RoomForRoots(Snap(), eager);
        r := ScanSome();
      }
    }

    /** A larger stack is asked for if the current one proved too small; the request may fail. */
    method GrowStack() returns (grown: bool)
      requires stack == []
      modifies this
      ensures grown ==> old(tooSmall)
      ensures Snap() == old(Snap()).(tooSmall := false, size := if grown then 2 * old(size) else old(size))
    {
      grown := *;
      grown := grown && tooSmall;
      if grown {
        size := 2 * size;
      }
      tooSmall := false;
    }

    method SomeRootsPushed() returns (r: Outcome)
      requires Ready() && phase == RootsPushed && cursor.Idle? && !pushing
      modifies this
      ensures Ready() && MarkerRun(old(Snap()), Snap()) && r != Aborted
      ensures r == More ==> Advanced(old(Snap()), Snap())
      ensures r == Done ==> phase == Phase.None && heap == old(heap) && stopped == old(stopped)
    {
      if stack != [] {
        DrainSome();
        r := More;
      } else {
        ghost var start := Snap();
        MarkerRunEmpty(start);
        var grown := GrowStack();
        MarkerRunStep(start, start, Finish(grown));
        SoundStep(start, Finish(grown));
        phase := Phase.None;
        r := Done;
      }
    }

    /** Start the scan of the whole heap anew. */
    method RestartScan()
      requires Ready() && phase == Invalid && objectsMarked && stack == [] && cursor.Idle? && !pushing && scan == 0
      modifies this
      ensures Ready() && MarkerRun(old(Snap()), Snap())
      ensures Snap() == old(Snap()).(phase := PartiallyInvalid, tooSmall := false, size := size)
    {
      ghost var start := Snap();
      MarkerRunEmpty(start);
      var grown := GrowStack();
      MarkerRunStep(start, start, Revalidate(grown));
      SoundStep(start, Revalidate(grown));
      phase := PartiallyInvalid;
    }

    method SomeInvalid() returns (r: Outcome)
      requires Ready() && (phase == Invalid || phase == PartiallyInvalid) && cursor.Idle? && !pushing
      modifies this
      ensures Ready() && MarkerRun(old(Snap()), Snap()) && r != Done
      ensures r == More ==> Advanced(old(Snap()), Snap())
      ensures RootsFit(old(heap).mem, eager) ==> r != Aborted
    {
      ghost var start := Snap();
      MarkerRunEmpty(start);
      r := More;
      if !objectsMarked {
        MarkerRunStep(start, start, GoUncollectable);
        SoundStep(start, GoUncollectable);
        phase := PushUncollectable;
      } else if stack != [] {
        DrainSome();
      } else {
        r := Rescan();
      }
    }

    /** Go on with the scan of the whole heap for marked objects. */
    method Rescan() returns (r: Outcome)
      requires Ready() && (phase == Invalid || phase == PartiallyInvalid) && cursor.Idle? && !pushing &&
        objectsMarked && stack == []
      modifies this
      ensures Ready() && MarkerRun(old(Snap()), Snap()) && r != Done
      ensures r == More ==> Advanced(old(Snap()), Snap())
      ensures RootsFit(old(heap).mem, eager) ==> r != Aborted
    {
      ghost var start := Snap();
      MarkerRunEmpty(start);
      if scan == 0 && phase == Invalid {
        RestartScan();
      }
      ghost var mid := Snap();
      SoundStack(mid);
      RoomForRoots(mid, eager);
      r := ScanSome();
      MarkerRunTrans(start, mid, Snap());
      if r == More {
        RescanIsProgress(start, mid, Snap());
      }
    }

    /**
     A small amount of marking.  `Done` means that a mark phase has just finished; otherwise
     the marker has come closer to the end.
     */
    method MarkSome() returns (r: Outcome)
      requires Ready() && cursor.Idle? && !pushing
      modifies this
      ensures Ready() && MarkerRun(old(Snap()), Snap())
      ensures r == More && old(phase) == Phase.None ==> Snap() == old(Snap())
      ensures r == More && old(phase) != Phase.None ==> Advanced(old(Snap()), Snap())
      ensures r == Done ==> phase == Phase.None && heap == old(heap) && stopped == old(stopped)
      ensures r == Done && stopped ==> MarksComplete(heap.mem, marked)
      ensures RootsFit(old(heap).mem, eager) ==> r != Aborted
    {
      match phase {
        case None =>
          MarkerRunEmpty(Snap());
          r := More;
        case PushRescuers => r := SomeRescuers();
        case PushUncollectable => r := SomeUncollectable();
        case RootsPushed => r := SomeRootsPushed();
        case Invalid => r := SomeInvalid();
        case PartiallyInvalid => r := SomeInvalid();
      }
      if r == Done && stopped {
        DoneIsClosed(Snap());
      }
    }

    // -------------------------------------------------------- GC_stopped_mark

    /** Copy the dirty bits to the grungy bits, unless they are not needed, and clear them. */
    method ReadDirty(outputUnneeded: bool)
      modifies this`dirty, this`grungy
      ensures Snap() == MarkModel.ReadDirty(old(Snap()), outputUnneeded)
      ensures dirty == {} && grungy == if outputUnneeded then old(grungy) else old(dirty)
    {
      if !outputUnneeded {
        grungy := dirty;
      }
      dirty := {};
    }

    /** Start a mark phase, partial or full.  In any other state it is a fatal error. */
    method InitiateGc() returns (ok: bool)
      modifies this
      ensures ok <==> old(phase) == Phase.None || old(phase) == Invalid
      ensures ok ==> Snap() == MarkModel.InitiateGc(old(Snap()))
      ensures ok ==> scan == 0 && phase == if old(phase) == Phase.None then PushRescuers else Invalid
      ensures ok && incremental && phase == PushRescuers ==> dirty == {} && grungy == old(dirty)
    {
      if incremental {
        ReadDirty(phase == Invalid);
      }
      if phase == Phase.None {
        phase := PushRescuers;
      } else if phase != Invalid {
        return false;
      }
      scan := 0;
      ok := true;
    }

    /** No collector code is in the middle of anything, and the mutator runs. */
    ghost predicate Resting()
      reads this
    {
      Sound(Snap()) && !stopped && cursor.Idle? && !pushing
    }

    /** Mark with the world stopped until done, or until `stop` gives up after the given number of calls. */
    method MarkUntil(stop: StopFunc) returns (r: Outcome, calls: nat)
      requires Ready() && stopped && cursor.Idle? && !pushing && phase != Phase.None
      modifies this
      ensures Ready() && stopped && heap == old(heap) && MarkerRun(old(Snap()), Snap())
      ensures r == More ==> stop == After(calls) && cursor.Idle? && !pushing && phase != Phase.None
      ensures stop == After(0) ==> r == More
      ensures r == Done ==> phase == Phase.None && MarksComplete(heap.mem, marked)
      ensures RootsFit(old(heap).mem, eager) ==> r != Aborted
    {
      ghost var start := Snap();
      MarkerRunEmpty(start);
      r, calls := More, 0;
      while r == More
        invariant Ready() && stopped && heap == old(heap) && MarkerRun(start, Snap())
        invariant r == More ==> cursor.Idle? && !pushing && phase != Phase.None
        invariant r == Done ==> phase == Phase.None && MarksComplete(heap.mem, marked)
        invariant RootsFit(heap.mem, eager) ==> r != Aborted
        invariant stop.After? ==> calls <= stop.polls
        invariant stop == After(0) ==> r == More
        decreases r == More, Unmarked(Snap()), Rank(Snap()), BlocksAhead(Snap()), StackWork(stack)
      {
        if stop.After? && calls >= stop.polls {
          return;
        }
        ghost var before := Snap();
        r := MarkSome();
        MarkerRunFrame(before, Snap());
        MarkerRunTrans(start, before, Snap());
        calls := calls + 1;
      }
    }

    method StopWorld()
      requires Resting() && (phase == Invalid || (phase == Phase.None && incremental))
      modifies this
      ensures Ready() && stopped && heap == old(heap) && cursor.Idle? && !pushing && phase != Phase.None
      ensures stack == old(stack) && marked == old(marked)
    {
      SoundStep(Snap(), StartStop);
      stopped := true;
      var ok := InitiateGc();
    }

    /** Let the mutator run again, marking complete or not. */
    method StartWorld()
      requires Sound(Snap()) && stopped && cursor.Idle? && !pushing
      modifies this`stopped
      ensures Resting()
    {
      SoundStep(Snap(), if phase == Phase.None then FinishStop else Abandon);
      stopped := false;
    }

    /** Stop the world and mark; a complete mark leaves every reachable object marked. */
    method StoppedMark(stop: StopFunc) returns (r: Outcome, calls: nat)
      requires Resting() && (phase == Invalid || (phase == Phase.None && incremental))
      modifies this
      ensures r != Aborted ==> Resting() && heap == old(heap)
      ensures r == Done ==> phase == Phase.None && MarksComplete(heap.mem, marked)
      ensures r == Done ==> forall o :: Reachable(heap.mem, o) ==> o in marked
      ensures r == Done && old(stack) == [] ==> forall o :: o in marked <==> Live(heap.mem, old(marked), o)
      ensures r == More ==> stop == After(calls) && phase != Phase.None
      ensures stop == After(0) ==> r == More
      ensures RootsFit(old(heap).mem, eager) ==> r != Aborted
    {
      StopWorld();
      ghost var start := Snap();
      r, calls := MarkUntil(stop);
      if r == Done {
        IdleWhenDone(Snap());
        ClosedSetHoldsReachable(heap.mem, marked);
        if start.stack == [] {
          MarksExactly(start, Snap());
        }
      }
      if r != Aborted {
        StartWorld();
      }
    }

    method UnmarkCollectible()
      modifies `marked
      ensures marked == set o | o in old(marked) && InUncollectable(heap, o)
      ensures forall o :: o in marked <==>
        && o in old(marked) && o in heap.home && heap.home[o] in heap.blocks
        && (heap.blocks[heap.home[o]].kind == Uncollectable || heap.blocks[heap.home[o]].kind == AtomicUncollectable)
    {
      marked := set o | o in marked && InUncollectable(heap, o);
    }

    /** Unmark every collectible object. */
    method ClearMarks()
      requires Resting() && (phase == Phase.None || phase == Invalid)
      modifies this
      ensures Resting() && Snap() == Apply(old(Snap()), Step.ClearMarks)
      ensures phase == Invalid && !objectsMarked
      ensures forall o :: o in marked <==>
        && o in old(marked) && o in heap.home && heap.home[o] in heap.blocks
        && (heap.blocks[heap.home[o]].kind == Uncollectable || heap.blocks[heap.home[o]].kind == AtomicUncollectable)
    {
      SoundStep(Snap(), Step.ClearMarks);
      UnmarkCollectible();
      objectsMarked, phase, scan := false, Invalid, 0;
    }

    method InvalidateMarkState()
      requires Resting() && (incremental ==> phase == Phase.None)
      modifies this
      ensures Resting() && Snap() == Apply(old(Snap()), Invalidate)
    {
      SoundStep(Snap(), Invalidate);
      phase, stack := Invalid, [];
    }

    /** A fault was caught in the midst of marking: start over from the marks made so far. */
    method RecoverFromFault()
      requires Ready() && phase != Phase.None
      modifies this
      ensures Snap() == Recovered(old(Snap()))
      ensures Recoverable(old(Snap())) ==> Ready()
    {
      if Recoverable(Snap()) {
        SoundRecovery(Snap());
      }
      phase, stack := Invalid, [];
      scan := 0;
      cursor, pushing, rootsTodo := Idle, false, {};
    }

    /** The mutator's side of incremental collection: a store records the page it dirties. */
    method WriteWord(o: Obj, k: nat, value: Ref, page: nat)
      requires Sound(Snap()) && Enabled(Snap(), Store(o, k, value, page))
      modifies this
      ensures Sound(Snap()) && Snap() == Apply(old(Snap()), Store(o, k, value, page))
      ensures incremental ==> PageHash(page) in dirty
      ensures forall p: nat :: p != page && p < page + PHT_ENTRIES && page < p + PHT_ENTRIES ==>
        (PageHash(p) in dirty <==> PageHash(p) in old(dirty))
    {
      PagesApart(page);
      SoundStep(Snap(), Store(o, k, value, page));
      heap := heap.(mem := heap.mem[InHeap(o) := heap.mem[InHeap(o)][k := value]]);
      if incremental {
        dirty := dirty + {PageHash(page)};
      }
    }
  }

  /** Pages less than a table size apart have different entries. */
  lemma PagesApart(page: nat)
    ensures forall p: nat :: p != page && p < page + PHT_ENTRIES && page < p + PHT_ENTRIES ==>
      PageHash(p) != PageHash(page)
  {
    forall p: nat | p != page && p < page + PHT_ENTRIES && page < p + PHT_ENTRIES
      ensures PageHash(p) != PageHash(page)
    {
      if p < page {
        Division.RemaindersDiffer(p, page, PHT_ENTRIES);
      } else {
        Division.RemaindersDiffer(page, p, PHT_ENTRIES);
      }
    }
  }

  /** When the function polled by a stopped mark asks it to give up. */
  datatype StopFunc = Never | After(polls: nat)

  /** No block before `a` is left for the scan of the current phase. */
  ghost predicate NoneBefore(s: State, a: nat) {
    forall c :: c in s.heap.blocks && s.scan <= c < a ==> !Relevant(s, c)
  }

  ghost predicate NoneLeft(s: State) {
    forall c :: c in s.heap.blocks && s.scan <= c ==> !Relevant(s, c)
  }

  ghost function BlocksFrom(blocks: map<nat, Block>, a: nat): set<nat> {
    set c | c in blocks && a <= c
  }

  /** `a` is skipped and `b` is the next block, if there is one. */
  lemma BlockSkipped(s: State, a: nat, found: bool, b: nat)
    requires Sound(s) && a in s.heap.blocks && s.scan <= a && NoneBefore(s, a) && !Relevant(s, a)
    requires var end := a + s.heap.blocks[a].pages;
      if found then b in s.heap.blocks && end <= b && forall c :: c in s.heap.blocks && end <= c ==> b <= c
      else forall c :: c in s.heap.blocks ==> c < end
    ensures found ==> NoneBefore(s, b) && BlocksFrom(s.heap.blocks, b) < BlocksFrom(s.heap.blocks, a)
    ensures !found ==> NoneLeft(s)
  {
    NextBlockApart(s, a);
    assert a in BlocksFrom(s.heap.blocks, a);
  }

  /** The root areas of `todo` that are pushed as ranges. */
  ghost function Ranges(mem: Memory, todo: set<nat>, eager: set<nat>): set<nat> {
    set r | r in todo && r !in eager && InRoot(r) in mem && mem[InRoot(r)] != []
  }

  /** The stack has no room for the static ranges. */
  ghost predicate RootsOverflow(s: State, eager: set<nat>) {
    s.phase != Invalid && |s.stack| + |Ranges(s.heap.mem, Roots(s.heap.mem), eager)| > s.size
  }

  /** There are few enough static ranges for the room that marking always leaves for them. */
  ghost predicate RootsFit(mem: Memory, eager: set<nat>) {
    |Ranges(mem, Roots(mem), eager)| <= INITIAL_MARK_STACK_SIZE / 2
  }

  lemma RoomForRoots(s: State, eager: set<nat>)
    requires |s.stack| + INITIAL_MARK_STACK_SIZE / 2 <= s.size
    ensures RootsFit(s.heap.mem, eager) ==> !RootsOverflow(s, eager)
  {
  }

  /** The state after some static ranges have been pushed. */
  ghost predicate RangesFrame(s: State, t: State, eager: set<nat>) {
    && t == s.(rootsTodo := t.rootsTodo, stack := t.stack) && |t.stack| <= t.size
    && t.rootsTodo <= s.rootsTodo && t.rootsTodo * eager == s.rootsTodo * eager
    && |t.stack| + |Ranges(s.heap.mem, t.rootsTodo, eager)| == |s.stack| + |Ranges(s.heap.mem, s.rootsTodo, eager)|
  }

  lemma RangesFurther(s: State, t: State, u: State, r: nat, eager: set<nat>)
    requires RangesFrame(s, t, eager) && r in t.rootsTodo - eager && |u.stack| <= u.size
    requires u == t.(rootsTodo := t.rootsTodo - {r}, stack := u.stack)
    requires |u.stack| + |Ranges(t.heap.mem, u.rootsTodo, eager)| ==
      |t.stack| + |Ranges(t.heap.mem, t.rootsTodo, eager)|
    ensures RangesFrame(s, u, eager)
  {
    assert u.rootsTodo * eager == t.rootsTodo * eager;
  }

  lemma NoRangesLeft(s: State, eager: set<nat>)
    requires s.rootsTodo - eager == {}
    ensures Ranges(s.heap.mem, s.rootsTodo, eager) == {} && s.rootsTodo == s.rootsTodo * eager
  {
    forall r | r in s.rootsTodo ensures r in eager {
      assert r !in s.rootsTodo - eager;
    }
  }

  lemma RangePushed(s: State, r: nat, eager: set<nat>)
    requires s.pushing && s.cursor.Idle? && MarkerRuns(s) && r in s.rootsTodo - eager && InRoot(r) in s.heap.mem
    ensures Enabled(s, RootRange(r)) ==>
      var t := Apply(s, RootRange(r));
      && t == s.(rootsTodo := s.rootsTodo - {r}, stack := t.stack)
      && |t.stack| + |Ranges(s.heap.mem, t.rootsTodo, eager)| == |s.stack| + |Ranges(s.heap.mem, s.rootsTodo, eager)|
    ensures !Enabled(s, RootRange(r)) ==> |s.stack| >= s.size && |Ranges(s.heap.mem, s.rootsTodo, eager)| > 0
  {
    var ranges := Ranges(s.heap.mem, s.rootsTodo, eager);
    assert s.heap.mem[InRoot(r)] != [] ==> r in ranges;
    assert Ranges(s.heap.mem, s.rootsTodo - {r}, eager) == ranges - {r};
  }

  ghost predicate AnyMarked(objs: seq<Obj>, marked: set<Obj>) {
    exists o :: o in objs && o in marked
  }

  lemma PushMarkedStep(s: State, objs: seq<Obj>, i: nat)
    requires i < |objs|
    ensures PushMarked(s, objs[i..]) == PushMarked(PushIfMarked(s, objs[i]), objs[i + 1..])
    ensures AnyMarked(objs[..i + 1], s.marked) <==> AnyMarked(objs[..i], s.marked) || objs[i] in s.marked
    ensures PushIfMarked(s, objs[i]).marked == s.marked
  {
    assert objs[i..][1..] == objs[i + 1..] && objs[..i + 1] == objs[..i] + [objs[i]];
  }

  /** Marking is still under way, between two calls, and closer to its end. */
  ghost predicate Advanced(s: State, t: State) {
    && t.cursor.Idle? && !t.pushing && t.phase != None && t.heap == s.heap && t.stopped == s.stopped
    && Closer(t, s)
  }

  lemma DoneIsClosed(s: State)
    requires Sound(s) && s.stopped && s.phase == None
    ensures MarksComplete(s.heap.mem, s.marked)
  {
    SoundInv(s);
    FinishedMarksAreClosed(s);
  }

  /** Some of the stack has been worked off; if that has marked nothing, there is less work on it. */
  ghost predicate Drained(s: State, t: State) {
    && ScanFrame(s.(objectsMarked := true), t)
    && (t.marked == s.marked ==>
         t == s.(stack := t.stack, objectsMarked := true) && StackWork(t.stack) < StackWork(s.stack))
  }

  lemma DrainedFurther(s: State, t: State, u: State)
    requires Drained(s, t) && Drained(t, u)
    ensures Drained(s, u)
  {
    if u.marked == s.marked {
      assert t.marked == s.marked;
    }
  }

  lemma DrainedIsCloser(s: State, t: State)
    requires Drained(s, t) && Sound(t)
    ensures Closer(t, s)
  {
    if t.marked != s.marked {
      MoreMarkedIsCloser(s, t);
    } else {
      assert Ahead(t) == Ahead(s);
    }
  }

  lemma SoundRecovery(s: State)
    requires Sound(s) && MarkerRuns(s) && Recoverable(s)
    ensures Sound(Recovered(s))
  {
    SoundInv(s);
    FaultKeeps(s);
  }

  lemma IdleWhenDone(s: State)
    requires Sound(s) && s.phase == None
    ensures s.cursor.Idle? && !s.pushing && s.stack == []
  {
    SoundInv(s);
  }

  lemma RestartIsProgress(s: State)
    requires Enabled(s, ScanEnd) && s.phase == Invalid
    ensures Advanced(s, Apply(s, ScanEnd))
  {
  }

  lemma ScanNextFrame(s: State)
    requires Enabled(s, Step.ScanNext)
    ensures var t := Apply(s, Step.ScanNext);
      && ScanFrame(s, t) && t.cursor == s.cursor.(lo := s.cursor.lo + 1)
      && (t.marked == s.marked ==> t == s.(cursor := t.cursor))
  {
  }

  lemma ScanHeldFrame(s: State)
    requires Enabled(s, Step.ScanHeld)
    ensures var t := Apply(s, Step.ScanHeld);
      && ScanFrame(s, t) && t.cursor == Idle && (t.marked == s.marked ==> t == s.(cursor := Idle))
  {
  }

  lemma NotedIsProgress(s: State, mid: State, t: State)
    requires mid == s.(tooSmall := true) && Advanced(mid, t)
    ensures Advanced(s, t)
  {
    assert Ahead(mid) == Ahead(s);
  }

  lemma RescanIsProgress(s: State, mid: State, t: State)
    requires mid == s || (s.phase == Invalid && s.scan == 0 &&
      mid == s.(phase := PartiallyInvalid, tooSmall := false, size := mid.size))
    requires Advanced(mid, t)
    ensures Advanced(s, t)
  {
    assert Ahead(mid) == Ahead(s);
  }

  lemma RootsDoneIsProgress(s: State, mid: State, t: State)
    requires Enabled(s, ScanEnd) && s.phase != Invalid && mid == Apply(s, ScanEnd) && RootsDone(mid, t) && Sound(t)
    requires t.stopped == s.stopped
    ensures Advanced(s, t)
  {
    if s.marked != t.marked {
      MoreMarkedIsCloser(s, t);
    }
  }

  /** What pushing roots may change; the stack overflows only on objects newly marked. */
  ghost predicate RootFrame(s: State, t: State) {
    ScanFrame(s.(rootsTodo := t.rootsTodo), t) && (t.marked == s.marked ==> t.phase == s.phase)
  }

  /** All roots are accounted for, or the stack overflowed on objects newly marked. */
  ghost predicate RootsDone(s: State, t: State) {
    && t.cursor.Idle? && !t.pushing && t.heap == s.heap && t.scan == s.scan && t.stopped == s.stopped
    && s.marked <= t.marked
    && (t.phase == RootsPushed || (t.phase == Invalid && s.marked < t.marked))
  }

  /** One more block is behind the scan, and the marks are as they were. */
  ghost predicate ScannedBlock(s: State, t: State) {
    && t == s.(stack := t.stack, scan := t.scan, objectsMarked := t.objectsMarked)
    && Closer(t, s)
  }

  lemma ScanBlockProgress(s: State, a: nat)
    requires Sound(s) && Enabled(s, ScanBlock(a)) && |s.stack| + MAX_BLOCK_OBJS <= s.size
    ensures ScannedBlock(s, Apply(s, ScanBlock(a)))
  {
    BlockFits(s, a);
    ScanAdvanceIsCloser(s, Apply(s, ScanBlock(a)), a);
  }

  lemma NextBlockApart(s: State, a: nat)
    requires Sound(s) && a in s.heap.blocks
    ensures forall c :: c in s.heap.blocks && a < c ==> a + s.heap.blocks[a].pages <= c
    ensures 0 < s.heap.blocks[a].pages
  {
    SoundInv(s);
  }

  lemma TakeTopWork(s: State)
    requires Sound(s) && s.stack != []
    ensures var t := TakeTopEntry(s);
      StackWork(t.stack) + (t.cursor.hi - t.cursor.lo) == StackWork(s.stack) && t.cursor.lo < t.cursor.hi
  {
    SoundStack(s);
    var n := |s.stack| - 1;
    var e := s.stack[n];
    StackWorkPush(s.stack[..n], e);
    assert s.stack == s.stack[..n] + [e];
    StackWorkPush(s.stack[..n], e.(lo := e.lo + SPLIT_RANGE_WORDS - 1));
  }
}
