/**
 The marker as a state machine.  One step is what the collector or the mutator
 does without the other seeing anything in between: a single word is scanned, a
 single block is pushed, a single pointer is stored.
 */
module MarkModel {
  import opened Config
  import opened ObjectGraph

  datatype Phase =
    | None
    | PushRescuers
    | PushUncollectable
    | RootsPushed
    | PartiallyInvalid
    | Invalid

  datatype Kind = PtrFree | Normal | Uncollectable | AtomicUncollectable

  /** A used heap block: its kind, its length in pages and its objects in address order. */
  datatype Block = Block(kind: Kind, pages: nat, objs: seq<Obj>)

  /** A mark stack entry: words `lo..hi` of an area still have to be scanned. */
  datatype Entry = Entry(loc: Loc, lo: nat, hi: nat)

  /**
   The range the marker holds in registers.  `held` is the value of a word that has
   been read ahead of its turn, to be pushed when the range is exhausted.
   */
  datatype Cursor = Idle | Scanning(loc: Loc, lo: nat, hi: nat, held: Ref)

  /** Heap and roots.  A block is found at the page number where it starts, an object through its block. */
  datatype Heap = Heap(blocks: map<nat, Block>, home: map<Obj, nat>, mem: Memory)

  datatype State = State(
    incremental: bool,
    heap: Heap,
    // marker
    marked: set<Obj>,
    stack: seq<Entry>,
    size: nat,
    tooSmall: bool,
    cursor: Cursor,
    phase: Phase,
    scan: nat,
    objectsMarked: bool,
    pushing: bool,
    rootsTodo: set<nat>,
    // virtual dirty bits
    dirty: set<nat>,
    grungy: set<nat>,
    // is the world stopped?
    stopped: bool)

  /** The dirty tables are indexed by a hash of the page number. */
  type TableSize = n: nat | n > 0 witness 1
  const PHT_ENTRIES: TableSize

  function PageHash(page: nat): nat {
    page % PHT_ENTRIES
  }

  predicate BlockWasDirty(a: nat, b: Block, table: set<nat>) {
    exists page :: a <= page < a + b.pages && PageHash(page) in table
  }

  predicate IsUncollectable(k: Kind) {
    k == Uncollectable || k == AtomicUncollectable
  }

  predicate IsPointerFree(k: Kind) {
    k == PtrFree || k == AtomicUncollectable
  }

  predicate InUncollectable(h: Heap, o: Obj) {
    o in h.home && h.home[o] in h.blocks && IsUncollectable(h.blocks[h.home[o]].kind)
  }

  function Roots(mem: Memory): set<nat> {
    set l | l in mem && l.InRoot? :: l.area
  }

  // ------------------------------------------------------------------ pushing

  function PushEntry(s: State, e: Entry): State {
    if |s.stack| < s.size then
      s.(stack := s.stack + [e])
    else
      var kept := if |s.stack| < MARK_STACK_DISCARDS then 0 else |s.stack| - MARK_STACK_DISCARDS;
      s.(stack := s.stack[..kept] + [e], phase := Invalid, tooSmall := true)
  }

  function MarkAndPush(s: State, r: Ref): State {
    if r.Null? || r.obj in s.marked then
      s
    else
      var t := s.(marked := s.marked + {r.obj});
      if InHeap(r.obj) in s.heap.mem && s.heap.mem[InHeap(r.obj)] != [] then
        PushEntry(t, Entry(InHeap(r.obj), 0, |s.heap.mem[InHeap(r.obj)]|))
      else
        t
  }

  function PushIfMarked(s: State, o: Obj): State {
    if o in s.marked && InHeap(o) in s.heap.mem && s.heap.mem[InHeap(o)] != [] then
      PushEntry(s, Entry(InHeap(o), 0, |s.heap.mem[InHeap(o)]|))
    else
      s
  }

  /** Push the marked objects among `objs`, in order. */
  function PushMarked(s: State, objs: seq<Obj>): State
    decreases |objs|
  {
    if objs == [] then
      s
    else
      PushMarked(PushIfMarked(s, objs[0]), objs[1..])
  }

  // -------------------------------------------------------------------- steps

  datatype Step =
    // GC_mark_from
    | TakeTop
    | HoldLast
    | ScanNext
    | ScanHeld
    // GC_mark_some
    | ScanBlock(a: nat)
    | ScanEnd
    | Revalidate(grow: bool)
    | GoUncollectable
    | Finish(grow: bool)
    // GC_push_roots
    | RootRange(area: nat)
    | RootEager(area: nat)
    | EndRoots
    | NoteTooSmall
    // collection driver
    | StartStop
    | Abandon
    | FinishStop
    | ClearMarks
    | Invalidate
    | Fault
    | Sweep
    // mutator
    | Store(obj: Obj, k: nat, value: Ref, page: nat)
    | RootStore(area: nat, k: nat, value: Ref)
    | AddRoot(area: nat, n: nat)
    | AllocBlock(a: nat, b: Block, words: nat)
    | AllocObject(a: nat, obj: Obj, words: nat)
    | NewUncollectable(obj: Obj)

  /** Does the scan of the current phase stop at block `a`? */
  predicate Relevant(s: State, a: nat)
    requires a in s.heap.blocks
  {
    match s.phase
    case PushRescuers => BlockWasDirty(a, s.heap.blocks[a], s.grungy)
    case PushUncollectable => s.heap.blocks[a].kind == Uncollectable
    case _ => true
  }

  /** May the marker look for the next block to push? */
  predicate ScanAllowed(s: State) {
    && !s.pushing && s.cursor.Idle?
    && match s.phase
       case PushRescuers | PushUncollectable => true
       case PartiallyInvalid => s.objectsMarked && s.stack == []
       case Invalid => s.objectsMarked && s.stack == [] && s.scan != 0
       case _ => false
  }

  /** Pages `[a, a + b.pages)` do not meet any block. */
  predicate PagesFree(blocks: map<nat, Block>, a: nat, b: Block) {
    forall c :: c in blocks ==> c + blocks[c].pages <= a || a + b.pages <= c
  }

  /** Marking runs with the world stopped, or in the background in incremental mode. */
  predicate MarkerRuns(s: State) {
    s.stopped || s.incremental
  }

  predicate IsMarkerStep(step: Step) {
    || step.TakeTop? || step.HoldLast? || step.ScanNext? || step.ScanHeld? || step.ScanBlock? || step.ScanEnd?
    || step.Revalidate? || step.GoUncollectable? || step.Finish?
    || step.RootRange? || step.RootEager? || step.EndRoots? || step.NoteTooSmall?
  }

  /** The contents of `o` need not be looked at again if all that is known is that it may be marked. */
  predicate Harmless(h: Heap, o: Obj) {
    InUncollectable(h, o) || (InHeap(o) in h.mem && h.mem[InHeap(o)] == [])
  }

  /** Marks made so far are known to be there, or matter only where marking starts anyway. */
  predicate Recoverable(s: State) {
    s.objectsMarked || OnlyHarmlessMarked(s)
  }

  predicate OnlyHarmlessMarked(s: State) {
    forall o :: o in s.marked ==> Harmless(s.heap, o)
  }

  ghost predicate Enabled(s: State, step: Step) {
    (IsMarkerStep(step) ==> MarkerRuns(s)) &&
    match step
    case TakeTop => s.cursor.Idle? && s.stack != [] && !s.pushing && s.phase != None
    case HoldLast => s.cursor.Scanning? && s.cursor.held.Null? && s.cursor.lo < s.cursor.hi
    case ScanNext => s.cursor.Scanning? && s.cursor.lo < s.cursor.hi
    case ScanHeld => s.cursor.Scanning? && s.cursor.lo == s.cursor.hi
    case ScanBlock(a) =>
      && ScanAllowed(s) && a in s.heap.blocks && s.scan <= a && Relevant(s, a)
      && forall c :: c in s.heap.blocks && s.scan <= c < a ==> !Relevant(s, c)
    case ScanEnd =>
      && ScanAllowed(s)
      && forall c :: c in s.heap.blocks && s.scan <= c ==> !Relevant(s, c)
    case Revalidate(_) =>
      s.phase == Invalid && s.objectsMarked && s.stack == [] && s.cursor.Idle? && !s.pushing && s.scan == 0
    case GoUncollectable =>
      (s.phase == Invalid || s.phase == PartiallyInvalid) && !s.objectsMarked && s.cursor.Idle? && !s.pushing
    case Finish(_) => s.phase == RootsPushed && s.stack == [] && s.cursor.Idle?
    case RootRange(r) =>
      && s.pushing && s.cursor.Idle? && r in s.rootsTodo && InRoot(r) in s.heap.mem
      && (s.heap.mem[InRoot(r)] == [] || |s.stack| < s.size)
    case RootEager(r) => s.pushing && s.cursor.Idle? && r in s.rootsTodo && InRoot(r) in s.heap.mem
    case EndRoots => s.pushing && s.cursor.Idle? && s.rootsTodo == {}
    case NoteTooSmall => s.phase != None
    case StartStop =>
      && !s.stopped && s.cursor.Idle? && !s.pushing
      && (s.phase == Invalid || (s.phase == None && s.incremental))
    case Abandon => s.stopped && s.phase != None && s.cursor.Idle? && !s.pushing
    case FinishStop => s.stopped && s.phase == None
    case ClearMarks => !s.stopped && (s.phase == None || s.phase == Invalid) && s.cursor.Idle? && !s.pushing
    case Invalidate => !s.stopped && s.cursor.Idle? && !s.pushing && (s.incremental ==> s.phase == None)
    case Fault => MarkerRuns(s) && s.phase != None && Recoverable(s)
    case Sweep => s.stopped && s.phase == None
    case Store(o, k, v, page) =>
      && !s.stopped && o in s.heap.home && InHeap(o) in s.heap.mem && k < |s.heap.mem[InHeap(o)]|
      && (v.To? ==> v.obj in s.heap.home)
      && s.heap.home[o] in s.heap.blocks &&
         s.heap.home[o] <= page < s.heap.home[o] + s.heap.blocks[s.heap.home[o]].pages
    case RootStore(r, k, v) =>
      && !s.stopped && InRoot(r) in s.heap.mem && k < |s.heap.mem[InRoot(r)]|
      && (v.To? ==> v.obj in s.heap.home)
    case AddRoot(r, n) => !s.stopped && InRoot(r) !in s.heap.mem
    case AllocBlock(a, b, _) =>
      && !s.stopped && 0 < b.pages && |b.objs| <= MAX_BLOCK_OBJS
      && PagesFree(s.heap.blocks, a, b)
      && forall o :: o in b.objs ==> o !in s.heap.home
    case AllocObject(a, o, _) =>
      && !s.stopped && a in s.heap.blocks && o !in s.heap.home && |s.heap.blocks[a].objs| < MAX_BLOCK_OBJS
    case NewUncollectable(o) =>
      && !s.stopped && o in s.heap.home && s.heap.home[o] in s.heap.blocks &&
         IsUncollectable(s.heap.blocks[s.heap.home[o]].kind)
      && InHeap(o) in s.heap.mem && forall r :: r in s.heap.mem[InHeap(o)] ==> r.Null?
  }

  function Blank(n: nat): seq<Ref> {
    seq(n, _ => Null)
  }

  /** Words per object of a fresh block; pointer-free objects have none to scan. */
  function FreshMemory(b: Block, words: nat): Memory {
    map o | o in b.objs :: InHeap(o) := if IsPointerFree(b.kind) then [] else Blank(words)
  }

  function AllocHeap(h: Heap, a: nat, b: Block, words: nat): Heap {
    Heap(h.blocks[a := b], h.home + (map o | o in b.objs :: a), h.mem + FreshMemory(b, words))
  }

  function AllocIn(h: Heap, a: nat, o: Obj, words: nat): Heap
    requires a in h.blocks
  {
    var b := h.blocks[a];
    Heap(h.blocks[a := b.(objs := b.objs + [o])], h.home[o := a],
         h.mem[InHeap(o) := if IsPointerFree(b.kind) then [] else Blank(words)])
  }

  /** The marked objects among `objs`. */
  function Kept(objs: seq<Obj>, marked: set<Obj>): seq<Obj> {
    if objs == [] then []
    else Kept(objs[..|objs| - 1], marked) + (if objs[|objs| - 1] in marked then [objs[|objs| - 1]] else [])
  }

  /** The heap without its unmarked objects, and without the blocks that lose all of theirs. */
  function Swept(h: Heap, marked: set<Obj>): Heap {
    Heap(map a | a in h.blocks && Kept(h.blocks[a].objs, marked) != [] ::
           h.blocks[a].(objs := Kept(h.blocks[a].objs, marked)),
         map o | o in h.home && o in marked :: h.home[o],
         map l | l in h.mem && (l.InRoot? || l.obj in marked) :: h.mem[l])
  }

  /** A fault in the midst of marking: the mark stack and the register contents are lost. */
  function Recovered(s: State): State {
    s.(phase := Invalid, stack := [], cursor := Idle, pushing := false, rootsTodo := {}, scan := 0)
  }

  /** The shortcuts of GC_push_marked do not apply to the block. */
  predicate PushesSomething(s: State, b: Block) {
    !IsPointerFree(b.kind) && exists o :: o in b.objs && o in s.marked
  }

  function ScanWord(s: State): State
    requires s.cursor.Scanning? && s.cursor.lo < s.cursor.hi
  {
    var c := s.cursor;
    var word := if c.loc in s.heap.mem && c.lo < |s.heap.mem[c.loc]| then s.heap.mem[c.loc][c.lo] else Null;
    MarkAndPush(s.(cursor := c.(lo := c.lo + 1)), word)
  }

  function TakeTopEntry(s: State): State
    requires s.stack != []
  {
    var n := |s.stack| - 1;
    var e := s.stack[n];
    if e.hi >= e.lo + SPLIT_RANGE_WORDS then
      var cut := e.lo + SPLIT_RANGE_WORDS - 1;
      s.(stack := s.stack[..n] + [e.(lo := cut)], cursor := Scanning(e.loc, e.lo, cut, Null), objectsMarked := true)
    else
      s.(stack := s.stack[..n], cursor := Scanning(e.loc, e.lo, e.hi, Null), objectsMarked := true)
  }

  /** The pages dirtied since the last call become the grungy pages. */
  function ReadDirty(s: State, outputUnneeded: bool): State {
    s.(grungy := if outputUnneeded then s.grungy else s.dirty, dirty := {})
  }

  function InitiateGc(s: State): State {
    var t := if s.incremental then ReadDirty(s, s.phase == Invalid) else s;
    t.(phase := if t.phase == None then PushRescuers else t.phase, scan := 0)
  }

  function Apply(s: State, step: Step): State
    requires Enabled(s, step)
  {
    match step
    case TakeTop => TakeTopEntry(s)
    case HoldLast =>
      var c := s.cursor;
      var word := if c.loc in s.heap.mem && c.hi - 1 < |s.heap.mem[c.loc]| then s.heap.mem[c.loc][c.hi - 1] else Null;
      s.(cursor := c.(hi := c.hi - 1, held := word))
    case ScanNext => ScanWord(s)
    case ScanHeld => MarkAndPush(s.(cursor := Idle), s.cursor.held)
    case ScanBlock(a) =>
      var b := s.heap.blocks[a];
      PushMarked(s, b.objs).(scan := a + b.pages, objectsMarked := s.objectsMarked || PushesSomething(s, b))
    case ScanEnd =>
      if s.phase == Invalid then s.(scan := 0)
      else s.(scan := 0, pushing := true, rootsTodo := Roots(s.heap.mem))
    case Revalidate(grow) =>
      s.(phase := PartiallyInvalid, tooSmall := false, size := if grow then 2 * s.size else s.size)
    case GoUncollectable => s.(phase := PushUncollectable)
    case Finish(grow) =>
      s.(phase := None, tooSmall := false, size := if grow then 2 * s.size else s.size)
    case RootRange(r) =>
      var t := s.(rootsTodo := s.rootsTodo - {r});
      if s.heap.mem[InRoot(r)] == [] then t else PushEntry(t, Entry(InRoot(r), 0, |s.heap.mem[InRoot(r)]|))
    case RootEager(r) =>
      s.(rootsTodo := s.rootsTodo - {r}, cursor := Scanning(InRoot(r), 0, |s.heap.mem[InRoot(r)]|, Null))
    case EndRoots =>
      s.(pushing := false, objectsMarked := true, phase := if s.phase == Invalid then Invalid else RootsPushed)
    case NoteTooSmall => s.(tooSmall := true)
    case StartStop => InitiateGc(s.(stopped := true))
    case Abandon => s.(stopped := false)
    case FinishStop => s.(stopped := false)
    case ClearMarks =>
      s.(marked := (set o | o in s.marked && InUncollectable(s.heap, o)),
         objectsMarked := false, phase := Invalid, scan := 0)
    case Invalidate => s.(phase := Invalid, stack := [])
    case Fault => Recovered(s)
    case Sweep => s.(heap := Swept(s.heap, s.marked))
    case Store(o, k, v, page) =>
      s.(heap := s.heap.(mem := s.heap.mem[InHeap(o) := s.heap.mem[InHeap(o)][k := v]]),
         dirty := if s.incremental then s.dirty + {PageHash(page)} else s.dirty)
    case RootStore(r, k, v) => s.(heap := s.heap.(mem := s.heap.mem[InRoot(r) := s.heap.mem[InRoot(r)][k := v]]))
    case AddRoot(r, n) => s.(heap := s.heap.(mem := s.heap.mem[InRoot(r) := Blank(n)]))
    case AllocBlock(a, b, words) =>
      s.(heap := AllocHeap(s.heap, a, b, words))
    case AllocObject(a, o, words) => s.(heap := AllocIn(s.heap, a, o, words))
    case NewUncollectable(o) => s.(marked := s.marked + {o})
  }

  // --------------------------------------------------------------- invariants

  /** Blocks are non-empty, disjoint, and small enough for their mark bits. */
  ghost predicate LayoutOk(blocks: map<nat, Block>) {
    && (forall a :: a in blocks ==> 0 < blocks[a].pages && |blocks[a].objs| <= MAX_BLOCK_OBJS)
    && (forall a, b :: a in blocks && b in blocks && a < b ==> a + blocks[a].pages <= b)
  }

  /** Every object lies in exactly one block. */
  ghost predicate HomesOk(h: Heap) {
    && (forall a, o :: a in h.blocks && o in h.blocks[a].objs ==> o in h.home && h.home[o] == a)
    && (forall o :: o in h.home ==> h.home[o] in h.blocks && o in h.blocks[h.home[o]].objs)
  }

  /** Pointers lead to objects, and pointer-free objects hold none. */
  ghost predicate ContentsOk(h: Heap) {
    && (forall o :: o in h.home <==> InHeap(o) in h.mem)
    && (forall o :: o in h.home && h.home[o] in h.blocks && IsPointerFree(h.blocks[h.home[o]].kind) ==>
         h.mem[InHeap(o)] == [])
    && (forall l, k :: l in h.mem && 0 <= k < |h.mem[l]| && h.mem[l][k].To? ==> h.mem[l][k].obj in h.home)
  }

  ghost predicate HeapWellFormed(h: Heap) {
    LayoutOk(h.blocks) && HomesOk(h) && ContentsOk(h)
  }

  ghost predicate RangeOk(mem: Memory, l: Loc, lo: nat, hi: nat) {
    l in mem && lo <= hi <= |mem[l]|
  }

  /** A mark stack entry never has size 0, and the stack never exceeds its size. */
  ghost predicate StackWellFormed(s: State) {
    && INITIAL_MARK_STACK_SIZE <= s.size && |s.stack| <= s.size
    && (forall i :: 0 <= i < |s.stack| ==>
          RangeOk(s.heap.mem, s.stack[i].loc, s.stack[i].lo, s.stack[i].hi) && s.stack[i].lo < s.stack[i].hi)
    && (s.cursor.Scanning? ==>
          && RangeOk(s.heap.mem, s.cursor.loc, s.cursor.lo, s.cursor.hi)
          && (s.cursor.held.To? ==> s.cursor.held.obj in s.heap.home))
  }

  /** What each marker state promises besides the grey invariant. */
  ghost predicate PhaseWellFormed(s: State)
    requires HeapWellFormed(s.heap) && s.marked <= s.heap.home.Keys
  {
    && (s.phase == None ==> s.stack == [] && s.cursor.Idle? && !s.pushing)
    && (s.phase == None || s.phase == RootsPushed ==> s.scan == 0 && !s.pushing)
    && (s.pushing ==> s.scan == 0)
    && (s.phase == PartiallyInvalid ==> s.objectsMarked)
    && (!s.objectsMarked && !s.pushing ==> s.cursor.Idle? && OnlyHarmlessMarked(s))
    && (s.phase == Invalid && !s.objectsMarked && !s.pushing && MarkerRuns(s) ==> s.scan == 0)
  }

  /** Word `k` of `l` points to an unmarked object. */
  ghost predicate White(s: State, l: Loc, k: nat) {
    l in s.heap.mem && k < |s.heap.mem[l]| && s.heap.mem[l][k].To? && s.heap.mem[l][k].obj !in s.marked
  }

  ghost predicate OnStack(stack: seq<Entry>, l: Loc, k: nat) {
    exists i :: 0 <= i < |stack| && stack[i].loc == l && stack[i].lo <= k < stack[i].hi
  }

  ghost predicate AtCursor(c: Cursor, l: Loc, k: nat, r: Ref) {
    c.Scanning? && (c.held == r || (c.loc == l && c.lo <= k < c.hi))
  }

  /** Word `k` of `l` is about to be scanned. */
  ghost predicate Pending(s: State, l: Loc, k: nat)
    requires l in s.heap.mem && k < |s.heap.mem[l]|
  {
    OnStack(s.stack, l, k) || AtCursor(s.cursor, l, k, s.heap.mem[l][k])
  }

  /** The block scan of the current phase still has object `o` ahead of it. */
  ghost predicate ScanAhead(s: State, o: Obj) {
    && !s.pushing && o in s.heap.home && s.heap.home[o] in s.heap.blocks && s.scan <= s.heap.home[o]
    && match s.phase
       case PushRescuers => BlockWasDirty(s.heap.home[o], s.heap.blocks[s.heap.home[o]], s.grungy)
       case PushUncollectable => s.heap.blocks[s.heap.home[o]].kind == Uncollectable
       case PartiallyInvalid => true
       case _ => false
  }

  /** With the world stopped, roots are accounted for once they have been pushed. */
  ghost predicate RootsDue(s: State) {
    s.stopped && (s.pushing || s.phase == RootsPushed || s.phase == None)
  }

  /** The mutator may have changed object `o` behind the marker's back, and that is on record. */
  ghost predicate Excused(s: State, o: Obj) {
    && !s.stopped
    && (|| !s.incremental
        || (&& o in s.heap.home && s.heap.home[o] in s.heap.blocks
            && BlockWasDirty(s.heap.home[o], s.heap.blocks[s.heap.home[o]], s.dirty)))
  }

  ghost predicate Justified(s: State, l: Loc, k: nat)
    requires l in s.heap.mem && k < |s.heap.mem[l]|
  {
    || s.phase == Invalid
    || Pending(s, l, k)
    || match l
       case InRoot(r) => !RootsDue(s) || (s.pushing && r in s.rootsTodo)
       case InHeap(o) => o !in s.marked || ScanAhead(s, o) || Excused(s, o)
  }

  /** Every pointer from a root or a marked object to an unmarked object is accounted for. */
  ghost predicate GreyInvariant(s: State) {
    forall l, k :: White(s, l, k) ==> Justified(s, l, k)
  }

  ghost predicate Inv(s: State) {
    HeapWellFormed(s.heap) && s.marked <= s.heap.home.Keys && StackWellFormed(s) && PhaseWellFormed(s) &&
      GreyInvariant(s)
  }
}
