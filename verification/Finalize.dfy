/**
 Finalization at the end of a collection, without the Java rules: which weak links are
 cleared, which objects are queued for finalization, and what is marked on their behalf.
 */
module Finalize {
  import opened Config
  import opened ObjectGraph
  import LinkTable

  /** What is marked before an object may be finalized: what it points to, the same except itself, or nothing. */
  datatype MarkProc = Normal | IgnoreSelf | NoOrder

  datatype Fin = Fin(obj: Obj, proc: MarkProc)

  /** The mark procedure of `f` marks what `t` stands for. */
  ghost predicate Pushes(mem: Memory, f: Fin, t: Obj) {
    f.proc != NoOrder && PointsTo(mem, InHeap(f.obj), t) && (f.proc == IgnoreSelf ==> t != f.obj)
  }

  /** A chain of one or more pointers from the object of `f`, the first of which its mark procedure follows. */
  ghost predicate Leads(mem: Memory, f: Fin, path: seq<Obj>) {
    |path| >= 2 && path[0] == f.obj && IsPath(mem, path) && Pushes(mem, f, path[1])
  }

  ghost predicate LeadsTo(mem: Memory, f: Fin, x: Obj) {
    exists path: seq<Obj> :: Leads(mem, f, path) && path[|path| - 1] == x
  }

  /** With the normal procedure these are all the chains of one or more pointers. */
  lemma NormalLeads(mem: Memory, f: Fin, path: seq<Obj>)
    requires f.proc == Normal && |path| >= 2 && path[0] == f.obj && IsPath(mem, path)
    ensures Leads(mem, f, path)
  {
    assert PointsTo(mem, InHeap(path[0]), path[1]);
  }

  lemma PushLeads(mem: Memory, f: Fin, t: Obj)
    requires Pushes(mem, f, t)
    ensures LeadsTo(mem, f, t)
  {
    assert Leads(mem, f, [f.obj, t]);
  }

  lemma LeadsFurther(mem: Memory, f: Fin, x: Obj, y: Obj)
    requires LeadsTo(mem, f, x) && PointsTo(mem, InHeap(x), y)
    ensures LeadsTo(mem, f, y)
  {
    var path: seq<Obj> :| Leads(mem, f, path) && path[|path| - 1] == x;
    var longer := path + [y];
    forall i | 0 <= i < |longer| - 1 ensures PointsTo(mem, InHeap(longer[i]), longer[i + 1]) {
      if i < |path| - 1 {
        assert PointsTo(mem, InHeap(path[i]), path[i + 1]);
      }
    }
    assert Leads(mem, f, longer);
  }

  /** A pointer-closed set that holds what `f` pushes holds everything `f` leads to. */
  lemma ClosedHoldsLeads(mem: Memory, marked: set<Obj>, f: Fin, x: Obj)
    requires ClosedUnderPointers(mem, marked) && LeadsTo(mem, f, x) && forall t :: Pushes(mem, f, t) ==> t in marked
    ensures x in marked
  {
    var path: seq<Obj> :| Leads(mem, f, path) && path[|path| - 1] == x;
    var rest := path[1..];
    forall i | 0 <= i < |rest| - 1 ensures PointsTo(mem, InHeap(rest[i]), rest[i + 1]) {
      assert PointsTo(mem, InHeap(path[i + 1]), path[i + 2]);
    }
    ClosedSetHoldsPath(mem, marked, rest);
  }

  /** Pointers lead to objects. */
  ghost predicate WellFormed(mem: Memory) {
    forall l, o :: PointsTo(mem, l, o) ==> InHeap(o) in mem
  }

  ghost function Objects(mem: Memory): set<Obj> {
    set l | l in mem && l.InHeap? :: l.obj
  }

  /** The marks are closed under pointers, except for objects still to be scanned. */
  ghost predicate ClosedBut(mem: Memory, marked: set<Obj>, grey: seq<Obj>) {
    forall o, p :: o in marked && o !in grey && PointsTo(mem, InHeap(o), p) ==> p in marked
  }

  ghost predicate AllLeads(mem: Memory, f: Fin, objs: set<Obj>) {
    forall x :: x in objs ==> LeadsTo(mem, f, x)
  }

  /**
   Marking on behalf of `f`, with `stack` holding the objects to be scanned.  Every object is
   pushed at most once, so that the stack can overflow only if it is smaller than the number of
   objects that were unmarked.
   */
  ghost predicate Tracing(mem: Memory, f: Fin, marked: set<Obj>, black: set<Obj>, stack: seq<Obj>, invalid: bool,
                          capacity: nat) {
    && black <= marked <= black + Objects(mem) && AllLeads(mem, f, marked - black)
    && (forall x :: x in stack ==> x in marked && x !in black && InHeap(x) in mem)
    && if invalid then capacity < |Objects(mem) - black|
       else |stack| + |Objects(mem) - marked| <= |Objects(mem) - black|
  }

  ghost predicate ScanKey(k: nat, mem: Memory, f: Fin, was: set<Obj>, marked: set<Obj>, black: set<Obj>, o: Obj,
                          stack: seq<Obj>, invalid: bool, capacity: nat) {
    true
  }

  /** Object `o` is being scanned; `was` are the marks from before that.  Folded: see the key. */
  ghost predicate Scanning(mem: Memory, f: Fin, was: set<Obj>, marked: set<Obj>, black: set<Obj>, o: Obj,
                           stack: seq<Obj>, invalid: bool, capacity: nat) {
    forall k: nat {:trigger ScanKey(k, mem, f, was, marked, black, o, stack, invalid, capacity)} ::
      ScanKey(k, mem, f, was, marked, black, o, stack, invalid, capacity) ==>
        && Tracing(mem, f, marked, black, stack, invalid, capacity)
        && (!invalid ==> ClosedBut(mem, marked, stack + [o]) && forall x :: x in marked && x !in was ==> x in stack)
  }

  lemma ScanFacts(mem: Memory, f: Fin, was: set<Obj>, marked: set<Obj>, black: set<Obj>, o: Obj,
                  stack: seq<Obj>, invalid: bool, capacity: nat)
    requires Scanning(mem, f, was, marked, black, o, stack, invalid, capacity)
    ensures Tracing(mem, f, marked, black, stack, invalid, capacity)
    ensures !invalid ==> ClosedBut(mem, marked, stack + [o]) && forall x :: x in marked && x !in was ==> x in stack
  {
    assert ScanKey(0, mem, f, was, marked, black, o, stack, invalid, capacity);
  }

  /** What scanning object `o` marks. */
  ghost predicate Follows(mem: Memory, o: Obj, ignoreSelf: bool, t: Obj) {
    PointsTo(mem, InHeap(o), t) && (ignoreSelf ==> t != o)
  }

  // ------------------------------------------------------------------ weak links

  /** Where a link is, if it is in memory that is scanned for pointers. */
  datatype Place = Place(loc: Loc, i: nat)

  /** The i-th word at `l` is a link in `dead`. */
  ghost predicate IsPlaceOf(place: map<nat, Place>, dead: set<nat>, l: Loc, i: nat) {
    exists k :: k in dead && k in place && place[k] == Place(l, i)
  }

  /** Memory with the links in `dead` set to null is otherwise as it was. */
  ghost predicate Cleared(was: Memory, now: Memory, place: map<nat, Place>, dead: set<nat>) {
    && now.Keys == was.Keys && (forall l :: l in was ==> |now[l]| == |was[l]|)
    && (forall l, i :: l in was && 0 <= i < |was[l]| ==>
      now[l][i] == if IsPlaceOf(place, dead, l, i) then Null else was[l][i])
  }

  lemma ClearedFewer(was: Memory, now: Memory, place: map<nat, Place>, dead: set<nat>, l: Loc, o: Obj)
    requires Cleared(was, now, place, dead) && PointsTo(now, l, o)
    ensures PointsTo(was, l, o)
  {
    var i :| 0 <= i < |now[l]| && now[l][i] == To(o);
    assert was[l][i] == To(o);
  }

  /** Removing pointers keeps marks closed and memory well formed. */
  lemma ClearedClosed(was: Memory, now: Memory, place: map<nat, Place>, dead: set<nat>, marked: set<Obj>)
    requires Cleared(was, now, place, dead)
    ensures ClosedUnderPointers(was, marked) ==> ClosedUnderPointers(now, marked)
    ensures WellFormed(was) ==> WellFormed(now)
  {
    forall l, o | PointsTo(now, l, o) ensures PointsTo(was, l, o) {
      ClearedFewer(was, now, place, dead, l, o);
    }
  }

  lemma ClearedHeap(was: Memory, now: Memory, place: map<nat, Place>, dead: set<nat>, fo: seq<seq<Fin>>)
    requires Cleared(was, now, place, dead) && FinsInHeap(fo, was)
    ensures FinsInHeap(fo, now) && Objects(now) == Objects(was)
  {
    forall o ensures o in Objects(now) <==> o in Objects(was) {
      assert InHeap(o) in now.Keys <==> InHeap(o) in was.Keys;
    }
  }

  lemma ClearedTwice(was: Memory, mid: Memory, now: Memory, place: map<nat, Place>, a: set<nat>, b: set<nat>)
    requires Cleared(was, mid, place, a) && Cleared(mid, now, place, b)
    ensures Cleared(was, now, place, a + b)
  {
    forall l, i | l in was && 0 <= i < |was[l]|
      ensures now[l][i] == if IsPlaceOf(place, a + b, l, i) then Null else was[l][i]
    {
      PlaceOfEither(place, a, b, l, i);
    }
  }

  lemma PlaceOfEither(place: map<nat, Place>, a: set<nat>, b: set<nat>, l: Loc, i: nat)
    ensures IsPlaceOf(place, a + b, l, i) <==> IsPlaceOf(place, a, l, i) || IsPlaceOf(place, b, l, i)
  {
    if k :| k in a && k in place && place[k] == Place(l, i) {
      assert k in a + b;
    }
    if k :| k in b && k in place && place[k] == Place(l, i) {
      assert k in a + b;
    }
  }

  /** The links of an unmarked object. */
  ghost function Dead(links: map<nat, nat>, marked: set<Obj>): set<nat> {
    set k | k in links && links[k] !in marked
  }

  /** The links that are themselves in an unmarked object. */
  function Dangling(base: map<nat, Obj>, marked: set<Obj>): set<nat> {
    set k | k in base && base[k] !in marked
  }

  lemma ChangedWords(was: Memory, now: Memory, place: map<nat, Place>, dead: set<nat>)
    requires Cleared(was, now, place, dead)
    ensures forall l, i :: l in was && 0 <= i < |was[l]| && now[l][i] != was[l][i] ==>
      exists k :: k in dead && k in place && place[k] == Place(l, i)
  {
    forall l, i | l in was && 0 <= i < |was[l]| && now[l][i] != was[l][i] ensures IsPlaceOf(place, dead, l, i) {
    }
  }

  lemma LinksLeft(c0: map<nat, nat>, c: map<nat, nat>, base: map<nat, Obj>, was: set<Obj>, marked: set<Obj>)
    requires c == c0 - Dead(c0, was) - Dangling(base, marked)
    ensures forall k :: k in c <==> k in c0 && c0[k] in was && (k in base ==> base[k] in marked)
    ensures forall k :: k in c ==> c[k] == c0[k]
  {
  }

  // ------------------------------------------------------------ the finalizer table

  /** The registered finalizers. */
  ghost function Fins(fo: seq<seq<Fin>>): set<Fin> {
    set i, j | 0 <= i < |fo| && 0 <= j < |fo[i]| :: fo[i][j]
  }

  /** An object has at most one finalizer. */
  ghost predicate OneEach(fo: seq<seq<Fin>>) {
    forall i, j, m, n ::
      && 0 <= i < |fo| && 0 <= j < |fo[i]| && 0 <= m < |fo| && 0 <= n < |fo[m]|
      && fo[i][j].obj == fo[m][n].obj ==>
        i == m && j == n
  }

  ghost predicate FinsInHeap(fo: seq<seq<Fin>>, mem: Memory) {
    forall f :: f in Fins(fo) ==> InHeap(f.obj) in mem
  }

  ghost function Objs(fins: seq<Fin>): set<Obj> {
    set f | f in fins :: f.obj
  }

  /** What the mark procedure of `f` follows is marked. */
  ghost predicate Traced(mem: Memory, marked: set<Obj>, f: Fin) {
    forall t :: Pushes(mem, f, t) ==> t in marked
  }

  /** Some finalizer of an object that was unmarked leads to `x`. */
  ghost predicate LedTo(mem: Memory, fo: seq<seq<Fin>>, unmarkedIn: set<Obj>, x: Obj) {
    exists f :: f in Fins(fo) && f.obj !in unmarkedIn && LeadsTo(mem, f, x)
  }

  ghost predicate HasFinalizer(fo: seq<seq<Fin>>, x: Obj) {
    exists f :: f in Fins(fo) && f.obj == x
  }

  /** The objects on whose behalf tracing overflowed were unmarked, and their finalizers are ordered. */
  ghost predicate Overflows(fo: seq<seq<Fin>>, was: set<Obj>, overflowed: set<Obj>) {
    forall x :: x in overflowed ==> x !in was && exists f :: f in Fins(fo) && f.obj == x && f.proc != NoOrder
  }

  /** What has been marked since is led to by a finalizer, or is the object of one whose tracing overflowed. */
  ghost predicate Justified(mem: Memory, fo: seq<seq<Fin>>, was: set<Obj>, marked: set<Obj>, overflowed: set<Obj>) {
    && Overflows(fo, was, overflowed) && overflowed <= marked
    && forall x :: x in marked && x !in was && x !in overflowed ==> LedTo(mem, fo, was, x)
  }

  function DropAt(fo: seq<seq<Fin>>, i: nat, j: nat): seq<seq<Fin>>
    requires i < |fo| && j < |fo[i]|
  {
    fo[i := fo[i][..j] + fo[i][j + 1..]]
  }

  /** Where the entry at `(m, n)` was before the one at `(i, j)` was dropped. */
  function Before(i: nat, j: nat, m: nat, n: nat): nat {
    if m == i && j <= n then n + 1 else n
  }

  lemma DropAtWas(fo: seq<seq<Fin>>, i: nat, j: nat, m: nat, n: nat)
    requires i < |fo| && j < |fo[i]| && m < |fo| && n < |DropAt(fo, i, j)[m]|
    ensures Before(i, j, m, n) < |fo[m]| && DropAt(fo, i, j)[m][n] == fo[m][Before(i, j, m, n)]
  {
  }

  lemma DropAtFins(fo: seq<seq<Fin>>, i: nat, j: nat)
    requires i < |fo| && j < |fo[i]| && OneEach(fo)
    ensures OneEach(DropAt(fo, i, j)) && Fins(DropAt(fo, i, j)) == Fins(fo) - {fo[i][j]}
    ensures forall f :: f in Fins(DropAt(fo, i, j)) ==> f.obj != fo[i][j].obj
  {
    var fo': seq<seq<Fin>> := DropAt(fo, i, j);
    forall m, n, a, b | 0 <= m < |fo'| && 0 <= n < |fo'[m]| && 0 <= a < |fo'| && 0 <= b < |fo'[a]| &&
      fo'[m][n].obj == fo'[a][b].obj
      ensures m == a && n == b
    {
      DropAtWas(fo, i, j, m, n);
      DropAtWas(fo, i, j, a, b);
    }
    forall f | f in Fins(fo') ensures f in Fins(fo) && f.obj != fo[i][j].obj {
      var m, n :| 0 <= m < |fo'| && 0 <= n < |fo'[m]| && fo'[m][n] == f;
      DropAtWas(fo, i, j, m, n);
    }
    forall f | f in Fins(fo) && f != fo[i][j] ensures f in Fins(fo') {
      var m, n :| 0 <= m < |fo| && 0 <= n < |fo[m]| && fo[m][n] == f;
      var n' := if m == i && j < n then n - 1 else n;
      assert fo'[m][n'] == f;
    }
  }

  /** Objects have been moved from the table to the queue: those whose objects were not in `was`. */
  ghost predicate Queued(fo0: seq<seq<Fin>>, fo: seq<seq<Fin>>, newly: seq<Fin>, was: set<Obj>, marked: set<Obj>) {
    && marked == was + Objs(newly) && OneEach(fo)
    && (forall f :: f in newly ==> f.obj !in was)
    && (forall f :: f in Fins(fo0) <==> f in Fins(fo) || f in newly)
    && (forall f, g :: f in newly && g in Fins(fo) ==> f.obj != g.obj)
    && (forall a, b :: 0 <= a < b < |newly| ==> newly[a].obj != newly[b].obj)
  }

  lemma QueuedMore(fo0: seq<seq<Fin>>, fo: seq<seq<Fin>>, newly: seq<Fin>, was: set<Obj>, marked: set<Obj>, i: nat,
                   j: nat)
    requires Queued(fo0, fo, newly, was, marked) && i < |fo| && j < |fo[i]| && fo[i][j].obj !in marked
    ensures Queued(fo0, DropAt(fo, i, j), [fo[i][j]] + newly, was, marked + {fo[i][j].obj})
  {
    var f := fo[i][j];
    var more := [f] + newly;
    DropAtFins(fo, i, j);
    assert f in Fins(fo);
    forall g ensures g in more <==> g == f || g in newly {
      assert g == f ==> more[0] == g;
      assert g in newly ==> exists k :: 0 <= k < |newly| && newly[k] == g && more[k + 1] == g;
    }
    forall a, b | 0 <= a < b < |more| ensures more[a].obj != more[b].obj {
      assert more[b] == newly[b - 1];
      assert a > 0 ==> more[a] == newly[a - 1];
    }
  }

  class Finalizer {
    var mem: Memory
    var marked: set<Obj>
    var fo: seq<seq<Fin>>
    var queue: seq<Fin>
    const shortLinks: LinkTable.Table
    const longLinks: LinkTable.Table
    /** For links in scanned memory, where they are; for links in objects, in which. */
    const place: map<nat, Place>
    const base: map<nat, Obj>
    /** Entries of the mark stack. */
    const capacity: nat

    constructor (mem: Memory, marked: set<Obj>, fo: seq<seq<Fin>>, place: map<nat, Place>, base: map<nat, Obj>,
                 shortLinks: LinkTable.Table, longLinks: LinkTable.Table, capacity: nat)
      ensures this.mem == mem && this.marked == marked && this.fo == fo && this.place == place && this.base == base
      ensures this.shortLinks == shortLinks && this.longLinks == longLinks && queue == [] && this.capacity == capacity
    {
      this.mem, this.marked, this.fo, this.place, this.base := mem, marked, fo, place, base;
      this.shortLinks, this.longLinks, queue, this.capacity := shortLinks, longLinks, [], capacity;
    }

    /** Mark `t` and push it; a full stack loses its newest entries. */
    method Push(t: Obj, stack: seq<Obj>, invalid: bool, ghost f: Fin, ghost black: set<Obj>)
      returns (stack': seq<Obj>, invalid': bool)
      requires Tracing(mem, f, marked, black, stack, invalid, capacity)
      requires t !in marked && InHeap(t) in mem && LeadsTo(mem, f, t)
      modifies `marked
      ensures marked == old(marked) + {t} && Tracing(mem, f, marked, black, stack', invalid', capacity)
      ensures !invalid' ==> !invalid && stack' == stack + [t]
    {
      assert t in Objects(mem) - marked;
      assert Objects(mem) - (marked + {t}) == Objects(mem) - marked - {t};
      marked := marked + {t};
      if |stack| < capacity {
        stack', invalid' := stack + [t], invalid;
      } else {
        var kept := if |stack| < MARK_STACK_DISCARDS then 0 else |stack| - MARK_STACK_DISCARDS;
        stack', invalid' := stack[..kept] + [t], true;
      }
    }

    /** Mark what word `w` of object `o` points to. */
    method ScanWord(o: Obj, w: Ref, stack: seq<Obj>, invalid: bool, ghost f: Fin, ghost black: set<Obj>,
                    ghost was: set<Obj>)
      returns (stack': seq<Obj>, invalid': bool)
      requires Scanning(mem, f, was, marked, black, o, stack, invalid, capacity)
      requires w.To? ==> InHeap(w.obj) in mem && LeadsTo(mem, f, w.obj)
      modifies `marked
      ensures old(marked) <= marked && (w.To? ==> w.obj in marked)
      ensures Scanning(mem, f, was, marked, black, o, stack', invalid', capacity)
      ensures marked == old(marked) ==> stack' == stack
    {
      stack', invalid' := stack, invalid;
      if w.To? && w.obj !in marked {
        ScanFacts(mem, f, was, marked, black, o, stack, invalid, capacity);
        stack', invalid' := Push(w.obj, stack, invalid, f, black);
        if !invalid' {
          ClosedButPushed(mem, old(marked), stack, o, w.obj);
          assert stack'[|stack|] == w.obj;
        }
      }
    }

    /** Mark what the words of `o` point to, but for `o` itself if it is to be ignored. */
    method ScanObject(o: Obj, ignoreSelf: bool, stack: seq<Obj>, invalid: bool, ghost f: Fin, ghost black: set<Obj>)
      returns (stack': seq<Obj>, invalid': bool)
      requires InHeap(o) in mem && WellFormed(mem) &&
        Scanning(mem, f, marked, marked, black, o, stack, invalid, capacity)
      requires forall t :: Follows(mem, o, ignoreSelf, t) ==> LeadsTo(mem, f, t)
      modifies `marked
      ensures old(marked) <= marked && Scanning(mem, f, old(marked), marked, black, o, stack', invalid', capacity)
      ensures forall t :: Follows(mem, o, ignoreSelf, t) ==> t in marked
      ensures marked == old(marked) ==> stack' == stack
    {
      stack', invalid' := stack, invalid;
      var words := mem[InHeap(o)];
      var i := 0;
      while i < |words|
        invariant i <= |words| && old(marked) <= marked
        invariant Scanning(mem, f, old(marked), marked, black, o, stack', invalid', capacity)
        invariant forall j :: 0 <= j < i && words[j].To? && (ignoreSelf ==> words[j].obj != o) ==>
          words[j].obj in marked
        invariant marked == old(marked) ==> stack' == stack
      {
        if !(ignoreSelf && words[i] == To(o)) {
          FollowedWord(mem, o, ignoreSelf, i);
          stack', invalid' := ScanWord(o, words[i], stack', invalid', f, black, old(marked));
        }
        i := i + 1;
      }
    }

    /** Scan the object on top of the stack. */
    method DrainOne(stack: seq<Obj>, invalid: bool, ghost f: Fin, ghost black: set<Obj>)
      returns (stack': seq<Obj>, invalid': bool)
      requires WellFormed(mem) && Tracing(mem, f, marked, black, stack, invalid, capacity) && stack != []
      requires !invalid ==> ClosedBut(mem, marked, stack)
      modifies `marked
      ensures old(marked) <= marked && Tracing(mem, f, marked, black, stack', invalid', capacity)
      ensures !invalid' ==> ClosedBut(mem, marked, stack')
      ensures |Objects(mem) - marked| < |Objects(mem) - old(marked)| || (marked == old(marked) && |stack'| < |stack|)
    {
      var o, rest := stack[|stack| - 1], stack[..|stack| - 1];
      assert stack == rest + [o];
      assert o in stack && LeadsTo(mem, f, o);
      forall t | Follows(mem, o, false, t) ensures LeadsTo(mem, f, t) {
        LeadsFurther(mem, f, o, t);
      }
      stack', invalid' := ScanObject(o, false, rest, invalid, f, black);
      ScanFacts(mem, f, old(marked), marked, black, o, stack', invalid', capacity);
      if !invalid' {
        ScannedAll(mem, marked, stack', o);
      }
      FewerUnmarked(mem, old(marked), marked);
    }

    /** Scan until nothing is left to be scanned. */
    method Drain(stack: seq<Obj>, invalid: bool, ghost f: Fin, ghost black: set<Obj>) returns (invalid': bool)
      requires WellFormed(mem) && Tracing(mem, f, marked, black, stack, invalid, capacity)
      requires !invalid ==> ClosedBut(mem, marked, stack)
      modifies `marked
      ensures old(marked) <= marked && Tracing(mem, f, marked, black, [], invalid', capacity)
      ensures !invalid' ==> ClosedUnderPointers(mem, marked)
    {
      var grey := stack;
      invalid' := invalid;
      while grey != []
        invariant old(marked) <= marked && Tracing(mem, f, marked, black, grey, invalid', capacity)
        invariant !invalid' ==> ClosedBut(mem, marked, grey)
        decreases |Objects(mem) - marked|, |grey|
      {
        grey, invalid' := DrainOne(grey, invalid', f, black);
      }
    }

    /** Mark what the words of `o` point to, and add it to what is to be scanned. */
    method ScanAgain(o: Obj, todo: set<Obj>, ghost f: Fin, ghost black: set<Obj>) returns (todo': set<Obj>)
      requires InHeap(o) in mem && WellFormed(mem) && o in marked && todo <= marked
      requires Completing(mem, f, marked, black) && ScannedBut(mem, marked, todo + {o})
      modifies `marked
      ensures old(marked) <= marked && todo' <= marked && Completing(mem, f, marked, black) &&
        ScannedBut(mem, marked, todo')
      ensures marked == old(marked) ==> todo' == todo
    {
      todo' := todo;
      var words := mem[InHeap(o)];
      var i := 0;
      while i < |words|
        invariant i <= |words| && old(marked) <= marked && todo' <= marked && Completing(mem, f, marked, black)
        invariant ScannedBut(mem, marked, todo' + {o})
        invariant forall j :: 0 <= j < i && words[j].To? ==> words[j].obj in marked
        invariant marked == old(marked) ==> todo' == todo
      {
        if words[i].To? && words[i].obj !in marked {
          var t := words[i].obj;
          assert PointsTo(mem, InHeap(o), t);
          CompletingMore(mem, f, marked, black, o, t);
          marked, todo' := marked + {t}, todo' + {t};
        }
        i := i + 1;
      }
    }

    /** After an overflow all marked objects are scanned again, until the marks are closed. */
    method CompleteMarks(ghost f: Fin, ghost black: set<Obj>)
      requires WellFormed(mem) && Completing(mem, f, marked, black)
      modifies `marked
      ensures old(marked) <= marked && Completing(mem, f, marked, black) && ClosedUnderPointers(mem, marked)
    {
      var todo := marked;
      while todo != {}
        invariant old(marked) <= marked && todo <= marked && Completing(mem, f, marked, black) &&
          ScannedBut(mem, marked, todo)
        decreases |Objects(mem) - marked|, todo
      {
        var o :| o in todo;
        todo := CompleteOne(o, todo, f, black);
      }
    }

    method CompleteOne(o: Obj, todo: set<Obj>, ghost f: Fin, ghost black: set<Obj>) returns (todo': set<Obj>)
      requires WellFormed(mem) && Completing(mem, f, marked, black)
      requires o in todo && todo <= marked && ScannedBut(mem, marked, todo)
      modifies `marked
      ensures old(marked) <= marked && todo' <= marked
      ensures Completing(mem, f, marked, black) && ScannedBut(mem, marked, todo')
      ensures |Objects(mem) - marked| < |Objects(mem) - old(marked)| || (marked == old(marked) && todo' < todo)
    {
      if InHeap(o) in mem {
        assert todo - {o} + {o} == todo;
        todo' := ScanAgain(o, todo - {o}, f, black);
      } else {
        todo' := todo - {o};
      }
      FewerUnmarked(mem, old(marked), marked);
    }

    /**
     Mark on behalf of `f`.  If the mark stack overflowed, the object itself is marked too before
     the marks are completed.
     */
    method MarkFo(f: Fin) returns (overflowed: bool)
      requires InHeap(f.obj) in mem && WellFormed(mem) && ClosedUnderPointers(mem, marked) && f.obj !in marked
      modifies `marked
      ensures old(marked) <= marked <= old(marked) + Objects(mem) && ClosedUnderPointers(mem, marked)
      ensures forall t :: Pushes(mem, f, t) ==> t in marked
      ensures AllLeads(mem, f, marked - old(marked) - (if overflowed then {f.obj} else {}))
      ensures overflowed ==> f.proc != NoOrder && f.obj in marked && capacity < |Objects(mem) - old(marked)|
    {
      overflowed := false;
      if f.proc == NoOrder {
        return;
      }
      forall t | Follows(mem, f.obj, f.proc == IgnoreSelf, t) ensures LeadsTo(mem, f, t) {
        PushLeads(mem, f, t);
      }
      var stack;
      stack, overflowed := ScanObject(f.obj, f.proc == IgnoreSelf, [], false, f, marked);
      ScanFacts(mem, f, old(marked), marked, old(marked), f.obj, stack, overflowed, capacity);
      assert forall t :: Pushes(mem, f, t) ==> Follows(mem, f.obj, f.proc == IgnoreSelf, t);
      if !overflowed {
        ClosedWithout(mem, marked, stack, f.obj);
      }
      overflowed := Drain(stack, overflowed, f, old(marked));
      if overflowed {
        assert f.obj in Objects(mem);
        marked := marked + {f.obj};
        CompleteMarks(f, old(marked));
      }
    }

    /** Mark what unmarked finalizable objects lead to, but not the objects themselves. */
    method Trace() returns (overflowed: set<Obj>)
      requires WellFormed(mem) && ClosedUnderPointers(mem, marked) && FinsInHeap(fo, mem)
      modifies `marked
      ensures old(marked) <= marked && ClosedUnderPointers(mem, marked)
      ensures forall f :: f in Fins(fo) ==> Traced(mem, marked, f)
      ensures Justified(mem, fo, old(marked), marked, overflowed)
      ensures overflowed != {} ==> capacity < |Objects(mem) - old(marked)|
    {
      overflowed := {};
      var i := 0;
      while i < |fo|
        invariant i <= |fo| && old(marked) <= marked && ClosedUnderPointers(mem, marked)
        invariant forall m, n :: 0 <= m < i && 0 <= n < |fo[m]| ==> Traced(mem, marked, fo[m][n])
        invariant Justified(mem, fo, old(marked), marked, overflowed)
        invariant overflowed != {} ==> capacity < |Objects(mem) - old(marked)|
      {
        var j := 0;
        while j < |fo[i]|
          invariant j <= |fo[i]| && old(marked) <= marked && ClosedUnderPointers(mem, marked)
          invariant forall m, n :: 0 <= m < i && 0 <= n < |fo[m]| ==> Traced(mem, marked, fo[m][n])
          invariant forall n :: 0 <= n < j ==> Traced(mem, marked, fo[i][n])
          invariant Justified(mem, fo, old(marked), marked, overflowed)
          invariant overflowed != {} ==> capacity < |Objects(mem) - old(marked)|
        {
          overflowed := TraceOne(fo[i][j], overflowed, old(marked));
          j := j + 1;
        }
        i := i + 1;
      }
    }

    /** Write null to link `k`, if it is in memory that is scanned. */
    method ClearLink(k: nat)
      modifies `mem
      ensures Cleared(old(mem), mem, place, {k})
    {
      if k in place {
        var l, i := place[k].loc, place[k].i;
        if l in mem && i < |mem[l]| {
          assert k in {k};
          mem := mem[l := mem[l][i := Null]];
        }
      }
    }

    method ClearLinks(links: set<nat>)
      modifies `mem
      ensures Cleared(old(mem), mem, place, links)
    {
      var todo := links;
      while todo != {}
        invariant todo <= links && Cleared(old(mem), mem, place, links - todo)
      {
        var k :| k in todo;
        ghost var mid := mem;
        ClearLink(k);
        ClearedTwice(old(mem), mid, mem, place, links - todo, {k});
        assert links - todo + {k} == links - (todo - {k});
        todo := todo - {k};
      }
      assert links - todo == links;
    }

    /** Clear the links of unmarked objects and delete their entries. */
    method MakeLinksDisappear(links: LinkTable.Table)
      requires links.Valid()
      modifies `mem, links
      ensures links.Valid() && links.Contents() == old(links.Contents()) - Dead(old(links.Contents()), marked)
      ensures Cleared(old(mem), mem, place, Dead(old(links.Contents()), marked))
      ensures forall k :: k in links.Contents() <==> k in old(links.Contents()) && old(links.Contents())[k] in marked
      ensures forall k :: k in old(links.Contents()) && old(links.Contents())[k] !in marked ==> ReadsNull(k)
      ensures mem.Keys == old(mem).Keys && forall l :: l in mem ==> |mem[l]| == |old(mem)[l]|
      ensures forall l, i :: l in mem && 0 <= i < |mem[l]| && mem[l][i] != old(mem)[l][i] ==>
        exists k :: k in old(links.Contents()) && k !in links.Contents() && k in place && place[k] == Place(l, i)
    {
      var dead := links.Filter(LinkTable.OfObjects(marked));
      assert dead == Dead(old(links.Contents()), marked);
      ClearLinks(dead);
      ClearedReadsNull(old(mem), dead);
      ChangedWords(old(mem), mem, place, dead);
    }

    /** Link `k`, if it is in memory that is scanned, holds null. */
    ghost predicate ReadsNull(k: nat)
      reads this
    {
      k in place && place[k].loc in mem && place[k].i < |mem[place[k].loc]| ==>
        mem[place[k].loc][place[k].i] == Null
    }

    lemma ClearedReadsNull(was: Memory, dead: set<nat>)
      requires Cleared(was, mem, place, dead)
      ensures forall k :: k in dead ==> ReadsNull(k)
    {
      forall k | k in dead ensures ReadsNull(k) {
        if k in place && place[k].loc in mem && place[k].i < |mem[place[k].loc]| {
          assert IsPlaceOf(place, dead, place[k].loc, place[k].i);
        }
      }
    }

    /** Delete the entries of links that are in unmarked objects. */
    method RemoveDangling(links: LinkTable.Table)
      requires links.Valid()
      modifies links
      ensures links.Valid() && links.Contents() == old(links.Contents()) - Dangling(base, marked)
      ensures forall k :: k in old(links.Contents()) ==>
        (k in links.Contents() <==> k !in base || base[k] in marked)
    {
      var dropped := links.Filter(LinkTable.NotOfLinks(Dangling(base, marked)));
    }

    /** Queue the finalizers of the objects that are still unmarked, and mark these objects. */
    method Enqueue() returns (ghost newly: seq<Fin>)
      requires OneEach(fo)
      modifies `marked, `fo, `queue
      ensures Queued(old(fo), fo, newly, old(marked), marked) && queue == newly + old(queue)
      ensures forall f :: f in Fins(fo) ==> f.obj in old(marked)
    {
      newly := [];
      var i := 0;
      while i < |fo|
        invariant i <= |fo| && Queued(old(fo), fo, newly, old(marked), marked) && queue == newly + old(queue)
        invariant forall m, n :: 0 <= m < i && 0 <= n < |fo[m]| ==> fo[m][n].obj in old(marked)
        decreases |fo| - i
      {
        newly := EnqueueBucket(i, old(fo), newly, old(marked), old(queue));
        i := i + 1;
      }
    }

    method EnqueueBucket(i: nat, ghost fo0: seq<seq<Fin>>, ghost newly: seq<Fin>, ghost was: set<Obj>,
                         ghost queue0: seq<Fin>)
      returns (ghost newly': seq<Fin>)
      requires i < |fo| && Queued(fo0, fo, newly, was, marked) && queue == newly + queue0
      modifies `marked, `fo, `queue
      ensures Queued(fo0, fo, newly', was, marked) && queue == newly' + queue0
      ensures |fo| == old(|fo|) && forall m :: 0 <= m < |fo| && m != i ==> fo[m] == old(fo)[m]
      ensures forall n :: 0 <= n < |fo[i]| ==> fo[i][n].obj in was
    {
      newly' := newly;
      var j := 0;
      while j < |fo[i]|
        invariant |fo| == old(|fo|) && j <= |fo[i]|
        invariant Queued(fo0, fo, newly', was, marked) && queue == newly' + queue0
        invariant forall m :: 0 <= m < |fo| && m != i ==> fo[m] == old(fo)[m]
        invariant forall n :: 0 <= n < j ==> fo[i][n].obj in was
        decreases |fo[i]| - j
      {
        var f := fo[i][j];
        if f.obj !in marked {
          QueuedMore(fo0, fo, newly', was, marked, i, j);
          marked := marked + {f.obj};
          fo := DropAt(fo, i, j);
          queue := [f] + queue;
          newly' := [f] + newly';
        } else {
          StillThere(fo0, fo, newly', was, marked, i, j);
          j := j + 1;
        }
      }
    }

    /** Everything from the traced memory on: what finalizers lead to, and what is queued. */
    method TraceAndEnqueue() returns (ghost newly: seq<Fin>, ghost overflowed: set<Obj>)
      requires WellFormed(mem) && ClosedUnderPointers(mem, marked) && FinsInHeap(fo, mem) && OneEach(fo)
      modifies `marked, `fo, `queue
      ensures Outcome(mem, old(fo), fo, newly, overflowed, old(marked), marked) && OneEach(fo) &&
        queue == newly + old(queue)
      ensures |Objects(mem) - old(marked)| <= capacity ==> overflowed == {}
    {
      var overflow := Trace();
      ghost var traced := marked;
      newly := Enqueue();
      overflowed := overflow;
      OutcomeHolds(mem, old(fo), fo, newly, overflowed, old(marked), traced, marked);
    }

    /** The end of a collection.  `traced` is memory as finalizers were traced. */
    method FinalizeAll() returns (ghost newly: seq<Fin>, ghost overflowed: set<Obj>, ghost traced: Memory)
      requires WellFormed(mem) && ClosedUnderPointers(mem, marked) && FinsInHeap(fo, mem) && OneEach(fo)
      requires shortLinks != longLinks && shortLinks.Valid() && longLinks.Valid()
      modifies this, shortLinks, longLinks
      ensures Outcome(traced, old(fo), fo, newly, overflowed, old(marked), marked) && OneEach(fo) &&
        queue == newly + old(queue)
      ensures |Objects(old(mem)) - old(marked)| <= capacity ==> overflowed == {}
      ensures Cleared(old(mem), traced, place, Dead(old(shortLinks.Contents()), old(marked)))
      ensures Cleared(traced, mem, place, Dead(old(longLinks.Contents()), marked))
      ensures shortLinks.Valid() && longLinks.Valid()
      ensures shortLinks.Contents() ==
        old(shortLinks.Contents()) - Dead(old(shortLinks.Contents()), old(marked)) - Dangling(base, marked)
      ensures longLinks.Contents() ==
        old(longLinks.Contents()) - Dead(old(longLinks.Contents()), marked) - Dangling(base, marked)
    {
      MakeLinksDisappear(shortLinks);
      ClearedClosed(old(mem), mem, place, Dead(old(shortLinks.Contents()), marked), marked);
      ClearedHeap(old(mem), mem, place, Dead(old(shortLinks.Contents()), marked), fo);
      traced := mem;
      newly, overflowed := TraceAndEnqueue();
      RemoveDangling(shortLinks);
      MakeLinksDisappear(longLinks);
      RemoveDangling(longLinks);
    }

    /**
     The end of a collection, in terms of links.  A short link is cleared before finalizers are traced, exactly
     if its object was unmarked; a long link after it, exactly if its object is not even marked on behalf of a
     finalizer.  Of either kind, those remain whose object is marked and that are not in an unmarked object.
     */
    method Finalize() returns (ghost newly: seq<Fin>, ghost overflowed: set<Obj>, ghost traced: Memory)
      requires WellFormed(mem) && ClosedUnderPointers(mem, marked) && FinsInHeap(fo, mem) && OneEach(fo)
      requires shortLinks != longLinks && shortLinks.Valid() && longLinks.Valid()
      modifies this, shortLinks, longLinks
      ensures Outcome(traced, old(fo), fo, newly, overflowed, old(marked), marked) && OneEach(fo) &&
        queue == newly + old(queue)
      ensures |Objects(old(mem)) - old(marked)| <= capacity ==> overflowed == {}
      ensures Cleared(old(mem), traced, place, Dead(old(shortLinks.Contents()), old(marked)))
      ensures mem.Keys == old(mem).Keys && forall l :: l in mem ==> |mem[l]| == |old(mem)[l]|
      ensures forall k :: k in old(shortLinks.Contents()) && old(shortLinks.Contents())[k] !in old(marked) ==>
        ReadsNull(k)
      ensures forall k :: k in old(longLinks.Contents()) && old(longLinks.Contents())[k] !in marked ==> ReadsNull(k)
      ensures forall l, i :: l in mem && 0 <= i < |mem[l]| && mem[l][i] != old(mem)[l][i] ==>
        exists k :: k in place && place[k] == Place(l, i) &&
          (k in Dead(old(shortLinks.Contents()), old(marked)) || k in Dead(old(longLinks.Contents()), marked))
      ensures shortLinks.Valid() && longLinks.Valid()
      ensures forall k :: k in shortLinks.Contents() <==>
        && k in old(shortLinks.Contents()) && old(shortLinks.Contents())[k] in old(marked)
        && (k in base ==> base[k] in marked)
      ensures forall k :: k in longLinks.Contents() <==>
        && k in old(longLinks.Contents()) && old(longLinks.Contents())[k] in marked
        && (k in base ==> base[k] in marked)
      ensures forall k :: k in shortLinks.Contents() ==> shortLinks.Contents()[k] == old(shortLinks.Contents())[k]
      ensures forall k :: k in longLinks.Contents() ==> longLinks.Contents()[k] == old(longLinks.Contents())[k]
    {
      newly, overflowed, traced := FinalizeAll();
      ghost var shorts := Dead(old(shortLinks.Contents()), old(marked));
      ghost var longs := Dead(old(longLinks.Contents()), marked);
      ClearedTwice(old(mem), traced, mem, place, shorts, longs);
      ClearedReadsNull(old(mem), shorts + longs);
      ChangedWords(old(mem), mem, place, shorts + longs);
      LinksLeft(old(shortLinks.Contents()), shortLinks.Contents(), base, old(marked), marked);
      LinksLeft(old(longLinks.Contents()), longLinks.Contents(), base, marked, marked);
    }

    method TraceOne(f: Fin, overflowed: set<Obj>, ghost was: set<Obj>) returns (overflowed': set<Obj>)
      requires WellFormed(mem) && ClosedUnderPointers(mem, marked) && f in Fins(fo) && InHeap(f.obj) in mem
      requires was <= marked && Justified(mem, fo, was, marked, overflowed)
      requires overflowed != {} ==> capacity < |Objects(mem) - was|
      modifies `marked
      ensures old(marked) <= marked && ClosedUnderPointers(mem, marked) && Traced(mem, marked, f)
      ensures Justified(mem, fo, was, marked, overflowed')
      ensures overflowed' != {} ==> capacity < |Objects(mem) - was|
    {
      overflowed' := overflowed;
      if f.obj !in marked {
        var o := MarkFo(f);
        if o {
          overflowed' := overflowed + {f.obj};
          SubsetSize(Objects(mem) - old(marked), Objects(mem) - was);
        }
        JustifiedMore(mem, fo, was, old(marked), marked, overflowed, overflowed', f);
      }
    }
  }

  lemma JustifiedMore(mem: Memory, fo: seq<seq<Fin>>, was: set<Obj>, before: set<Obj>, marked: set<Obj>,
                      overflowed: set<Obj>, overflowed': set<Obj>, f: Fin)
    requires Justified(mem, fo, was, before, overflowed) && was <= before <= marked && f in Fins(fo) && f.obj !in before
    requires overflowed' == overflowed || (overflowed' == overflowed + {f.obj} && f.proc != NoOrder && f.obj in marked)
    requires AllLeads(mem, f, marked - before - (if overflowed' == overflowed then {} else {f.obj}))
    ensures Justified(mem, fo, was, marked, overflowed')
  {
    forall x | x in marked && x !in was && x !in overflowed' ensures LedTo(mem, fo, was, x) {
      if x !in before {
        assert LeadsTo(mem, f, x);
      }
    }
  }

  /** What finalization does to the marks and the queue, given memory `mem` without the dead short links. */
  ghost predicate Outcome(mem: Memory, fo0: seq<seq<Fin>>, fo: seq<seq<Fin>>, newly: seq<Fin>, overflowed: set<Obj>,
                          was: set<Obj>, marked: set<Obj>) {
    && Overflows(fo0, was, overflowed)
    // Nothing queued can be reached from an object with a finalizer, by a pointer its mark procedure follows.
    && (forall e, f :: e in newly && f in Fins(fo0) ==> !LeadsTo(mem, f, e.obj))
    // Queued are exactly the unmarked objects for which this holds, apart from mark stack overflows.
    && (forall e :: e in newly <==>
         e in Fins(fo0) && e.obj !in was && e.obj !in overflowed && !LedTo(mem, fo0, was, e.obj))
    && (forall f :: f in Fins(fo) <==> f in Fins(fo0) && f !in newly)
    && (forall a, b :: 0 <= a < b < |newly| ==> newly[a].obj != newly[b].obj)
    // Marked are exactly what was marked, what finalizers lead to, and what has a finalizer.
    && (forall x :: x in marked <==> x in was || LedTo(mem, fo0, was, x) || HasFinalizer(fo0, x))
    // The marks are closed again, but for objects queued regardless of order.
    && (forall o, p :: o in marked && PointsTo(mem, InHeap(o), p) && Fin(o, NoOrder) !in newly ==> p in marked)
  }

  lemma OutcomeHolds(mem: Memory, fo0: seq<seq<Fin>>, fo: seq<seq<Fin>>, newly: seq<Fin>, overflowed: set<Obj>,
                     was: set<Obj>, traced: set<Obj>, marked: set<Obj>)
    requires was <= traced && ClosedUnderPointers(mem, traced)
    requires (forall f :: f in Fins(fo0) ==> Traced(mem, traced, f)) && Justified(mem, fo0, was, traced, overflowed)
    requires Queued(fo0, fo, newly, traced, marked) && forall f :: f in Fins(fo) ==> f.obj in traced
    ensures Outcome(mem, fo0, fo, newly, overflowed, was, marked)
  {
    forall f, x | f in Fins(fo0) && LeadsTo(mem, f, x) ensures x in traced {
      ClosedHoldsLeads(mem, traced, f, x);
    }
    MarkedExactly(mem, fo0, fo, newly, overflowed, was, traced, marked);
    forall o, p | o in marked && PointsTo(mem, InHeap(o), p) && Fin(o, NoOrder) !in newly ensures p in marked {
      if o !in traced {
        var e :| e in newly && e.obj == o;
        assert e in Fins(fo0) && Traced(mem, traced, e);
        assert p != o ==> Pushes(mem, e, p);
      }
    }
  }

  lemma MarkedExactly(mem: Memory, fo0: seq<seq<Fin>>, fo: seq<seq<Fin>>, newly: seq<Fin>, overflowed: set<Obj>,
                      was: set<Obj>, traced: set<Obj>, marked: set<Obj>)
    requires was <= traced && Justified(mem, fo0, was, traced, overflowed)
    requires forall f, x :: f in Fins(fo0) && LeadsTo(mem, f, x) ==> x in traced
    requires Queued(fo0, fo, newly, traced, marked) && forall f :: f in Fins(fo) ==> f.obj in traced
    ensures forall x :: x in marked <==> x in was || LedTo(mem, fo0, was, x) || HasFinalizer(fo0, x)
  {
    forall x | x in marked && x !in was && !LedTo(mem, fo0, was, x) ensures HasFinalizer(fo0, x) {
      if x !in traced {
        var e :| e in newly && e.obj == x;
        assert e in Fins(fo0);
      }
    }
    forall f | f in Fins(fo0) ensures f.obj in marked {
      assert f in newly ==> f.obj in Objs(newly);
    }
  }

  lemma ClosedButPushed(mem: Memory, marked: set<Obj>, grey: seq<Obj>, o: Obj, t: Obj)
    requires ClosedBut(mem, marked, grey + [o])
    ensures ClosedBut(mem, marked + {t}, grey + [t] + [o])
  {
    forall x, p | x in marked + {t} && x !in grey + [t] + [o] && PointsTo(mem, InHeap(x), p) ensures p in marked + {t} {
      assert x == t ==> x in grey + [t] + [o] by {
        assert (grey + [t] + [o])[|grey|] == t;
      }
      assert x !in grey + [o];
    }
  }

  lemma FollowedWord(mem: Memory, o: Obj, ignoreSelf: bool, i: nat)
    requires InHeap(o) in mem && i < |mem[InHeap(o)]| && WellFormed(mem)
    ensures var w := mem[InHeap(o)][i];
      w.To? ==> InHeap(w.obj) in mem && (!(ignoreSelf && w.obj == o) ==> Follows(mem, o, ignoreSelf, w.obj))
  {
    var w := mem[InHeap(o)][i];
    assert w.To? ==> PointsTo(mem, InHeap(o), w.obj);
  }

  /** Completing the marks after an overflow on behalf of `f`: what `f` leads to, besides its object. */
  ghost predicate Completing(mem: Memory, f: Fin, marked: set<Obj>, black: set<Obj>) {
    && black <= marked <= black + Objects(mem) && ClosedUnderPointers(mem, black) &&
       AllLeads(mem, f, marked - black - {f.obj})
    && f.obj in marked && f.proc != NoOrder && Traced(mem, marked, f)
  }

  /** The marks are closed under pointers, except for what is to be scanned. */
  ghost predicate ScannedBut(mem: Memory, marked: set<Obj>, todo: set<Obj>) {
    forall o, p :: o in marked && o !in todo && PointsTo(mem, InHeap(o), p) ==> p in marked
  }

  lemma CompletingMore(mem: Memory, f: Fin, marked: set<Obj>, black: set<Obj>, o: Obj, t: Obj)
    requires Completing(mem, f, marked, black) && WellFormed(mem) && o in marked && PointsTo(mem, InHeap(o), t) &&
      t !in marked
    ensures Completing(mem, f, marked + {t}, black)
  {
    assert o == f.obj ==> Pushes(mem, f, t);
    LeadsFurther(mem, f, o, t);
    assert t in Objects(mem);
  }

  /** An unmarked object need not be scanned. */
  lemma ClosedWithout(mem: Memory, marked: set<Obj>, stack: seq<Obj>, o: Obj)
    requires ClosedBut(mem, marked, stack + [o]) && (o in marked ==> o in stack)
    ensures ClosedBut(mem, marked, stack)
  {
  }

  /** A marked object that is still in the table was marked before. */
  lemma StillThere(fo0: seq<seq<Fin>>, fo: seq<seq<Fin>>, newly: seq<Fin>, was: set<Obj>, marked: set<Obj>, i: nat,
                   j: nat)
    requires Queued(fo0, fo, newly, was, marked) && i < |fo| && j < |fo[i]| && fo[i][j].obj in marked
    ensures fo[i][j].obj in was
  {
    assert fo[i][j] in Fins(fo);
  }

  lemma ScannedAll(mem: Memory, marked: set<Obj>, grey: seq<Obj>, o: Obj)
    requires ClosedBut(mem, marked, grey + [o]) && forall t :: Follows(mem, o, false, t) ==> t in marked
    ensures ClosedBut(mem, marked, grey)
  {
    forall x, p | x in marked && x !in grey && PointsTo(mem, InHeap(x), p) ensures p in marked {
      assert x == o ==> Follows(mem, o, false, p);
      assert x != o ==> x !in grey + [o];
    }
  }

  lemma FewerUnmarked(mem: Memory, before: set<Obj>, after: set<Obj>)
    requires before <= after <= before + Objects(mem)
    ensures before == after || |Objects(mem) - after| < |Objects(mem) - before|
  {
    if before != after {
      var a, b := Objects(mem) - after, Objects(mem) - before;
      var x :| x in after && x !in before;
      assert x in b && x !in a && a <= b - {x};
      SubsetSize(a, b - {x});
    }
  }

  // -------------------------------------------------------------------- theorems

  /** No queued object is reachable by one or more pointers from an object with a normal finalizer, itself included. */
  lemma QueuedInOrder(mem: Memory, fo0: seq<seq<Fin>>, fo: seq<seq<Fin>>, newly: seq<Fin>, overflowed: set<Obj>,
                      was: set<Obj>, marked: set<Obj>, e: Fin, f: Fin, path: seq<Obj>)
    requires Outcome(mem, fo0, fo, newly, overflowed, was, marked)
    requires e in newly && f in Fins(fo0) && f.proc == Normal && |path| >= 2 && path[0] == f.obj && IsPath(mem, path)
    ensures path[|path| - 1] != e.obj
  {
    NormalLeads(mem, f, path);
    assert LeadsTo(mem, f, path[|path| - 1]);
  }

  /** A finalizer without order runs although its object points to something that nothing keeps. */
  ghost predicate Deserts(mem: Memory, fo: seq<seq<Fin>>, was: set<Obj>, e: Fin, p: Obj) {
    && e in Fins(fo) && e.proc == NoOrder && e.obj !in was && !LedTo(mem, fo, was, e.obj)
    && PointsTo(mem, InHeap(e.obj), p) && p !in was && !LedTo(mem, fo, was, p) && !HasFinalizer(fo, p)
  }

  /** A finalizer without order is queued exactly if its object was unmarked and no finalizer leads to it. */
  lemma NoOrderQueued(mem: Memory, fo0: seq<seq<Fin>>, fo: seq<seq<Fin>>, newly: seq<Fin>, overflowed: set<Obj>,
                      was: set<Obj>, marked: set<Obj>, e: Fin)
    requires Outcome(mem, fo0, fo, newly, overflowed, was, marked) && OneEach(fo0) && e in Fins(fo0) &&
      e.proc == NoOrder
    ensures e in newly <==> e.obj !in was && !LedTo(mem, fo0, was, e.obj)
  {
    forall f | f in Fins(fo0) && f.proc != NoOrder ensures f.obj != e.obj {
      SameFinalizer(fo0, e, f);
    }
  }

  lemma SameFinalizer(fo: seq<seq<Fin>>, e: Fin, f: Fin)
    requires OneEach(fo) && e in Fins(fo) && f in Fins(fo)
    ensures e.obj == f.obj ==> e == f
  {
    var i, j :| 0 <= i < |fo| && 0 <= j < |fo[i]| && fo[i][j] == e;
    var m, n :| 0 <= m < |fo| && 0 <= n < |fo[m]| && fo[m][n] == f;
  }

  /** The marks are closed under pointers again exactly if no finalizer without order deserts anything. */
  lemma ClosedAgain(mem: Memory, fo0: seq<seq<Fin>>, fo: seq<seq<Fin>>, newly: seq<Fin>, overflowed: set<Obj>,
                    was: set<Obj>, marked: set<Obj>)
    requires Outcome(mem, fo0, fo, newly, overflowed, was, marked) && OneEach(fo0)
    ensures ClosedUnderPointers(mem, marked) <==> forall e, p :: !Deserts(mem, fo0, was, e, p)
  {
    if ClosedUnderPointers(mem, marked) {
      forall e, p ensures !Deserts(mem, fo0, was, e, p) {
        if Deserts(mem, fo0, was, e, p) {
          assert HasFinalizer(fo0, e.obj);
        }
      }
    } else if o, p :| o in marked && PointsTo(mem, InHeap(o), p) && p !in marked {
      var e := Fin(o, NoOrder);
      assert e in newly && Deserts(mem, fo0, was, e, p);
    }
  }

  /** Then everything that queued objects reach is marked. */
  lemma QueuedReachIsMarked(mem: Memory, fo0: seq<seq<Fin>>, fo: seq<seq<Fin>>, newly: seq<Fin>, overflowed: set<Obj>,
                            was: set<Obj>, marked: set<Obj>, e: Fin, path: seq<Obj>)
    requires Outcome(mem, fo0, fo, newly, overflowed, was, marked) && OneEach(fo0)
    requires forall d, p :: !Deserts(mem, fo0, was, d, p)
    requires e in newly && |path| > 0 && path[0] == e.obj && IsPath(mem, path)
    ensures path[|path| - 1] in marked
  {
    ClosedAgain(mem, fo0, fo, newly, overflowed, was, marked);
    assert HasFinalizer(fo0, e.obj);
    ClosedSetHoldsPath(mem, marked, path);
  }

  lemma NothingCleared(was: Memory, now: Memory, place: map<nat, Place>)
    requires Cleared(was, now, place, {})
    ensures now == was
  {
    forall l | l in was ensures now[l] == was[l] {
    }
  }

  /** An object with a finalizer without order that points to an object without one. */
  function LonelyPair(): (mem: Memory)
    ensures InHeap(1) in mem && InHeap(2) in mem && mem[InHeap(1)] == [To(2)] && mem[InHeap(2)] == []
    ensures forall l :: l in mem ==> l == InHeap(1) || l == InHeap(2)
  {
    map[InHeap(1) := [To(2)], InHeap(2) := []]
  }

  lemma LonelyFacts(fo: seq<seq<Fin>>)
    requires fo == [[Fin(1, NoOrder)]]
    ensures var mem := LonelyPair();
      && WellFormed(mem) && ClosedUnderPointers(mem, {}) && FinsInHeap(fo, mem) && OneEach(fo)
      && PointsTo(mem, InHeap(1), 2) && forall x :: !LedTo(mem, fo, {}, x)
    ensures Fins(fo) == {Fin(1, NoOrder)}
  {
    assert fo[0][0] == Fin(1, NoOrder);
    assert LonelyPair()[InHeap(1)][0] == To(2);
  }

  lemma LonelyOutcome(fo0: seq<seq<Fin>>, fo: seq<seq<Fin>>, newly: seq<Fin>, overflowed: set<Obj>, marked: set<Obj>)
    requires fo0 == [[Fin(1, NoOrder)]] && Outcome(LonelyPair(), fo0, fo, newly, overflowed, {}, marked)
    ensures newly == [Fin(1, NoOrder)] && 1 in marked && 2 !in marked
  {
    LonelyFacts(fo0);
    var f := Fin(1, NoOrder);
    NoOrderQueued(LonelyPair(), fo0, fo, newly, overflowed, {}, marked, f);
    assert HasFinalizer(fo0, 1) && !HasFinalizer(fo0, 2);
    OnlyOne(newly, f);
  }

  lemma OnlyOne(fins: seq<Fin>, f: Fin)
    requires (forall e :: e in fins <==> e == f) && forall a, b :: 0 <= a < b < |fins| ==> fins[a].obj != fins[b].obj
    ensures fins == [f]
  {
    assert f in fins;
    forall i | 0 <= i < |fins| ensures fins[i] == f {
      assert fins[i] in fins;
    }
    assert |fins| <= 1 || fins[0].obj != fins[1].obj;
  }

  /** Finalization of a heap without links in which nothing is marked. */
  method FinalizeUnlinked(mem: Memory, fo: seq<seq<Fin>>)
    returns (fin: Finalizer, ghost newly: seq<Fin>, ghost overflowed: set<Obj>)
    requires WellFormed(mem) && ClosedUnderPointers(mem, {}) && FinsInHeap(fo, mem) && OneEach(fo)
    ensures Outcome(mem, fo, fin.fo, newly, overflowed, {}, fin.marked) && fin.mem == mem && fin.queue == newly
  {
    var shorts := new LinkTable.Table();
    var longs := new LinkTable.Table();
    fin := new Finalizer(mem, {}, fo, map[], map[], shorts, longs, INITIAL_MARK_STACK_SIZE);
    assert Dead(map[], {}) == {};
    ghost var traced;
    newly, overflowed, traced := fin.FinalizeAll();
    assert Dead(map[], fin.marked) == {};
    NothingCleared(mem, traced, map[]);
    NothingCleared(mem, fin.mem, map[]);
  }

  /** A finalizer without order, when the Java rules are off, can leave what its object points to unmarked. */
  method NoOrderLeavesUnmarked() returns (fin: Finalizer)
    ensures PointsTo(fin.mem, InHeap(1), 2) && fin.queue == [Fin(1, NoOrder)] && 1 in fin.marked && 2 !in fin.marked
  {
    var fo: seq<seq<Fin>> := [[Fin(1, NoOrder)]];
    LonelyFacts(fo);
    ghost var newly, overflowed;
    fin, newly, overflowed := FinalizeUnlinked(LonelyPair(), fo);
    LonelyOutcome(fo, fin.fo, newly, overflowed, fin.marked);
  }
}
