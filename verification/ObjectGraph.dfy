/**
 The object graph as the marker sees it: memory areas holding words, each word
 either not a pointer or resolved to the object it points into.
 */
module ObjectGraph {

  type Obj = nat

  datatype Ref = Null | To(obj: Obj)

  /** A heap object or a root area (static data, a stack, registers). */
  datatype Loc = InHeap(obj: Obj) | InRoot(area: nat)

  type Memory = map<Loc, seq<Ref>>

  ghost predicate PointsTo(mem: Memory, l: Loc, o: Obj) {
    l in mem && To(o) in mem[l]
  }

  /** Consecutive objects of a path are joined by a pointer. */
  ghost predicate IsPath(mem: Memory, path: seq<Obj>) {
    forall i :: 0 <= i < |path| - 1 ==> PointsTo(mem, InHeap(path[i]), path[i + 1])
  }

  ghost predicate IsRootTarget(mem: Memory, o: Obj) {
    exists r :: PointsTo(mem, InRoot(r), o)
  }

  ghost predicate Reachable(mem: Memory, o: Obj) {
    exists path: seq<Obj> ::
      |path| > 0 && IsRootTarget(mem, path[0]) && IsPath(mem, path) && path[|path| - 1] == o
  }

  ghost predicate ClosedUnderPointers(mem: Memory, marked: set<Obj>) {
    forall o, p :: o in marked && PointsTo(mem, InHeap(o), p) ==> p in marked
  }

  ghost predicate ContainsRootTargets(mem: Memory, marked: set<Obj>) {
    forall o :: IsRootTarget(mem, o) ==> o in marked
  }

  /** The marks hold everything the roots point to and are closed under pointers. */
  ghost predicate MarksComplete(mem: Memory, marked: set<Obj>) {
    ContainsRootTargets(mem, marked) && ClosedUnderPointers(mem, marked)
  }

  /** A pointer-closed set that holds the head of a path holds its end. */
  lemma {:induction false} ClosedSetHoldsPath(mem: Memory, marked: set<Obj>, path: seq<Obj>)
    requires ClosedUnderPointers(mem, marked) && IsPath(mem, path)
    requires |path| > 0 && path[0] in marked
    ensures path[|path| - 1] in marked
  {
    if |path| > 1 {
      var rest := path[1..];
      assert PointsTo(mem, InHeap(path[0]), path[1]);
      forall i | 0 <= i < |rest| - 1 ensures PointsTo(mem, InHeap(rest[i]), rest[i + 1]) {
        assert PointsTo(mem, InHeap(path[i + 1]), path[i + 2]);
      }
      ClosedSetHoldsPath(mem, marked, rest);
    }
  }

  lemma {:induction false} SubsetSize<T>(a: set<T>, b: set<T>)
    requires a <= b
    ensures |a| <= |b|
  {
    if a != {} {
      var x :| x in a;
      SubsetSize(a - {x}, b - {x});
    }
  }

  lemma ClosedSetHoldsReachable(mem: Memory, marked: set<Obj>)
    requires MarksComplete(mem, marked)
    ensures forall o :: Reachable(mem, o) ==> o in marked
  {
    forall o | Reachable(mem, o) ensures o in marked {
      var path: seq<Obj> :| |path| > 0 && IsRootTarget(mem, path[0]) && IsPath(mem, path) && path[|path| - 1] == o;
      ClosedSetHoldsPath(mem, marked, path);
    }
  }
}
