/** The collection driver: when marking is started, continued, abandoned and finished. */
module CollectionDriver {
  import opened ObjectGraph
  import opened MarkModel
  import opened MarkProgress
  import opened MarkExact
  import opened Marker

  /** Calls of the marker per unit of collection work. */
  const GC_RATE := 10
  /** Attempts to finish with the world stopped that may be given up. */
  const MAX_PRIOR_ATTEMPTS := 1

  class Driver {
    const gc: Collector
    const dontGc: bool
    const timeLimited: bool
    const fullFreq: nat
    var attempts: nat
    var isFullGc: bool
    var needFullGc: bool
    var partialGcs: nat
    var deficit: nat

    constructor (gc: Collector, dontGc: bool, timeLimited: bool, fullFreq: nat)
      requires gc.Resting() && gc.phase == Phase.None
      ensures Valid() && this.gc == gc
    {
      this.gc, this.dontGc, this.timeLimited, this.fullFreq := gc, dontGc, timeLimited, fullFreq;
      attempts, isFullGc, needFullGc, partialGcs, deficit := 0, false, false, 0, 0;
    }

    /** Between calls.  Without incremental collection no mark phase is left half done, except as invalid. */
    ghost predicate Valid()
      reads this, gc
    {
      gc.Resting() && (!gc.incremental ==> gc.phase == Phase.None || gc.phase == Invalid)
    }

    ghost predicate InProgress()
      reads this, gc
    {
      gc.phase != Phase.None
    }

    ghost function AttemptsLeft(): nat
      reads this
    {
      if attempts < MAX_PRIOR_ATTEMPTS then MAX_PRIOR_ATTEMPTS - attempts else 0
    }

    /** Everything reachable is marked, so that the sweep frees garbage only. */
    ghost predicate SafeToSweep()
      reads this, gc
    {
      gc.phase == Phase.None && forall o :: Reachable(gc.heap.mem, o) ==> o in gc.marked
    }

    method FinishCollection()
      modifies this`attempts, this`isFullGc, this`needFullGc
      ensures attempts == 0 && !isFullGc && (old(isFullGc) ==> !needFullGc)
    {
      needFullGc := *;
      if isFullGc {
        needFullGc := false;
      }
      attempts, isFullGc := 0, false;
    }

    /** A background mark phase has ended: try to finish with the world stopped. */
    method TryToFinish(timeout: nat) returns (r: Outcome)
      requires Valid() && gc.incremental && gc.phase == Phase.None
      modifies this, gc
      ensures r != Aborted ==> Valid() && gc.heap == old(gc.heap)
      ensures r == Done ==> SafeToSweep() && attempts == 0
      ensures r == Done ==> MarkedExactly(gc.heap.mem, gc.marked, old(gc.marked))
      ensures r == More ==> InProgress() && AttemptsLeft() < old(AttemptsLeft())
      ensures r == More ==> attempts == old(attempts) + 1 && deficit == timeout
      ensures RootsFit(old(gc.heap).mem, gc.eager) ==> r != Aborted
      ensures var timed := old(attempts) < MAX_PRIOR_ATTEMPTS && timeLimited;
        (r == More ==> timed) && (timed && timeout == 0 ==> r == More)
    {
      IdleWhenDone(gc.Snap());
      var timed := attempts < MAX_PRIOR_ATTEMPTS && timeLimited;
      var calls;
      r, calls := gc.StoppedMark(if timed then After(timeout) else Never);
      if r == More {
        deficit := calls;
        attempts := attempts + 1;
      } else if r == Done {
        FinishCollection();
      }
    }

    /**
     Up to `n` units of background marking.  Afterwards the collection is finished, or an
     attempt to finish it has been used up, or marking is closer to its end, or the credit
     left by an abandoned attempt has shrunk.
     */
    method ContinueCollection(n: nat, timeout: nat) returns (r: Outcome)
      requires Valid() && gc.incremental && InProgress() && n > 0
      modifies this, gc
      ensures r != Aborted ==> Valid() && gc.heap == old(gc.heap)
      ensures r == Done ==> SafeToSweep() && attempts == 0
      ensures r == More ==> InProgress()
      ensures r == More ==>
        || AttemptsLeft() < old(AttemptsLeft())
        || (AttemptsLeft() == old(AttemptsLeft()) && Closer(gc.Snap(), old(gc.Snap())))
        || (AttemptsLeft() == old(AttemptsLeft()) && gc.Snap() == old(gc.Snap()) && deficit < old(deficit))
      ensures r == More && attempts == old(attempts) ==>
        deficit == if old(deficit) < GC_RATE * n then 0 else old(deficit) - GC_RATE * n
      ensures RootsFit(old(gc.heap).mem, gc.eager) ==> r != Aborted
    {
      ghost var start := gc.Snap();
      var i := deficit;
      r := More;
      while i < GC_RATE * n && r == More
        invariant Valid() && InProgress() && r == More && gc.heap == start.heap
        invariant attempts == old(attempts) && deficit == old(deficit) && i >= deficit
        invariant if i == deficit then gc.Snap() == start else Closer(gc.Snap(), start)
        decreases GC_RATE * n - i
      {
        ghost var before := gc.Snap();
        var m := gc.MarkSome();
        MarkerRunFrame(before, gc.Snap());
        if m == Aborted {
          return Aborted;
        }
        if m == Done {
          IdleWhenDone(gc.Snap());
          r := TryToFinish(timeout);
          break;
        }
        i := i + 1;
      }
      if deficit > 0 {
        deficit := if deficit < GC_RATE * n then 0 else deficit - GC_RATE * n;
      }
    }

    /** Finish a collection in progress.  This ends unless the mutator runs in between. */
    method FinishInProgress(stop: StopFunc, timeout: nat) returns (r: Outcome, left: StopFunc)
      requires Valid() && gc.incremental
      modifies this, gc
      ensures r != Aborted ==> Valid() && gc.heap == old(gc.heap)
      ensures r == Done ==> gc.phase == Phase.None && (stop.Never? ==> left.Never?)
      ensures old(gc.phase) == Phase.None ==> r == Done && left == stop && gc.Snap() == old(gc.Snap())
      ensures r == More ==> stop.After?
      ensures RootsFit(old(gc.heap).mem, gc.eager) ==> r != Aborted
    {
      r, left := Done, stop;
      while gc.phase != Phase.None
        invariant Valid() && r == Done && gc.heap == old(gc.heap) && (stop.Never? <==> left.Never?)
        invariant old(gc.phase) == Phase.None ==> left == stop && gc.Snap() == old(gc.Snap())
        decreases gc.phase != Phase.None, AttemptsLeft(), Unmarked(gc.Snap()), Rank(gc.Snap()), BlocksAhead(gc.Snap()),
          StackWork(gc.stack), deficit
      {
        if left == After(0) {
          return More, left;
        }
        left := if left.After? then After(left.polls - 1) else Never;
        var c := ContinueCollection(1, timeout);
        if c == Aborted {
          return Aborted, left;
        }
      }
    }

    /** Clear all marks and mark anew with the world stopped. */
    method FullStoppedMark(stop: StopFunc) returns (r: Outcome)
      requires Valid() && (gc.incremental ==> gc.phase == Phase.None)
      modifies this, gc
      ensures r != Aborted ==> Valid() && gc.heap == old(gc.heap)
      ensures r == Done ==> SafeToSweep()
      ensures r == More ==> stop.After?
      ensures RootsFit(old(gc.heap).mem, gc.eager) ==> r != Aborted
      ensures r == Done ==> MarkedExactly(gc.heap.mem, gc.marked, Permanent(old(gc.heap), old(gc.marked)))
      ensures stop == After(0) ==> r == More
    {
      gc.InvalidateMarkState();
      gc.ClearMarks();
      assert gc.marked == Permanent(old(gc.heap), old(gc.marked));
      isFullGc := true;
      var calls;
      r, calls := gc.StoppedMark(stop);
      if r == More {
        deficit := calls;
        if !gc.incremental {
          gc.InvalidateMarkState();
        }
      } else if r == Done {
        FinishCollection();
      }
    }

    /**
     A full collection with the world stopped.  `Done` is returned only when everything
     reachable is marked.  A collection in progress is finished first.
     */
    method TryToCollect(stop: StopFunc, timeout: nat) returns (r: Outcome)
      requires Valid()
      modifies this, gc
      ensures r != Aborted ==> Valid() && gc.heap == old(gc.heap)
      ensures r == Done ==> SafeToSweep()
      ensures r == More && !dontGc ==> stop.After?
      ensures dontGc || stop == After(0) ==> r == More && gc.Snap() == old(gc.Snap())
      ensures r == Done && (!gc.incremental || old(gc.phase) == Phase.None) ==>
        MarkedExactly(gc.heap.mem, gc.marked, Permanent(old(gc.heap), old(gc.marked)))
      ensures RootsFit(old(gc.heap).mem, gc.eager) ==> r != Aborted
    {
      if dontGc || stop == After(0) {
        return More;
      }
      var left := stop;
      if gc.incremental {
        r, left := FinishInProgress(stop, timeout);
        if r != Done {
          return;
        }
      }
      r := FullStoppedMark(left);
    }

    /** Is the collection to be started a full one? */
    ghost predicate FullIsDue()
      reads this, gc
    {
      !gc.incremental || needFullGc || partialGcs >= fullFreq
    }

    /** Start a collection if one is due: full or partial, and at first with the world stopped. */
    method MaybeGc(shouldCollect: bool, timeout: nat) returns (r: Outcome)
      requires Valid() && (gc.incremental ==> gc.phase == Phase.None)
      modifies this, gc
      ensures r != Aborted ==> Valid() && gc.heap == old(gc.heap)
      ensures RootsFit(old(gc.heap).mem, gc.eager) ==> r != Aborted
      ensures !shouldCollect ==> r == More && gc.Snap() == old(gc.Snap()) && partialGcs == old(partialGcs)
      ensures shouldCollect && r == More ==> if gc.incremental then timeLimited && InProgress() else dontGc
      ensures gc.incremental && timeLimited && timeout == 0 ==> r == More
      ensures !gc.incremental && dontGc ==> r == More && gc.Snap() == old(gc.Snap())
      ensures r == Done ==> SafeToSweep()
      ensures r == Done ==> MarkedExactly(gc.heap.mem, gc.marked,
        if old(FullIsDue()) then Permanent(old(gc.heap), old(gc.marked)) else old(gc.marked))
      ensures shouldCollect && r != Aborted ==> partialGcs == if old(FullIsDue()) then 0 else old(partialGcs) + 1
      ensures shouldCollect && r == More && gc.incremental ==> deficit == timeout
      ensures shouldCollect && r == More && gc.incremental ==>
        attempts == if old(FullIsDue()) || old(isFullGc) then old(attempts) else old(attempts) + 1
    {
      r := More;
      if !shouldCollect {
        return;
      }
      if !gc.incremental {
        r := TryToCollect(Never, timeout);
        partialGcs := 0;
        return;
      }
      IdleWhenDone(gc.Snap());
      if needFullGc || partialGcs >= fullFreq {
        gc.ClearMarks();
        assert gc.marked == Permanent(old(gc.heap), old(gc.marked));
        partialGcs, isFullGc := 0, true;
      } else {
        partialGcs := partialGcs + 1;
      }
      var calls;
      r, calls := gc.StoppedMark(if timeLimited then After(timeout) else Never);
      if r == Done {
        FinishCollection();
      } else if r == More {
        deficit := calls;
        if !isFullGc {
          attempts := attempts + 1;
        }
      }
    }

    /** The share of collection work done on behalf of an allocation. */
    method CollectALittle(n: nat, shouldCollect: bool, timeout: nat) returns (r: Outcome)
      requires Valid() && n > 0
      modifies this, gc
      ensures r != Aborted ==> Valid() && gc.heap == old(gc.heap)
      ensures r == Done ==> SafeToSweep()
      ensures RootsFit(old(gc.heap).mem, gc.eager) ==> r != Aborted
      ensures dontGc ==> r == More && gc.Snap() == old(gc.Snap())
      ensures var busy := gc.incremental && old(gc.phase) != Phase.None;
        && (!dontGc && busy && r == More ==>
              || AttemptsLeft() < old(AttemptsLeft())
              || (AttemptsLeft() == old(AttemptsLeft()) && Closer(gc.Snap(), old(gc.Snap())))
              || (AttemptsLeft() == old(AttemptsLeft()) && gc.Snap() == old(gc.Snap()) && deficit < old(deficit)))
        && (!dontGc && !busy && !shouldCollect ==> r == More && gc.Snap() == old(gc.Snap()))
        && (!dontGc && !busy && shouldCollect && r == More ==> gc.incremental && timeLimited && InProgress())
        && (!busy && r == Done ==> MarkedExactly(gc.heap.mem, gc.marked,
              if old(FullIsDue()) then Permanent(old(gc.heap), old(gc.marked)) else old(gc.marked)))
    {
      r := More;
      if dontGc {
        return;
      }
      if gc.incremental && gc.phase != Phase.None {
        r := ContinueCollection(n, timeout);
      } else {
        r := MaybeGc(shouldCollect, timeout);
      }
    }
  }

  /** Marked is what the objects in `kept` and the roots lead to, and nothing else. */
  ghost predicate MarkedExactly(mem: Memory, marked: set<Obj>, kept: set<Obj>) {
    forall o :: o in marked <==> Live(mem, kept, o)
  }

  /** The marks that a full collection starts from. */
  ghost function Permanent(h: Heap, marked: set<Obj>): set<Obj> {
    set o | o in marked && o in h.home && h.home[o] in h.blocks &&
      (h.blocks[h.home[o]].kind == Uncollectable || h.blocks[h.home[o]].kind == AtomicUncollectable)
  }
}
