/**
 A fault in the midst of marking that loses an object.  It strikes while the first stacks are
 scanned: objects have been marked, but that is not on record yet, so that after the fault their
 contents are never looked at.
 */
module MarkFault {
  import opened Config
  import opened ObjectGraph
  import opened MarkModel
  import opened MarkSafety

  /** Object 1 is on a stack and points to object 2. */
  function TwoObjects(): Heap {
    Heap(map[0 := Block(Normal, 1, [1, 2])], map[1 := 0, 2 := 0],
         map[InHeap(1) := [To(2)], InHeap(2) := [Null], InRoot(0) := [To(1)]])
  }

  function Sample(marked: set<Obj>, stack: seq<Entry>, cursor: Cursor, phase: Phase, objectsMarked: bool, pushing: bool,
                  rootsTodo: set<nat>, stopped: bool): State {
    State(false, TwoObjects(), marked, stack, INITIAL_MARK_STACK_SIZE, false, cursor, phase, 0, objectsMarked, pushing,
          rootsTodo, {}, {}, stopped)
  }

  function Start(): State {
    Sample({}, [], Idle, None, false, false, {}, false)
  }

  function Stopped(marked: set<Obj>, phase: Phase): State {
    Sample(marked, [], Idle, phase, false, false, {}, true)
  }

  /** The state in which the fault strikes. */
  function Struck(): State {
    Sample({1}, [Entry(InHeap(1), 0, 1)], Scanning(InRoot(0), 1, 1, Null), PushUncollectable, false, true, {}, true)
  }

  function Finished(): State {
    Sample({1}, [], Idle, None, true, false, {}, true)
  }

  lemma HeapIsWellFormed()
    ensures HeapWellFormed(TwoObjects())
  {
    HomesAre();
    ContentsAre();
    assert MAX_BLOCK_OBJS >= 2;
  }

  lemma HomesAre()
    ensures HomesOk(TwoObjects())
  {
    var objs := TwoObjects().blocks[0].objs;
    assert objs[0] == 1 && objs[1] == 2;
  }

  lemma ContentsAre()
    ensures ContentsOk(TwoObjects())
  {
  }

  lemma HeapFacts()
    ensures var mem := TwoObjects().mem;
      Roots(mem) == {0} && PointsTo(mem, InRoot(0), 1) && PointsTo(mem, InHeap(1), 2)
  {
    var mem := TwoObjects().mem;
    assert mem[InRoot(0)][0] == To(1) && mem[InHeap(1)][0] == To(2);
    assert InRoot(0) in mem;
  }

  lemma Then(s: State, step: Step, t: State, rest: seq<Step>, u: State)
    requires Enabled(s, step) && Apply(s, step) == t && Runs(t, rest, u)
    ensures Runs(s, [step] + rest, u)
  {
    assert ([step] + rest)[1..] == rest;
    assert Leads(s, step, t);
  }

  /** The first stop of the world, up to the roots. */
  lemma StopsWorld()
    ensures Runs(Start(), [ClearMarks] + ([StartStop] + []), Stopped({}, Invalid))
  {
    var cleared := Sample({}, [], Idle, Invalid, false, false, {}, false);
    assert Apply(Start(), ClearMarks) == cleared by {
      assert (set o | o in {} && InUncollectable(TwoObjects(), o)) == {};
    }
    Then(cleared, StartStop, Stopped({}, Invalid), [], Stopped({}, Invalid));
    Then(Start(), ClearMarks, cleared, [StartStop] + [], Stopped({}, Invalid));
  }

  /** From a stop with marks that are not on record to the scan of the stack. */
  lemma ReachesRoots(marked: set<Obj>)
    ensures Runs(Stopped(marked, Invalid), [GoUncollectable] + ([ScanEnd] + ([RootEager(0)] + [])),
                 Sample(marked, [], Scanning(InRoot(0), 0, 1, Null), PushUncollectable, false, true, {}, true))
  {
    HeapFacts();
    var pushing := Sample(marked, [], Idle, PushUncollectable, false, true, {0}, true);
    var scanning := Sample(marked, [], Scanning(InRoot(0), 0, 1, Null), PushUncollectable, false, true, {}, true);
    assert {0} - {0} == {};
    Then(pushing, RootEager(0), scanning, [], scanning);
    Then(Stopped(marked, PushUncollectable), ScanEnd, pushing, [RootEager(0)] + [], scanning);
    Then(Stopped(marked, Invalid), GoUncollectable, Stopped(marked, PushUncollectable),
      [ScanEnd] + ([RootEager(0)] + []), scanning);
  }

  lemma IsStruck()
    ensures Runs(Sample({}, [], Scanning(InRoot(0), 0, 1, Null), PushUncollectable, false, true, {}, true),
      [ScanNext] + [], Struck())
  {
    var scanning := Sample({}, [], Scanning(InRoot(0), 0, 1, Null), PushUncollectable, false, true, {}, true);
    assert {} + {1} == {1};
    assert [] + [Entry(InHeap(1), 0, 1)] == [Entry(InHeap(1), 0, 1)];
    Then(scanning, ScanNext, Struck(), [], Struck());
  }

  /** After the fault, object 1 is found marked and passed over. */
  lemma PassesOver()
    ensures Runs(Sample({1}, [], Scanning(InRoot(0), 0, 1, Null), PushUncollectable, false, true, {}, true),
                 [ScanNext] + ([ScanHeld] + ([EndRoots] + ([Finish(false)] + []))), Finished())
  {
    var scanning := Sample({1}, [], Scanning(InRoot(0), 0, 1, Null), PushUncollectable, false, true, {}, true);
    var scanned := Sample({1}, [], Scanning(InRoot(0), 1, 1, Null), PushUncollectable, false, true, {}, true);
    var idle := Sample({1}, [], Idle, PushUncollectable, false, true, {}, true);
    var pushed := Sample({1}, [], Idle, RootsPushed, true, false, {}, true);
    Then(pushed, Finish(false), Finished(), [], Finished());
    Then(idle, EndRoots, pushed, [Finish(false)] + [], Finished());
    Then(scanned, ScanHeld, idle, [EndRoots] + ([Finish(false)] + []), Finished());
    Then(scanning, ScanNext, scanned, [ScanHeld] + ([EndRoots] + ([Finish(false)] + [])), Finished());
  }

  /** Object 2 is reachable and unmarked when the stopped mark is complete. */
  lemma LosesObject()
    ensures Enabled(Finished(), FinishStop) && Reachable(Finished().heap.mem, 2) && 2 !in Finished().marked
  {
    HeapFacts();
    var path := [1, 2];
    assert IsPath(TwoObjects().mem, path) && IsRootTarget(TwoObjects().mem, path[0]);
  }

  /**
   A run into a state in which the marks made so far are not on record; a fault there, recovered
   from as usual; and a run from there to the end of the stopped mark, with a reachable object unmarked.
   */
  lemma FaultLosesObject() returns (before: seq<Step>, struck: State, after: seq<Step>, end: State)
    ensures Initial(Start()) && Runs(Start(), before, struck) && MarkerRuns(struck) && !Recoverable(struck)
    ensures Runs(Recovered(struck), after, end) && Enabled(end, FinishStop)
    ensures exists o :: Reachable(end.heap.mem, o) && o !in end.marked
  {
    HeapIsWellFormed();
    StopsWorld();
    ReachesRoots({});
    IsStruck();
    var scanning := Sample({}, [], Scanning(InRoot(0), 0, 1, Null), PushUncollectable, false, true, {}, true);
    var first, second := [ClearMarks] + ([StartStop] + []), [GoUncollectable] + ([ScanEnd] + ([RootEager(0)] + []));
    RunsAppend(Start(), first, Stopped({}, Invalid), second, scanning);
    RunsAppend(Start(), first + second, scanning, [ScanNext] + [], Struck());
    before, struck := first + second + ([ScanNext] + []), Struck();
    ReachesRoots({1});
    PassesOver();
    var again := Sample({1}, [], Scanning(InRoot(0), 0, 1, Null), PushUncollectable, false, true, {}, true);
    var third := [ScanNext] + ([ScanHeld] + ([EndRoots] + ([Finish(false)] + [])));
    assert Recovered(Struck()) == Stopped({1}, Invalid);
    RunsAppend(Stopped({1}, Invalid), second, again, third, Finished());
    after, end := second + third, Finished();
    LosesObject();
    assert 1 in struck.marked && !InUncollectable(TwoObjects(), 1);
  }
}
