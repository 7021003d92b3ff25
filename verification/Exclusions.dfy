/** The sorted table of ranges that are not to be scanned for roots.  Addresses are in bytes. */
module Exclusions {

  datatype Range = Range(start: nat, end: nat)

  predicate Holds(r: Range, a: nat) {
    r.start <= a < r.end
  }

  predicate Overlap(r: Range, s: Range) {
    r.start < s.end && s.start < r.end
  }

  /** Ranges are not empty, do not overlap and are in ascending order. */
  ghost predicate Ordered(t: seq<Range>) {
    && (forall i :: 0 <= i < |t| ==> t[i].start < t[i].end)
    && (forall i, j :: 0 <= i < j < |t| ==> t[i].end <= t[j].start)
  }

  ghost predicate Excluded(t: seq<Range>, a: nat) {
    exists i :: 0 <= i < |t| && Holds(t[i], a)
  }

  /** The index of the first range that ends after `a`; the number of ranges if there is none. */
  ghost predicate FirstEndingAfter(t: seq<Range>, a: nat, k: nat) {
    && k <= |t| && (forall i :: 0 <= i < k ==> t[i].end <= a) && (k < |t| ==> a < t[k].end)
  }

  ghost predicate OverlapsAny(t: seq<Range>, r: Range) {
    exists i :: 0 <= i < |t| && Overlap(t[i], r)
  }

  /** A range starts where `r` ends. */
  ghost predicate Adjoins(t: seq<Range>, r: Range) {
    exists i :: 0 <= i < |t| && t[i].start == r.end
  }

  ghost predicate AnyAfter(t: seq<Range>, r: Range) {
    exists i :: 0 <= i < |t| && r.end < t[i].start
  }

  /** It is enough to look at the first range that ends after the new one starts. */
  lemma OnlyTheFirst(t: seq<Range>, r: Range, k: nat)
    requires Ordered(t) && r.start < r.end && FirstEndingAfter(t, r.start, k)
    ensures OverlapsAny(t, r) <==> k < |t| && t[k].start < r.end
    ensures !OverlapsAny(t, r) ==> (Adjoins(t, r) <==> k < |t| && t[k].start == r.end)
    ensures !OverlapsAny(t, r) && !Adjoins(t, r) ==> (AnyAfter(t, r) <==> k < |t|)
  {
    if k < |t| && t[k].start < r.end {
      assert Overlap(t[k], r);
    }
    forall i | 0 <= i < |t| && (Overlap(t[i], r) || t[i].start >= r.end) ensures k <= i && t[k].start <= t[i].start {
    }
  }

  lemma WidenedExcludes(t: seq<Range>, r: Range, k: nat)
    requires Ordered(t) && r.start < r.end && FirstEndingAfter(t, r.start, k) && k < |t| && t[k].start == r.end
    ensures var t' := t[k := Range(r.start, t[k].end)];
      Ordered(t') && forall a: nat :: Excluded(t', a) <==> Excluded(t, a) || Holds(r, a)
  {
    var t' := t[k := Range(r.start, t[k].end)];
    forall a: nat ensures Excluded(t', a) <==> Excluded(t, a) || Holds(r, a) {
      if Excluded(t, a) {
        var i :| 0 <= i < |t| && Holds(t[i], a);
        assert Holds(t'[i], a);
      }
      if Holds(r, a) {
        assert Holds(t'[k], a);
      }
      if Excluded(t', a) && !Holds(r, a) {
        var i :| 0 <= i < |t'| && Holds(t'[i], a);
        assert Holds(t[i], a);
      }
    }
  }

  function Insert(t: seq<Range>, r: Range, k: nat): seq<Range>
    requires k <= |t|
  {
    t[..k] + [r] + t[k..]
  }

  /** What is at a position after the insertion. */
  lemma InsertAt(t: seq<Range>, r: Range, k: nat, i: nat)
    requires k <= |t| && i <= |t|
    ensures Insert(t, r, k)[i] == if i < k then t[i] else if i == k then r else t[i - 1]
  {
  }

  lemma InsertOrdered(t: seq<Range>, r: Range, k: nat)
    requires Ordered(t) && r.start < r.end && FirstEndingAfter(t, r.start, k) && (k < |t| ==> r.end < t[k].start)
    ensures Ordered(Insert(t, r, k))
  {
    var t' := Insert(t, r, k);
    forall i | 0 <= i < |t'| ensures t'[i].start < t'[i].end {
      InsertAt(t, r, k, i);
    }
    forall i, j | 0 <= i < j < |t'| ensures t'[i].end <= t'[j].start {
      InsertAt(t, r, k, i);
      InsertAt(t, r, k, j);
    }
  }

  lemma InsertExcludes(t: seq<Range>, r: Range, k: nat, a: nat)
    requires k <= |t|
    ensures Excluded(Insert(t, r, k), a) <==> Excluded(t, a) || Holds(r, a)
  {
    var t' := Insert(t, r, k);
    InsertAt(t, r, k, k);
    if Excluded(t, a) {
      var i :| 0 <= i < |t| && Holds(t[i], a);
      InsertAt(t, r, k, if i < k then i else i + 1);
      assert Holds(t'[if i < k then i else i + 1], a);
    }
    if Holds(r, a) {
      assert Holds(t'[k], a);
    }
    if Excluded(t', a) && !Holds(r, a) {
      var i :| 0 <= i < |t'| && Holds(t'[i], a);
      InsertAt(t, r, k, i);
    }
  }

  datatype Result = Added | Widened | Overlapping | TooMany | PastTheEnd

  class Table {
    const ranges: array<Range>
    var entries: nat

    ghost predicate Valid()
      reads this, ranges
    {
      entries <= ranges.Length && Ordered(ranges[..entries])
    }

    constructor (size: nat)
      ensures Valid() && fresh(ranges) && ranges.Length == size && entries == 0
    {
      ranges := new Range[size](_ => Range(0, 0));
      entries := 0;
    }

    /** Binary search for the first range that ends after `a`. */
    method NextExclusion(a: nat) returns (k: nat)
      requires Valid() && entries > 0
      ensures FirstEndingAfter(ranges[..entries], a, k)
    {
      var low, high := 0, entries - 1;
      while high > low
        invariant low <= high < entries
        invariant forall i :: 0 <= i < low ==> ranges[i].end <= a
        invariant forall i :: high < i < entries ==> a < ranges[i].end || high == entries - 1
        invariant high < entries - 1 ==> a < ranges[high].end
      {
        var mid := (low + high) / 2;
        if ranges[mid].end <= a {
          assert forall i :: 0 <= i < mid ==> ranges[..entries][i].end <= ranges[..entries][mid].start;
          low := mid + 1;
        } else {
          high := mid;
        }
      }
      if ranges[low].end <= a {
        return entries;
      }
      return low;
    }

    /** Make room for a range at position `k`. */
    method ShiftUp(k: nat)
      requires k <= entries < ranges.Length
      modifies ranges
      ensures ranges[..k] == old(ranges[..k]) && ranges[k + 1..entries + 1] == old(ranges[k..entries])
    {
      var i := entries;
      while i > k
        invariant k <= i <= entries
        invariant forall j :: 0 <= j < i ==> ranges[j] == old(ranges[j])
        invariant forall j :: i < j <= entries ==> ranges[j] == old(ranges[j - 1])
      {
        ranges[i] := ranges[i - 1];
        i := i - 1;
      }
    }

    /**
     Exclude a range.  The failures abort the program, except that a full table is noticed only after
     the ranges beyond the new one have been moved up by one, past the end of the table.
     */
    method Exclude(r: Range) returns (res: Result)
      requires Valid() && r.start < r.end
      modifies this, ranges
      ensures var t := old(ranges[..entries]);
        && (res == Overlapping <==> OverlapsAny(t, r))
        && (res == Widened <==> !OverlapsAny(t, r) && Adjoins(t, r))
        && (res == PastTheEnd <==> !OverlapsAny(t, r) && !Adjoins(t, r) && |t| == ranges.Length && AnyAfter(t, r))
        && (res == TooMany <==> !OverlapsAny(t, r) && !Adjoins(t, r) && |t| == ranges.Length && !AnyAfter(t, r))
      ensures res == Added || res == Widened ==>
        Valid() && forall a: nat :: Excluded(ranges[..entries], a) <==>
          Excluded(old(ranges[..entries]), a) || Holds(r, a)
      ensures res == Added ==>
        exists k :: FirstEndingAfter(old(ranges[..entries]), r.start, k) &&
          ranges[..entries] == Insert(old(ranges[..entries]), r, k)
    {
      ghost var t := ranges[..entries];
      var next := entries;
      if entries != 0 {
        next := NextExclusion(r.start);
      }
      OnlyTheFirst(t, r, next);
      if next < entries {
        if ranges[next].start < r.end {
          return Overlapping;
        }
        if ranges[next].start == r.end {
          WidenedExcludes(t, r, next);
          ranges[next] := Range(r.start, ranges[next].end);
          assert ranges[..entries] == t[next := Range(r.start, t[next].end)];
          return Widened;
        }
        if entries == ranges.Length {
          return PastTheEnd;
        }
      }
      if entries == ranges.Length {
        return TooMany;
      }
      InsertOrdered(t, r, next);
      forall a: nat ensures Excluded(Insert(t, r, next), a) <==> Excluded(t, a) || Holds(r, a) {
        InsertExcludes(t, r, next, a);
      }
      AddAt(r, next);
      return Added;
    }

    method AddAt(r: Range, k: nat)
      requires k <= entries < ranges.Length
      modifies this, ranges
      ensures entries == old(entries) + 1 && ranges[..entries] == Insert(old(ranges[..entries]), r, k)
    {
      ShiftUp(k);
      ranges[k] := r;
      assert ranges[k + 1..entries + 1] == old(ranges[..entries])[k..];
      entries := entries + 1;
      assert ranges[..entries] == ranges[..k] + [ranges[k]] + ranges[k + 1..entries];
    }

    /** The parts of `[bottom, top)` that are pushed: what is not excluded. */
    method PushConditional(bottom: nat, top: nat) returns (pushed: seq<Range>)
      requires Valid() && entries > 0
      ensures Ordered(pushed)
      ensures forall a: nat :: Excluded(pushed, a) <==> bottom <= a < top && !Excluded(ranges[..entries], a)
    {
      pushed := [];
      var b := bottom;
      while b < top
        invariant bottom <= b && Ordered(pushed) && Below(pushed, b)
        invariant forall a: nat :: Excluded(pushed, a) <==>
          bottom <= a < b && a < top && !Excluded(ranges[..entries], a)
        decreases top - b
      {
        var next := NextExclusion(b);
        if next == entries || ranges[next].start >= top {
          FreeUpTo(ranges[..entries], b, next, top);
          pushed := Push(pushed, Range(b, top), b);
          return;
        }
        var end := ranges[next].end;
        if ranges[next].start > b {
          FreeUpTo(ranges[..entries], b, next, ranges[next].start);
          pushed := Push(pushed, Range(b, ranges[next].start), b);
        }
        b := end;
      }
    }
  }

  /** The ranges end at or before `b`. */
  ghost predicate Below(t: seq<Range>, b: nat) {
    forall i :: 0 <= i < |t| ==> t[i].end <= b
  }

  method Push(t: seq<Range>, r: Range, b: nat) returns (t': seq<Range>)
    requires Ordered(t) && Below(t, b) && r.start == b < r.end
    ensures Ordered(t') && Below(t', r.end) && forall a: nat :: Excluded(t', a) <==> Excluded(t, a) || Holds(r, a)
  {
    t' := t + [r];
    forall a: nat ensures Excluded(t', a) <==> Excluded(t, a) || Holds(r, a) {
      InsertExcludes(t, r, |t|, a);
      assert Insert(t, r, |t|) == t';
    }
  }

  /** Nothing is excluded from `b` up to the start of the first range that ends after `b`. */
  lemma FreeUpTo(t: seq<Range>, b: nat, k: nat, top: nat)
    requires Ordered(t) && FirstEndingAfter(t, b, k) && (k < |t| ==> top <= t[k].start)
    ensures forall a :: b <= a < top ==> !Excluded(t, a)
  {
  }

  /** Ranges of eight bytes, far apart. */
  function Nth(i: nat): Range {
    Range(32 * i + 64, 32 * i + 72)
  }

  ghost predicate FilledUp(t: seq<Range>) {
    forall i :: 0 <= i < |t| ==> t[i] == Nth(i)
  }

  lemma NextIsAdded(t: seq<Range>)
    requires FilledUp(t)
    ensures !OverlapsAny(t, Nth(|t|)) && !Adjoins(t, Nth(|t|))
    ensures forall k: nat :: FirstEndingAfter(t, Nth(|t|).start, k) ==> k == |t|
  {
  }

  lemma FirstIsBelow(t: seq<Range>)
    requires FilledUp(t) && |t| > 0
    ensures !OverlapsAny(t, Range(16, 24)) && !Adjoins(t, Range(16, 24)) && AnyAfter(t, Range(16, 24))
  {
    assert t[0] == Nth(0);
  }

  /** A table of any size, filled up, and then a range below its first entry: the table is written past its end. */
  method FillingUp(size: nat) returns (table: Table, res: Result)
    requires size > 0
    ensures table.ranges.Length == size && res == PastTheEnd
  {
    table := new Table(size);
    while table.entries < size
      invariant table.Valid() && table.ranges.Length == size && fresh(table) && fresh(table.ranges)
      invariant FilledUp(table.ranges[..table.entries])
      decreases size - table.entries
    {
      ghost var t := table.ranges[..table.entries];
      NextIsAdded(t);
      res := table.Exclude(Nth(table.entries));
      assert res == Added;
    }
    FirstIsBelow(table.ranges[..table.entries]);
    res := table.Exclude(Range(16, 24));
  }
}
