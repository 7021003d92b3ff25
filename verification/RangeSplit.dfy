/**
 Scanning address ranges for pointers: the marker cuts long ranges into pieces and puts the
 remainders back on its stack.  Addresses and sizes are in bytes.
 */
module RangeSplit {
  import opened Config
  import opened Division

  datatype Entry = Entry(start: nat, len: nat)

  /** The addresses from `cur` to `limit`, both included, in steps of the alignment. */
  ghost function Positions(cur: nat, limit: int): (r: set<nat>)
    ensures forall p :: p in r ==> cur <= p <= limit
    decreases limit - cur
  {
    if limit < cur then {} else {cur} + Positions(cur + ALIGNMENT, limit)
  }

  /** The addresses of the aligned words that lie in a range. */
  ghost function Words(e: Entry): set<nat> {
    Positions(e.start, e.start + e.len - WORD_BYTES)
  }

  lemma {:induction false} PositionsMean(cur: nat, limit: int, p: nat)
    ensures p in Positions(cur, limit) <==> cur <= p <= limit && (p - cur) % ALIGNMENT == 0
    decreases limit - cur
  {
    if cur <= limit {
      PositionsMean(cur + ALIGNMENT, limit, p);
      if cur + ALIGNMENT <= p {
        ModLess(p - cur, ALIGNMENT);
      } else if cur < p {
        assert (p - cur) % ALIGNMENT == p - cur;
      }
    }
  }

  lemma ModLess(x: nat, m: nat)
    requires 0 < m <= x
    ensures (x - m) % m == x % m
  {
    var q := x / m;
    assert q >= 1;
    DivModUnique(x - m, q - 1, x % m, m);
  }

  /** These are the words of the range: aligned with its start and wholly inside. */
  lemma WordsMean(e: Entry, p: nat)
    ensures p in Words(e) <==> e.start <= p && p + WORD_BYTES <= e.start + e.len && (p - e.start) % ALIGNMENT == 0
  {
    PositionsMean(e.start, e.start + e.len - WORD_BYTES, p);
  }

  /** `limit` is `k` steps after `cur`. */
  ghost predicate Steps(cur: nat, limit: int, k: int) {
    limit == cur + k * ALIGNMENT
  }

  lemma StepBack(cur: nat, limit: int, k: int)
    requires Steps(cur, limit, k)
    ensures Steps(cur, limit - ALIGNMENT, k - 1) && Steps(cur + ALIGNMENT, limit, k - 1) && (k < 0 ==> limit < cur)
    ensures k >= 0 ==> limit >= cur
  {
  }

  /** The last address can be taken off instead of the first. */
  lemma {:induction false} PositionsLast(cur: nat, limit: int, k: nat)
    requires Steps(cur, limit, k)
    ensures limit >= cur && Positions(cur, limit) == Positions(cur, limit - ALIGNMENT) + {limit}
    decreases k
  {
    StepBack(cur, limit, k);
    if k > 0 {
      PositionsLast(cur + ALIGNMENT, limit, k - 1);
    }
  }

  /** Positions up to some point, and from the next one on. */
  lemma {:induction false} PositionsSplit(cur: nat, limit: int, k: nat)
    requires cur + k * ALIGNMENT <= limit + ALIGNMENT
    ensures Positions(cur, limit) ==
      Positions(cur, cur + k * ALIGNMENT - ALIGNMENT) + Positions(cur + k * ALIGNMENT, limit)
    decreases k
  {
    if k > 0 {
      assert (k - 1) * ALIGNMENT == k * ALIGNMENT - ALIGNMENT;
      MulMono(1, k, ALIGNMENT);
      PositionsSplit(cur + ALIGNMENT, limit, k - 1);
    }
  }

  // ------------------------------------------------------------------- splitting

  /** How far a piece of a long range reaches when it is scanned alone. */
  const PIECE: nat := (SPLIT_RANGE_WORDS - 1) * WORD_BYTES

  /** Whole words are whole steps. */
  lemma WholeSteps(n: nat) returns (k: nat)
    requires n % WORD_BYTES == 0
    ensures n == k * ALIGNMENT
  {
    var w, a := n / WORD_BYTES, WORD_BYTES / ALIGNMENT;
    assert n == w * WORD_BYTES && WORD_BYTES == a * ALIGNMENT;
    k := w * a;
    assert w * (a * ALIGNMENT) == (w * a) * ALIGNMENT;
  }

  /** Scanning the first piece and keeping the rest misses nothing. */
  lemma PieceAndRest(e: Entry)
    requires SPLIT_RANGE_WORDS * WORD_BYTES <= e.len
    ensures Words(e) == Positions(e.start, e.start + PIECE - ALIGNMENT) + Words(Entry(e.start + PIECE, e.len - PIECE))
  {
    assert PIECE % WORD_BYTES == 0;
    var k := WholeSteps(PIECE);
    PositionsSplit(e.start, e.start + e.len - WORD_BYTES, k);
  }

  /** Two halves that overlap in one word miss nothing. */
  lemma TwoHalves(e: Entry, n: nat)
    requires n % WORD_BYTES == 0 && n + WORD_BYTES <= e.len
    ensures Words(e) == Words(Entry(e.start, n + WORD_BYTES)) + Words(Entry(e.start + n, e.len - n))
  {
    var k := WholeSteps(n);
    PositionsSplit(e.start, e.start + e.len - WORD_BYTES, k);
    PositionsLast(e.start, e.start + n, k);
  }

  ghost function Pending(stack: seq<Entry>): set<nat> {
    if stack == [] then {} else Pending(stack[..|stack| - 1]) + Words(stack[|stack| - 1])
  }

  lemma {:induction false} PendingMeans(stack: seq<Entry>)
    ensures forall p :: p in Pending(stack) <==> exists i :: 0 <= i < |stack| && p in Words(stack[i])
  {
    if stack != [] {
      var rest, e := stack[..|stack| - 1], stack[|stack| - 1];
      PendingMeans(rest);
      forall p ensures p in Pending(stack) <==> exists i :: 0 <= i < |stack| && p in Words(stack[i]) {
        if p in Pending(rest) {
          var i :| 0 <= i < |rest| && p in Words(rest[i]);
          assert p in Words(stack[i]);
        }
        if i :| 0 <= i < |stack| && p in Words(stack[i]) {
          assert i < |rest| ==> p in Words(rest[i]);
        }
      }
    }
  }

  lemma PendingPush(stack: seq<Entry>, e: Entry)
    ensures Pending(stack + [e]) == Pending(stack) + Words(e)
  {
    assert (stack + [e])[..|stack|] == stack;
  }

  /** An entry covers something, and its length is a multiple of the alignment. */
  predicate Sized(e: Entry) {
    0 < e.len && e.len % ALIGNMENT == 0
  }

  /** How much work an entry is at most. */
  function Weight(len: nat): nat {
    if len <= 2 * WORD_BYTES then 1 else len - 2 * WORD_BYTES + 1
  }

  function Load(stack: seq<Entry>): nat {
    if stack == [] then 0 else Load(stack[..|stack| - 1]) + Weight(stack[|stack| - 1].len)
  }

  lemma LoadPush(stack: seq<Entry>, e: Entry)
    ensures Load(stack + [e]) == Load(stack) + Weight(e.len)
  {
    assert (stack + [e])[..|stack|] == stack;
  }

  class Scanner {
    /** The word at an address, and the bounds of plausible heap addresses. */
    const word: nat -> nat
    const least: nat
    const greatest: nat
    const parallel: bool
    const capacity: nat
    var stack: seq<Entry>
    /** The addresses of the words taken for possible pointers so far. */
    var considered: set<nat>

    constructor (word: nat -> nat, least: nat, greatest: nat, parallel: bool, capacity: nat, e: Entry)
      ensures this.word == word && this.least == least && this.greatest == greatest && this.parallel == parallel
      ensures this.capacity == capacity && stack == [e] && considered == {}
    {
      this.word, this.least, this.greatest, this.parallel, this.capacity := word, least, greatest, parallel, capacity;
      stack, considered := [e], {};
    }

    predicate Plausible(p: nat) {
      least <= word(p) < greatest
    }

    ghost function Hits(positions: set<nat>): set<nat> {
      set p | p in positions && Plausible(p)
    }

    ghost predicate AllSized()
      reads this
    {
      forall i :: 0 <= i < |stack| ==> Sized(stack[i])
    }

    /** What has been considered, and what still will be. */
    ghost function Account(): set<nat>
      reads this
    {
      considered + Hits(Pending(stack))
    }

    /** The last plausible word from `first` to `last`, both included, and where to stop before it. */
    method LastPlausible(first: nat, last: int, ghost steps: nat) returns (found: bool, deferred: nat, limit: int)
      requires Steps(first, last, steps)
      ensures found ==> Hits(Positions(first, last)) == Hits(Positions(first, limit)) + {deferred}
      ensures !found ==> Hits(Positions(first, last)) == {}
    {
      limit := last;
      ghost var k: int := steps;
      while true
        invariant Steps(first, limit, k) && 0 <= k && Hits(Positions(first, last)) == Hits(Positions(first, limit))
        decreases k
      {
        found, deferred := Look(first, limit, k);
        limit, k := limit - ALIGNMENT, k - 1;
        if found || first > limit {
          return;
        }
        StepBack(first, limit, k);
        found, deferred := Look(first, limit, k);
        limit, k := limit - ALIGNMENT, k - 1;
        if found || first > limit {
          return;
        }
        StepBack(first, limit, k);
      }
    }

    method Look(first: nat, limit: int, ghost k: nat) returns (found: bool, deferred: nat)
      requires Steps(first, limit, k)
      ensures Steps(first, limit - ALIGNMENT, k - 1) && deferred == limit && found == Plausible(deferred)
      ensures Hits(Positions(first, limit)) ==
        Hits(Positions(first, limit - ALIGNMENT)) + (if found then {deferred} else {})
    {
      PositionsLast(first, limit, k);
      StepBack(first, limit, k);
      deferred := limit;
      found := Plausible(deferred);
    }

    /**
     Scan from `first` to `last`, both included: backwards to the last plausible word, which is set
     aside, then forwards, then the word set aside.
     */
    method ScanRange(first: nat, last: int, ghost steps: nat)
      requires Steps(first, last, steps)
      modifies `considered
      ensures considered == old(considered) + Hits(Positions(first, last))
    {
      var found, deferred, limit := LastPlausible(first, last, steps);
      if !found {
        return;
      }
      var cur := first;
      while cur <= limit
        invariant considered + Hits(Positions(cur, limit)) == old(considered) + Hits(Positions(first, limit))
        decreases limit - cur
      {
        if Plausible(cur) {
          considered := considered + {cur};
        }
        cur := cur + ALIGNMENT;
      }
      considered := considered + {deferred};
    }

    /** Share a very long range: its first half goes on the stack for others to take. */
    method Share(start: nat, len: nat) returns (cur: nat, descr: nat)
      requires Sized(Entry(start, len)) && AllSized()
      modifies `stack
      ensures AllSized() && Sized(Entry(cur, descr))
      ensures Pending(stack) + Words(Entry(cur, descr)) == Pending(old(stack)) + Words(Entry(start, len))
      ensures Load(stack) + Weight(descr) <= Load(old(stack)) + Weight(len)
      ensures parallel && len > SHARE_BYTES && len >= SPLIT_RANGE_WORDS * WORD_BYTES ==>
        |stack| + 1 >= capacity || descr <= SHARE_BYTES || descr < SPLIT_RANGE_WORDS * WORD_BYTES
      ensures old(stack) <= stack && (!parallel ==> stack == old(stack) && cur == start && descr == len)
    {
      cur, descr := start, len;
      while descr > SHARE_BYTES && descr >= SPLIT_RANGE_WORDS * WORD_BYTES && parallel && |stack| + 1 < capacity
        invariant AllSized() && Sized(Entry(cur, descr))
        invariant Pending(stack) + Words(Entry(cur, descr)) == Pending(old(stack)) + Words(Entry(start, len))
        invariant Load(stack) + Weight(descr) <= Load(old(stack)) + Weight(len)
        invariant old(stack) <= stack && (!parallel ==> stack == old(stack) && cur == start && descr == len)
        decreases descr
      {
        cur, descr := ShareOnce(cur, descr);
      }
    }

    /** Put the first half of a range on the stack. */
    method ShareOnce(start: nat, len: nat) returns (cur: nat, descr: nat)
      requires Sized(Entry(start, len)) && len > SHARE_BYTES && AllSized()
      modifies `stack
      ensures AllSized() && Sized(Entry(cur, descr)) && descr < len
      ensures Pending(stack) + Words(Entry(cur, descr)) == Pending(old(stack)) + Words(Entry(start, len))
      ensures Load(stack) + Weight(descr) <= Load(old(stack)) + Weight(len)
      ensures var half := len - descr;
        && half % WORD_BYTES == 0 && half <= len / 2 < half + WORD_BYTES
        && cur == start + half && stack == old(stack) + [Entry(start, half + WORD_BYTES)]
    {
      var half := Half(len);
      HalfNear(len);
      ShareStep(stack, start, len);
      stack := stack + [Entry(start, half + WORD_BYTES)];
      cur, descr := start + half, len - half;
    }

    /** Scan the first piece of a long range and put the rest on the stack. */
    method ScanPiece(cur: nat, descr: nat)
      requires AllSized() && Sized(Entry(cur, descr)) && SPLIT_RANGE_WORDS * WORD_BYTES <= descr
      modifies this
      ensures AllSized() && Account() == old(considered) + Hits(Pending(old(stack)) + Words(Entry(cur, descr)))
      ensures Load(stack) < Load(old(stack)) + Weight(descr)
    {
      var rest := Entry(cur + PIECE, descr - PIECE);
      PieceStep(stack, cur, descr);
      stack := stack + [rest];
      ghost var k := PieceSteps(cur);
      var limit := cur + PIECE + WORD_BYTES - ALIGNMENT;
      ScanRange(cur, limit - WORD_BYTES, k);
    }

    /** Scan a short range. */
    method ScanAll(cur: nat, descr: nat)
      requires Sized(Entry(cur, descr))
      modifies `considered
      ensures considered == old(considered) + Hits(Words(Entry(cur, descr)))
    {
      if descr < WORD_BYTES {
        return;
      }
      ghost var k := StepsIn(cur, descr);
      ScanRange(cur, cur + descr - WORD_BYTES, k);
    }

    /** Take the top entry: scan it, or a piece of it and put the rest back. */
    method Iterate() returns (scanned: nat)
      requires AllSized() && stack != []
      modifies this
      ensures AllSized() && Account() == old(Account())
      ensures Load(stack) < Load(old(stack))
    {
      var e := stack[|stack| - 1];
      stack := stack[..|stack| - 1];
      var cur, descr := Share(e.start, e.len);
      if descr >= SPLIT_RANGE_WORDS * WORD_BYTES {
        ScanPiece(cur, descr);
        scanned := PIECE;
      } else {
        ScanAll(cur, descr);
        scanned := descr;
      }
    }

    /** Work until the stack is empty or about `credit` bytes have been scanned. */
    method MarkFrom(credit: nat)
      requires AllSized()
      modifies this
      ensures AllSized() && Account() == old(Account())
      ensures old(stack) != [] ==> Load(stack) < Load(old(stack))
      ensures old(stack) == [] ==> stack == []
    {
      var left: int := credit;
      while stack != [] && left >= 0
        invariant AllSized() && Account() == old(Account())
        invariant Load(stack) < Load(old(stack)) || (stack == old(stack) && left >= 0)
        decreases Load(stack)
      {
        var scanned := Iterate();
        left := left - scanned;
      }
    }

    /** However a range is cut up, the words considered in the end are exactly its plausible words. */
    method MarkAll()
      requires AllSized()
      modifies this
      ensures stack == [] && considered == old(considered) + Hits(Pending(old(stack)))
      ensures forall p :: p in considered <==>
        || p in old(considered)
        || (least <= word(p) < greatest && exists i :: 0 <= i < |old(stack)| && p in Words(old(stack)[i]))
    {
      PendingMeans(stack);
      while stack != []
        invariant AllSized() && Account() == old(Account())
        decreases Load(stack)
      {
        MarkFrom(HBLKSIZE);
      }
    }
  }

  lemma HalfNear(len: nat)
    ensures var half := Half(len); half % WORD_BYTES == 0 && half <= len / 2 < half + WORD_BYTES
  {
    DivMod(len / 2 / WORD_BYTES, 0, WORD_BYTES);
  }

  lemma ShareStep(stack: seq<Entry>, cur: nat, descr: nat)
    requires Sized(Entry(cur, descr)) && descr > SHARE_BYTES
    ensures var half := Half(descr);
      && half < descr && Sized(Entry(cur, half + WORD_BYTES)) && Sized(Entry(cur + half, descr - half)) && 0 < half
      && var stack' := stack + [Entry(cur, half + WORD_BYTES)];
         && Pending(stack') + Words(Entry(cur + half, descr - half)) == Pending(stack) + Words(Entry(cur, descr))
         && Load(stack') + Weight(descr - half) <= Load(stack) + Weight(descr)
  {
    var half := Half(descr);
    HalfSized(descr);
    TwoHalves(Entry(cur, descr), half);
    PendingPush(stack, Entry(cur, half + WORD_BYTES));
    LoadPush(stack, Entry(cur, half + WORD_BYTES));
  }

  lemma PieceStep(stack: seq<Entry>, cur: nat, descr: nat)
    requires Sized(Entry(cur, descr)) && SPLIT_RANGE_WORDS * WORD_BYTES <= descr
    ensures var rest := Entry(cur + PIECE, descr - PIECE);
      && Sized(rest) && Load(stack + [rest]) < Load(stack) + Weight(descr)
      && Pending(stack + [rest]) + Positions(cur, cur + PIECE - ALIGNMENT) == Pending(stack) + Words(Entry(cur, descr))
  {
    var rest := Entry(cur + PIECE, descr - PIECE);
    PieceAndRest(Entry(cur, descr));
    PendingPush(stack, rest);
    LoadPush(stack, rest);
    RestSized(descr);
  }

  lemma RestSized(len: nat)
    requires len % ALIGNMENT == 0 && SPLIT_RANGE_WORDS * WORD_BYTES <= len
    ensures Sized(Entry(0, len - PIECE)) && Weight(len - PIECE) < Weight(len)
  {
    assert PIECE % WORD_BYTES == 0;
    var k := WholeSteps(PIECE);
    MultipleLess(len, k, ALIGNMENT);
  }

  /** A multiple less another one. */
  lemma MultipleLess(x: nat, k: nat, m: nat)
    requires m > 0 && x % m == 0 && k * m <= x
    ensures (x - k * m) % m == 0
  {
    var q := x / m;
    assert x == q * m;
    if q < k {
      MulMono(q + 1, k, m);
    }
    assert (q - k) * m == x - k * m;
    DivModUnique(x - k * m, q - k, 0, m);
  }

  lemma PieceSteps(cur: nat) returns (k: nat)
    ensures Steps(cur, cur + PIECE - ALIGNMENT, k)
  {
    assert PIECE % WORD_BYTES == 0;
    var n := WholeSteps(PIECE);
    assert n > 0;
    k := n - 1;
    assert (n - 1) * ALIGNMENT == n * ALIGNMENT - ALIGNMENT;
  }

  /** Half of a range, in whole words. */
  function Half(len: nat): nat {
    len / 2 - len / 2 % WORD_BYTES
  }

  lemma HalfSized(len: nat)
    requires len > SHARE_BYTES && len % ALIGNMENT == 0
    ensures var half := Half(len);
      && half % WORD_BYTES == 0 && 2 * WORD_BYTES < half < len && half + WORD_BYTES < len && len - half > 2 * WORD_BYTES
      && Sized(Entry(0, half + WORD_BYTES)) && Sized(Entry(0, len - half))
  {
    var half := Half(len);
    HalfIsWhole(len);
    var k := WholeSteps(half);
    MultipleLess(len, k, ALIGNMENT);
    var n := WholeSteps(half + WORD_BYTES);
    DivModUnique(half + WORD_BYTES, n, 0, ALIGNMENT);
  }

  lemma HalfIsWhole(len: nat)
    ensures Half(len) % WORD_BYTES == 0 && (Half(len) + WORD_BYTES) % WORD_BYTES == 0
  {
    var q := len / 2 / WORD_BYTES;
    assert Half(len) == q * WORD_BYTES;
    DivModUnique(Half(len), q, 0, WORD_BYTES);
    DivModUnique(Half(len) + WORD_BYTES, q + 1, 0, WORD_BYTES);
  }

  lemma StepsIn(cur: nat, len: nat) returns (k: nat)
    requires WORD_BYTES <= len && len % ALIGNMENT == 0
    ensures Steps(cur, cur + len - WORD_BYTES, k)
  {
    var a, b := len / ALIGNMENT, WORD_BYTES / ALIGNMENT;
    assert len == a * ALIGNMENT && WORD_BYTES == b * ALIGNMENT;
    k := a - b;
    assert (a - b) * ALIGNMENT == a * ALIGNMENT - b * ALIGNMENT;
  }
}
