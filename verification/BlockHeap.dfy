/** The heap-block allocator: the operations of allchblk.c on the state of BlockModel. */
module BlockHeap {
  import opened FreeLists
  import opened Tiling
  import opened BlockModel
  import opened BlockFree
  import opened BlackList

  /** The allocated blocks and their lengths. */
  ghost function Used(blocks: Blocks): map<nat, nat> {
    map b | b in blocks && !blocks[b].free :: blocks[b].len
  }

  lemma UsedSplit(blocks: Blocks, b: nat, k: nat)
    requires b in blocks && blocks[b].free && k <= blocks[b].len && b + k !in blocks
    ensures Used(Split(blocks, b, k)) == Used(blocks)
  {
  }

  lemma UsedSet(blocks: Blocks, b: nat, n: nat)
    requires b in blocks && blocks[b].free && blocks[b].len == n
    ensures Used(SetFree(blocks, b, false)) == Used(blocks)[b := n]
  {
  }

  lemma UsedFreed(blocks: Blocks, b: nat)
    requires b in blocks && !blocks[b].free
    ensures Used(SetFree(blocks, b, true)) == Used(blocks) - {b}
  {
  }

  lemma UsedMerge(blocks: Blocks, a: nat, c: nat)
    requires FreePair(blocks, a, c)
    ensures Used(Merge(blocks, a, c)) == Used(blocks)
  {
  }

  type BlockCount = n: nat | n > 2 witness 3
  /** The number of blocks in the address space. */
  const ADDRESS_SPACE: BlockCount
  const MAX_HEAP_SECTS: nat

  datatype AddResult = Added | NothingToAdd | TooManySections | SectionTooLarge

  /** What of `[p, p + n)` can be used: not the first two blocks of memory and not the last. */
  function Usable(p: nat, n: nat): (s: Sect)
    requires p + n <= ADDRESS_SPACE
    ensures forall u: nat :: InSect(s, u) <==> p <= u < p + n && 2 <= u && u + 1 < ADDRESS_SPACE
  {
    var start := if p < 2 then 2 else p;
    var end := if p + n == ADDRESS_SPACE then ADDRESS_SPACE - 1 else p + n;
    Sect(start, if end < start then 0 else end - start)
  }

  datatype FreeResult = Freed | TooLarge | Duplicate

  // ------------------------------------------------------------------ requests

  const MAX_BLACK_LIST_ALLOC := 2

  datatype Kind = PtrFree | Normal | Uncollectable

  /**
   A request for `need` unit blocks.  If `heedful`, its start must not be black listed,
   judged by its first `eff` unit blocks, unless memory is short: `limit` is the black-list spacing.
   */
  datatype Request = Request(need: nat, eff: nat, heedful: bool, limit: nat)

  function RequestFor(need: nat, kind: Kind, ignoreOffPage: bool, limit: nat): Request {
    Request(need, if ignoreOffPage then 1 else need,
            kind != Uncollectable && (kind != PtrFree || need > MAX_BLACK_LIST_ALLOC), limit)
  }

  /** A very large request takes the start of a very large block, black listed or not. */
  predicate Punts(q: Request, len: nat) {
    q.need > q.limit && q.need <= len && len - q.need > q.limit
  }

  ghost predicate UsableStart(bl: BlackLists, q: Request, b: nat, len: nat, t: nat)
    requires bl.Valid()
    reads bl
  {
    b <= t && t + q.need <= b + len && !bl.StartListed(t, q.eff)
  }

  /** A free block of `len` unit blocks at `b` can serve the request. */
  ghost predicate Suits(bl: BlackLists, q: Request, b: nat, len: nat)
    requires bl.Valid()
    reads bl
  {
    q.need <= len && (!q.heedful || Punts(q, len) || exists t :: UsableStart(bl, q, b, len, t))
  }

  /** Free block `b` suits the request, and may be used: it fits exactly or may be split. */
  ghost predicate Candidate(bl: BlackLists, q: Request, maySplit: bool, blocks: Blocks, b: nat)
    requires bl.Valid()
    reads bl
  {
    b in blocks && blocks[b].free && (maySplit || blocks[b].len == q.need) && Suits(bl, q, b, blocks[b].len)
  }

  /** The place `t` in block `b` that a request is given. */
  ghost predicate RightPlace(bl: BlackLists, q: Request, b: nat, len: nat, t: nat)
    requires bl.Valid()
    reads bl
  {
    && b <= t && t + q.need <= b + len
    && (q.heedful ==> !bl.StartListed(t, q.eff) || (t == b && Punts(q, len)))
    && (q.heedful && !bl.StartListed(t, q.eff) ==> forall c :: b <= c < t ==> bl.StartListed(c, q.eff))
    && (!q.heedful ==> t == b)
  }

  /** No block on list `n` can serve the request. */
  ghost predicate NoCandidate(bl: BlackLists, q: Request, maySplit: bool, blocks: Blocks, n: nat)
    requires bl.Valid()
    reads bl
  {
    forall b :: b in blocks && FlFromBlocks(blocks[b].len) == n ==> !Candidate(bl, q, maySplit, blocks, b)
  }

  /** Only free blocks that cannot serve the request have been dropped. */
  ghost predicate Kept(bl: BlackLists, q: Request, was: Blocks, now: Blocks)
    requires bl.Valid()
    reads bl
  {
    && (forall c :: c in was && !was[c].free ==> c in now && now[c] == was[c])
    && (forall c :: c in now && now[c].free ==> c in was && was[c] == now[c])
    && (forall c :: c in was && was[c].free && Suits(bl, q, c, was[c].len) ==> c in now && now[c] == was[c])
    && (!q.heedful || q.need != 1 ==> now == was)
  }

  /** The request has been given `[r, r + need)`, which was free; all other allocated blocks are as they were. */
  ghost predicate Granted(bl: BlackLists, q: Request, was: Blocks, now: Blocks, r: nat)
    requires bl.Valid()
    reads bl
  {
    && (exists b :: b in was && was[b].free && RightPlace(bl, q, b, was[b].len, r))
    && r in now && now[r] == Blk(q.need, false)
    && (forall c :: c in was && !was[c].free ==> c != r && c in now && now[c] == was[c])
    && (!q.heedful || q.need != 1 ==> Used(now) == Used(was)[r := q.need])
  }

  /** From position `k` on, a list holds a block that can serve the request. */
  ghost predicate AnyFrom(bl: BlackLists, q: Request, maySplit: bool, list: seq<nat>, blocks: Blocks, k: nat)
    requires bl.Valid()
    reads bl
  {
    exists j :: k <= j < |list| && Candidate(bl, q, maySplit, blocks, list[j])
  }

  /** No free block can serve the request, exactly or by splitting. */
  ghost predicate Unservable(bl: BlackLists, q: Request, blocks: Blocks, splitLimit: nat)
    requires bl.Valid()
    reads bl
  {
    forall b ::
      b in blocks && blocks[b].free && (blocks[b].len == q.need || FlFromBlocks(blocks[b].len) <= splitLimit) ==>
        !Suits(bl, q, b, blocks[b].len)
  }

  /** Requests that ignore the black list fail exactly if there is no free block that is large enough. */
  lemma UnservableMeans(bl: BlackLists, q: Request, blocks: Blocks)
    requires bl.Valid() && !q.heedful
    ensures Unservable(bl, q, blocks, N_HBLK_FLS) <==> forall b :: b in blocks && blocks[b].free ==>
      blocks[b].len < q.need
  {
    if Unservable(bl, q, blocks, N_HBLK_FLS) {
      forall b | b in blocks && blocks[b].free ensures blocks[b].len < q.need {
        assert !Suits(bl, q, b, blocks[b].len);
      }
    }
  }

  // ------------------------------------------------------- in terms of the caller

  /** No unit block of `[t, t + n)` is black listed, nor, where only pointers to the start of objects count, is `t`. */
  ghost predicate Clear(bl: BlackLists, t: nat, n: nat)
    requires bl.Valid()
    reads bl
  {
    (bl.allInterior || !bl.NormalListed(t)) && forall u :: t <= u < t + n ==> !bl.BlockListed(u)
  }

  /**
   `[t, t + need)` of free block `[b, b + len)` may be given to a caller that heeds the black list for the
   first `span` unit blocks: they are clear, or else the request and what is left of the block are both very large.
   */
  ghost predicate Offer(bl: BlackLists, need: nat, span: nat, limit: nat, b: nat, len: nat, t: nat)
    requires bl.Valid()
    reads bl
  {
    && b <= t && t + need <= b + len
    && (Clear(bl, t, span) || (t == b && need > limit && len - need > limit))
  }

  /** `[r, r + need)` of free block `b` may be given, and no earlier place in it is clear. */
  ghost predicate FirstOffer(bl: BlackLists, need: nat, span: nat, limit: nat, blocks: Blocks, b: nat, r: nat)
    requires bl.Valid()
    reads bl
  {
    && b in blocks && blocks[b].free && Offer(bl, need, span, limit, b, blocks[b].len, r)
    && forall c :: b <= c < r ==> !Clear(bl, c, span)
  }

  /** Free block `b` may be used for `need` unit blocks: it fits exactly, or is on a list that may be split. */
  ghost predicate Admissible(blocks: Blocks, b: nat, need: nat, splitLimit: nat) {
    b in blocks && blocks[b].free && (blocks[b].len == need || FlFromBlocks(blocks[b].len) <= splitLimit)
  }

  lemma ClearMeans(bl: BlackLists, t: nat, n: nat)
    requires bl.Valid() && 0 < n
    ensures Clear(bl, t, n) <==> !bl.StartListed(t, n)
  {
  }

  lemma OfferMeans(bl: BlackLists, q: Request, b: nat, len: nat)
    requires bl.Valid() && q.heedful && 0 < q.eff
    ensures Suits(bl, q, b, len) <==> exists t :: Offer(bl, q.need, q.eff, q.limit, b, len, t)
  {
    if t :| Offer(bl, q.need, q.eff, q.limit, b, len, t) {
      ClearMeans(bl, t, q.eff);
      assert UsableStart(bl, q, b, len, t) || Punts(q, len);
    }
    if Suits(bl, q, b, len) {
      if Punts(q, len) {
        assert Offer(bl, q.need, q.eff, q.limit, b, len, b);
      } else {
        var t :| UsableStart(bl, q, b, len, t);
        ClearMeans(bl, t, q.eff);
        assert Offer(bl, q.need, q.eff, q.limit, b, len, t);
      }
    }
  }

  /** A request that heeds the black list fails exactly if no place in an admissible block may be given to it. */
  lemma HeedfulFailure(bl: BlackLists, q: Request, blocks: Blocks, splitLimit: nat)
    requires bl.Valid() && q.heedful && 0 < q.eff
    ensures Unservable(bl, q, blocks, splitLimit) <==>
      forall b, t :: Admissible(blocks, b, q.need, splitLimit) ==>
        !Offer(bl, q.need, q.eff, q.limit, b, blocks[b].len, t)
  {
    forall b | Admissible(blocks, b, q.need, splitLimit)
      ensures Suits(bl, q, b, blocks[b].len) <==>
        exists t :: Offer(bl, q.need, q.eff, q.limit, b, blocks[b].len, t)
    {
      OfferMeans(bl, q, b, blocks[b].len);
    }
    if Unservable(bl, q, blocks, splitLimit) {
      forall b, t | Admissible(blocks, b, q.need, splitLimit)
        ensures !Offer(bl, q.need, q.eff, q.limit, b, blocks[b].len, t)
      {
        assert !Suits(bl, q, b, blocks[b].len);
      }
    }
  }

  /** What a request that heeds the black list is given: the first clear place in a block, or else its start. */
  lemma HeedfulGrant(bl: BlackLists, q: Request, was: Blocks, now: Blocks, r: nat)
    requires bl.Valid() && q.heedful && 0 < q.eff && Granted(bl, q, was, now, r)
    ensures exists b :: FirstOffer(bl, q.need, q.eff, q.limit, was, b, r)
  {
    var b :| b in was && was[b].free && RightPlace(bl, q, b, was[b].len, r);
    ClearMeans(bl, r, q.eff);
    forall c | b <= c < r ensures !Clear(bl, c, q.eff) {
      ClearMeans(bl, c, q.eff);
    }
    assert FirstOffer(bl, q.need, q.eff, q.limit, was, b, r);
  }

  /** A request that does not heed the black list fails exactly if every admissible block is too small. */
  lemma HeedlessMeans(bl: BlackLists, q: Request, was: Blocks, splitLimit: nat)
    requires bl.Valid() && !q.heedful
    ensures Unservable(bl, q, was, splitLimit) <==>
      forall b :: Admissible(was, b, q.need, splitLimit) ==> was[b].len < q.need
  {
    if Unservable(bl, q, was, splitLimit) {
      forall b | Admissible(was, b, q.need, splitLimit) ensures was[b].len < q.need {
        assert !Suits(bl, q, b, was[b].len);
      }
    }
  }

  datatype Verdict = Pass | Hopeless | Take(at: nat)

  class BlockHeap {
    const bl: BlackLists
    /** Looking for leaks: no block is dropped. */
    const findLeak: bool
    /** How often a completely black-listed block was met. */
    var dropCount: nat
    var blocks: Blocks
    var counts: Counts
    var heads: seq<nat>
    var prev: map<nat, nat>
    var next: map<nat, nat>
    var bytes: seq<nat>
    var largeFree: nat
    var heapsize: nat
    var sects: seq<Sect>
    ghost var owner: Owner
    ghost var fl: seq<seq<nat>>
    ghost var at: map<nat, nat>
    ghost var size: map<nat, nat>

    ghost function L(): Lists
      reads this
    {
      Lists(heads, prev, next, bytes, fl, at, size)
    }

    ghost function S(): Heap
      reads this
    {
      Heap(blocks, owner, counts, L(), largeFree, heapsize, sects)
    }

    constructor (bl: BlackLists, findLeak: bool)
      ensures Valid(S()) && this.bl == bl && this.findLeak == findLeak && blocks == map[] && heapsize == 0
    {
      this.bl, this.findLeak, dropCount := bl, findLeak, 0;
      blocks, counts, owner := map[], map[], map[];
      heads, bytes := seq(N_HBLK_FLS + 1, _ => 0), seq(N_HBLK_FLS + 1, _ => 0);
      fl := seq(N_HBLK_FLS + 1, _ => []);
      prev, next, at, size := map[], map[], map[], map[];
      largeFree, heapsize, sects := 0, 0, [];
      new;
      TotalZero(bytes);
    }

    // ---------------------------------------------------------------- free lists

    method RemoveFromFlAt(b: nat, i: nat)
      requires b in blocks && Holding(L(), b, i) && size[b] == blocks[b].len <= bytes[i]
      modifies `heads, `prev, `next, `bytes, `fl, `at, `size
      ensures L() == Removed(old(L()), b, i)
    {
      var p, n := prev[b], next[b];
      if p == 0 {
        heads := heads[i := n];
      } else {
        next := next[p := n];
      }
      bytes := bytes[i := bytes[i] - blocks[b].len];
      if n != 0 {
        prev := prev[n := p];
      }
      fl := fl[i := Without(fl[i], Position(fl[i], b))];
      at, size := at - {b}, size - {b};
    }

    method AddToFl(b: nat, n: nat)
      requires b in blocks && blocks[b].len == n && Shaped(L())
      modifies `blocks, `heads, `prev, `next, `bytes, `fl, `at, `size
      ensures blocks == SetFree(old(blocks), b, true)
      ensures L() == Enlisted(old(L()), b, n)
    {
      var i := FlFromBlocks(n);
      var second := heads[i];
      heads := heads[i := b];
      bytes := bytes[i := bytes[i] + n];
      next := next[b := second];
      prev := prev[b := 0];
      if second != 0 {
        prev := prev[second := b];
      }
      blocks := blocks[b := Blk(n, true)];
      fl := fl[i := [b] + fl[i]];
      at, size := at[b := i], size[b := n];
    }

    /** The sum over all the free lists, as a walk over them. */
    method ComputeLargeFreeBytes() returns (total: nat)
      requires Valid(S())
      ensures total == largeFree
    {
      ValidMeans(S());
      total := 0;
      var i := 0;
      while i <= N_HBLK_FLS
        invariant i <= N_HBLK_FLS + 1 && |bytes| == N_HBLK_FLS + 1
        invariant total + Total(bytes[i..]) == largeFree
      {
        var sum := ListBytes(i);
        total := total + sum;
        assert bytes[i..][1..] == bytes[i + 1..];
        i := i + 1;
      }
    }

    method ListBytes(i: nat) returns (sum: nat)
      requires Valid(S()) && i <= N_HBLK_FLS
      ensures |bytes| == N_HBLK_FLS + 1 && sum == bytes[i]
    {
      ValidMeans(S());
      assert ListOkAt(L(), i);
      var h := heads[i];
      sum := 0;
      ghost var k := 0;
      while h != 0
        invariant k <= |fl[i]| && h == (if k == |fl[i]| then 0 else fl[i][k])
        invariant sum + Sum(fl[i][k..], size) == bytes[i]
        decreases |fl[i]| - k
      {
        MemberIsFree(S(), i, k);
        assert fl[i][k..][1..] == fl[i][k + 1..];
        sum := sum + blocks[h].len;
        h := next[h];
        k := k + 1;
      }
      assert fl[i][k..] == [];
    }

    // ---------------------------------------------------------- forwarding counts

    method InstallCounts(b: nat, n: nat)
      modifies `counts
      ensures counts == old(counts) + CountsFor(b, n)
    {
      var u := b + 1;
      while u < b + n
        invariant b < u && if n == 0 then u == b + 1 else u <= b + n
        invariant forall v :: v in counts <==> v in old(counts) || b < v < u
        invariant forall v :: v in counts ==> counts[v] == if b < v < u then Forward(v - b) else old(counts)[v]
      {
        counts := counts[u := if u - b > MAX_JUMP then MAX_JUMP else u - b];
        u := u + 1;
      }
    }

    method RemoveCounts(b: nat, n: nat)
      modifies `counts
      ensures counts == Cleared(old(counts), b, n)
    {
      var u := b + 1;
      while u < b + n
        invariant b < u && if n == 0 then u == b + 1 else u <= b + n
        invariant counts == Cleared(old(counts), b, u - b)
      {
        counts := counts - {u};
        u := u + 1;
      }
      assert Interior(b, u - b) == Interior(b, n);
    }

    /** The last block that starts at or before `u`, or 0. */
    method PrevBlock(u: nat) returns (p: nat)
      requires TilePart(blocks, owner, counts)
      ensures p != 0 ==> p in blocks && p <= u
      ensures forall c :: c in blocks && c <= u ==> c <= p
    {
      NoBlockAtZero(blocks, owner, counts);
      p := u;
      while p != 0 && p !in blocks
        invariant p <= u
        invariant forall c :: c in blocks && c <= u ==> c <= p
      {
        if p in counts {
          CountLeadsDown(blocks, owner, counts, p);
          p := p - counts[p];
        } else {
          p := p - 1;
        }
      }
    }

    /** The free block that ends where `b` starts, or 0. */
    method FreeBlockEndingAt(b: nat) returns (p: nat)
      requires TilePart(blocks, owner, counts) && b in blocks
      ensures p != 0 ==> FreePair(blocks, p, b) || !blocks[b].free
      ensures p != 0 ==> p in blocks && blocks[p].free && p + blocks[p].len == b
      ensures p == 0 ==> forall c :: c in blocks && blocks[c].free ==> c + blocks[c].len != b
    {
      NoBlockAtZero(blocks, owner, counts);
      TileFacts(blocks, owner, counts);
      p := b - 1;
      while p in counts
        invariant p <= b - 1 && (p in owner <==> b - 1 in owner) && (p in owner ==> owner[p] == owner[b - 1])
        decreases p
      {
        CountLeadsDown(blocks, owner, counts, p);
        p := p - counts[p];
      }
      PrecedingBlock(blocks, owner, b);
      if p in blocks {
        assert Inside(blocks, p, p);
        if !blocks[p].free {
          p := 0;
        }
        return;
      }
      p := PrevBlock(b - 1);
      if p != 0 {
        if blocks[p].free && p + blocks[p].len == b {
          return;
        }
        forall c | c in blocks && c + blocks[c].len == b ensures c == p {
          assert Inside(blocks, c, p);
          TileAt(blocks, owner, p);
        }
      }
      return 0;
    }

    // ----------------------------------------------------------------- allocation

    /** Block `t`, which is `less` unit blocks shorter than `b`, takes its place on list `i`. */
    method ReplaceInFl(b: nat, t: nat, m: nat, less: nat, i: nat)
      requires Holding(L(), b, i) && m + less == size[b] <= bytes[i]
      modifies `heads, `prev, `next, `bytes, `fl, `at, `size
      ensures L() == Replaced(old(L()), b, t, m, i)
    {
      var p, n := prev[b], next[b];
      prev := prev[t := p];
      next := next[t := n];
      if p != 0 {
        next := next[p := t];
      } else {
        heads := heads[i := t];
      }
      if n != 0 {
        prev := prev[n := t];
      }
      bytes := bytes[i := bytes[i] - less];
      fl := fl[i := With(fl[i], Position(fl[i], b), t)];
      at, size := (at - {b})[t := i], (size - {b})[t := m];
    }

    /** Block `t` takes the place of `b` on list `i`, and `b`, which is left with `k` unit blocks, goes to its own. */
    method SplitLists(b: nat, t: nat, k: nat, rest: nat, i: nat)
      requires b in blocks && blocks[b].len == k && Holding(L(), b, i) && rest + k == size[b] <= bytes[i]
      modifies `blocks, `heads, `prev, `next, `bytes, `fl, `at, `size
      ensures blocks == SetFree(old(blocks), b, true)
      ensures L() == SplitOffLists(old(L()), b, t, k, rest, i)
    {
      ReplaceInFl(b, t, rest, k, i);
      AddToFl(b, k);
    }

    /** Free block `b`, on list `i`, is split at `t`, which takes its place on the list. */
    method SplitBlock(b: nat, t: nat, i: nat)
      requires IsFreeBlock(S(), b) && b < t < b + blocks[b].len && Holding(L(), b, i)
      requires size[b] == blocks[b].len <= bytes[i]
      modifies `blocks, `owner, `heads, `prev, `next, `bytes, `fl, `at, `size
      ensures S() == SplitOff(old(S()), b, t, i)
    {
      var rest := blocks[b].len - (t - b);
      SplitIsFree(blocks, b, t - b);
      owner := SplitOwner(blocks, owner, b, t - b);
      blocks := Split(blocks, b, t - b);
      SplitLists(b, t, t - b, rest, i);
    }

    /** Free block `t`, on no list, keeps its first `need` unit blocks. */
    method ReturnRest(t: nat, need: nat)
      requires t in blocks && blocks[t].free && 0 < need < blocks[t].len && Shaped(L())
      modifies `blocks, `owner, `heads, `prev, `next, `bytes, `fl, `at, `size
      ensures S() == KeepFirst(old(S()), t, need)
    {
      var total, rest := blocks[t].len, t + need;
      SplitSteps(blocks, t, need);
      blocks := blocks[rest := Blk(total - need, false)];
      AddToFl(rest, total - need);
      blocks := blocks[t := Blk(need, true)];
      owner := SplitOwner(old(blocks), owner, t, need);
    }

    method Unlist(t: nat, i: nat)
      requires t in blocks && MisplacedWith(S(), t, i, blocks[t].len)
      modifies `heads, `prev, `next, `bytes, `fl, `at, `size
      ensures Loose(S(), t, 0) && L() == Removed(old(L()), t, i)
    {
      UnlistedLoose(S(), t, i);
      ghost var h := Unlisted(S(), t, i);
      RemoveFromFlAt(t, i);
      assert S() == h;
    }

    /** Block `t` is taken off list `i`; what is beyond its first `need` unit blocks goes to its own list. */
    method GetFirstPart(t: nat, need: nat, i: nat)
      requires t in blocks && MisplacedWith(S(), t, i, blocks[t].len) && 0 < need <= blocks[t].len
      modifies `blocks, `owner, `heads, `prev, `next, `bytes, `fl, `at, `size
      ensures Loose(S(), t, t) && blocks[t].len == need && blocks == SplitAt(old(blocks), t, need)
    {
      var total := blocks[t].len;
      Unlist(t, i);
      if total == need {
        CoalescedWeaken(blocks, owner, counts, heapsize, t, 0, t, t);
        return;
      }
      KeepFirstLoose(S(), t, need);
      ReturnRest(t, need);
    }

    /** The part of free block `b` that starts at `t` becomes a block of its own, still on list `i`. */
    method Advance(b: nat, t: nat, i: nat)
      requires Valid(S()) && IsFreeBlock(S(), b) && i == FlFromBlocks(blocks[b].len) && b < t < b + blocks[b].len
      modifies `blocks, `owner, `heads, `prev, `next, `bytes, `fl, `at, `size
      ensures blocks == Split(old(blocks), b, t - b)
      ensures MisplacedWith(S(), t, i, old(blocks)[b].len - (t - b))
    {
      FreeBlockListed(S(), b);
      SplitOffMisplaced(S(), b, t, i);
      SplitBlock(b, t, i);
    }

    /** Block `t`, on no list, is allocated. */
    method Occupy(t: nat, need: nat)
      requires Loose(S(), t, t) && blocks[t].len == need
      modifies `blocks, `counts, `largeFree
      ensures Valid(S()) && blocks == SetFree(old(blocks), t, false) && largeFree + need == old(largeFree)
    {
      OccupiedValid(S(), t);
      ghost var h := Occupied(S(), t);
      InstallCounts(t, need);
      blocks := blocks[t := Blk(need, false)];
      largeFree := largeFree - need;
      assert S() == h;
    }

    /** Unit blocks `[t, t + need)` of free block `b`, which is on list `i`, are allocated. */
    method TakeAt(b: nat, t: nat, need: nat, i: nat)
      requires Valid(S()) && IsFreeBlock(S(), b) && i == FlFromBlocks(blocks[b].len)
      requires 0 < need && b <= t && t + need <= b + blocks[b].len
      modifies this
      ensures Valid(S()) && Used(blocks) == old(Used(blocks))[t := need]
      ensures heapsize == old(heapsize) && sects == old(sects) && largeFree + need == old(largeFree)
    {
      UsedTaken(blocks, owner, counts, b, t, need);
      if t != b {
        Advance(b, t, i);
      } else {
        FreeBlockListed(S(), b);
        ValidIsMisplaced(S(), b);
        assert MisplacedWith(S(), t, i, blocks[b].len);
      }
      GetFirstPart(t, need, i);
      Occupy(t, need);
    }

    /** The block after `b` is obviously better: large enough, smaller than `b`, and clear. */
    ghost predicate NextBetter(need: nat, b: nat)
      requires bl.Valid()
      reads this, bl
    {
      && b in next && next[b] in blocks && next[b] != 0 && b in blocks
      && need <= blocks[next[b]].len < blocks[b].len && Clear(bl, next[b], need)
    }

    /** What to do with the k-th block of list `n`: unless it fits exactly, the next one may be better. */
    method Examine(q: Request, b: nat, n: nat, maySplit: bool, ghost k: nat) returns (v: Verdict)
      requires Valid(S()) && bl.Valid() && 0 < q.eff <= q.need && n <= N_HBLK_FLS
      requires n < |fl| && k < |fl[n]| && fl[n][k] == b
      ensures v.Take? ==> Candidate(bl, q, maySplit, blocks, b) && RightPlace(bl, q, b, blocks[b].len, v.at)
      ensures v.Hopeless? ==> q.heedful && q.need == 1 && b in blocks && !Suits(bl, q, b, blocks[b].len)
      ensures v.Pass? ==> Candidate(bl, q, maySplit, blocks, b) ==>
        k + 1 < |fl[n]| && Candidate(bl, q, maySplit, blocks, fl[n][k + 1])
      ensures Candidate(bl, q, maySplit, blocks, b) ==>
        (v.Take? <==> blocks[b].len == q.need || !NextBetter(q.need, b))
    {
      MemberIsFree(S(), n, k);
      if next[b] != 0 {
        ClearMeans(bl, next[b], q.need);
      }
      var avail := blocks[b].len;
      if avail < q.need {
        return Pass;
      }
      if avail != q.need {
        if !maySplit {
          return Pass;
        }
        var other := next[b];
        if other != 0 {
          MemberIsFree(S(), n, k + 1);
          var size := blocks[other].len;
          if size < avail && size >= q.need {
            var listed := bl.IsBlackListed(other, q.need);
            if listed == 0 {
              assert !bl.StartListed(other, q.eff);
              assert UsableStart(bl, q, other, size, other);
              return Pass;
            }
          }
        }
      }
      if !q.heedful {
        return Take(b);
      }
      v := Search(q, b, avail);
    }

    /** The black list's say. */
    method Search(q: Request, b: nat, avail: nat) returns (v: Verdict)
      requires bl.Valid() && q.heedful && 0 < q.eff <= q.need <= avail
      ensures v.Take? ==> Suits(bl, q, b, avail) && RightPlace(bl, q, b, avail, v.at)
      ensures !v.Take? ==> !Suits(bl, q, b, avail)
      ensures v.Hopeless? <==> q.need == 1 && !Suits(bl, q, b, avail)
    {
      var t := bl.FirstUsableStart(b, avail, q.need, q.eff);
      if t + q.need <= b + avail {
        assert UsableStart(bl, q, b, avail, t);
        return Take(t);
      }
      if q.need > q.limit && avail - q.need > q.limit {
        return Take(b);
      }
      assert forall c :: !UsableStart(bl, q, b, avail, c);
      return if t == b + avail && q.need == 1 then Hopeless else Pass;
    }

    /** The unit blocks of `b` get headers of their own, as allocated blocks. */
    method ShatterHeaders(b: nat)
      requires b in blocks && 0 < blocks[b].len
      modifies `blocks
      ensures blocks == Shattered(old(blocks), b)
    {
      var limit := b + blocks[b].len;
      var u := b;
      while u < limit
        invariant b <= u <= limit
        invariant forall v :: v in blocks <==> v in old(blocks) || b <= v < u
        invariant forall v :: v in blocks ==> blocks[v] == if b <= v < u then Blk(1, false) else old(blocks)[v]
      {
        blocks := blocks[u := Blk(1, false)];
        u := u + 1;
      }
    }

    method DropUnits(b: nat)
      requires Loose(S(), b, 0)
      modifies `blocks, `owner, `largeFree
      ensures Valid(S()) && blocks == Shattered(old(blocks), b)
    {
      DroppedValid(S(), b);
      ghost var h := Dropped(S(), b);
      assert 0 < blocks[b].len by {
        TileFacts(blocks, owner, counts);
      }
      largeFree := largeFree - blocks[b].len;
      owner := ShatteredOwner(blocks, owner, b);
      ShatterHeaders(b);
      assert S() == h;
    }

    /** A completely black-listed free block is allocated and dropped in small chunks. */
    method Drop(b: nat, i: nat)
      requires Valid(S()) && IsFreeBlock(S(), b) && i == FlFromBlocks(blocks[b].len)
      modifies `blocks, `owner, `largeFree, `heads, `prev, `next, `bytes, `fl, `at, `size
      ensures Valid(S()) && blocks == Shattered(old(blocks), b) && Holding(old(L()), b, i)
      ensures L() == Removed(old(L()), b, i)
    {
      FreeBlockListed(S(), b);
      ValidIsMisplaced(S(), b);
      Unlist(b, i);
      DropUnits(b);
    }

    /** Drop the k-th block of list `n`; the result is the block that comes after it. */
    method DropAndGoOn(b: nat, n: nat, ghost k: nat) returns (r: nat)
      requires Valid(S()) && n <= N_HBLK_FLS && n < |fl| && k < |fl[n]| && fl[n][k] == b
      modifies `blocks, `owner, `largeFree, `heads, `prev, `next, `bytes, `fl, `at, `size
      ensures Valid(S()) && n < |fl| && fl[n] == Without(old(fl)[n], k)
      ensures r == if k == |fl[n]| then 0 else fl[n][k]
      ensures b in old(blocks) && old(blocks)[b].free && blocks == Shattered(old(blocks), b)
    {
      MemberIsFree(S(), n, k);
      PositionIs(L(), n, k);
      var p := prev[b];
      Drop(b, n);
      if p == 0 {
        HeadIsFirst(L(), n);
        r := heads[n];
      } else {
        MemberIsFree(S(), n, k - 1);
        r := next[p];
      }
    }

    /**
     The search of list `n` has come to its k-th block, `b`: if any block on the list can serve
     the request, one from here on can, and nothing of use has been dropped.
     */
    ghost predicate Searching(q: Request, n: nat, maySplit: bool, was: Blocks, b: nat, k: nat)
      requires bl.Valid()
      reads this, bl
    {
      && Valid(S()) && Kept(bl, q, was, blocks) && (findLeak ==> blocks == was)
      && n < |fl| && k <= |fl[n]| && b == (if k == |fl[n]| then 0 else fl[n][k])
      && (AnyFrom(bl, q, maySplit, fl[n], blocks, 0) ==> AnyFrom(bl, q, maySplit, fl[n], blocks, k))
    }

    /** The k-th block is hopeless; every fourth such block is dropped. */
    method PassHopeless(q: Request, b: nat, n: nat, maySplit: bool, ghost was: Blocks, ghost k: nat)
      returns (b': nat, ghost k': nat)
      requires bl.Valid() && Searching(q, n, maySplit, was, b, k) && b != 0 && n <= N_HBLK_FLS
      requires q.heedful && q.need == 1 && b in blocks && !Suits(bl, q, b, blocks[b].len)
      modifies `dropCount, `blocks, `owner, `largeFree, `heads, `prev, `next, `bytes, `fl, `at, `size
      ensures Searching(q, n, maySplit, was, b', k') && |fl[n]| - k' < |old(fl)[n]| - k
      ensures dropCount == if findLeak then old(dropCount) else old(dropCount) + 1
      ensures blocks == if !findLeak && dropCount % 4 == 0 then Shattered(old(blocks), b) else old(blocks)
    {
      k' := k;
      MemberIsFree(S(), n, k);
      if !findLeak {
        dropCount := dropCount + 1;
        if dropCount % 4 == 0 {
          DropStep(bl, q, maySplit, S(), n, k);
          KeptDropped(bl, q, was, S(), b);
          b' := DropAndGoOn(b, n, k);
          return;
        }
      }
      SkipStep(bl, q, maySplit, fl[n], blocks, k);
      b', k' := next[b], k + 1;
    }

    /** The k-th block serves the request. */
    method Grant(q: Request, b: nat, t: nat, n: nat, maySplit: bool, ghost was: Blocks, ghost k: nat)
      requires bl.Valid() && Searching(q, n, maySplit, was, b, k) && b != 0 && n <= N_HBLK_FLS && 0 < q.need
      requires Candidate(bl, q, maySplit, blocks, b) && RightPlace(bl, q, b, blocks[b].len, t)
      modifies this
      ensures Valid(S()) && heapsize == old(heapsize) && sects == old(sects) && t != 0
      ensures !NoCandidate(bl, q, maySplit, was, n) && Granted(bl, q, was, blocks, t)
      ensures findLeak ==> Used(blocks) == Used(was)[t := q.need]
    {
      MemberIsFree(S(), n, k);
      TakenGranted(bl, q, was, S(), b, t);
      FoundCandidate(bl, q, maySplit, was, blocks, n, b);
      TakeAt(b, t, q.need, n);
    }

    /** Allocate from list `n`. */
    method AllochblkNth(q: Request, n: nat, maySplit: bool) returns (r: nat)
      requires Valid(S()) && bl.Valid() && 0 < q.eff <= q.need && n <= N_HBLK_FLS
      modifies this
      ensures Valid(S()) && heapsize == old(heapsize) && sects == old(sects)
      ensures r == 0 <==> NoCandidate(bl, q, maySplit, old(blocks), n)
      ensures r == 0 ==> Kept(bl, q, old(blocks), blocks)
      ensures r != 0 ==> Granted(bl, q, old(blocks), blocks, r)
      ensures findLeak ==> if r == 0 then blocks == old(blocks) else Used(blocks) == Used(old(blocks))[r := q.need]
    {
      HeadIsFirst(L(), n);
      var b := heads[n];
      ghost var was, k := blocks, 0;
      while b != 0
        invariant Searching(q, n, maySplit, was, b, k) && heapsize == old(heapsize) && sects == old(sects)
        decreases |fl[n]| - k
      {
        var v := Examine(q, b, n, maySplit, k);
        if v.Take? {
          Grant(q, b, v.at, n, maySplit, was, k);
          return v.at;
        }
        if v.Hopeless? {
          b, k := PassHopeless(q, b, n, maySplit, was, k);
        } else {
          MemberIsFree(S(), n, k);
          SkipStep(bl, q, maySplit, fl[n], blocks, k);
          b, k := next[b], k + 1;
        }
      }
      EndOfList(bl, q, maySplit, was, S(), n, k);
      return 0;
    }

    /** Serve a request: an exact fit first, then blocks on lists up to `splitLimit`, which may be split. */
    method Serve(q: Request, splitLimit: nat) returns (r: nat)
      requires Valid(S()) && bl.Valid() && 0 < q.eff <= q.need && splitLimit <= N_HBLK_FLS
      modifies this
      ensures Valid(S()) && heapsize == old(heapsize) && sects == old(sects)
      ensures r == 0 <==> Unservable(bl, q, old(blocks), splitLimit)
      ensures r == 0 ==> Kept(bl, q, old(blocks), blocks)
      ensures r != 0 ==> Granted(bl, q, old(blocks), blocks, r)
      ensures findLeak ==> if r == 0 then blocks == old(blocks) else Used(blocks) == Used(old(blocks))[r := q.need]
    {
      if q.need >= LIMIT {
        NoneLargeEnough(bl, q, S(), splitLimit);
        return 0;
      }
      ghost var was := blocks;
      var start := FlFromBlocks(q.need);
      r := AllochblkNth(q, start, false);
      if r != 0 {
        ServableExactly(bl, q, was, splitLimit);
        return;
      }
      var i := if start < UNIQUE_THRESHOLD then start + 1 else start;
      ghost var first := i;
      while i <= splitLimit
        invariant first <= i && Valid(S()) && heapsize == old(heapsize) && sects == old(sects)
        invariant Kept(bl, q, was, blocks) && (findLeak ==> blocks == was)
        invariant forall n :: first <= n < i ==> NoCandidate(bl, q, true, was, n)
        decreases splitLimit + 1 - i
      {
        ghost var now := blocks;
        r := AllochblkNth(q, i, true);
        SinceThen(bl, q, was, now, i);
        if r != 0 {
          GrantedSince(bl, q, was, now, blocks, r);
          ServableBySplitting(bl, q, was, i, splitLimit);
          return;
        }
        KeptSince(bl, q, was, now, blocks);
        i := i + 1;
      }
      AllListsTried(bl, q, was, first, splitLimit);
      return 0;
    }

    /**
     Allocate a block of `need` unit blocks.  Blocks on lists up to `splitLimit` may be split;
     whether to split or rather to collect is for the caller to say.  What is allocated stays so;
     free blocks are dropped only for single unit blocks that heed the black list.
     */
    method Allochblk(need: nat, kind: Kind, ignoreOffPage: bool, limit: nat, splitLimit: nat) returns (r: nat)
      requires Valid(S()) && bl.Valid() && 0 < need && splitLimit <= N_HBLK_FLS
      modifies this
      ensures Valid(S()) && heapsize == old(heapsize) && sects == old(sects)
      ensures r != 0 ==> r in blocks && blocks[r] == Blk(need, false)
      ensures forall c :: c in old(blocks) && !old(blocks)[c].free ==>
        c != r && c in blocks && blocks[c] == old(blocks)[c]
      ensures findLeak || kind == Uncollectable || kind == PtrFree || need > 1 ==>
        if r == 0 then blocks == old(blocks) else Used(blocks) == Used(old(blocks))[r := need]
      ensures kind == Uncollectable || (kind == PtrFree && need <= 2) ==>
        && (r == 0 <==> forall b :: Admissible(old(blocks), b, need, splitLimit) ==> old(blocks)[b].len < need)
        && (r != 0 ==> r in old(blocks) && old(blocks)[r].free && need <= old(blocks)[r].len)
      ensures kind == Normal || (kind == PtrFree && need > 2) ==>
        var span := if ignoreOffPage then 1 else need;
        && (r == 0 <==> forall b, t :: Admissible(old(blocks), b, need, splitLimit) ==>
          !Offer(bl, need, span, limit, b, old(blocks)[b].len, t))
        && (r != 0 ==> exists b :: FirstOffer(bl, need, span, limit, old(blocks), b, r))
    {
      var q := RequestFor(need, kind, ignoreOffPage, limit);
      ghost var was := blocks;
      NoBlockAtZero(blocks, owner, counts);
      r := Serve(q, splitLimit);
      if q.heedful {
        HeedfulFailure(bl, q, was, splitLimit);
        if r != 0 {
          HeedfulGrant(bl, q, was, blocks, r);
        }
      } else {
        HeedlessMeans(bl, q, was, splitLimit);
      }
    }

    // --------------------------------------------------------------- deallocation

    /**
     Free block `n` is taken off its list and becomes part of the free block `a` before it; or the other way
     round.
     */
    method MergeInto(a: nat, c: nat, y: nat)
      requires a in blocks && c in blocks && y in blocks && (y == a || y == c)
      requires Holding(L(), y, FlFromBlocks(blocks[y].len)) &&
        size[y] == blocks[y].len <= bytes[FlFromBlocks(blocks[y].len)]
      modifies `blocks, `owner, `heads, `prev, `next, `bytes, `fl, `at, `size
      ensures S() == Merged(old(S()), a, c, y)
    {
      RemoveFromFlAt(y, FlFromBlocks(blocks[y].len));
      owner := Assign(owner, c, blocks[c].len, a);
      blocks := Merge(blocks, a, c);
    }

    /** The state with a heap size of `total`: that of the heap once a section being added is counted. */
    ghost function T(total: nat): Heap
      reads this
    {
      S().(heapsize := total)
    }

    method MergeNext(b: nat, ghost total: nat)
      requires Loose(T(total), b, b)
      modifies `blocks, `owner, `heads, `prev, `next, `bytes, `fl, `at, `size
      ensures Loose(T(total), b, 0) && Used(blocks) == old(Used(blocks))
      ensures forall p :: FreePair(blocks, p, b) <==> old(FreePair(blocks, p, b))
    {
      var n := b + blocks[b].len;
      if n in blocks && blocks[n].free && blocks[b].len + blocks[n].len < LIMIT {
        ghost var h := T(total);
        PairApart(blocks, owner, counts, b, n);
        SamePredecessor(blocks, b, n);
        NeighbourListed(h, n, b, b);
        MergedNextLoose(h, b, n);
        UsedMerge(blocks, b, n);
        MergeInto(b, n, n);
        assert T(total) == Merged(h, b, n, n);
      } else {
        NextSettled(T(total), b);
      }
    }

    method MergePrev(b: nat, p: nat, ghost total: nat) returns (r: nat)
      requires Loose(T(total), b, 0)
      requires p != 0 ==> FreePair(blocks, p, b)
      requires p == 0 ==> forall c :: !FreePair(blocks, c, b)
      modifies `blocks, `owner, `heads, `prev, `next, `bytes, `fl, `at, `size
      ensures Ready(T(total), r) && Used(blocks) == old(Used(blocks))
    {
      if p != 0 && blocks[p].len + blocks[b].len < LIMIT {
        ghost var h := T(total);
        PairApart(blocks, owner, counts, p, b);
        NeighbourListed(h, p, b, 0);
        MergedPrevReady(h, p, b);
        UsedMerge(blocks, p, b);
        MergeInto(p, b, p);
        assert T(total) == Merged(h, p, b, p);
        return p;
      }
      OnePredecessor(blocks, owner, counts, b);
      PrevSettled(T(total), b);
      return b;
    }

    /** A block that is ready goes to the list for its size. */
    method Insert(b: nat, ghost total: nat)
      requires Ready(T(total), b)
      modifies `blocks, `heads, `prev, `next, `bytes, `fl, `at, `size
      ensures Valid(T(total)) && blocks == old(blocks)
    {
      InsertedValid(T(total), b);
      ghost var h := Inserted(T(total), b);
      AddToFl(b, blocks[b].len);
      assert T(total) == h;
    }

    /** Block `b`, just marked free and on no list, is coalesced with its neighbours and put on a list. */
    method Coalesce(b: nat, ghost total: nat)
      requires Loose(T(total), b, b)
      modifies `blocks, `owner, `heads, `prev, `next, `bytes, `fl, `at, `size
      ensures Valid(T(total)) && Used(blocks) == old(Used(blocks))
    {
      var p := FreeBlockEndingAt(b);
      MergeNext(b, total);
      var c := MergePrev(b, p, total);
      Insert(c, total);
    }

    /**
     Free an allocated block.  The two failures abort the program.  A valid heap never
     contains an allocated block that is too large, but a section being added may be.
     */
    method Freehblk(b: nat, ghost total: nat) returns (r: FreeResult)
      requires b in blocks
      requires blocks[b].free || LIMIT <= blocks[b].len || Loose(Vacated(T(total), b), b, b)
      modifies this
      ensures r == TooLarge <==> LIMIT <= old(blocks)[b].len
      ensures r == Duplicate <==> old(blocks)[b].len < LIMIT && old(blocks)[b].free
      ensures r == Freed ==> Valid(T(total)) && Used(blocks) == old(Used(blocks)) - {b}
      ensures r == Freed ==> largeFree == old(largeFree) + old(blocks)[b].len
      ensures r == Freed ==> heapsize == old(heapsize) && sects == old(sects)
    {
      var n := blocks[b].len;
      if n >= LIMIT {
        return TooLarge;
      }
      ghost var h := T(total);
      RemoveCounts(b, n);
      if blocks[b].free {
        return Duplicate;
      }
      UsedFreed(blocks, b);
      blocks := blocks[b := Blk(n, true)];
      largeFree := largeFree + n;
      assert T(total) == Vacated(h, b);
      Coalesce(b, total);
      return Freed;
    }

    /** Free a block of a valid heap: nothing but a second free of the same block can go wrong. */
    method FreeBlock(b: nat) returns (r: FreeResult)
      requires Valid(S()) && b in blocks
      modifies this
      ensures r == Freed <==> old(b in Used(blocks))
      ensures r == Freed ==> Valid(S()) && Used(blocks) == old(Used(blocks)) - {b}
      ensures r == Freed ==> largeFree == old(largeFree) + old(blocks)[b].len
      ensures r == Freed ==> heapsize == old(heapsize) && sects == old(sects)
    {
      ghost var h := S();
      assert T(heapsize) == h;
      LenBelowLimit(h, b);
      if !blocks[b].free {
        VacatedLoose(h, b);
      }
      r := Freehblk(b, heapsize);
    }

    /** Use the `n` unit blocks of memory at `p` as part of the heap. */
    method AddToHeap(p: nat, n: nat) returns (r: AddResult)
      requires Valid(S()) && 0 < n && p + n <= ADDRESS_SPACE && Unclaimed(owner, p, n)
      modifies this
      ensures r == TooManySections <==> MAX_HEAP_SECTS <= |old(sects)|
      ensures var s := Usable(p, n);
        && (r == NothingToAdd <==> |old(sects)| < MAX_HEAP_SECTS && s.len == 0)
        && (r == SectionTooLarge <==> |old(sects)| < MAX_HEAP_SECTS && LIMIT <= s.len)
        && (r == Added ==> heapsize == old(heapsize) + s.len && sects == old(sects) + [s])
      ensures r == NothingToAdd ==> S() == old(S())
      ensures r == Added ==> Valid(S()) && Used(blocks) == old(Used(blocks))
    {
      if |sects| >= MAX_HEAP_SECTS {
        return TooManySections;
      }
      var s := UsablePart(p, n);
      if s.len == 0 {
        return NothingToAdd;
      }
      UnclaimedPart(owner, p, n, s.start, s.len);
      var tooLarge := AddSection(s.start, s.len);
      if tooLarge {
        return SectionTooLarge;
      }
      return Added;
    }

    /** Cut off memory near address 0 and memory that ends where addresses wrap. */
    method UsablePart(p: nat, n: nat) returns (s: Sect)
      requires 0 < n && p + n <= ADDRESS_SPACE
      ensures s == Usable(p, n)
    {
      var start, len := p, n;
      while start <= 1
        invariant p <= start && start + len == p + n && 0 < len && (start == p || start <= 2)
      {
        start, len := start + 1, len - 1;
        if len == 0 {
          return Sect(2, 0);
        }
      }
      if start + len == ADDRESS_SPACE {
        len := len - 1;
      }
      return Sect(start, len);
    }

    method AddSection(p: nat, n: nat) returns (tooLarge: bool)
      requires Valid(S()) && p != 0 && 0 < n && Unclaimed(owner, p, n)
      modifies this
      ensures tooLarge <==> LIMIT <= n
      ensures !tooLarge ==> Valid(S()) && Used(blocks) == old(Used(blocks))
      ensures !tooLarge ==> heapsize == old(heapsize) + n && sects == old(sects) + [Sect(p, n)]
    {
      SectionVacated(S(), p, n);
      UsedAdded(blocks, owner, counts, p, n);
      ghost var h := Entered(S(), p, n);
      var total := heapsize + n;
      blocks := blocks[p := Blk(n, false)];
      owner := Assign(owner, p, n, p);
      sects := sects + [Sect(p, n)];
      assert T(total) == h;
      var f := Freehblk(p, total);
      if f == TooLarge {
        return true;
      }
      ghost var t := T(total);
      heapsize := total;
      assert S() == t;
      return false;
    }
  }

  /** Block `b` split at `k`, if that is inside it. */
  function SplitAt(blocks: Blocks, b: nat, k: nat): Blocks
    requires b in blocks && k <= blocks[b].len
  {
    if k == 0 || k == blocks[b].len then blocks else Split(blocks, b, k)
  }

  lemma UsedTaken(blocks: Blocks, owner: Owner, counts: Counts, b: nat, t: nat, need: nat)
    requires TilePart(blocks, owner, counts) && b in blocks && blocks[b].free
    requires 0 < need && b <= t && t + need <= b + blocks[b].len
    ensures var first := SplitAt(blocks, b, t - b);
      && t in first && need <= first[t].len && t in SplitAt(first, t, need)
      && Used(SetFree(SplitAt(first, t, need), t, false)) == Used(blocks)[t := need]
  {
    var k := t - b;
    assert b < t ==> t !in blocks by {
      if b < t {
        SplitTilePart(blocks, owner, counts, b, k);
        assert b + k == t;
      }
    }
    assert t + need < b + blocks[b].len ==> t + need !in blocks by {
      if t + need < b + blocks[b].len {
        SplitTilePart(blocks, owner, counts, b, k + need);
        assert b + (k + need) == t + need;
      }
    }
    UsedTakenRaw(blocks, b, t, need);
  }

  lemma UsedTakenRaw(blocks: Blocks, b: nat, t: nat, need: nat)
    requires b in blocks && blocks[b].free && 0 < need && b <= t && t + need <= b + blocks[b].len
    requires (b < t ==> t !in blocks) && (t + need < b + blocks[b].len ==> t + need !in blocks)
    ensures var first := SplitAt(blocks, b, t - b);
      && t in first && need <= first[t].len && t in SplitAt(first, t, need)
      && Used(SetFree(SplitAt(first, t, need), t, false)) == Used(blocks)[t := need]
  {
    var first := SplitAt(blocks, b, t - b);
    if b < t {
      assert b + (t - b) == t;
      UsedSplit(blocks, b, t - b);
    }
    if need < first[t].len {
      UsedSplit(first, t, need);
    }
    UsedSet(SplitAt(first, t, need), t, need);
  }

  lemma UnclaimedPart(owner: Owner, p: nat, n: nat, start: nat, len: nat)
    requires Unclaimed(owner, p, n) && p <= start && start + len <= p + n
    ensures Unclaimed(owner, start, len)
  {
    UnclaimedFacts(owner, p, n);
  }

  /** A new section as an allocated block, before its forwarding counts are set up. */
  function Entered(h: Heap, p: nat, n: nat): Heap {
    h.(blocks := h.blocks[p := Blk(n, false)],
       owner := Assign(h.owner, p, n, p),
       heapsize := h.heapsize + n,
       sects := h.sects + [Sect(p, n)])
  }

  /** A new section, entered as an allocated block, can be freed. */
  lemma SectionVacated(h: Heap, p: nat, n: nat)
    requires Valid(h) && p != 0 && 0 < n && Unclaimed(h.owner, p, n)
    ensures n < LIMIT ==> Loose(Vacated(Entered(h, p, n), p), p, p)
  {
    if n < LIMIT {
      NoCounts(h.blocks, h.owner, h.counts, p, n);
      VacatedIsGrown(h, p, n);
      GrownLoose(h, p, n);
    }
  }

  lemma VacatedIsGrown(h: Heap, p: nat, n: nat)
    requires Cleared(h.counts, p, n) == h.counts
    ensures Vacated(Entered(h, p, n), p) == Grown(h, p, n)
  {
    assert SetFree(h.blocks[p := Blk(n, false)], p, true) == h.blocks[p := Blk(n, true)];
  }

  lemma NoCounts(blocks: Blocks, owner: Owner, counts: Counts, p: nat, n: nat)
    requires TilePart(blocks, owner, counts) && Unclaimed(owner, p, n)
    ensures Cleared(counts, p, n) == counts
  {
    TileFacts(blocks, owner, counts);
    UnclaimedFacts(owner, p, n);
    forall u | u in Interior(p, n) ensures u !in counts {
      assert u in Range(p, n);
    }
  }

  lemma UsedAdded(blocks: Blocks, owner: Owner, counts: Counts, p: nat, n: nat)
    requires TilePart(blocks, owner, counts) && Unclaimed(owner, p, n) && n > 0
    ensures Used(blocks[p := Blk(n, false)]) - {p} == Used(blocks)
  {
    TileFacts(blocks, owner, counts);
    UnclaimedFacts(owner, p, n);
    GrowFresh(blocks, owner, p, n);
  }

  lemma SamePredecessor(blocks: Blocks, b: nat, n: nat)
    requires FreePair(blocks, b, n) && b < n
    ensures forall p :: FreePair(Merge(blocks, b, n), p, b) <==> FreePair(blocks, p, b)
  {
  }

  lemma OnePredecessor(blocks: Blocks, owner: Owner, counts: Counts, b: nat)
    requires TilePart(blocks, owner, counts)
    ensures forall c, d :: FreePair(blocks, c, b) && FreePair(blocks, d, b) ==> c == d
  {
    TileFacts(blocks, owner, counts);
    if b in blocks {
      PrecedingBlock(blocks, owner, b);
    }
  }

  lemma NeighbourListed(h: Heap, y: nat, x: nat, z: nat)
    requires Loose(h, x, z) && IsFreeBlock(h, y) && y != x
    ensures var i := FlFromBlocks(h.blocks[y].len);
      Holding(h.lists, y, i) && h.lists.size[y] == h.blocks[y].len <= h.lists.bytes[i]
  {
    FreeBlockOnList(h, y, x, z);
    OnListFacts(h.lists, y, FlFromBlocks(h.blocks[y].len));
  }

  lemma FreeBlockListed(h: Heap, b: nat)
    requires Valid(h) && IsFreeBlock(h, b)
    ensures var i := FlFromBlocks(h.blocks[b].len);
      Holding(h.lists, b, i) && h.lists.size[b] == h.blocks[b].len <= h.lists.bytes[i]
  {
    NoBlockAtZero(h.blocks, h.owner, h.counts);
    FreeBlockOnList(h, b, 0, 0);
    OnListFacts(h.lists, b, FlFromBlocks(h.blocks[b].len));
  }

  lemma OnListPart(l: Lists, t: nat, i: nat)
    requires ListsPart(l) && t in l.at && l.at[t] == i && i <= N_HBLK_FLS
    ensures IsOn(l, t, i) && Holding(l, t, i) && l.size[t] <= l.bytes[i]
  {
    ListsFacts(l);
    OnListFacts(l, t, i);
  }

  lemma NoneLargeEnough(bl: BlackLists, q: Request, h: Heap, splitLimit: nat)
    requires bl.Valid() && Valid(h) && LIMIT <= q.need
    ensures Unservable(bl, q, h.blocks, splitLimit) && Kept(bl, q, h.blocks, h.blocks)
  {
    TileFacts(h.blocks, h.owner, h.counts);
  }

  lemma ServableExactly(bl: BlackLists, q: Request, blocks: Blocks, splitLimit: nat)
    requires bl.Valid() && !NoCandidate(bl, q, false, blocks, FlFromBlocks(q.need))
    ensures !Unservable(bl, q, blocks, splitLimit)
  {
    var b :| b in blocks && FlFromBlocks(blocks[b].len) == FlFromBlocks(q.need) && Candidate(bl, q, false, blocks, b);
    assert Suits(bl, q, b, blocks[b].len);
  }

  lemma ServableBySplitting(bl: BlackLists, q: Request, blocks: Blocks, n: nat, splitLimit: nat)
    requires bl.Valid() && !NoCandidate(bl, q, true, blocks, n) && n <= splitLimit
    ensures !Unservable(bl, q, blocks, splitLimit)
  {
    var b :| b in blocks && FlFromBlocks(blocks[b].len) == n && Candidate(bl, q, true, blocks, b);
    assert Suits(bl, q, b, blocks[b].len);
  }

  /** The list of the request's own size is left out when it holds exact matches only. */
  lemma AllListsTried(bl: BlackLists, q: Request, blocks: Blocks, first: nat, splitLimit: nat)
    requires bl.Valid() && NoCandidate(bl, q, false, blocks, FlFromBlocks(q.need))
    requires first == var start := FlFromBlocks(q.need); if start < UNIQUE_THRESHOLD then start + 1 else start
    requires forall n :: first <= n <= splitLimit ==> NoCandidate(bl, q, true, blocks, n)
    ensures Unservable(bl, q, blocks, splitLimit)
  {
    forall b | b in blocks && blocks[b].free && (blocks[b].len == q.need || FlFromBlocks(blocks[b].len) <= splitLimit)
      ensures !Suits(bl, q, b, blocks[b].len)
    {
      var len := blocks[b].len;
      if len == q.need {
        assert !Candidate(bl, q, false, blocks, b);
      } else if len > q.need {
        FlMonotone(q.need, len);
        assert NoCandidate(bl, q, true, blocks, FlFromBlocks(len));
        assert !Candidate(bl, q, true, blocks, b);
      }
    }
  }

  /** What holds of the blocks now holds of the blocks at the start, when nothing of use has been dropped since. */
  lemma SinceThen(bl: BlackLists, q: Request, was: Blocks, now: Blocks, n: nat)
    requires bl.Valid() && Kept(bl, q, was, now)
    ensures NoCandidate(bl, q, true, now, n) <==> NoCandidate(bl, q, true, was, n)
  {
    forall b ensures Candidate(bl, q, true, now, b) <==> Candidate(bl, q, true, was, b) {
    }
  }

  lemma GrantedSince(bl: BlackLists, q: Request, was: Blocks, mid: Blocks, now: Blocks, r: nat)
    requires bl.Valid() && Kept(bl, q, was, mid) && Granted(bl, q, mid, now, r)
    ensures Granted(bl, q, was, now, r)
  {
    var b :| b in mid && mid[b].free && RightPlace(bl, q, b, mid[b].len, r);
    assert b in was && was[b].free && RightPlace(bl, q, b, was[b].len, r);
  }

  lemma KeptSince(bl: BlackLists, q: Request, was: Blocks, mid: Blocks, now: Blocks)
    requires bl.Valid() && Kept(bl, q, was, mid) && Kept(bl, q, mid, now)
    ensures Kept(bl, q, was, now)
  {
  }

  lemma HeadIsFirst(l: Lists, n: nat)
    requires ListsPart(l) && n <= N_HBLK_FLS
    ensures n < |l.fl| == |l.heads| && l.heads[n] == Front(l.fl[n])
  {
    ListsFacts(l);
    assert ListOkAt(l, n);
  }

  lemma PositionIs(l: Lists, n: nat, k: nat)
    requires ListsPart(l) && n < |l.fl| && k < |l.fl[n]|
    ensures Position(l.fl[n], l.fl[n][k]) == k
  {
    assert Distinct(l.fl[n]) by {
      ListsFacts(l);
      assert ListOkAt(l, n);
    }
    PositionUnique(l.fl[n], k);
  }

  lemma PositionUnique(list: seq<nat>, k: nat)
    requires Distinct(list) && k < |list|
    ensures Position(list, list[k]) == k
  {
    assert list[Position(list, list[k])] == list[k];
  }

  lemma SkipStep(bl: BlackLists, q: Request, maySplit: bool, list: seq<nat>, blocks: Blocks, k: nat)
    requires bl.Valid() && k < |list|
    requires Candidate(bl, q, maySplit, blocks, list[k]) ==>
      k + 1 < |list| && Candidate(bl, q, maySplit, blocks, list[k + 1])
    ensures AnyFrom(bl, q, maySplit, list, blocks, k) ==> AnyFrom(bl, q, maySplit, list, blocks, k + 1)
  {
    if AnyFrom(bl, q, maySplit, list, blocks, k) {
      var j :| k <= j < |list| && Candidate(bl, q, maySplit, blocks, list[j]);
      assert Candidate(bl, q, maySplit, blocks, list[if j == k then k + 1 else j]);
    }
  }

  lemma ShatteredOthers(blocks: Blocks, owner: Owner, counts: Counts, b: nat)
    requires TilePart(blocks, owner, counts) && b in blocks
    ensures forall c :: c in blocks && c != b ==> c in Shattered(blocks, b) && Shattered(blocks, b)[c] == blocks[c]
    ensures forall c :: c in Shattered(blocks, b) && Shattered(blocks, b)[c].free ==> c in blocks && c != b
  {
    TileFacts(blocks, owner, counts);
    RangeOwned(blocks, owner, b);
  }

  lemma DropStep(bl: BlackLists, q: Request, maySplit: bool, h: Heap, n: nat, k: nat)
    requires bl.Valid() && Valid(h) && n < |h.lists.fl| && k < |h.lists.fl[n]| && h.lists.fl[n][k] in h.blocks
    requires !Suits(bl, q, h.lists.fl[n][k], h.blocks[h.lists.fl[n][k]].len)
    requires AnyFrom(bl, q, maySplit, h.lists.fl[n], h.blocks, 0) ==>
      AnyFrom(bl, q, maySplit, h.lists.fl[n], h.blocks, k)
    ensures var list, blocks := Without(h.lists.fl[n], k), Shattered(h.blocks, h.lists.fl[n][k]);
      AnyFrom(bl, q, maySplit, list, blocks, 0) ==> AnyFrom(bl, q, maySplit, list, blocks, k)
  {
    ShatteredOthers(h.blocks, h.owner, h.counts, h.lists.fl[n][k]);
    DropStepRaw(bl, q, maySplit, h.lists.fl[n], h.blocks, Shattered(h.blocks, h.lists.fl[n][k]), k);
  }

  lemma DropStepRaw(bl: BlackLists, q: Request, maySplit: bool, list: seq<nat>, blocks: Blocks, blocks': Blocks, k: nat)
    requires bl.Valid() && k < |list| && list[k] in blocks && !Suits(bl, q, list[k], blocks[list[k]].len)
    requires forall c :: c in blocks && c != list[k] ==> c in blocks' && blocks'[c] == blocks[c]
    requires forall c :: c in blocks' && blocks'[c].free ==> c in blocks && c != list[k]
    requires AnyFrom(bl, q, maySplit, list, blocks, 0) ==> AnyFrom(bl, q, maySplit, list, blocks, k)
    ensures AnyFrom(bl, q, maySplit, Without(list, k), blocks', 0) ==>
      AnyFrom(bl, q, maySplit, Without(list, k), blocks', k)
  {
    var w := Without(list, k);
    if AnyFrom(bl, q, maySplit, w, blocks', 0) {
      var j :| 0 <= j < |w| && Candidate(bl, q, maySplit, blocks', w[j]);
      WithoutAt(list, k, j);
      assert Candidate(bl, q, maySplit, blocks, list[Skip(j, k)]);
      var m :| k <= m < |list| && Candidate(bl, q, maySplit, blocks, list[m]);
      WithoutAt(list, k, m - 1);
      assert Candidate(bl, q, maySplit, blocks', w[m - 1]);
    }
  }

  lemma KeptDropped(bl: BlackLists, q: Request, was: Blocks, h: Heap, b: nat)
    requires bl.Valid() && Valid(h) && b in h.blocks && h.blocks[b].free && !Suits(bl, q, b, h.blocks[b].len) &&
      q.heedful && q.need == 1
    requires Kept(bl, q, was, h.blocks)
    ensures Kept(bl, q, was, Shattered(h.blocks, b))
  {
    ShatteredOthers(h.blocks, h.owner, h.counts, b);
  }

  lemma FoundCandidate(bl: BlackLists, q: Request, maySplit: bool, was: Blocks, now: Blocks, n: nat, b: nat)
    requires bl.Valid() && Kept(bl, q, was, now) && Candidate(bl, q, maySplit, now, b) && FlFromBlocks(now[b].len) == n
    ensures !NoCandidate(bl, q, maySplit, was, n)
  {
    assert Candidate(bl, q, maySplit, was, b);
  }

  lemma EndOfList(bl: BlackLists, q: Request, maySplit: bool, was: Blocks, h: Heap, n: nat, k: nat)
    requires bl.Valid() && Valid(h) && Kept(bl, q, was, h.blocks) && n <= N_HBLK_FLS && n < |h.lists.fl|
    requires k <= |h.lists.fl[n]| && (k < |h.lists.fl[n]| ==> h.lists.fl[n][k] == 0)
    requires AnyFrom(bl, q, maySplit, h.lists.fl[n], h.blocks, 0) ==>
      AnyFrom(bl, q, maySplit, h.lists.fl[n], h.blocks, k)
    ensures NoCandidate(bl, q, maySplit, was, n)
  {
    assert k == |h.lists.fl[n]| by {
      if k < |h.lists.fl[n]| {
        MemberIsFree(h, n, k);
      }
    }
    forall b | b in was && FlFromBlocks(was[b].len) == n ensures !Candidate(bl, q, maySplit, was, b) {
      if Candidate(bl, q, maySplit, was, b) {
        CandidateListed(bl, q, maySplit, h, b);
      }
    }
  }

  lemma CandidateListed(bl: BlackLists, q: Request, maySplit: bool, h: Heap, b: nat)
    requires bl.Valid() && Valid(h) && Candidate(bl, q, maySplit, h.blocks, b)
    ensures var n := FlFromBlocks(h.blocks[b].len);
      n < |h.lists.fl| && AnyFrom(bl, q, maySplit, h.lists.fl[n], h.blocks, 0)
  {
    FreeBlockListed(h, b);
    var list := h.lists.fl[FlFromBlocks(h.blocks[b].len)];
    assert Candidate(bl, q, maySplit, h.blocks, list[Position(list, b)]);
  }

  lemma TakenGranted(bl: BlackLists, q: Request, was: Blocks, h: Heap, b: nat, t: nat)
    requires bl.Valid() && Valid(h) && Kept(bl, q, was, h.blocks) && 0 < q.need
    requires b in h.blocks && h.blocks[b].free && RightPlace(bl, q, b, h.blocks[b].len, t)
    ensures forall now :: Used(now) == Used(h.blocks)[t := q.need] ==> Granted(bl, q, was, now, t)
  {
    TileFacts(h.blocks, h.owner, h.counts);
    forall now | Used(now) == Used(h.blocks)[t := q.need] ensures Granted(bl, q, was, now, t) {
      assert t in Used(now);
      forall c | c in was && !was[c].free ensures c != t && c in now && now[c] == was[c] {
        if c == t {
          assert Inside(h.blocks, b, c);
          TileAt(h.blocks, h.owner, c);
        }
        assert c in Used(h.blocks) && c in Used(now);
      }
    }
  }

  /** `Misplaced`, for a block of `n` unit blocks. */
  ghost predicate MisplacedWith(h: Heap, t: nat, i: nat, n: nat) {
    Misplaced(h, t, i) && h.blocks[t].len == n <= h.lists.bytes[i]
  }

  lemma SplitOffMisplaced(h: Heap, b: nat, t: nat, i: nat)
    requires Valid(h) && IsFreeBlock(h, b) && b < t < b + h.blocks[b].len && i == FlFromBlocks(h.blocks[b].len)
    requires Holding(h.lists, b, i)
    ensures MisplacedWith(SplitOff(h, b, t, i), t, i, h.blocks[b].len - (t - b))
    ensures SplitOff(h, b, t, i).blocks == Split(h.blocks, b, t - b)
  {
    var s := SplitOff(h, b, t, i);
    SplitOffValid(h, b, t, i);
    OnListPart(s.lists, t, i);
  }

  lemma SplitIsFree(blocks: Blocks, b: nat, k: nat)
    requires b in blocks && blocks[b].free && 0 < k < blocks[b].len
    ensures var s := Split(blocks, b, k); s[b] == Blk(k, true) && SetFree(s, b, true) == s
  {
  }

  lemma SplitSteps(blocks: Blocks, b: nat, k: nat)
    requires b in blocks && blocks[b].free && 0 < k < blocks[b].len
    ensures SetFree(blocks[b := Blk(k, true)], b, true)[b + k := Blk(blocks[b].len - k, true)] == Split(blocks, b, k)
    ensures SetFree(blocks[b + k := Blk(blocks[b].len - k, false)], b + k, true)[b := Blk(k, true)] ==
      Split(blocks, b, k)
  {
  }

  lemma CountLeadsDown(blocks: Blocks, owner: Owner, counts: Counts, p: nat)
    requires TilePart(blocks, owner, counts) && p in counts
    ensures 0 < counts[p] < p && p in owner
    ensures p - counts[p] in owner && owner[p - counts[p]] == owner[p] <= p - counts[p]
    ensures forall c :: c in blocks && c <= p ==> c <= p - counts[p]
  {
    TileFacts(blocks, owner, counts);
    var b := owner[p];
    assert Inside(blocks, b, p);
    assert Inside(blocks, b, p - counts[p]);
    forall c | c in blocks && c <= p ensures c <= p - counts[p] {
      if c > b {
        assert Inside(blocks, b, c);
        InteriorIsNoBlock(blocks, owner, b, c);
      }
    }
  }

  /** A block that ends at `b` owns the unit block before `b`. */
  lemma PrecedingBlock(blocks: Blocks, owner: Owner, b: nat)
    requires Tiles(blocks, owner) && b in blocks
    ensures b != 0
    ensures forall c :: c in blocks && c + blocks[c].len == b ==> b - 1 in owner && owner[b - 1] == c
    ensures b - 1 in owner ==>
      owner[b - 1] in blocks && owner[b - 1] < b && owner[b - 1] + blocks[owner[b - 1]].len == b
  {
    TileAt(blocks, owner, b);
    forall c | c in blocks && c + blocks[c].len == b ensures b - 1 in owner && owner[b - 1] == c {
      assert Inside(blocks, c, b - 1);
    }
    if b - 1 in owner {
      assert Inside(blocks, owner[b - 1], b - 1);
      TilesApart(blocks, owner, owner[b - 1], b);
    }
  }

  /** What is on a list is a free block, linked to the next one, of the size the list is for. */
  lemma MemberIsFree(h: Heap, i: nat, k: nat)
    requires Valid(h) && i <= N_HBLK_FLS
    requires i < |h.lists.fl| && k < |h.lists.fl[i]|
    ensures var b := h.lists.fl[i][k];
      && b != 0 && IsFreeBlock(h, b) && FlFromBlocks(h.blocks[b].len) == i
      && b in h.lists.size && h.lists.size[b] == h.blocks[b].len
      && b in h.lists.next && h.lists.next[b] == After(h.lists.fl[i], k)
      && b in h.lists.prev && h.lists.prev[b] == Before(h.lists.fl[i], k)
  {
    MemberLinks(h.lists, i, k);
    MatchFacts(h.blocks, h.lists, 0);
  }

  lemma MemberLinks(l: Lists, i: nat, k: nat)
    requires ListsPart(l) && i < |l.fl| && k < |l.fl[i]|
    ensures var b := l.fl[i][k];
      && b != 0 && b in l.at && l.at[b] == i
      && b in l.next && l.next[b] == After(l.fl[i], k)
      && b in l.prev && l.prev[b] == Before(l.fl[i], k)
  {
    assert |l.fl| == |l.heads| == |l.bytes| && ListOkAt(l, i) by {
      ListsFacts(l);
    }
    assert MembersOk(l.fl, l.at) by {
      ListsFacts(l);
    }
    LinkedAt(l.fl[i], l.prev, l.next, k);
    MemberAt(l.fl, l.at, i, k);
  }

  lemma MemberAt(fl: seq<seq<nat>>, at: map<nat, nat>, i: nat, k: nat)
    requires MembersOk(fl, at) && i < |fl| && k < |fl[i]|
    ensures fl[i][k] in at && at[fl[i][k]] == i
  {
    assert fl[i][k] in fl[i];
  }
}
