/** The state of the heap-block allocator and what each of its operations does to it. */
module BlockModel {
  import opened FreeLists
  import opened Tiling

  type Positive = n: nat | n > 0 witness 1
  /** Blocks of at least this many unit blocks have sizes in bytes that are negative as signed words. */
  const LIMIT: Positive

  datatype Sect = Sect(start: nat, len: nat)

  datatype Heap = Heap(
    blocks: Blocks,
    owner: Owner,
    counts: Counts,
    lists: Lists,
    largeFree: nat,
    heapsize: nat,
    sects: seq<Sect>)

  // --------------------------------------------------------------- invariants

  ghost predicate LensOk(blocks: Blocks) {
    forall b :: b in blocks ==> blocks[b].len < LIMIT
  }

  ghost predicate TileInv(blocks: Blocks, owner: Owner, counts: Counts) {
    Tiles(blocks, owner) && CountsOk(blocks, owner, counts) && CountsRight(owner, counts) && LensOk(blocks)
  }

  /** Apart from `x`: the free blocks are on the lists, each on the list for its size. */
  ghost predicate MatchBut(blocks: Blocks, lists: Lists, x: nat) {
    && (forall b :: b != x ==> (b in lists.at <==> b in blocks && blocks[b].free))
    && (forall b :: b != x && b in lists.at && b in blocks ==>
          b in lists.size && lists.size[b] == blocks[b].len && lists.at[b] == FlFromBlocks(blocks[b].len))
  }

  /** Block `c` follows block `a`, and both are free. */
  predicate FreePair(blocks: Blocks, a: nat, c: nat) {
    a in blocks && c in blocks && c == a + blocks[a].len && blocks[a].free && blocks[c].free
  }

  /** No two adjacent blocks are both free, except possibly what precedes `x` and what follows `y`. */
  ghost predicate CoalescedBut(blocks: Blocks, x: nat, y: nat) {
    forall a, c :: FreePair(blocks, a, c) ==> c == x || a == y
  }

  ghost predicate InSect(s: Sect, u: nat) {
    s.start <= u < s.start + s.len
  }

  /** The blocks tile the heap sections. */
  ghost predicate SectsTiled(units: set<nat>, sects: seq<Sect>) {
    forall u :: u in units <==> exists i :: 0 <= i < |sects| && InSect(sects[i], u)
  }

  function SectTotal(sects: seq<Sect>): nat {
    if sects == [] then 0 else SectTotal(sects[..|sects| - 1]) + sects[|sects| - 1].len
  }

  ghost predicate SumInv(blocks: Blocks, owner: Owner, largeFree: nat, heapsize: nat, sects: seq<Sect>) {
    && largeFree == |FreeUnits(blocks, owner)| && heapsize == |owner.Keys|
    && heapsize == SectTotal(sects) && SectsTiled(owner.Keys, sects)
  }

  // The parts of the invariant are folded: the definition of a part becomes available to the
  // verifier only where its key is mentioned.

  ghost predicate TileKey(k: nat, blocks: Blocks, owner: Owner, counts: Counts) {
    true
  }

  ghost predicate TilePart(blocks: Blocks, owner: Owner, counts: Counts) {
    forall k: nat {:trigger TileKey(k, blocks, owner, counts)} ::
      TileKey(k, blocks, owner, counts) ==> TileInv(blocks, owner, counts)
  }

  ghost predicate SumKey(k: nat, blocks: Blocks, owner: Owner, largeFree: nat, heapsize: nat, sects: seq<Sect>) {
    true
  }

  ghost predicate SumPart(blocks: Blocks, owner: Owner, largeFree: nat, heapsize: nat, sects: seq<Sect>) {
    forall k: nat {:trigger SumKey(k, blocks, owner, largeFree, heapsize, sects)} ::
      SumKey(k, blocks, owner, largeFree, heapsize, sects) ==> SumInv(blocks, owner, largeFree, heapsize, sects)
  }

  ghost predicate ListsKey(k: nat, l: Lists) {
    true
  }

  ghost predicate ListsPart(l: Lists) {
    forall k: nat {:trigger ListsKey(k, l)} :: ListsKey(k, l) ==> Ok(l) && 0 !in l.at
  }

  ghost predicate MatchKey(k: nat, blocks: Blocks, l: Lists, x: nat) {
    true
  }

  ghost predicate MatchPart(blocks: Blocks, l: Lists, x: nat) {
    forall k: nat {:trigger MatchKey(k, blocks, l, x)} :: MatchKey(k, blocks, l, x) ==> MatchBut(blocks, l, x)
  }

  ghost predicate CoalescedKey(k: nat, blocks: Blocks, heapsize: nat, x: nat, y: nat) {
    true
  }

  ghost predicate CoalescedPart(blocks: Blocks, heapsize: nat, x: nat, y: nat) {
    forall k: nat {:trigger CoalescedKey(k, blocks, heapsize, x, y)} ::
      CoalescedKey(k, blocks, heapsize, x, y) ==> heapsize < LIMIT ==> CoalescedBut(blocks, x, y)
  }

  /** Everything but block `x` is in order, and `y` is the only block that may be followed by a free one. */
  ghost predicate ValidBut(h: Heap, x: nat, y: nat) {
    && TilePart(h.blocks, h.owner, h.counts)
    && SumPart(h.blocks, h.owner, h.largeFree, h.heapsize, h.sects)
    && ListsPart(h.lists) && MatchPart(h.blocks, h.lists, x) && CoalescedPart(h.blocks, h.heapsize, x, y)
  }

  /** Between operations.  Address 0 is not in the heap, so it stands for "no exception". */
  ghost predicate Valid(h: Heap) {
    ValidBut(h, 0, 0) && h.largeFree == Total(h.lists.bytes)
  }

  /** What validity means, all of it. */
  lemma ValidMeans(h: Heap)
    requires Valid(h)
    ensures Tiles(h.blocks, h.owner) && CountsOk(h.blocks, h.owner, h.counts) && CountsRight(h.owner, h.counts)
    ensures h.largeFree == |FreeUnits(h.blocks, h.owner)| && h.heapsize == |h.owner.Keys| == SectTotal(h.sects)
    ensures SectsTiled(h.owner.Keys, h.sects)
    ensures Ok(h.lists) && MatchBut(h.blocks, h.lists, 0) && h.largeFree == Total(h.lists.bytes)
    ensures h.heapsize < LIMIT ==> Coalesced(h.blocks)
    ensures 0 !in h.blocks && 0 !in h.lists.at
  {
    TileFacts(h.blocks, h.owner, h.counts);
    SumFacts(h.blocks, h.owner, h.largeFree, h.heapsize, h.sects);
    ListsFacts(h.lists);
    MatchFacts(h.blocks, h.lists, 0);
    CoalescedFacts(h.blocks, h.heapsize, 0, 0);
    NoBlockAtZero(h.blocks, h.owner, h.counts);
    if h.heapsize < LIMIT {
      forall a, c | a in h.blocks && c in h.blocks && c == a + h.blocks[a].len && h.blocks[a].free
        ensures !h.blocks[c].free
      {
        assert !FreePair(h.blocks, a, c);
      }
    }
  }

  /** Bytes are conserved: what is in use, plus what is on the free lists, is the heap, which is its sections. */
  lemma HeapIsConserved(h: Heap)
    requires Valid(h)
    ensures |h.owner.Keys - FreeUnits(h.blocks, h.owner)| + Total(h.lists.bytes) == h.heapsize == SectTotal(h.sects)
  {
    ValidMeans(h);
    UsedPlusFree(h.blocks, h.owner);
  }

  lemma TileFacts(blocks: Blocks, owner: Owner, counts: Counts)
    requires TilePart(blocks, owner, counts)
    ensures Tiles(blocks, owner) && CountsOk(blocks, owner, counts) && CountsRight(owner, counts) && LensOk(blocks)
  {
    assert TileKey(0, blocks, owner, counts);
  }

  lemma LenBelowLimit(h: Heap, b: nat)
    requires Valid(h) && b in h.blocks
    ensures h.blocks[b].len < LIMIT
  {
    TileFacts(h.blocks, h.owner, h.counts);
  }

  lemma SumFacts(blocks: Blocks, owner: Owner, largeFree: nat, heapsize: nat, sects: seq<Sect>)
    requires SumPart(blocks, owner, largeFree, heapsize, sects)
    ensures SumInv(blocks, owner, largeFree, heapsize, sects)
  {
    assert SumKey(0, blocks, owner, largeFree, heapsize, sects);
  }

  lemma CoalescedFacts(blocks: Blocks, heapsize: nat, x: nat, y: nat)
    requires CoalescedPart(blocks, heapsize, x, y)
    ensures heapsize < LIMIT ==> CoalescedBut(blocks, x, y)
  {
    assert CoalescedKey(0, blocks, heapsize, x, y);
  }

  lemma NoBlockAtZero(blocks: Blocks, owner: Owner, counts: Counts)
    requires TilePart(blocks, owner, counts)
    ensures 0 !in blocks
  {
    TileFacts(blocks, owner, counts);
    if 0 in blocks {
      TileAt(blocks, owner, 0);
      assert false;
    }
  }

  lemma ListsFacts(l: Lists)
    requires ListsPart(l)
    ensures 0 !in l.at && Ok(l)
  {
    assert ListsKey(0, l);
  }

  lemma MatchFacts(blocks: Blocks, l: Lists, x: nat)
    requires MatchPart(blocks, l, x)
    ensures MatchBut(blocks, l, x)
  {
    assert MatchKey(0, blocks, l, x);
  }

  ghost predicate IsFreeBlock(h: Heap, b: nat) {
    b in h.blocks && h.blocks[b].free
  }

  /** A free block, the exception aside, is on the list for its size. */
  lemma FreeBlockOnList(h: Heap, b: nat, x: nat, y: nat)
    requires ValidBut(h, x, y) && IsFreeBlock(h, b) && b != x
    ensures b != 0 && IsOn(h.lists, b, FlFromBlocks(h.blocks[b].len)) &&
      Holding(h.lists, b, FlFromBlocks(h.blocks[b].len))
    ensures h.lists.size[b] == h.blocks[b].len
  {
    NoBlockAtZero(h.blocks, h.owner, h.counts);
    ListsFacts(h.lists);
    MatchFacts(h.blocks, h.lists, x);
    OnListFacts(h.lists, b, FlFromBlocks(h.blocks[b].len));
  }

  // ------------------------------------------------- splitting, seen by tiles

  lemma SplitCounts(blocks: Blocks, owner: Owner, counts: Counts, b: nat, k: nat)
    requires Tiles(blocks, owner) && CountsOk(blocks, owner, counts) && CountsRight(owner, counts)
    requires b in blocks && blocks[b].free && 0 < k < blocks[b].len && b + k !in blocks
    ensures var owner' := Assign(owner, b + k, blocks[b].len - k, b + k);
      CountsOk(Split(blocks, b, k), owner', counts) && CountsRight(owner', counts)
  {
    forall u | u in Range(b + k, blocks[b].len - k) ensures u in owner && owner[u] == b {
      assert Inside(blocks, b, u);
    }
  }

  lemma SplitLens(blocks: Blocks, b: nat, k: nat)
    requires LensOk(blocks) && b in blocks && 0 < k < blocks[b].len
    ensures LensOk(Split(blocks, b, k))
  {
  }

  function SplitOwner(blocks: Blocks, owner: Owner, b: nat, k: nat): Owner
    requires b in blocks && k <= blocks[b].len
  {
    Assign(owner, b + k, blocks[b].len - k, b + k)
  }

  lemma SplitTilePart(blocks: Blocks, owner: Owner, counts: Counts, b: nat, k: nat)
    requires TilePart(blocks, owner, counts) && b in blocks && blocks[b].free && 0 < k < blocks[b].len
    ensures TilePart(Split(blocks, b, k), SplitOwner(blocks, owner, b, k), counts) && b + k !in blocks
  {
    TileFacts(blocks, owner, counts);
    SplitTiles(blocks, owner, b, k);
    SplitCounts(blocks, owner, counts, b, k);
    SplitLens(blocks, b, k);
  }

  lemma SplitSumPart(blocks: Blocks, owner: Owner, counts: Counts, largeFree: nat, heapsize: nat, sects: seq<Sect>,
                     b: nat, k: nat)
    requires TilePart(blocks, owner, counts) && SumPart(blocks, owner, largeFree, heapsize, sects)
    requires b in blocks && 0 < k < blocks[b].len
    ensures SumPart(Split(blocks, b, k), SplitOwner(blocks, owner, b, k), largeFree, heapsize, sects)
  {
    TileFacts(blocks, owner, counts);
    SplitFreeUnits(blocks, owner, b, k);
    AssignKeys(blocks, owner, b, b + k, blocks[b].len - k, b + k);
    SameSums(blocks, owner, Split(blocks, b, k), SplitOwner(blocks, owner, b, k), largeFree, heapsize, sects);
  }

  lemma SameSums(blocks: Blocks, owner: Owner, blocks': Blocks, owner': Owner, largeFree: nat, heapsize: nat,
                 sects: seq<Sect>)
    requires SumPart(blocks, owner, largeFree, heapsize, sects)
    requires FreeUnits(blocks', owner') == FreeUnits(blocks, owner) && owner'.Keys == owner.Keys
    ensures SumPart(blocks', owner', largeFree, heapsize, sects)
  {
    SumFacts(blocks, owner, largeFree, heapsize, sects);
  }

  /** Splitting a block without free neighbours makes one pair of adjacent free blocks. */
  lemma SplitCoalesced(blocks: Blocks, owner: Owner, b: nat, k: nat, x: nat)
    requires Tiles(blocks, owner) && b in blocks && blocks[b].free && 0 < k < blocks[b].len && b + k !in blocks &&
      0 !in blocks
    requires CoalescedBut(blocks, x, 0) && (x == 0 || x == b)
    ensures x == 0 ==> CoalescedBut(Split(blocks, b, k), b + k, 0)
    ensures CoalescedBut(Split(blocks, b, k), x, b)
  {
    var blocks' := Split(blocks, b, k);
    forall a: nat, c: nat | FreePair(blocks', a, c) ensures a == b || (x == b && c == b) {
      if a == b + k {
        assert FreePair(blocks, b, c);
      } else if a != b {
        assert Inside(blocks, a, c - 1);
        assert c == b + k ==> Inside(blocks, b, c - 1);
        assert FreePair(blocks, a, c);
      }
    }
    forall a: nat, c: nat | FreePair(blocks', a, c) && x == 0 ensures c == b + k {
    }
  }

  lemma SplitCoalescedPart(blocks: Blocks, owner: Owner, counts: Counts, heapsize: nat, b: nat, k: nat, x: nat)
    requires TilePart(blocks, owner, counts) && CoalescedPart(blocks, heapsize, x, 0) && (x == 0 || x == b)
    requires b in blocks && blocks[b].free && 0 < k < blocks[b].len && b + k !in blocks
    ensures x == 0 ==> CoalescedPart(Split(blocks, b, k), heapsize, b + k, 0)
    ensures CoalescedPart(Split(blocks, b, k), heapsize, x, b)
  {
    NoBlockAtZero(blocks, owner, counts);
    TileFacts(blocks, owner, counts);
    if heapsize < LIMIT {
      CoalescedFacts(blocks, heapsize, x, 0);
      SplitCoalesced(blocks, owner, b, k, x);
    }
  }

  // --------------------------------------------------------------- allocation

  /** Block `b` on list `i` is split at `t`; `t` takes its place on the list, `b` moves to its own. */
  function SplitOff(h: Heap, b: nat, t: nat, i: nat): Heap
    requires b in h.blocks && b < t < b + h.blocks[b].len && Holding(h.lists, b, i)
  {
    h.(blocks := Split(h.blocks, b, t - b),
       owner := SplitOwner(h.blocks, h.owner, b, t - b),
       lists := SplitOffLists(h.lists, b, t, t - b, h.blocks[b].len - (t - b), i))
  }

  /** The tail `t` in the block's old place, the head `b` at the front of the list for its size. */
  function SplitOffLists(l: Lists, b: nat, t: nat, k: nat, rest: nat, i: nat): Lists
    requires Holding(l, b, i)
  {
    Added(Replaced(l, b, t, rest, i), b, k, FlFromBlocks(k))
  }

  lemma SplitOffListsOk(l: Lists, b: nat, t: nat, k: nat, rest: nat, i: nat)
    requires IsOn(l, b, i) && Holding(l, b, i) && 0 !in l.at && t !in l.at && t != 0 && l.size[b] == k + rest
    ensures var s := SplitOffLists(l, b, t, k, rest, i);
      && ListsPart(s) && Total(s.bytes) == Total(l.bytes)
      && s.at == (l.at - {b})[t := i][b := FlFromBlocks(k)] && s.size == (l.size - {b})[t := rest][b := k]
  {
    OnListFacts(l, b, i);
    ReplacedOk(l, b, t, rest, i);
    AddedOk(Replaced(l, b, t, rest, i), b, k, FlFromBlocks(k));
  }

  lemma SplitOffMatch(blocks: Blocks, l: Lists, b: nat, k: nat, i: nat, s: Lists)
    requires MatchPart(blocks, l, 0) && ListsPart(l) && b in blocks && blocks[b].free && 0 !in blocks &&
      0 < k < blocks[b].len
    requires s.at == (l.at - {b})[b + k := i][b := FlFromBlocks(k)]
    requires s.size == (l.size - {b})[b + k := blocks[b].len - k][b := k]
    ensures MatchPart(Split(blocks, b, k), s, b + k)
  {
    MatchFacts(blocks, l, 0);
    assert 0 !in l.at && l.at.Keys == l.size.Keys by {
      ListsFacts(l);
    }
    SplitOffMatchBut(blocks, l, b, k, i, s);
  }

  lemma SplitOffMatchBut(blocks: Blocks, l: Lists, b: nat, k: nat, i: nat, s: Lists)
    requires MatchBut(blocks, l, 0) && b in blocks && blocks[b].free && 0 !in blocks && 0 < k < blocks[b].len
    requires s.at == (l.at - {b})[b + k := i][b := FlFromBlocks(k)]
    requires s.size == (l.size - {b})[b + k := blocks[b].len - k][b := k]
    requires l.at.Keys == l.size.Keys && 0 !in l.at
    ensures MatchBut(Split(blocks, b, k), s, b + k)
  {
  }

  lemma NotOnList(blocks: Blocks, l: Lists, t: nat, x: nat)
    requires MatchPart(blocks, l, x) && t !in blocks && t != x
    ensures t !in l.at
  {
    MatchFacts(blocks, l, x);
  }

  lemma SplitOffValid(h: Heap, b: nat, t: nat, i: nat)
    requires Valid(h) && IsFreeBlock(h, b) && b < t < b + h.blocks[b].len && i == FlFromBlocks(h.blocks[b].len)
    ensures Holding(h.lists, b, i)
    ensures var s := SplitOff(h, b, t, i);
      && ValidBut(s, t, 0) && Total(s.lists.bytes) == s.largeFree
      && t in s.blocks && s.blocks[t] == Blk(h.blocks[b].len - (t - b), true)
      && t in s.lists.at && s.lists.at[t] == i && t in s.lists.size && s.lists.size[t] == s.blocks[t].len
  {
    NoBlockAtZero(h.blocks, h.owner, h.counts);
    FreeBlockOnList(h, b, 0, 0);
    var k := t - b;
    SplitTilePart(h.blocks, h.owner, h.counts, b, k);
    SplitSumPart(h.blocks, h.owner, h.counts, h.largeFree, h.heapsize, h.sects, b, k);
    NotOnList(h.blocks, h.lists, t, 0);
    ListsFacts(h.lists);
    SplitOffListsOk(h.lists, b, t, k, h.blocks[b].len - k, i);
    SplitOffMatch(h.blocks, h.lists, b, k, i, SplitOff(h, b, t, i).lists);
    SplitCoalescedPart(h.blocks, h.owner, h.counts, h.heapsize, b, k, 0);
  }

  /** Free block `x` is on no list; everything else is in order. */
  ghost predicate Loose(h: Heap, x: nat, y: nat) {
    && ValidBut(h, x, y) && x in h.blocks && h.blocks[x].free && x !in h.lists.at
    && Total(h.lists.bytes) + h.blocks[x].len == h.largeFree
  }

  /** Free block `t` is on list `i`, which need not be the list for its size; everything else is in order. */
  ghost predicate Misplaced(h: Heap, t: nat, i: nat) {
    && ValidBut(h, t, 0) && Total(h.lists.bytes) == h.largeFree && t in h.blocks && h.blocks[t].free
    && IsOn(h.lists, t, i) && Holding(h.lists, t, i) && h.lists.size[t] == h.blocks[t].len
  }

  lemma MatchWeaken(blocks: Blocks, owner: Owner, counts: Counts, l: Lists, x: nat)
    requires TilePart(blocks, owner, counts) && ListsPart(l) && MatchPart(blocks, l, 0)
    ensures MatchPart(blocks, l, x)
  {
    NoBlockAtZero(blocks, owner, counts);
    assert 0 !in l.at by {
      ListsFacts(l);
    }
    MatchFacts(blocks, l, 0);
  }

  lemma CoalescedWeaken(blocks: Blocks, owner: Owner, counts: Counts, heapsize: nat, x: nat, y: nat, x': nat, y': nat)
    requires TilePart(blocks, owner, counts) && CoalescedPart(blocks, heapsize, x, y)
    requires (x == 0 || x == x') && (y == 0 || y == y')
    ensures CoalescedPart(blocks, heapsize, x', y')
  {
    NoBlockAtZero(blocks, owner, counts);
    if heapsize < LIMIT {
      CoalescedFacts(blocks, heapsize, x, y);
      forall a, c | FreePair(blocks, a, c) ensures c == x' || a == y' {
      }
    }
  }

  lemma ValidIsMisplaced(h: Heap, t: nat)
    requires Valid(h) && IsFreeBlock(h, t)
    ensures Misplaced(h, t, FlFromBlocks(h.blocks[t].len))
  {
    NoBlockAtZero(h.blocks, h.owner, h.counts);
    FreeBlockOnList(h, t, 0, 0);
    MatchWeaken(h.blocks, h.owner, h.counts, h.lists, t);
    CoalescedWeaken(h.blocks, h.owner, h.counts, h.heapsize, 0, 0, t, 0);
  }

  // ---- taking the first part of a block

  lemma RemovedPart(l: Lists, b: nat, i: nat)
    requires ListsPart(l) && IsOn(l, b, i) && Holding(l, b, i)
    ensures var s := Removed(l, b, i);
      && ListsPart(s) && Total(s.bytes) + l.size[b] == Total(l.bytes) && s.at == l.at - {b} && s.size == l.size - {b}
  {
    ListsFacts(l);
    RemovedOk(l, b, i);
  }

  /** Block `b` of `n` blocks put on the list for its size. */
  function Enlisted(l: Lists, b: nat, n: nat): Lists
    requires |l.fl| == |l.heads| == |l.bytes| == N_HBLK_FLS + 1
  {
    Added(l, b, n, FlFromBlocks(n))
  }

  lemma EnlistedPart(l: Lists, b: nat, n: nat)
    requires ListsPart(l) && b !in l.at && b != 0
    ensures |l.fl| == |l.heads| == |l.bytes| == N_HBLK_FLS + 1
    ensures var s := Enlisted(l, b, n);
      && ListsPart(s) && Total(s.bytes) == Total(l.bytes) + n
      && s.at == l.at[b := FlFromBlocks(n)] && s.size == l.size[b := n]
  {
    ListsFacts(l);
    AddedOk(l, b, n, FlFromBlocks(n));
  }

  /** Take block `b` off list `i`. */
  function Unlisted(h: Heap, b: nat, i: nat): Heap
    requires Holding(h.lists, b, i)
  {
    h.(lists := Removed(h.lists, b, i))
  }

  lemma MatchRemoved(blocks: Blocks, l: Lists, b: nat, s: Lists)
    requires MatchPart(blocks, l, b) && s.at == l.at - {b} && s.size == l.size - {b}
    ensures MatchPart(blocks, s, b)
  {
    MatchFacts(blocks, l, b);
  }

  lemma UnlistedLoose(h: Heap, t: nat, i: nat)
    requires Misplaced(h, t, i)
    ensures Loose(Unlisted(h, t, i), t, 0)
  {
    RemovedPart(h.lists, t, i);
    MatchRemoved(h.blocks, h.lists, t, Removed(h.lists, t, i));
  }

  /** Free block `t` keeps its first `need` unit blocks; the rest goes to the list for its size. */
  function KeepFirst(h: Heap, t: nat, need: nat): Heap
    requires t in h.blocks && 0 < need < h.blocks[t].len
    requires |h.lists.fl| == |h.lists.heads| == |h.lists.bytes| == N_HBLK_FLS + 1
  {
    var rest := h.blocks[t].len - need;
    h.(blocks := Split(h.blocks, t, need),
       owner := SplitOwner(h.blocks, h.owner, t, need),
       lists := Enlisted(h.lists, t + need, rest))
  }

  lemma KeepFirstMatch(blocks: Blocks, l: Lists, t: nat, need: nat, s: Lists)
    requires MatchPart(blocks, l, t) && t in blocks && blocks[t].free && 0 < need < blocks[t].len && t + need !in blocks
    requires var rest := blocks[t].len - need;
      s.at == l.at[t + need := FlFromBlocks(rest)] && s.size == l.size[t + need := rest]
    ensures MatchPart(Split(blocks, t, need), s, t)
  {
    MatchFacts(blocks, l, t);
  }

  lemma KeepFirstLists(blocks: Blocks, l: Lists, t: nat, need: nat)
    requires MatchPart(blocks, l, t) && ListsPart(l) && t in blocks && blocks[t].free && t !in l.at
    requires 0 < need < blocks[t].len && t + need !in blocks
    ensures |l.fl| == |l.heads| == |l.bytes| == N_HBLK_FLS + 1
    ensures var s := Enlisted(l, t + need, blocks[t].len - need);
      && ListsPart(s) && MatchPart(Split(blocks, t, need), s, t) && t !in s.at
      && Total(s.bytes) + need == Total(l.bytes) + blocks[t].len
  {
    var rest := blocks[t].len - need;
    NotOnList(blocks, l, t + need, t);
    EnlistedPart(l, t + need, rest);
    KeepFirstMatch(blocks, l, t, need, Enlisted(l, t + need, rest));
  }

  /** The lists have their two arrays. */
  predicate Shaped(l: Lists) {
    |l.fl| == |l.heads| == |l.bytes| == N_HBLK_FLS + 1
  }

  lemma KeepFirstTiles(h: Heap, t: nat, need: nat)
    requires Loose(h, t, 0) && 0 < need < h.blocks[t].len
    ensures t + need !in h.blocks
    ensures var blocks, owner := Split(h.blocks, t, need), SplitOwner(h.blocks, h.owner, t, need);
      && TilePart(blocks, owner, h.counts) && SumPart(blocks, owner, h.largeFree, h.heapsize, h.sects)
      && CoalescedPart(blocks, h.heapsize, t, t)
  {
    SplitTilePart(h.blocks, h.owner, h.counts, t, need);
    SplitSumPart(h.blocks, h.owner, h.counts, h.largeFree, h.heapsize, h.sects, t, need);
    SplitCoalescedPart(h.blocks, h.owner, h.counts, h.heapsize, t, need, t);
  }

  lemma KeepFirstLoose(h: Heap, t: nat, need: nat)
    requires Loose(h, t, 0) && 0 < need < h.blocks[t].len
    ensures Shaped(h.lists) && Loose(KeepFirst(h, t, need), t, t) && KeepFirst(h, t, need).blocks[t].len == need
  {
    KeepFirstTiles(h, t, need);
    KeepFirstLists(h.blocks, h.lists, t, need);
  }

  // ---- handing a block out

  /** The unit blocks of a block of `n`, but for the first. */
  function Interior(t: nat, n: nat): (r: set<nat>)
    ensures forall u :: u in r <==> t < u < t + n
  {
    if n == 0 then {} else Range(t + 1, n - 1)
  }

  function CountsFor(t: nat, n: nat): Counts {
    map u | u in Interior(t, n) :: Forward(u - t)
  }

  lemma InteriorOwned(blocks: Blocks, owner: Owner, t: nat)
    requires Tiles(blocks, owner) && t in blocks
    ensures forall u :: u in Interior(t, blocks[t].len) <==> u in owner && owner[u] == t && u != t
  {
    forall u | u in Interior(t, blocks[t].len) ensures u in owner && owner[u] == t && u != t {
      assert Inside(blocks, t, u);
    }
    forall u | u in owner && owner[u] == t && u != t ensures u in Interior(t, blocks[t].len) {
      assert Inside(blocks, owner[u], u);
    }
  }

  /** Loose block `t` is handed out: no longer free, and its interior carries forwarding counts. */
  function Occupied(h: Heap, t: nat): Heap
    requires t in h.blocks && h.blocks[t].len <= h.largeFree
  {
    h.(blocks := SetFree(h.blocks, t, false),
       counts := h.counts + CountsFor(t, h.blocks[t].len),
       largeFree := h.largeFree - h.blocks[t].len)
  }

  lemma OccupiedCounts(blocks: Blocks, owner: Owner, counts: Counts, t: nat)
    requires CountsOk(blocks, owner, counts) && CountsRight(owner, counts) && t in blocks && blocks[t].free
    requires forall u :: u in Interior(t, blocks[t].len) <==> u in owner && owner[u] == t && u != t
    ensures var counts' := counts + CountsFor(t, blocks[t].len);
      CountsOk(SetFree(blocks, t, false), owner, counts') && CountsRight(owner, counts')
  {
  }

  lemma OccupiedTilePart(blocks: Blocks, owner: Owner, counts: Counts, t: nat)
    requires TilePart(blocks, owner, counts) && t in blocks && blocks[t].free
    ensures TilePart(SetFree(blocks, t, false), owner, counts + CountsFor(t, blocks[t].len))
  {
    TileFacts(blocks, owner, counts);
    SetFreeTiles(blocks, owner, t, false);
    InteriorOwned(blocks, owner, t);
    OccupiedCounts(blocks, owner, counts, t);
    assert LensOk(SetFree(blocks, t, false));
  }

  lemma OccupiedSumPart(blocks: Blocks, owner: Owner, counts: Counts, largeFree: nat, heapsize: nat, sects: seq<Sect>,
                        t: nat)
    requires TilePart(blocks, owner, counts) && SumPart(blocks, owner, largeFree, heapsize, sects)
    requires t in blocks && blocks[t].free
    ensures blocks[t].len <= largeFree
    ensures SumPart(SetFree(blocks, t, false), owner, largeFree - blocks[t].len, heapsize, sects)
  {
    TileFacts(blocks, owner, counts);
    SetUsedUnits(blocks, owner, t);
    SumFacts(blocks, owner, largeFree, heapsize, sects);
  }

  lemma OccupiedMatch(blocks: Blocks, l: Lists, t: nat)
    requires MatchPart(blocks, l, t) && t in blocks && t !in l.at
    ensures MatchPart(SetFree(blocks, t, false), l, 0)
  {
    MatchFacts(blocks, l, t);
  }

  lemma OccupiedCoalesced(blocks: Blocks, heapsize: nat, t: nat)
    requires CoalescedPart(blocks, heapsize, t, t) && t in blocks
    ensures CoalescedPart(SetFree(blocks, t, false), heapsize, 0, 0)
  {
    if heapsize < LIMIT {
      CoalescedFacts(blocks, heapsize, t, t);
      forall a, c ensures !FreePair(SetFree(blocks, t, false), a, c) {
        assert FreePair(SetFree(blocks, t, false), a, c) ==> FreePair(blocks, a, c);
      }
    }
  }

  lemma OccupiedValid(h: Heap, t: nat)
    requires Loose(h, t, t)
    ensures h.blocks[t].len <= h.largeFree && Valid(Occupied(h, t))
  {
    OccupiedTilePart(h.blocks, h.owner, h.counts, t);
    OccupiedSumPart(h.blocks, h.owner, h.counts, h.largeFree, h.heapsize, h.sects, t);
    OccupiedMatch(h.blocks, h.lists, t);
    OccupiedCoalesced(h.blocks, h.heapsize, t);
  }

  // ------------------------------------------------------------- deallocation

  /** The forwarding counts without those of the interior of a block of `n`. */
  function Cleared(counts: Counts, b: nat, n: nat): Counts {
    counts - Interior(b, n)
  }

  function Vacated(h: Heap, b: nat): Heap
    requires b in h.blocks
  {
    h.(blocks := SetFree(h.blocks, b, true),
       counts := Cleared(h.counts, b, h.blocks[b].len),
       largeFree := h.largeFree + h.blocks[b].len)
  }

  lemma VacatedCounts(blocks: Blocks, owner: Owner, counts: Counts, b: nat)
    requires CountsOk(blocks, owner, counts) && CountsRight(owner, counts) && b in blocks && !blocks[b].free
    requires forall u :: u in Interior(b, blocks[b].len) <==> u in owner && owner[u] == b && u != b
    ensures var counts' := Cleared(counts, b, blocks[b].len);
      CountsOk(SetFree(blocks, b, true), owner, counts') && CountsRight(owner, counts')
  {
  }

  lemma VacatedTilePart(blocks: Blocks, owner: Owner, counts: Counts, b: nat)
    requires TilePart(blocks, owner, counts) && b in blocks && !blocks[b].free
    ensures TilePart(SetFree(blocks, b, true), owner, Cleared(counts, b, blocks[b].len))
  {
    TileFacts(blocks, owner, counts);
    SetFreeTiles(blocks, owner, b, true);
    InteriorOwned(blocks, owner, b);
    VacatedCounts(blocks, owner, counts, b);
    assert LensOk(SetFree(blocks, b, true));
  }

  lemma VacatedSumPart(blocks: Blocks, owner: Owner, counts: Counts, largeFree: nat, heapsize: nat, sects: seq<Sect>,
                       b: nat, free': nat)
    requires TilePart(blocks, owner, counts) && SumPart(blocks, owner, largeFree, heapsize, sects)
    requires b in blocks && !blocks[b].free && free' == largeFree + blocks[b].len
    ensures SumPart(SetFree(blocks, b, true), owner, free', heapsize, sects)
  {
    TileFacts(blocks, owner, counts);
    SetFreeUnits(blocks, owner, b);
    SumFacts(blocks, owner, largeFree, heapsize, sects);
  }

  lemma VacatedMatch(blocks: Blocks, l: Lists, b: nat)
    requires MatchPart(blocks, l, 0) && MatchPart(blocks, l, b) && b in blocks && !blocks[b].free && b != 0
    ensures MatchPart(SetFree(blocks, b, true), l, b) && b !in l.at
  {
    MatchFacts(blocks, l, 0);
    MatchFacts(blocks, l, b);
  }

  lemma VacatedCoalesced(blocks: Blocks, heapsize: nat, b: nat)
    requires CoalescedPart(blocks, heapsize, 0, 0) && b in blocks && 0 !in blocks
    ensures CoalescedPart(SetFree(blocks, b, true), heapsize, b, b)
  {
    if heapsize < LIMIT {
      CoalescedFacts(blocks, heapsize, 0, 0);
      var blocks' := SetFree(blocks, b, true);
      forall a, c | FreePair(blocks', a, c) ensures c == b || a == b {
        assert a != b && c != b ==> FreePair(blocks, a, c);
      }
    }
  }

  lemma VacatedLoose(h: Heap, b: nat)
    requires Valid(h) && b in h.blocks && !h.blocks[b].free
    ensures Loose(Vacated(h, b), b, b)
  {
    VacatedTilePart(h.blocks, h.owner, h.counts, b);
    VacatedSumPart(h.blocks, h.owner, h.counts, h.largeFree, h.heapsize, h.sects, b, Vacated(h, b).largeFree);
    NoBlockAtZero(h.blocks, h.owner, h.counts);
    MatchWeaken(h.blocks, h.owner, h.counts, h.lists, b);
    VacatedMatch(h.blocks, h.lists, b);
    VacatedCoalesced(h.blocks, h.heapsize, b);
  }
}
