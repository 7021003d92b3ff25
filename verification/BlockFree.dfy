/** Coalescing, inserting, dropping and adding blocks. */
module BlockFree {
  import opened FreeLists
  import opened Tiling
  import opened BlockModel

  // ------------------------------------------------------------------ merging

  /** Free block `c`, which follows free block `a`, becomes part of it; `y` is the one that is on a list. */
  function Merged(h: Heap, a: nat, c: nat, y: nat): Heap
    requires a in h.blocks && c in h.blocks && y in h.blocks && Holding(h.lists, y, FlFromBlocks(h.blocks[y].len))
  {
    h.(blocks := Merge(h.blocks, a, c),
       owner := Assign(h.owner, c, h.blocks[c].len, a),
       lists := Removed(h.lists, y, FlFromBlocks(h.blocks[y].len)))
  }

  lemma RangeOwned(blocks: Blocks, owner: Owner, b: nat)
    requires Tiles(blocks, owner) && b in blocks
    ensures forall u :: u in Range(b, blocks[b].len) <==> u in owner && owner[u] == b
    ensures forall u :: u in Range(b, blocks[b].len) && u != b ==> u !in blocks
  {
    forall u | u in Range(b, blocks[b].len) ensures u in owner && owner[u] == b && (u != b ==> u !in blocks) {
      assert Inside(blocks, b, u);
      if u != b {
        InteriorIsNoBlock(blocks, owner, b, u);
      }
    }
    forall u | u in owner && owner[u] == b ensures u in Range(b, blocks[b].len) {
      assert Inside(blocks, owner[u], u);
    }
  }

  lemma MergeCounts(blocks: Blocks, owner: Owner, counts: Counts, a: nat, c: nat)
    requires CountsOk(blocks, owner, counts) && CountsRight(owner, counts) && FreePair(blocks, a, c)
    requires forall u :: u in Range(c, blocks[c].len) <==> u in owner && owner[u] == c
    ensures var owner' := Assign(owner, c, blocks[c].len, a);
      CountsOk(Merge(blocks, a, c), owner', counts) && CountsRight(owner', counts)
  {
  }

  lemma MergeTilePart(blocks: Blocks, owner: Owner, counts: Counts, a: nat, c: nat)
    requires TilePart(blocks, owner, counts) && FreePair(blocks, a, c) && blocks[a].len + blocks[c].len < LIMIT
    ensures TilePart(Merge(blocks, a, c), Assign(owner, c, blocks[c].len, a), counts)
  {
    TileFacts(blocks, owner, counts);
    MergeTiles(blocks, owner, a, c);
    RangeOwned(blocks, owner, c);
    MergeCounts(blocks, owner, counts, a, c);
    assert LensOk(Merge(blocks, a, c));
  }

  lemma MergeSumPart(blocks: Blocks, owner: Owner, counts: Counts, largeFree: nat, heapsize: nat, sects: seq<Sect>,
                     a: nat, c: nat)
    requires TilePart(blocks, owner, counts) && SumPart(blocks, owner, largeFree, heapsize, sects) &&
      FreePair(blocks, a, c)
    ensures SumPart(Merge(blocks, a, c), Assign(owner, c, blocks[c].len, a), largeFree, heapsize, sects)
  {
    TileFacts(blocks, owner, counts);
    MergeTiles(blocks, owner, a, c);
    MergeFreeUnits(blocks, owner, a, c);
    SameSums(blocks, owner, Merge(blocks, a, c), Assign(owner, c, blocks[c].len, a), largeFree, heapsize, sects);
  }

  /** Once `b` has taken in what follows it, only what precedes it may be free. */
  lemma MergeNextCoalesced(blocks: Blocks, owner: Owner, counts: Counts, heapsize: nat, b: nat, n: nat)
    requires TilePart(blocks, owner, counts) && CoalescedPart(blocks, heapsize, b, b) && FreePair(blocks, b, n)
    ensures CoalescedPart(Merge(blocks, b, n), heapsize, b, 0)
  {
    TileFacts(blocks, owner, counts);
    if heapsize < LIMIT {
      CoalescedFacts(blocks, heapsize, b, b);
      var blocks' := Merge(blocks, b, n);
      forall a, c | FreePair(blocks', a, c) ensures c == b || a == 0 {
        if a == b {
          assert FreePair(blocks, n, c);
        } else {
          assert FreePair(blocks, a, c);
        }
      }
    }
  }

  lemma MergePrevCoalesced(blocks: Blocks, owner: Owner, counts: Counts, heapsize: nat, p: nat, b: nat)
    requires TilePart(blocks, owner, counts) && CoalescedPart(blocks, heapsize, b, 0) && FreePair(blocks, p, b)
    ensures CoalescedPart(Merge(blocks, p, b), heapsize, 0, 0)
  {
    NoBlockAtZero(blocks, owner, counts);
    TileFacts(blocks, owner, counts);
    if heapsize < LIMIT {
      CoalescedFacts(blocks, heapsize, b, 0);
      var blocks' := Merge(blocks, p, b);
      forall a, c ensures !FreePair(blocks', a, c) {
        if FreePair(blocks', a, c) {
          if a == p {
            assert FreePair(blocks, b, c);
          } else {
            assert FreePair(blocks, a, c);
          }
        }
      }
    }
  }

  lemma MergeMatch(blocks: Blocks, l: Lists, a: nat, c: nat, x: nat, y: nat, s: Lists)
    requires MatchPart(blocks, l, x) && FreePair(blocks, a, c) && a != c && x !in l.at
    requires (x == a && y == c) || (x == c && y == a)
    requires s.at == l.at - {y} && s.size == l.size - {y}
    ensures MatchPart(Merge(blocks, a, c), s, a) && a !in s.at
  {
    MatchFacts(blocks, l, x);
  }

  lemma MergeListsOk(h: Heap, a: nat, c: nat, x: nat, y: nat, z: nat)
    requires Loose(h, x, z) && FreePair(h.blocks, a, c) && a != c && ((x == a && y == c) || (x == c && y == a))
    ensures Holding(h.lists, y, FlFromBlocks(h.blocks[y].len))
    ensures var s := Removed(h.lists, y, FlFromBlocks(h.blocks[y].len));
      && ListsPart(s) && MatchPart(Merge(h.blocks, a, c), s, a) && a !in s.at
      && Total(s.bytes) + h.blocks[a].len + h.blocks[c].len == h.largeFree
  {
    FreeBlockOnList(h, y, x, z);
    var i := FlFromBlocks(h.blocks[y].len);
    RemovedPart(h.lists, y, i);
    MergeMatch(h.blocks, h.lists, a, c, x, y, Removed(h.lists, y, i));
  }

  lemma PairApart(blocks: Blocks, owner: Owner, counts: Counts, a: nat, c: nat)
    requires TilePart(blocks, owner, counts) && FreePair(blocks, a, c)
    ensures a < c
  {
    TileFacts(blocks, owner, counts);
  }

  /** Coalescing with the successor. */
  lemma MergedNextLoose(h: Heap, b: nat, n: nat)
    requires Loose(h, b, b) && FreePair(h.blocks, b, n) && h.blocks[b].len + h.blocks[n].len < LIMIT
    ensures Holding(h.lists, n, FlFromBlocks(h.blocks[n].len)) && Loose(Merged(h, b, n, n), b, 0)
  {
    PairApart(h.blocks, h.owner, h.counts, b, n);
    MergeListsOk(h, b, n, b, n, b);
    MergeTilePart(h.blocks, h.owner, h.counts, b, n);
    MergeSumPart(h.blocks, h.owner, h.counts, h.largeFree, h.heapsize, h.sects, b, n);
    MergeNextCoalesced(h.blocks, h.owner, h.counts, h.heapsize, b, n);
  }

  /** Free block `x` is on no list and all its free neighbours are too large to merge with. */
  ghost predicate Ready(h: Heap, x: nat) {
    Loose(h, x, 0) && CoalescedPart(h.blocks, h.heapsize, 0, 0)
  }

  /** Coalescing with the predecessor. */
  lemma MergedPrevReady(h: Heap, p: nat, b: nat)
    requires Loose(h, b, 0) && FreePair(h.blocks, p, b) && h.blocks[p].len + h.blocks[b].len < LIMIT
    ensures Holding(h.lists, p, FlFromBlocks(h.blocks[p].len)) && Ready(Merged(h, p, b, p), p)
  {
    PairApart(h.blocks, h.owner, h.counts, p, b);
    MergeListsOk(h, p, b, b, p, 0);
    MergeTilePart(h.blocks, h.owner, h.counts, p, b);
    MergeSumPart(h.blocks, h.owner, h.counts, h.largeFree, h.heapsize, h.sects, p, b);
    MergePrevCoalesced(h.blocks, h.owner, h.counts, h.heapsize, p, b);
    var s := Merged(h, p, b, p);
    CoalescedWeaken(s.blocks, s.owner, s.counts, s.heapsize, 0, 0, p, 0);
  }

  /** Two neighbours fit in the heap. */
  lemma PairFits(blocks: Blocks, owner: Owner, counts: Counts, largeFree: nat, heapsize: nat, sects: seq<Sect>, a: nat,
                 c: nat)
    requires TilePart(blocks, owner, counts) && SumPart(blocks, owner, largeFree, heapsize, sects) &&
      FreePair(blocks, a, c)
    ensures blocks[a].len + blocks[c].len <= heapsize
  {
    TileFacts(blocks, owner, counts);
    SumFacts(blocks, owner, largeFree, heapsize, sects);
    var r := Range(a, blocks[a].len + blocks[c].len);
    forall u | u in r ensures u in owner {
      assert Inside(blocks, if u < c then a else c, u);
    }
    assert owner.Keys == r + (owner.Keys - r);
  }

  /** When no merge with the successor is possible, none is missing. */
  lemma NextSettled(h: Heap, b: nat)
    requires Loose(h, b, b)
    requires forall n :: FreePair(h.blocks, b, n) ==> LIMIT <= h.blocks[b].len + h.blocks[n].len
    ensures Loose(h, b, 0)
  {
    if h.heapsize < LIMIT {
      CoalescedFacts(h.blocks, h.heapsize, b, b);
      forall a, c | FreePair(h.blocks, a, c) ensures c == b || a == 0 {
        PairFits(h.blocks, h.owner, h.counts, h.largeFree, h.heapsize, h.sects, a, c);
      }
    }
  }

  lemma PrevSettled(h: Heap, b: nat)
    requires Loose(h, b, 0)
    requires forall p :: FreePair(h.blocks, p, b) ==> LIMIT <= h.blocks[p].len + h.blocks[b].len
    ensures Ready(h, b)
  {
    if h.heapsize < LIMIT {
      CoalescedFacts(h.blocks, h.heapsize, b, 0);
      NoBlockAtZero(h.blocks, h.owner, h.counts);
      forall a, c ensures !FreePair(h.blocks, a, c) {
        if FreePair(h.blocks, a, c) {
          PairFits(h.blocks, h.owner, h.counts, h.largeFree, h.heapsize, h.sects, a, c);
        }
      }
    }
  }

  // ---------------------------------------------------------------- inserting

  function Inserted(h: Heap, b: nat): Heap
    requires b in h.blocks && Shaped(h.lists)
  {
    h.(lists := Enlisted(h.lists, b, h.blocks[b].len))
  }

  lemma InsertedMatch(blocks: Blocks, l: Lists, b: nat, s: Lists)
    requires MatchPart(blocks, l, b) && b in blocks && blocks[b].free
    requires s.at == l.at[b := FlFromBlocks(blocks[b].len)] && s.size == l.size[b := blocks[b].len]
    ensures MatchPart(blocks, s, 0)
  {
    MatchFacts(blocks, l, b);
  }

  lemma InsertedValid(h: Heap, b: nat)
    requires Ready(h, b)
    ensures Shaped(h.lists) && Valid(Inserted(h, b))
  {
    NoBlockAtZero(h.blocks, h.owner, h.counts);
    EnlistedPart(h.lists, b, h.blocks[b].len);
    InsertedMatch(h.blocks, h.lists, b, Enlisted(h.lists, b, h.blocks[b].len));
  }

  // ----------------------------------------------------------------- dropping

  /** Block `b` is on no list and becomes one-unit blocks in use. */
  function Shattered(blocks: Blocks, b: nat): Blocks
    requires b in blocks
  {
    (blocks - {b}) + (map u | u in Range(b, blocks[b].len) :: Blk(1, false))
  }

  function ShatteredOwner(blocks: Blocks, owner: Owner, b: nat): Owner
    requires b in blocks
  {
    owner + (map u | u in Range(b, blocks[b].len) :: u)
  }

  function Dropped(h: Heap, b: nat): Heap
    requires b in h.blocks && h.blocks[b].len <= h.largeFree
  {
    h.(blocks := Shattered(h.blocks, b),
       owner := ShatteredOwner(h.blocks, h.owner, b),
       largeFree := h.largeFree - h.blocks[b].len)
  }

  lemma ShatteredTiles(blocks: Blocks, owner: Owner, b: nat)
    requires Tiles(blocks, owner) && b in blocks
    ensures Tiles(Shattered(blocks, b), ShatteredOwner(blocks, owner, b))
    ensures ShatteredOwner(blocks, owner, b).Keys == owner.Keys
  {
    RangeOwned(blocks, owner, b);
    var r := Range(b, blocks[b].len);
    var blocks', owner' := Shattered(blocks, b), ShatteredOwner(blocks, owner, b);
    assert owner'.Keys == owner.Keys;
    forall u | u in owner' ensures Inside(blocks', owner'[u], u) {
      if u !in r {
        assert Inside(blocks, owner[u], u);
      }
    }
    forall c: nat, u: nat | Inside(blocks', c, u) ensures u in owner' && owner'[u] == c {
      if c !in r {
        assert Inside(blocks, c, u);
      }
    }
  }

  lemma ShatteredCounts(blocks: Blocks, owner: Owner, counts: Counts, b: nat)
    requires Tiles(blocks, owner) && CountsOk(blocks, owner, counts) && CountsRight(owner, counts) && b in blocks &&
      blocks[b].free
    ensures var owner' := ShatteredOwner(blocks, owner, b);
      CountsOk(Shattered(blocks, b), owner', counts) && CountsRight(owner', counts)
  {
    RangeOwned(blocks, owner, b);
  }

  lemma ShatteredUnit(blocks: Blocks, owner: Owner, b: nat, u: nat)
    requires Tiles(blocks, owner) && b in blocks && blocks[b].free
    requires u in Range(b, blocks[b].len) <==> u in owner && owner[u] == b
    ensures u in FreeUnits(Shattered(blocks, b), ShatteredOwner(blocks, owner, b)) <==>
      u in FreeUnits(blocks, owner) && u !in Range(b, blocks[b].len)
  {
    if u in owner {
      assert Inside(blocks, owner[u], u);
      RangeOwned(blocks, owner, b);
    }
  }

  lemma CountWithout(all: set<nat>, part: set<nat>, rest: set<nat>)
    requires part <= all && forall u :: u in rest <==> u in all && u !in part
    ensures |rest| + |part| == |all|
  {
    assert all == rest + part && rest !! part;
  }

  lemma ShatteredFreeUnits(blocks: Blocks, owner: Owner, b: nat)
    requires Tiles(blocks, owner) && b in blocks && blocks[b].free
    ensures |FreeUnits(Shattered(blocks, b), ShatteredOwner(blocks, owner, b))| + blocks[b].len ==
      |FreeUnits(blocks, owner)|
  {
    RangeOwned(blocks, owner, b);
    var r := Range(b, blocks[b].len);
    var f := FreeUnits(Shattered(blocks, b), ShatteredOwner(blocks, owner, b));
    forall u ensures u in f <==> u in FreeUnits(blocks, owner) && u !in r {
      ShatteredUnit(blocks, owner, b, u);
    }
    assert r <= FreeUnits(blocks, owner);
    CountWithout(FreeUnits(blocks, owner), r, f);
  }

  lemma ShatteredTilePart(blocks: Blocks, owner: Owner, counts: Counts, b: nat)
    requires TilePart(blocks, owner, counts) && b in blocks && blocks[b].free
    ensures TilePart(Shattered(blocks, b), ShatteredOwner(blocks, owner, b), counts)
  {
    TileFacts(blocks, owner, counts);
    ShatteredTiles(blocks, owner, b);
    ShatteredCounts(blocks, owner, counts, b);
    assert LensOk(Shattered(blocks, b)) by {
      assert blocks[b].len < LIMIT && 0 < blocks[b].len;
    }
  }

  lemma ShatteredSumPart(blocks: Blocks, owner: Owner, counts: Counts, largeFree: nat, heapsize: nat, sects: seq<Sect>,
                         b: nat)
    requires TilePart(blocks, owner, counts) && SumPart(blocks, owner, largeFree, heapsize, sects)
    requires b in blocks && blocks[b].free
    ensures blocks[b].len <= largeFree
    ensures SumPart(Shattered(blocks, b), ShatteredOwner(blocks, owner, b), largeFree - blocks[b].len, heapsize, sects)
  {
    TileFacts(blocks, owner, counts);
    ShatteredTiles(blocks, owner, b);
    ShatteredFreeUnits(blocks, owner, b);
    SumFacts(blocks, owner, largeFree, heapsize, sects);
  }

  lemma ShatteredMatch(blocks: Blocks, owner: Owner, counts: Counts, l: Lists, b: nat)
    requires TilePart(blocks, owner, counts) && MatchPart(blocks, l, b) && b in blocks && b !in l.at
    ensures MatchPart(Shattered(blocks, b), l, 0)
  {
    assert forall u :: u in Range(b, blocks[b].len) && u != b ==> u !in blocks by {
      TileFacts(blocks, owner, counts);
      RangeOwned(blocks, owner, b);
    }
    MatchFacts(blocks, l, b);
    ShatteredMatchBut(blocks, l, b);
  }

  lemma ShatteredMatchBut(blocks: Blocks, l: Lists, b: nat)
    requires MatchBut(blocks, l, b) && b in blocks && b !in l.at
    requires forall u :: u in Range(b, blocks[b].len) && u != b ==> u !in blocks
    ensures MatchBut(Shattered(blocks, b), l, 0)
  {
  }

  lemma ShatteredCoalesced(blocks: Blocks, heapsize: nat, b: nat)
    requires CoalescedPart(blocks, heapsize, b, 0) && b in blocks
    ensures CoalescedPart(Shattered(blocks, b), heapsize, 0, 0)
  {
    if heapsize < LIMIT {
      CoalescedFacts(blocks, heapsize, b, 0);
      var blocks' := Shattered(blocks, b);
      forall a, c | FreePair(blocks', a, c) ensures c == 0 || a == 0 {
        assert FreePair(blocks, a, c);
      }
    }
  }

  /** Dropping a block keeps the heap in order: its units are in use, each by itself. */
  lemma DroppedValid(h: Heap, b: nat)
    requires Loose(h, b, 0)
    ensures h.blocks[b].len <= h.largeFree && Valid(Dropped(h, b))
  {
    ShatteredTilePart(h.blocks, h.owner, h.counts, b);
    ShatteredSumPart(h.blocks, h.owner, h.counts, h.largeFree, h.heapsize, h.sects, b);
    ShatteredMatch(h.blocks, h.owner, h.counts, h.lists, b);
    ShatteredCoalesced(h.blocks, h.heapsize, b);
  }

  // ------------------------------------------------------------------ growing

  ghost predicate UnclaimedKey(k: nat, owner: Owner, p: nat, n: nat) {
    true
  }

  /** No unit block of `[p, p + n)` is in the heap. */
  ghost predicate Unclaimed(owner: Owner, p: nat, n: nat) {
    forall k: nat {:trigger UnclaimedKey(k, owner, p, n)} ::
      UnclaimedKey(k, owner, p, n) ==> forall u :: u in Range(p, n) ==> u !in owner
  }

  lemma UnclaimedFacts(owner: Owner, p: nat, n: nat)
    requires Unclaimed(owner, p, n)
    ensures forall u :: u in Range(p, n) ==> u !in owner
  {
    assert UnclaimedKey(0, owner, p, n);
  }

  /** A section of `n` unit blocks at `p`, as one free block that is on no list yet. */
  function Grown(h: Heap, p: nat, n: nat): Heap {
    h.(blocks := h.blocks[p := Blk(n, true)],
       owner := Assign(h.owner, p, n, p),
       largeFree := h.largeFree + n,
       heapsize := h.heapsize + n,
       sects := h.sects + [Sect(p, n)])
  }

  lemma GrownTiles(blocks: Blocks, owner: Owner, p: nat, n: nat)
    requires Tiles(blocks, owner) && p != 0 && n > 0 && Unclaimed(owner, p, n)
    ensures p !in blocks && Tiles(blocks[p := Blk(n, true)], Assign(owner, p, n, p))
  {
    UnclaimedFacts(owner, p, n);
    GrowFresh(blocks, owner, p, n);
    GrowTiles(blocks, owner, p, n);
    SetFreeTiles(blocks[p := Blk(n, false)], Assign(owner, p, n, p), p, true);
    assert SetFree(blocks[p := Blk(n, false)], p, true) == blocks[p := Blk(n, true)];
  }

  lemma GrownCounts(blocks: Blocks, owner: Owner, counts: Counts, p: nat, n: nat)
    requires Tiles(blocks, owner) && CountsOk(blocks, owner, counts) && CountsRight(owner, counts) && p !in blocks
    requires forall u :: u in Range(p, n) ==> u !in owner
    ensures var owner' := Assign(owner, p, n, p);
      CountsOk(blocks[p := Blk(n, true)], owner', counts) && CountsRight(owner', counts)
  {
    forall u | u in owner ensures owner[u] in blocks {
      assert Inside(blocks, owner[u], u);
    }
  }

  lemma GrownTilePart(blocks: Blocks, owner: Owner, counts: Counts, p: nat, n: nat)
    requires TilePart(blocks, owner, counts) && p != 0 && 0 < n < LIMIT && Unclaimed(owner, p, n)
    ensures p !in blocks && TilePart(blocks[p := Blk(n, true)], Assign(owner, p, n, p), counts)
  {
    TileFacts(blocks, owner, counts);
    GrownTiles(blocks, owner, p, n);
    UnclaimedFacts(owner, p, n);
    GrownCounts(blocks, owner, counts, p, n);
  }

  lemma GrownFreeUnits(blocks: Blocks, owner: Owner, p: nat, n: nat)
    requires Tiles(blocks, owner) && p != 0 && n > 0 && Unclaimed(owner, p, n)
    ensures |FreeUnits(blocks[p := Blk(n, true)], Assign(owner, p, n, p))| == |FreeUnits(blocks, owner)| + n
  {
    UnclaimedFacts(owner, p, n);
    GrowFresh(blocks, owner, p, n);
    GrowTiles(blocks, owner, p, n);
    GrowFreeUnits(blocks, owner, p, n);
    var blocks', owner' := blocks[p := Blk(n, false)], Assign(owner, p, n, p);
    SetFreeUnits(blocks', owner', p);
    assert SetFree(blocks', p, true) == blocks[p := Blk(n, true)];
  }

  lemma GrownSects(units: set<nat>, units': set<nat>, sects: seq<Sect>, p: nat, n: nat)
    requires SectsTiled(units, sects) && forall u :: u in units' <==> u in units || u in Range(p, n)
    ensures SectsTiled(units', sects + [Sect(p, n)])
  {
    var sects' := sects + [Sect(p, n)];
    forall u ensures u in units' <==> exists i :: 0 <= i < |sects'| && InSect(sects'[i], u) {
      if u in units {
        var i :| 0 <= i < |sects| && InSect(sects[i], u);
        assert InSect(sects'[i], u);
      } else if u in units' {
        assert InSect(sects'[|sects|], u);
      } else {
        forall i | 0 <= i < |sects'| ensures !InSect(sects'[i], u) {
          assert i < |sects| ==> sects'[i] == sects[i];
        }
      }
    }
  }

  lemma GrownTotal(sects: seq<Sect>, p: nat, n: nat)
    ensures SectTotal(sects + [Sect(p, n)]) == SectTotal(sects) + n
  {
    var sects' := sects + [Sect(p, n)];
    assert sects'[..|sects|] == sects;
  }

  lemma GrownSums(owner: Owner, largeFree: nat, heapsize: nat, sects: seq<Sect>, p: nat, n: nat,
                  blocks: Blocks, blocks': Blocks, free': nat, size': nat)
    requires SumPart(blocks, owner, largeFree, heapsize, sects) && free' == largeFree + n && size' == heapsize + n
    requires |FreeUnits(blocks', Assign(owner, p, n, p))| == |FreeUnits(blocks, owner)| + n
    requires |Assign(owner, p, n, p).Keys| == |owner.Keys| + n
    ensures SumPart(blocks', Assign(owner, p, n, p), free', size', sects + [Sect(p, n)])
  {
    SumFacts(blocks, owner, largeFree, heapsize, sects);
    GrownSects(owner.Keys, Assign(owner, p, n, p).Keys, sects, p, n);
    GrownTotal(sects, p, n);
  }

  lemma GrownSumPart(blocks: Blocks, owner: Owner, counts: Counts, largeFree: nat, heapsize: nat, sects: seq<Sect>,
                     p: nat, n: nat, free': nat, size': nat)
    requires TilePart(blocks, owner, counts) && SumPart(blocks, owner, largeFree, heapsize, sects)
    requires p != 0 && n > 0 && Unclaimed(owner, p, n) && free' == largeFree + n && size' == heapsize + n
    ensures SumPart(blocks[p := Blk(n, true)], Assign(owner, p, n, p), free', size', sects + [Sect(p, n)])
  {
    TileFacts(blocks, owner, counts);
    GrownFreeUnits(blocks, owner, p, n);
    assert |Assign(owner, p, n, p).Keys| == |owner.Keys| + n by {
      UnclaimedFacts(owner, p, n);
      GrowKeys(owner, p, n);
    }
    GrownSums(owner, largeFree, heapsize, sects, p, n, blocks, blocks[p := Blk(n, true)], free', size');
  }

  lemma GrownMatch(blocks: Blocks, l: Lists, p: nat, n: nat)
    requires MatchPart(blocks, l, 0) && MatchPart(blocks, l, p) && p !in blocks && p != 0
    ensures MatchPart(blocks[p := Blk(n, true)], l, p) && p !in l.at
  {
    MatchFacts(blocks, l, 0);
    MatchFacts(blocks, l, p);
  }

  lemma GrownCoalesced(blocks: Blocks, heapsize: nat, p: nat, n: nat, size': nat)
    requires CoalescedPart(blocks, heapsize, 0, 0) && p !in blocks && 0 !in blocks && size' == heapsize + n
    ensures CoalescedPart(blocks[p := Blk(n, true)], size', p, p)
  {
    if heapsize < LIMIT {
      CoalescedFacts(blocks, heapsize, 0, 0);
      var blocks' := blocks[p := Blk(n, true)];
      forall a, c | FreePair(blocks', a, c) ensures c == p || a == p {
        assert a != p && c != p ==> FreePair(blocks, a, c);
      }
    }
  }

  /** A section is added to a heap in order. */
  lemma GrownLoose(h: Heap, p: nat, n: nat)
    requires Valid(h) && p != 0 && 0 < n < LIMIT && Unclaimed(h.owner, p, n)
    ensures Loose(Grown(h, p, n), p, p)
  {
    var s := Grown(h, p, n);
    GrownTilePart(h.blocks, h.owner, h.counts, p, n);
    GrownSumPart(h.blocks, h.owner, h.counts, h.largeFree, h.heapsize, h.sects, p, n, s.largeFree, s.heapsize);
    NoBlockAtZero(h.blocks, h.owner, h.counts);
    MatchWeaken(h.blocks, h.owner, h.counts, h.lists, p);
    GrownMatch(h.blocks, h.lists, p, n);
    GrownCoalesced(h.blocks, h.heapsize, p, n, s.heapsize);
  }
}
