/**
 The header index as the allocator drives it.  Every step of the allocator updates headers and
 forwarding counts so that the index goes on describing the blocks, which is what all queries rely on.
 */
module HeaderUpdates {
  import opened Config
  import opened Tiling
  import opened HeaderIndex
  import opened HeaderQueries
  import opened ObjectBase
  import BlockFree
  import BlockModel

  function FreeHdr(len: nat): Hdr {
    Hdr(len, true, 0, false)
  }

  ghost predicate TiledKey(k: nat, hdrs: Hdrs, owner: Owner) {
    true
  }

  /** The blocks are disjoint intervals with objects of proper sizes.  Folded: see the key. */
  ghost predicate Tiled(hdrs: Hdrs, owner: Owner) {
    forall k: nat {:trigger TiledKey(k, hdrs, owner)} :: TiledKey(k, hdrs, owner) ==>
      Intervals(hdrs, owner) && SizesOk(hdrs)
  }

  lemma TiledFacts(hdrs: Hdrs, owner: Owner)
    requires Tiled(hdrs, owner)
    ensures Intervals(hdrs, owner) && SizesOk(hdrs)
  {
    assert TiledKey(0, hdrs, owner);
  }

  predicate SizeOk(h: Hdr) {
    !h.free ==> 0 < h.sz && h.sz % GRANULE_BYTES == 0 && h.len == BlocksFor(h.sz)
  }

  /**
   The index of a valid heap holds the headers of its blocks and the allocator's own forwarding counts,
   and nothing else: then the queries can be asked, and otherwise not.
   */
  lemma IndexOfHeap(h: BlockModel.Heap, hdrs: Hdrs, ix: Index)
    requires BlockModel.Valid(h) && ToBlocks(hdrs) == h.blocks && ix.Valid()
    ensures Describes(ix, hdrs, h.owner) <==> forall u: nat :: ix.At(u) == Flat(hdrs, h.counts, u)
  {
    BlockModel.ValidMeans(h);
    ExpectedIsFlat(hdrs, h.owner, h.counts);
  }

  // ------------------------------------------------ what the index says afterwards

  /** A block whose header is replaced, with the same extent. */
  lemma ReplacedExpected(hdrs: Hdrs, owner: Owner, b: nat, h: Hdr, u: nat)
    requires Tiled(hdrs, owner) && b in hdrs && h.len == hdrs[b].len
    ensures Expected(hdrs[b := h], owner, u) ==
      if u == b then Header(h)
      else if b < u < b + h.len then (if h.free then Nil else Jump(Forward(u - b)))
      else Expected(hdrs, owner, u)
  {
    TiledFacts(hdrs, owner);
    assert Inside(ToBlocks(hdrs), b, u) <==> b <= u < b + h.len;
    if Inside(ToBlocks(hdrs), b, u) && u != b {
      InteriorIsNoBlock(ToBlocks(hdrs), owner, b, u);
    }
    if u in owner {
      assert Inside(ToBlocks(hdrs), owner[u], u);
    }
  }

  lemma ReplacedIntervals(hdrs: Hdrs, owner: Owner, b: nat, h: Hdr)
    requires Tiled(hdrs, owner) && b in hdrs && h.len == hdrs[b].len && SizeOk(h)
    ensures Tiled(hdrs[b := h], owner)
    ensures ToBlocks(hdrs[b := h]) == SetFree(ToBlocks(hdrs), b, h.free)
  {
    TiledFacts(hdrs, owner);
    assert ToBlocks(hdrs[b := h]) == SetFree(ToBlocks(hdrs), b, h.free);
    SetFreeTiles(ToBlocks(hdrs), owner, b, h.free);
  }

  /** A new free block. */
  lemma GrownExpected(hdrs: Hdrs, owner: Owner, p: nat, n: nat, u: nat)
    requires Tiled(hdrs, owner) && p !in hdrs && 0 < n && forall v :: v in Range(p, n) ==> v !in owner
    ensures Expected(hdrs[p := FreeHdr(n)], Assign(owner, p, n, p), u) ==
      if u == p then Header(FreeHdr(n)) else Expected(hdrs, owner, u)
  {
    TiledFacts(hdrs, owner);
    if u in hdrs {
      TileAt(ToBlocks(hdrs), owner, u);
    }
    if u in owner {
      assert Inside(ToBlocks(hdrs), owner[u], u);
    }
  }

  lemma GrownIntervals(hdrs: Hdrs, owner: Owner, p: nat, n: nat)
    requires Tiled(hdrs, owner) && p != 0 && 0 < n && forall u :: u in Range(p, n) ==> u !in owner
    ensures p !in hdrs && Tiled(hdrs[p := FreeHdr(n)], Assign(owner, p, n, p))
  {
    TiledFacts(hdrs, owner);
    var blocks := ToBlocks(hdrs);
    GrowFresh(blocks, owner, p, n);
    GrowTiles(blocks, owner, p, n);
    SetFreeTiles(blocks[p := Blk(n, false)], Assign(owner, p, n, p), p, true);
    GrownBlocks(hdrs, p, n);
    GrownSizes(hdrs, p, n);
  }

  lemma GrownBlocks(hdrs: Hdrs, p: nat, n: nat)
    ensures ToBlocks(hdrs[p := FreeHdr(n)]) == SetFree(ToBlocks(hdrs)[p := Blk(n, false)], p, true)
  {
  }

  lemma GrownSizes(hdrs: Hdrs, p: nat, n: nat)
    requires SizesOk(hdrs)
    ensures SizesOk(hdrs[p := FreeHdr(n)])
  {
  }

  function SplitHdrs(hdrs: Hdrs, b: nat, k: nat, c: nat, m: nat): Hdrs {
    hdrs[b := FreeHdr(k)][c := FreeHdr(m)]
  }

  /** `b` is a free block that can be split into `[b, c)` and `[c, c + m)`. */
  ghost predicate Splits(hdrs: Hdrs, owner: Owner, b: nat, k: nat, c: nat, m: nat) {
    Tiled(hdrs, owner) && b in hdrs && hdrs[b].free && 0 < k && 0 < m && hdrs[b].len == k + m && c == b + k
  }

  /** A free block in two. */
  lemma SplitExpected(hdrs: Hdrs, owner: Owner, b: nat, k: nat, c: nat, m: nat, u: nat)
    requires Splits(hdrs, owner, b, k, c, m)
    ensures Expected(SplitHdrs(hdrs, b, k, c, m), Assign(owner, c, m, c), u) ==
      if u == b then Header(FreeHdr(k)) else if u == c then Header(FreeHdr(m)) else Expected(hdrs, owner, u)
  {
    TiledFacts(hdrs, owner);
    NoStartInside(hdrs, owner, b);
    if b <= u < b + hdrs[b].len {
      assert Inside(ToBlocks(hdrs), b, u);
    }
    if u in owner {
      assert Inside(ToBlocks(hdrs), owner[u], u);
    }
  }

  lemma SplitIntervals(hdrs: Hdrs, owner: Owner, b: nat, k: nat, c: nat, m: nat)
    requires Splits(hdrs, owner, b, k, c, m)
    ensures c !in hdrs && Tiled(SplitHdrs(hdrs, b, k, c, m), Assign(owner, c, m, c))
    ensures ToBlocks(SplitHdrs(hdrs, b, k, c, m)) == Split(ToBlocks(hdrs), b, k)
  {
    TiledFacts(hdrs, owner);
    SplitTiles(ToBlocks(hdrs), owner, b, k);
    SplitBlocks(hdrs, b, k, c, m);
    SplitSizes(hdrs, b, k, c, m);
  }

  lemma SplitBlocks(hdrs: Hdrs, b: nat, k: nat, c: nat, m: nat)
    requires b in hdrs && hdrs[b].free && hdrs[b].len == k + m && c == b + k
    ensures ToBlocks(SplitHdrs(hdrs, b, k, c, m)) == Split(ToBlocks(hdrs), b, k)
  {
  }

  lemma SplitSizes(hdrs: Hdrs, b: nat, k: nat, c: nat, m: nat)
    requires SizesOk(hdrs)
    ensures SizesOk(SplitHdrs(hdrs, b, k, c, m))
  {
  }

  function MergedHdrs(hdrs: Hdrs, a: nat, c: nat): Hdrs
    requires a in hdrs && c in hdrs
  {
    (hdrs - {c})[a := FreeHdr(hdrs[a].len + hdrs[c].len)]
  }

  /** Two free blocks in one. */
  lemma MergedExpected(hdrs: Hdrs, owner: Owner, a: nat, c: nat, u: nat)
    requires Tiled(hdrs, owner) && a in hdrs && c in hdrs && c == a + hdrs[a].len && hdrs[a].free && hdrs[c].free
    ensures Expected(MergedHdrs(hdrs, a, c), Assign(owner, c, hdrs[c].len, a), u) ==
      if u == a then Header(FreeHdr(hdrs[a].len + hdrs[c].len)) else if u == c then Nil else Expected(hdrs, owner, u)
  {
    TiledFacts(hdrs, owner);
    var blocks := ToBlocks(hdrs);
    assert a in blocks && c in blocks;
    if c < u < c + hdrs[c].len {
      assert Inside(blocks, c, u);
      InteriorIsNoBlock(blocks, owner, c, u);
    }
    if u in owner {
      assert Inside(blocks, owner[u], u);
    }
  }

  lemma MergedIntervals(hdrs: Hdrs, owner: Owner, a: nat, c: nat)
    requires Tiled(hdrs, owner) && a in hdrs && c in hdrs && c == a + hdrs[a].len && hdrs[a].free && hdrs[c].free
    ensures Tiled(MergedHdrs(hdrs, a, c), Assign(owner, c, hdrs[c].len, a))
    ensures ToBlocks(MergedHdrs(hdrs, a, c)) == Merge(ToBlocks(hdrs), a, c)
  {
    TiledFacts(hdrs, owner);
    MergeTiles(ToBlocks(hdrs), owner, a, c);
    assert ToBlocks(MergedHdrs(hdrs, a, c)) == Merge(ToBlocks(hdrs), a, c);
  }

  function ShatteredHdrs(hdrs: Hdrs, b: nat, h: Hdr): (r: Hdrs)
    requires b in hdrs
    ensures forall u :: u in r <==> b <= u < b + hdrs[b].len || (u in hdrs && u != b)
    ensures forall u :: u in r ==> r[u] == if b <= u < b + hdrs[b].len then h else hdrs[u]
  {
    (hdrs - {b}) + (map u | u in Range(b, hdrs[b].len) :: h)
  }

  /** What is not in a block is in a block that starts elsewhere. */
  lemma OutsideOwner(hdrs: Hdrs, owner: Owner, b: nat, u: nat)
    requires Tiled(hdrs, owner) && b in hdrs && u in owner && !(b <= u < b + hdrs[b].len)
    ensures owner[u] in hdrs && !(b <= owner[u] < b + hdrs[b].len)
  {
    TiledFacts(hdrs, owner);
    assert Inside(ToBlocks(hdrs), owner[u], u);
    NoStartInside(hdrs, owner, b);
  }

  lemma ShatteredOwnerAt(blocks: Blocks, owner: Owner, b: nat, u: nat)
    requires b in blocks
    ensures var o := BlockFree.ShatteredOwner(blocks, owner, b);
      && (u in o <==> u in owner || b <= u < b + blocks[b].len)
      && (u in o ==> o[u] == if b <= u < b + blocks[b].len then u else owner[u])
  {
  }

  /** A free block in allocated unit blocks. */
  lemma ShatteredExpected(hdrs: Hdrs, owner: Owner, b: nat, h: Hdr, u: nat)
    requires Tiled(hdrs, owner) && b in hdrs && h.len == 1 && !h.free
    ensures Expected(ShatteredHdrs(hdrs, b, h), BlockFree.ShatteredOwner(ToBlocks(hdrs), owner, b), u) ==
      if b <= u < b + hdrs[b].len then Header(h) else Expected(hdrs, owner, u)
  {
    TiledFacts(hdrs, owner);
    LenPositive(hdrs, owner, b);
    ShatteredOwnerAt(ToBlocks(hdrs), owner, b, u);
    if u in owner && !(b <= u < b + hdrs[b].len) {
      OutsideOwner(hdrs, owner, b, u);
    }
  }

  lemma ShatteredIntervals(hdrs: Hdrs, owner: Owner, b: nat, h: Hdr)
    requires Tiled(hdrs, owner) && b in hdrs && h.len == 1 && !h.free && SizeOk(h)
    ensures Tiled(ShatteredHdrs(hdrs, b, h), BlockFree.ShatteredOwner(ToBlocks(hdrs), owner, b))
    ensures ToBlocks(ShatteredHdrs(hdrs, b, h)) == BlockFree.Shattered(ToBlocks(hdrs), b)
  {
    TiledFacts(hdrs, owner);
    BlockFree.ShatteredTiles(ToBlocks(hdrs), owner, b);
    ShatteredBlocks(hdrs, b, h);
    ShatteredSizes(hdrs, b, h);
  }

  lemma ShatteredBlocks(hdrs: Hdrs, b: nat, h: Hdr)
    requires b in hdrs && h.len == 1 && !h.free
    ensures ToBlocks(ShatteredHdrs(hdrs, b, h)) == BlockFree.Shattered(ToBlocks(hdrs), b)
  {
  }

  lemma ShatteredSizes(hdrs: Hdrs, b: nat, h: Hdr)
    requires SizesOk(hdrs) && b in hdrs && SizeOk(h)
    ensures SizesOk(ShatteredHdrs(hdrs, b, h))
  {
  }

  // ------------------------------------------------------------- the driven index

  class Headers {
    const ix: Index
    ghost var hdrs: Hdrs
    ghost var owner: Owner

    /** The index describes the blocks. */
    ghost predicate Valid()
      reads this, ix
    {
      ix.Valid() && Tiled(hdrs, owner) && forall u: nat :: ix.At(u) == Expected(hdrs, owner, u)
    }

    /** At start there are no blocks. */
    constructor ()
      ensures Valid() && fresh(ix) && hdrs == map[] && owner == map[]
    {
      ix := new Index();
      hdrs, owner := map[], map[];
    }

    /** That is all the queries require. */
    lemma Answerable()
      requires Valid()
      ensures Describes(ix, hdrs, owner) && SizesOk(hdrs)
    {
      TiledFacts(hdrs, owner);
    }

    /** Whatever the allocator has done: the object that contains an address, or none. */
    method ObjectOf(p: nat) returns (r: nat)
      requires Valid()
      ensures r != 0 ==> exists b :: InObject(hdrs, b, r, p)
      ensures r == 0 ==> forall b, s :: !InObject(hdrs, b, s, p)
    {
      Answerable();
      r := Base(ix, p, hdrs, owner);
    }

    /** New memory becomes a free block. */
    method AddSection(p: nat, n: nat)
      requires Valid() && p != 0 && 0 < n && forall u :: u in Range(p, n) ==> u !in owner
      modifies this, ix
      ensures Valid() && hdrs == old(hdrs)[p := FreeHdr(n)] && owner == Assign(old(owner), p, n, p)
    {
      GrownIntervals(hdrs, owner, p, n);
      ix.InstallHeader(p, FreeHdr(n));
      hdrs, owner := hdrs[p := FreeHdr(n)], Assign(owner, p, n, p);
      forall u: nat ensures ix.At(u) == Expected(hdrs, owner, u) {
        GrownExpected(old(hdrs), old(owner), p, n, u);
      }
    }

    /** A free block becomes an allocated one. */
    method Allocate(b: nat, h: Hdr)
      requires Valid() && b in hdrs && hdrs[b].free && h.len == hdrs[b].len && !h.free
      requires SizeOk(h)
      modifies this, ix
      ensures Valid() && hdrs == old(hdrs)[b := h] && owner == old(owner)
      ensures ToBlocks(hdrs) == SetFree(old(ToBlocks(hdrs)), b, false)
    {
      LenPositive(hdrs, owner, b);
      ReplacedIntervals(hdrs, owner, b, h);
      ix.InstallCounts(b, h.len);
      ix.InstallHeader(b, h);
      hdrs := hdrs[b := h];
      forall u: nat ensures ix.At(u) == Expected(hdrs, owner, u) {
        ReplacedExpected(old(hdrs), owner, b, h, u);
      }
    }

    /** An allocated block becomes a free one. */
    method Free(b: nat)
      requires Valid() && b in hdrs && !hdrs[b].free
      modifies this, ix
      ensures Valid() && hdrs == old(hdrs)[b := FreeHdr(old(hdrs)[b].len)] && owner == old(owner)
      ensures ToBlocks(hdrs) == SetFree(old(ToBlocks(hdrs)), b, true)
    {
      ghost var h := FreeHdr(hdrs[b].len);
      LenPositive(hdrs, owner, b);
      ReplacedIntervals(hdrs, owner, b, h);
      var e := ix.HdrAt(b);
      ix.RemoveCounts(b, e.h.len);
      ix.InstallHeader(b, FreeHdr(e.h.len));
      hdrs := hdrs[b := h];
      forall u: nat ensures ix.At(u) == Expected(hdrs, owner, u) {
        ReplacedExpected(old(hdrs), owner, b, h, u);
      }
    }

    /**
     The first `k` unit blocks of a free block become a block of their own, and the other `m`, from `c` on,
     another.
     */
    method SplitFree(b: nat, k: nat, c: nat, m: nat)
      requires Valid() && Splits(hdrs, owner, b, k, c, m)
      modifies this, ix
      ensures Valid() && ToBlocks(hdrs) == Split(old(ToBlocks(hdrs)), b, k) && owner == Assign(old(owner), c, m, c)
    {
      SplitIntervals(hdrs, owner, b, k, c, m);
      InstallTwo(b, FreeHdr(k), c, FreeHdr(m));
      hdrs, owner := SplitHdrs(hdrs, b, k, c, m), Assign(owner, c, m, c);
      forall u: nat ensures ix.At(u) == Expected(hdrs, owner, u) {
        SplitExpected(old(hdrs), old(owner), b, k, c, m, u);
      }
    }

    /** A free block is merged with the free block that follows it. */
    method MergeFree(a: nat, c: nat)
      requires Valid() && a in hdrs && c in hdrs && c == a + hdrs[a].len && hdrs[a].free && hdrs[c].free
      modifies this, ix
      ensures Valid() && ToBlocks(hdrs) == Merge(old(ToBlocks(hdrs)), a, c)
      ensures owner == Assign(old(owner), c, old(hdrs)[c].len, a)
    {
      MergedIntervals(hdrs, owner, a, c);
      LenPositive(hdrs, owner, a);
      var first := ix.HdrAt(a);
      var second := ix.HdrAt(c);
      InstallAndRemove(a, FreeHdr(first.h.len + second.h.len), c);
      ghost var n := hdrs[c].len;
      hdrs, owner := MergedHdrs(hdrs, a, c), Assign(owner, c, n, a);
      forall u: nat ensures ix.At(u) == Expected(hdrs, owner, u) {
        MergedExpected(old(hdrs), old(owner), a, c, u);
      }
    }

    /** A free block is dropped: it becomes allocated unit blocks. */
    method Drop(b: nat)
      requires Valid() && b in hdrs && hdrs[b].free
      modifies this, ix
      ensures Valid() && ToBlocks(hdrs) == BlockFree.Shattered(old(ToBlocks(hdrs)), b)
      ensures owner == BlockFree.ShatteredOwner(old(ToBlocks(hdrs)), old(owner), b)
    {
      var h := Hdr(1, false, HBLKSIZE, false);
      UnitSize();
      ShatteredIntervals(hdrs, owner, b, h);
      var e := ix.HdrAt(b);
      InstallUnits(b, e.h.len, h);
      ghost var blocks := ToBlocks(hdrs);
      hdrs, owner := ShatteredHdrs(hdrs, b, h), BlockFree.ShatteredOwner(blocks, owner, b);
      forall u: nat ensures ix.At(u) == Expected(hdrs, owner, u) {
        ShatteredExpected(old(hdrs), old(owner), b, h, u);
      }
    }

    method InstallTwo(b: nat, h: Hdr, c: nat, g: Hdr)
      requires ix.Valid() && b != c
      modifies ix
      ensures ix.Valid()
      ensures forall u: nat :: ix.At(u) == if u == b then Header(h) else if u == c then Header(g) else old(ix.At(u))
    {
      ix.InstallHeader(c, g);
      ix.InstallHeader(b, h);
    }

    method InstallAndRemove(a: nat, h: Hdr, c: nat)
      requires ix.Valid() && a != c
      modifies ix
      ensures ix.Valid() && forall u: nat ::
        ix.At(u) == if u == a then Header(h) else if u == c then Nil else old(ix.At(u))
    {
      ix.RemoveHeader(c);
      ix.InstallHeader(a, h);
    }

    /** A header for each unit block of `[b, b + n)`. */
    method InstallUnits(b: nat, n: nat, h: Hdr)
      requires ix.Valid()
      modifies ix
      ensures ix.Valid() && forall u: nat :: ix.At(u) == if b <= u < b + n then Header(h) else old(ix.At(u))
    {
      var i := 0;
      while i < n
        invariant i <= n && ix.Valid()
        invariant forall u: nat :: ix.At(u) == if b <= u < b + i then Header(h) else old(ix.At(u))
      {
        ix.InstallHeader(b + i, h);
        i := i + 1;
      }
    }
  }

  lemma LenPositive(hdrs: Hdrs, owner: Owner, b: nat)
    requires Tiled(hdrs, owner) && b in hdrs
    ensures 0 < hdrs[b].len
  {
    TiledFacts(hdrs, owner);
    assert b in ToBlocks(hdrs);
  }

  lemma UnitSize()
    ensures HBLKSIZE % GRANULE_BYTES == 0 && BlocksFor(HBLKSIZE) == 1
  {
  }
}
