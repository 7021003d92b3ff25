/** From an address to the object that contains it.  Addresses and sizes are in bytes. */
module ObjectBase {
  import opened Config
  import opened Division
  import opened Tiling
  import opened HeaderIndex
  import opened HeaderQueries

  /** The unit block of an address. */
  function Unit(p: nat): nat {
    p / HBLKSIZE
  }

  function UnitStart(u: nat): nat {
    u * HBLKSIZE
  }

  function BlocksFor(sz: nat): nat {
    (sz + HBLKSIZE - 1) / HBLKSIZE
  }

  /** Allocated blocks hold objects of whole granules and have room for at least one. */
  ghost predicate SizesOk(hdrs: Hdrs) {
    forall b :: UsedAt(hdrs, b) ==>
      0 < hdrs[b].sz && hdrs[b].sz % GRANULE_BYTES == 0 && hdrs[b].len == BlocksFor(hdrs[b].sz)
  }

  /**
   An object of `sz` bytes starts at `s` in a block at `base`: small objects in a row, as many as fit; a large
   one by itself.
   */
  ghost predicate ObjectAt(base: nat, sz: nat, s: nat) {
    if sz <= HBLKSIZE then s + sz <= base + HBLKSIZE && exists k: nat :: s == base + k * sz else s == base
  }

  /** Address `p` is in the object at `s` of allocated block `b`. */
  ghost predicate InObject(hdrs: Hdrs, b: nat, s: nat, p: nat) {
    UsedAt(hdrs, b) && ObjectAt(UnitStart(b), hdrs[b].sz, s) && s <= p < s + hdrs[b].sz
  }

  function AlignWord(x: nat): (r: nat)
    ensures r <= x
  {
    x - x % WORD_BYTES
  }

  /**
   The start of the object of a block at `base` that would contain offset `o`, as computed for its first unit
   block.
   */
  function Rounded(sz: nat, o: nat): (r: nat)
    requires sz > 0
    ensures r <= o
  {
    var a := AlignWord(o);
    a - a % sz
  }

  /** An aligned size leaves no object boundary between a word's start and its bytes. */
  lemma RoundedIs(sz: nat, o: nat, k: nat)
    requires sz > 0 && sz % WORD_BYTES == 0 && k * sz <= o < k * sz + sz
    ensures Rounded(sz, o) == k * sz
  {
    var a := AlignWord(o);
    var w := sz / WORD_BYTES;
    assert sz == w * WORD_BYTES;
    var q := o / WORD_BYTES;
    assert a == q * WORD_BYTES;
    Assoc(k, w, WORD_BYTES);
    MulMono(k * w, q, WORD_BYTES);
    DivModUnique(a, k, a - k * sz, sz);
  }

  lemma Assoc(a: nat, b: nat, c: nat)
    ensures (a * b) * c == a * (b * c)
  {
  }

  lemma UnitParts(p: nat)
    ensures UnitStart(Unit(p)) <= p < UnitStart(Unit(p)) + HBLKSIZE
    ensures UnitStart(Unit(p) + 1) == UnitStart(Unit(p)) + HBLKSIZE
  {
    Distribute(Unit(p), HBLKSIZE);
  }

  /** Rounding an address in its unit block is rounding its offset. */
  lemma AlignIn(u: nat, o: nat)
    ensures AlignWord(UnitStart(u) + o) == UnitStart(u) + AlignWord(o)
  {
    var w := HBLKSIZE / WORD_BYTES;
    assert HBLKSIZE == w * WORD_BYTES;
    Assoc(u, w, WORD_BYTES);
    SumMod(u * w, o, WORD_BYTES);
  }

  lemma SumMod(q: nat, o: nat, m: nat)
    requires m > 0
    ensures (q * m + o) % m == o % m
  {
    var n := o / m;
    assert (q + n) * m == q * m + n * m;
    DivModUnique(q * m + o, q + n, o % m, m);
  }

  /** Blocks of several units hold one object, larger than a unit. */
  lemma LenMeans(sz: nat)
    requires sz > 0
    ensures BlocksFor(sz) == 1 <==> sz <= HBLKSIZE
    ensures UnitStart(BlocksFor(sz)) >= sz && BlocksFor(sz) > 0
  {
  }

  lemma ObjectBounds(b: nat, sz: nat, s: nat, p: nat)
    requires sz > 0 && ObjectAt(UnitStart(b), sz, s) && s <= p < s + sz
    ensures b <= Unit(p) < b + BlocksFor(sz)
  {
    LenMeans(sz);
    assert UnitStart(b) <= s by {
      if sz <= HBLKSIZE {
        var k: nat :| s == UnitStart(b) + k * sz;
        MulMono(0, k, sz);
      }
    }
    UnitBetween(b, BlocksFor(sz), p);
  }

  lemma UnitBetween(b: nat, n: nat, p: nat)
    requires UnitStart(b) <= p < UnitStart(b) + UnitStart(n)
    ensures b <= Unit(p) < b + n
  {
    UnitParts(p);
    assert UnitStart(b) + UnitStart(n) == UnitStart(b + n);
    if Unit(p) < b {
      MulMono(Unit(p) + 1, b, HBLKSIZE);
    }
    if b + n <= Unit(p) {
      MulMono(b + n, Unit(p), HBLKSIZE);
    }
  }

  /** An address in an object is in a unit of the object's block. */
  lemma ObjectUnit(hdrs: Hdrs, owner: Owner, b: nat, s: nat, p: nat)
    requires Intervals(hdrs, owner) && SizesOk(hdrs) && InObject(hdrs, b, s, p)
    ensures Unit(p) in owner && owner[Unit(p)] == b
  {
    ObjectBounds(b, hdrs[b].sz, s, p);
    assert Inside(ToBlocks(hdrs), b, Unit(p));
  }

  /** The candidate start `r` is turned down. */
  predicate Rejected(base: nat, sz: nat, r: nat, p: nat) {
    (r + sz > base + HBLKSIZE && sz <= HBLKSIZE) || p >= r + sz
  }

  /** The candidate start for an address at offset `o` in the first unit, or in a later one, of a block at `base`. */
  function Candidate(base: nat, sz: nat, first: bool, o: nat): nat
    requires sz > 0
  {
    base + (if first then Rounded(sz, o) else 0)
  }

  lemma RoundedIsMultiple(sz: nat, o: nat)
    requires sz > 0
    ensures Rounded(sz, o) == AlignWord(o) / sz * sz
  {
  }

  /** What is not turned down is the object. */
  lemma AcceptedIsObject(base: nat, sz: nat, first: bool, o: nat)
    requires sz > 0 && sz % WORD_BYTES == 0 && (if first then o < HBLKSIZE else sz > HBLKSIZE)
    requires !Rejected(base, sz, Candidate(base, sz, first, o), base + o)
    ensures var r := Candidate(base, sz, first, o); ObjectAt(base, sz, r) && r <= base + o < r + sz
  {
    if sz <= HBLKSIZE {
      RoundedIsMultiple(sz, o);
    } else if first {
      RoundedIs(sz, o, 0);
    }
  }

  /** What is in an object is not turned down. */
  lemma ObjectIsAccepted(base: nat, sz: nat, first: bool, o: nat, s: nat)
    requires sz > 0 && sz % WORD_BYTES == 0 && (if first then o < HBLKSIZE else sz > HBLKSIZE)
    requires ObjectAt(base, sz, s) && s <= base + o < s + sz
    ensures s == Candidate(base, sz, first, o) && !Rejected(base, sz, s, base + o)
  {
    if sz <= HBLKSIZE {
      var k: nat :| s == base + k * sz;
      RoundedIs(sz, o, k);
    } else if first {
      RoundedIs(sz, o, 0);
    }
  }

  /** What the rounding comes to. */
  lemma RoundedStart(b: nat, p: nat, sz: nat)
    requires sz > 0 && b <= Unit(p)
    ensures UnitStart(b) <= p && UnitStart(b + 1) == UnitStart(b) + HBLKSIZE &&
      (b == Unit(p) ==> p - UnitStart(b) < HBLKSIZE)
    ensures var a := AlignWord(if b == Unit(p) then p else UnitStart(b));
      a - a % HBLKSIZE % sz == Candidate(UnitStart(b), sz, b == Unit(p), p - UnitStart(b))
  {
    UnitParts(p);
    MulMono(b, Unit(p), HBLKSIZE);
    Distribute(b, HBLKSIZE);
    var o := if b == Unit(p) then p - UnitStart(b) else 0;
    AlignIn(b, o);
    DivModUnique(UnitStart(b) + AlignWord(o), b, AlignWord(o), HBLKSIZE);
  }

  /** An address outside allocated blocks is in no object; in one, it can only be in an object of that block. */
  lemma OnlyThere(hdrs: Hdrs, owner: Owner, p: nat)
    requires Intervals(hdrs, owner) && SizesOk(hdrs)
    ensures forall c, s :: InObject(hdrs, c, s, p) ==> Unit(p) in owner && owner[Unit(p)] == c
  {
    forall c, s | InObject(hdrs, c, s, p) ensures Unit(p) in owner && owner[Unit(p)] == c {
      ObjectUnit(hdrs, owner, c, s, p);
    }
  }

  /** What is known of an address in allocated block `b`. */
  lemma InBlock(hdrs: Hdrs, owner: Owner, b: nat, p: nat)
    requires Intervals(hdrs, owner) && SizesOk(hdrs) && UsedAt(hdrs, b) && Unit(p) in owner && owner[Unit(p)] == b
    ensures b != 0 && 0 < hdrs[b].sz && hdrs[b].sz % WORD_BYTES == 0 && UnitStart(b) <= p && UnitStart(b) > 0
    ensures if b == Unit(p) then p - UnitStart(b) < HBLKSIZE else hdrs[b].sz > HBLKSIZE
  {
    assert Inside(ToBlocks(hdrs), b, Unit(p));
    LenMeans(hdrs[b].sz);
    TileAt(ToBlocks(hdrs), owner, b);
    UnitsBelow(b, p);
    GranulesAreWords(hdrs[b].sz);
  }

  lemma UnitsBelow(b: nat, p: nat)
    requires 0 < b <= Unit(p)
    ensures 0 < UnitStart(b) <= p && (b == Unit(p) ==> p - UnitStart(b) < HBLKSIZE)
  {
    UnitParts(p);
    MulMono(b, Unit(p), HBLKSIZE);
    MulMono(1, b, HBLKSIZE);
  }

  lemma GranulesAreWords(sz: nat)
    requires sz % GRANULE_BYTES == 0
    ensures sz % WORD_BYTES == 0
  {
    var q, f := sz / GRANULE_BYTES, GRANULE_BYTES / WORD_BYTES;
    assert GRANULE_BYTES == f * WORD_BYTES;
    Assoc(q, f, WORD_BYTES);
    DivModUnique(sz, q * f, 0, WORD_BYTES);
  }

  /** In an allocated block: the candidate is turned down exactly when the address is in no object. */
  lemma Decided(hdrs: Hdrs, owner: Owner, b: nat, p: nat)
    requires Intervals(hdrs, owner) && SizesOk(hdrs) && UsedAt(hdrs, b) && Unit(p) in owner && owner[Unit(p)] == b
    ensures UnitStart(b) <= p && 0 < hdrs[b].sz
    ensures var base := UnitStart(b);
      var r := Candidate(base, hdrs[b].sz, b == Unit(p), p - base);
      && (!Rejected(base, hdrs[b].sz, r, p) ==> InObject(hdrs, b, r, p) && r != 0)
      && (Rejected(base, hdrs[b].sz, r, p) ==> forall c, s :: !InObject(hdrs, c, s, p))
  {
    InBlock(hdrs, owner, b, p);
    OnlyThere(hdrs, owner, p);
    var base, sz, o, first := UnitStart(b), hdrs[b].sz, p - UnitStart(b), b == Unit(p);
    if !Rejected(base, sz, Candidate(base, sz, first, o), p) {
      AcceptedIsObject(base, sz, first, o);
    } else {
      forall s: nat ensures !InObject(hdrs, b, s, p) {
        if InObject(hdrs, b, s, p) {
          ObjectIsAccepted(base, sz, first, o, s);
        }
      }
    }
  }

  /** The start of the object containing `p`, or 0. */
  method Base(ix: Index, p: nat, ghost hdrs: Hdrs, ghost owner: Owner) returns (r: nat)
    requires Describes(ix, hdrs, owner) && SizesOk(hdrs)
    ensures r != 0 ==> exists b :: InObject(hdrs, b, r, p)
    ensures r == 0 ==> forall b, s :: !InObject(hdrs, b, s, p)
  {
    var u := Unit(p);
    var b: nat, e: Entry := FollowCounts(ix, u, hdrs, owner);
    OnlyThere(hdrs, owner, p);
    if e == Nil || e.h.free {
      return 0;
    }
    assert Inside(ToBlocks(hdrs), b, u);
    var sz := e.h.sz;
    var a := AlignWord(if b == u then p else UnitStart(b));
    RoundedStart(b, p, sz);
    Decided(hdrs, owner, b, p);
    r := a - a % HBLKSIZE % sz;
    var limit := r + sz;
    if (limit > UnitStart(b + 1) && sz <= HBLKSIZE) || p >= limit {
      return 0;
    }
  }

  /** A pointer to `p` can be a pointer to an object of block `b`. */
  ghost predicate MayPointInto(hdrs: Hdrs, owner: Owner, p: nat, allInterior: bool, b: nat) {
    && UsedAt(hdrs, b)
    && (b == Unit(p) || (allInterior && Unit(p) in owner && owner[Unit(p)] == b && !hdrs[b].ignoreOffPage
                         && UnitStart(b) <= p < UnitStart(b) + hdrs[b].sz))
  }

  /**
   The header of the block that a possible pointer leads into, if it can be one.  Never that of a
   free block.  Otherwise the address is to be black listed, unless it is past the first unit of an
   allocated block where such pointers are not recognised at all.
   */
  method HeaderCacheMiss(ix: Index, p: nat, allInterior: bool, ghost hdrs: Hdrs, ghost owner: Owner)
    returns (found: Entry, blackListed: bool)
    requires Describes(ix, hdrs, owner)
    ensures found == Nil ==> forall b :: !MayPointInto(hdrs, owner, p, allInterior, b)
    ensures found != Nil ==> exists b :: MayPointInto(hdrs, owner, p, allInterior, b) && found == Header(hdrs[b])
    ensures blackListed ==> found == Nil
    ensures found == Nil && !blackListed <==>
      Unit(p) in owner && Unit(p) != owner[Unit(p)] && UsedAt(hdrs, owner[Unit(p)]) &&
        (allInterior ==> hdrs[owner[Unit(p)]].ignoreOffPage)
  {
    var u := Unit(p);
    var e := ix.HdrAt(u);
    if u in owner {
      assert Inside(ToBlocks(hdrs), owner[u], u);
      MulMono(owner[u], u, HBLKSIZE);
      UnitParts(p);
    }
    if u in hdrs {
      TileAt(ToBlocks(hdrs), owner, u);
    }
    if e.Header? {
      if e.h.free {
        return Nil, true;
      }
      return e, false;
    }
    if e == Nil {
      return Nil, true;
    }
    if !allInterior {
      return Nil, false;
    }
    var current: nat, h: Entry := FollowCounts(ix, u, hdrs, owner);
    if h.h.ignoreOffPage {
      return Nil, false;
    }
    if h.h.free || p - UnitStart(current) >= h.h.sz {
      return Nil, true;
    }
    return h, false;
  }
}
