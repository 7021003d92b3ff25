/** The bounds within which the marker takes a word for a possible heap address.  Addresses are in bytes. */
module Plausible {
  import opened Config
  import opened Division

  type WordRange = n: nat | n in {0x1_0000_0000, 0x1_0000_0000_0000_0000} witness 0x1_0000_0000
  /** Addresses are computed modulo this. */
  const ADDRESSES: WordRange

  /** The smallest and the largest step by which the heap grows, in blocks. */
  const LARGE_CONFIG: bool
  const MINHINCR := if LARGE_CONFIG then 64 else 16
  const MAXHINCR := if LARGE_CONFIG then 4096 else 2048

  function Wrapped(x: nat): (r: nat)
    ensures r < ADDRESSES && (x < ADDRESSES ==> r == x)
    ensures ADDRESSES <= x < 2 * ADDRESSES ==> r == x - ADDRESSES
  {
    if ADDRESSES == 0x1_0000_0000 then x % 0x1_0000_0000 else x % 0x1_0000_0000_0000_0000
  }

  /** How much the heap is expected to grow soon, given the allocation that may pass before the next collection. */
  function Slop(minBytes: nat): (slop: nat)
    ensures slop < ADDRESSES
    ensures var s := minBytes + 4 * MAXHINCR * HBLKSIZE; 0 < s && (s < ADDRESSES ==> slop == s)
  {
    Wrapped(minBytes + 4 * MAXHINCR * HBLKSIZE)
  }

  type PageSize = n: nat | n in {4096, 8192, 16384, 32768, 65536} witness 4096
  const PAGE_SIZE: PageSize

  lemma NextMultiple(bytes: nat, p: nat)
    requires 0 < p
    ensures bytes % p <= bytes && (bytes - bytes % p + p) % p == 0
  {
    var q := bytes / p;
    assert bytes == q * p + bytes % p;
    assert bytes - bytes % p + p == (q + 1) * p + 0;
    DivMod(q + 1, 0, p);
  }

  /** The smallest multiple of the page size that is no less. */
  function WholePages(bytes: nat): (r: nat)
    ensures bytes <= r < bytes + PAGE_SIZE && r % PAGE_SIZE == 0
  {
    NextMultiple(bytes, PAGE_SIZE);
    if bytes % PAGE_SIZE == 0 then bytes else bytes - bytes % PAGE_SIZE + PAGE_SIZE
  }

  /** The size of an expansion; tiny requests are rounded up, and all of them to whole pages. */
  function Increment(n: nat): (bytes: nat)
    ensures n * HBLKSIZE <= bytes && MINHINCR * HBLKSIZE <= bytes && bytes % PAGE_SIZE == 0
    ensures bytes < n * HBLKSIZE + PAGE_SIZE || bytes < MINHINCR * HBLKSIZE + PAGE_SIZE
  {
    MulMono(n, if n < MINHINCR then MINHINCR else n, HBLKSIZE);
    MulMono(MINHINCR, if n < MINHINCR then MINHINCR else n, HBLKSIZE);
    WholePages((if n < MINHINCR then MINHINCR else n) * HBLKSIZE)
  }

  datatype Section = Section(start: nat, bytes: nat)

  /** The marker's test lets every address of the section pass. */
  predicate Within(s: Section, least: nat, greatest: nat) {
    least <= s.start && s.start + s.bytes <= greatest
  }

  ghost predicate AllWithin(sects: seq<Section>, least: nat, greatest: nat) {
    forall i :: 0 <= i < |sects| ==> Within(sects[i], least, greatest)
  }

  /** Some section lies below `p`. */
  ghost predicate AnyBelow(sects: seq<Section>, p: nat) {
    exists i :: 0 <= i < |sects| && sects[i].start < p
  }

  predicate WholeBlocks(s: Section) {
    s.start % HBLKSIZE == 0
  }

  ghost predicate AllWhole(sects: seq<Section>) {
    forall i :: 0 <= i < |sects| ==> WholeBlocks(sects[i])
  }

  /** Addresses of blocks are too far apart for a word to fit in between. */
  lemma BlockBelow(a: nat, p: nat)
    requires a % HBLKSIZE == 0 && p % HBLKSIZE == 0 && a < p
    ensures a + HBLKSIZE <= p
  {
    var x, y := a / HBLKSIZE, p / HBLKSIZE;
    assert a == x * HBLKSIZE && p == y * HBLKSIZE;
    assert x < y;
    assert (x + 1) * HBLKSIZE <= y * HBLKSIZE;
  }

  class Bounds {
    var least: nat
    var greatest: nat
    var lastAddr: nat
    var sects: seq<Section>

    constructor ()
      ensures sects == [] && least == ADDRESSES - 1 && greatest == 0 && lastAddr == 0
    {
      sects, least, greatest, lastAddr := [], ADDRESSES - 1, 0, 0;
    }

    /**
     A section is added.  All sections stay within the bounds, except when the lower bound was 0:
     that is taken for "not set yet", and sections below the new one are lost.
     */
    method AddToHeap(p: nat, bytes: nat)
      requires HBLKSIZE < p && 0 < bytes && p + bytes < ADDRESSES && p % HBLKSIZE == 0
      requires AllWithin(sects, least, greatest) && AllWhole(sects)
      modifies `least, `greatest, `sects
      ensures sects == old(sects) + [Section(p, bytes)] && AllWhole(sects)
      ensures AllWithin(sects, least, greatest) <==> !(old(least) == 0 && AnyBelow(old(sects), p))
      ensures least > 0 && least <= p && p + bytes <= greatest
      ensures least == if old(least) == 0 || p <= old(least) then p - WORD_BYTES else old(least)
      ensures greatest == if old(greatest) <= p + bytes then p + bytes else old(greatest)
    {
      var endp := p + bytes;
      sects := sects + [Section(p, bytes)];
      if p <= least || least == 0 {
        least := p - WORD_BYTES;
      }
      if p + bytes >= greatest {
        greatest := endp;
      }
      if old(least) == 0 && AnyBelow(old(sects), p) {
        ghost var i :| 0 <= i < |old(sects)| && old(sects)[i].start < p;
        BlockBelow(old(sects)[i].start, p);
        assert !Within(sects[i], least, greatest);
      } else {
        forall i | 0 <= i < |sects| ensures Within(sects[i], least, greatest) {
          assert i < |old(sects)| ==> Within(old(sects)[i], old(least), old(greatest)) && sects[i] == old(sects)[i];
        }
      }
    }

    /** Does the heap seem to grow upwards? */
    predicate GrowingUp(space: nat)
      reads this
    {
      if lastAddr == 0 then space < ADDRESSES / 2 else lastAddr < space
    }

    /** The bounds are widened by the slop in the direction of growth, unless that wraps around. */
    method Widen(space: nat, bytes: nat, slop: nat)
      requires 0 < space && space + bytes < ADDRESSES && slop < ADDRESSES
      modifies `least, `greatest
      ensures old(GrowingUp(space)) ==> least == old(least) && old(greatest) <= greatest
      ensures !old(GrowingUp(space)) ==> greatest == old(greatest) && least <= old(least)
      ensures old(GrowingUp(space)) && space + bytes + slop < ADDRESSES && 0 < bytes + slop ==>
        greatest == if old(greatest) < space + bytes + slop then space + bytes + slop else old(greatest)
      ensures !old(GrowingUp(space)) && 0 < slop <= space ==>
        least == if space - slop < old(least) then space - slop else old(least)
      ensures !old(GrowingUp(space)) && !(0 < slop <= space) ==> least == old(least)
    {
      if GrowingUp(space) {
        var newLimit := Wrapped(space + bytes + slop);
        if newLimit > space && newLimit > greatest {
          greatest := newLimit;
        }
      } else {
        var newLimit := if slop <= space then space - slop else space - slop + ADDRESSES;
        if newLimit < space && newLimit < least {
          least := newLimit;
        }
      }
    }

    /**
     The heap is expanded by `n` blocks of new memory, and the bounds are first widened by the slop in
     the direction of growth.  Growing downwards, this can set the lower bound to 0.
     */
    method ExpandHp(space: nat, n: nat, minBytes: nat)
      requires HBLKSIZE < space && space + Increment(n) < ADDRESSES && space % HBLKSIZE == 0
      requires AllWithin(sects, least, greatest) && AllWhole(sects) && least > 0
      modifies this
      ensures sects == old(sects) + [Section(space, Increment(n))] && AllWhole(sects) && least > 0
      ensures AllWithin(sects, least, greatest) <==>
        !(!old(GrowingUp(space)) && Slop(minBytes) == space && AnyBelow(old(sects), space))
      ensures lastAddr == space
      ensures var up := if old(lastAddr) == 0 then space < ADDRESSES / 2 else old(lastAddr) < space;
        var slop := minBytes + 4 * MAXHINCR * HBLKSIZE;
        && (up && space + Increment(n) + slop < ADDRESSES ==> greatest >= space + Increment(n) + slop)
        && (!up && slop < space ==> least <= space - slop)
    {
      var bytes, slop := Increment(n), Slop(minBytes);
      Widen(space, bytes, slop);
      lastAddr := space;
      assert AllWithin(sects, least, greatest) by {
        forall i | 0 <= i < |sects| ensures Within(sects[i], least, greatest) {
          assert Within(old(sects)[i], old(least), old(greatest));
        }
      }
      AddToHeap(space, bytes);
    }
  }

  /** Three block addresses, the second of which equals the slop. */
  lemma SlopIsReached(low: nat, high: nat, top: nat)
    requires low == 256 * HBLKSIZE && high == (4 * MAXHINCR + 1) * HBLKSIZE && top == (4 * MAXHINCR + 1025) * HBLKSIZE
    ensures Slop(HBLKSIZE) == high && HBLKSIZE < low < high < top && top + Increment(0) < ADDRESSES / 2
    ensures low % HBLKSIZE == 0 && high % HBLKSIZE == 0 && top % HBLKSIZE == 0
  {
    SlopIs(high);
    BlockAddress(256);
    BlockAddress(4 * MAXHINCR + 1);
    BlockAddress(4 * MAXHINCR + 1025);
    SlopBelow(HBLKSIZE, MAXHINCR);
    FirstIncrement();
  }

  lemma SlopIs(high: nat)
    requires high == (4 * MAXHINCR + 1) * HBLKSIZE
    ensures Slop(HBLKSIZE) == high
  {
    SlopBelow(HBLKSIZE, MAXHINCR);
  }

  lemma FirstIncrement()
    ensures Increment(0) < 64 * HBLKSIZE + 65536
  {
    assert PAGE_SIZE <= 65536 && MINHINCR <= 64;
    assert MINHINCR * HBLKSIZE <= 64 * HBLKSIZE;
  }

  lemma BlockAddress(k: nat)
    ensures (k * HBLKSIZE) % HBLKSIZE == 0
  {
  }

  lemma SlopBelow(h: nat, m: nat)
    requires h <= 16384 && m <= 4096
    ensures h + 4 * m * h == (4 * m + 1) * h && (4 * m + 1025) * h + 64 * h <= 17473 * 16384
  {
    assert (4 * m + 1089) * h <= 17473 * h;
  }

  /** Three expansions after which the marker no longer takes all addresses in the sections for pointers. */
  method LosingASection() returns (b: Bounds)
    ensures |b.sects| == 3 && !AllWithin(b.sects, b.least, b.greatest)
  {
    var low, high, top := 256 * HBLKSIZE, (4 * MAXHINCR + 1) * HBLKSIZE, (4 * MAXHINCR + 1025) * HBLKSIZE;
    SlopIsReached(low, high, top);
    b := Expanded(low, high, top);
  }

  method Expanded(low: nat, high: nat, top: nat) returns (b: Bounds)
    requires Slop(HBLKSIZE) == high && HBLKSIZE < low < high < top && top + Increment(0) < ADDRESSES / 2
    requires low % HBLKSIZE == 0 && high % HBLKSIZE == 0 && top % HBLKSIZE == 0
    ensures |b.sects| == 3 && !AllWithin(b.sects, b.least, b.greatest)
  {
    b := new Bounds();
    b.ExpandHp(low, 0, HBLKSIZE);
    b.ExpandHp(top, 0, HBLKSIZE);
    ghost var two := b.sects;
    assert two[0].start < high;
    b.ExpandHp(high, 0, HBLKSIZE);
    assert AnyBelow(two, high);
  }
}
