/** The map from object sizes in bytes to object sizes in granules, filled in on demand. */
module SizeMap {
  import opened Config
  import opened Division

  /** Free lists for tiny objects are set up for all sizes below this many granules. */
  const TINY_FREELISTS: nat := if GRANULE_BYTES == 16 then 25 else 33
  const MAXOBJBYTES: nat := HBLKSIZE / 2
  const MAXOBJGRANULES: nat := MAXOBJBYTES / GRANULE_BYTES
  const HBLK_GRANULES: nat := HBLKSIZE / GRANULE_BYTES

  /** Tiny objects are small enough to be mapped: not so for blocks of 512 bytes with granules of 16. */
  predicate TinyFits() {
    GRANULE_BYTES * (TINY_FREELISTS - 1) <= MAXOBJBYTES
  }

  /** Of all configurations this one alone sets up more tiny sizes than the map has entries. */
  lemma TinyFitsUnless()
    ensures TinyFits() <==> !(HBLKSIZE == 512 && GRANULE_BYTES == 16)
  {
    var b, g := HBLKSIZE, GRANULE_BYTES;
    assert b in {512, 1024, 2048, 4096, 8192, 16384} && g in {8, 16};
  }

  /** The last entry that is set up initially is in the map exactly if the tiny sizes fit. */
  lemma LastTinyInside(extra: nat)
    requires extra <= 1
    ensures TinyBytes(extra) <= MAXOBJBYTES <==> TinyFits()
  {
    TinyFitsUnless();
  }

  lemma Sizes()
    ensures MAXOBJGRANULES * GRANULE_BYTES == MAXOBJBYTES && HBLK_GRANULES == 2 * MAXOBJGRANULES &&
      MAXOBJGRANULES % 2 == 0
    ensures MAXOBJGRANULES >= 16
  {
    assert HBLKSIZE in {512, 1024, 2048, 4096, 8192, 16384};
    assert GRANULE_BYTES in {8, 16};
    if GRANULE_BYTES == 8 {
      SizesOf(8);
    } else {
      SizesOf(16);
    }
  }

  lemma SizesOf(g: nat)
    requires g == GRANULE_BYTES
    ensures MAXOBJBYTES / g * g == MAXOBJBYTES && HBLKSIZE / g == 2 * (MAXOBJBYTES / g) && MAXOBJBYTES / g % 2 == 0
    ensures MAXOBJBYTES / g >= 16
  {
  }

  /** Granules for `lb` bytes and an extra byte if there is one. */
  function RoundedUp(lb: nat, extra: nat): (g: nat)
    ensures lb + extra <= g * GRANULE_BYTES < lb + extra + GRANULE_BYTES
  {
    if GRANULE_BYTES == 8 then (lb + extra + 7) / 8 else (lb + extra + 15) / 16
  }

  lemma RoundedUpFits(lb: nat, extra: nat)
    requires lb + extra <= MAXOBJBYTES
    ensures RoundedUp(lb, extra) <= MAXOBJGRANULES
  {
    Sizes();
    var g := RoundedUp(lb, extra);
    MulCancel(g, MAXOBJGRANULES, GRANULE_BYTES);
  }

  lemma RoundedUpMono(a: nat, b: nat, extra: nat)
    requires a <= b
    ensures RoundedUp(a, extra) <= RoundedUp(b, extra)
  {
    MulCancel(RoundedUp(a, extra), RoundedUp(b, extra), GRANULE_BYTES);
  }

  function Even(x: nat): nat {
    x - x % 2
  }

  lemma ObjectsPerBlock(h: nat, g: nat)
    requires 0 < g && 2 * g <= h
    ensures h / g >= 2 && g <= h / (h / g) && 2 * (h / (h / g)) <= h
  {
    var n := h / g;
    assert h == n * g + h % g;
    assert n >= 2;
    var m := h / n;
    assert h == m * n + h % n;
    MulCancel(g, m, n);
    MulMono(2, n, m);
  }

  lemma FitsIff(h: nat, n: nat, x: nat, q: nat, r: nat)
    requires h == q * x + r && r < x
    ensures n <= q <==> n * x <= h
  {
    if n <= q {
      MulMono(n, q, x);
    } else {
      MulMono(q + 1, n, x);
      assert (q + 1) * x == q * x + x;
    }
  }

  /** A size lets at least `n` objects fit in `h` granules exactly if it is at most `h / n`. */
  lemma ObjectsFit(h: nat, n: nat, x: nat)
    requires 0 < n && 0 < x
    ensures n <= h / x <==> x <= h / n
  {
    FitsIff(h, n, x, h / x, h % x);
    FitsIff(h, x, n, h / n, h % n);
    assert n * x == x * n;
  }

  /** Making `n` objects as large as `h` granules allow enlarges them by at most half. */
  lemma AtMostHalfMore(h: nat, g: nat, n: nat, m: nat)
    requires 2 <= n && m * n <= h < (n + 1) * g
    ensures 2 * m <= 3 * g
  {
    MulMono(2, n, g);
    assert (n + 1) * g == n * g + g;
    assert 3 * g * n == 3 * (n * g) && 2 * m * n == 2 * (m * n);
    if 3 * g < 2 * m {
      MulMono(3 * g + 1, 2 * m, n);
      assert false;
    }
  }

  /** Fewer objects fit in `h` granules with any larger even size. */
  ghost predicate Fullest(h: nat, r: nat) {
    r % 2 == 0 && 0 < r && forall x: nat :: r < x && x % 2 == 0 ==> h / x < h / r
  }

  /** Whatever lies between a size and the most its objects could have lets as many fit. */
  lemma AsMany(h: nat, g: nat, n: nat, r: nat)
    requires 0 < g <= r && 0 < n && n == h / g && r <= h / n
    ensures h / r == n
  {
    ObjectsFit(h, n, r);
    ObjectsFit(h, n + 1, r);
    ObjectsFit(h, n + 1, g);
  }

  lemma EvenPart(h: nat, n: nat, r: nat)
    requires 0 < n && 0 < r && r == Even(h / n) && h / r == n
    ensures Fullest(h, r)
  {
    forall x: nat | r < x && x % 2 == 0 ensures h / x < n {
      ObjectsFit(h, n, x);
    }
  }

  lemma HalfMore(h: nat, g: nat)
    requires 0 < g && 2 * g <= h
    ensures h / g > 0 && 2 * (h / (h / g)) <= 3 * g
  {
    ObjectsPerBlock(h, g);
    var n := h / g;
    assert h == n * g + h % g;
    assert h == (h / n) * n + h % n;
    AtMostHalfMore(h, g, n, h / n);
  }

  /** The largest even size that lets as many objects fit in a block as the given one does. */
  function FillBlock(g: nat): (r: nat)
    requires 0 < g <= MAXOBJGRANULES && g % 2 == 0
    ensures g <= r <= MAXOBJGRANULES
  {
    Sizes();
    ObjectsPerBlock(HBLK_GRANULES, g);
    Even(HBLK_GRANULES / (HBLK_GRANULES / g))
  }

  lemma FillBlockFills(g: nat)
    requires 0 < g <= MAXOBJGRANULES && g % 2 == 0
    ensures var r := FillBlock(g); HBLK_GRANULES / r == HBLK_GRANULES / g && 2 * r <= 3 * g && Fullest(HBLK_GRANULES, r)
  {
    Sizes();
    var h := HBLK_GRANULES;
    ObjectsPerBlock(h, g);
    HalfMore(h, g);
    AsMany(h, g, h / g, FillBlock(g));
    EvenPart(h, h / g, FillBlock(g));
  }

  /** A size of at least `orig`, made even and cut to what fits twice in a block. */
  method MadeEven(orig: nat, g: nat) returns (r: nat)
    requires 0 < orig <= MAXOBJGRANULES && orig <= g
    ensures orig <= r <= MAXOBJGRANULES && r <= g + 1 && r % 2 == 0
  {
    assert MAXOBJGRANULES % 2 == 0 by {
      Sizes();
    }
    r := Even(g + 1);
    if r > MAXOBJGRANULES {
      r := MAXOBJGRANULES;
    }
  }

  /** And enlarged to fill the block. */
  method Settled(orig: nat, g: nat) returns (r: nat)
    requires 0 < orig <= MAXOBJGRANULES && orig <= g <= orig + orig / 8
    ensures orig <= r <= MAXOBJGRANULES && 2 * r <= 3 * (orig + orig / 8 + 1) && Fullest(HBLK_GRANULES, r)
  {
    var even := MadeEven(orig, g);
    FillBlockFills(even);
    r := FillBlock(even);
  }

  // ------------------------------------------------------------------- the map

  /** The last size that is mapped from the start. */
  function TinyBytes(extra: nat): nat
    requires extra <= 1
  {
    GRANULE_BYTES * (TINY_FREELISTS - 1) - extra
  }

  /** An entry that is filled in is large enough for its index, and small enough for a block. */
  predicate LargeEnough(j: nat, granules: nat, extra: nat) {
    granules != 0 ==> j + extra <= granules * GRANULE_BYTES && granules <= MAXOBJGRANULES
  }

  /** An entry is not too much bigger: by at most five quarters of its index and one and a half granules. */
  predicate NotTooBig(j: nat, granules: nat) {
    4 * (granules * GRANULE_BYTES) <= 9 * j + 6 * GRANULE_BYTES
  }

  /** An eighth more than asked for, and up to half as much again, is not too big for indices near the one asked for. */
  lemma NearEnough(orig: nat, g: nat, j: nat)
    requires 2 * g <= 3 * (orig + orig / 8 + 1)
    requires 3 * (orig * GRANULE_BYTES) <= 4 * j
    ensures NotTooBig(j, g)
  {
    assert 16 * g <= 27 * orig + 24;
    MulMono(16 * g, 27 * orig + 24, GRANULE_BYTES);
    assert (27 * orig + 24) * GRANULE_BYTES == 27 * (orig * GRANULE_BYTES) + 24 * GRANULE_BYTES;
    assert 16 * g * GRANULE_BYTES == 16 * (g * GRANULE_BYTES);
  }

  /** A filled section ends at `n`. */
  predicate EndsAt(s: seq<nat>, n: nat) {
    n < |s| && s[n] != 0 && (n + 1 < |s| ==> s[n + 1] == 0)
  }

  /** A filled section that ends at `n` has length at least `n / 4`. */
  ghost predicate LongRuns(s: seq<nat>) {
    forall n :: 0 <= n < |s| && EndsAt(s, n) ==> forall m :: n - n / 4 < m <= n ==> s[m] != 0
  }

  lemma RunAt(s: seq<nat>, n: nat, m: nat)
    requires LongRuns(s) && EndsAt(s, n) && n - n / 4 < m <= n
    ensures s[m] != 0
  {
  }

  /** Of the last quarter of the entries up to `hi`, those below `low` are filled in. */
  ghost predicate QuarterFilled(s: seq<nat>, hi: nat, low: nat) {
    forall m :: 0 <= m < |s| && hi - hi / 4 < m < low ==> s[m] != 0
  }

  lemma FromMuchSmaller(s: seq<nat>, b: nat, low: nat, hi: nat)
    requires b <= hi + 1 && forall m :: b - b / 4 <= m < low && m < |s| ==> s[m] != 0
    ensures QuarterFilled(s, hi, low)
  {
    QuarterOff(b, hi);
  }

  lemma FromRun(s: seq<nat>, low: nat, hi: nat)
    requires LongRuns(s) && 0 < low <= hi + 1 && EndsAt(s, low - 1)
    ensures QuarterFilled(s, hi, low)
  {
    QuarterOff(low - 1, hi);
    forall m | 0 <= m < |s| && hi - hi / 4 < m < low ensures s[m] != 0 {
      RunAt(s, low - 1, m);
    }
  }

  /** Filling in `[low, hi]` keeps runs long if the last quarter below `low` is filled. */
  lemma FilledRuns(s: seq<nat>, s': seq<nat>, low: nat, hi: nat)
    requires LongRuns(s) && |s'| == |s| && low <= hi < |s|
    requires forall j :: low <= j <= hi ==> s'[j] != 0
    requires forall j :: 0 <= j < |s| && (j < low || hi < j) ==> s'[j] == s[j]
    requires QuarterFilled(s, hi, low)
    ensures LongRuns(s')
  {
    forall n | 0 <= n < |s'| && EndsAt(s', n) ensures forall m :: n - n / 4 < m <= n ==> s'[m] != 0 {
      if n < low {
        assert EndsAt(s, n);
      } else if hi < n {
        assert EndsAt(s, n);
        forall m | n - n / 4 < m <= n ensures s'[m] != 0 {
          RunAt(s, n, m);
        }
      } else {
        assert n == hi;
      }
    }
  }

  /** Subtracting a quarter is monotone, and loses at most one when the number does. */
  lemma QuarterOff(a: nat, b: nat)
    requires a <= b + 1
    ensures a - a / 4 <= b - b / 4 + 1
    ensures a <= b ==> a - a / 4 <= b - b / 4
  {
  }

  /** The size looked for is not much larger than what is asked for. */
  lemma NotMuchLarger(i: nat, extra: nat)
    requires extra <= 1 && TinyBytes(extra) < i
    ensures var b := RoundedUp(i, extra) * GRANULE_BYTES; b - b / 8 + 1 <= i
  {
    var g := RoundedUp(i, extra);
    if GRANULE_BYTES == 8 {
      assert g * 8 > 8 * 32;
    } else {
      assert g * 16 > 16 * 24;
    }
  }

  class Map {
    const extra: nat
    const granules: array<nat>

    ghost predicate Valid()
      reads granules
    {
      && extra <= 1 && TinyFits() && granules.Length == MAXOBJBYTES + 1
      && (forall j :: 0 <= j < granules.Length ==> LargeEnough(j, granules[j], extra) && NotTooBig(j, granules[j]))
      && (forall j :: 0 <= j <= TinyBytes(extra) ==> j < granules.Length && granules[j] != 0)
      && LongRuns(granules[..])
    }

    constructor (extra: nat)
      requires extra <= 1 && TinyFits()
      ensures Valid() && fresh(granules) && this.extra == extra
    {
      this.extra := extra;
      granules := new nat[MAXOBJBYTES + 1](_ => 0);
      new;
      Sizes();
      granules[0] := 1;
      var i := 1;
      while i <= TinyBytes(extra)
        invariant 1 <= i <= TinyBytes(extra) + 1 && fresh(granules)
        invariant forall j :: 0 <= j < granules.Length ==>
          LargeEnough(j, granules[j], extra) && NotTooBig(j, granules[j])
        invariant forall j :: 0 <= j < granules.Length ==> (granules[j] != 0 <==> j < i)
      {
        RoundedUpFits(i, extra);
        granules[i] := RoundedUp(i, extra);
        i := i + 1;
      }
      assert forall n :: 0 <= n < granules.Length && EndsAt(granules[..], n) ==> n == i - 1;
    }

    /** The first entry from `low` on that is not filled in. */
    method FirstEmpty(low: nat, i: nat) returns (j: nat)
      requires low <= i < granules.Length && granules[i] == 0
      ensures low <= j <= i && granules[j] == 0 && forall m :: low <= m < j ==> granules[m] != 0
    {
      j := low;
      while granules[j] != 0
        invariant low <= j <= i && forall m :: low <= m < j ==> granules[m] != 0
        decreases i - j
      {
        j := j + 1;
      }
    }

    method Fill(low: nat, hi: nat, g: nat)
      requires hi < granules.Length
      modifies granules
      ensures forall j :: 0 <= j < granules.Length ==> granules[j] == if low <= j <= hi then g else old(granules[j])
    {
      var j := low;
      while j <= hi
        invariant low <= j && (low <= hi ==> j <= hi + 1)
        invariant forall m :: 0 <= m < granules.Length ==>
          granules[m] == if low <= m <= hi && m < j then g else old(granules[m])
        decreases hi + 1 - j
      {
        granules[j] := g;
        j := j + 1;
      }
    }

    /** Where to start filling in, and with what size, before rounding. */
    method Choose(i: nat) returns (low: nat, g: nat)
      requires Valid() && i + extra <= MAXOBJBYTES && granules[i] == 0
      ensures low <= i && 3 * (RoundedUp(i, extra) * GRANULE_BYTES) <= 4 * low
      ensures RoundedUp(i, extra) <= g <= RoundedUp(i, extra) + RoundedUp(i, extra) / 8
      ensures forall hi: nat :: i <= hi && RoundedUp(i, extra) * GRANULE_BYTES <= hi + 1 ==>
        QuarterFilled(granules[..], hi, low)
    {
      var orig := RoundedUp(i, extra);
      var b := orig * GRANULE_BYTES;
      NotMuchLarger(i, extra);
      g := orig;
      var smaller, muchSmaller := b - b / 8, b - b / 4;
      if granules[smaller] == 0 {
        low := FirstEmpty(muchSmaller, smaller);
        forall hi: nat | b <= hi + 1 ensures QuarterFilled(granules[..], hi, low) {
          FromMuchSmaller(granules[..], b, low, hi);
        }
      } else {
        low := FirstEmpty(smaller + 1, i);
        g := RoundedUp(low, extra);
        RoundedUpMono(low, i, extra);
        g := g + g / 8;
        if g < orig {
          g := orig;
        }
        assert EndsAt(granules[..], low - 1);
        forall hi: nat | i <= hi ensures QuarterFilled(granules[..], hi, low) {
          FromRun(granules[..], low, hi);
        }
      }
    }

    /** The size to map to: even, and as large as still lets as many objects fit a block. */
    method Settle(i: nat) returns (low: nat, g: nat)
      requires Valid() && i + extra <= MAXOBJBYTES && granules[i] == 0
      ensures low <= i && 0 < RoundedUp(i, extra) <= g <= MAXOBJGRANULES
      ensures 3 * (RoundedUp(i, extra) * GRANULE_BYTES) <= 4 * low
      ensures 2 * g <= 3 * (RoundedUp(i, extra) + RoundedUp(i, extra) / 8 + 1) && Fullest(HBLK_GRANULES, g)
      ensures forall hi: nat :: i <= hi && RoundedUp(i, extra) * GRANULE_BYTES <= hi + 1 ==>
        QuarterFilled(granules[..], hi, low)
    {
      low, g := Choose(i);
      RoundedUpFits(i, extra);
      g := Settled(RoundedUp(i, extra), g);
    }

    /** Fill in more entries, the i-th one among them. */
    method Extend(i: nat)
      requires Valid() && i + extra <= MAXOBJBYTES && granules[i] == 0
      modifies granules
      ensures Valid() && granules[i] != 0
      ensures forall j :: 0 <= j < granules.Length && old(granules[j]) != 0 ==> granules[j] != 0
      ensures forall j :: 0 <= j < granules.Length ==> granules[j] == old(granules[j]) || granules[j] == granules[i]
      ensures forall j :: i <= j < granules.Length && j + extra <= granules[i] * GRANULE_BYTES ==>
        granules[j] == granules[i]
      ensures Fullest(HBLK_GRANULES, granules[i])
      ensures 2 * granules[i] <= 3 * (RoundedUp(i, extra) + RoundedUp(i, extra) / 8 + 1)
    {
      var low, g := Settle(i);
      Sizes();
      MulMono(RoundedUp(i, extra), g, GRANULE_BYTES);
      MulMono(g, MAXOBJGRANULES, GRANULE_BYTES);
      var hi := g * GRANULE_BYTES - extra;
      ghost var before := granules[..];
      Fill(low, hi, g);
      FilledRuns(before, granules[..], low, hi);
      forall j | low <= j <= hi ensures NotTooBig(j, g) {
        NearEnough(RoundedUp(i, extra), g, j);
      }
    }
  }

  /** Set up the map at start; this fails, writing past the end of the map, exactly if the tiny sizes do not fit. */
  method InitSizeMap(extra: nat) returns (m: Map?)
    requires extra <= 1
    ensures m == null <==> HBLKSIZE == 512 && GRANULE_BYTES == 16
    ensures m != null ==> m.Valid() && m.extra == extra
  {
    TinyFitsUnless();
    LastTinyInside(extra);
    if TinyBytes(extra) > MAXOBJBYTES {
      return null;
    }
    m := new Map(extra);
  }
}
