/**
 Heap blocks as a tiling of the heap: every unit block of the heap belongs to exactly one
 block, and the block index says which.  Addresses and lengths are in units of HBLKSIZE.
 */
module Tiling {

  /** What the header of a block records. */
  datatype Blk = Blk(len: nat, free: bool)

  type Blocks = map<nat, Blk>
  /** For each unit block of the heap, the start of the block it belongs to. */
  type Owner = map<nat, nat>
  /** Forwarding counts of the interior unit blocks of used blocks. */
  type Counts = map<nat, nat>

  type Jump = n: nat | n > 0 witness 1
  /** The largest forwarding count. */
  const MAX_JUMP: Jump

  /** Unit block `u` lies in block `b`. */
  predicate Inside(blocks: Blocks, b: nat, u: nat) {
    b in blocks && b <= u < b + blocks[b].len
  }

  ghost predicate Tiles(blocks: Blocks, owner: Owner) {
    && 0 !in owner
    && (forall u :: u in owner ==> Inside(blocks, owner[u], u))
    && (forall b :: b in blocks ==> 0 < blocks[b].len)
    && (forall b, u :: Inside(blocks, b, u) ==> u in owner && owner[u] == b)
  }

  function Forward(distance: nat): nat {
    if distance > MAX_JUMP then MAX_JUMP else distance
  }

  /** Interior unit blocks of used blocks, and only they, carry a forwarding count. */
  ghost predicate CountsOk(blocks: Blocks, owner: Owner, counts: Counts) {
    forall u :: u in counts <==> u in owner && owner[u] in blocks && owner[u] != u && !blocks[owner[u]].free
  }

  ghost predicate CountsRight(owner: Owner, counts: Counts) {
    forall u :: u in counts ==> u in owner && owner[u] <= u && counts[u] == Forward(u - owner[u])
  }

  ghost function FreeUnits(blocks: Blocks, owner: Owner): set<nat> {
    set u | u in owner && owner[u] in blocks && blocks[owner[u]].free
  }

  /** No two adjacent blocks are both free. */
  ghost predicate Coalesced(blocks: Blocks) {
    forall a, b :: a in blocks && b in blocks && b == a + blocks[a].len && blocks[a].free ==> !blocks[b].free
  }

  /** The unit blocks from `a` up to `a + n`. */
  function Range(a: nat, n: nat): (r: set<nat>)
    ensures forall u :: u in r <==> a <= u < a + n
    ensures |r| == n
  {
    if n == 0 then {} else Range(a, n - 1) + {a + n - 1}
  }

  /** Used and free unit blocks make up the heap. */
  lemma UsedPlusFree(blocks: Blocks, owner: Owner)
    ensures |owner.Keys - FreeUnits(blocks, owner)| + |FreeUnits(blocks, owner)| == |owner.Keys|
  {
    assert owner.Keys == (owner.Keys - FreeUnits(blocks, owner)) + FreeUnits(blocks, owner);
  }

  lemma TileAt(blocks: Blocks, owner: Owner, b: nat)
    requires Tiles(blocks, owner) && b in blocks
    ensures b != 0 && b in owner && owner[b] == b
  {
    assert Inside(blocks, b, b);
  }

  /** Two blocks do not overlap. */
  lemma TilesApart(blocks: Blocks, owner: Owner, a: nat, b: nat)
    requires Tiles(blocks, owner) && a in blocks && b in blocks && a < b
    ensures a + blocks[a].len <= b
  {
    TileAt(blocks, owner, b);
    if b < a + blocks[a].len {
      assert Inside(blocks, a, b);
      assert false;
    }
  }

  // ---------------------------------------------------------------- splitting

  function Split(blocks: Blocks, b: nat, k: nat): Blocks
    requires b in blocks && k <= blocks[b].len
  {
    var t := blocks[b];
    blocks[b := Blk(k, t.free)][b + k := Blk(t.len - k, t.free)]
  }

  /** Unit blocks `[a, a + n)` now belong to `b`. */
  function Assign(owner: Owner, a: nat, n: nat, b: nat): Owner {
    owner + (map u | u in Range(a, n) :: b)
  }

  lemma InteriorIsNoBlock(blocks: Blocks, owner: Owner, b: nat, u: nat)
    requires Tiles(blocks, owner) && Inside(blocks, b, u) && u != b
    ensures u !in blocks
  {
    if u in blocks {
      TileAt(blocks, owner, u);
      assert false;
    }
  }

  lemma AssignKeys(blocks: Blocks, owner: Owner, b: nat, a: nat, n: nat, c: nat)
    requires Tiles(blocks, owner) && b in blocks && b <= a && a + n <= b + blocks[b].len
    ensures Assign(owner, a, n, c).Keys == owner.Keys
  {
    forall u | u in Range(a, n) ensures u in owner {
      assert Inside(blocks, b, u);
    }
  }

  lemma SplitTiles(blocks: Blocks, owner: Owner, b: nat, k: nat)
    requires Tiles(blocks, owner) && b in blocks && 0 < k < blocks[b].len
    ensures b + k !in blocks
    ensures Tiles(Split(blocks, b, k), Assign(owner, b + k, blocks[b].len - k, b + k))
    ensures Assign(owner, b + k, blocks[b].len - k, b + k).Keys == owner.Keys
  {
    var n := blocks[b].len - k;
    var blocks', owner' := Split(blocks, b, k), Assign(owner, b + k, n, b + k);
    assert Inside(blocks, b, b + k);
    InteriorIsNoBlock(blocks, owner, b, b + k);
    forall u | u in Range(b + k, n) ensures u in owner && owner[u] == b {
      assert Inside(blocks, b, u);
    }
    assert owner'.Keys == owner.Keys;
    forall u | u in owner' ensures Inside(blocks', owner'[u], u) {
      assert Inside(blocks, owner[u], u);
    }
    forall c: nat, u: nat | Inside(blocks', c, u) ensures u in owner' && owner'[u] == c {
      assert Inside(blocks, if c == b + k then b else c, u);
    }
  }

  lemma SplitFreeUnits(blocks: Blocks, owner: Owner, b: nat, k: nat)
    requires Tiles(blocks, owner) && b in blocks && 0 < k < blocks[b].len
    ensures FreeUnits(Split(blocks, b, k), Assign(owner, b + k, blocks[b].len - k, b + k)) == FreeUnits(blocks, owner)
  {
    var n := blocks[b].len - k;
    assert Inside(blocks, b, b + k);
    InteriorIsNoBlock(blocks, owner, b, b + k);
    forall u | u in Range(b + k, n) ensures u in owner && owner[u] == b {
      assert Inside(blocks, b, u);
    }
  }

  // ------------------------------------------------------------------ merging

  /** Block `b`, which follows `a`, becomes part of `a`. */
  function Merge(blocks: Blocks, a: nat, b: nat): Blocks
    requires a in blocks && b in blocks
  {
    (blocks - {b})[a := Blk(blocks[a].len + blocks[b].len, blocks[a].free)]
  }

  lemma MergeTiles(blocks: Blocks, owner: Owner, a: nat, b: nat)
    requires Tiles(blocks, owner) && a in blocks && b in blocks && b == a + blocks[a].len
    ensures Tiles(Merge(blocks, a, b), Assign(owner, b, blocks[b].len, a))
    ensures Assign(owner, b, blocks[b].len, a).Keys == owner.Keys
  {
    var n := blocks[b].len;
    var blocks', owner' := Merge(blocks, a, b), Assign(owner, b, n, a);
    forall u | u in Range(b, n) ensures u in owner && owner[u] == b {
      assert Inside(blocks, b, u);
    }
    assert owner'.Keys == owner.Keys;
    forall u | u in owner' ensures Inside(blocks', owner'[u], u) {
      assert Inside(blocks, owner[u], u);
    }
    forall c: nat, u: nat | Inside(blocks', c, u) ensures u in owner' && owner'[u] == c {
      assert Inside(blocks, if c == a && u >= b then b else c, u);
    }
  }

  lemma MergeFreeUnits(blocks: Blocks, owner: Owner, a: nat, b: nat)
    requires Tiles(blocks, owner) && a in blocks && b in blocks && b == a + blocks[a].len
    requires blocks[a].free == blocks[b].free
    ensures FreeUnits(Merge(blocks, a, b), Assign(owner, b, blocks[b].len, a)) == FreeUnits(blocks, owner)
  {
    forall u | u in Range(b, blocks[b].len) ensures u in owner && owner[u] == b {
      assert Inside(blocks, b, u);
    }
    forall u | u in owner && owner[u] == b ensures u in Range(b, blocks[b].len) {
      assert Inside(blocks, owner[u], u);
    }
  }

  // ------------------------------------------------------------ changing flags

  function SetFree(blocks: Blocks, b: nat, free: bool): Blocks
    requires b in blocks
  {
    blocks[b := Blk(blocks[b].len, free)]
  }

  lemma SetFreeTiles(blocks: Blocks, owner: Owner, b: nat, free: bool)
    requires Tiles(blocks, owner) && b in blocks
    ensures Tiles(SetFree(blocks, b, free), owner)
  {
    var blocks' := SetFree(blocks, b, free);
    forall c: nat, u: nat ensures Inside(blocks', c, u) <==> Inside(blocks, c, u) {
    }
  }

  lemma SetFreeUnits(blocks: Blocks, owner: Owner, b: nat)
    requires Tiles(blocks, owner) && b in blocks && !blocks[b].free
    ensures |FreeUnits(SetFree(blocks, b, true), owner)| == |FreeUnits(blocks, owner)| + blocks[b].len
  {
    var r := Range(b, blocks[b].len);
    forall u | u in r ensures u in owner && owner[u] == b {
      assert Inside(blocks, b, u);
    }
    forall u | u in owner && owner[u] == b ensures u in r {
      assert Inside(blocks, owner[u], u);
    }
    assert FreeUnits(SetFree(blocks, b, true), owner) == FreeUnits(blocks, owner) + r;
    assert FreeUnits(blocks, owner) !! r;
  }

  lemma SetUsedUnits(blocks: Blocks, owner: Owner, b: nat)
    requires Tiles(blocks, owner) && b in blocks && blocks[b].free
    ensures |FreeUnits(SetFree(blocks, b, false), owner)| + blocks[b].len == |FreeUnits(blocks, owner)|
  {
    SetFreeTiles(blocks, owner, b, false);
    var blocks' := SetFree(blocks, b, false);
    SetFreeUnits(blocks', owner, b);
    assert SetFree(blocks', b, true) == blocks;
  }

  // ------------------------------------------------------------------- growing

  lemma GrowKeys(owner: Owner, p: nat, n: nat)
    requires forall u :: u in Range(p, n) ==> u !in owner
    ensures |Assign(owner, p, n, p).Keys| == |owner.Keys| + n
  {
    assert Assign(owner, p, n, p).Keys == owner.Keys + Range(p, n) && owner.Keys !! Range(p, n);
  }

  lemma GrowFresh(blocks: Blocks, owner: Owner, p: nat, n: nat)
    requires Tiles(blocks, owner) && n > 0
    requires forall u :: u in Range(p, n) ==> u !in owner
    ensures p !in blocks
  {
    assert p in Range(p, n);
    if p in blocks {
      TileAt(blocks, owner, p);
      assert false;
    }
  }

  lemma GrowTiles(blocks: Blocks, owner: Owner, p: nat, n: nat)
    requires Tiles(blocks, owner) && p != 0 && n > 0 && p !in blocks
    requires forall u :: u in Range(p, n) ==> u !in owner
    ensures Tiles(blocks[p := Blk(n, false)], Assign(owner, p, n, p))
  {
    var blocks', owner' := blocks[p := Blk(n, false)], Assign(owner, p, n, p);
    forall u | u in owner' ensures Inside(blocks', owner'[u], u) {
      if u !in Range(p, n) {
        assert Inside(blocks, owner[u], u);
      }
    }
    forall c: nat, u: nat | Inside(blocks', c, u) ensures u in owner' && owner'[u] == c {
      if c != p {
        assert Inside(blocks, c, u);
      } else {
        assert u in Range(p, n);
      }
    }
  }

  lemma GrowFreeUnits(blocks: Blocks, owner: Owner, p: nat, n: nat)
    requires Tiles(blocks, owner) && p !in blocks
    requires forall u :: u in Range(p, n) ==> u !in owner
    ensures FreeUnits(blocks[p := Blk(n, false)], Assign(owner, p, n, p)) == FreeUnits(blocks, owner)
  {
    forall u | u in owner ensures owner[u] != p {
      assert Inside(blocks, owner[u], u);
    }
  }
}
