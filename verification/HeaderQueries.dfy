/** The questions asked of the header index, answered as the set of block intervals it stands for. */
module HeaderQueries {
  import opened FreeLists
  import opened Tiling
  import opened HeaderIndex

  type Hdrs = map<nat, Hdr>

  function ToBlocks(hdrs: Hdrs): Blocks {
    map b | b in hdrs :: Blk(hdrs[b].len, hdrs[b].free)
  }

  /** What the index says of unit block `u` when the blocks are `hdrs` and `owner` tells which block a unit is in. */
  ghost function Expected(hdrs: Hdrs, owner: Owner, u: nat): Entry {
    if u in hdrs then Header(hdrs[u])
    else if u in owner && owner[u] in hdrs && !hdrs[owner[u]].free && owner[u] <= u then Jump(Forward(u - owner[u]))
    else Nil
  }

  predicate UsedAt(hdrs: Hdrs, c: nat) {
    c in hdrs && !hdrs[c].free
  }

  /** The blocks are disjoint intervals, and `owner` tells which unit block is in which. */
  ghost predicate Intervals(hdrs: Hdrs, owner: Owner) {
    Tiles(ToBlocks(hdrs), owner)
  }

  function Flat(hdrs: Hdrs, counts: Counts, u: nat): Entry {
    if u in hdrs then Header(hdrs[u]) else if u in counts then Jump(counts[u]) else Nil
  }

  /** It is the allocator's view: headers at the starts of blocks, its forwarding counts, and nothing else. */
  lemma ExpectedIsFlat(hdrs: Hdrs, owner: Owner, counts: Counts)
    requires Intervals(hdrs, owner) && CountsOk(ToBlocks(hdrs), owner, counts) && CountsRight(owner, counts)
    ensures forall u: nat :: Expected(hdrs, owner, u) == Flat(hdrs, counts, u)
  {
    forall u: nat ensures Expected(hdrs, owner, u) == Flat(hdrs, counts, u) {
      if u in owner {
        assert Inside(ToBlocks(hdrs), owner[u], u);
      }
    }
  }

  /** From the interior of an allocated block a forwarding count leads towards its start and not past it. */
  lemma JumpDown(hdrs: Hdrs, owner: Owner, u: nat, n: nat)
    requires Intervals(hdrs, owner) && Expected(hdrs, owner, u) == Jump(n)
    ensures u in owner && owner[u] in hdrs && !hdrs[owner[u]].free && 0 < n <= u - owner[u]
    ensures u - n in owner && owner[u - n] == owner[u]
    ensures Expected(hdrs, owner, u - n) != Nil
    ensures forall c :: c in hdrs && c <= u ==> c <= u - n
  {
    var b := owner[u];
    assert Inside(ToBlocks(hdrs), b, u);
    assert Inside(ToBlocks(hdrs), b, u - n);
    forall c | c in hdrs && c <= u ensures c <= u - n {
      if c > b {
        assert Inside(ToBlocks(hdrs), b, c);
        InteriorIsNoBlock(ToBlocks(hdrs), owner, b, c);
      }
    }
  }

  /** No block starts inside another one. */
  lemma NoStartInside(hdrs: Hdrs, owner: Owner, b: nat)
    requires Intervals(hdrs, owner) && b in hdrs
    ensures 0 < hdrs[b].len && forall c :: c in hdrs && b < c ==> b + hdrs[b].len <= c
  {
    forall c | c in hdrs && b < c ensures b + hdrs[b].len <= c {
      TilesApart(ToBlocks(hdrs), owner, b, c);
    }
    assert b in ToBlocks(hdrs);
  }

  /** The entries of the bottom index with key `k`. */
  ghost predicate Shows(entries: seq<Entry>, k: nat, hdrs: Hdrs, owner: Owner) {
    |entries| == BOTTOM_SZ && forall j :: 0 <= j < BOTTOM_SZ ==> entries[j] == Expected(hdrs, owner, Addr(k, j))
  }

  /** The first allocated block of a bottom index at or after position `from`; beyond the end if there is none. */
  method ScanUp(entries: seq<Entry>, k: nat, from: nat, ghost hdrs: Hdrs, ghost owner: Owner) returns (j: nat)
    requires Shows(entries, k, hdrs, owner) && Intervals(hdrs, owner)
    ensures from <= j && (j < BOTTOM_SZ ==> UsedAt(hdrs, Addr(k, j)))
    ensures forall c :: UsedAt(hdrs, c) && Addr(k, from) <= c ==> Addr(k, j) <= c
  {
    j := from;
    while j < BOTTOM_SZ
      invariant from <= j
      invariant forall c :: UsedAt(hdrs, c) && Addr(k, from) <= c ==> Addr(k, j) <= c
      decreases BOTTOM_SZ - j
    {
      match entries[j] {
        case Header(h) =>
          if !h.free {
            return;
          }
          NoStartInside(hdrs, owner, Addr(k, j));
          j := j + h.len;
        case _ =>
          j := j + 1;
      }
    }
  }

  /** The last block of a bottom index at or before position `from`; before its first entry if there is none. */
  method ScanDown(entries: seq<Entry>, k: nat, from: nat, ghost hdrs: Hdrs, ghost owner: Owner) returns (j: int)
    requires Shows(entries, k, hdrs, owner) && Intervals(hdrs, owner) && from < BOTTOM_SZ
    ensures j <= from && (0 <= j ==> Addr(k, j) in hdrs)
    ensures 0 <= j ==> forall c :: c in hdrs && c <= Addr(k, from) ==> c <= Addr(k, j)
    ensures j < 0 ==> forall c :: c in hdrs && c <= Addr(k, from) ==> c < Addr(k, 0)
  {
    j := from;
    while j >= 0
      invariant j <= from
      invariant forall c :: c in hdrs && c <= Addr(k, from) ==> c <= k * BOTTOM_SZ + j
    {
      match entries[j] {
        case Nil =>
          j := j - 1;
        case Jump(n) =>
          JumpDown(hdrs, owner, Addr(k, j), n);
          j := j - n;
        case Header(h) =>
          return;
      }
    }
  }

  lemma DistinctAppend(list: seq<nat>, c: nat)
    requires Distinct(list) && c !in list
    ensures Distinct(list + [c])
  {
  }

  /** The allocated blocks of a bottom index, the last one first. */
  method VisitDown(entries: seq<Entry>, k: nat, ghost hdrs: Hdrs, ghost owner: Owner) returns (visited: seq<nat>)
    requires Shows(entries, k, hdrs, owner) && Intervals(hdrs, owner)
    ensures Distinct(visited)
    ensures forall c: nat :: c in visited <==> UsedAt(hdrs, c) && Addr(k, 0) <= c < Addr(k, BOTTOM_SZ)
  {
    visited := [];
    var j: int := BOTTOM_SZ - 1;
    while j >= 0
      invariant j < BOTTOM_SZ
      invariant Distinct(visited)
      invariant forall c: nat :: c in visited <==>
        UsedAt(hdrs, c) && Addr(k, 0) <= c < Addr(k, BOTTOM_SZ) && k * BOTTOM_SZ + j < c
    {
      match entries[j] {
        case Nil =>
          j := j - 1;
        case Jump(n) =>
          JumpDown(hdrs, owner, Addr(k, j), n);
          j := j - n;
        case Header(h) =>
          if !h.free {
            DistinctAppend(visited, Addr(k, j));
            visited := visited + [Addr(k, j)];
          }
          j := j - 1;
      }
    }
  }

  // ------------------------------------------------------------- the whole index

  ghost predicate Describes(ix: Index, hdrs: Hdrs, owner: Owner)
    reads ix
  {
    ix.Valid() && Intervals(hdrs, owner) && forall u: nat :: ix.At(u) == Expected(hdrs, owner, u)
  }

  lemma ShowsBottom(ix: Index, hdrs: Hdrs, owner: Owner, bi: nat)
    requires Describes(ix, hdrs, owner) && bi in ix.key
    ensures bi in ix.index && Shows(ix.index[bi], ix.key[bi], hdrs, owner)
  {
    var k := ix.key[bi];
    forall j | 0 <= j < BOTTOM_SZ ensures ix.index[bi][j] == Expected(hdrs, owner, Addr(k, j)) {
      PartsOfAddr(k, j);
      assert ix.At(Addr(k, j)) == ix.index[bi][j];
    }
  }

  /** A block has a bottom index. */
  lemma StartHasKey(ix: Index, hdrs: Hdrs, owner: Owner, c: nat)
    requires Describes(ix, hdrs, owner) && c in hdrs
    ensures Hi(c) in ix.ids && ix.ids[Hi(c)] in ix.key && ix.key[ix.ids[Hi(c)]] == Hi(c)
  {
    assert ix.At(c) == Header(hdrs[c]);
  }

  /** Keys above that of the q-th bottom index are at or above that of the next one. */
  lemma NextAbove(order: seq<nat>, first: nat, last: nat, asc: map<nat, nat>, desc: map<nat, nat>, key: map<nat, nat>,
                  q: nat, id: nat)
    requires OrderOk(order, first, last, asc, desc, key) && q < |order| && id in key && key[order[q]] < key[id]
    ensures q + 1 < |order| && key[order[q + 1]] <= key[id]
  {
    var p := Position(order, id);
  }

  lemma NextBelow(order: seq<nat>, first: nat, last: nat, asc: map<nat, nat>, desc: map<nat, nat>, key: map<nat, nat>,
                  q: nat, id: nat)
    requires OrderOk(order, first, last, asc, desc, key) && q < |order| && id in key && key[id] < key[order[q]]
    ensures q > 0 && key[id] <= key[order[q - 1]]
  {
    var p := Position(order, id);
  }

  lemma NoZero(order: seq<nat>, desc: map<nat, nat>, asc: map<nat, nat>)
    requires Linked(order, desc, asc)
    ensures forall i :: 0 <= i < |order| ==> order[i] != 0
  {
  }

  /**
   All allocated blocks from `u` on are at or after position `j` of `bi`, the q-th bottom index; none if there
   is no `bi`.
   */
  ghost predicate LeadsUp(order: seq<nat>, key: map<nat, nat>, hdrs: Hdrs, u: nat, j: nat, bi: nat, q: nat) {
    && q <= |order| && bi == (if q == |order| then 0 else order[q])
    && (q < |order| ==> bi != 0 && bi in key && u <= Addr(key[bi], j) && Hi(u) <= key[bi])
    && (forall c: nat :: UsedAt(hdrs, c) && u <= c ==> q < |order| && Addr(key[bi], j) <= c)
  }

  /** From the end of a bottom index on to the next one. */
  lemma StepUp(ix: Index, hdrs: Hdrs, owner: Owner, u: nat, j: nat, bi: nat, q: nat)
    requires Describes(ix, hdrs, owner) && LeadsUp(ix.order, ix.key, hdrs, u, j, bi, q) && bi != 0 && BOTTOM_SZ <= j
    ensures bi in ix.asc && LeadsUp(ix.order, ix.key, hdrs, u, 0, ix.asc[bi], q + 1)
  {
    OrderFacts(ix.order, ix.first, ix.last, ix.asc, ix.desc, ix.key);
    LinkedAt(ix.order, ix.desc, ix.asc, q);
    var k := ix.key[ix.order[q]];
    if q + 1 < |ix.order| {
      LinkedAt(ix.order, ix.desc, ix.asc, q + 1);
      HiOrder(u, ix.key[ix.order[q + 1]]);
    }
    forall c: nat | UsedAt(hdrs, c) && u <= c ensures q + 1 < |ix.order| && Addr(ix.key[ix.order[q + 1]], 0) <= c {
      StartHasKey(ix, hdrs, owner, c);
      Distribute(k, BOTTOM_SZ);
      HiOrder(c, k + 1);
      NextAbove(ix.order, ix.first, ix.last, ix.asc, ix.desc, ix.key, q, ix.ids[Hi(c)]);
      HiOrder(c, ix.key[ix.order[q + 1]]);
    }
  }

  /** The next allocated block whose address is at least `u`, or 0. */
  method NextUsedBlock(ix: Index, u: nat, ghost hdrs: Hdrs, ghost owner: Owner) returns (r: nat)
    requires Describes(ix, hdrs, owner)
    ensures r != 0 ==> UsedAt(hdrs, r) && u <= r
    ensures forall c :: UsedAt(hdrs, c) && u <= c ==> r != 0 && r <= c
  {
    var j: nat, bi: nat;
    ghost var q: nat;
    j, bi, q := StartUp(ix, u, hdrs, owner);
    while bi != 0
      invariant LeadsUp(ix.order, ix.key, hdrs, u, j, bi, q)
      decreases |ix.order| - q
    {
      ShowsBottom(ix, hdrs, owner, bi);
      j := ScanUp(ix.index[bi], ix.key[bi], j, hdrs, owner);
      if j < BOTTOM_SZ {
        NotZero(hdrs, owner, Addr(ix.key[bi], j));
        return Addr(ix.key[bi], j);
      }
      StepUp(ix, hdrs, owner, u, j, bi, q);
      j, bi, q := 0, ix.asc[bi], q + 1;
    }
    return 0;
  }

  lemma NotZero(hdrs: Hdrs, owner: Owner, c: nat)
    requires Intervals(hdrs, owner) && c in hdrs
    ensures c != 0
  {
    TileAt(ToBlocks(hdrs), owner, c);
  }

  /** Where the search for an allocated block from `u` on starts. */
  method StartUp(ix: Index, u: nat, ghost hdrs: Hdrs, ghost owner: Owner) returns (j: nat, bi: nat, ghost q: nat)
    requires Describes(ix, hdrs, owner)
    ensures LeadsUp(ix.order, ix.key, hdrs, u, j, bi, q)
  {
    OrderFacts(ix.order, ix.first, ix.last, ix.asc, ix.desc, ix.key);
    NoZero(ix.order, ix.desc, ix.asc);
    j := Lo(u);
    bi := ix.GetBi(u);
    if bi != 0 {
      q := Position(ix.order, bi);
      AddrParts(u);
      return;
    }
    var pi;
    pi, bi, q := FindPlace(ix.first, ix.asc, ix.key, Hi(u), ix.order, ix.desc);
    j := 0;
    StartsFrom(ix, hdrs, owner, u, q);
  }

  lemma StartsFrom(ix: Index, hdrs: Hdrs, owner: Owner, u: nat, q: nat)
    requires Describes(ix, hdrs, owner) && OrderOk(ix.order, ix.first, ix.last, ix.asc, ix.desc, ix.key) &&
      q <= |ix.order|
    requires Hi(u) !in ix.ids && forall i :: 0 <= i < q ==> ix.key[ix.order[i]] < Hi(u)
    requires q < |ix.order| ==> Hi(u) <= ix.key[ix.order[q]]
    ensures forall c :: UsedAt(hdrs, c) && u <= c ==> q < |ix.order| && Addr(ix.key[ix.order[q]], 0) <= c
    ensures q < |ix.order| ==> u <= Addr(ix.key[ix.order[q]], 0)
  {
    if q < |ix.order| {
      var k := ix.key[ix.order[q]];
      assert ix.order[q] in ix.key && k in ix.ids;
      HiOrder(u, k);
    }
    forall c | UsedAt(hdrs, c) && u <= c ensures q < |ix.order| && Addr(ix.key[ix.order[q]], 0) <= c {
      StartHasKey(ix, hdrs, owner, c);
      HiMono(u, c);
      var p := Position(ix.order, ix.ids[Hi(c)]);
      assert q <= p;
      HiOrder(c, ix.key[ix.order[q]]);
    }
  }

  // ------------------------------------------------------------------- downwards

  /**
   All blocks up to `u` start at or before position `j` of `bi`, the bottom index before the q-th; none if
   there is no `bi`.
   */
  ghost predicate LeadsDown(order: seq<nat>, key: map<nat, nat>, hdrs: Hdrs, u: nat, j: nat, bi: nat, q: nat) {
    && q <= |order| && bi == (if q == 0 then 0 else order[q - 1])
    && (q > 0 ==> bi != 0 && bi in key && j < BOTTOM_SZ && Addr(key[bi], j) <= u && key[bi] <= Hi(u))
    && (forall c: nat :: c in hdrs && c <= u ==> q > 0 && c <= Addr(key[bi], j))
  }

  /** The end of a bottom index below the one that `u` belongs to is below `u`. */
  lemma EndBelow(u: nat, k: nat)
    requires k < Hi(u)
    ensures Addr(k, BOTTOM_SZ - 1) <= u
  {
    HiOrder(u, k + 1);
    Distribute(k, BOTTOM_SZ);
  }

  lemma AtMostEnd(c: nat, k: nat)
    requires Hi(c) <= k
    ensures c <= Addr(k, BOTTOM_SZ - 1)
  {
    HiOrder(c, k + 1);
    Distribute(k, BOTTOM_SZ);
  }

  /** From the start of a bottom index back to the previous one. */
  lemma StepDown(ix: Index, hdrs: Hdrs, owner: Owner, u: nat, j: nat, bi: nat, q: nat)
    requires Describes(ix, hdrs, owner) && LeadsDown(ix.order, ix.key, hdrs, u, j, bi, q) && bi != 0
    requires forall c :: c in hdrs && c <= Addr(ix.key[bi], j) ==> c < Addr(ix.key[bi], 0)
    ensures bi in ix.desc && LeadsDown(ix.order, ix.key, hdrs, u, BOTTOM_SZ - 1, ix.desc[bi], q - 1)
  {
    OrderFacts(ix.order, ix.first, ix.last, ix.asc, ix.desc, ix.key);
    var i := q - 1;
    LinkedAt(ix.order, ix.desc, ix.asc, i);
    if i > 0 {
      LinkedAt(ix.order, ix.desc, ix.asc, i - 1);
      EndBelow(u, ix.key[ix.order[i - 1]]);
    }
    forall c: nat | c in hdrs && c <= u ensures i > 0 && c <= Addr(ix.key[ix.order[i - 1]], BOTTOM_SZ - 1) {
      StartHasKey(ix, hdrs, owner, c);
      HiOrder(c, ix.key[bi]);
      NextBelow(ix.order, ix.first, ix.last, ix.asc, ix.desc, ix.key, i, ix.ids[Hi(c)]);
      AtMostEnd(c, ix.key[ix.order[i - 1]]);
    }
  }

  /** The last bottom index with a key of at most `hi`, found from the end. */
  method FindFromEnd(last: nat, desc: map<nat, nat>, key: map<nat, nat>, hi: nat, ghost order: seq<nat>,
                     ghost asc: map<nat, nat>)
    returns (bi: nat, ghost q: nat)
    requires Linked(order, desc, asc) && last == Back(order) && Sorted(order, key)
    ensures q <= |order| && bi == if q == 0 then 0 else order[q - 1]
    ensures forall i :: q <= i < |order| ==> hi < key[order[i]]
    ensures q > 0 ==> key[order[q - 1]] <= hi
  {
    bi, q := last, |order|;
    while bi != 0 && key[bi] > hi
      invariant q <= |order| && bi == if q == 0 then 0 else order[q - 1]
      invariant forall i :: q <= i < |order| ==> hi < key[order[i]]
      decreases q
    {
      LinkedAt(order, desc, asc, q - 1);
      bi, q := desc[bi], q - 1;
    }
  }

  lemma StartsUpTo(ix: Index, hdrs: Hdrs, owner: Owner, u: nat, q: nat)
    requires Describes(ix, hdrs, owner) && OrderOk(ix.order, ix.first, ix.last, ix.asc, ix.desc, ix.key) &&
      q <= |ix.order|
    requires Hi(u) !in ix.ids && forall i :: q <= i < |ix.order| ==> Hi(u) < ix.key[ix.order[i]]
    requires q > 0 ==> ix.key[ix.order[q - 1]] <= Hi(u) && ix.order[q - 1] != 0
    ensures LeadsDown(ix.order, ix.key, hdrs, u, BOTTOM_SZ - 1, if q == 0 then 0 else ix.order[q - 1], q)
  {
    if q > 0 {
      var k := ix.key[ix.order[q - 1]];
      assert ix.order[q - 1] in ix.key && k in ix.ids;
      EndBelow(u, k);
    }
    forall c: nat | c in hdrs && c <= u ensures q > 0 && c <= Addr(ix.key[ix.order[q - 1]], BOTTOM_SZ - 1) {
      StartHasKey(ix, hdrs, owner, c);
      HiMono(c, u);
      var p := Position(ix.order, ix.ids[Hi(c)]);
      assert p < q;
      AtMostEnd(c, ix.key[ix.order[q - 1]]);
    }
  }

  method StartDown(ix: Index, u: nat, ghost hdrs: Hdrs, ghost owner: Owner) returns (j: nat, bi: nat, ghost q: nat)
    requires Describes(ix, hdrs, owner)
    ensures LeadsDown(ix.order, ix.key, hdrs, u, j, bi, q)
  {
    OrderFacts(ix.order, ix.first, ix.last, ix.asc, ix.desc, ix.key);
    NoZero(ix.order, ix.desc, ix.asc);
    j := Lo(u);
    bi := ix.GetBi(u);
    if bi != 0 {
      q := Position(ix.order, bi) + 1;
      AddrParts(u);
      return;
    }
    bi, q := FindFromEnd(ix.last, ix.desc, ix.key, Hi(u), ix.order, ix.asc);
    j := BOTTOM_SZ - 1;
    StartsUpTo(ix, hdrs, owner, u, q);
  }

  /** The last block, free or not, whose address is at most `u`, or 0. */
  method PrevBlock(ix: Index, u: nat, ghost hdrs: Hdrs, ghost owner: Owner) returns (r: nat)
    requires Describes(ix, hdrs, owner)
    ensures r != 0 ==> r in hdrs && r <= u
    ensures forall c :: c in hdrs && c <= u ==> c <= r
  {
    var j: nat, bi: nat;
    ghost var q: nat;
    j, bi, q := StartDown(ix, u, hdrs, owner);
    while bi != 0
      invariant LeadsDown(ix.order, ix.key, hdrs, u, j, bi, q)
      decreases q
    {
      ShowsBottom(ix, hdrs, owner, bi);
      var i := ScanDown(ix.index[bi], ix.key[bi], j, hdrs, owner);
      if i >= 0 {
        return Addr(ix.key[bi], i);
      }
      StepDown(ix, hdrs, owner, u, j, bi, q);
      j, bi, q := BOTTOM_SZ - 1, ix.desc[bi], q - 1;
    }
    return 0;
  }

  // ------------------------------------------------------------------ all blocks

  /** The key is that of one of the first `q` bottom indices. */
  ghost predicate Done(order: seq<nat>, key: map<nat, nat>, q: nat, k: nat)
    requires q <= |order| && Sorted(order, key)
  {
    exists i :: 0 <= i < q && key[order[i]] == k
  }

  lemma DistinctConcat(a: seq<nat>, b: seq<nat>)
    requires Distinct(a) && Distinct(b) && forall c :: c in a ==> c !in b
    ensures Distinct(a + b)
  {
    var w := a + b;
    forall i, j | 0 <= i < j < |w| ensures w[i] != w[j] {
      assert i < |a| ==> w[i] in a;
      assert j >= |a| ==> w[j] in b;
    }
  }

  lemma InBottom(c: nat, k: nat)
    ensures Addr(k, 0) <= c < Addr(k, BOTTOM_SZ) <==> Hi(c) == k
  {
    HiOrder(c, k);
    HiOrder(c, k + 1);
    Distribute(k, BOTTOM_SZ);
  }

  lemma DoneStep(order: seq<nat>, key: map<nat, nat>, q: nat, k: nat)
    requires q < |order| && Sorted(order, key)
    ensures Done(order, key, q + 1, k) <==> Done(order, key, q, k) || k == key[order[q]]
    ensures !Done(order, key, q, key[order[q]])
  {
    if k == key[order[q]] {
      assert Done(order, key, q + 1, k);
    }
  }

  /** The blocks a function is applied to, in order. */
  method ApplyToAllBlocks(ix: Index, ghost hdrs: Hdrs, ghost owner: Owner) returns (visited: seq<nat>)
    requires Describes(ix, hdrs, owner)
    ensures Distinct(visited)
    ensures forall c :: c in visited <==> UsedAt(hdrs, c)
  {
    OrderFacts(ix.order, ix.first, ix.last, ix.asc, ix.desc, ix.key);
    visited := [];
    var bi := ix.first;
    ghost var q := 0;
    while bi != 0
      invariant q <= |ix.order| && bi == if q == |ix.order| then 0 else ix.order[q]
      invariant Distinct(visited)
      invariant forall c: nat :: c in visited <==> UsedAt(hdrs, c) && Done(ix.order, ix.key, q, Hi(c))
      decreases |ix.order| - q
    {
      ShowsBottom(ix, hdrs, owner, bi);
      var more := VisitDown(ix.index[bi], ix.key[bi], hdrs, owner);
      VisitedMore(ix.order, ix.key, q, hdrs, visited, more);
      visited := visited + more;
      LinkedAt(ix.order, ix.desc, ix.asc, q);
      bi, q := ix.asc[bi], q + 1;
    }
    NoZero(ix.order, ix.desc, ix.asc);
    forall c | UsedAt(hdrs, c) ensures c in visited {
      StartHasKey(ix, hdrs, owner, c);
      var i := Position(ix.order, ix.ids[Hi(c)]);
      assert ix.key[ix.order[i]] == Hi(c);
    }
  }

  lemma VisitedMore(order: seq<nat>, key: map<nat, nat>, q: nat, hdrs: Hdrs, visited: seq<nat>, more: seq<nat>)
    requires q < |order| && Sorted(order, key) && Distinct(visited) && Distinct(more)
    requires forall c: nat :: c in visited <==> UsedAt(hdrs, c) && Done(order, key, q, Hi(c))
    requires var k := key[order[q]];
      forall c: nat :: c in more <==> UsedAt(hdrs, c) && Addr(k, 0) <= c < Addr(k, BOTTOM_SZ)
    ensures Distinct(visited + more)
    ensures forall c: nat :: c in visited + more <==> UsedAt(hdrs, c) && Done(order, key, q + 1, Hi(c))
  {
    forall c: nat ensures (c in more ==> c !in visited)
      && (c in visited + more <==> UsedAt(hdrs, c) && Done(order, key, q + 1, Hi(c)))
    {
      InBottom(c, key[order[q]]);
      DoneStep(order, key, q, Hi(c));
    }
    DistinctConcat(visited, more);
  }

  // -------------------------------------------------------------- forwarding

  /** From anywhere in an allocated block the forwarding counts lead to its header. */
  method FollowCounts(ix: Index, u: nat, ghost hdrs: Hdrs, ghost owner: Owner) returns (b: nat, e: Entry)
    requires Describes(ix, hdrs, owner)
    ensures e == Nil <==> !(u in hdrs || (u in owner && !hdrs[owner[u]].free))
    ensures e == Nil ==> b == u
    ensures e != Nil ==> u in owner && b == owner[u] && b in hdrs && e == Header(hdrs[b])
  {
    b := u;
    e := ix.HdrAt(b);
    if u in owner {
      assert Inside(ToBlocks(hdrs), owner[u], u);
    }
    if u in hdrs {
      TileAt(ToBlocks(hdrs), owner, u);
    }
    while e.Jump?
      invariant e == ix.At(b) && (e == Nil ==> b == u)
      invariant e == Nil <==> !(u in hdrs || (u in owner && !hdrs[owner[u]].free))
      invariant e != Nil ==> u in owner && b in owner && owner[b] == owner[u]
      decreases b
    {
      JumpDown(hdrs, owner, b, e.n);
      b := b - e.n;
      e := ix.HdrAt(b);
    }
    if e != Nil {
      TileAt(ToBlocks(hdrs), owner, b);
    }
  }
}
