/**
 The free lists of heap blocks: doubly linked, segregated by size, with a count of the free
 memory on each.  Addresses and sizes are in blocks; address 0 is the null link.
 */
module FreeLists {

  const UNIQUE_THRESHOLD := 32
  const HUGE_THRESHOLD := 256
  const FL_COMPRESSION := 8
  const N_HBLK_FLS := (HUGE_THRESHOLD - UNIQUE_THRESHOLD) / FL_COMPRESSION + UNIQUE_THRESHOLD

  /** The list on which a free block of the given size belongs. */
  function FlFromBlocks(n: nat): (i: nat)
    ensures i <= N_HBLK_FLS
    ensures n <= UNIQUE_THRESHOLD ==> i == n
  {
    if n <= UNIQUE_THRESHOLD then n
    else if n >= HUGE_THRESHOLD then N_HBLK_FLS
    else (n - UNIQUE_THRESHOLD) / FL_COMPRESSION + UNIQUE_THRESHOLD
  }

  /** Larger blocks are on later lists, and the lists below the threshold hold one size each. */
  lemma FlMonotone(m: nat, n: nat)
    requires m <= n
    ensures FlFromBlocks(m) <= FlFromBlocks(n)
    ensures m < n && FlFromBlocks(m) == FlFromBlocks(n) ==> UNIQUE_THRESHOLD <= FlFromBlocks(m)
  {
  }

  /** A list in between holds at most eight neighbouring sizes, and the last one the huge blocks exactly. */
  lemma FlWidth(m: nat, n: nat)
    requires m < n
    ensures FlFromBlocks(n) == N_HBLK_FLS <==> 256 <= n
    ensures FlFromBlocks(m) == FlFromBlocks(n) ==> 32 <= m && (n - m < 8 || 256 <= m)
    ensures FlFromBlocks(n) <= FlFromBlocks(m) + (n - m)
  {
    if FlFromBlocks(m) == FlFromBlocks(n) && n < 256 {
      assert (n - UNIQUE_THRESHOLD) / FL_COMPRESSION == (m - UNIQUE_THRESHOLD) / FL_COMPRESSION;
    }
  }

  function Sum(list: seq<nat>, size: map<nat, nat>): nat {
    if list == [] then 0 else (if list[0] in size then size[list[0]] else 0) + Sum(list[1..], size)
  }

  function Total(bytes: seq<nat>): nat {
    if bytes == [] then 0 else bytes[0] + Total(bytes[1..])
  }

  lemma {:induction false} SumConcat(a: seq<nat>, b: seq<nat>, size: map<nat, nat>)
    ensures Sum(a + b, size) == Sum(a, size) + Sum(b, size)
  {
    if a == [] {
      assert a + b == b;
    } else {
      SumConcat(a[1..], b, size);
      assert (a + b)[1..] == a[1..] + b;
    }
  }

  /** The sum over a list depends only on the sizes of its members. */
  lemma {:induction false} SumFrame(list: seq<nat>, size: map<nat, nat>, size': map<nat, nat>)
    requires forall b :: b in list ==> b in size && b in size' && size[b] == size'[b]
    ensures Sum(list, size) == Sum(list, size')
  {
    if list != [] {
      SumFrame(list[1..], size, size');
    }
  }

  lemma {:induction false} TotalUpdate(bytes: seq<nat>, i: nat, v: nat)
    requires i < |bytes|
    ensures Total(bytes[i := v]) == Total(bytes) - bytes[i] + v
  {
    if i == 0 {
      assert bytes[i := v][1..] == bytes[1..];
    } else {
      TotalUpdate(bytes[1..], i - 1, v);
      assert bytes[i := v][1..] == bytes[1..][i - 1 := v];
    }
  }

  function Before(list: seq<nat>, k: nat): nat
    requires k < |list|
  {
    if k == 0 then 0 else list[k - 1]
  }

  function After(list: seq<nat>, k: nat): nat
    requires k < |list|
  {
    if k + 1 == |list| then 0 else list[k + 1]
  }

  ghost predicate Distinct(list: seq<nat>) {
    forall j, k :: 0 <= j < k < |list| ==> list[j] != list[k]
  }

  /** `list` is linked both ways through `prev` and `next`, without repetition. */
  ghost predicate Linked(list: seq<nat>, prev: map<nat, nat>, next: map<nat, nat>) {
    && (forall k :: 0 <= k < |list| ==> list[k] != 0 && list[k] in prev && list[k] in next)
    && (forall k {:trigger Before(list, k)} {:trigger After(list, k)} ::
          0 <= k < |list| ==> prev[list[k]] == Before(list, k) && next[list[k]] == After(list, k))
    && Distinct(list)
  }

  /** Links of other blocks do not matter. */
  lemma LinkedFrame(list: seq<nat>, prev: map<nat, nat>, next: map<nat, nat>, prev': map<nat, nat>,
                    next': map<nat, nat>)
    requires Linked(list, prev, next)
    requires forall b :: b in list ==> b in prev' && b in next' && prev'[b] == prev[b] && next'[b] == next[b]
    ensures Linked(list, prev', next')
  {
  }

  function Front(list: seq<nat>): nat {
    if list == [] then 0 else list[0]
  }

  lemma LinkedAt(list: seq<nat>, prev: map<nat, nat>, next: map<nat, nat>, k: nat)
    requires Linked(list, prev, next) && k < |list|
    ensures list[k] != 0 && list[k] in prev && list[k] in next
    ensures prev[list[k]] == Before(list, k) && next[list[k]] == After(list, k)
  {
  }

  lemma DistinctAt(list: seq<nat>, i: nat, j: nat)
    requires Distinct(list) && i < |list| && j < |list| && i != j
    ensures list[i] != list[j]
  {
  }

  lemma DistinctCons(list: seq<nat>, b: nat)
    requires Distinct(list) && b !in list
    ensures Distinct([b] + list)
  {
    var w := [b] + list;
    forall j, k | 0 <= j < k < |w| ensures w[j] != w[k] {
      if j > 0 {
        DistinctAt(list, j - 1, k - 1);
      }
    }
  }

  lemma ConsLinks(list: seq<nat>, b: nat, prev: map<nat, nat>, next: map<nat, nat>, k: nat)
    requires k < |list| && b !in list && list[k] in prev && list[k] in next
    requires prev[list[k]] == Before(list, k) && next[list[k]] == After(list, k) && (k > 0 ==> list[k] != list[0])
    ensures var prev', w := prev[b := 0][list[0] := b], [b] + list;
      prev'[w[k + 1]] == Before(w, k + 1) && next[b := Front(list)][w[k + 1]] == After(w, k + 1)
  {
  }

  /** Putting block `b` in front of a list. */
  lemma LinkedCons(list: seq<nat>, b: nat, prev: map<nat, nat>, next: map<nat, nat>)
    requires Linked(list, prev, next) && b !in list && b != 0
    ensures var prev' := if list == [] then prev[b := 0] else prev[b := 0][list[0] := b];
      Linked([b] + list, prev', next[b := Front(list)])
  {
    var w := [b] + list;
    var prev' := if list == [] then prev[b := 0] else prev[b := 0][list[0] := b];
    var next' := next[b := Front(list)];
    DistinctCons(list, b);
    forall j | 0 <= j < |w|
      ensures w[j] != 0 && w[j] in prev' && w[j] in next' && prev'[w[j]] == Before(w, j) && next'[w[j]] == After(w, j)
    {
      if j > 0 {
        LinkedAt(list, prev, next, j - 1);
        ConsLinks(list, b, prev, next, j - 1);
      }
    }
  }

  function Without(list: seq<nat>, k: nat): seq<nat>
    requires k < |list|
  {
    list[..k] + list[k + 1..]
  }

  /** Where the j-th block of a list without its k-th one was before. */
  function Skip(j: nat, k: nat): nat {
    if j < k then j else j + 1
  }

  lemma WithoutAt(list: seq<nat>, k: nat, j: nat)
    requires k < |list| && j + 1 < |list|
    ensures Without(list, k)[j] == list[Skip(j, k)]
  {
  }

  lemma DistinctWithout(list: seq<nat>, k: nat)
    requires Distinct(list) && k < |list|
    ensures Distinct(Without(list, k))
  {
    var w := Without(list, k);
    forall i, j | 0 <= i < j < |w| ensures w[i] != w[j] {
      WithoutAt(list, k, i);
      WithoutAt(list, k, j);
    }
  }

  /** Block `list[k]` is taken out between `p` and `n`. */
  function Unlink(links: map<nat, nat>, at: nat, to: nat): map<nat, nat> {
    if at == 0 then links else links[at := to]
  }

  /** Block `list[i]` is linked to its neighbours, and is not the neighbour of `list[k]` by accident. */
  ghost predicate Placed(list: seq<nat>, prev: map<nat, nat>, next: map<nat, nat>, i: nat, k: nat)
    requires i < |list| && k < |list|
  {
    && list[i] != 0 && list[i] in prev && list[i] in next
    && prev[list[i]] == Before(list, i) && next[list[i]] == After(list, i)
    && (k > 0 ==> list[k - 1] != 0 && (i != k - 1 ==> list[i] != list[k - 1]))
    && (k + 1 < |list| ==> list[k + 1] != 0 && (i != k + 1 ==> list[i] != list[k + 1]))
  }

  lemma LinkedPlaced(list: seq<nat>, prev: map<nat, nat>, next: map<nat, nat>, i: nat, k: nat)
    requires Linked(list, prev, next) && i < |list| && k < |list|
    ensures Placed(list, prev, next, i, k)
  {
    LinkedAt(list, prev, next, i);
    if k > 0 {
      LinkedAt(list, prev, next, k - 1);
    }
    if k + 1 < |list| {
      LinkedAt(list, prev, next, k + 1);
    }
  }

  lemma LinkedWithoutAt(list: seq<nat>, k: nat, prev: map<nat, nat>, next: map<nat, nat>, j: nat)
    requires k < |list| && j + 1 < |list| && Placed(list, prev, next, Skip(j, k), k)
    ensures var p, n := Before(list, k), After(list, k);
      var prev', next', w := Unlink(prev, n, p), Unlink(next, p, n), Without(list, k);
      && w[j] != 0 && w[j] in prev' && w[j] in next'
      && prev'[w[j]] == Before(w, j) && next'[w[j]] == After(w, j)
  {
    WithoutAt(list, k, j);
    if j > 0 {
      WithoutAt(list, k, j - 1);
    }
    if j + 2 < |list| {
      WithoutAt(list, k, j + 1);
    }
  }

  /** Unlinking the k-th block: its neighbours are linked to each other. */
  lemma LinkedWithout(list: seq<nat>, k: nat, prev: map<nat, nat>, next: map<nat, nat>)
    requires Linked(list, prev, next) && k < |list|
    ensures list[k] in prev && list[k] in next
    ensures var p, n := prev[list[k]], next[list[k]];
      && Linked(Without(list, k), Unlink(prev, n, p), Unlink(next, p, n))
      && Front(Without(list, k)) == if p == 0 then n else Front(list)
  {
    LinkedAt(list, prev, next, k);
    var p, n := prev[list[k]], next[list[k]];
    var w := Without(list, k);
    DistinctWithout(list, k);
    forall j | 0 <= j < |w|
      ensures w[j] != 0 && w[j] in Unlink(prev, n, p) && w[j] in Unlink(next, p, n)
      ensures Unlink(prev, n, p)[w[j]] == Before(w, j) && Unlink(next, p, n)[w[j]] == After(w, j)
    {
      LinkedPlaced(list, prev, next, Skip(j, k), k);
      LinkedWithoutAt(list, k, prev, next, j);
    }
    if k > 0 {
      LinkedAt(list, prev, next, k - 1);
    }
  }

  lemma DistinctReplace(list: seq<nat>, k: nat, n: nat)
    requires Distinct(list) && k < |list| && n !in list
    ensures Distinct(list[k := n])
  {
  }

  lemma LinkedReplaceAt(list: seq<nat>, k: nat, n: nat, prev: map<nat, nat>, next: map<nat, nat>, j: nat)
    requires k < |list| && j < |list| && n !in list && n != 0 && Placed(list, prev, next, j, k)
    ensures var p, q := Before(list, k), After(list, k);
      var prev', next', w := Unlink(prev[n := p], q, n), Unlink(next[n := q], p, n), list[k := n];
      && w[j] != 0 && w[j] in prev' && w[j] in next'
      && prev'[w[j]] == Before(w, j) && next'[w[j]] == After(w, j)
  {
    assert list[j] != n;
  }

  /** Putting block `n` in the place of the k-th block. */
  lemma LinkedReplace(list: seq<nat>, k: nat, n: nat, prev: map<nat, nat>, next: map<nat, nat>)
    requires Linked(list, prev, next) && k < |list| && n !in list && n != 0
    ensures list[k] in prev && list[k] in next
    ensures var p, q := prev[list[k]], next[list[k]];
      && Linked(list[k := n], Unlink(prev[n := p], q, n), Unlink(next[n := q], p, n))
      && Front(list[k := n]) == if p == 0 then n else Front(list)
  {
    LinkedAt(list, prev, next, k);
    var p, q := prev[list[k]], next[list[k]];
    var w := list[k := n];
    DistinctReplace(list, k, n);
    forall j | 0 <= j < |w|
      ensures w[j] != 0 && w[j] in Unlink(prev[n := p], q, n) && w[j] in Unlink(next[n := q], p, n)
      ensures Unlink(prev[n := p], q, n)[w[j]] == Before(w, j) && Unlink(next[n := q], p, n)[w[j]] == After(w, j)
    {
      LinkedPlaced(list, prev, next, j, k);
      LinkedReplaceAt(list, k, n, prev, next, j);
    }
    if k > 0 {
      LinkedAt(list, prev, next, k - 1);
    }
  }

  /** Block `n` put before the k-th. */
  function Spliced(list: seq<nat>, k: nat, n: nat): seq<nat>
    requires k <= |list|
  {
    list[..k] + [n] + list[k..]
  }

  lemma DistinctSplice(list: seq<nat>, k: nat, n: nat)
    requires Distinct(list) && k <= |list| && n !in list
    ensures Distinct(Spliced(list, k, n))
  {
    var w := Spliced(list, k, n);
    forall i, j | 0 <= i < j < |w| ensures w[i] != w[j] {
      assert i < k ==> w[i] == list[i];
      assert i > k ==> w[i] == list[i - 1];
      assert j < k ==> w[j] == list[j];
      assert j > k ==> w[j] == list[j - 1];
    }
  }

  /** Block `list[i]` is linked to its neighbours, and is not next to position `k` by accident. */
  ghost predicate Near(list: seq<nat>, prev: map<nat, nat>, next: map<nat, nat>, i: nat, k: nat)
    requires i < |list| && k <= |list|
  {
    && list[i] != 0 && list[i] in prev && list[i] in next
    && prev[list[i]] == Before(list, i) && next[list[i]] == After(list, i)
    && (k > 0 ==> list[k - 1] != 0 && (i != k - 1 ==> list[i] != list[k - 1]))
    && (k < |list| ==> list[k] != 0 && (i != k ==> list[i] != list[k]))
  }

  lemma LinkedNear(list: seq<nat>, prev: map<nat, nat>, next: map<nat, nat>, i: nat, k: nat)
    requires Linked(list, prev, next) && i < |list| && k <= |list|
    ensures Near(list, prev, next, i, k)
  {
    LinkedAt(list, prev, next, i);
    if k > 0 {
      LinkedAt(list, prev, next, k - 1);
    }
    if k < |list| {
      LinkedAt(list, prev, next, k);
    }
  }

  lemma LinkedSpliceAt(list: seq<nat>, k: nat, n: nat, prev: map<nat, nat>, next: map<nat, nat>, i: nat)
    requires k <= |list| && i < |list| && n !in list && n != 0 && Near(list, prev, next, i, k)
    ensures var p, q := if k == 0 then 0 else list[k - 1], if k == |list| then 0 else list[k];
      var prev', next', w := Unlink(prev[n := p], q, n), Unlink(next[n := q], p, n), Spliced(list, k, n);
      var j := if i < k then i else i + 1;
      && w[j] == list[i] && w[j] in prev' && w[j] in next'
      && prev'[w[j]] == Before(w, j) && next'[w[j]] == After(w, j)
  {
  }

  lemma SplicedHere(list: seq<nat>, k: nat, n: nat, prev: map<nat, nat>, next: map<nat, nat>)
    requires k <= |list| && n !in list
    ensures var p, q := if k == 0 then 0 else list[k - 1], if k == |list| then 0 else list[k];
      var prev', next', w := Unlink(prev[n := p], q, n), Unlink(next[n := q], p, n), Spliced(list, k, n);
      w[k] == n && n in prev' && n in next' && prev'[n] == Before(w, k) && next'[n] == After(w, k)
  {
    var w := Spliced(list, k, n);
    assert k > 0 ==> w[k - 1] == list[k - 1];
    assert k < |list| ==> w[k + 1] == list[k];
  }

  /** Putting block `n` before the k-th block, or at the end. */
  lemma LinkedSplice(list: seq<nat>, k: nat, n: nat, prev: map<nat, nat>, next: map<nat, nat>)
    requires Linked(list, prev, next) && k <= |list| && n !in list && n != 0
    ensures var p, q := if k == 0 then 0 else list[k - 1], if k == |list| then 0 else list[k];
      Linked(Spliced(list, k, n), Unlink(prev[n := p], q, n), Unlink(next[n := q], p, n))
  {
    var p, q := if k == 0 then 0 else list[k - 1], if k == |list| then 0 else list[k];
    var prev', next', w := Unlink(prev[n := p], q, n), Unlink(next[n := q], p, n), Spliced(list, k, n);
    DistinctSplice(list, k, n);
    forall j | 0 <= j < |w|
      ensures w[j] != 0 && w[j] in prev' && w[j] in next' && prev'[w[j]] == Before(w, j) && next'[w[j]] == After(w, j)
    {
      if j == k {
        SplicedHere(list, k, n, prev, next);
      } else {
        var i := if j < k then j else j - 1;
        LinkedNear(list, prev, next, i, k);
        LinkedSpliceAt(list, k, n, prev, next, i);
      }
    }
  }

  ghost predicate ListOk(list: seq<nat>, head: nat, bytes: nat, prev: map<nat, nat>, next: map<nat, nat>,
                         size: map<nat, nat>) {
    head == Front(list) && Linked(list, prev, next) && bytes == Sum(list, size)
  }

  lemma ListOkFrame(list: seq<nat>, head: nat, bytes: nat,
                    prev: map<nat, nat>, next: map<nat, nat>, size: map<nat, nat>,
                    prev': map<nat, nat>, next': map<nat, nat>, size': map<nat, nat>)
    requires ListOk(list, head, bytes, prev, next, size)
    requires forall b :: b in list ==> b in prev' && b in next' && prev'[b] == prev[b] && next'[b] == next[b]
    requires forall b :: b in list ==> b in size && b in size' && size[b] == size'[b]
    ensures ListOk(list, head, bytes, prev', next', size')
  {
    LinkedFrame(list, prev, next, prev', next');
    SumFrame(list, size, size');
  }

  /** Every member is on the one list recorded for it. */
  ghost predicate MembersOk(fl: seq<seq<nat>>, at: map<nat, nat>) {
    && (forall b :: b in at ==> at[b] < |fl| && b in fl[at[b]])
    && (forall i, b :: 0 <= i < |fl| && b in fl[i] ==> b in at && at[b] == i)
  }

  /** The free lists with, for the reader, their members as sequences, and each member's list and size. */
  datatype Lists = Lists(
    heads: seq<nat>,
    prev: map<nat, nat>,
    next: map<nat, nat>,
    bytes: seq<nat>,
    fl: seq<seq<nat>>,
    at: map<nat, nat>,
    size: map<nat, nat>)

  ghost predicate ListOkAt(t: Lists, i: nat)
    requires i < |t.fl| == |t.heads| == |t.bytes|
  {
    ListOk(t.fl[i], t.heads[i], t.bytes[i], t.prev, t.next, t.size)
  }

  ghost predicate Ok(t: Lists) {
    Shape(t) && forall i :: 0 <= i < |t.fl| ==> ListOkAt(t, i)
  }

  /** Different lists have no member in common, and members have a size. */
  lemma ListsApart(t: Lists, i: nat, j: nat)
    requires MembersOk(t.fl, t.at) && t.at.Keys == t.size.Keys && i < |t.fl| && j < |t.fl| && i != j
    ensures forall c :: c in t.fl[j] ==> c !in t.fl[i] && c in t.at && c in t.size
  {
    forall c | c in t.fl[j] ensures c !in t.fl[i] && c in t.at && c in t.size {
      assert c in t.at && t.at[c] == j;
      assert c in t.at.Keys;
    }
  }

  lemma MembersHaveSize(t: Lists, i: nat)
    requires MembersOk(t.fl, t.at) && t.at.Keys == t.size.Keys && i < |t.fl|
    ensures forall c :: c in t.fl[i] ==> c in t.size
  {
    forall c | c in t.fl[i] ensures c in t.size {
      assert c in t.at && c in t.at.Keys;
    }
  }

  /** `Ok` apart from the lists themselves. */
  ghost predicate Shape(t: Lists) {
    |t.heads| == |t.bytes| == |t.fl| == N_HBLK_FLS + 1 && t.at.Keys == t.size.Keys && MembersOk(t.fl, t.at)
  }

  lemma Neighbours(list: seq<nat>, prev: map<nat, nat>, next: map<nat, nat>, b: nat)
    requires Linked(list, prev, next) && b in list
    ensures b in prev && b in next && b != 0
    ensures prev[b] == 0 || prev[b] in list
    ensures next[b] == 0 || next[b] in list
    ensures 0 !in list
  {
    var k := Position(list, b);
    assert prev[list[k]] == Before(list, k) && next[list[k]] == After(list, k);
  }

  /** Links and sizes of blocks that are not on the list have changed. */
  lemma ListOkKept(t: Lists, u: Lists, j: nat)
    requires j < |t.fl| == |t.heads| == |t.bytes| && |u.fl| == |u.heads| == |u.bytes| == |t.fl|
    requires ListOkAt(t, j) && u.fl[j] == t.fl[j] && u.heads[j] == t.heads[j] && u.bytes[j] == t.bytes[j]
    requires forall c :: c in t.fl[j] ==> c in t.size && c in u.size && u.size[c] == t.size[c]
    requires forall c :: c in t.fl[j] ==> c in t.prev && c in u.prev && u.prev[c] == t.prev[c]
    requires forall c :: c in t.fl[j] ==> c in t.next && c in u.next && u.next[c] == t.next[c]
    ensures ListOkAt(u, j)
  {
    ListOkFrame(t.fl[j], t.heads[j], t.bytes[j], t.prev, t.next, t.size, u.prev, u.next, u.size);
  }

  lemma LinkedKeys(list: seq<nat>, prev: map<nat, nat>, next: map<nat, nat>)
    requires Linked(list, prev, next)
    ensures forall c :: c in list ==> c in prev && c in next && c != 0
  {
  }

  // ------------------------------------------------------------------- adding

  function Added(t: Lists, b: nat, n: nat, i: nat): Lists
    requires i < |t.fl| == |t.heads| == |t.bytes|
  {
    var second := t.heads[i];
    Lists(t.heads[i := b],
          if second == 0 then t.prev[b := 0] else t.prev[b := 0][second := b],
          t.next[b := second],
          t.bytes[i := t.bytes[i] + n],
          t.fl[i := [b] + t.fl[i]],
          t.at[b := i],
          t.size[b := n])
  }

  lemma AddedHere(t: Lists, b: nat, n: nat, i: nat)
    requires i < |t.fl| == |t.heads| == |t.bytes| && ListOkAt(t, i)
    requires b !in t.fl[i] && b != 0 && forall c :: c in t.fl[i] ==> c in t.size
    ensures ListOkAt(Added(t, b, n, i), i)
  {
    var u := Added(t, b, n, i);
    LinkedCons(t.fl[i], b, t.prev, t.next);
    SumFrame(t.fl[i], t.size, u.size);
    assert u.fl[i][1..] == t.fl[i];
  }

  lemma AddedElsewhere(t: Lists, b: nat, n: nat, i: nat, j: nat)
    requires i < |t.fl| == |t.heads| == |t.bytes| && j < |t.fl| && i != j && ListOkAt(t, i) && ListOkAt(t, j)
    requires b !in t.fl[j] && forall c :: c in t.fl[j] ==> c !in t.fl[i] && c in t.size
    ensures ListOkAt(Added(t, b, n, i), j)
  {
    LinkedKeys(t.fl[j], t.prev, t.next);
    assert t.heads[i] == 0 || t.heads[i] in t.fl[i];
    ListOkKept(t, Added(t, b, n, i), j);
  }

  lemma MembersAdded(fl: seq<seq<nat>>, at: map<nat, nat>, b: nat, i: nat)
    requires MembersOk(fl, at) && b !in at && i < |fl|
    ensures MembersOk(fl[i := [b] + fl[i]], at[b := i])
  {
    var fl', at' := fl[i := [b] + fl[i]], at[b := i];
    forall c | c in at' ensures at'[c] < |fl'| && c in fl'[at'[c]] {
      assert c != b ==> c in fl[at[c]];
      assert c == b ==> fl'[i][0] == b;
    }
    forall k, c | 0 <= k < |fl'| && c in fl'[k] ensures c in at' && at'[c] == k {
      assert c == b || (c in fl[k] && at[c] == k);
    }
  }

  lemma AddedShape(t: Lists, b: nat, n: nat, i: nat)
    requires Shape(t) && b !in t.at && i < |t.fl|
    ensures Shape(Added(t, b, n, i))
  {
    MembersAdded(t.fl, t.at, b, i);
  }

  lemma AddedAt(t: Lists, b: nat, n: nat, i: nat, j: nat)
    requires Shape(t) && b !in t.at && b != 0 && i < |t.fl| && j < |t.fl| && ListOkAt(t, i) && ListOkAt(t, j)
    ensures ListOkAt(Added(t, b, n, i), j)
  {
    MembersHaveSize(t, i);
    if j == i {
      AddedHere(t, b, n, i);
    } else {
      ListsApart(t, i, j);
      AddedElsewhere(t, b, n, i, j);
    }
  }

  lemma AddedOk(t: Lists, b: nat, n: nat, i: nat)
    requires Ok(t) && b !in t.at && b != 0 && i <= N_HBLK_FLS
    ensures Ok(Added(t, b, n, i)) && Total(Added(t, b, n, i).bytes) == Total(t.bytes) + n
  {
    TotalUpdate(t.bytes, i, t.bytes[i] + n);
    AddedShape(t, b, n, i);
    var u := Added(t, b, n, i);
    forall j | 0 <= j < |u.fl| ensures ListOkAt(u, j) {
      AddedAt(t, b, n, i, j);
    }
  }

  // ----------------------------------------------------------------- removing

  function Position(list: seq<nat>, b: nat): (k: nat)
    requires b in list
    ensures k < |list| && list[k] == b
  {
    if list[0] == b then 0 else 1 + Position(list[1..], b)
  }

  /** Block `b` can be unlinked from list `i`. */
  predicate Holding(t: Lists, b: nat, i: nat) {
    && i < |t.fl| == |t.heads| == |t.bytes| == N_HBLK_FLS + 1
    && b in t.fl[i] && b in t.prev && b in t.next && b in t.size
  }

  /** Block `b` taken off list `i`. */
  function Removed(t: Lists, b: nat, i: nat): Lists
    requires Holding(t, b, i)
  {
    var p, n := t.prev[b], t.next[b];
    Lists(if p == 0 then t.heads[i := n] else t.heads,
          Unlink(t.prev, n, p),
          Unlink(t.next, p, n),
          t.bytes[i := if t.bytes[i] < t.size[b] then 0 else t.bytes[i] - t.size[b]],
          t.fl[i := Without(t.fl[i], Position(t.fl[i], b))],
          t.at - {b},
          t.size - {b})
  }

  ghost predicate IsOn(t: Lists, b: nat, i: nat) {
    Ok(t) && i <= N_HBLK_FLS && b in t.at && t.at[b] == i
  }

  lemma OnListFacts(t: Lists, b: nat, i: nat)
    requires IsOn(t, b, i)
    ensures Holding(t, b, i) && b != 0
    ensures t.size[b] <= t.bytes[i]
  {
    assert ListOkAt(t, i);
    var k := Position(t.fl[i], b);
    SumWithout(t.fl[i], k, t.size);
  }

  lemma SumWithout(list: seq<nat>, k: nat, size: map<nat, nat>)
    requires k < |list| && list[k] in size
    ensures Sum(list, size) == Sum(Without(list, k), size) + size[list[k]]
  {
    assert list == list[..k] + ([list[k]] + list[k + 1..]);
    SumConcat(list[..k], [list[k]] + list[k + 1..], size);
    SumConcat([list[k]], list[k + 1..], size);
    SumConcat(list[..k], list[k + 1..], size);
    assert Sum([list[k]], size) == size[list[k]] + Sum([list[k]][1..], size);
  }

  lemma WithoutMembers(list: seq<nat>, k: nat)
    requires Distinct(list) && k < |list|
    ensures forall b :: b in Without(list, k) <==> b in list && b != list[k]
  {
    var w := Without(list, k);
    forall b | b in list && b != list[k] ensures b in w {
      var m := Position(list, b);
      var j := if m < k then m else m - 1;
      WithoutAt(list, k, j);
      assert w[j] == b;
    }
    forall b | b in w ensures b in list && b != list[k] {
      var j := Position(w, b);
      WithoutAt(list, k, j);
      DistinctAt(list, Skip(j, k), k);
    }
  }

  lemma RemovedHere(t: Lists, b: nat, i: nat)
    requires Holding(t, b, i) && ListOkAt(t, i) && forall c :: c in t.fl[i] ==> c in t.size
    ensures ListOkAt(Removed(t, b, i), i)
  {
    var u := Removed(t, b, i);
    var k := Position(t.fl[i], b);
    LinkedWithout(t.fl[i], k, t.prev, t.next);
    SumWithout(t.fl[i], k, t.size);
    WithoutMembers(t.fl[i], k);
    SumFrame(u.fl[i], t.size, u.size);
  }

  lemma RemovedElsewhere(t: Lists, b: nat, i: nat, j: nat)
    requires Holding(t, b, i) && j < |t.fl| && i != j && ListOkAt(t, i) && ListOkAt(t, j)
    requires forall c :: c in t.fl[j] ==> c !in t.fl[i] && c in t.size
    ensures ListOkAt(Removed(t, b, i), j)
  {
    LinkedKeys(t.fl[j], t.prev, t.next);
    Neighbours(t.fl[i], t.prev, t.next, b);
    ListOkKept(t, Removed(t, b, i), j);
  }

  lemma MembersWithout(fl: seq<seq<nat>>, at: map<nat, nat>, list: seq<nat>, b: nat, i: nat)
    requires MembersOk(fl, at) && i < |fl| && b in fl[i]
    requires forall c :: c in list <==> c in fl[i] && c != b
    ensures MembersOk(fl[i := list], at - {b})
  {
    var fl', at' := fl[i := list], at - {b};
    assert at[b] == i;
    forall c | c in at' ensures at'[c] < |fl'| && c in fl'[at'[c]] {
      assert c in fl[at[c]];
    }
    forall k, c | 0 <= k < |fl'| && c in fl'[k] ensures c in at' && at'[c] == k {
      assert c in fl[k] && at[c] == k;
    }
  }

  lemma RemovedShape(t: Lists, b: nat, i: nat)
    requires Shape(t) && Holding(t, b, i)
    requires forall c :: c in Without(t.fl[i], Position(t.fl[i], b)) <==> c in t.fl[i] && c != b
    ensures Shape(Removed(t, b, i))
  {
    MembersWithout(t.fl, t.at, Without(t.fl[i], Position(t.fl[i], b)), b, i);
  }

  lemma RemovedAt(t: Lists, b: nat, i: nat, j: nat)
    requires Shape(t) && Holding(t, b, i) && j < |t.fl| && ListOkAt(t, i) && ListOkAt(t, j)
    ensures ListOkAt(Removed(t, b, i), j)
  {
    MembersHaveSize(t, i);
    if j == i {
      RemovedHere(t, b, i);
    } else {
      ListsApart(t, i, j);
      RemovedElsewhere(t, b, i, j);
    }
  }

  lemma RemovedLists(t: Lists, b: nat, i: nat)
    requires IsOn(t, b, i) && Holding(t, b, i)
    ensures Ok(Removed(t, b, i))
  {
    assert forall c :: c in Without(t.fl[i], Position(t.fl[i], b)) <==> c in t.fl[i] && c != b by {
      assert ListOkAt(t, i);
      WithoutMembers(t.fl[i], Position(t.fl[i], b));
    }
    RemovedShape(t, b, i);
    var u := Removed(t, b, i);
    forall j | 0 <= j < |u.fl| ensures ListOkAt(u, j) {
      RemovedAt(t, b, i, j);
    }
  }

  lemma RemovedOk(t: Lists, b: nat, i: nat)
    requires IsOn(t, b, i)
    ensures Holding(t, b, i)
    ensures Ok(Removed(t, b, i)) && Total(Removed(t, b, i).bytes) + t.size[b] == Total(t.bytes)
  {
    OnListFacts(t, b, i);
    TotalUpdate(t.bytes, i, t.bytes[i] - t.size[b]);
    RemovedLists(t, b, i);
  }

  // ---------------------------------------------------------------- replacing

  function With(list: seq<nat>, k: nat, n: nat): seq<nat>
    requires k < |list|
  {
    list[k := n]
  }

  /** Block `n` of `m` blocks put in the place of `b` on list `i`. */
  function Replaced(t: Lists, b: nat, n: nat, m: nat, i: nat): Lists
    requires Holding(t, b, i)
  {
    var p, q := t.prev[b], t.next[b];
    var less := if t.size[b] < m then 0 else t.size[b] - m;
    Lists(if p == 0 then t.heads[i := n] else t.heads,
          Unlink(t.prev[n := p], q, n),
          Unlink(t.next[n := q], p, n),
          t.bytes[i := if t.bytes[i] < less then 0 else t.bytes[i] - less],
          t.fl[i := With(t.fl[i], Position(t.fl[i], b), n)],
          (t.at - {b})[n := i],
          (t.size - {b})[n := m])
  }

  lemma SumReplace(list: seq<nat>, k: nat, n: nat, size: map<nat, nat>, size': map<nat, nat>)
    requires k < |list| && list[k] in size && n in size'
    requires forall b :: b in Without(list, k) ==> b in size && b in size' && size[b] == size'[b]
    ensures Sum(list[k := n], size') + size[list[k]] == Sum(list, size) + size'[n]
  {
    SumWithout(list, k, size);
    SumWithout(list[k := n], k, size');
    assert Without(list[k := n], k) == Without(list, k);
    SumFrame(Without(list, k), size, size');
  }

  lemma ReplacedHere(t: Lists, b: nat, n: nat, m: nat, i: nat)
    requires Holding(t, b, i) && ListOkAt(t, i) && forall c :: c in t.fl[i] ==> c in t.size
    requires n !in t.fl[i] && n != 0 && m <= t.size[b] <= t.bytes[i]
    ensures ListOkAt(Replaced(t, b, n, m, i), i)
  {
    var u := Replaced(t, b, n, m, i);
    var k := Position(t.fl[i], b);
    LinkedReplace(t.fl[i], k, n, t.prev, t.next);
    WithoutMembers(t.fl[i], k);
    SumReplace(t.fl[i], k, n, t.size, u.size);
  }

  lemma ReplacedElsewhere(t: Lists, b: nat, n: nat, m: nat, i: nat, j: nat)
    requires Holding(t, b, i) && j < |t.fl| && i != j && ListOkAt(t, i) && ListOkAt(t, j)
    requires n !in t.fl[j] && forall c :: c in t.fl[j] ==> c !in t.fl[i] && c in t.size
    ensures ListOkAt(Replaced(t, b, n, m, i), j)
  {
    LinkedKeys(t.fl[j], t.prev, t.next);
    Neighbours(t.fl[i], t.prev, t.next, b);
    ListOkKept(t, Replaced(t, b, n, m, i), j);
  }

  lemma WithMembers(list: seq<nat>, k: nat, n: nat)
    requires Distinct(list) && k < |list|
    ensures forall c :: c in With(list, k, n) <==> c == n || (c in list && c != list[k])
  {
    var w := With(list, k, n);
    assert w[k] == n;
    forall c | c in list && c != list[k] ensures c in w {
      var m := Position(list, c);
      assert w[m] == c;
    }
    forall c | c in w && c != n ensures c in list && c != list[k] {
      var m := Position(w, c);
      DistinctAt(list, m, k);
    }
  }

  lemma MembersWith(fl: seq<seq<nat>>, at: map<nat, nat>, list: seq<nat>, b: nat, n: nat, i: nat)
    requires MembersOk(fl, at) && i < |fl| && b in fl[i] && n !in at
    requires forall c :: c in list <==> c == n || (c in fl[i] && c != b)
    ensures MembersOk(fl[i := list], (at - {b})[n := i])
  {
    var fl', at' := fl[i := list], (at - {b})[n := i];
    assert at[b] == i;
    forall c | c in at' ensures at'[c] < |fl'| && c in fl'[at'[c]] {
      assert c != n ==> c in fl[at[c]];
    }
    forall k, c | 0 <= k < |fl'| && c in fl'[k] ensures c in at' && at'[c] == k {
      assert c == n || (c in fl[k] && at[c] == k);
    }
  }

  lemma ReplacedShape(t: Lists, b: nat, n: nat, m: nat, i: nat)
    requires Shape(t) && Holding(t, b, i) && n !in t.at
    requires forall c :: c in With(t.fl[i], Position(t.fl[i], b), n) <==> c == n || (c in t.fl[i] && c != b)
    ensures Shape(Replaced(t, b, n, m, i))
  {
    MembersWith(t.fl, t.at, With(t.fl[i], Position(t.fl[i], b), n), b, n, i);
  }

  lemma ReplacedAt(t: Lists, b: nat, n: nat, m: nat, i: nat, j: nat)
    requires Shape(t) && Holding(t, b, i) && j < |t.fl| && ListOkAt(t, i) && ListOkAt(t, j)
    requires n !in t.at && n != 0 && m <= t.size[b] <= t.bytes[i]
    ensures ListOkAt(Replaced(t, b, n, m, i), j)
  {
    MembersHaveSize(t, i);
    if j == i {
      ReplacedHere(t, b, n, m, i);
    } else {
      ListsApart(t, i, j);
      ReplacedElsewhere(t, b, n, m, i, j);
    }
  }

  lemma ReplacedLists(t: Lists, b: nat, n: nat, m: nat, i: nat)
    requires IsOn(t, b, i) && Holding(t, b, i) && n !in t.at && n != 0 && m <= t.size[b] <= t.bytes[i]
    ensures Ok(Replaced(t, b, n, m, i))
  {
    assert forall c :: c in With(t.fl[i], Position(t.fl[i], b), n) <==> c == n || (c in t.fl[i] && c != b) by {
      assert ListOkAt(t, i);
      WithMembers(t.fl[i], Position(t.fl[i], b), n);
    }
    ReplacedShape(t, b, n, m, i);
    var u := Replaced(t, b, n, m, i);
    forall j | 0 <= j < |u.fl| ensures ListOkAt(u, j) {
      ReplacedAt(t, b, n, m, i, j);
    }
  }

  lemma ReplacedOk(t: Lists, b: nat, n: nat, m: nat, i: nat)
    requires IsOn(t, b, i) && n !in t.at && n != 0 && b in t.size && m <= t.size[b]
    ensures Holding(t, b, i)
    ensures Ok(Replaced(t, b, n, m, i)) && Total(Replaced(t, b, n, m, i).bytes) + t.size[b] == Total(t.bytes) + m
  {
    OnListFacts(t, b, i);
    TotalUpdate(t.bytes, i, t.bytes[i] - (t.size[b] - m));
    ReplacedLists(t, b, n, m, i);
  }

  lemma {:induction false} TotalZero(bytes: seq<nat>)
    requires forall i :: 0 <= i < |bytes| ==> bytes[i] == 0
    ensures Total(bytes) == 0
  {
    if bytes != [] {
      TotalZero(bytes[1..]);
    }
  }
}
