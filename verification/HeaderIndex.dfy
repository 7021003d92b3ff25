/**
 The two-level index from unit blocks to headers: bottom indices found through hash chains
 and linked in both directions in the order of their keys.
 */
module HeaderIndex {
  import opened Chains
  import opened Division
  import opened FreeLists
  import opened Tiling

  type Positive = n: nat | n > 0 witness 1
  const BOTTOM_SZ: Positive
  const TOP_SZ: Positive

  /** `len` is in unit blocks; `sz`, for an allocated block, is the size of its objects in bytes. */
  datatype Hdr = Hdr(len: nat, free: bool, sz: nat, ignoreOffPage: bool)

  datatype Entry = Nil | Jump(n: nat) | Header(h: Hdr)

  // --------------------------------------------------------------- address parts

  function Hi(u: nat): nat {
    u / BOTTOM_SZ
  }

  function Lo(u: nat): (j: nat)
    ensures j < BOTTOM_SZ
  {
    u % BOTTOM_SZ
  }

  function Addr(k: nat, j: nat): nat {
    k * BOTTOM_SZ + j
  }

  lemma AddrParts(u: nat)
    ensures Addr(Hi(u), Lo(u)) == u
  {
  }

  lemma PartsOfAddr(k: nat, j: nat)
    requires j < BOTTOM_SZ
    ensures Hi(Addr(k, j)) == k && Lo(Addr(k, j)) == j
  {
    DivMod(k, j, BOTTOM_SZ);
  }

  /** Unit blocks from `Addr(k, 0)` on have a high part of at least `k`. */
  lemma HiOrder(u: nat, k: nat)
    ensures Addr(k, 0) <= u <==> k <= Hi(u)
  {
    AddrParts(u);
    if k <= Hi(u) {
      MulMono(k, Hi(u), BOTTOM_SZ);
    } else {
      MulMono(Hi(u) + 1, k, BOTTOM_SZ);
    }
  }

  lemma HiMono(u: nat, v: nat)
    requires u <= v
    ensures Hi(u) <= Hi(v)
  {
    HiOrder(v, Hi(u));
    AddrParts(u);
  }

  lemma NextKey(u: nat)
    ensures Hi(u + BOTTOM_SZ) == Hi(u) + 1
  {
    AddrParts(u);
    PartsOfAddr(Hi(u) + 1, Lo(u));
    assert Addr(Hi(u) + 1, Lo(u)) == u + BOTTOM_SZ by {
      Distribute(Hi(u), BOTTOM_SZ);
    }
  }

  lemma Distribute(k: nat, m: nat)
    ensures (k + 1) * m == k * m + m
  {
  }

  /** There are bottom indices for all of `[b, b + n)`. */
  ghost predicate Covers(ids: map<nat, nat>, b: nat, n: nat) {
    forall v :: b <= v < b + n ==> Hi(v) in ids
  }

  ghost predicate KeysUpTo(ids: map<nat, nat>, from: nat, to: nat) {
    forall k :: from <= k < to ==> k in ids
  }

  lemma LastKey(ids: map<nat, nat>, b: nat, n: nat, u: nat)
    requires 0 < n && b + n <= u && KeysUpTo(ids, Hi(b), Hi(u)) && Hi(b + n - 1) in ids
    ensures Covers(ids, b, n)
  {
    forall v | b <= v < b + n ensures Hi(v) in ids {
      HiMono(b, v);
      HiMono(v, b + n - 1);
      HiMono(b + n - 1, u);
    }
  }

  // -------------------------------------------------------------- bottom indices

  ghost predicate Sorted(order: seq<nat>, key: map<nat, nat>) {
    && (forall i :: 0 <= i < |order| ==> order[i] in key)
    && (forall i, j :: 0 <= i < j < |order| ==> key[order[i]] < key[order[j]])
  }

  function Back(order: seq<nat>): nat {
    if order == [] then 0 else order[|order| - 1]
  }

  /** The list of all bottom indices, in the order of their keys. */
  ghost predicate OrderOk(order: seq<nat>, first: nat, last: nat, asc: map<nat, nat>, desc: map<nat, nat>,
                          key: map<nat, nat>) {
    && Linked(order, desc, asc) && first == Front(order) && last == Back(order) && Sorted(order, key)
    && (forall id :: id in order <==> id in key)
  }

  /** The hash of a key. */
  function Slot(hi: nat): (i: nat)
    ensures i < TOP_SZ
  {
    hi % TOP_SZ
  }

  /** Bottom indices less than a table size apart are on different chains. */
  lemma SlotApart(a: nat, b: nat)
    requires a < b < a + TOP_SZ
    ensures Slot(a) != Slot(b)
  {
    RemaindersDiffer(a, b, TOP_SZ);
  }

  ghost predicate ChainsOk(chains: seq<seq<nat>>, top: seq<nat>, link: map<nat, nat>, key: map<nat, nat>) {
    && |chains| == |top| == TOP_SZ
    && (forall i :: 0 <= i < TOP_SZ ==> Chain(chains[i], top[i], link))
    && (forall i, id :: 0 <= i < TOP_SZ && id in chains[i] ==> id in key && Slot(key[id]) == i)
    && (forall id :: id in key ==> id in chains[Slot(key[id])])
  }

  /** `ids` is the inverse of `key`; every bottom index has its entries. */
  ghost predicate IdsOk(ids: map<nat, nat>, key: map<nat, nat>, index: map<nat, seq<Entry>>, issued: nat) {
    && (forall id :: id in key ==> 0 < id <= issued && key[id] in ids && ids[key[id]] == id)
    && (forall k :: k in ids ==> ids[k] in key && key[ids[k]] == k)
    && (forall id :: id in key <==> id in index)
    && (forall id :: id in index ==> |index[id]| == BOTTOM_SZ)
  }

  lemma SortedSplice(order: seq<nat>, key: map<nat, nat>, k: nat, r: nat, hi: nat)
    requires Sorted(order, key) && k <= |order| && r !in key
    requires forall i :: 0 <= i < k ==> key[order[i]] < hi
    requires k < |order| ==> hi < key[order[k]]
    ensures Sorted(Spliced(order, k, r), key[r := hi])
  {
    var w, key' := Spliced(order, k, r), key[r := hi];
    forall i | 0 <= i < |w| ensures w[i] in key' {
      assert i < k ==> w[i] == order[i];
      assert i > k ==> w[i] == order[i - 1];
    }
    forall i, j | 0 <= i < j < |w| ensures key'[w[i]] < key'[w[j]] {
      assert i < k ==> w[i] == order[i] && w[i] != r;
      assert i > k ==> w[i] == order[i - 1] && w[i] != r;
      assert j < k ==> w[j] == order[j] && w[j] != r;
      assert j > k ==> w[j] == order[j - 1] && w[j] != r;
    }
  }

  lemma OrderSplice(order: seq<nat>, first: nat, last: nat, asc: map<nat, nat>, desc: map<nat, nat>, key: map<nat, nat>,
                    k: nat, r: nat, hi: nat)
    requires OrderOk(order, first, last, asc, desc, key) && k <= |order| && r !in key && r != 0
    requires forall i :: 0 <= i < k ==> key[order[i]] < hi
    requires k < |order| ==> hi < key[order[k]]
    ensures var p, q := if k == 0 then 0 else order[k - 1], if k == |order| then 0 else order[k];
      OrderOk(Spliced(order, k, r), if p == 0 then r else first, if q == 0 then r else last,
              Unlink(asc[r := q], p, r), Unlink(desc[r := p], q, r), key[r := hi])
  {
    assert Linked(order, desc, asc);
    LinkedSplice(order, k, r, desc, asc);
    SortedSplice(order, key, k, r, hi);
    SplicedEnds(order, k, r);
    SplicedMembers(order, k, r);
    assert k > 0 ==> order[k - 1] != 0;
    assert k < |order| ==> order[k] != 0;
  }

  lemma SplicedEnds(order: seq<nat>, k: nat, r: nat)
    requires k <= |order|
    ensures var w := Spliced(order, k, r);
      && Front(w) == (if k == 0 then r else Front(order)) && Back(w) == (if k == |order| then r else Back(order))
  {
  }

  lemma SplicedMembers(order: seq<nat>, k: nat, r: nat)
    requires k <= |order|
    ensures forall id :: id in Spliced(order, k, r) <==> id in order || id == r
  {
    var w := Spliced(order, k, r);
    assert w[k] == r;
    forall id | id in order ensures id in w {
      var i := Position(order, id);
      assert w[if i < k then i else i + 1] == id;
    }
    forall id | id in w && id != r ensures id in order {
      var i := Position(w, id);
      assert id == order[if i < k then i else i - 1];
    }
  }

  lemma ChainsLinked(chains: seq<seq<nat>>, top: seq<nat>, link: map<nat, nat>, r: nat, i: nat, j: nat)
    requires |chains| == |top| && i < |top| && j < |top| && r != 0 && r !in chains[j]
    requires Chain(chains[i], top[i], link) && Chain(chains[j], top[j], link)
    ensures Chain(chains[i := [r] + chains[i]][j], top[i := r][j], link[r := top[i]])
  {
    if j == i {
      ChainCons(chains[i], top[i], link, r);
    } else {
      ChainKept(chains[j], top[j], link, r, top[i]);
    }
  }

  lemma ChainMembers(chains: seq<seq<nat>>, key: map<nat, nat>, r: nat, hi: nat)
    requires |chains| == TOP_SZ && r !in key
    requires forall j, id :: 0 <= j < TOP_SZ && id in chains[j] ==> id in key && Slot(key[id]) == j
    requires forall id :: id in key ==> id in chains[Slot(key[id])]
    ensures var chains', key' := chains[Slot(hi) := [r] + chains[Slot(hi)]], key[r := hi];
      && (forall j, id :: 0 <= j < TOP_SZ && id in chains'[j] ==> id in key' && Slot(key'[id]) == j)
      && (forall id :: id in key' ==> id in chains'[Slot(key'[id])])
  {
    var chains', key' := chains[Slot(hi) := [r] + chains[Slot(hi)]], key[r := hi];
    forall j, id | 0 <= j < TOP_SZ && id in chains'[j] ensures id in key' && Slot(key'[id]) == j {
      assert id == r || id in chains[j];
    }
    forall id | id in key' ensures id in chains'[Slot(key'[id])] {
      assert id == r ==> chains'[Slot(hi)][0] == r;
      assert id != r ==> id in chains[Slot(key[id])];
    }
  }

  lemma ChainsCons(chains: seq<seq<nat>>, top: seq<nat>, link: map<nat, nat>, key: map<nat, nat>, r: nat, hi: nat)
    requires ChainsOk(chains, top, link, key) && r !in key && r != 0
    ensures var i := Slot(hi);
      ChainsOk(chains[i := [r] + chains[i]], top[i := r], link[r := top[i]], key[r := hi])
  {
    ChainMembers(chains, key, r, hi);
    ChainsLinkedAll(chains, top, link, r, Slot(hi));
  }

  lemma ChainsLinkedAll(chains: seq<seq<nat>>, top: seq<nat>, link: map<nat, nat>, r: nat, i: nat)
    requires |chains| == |top| && i < |top| && r != 0
    requires forall j :: 0 <= j < |top| ==> Chain(chains[j], top[j], link)
    requires forall j :: 0 <= j < |top| ==> r !in chains[j]
    ensures var chains', top', link' := chains[i := [r] + chains[i]], top[i := r], link[r := top[i]];
      forall j :: 0 <= j < |top| ==> Chain(chains'[j], top'[j], link')
  {
    var chains', top', link' := chains[i := [r] + chains[i]], top[i := r], link[r := top[i]];
    forall j | 0 <= j < |top| ensures Chain(chains'[j], top'[j], link') {
      ChainsLinked(chains, top, link, r, i, j);
    }
  }

  /** The bottom index with key `hi` is on the chain of its slot. */
  lemma OnChain(chains: seq<seq<nat>>, top: seq<nat>, link: map<nat, nat>, key: map<nat, nat>, ids: map<nat, nat>,
                index: map<nat, seq<Entry>>, issued: nat, hi: nat)
    requires ChainsOk(chains, top, link, key) && IdsOk(ids, key, index, issued)
    ensures var chain := chains[Slot(hi)];
      && Chain(chain, top[Slot(hi)], link)
      && (forall j :: 0 <= j < |chain| ==>
           chain[j] in key && (key[chain[j]] == hi ==> hi in ids && ids[hi] == chain[j]))
      && (hi in ids ==> exists j :: 0 <= j < |chain| && chain[j] in key && key[chain[j]] == hi)
  {
    var chain := chains[Slot(hi)];
    forall j | 0 <= j < |chain| ensures chain[j] in key && (key[chain[j]] == hi ==> hi in ids && ids[hi] == chain[j]) {
      assert chain[j] in chain;
    }
    if hi in ids {
      var j := Position(chain, ids[hi]);
      assert chain[j] in key && key[chain[j]] == hi;
    }
  }

  lemma NewIndex(ids: map<nat, nat>, key: map<nat, nat>, index: map<nat, seq<Entry>>, issued: nat, hi: nat, r: nat)
    requires IdsOk(ids, key, index, issued) && hi !in ids && r == issued + 1
    ensures IdsOk(ids[hi := r], key[r := hi], index[r := seq(BOTTOM_SZ, _ => Nil)], r)
  {
  }

  // The two parts about links are folded: the definition of one becomes available to the
  // verifier only where its key is mentioned.

  ghost predicate OrderKey(k: nat, order: seq<nat>, first: nat, last: nat, asc: map<nat, nat>, desc: map<nat, nat>,
                           key: map<nat, nat>) {
    true
  }

  ghost predicate OrderPart(order: seq<nat>, first: nat, last: nat, asc: map<nat, nat>, desc: map<nat, nat>,
                            key: map<nat, nat>) {
    forall k: nat {:trigger OrderKey(k, order, first, last, asc, desc, key)} ::
      OrderKey(k, order, first, last, asc, desc, key) ==> OrderOk(order, first, last, asc, desc, key)
  }

  lemma OrderFacts(order: seq<nat>, first: nat, last: nat, asc: map<nat, nat>, desc: map<nat, nat>, key: map<nat, nat>)
    requires OrderPart(order, first, last, asc, desc, key)
    ensures OrderOk(order, first, last, asc, desc, key)
  {
    assert OrderKey(0, order, first, last, asc, desc, key);
  }

  ghost predicate ChainsKey(k: nat, chains: seq<seq<nat>>, top: seq<nat>, link: map<nat, nat>, key: map<nat, nat>) {
    true
  }

  ghost predicate ChainsPart(chains: seq<seq<nat>>, top: seq<nat>, link: map<nat, nat>, key: map<nat, nat>) {
    forall k: nat {:trigger ChainsKey(k, chains, top, link, key)} ::
      ChainsKey(k, chains, top, link, key) ==> ChainsOk(chains, top, link, key)
  }

  lemma ChainsFacts(chains: seq<seq<nat>>, top: seq<nat>, link: map<nat, nat>, key: map<nat, nat>)
    requires ChainsPart(chains, top, link, key)
    ensures ChainsOk(chains, top, link, key)
  {
    assert ChainsKey(0, chains, top, link, key);
  }

  /** The place of key `hi` in the ordered list: between `pi` and `p`. */
  method FindPlace(first: nat, asc: map<nat, nat>, key: map<nat, nat>, hi: nat, ghost order: seq<nat>,
                   ghost desc: map<nat, nat>)
    returns (pi: nat, p: nat, ghost k: nat)
    requires Linked(order, desc, asc) && first == Front(order) && Sorted(order, key)
    ensures k <= |order| && p == (if k == |order| then 0 else order[k]) && pi == (if k == 0 then 0 else order[k - 1])
    ensures forall i :: 0 <= i < k ==> key[order[i]] < hi
    ensures k < |order| ==> hi <= key[order[k]]
  {
    p, pi, k := first, 0, 0;
    while p != 0 && key[p] < hi
      invariant k <= |order| && p == (if k == |order| then 0 else order[k]) &&
        pi == (if k == 0 then 0 else order[k - 1])
      invariant forall i :: 0 <= i < k ==> key[order[i]] < hi
      decreases |order| - k
    {
      LinkedAt(order, desc, asc, k);
      pi, p := p, asc[p];
      k := k + 1;
    }
  }

  lemma SplicedPart(order: seq<nat>, first: nat, last: nat, asc: map<nat, nat>, desc: map<nat, nat>, key: map<nat, nat>,
                    k: nat, r: nat, hi: nat, p: nat, q: nat)
    requires OrderPart(order, first, last, asc, desc, key) && k <= |order| && r !in key && r != 0
    requires forall i :: 0 <= i < k ==> order[i] in key && key[order[i]] < hi
    requires k < |order| ==> order[k] in key && hi < key[order[k]]
    requires p == (if k == 0 then 0 else order[k - 1]) && q == (if k == |order| then 0 else order[k])
    ensures OrderPart(Spliced(order, k, r), if p == 0 then r else first, if q == 0 then r else last,
                      Unlink(asc[r := q], p, r), Unlink(desc[r := p], q, r), key[r := hi])
  {
    OrderFacts(order, first, last, asc, desc, key);
    OrderSplice(order, first, last, asc, desc, key, k, r, hi);
  }

  lemma ChainsConsPart(chains: seq<seq<nat>>, top: seq<nat>, link: map<nat, nat>, key: map<nat, nat>, r: nat, hi: nat)
    requires ChainsPart(chains, top, link, key) && r !in key && r != 0
    ensures |chains| == |top| == TOP_SZ
    ensures var i := Slot(hi);
      ChainsPart(chains[i := [r] + chains[i]], top[i := r], link[r := top[i]], key[r := hi])
  {
    ChainsFacts(chains, top, link, key);
    ChainsCons(chains, top, link, key, r, hi);
  }

  class Index {
    var key: map<nat, nat>
    var index: map<nat, seq<Entry>>
    var asc: map<nat, nat>
    var desc: map<nat, nat>
    var link: map<nat, nat>
    var top: seq<nat>
    var first: nat
    var last: nat
    var issued: nat
    ghost var order: seq<nat>
    ghost var chains: seq<seq<nat>>
    ghost var ids: map<nat, nat>

    ghost predicate Valid()
      reads this
    {
      && OrderPart(order, first, last, asc, desc, key)
      && ChainsPart(chains, top, link, key)
      && IdsOk(ids, key, index, issued)
    }

    constructor ()
      ensures Valid() && forall u: nat :: At(u) == Nil
    {
      key, index, asc, desc, link := map[], map[], map[], map[], map[];
      top := seq(TOP_SZ, _ => 0);
      first, last, issued := 0, 0, 0;
      order, chains, ids := [], seq(TOP_SZ, _ => []), map[];
    }

    /** The index as a flat table. */
    ghost function At(u: nat): Entry
      requires Valid()
      reads this
    {
      if Hi(u) in ids then index[ids[Hi(u)]][Lo(u)] else Nil
    }

    /** The bottom index of unit block `u`, or 0 for the one without entries. */
    method GetBi(u: nat) returns (bi: nat)
      requires Valid()
      ensures bi == if Hi(u) in ids then ids[Hi(u)] else 0
    {
      var hi := Hi(u);
      ChainsFacts(chains, top, link, key);
      OnChain(chains, top, link, key, ids, index, issued, hi);
      bi := WalkChain(hi, top[Slot(hi)], link, key, chains[Slot(hi)]);
    }

    /** The new bottom index `r`, with key `hi`, goes where it belongs in the ordered list. */
    method LinkInOrder(r: nat, hi: nat)
      requires OrderPart(order, first, last, asc, desc, key) && r !in key && r != 0 &&
        forall id :: id in key ==> key[id] != hi
      modifies `order, `first, `last, `asc, `desc, `key
      ensures OrderPart(order, first, last, asc, desc, key) && key == old(key)[r := hi]
    {
      OrderFacts(order, first, last, asc, desc, key);
      var pi, p;
      ghost var k;
      pi, p, k := FindPlace(first, asc, key, hi, order, desc);
      SplicedPart(order, first, last, asc, desc, key, k, r, hi, pi, p);
      desc := desc[r := pi];
      if p == 0 {
        last := r;
      } else {
        desc := desc[p := r];
      }
      asc := asc[r := p];
      if pi == 0 {
        first := r;
      } else {
        asc := asc[pi := r];
      }
      key := key[r := hi];
      order := Spliced(order, k, r);
    }

    /** A new bottom index, without entries, for key `hi`. */
    method AddBottomIndex(hi: nat) returns (r: nat)
      requires Valid() && hi !in ids
      modifies this
      ensures Valid() && r !in old(index) && ids == old(ids)[hi := r] &&
        index == old(index)[r := seq(BOTTOM_SZ, _ => Nil)]
    {
      r := issued + 1;
      issued := r;
      ChainsConsPart(chains, top, link, key, r, hi);
      NewIndex(ids, key, index, old(issued), hi, r);
      LinkInOrder(r, hi);
      link := link[r := top[Slot(hi)]];
      top := top[Slot(hi) := r];
      chains := chains[Slot(hi) := [r] + chains[Slot(hi)]];
      index := index[r := seq(BOTTOM_SZ, _ => Nil)];
      ids := ids[hi := r];
    }

    /** Make sure that there is a bottom index for unit block `u`. */
    method GetIndex(u: nat)
      requires Valid()
      modifies this
      ensures Valid() && Hi(u) in ids && old(ids.Keys) <= ids.Keys
      ensures forall v: nat :: At(v) == old(At(v))
    {
      var bi := GetBi(u);
      if bi == 0 {
        var r := AddBottomIndex(Hi(u));
      }
    }

    /** Writing nothing where there is no bottom index is harmless. */
    method SetHdr(u: nat, e: Entry)
      requires Valid() && (Hi(u) in ids || e == Nil)
      modifies `index
      ensures Valid()
      ensures forall v: nat :: At(v) == if v == u then e else old(At(v))
    {
      var bi := GetBi(u);
      if bi != 0 {
        index := index[bi := index[bi][Lo(u) := e]];
      }
      forall v ensures At(v) == if v == u then e else old(At(v)) {
        AddrParts(u);
        AddrParts(v);
      }
    }

    method InstallHeader(u: nat, h: Hdr)
      requires Valid()
      modifies this
      ensures Valid() && Hi(u) in ids && forall v: nat :: At(v) == if v == u then Header(h) else old(At(v))
    {
      GetIndex(u);
      SetHdr(u, Header(h));
    }

    method RemoveHeader(u: nat)
      requires Valid()
      modifies `index
      ensures Valid() && forall v: nat :: At(v) == if v == u then Nil else old(At(v))
    {
      SetHdr(u, Nil);
    }

    /** Bottom indices for all of `[b, b + n)`. */
    method CoverRange(b: nat, n: nat)
      requires Valid() && 0 < n
      modifies this
      ensures Valid() && forall v: nat :: At(v) == old(At(v))
      ensures Covers(ids, b, n)
    {
      var u := b;
      while u < b + n
        invariant b <= u && Valid() && forall v: nat :: At(v) == old(At(v))
        invariant KeysUpTo(ids, Hi(b), Hi(u))
        decreases b + n - u
      {
        GetIndex(u);
        NextKey(u);
        u := u + BOTTOM_SZ;
      }
      GetIndex(b + n - 1);
      LastKey(ids, b, n, u);
    }

    /** Forwarding counts for the interior of a block. */
    method InstallCounts(b: nat, n: nat)
      requires Valid() && 0 < n
      modifies this
      ensures Valid()
      ensures forall v: nat :: At(v) == if b < v < b + n then Jump(Forward(v - b)) else old(At(v))
    {
      CoverRange(b, n);
      var u := b + 1;
      while u < b + n
        invariant b < u <= b + n && Valid()
        invariant Covers(ids, b, n)
        invariant forall v: nat :: At(v) == if b < v < u then Jump(Forward(v - b)) else old(At(v))
      {
        SetHdr(u, Jump(if u - b > MAX_JUMP then MAX_JUMP else u - b));
        u := u + 1;
      }
    }

    method RemoveCounts(b: nat, n: nat)
      requires Valid() && 0 < n
      modifies `index
      ensures Valid()
      ensures forall v: nat :: At(v) == if b < v < b + n then Nil else old(At(v))
    {
      var u := b + 1;
      while u < b + n
        invariant b < u <= b + n && Valid()
        invariant forall v: nat :: At(v) == if b < v < u then Nil else old(At(v))
      {
        SetHdr(u, Nil);
        u := u + 1;
      }
    }

    method HdrAt(u: nat) returns (e: Entry)
      requires Valid()
      ensures e == At(u)
    {
      var bi := GetBi(u);
      e := if bi == 0 then Nil else index[bi][Lo(u)];
    }
  }
}
