/** The hash table of disappearing links: chained, doubled when it gets full. */
module LinkTable {
  import opened Chains
  import opened FreeLists

  function Pow2(n: nat): (p: nat)
    ensures p > 0
  {
    if n == 0 then 1 else 2 * Pow2(n - 1)
  }

  function Xor(a: nat, b: nat): nat {
    if a == 0 && b == 0 then 0 else 2 * Xor(a / 2, b / 2) + (if a % 2 == b % 2 then 0 else 1)
  }

  function Shifted(x: nat, p: nat): nat
    requires p > 0
  {
    x / p
  }

  function Masked(x: nat, p: nat): (i: nat)
    requires p > 0
    ensures i < p
  {
    x % p
  }

  /** The bucket of a key. */
  function Slot(k: nat, log: nat): (i: nat)
    ensures i < Pow2(log)
  {
    Masked(Xor(k / 8, Shifted(k / 8, Pow2(log))), Pow2(log))
  }

  function SizeOf(log: int): nat
    requires log >= -1
  {
    if log == -1 then 0 else Pow2(log)
  }

  /** A member of a bucket has a key that belongs there and is registered for it. */
  ghost predicate MemberOk(key: map<nat, nat>, ids: map<nat, nat>, log: int, i: nat, id: nat) {
    id in key && key[id] in ids && ids[key[id]] == id && log >= 0 && Slot(key[id], log) == i
  }

  ghost predicate BucketOk(chain: seq<nat>, head: nat, next: map<nat, nat>, key: map<nat, nat>, ids: map<nat, nat>,
                           log: int, i: nat) {
    Chain(chain, head, next) && Distinct(chain) && forall id :: id in chain ==> MemberOk(key, ids, log, i, id)
  }

  /** A registered key is in its bucket. */
  ghost predicate Registered(chains: seq<seq<nat>>, key: map<nat, nat>, ids: map<nat, nat>, log: int, k: nat) {
    k in ids && ids[k] in key && key[ids[k]] == k && log >= 0 && Slot(k, log) < |chains| &&
      ids[k] in chains[Slot(k, log)]
  }

  /** `ids` maps each registered key to its entry. */
  ghost predicate TableOk(chains: seq<seq<nat>>, head: seq<nat>, next: map<nat, nat>, key: map<nat, nat>,
                          ids: map<nat, nat>, log: int) {
    && log >= -1 && |chains| == |head| == SizeOf(log)
    && (forall i :: 0 <= i < |head| ==> BucketOk(chains[i], head[i], next, key, ids, log, i))
    && (forall k :: k in ids ==> Registered(chains, key, ids, log, k))
  }

  // ------------------------------------------------------------ removing an entry

  lemma BucketWithout(chains: seq<seq<nat>>, head: seq<nat>, next: map<nat, nat>, key: map<nat, nat>, ids: map<nat,
                      nat>, log: int, i: nat, k: nat)
    requires i < |head| == |chains| && k < |chains[i]| && BucketOk(chains[i], head[i], next, key, ids, log, i)
    ensures chains[i][k] in key
    ensures var chain := chains[i];
      var n := next[chain[k]];
      var ids' := ids - {key[chain[k]]};
      if k == 0 then BucketOk(Without(chain, k), n, next, key, ids', log, i)
      else BucketOk(Without(chain, k), head[i], next[chain[k - 1] := n], key, ids', log, i)
  {
    var chain := chains[i];
    ChainWithout(chain, head[i], next, k);
    DistinctWithout(chain, k);
    WithoutMembers(chain, k);
    assert MemberOk(key, ids, log, i, chain[k]);
    forall id | id in Without(chain, k) ensures MemberOk(key, ids - {key[chain[k]]}, log, i, id) {
      assert MemberOk(key, ids, log, i, id);
    }
  }

  /** Another bucket: a link of a non-member and the registration of a non-member do not matter. */
  lemma BucketKept(chain: seq<nat>, head: nat, next: map<nat, nat>, key: map<nat, nat>, ids: map<nat, nat>, log: int,
                   i: nat,
                   next': map<nat, nat>, key': map<nat, nat>, ids': map<nat, nat>)
    requires BucketOk(chain, head, next, key, ids, log, i)
    requires forall id :: id in chain ==> id in next' && id in next && next'[id] == next[id]
    requires forall id :: id in chain ==> MemberOk(key', ids', log, i, id)
    ensures BucketOk(chain, head, next', key', ids', log, i)
  {
    forall j | 0 <= j < |chain| ensures chain[j] in next' && next'[chain[j]] == After(chain, j) {
      assert chain[j] in chain && next[chain[j]] == After(chain, j);
    }
  }

  function HeadWithout(head: seq<nat>, i: nat, k: nat, n: nat): seq<nat>
    requires i < |head|
  {
    if k == 0 then head[i := n] else head
  }

  function NextWithout(next: map<nat, nat>, chain: seq<nat>, k: nat, n: nat): map<nat, nat>
    requires k < |chain|
  {
    if k == 0 then next else next[chain[k - 1] := n]
  }

  lemma OtherBucket(chains: seq<seq<nat>>, head: seq<nat>, next: map<nat, nat>, key: map<nat, nat>, ids: map<nat,
                    nat>, log: int, i: nat, k: nat, j: nat)
    requires i < |head| == |chains| && k < |chains[i]| && j < |head| && i != j
    requires BucketOk(chains[i], head[i], next, key, ids, log, i) &&
      BucketOk(chains[j], head[j], next, key, ids, log, j)
    ensures chains[i][k] in key
    ensures var chain := chains[i];
      BucketOk(chains[j], head[j], NextWithout(next, chain, k, next[chain[k]]), key, ids - {key[chain[k]]}, log, j)
  {
    var chain := chains[i];
    assert MemberOk(key, ids, log, i, chain[k]);
    if k > 0 {
      assert MemberOk(key, ids, log, i, chain[k - 1]);
    }
    var next' := NextWithout(next, chain, k, next[chain[k]]);
    forall id | id in chains[j]
      ensures id in next' && id in next && next'[id] == next[id] && MemberOk(key, ids - {key[chain[k]]}, log, j, id)
    {
      assert MemberOk(key, ids, log, j, id);
      var m := Position(chains[j], id);
    }
    BucketKept(chains[j], head[j], next, key, ids, log, j, next', key, ids - {key[chain[k]]});
  }

  lemma RegisteredWithout(chains: seq<seq<nat>>, head: nat, next: map<nat, nat>, key: map<nat, nat>, ids: map<nat,
                          nat>, log: int, i: nat, m: nat, k: nat)
    requires i < |chains| && m < |chains[i]| && BucketOk(chains[i], head, next, key, ids, log, i)
    requires Registered(chains, key, ids, log, k) && chains[i][m] in key && k != key[chains[i][m]]
    ensures Registered(chains[i := Without(chains[i], m)], key, ids - {key[chains[i][m]]}, log, k)
  {
    WithoutMembers(chains[i], m);
  }

  /** The k-th entry of bucket `i` is taken out. */
  lemma TableWithout(chains: seq<seq<nat>>, head: seq<nat>, next: map<nat, nat>, key: map<nat, nat>, ids: map<nat,
                     nat>, log: int, i: nat, k: nat)
    requires TableOk(chains, head, next, key, ids, log) && i < |head| && k < |chains[i]|
    ensures chains[i][k] in next && MemberOk(key, ids, log, i, chains[i][k])
    ensures var chain := chains[i];
      var n := next[chain[k]];
      TableOk(chains[i := Without(chain, k)], HeadWithout(head, i, k, n), NextWithout(next, chain, k, n), key,
        ids - {key[chain[k]]}, log)
  {
    var chain := chains[i];
    assert BucketOk(chain, head[i], next, key, ids, log, i);
    assert MemberOk(key, ids, log, i, chain[k]);
    var n := next[chain[k]];
    var chains', head' := chains[i := Without(chain, k)], HeadWithout(head, i, k, n);
    var next', ids' := NextWithout(next, chain, k, n), ids - {key[chain[k]]};
    BucketWithout(chains, head, next, key, ids, log, i, k);
    forall j | 0 <= j < |head'| ensures BucketOk(chains'[j], head'[j], next', key, ids', log, j) {
      if j != i {
        OtherBucket(chains, head, next, key, ids, log, i, k, j);
      }
    }
    forall c | c in ids' ensures Registered(chains', key, ids', log, c) {
      RegisteredWithout(chains, head[i], next, key, ids, log, i, k, c);
    }
  }

  // -------------------------------------------------------------- adding an entry

  ghost predicate InNoBucket(chains: seq<seq<nat>>, id: nat) {
    forall i :: 0 <= i < |chains| ==> id !in chains[i]
  }

  /** Entry `id` is in no bucket: its link and key do not matter. */
  lemma TableFrame(chains: seq<seq<nat>>, head: seq<nat>, next: map<nat, nat>, key: map<nat, nat>, ids: map<nat,
                   nat>, log: int, id: nat, n: nat, k: nat)
    requires TableOk(chains, head, next, key, ids, log) && InNoBucket(chains, id)
    ensures TableOk(chains, head, next[id := n], key[id := k], ids, log)
  {
    var next', key' := next[id := n], key[id := k];
    forall i | 0 <= i < |head| ensures BucketOk(chains[i], head[i], next', key', ids, log, i) {
      assert BucketOk(chains[i], head[i], next, key, ids, log, i);
      forall c | c in chains[i]
        ensures c in next' && c in next && next'[c] == next[c] && MemberOk(key', ids, log, i, c)
      {
        assert MemberOk(key, ids, log, i, c);
        var m := Position(chains[i], c);
      }
      BucketKept(chains[i], head[i], next, key, ids, log, i, next', key', ids);
    }
    forall c | c in ids ensures Registered(chains, key', ids, log, c) {
      assert Registered(chains, key, ids, log, c);
    }
  }

  lemma BucketPush(chain: seq<nat>, head: nat, next: map<nat, nat>, key: map<nat, nat>, ids: map<nat, nat>, log: nat,
                   i: nat, id: nat, k: nat)
    requires BucketOk(chain, head, next, key, ids, log, i) && id !in chain && id != 0 && k !in ids
    requires id in key && key[id] == k && Slot(k, log) == i
    ensures BucketOk([id] + chain, id, next[id := head], key, ids[k := id], log, i)
  {
    ChainCons(chain, head, next, id);
    DistinctCons(chain, id);
    forall c | c in [id] + chain ensures MemberOk(key, ids[k := id], log, i, c) {
      assert c == id || MemberOk(key, ids, log, i, c);
    }
  }

  lemma OtherBucketPush(chain: seq<nat>, head: nat, next: map<nat, nat>, key: map<nat, nat>, ids: map<nat, nat>,
                        log: nat, i: nat, id: nat, n: nat, k: nat)
    requires BucketOk(chain, head, next, key, ids, log, i) && id !in chain && k !in ids
    ensures BucketOk(chain, head, next[id := n], key, ids[k := id], log, i)
  {
    var next' := next[id := n];
    forall c | c in chain
      ensures c in next' && c in next && next'[c] == next[c] && MemberOk(key, ids[k := id], log, i, c)
    {
      assert MemberOk(key, ids, log, i, c);
      var m := Position(chain, c);
    }
    BucketKept(chain, head, next, key, ids, log, i, next', key, ids[k := id]);
  }

  /** Entry `id`, with key `k`, is put in front of its bucket. */
  lemma TablePush(chains: seq<seq<nat>>, head: seq<nat>, next: map<nat, nat>, key: map<nat, nat>, ids: map<nat, nat>,
                  log: nat, id: nat, k: nat)
    requires TableOk(chains, head, next, key, ids, log) && InNoBucket(chains, id) && id != 0 && k !in ids &&
      id in key && key[id] == k
    ensures Slot(k, log) < |head| == |chains|
    ensures var i := Slot(k, log);
      TableOk(chains[i := [id] + chains[i]], head[i := id], next[id := head[i]], key, ids[k := id], log)
  {
    var i := Slot(k, log);
    var chains', head', next', ids' := chains[i := [id] + chains[i]], head[i := id], next[id := head[i]], ids[k := id];
    forall j | 0 <= j < |head'| ensures BucketOk(chains'[j], head'[j], next', key, ids', log, j) {
      assert BucketOk(chains[j], head[j], next, key, ids, log, j);
      if j == i {
        BucketPush(chains[i], head[i], next, key, ids, log, i, id, k);
      } else {
        OtherBucketPush(chains[j], head[j], next, key, ids, log, j, id, head[i], k);
      }
    }
    forall c | c in ids' ensures Registered(chains', key, ids', log, c) {
      if c == k {
        assert chains'[i][0] == id;
      } else {
        assert Registered(chains, key, ids, log, c);
      }
    }
  }

  // ------------------------------------------------------------------- the table

  ghost predicate TableKey(n: nat, chains: seq<seq<nat>>, head: seq<nat>, next: map<nat, nat>, key: map<nat, nat>,
                           ids: map<nat, nat>, log: int) {
    true
  }

  /** `TableOk`, folded: its definition becomes available to the verifier only where its key is mentioned. */
  ghost predicate TablePart(chains: seq<seq<nat>>, head: seq<nat>, next: map<nat, nat>, key: map<nat, nat>,
                            ids: map<nat, nat>, log: int) {
    forall n: nat {:trigger TableKey(n, chains, head, next, key, ids, log)} ::
      TableKey(n, chains, head, next, key, ids, log) ==> TableOk(chains, head, next, key, ids, log)
  }

  lemma TableFacts(chains: seq<seq<nat>>, head: seq<nat>, next: map<nat, nat>, key: map<nat, nat>, ids: map<nat, nat>,
                   log: int)
    requires TablePart(chains, head, next, key, ids, log)
    ensures TableOk(chains, head, next, key, ids, log)
  {
    assert TableKey(0, chains, head, next, key, ids, log);
  }

  /** The bucket of key `k` is a chain of entries, one of which has the key if it is registered. */
  lemma BucketFacts(chains: seq<seq<nat>>, head: seq<nat>, next: map<nat, nat>, key: map<nat, nat>, ids: map<nat, nat>,
                    log: nat, k: nat)
    requires TablePart(chains, head, next, key, ids, log)
    ensures Slot(k, log) < |head| == |chains|
    ensures var chain := chains[Slot(k, log)];
      && Chain(chain, head[Slot(k, log)], next) && Distinct(chain)
      && (forall j :: 0 <= j < |chain| ==> chain[j] in key && (key[chain[j]] == k ==> k in ids && ids[k] == chain[j]))
      && (k in ids ==> exists j :: 0 <= j < |chain| && chain[j] in key && key[chain[j]] == k)
  {
    TableFacts(chains, head, next, key, ids, log);
    var i := Slot(k, log);
    var chain := chains[i];
    assert BucketOk(chain, head[i], next, key, ids, log, i);
    forall j | 0 <= j < |chain| ensures chain[j] in key && (key[chain[j]] == k ==> k in ids && ids[k] == chain[j]) {
      assert MemberOk(key, ids, log, i, chain[j]);
    }
    if k in ids {
      assert Registered(chains, key, ids, log, k);
      var j := Position(chain, ids[k]);
      assert chain[j] in key && key[chain[j]] == k;
    }
  }

  lemma InOneBucket(chains: seq<seq<nat>>, head: seq<nat>, next: map<nat, nat>, key: map<nat, nat>, ids: map<nat,
                    nat>, log: int, i: nat, j: nat, id: nat)
    requires TableOk(chains, head, next, key, ids, log) && i < |chains| && j < |chains| && i != j && id in chains[i]
    ensures id !in chains[j]
  {
    assert BucketOk(chains[i], head[i], next, key, ids, log, i);
    assert BucketOk(chains[j], head[j], next, key, ids, log, j);
    assert MemberOk(key, ids, log, i, id);
    if id in chains[j] {
      assert false;
    }
  }

  lemma PartWithout(chains: seq<seq<nat>>, head: seq<nat>, next: map<nat, nat>, key: map<nat, nat>, ids: map<nat,
                    nat>, log: int, i: nat, k: nat)
    requires TablePart(chains, head, next, key, ids, log) && i < |head| && i < |chains| && k < |chains[i]|
    ensures chains[i][k] in next && MemberOk(key, ids, log, i, chains[i][k])
    ensures var chain := chains[i];
      var n := next[chain[k]];
      && TablePart(chains[i := Without(chain, k)], HeadWithout(head, i, k, n), NextWithout(next, chain, k, n), key,
                   ids - {key[chain[k]]}, log)
      && InNoBucket(chains[i := Without(chain, k)], chain[k])
  {
    TableFacts(chains, head, next, key, ids, log);
    TableWithout(chains, head, next, key, ids, log, i, k);
    var chain := chains[i];
    assert BucketOk(chain, head[i], next, key, ids, log, i);
    WithoutMembers(chain, k);
    var chains' := chains[i := Without(chain, k)];
    forall j | 0 <= j < |chains'| ensures chain[k] !in chains'[j] {
      if j != i {
        InOneBucket(chains, head, next, key, ids, log, i, j, chain[k]);
      }
    }
  }

  lemma PartFrame(chains: seq<seq<nat>>, head: seq<nat>, next: map<nat, nat>, key: map<nat, nat>, ids: map<nat, nat>,
                  log: int, id: nat, n: nat, k: nat)
    requires TablePart(chains, head, next, key, ids, log) && InNoBucket(chains, id)
    ensures TablePart(chains, head, next[id := n], key[id := k], ids, log)
  {
    TableFacts(chains, head, next, key, ids, log);
    TableFrame(chains, head, next, key, ids, log, id, n, k);
  }

  /** Entry `id` gets key `k` and is put in front of the bucket of that key. */
  lemma PartPush(chains: seq<seq<nat>>, head: seq<nat>, next: map<nat, nat>, key: map<nat, nat>, ids: map<nat, nat>,
                 log: nat, id: nat, k: nat)
    requires TablePart(chains, head, next, key, ids, log) && InNoBucket(chains, id) && id != 0 && k !in ids
    ensures Slot(k, log) < |head| == |chains|
    ensures var i := Slot(k, log);
      TablePart(chains[i := [id] + chains[i]], head[i := id], next[id := head[i]], key[id := k], ids[k := id], log)
  {
    TableFacts(chains, head, next, key, ids, log);
    TableFrame(chains, head, next, key, ids, log, id, 0, k);
    var key' := key[id := k];
    TablePush(chains, head, next[id := 0], key', ids, log, id, k);
    var i := Slot(k, log);
    assert next[id := 0][id := head[i]] == next[id := head[i]];
  }

  /** An entry whose key is not registered for it is in no bucket. */
  lemma NotRegistered(chains: seq<seq<nat>>, head: seq<nat>, next: map<nat, nat>, key: map<nat, nat>,
                      ids: map<nat, nat>, log: int, id: nat)
    requires TablePart(chains, head, next, key, ids, log) && (id in key ==> key[id] !in ids || ids[key[id]] != id)
    ensures InNoBucket(chains, id)
  {
    TableFacts(chains, head, next, key, ids, log);
    forall i | 0 <= i < |chains| ensures id !in chains[i] {
      assert BucketOk(chains[i], head[i], next, key, ids, log, i);
      assert id in chains[i] ==> MemberOk(key, ids, log, i, id);
    }
  }

  /** The member with key `k` and its predecessor, both 0 for none; `j` is its position. */
  method FindEntry(k: nat, head: nat, next: map<nat, nat>, key: map<nat, nat>, ghost chain: seq<nat>)
    returns (curr: nat, prev: nat, ghost j: nat)
    requires Chain(chain, head, next) && forall i :: 0 <= i < |chain| ==> chain[i] in key
    ensures j <= |chain| && curr == (if j == |chain| then 0 else chain[j]) &&
      prev == (if j == 0 then 0 else chain[j - 1])
    ensures curr != 0 ==> key[curr] == k
    ensures curr == 0 ==> j == |chain| && forall i :: 0 <= i < |chain| ==> key[chain[i]] != k
  {
    curr, prev, j := head, 0, 0;
    while curr != 0 && key[curr] != k
      invariant j <= |chain| && curr == (if j == |chain| then 0 else chain[j]) &&
        prev == (if j == 0 then 0 else chain[j - 1])
      invariant forall i :: 0 <= i < j ==> key[chain[i]] != k
      decreases |chain| - j
    {
      assert next[curr] == After(chain, j);
      prev, curr, j := curr, next[curr], j + 1;
    }
  }

  ghost function Pairs(ids: map<nat, nat>, obj: map<nat, nat>): map<nat, nat> {
    map k | k in ids && ids[k] in obj :: obj[ids[k]]
  }

  ghost predicate Injective(ids: map<nat, nat>) {
    forall a, b :: a in ids && b in ids && ids[a] == ids[b] ==> a == b
  }

  lemma PairsUpdate(ids: map<nat, nat>, obj: map<nat, nat>, k: nat, o: nat)
    requires k in ids && ids[k] in obj && Injective(ids)
    ensures Pairs(ids, obj[ids[k] := o]) == Pairs(ids, obj)[k := o]
  {
  }

  lemma PairsNew(ids: map<nat, nat>, obj: map<nat, nat>, k: nat, id: nat, o: nat)
    requires k !in ids && forall a :: a in ids ==> ids[a] in obj && ids[a] != id
    ensures Pairs(ids[k := id], obj[id := o]) == Pairs(ids, obj)[k := o]
    ensures ids[k := id].Keys == ids.Keys + {k}
  {
  }

  lemma PairsMove(ids: map<nat, nat>, obj: map<nat, nat>, k: nat, k': nat)
    requires k in ids && k' !in ids && ids[k] in obj
    ensures Pairs((ids - {k})[k' := ids[k]], obj) == (Pairs(ids, obj) - {k})[k' := obj[ids[k]]]
    ensures (ids - {k})[k' := ids[k]].Keys == ids.Keys - {k} + {k'}
  {
  }

  /** Which entries to keep: those of certain objects, or all but those of certain links. */
  datatype Test = OfObjects(objs: set<nat>) | NotOfLinks(links: set<nat>)

  predicate Keeps(t: Test, k: nat, o: nat) {
    match t
    case OfObjects(objs) => o in objs
    case NotOfLinks(links) => k !in links
  }

  datatype Status = Success | Duplicate | NotFound | NoMemory | NoTable

  class Table {
    var head: seq<nat>
    var next: map<nat, nat>
    var key: map<nat, nat>
    var obj: map<nat, nat>
    var log: int
    var entries: nat
    var issued: nat
    ghost var chains: seq<seq<nat>>
    ghost var ids: map<nat, nat>

    ghost predicate Valid()
      reads this
    {
      && TablePart(chains, head, next, key, ids, log) && log >= -1
      && entries == |ids.Keys|
      && (forall k :: k in ids ==> ids[k] in obj)
      && (forall id :: id in key ==> id <= issued)
    }

    /** The registered links with their objects. */
    ghost function Contents(): map<nat, nat>
      requires Valid()
      reads this
    {
      Pairs(ids, obj)
    }

    constructor ()
      ensures Valid() && Contents() == map[]
    {
      head, next, key, obj, log, entries, issued := [], map[], map[], map[], -1, 0, 0;
      chains, ids := [], map[];
    }

    method Find(k: nat) returns (curr: nat, prev: nat, ghost j: nat)
      requires Valid() && log >= 0
      ensures Slot(k, log) < |head| == |chains| && j <= |chains[Slot(k, log)]|
      ensures curr == (if j == |chains[Slot(k, log)]| then 0 else chains[Slot(k, log)][j])
      ensures prev == (if j == 0 then 0 else chains[Slot(k, log)][j - 1])
      ensures curr != 0 <==> k in ids
      ensures curr != 0 ==> curr == ids[k] && curr in key && key[curr] == k && j < |chains[Slot(k, log)]|
    {
      BucketFacts(chains, head, next, key, ids, log, k);
      var i := Slot(k, log);
      curr, prev, j := FindEntry(k, head[i], next, key, chains[i]);
    }

    /** Take entry `curr`, which follows `prev`, out of bucket `i`. */
    method Unchain(i: nat, prev: nat, curr: nat, ghost j: nat)
      requires Valid() && i < |head| && i < |chains| && j < |chains[i]| && curr == chains[i][j]
      requires prev == if j == 0 then 0 else chains[i][j - 1]
      modifies `head, `next, `chains, `ids
      ensures TablePart(chains, head, next, key, ids, log) && InNoBucket(chains, curr)
      ensures curr in key && key[curr] in old(ids) && old(ids)[key[curr]] == curr && ids == old(ids) - {key[curr]}
      ensures chains == old(chains)[i := Without(old(chains)[i], j)] && |head| == old(|head|)
      ensures curr in next && curr in old(next) && next[curr] == old(next)[curr]
    {
      PartWithout(chains, head, next, key, ids, log, i, j);
      NoZero(chains, head, next, key, ids, log, i, j);
      if prev == 0 {
        head := head[i := next[curr]];
      } else {
        next := next[prev := next[curr]];
      }
      ids := ids - {key[curr]};
      chains := chains[i := Without(chains[i], j)];
    }

    /** Double the table, or make the first one. */
    method Grow()
      requires Valid()
      modifies `head, `next, `log, `chains
      ensures Valid() && log == old(log) + 1 && Contents() == old(Contents())
    {
      var newLog := log + 1;
      var table;
      ghost var buckets;
      table, buckets := Rehash(newLog);
      log, head, chains := newLog, table, buckets;
    }

    /** Move all entries to a new table. */
    method Rehash(newLog: nat) returns (table: seq<nat>, ghost buckets: seq<seq<nat>>)
      requires TablePart(chains, head, next, key, ids, log) && newLog == log + 1
      modifies `next
      ensures TablePart(buckets, table, next, key, ids, newLog)
    {
      TableSize(chains, head, next, key, ids, log);
      var size := SizeOf(log);
      table := seq(Pow2(log + 1), _ => 0);
      ghost var g := Halves(chains, head, ids, seq(Pow2(log + 1), _ => []), map[]);
      EmptyTable(next, key, log + 1);
      var i := 0;
      while i < size
        invariant i <= size == |head| == |g.heads| && Moving(g, table, next, key, ids, log)
        invariant forall j :: 0 <= j < i ==> g.lists[j] == []
        invariant forall j :: i <= j < size ==> g.heads[j] == head[j]
      {
        table, g := MoveBucket(table, i, g);
        i := i + 1;
      }
      AllMoved(g, table, next, key, ids, log, newLog);
      buckets := g.buckets;
    }

    /** Move the entries of bucket `i` to the new table. */
    method MoveBucket(table: seq<nat>, i: nat, ghost g: Halves) returns (table': seq<nat>, ghost g': Halves)
      requires i < |head| && Moving(g, table, next, key, ids, log) && |g.heads| == |head| && g.heads[i] == head[i]
      modifies `next
      ensures Moving(g', table', next, key, ids, log) && |g'.heads| == |g.heads| && g'.lists[i] == []
      ensures forall j :: 0 <= j < |g.heads| && j != i ==> g'.heads[j] == g.heads[j] && g'.lists[j] == g.lists[j]
    {
      table', g' := table, g;
      var p := head[i];
      while p != 0
        invariant Moving(g', table', next, key, ids, log) && |g'.heads| == |g.heads| && g'.heads[i] == p
        invariant forall j :: 0 <= j < |g.heads| && j != i ==> g'.heads[j] == g.heads[j] && g'.lists[j] == g.lists[j]
        decreases |g'.lists[i]|
      {
        MoveStep(g', table', next, key, ids, log, i);
        var after := next[p];
        var h := Slot(key[p], log + 1);
        g' := MovedOne(g', i, p, after, key[p], h);
        next := next[p := table'[h]];
        table' := table'[h := p];
        p := after;
      }
      HeadOfList(g'.lists, g'.heads, next, key, g'.rest, log, i);
    }

    /** Put entry `id`, in no bucket, in front of the bucket of key `k`. */
    method Enchain(id: nat, k: nat)
      requires TablePart(chains, head, next, key, ids, log) && log >= 0 && InNoBucket(chains, id) && id != 0 &&
        k !in ids
      modifies `head, `next, `key, `chains, `ids
      ensures TablePart(chains, head, next, key, ids, log)
      ensures ids == old(ids)[k := id] && key == old(key)[id := k]
    {
      PartPush(chains, head, next, key, ids, log, id, k);
      var i := Slot(k, log);
      next := next[id := head[i]];
      head := head[i := id];
      key := key[id := k];
      chains := chains[i := [id] + chains[i]];
      ids := ids[k := id];
    }

    /**
     Register a link, or change the object of one that is registered.  Not to get even a first table is a
     fatal error.
     */
    method Register(k: nat, o: nat, canGrow: bool, canAllocate: bool) returns (r: Status)
      requires Valid()
      modifies this
      ensures Valid()
      ensures r == NoTable <==> old(log) == -1 && !canGrow
      ensures r == Duplicate <==> r != NoTable && k in old(Contents())
      ensures r == NoMemory <==> r != NoTable && k !in old(Contents()) && !canAllocate
      ensures r == Success <==> r != NoTable && k !in old(Contents()) && canAllocate
      ensures Contents() == if r == NoTable || r == NoMemory then old(Contents()) else old(Contents())[k := o]
      ensures log == old(log) + if canGrow && (old(log) == -1 || |old(Contents().Keys)| > Pow2(old(log))) then 1 else 0
    {
      assert Contents().Keys == ids.Keys;
      if log == -1 && !canGrow {
        return NoTable;
      }
      if (log == -1 || entries > Pow2(log)) && canGrow {
        Grow();
      }
      r := RegisterIn(k, o, canAllocate);
    }

    method RegisterIn(k: nat, o: nat, canAllocate: bool) returns (r: Status)
      requires Valid() && log >= 0
      modifies this
      ensures Valid()
      ensures r == Duplicate <==> k in old(Contents())
      ensures r == NoMemory <==> k !in old(Contents()) && !canAllocate
      ensures r == Success <==> k !in old(Contents()) && canAllocate
      ensures Contents() == if r == NoMemory then old(Contents()) else old(Contents())[k := o]
      ensures log == old(log)
    {
      IdsInjective(chains, head, next, key, ids, log);
      var curr: nat, prev: nat;
      ghost var j: nat;
      curr, prev, j := Find(k);
      if curr != 0 {
        PairsUpdate(ids, obj, k, o);
        obj := obj[curr := o];
        return Duplicate;
      }
      if !canAllocate {
        return NoMemory;
      }
      AddNew(k, o);
      return Success;
    }

    method AddNew(k: nat, o: nat)
      requires Valid() && log >= 0 && k !in ids
      modifies this
      ensures Valid() && Contents() == old(Contents())[k := o] && log == old(log)
    {
      IdsInjective(chains, head, next, key, ids, log);
      var id := issued + 1;
      NotRegistered(chains, head, next, key, ids, log, id);
      PairsNew(ids, obj, k, id, o);
      issued := id;
      obj := obj[id := o];
      Enchain(id, k);
      entries := entries + 1;
    }

    method Unregister(k: nat) returns (found: bool)
      requires Valid()
      modifies this
      ensures Valid()
      ensures found <==> k in old(Contents())
      ensures Contents() == old(Contents()) - {k}
    {
      if log == -1 {
        NoneRegistered(chains, head, next, key, ids, log);
        return false;
      }
      var curr: nat, prev: nat;
      ghost var j: nat;
      curr, prev, j := Find(k);
      if curr == 0 {
        return false;
      }
      assert (ids - {k}).Keys == ids.Keys - {k};
      Unchain(Slot(k, log), prev, curr, j);
      entries := entries - 1;
      return true;
    }

    /** Re-key a link. */
    method Move(k: nat, k': nat) returns (r: Status)
      requires Valid()
      modifies this
      ensures Valid()
      ensures r == NotFound <==> k !in old(Contents())
      ensures r == Duplicate <==> k in old(Contents()) && k != k' && k' in old(Contents())
      ensures r == Success <==> k in old(Contents()) && (k == k' || k' !in old(Contents()))
      ensures Contents() == if r == Success then (old(Contents()) - {k})[k' := old(Contents())[k]] else old(Contents())
    {
      if log == -1 {
        NoneRegistered(chains, head, next, key, ids, log);
        return NotFound;
      }
      var curr: nat, prev: nat, other: nat, before: nat;
      ghost var j: nat, i: nat;
      curr, prev, j := Find(k);
      if curr == 0 {
        return NotFound;
      }
      if k == k' {
        return Success;
      }
      other, before, i := Find(k');
      if other != 0 {
        return Duplicate;
      }
      PairsMove(ids, obj, k, k');
      Rekey(k, k', prev, curr, j);
      return Success;
    }

    method Rekey(k: nat, k': nat, prev: nat, curr: nat, ghost j: nat)
      requires Valid() && log >= 0 && k in ids && curr == ids[k] && curr != 0 && curr in key && key[curr] == k &&
        k' !in ids
      requires Slot(k, log) < |head| == |chains| && j < |chains[Slot(k, log)]| && chains[Slot(k, log)][j] == curr
      requires prev == if j == 0 then 0 else chains[Slot(k, log)][j - 1]
      modifies `head, `next, `key, `chains, `ids
      ensures TablePart(chains, head, next, key, ids, log) && key == old(key)[curr := k'] &&
        ids == (old(ids) - {k})[k' := curr]
    {
      Unchain(Slot(k, log), prev, curr, j);
      Enchain(curr, k');
    }

    // ---------------------------------------------------------------- going through

    /** Delete entry `curr` of bucket `i`; the result is the entry that follows it. */
    method DeleteEntry(i: nat, prev: nat, curr: nat, ghost j: nat) returns (after: nat)
      requires Valid() && i < |head| && i < |chains| && j < |chains[i]| && curr == chains[i][j] && curr in key &&
        curr in next
      requires prev == if j == 0 then 0 else chains[i][j - 1]
      modifies `head, `next, `chains, `ids, `entries
      ensures Valid() && ids == old(ids) - {key[curr]} && |head| == old(|head|) && key[curr] in old(ids)
      ensures chains == old(chains)[i := Without(old(chains)[i], j)]
      ensures after == old(next)[curr]
    {
      after := next[curr];
      EntryFacts(chains, head, next, key, ids, log, i, j);
      assert (ids - {key[curr]}).Keys == ids.Keys - {key[curr]};
      Unchain(i, prev, curr, j);
      entries := entries - 1;
    }

    /** The entries before position `j` of bucket `i` are to be kept, and those deleted were not. */
    ghost predicate Filtering(t: Test, ids0: map<nat, nat>, deleted: set<nat>, i: nat, j: nat, prev: nat, curr: nat)
      reads this
    {
      && Valid() && i < |head| == |chains| && j <= |chains[i]|
      && ids == ids0 - deleted && Dropped(ids0, obj, t, deleted)
      && curr == (if j == |chains[i]| then 0 else chains[i][j]) && prev == (if j == 0 then 0 else chains[i][j - 1])
      && AllKept(chains[i][..j], key, obj, t)
    }

    /** Keep or delete the entry at position `j` of bucket `i`. */
    method FilterStep(i: nat, t: Test, deleted: set<nat>, prev: nat, curr: nat, ghost ids0: map<nat, nat>, ghost j: nat)
      returns (deleted': set<nat>, prev': nat, curr': nat, ghost j': nat)
      requires Filtering(t, ids0, deleted, i, j, prev, curr) && curr != 0
      modifies `head, `next, `chains, `ids, `entries
      ensures Filtering(t, ids0, deleted', i, j', prev', curr') && |chains[i]| - j' < old(|chains[i]|) - j
      ensures SameBut(old(chains), chains, i)
    {
      deleted', prev', j' := deleted, prev, j;
      EntryFacts(chains, head, next, key, ids, log, i, j);
      if Keeps(t, key[curr], obj[curr]) {
        KeptStep(chains[i], key, obj, t, j);
        prev', curr', j' := curr, next[curr], j + 1;
        return;
      }
      WithoutPrefix(chains[i], j);
      DroppedMore(ids0, ids, deleted, {key[curr]}, obj, t);
      deleted' := deleted + {key[curr]};
      curr' := DeleteEntry(i, prev, curr, j);
    }

    /** Delete the entries of bucket `i` that are not to be kept. */
    method FilterBucket(i: nat, t: Test) returns (deleted: set<nat>)
      requires Valid() && i < |head| && i < |chains|
      modifies `head, `next, `chains, `ids, `entries
      ensures Valid() && |head| == |chains| == old(|chains|)
      ensures ids == old(ids) - deleted && Dropped(old(ids), obj, t, deleted)
      ensures AllKept(chains[i], key, obj, t)
      ensures SameBut(old(chains), chains, i)
    {
      deleted := {};
      HeadOfList(chains, head, next, key, ids, log, i);
      var prev: nat, curr := 0, head[i];
      ghost var j := 0;
      while curr != 0
        invariant Filtering(t, old(ids), deleted, i, j, prev, curr)
        invariant SameBut(old(chains), chains, i)
        decreases |chains[i]| - j
      {
        deleted, prev, curr, j := FilterStep(i, t, deleted, prev, curr, old(ids), j);
      }
      EntryFacts(chains, head, next, key, ids, log, i, j);
      assert chains[i][..|chains[i]|] == chains[i];
    }

    /** Delete the entries that are not to be kept, all over the table. */
    method Filter(t: Test) returns (deleted: set<nat>)
      requires Valid()
      modifies `head, `next, `chains, `ids, `entries
      ensures Valid() && Contents() == old(Contents()) - deleted
      ensures forall k :: k in deleted <==> k in old(Contents()) && !Keeps(t, k, old(Contents())[k])
    {
      deleted := FilterAll(t);
      FilteredPairs(old(ids), ids, obj, t, deleted);
    }

    method FilterAll(t: Test) returns (deleted: set<nat>)
      requires Valid()
      modifies `head, `next, `chains, `ids, `entries
      ensures Valid() && ids == old(ids) - deleted && Dropped(old(ids), obj, t, deleted)
      ensures forall k :: k in ids ==> ids[k] in obj && Keeps(t, k, obj[ids[k]])
    {
      deleted := {};
      TableSize(chains, head, next, key, ids, log);
      var size := SizeOf(log);
      var i := 0;
      while i < size
        invariant Valid() && i <= size == |head| == |chains|
        invariant ids == old(ids) - deleted && Dropped(old(ids), obj, t, deleted)
        invariant forall m :: 0 <= m < i ==> AllKept(chains[m], key, obj, t)
      {
        ghost var before := ids;
        var more := FilterBucket(i, t);
        DroppedMore(old(ids), before, deleted, more, obj, t);
        deleted := deleted + more;
        i := i + 1;
      }
      KeptEverywhere(chains, head, next, key, ids, log, obj, t);
    }
  }

  lemma FilteredPairs(ids0: map<nat, nat>, ids: map<nat, nat>, obj: map<nat, nat>, t: Test, deleted: set<nat>)
    requires ids == ids0 - deleted && Dropped(ids0, obj, t, deleted) &&
      forall k :: k in ids ==> ids[k] in obj && Keeps(t, k, obj[ids[k]])
    ensures Pairs(ids, obj) == Pairs(ids0, obj) - deleted
    ensures forall k :: k in deleted <==> k in Pairs(ids0, obj) && !Keeps(t, k, Pairs(ids0, obj)[k])
  {
    forall k ensures k in deleted <==> k in Pairs(ids0, obj) && !Keeps(t, k, Pairs(ids0, obj)[k]) {
      if k in ids0 && k !in deleted {
        assert k in ids;
      }
    }
  }

  lemma DroppedMore(ids0: map<nat, nat>, ids1: map<nat, nat>, deleted: set<nat>, more: set<nat>, obj: map<nat, nat>,
                    t: Test)
    requires ids1 == ids0 - deleted && Dropped(ids0, obj, t, deleted) && Dropped(ids1, obj, t, more)
    ensures ids1 - more == ids0 - (deleted + more) && Dropped(ids0, obj, t, deleted + more)
  {
  }

  lemma KeptStep(chain: seq<nat>, key: map<nat, nat>, obj: map<nat, nat>, t: Test, j: nat)
    requires j < |chain| && AllKept(chain[..j], key, obj, t)
    requires chain[j] in key && chain[j] in obj && Keeps(t, key[chain[j]], obj[chain[j]])
    ensures AllKept(chain[..j + 1], key, obj, t)
  {
    assert chain[..j + 1] == chain[..j] + [chain[j]];
  }

  lemma WithoutPrefix(chain: seq<nat>, j: nat)
    requires j < |chain|
    ensures Without(chain, j)[..j] == chain[..j]
    ensures j + 1 < |chain| ==> Without(chain, j)[j] == chain[j + 1]
    ensures j > 0 ==> Without(chain, j)[j - 1] == chain[j - 1]
  {
  }

  lemma KeptEverywhere(chains: seq<seq<nat>>, head: seq<nat>, next: map<nat, nat>, key: map<nat, nat>,
                       ids: map<nat, nat>, log: int,
                       obj: map<nat, nat>, t: Test)
    requires TablePart(chains, head, next, key, ids, log) &&
      forall m :: 0 <= m < |chains| ==> AllKept(chains[m], key, obj, t)
    ensures forall k :: k in ids ==> ids[k] in obj && Keeps(t, k, obj[ids[k]])
  {
    TableFacts(chains, head, next, key, ids, log);
    forall k | k in ids ensures ids[k] in obj && Keeps(t, k, obj[ids[k]]) {
      assert Registered(chains, key, ids, log, k);
      assert AllKept(chains[Slot(k, log)], key, obj, t);
    }
  }

  ghost predicate SameBut(a: seq<seq<nat>>, b: seq<seq<nat>>, i: nat) {
    |a| == |b| && forall m :: 0 <= m < |a| && m != i ==> a[m] == b[m]
  }

  /** Deleted entries were not to be kept. */
  ghost predicate Dropped(ids: map<nat, nat>, obj: map<nat, nat>, t: Test, deleted: set<nat>) {
    forall k :: k in deleted ==> k in ids && ids[k] in obj && !Keeps(t, k, obj[ids[k]])
  }

  ghost predicate AllKept(chain: seq<nat>, key: map<nat, nat>, obj: map<nat, nat>, t: Test) {
    forall id :: id in chain ==> id in key && id in obj && Keeps(t, key[id], obj[id])
  }

  lemma EntryFacts(chains: seq<seq<nat>>, head: seq<nat>, next: map<nat, nat>, key: map<nat, nat>, ids: map<nat,
                   nat>, log: int, i: nat, j: nat)
    requires TablePart(chains, head, next, key, ids, log) && i < |head| && i < |chains| && j <= |chains[i]|
    ensures j < |chains[i]| ==> chains[i][j] != 0 && MemberOk(key, ids, log, i, chains[i][j])
    ensures j < |chains[i]| ==> chains[i][j] in next && next[chains[i][j]] == After(chains[i], j)
  {
    TableFacts(chains, head, next, key, ids, log);
    assert BucketOk(chains[i], head[i], next, key, ids, log, i);
    if j < |chains[i]| {
      assert next[chains[i][j]] == After(chains[i], j);
      assert chains[i][j] in chains[i];
    }
  }

  lemma IdsInjective(chains: seq<seq<nat>>, head: seq<nat>, next: map<nat, nat>, key: map<nat, nat>,
                     ids: map<nat, nat>, log: int)
    requires TablePart(chains, head, next, key, ids, log)
    ensures Injective(ids)
    ensures forall a :: a in ids ==> ids[a] in key && key[ids[a]] == a
  {
    TableFacts(chains, head, next, key, ids, log);
    forall a | a in ids ensures ids[a] in key && key[ids[a]] == a {
      assert Registered(chains, key, ids, log, a);
    }
  }

  lemma NoneRegistered(chains: seq<seq<nat>>, head: seq<nat>, next: map<nat, nat>, key: map<nat, nat>,
                       ids: map<nat, nat>, log: int)
    requires TablePart(chains, head, next, key, ids, log) && log == -1
    ensures ids == map[]
  {
    TableFacts(chains, head, next, key, ids, log);
    forall k ensures k !in ids {
      assert k in ids ==> Registered(chains, key, ids, log, k);
    }
  }

  /** Entries being moved: what is left of the old table, and what the new one holds. */
  datatype Halves = Halves(lists: seq<seq<nat>>, heads: seq<nat>, rest: map<nat, nat>, buckets: seq<seq<nat>>,
                           moved: map<nat, nat>)

  ghost predicate Moving(g: Halves, table: seq<nat>, next: map<nat, nat>, key: map<nat, nat>, ids: map<nat, nat>,
                         log: int) {
    && log >= -1 && |g.heads| == |g.lists| && |g.buckets| == |table| == Pow2(log + 1)
    && TablePart(g.lists, g.heads, next, key, g.rest, log)
    && TablePart(g.buckets, table, next, key, g.moved, log + 1)
    && Divided(ids, g.rest, g.moved)
  }

  /** Entry `p`, the first of old bucket `i`, becomes the first of new bucket `h`. */
  function MovedOne(g: Halves, i: nat, p: nat, after: nat, k: nat, h: nat): Halves
    requires i < |g.heads| == |g.lists| && g.lists[i] != [] && h < |g.buckets|
  {
    Halves(g.lists[i := Without(g.lists[i], 0)], g.heads[i := after], g.rest - {k},
           g.buckets[h := [p] + g.buckets[h]], g.moved[k := p])
  }

  lemma MoveStep(g: Halves, table: seq<nat>, next: map<nat, nat>, key: map<nat, nat>, ids: map<nat, nat>, log: int,
                 i: nat)
    requires Moving(g, table, next, key, ids, log) && i < |g.heads| && g.heads[i] != 0
    ensures var p := g.heads[i];
      && p in next && p in key && g.lists[i] != []
      && var h := Slot(key[p], log + 1);
         Moving(MovedOne(g, i, p, next[p], key[p], h), table[h := p], next[p := table[h]], key, ids, log)
  {
    var p := g.heads[i];
    HeadOfList(g.lists, g.heads, next, key, g.rest, log, i);
    var after, h := next[p], Slot(key[p], log + 1);
    PartWithout(g.lists, g.heads, next, key, g.rest, log, i, 0);
    var m := MovedOne(g, i, p, after, key[p], h);
    NotRegistered(g.buckets, table, next, key, g.moved, log + 1, p);
    PartPush(g.buckets, table, next, key, g.moved, log + 1, p, key[p]);
    PartFrame(m.lists, m.heads, next, key, m.rest, log, p, table[h], key[p]);
    assert key[p := key[p]] == key;
    DividedMove(ids, g.rest, g.moved, key[p], p);
  }

  lemma DividedMove(all: map<nat, nat>, a: map<nat, nat>, b: map<nat, nat>, k: nat, p: nat)
    requires Divided(all, a, b) && k in a && a[k] == p
    ensures Divided(all, a - {k}, b[k := p])
  {
  }

  lemma AllMoved(g: Halves, table: seq<nat>, next: map<nat, nat>, key: map<nat, nat>, ids: map<nat, nat>, log: int,
                 newLog: int)
    requires Moving(g, table, next, key, ids, log) && newLog == log + 1 &&
      forall j :: 0 <= j < |g.lists| ==> g.lists[j] == []
    ensures TablePart(g.buckets, table, next, key, ids, newLog)
  {
    NothingLeft(g.lists, g.heads, next, key, g.rest, log);
    assert g.moved == ids;
  }

  /** The registered keys, divided into two parts. */
  ghost predicate Divided(all: map<nat, nat>, a: map<nat, nat>, b: map<nat, nat>) {
    a.Keys !! b.Keys && all == a + b
  }

  lemma EmptyTable(next: map<nat, nat>, key: map<nat, nat>, log: nat)
    ensures TablePart(seq(Pow2(log), _ => []), seq(Pow2(log), _ => 0), next, key, map[], log)
  {
  }

  lemma TableSize(chains: seq<seq<nat>>, head: seq<nat>, next: map<nat, nat>, key: map<nat, nat>, ids: map<nat, nat>,
                  log: int)
    requires TablePart(chains, head, next, key, ids, log)
    ensures log >= -1 && |chains| == |head| == SizeOf(log)
  {
    TableFacts(chains, head, next, key, ids, log);
  }

  lemma HeadOfList(chains: seq<seq<nat>>, head: seq<nat>, next: map<nat, nat>, key: map<nat, nat>, ids: map<nat, nat>,
                   log: int, i: nat)
    requires TablePart(chains, head, next, key, ids, log) && i < |head|
    ensures |chains| == |head| && head[i] == Front(chains[i]) && (head[i] == 0 <==> chains[i] == [])
    ensures head[i] != 0 ==> head[i] in next && head[i] in key && key[head[i]] in ids && ids[key[head[i]]] == head[i]
  {
    TableFacts(chains, head, next, key, ids, log);
    assert BucketOk(chains[i], head[i], next, key, ids, log, i);
    if chains[i] != [] {
      assert MemberOk(key, ids, log, i, chains[i][0]);
    }
  }

  lemma NothingLeft(chains: seq<seq<nat>>, head: seq<nat>, next: map<nat, nat>, key: map<nat, nat>, ids: map<nat, nat>,
                    log: int)
    requires TablePart(chains, head, next, key, ids, log) && forall j :: 0 <= j < |chains| ==> chains[j] == []
    ensures ids == map[]
  {
    TableFacts(chains, head, next, key, ids, log);
    forall k ensures k !in ids {
      assert k in ids ==> Registered(chains, key, ids, log, k);
    }
  }

  lemma NoZero(chains: seq<seq<nat>>, head: seq<nat>, next: map<nat, nat>, key: map<nat, nat>, ids: map<nat, nat>,
               log: int, i: nat, k: nat)
    requires TablePart(chains, head, next, key, ids, log) && i < |head| && i < |chains| && k < |chains[i]|
    ensures chains[i][k] != 0 && (k > 0 ==> chains[i][k - 1] != 0 && chains[i][k - 1] != chains[i][k])
  {
    TableFacts(chains, head, next, key, ids, log);
    assert BucketOk(chains[i], head[i], next, key, ids, log, i);
  }
}
