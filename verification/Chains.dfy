/** Singly linked lists, as hash chains.  A member is a number, and 0 ends the list. */
module Chains {
  import opened FreeLists

  /** A singly linked list. */
  ghost predicate Chain(list: seq<nat>, head: nat, link: map<nat, nat>) {
    && head == Front(list)
    && (forall j :: 0 <= j < |list| ==> list[j] != 0 && list[j] in link)
    && (forall j {:trigger After(list, j)} :: 0 <= j < |list| ==> link[list[j]] == After(list, j))
  }

  lemma ChainCons(list: seq<nat>, head: nat, link: map<nat, nat>, r: nat)
    requires Chain(list, head, link) && r != 0 && r !in list
    ensures Chain([r] + list, r, link[r := head])
  {
    var w, link' := [r] + list, link[r := head];
    forall j | 0 <= j < |w| ensures w[j] != 0 && w[j] in link' && link'[w[j]] == After(w, j) {
      if j > 0 {
        assert w[j] == list[j - 1] && link[list[j - 1]] == After(list, j - 1);
      }
    }
  }

  lemma ChainKept(list: seq<nat>, head: nat, link: map<nat, nat>, r: nat, v: nat)
    requires Chain(list, head, link) && r !in list
    ensures Chain(list, head, link[r := v])
  {
    var link' := link[r := v];
    forall j | 0 <= j < |list| ensures list[j] != 0 && list[j] in link' && link'[list[j]] == After(list, j) {
      assert list[j] in list;
    }
  }

  /** The member of a chain whose key is `hi`, or 0. */
  method WalkChain(hi: nat, head: nat, link: map<nat, nat>, key: map<nat, nat>, ghost chain: seq<nat>) returns (bi: nat)
    requires Chain(chain, head, link) && forall j :: 0 <= j < |chain| ==> chain[j] in key
    ensures bi != 0 ==> bi in chain && key[bi] == hi
    ensures bi == 0 ==> forall j :: 0 <= j < |chain| ==> key[chain[j]] != hi
  {
    bi := head;
    ghost var j := 0;
    while bi != 0 && key[bi] != hi
      invariant j <= |chain| && bi == if j == |chain| then 0 else chain[j]
      invariant forall i :: 0 <= i < j ==> key[chain[i]] != hi
      decreases |chain| - j
    {
      assert link[bi] == After(chain, j);
      bi := link[bi];
      j := j + 1;
    }
  }

  /** Taking the k-th member out: what pointed to it points to what it points to. */
  lemma ChainWithout(list: seq<nat>, head: nat, link: map<nat, nat>, k: nat)
    requires Chain(list, head, link) && Distinct(list) && k < |list|
    ensures var n := link[list[k]];
      if k == 0 then Chain(Without(list, k), n, link) else Chain(Without(list, k), head, link[list[k - 1] := n])
  {
    var w, n := Without(list, k), link[list[k]];
    var link' := if k == 0 then link else link[list[k - 1] := n];
    assert n == After(list, k);
    forall j | 0 <= j < |w| ensures w[j] != 0 && w[j] in link' && link'[w[j]] == After(w, j) {
      WithoutAt(list, k, j);
      assert link[list[Skip(j, k)]] == After(list, Skip(j, k));
      if j + 1 < |w| {
        WithoutAt(list, k, j + 1);
      }
      if k > 0 && j != k - 1 {
        DistinctAt(list, Skip(j, k), k - 1);
      }
    }
  }
}
