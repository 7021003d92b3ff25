/**
 Black lists: hash tables of blocks that false pointers lead to, consulted before memory
 is allocated.  Addresses are block numbers.
 */
module BlackList {
  import opened Division

  type WordBits = n: nat | n in {32, 64} witness 64
  type Positive = n: nat | n > 0 witness 1

  const WORDSZ: WordBits
  const PHT_SIZE: Positive
  const PHT_ENTRIES: nat := PHT_SIZE * WORDSZ

  /** A table word, as the set of its bits that are one. */
  type Word = set<nat>
  type Table = seq<Word>

  lemma EntriesPositive()
    ensures PHT_ENTRIES > 0
  {
    assert PHT_SIZE * WORDSZ >= 1 * WORDSZ;
  }

  function PhtHash(h: nat): (index: nat)
    ensures index < PHT_ENTRIES
  {
    EntriesPositive();
    h % PHT_ENTRIES
  }

  /** Blocks share an entry only if they are a table size apart. */
  lemma HashApart(a: nat, b: nat)
    requires a < b < a + PHT_ENTRIES
    ensures PhtHash(a) != PhtHash(b)
  {
    EntriesPositive();
    RemaindersDiffer(a, b, PHT_ENTRIES);
  }

  /** Of the blocks less than a table size away, only `h` itself has the entry of `h`. */
  ghost predicate Nearby(h: nat, c: nat) {
    c != h && h < c + PHT_ENTRIES && c < h + PHT_ENTRIES
  }

  lemma NearbyApart(h: nat)
    ensures forall c :: Nearby(h, c) ==> PhtHash(c) != PhtHash(h)
  {
    forall c: nat | Nearby(h, c) ensures PhtHash(c) != PhtHash(h) {
      if c < h {
        HashApart(c, h);
      } else {
        HashApart(h, c);
      }
    }
  }

  lemma WordIndex(index: nat)
    requires index < PHT_ENTRIES
    ensures index / WORDSZ < PHT_SIZE
  {
  }

  /** The bit of block `h` in a table. */
  ghost predicate Bit(t: Table, h: nat)
    requires |t| == PHT_SIZE
  {
    WordIndex(PhtHash(h));
    PhtHash(h) % WORDSZ in t[PhtHash(h) / WORDSZ]
  }

  /** Blocks whose bits follow that of `h` in the same word. */
  lemma SameWord(h: nat, j: nat)
    requires PhtHash(h) % WORDSZ + j < WORDSZ
    ensures PhtHash(h + j) == PhtHash(h) + j
    ensures PhtHash(h + j) / WORDSZ == PhtHash(h) / WORDSZ
    ensures PhtHash(h + j) % WORDSZ == PhtHash(h) % WORDSZ + j
  {
    var index := PhtHash(h);
    WordIndex(index);
    var w, b := index / WORDSZ, index % WORDSZ;
    assert index == w * WORDSZ + b;
    assert (w + 1) * WORDSZ <= PHT_SIZE * WORDSZ by {
      MulMono(w + 1, PHT_SIZE, WORDSZ);
    }
    assert index + j < PHT_ENTRIES;
    EntriesPositive();
    ModShift(h, j, PHT_ENTRIES);
    DivMod(w, b + j, WORDSZ);
  }

  /** The table word that holds an entry. */
  function WordAt(t: Table, index: nat): Word
    requires |t| == PHT_SIZE && index < PHT_ENTRIES
  {
    WordIndex(index);
    t[index / WORDSZ]
  }

  /** How many entries from `index` to the end of its word. */
  function ToNextWord(index: nat): (n: nat)
    ensures n > 0
  {
    WORDSZ - index % WORDSZ
  }

  /** An empty word rules out the blocks of all its entries. */
  lemma EmptyWord(t: Table, h: nat, c: nat)
    requires |t| == PHT_SIZE && WordAt(t, PhtHash(h)) == {}
    requires h <= c < h + ToNextWord(PhtHash(h))
    ensures !Bit(t, c)
  {
    SameWord(h, c - h);
  }

  class BlackLists {
    /** Are pointers into the interior of objects recognised everywhere? */
    const allInterior: bool
    var oldNormal: Table
    var incompleteNormal: Table
    var oldStack: Table
    var incompleteStack: Table

    ghost predicate Valid()
      reads this
    {
      |oldNormal| == |incompleteNormal| == |oldStack| == |incompleteStack| == PHT_SIZE
    }

    constructor (allInterior: bool)
      ensures Valid() && this.allInterior == allInterior
      ensures forall h :: !BlockListed(h) && !NormalListed(h)
    {
      this.allInterior := allInterior;
      var empty := seq(PHT_SIZE, _ => {});
      oldNormal, incompleteNormal, oldStack, incompleteStack := empty, empty, empty, empty;
    }

    /** A false pointer from a stack leads to block `h`. */
    ghost predicate BlockListed(h: nat)
      requires Valid()
      reads this
    {
      Bit(oldStack, h) || Bit(incompleteStack, h)
    }

    /** A false pointer from elsewhere leads to block `h`. */
    ghost predicate NormalListed(h: nat)
      requires Valid()
      reads this
    {
      Bit(oldNormal, h) || Bit(incompleteNormal, h)
    }

    /** The block-by-block meaning: no object of `n` blocks should start at `h`. */
    ghost predicate StartListed(h: nat, n: nat)
      requires Valid()
      reads this
    {
      || (!allInterior && NormalListed(h))
      || exists b :: h <= b < h + (if n == 0 then 1 else n) && BlockListed(b)
    }

    method TestBit(t: Table, h: nat) returns (r: bool)
      requires |t| == PHT_SIZE
      ensures r == Bit(t, h)
    {
      WordIndex(PhtHash(h));
      r := PhtHash(h) % WORDSZ in t[PhtHash(h) / WORDSZ];
    }

    /**
     Is a block of `n` blocks starting at `h` black listed?  If so, the result is the next
     start worth trying: every start below it is black listed too.  If not, it is 0.
     */
    method IsBlackListed(h: nat, n: nat) returns (r: nat)
      requires Valid()
      ensures r == 0 <==> !StartListed(h, n)
      ensures r != 0 ==> h < r <= h + (if n == 0 then 1 else n)
      ensures r != 0 ==> forall s :: h <= s < r ==> StartListed(s, n)
    {
      var index := PhtHash(h);
      var a := TestBit(oldNormal, h);
      var b := TestBit(incompleteNormal, h);
      if !allInterior && (a || b) {
        return h + 1;
      }
      var i := 0;
      while true
        invariant index == PhtHash(h + i) && (i == 0 || i < n)
        invariant forall c :: h <= c < h + i ==> !BlockListed(c)
        decreases n + 1 - i
      {
        if WordAt(oldStack, index) == {} && WordAt(incompleteStack, index) == {} {
          ghost var from := h + i;
          i := i + ToNextWord(index);
          forall c | from <= c < h + i ensures !BlockListed(c) {
            EmptyWord(oldStack, from, c);
            EmptyWord(incompleteStack, from, c);
          }
        } else {
          a := TestBit(oldStack, h + i);
          b := TestBit(incompleteStack, h + i);
          if a || b {
            assert BlockListed(h + i);
            return h + i + 1;
          }
          i := i + 1;
        }
        if i >= n {
          break;
        }
        index := PhtHash(h + i);
      }
      return 0;
    }

    /**
     The lowest start in a free block `[h, h + avail)` for `need` blocks that is not black
     listed, judged by its first `eff` blocks.  If the result exceeds `h + avail - need`,
     there is none.
     */
    method FirstUsableStart(h: nat, avail: nat, need: nat, eff: nat) returns (s: nat)
      requires Valid() && 0 < eff <= need <= avail
      ensures h <= s <= h + avail
      ensures forall c :: h <= c < s && c + need <= h + avail ==> StartListed(c, eff)
      ensures s + need <= h + avail ==> !StartListed(s, eff)
    {
      s := h;
      while s + need <= h + avail
        invariant h <= s <= h + avail
        invariant forall c :: h <= c < s ==> StartListed(c, eff)
        decreases h + avail - s
      {
        var next := IsBlackListed(s, eff);
        if next == 0 {
          return;
        }
        s := next;
      }
    }

    method SetBit(t: Table, h: nat) returns (r: Table)
      requires |t| == PHT_SIZE
      ensures |r| == PHT_SIZE
      ensures forall c :: Bit(r, c) <==> Bit(t, c) || PhtHash(c) == PhtHash(h)
    {
      EntriesPositive();
      var index := PhtHash(h);
      WordIndex(index);
      r := t[index / WORDSZ := t[index / WORDSZ] + {index % WORDSZ}];
      forall c ensures Bit(r, c) <==> Bit(t, c) || PhtHash(c) == index {
        SameEntry(PhtHash(c), index);
      }
    }

    /**
     Note a false pointer to block `h` seen outside the stacks, unless it leads into an allocated
     block, or its offset in its word is not one that pointers to objects may have.
     */
    method AddNormal(h: nat, validOffset: bool, hasHeader: bool)
      requires Valid()
      modifies this`incompleteNormal
      ensures Valid()
      ensures forall c :: Bit(incompleteNormal, c) <==>
        || old(Bit(incompleteNormal, c))
        || (PhtHash(c) == PhtHash(h) && validOffset && (!hasHeader || Bit(oldNormal, h)))
      ensures validOffset && !hasHeader ==> NormalListed(h)
      ensures forall c :: Nearby(h, c) ==> (NormalListed(c) <==> old(NormalListed(c)))
    {
      NearbyApart(h);
      var listed := TestBit(oldNormal, h);
      if validOffset && (!hasHeader || listed) {
        incompleteNormal := SetBit(incompleteNormal, h);
      }
    }

    method AddStack(h: nat, hasHeader: bool)
      requires Valid()
      modifies this`incompleteStack
      ensures Valid()
      ensures forall c :: Bit(incompleteStack, c) <==>
        old(Bit(incompleteStack, c)) || (PhtHash(c) == PhtHash(h) && (!hasHeader || Bit(oldStack, h)))
      ensures !hasHeader ==> BlockListed(h)
      ensures forall c :: Nearby(h, c) ==> (BlockListed(c) <==> old(BlockListed(c)))
    {
      NearbyApart(h);
      var listed := TestBit(oldStack, h);
      if !hasHeader || listed {
        incompleteStack := SetBit(incompleteStack, h);
      }
    }

    /** A full collection starts: what was seen since the last one becomes the old list. */
    method Promote()
      requires Valid()
      modifies this
      ensures Valid()
      ensures oldStack == old(incompleteStack) && oldNormal == old(incompleteNormal)
      ensures forall h :: BlockListed(h) <==> old(Bit(incompleteStack, h))
      ensures !allInterior ==> forall h :: NormalListed(h) <==> old(Bit(incompleteNormal, h))
      ensures allInterior ==> incompleteNormal == old(oldNormal)
    {
      var veryOldNormal := oldNormal;
      var empty := seq(PHT_SIZE, _ => {});
      oldNormal, oldStack := incompleteNormal, incompleteStack;
      incompleteNormal := if allInterior then veryOldNormal else empty;
      incompleteStack := empty;
    }
  }

  lemma SameEntry(a: nat, b: nat)
    ensures a / WORDSZ == b / WORDSZ && a % WORDSZ == b % WORDSZ <==> a == b
  {
    assert a == (a / WORDSZ) * WORDSZ + a % WORDSZ;
    assert b == (b / WORDSZ) * WORDSZ + b % WORDSZ;
  }
}
