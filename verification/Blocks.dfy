/** Disk blocks as bytes, the 32-bit little-endian words an indirect block stores in
    them, and where byte k of a file lies. */
module Blocks {
  import opened Params

  datatype Block = Block(bytes: seq<int>)

  /** A zeroed block. */
  function Zero(): (b: Block)
    ensures |b.bytes| == BSIZE && forall k :: 0 <= k < BSIZE ==> b.bytes[k] == 0
  {
    Block(seq(BSIZE, _ => 0))
  }

  predicate Whole(b: Block) { |b.bytes| == BSIZE }

  // ---------- words ----------

  /** The j-th uint of a block. */
  function Word(b: Block, j: nat): (w: int)
    requires Whole(b) && j < NINDIRECT
  {
    b.bytes[4*j] + 256 * b.bytes[4*j+1] + 65536 * b.bytes[4*j+2] + 16777216 * b.bytes[4*j+3]
  }

  /** Store w as the j-th uint. */
  function SetWord(b: Block, j: nat, w: int): (r: Block)
    requires Whole(b) && j < NINDIRECT
    ensures Whole(r)
  {
    var w1 := w / 256;
    var w2 := w1 / 256;
    Block(b.bytes[4*j := w % 256][4*j+1 := w1 % 256][4*j+2 := w2 % 256][4*j+3 := w2 / 256])
  }

  lemma SetWordReads(b: Block, j: nat, w: int, k: nat)
    requires Whole(b) && j < NINDIRECT && k < NINDIRECT && 0 <= w
    ensures Word(SetWord(b, j, w), k) == if k == j then w else Word(b, k)
  {
  }

  lemma ZeroWords(j: nat)
    requires j < NINDIRECT
    ensures Whole(Zero()) && Word(Zero(), j) == 0
  {
  }

  /** Store a list of uints from the at-th on. */
  function SetWords(b: Block, at: nat, ws: seq<int>): (r: Block)
    requires Whole(b) && at + |ws| <= NINDIRECT
    ensures Whole(r)
  {
    if ws == [] then b else SetWord(SetWords(b, at, ws[..|ws|-1]), at + |ws| - 1, ws[|ws|-1])
  }

  lemma {:induction false} SetWordsReads(b: Block, at: nat, ws: seq<int>, k: nat)
    requires Whole(b) && at + |ws| <= NINDIRECT && k < NINDIRECT
    requires forall i :: 0 <= i < |ws| ==> 0 <= ws[i]
    ensures Word(SetWords(b, at, ws), k) == if at <= k < at + |ws| then ws[k-at] else Word(b, k)
    decreases |ws|
  {
    hide Word, SetWord;
    if ws != [] {
      SetWordsReads(b, at, ws[..|ws|-1], k);
      SetWordReads(SetWords(b, at, ws[..|ws|-1]), at + |ws| - 1, ws[|ws|-1], k);
    }
  }

  // ---------- bytes ----------

  /** memmove of `data` to offset o. */
  function Patch(b: Block, o: nat, data: seq<int>): (r: Block)
    requires Whole(b) && o + |data| <= BSIZE
    ensures Whole(r)
    ensures forall k :: 0 <= k < BSIZE ==> r.bytes[k] == if o <= k < o + |data| then data[k-o] else b.bytes[k]
  {
    Block(b.bytes[..o] + data + b.bytes[o+|data|..])
  }

  // ---------- where byte k of a file lies ----------

  /** k / BSIZE. */
  function Blk(k: nat): (b: nat)
    decreases k
  {
    if k < BSIZE then 0 else 1 + Blk(k - BSIZE)
  }

  /** k % BSIZE. */
  function Off(k: nat): (o: nat)
    ensures o < BSIZE && o <= k
    decreases k
  {
    if k < BSIZE then k else Off(k - BSIZE)
  }

  lemma {:induction false} DivMod(k: nat)
    ensures k == Blk(k) * BSIZE + Off(k)
    decreases k
  {
    if k >= BSIZE {
      DivMod(k - BSIZE);
      assert Blk(k) * BSIZE == (1 + Blk(k - BSIZE)) * BSIZE == BSIZE + Blk(k - BSIZE) * BSIZE;
    }
  }

  lemma {:induction false} Multiples(a: int, b: int)
    requires a < b
    ensures a * BSIZE + BSIZE <= b * BSIZE
    decreases b - a
  {
    if a + 1 < b {
      Multiples(a + 1, b);
    }
  }

  /** Blk and Off are the quotient and the remainder the code computes. */
  lemma IsDivMod(k: nat)
    ensures Blk(k) == k / BSIZE && Off(k) == k % BSIZE
  {
    DivMod(k);
    var q, r := k / BSIZE, k % BSIZE;
    assert k == q * BSIZE + r;
    if q < Blk(k) {
      Multiples(q, Blk(k));
    } else if Blk(k) < q {
      Multiples(Blk(k), q);
    }
  }

  /** Block number and offset of a byte. */
  method Place(k: nat) returns (bn: nat, o: nat)
    ensures bn == Blk(k) && o == Off(k)
  {
    IsDivMod(k);
    bn, o := k / BSIZE, k % BSIZE;
  }

  /** Moving on within a block, up to its end. */
  lemma {:induction false} Advance(k: nat, m: nat)
    requires Off(k) + m <= BSIZE
    ensures Off(k) + m < BSIZE ==> Blk(k + m) == Blk(k) && Off(k + m) == Off(k) + m
    ensures Off(k) + m == BSIZE ==> Blk(k + m) == Blk(k) + 1 && Off(k + m) == 0
    decreases k
  {
    if k >= BSIZE {
      Advance(k - BSIZE, m);
    }
  }

  lemma {:induction false} BlkMonotone(j: nat, k: nat)
    requires j <= k
    ensures Blk(j) <= Blk(k) <= Blk(j) + k - j
    decreases k
  {
    if k >= BSIZE {
      if j >= BSIZE {
        BlkMonotone(j - BSIZE, k - BSIZE);
      } else {
        BlkMonotone(0, k - BSIZE);
      }
    }
  }

  /** Same block and same offset: same byte. */
  lemma SamePlace(j: nat, k: nat)
    requires Blk(j) == Blk(k)
    ensures j - Off(j) == k - Off(k)
  {
    DivMod(j);
    DivMod(k);
  }

  lemma InFile(k: nat)
    requires k < MAXFILE * BSIZE
    ensures Blk(k) < MAXFILE
  {
    DivMod(k);
    if MAXFILE <= Blk(k) {
      if MAXFILE < Blk(k) {
        Multiples(MAXFILE, Blk(k));
      }
    }
  }

  lemma BlkOfMultiple(q: nat)
    ensures Blk(q * BSIZE) == q && Off(q * BSIZE) == 0
  {
    DivMod(q * BSIZE);
    if Blk(q * BSIZE) < q {
      Multiples(Blk(q * BSIZE), q);
    } else if q < Blk(q * BSIZE) {
      Multiples(q, Blk(q * BSIZE));
    }
  }
}
