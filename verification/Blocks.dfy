/** Disk blocks as byte sequences, the little-endian fields the kernel reads
    and writes inside them, and the bits of the free map. */
module Blocks {
  import opened Common

  const BSIZE: nat := 512
  const WORDS: nat := BSIZE / 4

  type Block = s: seq<Byte> | |s| == BSIZE witness seq(BSIZE, i => 0)
  type Disk = seq<Block>

  function Zeroes(): (b: Block)
    ensures forall i :: 0 <= i < BSIZE ==> b[i] == 0
  {
    seq(BSIZE, i => 0)
  }

  /** The i-th 32-bit word of a block (`((uint *)data)[i]`). */
  function Word(b: Block, i: nat): (w: nat)
    requires i < WORDS
    ensures w < UINT
  {
    var b0: int, b1: int, b2: int, b3: int := b[4 * i], b[4 * i + 1], b[4 * i + 2], b[4 * i + 3];
    b0 + 0x100 * b1 + 0x1_0000 * b2 + 0x100_0000 * b3
  }

  function PutWord(b: Block, i: nat, w: nat): (r: Block)
    requires i < WORDS && w < UINT
  {
    b[4 * i := w % 0x100][4 * i + 1 := w / 0x100 % 0x100]
     [4 * i + 2 := w / 0x1_0000 % 0x100][4 * i + 3 := w / 0x100_0000]
  }

  /** A stored word is read back, and its neighbours are untouched. */
  lemma WordOfPut(b: Block, i: nat, w: nat, j: nat)
    requires i < WORDS && j < WORDS && w < UINT
    ensures Word(PutWord(b, i, w), j) == if i == j then w else Word(b, j)
  {
    if i == j {
      assert w == w % 0x100 + 0x100 * (w / 0x100 % 0x100)
                  + 0x1_0000 * (w / 0x1_0000 % 0x100) + 0x100_0000 * (w / 0x100_0000) by {
        assert w / 0x100 / 0x100 == w / 0x1_0000;
        assert w / 0x1_0000 / 0x100 == w / 0x100_0000;
      }
    }
  }

  /** The block with ws stored in consecutive words from `at` on. */
  function PutWords(b: Block, at: nat, ws: seq<nat>): (r: Block)
    requires at + |ws| <= WORDS && forall i :: 0 <= i < |ws| ==> ws[i] < UINT
  {
    if ws == [] then b
    else PutWord(PutWords(b, at, ws[..|ws| - 1]), at + |ws| - 1, ws[|ws| - 1])
  }

  lemma {:induction false} WordOfPuts(b: Block, at: nat, ws: seq<nat>, j: nat)
    requires at + |ws| <= WORDS && j < WORDS
    requires forall i :: 0 <= i < |ws| ==> ws[i] < UINT
    ensures Word(PutWords(b, at, ws), j) == if at <= j < at + |ws| then ws[j - at] else Word(b, j)
    decreases |ws|
  {
    if ws != [] {
      WordOfPut(PutWords(b, at, ws[..|ws| - 1]), at + |ws| - 1, ws[|ws| - 1], j);
      WordOfPuts(b, at, ws[..|ws| - 1], j);
    }
  }

  /** The n words from `at` on. */
  function Words(b: Block, at: nat, n: nat): (ws: seq<nat>)
    requires at + n <= WORDS
    ensures |ws| == n
    ensures forall i :: 0 <= i < n ==> ws[i] == Word(b, at + i)
    ensures forall i :: 0 <= i < n ==> ws[i] < UINT
  {
    seq<nat>(n, i requires 0 <= i < n => Word(b, at + i))
  }

  /** Stored words are read back; words stored elsewhere do not show. */
  lemma WordsOfPuts(b: Block, at: nat, ws: seq<nat>, from: nat, n: nat)
    requires at + |ws| <= WORDS && from + n <= WORDS
    requires forall i :: 0 <= i < |ws| ==> ws[i] < UINT
    requires (from == at && n == |ws|) || from + n <= at || at + |ws| <= from
    ensures Words(PutWords(b, at, ws), from, n) == if from == at && n == |ws| then ws else Words(b, from, n)
  {
    hide Word, PutWords, PutWord;
    var got := Words(PutWords(b, at, ws), from, n);
    var want := if from == at && n == |ws| then ws else Words(b, from, n);
    forall i | 0 <= i < n ensures got[i] == want[i] {
      WordOfPuts(b, at, ws, from + i);
    }
  }

  lemma ZeroWords(i: nat)
    requires i < WORDS
    ensures Word(Zeroes(), i) == 0
  {
  }

  // ---- Bits ----

  /** `x & (1 << k)` is not zero. */
  predicate Bit(x: nat, k: nat)
  {
    if k == 0 then x % 2 == 1 else Bit(x / 2, k - 1)
  }

  /** `x | (1 << k)` or `x & ~(1 << k)`. */
  function PutBit(x: nat, k: nat, on: bool): (y: nat)
  {
    if k == 0 then x / 2 * 2 + (if on then 1 else 0) else PutBit(x / 2, k - 1, on) * 2 + x % 2
  }

  function Pow2(n: nat): nat { if n == 0 then 1 else 2 * Pow2(n - 1) }

  lemma {:induction false} PutBitBound(x: nat, k: nat, on: bool, width: nat)
    requires k < width && x < Pow2(width)
    ensures PutBit(x, k, on) < Pow2(width)
  {
    if k > 0 { PutBitBound(x / 2, k - 1, on, width - 1); }
  }

  function PutByteBit(x: Byte, k: nat, on: bool): (y: Byte)
    requires k < 8
  {
    assert Pow2(8) == 256;
    PutBitBound(x, k, on, 8);
    PutBit(x, k, on)
  }

  lemma {:induction false} BitOfPut(x: nat, k: nat, on: bool, j: nat)
    ensures Bit(PutBit(x, k, on), j) == if j == k then on else Bit(x, j)
    decreases k
  {
    if k > 0 {
      if j > 0 { BitOfPut(x / 2, k - 1, on, j - 1); }
    }
  }
}
