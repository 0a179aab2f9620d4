/** Sizes of param.h, fs.h and the machine that several parts share. */
module Xv6Params {
  const UINT := 0x1_0000_0000
  const MAXOPBLOCKS := 10
  const LOGSIZE := 30
  const NBUF := 30
}

/** Disk blocks: bytes, and the 32-bit words in them. */
module DiskBlocks {
  import opened Xv6Params

  const BSIZE := 512

  type Byte = n: int | 0 <= n < 256
  type Block = b: seq<Byte> | |b| == BSIZE witness seq(BSIZE, i => 0)
  type Disk = seq<Block>

  function Zero(): (b: Block)
    ensures forall k :: 0 <= k < BSIZE ==> b[k] == 0
  {
    seq(BSIZE, i => 0)
  }

  // ----- 32-bit little-endian words

  function Word(b: Block, j: nat): (w: nat)
    requires j < 128
    ensures w < UINT
  {
    var (b0: int, b1: int, b2: int, b3: int) := (b[4 * j], b[4 * j + 1], b[4 * j + 2], b[4 * j + 3]);
    b0 + 256 * b1 + 65536 * b2 + 16777216 * b3
  }

  function PutWord(b: Block, j: nat, w: nat): (r: Block)
    requires j < 128 && w < UINT
  {
    b[4 * j := w % 256][4 * j + 1 := w / 256 % 256][4 * j + 2 := w / 65536 % 256][4 * j + 3 := w / 16777216]
  }

  lemma WordBytes(w: nat)
    requires w < UINT
    ensures w % 256 + 256 * (w / 256 % 256) + 65536 * (w / 65536 % 256) + 16777216 * (w / 16777216) == w
    ensures w / 16777216 < 256
  {
    assert w == 256 * (w / 256) + w % 256;
    assert w / 256 == 256 * (w / 65536) + w / 256 % 256;
    assert w / 65536 == 256 * (w / 16777216) + w / 65536 % 256;
  }

  lemma WordPut(b: Block, j: nat, w: nat, i: nat)
    requires j < 128 && w < UINT && i < 128
    ensures Word(PutWord(b, j, w), i) == if i == j then w else Word(b, i)
  {
    WordBytes(w);
  }

  /** The lowest byte of a word comes first. */
  lemma LowByteFirst(b: Block, j: nat, w: nat)
    requires j < 128 && w < UINT
    ensures PutWord(b, j, w)[4 * j] == w % 256
    ensures Word(PutWord(b, j, w), j) == w && (w < 256 ==> PutWord(b, j, w)[4 * j + 1] == 0 && PutWord(b, j, w)[4 * j + 3] == 0)
  {
    WordPut(b, j, w, j);
  }

  function PutWords(b: Block, j: nat, ws: seq<nat>): (r: Block)
    requires j + |ws| <= 128 && forall k :: 0 <= k < |ws| ==> ws[k] < UINT
  {
    if ws == [] then b
    else PutWord(PutWords(b, j, ws[..|ws| - 1]), j + |ws| - 1, ws[|ws| - 1])
  }

  lemma {:induction false} WordPutWords(b: Block, j: nat, ws: seq<nat>, i: nat)
    requires j + |ws| <= 128 && (forall k :: 0 <= k < |ws| ==> ws[k] < UINT) && i < 128
    ensures Word(PutWords(b, j, ws), i) == if j <= i < j + |ws| then ws[i - j] else Word(b, i)
  {
    if ws != [] {
      WordPutWords(b, j, ws[..|ws| - 1], i);
      WordPut(PutWords(b, j, ws[..|ws| - 1]), j + |ws| - 1, ws[|ws| - 1], i);
    }
  }

  lemma ZeroWord(j: nat)
    requires j < 128
    ensures Word(Zero(), j) == 0
  {
  }

  function WordsAt(b: Block, j: nat, n: nat): (ws: seq<nat>)
    requires j + n <= 128
    ensures |ws| == n
    ensures forall t :: 0 <= t < n ==> ws[t] == Word(b, j + t)
  {
    seq<nat>(n, t requires 0 <= t < n => Word(b, j + t))
  }
}
