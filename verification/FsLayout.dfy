/** The on-disk structures of the xv6 file system: sizes of fs.h and the bits of the free
    bitmap. */
module FsLayout {
  import opened DiskBlocks

  const NDIRECT := 12
  const NINDIRECT := 128
  const MAXFILE := 140
  const BPB := 4096
  const IPB := 8

  // ----- bits of a bitmap block

  /** `1 << k`. */
  function Mask(k: nat): (m: nat)
    ensures m > 0
  {
    if k == 0 then 1 else 2 * Mask(k - 1)
  }

  /** `x & (1 << k)` is nonzero. */
  predicate BitOf(x: nat, k: nat) {
    if k == 0 then x % 2 == 1 else BitOf(x / 2, k - 1)
  }

  /** Adding a mask at a clear bit sets that bit and no other. */
  lemma {:induction false} BitAdd(x: nat, k: nat, j: nat)
    requires !BitOf(x, k)
    ensures BitOf(x + Mask(k), j) <==> j == k || BitOf(x, j)
    decreases k
  {
    if k == 0 {
      assert (x + 1) / 2 == x / 2;
    } else {
      assert (x + Mask(k)) / 2 == x / 2 + Mask(k - 1);
      if j > 0 { BitAdd(x / 2, k - 1, j - 1); }
    }
  }

  lemma {:induction false} BitSubtract(x: nat, k: nat)
    requires BitOf(x, k)
    ensures x >= Mask(k) && !BitOf(x - Mask(k), k)
  {
    if k > 0 {
      BitSubtract(x / 2, k - 1);
      assert (x - Mask(k)) / 2 == x / 2 - Mask(k - 1);
    }
  }

  /** A clear bit below position n leaves room for its mask in an n-bit number. */
  lemma {:induction false} BitFits(x: nat, k: nat, n: nat)
    requires !BitOf(x, k) && k < n && x < Mask(n)
    ensures x + Mask(k) < Mask(n)
  {
    if k == 0 {
      assert Mask(n) == 2 * Mask(n - 1);
    } else {
      BitFits(x / 2, k - 1, n - 1);
    }
  }

  lemma {:induction false} BitIs(x: nat, k: nat)
    requires k < 8
    ensures BitOf(x, k) <==> x / Mask(k) % 2 == 1
  {
    if k > 0 {
      BitIs(x / 2, k - 1);
      SmallMask(k - 1);
      assert x / 2 / Mask(k - 1) == x / (2 * Mask(k - 1));
    }
  }

  lemma SmallMask(k: nat)
    requires k < 7
    ensures Mask(k) == if k == 0 then 1 else if k == 1 then 2 else if k == 2 then 4 else if k == 3 then 8
                       else if k == 4 then 16 else if k == 5 then 32 else 64
  {
    assert Mask(2) == 4 && Mask(4) == 16;
  }

  lemma ByteMask()
    ensures Mask(8) == 256
  {
    assert Mask(4) == 16;
    assert Mask(6) == 64;
  }

  predicate Bit(b: Block, i: nat)
    requires i < BPB
  {
    BitOf(b[i / 8], i % 8)
  }

  /** `data[i/8] |= m` on a clear bit. */
  function SetBit(b: Block, i: nat): (r: Block)
    requires i < BPB && !Bit(b, i)
  {
    ByteMask();
    BitFits(b[i / 8], i % 8, 8);
    var x: int := b[i / 8];
    b[i / 8 := x + Mask(i % 8)]
  }

  /** `data[i/8] &= ~m` on a set bit. */
  function ClearBit(b: Block, i: nat): (r: Block)
    requires i < BPB && Bit(b, i)
  {
    BitSubtract(b[i / 8], i % 8);
    var x: int := b[i / 8];
    b[i / 8 := x - Mask(i % 8)]
  }

  lemma BitSet(b: Block, i: nat, j: nat)
    requires i < BPB && j < BPB && !Bit(b, i)
    ensures Bit(SetBit(b, i), j) <==> j == i || Bit(b, j)
  {
    if j / 8 == i / 8 {
      BitAdd(b[i / 8], i % 8, j % 8);
    }
  }

  lemma BitCleared(b: Block, i: nat, j: nat)
    requires i < BPB && j < BPB && Bit(b, i)
    ensures Bit(ClearBit(b, i), j) <==> j != i && Bit(b, j)
  {
    BitSubtract(b[i / 8], i % 8);
    if j / 8 == i / 8 {
      BitAdd(b[i / 8] - Mask(i % 8), i % 8, j % 8);
    }
  }
}
