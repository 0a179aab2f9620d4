/** Blocks of memory, for both allocators. */
module MemoryBlocks {
  type Blocks = map<nat, nat>      // start -> length

  predicate InBlock(blk: Blocks, h: nat, x: nat) { h in blk && h <= x < h + blk[h] }
}

/** Memory byte by byte, and the 64-bit little-endian words in it. */
module ByteMemory {
  import opened DiskBlocks

  type Memory = map<nat, Byte>

  const SIZE_T := 0x1_0000_0000_0000_0000

  function Rd(m: Memory, a: nat): Byte { if a in m then m[a] else 0 }

  function Pow(n: nat): nat { if n == 0 then 1 else 256 * Pow(n - 1) }

  function LoadN(m: Memory, a: nat, n: nat): nat
    decreases n
  {
    if n == 0 then 0 else (Rd(m, a) as int) + 256 * LoadN(m, a + 1, n - 1)
  }

  function StoreN(m: Memory, a: nat, w: nat, n: nat): Memory
    decreases n
  {
    if n == 0 then m else StoreN(m[a := w % 256], a + 1, w / 256, n - 1)
  }

  function Load(m: Memory, a: nat): nat { LoadN(m, a, 8) }

  function Store(m: Memory, a: nat, w: nat): Memory { StoreN(m, a, w, 8) }

  lemma {:induction false} StoreElsewhere(m: Memory, a: nat, w: nat, n: nat, x: nat)
    requires !(a <= x < a + n)
    ensures Rd(StoreN(m, a, w, n), x) == Rd(m, x)
    decreases n
  {
    if n > 0 { StoreElsewhere(m[a := w % 256], a + 1, w / 256, n - 1, x); }
  }

  lemma {:induction false} LoadFrame(m: Memory, m': Memory, a: nat, n: nat)
    requires forall x: nat :: a <= x < a + n ==> Rd(m', x) == Rd(m, x)
    ensures LoadN(m', a, n) == LoadN(m, a, n)
    decreases n
  {
    if n > 0 { LoadFrame(m, m', a + 1, n - 1); }
  }

  lemma {:induction false} LoadStored(m: Memory, a: nat, w: nat, n: nat)
    requires w < Pow(n)
    ensures LoadN(StoreN(m, a, w, n), a, n) == w
    decreases n
  {
    if n > 0 {
      StoreElsewhere(m[a := w % 256], a + 1, w / 256, n - 1, a);
      LoadStored(m[a := w % 256], a + 1, w / 256, n - 1);
    }
  }

  lemma EightBytes()
    ensures Pow(8) == SIZE_T
  {
    assert Pow(2) == 65536;
    assert Pow(4) == 0x1_0000_0000;
    assert Pow(6) == 0x1_0000_0000_0000;
  }

  /** A word stored is read back, and no byte around it changes. */
  lemma StoreLoad(m: Memory, a: nat, w: nat)
    requires w < SIZE_T
    ensures Load(Store(m, a, w), a) == w
    ensures forall x: nat :: !(a <= x < a + 8) ==> Rd(Store(m, a, w), x) == Rd(m, x)
  {
    EightBytes();
    LoadStored(m, a, w, 8);
    forall x: nat | !(a <= x < a + 8)
      ensures Rd(Store(m, a, w), x) == Rd(m, x)
    {
      StoreElsewhere(m, a, w, 8, x);
    }
  }

  lemma LoadSame(m: Memory, m': Memory, a: nat)
    requires forall x: nat :: a <= x < a + 8 ==> Rd(m', x) == Rd(m, x)
    ensures Load(m', a) == Load(m, a)
  {
    LoadFrame(m, m', a, 8);
  }
}
