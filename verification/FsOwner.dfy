/** Inodes, the blocks they point to, and the ownership invariant that ties the
    pointers to the free bitmap. */
module FsOwner {
  import opened Xv6Params
  import opened DiskBlocks
  import opened FsLayout

  /** The superblock fields used here; data is the first block past the bitmap. */
  datatype Super = Super(size: nat, ninodes: nat, inodestart: nat, bmapstart: nat, data: nat)

  predicate Geometry(sb: Super, nblocks: nat) {
    && sb.size <= nblocks <= UINT - 1
    && 0 < sb.inodestart
    && sb.inodestart + sb.ninodes / IPB < sb.bmapstart
    && sb.bmapstart + sb.size / BPB < sb.data <= sb.size
  }

  /** An inode: type and major number in `kind`, minor and link count in `links`. */
  datatype Ino = Ino(kind: nat, links: nat, size: nat, addrs: seq<nat>)

  type Inodes = map<nat, Ino>
  /** Which inode and which of its slots a block belongs to. */
  type Owner = map<nat, (nat, nat)>

  /** Slot n < MAXFILE is the n-th data block; slot INDIRECT is the indirect block. */
  const INDIRECT := MAXFILE

  predicate GoodIno(ino: Ino) {
    && |ino.addrs| == NDIRECT + 1
    && ino.kind < UINT && ino.links < UINT && ino.size < UINT
    && forall t :: 0 <= t <= NDIRECT ==> ino.addrs[t] < UINT
  }

  function BlockOf(d: Disk, ino: Ino, s: nat): nat
    requires |ino.addrs| == NDIRECT + 1 && s <= INDIRECT
  {
    if s < NDIRECT then ino.addrs[s]
    else if s == INDIRECT then ino.addrs[NDIRECT]
    else if 0 < ino.addrs[NDIRECT] < |d| then Word(d[ino.addrs[NDIRECT]], s - NDIRECT)
    else 0
  }

  // ----- the free bitmap

  predicate Used(sb: Super, d: Disk, b: nat)
    requires Geometry(sb, |d|) && b < sb.size
  {
    Bit(d[sb.bmapstart + b / BPB], b % BPB)
  }

  function MarkUsed(sb: Super, d: Disk, b: nat): (r: Disk)
    requires Geometry(sb, |d|) && b < sb.size && !Used(sb, d, b)
  {
    var bb := sb.bmapstart + b / BPB;
    d[bb := SetBit(d[bb], b % BPB)]
  }

  function MarkFree(sb: Super, d: Disk, b: nat): (r: Disk)
    requires Geometry(sb, |d|) && b < sb.size && Used(sb, d, b)
  {
    var bb := sb.bmapstart + b / BPB;
    d[bb := ClearBit(d[bb], b % BPB)]
  }

  lemma UsedAfterMark(sb: Super, d: Disk, b: nat, x: nat)
    requires Geometry(sb, |d|) && b < sb.size && x < sb.size
    ensures !Used(sb, d, b) ==> (Used(sb, MarkUsed(sb, d, b), x) <==> x == b || Used(sb, d, x))
    ensures Used(sb, d, b) ==> (Used(sb, MarkFree(sb, d, b), x) <==> x != b && Used(sb, d, x))
  {
    if x / BPB == b / BPB {
      var block := d[sb.bmapstart + b / BPB];
      if Used(sb, d, b) { BitCleared(block, b % BPB, x % BPB); } else { BitSet(block, b % BPB, x % BPB); }
    }
  }

  /** The used blocks are the metadata blocks and the blocks of `held`. */
  ghost predicate BitsOk(sb: Super, d: Disk, held: set<nat>) {
    && Geometry(sb, |d|)
    && (forall b :: b in held ==> sb.data <= b < sb.size)
    && (forall b :: 0 <= b < sb.size ==> (Used(sb, d, b) <==> b < sb.data || b in held))
  }

  /** Pointers and owners agree: every nonzero pointer is the one pointer to its block. */
  ghost predicate PtrsOk(sb: Super, d: Disk, inodes: Inodes, owner: Owner) {
    && Geometry(sb, |d|)
    && (forall i :: i in inodes ==> GoodIno(inodes[i]) && i < sb.ninodes)
    && (forall b :: b in owner ==>
          && sb.data <= b < sb.size
          && owner[b].0 in inodes && owner[b].1 <= INDIRECT
          && BlockOf(d, inodes[owner[b].0], owner[b].1) == b)
    && (forall i, s :: i in inodes && 0 <= s <= INDIRECT ==> Slotted(d, inodes[i], owner, i, s))
  }

  ghost predicate Slotted(d: Disk, ino: Ino, owner: Owner, i: nat, s: nat)
    requires |ino.addrs| == NDIRECT + 1 && s <= INDIRECT
  {
    var b := BlockOf(d, ino, s);
    b != 0 ==> b in owner && owner[b] == (i, s)
  }

  /** Block ownership, with the blocks of `transit` allocated but not yet, or no
      longer, pointed to. */
  ghost predicate Owned(sb: Super, d: Disk, inodes: Inodes, owner: Owner, transit: set<nat>) {
    && PtrsOk(sb, d, inodes, owner)
    && BitsOk(sb, d, owner.Keys + transit)
    && owner.Keys !! transit
  }

  /** Blocks nobody points to may change freely. */
  lemma PtrsFrame(sb: Super, d: Disk, d': Disk, inodes: Inodes, owner: Owner)
    requires PtrsOk(sb, d, inodes, owner) && |d'| == |d|
    requires forall b :: b in owner && owner[b].1 == INDIRECT ==> d'[b] == d[b]
    ensures PtrsOk(sb, d', inodes, owner)
    ensures forall i, s :: i in inodes && 0 <= s <= INDIRECT ==>
              BlockOf(d', inodes[i], s) == BlockOf(d, inodes[i], s)
  {
    forall i, s | i in inodes && 0 <= s <= INDIRECT
      ensures BlockOf(d', inodes[i], s) == BlockOf(d, inodes[i], s)
    {
      assert Slotted(d, inodes[i], owner, i, INDIRECT);
    }
    forall i, s | i in inodes && 0 <= s <= INDIRECT
      ensures Slotted(d', inodes[i], owner, i, s)
    {
      assert Slotted(d, inodes[i], owner, i, s);
    }
  }

  /** Allocation: a free block becomes used, zeroed and in transit. */
  lemma AllocKeepsOwned(sb: Super, d: Disk, inodes: Inodes, owner: Owner, b: nat)
    requires Owned(sb, d, inodes, owner, {}) && b < sb.size && !Used(sb, d, b)
    ensures var d' := MarkUsed(sb, d, b)[b := Zero()];
            && Owned(sb, d', inodes, owner, {b})
            && (forall x :: 0 <= x < |d| && x != b && !(sb.bmapstart <= x < sb.data) ==> d'[x] == d[x])
            && (forall x :: x in owner ==> d'[x] == d[x])
  {
    var d' := MarkUsed(sb, d, b)[b := Zero()];
    PtrsFrame(sb, d, d', inodes, owner);
    forall x | 0 <= x < sb.size
      ensures Used(sb, d', x) <==> x < sb.data || x in owner.Keys + {b}
    {
      UsedAfterMark(sb, d, b, x);
    }
  }

  /** Freeing a block in transit. */
  lemma FreeKeepsOwned(sb: Super, d: Disk, inodes: Inodes, owner: Owner, transit: set<nat>, b: nat)
    requires Owned(sb, d, inodes, owner, transit) && b in transit
    ensures Used(sb, d, b) && Owned(sb, MarkFree(sb, d, b), inodes, owner, transit - {b})
  {
    assert b in owner.Keys + transit;
    var d' := MarkFree(sb, d, b);
    PtrsFrame(sb, d, d', inodes, owner);
    forall x | 0 <= x < sb.size
      ensures Used(sb, d', x) <==> x < sb.data || x in owner.Keys + (transit - {b})
    {
      UsedAfterMark(sb, d, b, x);
      assert Used(sb, d, x) <==> x < sb.data || x in owner.Keys + transit;
    }
  }

  function SetAddr(ino: Ino, t: nat, b: nat): Ino
    requires |ino.addrs| == NDIRECT + 1 && t <= NDIRECT
  {
    ino.(addrs := ino.addrs[t := b])
  }

  /** Where in addrs slot s lives, for the slots kept there. */
  function AddrIndex(s: nat): nat
    requires s < NDIRECT || s == INDIRECT
  {
    if s == INDIRECT then NDIRECT else s
  }

  /** A block in transit becomes slot s of inode i by a store into ip->addrs. */
  lemma LinkInInode(sb: Super, d: Disk, inodes: Inodes, owner: Owner, b: nat, i: nat, s: nat)
    requires Owned(sb, d, inodes, owner, {b}) && d[b] == Zero()
    requires i in inodes && (s < NDIRECT || s == INDIRECT) && BlockOf(d, inodes[i], s) == 0
    ensures var ino' := SetAddr(inodes[i], AddrIndex(s), b);
            && Owned(sb, d, inodes[i := ino'], owner[b := (i, s)], {})
            && BlockOf(d, ino', s) == b
            && forall t :: 0 <= t <= INDIRECT && t != s ==> BlockOf(d, ino', t) == BlockOf(d, inodes[i], t)
  {
    var ino := inodes[i];
    var ino' := SetAddr(ino, AddrIndex(s), b);
    var inodes', owner' := inodes[i := ino'], owner[b := (i, s)];
    forall t | 0 <= t <= INDIRECT && t != s
      ensures BlockOf(d, ino', t) == BlockOf(d, ino, t)
    {
      if s == INDIRECT && NDIRECT <= t { ZeroWord(t - NDIRECT); }
    }
    forall x | x in owner'
      ensures owner'[x].0 in inodes' && BlockOf(d, inodes'[owner'[x].0], owner'[x].1) == x
    {
      if x != b { assert owner[x].0 == i ==> owner[x].1 != s; }
    }
    forall j, t | j in inodes' && 0 <= t <= INDIRECT
      ensures Slotted(d, inodes'[j], owner', j, t)
    {
      assert Slotted(d, inodes[j], owner, j, t);
    }
    assert owner'.Keys + {} == owner.Keys + {b};
  }

  /** A block in transit becomes data slot s of inode i by a store into its indirect block. */
  lemma LinkInIndirect(sb: Super, d: Disk, inodes: Inodes, owner: Owner, b: nat, i: nat, s: nat)
    requires Owned(sb, d, inodes, owner, {b})
    requires i in inodes && NDIRECT <= s < MAXFILE
    requires BlockOf(d, inodes[i], INDIRECT) != 0 && BlockOf(d, inodes[i], s) == 0
    ensures var ind := inodes[i].addrs[NDIRECT];
            && ind in owner && owner[ind] == (i, INDIRECT) && b < UINT
            && var d' := d[ind := PutWord(d[ind], s - NDIRECT, b)];
            && Owned(sb, d', inodes, owner[b := (i, s)], {})
            && BlockOf(d', inodes[i], s) == b
            && forall t :: 0 <= t <= INDIRECT && t != s ==> BlockOf(d', inodes[i], t) == BlockOf(d, inodes[i], t)
  {
    var ind := inodes[i].addrs[NDIRECT];
    assert Slotted(d, inodes[i], owner, i, INDIRECT);
    assert b in owner.Keys + {b};
    var d' := d[ind := PutWord(d[ind], s - NDIRECT, b)];
    forall t | 0 <= t <= INDIRECT
      ensures BlockOf(d', inodes[i], t) == if t == s then b else BlockOf(d, inodes[i], t)
    {
      if NDIRECT <= t < MAXFILE { WordPut(d[ind], s - NDIRECT, b, t - NDIRECT); }
    }
    IndirectPtrs(sb, d, inodes, owner, b, i, s, d');
    BitsFrame(sb, d, d', owner.Keys + {b});
    assert owner[b := (i, s)].Keys + {} == owner.Keys + {b};
  }

  lemma IndirectPtrs(sb: Super, d: Disk, inodes: Inodes, owner: Owner, b: nat, i: nat, s: nat, d': Disk)
    requires PtrsOk(sb, d, inodes, owner) && b !in owner && sb.data <= b < sb.size
    requires i in inodes && NDIRECT <= s < MAXFILE && BlockOf(d, inodes[i], s) == 0
    requires |d'| == |d| && forall x :: 0 <= x < |d| && x != inodes[i].addrs[NDIRECT] ==> d'[x] == d[x]
    requires forall t :: 0 <= t <= INDIRECT ==>
               BlockOf(d', inodes[i], t) == if t == s then b else BlockOf(d, inodes[i], t)
    ensures PtrsOk(sb, d', inodes, owner[b := (i, s)])
  {
    var owner' := owner[b := (i, s)];
    assert Slotted(d, inodes[i], owner, i, INDIRECT);
    forall j, t | j in inodes && j != i && 0 <= t <= INDIRECT
      ensures BlockOf(d', inodes[j], t) == BlockOf(d, inodes[j], t)
    {
      assert Slotted(d, inodes[j], owner, j, INDIRECT);
    }
    forall j, t | j in inodes && 0 <= t <= INDIRECT
      ensures Slotted(d', inodes[j], owner', j, t)
    {
      assert Slotted(d, inodes[j], owner, j, t);
    }
    forall x | x in owner'
      ensures BlockOf(d', inodes[owner'[x].0], owner'[x].1) == x
    {
      if x != b { assert owner[x].0 == i ==> owner[x].1 != s; }
    }
  }

  /** The bitmap does not change when blocks outside it do. */
  lemma BitsFrame(sb: Super, d: Disk, d': Disk, held: set<nat>)
    requires BitsOk(sb, d, held) && |d'| == |d|
    requires forall b :: sb.bmapstart <= b < sb.data ==> d'[b] == d[b]
    ensures BitsOk(sb, d', held)
  {
    forall b | 0 <= b < sb.size
      ensures Used(sb, d', b) <==> b < sb.data || b in held
    {
      assert Used(sb, d, b) <==> b < sb.data || b in held;
    }
  }

  // ----- file contents

  /** The block of a file that position p is in, and where in that block. */
  function Bn(p: nat): (q: nat)
    ensures 512 * q <= p < 512 * q + 512
  {
    p / 512
  }

  function At(p: nat): (r: nat)
    ensures r < 512 && p == 512 * Bn(p) + r
  {
    p % 512
  }

  /** How many blocks `size` bytes take. */
  function CeilBlocks(size: nat): (n: nat)
    ensures 512 * n - 512 < size <= 512 * n
  {
    (size + 511) / 512
  }

  /** The inode has exactly its first k data blocks, and its indirect block exactly if
      one of them needs it. */
  ghost predicate Extent(d: Disk, ino: Ino, k: nat)
    requires |ino.addrs| == NDIRECT + 1
  {
    && k <= MAXFILE
    && (forall s :: 0 <= s < MAXFILE ==> (BlockOf(d, ino, s) != 0 <==> s < k))
    && (BlockOf(d, ino, INDIRECT) != 0 <==> k > NDIRECT)
  }

  /** Position p of a file; a hole reads as zeros, which is what bmap would put there. */
  function ByteAt(d: Disk, ino: Ino, p: nat): Byte
    requires |ino.addrs| == NDIRECT + 1
  {
    if Bn(p) < MAXFILE && 0 < BlockOf(d, ino, Bn(p)) < |d|
    then d[BlockOf(d, ino, Bn(p))][At(p)]
    else 0
  }

  /** The bytes of a file. */
  function Content(d: Disk, ino: Ino): (c: seq<Byte>)
    requires |ino.addrs| == NDIRECT + 1
    ensures |c| == ino.size
  {
    seq(ino.size, p requires 0 <= p < ino.size => ByteAt(d, ino, p))
  }

  /** An inode whose blocks did not change has the same content. */
  lemma ContentFrame(sb: Super, d: Disk, d': Disk, inodes: Inodes, owner: Owner, i: nat)
    requires PtrsOk(sb, d, inodes, owner) && |d'| == |d| && i in inodes
    requires forall b :: b in owner && owner[b].0 == i ==> d'[b] == d[b]
    ensures forall s :: 0 <= s <= INDIRECT ==> BlockOf(d', inodes[i], s) == BlockOf(d, inodes[i], s)
    ensures forall p: nat :: ByteAt(d', inodes[i], p) == ByteAt(d, inodes[i], p)
    ensures Content(d', inodes[i]) == Content(d, inodes[i])
  {
    assert Slotted(d, inodes[i], owner, i, INDIRECT);
    forall p: nat
      ensures ByteAt(d', inodes[i], p) == ByteAt(d, inodes[i], p)
    {
      if Bn(p) < MAXFILE { assert Slotted(d, inodes[i], owner, i, Bn(p)); }
    }
  }

  // ----- inodes on disk

  function InodeBlock(sb: Super, i: nat): nat { i / IPB + sb.inodestart }

  /** The 16 words of a dinode. */
  function DinodeWords(ino: Ino): (ws: seq<nat>)
    requires GoodIno(ino)
    ensures |ws| == 16 && forall k :: 0 <= k < 16 ==> ws[k] < UINT
  {
    [ino.kind, ino.links, ino.size] + ino.addrs
  }

  function ReadDinode(b: Block, k: nat): (ino: Ino)
    requires k < IPB
    ensures GoodIno(ino)
  {
    var ws := WordsAt(b, 16 * k, 16);
    Ino(ws[0], ws[1], ws[2], ws[3..])
  }

  lemma {:induction false} DinodeWord(b: Block, k: nat, ws: seq<nat>, j: nat, t: nat)
    requires k < IPB && j < IPB && |ws| == 16 && t < 16 && forall u :: 0 <= u < 16 ==> ws[u] < UINT
    ensures Word(PutWords(b, 16 * k, ws), 16 * j + t) == if j == k then ws[t] else Word(b, 16 * j + t)
  {
    WordPutWords(b, 16 * k, ws, 16 * j + t);
  }

  lemma DinodeRoundTrip(b: Block, k: nat, ino: Ino, j: nat)
    requires k < IPB && j < IPB && GoodIno(ino)
    ensures ReadDinode(PutWords(b, 16 * k, DinodeWords(ino)), j) == if j == k then ino else ReadDinode(b, j)
  {
    var ws := DinodeWords(ino);
    var r := PutWords(b, 16 * k, ws);
    var want := if j == k then ws else WordsAt(b, 16 * j, 16);
    forall t: nat | t < 16
      ensures WordsAt(r, 16 * j, 16)[t] == want[t]
    {
      DinodeWord(b, k, ws, j, t);
    }
    assert WordsAt(r, 16 * j, 16) == want;
    assert ws[3..] == ino.addrs;
  }

  /** struct dinode: inode i is the 64 bytes from 64 i of the inode area on, and the size and the
      addresses follow type, numbers and link count. */
  lemma DinodePlace(sb: Super, b: Block, i: nat, ino: Ino, t: nat)
    requires GoodIno(ino) && t <= NDIRECT
    ensures BSIZE * (InodeBlock(sb, i) - sb.inodestart) + 64 * (i % IPB) == 64 * i
    ensures var r := PutWords(b, 16 * (i % IPB), DinodeWords(ino));
            && Word(r, 16 * (i % IPB)) == ino.kind && Word(r, 16 * (i % IPB) + 1) == ino.links
            && Word(r, 16 * (i % IPB) + 2) == ino.size && Word(r, 16 * (i % IPB) + 3 + t) == ino.addrs[t]
  {
    var (k, ws) := (i % IPB, DinodeWords(ino));
    DinodeWord(b, k, ws, k, 0);
    DinodeWord(b, k, ws, k, 1);
    DinodeWord(b, k, ws, k, 2);
    DinodeWord(b, k, ws, k, 3 + t);
  }

  /** The bit of block x is bit x % 8 of byte x / 8 of the bitmap, and the block numbers in an
      indirect block are its words, in order. */
  lemma BitmapPlace(sb: Super, d: Disk, x: nat)
    requires Geometry(sb, |d|) && x < sb.size
    ensures BSIZE * (x / BPB) + x % BPB / 8 == x / 8 && x % BPB % 8 == x % 8
    ensures var (byte, m) := (d[sb.bmapstart + x / BPB][x % BPB / 8], Mask(x % 8)); Used(sb, d, x) <==> byte / m % 2 == 1
  {
    BitIs(d[sb.bmapstart + x / BPB][x % BPB / 8], x % 8);
  }

  lemma IndirectPlace(d: Disk, ino: Ino, s: nat)
    requires |ino.addrs| == NDIRECT + 1 && s < 128 && 0 < ino.addrs[12] < |d|
    ensures BlockOf(d, ino, 12 + s) == Word(d[ino.addrs[12]], s) && (s < 12 ==> BlockOf(d, ino, s) == ino.addrs[s])
  {
  }

  predicate Synced(sb: Super, d: Disk, inodes: Inodes, i: nat)
    requires Geometry(sb, |d|) && i in inodes && i < sb.ninodes
  {
    ReadDinode(d[InodeBlock(sb, i)], i % IPB) == inodes[i]
  }
}
