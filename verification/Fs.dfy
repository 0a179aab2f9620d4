/** fs.c: block allocation, bmap, itrunc, readi and writei over the logical disk that
    the buffer cache and the log present. */
module Fs {
  import opened Xv6Params
  import opened DiskBlocks
  import opened FsLayout
  import opened FsOwner
  import opened Counting

  // ----- what one bmap may change

  predicate ZeroAt(d: Disk, b: nat) {
    b < |d| && d[b] == Zero()
  }

  predicate SameMeta(x: Ino, y: Ino) {
    x.kind == y.kind && x.links == y.links && x.size == y.size
  }

  /** From state 0 to state 1 only inode i's pointers, its data and fresh blocks changed. */
  ghost predicate OnlyInode(sb: Super, d0: Disk, n0: Inodes, o0: Owner, d1: Disk, n1: Inodes, o1: Owner, i: nat)
  {
    && |d1| == |d0|
    && i in n0 && i in n1
    && n1 == n0[i := n1[i]]
    && SameMeta(n1[i], n0[i])
    && (forall b :: b in o0 ==> b in o1 && o1[b] == o0[b])
    && (forall b :: b in o1 && b !in o0 ==> o1[b].0 == i)
    && (forall b :: b in o0 && b < |d0| && o0[b].0 != i ==> d1[b] == d0[b])
    && (forall b :: 0 <= b < sb.bmapstart && b < |d0| ==> d1[b] == d0[b])
  }

  /** State 1 is state 0 after inode i has been given fresh blocks for exactly `slots`:
      its other slots are as they were, and new data blocks are zero. */
  ghost predicate Grew(sb: Super, d0: Disk, n0: Inodes, o0: Owner, d1: Disk, n1: Inodes, o1: Owner,
                       i: nat, slots: set<nat>)
  {
    && Owned(sb, d1, n1, o1, {})
    && OnlyInode(sb, d0, n0, o0, d1, n1, o1, i)
    && |n0[i].addrs| == NDIRECT + 1
    && (forall s :: 0 <= s <= INDIRECT && s !in slots ==> BlockOf(d1, n1[i], s) == BlockOf(d0, n0[i], s))
    && (forall s :: 0 <= s <= INDIRECT && s in slots ==> BlockOf(d0, n0[i], s) == 0 && BlockOf(d1, n1[i], s) != 0)
    && (forall s :: 0 <= s < MAXFILE && s in slots ==> ZeroAt(d1, BlockOf(d1, n1[i], s)))
    && (forall b :: b in o1 && b !in o0 ==> o1[b].1 in slots)
    && (forall b :: b in o0 && b < |d0| && o0[b] != (i, INDIRECT) ==> d1[b] == d0[b])
  }

  lemma OnlyInodeTrans(sb: Super, d0: Disk, n0: Inodes, o0: Owner, d1: Disk, n1: Inodes, o1: Owner,
                       d2: Disk, n2: Inodes, o2: Owner, i: nat)
    requires OnlyInode(sb, d0, n0, o0, d1, n1, o1, i) && OnlyInode(sb, d1, n1, o1, d2, n2, o2, i)
    ensures OnlyInode(sb, d0, n0, o0, d2, n2, o2, i)
  {
    assert n2 == n0[i := n2[i]];
  }

  lemma GrewFacts(sb: Super, d0: Disk, n0: Inodes, o0: Owner, d1: Disk, n1: Inodes, o1: Owner, i: nat, slots: set<nat>)
    requires Grew(sb, d0, n0, o0, d1, n1, o1, i, slots)
    ensures Owned(sb, d1, n1, o1, {}) && OnlyInode(sb, d0, n0, o0, d1, n1, o1, i)
    ensures i in n0 && i in n1 && |n1[i].addrs| == NDIRECT + 1 && PtrsOk(sb, d1, n1, o1)
    ensures Geometry(sb, |d1|) && n1[i].size == n0[i].size && |d1| == |d0|
    ensures forall b :: b in o1 ==> sb.data <= b < |d1|
  {
    OnlyInodeFacts(sb, d0, n0, o0, d1, n1, o1, i);
  }

  lemma OnlyInodeFacts(sb: Super, d0: Disk, n0: Inodes, o0: Owner, d1: Disk, n1: Inodes, o1: Owner, i: nat)
    requires Owned(sb, d1, n1, o1, {}) && OnlyInode(sb, d0, n0, o0, d1, n1, o1, i)
    ensures i in n0 && i in n1 && |n1[i].addrs| == NDIRECT + 1 && PtrsOk(sb, d1, n1, o1)
    ensures Geometry(sb, |d1|) && n1[i].size == n0[i].size && |d1| == |d0|
    ensures forall b :: b in o1 ==> sb.data <= b < |d1|
    ensures n1.Keys == n0.Keys && i < sb.ninodes && SameMeta(n1[i], n0[i])
    ensures forall j :: j in n1 && j != i ==> n1[j] == n0[j]
    ensures forall j :: j in n1 ==> |n1[j].addrs| == NDIRECT + 1
  {
  }

  lemma OnlyInodeBelow(sb: Super, d0: Disk, n0: Inodes, o0: Owner, d1: Disk, n1: Inodes, o1: Owner, i: nat)
    requires Geometry(sb, |d1|) && OnlyInode(sb, d0, n0, o0, d1, n1, o1, i)
    ensures forall b :: 0 <= b < sb.bmapstart ==> d1[b] == d0[b]
  {
  }

  lemma GrewNothing(sb: Super, d: Disk, n: Inodes, o: Owner, i: nat)
    requires Owned(sb, d, n, o, {}) && i in n
    ensures Grew(sb, d, n, o, d, n, o, i, {})
  {
  }

  lemma GrewTwice(sb: Super, d0: Disk, n0: Inodes, o0: Owner, d1: Disk, n1: Inodes, o1: Owner,
                  d2: Disk, n2: Inodes, o2: Owner, i: nat, s: nat)
    requires Grew(sb, d0, n0, o0, d1, n1, o1, i, {INDIRECT})
    requires s < MAXFILE && Grew(sb, d1, n1, o1, d2, n2, o2, i, {s})
    requires forall b :: b in o0 ==> b < |d0|
    ensures Grew(sb, d0, n0, o0, d2, n2, o2, i, {s, INDIRECT})
  {
    hide Owned, OnlyInode, BlockOf;
    OnlyInodeTrans(sb, d0, n0, o0, d1, n1, o1, d2, n2, o2, i);
    OwnersKept(sb, d0, n0, o0, d1, n1, o1, i);
    OwnersKept(sb, d1, n1, o1, d2, n2, o2, i);
  }

  lemma OwnersKept(sb: Super, d0: Disk, n0: Inodes, o0: Owner, d1: Disk, n1: Inodes, o1: Owner, i: nat)
    requires OnlyInode(sb, d0, n0, o0, d1, n1, o1, i)
    ensures |d1| == |d0| && i in n0 && i in n1 && forall b :: b in o0 ==> b in o1 && o1[b] == o0[b]
  {
  }

  /** What growing by slot s says about it. */
  lemma GrewOne(sb: Super, d0: Disk, n0: Inodes, o0: Owner, d1: Disk, n1: Inodes, o1: Owner, i: nat, s: nat)
    requires Grew(sb, d0, n0, o0, d1, n1, o1, i, {s}) && s <= INDIRECT
    ensures Owned(sb, d1, n1, o1, {}) && i in n1 && |n1[i].addrs| == NDIRECT + 1 && BlockOf(d1, n1[i], s) != 0
  {
  }

  /** A fresh indirect block points nowhere. */
  lemma GrewIndirect(sb: Super, d0: Disk, n0: Inodes, o0: Owner, d1: Disk, n1: Inodes, o1: Owner, i: nat, bn: nat)
    requires Grew(sb, d0, n0, o0, d1, n1, o1, i, {INDIRECT}) && NDIRECT <= bn < MAXFILE && i in n0
    requires |n0[i].addrs| == NDIRECT + 1 && n0[i].addrs[NDIRECT] == 0
    ensures |n1[i].addrs| == NDIRECT + 1 && BlockOf(d1, n1[i], bn) == 0
  {
  }

  lemma GrowInInode(sb: Super, d: Disk, n: Inodes, o: Owner, b: nat, i: nat, s: nat)
    requires Owned(sb, d, n, o, {}) && b < sb.size && !Used(sb, d, b)
    requires i in n && (s < NDIRECT || s == INDIRECT) && BlockOf(d, n[i], s) == 0
    ensures var d1 := MarkUsed(sb, d, b)[b := Zero()];
            var n1 := n[i := SetAddr(n[i], AddrIndex(s), b)];
            Grew(sb, d, n, o, d1, n1, o[b := (i, s)], i, {s}) && BlockOf(d1, n1[i], s) == b
  {
    var d1 := MarkUsed(sb, d, b)[b := Zero()];
    AllocKeepsOwned(sb, d, n, o, b);
    PtrsFrame(sb, d, d1, n, o);
    LinkedInInode(sb, d1, n, o, b, i, s);
    GrewSince(sb, d, d1, n, o, d1, n[i := SetAddr(n[i], AddrIndex(s), b)], o[b := (i, s)], i, {s});
  }

  lemma LinkedInInode(sb: Super, d: Disk, n: Inodes, o: Owner, b: nat, i: nat, s: nat)
    requires Owned(sb, d, n, o, {b}) && d[b] == Zero()
    requires i in n && (s < NDIRECT || s == INDIRECT) && BlockOf(d, n[i], s) == 0
    ensures var n1 := n[i := SetAddr(n[i], AddrIndex(s), b)];
            Grew(sb, d, n, o, d, n1, o[b := (i, s)], i, {s}) && BlockOf(d, n1[i], s) == b
  {
    LinkInInode(sb, d, n, o, b, i, s);
  }

  lemma GrowInIndirect(sb: Super, d: Disk, n: Inodes, o: Owner, b: nat, i: nat, s: nat)
    requires Owned(sb, d, n, o, {}) && b < sb.size && !Used(sb, d, b)
    requires i in n && NDIRECT <= s < MAXFILE
    requires BlockOf(d, n[i], INDIRECT) != 0 && BlockOf(d, n[i], s) == 0
    ensures var d1 := MarkUsed(sb, d, b)[b := Zero()];
            var ind := n[i].addrs[NDIRECT];
            && ind < |d| && b < UINT
            && var d2 := d1[ind := PutWord(d1[ind], s - NDIRECT, b)];
            Grew(sb, d, n, o, d2, n, o[b := (i, s)], i, {s}) && BlockOf(d2, n[i], s) == b
  {
    var d1 := MarkUsed(sb, d, b)[b := Zero()];
    AllocKeepsOwned(sb, d, n, o, b);
    PtrsFrame(sb, d, d1, n, o);
    LinkedInIndirect(sb, d1, n, o, b, i, s);
    var ind := n[i].addrs[NDIRECT];
    var d2 := d1[ind := PutWord(d1[ind], s - NDIRECT, b)];
    GrewSince(sb, d, d1, n, o, d2, n, o[b := (i, s)], i, {s});
  }

  /** Growth counts from an earlier disk that shows the same files. */
  lemma GrewSince(sb: Super, d: Disk, d1: Disk, n: Inodes, o: Owner, d2: Disk, n2: Inodes, o2: Owner,
                  i: nat, slots: set<nat>)
    requires i in n && |n[i].addrs| == NDIRECT + 1 && |d1| == |d|
    requires forall t :: 0 <= t <= INDIRECT ==> BlockOf(d1, n[i], t) == BlockOf(d, n[i], t)
    requires forall x :: x in o && x < |d| ==> d1[x] == d[x]
    requires forall x :: 0 <= x < sb.bmapstart && x < |d| ==> d1[x] == d[x]
    requires Grew(sb, d1, n, o, d2, n2, o2, i, slots)
    ensures Grew(sb, d, n, o, d2, n2, o2, i, slots)
  {
    hide Owned, BlockOf;
  }

  lemma LinkedInIndirect(sb: Super, d: Disk, n: Inodes, o: Owner, b: nat, i: nat, s: nat)
    requires Owned(sb, d, n, o, {b}) && d[b] == Zero()
    requires i in n && NDIRECT <= s < MAXFILE
    requires BlockOf(d, n[i], INDIRECT) != 0 && BlockOf(d, n[i], s) == 0
    ensures var ind := n[i].addrs[NDIRECT];
            && ind < |d| && b < UINT
            && var d2 := d[ind := PutWord(d[ind], s - NDIRECT, b)];
            Grew(sb, d, n, o, d2, n, o[b := (i, s)], i, {s}) && BlockOf(d2, n[i], s) == b
  {
    hide PutWord, BlockOf, Slotted;
    LinkInIndirect(sb, d, n, o, b, i, s);
    assert b in o.Keys + {b};
    assert n[i := n[i]] == n;
  }

  /** Writing a block below the data area, outside the bitmap, keeps ownership. */
  lemma InodeBlockWrite(sb: Super, d: Disk, n: Inodes, o: Owner, at: nat, data: Block)
    requires Owned(sb, d, n, o, {}) && sb.inodestart <= at < sb.bmapstart
    ensures Owned(sb, d[at := data], n, o, {})
  {
    PtrsFrame(sb, d, d[at := data], n, o);
    BitsFrame(sb, d, d[at := data], o.Keys + {});
  }

  // ----- what a partly done writei has changed

  function Max(a: nat, b: nat): nat { if a < b then b else a }

  /** Bytes off .. off+tot of the file are those of src; all others are as they were. */
  ghost predicate BytesWritten(d0: Disk, ino0: Ino, d1: Disk, ino1: Ino, off: nat, src: seq<Byte>, tot: nat)
    requires |ino0.addrs| == NDIRECT + 1 && |ino1.addrs| == NDIRECT + 1 && tot <= |src|
  {
    forall p :: 0 <= p < Max(ino0.size, off + tot) ==>
      ByteAt(d1, ino1, p) == if off <= p < off + tot then src[p - off] else ByteAt(d0, ino0, p)
  }

  /** Whether writing n bytes at off goes through pointer t of the inode. */
  predicate Touches(off: nat, n: nat, t: nat) {
    n > 0 && if t < NDIRECT then off < 512 * t + 512 && 512 * t < off + n else 512 * NDIRECT < off + n
  }

  /** The pointers of the inode that a write of n bytes at off uses are set. */
  predicate SlotsSet(ino: Ino, off: nat, n: nat)
    requires |ino.addrs| == NDIRECT + 1
  {
    forall t :: 0 <= t <= NDIRECT && Touches(off, n, t) ==> ino.addrs[t] != 0
  }

  /** Of the unset pointers, exactly those the write goes through have been set. */
  ghost predicate PointersSet(ino0: Ino, ino1: Ino, off: nat, n: nat)
    requires |ino0.addrs| == NDIRECT + 1 && |ino1.addrs| == NDIRECT + 1
  {
    forall t :: 0 <= t <= NDIRECT ==>
      if ino0.addrs[t] != 0 then ino1.addrs[t] == ino0.addrs[t] else (ino1.addrs[t] != 0 <==> Touches(off, n, t))
  }

  /** State 1 is state 0 after a write of src at off into inode i has copied its first
      tot bytes, before the size is updated. */
  ghost predicate Writing(sb: Super, d0: Disk, n0: Inodes, o0: Owner, d1: Disk, n1: Inodes, o1: Owner,
                          i: nat, off: nat, src: seq<Byte>, tot: nat)
  {
    && tot <= |src|
    && Owned(sb, d1, n1, o1, {})
    && OnlyInode(sb, d0, n0, o0, d1, n1, o1, i)
    && |n0[i].addrs| == NDIRECT + 1 && |n1[i].addrs| == NDIRECT + 1
    && off <= n0[i].size
    && (Extent(d0, n0[i], CeilBlocks(n0[i].size)) ==> Extent(d1, n1[i], CeilBlocks(Max(n0[i].size, off + tot))))
    && PointersSet(n0[i], n1[i], off, tot)
    && BytesWritten(d0, n0[i], d1, n1[i], off, src, tot)
  }

  function Overwrite(b: Block, at: nat, bytes: seq<Byte>): (r: Block)
    requires at + |bytes| <= BSIZE
  {
    b[..at] + bytes + b[at + |bytes|..]
  }

  /** The blocks bmap has to allocate to map block bn. */
  function Missing(d: Disk, ino: Ino, bn: nat): set<nat>
    requires |ino.addrs| == NDIRECT + 1 && bn < MAXFILE
  {
    (if BlockOf(d, ino, bn) == 0 then {bn} else {}) +
    (if NDIRECT <= bn && BlockOf(d, ino, INDIRECT) == 0 then {INDIRECT} else {})
  }

  lemma MissingIs(d: Disk, ino: Ino, bn: nat)
    requires |ino.addrs| == NDIRECT + 1 && bn < MAXFILE
    ensures bn < NDIRECT || BlockOf(d, ino, INDIRECT) != 0 ==>
              Missing(d, ino, bn) == if BlockOf(d, ino, bn) == 0 then {bn} else {}
    ensures NDIRECT <= bn && BlockOf(d, ino, INDIRECT) == 0 ==> Missing(d, ino, bn) == {bn, INDIRECT}
  {
  }

  /** Growth keeps every byte of the file: where there was a hole there are zeros. */
  lemma GrewBytes(sb: Super, d0: Disk, n0: Inodes, o0: Owner, d1: Disk, n1: Inodes, o1: Owner,
                  i: nat, slots: set<nat>, p: nat)
    requires PtrsOk(sb, d0, n0, o0) && Grew(sb, d0, n0, o0, d1, n1, o1, i, slots)
    ensures |n1[i].addrs| == NDIRECT + 1 && ByteAt(d1, n1[i], p) == ByteAt(d0, n0[i], p)
  {
    hide PtrsOk, Grew, BlockOf;
    GrewFacts(sb, d0, n0, o0, d1, n1, o1, i, slots);
    if Bn(p) < MAXFILE { GrewBlock(sb, d0, n0, o0, d1, n1, o1, i, slots, Bn(p)); }
  }

  /** A block of the file is where it was, as it was, or it is new and zero. */
  lemma GrewBlock(sb: Super, d0: Disk, n0: Inodes, o0: Owner, d1: Disk, n1: Inodes, o1: Owner,
                  i: nat, slots: set<nat>, q: nat)
    requires PtrsOk(sb, d0, n0, o0) && Grew(sb, d0, n0, o0, d1, n1, o1, i, slots) && q < MAXFILE
    ensures |n1[i].addrs| == |n0[i].addrs| == NDIRECT + 1
    ensures var (b0, b1) := (BlockOf(d0, n0[i], q), BlockOf(d1, n1[i], q));
            if b0 == 0 then b1 == 0 || ZeroAt(d1, b1) else b1 == b0 < |d0| && d1[b1] == d0[b0]
  {
    hide Owned, BlockOf;
    GrewFacts(sb, d0, n0, o0, d1, n1, o1, i, slots);
    assert Slotted(d0, n0[i], o0, i, q);
  }

  /** Mapping block bn sets the pointer on its way and no other. */
  lemma GrewPointers(sb: Super, d1: Disk, n1: Inodes, o1: Owner, d2: Disk, n2: Inodes, o2: Owner,
                     i: nat, ino0: Ino, off: nat, tot: nat, m: nat)
    requires |ino0.addrs| == NDIRECT + 1 && i in n1 && |n1[i].addrs| == NDIRECT + 1 && PointersSet(ino0, n1[i], off, tot)
    requires Bn(off + tot) < MAXFILE && Grew(sb, d1, n1, o1, d2, n2, o2, i, Missing(d1, n1[i], Bn(off + tot)))
    requires m > 0 && At(off + tot) + m <= BSIZE
    ensures |n2[i].addrs| == NDIRECT + 1 && PointersSet(ino0, n2[i], off, tot + m)
  {
    var bn := Bn(off + tot);
    var slots := Missing(d1, n1[i], bn);
    forall t | 0 <= t <= NDIRECT
      ensures n2[i].addrs[t] == n1[i].addrs[t] || (n1[i].addrs[t] == 0 && n2[i].addrs[t] != 0 && t == Pointer(bn))
      ensures t == Pointer(bn) ==> n2[i].addrs[t] != 0
    {
      var s := if t < NDIRECT then t else INDIRECT;
      assert BlockOf(d1, n1[i], s) == n1[i].addrs[t] && BlockOf(d2, n2[i], s) == n2[i].addrs[t];
    }
    forall t | 0 <= t <= NDIRECT
      ensures Touches(off, tot + m, t) <==> Touches(off, tot, t) || t == Pointer(bn)
    {
      TouchMore(off, tot, m, t);
    }
  }

  /** The pointer of the inode that leads to block bn. */
  function Pointer(bn: nat): nat { if bn < NDIRECT then bn else NDIRECT }

  lemma TouchMore(off: nat, tot: nat, m: nat, t: nat)
    requires m > 0 && At(off + tot) + m <= BSIZE && t <= NDIRECT
    ensures Touches(off, tot + m, t) <==> Touches(off, tot, t) || t == Pointer(Bn(off + tot))
  {
    assert off + tot == 512 * Bn(off + tot) + At(off + tot);
  }

  /** Mapping block bn of a file with k blocks gives it bn+1 blocks, or leaves it alone. */
  lemma GrewExtent(sb: Super, d0: Disk, n0: Inodes, o0: Owner, d1: Disk, n1: Inodes, o1: Owner,
                   i: nat, bn: nat, k: nat)
    requires i in n0 && |n0[i].addrs| == NDIRECT + 1 && Extent(d0, n0[i], k) && bn <= k && bn < MAXFILE
    requires Grew(sb, d0, n0, o0, d1, n1, o1, i, Missing(d0, n0[i], bn))
    ensures Extent(d1, n1[i], Max(k, bn + 1))
  {
    forall s | 0 <= s < MAXFILE
      ensures BlockOf(d1, n1[i], s) != 0 <==> s < Max(k, bn + 1)
    {
      assert s in Missing(d0, n0[i], bn) <==> s == bn == k;
    }
    assert INDIRECT in Missing(d0, n0[i], bn) <==> bn == k == NDIRECT;
  }

  /** Overwriting a data block of inode i keeps ownership and every block pointer. */
  lemma OverwriteKeepsOwned(sb: Super, d: Disk, n: Inodes, o: Owner, i: nat, bn: nat, data: Block)
    requires Owned(sb, d, n, o, {}) && i in n && bn < MAXFILE && BlockOf(d, n[i], bn) != 0
    ensures var addr := BlockOf(d, n[i], bn);
            && addr < |d| && addr in o && o[addr] == (i, bn)
            && Owned(sb, d[addr := data], n, o, {})
            && (forall s :: 0 <= s <= INDIRECT ==> BlockOf(d[addr := data], n[i], s) == BlockOf(d, n[i], s))
            && (forall s :: 0 <= s <= INDIRECT && s != bn && BlockOf(d, n[i], s) != 0 ==> BlockOf(d, n[i], s) != addr)
  {
    var addr := BlockOf(d, n[i], bn);
    assert Slotted(d, n[i], o, i, bn);
    PtrsFrame(sb, d, d[addr := data], n, o);
    BitsFrame(sb, d, d[addr := data], o.Keys + {});
    forall s | 0 <= s <= INDIRECT && s != bn && BlockOf(d, n[i], s) != 0
      ensures BlockOf(d, n[i], s) != addr
    {
      assert Slotted(d, n[i], o, i, s);
    }
  }

  /** It changes the overwritten bytes of that file and no others. */
  lemma OverwriteBytes(sb: Super, d: Disk, d': Disk, n: Inodes, o: Owner, i: nat, cur: nat, bytes: seq<Byte>, p: nat)
    requires Owned(sb, d, n, o, {}) && i in n
    requires Bn(cur) < MAXFILE && BlockOf(d, n[i], Bn(cur)) != 0 && At(cur) + |bytes| <= BSIZE
    requires BlockOf(d, n[i], Bn(cur)) < |d|
    requires var addr := BlockOf(d, n[i], Bn(cur)); d' == d[addr := Overwrite(d[addr], At(cur), bytes)]
    ensures ByteAt(d', n[i], p) == if cur <= p < cur + |bytes| then bytes[p - cur] else ByteAt(d, n[i], p)
  {
    var addr := BlockOf(d, n[i], Bn(cur));
    OverwriteKeepsOwned(sb, d, n, o, i, Bn(cur), Overwrite(d[addr], At(cur), bytes));
    assert p == BSIZE * (Bn(p)) + At(p) && cur == BSIZE * (Bn(cur)) + At(cur);
    if Bn(p) == Bn(cur) {
      assert p - cur == At(p) - At(cur);
    }
  }

  /** How much of the file position's block one round of a copy loop handles. */
  function Chunk(left: nat, cur: nat): (m: nat)
    ensures left > 0 ==> m > 0
    ensures m <= left && At(cur) + m <= BSIZE
  {
    if left < BSIZE - At(cur) then left else BSIZE - At(cur)
  }

  lemma ChunkBlocks(cur: nat, m: nat)
    requires m > 0 && At(cur) + m <= BSIZE
    ensures CeilBlocks(cur + m) == Bn(cur) + 1
    ensures CeilBlocks(cur) == if At(cur) == 0 then Bn(cur) else Bn(cur) + 1
  {
    assert cur == BSIZE * (Bn(cur)) + At(cur);
  }

  /** One round of the loop of writei, byte by byte. */
  lemma WriteChunkByte(sb: Super, d1: Disk, n1: Inodes, o1: Owner, d2: Disk, n2: Inodes, o2: Owner, d3: Disk,
                       i: nat, cur: nat, bytes: seq<Byte>, p: nat)
    requires PtrsOk(sb, d1, n1, o1)
    requires Bn(cur) < MAXFILE && At(cur) + |bytes| <= BSIZE
    requires i in n1 && |n1[i].addrs| == NDIRECT + 1
    requires Grew(sb, d1, n1, o1, d2, n2, o2, i, Missing(d1, n1[i], Bn(cur)))
    requires var addr := BlockOf(d2, n2[i], Bn(cur));
             0 < addr < |d2| && d3 == d2[addr := Overwrite(d2[addr], At(cur), bytes)]
    ensures ByteAt(d3, n2[i], p) == if cur <= p < cur + |bytes| then bytes[p - cur] else ByteAt(d1, n1[i], p)
  {
    OverwriteBytes(sb, d2, d3, n2, o2, i, cur, bytes, p);
    if !(cur <= p < cur + |bytes|) {
      GrewBytes(sb, d1, n1, o1, d2, n2, o2, i, Missing(d1, n1[i], Bn(cur)), p);
    }
  }

  lemma OnlyInodeOverwrite(sb: Super, d: Disk, n: Inodes, o: Owner, i: nat, addr: nat, data: Block)
    requires Geometry(sb, |d|) && i in n && addr in o && o[addr].0 == i && sb.data <= addr < |d|
    ensures OnlyInode(sb, d, n, o, d[addr := data], n, o, i)
  {
    assert n == n[i := n[i]];
  }

  lemma BytesGrow(d0: Disk, ino0: Ino, d1: Disk, ino1: Ino, d2: Disk, ino2: Ino,
                  off: nat, src: seq<Byte>, tot: nat, m: nat)
    requires |ino0.addrs| == |ino1.addrs| == |ino2.addrs| == NDIRECT + 1 && tot + m <= |src|
    requires BytesWritten(d0, ino0, d1, ino1, off, src, tot)
    requires forall p :: 0 <= p < Max(ino0.size, off + tot + m) ==>
               ByteAt(d2, ino2, p) == if off + tot <= p < off + tot + m then src[p - off] else ByteAt(d1, ino1, p)
    ensures BytesWritten(d0, ino0, d2, ino2, off, src, tot + m)
  {
  }

  /** The file has grown by just the blocks that m more bytes at cur need. */
  lemma ChunkExtent(sb: Super, d1: Disk, n1: Inodes, o1: Owner, d2: Disk, n2: Inodes, o2: Owner,
                    i: nat, size: nat, cur: nat, m: nat)
    requires i in n1 && |n1[i].addrs| == NDIRECT + 1 && Extent(d1, n1[i], CeilBlocks(Max(size, cur)))
    requires m > 0 && At(cur) + m <= BSIZE && cur + m <= MAXFILE * BSIZE
    requires Grew(sb, d1, n1, o1, d2, n2, o2, i, Missing(d1, n1[i], Bn(cur)))
    ensures Extent(d2, n2[i], CeilBlocks(Max(size, cur + m)))
  {
    hide Grew;
    var k := CeilBlocks(Max(size, cur));
    ChunkBlocks(cur, m);
    GrewFacts(sb, d1, n1, o1, d2, n2, o2, i, Missing(d1, n1[i], Bn(cur)));
    GrewExtent(sb, d1, n1, o1, d2, n2, o2, i, Bn(cur), k);
    assert CeilBlocks(Max(size, cur + m)) == Max(k, Bn(cur) + 1);
  }

  lemma SameExtent(d: Disk, d': Disk, ino: Ino, k: nat)
    requires |ino.addrs| == NDIRECT + 1 && Extent(d, ino, k)
    requires forall s :: 0 <= s <= INDIRECT ==> BlockOf(d', ino, s) == BlockOf(d, ino, s)
    ensures Extent(d', ino, k)
  {
  }

  lemma WriteChunkBytes(sb: Super, d0: Disk, ino0: Ino, d1: Disk, n1: Inodes, o1: Owner,
                        d2: Disk, n2: Inodes, o2: Owner, d3: Disk,
                        i: nat, off: nat, src: seq<Byte>, tot: nat, m: nat)
    requires tot + m <= |src| && m > 0
    requires off + |src| <= MAXFILE * BSIZE && At(off + tot) + m <= BSIZE
    requires PtrsOk(sb, d1, n1, o1) && i in n1 && |n1[i].addrs| == |ino0.addrs| == NDIRECT + 1
    requires BytesWritten(d0, ino0, d1, n1[i], off, src, tot)
    requires Bn(off + tot) < MAXFILE && Grew(sb, d1, n1, o1, d2, n2, o2, i, Missing(d1, n1[i], Bn(off + tot)))
    requires var addr := BlockOf(d2, n2[i], Bn(off + tot));
             && 0 < addr < |d2|
             && d3 == d2[addr := Overwrite(d2[addr], At(off + tot), src[tot..tot + m])]
    ensures BytesWritten(d0, ino0, d3, n2[i], off, src, tot + m)
  {
    hide PtrsOk, Grew, ByteAt, Overwrite, Owned, OnlyInode, BlockOf, BytesWritten, Missing;
    GrewFacts(sb, d1, n1, o1, d2, n2, o2, i, Missing(d1, n1[i], Bn(off + tot)));
    var cur, bytes := off + tot, src[tot..tot + m];
    forall p | 0 <= p < Max(ino0.size, cur + m)
      ensures ByteAt(d3, n2[i], p) == if cur <= p < cur + m then src[p - off] else ByteAt(d1, n1[i], p)
    {
      WriteChunkByte(sb, d1, n1, o1, d2, n2, o2, d3, i, cur, bytes, p);
    }
    BytesGrow(d0, ino0, d1, n1[i], d3, n2[i], off, src, tot, m);
  }

  /** One round of the loop of writei. */
  lemma WriteChunk(sb: Super, d0: Disk, n0: Inodes, o0: Owner, d1: Disk, n1: Inodes, o1: Owner,
                   d2: Disk, n2: Inodes, o2: Owner, d3: Disk,
                   i: nat, off: nat, src: seq<Byte>, tot: nat, m: nat)
    requires Writing(sb, d0, n0, o0, d1, n1, o1, i, off, src, tot) && tot + m <= |src| && m > 0
    requires off + |src| <= MAXFILE * BSIZE && At(off + tot) + m <= BSIZE
    requires Grew(sb, d1, n1, o1, d2, n2, o2, i, Missing(d1, n1[i], Bn(off + tot)))
    requires var addr := BlockOf(d2, n2[i], Bn(off + tot));
             && 0 < addr < |d2|
             && d3 == d2[addr := Overwrite(d2[addr], At(off + tot), src[tot..tot + m])]
    ensures Writing(sb, d0, n0, o0, d3, n2, o2, i, off, src, tot + m)
  {
    hide Owned, Grew, BytesWritten, OnlyInode, ByteAt, Overwrite, PtrsOk, BlockOf, Missing, Extent, PointersSet;
    var cur := off + tot;
    var bn := Bn(cur);
    OnlyInodeFacts(sb, d0, n0, o0, d1, n1, o1, i);
    GrewFacts(sb, d1, n1, o1, d2, n2, o2, i, Missing(d1, n1[i], bn));
    var addr := BlockOf(d2, n2[i], bn);
    var data := Overwrite(d2[addr], At(cur), src[tot..tot + m]);
    ChunkBlocks(cur, m);
    OverwriteKeepsOwned(sb, d2, n2, o2, i, bn, data);
    if Extent(d0, n0[i], CeilBlocks(n0[i].size)) {
      ChunkExtent(sb, d1, n1, o1, d2, n2, o2, i, n0[i].size, cur, m);
      SameExtent(d2, d3, n2[i], CeilBlocks(Max(n0[i].size, cur + m)));
    }
    GrewPointers(sb, d1, n1, o1, d2, n2, o2, i, n0[i], off, tot, m);
    OnlyInodeOverwrite(sb, d2, n2, o2, i, addr, data);
    OnlyInodeTrans(sb, d1, n1, o1, d2, n2, o2, d3, n2, o2, i);
    OnlyInodeTrans(sb, d0, n0, o0, d1, n1, o1, d3, n2, o2, i);
    WriteChunkBytes(sb, d0, n0[i], d1, n1, o1, d2, n2, o2, d3, i, off, src, tot, m);
  }

  /** c with src put in at off, extended as far as src reaches. */
  function Splice(c: seq<Byte>, off: nat, src: seq<Byte>): (r: seq<Byte>)
    requires off <= |c|
    ensures |r| == Max(|c|, off + |src|)
  {
    if off + |src| <= |c| then c[..off] + src + c[off + |src|..] else c[..off] + src
  }

  lemma WriteStart(sb: Super, d: Disk, n: Inodes, o: Owner, i: nat, off: nat, src: seq<Byte>)
    requires Owned(sb, d, n, o, {}) && i in n && off <= n[i].size
    ensures Writing(sb, d, n, o, d, n, o, i, off, src, 0)
  {
    assert n == n[i := n[i]];
  }

  lemma WritingFacts(sb: Super, d0: Disk, n0: Inodes, o0: Owner, d1: Disk, n1: Inodes, o1: Owner,
                     i: nat, off: nat, src: seq<Byte>, tot: nat)
    requires Writing(sb, d0, n0, o0, d1, n1, o1, i, off, src, tot)
    ensures Owned(sb, d1, n1, o1, {}) && i in n1 && |n1[i].addrs| == NDIRECT + 1
    ensures i in n0 && n1[i].size == n0[i].size && i < sb.ninodes
  {
    OnlyInodeFacts(sb, d0, n0, o0, d1, n1, o1, i);
  }

  /** Whether n bytes at off reach into block q of a file. */
  predicate Spans(off: nat, n: nat, q: nat) {
    n > 0 && off < 512 * q + 512 && 512 * q < off + n
  }

  /** The n bytes at off have no hole among their blocks. */
  ghost predicate Mapped(d: Disk, ino: Ino, off: nat, n: nat)
    requires |ino.addrs| == NDIRECT + 1
  {
    forall q :: 0 <= q < MAXFILE && Spans(off, n, q) ==> BlockOf(d, ino, q) != 0
  }

  lemma SpansMore(off: nat, tot: nat, m: nat, q: nat)
    requires m > 0 && At(off + tot) + m <= BSIZE
    ensures Spans(off, tot + m, q) <==> Spans(off, tot, q) || q == Bn(off + tot)
  {
    assert off + tot == 512 * Bn(off + tot) + At(off + tot);
  }

  lemma MappedMore(d: Disk, ino: Ino, off: nat, tot: nat, m: nat)
    requires |ino.addrs| == NDIRECT + 1 && m > 0 && At(off + tot) + m <= BSIZE && Bn(off + tot) < MAXFILE
    ensures Mapped(d, ino, off, tot + m) <==> Mapped(d, ino, off, tot) && BlockOf(d, ino, Bn(off + tot)) != 0
  {
    forall q: nat
      ensures Spans(off, tot + m, q) <==> Spans(off, tot, q) || q == Bn(off + tot)
    {
      SpansMore(off, tot, m, q);
    }
    assert Spans(off, tot + m, Bn(off + tot));
  }

  /** State 1 is state 0 after readi has copied tot bytes at off from file i: holes on the way
      have been filled with zeros, so no byte of any file has changed; without a hole nothing
      has changed at all, and with one a block has been allocated. */
  ghost predicate Reading(sb: Super, d0: Disk, n0: Inodes, o0: Owner, d1: Disk, n1: Inodes, o1: Owner,
                          i: nat, off: nat, tot: nat) {
    && Owned(sb, d1, n1, o1, {}) && OnlyInode(sb, d0, n0, o0, d1, n1, o1, i)
    && |n0[i].addrs| == NDIRECT + 1 && |n1[i].addrs| == NDIRECT + 1
    && (forall p: nat :: ByteAt(d1, n1[i], p) == ByteAt(d0, n0[i], p))
    && PointersSet(n0[i], n1[i], off, tot)
    && (if Mapped(d0, n0[i], off, tot) then d1 == d0 && n1 == n0 && o1 == o0 else exists b :: b in o1 && b !in o0)
  }

  lemma ReadStart(sb: Super, d: Disk, n: Inodes, o: Owner, i: nat, off: nat)
    requires Owned(sb, d, n, o, {}) && i in n
    ensures Reading(sb, d, n, o, d, n, o, i, off, 0)
  {
    assert n == n[i := n[i]];
  }

  lemma ReadingFacts(sb: Super, d0: Disk, n0: Inodes, o0: Owner, d1: Disk, n1: Inodes, o1: Owner, i: nat, off: nat, tot: nat)
    requires Reading(sb, d0, n0, o0, d1, n1, o1, i, off, tot)
    ensures Owned(sb, d1, n1, o1, {}) && PtrsOk(sb, d1, n1, o1) && i in n0 && i in n1 && n1[i].size == n0[i].size
    ensures |n0[i].addrs| == NDIRECT + 1 && |n1[i].addrs| == NDIRECT + 1 && Content(d1, n1[i]) == Content(d0, n0[i])
    ensures |d1| == |d0| && (Mapped(d0, n0[i], off, tot) ==> d1 == d0 && n1 == n0 && o1 == o0)
  {
    OnlyInodeFacts(sb, d0, n0, o0, d1, n1, o1, i);
  }

  lemma ReadMapped(d: Disk, n: Inodes, i: nat, off: nat, len: nat)
    requires i in n && |n[i].addrs| == NDIRECT + 1 && NoHoles(d, n, i) && off + len <= n[i].size
    ensures Mapped(d, n[i], off, len) && (len > 0 ==> Bn(off) < MAXFILE && BlockOf(d, n[i], Bn(off)) != 0)
  {
    if len > 0 { MappedBelow(d, n[i], off); }
    forall q | 0 <= q < MAXFILE && Spans(off, len, q)
      ensures BlockOf(d, n[i], q) != 0
    {
      assert q < CeilBlocks(n[i].size);
    }
  }

  lemma ReadGrow(sb: Super, d0: Disk, n0: Inodes, o0: Owner, d1: Disk, n1: Inodes, o1: Owner,
                 d2: Disk, n2: Inodes, o2: Owner, i: nat, off: nat, tot: nat, m: nat)
    requires Reading(sb, d0, n0, o0, d1, n1, o1, i, off, tot) && Bn(off + tot) < MAXFILE && m > 0 && At(off + tot) + m <= BSIZE
    requires Grew(sb, d1, n1, o1, d2, n2, o2, i, Missing(d1, n1[i], Bn(off + tot)))
    requires BlockOf(d1, n1[i], Bn(off + tot)) != 0 ==> d2 == d1 && n2 == n1 && o2 == o1
    ensures Reading(sb, d0, n0, o0, d2, n2, o2, i, off, tot + m)
  {
    hide BlockOf, ByteAt, Owned, OnlyInode, Extent, Grew, PtrsOk, Missing, PointersSet, Mapped;
    var bn := Bn(off + tot);
    ReadingFacts(sb, d0, n0, o0, d1, n1, o1, i, off, tot);
    GrewFacts(sb, d1, n1, o1, d2, n2, o2, i, Missing(d1, n1[i], bn));
    OnlyInodeTrans(sb, d0, n0, o0, d1, n1, o1, d2, n2, o2, i);
    forall p: nat
      ensures ByteAt(d2, n2[i], p) == ByteAt(d0, n0[i], p)
    {
      GrewBytes(sb, d1, n1, o1, d2, n2, o2, i, Missing(d1, n1[i], bn), p);
    }
    GrewPointers(sb, d1, n1, o1, d2, n2, o2, i, n0[i], off, tot, m);
    MappedMore(d0, n0[i], off, tot, m);
    if !Mapped(d0, n0[i], off, tot + m) {
      NewBlock(sb, d1, n1, o1, d2, n2, o2, i, bn);
      OwnersStay(sb, d0, n0, o0, d1, n1, o1, d2, n2, o2, i);
    }
  }

  /** A missing block that has been mapped is a block nobody owned. */
  lemma NewBlock(sb: Super, d1: Disk, n1: Inodes, o1: Owner, d2: Disk, n2: Inodes, o2: Owner, i: nat, bn: nat)
    requires PtrsOk(sb, d1, n1, o1) && i in n1 && |n1[i].addrs| == NDIRECT + 1 && bn < MAXFILE
    requires Grew(sb, d1, n1, o1, d2, n2, o2, i, Missing(d1, n1[i], bn))
    ensures BlockOf(d1, n1[i], bn) == 0 ==> exists b :: b in o2 && b !in o1
  {
    if BlockOf(d1, n1[i], bn) == 0 {
      assert Slotted(d2, n2[i], o2, i, bn);
      assert BlockOf(d2, n2[i], bn) in o2 && BlockOf(d2, n2[i], bn) !in o1;
    }
  }

  lemma OwnersStay(sb: Super, d0: Disk, n0: Inodes, o0: Owner, d1: Disk, n1: Inodes, o1: Owner,
                   d2: Disk, n2: Inodes, o2: Owner, i: nat)
    requires OnlyInode(sb, d0, n0, o0, d1, n1, o1, i) && OnlyInode(sb, d1, n1, o1, d2, n2, o2, i)
    ensures (exists b :: b in o1 && b !in o0) ==> exists b :: b in o2 && b !in o0
    ensures (exists b :: b in o2 && b !in o1) ==> exists b :: b in o2 && b !in o0
  {
    if b :| b in o1 && b !in o0 { assert b in o2; }
    if b :| b in o2 && b !in o1 { assert b !in o0; }
  }

  /** An allocated block shows in the bitmap. */
  lemma AllocationShows(sb: Super, d0: Disk, n0: Inodes, o0: Owner, d1: Disk, n1: Inodes, o1: Owner)
    requires Owned(sb, d0, n0, o0, {}) && Owned(sb, d1, n1, o1, {}) && exists b :: b in o1 && b !in o0
    ensures d1 != d0
  {
    var b :| b in o1 && b !in o0;
    assert b in o1.Keys + {} && b !in o0.Keys + {};
    assert Used(sb, d1, b) && !Used(sb, d0, b);
  }

  /** What a completed readi of n bytes at off has done: it has allocated exactly if it met a
      hole, and then the inode on disk is in step exactly if no pointer of the inode had to be set;
      no byte of any file has changed. */
  ghost predicate HasRead(sb: Super, d0: Disk, n0: Inodes, d1: Disk, n1: Inodes, o1: Owner, i: nat, off: nat, n: nat)
    requires Geometry(sb, |d0|)
  {
    && Owned(sb, d1, n1, o1, {}) && |d1| == |d0|
    && n1.Keys == n0.Keys && i in n1 && i < sb.ninodes
    && |n0[i].addrs| == NDIRECT + 1 && |n1[i].addrs| == NDIRECT + 1 && SameMeta(n1[i], n0[i])
    && Content(d1, n1[i]) == Content(d0, n0[i])
    && (forall j :: j in n1 && j != i ==> Untouched(sb, d0, n0, d1, n1, j))
    && (d1 == d0 <==> Mapped(d0, n0[i], off, n))
    && PointersSet(n0[i], n1[i], off, n)
    && d1[InodeBlock(sb, i)] == d0[InodeBlock(sb, i)]
    && (Synced(sb, d0, n0, i) ==> (Synced(sb, d1, n1, i) <==> SlotsSet(n0[i], off, n)))
  }

  lemma ReadDone(sb: Super, d0: Disk, n0: Inodes, o0: Owner, d1: Disk, n1: Inodes, o1: Owner, i: nat, off: nat, n: nat)
    requires Owned(sb, d0, n0, o0, {}) && Reading(sb, d0, n0, o0, d1, n1, o1, i, off, n)
    ensures Geometry(sb, |d0|) && HasRead(sb, d0, n0, d1, n1, o1, i, off, n)
  {
    hide Owned, BlockOf, ByteAt, Extent, PtrsOk, OnlyInode, Content, PointersSet, SlotsSet, Untouched, Mapped;
    ReadingFacts(sb, d0, n0, o0, d1, n1, o1, i, off, n);
    OnlyInodeFacts(sb, d0, n0, o0, d1, n1, o1, i);
    OnlyInodeBelow(sb, d0, n0, o0, d1, n1, o1, i);
    forall j | j in n0 && j != i
      ensures Untouched(sb, d0, n0, d1, n1, j)
    {
      OtherContent(sb, d0, n0, o0, d1, n1, o1, i, j);
    }
    if Synced(sb, d0, n0, i) { SyncedIff(sb, d0, n0, o0, d1, n1, o1, i, off, n); }
    if !Mapped(d0, n0[i], off, n) { AllocationShows(sb, d0, n0, o0, d1, n1, o1); }
  }

  lemma OwnedPtrs(sb: Super, d: Disk, n: Inodes, o: Owner)
    requires Owned(sb, d, n, o, {})
    ensures Geometry(sb, |d|) && PtrsOk(sb, d, n, o)
    ensures forall j :: j in n ==> |n[j].addrs| == NDIRECT + 1 && j < sb.ninodes && n[j].size < UINT
  {
  }

  lemma DataBlock(sb: Super, d: Disk, n: Inodes, o: Owner, i: nat, bn: nat)
    requires PtrsOk(sb, d, n, o) && i in n && |n[i].addrs| == NDIRECT + 1 && bn < MAXFILE
    ensures BlockOf(d, n[i], bn) < |d|
  {
    assert Slotted(d, n[i], o, i, bn);
  }

  /** Between operations: ownership holds, inodes have no holes, and the inode cache is
      written through. */
  ghost predicate AtRest(sb: Super, d: Disk, n: Inodes, o: Owner) {
    && Owned(sb, d, n, o, {})
    && (forall i :: i in n ==> Synced(sb, d, n, i))
    && (forall i :: i in n ==> Extent(d, n[i], CeilBlocks(n[i].size)))
  }

  lemma MappedBelow(d: Disk, ino: Ino, p: nat)
    requires |ino.addrs| == NDIRECT + 1 && Extent(d, ino, CeilBlocks(ino.size)) && p < ino.size
    ensures Bn(p) < MAXFILE && BlockOf(d, ino, Bn(p)) != 0
  {
    assert Bn(p) < CeilBlocks(ino.size);
  }

  /** A stretch of a file within one block is a stretch of that block. */
  lemma ReadChunk(d: Disk, ino: Ino, off: nat, m: nat)
    requires |ino.addrs| == NDIRECT + 1 && Bn(off) < MAXFILE && 0 < BlockOf(d, ino, Bn(off)) < |d|
    requires At(off) + m <= BSIZE && off + m <= ino.size
    ensures d[BlockOf(d, ino, Bn(off))][At(off)..At(off) + m] == Content(d, ino)[off..off + m]
  {
    var (b, c) := (d[BlockOf(d, ino, Bn(off))], Content(d, ino));
    forall p | off <= p < off + m
      ensures c[p] == b[At(off) + (p - off)]
    {
      assert Bn(p) == Bn(off);
    }
  }

  lemma AtRestFacts(sb: Super, d: Disk, n: Inodes, o: Owner)
    requires AtRest(sb, d, n, o)
    ensures Owned(sb, d, n, o, {}) && Geometry(sb, |d|) && PtrsOk(sb, d, n, o)
    ensures forall j :: j in n ==> |n[j].addrs| == NDIRECT + 1 && j < sb.ninodes
    ensures forall j :: j in n ==> Extent(d, n[j], CeilBlocks(n[j].size))
  {
  }

  /** Inode j has no hole: it owns exactly the blocks its size needs. */
  ghost predicate NoHoles(d: Disk, n: Inodes, j: nat)
    requires j in n && |n[j].addrs| == NDIRECT + 1
  {
    Extent(d, n[j], CeilBlocks(n[j].size))
  }

  /** File j is as it was: same inode, same bytes, no less in step with the disk, no new hole. */
  ghost predicate Untouched(sb: Super, d0: Disk, n0: Inodes, d1: Disk, n1: Inodes, j: nat)
    requires Geometry(sb, |d0|) && Geometry(sb, |d1|)
  {
    && j in n0 && j in n1 && n1[j] == n0[j] && |n0[j].addrs| == NDIRECT + 1 && j < sb.ninodes
    && Content(d1, n1[j]) == Content(d0, n0[j])
    && (Synced(sb, d0, n0, j) ==> Synced(sb, d1, n1, j))
    && (NoHoles(d0, n0, j) ==> NoHoles(d1, n1, j))
  }

  /** Other files are untouched by anything that touches only inode i. */
  lemma OtherContent(sb: Super, d0: Disk, n0: Inodes, o0: Owner, d1: Disk, n1: Inodes, o1: Owner, i: nat, j: nat)
    requires Owned(sb, d0, n0, o0, {}) && OnlyInode(sb, d0, n0, o0, d1, n1, o1, i) && j in n0 && j != i
    ensures Geometry(sb, |d0|) && |d1| == |d0| && Untouched(sb, d0, n0, d1, n1, j)
  {
    ContentFrame(sb, d0, d1, n0, o0, j);
    if NoHoles(d0, n0, j) { SameExtent(d0, d1, n0[j], CeilBlocks(n0[j].size)); }
  }

  lemma SplicedContent(d0: Disk, ino0: Ino, d1: Disk, ino1: Ino, off: nat, src: seq<Byte>)
    requires |ino0.addrs| == NDIRECT + 1 && |ino1.addrs| == NDIRECT + 1
    requires off <= ino0.size && ino1.size == Max(ino0.size, off + |src|)
    requires BytesWritten(d0, ino0, d1, ino1, off, src, |src|)
    ensures Content(d1, ino1) == Splice(Content(d0, ino0), off, src)
  {
    var (c0, c1) := (Content(d0, ino0), Content(d1, ino1));
    forall p: nat | p < ino1.size
      ensures c1[p] == Splice(c0, off, src)[p]
    {
    }
  }

  /** What a completed writei has done to the file system: the file is spliced, every other
      file is untouched, and no new hole appears. The inode on disk is in step if the file
      grew; if it did not, exactly if no pointer of the inode had to be set. */
  ghost predicate Written(sb: Super, d0: Disk, n0: Inodes, d: Disk, n: Inodes, o: Owner,
                          i: nat, off: nat, src: seq<Byte>)
    requires Geometry(sb, |d0|)
  {
    && Owned(sb, d, n, o, {}) && |d| == |d0|
    && n.Keys == n0.Keys && i in n && i < sb.ninodes
    && |n0[i].addrs| == NDIRECT + 1 && |n[i].addrs| == NDIRECT + 1
    && n[i].kind == n0[i].kind && n[i].links == n0[i].links
    && off <= n0[i].size
    && Content(d, n[i]) == Splice(Content(d0, n0[i]), off, src)
    && (forall j :: j in n && j != i ==> Untouched(sb, d0, n0, d, n, j))
    && (forall b :: 0 <= b < sb.inodestart ==> d[b] == d0[b])
    && (NoHoles(d0, n0, i) ==> NoHoles(d, n, i))
    && PointersSet(n0[i], n[i], off, |src|)
    && (off + |src| <= n0[i].size ==> d[InodeBlock(sb, i)] == d0[InodeBlock(sb, i)])
    && (off + |src| > n0[i].size ==> Synced(sb, d, n, i))
    && (off + |src| <= n0[i].size && Synced(sb, d0, n0, i) ==> (Synced(sb, d, n, i) <==> SlotsSet(n0[i], off, |src|)))
  }

  /** A finished write that did not reach past the end of the file. */
  lemma WroteInside(sb: Super, d0: Disk, n0: Inodes, o0: Owner, d1: Disk, n1: Inodes, o1: Owner,
                    i: nat, off: nat, src: seq<Byte>)
    requires Owned(sb, d0, n0, o0, {}) && Writing(sb, d0, n0, o0, d1, n1, o1, i, off, src, |src|)
    requires off + |src| <= n0[i].size
    ensures Geometry(sb, |d0|) && Written(sb, d0, n0, d1, n1, o1, i, off, src)
  {
    hide Owned, BytesWritten, BlockOf, ByteAt, Extent, PtrsOk, OnlyInode, Content, PointersSet, SlotsSet, Untouched;
    OnlyInodeFacts(sb, d0, n0, o0, d1, n1, o1, i);
    OnlyInodeBelow(sb, d0, n0, o0, d1, n1, o1, i);
    forall j | j in n0 && j != i
      ensures Untouched(sb, d0, n0, d1, n1, j)
    {
      OtherContent(sb, d0, n0, o0, d1, n1, o1, i, j);
    }
    SplicedContent(d0, n0[i], d1, n1[i], off, src);
    if Synced(sb, d0, n0, i) { SyncedIff(sb, d0, n0, o0, d1, n1, o1, i, off, |src|); }
  }

  /** Without iupdate the inode on disk is what it was. */
  lemma SyncedIff(sb: Super, d0: Disk, n0: Inodes, o0: Owner, d1: Disk, n1: Inodes, o1: Owner, i: nat, off: nat, n: nat)
    requires Geometry(sb, |d0|) && OnlyInode(sb, d0, n0, o0, d1, n1, o1, i) && i < sb.ninodes
    requires |n0[i].addrs| == NDIRECT + 1 && |n1[i].addrs| == NDIRECT + 1 && PointersSet(n0[i], n1[i], off, n)
    requires Synced(sb, d0, n0, i)
    ensures Synced(sb, d1, n1, i) <==> SlotsSet(n0[i], off, n)
  {
    assert d1[InodeBlock(sb, i)] == d0[InodeBlock(sb, i)];
    if SlotsSet(n0[i], off, n) {
      assert n1[i].addrs == n0[i].addrs;
    } else {
      var t :| 0 <= t <= NDIRECT && Touches(off, n, t) && n0[i].addrs[t] == 0;
      assert n1[i].addrs[t] != 0;
    }
  }

  /** In a file without holes a write that stays inside finds every pointer set. */
  lemma NoHolesSlotsSet(d: Disk, n: Inodes, i: nat, off: nat, len: nat)
    requires i in n && |n[i].addrs| == NDIRECT + 1 && NoHoles(d, n, i) && off + len <= n[i].size
    ensures SlotsSet(n[i], off, len)
  {
    forall t | 0 <= t <= NDIRECT && Touches(off, len, t)
      ensures n[i].addrs[t] != 0
    {
      var s := if t < NDIRECT then t else INDIRECT;
      assert BlockOf(d, n[i], s) == n[i].addrs[t];
      assert t < CeilBlocks(n[i].size);
    }
  }

  /** Starting from a file system at rest, a write ends at rest: when it allocates, it reaches
      iupdate. */
  lemma AtRestAgain(sb: Super, d0: Disk, n0: Inodes, o0: Owner, d: Disk, n: Inodes, o: Owner, i: nat, off: nat, src: seq<Byte>)
    requires AtRest(sb, d0, n0, o0) && Written(sb, d0, n0, d, n, o, i, off, src)
    ensures AtRest(sb, d, n, o)
  {
    AtRestFacts(sb, d0, n0, o0);
    if off + |src| <= n0[i].size { NoHolesSlotsSet(d0, n0, i, off, |src|); }
    forall j | j in n
      ensures |n[j].addrs| == NDIRECT + 1 && j < sb.ninodes && Synced(sb, d, n, j) && NoHoles(d, n, j)
    {
      AtRestSynced(sb, d0, n0, o0, j);
      if j != i { assert Untouched(sb, d0, n0, d, n, j); }
    }
    RestFrom(sb, d, n, o);
  }

  /** The in-core size moves to the end of what was written. */
  lemma SizeKeepsOwned(sb: Super, d: Disk, n: Inodes, o: Owner, i: nat, size: nat)
    requires Owned(sb, d, n, o, {}) && i in n && size < UINT
    ensures Owned(sb, d, n[i := n[i].(size := size)], o, {})
    ensures forall s :: 0 <= s <= INDIRECT ==> BlockOf(d, n[i].(size := size), s) == BlockOf(d, n[i], s)
  {
    var n' := n[i := n[i].(size := size)];
    forall j, s | j in n' && 0 <= s <= INDIRECT
      ensures Slotted(d, n'[j], o, j, s)
    {
      assert Slotted(d, n[j], o, j, s);
    }
  }

  /** A finished write that made the file longer, after the inode has been written back:
      disk 2 is disk 1 but for the block of inode i. */
  lemma WroteLonger(sb: Super, d0: Disk, n0: Inodes, o0: Owner, d1: Disk, n1: Inodes, o1: Owner,
                    i: nat, off: nat, src: seq<Byte>, d2: Disk, n2: Inodes)
    requires Owned(sb, d0, n0, o0, {}) && Writing(sb, d0, n0, o0, d1, n1, o1, i, off, src, |src|)
    requires off + |src| > n0[i].size && n2 == n1[i := n1[i].(size := off + |src|)]
    requires Owned(sb, d2, n2, o1, {}) && |d2| == |d1| && i < sb.ninodes && Synced(sb, d2, n2, i)
    requires forall j :: j in n2 && j != i && j < sb.ninodes && Synced(sb, d1, n2, j) ==> Synced(sb, d2, n2, j)
    requires forall b :: 0 <= b < |d2| && b != InodeBlock(sb, i) ==> d2[b] == d1[b]
    ensures Geometry(sb, |d0|) && Written(sb, d0, n0, d2, n2, o1, i, off, src)
  {
    hide BytesWritten, ByteAt, BlockOf, Owned, PtrsOk, Extent, Content, ReadDinode, OnlyInode, PointersSet, SlotsSet, Untouched;
    OnlyInodeFacts(sb, d0, n0, o0, d1, n1, o1, i);
    OnlyInodeBelow(sb, d0, n0, o0, d1, n1, o1, i);
    BlocksSame(sb, d1, d2, n1, o1, i, n2[i], CeilBlocks(off + |src|));
    BytesWrittenSame(d0, n0[i], d1, n1[i], d2, n2[i], off, src);
    SplicedContent(d0, n0[i], d2, n2[i], off, src);
    SamePointers(n0[i], n1[i], n2[i], off, |src|);
    forall j | j in n0 && j != i
      ensures Untouched(sb, d0, n0, d2, n2, j)
    {
      OtherContent(sb, d0, n0, o0, d1, n1, o1, i, j);
      UntouchedToo(sb, d0, n0, d1, n1, o1, d2, n2, j);
    }
  }

  lemma SamePointers(ino0: Ino, ino1: Ino, ino2: Ino, off: nat, n: nat)
    requires |ino0.addrs| == |ino1.addrs| == NDIRECT + 1 && PointersSet(ino0, ino1, off, n) && ino2.addrs == ino1.addrs
    ensures PointersSet(ino0, ino2, off, n)
  {
  }

  /** Writing a metadata block, or blocks nobody owns, leaves a file untouched. */
  lemma UntouchedToo(sb: Super, d0: Disk, n0: Inodes, d1: Disk, n1: Inodes, o1: Owner, d2: Disk, n2: Inodes, j: nat)
    requires Geometry(sb, |d0|) && |d2| == |d1| == |d0| && Untouched(sb, d0, n0, d1, n1, j) && PtrsOk(sb, d1, n1, o1)
    requires forall b :: sb.data <= b < |d1| ==> d2[b] == d1[b]
    requires j in n2 && n2[j] == n1[j] && (Synced(sb, d1, n1, j) ==> Synced(sb, d2, n2, j))
    ensures Untouched(sb, d0, n0, d2, n2, j)
  {
    BlocksSame(sb, d1, d2, n1, o1, j, n2[j], CeilBlocks(n2[j].size));
    ContentSame(d1, d2, n2[j]);
  }

  lemma RestFrom(sb: Super, d: Disk, n: Inodes, o: Owner)
    requires Owned(sb, d, n, o, {})
    requires forall i :: i in n ==> Synced(sb, d, n, i) && Extent(d, n[i], CeilBlocks(n[i].size))
    ensures AtRest(sb, d, n, o)
  {
  }

  lemma ContentSame(d: Disk, d': Disk, ino: Ino)
    requires |ino.addrs| == NDIRECT + 1
    requires forall p: nat :: p < ino.size ==> ByteAt(d', ino, p) == ByteAt(d, ino, p)
    ensures Content(d', ino) == Content(d, ino)
  {
  }

  lemma BytesWrittenSame(d0: Disk, ino0: Ino, d1: Disk, ino1: Ino, d2: Disk, ino2: Ino, off: nat, src: seq<Byte>)
    requires |ino0.addrs| == |ino1.addrs| == |ino2.addrs| == NDIRECT + 1 && ino0.size <= off + |src|
    requires BytesWritten(d0, ino0, d1, ino1, off, src, |src|)
    requires forall p: nat :: p < off + |src| ==> ByteAt(d2, ino2, p) == ByteAt(d1, ino1, p)
    ensures BytesWritten(d0, ino0, d2, ino2, off, src, |src|)
  {
  }

  /** The first k blocks of a file do not change with the metadata of its inode, nor with
      blocks nobody owns. */
  lemma BlocksSame(sb: Super, d: Disk, d': Disk, n: Inodes, o: Owner, j: nat, ino': Ino, k: nat)
    requires PtrsOk(sb, d, n, o) && |d'| == |d| && j in n && |n[j].addrs| == NDIRECT + 1 && ino'.addrs == n[j].addrs
    requires forall b :: sb.data <= b < |d| ==> d'[b] == d[b]
    ensures Extent(d, n[j], k) ==> Extent(d', ino', k)
    ensures forall p: nat :: ByteAt(d', ino', p) == ByteAt(d, n[j], p)
  {
    ContentFrame(sb, d, d', n, o, j);
    assert forall s :: 0 <= s <= INDIRECT ==> BlockOf(d', ino', s) == BlockOf(d', n[j], s);
    if Extent(d, n[j], k) { SameExtent(d, d', n[j], k); }
    forall p: nat
      ensures ByteAt(d', ino', p) == ByteAt(d, n[j], p)
    {
      assert ByteAt(d', n[j], p) == ByteAt(d, n[j], p);
    }
  }

  lemma Wraps(a: nat, b: nat)
    requires a < UINT && b < UINT
    ensures (a + b) % UINT < a <==> a + b >= UINT
  {
  }

  function Min(a: nat, b: nat): nat { if a < b then a else b }

  /** Reading back what was just written gives it back, and every other byte of the old
      file is still where it was. */
  lemma ReadBack(c: seq<Byte>, off: nat, src: seq<Byte>)
    requires off <= |c|
    ensures Splice(c, off, src)[off..off + |src|] == src
    ensures Splice(c, off, src)[..off] == c[..off]
    ensures off + |src| <= |c| ==> Splice(c, off, src)[off + |src|..] == c[off + |src|..]
  {
  }

  // ----- itrunc

  /** The owners left once inode i has given up its slots below k. */
  function Without(o: Owner, i: nat, k: nat): (r: Owner) {
    map b | b in o && !(o[b].0 == i && o[b].1 < k) :: o[b]
  }

  /** The blocks of inode i from slot k on. */
  function Holding(o: Owner, i: nat, k: nat): (r: set<nat>) {
    set b | b in o && o[b].0 == i && o[b].1 >= k
  }

  /** State 1 is state 0 after inode i has dropped its direct slots below k and only the
      bitmap has changed on disk. */
  ghost predicate Dropped(sb: Super, d0: Disk, n0: Inodes, o0: Owner, d1: Disk, n1: Inodes, o1: Owner,
                          i: nat, k: nat)
  {
    && |d1| == |d0|
    && i in n0 && i in n1 && n1 == n0[i := n1[i]] && SameMeta(n1[i], n0[i])
    && |n0[i].addrs| == |n1[i].addrs| == NDIRECT + 1
    && (forall t :: 0 <= t <= NDIRECT ==> n1[i].addrs[t] == if t < k then 0 else n0[i].addrs[t])
    && o1 == Without(o0, i, k)
    && (forall b :: 0 <= b < |d0| && !(sb.bmapstart <= b < sb.data) ==> d1[b] == d0[b])
  }

  lemma DropNothing(sb: Super, d: Disk, n: Inodes, o: Owner, i: nat)
    requires Owned(sb, d, n, o, {}) && i in n
    ensures Dropped(sb, d, n, o, d, n, o, i, 0)
  {
    assert n == n[i := n[i]];
  }

  lemma DroppedFacts(sb: Super, d0: Disk, n0: Inodes, o0: Owner, d1: Disk, n1: Inodes, o1: Owner, i: nat, k: nat)
    requires Dropped(sb, d0, n0, o0, d1, n1, o1, i, k)
    ensures i in n1 && |n1[i].addrs| == NDIRECT + 1
  {
  }

  lemma OwnedFacts(sb: Super, d: Disk, n: Inodes, o: Owner, i: nat, s: nat)
    requires Owned(sb, d, n, o, {}) && i in n && s <= INDIRECT
    ensures Geometry(sb, |d|) && |n[i].addrs| == NDIRECT + 1 && PtrsOk(sb, d, n, o)
    ensures BlockOf(d, n[i], s) != 0 ==>
              BlockOf(d, n[i], s) in o && o[BlockOf(d, n[i], s)] == (i, s) && BlockOf(d, n[i], s) < sb.size
  {
    assert Slotted(d, n[i], o, i, s);
  }

  /** A direct block leaves its inode and is in transit. */
  lemma UnlinkDirect(sb: Super, d: Disk, n: Inodes, o: Owner, i: nat, t: nat)
    requires Owned(sb, d, n, o, {}) && i in n && t < NDIRECT && BlockOf(d, n[i], t) != 0
    ensures var b := BlockOf(d, n[i], t);
            Owned(sb, d, n[i := SetAddr(n[i], t, 0)], o - {b}, {b})
  {
    var b := BlockOf(d, n[i], t);
    var n', o' := n[i := SetAddr(n[i], t, 0)], o - {b};
    assert Slotted(d, n[i], o, i, t);
    forall j, s | j in n' && 0 <= s <= INDIRECT
      ensures Slotted(d, n'[j], o', j, s)
    {
      assert Slotted(d, n[j], o, j, s);
    }
    assert o'.Keys + {b} == o.Keys + {};
  }

  lemma DropDirect(sb: Super, d0: Disk, n0: Inodes, o0: Owner, d1: Disk, n1: Inodes, o1: Owner,
                   d2: Disk, n2: Inodes, o2: Owner, i: nat, t: nat)
    requires Dropped(sb, d0, n0, o0, d1, n1, o1, i, t) && t < NDIRECT
    requires PtrsOk(sb, d1, n1, o1)
    requires var b := n1[i].addrs[t];
             if b == 0 then d2 == d1 && n2 == n1 && o2 == o1
             else && n2 == n1[i := SetAddr(n1[i], t, 0)] && o2 == o1 - {b}
                  && b < sb.size && Used(sb, d1, b) && d2 == MarkFree(sb, d1, b)
    ensures Dropped(sb, d0, n0, o0, d2, n2, o2, i, t + 1)
  {
    var b := n1[i].addrs[t];
    assert Slotted(d1, n1[i], o1, i, t);
    assert n2 == n0[i := n2[i]];
    forall x | x in o1
      ensures o1[x] == (i, t) <==> x == b
    {
    }
    assert o2 == Without(o0, i, t + 1);
  }

  lemma IndirectFacts(sb: Super, d: Disk, n: Inodes, o: Owner, i: nat)
    requires Owned(sb, d, n, o, {}) && i in n
    ensures Geometry(sb, |d|) && |n[i].addrs| == NDIRECT + 1
    ensures n[i].addrs[NDIRECT] != 0 ==> n[i].addrs[NDIRECT] < sb.size
  {
    OwnedFacts(sb, d, n, o, i, INDIRECT);
  }

  /** The indirect block and everything it points to leave their inode together. */
  lemma UnlinkIndirect(sb: Super, d: Disk, n: Inodes, o: Owner, i: nat)
    requires Owned(sb, d, n, o, {}) && i in n && n[i].addrs[NDIRECT] != 0
    requires forall t :: 0 <= t < NDIRECT ==> n[i].addrs[t] == 0
    ensures Owned(sb, d, n[i := SetAddr(n[i], NDIRECT, 0)], Without(o, i, INDIRECT + 1), Holding(o, i, NDIRECT))
  {
    var n', o', held := n[i := SetAddr(n[i], NDIRECT, 0)], Without(o, i, INDIRECT + 1), Holding(o, i, NDIRECT);
    forall j, s | j in n' && 0 <= s <= INDIRECT
      ensures Slotted(d, n'[j], o', j, s)
    {
      assert Slotted(d, n[j], o, j, s);
    }
    forall b
      ensures b in o'.Keys + held <==> b in o.Keys
    {
      if b in o { assert BlockOf(d, n[o[b].0], o[b].1) == b; }
    }
    assert o'.Keys + held == o.Keys + {};
  }

  lemma HoldingStep(sb: Super, d: Disk, n: Inodes, o: Owner, i: nat, j: nat)
    requires Owned(sb, d, n, o, {}) && i in n && j < NINDIRECT
    requires 0 < n[i].addrs[NDIRECT] < |d|
    ensures var b := Word(d[n[i].addrs[NDIRECT]], j);
            && (b != 0 ==> b in Holding(o, i, NDIRECT + j) && b < sb.size)
            && Holding(o, i, NDIRECT + j + 1)
               == if b != 0 then Holding(o, i, NDIRECT + j) - {b} else Holding(o, i, NDIRECT + j)
  {
    assert Slotted(d, n[i], o, i, NDIRECT + j);
    forall x | x in o && o[x] == (i, NDIRECT + j)
      ensures x == Word(d[n[i].addrs[NDIRECT]], j)
    {
    }
  }

  lemma HoldingLast(sb: Super, d: Disk, n: Inodes, o: Owner, i: nat)
    requires Owned(sb, d, n, o, {}) && i in n && n[i].addrs[NDIRECT] != 0
    ensures Holding(o, i, INDIRECT) == {n[i].addrs[NDIRECT]}
  {
    assert Slotted(d, n[i], o, i, INDIRECT);
  }

  lemma DroppedAll(sb: Super, d0: Disk, n0: Inodes, o0: Owner, d1: Disk, n1: Inodes, o1: Owner, i: nat)
    requires Dropped(sb, d0, n0, o0, d1, n1, o1, i, NDIRECT) && Owned(sb, d1, n1, o1, {})
    ensures i in n1 && |n1[i].addrs| == NDIRECT + 1
    ensures Without(o1, i, INDIRECT + 1) == Without(o0, i, INDIRECT + 1)
    ensures n1[i].addrs[NDIRECT] == 0 ==> o1 == Without(o0, i, INDIRECT + 1)
  {
    if n1[i].addrs[NDIRECT] == 0 {
      forall b | b in o1
        ensures o1[b].0 != i
      {
        assert BlockOf(d1, n1[o1[b].0], o1[b].1) == b;
      }
    }
  }

  lemma TruncDone(sb: Super, d0: Disk, n0: Inodes, o0: Owner, d1: Disk, d2: Disk, n2: Inodes, o2: Owner, i: nat)
    requires Owned(sb, d0, n0, o0, {}) && i in n0 && |d1| == |d0| == |d2|
    requires Owned(sb, d2, n2, o2, {}) && o2 == Without(o0, i, INDIRECT + 1)
    requires |n0[i].addrs| == NDIRECT + 1
    requires n2 == n0[i := n0[i].(size := 0, addrs := seq(NDIRECT + 1, _ => 0))]
    requires forall b :: 0 <= b < |d0| && !(sb.bmapstart <= b < sb.data) ==> d1[b] == d0[b]
    requires forall b :: 0 <= b < |d2| && b != InodeBlock(sb, i) ==> d2[b] == d1[b]
    requires forall j :: j in n2 && j != i && j < sb.ninodes && Synced(sb, d1, n2, j) ==> Synced(sb, d2, n2, j)
    ensures Geometry(sb, |d0|) && NoHoles(d2, n2, i)
    ensures forall b :: 0 <= b < sb.size ==>
              (Used(sb, d2, b) <==> Used(sb, d0, b) && !(b in o0 && o0[b].0 == i))
    ensures forall j :: j in n0 && j != i ==> Untouched(sb, d0, n0, d2, n2, j)
  {
    hide BlockOf, Content, Extent, ByteAt, BitsOk, ReadDinode;
    EmptyExtent(d2, n2[i]);
    FreedExactly(sb, d0, n0, o0, d2, n2, o2, i);
    forall j | j in n0 && j != i
      ensures Untouched(sb, d0, n0, d2, n2, j)
    {
      BlocksSame(sb, d0, d2, n0, o0, j, n0[j], CeilBlocks(n0[j].size));
      ContentSame(d0, d2, n0[j]);
      assert Synced(sb, d0, n0, j) ==> Synced(sb, d1, n2, j);
    }
  }

  lemma TruncAtRest(sb: Super, d0: Disk, n0: Inodes, o0: Owner, d: Disk, n: Inodes, o: Owner, i: nat)
    requires AtRest(sb, d0, n0, o0) && Owned(sb, d, n, o, {}) && |d| == |d0| && i in n && i < sb.ninodes
    requires forall j :: j in n && j != i ==> j in n0 && Untouched(sb, d0, n0, d, n, j)
    requires |n[i].addrs| == NDIRECT + 1 && Synced(sb, d, n, i) && NoHoles(d, n, i)
    ensures AtRest(sb, d, n, o)
  {
    forall j | j in n
      ensures |n[j].addrs| == NDIRECT + 1 && j < sb.ninodes && Synced(sb, d, n, j) && NoHoles(d, n, j)
    {
      if j != i {
        AtRestSynced(sb, d0, n0, o0, j);
        assert Untouched(sb, d0, n0, d, n, j);
      }
    }
    RestFrom(sb, d, n, o);
  }

  lemma AtRestSynced(sb: Super, d: Disk, n: Inodes, o: Owner, j: nat)
    requires AtRest(sb, d, n, o) && j in n
    ensures Geometry(sb, |d|) && j < sb.ninodes && Synced(sb, d, n, j)
  {
  }

  lemma FreedExactly(sb: Super, d0: Disk, n0: Inodes, o0: Owner, d2: Disk, n2: Inodes, o2: Owner, i: nat)
    requires Owned(sb, d0, n0, o0, {}) && Owned(sb, d2, n2, o2, {}) && o2 == Without(o0, i, INDIRECT + 1)
    ensures forall b :: 0 <= b < sb.size ==>
              (Used(sb, d2, b) <==> Used(sb, d0, b) && !(b in o0 && o0[b].0 == i))
  {
    forall b: nat | b < sb.size
      ensures Used(sb, d2, b) <==> Used(sb, d0, b) && !(b in o0 && o0[b].0 == i)
    {
      assert Used(sb, d0, b) <==> b < sb.data || b in o0.Keys + {};
      assert Used(sb, d2, b) <==> b < sb.data || b in o2.Keys + {};
    }
  }

  lemma EmptyExtent(d: Disk, ino: Ino)
    requires |ino.addrs| == NDIRECT + 1 && ino.size == 0 && forall t :: 0 <= t <= NDIRECT ==> ino.addrs[t] == 0
    ensures Extent(d, ino, CeilBlocks(ino.size))
  {
  }

  // ----- an empty file system

  function EmptyIno(): Ino { Ino(0, 0, 0, seq(NDIRECT + 1, _ => 0)) }

  function Below(n: nat): (r: set<nat>)
    ensures forall i :: i in r <==> 0 <= i < n
  {
    if n == 0 then {} else Below(n - 1) + {n - 1}
  }

  lemma ZeroDinode(k: nat)
    requires k < IPB
    ensures ReadDinode(Zero(), k) == EmptyIno()
  {
    forall t | 0 <= t < 16
      ensures WordsAt(Zero(), 16 * k, 16)[t] == 0
    {
      ZeroWord(16 * k + t);
    }
  }

  lemma AllFree(sb: Super, d: Disk)
    requires Geometry(sb, |d|) && forall k :: 0 <= k < |d| ==> d[k] == Zero()
    ensures forall x :: 0 <= x < sb.size ==> !Used(sb, d, x)
  {
    forall x | 0 <= x < sb.size
      ensures !Used(sb, d, x)
    {
      NoBit(x % BPB % 8);
    }
  }

  lemma {:induction false} NoBit(k: nat)
    ensures !BitOf(0, k)
  {
    if k > 0 { NoBit(k - 1); }
  }

  /** The blocks below b are marked, and nothing before the bitmap has been written. */
  ghost predicate MarkedBelow(sb: Super, d: Disk, b: nat) {
    && Geometry(sb, |d|)
    && (forall x :: 0 <= x < sb.size ==> (Used(sb, d, x) <==> x < b))
    && (forall k :: 0 <= k < sb.bmapstart ==> d[k] == Zero())
  }

  lemma MarkedAre(sb: Super, d: Disk)
    requires MarkedBelow(sb, d, sb.data)
    ensures Geometry(sb, |d|) && forall x :: 0 <= x < sb.size ==> (Used(sb, d, x) <==> x < sb.data)
  {
  }

  lemma MarkNext(sb: Super, d: Disk, b: nat)
    requires MarkedBelow(sb, d, b) && b < sb.data
    ensures b < sb.size && !Used(sb, d, b) && MarkedBelow(sb, MarkUsed(sb, d, b), b + 1)
  {
    forall x | 0 <= x < sb.size
      ensures Used(sb, MarkUsed(sb, d, b), x) <==> x < b + 1
    {
      UsedAfterMark(sb, d, b, x);
    }
  }

  lemma EmptyAtRest(sb: Super, d: Disk, n: Inodes)
    requires MarkedBelow(sb, d, sb.data)
    requires forall i :: i in n ==> i < sb.ninodes && n[i] == EmptyIno()
    ensures AtRest(sb, d, n, map[])
  {
    forall i | i in n
      ensures Synced(sb, d, n, i) && Extent(d, n[i], CeilBlocks(n[i].size))
    {
      ZeroDinode(i % IPB);
      EmptyExtent(d, n[i]);
    }
    assert Owned(sb, d, n, map[], {});
  }

  // ----- which blocks an operation logs

  /** From disk 0 to disk 1 every changed block has been given to log_write. */
  ghost predicate Collects(d0: Disk, l0: set<nat>, d1: Disk, l1: set<nat>) {
    && |d1| == |d0| && l0 <= l1
    && forall b :: 0 <= b < |d0| && d1[b] != d0[b] ==> b in l1
  }

  /** The blocks that mapping n bytes at off, and writing them, can log: bitmap blocks, the
      indirect block and the data blocks of the stretch. */
  ghost predicate MayLog(sb: Super, d: Disk, ino: Ino, off: nat, n: nat, b: nat)
    requires |ino.addrs| == NDIRECT + 1
  {
    || sb.bmapstart <= b < sb.data
    || (b != 0 && b == ino.addrs[NDIRECT])
    || (b != 0 && exists q :: 0 <= q < MAXFILE && Spans(off, n, q) && BlockOf(d, ino, q) == b)
  }

  ghost predicate Logs(sb: Super, d0: Disk, l0: set<nat>, d1: Disk, l1: set<nat>, ino: Ino, off: nat, n: nat)
    requires |ino.addrs| == NDIRECT + 1
  {
    Collects(d0, l0, d1, l1) && forall b :: b in l1 ==> b in l0 || MayLog(sb, d1, ino, off, n, b)
  }

  lemma LogsNothing(sb: Super, d: Disk, l: set<nat>, ino: Ino, off: nat, n: nat)
    requires |ino.addrs| == NDIRECT + 1
    ensures Logs(sb, d, l, d, l, ino, off, n)
  {
  }

  /** Pointers that are set stay. */
  ghost predicate KeepsPointers(d1: Disk, ino1: Ino, d2: Disk, ino2: Ino)
    requires |ino1.addrs| == |ino2.addrs| == NDIRECT + 1
  {
    forall q :: 0 <= q <= INDIRECT && BlockOf(d1, ino1, q) != 0 ==> BlockOf(d2, ino2, q) == BlockOf(d1, ino1, q)
  }

  lemma GrewKeepsPointers(sb: Super, d1: Disk, n1: Inodes, o1: Owner, d2: Disk, n2: Inodes, o2: Owner, i: nat, slots: set<nat>)
    requires Grew(sb, d1, n1, o1, d2, n2, o2, i, slots)
    ensures i in n1 && i in n2 && |n1[i].addrs| == |n2[i].addrs| == NDIRECT + 1 && KeepsPointers(d1, n1[i], d2, n2[i])
  {
  }

  lemma MayLogStill(sb: Super, d1: Disk, ino1: Ino, d2: Disk, ino2: Ino, off: nat, n: nat, off2: nat, n2: nat, b: nat)
    requires |ino1.addrs| == |ino2.addrs| == NDIRECT + 1 && KeepsPointers(d1, ino1, d2, ino2)
    requires MayLog(sb, d1, ino1, off, n, b)
    requires forall q :: 0 <= q < MAXFILE && Spans(off, n, q) ==> Spans(off2, n2, q)
    ensures MayLog(sb, d2, ino2, off2, n2, b)
  {
    if b != 0 && b == ino1.addrs[NDIRECT] {
      assert BlockOf(d1, ino1, INDIRECT) == b;
    } else if q :| b != 0 && 0 <= q < MAXFILE && Spans(off, n, q) && BlockOf(d1, ino1, q) == b {
      assert Spans(off2, n2, q) && BlockOf(d2, ino2, q) == b;
    }
  }

  lemma LogsTrans(sb: Super, d0: Disk, l0: set<nat>, d1: Disk, l1: set<nat>, ino1: Ino, off1: nat, n1: nat,
                  d2: Disk, l2: set<nat>, ino2: Ino, off2: nat, n2: nat, off: nat, n: nat)
    requires |ino1.addrs| == |ino2.addrs| == NDIRECT + 1 && KeepsPointers(d1, ino1, d2, ino2)
    requires Logs(sb, d0, l0, d1, l1, ino1, off1, n1) && Logs(sb, d1, l1, d2, l2, ino2, off2, n2)
    requires forall q :: 0 <= q < MAXFILE && (Spans(off1, n1, q) || Spans(off2, n2, q)) ==> Spans(off, n, q)
    ensures Logs(sb, d0, l0, d2, l2, ino2, off, n)
  {
    hide MayLog, KeepsPointers, Spans;
    Same(d2, ino2);
    forall b | b in l2 && b !in l0
      ensures MayLog(sb, d2, ino2, off, n, b)
    {
      if b in l1 {
        MayLogStill(sb, d1, ino1, d2, ino2, off1, n1, off, n, b);
      } else {
        MayLogStill(sb, d2, ino2, d2, ino2, off2, n2, off, n, b);
      }
    }
  }

  lemma KeepsMore(d0: Disk, ino0: Ino, d1: Disk, ino1: Ino, d2: Disk, ino2: Ino)
    requires |ino0.addrs| == |ino1.addrs| == |ino2.addrs| == NDIRECT + 1
    requires KeepsPointers(d0, ino0, d1, ino1) && KeepsPointers(d1, ino1, d2, ino2)
    ensures KeepsPointers(d0, ino0, d2, ino2)
  {
  }

  /** A block that has to be allocated was missing from the start. */
  lemma NotMapped(d0: Disk, ino0: Ino, d1: Disk, ino1: Ino, off: nat, n: nat, cur: nat)
    requires |ino0.addrs| == |ino1.addrs| == NDIRECT + 1 && KeepsPointers(d0, ino0, d1, ino1)
    requires off <= cur < off + n && Bn(cur) < MAXFILE && BlockOf(d1, ino1, Bn(cur)) == 0
    ensures !Mapped(d0, ino0, off, n)
  {
    assert Spans(off, n, Bn(cur));
    assert BlockOf(d0, ino0, Bn(cur)) == 0;
  }

  lemma Same(d: Disk, ino: Ino)
    requires |ino.addrs| == NDIRECT + 1
    ensures KeepsPointers(d, ino, d, ino)
  {
  }

  /** One block of the file, as a stretch of it. */
  lemma SpansOne(bn: nat, q: nat)
    ensures Spans(512 * bn, 1, q) <==> q == bn
  {
  }

  /** One more round of readi or writei has mapped its block. */
  lemma LogsMapped(sb: Super, d0: Disk, l0: set<nat>, d1: Disk, n1: Inodes, o1: Owner, l1: set<nat>,
                   d2: Disk, n2: Inodes, o2: Owner, l2: set<nat>, i: nat, off: nat, tot: nat, m: nat)
    requires i in n1 && |n1[i].addrs| == NDIRECT + 1 && Bn(off + tot) < MAXFILE && m > 0 && At(off + tot) + m <= BSIZE
    requires Logs(sb, d0, l0, d1, l1, n1[i], off, tot)
    requires Grew(sb, d1, n1, o1, d2, n2, o2, i, Missing(d1, n1[i], Bn(off + tot)))
    requires |n2[i].addrs| == NDIRECT + 1 && Logs(sb, d1, l1, d2, l2, n2[i], 512 * Bn(off + tot), 1)
    ensures Logs(sb, d0, l0, d2, l2, n2[i], off, tot + m)
  {
    hide Logs, Grew, Missing, Spans, KeepsPointers;
    var bn := Bn(off + tot);
    GrewKeepsPointers(sb, d1, n1, o1, d2, n2, o2, i, Missing(d1, n1[i], bn));
    forall q | 0 <= q < MAXFILE && (Spans(off, tot, q) || Spans(512 * bn, 1, q))
      ensures Spans(off, tot + m, q)
    {
      SpansMore(off, tot, m, q);
      SpansOne(bn, q);
    }
    LogsTrans(sb, d0, l0, d1, l1, n1[i], off, tot, d2, l2, n2[i], 512 * bn, 1, off, tot + m);
  }

  /** writei logs the data block it has copied into. */
  lemma LogsData(sb: Super, d0: Disk, l0: set<nat>, d: Disk, l: set<nat>, n: Inodes, o: Owner, i: nat, off: nat, len: nat, bn: nat, data: Block)
    requires Owned(sb, d, n, o, {}) && i in n && bn < MAXFILE && BlockOf(d, n[i], bn) != 0 && Spans(off, len, bn)
    requires |n[i].addrs| == NDIRECT + 1 && Logs(sb, d0, l0, d, l, n[i], off, len)
    ensures var addr := BlockOf(d, n[i], bn);
            addr < |d| && Logs(sb, d0, l0, d[addr := data], l + {addr}, n[i], off, len)
  {
    hide Owned, Spans;
    var addr := BlockOf(d, n[i], bn);
    OverwriteKeepsOwned(sb, d, n, o, i, bn, data);
    var d' := d[addr := data];
    assert KeepsPointers(d, n[i], d', n[i]);
    forall b | b in l + {addr} && b !in l0
      ensures MayLog(sb, d', n[i], off, len, b)
    {
      if b in l { MayLogStill(sb, d, n[i], d', n[i], off, len, off, len, b); }
    }
  }

  /** What a whole writei can log: besides, the block of the inode. */
  ghost predicate WriteLogs(sb: Super, d0: Disk, l0: set<nat>, d1: Disk, l1: set<nat>, i: nat, ino: Ino, off: nat, n: nat)
    requires |ino.addrs| == NDIRECT + 1
  {
    && Collects(d0, l0, d1, l1)
    && forall b :: b in l1 ==> b in l0 || b == InodeBlock(sb, i) || MayLog(sb, d1, ino, off, n, b)
  }

  lemma LogsInode(sb: Super, d0: Disk, l0: set<nat>, d1: Disk, l1: set<nat>, n1: Inodes, o1: Owner, d2: Disk, i: nat, ino2: Ino, off: nat, len: nat)
    requires PtrsOk(sb, d1, n1, o1) && i in n1 && |n1[i].addrs| == NDIRECT + 1 && ino2.addrs == n1[i].addrs && i < sb.ninodes
    requires |d2| == |d1| && forall b :: 0 <= b < |d1| && b != InodeBlock(sb, i) ==> d2[b] == d1[b]
    requires Logs(sb, d0, l0, d1, l1, n1[i], off, len)
    ensures WriteLogs(sb, d0, l0, d2, l1 + {InodeBlock(sb, i)}, i, ino2, off, len)
  {
    ContentFrame(sb, d1, d2, n1, o1, i);
    assert forall q :: 0 <= q <= INDIRECT ==> BlockOf(d2, ino2, q) == BlockOf(d2, n1[i], q);
    hide PtrsOk, Spans;
    forall b | b in l1 && b !in l0
      ensures MayLog(sb, d2, ino2, off, len, b)
    {
      MayLogStill(sb, d1, n1[i], d2, ino2, off, len, off, len, b);
    }
  }

  /** How many blocks n bytes at off can reach into. */
  lemma SpanCount(off: nat, n: nat, q: nat)
    requires Spans(off, n, q)
    ensures Bn(off) <= q <= Bn(off) + CeilBlocks(n)
  {
  }

  /** Of the blocks a write of n bytes gives to log_write there are at most one more than n bytes
      fill, the inode's block, the indirect block and the bitmap. */
  lemma WriteLogCount(sb: Super, d: Disk, own: set<nat>, i: nat, ino: Ino, off: nat, n: nat)
    requires |ino.addrs| == NDIRECT + 1 && sb.bmapstart <= sb.data
    requires forall b :: b in own ==> b == InodeBlock(sb, i) || MayLog(sb, d, ino, off, n, b)
    ensures |own| <= CeilBlocks(n) + 3 + (sb.data - sb.bmapstart)
  {
    var bits := seq(sb.data - sb.bmapstart, k requires 0 <= k => sb.bmapstart + k);
    var data := seq(CeilBlocks(n) + 1, k requires 0 <= k => if Bn(off) + k < MAXFILE then BlockOf(d, ino, Bn(off) + k) else 0);
    var all := bits + [InodeBlock(sb, i), ino.addrs[NDIRECT]] + data;
    forall b | b in own
      ensures b in Elements(all)
    {
      if sb.bmapstart <= b < sb.data {
        assert all[b - sb.bmapstart] == b;
      } else if b == InodeBlock(sb, i) {
        assert all[|bits|] == b;
      } else if b == ino.addrs[NDIRECT] {
        assert all[|bits| + 1] == b;
      } else {
        var q :| 0 <= q < MAXFILE && Spans(off, n, q) && BlockOf(d, ino, q) == b;
        SpanCount(off, n, q);
        assert all[|bits| + 2 + (q - Bn(off))] == b;
      }
    }
    CardSubset(own, Elements(all));
    CountAtMost(all);
  }

  /** Freeing blocks changes and logs bitmap blocks only. */
  ghost predicate FreeLogs(sb: Super, d0: Disk, l0: set<nat>, d1: Disk, l1: set<nat>) {
    Collects(d0, l0, d1, l1) && forall b :: b in l1 ==> b in l0 || sb.bmapstart <= b < sb.data
  }

  lemma FreeLogsNone(sb: Super, d: Disk, l: set<nat>)
    ensures FreeLogs(sb, d, l, d, l)
  {
  }

  lemma FreeLogsMore(sb: Super, d0: Disk, l0: set<nat>, d1: Disk, l1: set<nat>, b: nat)
    requires Geometry(sb, |d1|) && FreeLogs(sb, d0, l0, d1, l1) && b < sb.size && Used(sb, d1, b)
    ensures FreeLogs(sb, d0, l0, MarkFree(sb, d1, b), l1 + {sb.bmapstart + b / BPB})
  {
  }

  lemma FreeIsData(sb: Super, d: Disk, n: Inodes, o: Owner, b: nat)
    requires Owned(sb, d, n, o, {}) && b < sb.size && !Used(sb, d, b)
    ensures b >= sb.data && b > 0 && |MarkUsed(sb, d, b)| == |d|
  {
  }

  lemma AllocLogs(sb: Super, d0: Disk, l0: set<nat>, d1: Disk, b: nat, ino: Ino, s: nat)
    requires Geometry(sb, |d0|) && 0 < b < sb.size && !Used(sb, d0, b) && d1 == MarkUsed(sb, d0, b)[b := Zero()]
    requires |ino.addrs| == NDIRECT + 1 && (s < NDIRECT || s == INDIRECT) && BlockOf(d1, ino, s) == b
    ensures Logs(sb, d0, l0, d1, l0 + {sb.bmapstart + b / BPB, b}, ino, 512 * s, 1)
  {
    SpansOne(s, s);
  }

  lemma LogsTwice(sb: Super, d0: Disk, l0: set<nat>, d1: Disk, n1: Inodes, o1: Owner, l1: set<nat>,
                  d2: Disk, n2: Inodes, o2: Owner, l2: set<nat>, i: nat, bn: nat)
    requires Grew(sb, d1, n1, o1, d2, n2, o2, i, {bn}) && |n1[i].addrs| == |n2[i].addrs| == NDIRECT + 1
    requires Logs(sb, d0, l0, d1, l1, n1[i], 512 * INDIRECT, 1) && Logs(sb, d1, l1, d2, l2, n2[i], 512 * bn, 1)
    ensures Logs(sb, d0, l0, d2, l2, n2[i], 512 * bn, 1)
  {
    hide Logs, Grew, KeepsPointers;
    GrewKeepsPointers(sb, d1, n1, o1, d2, n2, o2, i, {bn});
    LogsTrans(sb, d0, l0, d1, l1, n1[i], 512 * INDIRECT, 1, d2, l2, n2[i], 512 * bn, 1, 512 * bn, 1);
  }

  lemma AllocLogsToo(sb: Super, d0: Disk, l0: set<nat>, d2: Disk, b: nat, ino: Ino, s: nat)
    requires Geometry(sb, |d0|) && 0 < b < sb.size && !Used(sb, d0, b) && |ino.addrs| == NDIRECT + 1 && 0 < ino.addrs[NDIRECT] < |d0|
    requires var d1 := MarkUsed(sb, d0, b)[b := Zero()]; |d2| == |d1| && forall x :: 0 <= x < |d1| && x != ino.addrs[NDIRECT] ==> d2[x] == d1[x]
    requires NDIRECT <= s < MAXFILE && BlockOf(d2, ino, s) == b
    ensures Logs(sb, d0, l0, d2, l0 + {sb.bmapstart + b / BPB, b} + {ino.addrs[NDIRECT]}, ino, 512 * s, 1)
  {
    SpansOne(s, s);
  }

  datatype Result = Done(n: int) | Panicked

  /** No block is left; balloc panics. */
  ghost predicate FullDisk(sb: Super, d: Disk) {
    Geometry(sb, |d|) && forall x :: 0 <= x < sb.size ==> Used(sb, d, x)
  }

  class FileSystem {
    const sb: Super
    var disk: Disk
    var inodes: Inodes      // the in-core inodes
    var logged: set<nat>    // the blocks given to log_write since begin_op
    ghost var owner: Owner

    /** Every allocated block is owned once. */
    ghost predicate Valid()
      reads this
    {
      Owned(sb, disk, inodes, owner, {})
    }

    /** Besides, no file has a hole and every inode on disk is in step. */
    ghost predicate Resting()
      reads this
    {
      AtRest(sb, disk, inodes, owner)
    }

    /** The image mkfs starts from: zeroed blocks, empty inodes, and the blocks before the data
        area marked used. */
    constructor (sb: Super, nblocks: nat)
      requires Geometry(sb, nblocks)
      ensures Valid() && Resting() && this.sb == sb && |disk| == nblocks && logged == {} && owner == map[]
      ensures forall i :: i in inodes <==> 0 <= i < sb.ninodes
      ensures forall i :: i in inodes ==> inodes[i] == EmptyIno()
      ensures forall x :: 0 <= x < sb.size ==> (Used(sb, disk, x) <==> x < sb.data)
    {
      this.sb := sb;
      disk := seq(nblocks, _ => Zero());
      inodes := map i | i in Below(sb.ninodes) :: EmptyIno();
      owner := map[];
      logged := {};
      new;
      AllFree(sb, disk);
      assert MarkedBelow(sb, disk, 0);
      ghost var n := inodes;
      hide MarkedBelow, AtRest, Used;
      var b: nat := 0;
      while b < sb.data
        invariant b <= sb.data && |disk| == nblocks && inodes == n && owner == map[] && logged == {} && MarkedBelow(sb, disk, b)
      {
        MarkNext(sb, disk, b);
        disk := MarkUsed(sb, disk, b);
        b := b + 1;
      }
      EmptyAtRest(sb, disk, inodes);
      AtRestFacts(sb, disk, inodes, owner);
      MarkedAre(sb, disk);
    }

    /** The first free block, zeroed and marked used; fails only on a full disk. */
    method Balloc() returns (b: nat, ok: bool)
      requires Geometry(sb, |disk|)
      modifies this`disk, this`logged
      ensures logged == if ok then old(logged) + {sb.bmapstart + b / BPB, b} else old(logged)
      ensures !ok ==> disk == old(disk) && forall x :: 0 <= x < sb.size ==> Used(sb, disk, x)
      ensures ok ==> b < sb.size && !Used(sb, old(disk), b)
      ensures ok ==> forall x :: 0 <= x < b ==> Used(sb, old(disk), x)
      ensures ok ==> disk == MarkUsed(sb, old(disk), b)[b := Zero()]
    {
      var base: nat := 0;
      while base < sb.size
        invariant base % BPB == 0 && disk == old(disk) && logged == old(logged)
        invariant forall x :: 0 <= x < base && x < sb.size ==> Used(sb, disk, x)
      {
        var bp := disk[sb.bmapstart + base / BPB];
        var bi: nat := 0;
        while bi < BPB && base + bi < sb.size
          invariant bi <= BPB && disk == old(disk) && logged == old(logged)
          invariant forall x :: 0 <= x < base + bi && x < sb.size ==> Used(sb, disk, x)
        {
          assert (base + bi) / BPB == base / BPB && (base + bi) % BPB == bi;
          if !Bit(bp, bi) {
            disk := disk[sb.bmapstart + base / BPB := SetBit(bp, bi)];
            disk := disk[base + bi := Zero()];
            logged := logged + {sb.bmapstart + base / BPB, base + bi};
            return base + bi, true;
          }
          bi := bi + 1;
        }
        base := base + BPB;
      }
      return 0, false;
    }

    /** Free a block; ok is false for "freeing free block". */
    method Bfree(b: nat) returns (ok: bool)
      requires Geometry(sb, |disk|) && b < sb.size
      modifies this`disk, this`logged
      ensures logged == if ok then old(logged) + {sb.bmapstart + b / BPB} else old(logged)
      ensures ok <==> Used(sb, old(disk), b)
      ensures disk == if ok then MarkFree(sb, old(disk), b) else old(disk)
    {
      var bp := disk[sb.bmapstart + b / BPB];
      if !Bit(bp, b % BPB) { return false; }
      disk := disk[sb.bmapstart + b / BPB := ClearBit(bp, b % BPB)];
      logged := logged + {sb.bmapstart + b / BPB};
      ok := true;
    }

    /** `ip->addrs[t] = balloc()`. */
    method BallocIntoInode(i: nat, s: nat) returns (b: nat, ok: bool)
      requires Owned(sb, disk, inodes, owner, {}) && i in inodes
      requires (s < NDIRECT || s == INDIRECT) && BlockOf(disk, inodes[i], s) == 0
      modifies this
      ensures ok ==> Grew(sb, old(disk), old(inodes), old(owner), disk, inodes, owner, i, {s})
      ensures ok ==> b == BlockOf(disk, inodes[i], s)
      ensures ok ==> Logs(sb, old(disk), old(logged), disk, logged, inodes[i], 512 * s, 1)
      ensures !ok ==> FullDisk(sb, disk) && disk == old(disk)
    {
      hide Owned, Grew, Logs, Used, BlockOf, MarkUsed;
      OwnedPtrs(sb, disk, inodes, owner);
      ghost var d0 := disk;
      b, ok := Balloc();
      if ok {
        FreeIsData(sb, d0, inodes, owner, b);
        GrowInInode(sb, d0, inodes, owner, b, i, s);
        inodes := inodes[i := SetAddr(inodes[i], AddrIndex(s), b)];
        owner := owner[b := (i, s)];
        AllocLogs(sb, d0, old(logged), disk, b, inodes[i], s);
      }
    }

    /** `a[bn] = balloc()` in the indirect block of inode i. */
    method BallocIntoIndirect(i: nat, s: nat) returns (b: nat, ok: bool)
      requires Owned(sb, disk, inodes, owner, {}) && i in inodes && NDIRECT <= s < MAXFILE
      requires BlockOf(disk, inodes[i], INDIRECT) != 0 && BlockOf(disk, inodes[i], s) == 0
      modifies this
      ensures ok ==> Grew(sb, old(disk), old(inodes), old(owner), disk, inodes, owner, i, {s})
      ensures ok ==> inodes == old(inodes) && b == BlockOf(disk, inodes[i], s)
      ensures ok ==> Logs(sb, old(disk), old(logged), disk, logged, inodes[i], 512 * s, 1)
      ensures !ok ==> FullDisk(sb, disk)
    {
      hide Owned, Grew, Logs, Used, MarkUsed;
      OwnedPtrs(sb, disk, inodes, owner);
      ghost var d0 := disk;
      b, ok := Balloc();
      if ok {
        FreeIsData(sb, d0, inodes, owner, b);
        GrowInIndirect(sb, d0, inodes, owner, b, i, s);
        var ind := inodes[i].addrs[NDIRECT];
        disk := disk[ind := PutWord(disk[ind], s - NDIRECT, b)];
        logged := logged + {ind};
        owner := owner[b := (i, s)];
        AllocLogsToo(sb, d0, old(logged), disk, b, inodes[i], s);
      }
    }

    /** The block holding block bn of inode i, allocated if there is none. It fails only
        past MAXFILE or when the disk is full. */
    method Bmap(i: nat, bn: nat) returns (addr: nat, ok: bool)
      requires Owned(sb, disk, inodes, owner, {}) && i in inodes
      modifies this
      ensures ok ==> bn < MAXFILE
      ensures !ok && bn < MAXFILE ==> FullDisk(sb, disk)
      ensures !ok && bn < NDIRECT ==> disk == old(disk)
      ensures ok ==> Grew(sb, old(disk), old(inodes), old(owner), disk, inodes, owner, i,
                          Missing(old(disk), old(inodes)[i], bn))
      ensures ok ==> addr == BlockOf(disk, inodes[i], bn) && addr != 0
      ensures ok ==> Logs(sb, old(disk), old(logged), disk, logged, inodes[i], 512 * bn, 1)
      ensures bn < MAXFILE && BlockOf(old(disk), old(inodes)[i], bn) != 0
              ==> ok && disk == old(disk) && inodes == old(inodes) && owner == old(owner) && logged == old(logged)
    {
      hide Logs, Owned, Grew;
      OwnedPtrs(sb, disk, inodes, owner);
      GrewNothing(sb, disk, inodes, owner, i);
      LogsNothing(sb, disk, logged, inodes[i], 512 * bn, 1);
      if bn < MAXFILE { MissingIs(disk, inodes[i], bn); }
      if bn < NDIRECT {
        addr, ok := inodes[i].addrs[bn], true;
        if addr == 0 {
          addr, ok := BallocIntoInode(i, bn);
          if ok { GrewOne(sb, old(disk), old(inodes), old(owner), disk, inodes, owner, i, bn); }
        }
        return;
      }
      if bn - NDIRECT < NINDIRECT {
        IndirectFacts(sb, disk, inodes, owner, i);
        var ind := inodes[i].addrs[NDIRECT];
        if ind == 0 {
          ind, ok := BallocIntoInode(i, INDIRECT);
          if !ok { return 0, false; }
          GrewOne(sb, old(disk), old(inodes), old(owner), disk, inodes, owner, i, INDIRECT);
        }
        addr, ok := MapIndirect(i, bn, ind, old(disk), old(inodes), old(owner), old(logged));
        return;
      }
      return 0, false;
    }

    /** The rest of bmap, once the indirect block is there. */
    method MapIndirect(i: nat, bn: nat, ind: nat, ghost d0: Disk, ghost n0: Inodes, ghost o0: Owner, ghost l0: set<nat>)
      returns (addr: nat, ok: bool)
      requires Owned(sb, d0, n0, o0, {}) && i in n0 && NDIRECT <= bn < MAXFILE
      requires Owned(sb, disk, inodes, owner, {}) && i in inodes && ind == inodes[i].addrs[NDIRECT] != 0
      requires if n0[i].addrs[NDIRECT] != 0 then disk == d0 && inodes == n0 && owner == o0 && logged == l0
               else Grew(sb, d0, n0, o0, disk, inodes, owner, i, {INDIRECT}) && Logs(sb, d0, l0, disk, logged, inodes[i], 512 * INDIRECT, 1)
      modifies this
      ensures !ok ==> FullDisk(sb, disk)
      ensures ok ==> Grew(sb, d0, n0, o0, disk, inodes, owner, i, Missing(d0, n0[i], bn))
      ensures ok ==> addr == BlockOf(disk, inodes[i], bn) && addr != 0
      ensures ok ==> Logs(sb, d0, l0, disk, logged, inodes[i], 512 * bn, 1)
      ensures BlockOf(d0, n0[i], bn) != 0 ==> ok && disk == d0 && inodes == n0 && owner == o0 && logged == l0
    {
      hide Logs, Owned, Grew;
      OwnedPtrs(sb, d0, n0, o0);
      MissingIs(d0, n0[i], bn);
      IndirectFacts(sb, disk, inodes, owner, i);
      GrewNothing(sb, disk, inodes, owner, i);
      LogsNothing(sb, disk, logged, inodes[i], 512 * bn, 1);
      ghost var d1, n1, o1, l1 := disk, inodes, owner, logged;
      addr, ok := Word(disk[ind], bn - NDIRECT), true;
      if n0[i].addrs[NDIRECT] == 0 { GrewIndirect(sb, d0, n0, o0, disk, inodes, owner, i, bn); }
      if addr == 0 {
        addr, ok := BallocIntoIndirect(i, bn);
        if ok {
          GrewOne(sb, d1, n1, o1, disk, inodes, owner, i, bn);
          if n0[i].addrs[NDIRECT] == 0 {
            GrewTwice(sb, d0, n0, o0, d1, n1, o1, disk, inodes, owner, i, bn);
            LogsTwice(sb, d0, l0, d1, n1, o1, l1, disk, inodes, owner, logged, i, bn);
          }
        }
      }
    }

    /** Copy inode i to its place on disk. */
    method Iupdate(i: nat)
      requires Owned(sb, disk, inodes, owner, {}) && i in inodes
      modifies this`disk, this`logged
      ensures logged == old(logged) + {InodeBlock(sb, i)}
      ensures Owned(sb, disk, inodes, owner, {}) && |disk| == |old(disk)|
      ensures Synced(sb, disk, inodes, i)
      ensures forall j :: j in inodes && j != i && Synced(sb, old(disk), inodes, j) ==> Synced(sb, disk, inodes, j)
      ensures forall b :: 0 <= b < |disk| && b != InodeBlock(sb, i) ==> disk[b] == old(disk)[b]
    {
      ghost var d0 := disk;
      var ino := inodes[i];
      var bp := disk[InodeBlock(sb, i)];
      var data := PutWords(bp, 16 * (i % IPB), DinodeWords(ino));
      InodeBlockWrite(sb, disk, inodes, owner, InodeBlock(sb, i), data);
      disk := disk[InodeBlock(sb, i) := data];
      logged := logged + {InodeBlock(sb, i)};
      DinodeRoundTrip(bp, i % IPB, ino, i % IPB);
      forall j | j in inodes && j != i && Synced(sb, d0, inodes, j)
        ensures Synced(sb, disk, inodes, j)
      {
        if j / IPB == i / IPB { DinodeRoundTrip(bp, i % IPB, ino, j % IPB); }
      }
    }

    /** One round of the loop of readi: the next bytes of the file, all in one block. */
    method ReadRound(i: nat, off0: nat, tot: nat, left: nat, ghost d0: Disk, ghost n0: Inodes, ghost o0: Owner, ghost l0: set<nat>)
      returns (bytes: seq<Byte>, ok: bool)
      requires Reading(sb, d0, n0, o0, disk, inodes, owner, i, off0, tot) && PtrsOk(sb, d0, n0, o0)
      requires left > 0 && off0 + tot + left <= n0[i].size
      requires Logs(sb, d0, l0, disk, logged, inodes[i], off0, tot) && (Mapped(d0, n0[i], off0, tot) ==> logged == l0)
      modifies this
      ensures i in n0 && |n0[i].addrs| == NDIRECT + 1
      ensures !ok ==> FullDisk(sb, disk) || Bn(off0 + tot) >= MAXFILE
      ensures !ok && Bn(off0 + tot) < NDIRECT ==> disk == old(disk)
      ensures NoHoles(d0, n0, i) ==> ok
      ensures ok ==> |bytes| == Chunk(left, off0 + tot) && 0 < |bytes| <= left && bytes == Content(d0, n0[i])[off0 + tot..off0 + tot + |bytes|]
      ensures ok ==> Reading(sb, d0, n0, o0, disk, inodes, owner, i, off0, tot + |bytes|)
      ensures ok ==> Logs(sb, d0, l0, disk, logged, inodes[i], off0, tot + |bytes|)
      ensures ok && Mapped(d0, n0[i], off0, tot + |bytes|) ==> logged == l0
    {
      hide BlockOf, Content, Grew, Extent, PtrsOk, Owned, FullDisk, Reading, NoHoles, Mapped, Logs, Missing;
      var off := off0 + tot;
      ReadingFacts(sb, d0, n0, o0, disk, inodes, owner, i, off0, tot);
      ghost var d1, n1, o1, l1 := disk, inodes, owner, logged;
      if NoHoles(d0, n0, i) {
        ReadMapped(d0, n0, i, off, left);
        ReadMapped(d0, n0, i, off0, tot);
      }
      var addr;
      addr, ok := Bmap(i, Bn(off));
      bytes := [];
      if ok {
        var m := Chunk(left, off);
        ReadGrow(sb, d0, n0, o0, d1, n1, o1, disk, inodes, owner, i, off0, tot, m);
        MappedMore(d0, n0[i], off0, tot, m);
        ReadingFacts(sb, d0, n0, o0, disk, inodes, owner, i, off0, tot + m);
        LogsMapped(sb, d0, l0, d1, n1, o1, l1, disk, inodes, owner, logged, i, off0, tot, m);
        DataBlock(sb, disk, inodes, owner, i, Bn(off));
        ReadChunk(disk, inodes[i], off, m);
        bytes := disk[addr][At(off)..At(off) + m];
      }
    }

    /** The loop of readi. */
    method ReadAll(i: nat, off0: nat, left: nat, ghost d0: Disk, ghost n0: Inodes, ghost o0: Owner, ghost l0: set<nat>)
      returns (dst: seq<Byte>, ok: bool)
      requires Reading(sb, d0, n0, o0, disk, inodes, owner, i, off0, 0) && PtrsOk(sb, d0, n0, o0) && disk == d0
      requires i in n0 && |n0[i].addrs| == NDIRECT + 1 && off0 + left <= n0[i].size
      requires i in inodes && |inodes[i].addrs| == NDIRECT + 1 && Logs(sb, d0, l0, disk, logged, inodes[i], off0, 0) && logged == l0
      modifies this
      ensures !ok ==> FullDisk(sb, disk) || n0[i].size > MAXFILE * BSIZE
      ensures !ok && Bn(off0) < NDIRECT && At(off0) + left <= BSIZE ==> FullDisk(sb, d0)
      ensures NoHoles(d0, n0, i) ==> ok
      ensures ok ==> dst == Content(d0, n0[i])[off0..off0 + left] && Reading(sb, d0, n0, o0, disk, inodes, owner, i, off0, left)
      ensures ok ==> i in inodes && |inodes[i].addrs| == NDIRECT + 1 && Logs(sb, d0, l0, disk, logged, inodes[i], off0, left)
      ensures ok && Mapped(d0, n0[i], off0, left) ==> logged == l0
    {
      hide Owned, Content, NoHoles, Reading, FullDisk, PtrsOk, Mapped, Logs;
      ghost var c := Content(d0, n0[i]);
      dst := [];
      var tot: nat := 0;
      while tot < left
        invariant tot <= left
        invariant (tot == 0 ==> disk == d0) && (At(off0) + left <= BSIZE ==> tot == 0 || tot == left)
        invariant Reading(sb, d0, n0, o0, disk, inodes, owner, i, off0, tot)
        invariant i in inodes && |inodes[i].addrs| == NDIRECT + 1 && Logs(sb, d0, l0, disk, logged, inodes[i], off0, tot)
        invariant Mapped(d0, n0[i], off0, tot) ==> logged == l0
        invariant dst == c[off0..off0 + tot]
      {
        var bytes;
        bytes, ok := ReadRound(i, off0, tot, left - tot, d0, n0, o0, l0);
        if !ok { return [], false; }
        dst := dst + bytes;
        tot := tot + |bytes|;
        ReadingFacts(sb, d0, n0, o0, disk, inodes, owner, i, off0, tot);
      }
      ok := true;
    }

    /** Read up to n bytes at off, from a file that may have holes. uint arithmetic is modulo
        UINT, so the test `off + n < off` catches a sum that wraps. The bytes are those of the
        file; a hole reads as zeros and is filled with a zeroed block on the way, which changes
        no file's bytes but can leave the inode on disk behind, as HasRead says. */
    method Readi(i: nat, off0: nat, n: nat) returns (r: Result, dst: seq<Byte>)
      requires Valid() && i in inodes && off0 < UINT && n < UINT
      modifies this
      ensures old(NoHoles(disk, inodes, i)) ==> disk == old(disk) && inodes == old(inodes) && owner == old(owner) && r.Done?
      ensures r == Panicked ==> FullDisk(sb, disk) || old(inodes)[i].size > MAXFILE * BSIZE
      ensures r == Panicked && Bn(off0) < NDIRECT && At(off0) + n <= BSIZE ==> FullDisk(sb, old(disk))
      ensures r == Done(-1) <==> off0 > old(inodes)[i].size || off0 + n >= UINT
      ensures r == Done(-1) ==> disk == old(disk) && inodes == old(inodes) && owner == old(owner)
      ensures r.Done? && r != Done(-1) ==>
                && dst == old(Content(disk, inodes[i]))[off0..Min(off0 + n, old(inodes)[i].size)]
                && r == Done(|dst|)
                && HasRead(sb, old(disk), old(inodes), disk, inodes, owner, i, off0, |dst|)
                && Logs(sb, old(disk), old(logged), disk, logged, inodes[i], off0, |dst|)
                && (Mapped(old(disk), old(inodes)[i], off0, |dst|) ==> logged == old(logged))
    {
      hide Owned, Content, NoHoles, Reading, FullDisk, PtrsOk, Mapped, HasRead, Logs;
      Wraps(off0, n);
      OwnedPtrs(sb, disk, inodes, owner);
      ghost var d0, n0, o0 := disk, inodes, owner;
      ReadStart(sb, disk, inodes, owner, i, off0);
      var off, left := off0, n;
      if off > inodes[i].size || (off + left) % UINT < off { return Done(-1), []; }
      if off + left > inodes[i].size { left := inodes[i].size - off; }
      ghost var l0 := logged;
      LogsNothing(sb, disk, logged, inodes[i], off0, 0);
      if NoHoles(d0, n0, i) { ReadMapped(d0, n0, i, off0, left); }
      var ok;
      dst, ok := ReadAll(i, off0, left, d0, n0, o0, l0);
      if !ok { return Panicked, []; }
      ReadingFacts(sb, d0, n0, o0, disk, inodes, owner, i, off0, left);
      ReadDone(sb, d0, n0, o0, disk, inodes, owner, i, off0, left);
      r := Done(left);
    }

    /** One round of the loop of writei; ok is false when the disk is out of blocks. */
    method WriteRound(i: nat, src: seq<Byte>, off0: nat, tot: nat, ghost d0: Disk, ghost n0: Inodes, ghost o0: Owner, ghost l0: set<nat>)
      returns (m: nat, ok: bool)
      requires Writing(sb, d0, n0, o0, disk, inodes, owner, i, off0, src, tot)
      requires Logs(sb, d0, l0, disk, logged, inodes[i], off0, tot)
      requires tot < |src| && off0 + |src| <= MAXFILE * BSIZE
      modifies this
      ensures !ok ==> FullDisk(sb, disk) && (Bn(off0 + tot) < NDIRECT ==> disk == old(disk))
      ensures ok ==> 0 < m <= |src| - tot && m == Chunk(|src| - tot, off0 + tot)
      ensures ok ==> Writing(sb, d0, n0, o0, disk, inodes, owner, i, off0, src, tot + m)
      ensures ok ==> i in inodes && |inodes[i].addrs| == NDIRECT + 1 && Logs(sb, d0, l0, disk, logged, inodes[i], off0, tot + m)
      ensures ok ==> i in old(inodes) && |old(inodes)[i].addrs| == NDIRECT + 1 && KeepsPointers(old(disk), old(inodes)[i], disk, inodes[i])
      ensures !ok ==> |old(inodes)[i].addrs| == NDIRECT + 1 && Bn(off0 + tot) < MAXFILE && BlockOf(old(disk), old(inodes)[i], Bn(off0 + tot)) == 0
    {
      hide Writing, Grew, Owned, PtrsOk, Extent, BlockOf, Overwrite, OnlyInode, Logs, Missing;
      ghost var d1, n1, o1, l1 := disk, inodes, owner, logged;
      var off := off0 + tot;
      WritingFacts(sb, d0, n0, o0, disk, inodes, owner, i, off0, src, tot);
      var addr;
      addr, ok := Bmap(i, Bn(off));
      m := Chunk(|src| - tot, off);
      if ok {
        GrewFacts(sb, d1, n1, o1, disk, inodes, owner, i, Missing(d1, n1[i], Bn(off)));
        DataBlock(sb, disk, inodes, owner, i, Bn(off));
        ghost var d2 := disk;
        LogsMapped(sb, d0, l0, d1, n1, o1, l1, disk, inodes, owner, logged, i, off0, tot, m);
        SpansMore(off0, tot, m, Bn(off));
        GrewKeepsPointers(sb, d1, n1, o1, disk, inodes, owner, i, Missing(d1, n1[i], Bn(off)));
        OverwriteKeepsOwned(sb, disk, inodes, owner, i, Bn(off), Overwrite(disk[addr], At(off), src[tot..tot + m]));
        LogsData(sb, d0, l0, disk, logged, inodes, owner, i, off0, tot + m, Bn(off), Overwrite(disk[addr], At(off), src[tot..tot + m]));
        disk := disk[addr := Overwrite(disk[addr], At(off), src[tot..tot + m])];
        logged := logged + {addr};
        WriteChunk(sb, d0, n0, o0, d1, n1, o1, d2, inodes, owner, disk, i, off0, src, tot, m);
      }
    }

    /** The end of writei: the file's size follows what was written. */
    method FinishWrite(i: nat, off: nat, ghost src: seq<Byte>, ghost off0: nat,
                       ghost d0: Disk, ghost n0: Inodes, ghost o0: Owner, ghost l0: set<nat>)
      requires Owned(sb, d0, n0, o0, {}) && Writing(sb, d0, n0, o0, disk, inodes, owner, i, off0, src, |src|)
      requires off == off0 + |src| < UINT && Logs(sb, d0, l0, disk, logged, inodes[i], off0, |src|)
      modifies this
      ensures Geometry(sb, |d0|) && Written(sb, d0, n0, disk, inodes, owner, i, off0, src)
      ensures i in inodes && |inodes[i].addrs| == NDIRECT + 1
      ensures WriteLogs(sb, d0, l0, disk, logged, i, inodes[i], off0, |src|)
    {
      hide Writing, Content, Owned, Extent, Written, Synced, MayLog;
      WritingFacts(sb, d0, n0, o0, disk, inodes, owner, i, off0, src, |src|);
      if off > inodes[i].size {
        ghost var d1, n1, l1 := disk, inodes, logged;
        OwnedPtrs(sb, disk, inodes, owner);
        SizeKeepsOwned(sb, disk, inodes, owner, i, off);
        inodes := inodes[i := inodes[i].(size := off)];
        Iupdate(i);
        LogsInode(sb, d0, l0, d1, l1, n1, owner, disk, i, inodes[i], off0, |src|);
        WroteLonger(sb, d0, n0, o0, d1, n1, owner, i, off0, src, disk, inodes);
      } else {
        WroteInside(sb, d0, n0, o0, disk, inodes, owner, i, off0, src);
      }
    }

    /** Write src at off, in a file that may have holes. It fails exactly when off lies past the
        end of the file or the write would pass the largest file; it stops the machine only when
        the disk runs out of blocks; otherwise it splices src into the file and into no other
        file, and the inode on disk is in step exactly as Written says. */
    method Writei(i: nat, src: seq<Byte>, off0: nat) returns (r: Result)
      requires Valid() && i in inodes && off0 < UINT && |src| < UINT
      modifies this
      ensures r == Done(-1) <==>
                off0 > old(inodes)[i].size || off0 + |src| >= UINT || off0 + |src| > MAXFILE * BSIZE
      ensures r == Done(-1) ==> disk == old(disk) && inodes == old(inodes) && owner == old(owner)
      ensures r == Panicked ==> FullDisk(sb, disk) && !Mapped(old(disk), old(inodes)[i], off0, |src|)
      ensures r == Panicked && Bn(off0) < NDIRECT && At(off0) + |src| <= BSIZE ==> FullDisk(sb, old(disk))
      ensures r.Done? && r != Done(-1) ==>
                && r == Done(|src|) && Written(sb, old(disk), old(inodes), disk, inodes, owner, i, off0, src)
                && WriteLogs(sb, old(disk), old(logged), disk, logged, i, inodes[i], off0, |src|)
      ensures r == Done(-1) ==> logged == old(logged)
      ensures r.Done? && old(Resting()) ==> Resting()
    {
      hide Owned, AtRest, Writing, Written, FullDisk, Logs, WriteLogs, KeepsPointers, BlockOf, Mapped;
      Wraps(off0, |src|);
      OwnedPtrs(sb, disk, inodes, owner);
      ghost var d0, n0, o0 := disk, inodes, owner;
      var n, off := |src|, off0;
      if off > inodes[i].size || (off + n) % UINT < off { return Done(-1); }
      if off + n > MAXFILE * BSIZE { return Done(-1); }
      var tot: nat := 0;
      WriteStart(sb, disk, inodes, owner, i, off, src);
      ghost var l0 := logged;
      LogsNothing(sb, disk, logged, inodes[i], off, 0);
      Same(disk, inodes[i]);
      while tot < n
        invariant tot <= n && off == off0 + tot
        invariant tot == 0 ==> disk == d0
        invariant At(off0) + n <= BSIZE ==> tot == 0 || tot == n
        invariant Writing(sb, d0, n0, o0, disk, inodes, owner, i, off0, src, tot)
        invariant i in inodes && |inodes[i].addrs| == NDIRECT + 1 && Logs(sb, d0, l0, disk, logged, inodes[i], off0, tot)
        invariant KeepsPointers(d0, n0[i], disk, inodes[i])
      {
        ghost var d1, ino1 := disk, inodes[i];
        var m, ok := WriteRound(i, src, off0, tot, d0, n0, o0, l0);
        if !ok {
          NotMapped(d0, n0[i], d1, ino1, off0, n, off);
          return Panicked;
        }
        KeepsMore(d0, n0[i], d1, ino1, disk, inodes[i]);
        tot, off := tot + m, off + m;
      }
      FinishWrite(i, off, src, off0, d0, n0, o0, l0);
      if AtRest(sb, d0, n0, o0) { AtRestAgain(sb, d0, n0, o0, disk, inodes, owner, i, off0, src); }
      r := Done(n);
    }

    /** The loop of itrunc over the direct blocks; ok is false for "freeing free block". */
    method FreeDirect(i: nat) returns (ok: bool)
      requires Owned(sb, disk, inodes, owner, {}) && i in inodes
      modifies this
      ensures ok && Owned(sb, disk, inodes, owner, {})
      ensures Dropped(sb, old(disk), old(inodes), old(owner), disk, inodes, owner, i, NDIRECT)
      ensures FreeLogs(sb, old(disk), old(logged), disk, logged)
    {
      hide Owned, Dropped, FreeLogs;
      ghost var d0, n0, o0, l0 := disk, inodes, owner, logged;
      FreeLogsNone(sb, disk, logged);
      DropNothing(sb, disk, inodes, owner, i);
      var t: nat := 0;
      while t < NDIRECT
        invariant t <= NDIRECT && Owned(sb, disk, inodes, owner, {})
        invariant Dropped(sb, d0, n0, o0, disk, inodes, owner, i, t) && FreeLogs(sb, d0, l0, disk, logged)
      {
        DroppedFacts(sb, d0, n0, o0, disk, inodes, owner, i, t);
        OwnedFacts(sb, disk, inodes, owner, i, t);
        var b := inodes[i].addrs[t];
        ghost var d1, n1, o1 := disk, inodes, owner;
        if b != 0 {
          UnlinkDirect(sb, disk, inodes, owner, i, t);
          FreeKeepsOwned(sb, disk, inodes[i := SetAddr(inodes[i], t, 0)], owner - {b}, {b}, b);
          assert {b} - {b} == {};
          FreeLogsMore(sb, d0, l0, disk, logged, b);
          ok := Bfree(b);
          if !ok { return; }
          inodes := inodes[i := SetAddr(inodes[i], t, 0)];
          owner := owner - {b};
        }
        DropDirect(sb, d0, n0, o0, d1, n1, o1, disk, inodes, owner, i, t);
        t := t + 1;
      }
      ok := true;
    }

    /** itrunc's part for the indirect block. */
    method FreeIndirect(i: nat) returns (ok: bool)
      requires Owned(sb, disk, inodes, owner, {}) && i in inodes && inodes[i].addrs[NDIRECT] != 0
      requires forall t :: 0 <= t < NDIRECT ==> inodes[i].addrs[t] == 0
      modifies this
      ensures ok && Owned(sb, disk, inodes, owner, {}) && |disk| == |old(disk)|
      ensures inodes == old(inodes)[i := SetAddr(old(inodes)[i], NDIRECT, 0)]
      ensures owner == Without(old(owner), i, INDIRECT + 1)
      ensures forall b :: 0 <= b < |disk| && !(sb.bmapstart <= b < sb.data) ==> disk[b] == old(disk)[b]
      ensures FreeLogs(sb, old(disk), old(logged), disk, logged)
    {
      hide Owned, Without, Holding, BlockOf, FreeLogs;
      ghost var d0, n0, o0, l0 := disk, inodes, owner, logged;
      FreeLogsNone(sb, disk, logged);
      IndirectFacts(sb, disk, inodes, owner, i);
      ghost var n1, o1 := inodes[i := SetAddr(inodes[i], NDIRECT, 0)], Without(owner, i, INDIRECT + 1);
      UnlinkIndirect(sb, disk, inodes, owner, i);
      var ind := inodes[i].addrs[NDIRECT];
      var a := disk[ind];
      var j: nat := 0;
      while j < NINDIRECT
        invariant j <= NINDIRECT && inodes == n0 && |disk| == |d0|
        invariant Owned(sb, disk, n1, o1, Holding(o0, i, NDIRECT + j)) && FreeLogs(sb, d0, l0, disk, logged)
        invariant forall b :: 0 <= b < |disk| && !(sb.bmapstart <= b < sb.data) ==> disk[b] == d0[b]
      {
        HoldingStep(sb, d0, n0, o0, i, j);
        var b := Word(a, j);
        if b != 0 {
          FreeKeepsOwned(sb, disk, n1, o1, Holding(o0, i, NDIRECT + j), b);
          FreeLogsMore(sb, d0, l0, disk, logged, b);
          ok := Bfree(b);
          if !ok { return; }
        }
        j := j + 1;
      }
      HoldingLast(sb, d0, n0, o0, i);
      FreeKeepsOwned(sb, disk, n1, o1, {ind}, ind);
      assert {ind} - {ind} == {};
      FreeLogsMore(sb, d0, l0, disk, logged, ind);
      ok := Bfree(ind);
      if !ok { return; }
      inodes := inodes[i := SetAddr(inodes[i], NDIRECT, 0)];
      owner := o1;
    }

    /** Discard the contents of inode i. It never meets a free block it should free, and it
        frees exactly the blocks the inode owned. */
    method Itrunc(i: nat) returns (ok: bool)
      requires Valid() && i in inodes
      modifies this
      ensures ok && Valid() && Geometry(sb, |old(disk)|) && |disk| == |old(disk)|
      ensures inodes == old(inodes)[i := old(inodes)[i].(size := 0, addrs := seq(NDIRECT + 1, _ => 0))]
      ensures owner == Without(old(owner), i, INDIRECT + 1)
      ensures forall b :: 0 <= b < sb.size ==>
                (Used(sb, disk, b) <==> Used(sb, old(disk), b) && !(b in old(owner) && old(owner)[b].0 == i))
      ensures i < sb.ninodes && Synced(sb, disk, inodes, i) && NoHoles(disk, inodes, i)
      ensures forall j :: j in inodes && j != i ==> Untouched(sb, old(disk), old(inodes), disk, inodes, j)
      ensures Collects(old(disk), old(logged), disk, logged)
      ensures forall b :: b in logged ==> b in old(logged) || sb.bmapstart <= b < sb.data || b == InodeBlock(sb, i)
      ensures old(Resting()) ==> Resting()
    {
      hide AtRest, Owned, Without, BlockOf, Content, Extent, Synced, Used, Untouched;
      ghost var d0, n0, o0 := disk, inodes, owner;
      OwnedPtrs(sb, disk, inodes, owner);
      ok := FreeAll(i);
      ghost var d2 := disk;
      Iupdate(i);
      TruncDone(sb, d0, n0, o0, d2, disk, inodes, owner, i);
      if AtRest(sb, d0, n0, o0) { TruncAtRest(sb, d0, n0, o0, disk, inodes, owner, i); }
    }

    /** Everything itrunc does before it writes the inode back. */
    method FreeAll(i: nat) returns (ok: bool)
      requires Owned(sb, disk, inodes, owner, {}) && i in inodes
      modifies this
      ensures ok && Owned(sb, disk, inodes, owner, {}) && |disk| == |old(disk)|
      ensures inodes == old(inodes)[i := old(inodes)[i].(size := 0, addrs := seq(NDIRECT + 1, _ => 0))]
      ensures owner == Without(old(owner), i, INDIRECT + 1)
      ensures forall b :: 0 <= b < |disk| && !(sb.bmapstart <= b < sb.data) ==> disk[b] == old(disk)[b]
      ensures FreeLogs(sb, old(disk), old(logged), disk, logged)
    {
      hide Owned, Without, BlockOf;
      ghost var d0, n0, o0 := disk, inodes, owner;
      ok := FreeDirect(i);
      if !ok { return; }
      DroppedAll(sb, d0, n0, o0, disk, inodes, owner, i);
      if inodes[i].addrs[NDIRECT] != 0 {
        ok := FreeIndirect(i);
        if !ok { return; }
      }
      SizeKeepsOwned(sb, disk, inodes, owner, i, 0);
      inodes := inodes[i := inodes[i].(size := 0)];
      assert inodes[i].addrs == seq(NDIRECT + 1, _ => 0);
    }
  }

  /** Inode 1 on disk and in memory: two blocks long, the first block there, the second a hole. */
  ghost predicate HoleAtOne(sb: Super, d: Disk, n: Inodes, o: Owner) {
    && Owned(sb, d, n, o, {}) && 1 in n && 1 < sb.ninodes && |n[1].addrs| == NDIRECT + 1
    && n[1].size == 1024 && n[1].addrs[0] != 0 && n[1].addrs[1] == 0
    && Synced(sb, d, n, 1) && !FullDisk(sb, d)
  }

  lemma OneMoreFree(sb: Super, d0: Disk, n0: Inodes, d1: Disk, n1: Inodes, o1: Owner, d2: Disk)
    requires Owned(sb, d1, n1, o1, {}) && Grew(sb, d0, n0, map[], d1, n1, o1, 1, {0}) && sb.data + 1 < sb.size && 1 < sb.ninodes
    requires |d2| == |d1| && forall b :: 0 <= b < |d1| && b != InodeBlock(sb, 1) ==> d2[b] == d1[b]
    ensures !FullDisk(sb, d2)
  {
    hide Grew, BlockOf, Slotted;
    OneOwned(sb, d0, n0, d1, n1, o1, sb.data, sb.data + 1);
    var b := if sb.data in o1 then sb.data + 1 else sb.data;
    assert b !in o1.Keys + {};
    assert !Used(sb, d1, b) && !Used(sb, d2, b);
  }

  lemma OneOwned(sb: Super, d0: Disk, n0: Inodes, d1: Disk, n1: Inodes, o1: Owner, x: nat, y: nat)
    requires Grew(sb, d0, n0, map[], d1, n1, o1, 1, {0}) && x != y
    ensures !(x in o1 && y in o1)
  {
    hide Used;
    if x in o1 { assert o1[x] == (1, 0) && BlockOf(d1, n1[1], 0) == x; }
    if y in o1 { assert o1[y] == (1, 0) && BlockOf(d1, n1[1], 0) == y; }
  }

  /** The root directory as mkfs leaves it when its entries fill a block: mkfs rounds its size up
      to the next block without giving it that block. */
  method RootWithHole(sb: Super, nblocks: nat) returns (fs: FileSystem)
    requires Geometry(sb, nblocks) && sb.ninodes > 1 && sb.data + 1 < sb.size
    ensures fresh(fs) && fs.sb == sb && HoleAtOne(sb, fs.disk, fs.inodes, fs.owner)
  {
    hide Owned, AtRest, Used, Synced, Content, Extent, Grew, Logs;
    fs := new FileSystem(sb, nblocks);
    ghost var d0, n0 := fs.disk, fs.inodes;
    assert !Used(sb, d0, sb.data);
    var b, ok := fs.BallocIntoInode(1, 0);
    ghost var d1, n1 := fs.disk, fs.inodes;
    GrewOne(sb, d0, n0, map[], d1, n1, fs.owner, 1, 0);
    OtherSlots(sb, d0, n0, d1, n1, fs.owner);
    SizeKeepsOwned(sb, d1, n1, fs.owner, 1, 1024);
    fs.inodes := fs.inodes[1 := fs.inodes[1].(size := 1024)];
    fs.Iupdate(1);
    OneMoreFree(sb, d0, n0, d1, n1, fs.owner, fs.disk);
  }

  lemma OtherSlots(sb: Super, d0: Disk, n0: Inodes, d1: Disk, n1: Inodes, o1: Owner)
    requires Grew(sb, d0, n0, map[], d1, n1, o1, 1, {0}) && 1 in n0 && n0[1] == EmptyIno()
    ensures |n1[1].addrs| == NDIRECT + 1 && n1[1].addrs[1] == 0 && 1 < sb.ninodes
  {
    assert BlockOf(d1, n1[1], 1) == BlockOf(d0, n0[1], 1);
  }

  /** The inode on disk still says what it said, and inode 1 in memory has a pointer more. */
  lemma PointerLost(sb: Super, d0: Disk, n0: Inodes, o0: Owner, d: Disk, n: Inodes)
    requires HoleAtOne(sb, d0, n0, o0) && Geometry(sb, |d0|) && |d| == |d0| && 1 in n
    requires d[InodeBlock(sb, 1)] == d0[InodeBlock(sb, 1)] && |n[1].addrs| == NDIRECT + 1 && n[1].addrs[1] != 0
    ensures !Synced(sb, d, n, 1)
  {
  }

  lemma OnlyBlockOne(q: nat)
    ensures Spans(512, 16, q) <==> q == 1
  {
  }

  lemma HoleFacts(sb: Super, d: Disk, n: Inodes, o: Owner)
    requires HoleAtOne(sb, d, n, o)
    ensures Owned(sb, d, n, o, {}) && Geometry(sb, |d|) && 1 in n && |n[1].addrs| == NDIRECT + 1 && n[1].size == 1024
    ensures n[1].addrs[1] == 0 && !FullDisk(sb, d) && Touches(512, 16, 1)
  {
  }

  /** Looking up a name reads the entry in the hole: the block it is given is known to the inode
      in memory and to the bitmap, but not to the inode on disk. */
  method ReadIntoHole(fs: FileSystem) returns (r: Result, entry: seq<Byte>)
    requires HoleAtOne(fs.sb, fs.disk, fs.inodes, fs.owner)
    modifies fs
    ensures r == Done(16) && fs.Valid() && Geometry(fs.sb, |fs.disk|) && 1 in fs.inodes && 1 < fs.sb.ninodes
    ensures !Synced(fs.sb, fs.disk, fs.inodes, 1) && fs.disk != old(fs.disk)
    ensures |fs.disk| == |old(fs.disk)| && fs.disk[InodeBlock(fs.sb, 1)] == old(fs.disk)[InodeBlock(fs.sb, 1)]
    ensures fs.inodes[1].size == 1024 && |fs.inodes[1].addrs| == NDIRECT + 1 && fs.inodes[1].addrs[1] != 0
  {
    hide Owned, HoleAtOne, Synced, Content, Untouched, Logs, FullDisk;
    ghost var d0, n0, o0 := fs.disk, fs.inodes, fs.owner;
    HoleFacts(fs.sb, d0, n0, o0);
    r, entry := fs.Readi(1, 512, 16);
    assert Bn(512) == 1 && At(512) == 0;
    OnlyBlockOne(1);
    assert !Mapped(d0, n0[1], 512, 16);
    PointerLost(fs.sb, d0, n0, o0, fs.disk, fs.inodes);
  }

  /** dirlink reads the entry and then writes it: the write finds the block there and does not
      reach iupdate either. */
  method DirlinkIntoHole(fs: FileSystem, entry: seq<Byte>) returns (r: Result)
    requires HoleAtOne(fs.sb, fs.disk, fs.inodes, fs.owner) && |entry| == 16
    modifies fs
    ensures r == Done(16) && Geometry(fs.sb, |fs.disk|) && 1 in fs.inodes && 1 < fs.sb.ninodes
    ensures !Synced(fs.sb, fs.disk, fs.inodes, 1)
  {
    hide Owned, HoleAtOne, Synced, Content, Untouched, WriteLogs, FullDisk, AtRest, NoHoles;
    ghost var d0, n0, o0 := fs.disk, fs.inodes, fs.owner;
    HoleFacts(fs.sb, d0, n0, o0);
    var was;
    r, was := ReadIntoHole(fs);
    EntryMapped(fs.disk, fs.inodes[1]);
    r := fs.Writei(1, entry, 512);
    PointerLost(fs.sb, d0, n0, o0, fs.disk, fs.inodes);
  }

  lemma EntryMapped(d: Disk, ino: Ino)
    requires |ino.addrs| == NDIRECT + 1 && ino.addrs[1] != 0
    ensures Mapped(d, ino, 512, 16)
  {
    forall q: nat
      ensures Spans(512, 16, q) <==> q == 1
    {
      OnlyBlockOne(q);
    }
  }

  /** A write into the hole, without a read before it, has the same effect. */
  method WriteIntoHole(fs: FileSystem, entry: seq<Byte>) returns (r: Result)
    requires HoleAtOne(fs.sb, fs.disk, fs.inodes, fs.owner) && |entry| == 16
    modifies fs
    ensures r == Done(16) && Geometry(fs.sb, |fs.disk|) && 1 in fs.inodes && 1 < fs.sb.ninodes
    ensures !Synced(fs.sb, fs.disk, fs.inodes, 1)
  {
    hide Owned, HoleAtOne, Synced, Content, Untouched, WriteLogs, FullDisk, AtRest, NoHoles;
    ghost var d0, n0, o0 := fs.disk, fs.inodes, fs.owner;
    HoleFacts(fs.sb, d0, n0, o0);
    r := fs.Writei(1, entry, 512);
    assert Bn(512) == 1 && At(512) == 0;
    PointerLost(fs.sb, d0, n0, o0, fs.disk, fs.inodes);
  }
}
