/** File system operations over the log: a crash leaves the file system before or after all the
    operations of a transaction. */
module FsCrash {
  import opened Xv6Params
  import opened DiskBlocks
  import opened FsLayout
  import opened FsOwner
  import opened LogDisk
  import GroupCommit
  import Fs

  /** The log lies before the inodes, as mkfs lays it out. */
  predicate LogBefore(sb: Super, l: Layout) { l.start + l.size <= sb.inodestart }

  /** A file system, and the blocks given to log_write since the last commit. */
  datatype Snap = Snap(d: Disk, n: Inodes, o: Owner, logged: set<nat>)

  // ----- operations and what they do to files

  datatype Op = Write(i: nat, off: nat, src: seq<Byte>) | Trunc(i: nat)

  type Files = map<nat, seq<Byte>>

  ghost function FilesOf(d: Disk, n: Inodes): Files {
    map j | j in n && |n[j].addrs| == NDIRECT + 1 :: Content(d, n[j])
  }

  /** What an operation does to the files. */
  function After(f: Files, op: Op): Files {
    match op
    case Write(i, off, src) => if i in f && off <= |f[i]| then f[i := Fs.Splice(f[i], off, src)] else f
    case Trunc(i) => f[i := []]
  }

  function AfterAll(f: Files, ops: seq<Op>): Files
    decreases |ops|
  {
    if ops == [] then f else After(AfterAll(f, Most(ops)), ops[|ops| - 1])
  }

  function Most(ops: seq<Op>): (r: seq<Op>)
    requires ops != []
    ensures |r| < |ops|
  {
    ops[..|ops| - 1]
  }

  /** What writei and itrunc promise of a call that takes a to b. */
  ghost predicate Does(sb: Super, a: Snap, op: Op, b: Snap) {
    && Fs.AtRest(sb, a.d, a.n, a.o) && Geometry(sb, |a.d|) && Geometry(sb, |b.d|) && op.i in a.n && op.i in b.n
    && match op
       case Write(i, off, src) =>
         && Fs.Written(sb, a.d, a.n, b.d, b.n, b.o, i, off, src)
         && Fs.WriteLogs(sb, a.d, a.logged, b.d, b.logged, i, b.n[i], off, |src|)
       case Trunc(i) =>
         && Fs.AtRest(sb, b.d, b.n, b.o) && |a.n[i].addrs| == NDIRECT + 1
         && b.n == a.n[i := a.n[i].(size := 0, addrs := seq(NDIRECT + 1, _ => 0))]
         && (forall j :: j in b.n && j != i ==> Fs.Untouched(sb, a.d, a.n, b.d, b.n, j))
         && Fs.Collects(a.d, a.logged, b.d, b.logged)
         && (forall x :: x in b.logged ==> x in a.logged || sb.bmapstart <= x < sb.data || x == InodeBlock(sb, i))
  }

  ghost function SnapOf(fs: Fs.FileSystem): Snap
    reads fs
  {
    Snap(fs.disk, fs.inodes, fs.owner, fs.logged)
  }

  /** A write that returns its length is such an operation; one that returns -1 is none. */
  method DoWrite(fs: Fs.FileSystem, i: nat, src: seq<Byte>, off: nat) returns (r: Fs.Result)
    requires fs.Resting() && i in fs.inodes && off < UINT && |src| < UINT
    modifies fs
    ensures r == Fs.Done(-1) ==> SnapOf(fs) == old(SnapOf(fs))
    ensures r.Done? && r != Fs.Done(-1) ==> Does(fs.sb, old(SnapOf(fs)), Op.Write(i, off, src), SnapOf(fs))
    ensures r.Done? ==> fs.Resting()
  {
    hide Fs.AtRest, Owned, Fs.WriteLogs, Fs.FullDisk, Fs.Mapped, Fs.Untouched, Content;
    Fs.AtRestFacts(fs.sb, fs.disk, fs.inodes, fs.owner);
    r := fs.Writei(i, src, off);
    if r.Done? { Fs.AtRestFacts(fs.sb, fs.disk, fs.inodes, fs.owner); }
  }

  /** So is a truncation. */
  method DoTrunc(fs: Fs.FileSystem, i: nat)
    requires fs.Resting() && i in fs.inodes
    modifies fs
    ensures fs.Resting() && Does(fs.sb, old(SnapOf(fs)), Trunc(i), SnapOf(fs))
  {
    hide Fs.AtRest, Owned, Used, Fs.Untouched, Fs.Collects, Synced, Fs.NoHoles;
    Fs.AtRestFacts(fs.sb, fs.disk, fs.inodes, fs.owner);
    var ok := fs.Itrunc(i);
  }

  /** The operations lead from a to b, one after the other. */
  ghost predicate Runs(sb: Super, a: Snap, ops: seq<Op>, b: Snap)
    decreases |ops|
  {
    if ops == [] then a == b
    else exists s :: Runs(sb, a, Most(ops), s) && Does(sb, s, ops[|ops| - 1], b)
  }

  /** Between a and b everything that changed was logged, inside the file system's own blocks. */
  ghost predicate LogsHome(sb: Super, a: Snap, b: Snap) {
    && Fs.Collects(a.d, a.logged, b.d, b.logged)
    && forall x :: x in b.logged ==> x in a.logged || sb.inodestart <= x < |b.d|
  }

  lemma WriteHome(sb: Super, d: Disk, n: Inodes, o: Owner, i: nat, off: nat, len: nat, x: nat)
    requires Owned(sb, d, n, o, {}) && i in n && Fs.MayLog(sb, d, n[i], off, len, x)
    ensures sb.inodestart <= x < |d|
  {
    if !(sb.bmapstart <= x < sb.data) {
      if x == n[i].addrs[NDIRECT] {
        assert Slotted(d, n[i], o, i, INDIRECT);
      } else {
        var q :| 0 <= q < MAXFILE && Fs.Spans(off, len, q) && BlockOf(d, n[i], q) == x;
        assert Slotted(d, n[i], o, i, q);
      }
    }
  }

  lemma OpHome(sb: Super, a: Snap, op: Op, b: Snap)
    requires Does(sb, a, op, b)
    ensures LogsHome(sb, a, b)
  {
    hide Fs.AtRest, Owned, Fs.Untouched, Content, Fs.MayLog;
    Fs.AtRestSynced(sb, a.d, a.n, a.o, op.i);
    if op.Write? {
      forall x | x in b.logged && x !in a.logged
        ensures sb.inodestart <= x < |b.d|
      {
        if x != InodeBlock(sb, op.i) { WriteHome(sb, b.d, b.n, b.o, op.i, op.off, |op.src|, x); }
      }
    }
  }

  /** One operation: at rest again, and the files are what After says. */
  lemma OpFiles(sb: Super, a: Snap, op: Op, b: Snap)
    requires Does(sb, a, op, b)
    ensures Fs.AtRest(sb, b.d, b.n, b.o) && FilesOf(b.d, b.n) == After(FilesOf(a.d, a.n), op)
  {
    match op
    case Write(i, off, src) =>
      Fs.AtRestAgain(sb, a.d, a.n, a.o, b.d, b.n, b.o, i, off, src);
      WriteFiles(sb, a, i, off, src, b);
    case Trunc(i) =>
      TruncFiles(sb, a, i, b);
  }

  lemma WriteFiles(sb: Super, a: Snap, i: nat, off: nat, src: seq<Byte>, b: Snap)
    requires Fs.AtRest(sb, a.d, a.n, a.o) && Geometry(sb, |a.d|) && Fs.Written(sb, a.d, a.n, b.d, b.n, b.o, i, off, src)
    ensures FilesOf(b.d, b.n) == After(FilesOf(a.d, a.n), Op.Write(i, off, src))
  {
    hide Fs.AtRest, Fs.Written, Content, Fs.Splice;
    WrittenFiles(sb, a.d, a.n, a.o, b.d, b.n, b.o, i, off, src);
    assert Content(a.d, a.n[i]) == FilesOf(a.d, a.n)[i];
  }

  /** What a write did to each file. */
  lemma WrittenFiles(sb: Super, d0: Disk, n0: Inodes, o0: Owner, d1: Disk, n1: Inodes, o1: Owner, i: nat, off: nat, src: seq<Byte>)
    requires Fs.AtRest(sb, d0, n0, o0) && Geometry(sb, |d0|) && Fs.Written(sb, d0, n0, d1, n1, o1, i, off, src)
    ensures n1.Keys == n0.Keys && i in n0 && off <= n0[i].size
    ensures forall j :: j in n0 ==> |n0[j].addrs| == NDIRECT + 1 && |n1[j].addrs| == NDIRECT + 1
    ensures forall j :: j in n0 && j != i ==> Content(d1, n1[j]) == Content(d0, n0[j])
    ensures Content(d1, n1[i]) == Fs.Splice(Content(d0, n0[i]), off, src)
  {
    hide Content, Owned, Fs.PointersSet, Fs.NoHoles, Synced;
    Fs.AtRestFacts(sb, d0, n0, o0);
    forall j | j in n1 && j != i
      ensures |n1[j].addrs| == NDIRECT + 1 && Content(d1, n1[j]) == Content(d0, n0[j])
    {
      assert Fs.Untouched(sb, d0, n0, d1, n1, j);
    }
  }

  lemma TruncFiles(sb: Super, a: Snap, i: nat, b: Snap)
    requires Does(sb, a, Trunc(i), b)
    ensures FilesOf(b.d, b.n) == After(FilesOf(a.d, a.n), Trunc(i))
  {
    hide Does, Content;
    TruncatedFiles(sb, a, i, b);
  }

  lemma TruncatedFiles(sb: Super, a: Snap, i: nat, b: Snap)
    requires Does(sb, a, Trunc(i), b)
    ensures b.n.Keys == a.n.Keys && i in a.n
    ensures forall j :: j in b.n ==> |a.n[j].addrs| == NDIRECT + 1 && |b.n[j].addrs| == NDIRECT + 1
    ensures forall j :: j in b.n && j != i ==> Content(b.d, b.n[j]) == Content(a.d, a.n[j])
    ensures Content(b.d, b.n[i]) == []
  {
    hide Owned, Fs.NoHoles, Synced, Fs.AtRest;
    Fs.AtRestFacts(sb, a.d, a.n, a.o);
    forall j | j in b.n && j != i
      ensures |a.n[j].addrs| == NDIRECT + 1 && Content(b.d, b.n[j]) == Content(a.d, a.n[j])
    {
      assert Fs.Untouched(sb, a.d, a.n, b.d, b.n, j);
    }
  }

  /** ... and many of them. */
  lemma {:induction false} RunFiles(sb: Super, a: Snap, ops: seq<Op>, b: Snap)
    requires Fs.AtRest(sb, a.d, a.n, a.o) && Runs(sb, a, ops, b)
    ensures Fs.AtRest(sb, b.d, b.n, b.o) && FilesOf(b.d, b.n) == AfterAll(FilesOf(a.d, a.n), ops)
    ensures LogsHome(sb, a, b)
    decreases |ops|
  {
    hide Fs.AtRest, FilesOf, Does, After, Most;
    if ops != [] {
      var last := ops[|ops| - 1];
      var s :| Runs(sb, a, Most(ops), s) && Does(sb, s, last, b);
      RunFiles(sb, a, Most(ops), s);
      OpFiles(sb, s, last, b);
      OpHome(sb, s, last, b);
    }
  }

  // ----- the transaction they make

  /** What the log collects: the logged blocks, with what the cache has for them at the commit. */
  ghost predicate Gathers(logged: set<nat>, d: Disk, t: Txn) {
    && (forall k :: 0 <= k < |t| ==> t[k].block in logged && t[k].block < |d| && t[k].data == d[t[k].block])
    && (forall b :: b in logged ==> exists k :: 0 <= k < |t| && t[k].block == b)
  }

  /** Writing the collected blocks is doing the operations. */
  lemma {:induction false} ApplyGathered(d: Disk, d1: Disk, t: Txn, b: nat)
    requires |d| == |d1| && b < |d1|
    requires forall k :: 0 <= k < |t| ==> t[k].block < |d1| && t[k].data == d1[t[k].block]
    ensures Apply(d, t)[b] == if exists k :: 0 <= k < |t| && t[k].block == b then d1[b] else d[b]
  {
    if t != [] {
      var t' := t[..|t| - 1];
      ApplyGathered(d, d1, t', b);
      if k :| 0 <= k < |t| && t[k].block == b { assert k == |t| - 1 || t'[k].block == b; }
      if k :| 0 <= k < |t'| && t'[k].block == b { assert t[k].block == b; }
    }
  }

  /** The transaction can be committed: its blocks are home blocks. */
  lemma GathersHome(sb: Super, l: Layout, a: Snap, b: Snap, t: Txn)
    requires LogBefore(sb, l) && a.logged == {} && LogsHome(sb, a, b) && Gathers(b.logged, b.d, t)
    ensures forall k :: 0 <= k < |t| ==> Home(l, t[k].block, |a.d|)
  {
  }

  /** On the blocks of the file system the atomic disk after the transaction is the new one. */
  lemma AtomicIs(l: Layout, a: Snap, b: Snap, t: Txn, x: nat)
    requires a.logged == {} && Fs.Collects(a.d, a.logged, b.d, b.logged) && Gathers(b.logged, b.d, t) && x < |a.d| && !InLog(l, x)
    ensures Apply(View(l, a.d), t)[x] == b.d[x] && View(l, a.d)[x] == a.d[x]
  {
    ApplyGathered(View(l, a.d), b.d, t, x);
  }

  /** What the file system is depends on its own blocks only. */
  lemma RestFrame(sb: Super, d: Disk, e: Disk, n: Inodes, o: Owner)
    requires Fs.AtRest(sb, d, n, o) && |e| == |d| && forall b :: sb.inodestart <= b < |d| ==> e[b] == d[b]
    ensures Fs.AtRest(sb, e, n, o) && FilesOf(e, n) == FilesOf(d, n)
  {
    hide Fs.AtRest, Content;
    BytesFrame(sb, d, e, n, o);
  }

  lemma BytesFrame(sb: Super, d: Disk, e: Disk, n: Inodes, o: Owner)
    requires Fs.AtRest(sb, d, n, o) && |e| == |d| && forall b :: sb.inodestart <= b < |d| ==> e[b] == d[b]
    ensures Fs.AtRest(sb, e, n, o)
    ensures forall j :: j in n ==> |n[j].addrs| == NDIRECT + 1 && Content(e, n[j]) == Content(d, n[j])
  {
    PtrsFrame(sb, d, e, n, o);
    BitsFrame(sb, d, e, o.Keys + {});
    forall j | j in n
      ensures |n[j].addrs| == NDIRECT + 1 && j < sb.ninodes && Synced(sb, e, n, j)
      ensures Extent(e, n[j], CeilBlocks(n[j].size)) && Content(e, n[j]) == Content(d, n[j])
    {
      Fs.AtRestSynced(sb, d, n, o, j);
      ContentFrame(sb, d, e, n, o, j);
      Fs.SameExtent(d, e, n[j], CeilBlocks(n[j].size));
    }
    Fs.RestFrom(sb, e, n, o);
  }

  // ----- a crash in the middle of the commit

  /** A commit of t, finished or cut, and recoveries after it. */
  predicate CommitThenRecoveries(t: Txn, evs: seq<Event>) {
    && evs != [] && (evs[0].Commit? || evs[0].CrashInCommit?) && evs[0].t == t
    && forall i :: 0 < i < |evs| ==> evs[i].CrashInRecovery? || evs[i].Recovery?
  }

  /** The transaction took place: its header reached the disk. */
  predicate Took(ev: Event)
    requires ev.Commit? || ev.CrashInCommit?
  {
    ev.Commit? || ev.k > |ev.t|
  }

  /** Recoveries, cut or not, do nothing to an atomic disk. */
  lemma {:induction false} RecoveriesKeep(v: Disk, t: Txn, evs: seq<Event>)
    requires CommitThenRecoveries(t, evs)
    ensures AtomicRun(v, evs) == if Took(evs[0]) then Apply(v, t) else v
    decreases |evs|
  {
    if |evs| == 1 {
      assert Earlier(evs) == [];
    } else {
      RecoveriesKeep(v, t, Earlier(evs));
    }
  }

  /** The file system's blocks after the commit, its crashes and the recoveries. */
  lemma DiskAfter(sb: Super, l: Layout, a: Snap, b: Snap, t: Txn, evs: seq<Event>, m: Machine)
    requires LogBefore(sb, l) && a.logged == {} && LogsHome(sb, a, b) && Gathers(b.logged, b.d, t)
    requires Clean(l, a.d) && l.size >= NBUF && CommitThenRecoveries(t, evs) && Reaches(l, Machine(a.d, true), evs, m) && m.up
    ensures |m.disk| == |a.d|
    ensures var d := if Took(evs[0]) then b.d else a.d; forall x :: sb.inodestart <= x < |a.d| ==> m.disk[x] == d[x]
  {
    hide Gathers, Apply, Reaches, Clean;
    CrashAtomicity(l, Machine(a.d, true), evs, m);
    RecoveriesKeep(View(l, a.d), t, evs);
    var v := if Took(evs[0]) then Apply(View(l, a.d), t) else View(l, a.d);
    assert View(l, m.disk) == v;
    forall x | sb.inodestart <= x < |a.d|
      ensures |m.disk| == |a.d| && m.disk[x] == (if Took(evs[0]) then b.d else a.d)[x]
    {
      AtomicIs(l, a, b, t, x);
      assert View(l, m.disk)[x] == m.disk[x];
    }
  }

  /** Crash atomicity of file system operations, any number of them in one transaction: they took
      a file system at rest to another, and log_write collected their blocks into t. The commit
      finishes, or the machine stops somewhere in it, or it finds no buffer; any number of
      recoveries are cut short, and one finishes. Then the disk holds the file system before all of
      the operations or after all of them, exactly as the header had been written: inodes,
      ownership, bitmap and every byte of every file agree. */
  lemma OperationsAtomic(sb: Super, l: Layout, a: Snap, ops: seq<Op>, b: Snap, t: Txn, evs: seq<Event>, m: Machine)
    requires Fs.AtRest(sb, a.d, a.n, a.o) && a.logged == {} && Runs(sb, a, ops, b) && LogBefore(sb, l)
    requires Clean(l, a.d) && l.size >= NBUF && Gathers(b.logged, b.d, t)
    requires CommitThenRecoveries(t, evs) && Reaches(l, Machine(a.d, true), evs, m) && m.up
    ensures var s := if Took(evs[0]) then b else a; Fs.AtRest(sb, m.disk, s.n, s.o)
    ensures FilesOf(m.disk, if Took(evs[0]) then b.n else a.n)
            == if Took(evs[0]) then AfterAll(FilesOf(a.d, a.n), ops) else FilesOf(a.d, a.n)
  {
    hide Fs.AtRest, FilesOf, Clean, Gathers, Reaches, Runs;
    RunFiles(sb, a, ops, b);
    DiskAfter(sb, l, a, b, t, evs, m);
    if Took(evs[0]) { RestFrame(sb, b.d, m.disk, b.n, b.o); } else { RestFrame(sb, a.d, m.disk, a.n, a.o); }
  }

  // ----- the space a write takes

  /** filewrite hands data to writei in pieces of at most 1536 bytes. On a disk with one bitmap
      block each piece logs at most seven blocks; operations of seven blocks, any number of them at
      once, never meet "too big a transaction", and the log mkfs makes holds them. */
  lemma WritesFit(sb: Super, d: Disk, own: set<nat>, i: nat, ino: Ino, off: nat, n: nat, nproc: nat, s: GroupCommit.State)
    requires |ino.addrs| == NDIRECT + 1 && sb.data == sb.bmapstart + 1 && n <= (MAXOPBLOCKS - 1 - 1 - 2) / 2 * BSIZE
    requires forall b :: b in own ==> b == InodeBlock(sb, i) || Fs.MayLog(sb, d, ino, off, n, b)
    requires GroupCommit.Reachable(GroupCommit.Params(LOGSIZE, 7), nproc, s) && nproc >= 2
    ensures |own| <= 7
    ensures s.panic != GroupCommit.TooBig && |s.lh| <= 24 < LOGSIZE
  {
    Fs.WriteLogCount(sb, d, own, i, ino, off, n);
    var c := GroupCommit.Params(LOGSIZE, 7);
    GroupCommit.TooBigIff(c, nproc);
    GroupCommit.LogSpaceReserved(c, nproc, s);
  }
}
