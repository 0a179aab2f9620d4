/** The redo log of the xv6 file system: what one commit and one recovery write to
    the disk, block by block, and why a crash between any two of those writes leaves
    a disk that recovers to the state before or after the whole transaction. */
module LogDisk {
  import opened Xv6Params
  import opened DiskBlocks

  /** `log.start` and `log.size`: the log occupies blocks start .. start+size-1. */
  datatype Layout = Layout(start: nat, size: nat)

  predicate InLog(l: Layout, b: int) {
    l.start <= b < l.start + l.size
  }

  predicate Home(l: Layout, b: int, nblocks: nat) {
    0 <= b < nblocks && !InLog(l, b)
  }

  predicate Fits(l: Layout, nblocks: nat) {
    0 < l.size && l.start + l.size <= nblocks <= UINT
  }

  // ----- the header block

  /** How many entries the header announces; n is an int, and a negative count installs
      nothing. */
  function HeadCount(h: Block): nat {
    if Word(h, 0) < 0x8000_0000 then Word(h, 0) else 0
  }

  function HeadBlocks(h: Block): seq<nat>
    requires HeadCount(h) < 128
  {
    WordsAt(h, 1, HeadCount(h))
  }

  predicate Words(ws: seq<nat>) { forall k :: 0 <= k < |ws| ==> ws[k] < UINT }

  /** `write_head` overwrites the count and the first n entries and nothing else. */
  function SetHead(h: Block, blocks: seq<nat>): Block
    requires |blocks| < 128 && Words(blocks)
  {
    PutWords(h, 0, [|blocks|] + blocks)
  }

  lemma HeadSet(h: Block, blocks: seq<nat>)
    requires |blocks| < 128 && Words(blocks)
    ensures HeadCount(SetHead(h, blocks)) == |blocks| && HeadBlocks(SetHead(h, blocks)) == blocks
    ensures Word(SetHead(h, blocks), 0) == |blocks| && forall i :: 0 <= i < |blocks| ==> Word(SetHead(h, blocks), i + 1) == blocks[i]
    ensures forall i :: |blocks| < i < 128 ==> Word(SetHead(h, blocks), i) == Word(h, i)
  {
    var ws := [|blocks|] + blocks;
    WordPutWords(h, 0, ws, 0);
    forall i: nat | i < 128
      ensures Word(SetHead(h, blocks), i) == if i <= |blocks| then ws[i] else Word(h, i)
    {
      WordPutWords(h, 0, ws, i);
    }
  }

  /** A header recovery can follow: its entries and the log blocks they stand for exist. */
  predicate HeadOk(l: Layout, d: Disk) {
    && l.start < |d| <= UINT
    && HeadCount(d[l.start]) <= LOGSIZE
    && l.start + HeadCount(d[l.start]) < |d|
    && forall i :: 0 <= i < HeadCount(d[l.start]) ==> HeadBlocks(d[l.start])[i] < |d|
  }

  /** A header of home blocks whose data the log has room for. */
  predicate GoodHead(l: Layout, d: Disk) {
    && Fits(l, |d|)
    && HeadCount(d[l.start]) <= LOGSIZE
    && HeadCount(d[l.start]) < l.size
    && forall i :: 0 <= i < HeadCount(d[l.start]) ==> Home(l, HeadBlocks(d[l.start])[i], |d|)
  }

  // ----- block writes

  datatype Write = Write(block: nat, data: Block)

  function Apply(d: Disk, ws: seq<Write>): (r: Disk)
    ensures |r| == |d|
  {
    if ws == [] then d
    else
      var d' := Apply(d, ws[..|ws| - 1]);
      var w := ws[|ws| - 1];
      if w.block < |d'| then d'[w.block := w.data] else d'
  }

  lemma {:induction false} ApplyConcat(d: Disk, ws: seq<Write>, vs: seq<Write>)
    ensures Apply(d, ws + vs) == Apply(Apply(d, ws), vs)
    decreases |vs|
  {
    if vs == [] {
      assert ws + vs == ws;
    } else {
      assert (ws + vs)[..|ws + vs| - 1] == ws + vs[..|vs| - 1];
      ApplyConcat(d, ws, vs[..|vs| - 1]);
    }
  }

  lemma ApplyLast(d: Disk, ws: seq<Write>, w: Write)
    requires w.block < |d|
    ensures Apply(d, ws + [w]) == Apply(d, ws)[w.block := w.data]
  {
    assert (ws + [w])[..|ws|] == ws;
  }

  lemma WritesAssoc(a: seq<Write>, b: seq<Write>, c: seq<Write>)
    ensures a + b + c == a + (b + c)
  {
  }

  lemma CutOfConcat(ws: seq<Write>, vs: seq<Write>, k: nat)
    requires |ws| <= k <= |ws| + |vs|
    ensures (ws + vs)[..k] == ws + vs[..k - |ws|]
  {
  }

  /** A block none of the writes names keeps its content. */
  lemma {:induction false} ApplyElsewhere(d: Disk, ws: seq<Write>, b: nat)
    requires b < |d|
    requires forall i :: 0 <= i < |ws| ==> ws[i].block != b
    ensures Apply(d, ws)[b] == d[b]
  {
    if ws != [] {
      ApplyElsewhere(d, ws[..|ws| - 1], b);
    }
  }

  /** Writing blocks the log area does not hold, in any order and any number of
      times, leaves the log area alone. */
  lemma ApplyHomesKeepsLog(l: Layout, d: Disk, ws: seq<Write>)
    requires Fits(l, |d|)
    requires forall i :: 0 <= i < |ws| ==> !InLog(l, ws[i].block)
    ensures forall b :: InLog(l, b) ==> Apply(d, ws)[b] == d[b]
  {
    forall b | InLog(l, b)
      ensures Apply(d, ws)[b] == d[b]
    {
      ApplyElsewhere(d, ws, b);
    }
  }

  // ----- what commit and recovery write

  /** A transaction: the block contents it puts in place, one per logged block. */
  type Txn = seq<Write>

  function Blocks(t: Txn): (bs: seq<nat>)
    ensures |bs| == |t| && forall i :: 0 <= i < |t| ==> bs[i] == t[i].block
  {
    seq<nat>(|t|, i requires 0 <= i < |t| => t[i].block)
  }

  /** The transaction made of the blocks bs with the contents the cache has for them. */
  function TxnOf(bs: seq<nat>, cache: map<nat, Block>): (t: Txn)
    requires forall i :: 0 <= i < |bs| ==> bs[i] in cache
    ensures |t| == |bs| && Blocks(t) == bs
    ensures forall i :: 0 <= i < |t| ==> t[i] == Write(bs[i], cache[bs[i]])
  {
    seq(|bs|, i requires 0 <= i < |bs| => Write(bs[i], cache[bs[i]]))
  }

  /** What log_write collects: home blocks, no more than the header has entries for. */
  predicate HomeTxn(l: Layout, t: Txn, nblocks: nat) {
    |t| <= LOGSIZE && nblocks <= UINT && forall i :: 0 <= i < |t| ==> Home(l, t[i].block, nblocks)
  }

  /** A transaction whose data also fits the log. */
  predicate ValidTxn(l: Layout, t: Txn, nblocks: nat) {
    HomeTxn(l, t, nblocks) && |t| < l.size
  }

  /** A transaction commit can be asked for; it may be too large for the log. */
  predicate Ready(l: Layout, d: Disk, t: Txn) {
    Fits(l, |d|) && HomeTxn(l, t, |d|) && l.start + |t| < |d|
  }

  /** What `write_log` finds in the buffer of the i-th logged block: its data, unless that block
      is one that write_log, having run past the end of the log, has itself overwritten. */
  function LogData(l: Layout, t: Txn, i: nat): Block
    requires i < |t|
  {
    var b := t[i].block;
    if l.start < b <= l.start + i then LogData(l, t, b - l.start - 1) else t[i].data
  }

  lemma LogDataIs(l: Layout, t: Txn, i: nat)
    requires i < |t|
    ensures LogData(l, t, i) == var b := t[i].block; if l.start < b <= l.start + i then LogData(l, t, b - l.start - 1) else t[i].data
  {
  }

  lemma HomeData(l: Layout, t: Txn, i: nat)
    requires i < |t| && i < l.size && !InLog(l, t[i].block)
    ensures LogData(l, t, i) == t[i].data
  {
  }

  /** The writes of `write_log`: the i-th logged block goes to log block i+1. */
  function LogWrites(l: Layout, t: Txn): (ws: seq<Write>)
    ensures |ws| == |t|
  {
    seq(|t|, i requires 0 <= i < |t| => Write(l.start + 1 + i, LogData(l, t, i)))
  }

  /** The writes of a commit up to its commit point: the log blocks, then the header. */
  function LogAndHead(l: Layout, d: Disk, t: Txn): (ws: seq<Write>)
    requires Ready(l, d, t)
  {
    LogWrites(l, t) + [Write(l.start, SetHead(d[l.start], Blocks(t)))]
  }

  /** The writes of `install_trans`, each with what log block i+1 holds at that moment. */
  function InstallWrites(l: Layout, d: Disk, bs: seq<nat>): (ws: seq<Write>)
    requires l.start + |bs| < |d|
    ensures |ws| == |bs|
  {
    if bs == [] then []
    else
      var ws := InstallWrites(l, d, bs[..|bs| - 1]);
      ws + [Write(bs[|bs| - 1], Apply(d, ws)[l.start + |bs|])]
  }

  function Clear(l: Layout, d: Disk): Write
    requires l.start < |d|
  {
    Write(l.start, SetHead(d[l.start], []))
  }

  /** install_trans and the empty header. */
  function InstallAndClear(l: Layout, d: Disk, bs: seq<nat>): (ws: seq<Write>)
    requires l.start + |bs| < |d|
  {
    InstallWrites(l, d, bs) + [Clear(l, Apply(d, InstallWrites(l, d, bs)))]
  }

  /** Every block write of `commit`, in order. */
  function CommitWrites(l: Layout, d: Disk, t: Txn): (ws: seq<Write>)
    requires Ready(l, d, t)
  {
    if t == [] then []
    else
      var head := LogAndHead(l, d, t);
      head + InstallAndClear(l, Apply(d, head), Blocks(t))
  }

  /** Every block write of `recover_from_log`, in order. */
  function RecoverWrites(l: Layout, d: Disk): (ws: seq<Write>)
    requires HeadOk(l, d)
  {
    InstallAndClear(l, d, HeadBlocks(d[l.start]))
  }

  function Recovered(l: Layout, d: Disk): Disk
    requires HeadOk(l, d)
  {
    Apply(d, RecoverWrites(l, d))
  }

  /** The transaction a disk's log holds. */
  function LoggedTxn(l: Layout, d: Disk): (t: Txn)
    requires GoodHead(l, d)
    ensures ValidTxn(l, t, |d|) && Blocks(t) == HeadBlocks(d[l.start])
  {
    var blocks := HeadBlocks(d[l.start]);
    seq(|blocks|, i requires 0 <= i < |blocks| => Write(blocks[i], d[l.start + 1 + i]))
  }

  lemma LoggedData(l: Layout, d: Disk)
    requires GoodHead(l, d)
    ensures forall i :: 0 <= i < |LoggedTxn(l, d)| ==> d[l.start + 1 + i] == LoggedTxn(l, d)[i].data
  {
  }

  /** As long as the transaction fits the log, installing it never reads what it wrote. */
  lemma {:induction false} InstallIs(l: Layout, d: Disk, t: Txn, k: nat)
    requires Fits(l, |d|) && ValidTxn(l, t, |d|) && k <= |t|
    requires forall i :: 0 <= i < |t| ==> d[l.start + 1 + i] == t[i].data
    ensures InstallWrites(l, d, Blocks(t)[..k]) == t[..k]
  {
    hide Apply;
    if k > 0 {
      var bs := Blocks(t)[..k];
      assert bs[..k - 1] == Blocks(t)[..k - 1];
      InstallIs(l, d, t, k - 1);
      ApplyElsewhere(d, t[..k - 1], l.start + k);
      assert t[..k] == t[..k - 1] + [t[k - 1]];
    }
  }

  lemma InstallAndClearIs(l: Layout, d: Disk, t: Txn)
    requires Fits(l, |d|) && ValidTxn(l, t, |d|)
    requires forall i :: 0 <= i < |t| ==> d[l.start + 1 + i] == t[i].data
    ensures InstallAndClear(l, d, Blocks(t)) == t + [Clear(l, d)]
  {
    InstallIs(l, d, t, |t|);
    assert Blocks(t)[..|t|] == Blocks(t) && t[..|t|] == t;
    ApplyElsewhere(d, t, l.start);
  }

  lemma RecoverIs(l: Layout, d: Disk)
    requires GoodHead(l, d)
    ensures HeadOk(l, d) && RecoverWrites(l, d) == LoggedTxn(l, d) + [Clear(l, d)]
  {
    LoggedData(l, d);
    InstallAndClearIs(l, d, LoggedTxn(l, d));
  }

  // ----- the abstract file system image

  /** The home blocks of a disk, with the log area blanked out. */
  function View(l: Layout, d: Disk): (v: Disk)
    ensures |v| == |d|
  {
    seq(|d|, b requires 0 <= b < |d| => if InLog(l, b) then Zero() else d[b])
  }

  /** What recovery makes of a disk. */
  function Image(l: Layout, d: Disk): (v: Disk)
    requires HeadOk(l, d)
  {
    View(l, Recovered(l, d))
  }

  lemma {:induction false} ViewOfHomeWrites(l: Layout, d: Disk, ws: seq<Write>)
    requires forall i :: 0 <= i < |ws| ==> Home(l, ws[i].block, |d|)
    ensures View(l, Apply(d, ws)) == Apply(View(l, d), ws)
  {
    if ws != [] {
      ViewOfHomeWrites(l, d, ws[..|ws| - 1]);
    }
  }

  lemma {:induction false} ViewOfLogWrites(l: Layout, d: Disk, ws: seq<Write>)
    requires forall i :: 0 <= i < |ws| ==> InLog(l, ws[i].block)
    ensures View(l, Apply(d, ws)) == View(l, d)
  {
    if ws != [] {
      ViewOfLogWrites(l, d, ws[..|ws| - 1]);
    }
  }

  lemma ViewIgnoresLog(l: Layout, d: Disk, b: nat, data: Block)
    requires b < |d| && InLog(l, b)
    ensures View(l, d[b := data]) == View(l, d)
  {
  }

  /** Repeating the first k writes of a list before the whole list changes nothing. */
  lemma {:induction false} ReplayPrefix(d: Disk, ws: seq<Write>, k: nat)
    requires k <= |ws|
    ensures Apply(Apply(d, ws[..k]), ws) == Apply(d, ws)
  {
    forall b: nat | b < |d|
      ensures Apply(Apply(d, ws[..k]), ws)[b] == Apply(d, ws)[b]
    {
      ReplayPrefixAt(d, ws, k, b, |ws|);
      assert ws[..|ws|] == ws;
    }
  }

  /** After n of the writes the two disks agree wherever those n writes landed. */
  lemma {:induction false} ReplayPrefixAt(d: Disk, ws: seq<Write>, k: nat, b: nat, n: nat)
    requires k <= |ws| && n <= |ws| && b < |d|
    ensures var e := Apply(d, ws[..k]);
            if exists i :: 0 <= i < n && ws[i].block == b
            then Apply(e, ws[..n])[b] == Apply(d, ws[..n])[b]
            else Apply(e, ws[..n])[b] == e[b]
    ensures (forall i :: 0 <= i < n ==> ws[i].block != b) && n == |ws|
            ==> Apply(d, ws[..k])[b] == d[b] == Apply(d, ws[..n])[b]
    decreases n
  {
    if n > 0 {
      assert ws[..n][..n - 1] == ws[..n - 1];
      ReplayPrefixAt(d, ws, k, b, n - 1);
    }
    if (forall i :: 0 <= i < n ==> ws[i].block != b) && n == |ws| {
      ApplyElsewhere(d, ws[..k], b);
      ApplyElsewhere(d, ws[..n], b);
    }
  }

  // ----- one commit, cut anywhere

  predicate Clean(l: Layout, d: Disk) {
    Fits(l, |d|) && HeadCount(d[l.start]) == 0
  }

  /** The image of a disk is its home blocks with the logged transaction applied. */
  lemma ImageIs(l: Layout, d: Disk)
    requires GoodHead(l, d)
    ensures HeadOk(l, d)
    ensures Image(l, d) == Apply(View(l, d), LoggedTxn(l, d))
    ensures Clean(l, Recovered(l, d))
  {
    RecoverIs(l, d);
    var home, clear := LoggedTxn(l, d), [Clear(l, d)];
    ApplyConcat(d, home, clear);
    ViewOfLogWrites(l, Apply(d, home), clear);
    ViewOfHomeWrites(l, d, home);
    ApplyLast(d, home, Clear(l, d));
    HeadSet(d[l.start], []);
  }

  lemma CleanImage(l: Layout, d: Disk)
    requires Clean(l, d)
    ensures GoodHead(l, d) && HeadOk(l, d) && Image(l, d) == View(l, d)
  {
    ImageIs(l, d);
    assert LoggedTxn(l, d) == [];
  }

  /** Before the header is written the log on disk is still empty. */
  lemma CutWhileLogging(l: Layout, d: Disk, t: Txn, k: nat)
    requires Clean(l, d) && ValidTxn(l, t, |d|) && k <= |t|
    ensures var e := Apply(d, LogWrites(l, t)[..k]);
            Clean(l, e) && GoodHead(l, e) && HeadOk(l, e) && Image(l, e) == View(l, d)
  {
    var ws := LogWrites(l, t)[..k];
    ApplyElsewhere(d, ws, l.start);
    ViewOfLogWrites(l, d, ws);
    CleanImage(l, Apply(d, ws));
  }

  lemma {:induction false} LogCopied(l: Layout, d: Disk, t: Txn, k: nat)
    requires l.start + k < |d| && k <= |t|
    ensures var e := Apply(d, LogWrites(l, t)[..k]);
            forall i :: 0 <= i < k ==> e[l.start + 1 + i] == LogData(l, t, i)
  {
    if k > 0 {
      assert LogWrites(l, t)[..k][..k - 1] == LogWrites(l, t)[..k - 1];
      LogCopied(l, d, t, k - 1);
    }
  }

  lemma LogHolds(l: Layout, d: Disk, t: Txn, k: nat)
    requires l.start + k < |d| && k <= |t| && k <= l.size && forall i :: 0 <= i < |t| ==> !InLog(l, t[i].block)
    ensures var e := Apply(d, LogWrites(l, t)[..k]);
            forall i :: 0 <= i < k ==> e[l.start + 1 + i] == t[i].data
  {
    LogCopied(l, d, t, k);
    forall i | 0 <= i < k
      ensures LogData(l, t, i) == t[i].data
    {
      HomeData(l, t, i);
    }
  }

  /** A log area holding t's blocks under a header listing them holds exactly t. */
  lemma HeaderNames(l: Layout, d: Disk, t: Txn)
    requires Fits(l, |d|) && ValidTxn(l, t, |d|)
    requires HeadCount(d[l.start]) == |t| && HeadBlocks(d[l.start]) == Blocks(t)
    requires forall i :: 0 <= i < |t| ==> d[l.start + 1 + i] == t[i].data
    ensures GoodHead(l, d) && LoggedTxn(l, d) == t
  {
    forall i | 0 <= i < |t|
      ensures LoggedTxn(l, d)[i] == t[i]
    {
      assert Blocks(t)[i] == t[i].block;
    }
  }

  /** The disk right after the header write: the log holds exactly t. */
  lemma HeaderWritten(l: Layout, d: Disk, t: Txn)
    requires Fits(l, |d|) && ValidTxn(l, t, |d|)
    ensures Ready(l, d, t)
    ensures var e := Apply(d, LogAndHead(l, d, t));
            && GoodHead(l, e) && LoggedTxn(l, e) == t && View(l, e) == View(l, d)
            && e[l.start] == SetHead(d[l.start], Blocks(t))
  {
    var ws := LogWrites(l, t);
    var h := SetHead(d[l.start], Blocks(t));
    var d1 := Apply(d, ws);
    assert ws[..|ws|] == ws;
    LogHolds(l, d, t, |ws|);
    ViewOfLogWrites(l, d, ws);
    ApplyLast(d, ws, Write(l.start, h));
    ViewIgnoresLog(l, d1, l.start, h);
    HeadSet(d[l.start], Blocks(t));
    HeaderNames(l, d1[l.start := h], t);
  }

  /** Home writes taken from the log, any number of them, do not change the image. */
  lemma CutWhileInstalling(l: Layout, d: Disk, k: nat)
    requires GoodHead(l, d) && k <= HeadCount(d[l.start])
    ensures var e := Apply(d, LoggedTxn(l, d)[..k]);
            && GoodHead(l, e) && LoggedTxn(l, e) == LoggedTxn(l, d)
            && HeadOk(l, e) && HeadOk(l, d) && Image(l, e) == Image(l, d)
            && e[l.start] == d[l.start]
  {
    var home := LoggedTxn(l, d);
    var e := Apply(d, home[..k]);
    LoggedData(l, d);
    hide Apply, View, Image, HeadBlocks;
    ApplyHomesKeepsLog(l, d, home[..k]);
    HeaderNames(l, e, home);
    ImageIs(l, d);
    ImageIs(l, e);
    ViewOfHomeWrites(l, d, home[..k]);
    ReplayPrefix(View(l, d), home, k);
  }

  /** Recovery cut after any number of its writes leaves a disk with the same image;
      run to its end it puts that image in place and empties the log. */
  lemma CutRecovery(l: Layout, d: Disk, k: nat)
    requires GoodHead(l, d) && HeadOk(l, d) && k <= |RecoverWrites(l, d)|
    ensures var e := Apply(d, RecoverWrites(l, d)[..k]);
            && GoodHead(l, e) && HeadOk(l, e) && Image(l, e) == Image(l, d)
            && (k == |RecoverWrites(l, d)| ==> Clean(l, e) && View(l, e) == Image(l, d))
  {
    RecoverIs(l, d);
    hide RecoverWrites;
    if k < |RecoverWrites(l, d)| {
      assert RecoverWrites(l, d)[..k] == LoggedTxn(l, d)[..k];
      CutWhileInstalling(l, d, k);
    } else {
      assert RecoverWrites(l, d)[..k] == RecoverWrites(l, d);
      ImageIs(l, d);
      CleanImage(l, Recovered(l, d));
    }
  }

  /** Past its header write, a commit is a recovery of the disk it has just written. */
  lemma CommitIsLogThenRecover(l: Layout, d: Disk, t: Txn)
    requires Fits(l, |d|) && ValidTxn(l, t, |d|) && t != []
    ensures Ready(l, d, t)
    ensures var d1 := Apply(d, LogAndHead(l, d, t));
            && GoodHead(l, d1) && HeadOk(l, d1)
            && CommitWrites(l, d, t) == LogAndHead(l, d, t) + RecoverWrites(l, d1)
            && Image(l, d1) == Apply(View(l, d), t)
  {
    HeaderWritten(l, d, t);
    ImageIs(l, Apply(d, LogAndHead(l, d, t)));
  }

  lemma CommitLength(l: Layout, d: Disk, t: Txn, v: Disk)
    requires Ready(l, d, t)
    ensures |LogAndHead(l, d, t)| == |t| + 1
    ensures if t == [] then CommitWrites(l, d, t) == [] && Apply(v, t) == v else |CommitWrites(l, d, t)| > |t|
  {
    hide InstallAndClear;
  }

  lemma CutAfterHeader(l: Layout, d: Disk, t: Txn, k: nat)
    requires Ready(l, d, t) && ValidTxn(l, t, |d|) && |t| < k <= |CommitWrites(l, d, t)|
    ensures var e := Apply(d, CommitWrites(l, d, t)[..k]);
            && GoodHead(l, e) && HeadOk(l, e)
            && Image(l, e) == Apply(View(l, d), t)
            && (k == |CommitWrites(l, d, t)| ==> Clean(l, e) && View(l, e) == Apply(View(l, d), t))
  {
    hide Apply, CommitWrites, RecoverWrites, HeadBlocks, Image, View;
    hide LogAndHead;
    CommitLength(l, d, t, d);
    var header := LogAndHead(l, d, t);
    var d1 := Apply(d, header);
    CommitIsLogThenRecover(l, d, t);
    var rest := RecoverWrites(l, d1)[..k - |header|];
    CutOfConcat(header, RecoverWrites(l, d1), k);
    ApplyConcat(d, header, rest);
    CutRecovery(l, d1, |rest|);
  }

  /** A commit cut after k of its block writes: the disk recovers to the old image
      while the header has not been written, and to the new one from then on. */
  lemma CutCommit(l: Layout, d: Disk, t: Txn, k: nat)
    requires Clean(l, d) && ValidTxn(l, t, |d|) && Ready(l, d, t) && k <= |CommitWrites(l, d, t)|
    ensures var e := Apply(d, CommitWrites(l, d, t)[..k]);
            && GoodHead(l, e) && HeadOk(l, e)
            && Image(l, e) == (if k > |t| then Apply(View(l, d), t) else View(l, d))
            && (k == |CommitWrites(l, d, t)| ==> Clean(l, e) && View(l, e) == Apply(View(l, d), t))
  {
    var all := CommitWrites(l, d, t);
    if t == [] {
      CleanImage(l, d);
      assert all[..k] == [];
    } else if k <= |t| {
      assert all[..k] == LogWrites(l, t)[..k];
      CutWhileLogging(l, d, t, k);
    } else {
      CutAfterHeader(l, d, t, k);
    }
  }

  // ----- a transaction that does not fit

  /** A commit cut after k writes recovers to the disk before or after the transaction. */
  ghost predicate AtomicCut(l: Layout, d: Disk, t: Txn, k: nat)
    requires Ready(l, d, t) && k <= |CommitWrites(l, d, t)|
  {
    var e := Apply(d, CommitWrites(l, d, t)[..k]);
    HeadOk(l, e) && Image(l, e) == if k > |t| then Apply(View(l, d), t) else View(l, d)
  }

  /** How many of its block writes a commit can make: each logged block is pinned in a buffer,
      and with NBUF of them write_log finds no buffer for its first log block. */
  function CommitReach(l: Layout, d: Disk, t: Txn): nat
    requires Ready(l, d, t)
  {
    if |t| < NBUF then |CommitWrites(l, d, t)| else 0
  }

  /** The block of a transaction that comes after the log's last is written past the end of the
      log, over the block that follows it, before the header is: if the machine stops there, that
      block has changed although the transaction did not happen. */
  lemma OverrunNotAtomic(l: Layout, d: Disk, t: Txn)
    requires Clean(l, d) && Ready(l, d, t) && l.size <= |t| < NBUF
    ensures l.size <= CommitReach(l, d, t)
    ensures var e := Apply(d, CommitWrites(l, d, t)[..l.size]);
            Clean(l, e) && e[l.start + l.size] == t[l.size - 1].data
    ensures t[l.size - 1].data != d[l.start + l.size] ==> !AtomicCut(l, d, t, l.size)
  {
    hide Apply, CommitWrites, Image;
    var ws := LogWrites(l, t)[..l.size];
    LogFirst(l, d, t, l.size);
    LogHolds(l, d, t, l.size);
    ApplyElsewhere(d, ws, l.start);
    var e := Apply(d, ws);
    CleanImage(l, e);
    assert View(l, e)[l.start + l.size] == e[l.start + l.size] && View(l, d)[l.start + l.size] == d[l.start + l.size];
  }

  lemma LogFirst(l: Layout, d: Disk, t: Txn, k: nat)
    requires Ready(l, d, t) && k <= |t|
    ensures k <= |CommitWrites(l, d, t)| && CommitWrites(l, d, t)[..k] == LogWrites(l, t)[..k]
  {
    hide Apply, InstallAndClear;
  }

  predicate HomeBlocks(l: Layout, bs: seq<nat>, nblocks: nat) {
    |bs| <= LOGSIZE && forall i :: 0 <= i < |bs| ==> Home(l, bs[i], nblocks)
  }

  /** Every commit of the blocks bs, whatever the disk and the data, is atomic. */
  ghost predicate AlwaysAtomic(l: Layout, nblocks: nat, bs: seq<nat>) {
    forall d: Disk, t: Txn, k: nat ::
      |d| == nblocks && Clean(l, d) && Ready(l, d, t) && Blocks(t) == bs && k <= CommitReach(l, d, t)
      ==> AtomicCut(l, d, t, k)
  }

  function Ones(): Block { seq(BSIZE, i => 1) }

  /** Commits of a set of blocks are atomic exactly if the log has room for them, or the buffer
      cache has no room to start. */
  lemma AtomicIff(l: Layout, nblocks: nat, bs: seq<nat>)
    requires Fits(l, nblocks) && l.start + |bs| < nblocks && HomeBlocks(l, bs, nblocks)
    ensures AlwaysAtomic(l, nblocks, bs) <==> |bs| < l.size || |bs| >= NBUF
  {
    hide LogWrites, Apply, AtomicCut;
    if |bs| < l.size || |bs| >= NBUF {
      forall d: Disk, t: Txn, k: nat |
        |d| == nblocks && Clean(l, d) && Ready(l, d, t) && Blocks(t) == bs && k <= CommitReach(l, d, t)
        ensures AtomicCut(l, d, t, k)
      {
        if |bs| < l.size { CutIsAtomic(l, d, t, k); } else { NothingWritten(l, d, t); }
      }
    } else {
      var d: Disk := seq(nblocks, i => Zero());
      var t: Txn := seq(|bs|, i requires 0 <= i < |bs| => Write(bs[i], Ones()));
      ZeroWord(0);
      assert Blocks(t) == bs && Clean(l, d) && Ready(l, d, t);
      assert Ones()[0] != Zero()[0];
      OverrunNotAtomic(l, d, t);
    }
  }

  lemma CutIsAtomic(l: Layout, d: Disk, t: Txn, k: nat)
    requires Clean(l, d) && Ready(l, d, t) && |t| < l.size && k <= |CommitWrites(l, d, t)|
    ensures AtomicCut(l, d, t, k)
  {
    CutCommit(l, d, t, k);
  }

  lemma NothingWritten(l: Layout, d: Disk, t: Txn)
    requires Clean(l, d) && Ready(l, d, t)
    ensures CommitWrites(l, d, t)[..0] == [] && AtomicCut(l, d, t, 0)
    ensures Apply(d, CommitWrites(l, d, t)[..0]) == d
  {
    CleanImage(l, d);
  }

  // ----- any history of commits and crashes

  /** What can happen to a machine: a commit that finishes, a crash or panic k writes into a
      commit (k = 0: a crash between commits, or a commit that finds no buffer), a recovery cut
      after k writes, and a recovery that finishes. */
  datatype Event = Commit(t: Txn) | CrashInCommit(t: Txn, k: nat) | CrashInRecovery(k: nat) | Recovery
  {
    /** If the event writes blocks of a transaction, the log has room for it and the header. */
    predicate Fit(l: Layout) { Commit? || (CrashInCommit? && k > 0) ==> |t| < l.size }
  }

  datatype Machine = Machine(disk: Disk, up: bool)

  predicate Enabled(l: Layout, m: Machine, ev: Event) {
    match ev
    case Commit(t) => m.up && Ready(l, m.disk, t) && |t| < NBUF
    case CrashInCommit(t, k) => m.up && Ready(l, m.disk, t) && k <= CommitReach(l, m.disk, t)
    case CrashInRecovery(k) => !m.up && HeadOk(l, m.disk) && k <= |RecoverWrites(l, m.disk)|
    case Recovery => !m.up && HeadOk(l, m.disk)
  }

  function Step(l: Layout, m: Machine, ev: Event): Machine
    requires Enabled(l, m, ev)
  {
    match ev
    case Commit(t) => Machine(Apply(m.disk, CommitWrites(l, m.disk, t)), true)
    case CrashInCommit(t, k) => Machine(Apply(m.disk, CommitWrites(l, m.disk, t)[..k]), false)
    case CrashInRecovery(k) => Machine(Apply(m.disk, RecoverWrites(l, m.disk)[..k]), false)
    case Recovery => Machine(Recovered(l, m.disk), true)
  }

  /** The same event on an atomic disk: a transaction happens entirely or not at all,
      and it happens exactly when its header, write number n+1 of the commit, reached
      the disk. */
  function AtomicStep(v: Disk, ev: Event): Disk {
    match ev
    case Commit(t) => Apply(v, t)
    case CrashInCommit(t, k) => if k > |t| then Apply(v, t) else v
    case CrashInRecovery(_) => v
    case Recovery => v
  }

  predicate Next(l: Layout, m: Machine, ev: Event, m': Machine) {
    Enabled(l, m, ev) && m' == Step(l, m, ev)
  }

  function Earlier(evs: seq<Event>): (r: seq<Event>)
    requires evs != []
    ensures |r| < |evs|
  {
    evs[..|evs| - 1]
  }

  function Last(evs: seq<Event>): Event
    requires evs != []
  {
    evs[|evs| - 1]
  }

  function AtomicRun(v: Disk, evs: seq<Event>): Disk
    decreases |evs|
  {
    if evs == [] then v else AtomicStep(AtomicRun(v, Earlier(evs)), Last(evs))
  }

  /** The machine state m is what the events evs make of m0. */
  ghost predicate Reaches(l: Layout, m0: Machine, evs: seq<Event>, m: Machine)
    decreases |evs|
  {
    if evs == [] then m == m0
    else exists m1 :: Reaches(l, m0, Earlier(evs), m1) && Next(l, m1, Last(evs), m)
  }

  ghost predicate Represents(l: Layout, m: Machine, v: Disk) {
    && GoodHead(l, m.disk) && HeadOk(l, m.disk)
    && Image(l, m.disk) == v
    && (m.up ==> Clean(l, m.disk) && View(l, m.disk) == v)
  }

  lemma StepIsAtomic(l: Layout, m: Machine, v: Disk, ev: Event)
    requires Represents(l, m, v) && Enabled(l, m, ev) && ev.Fit(l)
    ensures Represents(l, Step(l, m, ev), AtomicStep(v, ev))
  {
    hide Apply, CommitWrites, RecoverWrites, Image, View;
    match ev
    case Commit(t) =>
      var ws := CommitWrites(l, m.disk, t);
      assert ws[..|ws|] == ws;
      CommitLength(l, m.disk, t, v);
      CutCommit(l, m.disk, t, |ws|);
    case CrashInCommit(t, k) =>
      if k == 0 { NothingWritten(l, m.disk, t); } else { CutCommit(l, m.disk, t, k); }
    case CrashInRecovery(k) =>
      CutRecovery(l, m.disk, k);
    case Recovery =>
      var ws := RecoverWrites(l, m.disk);
      assert ws[..|ws|] == ws;
      CutRecovery(l, m.disk, |ws|);
  }

  /** Crash atomicity: every run of commits of any size, with any number of crashes in commits and
      in recoveries, does to the image what the same events do to an atomic disk; and whenever the
      machine is up, its home blocks are that image. The log needs NBUF blocks, as mkfs makes it;
      in a smaller one the transactions must fit. */
  lemma {:induction false} CrashAtomicity(l: Layout, m0: Machine, evs: seq<Event>, m: Machine)
    requires m0.up && Clean(l, m0.disk) && Reaches(l, m0, evs, m)
    requires l.size < NBUF ==> forall i :: 0 <= i < |evs| ==> evs[i].Fit(l)
    ensures Represents(l, m, AtomicRun(View(l, m0.disk), evs))
    decreases |evs|
  {
    if evs == [] {
      CleanImage(l, m0.disk);
    } else {
      var m1 :| Reaches(l, m0, Earlier(evs), m1) && Next(l, m1, Last(evs), m);
      CrashAtomicity(l, m0, Earlier(evs), m1);
      StepIsAtomic(l, m1, AtomicRun(View(l, m0.disk), Earlier(evs)), Last(evs));
    }
  }
}

/** log.c itself: the in-memory header, the buffers pinned in the cache, and the loops
    that copy blocks. `writes` records every block write, so the contracts can say
    which prefixes of a commit or a recovery a crash can leave behind. */
module LogDevice {
  import opened Xv6Params
  import opened DiskBlocks
  import opened Counting
  import opened LogDisk
  import GroupCommit

  lemma ApplyNone(d: Disk, before: seq<Write>, ws: seq<Write>)
    ensures Apply(d, ws[..0]) == d && before + ws[..0] == before
  {
  }

  lemma CutOne(d: Disk, before: seq<Write>, ws: seq<Write>, k: nat)
    requires k < |ws| && 0 <= ws[k].block < |d|
    ensures ws[..k + 1] == ws[..k] + [ws[k]]
    ensures Apply(d, ws[..k + 1]) == Apply(d, ws[..k])[ws[k].block := ws[k].data]
    ensures before + ws[..k] + [ws[k]] == before + ws[..k + 1]
  {
    assert ws[..k + 1] == ws[..k] + [ws[k]];
    ApplyLast(d, ws[..k], ws[k]);
    WritesAssoc(before, ws[..k], [ws[k]]);
  }

  /** One more round of install_trans. */
  lemma InstallNext(l: Layout, d: Disk, before: seq<Write>, bs: seq<nat>, k: nat)
    requires l.start + |bs| < |d| && k < |bs| && bs[k] < |d|
    ensures var ws := InstallWrites(l, d, bs[..k]);
            var w := Write(bs[k], Apply(d, ws)[l.start + k + 1]);
            && InstallWrites(l, d, bs[..k + 1]) == ws + [w]
            && Apply(d, ws + [w]) == Apply(d, ws)[w.block := w.data]
            && before + ws + [w] == before + (ws + [w])
  {
    hide Apply;
    assert bs[..k + 1][..k] == bs[..k];
    var ws := InstallWrites(l, d, bs[..k]);
    var w := Write(bs[k], Apply(d, ws)[l.start + k + 1]);
    ApplyLast(d, ws, w);
    WritesAssoc(before, ws, [w]);
  }

  /** The words of a header block, while write_head fills them in. */
  lemma HeadNext(h: Block, n: nat, bs: seq<nat>, i: nat)
    requires n < UINT && |bs| < 127 && Words(bs) && i < |bs|
    ensures PutWord(PutWords(h, 0, [n] + bs[..i]), i + 1, bs[i]) == PutWords(h, 0, [n] + bs[..i + 1])
  {
    assert ([n] + bs[..i + 1])[..i + 1] == [n] + bs[..i];
  }

  lemma Appended(was: seq<nat>, now: seq<nat>, i: nat, b: nat)
    requires i <= |was| && b !in was[..i] && (i < |was| ==> was[i] == b)
    requires |now| == (if i == |was| then |was| + 1 else |was|)
    requires forall j :: 0 <= j < |now| ==> now[j] == if j == i then b else was[j]
    ensures now == if b in was then was else was + [b]
  {
    if i == |was| { assert was[..i] == was; }
  }

  /** The logged blocks are distinct home blocks, and exactly they are pinned. */
  ghost predicate Collects(l: Layout, bs: seq<nat>, dirty: map<nat, Block>, nblocks: nat) {
    && HomeBlocks(l, bs, nblocks)
    && (forall i, j :: 0 <= i < j < |bs| ==> bs[i] != bs[j])
    && (forall b :: b in dirty <==> b in bs)
  }

  lemma CollectsMore(l: Layout, bs: seq<nat>, dirty: map<nat, Block>, nblocks: nat, b: nat, data: Block)
    requires Collects(l, bs, dirty, nblocks) && Home(l, b, nblocks) && (|bs| < LOGSIZE || b in bs)
    ensures Collects(l, if b in bs then bs else bs + [b], dirty[b := data], nblocks)
  {
  }

  /** The n blocks that follow block a. */
  function Span(a: nat, n: nat): (r: set<nat>)
    ensures forall b :: b in r <==> a < b <= a + n
  {
    if n == 0 then {} else Span(a, n - 1) + {a + n}
  }

  lemma SpanNone(dirty: map<nat, Block>, a: nat)
    ensures dirty - Span(a, 0) == dirty
  {
    assert Span(a, 0) == {};
  }

  lemma SpanMore(now: map<nat, Block>, dirty: map<nat, Block>, a: nat, n: nat, b: nat)
    requires now == dirty - Span(a, n) && b == a + n + 1
    ensures now - {b} == dirty - Span(a, n + 1)
  {
    assert Span(a, n) + {b} == Span(a, n + 1);
  }

  /** Beside the pinned buffers there is room for one more block and the next logged one. */
  lemma RoomForTwo(dirty: map<nat, Block>, bs: seq<nat>, tail: nat, a: nat)
    requires tail < |bs| && (dirty == map[] || |bs| < NBUF) && forall b :: b in dirty ==> b in bs
    ensures |dirty.Keys + {}| < NBUF
    ensures |dirty.Keys + {a}| < NBUF || bs[tail] in dirty.Keys + {a}
  {
    CountAtMost(bs);
    RoomIn(dirty.Keys, Elements(bs), bs[tail], a);
  }

  lemma RoomIn(keys: set<nat>, all: set<nat>, x: nat, a: nat)
    requires x in all && keys <= all && (keys == {} || |all| < NBUF)
    ensures |keys + {}| < NBUF
    ensures |keys + {a}| < NBUF || x in keys + {a}
  {
    assert keys + {} == keys;
    if keys != {} {
      CardSubset(keys + {x}, all);
      CardSubset(keys, all);
      assert a in keys ==> keys + {a} == keys;
    }
  }

  /** Every logged block is pinned in a buffer of its own. */
  lemma PinnedCount(l: Layout, bs: seq<nat>, dirty: map<nat, Block>, nblocks: nat)
    requires Collects(l, bs, dirty, nblocks)
    ensures |dirty.Keys + {}| == |bs|
  {
    KeysCount(dirty.Keys, bs);
  }

  lemma KeysCount(keys: set<nat>, bs: seq<nat>)
    requires (forall i, j :: 0 <= i < j < |bs| ==> bs[i] != bs[j]) && forall b :: b in keys <==> b in bs
    ensures |keys + {}| == |bs|
  {
    DistinctCount(bs);
    assert keys + {} == Elements(bs);
  }

  /** Each block of t is pinned in a buffer of its own, with its data, and the log's first block
      is not. */
  ghost predicate Pins(l: Layout, t: Txn, nblocks: nat, pinned: map<nat, Block>) {
    && l.start + 1 !in pinned && |pinned.Keys + {}| == |t| && (forall b :: b in pinned <==> b in Blocks(t))
    && (forall j :: 0 <= j < |t| ==> t[j].block < nblocks && t[j].block in pinned && t[j].data == pinned[t[j].block])
  }

  /** What write_log reads from the cache in round i is what LogData says. */
  lemma FromLog(l: Layout, d: Disk, pinned: map<nat, Block>, t: Txn, i: nat)
    requires l.start + i < |d| && i < |t| && t[i].block < |d| && Pins(l, t, |d|, pinned)
    ensures var (now, b) := (Apply(d, LogWrites(l, t)[..i]), t[i].block);
            LogData(l, t, i) == if b in pinned - Span(l.start, i) then pinned[b] else now[b]
  {
    hide Apply, LogWrites, Blocks, LogData;
    LogDataIs(l, t, i);
    LogCopied(l, d, t, i);
    var now, b := Apply(d, LogWrites(l, t)[..i]), t[i].block;
    assert b in pinned && pinned[b] == t[i].data;
    if l.start < b <= l.start + i {
      var j: nat := b - l.start - 1;
      assert now[l.start + 1 + j] == LogData(l, t, j);
    }
  }

  lemma NotTheHeader(l: Layout, t: Txn)
    ensures forall i :: 0 <= i < |t| ==> LogWrites(l, t)[i].block != l.start
  {
  }

  /** The blocks of t were pinned; write_log has copied the first `tail` of them. */
  ghost predicate Copying(l: Layout, d: Disk, ws: seq<Write>, dirty: map<nat, Block>,
                          t: Txn, d0: Disk, before: seq<Write>, pinned: map<nat, Block>, tail: nat) {
    && tail <= |t| && l.start + tail < |d0| == |d|
    && d == Apply(d0, LogWrites(l, t)[..tail]) && ws == before + LogWrites(l, t)[..tail]
    && dirty == pinned - Span(l.start, tail)
    && Pins(l, t, |d0|, pinned)
  }

  lemma CopyFacts(l: Layout, d: Disk, ws: seq<Write>, dirty: map<nat, Block>,
                  t: Txn, d0: Disk, before: seq<Write>, pinned: map<nat, Block>, tail: nat)
    requires Copying(l, d, ws, dirty, t, d0, before, pinned, tail)
    ensures tail <= |t| && |d| == |d0| && dirty == pinned - Span(l.start, tail)
    ensures d == Apply(d0, LogWrites(l, t)[..tail]) && ws == before + LogWrites(l, t)[..tail]
  {
  }

  /** What the next round of write_log finds, and what it makes of it. */
  lemma CopyRoom(l: Layout, d: Disk, ws: seq<Write>, dirty: map<nat, Block>,
                 t: Txn, d0: Disk, before: seq<Write>, pinned: map<nat, Block>, tail: nat, a: nat)
    requires Copying(l, d, ws, dirty, t, d0, before, pinned, tail)
    requires tail < |t| && (|t| < NBUF || tail == 0) && a == l.start + tail + 1
    ensures t[tail].block < |d|
    ensures |t| < NBUF ==> |dirty.Keys + {}| < NBUF && (|dirty.Keys + {a}| < NBUF || t[tail].block in dirty.Keys + {a})
    ensures |t| >= NBUF ==> |dirty.Keys + {}| >= NBUF && a !in dirty
    ensures var b := t[tail].block;
            var data := if b in dirty then dirty[b] else d[b];
            a < |d| ==> Copying(l, d[a := data], ws + [Write(a, data)], dirty - {a}, t, d0, before, pinned, tail + 1)
  {
    hide Apply, LogWrites, Span;
    if |t| < NBUF { CopyBuffers(l, dirty, t, |d0|, pinned, tail, a); } else { SpanNone(pinned, l.start); }
    FromLog(l, d0, pinned, t, tail);
    var b := t[tail].block;
    var w := Write(a, if b in dirty then dirty[b] else d[b]);
    if a < |d| { NextCopy(l, d0, before, t, tail, w); }
    SpanMore(dirty, pinned, l.start, tail, a);
  }

  lemma CopyBuffers(l: Layout, dirty: map<nat, Block>, t: Txn, nblocks: nat, pinned: map<nat, Block>, tail: nat, a: nat)
    requires Pins(l, t, nblocks, pinned) && dirty.Keys <= pinned.Keys && tail < |t| < NBUF
    ensures |dirty.Keys + {}| < NBUF && (|dirty.Keys + {a}| < NBUF || t[tail].block in dirty.Keys + {a})
  {
    RoomForTwo(dirty, Blocks(t), tail, a);
  }

  lemma NextCopy(l: Layout, d: Disk, before: seq<Write>, t: Txn, i: nat, w: Write)
    requires i < |t| && l.start + i + 1 < |d| && w == Write(l.start + i + 1, LogData(l, t, i))
    ensures var ws := LogWrites(l, t);
            && Apply(d, ws[..i + 1]) == Apply(d, ws[..i])[w.block := w.data]
            && before + ws[..i] + [w] == before + ws[..i + 1]
  {
    CutOne(d, before, LogWrites(l, t), i);
  }

  /** How many of n log blocks write_log gets to write: none if the logged blocks take all
      buffers, and none past the end of the disk. */
  function LogReach(n: nat, start: nat, nblocks: nat): (k: nat)
    requires start < nblocks
    ensures k <= n
  {
    if n >= NBUF then 0 else if start + n < nblocks then n else nblocks - 1 - start
  }

  lemma ReachStop(n: nat, start: nat, nblocks: nat, tail: nat)
    requires start < nblocks && tail < n && tail <= LogReach(n, start, nblocks)
    ensures n < NBUF && start + tail + 1 < nblocks ==> tail + 1 <= LogReach(n, start, nblocks)
    ensures n >= NBUF ==> tail == 0
    ensures n >= NBUF || start + tail + 1 >= nblocks ==> tail == LogReach(n, start, nblocks)
  {
  }

  datatype Ended = MustCommit | WakeOthers | Panicked

  class Log {
    const l: Layout
    const block: array<nat>          // lh.block
    var n: int                       // lh.n
    var outstanding: int
    var committing: bool
    var disk: Disk
    var dirty: map<nat, Block>       // B_DIRTY buffers: logged, not yet on disk
    var held: set<nat>               // the buffers a commit or recovery has a reference to
    ghost var writes: seq<Write>
    ghost var procs: seq<GroupCommit.Proc>       // where each process is
    ghost var refs: seq<set<int>>    // the buffers it has a reference to

    /** Any disk that holds a log with room for a block. */
    constructor (l: Layout, disk: Disk, ghost nproc: nat)
      requires Fits(l, |disk|) && l.size >= 2
      ensures this.l == l && this.disk == disk && fresh(block)
      ensures Booted() && n == 0 && writes == [] && Abs() == GroupCommit.Init(nproc)
    {
      this.l := l;
      this.block := new nat[LOGSIZE];
      this.n := 0;
      this.outstanding := 0;
      this.committing := false;
      this.disk := disk;
      this.dirty := map[];
      this.held := {};
      this.writes := [];
      this.procs := seq(nproc, i => GroupCommit.Idle);
      this.refs := seq(nproc, i => {});
    }

    ghost predicate Shape()
      reads this
    {
      block.Length == LOGSIZE && Fits(l, |disk|) && l.size >= 2
    }

    /** The state in which `initlog` calls recovery: nothing logged, nothing cached. */
    ghost predicate Booted()
      reads this
    {
      Shape() && dirty == map[] && held == {}
    }

    ghost predicate Valid()
      reads this, block
    {
      Shape() && 0 <= n <= LOGSIZE && Collects(l, block[..n], dirty, |disk|) && held == {}
    }

    /** What the step system of the operations sees. */
    ghost function Abs(): GroupCommit.State
      requires 0 <= n <= block.Length
      reads this, block
    {
      GroupCommit.State(procs, refs, outstanding, committing, block[..n], GroupCommit.Running)
    }

    /** The transaction collected so far. */
    ghost function Pending(): (t: Txn)
      requires Valid()
      reads this, block
      ensures |t| == n && Blocks(t) == block[..n] && HomeTxn(l, t, |disk|)
    {
      TxnOf(block[..n], dirty)
    }

    /** How many log blocks write_log gets to write. */
    ghost function Rounds(): (k: nat)
      requires Shape() && 0 <= n
      reads this
    {
      LogReach(n, l.start, |disk|)
    }

    /** Every pinned buffer is one of the blocks k, k+1, ... of bs. */
    ghost predicate PinnedFrom(bs: seq<nat>, k: nat)
      reads this
    {
      forall b :: b in dirty ==> exists i :: k <= i < |bs| && bs[i] == b
    }

    /** None of log blocks 1 .. k is pinned. */
    ghost predicate LogUnpinned(k: nat)
      reads this
    {
      forall b :: b in dirty ==> !(l.start < b <= l.start + k)
    }

    /** What a reader of the buffer cache sees of block b. */
    ghost function Content(b: nat): Block
      requires b < |disk|
      reads this
    {
      if b in dirty then dirty[b] else disk[b]
    }

    /** bread; it stops the machine for a block the disk does not have, and when every buffer is
        pinned or referenced. */
    method Bread(b: nat) returns (data: Block, ok: bool)
      modifies this`held
      ensures ok <==> b < |disk| && (b in dirty.Keys + old(held) || |dirty.Keys + old(held)| < NBUF)
      ensures held == if ok then old(held) + {b} else old(held)
      ensures ok ==> data == Content(b)
    {
      if b >= |disk| || (b !in dirty.Keys + held && |dirty.Keys + held| >= NBUF) { return Zero(), false; }
      held := held + {b};
      data, ok := if b in dirty then dirty[b] else disk[b], true;
    }

    method Bwrite(b: nat, data: Block)
      requires b < |disk| && b in held
      modifies this`disk, this`dirty, this`writes
      ensures disk == old(disk)[b := data] && dirty == old(dirty) - {b}
      ensures writes == old(writes) + [Write(b, data)]
    {
      disk := disk[b := data];
      dirty := dirty - {b};
      writes := writes + [Write(b, data)];
    }

    method Brelse(b: nat)
      modifies this`held
      ensures held == old(held) - {b}
    {
      held := held - {b};
    }

    /** One round of a copy loop, into the log or out of it: the buffer of the log block, then that
        of the home block, one copy, one block write. */
    method CopyBlock(logged: nat, home: nat, intoLog: bool) returns (ok: bool)
      requires held == {} && home < |disk|
      requires |dirty.Keys + {}| < NBUF ==> |dirty.Keys + {logged}| < NBUF || home in dirty.Keys + {logged}
      requires |dirty.Keys + {}| >= NBUF ==> logged !in dirty
      modifies this`disk, this`dirty, this`writes, this`held
      ensures ok <==> logged < |old(disk)| && |old(dirty).Keys + {}| < NBUF
      ensures ok ==> var w := if intoLog then Write(logged, old(Content(home))) else Write(home, old(Content(logged)));
                     disk == old(disk)[w.block := w.data] && dirty == old(dirty) - {w.block} && writes == old(writes) + [w]
      ensures !ok ==> disk == old(disk) && dirty == old(dirty) && writes == old(writes)
      ensures held == {}
    {
      var lbuf, hbuf;
      lbuf, ok := Bread(logged);
      if !ok { return; }
      assert {} + {logged} == {logged};
      hbuf, ok := Bread(home);
      if intoLog { Bwrite(logged, hbuf); } else { Bwrite(home, lbuf); }
      Brelse(home);
      Brelse(logged);
    }

    // ----- operations

    /** One round of begin_op under log.lock, by process p; if it does not enter, p sleeps. */
    method BeginOp(p: nat, ghost c: GroupCommit.Params) returns (entered: bool)
      requires Valid() && GroupCommit.Enabled(c, Abs(), GroupCommit.BeginOp(p))
      modifies this`outstanding, this`procs
      ensures Valid() && Abs() == GroupCommit.Do(c, old(Abs()), GroupCommit.BeginOp(p))
      ensures entered <==> procs[p].InOp?
      ensures old(GroupCommit.Good(c, Abs())) ==> GroupCommit.Good(c, Abs())
    {
      hide GroupCommit.Good, GroupCommit.Buffers, Collects;
      if GroupCommit.Good(c, Abs()) { GroupCommit.GoodStep(c, Abs(), GroupCommit.BeginOp(p)); }
      if committing || n + (outstanding + 1) * MAXOPBLOCKS > LOGSIZE {
        procs := procs[p := GroupCommit.Sleeping];
        return false;
      }
      outstanding := outstanding + 1;
      procs := procs[p := GroupCommit.InOp({})];
      entered := true;
    }

    /** The first critical section of end_op: the last operation out commits. In a machine whose
        steps are those of the step system it does not panic. */
    method EndOp(p: nat, ghost c: GroupCommit.Params) returns (r: Ended)
      requires Valid() && GroupCommit.Enabled(c, Abs(), GroupCommit.EndOp(p))
      modifies this`outstanding, this`committing, this`procs
      ensures Valid() && |procs| == |old(procs)| && (r == Panicked <==> GroupCommit.Do(c, old(Abs()), GroupCommit.EndOp(p)).panic != GroupCommit.Running)
      ensures r != Panicked ==> Abs() == GroupCommit.Do(c, old(Abs()), GroupCommit.EndOp(p))
      ensures r == MustCommit <==> procs[p] == GroupCommit.Committing
      ensures r == WakeOthers ==> procs[p] == GroupCommit.Idle && forall i :: 0 <= i < |procs| ==> procs[i] != GroupCommit.Sleeping
      ensures old(GroupCommit.Good(c, Abs())) ==> r != Panicked && GroupCommit.Good(c, Abs())
    {
      hide GroupCommit.Good, GroupCommit.Buffers, Collects;
      if GroupCommit.Good(c, Abs()) { GroupCommit.EndsWell(c, Abs(), p); }
      outstanding := outstanding - 1;
      if committing { return Panicked; }
      if outstanding == 0 {
        committing := true;
        procs := procs[p := GroupCommit.Committing];
        return MustCommit;
      }
      procs := GroupCommit.WakeAll(procs[p := GroupCommit.Idle]);
      r := WakeOthers;
    }

    /** The second critical section of end_op, after the commit. */
    method EndCommit(p: nat, ghost c: GroupCommit.Params)
      requires Valid() && GroupCommit.Enabled(c, Abs(), GroupCommit.EndCommit(p))
      modifies this`committing, this`procs
      ensures Valid() && Abs() == GroupCommit.Do(c, old(Abs()), GroupCommit.EndCommit(p))
      ensures old(GroupCommit.Good(c, Abs())) ==> GroupCommit.Good(c, Abs())
      ensures procs[p] == GroupCommit.Idle && forall i :: 0 <= i < |procs| ==> procs[i] != GroupCommit.Sleeping
    {
      hide GroupCommit.Good, GroupCommit.Buffers, Collects;
      if GroupCommit.Good(c, Abs()) { GroupCommit.GoodStep(c, Abs(), GroupCommit.EndCommit(p)); }
      committing := false;
      procs := GroupCommit.WakeAll(procs[p := GroupCommit.Idle]);
    }

    /** The tests of log_write, which run before it takes log.lock; n may change before
        LogAppend runs. Where the guard is out of reach they pass. */
    method LogGuard(p: nat, b: nat, ghost c: GroupCommit.Params) returns (ok: bool)
      requires Valid() && c.size == l.size && GroupCommit.Enabled(c, Abs(), GroupCommit.Guard(p, b))
      modifies this`procs
      ensures Valid() && (ok <==> GroupCommit.Do(c, old(Abs()), GroupCommit.Guard(p, b)).panic == GroupCommit.Running)
      ensures Abs() == if ok then GroupCommit.Do(c, old(Abs()), GroupCommit.Guard(p, b)) else old(Abs())
      ensures old(GroupCommit.Good(c, Abs())) ==> GroupCommit.Good(c, Abs()) && (!GroupCommit.GuardReach(c) ==> ok)
    {
      hide GroupCommit.Good, GroupCommit.Buffers, Collects;
      if GroupCommit.Good(c, Abs()) { GroupCommit.GuardsWell(c, Abs(), p, b); }
      ok := !(n >= LOGSIZE || n >= l.size - 1 || outstanding < 1);
      if ok { procs := procs[p := GroupCommit.Checked(procs[p].logged, b)]; }
    }

    /** The position of b in the header, or n: the loop of `log_write`. */
    method Find(b: nat) returns (i: int)
      requires Valid()
      ensures 0 <= i <= n && b !in block[..i]
      ensures i < n ==> block[i] == b
    {
      i := 0;
      while i < n
        invariant 0 <= i <= n && b !in block[..i]
      {
        if block[i] == b { break; }
        i := i + 1;
      }
    }

    /** The critical section of log_write, for the buffer of block b, holding `data`. It does not
        look at log.size: after a guard passed by several processes at once it can fill the log.
        That every block has a buffer keeps it inside the header array. */
    method LogAppend(p: nat, b: nat, data: Block, ghost c: GroupCommit.Params)
      requires Valid() && Home(l, b, |disk|) && GroupCommit.Core(Abs()) && GroupCommit.Cached(Abs())
      requires GroupCommit.Enabled(c, Abs(), GroupCommit.Append(p)) && procs[p].b == b
      modifies this`n, this`dirty, this`procs, block
      ensures Valid() && dirty == old(dirty)[b := data]
      ensures Abs() == GroupCommit.Do(c, old(Abs()), GroupCommit.Append(p))
      ensures GroupCommit.Core(Abs()) && GroupCommit.Cached(Abs())
    {
      hide Collects, GroupCommit.Core, GroupCommit.Cached, GroupCommit.Buffers;
      GroupCommit.CoreStep(c, Abs(), GroupCommit.Append(p));
      GroupCommit.CachedStep(c, Abs(), GroupCommit.Append(p));
      GroupCommit.InHeader(Abs());
      ghost var was := block[..n];
      CollectsMore(l, was, dirty, |disk|, b, data);
      var i := Find(b);
      block[i] := b;
      if i == n { n := n + 1; }
      dirty := dirty[b := data];
      Appended(was, block[..n], i, b);
      procs := procs[p := if procs[p].Stray? then GroupCommit.Idle else GroupCommit.InOp(procs[p].logged + {b})];
    }

    // ----- commit and recovery

    /** install_trans: copy each log block to the home block the header names for it. */
    method InstallTrans(ghost bs: seq<nat>)
      requires Shape() && n <= LOGSIZE && |bs| == (if n > 0 then n else 0) && block[..|bs|] == bs
      requires l.start + |bs| < |disk| && forall i :: 0 <= i < |bs| ==> bs[i] < |disk|
      requires PinnedFrom(bs, 0) && LogUnpinned(|bs|) && held == {} && (dirty == map[] || |bs| < NBUF)
      modifies this`disk, this`dirty, this`writes, this`held
      ensures disk == Apply(old(disk), InstallWrites(l, old(disk), bs)) && |disk| == |old(disk)|
      ensures writes == old(writes) + InstallWrites(l, old(disk), bs)
      ensures dirty == map[] && held == {}
    {
      hide Apply, InstallWrites;
      InstallNone(bs);
      var tail := 0;
      while tail < n
        invariant 0 <= tail <= |bs| && |disk| == |old(disk)| && held == {} && (dirty == map[] || |bs| < NBUF)
        invariant disk == Apply(old(disk), InstallWrites(l, old(disk), bs[..tail]))
        invariant writes == old(writes) + InstallWrites(l, old(disk), bs[..tail])
        invariant PinnedFrom(bs, tail) && LogUnpinned(|bs|)
      {
        assert block[tail] == bs[tail];
        InstallNext(l, old(disk), old(writes), bs, tail);
        InstallOne(bs, tail);
        tail := tail + 1;
      }
      assert bs[..tail] == bs;
      assert forall b :: b !in dirty;
      assert dirty == map[];
    }

    /** One round of install_trans. */
    method InstallOne(ghost bs: seq<nat>, tail: nat)
      requires block.Length == LOGSIZE && tail < |bs| <= LOGSIZE && block[tail] == bs[tail] && l.start + |bs| < |disk|
      requires bs[tail] < |disk| && PinnedFrom(bs, tail) && LogUnpinned(|bs|)
      requires held == {} && (dirty == map[] || |bs| < NBUF)
      modifies this`disk, this`dirty, this`writes, this`held
      ensures held == {} && dirty == old(dirty) - {bs[tail]}
      ensures var w := Write(bs[tail], old(disk)[l.start + tail + 1]);
              disk == old(disk)[w.block := w.data] && writes == old(writes) + [w]
    {
      InstallRoom(bs, tail);
      var ok := CopyBlock(l.start + tail + 1, block[tail], false);
    }

    lemma InstallRoom(bs: seq<nat>, tail: nat)
      requires tail < |bs| && PinnedFrom(bs, tail) && (dirty == map[] || |bs| < NBUF)
      ensures |dirty.Keys + {}| < NBUF
      ensures |dirty.Keys + {l.start + tail + 1}| < NBUF || bs[tail] in dirty.Keys + {l.start + tail + 1}
    {
      RoomForTwo(dirty, bs, tail, l.start + tail + 1);
    }

    lemma InstallNone(bs: seq<nat>)
      requires l.start + |bs| < |disk|
      ensures InstallWrites(l, disk, bs[..0]) == [] && Apply(disk, []) == disk && writes + [] == writes
    {
    }

    /** Install, then empty the log. */
    method InstallAndClearLog(ghost bs: seq<nat>)
      requires Shape() && n <= LOGSIZE && |bs| == (if n > 0 then n else 0) && block[..|bs|] == bs
      requires l.start + |bs| < |disk| && forall i :: 0 <= i < |bs| ==> bs[i] < |disk|
      requires PinnedFrom(bs, 0) && LogUnpinned(|bs|) && held == {} && (dirty == map[] || |bs| < NBUF)
      modifies this`n, this`disk, this`dirty, this`writes, this`held
      ensures n == 0 && dirty == map[] && held == {} && Clean(l, disk) && |disk| == |old(disk)|
      ensures disk == Apply(old(disk), InstallAndClear(l, old(disk), bs))
      ensures writes == old(writes) + InstallAndClear(l, old(disk), bs)
    {
      hide Apply, InstallWrites;
      InstallTrans(bs);
      n := 0;
      assert block[..n] == [];
      HeadSet(disk[l.start], []);
      ApplyLast(old(disk), InstallWrites(l, old(disk), bs), Clear(l, disk));
      WriteHead();
    }

    method ReadHead()
      requires Booted() && HeadOk(l, disk)
      modifies this`n, this`held, block
      ensures n == (if Word(disk[l.start], 0) < 0x8000_0000 then Word(disk[l.start], 0) else Word(disk[l.start], 0) - UINT)
      ensures block[..HeadCount(disk[l.start])] == HeadBlocks(disk[l.start]) && held == {}
    {
      assert dirty.Keys + held == {};
      var buf, ok := Bread(l.start);
      assert ok;
      n := if Word(buf, 0) < 0x8000_0000 then Word(buf, 0) else Word(buf, 0) - UINT;
      var i := 0;
      while i < n
        invariant 0 <= i <= HeadCount(buf)
        invariant forall j :: 0 <= j < i ==> block[j] == Word(buf, j + 1)
        modifies block
      {
        block[i] := Word(buf, i + 1);
        i := i + 1;
      }
      Brelse(l.start);
    }

    method WriteHead()
      requires Shape() && 0 <= n <= LOGSIZE && l.start !in dirty && Words(block[..n])
      requires held == {} && |dirty.Keys + {}| < NBUF
      modifies this`disk, this`dirty, this`writes, this`held
      ensures var w := Write(l.start, SetHead(old(disk)[l.start], block[..n]));
              disk == old(disk)[l.start := w.data] && writes == old(writes) + [w]
      ensures dirty == old(dirty) && held == {}
    {
      hide PutWords, PutWord;
      var hb, ok := Bread(l.start);
      assert ok;
      ghost var was, bs := hb, block[..n];
      CountPut(was, n, bs);
      hb := PutWord(hb, 0, n);
      var i := 0;
      while i < n
        invariant 0 <= i <= n
        invariant hb == PutWords(was, 0, [n] + bs[..i])
        modifies {}
      {
        HeadNext(was, n, bs, i);
        hb := PutWord(hb, i + 1, block[i]);
        i := i + 1;
      }
      assert bs[..n] == bs;
      Bwrite(l.start, hb);
      Brelse(l.start);
    }

    lemma CountPut(h: Block, n: nat, bs: seq<nat>)
      requires n < UINT
      ensures PutWord(h, 0, n) == PutWords(h, 0, [n] + bs[..0])
    {
      assert [n] + bs[..0] == [n];
      assert [n][..0] == [];
    }

    /** Recovery writes exactly RecoverWrites, in that order, and nothing else. */
    method RecoverFromLog()
      requires Booted() && HeadOk(l, disk)
      modifies this`n, this`disk, this`dirty, this`writes, this`held, block
      ensures Valid() && n == 0 && Clean(l, disk)
      ensures disk == Recovered(l, old(disk))
      ensures writes == old(writes) + RecoverWrites(l, old(disk))
    {
      hide Apply, InstallAndClear, HeadBlocks;
      ghost var bs := HeadBlocks(disk[l.start]);
      HeadLength(disk[l.start]);
      ReadHead();
      InstallAndClearLog(bs);
    }

    lemma HeadLength(h: Block)
      requires HeadCount(h) < 128
      ensures |HeadBlocks(h)| == HeadCount(h)
    {
    }

    /** Copy the logged blocks from the cache to the log. It stops the machine before its first
        write if the logged blocks take all buffers, and at the end of the disk. */
    method WriteLog(ghost t: Txn, ghost rounds: nat) returns (ok: bool)
      requires Valid() && t == Pending() && rounds == Rounds()
      modifies this`disk, this`dirty, this`writes, this`held
      ensures ok <==> rounds == n
      ensures |disk| == |old(disk)| && (ok ==> held == {}) && dirty == old(dirty) - Span(l.start, rounds)
      ensures disk == Apply(old(disk), LogWrites(l, t)[..rounds])
      ensures writes == old(writes) + LogWrites(l, t)[..rounds]
    {
      hide Apply, LogWrites, Collects, Copying, Span, TxnOf, LogReach;
      ghost var d0, w0, pinned := disk, writes, dirty;
      CopyStart();
      var tail: nat := 0;
      while tail < n
        invariant tail <= rounds && held == {} && |disk| == |d0| && block[..n] == Blocks(t)
        invariant Copying(l, disk, writes, dirty, t, d0, w0, pinned, tail)
      {
        ReachStop(n, l.start, |disk|, tail);
        ok := CopyOne(tail, t, d0, w0, pinned);
        if !ok { break; }
        tail := tail + 1;
      }
      assert tail == rounds;
      CopyFacts(l, disk, writes, dirty, t, d0, w0, pinned, tail);
      ok := tail == n;
    }

    /** One round of write_log. */
    method CopyOne(tail: nat, ghost t: Txn, ghost d0: Disk, ghost before: seq<Write>, ghost pinned: map<nat, Block>) returns (ok: bool)
      requires block.Length == LOGSIZE && tail < |t| <= LOGSIZE && block[..|t|] == Blocks(t) && held == {}
      requires (|t| < NBUF || tail == 0) && Copying(l, disk, writes, dirty, t, d0, before, pinned, tail)
      modifies this`disk, this`dirty, this`writes, this`held
      ensures |disk| == |old(disk)| && held == {} && (ok <==> |t| < NBUF && l.start + tail + 1 < |disk|)
      ensures Copying(l, disk, writes, dirty, t, d0, before, pinned, if ok then tail + 1 else tail)
    {
      hide Copying;
      var a := l.start + tail + 1;
      assert block[tail] == Blocks(t)[tail];
      CopyRoom(l, disk, writes, dirty, t, d0, before, pinned, tail, a);
      ok := CopyBlock(a, block[tail], true);
    }

    lemma CopyStart()
      requires Valid()
      ensures Copying(l, disk, writes, dirty, Pending(), disk, writes, dirty, 0)
    {
      PinnedCount(l, block[..n], dirty, |disk|);
      ApplyNone(disk, writes, LogWrites(l, Pending()));
      SpanNone(dirty, l.start);
      assert forall i :: 0 <= i < n ==> block[i] == block[..n][i] && block[..n][i] in block[..n];
    }

    /** The commit point: log blocks first, header last. */
    method WriteLogAndHead(ghost t: Txn, ghost rounds: nat) returns (ok: bool)
      requires Valid() && n > 0 && t == Pending() && rounds == Rounds()
      modifies this`disk, this`dirty, this`writes, this`held
      ensures |disk| == |old(disk)| && (ok <==> rounds == n)
      ensures ok ==> n < NBUF && Ready(l, old(disk), t) && held == {} && dirty == old(dirty) - Span(l.start, n)
      ensures ok ==> disk == Apply(old(disk), LogAndHead(l, old(disk), t))
      ensures ok ==> writes == old(writes) + LogAndHead(l, old(disk), t)
      ensures !ok ==> disk == Apply(old(disk), LogWrites(l, t)[..rounds])
      ensures !ok ==> writes == old(writes) + LogWrites(l, t)[..rounds]
    {
      hide Apply, Collects, LogWrites, Span, Pending;
      ghost var d0, pinned := disk, dirty;
      ghost var ws := LogWrites(l, t);
      PinnedCount(l, block[..n], dirty, |disk|);
      HomesOnly();
      ok := WriteLog(t, rounds);
      if !ok { return; }
      NotTheHeader(l, t);
      assert ws[..n] == ws;
      FewerPinned(pinned, dirty);
      ApplyElsewhere(d0, ws, l.start);
      WriteHead();
      ApplyLast(d0, ws, Write(l.start, SetHead(d0[l.start], block[..n])));
    }

    lemma FewerPinned(pinned: map<nat, Block>, now: map<nat, Block>)
      requires now.Keys <= pinned.Keys
      ensures |now.Keys + {}| <= |pinned.Keys + {}|
    {
      assert pinned.Keys + {} == (now.Keys + {}) + (pinned.Keys - now.Keys);
    }

    /** A commit writes exactly CommitWrites for the collected transaction, in that order, and
        leaves the cache with no unwritten block. If all buffers are pinned it stops the machine
        before it writes anything; if the log runs past the end of the disk, in write_log. As a
        step of process p it is the commit of the step system, if nobody else holds a buffer. */
    method Commit(p: nat, ghost c: GroupCommit.Params) returns (ok: bool)
      requires Valid() && GroupCommit.Enabled(c, Abs(), GroupCommit.Commit(p))
      modifies this`n, this`disk, this`dirty, this`writes, this`held, this`procs
      ensures ok <==> old(n) == 0 || (old(n) < NBUF && l.start + old(n) < |old(disk)|)
      ensures ok ==> Valid() && n == 0 && dirty == map[] && Ready(l, old(disk), old(Pending()))
      ensures ok ==> writes == old(writes) + CommitWrites(l, old(disk), old(Pending()))
      ensures ok ==> disk == Apply(old(disk), CommitWrites(l, old(disk), old(Pending())))
      ensures !ok ==> writes == old(writes) + LogWrites(l, old(Pending()))[..old(Rounds())]
      ensures !ok ==> disk == Apply(old(disk), LogWrites(l, old(Pending()))[..old(Rounds())])
      ensures old(n) == NBUF ==> !ok && disk == old(disk) && writes == old(writes)
      ensures old(GroupCommit.NoneHeld(Abs())) && l.start + old(n) < |old(disk)| ==>
                && (ok <==> GroupCommit.Do(c, old(Abs()), GroupCommit.Commit(p)).panic == GroupCommit.Running)
                && (ok ==> Abs() == GroupCommit.Do(c, old(Abs()), GroupCommit.Commit(p)))
    {
      hide Apply, LogAndHead, InstallAndClear, Collects, LogWrites, GroupCommit.Buffers;
      EmptyCollects();
      ghost var t, d0 := Pending(), disk;
      CommitStep(p, c);
      ApplyNone(disk, writes, LogWrites(l, t));
      if n > 0 {
        UnpinnedLog();
        ok := WriteLogAndHead(t, Rounds());
        if !ok { return; }
        ghost var head, rest := LogAndHead(l, d0, t), InstallAndClear(l, disk, Blocks(t));
        ApplyConcat(d0, head, rest);
        InstallAndClearLog(Blocks(t));
        WritesAssoc(old(writes), head, rest);
      } else {
        NothingPinned();
        ApplyNone(disk, writes, []);
        ok := true;
      }
      procs := procs[p := GroupCommit.Committed];
    }

    lemma CommitStep(p: nat, c: GroupCommit.Params)
      requires Valid() && GroupCommit.Enabled(c, Abs(), GroupCommit.Commit(p))
      ensures GroupCommit.NoneHeld(Abs()) ==>
                (GroupCommit.Do(c, Abs(), GroupCommit.Commit(p)).panic == GroupCommit.Running <==> n < NBUF)
    {
      if GroupCommit.NoneHeld(Abs()) {
        GroupCommit.BuffersAreLogged(Abs());
        DistinctCount(Abs().lh);
      }
    }

    lemma HomesOnly()
      requires Valid()
      ensures l.start !in dirty && Words(block[..n])
    {
    }

    lemma UnpinnedLog()
      requires Valid() && n > 0
      ensures PinnedFrom(block[..n], 0) && forall i :: 0 <= i < n ==> block[..n][i] < |disk|
    {
    }

    lemma EmptyCollects()
      ensures Collects(l, block[..0], map[], |disk|)
    {
    }

    lemma NothingPinned()
      requires Valid() && n == 0
      ensures dirty == map[]
    {
      assert forall b :: b !in dirty;
    }
  }
}
