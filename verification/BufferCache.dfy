/** The buffer cache of bio.c over the in-memory disk of memide.c. Each method is one
    critical section, so any interleaving of processes is a sequence of these calls. */
module BufferCache {
  import opened Xv6Params
  import opened DiskBlocks
  import opened Counting

  const HEAD := 30

  /** A struct buf; pid is the holder of its sleep lock, 0 when it is free. */
  datatype Buf = Buf(dev: nat, blockno: nat, valid: bool, dirty: bool, refcnt: nat, pid: nat, data: Block,
                        next: nat, prev: nat)

  // ----- the circular list

  ghost predicate Permutation(order: seq<nat>) {
    && |order| == NBUF
    && (forall k :: 0 <= k < NBUF ==> order[k] < NBUF)
    && (forall k, l :: 0 <= k < l < NBUF ==> order[k] != order[l])
    && (forall i :: 0 <= i < NBUF ==> i in order)
  }

  /** Element k of the cycle: the head, then the buffers in list order, then the head. */
  function At(order: seq<nat>, k: nat): nat
    requires k <= |order| + 1
  {
    if 1 <= k <= |order| then order[k - 1] else HEAD
  }

  /** The list runs from the head through `order` and back, in both directions. */
  ghost predicate Linked(s: seq<Buf>, order: seq<nat>) {
    && |s| == NBUF + 1
    && Permutation(order)
    && (forall k :: 0 <= k <= NBUF ==> s[At(order, k)].next == At(order, k + 1))
    && (forall k :: 0 <= k <= NBUF ==> s[At(order, k + 1)].prev == At(order, k))
  }

  function MoveToFront(order: seq<nat>, p: nat): seq<nat>
    requires p < |order|
  {
    [order[p]] + order[..p] + order[p + 1..]
  }

  function SetNext(s: seq<Buf>, i: nat, x: nat): seq<Buf>
    requires i < |s|
  {
    s[i := s[i].(next := x)]
  }

  function SetPrev(s: seq<Buf>, i: nat, x: nat): seq<Buf>
    requires i < |s|
  {
    s[i := s[i].(prev := x)]
  }

  predicate LinksInRange(s: seq<Buf>) {
    && |s| == NBUF + 1
    && forall i :: 0 <= i <= NBUF ==> s[i].next <= NBUF && s[i].prev <= NBUF
  }

  /** The first half of brelse's relinking: take b out of the list. */
  function Unlinked(s: seq<Buf>, b: nat): (r: seq<Buf>)
    requires LinksInRange(s) && b < NBUF
    ensures LinksInRange(r)
  {
    var s1 := SetPrev(s, s[b].next, s[b].prev);
    SetNext(s1, s1[b].prev, s1[b].next)
  }

  /** The second half: put b right behind the head. */
  function Fronted(s: seq<Buf>, b: nat): (r: seq<Buf>)
    requires LinksInRange(s) && b < NBUF
    ensures LinksInRange(r)
  {
    var s1 := SetNext(s, b, s[HEAD].next);
    var s2 := SetPrev(s1, b, HEAD);
    var s3 := SetPrev(s2, s2[HEAD].next, b);
    SetNext(s3, HEAD, b)
  }

  predicate SamePayload(x: Buf, y: Buf) {
    && x.dev == y.dev && x.blockno == y.blockno && x.valid == y.valid && x.dirty == y.dirty
    && x.refcnt == y.refcnt && x.pid == y.pid && x.data == y.data
  }

  lemma AtFront(order: seq<nat>, p: nat, k: nat)
    requires Permutation(order) && p < NBUF && k <= NBUF + 1
    ensures At(MoveToFront(order, p), k) ==
            if k == 0 || k == NBUF + 1 then HEAD
            else if k == 1 then order[p]
            else if k <= p + 1 then At(order, k - 1)
            else At(order, k)
  {
  }

  lemma PermutationFront(order: seq<nat>, p: nat)
    requires Permutation(order) && p < NBUF
    ensures Permutation(MoveToFront(order, p))
  {
    var r := MoveToFront(order, p);
    forall i | 0 <= i < NBUF
      ensures i in r
    {
      assert i in order;
      var k :| 0 <= k < NBUF && order[k] == i;
      if k == p { assert r[0] == i; } else if k < p { assert r[k + 1] == i; } else { assert r[k] == i; }
    }
  }

  lemma InRange(s: seq<Buf>, order: seq<nat>)
    requires Linked(s, order)
    ensures LinksInRange(s)
  {
    forall i | 0 <= i <= NBUF
      ensures s[i].next <= NBUF && s[i].prev <= NBUF
    {
      if i == HEAD {
        assert At(order, 0) == i && At(order, NBUF + 1) == i;
        assert s[At(order, 0)].next == At(order, 1);
        assert s[At(order, NBUF + 1)].prev == At(order, NBUF);
      } else {
        assert i in order;
        var k :| 0 <= k < NBUF && order[k] == i;
        assert At(order, k + 1) == i;
        assert s[At(order, k + 1)].next == At(order, k + 2);
        assert s[At(order, k + 1)].prev == At(order, k);
      }
    }
  }

  /** What the first buffer of the list is once b has been taken out. */
  function FirstWithout(s: seq<Buf>, b: nat): nat
    requires LinksInRange(s) && b < NBUF
  {
    if s[b].prev == HEAD then s[b].next else s[HEAD].next
  }

  /** The links after relinking, one buffer at a time. */
  lemma AfterRelink(s: seq<Buf>, b: nat, i: nat)
    requires LinksInRange(s) && b < NBUF && i <= NBUF
    requires s[b].next != b && s[b].prev != b && FirstWithout(s, b) != b
    ensures var r := Fronted(Unlinked(s, b), b);
            && SamePayload(r[i], s[i])
            && r[i].next == (if i == HEAD then b
                             else if i == b then FirstWithout(s, b)
                             else if i == s[b].prev then s[b].next
                             else s[i].next)
            && r[i].prev == (if i == FirstWithout(s, b) then b
                             else if i == b then HEAD
                             else if i == s[b].next then s[b].prev
                             else s[i].prev)
  {
  }

  /** The links around list position p. */
  lemma Around(s: seq<Buf>, order: seq<nat>, p: nat)
    requires Linked(s, order) && LinksInRange(s) && p < NBUF
    ensures var b := order[p];
            && s[b].next == At(order, p + 2) && s[b].prev == At(order, p) && s[HEAD].next == order[0]
            && s[b].next != b && s[b].prev != b && FirstWithout(s, b) != b
            && FirstWithout(s, b) == (if p == 0 then At(order, 2) else order[0])
  {
    assert At(order, p + 1) == order[p] && At(order, 0) == HEAD;
    assert s[At(order, p + 1)].next == At(order, p + 2) && s[At(order, p + 1)].prev == At(order, p);
    assert s[At(order, 0)].next == At(order, 1);
  }

  lemma RelinkNext(s: seq<Buf>, order: seq<nat>, p: nat, k: nat)
    requires Linked(s, order) && LinksInRange(s) && p < NBUF && k <= NBUF
    ensures var r := Fronted(Unlinked(s, order[p]), order[p]);
            var order' := MoveToFront(order, p);
            r[At(order', k)].next == At(order', k + 1)
  {
    hide Fronted, Unlinked, MoveToFront, FirstWithout;
    AtFront(order, p, k);
    AtFront(order, p, k + 1);
    Around(s, order, p);
    AfterRelink(s, order[p], At(MoveToFront(order, p), k));
    assert k >= 1 ==> s[At(order, k - 1)].next == At(order, k);
    assert s[At(order, k)].next == At(order, k + 1);
  }

  lemma RelinkPrev(s: seq<Buf>, order: seq<nat>, p: nat, k: nat)
    requires Linked(s, order) && LinksInRange(s) && p < NBUF && k <= NBUF
    ensures var r := Fronted(Unlinked(s, order[p]), order[p]);
            var order' := MoveToFront(order, p);
            r[At(order', k + 1)].prev == At(order', k)
  {
    hide Fronted, Unlinked, MoveToFront, FirstWithout;
    AtFront(order, p, k);
    AtFront(order, p, k + 1);
    Around(s, order, p);
    AfterRelink(s, order[p], At(MoveToFront(order, p), k + 1));
    assert k >= 1 ==> s[At(order, k)].prev == At(order, k - 1);
    assert s[At(order, k + 1)].prev == At(order, k);
  }

  /** brelse's pointer surgery moves a buffer to the front of the list, and changes
      nothing but links. */
  lemma Relink(s: seq<Buf>, order: seq<nat>, p: nat)
    requires Linked(s, order) && p < NBUF
    ensures LinksInRange(s)
    ensures var r := Fronted(Unlinked(s, order[p]), order[p]);
            && Linked(r, MoveToFront(order, p))
            && forall i :: 0 <= i <= NBUF ==> SamePayload(r[i], s[i])
  {
    hide Fronted, Unlinked, MoveToFront, FirstWithout;
    InRange(s, order);
    PermutationFront(order, p);
    Around(s, order, p);
    var r := Fronted(Unlinked(s, order[p]), order[p]);
    forall i | 0 <= i <= NBUF
      ensures SamePayload(r[i], s[i])
    {
      AfterRelink(s, order[p], i);
    }
    forall k | 0 <= k <= NBUF
      ensures r[At(MoveToFront(order, p), k)].next == At(MoveToFront(order, p), k + 1)
      ensures r[At(MoveToFront(order, p), k + 1)].prev == At(MoveToFront(order, p), k)
    {
      RelinkNext(s, order, p, k);
      RelinkPrev(s, order, p, k);
    }
  }

  // ----- what the cache holds

  predicate Assigned(x: Buf, dev: nat, blockno: nat) {
    x.dev == dev && x.blockno == blockno
  }

  /** A buffer eviction may take: unreferenced and not pinned by the log. */
  predicate Evictable(x: Buf) {
    x.refcnt == 0 && !x.dirty
  }

  ghost predicate BufOk(x: Buf, disk: seq<Block>) {
    && (x.pid != 0 ==> x.refcnt > 0)
    && (x.dirty ==> x.valid)
    && (x.valid ==> x.dev == 1 && x.blockno < |disk|)
    && (x.valid && !x.dirty && x.pid == 0 ==> x.data == disk[x.blockno])
  }

  /** Most recently released first. */
  ghost predicate RecencyOrder(order: seq<nat>, released: seq<int>, clock: int) {
    && |released| == NBUF
    && Permutation(order)
    && (forall i :: 0 <= i < NBUF ==> released[i] < clock)
    && (forall k, l :: 0 <= k < l < NBUF ==> released[order[k]] > released[order[l]])
  }

  ghost predicate Unique(s: seq<Buf>)
    requires |s| == NBUF + 1
  {
    forall i, j :: 0 <= i < j < NBUF && s[i].dev == s[j].dev && s[i].blockno == s[j].blockno ==> s[i].dev == 0
  }

  ghost predicate CacheOk(s: seq<Buf>, order: seq<nat>, released: seq<int>, clock: int, disk: seq<Block>) {
    && Linked(s, order)
    && RecencyOrder(order, released, clock)
    && Unique(s)
    && forall i :: 0 <= i < NBUF ==> BufOk(s[i], disk)
  }

  predicate Holds(x: Buf, blk: nat) {
    x.dev == 1 && x.blockno == blk && x.valid
  }

  /** The logical content of a block of device 1: the cached copy if there is one. */
  ghost function Content(s: seq<Buf>, disk: seq<Block>, blk: nat): Block
    requires |s| == NBUF + 1 && blk < |disk|
  {
    if exists i :: 0 <= i < NBUF && Holds(s[i], blk)
    then var i :| 0 <= i < NBUF && Holds(s[i], blk); s[i].data
    else disk[blk]
  }

  lemma ContentIs(s: seq<Buf>, disk: seq<Block>, i: nat)
    requires |s| == NBUF + 1 && Unique(s) && i < NBUF && s[i].dev == 1 && s[i].blockno < |disk|
    ensures Content(s, disk, s[i].blockno) == if s[i].valid then s[i].data else disk[s[i].blockno]
  {
    var blk := s[i].blockno;
    forall j | 0 <= j < NBUF && Holds(s[j], blk)
      ensures j == i
    {
    }
    if s[i].valid { assert Holds(s[i], blk); }
  }

  /** One buffer changes: only the blocks it held or holds can change. */
  lemma ContentFrame(s: seq<Buf>, disk: seq<Block>, s': seq<Buf>, disk': seq<Block>, i: nat, blk: nat)
    requires |s| == |s'| == NBUF + 1 && Unique(s) && Unique(s') && i < NBUF
    requires |disk| == |disk'| && blk < |disk|
    requires forall j :: 0 <= j < NBUF && j != i ==> SamePayload(s'[j], s[j])
    requires !Holds(s[i], blk) && !Holds(s'[i], blk) && disk'[blk] == disk[blk]
    ensures Content(s', disk', blk) == Content(s, disk, blk)
  {
    if j :| 0 <= j < NBUF && Holds(s[j], blk) {
      assert Holds(s'[j], blk);
      ContentIs(s, disk, j);
      ContentIs(s', disk', j);
    } else {
      forall j | 0 <= j < NBUF
        ensures !Holds(s'[j], blk)
      {
        assert !Holds(s[j], blk);
      }
    }
  }

  /** Logical contents are the same before and after. */
  ghost predicate SameContents(s: seq<Buf>, disk: seq<Block>, s': seq<Buf>, disk': seq<Block>)
    requires |s| == |s'| == NBUF + 1
  {
    |disk'| == |disk| && forall blk :: 0 <= blk < |disk| ==> Content(s', disk', blk) == Content(s, disk, blk)
  }

  lemma SamePayloadSame(s: seq<Buf>, disk: seq<Block>, s': seq<Buf>)
    requires |s| == |s'| == NBUF + 1 && Unique(s)
    requires forall j :: 0 <= j < NBUF ==>
               s'[j].dev == s[j].dev && s'[j].blockno == s[j].blockno && s'[j].valid == s[j].valid && s'[j].data == s[j].data
    ensures Unique(s') && SameContents(s, disk, s', disk)
  {
    forall blk | 0 <= blk < |disk|
      ensures Content(s', disk, blk) == Content(s, disk, blk)
    {
      if j :| 0 <= j < NBUF && Holds(s[j], blk) {
        ContentIs(s, disk, j);
        ContentIs(s', disk, j);
      } else {
        forall j | 0 <= j < NBUF
          ensures !Holds(s'[j], blk)
        {
          assert !Holds(s[j], blk);
        }
      }
    }
  }

  /** Giving an evictable buffer to another block loses nothing. */
  lemma Recycle(s: seq<Buf>, disk: seq<Block>, b: nat, dev: nat, blockno: nat, s': seq<Buf>)
    requires |s| == NBUF + 1 && Unique(s) && b < NBUF && Evictable(s[b]) && BufOk(s[b], disk)
    requires forall i :: 0 <= i < NBUF ==> !Assigned(s[i], dev, blockno)
    requires s' == s[b := s[b].(dev := dev, blockno := blockno, valid := false, dirty := false, refcnt := 1)]
    ensures Unique(s') && SameContents(s, disk, s', disk)
  {
    forall blk | 0 <= blk < |disk|
      ensures Content(s', disk, blk) == Content(s, disk, blk)
    {
      if Holds(s[b], blk) {
        ContentIs(s, disk, b);
        forall j | 0 <= j < NBUF
          ensures !Holds(s'[j], blk)
        {
        }
      } else {
        ContentFrame(s, disk, s', disk, b, blk);
      }
    }
  }

  /** Changing what one buffer says about its own block, and that block on disk. */
  lemma OneBlock(s: seq<Buf>, disk: seq<Block>, i: nat, x: Buf, disk': seq<Block>)
    requires |s| == NBUF + 1 && Unique(s) && i < NBUF && |disk'| == |disk|
    requires x.dev == s[i].dev == 1 && x.blockno == s[i].blockno < |disk|
    requires forall blk :: 0 <= blk < |disk| && blk != x.blockno ==> disk'[blk] == disk[blk]
    ensures Unique(s[i := x])
    ensures Content(s[i := x], disk', x.blockno) == if x.valid then x.data else disk'[x.blockno]
    ensures forall blk :: 0 <= blk < |disk| && blk != x.blockno ==>
              Content(s[i := x], disk', blk) == Content(s, disk, blk)
  {
    ContentIs(s[i := x], disk', i);
    forall blk | 0 <= blk < |disk| && blk != x.blockno
      ensures Content(s[i := x], disk', blk) == Content(s, disk, blk)
    {
      ContentFrame(s, disk, s[i := x], disk', i, blk);
    }
  }

  lemma SameAt(s: seq<Buf>, disk: seq<Block>, s': seq<Buf>, blk: nat)
    requires |s| == |s'| == NBUF + 1 && SameContents(s, disk, s', disk) && blk < |disk|
    ensures Content(s', disk, blk) == Content(s, disk, blk)
  {
  }

  lemma SameStays(s: seq<Buf>, disk: seq<Block>)
    requires |s| == NBUF + 1
    ensures SameContents(s, disk, s, disk)
  {
  }

  lemma StillLinked(s: seq<Buf>, order: seq<nat>, i: nat, x: Buf)
    requires Linked(s, order) && i < NBUF && x.next == s[i].next && x.prev == s[i].prev
    ensures Linked(s[i := x], order)
  {
    forall k | 0 <= k <= NBUF
      ensures s[i := x][At(order, k)].next == At(order, k + 1)
      ensures s[i := x][At(order, k + 1)].prev == At(order, k)
    {
    }
  }

  lemma FrontIsRecent(order: seq<nat>, released: seq<int>, clock: int, p: nat)
    requires RecencyOrder(order, released, clock) && p < NBUF
    ensures RecencyOrder(MoveToFront(order, p), released[order[p] := clock], clock + 1)
  {
    PermutationFront(order, p);
  }

  lemma NoneOf(s: seq<Buf>, order: seq<nat>, dev: nat, blockno: nat)
    requires |s| == NBUF + 1 && Permutation(order)
    requires forall l :: 0 <= l < NBUF ==> !Assigned(s[order[l]], dev, blockno)
    ensures forall i :: 0 <= i < NBUF ==> !Assigned(s[i], dev, blockno)
  {
    forall i | 0 <= i < NBUF
      ensures !Assigned(s[i], dev, blockno)
    {
      assert i in order;
    }
  }

  lemma NoneEvictable(s: seq<Buf>, order: seq<nat>)
    requires |s| == NBUF + 1 && Permutation(order)
    requires forall l :: 0 <= l < NBUF ==> !Evictable(s[order[l]])
    ensures forall i :: 0 <= i < NBUF ==> !Evictable(s[i])
  {
    forall i | 0 <= i < NBUF
      ensures !Evictable(s[i])
    {
      assert i in order;
    }
  }

  /** The last evictable buffer of the list is the one released longest ago. */
  lemma LeastRecent(s: seq<Buf>, order: seq<nat>, released: seq<int>, clock: int, k: nat)
    requires |s| == NBUF + 1 && RecencyOrder(order, released, clock) && k < NBUF
    requires forall l :: k < l < NBUF ==> !Evictable(s[order[l]])
    ensures forall i :: 0 <= i < NBUF && Evictable(s[i]) ==> released[order[k]] <= released[i]
  {
    forall i | 0 <= i < NBUF && Evictable(s[i])
      ensures released[order[k]] <= released[i]
    {
      assert i in order;
    }
  }

  lemma Position(order: seq<nat>, released: seq<int>, clock: int, b: nat) returns (p: nat)
    requires RecencyOrder(order, released, clock) && b < NBUF
    ensures |order| == |released| == NBUF && p < NBUF && order[p] == b && MoveToFront(order, p)[0] == b
  {
    assert b in order;
    p :| 0 <= p < NBUF && order[p] == b;
  }

  /** The list binit starts with: the last buffer of the array comes first. */
  function Backward(): (order: seq<nat>)
    ensures |order| == NBUF && forall k :: 0 <= k < NBUF ==> order[k] == NBUF - 1 - k
  {
    seq<nat>(NBUF, k requires 0 <= k < NBUF => NBUF - 1 - k)
  }

  lemma BackwardLinked(s: seq<Buf>)
    requires |s| == NBUF + 1
    requires s[HEAD].next == NBUF - 1 && s[HEAD].prev == 0
    requires forall i :: 0 <= i < NBUF ==> s[i].next == if i == 0 then HEAD else i - 1
    requires forall i :: 0 <= i < NBUF ==> s[i].prev == if i == NBUF - 1 then HEAD else i + 1
    ensures Linked(s, Backward())
  {
    forall i | 0 <= i < NBUF
      ensures i in Backward()
    {
      assert Backward()[NBUF - 1 - i] == i;
    }
  }

  lemma SameTrans(s: seq<Buf>, disk: seq<Block>, s1: seq<Buf>, s2: seq<Buf>)
    requires |s| == |s1| == |s2| == NBUF + 1
    requires SameContents(s, disk, s1, disk) && SameContents(s1, disk, s2, disk)
    ensures SameContents(s, disk, s2, disk)
  {
  }

  lemma SameAcross(s: seq<Buf>, d: seq<Block>, s1: seq<Buf>, s2: seq<Buf>, d2: seq<Block>)
    requires |s| == |s1| == |s2| == NBUF + 1
    requires SameContents(s, d, s1, d) && SameContents(s1, d, s2, d2)
    ensures SameContents(s, d, s2, d2)
  {
  }

  /** How far bread gets at once. */
  datatype Fetched = Ready | Busy | Stopped

  /** Once NBUF blocks have buffers that are dirty or referenced, another block has none and
      cannot get one. */
  lemma AllInUse(s: seq<Buf>, used: set<nat>, dev: nat, blockno: nat)
    requires |s| == NBUF + 1 && |used| >= NBUF && blockno !in used
    requires forall b :: b in used ==> exists i :: 0 <= i < NBUF && Assigned(s[i], dev, b) && !Evictable(s[i])
    ensures forall i :: 0 <= i < NBUF ==> !Assigned(s[i], dev, blockno) && !Evictable(s[i])
  {
    forall j | 0 <= j < NBUF
      ensures !Assigned(s[j], dev, blockno) && !Evictable(s[j])
    {
      if Assigned(s[j], dev, blockno) || Evictable(s[j]) {
        var rest := s[..j] + s[j + 1..NBUF];
        var names := seq(NBUF - 1, k requires 0 <= k < NBUF - 1 => rest[k].blockno);
        forall b | b in used
          ensures b in Elements(names)
        {
          var i :| 0 <= i < NBUF && Assigned(s[i], dev, b) && !Evictable(s[i]);
          assert names[if i < j then i else i - 1] == b;
        }
        CardSubset(used, Elements(names));
        CountAtMost(names);
      }
    }
  }

  // ----- who has a reference to a buffer

  /** The processes with a reference to each buffer, once per reference. */
  type Users = seq<multiset<nat>>

  ghost predicate UsersOk(s: seq<Buf>, u: Users)
    requires |s| == NBUF + 1
  {
    && |u| == NBUF
    && forall b :: 0 <= b < NBUF ==> s[b].refcnt == |u[b]| && (s[b].pid != 0 ==> s[b].pid in u[b])
  }

  /** What a call of process `me` leaves alone: every reference of another process, and the
      block of the buffer it is to. */
  ghost predicate Serves(s: seq<Buf>, u: Users, s': seq<Buf>, u': Users, me: nat)
    requires |s| == |s'| == NBUF + 1 && |u| == |u'| == NBUF
  {
    forall b, p :: 0 <= b < NBUF && p in u[b] && p != me ==>
      u'[b][p] == u[b][p] && s'[b].dev == s[b].dev && s'[b].blockno == s[b].blockno
  }

  /** One call of `me` changed nothing but buffer b. */
  lemma ServesOne(s: seq<Buf>, u: Users, s': seq<Buf>, u': Users, me: nat, b: nat)
    requires |s| == |s'| == NBUF + 1 && |u| == |u'| == NBUF && b < NBUF
    requires forall i :: 0 <= i < NBUF && i != b ==> s'[i] == s[i] && u'[i] == u[i]
    requires forall p :: p in u[b] && p != me ==> u'[b][p] == u[b][p]
    requires |u[b]| > 0 ==> s'[b].dev == s[b].dev && s'[b].blockno == s[b].blockno
    ensures Serves(s, u, s', u', me)
  {
  }

  lemma ServesTrans(s: seq<Buf>, u: Users, s1: seq<Buf>, u1: Users, s2: seq<Buf>, me: nat)
    requires |s| == |s1| == |s2| == NBUF + 1 && |u| == |u1| == NBUF
    requires Serves(s, u, s1, u1, me) && Serves(s1, u1, s2, u1, me)
    ensures Serves(s, u, s2, u1, me)
  {
  }

  /** A block of device 1 has one buffer at most, and a buffer eviction may take is unlocked. */
  lemma UnlockedOrOne(s: seq<Buf>, order: seq<nat>, released: seq<int>, clock: int, disk: seq<Block>, blockno: nat)
    requires CacheOk(s, order, released, clock, disk)
    ensures forall i, j :: 0 <= i < NBUF && 0 <= j < NBUF && Assigned(s[i], 1, blockno) && Assigned(s[j], 1, blockno) ==> i == j
    ensures forall i :: 0 <= i < NBUF && Evictable(s[i]) ==> s[i].pid == 0
  {
    hide Linked, RecencyOrder;
  }

  lemma HasUser(s: seq<Buf>, u: Users, b: nat, me: nat)
    requires |s| == NBUF + 1 && UsersOk(s, u) && b < NBUF && me in u[b] && (s[b].pid != me || me == 0)
    ensures s[b].refcnt > 0 && (s[b].refcnt == 1 ==> s[b].pid == 0)
  {
    assert |u[b] - multiset{me}| == |u[b]| - 1;
    if s[b].pid != 0 { assert s[b].pid in u[b] - multiset{me}; }
  }

  /** One reference less. */
  lemma ServesDrop(s: seq<Buf>, u: Users, s': seq<Buf>, me: nat, b: nat)
    requires |s| == |s'| == NBUF + 1 && UsersOk(s, u) && b < NBUF && me in u[b] && (s[b].pid != me || me == 0)
    requires forall i :: 0 <= i < NBUF ==> SamePayload(s'[i], if i == b then s[b].(refcnt := s[b].refcnt - 1) else s[i])
    ensures UsersOk(s', u[b := u[b] - multiset{me}]) && Serves(s, u, s', u[b := u[b] - multiset{me}], me)
  {
  }

  datatype Snap = Snap(s: seq<Buf>, u: Users, who: nat)

  /** Any calls of processes other than `me`, each snapshot after the call of `who`. */
  ghost predicate ByOthers(snaps: seq<Snap>, me: nat) {
    && (forall k :: 0 <= k < |snaps| ==> |snaps[k].s| == NBUF + 1 && |snaps[k].u| == NBUF)
    && (forall k, l :: 0 <= k < |snaps| && l == k + 1 < |snaps| ==>
          snaps[l].who != me && Serves(snaps[k].s, snaps[k].u, snaps[l].s, snaps[l].u, snaps[l].who))
  }

  /** A process that found its buffer busy and waits comes back to the same block, whatever the
      others do in the meantime. */
  lemma {:induction false} BusyResumes(snaps: seq<Snap>, me: nat, b: nat, dev: nat, blockno: nat, k: nat)
    requires ByOthers(snaps, me) && k < |snaps| && b < NBUF && me in snaps[0].u[b] && Assigned(snaps[0].s[b], dev, blockno)
    ensures me in snaps[k].u[b] && Assigned(snaps[k].s[b], dev, blockno)
  {
    if k > 0 {
      BusyResumes(snaps, me, b, dev, blockno, k - 1);
      assert Serves(snaps[k - 1].s, snaps[k - 1].u, snaps[k].s, snaps[k].u, snaps[k].who);
    }
  }

  class Cache {
    const buf: array<Buf>           // NBUF buffers, then the list head
    var disk: seq<Block>
    ghost var order: seq<nat>       // the list behind the head, most recently used first
    ghost var released: seq<int>    // when each buffer was last released by everyone
    ghost var clock: int
    ghost var users: Users          // who has a reference to each buffer

    ghost predicate Valid()
      reads this, buf
    {
      Sound() && UsersOk(buf[..], users)
    }

    ghost predicate Sound()
      reads this, buf
    {
      buf.Length == NBUF + 1 && CacheOk(buf[..], order, released, clock, disk)
    }

    /** binit. */
    constructor (disk: seq<Block>)
      ensures Valid() && this.disk == disk && fresh(buf) && forall b :: 0 <= b < NBUF ==> users[b] == multiset{}
      ensures forall blk :: 0 <= blk < |disk| ==> Content(buf[..], disk, blk) == disk[blk]
    {
      this.disk := disk;
      order := Backward();
      released := seq(NBUF, i => i);
      clock := NBUF;
      users := seq(NBUF, i => multiset{});
      buf := new Buf[NBUF + 1](_ => Buf(0, 0, false, false, 0, 0, Zero(), HEAD, HEAD));
      new;
      var b: nat := 0;
      while b < NBUF
        modifies buf
        invariant b <= NBUF
        invariant forall i :: 0 <= i <= NBUF ==>
                    SamePayload(buf[i], Buf(0, 0, false, false, 0, 0, Zero(), HEAD, HEAD))
        invariant buf[HEAD].next == if b == 0 then HEAD else b - 1
        invariant buf[HEAD].prev == if b == 0 then HEAD else 0
        invariant forall i :: 0 <= i < b ==> buf[i].next == if i == 0 then HEAD else i - 1
        invariant forall i :: 0 <= i < b ==> buf[i].prev == if i == b - 1 then HEAD else i + 1
      {
        buf[b] := buf[b].(next := buf[HEAD].next);
        buf[b] := buf[b].(prev := HEAD);
        buf[buf[HEAD].next] := buf[buf[HEAD].next].(prev := b);
        buf[HEAD] := buf[HEAD].(next := b);
        b := b + 1;
      }
      BackwardLinked(buf[..]);
      forall blk | 0 <= blk < |disk|
        ensures Content(buf[..], disk, blk) == disk[blk]
      {
        assert forall i :: 0 <= i < NBUF ==> !Holds(buf[..][i], blk);
      }
    }

    /** Find the buffer for a block, or recycle one; one critical section of bcache.lock.
        It stops the machine (ok is false) when every buffer is in use. A recycled buffer is
        the one released longest ago among those eviction may take. */
    method Bget(dev: nat, blockno: nat, ghost me: nat) returns (b: nat, ok: bool)
      requires Valid()
      modifies this`users, buf
      ensures Valid() && SameContents(old(buf[..]), disk, buf[..], disk)
      ensures forall i :: 0 <= i < NBUF && old(buf[..])[i].refcnt > 0 ==>
                buf[i].dev == old(buf[..])[i].dev && buf[i].blockno == old(buf[..])[i].blockno && buf[i].refcnt >= old(buf[..])[i].refcnt
      ensures Serves(old(buf[..]), old(users), buf[..], users, me)
      ensures ok ==> b < NBUF && users == old(users)[b := old(users)[b] + multiset{me}]
      ensures !ok ==> users == old(users)
      ensures ok ==> b < NBUF && Assigned(buf[b], dev, blockno)
      ensures (exists i :: 0 <= i < NBUF && Assigned(old(buf[..])[i], dev, blockno)) ==>
                && ok
                && Assigned(old(buf[..])[b], dev, blockno)
                && buf[..] == old(buf[..])[b := old(buf[b]).(refcnt := old(buf[b]).refcnt + 1)]
      ensures !(exists i :: 0 <= i < NBUF && Assigned(old(buf[..])[i], dev, blockno)) ==>
                && (ok <==> exists i :: 0 <= i < NBUF && Evictable(old(buf[..])[i]))
                && (ok ==> && Evictable(old(buf[..])[b])
                           && (forall i :: 0 <= i < NBUF && Evictable(old(buf[..])[i]) ==> released[b] <= released[i])
                           && buf[..] == old(buf[..])[b := old(buf[b]).(dev := dev, blockno := blockno,
                                                     valid := false, dirty := false, refcnt := 1)])
      ensures !ok ==> buf[..] == old(buf[..]) && forall i :: 0 <= i < NBUF ==> buf[i].refcnt > 0 || buf[i].dirty
    {
      hide CacheOk, UsersOk, Content;
      ghost var s := buf[..];
      b, ok := Lookup(dev, blockno);
      if ok {
        AddRef(b, me);
        return;
      }
      b, ok := Victim();
      if ok {
        Reassign(b, dev, blockno, me);
      } else {
        SameStays(s, disk);
      }
    }

    /** One more reference to a buffer that has the block. */
    method AddRef(b: nat, ghost me: nat)
      requires Valid() && b < NBUF
      modifies this`users, buf
      ensures Valid() && SameContents(old(buf[..]), disk, buf[..], disk)
      ensures |old(users)| == NBUF && users == old(users)[b := old(users)[b] + multiset{me}]
      ensures Serves(old(buf[..]), old(users), buf[..], users, me)
      ensures buf[..] == old(buf[..])[b := old(buf[b]).(refcnt := old(buf[b]).refcnt + 1)]
    {
      ghost var s := buf[..];
      buf[b] := buf[b].(refcnt := buf[b].refcnt + 1);
      users := users[b := users[b] + multiset{me}];
      ServesOne(s, old(users), buf[..], users, me, b);
      StillLinked(s, order, b, buf[b]);
      SamePayloadSame(s, disk, buf[..]);
    }

    /** A buffer nobody needs is given to a block that has none. */
    method Reassign(b: nat, dev: nat, blockno: nat, ghost me: nat)
      requires Valid() && b < NBUF && Evictable(buf[b])
      requires forall i :: 0 <= i < NBUF ==> !Assigned(buf[..][i], dev, blockno)
      modifies this`users, buf
      ensures Valid() && SameContents(old(buf[..]), disk, buf[..], disk)
      ensures |old(users)| == NBUF && users == old(users)[b := old(users)[b] + multiset{me}]
      ensures Serves(old(buf[..]), old(users), buf[..], users, me)
      ensures buf[..] == old(buf[..])[b := old(buf[b]).(dev := dev, blockno := blockno, valid := false, dirty := false, refcnt := 1)]
    {
      ghost var s := buf[..];
      buf[b] := buf[b].(dev := dev, blockno := blockno, valid := false, dirty := false, refcnt := 1);
      assert users[b] == multiset{};
      users := users[b := users[b] + multiset{me}];
      ServesOne(s, old(users), buf[..], users, me, b);
      Recycle(s, disk, b, dev, blockno, buf[..]);
      StillLinked(s, order, b, buf[b]);
    }

    /** The first loop of bget: from the most recently used buffer on. */
    method Lookup(dev: nat, blockno: nat) returns (p: nat, found: bool)
      requires Valid()
      ensures found ==> p < NBUF && Assigned(buf[p], dev, blockno)
      ensures !found ==> forall i :: 0 <= i < NBUF ==> !Assigned(buf[..][i], dev, blockno)
    {
      ghost var s := buf[..];
      InRange(s, order);
      p := buf[HEAD].next;
      ghost var k: nat := 0;
      assert s[At(order, 0)].next == At(order, 1);
      while p != HEAD
        invariant k <= NBUF && p == At(order, k + 1)
        invariant forall l :: 0 <= l < k ==> !Assigned(s[order[l]], dev, blockno)
        decreases NBUF - k
      {
        assert p == order[k];
        if Assigned(buf[p], dev, blockno) { return p, true; }
        assert s[At(order, k + 1)].next == At(order, k + 2);
        p := buf[p].next;
        k := k + 1;
      }
      NoneOf(s, order, dev, blockno);
      found := false;
    }

    /** The second loop of bget: from the least recently used buffer on. */
    method Victim() returns (p: nat, found: bool)
      requires Valid()
      ensures found ==> p < NBUF && Evictable(buf[p]) && users[p] == multiset{}
      ensures found ==> forall i :: 0 <= i < NBUF && Evictable(buf[..][i]) ==> released[p] <= released[i]
      ensures !found ==> forall i :: 0 <= i < NBUF ==> !Evictable(buf[..][i]) && (buf[i].refcnt > 0 || buf[i].dirty)
    {
      ghost var s := buf[..];
      InRange(s, order);
      p := buf[HEAD].prev;
      ghost var k: nat := NBUF;
      assert s[At(order, NBUF + 1)].prev == At(order, NBUF);
      while p != HEAD
        invariant k <= NBUF && p == At(order, k)
        invariant forall l :: k <= l < NBUF ==> !Evictable(s[order[l]])
        decreases k
      {
        assert p == order[k - 1];
        if buf[p].refcnt == 0 && !buf[p].dirty {
          LeastRecent(s, order, released, clock, k - 1);
          return p, true;
        }
        assert s[At(order, k)].prev == At(order, k - 1);
        p := buf[p].prev;
        k := k - 1;
      }
      NoneEvictable(s, order);
      found := false;
    }

    /** One look of acquiresleep at the buffer's lock: it takes a free one; otherwise the caller
        sleeps, keeping its reference. */
    method Acquire(b: nat, me: nat) returns (got: bool)
      requires Valid() && b < NBUF && me in users[b] && me != 0
      modifies buf
      ensures Valid() && SameContents(old(buf[..]), disk, buf[..], disk) && Serves(old(buf[..]), users, buf[..], users, me)
      ensures got <==> old(buf[b]).pid == 0
      ensures buf[..] == if got then old(buf[..])[b := old(buf[b]).(pid := me)] else old(buf[..])
    {
      ghost var s := buf[..];
      SamePayloadSame(s, disk, s);
      if buf[b].pid != 0 { return false; }
      buf[b] := buf[b].(pid := me);
      StillLinked(s, order, b, buf[b]);
      SamePayloadSame(s, disk, buf[..]);
      got := true;
    }

    /** iderw: sync a locked buffer with the disk. ok is false for its four panics. */
    method Iderw(b: nat, me: nat) returns (ok: bool)
      requires Valid() && b < NBUF && me != 0
      modifies this`disk, buf
      ensures Valid()
      ensures ok <==> && old(buf[b]).pid == me
                      && !(old(buf[b]).valid && !old(buf[b]).dirty)
                      && old(buf[b]).dev == 1 && old(buf[b]).blockno < |old(disk)|
      ensures !ok ==> buf[..] == old(buf[..]) && disk == old(disk)
      ensures ok && old(buf[b]).dirty ==>
                && disk == old(disk)[old(buf[b]).blockno := old(buf[b]).data]
                && buf[..] == old(buf[..])[b := old(buf[b]).(dirty := false)]
      ensures ok && !old(buf[b]).dirty ==>
                && disk == old(disk)
                && buf[..] == old(buf[..])[b := old(buf[b]).(valid := true, data := disk[old(buf[b]).blockno])]
      ensures SameContents(old(buf[..]), old(disk), buf[..], disk) && Serves(old(buf[..]), users, buf[..], users, me)
    {
      ghost var s, d := buf[..], disk;
      var x := buf[b];
      SamePayloadSame(s, d, s);
      if x.pid != me || (x.valid && !x.dirty) || x.dev != 1 || x.blockno >= |disk| { return false; }
      ContentIs(s, d, b);
      if x.dirty {
        disk := disk[x.blockno := x.data];
        buf[b] := x.(dirty := false, valid := true);
      } else {
        buf[b] := x.(data := disk[x.blockno], valid := true);
      }
      OneBlock(s, d, b, buf[b], disk);
      StillLinked(s, order, b, buf[b]);
      assert buf[..] == s[b := buf[b]];
      ok := true;
    }

    /** The holder of a buffer changes its data; log_write then pins it. */
    method Modify(b: nat, me: nat, data: Block, pin: bool)
      requires Valid() && b < NBUF && me != 0 && buf[b].pid == me && buf[b].valid
      modifies buf
      ensures Valid() && Serves(old(buf[..]), users, buf[..], users, me)
      ensures buf[..] == old(buf[..])[b := old(buf[b]).(data := data, dirty := old(buf[b]).dirty || pin)]
      ensures Content(buf[..], disk, old(buf[b]).blockno) == data
      ensures forall blk :: 0 <= blk < |disk| && blk != old(buf[b]).blockno ==>
                Content(buf[..], disk, blk) == Content(old(buf[..]), disk, blk)
    {
      ghost var s := buf[..];
      buf[b] := buf[b].(data := data, dirty := buf[b].dirty || pin);
      OneBlock(s, disk, b, buf[b], disk);
      StillLinked(s, order, b, buf[b]);
      assert buf[..] == s[b := buf[b]];
    }

    /** The rest of bread for a process that has a reference to buffer b: take the lock, and read
        the block if the buffer does not hold it yet. A process that finds it busy calls it again
        when it is woken. */
    method Resume(b: nat, me: nat) returns (r: Fetched)
      requires Valid() && b < NBUF && me in users[b] && me != 0
      modifies this`disk, buf
      ensures Valid() && disk == old(disk) && SameContents(old(buf[..]), disk, buf[..], disk)
      ensures Serves(old(buf[..]), users, buf[..], users, me)
      ensures r == Busy <==> old(buf[b]).pid != 0
      ensures r == Ready <==> old(buf[b]).pid == 0 && old(buf[b]).dev == 1 && old(buf[b]).blockno < |disk|
      ensures r == Busy ==> buf[..] == old(buf[..])
      ensures r == Ready ==> && buf[b].pid == me && buf[b].valid && Assigned(buf[b], old(buf[b]).dev, old(buf[b]).blockno)
                             && buf[b].data == Content(old(buf[..]), disk, old(buf[b]).blockno)
    {
      ghost var s := buf[..];
      var got := Acquire(b, me);
      if !got { return Busy; }
      ghost var s1 := buf[..];
      if !buf[b].valid {
        var ok := Iderw(b, me);
        if !ok { return Stopped; }
      }
      SameTrans(s, disk, s1, buf[..]);
      ContentIs(buf[..], disk, b);
      r := Ready;
    }

    /** bread: a locked buffer with the block's content; busy exactly while another process holds
        the block; it stops the machine only for a block that does not exist or when every buffer
        is in use. */
    method Bread(dev: nat, blockno: nat, me: nat) returns (b: nat, r: Fetched)
      requires Valid() && me != 0
      modifies this`disk, this`users, buf
      ensures Valid() && disk == old(disk) && SameContents(old(buf[..]), disk, buf[..], disk)
      ensures Serves(old(buf[..]), old(users), buf[..], users, me)
      ensures r != Stopped ==> b < NBUF && users == old(users)[b := old(users)[b] + multiset{me}]
      ensures r == Busy ==> b < NBUF && Assigned(old(buf[..])[b], dev, blockno) && old(buf[..])[b].pid != 0
      ensures r == Busy ==> buf[..] == old(buf[..])[b := old(buf[..])[b].(refcnt := old(buf[..])[b].refcnt + 1)]
      ensures dev == 1 ==> (r == Busy <==> exists i :: 0 <= i < NBUF && Assigned(old(buf[..])[i], dev, blockno) && old(buf[..])[i].pid != 0)
      ensures r == Ready ==> dev == 1 && blockno < |disk|
      ensures r == Stopped ==>
                || !(dev == 1 && blockno < |disk|)
                || forall i :: 0 <= i < NBUF ==> && !Assigned(old(buf[..])[i], dev, blockno) && !Evictable(old(buf[..])[i])
                                                 && (old(buf[..])[i].refcnt > 0 || old(buf[..])[i].dirty)
      ensures (forall i :: 0 <= i < NBUF ==> !Assigned(old(buf[..])[i], dev, blockno) && !Evictable(old(buf[..])[i])) ==> r == Stopped
      ensures r == Ready ==> && b < NBUF && Assigned(buf[b], dev, blockno) && buf[b].pid == me && buf[b].valid
                             && buf[b].data == Content(old(buf[..]), disk, blockno)
    {
      hide CacheOk, Content, SameContents, Serves;
      ghost var s, u := buf[..], users;
      UnlockedOrOne(s, order, released, clock, disk, blockno);
      var ok;
      b, ok := Bget(dev, blockno, me);
      if !ok { return b, Stopped; }
      ghost var s1, u1 := buf[..], users;
      r := Resume(b, me);
      SameTrans(s, disk, s1, buf[..]);
      ServesTrans(s, u, s1, u1, buf[..], me);
      if dev == 1 && blockno < |disk| { SameAt(s, disk, s1, blockno); }
    }

    /** bwrite: the buffer reaches the disk. */
    method Bwrite(b: nat, me: nat) returns (ok: bool)
      requires Valid() && b < NBUF && me != 0 && buf[b].valid
      modifies this`disk, buf
      ensures Valid() && |disk| == |old(disk)| && Serves(old(buf[..]), users, buf[..], users, me)
      ensures ok <==> old(buf[b]).pid == me
      ensures ok ==> && SameContents(old(buf[..]), old(disk), buf[..], disk)
                     && disk == old(disk)[old(buf[b]).blockno := old(buf[b]).data]
                     && buf[..] == old(buf[..])[b := old(buf[b]).(dirty := false)]
    {
      ghost var s, d := buf[..], disk;
      if buf[b].pid != me { return false; }
      buf[b] := buf[b].(dirty := true);
      ghost var s1 := buf[..];
      StillLinked(s, order, b, buf[b]);
      SamePayloadSame(s, d, s1);
      ok := Iderw(b, me);
      SameAcross(s, d, s1, buf[..], disk);
    }

    /** The first half of brelse: give up the sleep lock. The caller has written or pinned
        whatever it changed. */
    method ReleaseSleep(b: nat, me: nat) returns (ok: bool)
      requires Valid() && b < NBUF && me != 0
      requires buf[b].pid == me && buf[b].valid ==> buf[b].dirty || buf[b].data == disk[buf[b].blockno]
      modifies buf
      ensures Valid() && SameContents(old(buf[..]), disk, buf[..], disk) && Serves(old(buf[..]), users, buf[..], users, me)
      ensures ok <==> old(buf[b]).pid == me
      ensures buf[..] == if ok then old(buf[..])[b := old(buf[b]).(pid := 0)] else old(buf[..])
    {
      ghost var s := buf[..];
      SamePayloadSame(s, disk, s);
      if buf[b].pid != me { return false; }
      buf[b] := buf[b].(pid := 0);
      StillLinked(s, order, b, buf[b]);
      SamePayloadSame(s, disk, buf[..]);
      ok := true;
    }

    /** brelse's six pointer assignments. */
    method MoveBehindHead(b: nat)
      requires buf.Length == NBUF + 1 && LinksInRange(buf[..]) && b < NBUF
      modifies buf
      ensures buf[..] == Fronted(Unlinked(old(buf[..]), b), b)
    {
      buf[buf[b].next] := buf[buf[b].next].(prev := buf[b].prev);
      buf[buf[b].prev] := buf[buf[b].prev].(next := buf[b].next);
      assert buf[..] == Unlinked(old(buf[..]), b);
      buf[b] := buf[b].(next := buf[HEAD].next);
      buf[b] := buf[b].(prev := HEAD);
      buf[buf[HEAD].next] := buf[buf[HEAD].next].(prev := b);
      buf[HEAD] := buf[HEAD].(next := b);
    }

    /** The second half of brelse: drop the reference and, if it was the last, move the
        buffer to the front of the list. */
    method Drop(b: nat, ghost me: nat)
      requires Valid() && b < NBUF && me in users[b] && (buf[b].pid != me || me == 0)
      modifies this`order, this`released, this`clock, this`users, buf
      ensures Valid() && SameContents(old(buf[..]), disk, buf[..], disk)
      ensures Serves(old(buf[..]), old(users), buf[..], users, me) && users == old(users)[b := old(users)[b] - multiset{me}]
      ensures forall i :: 0 <= i < NBUF ==>
                SamePayload(buf[i], if i == b then old(buf[b]).(refcnt := old(buf[b]).refcnt - 1) else old(buf[..])[i])
      ensures old(buf[b]).refcnt > 1 ==> order == old(order)
      ensures old(buf[b]).refcnt == 1 ==>
                && order[0] == b
                && forall i, j :: 0 <= i < NBUF && 0 <= j < NBUF && i != b && j != b ==>
                     (released[i] < released[j] <==> old(released)[i] < old(released)[j])
    {
      hide CacheOk, SameContents;
      ghost var s := buf[..];
      HasUser(s, users, b, me);
      Unref(b);
      ServesDrop(s, users, buf[..], me, b);
      users := users[b := users[b] - multiset{me}];
    }

    method Unref(b: nat)
      requires Sound() && b < NBUF && buf[b].refcnt > 0 && (buf[b].pid == 0 || buf[b].refcnt > 1)
      modifies this`order, this`released, this`clock, buf
      ensures Sound() && SameContents(old(buf[..]), disk, buf[..], disk) && |released| == |old(released)| == |order| == NBUF
      ensures forall i :: 0 <= i < NBUF ==>
                SamePayload(buf[i], if i == b then old(buf[b]).(refcnt := old(buf[b]).refcnt - 1) else old(buf[..])[i])
      ensures old(buf[b]).refcnt > 1 ==> order == old(order)
      ensures old(buf[b]).refcnt == 1 ==>
                && order[0] == b
                && forall i, j :: 0 <= i < NBUF && 0 <= j < NBUF && i != b && j != b ==>
                     (released[i] < released[j] <==> old(released)[i] < old(released)[j])
    {
      hide Fronted, Unlinked, Linked, RecencyOrder, Permutation, Content;
      ghost var s := buf[..];
      ghost var p := Position(order, released, clock, b);
      buf[b] := buf[b].(refcnt := buf[b].refcnt - 1);
      ghost var s1 := buf[..];
      StillLinked(s, order, b, buf[b]);
      SamePayloadSame(s, disk, s1);
      if buf[b].refcnt == 0 {
        Relink(s1, order, p);
        MoveBehindHead(b);
        FrontIsRecent(order, released, clock, p);
        order, released, clock := MoveToFront(order, p), released[b := clock], clock + 1;
        SamePayloadSame(s1, disk, buf[..]);
        SameTrans(s, disk, s1, buf[..]);
      }
    }
  }
}
