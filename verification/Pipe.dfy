/** The byte queue of pipe.c: a ring of PIPESIZE bytes between two 32-bit counters that
    are never reset and wrap. */
module PipeRing {
  import opened Xv6Params

  const PIPESIZE := 512

  datatype Ring = Ring(data: seq<int>, nread: nat, nwrite: nat)

  function Count(r: Ring): nat {
    (r.nwrite - r.nread) % UINT
  }

  predicate RingOk(r: Ring) {
    |r.data| == PIPESIZE && r.nread < UINT && r.nwrite < UINT && Count(r) <= PIPESIZE
  }

  /** The loop tests of pipewrite and piperead. */
  predicate Full(r: Ring) { r.nwrite == (r.nread + PIPESIZE) % UINT }
  predicate Empty(r: Ring) { r.nread == r.nwrite }

  /** The bytes in the pipe, oldest first. */
  function Buffered(r: Ring): (b: seq<int>)
    requires RingOk(r)
    ensures |b| == Count(r)
  {
    seq(Count(r), k requires 0 <= k < Count(r) => r.data[(r.nread + k) % PIPESIZE])
  }

  /** `data[nwrite++ % PIPESIZE] = b`. */
  function Put(r: Ring, b: int): Ring
    requires RingOk(r)
  {
    Ring(r.data[r.nwrite % PIPESIZE := b], r.nread, (r.nwrite + 1) % UINT)
  }

  function First(r: Ring): int
    requires RingOk(r)
  {
    r.data[r.nread % PIPESIZE]
  }

  /** `nread++`. */
  function Get(r: Ring): Ring
    requires RingOk(r)
  {
    r.(nread := (r.nread + 1) % UINT)
  }

  lemma CountIs(r: Ring)
    requires RingOk(r)
    ensures Count(r) == if r.nwrite >= r.nread then r.nwrite - r.nread else r.nwrite - r.nread + UINT
  {
  }

  lemma TestsMeanCount(r: Ring)
    requires RingOk(r)
    ensures Full(r) <==> Count(r) == PIPESIZE
    ensures Empty(r) <==> Count(r) == 0
  {
  }

  /** Because PIPESIZE divides 2^32, slot k after nread is the same whether or not the
      counter has wrapped in between. */
  lemma SlotAcrossWrap(a: nat, k: nat)
    requires a < UINT && k <= PIPESIZE
    ensures (a + k) % UINT % PIPESIZE == (a + k) % PIPESIZE
  {
    assert UINT == 8388608 * PIPESIZE;
  }

  lemma DistinctSlots(a: nat, k: nat, n: nat)
    requires k < n < PIPESIZE
    ensures (a + k) % PIPESIZE != (a + n) % PIPESIZE
  {
  }

  lemma PutCounts(r: Ring, b: int)
    requires RingOk(r) && !Full(r)
    ensures RingOk(Put(r, b)) && Count(Put(r, b)) == Count(r) + 1 && Count(r) < PIPESIZE
    ensures r.nwrite % PIPESIZE == (r.nread + Count(r)) % PIPESIZE
  {
    TestsMeanCount(r);
    CountIs(r);
    assert (r.nread + Count(r)) % UINT == r.nwrite;
    SlotAcrossWrap(r.nread, Count(r));
  }

  lemma PutAppends(r: Ring, b: int)
    requires RingOk(r) && !Full(r)
    ensures RingOk(Put(r, b)) && Buffered(Put(r, b)) == Buffered(r) + [b]
  {
    PutCounts(r, b);
    hide Count, RingOk;
    var n, r' := Count(r), Put(r, b);
    forall k | 0 <= k < n + 1
      ensures Buffered(r')[k] == (Buffered(r) + [b])[k]
    {
      if k < n { DistinctSlots(r.nread, k, n); }
    }
  }

  lemma GetCounts(r: Ring)
    requires RingOk(r) && !Empty(r)
    ensures RingOk(Get(r)) && Count(Get(r)) == Count(r) - 1
  {
    TestsMeanCount(r);
    CountIs(r);
  }

  lemma GetTakesFirst(r: Ring)
    requires RingOk(r) && !Empty(r)
    ensures RingOk(Get(r)) && Buffered(r) == [First(r)] + Buffered(Get(r))
  {
    GetCounts(r);
    var r' := Get(r);
    SlotAcrossWrap(r.nread, 1);
    assert |r.data| == PIPESIZE && r.nread < UINT;
    hide RingOk, Count;
    forall k | 0 <= k < Count(r')
      ensures Buffered(r')[k] == Buffered(r)[k + 1]
    {
      NextSlot(r.nread, k);
    }
  }

  lemma NextSlot(a: nat, k: nat)
    requires a < UINT && k < PIPESIZE
    ensures ((a + 1) % UINT + k) % PIPESIZE == (a + (k + 1)) % PIPESIZE
  {
    assert UINT == 8388608 * PIPESIZE;
  }
}

/** The copy loops of pipewrite and piperead over the ring in memory. */
module PipeBuffer {
  import opened Xv6Params
  import opened PipeRing

  class Pipe {
    const data: array<int>
    var nread: nat
    var nwrite: nat

    ghost predicate Valid()
      reads this, data
    {
      RingOk(Value())
    }

    ghost function Value(): Ring
      reads this, data
    {
      Ring(data[..], nread, nwrite)
    }

    constructor ()
      ensures Valid() && fresh(data) && Buffered(Value()) == []
    {
      data := new int[PIPESIZE](_ => 0);
      nread, nwrite := 0, 0;
    }

    /** The bytes pipewrite stores before it is done or finds the pipe full. */
    method WriteRun(addr: seq<int>, i0: nat) returns (i: nat)
      requires Valid() && i0 <= |addr|
      modifies this`nwrite, data
      ensures Valid() && i0 <= i <= |addr|
      ensures Buffered(Value()) == old(Buffered(Value())) + addr[i0..i]
      ensures i < |addr| <==> (Full(Value()) && i != |addr|)
      ensures i == |addr| || Count(Value()) == PIPESIZE
    {
      i := i0;
      while i < |addr|
        invariant Valid() && i0 <= i <= |addr|
        invariant Buffered(Value()) == old(Buffered(Value())) + addr[i0..i]
      {
        if nwrite == (nread + PIPESIZE) % UINT {
          TestsMeanCount(Value());
          return;
        }
        PutAppends(Value(), addr[i]);
        ghost var r := Value();
        data[nwrite % PIPESIZE] := addr[i];
        nwrite := (nwrite + 1) % UINT;
        assert Value() == Put(r, addr[i]);
        assert addr[i0..i + 1] == addr[i0..i] + [addr[i]];
        i := i + 1;
      }
    }

    /** The bytes piperead copies out: as many as asked for, or all there are. */
    method ReadRun(n: nat) returns (addr: seq<int>)
      requires Valid()
      modifies this`nread
      ensures Valid()
      ensures old(Buffered(Value())) == addr + Buffered(Value())
      ensures |addr| == if n < old(Count(Value())) then n else old(Count(Value()))
    {
      hide Buffered, Count;
      addr := [];
      var i: nat := 0;
      while i < n
        invariant Valid() && i <= n && |addr| == i
        invariant old(Buffered(Value())) == addr + Buffered(Value())
      {
        TestsMeanCount(Value());
        if nread == nwrite { return; }
        GetTakesFirst(Value());
        ghost var r := Value();
        addr := addr + [data[nread % PIPESIZE]];
        nread := (nread + 1) % UINT;
        assert Value() == Get(r);
        i := i + 1;
      }
    }
  }
}

/** pipewrite, piperead and pipeclose as programs over sleep and wakeup, under any
    interleaving of any number of processes. */
module PipeProtocol {
  import opened PipeRing
  import opened SleepWakeup

  const READ_CHAN := 0      // &p->nread
  const WRITE_CHAN := 1     // &p->nwrite

  /** written and taken are all bytes ever stored and ever read; who stored each. */
  datatype PipeRec = PipeRec(ring: Ring, readopen: bool, writeopen: bool, written: seq<int>, who: seq<nat>, taken: seq<int>)

  type Pipe = d: PipeRec | RingOk(d.ring) && |d.who| == |d.written|
    witness PipeRec(Ring(seq(PIPESIZE, i => 0), 0, 0), true, true, [], [], [])

  datatype At =
    | WFor(todo: seq<int>, stored: bool)     // pipewrite: the for test; bytes stored since the last wakeup?
    | WWhile(b: int, rest: seq<int>, stored: bool)   // the test for a full pipe, then the store of b
    | WFull(b: int, rest: seq<int>, stored: bool)    // the test of readopen and killed
    | WSleep(b: int, rest: seq<int>)         // about to sleep on &p->nwrite
    | WDone
    | RWhile(n: nat)                         // piperead: the test for an empty pipe
    | REmpty(n: nat)                         // the test of killed
    | RFor(n: nat, got: seq<int>)            // the copy loop; the bytes copied out so far
    | RDone(n: nat, got: seq<int>)
    | CSet(writable: bool)                   // pipeclose
    | CWake(writable: bool)
    | CDone
  {
    predicate Reading() { RWhile? || REmpty? || RFor? || RDone? }
  }

  function Code(k: At, d: Pipe, killed: bool, p: nat): Instr<At, Pipe> {
    match k
    case WFor(todo, stored) => if todo == [] then Instr.Wakeup(READ_CHAN, WDone) else Do(d, WWhile(todo[0], todo[1..], stored))
    case WWhile(b, rest, stored) =>
      if Full(d.ring) then Do(d, WFull(b, rest, stored)) else Do(Stored(d, b, p), WFor(rest, true))
    case WFull(b, rest, stored) =>
      if !d.readopen || killed then Release else Instr.Wakeup(READ_CHAN, WSleep(b, rest))
    case WSleep(b, rest) => Instr.Sleep(WRITE_CHAN, WWhile(b, rest, false))
    case WDone => Release
    case RWhile(n) => if Empty(d.ring) && d.writeopen then Do(d, REmpty(n)) else Do(d, RFor(n, []))
    case REmpty(n) => if killed then Release else Instr.Sleep(READ_CHAN, RWhile(n))
    case RFor(n, got) =>
      if |got| >= n || Empty(d.ring) then Instr.Wakeup(WRITE_CHAN, RDone(n, got)) else Do(Took(d), RFor(n, got + [First(d.ring)]))
    case RDone(_, _) => Release
    case CSet(w) => Do(if w then d.(writeopen := false) else d.(readopen := false), CWake(w))
    case CWake(w) => Instr.Wakeup(if w then READ_CHAN else WRITE_CHAN, CDone)
    case CDone => Release
  }

  function Stored(d: Pipe, b: int, p: nat): (r: Pipe)
    requires !Full(d.ring)
    ensures r.readopen == d.readopen && r.writeopen == d.writeopen
  {
    PutCounts(d.ring, b);
    d.(ring := Put(d.ring, b), written := d.written + [b], who := d.who + [p])
  }

  function Took(d: Pipe): (r: Pipe)
    requires !Empty(d.ring)
    ensures r.readopen == d.readopen && r.writeopen == d.writeopen
  {
    GetCounts(d.ring);
    d.(ring := Get(d.ring), taken := d.taken + [First(d.ring)])
  }

  predicate Entry(k: At) {
    match k
    case WFor(_, stored) => !stored
    case WWhile(_, _, stored) => !stored
    case RWhile(_) => true
    case CSet(_) => true
    case _ => false
  }

  function Calls(): Program<At, Pipe> { Program(Code, Entry) }

  // ----- the wakeup rule

  /** What readers and writers wait for. */
  predicate Ready(c: int, d: Pipe) {
    || (c == READ_CHAN && (!Empty(d.ring) || !d.writeopen))
    || (c == WRITE_CHAN && (!Full(d.ring) || !d.readopen))
  }

  function Owes(k: At): set<int> {
    match k
    case WFor(_, stored) => if stored then {READ_CHAN} else {}
    case WWhile(_, _, stored) => if stored then {READ_CHAN} else {}
    case WFull(_, _, stored) => if stored then {READ_CHAN} else {}
    case RFor(_, got) => if got != [] then {WRITE_CHAN} else {}
    case CWake(w) => {if w then READ_CHAN else WRITE_CHAN}
    case _ => {}
  }

  predicate Holds(k: At, d: Pipe) {
    match k
    case WFull(_, _, _) => Full(d.ring)
    case WSleep(_, _) => Full(d.ring) && d.readopen
    case REmpty(_) => Empty(d.ring) && d.writeopen
    case RFor(n, got) => |got| <= n && JustTaken(d, got)
    case RDone(n, got) => |got| <= n && JustTaken(d, got) && (|got| == n || Empty(d.ring))
    case _ => true
  }

  /** got are the last bytes that were read. */
  predicate JustTaken(d: Pipe, got: seq<int>) {
    |got| <= |d.taken| && d.taken[|d.taken| - |got|..] == got
  }

  function Rule(): Notes<At, Pipe> { Notes(Ready, Owes, Holds) }

  lemma FullNotEmpty(r: Ring)
    requires RingOk(r) && Full(r)
    ensures !Empty(r)
  {
    TestsMeanCount(r);
  }

  lemma TakesNext(d: Pipe, got: seq<int>)
    requires JustTaken(d, got) && !Empty(d.ring)
    ensures JustTaken(Took(d), got + [First(d.ring)])
  {
    assert Took(d).taken == d.taken + [First(d.ring)];
  }

  /** A store makes true only what readers wait for, a read only what writers wait for. */
  lemma StoreAnnounces(d: Pipe, b: int, p: nat)
    requires !Full(d.ring)
    ensures Announces(Ready, d, Stored(d, b, p), {READ_CHAN})
  {
    hide Full, Empty, Put, RingOk;
  }

  lemma ReadAnnounces(d: Pipe)
    requires !Empty(d.ring)
    ensures Announces(Ready, d, Took(d), {WRITE_CHAN})
  {
    hide Full, Empty, Get, RingOk;
  }

  lemma ObeysRule(k: At, d: Pipe, killed: bool, p: nat)
    requires Holds(k, d)
    ensures Obeys(Calls(), Rule(), k, d, Code(k, d, killed, p))
  {
    hide Full, Empty, Put, Get, RingOk, Stored, Took;
    match k
    case WWhile(b, rest, stored) =>
      if !Full(d.ring) { StoreAnnounces(d, b, p); }
    case RFor(n, got) =>
      if |got| < n && !Empty(d.ring) {
        TakesNext(d, got);
        ReadAnnounces(d);
      }
    case CSet(w) =>
    case _ =>
  }

  /** pipe.c follows the wakeup rule. */
  lemma FollowsRule()
    ensures Disciplined(Calls(), Rule())
  {
    forall k, d, b, p | Rule().at(k, d)
      ensures Obeys(Calls(), Rule(), k, d, Calls().code(k, d, b, p))
    {
      ObeysRule(k, d, b, p);
    }
  }

  // ----- bytes in order

  function New(): Pipe { PipeRec(Ring(seq(PIPESIZE, i => 0), 0, 0), true, true, [], [], []) }

  predicate InOrder(d: Pipe) { d.written == d.taken + Buffered(d.ring) }

  /** Every instruction of pipe.c keeps the bytes in order. */
  lemma FifoStep(k: At, d: Pipe, killed: bool, p: nat)
    requires InOrder(d) && Code(k, d, killed, p).Do?
    ensures InOrder(Code(k, d, killed, p).d)
  {
    if k.WWhile? && !Full(d.ring) { PutAppends(d.ring, k.b); }
    if k.RFor? && |k.got| < k.n && !Empty(d.ring) { GetTakesFirst(d.ring); }
  }

  /** Pipe FIFO, in every interleaving and across counter wrap-around: the bytes read are a
      prefix of the bytes written, and the rest, at most PIPESIZE bytes, is in the ring. */
  lemma PipeFifo(nproc: nat, steps: seq<Step<At>>)
    requires Legal(Calls(), Init(New(), nproc), steps)
    ensures var d := Exec(Calls(), Init(New(), nproc), steps).d;
            && d.taken <= d.written && d.written == d.taken + Buffered(d.ring)
            && |d.written| - |d.taken| == Count(d.ring) <= PIPESIZE
  {
    forall k, d: Pipe, b, p | InOrder(d) && Calls().code(k, d, b, p).Do?
      ensures InOrder(Calls().code(k, d, b, p).d)
    {
      FifoStep(k, d, b, p);
    }
    DataRun(Calls(), InOrder, Init(New(), nproc), steps);
  }

  // ----- what callers pass in and get back

  /** The bytes a call at k still has to store. */
  function Rest(k: At): seq<int> {
    match k
    case WFor(todo, _) => todo
    case WWhile(b, rest, _) => [b] + rest
    case WFull(b, rest, _) => [b] + rest
    case WSleep(b, rest) => [b] + rest
    case _ => []
  }

  function RestOf(pc: Pc<At>): seq<int> {
    if pc.Idle? then [] else Rest(pc.k)
  }

  /** The bytes that process p has stored, in order. */
  function Mine(written: seq<int>, who: seq<nat>, p: nat): seq<int>
    requires |who| == |written|
  {
    if written == [] then []
    else
      var n := |written| - 1;
      Mine(written[..n], who[..n], p) + (if who[n] == p then [written[n]] else [])
  }

  lemma MineMore(written: seq<int>, who: seq<nat>, b: int, q: nat, p: nat)
    requires |who| == |written|
    ensures Mine(written + [b], who + [q], p) == Mine(written, who, p) + (if q == p then [b] else [])
  {
    assert (written + [b])[..|written|] == written && (who + [q])[..|who|] == who;
  }

  /** A writer loses none of its bytes and adds none: what it stores is the next of them. */
  lemma WriterKeeps(k: At, d: Pipe, killed: bool, q: nat, p: nat)
    ensures var ins := Code(k, d, killed, q);
            && (!ins.Release? && !ins.Do? ==> Rest(ins.k) == Rest(k))
            && (ins.Do? ==> Mine(ins.d.written, ins.d.who, p) + (if q == p then Rest(ins.k) else [])
                            == Mine(d.written, d.who, p) + (if q == p then Rest(k) else []))
  {
    hide Full, Empty, Put, Get, RingOk, Mine;
    if k.WWhile? && !Full(d.ring) { MineMore(d.written, d.who, k.b, q, p); }
  }

  /** What process p has passed to pipewrite, less what its calls gave back: a call that returns
      early does not store the rest. */
  function Handing(s: State<At, Pipe>, step: Step<At>, p: nat, h: seq<int>): seq<int>
    requires Enabled(Calls(), s, step)
  {
    if step.p != p then h
    else if step.Start? then h + Rest(step.k)
    else if step.Run? && GivesUp(s, p) && |Rest(s.ps[p].pc.k)| <= |h| then h[..|h| - |Rest(s.ps[p].pc.k)|]
    else h
  }

  predicate GivesUp(s: State<At, Pipe>, p: nat)
    requires p < |s.ps|
  {
    s.ps[p].pc.In? && Code(s.ps[p].pc.k, s.d, s.ps[p].killed, p).Release?
  }

  function Handed(s: State<At, Pipe>, steps: seq<Step<At>>, p: nat, h: seq<int>): seq<int>
    requires Legal(Calls(), s, steps)
    decreases |steps|
  {
    if steps == [] then h else Handed(Next(Calls(), s, steps[0]), steps[1..], p, Handing(s, steps[0], p, h))
  }

  /** A call gives bytes back only at a full pipe, killed or with the read end closed. */
  lemma GivesBack(k: At, d: Pipe, killed: bool, p: nat)
    requires Holds(k, d) && Code(k, d, killed, p).Release? && Rest(k) != []
    ensures k.WFull? && Full(d.ring) && (killed || !d.readopen)
  {
  }

  lemma HandingStep(s: State<At, Pipe>, step: Step<At>, p: nat, h: seq<int>)
    requires Enabled(Calls(), s, step) && p < |s.ps|
    requires Mine(s.d.written, s.d.who, p) + RestOf(s.ps[p].pc) == h
    ensures var s' := Next(Calls(), s, step);
            |s'.ps| == |s.ps| && Mine(s'.d.written, s'.d.who, p) + RestOf(s'.ps[p].pc) == Handing(s, step, p, h)
  {
    hide Code, Mine, Rest;
    var q := step.p;
    var pr := s.ps[q];
    var mine := Mine(s.d.written, s.d.who, p);
    if step.Run? && pr.pc.In? {
      WriterKeeps(pr.pc.k, s.d, pr.killed, q, p);
      if GivesUp(s, q) && q == p { assert h[..|h| - |Rest(pr.pc.k)|] == mine; }
    }
    assert mine + [] == mine;
  }

  lemma {:induction false} HandedRun(s: State<At, Pipe>, steps: seq<Step<At>>, p: nat, h: seq<int>)
    requires Legal(Calls(), s, steps) && p < |s.ps| && Mine(s.d.written, s.d.who, p) + RestOf(s.ps[p].pc) == h
    ensures var s' := Exec(Calls(), s, steps);
            |s'.ps| == |s.ps| && Mine(s'.d.written, s'.d.who, p) + RestOf(s'.ps[p].pc) == Handed(s, steps, p, h)
    decreases |steps|
  {
    hide Next, Enabled, Code, Mine, Handing, RestOf;
    if steps != [] {
      HandingStep(s, steps[0], p, h);
      HandedRun(Next(Calls(), s, steps[0]), steps[1..], p, Handing(s, steps[0], p, h));
    }
  }

  /** In every run: what the pipe has been given is the bytes its writers passed in, each
      writer's in order, up to where its current call has come; and what readers got is a
      prefix of that. */
  lemma PipeDelivers(nproc: nat, steps: seq<Step<At>>, p: nat)
    requires Legal(Calls(), Init(New(), nproc), steps) && p < nproc
    ensures var s := Exec(Calls(), Init(New(), nproc), steps);
            && |s.ps| == nproc
            && Mine(s.d.written, s.d.who, p) + RestOf(s.ps[p].pc) == Handed(Init(New(), nproc), steps, p, [])
            && s.d.taken <= s.d.written
  {
    HandedRun(Init(New(), nproc), steps, p, []);
    PipeFifo(nproc, steps);
  }

  /** piperead hands out the bytes it took, in order, as many as asked for or all there are. */
  lemma ReadReturns(nproc: nat, steps: seq<Step<At>>, i: nat)
    requires Legal(Calls(), Init(New(), nproc), steps)
    ensures var s := Exec(Calls(), Init(New(), nproc), steps);
            i < |s.ps| && s.ps[i].pc.In? && s.ps[i].pc.k.RDone? ==>
              var (n, got) := (s.ps[i].pc.k.n, s.ps[i].pc.k.got);
              |got| <= n && JustTaken(s.d, got) && (|got| == n || Empty(s.d.ring))
  {
    FollowsRule();
    InvInit(Calls(), Rule(), New(), nproc);
    CoreRun(Calls(), Rule(), Init(New(), nproc), steps);
    var s := Exec(Calls(), Init(New(), nproc), steps);
    if i < |s.ps| { assert Knows(Calls(), Rule(), s.d, s.ps[i].pc); }
  }

  /** Every instruction: who asked for n bytes goes on asking for n; an end is closed by
      pipeclose of that end and by nothing else, and stays closed; and a killed process that
      finds the pipe empty or full leaves instead of sleeping. */
  lemma CallsMean(k: At, d: Pipe, killed: bool, p: nat)
    ensures var ins := Code(k, d, killed, p);
            && (k.Reading() && !ins.Release? ==> ins.k.Reading() && ins.k.n == k.n)
            && (ins.Do? ==> && ins.d.readopen == (d.readopen && k != CSet(false))
                            && ins.d.writeopen == (d.writeopen && k != CSet(true)))
            && ((k.REmpty? || k.WFull?) && killed ==> ins.Release?)
            && (k.REmpty? && !killed ==> ins.Sleep?)
            && (k.WFull? && !killed && d.readopen ==> !ins.Release?)
  {
    hide Full, Empty, Put, Get, RingOk, Stored, Took;
  }

  // ----- who can be left asleep

  /** With the lock free no reader sleeps beside data or a closed write end, and no writer
      beside room or a closed read end. */
  ghost predicate NobodyStuck(s: State<At, Pipe>) {
    s.lk.Free? ==>
      forall i :: 0 <= i < |s.ps| ==>
        && (s.ps[i].pc.SleepsOn(READ_CHAN) ==> Empty(s.d.ring) && s.d.writeopen)
        && (s.ps[i].pc.SleepsOn(WRITE_CHAN) ==> Full(s.d.ring) && s.d.readopen)
  }

  /** This is what the wakeup rule is for. */
  lemma FineIs(s: State<At, Pipe>)
    ensures Fine(Rule(), s) <==> NobodyStuck(s)
  {
    hide Full, Empty;
    if Fine(Rule(), s) && s.lk.Free? {
      forall i | 0 <= i < |s.ps|
        ensures s.ps[i].pc.SleepsOn(READ_CHAN) ==> Empty(s.d.ring) && s.d.writeopen
        ensures s.ps[i].pc.SleepsOn(WRITE_CHAN) ==> Full(s.d.ring) && s.d.readopen
      {
        assert s.ps[i].pc.SleepsOn(READ_CHAN) ==> !Rule().cond(READ_CHAN, s.d);
        assert s.ps[i].pc.SleepsOn(WRITE_CHAN) ==> !Rule().cond(WRITE_CHAN, s.d);
      }
    }
    if NobodyStuck(s) && s.lk.Free? {
      forall i, c | 0 <= i < |s.ps| && s.ps[i].pc.SleepsOn(c)
        ensures !Rule().cond(c, s.d)
      {
      }
    }
  }

  /** A writer that has stored bytes since its last wakeup finds the pipe full, has been killed
      or sees the read end closed, and returns while a reader sleeps. */
  ghost predicate Deserts(s: State<At, Pipe>, step: Step<At>)
    requires step.p < |s.ps|
  {
    var pr := s.ps[step.p];
    && step.Run? && pr.pc.In? && pr.pc.k.WFull? && pr.pc.k.stored
    && (pr.killed || !s.d.readopen)
    && exists i :: 0 <= i < |s.ps| && s.ps[i].pc.SleepsOn(READ_CHAN)
  }

  lemma ForgetsIs(s: State<At, Pipe>, step: Step<At>)
    requires Enabled(Calls(), s, step) && Known(Calls(), Rule(), s)
    ensures Forgets(Calls(), Rule(), s, step) <==> Deserts(s, step)
  {
    var pr := s.ps[step.p];
    assert Knows(Calls(), Rule(), s.d, pr.pc);
    hide Known;
    if pr.pc.In? && pr.pc.k.WFull? { FullNotEmpty(s.d.ring); }
    hide Full, Empty;
    if Deserts(s, step) {
      var i :| 0 <= i < |s.ps| && s.ps[i].pc.SleepsOn(READ_CHAN);
      assert Rule().cond(READ_CHAN, s.d) && READ_CHAN in Rule().owed(pr.pc.k);
    }
  }

  ghost predicate NobodyDeserts(s: State<At, Pipe>, steps: seq<Step<At>>)
    requires Legal(Calls(), s, steps)
    decreases |steps|
  {
    steps == [] || (!Deserts(s, steps[0]) && NobodyDeserts(Next(Calls(), s, steps[0]), steps[1..]))
  }

  lemma {:induction false} NeverForgetsIs(s: State<At, Pipe>, steps: seq<Step<At>>)
    requires Locks(s) && Known(Calls(), Rule(), s) && Legal(Calls(), s, steps)
    ensures NeverForgets(Calls(), Rule(), s, steps) <==> NobodyDeserts(s, steps)
    decreases |steps|
  {
    hide Next, Locks, Known, Enabled, Forgets, Deserts, Disciplined;
    if steps != [] {
      FollowsRule();
      ForgetsIs(s, steps[0]);
      LocksStep(Calls(), s, steps[0]);
      KnownStep(Calls(), Rule(), s, steps[0]);
      NeverForgetsIs(Next(Calls(), s, steps[0]), steps[1..]);
    }
  }

  /** In every run: nobody is ever left asleep exactly if no writer returns from a full pipe,
      killed or with the read end closed, with unannounced bytes and beside a sleeping reader. */
  lemma StuckIff(nproc: nat, steps: seq<Step<At>>)
    requires Legal(Calls(), Init(New(), nproc), steps)
    ensures AlwaysFine(Calls(), Rule(), Init(New(), nproc), steps) <==> NobodyDeserts(Init(New(), nproc), steps)
  {
    hide NobodyDeserts, AlwaysFine, NeverForgets, Legal;
    FollowsRule();
    InvInit(Calls(), Rule(), New(), nproc);
    LostIff(Calls(), Rule(), Init(New(), nproc), steps);
    NeverForgetsIs(Init(New(), nproc), steps);
  }

  // ----- runs without kills

  /** How file.c uses a pipe: a process reads only through an open read end, and the read end
      is closed, once, when nobody reads. */
  ghost predicate Proper(s: State<At, Pipe>, step: Step<At>) {
    match step
    case Start(p, k) =>
      && (k.Reading() ==> s.d.readopen && !ClosingRead(s))
      && (k == CSet(false) ==> forall i :: 0 <= i < |s.ps| ==> !Reads(s.ps[i].pc))
    case _ => true
  }

  predicate Reads(pc: Pc<At>) { !pc.Idle? && pc.k.Reading() }

  ghost predicate ClosingRead(s: State<At, Pipe>) {
    exists i :: 0 <= i < |s.ps| && !s.ps[i].pc.Idle? && s.ps[i].pc.k == CSet(false)
  }

  ghost predicate Follows(s: State<At, Pipe>, steps: seq<Step<At>>)
    requires Legal(Calls(), s, steps)
    decreases |steps|
  {
    steps == [] || (Proper(s, steps[0]) && !steps[0].Kill? && Follows(Next(Calls(), s, steps[0]), steps[1..]))
  }

  /** Nobody has been killed, only readers sleep on &p->nread, and nobody reads through a read
      end that is closed or about to be. */
  ghost predicate Orderly(s: State<At, Pipe>) {
    && (forall i :: 0 <= i < |s.ps| ==> !s.ps[i].killed)
    && (forall i :: 0 <= i < |s.ps| && s.ps[i].pc.SleepsOn(READ_CHAN) ==> Reads(s.ps[i].pc))
    && (!s.d.readopen || ClosingRead(s) ==> forall i :: 0 <= i < |s.ps| ==> !Reads(s.ps[i].pc))
  }

  /** A step leaves the others where they are, apart from waking them. */
  lemma OthersStay(s: State<At, Pipe>, step: Step<At>)
    requires Enabled(Calls(), s, step)
    ensures var s' := Next(Calls(), s, step);
            && |s'.ps| == |s.ps|
            && (forall i :: 0 <= i < |s.ps| && i != step.p ==>
                  && s'.ps[i].killed == s.ps[i].killed && Reads(s'.ps[i].pc) == Reads(s.ps[i].pc)
                  && (s'.ps[i].pc == s.ps[i].pc || (s.ps[i].pc.Asleep? && s'.ps[i].pc == Woken(s.ps[i].pc.k))))
  {
    hide Code;
  }

  lemma CodeGoes(k: At, d: Pipe, killed: bool, p: nat)
    ensures var ins := Code(k, d, killed, p);
            && (!ins.Release? ==> (ins.k.Reading() ==> k.Reading()) && ins.k != CSet(false))
            && (ins.Do? ==> (d.readopen && !ins.d.readopen ==> k == CSet(false)) && (!d.readopen ==> !ins.d.readopen))
            && (ins.Sleep? && ins.c == READ_CHAN ==> ins.k.Reading())
  {
    hide Full, Empty, Stored, Took;
  }

  /** Where a step can take the process that makes it. */
  lemma MoverGoes(s: State<At, Pipe>, step: Step<At>)
    requires Enabled(Calls(), s, step) && !step.Kill?
    ensures var s', p := Next(Calls(), s, step), step.p;
            var pc, pc' := s.ps[p].pc, s'.ps[p].pc;
            && |s'.ps| == |s.ps| && s'.ps[p].killed == s.ps[p].killed
            && (Reads(pc') ==> Reads(pc) || (step.Start? && step.k.Reading()))
            && (!pc'.Idle? && pc'.k == CSet(false) ==> (!pc.Idle? && pc.k == CSet(false)) || step == Start(p, CSet(false)))
            && (s.d.readopen && !s'.d.readopen ==> !pc.Idle? && pc.k == CSet(false))
            && (pc'.SleepsOn(READ_CHAN) ==> Reads(pc') || pc.SleepsOn(READ_CHAN))
            && (!s.d.readopen ==> !s'.d.readopen)
  {
    hide Code;
    var pr := s.ps[step.p];
    if pr.pc.In? { CodeGoes(pr.pc.k, s.d, pr.killed, step.p); }
  }

  lemma OrderlyStep(s: State<At, Pipe>, step: Step<At>)
    requires Orderly(s) && Enabled(Calls(), s, step) && Proper(s, step) && !step.Kill?
    ensures Orderly(Next(Calls(), s, step)) && !Deserts(s, step)
  {
    var p, s' := step.p, Next(Calls(), s, step);
    OthersStay(s, step);
    MoverGoes(s, step);
    hide Next, Code, Calls;
    if (!s'.d.readopen || ClosingRead(s')) && s.d.readopen && !ClosingRead(s) {
      if ClosingRead(s') {
        var i :| 0 <= i < |s'.ps| && !s'.ps[i].pc.Idle? && s'.ps[i].pc.k == CSet(false);
        assert i == p;
      }
      assert step == Start(p, CSet(false));
    }
  }

  lemma {:induction false} OrderlyRun(s: State<At, Pipe>, steps: seq<Step<At>>)
    requires Orderly(s) && Legal(Calls(), s, steps) && Follows(s, steps)
    ensures NobodyDeserts(s, steps)
    decreases |steps|
  {
    hide Orderly, Next, Enabled, Proper, Deserts;
    if steps != [] {
      OrderlyStep(s, steps[0]);
      OrderlyRun(Next(Calls(), s, steps[0]), steps[1..]);
    }
  }

  /** Without kills, and with ends closed the way file.c closes them, nobody is ever stuck. */
  lemma WakesWithoutKills(nproc: nat, steps: seq<Step<At>>)
    requires Legal(Calls(), Init(New(), nproc), steps) && Follows(Init(New(), nproc), steps)
    ensures AlwaysFine(Calls(), Rule(), Init(New(), nproc), steps)
    ensures NobodyStuck(Exec(Calls(), Init(New(), nproc), steps))
  {
    OrderlyRun(Init(New(), nproc), steps);
    StuckIff(nproc, steps);
    FineAtEnd(Calls(), Rule(), Init(New(), nproc), steps);
    FineIs(Exec(Calls(), Init(New(), nproc), steps));
  }

  // ----- a run that leaves a reader asleep

  ghost predicate RunOf(steps: seq<Step<At>>, nproc: nat, s: State<At, Pipe>) {
    Legal(Calls(), Init(New(), nproc), steps) && Exec(Calls(), Init(New(), nproc), steps) == s
  }

  lemma {:induction false} ExecMore(s: State<At, Pipe>, steps: seq<Step<At>>, step: Step<At>)
    requires Legal(Calls(), s, steps) && Enabled(Calls(), Exec(Calls(), s, steps), step)
    ensures Legal(Calls(), s, steps + [step])
    ensures Exec(Calls(), s, steps + [step]) == Next(Calls(), Exec(Calls(), s, steps), step)
    decreases |steps|
  {
    hide Next, Enabled, Calls;
    if steps == [] {
      assert steps + [step] == [step] && [step][1..] == [];
    } else {
      assert (steps + [step])[1..] == steps[1..] + [step];
      ExecMore(Next(Calls(), s, steps[0]), steps[1..], step);
    }
  }

  lemma Extend(steps: seq<Step<At>>, nproc: nat, s: State<At, Pipe>, step: Step<At>) returns (steps': seq<Step<At>>, s': State<At, Pipe>)
    requires RunOf(steps, nproc, s) && Enabled(Calls(), s, step)
    ensures s' == Next(Calls(), s, step) && RunOf(steps', nproc, s')
  {
    ExecMore(Init(New(), nproc), steps, step);
    steps', s' := steps + [step], Next(Calls(), s, step);
  }

  /** Process 0 reads from the empty pipe and falls asleep. */
  lemma ReaderSleeps(nproc: nat) returns (steps: seq<Step<At>>, s: State<At, Pipe>)
    requires nproc >= 2
    ensures RunOf(steps, nproc, s) && s.d == New() && s.lk.Free? && s.pt.Free? && |s.ps| == nproc
    ensures s.ps[0].pc == Asleep(READ_CHAN, RWhile(1)) && s.ps[1] == Proc(Idle, false)
  {
    steps, s := [], Init(New(), nproc);
    hide RunOf;
    assert RunOf(steps, nproc, s) by { RunOfNone(nproc); }
    steps, s := Extend(steps, nproc, s, Start(0, RWhile(1)));
    steps, s := Extend(steps, nproc, s, Run(0));
    steps, s := Extend(steps, nproc, s, Run(0));
    steps, s := Extend(steps, nproc, s, Run(0));
    steps, s := Extend(steps, nproc, s, Run(0));
    steps, s := Extend(steps, nproc, s, Run(0));
    steps, s := Extend(steps, nproc, s, Run(0));
  }

  lemma RunOfNone(nproc: nat)
    ensures RunOf([], nproc, Init(New(), nproc))
  {
  }

  /** Process 1, in the for loop with more bytes than there is room for, fills the pipe. */
  lemma {:induction false} FillUp(steps: seq<Step<At>>, nproc: nat, s: State<At, Pipe>) returns (steps': seq<Step<At>>, s': State<At, Pipe>)
    requires RunOf(steps, nproc, s) && nproc >= 2 && |s.ps| == nproc
    requires s.ps[1].pc.In? && s.ps[1].pc.k.WFor? && |s.ps[1].pc.k.todo| > PIPESIZE - Count(s.d.ring)
    requires s.ps[1].pc.k.stored || Count(s.d.ring) < PIPESIZE
    ensures RunOf(steps', nproc, s') && |s'.ps| == nproc && s'.ps[0] == s.ps[0] && s'.pt == s.pt
    ensures s'.ps[1].pc.In? && s'.ps[1].pc.k.WFull? && s'.ps[1].pc.k.stored && Full(s'.d.ring)
    decreases PIPESIZE - Count(s.d.ring)
  {
    hide RunOf;
    TestsMeanCount(s.d.ring);
    var k := s.ps[1].pc.k;
    steps', s' := Extend(steps, nproc, s, Run(1));
    if !Full(s.d.ring) { PutCounts(s.d.ring, k.todo[0]); }
    steps', s' := Extend(steps', nproc, s', Run(1));
    if !Full(s.d.ring) {
      hide Next, Enabled, Calls;
      steps', s' := FillUp(steps', nproc, s');
    }
  }

  /** A reader falls asleep on the empty pipe; a writer with more than PIPESIZE bytes fills it
      and is killed before it looks again: it returns without the wakeup the reader needs. */
  lemma StuckAfterKill(nproc: nat) returns (steps: seq<Step<At>>, s: State<At, Pipe>)
    requires nproc >= 2
    ensures RunOf(steps, nproc, s) && !NobodyStuck(s)
  {
    hide RunOf;
    steps, s := ReaderSleeps(nproc);
    steps, s := Extend(steps, nproc, s, Start(1, WFor(seq(PIPESIZE + 1, i => 0), false)));
    steps, s := Extend(steps, nproc, s, Run(1));
    steps, s := FillUp(steps, nproc, s);
    FullNotEmpty(s.d.ring);
    steps, s := Extend(steps, nproc, s, Step.Kill(1));
    steps, s := Extend(steps, nproc, s, Run(1));
    assert s.ps[0].pc.SleepsOn(READ_CHAN);
  }

  // ----- killed processes

  /** A process here goes to sleep, or is asleep, without looking at `killed` again. */
  predicate PastTest(pc: Pc<At>) {
    || pc.SleepPt? || pc.SleepRel? || pc.SleepSet? || pc.Asleep?
    || (pc.Inside() && pc.k.WSleep?)
  }

  predicate Deaf(s: State<At, Pipe>, p: nat) { p < |s.ps| && s.ps[p].killed && PastTest(s.ps[p].pc) }

  /** A kill that finds its target between its test of `killed` and the SLEEPING that kill
      looks for: nobody sees the mark. */
  predicate LateKill(s: State<At, Pipe>, step: Step<At>, p: nat) {
    step == Step.Kill(p) && p < |s.ps| && PastTest(s.ps[p].pc) && !s.ps[p].pc.Asleep?
  }

  ghost predicate NeverDeaf(s: State<At, Pipe>, steps: seq<Step<At>>, p: nat)
    requires Legal(Calls(), s, steps)
    decreases |steps|
  {
    !Deaf(s, p) && (steps == [] || NeverDeaf(Next(Calls(), s, steps[0]), steps[1..], p))
  }

  ghost predicate NoLateKill(s: State<At, Pipe>, steps: seq<Step<At>>, p: nat)
    requires Legal(Calls(), s, steps)
    decreases |steps|
  {
    steps == [] || (!LateKill(s, steps[0], p) && NoLateKill(Next(Calls(), s, steps[0]), steps[1..], p))
  }

  /** Both calls look at `killed` between waking up and sleeping again. */
  lemma KilledLeaves(k: At, d: Pipe, p: nat)
    requires !k.WSleep?
    ensures var ins := Code(k, d, true, p);
            !ins.Sleep? && (ins.Do? || ins.Wakeup? ==> !ins.k.WSleep?)
  {
    hide Full, Empty, Put, Get, RingOk, Stored, Took;
  }

  /** Killing marks the target, whatever it does, and a sleeping one wakes. */
  lemma DeafStep(s: State<At, Pipe>, step: Step<At>, p: nat)
    requires Known(Calls(), Rule(), s) && Enabled(Calls(), s, step) && !Deaf(s, p)
    ensures Deaf(Next(Calls(), s, step), p) <==> LateKill(s, step, p)
  {
    hide Code;
    if p < |s.ps| {
      var pc := s.ps[p].pc;
      assert Knows(Calls(), Rule(), s.d, pc);
      if pc.In? && !pc.k.WSleep? { KilledLeaves(pc.k, s.d, p); }
    }
  }

  lemma {:induction false} DeafRun(s: State<At, Pipe>, steps: seq<Step<At>>, p: nat)
    requires Locks(s) && Known(Calls(), Rule(), s) && Legal(Calls(), s, steps) && !Deaf(s, p)
    ensures NeverDeaf(s, steps, p) <==> NoLateKill(s, steps, p)
    decreases |steps|
  {
    hide Next, Locks, Known, Enabled, Deaf, LateKill, Disciplined;
    if steps != [] {
      var s' := Next(Calls(), s, steps[0]);
      FollowsRule();
      DeafStep(s, steps[0], p);
      LocksStep(Calls(), s, steps[0]);
      KnownStep(Calls(), Rule(), s, steps[0]);
      if !Deaf(s', p) { DeafRun(s', steps[1..], p); }
    }
  }

  /** In every run a killed process never sleeps in the pipe, and never goes to, exactly if no
      kill came between its test of `killed` and its sleep. */
  lemma KilledSleepsIff(nproc: nat, steps: seq<Step<At>>, p: nat)
    requires Legal(Calls(), Init(New(), nproc), steps)
    ensures NeverDeaf(Init(New(), nproc), steps, p) <==> NoLateKill(Init(New(), nproc), steps, p)
  {
    InvInit(Calls(), Rule(), New(), nproc);
    DeafRun(Init(New(), nproc), steps, p);
  }

  /** A reader that is killed after its test of `killed` sleeps all the same. */
  lemma KilledAsleep(nproc: nat) returns (steps: seq<Step<At>>, s: State<At, Pipe>)
    requires nproc >= 1
    ensures RunOf(steps, nproc, s) && s.ps != [] && s.ps[0].killed && s.ps[0].pc.Asleep? && Empty(s.d.ring)
  {
    steps, s := [], Init(New(), nproc);
    hide RunOf;
    assert RunOf(steps, nproc, s) by { RunOfNone(nproc); }
    steps, s := Extend(steps, nproc, s, Start(0, RWhile(1)));
    steps, s := Extend(steps, nproc, s, Run(0));
    steps, s := Extend(steps, nproc, s, Run(0));
    steps, s := Extend(steps, nproc, s, Run(0));
    steps, s := Extend(steps, nproc, s, Step.Kill(0));
    steps, s := Extend(steps, nproc, s, Run(0));
    steps, s := Extend(steps, nproc, s, Run(0));
    steps, s := Extend(steps, nproc, s, Run(0));
  }
}
