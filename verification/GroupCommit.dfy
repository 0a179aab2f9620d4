/** begin_op, log_write and end_op under any interleaving of any number of processes, with the
    buffers they take. Each step is one critical section of log.lock or of the buffer cache,
    except Guard, which is the part of `log_write` that runs before the lock is taken. */
module GroupCommit {
  import opened Xv6Params
  import opened Counting

  /** Where a process is. InOp and Checked carry the distinct blocks its operation has
      logged; Checked is past the unlocked tests of `log_write`. Stray is past them too, but
      called log_write without begin_op. */
  datatype Proc =
    | Idle
    | Sleeping
    | Woken
    | InOp(logged: set<int>)
    | Checked(logged: set<int>, b: int)
    | Stray(b: int)
    | Committing
    | Committed
  {
    predicate Active() { InOp? || Checked? }
    predicate Committer() { Committing? || Committed? }
  }

  /** Still running, or stopped by one of the panics of log_write, end_op and bget. */
  datatype Panic = Running | TooBig | OutsideTrans | LogCommitting | NoBuffers

  /** `held` has the blocks whose buffers each process has a reference to. */
  datatype State = State(procs: seq<Proc>, held: seq<set<int>>, outstanding: int, committing: bool, lh: seq<int>, panic: Panic)

  /** `size` is log.size; `k` is how many distinct blocks one operation may log. */
  datatype Params = Params(size: nat, k: nat)

  datatype Step =
    | BeginOp(p: nat)
    | Fetch(p: nat, b: int)
    | Drop(p: nat, b: int)
    | Guard(p: nat, b: int)
    | StrayGuard(p: nat, b: int)
    | Append(p: nat)
    | EndOp(p: nat)
    | Commit(p: nat)
    | EndCommit(p: nat)
    | Kill(p: nat)

  function Init(nproc: nat): State {
    State(seq(nproc, i => Idle), seq(nproc, i => {}), 0, false, [], Running)
  }

  function WakeAll(ps: seq<Proc>): (r: seq<Proc>)
    ensures |r| == |ps|
    ensures forall i :: 0 <= i < |ps| ==> r[i] == if ps[i] == Sleeping then Woken else ps[i]
  {
    seq(|ps|, i requires 0 <= i < |ps| => if ps[i] == Sleeping then Woken else ps[i])
  }

  /** The blocks whose buffers cannot be recycled: logged ones are B_DIRTY, the others have a
      reference. */
  function Buffers(s: State): (r: set<int>)
    ensures forall b :: b in r <==> b in s.lh || exists i :: 0 <= i < |s.held| && b in s.held[i]
  {
    Elements(s.lh) + (set i, b | 0 <= i < |s.held| && b in s.held[i] :: b)
  }

  predicate Enabled(c: Params, s: State, step: Step) {
    && s.panic == Running
    && step.p < |s.procs| == |s.held|
    && var pr := s.procs[step.p];
       match step
       case BeginOp(_) => pr == Idle || pr == Woken
       case Fetch(_, _) => pr == Idle || pr.InOp?
       case Drop(_, _) => pr == Idle || pr.InOp?
       case Guard(_, b) => pr.InOp? && b in s.held[step.p] && |pr.logged + {b}| <= c.k
       case StrayGuard(_, b) => pr == Idle && b in s.held[step.p]
       case Append(_) => pr.Checked? || pr.Stray?
       case EndOp(_) => pr.InOp?
       case Commit(_) => pr == Committing
       case EndCommit(_) => pr == Committed
       case Kill(_) => pr == Sleeping
  }

  /** The panics of log_write. */
  function Tests(c: Params, s: State): Panic {
    if |s.lh| >= LOGSIZE || |s.lh| >= c.size - 1 then TooBig
    else if s.outstanding < 1 then OutsideTrans
    else Running
  }

  function Do(c: Params, s: State, step: Step): State
    requires Enabled(c, s, step)
  {
    var p := step.p;
    var pr := s.procs[p];
    match step
    case BeginOp(_) =>
      if s.committing || |s.lh| + (s.outstanding + 1) * MAXOPBLOCKS > LOGSIZE
      then s.(procs := s.procs[p := Sleeping])
      else s.(procs := s.procs[p := InOp({})], outstanding := s.outstanding + 1)
    case Fetch(_, b) =>
      if b in Buffers(s) || |Buffers(s)| < NBUF then s.(held := s.held[p := s.held[p] + {b}])
      else s.(panic := NoBuffers)
    case Drop(_, b) => s.(held := s.held[p := s.held[p] - {b}])
    case Guard(_, b) =>
      if Tests(c, s) == Running then s.(procs := s.procs[p := Checked(pr.logged, b)]) else s.(panic := Tests(c, s))
    case StrayGuard(_, b) =>
      if Tests(c, s) == Running then s.(procs := s.procs[p := Stray(b)]) else s.(panic := Tests(c, s))
    case Append(_) =>
      s.(procs := s.procs[p := if pr.Stray? then Idle else InOp(pr.logged + {pr.b})],
         lh := if pr.b in s.lh then s.lh else s.lh + [pr.b])
    case EndOp(_) =>
      if s.committing then s.(outstanding := s.outstanding - 1, panic := LogCommitting)
      else if s.outstanding == 1
      then s.(outstanding := 0, committing := true, procs := s.procs[p := Committing])
      else s.(outstanding := s.outstanding - 1, procs := WakeAll(s.procs[p := Idle]))
    case Commit(_) =>
      // write_log needs a buffer for a log block beside those in use
      if s.lh != [] && |Buffers(s)| >= NBUF then s.(panic := NoBuffers)
      else s.(lh := [], procs := s.procs[p := Committed])
    case EndCommit(_) => s.(committing := false, procs := WakeAll(s.procs[p := Idle]))
    case Kill(_) => s.(procs := s.procs[p := Woken])
  }

  predicate Legal(c: Params, s: State, steps: seq<Step>)
    decreases |steps|
  {
    steps == [] || (Enabled(c, s, steps[0]) && Legal(c, Do(c, s, steps[0]), steps[1..]))
  }

  function Exec(c: Params, s: State, steps: seq<Step>): State
    requires Legal(c, s, steps)
    decreases |steps|
  {
    if steps == [] then s else Exec(c, Do(c, s, steps[0]), steps[1..])
  }

  /** Nobody calls log_write without begin_op. */
  predicate Inside(steps: seq<Step>) {
    forall i :: 0 <= i < |steps| ==> !steps[i].StrayGuard?
  }

  /** What any run can reach, and what a run can reach in which all log_write calls are made
      inside operations. */
  ghost predicate Possible(c: Params, nproc: nat, s: State) {
    exists steps :: Legal(c, Init(nproc), steps) && Exec(c, Init(nproc), steps) == s
  }

  ghost predicate Reachable(c: Params, nproc: nat, s: State) {
    exists steps :: Inside(steps) && Legal(c, Init(nproc), steps) && Exec(c, Init(nproc), steps) == s
  }

  // ----- sums over the process table

  function Sum(ps: seq<Proc>, w: Proc -> int): int {
    if ps == [] then 0 else Sum(ps[..|ps| - 1], w) + w(ps[|ps| - 1])
  }

  lemma {:induction false} SumUpdate(ps: seq<Proc>, w: Proc -> int, p: nat, x: Proc)
    requires p < |ps|
    ensures Sum(ps[p := x], w) == Sum(ps, w) - w(ps[p]) + w(x)
  {
    var n := |ps| - 1;
    if p == n {
      assert ps[p := x][..n] == ps[..n];
    } else {
      assert ps[p := x][..n] == ps[..n][p := x];
      SumUpdate(ps[..n], w, p, x);
    }
  }

  lemma {:induction false} SumWakeAll(ps: seq<Proc>, w: Proc -> int)
    requires w(Sleeping) == w(Woken)
    ensures Sum(WakeAll(ps), w) == Sum(ps, w)
  {
    if ps != [] {
      assert WakeAll(ps)[..|ps| - 1] == WakeAll(ps[..|ps| - 1]);
      SumWakeAll(ps[..|ps| - 1], w);
    }
  }

  lemma {:induction false} SumIdle(n: nat, w: Proc -> int)
    requires w(Idle) == 0
    ensures Sum(seq(n, i => Idle), w) == 0
  {
    if n > 0 {
      assert seq(n, i => Idle)[..n - 1] == seq(n - 1, i => Idle);
      SumIdle(n - 1, w);
    }
  }

  /** A sum of weights that no process makes negative is at least any one of them. */
  lemma {:induction false} SumAtLeast(ps: seq<Proc>, w: Proc -> int, p: nat)
    requires p < |ps|
    requires forall i :: 0 <= i < |ps| ==> w(ps[i]) >= 0
    ensures Sum(ps, w) >= w(ps[p])
  {
    var n := |ps| - 1;
    if p < n {
      SumAtLeast(ps[..n], w, p);
    } else if n > 0 {
      SumAtLeast(ps[..n], w, 0);
    }
  }

  function One(pr: Proc): int { if pr.Active() then 1 else 0 }

  /** What is left of an operation's budget of k blocks. */
  function Unspent(k: int): Proc -> int {
    (pr: Proc) => if pr.Active() then k - |pr.logged| else 0
  }

  lemma {:induction false} UnspentBound(ps: seq<Proc>, k: nat)
    ensures Sum(ps, Unspent(k)) <= k * Sum(ps, One)
  {
    if ps != [] {
      var (some, last) := (Sum(ps[..|ps| - 1], One), ps[|ps| - 1]);
      UnspentBound(ps[..|ps| - 1], k);
      assert k * (some + 1) == k * some + k;
    }
  }

  // ----- the invariant

  /** What every run keeps, whoever calls log_write. */
  ghost predicate Core(s: State) {
    && s.outstanding == Sum(s.procs, One)
    && (s.committing ==> s.outstanding == 0)
    && (forall i :: 0 <= i < |s.procs| && s.procs[i].Committer() ==> s.committing)
    && (forall i, j :: 0 <= i < j < |s.procs| ==> !(s.procs[i].Committer() && s.procs[j].Committer()))
    && (s.committing ==> exists i :: 0 <= i < |s.procs| && s.procs[i].Committer())
    && (forall i, j :: 0 <= i < j < |s.lh| ==> s.lh[i] != s.lh[j])
    && (forall i, b :: 0 <= i < |s.procs| && s.procs[i].Active() && b in s.procs[i].logged ==> b in s.lh)
  }

  /** The log is empty between commits, so whoever sleeps in begin_op has something to wait for;
      and nobody appends from outside. */
  ghost predicate Quiet(s: State) {
    && (s.outstanding == 0 && !s.committing ==> s.lh == [])
    && (forall i :: 0 <= i < |s.procs| && s.procs[i] == Committed ==> s.lh == [])
    && (forall i :: 0 <= i < |s.procs| && s.procs[i] == Sleeping ==> s.committing || s.outstanding > 0)
    && (forall i :: 0 <= i < |s.procs| ==> !s.procs[i].Stray?)
  }

  /** Whoever sleeps in begin_op has to: a commit runs, or another operation might not fit. */
  ghost predicate Waits(s: State) {
    forall i :: 0 <= i < |s.procs| && s.procs[i] == Sleeping ==>
      s.committing || |s.lh| + (s.outstanding + 1) * MAXOPBLOCKS > LOGSIZE
  }

  /** The buffers in use fit the cache, and who is about to append holds the buffer. */
  ghost predicate Cached(s: State) {
    && |s.held| == |s.procs|
    && |Buffers(s)| <= NBUF
    && (forall i :: 0 <= i < |s.procs| && (s.procs[i].Checked? || s.procs[i].Stray?) ==> s.procs[i].b in s.held[i])
  }

  ghost predicate Inv(s: State) { Core(s) && Quiet(s) && Cached(s) }

  /** An operation is within its budget, counting the block it is about to append. */
  predicate Modest(k: int, pr: Proc) {
    pr.Active() ==> |pr.logged| <= k && (pr.Checked? ==> |pr.logged + {pr.b}| <= k)
  }

  ghost predicate WithinBudget(k: int, s: State) {
    forall i :: 0 <= i < |s.procs| ==> Modest(k, s.procs[i])
  }

  /** The most blocks that operations of k blocks each can collect: begin_op lets one in beside
      another only while the log holds at most MAXOPBLOCKS blocks. */
  function Peak(k: int): int { if k == 0 then 0 else MAXOPBLOCKS + 2 * k }

  ghost predicate Reserved(k: int, s: State) {
    |s.lh| + Sum(s.procs, Unspent(k)) <= Peak(k)
  }

  lemma CoreActive(s: State, p: nat)
    requires Core(s) && p < |s.procs| && s.procs[p].Active()
    ensures s.outstanding >= 1 && !s.committing
  {
    SumAtLeast(s.procs, One, p);
  }

  /** A process other than the committer changes state: the committer is still there. */
  lemma CommitterStays(ps: seq<Proc>, ps': seq<Proc>, p: nat)
    requires p < |ps| == |ps'| && !ps[p].Committer()
    requires forall i :: 0 <= i < |ps| && i != p ==> ps'[i] == ps[i]
    ensures (exists i :: 0 <= i < |ps| && ps[i].Committer()) ==>
              exists i :: 0 <= i < |ps'| && ps'[i].Committer()
  {
    if i :| 0 <= i < |ps| && ps[i].Committer() {
      assert ps'[i].Committer();
    }
  }

  lemma CoreBegin(c: Params, s: State, p: nat)
    requires Core(s) && Enabled(c, s, BeginOp(p))
    ensures Core(Do(c, s, BeginOp(p)))
  {
    hide Buffers;
    SumUpdate(s.procs, One, p, Do(c, s, BeginOp(p)).procs[p]);
    SumAtLeast(s.procs, One, p);
    CommitterStays(s.procs, Do(c, s, BeginOp(p)).procs, p);
  }

  lemma CoreGuard(c: Params, s: State, step: Step)
    requires Core(s) && Enabled(c, s, step) && (step.Guard? || step.StrayGuard?)
    ensures Core(Do(c, s, step))
    ensures Do(c, s, step).panic in {Running, TooBig} || (step.StrayGuard? && s.outstanding == 0)
  {
    hide Buffers;
    var s' := Do(c, s, step);
    SumAtLeast(s.procs, One, step.p);
    SumUpdate(s.procs, One, step.p, s'.procs[step.p]);
    CommitterStays(s.procs, s'.procs, step.p);
  }

  lemma CoreAppend(c: Params, s: State, p: nat)
    requires Core(s) && Enabled(c, s, Append(p))
    ensures Core(Do(c, s, Append(p)))
  {
    hide Buffers;
    var s' := Do(c, s, Append(p));
    SumUpdate(s.procs, One, p, s'.procs[p]);
    CommitterStays(s.procs, s'.procs, p);
  }

  lemma CoreEndOp(c: Params, s: State, p: nat)
    requires Core(s) && Enabled(c, s, EndOp(p))
    ensures Core(Do(c, s, EndOp(p))) && Do(c, s, EndOp(p)).panic == Running
  {
    CoreActive(s, p);
    SumUpdate(s.procs, One, p, Idle);
    SumUpdate(s.procs, One, p, Committing);
    SumWakeAll(s.procs[p := Idle], One);
    if s.outstanding == 1 { assert Do(c, s, EndOp(p)).procs[p].Committer(); }
  }

  lemma CoreCommit(c: Params, s: State, p: nat)
    requires Core(s) && Enabled(c, s, Commit(p))
    ensures Core(Do(c, s, Commit(p)))
  {
    SumUpdate(s.procs, One, p, Committed);
    assert Do(c, s, Commit(p)).procs[p].Committer();
    forall i | 0 <= i < |s.procs|
      ensures !s.procs[i].Active()
    {
      if s.procs[i].Active() { CoreActive(s, i); }
    }
  }

  lemma CoreEndCommit(c: Params, s: State, p: nat)
    requires Core(s) && Enabled(c, s, EndCommit(p))
    ensures Core(Do(c, s, EndCommit(p)))
  {
    SumUpdate(s.procs, One, p, Idle);
    SumWakeAll(s.procs[p := Idle], One);
  }

  /** One step keeps the protocol invariant, whoever logs whatever. */
  lemma CoreStep(c: Params, s: State, step: Step)
    requires Core(s) && Enabled(c, s, step)
    ensures Core(Do(c, s, step)) && Do(c, s, step).panic != LogCommitting
    ensures Do(c, s, step).panic == OutsideTrans ==> step.StrayGuard? && s.outstanding == 0
  {
    hide Buffers, Core;
    match step
    case BeginOp(p) => CoreBegin(c, s, p);
    case Fetch(_, _) => CoreBuffers(c, s, step);
    case Drop(_, _) => CoreBuffers(c, s, step);
    case Guard(_, _) => CoreGuard(c, s, step);
    case StrayGuard(_, _) => CoreGuard(c, s, step);
    case Append(p) => CoreAppend(c, s, p);
    case EndOp(p) => CoreEndOp(c, s, p);
    case Commit(p) => CoreCommit(c, s, p);
    case EndCommit(p) => CoreEndCommit(c, s, p);
    case Kill(p) => CoreKill(c, s, p);
  }

  lemma CoreBuffers(c: Params, s: State, step: Step)
    requires Core(s) && Enabled(c, s, step) && (step.Fetch? || step.Drop?)
    ensures Core(Do(c, s, step)) && Do(c, s, step).panic in {Running, NoBuffers}
  {
    hide Buffers;
  }

  lemma CoreKill(c: Params, s: State, p: nat)
    requires Core(s) && Enabled(c, s, Kill(p))
    ensures Core(Do(c, s, Kill(p)))
  {
    hide Buffers;
    SumUpdate(s.procs, One, p, Woken);
    CommitterStays(s.procs, s.procs[p := Woken], p);
  }

  /** Every step that makes room wakes the sleepers. */
  lemma WaitsStep(c: Params, s: State, step: Step)
    requires Core(s) && Waits(s) && Enabled(c, s, step)
    ensures Waits(Do(c, s, step))
  {
    hide Buffers;
  }

  /** A kill does not get a process past begin_op: it looks again and, unless the state has
      changed in the meantime, sleeps again. */
  lemma KillOnlyRetries(c: Params, s: State, p: nat)
    requires Waits(s) && Enabled(c, s, Kill(p))
    ensures Enabled(c, Do(c, s, Kill(p)), BeginOp(p)) && Do(c, Do(c, s, Kill(p)), BeginOp(p)) == s
  {
    var s' := Do(c, s, Kill(p));
    assert s'.procs[p := Sleeping] == s.procs;
  }

  /** The log stays empty between commits as long as log_write is called inside operations. */
  lemma QuietStep(c: Params, s: State, step: Step)
    requires Core(s) && Quiet(s) && Enabled(c, s, step) && !step.StrayGuard?
    ensures Quiet(Do(c, s, step))
  {
    hide Buffers;
    if step.Append? || step.EndOp? { CoreActive(s, step.p); }
    if step.BeginOp? { SumAtLeast(s.procs, One, step.p); }
  }

  /** The cache never holds more buffers than it has. */
  lemma CachedStep(c: Params, s: State, step: Step)
    requires Cached(s) && Enabled(c, s, step)
    ensures Cached(Do(c, s, step))
  {
    if step.Fetch? { CachedFetch(c, s, step.p, step.b); } else { CachedOther(c, s, step); }
  }

  lemma CachedFetch(c: Params, s: State, p: nat, b: int)
    requires Cached(s) && Enabled(c, s, Fetch(p, b))
    ensures Cached(Do(c, s, Fetch(p, b)))
  {
    hide Buffers;
    BuffersMore(s, p, b);
    if b in Buffers(s) { assert Buffers(s) + {b} == Buffers(s); }
    var s' := Do(c, s, Fetch(p, b));
    if s'.panic == NoBuffers { LoggedIsUsed(s); BuffersLess(s, s'); }
  }

  lemma CachedOther(c: Params, s: State, step: Step)
    requires Cached(s) && Enabled(c, s, step) && !step.Fetch?
    ensures Cached(Do(c, s, step))
  {
    hide Buffers;
    if step.Append? { HeldIsUsed(s, step.p, s.procs[step.p].b); }
    LoggedIsUsed(s);
    BuffersLess(s, Do(c, s, step));
  }

  lemma BuffersMore(s: State, p: nat, b: int)
    requires p < |s.held|
    ensures Buffers(s.(held := s.held[p := s.held[p] + {b}])) == Buffers(s) + {b}
  {
    var h := s.held[p := s.held[p] + {b}];
    assert b in h[p];
    forall x | x in Buffers(s) && x !in s.lh
      ensures exists i :: 0 <= i < |h| && x in h[i]
    {
      var i :| 0 <= i < |s.held| && x in s.held[i];
      assert x in h[i];
    }
  }

  lemma HeldIsUsed(s: State, p: nat, b: int)
    requires p < |s.held| && b in s.held[p]
    ensures b in Buffers(s)
  {
  }

  lemma LoggedIsUsed(s: State)
    ensures forall b :: b in s.lh ==> b in Buffers(s)
  {
  }

  lemma BuffersLess(s: State, s': State)
    requires forall b :: b in s'.lh ==> b in Buffers(s)
    requires |s'.held| == |s.held| && forall i, b :: 0 <= i < |s.held| && b in s'.held[i] ==> b in s.held[i]
    ensures |Buffers(s')| <= |Buffers(s)|
  {
    forall b | b in Buffers(s')
      ensures b in Buffers(s)
    {
      if b !in s'.lh {
        var i :| 0 <= i < |s'.held| && b in s'.held[i];
        assert b in s.held[i];
      }
    }
    CardSubset(Buffers(s'), Buffers(s));
  }

  /** One step of a run without strays keeps the whole invariant. */
  lemma InvStep(c: Params, s: State, step: Step)
    requires Inv(s) && Enabled(c, s, step) && !step.StrayGuard?
    ensures Inv(Do(c, s, step)) && Do(c, s, step).panic in {Running, TooBig, NoBuffers}
  {
    hide Core, Quiet, Cached;
    CoreStep(c, s, step);
    QuietStep(c, s, step);
    CachedStep(c, s, step);
  }

  lemma BudgetStep(c: Params, s: State, step: Step)
    requires WithinBudget(c.k, s) && Enabled(c, s, step)
    ensures WithinBudget(c.k, Do(c, s, step))
  {
    hide Buffers;
    var s' := Do(c, s, step);
    assert Modest(c.k, s.procs[step.p]);
    if step.Guard? { CardSubset(s.procs[step.p].logged, s.procs[step.p].logged + {step.b}); }
    assert Modest(c.k, s'.procs[step.p]);
    hide Do, Modest;
    Idlers(c.k);
    forall i | 0 <= i < |s.procs| && i != step.p
      ensures Modest(c.k, s'.procs[i])
    {
      OthersWait(c, s, step, i);
    }
  }

  lemma Idlers(k: int)
    ensures Modest(k, Sleeping) && Modest(k, Woken)
  {
  }

  /** A step changes its own process, and wakes others. */
  lemma OthersWait(c: Params, s: State, step: Step, i: nat)
    requires Enabled(c, s, step) && i < |s.procs| && i != step.p
    ensures |Do(c, s, step).procs| == |s.procs|
    ensures Do(c, s, step).procs[i] == s.procs[i] || Do(c, s, step).procs[i] == Woken
  {
    hide Buffers;
  }

  /** The reservation of `begin_op` covers everything the open operations may still log. */
  lemma ReserveStep(c: Params, s: State, step: Step)
    requires Core(s) && Quiet(s) && WithinBudget(c.k, s) && Reserved(c.k, s) && c.k <= MAXOPBLOCKS
    requires Enabled(c, s, step) && !step.StrayGuard?
    ensures Reserved(c.k, Do(c, s, step))
  {
    hide Buffers;
    var p, w := step.p, Unspent(c.k);
    if step.EndOp? || step.EndCommit? {
      SumUpdate(s.procs, w, p, Idle);
      SumUpdate(s.procs, w, p, Committing);
      SumWakeAll(s.procs[p := Idle], w);
    } else if step.BeginOp? {
      ReserveBegin(c, s, p);
    } else if step.Append? {
      ReserveAppend(c, s, p);
    } else {
      SumUpdate(s.procs, w, p, Do(c, s, step).procs[p]);
    }
  }

  lemma ReserveAppend(c: Params, s: State, p: nat)
    requires Core(s) && Quiet(s) && WithinBudget(c.k, s) && Reserved(c.k, s) && c.k <= MAXOPBLOCKS
    requires Enabled(c, s, Append(p))
    ensures Reserved(c.k, Do(c, s, Append(p)))
  {
    SumUpdate(s.procs, Unspent(c.k), p, Do(c, s, Append(p)).procs[p]);
    var pr := s.procs[p];
    CardSubset(pr.logged, pr.logged + {pr.b});
    assert pr.b in pr.logged ==> pr.b in s.lh;
  }

  lemma ReserveBegin(c: Params, s: State, p: nat)
    requires Core(s) && Quiet(s) && WithinBudget(c.k, s) && Reserved(c.k, s) && c.k <= MAXOPBLOCKS
    requires Enabled(c, s, BeginOp(p))
    ensures Reserved(c.k, Do(c, s, BeginOp(p)))
  {
    hide Core, Quiet, WithinBudget, Sum, Buffers;
    BeginFacts(c, s, p);
    if !s.committing && |s.lh| + (s.outstanding + 1) * MAXOPBLOCKS <= LOGSIZE {
      LeftOver(|s.lh|, s.outstanding, c.k, Sum(s.procs, Unspent(c.k)));
    }
  }

  lemma BeginFacts(c: Params, s: State, p: nat)
    requires Core(s) && Quiet(s) && Enabled(c, s, BeginOp(p))
    ensures s.outstanding >= 0 && (s.outstanding == 0 && !s.committing ==> s.lh == [])
    ensures Sum(s.procs, Unspent(c.k)) <= c.k * s.outstanding
    ensures Sum(s.procs[p := Sleeping], Unspent(c.k)) == Sum(s.procs, Unspent(c.k))
    ensures Sum(s.procs[p := InOp({})], Unspent(c.k)) == Sum(s.procs, Unspent(c.k)) + c.k
  {
    SumUpdate(s.procs, Unspent(c.k), p, Sleeping);
    SumUpdate(s.procs, Unspent(c.k), p, InOp({}));
    SumAtLeast(s.procs, One, p);
    UnspentBound(s.procs, c.k);
  }

  /** What begin_op's test leaves for the operations that are open then. */
  lemma LeftOver(n: nat, open: nat, k: nat, unspent: int)
    requires k <= MAXOPBLOCKS && n + (open + 1) * MAXOPBLOCKS <= LOGSIZE && (open == 0 ==> n == 0)
    requires unspent <= k * open && n + unspent <= Peak(k)
    ensures n + unspent + k <= Peak(k)
  {
    assert open == 0 || open == 1 || open == 2;
  }

  // ----- every run

  ghost predicate Good(c: Params, s: State) {
    && Inv(s)
    && WithinBudget(c.k, s)
    && (c.k <= MAXOPBLOCKS ==> Reserved(c.k, s))
  }

  lemma GoodStep(c: Params, s: State, step: Step)
    requires Good(c, s) && Enabled(c, s, step) && !step.StrayGuard?
    ensures Good(c, Do(c, s, step)) && Do(c, s, step).panic in {Running, TooBig, NoBuffers}
  {
    hide Core, Quiet, Cached, WithinBudget, Reserved;
    InvStep(c, s, step);
    BudgetStep(c, s, step);
    if c.k <= MAXOPBLOCKS { ReserveStep(c, s, step); }
  }

  lemma EndsWell(c: Params, s: State, p: nat)
    requires Good(c, s) && Enabled(c, s, EndOp(p))
    ensures Good(c, Do(c, s, EndOp(p))) && Do(c, s, EndOp(p)).panic == Running
  {
    hide Good, Core;
    GoodStep(c, s, EndOp(p));
    GoodCore(c, s);
    CoreEndOp(c, s, p);
  }

  lemma GoodCore(c: Params, s: State)
    requires Good(c, s)
    ensures Core(s)
  {
  }

  lemma GoodInit(c: Params, nproc: nat)
    ensures Good(c, Init(nproc))
  {
    SumIdle(nproc, One);
    SumIdle(nproc, Unspent(c.k));
    assert Buffers(Init(nproc)) == {};
  }

  lemma {:induction false} GoodRun(c: Params, s: State, steps: seq<Step>)
    requires Good(c, s) && Inside(steps) && Legal(c, s, steps) && s.panic in {Running, TooBig, NoBuffers}
    ensures Good(c, Exec(c, s, steps)) && Exec(c, s, steps).panic in {Running, TooBig, NoBuffers}
    decreases |steps|
  {
    hide Good;
    if steps != [] {
      GoodStep(c, s, steps[0]);
      GoodRun(c, Do(c, s, steps[0]), steps[1..]);
    }
  }

  lemma ReachableGood(c: Params, nproc: nat, s: State)
    requires Reachable(c, nproc, s)
    ensures Good(c, s) && s.panic in {Running, TooBig, NoBuffers}
  {
    var steps :| Inside(steps) && Legal(c, Init(nproc), steps) && Exec(c, Init(nproc), steps) == s;
    GoodInit(c, nproc);
    GoodRun(c, Init(nproc), steps);
  }

  /** The run makes a log_write call outside every operation while no operation is open. */
  predicate CallsOutside(c: Params, s: State, steps: seq<Step>)
    requires Legal(c, s, steps)
    decreases |steps|
  {
    steps != [] && (|| (steps[0].StrayGuard? && Tests(c, s) == OutsideTrans)
                    || CallsOutside(c, Do(c, s, steps[0]), steps[1..]))
  }

  lemma {:induction false} CoreRun(c: Params, s: State, steps: seq<Step>)
    requires Core(s) && Cached(s) && Waits(s) && Legal(c, s, steps) && s.panic !in {OutsideTrans, LogCommitting}
    ensures Core(Exec(c, s, steps)) && Cached(Exec(c, s, steps)) && Waits(Exec(c, s, steps))
    ensures Exec(c, s, steps).panic != LogCommitting
    ensures Exec(c, s, steps).panic == OutsideTrans <==> CallsOutside(c, s, steps)
    decreases |steps|
  {
    hide Core, Cached, Waits;
    if steps != [] {
      CoreStep(c, s, steps[0]);
      WaitsStep(c, s, steps[0]);
      CachedStep(c, s, steps[0]);
      var s' := Do(c, s, steps[0]);
      if s'.panic == OutsideTrans { assert steps[1..] == []; } else { CoreRun(c, s', steps[1..]); }
    }
  }

  /** In every run, strays included: no commit runs beside an open operation, so `end_op`
      cannot panic; there is one committer at most; nobody sleeps in `begin_op` once no commit runs
      and there is room for another operation; and "log_write outside of trans" stops the machine
      exactly if somebody calls log_write without begin_op while no operation is open and the log
      has room. */
  lemma GroupCommitIsolated(c: Params, nproc: nat, steps: seq<Step>)
    requires Legal(c, Init(nproc), steps)
    ensures var s := Exec(c, Init(nproc), steps);
            && (s.committing ==> s.outstanding == 0)
            && s.panic != LogCommitting
            && (!s.committing && |s.lh| + (s.outstanding + 1) * MAXOPBLOCKS <= LOGSIZE ==>
                  forall i :: 0 <= i < |s.procs| ==> s.procs[i] != Sleeping)
            && (forall i, j :: 0 <= i < j < |s.procs| ==> !(s.procs[i].Committer() && s.procs[j].Committer()))
    ensures Exec(c, Init(nproc), steps).panic == OutsideTrans <==> CallsOutside(c, Init(nproc), steps)
  {
    GoodInit(c, nproc);
    CoreRun(c, Init(nproc), steps);
  }

  /** If all log_write calls are made inside operations, the log is empty whenever nothing is
      open and no commit runs, and whoever sleeps in `begin_op` has someone left to wake it. */
  lemma LogEmptyWhenIdle(c: Params, nproc: nat, s: State)
    requires Reachable(c, nproc, s)
    ensures s.outstanding == 0 && !s.committing ==> s.lh == []
    ensures s.panic in {Running, TooBig, NoBuffers}
    ensures forall i :: 0 <= i < |s.procs| && s.procs[i] == Sleeping ==>
              || (exists j :: 0 <= j < |s.procs| && s.procs[j].Committer())
              || s.outstanding > 0
  {
    ReachableGood(c, nproc, s);
  }

  /** A process that reads the file system without begin_op and has to log: the log is not empty
      although no operation is open, or the machine stops. */
  lemma StrayHarms(c: Params, nproc: nat) returns (s: State, s': State)
    requires nproc >= 2 && c.size >= 2
    ensures Possible(c, nproc, s) && s.panic == OutsideTrans
    ensures Possible(c, nproc, s') && s'.panic == Running && s'.outstanding == 0 && !s'.committing && s'.lh != []
  {
    hide Possible, Buffers;
    var s1 := ReaderFetches(c, nproc);
    s := PossibleStep(c, nproc, s1, StrayGuard(0, 7));
    s' := PossibleStep(c, nproc, s1, BeginOp(1));
    s' := PossibleStep(c, nproc, s', StrayGuard(0, 7));
    s' := PossibleStep(c, nproc, s', EndOp(1));
    s' := PossibleStep(c, nproc, s', Commit(1));
    s' := PossibleStep(c, nproc, s', EndCommit(1));
    s' := PossibleStep(c, nproc, s', Append(0));
  }

  lemma ReaderFetches(c: Params, nproc: nat) returns (s: State)
    requires nproc >= 1
    ensures Possible(c, nproc, s) && s == Init(nproc).(held := Init(nproc).held[0 := {7}])
  {
    var s0 := Init(nproc);
    assert Buffers(s0) == {};
    assert Legal(c, s0, []) && Exec(c, s0, []) == s0;
    s := PossibleStep(c, nproc, s0, Fetch(0, 7));
  }

  lemma PossibleStep(c: Params, nproc: nat, s: State, step: Step) returns (s': State)
    requires Possible(c, nproc, s) && Enabled(c, s, step)
    ensures s' == Do(c, s, step) && Possible(c, nproc, s')
  {
    var steps :| Legal(c, Init(nproc), steps) && Exec(c, Init(nproc), steps) == s;
    s' := Do(c, s, step);
    OneMore(c, Init(nproc), steps, s, step);
  }

  // ----- the space in the log

  /** In every run and for operations of any size the header array is never overrun: every
      logged block and every block about to be appended has a buffer of its own, and there are
      no more buffers than entries. */
  lemma HeaderHolds(c: Params, nproc: nat, s: State)
    requires Possible(c, nproc, s)
    ensures |s.lh| <= LOGSIZE && forall i, j :: 0 <= i < j < |s.lh| ==> s.lh[i] != s.lh[j]
    ensures forall i :: 0 <= i < |s.procs| && (s.procs[i].Checked? || s.procs[i].Stray?) && s.procs[i].b !in s.lh
              ==> |s.lh| < LOGSIZE
  {
    var steps :| Legal(c, Init(nproc), steps) && Exec(c, Init(nproc), steps) == s;
    GoodInit(c, nproc);
    CoreRun(c, Init(nproc), steps);
    InHeader(s);
  }

  lemma InHeader(s: State)
    requires Core(s) && Cached(s)
    ensures |s.lh| <= LOGSIZE
    ensures forall i :: 0 <= i < |s.procs| && (s.procs[i].Checked? || s.procs[i].Stray?) && s.procs[i].b !in s.lh
              ==> |s.lh| < LOGSIZE
  {
    var logged := Elements(s.lh);
    DistinctCount(s.lh);
    CardSubset(logged, Buffers(s));
    forall i | 0 <= i < |s.procs| && (s.procs[i].Checked? || s.procs[i].Stray?) && s.procs[i].b !in s.lh
      ensures |s.lh| < LOGSIZE
    {
      CardSubset(logged + {s.procs[i].b}, Buffers(s));
    }
  }

  /** Log space reservation: as long as an operation logs no more than MAXOPBLOCKS
      distinct blocks, the log and the unspent budgets stay within Peak. */
  lemma LogSpaceReserved(c: Params, nproc: nat, s: State)
    requires c.k <= MAXOPBLOCKS && Reachable(c, nproc, s)
    ensures |s.lh| + Sum(s.procs, Unspent(c.k)) <= Peak(c.k) <= LOGSIZE
    ensures |s.lh| <= Peak(c.k)
  {
    ReachableGood(c, nproc, s);
    SumNonNegative(s.procs, Unspent(c.k), c.k);
  }

  lemma {:induction false} SumNonNegative(ps: seq<Proc>, w: Proc -> int, k: int)
    requires w == Unspent(k)
    requires forall i :: 0 <= i < |ps| ==> Modest(k, ps[i])
    ensures Sum(ps, w) >= 0
  {
    if ps != [] { SumNonNegative(ps[..|ps| - 1], w, k); }
  }

  // ----- how far the log can be filled

  lemma {:induction false} ExecConcat(c: Params, s: State, xs: seq<Step>, ys: seq<Step>)
    requires Legal(c, s, xs) && Legal(c, Exec(c, s, xs), ys)
    ensures Legal(c, s, xs + ys) && Exec(c, s, xs + ys) == Exec(c, Exec(c, s, xs), ys)
    decreases |xs|
  {
    hide Do, Enabled;
    if xs == [] {
      assert xs + ys == ys;
    } else {
      assert (xs + ys)[1..] == xs[1..] + ys;
      ExecConcat(c, Do(c, s, xs[0]), xs[1..], ys);
    }
  }

  lemma OneMore(c: Params, s0: State, steps: seq<Step>, s: State, step: Step)
    requires Legal(c, s0, steps) && Exec(c, s0, steps) == s && Enabled(c, s, step)
    ensures Legal(c, s0, steps + [step]) && Exec(c, s0, steps + [step]) == Do(c, s, step)
  {
    hide Do, Enabled;
    var s' := Do(c, s, step);
    assert [step][1..] == [] && Legal(c, s', []) && Exec(c, s', []) == s';
    assert Legal(c, s, [step]) && Exec(c, s, [step]) == s';
    ExecConcat(c, s0, steps, [step]);
  }

  /** Extend a run by one step. */
  lemma ReachStep(c: Params, nproc: nat, s: State, step: Step) returns (s': State)
    requires Reachable(c, nproc, s) && Enabled(c, s, step) && !step.StrayGuard?
    ensures s' == Do(c, s, step) && Reachable(c, nproc, s')
  {
    var steps :| Inside(steps) && Legal(c, Init(nproc), steps) && Exec(c, Init(nproc), steps) == s;
    s' := Do(c, s, step);
    OneMore(c, Init(nproc), steps, s, step);
    assert Inside(steps + [step]);
  }

  lemma ReachInit(c: Params, nproc: nat)
    ensures Reachable(c, nproc, Init(nproc))
  {
    assert Inside([]) && Legal(c, Init(nproc), []) && Exec(c, Init(nproc), []) == Init(nproc);
  }

  function From(lo: int, m: nat): (r: seq<int>)
    ensures |r| == m && forall i :: 0 <= i < m ==> r[i] == lo + i
  {
    seq(m, i => lo + i)
  }

  predicate NoneHeld(s: State) {
    |s.held| == |s.procs| && forall i :: 0 <= i < |s.held| ==> s.held[i] == {}
  }

  /** If nobody holds a buffer, the logged blocks are all that is in use. */
  lemma BuffersAreLogged(s: State)
    requires NoneHeld(s)
    ensures Buffers(s) == Elements(s.lh)
    ensures |Buffers(s)| <= |s.lh|
  {
    assert Buffers(s) == Elements(s.lh);
    CountAtMost(s.lh);
  }

  lemma Take(c: Params, nproc: nat, s: State, p: nat, b: int) returns (s': State)
    requires Reachable(c, nproc, s) && s.panic == Running && p < |s.procs| == |s.held|
    requires s.procs[p].InOp? && (b in Buffers(s) || |Buffers(s)| < NBUF)
    ensures Reachable(c, nproc, s') && s' == s.(held := s.held[p := s.held[p] + {b}])
  {
    hide Reachable, Buffers;
    s' := ReachStep(c, nproc, s, Fetch(p, b));
  }

  lemma PassGuard(c: Params, nproc: nat, s: State, p: nat, b: int) returns (s': State)
    requires Reachable(c, nproc, s) && s.panic == Running && p < |s.procs| == |s.held| && b in s.held[p]
    requires s.procs[p].InOp? && |s.procs[p].logged + {b}| <= c.k
    requires |s.lh| < LOGSIZE && |s.lh| < c.size - 1 && s.outstanding >= 1
    ensures Reachable(c, nproc, s') && s' == s.(procs := s.procs[p := Checked(s.procs[p].logged, b)])
  {
    hide Reachable, Buffers;
    s' := ReachStep(c, nproc, s, Guard(p, b));
  }

  /** Append and brelse of a fresh block. */
  lemma Store(c: Params, nproc: nat, s: State, p: nat) returns (s': State)
    requires Reachable(c, nproc, s) && s.panic == Running && p < |s.procs| == |s.held|
    requires s.procs[p].Checked? && s.procs[p].b !in s.lh && s.held[p] == {s.procs[p].b}
    ensures Reachable(c, nproc, s')
    ensures s' == s.(lh := s.lh + [s.procs[p].b], held := s.held[p := {}],
                     procs := s.procs[p := InOp(s.procs[p].logged + {s.procs[p].b})])
  {
    hide Reachable, Buffers;
    s' := ReachStep(c, nproc, s, Append(p));
    s' := ReachStep(c, nproc, s', Drop(p, s.procs[p].b));
    assert s.held[p] - {s.procs[p].b} == {};
  }

  /** An open operation logs one fresh block: bread, log_write, brelse. */
  lemma LogOne(c: Params, nproc: nat, s: State, p: nat, b: int) returns (s': State)
    requires Reachable(c, nproc, s) && s.panic == Running && s.outstanding >= 1 && NoneHeld(s)
    requires p < |s.procs| && s.procs[p].InOp? && |s.procs[p].logged + {b}| <= c.k && b !in s.lh
    requires |s.lh| < LOGSIZE && |s.lh| < c.size - 1
    ensures Reachable(c, nproc, s')
    ensures s' == s.(lh := s.lh + [b], procs := s.procs[p := InOp(s.procs[p].logged + {b})])
  {
    hide Reachable, Buffers;
    BuffersAreLogged(s);
    s' := Take(c, nproc, s, p, b);
    s' := PassGuard(c, nproc, s', p, b);
    s' := Store(c, nproc, s', p);
    assert s'.held == s.held && s'.procs == s.procs[p := InOp(s.procs[p].logged + {b})];
  }

  /** ... and several, one after the other. */
  lemma {:induction false} LogMany(c: Params, nproc: nat, s: State, p: nat, b: int, count: nat) returns (s': State)
    requires Reachable(c, nproc, s) && s.panic == Running && s.outstanding >= 1 && NoneHeld(s)
    requires p < |s.procs| && s.procs[p].InOp? && |s.procs[p].logged| + count <= c.k
    requires (forall x :: x in s.lh ==> x < b) && (forall x :: x in s.procs[p].logged ==> x < b)
    requires |s.lh| + count <= LOGSIZE && (count > 0 ==> |s.lh| + count <= c.size - 1)
    ensures Reachable(c, nproc, s') && NoneHeld(s')
    ensures |s'.procs| == |s.procs| && s'.procs[p].InOp? && |s'.procs[p].logged| == |s.procs[p].logged| + count
    ensures forall x :: x in s'.procs[p].logged ==> x < b + count
    ensures s' == s.(lh := s.lh + From(b, count), procs := s.procs[p := s'.procs[p]])
    decreases count
  {
    hide Reachable;
    if count == 0 {
      s' := s;
      assert s.lh + From(b, 0) == s.lh;
    } else {
      var s1 := LogOne(c, nproc, s, p, b);
      s' := LogMany(c, nproc, s1, p, b + 1, count - 1);
      assert s.lh + [b] + From(b + 1, count - 1) == s.lh + From(b, count);
    }
  }

  /** Process 0 has an operation open that has logged nothing, and others have logged m blocks. */
  function Alone(nproc: nat, lo: int, m: nat): State
    requires nproc >= 2
  {
    State(seq(nproc, i => Idle)[0 := InOp({})], seq(nproc, i => {}), 1, false, From(lo, m), Running)
  }

  /** Operations of one block each, one after the other, beside the open one. */
  lemma {:induction false} FillAlone(c: Params, nproc: nat, lo: int, m: nat)
    requires nproc >= 2 && c.k >= 1 && m <= MAXOPBLOCKS && (m > 0 ==> m <= c.size - 1)
    ensures Reachable(c, nproc, Alone(nproc, lo, m))
    decreases m
  {
    hide Reachable;
    if m == 0 {
      ReachInit(c, nproc);
      var s := ReachStep(c, nproc, Init(nproc), BeginOp(0));
      assert s == Alone(nproc, lo, 0);
    } else {
      FillAlone(c, nproc, lo, m - 1);
      var s := ReachStep(c, nproc, Alone(nproc, lo, m - 1), BeginOp(1));
      s := LogOne(c, nproc, s, 1, lo + m - 1);
      s := ReachStep(c, nproc, s, EndOp(1));
      assert s.procs == Alone(nproc, lo, m).procs && s.lh == Alone(nproc, lo, m).lh;
    }
  }

  /** Two operations are open, with `a` and `b` blocks of their own logged, and together with
      earlier ones they have filled the log with the blocks lo, lo + 1, ... */
  ghost predicate TwoOpen(c: Params, nproc: nat, s: State, lo: int, m: nat, a: nat, b: nat) {
    && Reachable(c, nproc, s) && s.panic == Running && s.outstanding == 2 && !s.committing
    && |s.procs| == nproc >= 2 && NoneHeld(s) && s.lh == From(lo, m)
    && s.procs[0].InOp? && |s.procs[0].logged| == a && (forall x :: x in s.procs[0].logged ==> x < lo + m)
    && s.procs[1].InOp? && |s.procs[1].logged| == b && (forall x :: x in s.procs[1].logged ==> x < lo + m)
    && (forall i :: 2 <= i < nproc ==> s.procs[i] == Idle)
  }

  lemma FillTwo(c: Params, nproc: nat, lo: int, x: nat, a: nat, b: nat) returns (s: State)
    requires nproc >= 2 && c.k >= 1 && x <= MAXOPBLOCKS && a <= c.k && b <= c.k
    requires x + a + b <= LOGSIZE && (x + a + b > 0 ==> x + a + b <= c.size - 1)
    ensures TwoOpen(c, nproc, s, lo, x + a + b, a, b)
  {
    hide Reachable;
    FillAlone(c, nproc, lo, x);
    s := ReachStep(c, nproc, Alone(nproc, lo, x), BeginOp(1));
    s := LogMany(c, nproc, s, 0, lo + x, a);
    s := LogMany(c, nproc, s, 1, lo + x + a, b);
    assert s.lh == From(lo, x + a + b);
  }

  /** Any number of blocks up to Peak(k) that log.size allows can be collected, and up to two
      fewer with both operations still allowed another block. */
  lemma FillUp(c: Params, nproc: nat, lo: int, m: nat, spare: nat) returns (s: State, a: nat, b: nat)
    requires nproc >= 2 && c.k >= 1 && spare <= 1 && m + 2 * spare <= Peak(c.k)
    requires m <= LOGSIZE && (m > 0 ==> m <= c.size - 1)
    ensures TwoOpen(c, nproc, s, lo, m, a, b) && a + spare <= c.k && b + spare <= c.k
    ensures spare == 0 && a == 0 ==> m <= MAXOPBLOCKS
  {
    var x := if m < MAXOPBLOCKS then m else MAXOPBLOCKS;
    a := if m - x <= c.k - spare then m - x else c.k - spare;
    b := m - x - a;
    s := FillTwo(c, nproc, lo, x, a, b);
  }

  /** "too big a transaction" is reachable exactly if the log can be filled to the point where
      the guard of log_write gives up; with the log mkfs makes, exactly if an operation may log
      MAXOPBLOCKS distinct blocks. */
  lemma TooBigIff(c: Params, nproc: nat)
    requires nproc >= 2
    ensures (exists s :: Reachable(c, nproc, s) && s.panic == TooBig) <==> GuardReach(c)
    ensures c.size == LOGSIZE ==> ((exists s :: Reachable(c, nproc, s) && s.panic == TooBig) <==> c.k >= MAXOPBLOCKS)
  {
    if GuardReach(c) {
      var s := TooBigReachable(c, nproc);
    } else {
      forall s | Reachable(c, nproc, s)
        ensures s.panic != TooBig
      {
        var steps :| Inside(steps) && Legal(c, Init(nproc), steps) && Exec(c, Init(nproc), steps) == s;
        GoodInit(c, nproc);
        NeverTooBigRun(c, Init(nproc), steps);
      }
    }
  }

  /** The two tests of log_write's first line can both be beyond reach. */
  predicate GuardReach(c: Params) {
    c.k >= 1 && (c.size - 1 <= Peak(c.k) || LOGSIZE <= Peak(c.k))
  }

  lemma TooBigReachable(c: Params, nproc: nat) returns (s: State)
    requires nproc >= 2 && GuardReach(c)
    ensures Reachable(c, nproc, s) && s.panic == TooBig
  {
    hide Reachable, Buffers, Good;
    var m := if c.size == 0 then 0 else if c.size - 1 <= LOGSIZE then c.size - 1 else LOGSIZE;
    var a, b;
    s, a, b := FillUp(c, nproc, 0, m, 0);
    OwnIsLogged(c, nproc, s);
    BuffersAreLogged(s);
    // a block it has logged before, if there is one: the guard comes before absorption
    var x := 0;
    if a > 0 {
      x := OneOf(s.procs[0].logged);
      assert s.procs[0].logged + {x} == s.procs[0].logged;
    }
    s := GuardStops(c, nproc, s, x);
  }

  lemma OneOf(a: set<int>) returns (x: int)
    requires |a| > 0
    ensures x in a
  {
    NothingIn(a);
    x :| x in a;
  }

  lemma NothingIn(a: set<int>)
    ensures (forall x :: x !in a) ==> |a| == 0
  {
    if forall x :: x !in a { assert a == {}; }
  }

  lemma OwnIsLogged(c: Params, nproc: nat, s: State)
    requires Reachable(c, nproc, s)
    ensures forall i, b :: 0 <= i < |s.procs| && s.procs[i].Active() && b in s.procs[i].logged ==> b in s.lh
  {
    ReachableGood(c, nproc, s);
  }

  lemma GuardStops(c: Params, nproc: nat, s: State, x: int) returns (s': State)
    requires Reachable(c, nproc, s) && s.panic == Running && 0 < |s.procs| == |s.held|
    requires s.procs[0].InOp? && |s.procs[0].logged + {x}| <= c.k && (x in Buffers(s) || |Buffers(s)| < NBUF)
    requires |s.lh| >= LOGSIZE || |s.lh| >= c.size - 1
    ensures Reachable(c, nproc, s') && s'.panic == TooBig
  {
    hide Reachable, Buffers;
    s' := Take(c, nproc, s, 0, x);
    s' := ReachStep(c, nproc, s', Guard(0, x));
  }

  lemma GuardPasses(c: Params, s: State, step: Step)
    requires Good(c, s) && !GuardReach(c) && Enabled(c, s, step) && !step.StrayGuard?
    ensures Do(c, s, step).panic != TooBig
  {
    hide Buffers;
    if step.Guard? {
      CardSubset({step.b}, s.procs[step.p].logged + {step.b});
      SumNonNegative(s.procs, Unspent(c.k), c.k);
    }
  }

  lemma GuardsWell(c: Params, s: State, p: nat, b: int)
    requires Good(c, s) && Enabled(c, s, Guard(p, b))
    ensures Good(c, Do(c, s, Guard(p, b))) && (!GuardReach(c) ==> Do(c, s, Guard(p, b)).panic == Running)
  {
    hide Good, Buffers;
    GoodStep(c, s, Guard(p, b));
    if !GuardReach(c) { GuardPasses(c, s, Guard(p, b)); }
  }

  lemma {:induction false} NeverTooBigRun(c: Params, s: State, steps: seq<Step>)
    requires Good(c, s) && Inside(steps) && Legal(c, s, steps) && s.panic == Running && !GuardReach(c)
    ensures Exec(c, s, steps).panic != TooBig
    decreases |steps|
  {
    hide Good;
    if steps != [] {
      GuardPasses(c, s, steps[0]);
      GoodStep(c, s, steps[0]);
      var s' := Do(c, s, steps[0]);
      if s'.panic == Running { NeverTooBigRun(c, s', steps[1..]); } else { assert steps[1..] == []; }
    }
  }

  // ----- when the log can be filled past its last block

  /** log_write tests lh.n before it takes the lock: two operations that both pass the test
      with room for one block both append, and the log holds log.size blocks without a panic.
      The blocks can be any in a row. */
  lemma OverrunReachable(c: Params, nproc: nat, lo: int) returns (s: State)
    requires nproc >= 2 && 2 <= c.size <= LOGSIZE && c.size <= Peak(c.k)
    ensures Reachable(c, nproc, s) && s.panic == Running && s.lh == From(lo, c.size)
    ensures |s.procs| == nproc && s.outstanding == 2 && !s.committing && NoneHeld(s)
    ensures s.procs[0].InOp? && s.procs[1].InOp?
  {
    hide Reachable;
    var a, b;
    s, a, b := FillUp(c, nproc, lo, c.size - 2, 1);
    s := BothAppend(c, nproc, s, lo, a, b);
  }

  /** Both operations pass the guard one after the other, then both append. */
  lemma BothAppend(c: Params, nproc: nat, s: State, lo: int, a: nat, b: nat) returns (s': State)
    requires 2 <= c.size <= LOGSIZE && TwoOpen(c, nproc, s, lo, c.size - 2, a, b) && a + 1 <= c.k && b + 1 <= c.k
    ensures Reachable(c, nproc, s') && s'.panic == Running && s'.lh == From(lo, c.size)
    ensures |s'.procs| == nproc && s'.outstanding == 2 && !s'.committing && NoneHeld(s')
    ensures s'.procs[0].InOp? && s'.procs[1].InOp?
  {
    hide Reachable, Buffers;
    var x, y := lo + c.size - 2, lo + c.size - 1;
    BuffersAreLogged(s);
    BuffersMore(s, 0, x);
    s' := Take(c, nproc, s, 0, x);
    s' := Take(c, nproc, s', 1, y);
    s' := PassGuard(c, nproc, s', 0, x);
    s' := PassGuard(c, nproc, s', 1, y);
    s' := Store(c, nproc, s', 0);
    s' := Store(c, nproc, s', 1);
    assert s'.lh == From(lo, c.size);
  }

  /** A running machine can collect as many blocks as the whole log area has, header included,
      exactly if that is no more than Peak; with the log mkfs makes, exactly if an operation may
      log MAXOPBLOCKS blocks. */
  lemma OverrunIff(c: Params, nproc: nat)
    requires nproc >= 2 && c.size >= 2
    ensures (exists s :: Reachable(c, nproc, s) && s.panic == Running && |s.lh| >= c.size) <==>
            c.size <= LOGSIZE && c.size <= Peak(c.k)
    ensures c.size == LOGSIZE ==>
              ((exists s :: Reachable(c, nproc, s) && s.panic == Running && |s.lh| >= c.size) <==> c.k >= MAXOPBLOCKS)
  {
    if c.size <= LOGSIZE && c.size <= Peak(c.k) {
      var s := OverrunReachable(c, nproc, 0);
    } else {
      forall s | Reachable(c, nproc, s)
        ensures |s.lh| < c.size
      {
        NoOverrun(c, nproc, s);
      }
    }
  }

  lemma NoOverrun(c: Params, nproc: nat, s: State)
    requires Reachable(c, nproc, s) && c.size >= 2 && !(c.size <= LOGSIZE && c.size <= Peak(c.k))
    ensures |s.lh| < c.size
  {
    ReachableGood(c, nproc, s);
    InHeader(s);
    if c.k <= MAXOPBLOCKS { LogSpaceReserved(c, nproc, s); }
  }

  /** A commit of NBUF blocks does not get as far as its first write: all buffers are in use. */
  lemma FullCommitStops(c: Params, nproc: nat, s: State, p: nat)
    requires Possible(c, nproc, s) && Enabled(c, s, Commit(p)) && |s.lh| >= NBUF
    ensures Do(c, s, Commit(p)) == s.(panic := NoBuffers)
  {
    HeaderHolds(c, nproc, s);
    DistinctCount(s.lh);
    CardSubset(Elements(s.lh), Buffers(s));
  }

  /** With the log mkfs makes, the overrun ends in "bget: no buffers", with no reader to blame. */
  lemma OverrunStops(c: Params, nproc: nat) returns (s: State, s': State)
    requires nproc >= 2 && c.size == LOGSIZE && c.k >= MAXOPBLOCKS
    ensures Reachable(c, nproc, s) && NoneHeld(s) && |s.lh| == c.size && Enabled(c, s, Commit(1))
    ensures Reachable(c, nproc, s') && s' == s.(panic := NoBuffers)
  {
    hide Reachable, Possible;
    s := OverrunReachable(c, nproc, 0);
    s := ReachStep(c, nproc, s, EndOp(0));
    s := ReachStep(c, nproc, s, EndOp(1));
    ReachablePossible(c, nproc, s);
    FullCommitStops(c, nproc, s, 1);
    s' := ReachStep(c, nproc, s, Commit(1));
  }

  lemma ReachablePossible(c: Params, nproc: nat, s: State)
    requires Reachable(c, nproc, s)
    ensures Possible(c, nproc, s)
  {
  }
}

/** The log and the operations that fill it, together. */
module LogCrash {
  import opened Xv6Params
  import opened DiskBlocks
  import opened LogDisk
  import GroupCommit

  /** Some interleaving of nproc processes, each operation within its budget, collects the
      blocks of t. */
  ghost predicate Collected(c: GroupCommit.Params, nproc: nat, t: Txn) {
    exists s :: GroupCommit.Reachable(c, nproc, s) && s.panic == GroupCommit.Running && s.lh == Blocks(t)
  }

  ghost predicate FromOps(c: GroupCommit.Params, nproc: nat, ev: Event) {
    (ev.Commit? || ev.CrashInCommit?) ==> Collected(c, nproc, ev.t)
  }

  /** Every history of commits that operations can bring about, with any crashes, behaves as
      an atomic disk. */
  ghost predicate CrashSafe(l: Layout, c: GroupCommit.Params, nproc: nat, d0: Disk) {
    forall evs: seq<Event>, m: Machine ::
      Reaches(l, Machine(d0, true), evs, m) && (forall i :: 0 <= i < |evs| ==> FromOps(c, nproc, evs[i]))
      ==> Represents(l, m, AtomicRun(View(l, d0), evs))
  }

  lemma CrashSafeIf(l: Layout, c: GroupCommit.Params, nproc: nat, d0: Disk)
    requires Clean(l, d0) && l.size == c.size >= 2 && (c.size >= NBUF || GroupCommit.Peak(c.k) < c.size)
    ensures CrashSafe(l, c, nproc, d0)
  {
    forall evs: seq<Event>, m: Machine | Reaches(l, Machine(d0, true), evs, m) && (forall i :: 0 <= i < |evs| ==> FromOps(c, nproc, evs[i]))
      ensures Represents(l, m, AtomicRun(View(l, d0), evs))
    {
      if l.size < NBUF {
        forall i | 0 <= i < |evs|
          ensures evs[i].Fit(l)
        {
          assert FromOps(c, nproc, evs[i]);
          if evs[i].Commit? || evs[i].CrashInCommit? {
            var s :| GroupCommit.Reachable(c, nproc, s) && s.panic == GroupCommit.Running && s.lh == Blocks(evs[i].t);
            GroupCommit.NoOverrun(c, nproc, s);
          }
        }
      }
      CrashAtomicity(l, Machine(d0, true), evs, m);
    }
  }

  /** A transaction that operations can collect and the log cannot hold: as many blocks as the
      log has, from behind it, with data other than what follows the log. */
  lemma OverrunTxn(l: Layout, c: GroupCommit.Params, nproc: nat, d0: Disk) returns (t: Txn)
    requires Clean(l, d0) && 2 <= l.size == c.size < NBUF && c.size <= GroupCommit.Peak(c.k) && nproc >= 2
    requires l.start + 2 * l.size + 1 <= |d0|
    ensures Ready(l, d0, t) && Collected(c, nproc, t) && |t| == l.size && t[l.size - 1].data != d0[l.start + l.size]
  {
    var s := GroupCommit.OverrunReachable(c, nproc, l.start + l.size + 1);
    var data := if d0[l.start + l.size] == Zero() then Ones() else Zero();
    assert Ones()[0] != Zero()[0];
    t := seq(|s.lh|, i requires 0 <= i < |s.lh| => Write(s.lh[i], data));
    assert Blocks(t) == s.lh;
  }

  lemma OverrunUnsafe(l: Layout, c: GroupCommit.Params, nproc: nat, d0: Disk)
    requires Clean(l, d0) && 2 <= l.size == c.size < NBUF && c.size <= GroupCommit.Peak(c.k) && nproc >= 2
    requires l.start + 2 * l.size + 1 <= |d0|
    ensures !CrashSafe(l, c, nproc, d0)
  {
    hide Collected, Apply, Ready, CommitWrites, View, Clean;
    var t := OverrunTxn(l, c, nproc, d0);
    OverrunNotAtomic(l, d0, t);
    var m0, ev := Machine(d0, true), CrashInCommit(t, |t|);
    var m := Step(l, m0, ev);
    ReachesOne(l, m0, ev, m);
    AtomicRunOne(View(l, d0), ev);
    assert !Represents(l, m, AtomicRun(View(l, d0), [ev]));
  }

  lemma ReachesOne(l: Layout, m0: Machine, ev: Event, m: Machine)
    requires Next(l, m0, ev, m)
    ensures Reaches(l, m0, [ev], m)
  {
    var evs := [ev];
    assert Earlier(evs) == [] && Last(evs) == ev;
    assert Reaches(l, m0, Earlier(evs), m0) && Next(l, m0, Last(evs), m);
  }

  lemma AtomicRunOne(v: Disk, ev: Event)
    ensures AtomicRun(v, [ev]) == AtomicStep(v, ev)
  {
    assert Earlier([ev]) == [];
  }

  /** For every log size and every budget: file system operations are crash safe exactly if the
      buffer cache stops a commit before it overruns the log, or operations cannot collect as many
      blocks as the log has. The log mkfs makes is on the safe side whatever operations log. */
  lemma CrashSafeIff(l: Layout, c: GroupCommit.Params, nproc: nat, d0: Disk)
    requires Clean(l, d0) && l.size == c.size >= 2 && nproc >= 2 && l.start + 2 * l.size + 1 <= |d0|
    ensures CrashSafe(l, c, nproc, d0) <==> c.size >= NBUF || GroupCommit.Peak(c.k) < c.size
    ensures c.size == LOGSIZE ==> CrashSafe(l, c, nproc, d0)
  {
    if c.size >= NBUF || GroupCommit.Peak(c.k) < c.size {
      CrashSafeIf(l, c, nproc, d0);
    } else {
      OverrunUnsafe(l, c, nproc, d0);
    }
  }
}
