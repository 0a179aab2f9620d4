/** fork, exit, wait, sleep, wakeup, kill, yield and the per-CPU schedulers as steps over
    the process table, for any number of processes and CPUs. ptable.lock passes from a
    process to the scheduler of its CPU and back; a step that leaves it held is one that
    ends in sched. */
module ExitWait {
  import opened ProcTable

  datatype Cpu = Idle | On(p: nat)
  datatype Lock = Free | Held(c: nat)

  /** finished and reaped are the pids that have gone through exit and through wait. */
  datatype State = State(procs: seq<Proc>, cpus: seq<Cpu>, lock: Lock, nextpid: nat,
                         finished: set<nat>, reaped: set<nat>)

  datatype Step =
    | Alloc(c: nat, np: nat)
    | AllocFails(c: nat)
    | SetParent(c: nat)
    | ForkDone(c: nat)
    | Exit(c: nat)
    | WaitEnter(c: nat)
    | Reap(c: nat, q: nat)
    | WaitReturns(c: nat)
    | WaitSleeps(c: nat)
    | SleepOn(c: nat, chan: int)
    | Wakeup(c: nat, chan: int)
    | Kill(c: nat, q: nat)
    | Yield(c: nat)
    | Swtch(c: nat)
    | SchedTake(c: nat)
    | SchedDrop(c: nat)
    | Pick(c: nat, q: nat)
    | Resume(c: nat)

  predicate Runs(s: State, c: nat) {
    && c < |s.cpus| && s.cpus[c].On? && s.cpus[c].p < |s.procs|
    && s.procs[s.cpus[c].p].st == RUNNING
  }

  ghost predicate Enabled(s: State, step: Step) {
    match step
    case Alloc(c, np) =>
      && Runs(s, c) && s.lock == Free && s.procs[s.cpus[c].p].code == User
      && np < |s.procs| && s.procs[np].st == UNUSED && forall k :: 0 <= k < np ==> s.procs[k].st != UNUSED
    case AllocFails(c) => Runs(s, c) && s.procs[s.cpus[c].p].code.Forking? && s.procs[s.cpus[c].p].code.np < |s.procs|
    case SetParent(c) => Runs(s, c) && s.procs[s.cpus[c].p].code.Forking? && s.procs[s.cpus[c].p].code.np < |s.procs|
    case ForkDone(c) =>
      Runs(s, c) && s.lock == Free && s.procs[s.cpus[c].p].code.Forked? && s.procs[s.cpus[c].p].code.np < |s.procs|
    case Exit(c) => Runs(s, c) && s.lock == Free && s.procs[s.cpus[c].p].code == User && s.cpus[c].p != INIT
    case WaitEnter(c) => Runs(s, c) && s.lock == Free && s.procs[s.cpus[c].p].code == User
    case Reap(c, q) =>
      && Runs(s, c) && s.lock == Held(c) && s.procs[s.cpus[c].p].code == Waiting
      && q < |s.procs| && ZombieChild(s.procs[q], s.cpus[c].p)
    case WaitReturns(c) =>
      && Runs(s, c) && s.lock == Held(c) && s.procs[s.cpus[c].p].code == Waiting
      && !HasZombie(s.procs, s.cpus[c].p)
      && (!HasChild(s.procs, s.cpus[c].p) || s.procs[s.cpus[c].p].killed)
    case WaitSleeps(c) =>
      && Runs(s, c) && s.lock == Held(c) && s.procs[s.cpus[c].p].code == Waiting
      && !HasZombie(s.procs, s.cpus[c].p)
      && HasChild(s.procs, s.cpus[c].p) && !s.procs[s.cpus[c].p].killed
    case SleepOn(c, chan) => Runs(s, c) && s.lock == Free && s.procs[s.cpus[c].p].code == User
    case Wakeup(c, chan) => Runs(s, c) && s.lock == Free && s.procs[s.cpus[c].p].code == User
    case Kill(c, q) =>
      && Runs(s, c) && s.lock == Free && s.procs[s.cpus[c].p].code == User
      && q < |s.procs| && FirstPid(s.procs, q, s.procs[q].pid)
    case Yield(c) => Runs(s, c) && s.lock == Free && !s.procs[s.cpus[c].p].code.Waiting? && !s.procs[s.cpus[c].p].code.Resuming?
    case Swtch(c) =>
      c < |s.cpus| && s.cpus[c].On? && s.cpus[c].p < |s.procs| && s.lock == Held(c) && s.procs[s.cpus[c].p].st != RUNNING
    case SchedTake(c) => c < |s.cpus| && s.cpus[c] == Idle && s.lock == Free
    case SchedDrop(c) => c < |s.cpus| && s.cpus[c] == Idle && s.lock == Held(c)
    case Pick(c, q) => c < |s.cpus| && s.cpus[c] == Idle && s.lock == Held(c) && q < |s.procs| && s.procs[q].st == RUNNABLE
    case Resume(c) => Runs(s, c) && s.lock == Held(c) && s.procs[s.cpus[c].p].code.Resuming?
  }

  /** A process that runs again. In wait, sleep returns with ptable.lock and has tidied up. */
  function Picked(x: Proc): Proc {
    x.(st := RUNNING, chan := if x.code.Waiting? then NONE else x.chan)
  }

  ghost function Do(s: State, step: Step): State
    requires Enabled(s, step)
  {
    match step
    case Alloc(c, np) =>
      var p := s.cpus[c].p;
      s.(procs := s.procs[np := s.procs[np].(st := EMBRYO, pid := s.nextpid, code := Resuming(User))]
                         [p := s.procs[p].(code := Forking(np))],
         nextpid := s.nextpid + 1)
    case AllocFails(c) =>
      var p := s.cpus[c].p;
      var np := s.procs[p].code.np;
      s.(procs := s.procs[np := s.procs[np].(st := UNUSED, code := User)][p := s.procs[p].(code := User)])
    case SetParent(c) =>
      var p := s.cpus[c].p;
      var np := s.procs[p].code.np;
      s.(procs := s.procs[np := s.procs[np].(parent := p, stack := true)][p := s.procs[p].(code := Forked(np))])
    case ForkDone(c) =>
      var p := s.cpus[c].p;
      var np := s.procs[p].code.np;
      s.(procs := s.procs[np := s.procs[np].(st := RUNNABLE)][p := s.procs[p].(code := User)])
    case Exit(c) =>
      var p := s.cpus[c].p;
      s.(procs := ProcTable.Exited(s.procs, p), lock := Held(c), finished := s.finished + {s.procs[p].pid})
    case WaitEnter(c) =>
      var p := s.cpus[c].p;
      s.(procs := s.procs[p := s.procs[p].(code := Waiting)], lock := Held(c))
    case Reap(c, q) =>
      var p := s.cpus[c].p;
      s.(procs := s.procs[q := ProcTable.Reaped(s.procs[q])][p := s.procs[p].(code := User)], lock := Free,
         reaped := s.reaped + {s.procs[q].pid})
    case WaitReturns(c) =>
      var p := s.cpus[c].p;
      s.(procs := s.procs[p := s.procs[p].(code := User)], lock := Free)
    case WaitSleeps(c) =>
      var p := s.cpus[c].p;
      s.(procs := s.procs[p := s.procs[p].(st := SLEEPING, chan := p)])
    case SleepOn(c, chan) =>
      var p := s.cpus[c].p;
      s.(procs := s.procs[p := s.procs[p].(st := SLEEPING, chan := chan, code := Resuming(User))], lock := Held(c))
    case Wakeup(c, chan) => s.(procs := Woken(s.procs, chan))
    case Kill(c, q) => s.(procs := s.procs[q := Killed(s.procs[q])])
    case Yield(c) =>
      var p := s.cpus[c].p;
      s.(procs := s.procs[p := s.procs[p].(st := RUNNABLE, code := Resuming(s.procs[p].code))], lock := Held(c))
    case Swtch(c) => s.(cpus := s.cpus[c := Idle])
    case SchedTake(c) => s.(lock := Held(c))
    case SchedDrop(c) => s.(lock := Free)
    case Pick(c, q) => s.(cpus := s.cpus[c := On(q)], procs := s.procs[q := Picked(s.procs[q])])
    case Resume(c) =>
      var p := s.cpus[c].p;
      s.(procs := s.procs[p := s.procs[p].(code := s.procs[p].code.next, chan := NONE)], lock := Free)
  }

  // ----- the invariant, in four parts

  /** The fork a process is in the middle of. */
  function Pending(code: Code): Code {
    if code.Resuming? then Pending(code.next) else code
  }

  predicate Started(x: Proc) { Alive(x) || x.st == ZOMBIE }

  /** Parents are live, and a process asleep in wait has no zombie child. */
  ghost predicate Tree(ps: seq<Proc>) {
    && |ps| > 0
    && Alive(ps[INIT])
    && (forall q :: 0 <= q < |ps| && q != INIT && Started(ps[q]) ==>
          0 <= ps[q].parent < |ps| && ps[q].parent != q && Alive(ps[ps[q].parent]))
    && (forall p, q :: 0 <= p < |ps| && 0 <= q < |ps| && ps[p].st == SLEEPING && ps[p].code == Waiting ==>
          ps[p].chan == p && !ZombieChild(ps[q], p))
  }

  /** The slot a process is forking into, and whether it has set its parent yet. */
  function ForkSlot(x: Proc): int {
    if Pending(x.code).Forking? || Pending(x.code).Forked? then Pending(x.code).np else NONE
  }

  predicate ParentSet(x: Proc) { Pending(x.code).Forked? }

  predicate Blank(x: Proc) { x.st == UNUSED || x.st == EMBRYO }

  /** A slot being forked belongs to the process that forks it and to no other. */
  ghost predicate Forks(ps: seq<Proc>) {
    && (forall p :: 0 <= p < |ps| && ForkSlot(ps[p]) != NONE ==>
          && 0 <= ForkSlot(ps[p]) < |ps| && ps[ForkSlot(ps[p])].st == EMBRYO
          && (ps[p].st == RUNNING || ps[p].st == RUNNABLE)
          && ps[ForkSlot(ps[p])].parent == (if ParentSet(ps[p]) then p else NONE)
          && (ParentSet(ps[p]) ==> ps[ForkSlot(ps[p])].stack))
    && (forall p, q :: 0 <= p < q < |ps| && ForkSlot(ps[p]) != NONE ==> ForkSlot(ps[p]) != ForkSlot(ps[q]))
    && (forall q :: 0 <= q < |ps| && ps[q].st == UNUSED ==> ps[q].parent == NONE)
    && (forall q :: 0 <= q < |ps| && ps[q].st == EMBRYO ==>
          || ps[q].parent == NONE
          || (0 <= ps[q].parent < |ps| && ForkSlot(ps[ps[q].parent]) == q && ParentSet(ps[ps[q].parent])))
  }

  /** Steps outside fork keep it. */
  lemma ForksKept(ps: seq<Proc>, r: seq<Proc>)
    requires Forks(ps) && |r| == |ps|
    requires forall i :: 0 <= i < |ps| ==> ForkSlot(r[i]) == ForkSlot(ps[i]) && ParentSet(r[i]) == ParentSet(ps[i])
    requires forall i :: 0 <= i < |ps| && (Blank(ps[i]) || Blank(r[i])) ==>
               r[i].st == ps[i].st && r[i].parent == ps[i].parent && r[i].stack == ps[i].stack
    requires forall i :: 0 <= i < |ps| && ForkSlot(ps[i]) != NONE ==> r[i].st == RUNNING || r[i].st == RUNNABLE
    ensures Forks(r)
  {
  }

  /** A CPU runs on an allocated stack, of a process that is RUNNING unless the CPU is
      still on its way to the scheduler with the lock. */
  ghost predicate Stacks(s: State) {
    && (s.lock.Held? ==> s.lock.c < |s.cpus|)
    && (forall q :: 0 <= q < |s.procs| && Started(s.procs[q]) ==> s.procs[q].stack)
    && (forall c :: 0 <= c < |s.cpus| && s.cpus[c].On? ==>
          && s.cpus[c].p < |s.procs| && Started(s.procs[s.cpus[c].p])
          && (s.procs[s.cpus[c].p].st == RUNNING || s.lock == Held(c)))
    && (forall c, d :: 0 <= c < d < |s.cpus| && s.cpus[c].On? ==> s.cpus[c] != s.cpus[d])
  }

  /** Pids are given once; a finished pid is a zombie's or has been reaped, never both. */
  ghost predicate Pids(s: State) {
    && (forall q :: 0 <= q < |s.procs| && s.procs[q].st != UNUSED ==> s.procs[q].pid < s.nextpid)
    && (forall q, r :: 0 <= q < r < |s.procs| && s.procs[q].st != UNUSED && s.procs[r].st != UNUSED ==>
          s.procs[q].pid != s.procs[r].pid)
    && (forall x :: x in s.finished ==> x < s.nextpid)
    && s.reaped <= s.finished
    && (forall q :: 0 <= q < |s.procs| && s.procs[q].st == ZOMBIE ==>
          s.procs[q].pid in s.finished && s.procs[q].pid !in s.reaped)
    && (forall q :: 0 <= q < |s.procs| && (Alive(s.procs[q]) || s.procs[q].st == EMBRYO) ==> s.procs[q].pid !in s.finished)
    && (forall x :: x in s.finished && x !in s.reaped ==>
          exists q :: 0 <= q < |s.procs| && s.procs[q].st == ZOMBIE && s.procs[q].pid == x)
  }

  ghost predicate Inv(s: State) {
    Tree(s.procs) && Forks(s.procs) && Stacks(s) && Pids(s)
  }

  // ----- exit

  /** What exit does to each slot. */
  lemma ExitedAt(ps: seq<Proc>, p: nat, i: nat)
    requires p < |ps| && i < |ps| && ps[p].st == RUNNING
    ensures var r := ProcTable.Exited(ps, p);
            && r[i].pid == ps[i].pid && r[i].stack == ps[i].stack && r[i].code == ps[i].code && r[i].chan == ps[i].chan
            && r[i].parent == (if ps[i].parent == p then INIT else ps[i].parent)
            && (i == p ==> r[i].st == ZOMBIE)
            && (i != p ==> r[i].st == ps[i].st || (ps[i].st == SLEEPING && r[i].st == RUNNABLE))
            && (i != p && ps[i].st == SLEEPING && ps[i].chan == ps[p].parent ==> r[i].st == RUNNABLE)
            && (i != p && ps[i].st == SLEEPING && ps[i].chan == INIT && HasZombie(ps, p) ==> r[i].st == RUNNABLE)
  {
    var ps1 := Woken(ps, ps[p].parent);
    if k :| 0 <= k < |ps| && ZombieChild(ps[k], p) {
      assert ZombieChild(ps1[k], p);
    }
  }

  lemma ExitTree(ps: seq<Proc>, p: nat)
    requires Tree(ps) && p < |ps| && p != INIT && ps[p].st == RUNNING
    ensures Tree(ProcTable.Exited(ps, p))
  {
    hide ProcTable.Exited;
    var r := ProcTable.Exited(ps, p);
    forall i | 0 <= i < |ps|
      ensures i != p && Alive(ps[i]) ==> Alive(r[i])
    {
      ExitedAt(ps, p, i);
    }
    forall q | 0 <= q < |r| && q != INIT && Started(r[q])
      ensures 0 <= r[q].parent < |r| && r[q].parent != q && Alive(r[r[q].parent])
    {
      ExitedAt(ps, p, q);
    }
    forall a, q | 0 <= a < |r| && 0 <= q < |r| && r[a].st == SLEEPING && r[a].code == Waiting
      ensures r[a].chan == a && !ZombieChild(r[q], a)
    {
      ExitedAt(ps, p, a);
      ExitedAt(ps, p, q);
      if q != p && ps[q].st == ZOMBIE { assert ZombieChild(ps[q], ps[q].parent); }
    }
  }

  lemma ExitForks(ps: seq<Proc>, p: nat)
    requires Tree(ps) && Forks(ps) && p < |ps| && p != INIT && ps[p].st == RUNNING && ps[p].code == User
    ensures Forks(ProcTable.Exited(ps, p))
  {
    hide ProcTable.Exited;
    var r := ProcTable.Exited(ps, p);
    forall i | 0 <= i < |ps|
      ensures ForkSlot(r[i]) == ForkSlot(ps[i]) && ParentSet(r[i]) == ParentSet(ps[i])
      ensures Blank(ps[i]) || Blank(r[i]) ==> r[i].st == ps[i].st && r[i].parent == ps[i].parent && r[i].stack == ps[i].stack
      ensures ForkSlot(ps[i]) != NONE ==> r[i].st == RUNNING || r[i].st == RUNNABLE
    {
      ExitedAt(ps, p, i);
      assert ForkSlot(ps[p]) == NONE;
    }
    ForksKept(ps, r);
  }

  /** What exit leaves of each slot. */
  lemma ExitSlots(s: State, c: nat)
    requires Enabled(s, Exit(c))
    ensures c < |s.cpus| && s.cpus[c].On?
    ensures var s', p := Do(s, Exit(c)), s.cpus[c].p;
            && |s'.procs| == |s.procs| && p < |s.procs| && s.procs[p].st == RUNNING
            && s'.nextpid == s.nextpid && s'.reaped == s.reaped && s'.finished == s.finished + {s.procs[p].pid}
            && forall i :: 0 <= i < |s.procs| ==>
                 && s'.procs[i].pid == s.procs[i].pid && s'.procs[i].stack == s.procs[i].stack
                 && (i == p ==> s'.procs[i].st == ZOMBIE)
                 && (i != p ==> s'.procs[i].st == s.procs[i].st || (s.procs[i].st == SLEEPING && s'.procs[i].st == RUNNABLE))
  {
    hide ProcTable.Exited;
    var s', p := Do(s, Exit(c)), s.cpus[c].p;
    forall i | 0 <= i < |s.procs|
      ensures s'.procs[i].pid == s.procs[i].pid && s'.procs[i].stack == s.procs[i].stack
      ensures i == p ==> s'.procs[i].st == ZOMBIE
      ensures i != p ==> s'.procs[i].st == s.procs[i].st || (s.procs[i].st == SLEEPING && s'.procs[i].st == RUNNABLE)
    {
      ExitedAt(s.procs, p, i);
    }
  }

  lemma ExitStacks(s: State, c: nat)
    requires Inv(s) && Enabled(s, Exit(c))
    ensures Stacks(Do(s, Exit(c)))
  {
    hide ProcTable.Exited, Tree, Forks, Pids;
    ExitSlots(s, c);
  }

  lemma ExitPids(s: State, c: nat)
    requires Inv(s) && Enabled(s, Exit(c))
    ensures Pids(Do(s, Exit(c)))
  {
    hide Do, Tree, Forks, Stacks, Enabled;
    ExitSlots(s, c);
    var s', p := Do(s, Exit(c)), s.cpus[c].p;
    forall x | x in s'.finished && x !in s'.reaped
      ensures exists q :: 0 <= q < |s'.procs| && s'.procs[q].st == ZOMBIE && s'.procs[q].pid == x
    {
      if x == s.procs[p].pid {
        assert s'.procs[p].st == ZOMBIE;
      } else {
        var q :| 0 <= q < |s.procs| && s.procs[q].st == ZOMBIE && s.procs[q].pid == x;
        assert s'.procs[q].st == ZOMBIE;
      }
    }
  }

  lemma InvExit(s: State, c: nat)
    requires Inv(s) && Enabled(s, Exit(c))
    ensures Inv(Do(s, Exit(c)))
  {
    ExitTree(s.procs, s.cpus[c].p);
    ExitForks(s.procs, s.cpus[c].p);
    ExitStacks(s, c);
    ExitPids(s, c);
  }

  // ----- reaping

  /** A zombie being reaped has no CPU on its stack. */
  lemma ZombieStackIdle(s: State, c: nat, q: nat)
    requires Inv(s) && Enabled(s, Reap(c, q))
    ensures forall d :: 0 <= d < |s.cpus| ==> s.cpus[d] != On(q)
  {
  }

  lemma ReapTree(ps: seq<Proc>, p: nat, q: nat, r: seq<Proc>)
    requires Tree(ps) && p < |ps| && q < |ps| && ps[p].st == RUNNING && ps[q].st == ZOMBIE
    requires r == ps[q := ProcTable.Reaped(ps[q])][p := ps[p].(code := User)]
    ensures Tree(r)
  {
    hide Tree, HasZombie;
    SleeperChan(ps);
    TreeKept(ps, r);
  }

  lemma ReapForks(ps: seq<Proc>, p: nat, q: nat, r: seq<Proc>)
    requires Forks(ps) && p < |ps| && q < |ps| && |r| == |ps|
    requires ps[p].st == RUNNING && r[p].st == RUNNING && ForkSlot(ps[p]) == NONE && ForkSlot(r[p]) == NONE
    requires ps[q].st == ZOMBIE && r[q].st == UNUSED && r[q].parent == NONE && ForkSlot(r[q]) == NONE
    requires forall i :: 0 <= i < |ps| && i != p && i != q ==> r[i] == ps[i]
    ensures Forks(r)
  {
    hide ForkSlot, ParentSet;
    assert ForkSlot(ps[q]) == NONE;
  }

  lemma ReapStacks(s: State, c: nat, q: nat)
    requires Inv(s) && Enabled(s, Reap(c, q))
    ensures Stacks(Do(s, Reap(c, q)))
  {
    hide Tree, Forks, Pids;
    ZombieStackIdle(s, c, q);
  }

  lemma ReapSlots(s: State, c: nat, q: nat)
    requires Enabled(s, Reap(c, q))
    ensures var s' := Do(s, Reap(c, q));
            && |s'.procs| == |s.procs| && q < |s.procs| && s.procs[q].st == ZOMBIE && s'.procs[q].st == UNUSED
            && s'.nextpid == s.nextpid && s'.finished == s.finished && s'.reaped == s.reaped + {s.procs[q].pid}
            && forall i :: 0 <= i < |s.procs| && i != q ==> s'.procs[i].pid == s.procs[i].pid && s'.procs[i].st == s.procs[i].st
  {
  }

  lemma ReapPids(s: State, c: nat, q: nat)
    requires Inv(s) && Enabled(s, Reap(c, q))
    ensures Pids(Do(s, Reap(c, q)))
  {
    hide Do, Tree, Forks, Stacks, Enabled;
    ReapSlots(s, c, q);
    var s' := Do(s, Reap(c, q));
    forall x | x in s'.finished && x !in s'.reaped
      ensures exists r :: 0 <= r < |s'.procs| && s'.procs[r].st == ZOMBIE && s'.procs[r].pid == x
    {
      var r :| 0 <= r < |s.procs| && s.procs[r].st == ZOMBIE && s.procs[r].pid == x;
      assert s'.procs[r].st == ZOMBIE;
    }
  }

  lemma InvReap(s: State, c: nat, q: nat)
    requires Inv(s) && Enabled(s, Reap(c, q))
    ensures Inv(Do(s, Reap(c, q)))
  {
    hide Tree, Forks, Stacks, Pids;
    var p := s.cpus[c].p;
    ReapTree(s.procs, p, q, Do(s, Reap(c, q)).procs);
    ReapForks(s.procs, p, q, Do(s, Reap(c, q)).procs);
    ReapStacks(s, c, q);
    ReapPids(s, c, q);
  }

  // ----- every other step

  lemma TreeKept(ps: seq<Proc>, r: seq<Proc>)
    requires Tree(ps) && |r| == |ps|
    requires forall i :: 0 <= i < |ps| ==>
               && (Alive(ps[i]) ==> Alive(r[i]))
               && (Started(r[i]) ==> Started(ps[i]) && r[i].parent == ps[i].parent)
               && (r[i].st == ZOMBIE ==> ps[i].st == ZOMBIE)
               && (r[i].st == SLEEPING && r[i].code == Waiting ==>
                     && r[i].chan == i
                     && (!(ps[i].st == SLEEPING && ps[i].code == Waiting) ==> !HasZombie(ps, i)))
    ensures Tree(r)
  {
    forall p, q | 0 <= p < |r| && 0 <= q < |r| && r[p].st == SLEEPING && r[p].code == Waiting
      ensures r[p].chan == p && !ZombieChild(r[q], p)
    {
      if ZombieChild(r[q], p) { assert ZombieChild(ps[q], p); }
    }
  }

  /** A step of the process on CPU c that keeps to its own slot, blank slots, and waking. */
  lemma StacksKept(s: State, s': State, c: nat)
    requires Stacks(s) && s'.cpus == s.cpus && |s'.procs| == |s.procs|
    requires Runs(s, c)
    requires s'.lock == s.lock || (s.lock in {Free, Held(c)} && s'.lock in {Free, Held(c)})
    requires var p := s.cpus[c].p;
             && Alive(s'.procs[p]) && s'.procs[p].stack == s.procs[p].stack
             && (s'.procs[p].st == RUNNING || s'.lock == Held(c))
    requires forall i :: 0 <= i < |s.procs| && i != s.cpus[c].p ==>
               && (s.procs[i].st == RUNNING ==> s'.procs[i].st == RUNNING)
               && (Started(s.procs[i]) ==> Started(s'.procs[i]))
               && (Started(s'.procs[i]) ==> s'.procs[i].stack)
    ensures Stacks(s')
  {
  }

  lemma PidsKept(s: State, s': State)
    requires Pids(s) && |s'.procs| == |s.procs|
    requires s'.nextpid == s.nextpid && s'.finished == s.finished && s'.reaped == s.reaped
    requires forall i :: 0 <= i < |s.procs| ==>
               && (s'.procs[i].st != UNUSED ==> s.procs[i].st != UNUSED && s'.procs[i].pid == s.procs[i].pid)
               && (s'.procs[i].st == ZOMBIE <==> s.procs[i].st == ZOMBIE)
    ensures Pids(s')
  {
    forall x | x in s'.finished && x !in s'.reaped
      ensures exists q :: 0 <= q < |s'.procs| && s'.procs[q].st == ZOMBIE && s'.procs[q].pid == x
    {
      var q :| 0 <= q < |s.procs| && s.procs[q].st == ZOMBIE && s.procs[q].pid == x;
      assert s'.procs[q].st == ZOMBIE;
    }
  }

  lemma ForkKeeps(s: State, s': State, c: nat, np: nat)
    requires Inv(s) && Runs(s, c) && s'.cpus == s.cpus && s'.lock == s.lock && |s'.procs| == |s.procs|
    requires s'.nextpid == s.nextpid && s'.finished == s.finished && s'.reaped == s.reaped
    requires np < |s.procs| && ForkSlot(s.procs[s.cpus[c].p]) == np
    requires var (p, x, y) := (s.cpus[c].p, s.procs[np], s'.procs[np]);
             && s'.procs[p].(code := s.procs[p].code) == s.procs[p]
             && (p == np || ForkSlot(y) == ForkSlot(x)) && y.pid == x.pid
             && (|| (ForkSlot(s'.procs[p]) == np && ParentSet(s'.procs[p]) && y.st == x.st && y.parent == p && y.stack)
                 || (ForkSlot(s'.procs[p]) == NONE && y.st == RUNNABLE && ParentSet(s.procs[p]) && y.parent == x.parent && y.stack == x.stack)
                 || (ForkSlot(s'.procs[p]) == NONE && y.st == UNUSED && !ParentSet(s.procs[p]) && y.parent == x.parent))
    requires forall i :: 0 <= i < |s.procs| && i != s.cpus[c].p && i != np ==> s'.procs[i] == s.procs[i]
    ensures Inv(s')
  {
    hide Tree, Forks, ForkSlot, ParentSet, Stacks, Pids;
    var p := s.cpus[c].p;
    ForkFacts(s.procs, p);
    InitAlive(s.procs);
    ForkStepForks(s.procs, s'.procs, p, np);
    ForkStepTree(s.procs, s'.procs, p, np);
    ForkStacks(s, s', c, np);
    PidsKept(s, s');
  }

  lemma ForkStacks(s: State, s': State, c: nat, np: nat)
    requires Stacks(s) && Runs(s, c) && s'.cpus == s.cpus && s'.lock == s.lock && |s'.procs| == |s.procs|
    requires np < |s.procs| && np != s.cpus[c].p && s.procs[np].st == EMBRYO && (Started(s'.procs[np]) ==> s'.procs[np].stack)
    requires s'.procs[s.cpus[c].p].(code := s.procs[s.cpus[c].p].code) == s.procs[s.cpus[c].p]
    requires forall i :: 0 <= i < |s.procs| && i != s.cpus[c].p && i != np ==> s'.procs[i] == s.procs[i]
    ensures Stacks(s')
  {
    hide Stacks;
    StartedStack(s);
    StacksKept(s, s', c);
  }

  lemma ForkFacts(ps: seq<Proc>, p: nat)
    requires Forks(ps) && p < |ps| && ForkSlot(ps[p]) != NONE
    ensures 0 <= ForkSlot(ps[p]) < |ps| && ForkSlot(ps[p]) != p
    ensures var np := ForkSlot(ps[p]);
            && ps[np].st == EMBRYO && ForkSlot(ps[np]) == NONE
            && ps[np].parent == (if ParentSet(ps[p]) then p else NONE)
            && (ParentSet(ps[p]) ==> ps[np].stack)
  {
  }

  lemma InitAlive(ps: seq<Proc>)
    requires Tree(ps)
    ensures |ps| > 0 && Alive(ps[INIT])
  {
  }

  lemma StartedStack(s: State)
    requires Stacks(s)
    ensures forall q :: 0 <= q < |s.procs| && Started(s.procs[q]) ==> s.procs[q].stack
  {
  }

  /** In fork, slot np gets its parent, or becomes runnable, or is given back. */
  lemma ForkStepForks(ps: seq<Proc>, r: seq<Proc>, p: nat, np: nat)
    requires Forks(ps) && |r| == |ps| && p < |ps| && np < |ps| && p != np && ForkSlot(ps[p]) == np
    requires forall i :: 0 <= i < |ps| && i != p && i != np ==> r[i] == ps[i]
    requires r[p].st == RUNNING && ForkSlot(r[np]) == NONE && ForkSlot(ps[np]) == NONE
    requires || (ForkSlot(r[p]) == np && ParentSet(r[p]) && r[np].st == EMBRYO && r[np].parent == p && r[np].stack)
             || (ForkSlot(r[p]) == NONE && !Blank(r[np]))
             || (ForkSlot(r[p]) == NONE && r[np].st == UNUSED && r[np].parent == NONE)
    requires !Blank(ps[p])
    ensures Forks(r)
  {
    hide ForkSlot, ParentSet;
  }

  lemma ForkStepTree(ps: seq<Proc>, r: seq<Proc>, p: nat, np: nat)
    requires Tree(ps) && |r| == |ps| && p < |ps| && np < |ps| && p != np && np != INIT
    requires forall i :: 0 <= i < |ps| && i != p && i != np ==> r[i] == ps[i]
    requires ps[np].st == EMBRYO && ps[p].st == RUNNING && r[p].st == RUNNING && r[p].parent == ps[p].parent
    requires Blank(r[np]) || (r[np].st == RUNNABLE && r[np].parent == p)
    ensures Tree(r)
  {
    assert Alive(ps[p]) && Alive(r[p]);
    forall q | 0 <= q < |r| && q != INIT && Started(r[q])
      ensures 0 <= r[q].parent < |r| && r[q].parent != q && Alive(r[r[q].parent])
    {
      if q != np { assert Started(ps[q]) && Alive(ps[ps[q].parent]); }
    }
    forall x, q | 0 <= x < |r| && 0 <= q < |r| && r[x].st == SLEEPING && r[x].code == Waiting
      ensures r[x].chan == x && !ZombieChild(r[q], x)
    {
      assert ps[x].chan == x && !ZombieChild(ps[q], x);
    }
    hide Tree;
    TreeIs(r);
  }

  lemma TreeIs(ps: seq<Proc>)
    requires |ps| > 0 && Alive(ps[INIT])
    requires forall q :: 0 <= q < |ps| && q != INIT && Started(ps[q]) ==>
               0 <= ps[q].parent < |ps| && ps[q].parent != q && Alive(ps[ps[q].parent])
    requires forall p, q :: 0 <= p < |ps| && 0 <= q < |ps| && ps[p].st == SLEEPING && ps[p].code == Waiting ==>
               ps[p].chan == p && !ZombieChild(ps[q], p)
    ensures Tree(ps)
  {
  }

  lemma AllocForks(ps: seq<Proc>, r: seq<Proc>, p: nat, np: nat)
    requires Forks(ps) && |r| == |ps| && p < |ps| && np < |ps| && p != np
    requires forall i :: 0 <= i < |ps| && i != p && i != np ==> r[i] == ps[i]
    requires ForkSlot(ps[p]) == NONE && ForkSlot(r[p]) == np && !ParentSet(r[p])
    requires ps[p].st == r[p].st == RUNNING
    requires ps[np].st == UNUSED && r[np].st == EMBRYO && r[np].parent == ps[np].parent && ForkSlot(r[np]) == NONE
    ensures Forks(r)
  {
    hide ForkSlot, ParentSet;
    assert ForkSlot(ps[np]) == NONE;
  }

  lemma AllocTree(ps: seq<Proc>, r: seq<Proc>, p: nat, np: nat)
    requires Tree(ps) && |r| == |ps| && p < |ps| && np < |ps| && p != np
    requires ps[p].st == r[p].st == RUNNING && r[p].parent == ps[p].parent
    requires ps[np].st == UNUSED && r[np].st == EMBRYO
    requires forall i :: 0 <= i < |ps| && i != p && i != np ==> r[i] == ps[i]
    ensures Tree(r)
  {
    hide Tree, HasZombie;
    SleeperChan(ps);
    TreeKept(ps, r);
  }

  lemma AllocStacks(s: State, s': State, c: nat, np: nat)
    requires Stacks(s) && Runs(s, c) && s'.cpus == s.cpus && s'.lock == s.lock && |s'.procs| == |s.procs|
    requires np < |s.procs| && np != s.cpus[c].p && s.procs[np].st == UNUSED && s'.procs[np].st == EMBRYO
    requires s.procs[s.cpus[c].p].st == RUNNING && s'.procs[s.cpus[c].p].(code := s.procs[s.cpus[c].p].code) == s.procs[s.cpus[c].p]
    requires forall i :: 0 <= i < |s.procs| && i != s.cpus[c].p && i != np ==> s'.procs[i] == s.procs[i]
    ensures Stacks(s')
  {
    hide Stacks;
    StartedStack(s);
    StacksKept(s, s', c);
  }

  lemma AllocKeeps(s: State, s': State, c: nat, np: nat)
    requires Inv(s) && Runs(s, c) && s'.cpus == s.cpus && s'.lock == s.lock && |s'.procs| == |s.procs|
    requires s'.nextpid == s.nextpid + 1 && s'.finished == s.finished && s'.reaped == s.reaped
    requires np < |s.procs| && s.procs[np].st == UNUSED && ForkSlot(s.procs[s.cpus[c].p]) == NONE
    requires var (p, x, y) := (s.cpus[c].p, s.procs[np], s'.procs[np]);
             && s'.procs[p].(code := s.procs[p].code) == s.procs[p]
             && ForkSlot(s'.procs[p]) == np && !ParentSet(s'.procs[p]) && !s'.procs[p].code.Waiting?
             && ForkSlot(y) == NONE && y.st == EMBRYO && y.pid == s.nextpid && y.parent == x.parent
    requires forall i :: 0 <= i < |s.procs| && i != s.cpus[c].p && i != np ==> s'.procs[i] == s.procs[i]
    ensures Inv(s')
  {
    var p := s.cpus[c].p;
    hide Forks, ForkSlot, ParentSet, Stacks, Pids, Tree;
    AllocForks(s.procs, s'.procs, p, np);
    AllocTree(s.procs, s'.procs, p, np);
    AllocStacks(s, s', c, np);
    AllocPids(s, s', p, np);
  }

  lemma AllocPids(s: State, s': State, p: nat, np: nat)
    requires Pids(s) && |s'.procs| == |s.procs| && p < |s.procs| && np < |s.procs| && p != np
    requires s'.nextpid == s.nextpid + 1 && s'.finished == s.finished && s'.reaped == s.reaped
    requires s'.procs[p].st == s.procs[p].st == RUNNING && s'.procs[p].pid == s.procs[p].pid
    requires s.procs[np].st == UNUSED && s'.procs[np].st == EMBRYO && s'.procs[np].pid == s.nextpid
    requires forall i :: 0 <= i < |s.procs| && i != p && i != np ==> s'.procs[i] == s.procs[i]
    ensures Pids(s')
  {
    forall x | x in s'.finished && x !in s'.reaped
      ensures exists q :: 0 <= q < |s'.procs| && s'.procs[q].st == ZOMBIE && s'.procs[q].pid == x
    {
      var q :| 0 <= q < |s.procs| && s.procs[q].st == ZOMBIE && s.procs[q].pid == x;
      assert s'.procs[q] == s.procs[q];
    }
  }

  /** What a step that touches neither fork nor exit nor a zombie may do to slot i. */
  ghost predicate LocalSlot(ps: seq<Proc>, r: seq<Proc>, p: nat, i: nat)
    requires |r| == |ps| && i < |ps|
  {
    var (x, y) := (ps[i], r[i]);
    && (Alive(x) <==> Alive(y)) && (!Alive(x) ==> y.st == x.st)
    && y.parent == x.parent && y.pid == x.pid && y.stack == x.stack
    && (i != p && x.st == RUNNING ==> y.st == RUNNING)
    && ForkSlot(y) == ForkSlot(x) && ParentSet(y) == ParentSet(x)
    && (ForkSlot(x) != NONE ==> y.st == RUNNING || y.st == RUNNABLE)
    && (y.st == SLEEPING && y.code == Waiting ==>
          y.chan == i && (!(x.st == SLEEPING && x.code == Waiting) ==> !HasZombie(ps, i)))
  }

  lemma LocalKeeps(s: State, s': State, c: nat)
    requires Inv(s) && Runs(s, c) && s'.cpus == s.cpus && |s'.procs| == |s.procs|
    requires s'.nextpid == s.nextpid && s'.finished == s.finished && s'.reaped == s.reaped
    requires s'.lock == s.lock || (s.lock in {Free, Held(c)} && s'.lock in {Free, Held(c)})
    requires s'.procs[s.cpus[c].p].st == RUNNING || s'.lock == Held(c)
    requires forall i :: 0 <= i < |s.procs| ==> LocalSlot(s.procs, s'.procs, s.cpus[c].p, i)
    ensures Inv(s')
  {
    hide Tree, Forks, Stacks, Pids, ForkSlot, ParentSet;
    StartedStack(s);
    forall i | 0 <= i < |s.procs|
      ensures var (x, y) := (s.procs[i], s'.procs[i]);
              && (Alive(x) <==> Alive(y)) && (!Alive(x) ==> y.st == x.st)
              && y.parent == x.parent && y.pid == x.pid && y.stack == x.stack
              && (i != s.cpus[c].p && x.st == RUNNING ==> y.st == RUNNING)
      ensures ForkSlot(s'.procs[i]) == ForkSlot(s.procs[i]) && ParentSet(s'.procs[i]) == ParentSet(s.procs[i])
      ensures ForkSlot(s.procs[i]) != NONE ==> s'.procs[i].st == RUNNING || s'.procs[i].st == RUNNABLE
      ensures s'.procs[i].st == SLEEPING && s'.procs[i].code == Waiting ==>
                s'.procs[i].chan == i && (!(s.procs[i].st == SLEEPING && s.procs[i].code == Waiting) ==> !HasZombie(s.procs, i))
    {
      assert LocalSlot(s.procs, s'.procs, s.cpus[c].p, i);
    }
    hide LocalSlot;
    TreeKept(s.procs, s'.procs);
    ForksKept(s.procs, s'.procs);
    StacksKept(s, s', c);
    PidsKept(s, s');
  }

  /** Slots that stay as they are, or whose process is woken. */
  lemma QuietSlots(ps: seq<Proc>, r: seq<Proc>, p: nat)
    requires Tree(ps) && Forks(ps) && |r| == |ps|
    requires forall i :: 0 <= i < |ps| && i != p ==>
               || r[i] == ps[i]
               || (ps[i].st == SLEEPING && r[i].st == RUNNABLE && r[i].parent == ps[i].parent && r[i].pid == ps[i].pid
                   && r[i].stack == ps[i].stack && r[i].code == ps[i].code)
               || (ps[i].st == r[i].st && r[i].st != SLEEPING && r[i].parent == ps[i].parent && r[i].pid == ps[i].pid
                   && r[i].stack == ps[i].stack && r[i].code == ps[i].code)
    ensures forall i :: 0 <= i < |ps| && i != p ==> LocalSlot(ps, r, p, i)
  {
    hide Pending;
    forall i | 0 <= i < |ps| && i != p
      ensures LocalSlot(ps, r, p, i)
    {
      assert ps[i].st == SLEEPING && ps[i].code == Waiting ==> ps[i].chan == i;
    }
  }

  /** The steps that change the running process only, and perhaps the lock. */
  lemma OwnKeeps(s: State, c: nat, y: Proc, lock: Lock)
    requires Inv(s) && Runs(s, c)
    requires lock == s.lock || (s.lock in {Free, Held(c)} && lock in {Free, Held(c)})
    requires Alive(y) && (y.st == RUNNING || lock == Held(c))
    requires var (p, x) := (s.cpus[c].p, s.procs[s.cpus[c].p]);
             && y.parent == x.parent && y.pid == x.pid && y.stack == x.stack
             && ForkSlot(y) == ForkSlot(x) && ParentSet(y) == ParentSet(x) && (ForkSlot(x) != NONE ==> y.st != SLEEPING)
             && (y.st == SLEEPING && y.code == Waiting ==> y.chan == p && !HasZombie(s.procs, p))
    ensures Inv(s.(procs := s.procs[s.cpus[c].p := y], lock := lock))
  {
    var p := s.cpus[c].p;
    var s' := s.(procs := s.procs[p := y], lock := lock);
    QuietSlots(s.procs, s'.procs, p);
    hide Inv, Pending;
    LocalKeeps(s, s', c);
  }

  lemma OthersKeep(s: State, c: nat, r: seq<Proc>)
    requires Inv(s) && Runs(s, c) && |r| == |s.procs|
    requires forall i :: 0 <= i < |r| ==>
               && (r[i].st == s.procs[i].st || (s.procs[i].st == SLEEPING && r[i].st == RUNNABLE))
               && r[i].parent == s.procs[i].parent && r[i].pid == s.procs[i].pid
               && r[i].stack == s.procs[i].stack && r[i].code == s.procs[i].code && r[i].chan == s.procs[i].chan
    ensures Inv(s.(procs := r))
  {
    hide Forks, Stacks, Pids, Tree, HasZombie;
    SleeperChan(s.procs);
    ForkersRun(s.procs);
    forall i | 0 <= i < |r|
      ensures LocalSlot(s.procs, r, s.cpus[c].p, i)
    {
    }
    hide Inv;
    LocalKeeps(s, s.(procs := r), c);
  }

  lemma PickKeeps(s: State, c: nat, q: nat)
    requires Inv(s) && c < |s.cpus| && s.cpus[c] == Idle && s.lock == Held(c) && q < |s.procs| && s.procs[q].st == RUNNABLE
    ensures Inv(s.(cpus := s.cpus[c := On(q)], procs := s.procs[q := Picked(s.procs[q])]))
  {
    hide Tree, Forks, Pids, Stacks;
    var s' := s.(cpus := s.cpus[c := On(q)], procs := s.procs[q := Picked(s.procs[q])]);
    PickProcs(s.procs, q);
    PickStacks(s, c, q);
    PidsKept(s, s');
  }

  lemma PickProcs(ps: seq<Proc>, q: nat)
    requires Tree(ps) && Forks(ps) && q < |ps| && ps[q].st == RUNNABLE
    ensures Tree(ps[q := Picked(ps[q])]) && Forks(ps[q := Picked(ps[q])])
  {
    hide Tree, Forks, Pending;
    var r := ps[q := Picked(ps[q])];
    SleeperChan(ps);
    ForkersRun(ps);
    assert ForkSlot(r[q]) == ForkSlot(ps[q]) && ParentSet(r[q]) == ParentSet(ps[q]);
    hide ForkSlot, ParentSet;
    forall i | 0 <= i < |ps|
      ensures r[i].parent == ps[i].parent && r[i].stack == ps[i].stack
      ensures ForkSlot(r[i]) == ForkSlot(ps[i]) && ParentSet(r[i]) == ParentSet(ps[i])
      ensures i != q ==> r[i] == ps[i]
    {
    }
    ForksKept(ps, r);
    TreeKept(ps, r);
  }

  lemma PickStacks(s: State, c: nat, q: nat)
    requires Stacks(s) && c < |s.cpus| && s.cpus[c] == Idle && s.lock == Held(c) && q < |s.procs| && s.procs[q].st == RUNNABLE
    ensures Stacks(s.(cpus := s.cpus[c := On(q)], procs := s.procs[q := Picked(s.procs[q])]))
  {
  }

  lemma SleeperChan(ps: seq<Proc>)
    requires Tree(ps)
    ensures forall i :: 0 <= i < |ps| && ps[i].st == SLEEPING && ps[i].code == Waiting ==> ps[i].chan == i
  {
    forall i | 0 <= i < |ps| && ps[i].st == SLEEPING && ps[i].code == Waiting
      ensures ps[i].chan == i
    {
      assert !ZombieChild(ps[i], i);
    }
  }

  lemma ForkersRun(ps: seq<Proc>)
    requires Forks(ps)
    ensures forall i :: 0 <= i < |ps| && ForkSlot(ps[i]) != NONE ==> ps[i].st == RUNNING || ps[i].st == RUNNABLE
  {
  }

  lemma SchedKeeps(s: State, s': State, c: nat)
    requires Inv(s) && c < |s.cpus| && s'.procs == s.procs && |s'.cpus| == |s.cpus|
    requires s'.nextpid == s.nextpid && s'.finished == s.finished && s'.reaped == s.reaped
    requires forall d :: 0 <= d < |s.cpus| && d != c ==> s'.cpus[d] == s.cpus[d]
    requires s'.cpus[c] == Idle && s.lock in {Free, Held(c)} && s'.lock in {Free, Held(c)}
    ensures Inv(s')
  {
    hide Tree, Forks, Pids;
    PidsKept(s, s');
  }

  lemma InvStep(s: State, step: Step)
    requires Inv(s) && Enabled(s, step)
    ensures Inv(Do(s, step))
  {
    hide Inv, ProcTable.Exited;
    var c := step.c;
    if step.Exit? {
      InvExit(s, c);
    } else if step.Reap? {
      InvReap(s, c, step.q);
    } else if step.Pick? {
      PickKeeps(s, c, step.q);
    } else if step.Swtch? || step.SchedTake? || step.SchedDrop? {
      SchedKeeps(s, Do(s, step), c);
    } else if step.Wakeup? || step.Kill? {
      OthersKeep(s, c, Do(s, step).procs);
    } else if step.Alloc? {
      AllocKeeps(s, Do(s, step), c, step.np);
    } else if step.AllocFails? || step.SetParent? || step.ForkDone? {
      ForkStep(s, step);
    } else {
      var p := s.cpus[c].p;
      OwnKeeps(s, c, Do(s, step).procs[p], Do(s, step).lock);
    }
  }

  lemma ForkStep(s: State, step: Step)
    requires Inv(s) && Enabled(s, step) && (step.AllocFails? || step.SetParent? || step.ForkDone?)
    ensures Inv(Do(s, step))
  {
    hide Inv;
    var p := s.cpus[step.c].p;
    assert ForkSlot(s.procs[p]) == s.procs[p].code.np;
    InvForkFacts(s, p);
    ForkKeeps(s, Do(s, step), step.c, s.procs[p].code.np);
  }

  lemma InvForkFacts(s: State, p: nat)
    requires Inv(s) && p < |s.procs| && ForkSlot(s.procs[p]) != NONE
    ensures 0 <= ForkSlot(s.procs[p]) < |s.procs| && ForkSlot(s.procs[p]) != p
    ensures ForkSlot(s.procs[ForkSlot(s.procs[p])]) == NONE
  {
    ForkFacts(s.procs, p);
  }

  // ----- what each step does to each slot

  /** The step is one of process q. */
  predicate Makes(s: State, step: Step, q: int) {
    step.c < |s.cpus| && s.cpus[step.c].On? && s.cpus[step.c].p == q
  }

  /** The step is one of the process that forks slot q. */
  predicate MakesForker(s: State, step: Step, q: nat) {
    && step.c < |s.cpus| && s.cpus[step.c].On? && s.cpus[step.c].p < |s.procs|
    && (s.procs[s.cpus[step.c].p].code == Forking(q) || s.procs[s.cpus[step.c].p].code == Forked(q))
  }

  /** What ends the sleep of the process in slot q: a wakeup of its channel, a kill, and the exit
      of a process whose parent, or init on behalf of whose zombies, it is waiting as. */
  ghost predicate EndsSleep(s: State, step: Step, q: nat)
    requires q < |s.procs|
  {
    var chan := s.procs[q].chan;
    || (step.Wakeup? && step.chan == chan)
    || (step.Kill? && step.q == q)
    || (step.Exit? && Runs(s, step.c) &&
        (chan == s.procs[s.cpus[step.c].p].parent || (chan == INIT && HasZombie(s.procs, s.cpus[step.c].p))))
  }

  /** The life of a slot. */
  ghost function Becomes(s: State, step: Step, q: nat): St
    requires q < |s.procs|
  {
    match s.procs[q].st
    case UNUSED => if step.Alloc? && step.np == q then EMBRYO else UNUSED
    case EMBRYO =>
      if step.ForkDone? && MakesForker(s, step, q) then RUNNABLE
      else if step.AllocFails? && MakesForker(s, step, q) then UNUSED
      else EMBRYO
    case RUNNABLE => if step.Pick? && step.q == q then RUNNING else RUNNABLE
    case RUNNING =>
      if !Makes(s, step, q) then RUNNING
      else if step.Exit? then ZOMBIE
      else if step.WaitSleeps? || step.SleepOn? then SLEEPING
      else if step.Yield? then RUNNABLE
      else RUNNING
    case SLEEPING => if EndsSleep(s, step, q) then RUNNABLE else SLEEPING
    case ZOMBIE => if step.Reap? && step.q == q then UNUSED else ZOMBIE
  }

  /** What exit does to the state of each slot, exactly. */
  lemma ExitedState(ps: seq<Proc>, p: nat, i: nat)
    requires p < |ps| && i < |ps| && ps[p].st == RUNNING
    ensures var r := ProcTable.Exited(ps, p);
            r[i].killed == ps[i].killed
            && r[i].st == if i == p then ZOMBIE
                          else if ps[i].st == SLEEPING && (ps[i].chan == ps[p].parent || (ps[i].chan == INIT && HasZombie(ps, p))) then RUNNABLE
                          else ps[i].st
  {
    var ps1 := Woken(ps, ps[p].parent);
    if k :| 0 <= k < |ps| && ZombieChild(ps[k], p) { assert ZombieChild(ps1[k], p); }
    if k :| 0 <= k < |ps| && ZombieChild(ps1[k], p) { assert ZombieChild(ps[k], p); }
  }

  /** What any step does to any slot. */
  ghost predicate SlotLaw(s: State, step: Step, q: nat)
    requires Enabled(s, step) && q < |s.procs|
  {
    var s' := Do(s, step);
    |s'.procs| == |s.procs| &&
    var (x, y) := (s.procs[q], s'.procs[q]);
    var reaped := step.Reap? && step.q == q;
    && y.st == Becomes(s, step, q)
    && (y.killed <==> (step.Kill? && step.q == q) || (x.killed && !reaped))
    && y.pid == (if step.Alloc? && step.np == q then s.nextpid else if reaped then 0 else x.pid)
    && (y.stack <==> (step.SetParent? && MakesForker(s, step, q)) || (x.stack && !reaped))
    && y.parent == (if step.SetParent? && MakesForker(s, step, q) then s.cpus[step.c].p
                    else if step.Exit? && Makes(s, step, x.parent) then INIT
                    else if reaped then NONE else x.parent)
    && y.chan == (if step.WaitSleeps? && Makes(s, step, q) then q
                  else if step.SleepOn? && Makes(s, step, q) then step.chan
                  else if (step.Resume? && Makes(s, step, q)) || (step.Pick? && step.q == q && x.code.Waiting?) then NONE
                  else x.chan)
  }

  lemma ExitLaw(s: State, step: Step, q: nat)
    requires Enabled(s, step) && step.Exit? && q < |s.procs|
    ensures SlotLaw(s, step, q)
  {
    hide ProcTable.Exited, HasZombie;
    ExitedAt(s.procs, s.cpus[step.c].p, q);
    ExitedState(s.procs, s.cpus[step.c].p, q);
  }

  lemma ForkLaw(s: State, step: Step, q: nat)
    requires Inv(s) && Enabled(s, step) && (step.Alloc? || step.AllocFails? || step.SetParent? || step.ForkDone?) && q < |s.procs|
    ensures SlotLaw(s, step, q)
  {
    hide Inv, HasZombie;
    var p := s.cpus[step.c].p;
    if !step.Alloc? {
      assert ForkSlot(s.procs[p]) == s.procs[p].code.np;
      InvForkFacts(s, p);
      Embryo(s, p);
    }
  }

  lemma Embryo(s: State, p: nat)
    requires Inv(s) && p < |s.procs| && ForkSlot(s.procs[p]) != NONE
    ensures 0 <= ForkSlot(s.procs[p]) < |s.procs| && s.procs[ForkSlot(s.procs[p])].st == EMBRYO
  {
    ForkFacts(s.procs, p);
  }

  lemma OtherLaw(s: State, step: Step, q: nat)
    requires Enabled(s, step) && !(step.Exit? || step.Alloc? || step.AllocFails? || step.SetParent? || step.ForkDone?) && q < |s.procs|
    ensures SlotLaw(s, step, q)
  {
    hide ProcTable.Exited, HasZombie, HasChild;
  }

  /** Every step does to every slot what the life of a slot says. */
  lemma EveryStep(s: State, step: Step, q: nat)
    requires Inv(s) && Enabled(s, step) && q < |s.procs|
    ensures SlotLaw(s, step, q)
  {
    hide Inv, SlotLaw, Enabled;
    if step.Exit? {
      ExitLaw(s, step, q);
    } else if step.Alloc? || step.AllocFails? || step.SetParent? || step.ForkDone? {
      ForkLaw(s, step, q);
    } else {
      OtherLaw(s, step, q);
    }
  }

  // ----- whole runs

  ghost predicate Legal(s: State, steps: seq<Step>)
    decreases |steps|
  {
    steps == [] || (Enabled(s, steps[0]) && Legal(Do(s, steps[0]), steps[1..]))
  }

  ghost function Exec(s: State, steps: seq<Step>): State
    requires Legal(s, steps)
    decreases |steps|
  {
    if steps == [] then s else Exec(Do(s, steps[0]), steps[1..])
  }

  /** After userinit: init in slot 0, runnable, and nothing else. */
  function Boot(nproc: nat, ncpu: nat): State
    requires nproc > 0
  {
    var unused := Proc(UNUSED, 0, NONE, NONE, false, false, User);
    State(seq(nproc, i => if i == INIT then Proc(RUNNABLE, 1, NONE, NONE, false, true, Resuming(User)) else unused),
          seq(ncpu, i => Idle), Free, 2, {}, {})
  }

  lemma InvBoot(nproc: nat, ncpu: nat)
    requires nproc > 0
    ensures Inv(Boot(nproc, ncpu))
  {
    var s := Boot(nproc, ncpu);
    assert Tree(s.procs) && Stacks(s) && Pids(s) by { hide Pending, ForkSlot; }
    assert forall i :: 0 <= i < nproc ==> ForkSlot(s.procs[i]) == NONE;
    hide ForkSlot, ParentSet, Tree, Stacks, Pids;
    assert Forks(s.procs);
  }

  lemma {:induction false} InvRun(s: State, steps: seq<Step>)
    requires Inv(s) && Legal(s, steps)
    ensures Inv(Exec(s, steps))
    decreases |steps|
  {
    if steps != [] {
      InvStep(s, steps[0]);
      hide Inv, Do, Enabled;
      InvRun(Do(s, steps[0]), steps[1..]);
    }
  }

  /** The exit/wait protocol, in every run with any number of processes and CPUs: every
      started process but init has a parent that is neither a zombie nor gone; a process
      asleep in wait has no zombie child; the finished pids are exactly the zombies and the
      reaped ones; and whenever wait reaps a zombie, its pid has not been reaped before and
      no CPU is on its stack. */
  lemma ExitWaitProtocol(nproc: nat, ncpu: nat, steps: seq<Step>)
    requires nproc > 0 && Legal(Boot(nproc, ncpu), steps)
    ensures var s := Exec(Boot(nproc, ncpu), steps);
            && (forall q :: 0 <= q < |s.procs| && q != INIT && Started(s.procs[q]) ==>
                  0 <= s.procs[q].parent < |s.procs| && Alive(s.procs[s.procs[q].parent]))
            && (forall p :: 0 <= p < |s.procs| && s.procs[p].st == SLEEPING && s.procs[p].code == Waiting ==>
                  !HasZombie(s.procs, p))
            && (forall x :: x in s.finished <==>
                  x in s.reaped || exists q :: 0 <= q < |s.procs| && s.procs[q].st == ZOMBIE && s.procs[q].pid == x)
            && (forall c: nat, q: nat :: Enabled(s, Reap(c, q)) ==>
                  s.procs[q].pid !in s.reaped && forall d :: 0 <= d < |s.cpus| ==> s.cpus[d] != On(q))
  {
    InvBoot(nproc, ncpu);
    InvRun(Boot(nproc, ncpu), steps);
    var s := Exec(Boot(nproc, ncpu), steps);
    forall c: nat, q: nat | Enabled(s, Reap(c, q))
      ensures s.procs[q].pid !in s.reaped && forall d :: 0 <= d < |s.cpus| ==> s.cpus[d] != On(q)
    {
      ZombieStackIdle(s, c, q);
    }
  }

  // ----- kill

  /** Whether the slot has been killed since it was last reaped. */
  function Marked(steps: seq<Step>, q: nat, m: bool): bool
    decreases |steps|
  {
    if steps == [] then m
    else Marked(steps[1..], q, if steps[0].Kill? && steps[0].q == q then true else if steps[0].Reap? && steps[0].q == q then false else m)
  }

  lemma {:induction false} MarkedRun(s: State, steps: seq<Step>, q: nat)
    requires Inv(s) && Legal(s, steps) && q < |s.procs|
    ensures |Exec(s, steps).procs| == |s.procs|
    ensures Exec(s, steps).procs[q].killed <==> Marked(steps, q, s.procs[q].killed)
    decreases |steps|
  {
    hide Inv;
    if steps != [] {
      EveryStep(s, steps[0], q);
      InvStep(s, steps[0]);
      hide Do, Enabled, Becomes;
      MarkedRun(Do(s, steps[0]), steps[1..], q);
    }
  }

  /** In every run a process is marked killed exactly if a kill has hit its slot since the slot
      was last reaped; and a marked process does not go to sleep in wait. */
  lemma KilledIff(nproc: nat, ncpu: nat, steps: seq<Step>, q: nat)
    requires q < nproc && Legal(Boot(nproc, ncpu), steps)
    ensures var s := Exec(Boot(nproc, ncpu), steps);
            && |s.procs| == nproc
            && (s.procs[q].killed <==> Marked(steps, q, false))
            && (Marked(steps, q, false) ==> forall c: nat :: c < |s.cpus| && s.cpus[c] == On(q) ==> !Enabled(s, WaitSleeps(c)))
  {
    InvBoot(nproc, ncpu);
    MarkedRun(Boot(nproc, ncpu), steps, q);
  }

  /** A kill sticks until the process is reaped. */
  lemma {:induction false} KillSticks(steps: seq<Step>, q: nat)
    requires forall i :: 0 <= i < |steps| ==> !(steps[i].Reap? && steps[i].q == q)
    ensures Marked(steps, q, true)
    decreases |steps|
  {
    if steps != [] { KillSticks(steps[1..], q); }
  }

  /** fork takes the mark of the slot over: a child is born killed exactly if a kill hit the slot
      since it was last reaped. */
  lemma BornKilledIff(nproc: nat, ncpu: nat, steps: seq<Step>, c: nat, np: nat)
    requires nproc > 0 && Legal(Boot(nproc, ncpu), steps) && Enabled(Exec(Boot(nproc, ncpu), steps), Alloc(c, np))
    ensures var s' := Do(Exec(Boot(nproc, ncpu), steps), Alloc(c, np));
            np < |s'.procs| && s'.procs[np].st == EMBRYO && (s'.procs[np].killed <==> Marked(steps, np, false))
  {
    InvBoot(nproc, ncpu);
    InvRun(Boot(nproc, ncpu), steps);
    SameSlots(Boot(nproc, ncpu), steps);
    var s := Exec(Boot(nproc, ncpu), steps);
    KilledIff(nproc, ncpu, steps, np);
    EveryStep(s, Alloc(c, np), np);
  }

  lemma {:induction false} SameSlots(s: State, steps: seq<Step>)
    requires Inv(s) && Legal(s, steps) && |s.procs| > 0
    ensures |Exec(s, steps).procs| == |s.procs|
  {
    MarkedRun(s, steps, 0);
  }

  /** kill(0) finds an unused slot, whose pid is 0, and marks it: the next process forked into it
      is born killed. */
  lemma BornKilled(nproc: nat, ncpu: nat) returns (steps: seq<Step>, s: State)
    requires nproc >= 2 && ncpu >= 1
    ensures Legal(Boot(nproc, ncpu), steps) && Exec(Boot(nproc, ncpu), steps) == s
    ensures |s.procs| == nproc && s.procs[1].st == RUNNABLE && s.procs[1].parent == INIT && s.procs[1].killed
  {
    hide ProcTable.Exited, HasZombie, HasChild, Boot;
    var s3 := InitRuns(nproc, ncpu);
    var s4, s5 := KillZero(s3, nproc, ncpu);
    var s6 := Do(s5, SetParent(0));
    s := Do(s6, ForkDone(0));
    steps := [SchedTake(0), Pick(0, 0), Resume(0), Kill(0, 1), Alloc(0, 1), SetParent(0), ForkDone(0)];
    var s0 := Boot(nproc, ncpu);
    Seven(s0, Do(s0, SchedTake(0)), Do(Do(s0, SchedTake(0)), Pick(0, 0)), s3, s4, s5, s6, s, steps);
  }

  lemma KillZero(s3: State, nproc: nat, ncpu: nat) returns (s4: State, s5: State)
    requires nproc >= 2 && ncpu >= 1 && |s3.procs| == nproc && |s3.cpus| == ncpu && s3.lock == Free && s3.cpus[0] == On(INIT)
    requires s3.procs[0] == Proc(RUNNING, 1, NONE, NONE, false, true, User)
    requires forall i :: 0 < i < nproc ==> s3.procs[i] == Proc(UNUSED, 0, NONE, NONE, false, false, User)
    ensures Enabled(s3, Kill(0, 1)) && s4 == Do(s3, Kill(0, 1)) && Enabled(s4, Alloc(0, 1)) && s5 == Do(s4, Alloc(0, 1))
    ensures |s5.procs| == nproc && s5.cpus == s3.cpus && s5.lock == Free
    ensures s5.procs[0].st == RUNNING && s5.procs[0].code == Forking(1) && s5.procs[1].st == EMBRYO && s5.procs[1].killed
  {
    hide ProcTable.Exited, HasZombie, HasChild;
    s4 := Do(s3, Kill(0, 1));
    s5 := Do(s4, Alloc(0, 1));
  }

  lemma InitRuns(nproc: nat, ncpu: nat) returns (s: State)
    requires nproc >= 2 && ncpu >= 1
    ensures var s0 := Boot(nproc, ncpu);
            && Enabled(s0, SchedTake(0)) && Enabled(Do(s0, SchedTake(0)), Pick(0, 0))
            && Enabled(Do(Do(s0, SchedTake(0)), Pick(0, 0)), Resume(0)) && s == Do(Do(Do(s0, SchedTake(0)), Pick(0, 0)), Resume(0))
    ensures |s.procs| == nproc && |s.cpus| == ncpu && s.lock == Free && s.cpus[0] == On(INIT)
    ensures s.procs[0] == Proc(RUNNING, 1, NONE, NONE, false, true, User)
    ensures forall i :: 0 < i < nproc ==> s.procs[i] == Proc(UNUSED, 0, NONE, NONE, false, false, User)
  {
    var s0 := Boot(nproc, ncpu);
    var s1 := Do(s0, SchedTake(0));
    var s2 := Do(s1, Pick(0, 0));
    s := Do(s2, Resume(0));
  }

  lemma Seven(s0: State, s1: State, s2: State, s3: State, s4: State, s5: State, s6: State, s7: State, steps: seq<Step>)
    requires |steps| == 7
    requires Enabled(s0, steps[0]) && Do(s0, steps[0]) == s1 && Enabled(s1, steps[1]) && Do(s1, steps[1]) == s2
    requires Enabled(s2, steps[2]) && Do(s2, steps[2]) == s3 && Enabled(s3, steps[3]) && Do(s3, steps[3]) == s4
    requires Enabled(s4, steps[4]) && Do(s4, steps[4]) == s5 && Enabled(s5, steps[5]) && Do(s5, steps[5]) == s6
    requires Enabled(s6, steps[6]) && Do(s6, steps[6]) == s7
    ensures Legal(s0, steps) && Exec(s0, steps) == s7
  {
    hide Do, Enabled;
    assert steps[6..][1..] == [] && Legal(s6, steps[6..]) && Exec(s6, steps[6..]) == s7;
    assert steps[5..][1..] == steps[6..] && Legal(s5, steps[5..]) && Exec(s5, steps[5..]) == s7;
    assert steps[4..][1..] == steps[5..] && Legal(s4, steps[4..]) && Exec(s4, steps[4..]) == s7;
    assert steps[3..][1..] == steps[4..] && Legal(s3, steps[3..]) && Exec(s3, steps[3..]) == s7;
    assert steps[2..][1..] == steps[3..] && Legal(s2, steps[2..]) && Exec(s2, steps[2..]) == s7;
    assert steps[1..][1..] == steps[2..] && Legal(s1, steps[1..]) && Exec(s1, steps[1..]) == s7;
  }

  /** wait, with the lock: it reaps if there is a zombie child, and only then; otherwise it
      returns if there is no child or it has been killed; otherwise it sleeps. */
  lemma WaitDecides(s: State, c: nat)
    requires Runs(s, c) && s.lock == Held(c) && s.procs[s.cpus[c].p].code == Waiting
    ensures (exists q: nat :: Enabled(s, Reap(c, q))) <==> HasZombie(s.procs, s.cpus[c].p)
    ensures Enabled(s, WaitReturns(c)) <==>
              !HasZombie(s.procs, s.cpus[c].p) && (!HasChild(s.procs, s.cpus[c].p) || s.procs[s.cpus[c].p].killed)
    ensures Enabled(s, WaitSleeps(c)) <==>
              !HasZombie(s.procs, s.cpus[c].p) && HasChild(s.procs, s.cpus[c].p) && !s.procs[s.cpus[c].p].killed
  {
    if HasZombie(s.procs, s.cpus[c].p) {
      var q :| 0 <= q < |s.procs| && ZombieChild(s.procs[q], s.cpus[c].p);
      assert Enabled(s, Reap(c, q));
    }
  }

  // ----- pids and stacks of unused slots

  /** Unused slots hold no stack, pids other than 0 are distinct, and no slot has the pid of a
      process that has been reaped. */
  ghost predicate Tidy(s: State) {
    && s.nextpid > 0 && (forall x :: x in s.finished ==> x > 0)
    && (forall q :: 0 <= q < |s.procs| ==> TidySlot(s, s.procs[q]))
    && (forall q, r :: 0 <= q < r < |s.procs| && s.procs[q].pid == s.procs[r].pid ==> s.procs[q].pid == 0)
  }

  ghost predicate TidySlot(s: State, x: Proc) {
    && (x.st == UNUSED || (x.st == EMBRYO && x.parent == NONE) ==> !x.stack)
    && (x.st != UNUSED ==> x.pid > 0) && x.pid < s.nextpid
    && (x.st == UNUSED ==> x.pid !in s.finished) && x.pid !in s.reaped
  }

  /** What the steps do to the records of pids. */
  lemma PidLaw(s: State, step: Step)
    requires Enabled(s, step)
    ensures var s' := Do(s, step);
            && |s'.procs| == |s.procs|
            && s'.nextpid == (if step.Alloc? then s.nextpid + 1 else s.nextpid)
            && (if step.Exit? then Runs(s, step.c) && s'.finished == s.finished + {s.procs[s.cpus[step.c].p].pid} else s'.finished == s.finished)
            && (if step.Reap? then step.q < |s.procs| && s.procs[step.q].st == ZOMBIE && s'.reaped == s.reaped + {s.procs[step.q].pid} else s'.reaped == s.reaped)
  {
    hide ProcTable.Exited, HasZombie, HasChild;
  }

  lemma TidyFacts(s: State, a: nat, q: nat)
    requires Tidy(s) && a < |s.procs| && q < |s.procs|
    ensures TidySlot(s, s.procs[a]) && TidySlot(s, s.procs[q]) && s.nextpid > 0
    ensures a != q && s.procs[a].pid == s.procs[q].pid ==> s.procs[a].pid == 0
    ensures 0 !in s.finished
  {
  }

  lemma BlankFacts(s: State, step: Step, q: nat)
    requires Inv(s) && Enabled(s, step) && q < |s.procs|
    ensures s.reaped <= s.finished && (forall x :: x in s.finished ==> x < s.nextpid) && (s.procs[q].st == EMBRYO ==> s.procs[q].pid !in s.finished)
    ensures s.procs[q].st == UNUSED ==> s.procs[q].parent == NONE
    ensures step.AllocFails? && MakesForker(s, step, q) ==> s.procs[q].parent == NONE
    ensures MakesForker(s, step, q) ==> s.procs[q].st == EMBRYO
    ensures step.Exit? || step.SetParent? ==> Runs(s, step.c)
    ensures step.Reap? ==> step.q < |s.procs| && s.procs[step.q].st == ZOMBIE
  {
    hide HasZombie, HasChild, ProcTable.Exited;
    if MakesForker(s, step, q) {
      assert ForkSlot(s.procs[s.cpus[step.c].p]) == q;
      ForkFacts(s.procs, s.cpus[step.c].p);
    }
  }

  lemma TidySlotStep(s: State, step: Step, q: nat)
    requires Inv(s) && Tidy(s) && Enabled(s, step) && q < |s.procs|
    ensures |Do(s, step).procs| == |s.procs| && TidySlot(Do(s, step), Do(s, step).procs[q])
  {
    hide Do, Enabled, Inv, Tidy, HasZombie, EndsSleep;
    PidLaw(s, step);
    EveryStep(s, step, q);
    BlankFacts(s, step, q);
    TidyFacts(s, q, q);
    if step.Exit? { TidyFacts(s, s.cpus[step.c].p, q); }
    if step.Reap? { TidyFacts(s, step.q, q); }
  }

  lemma TidyStep(s: State, step: Step)
    requires Inv(s) && Tidy(s) && Enabled(s, step)
    ensures Tidy(Do(s, step))
  {
    hide Do, Enabled, Inv, TidySlot, Becomes, MakesForker;
    var s' := Do(s, step);
    PidLaw(s, step);
    forall q | 0 <= q < |s'.procs|
      ensures TidySlot(s', s'.procs[q])
    {
      TidySlotStep(s, step, q);
    }
    forall q, r | 0 <= q < r < |s'.procs| && s'.procs[q].pid == s'.procs[r].pid
      ensures s'.procs[q].pid == 0
    {
      EveryStep(s, step, q);
      EveryStep(s, step, r);
      PidFacts(s, q, r);
    }
    if step.Exit? { PidFacts(s, s.cpus[step.c].p, s.cpus[step.c].p); }
  }

  lemma PidFacts(s: State, q: nat, r: nat)
    requires Tidy(s) && q < |s.procs| && r < |s.procs|
    ensures s.procs[q].pid < s.nextpid && s.procs[r].pid < s.nextpid
    ensures s.procs[q].st == RUNNING ==> s.procs[q].pid > 0
    ensures q != r && s.procs[q].pid == s.procs[r].pid ==> s.procs[q].pid == 0
  {
    TidyFacts(s, q, r);
  }

  lemma TidyBoot(nproc: nat, ncpu: nat)
    requires nproc > 0
    ensures Tidy(Boot(nproc, ncpu))
  {
  }

  lemma {:induction false} TidyRun(s: State, steps: seq<Step>)
    requires Inv(s) && Tidy(s) && Legal(s, steps)
    ensures Tidy(Exec(s, steps))
    decreases |steps|
  {
    hide Inv, Tidy, Do, Enabled;
    if steps != [] {
      InvStep(s, steps[0]);
      TidyStep(s, steps[0]);
      TidyRun(Do(s, steps[0]), steps[1..]);
    }
  }

  /** In every run an unused slot holds no stack, and the pid of a reaped process is the pid of no
      slot, so kill does not find it. */
  lemma NothingLeft(nproc: nat, ncpu: nat, steps: seq<Step>, q: nat)
    requires nproc > 0 && Legal(Boot(nproc, ncpu), steps)
    ensures var s := Exec(Boot(nproc, ncpu), steps);
            q < |s.procs| ==> (s.procs[q].st == UNUSED ==> !s.procs[q].stack) && s.procs[q].pid !in s.reaped
  {
    hide Inv;
    InvBoot(nproc, ncpu);
    TidyBoot(nproc, ncpu);
    TidyRun(Boot(nproc, ncpu), steps);
    var s := Exec(Boot(nproc, ncpu), steps);
    if q < |s.procs| { TidyFacts(s, q, q); }
  }
}
