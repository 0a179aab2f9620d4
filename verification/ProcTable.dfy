/** The process table of proc.c and the loops that scan it under ptable.lock. */
module ProcTable {
  datatype St = UNUSED | EMBRYO | SLEEPING | RUNNABLE | RUNNING | ZOMBIE

  /** Where a process goes on when it next runs: in user code or elsewhere in the kernel,
      in fork before or after it has set np->parent, in wait's loop, or, with ptable.lock
      handed to it by the scheduler, at the release in sleep, yield or forkret. */
  datatype Code = User | Forking(np: nat) | Forked(np: nat) | Waiting | Resuming(next: Code)

  /** parent is a slot or NONE; chan is a slot for the channel wait sleeps on. */
  datatype Proc = Proc(st: St, pid: nat, parent: int, chan: int, killed: bool, stack: bool, code: Code)

  const NONE := -1
  const INIT := 0

  predicate Alive(x: Proc) { x.st == SLEEPING || x.st == RUNNABLE || x.st == RUNNING }

  function WokenIf(x: Proc, chan: int): Proc {
    if x.st == SLEEPING && x.chan == chan then x.(st := RUNNABLE) else x
  }

  function Woken(ps: seq<Proc>, chan: int): (r: seq<Proc>)
    ensures |r| == |ps| && forall i :: 0 <= i < |ps| ==> r[i] == WokenIf(ps[i], chan)
  {
    seq(|ps|, i requires 0 <= i < |ps| => WokenIf(ps[i], chan))
  }

  predicate ZombieChild(x: Proc, p: int) { x.parent == p && x.st == ZOMBIE }

  ghost predicate HasZombie(ps: seq<Proc>, p: int) {
    exists i :: 0 <= i < |ps| && ZombieChild(ps[i], p)
  }

  ghost predicate HasChild(ps: seq<Proc>, p: int) {
    exists i :: 0 <= i < |ps| && ps[i].parent == p
  }

  function Reparented(ps: seq<Proc>, p: int): (r: seq<Proc>)
    ensures |r| == |ps|
    ensures forall i :: 0 <= i < |ps| ==> r[i] == if ps[i].parent == p then ps[i].(parent := INIT) else ps[i]
  {
    seq(|ps|, i requires 0 <= i < |ps| => if ps[i].parent == p then ps[i].(parent := INIT) else ps[i])
  }

  /** The table after the part of exit that runs under ptable.lock. */
  ghost function Exited(ps: seq<Proc>, p: nat): (r: seq<Proc>)
    requires p < |ps|
    ensures |r| == |ps|
  {
    var ps1 := Woken(ps, ps[p].parent);
    var ps2 := Reparented(ps1, p);
    var ps3 := if HasZombie(ps1, p) then Woken(ps2, INIT) else ps2;
    ps3[p := ps3[p].(st := ZOMBIE)]
  }

  /** A reaped slot. */
  function Reaped(x: Proc): Proc {
    Proc(UNUSED, 0, NONE, x.chan, false, false, User)
  }

  datatype WaitResult = Found(q: nat, pid: nat) | NoChild | MustSleep

  class Table {
    const proc: array<Proc>

    constructor (n: nat)
      ensures fresh(proc) && proc.Length == n
      ensures forall i :: 0 <= i < n ==> proc[i] == Proc(UNUSED, 0, NONE, NONE, false, false, User)
    {
      proc := new Proc[n](_ => Proc(UNUSED, 0, NONE, NONE, false, false, User));
    }

    method Wakeup1(chan: int)
      modifies proc
      ensures proc[..] == Woken(old(proc[..]), chan)
      ensures forall i :: 0 <= i < proc.Length ==>
                proc[i].st == if old(proc[i]).st == SLEEPING && old(proc[i]).chan == chan then RUNNABLE else old(proc[i]).st
    {
      var i := 0;
      while i < proc.Length
        invariant 0 <= i <= proc.Length
        invariant forall k :: 0 <= k < i ==> proc[k] == WokenIf(old(proc[k]), chan)
        invariant forall k :: i <= k < proc.Length ==> proc[k] == old(proc[k])
      {
        if proc[i].st == SLEEPING && proc[i].chan == chan {
          proc[i] := proc[i].(st := RUNNABLE);
        }
        i := i + 1;
      }
    }

    /** exit from wakeup1(curproc->parent) to the ZOMBIE assignment. */
    method ExitSection(p: nat)
      requires p < proc.Length
      modifies proc
      ensures proc[..] == Exited(old(proc[..]), p)
      ensures proc[p].st == ZOMBIE && forall i :: 0 <= i < proc.Length ==> proc[i].parent != p || p == INIT
    {
      Wakeup1(proc[p].parent);
      ghost var ps1 := proc[..];
      ghost var woken := false;
      var i := 0;
      while i < proc.Length
        invariant 0 <= i <= proc.Length
        invariant woken <==> exists k :: 0 <= k < i && ZombieChild(ps1[k], p)
        invariant forall k :: 0 <= k < proc.Length ==>
                    var x := if k < i && ps1[k].parent == p then ps1[k].(parent := INIT) else ps1[k];
                    proc[k] == if woken then WokenIf(x, INIT) else x
      {
        if proc[i].parent == p {
          proc[i] := proc[i].(parent := INIT);
          if proc[i].st == ZOMBIE {
            assert ZombieChild(ps1[i], p);
            Wakeup1(INIT);
            woken := true;
          }
        }
        i := i + 1;
      }
      assert woken <==> HasZombie(ps1, p);
      assert proc[..] == if woken then Woken(Reparented(ps1, p), INIT) else Reparented(ps1, p);
      proc[p] := proc[p].(st := ZOMBIE);
    }

    /** One scan of wait's loop: it reaps the first zombie child there is. */
    method WaitScan(p: nat) returns (r: WaitResult)
      requires p < proc.Length
      modifies proc
      ensures r.Found? <==> HasZombie(old(proc[..]), p)
      ensures r.Found? ==>
                && r.q < proc.Length && ZombieChild(old(proc[..])[r.q], p) && r.pid == old(proc[..])[r.q].pid
                && (forall k :: 0 <= k < r.q ==> !ZombieChild(old(proc[..])[k], p))
                && proc[..] == old(proc[..])[r.q := Reaped(old(proc[..])[r.q])]
                && proc[r.q].st == UNUSED && proc[r.q].pid == 0 && !proc[r.q].killed && !proc[r.q].stack
                && !ZombieChild(proc[r.q], p) && proc[r.q].parent == NONE
      ensures !r.Found? ==> proc[..] == old(proc[..])
      ensures r.NoChild? <==> !HasZombie(old(proc[..]), p) && (!HasChild(old(proc[..]), p) || old(proc[p]).killed)
    {
      var havekids := false;
      var q := 0;
      while q < proc.Length
        invariant 0 <= q <= proc.Length && proc[..] == old(proc[..])
        invariant havekids <==> exists k :: 0 <= k < q && proc[k].parent == p
        invariant forall k :: 0 <= k < q ==> !ZombieChild(proc[k], p)
      {
        if proc[q].parent == p {
          havekids := true;
          if proc[q].st == ZOMBIE {
            assert ZombieChild(proc[..][q], p);
            r := Found(q, proc[q].pid);
            proc[q] := Reaped(proc[q]);
            return;
          }
        }
        q := q + 1;
      }
      assert forall k :: 0 <= k < proc.Length ==> proc[..][k] == proc[k];
      assert havekids <==> HasChild(proc[..], p);
      r := if !havekids || proc[p].killed then NoChild else MustSleep;
    }

    /** allocproc up to the release of ptable.lock. */
    method AllocProc(nextpid: nat) returns (np: nat, ok: bool)
      modifies proc
      ensures ok <==> exists i :: 0 <= i < proc.Length && old(proc[..])[i].st == UNUSED
      ensures ok ==>
                && np < proc.Length && old(proc[..])[np].st == UNUSED
                && (forall k :: 0 <= k < np ==> old(proc[..])[k].st != UNUSED)
                && proc[..] == old(proc[..])[np := old(proc[np]).(st := EMBRYO, pid := nextpid)]
      ensures !ok ==> proc[..] == old(proc[..])
    {
      np := 0;
      while np < proc.Length
        invariant np <= proc.Length && proc[..] == old(proc[..])
        invariant forall k :: 0 <= k < np ==> proc[k].st != UNUSED
      {
        if proc[np].st == UNUSED {
          assert proc[..][np].st == UNUSED;
          proc[np] := proc[np].(st := EMBRYO, pid := nextpid);
          return np, true;
        }
        np := np + 1;
      }
      ok := false;
    }

    /** kill: the first slot with that pid, whatever its state, is marked, and woken if it
        sleeps. */
    method Kill(pid: nat) returns (found: bool)
      modifies proc
      ensures found <==> exists i :: 0 <= i < proc.Length && old(proc[..])[i].pid == pid
      ensures !found ==> proc[..] == old(proc[..])
      ensures found ==> exists i :: 0 <= i < proc.Length && FirstPid(old(proc[..]), i, pid)
                          && proc[..] == old(proc[..])[i := Killed(old(proc[..])[i])]
                          && proc[i].killed && proc[i].st != SLEEPING
                          && (old(proc[..])[i].st != SLEEPING ==> proc[i].st == old(proc[..])[i].st)
                          && proc[i].(killed := old(proc[..])[i].killed, st := old(proc[..])[i].st) == old(proc[..])[i]
    {
      var i := 0;
      while i < proc.Length
        invariant 0 <= i <= proc.Length && proc[..] == old(proc[..])
        invariant forall k :: 0 <= k < i ==> proc[k].pid != pid
      {
        if proc[i].pid == pid {
          assert FirstPid(proc[..], i, pid);
          proc[i] := proc[i].(killed := true);
          if proc[i].st == SLEEPING {
            proc[i] := proc[i].(st := RUNNABLE);
          }
          assert proc[..] == old(proc[..])[i := Killed(old(proc[..])[i])];
          return true;
        }
        i := i + 1;
      }
      found := false;
    }
  }

  function Killed(x: Proc): Proc {
    x.(killed := true, st := if x.st == SLEEPING then RUNNABLE else x.st)
  }

  predicate FirstPid(ps: seq<Proc>, i: nat, pid: nat) {
    i < |ps| && ps[i].pid == pid && forall k :: 0 <= k < i ==> ps[k].pid != pid
  }
}
