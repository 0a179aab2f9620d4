/** The sleep lock of sleeplock.c: acquiresleep and releasesleep as programs over sleep and
    wakeup. */
module Sleeplock {
  import opened SleepWakeup

  /** The channel acquiresleep sleeps on: the address of the lock. */
  const LOCK_CHAN := 0

  /** locked and pid are the C fields; holders are the processes that have returned from
      acquiresleep and not yet called releasesleep. */
  datatype SleepLock = SleepLock(locked: bool, pid: nat, holders: set<nat>)

  function Pid(p: nat): nat { p + 1 }

  datatype At =
    | AWhile      // acquiresleep: the test of locked
    | ADone       // about to release lk->lk
    | RClear      // releasesleep: about to clear locked and pid
    | RWake       // about to call wakeup(lk)
    | RDone       // about to release lk->lk

  function Code(k: At, d: SleepLock, killed: bool, p: nat): Instr<At, SleepLock> {
    match k
    case AWhile =>
      if d.locked then Instr.Sleep(LOCK_CHAN, AWhile)
      else Do(SleepLock(true, Pid(p), d.holders + {p}), ADone)
    case ADone => Release
    case RClear => Do(SleepLock(false, 0, d.holders - {p}), RWake)
    case RWake => Instr.Wakeup(LOCK_CHAN, RDone)
    case RDone => Release
  }

  predicate Entry(k: At) { k == AWhile || k == RClear }

  function Calls(): Program<At, SleepLock> { Program(Code, Entry) }

  predicate LockFree(c: int, d: SleepLock) { c == LOCK_CHAN && !d.locked }

  function Owes(k: At): set<int> { if k == RWake then {LOCK_CHAN} else {} }

  predicate Anything(k: At, d: SleepLock) { true }

  function Rule(): Notes<At, SleepLock> { Notes(LockFree, Owes, Anything) }

  /** The code follows the wakeup rule and owes nothing when it releases the spinlock. */
  lemma FollowsRule()
    ensures Disciplined(Calls(), Rule())
    ensures forall k, d, b, p :: Calls().code(k, d, b, p).Release? ==> Rule().owed(k) == {}
  {
    forall k, d, b, p
      ensures Obeys(Calls(), Rule(), k, d, Calls().code(k, d, b, p))
    {
      match k
      case AWhile =>
      case _ =>
    }
  }

  /** acquiresleep sleeps exactly while the lock is held, and otherwise leaves it held under the
      caller's pid; releasesleep leaves it free, with no pid, and then wakes the sleepers. */
  lemma CallsMean(d: SleepLock, killed: bool, p: nat)
    ensures Code(AWhile, d, killed, p).Sleep? <==> d.locked
    ensures !d.locked ==> var ins := Code(AWhile, d, killed, p); ins.Do? && ins.d.locked && ins.d.pid == Pid(p) && ins.k == ADone
    ensures var ins := Code(RClear, d, killed, p); ins.Do? && !ins.d.locked && ins.d.pid == 0 && Code(ins.k, ins.d, killed, p).Wakeup?
    ensures forall q :: Pid(q) == Pid(p) ==> q == p
    ensures Pid(p) != 0
  {
  }

  // ----- one holder

  /** releasesleep is called only by a process that holds the lock; the code does not check. */
  predicate Proper(s: State<At, SleepLock>, step: Step<At>) {
    step.Start? && step.k == RClear ==> step.p in s.d.holders
  }

  ghost predicate Follows(s: State<At, SleepLock>, steps: seq<Step<At>>)
    requires Legal(Calls(), s, steps)
    decreases |steps|
  {
    steps == [] || (Proper(s, steps[0]) && Follows(Next(Calls(), s, steps[0]), steps[1..]))
  }

  predicate OneHolder(d: SleepLock) {
    if d.locked then d.pid > 0 && d.holders == {d.pid - 1} else d.pid == 0 && d.holders == {}
  }

  predicate Releasing(pc: Pc<At>) { !pc.Idle? && pc.k == RClear }

  ghost predicate Holding(s: State<At, SleepLock>) {
    && OneHolder(s.d)
    && forall i :: 0 <= i < |s.ps| && Releasing(s.ps[i].pc) ==> i in s.d.holders
  }

  lemma HoldingStep(s: State<At, SleepLock>, step: Step<At>)
    requires Holding(s) && Enabled(Calls(), s, step) && Proper(s, step)
    ensures Holding(Next(Calls(), s, step))
  {
  }

  lemma {:induction false} HoldingRun(s: State<At, SleepLock>, steps: seq<Step<At>>)
    requires Holding(s) && Legal(Calls(), s, steps) && Follows(s, steps)
    ensures Holding(Exec(Calls(), s, steps))
    decreases |steps|
  {
    hide Holding, Next, Enabled, Proper;
    if steps != [] {
      HoldingStep(s, steps[0]);
      HoldingRun(Next(Calls(), s, steps[0]), steps[1..]);
    }
  }

  function Unlocked(): SleepLock { SleepLock(false, 0, {}) }

  /** In every interleaving a sleep lock has at most one holder and its pid field names it;
      and while its spinlock is free nobody sleeps, or is about to, for a lock that is free. */
  lemma SleepLockSafe(nproc: nat, steps: seq<Step<At>>, i: nat, j: nat)
    requires Legal(Calls(), Init(Unlocked(), nproc), steps)
    ensures var s := Exec(Calls(), Init(Unlocked(), nproc), steps);
            s.lk.Free? && i < |s.ps| && s.ps[i].pc.SleepsOn(LOCK_CHAN) ==> s.d.locked
    ensures Follows(Init(Unlocked(), nproc), steps) ==>
              var s := Exec(Calls(), Init(Unlocked(), nproc), steps);
              && (i in s.d.holders && j in s.d.holders ==> i == j)
              && (i in s.d.holders <==> s.d.locked && s.d.pid == Pid(i))
              && (!s.d.locked ==> s.d.pid == 0)
  {
    FollowsRule();
    NoLostWakeup(Calls(), Rule(), Unlocked(), nproc, steps);
    var s := Exec(Calls(), Init(Unlocked(), nproc), steps);
    assert s.lk.Free? && i < |s.ps| && s.ps[i].pc.SleepsOn(LOCK_CHAN) ==> !Rule().cond(LOCK_CHAN, s.d);
    if Follows(Init(Unlocked(), nproc), steps) {
      HoldingRun(Init(Unlocked(), nproc), steps);
    }
  }
}
