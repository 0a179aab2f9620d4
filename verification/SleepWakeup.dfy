/** sleep, wakeup and kill of proc.c under programs that share data protected by a spinlock,
    for any number of processes, channels and any program. A step is one lock acquisition,
    one release or one instruction made while the lock is held; what a process may do next
    comes from its program alone. */
module SleepWakeup {
  datatype Lock = Free | Held(p: nat)

  /** What a program does at a code point while it holds the lock. */
  datatype Instr<+K, +D> =
    | Do(d: D, k: K)
    | Wakeup(c: int, k: K)
    | Sleep(c: int, k: K)
    | Release

  /** `code` says what happens at a code point, given the data, whether the process has been
      killed and which process it is; a call begins at an entry point, about to take the lock. */
  datatype Program<!K, !D> = Program(code: (K, D, bool, nat) -> Instr<K, D>, entry: K -> bool)

  /** Where a process is. */
  datatype Pc<K> =
    | Idle
    | Enter(k: K)                 // about to acquire the lock
    | In(k: K)
    | SleepPt(c: int, k: K)       // in sleep, about to acquire ptable.lock
    | SleepRel(c: int, k: K)      // has it, about to release the lock
    | SleepSet(c: int, k: K)      // about to become SLEEPING and call sched
    | Asleep(c: int, k: K)
    | Woken(k: K)                 // about to acquire the lock again
    | WakePt(c: int, k: K)        // in wakeup, about to acquire ptable.lock
    | WakeRun(c: int, k: K)       // about to run wakeup1
  {
    predicate HasLk() { In? || SleepPt? || SleepRel? || WakePt? || WakeRun? }
    predicate HasPt() { SleepRel? || SleepSet? || WakeRun? }
    predicate SleepsOn(ch: int) { (SleepPt? || SleepRel? || SleepSet? || Asleep?) && c == ch }
    predicate Inside() { In? || WakePt? || WakeRun? }
  }

  datatype Proc<K> = Proc(pc: Pc<K>, killed: bool)

  datatype State<K, D> = State(d: D, lk: Lock, pt: Lock, ps: seq<Proc<K>>)

  datatype Step<K> = Start(p: nat, k: K) | Run(p: nat) | Kill(p: nat)

  predicate Enabled<K, D>(prog: Program<K, D>, s: State<K, D>, step: Step<K>) {
    && step.p < |s.ps|
    && var pc := s.ps[step.p].pc;
       match step
       case Start(_, k) => pc.Idle? && prog.entry(k)
       case Kill(_) => s.pt.Free?
       case Run(_) =>
         match pc
         case Idle => false
         case Asleep(_, _) => false
         case Enter(_) => s.lk.Free?
         case Woken(_) => s.lk.Free?
         case SleepPt(_, _) => s.pt.Free?
         case WakePt(_, _) => s.pt.Free?
         case _ => true
  }

  /** wakeup1. */
  function Wake<K>(ps: seq<Proc<K>>, c: int): (r: seq<Proc<K>>)
    ensures |r| == |ps|
    ensures forall i :: 0 <= i < |ps| ==>
              r[i] == if ps[i].pc.Asleep? && ps[i].pc.c == c then ps[i].(pc := Woken(ps[i].pc.k)) else ps[i]
  {
    seq(|ps|, i requires 0 <= i < |ps| =>
      if ps[i].pc.Asleep? && ps[i].pc.c == c then ps[i].(pc := Woken(ps[i].pc.k)) else ps[i])
  }

  function Move<K, D>(s: State<K, D>, p: nat, pc: Pc<K>): State<K, D>
    requires p < |s.ps|
  {
    s.(ps := s.ps[p := s.ps[p].(pc := pc)])
  }

  function Next<K, D>(prog: Program<K, D>, s: State<K, D>, step: Step<K>): State<K, D>
    requires Enabled(prog, s, step)
  {
    var p := step.p;
    var pc := s.ps[p].pc;
    match step
    case Start(_, k) => Move(s, p, Enter(k))
    case Kill(_) => s.(ps := s.ps[p := Proc(if pc.Asleep? then Woken(pc.k) else pc, true)])
    case Run(_) =>
      match pc
      case Enter(k) => Move(s, p, In(k)).(lk := Held(p))
      case Woken(k) => Move(s, p, In(k)).(lk := Held(p))
      case In(k) =>
        (match prog.code(k, s.d, s.ps[p].killed, p)
         case Do(d, k') => Move(s, p, In(k')).(d := d)
         case Wakeup(c, k') => Move(s, p, WakePt(c, k'))
         case Sleep(c, k') => Move(s, p, SleepPt(c, k'))
         case Release => Move(s, p, Idle).(lk := Free))
      case SleepPt(c, k) => Move(s, p, SleepRel(c, k)).(pt := Held(p))
      case SleepRel(c, k) => Move(s, p, SleepSet(c, k)).(lk := Free)
      case SleepSet(c, k) => Move(s, p, Asleep(c, k)).(pt := Free)
      case WakePt(c, k) => Move(s, p, WakeRun(c, k)).(pt := Held(p))
      case WakeRun(c, k) => State(s.d, s.lk, Free, Wake(s.ps, c)[p := s.ps[p].(pc := In(k))])
  }

  function Init<K, D>(d: D, nproc: nat): State<K, D> {
    State(d, Free, Free, seq(nproc, i => Proc(Idle, false)))
  }

  predicate Legal<K, D>(prog: Program<K, D>, s: State<K, D>, steps: seq<Step<K>>)
    decreases |steps|
  {
    steps == [] || (Enabled(prog, s, steps[0]) && Legal(prog, Next(prog, s, steps[0]), steps[1..]))
  }

  function Exec<K, D>(prog: Program<K, D>, s: State<K, D>, steps: seq<Step<K>>): State<K, D>
    requires Legal(prog, s, steps)
    decreases |steps|
  {
    if steps == [] then s else Exec(prog, Next(prog, s, steps[0]), steps[1..])
  }

  // ----- the rule a program has to follow

  /** The condition each channel stands for; the channels a process at k has made true without
      a wakeup yet; what holds of the data at k. */
  datatype Notes<!K, !D> = Notes(cond: (int, D) -> bool, owed: K -> set<int>, at: (K, D) -> bool)

  /** From d0 to d1 only the conditions of `owed` became true. */
  ghost predicate Announces<D>(cond: (int, D) -> bool, d0: D, d1: D, owed: set<int>) {
    forall c :: !cond(c, d0) && cond(c, d1) ==> c in owed
  }

  ghost predicate Obeys<K, D>(prog: Program<K, D>, a: Notes<K, D>, k: K, d: D, ins: Instr<K, D>) {
    match ins
    case Do(d', k') => a.at(k', d') && a.owed(k) <= a.owed(k') && Announces(a.cond, d, d', a.owed(k'))
    case Wakeup(c, k') => a.at(k', d) && a.owed(k) <= a.owed(k') + {c}
    case Sleep(c, k') => prog.entry(k') && a.owed(k) == {} && !a.cond(c, d)
    case Release => true
  }

  /** Every instruction keeps track of what it owes, and a program sleeps only on a condition
      that is false and owing nothing. Whether it owes something when it leaves is another
      matter. */
  ghost predicate Disciplined<K(!new), D(!new)>(prog: Program<K, D>, a: Notes<K, D>) {
    && (forall k, d, b, p :: a.at(k, d) ==> Obeys(prog, a, k, d, prog.code(k, d, b, p)))
    && (forall k, d :: prog.entry(k) ==> a.at(k, d))
  }

  // ----- what every step keeps

  ghost predicate Locks<K, D>(s: State<K, D>) {
    && (forall i :: 0 <= i < |s.ps| ==> (s.ps[i].pc.HasLk() <==> s.lk == Held(i)))
    && (forall i :: 0 <= i < |s.ps| ==> (s.ps[i].pc.HasPt() <==> s.pt == Held(i)))
    && (s.lk.Held? ==> s.lk.p < |s.ps|)
    && (s.pt.Held? ==> s.pt.p < |s.ps|)
  }

  /** What a process knows of the data where it is. */
  ghost predicate Knows<K, D>(prog: Program<K, D>, a: Notes<K, D>, d: D, pc: Pc<K>) {
    if pc.Idle? then true else if pc.Inside() then a.at(pc.k, d) else prog.entry(pc.k)
  }

  ghost predicate Known<K, D>(prog: Program<K, D>, a: Notes<K, D>, s: State<K, D>) {
    forall i :: 0 <= i < |s.ps| ==> Knows(prog, a, s.d, s.ps[i].pc)
  }

  function Owed<K, D>(a: Notes<K, D>, pc: Pc<K>): set<int> {
    if pc.In? then a.owed(pc.k) else if pc.WakePt? || pc.WakeRun? then a.owed(pc.k) + {pc.c} else {}
  }

  /** A sleeper whose condition holds is owed a wakeup by the holder of the lock. */
  ghost predicate Announced<K, D>(a: Notes<K, D>, s: State<K, D>) {
    forall i, c :: 0 <= i < |s.ps| && s.ps[i].pc.SleepsOn(c) && a.cond(c, s.d) ==>
      s.lk.Held? && s.lk.p < |s.ps| && c in Owed(a, s.ps[s.lk.p].pc)
  }

  /** Whenever the lock is free, nobody sleeps, or is about to, on a condition that holds. */
  ghost predicate Fine<K, D>(a: Notes<K, D>, s: State<K, D>) {
    s.lk.Free? ==> forall i, c :: 0 <= i < |s.ps| && s.ps[i].pc.SleepsOn(c) ==> !a.cond(c, s.d)
  }

  /** This step leaves the lock owing a wakeup to a process that sleeps. */
  ghost predicate Forgets<K, D>(prog: Program<K, D>, a: Notes<K, D>, s: State<K, D>, step: Step<K>)
    requires Enabled(prog, s, step)
  {
    var pr := s.ps[step.p];
    && step.Run? && pr.pc.In? && prog.code(pr.pc.k, s.d, pr.killed, step.p).Release?
    && exists i, c :: 0 <= i < |s.ps| && s.ps[i].pc.SleepsOn(c) && a.cond(c, s.d) && c in a.owed(pr.pc.k)
  }

  /** What a step does to the locks and to the other processes. */
  lemma Effect<K, D>(prog: Program<K, D>, s: State<K, D>, step: Step<K>)
    requires Enabled(prog, s, step)
    ensures var p, s' := step.p, Next(prog, s, step);
            var pc, pc' := s.ps[p].pc, s'.ps[p].pc;
            && |s'.ps| == |s.ps| && p < |s.ps|
            && (forall i :: 0 <= i < |s.ps| && i != p ==>
                  s'.ps[i].pc.HasLk() == s.ps[i].pc.HasLk() && s'.ps[i].pc.HasPt() == s.ps[i].pc.HasPt())
            && s'.lk == (if !pc.HasLk() && pc'.HasLk() then Held(p) else if pc.HasLk() && !pc'.HasLk() then Free else s.lk)
            && s'.pt == (if !pc.HasPt() && pc'.HasPt() then Held(p) else if pc.HasPt() && !pc'.HasPt() then Free else s.pt)
            && (!pc.HasLk() && pc'.HasLk() ==> s.lk.Free?)
            && (!pc.HasPt() && pc'.HasPt() ==> s.pt.Free?)
  {
  }

  lemma LocksStep<K, D>(prog: Program<K, D>, s: State<K, D>, step: Step<K>)
    requires Locks(s) && Enabled(prog, s, step)
    ensures Locks(Next(prog, s, step))
  {
    hide Next, Enabled;
    Effect(prog, s, step);
  }

  /** Only the holder of the lock changes the data. */
  lemma KnownStep<K(!new), D(!new)>(prog: Program<K, D>, a: Notes<K, D>, s: State<K, D>, step: Step<K>)
    requires Disciplined(prog, a) && Locks(s) && Known(prog, a, s) && Enabled(prog, s, step)
    ensures Known(prog, a, Next(prog, s, step))
  {
    var p, s' := step.p, Next(prog, s, step);
    assert Knows(prog, a, s.d, s.ps[p].pc);
    forall i | 0 <= i < |s'.ps|
      ensures Knows(prog, a, s'.d, s'.ps[i].pc)
    {
      assert Knows(prog, a, s.d, s.ps[i].pc);
    }
  }

  lemma AnnouncedStep<K(!new), D(!new)>(prog: Program<K, D>, a: Notes<K, D>, s: State<K, D>, step: Step<K>)
    requires Disciplined(prog, a) && Locks(s) && Known(prog, a, s) && Announced(a, s) && Enabled(prog, s, step)
    requires !Forgets(prog, a, s, step)
    ensures Announced(a, Next(prog, s, step))
  {
    var p, s' := step.p, Next(prog, s, step);
    assert Knows(prog, a, s.d, s.ps[p].pc);
    forall i, c | 0 <= i < |s'.ps| && s'.ps[i].pc.SleepsOn(c) && a.cond(c, s'.d)
      ensures s'.lk.Held? && s'.lk.p < |s'.ps| && c in Owed(a, s'.ps[s'.lk.p].pc)
    {
      if s.ps[i].pc.SleepsOn(c) && a.cond(c, s.d) {
        assert s.lk.Held? && c in Owed(a, s.ps[s.lk.p].pc);
      }
    }
  }

  ghost predicate Inv<K, D>(prog: Program<K, D>, a: Notes<K, D>, s: State<K, D>) {
    Locks(s) && Known(prog, a, s) && Announced(a, s)
  }

  lemma InvStep<K(!new), D(!new)>(prog: Program<K, D>, a: Notes<K, D>, s: State<K, D>, step: Step<K>)
    requires Disciplined(prog, a) && Inv(prog, a, s) && Enabled(prog, s, step) && !Forgets(prog, a, s, step)
    ensures Inv(prog, a, Next(prog, s, step))
  {
    hide Next, Locks, Known, Announced, Enabled, Forgets, Disciplined;
    LocksStep(prog, s, step);
    KnownStep(prog, a, s, step);
    AnnouncedStep(prog, a, s, step);
  }

  // ----- whole runs

  /** No step of the run forgets a wakeup. */
  ghost predicate NeverForgets<K, D>(prog: Program<K, D>, a: Notes<K, D>, s: State<K, D>, steps: seq<Step<K>>)
    requires Legal(prog, s, steps)
    decreases |steps|
  {
    steps == [] || (!Forgets(prog, a, s, steps[0]) && NeverForgets(prog, a, Next(prog, s, steps[0]), steps[1..]))
  }

  ghost predicate AlwaysFine<K, D>(prog: Program<K, D>, a: Notes<K, D>, s: State<K, D>, steps: seq<Step<K>>)
    requires Legal(prog, s, steps)
    decreases |steps|
  {
    Fine(a, s) && (steps == [] || AlwaysFine(prog, a, Next(prog, s, steps[0]), steps[1..]))
  }

  lemma InvInit<K, D>(prog: Program<K, D>, a: Notes<K, D>, d: D, nproc: nat)
    ensures Inv(prog, a, Init(d, nproc))
  {
  }

  lemma {:induction false} CoreRun<K(!new), D(!new)>(prog: Program<K, D>, a: Notes<K, D>, s: State<K, D>, steps: seq<Step<K>>)
    requires Disciplined(prog, a) && Locks(s) && Known(prog, a, s) && Legal(prog, s, steps)
    ensures Locks(Exec(prog, s, steps)) && Known(prog, a, Exec(prog, s, steps))
    decreases |steps|
  {
    hide Next, Locks, Known, Enabled, Disciplined;
    if steps != [] {
      LocksStep(prog, s, steps[0]);
      KnownStep(prog, a, s, steps[0]);
      CoreRun(prog, a, Next(prog, s, steps[0]), steps[1..]);
    }
  }

  lemma {:induction false} InvRun<K(!new), D(!new)>(prog: Program<K, D>, a: Notes<K, D>, s: State<K, D>, steps: seq<Step<K>>)
    requires Disciplined(prog, a) && Inv(prog, a, s) && Legal(prog, s, steps) && NeverForgets(prog, a, s, steps)
    ensures Inv(prog, a, Exec(prog, s, steps))
    decreases |steps|
  {
    hide Next, Inv, Enabled, Disciplined, Forgets;
    if steps != [] {
      InvStep(prog, a, s, steps[0]);
      InvRun(prog, a, Next(prog, s, steps[0]), steps[1..]);
    }
  }

  /** A forgotten wakeup leaves a process asleep on a condition that holds, with the lock free. */
  lemma ForgottenIsStuck<K, D>(prog: Program<K, D>, a: Notes<K, D>, s: State<K, D>, step: Step<K>)
    requires Locks(s) && Enabled(prog, s, step) && Forgets(prog, a, s, step)
    ensures !Fine(a, Next(prog, s, step))
  {
    var p, s' := step.p, Next(prog, s, step);
    var i, c :| 0 <= i < |s.ps| && s.ps[i].pc.SleepsOn(c) && a.cond(c, s.d) && c in a.owed(s.ps[p].pc.k);
    assert s'.ps[i].pc.SleepsOn(c);
  }

  /** For a program that follows the rule, nobody is ever left asleep on a condition that holds
      exactly if no step of the run forgets a wakeup. */
  lemma {:induction false} LostIff<K(!new), D(!new)>(prog: Program<K, D>, a: Notes<K, D>, s: State<K, D>, steps: seq<Step<K>>)
    requires Disciplined(prog, a) && Inv(prog, a, s) && Legal(prog, s, steps)
    ensures AlwaysFine(prog, a, s, steps) <==> NeverForgets(prog, a, s, steps)
    decreases |steps|
  {
    hide Next, Locks, Known, Enabled, Disciplined, Forgets;
    if steps != [] {
      var s' := Next(prog, s, steps[0]);
      if Forgets(prog, a, s, steps[0]) {
        ForgottenIsStuck(prog, a, s, steps[0]);
        assert !AlwaysFine(prog, a, s', steps[1..]);
      } else {
        InvStep(prog, a, s, steps[0]);
        LostIff(prog, a, s', steps[1..]);
      }
    }
  }

  /** No lost wakeup: a program that follows the rule and owes nothing when it leaves the lock
      never leaves a process asleep, or about to sleep, on a condition that holds while the
      lock is free; and two processes never hold the lock at once. */
  lemma NoLostWakeup<K(!new), D(!new)>(prog: Program<K, D>, a: Notes<K, D>, d: D, nproc: nat, steps: seq<Step<K>>)
    requires Disciplined(prog, a) && Legal(prog, Init(d, nproc), steps)
    requires forall k, d', b, p :: a.at(k, d') && prog.code(k, d', b, p).Release? ==> a.owed(k) == {}
    ensures AlwaysFine(prog, a, Init(d, nproc), steps) && Fine(a, Exec(prog, Init(d, nproc), steps))
    ensures var s := Exec(prog, Init(d, nproc), steps);
            forall i, j :: 0 <= i < j < |s.ps| ==> !(s.ps[i].pc.HasLk() && s.ps[j].pc.HasLk())
  {
    InvInit(prog, a, d, nproc);
    PaysUp(prog, a, Init(d, nproc), steps);
    LostIff(prog, a, Init(d, nproc), steps);
    InvRun(prog, a, Init(d, nproc), steps);
    FineAtEnd(prog, a, Init(d, nproc), steps);
  }

  lemma {:induction false} FineAtEnd<K, D>(prog: Program<K, D>, a: Notes<K, D>, s: State<K, D>, steps: seq<Step<K>>)
    requires Legal(prog, s, steps) && AlwaysFine(prog, a, s, steps)
    ensures Fine(a, Exec(prog, s, steps))
    decreases |steps|
  {
    hide Fine, Next, Enabled;
    if steps != [] { FineAtEnd(prog, a, Next(prog, s, steps[0]), steps[1..]); }
  }

  lemma {:induction false} PaysUp<K(!new), D(!new)>(prog: Program<K, D>, a: Notes<K, D>, s: State<K, D>, steps: seq<Step<K>>)
    requires Disciplined(prog, a) && Locks(s) && Known(prog, a, s) && Legal(prog, s, steps)
    requires forall k, d, b, p :: a.at(k, d) && prog.code(k, d, b, p).Release? ==> a.owed(k) == {}
    ensures NeverForgets(prog, a, s, steps)
    decreases |steps|
  {
    if steps != [] {
      assert Knows(prog, a, s.d, s.ps[steps[0].p].pc);
      assert !Forgets(prog, a, s, steps[0]);
      hide Next, Locks, Known, Enabled, Disciplined, Forgets;
      LocksStep(prog, s, steps[0]);
      KnownStep(prog, a, s, steps[0]);
      PaysUp(prog, a, Next(prog, s, steps[0]), steps[1..]);
    }
  }

  /** Something every instruction keeps true of the data holds in every run. */
  lemma {:induction false} DataRun<K(!new), D(!new)>(prog: Program<K, D>, j: D -> bool, s: State<K, D>, steps: seq<Step<K>>)
    requires Legal(prog, s, steps) && j(s.d)
    requires forall k, d, b, p :: j(d) && prog.code(k, d, b, p).Do? ==> j(prog.code(k, d, b, p).d)
    ensures j(Exec(prog, s, steps).d)
    decreases |steps|
  {
    if steps != [] {
      var s' := Next(prog, s, steps[0]);
      assert j(s'.d);
      hide Next, Enabled;
      DataRun(prog, j, s', steps[1..]);
    }
  }
}
