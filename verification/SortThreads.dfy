/** sort_worker of tsort.c and barrier_wait of barrier.c as a step system: any number of
    threads, every interleaving, spurious wakeups included. Loads and stores of shared
    variables are steps of their own. */
module SortThreads {
  import opened SampleSort

  datatype Env = Env(a: Floats, med: seq<Bound>, T: nat)

  ghost predicate Sound(e: Env) { Bounds(e.med, e.T) && NonNegative(e.a) }

  datatype Pc =
    | Scan      // in in_range
    | Arrive    // about to lock seen_lock
    | Load      // seen++: about to read
    | Bump      // seen++: about to write
    | Unsee     // about to unlock seen_lock
    | Wall      // about to lock wall
    | Check     // holds wall, at the loop test
    | Doze      // holds wall, has decided to wait
    | Wait      // asleep on condvar, without wall
    | Woken     // about to lock wall again
    | Pass      // out of the loop, about to broadcast
    | Leave     // about to unlock wall
    | Sum       // adding up sizes
    | Copy      // in memcpy
    | Done
  {
    predicate HasSeenLock() { Load? || Bump? || Unsee? }
    predicate HasWall() { Check? || Doze? || Pass? || Leave? }
    predicate Past() { Pass? || Leave? || Sum? || Copy? || Done? }
    predicate Arrived() { Past() || Unsee? || Wall? || Check? || Doze? || Wait? || Woken? }
    predicate WillWake() { Unsee? || Wall? || Check? || Woken? || Pass? }
  }

  /** A thread and its local variables. */
  datatype Thread = Thread(pc: Pc, range: Floats, i: nat, count: int, reg: nat)

  datatype Lock = Free | Held(t: nat)

  datatype State = State(data: Floats, sizes: seq<int>, seen: nat, seenLock: Lock, wall: Lock, ths: seq<Thread>)

  datatype Step = Run(t: nat) | Spurious(t: nat)

  predicate Enabled(e: Env, s: State, step: Step) {
    && step.t < |s.ths| && step.t < |s.sizes|
    && var pc := s.ths[step.t].pc;
       if step.Spurious? then pc.Wait?
       else match pc
         case Arrive => s.seenLock.Free?
         case Wall => s.wall.Free?
         case Woken => s.wall.Free?
         case Wait => false
         case Done => false
         case _ => true
  }

  function Put<X>(s: seq<X>, k: int, x: X): (r: seq<X>)
    ensures |r| == |s|
  {
    if 0 <= k < |s| then s[k := x] else s
  }

  /** pthread_cond_broadcast. */
  function WakeAll(ths: seq<Thread>): (r: seq<Thread>)
    ensures |r| == |ths|
    ensures forall u :: 0 <= u < |ths| ==> r[u] == if ths[u].pc.Wait? then ths[u].(pc := Woken) else ths[u]
  {
    seq(|ths|, u requires 0 <= u < |ths| => if ths[u].pc.Wait? then ths[u].(pc := Woken) else ths[u])
  }

  /** What a step does to the thread that takes it. */
  function Moved(e: Env, s: State, t: nat): Thread
    requires t < |s.ths| && t + 1 < |e.med| && Enabled(e, s, Run(t))
  {
    var th := s.ths[t];
    match th.pc
    case Scan =>
      if th.i < |s.data| then
        var x := s.data[th.i];
        if AtLeast(x, e.med[t]) && Below(x, e.med[t + 1])
        then th.(range := th.range + [x], i := th.i + 1)
        else th.(i := th.i + 1)
      else th.(range := Sort(th.range), pc := Arrive)
    case Arrive => th.(pc := Load)
    case Load => th.(pc := Bump, reg := s.seen)
    case Bump => th.(pc := Unsee)
    case Unsee => th.(pc := Wall)
    case Wall => th.(pc := Check)
    case Woken => th.(pc := Check)
    case Check => th.(pc := if s.seen < e.T then Doze else Pass)
    case Doze => th.(pc := Wait)
    case Pass => th.(pc := Leave)
    case Leave => th.(pc := Sum, i := 0, count := 0)
    case Sum =>
      if th.i < t && th.i < |s.sizes| then th.(count := th.count + s.sizes[th.i], i := th.i + 1)
      else th.(pc := Copy, i := 0)
    case Copy => if th.i < |th.range| then th.(i := th.i + 1) else th.(pc := Done)
  }

  function Do(e: Env, s: State, step: Step): State
    requires Enabled(e, s, step) && step.t + 1 < |e.med|
  {
    var t := step.t;
    var th := s.ths[t];
    if step.Spurious? then s.(ths := s.ths[t := th.(pc := Woken)])
    else
      var s' := s.(ths := s.ths[t := Moved(e, s, t)]);
      match th.pc
      case Scan => if th.i < |s.data| then s' else s'.(sizes := s.sizes[t := |th.range|])
      case Arrive => s'.(seenLock := Held(t))
      case Bump => s'.(seen := th.reg + 1)
      case Unsee => s'.(seenLock := Free)
      case Wall => s'.(wall := Held(t))
      case Woken => s'.(wall := Held(t))
      case Doze => s'.(wall := Free)
      case Pass => if s.seen >= e.T then s'.(ths := WakeAll(s'.ths)) else s'
      case Leave => s'.(wall := Free)
      case Copy => if th.i < |th.range| then s'.(data := Put(s.data, th.count + th.i, th.range[th.i])) else s'
      case _ => s'
  }

  /** sizes is an uninitialised array in main. */
  function Init(e: Env, sizes: seq<int>): State {
    State(e.a, sizes, 0, Free, Free, seq(e.T, t => Thread(Scan, [], 0, 0, 0)))
  }

  // ----- the invariant, piece by piece

  ghost predicate Shape(e: Env, s: State) {
    && Sound(e)
    && |s.ths| == e.T && |s.sizes| == e.T && |s.data| == |e.a|
  }

  ghost predicate Locks(s: State) {
    && (forall t :: 0 <= t < |s.ths| ==> (s.ths[t].pc.HasSeenLock() <==> s.seenLock == Held(t)))
    && (forall t :: 0 <= t < |s.ths| ==> (s.ths[t].pc.HasWall() <==> s.wall == Held(t)))
    && (s.seenLock.Held? ==> s.seenLock.t < |s.ths|)
    && (s.wall.Held? ==> s.wall.t < |s.ths|)
  }

  function Arrivals(ths: seq<Thread>): (n: nat)
    ensures n <= |ths|
  {
    if ths == [] then 0 else Arrivals(ths[1..]) + if ths[0].pc.Arrived() then 1 else 0
  }

  /** seen counts the threads that have arrived, and nobody passes before all have. */
  ghost predicate Gate(e: Env, s: State) {
    && s.seen == Arrivals(s.ths)
    && (forall t :: 0 <= t < |s.ths| && s.ths[t].pc.Bump? ==> s.ths[t].reg == s.seen)
    && (forall t :: 0 <= t < |s.ths| && s.ths[t].pc.Past() ==> s.seen == e.T)
  }

  /** Once all have arrived, whoever waits will be woken. */
  ghost predicate Wakes(e: Env, s: State) {
    (exists t :: 0 <= t < |s.ths| && (s.ths[t].pc.Wait? || s.ths[t].pc.Doze?)) && s.seen == e.T ==>
      exists u :: 0 <= u < |s.ths| && s.ths[u].pc.WillWake()
  }

  /** A thread's locals. */
  ghost predicate LocalOk(e: Env, th: Thread, t: nat)
    requires t + 1 < |e.med|
  {
    match th.pc
    case Scan => th.i <= |e.a| && th.range == Ranged(e.a[..th.i], e.med[t], e.med[t + 1])
    case Sum => th.range == Part(e.a, e.med, t) && th.i <= t && th.count == Offset(e.a, e.med, th.i)
    case Copy => th.range == Part(e.a, e.med, t) && th.i <= |th.range| && th.count == Offset(e.a, e.med, t)
    case _ => th.range == Part(e.a, e.med, t)
  }

  ghost predicate Locals(e: Env, s: State)
    requires Shape(e, s)
  {
    forall t :: 0 <= t < |s.ths| ==>
      LocalOk(e, s.ths[t], t) && (!s.ths[t].pc.Scan? ==> s.sizes[t] == |Part(e.a, e.med, t)|)
  }

  function Written(th: Thread): nat {
    if th.pc.Copy? then th.i else if th.pc.Done? then |th.range| else 0
  }

  ghost predicate Placed(e: Env, s: State, t: nat, j: nat)
    requires Shape(e, s) && t < e.T
  {
    PlacedAt(e.a, e.med, s.data, t, j)
  }

  ghost predicate Output(e: Env, s: State)
    requires Shape(e, s)
  {
    && (s.seen < e.T ==> s.data == e.a)
    && (forall t, j :: 0 <= t < |s.ths| && 0 <= j < Written(s.ths[t]) ==> Placed(e, s, t, j))
  }

  ghost predicate Inv(e: Env, s: State) {
    Shape(e, s) && Locks(s) && Gate(e, s) && Wakes(e, s) && Locals(e, s) && Output(e, s)
  }

  // ----- counting arrivals

  lemma {:induction false} ArrivalsUpdate(ths: seq<Thread>, t: nat, th: Thread)
    requires t < |ths|
    ensures Arrivals(ths[t := th]) ==
            Arrivals(ths) - (if ths[t].pc.Arrived() then 1 else 0) + (if th.pc.Arrived() then 1 else 0)
  {
    if t == 0 {
      assert ths[t := th][1..] == ths[1..];
    } else {
      assert ths[t := th][1..] == ths[1..][t - 1 := th];
      ArrivalsUpdate(ths[1..], t - 1, th);
    }
  }

  lemma {:induction false} ArrivalsWake(ths: seq<Thread>)
    ensures Arrivals(WakeAll(ths)) == Arrivals(ths)
  {
    if ths != [] {
      assert WakeAll(ths)[1..] == WakeAll(ths[1..]);
      ArrivalsWake(ths[1..]);
    }
  }

  lemma {:induction false} ArrivalsAll(ths: seq<Thread>)
    ensures Arrivals(ths) == |ths| <==> forall t :: 0 <= t < |ths| ==> ths[t].pc.Arrived()
  {
    if ths != [] {
      ArrivalsAll(ths[1..]);
      assert forall t :: 0 < t < |ths| ==> ths[t] == ths[1..][t - 1];
      assert forall t :: 0 <= t < |ths[1..]| ==> ths[1..][t] == ths[t + 1];
    }
  }

  lemma {:induction false} ArrivalsNone(ths: seq<Thread>)
    requires forall t :: 0 <= t < |ths| ==> ths[t].pc.Scan?
    ensures Arrivals(ths) == 0
  {
    if ths != [] { ArrivalsNone(ths[1..]); }
  }

  // ----- every step keeps it

  /** Where a step can take a thread, and what that says about the shared state. */
  predicate Jump(e: Env, s: State, pc: Pc, pc': Pc) {
    match pc
    case Scan => pc' == Scan || pc' == Arrive
    case Arrive => pc' == Load && s.seenLock.Free?
    case Load => pc' == Bump
    case Bump => pc' == Unsee
    case Unsee => pc' == Wall
    case Wall => pc' == Check && s.wall.Free?
    case Woken => pc' == Check && s.wall.Free?
    case Check => if s.seen < e.T then pc' == Doze else pc' == Pass
    case Doze => pc' == Wait
    case Wait => pc' == Woken
    case Pass => pc' == Leave
    case Leave => pc' == Sum
    case Sum => pc' == Sum || pc' == Copy
    case Copy => pc' == Copy || pc' == Done
    case Done => false
  }

  /** What a step of t does to the barrier and to the other threads. */
  ghost predicate Effect(e: Env, s: State, s': State, t: nat)
    requires t < |s.ths|
  {
    var th := s.ths[t];
    && |s'.ths| == |s.ths| && |s'.sizes| == |s.sizes| && |s'.data| == |s.data|
    && Jump(e, s, th.pc, s'.ths[t].pc)
    && (forall u :: 0 <= u < |s.ths| && u != t ==>
          s'.ths[u] == if th.pc.Pass? && s.seen >= e.T && s.ths[u].pc.Wait? then s.ths[u].(pc := Woken) else s.ths[u])
    && s'.seen == (if th.pc.Bump? then th.reg + 1 else s.seen)
    && s'.seenLock == (if th.pc.Arrive? then Held(t) else if th.pc.Unsee? then Free else s.seenLock)
    && s'.wall == (if th.pc.Wall? || th.pc.Woken? then Held(t) else if th.pc.Doze? || th.pc.Leave? then Free else s.wall)
    && (th.pc.Load? ==> s'.ths[t].reg == s.seen)
    && (th.pc.Bump? ==> s'.ths[t].reg == th.reg)
  }

  lemma EffectOf(e: Env, s: State, step: Step)
    requires Shape(e, s) && Enabled(e, s, step)
    ensures Shape(e, Do(e, s, step)) && Effect(e, s, Do(e, s, step), step.t)
  {
    hide Sort, Ranged, Part, Offset, NonNegative;
  }

  lemma LocksStep(e: Env, s: State, s': State, t: nat)
    requires t < |s.ths| && Locks(s) && Effect(e, s, s', t)
    ensures Locks(s')
  {
  }

  lemma ArrivalsStep(e: Env, s: State, s': State, t: nat)
    requires t < |s.ths| && Effect(e, s, s', t)
    ensures Arrivals(s'.ths) == Arrivals(s.ths) + if s.ths[t].pc.Bump? then 1 else 0
  {
    hide Arrivals;
    var ths := s.ths[t := s'.ths[t]];
    ArrivalsUpdate(s.ths, t, s'.ths[t]);
    if s.ths[t].pc.Pass? && s.seen >= e.T {
      ArrivalsWake(ths);
      assert s'.ths == WakeAll(ths);
    } else {
      assert s'.ths == ths;
    }
  }

  lemma GateStep(e: Env, s: State, s': State, t: nat)
    requires t < |s.ths| == e.T && Locks(s) && Gate(e, s) && Effect(e, s, s', t)
    ensures Gate(e, s')
  {
    ArrivalsStep(e, s, s', t);
    ArrivalsAll(s.ths);
    hide Arrivals;
  }

  lemma WakesStep(e: Env, s: State, s': State, t: nat)
    requires t < |s.ths| == e.T && Locks(s) && Gate(e, s) && Wakes(e, s) && Effect(e, s, s', t)
    ensures Wakes(e, s')
  {
    hide Arrivals;
    if v :| 0 <= v < |s'.ths| && (s'.ths[v].pc.Wait? || s'.ths[v].pc.Doze?) && s'.seen == e.T {
      if !s'.ths[t].pc.WillWake() {
        if !s.ths[t].pc.WillWake() {
          assert s.ths[v].pc.Wait? || s.ths[v].pc.Doze?;
          var u :| 0 <= u < |s.ths| && s.ths[u].pc.WillWake();
          assert s'.ths[u].pc.WillWake();
        }
      }
    }
  }

  // ----- the data

  lemma ScanStep(a: Floats, i: nat, lo: Bound, hi: Bound)
    requires i < |a|
    ensures Ranged(a[..i + 1], lo, hi) == Ranged(a[..i], lo, hi) + if AtLeast(a[i], lo) && Below(a[i], hi) then [a[i]] else []
  {
    assert a[..i + 1][..i] == a[..i];
  }

  /** A thread that is still scanning reads the input: nobody has written yet. */
  lemma MovedScan(e: Env, s: State, t: nat)
    requires Shape(e, s) && t < e.T && s.ths[t].pc.Scan? && LocalOk(e, s.ths[t], t) && s.data == e.a
    ensures Enabled(e, s, Run(t)) && LocalOk(e, Moved(e, s, t), t)
    ensures s.ths[t].i >= |s.data| ==> |s.ths[t].range| == |Part(e.a, e.med, t)|
  {
    var th := s.ths[t];
    if th.i < |s.data| {
      ScanStep(e.a, th.i, e.med[t], e.med[t + 1]);
    } else {
      assert e.a[..th.i] == e.a;
    }
    hide Sort, Ranged, Sound;
  }

  lemma MovedRest(e: Env, s: State, t: nat)
    requires Shape(e, s) && t < e.T && Enabled(e, s, Run(t)) && !s.ths[t].pc.Scan? && LocalOk(e, s.ths[t], t)
    requires s.ths[t].pc.Sum? && s.ths[t].i < t ==> s.sizes[s.ths[t].i] == |Part(e.a, e.med, s.ths[t].i)|
    ensures LocalOk(e, Moved(e, s, t), t)
  {
    hide Sort, Ranged, Part, Sound;
  }

  lemma ScansInput(e: Env, s: State, t: nat)
    requires Shape(e, s) && t < e.T && Gate(e, s) && Output(e, s) && s.ths[t].pc.Scan?
    ensures s.data == e.a
  {
    hide Arrivals;
    ArrivalsAll(s.ths);
    assert !s.ths[t].pc.Arrived();
  }

  lemma AllArrived(e: Env, s: State, t: nat, u: nat)
    requires |s.ths| == e.T && t < e.T && u < e.T && Gate(e, s) && s.ths[t].pc.Past()
    ensures s.ths[u].pc.Arrived()
  {
    ArrivalsAll(s.ths);
  }

  /** The thread that moves keeps its locals in order. */
  lemma MovedOk(e: Env, s: State, t: nat)
    requires Shape(e, s) && t < e.T && Enabled(e, s, Run(t)) && Gate(e, s) && Locals(e, s) && Output(e, s)
    ensures LocalOk(e, Moved(e, s, t), t)
    ensures s.ths[t].pc.Scan? && s.ths[t].i >= |s.data| ==> |s.ths[t].range| == |Part(e.a, e.med, t)|
  {
    var th := s.ths[t];
    assert LocalOk(e, th, t);
    if th.pc.Scan? {
      ScansInput(e, s, t);
      MovedScan(e, s, t);
    } else {
      if th.pc.Sum? && th.i < t {
        AllArrived(e, s, t, th.i);
        SizeOf(e, s, th.i);
      }
      MovedRest(e, s, t);
    }
    hide *;
  }

  lemma SizeOf(e: Env, s: State, t: nat)
    requires Shape(e, s) && Locals(e, s) && t < e.T && !s.ths[t].pc.Scan?
    ensures s.sizes[t] == |Part(e.a, e.med, t)|
  {
  }

  lemma LocalKept(e: Env, s: State, s': State, t: nat, u: nat)
    requires Shape(e, s) && Locals(e, s) && t < e.T && u < e.T && u != t && Effect(e, s, s', t)
    ensures LocalOk(e, s'.ths[u], u) && (s'.ths[u].pc.Scan? <==> s.ths[u].pc.Scan?)
  {
    assert LocalOk(e, s.ths[u], u);
    hide Ranged, Part, Offset, Locals;
  }

  lemma LocalsStep(e: Env, s: State, step: Step)
    requires Shape(e, s) && Gate(e, s) && Locals(e, s) && Output(e, s) && Enabled(e, s, step)
    ensures Shape(e, Do(e, s, step)) && Locals(e, Do(e, s, step))
  {
    var t, s' := step.t, Do(e, s, step);
    EffectOf(e, s, step);
    ThreadAfter(e, s, step);
    if step.Run? { MovedOk(e, s, t); }
    assert LocalOk(e, s.ths[t], t);
    hide Do, Moved, Ranged, Part, Offset, Sort, Arrivals, Gate, Output, Sound;
    forall u | 0 <= u < |s'.ths|
      ensures LocalOk(e, s'.ths[u], u) && (!s'.ths[u].pc.Scan? ==> s'.sizes[u] == |Part(e.a, e.med, u)|)
    {
      if u != t { LocalKept(e, s, s', t, u); }
    }
  }

  /** The mover and the sizes after a step. */
  lemma ThreadAfter(e: Env, s: State, step: Step)
    requires Shape(e, s) && Enabled(e, s, step)
    ensures var s', t := Do(e, s, step), step.t;
            && |s'.ths| == |s.ths| && |s'.sizes| == |s.sizes|
            && s'.ths[t] == (if step.Run? then Moved(e, s, t) else s.ths[t].(pc := Woken))
            && s'.sizes == (if s.ths[t].pc.Scan? && s.ths[t].i >= |s.data| then s.sizes[t := |s.ths[t].range|] else s.sizes)
            && s'.data == (if step.Run? && s.ths[t].pc.Copy? && s.ths[t].i < |s.ths[t].range|
                           then Put(s.data, s.ths[t].count + s.ths[t].i, s.ths[t].range[s.ths[t].i]) else s.data)
  {
    hide Sort, Ranged, Part, Offset, NonNegative;
  }

  /** A worker writes inside the array and inside its own stretch of it. */
  lemma OwnSlot(e: Env, t: nat, j: nat)
    requires Sound(e) && t < e.T && j < |Part(e.a, e.med, t)|
    ensures Offset(e.a, e.med, t) + j < |e.a|
  {
    hide Part;
    JoinedSorts(e.a, e.med, e.T);
    OffsetsApart(e.a, e.med, t, e.T);
  }

  lemma OtherSlot(e: Env, t: nat, j: nat, u: nat, k: nat)
    requires Sound(e) && t < e.T && j < |Part(e.a, e.med, t)| && u < e.T && k < |Part(e.a, e.med, u)| && (u, k) != (t, j)
    ensures Offset(e.a, e.med, u) + k != Offset(e.a, e.med, t) + j
  {
    hide Part, Offset;
    if u < t { OffsetsApart(e.a, e.med, u, t); } else if t < u { OffsetsApart(e.a, e.med, t, u); }
  }

  /** Is t about to store element i of its range? */
  predicate Stores(th: Thread) { th.pc.Copy? && th.i < |th.range| }

  lemma WrittenMoved(e: Env, s: State, t: nat)
    requires Shape(e, s) && t < e.T && LocalOk(e, s.ths[t], t) && Enabled(e, s, Run(t))
    ensures Written(Moved(e, s, t)) == Written(s.ths[t]) + if Stores(s.ths[t]) then 1 else 0
  {
    hide Part, Offset, Ranged, Sort, Sound;
  }

  lemma WrittenAfter(e: Env, s: State, step: Step, u: nat)
    requires Shape(e, s) && Locals(e, s) && Enabled(e, s, step) && u < e.T
    ensures var s' := Do(e, s, step);
            && |s'.ths| == |s.ths|
            && Written(s'.ths[u]) == Written(s.ths[u]) + if u == step.t && Stores(s.ths[u]) then 1 else 0
  {
    hide Do, Moved, LocalOk, Jump, NonNegative;
    assert LocalOk(e, s.ths[u], u);
    EffectOf(e, s, step);
    ThreadAfter(e, s, step);
    if u == step.t && step.Run? { WrittenMoved(e, s, u); }
    hide Locals;
  }

  lemma PlacedAfter(e: Env, s: State, s': State, t: nat, u: nat, j: nat)
    requires Shape(e, s) && Shape(e, s') && t < e.T && u < e.T && LocalOk(e, s.ths[t], t)
    requires s.ths[t].pc.Copy? && s.ths[t].i < |s.ths[t].range|
    requires s'.data == Put(s.data, s.ths[t].count + s.ths[t].i, s.ths[t].range[s.ths[t].i])
    requires (u == t && j == s.ths[t].i) || Placed(e, s, u, j)
    ensures Placed(e, s', u, j)
  {
    hide Part, Offset, Ranged, Sort, Sound;
    OwnSlot(e, t, s.ths[t].i);
    if (u, j) != (t, s.ths[t].i) { OtherSlot(e, t, s.ths[t].i, u, j); }
  }

  lemma OutputStep(e: Env, s: State, step: Step)
    requires Shape(e, s) && Gate(e, s) && Locals(e, s) && Output(e, s) && Enabled(e, s, step)
    ensures Shape(e, Do(e, s, step)) && Output(e, Do(e, s, step))
  {
    hide Do, Moved, Part, Offset, PlacedAt, Arrivals, Locals, LocalOk, Written, Put, Jump, NonNegative;
    var t, s' := step.t, Do(e, s, step);
    var th := s.ths[t];
    EffectOf(e, s, step);
    ThreadAfter(e, s, step);
    LocalOf(e, s, t);
    forall u, j | 0 <= u < |s'.ths| && 0 <= j < Written(s'.ths[u])
      ensures Placed(e, s', u, j)
    {
      WrittenAfter(e, s, step, u);
      WrittenIs(th);
      if j < Written(s.ths[u]) { assert Placed(e, s, u, j); }
      if Stores(th) { PlacedAfter(e, s, s', t, u, j); }
    }
  }

  lemma LocalOf(e: Env, s: State, t: nat)
    requires Shape(e, s) && Locals(e, s) && t < e.T
    ensures LocalOk(e, s.ths[t], t)
  {
  }

  lemma WrittenIs(th: Thread)
    ensures th.pc.Copy? ==> Written(th) == th.i
  {
  }

  // ----- runs

  lemma InvStep(e: Env, s: State, step: Step)
    requires Inv(e, s) && Enabled(e, s, step)
    ensures Shape(e, s) && Inv(e, Do(e, s, step))
  {
    hide Do, Locks, Gate, Wakes, Locals, Output, Effect;
    EffectOf(e, s, step);
    LocksStep(e, s, Do(e, s, step), step.t);
    GateStep(e, s, Do(e, s, step), step.t);
    WakesStep(e, s, Do(e, s, step), step.t);
    LocalsStep(e, s, step);
    OutputStep(e, s, step);
  }

  predicate Legal(e: Env, s: State, steps: seq<Step>)
    decreases |steps|
  {
    steps == [] ||
    (Enabled(e, s, steps[0]) && steps[0].t + 1 < |e.med| && Legal(e, Do(e, s, steps[0]), steps[1..]))
  }

  function Exec(e: Env, s: State, steps: seq<Step>): State
    requires Legal(e, s, steps)
    decreases |steps|
  {
    if steps == [] then s else Exec(e, Do(e, s, steps[0]), steps[1..])
  }

  lemma InvInit(e: Env, sizes: seq<int>)
    requires Sound(e) && |sizes| == e.T
    ensures Inv(e, Init(e, sizes))
  {
    ArrivalsNone(Init(e, sizes).ths);
    forall t | 0 <= t < e.T
      ensures LocalOk(e, Init(e, sizes).ths[t], t)
    {
      assert e.a[..0] == [];
    }
    hide Part, Offset, Ranged, Arrivals, Sound;
  }

  lemma {:induction false} InvRun(e: Env, s: State, steps: seq<Step>)
    requires Inv(e, s) && Legal(e, s, steps)
    ensures Inv(e, Exec(e, s, steps))
    decreases |steps|
  {
    if steps != [] {
      InvStep(e, s, steps[0]);
      hide Do, Inv, Enabled;
      InvRun(e, Do(e, s, steps[0]), steps[1..]);
    }
  }

  // ----- nobody is stuck

  /** While a thread is unfinished, some thread can take a real step. */
  lemma Progress(e: Env, s: State, t: nat)
    requires Inv(e, s) && t < e.T && !s.ths[t].pc.Done?
    ensures exists u :: 0 <= u < e.T && Enabled(e, s, Run(u))
  {
    hide Locals, Output, Arrivals, Sound;
    ArrivalsAll(s.ths);
    if s.wall.Held? {
      assert Enabled(e, s, Run(s.wall.t));
    } else if s.seenLock.Held? {
      assert Enabled(e, s, Run(s.seenLock.t));
    } else if s.ths[t].pc.Wait? {
      if s.seen == e.T {
        var u :| 0 <= u < |s.ths| && s.ths[u].pc.WillWake();
        assert Enabled(e, s, Run(u));
      } else {
        var u :| 0 <= u < |s.ths| && !s.ths[u].pc.Arrived();
        assert Enabled(e, s, Run(u));
      }
    } else {
      assert Enabled(e, s, Run(t));
    }
  }

  function Less(n: nat, i: nat): nat { if i <= n then n - i else 0 }

  /** A bound on the steps left to a thread. A broadcast is paid for by the thread that
      makes it. */
  function Rank(e: Env, th: Thread): nat {
    var n := |e.a| + e.T;
    var k := n + 3 * e.T;
    match th.pc
    case Done => 0
    case Copy => 1 + Less(|e.a|, th.i)
    case Sum => 2 + |e.a| + Less(e.T, th.i)
    case Leave => 3 + n
    case Pass => 4 + k
    case Wait => 5 + k
    case Doze => 6 + k
    case Check => 7 + k
    case Wall => 8 + k
    case Woken => 8 + k
    case Unsee => 9 + k
    case Bump => 10 + k
    case Load => 11 + k
    case Arrive => 12 + k
    case Scan => 13 + k + Less(|e.a|, th.i)
  }

  function Total(e: Env, ths: seq<Thread>): nat {
    if ths == [] then 0 else Rank(e, ths[0]) + Total(e, ths[1..])
  }

  lemma {:induction false} TotalUpdate(e: Env, ths: seq<Thread>, t: nat, th: Thread)
    requires t < |ths|
    ensures Total(e, ths[t := th]) == Total(e, ths) - Rank(e, ths[t]) + Rank(e, th)
  {
    hide Rank;
    if t == 0 {
      assert ths[t := th][1..] == ths[1..];
    } else {
      assert ths[t := th][1..] == ths[1..][t - 1 := th];
      TotalUpdate(e, ths[1..], t - 1, th);
    }
  }

  lemma {:induction false} TotalWake(e: Env, ths: seq<Thread>)
    ensures Total(e, WakeAll(ths)) <= Total(e, ths) + 3 * |ths|
  {
    if ths != [] {
      assert WakeAll(ths)[1..] == WakeAll(ths[1..]);
      TotalWake(e, ths[1..]);
    }
  }

  lemma RankMoved(e: Env, s: State, t: nat)
    requires Shape(e, s) && t < e.T && LocalOk(e, s.ths[t], t) && Enabled(e, s, Run(t))
    ensures Rank(e, Moved(e, s, t)) < Rank(e, s.ths[t])
    ensures s.ths[t].pc.Pass? ==> Rank(e, Moved(e, s, t)) + 3 * e.T < Rank(e, s.ths[t])
  {
    hide Sort, Ranged, Offset, Sound;
  }

  lemma RankWoken(e: Env, th: Thread)
    ensures th.pc.Wait? ==> Rank(e, th.(pc := Woken)) == Rank(e, th) + 3
  {
  }

  /** Every real step lowers the total; a spurious wakeup raises it by 3. */
  lemma TotalStep(e: Env, s: State, step: Step)
    requires Inv(e, s) && Enabled(e, s, step)
    ensures Shape(e, s)
    ensures Total(e, Do(e, s, step).ths) <= Total(e, s.ths) + if step.Run? then -1 else 3
  {
    var t, s' := step.t, Do(e, s, step);
    hide Do, Effect, Moved, Total, Rank, Locks, Gate, Wakes, Output, Sound, LocalOk;
    assert LocalOk(e, s.ths[t], t);
    EffectOf(e, s, step);
    ThreadAfter(e, s, step);
    if step.Run? { RankMoved(e, s, t); }
    RankWoken(e, s.ths[t]);
    TotalEffect(e, s, s', t);
  }

  lemma TotalEffect(e: Env, s: State, s': State, t: nat)
    requires t < |s.ths| == e.T && Effect(e, s, s', t)
    ensures Total(e, s'.ths) <= Total(e, s.ths) + Rank(e, s'.ths[t]) - Rank(e, s.ths[t]) +
                                if s.ths[t].pc.Pass? then 3 * e.T else 0
  {
    hide Total, Rank;
    TotalUpdate(e, s.ths, t, s'.ths[t]);
    TotalWake(e, s.ths[t := s'.ths[t]]);
    if s.ths[t].pc.Pass? && s.seen >= e.T {
      assert s'.ths == WakeAll(s.ths[t := s'.ths[t]]);
    } else {
      assert s'.ths == s.ths[t := s'.ths[t]];
    }
  }

  function Real(steps: seq<Step>): nat {
    if steps == [] then 0 else Real(steps[1..]) + if steps[0].Run? then 1 else 0
  }

  lemma {:induction false} TotalRun(e: Env, s: State, steps: seq<Step>)
    requires Inv(e, s) && Legal(e, s, steps)
    ensures Real(steps) <= |steps|
    ensures Real(steps) + Total(e, Exec(e, s, steps).ths) <= Total(e, s.ths) + 3 * (|steps| - Real(steps))
    decreases |steps|
  {
    if steps != [] {
      InvStep(e, s, steps[0]);
      TotalStep(e, s, steps[0]);
      hide Do, Inv, Enabled, Total;
      TotalRun(e, Do(e, s, steps[0]), steps[1..]);
    }
  }

  // ----- the theorem

  lemma FinishedIsSorted(e: Env, s: State)
    requires Inv(e, s) && forall t :: 0 <= t < e.T ==> s.ths[t].pc.Done?
    ensures Sorted(s.data) && multiset(s.data) == multiset(e.a)
  {
    hide Locks, Gate, Wakes, Part, Offset, Sorted, NonNegative;
    JoinedSorts(e.a, e.med, e.T);
    forall u, j | 0 <= u < e.T && 0 <= j < |Part(e.a, e.med, u)|
      ensures PlacedAt(e.a, e.med, s.data, u, j)
    {
      assert LocalOk(e, s.ths[u], u);
      assert Placed(e, s, u, j);
    }
    PlacedIsJoined(e.a, e.med, s.data, e.T);
    assert s.data[..|s.data|] == s.data;
  }

  /** Sample sort, for every number of threads, every non-negative array, every choice of
      bounds and every interleaving: nobody passes the barrier before all have arrived; a
      thread that waits though all have arrived has someone left to wake it; as long as a
      thread is unfinished some thread can move; and when all are done the array is the
      sorted permutation of the input. */
  lemma SampleSortCorrect(e: Env, sizes: seq<int>, steps: seq<Step>)
    requires Bounds(e.med, e.T) && NonNegative(e.a) && |sizes| == e.T && Legal(e, Init(e, sizes), steps)
    ensures var s := Exec(e, Init(e, sizes), steps);
            && |s.ths| == e.T
            && (forall t, u :: 0 <= t < e.T && 0 <= u < e.T && s.ths[t].pc.Past() ==> s.ths[u].pc.Arrived())
            && ((forall u :: 0 <= u < e.T ==> s.ths[u].pc.Arrived()) && (exists t :: 0 <= t < e.T && s.ths[t].pc.Wait?) ==>
                  exists u :: 0 <= u < e.T && s.ths[u].pc.WillWake())
            && ((exists t :: 0 <= t < e.T && !s.ths[t].pc.Done?) ==> exists u :: 0 <= u < e.T && Enabled(e, s, Run(u)))
            && ((forall t :: 0 <= t < e.T ==> s.ths[t].pc.Done?) ==> Sorted(s.data) && multiset(s.data) == multiset(e.a))
  {
    InvInit(e, sizes);
    InvRun(e, Init(e, sizes), steps);
    var s := Exec(e, Init(e, sizes), steps);
    hide Locals, Output, Sorted, Arrivals, Exec, Init, Legal, Locks, Sound;
    ArrivalsAll(s.ths);
    if t :| 0 <= t < e.T && !s.ths[t].pc.Done? { Progress(e, s, t); }
    if forall t :: 0 <= t < e.T ==> s.ths[t].pc.Done? { FinishedIsSorted(e, s); }
  }

  /** The threads cannot run for ever: a run has at most T * (2 |a| + 4 T + 13) steps, plus
      three for each spurious wakeup in it. */
  lemma SampleSortEnds(e: Env, sizes: seq<int>, steps: seq<Step>)
    requires Bounds(e.med, e.T) && NonNegative(e.a) && |sizes| == e.T && Legal(e, Init(e, sizes), steps)
    ensures Real(steps) <= |steps|
    ensures Real(steps) <= e.T * (2 * |e.a| + 4 * e.T + 13) + 3 * (|steps| - Real(steps))
  {
    InvInit(e, sizes);
    TotalRun(e, Init(e, sizes), steps);
    TotalInit(e, Init(e, sizes).ths);
  }

  lemma {:induction false} TotalInit(e: Env, ths: seq<Thread>)
    requires forall t :: 0 <= t < |ths| ==> ths[t] == Thread(Scan, [], 0, 0, 0)
    ensures Total(e, ths) == |ths| * (2 * |e.a| + 4 * e.T + 13)
  {
    if ths != [] { TotalInit(e, ths[1..]); }
  }
}
