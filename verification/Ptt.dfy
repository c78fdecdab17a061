/** Consoles and detached simulation threads sharing one simulated system under two mutexes,
  as a step system: any number of consoles, any number of spawned threads, any interleaving. */
module Ptt {
  datatype Option<T> = None | Some(value: T)

  datatype Cmd = Get | Set | Run | Stop

  /** Where a console is. `InApp` to `LeaveApp` hold `application_lock`; `RunLocked` to `RunSpawned`
      and `GotSim` hold `simulation_lock`. */
  datatype ConsolePc =
    | Idle
    | Exited
    | WantApp(cmd: Cmd)
    | InApp(cmd: Cmd)
    | RunLocked
    | RunFlagged
    | RunSpawned
    | LeaveApp(stopping: bool)
    | WantSim
    | GotSim

  /** Where a simulation thread is. From `Loop` to `Finishing` it holds `simulation_lock`;
      from `Stepping` to `Tested` also `application_lock`. */
  datatype SimPc = Start | Loop | Stepping | Counted | Tested(done: bool) | Finishing | Ended

  datatype Thread =
    | Console(c: ConsolePc)
    | Sim(s: SimPc, steps2go: int, steps: int)

  datatype State = State(app: Option<nat>, sim: Option<nat>, pc: int, simulating: bool, threads: seq<Thread>)

  /** What a step may depend on besides the state: the command typed (none is `q`), the value an `s`
      command reads, and the steps argument a simulation thread finds behind its dangling pointer. */
  datatype Choice = Choice(cmd: Option<Cmd>, value: int, steps2go: int)

  function Init(consoles: nat, pc: int): State {
    State(None, None, pc, false, seq(consoles, _ => Console(Idle)))
  }

  // ---------- one step ----------

  predicate WantsApp(t: Thread) {
    match t
    case Console(c) => c.WantApp?
    case Sim(s, _, _) => s.Loop?
  }

  predicate WantsSim(t: Thread) {
    match t
    case Console(c) => c.WantSim?
    case Sim(s, _, _) => s.Start?
  }

  predicate HoldsApp(t: Thread) {
    match t
    case Console(c) => c.InApp? || c.RunLocked? || c.RunFlagged? || c.RunSpawned? || c.LeaveApp?
    case Sim(s, _, _) => s.Stepping? || s.Counted? || s.Tested?
  }

  predicate HoldsSim(t: Thread) {
    match t
    case Console(c) => c.RunLocked? || c.RunFlagged? || c.RunSpawned? || c.GotSim?
    case Sim(s, _, _) => s.Loop? || s.Stepping? || s.Counted? || s.Tested? || s.Finishing?
  }

  predicate Finished(t: Thread) {
    match t
    case Console(c) => c.Exited?
    case Sim(s, _, _) => s.Ended?
  }

  predicate Enabled(s: State, t: nat) {
    t < |s.threads| && !Finished(s.threads[t])
    && (WantsApp(s.threads[t]) ==> s.app == None)
    && (WantsSim(s.threads[t]) ==> s.sim == None)
  }

  /** The loop's stop test: the step count's verdict is computed first and then overwritten. */
  function StopTest(steps2go: int, steps: int, simulating: bool): (int, bool) {
    var steps1 := if steps2go > 0 then steps - 1 else steps;
    var done := steps2go > 0 && steps1 == 0;
    var done1 := !simulating;
    (steps1, done1)
  }

  /** The threads with console `t` at another program point. */
  function Moved(s: State, t: nat, pc: ConsolePc): (r: seq<Thread>)
    requires t < |s.threads|
    ensures |r| == |s.threads| && r[t] == Console(pc)
  {
    s.threads[t := Console(pc)]
  }

  function StepConsole(s: State, t: nat, c: Choice): State
    requires Enabled(s, t) && s.threads[t].Console?
  {
    match s.threads[t].c
    case Idle => s.(threads := Moved(s, t, if c.cmd.None? then Exited else WantApp(c.cmd.value)))
    case WantApp(cmd) => s.(app := Some(t), threads := Moved(s, t, InApp(cmd)))
    case InApp(Get) => s.(threads := Moved(s, t, LeaveApp(false)))
    case InApp(Set) => s.(pc := c.value, threads := Moved(s, t, LeaveApp(false)))
    case InApp(Stop) => s.(simulating := false, threads := Moved(s, t, LeaveApp(true)))
    case InApp(Run) =>
      if s.sim.Some? then s.(threads := Moved(s, t, LeaveApp(false)))
      else s.(sim := Some(t), threads := Moved(s, t, RunLocked))
    case RunLocked => s.(simulating := true, threads := Moved(s, t, RunFlagged))
    case RunFlagged => s.(threads := Moved(s, t, RunSpawned) + [Sim(Start, 0, 0)])
    case RunSpawned => s.(sim := None, threads := Moved(s, t, LeaveApp(false)))
    case LeaveApp(stopping) => s.(app := None, threads := Moved(s, t, if stopping then WantSim else Idle))
    case WantSim => s.(sim := Some(t), threads := Moved(s, t, GotSim))
    case GotSim => s.(sim := None, threads := Moved(s, t, Idle))
    case Exited => s
  }

  function StepSim(s: State, t: nat, c: Choice): State
    requires Enabled(s, t) && s.threads[t].Sim?
  {
    var me := s.threads[t];
    match me.s
    case Start => s.(sim := Some(t), threads := s.threads[t := Sim(Loop, c.steps2go, c.steps2go)])
    case Loop => s.(app := Some(t), threads := s.threads[t := me.(s := Stepping)])
    case Stepping => s.(pc := s.pc + 1, threads := s.threads[t := me.(s := Counted)])
    case Counted =>
      var (steps, done) := StopTest(me.steps2go, me.steps, s.simulating);
      s.(threads := s.threads[t := Sim(Tested(done), me.steps2go, steps)])
    case Tested(done) => s.(app := None, threads := s.threads[t := me.(s := if done then Finishing else Loop)])
    case Finishing => s.(sim := None, threads := s.threads[t := me.(s := Ended)])
    case Ended => s
  }

  function Step(s: State, t: nat, c: Choice): State
    requires Enabled(s, t)
  {
    if s.threads[t].Console? then StepConsole(s, t, c) else StepSim(s, t, c)
  }

  // ---------- runs ----------

  datatype Event = Event(t: nat, c: Choice)

  ghost predicate IsRun(s: State, es: seq<Event>)
    decreases |es|
  {
    es == [] || (Enabled(s, es[0].t) && IsRun(Step(s, es[0].t, es[0].c), es[1..]))
  }

  ghost function After(s: State, es: seq<Event>): State
    requires IsRun(s, es)
    decreases |es|
  {
    if es == [] then s else After(Step(s, es[0].t, es[0].c), es[1..])
  }

  ghost predicate Reachable(s: State) {
    exists consoles: nat, pc: int, es: seq<Event> :: IsRun(Init(consoles, pc), es) && After(Init(consoles, pc), es) == s
  }

  // ---------- what every step keeps ----------

  predicate LocksOwned(s: State) {
    (forall t :: 0 <= t < |s.threads| ==> (HoldsApp(s.threads[t]) <==> s.app == Some(t)))
    && (forall t :: 0 <= t < |s.threads| ==> (HoldsSim(s.threads[t]) <==> s.sim == Some(t)))
    && (s.app.Some? ==> s.app.value < |s.threads|) && (s.sim.Some? ==> s.sim.value < |s.threads|)
  }

  /** The flag as the lock owners left it. */
  predicate FlagStable(s: State) {
    forall t :: 0 <= t < |s.threads| ==>
      match s.threads[t]
      case Console(RunFlagged) => s.simulating
      case Console(RunSpawned) => s.simulating
      case Sim(Tested(done), _, _) => done == !s.simulating
      case _ => true
  }

  predicate Inv(s: State) {
    LocksOwned(s) && FlagStable(s)
  }

  /** A step changes its own thread, and at most adds a new simulation thread. */
  lemma StepFrame(s: State, t: nat, c: Choice)
    requires Enabled(s, t)
    ensures var s1, n := Step(s, t, c), |s.threads|;
            n <= |s1.threads| <= n + 1
            && (forall u :: 0 <= u < n && u != t ==> s1.threads[u] == s.threads[u])
            && (|s1.threads| == n + 1 ==> s1.threads[n] == Sim(Start, 0, 0) && s.threads[t] == Console(RunFlagged))
  {
  }

  /** A lock changes hands only through its owner or a thread that finds it free. */
  lemma StepOwners(s: State, t: nat, c: Choice)
    requires Inv(s) && Enabled(s, t)
    ensures var s1 := Step(s, t, c);
            (HoldsApp(s1.threads[t]) <==> s1.app == Some(t)) && (HoldsSim(s1.threads[t]) <==> s1.sim == Some(t))
            && (s1.app == s.app || ((s.app == None || s.app == Some(t)) && (s1.app == None || s1.app == Some(t))))
            && (s1.sim == s.sim || ((s.sim == None || s.sim == Some(t)) && (s1.sim == None || s1.sim == Some(t))))
  {
    assert HoldsApp(s.threads[t]) <==> s.app == Some(t);
    assert HoldsSim(s.threads[t]) <==> s.sim == Some(t);
  }

  lemma StepKeepsLocks(s: State, t: nat, c: Choice)
    requires Inv(s) && Enabled(s, t)
    ensures LocksOwned(Step(s, t, c))
  {
    StepFrame(s, t, c);
    StepOwners(s, t, c);
    hide Step;
  }

  lemma StepKeepsFlag(s: State, t: nat, c: Choice)
    requires Inv(s) && Enabled(s, t)
    ensures FlagStable(Step(s, t, c))
  {
  }

  lemma {:induction false} RunKeepsInv(s: State, es: seq<Event>)
    requires Inv(s) && IsRun(s, es)
    ensures Inv(After(s, es))
    decreases |es|
  {
    if es != [] {
      StepKeepsLocks(s, es[0].t, es[0].c);
      StepKeepsFlag(s, es[0].t, es[0].c);
      RunKeepsInv(Step(s, es[0].t, es[0].c), es[1..]);
    }
  }

  lemma ReachableInv(s: State)
    requires Reachable(s)
    ensures Inv(s)
  {
    var consoles: nat, pc: int, es: seq<Event> :| IsRun(Init(consoles, pc), es) && After(Init(consoles, pc), es) == s;
    RunKeepsInv(Init(consoles, pc), es);
  }

  // ---------- deadlock freedom ----------

  predicate WaitsFor(s: State, t: nat, u: nat) {
    t < |s.threads| && u < |s.threads|
    && ((WantsApp(s.threads[t]) && s.app == Some(u)) || (WantsSim(s.threads[t]) && s.sim == Some(u)))
  }

  predicate WaitChain(s: State, p: seq<nat>) {
    forall i :: 0 <= i < |p| - 1 ==> WaitsFor(s, p[i], p[i + 1])
  }

  /** Waiting for the simulation lock comes before waiting for the application lock, which comes before running. */
  function Height(t: Thread): nat {
    if WantsSim(t) then 2 else if WantsApp(t) then 1 else 0
  }

  lemma WaitingDescends(s: State, t: nat, u: nat)
    requires Inv(s) && WaitsFor(s, t, u)
    ensures Height(s.threads[u]) < Height(s.threads[t])
  {
    assert HoldsApp(s.threads[u]) <==> s.app == Some(u);
    assert HoldsSim(s.threads[u]) <==> s.sim == Some(u);
  }

  lemma {:induction false} ChainDescends(s: State, p: seq<nat>)
    requires Inv(s) && |p| >= 2 && WaitChain(s, p)
    ensures p[0] < |s.threads| && p[|p| - 1] < |s.threads|
    ensures Height(s.threads[p[|p| - 1]]) + |p| - 1 <= Height(s.threads[p[0]])
  {
    WaitingDescends(s, p[0], p[1]);
    if |p| > 2 {
      assert forall i :: 0 <= i < |p[1..]| - 1 ==> WaitsFor(s, p[1..][i], p[1..][i + 1]) by {
        forall i | 0 <= i < |p[1..]| - 1 ensures WaitsFor(s, p[1..][i], p[1..][i + 1]) {
          assert WaitsFor(s, p[i + 1], p[i + 2]);
        }
      }
      ChainDescends(s, p[1..]);
    }
  }

  /** No reachable state has a cycle of waits, and no chain of waits is longer than two. */
  lemma NoDeadlock(s: State, p: seq<nat>)
    requires Reachable(s) && |p| >= 2 && WaitChain(s, p)
    ensures p[0] != p[|p| - 1] && |p| <= 3
  {
    ReachableInv(s);
    ChainDescends(s, p);
  }

  /** A thread has something to do on its own: it is neither finished nor a console waiting for its user. */
  predicate Busy(t: Thread) {
    !Finished(t) && t != Console(Idle)
  }

  /** As long as anything is left to do, some busy thread can step: the application lock's owner if there
      is one, else the simulation lock's owner, else anyone busy. */
  lemma SomeoneCanStep(s: State, t: nat) returns (u: nat)
    requires Inv(s) && t < |s.threads| && Busy(s.threads[t])
    ensures Enabled(s, u) && Busy(s.threads[u])
    ensures s.app.Some? ==> u == s.app.value
    ensures s.app.None? && s.sim.Some? ==> u == s.sim.value
  {
    u := if s.app.Some? then s.app.value else if s.sim.Some? then s.sim.value else t;
    assert HoldsApp(s.threads[u]) <==> s.app == Some(u);
    assert HoldsSim(s.threads[u]) <==> s.sim == Some(u);
  }

  // ---------- mutual exclusion of the stepping loop ----------

  predicate InLoop(t: Thread) {
    t.Sim? && (t.s.Loop? || t.s.Stepping? || t.s.Counted? || t.s.Tested? || t.s.Finishing?)
  }

  lemma OneSimulationThread(s: State, t: nat, u: nat)
    requires Reachable(s) && t < |s.threads| && u < |s.threads|
    requires InLoop(s.threads[t]) && (InLoop(s.threads[u]) || s.threads[u] == Console(GotSim))
    ensures t == u
  {
    ReachableInv(s);
    assert HoldsSim(s.threads[t]) && HoldsSim(s.threads[u]);
    assert s.sim == Some(t) && s.sim == Some(u);
  }

  /** While a stop command holds the simulation lock, whoever steps, no simulation step happens. */
  lemma StoppedMeansStopped(s: State, console: nat, t: nat, c: Choice)
    requires Reachable(s) && console < |s.threads| && s.threads[console] == Console(GotSim)
    requires Enabled(s, t)
    ensures !(s.threads[t].Sim? && s.threads[t].s == Stepping)
    ensures s.threads[t].Sim? ==> Step(s, t, c).pc == s.pc
  {
    if s.threads[t].Sim? && s.threads[t].s == Stepping {
      OneSimulationThread(s, t, console);
    }
  }

  // ---------- the step count has no effect ----------

  /** The same program point; a simulation thread's step counts may differ. */
  predicate SamePoint(a: Thread, b: Thread) {
    if a.Console? then a == b else b.Sim? && a.s == b.s
  }

  /** Everything but the threads is the same, and there are as many of them. */
  predicate SameRest(a: State, b: State) {
    a.app == b.app && a.sim == b.sim && a.pc == b.pc && a.simulating == b.simulating && |a.threads| == |b.threads|
  }

  /** Nothing but step counts tells the two states apart. */
  predicate Alike(a: State, b: State) {
    SameRest(a, b) && forall t :: 0 <= t < |a.threads| ==> SamePoint(a.threads[t], b.threads[t])
  }

  /** The same thread does the same, but a starting simulation thread may find another step count. */
  predicate AlikeEvents(es: seq<Event>, ds: seq<Event>) {
    && |es| == |ds|
    && forall i :: 0 <= i < |es| ==> es[i].t == ds[i].t && es[i].c.cmd == ds[i].c.cmd && es[i].c.value == ds[i].c.value
  }

  lemma StepsAlike(a: State, b: State, t: nat, c: Choice, d: Choice)
    requires Alike(a, b) && Enabled(a, t) && c.cmd == d.cmd && c.value == d.value
    ensures Enabled(b, t) && Alike(Step(a, t, c), Step(b, t, d))
  {
    assert SamePoint(a.threads[t], b.threads[t]);
    StepFrame(a, t, c);
    StepFrame(b, t, d);
    OwnStepAlike(a, b, t, c, d);
    hide Step;
  }

  lemma ConsoleStepAlike(a: State, b: State, t: nat, c: Choice, d: Choice)
    requires SameRest(a, b) && t < |a.threads| && Enabled(a, t) && Enabled(b, t) && c.cmd == d.cmd && c.value == d.value
    requires a.threads[t].Console? && b.threads[t] == a.threads[t]
    ensures var a1, b1 := StepConsole(a, t, c), StepConsole(b, t, d);
            SameRest(a1, b1) && t < |a1.threads| && a1.threads[t] == b1.threads[t]
  {
    hide Enabled, Moved;
    match a.threads[t].c
    case RunFlagged => Spawned(a, b, t);
    case _ =>
  }

  lemma Spawned(a: State, b: State, t: nat)
    requires SameRest(a, b) && t < |a.threads|
    ensures var x, y := Moved(a, t, RunSpawned) + [Sim(Start, 0, 0)], Moved(b, t, RunSpawned) + [Sim(Start, 0, 0)];
            |x| == |y| && x[t] == y[t] == Console(RunSpawned)
  {
    hide Moved;
  }

  lemma SimStepAlike(a: State, b: State, t: nat, c: Choice, d: Choice)
    requires SameRest(a, b) && t < |a.threads| && Enabled(a, t) && Enabled(b, t)
    requires a.threads[t].Sim? && b.threads[t].Sim? && a.threads[t].s == b.threads[t].s
    ensures var a1, b1 := StepSim(a, t, c), StepSim(b, t, d);
            SameRest(a1, b1) && t < |a1.threads| && SamePoint(a1.threads[t], b1.threads[t])
  {
    hide Enabled;
  }

  lemma OwnStepAlike(a: State, b: State, t: nat, c: Choice, d: Choice)
    requires Alike(a, b) && Enabled(a, t) && c.cmd == d.cmd && c.value == d.value
    ensures Enabled(b, t)
    ensures var a1, b1 := Step(a, t, c), Step(b, t, d);
            SameRest(a1, b1) && t < |a1.threads| && SamePoint(a1.threads[t], b1.threads[t])
  {
    assert SamePoint(a.threads[t], b.threads[t]);
    hide StepConsole, StepSim;
    if a.threads[t].Console? {
      ConsoleStepAlike(a, b, t, c, d);
    } else {
      SimStepAlike(a, b, t, c, d);
    }
  }

  /**
   * Two runs that differ in the step counts their simulation threads find agree on both locks, the program
   * counter, the flag and every thread's program point, at every length.
   */
  lemma {:induction false} StepCountHasNoEffect(a: State, b: State, es: seq<Event>, ds: seq<Event>)
    requires Alike(a, b) && IsRun(a, es) && AlikeEvents(es, ds)
    ensures IsRun(b, ds) && Alike(After(a, es), After(b, ds))
    decreases |es|
  {
    if es != [] {
      StepsAlike(a, b, es[0].t, es[0].c, ds[0].c);
      assert AlikeEvents(es[1..], ds[1..]);
      hide Step, Alike, Enabled;
      StepCountHasNoEffect(Step(a, es[0].t, es[0].c), Step(b, ds[0].t, ds[0].c), es[1..], ds[1..]);
    }
  }

  // ---------- stopping ----------

  /** The flag is clear at every state of the run. */
  ghost predicate Quiet(s: State, es: seq<Event>)
    requires IsRun(s, es)
    decreases |es|
  {
    !s.simulating && (es != [] ==> Quiet(Step(s, es[0].t, es[0].c), es[1..]))
  }

  predicate Ticks(s: State, t: nat) {
    t < |s.threads| && s.threads[t].Sim? && s.threads[t].s == Stepping
  }

  /** How often thread `t` executes its `PC++` in a run. */
  ghost function TickCount(s: State, es: seq<Event>, t: nat): nat
    requires IsRun(s, es)
    decreases |es|
  {
    if es == [] then 0 else
    (if es[0].t == t && Ticks(s, t) then 1 else 0) + TickCount(Step(s, es[0].t, es[0].c), es[1..], t)
  }

  /** `PC++`s a simulation thread may still do once the flag is clear. */
  function Allowance(s: State, t: nat): nat {
    if t < |s.threads| && s.threads[t].Sim?
       && (s.threads[t].s.Start? || s.threads[t].s.Loop? || s.threads[t].s.Stepping?)
    then 1 else 0
  }

  lemma StepUsesAllowance(s: State, t: nat, c: Choice, u: nat)
    requires Inv(s) && Enabled(s, t) && !s.simulating && !Step(s, t, c).simulating
    ensures Allowance(Step(s, t, c), u) + (if t == u && Ticks(s, u) then 1 else 0) <= Allowance(s, u)
  {
    StepFrame(s, t, c);
    assert s.threads[t] != Console(RunFlagged);
    if u != t && u < |s.threads| {
      assert Step(s, t, c).threads[u] == s.threads[u];
    }
  }

  /** Once the flag is clear, and until it is set again, each live simulation thread does at most one
      more `PC++`, and a thread past its `PC++` none. */
  lemma {:induction false} AtMostOneMoreTick(s: State, es: seq<Event>, t: nat)
    requires Inv(s) && IsRun(s, es) && Quiet(s, es)
    ensures TickCount(s, es, t) <= Allowance(s, t)
    decreases |es|
  {
    if es != [] {
      var s1 := Step(s, es[0].t, es[0].c);
      StepKeepsLocks(s, es[0].t, es[0].c);
      StepKeepsFlag(s, es[0].t, es[0].c);
      StepUsesAllowance(s, es[0].t, es[0].c, t);
      AtMostOneMoreTick(s1, es[1..], t);
    }
  }

  // ---------- the system comes to rest ----------

  /** Steps a thread has ahead of it once the flag is clear. */
  function WorkOf(t: Thread): nat {
    match t
    case Console(WantApp(cmd)) => if cmd == Stop then 5 else 3
    case Console(InApp(cmd)) => if cmd == Stop then 4 else 2
    case Console(LeaveApp(stopping)) => if stopping then 3 else 1
    case Console(WantSim) => 2
    case Console(GotSim) => 1
    case Sim(Start, _, _) => 6
    case Sim(Loop, _, _) => 5
    case Sim(Stepping, _, _) => 4
    case Sim(Counted, _, _) => 3
    case Sim(Tested(_), _, _) => 2
    case Sim(Finishing, _, _) => 1
    case _ => 0
  }

  function Work(ts: seq<Thread>): nat {
    if ts == [] then 0 else Work(ts[..|ts| - 1]) + WorkOf(ts[|ts| - 1])
  }

  lemma {:induction false} WorkUpdate(ts: seq<Thread>, t: nat, x: Thread)
    requires t < |ts|
    ensures Work(ts[t := x]) + WorkOf(ts[t]) == Work(ts) + WorkOf(x)
  {
    var n := |ts| - 1;
    if t == n {
      assert ts[t := x][..n] == ts[..n];
    } else {
      assert ts[t := x][..n] == ts[..n][t := x];
      WorkUpdate(ts[..n], t, x);
    }
  }

  predicate Running(t: Thread) {
    t.Console? && (t.c == WantApp(Run) || t.c == InApp(Run) || t.c.RunLocked? || t.c.RunFlagged? || t.c.RunSpawned?)
  }

  /** The flag is clear and no console is executing an `r` command. */
  predicate Stopping(s: State) {
    Inv(s) && !s.simulating && forall t :: 0 <= t < |s.threads| ==> !Running(s.threads[t])
  }

  /** Only threads with something to do step: nobody types a new command. */
  ghost predicate NoNewCommand(s: State, es: seq<Event>)
    requires IsRun(s, es)
    decreases |es|
  {
    es != [] ==> Busy(s.threads[es[0].t]) && NoNewCommand(Step(s, es[0].t, es[0].c), es[1..])
  }

  lemma BusyStepOfItsThread(s: State, t: nat, c: Choice)
    requires Stopping(s) && Enabled(s, t) && Busy(s.threads[t])
    ensures var s1 := Step(s, t, c);
            |s1.threads| == |s.threads| && !s1.simulating && !Running(s1.threads[t])
            && WorkOf(s1.threads[t]) < WorkOf(s.threads[t])
  {
    assert !Running(s.threads[t]);
  }

  lemma BusyStepWorks(s: State, t: nat, c: Choice)
    requires Stopping(s) && Enabled(s, t) && Busy(s.threads[t])
    ensures Stopping(Step(s, t, c)) && Work(Step(s, t, c).threads) < Work(s.threads)
  {
    var s1 := Step(s, t, c);
    StepKeepsLocks(s, t, c);
    StepKeepsFlag(s, t, c);
    StepFrame(s, t, c);
    BusyStepOfItsThread(s, t, c);
    hide Step, WorkOf, Work, LocksOwned, FlagStable;
    assert s1.threads == s.threads[t := s1.threads[t]];
    WorkUpdate(s.threads, t, s1.threads[t]);
  }

  /** Without new commands a stopping system takes a bounded number of steps, and where it can take no
      further one every simulation thread has ended and every console is back at its prompt or gone. */
  lemma {:induction false} StoppingIsBounded(s: State, es: seq<Event>)
    requires Stopping(s) && IsRun(s, es) && NoNewCommand(s, es)
    ensures Stopping(After(s, es)) && |es| + Work(After(s, es).threads) <= Work(s.threads)
    ensures (forall u: nat :: Enabled(After(s, es), u) ==> !Busy(After(s, es).threads[u])) ==>
              forall t :: 0 <= t < |After(s, es).threads| ==> !Busy(After(s, es).threads[t])
    decreases |es|
  {
    if es == [] {
      if t :| 0 <= t < |s.threads| && Busy(s.threads[t]) {
        var u := SomeoneCanStep(s, t);
      }
    } else {
      BusyStepWorks(s, es[0].t, es[0].c);
      StoppingIsBounded(Step(s, es[0].t, es[0].c), es[1..]);
    }
  }

  // ---------- what the locks do not promise ----------

  /** A thread about to enter its turn of the loop can finish it while the flag stays clear. */
  lemma {:induction false} TickSoon(s: State, t: nat) returns (es: seq<Event>)
    requires Inv(s) && !s.simulating && t < |s.threads| && s.threads[t].Sim? && s.threads[t].s == Loop
    ensures IsRun(s, es) && Quiet(s, es) && TickCount(s, es, t) > 0
    decreases if s.app.Some? then WorkOf(s.threads[s.app.value]) else 0
  {
    var c := Choice(None, 0, 0);
    if s.app.None? {
      es := [Event(t, c), Event(t, c)];
      var s1 := Step(s, t, c);
      var s2 := Step(s1, t, c);
      assert es[1..] == [Event(t, c)] && es[1..][1..] == [];
      assert IsRun(s2, []) && IsRun(s1, es[1..]) && IsRun(s, es);
      assert TickCount(s1, es[1..], t) == 1 + TickCount(s2, [], t);
    } else {
      var u := s.app.value;
      assert HoldsApp(s.threads[u]) <==> s.app == Some(u);
      assert HoldsSim(s.threads[u]) <==> s.sim == Some(u);
      assert HoldsSim(s.threads[t]) <==> s.sim == Some(t);
      StepKeepsLocks(s, u, c);
      StepKeepsFlag(s, u, c);
      var s1 := Step(s, u, c);
      assert s1.threads[t] == s.threads[t];
      var ds := TickSoon(s1, t);
      es := [Event(u, c)] + ds;
      assert es[1..] == ds;
    }
  }

  /** A thread that waits for the simulation lock can still step once a stop command lets go of it. */
  lemma WaitingThreadSteps(s: State, console: nat, t: nat) returns (es: seq<Event>)
    requires Inv(s) && !s.simulating && console < |s.threads| && s.threads[console] == Console(GotSim)
    requires t < |s.threads| && s.threads[t].Sim? && s.threads[t].s == Start
    ensures IsRun(s, es) && Quiet(s, es) && TickCount(s, es, t) > 0
  {
    var c := Choice(None, 0, 0);
    var s1 := Step(s, console, c);
    StepKeepsLocks(s, console, c);
    StepKeepsFlag(s, console, c);
    var s2 := Step(s1, t, c);
    StepKeepsLocks(s1, t, c);
    StepKeepsFlag(s1, t, c);
    var ds := TickSoon(s2, t);
    var es1 := [Event(t, c)] + ds;
    assert es1[1..] == ds;
    assert IsRun(s1, es1) && Quiet(s1, es1) && TickCount(s1, es1, t) > 0;
    es := [Event(console, c)] + es1;
    assert es[1..] == es1;
  }

  /** When a stop command has the simulation lock, a simulation step can still follow with the flag clear
      if and only if some simulation thread is still waiting for that lock. */
  lemma StopIsFinalIff(s: State, console: nat)
    requires Inv(s) && !s.simulating && console < |s.threads| && s.threads[console] == Console(GotSim)
    ensures (exists es, t: nat :: IsRun(s, es) && Quiet(s, es) && TickCount(s, es, t) > 0)
       <==> (exists t :: 0 <= t < |s.threads| && s.threads[t].Sim? && s.threads[t].s == Start)
  {
    hide IsRun, Quiet, TickCount;
    assert HoldsSim(s.threads[console]);
    if es, t: nat :| IsRun(s, es) && Quiet(s, es) && TickCount(s, es, t) > 0 {
      AtMostOneMoreTick(s, es, t);
      assert t != console && !HoldsSim(s.threads[t]);
      assert s.threads[t].s == Start;
    }
    if t :| 0 <= t < |s.threads| && s.threads[t].Sim? && s.threads[t].s == Start {
      var es := WaitingThreadSteps(s, console, t);
    }
  }

  lemma {:induction false} RunAppend(s: State, es: seq<Event>, ds: seq<Event>)
    requires IsRun(s, es) && IsRun(After(s, es), ds)
    ensures IsRun(s, es + ds) && After(s, es + ds) == After(After(s, es), ds)
    decreases |es|
  {
    if es == [] {
      assert es + ds == ds;
    } else {
      RunAppend(Step(s, es[0].t, es[0].c), es[1..], ds);
      assert (es + ds)[1..] == es[1..] + ds;
    }
  }

  lemma OneStep(s: State, t: nat, c: Choice)
    requires Enabled(s, t)
    ensures IsRun(s, [Event(t, c)]) && After(s, [Event(t, c)]) == Step(s, t, c)
  {
    assert [Event(t, c)][1..] == [];
    assert IsRun(Step(s, t, c), []);
  }

  /** The state after `n` steps of console 0, whose user types `r` whenever asked. */
  ghost function ByConsole0(s: State, n: nat): State {
    if n == 0 then s else
    var before := ByConsole0(s, n - 1);
    if Enabled(before, 0) then Step(before, 0, Choice(Some(Run), 0, 0)) else before
  }

  lemma {:induction false} ByConsole0IsRun(s: State, n: nat) returns (es: seq<Event>)
    requires forall i: nat :: i < n ==> Enabled(ByConsole0(s, i), 0)
    ensures IsRun(s, es) && After(s, es) == ByConsole0(s, n)
  {
    es := [];
    if n > 0 {
      var ds := ByConsole0IsRun(s, n - 1);
      OneStep(ByConsole0(s, n - 1), 0, Choice(Some(Run), 0, 0));
      RunAppend(s, ds, [Event(0, Choice(Some(Run), 0, 0))]);
      es := ds + [Event(0, Choice(Some(Run), 0, 0))];
    }
  }

  predicate FreeConsole0(s: State) {
    |s.threads| > 0 && s.threads[0] == Console(Idle) && s.app == None && s.sim == None
  }

  lemma {:induction false} LocksAndRaises(s: State)
    requires FreeConsole0(s)
    ensures ByConsole0(s, 4) == s.(app := Some(0), sim := Some(0), simulating := true,
                                   threads := Moved(s, 0, RunFlagged))
    ensures forall i: nat :: i < 4 ==> Enabled(ByConsole0(s, i), 0)
  {
    assert ByConsole0(s, 0) == s;
    assert ByConsole0(s, 1) == s.(threads := Moved(s, 0, WantApp(Run)));
    assert ByConsole0(s, 2) == s.(app := Some(0), threads := Moved(s, 0, InApp(Run)));
    assert ByConsole0(s, 3) == s.(app := Some(0), sim := Some(0), threads := Moved(s, 0, RunLocked));
  }

  lemma {:induction false} SpawnsAndLeaves(s: State, u: State)
    requires FreeConsole0(s)
    requires u == s.(app := Some(0), sim := Some(0), simulating := true, threads := Moved(s, 0, RunFlagged))
    ensures ByConsole0(u, 3) == s.(simulating := true, threads := s.threads + [Sim(Start, 0, 0)])
    ensures forall i: nat :: i < 3 ==> Enabled(ByConsole0(u, i), 0)
  {
    var spawned := Moved(s, 0, RunSpawned) + [Sim(Start, 0, 0)];
    assert ByConsole0(u, 0) == u;
    assert ByConsole0(u, 1) == u.(threads := spawned);
    assert ByConsole0(u, 2) == u.(sim := None, threads := spawned[0 := Console(LeaveApp(false))]);
    assert spawned[0 := Console(LeaveApp(false))][0 := Console(Idle)] == s.threads + [Sim(Start, 0, 0)];
  }

  /** An `r` command that finds both locks free ends with both free and one more thread waiting. */
  lemma {:induction false} RunCommand(s: State) returns (es: seq<Event>)
    requires FreeConsole0(s)
    ensures IsRun(s, es) && After(s, es) == s.(simulating := true, threads := s.threads + [Sim(Start, 0, 0)])
  {
    hide FreeConsole0, IsRun, After, ByConsole0, Enabled;
    LocksAndRaises(s);
    var ds := ByConsole0IsRun(s, 4);
    var u := After(s, ds);
    SpawnsAndLeaves(s, u);
    var cs := ByConsole0IsRun(u, 3);
    RunAppend(s, ds, cs);
    es := ds + cs;
  }

  /** The "already running" test of `r` does not bound the number of live simulation threads: one console
      can spawn any number of them before the first gets the lock. */
  lemma {:induction false} AnyNumberOfThreads(n: nat) returns (s: State, es: seq<Event>)
    ensures IsRun(Init(1, 0), es) && After(Init(1, 0), es) == s && Reachable(s)
    ensures s.app == None && s.sim == None && |s.threads| == n + 1 && s.threads[0] == Console(Idle)
    ensures forall t :: 1 <= t <= n ==> s.threads[t] == Sim(Start, 0, 0)
  {
    if n == 0 {
      s, es := Init(1, 0), [];
    } else {
      var s0, es0 := AnyNumberOfThreads(n - 1);
      var ds := RunCommand(s0);
      RunAppend(Init(1, 0), es0, ds);
      s, es := After(s0, ds), es0 + ds;
    }
  }
}
