/** What each command and each turn of a simulation thread does to the shared system, alone and in any run. */
module PttLaws {
  import opened Ptt

  // ---------- one thread's steps in a row ----------

  /** Thread `t` takes the four steps from `s` through `a`, `b`, `c` to `d`. */
  lemma FourSteps(s: State, a: State, b: State, c: State, d: State, t: nat, x: Choice) returns (es: seq<Event>)
    requires Enabled(s, t) && Step(s, t, x) == a && Enabled(a, t) && Step(a, t, x) == b
    requires Enabled(b, t) && Step(b, t, x) == c && Enabled(c, t) && Step(c, t, x) == d
    ensures IsRun(s, es) && After(s, es) == d
  {
    hide Step, Enabled;
    OneStep(s, t, x);
    OneStep(a, t, x);
    OneStep(b, t, x);
    OneStep(c, t, x);
    var e := [Event(t, x)];
    hide IsRun, After;
    RunAppend(s, e, e);
    RunAppend(s, e + e, e);
    RunAppend(s, e + e + e, e);
    es := e + e + e + e;
  }

  /** Console `t` is at its prompt and can have the application lock. */
  predicate Prompted(s: State, t: nat) {
    t < |s.threads| && s.threads[t] == Console(Idle) && s.app == None
  }

  /** Four steps of a console whose user types a command other than `r`, or an `r` that finds a simulation running. */
  lemma CommandSteps(s: State, t: nat, cmd: Cmd, value: int) returns (es: seq<Event>)
    requires Prompted(s, t) && (cmd == Run ==> s.sim.Some?)
    ensures IsRun(s, es)
    ensures After(s, es) ==
            match cmd
            case Get => s
            case Set => s.(pc := value)
            case Run => s
            case Stop => s.(simulating := false, threads := s.threads[t := Console(WantSim)])
  {
    var x := Choice(Some(cmd), value, 0);
    var a := Step(s, t, x);
    var b := Step(a, t, x);
    var c := Step(b, t, x);
    var d := Step(c, t, x);
    es := FourSteps(s, a, b, c, d, t, x);
    assert cmd != Stop ==> d.threads == s.threads;
  }

  /** `g` changes nothing. */
  lemma GetCommand(s: State, t: nat) returns (es: seq<Event>)
    requires Prompted(s, t)
    ensures IsRun(s, es) && After(s, es) == s
  {
    es := CommandSteps(s, t, Get, 0);
  }

  /** `s` sets the program counter to the number typed, and nothing else, whether a simulation runs or not. */
  lemma SetCommand(s: State, t: nat, value: int) returns (es: seq<Event>)
    requires Prompted(s, t)
    ensures IsRun(s, es) && After(s, es) == s.(pc := value)
  {
    es := CommandSteps(s, t, Set, value);
  }

  /** `r` while someone holds the simulation lock changes nothing: no second simulation starts. */
  lemma RunRefused(s: State, t: nat) returns (es: seq<Event>)
    requires Prompted(s, t) && s.sim.Some?
    ensures IsRun(s, es) && After(s, es) == s
  {
    es := CommandSteps(s, t, Run, 0);
  }

  // ---------- the stop command ----------

  lemma StoppedState(s: State, t: nat)
    requires Inv(s) && Prompted(s, t) && forall u :: 0 <= u < |s.threads| ==> !Running(s.threads[u])
    ensures Stopping(s.(simulating := false, threads := s.threads[t := Console(WantSim)]))
  {
    var d := s.(simulating := false, threads := s.threads[t := Console(WantSim)]);
    assert forall u :: 0 <= u < |s.threads| && u != t ==> d.threads[u] == s.threads[u];
    forall u | 0 <= u < |s.threads|
      ensures HoldsApp(d.threads[u]) <==> d.app == Some(u)
      ensures HoldsSim(d.threads[u]) <==> d.sim == Some(u)
      ensures !Running(d.threads[u]) && (d.threads[u].Sim? ==> !d.threads[u].s.Tested?)
    {
      assert HoldsApp(s.threads[u]) <==> s.app == Some(u);
      assert HoldsSim(s.threads[u]) <==> s.sim == Some(u);
    }
  }

  /**
   * A stop command, typed when the application lock is free and no `r` is under way, clears the flag and puts the
   * console in line for the simulation lock. From there every run without new commands is bounded, and where it
   * rests every simulation thread has ended, the flag is clear and the console is back at its prompt.
   */
  lemma StopCommand(s: State, t: nat) returns (es: seq<Event>)
    requires Inv(s) && Prompted(s, t) && forall u :: 0 <= u < |s.threads| ==> !Running(s.threads[u])
    ensures IsRun(s, es) && After(s, es) == s.(simulating := false, threads := s.threads[t := Console(WantSim)])
    ensures Stopping(After(s, es))
    ensures forall ds :: IsRun(After(s, es), ds) && NoNewCommand(After(s, es), ds) ==>
              |ds| <= Work(After(s, es).threads)
              && (Resting(After(After(s, es), ds)) ==> AtRest(After(After(s, es), ds), t))
  {
    es := CommandSteps(s, t, Stop, 0);
    StoppedState(s, t);
    var d := After(s, es);
    forall ds | IsRun(d, ds) && NoNewCommand(d, ds)
      ensures |ds| <= Work(d.threads) && (Resting(After(d, ds)) ==> AtRest(After(d, ds), t))
    {
      StoppingIsBounded(d, ds);
      NotExited(d, ds, t);
      hide Stopping, IsRun, After, NoNewCommand, Work;
      if Resting(After(d, ds)) {
        assert !Busy(After(d, ds).threads[t]);
        RestsAtPrompt(After(d, ds), t);
      }
    }
  }

  /** No busy thread can step. */
  ghost predicate Resting(s: State) {
    forall u: nat :: Enabled(s, u) ==> !Busy(s.threads[u])
  }

  predicate AtRest(s: State, t: nat) {
    && !s.simulating && t < |s.threads| && s.threads[t] == Console(Idle)
    && forall u :: 0 <= u < |s.threads| && s.threads[u].Sim? ==> s.threads[u].s == Ended
  }

  lemma RestsAtPrompt(s: State, t: nat)
    requires Stopping(s) && t < |s.threads| && s.threads[t].Console? && s.threads[t].c != Exited
    requires forall u :: 0 <= u < |s.threads| ==> !Busy(s.threads[u])
    ensures AtRest(s, t)
  {
    assert !Busy(s.threads[t]);
    forall u | 0 <= u < |s.threads| && s.threads[u].Sim?
      ensures s.threads[u].s == Ended
    {
      assert !Busy(s.threads[u]);
    }
  }

  /** Only a console at its prompt can be left for good. */
  lemma {:induction false} NotExited(s: State, ds: seq<Event>, t: nat)
    requires IsRun(s, ds) && NoNewCommand(s, ds)
    requires t < |s.threads| && s.threads[t].Console? && s.threads[t].c != Exited
    ensures var d := After(s, ds); t < |d.threads| && d.threads[t].Console? && d.threads[t].c != Exited
    decreases |ds|
  {
    if ds != [] {
      StepFrame(s, ds[0].t, ds[0].c);
      NotExited(Step(s, ds[0].t, ds[0].c), ds[1..], t);
    }
  }

  // ---------- the flag over a run ----------

  /** What the last `r` or `S` command of the run that passed its flag step wrote; `start` if none did. */
  ghost function LastWritten(s: State, es: seq<Event>, start: bool): bool
    requires IsRun(s, es)
    decreases |es|
  {
    if es == [] then start else
    var now := s.threads[es[0].t];
    LastWritten(Step(s, es[0].t, es[0].c), es[1..],
                if now == Console(RunLocked) then true else if now == Console(InApp(Stop)) then false else start)
  }

  /** In every run the flag is what the last command that writes it wrote. */
  lemma {:induction false} FlagIsLastWritten(s: State, es: seq<Event>)
    requires IsRun(s, es)
    ensures After(s, es).simulating == LastWritten(s, es, s.simulating)
    decreases |es|
  {
    if es != [] {
      FlagIsLastWritten(Step(s, es[0].t, es[0].c), es[1..]);
    }
  }

  // ---------- the program counter over a run ----------

  /** How often any thread executes its `PC++` in a run. */
  ghost function TotalTicks(s: State, es: seq<Event>): nat
    requires IsRun(s, es)
    decreases |es|
  {
    if es == [] then 0 else
    (if Ptt.Ticks(s, es[0].t) then 1 else 0) + TotalTicks(Step(s, es[0].t, es[0].c), es[1..])
  }

  /** No `s` command writes the program counter during the run. */
  ghost predicate NotSet(s: State, es: seq<Event>)
    requires IsRun(s, es)
    decreases |es|
  {
    es != [] ==> s.threads[es[0].t] != Console(InApp(Set)) && NotSet(Step(s, es[0].t, es[0].c), es[1..])
  }

  /** Without an `s` command the program counter counts the `PC++`s. */
  lemma {:induction false} PcCountsTicks(s: State, es: seq<Event>)
    requires IsRun(s, es) && NotSet(s, es)
    ensures After(s, es).pc == s.pc + TotalTicks(s, es)
    decreases |es|
  {
    if es != [] {
      PcCountsTicks(Step(s, es[0].t, es[0].c), es[1..]);
    }
  }

  /** After the last `s` command of a run it is the number typed plus the `PC++`s since. */
  lemma PcCountsFromLastSet(s: State, t: nat, c: Choice, es: seq<Event>)
    requires Enabled(s, t) && s.threads[t] == Console(InApp(Set))
    requires IsRun(Step(s, t, c), es) && NotSet(Step(s, t, c), es)
    ensures After(Step(s, t, c), es).pc == c.value + TotalTicks(Step(s, t, c), es)
  {
    PcCountsTicks(Step(s, t, c), es);
  }

  // ---------- a simulation thread ----------

  /** One turn of the loop adds 1 to the program counter, frees the application lock and goes round again if and only
      if the flag is set, whatever the step count. */
  lemma LoopTurn(s: State, t: nat) returns (es: seq<Event>)
    requires t < |s.threads| && s.threads[t].Sim? && s.threads[t].s == Loop && s.app == None
    ensures IsRun(s, es)
    ensures var d := After(s, es);
            && d == s.(pc := s.pc + 1, threads := d.threads) && |d.threads| == |s.threads|
            && d.threads[t].Sim? && d.threads[t].s == (if s.simulating then Loop else Finishing)
            && forall u :: 0 <= u < |s.threads| && u != t ==> d.threads[u] == s.threads[u]
  {
    var x := Choice(None, 0, 0);
    var a := Step(s, t, x);
    var b := Step(a, t, x);
    var c := Step(b, t, x);
    var d := Step(c, t, x);
    es := FourSteps(s, a, b, c, d, t, x);
  }

  /** Its last step frees the simulation lock and changes nothing else. */
  lemma FinishingEnds(s: State, t: nat, c: Choice)
    requires t < |s.threads| && s.threads[t].Sim? && s.threads[t].s == Finishing
    ensures Enabled(s, t)
    ensures Step(s, t, c) == s.(sim := None, threads := s.threads[t := s.threads[t].(s := Ended)])
    ensures !Enabled(Step(s, t, c), t)
  {
  }

  /** A console whose user types `q` takes no further step in any run, and the others go on. */
  lemma {:induction false} QuitIsFinal(s: State, t: nat, x: Choice, es: seq<Event>)
    requires t < |s.threads| && s.threads[t] == Console(Idle) && x.cmd.None?
    requires Enabled(s, t) ==> IsRun(Step(s, t, x), es)
    ensures Enabled(s, t) && Step(s, t, x) == s.(threads := s.threads[t := Console(Exited)])
    ensures forall e <- es :: e.t != t
  {
    StaysExited(Step(s, t, x), t, es);
  }

  lemma {:induction false} StaysExited(s: State, t: nat, es: seq<Event>)
    requires t < |s.threads| && s.threads[t] == Console(Exited) && IsRun(s, es)
    ensures forall e <- es :: e.t != t
    decreases |es|
  {
    if es != [] {
      StepFrame(s, es[0].t, es[0].c);
      StaysExited(Step(s, es[0].t, es[0].c), t, es[1..]);
      assert es == [es[0]] + es[1..];
    }
  }
}
