/** Which event flags of the MAC timer a tick raises, by the numbers the two counters reach. */
module MacFlags {
  import opened MacTimer

  predicate Registers(cfg: Config) {
    IsBytes(cfg.ovfPeriod) && IsBytes(cfg.ovfCompare1) && IsBytes(cfg.ovfCompare2)
  }

  /** What a tick that brings the counter to `count` is about: the counter reaches its period, the overflow counter is
      incremented, and the numbers this counter then reaches, before and after its own period is applied. */
  predicate AtPeriod(cfg: Config, count: int) {
    count == cfg.period && cfg.period != 0
  }

  function Incremented(v: int): int {
    if v == 0xFF_FFFF then 0 else v + 1
  }

  function Reached(cfg: Config, v: int): int {
    if Incremented(v) == Value(cfg.ovfPeriod) then 0 else Incremented(v)
  }

  /** The events of a tick, `over` saying whether it increments the overflow counter, which was at `v`. */
  predicate IsEvent(cfg: Config, count: int, over: bool, v: int, f: Flag) {
    match f
    case Period => AtPeriod(cfg, count)
    case Compare1 => count == cfg.compare1
    case Compare2 => count == cfg.compare2
    case OvfPeriod => over && Incremented(v) == Value(cfg.ovfPeriod)
    case OvfCompare1 => over && Reached(cfg, v) == Value(cfg.ovfCompare1)
    case OvfCompare2 => over && Reached(cfg, v) == Value(cfg.ovfCompare2)
  }

  /** The flags after a tick: those of its events join the old ones; a tick without an event clears them all. */
  predicate FlagsAfter(cfg: Config, old_flags: set<Flag>, count: int, over: bool, v: int, r: Snapshot) {
    if exists f :: IsEvent(cfg, count, over, v, f)
    then r.event && forall f :: f in r.flags <==> f in old_flags || IsEvent(cfg, count, over, v, f)
    else !r.event && r.flags == {}
  }

  /** The increment of the overflow counter. */
  lemma OverflowEvents(cfg: Config, s: Snapshot)
    requires Registers(cfg) && IsBytes(s.ovf)
    ensures var r, v := Overflow(cfg, s), Value(s.ovf);
            && IsBytes(r.ovf) && Value(r.ovf) == Reached(cfg, v) && r.count == s.count
            && (forall f :: f in r.flags <==>
                  f in s.flags || (f in {OvfPeriod, OvfCompare1, OvfCompare2} && IsEvent(cfg, s.count, true, v, f)))
            && (r.event <==> s.event || exists f :: f in {OvfPeriod, OvfCompare1, OvfCompare2}
                                                   && IsEvent(cfg, s.count, true, v, f))
  {
    var v, t := Value(s.ovf), Cascade(s.ovf);
    CascadeIncrements(s.ovf);
    ValueIsInjective(t, cfg.ovfPeriod);
    var u := if t == cfg.ovfPeriod then Bytes3(0, 0, 0) else t;
    ValueIsInjective(u, cfg.ovfCompare1);
    ValueIsInjective(u, cfg.ovfCompare2);
    assert Value(Bytes3(0, 0, 0)) == 0;
    hide Cascade, Value, Requests;
    assert IsEvent(cfg, s.count, true, v, OvfPeriod) <==> t == cfg.ovfPeriod;
    assert IsEvent(cfg, s.count, true, v, OvfCompare1) <==> u == cfg.ovfCompare1;
    assert IsEvent(cfg, s.count, true, v, OvfCompare2) <==> u == cfg.ovfCompare2;
  }

  /** The compares and the period of a counter that has moved without an overflow. */
  lemma CompareEvents(cfg: Config, s: Snapshot)
    requires Registers(cfg) && IsBytes(s.ovf) && !s.event
    ensures FlagsAfter(cfg, s.flags, s.count, AtPeriod(cfg, s.count), Value(s.ovf), CountCompare(cfg, s))
  {
    var c, v, over := s.count, Value(s.ovf), AtPeriod(cfg, s.count);
    var t := RaiseIf(cfg, s, Compare1, c == cfg.compare1);
    var u := RaiseIf(cfg, t, Compare2, c == cfg.compare2);
    OverflowEvents(cfg, u.(count := 0));
    hide Overflow, Requests, Value, Incremented, Reached;
    assert over ==> IsEvent(cfg, c, over, v, Period);
    assert c == cfg.compare1 ==> IsEvent(cfg, c, over, v, Compare1);
    assert c == cfg.compare2 ==> IsEvent(cfg, c, over, v, Compare2);
    if over {
      forall f
        ensures f in Overflow(cfg, u.(count := 0)).flags || f == Period <==>
                f in s.flags || IsEvent(cfg, c, over, v, f)
      {
        SameEvents(cfg, c, 0, v, f);
      }
    }
  }

  lemma SameEvents(cfg: Config, c: int, d: int, v: int, f: Flag)
    ensures f in {OvfPeriod, OvfCompare1, OvfCompare2} ==>
            (IsEvent(cfg, c, true, v, f) <==> IsEvent(cfg, d, true, v, f))
    ensures f in {Period, Compare1, Compare2, OvfPeriod, OvfCompare1, OvfCompare2}
  {
  }

  /** The same after the counter has wrapped round to 0, which is no period. */
  lemma WrapEvents(cfg: Config, s: Snapshot)
    requires Registers(cfg) && IsBytes(s.ovf) && !s.event && s.count == 0
    ensures FlagsAfter(cfg, s.flags, 0, true, Value(s.ovf), CountCompare(cfg, Overflow(cfg, s)))
  {
    var v, o := Value(s.ovf), Overflow(cfg, s);
    OverflowEvents(cfg, s);
    hide Overflow, Requests, Value, Incremented, Reached;
    assert 0 == cfg.compare1 ==> IsEvent(cfg, 0, true, v, Compare1);
    assert 0 == cfg.compare2 ==> IsEvent(cfg, 0, true, v, Compare2);
    assert !AtPeriod(cfg, 0);
    var r := CountCompare(cfg, o);
    forall f
      ensures (f in o.flags || (f == Compare1 && 0 == cfg.compare1) || (f == Compare2 && 0 == cfg.compare2))
              <==> f in s.flags || IsEvent(cfg, 0, true, v, f)
    {
      SameEvents(cfg, 0, 0, v, f);
    }
  }

  /**
   * An up tick counts modulo 2^16 and raises exactly the flags of its events, the overflow counter being incremented
   * where the counter wraps to 0 or reaches its period; a tick without an event clears all flags.
   */
  lemma UpTickFlags(cfg: Config, s: Snapshot)
    requires Registers(cfg) && IsBytes(s.ovf)
    ensures var c := (s.count + 1) % 0x1_0000;
            FlagsAfter(cfg, s.flags, c, c == 0 || AtPeriod(cfg, c), Value(s.ovf), UpTick(cfg, s))
  {
    var t := s.(event := false, count := (s.count + 1) % WORD);
    hide CountCompare, Overflow, FlagsAfter;
    if t.count == 0 {
      WrapEvents(cfg, t);
    } else {
      CompareEvents(cfg, t);
    }
  }

  /** A delta tick counts down and stays at 0; the overflow counter is incremented at the period only. */
  lemma DeltaTickFlags(cfg: Config, s: Snapshot)
    requires Registers(cfg) && IsBytes(s.ovf)
    ensures var c := if s.count == 0 then 0 else s.count - 1;
            FlagsAfter(cfg, s.flags, c, AtPeriod(cfg, c), Value(s.ovf), DeltaTick(cfg, s))
  {
    var t := s.(event := false);
    hide CountCompare, Overflow, FlagsAfter;
    CompareEvents(cfg, if t.count == 0 then t.(upMode := true) else t.(count := t.count - 1));
  }

  /** The register bits of the six flags are the six lowest, each its own. */
  lemma FlagBits(f: Flag, g: Flag)
    ensures BitOf(Period) == 1 && BitOf(Compare1) == 2 && BitOf(Compare2) == 4
    ensures BitOf(OvfPeriod) == 8 && BitOf(OvfCompare1) == 16 && BitOf(OvfCompare2) == 32
    ensures BitOf(f) == BitOf(g) <==> f == g
  {
  }
}
