/** The CC2530 MAC timer: a 16-bit counter cascaded into a three-byte overflow counter. */
module MacTimer {
  import opened Arith

  const BYTE := 0x100
  const WORD := 0x1_0000

  /** The events of the interrupt flag register, lowest bit first. */
  datatype Flag = Period | Compare1 | Compare2 | OvfPeriod | OvfCompare1 | OvfCompare2

  /** Three bytes, lowest first. The source compares them for equality only, so their sign is immaterial. */
  datatype Bytes3 = Bytes3(b0: int, b1: int, b2: int)

  function Value(b: Bytes3): int {
    b.b0 + BYTE * b.b1 + WORD * b.b2
  }

  predicate IsBytes(b: Bytes3) {
    0 <= b.b0 < BYTE && 0 <= b.b1 < BYTE && 0 <= b.b2 < BYTE
  }

  /** The period and compare registers of both counters and the interrupt mask register, a byte. The
      counter's registers are signed 16-bit numbers, the counter itself is unsigned. */
  datatype Config = Config(
    period: int, compare1: int, compare2: int,
    ovfPeriod: Bytes3, ovfCompare1: Bytes3, ovfCompare2: Bytes3, mask: int)

  datatype Snapshot = Snapshot(count: int, ovf: Bytes3, flags: set<Flag>, event: bool, interrupt: bool, upMode: bool)

  /** The flag's bit in the flag and mask registers. */
  function BitOf(f: Flag): int {
    match f
    case Period => 0x01
    case Compare1 => 0x02
    case Compare2 => 0x04
    case OvfPeriod => 0x08
    case OvfCompare1 => 0x10
    case OvfCompare2 => 0x20
  }

  /** `x & bit` for a power of two. */
  function Masked(x: int, bit: int): int
    requires bit > 0
  {
    if x / bit % 2 == 1 then bit else 0
  }

  /** The code compares the masked bit with 1. */
  predicate Requests(cfg: Config, f: Flag) {
    Masked(cfg.mask, BitOf(f)) == 1
  }

  function Raise(cfg: Config, s: Snapshot, f: Flag): Snapshot {
    s.(flags := s.flags + {f}, event := true, interrupt := s.interrupt || Requests(cfg, f))
  }

  function RaiseIf(cfg: Config, s: Snapshot, f: Flag, c: bool): Snapshot {
    if c then Raise(cfg, s, f) else s
  }

  function Cascade(b: Bytes3): Bytes3 {
    if b.b0 + 1 < BYTE then b.(b0 := b.b0 + 1)
    else if b.b1 + 1 < BYTE then Bytes3(0, b.b1 + 1, b.b2)
    else Bytes3(0, 0, (b.b2 + 1) % BYTE)
  }

  function Overflow(cfg: Config, s: Snapshot): Snapshot {
    var t := s.(ovf := Cascade(s.ovf));
    var u := if t.ovf == cfg.ovfPeriod then Raise(cfg, t.(ovf := Bytes3(0, 0, 0)), OvfPeriod) else t;
    var v := RaiseIf(cfg, u, OvfCompare1, u.ovf == cfg.ovfCompare1);
    RaiseIf(cfg, v, OvfCompare2, v.ovf == cfg.ovfCompare2)
  }

  /** Compares and the period; a tick without any event clears all flags. */
  function CountCompare(cfg: Config, s: Snapshot): Snapshot {
    var t := RaiseIf(cfg, s, Compare1, s.count == cfg.compare1);
    var u := RaiseIf(cfg, t, Compare2, s.count == cfg.compare2);
    var v := if u.count == cfg.period && cfg.period != 0 then Raise(cfg, Overflow(cfg, u.(count := 0)), Period) else u;
    if v.event then v else v.(flags := {})
  }

  function UpTick(cfg: Config, s: Snapshot): Snapshot {
    var t := s.(event := false, count := (s.count + 1) % WORD);
    CountCompare(cfg, if t.count == 0 then Overflow(cfg, t) else t)
  }

  function DeltaTick(cfg: Config, s: Snapshot): Snapshot {
    var t := s.(event := false);
    CountCompare(cfg, if t.count == 0 then t.(upMode := true) else t.(count := t.count - 1))
  }

  function UpTicks(cfg: Config, s: Snapshot, n: nat): Snapshot {
    if n == 0 then s else UpTick(cfg, UpTicks(cfg, s, n - 1))
  }

  function DeltaTicks(cfg: Config, s: Snapshot, n: nat): Snapshot {
    if n == 0 then s else DeltaTick(cfg, DeltaTicks(cfg, s, n - 1))
  }

  // ---------- the timer object ----------

  class Timer2 {
    const cfg: Config
    var count: int
    var OVF0: int
    var OVF1: int
    var OVF2: int
    var irqf: set<Flag>
    var event: bool
    var ircon: bool
    var upMode: bool

    constructor (cfg: Config)
      ensures this.cfg == cfg && State() == Snapshot(0, Bytes3(0, 0, 0), {}, false, false, true)
    {
      this.cfg := cfg;
      count, OVF0, OVF1, OVF2, irqf, event, ircon, upMode := 0, 0, 0, 0, {}, false, false, true;
    }

    function State(): Snapshot
      reads this
    {
      Snapshot(count, Bytes3(OVF0, OVF1, OVF2), irqf, event, ircon, upMode)
    }

    method SetFlag(f: Flag)
      modifies `irqf, `event, `ircon
      ensures State() == Raise(cfg, old(State()), f)
    {
      irqf, event := irqf + {f}, true;
      if Masked(cfg.mask, BitOf(f)) == 1 {
        ircon := true;
      }
    }

    method IncrementOverflowCounter()
      requires IsBytes(Bytes3(OVF0, OVF1, OVF2))
      modifies `OVF0, `OVF1, `OVF2
      ensures State() == old(State()).(ovf := Cascade(old(State()).ovf))
    {
      OVF0 := (OVF0 + 1) % BYTE;
      if OVF0 == 0 {
        OVF1 := (OVF1 + 1) % BYTE;
        if OVF1 == 0 {
          OVF2 := (OVF2 + 1) % BYTE;
        }
      }
    }

    method OverflowCount()
      requires IsBytes(Bytes3(OVF0, OVF1, OVF2))
      modifies `OVF0, `OVF1, `OVF2, `irqf, `event, `ircon
      ensures State() == Overflow(cfg, old(State()))
    {
      IncrementOverflowCounter();
      hide Cascade;
      if OVF2 == cfg.ovfPeriod.b2 && OVF1 == cfg.ovfPeriod.b1 && OVF0 == cfg.ovfPeriod.b0 {
        OVF2, OVF1, OVF0 := 0, 0, 0;
        SetFlag(OvfPeriod);
      }
      if OVF2 == cfg.ovfCompare1.b2 && OVF1 == cfg.ovfCompare1.b1 && OVF0 == cfg.ovfCompare1.b0 {
        SetFlag(OvfCompare1);
      }
      if OVF2 == cfg.ovfCompare2.b2 && OVF1 == cfg.ovfCompare2.b1 && OVF0 == cfg.ovfCompare2.b0 {
        SetFlag(OvfCompare2);
      }
    }

    method Compare()
      requires IsBytes(Bytes3(OVF0, OVF1, OVF2))
      modifies `count, `OVF0, `OVF1, `OVF2, `irqf, `event, `ircon
      ensures State() == CountCompare(cfg, old(State()))
    {
      if count == cfg.compare1 {
        SetFlag(Compare1);
      }
      if count == cfg.compare2 {
        SetFlag(Compare2);
      }
      if count == cfg.period && cfg.period != 0 {
        count := 0;
        OverflowCount();
        SetFlag(Period);
      }
      if !event {
        irqf := {};
      }
    }

    method UpModeTick()
      requires IsBytes(State().ovf)
      modifies this
      ensures State() == UpTick(cfg, old(State())) && IsBytes(State().ovf)
    {
      hide Overflow, CountCompare;
      event := false;
      count := (count + 1) % WORD;
      KeepsBytes(cfg, State());
      if count == 0 {
        OverflowCount();
      }
      KeepsBytes(cfg, State());
      Compare();
    }

    method DoUpMode(cycles: nat)
      requires IsBytes(State().ovf)
      modifies this
      ensures State() == UpTicks(cfg, old(State()), cycles) && IsBytes(State().ovf)
    {
      hide UpTick;
      for i := 0 to cycles
        invariant State() == UpTicks(cfg, old(State()), i) && IsBytes(State().ovf)
      {
        UpModeTick();
      }
    }

    method DeltaModeTick()
      requires IsBytes(State().ovf)
      modifies this
      ensures State() == DeltaTick(cfg, old(State())) && IsBytes(State().ovf)
    {
      hide Overflow, CountCompare;
      event := false;
      if count == 0 {
        upMode := true;
      } else {
        count := count - 1;
      }
      KeepsBytes(cfg, State());
      Compare();
    }

    method DoDeltaMode(cycles: nat)
      requires IsBytes(State().ovf)
      modifies this
      ensures State() == DeltaTicks(cfg, old(State()), cycles) && IsBytes(State().ovf)
    {
      hide DeltaTick;
      for i := 0 to cycles
        invariant State() == DeltaTicks(cfg, old(State()), i) && IsBytes(State().ovf)
      {
        DeltaModeTick();
      }
    }
  }

  lemma OverflowKeepsBytes(cfg: Config, s: Snapshot)
    requires IsBytes(s.ovf)
    ensures IsBytes(Overflow(cfg, s).ovf)
  {
    assert IsBytes(Cascade(s.ovf));
    hide Cascade;
  }

  lemma KeepsBytes(cfg: Config, s: Snapshot)
    requires IsBytes(s.ovf)
    ensures IsBytes(Overflow(cfg, s).ovf) && IsBytes(CountCompare(cfg, s).ovf)
  {
    forall t: Snapshot | t.ovf == s.ovf
      ensures IsBytes(Overflow(cfg, t).ovf)
    {
      OverflowKeepsBytes(cfg, t);
    }
    hide Overflow;
  }

  // ---------- the cascade counts ----------

  /** The number of overflow counts in its period; the all-zero register means the full 24 bits. */
  function OvfPeriodOf(cfg: Config): int {
    if Value(cfg.ovfPeriod) == 0 then BYTE * WORD else Value(cfg.ovfPeriod)
  }

  /** A period register that is 0 or negative never matches: the counter runs through all 16 bits. */
  function PeriodOf(cfg: Config): int {
    if cfg.period > 0 then cfg.period else WORD
  }

  predicate Counting(cfg: Config, s: Snapshot) {
    IsBytes(cfg.ovfPeriod) && -0x8000 <= cfg.period < 0x8000
    && IsBytes(s.ovf) && Value(s.ovf) < OvfPeriodOf(cfg) && 0 <= s.count < PeriodOf(cfg)
  }

  lemma CascadeIncrements(b: Bytes3)
    requires IsBytes(b)
    ensures IsBytes(Cascade(b))
    ensures Value(Cascade(b)) == if Value(b) == BYTE * WORD - 1 then 0 else Value(b) + 1
  {
  }

  lemma ValueIsInjective(a: Bytes3, b: Bytes3)
    requires IsBytes(a) && IsBytes(b)
    ensures a == b <==> Value(a) == Value(b)
  {
    if a.b2 != b.b2 {
    } else if a.b1 != b.b1 {
    }
  }

  /** The overflow counter counts modulo its period. */
  lemma OverflowCounts(cfg: Config, s: Snapshot)
    requires IsBytes(cfg.ovfPeriod) && IsBytes(s.ovf) && Value(s.ovf) < OvfPeriodOf(cfg)
    ensures var r := Overflow(cfg, s);
            IsBytes(r.ovf) && r.count == s.count
            && Value(r.ovf) == if Value(s.ovf) == OvfPeriodOf(cfg) - 1 then 0 else Value(s.ovf) + 1
  {
    CascadeIncrements(s.ovf);
    ValueIsInjective(Cascade(s.ovf), cfg.ovfPeriod);
  }

  lemma UpTickCounts(cfg: Config, s: Snapshot)
    requires Counting(cfg, s)
    ensures var r, last := UpTick(cfg, s), s.count == PeriodOf(cfg) - 1;
            Counting(cfg, r) && r.count == (if last then 0 else s.count + 1)
            && Value(r.ovf) ==
               if !last then Value(s.ovf) else if Value(s.ovf) == OvfPeriodOf(cfg) - 1 then 0 else Value(s.ovf) + 1
  {
    forall t: Snapshot | t.ovf == s.ovf
      ensures var r := Overflow(cfg, t);
              IsBytes(r.ovf) && r.count == t.count
              && Value(r.ovf) == if Value(s.ovf) == OvfPeriodOf(cfg) - 1 then 0 else Value(s.ovf) + 1
    {
      OverflowCounts(cfg, t);
    }
    hide Overflow, Value;
  }

  /** Counter and overflow counter as one number. */
  function Total(cfg: Config, s: Snapshot): int {
    Value(s.ovf) * PeriodOf(cfg) + s.count
  }

  /** A two-digit number with radices `p` (low) and `q` (high). */
  lemma TwoDigits(p: int, q: int, v: int, c: int)
    requires 0 <= c < p && 0 <= v < q
    ensures 0 <= v * p + c < p * q
    ensures v * p + c == p * q - 1 <==> v == q - 1 && c == p - 1
    ensures (v + 1) * p == v * p + p
  {
    MulMonotonic(p, v + 1, q);
    assert p * (v + 1) == p * v + p;
    if v < q - 1 {
      MulMonotonic(p, v + 2, q);
      assert p * (v + 2) == p * v + 2 * p;
    } else {
      assert p * q == p * v + p;
    }
  }

  lemma TotalStep(cfg: Config, s: Snapshot)
    requires Counting(cfg, s)
    ensures 0 <= Total(cfg, s) < PeriodOf(cfg) * OvfPeriodOf(cfg)
    ensures var m := PeriodOf(cfg) * OvfPeriodOf(cfg);
            Total(cfg, UpTick(cfg, s)) == if Total(cfg, s) == m - 1 then 0 else Total(cfg, s) + 1
  {
    UpTickCounts(cfg, s);
    TwoDigits(PeriodOf(cfg), OvfPeriodOf(cfg), Value(s.ovf), s.count);
    hide UpTick, Value, PeriodOf, OvfPeriodOf;
  }

  /** Up mode: the two counters together count ticks modulo the product of their periods. */
  lemma {:induction false} UpModeCounts(cfg: Config, s: Snapshot, n: nat)
    requires Counting(cfg, s)
    ensures var r, m := UpTicks(cfg, s, n), PeriodOf(cfg) * OvfPeriodOf(cfg);
            Counting(cfg, r) && m > 0 && Total(cfg, r) == (Total(cfg, s) + n) % m
  {
    var m := PeriodOf(cfg) * OvfPeriodOf(cfg);
    TotalStep(cfg, s);
    if n == 0 {
      DivModUnique(Total(cfg, s), m, 0, Total(cfg, s));
    } else {
      UpModeCounts(cfg, s, n - 1);
      var before := UpTicks(cfg, s, n - 1);
      TotalStep(cfg, before);
      UpTickCounts(cfg, before);
      ModStep(Total(cfg, s) + n - 1, m);
    }
  }

  // ---------- the interrupt ----------

  /** Of all mask bits only the lowest can satisfy the test. */
  lemma OnlyLowestBit(cfg: Config, f: Flag)
    ensures Requests(cfg, f) <==> f == Period && cfg.mask % 2 == 1
  {
  }

  /** The tick brings the counter to its period. */
  predicate UpPeriod(cfg: Config, s: Snapshot) {
    (s.count + 1) % WORD == cfg.period && cfg.period != 0
  }

  predicate DeltaPeriod(cfg: Config, s: Snapshot) {
    (if s.count == 0 then 0 else s.count - 1) == cfg.period && cfg.period != 0
  }

  lemma OverflowInterrupt(cfg: Config, s: Snapshot)
    ensures Overflow(cfg, s).interrupt == s.interrupt && Overflow(cfg, s).count == s.count
  {
    OnlyLowestBit(cfg, OvfPeriod);
    OnlyLowestBit(cfg, OvfCompare1);
    OnlyLowestBit(cfg, OvfCompare2);
    hide Requests, Cascade;
  }

  lemma CompareInterrupt(cfg: Config, s: Snapshot)
    ensures CountCompare(cfg, s).interrupt
            <==> s.interrupt || (cfg.mask % 2 == 1 && s.count == cfg.period && cfg.period != 0)
  {
    OnlyLowestBit(cfg, Compare1);
    OnlyLowestBit(cfg, Compare2);
    OnlyLowestBit(cfg, Period);
    var t := RaiseIf(cfg, s, Compare1, s.count == cfg.compare1);
    var u := RaiseIf(cfg, t, Compare2, s.count == cfg.compare2);
    OverflowInterrupt(cfg, u.(count := 0));
    hide Requests, Overflow;
  }

  lemma TickInterrupt(cfg: Config, s: Snapshot)
    ensures UpTick(cfg, s).interrupt <==> s.interrupt || (cfg.mask % 2 == 1 && UpPeriod(cfg, s))
    ensures DeltaTick(cfg, s).interrupt <==> s.interrupt || (cfg.mask % 2 == 1 && DeltaPeriod(cfg, s))
  {
    hide CountCompare, Overflow;
    var t := s.(event := false, count := (s.count + 1) % WORD);
    OverflowInterrupt(cfg, t);
    CompareInterrupt(cfg, if t.count == 0 then Overflow(cfg, t) else t);
    var d := s.(event := false);
    CompareInterrupt(cfg, if d.count == 0 then d.(upMode := true) else d.(count := d.count - 1));
  }

  /** In every run of up ticks the interrupt is requested exactly by a period event with bit 0 of the mask set,
      or was before. */
  lemma {:induction false} UpInterruptIff(cfg: Config, s: Snapshot, n: nat)
    ensures UpTicks(cfg, s, n).interrupt
            <==> s.interrupt || (cfg.mask % 2 == 1 && exists k: nat :: k < n && UpPeriod(cfg, UpTicks(cfg, s, k)))
  {
    hide UpTick, UpPeriod;
    if n > 0 {
      UpInterruptIff(cfg, s, n - 1);
      TickInterrupt(cfg, UpTicks(cfg, s, n - 1));
    }
  }

  /** The same for the delta mode. */
  lemma {:induction false} DeltaInterruptIff(cfg: Config, s: Snapshot, n: nat)
    ensures DeltaTicks(cfg, s, n).interrupt
            <==> s.interrupt || (cfg.mask % 2 == 1 && exists k: nat :: k < n && DeltaPeriod(cfg, DeltaTicks(cfg, s, k)))
  {
    hide DeltaTick, DeltaPeriod;
    if n > 0 {
      DeltaInterruptIff(cfg, s, n - 1);
      TickInterrupt(cfg, DeltaTicks(cfg, s, n - 1));
    }
  }

  /** When that is: the counter, below its period at the start, has reached it within `n` ticks. */
  lemma {:induction false} UpInterruptWhen(cfg: Config, s: Snapshot, n: nat)
    requires Counting(cfg, s)
    ensures UpTicks(cfg, s, n).interrupt
            <==> s.interrupt || (cfg.mask % 2 == 1 && cfg.period > 0 && s.count + n >= cfg.period)
  {
    hide UpTick, Value, OvfPeriodOf, IsBytes;
    if n > 0 {
      UpInterruptWhen(cfg, s, n - 1);
      TickInterrupt(cfg, UpTicks(cfg, s, n - 1));
      if s.count + n - 1 < PeriodOf(cfg) {
        StillCounting(cfg, s, n - 1);
      }
    }
  }

  lemma {:induction false} UpRun(cfg: Config, s: Snapshot, n: nat)
    requires Counting(cfg, s)
    ensures Counting(cfg, UpTicks(cfg, s, n))
  {
    hide UpTick;
    if n > 0 {
      UpRun(cfg, s, n - 1);
      UpTickCounts(cfg, UpTicks(cfg, s, n - 1));
    }
  }

  lemma {:induction false} StillCounting(cfg: Config, s: Snapshot, n: nat)
    requires Counting(cfg, s) && s.count + n < PeriodOf(cfg)
    ensures UpTicks(cfg, s, n).count == s.count + n
  {
    hide UpTick;
    if n > 0 {
      StillCounting(cfg, s, n - 1);
      UpRun(cfg, s, n - 1);
      UpTickCounts(cfg, UpTicks(cfg, s, n - 1));
    }
  }

  /** Delta mode counts down to 0, stays there and switches back to up mode, provided the period register
      does not match on the way: then the count jumps to 0 at once. */
  lemma {:induction false} DeltaModeCounts(cfg: Config, s: Snapshot, n: nat)
    requires s.count >= 0 && !s.upMode
    ensures var r, c := DeltaTicks(cfg, s, n), s.count;
            var stop := if 0 < cfg.period < c then c - cfg.period else c;
            r.count == (if n < stop then c - n else 0) && (r.upMode <==> n > stop)
  {
    if n > 0 {
      DeltaModeCounts(cfg, s, n - 1);
    }
  }
}
