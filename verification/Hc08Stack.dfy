/** The memory stack of the HC08 refines a bounded last-in first-out stack of frames. */
module Hc08Stack {
  import opened Hc08

  /** What JSR, SWI and the push instructions leave on the stack. */
  datatype Frame = Ret(pc: int) | Irq(pc: int, x: int, a: int, p: Flags) | Saved(b: int)

  function Size(f: Frame): nat {
    match f case Ret(_) => 2 case Irq(_, _, _, _) => 5 case Saved(_) => 1
  }

  function TotalSize(fs: seq<Frame>): nat {
    if fs == [] then 0 else Size(fs[0]) + TotalSize(fs[1..])
  }

  /** The program counter and registers, and the frames, last in first. */
  datatype Abstract = Abstract(A: int, P: Flags, H: int, X: int, PC: int, stack: seq<Frame>)

  /** The values the registers can hold. */
  predicate InRange(A: int, H: int, X: int, PC: int) {
    0 <= A < BYTE && 0 <= H < BYTE && 0 <= X < BYTE && 0 <= PC < WORD
  }

  /** `Work` stands for any code between the stack instructions. */
  datatype Op =
    | Call(target: int)
    | Return
    | Trap
    | EndTrap
    | Save(from: Reg)
    | Restore(to: Reg)
    | Work(A: int, P: Flags, H: int, X: int, PC: int, writes: Memory)

  /** The stack starts empty below `base`; the trap vector lies above it. */
  datatype Layout = Layout(base: int, vector: int)

  predicate Sound(l: Layout) {
    0 <= l.base < 0xfffc && 0 <= l.vector < WORD
  }

  // ---------- the abstract machine ----------

  datatype Option<T> = None | Some(value: T)

  function PushFrame(l: Layout, s: Abstract, f: Frame): Option<Abstract> {
    if Size(f) + TotalSize(s.stack) <= l.base then Some(s.(stack := [f] + s.stack)) else None
  }

  function SetReg(s: Abstract, r: Reg, b: int): Abstract {
    match r case RegA => s.(A := b) case RegX => s.(X := b) case RegH => s.(H := b)
  }

  function GetReg(s: Abstract, r: Reg): int {
    match r case RegA => s.A case RegX => s.X case RegH => s.H
  }

  /** The work writes no byte of the stack and not the trap vector. */
  predicate Apart(l: Layout, s: Abstract, writes: Memory) {
    forall a <- writes :: !(l.base - TotalSize(s.stack) < a <= l.base) && a != 0xfffc && a != 0xfffd
  }

  /** A return takes the frame of its own kind; None when there is none on top or no room to push. */
  function AbsStep(l: Layout, s: Abstract, o: Op): Option<Abstract> {
    match o
    case Call(target) =>
      (match PushFrame(l, s, Ret(s.PC))
       case Some(t) => if 0 <= target < WORD then Some(t.(PC := target)) else None
       case None => None)
    case Return =>
      if s.stack != [] && s.stack[0].Ret? then Some(s.(PC := s.stack[0].pc, stack := s.stack[1..])) else None
    case Trap =>
      (match PushFrame(l, s, Irq(s.PC, s.X, s.A, s.P))
       case Some(t) => Some(t.(P := s.P.(i := false), PC := l.vector))
       case None => None)
    case EndTrap =>
      if s.stack != [] && s.stack[0].Irq? then
        var f := s.stack[0];
        Some(s.(P := f.p.(b6 := true, b5 := true), A := f.a, X := f.x, PC := f.pc, stack := s.stack[1..]))
      else None
    case Save(r) => PushFrame(l, s, Saved(GetReg(s, r)))
    case Restore(r) =>
      if s.stack != [] && s.stack[0].Saved? then Some(SetReg(s, r, s.stack[0].b).(stack := s.stack[1..])) else None
    case Work(a, p, h, x, pc, writes) =>
      if InRange(a, h, x, pc) && Apart(l, s, writes) then Some(s.(A := a, P := p, H := h, X := x, PC := pc)) else None
  }

  function AbsRun(l: Layout, s: Abstract, ops: seq<Op>): Option<Abstract>
    decreases |ops|
  {
    if ops == [] then Some(s) else
      match AbsStep(l, s, ops[0])
      case Some(t) => AbsRun(l, t, ops[1..])
      case None => None
  }

  // ---------- the processor ----------

  function Step(s: Cpu, o: Op): Cpu {
    match o
    case Call(target) => Jsr(s, target)
    case Return => Rts(s)
    case Trap => Swi(s)
    case EndTrap => Rti(s)
    case Save(r) => Push(s, r)
    case Restore(r) => Pull(s, r)
    case Work(a, p, h, x, pc, writes) => Cpu(a, p, h, x, s.SP, pc, s.mem + writes)
  }

  function Run(s: Cpu, ops: seq<Op>): Cpu
    decreases |ops|
  {
    if ops == [] then s else Run(Step(s, ops[0]), ops[1..])
  }

  // ---------- the refinement ----------

  /** The bytes from `p` up hold a frame. */
  predicate HoldsFrame(m: Memory, p: int, f: Frame) {
    match f
    case Ret(pc) => 0 <= pc < WORD && Read(m, p) * BYTE + Read(m, p + 1) == pc
    case Irq(pc, x, a, fl) =>
      && InRange(a, 0, x, pc)
      && Read(m, p) == ToByte(fl) && Read(m, p + 1) == a && Read(m, p + 2) == x
      && Read(m, p + 3) * BYTE + Read(m, p + 4) == pc
    case Saved(b) => 0 <= b < BYTE && Read(m, p) == b
  }

  predicate Holds(m: Memory, p: int, fs: seq<Frame>)
    decreases |fs|
  {
    fs != [] ==> HoldsFrame(m, p, fs[0]) && Holds(m, p + Size(fs[0]), fs[1..])
  }

  ghost predicate Refines(l: Layout, c: Cpu, s: Abstract) {
    && Sound(l)
    && (c.A, c.P, c.H, c.X, c.PC) == (s.A, s.P, s.H, s.X, s.PC)
    && InRange(s.A, s.H, s.X, s.PC)
    && c.SP == l.base - TotalSize(s.stack) && 0 <= c.SP
    && Holds(c.mem, c.SP + 1, s.stack)
    && Read(c.mem, 0xfffc) * BYTE + Read(c.mem, 0xfffd) == l.vector
  }

  lemma {:induction false} HoldsSame(m: Memory, m': Memory, p: int, fs: seq<Frame>)
    requires Holds(m, p, fs)
    requires forall a :: p <= a < p + TotalSize(fs) ==> Read(m', a) == Read(m, a)
    ensures Holds(m', p, fs)
    decreases |fs|
  {
    if fs != [] {
      HoldsSame(m, m', p + Size(fs[0]), fs[1..]);
    }
  }

  /** A push of a frame keeps the frames below it. */
  lemma PushRefines(l: Layout, c: Cpu, s: Abstract, f: Frame, c': Cpu)
    requires Refines(l, c, s) && Size(f) + TotalSize(s.stack) <= l.base
    requires c'.SP == c.SP - Size(f) && HoldsFrame(c'.mem, c'.SP + 1, f)
    requires forall a: int :: a <= c'.SP || c.SP < a ==> Read(c'.mem, a) == Read(c.mem, a)
    ensures var fs := [f] + s.stack;
            && c'.SP == l.base - TotalSize(fs) && 0 <= c'.SP && Holds(c'.mem, c'.SP + 1, fs)
            && Read(c'.mem, 0xfffc) * BYTE + Read(c'.mem, 0xfffd) == l.vector
  {
    var fs := [f] + s.stack;
    assert fs[1..] == s.stack && fs[0] == f;
    HoldsSame(c.mem, c'.mem, c.SP + 1, s.stack);
    hide HoldsFrame;
  }

  lemma CallRefines(l: Layout, c: Cpu, s: Abstract, o: Op)
    requires Refines(l, c, s) && o.Call? && AbsStep(l, s, o).Some?
    ensures Refines(l, Step(c, o), AbsStep(l, s, o).value)
  {
    PushRefines(l, c, s, Ret(s.PC), Push2(c, c.PC));
  }

  lemma SaveRefines(l: Layout, c: Cpu, s: Abstract, o: Op)
    requires Refines(l, c, s) && o.Save? && AbsStep(l, s, o).Some?
    ensures Refines(l, Step(c, o), AbsStep(l, s, o).value)
  {
    PushRefines(l, c, s, Saved(GetReg(s, o.from)), Step(c, o));
  }

  lemma SwiStores(c: Cpu)
    requires 5 <= c.SP < WORD
    ensures var m := c.mem[c.SP - 1 := c.PC / BYTE % BYTE][c.SP := c.PC % BYTE][c.SP - 2 := c.X][c.SP - 3 := c.A]
                          [c.SP - 4 := ToByte(c.P)];
            Swi(c) == c.(SP := c.SP - 5, mem := m, P := c.P.(i := false),
                         PC := Read(m, 0xfffc) * BYTE + Read(m, 0xfffd))
  {
    hide ToByte, Read;
    var t0 := Push2(c, c.PC);
    var t1 := Push1(t0, t0.X);
    var t2 := Push1(t1, t1.A);
    assert t0.SP == c.SP - 2 && t1.SP == c.SP - 3 && t2.SP == c.SP - 4;
  }

  /** The bytes SWI pushes, for a stack pointer that does not wrap. */
  lemma TrapPushes(c: Cpu)
    requires 5 <= c.SP < WORD && InRange(c.A, c.H, c.X, c.PC)
    ensures var t := Step(c, Trap);
            && t.SP == c.SP - 5 && HoldsFrame(t.mem, t.SP + 1, Irq(c.PC, c.X, c.A, c.P))
            && (forall a: int :: a <= t.SP || c.SP < a ==> Read(t.mem, a) == Read(c.mem, a))
            && t == c.(SP := t.SP, mem := t.mem, P := c.P.(i := false),
                       PC := Read(t.mem, 0xfffc) * BYTE + Read(t.mem, 0xfffd))
  {
    hide ToByte, Swi;
    SwiStores(c);
  }

  lemma TrapRefines(l: Layout, c: Cpu, s: Abstract, o: Op)
    requires Refines(l, c, s) && o.Trap? && AbsStep(l, s, o).Some?
    ensures Refines(l, Step(c, o), AbsStep(l, s, o).value)
  {
    hide HoldsFrame, Holds, Swi, TotalSize, Read;
    TrapPushes(c);
    PushRefines(l, c, s, Irq(s.PC, s.X, s.A, s.P), Step(c, o));
  }

  lemma RtiPops(c: Cpu)
    requires 0 <= c.SP && c.SP + 5 < WORD
    ensures Rti(c) == c.(P := FromByte(Read(c.mem, c.SP + 1)).(b6 := true, b5 := true), A := Read(c.mem, c.SP + 2),
                         X := Read(c.mem, c.SP + 3), PC := Read(c.mem, c.SP + 4) * BYTE + Read(c.mem, c.SP + 5),
                         SP := c.SP + 5)
  {
    hide FromByte, Read;
    var s1 := Drop(c.(P := FromByte(Top1(c)).(b6 := true, b5 := true)), 1);
    var s2 := Drop(s1.(A := Top1(s1)), 1);
    var s3 := Drop(s2.(X := Top1(s2)), 1);
    assert s1.SP == c.SP + 1 && s2.SP == c.SP + 2 && s3.SP == c.SP + 3;
  }

  /** RTI takes the frame SWI left. */
  lemma EndTrapPops(c: Cpu, f: Frame)
    requires f.Irq? && HoldsFrame(c.mem, c.SP + 1, f) && 0 <= c.SP && c.SP + 5 < WORD
    ensures Step(c, EndTrap) == c.(P := f.p.(b6 := true, b5 := true), A := f.a, X := f.x, PC := f.pc, SP := c.SP + 5)
  {
    hide ToByte, FromByte, Read, Rti;
    FlagsRoundTrip(f.p);
    RtiPops(c);
  }

  lemma TopFrame(m: Memory, p: int, fs: seq<Frame>)
    requires Holds(m, p, fs) && fs != [] && fs[0].Irq?
    ensures HoldsFrame(m, p, fs[0]) && Holds(m, p + 5, fs[1..]) && TotalSize(fs) == 5 + TotalSize(fs[1..])
    ensures InRange(fs[0].a, 0, fs[0].x, fs[0].pc)
  {
  }

  lemma EndTrapRefines(l: Layout, c: Cpu, s: Abstract, o: Op)
    requires Refines(l, c, s) && o.EndTrap? && AbsStep(l, s, o).Some?
    ensures Refines(l, Step(c, o), AbsStep(l, s, o).value)
  {
    hide Step, Read, HoldsFrame, Holds, TotalSize, ToByte;
    TopFrame(c.mem, c.SP + 1, s.stack);
    EndTrapPops(c, s.stack[0]);
  }

  lemma WorkRefines(l: Layout, c: Cpu, s: Abstract, o: Op)
    requires Refines(l, c, s) && o.Work? && AbsStep(l, s, o).Some?
    ensures Refines(l, Step(c, o), AbsStep(l, s, o).value)
  {
    HoldsSame(c.mem, Step(c, o).mem, c.SP + 1, s.stack);
  }

  lemma StepRefines(l: Layout, c: Cpu, s: Abstract, o: Op)
    requires Refines(l, c, s) && AbsStep(l, s, o).Some?
    ensures Refines(l, Step(c, o), AbsStep(l, s, o).value)
  {
    match o
    case Call(_) => CallRefines(l, c, s, o);
    case Return =>
    case Trap => TrapRefines(l, c, s, o);
    case EndTrap => EndTrapRefines(l, c, s, o);
    case Save(_) => SaveRefines(l, c, s, o);
    case Restore(_) =>
    case Work(_, _, _, _, _, _) => WorkRefines(l, c, s, o);
  }

  /** Every run the bounded stack allows is a run of the processor with the same registers and frames. */
  lemma {:induction false} RunRefines(l: Layout, c: Cpu, s: Abstract, ops: seq<Op>)
    requires Refines(l, c, s) && AbsRun(l, s, ops).Some?
    ensures Refines(l, Run(c, ops), AbsRun(l, s, ops).value)
    decreases |ops|
  {
    if ops != [] {
      StepRefines(l, c, s, ops[0]);
      RunRefines(l, Step(c, ops[0]), AbsStep(l, s, ops[0]).value, ops[1..]);
    }
  }

  // ---------- well-nested code ----------

  datatype Code =
    | End
    | Then(work: Op, next: Code)
    | Sub(target: int, body: Code, next: Code)
    | Handler(body: Code, next: Code)
    | Keep(from: Reg, body: Code, to: Reg, next: Code)

  function Length(k: Code): nat {
    match k
    case End => 0
    case Then(_, next) => 1 + Length(next)
    case Sub(_, body, next) => 1 + Length(body) + Length(next)
    case Handler(body, next) => 1 + Length(body) + Length(next)
    case Keep(_, body, _, next) => 1 + Length(body) + Length(next)
  }

  function Flatten(k: Code): seq<Op> {
    match k
    case End => []
    case Then(w, next) => (if w.Work? then [w] else []) + Flatten(next)
    case Sub(target, body, next) => [Call(target)] + (Flatten(body) + ([Return] + Flatten(next)))
    case Handler(body, next) => [Trap] + (Flatten(body) + ([EndTrap] + Flatten(next)))
    case Keep(from, body, to, next) => [Save(from)] + (Flatten(body) + ([Restore(to)] + Flatten(next)))
  }

  lemma {:induction false} AbsRunAppend(l: Layout, s: Abstract, xs: seq<Op>, ys: seq<Op>)
    ensures AbsRun(l, s, xs + ys) ==
            if AbsRun(l, s, xs).Some? then AbsRun(l, AbsRun(l, s, xs).value, ys) else None
    decreases |xs|
  {
    if xs == [] {
      assert xs + ys == ys;
    } else {
      assert (xs + ys)[1..] == xs[1..] + ys;
      if AbsStep(l, s, xs[0]).Some? {
        AbsRunAppend(l, AbsStep(l, s, xs[0]).value, xs[1..], ys);
      }
    }
  }

  lemma {:induction false} AbsRunCons(l: Layout, s: Abstract, o: Op, rest: seq<Op>)
    ensures AbsRun(l, s, [o] + rest) == if AbsStep(l, s, o).Some? then AbsRun(l, AbsStep(l, s, o).value, rest) else None
  {
    hide AbsStep;
    assert ([o] + rest)[0] == o && ([o] + rest)[1..] == rest;
  }

  /** A body and the closing operation of a bracket. */
  lemma {:induction false} ClosingRuns(l: Layout, t: Abstract, body: seq<Op>, last: Op, rest: seq<Op>)
    ensures AbsRun(l, t, body + ([last] + rest)) ==
            if AbsRun(l, t, body).Some? && AbsStep(l, AbsRun(l, t, body).value, last).Some?
            then AbsRun(l, AbsStep(l, AbsRun(l, t, body).value, last).value, rest) else None
  {
    hide *;
    AbsRunAppend(l, t, body, [last] + rest);
    if AbsRun(l, t, body).Some? {
      AbsRunCons(l, AbsRun(l, t, body).value, last, rest);
    }
  }

  /** A bracket: an opening operation, a body and a closing operation. */
  lemma {:induction false} BracketRuns(l: Layout, s: Abstract, first: Op, body: seq<Op>, last: Op, rest: seq<Op>)
    requires AbsRun(l, s, [first] + (body + ([last] + rest))).Some?
    ensures AbsStep(l, s, first).Some?
    ensures AbsRun(l, AbsStep(l, s, first).value, body).Some?
    ensures AbsStep(l, AbsRun(l, AbsStep(l, s, first).value, body).value, last).Some?
    ensures AbsRun(l, s, [first] + (body + ([last] + rest))) ==
            AbsRun(l, AbsStep(l, AbsRun(l, AbsStep(l, s, first).value, body).value, last).value, rest)
  {
    hide *;
    AbsRunCons(l, s, first, body + ([last] + rest));
    ClosingRuns(l, AbsStep(l, s, first).value, body, last, rest);
  }

  /** Well-nested code leaves the stack as it found it. */
  lemma {:induction false} NestingKeepsTheStack(l: Layout, s: Abstract, k: Code)
    requires AbsRun(l, s, Flatten(k)).Some?
    ensures AbsRun(l, s, Flatten(k)).value.stack == s.stack
    decreases Length(k), 1
  {
    match k
    case End =>
    case Then(w, next) =>
      if w.Work? {
        assert ([w] + Flatten(next))[1..] == Flatten(next);
        NestingKeepsTheStack(l, AbsStep(l, s, w).value, next);
      } else {
        assert [] + Flatten(next) == Flatten(next);
        NestingKeepsTheStack(l, s, next);
      }
    case Sub(target, body, next) =>
      BracketKeeps(l, s, Call(target), body, Return, next);
    case Handler(body, next) =>
      BracketKeeps(l, s, Trap, body, EndTrap, next);
    case Keep(from, body, to, next) =>
      BracketKeeps(l, s, Save(from), body, Restore(to), next);
  }

  lemma {:induction false} BracketKeeps(l: Layout, s: Abstract, first: Op, body: Code, last: Op, next: Code)
    requires AbsRun(l, s, [first] + (Flatten(body) + ([last] + Flatten(next)))).Some?
    requires (first.Call? && last.Return?) || (first.Trap? && last.EndTrap?) || (first.Save? && last.Restore?)
    ensures AbsRun(l, s, [first] + (Flatten(body) + ([last] + Flatten(next)))).value.stack == s.stack
    decreases Length(body) + Length(next) + 1, 0
  {
    BracketRuns(l, s, first, Flatten(body), last, Flatten(next));
    var t := AbsStep(l, s, first).value;
    assert t.stack[1..] == s.stack;
    NestingKeepsTheStack(l, t, body);
    var u := AbsStep(l, AbsRun(l, t, Flatten(body)).value, last).value;
    assert u.stack == s.stack;
    NestingKeepsTheStack(l, u, next);
  }

  /** A subroutine that is well nested returns to the instruction after the JSR with SP as it was. */
  lemma SubroutineReturns(l: Layout, c: Cpu, s: Abstract, target: int, body: Code)
    requires Refines(l, c, s)
    requires AbsRun(l, s, Flatten(Sub(target, body, End))).Some?
    ensures var t := Run(c, Flatten(Sub(target, body, End)));
            t.PC == c.PC && t.SP == c.SP
  {
    var ops := Flatten(Sub(target, body, End));
    RunRefines(l, c, s, ops);
    NestingKeepsTheStack(l, s, Sub(target, body, End));
    BracketRuns(l, s, Call(target), Flatten(body), Return, []);
    NestingKeepsTheStack(l, AbsStep(l, s, Call(target)).value, body);
  }

  /** RTI puts back A, X, PC and SP, and P but for bits 6 and 5, which it sets. */
  lemma HandlerReturns(l: Layout, c: Cpu, s: Abstract, body: Code)
    requires Refines(l, c, s)
    requires AbsRun(l, s, Flatten(Handler(body, End))).Some?
    ensures var t := Run(c, Flatten(Handler(body, End)));
            && t.A == c.A && t.X == c.X && t.PC == c.PC && t.SP == c.SP
            && t.P == c.P.(b6 := true, b5 := true)
            && (t.P == c.P <==> c.P.b6 && c.P.b5)
  {
    var ops := Flatten(Handler(body, End));
    RunRefines(l, c, s, ops);
    NestingKeepsTheStack(l, s, Handler(body, End));
    BracketRuns(l, s, Trap, Flatten(body), EndTrap, []);
    NestingKeepsTheStack(l, AbsStep(l, s, Trap).value, body);
  }

  /** A pull gets back what the matching push saved. */
  lemma SavedByteReturns(l: Layout, c: Cpu, s: Abstract, from: Reg, body: Code, to: Reg)
    requires Refines(l, c, s)
    requires AbsRun(l, s, Flatten(Keep(from, body, to, End))).Some?
    ensures var t := Run(c, Flatten(Keep(from, body, to, End)));
            Get(t, to) == Get(c, from) && t.SP == c.SP
  {
    var ops := Flatten(Keep(from, body, to, End));
    RunRefines(l, c, s, ops);
    NestingKeepsTheStack(l, s, Keep(from, body, to, End));
    BracketRuns(l, s, Save(from), Flatten(body), Restore(to), []);
    NestingKeepsTheStack(l, AbsStep(l, s, Save(from)).value, body);
  }

  /** Code whose own instructions leave the interrupt mask bit clear. */
  predicate Unmasked(k: Code) {
    match k
    case End => true
    case Then(w, next) => (w.Work? ==> !w.P.i) && Unmasked(next)
    case Sub(_, body, next) => Unmasked(body) && Unmasked(next)
    case Handler(body, next) => Unmasked(body) && Unmasked(next)
    case Keep(_, body, _, next) => Unmasked(body) && Unmasked(next)
  }

  lemma {:induction false} MaskStaysClear(l: Layout, s: Abstract, k: Code)
    requires AbsRun(l, s, Flatten(k)).Some? && Unmasked(k) && !s.P.i
    ensures !AbsRun(l, s, Flatten(k)).value.P.i
    decreases Length(k), 1
  {
    match k
    case End =>
    case Then(w, next) =>
      if w.Work? {
        assert ([w] + Flatten(next))[1..] == Flatten(next);
        MaskStaysClear(l, AbsStep(l, s, w).value, next);
      } else {
        assert [] + Flatten(next) == Flatten(next);
        MaskStaysClear(l, s, next);
      }
    case Sub(target, body, next) => BracketStaysClear(l, s, Call(target), body, Return, next);
    case Handler(body, next) => BracketStaysClear(l, s, Trap, body, EndTrap, next);
    case Keep(from, body, to, next) => BracketStaysClear(l, s, Save(from), body, Restore(to), next);
  }

  lemma {:induction false} BracketStaysClear(l: Layout, s: Abstract, first: Op, body: Code, last: Op, next: Code)
    requires AbsRun(l, s, [first] + (Flatten(body) + ([last] + Flatten(next)))).Some?
    requires (first.Call? && last.Return?) || (first.Trap? && last.EndTrap?) || (first.Save? && last.Restore?)
    requires Unmasked(body) && Unmasked(next) && !s.P.i
    ensures !AbsRun(l, s, [first] + (Flatten(body) + ([last] + Flatten(next)))).value.P.i
    decreases Length(body) + Length(next) + 1, 0
  {
    BracketRuns(l, s, first, Flatten(body), last, Flatten(next));
    var t := AbsStep(l, s, first).value;
    NestingKeepsTheStack(l, t, body);
    MaskStaysClear(l, t, body);
    var u := AbsStep(l, AbsRun(l, t, Flatten(body)).value, last).value;
    assert !u.P.i;
    MaskStaysClear(l, u, next);
  }

  /**
   * SWI clears the mask bit that it would be expected to set: a handler that does not set the bit itself runs
   * unmasked from its first instruction to its RTI, whatever the bit was. RTI gives the caller its own bit back.
   */
  lemma HandlerRunsUnmasked(l: Layout, c: Cpu, s: Abstract, body: Code)
    requires Refines(l, c, s) && Unmasked(body)
    requires AbsRun(l, s, Flatten(Handler(body, End))).Some?
    ensures !Step(c, Trap).P.i && !Run(Step(c, Trap), Flatten(body)).P.i
    ensures Run(c, Flatten(Handler(body, End))).P.i == c.P.i
  {
    HandlerReturns(l, c, s, body);
    BracketRuns(l, s, Trap, Flatten(body), EndTrap, []);
    var t := AbsStep(l, s, Trap).value;
    StepRefines(l, c, s, Trap);
    RunRefines(l, Step(c, Trap), t, Flatten(body));
    MaskStaysClear(l, t, body);
  }
}
