/**
 The two LC-3 virtual machines, with 16-bit words. One keeps the condition code
 in a status register that it sets with every result; the other remembers the
 number of the last register written and looks at its sign when it branches.
 */
module Vm {
  import opened Bits

  type Word = x: int | 0 <= x < 0x1_0000

  const BITS: nat := 16

  function Wrap(x: int): Word { x % 0x1_0000 }

  /** What both machines have: registers, program counter, the memory that can be accessed, the console. */
  datatype Core = Core(reg: seq<Word>, pc: Word, mem: map<Word, Word>, input: seq<Word>, output: seq<Word>)

  predicate Valid(c: Core) { |c.reg| == 8 }

  datatype Outcome<S> = Next(s: S) | Stopped(s: S) | Fault | NotImplemented

  // ------------------------------------------------------------------ instructions

  const BR := 0
  const ADD := 1
  const LD := 2
  const ST := 3
  const JSR := 4
  const AND := 5
  const LDR := 6
  const STR := 7
  const RTI := 8
  const NOT := 9
  const LDI := 10
  const STI := 11
  const JMP := 12
  const RES := 13
  const LEA := 14
  const TRAP := 15

  function Op(i: Word): (r: int) ensures 0 <= r < 16 { i / 0x1000 }

  function Reg1(i: Word): (r: int) ensures 0 <= r < 8 { i / 0x200 % 8 }

  function Reg2(i: Word): (r: int) ensures 0 <= r < 8 { i / 0x40 % 8 }

  function Reg3(i: Word): (r: int) ensures 0 <= r < 8 { i % 8 }

  /** The low bits of i, of which m is the top one, as a signed number: the top bit is flipped and subtracted. */
  function Extend(i: Word, m: int): (r: int)
    requires m > 0
    ensures -m <= r < m
  {
    var v := i % (2 * m);
    (if v >= m then v - m else v + m) - m
  }

  function Off5(i: Word): int { Extend(i, 0x10) }

  function Off6(i: Word): int { Extend(i, 0x20) }

  function Off9(i: Word): int { Extend(i, 0x100) }

  function Off11(i: Word): int { Extend(i, 0x400) }

  function Flag5(i: Word): bool { i / 0x20 % 2 == 1 }

  function Flag11(i: Word): bool { i / 0x800 % 2 == 1 }

  // ------------------------------------------------------------- memory and console

  const KBSR: Word := 0xfe00
  const KBDR: Word := 0xfe02
  const DSR: Word := 0xfe04
  const DDR: Word := 0xfe06
  const MCR: Word := 0xfffe
  const STATUS: Word := 0x8000

  /** The next character, and the input after it. */
  function GetChar(c: Core): (Word, Core) {
    if c.input == [] then (0xffff, c) else (c.input[0], c.(input := c.input[1..]))
  }

  datatype Fetched = Word(value: Word, core: Core) | NoWord

  function Read(c: Core, a: Word): Fetched {
    if a == KBSR then Word(if c.input == [] then 0 else STATUS, c)
    else if a == KBDR then
      if c.input == [] then Word(0, c) else var (ch, c') := GetChar(c); Word(ch, c')
    else if a == DSR then Word(STATUS, c)
    else if a == DDR then Word(0, c)
    else if a in c.mem then Word(c.mem[a], c)
    else NoWord
  }

  datatype Written = Done(core: Core) | NotDone

  function Write(c: Core, a: Word, v: Word): Written {
    if a == KBSR || a == KBDR || a == DSR then Done(c)
    else if a == DDR then Done(c.(output := c.output + [v]))
    else if a in c.mem then Done(c.(mem := c.mem[a := v]))
    else NotDone
  }

  function SetReg(c: Core, r: int, v: Word): (c': Core)
    requires Valid(c) && 0 <= r < 8
    ensures Valid(c')
  {
    c.(reg := c.reg[r := v])
  }

  function SignFlag(v: Word): int { if v == 0 then 2 else if v >= 0x8000 then 4 else 1 }

  /** Some flag is in both. */
  predicate Meets(flags: int, wanted: int) {
    || (flags / 4 % 2 == 1 && wanted / 4 % 2 == 1) || (flags / 2 % 2 == 1 && wanted / 2 % 2 == 1)
    || (flags % 2 == 1 && wanted % 2 == 1)
  }

  // ------------------------------------------- the machine with a status register

  datatype Eager = Eager(core: Core, psr: int)

  function Result(c: Core, r: int, v: Word): Outcome<Eager>
    requires Valid(c) && 0 <= r < 8
  {
    Next(Eager(SetReg(c, r, v), SignFlag(v)))
  }

  function Loaded(c: Core, r: int, a: Word): Outcome<Eager>
    requires Valid(c) && 0 <= r < 8
  {
    match Read(c, a)
    case Word(v, c') => Result(c', r, v)
    case NoWord => Fault
  }

  function Plain(s: Eager, w: Written): Outcome<Eager> {
    match w
    case Done(c') => Next(Eager(c', s.psr))
    case NotDone => Fault
  }

  /** Performs instruction i; the program counter is past it already. */
  function Perform(s: Eager, i: Word): Outcome<Eager>
    requires Valid(s.core)
  {
    var c := s.core;
    var reg := c.reg;
    var op := Op(i);
    if op == ADD then
      Result(c, Reg1(i), Wrap(reg[Reg2(i)] + if Flag5(i) then Off5(i) else reg[Reg3(i)]))
    else if op == AND then
      Result(c, Reg1(i), Wrap(Bitwise(BitAnd, reg[Reg2(i)], if Flag5(i) then Off5(i) else reg[Reg3(i)], BITS)))
    else if op == BR then
      var c' := if Meets(s.psr, Reg1(i)) then c.(pc := Wrap(c.pc + Off9(i))) else c;
      if i == 0 then Stopped(Eager(c', s.psr)) else Next(Eager(c', s.psr))
    else if op == JMP then Next(Eager(c.(pc := reg[Reg2(i)]), s.psr))
    else if op == JSR then
      var target := if Flag11(i) then Wrap(c.pc + Off11(i)) else reg[Reg2(i)];
      Next(Eager(SetReg(c, 7, c.pc).(pc := target), s.psr))
    else if op == LD then Loaded(c, Reg1(i), Wrap(c.pc + Off9(i)))
    else if op == LDI then
      match Read(c, Wrap(c.pc + Off9(i)))
      case Word(a, c') => Loaded(c', Reg1(i), a)
      case NoWord => Fault
    else if op == LDR then Loaded(c, Reg1(i), Wrap(reg[Reg2(i)] + Off6(i)))
    else if op == LEA then Result(c, Reg1(i), Wrap(c.pc + Off9(i)))
    else if op == NOT then Result(c, Reg1(i), 0xffff - reg[Reg2(i)])
    else if op == ST then Plain(s, Write(c, Wrap(c.pc + Off9(i)), reg[Reg1(i)]))
    else if op == STI then
      match Read(c, Wrap(c.pc + Off9(i)))
      case Word(a, c') => Plain(s, Write(c', a, reg[Reg1(i)]))
      case NoWord => Fault
    else if op == STR then Plain(s, Write(c, Wrap(reg[Reg2(i)] + Off6(i)), reg[Reg1(i)]))
    else if op == TRAP then
      if i % 0x100 == 0x20 then
        var (ch, c') := GetChar(c);
        Next(Eager(SetReg(c', 0, ch), s.psr))
      else
        var c7 := SetReg(c, 7, c.pc);
        match Read(c7, i % 0x100)
        case Word(a, c') => Next(Eager(c'.(pc := a), s.psr))
        case NoWord => Fault
    else NotImplemented
  }

  /** One turn of the loop: halt when the clock is off, fetch, perform. */
  function EagerStep(s: Eager): Outcome<Eager>
    requires Valid(s.core)
  {
    match Read(s.core, MCR)
    case NoWord => Fault
    case Word(clock, c) =>
      if clock < STATUS then Stopped(s)
      else
        match Read(c, c.pc)
        case NoWord => Fault
        case Word(i, c') => Perform(Eager(c'.(pc := Wrap(c'.pc + 1)), s.psr), i)
  }

  // ---------------------------------------- the machine that looks at a register

  datatype Lazy = Lazy(core: Core, numCC: int)

  predicate LazyOk(s: Lazy) { Valid(s.core) && 0 <= s.numCC < 8 }

  function Kept(r: int, f: Fetched): Outcome<Lazy>
    requires 0 <= r < 8 && (f.Word? ==> Valid(f.core))
  {
    match f
    case Word(v, c') => Next(Lazy(SetReg(c', r, v), r))
    case NoWord => Fault
  }

  /** What the machine does on the two opcodes that it alone implements. */
  type Extension = (Lazy, Word) -> Outcome<Lazy>

  ghost predicate ExtensionOk(ext: Extension) {
    forall s, i :: LazyOk(s) && ext(s, i).Next? ==> LazyOk(ext(s, i).s)
  }

  /** Executes instruction i; the program counter is past it already. */
  function Execute(s: Lazy, i: Word, ext: Extension): Outcome<Lazy>
    requires LazyOk(s)
  {
    var c := s.core;
    var reg := c.reg;
    var op := Op(i);
    if op == BR then
      if i == 0 then Stopped(s)
      else if Meets(SignFlag(reg[s.numCC]), Reg1(i)) then Next(s.(core := c.(pc := Wrap(c.pc + Off9(i)))))
      else Next(s)
    else if op == ADD then
      Next(Lazy(SetReg(c, Reg1(i), Wrap(reg[Reg2(i)] + if Flag5(i) then Off5(i) else reg[Reg3(i)])), Reg1(i)))
    else if op == LD then Kept(Reg1(i), Read(c, Wrap(c.pc + Off9(i))))
    else if op == ST then
      match Write(c, Wrap(c.pc + Off9(i)), reg[Reg1(i)])
      case Done(c') => Next(s.(core := c'))
      case NotDone => Fault
    else if op == JSR then
      if Flag11(i) then Next(s.(core := SetReg(c, 7, c.pc).(pc := Wrap(c.pc + Off11(i)))))
      else
        var target := reg[Reg2(i)];
        Next(s.(core := SetReg(c, 7, c.pc).(pc := target)))
    else if op == AND then
      var y := if Flag5(i) then Off5(i) else reg[Reg3(i)];
      Next(Lazy(SetReg(c, Reg1(i), Wrap(Bitwise(BitAnd, reg[Reg2(i)], y, BITS))), Reg1(i)))
    else if op == LDR then Kept(Reg1(i), Read(c, Wrap(reg[Reg2(i)] + Off6(i))))
    else if op == STR then
      match Write(c, Wrap(reg[Reg2(i)] + Off6(i)), reg[Reg1(i)])
      case Done(c') => Next(s.(core := c'))
      case NotDone => Fault
    else if op == RTI then ext(s, i)
    else if op == NOT then Next(Lazy(SetReg(c, Reg1(i), 0xffff - reg[Reg2(i)]), Reg1(i)))
    else if op == LDI then
      match Read(c, Wrap(c.pc + Off9(i)))
      case Word(a, c') => Kept(Reg1(i), Read(c', a))
      case NoWord => Fault
    else if op == STI then
      match Read(c, Wrap(c.pc + Off9(i)))
      case NoWord => Fault
      case Word(a, c') =>
        match Write(c', a, reg[Reg1(i)])
        case Done(c'') => Next(Lazy(c'', Reg1(i)))
        case NotDone => Fault
    else if op == JMP then Next(s.(core := c.(pc := reg[Reg2(i)])))
    else if op == RES then ext(s, i)
    else if op == LEA then Next(Lazy(SetReg(c, Reg1(i), Wrap(c.pc + Off9(i))), Reg1(i)))
    else
      var vector := Wrap(Extend(i, 0x800));
      if vector == 0x20 then
        var (ch, c') := GetChar(c);
        Next(s.(core := SetReg(c', 0, ch)))
      else
        match Read(SetReg(c, 7, c.pc), vector)
        case Word(a, c') => Next(s.(core := c'.(pc := a)))
        case NoWord => Fault
  }

  /** The instruction that is next, and the machine with the program counter past it. */
  function LazyFetch(s: Lazy): (f: Fetched)
    requires LazyOk(s)
    ensures f.Word? ==> Valid(f.core)
  {
    match Read(s.core, s.core.pc)
    case Word(i, c') => Word(i, c'.(pc := Wrap(c'.pc + 1)))
    case NoWord => NoWord
  }

  function LazyStep(s: Lazy, ext: Extension): Outcome<Lazy>
    requires LazyOk(s)
  {
    match LazyFetch(s)
    case Word(i, c') => Execute(s.(core := c'), i, ext)
    case NoWord => Fault
  }

  // --------------------------------------------------------------------- agreement

  /** The status register is the sign of the register whose number is remembered; all else is the same. */
  predicate Agree(l: Lazy, e: Eager) {
    LazyOk(l) && e.core == l.core && e.psr == SignFlag(l.core.reg[l.numCC])
  }

  /** Instructions that mean the same on both machines: no reserved opcode, no trap vector above 0xff. */
  predicate Common(i: Word) {
    Op(i) != RTI && Op(i) != RES && (Op(i) == TRAP ==> i % 0x1000 < 0x100)
  }

  /**
   The instruction changes the register that the lazy machine remembers without setting the condition code, or
   remembers one that set none, and the sign is not that of the condition code.
   */
  predicate Drifts(l: Lazy, i: Word)
    requires LazyOk(l)
  {
    var c := l.core;
    var flag := SignFlag(c.reg[l.numCC]);
    || (Op(i) == JSR && l.numCC == 7 && SignFlag(c.pc) != flag)
    || (Op(i) == TRAP && i % 0x100 == 0x20 && l.numCC == 0 && SignFlag(GetChar(c).0) != flag)
    || (Op(i) == TRAP && i % 0x100 != 0x20 && l.numCC == 7 && SignFlag(c.pc) != flag)
    || (Op(i) == STI && SignFlag(c.reg[Reg1(i)]) != flag)
  }

  lemma VectorAgrees(i: Word)
    requires Op(i) == TRAP && i % 0x1000 < 0x100
    ensures Wrap(Extend(i, 0x800)) == i % 0x100
  {
  }

  lemma ReadKeeps(c: Core, a: Word)
    requires Valid(c) && Read(c, a).Word?
    ensures var c' := Read(c, a).core; c'.reg == c.reg && c'.pc == c.pc && c'.mem == c.mem && c'.output == c.output
  {
  }

  /** The outcomes match: the same core, and agreement exactly when the instruction does not make the flags drift. */
  predicate Matched(l: Outcome<Lazy>, e: Outcome<Eager>, drifts: bool) {
    match l
    case Next(l') => e.Next? && e.s.core == l'.core && LazyOk(l') && (Agree(l', e.s) <==> !drifts)
    case Stopped(l') => e.Stopped? && Agree(l', e.s)
    case Fault => e.Fault?
    case NotImplemented => false
  }

  lemma LowAgrees(l: Lazy, e: Eager, i: Word, ext: Extension)
    requires Agree(l, e) && Common(i) && Op(i) < 4
    ensures Matched(Execute(l, i, ext), Perform(e, i), Drifts(l, i))
  {
  }

  lemma MiddleAgrees(l: Lazy, e: Eager, i: Word, ext: Extension)
    requires Agree(l, e) && Common(i) && 4 <= Op(i) < 8
    ensures Matched(Execute(l, i, ext), Perform(e, i), Drifts(l, i))
  {
  }

  lemma HighAgrees(l: Lazy, e: Eager, i: Word, ext: Extension)
    requires Agree(l, e) && Common(i) && 8 <= Op(i)
    ensures Matched(Execute(l, i, ext), Perform(e, i), Drifts(l, i))
  {
    if Op(i) == TRAP {
      VectorAgrees(i);
    }
  }

  /** One instruction that both machines know, from states that agree. */
  lemma InstructionAgrees(l: Lazy, e: Eager, i: Word, ext: Extension)
    requires Agree(l, e) && Common(i)
    ensures Matched(Execute(l, i, ext), Perform(e, i), Drifts(l, i))
  {
    if Op(i) < 4 {
      LowAgrees(l, e, i, ext);
    } else if Op(i) < 8 {
      MiddleAgrees(l, e, i, ext);
    } else {
      HighAgrees(l, e, i, ext);
    }
  }

  // -------------------------------------------------------------------------- runs

  lemma ExecuteOk(s: Lazy, i: Word, ext: Extension)
    requires LazyOk(s) && ExtensionOk(ext)
    ensures Execute(s, i, ext).Next? ==> LazyOk(Execute(s, i, ext).s)
  {
  }

  lemma LazyStepOk(s: Lazy, ext: Extension)
    requires LazyOk(s) && ExtensionOk(ext)
    ensures LazyStep(s, ext).Next? ==> LazyOk(LazyStep(s, ext).s)
  {
    var f := LazyFetch(s);
    if f.Word? {
      ExecuteOk(s.(core := f.core), f.value, ext);
    }
  }

  lemma EagerStepOk(s: Eager)
    requires Valid(s.core)
    ensures EagerStep(s).Next? ==> Valid(EagerStep(s).s.core)
  {
  }

  predicate OneFlag(psr: int) { psr == 1 || psr == 2 || psr == 4 }

  /** Exactly one flag is set at all times, so a branch on every flag is always taken. */
  lemma FlagKept(s: Eager)
    requires Valid(s.core) && OneFlag(s.psr)
    ensures EagerStep(s).Next? ==> OneFlag(EagerStep(s).s.psr)
    ensures Meets(s.psr, 7)
  {
  }

  /** At most n steps of a machine. */
  ghost function RunWith<S(!new)>(step: S -> Outcome<S>, s: S, n: nat): Outcome<S>
    decreases n
  {
    if n == 0 then Next(s)
    else
      var o := step(s);
      if o.Next? then RunWith(step, o.s, n - 1) else o
  }

  /** Runs of m + n steps are runs of m steps continued. */
  lemma {:induction false} RunOn<S(!new)>(step: S -> Outcome<S>, s: S, m: nat, t: S, n: nat)
    requires RunWith(step, s, m) == Next(t)
    ensures RunWith(step, s, m + n) == RunWith(step, t, n)
    decreases m
  {
    if m > 0 {
      RunOn(step, step(s).s, m - 1, t, n);
    }
  }

  function LazyTurn(ext: Extension): Lazy -> Outcome<Lazy> {
    s => if LazyOk(s) then LazyStep(s, ext) else NotImplemented
  }

  /** At most n instructions of the lazy machine. */
  ghost function LazyRun(s: Lazy, n: nat, ext: Extension): Outcome<Lazy> { RunWith(LazyTurn(ext), s, n) }

  ghost function EagerTurn(): Eager -> Outcome<Eager> {
    (s: Eager) => if Valid(s.core) then EagerStep(s) else NotImplemented
  }

  /** At most n turns of the eager machine's loop. */
  ghost function EagerRun(s: Eager, n: nat): Outcome<Eager> { RunWith(EagerTurn(), s, n) }

  /** It is so along every run: the machine starts with the zero flag. */
  lemma {:induction false} FlagAlways(s: Eager, n: nat)
    requires Valid(s.core) && OneFlag(s.psr)
    ensures EagerRun(s, n).Next? ==> OneFlag(EagerRun(s, n).s.psr) && Meets(EagerRun(s, n).s.psr, 7)
    decreases n
  {
    FlagKept(s);
    if n > 0 && EagerStep(s).Next? {
      EagerStepOk(s);
      FlagAlways(EagerStep(s).s, n - 1);
    }
  }

  /** Runs a machine for at most max steps; `count` is the number of the one that stops it. */
  method RunLoop<S(!new)>(step: S -> Outcome<S>, start: S, max: nat) returns (o: Outcome<S>, count: nat)
    ensures o == RunWith(step, start, max)
    ensures 1 <= count <= max + 1 && (o.Next? <==> count == max + 1)
    ensures RunWith(step, start, count - 1).Next? && (!o.Next? ==> RunWith(step, start, count) == o)
  {
    var s := start;
    count := 1;
    while count <= max
      invariant 1 <= count <= max + 1 && RunWith(step, start, count - 1) == Next(s)
    {
      o := step(s);
      StepTaken(step, start, count - 1, s, max, o);
      if !o.Next? {
        return;
      }
      s, count := o.s, count + 1;
    }
    o := Next(s);
  }

  /** Runs the lazy machine for at most max instructions. */
  method Run(start: Lazy, max: nat, ext: Extension) returns (o: Outcome<Lazy>, count: nat)
    requires LazyOk(start) && ExtensionOk(ext)
    ensures o == LazyRun(start, max, ext)
    ensures 1 <= count <= max + 1 && (o.Next? <==> count == max + 1)
    ensures LazyRun(start, count - 1, ext).Next? && (!o.Next? ==> LazyRun(start, count, ext) == o)
  {
    o, count := RunLoop(LazyTurn(ext), start, max);
  }

  lemma StepTaken<S(!new)>(step: S -> Outcome<S>, s: S, n: nat, t: S, max: nat, o: Outcome<S>)
    requires RunWith(step, s, n) == Next(t) && n < max && o == step(t)
    ensures RunWith(step, s, n + 1) == o && (!o.Next? ==> RunWith(step, s, max) == o)
  {
    RunOn(step, s, n, t, 1);
    RunOn(step, s, n, t, max - n);
    if o.Next? {
      assert RunWith(step, o.s, 0) == o;
    }
  }

  /** The next instruction: the clock is on, both machines know it, and it does not make the flags drift. */
  predicate TameStep(l: Lazy)
    requires LazyOk(l)
  {
    var f := LazyFetch(l);
    MCR in l.core.mem && l.core.mem[MCR] >= STATUS
      && (f.Word? ==> Common(f.value) && !Drifts(l.(core := f.core), f.value))
  }

  ghost predicate Tame(l: Lazy, n: nat, ext: Extension)
    requires LazyOk(l) && ExtensionOk(ext)
    decreases n
  {
    if n == 0 then true
    else
      LazyStepOk(l, ext);
      TameStep(l) && (LazyStep(l, ext).Next? ==> Tame(LazyStep(l, ext).s, n - 1, ext))
  }

  lemma StepAgrees(l: Lazy, e: Eager, ext: Extension)
    requires Agree(l, e) && TameStep(l)
    ensures Matched(LazyStep(l, ext), EagerStep(e), false)
  {
    var f := LazyFetch(l);
    if f.Word? {
      ReadKeeps(l.core, l.core.pc);
      InstructionAgrees(l.(core := f.core), e.(core := f.core), f.value, ext);
    }
  }

  /** From states that agree, both machines do the same for as long as the run is tame. */
  lemma {:induction false} RunsAgree(l: Lazy, e: Eager, n: nat, ext: Extension)
    requires Agree(l, e) && ExtensionOk(ext) && Tame(l, n, ext)
    ensures Matched(LazyRun(l, n, ext), EagerRun(e, n), false)
    decreases n
  {
    if n > 0 {
      StepAgrees(l, e, ext);
      if LazyStep(l, ext).Next? {
        RunsAgree(LazyStep(l, ext).s, EagerStep(e).s, n - 1, ext);
      }
    }
  }

  /** The machines agree when they are created. */
  lemma CreatedAgree(c: Core)
    requires c.reg == [0, 0, 0, 0, 0, 0, 0, 0]
    ensures Agree(Lazy(c, 0), Eager(c, 2))
  {
  }

  /** A subroutine call makes the flags drift: a zero in R7 is replaced by a return address. */
  lemma CallDrifts(c: Core, ext: Extension)
    requires Valid(c) && c.reg[7] == 0 && 0 < c.pc
    ensures var l, e := Lazy(c, 7), Eager(c, 2);
      Agree(l, e) && Execute(l, 0x4800, ext).Next? && Perform(e, 0x4800).Next?
        && !Agree(Execute(l, 0x4800, ext).s, Perform(e, 0x4800).s)
  {
    InstructionAgrees(Lazy(c, 7), Eager(c, 2), 0x4800, ext);
  }
}
