/**
 What each instruction does, in the terms of the instruction set: the word is
 written as a number in its fields, and the effect in arithmetic. This is about the
 machine with a status register; the other one does the same where the two agree.
 */
module Instructions {
  import opened Bits
  import opened Vm

  /** An ordinary place in memory; four addresses above belong to the console. */
  predicate Plain(c: Core, a: int) { 0 <= a < 0x1_0000 && a !in {0xfe00, 0xfe02, 0xfe04, 0xfe06} && a in c.mem }

  /** Register d gets v, the flag is that of v, and nothing else changes. */
  predicate Sets(s: Eager, o: Outcome<Eager>, d: int, v: Word)
    requires Valid(s.core) && 0 <= d < 8
  {
    && o == Next(Eager(s.core.(reg := s.core.reg[d := v]), if v == 0 then 2 else if v < 0x8000 then 1 else 4))
  }

  /** Register d gets the word at a; what else reading it does is in Devices, and only there. */
  predicate Loads(s: Eager, o: Outcome<Eager>, d: int, a: Word)
    requires Valid(s.core) && 0 <= d < 8
  {
    match Read(s.core, a)
    case Word(v, c) => Valid(c) && Sets(s.(core := c), o, d, v)
    case NoWord => o == Fault
  }

  /** Word v is stored at a, and nothing else changes. */
  predicate Stores(s: Eager, o: Outcome<Eager>, a: Word, v: Word) {
    match Write(s.core, a, v)
    case Done(c) => o == Next(s.(core := c))
    case NotDone => o == Fault
  }

  /** The sum in 16 bits. */
  predicate SumIs(v: Word, x: int, y: int) { v == x + y || v == x + y - 0x1_0000 || v == x + y + 0x1_0000 }

  // --------------------------------------------------------------------------- fields

  lemma Fields(w: Word, op: int, d: int, low: int)
    requires 0 <= op < 16 && 0 <= d < 8 && 0 <= low < 0x200 && w == op * 0x1000 + d * 0x200 + low
    ensures Op(w) == op && Reg1(w) == d && w % 0x200 == low && Reg2(w) == low / 0x40 && w % 0x40 == low % 0x40
    ensures Reg3(w) == low % 8 && w % 0x20 == low % 0x20 && (Flag5(w) <==> low / 0x20 % 2 == 1)
  {
    assert w / 0x200 == op * 8 + d && w / 0x40 == op * 0x40 + d * 8 + low / 0x40;
    assert w / 0x20 == op * 0x80 + d * 0x10 + low / 0x20;
  }

  lemma Offset5(w: Word, k: int)
    requires -0x10 <= k < 0x10 && w % 0x20 == k % 0x20
    ensures Off5(w) == k
  {
  }

  lemma Offset6(w: Word, k: int)
    requires -0x20 <= k < 0x20 && w % 0x40 == k % 0x40
    ensures Off6(w) == k
  {
  }

  lemma Offset9(w: Word, k: int)
    requires -0x100 <= k < 0x100 && w % 0x200 == k % 0x200
    ensures Off9(w) == k
  {
  }

  lemma Offset11(w: Word, k: int)
    requires -0x400 <= k < 0x400 && w % 0x800 == k % 0x800
    ensures Off11(w) == k
  {
  }

  /** Two source registers. */
  lemma TwoRegisters(w: Word, op: int, d: int, a: int, zeros: int, b: int)
    requires 0 <= op < 16 && 0 <= d < 8 && 0 <= a < 8 && 0 <= b < 8 && 0 <= zeros < 4
    requires w == op * 0x1000 + d * 0x200 + a * 0x40 + zeros * 8 + b
    ensures Op(w) == op && Reg1(w) == d && Reg2(w) == a && Reg3(w) == b && !Flag5(w)
  {
    Fields(w, op, d, a * 0x40 + zeros * 8 + b);
  }

  /** A source register and a small number. */
  lemma OneRegister(w: Word, op: int, d: int, a: int, k: int)
    requires 0 <= op < 16 && 0 <= d < 8 && 0 <= a < 8 && -16 <= k < 16
    requires w == op * 0x1000 + d * 0x200 + a * 0x40 + 0x20 + k % 0x20
    ensures Op(w) == op && Reg1(w) == d && Reg2(w) == a && Flag5(w) && Off5(w) == k
  {
    Fields(w, op, d, a * 0x40 + 0x20 + k % 0x20);
    Offset5(w, k);
  }

  lemma SumWraps(v: Word, x: int, y: int)
    requires 0 <= x < 0x1_0000 && -0x8000 <= y < 0x1_0000 && SumIs(v, x, y)
    ensures Wrap(x + y) == v
  {
  }

  lemma ReadPlain(c: Core, a: Word)
    requires Plain(c, a)
    ensures Read(c, a) == Fetched.Word(c.mem[a], c)
  {
  }

  // ----------------------------------------------------------------------- arithmetic

  lemma AddDone(s: Eager, w: Word, d: int, x: int, y: int, v: Word)
    requires Valid(s.core) && Op(w) == 1 && Reg1(w) == d && s.core.reg[Reg2(w)] == x
    requires y == (if Flag5(w) then Off5(w) else s.core.reg[Reg3(w)]) && Wrap(x + y) == v
    ensures Sets(s, Perform(s, w), d, v)
  {
  }

  lemma {:induction false} AndDone(s: Eager, w: Word, d: int, x: int, y: int, v: Word)
    requires Valid(s.core) && Op(w) == 5 && Reg1(w) == d && s.core.reg[Reg2(w)] == x
    requires y == (if Flag5(w) then Off5(w) else s.core.reg[Reg3(w)]) && Bitwise(BitAnd, x, y, BITS) == v
    ensures Sets(s, Perform(s, w), d, v)
  {
  }

  lemma AddRegisters(s: Eager, w: Word, d: int, a: int, b: int, zeros: int, v: Word)
    requires Valid(s.core) && 0 <= d < 8 && 0 <= a < 8 && 0 <= b < 8 && 0 <= zeros < 4
    requires w == 0x1000 + d * 0x200 + a * 0x40 + zeros * 8 + b && SumIs(v, s.core.reg[a], s.core.reg[b])
    ensures Sets(s, Perform(s, w), d, v)
  {
    TwoRegisters(w, 1, d, a, zeros, b);
    SumWraps(v, s.core.reg[a], s.core.reg[b]);
    AddDone(s, w, d, s.core.reg[a], s.core.reg[b], v);
  }

  lemma AddImmediate(s: Eager, w: Word, d: int, a: int, k: int, v: Word)
    requires Valid(s.core) && 0 <= d < 8 && 0 <= a < 8 && -16 <= k < 16
    requires w == 0x1000 + d * 0x200 + a * 0x40 + 0x20 + k % 0x20 && SumIs(v, s.core.reg[a], k)
    ensures Sets(s, Perform(s, w), d, v)
  {
    OneRegister(w, 1, d, a, k);
    SumWraps(v, s.core.reg[a], k);
    AddDone(s, w, d, s.core.reg[a], k, v);
  }

  /** Every bit of v is the product of the bits of x and y. */
  predicate AndOf(v: Word, x: int, y: int) { forall k: nat :: k < 16 ==> AndAt(v, x, y, k) }

  predicate AndAt(v: Word, x: int, y: int, k: nat) { v / P(k) % 2 == (x / P(k) % 2) * (y / P(k) % 2) }

  lemma {:induction false} AndBits(x: int, y: int, n: nat) returns (v: Word)
    requires n == BITS
    ensures v == Bitwise(BitAnd, x, y, n) && AndOf(v, x, y)
  {
    SixteenBits();
    v := Bitwise(BitAnd, x, y, n);
    forall k: nat | k < n ensures AndAt(v, x, y, k) {
      BitwiseBits(BitAnd, x, y, n, k);
    }
  }

  lemma SixteenBits()
    ensures P(BITS) == 0x1_0000
  {
    assert P(4) == 16;
    assert P(8) == 16 * P(4);
    assert P(12) == 16 * P(8);
    assert P(16) == 16 * P(12);
  }

  lemma AndRegisters(s: Eager, w: Word, d: int, a: int, b: int, zeros: int) returns (v: Word)
    requires Valid(s.core) && 0 <= d < 8 && 0 <= a < 8 && 0 <= b < 8 && 0 <= zeros < 4
    requires w == 0x5000 + d * 0x200 + a * 0x40 + zeros * 8 + b
    ensures AndOf(v, s.core.reg[a], s.core.reg[b]) && Sets(s, Perform(s, w), d, v)
  {
    TwoRegisters(w, 5, d, a, zeros, b);
    v := AndBits(s.core.reg[a], s.core.reg[b], BITS);
    AndDone(s, w, d, s.core.reg[a], s.core.reg[b], v);
  }

  lemma AndImmediate(s: Eager, w: Word, d: int, a: int, k: int) returns (v: Word)
    requires Valid(s.core) && 0 <= d < 8 && 0 <= a < 8 && -16 <= k < 16
    requires w == 0x5000 + d * 0x200 + a * 0x40 + 0x20 + k % 0x20
    ensures AndOf(v, s.core.reg[a], k) && Sets(s, Perform(s, w), d, v)
  {
    OneRegister(w, 5, d, a, k);
    v := AndBits(s.core.reg[a], k, BITS);
    AndDone(s, w, d, s.core.reg[a], k, v);
  }

  lemma Not(s: Eager, w: Word, d: int, a: int, ones: int, v: Word)
    requires Valid(s.core) && 0 <= d < 8 && 0 <= a < 8 && 0 <= ones < 0x40
    requires w == 0x9000 + d * 0x200 + a * 0x40 + ones && v + s.core.reg[a] == 0xffff
    ensures Sets(s, Perform(s, w), d, v)
  {
    Fields(w, 9, d, a * 0x40 + ones);
  }

  // ------------------------------------------------------------------ loads and stores

  lemma LoadAddress(s: Eager, w: Word, d: int, k: int, v: Word)
    requires Valid(s.core) && 0 <= d < 8 && -256 <= k < 256
    requires w == 0xe000 + d * 0x200 + k % 0x200 && SumIs(v, s.core.pc, k)
    ensures Sets(s, Perform(s, w), d, v)
  {
    Fields(w, 14, d, k % 0x200);
    Offset9(w, k);
    SumWraps(v, s.core.pc, k);
  }

  lemma LoadNear(s: Eager, w: Word, d: int, k: int, a: Word)
    requires Valid(s.core) && 0 <= d < 8 && -256 <= k < 256
    requires w == 0x2000 + d * 0x200 + k % 0x200 && SumIs(a, s.core.pc, k)
    ensures Loads(s, Perform(s, w), d, a)
  {
    Fields(w, 2, d, k % 0x200);
    Offset9(w, k);
    SumWraps(a, s.core.pc, k);
  }

  lemma LoadIndirect(s: Eager, w: Word, d: int, k: int, a: Word)
    requires Valid(s.core) && 0 <= d < 8 && -256 <= k < 256
    requires w == 0xa000 + d * 0x200 + k % 0x200 && SumIs(a, s.core.pc, k)
    ensures match Read(s.core, a)
      case Word(there, c) => Valid(c) && Loads(s.(core := c), Perform(s, w), d, there)
      case NoWord => Perform(s, w) == Fault
  {
    Fields(w, 10, d, k % 0x200);
    Offset9(w, k);
    SumWraps(a, s.core.pc, k);
  }

  lemma LoadFrom(s: Eager, w: Word, d: int, b: int, k: int, a: Word)
    requires Valid(s.core) && 0 <= d < 8 && 0 <= b < 8 && -32 <= k < 32
    requires w == 0x6000 + d * 0x200 + b * 0x40 + k % 0x40 && SumIs(a, s.core.reg[b], k)
    ensures Loads(s, Perform(s, w), d, a)
  {
    Fields(w, 6, d, b * 0x40 + k % 0x40);
    Offset6(w, k);
    SumWraps(a, s.core.reg[b], k);
  }

  lemma StoreNear(s: Eager, w: Word, d: int, k: int, a: Word)
    requires Valid(s.core) && 0 <= d < 8 && -256 <= k < 256
    requires w == 0x3000 + d * 0x200 + k % 0x200 && SumIs(a, s.core.pc, k)
    ensures Stores(s, Perform(s, w), a, s.core.reg[d])
  {
    Fields(w, 3, d, k % 0x200);
    Offset9(w, k);
    SumWraps(a, s.core.pc, k);
  }

  lemma StoreIndirect(s: Eager, w: Word, d: int, k: int, a: Word)
    requires Valid(s.core) && 0 <= d < 8 && -256 <= k < 256
    requires w == 0xb000 + d * 0x200 + k % 0x200 && SumIs(a, s.core.pc, k)
    ensures match Read(s.core, a)
      case Word(there, c) => Valid(c) && Stores(s.(core := c), Perform(s, w), there, s.core.reg[d])
      case NoWord => Perform(s, w) == Fault
  {
    Fields(w, 11, d, k % 0x200);
    Offset9(w, k);
    SumWraps(a, s.core.pc, k);
  }

  lemma StoreTo(s: Eager, w: Word, d: int, b: int, k: int, a: Word)
    requires Valid(s.core) && 0 <= d < 8 && 0 <= b < 8 && -32 <= k < 32
    requires w == 0x7000 + d * 0x200 + b * 0x40 + k % 0x40 && SumIs(a, s.core.reg[b], k)
    ensures Stores(s, Perform(s, w), a, s.core.reg[d])
  {
    Fields(w, 7, d, b * 0x40 + k % 0x40);
    Offset6(w, k);
    SumWraps(a, s.core.reg[b], k);
  }

  // ---------------------------------------------------------------------------- jumps

  /** The machine goes on at a, with nothing else changed. */
  predicate GoesTo(s: Eager, o: Outcome<Eager>, a: Word) { o == Next(s.(core := s.core.(pc := a))) }

  /** A branch is taken when the flag that is set is among those it names; the word 0 stops the machine. */
  lemma Branch(s: Eager, w: Word, n: bool, z: bool, p: bool, k: int, a: Word)
    requires Valid(s.core) && OneFlag(s.psr) && -256 <= k < 256 && SumIs(a, s.core.pc, k)
    requires w == (if n then 0x800 else 0) + (if z then 0x400 else 0) + (if p then 0x200 else 0) + k % 0x200
    ensures var taken := (s.psr == 4 && n) || (s.psr == 2 && z) || (s.psr == 1 && p);
      if w == 0 then Perform(s, w) == Stopped(s) else GoesTo(s, Perform(s, w), if taken then a else s.core.pc)
  {
    var d := (if n then 4 else 0) + (if z then 2 else 0) + if p then 1 else 0;
    Fields(w, 0, d, k % 0x200);
    Offset9(w, k);
    SumWraps(a, s.core.pc, k);
    Wanted(s.psr, d, n, z, p);
  }

  lemma Wanted(psr: int, d: int, n: bool, z: bool, p: bool)
    requires OneFlag(psr) && d == (if n then 4 else 0) + (if z then 2 else 0) + (if p then 1 else 0)
    ensures Meets(psr, d) <==> (psr == 4 && n) || (psr == 2 && z) || (psr == 1 && p)
  {
  }

  lemma JumpTo(s: Eager, w: Word, d: int, b: int, low: int)
    requires Valid(s.core) && 0 <= d < 8 && 0 <= b < 8 && 0 <= low < 0x40 && w == 0xc000 + d * 0x200 + b * 0x40 + low
    ensures GoesTo(s, Perform(s, w), s.core.reg[b])
  {
    Fields(w, 12, d, b * 0x40 + low);
  }

  /** A call remembers where to return to in register 7. */
  predicate CallsAt(s: Eager, o: Outcome<Eager>, a: Word)
    requires Valid(s.core)
  {
    o == Next(s.(core := s.core.(pc := a, reg := s.core.reg[7 := s.core.pc])))
  }

  lemma CallNear(s: Eager, w: Word, k: int, a: Word)
    requires Valid(s.core) && -1024 <= k < 1024 && w == 0x4800 + k % 0x800 && SumIs(a, s.core.pc, k)
    ensures CallsAt(s, Perform(s, w), a)
  {
    assert w / 0x1000 == 4 && w / 0x800 == 9 && w % 0x800 == k % 0x800;
    Offset11(w, k);
    SumWraps(a, s.core.pc, k);
  }

  lemma CallTo(s: Eager, w: Word, d: int, b: int, low: int)
    requires Valid(s.core) && 0 <= d < 4 && 0 <= b < 8 && 0 <= low < 0x40 && w == 0x4000 + d * 0x200 + b * 0x40 + low
    ensures CallsAt(s, Perform(s, w), s.core.reg[b])
  {
    Fields(w, 4, d, b * 0x40 + low);
    assert w / 0x800 == 8;
  }

  /** A trap calls through a vector below 256; vector 0x20 reads a character instead. */
  lemma Trap(s: Eager, w: Word, high: int, vector: int)
    requires Valid(s.core) && 0 <= high < 16 && 0 <= vector < 0x100 && w == 0xf000 + high * 0x100 + vector
    ensures vector != 0x20 && vector in s.core.mem ==> CallsAt(s, Perform(s, w), s.core.mem[vector])
    ensures vector != 0x20 && vector !in s.core.mem ==> Perform(s, w) == Fault
    ensures vector == 0x20 ==>
      var next := if s.core.input == [] then s.core else s.core.(input := s.core.input[1..]);
      Perform(s, w) == Next(s.(core := next.(
        reg := s.core.reg[0 := if s.core.input == [] then 0xffff else s.core.input[0]])))
  {
    assert w / 0x1000 == 15 && w % 0x100 == vector;
    if vector in s.core.mem {
      ReadPlain(SetReg(s.core, 7, s.core.pc), vector);
    }
  }

  // --------------------------------------------------------------- the console and the clock

  /** What reading and writing do: the console has four addresses, the others are memory or an error. */
  lemma Devices(c: Core, a: Word, v: Word)
    ensures Read(c, 0xfe00) == Fetched.Word(if c.input == [] then 0 else 0x8000, c)
    ensures Read(c, 0xfe02) ==
            if c.input == [] then Fetched.Word(0, c) else Fetched.Word(c.input[0], c.(input := c.input[1..]))
    ensures Read(c, 0xfe04) == Fetched.Word(0x8000, c) && Read(c, 0xfe06) == Fetched.Word(0, c)
    ensures Write(c, 0xfe00, v) == Write(c, 0xfe02, v) == Write(c, 0xfe04, v) == Done(c)
    ensures Write(c, 0xfe06, v) == Done(c.(output := c.output + [v]))
    ensures Plain(c, a) ==> Read(c, a) == Fetched.Word(c.mem[a], c) && Write(c, a, v) == Done(c.(mem := c.mem[a := v]))
    ensures a !in {0xfe00, 0xfe02, 0xfe04, 0xfe06} && a !in c.mem ==> Read(c, a) == NoWord && Write(c, a, v) == NotDone
  {
  }

  /** While the clock is on, a turn performs the word at the program counter, which is moved on first. */
  lemma TurnFetches(s: Eager)
    requires Valid(s.core)
    ensures 0xfffe !in s.core.mem ==> EagerStep(s) == Fault
    ensures 0xfffe in s.core.mem && s.core.mem[0xfffe] < 0x8000 ==> EagerStep(s) == Stopped(s)
    ensures 0xfffe in s.core.mem && s.core.mem[0xfffe] >= 0x8000 ==>
      match Read(s.core, s.core.pc)
      case Word(i, c) => Valid(c) && EagerStep(s) == Perform(s.(core := c.(pc := (s.core.pc + 1) % 0x1_0000)), i)
      case NoWord => EagerStep(s) == Fault
  {
  }

  /** The two opcodes that this machine does not implement. */
  lemma NotThere(s: Eager, w: Word, low: int)
    requires Valid(s.core) && 0 <= low < 0x1000 && (w == 0x8000 + low || w == 0xd000 + low)
    ensures Perform(s, w) == NotImplemented
  {
    assert w / 0x1000 == 8 || w / 0x1000 == 13;
  }

  /** The other machine runs the same instructions, whenever it starts from a state that agrees. */
  lemma LazyDoes(l: Lazy, e: Eager, i: Word, ext: Extension)
    requires Agree(l, e) && Perform(e, i).Next?
    requires i / 0x1000 != 8 && i / 0x1000 != 13 && (i / 0x1000 == 15 ==> i % 0x1000 < 0x100)
    ensures Execute(l, i, ext).Next? && Execute(l, i, ext).s.core == Perform(e, i).s.core
  {
    InstructionAgrees(l, e, i, ext);
  }
}
