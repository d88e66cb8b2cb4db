/**
 The address code that the post-processor writes for accesses to the frame and
 to globals, and what it does when the virtual machine runs it.
 */
module Address {
  import opened Vm
  import Bits
  import Encoding

  /** The lines that are written. */
  datatype Line =
    | AddImm(d: int, b: int, k: int)
    | AddReg(d: int, a: int, b: int)
    | Br(k: int)
    | Fill(v: int)
    | Ld(d: int, k: int)
    | Ldr(d: int, b: int, k: int)

  predicate IsReg(r: int) { 0 <= r < 8 }

  /** Register numbers and operands fit the fields of the instruction. */
  predicate Encodable(x: Line) {
    match x
    case AddImm(d, b, k) => IsReg(d) && IsReg(b) && -16 <= k <= 15
    case AddReg(d, a, b) => IsReg(d) && IsReg(a) && IsReg(b)
    case Br(k) => -256 <= k <= 255
    case Fill(v) => true
    case Ld(d, k) => IsReg(d) && -256 <= k <= 255
    case Ldr(d, b, k) => IsReg(d) && IsReg(b) && -32 <= k <= 31
  }

  /** The word of a line; a branch without flags is taken on every flag. */
  function Encode(x: Line): Word
    requires Encodable(x)
  {
    match x
    case AddImm(d, b, k) => ADD * 0x1000 + d * 0x200 + b * 0x40 + 0x20 + k % 0x20
    case AddReg(d, a, b) => ADD * 0x1000 + d * 0x200 + a * 0x40 + b
    case Br(k) => BR * 0x1000 + 7 * 0x200 + k % 0x200
    case Fill(v) => Wrap(v)
    case Ld(d, k) => LD * 0x1000 + d * 0x200 + k % 0x200
    case Ldr(d, b, k) => LDR * 0x1000 + d * 0x200 + b * 0x40 + k % 0x40
  }

  /** A line as the fields of its format. */
  function FieldsOf(x: Line): Encoding.Fields
    requires !x.Fill?
  {
    match x
    case AddImm(d, b, k) => Encoding.RRIF(ADD, d, b, k)
    case AddReg(d, a, b) => Encoding.RRR(ADD, d, a, b)
    case Br(k) => Encoding.RI(BR, 7, k)
    case Ld(d, k) => Encoding.RI(LD, d, k)
    case Ldr(d, b, k) => Encoding.RRI(LDR, d, b, k)
  }

  lemma Powers()
    ensures Bits.P(5) == 0x20 && Bits.P(6) == 0x40 && Bits.P(9) == 0x200 && Bits.P(12) == 0x1000
  {
    assert Bits.P(3) == 8;
    assert Bits.P(5) == 4 * Bits.P(3);
    assert Bits.P(9) == 8 * Bits.P(6);
    assert Bits.P(12) == 8 * Bits.P(9);
  }

  /** The words are those of the general encoder for 16 bits with 4 for the opcode and 3 for a register. */
  lemma EncodeIsWord(x: Line, p: nat)
    requires Encodable(x) && !x.Fill? && p < 6
    ensures Encoding.Word(Encoding.Layout(16, 4, 3, p), FieldsOf(x)) == Encode(x)
  {
    Powers();
  }

  // ------------------------------------------------------------ running the lines

  predicate Device(a: int) { a == KBSR || a == KBDR || a == DSR || a == DDR }

  /** Memory holds w at a. */
  predicate At(c: Core, a: int, w: Word) { 0 <= a < 0x1_0000 && !Device(a) && a in c.mem && c.mem[a] == w }

  /** A machine that runs: the clock is on and one flag is set. */
  predicate Running(s: Eager) {
    Valid(s.core) && OneFlag(s.psr) && MCR in s.core.mem && s.core.mem[MCR] >= STATUS
  }

  predicate AllEncodable(code: seq<Line>) { forall i :: 0 <= i < |code| ==> Encodable(code[i]) }

  predicate Holds(s: Eager, code: seq<Line>)
    requires AllEncodable(code)
  {
    forall i :: 0 <= i < |code| ==> At(s.core, s.core.pc + i, Encode(code[i]))
  }

  lemma StepOn(s: Eager, w: Word)
    requires Running(s) && At(s.core, s.core.pc, w)
    ensures EagerStep(s) == Perform(s.(core := s.core.(pc := Wrap(s.core.pc + 1))), w)
  {
  }

  lemma DecodeTwo(w: Word, op: int, d: int, b: int, low: int)
    requires w == op * 0x1000 + d * 0x200 + b * 0x40 + low && 0 <= op < 16 && IsReg(d) && IsReg(b) && 0 <= low < 0x40
    ensures Op(w) == op && Reg1(w) == d && Reg2(w) == b && (Flag5(w) <==> low >= 0x20)
    ensures w % 8 == low % 8 && w % 0x20 == low % 0x20 && w % 0x40 == low
  {
    assert w / 0x200 == op * 8 + d;
    assert w / 0x40 == op * 64 + d * 8 + b;
    assert w / 0x20 == (op * 64 + d * 8 + b) * 2 + low / 0x20;
  }

  lemma DecodeAddImm(d: int, b: int, k: int)
    requires Encodable(AddImm(d, b, k))
    ensures var w := Encode(AddImm(d, b, k)); Op(w) == ADD && Reg1(w) == d && Reg2(w) == b && Flag5(w) && Off5(w) == k
  {
    var low := 0x20 + k % 0x20;
    DecodeTwo(Encode(AddImm(d, b, k)), ADD, d, b, low);
    assert low % 0x20 == k % 0x20;
  }

  lemma DecodeAddReg(d: int, a: int, b: int)
    requires Encodable(AddReg(d, a, b))
    ensures var w := Encode(AddReg(d, a, b)); Op(w) == ADD && Reg1(w) == d && Reg2(w) == a && !Flag5(w) && Reg3(w) == b
  {
    DecodeTwo(Encode(AddReg(d, a, b)), ADD, d, a, b);
  }

  lemma DecodeBr(k: int)
    requires Encodable(Br(k))
    ensures var w := Encode(Br(k)); Op(w) == BR && Reg1(w) == 7 && Off9(w) == k && w != 0
  {
  }

  lemma DecodeLd(d: int, k: int)
    requires Encodable(Ld(d, k))
    ensures var w := Encode(Ld(d, k)); Op(w) == LD && Reg1(w) == d && Off9(w) == k
  {
  }

  lemma DecodeLdr(d: int, b: int, k: int)
    requires Encodable(Ldr(d, b, k))
    ensures var w := Encode(Ldr(d, b, k)); Op(w) == LDR && Reg1(w) == d && Reg2(w) == b && Off6(w) == k
  {
    DecodeTwo(Encode(Ldr(d, b, k)), LDR, d, b, k % 0x40);
  }

  // --------------------------------------------------------------------------- runs

  ghost predicate Moves(trace: seq<Eager>, i: int)
    requires 0 <= i < |trace| - 1
  {
    Valid(trace[i].core) && EagerStep(trace[i]) == Next(trace[i + 1])
  }

  ghost predicate IsTrace(trace: seq<Eager>, s: Eager, t: Eager, n: nat) {
    |trace| == n + 1 && trace[0] == s && trace[n] == t && forall i :: 0 <= i < n ==> Moves(trace, i)
  }

  /** The machine gets from s to t in n steps. */
  ghost predicate Goes(s: Eager, t: Eager, n: nat) { exists trace :: IsTrace(trace, s, t, n) }

  lemma GoesOne(s: Eager, t: Eager)
    requires Valid(s.core) && EagerStep(s) == Next(t)
    ensures Goes(s, t, 1)
  {
    var trace := [s, t];
    assert Moves(trace, 0);
    assert IsTrace(trace, s, t, 1);
  }

  lemma GoesOn(s: Eager, t: Eager, u: Eager, m: nat, n: nat)
    requires Goes(s, t, m) && Goes(t, u, n)
    ensures Goes(s, u, m + n)
  {
    var a :| IsTrace(a, s, t, m);
    var b :| IsTrace(b, t, u, n);
    var c := a[..m] + b;
    forall i | 0 <= i < m + n ensures Moves(c, i) {
      if i < m {
        assert Moves(a, i) && c[i] == a[i] && c[i + 1] == a[i + 1];
      } else {
        assert Moves(b, i - m) && c[i] == b[i - m] && c[i + 1] == b[i + 1 - m];
      }
    }
    assert IsTrace(c, s, u, m + n);
  }

  lemma {:induction false} TraceRuns<S(!new)>(step: S -> Outcome<S>, trace: seq<S>, i: nat)
    requires i < |trace| && forall k :: 0 <= k < |trace| - 1 ==> step(trace[k]) == Next(trace[k + 1])
    ensures RunWith(step, trace[i], |trace| - 1 - i) == Next(trace[|trace| - 1])
    decreases |trace| - i
  {
    if i < |trace| - 1 {
      TraceRuns(step, trace, i + 1);
    }
  }

  /** Going is what the loop of the machine does. */
  lemma {:induction false} GoesRuns(s: Eager, t: Eager, n: nat)
    requires Goes(s, t, n) && Valid(s.core)
    ensures EagerRun(s, n) == Next(t)
  {
    var a :| IsTrace(a, s, t, n);
    forall k | 0 <= k < |a| - 1 ensures EagerTurn()(a[k]) == Next(a[k + 1]) {
      assert Moves(a, k);
    }
    TraceRuns(EagerTurn(), a, 0);
  }

  lemma GoesOnce(s: Eager, t: Eager, u: Eager, n: nat)
    requires Valid(s.core) && Goes(s, t, n) && Goes(s, u, n)
    ensures t == u
  {
    GoesRuns(s, t, n);
    GoesRuns(s, u, n);
  }

  /** The next step of s has this outcome. */
  ghost predicate Did(s: Eager, o: Outcome<Eager>) { Valid(s.core) && EagerStep(s) == o }

  lemma DidOnce(s: Eager, o: Outcome<Eager>, o': Outcome<Eager>)
    requires Valid(s.core) && Did(s, o) && Did(s, o')
    ensures o == o'
  {
  }

  /** s with register d set, n words further, the flag of the value set. */
  function Set(s: Eager, d: int, v: Word, n: int): (t: Eager)
    requires Valid(s.core) && IsReg(d)
    ensures Running(s) ==> Running(t)
  {
    Eager(s.core.(reg := s.core.reg[d := v], pc := Wrap(s.core.pc + n)), SignFlag(v))
  }

  lemma SetAgain(s: Eager, d: int, v: Word, m: int, w: Word, n: int)
    requires Valid(s.core) && IsReg(d)
    ensures Set(Set(s, d, v, m), d, w, n) == Set(s, d, w, m + n)
  {
    assert s.core.reg[d := v][d := w] == s.core.reg[d := w];
  }

  lemma WrapAdd(a: int, k: int)
    ensures Wrap(Wrap(a) + k) == Wrap(a + k)
  {
  }

  lemma StepAddImm(s: Eager, d: int, b: int, k: int)
    requires Encodable(AddImm(d, b, k)) && Running(s) && At(s.core, s.core.pc, Encode(AddImm(d, b, k)))
    ensures Goes(s, Set(s, d, Wrap(s.core.reg[b] + k), 1), 1)
  {
    StepOn(s, Encode(AddImm(d, b, k)));
    DecodeAddImm(d, b, k);
    GoesOne(s, Set(s, d, Wrap(s.core.reg[b] + k), 1));
  }

  lemma StepAddReg(s: Eager, d: int, a: int, b: int)
    requires Encodable(AddReg(d, a, b)) && Running(s) && At(s.core, s.core.pc, Encode(AddReg(d, a, b)))
    ensures Goes(s, Set(s, d, Wrap(s.core.reg[a] as int + s.core.reg[b]), 1), 1)
  {
    StepOn(s, Encode(AddReg(d, a, b)));
    DecodeAddReg(d, a, b);
    GoesOne(s, Set(s, d, Wrap(s.core.reg[a] as int + s.core.reg[b]), 1));
  }

  lemma PerformBr(s: Eager, w: Word)
    requires Valid(s.core) && OneFlag(s.psr) && Op(w) == BR && Reg1(w) == 7 && w != 0
    ensures Perform(s, w) == Next(s.(core := s.core.(pc := Wrap(s.core.pc + Off9(w)))))
  {
  }

  lemma BrTaken(s: Eager, w: Word, k: int)
    requires Running(s) && At(s.core, s.core.pc, w) && Op(w) == BR && Reg1(w) == 7 && Off9(w) == k && w != 0
    ensures Goes(s, s.(core := s.core.(pc := Wrap(s.core.pc + 1 + k))), 1)
  {
    var s' := s.(core := s.core.(pc := Wrap(s.core.pc + 1)));
    StepOn(s, w);
    WrapAdd(s.core.pc + 1, k);
    PerformBr(s', w);
    GoesOne(s, s.(core := s.core.(pc := Wrap(s.core.pc + 1 + k))));
  }

  lemma StepBr(s: Eager, k: int)
    requires Encodable(Br(k)) && Running(s) && At(s.core, s.core.pc, Encode(Br(k)))
    ensures Goes(s, s.(core := s.core.(pc := Wrap(s.core.pc + 1 + k))), 1)
  {
    DecodeBr(k);
    BrTaken(s, Encode(Br(k)), k);
  }

  lemma ReadAt(c: Core, a: int, v: Word)
    requires At(c, a, v)
    ensures Read(c, a) == Word(v, c)
  {
  }

  lemma PerformLd(s: Eager, w: Word, v: Word)
    requires Valid(s.core) && Op(w) == LD && Read(s.core, Wrap(s.core.pc + Off9(w))) == Word(v, s.core)
    ensures Perform(s, w) == Result(s.core, Reg1(w), v)
  {
  }

  lemma LdSteps(s: Eager, w: Word, d: int, k: int, v: Word)
    requires Running(s) && At(s.core, s.core.pc, w) && Op(w) == LD && Reg1(w) == d && Off9(w) == k
    requires At(s.core, s.core.pc + 1 + k, v)
    ensures EagerStep(s) == Next(Set(s, d, v, 1))
  {
    var s' := s.(core := s.core.(pc := Wrap(s.core.pc + 1)));
    StepOn(s, w);
    WrapAdd(s.core.pc + 1, k);
    ReadAt(s'.core, s.core.pc + 1 + k, v);
    PerformLd(s', w, v);
  }

  lemma LdDone(s: Eager, w: Word, d: int, k: int, v: Word)
    requires Running(s) && At(s.core, s.core.pc, w) && Op(w) == LD && Reg1(w) == d && Off9(w) == k
    requires At(s.core, s.core.pc + 1 + k, v)
    ensures Goes(s, Set(s, d, v, 1), 1)
  {
    LdSteps(s, w, d, k, v);
    GoesOne(s, Set(s, d, v, 1));
  }

  lemma StepLd(s: Eager, d: int, k: int, v: Word)
    requires Encodable(Ld(d, k)) && Running(s) && At(s.core, s.core.pc, Encode(Ld(d, k)))
    requires At(s.core, s.core.pc + 1 + k, v)
    ensures Goes(s, Set(s, d, v, 1), 1)
  {
    DecodeLd(d, k);
    LdDone(s, Encode(Ld(d, k)), d, k, v);
  }

  lemma StepLdr(s: Eager, d: int, b: int, k: int)
    requires Encodable(Ldr(d, b, k)) && Running(s) && At(s.core, s.core.pc, Encode(Ldr(d, b, k)))
    ensures Did(s, Loaded(s.core.(pc := Wrap(s.core.pc + 1)), d, Wrap(s.core.reg[b] + k)))
  {
    StepOn(s, Encode(Ldr(d, b, k)));
    DecodeLdr(d, b, k);
  }

  // --------------------------------------------------------------- what is computed

  /** Additions that take the sum of their operands from register b to register d. */
  ghost predicate Chain(code: seq<Line>, d: int, b: int, total: int) {
    if code == [] then total == 0
    else
      var x := code[|code| - 1];
      x.AddImm? && Encodable(x) && x.d == d && x.b == (if |code| == 1 then b else d)
        && Chain(code[..|code| - 1], d, b, total - x.k)
  }

  lemma {:induction false} ChainEncodable(code: seq<Line>, d: int, b: int, total: int)
    requires Chain(code, d, b, total)
    ensures AllEncodable(code)
  {
    if code != [] {
      var n := |code| - 1;
      ChainEncodable(code[..n], d, b, total - code[n].k);
      forall i | 0 <= i < |code| ensures Encodable(code[i]) {
        if i < n {
          assert code[..n][i] == code[i];
        }
      }
    }
  }

  /** One more addition after those that have set the destination. */
  lemma ChainStep(s: Eager, d: int, x: int, k: int, n: nat)
    requires IsReg(d) && Encodable(AddImm(d, d, k)) && Running(s) && At(s.core, s.core.pc + n, Encode(AddImm(d, d, k)))
    requires Goes(s, Set(s, d, Wrap(x), n), n)
    ensures Goes(s, Set(s, d, Wrap(x + k), n + 1), n + 1)
  {
    var t := Set(s, d, Wrap(x), n);
    assert t.core.pc == s.core.pc + n;
    StepAddImm(t, d, d, k);
    WrapAdd(x, k);
    SetAgain(s, d, Wrap(x), n, Wrap(x + k), 1);
    GoesOn(s, t, Set(s, d, Wrap(x + k), n + 1), n, 1);
  }

  /** Running a chain. */
  lemma {:induction false} RunChain(s: Eager, code: seq<Line>, d: int, b: int, total: int)
    requires IsReg(d) && IsReg(b) && Chain(code, d, b, total) && code != [] && AllEncodable(code) && Running(s)
      && Holds(s, code)
    ensures Goes(s, Set(s, d, Wrap(s.core.reg[b] + total), |code|), |code|)
    decreases |code|
  {
    var n := |code| - 1;
    var x := code[n];
    var front := code[..n];
    assert At(s.core, s.core.pc + n, Encode(x));
    if n == 0 {
      StepAddImm(s, d, b, x.k);
    } else {
      assert forall i :: 0 <= i < n ==> front[i] == code[i];
      assert Holds(s, front);
      RunChain(s, front, d, b, total - x.k);
      ChainStep(s, d, s.core.reg[b] + (total - x.k), x.k, n);
    }
  }

  /** The lines that load the offset from a word among them and add it. */
  function Constant(d: int, b: int, offset: int): seq<Line> {
    [Br(1), Fill(offset), Ld(d, -2), AddReg(d, b, d)]
  }

  lemma Skip(s: Eager, d: int, v: Word)
    requires IsReg(d) && Running(s) && At(s.core, s.core.pc, Encode(Br(1)))
    requires At(s.core, s.core.pc + 1, v) && At(s.core, s.core.pc + 2, Encode(Ld(d, -2)))
    ensures Goes(s, Set(s, d, v, 3), 2)
  {
    var t := s.(core := s.core.(pc := s.core.pc + 2));
    StepBr(s, 1);
    StepLd(t, d, -2, v);
    assert Set(t, d, v, 1) == Set(s, d, v, 3);
    GoesOn(s, t, Set(s, d, v, 3), 1, 1);
  }

  lemma WrapSum(a: int, b: int)
    ensures Wrap(Wrap(a) as int + Wrap(b)) == Wrap(a + b)
  {
  }

  lemma AddAfter(s: Eager, d: int, b: int, v: Word)
    requires IsReg(d) && IsReg(b) && Running(s) && At(s.core, s.core.pc + 3, Encode(AddReg(d, b, d)))
    requires Goes(s, Set(s, d, v, 3), 2)
    ensures Goes(s, Set(s, d, Wrap((if d == b then v else s.core.reg[b]) as int + v), 4), 3)
  {
    var t := Set(s, d, v, 3);
    assert t.core.pc == s.core.pc + 3;
    StepAddReg(t, d, b, d);
    var w := Wrap((if d == b then v else s.core.reg[b]) as int + v);
    SetAgain(s, d, v, 3, w, 1);
    GoesOn(s, t, Set(s, d, w, 4), 2, 1);
  }

  /**
   The branch passes over the word, which is never executed; the sum is right when the destination is not the base.
   */
  lemma RunConstant(s: Eager, d: int, b: int, offset: int)
    requires IsReg(d) && IsReg(b) && Running(s) && AllEncodable(Constant(d, b, offset))
      && Holds(s, Constant(d, b, offset))
    ensures Goes(s, Set(s, d, Wrap((if d == b then offset else s.core.reg[b]) + offset), 4), 3)
  {
    var code := Constant(d, b, offset);
    var pc: int := s.core.pc;
    assert At(s.core, pc, Encode(code[0])) && At(s.core, pc + 1, Encode(code[1]));
    assert At(s.core, pc + 2, Encode(code[2])) && At(s.core, pc + 3, Encode(code[3]));
    Skip(s, d, Wrap(offset));
    AddAfter(s, d, b, Wrap(offset));
    WrapSum(if d == b then offset else s.core.reg[b], offset);
  }

  // ------------------------------------------------------------ writing the lines

  function Min(a: int, b: int): int { if a < b then a else b }

  function Max(a: int, b: int): int { if a < b then b else a }

  /** The part of the offset that is left to the load itself. */
  function LoadPart(offset: int, withLdr: bool): int {
    if !withLdr then 0 else if offset > 0 then Min(offset, 31) else Max(offset, -32)
  }

  /** The rest of the offset takes more than three additions. */
  predicate Far(offset: int, withLdr: bool) {
    var rest := offset - LoadPart(offset, withLdr);
    rest > 45 || rest < -48
  }

  /** In numbers: when the additions give way to a constant, and what is left to the load. */
  lemma FarExactly(offset: int)
    ensures (Far(offset, false) <==> offset > 45 || offset < -48) && LoadPart(offset, false) == 0
    ensures Far(offset, true) <==> offset > 76 || offset < -80
    ensures LoadPart(offset, true) == if offset > 31 then 31 else if offset < -32 then -32 else offset
  {
  }

  /** As much of the offset as an immediate holds. */
  function Part(offset: int): int { if offset > 0 then Min(offset, 15) else Max(offset, -16) }

  /** How many such additions a sum takes. */
  function Count(rest: int): nat
    decreases if rest >= 0 then rest else -rest
  {
    if rest == 0 then 0 else 1 + Count(rest - Part(rest))
  }

  lemma {:induction false} CountExactly(rest: int)
    ensures Count(rest) == if rest >= 0 then (rest + 14) / 15 else (15 - rest) / 16
    decreases if rest >= 0 then rest else -rest
  {
    if rest != 0 {
      CountExactly(rest - Part(rest));
    }
  }

  /** How many lines are written for an access. */
  function LineCount(offset: int, withLdr: bool): nat {
    var lead := if Far(offset, withLdr) then 4 else Count(offset - LoadPart(offset, withLdr));
    if withLdr then lead + 1 else if offset == 0 then 1 else lead
  }

  lemma LinesExactly(offset: int)
    ensures LineCount(offset, false) ==
      (if offset > 45 || offset < -48 then 4 else if offset == 0 then 1 else Count(offset))
    ensures LineCount(offset, true) ==
      (if offset > 76 || offset < -80 then 5
       else 1 + Count(if offset > 31 then offset - 31 else if offset < -32 then offset + 32 else 0))
  {
    FarExactly(offset);
  }

  /** No fewer would do. */
  lemma {:induction false} CountLeast(code: seq<Line>, d: int, b: int, rest: int)
    requires Chain(code, d, b, rest)
    ensures Count(rest) <= |code|
  {
    if code != [] {
      var n := |code| - 1;
      CountLeast(code[..n], d, b, rest - code[n].k);
      CountExactly(rest - code[n].k);
    }
    CountExactly(rest);
  }

  lemma {:induction false} ChainMore(code: seq<Line>, d: int, b: int, total: int, k: int)
    requires IsReg(d) && IsReg(b) && Chain(code, d, b, total) && -16 <= k <= 15
    ensures Chain(code + [AddImm(d, if code == [] then b else d, k)], d, b, total + k)
  {
    var more := code + [AddImm(d, if code == [] then b else d, k)];
    assert more[..|code|] == code;
  }

  /** Additions of what an immediate can hold at a time, of the sign of the offset. */
  method Additions(dst: int, base: int, rest: int) returns (code: seq<Line>, baseReg: int)
    requires IsReg(dst) && IsReg(base)
    ensures Chain(code, dst, base, rest) && baseReg == (if code == [] then base else dst) && |code| == Count(rest)
  {
    code, baseReg := [], base;
    var offset, sum := rest, 0;
    while offset != 0
      invariant sum + offset == rest && (rest >= 0 ==> offset >= 0) && (rest <= 0 ==> offset <= 0)
      invariant Chain(code, dst, base, sum) && baseReg == (if code == [] then base else dst)
      invariant |code| + Count(offset) == Count(rest)
      decreases if offset >= 0 then offset else -offset
    {
      var k := Part(offset);
      offset, sum := offset - k, sum + k;
      ChainMore(code, dst, base, sum - k, k);
      code, baseReg := code + [AddImm(dst, baseReg, k)], dst;
    }
  }

  /** The lines that take base + moved to the destination. */
  ghost predicate IsLead(code: seq<Line>, dst: int, base: int, moved: int, far: bool) {
    if far then code == Constant(dst, base, moved) else Chain(code, dst, base, moved)
  }

  /** The lines for an access: they move by all of the offset, or by what the load does not add itself. */
  ghost predicate Written(code: seq<Line>, dst: int, base: int, offset: int, withLdr: bool) {
    var far := Far(offset, withLdr);
    && code != [] && AllEncodable(code)
    && if !withLdr then IsLead(code, dst, base, offset, far)
       else
         var n := |code| - 1;
         var part := if far then 0 else LoadPart(offset, true);
         code[n] == Ldr(dst, if n == 0 then base else dst, part) && IsLead(code[..n], dst, base, offset - part, far)
  }

  lemma ConstantEncodable(d: int, b: int, offset: int)
    requires IsReg(d) && IsReg(b)
    ensures AllEncodable(Constant(d, b, offset))
  {
  }

  /** Writes the lines that compute an address, and load the word there when asked to. */
  method CalculateAddress(dst: int, base: int, offset: int, withLdr: bool) returns (code: seq<Line>)
    requires IsReg(dst) && IsReg(base)
    ensures Written(code, dst, base, offset, withLdr)
    ensures |code| == LineCount(offset, withLdr)
  {
    var baseReg := base;
    var ldrOffset := LoadPart(offset, withLdr);
    var rest := offset - ldrOffset;
    code := [];
    if Far(offset, withLdr) {
      ldrOffset := 0;
      code, baseReg := Constant(dst, base, offset), dst;
      ConstantEncodable(dst, base, offset);
    } else if offset != 0 {
      code, baseReg := Additions(dst, base, rest);
      ChainEncodable(code, dst, base, rest);
    } else if !withLdr {
      code := [AddImm(dst, base, 0)];
    }
    if withLdr {
      var lead := code;
      code := lead + [Ldr(dst, baseReg, ldrOffset)];
      assert code[..|lead|] == lead;
    }
  }

  // ------------------------------------------------------------ what the code does

  /**
   The contents of the base when the offset is added to it: the constant form has overwritten a base that is also the
   destination.
   */
  function Basis(s: Eager, dst: int, base: int, moved: int, far: bool): int
    requires Valid(s.core) && IsReg(base)
  {
    if far && dst == base then moved else s.core.reg[base]
  }

  lemma RunLead(s: Eager, code: seq<Line>, dst: int, base: int, moved: int, far: bool)
    requires IsReg(dst) && IsReg(base) && IsLead(code, dst, base, moved, far) && code != [] && AllEncodable(code)
    requires Running(s) && Holds(s, code)
    ensures Goes(s, Set(s, dst, Wrap(Basis(s, dst, base, moved, far) + moved), |code|), if far then 3 else |code|)
  {
    if far {
      RunConstant(s, dst, base, moved);
    } else {
      RunChain(s, code, dst, base, moved);
    }
  }

  /** The address ends up in the destination; nothing else changes but the program counter and the flag. */
  lemma AddressComputed(s: Eager, code: seq<Line>, dst: int, base: int, offset: int)
    requires IsReg(dst) && IsReg(base) && Written(code, dst, base, offset, false) && Running(s) && Holds(s, code)
    ensures var far := Far(offset, false);
      Goes(s, Set(s, dst, Wrap(Basis(s, dst, base, offset, far) + offset), |code|), if far then 3 else |code|)
  {
    RunLead(s, code, dst, base, offset, Far(offset, false));
  }

  /** The machine before the load at the end of n + 1 lines. */
  function BeforeLoad(s: Eager, dst: int, base: int, offset: int, n: nat): Eager
    requires Valid(s.core) && IsReg(dst) && IsReg(base)
  {
    var far := Far(offset, true);
    var moved := offset - if far then 0 else LoadPart(offset, true);
    if n == 0 then s else Set(s, dst, Wrap(Basis(s, dst, base, moved, far) + moved), n)
  }

  /** With a load, the machine gets to the last line. */
  lemma LoadReached(s: Eager, code: seq<Line>, dst: int, base: int, offset: int)
    requires IsReg(dst) && IsReg(base) && Written(code, dst, base, offset, true) && Running(s) && Holds(s, code)
    ensures var n := |code| - 1; Goes(s, BeforeLoad(s, dst, base, offset, n), if Far(offset, true) then 3 else n)
  {
    var far, n := Far(offset, true), |code| - 1;
    var moved := offset - if far then 0 else LoadPart(offset, true);
    var lead := code[..n];
    if n == 0 {
      assert IsTrace([s], s, s, 0);
    } else {
      assert forall i :: 0 <= i < n ==> lead[i] == code[i];
      assert Holds(s, lead);
      RunLead(s, lead, dst, base, moved, far);
    }
  }

  lemma LoadReady(s: Eager, code: seq<Line>, dst: int, base: int, offset: int)
    requires IsReg(dst) && IsReg(base) && Written(code, dst, base, offset, true) && Running(s) && Holds(s, code)
    ensures var t, x := BeforeLoad(s, dst, base, offset, |code| - 1), code[|code| - 1];
      && Running(t) && At(t.core, t.core.pc, Encode(x)) && t.core.pc + 1 == s.core.pc + |code|
      && x.Ldr? && Encodable(x) && x.d == dst
      && Wrap(t.core.reg[x.b] + x.k) == Wrap(Basis(s, dst, base, offset, Far(offset, true)) + offset)
  {
    var far, n := Far(offset, true), |code| - 1;
    var part := if far then 0 else LoadPart(offset, true);
    assert At(s.core, s.core.pc + n, Encode(code[n]));
    WrapAdd(Basis(s, dst, base, offset - part, far) + (offset - part), part);
  }

  /** The last line reads the word at base + offset into the destination. */
  lemma WordLoaded(s: Eager, code: seq<Line>, dst: int, base: int, offset: int)
    requires IsReg(dst) && IsReg(base) && Written(code, dst, base, offset, true) && Running(s) && Holds(s, code)
    ensures var t := BeforeLoad(s, dst, base, offset, |code| - 1);
      Did(t, Loaded(t.core.(pc := Wrap(s.core.pc + |code|)), dst,
                    Wrap(Basis(s, dst, base, offset, Far(offset, true)) + offset)))
  {
    LoadReady(s, code, dst, base, offset);
    var x := code[|code| - 1];
    StepLdr(BeforeLoad(s, dst, base, offset, |code| - 1), dst, x.b, x.k);
  }

  // ------------------------------------------------------------ exactly when it is right

  /** Number of instructions executed before the load, if any, of n lines. */
  function Steps(offset: int, withLdr: bool, n: nat): nat {
    if Far(offset, withLdr) then 3 else if withLdr && n > 0 then n - 1 else n
  }

  /** Run on s, the lines leave base + offset in the destination. */
  ghost predicate AddressRight(s: Eager, code: seq<Line>, dst: int, base: int, offset: int)
    requires Valid(s.core) && IsReg(dst) && IsReg(base)
  {
    EagerRun(s, Steps(offset, false, |code|)) == Next(Set(s, dst, Wrap(s.core.reg[base] + offset), |code|))
  }

  /** Run on s, the lines load the word at base + offset into the destination. */
  ghost predicate LoadRight(s: Eager, code: seq<Line>, dst: int, base: int, offset: int)
    requires Valid(s.core) && IsReg(dst) && IsReg(base)
  {
    exists t: Eager :: Valid(t.core) && Goes(s, t, Steps(offset, true, |code|))
      && Did(t, Loaded(t.core.(pc := Wrap(s.core.pc + |code|)), dst, Wrap(s.core.reg[base] + offset)))
  }

  lemma GoesRight(s: Eager, code: seq<Line>, dst: int, base: int, offset: int, t: Eager)
    requires Valid(s.core) && IsReg(dst) && IsReg(base) && Goes(s, t, Steps(offset, false, |code|))
    ensures AddressRight(s, code, dst, base, offset) <==> t == Set(s, dst, Wrap(s.core.reg[base] + offset), |code|)
  {
    GoesExactly(s, t, Set(s, dst, Wrap(s.core.reg[base] + offset), |code|), Steps(offset, false, |code|));
  }

  lemma {:induction false} GoesExactly(s: Eager, t: Eager, u: Eager, n: nat)
    requires Valid(s.core) && Goes(s, t, n)
    ensures EagerRun(s, n) == Next(u) <==> t == u
  {
    GoesRuns(s, t, n);
  }

  lemma NearAddress(s: Eager, code: seq<Line>, dst: int, base: int, offset: int)
    requires IsReg(dst) && IsReg(base) && Written(code, dst, base, offset, false) && Running(s) && Holds(s, code)
    requires !(Far(offset, false) && dst == base)
    ensures AddressRight(s, code, dst, base, offset)
  {
    AddressComputed(s, code, dst, base, offset);
    GoesRight(s, code, dst, base, offset, Set(s, dst, Wrap(s.core.reg[base] + offset), |code|));
  }

  lemma NearLoad(s: Eager, code: seq<Line>, dst: int, base: int, offset: int)
    requires IsReg(dst) && IsReg(base) && Written(code, dst, base, offset, true) && Running(s) && Holds(s, code)
    requires !(Far(offset, true) && dst == base)
    ensures LoadRight(s, code, dst, base, offset)
  {
    LoadReached(s, code, dst, base, offset);
    WordLoaded(s, code, dst, base, offset);
    var t := BeforeLoad(s, dst, base, offset, |code| - 1);
    assert Valid(t.core) && Goes(s, t, Steps(offset, true, |code|));
  }

  const START: int := 0x3000

  /** Memory that holds the first k lines and the clock, and a word at `extra`. */
  function MemoryOf(code: seq<Line>, k: nat, extra: Word): (mem: map<Word, Word>)
    requires AllEncodable(code) && k <= |code| <= 5
    ensures forall a :: a in mem <==> a == MCR || a == extra || START <= a < START + k
  {
    if k == 0 then map[MCR := STATUS, extra := STATUS]
    else MemoryOf(code, k - 1, extra)[START + (k - 1) := Encode(code[k - 1])]
  }

  lemma {:induction false} MemoryHolds(code: seq<Line>, k: nat, extra: Word, i: nat)
    requires AllEncodable(code) && i < k <= |code| <= 5
    ensures MemoryOf(code, k, extra)[START + i] == Encode(code[i])
  {
    if i < k - 1 {
      MemoryHolds(code, k - 1, extra, i);
    }
  }

  lemma {:induction false} MemoryClock(code: seq<Line>, k: nat, extra: Word)
    requires AllEncodable(code) && k <= |code| <= 5
    ensures MemoryOf(code, k, extra)[MCR] == STATUS
  {
    if k > 0 {
      MemoryClock(code, k - 1, extra);
    }
  }

  /** A machine that is about to run the lines, with v in every register. */
  function Machine(code: seq<Line>, v: Word, extra: Word): Eager
    requires AllEncodable(code) && |code| <= 5
  {
    Eager(Core([v, v, v, v, v, v, v, v], START, MemoryOf(code, |code|, extra), [], []), 1)
  }

  lemma MachineRuns(code: seq<Line>, v: Word, extra: Word)
    requires AllEncodable(code) && |code| <= 5
    ensures var s := Machine(code, v, extra); Running(s) && Holds(s, code)
  {
    var s := Machine(code, v, extra);
    MemoryClock(code, |code|, extra);
    forall i | 0 <= i < |code| ensures At(s.core, s.core.pc + i, Encode(code[i])) {
      MemoryHolds(code, |code|, extra, i);
    }
  }

  lemma WrapApart(a: int, b: int)
    requires 0 < b - a < 0x1_0000
    ensures Wrap(a) != Wrap(b)
  {
  }

  /** A register that is destination and base: twice the offset comes out, whatever it held. */
  lemma FarAddress(code: seq<Line>, dst: int, offset: int) returns (s: Eager, t: Eager)
    requires IsReg(dst) && Written(code, dst, dst, offset, false) && Far(offset, false)
    ensures Running(s) && Holds(s, code) && Goes(s, t, 3) && t != Set(s, dst, Wrap(s.core.reg[dst] + offset), |code|)
  {
    var v := Wrap(offset + 1);
    s := Machine(code, v, 0);
    MachineRuns(code, v, 0);
    AddressComputed(s, code, dst, dst, offset);
    t := Set(s, dst, Wrap(offset + offset), |code|);
    WrapAdd(offset + 1, offset);
    WrapApart(offset + offset, offset + 1 + offset);
    assert t.core.reg[dst] == Wrap(offset + offset);
  }

  /** Whenever the machine runs the lines, the address is right. */
  ghost predicate AlwaysAddress(code: seq<Line>, dst: int, base: int, offset: int)
    requires IsReg(dst) && IsReg(base) && AllEncodable(code)
  {
    forall s: Eager | Running(s) && Holds(s, code) :: AddressRight(s, code, dst, base, offset)
  }

  lemma NotAlways(code: seq<Line>, dst: int, base: int, offset: int, s: Eager, t: Eager)
    requires IsReg(dst) && IsReg(base) && AllEncodable(code) && Running(s) && Holds(s, code)
    requires Goes(s, t, Steps(offset, false, |code|)) && t != Set(s, dst, Wrap(s.core.reg[base] + offset), |code|)
    ensures !AlwaysAddress(code, dst, base, offset)
  {
    GoesRight(s, code, dst, base, offset, t);
  }

  lemma Always(code: seq<Line>, dst: int, base: int, offset: int)
    requires IsReg(dst) && IsReg(base) && Written(code, dst, base, offset, false)
      && !(Far(offset, false) && dst == base)
    ensures AlwaysAddress(code, dst, base, offset)
  {
    forall s: Eager | Running(s) && Holds(s, code) ensures AddressRight(s, code, dst, base, offset) {
      NearAddress(s, code, dst, base, offset);
    }
  }

  /** The address computed is right for every running machine exactly unless the constant form is used on its base. */
  lemma AddressExactly(code: seq<Line>, dst: int, base: int, offset: int)
    requires IsReg(dst) && IsReg(base) && Written(code, dst, base, offset, false)
    ensures AlwaysAddress(code, dst, base, offset) <==> !(Far(offset, false) && dst == base)
  {
    if Far(offset, false) && dst == base {
      var s, t := FarAddress(code, dst, offset);
      NotAlways(code, dst, base, offset, s, t);
    } else {
      Always(code, dst, base, offset);
    }
  }

  // ------------------------------------------------------------------ with a load

  /** The word at a can be read. */
  predicate Readable(c: Core, a: Word) { Device(a) || a in c.mem }

  lemma LoadedIff(c: Core, d: int, a: Word)
    requires Valid(c) && IsReg(d)
    ensures Loaded(c, d, a).Next? <==> Readable(c, a)
  {
  }

  /** A machine in which just one of the right address and the one computed can be read. */
  lemma FarLoad(code: seq<Line>, dst: int, offset: int) returns (s: Eager)
    requires IsReg(dst) && Written(code, dst, dst, offset, true) && Far(offset, true)
    ensures Running(s) && Holds(s, code)
    ensures Readable(s.core, Wrap(offset + offset)) != Readable(s.core, Wrap(s.core.reg[dst] + offset))
  {
    var computed := Wrap(offset + offset);
    var readable := Device(computed) || computed == MCR || START <= computed < START + |code|;
    var right: Word := if readable then 1 else START;
    var v := Wrap(right - offset);
    var extra := MCR;
    s := Machine(code, v, extra);
    MachineRuns(code, v, extra);
    WrapAdd(right - offset, offset);
  }

  lemma LoadWrong(s: Eager, code: seq<Line>, dst: int, offset: int)
    requires IsReg(dst) && Written(code, dst, dst, offset, true) && Far(offset, true) && Running(s) && Holds(s, code)
    requires Readable(s.core, Wrap(offset + offset)) != Readable(s.core, Wrap(s.core.reg[dst] + offset))
    ensures !LoadRight(s, code, dst, dst, offset)
  {
    var t := BeforeLoad(s, dst, dst, offset, |code| - 1);
    LoadReached(s, code, dst, dst, offset);
    WordLoaded(s, code, dst, dst, offset);
    if LoadRight(s, code, dst, dst, offset) {
      LoadsThere(s, t, code, dst, dst, offset);
      LoadsDiffer(t, t.core.(pc := Wrap(s.core.pc + |code|)), dst, Wrap(offset + offset),
                  Wrap(s.core.reg[dst] + offset));
    }
  }

  /** A right load happens in the only state that the run arrives at. */
  lemma LoadsThere(s: Eager, t: Eager, code: seq<Line>, dst: int, base: int, offset: int)
    requires Valid(s.core) && IsReg(dst) && IsReg(base) && LoadRight(s, code, dst, base, offset)
    requires Goes(s, t, Steps(offset, true, |code|))
    ensures Valid(t.core)
      && Did(t, Loaded(t.core.(pc := Wrap(s.core.pc + |code|)), dst, Wrap(s.core.reg[base] + offset)))
  {
    var u: Eager :| Valid(u.core) && Goes(s, u, Steps(offset, true, |code|))
      && Did(u, Loaded(u.core.(pc := Wrap(s.core.pc + |code|)), dst, Wrap(s.core.reg[base] + offset)));
    GoesOnce(s, t, u, Steps(offset, true, |code|));
  }

  /** One step cannot load from two places of which only one can be read. */
  lemma LoadsDiffer(t: Eager, c: Core, dst: int, a: Word, b: Word)
    requires Valid(t.core) && Valid(c) && IsReg(dst) && Readable(c, a) != Readable(c, b)
    requires Did(t, Loaded(c, dst, a))
    ensures !Did(t, Loaded(c, dst, b))
  {
    LoadedIff(c, dst, a);
    LoadedIff(c, dst, b);
    if Did(t, Loaded(c, dst, b)) {
      DidOnce(t, Loaded(c, dst, a), Loaded(c, dst, b));
    }
  }

  /** Whenever the machine runs the lines, the word at base + offset is loaded. */
  ghost predicate AlwaysLoad(code: seq<Line>, dst: int, base: int, offset: int)
    requires IsReg(dst) && IsReg(base) && AllEncodable(code)
  {
    forall s: Eager | Running(s) && Holds(s, code) :: LoadRight(s, code, dst, base, offset)
  }

  /** The same condition is exact for the load. */
  lemma LoadExactly(code: seq<Line>, dst: int, base: int, offset: int)
    requires IsReg(dst) && IsReg(base) && Written(code, dst, base, offset, true)
    ensures AlwaysLoad(code, dst, base, offset) <==> !(Far(offset, true) && dst == base)
  {
    if Far(offset, true) && dst == base {
      var s := FarLoad(code, dst, offset);
      LoadWrong(s, code, dst, offset);
    } else {
      forall s: Eager | Running(s) && Holds(s, code) ensures LoadRight(s, code, dst, base, offset) {
        NearLoad(s, code, dst, base, offset);
      }
    }
  }
}
