/**
 Lowering of conditions: AND, OR, NOT, comparisons and constants become
 conditional jumps to a true or a false label, falling through otherwise.
 */
module ShortCircuit {

  type Label = nat

  datatype Rel = EQ | NE | GT | GE | LE | LT

  predicate Holds(op: Rel, x: int, y: int) {
    match op
    case EQ => x == y
    case NE => x != y
    case GT => x > y
    case GE => x >= y
    case LE => x <= y
    case LT => x < y
  }

  /** Which comparisons are true, by the sign of the difference. */
  lemma HoldsBySign(x: int, y: int)
    ensures (Holds(EQ, x, y) <==> x - y == 0) && (Holds(NE, x, y) <==> x - y != 0)
    ensures (Holds(LT, x, y) <==> x - y < 0) && (Holds(LE, x, y) <==> x - y <= 0)
    ensures (Holds(GT, x, y) <==> x - y > 0) && (Holds(GE, x, y) <==> x - y >= 0)
  {
  }

  /** The relation tested to jump when the comparison is false. */
  function Negate(op: Rel): Rel {
    match op
    case EQ => NE
    case NE => EQ
    case GT => LE
    case LT => GE
    case GE => LT
    case LE => GT
  }

  /** A condition over numbered operands. */
  datatype Cond = Compare(op: Rel, l: nat, r: nat) | Const(v: int) | Not(c: Cond) | And(a: Cond, b: Cond)
    | Or(a: Cond, b: Cond)

  /** The value of an operand, which may depend on the operands evaluated before it. */
  type Oracle = (seq<nat>, nat) -> int

  /** What C demands: the truth of a condition and the operands evaluated for it, in order, after `done`. */
  function Eval(c: Cond, o: Oracle, done: seq<nat>): (bool, seq<nat>) {
    match c
    case Compare(op, l, r) => (Holds(op, o(done, l), o(done + [l], r)), done + [l, r])
    case Const(v) => (v != 0, done)
    case Not(d) => var (x, t) := Eval(d, o, done); (!x, t)
    case And(a, b) => var (x, t) := Eval(a, o, done); if x then Eval(b, o, t) else (false, t)
    case Or(a, b) => var (x, t) := Eval(a, o, done); if x then (true, t) else Eval(b, o, t)
  }

  // ---------------------------------------------------------------------- code

  datatype Instr = Test(op: Rel, l: nat, r: nat, lab: Label) | Goto(lab: Label) | Define(lab: Label)

  /** Code leaves at a label that it does not define ahead, or at its end. */
  datatype Outcome = Exit(lab: Label, done: seq<nat>) | Through(done: seq<nat>)

  function Run(code: seq<Instr>, o: Oracle, done: seq<nat>): Outcome
    decreases |code|, 0
  {
    if code == [] then Through(done)
    else match code[0]
      case Test(op, l, r, lab) =>
        if Holds(op, o(done, l), o(done + [l], r)) then Jump(code[1..], lab, o, done + [l, r])
        else Run(code[1..], o, done + [l, r])
      case Goto(lab) => Jump(code[1..], lab, o, done)
      case Define(_) => Run(code[1..], o, done)
  }

  function Jump(code: seq<Instr>, lab: Label, o: Oracle, done: seq<nat>): Outcome
    decreases |code|, 1
  {
    if code == [] then Exit(lab, done)
    else if code[0] == Define(lab) then Run(code[1..], o, done)
    else Jump(code[1..], lab, o, done)
  }

  ghost predicate Defines(code: seq<Instr>, lo: Label, hi: Label) {
    forall i :: 0 <= i < |code| && code[i].Define? ==> lo <= code[i].lab < hi
  }

  lemma {:induction false} JumpOver(a: seq<Instr>, b: seq<Instr>, lab: Label, o: Oracle, done: seq<nat>)
    requires Define(lab) !in a
    ensures Jump(a + b, lab, o, done) == Jump(b, lab, o, done)
  {
    if a == [] {
      assert a + b == b;
    } else {
      assert (a + b)[1..] == a[1..] + b;
      JumpOver(a[1..], b, lab, o, done);
    }
  }

  /** In front of any code, `code` goes to lab exactly when c is `sense`, having evaluated exactly what C evaluates. */
  ghost predicate Implements(code: seq<Instr>, c: Cond, sense: bool, lab: Label) {
    forall rest, o, done :: Run(code + rest, o, done) == Branched(c, sense, lab, rest, o, done)
  }

  ghost function Branched(c: Cond, sense: bool, lab: Label, rest: seq<Instr>, o: Oracle, done: seq<nat>): Outcome {
    var (x, t) := Eval(c, o, done);
    if x == sense then Jump(rest, lab, o, t) else Run(rest, o, t)
  }

  /** Both operands jump to the same label: c1 first, c2 only if c1 fell through. */
  lemma SameTarget(code1: seq<Instr>, code2: seq<Instr>, a: Cond, b: Cond, sense: bool, lab: Label)
    requires Implements(code1, a, sense, lab) && Implements(code2, b, sense, lab) && Define(lab) !in code2
    ensures Implements(code1 + code2, if sense then Or(a, b) else And(a, b), sense, lab)
  {
    var c := if sense then Or(a, b) else And(a, b);
    forall rest, o, done ensures Run(code1 + code2 + rest, o, done) == Branched(c, sense, lab, rest, o, done) {
      assert code1 + code2 + rest == code1 + (code2 + rest);
      JumpOver(code2, rest, lab, o, Eval(a, o, done).1);
    }
  }

  /** The first operand skips the second by jumping to a new label behind it. */
  lemma SkipTarget(code1: seq<Instr>, code2: seq<Instr>, a: Cond, b: Cond, sense: bool, lab: Label, skip: Label)
    requires Implements(code1, a, !sense, skip) && Implements(code2, b, sense, lab)
    requires Define(skip) !in code2 && lab != skip
    ensures Implements(code1 + code2 + [Define(skip)], if sense then And(a, b) else Or(a, b), sense, lab)
  {
    var c := if sense then And(a, b) else Or(a, b);
    forall rest, o, done
      ensures Run(code1 + code2 + [Define(skip)] + rest, o, done) == Branched(c, sense, lab, rest, o, done)
    {
      var after := [Define(skip)] + rest;
      assert code1 + code2 + [Define(skip)] + rest == code1 + (code2 + after);
      assert after[1..] == rest;
      JumpOver(code2, after, skip, o, Eval(a, o, done).1);
    }
  }

  /** Lists a condition with a true label (sense) or a false label (!sense), numbering new labels from `next`. */
  method ListCond(c: Cond, sense: bool, lab: Label, next: Label) returns (code: seq<Instr>, next': Label)
    requires lab < next
    ensures next <= next' && Defines(code, next, next')
    ensures Implements(code, c, sense, lab)
    decreases c
  {
    next' := next;
    match c {
      case Compare(op, l, r) =>
        code := [Test(if sense then op else Negate(op), l, r, lab)];
        assert forall rest :: code + rest != [] && (code + rest)[0] == code[0] && (code + rest)[1..] == rest;
      case Const(v) =>
        code := if sense && v != 0 then [Goto(lab)] else if !sense && v == 0 then [Goto(lab)] else [];
        assert forall rest: seq<Instr> :: [] + rest == rest && ([Goto(lab)] + rest)[1..] == rest;
      case Not(d) =>
        code, next' := ListCond(d, !sense, lab, next);
      case And(a, b) =>
        code, next' := ListPair(a, b, sense, lab, next, !sense);
      case Or(a, b) =>
        code, next' := ListPair(a, b, sense, lab, next, sense);
    }
  }

  /** Two operands that share the target, or of which the first skips over the second. */
  method ListPair(a: Cond, b: Cond, sense: bool, lab: Label, next: Label, share: bool)
    returns (code: seq<Instr>, next': Label)
    requires lab < next
    ensures next <= next' && Defines(code, next, next')
    ensures Implements(code, if share == sense then Or(a, b) else And(a, b), sense, lab)
    decreases if share == sense then Or(a, b) else And(a, b), 0
  {
    var code1, code2;
    if share {
      code1, next' := ListCond(a, sense, lab, next);
      code2, next' := ListCond(b, sense, lab, next');
      code := code1 + code2;
      SameTarget(code1, code2, a, b, sense, lab);
    } else {
      var skip := next;
      code1, next' := ListCond(a, !sense, skip, next + 1);
      code2, next' := ListCond(b, sense, lab, next');
      code := code1 + code2 + [Define(skip)];
      SkipTarget(code1, code2, a, b, sense, lab, skip);
    }
  }
}
