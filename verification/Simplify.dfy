/**
 Constant folding and strength reduction on integer expressions of one size,
 and why the trees that are built mean what the expressions mean.
 */
module Simplify {
  import opened Bits

  // ------------------------------------------------------------------------- values

  /** Signed or unsigned. */
  datatype Kind = I | U

  function Min(n: nat): int
    requires n > 0
  {
    -(P(n - 1) as int)
  }

  function Max(n: nat): int
    requires n > 0
  {
    P(n - 1) - 1
  }

  predicate InRange(n: nat, k: Kind, v: int)
    requires n > 0
  {
    if k == U then 0 <= v < P(n) else Min(n) <= v <= Max(n)
  }

  /** The remainder of v modulo m. */
  function Mod(v: int, m: nat): (r: nat)
    requires m > 0
    ensures r < m
    decreases if v < 0 then m - v else v
  {
    if v < 0 then Mod(v + m, m) else if v < m then v else Mod(v - m, m)
  }

  lemma {:induction false} ModShift(x: int, y: int, q: int, m: nat)
    requires m > 0 && x == y + q * m
    ensures Mod(x, m) == Mod(y, m)
    decreases if q < 0 then -q else q
  {
    if q > 0 {
      Distribute(q, 1, m);
      ModShift(x - m, y, q - 1, m);
    } else if q < 0 {
      Distribute(q, -1, m);
      ModShift(x + m, y, q + 1, m);
    }
  }

  lemma {:induction false} ModBy(v: int, m: nat) returns (q: int)
    requires m > 0
    ensures Mod(v, m) == v + q * m
    decreases if v < 0 then m - v else v
  {
    q := 0;
    if v < 0 {
      q := ModBy(v + m, m);
      Distribute(q, -1, m);
      q := q + 1;
    } else if v >= m {
      q := ModBy(v - m, m);
      Distribute(q, 1, m);
      q := q - 1;
    }
  }

  /** The value of kind k that v wraps to in n bits. */
  function Wrap(n: nat, k: Kind, v: int): (r: int)
    requires n > 0
    ensures InRange(n, k, r)
  {
    if k == U then Mod(v, P(n)) else Mod(v + P(n - 1), P(n)) - P(n - 1)
  }

  lemma {:induction false} WrapSame(n: nat, k: Kind, x: int, y: int, q: int)
    requires n > 0 && x == y + q * P(n)
    ensures Wrap(n, k, x) == Wrap(n, k, y)
  {
    ModShift(x, y, q, P(n));
    ModShift(x + P(n - 1), y + P(n - 1), q, P(n));
  }

  lemma Sum(x: int, y: int, m: int)
    ensures (x + y) * m == x * m + y * m
  {
  }

  /** Wrapping adds a multiple of two to the n. */
  lemma WrapBy(n: nat, k: Kind, v: int) returns (q: int)
    requires n > 0
    ensures Wrap(n, k, v) == v + q * P(n)
  {
    q := ModBy(if k == U then v else v + P(n - 1), P(n));
  }

  lemma WrapInRange(n: nat, k: Kind, v: int)
    requires n > 0 && InRange(n, k, v)
    ensures Wrap(n, k, v) == v
  {
  }

  // ------------------------------------------------------- overflow of signed constants

  /** Sums that are accepted, given that the operands are in range: those that are in range. */
  function Addi(x: int, y: int, min: int, max: int, needconst: bool): (r: bool)
    ensures min <= x <= max && min <= y <= max ==> (r <==> needconst || min <= x + y <= max)
  {
    var cond := x == 0 || y == 0 || (x < 0 && y < 0 && x >= min - y) || (x < 0 && y > 0) || (x > 0 && y < 0)
      || (x > 0 && y > 0 && x <= max - y);
    cond || needconst
  }

  function Subi(x: int, y: int, min: int, max: int, needconst: bool): bool { Addi(x, -y, min, max, needconst) }

  /** Differences that are accepted: those that are in range, and zero less the least value. */
  lemma SubiExactly(x: int, y: int, max: int)
    requires 0 <= max && -max - 1 <= x <= max && -max - 1 <= y <= max
    ensures Subi(x, y, -max - 1, max, false) <==> -max - 1 <= x - y <= max || (x == 0 && y == -max - 1)
  {
  }

  /** Division that rounds toward zero. */
  function Trunc(x: int, y: int): int
    requires y != 0
  {
    var q := (if x < 0 then -x else x) / (if y < 0 then -y else y);
    if (x < 0) == (y < 0) then q else -q
  }

  function Rem(x: int, y: int): int
    requires y != 0
  {
    x - Trunc(x, y) * y
  }

  function Divi(x: int, y: int, min: int, max: int, needconst: bool): bool {
    (y != 0 && !(x == min && y == -1)) || needconst
  }

  function Muli(x: int, y: int, min: int, max: int, needconst: bool): bool {
    var cond :=
      || -1 < x <= 1 || -1 < y <= 1
      || (x < 0 && y < 0 && -x <= Trunc(max, -y)) || (x < 0 && y > 0 && x >= Trunc(min, y))
      || (x > 0 && y < 0 && y >= Trunc(min, x)) || (x > 0 && y > 0 && x <= Trunc(max, y));
    cond || needconst
  }

  lemma QuotientLe(a: int, b: nat, m: nat)
    requires b > 0
    ensures a <= m / b <==> a * b <= m
  {
    if a <= m / b {
      Scale(a, m / b, b);
    } else {
      Scale(m / b + 1, a, b);
    }
  }

  /** Products that are accepted: those that are in range. */
  lemma MuliExactly(x: int, y: int, min: int, max: int)
    requires min < 0 <= max && min <= x <= max && min <= y <= max
    ensures Muli(x, y, min, max, false) <==> min <= x * y <= max
  {
    if x < 0 && y < 0 {
      QuotientLe(-x, -y, max);
      Scale(1, -x, -y);
      assert (-x) * (-y) == x * y;
    } else if x < 0 && y > 1 {
      QuotientLe(-x, y, -min);
      assert (-x) * y == -(x * y);
      Scale(1, -x, y);
    } else if x > 1 && y < 0 {
      QuotientLe(-y, x, -min);
      assert (-y) * x == -(x * y);
      Scale(1, x, -y);
    } else if x > 1 && y > 1 {
      QuotientLe(x, y, max);
      Scale(1, x, y);
    }
  }

  /** A quotient is no further from zero than the dividend, and nearer unless the divisor is one or minus one. */
  lemma TruncBound(x: int, y: int)
    requires y != 0
    ensures y == 1 ==> Trunc(x, y) == x
    ensures y == -1 ==> Trunc(x, y) == -x
    ensures y != 1 && y != -1 && x != 0 ==> var a := if x < 0 then -x else x; -a < Trunc(x, y) < a
    ensures x == 0 ==> Trunc(x, y) == 0
  {
    var a, b := if x < 0 then -x else x, if y < 0 then -y else y;
    Smaller(a, b);
    var q := a / b;
    assert 0 <= q <= a && (b > 1 && a > 0 ==> q < a) && (b == 1 ==> q == a);
  }

  /** Quotients that are accepted: those that exist and are in range. */
  lemma DiviExactly(x: int, y: int, min: int, max: int)
    requires max >= 0 && min == -max - 1 && min <= x <= max && min <= y <= max
    ensures Divi(x, y, min, max, false) <==> y != 0 && min <= Trunc(x, y) <= max
  {
    if y != 0 {
      TruncBound(x, y);
    }
  }

  lemma Smaller(a: nat, b: nat)
    requires b > 0
    ensures 0 <= a / b <= a && (b > 1 && a > 0 ==> a / b < a) && (b == 1 ==> a / b == a)
  {
    var q, r := a / b, a % b;
    assert a == q * b + r && 0 <= r < b;
    SmallerBy(a, b, q, r);
  }

  lemma SmallerBy(a: nat, b: nat, q: int, r: nat)
    requires b > 0 && a == q * b + r && r < b
    ensures 0 <= q <= a && (b > 1 && a > 0 ==> q < a) && (b == 1 ==> q == a)
  {
    if q < 0 {
      Scale(q, -1, b);
    } else {
      Scale(1, b, q);
      if b > 1 {
        Scale(2, b, q);
      }
    }
  }

  // --------------------------------------------------------------------------- trees

  datatype Op = ADD | SUB | MUL | DIV | MOD | BAND | BOR | BXOR | LSH | RSH | EQ | NE | LT | LE | GT | GE

  /** Negation, complement, and the conversions between signed and unsigned numbers of one size. */
  datatype UnOp = NEG | BCOM | CVIU | CVUI

  /** Expression trees; `k` is the kind of the operands, and of the first one for a shift. */
  datatype Tree =
    | Cnst(k: Kind, v: int)
    | Leaf(k: Kind, id: nat)
    | Un(uop: UnOp, k: Kind, l: Tree)
    | Bin(op: Op, k: Kind, l: Tree, r: Tree)
    | Right(l: Tree, r: Tree)

  function BitOpOf(op: Op): BitOp { if op == BAND then BitAnd else if op == BOR then BitOr else BitXor }

  predicate Compare(op: Op, a: int, b: int) {
    match op
    case EQ => a == b
    case NE => a != b
    case LT => a < b
    case LE => a <= b
    case GT => a > b
    case _ => a >= b
  }

  /** What the target computes: results wrap around. */
  function Apply(n: nat, op: Op, k: Kind, a: int, b: int): int
    requires n > 0
  {
    match op
    case ADD => Wrap(n, k, a + b)
    case SUB => Wrap(n, k, a - b)
    case MUL => Wrap(n, k, a * b)
    case DIV => if b == 0 then 0 else Wrap(n, k, Trunc(a, b))
    case MOD => if b == 0 then 0 else Wrap(n, k, Rem(a, b))
    case BAND => Wrap(n, k, Bitwise(BitAnd, a, b, n))
    case BOR => Wrap(n, k, Bitwise(BitOr, a, b, n))
    case BXOR => Wrap(n, k, Bitwise(BitXor, a, b, n))
    case LSH => if b < 0 then 0 else Wrap(n, k, a * P(b))
    case RSH => if b < 0 then 0 else Wrap(n, k, a / P(b))
    case _ => if Compare(op, a, b) then 1 else 0
  }

  function ApplyUn(n: nat, op: UnOp, k: Kind, a: int): int
    requires n > 0
  {
    match op
    case NEG => Wrap(n, k, -a)
    case BCOM => Wrap(n, k, -a - 1)
    case CVIU => Wrap(n, U, a)
    case CVUI => Wrap(n, I, a)
  }

  function UnKind(op: UnOp, k: Kind): Kind { if op == CVIU then U else if op == CVUI then I else k }

  /** The operand kinds of the unary operators. */
  predicate Takes(op: UnOp, k: Kind) { op == BCOM || (if op == CVUI then k == U else k == I) }

  type Env = nat -> int

  function Eval(n: nat, t: Tree, env: Env): int
    requires n > 0
  {
    match t
    case Cnst(k, v) => Wrap(n, k, v)
    case Leaf(k, id) => Wrap(n, k, env(id))
    case Un(op, k, l) => ApplyUn(n, op, k, Eval(n, l, env))
    case Bin(op, k, l, r) => Apply(n, op, k, Eval(n, l, env), Eval(n, r, env))
    case Right(l, r) => Eval(n, r, env)
  }

  predicate IsCompare(op: Op) { op in {EQ, NE, LT, LE, GT, GE} }

  predicate IsShift(op: Op) { op == LSH || op == RSH }

  function KindOf(t: Tree): Kind {
    match t
    case Cnst(k, _) => k
    case Leaf(k, _) => k
    case Un(op, k, _) => UnKind(op, k)
    case Bin(op, k, _, _) => if IsCompare(op) then I else k
    case Right(_, r) => KindOf(r)
  }

  /** Well typed, constants in range, and no signed sum or difference of two constants left to fold. */
  predicate Good(n: nat, t: Tree)
    requires n > 0
  {
    match t
    case Cnst(k, v) => InRange(n, k, v)
    case Leaf(_, _) => true
    case Un(op, k, l) => Good(n, l) && KindOf(l) == k && Takes(op, k)
    case Bin(op, k, l, r) =>
      && Good(n, l) && Good(n, r) && KindOf(l) == k && KindOf(r) == (if IsShift(op) then I else k)
      && ((op == ADD || op == SUB) && k == I ==> !(l.Cnst? && r.Cnst?))
    case Right(l, r) => Good(n, l) && Good(n, r)
  }

  /** A tree of the kind of the operation's result. */
  function ResultKind(op: Op, k: Kind): Kind { if IsCompare(op) then I else k }

  predicate Fits(n: nat, op: Op, k: Kind, l: Tree, r: Tree)
    requires n > 0
  {
    Good(n, l) && Good(n, r) && KindOf(l) == k && KindOf(r) == (if IsShift(op) then I else k)
  }

  /** t has the value and the kind of the operation. */
  predicate Means(n: nat, t: Tree, op: Op, k: Kind, l: Tree, r: Tree, env: Env)
    requires n > 0
  {
    Eval(n, t, env) == Apply(n, op, k, Eval(n, l, env), Eval(n, r, env)) && KindOf(t) == ResultKind(op, k)
  }

  lemma {:induction false} EvalInRange(n: nat, t: Tree, env: Env)
    requires n > 1 && Good(n, t)
    ensures InRange(n, KindOf(t), Eval(n, t, env))
    decreases t
  {
    WrapInRange(n, I, 0);
    WrapInRange(n, I, 1);
    if t.Right? {
      EvalInRange(n, t.r, env);
    }
  }

  // ---------------------------------------------------------------------- simplifying

  function MakeCnst(n: nat, k: Kind, v: int): Tree { Cnst(k, if k == U then Mod(v, P(n)) else v) }

  /** A constant operand of a commutative operation goes to the right. */
  function Commuted(l: Tree, r: Tree): (Tree, Tree) { if l.Cnst? && !r.Cnst? then (r, l) else (l, r) }

  predicate Constants(k: Kind, l: Tree, r: Tree) { l.Cnst? && l.k == k && r.Cnst? && r.k == k }

  function SimpAdd(n: nat, k: Kind, l: Tree, r: Tree): Tree
    requires n > 0
  {
    if Constants(k, l, r) && (k == I ==> Addi(l.v, r.v, Min(n), Max(n), false)) then MakeCnst(n, k, l.v + r.v)
    else
      var (l', r') := Commuted(l, r);
      if r' == Cnst(k, 0) then l' else Bin(ADD, k, l', r')
  }

  function SimpSub(n: nat, k: Kind, l: Tree, r: Tree): Tree
    requires n > 0
  {
    if Constants(k, l, r) && (k == I ==> Subi(l.v, r.v, Min(n), Max(n), false)) then MakeCnst(n, k, l.v - r.v)
    else if r == Cnst(k, 0) then l
    else Bin(SUB, k, l, r)
  }

  /** Bitwise and, or, exclusive or. */
  function SimpBits(n: nat, op: Op, k: Kind, l: Tree, r: Tree): Tree
    requires n > 0
  {
    if Constants(k, l, r) then Cnst(k, Wrap(n, k, Bitwise(BitOpOf(op), l.v, r.v, n)))
    else
      var (l', r') := Commuted(l, r);
      if op == BAND then
        if r' == Cnst(k, P(n) - 1) then l'
        else if r' == Cnst(k, 0) then Right(l', Cnst(k, 0))
        else Bin(op, k, l', r')
      else if r' == Cnst(k, 0) then l'
      else Bin(op, k, l', r')
  }

  /** One shifted in the host's 32-bit ints. */
  function HostOne(s: nat): int { if s == 31 then -0x8000_0000 else P(s) }

  function SimpLsh(n: nat, k: Kind, l: Tree, r: Tree): Tree
    requires n > 0
  {
    if r == Cnst(I, 0) then l
    else if l.Cnst? && l.k == k && r.Cnst? && r.k == I && 0 <= r.v < n
      && (k == I ==> Muli(l.v, HostOne(r.v), Min(n), Max(n), false)) then MakeCnst(n, k, l.v * P(r.v))
    else Bin(LSH, k, l, r)
  }

  function SimpRsh(n: nat, k: Kind, l: Tree, r: Tree): Tree
    requires n > 0
  {
    if r == Cnst(I, 0) then l
    else if l.Cnst? && l.k == k && r.Cnst? && r.k == I && 0 <= r.v < n then MakeCnst(n, k, l.v / P(r.v))
    else Bin(RSH, k, l, r)
  }

  function TreeSize(t: Tree): nat {
    match t
    case Un(_, _, l) => 1 + TreeSize(l)
    case Bin(_, _, l, r) => 1 + TreeSize(l) + TreeSize(r)
    case Right(l, r) => 1 + TreeSize(l) + TreeSize(r)
    case _ => 1
  }

  function SimpMul(n: nat, k: Kind, l0: Tree, r0: Tree): Tree
    requires n > 0
    decreases TreeSize(l0) + TreeSize(r0)
  {
    var (r, l) := Commuted(r0, l0);
    var power := if l.Cnst? && l.k == k && (k == I ==> l.v > 0) then PowerOf(l.v) else 0;
    if k == U && power != 0 then SimpLsh(n, k, r, Cnst(I, power))
    else if Constants(k, l, r) && (k == I ==> Muli(l.v, r.v, Min(n), Max(n), false)) then MakeCnst(n, k, l.v * r.v)
    else if k == I && l.Cnst? && l.k == I && r.Bin? && r.op == ADD && r.k == I && r.r.Cnst? && r.r.k == I then
      SimpAdd(n, k, SimpMul(n, k, l, r.l), SimpMul(n, k, l, r.r))
    else if k == I && l.Cnst? && l.k == I && r.Bin? && r.op == SUB && r.k == I && r.r.Cnst? && r.r.k == I then
      SimpSub(n, k, SimpMul(n, k, l, r.l), SimpMul(n, k, l, r.r))
    else if power != 0 then SimpLsh(n, k, r, Cnst(I, power))
    else if r == Cnst(k, 1) then l
    else Bin(MUL, k, l, r)
  }

  function SimpDiv(n: nat, k: Kind, l: Tree, r: Tree): Tree
    requires n > 0
  {
    if r == Cnst(k, 1) then l
    else if r == Cnst(k, 0) || (k == I && l == Cnst(I, Min(n)) && r == Cnst(I, -1)) then Bin(DIV, k, l, r)
    else if k == U && r.Cnst? && r.k == U && PowerOf(r.v) != 0 then SimpRsh(n, k, l, Cnst(I, PowerOf(r.v)))
    else if Constants(k, l, r) && Divi(l.v, r.v, Min(n), Max(n), false) then MakeCnst(n, k, Trunc(l.v, r.v))
    else Bin(DIV, k, l, r)
  }

  function SimpMod(n: nat, k: Kind, l: Tree, r: Tree): Tree
    requires n > 0
  {
    if k == U && r.Cnst? && r.k == U && PowerOf(r.v) != 0 then SimpBits(n, BAND, k, l, MakeCnst(n, k, r.v - 1))
    else if r == Cnst(k, 0) || (k == I && l == Cnst(I, Min(n)) && r == Cnst(I, -1)) then Bin(MOD, k, l, r)
    else if Constants(k, l, r) && Divi(l.v, r.v, Min(n), Max(n), false) then MakeCnst(n, k, Rem(l.v, r.v))
    else if k == I && r == Cnst(I, 1) then Right(l, Cnst(I, 0))
    else Bin(MOD, k, l, r)
  }

  function Truth(b: bool): Tree { Cnst(I, if b then 1 else 0) }

  function SimpEqual(op: Op, k: Kind, l: Tree, r: Tree): Tree {
    if Constants(k, l, r) then Truth(Compare(op, l.v, r.v))
    else
      var (l', r') := Commuted(l, r);
      Bin(op, k, l', r')
  }

  /** Ordered comparisons; an unsigned number is never below zero, and above it exactly when it differs from it. */
  function SimpOrder(op: Op, k: Kind, l: Tree, r: Tree): Tree {
    if k == U && (op == GE || op == LT) && r == Cnst(U, 0) then Right(l, Truth(op == GE))
    else if k == U && (op == LE || op == GT) && l == Cnst(U, 0) then Right(r, Truth(op == LE))
    else if Constants(k, l, r) then Truth(Compare(op, l.v, r.v))
    else if k == U && (op == GE || op == LT) && l == Cnst(U, 0) then SimpEqual(if op == GE then EQ else NE, k, r, l)
    else if k == U && (op == LE || op == GT) && r == Cnst(U, 0) then SimpEqual(if op == LE then EQ else NE, k, l, r)
    else Bin(op, k, l, r)
  }

  /** Unary operators: constants are folded while they stay in range, and double negations and complements cancel. */
  function SimpUn(n: nat, op: UnOp, k: Kind, l: Tree): Tree
    requires n > 0
  {
    match op
    case NEG =>
      if l.Cnst? && l.k == I && l.v != Min(n) then Cnst(I, -l.v)
      else if l.Un? && l.uop == NEG then l.l
      else Un(op, k, l)
    case BCOM =>
      if l.Cnst? && l.k == k then Cnst(k, Wrap(n, k, -l.v - 1))
      else if l.Un? && l.uop == BCOM && l.k == U then l.l
      else Un(op, k, l)
    case CVIU => if l.Cnst? && l.k == I && 0 <= l.v then Cnst(U, l.v) else Un(op, k, l)
    case CVUI => if l.Cnst? && l.k == U && l.v <= Max(n) then Cnst(I, l.v) else Un(op, k, l)
  }

  function Simplify(n: nat, op: Op, k: Kind, l: Tree, r: Tree): Tree
    requires n > 0
  {
    match op
    case ADD => SimpAdd(n, k, l, r)
    case SUB => SimpSub(n, k, l, r)
    case MUL => SimpMul(n, k, l, r)
    case DIV => SimpDiv(n, k, l, r)
    case MOD => SimpMod(n, k, l, r)
    case BAND => SimpBits(n, op, k, l, r)
    case BOR => SimpBits(n, op, k, l, r)
    case BXOR => SimpBits(n, op, k, l, r)
    case LSH => SimpLsh(n, k, l, r)
    case RSH => SimpRsh(n, k, l, r)
    case EQ => SimpEqual(op, k, l, r)
    case NE => SimpEqual(op, k, l, r)
    case _ => SimpOrder(op, k, l, r)
  }

  // --------------------------------------------------------- each operation by itself

  lemma {:induction false} ConstEval(n: nat, t: Tree, env: Env)
    requires n > 0 && Good(n, t) && t.Cnst?
    ensures Eval(n, t, env) == t.v
  {
    WrapInRange(n, t.k, t.v);
  }

  lemma {:induction false} MakeEval(n: nat, k: Kind, v: int, env: Env)
    requires n > 0
    ensures Eval(n, MakeCnst(n, k, v), env) == Wrap(n, k, v) && KindOf(MakeCnst(n, k, v)) == k
    ensures k == U || InRange(n, k, v) ==> Good(n, MakeCnst(n, k, v))
  {
  }

  /** Two constants that are replaced by one. */
  lemma {:induction false} Folded(n: nat, op: Op, k: Kind, l: Tree, r: Tree, v: int, env: Env)
    requires n > 0 && Fits(n, op, k, l, r) && l.Cnst? && r.Cnst? && !IsCompare(op)
      && Apply(n, op, k, l.v, r.v) == Wrap(n, k, v)
    ensures Means(n, MakeCnst(n, k, v), op, k, l, r, env)
    ensures k == U || InRange(n, k, v) ==> Good(n, MakeCnst(n, k, v))
  {
    ConstEval(n, l, env);
    ConstEval(n, r, env);
    MakeEval(n, k, v, env);
  }

  predicate Commutative(op: Op) { op in {ADD, MUL, BAND, BOR, BXOR, EQ, NE} }

  lemma ApplyCommutes(n: nat, op: Op, k: Kind, a: int, b: int)
    requires n > 0 && Commutative(op)
    ensures Apply(n, op, k, a, b) == Apply(n, op, k, b, a)
  {
    assert a * b == b * a;
    BitwiseCommutes(BitOpOf(op), a, b, n);
  }

  /** Exchanging the operands of a commutative operation. */
  lemma Commutes(n: nat, op: Op, k: Kind, t: Tree, l: Tree, r: Tree, env: Env)
    requires n > 0 && Commutative(op) && Means(n, t, op, k, l, r, env)
    ensures Means(n, t, op, k, r, l, env)
  {
    ApplyCommutes(n, op, k, Eval(n, l, env), Eval(n, r, env));
  }

  /** An operand that leaves the other as it is. */
  lemma Identity(n: nat, op: Op, k: Kind, l: Tree, r: Tree, env: Env)
    requires n > 1 && Fits(n, op, k, l, r) && r.Cnst? && !IsCompare(op)
    requires forall a :: InRange(n, k, a) ==> Apply(n, op, k, a, r.v) == Wrap(n, k, a)
    ensures Means(n, l, op, k, l, r, env)
  {
    ConstEval(n, r, env);
    EvalInRange(n, l, env);
    WrapInRange(n, k, Eval(n, l, env));
  }

  lemma {:induction false} AddMeans(n: nat, k: Kind, l: Tree, r: Tree, env: Env)
    requires n > 1 && Fits(n, ADD, k, l, r)
    ensures Means(n, SimpAdd(n, k, l, r), ADD, k, l, r, env)
    ensures k == U || (l.Cnst? && r.Cnst? ==> InRange(n, I, l.v + r.v)) ==> Good(n, SimpAdd(n, k, l, r))
  {
    var t := SimpAdd(n, k, l, r);
    if Constants(k, l, r) && (k == I ==> Addi(l.v, r.v, Min(n), Max(n), false)) {
      Folded(n, ADD, k, l, r, l.v + r.v, env);
    } else {
      var (l', r') := Commuted(l, r);
      if r' == Cnst(k, 0) {
        Identity(n, ADD, k, l', r', env);
      }
      if l' != l {
        Commutes(n, ADD, k, t, l', r', env);
      }
    }
  }

  lemma {:induction false} SubMeans(n: nat, k: Kind, l: Tree, r: Tree, env: Env)
    requires n > 1 && Fits(n, SUB, k, l, r)
    ensures Means(n, SimpSub(n, k, l, r), SUB, k, l, r, env)
    ensures k == U || (l.Cnst? && r.Cnst? ==> InRange(n, I, l.v - r.v)) ==> Good(n, SimpSub(n, k, l, r))
  {
    if k == I && l.Cnst? && r.Cnst? {
      SubiExactly(l.v, r.v, Max(n));
    }
    if Constants(k, l, r) && (k == I ==> Subi(l.v, r.v, Min(n), Max(n), false)) {
      Folded(n, SUB, k, l, r, l.v - r.v, env);
    } else if r == Cnst(k, 0) {
      Identity(n, SUB, k, l, r, env);
    }
  }

  lemma DivMod(v: int, m: nat)
    requires m > 0
    ensures v == v % m + v / m * m
  {
  }

  lemma {:induction false} WrapMod(n: nat, k: Kind, v: int)
    requires n > 0
    ensures Wrap(n, k, v % P(n)) == Wrap(n, k, v)
  {
    DivMod(v, P(n));
    WrapSame(n, k, v, v % P(n), v / P(n));
  }

  /** Operations with zero, and with all ones. */
  lemma {:induction false} BitsUnits(n: nat, k: Kind, a: int)
    requires n > 0 && InRange(n, k, a)
    ensures Wrap(n, k, Bitwise(BitAnd, a, P(n) - 1, n)) == a && Wrap(n, k, Bitwise(BitAnd, a, 0, n)) == Wrap(n, k, 0)
    ensures Wrap(n, k, Bitwise(BitOr, a, 0, n)) == a && Wrap(n, k, Bitwise(BitXor, a, 0, n)) == a
  {
    WrapInRange(n, k, a);
    WrapMod(n, k, a);
    AndMask(a, n, n);
    AndZero(a, n);
    OrXorZero(BitOr, a, n);
    OrXorZero(BitXor, a, n);
  }

  lemma {:induction false} BitsFold(n: nat, op: Op, k: Kind, l: Tree, r: Tree, env: Env)
    requires n > 1 && op in {BAND, BOR, BXOR} && Fits(n, op, k, l, r) && l.Cnst? && r.Cnst?
    ensures var t := Cnst(k, Wrap(n, k, Bitwise(BitOpOf(op), l.v, r.v, n))); Means(n, t, op, k, l, r, env) && Good(n, t)
  {
    ConstEval(n, l, env);
    ConstEval(n, r, env);
    WrapInRange(n, k, Wrap(n, k, Bitwise(BitOpOf(op), l.v, r.v, n)));
  }

  lemma {:induction false} BitsIdentity(n: nat, op: Op, k: Kind, c: int)
    requires n > 0 && ((op == BAND && c == P(n) - 1) || ((op == BOR || op == BXOR) && c == 0))
    ensures forall a :: InRange(n, k, a) ==> Apply(n, op, k, a, c) == Wrap(n, k, a)
  {
    forall a | InRange(n, k, a) ensures Apply(n, op, k, a, c) == Wrap(n, k, a) {
      BitsUnits(n, k, a);
      WrapInRange(n, k, a);
    }
  }

  lemma BitsClear(n: nat, k: Kind, l: Tree, r: Tree, env: Env)
    requires n > 1 && Fits(n, BAND, k, l, r) && r == Cnst(k, 0)
    ensures Means(n, Right(l, r), BAND, k, l, r, env)
  {
    ConstEval(n, r, env);
    AndZero(Eval(n, l, env), n);
  }

  lemma {:induction false} BitsUnit(n: nat, op: Op, k: Kind, l: Tree, r: Tree, env: Env)
    requires n > 1 && op in {BAND, BOR, BXOR} && Fits(n, op, k, l, r)
    requires r == Cnst(k, if op == BAND then P(n) - 1 else 0)
    ensures Means(n, l, op, k, l, r, env)
  {
    BitsIdentity(n, op, k, r.v);
    Identity(n, op, k, l, r, env);
  }

  lemma {:induction false} BitsKept(n: nat, op: Op, k: Kind, l: Tree, r: Tree, env: Env)
    requires n > 1 && op in {BAND, BOR, BXOR} && Fits(n, op, k, l, r)
    ensures Means(n, Bin(op, k, l, r), op, k, l, r, env) && Good(n, Bin(op, k, l, r))
  {
  }

  /** What becomes of the operation with the constant, if there is one, on the right. */
  function BitsTree(n: nat, op: Op, k: Kind, l: Tree, r: Tree): Tree {
    if r == Cnst(k, if op == BAND then P(n) - 1 else 0) then l
    else if op == BAND && r == Cnst(k, 0) then Right(l, r)
    else Bin(op, k, l, r)
  }

  lemma {:induction false} BitsRight(n: nat, op: Op, k: Kind, l: Tree, r: Tree, env: Env)
    requires n > 1 && op in {BAND, BOR, BXOR} && Fits(n, op, k, l, r)
    ensures Means(n, BitsTree(n, op, k, l, r), op, k, l, r, env) && Good(n, BitsTree(n, op, k, l, r))
  {
    if r == Cnst(k, if op == BAND then P(n) - 1 else 0) {
      BitsUnit(n, op, k, l, r, env);
    } else if op == BAND && r == Cnst(k, 0) {
      BitsClear(n, k, l, r, env);
    } else {
      BitsKept(n, op, k, l, r, env);
    }
  }

  lemma {:induction false} BitsMeans(n: nat, op: Op, k: Kind, l: Tree, r: Tree, env: Env)
    requires n > 1 && op in {BAND, BOR, BXOR} && Fits(n, op, k, l, r)
    ensures Means(n, SimpBits(n, op, k, l, r), op, k, l, r, env) && Good(n, SimpBits(n, op, k, l, r))
  {
    if Constants(k, l, r) {
      BitsFold(n, op, k, l, r, env);
    } else {
      var (l', r') := Commuted(l, r);
      BitsRight(n, op, k, l', r', env);
      if l' != l {
        Commutes(n, op, k, SimpBits(n, op, k, l, r), l', r', env);
      }
    }
  }

  lemma {:induction false} RshMeans(n: nat, k: Kind, l: Tree, r: Tree, env: Env)
    requires n > 1 && Fits(n, RSH, k, l, r)
    ensures Means(n, SimpRsh(n, k, l, r), RSH, k, l, r, env) && Good(n, SimpRsh(n, k, l, r))
  {
    var a := Eval(n, l, env);
    EvalInRange(n, l, env);
    WrapInRange(n, k, a);
    if r.Cnst? {
      ConstEval(n, r, env);
      assert P(0) == 1 && a / 1 == a;
      if l.Cnst? && 0 <= r.v {
        ConstEval(n, l, env);
        MakeEval(n, k, l.v / P(r.v), env);
        Shrinks(l.v, P(r.v));
      }
    }
  }

  /** Rounding down never takes a quotient further from zero. */
  lemma Shrinks(a: int, m: nat)
    requires m > 0
    ensures if a < 0 then a <= a / m < 0 else 0 <= a / m <= a
  {
    var q, r := a / m, a % m;
    assert a == q * m + r && 0 <= r < m;
    ShrinksBy(a, m, q, r);
  }

  lemma ShrinksBy(a: int, m: nat, q: int, r: int)
    requires a == q * m + r && 0 <= r < m
    ensures if a < 0 then a <= q < 0 else 0 <= q <= a
  {
    if q >= 0 {
      Scale(1, m, q);
    } else {
      Scale(q, -1, m);
      Scale(1, m, -q - 1);
      assert (-q - 1) * m == -(q * m) - m;
      assert m * (-q - 1) >= -q - 1;
    }
  }

  // -------------------------------------------------------------------- left shift

  lemma {:induction false} PowerAbove(k: nat)
    ensures k < P(k)
  {
    if k > 0 {
      PowerAbove(k - 1);
    }
  }

  lemma {:induction false} PowerBelow(k: nat, n: nat)
    requires P(k) < P(n)
    ensures k < n
  {
    if k >= n {
      PowerGrows(n, k);
    }
  }

  /** Constants that are accepted for a left shift: the result is in range, but for one shifted to the sign. */
  lemma {:induction false} ShiftAccepted(n: nat, x: int, s: nat)
    requires 1 < n <= 32 && InRange(n, I, x) && s < n && Muli(x, HostOne(s), Min(n), Max(n), false)
    ensures InRange(n, I, x * P(s)) || (x == 1 && s == n - 1)
  {
    PowerGrows(s, n - 1);
    assert P(n) == 2 * P(n - 1);
    if s < n - 1 {
      PowerGrows(s, n - 2);
      assert P(n - 1) == 2 * P(n - 2);
      assert s != 31;
      MuliExactly(x, P(s), Min(n), Max(n));
    } else {
      TopShift(n, x);
    }
  }

  lemma TopShift(n: nat, x: int)
    requires 1 < n <= 32 && InRange(n, I, x) && Muli(x, HostOne(n - 1), Min(n), Max(n), false)
    ensures -1 <= x <= 1
  {
    var h := P(n - 1);
    assert h >= 2;
    if n == 32 {
      assert h == 0x8000_0000 by { Power31(); }
    } else {
      if x < 0 {
        QuotientLe(-x, h, h);
        if x < -1 { Scale(2, -x, h); }
      } else if x > 1 {
        QuotientLe(x, h, Max(n));
        Scale(1, x, h);
      }
    }
  }

  lemma Power31()
    ensures P(31) == 0x8000_0000
  {
    PowerSum(15, 16);
    PowerSum(8, 7);
    PowerSum(8, 8);
    assert P(7) == 128 && P(8) == 256;
  }

  lemma {:induction false} LshMeans(n: nat, k: Kind, l: Tree, r: Tree, env: Env)
    requires 1 < n <= 32 && Fits(n, LSH, k, l, r)
    ensures Means(n, SimpLsh(n, k, l, r), LSH, k, l, r, env)
    ensures k == U || !(l == Cnst(I, 1) && r == Cnst(I, n - 1)) ==> Good(n, SimpLsh(n, k, l, r))
  {
    var a := Eval(n, l, env);
    EvalInRange(n, l, env);
    WrapInRange(n, k, a);
    if r.Cnst? {
      ConstEval(n, r, env);
      assert P(0) == 1 && a * 1 == a;
      if l.Cnst? && 0 <= r.v < n {
        ConstEval(n, l, env);
        MakeEval(n, k, l.v * P(r.v), env);
        if k == I && Muli(l.v, HostOne(r.v), Min(n), Max(n), false) {
          ShiftAccepted(n, l.v, r.v);
        }
      }
    }
  }

  // ---------------------------------------------------------------- multiplication

  lemma WrapSum(n: nat, k: Kind, a: int, b: int)
    requires n > 0
    ensures Wrap(n, k, Wrap(n, k, a) + Wrap(n, k, b)) == Wrap(n, k, a + b)
    ensures Wrap(n, k, Wrap(n, k, a) - Wrap(n, k, b)) == Wrap(n, k, a - b)
  {
    var p := WrapBy(n, k, a);
    var q := WrapBy(n, k, b);
    Sum(p, q, P(n));
    Distribute(p, q, P(n));
    WrapSame(n, k, Wrap(n, k, a) + Wrap(n, k, b), a + b, p + q);
    WrapSame(n, k, Wrap(n, k, a) - Wrap(n, k, b), a - b, p - q);
  }

  lemma WrapTimes(n: nat, k: Kind, a: int, b: int)
    requires n > 0
    ensures Wrap(n, k, a * Wrap(n, k, b)) == Wrap(n, k, a * b)
  {
    var q := WrapBy(n, k, b);
    Spread(a, b, q, P(n));
    WrapSame(n, k, a * Wrap(n, k, b), a * b, a * q);
  }

  lemma Spread(a: int, b: int, q: int, m: int)
    ensures a * (b + q * m) == a * b + (a * q) * m
  {
  }

  /** c * (x + d) and c * (x - d) wrap to the sum and difference of the products. */
  lemma Distributes(n: nat, k: Kind, c: int, x: int, d: int)
    requires n > 0
    ensures Wrap(n, k, c * Wrap(n, k, x + d)) == Wrap(n, k, Wrap(n, k, c * x) + Wrap(n, k, c * d))
    ensures Wrap(n, k, c * Wrap(n, k, x - d)) == Wrap(n, k, Wrap(n, k, c * x) - Wrap(n, k, c * d))
  {
    var cx, cd := c * x, c * d;
    WrapTimes(n, k, c, x + d);
    WrapTimes(n, k, c, x - d);
    WrapSum(n, k, cx, cd);
    assert c * (x + d) == cx + cd by { Over(c, x, d); }
    assert c * (x - d) == cx - cd by { Over(c, x, d); }
  }

  lemma Over(c: int, x: int, d: int)
    ensures c * (x + d) == c * x + c * d && c * (x - d) == c * x - c * d
  {
  }

  /** The exponent of a constant that is a power of two is a shift count, below the sign when the constant is signed. */
  lemma {:induction false} Exponent(n: nat, k: Kind, v: int)
    requires n > 1 && InRange(n, k, v) && PowerOf(v) != 0
    ensures var p := PowerOf(v); v == P(p) && p < n && (k == I ==> p < n - 1) && InRange(n, I, p)
  {
    assert P(n) == 2 * P(n - 1);
    PowerBelow(PowerOf(v), n);
    PowerAbove(n - 1);
    if k == I {
      PowerBelow(PowerOf(v), n - 1);
    }
  }

  /** A product with a power of two is a left shift. */
  lemma {:induction false} MulShift(n: nat, k: Kind, c: Tree, r: Tree, env: Env)
    requires 1 < n <= 32 && Fits(n, MUL, k, c, r) && c.Cnst? && PowerOf(c.v) != 0
    ensures var t := SimpLsh(n, k, r, Cnst(I, PowerOf(c.v)));
      Means(n, t, MUL, k, c, r, env) && Good(n, t) && (!r.Cnst? ==> !t.Cnst?)
  {
    var p := PowerOf(c.v);
    Exponent(n, k, c.v);
    LshMeans(n, k, r, Cnst(I, p), env);
    ConstEval(n, c, env);
    ConstEval(n, Cnst(I, p), env);
    assert Eval(n, r, env) * P(p) == P(p) * Eval(n, r, env);
  }

  lemma {:induction false} MulMeans(n: nat, k: Kind, l0: Tree, r0: Tree, env: Env)
    requires 1 < n <= 32 && Fits(n, MUL, k, l0, r0)
    ensures Means(n, SimpMul(n, k, l0, r0), MUL, k, l0, r0, env) && Good(n, SimpMul(n, k, l0, r0))
    ensures !(l0.Cnst? && r0.Cnst?) ==> !SimpMul(n, k, l0, r0).Cnst?
    decreases TreeSize(l0) + TreeSize(r0), 1
  {
    var (r, l) := Commuted(r0, l0);
    var t := SimpMul(n, k, l0, r0);
    var power := if l.Cnst? && l.k == k && (k == I ==> l.v > 0) then PowerOf(l.v) else 0;
    if k == U && power != 0 {
      MulShift(n, k, l, r, env);
    } else if Constants(k, l, r) && (k == I ==> Muli(l.v, r.v, Min(n), Max(n), false)) {
      if k == I {
        MuliExactly(l.v, r.v, Min(n), Max(n));
      }
      Folded(n, MUL, k, l, r, l.v * r.v, env);
    } else if k == I && l.Cnst? && r.Bin? && (r.op == ADD || r.op == SUB) && r.r.Cnst? && r.r.k == I {
      MulSpread(n, l, r, env);
    } else if power != 0 {
      MulShift(n, k, l, r, env);
    } else if r == Cnst(k, 1) {
      Identity(n, MUL, k, l, r, env);
    }
    if l != l0 {
      Commutes(n, MUL, k, t, l, r, env);
    }
  }

  /** A constant times a sum or difference with a constant. */
  lemma {:induction false} MulSpread(n: nat, l: Tree, r: Tree, env: Env)
    requires 1 < n <= 32 && Fits(n, MUL, I, l, r) && l.Cnst? && r.Bin? && (r.op == ADD || r.op == SUB) && r.r.Cnst?
    ensures var a, b := SimpMul(n, I, l, r.l), SimpMul(n, I, l, r.r);
      var t := if r.op == ADD then SimpAdd(n, I, a, b) else SimpSub(n, I, a, b);
      Means(n, t, MUL, I, l, r, env) && Good(n, t) && !t.Cnst?
    decreases TreeSize(l) + TreeSize(r), 0
  {
    var a, b := SimpMul(n, I, l, r.l), SimpMul(n, I, l, r.r);
    MulMeans(n, I, l, r.l, env);
    MulMeans(n, I, l, r.r, env);
    if r.op == ADD {
      AddMeans(n, I, a, b, env);
      SpreadMeans(n, l, r, a, b, SimpAdd(n, I, a, b), env);
    } else {
      SubMeans(n, I, a, b, env);
      SpreadMeans(n, l, r, a, b, SimpSub(n, I, a, b), env);
    }
  }

  lemma SpreadMeans(n: nat, l: Tree, r: Tree, a: Tree, b: Tree, t: Tree, env: Env)
    requires n > 1 && r.Bin? && (r.op == ADD || r.op == SUB) && r.k == I
    requires Means(n, a, MUL, I, l, r.l, env) && Means(n, b, MUL, I, l, r.r, env) && Means(n, t, r.op, I, a, b, env)
    ensures Means(n, t, MUL, I, l, r, env)
  {
    SpreadApply(n, r.op, Eval(n, l, env), Eval(n, r.l, env), Eval(n, r.r, env));
  }

  lemma SpreadApply(n: nat, op: Op, c: int, x: int, d: int)
    requires n > 1 && (op == ADD || op == SUB)
    ensures Apply(n, MUL, I, c, Apply(n, op, I, x, d))
      == Apply(n, op, I, Apply(n, MUL, I, c, x), Apply(n, MUL, I, c, d))
  {
    Distributes(n, I, c, x, d);
  }

  // ------------------------------------------------------- division and comparisons

  lemma RemRange(n: nat, k: Kind, x: int, y: int)
    requires n > 1 && InRange(n, k, x) && InRange(n, k, y) && y != 0
    ensures InRange(n, k, Rem(x, y))
  {
    RemBound(x, y);
    assert P(n) == 2 * P(n - 1);
  }

  /** A remainder has the sign of the dividend and is smaller than the divisor. */
  lemma RemBound(x: int, y: int)
    requires y != 0
    ensures var b := if y < 0 then -y else y; if x < 0 then -b < Rem(x, y) <= 0 else 0 <= Rem(x, y) < b
  {
    var a, b := if x < 0 then -x else x, if y < 0 then -y else y;
    DivMod(a, b);
    var q := a / b;
    Negate(q, y);
  }

  lemma Negate(q: int, y: int)
    ensures q * (-y) == -(q * y) && (-q) * y == -(q * y)
  {
  }

  lemma QuotientRange(n: nat, k: Kind, x: int, y: int)
    requires n > 1 && InRange(n, k, x) && InRange(n, k, y) && y != 0 && Divi(x, y, Min(n), Max(n), false)
    ensures InRange(n, k, Trunc(x, y))
  {
    if k == I {
      DiviExactly(x, y, Min(n), Max(n));
    } else {
      Smaller(x, y);
    }
  }

  lemma {:induction false} DivMeans(n: nat, k: Kind, l: Tree, r: Tree, env: Env)
    requires n > 1 && Fits(n, DIV, k, l, r)
    ensures Means(n, SimpDiv(n, k, l, r), DIV, k, l, r, env) && Good(n, SimpDiv(n, k, l, r))
  {
    if r == Cnst(k, 1) {
      forall a ensures Trunc(a, 1) == a {
        Smaller(if a < 0 then -a else a, 1);
      }
      Identity(n, DIV, k, l, r, env);
    } else if r == Cnst(k, 0) || (k == I && l == Cnst(I, Min(n)) && r == Cnst(I, -1)) {
    } else if k == U && r.Cnst? && PowerOf(r.v) != 0 {
      DivShift(n, l, r, env);
    } else if Constants(k, l, r) && Divi(l.v, r.v, Min(n), Max(n), false) {
      QuotientRange(n, k, l.v, r.v);
      Folded(n, DIV, k, l, r, Trunc(l.v, r.v), env);
    }
  }

  /** An unsigned quotient by a power of two is a right shift. */
  lemma {:induction false} DivShift(n: nat, l: Tree, r: Tree, env: Env)
    requires n > 1 && Fits(n, DIV, U, l, r) && r.Cnst? && PowerOf(r.v) != 0
    ensures var t := SimpRsh(n, U, l, Cnst(I, PowerOf(r.v))); Means(n, t, DIV, U, l, r, env) && Good(n, t)
  {
    Exponent(n, U, r.v);
    RshMeans(n, U, l, Cnst(I, PowerOf(r.v)), env);
    ConstEval(n, r, env);
    ConstEval(n, Cnst(I, PowerOf(r.v)), env);
    EvalInRange(n, l, env);
  }

  lemma {:induction false} MaskApply(n: nat, a: int, p: nat)
    requires n > 0 && p < n && 0 <= a
    ensures Apply(n, BAND, U, a, P(p) - 1) == Apply(n, MOD, U, a, P(p))
  {
    AndMask(a, p, n);
    DivMod(a, P(p));
    assert Rem(a, P(p)) == a % P(p);
  }

  lemma {:induction false} MaskMeans(n: nat, t: Tree, l: Tree, c: Tree, r: Tree, p: nat, env: Env)
    requires n > 0 && p < n && Eval(n, l, env) >= 0 && Eval(n, c, env) == P(p) - 1 && Eval(n, r, env) == P(p)
    requires Means(n, t, BAND, U, l, c, env)
    ensures Means(n, t, MOD, U, l, r, env)
  {
    MaskApply(n, Eval(n, l, env), p);
  }

  /** An unsigned remainder by a power of two is a mask. */
  lemma {:induction false} ModMask(n: nat, l: Tree, r: Tree, env: Env)
    requires n > 1 && Fits(n, MOD, U, l, r) && r.Cnst? && PowerOf(r.v) != 0
    ensures var t := SimpBits(n, BAND, U, l, MakeCnst(n, U, r.v - 1)); Means(n, t, MOD, U, l, r, env) && Good(n, t)
  {
    var c := Cnst(U, r.v - 1);
    assert MakeCnst(n, U, r.v - 1) == c;
    Exponent(n, U, r.v);
    ConstEval(n, r, env);
    ConstEval(n, c, env);
    EvalInRange(n, l, env);
    BitsMeans(n, BAND, U, l, c, env);
    MaskMeans(n, SimpBits(n, BAND, U, l, c), l, c, r, PowerOf(r.v), env);
  }

  lemma {:induction false} ModMeans(n: nat, k: Kind, l: Tree, r: Tree, env: Env)
    requires n > 1 && Fits(n, MOD, k, l, r)
    ensures Means(n, SimpMod(n, k, l, r), MOD, k, l, r, env) && Good(n, SimpMod(n, k, l, r))
  {
    if k == U && r.Cnst? && PowerOf(r.v) != 0 {
      ModMask(n, l, r, env);
    } else if r == Cnst(k, 0) || (k == I && l == Cnst(I, Min(n)) && r == Cnst(I, -1)) {
    } else if Constants(k, l, r) && Divi(l.v, r.v, Min(n), Max(n), false) {
      RemRange(n, k, l.v, r.v);
      Folded(n, MOD, k, l, r, Rem(l.v, r.v), env);
    } else if k == I && r == Cnst(I, 1) {
      ModOne(n, l, r, env);
    }
  }

  lemma {:induction false} ModOne(n: nat, l: Tree, r: Tree, env: Env)
    requires n > 1 && Fits(n, MOD, I, l, r) && r == Cnst(I, 1) && !Constants(I, l, r)
    ensures Means(n, SimpMod(n, I, l, r), MOD, I, l, r, env) && Good(n, SimpMod(n, I, l, r))
  {
    ConstEval(n, r, env);
    var a := Eval(n, l, env);
    Smaller(if a < 0 then -a else a, 1);
  }

  lemma CompareApply(n: nat, op: Op, k: Kind, a: int, b: int)
    requires n > 0 && IsCompare(op)
    ensures Apply(n, op, k, a, b) == if Compare(op, a, b) then 1 else 0
  {
  }

  lemma {:induction false} TruthEval(n: nat, b: bool, env: Env)
    requires n > 1
    ensures Eval(n, Truth(b), env) == (if b then 1 else 0) && Good(n, Truth(b))
  {
    WrapInRange(n, I, 0);
    WrapInRange(n, I, 1);
  }

  lemma {:induction false} TruthMeans(n: nat, op: Op, k: Kind, t: Tree, b: bool, l: Tree, r: Tree, env: Env)
    requires n > 1 && IsCompare(op) && (t == Truth(b) || (t.Right? && t.r == Truth(b)))
    requires b == Compare(op, Eval(n, l, env), Eval(n, r, env))
    ensures Means(n, t, op, k, l, r, env)
  {
    TruthEval(n, b, env);
    CompareApply(n, op, k, Eval(n, l, env), Eval(n, r, env));
  }

  /** Two constants that are compared. */
  lemma {:induction false} CompareFolded(n: nat, op: Op, k: Kind, l: Tree, r: Tree, env: Env)
    requires n > 1 && IsCompare(op) && Fits(n, op, k, l, r) && l.Cnst? && r.Cnst?
    ensures Means(n, Truth(Compare(op, l.v, r.v)), op, k, l, r, env) && Good(n, Truth(Compare(op, l.v, r.v)))
  {
    ConstEval(n, l, env);
    ConstEval(n, r, env);
    TruthEval(n, Compare(op, l.v, r.v), env);
    TruthMeans(n, op, k, Truth(Compare(op, l.v, r.v)), Compare(op, l.v, r.v), l, r, env);
  }

  lemma {:induction false} EqualMeans(n: nat, op: Op, k: Kind, l: Tree, r: Tree, env: Env)
    requires n > 1 && (op == EQ || op == NE) && Fits(n, op, k, l, r)
    ensures Means(n, SimpEqual(op, k, l, r), op, k, l, r, env) && Good(n, SimpEqual(op, k, l, r))
  {
    if Constants(k, l, r) {
      CompareFolded(n, op, k, l, r, env);
    }
  }

  /** An unsigned number compared with zero, the result being the same for all of them. */
  lemma {:induction false} NeverBelow(n: nat, op: Op, l: Tree, r: Tree, env: Env)
    requires n > 1 && Fits(n, op, U, l, r)
    requires ((op == GE || op == LT) && r == Cnst(U, 0)) || ((op == LE || op == GT) && l == Cnst(U, 0))
    ensures Means(n, SimpOrder(op, U, l, r), op, U, l, r, env) && Good(n, SimpOrder(op, U, l, r))
  {
    EvalInRange(n, l, env);
    EvalInRange(n, r, env);
    if op == GE || op == LT {
      ConstEval(n, r, env);
    } else {
      ConstEval(n, l, env);
    }
    TruthEval(n, op == GE || op == LE, env);
    TruthMeans(n, op, U, SimpOrder(op, U, l, r), op == GE || op == LE, l, r, env);
  }

  /** An unsigned number compared with zero, which is a test for equality. */
  lemma {:induction false} ZeroTest(n: nat, op: Op, x: Tree, zero: Tree, eq: Op, t: Tree, env: Env)
    requires n > 1 && Good(n, x) && KindOf(x) == U && zero == Cnst(U, 0) && Means(n, t, eq, U, x, zero, env)
    requires eq == (if op == GE || op == LE then EQ else NE)
    ensures (op == GE || op == LT) ==> Means(n, t, op, U, zero, x, env)
    ensures (op == LE || op == GT) ==> Means(n, t, op, U, x, zero, env)
  {
    ConstEval(n, zero, env);
    EvalInRange(n, x, env);
    CompareApply(n, eq, U, Eval(n, x, env), 0);
    if op == GE || op == LT {
      CompareApply(n, op, U, 0, Eval(n, x, env));
    } else if op == LE || op == GT {
      CompareApply(n, op, U, Eval(n, x, env), 0);
    }
  }

  /** Zero on the left of >= or <. */
  lemma {:induction false} ZeroLeft(n: nat, op: Op, l: Tree, r: Tree, env: Env)
    requires n > 1 && (op == GE || op == LT) && Fits(n, op, U, l, r) && l == Cnst(U, 0) && !r.Cnst?
    ensures Means(n, SimpOrder(op, U, l, r), op, U, l, r, env) && Good(n, SimpOrder(op, U, l, r))
  {
    var eq := if op == GE then EQ else NE;
    EqualMeans(n, eq, U, r, l, env);
    ZeroTest(n, op, r, l, eq, SimpEqual(eq, U, r, l), env);
  }

  /** Zero on the right of <= or >. */
  lemma {:induction false} ZeroRight(n: nat, op: Op, l: Tree, r: Tree, env: Env)
    requires n > 1 && (op == LE || op == GT) && Fits(n, op, U, l, r) && r == Cnst(U, 0) && !l.Cnst?
    ensures Means(n, SimpOrder(op, U, l, r), op, U, l, r, env) && Good(n, SimpOrder(op, U, l, r))
  {
    var eq := if op == LE then EQ else NE;
    EqualMeans(n, eq, U, l, r, env);
    ZeroTest(n, op, l, r, eq, SimpEqual(eq, U, l, r), env);
  }

  /** A tree that is left as it is. */
  lemma {:induction false} KeptMeans(n: nat, op: Op, k: Kind, l: Tree, r: Tree, env: Env)
    requires n > 1 && op in {LT, LE, GT, GE} && Fits(n, op, k, l, r)
    ensures Means(n, Bin(op, k, l, r), op, k, l, r, env) && Good(n, Bin(op, k, l, r))
  {
  }

  lemma {:induction false} OrderMeans(n: nat, op: Op, k: Kind, l: Tree, r: Tree, env: Env)
    requires n > 1 && op in {LT, LE, GT, GE} && Fits(n, op, k, l, r)
    ensures Means(n, SimpOrder(op, k, l, r), op, k, l, r, env) && Good(n, SimpOrder(op, k, l, r))
  {
    if k == U && (((op == GE || op == LT) && r == Cnst(U, 0)) || ((op == LE || op == GT) && l == Cnst(U, 0))) {
      NeverBelow(n, op, l, r, env);
    } else if Constants(k, l, r) {
      CompareFolded(n, op, k, l, r, env);
    } else if k == U && (op == GE || op == LT) && l == Cnst(U, 0) {
      ZeroLeft(n, op, l, r, env);
    } else if k == U && (op == LE || op == GT) && r == Cnst(U, 0) {
      ZeroRight(n, op, l, r, env);
    } else {
      KeptMeans(n, op, k, l, r, env);
    }
  }

  // ------------------------------------------------------------- unary operators

  lemma NegateTwice(n: nat, k: Kind, a: int, c: int)
    requires n > 0 && InRange(n, k, a)
    ensures Wrap(n, k, c - Wrap(n, k, c - a)) == a
  {
    var q := WrapBy(n, k, c - a);
    Negate(q, P(n));
    WrapSame(n, k, c - Wrap(n, k, c - a), a, -q);
    WrapInRange(n, k, a);
  }

  ghost predicate UnMeans(n: nat, t: Tree, op: UnOp, k: Kind, l: Tree, env: Env)
    requires n > 0
  {
    Eval(n, t, env) == ApplyUn(n, op, k, Eval(n, l, env)) && KindOf(t) == UnKind(op, k) && Good(n, t)
  }

  /** Folding a constant. */
  lemma {:induction false} UnFolded(n: nat, op: UnOp, k: Kind, l: Tree, v: int, env: Env)
    requires n > 1 && Good(n, l) && KindOf(l) == k && Takes(op, k) && l.Cnst?
    requires InRange(n, UnKind(op, k), v) && ApplyUn(n, op, k, l.v) == v
    ensures UnMeans(n, Cnst(UnKind(op, k), v), op, k, l, env)
  {
    ConstEval(n, l, env);
    WrapInRange(n, UnKind(op, k), v);
  }

  /** Two negations or complements that cancel. */
  lemma {:induction false} UnCancels(n: nat, op: UnOp, k: Kind, l: Tree, env: Env)
    requires n > 1 && Good(n, l) && KindOf(l) == k && Takes(op, k) && (op == NEG || op == BCOM) && l.Un? && l.uop == op
    ensures UnMeans(n, l.l, op, k, l, env)
  {
    var a := Eval(n, l.l, env);
    EvalInRange(n, l.l, env);
    NegateTwice(n, k, a, if op == NEG then 0 else -1);
  }

  /** The constant that an operator and a constant are folded to. */
  lemma {:induction false} UnConstant(n: nat, op: UnOp, k: Kind, l: Tree, env: Env)
    requires n > 1 && Good(n, l) && KindOf(l) == k && Takes(op, k) && l.Cnst?
    ensures UnMeans(n, SimpUn(n, op, k, l), op, k, l, env)
  {
    match op
    case NEG =>
      if l.v != Min(n) {
        WrapInRange(n, I, -l.v);
        UnFolded(n, op, k, l, -l.v, env);
      }
    case BCOM => UnFolded(n, op, k, l, Wrap(n, k, -l.v - 1), env);
    case CVIU => ConvertFolded(n, op, k, l, env);
    case CVUI => ConvertFolded(n, op, k, l, env);
  }

  lemma {:induction false} ConvertFolded(n: nat, op: UnOp, k: Kind, l: Tree, env: Env)
    requires n > 1 && Good(n, l) && KindOf(l) == k && Takes(op, k) && l.Cnst? && (op == CVIU || op == CVUI)
    ensures UnMeans(n, SimpUn(n, op, k, l), op, k, l, env)
  {
    assert P(n) == 2 * P(n - 1);
    var to := UnKind(op, k);
    if InRange(n, to, l.v) {
      WrapInRange(n, to, l.v);
      UnFolded(n, op, k, l, l.v, env);
    }
  }

  /** Every unary operator keeps its value, and its constants are in range. */
  lemma {:induction false} SimpUnMeans(n: nat, op: UnOp, k: Kind, l: Tree, env: Env)
    requires n > 1 && Good(n, l) && KindOf(l) == k && Takes(op, k)
    ensures UnMeans(n, SimpUn(n, op, k, l), op, k, l, env)
  {
    if l.Cnst? {
      UnConstant(n, op, k, l, env);
    } else if l.Un? && (op == NEG || op == BCOM) && l.uop == op {
      UnCancels(n, op, k, l, env);
    }
  }

  // ------------------------------------------------------------------- the main result

  /** The operation has a value in C. */
  predicate Defined(n: nat, op: Op, k: Kind, a: int, b: int)
    requires n > 0
  {
    match op
    case ADD => k == I ==> InRange(n, I, a + b)
    case SUB => k == I ==> InRange(n, I, a - b)
    case MUL => k == I ==> InRange(n, I, a * b)
    case DIV => b != 0 && !(k == I && a == Min(n) && b == -1)
    case MOD => b != 0 && !(k == I && a == Min(n) && b == -1)
    case LSH => 0 <= b < n && (k == I ==> InRange(n, I, a * P(b)))
    case RSH => 0 <= b < n
    case _ => true
  }

  /** Whatever the operands are, the tree that is built has the value that the target computes. */
  lemma {:induction false} SimplifyMeans(n: nat, op: Op, k: Kind, l: Tree, r: Tree, env: Env)
    requires 1 < n <= 32 && Fits(n, op, k, l, r)
    ensures Means(n, Simplify(n, op, k, l, r), op, k, l, r, env)
    ensures Defined(n, op, k, Eval(n, l, env), Eval(n, r, env)) ==> Good(n, Simplify(n, op, k, l, r))
  {
    if l.Cnst? {
      ConstEval(n, l, env);
    }
    if r.Cnst? {
      ConstEval(n, r, env);
    }
    match op
    case ADD => AddMeans(n, k, l, r, env);
    case SUB => SubMeans(n, k, l, r, env);
    case MUL => MulMeans(n, k, l, r, env);
    case DIV => DivMeans(n, k, l, r, env);
    case MOD => ModMeans(n, k, l, r, env);
    case BAND => BitsMeans(n, op, k, l, r, env);
    case BOR => BitsMeans(n, op, k, l, r, env);
    case BXOR => BitsMeans(n, op, k, l, r, env);
    case LSH => LshMeans(n, k, l, r, env);
    case RSH => RshMeans(n, k, l, r, env);
    case EQ => EqualMeans(n, op, k, l, r, env);
    case NE => EqualMeans(n, op, k, l, r, env);
    case _ => OrderMeans(n, op, k, l, r, env);
  }

  /** Source expressions. */
  datatype Expr =
    | Number(k: Kind, v: int)
    | Variable(k: Kind, id: nat)
    | Unary(uop: UnOp, k: Kind, l: Expr)
    | Operation(op: Op, k: Kind, l: Expr, r: Expr)

  function ExprKind(e: Expr): Kind {
    match e
    case Number(k, _) => k
    case Variable(k, _) => k
    case Unary(op, k, _) => UnKind(op, k)
    case Operation(op, k, _, _) => ResultKind(op, k)
  }

  predicate Typed(n: nat, e: Expr)
    requires n > 0
  {
    match e
    case Number(k, v) => InRange(n, k, v)
    case Variable(_, _) => true
    case Unary(op, k, l) => Typed(n, l) && ExprKind(l) == k && Takes(op, k)
    case Operation(op, k, l, r) =>
      Typed(n, l) && Typed(n, r) && ExprKind(l) == k && ExprKind(r) == (if IsShift(op) then I else k)
  }

  datatype Value = Value(v: int) | Undefined

  /** The value of an expression in C: every operation in it must be defined. */
  function CValue(n: nat, e: Expr, env: Env): Value
    requires n > 0
  {
    match e
    case Number(_, v) => Value(v)
    case Variable(k, id) => Value(Wrap(n, k, env(id)))
    case Unary(op, k, l) =>
      var a := CValue(n, l, env);
      if a.Undefined? || (op == NEG && a.v == Min(n)) then Undefined else Value(ApplyUn(n, op, k, a.v))
    case Operation(op, k, l, r) =>
      match (CValue(n, l, env), CValue(n, r, env))
      case (Value(a), Value(b)) => if Defined(n, op, k, a, b) then Value(Apply(n, op, k, a, b)) else Undefined
      case _ => Undefined
  }

  /** The tree for an expression, simplified as it is built. */
  function Build(n: nat, e: Expr): Tree
    requires n > 0
  {
    match e
    case Number(k, v) => Cnst(k, v)
    case Variable(k, id) => Leaf(k, id)
    case Unary(op, k, l) => SimpUn(n, op, k, Build(n, l))
    case Operation(op, k, l, r) => Simplify(n, op, k, Build(n, l), Build(n, r))
  }

  /** The tree built for an expression with a value in C has that value, on a target whose arithmetic wraps around. */
  lemma {:induction false} BuildPreserves(n: nat, e: Expr, env: Env)
    requires 1 < n <= 32 && Typed(n, e) && CValue(n, e, env).Value?
    ensures Eval(n, Build(n, e), env) == CValue(n, e, env).v
    ensures Good(n, Build(n, e)) && KindOf(Build(n, e)) == ExprKind(e)
    decreases e
  {
    match e
    case Number(k, v) => WrapInRange(n, k, v);
    case Variable(_, _) =>
    case Unary(op, k, l) =>
      BuildPreserves(n, l, env);
      SimpUnMeans(n, op, k, Build(n, l), env);
    case Operation(op, k, l, r) =>
      BuildPreserves(n, l, env);
      BuildPreserves(n, r, env);
      SimplifyMeans(n, op, k, Build(n, l), Build(n, r), env);
  }

  /** Zero less the least value is folded to a constant that is out of range, although it has no value in C. */
  lemma LeastNegated(n: nat)
    requires n > 1
    ensures SimpSub(n, I, Cnst(I, 0), Cnst(I, Min(n))) == Cnst(I, Max(n) + 1) && !Defined(n, SUB, I, 0, Min(n))
  {
  }

  /** The negation of the least value is left alone. */
  lemma LeastNotFolded(n: nat)
    requires n > 1
    ensures SimpUn(n, NEG, I, Cnst(I, Min(n))) == Un(NEG, I, Cnst(I, Min(n)))
  {
  }

  /** One shifted to the sign bit is folded to a constant that is out of range as well. */
  lemma OneToSign(n: nat)
    requires 1 < n <= 32
    ensures SimpLsh(n, I, Cnst(I, 1), Cnst(I, n - 1)) == Cnst(I, Max(n) + 1) && !Defined(n, LSH, I, 1, n - 1)
  {
  }
}
