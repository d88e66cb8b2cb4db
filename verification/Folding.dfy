/**
 That folding does happen: which constants come out for constant operands, in
 arithmetic, and which operators give way to others.
 */
module Folding {
  import opened Bits
  import opened Simplify

  /** The operation on two constants is folded to the constant v. */
  predicate Folds(n: nat, op: Op, k: Kind, a: int, b: int, v: int)
    requires n > 0
  {
    Simplify.Simplify(n, op, k, Cnst(k, a), Cnst(if op in {LSH, RSH} then I else k, b))
    == Cnst(if op in {EQ, NE, LT, LE, GT, GE} then I else k, v)
  }

  /** The value is in the signed range of n bits. */
  predicate Signed(n: nat, v: int)
    requires n > 0
  {
    -(P(n - 1) as int) <= v < P(n - 1)
  }

  predicate Unsigned(n: nat, v: int) { 0 <= v < P(n) }

  lemma {:induction false} ModIs(v: int, m: nat)
    requires m > 0
    ensures Mod(v, m) == v % m
  {
    var q := ModBy(v, m);
    Distribute(0, q, m);
    Quotient(v, m, -q, Mod(v, m));
  }

  // -------------------------------------------------------------------- arithmetic

  lemma SignedSums(n: nat, a: int, b: int)
    requires n > 1 && Signed(n, a) && Signed(n, b)
    ensures Signed(n, a + b) ==> Folds(n, ADD, I, a, b, a + b)
    ensures Signed(n, a - b) ==> Folds(n, SUB, I, a, b, a - b)
    ensures Signed(n, a * b) ==> Folds(n, MUL, I, a, b, a * b)
  {
    MuliExactly(a, b, Min(n), Max(n));
    SubiExactly(a, b, Max(n));
  }

  lemma {:induction false} UnsignedSums(n: nat, a: int, b: int)
    requires n > 1 && Unsigned(n, a) && Unsigned(n, b)
    ensures Folds(n, ADD, U, a, b, (a + b) % P(n)) && Folds(n, SUB, U, a, b, (a - b) % P(n))
  {
    ModIs(a + b, P(n));
    ModIs(a - b, P(n));
  }

  lemma {:induction false} UnsignedProducts(n: nat, a: int, b: int)
    requires n > 1 && Unsigned(n, a) && Unsigned(n, b)
    ensures Folds(n, MUL, U, a, b, a * b % P(n))
  {
    ModIs(a * b, P(n));
    assert a * b == b * a;
    if PowerOf(a) != 0 {
      Exponent(n, U, a);
    }
  }

  /** Quotients round toward zero, and remainders have the sign of the dividend. */
  lemma {:induction false} SignedQuotients(n: nat, a: int, b: int, q: int, r: int)
    requires n > 1 && Signed(n, a) && Signed(n, b) && b != 0 && !(a == -(P(n - 1) as int) && b == -1)
    requires a == q * b + r && (if b < 0 then b < r < -b else -b < r < b) && (r == 0 || (r < 0 <==> a < 0))
    ensures Folds(n, DIV, I, a, b, q) && Folds(n, MOD, I, a, b, r)
  {
    TruncIs(a, b, q, r);
  }

  lemma UnsignedQuotients(n: nat, a: int, b: int)
    requires n > 1 && Unsigned(n, a) && Unsigned(n, b) && b != 0
    ensures Folds(n, DIV, U, a, b, a / b) && Folds(n, MOD, U, a, b, a % b)
  {
    var q, r := a / b, a % b;
    DivMod(a, b);
    TruncIs(a, b, q, r);
    Smaller(a, b);
    InUnsigned(n, q);
    InUnsigned(n, r);
    if PowerOf(b) != 0 {
      var p := PowerOf(b);
      Exponent(n, U, b);
      AndMask(a, p, n);
      InUnsigned(n, b - 1);
    }
  }

  lemma {:induction false} InUnsigned(n: nat, v: int)
    requires n > 0 && Unsigned(n, v)
    ensures Mod(v, P(n)) == v && Wrap(n, U, v) == v
  {
  }

  /** The quotient and the remainder that these bounds leave. */
  lemma TruncIs(a: int, b: int, q: int, r: int)
    requires b != 0 && a == q * b + r && (if b < 0 then b < r < -b else -b < r < b) && (r == 0 || (r < 0 <==> a < 0))
    ensures Trunc(a, b) == q && Rem(a, b) == r
  {
    var x, y := if a < 0 then -a else a, if b < 0 then -b else b;
    var s, t := if (a < 0) == (b < 0) then q else -q, if a < 0 then -r else r;
    Negate(q, b);
    assert x == s * y + t;
    Quotient(x, y, s, t);
  }

  // -------------------------------------------------------------------------- bits

  /** Bit i of v is what the operation makes of those of a and b. */
  predicate BitFrom(op: Op, a: int, b: int, v: int, i: nat) {
    var x, y := a / P(i) % 2, b / P(i) % 2;
    v / P(i) % 2 == if op == BAND then x * y else if op == BOR then x + y - x * y else (x + y) % 2
  }

  /** And, or and exclusive or are folded bit by bit. */
  lemma {:induction false} BitsFolded(n: nat, op: Op, k: Kind, a: int, b: int) returns (v: int)
    requires n > 1 && op in {BAND, BOR, BXOR}
    ensures Folds(n, op, k, a, b, v) && (if k == U then Unsigned(n, v) else Signed(n, v))
    ensures forall i: nat :: i < n ==> BitFrom(op, a, b, v, i)
  {
    var w := Bitwise(BitOpOf(op), a, b, n);
    v := Wrap(n, k, w);
    forall i: nat | i < n ensures BitFrom(op, a, b, v, i) {
      BitwiseBits(BitOpOf(op), a, b, n, i);
      WrapBits(n, k, w, i);
    }
  }

  /** Wrapping keeps the low n bits. */
  lemma {:induction false} WrapBits(n: nat, k: Kind, w: int, i: nat)
    requires i < n
    ensures Bit(Wrap(n, k, w), i) == Bit(w, i)
  {
    var q := WrapBy(n, k, w);
    DoubledIs(q, n);
    AddedBits(w, q, n, i);
    HalvingsAre(w, i);
    HalvingsAre(Wrap(n, k, w), i);
  }

  /** q doubled n times. */
  function Doubled(q: int, n: nat): int { if n == 0 then q else 2 * Doubled(q, n - 1) }

  lemma {:induction false} DoubledIs(q: int, n: nat)
    ensures Doubled(q, n) == q * P(n)
  {
    if n > 0 {
      DoubledIs(q, n - 1);
      Twice(P(n - 1), q);
    }
  }

  /** Bit i, found by halving. */
  function Halvings(a: int, i: nat): int
    decreases i
  {
    if i == 0 then a % 2 else Halvings(a / 2, i - 1)
  }

  lemma {:induction false} HalvingsAre(a: int, i: nat)
    ensures Halvings(a, i) == Bit(a, i)
    decreases i
  {
    if i > 0 {
      BitHalf(a, i);
      HalvingsAre(a / 2, i - 1);
    }
  }

  lemma {:induction false} AddedBits(w: int, q: int, n: nat, i: nat)
    requires i < n
    ensures Halvings(w + Doubled(q, n), i) == Halvings(w, i)
    decreases n
  {
    var y := Doubled(q, n - 1);
    assert (w + 2 * y) % 2 == w % 2 && (w + 2 * y) / 2 == w / 2 + y;
    if i > 0 {
      AddedBits(w / 2, q, n - 1, i - 1);
    }
  }

  // ------------------------------------------------------------------------ shifts

  lemma {:induction false} RightFolded(n: nat, k: Kind, a: int, s: nat)
    requires n > 1 && (if k == U then Unsigned(n, a) else Signed(n, a)) && s < n
    ensures Folds(n, RSH, k, a, s, a / P(s))
  {
    if s > 0 && k == U {
      DivMod(a, P(s));
      Smaller(a, P(s));
      InUnsigned(n, a / P(s));
    }
  }

  lemma {:induction false} UnsignedLeftFolded(n: nat, a: int, s: nat)
    requires n > 1 && Unsigned(n, a) && s < n
    ensures Folds(n, LSH, U, a, s, a * P(s) % P(n))
  {
    if s == 0 {
      assert a * P(s) == a;
    }
    ModIs(a * P(s), P(n));
  }

  lemma {:induction false} SignedLeftFolded(n: nat, a: int, s: nat)
    requires 1 < n <= 32 && Signed(n, a) && s < n - 1 && Signed(n, a * P(s))
    ensures Folds(n, LSH, I, a, s, a * P(s))
  {
    PowerGrows(s, n - 2);
    assert P(n - 1) == 2 * P(n - 2);
    MuliExactly(a, P(s), Min(n), Max(n));
  }

  // ------------------------------------------------------------------- comparisons

  /** Comparisons are folded to the truth about the difference; with an unsigned zero the other operand may stay. */
  lemma ComparisonsFolded(n: nat, k: Kind, a: int, b: int)
    requires n > 0
    ensures Folds(n, EQ, k, a, b, if a - b == 0 then 1 else 0) && Folds(n, NE, k, a, b, if a - b == 0 then 0 else 1)
    ensures k == I || b != 0 ==>
      Folds(n, LT, k, a, b, if a - b < 0 then 1 else 0) && Folds(n, GE, k, a, b, if a - b < 0 then 0 else 1)
    ensures k == I || a != 0 ==>
      Folds(n, GT, k, a, b, if a - b > 0 then 1 else 0) && Folds(n, LE, k, a, b, if a - b > 0 then 0 else 1)
  {
  }

  // ------------------------------------------------------------------ other operators

  /** Operations that leave their operand as it is. */
  lemma {:induction false} Units(n: nat, k: Kind, x: Tree)
    requires n > 1 && !x.Cnst?
    ensures Simplify.Simplify(n, ADD, k, x, Cnst(k, 0)) == Simplify.Simplify(n, ADD, k, Cnst(k, 0), x) == x
    ensures Simplify.Simplify(n, SUB, k, x, Cnst(k, 0)) == x && Simplify.Simplify(n, DIV, k, x, Cnst(k, 1)) == x
    ensures Simplify.Simplify(n, BOR, k, x, Cnst(k, 0)) == Simplify.Simplify(n, BOR, k, Cnst(k, 0), x) == x
    ensures Simplify.Simplify(n, BXOR, k, x, Cnst(k, 0)) == Simplify.Simplify(n, BXOR, k, Cnst(k, 0), x) == x
    ensures var ones := Cnst(k, P(n) - 1);
      Simplify.Simplify(n, BAND, k, x, ones) == Simplify.Simplify(n, BAND, k, ones, x) == x
    ensures Simplify.Simplify(n, LSH, k, x, Cnst(I, 0)) == Simplify.Simplify(n, RSH, k, x, Cnst(I, 0)) == x
  {
  }

  /** A product with a power of two is a shift; unsigned quotients and remainders by one are a shift and a mask. */
  lemma {:induction false} Powers(n: nat, k: Kind, x: Tree, p: nat)
    requires n > 1 && !x.Cnst? && !x.Bin? && p > 0
    ensures Simplify.Simplify(n, MUL, k, x, Cnst(k, P(p))) == Bin(LSH, k, x, Cnst(I, p))
    ensures Simplify.Simplify(n, MUL, k, Cnst(k, P(p)), x) == Bin(LSH, k, x, Cnst(I, p))
    ensures Simplify.Simplify(n, DIV, U, x, Cnst(U, P(p))) == Bin(RSH, U, x, Cnst(I, p))
    ensures p < n ==> Simplify.Simplify(n, MOD, U, x, Cnst(U, P(p))) == Bin(BAND, U, x, Cnst(U, P(p) - 1))
  {
    PowerFound(p);
    if p < n {
      PowerGrows(p + 1, n);
      InUnsigned(n, P(p) - 1);
    }
  }

  /** A constant factor is distributed over a sum or difference with a constant. */
  lemma Spreads(n: nat, c: int, x: Tree, d: int)
    requires n > 1 && !x.Cnst? && Signed(n, c) && Signed(n, d)
    ensures var cx := Simplify.Simplify(n, MUL, I, Cnst(I, c), x);
      var cd := Simplify.Simplify(n, MUL, I, Cnst(I, c), Cnst(I, d));
      && Simplify.Simplify(n, MUL, I, Cnst(I, c), Bin(ADD, I, x, Cnst(I, d))) == Simplify.Simplify(n, ADD, I, cx, cd)
      && Simplify.Simplify(n, MUL, I, Cnst(I, c), Bin(SUB, I, x, Cnst(I, d))) == Simplify.Simplify(n, SUB, I, cx, cd)
  {
  }

  /** Constants end up on the right, and unsigned comparisons with zero become tests for zero or are decided. */
  lemma Rearranged(n: nat, op: Op, k: Kind, c: int, x: Tree)
    requires n > 0 && !x.Cnst?
    ensures op in {ADD, BAND, BOR, BXOR, EQ, NE} ==>
      Simplify.Simplify(n, op, k, Cnst(k, c), x) == Simplify.Simplify(n, op, k, x, Cnst(k, c))
    ensures Simplify.Simplify(n, GE, U, x, Cnst(U, 0)) == Right(x, Cnst(I, 1))
    ensures Simplify.Simplify(n, LT, U, x, Cnst(U, 0)) == Right(x, Cnst(I, 0))
    ensures Simplify.Simplify(n, GT, U, x, Cnst(U, 0)) == Bin(NE, U, x, Cnst(U, 0))
    ensures Simplify.Simplify(n, LE, U, x, Cnst(U, 0)) == Bin(EQ, U, x, Cnst(U, 0))
  {
  }

  /** Unary operators on constants. */
  lemma UnaryFolded(n: nat, k: Kind, a: int) returns (v: int)
    requires n > 1 && if k == U then Unsigned(n, a) else Signed(n, a)
    ensures k == I && a != -(P(n - 1) as int) ==> SimpUn(n, NEG, I, Cnst(I, a)) == Cnst(I, -a)
    ensures k == I && a >= 0 ==> SimpUn(n, CVIU, I, Cnst(I, a)) == Cnst(U, a)
    ensures k == U && a < P(n - 1) ==> SimpUn(n, CVUI, U, Cnst(U, a)) == Cnst(I, a)
    ensures SimpUn(n, BCOM, k, Cnst(k, a)) == Cnst(k, v) && v == (if k == U then P(n) - 1 - a else -a - 1)
  {
    assert P(n) == 2 * P(n - 1);
    v := if k == U then P(n) - 1 - a else -a - 1;
    if k == U {
      WrapSame(n, U, -a - 1, v, -1);
    }
    WrapInRange(n, k, v);
  }
}
