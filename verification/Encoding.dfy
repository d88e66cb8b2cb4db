/**
 Instruction words whose field widths are parameters: taking a word apart,
 putting one together with the range checks of the encoder, and converting a
 word from one layout to another. Fields do not overlap, so joining them is a sum.
 */
module Encoding {

  import opened Bits

  // ----------------------------------------------------------------- joined fields

  /** `high` above k bits that hold `low`. */
  function Join(high: int, low: int, k: nat): int { high * P(k) + low }

  lemma {:induction false} Parts(high: int, low: int, k: nat)
    requires 0 <= low < P(k)
    ensures Join(high, low, k) / P(k) == high && Join(high, low, k) % P(k) == low
  {
    Quotient(Join(high, low, k), P(k), high, low);
  }

  lemma JoinBound(high: int, low: int, k: nat, w: nat)
    requires 0 <= low < P(k) && 0 <= high < P(w)
    ensures 0 <= Join(high, low, k) < P(w + k)
  {
    Scale(0, high, P(k));
    Scale(high, P(w) - 1, P(k));
    Distribute(P(w), 1, P(k));
    PowerSum(w, k);
  }

  /** Joining is associative. */
  lemma JoinJoin(a: int, b: int, c: int, r: nat, k: nat)
    ensures Join(Join(a, b, r), c, k) == Join(a, Join(b, c, k), r + k)
  {
    PowerSum(r, k);
    calc {
      (a * P(r) + b) * P(k);
      (a * P(r)) * P(k) + b * P(k);
      a * (P(r) * P(k)) + b * P(k);
    }
  }

  /** Every number is its high part joined with its low bits. */
  lemma {:induction false} Whole(x: int, k: nat)
    ensures x == Join(x / P(k), x % P(k), k) && 0 <= x % P(k) < P(k)
  {
  }

  // ---------------------------------------------------------------------- layouts

  /** Widths of the word, the opcode, a register number and a parameter. */
  datatype Layout = Layout(n: nat, o: nat, r: nat, p: nat)

  /** Bits after the opcode, after the first register number, after the second. */
  function A0(l: Layout): int { l.n - l.o }

  function A1(l: Layout): int { A0(l) - l.r }

  function A2(l: Layout): int { A1(l) - l.r }

  predicate LayoutOk(l: Layout) { 4 <= l.o && 0 < l.r && l.r < A2(l) && l.p < A2(l) && 1 < A2(l) }

  predicate Wider(a: Layout, b: Layout) {
    && a.o <= b.o && a.r <= b.r && a.p <= b.p && A0(a) <= A0(b) && A1(a) <= A1(b) && A2(a) <= A2(b)
    && A2(a) - a.p <= A2(b) - b.p
  }

  /** The instruction formats; `F` stands for a flag bit that is set. */
  datatype Fields =
    | RI(op: int, r1: int, imm: int)
    | RRR(op: int, r1: int, r2: int, r3: int)
    | RRIF(op: int, r1: int, r2: int, imm: int)
    | RRI(op: int, r1: int, r2: int, imm: int)
    | RRPI(op: int, r1: int, r2: int, par: int, low: int)
    | RR(op: int, r1: int, r2: int)
    | R2(op: int, r2: int)
    | IF(op: int, imm: int)
    | T(op: int, imm: int)

  datatype Option<X> = Some(value: X) | None

  /** The low w bits as a signed number. */
  function IntValue(x: int, w: nat): int
    requires w > 0
  {
    var v := x % P(w);
    (if v >= P(w - 1) then v - P(w - 1) else v + P(w - 1)) - P(w - 1)
  }

  function Field(x: int, at: nat, w: nat): int { x / P(at) % P(w) }

  /** Takes a word apart; opcodes above 15 are not implemented. */
  function Parse(l: Layout, i: int): Option<Fields>
    requires LayoutOk(l)
  {
    var op, r1, r2 := Field(i, A0(l), l.o), Field(i, A1(l), l.r), Field(i, A2(l), l.r);
    match op
    case 0 | 2 | 3 | 10 | 11 | 14 => Some(RI(op, r1, IntValue(i, A1(l))))
    case 1 | 5 =>
      if Field(i, A2(l) - 1, 1) == 1 then Some(RRIF(op, r1, r2, IntValue(i, A2(l) - 1)))
      else Some(RRR(op, r1, r2, i % P(l.r)))
    case 4 =>
      if Field(i, A0(l) - 1, 1) == 1 then Some(IF(op, IntValue(i, A0(l) - 1))) else Some(R2(op, r2))
    case 6 | 7 | 8 => Some(RRI(op, r1, r2, IntValue(i, A2(l))))
    case 13 => Some(RRPI(op, r1, r2, Field(i, A2(l) - l.p, l.p), i % P(A2(l) - l.p)))
    case 9 => Some(RR(op, r1, r2))
    case 12 => Some(R2(op, r2))
    case 15 => Some(T(op, IntValue(i, A0(l))))
    case _ => None
  }

  function Abs(x: int): nat { if x < 0 then -x else x }

  /** The bits of x above the low w are clear. */
  predicate Masked(x: int, w: nat) { 0 <= x < P(w) }

  /** The encoder's range checks: the magnitude of an immediate, not its signed range, is compared with a mask. */
  predicate Checked(l: Layout, f: Fields)
    requires LayoutOk(l)
  {
    && Masked(f.op, l.o)
    && match f
       case RI(_, r1, imm) => Masked(r1, l.r) && Masked(Abs(imm), A1(l))
       case RRR(_, r1, r2, r3) => Masked(r1, l.r) && Masked(r2, l.r) && Masked(r3, l.r)
       case RRIF(_, r1, r2, imm) => Masked(r1, l.r) && Masked(r2, l.r) && Masked(Abs(imm), A2(l) - 1)
       case RRI(_, r1, r2, imm) => Masked(r1, l.r) && Masked(r2, l.r) && Masked(Abs(imm), A2(l) - 1)
       case RRPI(_, r1, r2, par, low) =>
         Masked(r1, l.r) && Masked(r2, l.r) && Masked(Abs(par), l.p) && Masked(Abs(low), A2(l) - l.p)
       case RR(_, r1, r2) => Masked(r1, l.r) && Masked(r2, l.r)
       case R2(_, r2) => Masked(r2, l.r)
       case IF(_, imm) => Masked(Abs(imm), A0(l) - 1)
       case T(_, imm) => Masked(imm, A0(l))
  }

  /** What comes after the opcode. */
  function Tail(l: Layout, f: Fields): int
    requires LayoutOk(l)
  {
    match f
    case RI(_, r1, imm) => Join(r1, imm % P(A1(l)), A1(l))
    case RRR(_, r1, r2, r3) => Join(r1, Join(r2, r3, A2(l)), A1(l))
    case RRIF(_, r1, r2, imm) => Join(r1, Join(r2, Join(1, imm % P(A2(l) - 1), A2(l) - 1), A2(l)), A1(l))
    case RRI(_, r1, r2, imm) => Join(r1, Join(r2, imm % P(A2(l)), A2(l)), A1(l))
    case RRPI(_, r1, r2, par, low) => Join(r1, Join(r2, Join(par, low % P(A2(l) - l.p), A2(l) - l.p), A2(l)), A1(l))
    case RR(_, r1, r2) => Join(r1, Join(r2, 0, A2(l)), A1(l))
    case R2(_, r2) => Join(0, Join(r2, 0, A2(l)), A1(l))
    case IF(_, imm) => Join(1, imm % P(A0(l) - 1), A0(l) - 1)
    case T(_, imm) => imm % P(A0(l))
  }

  /** The word of the fields; the bits of a negative parameter lie over those of the fields above it. */
  function Word(l: Layout, f: Fields): int
    requires LayoutOk(l)
  {
    if f.RRPI? && f.par < 0 then
      Bitwise(BitOr, Join(f.op, Tail(l, f.(par := 0)), A0(l)), f.par * P(A2(l) - l.p), l.n)
    else Join(f.op, Tail(l, f), A0(l))
  }

  /** Puts a word together, if its fields pass the checks. */
  function Make(l: Layout, f: Fields): Option<int>
    requires LayoutOk(l)
  {
    if Checked(l, f) then Some(Word(l, f)) else None
  }

  function Convert(from: Layout, to: Layout, i: int): Option<int>
    requires LayoutOk(from) && LayoutOk(to)
  {
    match Parse(from, i)
    case Some(f) => Make(to, f)
    case None => None
  }

  // -------------------------------------------------------------- signed immediates

  predicate FitsSigned(v: int, w: nat)
    requires w > 0
  {
    -(P(w - 1) as int) <= v < P(w - 1)
  }

  /** Masking and extending the sign gives the value back exactly when it fits. */
  lemma {:induction false} SignedBack(v: int, w: nat)
    requires w > 0
    ensures IntValue(v % P(w), w) == v <==> FitsSigned(v, w)
    ensures FitsSigned(IntValue(v, w), w)
  {
    var m := v % P(w);
    assert P(w) == 2 * P(w - 1);
    Quotient(m, P(w), 0, m);
    if FitsSigned(v, w) {
      if v >= 0 {
        Quotient(v, P(w), 0, v);
      } else {
        Quotient(v, P(w), -1, v + P(w));
      }
    }
  }

  lemma {:induction false} SameLow(x: int, v: int, w: nat)
    requires w > 0 && x % P(w) == v % P(w)
    ensures IntValue(x, w) == v <==> FitsSigned(v, w)
  {
    SignedBack(v, w);
    Quotient(v % P(w), P(w), 0, v % P(w));
  }

  // ----------------------------------------------------------- where the fields are

  lemma {:induction false} LowField(x: int, low: int, m: nat, k: nat)
    requires k <= m
    ensures Join(x, low, m) / P(k) == Join(x, low / P(k), m - k) && Join(x, low, m) % P(k) == low % P(k)
  {
    Whole(low, k);
    JoinJoin(x, low / P(k), low % P(k), m - k, k);
    Parts(Join(x, low / P(k), m - k), low % P(k), k);
  }

  lemma MidField(x: int, low: int, m: nat, k: nat, w: nat)
    requires k + w <= m
    ensures Field(Join(x, low, m), k, w) == Field(low, k, w)
  {
    LowField(x, low, m, k);
    LowField(x, low / P(k), m - k, w);
  }

  lemma {:induction false} TopField(x: int, low: int, m: nat, w: nat)
    requires 0 <= low < P(m) && 0 <= x < P(w)
    ensures Field(Join(x, low, m), m, w) == x
  {
    Parts(x, low, m);
    Quotient(x, P(w), 0, x);
  }

  lemma {:induction false} SmallField(x: int, k: nat, w: nat)
    requires 0 <= x < P(k)
    ensures Field(x, k, w) == 0
  {
    Quotient(x, P(k), 0, x);
    Quotient(0, P(w), 0, 0);
  }

  /** The word with three leading fields. */
  lemma Leading(l: Layout, op: int, a: int, b: int, low: int)
    requires LayoutOk(l) && Masked(op, l.o) && Masked(a, l.r) && Masked(b, l.r) && Masked(low, A2(l))
    ensures var tail := Join(a, Join(b, low, A2(l)), A1(l));
      var i := Join(op, tail, A0(l));
      && Masked(tail, A0(l)) && Field(i, A0(l), l.o) == op && Field(i, A1(l), l.r) == a && Field(i, A2(l), l.r) == b
      && i == Join(Join(Join(op, a, l.r), b, l.r), low, A2(l))
  {
    var rest := Join(b, low, A2(l));
    var tail := Join(a, rest, A1(l));
    JoinBound(b, low, A2(l), l.r);
    JoinBound(a, rest, A1(l), l.r);
    TopField(op, tail, A0(l), l.o);
    MidField(op, tail, A0(l), A1(l), l.r);
    TopField(a, rest, A1(l), l.r);
    JoinJoin(op, a, rest, l.r, A1(l));
    MidField(Join(op, a, l.r), rest, A1(l), A2(l), l.r);
    TopField(b, low, A2(l), l.r);
    JoinJoin(Join(op, a, l.r), b, low, l.r, A2(l));
  }

  // -------------------------------------------------------------- encode and decode

  /** The format is that of the opcode. */
  predicate Shaped(f: Fields) {
    match f
    case RI(op, _, _) => op in {0, 2, 3, 10, 11, 14}
    case RRR(op, _, _, _) => op in {1, 5}
    case RRIF(op, _, _, _) => op in {1, 5}
    case RRI(op, _, _, _) => op in {6, 7, 8}
    case RRPI(op, _, _, _, _) => op == 13
    case RR(op, _, _) => op == 9
    case R2(op, _) => op in {4, 12}
    case IF(op, _) => op == 4
    case T(op, _) => op == 15
  }

  /** A signed immediate is in the range of its field, and a parameter or number without a sign is not negative. */
  predicate Representable(l: Layout, f: Fields)
    requires LayoutOk(l)
  {
    match f
    case RI(_, _, imm) => FitsSigned(imm, A1(l))
    case RRIF(_, _, _, imm) => FitsSigned(imm, A2(l) - 1)
    case RRI(_, _, _, imm) => FitsSigned(imm, A2(l))
    case IF(_, imm) => FitsSigned(imm, A0(l) - 1)
    case T(_, imm) => FitsSigned(imm, A0(l))
    case RRPI(_, _, _, par, low) => par >= 0 && low >= 0
    case _ => true
  }

  lemma ParseRRR(l: Layout, f: Fields)
    requires LayoutOk(l) && Shaped(f) && Checked(l, f) && f.RRR?
    ensures Parse(l, Word(l, f)) == Some(f) <==> Representable(l, f)
  {
    var m, x := A2(l), Join(Join(f.op, f.r1, l.r), f.r2, l.r);
    PowerGrows(l.r, m - 1);
    PowerGrows(m - 1, m);
    Leading(l, f.op, f.r1, f.r2, f.r3);
    MidField(x, f.r3, m, m - 1, 1);
    SmallField(f.r3, m - 1, 1);
    LowField(x, f.r3, m, l.r);
    Quotient(f.r3, P(l.r), 0, f.r3);
  }

  lemma ParseRRIF(l: Layout, f: Fields)
    requires LayoutOk(l) && Shaped(f) && Checked(l, f) && f.RRIF?
    ensures Parse(l, Word(l, f)) == Some(f) <==> Representable(l, f)
  {
    var m, x := A2(l), Join(Join(f.op, f.r1, l.r), f.r2, l.r);
    var low := f.imm % P(m - 1);
    JoinBound(1, low, m - 1, 1);
    Leading(l, f.op, f.r1, f.r2, Join(1, low, m - 1));
    MidField(x, Join(1, low, m - 1), m, m - 1, 1);
    TopField(1, low, m - 1, 1);
    LowField(x, Join(1, low, m - 1), m, m - 1);
    Parts(1, low, m - 1);
    SameLow(Word(l, f), f.imm, m - 1);
  }

  lemma ParseRRI(l: Layout, f: Fields)
    requires LayoutOk(l) && Shaped(f) && Checked(l, f) && f.RRI?
    ensures Parse(l, Word(l, f)) == Some(f) <==> Representable(l, f)
  {
    var m, x := A2(l), Join(Join(f.op, f.r1, l.r), f.r2, l.r);
    Leading(l, f.op, f.r1, f.r2, f.imm % P(m));
    Parts(x, f.imm % P(m), m);
    SameLow(Word(l, f), f.imm, m);
  }

  lemma NeverNegative(l: Layout, i: int)
    requires LayoutOk(l) && Parse(l, i).Some? && Parse(l, i).value.RRPI?
    ensures Parse(l, i).value.par >= 0 && Parse(l, i).value.low >= 0
  {
    BitsBound(i, A2(l) - l.p, l.p);
    BitsBound(i, 0, A2(l) - l.p);
  }

  lemma ParseRRPI(l: Layout, f: Fields)
    requires LayoutOk(l) && Shaped(f) && Checked(l, f) && f.RRPI?
    ensures Parse(l, Word(l, f)) == Some(f) <==> Representable(l, f)
  {
    if f.par < 0 || f.low < 0 {
      if Parse(l, Word(l, f)) == Some(f) {
        NeverNegative(l, Word(l, f));
      }
    } else {
      ParseParameter(l, f);
    }
  }

  lemma ParseParameter(l: Layout, f: Fields)
    requires LayoutOk(l) && Shaped(f) && Checked(l, f) && f.RRPI? && f.par >= 0 && f.low >= 0
    ensures Parse(l, Word(l, f)) == Some(f)
  {
    var m, x := A2(l), Join(Join(f.op, f.r1, l.r), f.r2, l.r);
    var k := m - l.p;
    var low := Join(f.par, f.low, k);
    Quotient(f.low, P(k), 0, f.low);
    JoinBound(f.par, f.low, k, l.p);
    Leading(l, f.op, f.r1, f.r2, low);
    MidField(x, low, m, k, l.p);
    TopField(f.par, f.low, k, l.p);
    LowField(x, low, m, k);
    Parts(f.par, f.low, k);
  }

  lemma ParseRR(l: Layout, f: Fields)
    requires LayoutOk(l) && Shaped(f) && Checked(l, f) && f.RR?
    ensures Parse(l, Word(l, f)) == Some(f) <==> Representable(l, f)
  {
    Leading(l, f.op, f.r1, f.r2, 0);
  }

  lemma ParseRI(l: Layout, f: Fields)
    requires LayoutOk(l) && Shaped(f) && Checked(l, f) && f.RI?
    ensures Parse(l, Word(l, f)) == Some(f) <==> Representable(l, f)
  {
    var n, m := A0(l), A1(l);
    var low := f.imm % P(m);
    JoinBound(f.r1, low, m, l.r);
    TopField(f.op, Join(f.r1, low, m), n, l.o);
    MidField(f.op, Join(f.r1, low, m), n, m, l.r);
    TopField(f.r1, low, m, l.r);
    LowField(f.op, Join(f.r1, low, m), n, m);
    Parts(f.r1, low, m);
    SameLow(Word(l, f), f.imm, m);
  }

  lemma ParseR2(l: Layout, f: Fields)
    requires LayoutOk(l) && Shaped(f) && Checked(l, f) && f.R2?
    ensures Parse(l, Word(l, f)) == Some(f) <==> Representable(l, f)
  {
    var n := A0(l);
    Leading(l, f.op, 0, f.r2, 0);
    var tail := Join(0, Join(f.r2, 0, A2(l)), A1(l));
    JoinBound(f.r2, 0, A2(l), l.r);
    PowerGrows(A1(l), n - 1);
    MidField(f.op, tail, n, n - 1, 1);
    SmallField(tail, n - 1, 1);
  }

  lemma ParseIF(l: Layout, f: Fields)
    requires LayoutOk(l) && Shaped(f) && Checked(l, f) && f.IF?
    ensures Parse(l, Word(l, f)) == Some(f) <==> Representable(l, f)
  {
    var n := A0(l);
    var low := f.imm % P(n - 1);
    var tail := Join(1, low, n - 1);
    JoinBound(1, low, n - 1, 1);
    TopField(f.op, tail, n, l.o);
    MidField(f.op, tail, n, n - 1, 1);
    TopField(1, low, n - 1, 1);
    LowField(f.op, tail, n, n - 1);
    Parts(1, low, n - 1);
    SameLow(Word(l, f), f.imm, n - 1);
  }

  lemma ParseT(l: Layout, f: Fields)
    requires LayoutOk(l) && Shaped(f) && Checked(l, f) && f.T?
    ensures Parse(l, Word(l, f)) == Some(f) <==> Representable(l, f)
  {
    var n := A0(l);
    TopField(f.op, f.imm % P(n), n, l.o);
    Parts(f.op, f.imm % P(n), n);
    SameLow(Word(l, f), f.imm, n);
  }

  /** Decoding gives back what was encoded exactly when every number is in the range of its field. */
  lemma DecodeEncoded(l: Layout, f: Fields)
    requires LayoutOk(l) && Shaped(f) && Checked(l, f)
    ensures Parse(l, Make(l, f).value) == Some(f) <==> Representable(l, f)
  {
    match f
    case RI(_, _, _) => ParseRI(l, f);
    case RRR(_, _, _, _) => ParseRRR(l, f);
    case RRIF(_, _, _, _) => ParseRRIF(l, f);
    case RRI(_, _, _, _) => ParseRRI(l, f);
    case RRPI(_, _, _, _, _) => ParseRRPI(l, f);
    case RR(_, _, _) => ParseRR(l, f);
    case R2(_, _) => ParseR2(l, f);
    case IF(_, _) => ParseIF(l, f);
    case T(_, _) => ParseT(l, f);
  }

  /** A negative parameter, which passes the checks, puts ones all over the opcode. */
  lemma OpcodeOverwritten(l: Layout, f: Fields)
    requires LayoutOk(l) && f.RRPI? && Checked(l, f) && f.par < 0
    ensures Field(Make(l, f).value, A0(l), l.o) == P(l.o) - 1
  {
    var rest := Join(f.op, Tail(l, f.(par := 0)), A0(l));
    Overwritten(rest, f.par, l.p, A2(l) - l.p, A0(l), l.o, l.n);
  }

  lemma {:induction false} Overwritten(rest: int, par: int, p: nat, k: nat, at: nat, w: nat, bits: nat)
    requires par < 0 && Abs(par) < P(p) && p + k <= at && at + w <= bits
    ensures Field(Bitwise(BitOr, rest, par * P(k), bits), at, w) == P(w) - 1
  {
    ShiftedRange(par, p, k);
    OrOnes(rest, par * P(k), p + k, bits);
    TopOnes(Bitwise(BitOr, rest, par * P(k), bits), bits, p + k, at, w);
  }

  lemma ShiftedRange(par: int, p: nat, k: nat)
    requires par < 0 && Abs(par) < P(p)
    ensures -(P(p + k) as int) <= par * P(k) < 0
  {
    PowerSum(p, k);
    Scale(par, -1, P(k));
    Scale(-(P(p) as int), par, P(k));
    Distribute(0, P(p), P(k));
  }

  lemma HigherOnes(i: int, bits: nat, m: nat, e: nat)
    requires m + e <= bits && i / P(m) == P(bits - m) - 1
    ensures i / P(m + e) == P(bits - (m + e)) - 1
  {
    DivideTwice(i, m, e);
    OnesHigh(bits - m, e);
  }

  /** A word whose bits from m on are ones has ones in every field there. */
  lemma TopOnes(i: int, bits: nat, m: nat, at: nat, w: nat)
    requires m <= at && at + w <= bits && i / P(m) == P(bits - m) - 1
    ensures Field(i, at, w) == P(w) - 1
  {
    HigherOnes(i, bits, m, at - m);
    OnesLow(bits - at, w);
  }

  lemma DivideTwice(x: int, a: nat, b: nat)
    ensures x / P(a + b) == x / P(a) / P(b)
  {
    var q := x / P(a);
    Whole(x, a);
    Whole(q, b);
    JoinJoin(q / P(b), q % P(b), x % P(a), b, a);
    JoinBound(q % P(b), x % P(a), a, b);
    Parts(q / P(b), Join(q % P(b), x % P(a), a), b + a);
  }

  lemma OnesHigh(a: nat, b: nat)
    requires b <= a
    ensures (P(a) - 1) / P(b) == P(a - b) - 1
  {
    PowerSum(a - b, b);
    Distribute(P(a - b), 1, P(b));
    Quotient(P(a) - 1, P(b), P(a - b) - 1, P(b) - 1);
  }

  lemma {:induction false} OnesLow(a: nat, b: nat)
    requires b <= a
    ensures (P(a) - 1) % P(b) == P(b) - 1
  {
    PowerSum(a - b, b);
    Distribute(P(a - b), 1, P(b));
    Quotient(P(a) - 1, P(b), P(a - b) - 1, P(b) - 1);
  }

  // ------------------------------------------------------------------- conversions

  lemma {:induction false} BitsBound(x: int, at: nat, w: nat)
    ensures Masked(Field(x, at, w), w) && Masked(x % P(w), w)
  {
  }

  /** Register numbers and parameters fit their fields. */
  predicate Within(l: Layout, f: Fields)
    requires LayoutOk(l)
  {
    match f
    case RI(_, r1, _) => Masked(r1, l.r)
    case RRR(_, r1, r2, r3) => Masked(r1, l.r) && Masked(r2, l.r) && Masked(r3, l.r)
    case RRPI(_, r1, r2, par, low) => Masked(r1, l.r) && Masked(r2, l.r) && Masked(par, l.p) && Masked(low, A2(l) - l.p)
    case R2(_, r2) => Masked(r2, l.r)
    case IF(_, _) => true
    case T(_, _) => true
    case _ => Masked(f.r1, l.r) && Masked(f.r2, l.r)
  }

  lemma ParsedWithin(l: Layout, i: int)
    requires LayoutOk(l) && Parse(l, i).Some?
    ensures var f := Parse(l, i).value; Shaped(f) && Within(l, f) && 0 <= f.op < 16
  {
    BitsBound(i, A1(l), l.r);
    BitsBound(i, A2(l), l.r);
    if Parse(l, i).value.RRPI? {
      BitsBound(i, A2(l) - l.p, l.p);
      BitsBound(i, 0, A2(l) - l.p);
    }
  }

  lemma ParsedSigned(l: Layout, i: int)
    requires LayoutOk(l) && Parse(l, i).Some?
    ensures Representable(l, Parse(l, i).value)
  {
    match Parse(l, i).value
    case RI(_, _, _) => SignedBack(i, A1(l));
    case RRIF(_, _, _, _) => SignedBack(i, A2(l) - 1);
    case RRI(_, _, _, _) => SignedBack(i, A2(l));
    case IF(_, _) => SignedBack(i, A0(l) - 1);
    case T(_, _) => SignedBack(i, A0(l));
    case _ =>
  }

  /** What a word is taken apart into fits the layout it comes from. */
  lemma Parsed(l: Layout, i: int)
    requires LayoutOk(l) && Parse(l, i).Some?
    ensures var f := Parse(l, i).value; Shaped(f) && Representable(l, f) && Within(l, f) && 0 <= f.op < 16
  {
    ParsedWithin(l, i);
    ParsedSigned(l, i);
  }

  /**
   What the checks of layout l refuse although it fits: the least immediate of RRI, and a trap vector with its top bit
   set.
   */
  predicate Refused(l: Layout, f: Fields)
    requires LayoutOk(l)
  {
    (f.RRI? && f.imm == -(P(A2(l) - 1) as int)) || (f.T? && f.imm < 0)
  }

  lemma SignedWider(x: int, v: nat, w: nat)
    requires 0 < v <= w && FitsSigned(x, v)
    ensures FitsSigned(x, w) && Abs(x) <= P(w - 1) < P(w)
  {
    PowerGrows(v - 1, w - 1);
  }

  ghost predicate Converts(a: Layout, b: Layout, f: Fields)
    requires LayoutOk(a) && LayoutOk(b)
  {
    Wider(a, b) && Shaped(f) && Representable(a, f) && Within(a, f) && 0 <= f.op < 16
  }

  lemma OpcodeWider(b: Layout, op: int)
    requires LayoutOk(b) && 0 <= op < 16
    ensures Masked(op, b.o)
  {
    PowerGrows(4, b.o);
    assert P(4) == 16;
  }

  /** Formats with a signed immediate. */
  lemma ImmediateWider(a: Layout, b: Layout, f: Fields)
    requires LayoutOk(a) && LayoutOk(b) && Converts(a, b, f) && (f.IF? || f.T?)
    ensures (Checked(b, f) <==> !Refused(b, f)) && Representable(b, f)
  {
    OpcodeWider(b, f.op);
    if f.IF? {
      SignedWider(f.imm, A0(a) - 1, A0(b) - 1);
    } else {
      SignedWider(f.imm, A0(a), A0(b));
    }
  }

  lemma SignedFieldsWider(a: Layout, b: Layout, f: Fields)
    requires LayoutOk(a) && LayoutOk(b) && Converts(a, b, f) && (f.RI? || f.RRIF? || f.RRI?)
    ensures (Checked(b, f) <==> !Refused(b, f)) && Representable(b, f)
  {
    OpcodeWider(b, f.op);
    PowerGrows(a.r, b.r);
    match f
    case RI(_, _, imm) => SignedWider(imm, A1(a), A1(b));
    case RRIF(_, _, _, imm) => SignedWider(imm, A2(a) - 1, A2(b) - 1);
    case RRI(_, _, _, imm) => SignedWider(imm, A2(a), A2(b));
  }

  lemma FieldsWider(a: Layout, b: Layout, f: Fields)
    requires LayoutOk(a) && LayoutOk(b) && Converts(a, b, f)
    ensures (Checked(b, f) <==> !Refused(b, f)) && Representable(b, f)
  {
    if f.RI? || f.RRIF? || f.RRI? {
      SignedFieldsWider(a, b, f);
    } else if f.IF? || f.T? {
      ImmediateWider(a, b, f);
    } else {
      OpcodeWider(b, f.op);
      PowerGrows(a.r, b.r);
      PowerGrows(a.p, b.p);
      PowerGrows(A2(a) - a.p, A2(b) - b.p);
    }
  }

  lemma CheckedWider(a: Layout, b: Layout, i: int)
    requires LayoutOk(a) && LayoutOk(b) && Wider(a, b) && Parse(a, i).Some?
    ensures var f := Parse(a, i).value; (Checked(b, f) <==> !Refused(b, f)) && Representable(b, f)
  {
    Parsed(a, i);
    FieldsWider(a, b, Parse(a, i).value);
  }

  /** Widening keeps every field, and fails exactly on what the checks refuse. */
  lemma Widening(a: Layout, b: Layout, i: int)
    requires LayoutOk(a) && LayoutOk(b) && Wider(a, b) && Parse(a, i).Some?
    ensures var f := Parse(a, i).value;
      if Refused(b, f) then Convert(a, b, i) == None
      else Convert(a, b, i).Some? && Parse(b, Convert(a, b, i).value) == Some(f)
  {
    Parsed(a, i);
    CheckedWider(a, b, i);
    if !Refused(b, Parse(a, i).value) {
      DecodeEncoded(b, Parse(a, i).value);
    }
  }

  lemma WiderSelf(a: Layout)
    ensures Wider(a, a)
  {
  }

  /** The word with the bits that its format does not use cleared. */
  function Cleared(l: Layout, i: int): int
    requires LayoutOk(l) && Parse(l, i).Some?
  {
    match Parse(l, i).value
    case RRR(_, _, _, _) => Join(i / P(A2(l)), i % P(l.r), A2(l))
    case RR(_, _, _) => Join(i / P(A2(l)), 0, A2(l))
    case R2(_, _) => Join(i / P(A0(l)), Join(Field(i, A2(l), l.r), 0, A2(l)), A0(l))
    case _ => i
  }

  lemma {:induction false} SplitLow(i: int, k: nat, w: nat)
    ensures i % P(k + w) == Join(Field(i, k, w), i % P(k), k)
    ensures i / P(k) == Join(i / P(k + w), Field(i, k, w), w)
  {
    var q := i / P(k);
    Whole(i, k);
    Whole(q, w);
    JoinJoin(q / P(w), q % P(w), i % P(k), w, k);
    JoinBound(q % P(w), i % P(k), k, w);
    Parts(q / P(w), Join(q % P(w), i % P(k), k), w + k);
  }

  lemma {:induction false} LowOfSigned(i: int, w: nat)
    requires w > 0
    ensures IntValue(i, w) % P(w) == i % P(w)
  {
    var v := i % P(w);
    Quotient(v, P(w), 0, v);
    if v >= P(w - 1) {
      Quotient(v - P(w), P(w), -1, v);
    }
  }

  /** What comes after the opcode, in formats that use every bit. */
  lemma TailRebuilt(l: Layout, i: int)
    requires LayoutOk(l) && Parse(l, i).Some?
    requires var f := Parse(l, i).value; !f.RRR? && !f.RR? && !f.R2?
    ensures Tail(l, Parse(l, i).value) == i % P(A0(l))
  {
    var n, m, k := A0(l), A1(l), A2(l);
    SplitLow(i, m, l.r);
    match Parse(l, i).value
    case RI(_, _, _) => LowOfSigned(i, m);
    case IF(_, _) =>
      LowOfSigned(i, n - 1);
      SplitLow(i, n - 1, 1);
    case T(_, _) => LowOfSigned(i, n);
    case _ => TwoRebuilt(l, i);
  }

  lemma TwoRebuilt(l: Layout, i: int)
    requires LayoutOk(l) && Parse(l, i).Some?
    requires var f := Parse(l, i).value; f.RRI? || f.RRIF? || f.RRPI?
    ensures Tail(l, Parse(l, i).value) == i % P(A0(l))
  {
    var k := A2(l);
    SplitLow(i, A1(l), l.r);
    SplitLow(i, k, l.r);
    match Parse(l, i).value
    case RRI(_, _, _, _) => LowOfSigned(i, k);
    case RRIF(_, _, _, _) =>
      LowOfSigned(i, k - 1);
      SplitLow(i, k - 1, 1);
    case RRPI(_, _, _, _, low) =>
      SplitLow(i, k - l.p, l.p);
      Quotient(low, P(k - l.p), 0, low);
  }

  lemma PartRebuilt(l: Layout, i: int)
    requires LayoutOk(l) && Parse(l, i).Some? && 0 <= i < P(l.n)
    requires var f := Parse(l, i).value; f.RRR? || f.RR? || f.R2?
    ensures Word(l, Parse(l, i).value) == Cleared(l, i)
  {
    var f, m, k := Parse(l, i).value, A1(l), A2(l);
    OpcodeTop(l, i);
    SplitLow(i, m, l.r);
    SplitLow(i, k, l.r);
    if !f.R2? {
      var low := if f.RRR? then f.r3 else 0;
      JoinJoin(f.op, f.r1, Join(f.r2, low, k), l.r, m);
      JoinJoin(Join(f.op, f.r1, l.r), f.r2, low, l.r, k);
    }
  }

  /** Putting together what a word was taken apart into. */
  lemma Rebuilt(l: Layout, i: int)
    requires LayoutOk(l) && Parse(l, i).Some? && 0 <= i < P(l.n)
    ensures Word(l, Parse(l, i).value) == Cleared(l, i)
  {
    var f := Parse(l, i).value;
    if f.RRR? || f.RR? || f.R2? {
      PartRebuilt(l, i);
    } else {
      if f.RRPI? {
        NeverNegative(l, i);
      }
      OpcodeTop(l, i);
      TailRebuilt(l, i);
      Whole(i, A0(l));
    }
  }

  lemma OpcodeTop(l: Layout, i: int)
    requires LayoutOk(l) && 0 <= i < P(l.n)
    ensures Field(i, A0(l), l.o) == i / P(A0(l))
  {
    SplitLow(i, A0(l), l.o);
    Quotient(i, P(l.n), 0, i);
    assert A0(l) + l.o == l.n;
    assert i / P(A0(l)) == Join(0, Field(i, A0(l), l.o), l.o);
  }

  /**
   Widening and narrowing again gives the word with its unused bits cleared, or fails exactly on what the checks of the
   narrow layout refuse.
   */
  lemma ThereAndBack(a: Layout, b: Layout, i: int)
    requires LayoutOk(a) && LayoutOk(b) && Wider(a, b) && Parse(a, i).Some? && 0 <= i < P(a.n)
    requires !Refused(b, Parse(a, i).value)
    ensures Convert(a, b, i).Some?
    ensures Convert(b, a, Convert(a, b, i).value) == if Refused(a, Parse(a, i).value) then None else Some(Cleared(a, i))
  {
    Widening(a, b, i);
    WiderSelf(a);
    CheckedWider(a, a, i);
    Rebuilt(a, i);
  }
}
