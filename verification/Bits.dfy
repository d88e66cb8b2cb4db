/** Powers of two, division by them, and bitwise operations on the low bits of a number. */
module Bits {

  // -------------------------------------------------------------- powers of two

  function P(k: nat): (r: nat) ensures r > 0 { if k == 0 then 1 else 2 * P(k - 1) }

  lemma {:induction false} PowerSum(a: nat, b: nat)
    ensures P(a + b) == P(a) * P(b)
  {
    if a > 0 {
      PowerSum(a - 1, b);
      Twice(P(a - 1), P(b));
    }
  }

  lemma Twice(x: int, y: int)
    ensures 2 * (x * y) == (2 * x) * y
  {
  }

  lemma {:induction false} PowerGrows(a: nat, b: nat)
    requires a <= b
    ensures P(a) <= P(b)
  {
    if a < b {
      PowerGrows(a, b - 1);
    }
  }

  // ------------------------------------------------------------------- division

  lemma Quotient(x: int, m: nat, q: int, r: int)
    requires m > 0 && x == q * m + r && 0 <= r < m
    ensures x / m == q && x % m == r
  {
    var d := x / m - q;
    Distribute(x / m, q, m);
    if d >= 1 {
      Scale(1, d, m);
    } else if d <= -1 {
      Scale(d, -1, m);
    }
  }

  lemma Distribute(x: int, y: int, m: int)
    ensures (x - y) * m == x * m - y * m
  {
  }

  lemma Scale(a: int, b: int, m: nat)
    requires a <= b
    ensures a * m <= b * m
  {
  }

  // --------------------------------------------------------- bitwise operations

  datatype BitOp = BitAnd | BitOr | BitXor

  function OneBit(op: BitOp, x: int, y: int): (r: nat) ensures r < 2 {
    match op
    case BitAnd => if x == 1 && y == 1 then 1 else 0
    case BitOr => if x == 1 || y == 1 then 1 else 0
    case BitXor => if x != y then 1 else 0
  }

  /** The operation on the low n bits of a and b, in two's complement. */
  function Bitwise(op: BitOp, a: int, b: int, n: nat): (r: nat)
    ensures r < P(n)
    decreases n, a
  {
    if n == 0 then 0 else OneBit(op, a % 2, b % 2) + 2 * Bitwise(op, a / 2, b / 2, n - 1)
  }

  lemma {:induction false} BitwiseCommutes(op: BitOp, a: int, b: int, n: nat)
    ensures Bitwise(op, a, b, n) == Bitwise(op, b, a, n)
    decreases n
  {
    if n > 0 {
      BitwiseCommutes(op, a / 2, b / 2, n - 1);
    }
  }

  lemma HalfMod(a: int, n: nat)
    requires n > 0
    ensures a % P(n) == a % 2 + 2 * (a / 2 % P(n - 1))
  {
    var h := a / 2;
    Twice(h / P(n - 1), P(n - 1));
    Quotient(a, P(n), h / P(n - 1), a % 2 + 2 * (h % P(n - 1)));
  }

  lemma MaskHalf(k: nat)
    requires k > 0
    ensures (P(k) - 1) % 2 == 1 && (P(k) - 1) / 2 == P(k - 1) - 1
  {
  }

  /** A mask of k ones keeps the low k bits. */
  lemma {:induction false} AndMask(a: int, k: nat, n: nat)
    requires k <= n
    ensures Bitwise(BitAnd, a, P(k) - 1, n) == a % P(k)
    decreases n
  {
    if k == 0 {
      AndZero(a, n);
    } else {
      AndMask(a / 2, k - 1, n - 1);
      HalfMod(a, k);
      MaskHalf(k);
      assert Bitwise(BitAnd, a, P(k) - 1, n) == OneBit(BitAnd, a % 2, 1) + 2 * (a / 2 % P(k - 1));
    }
  }

  lemma {:induction false} AndZero(a: int, n: nat)
    ensures Bitwise(BitAnd, a, 0, n) == 0
    decreases n
  {
    if n > 0 {
      AndZero(a / 2, n - 1);
    }
  }

  lemma {:induction false} OrXorZero(op: BitOp, a: int, n: nat)
    requires op != BitAnd
    ensures Bitwise(op, a, 0, n) == a % P(n)
    decreases n
  {
    if n > 0 {
      OrXorZero(op, a / 2, n - 1);
      HalfMod(a, n);
    }
  }

  lemma {:induction false} OrAll(x: int, n: nat)
    ensures Bitwise(BitOr, x, -1, n) == P(n) - 1
    decreases n
  {
    if n > 0 {
      OrAll(x / 2, n - 1);
      assert -1 / 2 == -1 && -1 % 2 == 1;
    }
  }

  lemma HalfQuotient(half: int, bit: nat, m: nat)
    requires bit < 2 && m > 0
    ensures (bit + 2 * half) / P(m) == half / P(m - 1)
  {
    var q, r := half / P(m - 1), half % P(m - 1);
    Twice(q, P(m - 1));
    Quotient(bit + 2 * half, P(m), q, 2 * r + bit);
  }

  /** Bit k of a number in two's complement. */
  function Bit(a: int, k: nat): (b: nat) ensures b < 2 { a / P(k) % 2 }

  lemma BitHalf(a: int, k: nat)
    requires k > 0
    ensures Bit(a, k) == Bit(a / 2, k - 1)
  {
    HalfQuotient(a / 2, a % 2, k);
  }

  /** What the operations do to each bit, in arithmetic. */
  lemma {:induction false} BitwiseBits(op: BitOp, a: int, b: int, n: nat, k: nat)
    requires k < n
    ensures var x, y := a / P(k) % 2, b / P(k) % 2;
      Bitwise(op, a, b, n) / P(k) % 2
      == match op case BitAnd => x * y case BitOr => x + y - x * y case BitXor => (x + y) % 2
    decreases n
  {
    if k > 0 {
      BitwiseBits(op, a / 2, b / 2, n - 1, k - 1);
      BitHalf(a, k);
      BitHalf(b, k);
      BitHalf(Bitwise(op, a, b, n), k);
    }
  }

  /** Complementing turns every bit around. */
  lemma {:induction false} ComplementBits(a: int, k: nat)
    ensures (-a - 1) / P(k) % 2 == 1 - a / P(k) % 2
    decreases k
  {
    if k > 0 {
      ComplementBits(a / 2, k - 1);
      BitHalf(a, k);
      BitHalf(-a - 1, k);
      assert (-a - 1) / 2 == -(a / 2) - 1;
    }
  }

  /** Or with a negative number whose size is at most two to the m: all bits from m on are ones. */
  lemma {:induction false} OrOnes(x: int, y: int, m: nat, n: nat)
    requires m <= n && -(P(m) as int) <= y < 0
    ensures Bitwise(BitOr, x, y, n) / P(m) == P(n - m) - 1
    decreases m
  {
    if m == 0 {
      OrAll(x, n);
    } else {
      OrOnes(x / 2, y / 2, m - 1, n - 1);
      HalfQuotient(Bitwise(BitOr, x / 2, y / 2, n - 1), OneBit(BitOr, x % 2, y % 2), m);
    }
  }

  // ---------------------------------------------------------------- powers of two, found

  /** n when u is two to the n and n is not 0, otherwise 0. */
  function PowerOf(u: int): (n: nat)
    ensures n != 0 ==> u == P(n)
    decreases if u < 0 then 0 else u
  {
    if u <= 1 then 0
    else if u == 2 then 1
    else if u % 2 == 0 && PowerOf(u / 2) != 0 then 1 + PowerOf(u / 2)
    else 0
  }

  lemma {:induction false} PowerFound(k: nat)
    requires k > 0
    ensures PowerOf(P(k)) == k
  {
    if k > 1 {
      PowerFound(k - 1);
      assert P(k - 1) >= 2;
    }
  }

  /** u and u - 1 have no bit in common exactly when u is a power of two. */
  lemma {:induction false} NoCommonBit(u: int, n: nat)
    requires 1 < u < P(n)
    ensures Bitwise(BitAnd, u, u - 1, n) == 0 <==> PowerOf(u) != 0
    decreases n
  {
    if u % 2 == 1 {
      assert (u - 1) / 2 == u / 2 && (u - 1) % 2 == 0;
      AndSelf(u / 2, n - 1);
    } else {
      assert (u - 1) / 2 == u / 2 - 1 && (u - 1) % 2 == 1;
      if u > 2 {
        NoCommonBit(u / 2, n - 1);
      } else {
        AndZero(1, n - 1);
      }
    }
  }

  lemma {:induction false} AndSelf(u: int, n: nat)
    requires 0 < u < P(n)
    ensures Bitwise(BitAnd, u, u, n) > 0
    decreases n
  {
    if u > 1 {
      AndSelf(u / 2, n - 1);
    }
  }

  /** Looks for the one bit that is set. */
  method IsPow2(u: int, bits: nat) returns (n: nat)
    requires 0 <= u < P(bits)
    ensures n == PowerOf(u)
  {
    n := 0;
    if u > 1 {
      NoCommonBit(u, bits);
      if Bitwise(BitAnd, u, u - 1, bits) == 0 {
        var v := u;
        while v != 0
          invariant 0 <= v && (PowerOf(v) != 0 || v == 1) && PowerOf(u) == n + PowerOf(v)
          decreases v
        {
          if v % 2 == 1 {
            return;
          }
          v, n := v / 2, n + 1;
        }
      }
    }
  }
}
