/**
 Reading and writing bit-fields: the expressions of masks and shifts that the
 compiler puts for them, over words of bits, and what they do to the memory of
 the structure that Fields has laid out.
 */
module BitAccess {
  import opened BitFields
  import opened Bits

  /** The bits of a word, the least significant first. */
  type Word = seq<bool>

  function Fill(n: nat, b: bool): (r: Word) ensures |r| == n { seq(n, i => b) }

  function And(a: Word, b: Word): (r: Word)
    requires |a| == |b|
    ensures |r| == |a|
  {
    seq(|a|, i requires 0 <= i < |a| => a[i] && b[i])
  }

  function Or(a: Word, b: Word): (r: Word)
    requires |a| == |b|
    ensures |r| == |a|
  {
    seq(|a|, i requires 0 <= i < |a| => a[i] || b[i])
  }

  function Not(a: Word): (r: Word) ensures |r| == |a| { seq(|a|, i requires 0 <= i < |a| => !a[i]) }

  function Lsh(a: Word, n: nat): (r: Word)
    requires n < |a|
    ensures |r| == |a|
  {
    seq(|a|, i requires 0 <= i < |a| => i >= n && a[i - n])
  }

  /** Shift to the right; the bit that comes in is 0, or the sign. */
  function Rsh(a: Word, n: nat, arithmetic: bool): (r: Word)
    requires n < |a|
    ensures |r| == |a|
  {
    seq(|a|, i requires 0 <= i < |a| => if i + n < |a| then a[i + n] else arithmetic && a[|a| - 1])
  }

  // -------------------------------------------------- the expressions for an access

  /** A bit-field of at least one bit that lies inside a word of the target. */
  predicate Accessible(t: Target, f: Field) { f.lsb != 0 && InWord(t, f) && 0 < f.bitsize }

  function Right(f: Field): int { f.lsb - 1 }

  /** w is the word with the n bits from r on replaced by the low bits of v. */
  predicate Inserts(word: Word, r: int, n: nat, v: Word, w: Word)
    requires 0 <= r && r + n <= |word| == |v|
  {
    |w| == |word| && forall p {:trigger w[p]} :: 0 <= p < |w| ==> w[p] == if r <= p < r + n then v[p - r] else word[p]
  }

  /** w is the n bits from r on, extended to a word with zeros or with their sign. */
  predicate Extracts(word: Word, r: int, n: nat, signed: bool, w: Word)
    requires 0 <= r && 0 < n && r + n <= |word|
  {
    |w| == |word| && forall i {:trigger w[i]} :: 0 <= i < |w| ==>
      w[i] == if i < n then word[r + i] else signed && word[r + n - 1]
  }

  function FieldMask(t: Target, f: Field): (r: Word)
    ensures |r| == W(t)
  {
    Not(if f.bitsize < W(t) then Lsh(Fill(W(t), true), f.bitsize) else Fill(W(t), false))
  }

  lemma MaskBits(t: Target, f: Field)
    ensures forall i :: 0 <= i < W(t) ==> (FieldMask(t, f)[i] <==> i < f.bitsize)
  {
  }

  /** The word that is stored when v is assigned to f; constants that are zero or all ones need no shift. */
  method StoredWord(t: Target, f: Field, word: Word, v: Word, constant: bool) returns (w: Word)
    requires Accessible(t, f) && |word| == |v| == W(t)
    ensures Inserts(word, Right(f), f.bitsize, v, w)
  {
    if f.bitsize < W(t) {
      var fmask := FieldMask(t, f);
      var mask := Lsh(fmask, Right(f));
      MaskBits(t, f);
      if constant && v == Fill(W(t), false) {
        w := And(word, Not(mask));
      } else if constant && And(v, fmask) == fmask {
        w := Or(word, mask);
        forall i | 0 <= i < f.bitsize ensures v[i] {
          assert And(v, fmask)[i] == fmask[i];
        }
      } else {
        w := Or(And(word, Not(mask)), And(Lsh(v, Right(f)), mask));
      }
    } else {
      w := v;
    }
  }

  /** Shifting up to the top and down again extends the sign. */
  lemma ShiftedPair(word: Word, r: int, n: nat)
    requires 0 <= r && 0 < n && r + n <= |word|
    ensures Extracts(word, r, n, true, Rsh(Lsh(word, |word| - n - r), |word| - n, true))
  {
  }

  /** Shifting down and masking clears what is above. */
  lemma ShiftedDown(word: Word, mask: Word, r: int, n: nat)
    requires 0 <= r && 0 < n && r + n <= |word| == |mask| && forall i :: 0 <= i < |mask| ==> (mask[i] <==> i < n)
    ensures Extracts(word, r, n, false, And(Rsh(word, r, false), mask))
  {
  }

  /** The value that is read from f. */
  method LoadedValue(t: Target, f: Field, word: Word, signed: bool) returns (v: Word)
    requires Accessible(t, f) && |word| == W(t)
    ensures Extracts(word, Right(f), f.bitsize, signed, v)
  {
    if signed {
      var n := W(t) - f.bitsize - Right(f);
      v := Rsh(Lsh(word, n), n + Right(f), true);
      ShiftedPair(word, Right(f), f.bitsize);
    } else if f.bitsize < W(t) {
      MaskBits(t, f);
      ShiftedDown(word, FieldMask(t, f), Right(f), f.bitsize);
      v := And(Rsh(word, Right(f), false), FieldMask(t, f));
    } else {
      v := word;
    }
  }

  // --------------------------------------------------------------- values in numbers

  function Unsigned(w: Word): nat { if w == [] then 0 else (if w[0] then 1 else 0) + 2 * Unsigned(w[1..]) }

  function Signed(w: Word): int
    requires w != []
  {
    Unsigned(w) - if w[|w| - 1] then P(|w|) else 0
  }

  /** The low n bits of v as a word of the same width, extended with zeros or with their sign. */
  function Reduced(v: Word, n: nat, signed: bool): (w: Word)
    requires 0 < n <= |v|
    ensures |w| == |v|
  {
    v[..n] + Fill(|v| - n, signed && v[n - 1])
  }

  lemma {:induction false} UnsignedFill(n: nat, b: bool)
    ensures Unsigned(Fill(n, b)) == if b then P(n) - 1 else 0
  {
    if n > 0 {
      UnsignedFill(n - 1, b);
      assert Fill(n, b)[1..] == Fill(n - 1, b);
    }
  }

  lemma {:induction false} UnsignedSplit(v: Word, n: nat)
    requires n <= |v|
    ensures Unsigned(v) == Unsigned(v[..n]) + P(n) * Unsigned(v[n..])
    ensures Unsigned(v[..n]) < P(n)
  {
    if n == 0 {
      assert v[0..] == v && v[..0] == [];
    } else {
      UnsignedSplit(v[1..], n - 1);
      assert v[..n][1..] == v[1..][..n - 1] && v[1..][n - 1..] == v[n..] && v[..n][0] == v[0];
      Twice(P(n - 1), Unsigned(v[n..]));
    }
  }

  ghost predicate Congruent(a: int, b: int, m: int) { exists q: int :: a == b + m * q }

  lemma {:induction false} UnsignedAppend(a: Word, b: Word)
    ensures Unsigned(a + b) == Unsigned(a) + P(|a|) * Unsigned(b)
  {
    UnsignedSplit(a + b, |a|);
    assert (a + b)[..|a|] == a && (a + b)[|a|..] == b;
  }

  lemma FillAbove(n: nat, k: nat, b: bool)
    ensures P(n) * Unsigned(Fill(k, b)) == if b then P(n + k) - P(n) else 0
  {
    UnsignedFill(k, b);
    if b {
      PowerSum(n, k);
      Spread(P(n), P(k), 0, 1);
    }
  }

  lemma {:induction false} ReducedLow(v: Word, n: nat, signed: bool)
    requires 0 < n <= |v|
    ensures var sign := signed && v[n - 1];
      Unsigned(Reduced(v, n, signed)) == Unsigned(v[..n]) + if sign then P(|v|) - P(n) else 0
  {
    var k, sign := |v| - n, signed && v[n - 1];
    UnsignedAppend(v[..n], Fill(k, sign));
    FillAbove(n, k, sign);
  }

  lemma LowBound(v: Word, n: nat)
    requires 0 < n <= |v|
    ensures if v[n - 1] then P(n - 1) <= Unsigned(v[..n]) < P(n) else Unsigned(v[..n]) < P(n - 1)
  {
    var low := v[..n];
    UnsignedSplit(low, n - 1);
    assert low[n - 1..] == [v[n - 1]] && [v[n - 1]][1..] == [];
    assert Unsigned([v[n - 1]]) == if v[n - 1] then 1 else 0;
  }

  /** An unsigned field holds the value modulo two to its width. */
  lemma {:induction false} ReducedUnsigned(v: Word, n: nat)
    requires 0 < n <= |v|
    ensures Congruent(Unsigned(v), Unsigned(Reduced(v, n, false)), P(n))
    ensures 0 <= Unsigned(Reduced(v, n, false)) < P(n)
  {
    UnsignedSplit(v, n);
    ReducedLow(v, n, false);
    LowBound(v, n);
  }

  /** A signed field holds the number between its bounds that is congruent to the value. */
  lemma ReducedSigned(v: Word, n: nat)
    requires 0 < n <= |v|
    ensures Congruent(Signed(v), Signed(Reduced(v, n, true)), P(n))
    ensures 0 - P(n - 1) <= Signed(Reduced(v, n, true)) < P(n - 1)
  {
    ReducedLow(v, n, true);
    LowBound(v, n);
    assert Reduced(v, n, true)[|v| - 1] == v[n - 1];
    UnsignedSplit(v, n);
    PowerSum(n, |v| - n);
    var high, top, carry := Unsigned(v[n..]), if v[|v| - 1] then P(|v| - n) else 0, if v[n - 1] then 1 else 0;
    Spread(P(n), high, carry, top);
    assert Signed(v) == Signed(Reduced(v, n, true)) + P(n) * (high + carry - top);
  }

  lemma Spread(p: int, x: int, y: int, z: int)
    ensures p * (x + y - z) == p * x + p * y - p * z
  {
  }

  // ------------------------------------------------------------------------- memory

  /** Memory is a sequence of bits in the order of addresses; this is the address of bit p of the word at byte `off`. */
  function Address(t: Target, off: int, p: int): int { 8 * off + if t.little then p else W(t) - 1 - p }

  predicate Inside(t: Target, mem: seq<bool>, off: int) { 0 <= off && 8 * off + W(t) <= |mem| }

  method Fetch(t: Target, mem: seq<bool>, off: int) returns (w: Word)
    requires Inside(t, mem, off)
    ensures |w| == W(t) && forall p {:trigger w[p]} :: 0 <= p < W(t) ==> w[p] == mem[Address(t, off, p)]
  {
    w := seq(W(t), p requires 0 <= p < W(t) => mem[Address(t, off, p)]);
  }

  method Write(t: Target, mem: seq<bool>, off: int, w: Word) returns (mem': seq<bool>)
    requires Inside(t, mem, off) && |w| == W(t)
    ensures |mem'| == |mem|
    ensures forall i {:trigger mem'[i]} :: 0 <= i < |mem| ==>
      mem'[i] == if 8 * off <= i < 8 * off + W(t) then w[if t.little then i - 8 * off else W(t) - 1 - (i - 8 * off)]
        else mem[i]
  {
    mem' := seq(|mem|, i requires 0 <= i < |mem| =>
      if 8 * off <= i < 8 * off + W(t) then w[if t.little then i - 8 * off else W(t) - 1 - (i - 8 * off)] else mem[i]);
  }

  /** The bits of memory that belong to member f of the structure at byte `base`. */
  predicate Own(t: Target, base: nat, f: Field, i: int) { Lo(t, f) <= i - 8 * base < Hi(t, f) }

  /** The address of bit p of field f. */
  function OwnBit(t: Target, base: nat, f: Field, p: int): int { Address(t, base + f.offset, Right(f) + p) }

  /** mem' is mem after v is assigned to f: its own bits are the low bits of v, and no other bit is changed. */
  predicate Assigned(t: Target, mem: seq<bool>, base: nat, f: Field, v: Word, mem': seq<bool>)
    requires Accessible(t, f) && |v| == W(t)
  {
    && |mem'| == |mem|
    && (forall p :: 0 <= p < f.bitsize && 0 <= OwnBit(t, base, f, p) < |mem| ==> mem'[OwnBit(t, base, f, p)] == v[p])
    && (forall i {:trigger mem'[i]} :: 0 <= i < |mem| && !Own(t, base, f, i) ==> mem'[i] == mem[i])
  }

  /** v is the value of f: its own bits, extended. */
  predicate Value(t: Target, mem: seq<bool>, base: nat, f: Field, signed: bool, v: Word)
    requires Accessible(t, f) && Inside(t, mem, base + f.offset)
  {
    && |v| == W(t)
    && forall i :: 0 <= i < W(t) ==>
      v[i] == if i < f.bitsize then mem[OwnBit(t, base, f, i)] else signed && mem[OwnBit(t, base, f, f.bitsize - 1)]
  }

  /** An assignment: the word is read, changed and written back. */
  method AssignField(t: Target, mem: seq<bool>, base: nat, f: Field, v: Word, constant: bool) returns (mem': seq<bool>)
    requires Accessible(t, f) && Inside(t, mem, base + f.offset) && |v| == W(t)
    ensures Assigned(t, mem, base, f, v, mem')
  {
    var word := Fetch(t, mem, base + f.offset);
    var w := StoredWord(t, f, word, v, constant);
    mem' := Write(t, mem, base + f.offset, w);
    forall i | 0 <= i < |mem| && !Own(t, base, f, i) ensures mem'[i] == mem[i] {
      var d := i - 8 * (base + f.offset);
      var p := if t.little then d else W(t) - 1 - d;
      assert 0 <= p < W(t) ==> w[p] == word[p];
    }
  }

  method ReadField(t: Target, mem: seq<bool>, base: nat, f: Field, signed: bool) returns (v: Word)
    requires Accessible(t, f) && Inside(t, mem, base + f.offset)
    ensures Value(t, mem, base, f, signed, v)
  {
    var word := Fetch(t, mem, base + f.offset);
    v := LoadedValue(t, f, word, signed);
  }

  /** Reading back gives the value reduced to the width of the field. */
  lemma ReadBack(t: Target, mem: seq<bool>, base: nat, f: Field, v: Word, mem': seq<bool>, signed: bool, r: Word)
    requires Accessible(t, f) && Inside(t, mem, base + f.offset) && |v| == W(t)
    requires Assigned(t, mem, base, f, v, mem') && Value(t, mem', base, f, signed, r)
    ensures r == Reduced(v, f.bitsize, signed)
  {
  }

  /** A field reads the same in memories that agree on its bits. */
  lemma ReadsOwnBits(t: Target, mem: seq<bool>, mem': seq<bool>, base: nat, f: Field, signed: bool, r: Word)
    requires Accessible(t, f) && Inside(t, mem, base + f.offset) && |mem'| == |mem|
    requires forall i :: 0 <= i < |mem| && Own(t, base, f, i) ==> mem'[i] == mem[i]
    requires Value(t, mem, base, f, signed, r)
    ensures Value(t, mem', base, f, signed, r)
  {
    assert forall p :: 0 <= p < f.bitsize ==> Own(t, base, f, OwnBit(t, base, f, p));
  }

  /** In a structure as laid out by Fields, assigning to one member is invisible to every other. */
  lemma NoInterference(t: Target, fs: seq<Field>, i: nat, j: nat, mem: seq<bool>, base: nat, v: Word, mem': seq<bool>)
    requires TargetOk(t) && FieldsOk(t, fs) && i < |fs| && j < |fs| && i != j && |v| == W(t)
    requires var f := Member(t, false, fs, i); Accessible(t, f) && Assigned(t, mem, base, f, v, mem')
    ensures var g := Member(t, false, fs, j);
      && (forall b :: 0 <= b < |mem| && Own(t, base, g, b) ==> mem'[b] == mem[b])
      && (Accessible(t, g) && Inside(t, mem, base + g.offset) ==>
          forall signed, r :: Value(t, mem, base, g, signed, r) ==> Value(t, mem', base, g, signed, r))
  {
    var f, g := Member(t, false, fs, i), Member(t, false, fs, j);
    if i < j {
      Disjoint(t, fs, i, j);
    } else {
      Disjoint(t, fs, j, i);
    }
    assert forall b :: Own(t, base, g, b) ==> !Own(t, base, f, b);
    if Accessible(t, g) && Inside(t, mem, base + g.offset) {
      forall signed, r | Value(t, mem, base, g, signed, r) ensures Value(t, mem', base, g, signed, r) {
        ReadsOwnBits(t, mem, mem', base, g, signed, r);
      }
    }
  }
}
