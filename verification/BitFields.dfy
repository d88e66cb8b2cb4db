/**
 Structure layout and bit-field access: where the members of a structure or
 union go, and the masks and shifts that read and write a bit-field in the word
 that holds it.
 */
module BitFields {

  // --------------------------------------------------------------------- layout

  /** The machine: bytes in an unsigned, its alignment, that of every structure, the largest int, the byte order. */
  datatype Target = Target(wordSize: nat, wordAlign: nat, structAlign: nat, max: nat, little: bool)

  /** A member; bit-fields are the members whose lsb is not 0. */
  datatype Field = Field(size: nat, align: nat, bitsize: nat, lsb: int, offset: int)

  /** The state of the layout loop: byte offset, one more than the bits taken there or 0, size and alignment so far. */
  datatype Cursor = Cursor(off: nat, bits: nat, size: nat, align: nat)

  predicate Pow2(n: nat) { n == 1 || (n > 1 && n % 2 == 0 && Pow2(n / 2)) }

  function W(t: Target): nat { 8 * t.wordSize }

  function Align(t: Target, f: Field): nat {
    if f.lsb != 0 then t.wordAlign else if f.align != 0 then f.align else 1
  }

  /** What a target and a declaration promise. */
  predicate TargetOk(t: Target) {
    Pow2(t.wordAlign) && Pow2(t.structAlign) && Pow2(t.max + 1) && t.wordSize > 0 && t.structAlign <= t.max
      && t.wordAlign <= t.max
  }

  predicate FieldOk(t: Target, f: Field) {
    Pow2(Align(t, f)) && Align(t, f) <= t.max && (if f.lsb == 0 then f.bitsize == 0 else f.bitsize <= W(t))
  }

  /** Powers of two start at 1, and doubling gives the others. */
  lemma Doubling(n: nat)
    ensures Pow2(1) && !Pow2(0) && (Pow2(2 * n) <==> Pow2(n)) && !Pow2(2 * n + 3)
  {
    assert 2 * n / 2 == n;
  }

  predicate FieldsOk(t: Target, fs: seq<Field>) {
    forall i :: 0 <= i < |fs| ==> FieldOk(t, fs[i])
  }

  predicate MultipleOf(a: nat, x: nat)
    requires a > 0
  {
    x == 0 || (x >= a && MultipleOf(a, x - a))
  }

  predicate AlignedTo(a: nat, x: int) { a > 0 && x >= 0 && MultipleOf(a, x) }

  /** The least multiple of n that is not below x. */
  function RoundUp(x: nat, n: nat): (r: nat)
    requires n > 0
    ensures MultipleOf(n, r) && x <= r < x + n
  {
    if x == 0 then 0 else if x <= n then n else n + RoundUp(x - n, n)
  }

  /** Bytes that hold the bits taken so far. */
  function Bytes(bits: nat): nat { if bits == 0 then 0 else (bits + 6) / 8 }

  function Max(a: nat, b: nat): nat { if a < b then b else a }

  /** Where the next member starts. */
  function Start(t: Target, union: bool, c: Cursor, f: Field): Cursor
    requires FieldOk(t, f)
  {
    if union then c.(off := 0, bits := 0)
    else if f.bitsize == 0 || c.bits == 0 || c.bits - 1 + f.bitsize > W(t) then
      c.(off := RoundUp(c.off + Bytes(c.bits), Align(t, f)), bits := 0)
    else c
  }

  function FirstBit(c: Cursor): nat { if c.bits == 0 then 1 else c.bits }

  function Placed(t: Target, union: bool, c: Cursor, f: Field): Field
    requires FieldOk(t, f)
  {
    var s := Start(t, union, c, f);
    if f.lsb == 0 then f.(offset := s.off)
    else f.(offset := s.off, lsb := if t.little then FirstBit(s) else W(t) - FirstBit(s) + 1 - f.bitsize + 1)
  }

  function Next(t: Target, union: bool, c: Cursor, f: Field): Cursor
    requires FieldOk(t, f)
  {
    var s := Start(t, union, c, f);
    var off := if f.lsb != 0 then s.off else s.off + f.size;
    var bits := if f.lsb != 0 then FirstBit(s) + f.bitsize else s.bits;
    Cursor(off, bits, Max(c.size, off + Bytes(bits)), Max(c.align, Align(t, f)))
  }

  /** The cursor after the first k members, with offsets of any size. */
  function After(t: Target, union: bool, fs: seq<Field>, k: nat): Cursor
    requires k <= |fs| && FieldsOk(t, fs)
  {
    if k == 0 then Cursor(0, 0, 0, t.structAlign) else Next(t, union, After(t, union, fs, k - 1), fs[k - 1])
  }

  function Member(t: Target, union: bool, fs: seq<Field>, k: nat): Field
    requires k < |fs| && FieldsOk(t, fs)
  {
    Placed(t, union, After(t, union, fs, k), fs[k])
  }

  function Size(t: Target, union: bool, fs: seq<Field>): nat
    requires FieldsOk(t, fs) && TargetOk(t)
  {
    var c := After(t, union, fs, |fs|);
    AlignPow2(t, union, fs, |fs|);
    RoundUp(c.size, c.align)
  }

  lemma {:induction false} AlignPow2(t: Target, union: bool, fs: seq<Field>, k: nat)
    requires k <= |fs| && FieldsOk(t, fs) && TargetOk(t)
    ensures var a := After(t, union, fs, k).align; Pow2(a) && t.structAlign <= a <= t.max
  {
    if k > 0 {
      AlignPow2(t, union, fs, k - 1);
      assert FieldOk(t, fs[k - 1]);
    }
  }

  // ---------------------------------------------------------- what layout promises

  /** The bits of the structure that a placed member takes, numbered from its first byte in the order of addresses. */
  function Lo(t: Target, f: Field): int {
    8 * f.offset + if f.lsb == 0 then 0 else if t.little then f.lsb - 1 else W(t) - f.bitsize - (f.lsb - 1)
  }

  function Hi(t: Target, f: Field): int { Lo(t, f) + if f.lsb == 0 then 8 * f.size else f.bitsize }

  /** The first bit no member has taken yet. */
  function Free(c: Cursor): int { 8 * c.off + if c.bits == 0 then 0 else c.bits - 1 }

  predicate InWord(t: Target, f: Field) { f.lsb != 0 ==> 0 <= f.lsb - 1 && f.lsb - 1 + f.bitsize <= W(t) }

  lemma PlaceOne(t: Target, union: bool, c: Cursor, f: Field)
    requires FieldOk(t, f) && c.bits <= W(t) + 1 && t.wordSize > 0
    ensures var p, c' := Placed(t, union, c, f), Next(t, union, c, f);
      && c'.bits <= W(t) + 1 && Hi(t, p) == Free(c') && (if union then Lo(t, p) == 0 else Free(c) <= Lo(t, p))
      && 0 <= Lo(t, p) && Hi(t, p) <= 8 * c'.size && c.size <= c'.size && c'.off <= c'.size && c.align <= c'.align
      && (p.lsb != 0 <==> f.lsb != 0) && p.bitsize == f.bitsize && p.size == f.size && p.align == f.align
      && InWord(t, p) && Align(t, p) <= c'.align
  {
    var s := Start(t, union, c, f);
    var p := Placed(t, union, c, f);
    assert 8 * Bytes(c.bits) >= c.bits - 1;
    assert f.lsb != 0 ==> FirstBit(s) - 1 + f.bitsize <= W(t);
    assert f.lsb != 0 ==> p.lsb >= 1;
  }

  /** The bits taken first grow. */
  lemma {:induction false} FreeStep(t: Target, fs: seq<Field>, k: nat)
    requires k < |fs| && FieldsOk(t, fs) && t.wordSize > 0
    ensures Hi(t, Member(t, false, fs, k)) == Free(After(t, false, fs, k + 1))
    ensures Free(After(t, false, fs, k)) <= Free(After(t, false, fs, k + 1))
  {
    BitsBound(t, false, fs, k);
    PlaceOne(t, false, After(t, false, fs, k), fs[k]);
  }

  /** Members lie in their declared order, without overlap. */
  lemma {:induction false} Ascending(t: Target, fs: seq<Field>, j: nat, k: nat)
    requires j < k <= |fs| && FieldsOk(t, fs) && t.wordSize > 0
    ensures Hi(t, Member(t, false, fs, j)) <= Free(After(t, false, fs, k))
    decreases k
  {
    FreeStep(t, fs, k - 1);
    if j < k - 1 {
      Ascending(t, fs, j, k - 1);
    }
  }

  /** No two members of a structure share a bit. */
  lemma Disjoint(t: Target, fs: seq<Field>, i: nat, j: nat)
    requires i < j < |fs| && FieldsOk(t, fs) && t.wordSize > 0
    ensures Hi(t, Member(t, false, fs, i)) <= Lo(t, Member(t, false, fs, j))
  {
    Ascending(t, fs, i, j);
    BitsBound(t, false, fs, j);
    PlaceOne(t, false, After(t, false, fs, j), fs[j]);
  }

  lemma {:induction false} BitsBound(t: Target, union: bool, fs: seq<Field>, k: nat)
    requires k <= |fs| && FieldsOk(t, fs) && t.wordSize > 0
    ensures After(t, union, fs, k).bits <= W(t) + 1
  {
    if k > 0 {
      BitsBound(t, union, fs, k - 1);
      PlaceOne(t, union, After(t, union, fs, k - 1), fs[k - 1]);
    }
  }

  predicate Below(c: Cursor, c': Cursor) { c.size <= c'.size && c.align <= c'.align }

  lemma {:induction false} Climbs(cs: seq<Cursor>, k: nat, n: nat)
    requires k <= n < |cs| && forall i :: 0 <= i < |cs| - 1 ==> Below(cs[i], cs[i + 1])
    ensures Below(cs[k], cs[n])
  {
    if k < n {
      Climbs(cs, k, n - 1);
      assert Below(cs[n - 1], cs[n - 1 + 1]);
    }
  }

  lemma {:induction false} Grows(t: Target, union: bool, fs: seq<Field>, k: nat, n: nat)
    requires k <= n <= |fs| && FieldsOk(t, fs) && t.wordSize > 0
    ensures Below(After(t, union, fs, k), After(t, union, fs, n))
  {
    var cs := seq(|fs| + 1, i requires 0 <= i <= |fs| => After(t, union, fs, i));
    forall i | 0 <= i < |cs| - 1 ensures Below(cs[i], cs[i + 1]) {
      GrowsOne(t, union, fs, i);
    }
    Climbs(cs, k, n);
  }

  lemma {:induction false} GrowsOne(t: Target, union: bool, fs: seq<Field>, k: nat)
    requires k < |fs| && FieldsOk(t, fs) && t.wordSize > 0
    ensures Below(After(t, union, fs, k), After(t, union, fs, k + 1))
  {
    BitsBound(t, union, fs, k);
    PlaceOne(t, union, After(t, union, fs, k), fs[k]);
  }

  lemma {:induction false} Doubled(a: nat, x: nat)
    requires a > 0 && MultipleOf(a, x)
    ensures MultipleOf(2 * a, 2 * x)
    decreases x
  {
    if x > 0 {
      Doubled(a, x - a);
    }
  }

  /** Of two powers of two the smaller divides the larger. */
  lemma {:induction false} Divides(a: nat, b: nat)
    requires Pow2(a) && Pow2(b) && a <= b
    ensures MultipleOf(a, b)
  {
    if a == 1 {
      AllMultiples(b);
    } else {
      Divides(a / 2, b / 2);
      Doubled(a / 2, b / 2);
    }
  }

  lemma {:induction false} AllMultiples(x: nat)
    ensures MultipleOf(1, x)
  {
    if x > 0 {
      AllMultiples(x - 1);
    }
  }

  lemma {:induction false} Gap(a: nat, x: nat, y: nat)
    requires a > 0 && MultipleOf(a, x) && MultipleOf(a, y) && x < y
    ensures x + a <= y
    decreases x
  {
    if x > 0 {
      Gap(a, x - a, y - a);
    }
  }

  lemma {:induction false} OffsetAligned(t: Target, union: bool, fs: seq<Field>, k: nat)
    requires k < |fs| && FieldsOk(t, fs)
    ensures fs[k].lsb == 0 || union || After(t, union, fs, k).bits == 0 ==>
      AlignedTo(Align(t, fs[k]), Member(t, union, fs, k).offset)
  {
    assert FieldOk(t, fs[k]);
  }

  /** While bits are taken at an offset, the offset is that of a word. */
  lemma {:induction false} WordAligned(t: Target, union: bool, fs: seq<Field>, k: nat)
    requires k <= |fs| && FieldsOk(t, fs) && t.wordAlign > 0
    ensures var c := After(t, union, fs, k); c.bits != 0 ==> MultipleOf(t.wordAlign, c.off)
  {
    if k > 0 {
      WordAligned(t, union, fs, k - 1);
      assert FieldOk(t, fs[k - 1]);
    }
  }

  lemma {:induction false} MemberAligned(t: Target, union: bool, fs: seq<Field>, k: nat)
    requires k < |fs| && FieldsOk(t, fs) && TargetOk(t)
    ensures AlignedTo(Align(t, fs[k]), Member(t, union, fs, k).offset)
  {
    OffsetAligned(t, union, fs, k);
    WordAligned(t, union, fs, k);
    assert FieldOk(t, fs[k]);
  }

  /**
   Every offset is a multiple of its member's alignment, the member is inside the structure, and so is its alignment.
   */
  lemma {:induction false} MemberFits(t: Target, union: bool, fs: seq<Field>, k: nat)
    requires k < |fs| && FieldsOk(t, fs) && TargetOk(t)
    ensures var f, c := Member(t, union, fs, k), After(t, union, fs, |fs|);
      && AlignedTo(Align(t, f), f.offset) && 0 <= Lo(t, f) <= Hi(t, f) <= 8 * c.size <= 8 * Size(t, union, fs)
      && InWord(t, f) && f.bitsize == fs[k].bitsize && c.align > 0
      && MultipleOf(Align(t, f), c.align) && MultipleOf(c.align, Size(t, union, fs))
  {
    BitsBound(t, union, fs, k);
    PlaceOne(t, union, After(t, union, fs, k), fs[k]);
    Grows(t, union, fs, k + 1, |fs|);
    AlignPow2(t, union, fs, |fs|);
    MemberAligned(t, union, fs, k);
    Divides(Align(t, fs[k]), After(t, union, fs, |fs|).align);
  }

  // ------------------------------------------------------------- no room is wasted

  /** The byte behind the last one of which the member takes a bit. */
  function End(t: Target, f: Field): int {
    f.offset + if f.lsb == 0 then f.size else (Hi(t, f) - 8 * f.offset + 7) / 8
  }

  /** What the cursor remembers of the member placed last. */
  lemma CursorAt(t: Target, union: bool, c: Cursor, f: Field)
    requires FieldOk(t, f) && c.bits <= W(t) + 1 && t.wordSize > 0
    ensures var p, c' := Placed(t, union, c, f), Next(t, union, c, f);
      && c'.off + Bytes(c'.bits) == End(t, p) && c'.size == Max(c.size, c'.off + Bytes(c'.bits))
      && (if f.lsb == 0 then c'.bits == 0 else c'.off == p.offset && c'.bits == Hi(t, p) - 8 * p.offset + 1)
  {
    PlaceOne(t, union, c, f);
  }

  /** Among the multiples of n from x on, rounding up gives the least. */
  lemma {:induction false} RoundUpLeast(x: nat, n: nat, m: nat)
    requires n > 0 && x <= m && MultipleOf(n, m)
    ensures RoundUp(x, n) <= m
  {
    if m < RoundUp(x, n) {
      Gap(n, m, RoundUp(x, n));
    }
  }

  /** The second of two bit-fields has the rest of the word of the first if that is enough. */
  lemma TightBits(t: Target, fs: seq<Field>, k: nat)
    requires k + 1 < |fs| && FieldsOk(t, fs) && TargetOk(t)
    requires fs[k].lsb != 0 && fs[k + 1].lsb != 0 && fs[k + 1].bitsize > 0
    requires var f := Member(t, false, fs, k); Hi(t, f) - 8 * f.offset + fs[k + 1].bitsize <= 8 * t.wordSize
    ensures var f, h := Member(t, false, fs, k), Member(t, false, fs, k + 1);
      h.offset == f.offset && Lo(t, h) == Hi(t, f)
  {
    BitsBound(t, false, fs, k);
    assert FieldOk(t, fs[k]);
    CursorAt(t, false, After(t, false, fs, k), fs[k]);
    assert FieldOk(t, fs[k + 1]);
  }

  /** Any other member starts with the first byte that is aligned for it and behind the one before it. */
  lemma TightBytes(t: Target, fs: seq<Field>, k: nat, x: nat)
    requires k + 1 < |fs| && FieldsOk(t, fs) && TargetOk(t)
    requires var f, h := Member(t, false, fs, k), fs[k + 1];
      !(h.lsb != 0 && f.lsb != 0 && h.bitsize > 0 && Hi(t, f) - 8 * f.offset + h.bitsize <= 8 * t.wordSize)
    ensures var f, h := Member(t, false, fs, k), Member(t, false, fs, k + 1);
      var a := if h.lsb != 0 then t.wordAlign else if h.align != 0 then h.align else 1;
      && h.offset >= End(t, f) && Lo(t, h) == 8 * h.offset && a > 0 && MultipleOf(a, h.offset)
      && (x >= End(t, f) && MultipleOf(a, x) ==> h.offset <= x)
  {
    BitsBound(t, false, fs, k);
    assert FieldOk(t, fs[k]);
    CursorAt(t, false, After(t, false, fs, k), fs[k]);
    assert FieldOk(t, fs[k + 1]);
    StartsAligned(t, After(t, false, fs, k + 1), fs[k + 1], x);
  }

  lemma {:induction false} StartsAligned(t: Target, c: Cursor, h: Field, x: nat)
    requires FieldOk(t, h) && (h.lsb == 0 || h.bitsize == 0 || c.bits == 0 || c.bits - 1 + h.bitsize > W(t))
    ensures var p, a := Placed(t, false, c, h), Align(t, h);
      && p.offset >= c.off + Bytes(c.bits) && Lo(t, p) == 8 * p.offset && a > 0 && MultipleOf(a, p.offset)
      && (x >= c.off + Bytes(c.bits) && MultipleOf(a, x) ==> p.offset <= x)
  {
    if x >= c.off + Bytes(c.bits) && MultipleOf(Align(t, h), x) {
      RoundUpLeast(c.off + Bytes(c.bits), Align(t, h), x);
    }
  }

  /** The first member of a structure and every member of a union start at 0. */
  lemma StartsAtZero(t: Target, union: bool, fs: seq<Field>, k: nat)
    requires k < |fs| && FieldsOk(t, fs) && TargetOk(t) && (union || k == 0)
    ensures Member(t, union, fs, k).offset == 0 && Lo(t, Member(t, union, fs, k)) == 0
  {
    assert FieldOk(t, fs[k]);
  }

  lemma {:induction false} SizeStep(t: Target, union: bool, fs: seq<Field>, k: nat)
    requires k < |fs| && FieldsOk(t, fs) && TargetOk(t)
    ensures var e := End(t, Member(t, union, fs, k));
      0 <= e && After(t, union, fs, k + 1).size == Max(After(t, union, fs, k).size, e)
  {
    BitsBound(t, union, fs, k);
    assert FieldOk(t, fs[k]);
    CursorAt(t, union, After(t, union, fs, k), fs[k]);
  }

  predicate EndsBy(t: Target, union: bool, fs: seq<Field>, i: int, x: int)
    requires FieldsOk(t, fs)
  {
    0 <= i < |fs| ==> End(t, Member(t, union, fs, i)) <= x
  }

  /** The room taken is no more than the members need. */
  lemma {:induction false} SizeNeeded(t: Target, union: bool, fs: seq<Field>, k: nat, x: nat)
    requires k <= |fs| && FieldsOk(t, fs) && TargetOk(t) && forall i :: EndsBy(t, union, fs, i, x)
    ensures After(t, union, fs, k).size <= x
    decreases k
  {
    if k > 0 {
      SizeNeeded(t, union, fs, k - 1, x);
      SizeStep(t, union, fs, k - 1);
      assert EndsBy(t, union, fs, k - 1, x);
    }
  }

  /** The size is the least multiple of the alignment that holds all members. */
  lemma {:induction false} SizeLeast(t: Target, union: bool, fs: seq<Field>, x: nat)
    requires FieldsOk(t, fs) && TargetOk(t) && forall i :: EndsBy(t, union, fs, i, x)
    requires var a := After(t, union, fs, |fs|).align; a > 0 && MultipleOf(a, x)
    ensures Size(t, union, fs) <= x
  {
    SizeNeeded(t, union, fs, |fs|, x);
    RoundUpLeast(After(t, union, fs, |fs|).size, After(t, union, fs, |fs|).align, x);
  }

  /** The alignment is the least that is allowed, or that of some member. */
  lemma {:induction false} AlignNeeded(t: Target, union: bool, fs: seq<Field>, k: nat)
    requires k <= |fs| && FieldsOk(t, fs)
    ensures var a := After(t, union, fs, k).align; a == t.structAlign || exists i :: 0 <= i < k && AlignsTo(t, fs[i], a)
    decreases k
  {
    if k > 0 {
      AlignNeeded(t, union, fs, k - 1);
      assert FieldOk(t, fs[k - 1]);
      var a, a' := After(t, union, fs, k - 1).align, After(t, union, fs, k).align;
      assert a' != a ==> AlignsTo(t, fs[k - 1], a');
    }
  }

  predicate AlignsTo(t: Target, f: Field, a: nat) {
    a == if f.lsb != 0 then t.wordAlign else if f.align != 0 then f.align else 1
  }

  // ------------------------------------------------------- the loop and its overflow

  /** Adding in the target's ints: when the sum is too large, the sum is not taken. */
  function Add(t: Target, x: nat, n: nat): (nat, bool) { if x + n > t.max then (x, true) else (x + n, false) }

  lemma {:induction false} RoundUpOverflow(t: Target, x: nat, a: nat)
    requires Pow2(t.max + 1) && Pow2(a) && a <= t.max
    ensures x + (a - 1) > t.max <==> RoundUp(x, a) > t.max
  {
    var r := RoundUp(x, a);
    Divides(a, t.max + 1);
    if r <= t.max {
      Gap(a, r, t.max + 1);
    }
  }

  /** The loop's own cursor is the exact one until a sum is too large; then the exact size is too large as well. */
  ghost predicate Follows(t: Target, cur: Cursor, overflow: bool, exact: Cursor) {
    && exact.bits <= W(t) + 1 && cur.align == exact.align
    && (if overflow then exact.size > t.max else cur == exact && cur.off <= t.max)
  }

  /** Finds where a member starts: after the bits taken so far, or among them. */
  method StartField(t: Target, union: bool, cur: Cursor, over: bool, f: Field, ghost exact: Cursor)
    returns (start: Cursor, overflow: bool)
    requires TargetOk(t) && FieldOk(t, f) && Follows(t, cur, over, exact)
    ensures start.size == cur.size && start.align == cur.align
    ensures overflow ==> Next(t, union, exact, f).size > t.max
    ensures !overflow ==> !over && start == Start(t, union, exact, f) && start.off <= t.max
  {
    start, overflow := cur, over;
    PlaceOne(t, union, exact, f);
    if union {
      start := start.(off := 0, bits := 0);
    } else if f.bitsize == 0 || cur.bits == 0 || cur.bits - 1 + f.bitsize > W(t) {
      var (sum, o) := Add(t, cur.off, Bytes(cur.bits));
      var a := Align(t, f);
      RoundUpOverflow(t, sum, a);
      overflow := overflow || o || Add(t, sum, a - 1).1;
      start := start.(off := RoundUp(sum, a), bits := 0);
    }
  }

  /** Places one member. */
  method PlaceField(t: Target, union: bool, cur: Cursor, over: bool, f: Field, ghost exact: Cursor)
    returns (placed: Field, next: Cursor, overflow: bool)
    requires TargetOk(t) && FieldOk(t, f) && Follows(t, cur, over, exact)
    ensures Follows(t, next, overflow, Next(t, union, exact, f))
    ensures !overflow ==> !over && placed == Placed(t, union, exact, f)
  {
    next, overflow := StartField(t, union, cur, over, f, exact);
    PlaceOne(t, union, exact, f);
    placed := f.(offset := next.off);
    if f.lsb != 0 {
      var bits := if next.bits == 0 then 1 else next.bits;
      placed := placed.(lsb := if t.little then bits else W(t) - bits + 1 - f.bitsize + 1);
      next := next.(bits := bits + f.bitsize);
    } else {
      var (sum, o) := Add(t, next.off, f.size);
      next, overflow := next.(off := sum), overflow || o;
    }
    next := next.(size := Max(next.size, next.off + Bytes(next.bits)), align := Max(next.align, Align(t, f)));
  }

  /** Rounds the size up to the alignment; a size that is too large is cut to the largest multiple of the alignment. */
  method Finish(t: Target, union: bool, cur: Cursor, over: bool, ghost fs: seq<Field>)
    returns (size: nat, overflow: bool)
    requires TargetOk(t) && FieldsOk(t, fs) && Follows(t, cur, over, After(t, union, fs, |fs|))
    ensures overflow <==> Size(t, union, fs) > t.max
    ensures size == if overflow then t.max + 1 - cur.align else Size(t, union, fs)
    ensures over ==> overflow
  {
    AlignPow2(t, union, fs, |fs|);
    RoundUpOverflow(t, cur.size, cur.align);
    overflow := over || Add(t, cur.size, cur.align - 1).1;
    size := RoundUp(cur.size, cur.align);
    if overflow {
      size := t.max + 1 - cur.align;
    }
  }

  /** Places member i in place. */
  method PlaceAt(t: Target, union: bool, fs: array<Field>, i: nat, cur: Cursor, over: bool, ghost was: seq<Field>)
    returns (next: Cursor, overflow: bool)
    requires TargetOk(t) && FieldsOk(t, was) && i < fs.Length == |was| && fs[i] == was[i]
    requires Follows(t, cur, over, After(t, union, was, i))
    modifies fs
    ensures forall j :: 0 <= j < fs.Length && j != i ==> fs[j] == old(fs[j])
    ensures Follows(t, next, overflow, After(t, union, was, i + 1))
    ensures !overflow ==> !over && fs[i] == Member(t, union, was, i)
  {
    assert FieldOk(t, was[i]);
    var f;
    f, next, overflow := PlaceField(t, union, cur, over, fs[i], After(t, union, was, i));
    fs[i] := f;
  }

  /** Lays out the members in place; reports overflow exactly when the size would be above the largest int. */
  method Fields(t: Target, union: bool, fs: array<Field>) returns (size: nat, align: nat, overflow: bool)
    requires TargetOk(t) && FieldsOk(t, fs[..])
    modifies fs
    ensures overflow <==> Size(t, union, old(fs[..])) > t.max
    ensures align == After(t, union, old(fs[..]), fs.Length).align
    ensures size == if overflow then t.max + 1 - align else Size(t, union, old(fs[..]))
    ensures !overflow ==> forall i :: 0 <= i < fs.Length ==> fs[i] == Member(t, union, old(fs[..]), i)
  {
    ghost var was := fs[..];
    var cur := Cursor(0, 0, 0, t.structAlign);
    overflow := false;
    var i := 0;
    while i < fs.Length
      invariant i <= fs.Length
      invariant forall j :: i <= j < fs.Length ==> fs[j] == was[j]
      invariant Follows(t, cur, overflow, After(t, union, was, i))
      invariant !overflow ==> forall j :: 0 <= j < i ==> fs[j] == Member(t, union, was, j)
    {
      cur, overflow := PlaceAt(t, union, fs, i, cur, overflow, was);
      i := i + 1;
    }
    align := cur.align;
    size, overflow := Finish(t, union, cur, overflow, was);
  }
}
