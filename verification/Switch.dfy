/**
 Lowering of C `switch` statements: the sorted case table, the greedy merge of
 cases into dense buckets, and the binary search over buckets that is emitted
 as equality tests and jump tables.
 */
module Switch {

  type Label = nat

  ghost predicate Ascending(v: seq<int>) {
    forall i, j :: 0 <= i < j < |v| ==> v[i] <= v[j]
  }

  ghost predicate StrictlyAscending(v: seq<int>) {
    forall i, j :: 0 <= i < j < |v| ==> v[i] < v[j]
  }

  // ---------------------------------------------------------------- case table

  const SWSIZE := 512

  /** The growing pair of parallel arrays that `case` labels are inserted into. */
  class CaseTable {
    var values: array<int>
    var labels: array<Label>
    var ncases: nat

    ghost predicate Valid()
      reads this, values, labels
    {
      && values.Length == labels.Length > 0
      && ncases <= values.Length
      && Ascending(values[..ncases])
    }

    ghost function Values(): seq<int>
      requires Valid()
      reads this, values, labels
    {
      values[..ncases]
    }

    ghost function Labels(): seq<Label>
      requires Valid()
      reads this, values, labels
    {
      labels[..ncases]
    }

    constructor ()
      ensures Valid() && Values() == [] && fresh(values) && fresh(labels)
    {
      values := new int[SWSIZE];
      labels := new Label[SWSIZE];
      ncases := 0;
    }

    /** Doubles both arrays when the table is full. */
    method Grow()
      requires Valid()
      modifies this
      ensures Valid() && ncases < values.Length
      ensures Values() == old(Values()) && Labels() == old(Labels())
      ensures (fresh(values) && fresh(labels)) || (values == old(values) && labels == old(labels))
    {
      if ncases >= values.Length {
        assert ncases == values.Length;
        var vals, labs := new int[2 * values.Length], new Label[2 * values.Length];
        for k := 0 to ncases
          modifies vals, labs
          invariant vals[..k] == values[..k] && labs[..k] == labels[..k]
        {
          vals[k], labs[k] := values[k], labels[k];
        }
        values, labels := vals, labs;
      }
    }

    /** Moves the cases from the sorted place `k` of `val` on up by one. */
    method Shift(val: int) returns (k: nat)
      requires Valid() && ncases < values.Length
      modifies values, labels
      ensures k <= ncases
      ensures forall i :: 0 <= i < k ==> values[i] == old(values[i]) < val && labels[i] == old(labels[i])
      ensures forall i :: k < i <= ncases ==>
        val <= values[i] == old(values[i - 1]) && labels[i] == old(labels[i - 1])
      ensures k < ncases ==> values[k] == old(values[k])
    {
      ghost var vs, ls := values[..], labels[..];
      k := ncases;
      while k > 0 && values[k - 1] >= val
        invariant k <= ncases
        invariant forall i :: 0 <= i < k ==> values[i] == vs[i] && labels[i] == ls[i]
        invariant forall i :: k < i <= ncases ==> val <= values[i] == vs[i - 1] && labels[i] == ls[i - 1]
        invariant k < ncases ==> values[k] == vs[k]
      {
        values[k], labels[k] := values[k - 1], labels[k - 1];
        k := k - 1;
      }
      forall i | 0 <= i < k ensures vs[i] < val {
        assert vs[..ncases][i] <= vs[..ncases][k - 1];
      }
    }

    /** Puts a case at its sorted place without counting it yet. */
    method Place(val: int, lab: Label) returns (k: nat, dup: bool)
      requires Valid() && ncases < values.Length
      modifies values, labels
      ensures k <= ncases
      ensures values[..ncases + 1] == old(Values())[..k] + [val] + old(Values())[k..]
      ensures labels[..ncases + 1] == old(Labels())[..k] + [lab] + old(Labels())[k..]
      ensures forall i :: 0 <= i < k ==> old(Values())[i] < val
      ensures forall i :: k <= i < ncases ==> val <= old(Values())[i]
      ensures dup <==> k < ncases && old(Values())[k] == val
    {
      k := Shift(val);
      dup := k < ncases && values[k] == val;
      forall i | k <= i < ncases ensures val <= values[i + 1] == old(Values())[i] {}
      values[k], labels[k] := val, lab;
      Spliced(values[..], old(Values()), k, val);
      Spliced(labels[..], old(Labels()), k, lab);
    }

    /** Inserts a case at its sorted place `k`; `dup` tells whether the value was there already. */
    method Insert(val: int, lab: Label) returns (k: nat, dup: bool)
      requires Valid()
      modifies this, values, labels
      ensures Valid()
      ensures k <= old(ncases)
      ensures Values() == old(Values())[..k] + [val] + old(Values())[k..]
      ensures Labels() == old(Labels())[..k] + [lab] + old(Labels())[k..]
      ensures dup <==> val in old(Values())
      ensures old(StrictlyAscending(Values())) && !dup ==> StrictlyAscending(Values())
    {
      Grow();
      ghost var vs := Values();
      k, dup := Place(val, lab);
      InsertAscending(vs, k, val);
      ncases := ncases + 1;
    }
  }

  lemma Spliced<T>(a: seq<T>, b: seq<T>, k: nat, x: T)
    requires k <= |b| < |a| && a[k] == x
    requires forall i :: 0 <= i < k ==> a[i] == b[i]
    requires forall i :: k < i <= |b| ==> a[i] == b[i - 1]
    ensures a[..|b| + 1] == b[..k] + [x] + b[k..]
  {
  }

  lemma InsertAscending(vs: seq<int>, k: nat, val: int)
    requires Ascending(vs) && k <= |vs|
    requires forall i :: 0 <= i < k ==> vs[i] < val
    requires forall i :: k <= i < |vs| ==> val <= vs[i]
    ensures Ascending(vs[..k] + [val] + vs[k..])
    ensures val in vs <==> k < |vs| && vs[k] == val
    ensures StrictlyAscending(vs) && val !in vs ==> StrictlyAscending(vs[..k] + [val] + vs[k..])
  {
    if i :| 0 <= i < |vs| && vs[i] == val {
      assert k <= i && vs[k] <= vs[i];
    }
  }

  // ------------------------------------------------------------------- buckets

  /** Fraction of the values spanned by cases i..j that are cases. */
  function Density(v: seq<int>, i: nat, j: nat): real
    requires i <= j < |v| && v[i] <= v[j]
  {
    (j - i + 1) as real / (v[j] - v[i] + 1) as real
  }

  /** `b` cuts 0..limit into consecutive nonempty buckets b[i]..b[i+1]. */
  ghost predicate Partition(b: seq<nat>, limit: nat) {
    && |b| > 0
    && b[0] == 0 && b[|b| - 1] == limit
    && forall i, j :: 0 <= i < j < |b| ==> Below(b, i, j)
  }

  predicate Below(b: seq<nat>, i: int, j: int)
    requires 0 <= i < |b| && 0 <= j < |b|
  {
    b[i] < b[j]
  }

  /** Bucket k is not empty and lies inside. */
  lemma Cut(b: seq<nat>, limit: nat, k: nat)
    requires Partition(b, limit) && k + 1 < |b|
    ensures b[k] < b[k + 1] <= limit
  {
    assert Below(b, k, k + 1);
    CutRange(b, limit, k + 1, |b| - 1);
  }

  lemma CutRange(b: seq<nat>, limit: nat, i: nat, j: nat)
    requires Partition(b, limit) && i <= j < |b|
    ensures b[i] <= b[j] <= limit
  {
    assert i < j ==> Below(b, i, j);
    assert j < |b| - 1 ==> Below(b, j, |b| - 1);
  }

  /** Cases i..j-1 taken as one bucket are at least `d` dense. */
  predicate DenseRange(v: seq<int>, i: nat, j: nat, d: real) {
    i < j <= |v| && v[i] <= v[j - 1] && Density(v, i, j - 1) >= d
  }

  /** Bucket i is dense enough. */
  predicate DenseBucket(v: seq<int>, b: seq<nat>, i: nat, d: real) {
    i + 1 < |b| && DenseRange(v, b[i], b[i + 1], d)
  }

  /** Buckets i and i + 1 would be dense enough as one. */
  predicate Mergeable(v: seq<int>, b: seq<nat>, i: nat, d: real) {
    i + 2 < |b| && DenseRange(v, b[i], b[i + 2], d)
  }

  ghost predicate Dense(v: seq<int>, b: seq<nat>, d: real) {
    forall i :: 0 <= i < |b| - 1 ==> DenseBucket(v, b, i, d)
  }

  /** No two neighbours among the first `m` buckets could still be merged. */
  ghost predicate Unmergeable(v: seq<int>, b: seq<nat>, m: int, d: real) {
    forall i :: 0 <= i <= m - 2 ==> !Mergeable(v, b, i, d)
  }

  /** Buckets over the first k cases, the first m of them as merged as can be. */
  ghost predicate Packed(v: seq<int>, b: seq<nat>, k: nat, m: int, d: real) {
    Partition(b, k) && Dense(v, b, d) && Unmergeable(v, b, m, d)
  }

  /** Case k starts a bucket of its own. */
  lemma Push(v: seq<int>, b: seq<nat>, k: nat, d: real)
    requires Packed(v, b, k, |b| - 1, d) && k < |v| && d <= 1.0
    ensures Packed(v, b + [k + 1], k + 1, |b| - 1, d)
  {
    var b' := b + [k + 1];
    forall i, j | 0 <= i < j < |b'| ensures Below(b', i, j) {
      CutRange(b, k, i, if j < |b| then j else |b| - 1);
      assert j < |b| ==> Below(b, i, j);
    }
    assert DenseRange(v, k, k + 1, d);
    forall i | 0 <= i < |b'| - 1 ensures DenseBucket(v, b', i, d) {
      assert i < |b| - 1 ==> DenseBucket(v, b, i, d);
    }
    forall i | 0 <= i <= |b| - 3 ensures !Mergeable(v, b', i, d) {
      assert !Mergeable(v, b, i, d);
    }
  }

  /** The last two buckets become one. */
  lemma Merge(v: seq<int>, b: seq<nat>, n: nat, k: nat, d: real)
    requires |b| == n + 2 && n > 0 && Packed(v, b, k, n, d)
    requires DenseRange(v, b[n - 1], k, d)
    ensures Packed(v, b[..n] + [k], k, n - 1, d)
  {
    var b' := b[..n] + [k];
    forall i, j | 0 <= i < j < |b'| ensures Below(b', i, j) {
      assert Below(b, i, if j < n then j else n + 1);
    }
    forall i | 0 <= i < |b'| - 1 ensures DenseBucket(v, b', i, d) {
      assert i < n - 1 ==> DenseBucket(v, b, i, d);
    }
    forall i | 0 <= i <= n - 3 ensures !Mergeable(v, b', i, d) {
      assert !Mergeable(v, b, i, d);
    }
  }

  /** Folds buckets at the end into one while that is dense enough; bucket n is the last one. */
  method MergeBack(v: seq<int>, buckets: array<nat>, n0: nat, k: nat, d: real, ghost g0: seq<nat>)
    returns (n: nat, ghost g: seq<nat>)
    requires n0 <= k < |v| && n0 < buckets.Length && g0 == buckets[..n0 + 1] + [k + 1]
    requires Packed(v, g0, k + 1, n0, d)
    ensures n <= n0 && g == buckets[..n + 1] + [k + 1]
    ensures Packed(v, g, k + 1, n + 1, d)
  {
    n, g := n0, g0;
    while n > 0 && DenseRange(v, buckets[n - 1], k + 1, d)
      invariant n <= n0 && g == buckets[..n + 1] + [k + 1]
      invariant Packed(v, g, k + 1, n, d)
    {
      Merge(v, g, n, k + 1, d);
      g := g[..n] + [k + 1];
      n := n - 1;
    }
    assert n > 0 ==> !Mergeable(v, g, n - 1, d);
  }

  /** Greedy merge of the sorted cases into buckets; bucket i holds the cases b[i]..b[i+1]. */
  method Buckets(v: seq<int>, d: real) returns (b: seq<nat>)
    requires 0.0 < d <= 1.0
    ensures Partition(b, |v|) && Dense(v, b, d) && Unmergeable(v, b, |b| - 1, d)
  {
    var buckets := new nat[|v| + 1];
    var n, k := 0, 0;
    ghost var g := [0];
    while k < |v|
      invariant 0 <= n <= k <= |v| && g == buckets[..n] + [k]
      invariant Packed(v, g, k, n, d)
    {
      buckets[n] := k;
      Push(v, g, k, d);
      g := g + [k + 1];
      n, g := MergeBack(v, buckets, n, k, d, g);
      k, n := k + 1, n + 1;
    }
    buckets[n] := |v|;
    b := buckets[..n + 1];
    assert b == g;
  }

  /** Number of values spanned by the first m buckets, which is the space their tables would take. */
  ghost function Span(v: seq<int>, b: seq<nat>, m: nat): int
    requires Partition(b, |v|) && m < |b|
  {
    if m == 0 then 0
    else
      Cut(b, |v|, m - 1);
      Span(v, b, m - 1) + v[b[m] - 1] - v[b[m - 1]] + 1
  }

  lemma DenseWidth(v: seq<int>, i: nat, j: nat, d: real)
    requires DenseRange(v, i, j, d)
    ensures (v[j - 1] - v[i] + 1) as real * d <= (j - i) as real
  {
    var count, width := (j - i) as real, (v[j - 1] - v[i] + 1) as real;
    assert width * (count / width) == count;
    assert width * d <= width * (count / width);
  }

  /** In numbers: the cases are dense enough when d times the values that they span is not above their count. */
  lemma DenseExactly(v: seq<int>, i: nat, j: nat, d: real)
    requires i < j <= |v| && v[i] <= v[j - 1]
    ensures DenseRange(v, i, j, d) <==> (v[j - 1] - v[i] + 1) as real * d <= (j - i) as real
  {
    var count, width := (j - i) as real, (v[j - 1] - v[i] + 1) as real;
    if DenseRange(v, i, j, d) {
      DenseWidth(v, i, j, d);
    }
    if width * d <= count {
      Quotients(count, width, d);
    }
  }

  lemma {:induction false} SpanBound(v: seq<int>, b: seq<nat>, m: nat, d: real)
    requires Partition(b, |v|) && m < |b| && Dense(v, b, d)
    ensures Span(v, b, m) as real * d <= b[m] as real
  {
    if m > 0 {
      SpanBound(v, b, m - 1, d);
      assert DenseBucket(v, b, m - 1, d);
      DenseWidth(v, b[m - 1], b[m], d);
      var rest, width := Span(v, b, m - 1) as real, (v[b[m] - 1] - v[b[m - 1]] + 1) as real;
      assert (rest + width) * d == rest * d + width * d;
    }
  }

  /** The tables of all buckets together have at most ncases / density entries. */
  lemma {:induction false} TotalSpan(v: seq<int>, b: seq<nat>, d: real)
    requires Partition(b, |v|) && 0.0 < d && Dense(v, b, d)
    ensures Span(v, b, |b| - 1) as real <= |v| as real / d
  {
    SpanBound(v, b, |b| - 1, d);
    var s := Span(v, b, |b| - 1) as real;
    assert s == s * d / d;
  }

  // -------------------------------------------------------------- emitted code

  datatype Relation = EQ | LT | GT

  /** Which tests jump, by the sign of the difference. */
  lemma TestsAreSigns(x: int, n: int)
    ensures (Holds(EQ, x, n) <==> x - n == 0) && (Holds(LT, x, n) <==> x - n < 0) && (Holds(GT, x, n) <==> x - n > 0)
  {
  }

  predicate Holds(op: Relation, x: int, n: int) {
    match op
    case EQ => x == n
    case LT => x < n
    case GT => x > n
  }

  datatype Instr =
    | Compare(op: Relation, n: int, target: Label)   // if x op n goto target
    | Goto(target: Label)
    | Define(lab: Label)
    | TableJump(base: int, table: seq<Label>)        // goto *table[x - base]

  datatype Outcome = Exit(lab: Label) | Wild | FellOff

  /** Runs code whose jumps all go forward; a label not defined ahead is an exit. */
  function Run(code: seq<Instr>, x: int): Outcome
    decreases |code|, 0
  {
    if code == [] then FellOff
    else match code[0]
      case Compare(op, n, t) => if Holds(op, x, n) then Jump(code[1..], t, x) else Run(code[1..], x)
      case Goto(t) => Jump(code[1..], t, x)
      case Define(_) => Run(code[1..], x)
      case TableJump(base, table) =>
        if base <= x < base + |table| then Jump(code[1..], table[x - base], x) else Wild
  }

  function Jump(code: seq<Instr>, lab: Label, x: int): Outcome
    decreases |code|, 1
  {
    if code == [] then Exit(lab)
    else if code[0] == Define(lab) then Run(code[1..], x)
    else Jump(code[1..], lab, x)
  }

  /** All labels the code defines lie in lo..hi. */
  ghost predicate Defines(code: seq<Instr>, lo: Label, hi: Label) {
    forall i :: 0 <= i < |code| && code[i].Define? ==> lo <= code[i].lab < hi
  }

  /** The code defines only generated labels, which are numbered from `base`. */
  ghost predicate DefinesFrom(code: seq<Instr>, base: Label) {
    forall i :: 0 <= i < |code| && code[i].Define? ==> base <= code[i].lab
  }

  lemma {:induction false} JumpOver(a: seq<Instr>, b: seq<Instr>, lab: Label, x: int)
    requires Define(lab) !in a
    ensures Jump(a + b, lab, x) == Jump(b, lab, x)
  {
    if a == [] {
      assert a + b == b;
    } else {
      assert (a + b)[1..] == a[1..] + b;
      JumpOver(a[1..], b, lab, x);
    }
  }

  lemma {:induction false} JumpOut(a: seq<Instr>, lab: Label, x: int)
    requires Define(lab) !in a
    ensures Jump(a, lab, x) == Exit(lab)
  {
    assert a + [] == a;
    JumpOver(a, [], lab, x);
  }

  // ------------------------------------------------------------------ dispatch

  /** A switch: ascending case values, their labels, the default, and whether the operand is unsigned. */
  datatype Sw = Sw(v: seq<int>, labs: seq<Label>, def: Label, isUnsigned: bool)

  /** Label numbers below `base` are taken; the switch only refers to those. */
  ghost predicate WellFormed(sw: Sw, base: Label) {
    && StrictlyAscending(sw.v) && |sw.labs| == |sw.v|
    && sw.def < base && forall i :: 0 <= i < |sw.labs| ==> sw.labs[i] < base
  }

  /** Meaning of the cases l..u: the label of x, or the default. */
  function Find(sw: Sw, l: nat, u: nat, x: int): Label
    requires l <= u <= |sw.v| && |sw.labs| == |sw.v|
    decreases u - l
  {
    if l == u then sw.def else if sw.v[l] == x then sw.labs[l] else Find(sw, l + 1, u, x)
  }

  /** What C demands of a dispatch on x. */
  ghost predicate Selects(sw: Sw, x: int, lab: Label)
    requires |sw.labs| == |sw.v|
  {
    && (forall i :: 0 <= i < |sw.v| && sw.v[i] == x ==> lab == sw.labs[i])
    && (x !in sw.v ==> lab == sw.def)
  }

  lemma {:induction false} FindAt(sw: Sw, l: nat, u: nat, x: int, i: nat)
    requires StrictlyAscending(sw.v) && |sw.labs| == |sw.v|
    requires l <= i < u <= |sw.v| && sw.v[i] == x
    ensures Find(sw, l, u, x) == sw.labs[i]
    decreases i - l
  {
    if l < i {
      FindAt(sw, l + 1, u, x, i);
    }
  }

  lemma {:induction false} FindNone(sw: Sw, l: nat, u: nat, x: int)
    requires l <= u <= |sw.v| && |sw.labs| == |sw.v|
    requires forall i :: l <= i < u ==> sw.v[i] != x
    ensures Find(sw, l, u, x) == sw.def
    decreases u - l
  {
    if l < u {
      FindNone(sw, l + 1, u, x);
    }
  }

  /** Restricting the search to l'..u' is sound when x is not among the cases left out. */
  lemma {:induction false} FindNarrow(sw: Sw, l: nat, u: nat, l': nat, u': nat, x: int)
    requires StrictlyAscending(sw.v) && |sw.labs| == |sw.v|
    requires l <= l' <= u' <= u <= |sw.v|
    requires forall i :: l <= i < u && !(l' <= i < u') ==> sw.v[i] != x
    ensures Find(sw, l, u, x) == Find(sw, l', u', x)
  {
    if i :| l' <= i < u' && sw.v[i] == x {
      FindAt(sw, l, u, x, i);
      FindAt(sw, l', u', x, i);
    } else {
      FindNone(sw, l, u, x);
      FindNone(sw, l', u', x);
    }
  }

  lemma {:induction false} FindSelects(sw: Sw, x: int)
    requires StrictlyAscending(sw.v) && |sw.labs| == |sw.v|
    ensures Selects(sw, x, Find(sw, 0, |sw.v|, x))
  {
    forall i | 0 <= i < |sw.v| && sw.v[i] == x
      ensures Find(sw, 0, |sw.v|, x) == sw.labs[i]
    {
      FindAt(sw, 0, |sw.v|, x, i);
    }
    if x !in sw.v {
      FindNone(sw, 0, |sw.v|, x);
    }
  }

  // --------------------------------------------------------------- jump tables

  /** The table of the cases l..u-1: one entry for every value they span. */
  function Table(sw: Sw, l: nat, u: nat): (t: seq<Label>)
    requires l < u <= |sw.v| && |sw.labs| == |sw.v| && sw.v[l] <= sw.v[u - 1]
  {
    seq<Label>(sw.v[u - 1] - sw.v[l] + 1, i => Find(sw, l, u, sw.v[l] + i))
  }

  /** Emission of a table, gap by gap. */
  method EmitTable(sw: Sw, l: nat, u: nat) returns (t: seq<Label>)
    requires StrictlyAscending(sw.v) && |sw.labs| == |sw.v| && l < u <= |sw.v|
    ensures t == Table(sw, l, u)
  {
    FindAt(sw, l, u, sw.v[l], l);
    t := [sw.labs[l]];
    for i := l + 1 to u
      invariant |t| == sw.v[i - 1] - sw.v[l] + 1
      invariant forall j :: 0 <= j < |t| ==> t[j] == Find(sw, l, u, sw.v[l] + j)
    {
      var k := sw.v[i - 1] + 1;
      while k < sw.v[i]
        invariant sw.v[i - 1] < k <= sw.v[i]
        invariant |t| == k - sw.v[l]
        invariant forall j :: 0 <= j < |t| ==> t[j] == Find(sw, l, u, sw.v[l] + j)
      {
        FindNone(sw, l, u, k);
        t := t + [sw.def];
        k := k + 1;
      }
      FindAt(sw, l, u, sw.v[i], i);
      t := t + [sw.labs[i]];
    }
  }

  // -------------------------------------------------------------- binary search

  /** Buckets of more than three cases get a jump table. */
  predicate UsesTable(l: nat, u: nat) {
    u - l > 3
  }

  /** The search for x arrives at a table starting at 0 whose lower bound test was dropped, with x below 0. */
  predicate HitsOpenTable(sw: Sw, b: seq<nat>, lb: nat, ub: int, x: int)
    requires Partition(b, |sw.v|) && lb <= ub + 1 && ub + 1 < |b|
    decreases ub + 1 - lb
  {
    if lb > ub then false else
    var k := (lb + ub) / 2;
    Cut(b, |sw.v|, k);
    var l, u := b[k], b[k + 1];
    if UsesTable(l, u) && sw.isUnsigned && sw.v[l] == 0 && x < 0 then true
    else if UsesTable(l, u) then
      if x < sw.v[l] then HitsOpenTable(sw, b, lb, k - 1, x)
      else x > sw.v[u - 1] && HitsOpenTable(sw, b, k + 1, ub, x)
    else if x in sw.v[l..u] then false
    else if k > lb && x <= sw.v[u - 1] then HitsOpenTable(sw, b, lb, k - 1, x)
    else if k == lb && x < sw.v[l] then false
    else HitsOpenTable(sw, b, k + 1, ub, x)
  }

  /** Meaning of the search over buckets lb..ub. */
  function Decide(sw: Sw, b: seq<nat>, lb: nat, ub: int, x: int): Outcome
    requires Partition(b, |sw.v|) && lb <= ub + 1 && ub + 1 < |b| && |sw.labs| == |sw.v|
  {
    CutRange(b, |sw.v|, lb, ub + 1);
    if HitsOpenTable(sw, b, lb, ub, x) then Wild else Exit(Find(sw, b[lb], b[ub + 1], x))
  }

  /** Whatever generated code follows, the code decides x and never falls off its end. */
  ghost predicate Dispatches(code: seq<Instr>, sw: Sw, b: seq<nat>, lb: nat, ub: int, base: Label)
    requires Partition(b, |sw.v|) && lb <= ub + 1 && ub + 1 < |b| && |sw.labs| == |sw.v|
  {
    forall rest, x :: DefinesFrom(rest, base) ==> Run(code + rest, x) == Decide(sw, b, lb, ub, x)
  }

  /** Cases below, in and above l..u: which part alone can hold x. */
  lemma {:induction false} FindParts(sw: Sw, from: nat, l: nat, u: nat, to: nat, x: int)
    requires StrictlyAscending(sw.v) && |sw.labs| == |sw.v|
    requires from <= l < u <= to <= |sw.v|
    ensures sw.v[l] <= x <= sw.v[u - 1] || x in sw.v[l..u] ==> Find(sw, from, to, x) == Find(sw, l, u, x)
    ensures x !in sw.v[l..u] && x <= sw.v[u - 1] ==> Find(sw, from, to, x) == Find(sw, from, l, x)
    ensures x !in sw.v[l..u] && x >= sw.v[l] ==> Find(sw, from, to, x) == Find(sw, u, to, x)
  {
    if sw.v[l] <= x <= sw.v[u - 1] || x in sw.v[l..u] {
      FindNarrow(sw, from, to, l, u, x);
    }
    if x !in sw.v[l..u] {
      assert forall i :: l <= i < u ==> sw.v[i] != x;
      if x <= sw.v[u - 1] {
        FindNarrow(sw, from, to, from, l, x);
      }
      if x >= sw.v[l] {
        FindNarrow(sw, from, to, u, to, x);
      }
    }
  }

  /** One step of the search: the middle bucket k decides x or sends it to a half. */
  lemma DecideStep(sw: Sw, b: seq<nat>, lb: nat, k: nat, ub: nat, x: int)
    requires Partition(b, |sw.v|) && lb <= ub && ub + 1 < |b| && k == (lb + ub) / 2
    requires StrictlyAscending(sw.v) && |sw.labs| == |sw.v|
    ensures Decide(sw, b, lb, ub, x) == Step(sw, b, lb, k, ub, x)
  {
    if UsesTable(b[k], b[k + 1]) {
      DecideTable(sw, b, lb, k, ub, x);
    } else {
      DecideSmall(sw, b, lb, k, ub, x);
    }
  }

  lemma DecideTable(sw: Sw, b: seq<nat>, lb: nat, k: nat, ub: nat, x: int)
    requires Partition(b, |sw.v|) && lb <= ub && ub + 1 < |b| && k == (lb + ub) / 2
    requires StrictlyAscending(sw.v) && |sw.labs| == |sw.v| && UsesTable(b[k], b[k + 1])
    ensures Decide(sw, b, lb, ub, x) == Step(sw, b, lb, k, ub, x)
  {
    CutRange(b, |sw.v|, lb, k);
    Cut(b, |sw.v|, k);
    CutRange(b, |sw.v|, k + 1, ub + 1);
    FindParts(sw, b[lb], b[k], b[k + 1], b[ub + 1], x);
  }

  lemma DecideSmall(sw: Sw, b: seq<nat>, lb: nat, k: nat, ub: nat, x: int)
    requires Partition(b, |sw.v|) && lb <= ub && ub + 1 < |b| && k == (lb + ub) / 2
    requires StrictlyAscending(sw.v) && |sw.labs| == |sw.v| && !UsesTable(b[k], b[k + 1])
    ensures Decide(sw, b, lb, ub, x) == Step(sw, b, lb, k, ub, x)
  {
    CutRange(b, |sw.v|, lb, k);
    Cut(b, |sw.v|, k);
    CutRange(b, |sw.v|, k + 1, ub + 1);
    FindParts(sw, b[lb], b[k], b[k + 1], b[ub + 1], x);
  }

  function Step(sw: Sw, b: seq<nat>, lb: nat, k: nat, ub: nat, x: int): Outcome
    requires Partition(b, |sw.v|) && lb <= k <= ub && ub + 1 < |b|
    requires StrictlyAscending(sw.v) && |sw.labs| == |sw.v|
  {
    Cut(b, |sw.v|, k);
    var l, u := b[k], b[k + 1];
    if UsesTable(l, u) then
      if sw.isUnsigned && sw.v[l] == 0 && x < 0 then Wild
      else if x < sw.v[l] then Decide(sw, b, lb, k - 1, x)
      else if x > sw.v[u - 1] then Decide(sw, b, k + 1, ub, x)
      else Exit(Find(sw, l, u, x))
    else if x in sw.v[l..u] then Exit(Find(sw, l, u, x))
    else if k > lb && x <= sw.v[u - 1] then Decide(sw, b, lb, k - 1, x)
    else if k == lb && x < sw.v[l] then Exit(sw.def)
    else Decide(sw, b, k + 1, ub, x)
  }

  function EqualityTests(sw: Sw, l: nat, u: nat): seq<Instr>
    requires l <= u <= |sw.v| && |sw.labs| == |sw.v|
  {
    seq(u - l, i requires 0 <= i < u - l => Compare(EQ, sw.v[l + i], sw.labs[l + i]))
  }

  lemma {:induction false} RunTests(sw: Sw, l: nat, u: nat, rest: seq<Instr>, x: int, base: Label)
    requires WellFormed(sw, base) && l <= u <= |sw.v| && DefinesFrom(rest, base)
    ensures Run(EqualityTests(sw, l, u) + rest, x) ==
            if x in sw.v[l..u] then Exit(Find(sw, l, u, x)) else Run(rest, x)
    decreases u - l
  {
    var code := EqualityTests(sw, l, u) + rest;
    if l == u {
      assert code == rest;
    } else {
      assert code[1..] == EqualityTests(sw, l + 1, u) + rest;
      RunTests(sw, l + 1, u, rest, x, base);
      assert sw.v[l..u] == [sw.v[l]] + sw.v[l + 1..u];
      if x == sw.v[l] {
        JumpOut(code[1..], sw.labs[l], x);
      }
    }
  }

  lemma {:induction false} FindBelow(sw: Sw, l: nat, u: nat, x: int, base: Label)
    requires WellFormed(sw, base) && l <= u <= |sw.v|
    ensures Find(sw, l, u, x) < base
    decreases u - l
  {
    if l < u {
      FindBelow(sw, l + 1, u, x, base);
    }
  }

  /** Tail of a small bucket: the one test that chooses the half, or the jump to the default. */
  function Chooser(sw: Sw, l: nat, u: nat, below: bool, above: bool, lo: Label, hi: Label): Instr
    requires l < u <= |sw.v|
  {
    if below then Compare(GT, sw.v[u - 1], hi)
    else if above then Compare(LT, sw.v[l], lo)
    else Goto(lo)
  }

  /** A bucket of up to three cases. */
  lemma {:induction false} RunSmall(sw: Sw, l: nat, u: nat, below: bool, above: bool, lo: Label, hi: Label,
                                    tail: seq<Instr>, base: Label, x: int)
    requires WellFormed(sw, base) && l < u <= |sw.v| && DefinesFrom(tail, base)
    ensures Run(EqualityTests(sw, l, u) + [Chooser(sw, l, u, below, above, lo, hi)] + tail, x) ==
            if x in sw.v[l..u] then Exit(Find(sw, l, u, x))
            else if below then if x > sw.v[u - 1] then Jump(tail, hi, x) else Run(tail, x)
            else if above then if x < sw.v[l] then Jump(tail, lo, x) else Run(tail, x)
            else Jump(tail, lo, x)
  {
    var chooser := Chooser(sw, l, u, below, above, lo, hi);
    var rest := [chooser] + tail;
    assert EqualityTests(sw, l, u) + [chooser] + tail == EqualityTests(sw, l, u) + rest;
    RunTests(sw, l, u, rest, x, base);
    assert rest[1..] == tail;
  }

  /** Bounds tests and an indexed jump; the lower test is dropped for an unsigned table starting at 0. */
  function TableHead(sw: Sw, l: nat, u: nat, lo: Label, hi: Label): seq<Instr>
    requires l < u <= |sw.v| && |sw.labs| == |sw.v| && sw.v[l] <= sw.v[u - 1]
  {
    (if sw.isUnsigned && sw.v[l] == 0 then [] else [Compare(LT, sw.v[l], lo)])
    + [Compare(GT, sw.v[u - 1], hi), TableJump(sw.v[l], Table(sw, l, u))]
  }

  /** The upper test and the indexed jump. */
  lemma {:induction false} RunUpper(sw: Sw, l: nat, u: nat, hi: Label, tail: seq<Instr>, base: Label, x: int)
    requires WellFormed(sw, base) && l < u <= |sw.v| && DefinesFrom(tail, base) && sw.v[l] <= sw.v[u - 1]
    ensures Run([Compare(GT, sw.v[u - 1], hi)] + ([TableJump(sw.v[l], Table(sw, l, u))] + tail), x) ==
            if x > sw.v[u - 1] then Jump(tail, hi, x)
            else if x >= sw.v[l] then Exit(Find(sw, l, u, x))
            else Wild
  {
    var jump := [TableJump(sw.v[l], Table(sw, l, u))] + tail;
    var upper := [Compare(GT, sw.v[u - 1], hi)] + jump;
    assert jump[1..] == tail && upper[1..] == jump;
    FindBelow(sw, l, u, x, base);
    JumpOut(tail, Find(sw, l, u, x), x);
  }

  /** A larger bucket. */
  lemma {:induction false} RunTable(sw: Sw, l: nat, u: nat, lo: Label, hi: Label, tail: seq<Instr>, base: Label, x: int)
    requires WellFormed(sw, base) && l < u <= |sw.v| && DefinesFrom(tail, base)
    requires sw.v[l] <= sw.v[u - 1]
    ensures Run(TableHead(sw, l, u, lo, hi) + tail, x) ==
            if x > sw.v[u - 1] then Jump(tail, hi, x)
            else if x >= sw.v[l] then Exit(Find(sw, l, u, x))
            else if sw.isUnsigned && sw.v[l] == 0 then Wild
            else Jump(tail, lo, x)
  {
    var jump := [TableJump(sw.v[l], Table(sw, l, u))] + tail;
    var upper := [Compare(GT, sw.v[u - 1], hi)] + jump;
    assert jump[1..] == tail && upper[1..] == jump;
    RunUpper(sw, l, u, hi, tail, base, x);
    if sw.isUnsigned && sw.v[l] == 0 {
      assert TableHead(sw, l, u, lo, hi) + tail == upper;
    } else {
      var code := [Compare(LT, sw.v[l], lo)] + upper;
      assert TableHead(sw, l, u, lo, hi) + tail == code && code[1..] == upper;
      assert Jump(upper, lo, x) == Jump(jump, lo, x) == Jump(tail, lo, x);
    }
  }

  /** The two halves behind the middle bucket, each introduced by its label unless it is empty. */
  ghost predicate Halves(tail: seq<Instr>, sw: Sw, b: seq<nat>, lb: nat, k: nat, ub: nat, lo: Label, hi: Label, x: int)
    requires Partition(b, |sw.v|) && lb <= k <= ub && ub + 1 < |b| && |sw.labs| == |sw.v|
  {
    && Jump(tail, lo, x) == Decide(sw, b, lb, k - 1, x)
    && Jump(tail, hi, x) == Decide(sw, b, k + 1, ub, x)
    && (k > lb ==> Run(tail, x) == Decide(sw, b, lb, k - 1, x))
    && (k == lb < ub ==> Run(tail, x) == Decide(sw, b, k + 1, ub, x))
  }

  /** The code for the middle bucket in front of the halves. */
  function Head(sw: Sw, l: nat, u: nat, below: bool, above: bool, lo: Label, hi: Label): seq<Instr>
    requires l < u <= |sw.v| && |sw.labs| == |sw.v| && sw.v[l] <= sw.v[u - 1]
  {
    if UsesTable(l, u) then TableHead(sw, l, u, lo, hi)
    else EqualityTests(sw, l, u) + [Chooser(sw, l, u, below, above, lo, hi)]
  }

  lemma {:induction false} RunTableBucket(sw: Sw, b: seq<nat>, lb: nat, k: nat, ub: nat, tail: seq<Instr>, lo: Label,
                                          hi: Label, base: Label, x: int)
    requires Partition(b, |sw.v|) && lb <= ub && ub + 1 < |b| && WellFormed(sw, base) && k == (lb + ub) / 2
    requires DefinesFrom(tail, base) && Halves(tail, sw, b, lb, k, ub, lo, hi, x) && UsesTable(b[k], b[k + 1])
    requires b[k] < b[k + 1] <= |sw.v|
    ensures Run(TableHead(sw, b[k], b[k + 1], lo, hi) + tail, x) == Step(sw, b, lb, k, ub, x)
  {
    RunTable(sw, b[k], b[k + 1], lo, hi, tail, base, x);
  }

  lemma {:induction false} RunSmallBucket(sw: Sw, b: seq<nat>, lb: nat, k: nat, ub: nat, tail: seq<Instr>, lo: Label,
                                          hi: Label, base: Label, x: int)
    requires Partition(b, |sw.v|) && lb <= ub && ub + 1 < |b| && WellFormed(sw, base) && k == (lb + ub) / 2
    requires DefinesFrom(tail, base) && Halves(tail, sw, b, lb, k, ub, lo, hi, x) && !UsesTable(b[k], b[k + 1])
    requires b[k] < b[k + 1] <= |sw.v|
    ensures Run(EqualityTests(sw, b[k], b[k + 1]) + [Chooser(sw, b[k], b[k + 1], k > lb, k < ub, lo, hi)] + tail, x)
         == Step(sw, b, lb, k, ub, x)
  {
    RunSmall(sw, b[k], b[k + 1], k > lb, k < ub, lo, hi, tail, base, x);
    if k == lb {
      DecideNone(sw, b, lb, x);
    }
    if k == ub {
      DecideNone(sw, b, k + 1, x);
    }
  }

  /** Without buckets there is only the default. */
  lemma DecideNone(sw: Sw, b: seq<nat>, k: nat, x: int)
    requires Partition(b, |sw.v|) && k < |b| && |sw.labs| == |sw.v|
    ensures Decide(sw, b, k, k - 1, x) == Exit(sw.def)
  {
    CutRange(b, |sw.v|, k, k);
  }

  lemma {:induction false} RunBucket(sw: Sw, b: seq<nat>, lb: nat, k: nat, ub: nat, tail: seq<Instr>, lo: Label,
                                     hi: Label, base: Label, x: int)
    requires Partition(b, |sw.v|) && lb <= ub && ub + 1 < |b| && WellFormed(sw, base) && k == (lb + ub) / 2
    requires DefinesFrom(tail, base) && Halves(tail, sw, b, lb, k, ub, lo, hi, x)
    requires b[k] < b[k + 1] <= |sw.v|
    ensures Run(Head(sw, b[k], b[k + 1], k > lb, k < ub, lo, hi) + tail, x) == Decide(sw, b, lb, ub, x)
  {
    DecideStep(sw, b, lb, k, ub, x);
    if UsesTable(b[k], b[k + 1]) {
      RunTableBucket(sw, b, lb, k, ub, tail, lo, hi, base, x);
    } else {
      RunSmallBucket(sw, b, lb, k, ub, tail, lo, hi, base, x);
    }
  }

  /** Labelled halves in order: each label leads into its half, and running straight on enters the first. */
  lemma JoinHalves(sw: Sw, b: seq<nat>, lb: nat, k: nat, ub: nat, lo: Label, hi: Label, cLo: seq<Instr>,
                   cHi: seq<Instr>, rest: seq<Instr>, base: Label, x: int)
    requires Partition(b, |sw.v|) && lb <= k <= ub && ub + 1 < |b| && WellFormed(sw, base)
    requires DefinesFrom(rest, base) && DefinesFrom(cLo, base) && DefinesFrom(cHi, base)
    requires if k > lb then base <= lo && Dispatches(cLo, sw, b, lb, k - 1, base) else lo == sw.def
    requires if k < ub then base <= hi && Dispatches(cHi, sw, b, k + 1, ub, base) else hi == sw.def
    requires k < ub ==> Define(hi) !in Labelled(lb < k, lo, cLo)
    ensures Halves(Labelled(lb < k, lo, cLo) + Labelled(k < ub, hi, cHi) + rest, sw, b, lb, k, ub, lo, hi, x)
  {
    var low, high := Labelled(lb < k, lo, cLo), Labelled(k < ub, hi, cHi);
    var after := high + rest;
    assert low + high + rest == low + after;
    if k < ub {
      assert after == [Define(hi)] + (cHi + rest);
      JumpOver(low, after, hi, x);
    } else {
      JumpOut(low + after, hi, x);
    }
    if k > lb {
      assert low + after == [Define(lo)] + (cLo + after);
    } else {
      JumpOut(low + after, lo, x);
      assert low + after == after;
    }
  }

  function Labelled(present: bool, lab: Label, code: seq<Instr>): seq<Instr> {
    if present then [Define(lab)] + code else []
  }

  lemma Compose(sw: Sw, b: seq<nat>, lb: nat, k: nat, ub: nat, lo: Label, hi: Label, cLo: seq<Instr>, cHi: seq<Instr>,
                base: Label)
    requires Partition(b, |sw.v|) && lb <= ub && ub + 1 < |b| && WellFormed(sw, base) && k == (lb + ub) / 2
    requires DefinesFrom(cLo, base) && DefinesFrom(cHi, base)
    requires if k > lb then base <= lo && Dispatches(cLo, sw, b, lb, k - 1, base) else lo == sw.def
    requires if k < ub then base <= hi && Dispatches(cHi, sw, b, k + 1, ub, base) else hi == sw.def
    requires k < ub ==> Define(hi) !in Labelled(lb < k, lo, cLo)
    requires b[k] < b[k + 1] <= |sw.v|
    ensures Dispatches(Head(sw, b[k], b[k + 1], k > lb, k < ub, lo, hi)
                       + (Labelled(lb < k, lo, cLo) + Labelled(k < ub, hi, cHi)), sw, b, lb, ub, base)
  {
    var head := Head(sw, b[k], b[k + 1], k > lb, k < ub, lo, hi);
    var halves := Labelled(lb < k, lo, cLo) + Labelled(k < ub, hi, cHi);
    forall rest, x | DefinesFrom(rest, base)
      ensures Run(head + halves + rest, x) == Decide(sw, b, lb, ub, x)
    {
      assert head + halves + rest == head + (halves + rest);
      JoinHalves(sw, b, lb, k, ub, lo, hi, cLo, cHi, rest, base, x);
      RunBucket(sw, b, lb, k, ub, halves + rest, lo, hi, base, x);
    }
  }

  /** There is a jump table exactly for more than three cases. */
  lemma HeadTable(sw: Sw, l: nat, u: nat, below: bool, above: bool, lo: Label, hi: Label)
    requires StrictlyAscending(sw.v) && |sw.labs| == |sw.v| && l < u <= |sw.v|
    ensures var code := Head(sw, l, u, below, above, lo, hi);
      (exists i :: 0 <= i < |code| && code[i].TableJump?) <==> u - l > 3
  {
    var code := Head(sw, l, u, below, above, lo, hi);
    if u - l > 3 {
      assert code[|code| - 1].TableJump?;
    } else {
      OnlyTests(sw, l, u);
      assert code == EqualityTests(sw, l, u) + [Chooser(sw, l, u, below, above, lo, hi)];
    }
  }

  lemma {:induction false} OnlyTests(sw: Sw, l: nat, u: nat)
    requires l <= u <= |sw.v| && |sw.labs| == |sw.v|
    ensures forall i :: 0 <= i < |EqualityTests(sw, l, u)| ==> EqualityTests(sw, l, u)[i].Compare?
    decreases u - l
  {
    if l < u {
      OnlyTests(sw, l, u - 1);
    }
  }

  /** Emits the tests of the bucket holding the cases l..u. */
  method EmitHead(sw: Sw, l: nat, u: nat, below: bool, above: bool, lolab: Label, hilab: Label)
    returns (code: seq<Instr>)
    requires StrictlyAscending(sw.v) && |sw.labs| == |sw.v| && l < u <= |sw.v|
    ensures code == Head(sw, l, u, below, above, lolab, hilab)
    ensures (exists i :: 0 <= i < |code| && code[i].TableJump?) <==> u - l > 3
  {
    HeadTable(sw, l, u, below, above, lolab, hilab);
    code := [];
    if !UsesTable(l, u) {
      for i := l to u
        invariant code == EqualityTests(sw, l, i)
      {
        code := code + [Compare(EQ, sw.v[i], sw.labs[i])];
      }
      if below { code := code + [Compare(GT, sw.v[u - 1], hilab)]; }
      else if above { code := code + [Compare(LT, sw.v[l], lolab)]; }
      else { code := code + [Goto(lolab)]; }
    } else {
      var t := EmitTable(sw, l, u);
      if !sw.isUnsigned || sw.v[l] != 0 { code := code + [Compare(LT, sw.v[l], lolab)]; }
      code := code + [Compare(GT, sw.v[u - 1], hilab), TableJump(sw.v[l], t)];
    }
  }

  /** Emits the search over buckets lb..ub, numbering new labels from `next`. */
  method SwCode(sw: Sw, b: seq<nat>, lb: nat, ub: nat, next: Label, ghost base: Label)
    returns (code: seq<Instr>, next': Label)
    requires Partition(b, |sw.v|) && lb <= ub && ub + 1 < |b| && WellFormed(sw, base) && base <= next
    ensures next <= next' && Defines(code, next, next')
    ensures Dispatches(code, sw, b, lb, ub, base)
    decreases ub - lb
  {
    var k := (lb + ub) / 2;
    Cut(b, |sw.v|, k);
    var lolab, hilab := sw.def, sw.def;
    next' := next;
    if k > lb { lolab, next' := next', next' + 1; }
    if k < ub { hilab, next' := next', next' + 1; }
    var head := EmitHead(sw, b[k], b[k + 1], k > lb, k < ub, lolab, hilab);
    var low, high, cLo, cHi := [], [], [], [];
    if k > lb {
      cLo, next' := SwCode(sw, b, lb, k - 1, next', base);
      low := [Define(lolab)] + cLo;
    }
    if k < ub {
      cHi, next' := SwCode(sw, b, k + 1, ub, next', base);
      high := [Define(hilab)] + cHi;
    }
    code := head + (low + high);
    Compose(sw, b, lb, k, ub, lolab, hilab, cLo, cHi, base);
  }

  /** Lowers a switch with at least one case: buckets, then the search over all of them. */
  method Lower(sw: Sw, d: real, next: Label) returns (code: seq<Instr>, b: seq<nat>)
    requires WellFormed(sw, next) && |sw.v| > 0 && 0.0 < d <= 1.0
    ensures Partition(b, |sw.v|) && Dense(sw.v, b, d) && Unmergeable(sw.v, b, |b| - 1, d)
    ensures forall x :: if Escapes(sw, b, x) then Run(code, x) == Wild
                        else Run(code, x).Exit? && Selects(sw, x, Run(code, x).lab)
    ensures (exists x :: Escapes(sw, b, x)) <==> sw.isUnsigned && exists k :: ZeroTable(sw, b, k)
  {
    b := Buckets(sw.v, d);
    var next';
    code, next' := SwCode(sw, b, 0, |b| - 2, next, next);
    forall x ensures Run(code, x) == Decide(sw, b, 0, |b| - 2, x) {
      assert code + [] == code;
    }
    forall x ensures Selects(sw, x, Find(sw, 0, |sw.v|, x)) {
      FindSelects(sw, x);
    }
    if sw.isUnsigned {
      OpenTableExactly(sw, b, d);
    } else {
      SignedBounded(sw, b);
    }
  }

  // ------------------------------------------- when the dropped test is harmless

  /**
   With a signed operand, an operand that is not negative as a signed number, or no table starting at 0, every search is
   bounded.
   */
  lemma {:induction false} NoOpenTable(sw: Sw, b: seq<nat>, lb: nat, ub: int, x: int)
    requires Partition(b, |sw.v|) && lb <= ub + 1 && ub + 1 < |b|
    requires !sw.isUnsigned || x >= 0
          || forall k :: lb <= k <= ub ==> !ZeroTable(sw, b, k)
    ensures !HitsOpenTable(sw, b, lb, ub, x)
    decreases ub + 1 - lb
  {
    if lb <= ub {
      var k := (lb + ub) / 2;
      Cut(b, |sw.v|, k);
      assert !sw.isUnsigned || x >= 0 || !ZeroTable(sw, b, k);
      NoOpenTable(sw, b, lb, k - 1, x);
      NoOpenTable(sw, b, k + 1, ub, x);
    }
  }

  /** Buckets before the one that starts at 0 are below -1, those after it above 0. */
  lemma AroundZero(sw: Sw, b: seq<nat>, z: nat, k: nat)
    requires Partition(b, |sw.v|) && StrictlyAscending(sw.v) && z + 1 < |b| && k + 1 < |b| && k != z
    requires b[z] < |sw.v| && sw.v[b[z]] == 0 && -1 !in sw.v
    ensures b[k] < b[k + 1] <= |sw.v| && -1 !in sw.v[b[k]..b[k + 1]]
    ensures if z < k then sw.v[b[k]] > 0 && sw.v[b[k + 1] - 1] > 0 else sw.v[b[k]] < -1 && sw.v[b[k + 1] - 1] < -1
  {
    Cut(b, |sw.v|, k);
    if k < z {
      CutRange(b, |sw.v|, k + 1, z);
      assert sw.v[b[k + 1] - 1] in sw.v && sw.v[b[k]] in sw.v;
    } else {
      assert Below(b, z, k);
    }
  }

  /** From a bucket above it, -1 goes to the half below. */
  lemma GoLeft(sw: Sw, b: seq<nat>, lb: nat, k: nat, ub: nat)
    requires Partition(b, |sw.v|) && lb < k <= ub && ub + 1 < |b| && k == (lb + ub) / 2
    requires b[k] < b[k + 1] <= |sw.v| && sw.v[b[k]] > 0 && sw.v[b[k + 1] - 1] > 0 && -1 !in sw.v[b[k]..b[k + 1]]
    ensures HitsOpenTable(sw, b, lb, ub, -1) == HitsOpenTable(sw, b, lb, k - 1, -1)
  {
  }

  /** From a bucket below it, -1 goes to the half above. */
  lemma GoRight(sw: Sw, b: seq<nat>, lb: nat, k: nat, ub: nat)
    requires Partition(b, |sw.v|) && lb <= k < ub && ub + 1 < |b| && k == (lb + ub) / 2
    requires b[k] < b[k + 1] <= |sw.v| && sw.v[b[k]] < -1 && sw.v[b[k + 1] - 1] < -1 && -1 !in sw.v[b[k]..b[k + 1]]
    ensures HitsOpenTable(sw, b, lb, ub, -1) == HitsOpenTable(sw, b, k + 1, ub, -1)
  {
  }

  /** At another bucket the search for -1 goes on in the half that has the table. */
  lemma TowardsZero(sw: Sw, b: seq<nat>, lb: nat, k: nat, ub: nat, z: nat)
    requires Partition(b, |sw.v|) && StrictlyAscending(sw.v) && lb <= z <= ub && ub + 1 < |b| && k == (lb + ub) / 2 != z
    requires ZeroTable(sw, b, z) && -1 !in sw.v
    requires if z < k then HitsOpenTable(sw, b, lb, k - 1, -1) else HitsOpenTable(sw, b, k + 1, ub, -1)
    ensures HitsOpenTable(sw, b, lb, ub, -1)
  {
    AroundZero(sw, b, z, k);
    if z < k {
      GoLeft(sw, b, lb, k, ub);
    } else {
      GoRight(sw, b, lb, k, ub);
    }
  }

  /** The search for -1 arrives at the table that starts at 0. */
  lemma {:induction false} OpenTableReached(sw: Sw, b: seq<nat>, lb: nat, ub: nat, z: nat)
    requires Partition(b, |sw.v|) && StrictlyAscending(sw.v) && lb <= z <= ub && ub + 1 < |b|
    requires sw.isUnsigned && ZeroTable(sw, b, z) && -1 !in sw.v
    ensures HitsOpenTable(sw, b, lb, ub, -1)
    decreases ub - lb
  {
    var k := (lb + ub) / 2;
    if z == k {
      OpenHere(sw, b, lb, ub);
    } else if z < k {
      OpenTableReached(sw, b, lb, k - 1, z);
      TowardsZero(sw, b, lb, k, ub, z);
    } else {
      OpenTableReached(sw, b, k + 1, ub, z);
      TowardsZero(sw, b, lb, k, ub, z);
    }
  }

  lemma {:induction false} OpenHere(sw: Sw, b: seq<nat>, lb: nat, ub: nat)
    requires Partition(b, |sw.v|) && lb <= ub && ub + 1 < |b| && sw.isUnsigned && ZeroTable(sw, b, (lb + ub) / 2)
    ensures HitsOpenTable(sw, b, lb, ub, -1)
  {
  }

  /** Bucket k is a table that starts at 0. */
  predicate ZeroTable(sw: Sw, b: seq<nat>, k: nat) {
    k + 1 < |b| && UsesTable(b[k], b[k + 1]) && b[k] < |sw.v| && sw.v[b[k]] == 0
  }

  /** The operand x leaves a table that starts at 0. */
  predicate Escapes(sw: Sw, b: seq<nat>, x: int)
    requires Partition(b, |sw.v|)
  {
    HitsOpenTable(sw, b, 0, |b| - 2, x)
  }

  /** Two dense ranges without a gap between them are dense as one. */
  lemma Mediant(v: seq<int>, i: nat, j: nat, k: nat, d: real)
    requires StrictlyAscending(v) && DenseRange(v, i, j, d) && DenseRange(v, j, k, d) && v[j] == v[j - 1] + 1
    ensures DenseRange(v, i, k, d)
  {
    DenseWidth(v, i, j, d);
    DenseWidth(v, j, k, d);
    var w1, w2 := (v[j - 1] - v[i] + 1) as real, (v[k - 1] - v[j] + 1) as real;
    var count, width := (k - i) as real, (v[k - 1] - v[i] + 1) as real;
    assert width == w1 + w2 && width > 0.0;
    assert width * d == w1 * d + w2 * d;
    Quotients(count, width, d);
  }

  lemma Quotients(count: real, width: real, d: real)
    requires width > 0.0 && width * d <= count
    ensures count / width >= d
  {
    assert count == width * (count / width);
    assert width * d <= width * (count / width);
  }

  /** In the buckets that are made, a case for the greatest unsigned value leaves no table that starts at 0. */
  lemma GreatestCase(sw: Sw, b: seq<nat>, d: real, z: nat)
    requires Partition(b, |sw.v|) && StrictlyAscending(sw.v) && Dense(sw.v, b, d) && Unmergeable(sw.v, b, |b| - 1, d)
    requires ZeroTable(sw, b, z)
    ensures -1 !in sw.v
  {
    if -1 in sw.v {
      var i :| 0 <= i < |sw.v| && sw.v[i] == -1;
      var j := b[z];
      assert i < j;
      assert sw.v[i] <= sw.v[j - 1] < sw.v[j];
      assert DenseBucket(sw.v, b, z - 1, d) && DenseBucket(sw.v, b, z, d);
      assert !Mergeable(sw.v, b, z - 1, d);
      Mediant(sw.v, b[z - 1], j, b[z + 1], d);
    }
  }

  /** For an unsigned switch some value leaves its table exactly when a table starts at 0. */
  lemma OpenTableExactly(sw: Sw, b: seq<nat>, d: real)
    requires Partition(b, |sw.v|) && StrictlyAscending(sw.v) && Dense(sw.v, b, d) && Unmergeable(sw.v, b, |b| - 1, d)
    requires sw.isUnsigned
    ensures (exists x :: Escapes(sw, b, x)) <==> exists k :: ZeroTable(sw, b, k)
  {
    if z :| ZeroTable(sw, b, z) {
      GreatestCase(sw, b, d, z);
      OpenTableReached(sw, b, 0, |b| - 2, z);
      assert Escapes(sw, b, -1);
    } else {
      forall x ensures !Escapes(sw, b, x) {
        assert forall k :: 0 <= k <= |b| - 2 ==> !ZeroTable(sw, b, k);
        NoOpenTable(sw, b, 0, |b| - 2, x);
      }
    }
  }

  /** With a signed operand no value leaves a table. */
  lemma SignedBounded(sw: Sw, b: seq<nat>)
    requires Partition(b, |sw.v|) && !sw.isUnsigned
    ensures forall x :: !Escapes(sw, b, x)
  {
    forall x ensures !Escapes(sw, b, x) {
      NoOpenTable(sw, b, 0, |b| - 2, x);
    }
  }
}
