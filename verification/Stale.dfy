/**
 Why value numbering relies on distinct variables having distinct places: a block
 whose forest leaves another memory when two of its names denote one place.
 */
module Stale {
  import opened Dag

  lemma {:induction false} FindNone(nodes: seq<Node>, chain: seq<nat>, n: Node)
    requires forall i :: 0 <= i < |nodes| ==> nodes[i] != n
    ensures FindIn(nodes, chain, n) == 0
  {
    if chain != [] {
      FindNone(nodes, chain[1..], n);
    }
  }

  lemma {:induction false} FindOnly(nodes: seq<Node>, chain: seq<nat>, n: Node, i: nat)
    requires i in chain && i < |nodes| && nodes[i] == n && forall j :: 0 <= j < |nodes| && nodes[j] == n ==> j == i
    ensures FindIn(nodes, chain, n) == i
  {
    if chain[0] != i {
      FindOnly(nodes, chain[1..], n, i);
    }
  }

  /** All nodes on one chain. */
  function OneChain(n: Node): nat { 0 }

  /** The table with nodes k to 1 on its only chain. */
  function Down(k: nat): seq<nat> { seq(k, i requires 0 <= i < k => k - i) }

  function Chained(k: nat): seq<seq<nat>> { seq(NBUCKETS, b => if b == 0 then Down(k) else []) }

  const READ := Sym(1, Global, false)
  const WRITTEN := Sym(2, Global, false)

  function AddrOf(s: Sym): Expr { Tree(Addr(s), Nil, Nil) }

  function Loaded(s: Sym): Expr { Tree(Indir, AddrOf(s), Nil) }

  /** y := f(x) */
  function FirstStore(): Assignment { Assignment(AddrOf(WRITTEN), Tree(Un(0), Loaded(READ), Nil)) }

  /** y := x */
  function SecondStore(): Assignment { Assignment(AddrOf(WRITTEN), Loaded(READ)) }

  /** The nodes of both: the null node, the address of y, the address of x, the value of x, and f of it. */
  function StaleNodes(): seq<Node> {
    [Node(Const(0), 0, 0), Node(Addr(WRITTEN), 0, 0), Node(Addr(READ), 0, 0), Node(Indir, 2, 0), Node(Un(0), 3, 0)]
  }

  /** The first k nodes have been listed. */
  ghost predicate Stage(d: Dag, k: nat) {
    k <= 4 && DagOk(d) && d.nodes == StaleNodes()[..k + 1] && d.buckets == Chained(k)
  }

  lemma StageNext(d: Dag, k: nat)
    requires Stage(d, k) && k < 4
    ensures var n := StaleNodes()[k + 1];
      Fitting(d, n) && Stage(Look(OneChain, d, n).0, k + 1) && Look(OneChain, d, n).1 == k + 1
  {
    var n := StaleNodes()[k + 1];
    FindNone(d.nodes, Down(k), n);
    assert [k + 1] + Down(k) == Down(k + 1);
    assert Chained(k)[0 := Down(k + 1)] == Chained(k + 1);
    assert Look(OneChain, d, n).0.nodes == StaleNodes()[..k + 2];
  }

  lemma StageKept(d: Dag, i: nat)
    requires Stage(d, 4) && 0 < i <= 4
    ensures Fitting(d, StaleNodes()[i]) && Look(OneChain, d, StaleNodes()[i]) == (d, i)
  {
    assert Down(4)[4 - i] == i;
    FindOnly(d.nodes, Down(4), StaleNodes()[i], i);
  }

  lemma {:induction false} ListLeaf(d: Dag, s: Sym)
    requires DagOk(d)
    ensures List(OneChain, d, AddrOf(s)) == Look(OneChain, d, Node(Addr(s), 0, 0))
  {
  }

  lemma {:induction false} ListUnary(d: Dag, e: Expr, d1: Dag, l: nat)
    requires DagOk(d) && WellShaped(e) && e.Tree? && e.l.Tree? && e.r.Nil? && List(OneChain, d, e.l) == (d1, l)
    ensures Fitting(d1, Node(e.op, l, 0)) && List(OneChain, d, e) == Look(OneChain, d1, Node(e.op, l, 0))
  {
    ListTree(OneChain, d, e);
  }

  lemma {:induction false} LoadListed(d: Dag)
    requires Stage(d, 1)
    ensures Stage(List(OneChain, d, Loaded(READ)).0, 3) && List(OneChain, d, Loaded(READ)).1 == 3
  {
    StageNext(d, 1);
    ListLeaf(d, READ);
    var (d2, x) := List(OneChain, d, AddrOf(READ));
    StageNext(d2, 2);
    ListUnary(d, Loaded(READ), d2, x);
  }

  lemma {:induction false} CallListed(d: Dag)
    requires Stage(d, 1)
    ensures Stage(List(OneChain, d, FirstStore().rhs).0, 4) && List(OneChain, d, FirstStore().rhs).1 == 4
  {
    LoadListed(d);
    var (d3, l) := List(OneChain, d, Loaded(READ));
    StageNext(d3, 3);
    ListUnary(d, FirstStore().rhs, d3, l);
  }

  lemma {:induction false} AllListed(d: Dag)
    requires Stage(d, 4)
    ensures List(OneChain, d, AddrOf(WRITTEN)) == (d, 1) && List(OneChain, d, Loaded(READ)) == (d, 3)
  {
    ListLeaf(d, WRITTEN);
    StageKept(d, 1);
    ListLeaf(d, READ);
    StageKept(d, 2);
    ListUnary(d, Loaded(READ), d, 2);
    StageKept(d, 3);
  }

  /** A store to y leaves the load of x in the table. */
  lemma StaleKept(d: Dag, a: Assignment)
    requires Stage(d, 4) && a.lhs == AddrOf(WRITTEN)
    ensures Left(d, a) == d.buckets
  {
    SurvivorsAll(d.nodes, WRITTEN, Down(4));
    assert forall b :: 0 <= b < NBUCKETS ==> Killed(d.nodes, WRITTEN, d.buckets)[b] == d.buckets[b];
  }

  lemma {:induction false} SurvivorsAll(nodes: seq<Node>, p: Sym, chain: seq<nat>)
    requires forall k :: 0 <= k < |chain| ==> !Kills(nodes, p, chain[k])
    ensures Survivors(nodes, p, chain) == chain
  {
    if chain != [] {
      SurvivorsAll(nodes, p, chain[1..]);
    }
  }

  lemma FirstListed()
    ensures var (d1, l) := List(OneChain, EmptyDag(), FirstStore().lhs); Stage(d1, 1) && l == 1
  {
    assert EmptyDag().buckets == Chained(0);
    StageNext(EmptyDag(), 0);
    ListLeaf(EmptyDag(), WRITTEN);
  }

  lemma FirstRooted() returns (d: Dag)
    ensures d == Rooted(OneChain, EmptyDag(), FirstStore()).0 && Stage(d, 4) && d.forest == [Root(1, 4)]
  {
    FirstListed();
    CallListed(List(OneChain, EmptyDag(), FirstStore().lhs).0);
    d := Rooted(OneChain, EmptyDag(), FirstStore()).0;
  }

  lemma SecondRooted(d: Dag)
    requires Stage(d, 4) && d.forest == [Root(1, 4)]
    ensures var d' := Rooted(OneChain, d, SecondStore()).0;
      d'.nodes == StaleNodes() && d'.forest == [Root(1, 4), Root(1, 3)]
  {
    AllListed(d);
  }

  lemma FirstAssigned() returns (d: Dag)
    ensures d == Assigned(OneChain, EmptyDag(), FirstStore()) && Stage(d, 4) && d.forest == [Root(1, 4)]
  {
    var d1 := FirstRooted();
    StaleKept(d1, FirstStore());
    d := d1.(buckets := Left(d1, FirstStore()));
  }

  lemma SecondAssigned(d: Dag)
    requires Stage(d, 4) && d.forest == [Root(1, 4)]
    ensures var d' := Assigned(OneChain, d, SecondStore());
      d'.nodes == StaleNodes() && d'.forest == [Root(1, 4), Root(1, 3)]
  {
    SecondRooted(d);
  }

  /** y := f(x); y := x */
  function StaleBlock(): seq<Assignment> { [FirstStore()] + [SecondStore()] }

  lemma DagOne(hash: Node -> nat, a: Assignment)
    requires Shaped(a)
    ensures AllShaped([a]) && DagOf(hash, [a]) == Assigned(hash, EmptyDag(), a)
  {
    DagSnoc(hash, [], a);
    assert [] + [a] == [a];
  }

  lemma DagPair(hash: Node -> nat, a: Assignment, b: Assignment)
    requires Shaped(a) && Shaped(b)
    ensures AllShaped([a] + [b]) && DagOf(hash, [a] + [b]) == Assigned(hash, Assigned(hash, EmptyDag(), a), b)
  {
    DagOne(hash, a);
    DagSnoc(hash, [a], b);
  }

  lemma StaleDag()
    ensures AllShaped(StaleBlock()) && DagOf(OneChain, StaleBlock()).nodes == StaleNodes()
    ensures DagOf(OneChain, StaleBlock()).forest == [Root(1, 4), Root(1, 3)]
  {
    var d := FirstAssigned();
    SecondAssigned(d);
    DagPair(OneChain, FirstStore(), SecondStore());
  }

  /** All variables live at one place, and f adds one. */
  function Overlaid(): Sem { Sem((s: Sym) => 100, (o, x) => x + 1, (o, x, y) => 0) }

  function StaleCache(v: int): map<nat, int> { map[0 := 0, 1 := 100, 2 := 100, 3 := v, 4 := v + 1] }

  lemma {:induction false} FirstRun(m: Memory)
    ensures Acyclic(StaleNodes())
    ensures RunForest(Overlaid(), StaleNodes(), [Root(1, 4)], m)
      == (m[100 := Load(m, 100) + 1], StaleCache(Load(m, 100)))
  {
    var sem, nodes, v := Overlaid(), StaleNodes(), Load(m, 100);
    assert [Root(1, 4)][..0] == [];
    var c1 := map[0 := 0, 1 := 100];
    assert CEval(sem, nodes, 1, m, map[0 := 0]) == c1;
    assert CEval(sem, nodes, 2, m, c1) == c1[2 := 100];
    assert CEval(sem, nodes, 3, m, c1) == c1[2 := 100][3 := v];
    assert CEval(sem, nodes, 4, m, c1) == StaleCache(v);
  }

  /** The second root does not load x again. */
  lemma {:induction false} SecondRun(m: Memory)
    ensures Acyclic(StaleNodes())
    ensures Load(RunForest(Overlaid(), StaleNodes(), [Root(1, 4), Root(1, 3)], m).0, 100) == Load(m, 100)
  {
    FirstRun(m);
    assert [Root(1, 4), Root(1, 3)][..1] == [Root(1, 4)];
  }

  lemma {:induction false} StaleExec(m: Memory)
    ensures Load(ExecAll(Overlaid(), StaleBlock(), m), 100) == Load(m, 100) + 1
  {
    var sem, block := Overlaid(), StaleBlock();
    assert block[..1] == [FirstStore()] && block[..1][..0] == [];
    var m1 := ExecAll(sem, block[..1], m);
    assert Eval(sem, AddrOf(READ), m) == Eval(sem, AddrOf(WRITTEN), m) == 100;
    assert Eval(sem, Loaded(READ), m) == Load(m, 100);
    assert Eval(sem, FirstStore().rhs, m) == Load(m, 100) + 1;
    assert ExecAll(sem, block[..1], m) == Exec(sem, FirstStore(), m) by {
      assert ExecAll(sem, block[..1][..0], m) == m;
    }
    assert Eval(sem, AddrOf(READ), m1) == Eval(sem, AddrOf(WRITTEN), m1) == 100;
    assert Eval(sem, Loaded(READ), m1) == Load(m, 100) + 1;
  }

  /**
   With x and y at one place the forest stores the value that x had before the first store, and the assignments one by
   one store the value it has after.
   */
  lemma StaleLoad(m: Memory)
    ensures AllShaped(StaleBlock())
    ensures var d := DagOf(OneChain, StaleBlock()); !RunsAlike(Overlaid(), d.nodes, d.forest, StaleBlock(), m)
  {
    StaleDag();
    SecondRun(m);
    StaleExec(m);
  }
}
