/**
 Local value numbering: assignment trees are turned into a dag whose nodes are
 shared while their values are known to be current. A store to a named variable
 removes the loads it may change; any other store empties the table.
 */
module Dag {

  // ------------------------------------------------------------ trees and memory

  datatype Scope = Global | Param | Local

  /** A variable; computed ones name a place inside another variable. */
  datatype Sym = Sym(id: nat, scope: Scope, computed: bool)

  datatype Oper = Const(v: int) | Addr(sym: Sym) | Indir | Un(op: int) | Bin(op: int)

  /** An expression tree; an operator has one or two operands, and absent ones are Nil. */
  datatype Expr = Nil | Tree(op: Oper, l: Expr, r: Expr)

  /** Where variables live and what operators compute. */
  datatype Sem = Sem(addr: Sym -> int, un: (int, int) -> int, bin: (int, int, int) -> int)

  type Memory = map<int, int>

  function Load(m: Memory, a: int): int {
    if a in m then m[a] else 0
  }

  function Apply(sem: Sem, op: Oper, x: int, y: int, m: Memory): int {
    match op
    case Const(v) => v
    case Addr(s) => sem.addr(s)
    case Indir => Load(m, x)
    case Un(o) => sem.un(o, x)
    case Bin(o) => sem.bin(o, x, y)
  }

  function Eval(sem: Sem, e: Expr, m: Memory): int {
    match e
    case Nil => 0
    case Tree(op, l, r) => Apply(sem, op, Eval(sem, l, m), Eval(sem, r, m), m)
  }

  datatype Assignment = Assignment(lhs: Expr, rhs: Expr)

  function Exec(sem: Sem, a: Assignment, m: Memory): Memory {
    m[Eval(sem, a.lhs, m) := Eval(sem, a.rhs, m)]
  }

  function ExecAll(sem: Sem, block: seq<Assignment>, m: Memory): Memory {
    if block == [] then m
    else Exec(sem, block[|block| - 1], ExecAll(sem, block[..|block| - 1], m))
  }

  // ----------------------------------------------------------------------- dags

  /** Operands are node numbers; 0 is the null node. */
  datatype Node = Node(op: Oper, l: nat, r: nat)

  ghost predicate Acyclic(nodes: seq<Node>) {
    && |nodes| > 0 && nodes[0] == Node(Const(0), 0, 0)
    && forall i :: 1 <= i < |nodes| ==> nodes[i].l < i && nodes[i].r < i
  }

  datatype Root = Root(l: nat, r: nat)

  ghost predicate RootsOk(nodes: seq<Node>, forest: seq<Root>) {
    forall i :: 0 <= i < |forest| ==> forest[i].l < |nodes| && forest[i].r < |nodes|
  }

  /** Evaluates a node and whatever it needs, each at most once; values computed before are kept in the cache. */
  function CEval(sem: Sem, nodes: seq<Node>, id: nat, m: Memory, cache: map<nat, int>): (c: map<nat, int>)
    requires Acyclic(nodes) && id < |nodes|
    ensures id in c && cache.Keys <= c.Keys
  {
    if id in cache then cache
    else if id == 0 then cache[0 := 0]
    else
      var n := nodes[id];
      var c1 := CEval(sem, nodes, n.l, m, cache);
      var c2 := CEval(sem, nodes, n.r, m, c1);
      c2[id := Apply(sem, n.op, c2[n.l], c2[n.r], m)]
  }

  lemma {:induction false} CEvalKeeps(sem: Sem, nodes: seq<Node>, id: nat, m: Memory, cache: map<nat, int>)
    requires Acyclic(nodes) && id < |nodes|
    ensures forall i :: i in cache ==>
      i in CEval(sem, nodes, id, m, cache) && CEval(sem, nodes, id, m, cache)[i] == cache[i]
  {
    if id !in cache && id != 0 {
      var n := nodes[id];
      CEvalKeeps(sem, nodes, n.l, m, cache);
      CEvalKeeps(sem, nodes, n.r, m, CEval(sem, nodes, n.l, m, cache));
    }
  }

  /** Runs the assignments of a forest in order; a shared node is evaluated where it is first used. */
  function RunForest(sem: Sem, nodes: seq<Node>, forest: seq<Root>, m: Memory): (res: (Memory, map<nat, int>))
    requires Acyclic(nodes) && RootsOk(nodes, forest)
  {
    if forest == [] then (m, map[0 := 0])
    else
      var (m1, c1) := RunForest(sem, nodes, forest[..|forest| - 1], m);
      var root := forest[|forest| - 1];
      var c2 := CEval(sem, nodes, root.l, m1, c1);
      var c3 := CEval(sem, nodes, root.r, m1, c2);
      (m1[c3[root.l] := c3[root.r]], c3)
  }

  lemma {:induction false} CEvalPrefix(sem: Sem, nodes: seq<Node>, more: seq<Node>, id: nat, m: Memory,
                                       cache: map<nat, int>)
    requires Acyclic(nodes) && Acyclic(nodes + more) && id < |nodes|
    ensures CEval(sem, nodes + more, id, m, cache) == CEval(sem, nodes, id, m, cache)
  {
    if id !in cache && id != 0 {
      var n := nodes[id];
      assert (nodes + more)[id] == n;
      CEvalPrefix(sem, nodes, more, n.l, m, cache);
      CEvalPrefix(sem, nodes, more, n.r, m, CEval(sem, nodes, n.l, m, cache));
    }
  }

  lemma {:induction false} RunForestPrefix(sem: Sem, nodes: seq<Node>, more: seq<Node>, forest: seq<Root>, m: Memory)
    requires Acyclic(nodes) && Acyclic(nodes + more) && RootsOk(nodes, forest)
    ensures RunForest(sem, nodes + more, forest, m) == RunForest(sem, nodes, forest, m)
  {
    if forest != [] {
      var root := forest[|forest| - 1];
      RunForestPrefix(sem, nodes, more, forest[..|forest| - 1], m);
      var (m1, c1) := RunForest(sem, nodes, forest[..|forest| - 1], m);
      CEvalPrefix(sem, nodes, more, root.l, m1, c1);
      CEvalPrefix(sem, nodes, more, root.r, m1, CEval(sem, nodes, root.l, m1, c1));
    }
  }

  /** All nodes have been evaluated. */
  function CacheOf(val: seq<int>): map<nat, int> {
    map i: nat | i < |val| :: val[i]
  }

  /** Evaluating node id when the first nodes have the values v gives all nodes the values v'. */
  ghost predicate Completes(sem: Sem, nodes: seq<Node>, id: nat, m: Memory, v: seq<int>, v': seq<int>) {
    Acyclic(nodes) && id < |nodes| && CEval(sem, nodes, id, m, CacheOf(v)) == CacheOf(v')
  }

  /** Constants and addresses are leaves. */
  predicate IsLeaf(op: Oper) {
    op.Const? || op.Addr?
  }

  predicate WellShaped(e: Expr) {
    e.Tree? ==> (IsLeaf(e.op) ==> e.l.Nil? && e.r.Nil?) && WellShaped(e.l) && WellShaped(e.r)
  }

  ghost predicate LeavesBare(nodes: seq<Node>) {
    forall i :: 0 <= i < |nodes| && IsLeaf(nodes[i].op) ==> nodes[i].l == nodes[i].r == 0
  }

  // ------------------------------------------------------- the value-number table

  const NBUCKETS := 16

  ghost predicate BucketsOk(nodes: seq<Node>, buckets: seq<seq<nat>>) {
    && |buckets| == NBUCKETS
    && forall b, k :: 0 <= b < NBUCKETS && 0 <= k < |buckets[b]| ==> 0 < buckets[b][k] < |nodes|
  }

  /** Node values are those of their operators, and loads in the table are current. */
  ghost predicate Consistent(sem: Sem, nodes: seq<Node>, buckets: seq<seq<nat>>, val: seq<int>, m: Memory) {
    && Acyclic(nodes) && BucketsOk(nodes, buckets) && |val| == |nodes| && val[0] == 0
    && (forall i :: 1 <= i < |nodes| && !nodes[i].op.Indir? ==>
          val[i] == Apply(sem, nodes[i].op, val[nodes[i].l], val[nodes[i].r], map[]))
    && forall b, k :: 0 <= b < NBUCKETS && 0 <= k < |buckets[b]| ==> Current(nodes, val, m, buckets[b][k])
  }

  ghost predicate Current(nodes: seq<Node>, val: seq<int>, m: Memory, i: nat)
    requires Acyclic(nodes) && |val| == |nodes|
  {
    1 <= i < |nodes| && (nodes[i].op.Indir? ==> val[i] == Load(m, val[nodes[i].l]))
  }

  /** A load that a store to the named variable p may change. */
  predicate Kills(nodes: seq<Node>, p: Sym, i: nat) {
    && i < |nodes| && nodes[i].op.Indir? && nodes[i].l < |nodes|
    && (!nodes[nodes[i].l].op.Addr? || nodes[nodes[i].l].op.sym == p)
  }

  function Survivors(nodes: seq<Node>, p: Sym, chain: seq<nat>): seq<nat> {
    if chain == [] then []
    else if Kills(nodes, p, chain[0]) then Survivors(nodes, p, chain[1..])
    else [chain[0]] + Survivors(nodes, p, chain[1..])
  }

  lemma {:induction false} SurvivorsAre(nodes: seq<Node>, p: Sym, chain: seq<nat>)
    ensures forall i :: i in Survivors(nodes, p, chain) <==> i in chain && !Kills(nodes, p, i)
  {
    if chain != [] {
      SurvivorsAre(nodes, p, chain[1..]);
      assert chain == [chain[0]] + chain[1..];
    }
  }

  function Killed(nodes: seq<Node>, p: Sym, buckets: seq<seq<nat>>): seq<seq<nat>> {
    seq(|buckets|, b requires 0 <= b < |buckets| => Survivors(nodes, p, buckets[b]))
  }

  /** The table holds a load of the variable q by name. */
  ghost predicate LoadsNamed(nodes: seq<Node>, buckets: seq<seq<nat>>, q: Sym) {
    exists b, k :: 0 <= b < |buckets| && 0 <= k < |buckets[b]| && IsNamedLoad(nodes, buckets[b][k], q)
  }

  predicate IsNamedLoad(nodes: seq<Node>, i: nat, q: Sym) {
    i < |nodes| && nodes[i].op.Indir? && nodes[i].l < |nodes| && nodes[nodes[i].l].op == Addr(q)
  }

  lemma KilledMember(nodes: seq<Node>, p: Sym, buckets: seq<seq<nat>>, b: nat, k: nat)
    requires b < |buckets| && k < |Killed(nodes, p, buckets)[b]|
    ensures var i := Killed(nodes, p, buckets)[b][k]; i in buckets[b] && !Kills(nodes, p, i)
  {
    SurvivorsAre(nodes, p, buckets[b]);
    assert Killed(nodes, p, buckets)[b][k] in Survivors(nodes, p, buckets[b]);
  }

  lemma StoreNamedSound(sem: Sem, nodes: seq<Node>, buckets: seq<seq<nat>>, val: seq<int>, m: Memory, p: Sym, v: int)
    requires Consistent(sem, nodes, buckets, val, m)
    requires forall q :: q != p && LoadsNamed(nodes, buckets, q) ==> sem.addr(q) != sem.addr(p)
    ensures Consistent(sem, nodes, Killed(nodes, p, buckets), val, m[sem.addr(p) := v])
  {
    var buckets' := Killed(nodes, p, buckets);
    forall b, k | 0 <= b < NBUCKETS && 0 <= k < |buckets'[b]|
      ensures 0 < buckets'[b][k] < |nodes| && Current(nodes, val, m[sem.addr(p) := v], buckets'[b][k])
    {
      KilledMember(nodes, p, buckets, b, k);
      var i := buckets'[b][k];
      var k' :| 0 <= k' < |buckets[b]| && buckets[b][k'] == i;
      assert Current(nodes, val, m, i);
      if nodes[i].op.Indir? {
        var q := nodes[nodes[i].l].op.sym;
        assert IsNamedLoad(nodes, buckets[b][k'], q);
      }
    }
  }

  /** The table is still right after v is stored to p by name. */
  ghost predicate ConsistentAfter(sem: Sem, nodes: seq<Node>, buckets: seq<seq<nat>>, val: seq<int>, m: Memory, p: Sym,
                                  v: int) {
    Consistent(sem, nodes, Killed(nodes, p, buckets), val, m[sem.addr(p) := v])
  }

  /**
   Keeping the loads of other names is right for every stored value exactly when none of them names the same place.
   */
  lemma StoreNamedExact(sem: Sem, nodes: seq<Node>, buckets: seq<seq<nat>>, val: seq<int>, m: Memory, p: Sym)
    requires Consistent(sem, nodes, buckets, val, m)
    ensures (forall v :: ConsistentAfter(sem, nodes, buckets, val, m, p, v))
      <==> (forall q :: q != p && LoadsNamed(nodes, buckets, q) ==> sem.addr(q) != sem.addr(p))
  {
    if forall q :: q != p && LoadsNamed(nodes, buckets, q) ==> sem.addr(q) != sem.addr(p) {
      forall v ensures ConsistentAfter(sem, nodes, buckets, val, m, p, v) {
        StoreNamedSound(sem, nodes, buckets, val, m, p, v);
      }
    } else {
      var q :| q != p && LoadsNamed(nodes, buckets, q) && sem.addr(q) == sem.addr(p);
      var b, k :| 0 <= b < |buckets| && 0 <= k < |buckets[b]| && IsNamedLoad(nodes, buckets[b][k], q);
      var i, v := buckets[b][k], val[buckets[b][k]] + 1;
      SurvivorsAre(nodes, p, buckets[b]);
      var buckets' := Killed(nodes, p, buckets);
      assert i in buckets'[b];
      var k' :| 0 <= k' < |buckets'[b]| && buckets'[b][k'] == i;
      assert !Current(nodes, val, m[sem.addr(p) := v], buckets'[b][k']);
      assert !ConsistentAfter(sem, nodes, buckets, val, m, p, v);
    }
  }

  // --------------------------------------------------------------- reference counts

  function Refs(n: Node, p: nat): nat {
    (if n.l == p then 1 else 0) + if n.r == p then 1 else 0
  }

  /** References to p from the first n nodes that are not in `done`. */
  function NodeRefs(nodes: seq<Node>, n: nat, done: set<nat>, p: nat): nat
    requires n <= |nodes|
  {
    if n == 0 then 0
    else NodeRefs(nodes, n - 1, done, p) + if n - 1 in done then 0 else Refs(nodes[n - 1], p)
  }

  function RootRefs(forest: seq<Root>, p: nat): nat {
    if forest == [] then 0
    else RootRefs(forest[1..], p) + (if forest[0].l == p then 1 else 0) + (if forest[0].r == p then 1 else 0)
  }

  /** Reference counts are exact (the null node is not counted). */
  ghost predicate CountsOk(nodes: seq<Node>, forest: seq<Root>, count: seq<nat>) {
    && |count| == |nodes|
    && forall p :: 1 <= p < |nodes| ==> count[p] == NodeRefs(nodes, |nodes|, {}, p) + RootRefs(forest, p)
  }

  lemma {:induction false} NodeRefsPrefix(nodes: seq<Node>, more: seq<Node>, n: nat, done: set<nat>, p: nat)
    requires n <= |nodes|
    ensures NodeRefs(nodes + more, n, done, p) == NodeRefs(nodes, n, done, p)
  {
    if n > 0 {
      NodeRefsPrefix(nodes, more, n - 1, done, p);
    }
  }

  lemma {:induction false} NodeRefsNone(nodes: seq<Node>, n: nat, done: set<nat>, p: nat)
    requires n <= |nodes| && Acyclic(nodes) && p >= 1 && p >= n - 1
    ensures NodeRefs(nodes, n, done, p) == 0
  {
    if n > 0 {
      NodeRefsNone(nodes, n - 1, done, p);
    }
  }

  lemma {:induction false} RootRefsAppend(forest: seq<Root>, root: Root, p: nat)
    ensures RootRefs(forest + [root], p) ==
            RootRefs(forest, p) + (if root.l == p then 1 else 0) + if root.r == p then 1 else 0
  {
    if forest != [] {
      assert (forest + [root])[1..] == forest[1..] + [root];
      RootRefsAppend(forest[1..], root, p);
    }
  }

  lemma {:induction false} RootRefsNone(nodes: seq<Node>, forest: seq<Root>, p: nat)
    requires RootsOk(nodes, forest) && p >= |nodes|
    ensures RootRefs(forest, p) == 0
  {
    if forest != [] {
      RootRefsNone(nodes, forest[1..], p);
    }
  }

  /** Counts after a reference from l and r, the null node excepted. */
  function Bump(count: seq<nat>, l: nat, r: nat): (c: seq<nat>)
    requires l < |count| && r < |count|
    ensures |c| == |count|
    ensures forall p :: 1 <= p < |count| ==>
      c[p] == count[p] + (if l == p then 1 else 0) + if r == p then 1 else 0
  {
    var c1 := if l == 0 then count else count[l := count[l] + 1];
    if r == 0 then c1 else c1[r := c1[r] + 1]
  }

  lemma CountsAddNode(nodes: seq<Node>, forest: seq<Root>, count: seq<nat>, n: Node)
    requires Acyclic(nodes) && RootsOk(nodes, forest) && CountsOk(nodes, forest, count)
    requires n.l < |nodes| && n.r < |nodes|
    ensures CountsOk(nodes + [n], forest, Bump(count, n.l, n.r) + [0])
  {
    var nodes', count' := nodes + [n], Bump(count, n.l, n.r) + [0];
    forall p | 1 <= p < |nodes'|
      ensures count'[p] == NodeRefs(nodes', |nodes'|, {}, p) + RootRefs(forest, p)
    {
      NodeRefsPrefix(nodes, [n], |nodes|, {}, p);
      if p == |nodes| {
        NodeRefsNone(nodes, |nodes|, {}, p);
        RootRefsNone(nodes, forest, p);
      }
    }
  }

  lemma CountsAddRoot(nodes: seq<Node>, forest: seq<Root>, count: seq<nat>, root: Root)
    requires CountsOk(nodes, forest, count) && root.l < |nodes| && root.r < |nodes|
    ensures CountsOk(nodes, forest + [root], Bump(count, root.l, root.r))
  {
    forall p | 1 <= p < |nodes| ensures Bump(count, root.l, root.r)[p]
      == NodeRefs(nodes, |nodes|, {}, p) + RootRefs(forest + [root], p)
    {
      RootRefsAppend(forest, root, p);
    }
  }

  // ---------------------------------------------------------------------- builder

  /** Variables that e reads by name. */
  ghost function Named(e: Expr): set<Sym> {
    match e
    case Nil => {}
    case Tree(op, l, r) => Named(l) + Named(r) + (if op.Indir? && l.Tree? && l.op.Addr? then {l.op.sym} else {})
  }

  /** The assignment refers by name only to variables in `named`. */
  ghost predicate Admits(a: Assignment, named: set<Sym>) {
    && WellShaped(a.lhs) && WellShaped(a.rhs) && Named(a.lhs) + Named(a.rhs) <= named
    && (a.lhs.Tree? && a.lhs.op.Addr? ==> a.lhs.op.sym in named)
  }

  /** Loads by name in the table are of variables in `named`. */
  ghost predicate NamesOk(nodes: seq<Node>, named: set<Sym>) {
    forall i, q :: 0 <= i < |nodes| && IsNamedLoad(nodes, i, q) ==> q in named
  }

  /** No variable in `named` shares its place with an ordinary one in `named`. */
  ghost predicate Separate(sem: Sem, named: set<Sym>) {
    forall p, q :: p in named && q in named && p != q && !p.computed ==> sem.addr(p) != sem.addr(q)
  }

  lemma AddNodeConsistent(sem: Sem, nodes: seq<Node>, buckets: seq<seq<nat>>, val: seq<int>, m: Memory, n: Node, b: nat)
    requires Consistent(sem, nodes, buckets, val, m) && n.l < |nodes| && n.r < |nodes| && b < NBUCKETS
    ensures Consistent(sem, nodes + [n], buckets[b := [|nodes|] + buckets[b]],
                       val + [Apply(sem, n.op, val[n.l], val[n.r], m)], m)
  {
    var nodes', buckets' := nodes + [n], buckets[b := [|nodes|] + buckets[b]];
    var val' := val + [Apply(sem, n.op, val[n.l], val[n.r], m)];
    forall c, k | 0 <= c < NBUCKETS && 0 <= k < |buckets'[c]|
      ensures 0 < buckets'[c][k] < |nodes'| && Current(nodes', val', m, buckets'[c][k])
    {
      var i := buckets'[c][k];
      if i < |nodes| {
        assert i in buckets[c];
        assert Current(nodes, val, m, i);
      }
    }
  }

  /** Evaluating the new node when everything else has been evaluated, or just its operands. */
  lemma {:induction false} CEvalNew(sem: Sem, nodes: seq<Node>, n: Node, m: Memory, cache: map<nat, int>, v1: seq<int>,
                                    v2: seq<int>)
    requires Acyclic(nodes) && n.l < |nodes| && n.r < |nodes| && |v2| == |nodes| && |nodes| !in cache
    requires CEval(sem, nodes, n.l, m, cache) == CacheOf(v1) && CEval(sem, nodes, n.r, m, CacheOf(v1)) == CacheOf(v2)
    ensures CEval(sem, nodes + [n], |nodes|, m, cache) == CacheOf(v2 + [Apply(sem, n.op, v2[n.l], v2[n.r], m)])
  {
    var nodes' := nodes + [n];
    assert nodes'[|nodes|] == n;
    CEvalPrefix(sem, nodes, [n], n.l, m, cache);
    CEvalPrefix(sem, nodes, [n], n.r, m, CacheOf(v1));
    var v3 := v2 + [Apply(sem, n.op, v2[n.l], v2[n.r], m)];
    assert CacheOf(v3) == CacheOf(v2)[|nodes| := v3[|nodes|]];
  }

  lemma NamesAddNode(nodes: seq<Node>, named: set<Sym>, n: Node)
    requires Acyclic(nodes) && NamesOk(nodes, named) && n.l < |nodes| && n.r < |nodes|
    requires n.op.Indir? && nodes[n.l].op.Addr? ==> nodes[n.l].op.sym in named
    ensures NamesOk(nodes + [n], named)
  {
    forall i, q | 0 <= i < |nodes + [n]| && IsNamedLoad(nodes + [n], i, q) ensures q in named {
      if i < |nodes| {
        assert IsNamedLoad(nodes, i, q);
      }
    }
  }

  /** A node looked up right after its operands were listed: either nothing was new, or it is the last new one. */
  lemma ListedNode(sem: Sem, nodes0: seq<Node>, nodes1: seq<Node>, nodes2: seq<Node>, nodes: seq<Node>, n: Node,
                   id: nat, m: Memory, v0: seq<int>, v1: seq<int>, v2: seq<int>, val: seq<int>)
    requires Acyclic(nodes0) && Acyclic(nodes1) && Acyclic(nodes2) && Acyclic(nodes)
    requires nodes0 <= nodes1 <= nodes2 && |v0| == |nodes0| && |v1| == |nodes1| && |v2| == |nodes2|
    requires v0 <= v1 <= v2
    requires n.l < |nodes1| && n.r < |nodes2| && 0 < id < |nodes| && nodes[id] == n
    requires nodes1 == nodes0 || n.l == |nodes1| - 1
    requires nodes2 == nodes1 || n.r == |nodes2| - 1
    requires Completes(sem, nodes1, n.l, m, v0, v1) && Completes(sem, nodes2, n.r, m, v1, v2)
    requires (nodes == nodes2 && val == v2)
      || (id == |nodes2| && nodes == nodes2 + [n] && val == v2 + [Apply(sem, n.op, v2[n.l], v2[n.r], m)])
    ensures nodes == nodes0 || (id == |nodes| - 1 && |nodes| > |nodes0|)
    ensures Completes(sem, nodes, id, m, v0, val)
  {
    if id == |nodes2| {
      assert nodes2 == nodes1 + nodes2[|nodes1|..];
      CEvalPrefix(sem, nodes1, nodes2[|nodes1|..], n.l, m, CacheOf(v0));
      CEvalNew(sem, nodes2, n, m, CacheOf(v0), v1, v2);
    } else {
      assert n.l < id && n.r < id;
      assert v0 == v2;
    }
  }

  // ------------------------------------------------------ the dag as a function of the block

  /** Everything that is built: the nodes with their counts, the table, and the forest. */
  datatype Dag = Dag(nodes: seq<Node>, count: seq<nat>, buckets: seq<seq<nat>>, forest: seq<Root>)

  ghost predicate DagOk(d: Dag) {
    && Acyclic(d.nodes) && LeavesBare(d.nodes) && BucketsOk(d.nodes, d.buckets)
    && RootsOk(d.nodes, d.forest) && CountsOk(d.nodes, d.forest, d.count)
  }

  /** The first node on the chain with this operator and operands, or 0. */
  function FindIn(nodes: seq<Node>, chain: seq<nat>, n: Node): nat {
    if chain == [] then 0
    else if chain[0] < |nodes| && nodes[chain[0]] == n then chain[0]
    else FindIn(nodes, chain[1..], n)
  }

  lemma {:induction false} FoundIn(nodes: seq<Node>, chain: seq<nat>, n: Node)
    ensures var i := FindIn(nodes, chain, n); i != 0 ==> i in chain && i < |nodes| && nodes[i] == n
  {
    if chain != [] && !(chain[0] < |nodes| && nodes[chain[0]] == n) {
      FoundIn(nodes, chain[1..], n);
    }
  }

  /** The dag with one more node, at the front of chain b. */
  function WithNode(d: Dag, n: Node, b: nat): Dag
    requires n.l < |d.count| && n.r < |d.count| && b < |d.buckets|
  {
    Dag(d.nodes + [n], Bump(d.count, n.l, n.r) + [0], d.buckets[b := [|d.nodes|] + d.buckets[b]], d.forest)
  }

  /** n can be made a node of d. */
  predicate Fitting(d: Dag, n: Node) {
    n.l < |d.nodes| && n.r < |d.nodes| && (IsLeaf(n.op) ==> n.l == n.r == 0)
  }

  lemma WithNodeOk(d: Dag, n: Node, b: nat)
    requires DagOk(d) && Fitting(d, n) && b < NBUCKETS
    ensures DagOk(WithNode(d, n, b))
  {
    CountsAddNode(d.nodes, d.forest, d.count, n);
  }

  /** The node with this operator and operands: one from the table, or a new one. */
  ghost function Look(hash: Node -> nat, d: Dag, n: Node): (res: (Dag, nat))
    requires DagOk(d) && Fitting(d, n)
    ensures DagOk(res.0) && 0 < res.1 < |res.0.nodes| && res.0.nodes[res.1] == n && res.0.forest == d.forest
    ensures res.0 == d || (res.1 == |d.nodes| && res.0 == WithNode(d, n, hash(n) % NBUCKETS))
  {
    var b := hash(n) % NBUCKETS;
    var i := FindIn(d.nodes, d.buckets[b], n);
    FoundIn(d.nodes, d.buckets[b], n);
    WithNodeOk(d, n, b);
    if i != 0 then (d, i) else (WithNode(d, n, b), |d.nodes|)
  }

  /** The node of an expression. */
  ghost function List(hash: Node -> nat, d: Dag, e: Expr): (res: (Dag, nat))
    requires DagOk(d) && WellShaped(e)
    ensures DagOk(res.0) && res.1 < |res.0.nodes| && d.nodes <= res.0.nodes && res.0.forest == d.forest
    ensures if e.Nil? then res == (d, 0) else res.1 > 0 && res.0.nodes[res.1].op == e.op
    decreases e
  {
    match e
    case Nil => (d, 0)
    case Tree(op, el, er) =>
      var (d1, l) := List(hash, d, el);
      var (d2, r) := List(hash, d1, er);
      Look(hash, d2, Node(op, l, r))
  }

  ghost predicate Shaped(a: Assignment) { WellShaped(a.lhs) && WellShaped(a.rhs) }

  /** An assignment joins the forest. */
  ghost function Rooted(hash: Node -> nat, d: Dag, a: Assignment): (res: (Dag, Root))
    requires DagOk(d) && Shaped(a)
    ensures DagOk(res.0) && res.0.forest == d.forest + [res.1]
  {
    var (d1, l) := List(hash, d, a.lhs);
    var (d2, r) := List(hash, d1, a.rhs);
    var root := Root(l, r);
    CountsAddRoot(d2.nodes, d2.forest, d2.count, root);
    (d2.(forest := d2.forest + [root], count := Bump(d2.count, l, r)), root)
  }

  predicate ByName(a: Assignment) { a.lhs.Tree? && a.lhs.op.Addr? && !a.lhs.op.sym.computed }

  function NoBuckets(): seq<seq<nat>> { seq(NBUCKETS, _ => []) }

  /** What is left of the table after the store of an assignment. */
  function Left(d: Dag, a: Assignment): seq<seq<nat>> {
    if ByName(a) then Killed(d.nodes, a.lhs.op.sym, d.buckets) else NoBuckets()
  }

  lemma LeftOk(d: Dag, a: Assignment)
    requires DagOk(d)
    ensures DagOk(d.(buckets := Left(d, a)))
  {
    var buckets := Left(d, a);
    forall b, k | 0 <= b < NBUCKETS && 0 <= k < |buckets[b]| ensures 0 < buckets[b][k] < |d.nodes| {
      if ByName(a) {
        KilledMember(d.nodes, a.lhs.op.sym, d.buckets, b, k);
      }
    }
  }

  /** An assignment and what it does to the table. */
  ghost function Assigned(hash: Node -> nat, d: Dag, a: Assignment): (d': Dag)
    requires DagOk(d) && Shaped(a)
    ensures DagOk(d')
  {
    var d1 := Rooted(hash, d, a).0;
    LeftOk(d1, a);
    d1.(buckets := Left(d1, a))
  }

  function EmptyDag(): Dag { Dag([Node(Const(0), 0, 0)], [0], NoBuckets(), []) }

  ghost predicate AllShaped(block: seq<Assignment>) { forall i :: 0 <= i < |block| ==> Shaped(block[i]) }

  /** The dag of a block. */
  ghost function DagOf(hash: Node -> nat, block: seq<Assignment>): (d: Dag)
    requires AllShaped(block)
    ensures DagOk(d)
  {
    if block == [] then EmptyDag()
    else Assigned(hash, DagOf(hash, block[..|block| - 1]), block[|block| - 1])
  }

  /** One more assignment. */
  lemma {:induction false} DagSnoc(hash: Node -> nat, block: seq<Assignment>, a: Assignment)
    requires AllShaped(block) && Shaped(a)
    ensures AllShaped(block + [a]) && DagOf(hash, block + [a]) == Assigned(hash, DagOf(hash, block), a)
  {
    assert (block + [a])[..|block|] == block;
  }

  // ---------------------------------------------------------------- what it computes

  /** The nodes have the values val when memory is m; loads by name are of variables in `named`. */
  ghost predicate Valued(sem: Sem, named: set<Sym>, d: Dag, val: seq<int>, m: Memory) {
    DagOk(d) && Consistent(sem, d.nodes, d.buckets, val, m) && NamesOk(d.nodes, named)
  }

  lemma LookValued(sem: Sem, named: set<Sym>, hash: Node -> nat, d: Dag, n: Node, val: seq<int>, m: Memory)
    returns (val': seq<int>)
    requires Valued(sem, named, d, val, m) && Fitting(d, n)
    requires n.op.Indir? && d.nodes[n.l].op.Addr? ==> d.nodes[n.l].op.sym in named
    ensures var (d', id) := Look(hash, d, n);
      && Valued(sem, named, d', val', m) && val'[id] == Apply(sem, n.op, val'[n.l], val'[n.r], m)
      && ((d' == d && val' == val)
          || (id == |d.nodes| && d'.nodes == d.nodes + [n] && val' == val + [Apply(sem, n.op, val[n.l], val[n.r], m)]))
  {
    var b := hash(n) % NBUCKETS;
    var i := FindIn(d.nodes, d.buckets[b], n);
    if i != 0 {
      FoundIn(d.nodes, d.buckets[b], n);
      var k :| 0 <= k < |d.buckets[b]| && d.buckets[b][k] == i;
      assert Current(d.nodes, val, m, d.buckets[b][k]);
      val' := val;
    } else {
      AddNodeConsistent(sem, d.nodes, d.buckets, val, m, n, b);
      NamesAddNode(d.nodes, named, n);
      val' := val + [Apply(sem, n.op, val[n.l], val[n.r], m)];
    }
  }

  /** Node p is a load of a variable by name. */
  predicate LoadsVar(nodes: seq<Node>, p: nat) {
    p < |nodes| && nodes[p].op.Indir? && nodes[p].l < |nodes| && nodes[nodes[p].l].op.Addr?
  }

  function VarOf(nodes: seq<Node>, p: nat): Sym
    requires LoadsVar(nodes, p)
  {
    nodes[nodes[p].l].op.sym
  }

  /** Such a node has the value of the variable now. */
  ghost predicate LoadNow(sem: Sem, nodes: seq<Node>, val: seq<int>, m: Memory, p: nat) {
    |val| == |nodes| && LoadsVar(nodes, p) ==> val[p] == Load(m, sem.addr(VarOf(nodes, p)))
  }

  /** Node i has the value of its operator now, and the loads by name among its operands are current. */
  ghost predicate NodeNow(sem: Sem, nodes: seq<Node>, val: seq<int>, m: Memory, i: nat) {
    && i < |nodes| == |val| && nodes[i].l < |nodes| && nodes[i].r < |nodes|
    && val[i] == Apply(sem, nodes[i].op, val[nodes[i].l], val[nodes[i].r], m)
    && LoadNow(sem, nodes, val, m, nodes[i].l) && LoadNow(sem, nodes, val, m, nodes[i].r)
  }

  ghost predicate NewNow(sem: Sem, nodes: seq<Node>, val: seq<int>, m: Memory, lo: nat) {
    forall i: nat :: lo <= i < |nodes| ==> NodeNow(sem, nodes, val, m, i)
  }

  lemma LoadNowMore(sem: Sem, nodes: seq<Node>, val: seq<int>, nodes': seq<Node>, val': seq<int>, m: Memory, p: nat)
    requires Acyclic(nodes) && nodes <= nodes' && val <= val' && |val| == |nodes| && |val'| == |nodes'| && p < |nodes|
    ensures LoadNow(sem, nodes', val', m, p) <==> LoadNow(sem, nodes, val, m, p)
  {
    assert nodes'[p] == nodes[p] && val'[p] == val[p];
    assert p > 0 ==> nodes'[nodes[p].l] == nodes[nodes[p].l];
  }

  lemma NodeNowMore(sem: Sem, nodes: seq<Node>, val: seq<int>, nodes': seq<Node>, val': seq<int>, m: Memory, i: nat)
    requires Acyclic(nodes) && nodes <= nodes' && val <= val' && |val| == |nodes| && |val'| == |nodes'|
    requires NodeNow(sem, nodes, val, m, i)
    ensures NodeNow(sem, nodes', val', m, i)
  {
    assert nodes'[i] == nodes[i] && val'[i] == val[i];
    assert val'[nodes[i].l] == val[nodes[i].l] && val'[nodes[i].r] == val[nodes[i].r];
    LoadNowMore(sem, nodes, val, nodes', val', m, nodes[i].l);
    LoadNowMore(sem, nodes, val, nodes', val', m, nodes[i].r);
  }

  /** Nodes that were new before are still as they should be. */
  lemma NewNowMore(sem: Sem, nodes: seq<Node>, val: seq<int>, nodes': seq<Node>, val': seq<int>, m: Memory, lo: nat)
    requires Acyclic(nodes) && nodes <= nodes' && val <= val' && |val| == |nodes| && |val'| == |nodes'|
    requires NewNow(sem, nodes, val, m, lo) && NewNow(sem, nodes', val', m, |nodes|)
    ensures NewNow(sem, nodes', val', m, lo)
  {
    forall i: nat | lo <= i < |nodes'| ensures NodeNow(sem, nodes', val', m, i) {
      if i < |nodes| {
        NodeNowMore(sem, nodes, val, nodes', val', m, i);
      }
    }
  }

  /** A node that was looked up and has its value now is a current load, if it is a load by name. */
  lemma FoundNow(sem: Sem, nodes: seq<Node>, buckets: seq<seq<nat>>, val: seq<int>, m: Memory, id: nat)
    requires Consistent(sem, nodes, buckets, val, m) && 0 < id < |nodes|
    requires val[id] == Apply(sem, nodes[id].op, val[nodes[id].l], val[nodes[id].r], m)
    ensures LoadNow(sem, nodes, val, m, id)
  {
    var a := nodes[id].l;
    if nodes[id].op.Indir? && nodes[a].op.Addr? {
      assert a > 0 && val[a] == Apply(sem, nodes[a].op, val[nodes[a].l], val[nodes[a].r], map[]);
    }
  }

  /** What listing an expression promises: its value, and that evaluating it evaluates exactly the new nodes. */
  ghost predicate Lists(sem: Sem, d: Dag, d': Dag, id: nat, val: seq<int>, val': seq<int>, m: Memory) {
    && |val'| == |d'.nodes| && |val| == |d.nodes| && d.nodes <= d'.nodes && val <= val'
    && (d'.nodes == d.nodes || (id == |d'.nodes| - 1 && |d'.nodes| > |d.nodes|))
    && Completes(sem, d'.nodes, id, m, val, val')
  }

  /** After both operands were listed. */
  lemma TreeValued(sem: Sem, named: set<Sym>, hash: Node -> nat, d: Dag, d1: Dag, d2: Dag, n: Node, val: seq<int>,
                   v1: seq<int>, v2: seq<int>, m: Memory) returns (val': seq<int>)
    requires DagOk(d) && DagOk(d1) && Valued(sem, named, d2, v2, m) && n.l < |d1.nodes| && Fitting(d2, n)
    requires Lists(sem, d, d1, n.l, val, v1, m) && Lists(sem, d1, d2, n.r, v1, v2, m)
    requires n.op.Indir? && d2.nodes[n.l].op.Addr? ==> d2.nodes[n.l].op.sym in named
    ensures var (d', id) := Look(hash, d2, n);
      && Valued(sem, named, d', val', m) && Lists(sem, d, d', id, val, val', m)
      && v2 <= val' && val'[id] == Apply(sem, n.op, v2[n.l], v2[n.r], m)
      && (d'.nodes == d2.nodes || (id == |d2.nodes| && d'.nodes == d2.nodes + [n]))
  {
    val' := LookValued(sem, named, hash, d2, n, v2, m);
    var (d', id) := Look(hash, d2, n);
    ListedNode(sem, d.nodes, d1.nodes, d2.nodes, d'.nodes, n, id, m, val, v1, v2, val');
  }

  /** Listing e took d to d', and gave the node id. */
  ghost predicate ListedAs(sem: Sem, named: set<Sym>, d: Dag, d': Dag, id: nat, e: Expr, val: seq<int>, val': seq<int>,
                           m: Memory) {
    && Valued(sem, named, d', val', m) && id < |d'.nodes| && Lists(sem, d, d', id, val, val', m)
    && val'[id] == Eval(sem, e, m)
    && NewNow(sem, d'.nodes, val', m, |d.nodes|) && LoadNow(sem, d'.nodes, val', m, id)
  }

  lemma NilListed(sem: Sem, named: set<Sym>, d: Dag, val: seq<int>, m: Memory)
    requires Valued(sem, named, d, val, m)
    ensures ListedAs(sem, named, d, d, 0, Nil, val, val, m)
  {
  }

  lemma TreeListed(sem: Sem, named: set<Sym>, hash: Node -> nat, d: Dag, d1: Dag, d2: Dag, l: nat, r: nat, e: Expr,
                   val: seq<int>, v1: seq<int>, v2: seq<int>, m: Memory) returns (val': seq<int>)
    requires DagOk(d) && e.Tree? && ListedAs(sem, named, d, d1, l, e.l, val, v1, m)
    requires ListedAs(sem, named, d1, d2, r, e.r, v1, v2, m) && Fitting(d2, Node(e.op, l, r))
    requires e.op.Indir? && d1.nodes[l].op.Addr? ==> d1.nodes[l].op.sym in named
    ensures var (d', id) := Look(hash, d2, Node(e.op, l, r)); ListedAs(sem, named, d, d', id, e, val, val', m)
  {
    assert d2.nodes[l] == d1.nodes[l] && v2[l] == v1[l];
    val' := TreeValued(sem, named, hash, d, d1, d2, Node(e.op, l, r), val, v1, v2, m);
    var (d', id) := Look(hash, d2, Node(e.op, l, r));
    NewNowMore(sem, d1.nodes, v1, d2.nodes, v2, m, |d.nodes|);
    LoadNowMore(sem, d1.nodes, v1, d2.nodes, v2, m, l);
    TreeNow(sem, d2.nodes, v2, d'.nodes, d'.buckets, val', m, id, |d.nodes|);
  }

  /** The node made or found for a tree whose operands are current. */
  lemma TreeNow(sem: Sem, nodes: seq<Node>, val: seq<int>, nodes': seq<Node>, buckets: seq<seq<nat>>, val': seq<int>,
                m: Memory, id: nat, lo: nat)
    requires Acyclic(nodes) && nodes <= nodes' && val <= val' && |val| == |nodes| && 0 < id < |nodes'|
    requires Consistent(sem, nodes', buckets, val', m) && NewNow(sem, nodes, val, m, lo)
    requires nodes'[id].l < |nodes| && nodes'[id].r < |nodes| && (nodes' == nodes || |nodes'| == id + 1 == |nodes| + 1)
    requires val'[id] == Apply(sem, nodes'[id].op, val[nodes'[id].l], val[nodes'[id].r], m)
    requires LoadNow(sem, nodes, val, m, nodes'[id].l) && LoadNow(sem, nodes, val, m, nodes'[id].r)
    ensures NewNow(sem, nodes', val', m, lo) && LoadNow(sem, nodes', val', m, id)
  {
    FoundNow(sem, nodes', buckets, val', m, id);
    LoadNowMore(sem, nodes, val, nodes', val', m, nodes'[id].l);
    LoadNowMore(sem, nodes, val, nodes', val', m, nodes'[id].r);
    assert NodeNow(sem, nodes', val', m, id);
    NewNowMore(sem, nodes, val, nodes', val', m, lo);
  }

  /** Listing a tree: its operands in order, then the node itself. */
  lemma {:induction false} ListTree(hash: Node -> nat, d: Dag, e: Expr)
    requires DagOk(d) && WellShaped(e) && e.Tree?
    ensures var (d1, l) := List(hash, d, e.l);
      var (d2, r) := List(hash, d1, e.r);
      && Fitting(d2, Node(e.op, l, r)) && List(hash, d, e) == Look(hash, d2, Node(e.op, l, r))
      && (e.op.Indir? && d1.nodes[l].op.Addr? ==> e.l.Tree? && d1.nodes[l].op == e.l.op)
  {
  }

  lemma {:induction false} ListValued(sem: Sem, named: set<Sym>, hash: Node -> nat, d: Dag, e: Expr, val: seq<int>,
                                      m: Memory) returns (val': seq<int>)
    requires Valued(sem, named, d, val, m) && Named(e) <= named && WellShaped(e)
    ensures var (d', id) := List(hash, d, e); ListedAs(sem, named, d, d', id, e, val, val', m)
    decreases e
  {
    match e
    case Nil =>
      NilListed(sem, named, d, val, m);
      val' := val;
    case Tree(op, el, er) =>
      var (d1, l) := List(hash, d, el);
      var v1 := ListValued(sem, named, hash, d, el, val, m);
      var (d2, r) := List(hash, d1, er);
      var v2 := ListValued(sem, named, hash, d1, er, v1, m);
      ListTree(hash, d, e);
      val' := TreeListed(sem, named, hash, d, d1, d2, l, r, e, val, v1, v2, m);
  }

  /** Running the forest with one more root. */
  lemma {:induction false} RootRun(sem: Sem, nodes0: seq<Node>, nodes1: seq<Node>, nodes: seq<Node>, forest: seq<Root>,
                                   l: nat, r: nat, m0: Memory, m: Memory, v0: seq<int>, v1: seq<int>, v2: seq<int>)
    requires Acyclic(nodes0) && Acyclic(nodes1) && Acyclic(nodes) && nodes0 <= nodes1 <= nodes
    requires RootsOk(nodes0, forest) && l < |nodes1| && r < |nodes| && |v2| == |nodes|
    requires RunForest(sem, nodes0, forest, m0) == (m, CacheOf(v0))
    requires Completes(sem, nodes1, l, m, v0, v1) && Completes(sem, nodes, r, m, v1, v2)
    ensures RunForest(sem, nodes, forest + [Root(l, r)], m0) == (m[v2[l] := v2[r]], CacheOf(v2))
  {
    assert nodes == nodes0 + nodes[|nodes0|..] && nodes == nodes1 + nodes[|nodes1|..];
    RunForestPrefix(sem, nodes0, nodes[|nodes0|..], forest, m0);
    CEvalPrefix(sem, nodes1, nodes[|nodes1|..], l, m, CacheOf(v0));
    assert (forest + [Root(l, r)])[..|forest|] == forest;
  }

  /**
   When root k is taken up in memory m, the nodes it needs and that were not evaluated before get their values there,
     and
   all the loads by name that they and the root use are current.
   */
  ghost predicate PhaseAt(sem: Sem, nodes: seq<Node>, forest: seq<Root>, m0: Memory, val: seq<int>, k: nat)
    requires Acyclic(nodes) && RootsOk(nodes, forest) && k < |forest|
  {
    var (m, c) := RunForest(sem, nodes, forest[..k], m0);
    var root := forest[k];
    && (forall i :: i in c ==> i < |val| && c[i] == val[i])
    && (forall i: nat :: (i <= root.l || i <= root.r) && i !in c ==> NodeNow(sem, nodes, val, m, i))
    && LoadNow(sem, nodes, val, m, root.l) && LoadNow(sem, nodes, val, m, root.r)
  }

  ghost predicate Phased(sem: Sem, nodes: seq<Node>, forest: seq<Root>, m0: Memory, val: seq<int>) {
    && Acyclic(nodes) && RootsOk(nodes, forest) && |val| == |nodes|
    && forall k: nat :: k < |forest| ==> PhaseAt(sem, nodes, forest, m0, val, k)
  }

  /** More nodes and roots leave the earlier phases alone. */
  lemma {:induction false} PhaseKept(sem: Sem, nodes: seq<Node>, forest: seq<Root>, m0: Memory, val: seq<int>,
                                     nodes': seq<Node>, root: Root, val': seq<int>, k: nat)
    requires Acyclic(nodes) && Acyclic(nodes') && RootsOk(nodes, forest) && RootsOk(nodes', forest + [root])
    requires nodes <= nodes' && val <= val' && |val| == |nodes| && |val'| == |nodes'|
    requires k < |forest| && PhaseAt(sem, nodes, forest, m0, val, k)
    ensures PhaseAt(sem, nodes', forest + [root], m0, val', k)
  {
    var (m, c) := RunForest(sem, nodes, forest[..k], m0);
    assert (forest + [root])[..k] == forest[..k] && nodes' == nodes + nodes'[|nodes|..];
    RunForestPrefix(sem, nodes, nodes'[|nodes|..], forest[..k], m0);
    forall i: nat | (i <= forest[k].l || i <= forest[k].r) && i !in c ensures NodeNow(sem, nodes', val', m, i) {
      NodeNowMore(sem, nodes, val, nodes', val', m, i);
    }
    LoadNowMore(sem, nodes, val, nodes', val', m, forest[k].l);
    LoadNowMore(sem, nodes, val, nodes', val', m, forest[k].r);
  }

  /** A new root and its new nodes. */
  lemma {:induction false} PhasedMore(sem: Sem, nodes: seq<Node>, forest: seq<Root>, m0: Memory, m: Memory,
                                      val: seq<int>, nodes': seq<Node>, root: Root, val': seq<int>)
    requires Phased(sem, nodes, forest, m0, val) && Acyclic(nodes') && RootsOk(nodes', forest + [root])
    requires nodes <= nodes' && val <= val' && |val'| == |nodes'|
    requires RunForest(sem, nodes, forest, m0) == (m, CacheOf(val)) && NewNow(sem, nodes', val', m, |nodes|)
    requires LoadNow(sem, nodes', val', m, root.l) && LoadNow(sem, nodes', val', m, root.r)
    ensures Phased(sem, nodes', forest + [root], m0, val')
  {
    var forest', n := forest + [root], |forest|;
    forall k: nat | k < |forest'| ensures PhaseAt(sem, nodes', forest', m0, val', k) {
      if k < n {
        PhaseKept(sem, nodes, forest, m0, val, nodes', root, val', k);
      } else {
        assert forest'[..n] == forest && nodes' == nodes + nodes'[|nodes|..];
        RunForestPrefix(sem, nodes, nodes'[|nodes|..], forest, m0);
      }
    }
  }

  /** Running the forest leaves memory m and every node evaluated. */
  ghost predicate Settled(sem: Sem, named: set<Sym>, d: Dag, val: seq<int>, m0: Memory, m: Memory) {
    && Valued(sem, named, d, val, m) && RunForest(sem, d.nodes, d.forest, m0) == (m, CacheOf(val))
    && Phased(sem, d.nodes, d.forest, m0, val)
  }

  lemma RootedRuns(sem: Sem, named: set<Sym>, hash: Node -> nat, d: Dag, a: Assignment, val: seq<int>, m0: Memory,
                   m: Memory) returns (val': seq<int>)
    requires Settled(sem, named, d, val, m0, m) && Admits(a, named)
    ensures var (d', root) := Rooted(hash, d, a);
      && Valued(sem, named, d', val', m) && root.l < |val'| && root.r < |val'|
      && val'[root.l] == Eval(sem, a.lhs, m) && val'[root.r] == Eval(sem, a.rhs, m)
      && RunForest(sem, d'.nodes, d'.forest, m0) == (m[val'[root.l] := val'[root.r]], CacheOf(val'))
      && Phased(sem, d'.nodes, d'.forest, m0, val')
  {
    var (d1, l) := List(hash, d, a.lhs);
    var v1 := ListValued(sem, named, hash, d, a.lhs, val, m);
    var (d2, r) := List(hash, d1, a.rhs);
    val' := ListValued(sem, named, hash, d1, a.rhs, v1, m);
    BothRun(sem, named, d, d1, d2, l, r, a, val, v1, val', m0, m);
    RootPhased(sem, named, d, d1, d2, l, r, a, val, v1, val', m0, m);
  }

  /** Both sides of an assignment were listed. */
  lemma {:induction false} BothRun(sem: Sem, named: set<Sym>, d: Dag, d1: Dag, d2: Dag, l: nat, r: nat, a: Assignment,
                                   val: seq<int>, v1: seq<int>, v2: seq<int>, m0: Memory, m: Memory)
    requires Settled(sem, named, d, val, m0, m) && ListedAs(sem, named, d, d1, l, a.lhs, val, v1, m)
    requires ListedAs(sem, named, d1, d2, r, a.rhs, v1, v2, m)
    ensures RootsOk(d2.nodes, d.forest + [Root(l, r)]) && v2[l] == Eval(sem, a.lhs, m)
    ensures RunForest(sem, d2.nodes, d.forest + [Root(l, r)], m0) == (m[v2[l] := v2[r]], CacheOf(v2))
  {
    RootRun(sem, d.nodes, d1.nodes, d2.nodes, d.forest, l, r, m0, m, val, v1, v2);
  }

  lemma {:induction false} RootPhased(sem: Sem, named: set<Sym>, d: Dag, d1: Dag, d2: Dag, l: nat, r: nat,
                                      a: Assignment, val: seq<int>, v1: seq<int>, v2: seq<int>, m0: Memory, m: Memory)
    requires Settled(sem, named, d, val, m0, m) && ListedAs(sem, named, d, d1, l, a.lhs, val, v1, m)
    requires ListedAs(sem, named, d1, d2, r, a.rhs, v1, v2, m) && RootsOk(d2.nodes, d.forest + [Root(l, r)])
    ensures Phased(sem, d2.nodes, d.forest + [Root(l, r)], m0, v2)
  {
    NewNowMore(sem, d1.nodes, v1, d2.nodes, v2, m, |d.nodes|);
    LoadNowMore(sem, d1.nodes, v1, d2.nodes, v2, m, l);
    PhasedMore(sem, d.nodes, d.forest, m0, m, val, d2.nodes, Root(l, r), v2);
  }

  /** The table that is left is right after the store. */
  lemma {:induction false} LeftValued(sem: Sem, named: set<Sym>, d: Dag, a: Assignment, val: seq<int>, m: Memory,
                                      v: int)
    requires Valued(sem, named, d, val, m) && Separate(sem, named) && Admits(a, named)
    ensures Valued(sem, named, d.(buckets := Left(d, a)), val, m[Eval(sem, a.lhs, m) := v])
  {
    LeftOk(d, a);
    if ByName(a) {
      var p := a.lhs.op.sym;
      forall q | q != p && LoadsNamed(d.nodes, d.buckets, q) ensures sem.addr(q) != sem.addr(p) {
        assert q in named;
      }
      StoreNamedSound(sem, d.nodes, d.buckets, val, m, p, v);
    }
  }

  lemma AssignedRuns(sem: Sem, named: set<Sym>, hash: Node -> nat, d: Dag, a: Assignment, val: seq<int>, m0: Memory,
                     m: Memory) returns (val': seq<int>)
    requires Settled(sem, named, d, val, m0, m) && Separate(sem, named) && Admits(a, named)
    ensures Settled(sem, named, Assigned(hash, d, a), val', m0, Exec(sem, a, m))
  {
    val' := RootedRuns(sem, named, hash, d, a, val, m0, m);
    var (d', root) := Rooted(hash, d, a);
    LeftValued(sem, named, d', a, val', m, val'[root.r]);
  }

  /** Running the forest leaves the memory that the assignments leave one by one. */
  ghost predicate RunsAlike(sem: Sem, nodes: seq<Node>, forest: seq<Root>, block: seq<Assignment>, m0: Memory) {
    Acyclic(nodes) && RootsOk(nodes, forest) && RunForest(sem, nodes, forest, m0).0 == ExecAll(sem, block, m0)
  }

  /** The block refers by name only to variables in `named`. */
  ghost predicate AdmitsAll(block: seq<Assignment>, named: set<Sym>) {
    forall i :: 0 <= i < |block| ==> Admits(block[i], named)
  }

  lemma {:induction false} BlockSettled(sem: Sem, named: set<Sym>, hash: Node -> nat, block: seq<Assignment>,
                                        m0: Memory)
    returns (val: seq<int>)
    requires AllShaped(block) && Separate(sem, named) && AdmitsAll(block, named)
    ensures Settled(sem, named, DagOf(hash, block), val, m0, ExecAll(sem, block, m0))
    decreases |block|
  {
    if block == [] {
      val := [0];
      assert CacheOf(val) == map[0 := 0];
    } else {
      var n := |block| - 1;
      assert AdmitsAll(block[..n], named) && AllShaped(block[..n]);
      val := BlockSettled(sem, named, hash, block[..n], m0);
      val := AssignedRuns(sem, named, hash, DagOf(hash, block[..n]), block[n], val, m0, ExecAll(sem, block[..n], m0));
    }
  }

  /**
   Value numbering of a block: wherever its variables live apart, the forest does what the assignments do one by one.
   */
  lemma {:induction false} BlockSound(sem: Sem, named: set<Sym>, hash: Node -> nat, block: seq<Assignment>, m0: Memory)
    requires AllShaped(block) && Separate(sem, named) && AdmitsAll(block, named)
    ensures RunsAlike(sem, DagOf(hash, block).nodes, DagOf(hash, block).forest, block, m0)
  {
    var val := BlockSettled(sem, named, hash, block, m0);
  }

  /** In the dag of a block, a load by name that is used again is current wherever it is used. */
  lemma {:induction false} BlockPhased(sem: Sem, named: set<Sym>, hash: Node -> nat, block: seq<Assignment>,
                                       m0: Memory) returns (val: seq<int>)
    requires AllShaped(block) && Separate(sem, named) && AdmitsAll(block, named)
    ensures Phased(sem, DagOf(hash, block).nodes, DagOf(hash, block).forest, m0, val)
  {
    val := BlockSettled(sem, named, hash, block, m0);
  }

  // ------------------------------------------------------------------- every node is used

  /** Every node that is not in `pending` has a use. */
  ghost predicate Used(d: Dag, pending: set<nat>) {
    |d.count| == |d.nodes| && forall p :: 1 <= p < |d.nodes| && p !in pending ==> d.count[p] > 0
  }

  lemma {:induction false} RefsFound(nodes: seq<Node>, n: nat, i: nat, p: nat)
    requires i < n <= |nodes| && (nodes[i].l == p || nodes[i].r == p)
    ensures NodeRefs(nodes, n, {}, p) > 0
    decreases n
  {
    if i < n - 1 {
      RefsFound(nodes, n - 1, i, p);
    }
  }

  /** Looking a node up uses its operands. */
  lemma LookUsed(hash: Node -> nat, d: Dag, n: Node, pending: set<nat>)
    requires DagOk(d) && Fitting(d, n) && Used(d, pending + {n.l, n.r})
    ensures Used(Look(hash, d, n).0, pending + {Look(hash, d, n).1})
  {
    var (d', id) := Look(hash, d, n);
    forall p | 1 <= p < |d'.nodes| && p !in pending + {id} ensures d'.count[p] > 0 {
      if p == n.l || p == n.r {
        RefsFound(d'.nodes, |d'.nodes|, id, p);
      }
    }
  }

  lemma {:induction false} ListUsed(hash: Node -> nat, d: Dag, e: Expr, pending: set<nat>)
    requires DagOk(d) && WellShaped(e) && Used(d, pending)
    ensures Used(List(hash, d, e).0, pending + {List(hash, d, e).1})
    decreases e
  {
    if e.Tree? {
      var (d1, l) := List(hash, d, e.l);
      ListUsed(hash, d, e.l, pending);
      var (d2, r) := List(hash, d1, e.r);
      ListUsed(hash, d1, e.r, pending + {l});
      assert pending + {l} + {r} == pending + {l, r};
      LookUsed(hash, d2, Node(e.op, l, r), pending);
    }
  }

  lemma AssignedUsed(hash: Node -> nat, d: Dag, a: Assignment)
    requires DagOk(d) && Shaped(a) && Used(d, {})
    ensures Used(Assigned(hash, d, a), {})
  {
    var (d1, l) := List(hash, d, a.lhs);
    ListUsed(hash, d, a.lhs, {});
    var (d2, r) := List(hash, d1, a.rhs);
    ListUsed(hash, d1, a.rhs, {} + {l});
  }

  /** Every node of the dag of a block has a use. */
  lemma {:induction false} BlockUsed(hash: Node -> nat, block: seq<Assignment>)
    requires AllShaped(block)
    ensures Used(DagOf(hash, block), {})
    decreases |block|
  {
    if block != [] {
      assert AllShaped(block[..|block| - 1]);
      BlockUsed(hash, block[..|block| - 1]);
      AssignedUsed(hash, DagOf(hash, block[..|block| - 1]), block[|block| - 1]);
    }
  }

  // ---------------------------------------------------------------------- builder

  /** Builds the dag of a block of assignments in place. */
  class Builder {
    const hash: Node -> nat
    var nodes: seq<Node>
    var count: seq<nat>
    var buckets: seq<seq<nat>>
    var forest: seq<Root>

    ghost function State(): Dag reads this { Dag(nodes, count, buckets, forest) }

    constructor (hash: Node -> nat)
      ensures State() == EmptyDag() && this.hash == hash
    {
      this.hash := hash;
      nodes, count, buckets, forest := [Node(Const(0), 0, 0)], [0], NoBuckets(), [];
    }

    /** The node with this operator and operands: one from the table, or a new one. */
    method Lookup(n: Node) returns (id: nat)
      requires DagOk(State()) && Fitting(State(), n)
      modifies this
      ensures (State(), id) == Look(hash, old(State()), n)
    {
      var b := hash(n) % NBUCKETS;
      var rest := buckets[b];
      while rest != []
        invariant State() == old(State()) && FindIn(nodes, rest, n) == FindIn(nodes, buckets[b], n)
        invariant forall k :: 0 <= k < |rest| ==> 0 < rest[k] < |nodes|
        decreases |rest|
      {
        if nodes[rest[0]] == n {
          return rest[0];
        }
        rest := rest[1..];
      }
      id := |nodes|;
      nodes, count := nodes + [n], Bump(count, n.l, n.r) + [0];
      buckets := buckets[b := [id] + buckets[b]];
    }

    /** The node of an expression. */
    method ListNodes(e: Expr) returns (id: nat)
      requires DagOk(State()) && WellShaped(e)
      modifies this
      ensures (State(), id) == List(hash, old(State()), e)
      decreases e
    {
      match e {
        case Nil =>
          id := 0;
        case Tree(op, el, er) =>
          var l := ListNodes(el);
          var r := ListNodes(er);
          id := Lookup(Node(op, l, r));
      }
    }

    /** Unlinks from a chain the loads that a store to p may change. */
    method KillChain(p: Sym, chain: seq<nat>) returns (kept: seq<nat>)
      ensures kept == Survivors(nodes, p, chain)
    {
      var rest := chain;
      kept := [];
      while rest != []
        invariant kept + Survivors(nodes, p, rest) == Survivors(nodes, p, chain)
        decreases |rest|
      {
        if !Kills(nodes, p, rest[0]) {
          assert kept + Survivors(nodes, p, rest) == kept + [rest[0]] + Survivors(nodes, p, rest[1..]);
          kept := kept + [rest[0]];
        }
        rest := rest[1..];
      }
    }

    method KillNodes(p: Sym)
      requires |buckets| == NBUCKETS
      modifies this`buckets
      ensures buckets == Killed(nodes, p, old(buckets))
    {
      for b := 0 to NBUCKETS
        invariant |buckets| == NBUCKETS
        invariant forall c :: 0 <= c < b ==> buckets[c] == Survivors(nodes, p, old(buckets)[c])
        invariant forall c :: b <= c < NBUCKETS ==> buckets[c] == old(buckets)[c]
      {
        var kept := KillChain(p, buckets[b]);
        buckets := buckets[b := kept];
      }
    }

    /** After a store by name the loads it may change leave the table; after any other store, all nodes do. */
    method Invalidate(a: Assignment)
      requires |buckets| == NBUCKETS
      modifies this`buckets
      ensures buckets == Left(old(State()), a)
    {
      if a.lhs.Tree? && a.lhs.op.Addr? && !a.lhs.op.sym.computed {
        KillNodes(a.lhs.op.sym);
      } else {
        buckets := NoBuckets();
      }
    }

    /** Lists an assignment, and does to the table what its store demands. */
    method Assign(a: Assignment)
      requires DagOk(State()) && Shaped(a)
      modifies this
      ensures State() == Assigned(hash, old(State()), a)
    {
      var l := ListNodes(a.lhs);
      var r := ListNodes(a.rhs);
      forest, count := forest + [Root(l, r)], Bump(count, l, r);
      Invalidate(a);
    }
  }

  /** Value numbering of a block, whatever its variables denote. */
  method BuildBlock(block: seq<Assignment>, hash: Node -> nat)
    returns (nodes: seq<Node>, count: seq<nat>, forest: seq<Root>)
    requires AllShaped(block)
    ensures nodes == DagOf(hash, block).nodes && count == DagOf(hash, block).count
      && forest == DagOf(hash, block).forest
    ensures Acyclic(nodes) && LeavesBare(nodes) && RootsOk(nodes, forest) && CountsOk(nodes, forest, count)
    ensures forall p :: 1 <= p < |nodes| ==> count[p] > 0
    ensures forall sem, named, m0 :: Separate(sem, named) && AdmitsAll(block, named) ==>
      RunsAlike(sem, nodes, forest, block, m0)
  {
    var b := new Builder(hash);
    for i := 0 to |block|
      invariant b.hash == hash && AllShaped(block[..i]) && b.State() == DagOf(hash, block[..i])
    {
      assert block[..i + 1][..i] == block[..i];
      b.Assign(block[i]);
    }
    assert block[..|block|] == block;
    nodes, count, forest := b.nodes, b.count, b.forest;
    BlockUsed(hash, block);
    forall sem, named, m0 | Separate(sem, named) && AdmitsAll(block, named)
      ensures RunsAlike(sem, nodes, forest, block, m0)
    {
      BlockSound(sem, named, hash, block, m0);
    }
  }
}
