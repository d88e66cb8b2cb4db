/**
 Turning a dag back into trees for code generators that want trees: a node with
 several uses is computed once into a temporary just before its first use, and
 every use reads the temporary. Addresses of locals and parameters are copied.
 */
module Undag {
  import opened Dag

  /**
   A tree over the nodes of the dag: a node of its own, a fresh address node, a fresh load of a variable, or a read of a
   temporary.
   */
  datatype OTree = Null | Copy(sym: Sym) | Reload(sym: Sym) | Tmp(t: nat) | Keep(id: nat, l: OTree, r: OTree)

  datatype OStmt = SetTmp(t: nat, e: OTree) | Store(l: OTree, r: OTree)

  function EvalO(sem: Sem, nodes: seq<Node>, e: OTree, m: Memory, tmps: map<nat, int>): int {
    match e
    case Null => 0
    case Copy(s) => sem.addr(s)
    case Reload(s) => Load(m, sem.addr(s))
    case Tmp(t) => if t in tmps then tmps[t] else 0
    case Keep(id, l, r) =>
      if id < |nodes| then
        Apply(sem, nodes[id].op, EvalO(sem, nodes, l, m, tmps), EvalO(sem, nodes, r, m, tmps), m)
      else 0
  }

  /** The forest that comes out, a linked list of statements. */
  datatype Code = Empty | Then(prev: Code, last: OStmt)

  function RunOut(sem: Sem, nodes: seq<Node>, out: Code, m: Memory): (Memory, map<nat, int>) {
    match out
    case Empty => (m, map[])
    case Then(prev, last) =>
      var (m1, t1) := RunOut(sem, nodes, prev, m);
      match last
      case SetTmp(t, e) => (m1, t1[t := EvalO(sem, nodes, e, m1, t1)])
      case Store(l, r) => (m1[EvalO(sem, nodes, l, m1, t1) := EvalO(sem, nodes, r, m1, t1)], t1)
  }

  /** All temporaries read are numbered below n. */
  predicate ReadsBelow(e: OTree, n: nat) {
    match e
    case Tmp(t) => t < n
    case Keep(_, l, r) => ReadsBelow(l, n) && ReadsBelow(r, n)
    case _ => true
  }

  /** The nodes that the temporaries hold, in the order in which they are set. */
  function Owners(out: Code): seq<nat> {
    match out
    case Empty => []
    case Then(prev, SetTmp(_, e)) => Owners(prev) + [if e.Keep? then e.id else 0]
    case Then(prev, Store(_, _)) => Owners(prev)
  }

  /** Temporaries are set once each, in order, and read only after they were set. */
  predicate SetBeforeRead(out: Code) {
    match out
    case Empty => true
    case Then(prev, SetTmp(t, e)) => SetBeforeRead(prev) && t == |Owners(prev)| && ReadsBelow(e, t)
    case Then(prev, Store(l, r)) =>
      SetBeforeRead(prev) && ReadsBelow(l, |Owners(prev)|) && ReadsBelow(r, |Owners(prev)|)
  }

  /** The tree is the part of the dag below node p, where temporaries stand for the nodes they hold. */
  predicate Mirrors(nodes: seq<Node>, owners: seq<nat>, p: nat, t: OTree)
    decreases t
  {
    match t
    case Null => p == 0
    case Copy(s) => p < |nodes| && nodes[p].op == Addr(s)
    case Reload(_) => false
    case Tmp(u) => u < |owners| && owners[u] == p > 0
    case Keep(id, l, r) =>
      0 < id == p < |nodes| && Mirrors(nodes, owners, nodes[p].l, l) && Mirrors(nodes, owners, nodes[p].r, r)
  }

  /** The output stores what the roots store, in their order, and sets temporaries to nodes. */
  predicate MirrorsForest(nodes: seq<Node>, out: Code, forest: seq<Root>) {
    match out
    case Empty => forest == []
    case Then(prev, SetTmp(_, e)) =>
      MirrorsForest(nodes, prev, forest) && e.Keep? && Mirrors(nodes, Owners(prev), e.id, e)
    case Then(prev, Store(l, r)) =>
      forest != [] && var n := |forest| - 1;
      && MirrorsForest(nodes, prev, forest[..n])
      && Mirrors(nodes, Owners(prev), forest[n].l, l) && Mirrors(nodes, Owners(prev), forest[n].r, r)
  }

  lemma {:induction false} MirrorsMore(nodes: seq<Node>, owners: seq<nat>, owners': seq<nat>, p: nat, t: OTree)
    requires Mirrors(nodes, owners, p, t) && owners <= owners'
    ensures Mirrors(nodes, owners', p, t)
    decreases t
  {
    match t
    case Keep(_, l, r) =>
      MirrorsMore(nodes, owners, owners', nodes[p].l, l);
      MirrorsMore(nodes, owners, owners', nodes[p].r, r);
    case _ =>
  }

  /** How often node q occurs in a tree. */
  function Occurs(e: OTree, q: nat): nat {
    match e
    case Keep(id, l, r) => (if id == q then 1 else 0) + Occurs(l, q) + Occurs(r, q)
    case _ => 0
  }

  function OccursStmt(s: OStmt, q: nat): nat {
    match s
    case SetTmp(_, e) => Occurs(e, q)
    case Store(l, r) => Occurs(l, q) + Occurs(r, q)
  }

  function OccursAll(out: Code, q: nat): nat {
    match out
    case Empty => 0
    case Then(prev, last) => OccursAll(prev, q) + OccursStmt(last, q)
  }

  /** How often temporary t is read in a tree. */
  function Reads(e: OTree, t: nat): nat {
    match e
    case Tmp(u) => if u == t then 1 else 0
    case Keep(_, l, r) => Reads(l, t) + Reads(r, t)
    case _ => 0
  }

  function ReadsStmt(s: OStmt, t: nat): nat {
    match s
    case SetTmp(_, e) => Reads(e, t)
    case Store(l, r) => Reads(l, t) + Reads(r, t)
  }

  function ReadsAll(out: Code, t: nat): nat {
    match out
    case Empty => 0
    case Then(prev, last) => ReadsAll(prev, t) + ReadsStmt(last, t)
  }

  lemma {:induction false} ReadsBelowMono(e: OTree, n: nat, n': nat)
    requires ReadsBelow(e, n) && n <= n'
    ensures ReadsBelow(e, n')
  {
    match e
    case Keep(_, l, r) =>
      ReadsBelowMono(l, n, n');
      ReadsBelowMono(r, n, n');
    case _ =>
  }

  /** Later temporaries do not change the value of a tree. */
  lemma {:induction false} EvalStable(sem: Sem, nodes: seq<Node>, e: OTree, m: Memory, n: nat, a: map<nat, int>,
                                      b: map<nat, int>)
    requires ReadsBelow(e, n)
    requires forall t :: 0 <= t < n ==> t in a && t in b && a[t] == b[t]
    ensures EvalO(sem, nodes, e, m, a) == EvalO(sem, nodes, e, m, b)
  {
    match e
    case Keep(_, l, r) =>
      EvalStable(sem, nodes, l, m, n, a, b);
      EvalStable(sem, nodes, r, m, n, a, b);
    case _ =>
  }

  // ------------------------------------------------------------------- invariants

  predicate IsLocalAddr(op: Oper) {
    op.Addr? && op.sym.scope != Global
  }

  /** Uses of p still to come: from nodes not expanded yet, roots not done yet, and operands about to be visited. */
  ghost function Need(nodes: seq<Node>, done: set<nat>, left: seq<Root>, due: multiset<nat>, p: nat): nat {
    NodeRefs(nodes, |nodes|, done, p) + RootRefs(left, p) + due[p]
  }

  /**
   How the count of node p stands to the uses still to come. Nodes in `open` are being computed for their temporary.
   */
  ghost predicate CountFits(nodes: seq<Node>, count: seq<int>, tmp: map<nat, nat>, done: set<nat>, left: seq<Root>,
                            due: multiset<nat>, open: set<nat>, p: nat)
    requires |count| == |nodes| && p < |nodes|
  {
    var need := Need(nodes, done, left, due, p);
    if p in open then p in done && p !in tmp && count[p] == need + 1
    else if p in tmp then p in done && count[p] == need > 0
    else if p in done then need == 0
    else if IsLocalAddr(nodes[p].op) then need <= count[p]
    else need == count[p]
  }

  ghost predicate RefInv(nodes: seq<Node>, count: seq<int>, tmp: map<nat, nat>, done: set<nat>, left: seq<Root>,
                         due: multiset<nat>, open: set<nat>) {
    && Acyclic(nodes) && LeavesBare(nodes) && |count| == |nodes|
    && 0 !in due
    && forall p :: 1 <= p < |nodes| ==> CountFits(nodes, count, tmp, done, left, due, open, p)
  }

  /**
   The temporaries in use hold the values of their nodes, and only expanded nodes and local addresses have been
   evaluated.
   */
  ghost predicate ValueInv(sem: Sem, nodes: seq<Node>, tmp: map<nat, nat>, done: set<nat>, cache: map<nat, int>,
                           tmps: map<nat, int>, ntemps: nat) {
    && Acyclic(nodes) && 0 in cache && cache[0] == 0
    && (forall t :: 0 <= t < ntemps ==> t in tmps)
    && (forall p :: p in tmp ==> 0 < p < |nodes| && tmp[p] < ntemps && p in cache && tmps[tmp[p]] == cache[p])
    && forall p :: p in cache && 0 < p < |nodes| ==>
         p in done || (IsLocalAddr(nodes[p].op) && cache[p] == sem.addr(nodes[p].op.sym))
  }

  lemma {:induction false} NodeRefsDone(nodes: seq<Node>, n: nat, done: set<nat>, q: nat, p: nat)
    requires n <= |nodes| && q !in done
    ensures NodeRefs(nodes, n, done, p) ==
            NodeRefs(nodes, n, done + {q}, p) + if q < n then Refs(nodes[q], p) else 0
  {
    if n > 0 {
      NodeRefsDone(nodes, n - 1, done, q, p);
    }
  }

  /** Operands of a node that are about to be visited. */
  function Operands(l: nat, r: nat): multiset<nat> {
    (if l == 0 then multiset{} else multiset{l}) + (if r == 0 then multiset{} else multiset{r})
  }

  lemma OperandsLess(due: multiset<nat>, p: nat, q: nat)
    requires 0 !in due
    ensures due + Operands(p, q) - multiset{p} == due + Operands(0, q)
    ensures due + Operands(0, q) - multiset{q} == due
  {
  }

  /** Expanding q turns its references into operands due. */
  lemma ExpandNeed(nodes: seq<Node>, done: set<nat>, left: seq<Root>, due: multiset<nat>, q: nat, p: nat)
    requires Acyclic(nodes) && 0 < q < |nodes| && q !in done && q in due && 0 < p < |nodes|
    ensures Need(nodes, done + {q}, left, due - multiset{q} + Operands(nodes[q].l, nodes[q].r), p)
         == Need(nodes, done, left, due, p) - if p == q then 1 else 0
  {
    NodeRefsDone(nodes, |nodes|, done, q, p);
  }

  /** A use of p through its temporary. */
  lemma UseTmp(nodes: seq<Node>, count: seq<int>, tmp: map<nat, nat>, done: set<nat>, left: seq<Root>,
               due: multiset<nat>, open: set<nat>, p: nat)
    requires RefInv(nodes, count, tmp, done, left, due, open) && 0 < p < |nodes| && p in due && p in tmp && p !in open
    ensures count[p] > 0 && p in done
    ensures RefInv(nodes, count[p := count[p] - 1], if count[p] == 1 then tmp - {p} else tmp, done, left,
                   due - multiset{p}, open)
  {
    assert CountFits(nodes, count, tmp, done, left, due, open, p);
    var count' := count[p := count[p] - 1];
    var tmp' := if count[p] == 1 then tmp - {p} else tmp;
    forall q | 1 <= q < |nodes| ensures CountFits(nodes, count', tmp', done, left, due - multiset{p}, open, q) {
      assert CountFits(nodes, count, tmp, done, left, due, open, q);
    }
  }

  /**
   A node without a temporary that is about to be used has not been expanded, and is used once if its count says so.
   */
  lemma Unexpanded(nodes: seq<Node>, count: seq<int>, tmp: map<nat, nat>, done: set<nat>, left: seq<Root>,
                   due: multiset<nat>, open: set<nat>, p: nat)
    requires RefInv(nodes, count, tmp, done, left, due, open) && 0 < p < |nodes| && p in due && p !in tmp && p !in open
    ensures p !in done && count[p] > 0
    ensures count[p] == 1 ==> Need(nodes, done, left, due, p) == 1
    ensures !IsLocalAddr(nodes[p].op) ==> Need(nodes, done, left, due, p) == count[p]
  {
    assert CountFits(nodes, count, tmp, done, left, due, open, p);
  }

  /** A copy of a local address. */
  lemma UseCopy(nodes: seq<Node>, count: seq<int>, tmp: map<nat, nat>, done: set<nat>, left: seq<Root>,
                due: multiset<nat>, open: set<nat>, p: nat)
    requires RefInv(nodes, count, tmp, done, left, due, open) && 0 < p < |nodes| && p in due && p !in tmp && p !in open
    requires IsLocalAddr(nodes[p].op)
    ensures RefInv(nodes, count, tmp, done, left, due - multiset{p}, open)
  {
    Unexpanded(nodes, count, tmp, done, left, due, open, p);
    forall q | 1 <= q < |nodes| ensures CountFits(nodes, count, tmp, done, left, due - multiset{p}, open, q) {
      assert CountFits(nodes, count, tmp, done, left, due, open, q);
    }
  }

  /** Expanding p: for its only use, or for the temporary that its other uses will read. */
  lemma Expand(nodes: seq<Node>, count: seq<int>, tmp: map<nat, nat>, done: set<nat>, left: seq<Root>,
               due: multiset<nat>, open: set<nat>, p: nat)
    requires RefInv(nodes, count, tmp, done, left, due, open) && 0 < p < |nodes| && p in due && p !in tmp && p !in open
    requires count[p] == 1 || !IsLocalAddr(nodes[p].op)
    ensures RefInv(nodes, count, tmp, done + {p}, left, due - multiset{p} + Operands(nodes[p].l, nodes[p].r),
                   open + {p})
  {
    Unexpanded(nodes, count, tmp, done, left, due, open, p);
    var due' := due - multiset{p} + Operands(nodes[p].l, nodes[p].r);
    var open' := open + {p};
    forall q | 1 <= q < |nodes| ensures CountFits(nodes, count, tmp, done + {p}, left, due', open', q) {
      assert CountFits(nodes, count, tmp, done, left, due, open, q);
      ExpandNeed(nodes, done, left, due, p, q);
    }
  }

  /** The temporary of p is set, and about to be read for the first time. */
  lemma Close(nodes: seq<Node>, count: seq<int>, tmp: map<nat, nat>, done: set<nat>, left: seq<Root>,
              due: multiset<nat>, open: set<nat>, p: nat, t: nat)
    requires RefInv(nodes, count, tmp, done, left, due, open) && 0 < p < |nodes| && p in open
    ensures p in done && p !in tmp
    ensures RefInv(nodes, count, tmp[p := t], done, left, due + multiset{p}, open - {p})
  {
    assert CountFits(nodes, count, tmp, done, left, due, open, p);
    var tmp', due', open' := tmp[p := t], due + multiset{p}, open - {p};
    forall q | 1 <= q < |nodes| ensures CountFits(nodes, count, tmp', done, left, due', open', q) {
      assert CountFits(nodes, count, tmp, done, left, due, open, q);
    }
  }

  /** The only use of p is done. */
  lemma CloseSingle(nodes: seq<Node>, count: seq<int>, tmp: map<nat, nat>, done: set<nat>, left: seq<Root>,
                    due: multiset<nat>, open: set<nat>, p: nat)
    requires RefInv(nodes, count, tmp, done, left, due, open) && 0 < p < |nodes| && p in open && count[p] == 1
    ensures RefInv(nodes, count, tmp, done, left, due, open - {p})
  {
    var open' := open - {p};
    forall q | 1 <= q < |nodes| ensures CountFits(nodes, count, tmp, done, left, due, open', q) {
      assert CountFits(nodes, count, tmp, done, left, due, open, q);
    }
  }

  /** The value of an expanded node follows from those of its operands. */
  lemma {:induction false} KeptValue(sem: Sem, nodes: seq<Node>, tmp: map<nat, nat>, done: set<nat>,
                                     cache: map<nat, int>, tmps: map<nat, int>, ntemps: nat, m: Memory, p: nat)
    requires ValueInv(sem, nodes, tmp, done, cache, tmps, ntemps) && LeavesBare(nodes)
    requires 0 < p < |nodes| && p !in done
    ensures var c2 := CEval(sem, nodes, nodes[p].r, m, CEval(sem, nodes, nodes[p].l, m, cache));
      && nodes[p].l in c2 && nodes[p].r in c2
      && CEval(sem, nodes, p, m, cache) == c2[p := Apply(sem, nodes[p].op, c2[nodes[p].l], c2[nodes[p].r], m)]
  {
    if p in cache {
      var c2 := CEval(sem, nodes, nodes[p].r, m, CEval(sem, nodes, nodes[p].l, m, cache));
      assert nodes[p].l == nodes[p].r == 0 && c2 == cache;
      assert c2[p := cache[p]] == c2;
    }
  }

  lemma {:induction false} CopyValue(sem: Sem, nodes: seq<Node>, tmp: map<nat, nat>, done: set<nat>,
                                     cache: map<nat, int>, tmps: map<nat, int>, ntemps: nat, m: Memory, p: nat)
    requires ValueInv(sem, nodes, tmp, done, cache, tmps, ntemps) && LeavesBare(nodes)
    requires 0 < p < |nodes| && p !in done && IsLocalAddr(nodes[p].op)
    ensures ValueInv(sem, nodes, tmp, done, CEval(sem, nodes, p, m, cache), tmps, ntemps)
    ensures CEval(sem, nodes, p, m, cache)[p] == sem.addr(nodes[p].op.sym)
  {
    CEvalKeeps(sem, nodes, p, m, cache);
    assert nodes[p].l == nodes[p].r == 0;
  }

  lemma NewValue(sem: Sem, nodes: seq<Node>, tmp: map<nat, nat>, done: set<nat>, cache: map<nat, int>,
                 tmps: map<nat, int>, ntemps: nat, p: nat, v: int)
    requires ValueInv(sem, nodes, tmp, done, cache, tmps, ntemps) && p in done && p !in tmp && p > 0
    ensures ValueInv(sem, nodes, tmp, done, cache[p := v], tmps, ntemps)
  {
  }

  lemma NewTmp(sem: Sem, nodes: seq<Node>, tmp: map<nat, nat>, done: set<nat>, cache: map<nat, int>,
               tmps: map<nat, int>, ntemps: nat, p: nat)
    requires ValueInv(sem, nodes, tmp, done, cache, tmps, ntemps) && 0 < p < |nodes| && p in cache
    ensures ValueInv(sem, nodes, tmp[p := ntemps], done, cache, tmps[ntemps := cache[p]], ntemps + 1)
  {
  }

  /** Every temporary belongs to the node it holds; counts fall only by reads of temporaries. */
  ghost predicate OwnInv(count: seq<int>, count0: seq<int>, tmp: map<nat, nat>, done: set<nat>, open: set<nat>,
                         owners: seq<nat>) {
    && |count| == |count0|
    && (forall p :: 0 <= p < |count| && (p !in done || p in open) ==> count[p] == count0[p])
    && (forall t :: 0 <= t < |owners| ==> Owned(count, tmp, done, open, owners, t))
    && (forall p :: p in tmp ==> tmp[p] < |owners| && owners[tmp[p]] == p)
    && forall p: nat :: p < |count| && p in done && p !in open ==> (p in owners <==> count0[p] > 1)
  }

  ghost predicate Owned(count: seq<int>, tmp: map<nat, nat>, done: set<nat>, open: set<nat>, owners: seq<nat>, t: int)
    requires 0 <= t < |owners|
  {
    && 0 < owners[t] < |count| && owners[t] in done && owners[t] !in open
    && if owners[t] in tmp then tmp[owners[t]] == t else count[owners[t]] == 0
  }

  lemma OwnRead(count: seq<int>, count0: seq<int>, tmp: map<nat, nat>, done: set<nat>, open: set<nat>, owners: seq<nat>,
                p: nat)
    requires OwnInv(count, count0, tmp, done, open, owners)
    requires p < |count| && p in tmp && p in done && p !in open && count[p] > 0
    ensures OwnInv(count[p := count[p] - 1], count0, if count[p] == 1 then tmp - {p} else tmp, done, open, owners)
  {
    var count', tmp' := count[p := count[p] - 1], if count[p] == 1 then tmp - {p} else tmp;
    forall t | 0 <= t < |owners| ensures Owned(count', tmp', done, open, owners, t) {
      assert Owned(count, tmp, done, open, owners, t);
    }
  }

  lemma OwnNew(count: seq<int>, count0: seq<int>, tmp: map<nat, nat>, done: set<nat>, open: set<nat>, owners: seq<nat>,
               p: nat)
    requires OwnInv(count, count0, tmp, done, open, owners) && 0 < p < |count| && p !in tmp && p in done && p in open
    requires count[p] > 1
    ensures count[p] == count0[p] && OwnInv(count, count0, tmp[p := |owners|], done, open - {p}, owners + [p])
  {
    var tmp', open', owners' := tmp[p := |owners|], open - {p}, owners + [p];
    forall t | 0 <= t < |owners'| ensures Owned(count, tmp', done, open', owners', t) {
      if t < |owners| {
        assert Owned(count, tmp, done, open, owners, t);
      }
    }
  }

  /** Temporaries set before keep their values. */
  ghost predicate Grows(n: nat, tmps: map<nat, int>, n': nat, tmps': map<nat, int>) {
    n <= n' && forall t :: 0 <= t < n ==> t in tmps && t in tmps' && tmps'[t] == tmps[t]
  }

  // --------------------------------------------------------------------- the pass

  /** The state of the pass: counts of uses left, temporaries of nodes with uses left, and the output. */
  datatype Pass = Pass(count: seq<int>, tmp: map<nat, nat>, out: Code)

  /** Reads the temporary of p; the last use releases it. */
  function ReadTmp(q: Pass, p: nat): (Pass, OTree)
    requires p < |q.count| && p in q.tmp
  {
    var count := q.count[p := q.count[p] - 1];
    (q.(count := count, tmp := if count[p] == 0 then q.tmp - {p} else q.tmp), Tmp(q.tmp[p]))
  }

  /** A new temporary for node p. */
  function SetTo(q: Pass, p: nat, e: OTree): Pass {
    var t := |Owners(q.out)|;
    q.(tmp := q.tmp[p := t], out := Then(q.out, SetTmp(t, e)))
  }

  /** Replaces one use of node p by a tree. */
  ghost function Visited(nodes: seq<Node>, q: Pass, p: nat): (res: (Pass, OTree))
    requires Acyclic(nodes) && p < |nodes| == |q.count|
    ensures |res.0.count| == |nodes|
    decreases p, 2
  {
    if p == 0 then (q, Null)
    else if p in q.tmp then ReadTmp(q, p)
    else if q.count[p] <= 1 then Kept(nodes, q, p)
    else if IsLocalAddr(nodes[p].op) then (q, Copy(nodes[p].op.sym))
    else
      var (q1, e) := Kept(nodes, q, p);
      ReadTmp(SetTo(q1, p, e), p)
  }

  /** Visits the operands of p and puts the results in place. */
  ghost function Kept(nodes: seq<Node>, q: Pass, p: nat): (res: (Pass, OTree))
    requires Acyclic(nodes) && 0 < p < |nodes| == |q.count|
    ensures |res.0.count| == |nodes|
    decreases p, 0
  {
    var (q1, l, r) := Both(nodes, q, nodes[p].l, nodes[p].r);
    (q1, Keep(p, l, r))
  }

  /** Visits two operands, left first. */
  ghost function Both(nodes: seq<Node>, q: Pass, a: nat, b: nat): (res: (Pass, OTree, OTree))
    requires Acyclic(nodes) && a < |nodes| && b < |nodes| == |q.count|
    ensures |res.0.count| == |nodes|
    decreases if a > b then a else b, 3
  {
    var (q1, l) := Visited(nodes, q, a);
    var (q2, r) := Visited(nodes, q1, b);
    (q2, l, r)
  }

  /** Replaces both operands of a root and emits it. */
  ghost function RootVisited(nodes: seq<Node>, q: Pass, root: Root): (q': Pass)
    requires Acyclic(nodes) && root.l < |nodes| && root.r < |nodes| == |q.count|
    ensures |q'.count| == |nodes|
  {
    var (q1, l, r) := Both(nodes, q, root.l, root.r);
    q1.(out := Then(q1.out, Store(l, r)))
  }

  /** The pass after the roots of a forest. */
  ghost function ForestVisited(nodes: seq<Node>, count: seq<int>, forest: seq<Root>): (q: Pass)
    requires Acyclic(nodes) && RootsOk(nodes, forest) && |count| == |nodes|
    ensures |q.count| == |nodes|
  {
    if forest == [] then Pass(count, map[], Empty)
    else RootVisited(nodes, ForestVisited(nodes, count, forest[..|forest| - 1]), forest[|forest| - 1])
  }

  // ------------------------------------------------------------------- what it keeps

  /** The dag that the pass works on, with its counts, and a meaning and memory to run the output with. */
  datatype Job = Job(nodes: seq<Node>, count0: seq<int>, sem: Sem, m0: Memory)

  /** The pass with the memory, temporaries and node values that running its output so far gives. */
  datatype View = View(q: Pass, m: Memory, tmps: map<nat, int>, cache: map<nat, int>, done: set<nat>, past: seq<Root>)

  function Temps(s: View): nat { |Owners(s.q.out)| }

  ghost predicate Ok(j: Job, s: View, left: seq<Root>, due: multiset<nat>, open: set<nat>) {
    && RefInv(j.nodes, s.q.count, s.q.tmp, s.done, left, due, open)
    && ValueInv(j.sem, j.nodes, s.q.tmp, s.done, s.cache, s.tmps, Temps(s))
    && RunOut(j.sem, j.nodes, s.q.out, j.m0) == (s.m, s.tmps)
    && SetBeforeRead(s.q.out) && MirrorsForest(j.nodes, s.q.out, s.past)
    && OwnInv(s.q.count, j.count0, s.q.tmp, s.done, open, Owners(s.q.out))
    && LocalsOnce(j, s.done)
  }

  /** Addresses of locals are expanded only if they are used once. */
  ghost predicate LocalsOnce(j: Job, done: set<nat>) {
    forall p: nat :: p in done && p < |j.nodes| == |j.count0| && IsLocalAddr(j.nodes[p].op) ==> j.count0[p] <= 1
  }

  /** Occurrences of node n in the output, against whether it was expanded. */
  ghost function Surplus(s: View, n: nat): int {
    OccursAll(s.q.out, n) - (if n in s.done then 1 else 0)
  }

  /** Reads of temporary t in the output, against the uses of its node that were counted down. */
  ghost function Tally(j: Job, s: View, t: nat): int {
    ReadsAll(s.q.out, t) - Uses(s.q.count, j.count0, Owners(s.q.out), t)
  }

  function Uses(count: seq<int>, count0: seq<int>, owners: seq<nat>, t: nat): int {
    if t < |owners| && owners[t] < |count| == |count0| then count0[owners[t]] - count[owners[t]] else 0
  }

  /** Tree t holds what the output of s' lacks against that of s. */
  ghost predicate Balanced(j: Job, s: View, s': View, t: OTree, n: nat) {
    Surplus(s', n) + Occurs(t, n) == Surplus(s, n) && Tally(j, s', n) + Reads(t, n) == Tally(j, s, n)
  }

  /** The output only grew. */
  ghost predicate Extends(s: View, s': View) {
    && s'.m == s.m && s'.past == s.past && Owners(s.q.out) <= Owners(s'.q.out)
    && Grows(Temps(s), s.tmps, Temps(s'), s'.tmps)
  }

  /** From s to s', tree t took the place of one use of node p. */
  ghost predicate Replaces(j: Job, s: View, s': View, p: nat, t: OTree)
    requires Acyclic(j.nodes) && p < |j.nodes|
  {
    && Extends(s, s') && s'.cache == CEval(j.sem, j.nodes, p, s.m, s.cache)
    && ReadsBelow(t, Temps(s')) && EvalO(j.sem, j.nodes, t, s'.m, s'.tmps) == s'.cache[p]
    && Mirrors(j.nodes, Owners(s'.q.out), p, t)
    && forall n: nat :: Balanced(j, s, s', t, n)
  }

  /** A use through the temporary of p. */
  lemma ReadStep(j: Job, s: View, left: seq<Root>, due: multiset<nat>, open: set<nat>, p: nat)
    requires Ok(j, s, left, due, open) && 0 < p < |j.nodes| && p in due && p in s.q.tmp && p !in open
    ensures var (q, t) := ReadTmp(s.q, p);
      Ok(j, s.(q := q), left, due - multiset{p}, open) && Replaces(j, s, s.(q := q), p, t)
  {
    var (q, t) := ReadTmp(s.q, p);
    var s' := s.(q := q);
    UseTmp(j.nodes, s.q.count, s.q.tmp, s.done, left, due, open, p);
    OwnRead(s.q.count, j.count0, s.q.tmp, s.done, open, Owners(s.q.out), p);
    forall n: nat ensures Balanced(j, s, s', t, n) {
      if n < |Owners(s.q.out)| {
        assert Owned(s.q.count, s.q.tmp, s.done, open, Owners(s.q.out), n);
      }
    }
  }

  /** A copy of the local address p. */
  lemma {:induction false} CopyStep(j: Job, s: View, left: seq<Root>, due: multiset<nat>, open: set<nat>, p: nat)
    requires Ok(j, s, left, due, open) && 0 < p < |j.nodes| && p in due && p !in s.q.tmp && p !in open
    requires IsLocalAddr(j.nodes[p].op)
    ensures var s' := s.(cache := CEval(j.sem, j.nodes, p, s.m, s.cache));
      Ok(j, s', left, due - multiset{p}, open) && Replaces(j, s, s', p, Copy(j.nodes[p].op.sym))
  {
    var s' := s.(cache := CEval(j.sem, j.nodes, p, s.m, s.cache));
    UseCopy(j.nodes, s.q.count, s.q.tmp, s.done, left, due, open, p);
    Unexpanded(j.nodes, s.q.count, s.q.tmp, s.done, left, due, open, p);
    CopyValue(j.sem, j.nodes, s.q.tmp, s.done, s.cache, s.tmps, Temps(s), s.m, p);
    assert forall n: nat :: Balanced(j, s, s', Copy(j.nodes[p].op.sym), n);
  }

  /** Node p, just rebuilt as e, goes into a new temporary. */
  ghost function Spilled(s: View, p: nat, e: OTree): View
    requires p in s.cache
  {
    s.(q := SetTo(s.q, p, e), tmps := s.tmps[Temps(s) := s.cache[p]])
  }

  lemma {:induction false} SpillStep(j: Job, s: View, left: seq<Root>, due: multiset<nat>, open: set<nat>, p: nat,
                                     e: OTree)
    requires Ok(j, s, left, due, open) && 0 < p < |j.nodes| && p in open && p in s.cache && e.Keep? && e.id == p
    requires s.q.count[p] > 1
    requires ReadsBelow(e, Temps(s)) && EvalO(j.sem, j.nodes, e, s.m, s.tmps) == s.cache[p]
    requires Mirrors(j.nodes, Owners(s.q.out), p, e)
    ensures Ok(j, Spilled(s, p, e), left, due + multiset{p}, open - {p})
  {
    Close(j.nodes, s.q.count, s.q.tmp, s.done, left, due, open, p, Temps(s));
    OwnNew(s.q.count, j.count0, s.q.tmp, s.done, open, Owners(s.q.out), p);
    NewTmp(j.sem, j.nodes, s.q.tmp, s.done, s.cache, s.tmps, Temps(s), p);
  }

  /** Setting the temporary puts e into the output, and reading it takes the place of e. */
  lemma SpillReplaces(j: Job, s0: View, s: View, s1: View, s2: View, p: nat, e: OTree, t: OTree)
    requires Acyclic(j.nodes) && p < |j.nodes| && p < |s.q.count| == |j.count0| && s.q.count[p] == j.count0[p]
    requires e.Keep? && e.id == p && p in s.cache && s1 == Spilled(s, p, e)
    requires Replaces(j, s0, s, p, e) && Replaces(j, s1, s2, p, t)
    ensures Replaces(j, s0, s2, p, t)
  {
    var owners := Owners(s.q.out);
    forall n: nat ensures Balanced(j, s0, s2, t, n) {
      assert Balanced(j, s0, s, e, n) && Balanced(j, s1, s2, t, n);
      assert Uses(s1.q.count, j.count0, owners + [p], n) == Uses(s.q.count, j.count0, owners, n);
    }
  }

  /** p counts as expanded from here on; its operands are due. */
  lemma MarkStep(j: Job, s: View, left: seq<Root>, due: multiset<nat>, open: set<nat>, p: nat)
    requires Ok(j, s, left, due, open) && 0 < p < |j.nodes| && p in due && p !in s.q.tmp && p !in open
    requires s.q.count[p] <= 1 || !IsLocalAddr(j.nodes[p].op)
    ensures p !in s.done && s.q.count[p] == j.count0[p] > 0
    ensures Ok(j, s.(done := s.done + {p}), left, due - multiset{p} + Operands(j.nodes[p].l, j.nodes[p].r), open + {p})
  {
    Unexpanded(j.nodes, s.q.count, s.q.tmp, s.done, left, due, open, p);
    Expand(j.nodes, s.q.count, s.q.tmp, s.done, left, due, open, p);
    OwnMark(s.q.count, j.count0, s.q.tmp, s.done, open, Owners(s.q.out), p);
  }

  lemma OwnMark(count: seq<int>, count0: seq<int>, tmp: map<nat, nat>, done: set<nat>, open: set<nat>, owners: seq<nat>,
                p: nat)
    requires OwnInv(count, count0, tmp, done, open, owners) && p !in done
    ensures OwnInv(count, count0, tmp, done + {p}, open + {p}, owners)
  {
    forall t | 0 <= t < |owners| ensures Owned(count, tmp, done + {p}, open + {p}, owners, t) {
      assert Owned(count, tmp, done, open, owners, t);
    }
  }

  ghost function Rebuilt(j: Job, s: View, p: nat): View
    requires p < |j.nodes| && j.nodes[p].l in s.cache && j.nodes[p].r in s.cache
  {
    var n := j.nodes[p];
    s.(cache := s.cache[p := Apply(j.sem, n.op, s.cache[n.l], s.cache[n.r], s.m)])
  }

  /** Both operands of p are in place: its value is known. */
  lemma KeepOk(j: Job, s: View, left: seq<Root>, due: multiset<nat>, open: set<nat>, p: nat)
    requires Ok(j, s, left, due, open) && 0 < p < |j.nodes| && p in open
    requires j.nodes[p].l in s.cache && j.nodes[p].r in s.cache
    ensures Ok(j, Rebuilt(j, s, p), left, due, open)
  {
    assert CountFits(j.nodes, s.q.count, s.q.tmp, s.done, left, due, open, p);
    var n := j.nodes[p];
    NewValue(j.sem, j.nodes, s.q.tmp, s.done, s.cache, s.tmps, Temps(s), p,
             Apply(j.sem, n.op, s.cache[n.l], s.cache[n.r], s.m));
  }

  lemma KeepReplaces(j: Job, s0: View, s: View, p: nat, l: OTree, r: OTree)
    requires ValueInv(j.sem, j.nodes, s0.q.tmp, s0.done, s0.cache, s0.tmps, Temps(s0)) && LeavesBare(j.nodes)
    requires 0 < p < |j.nodes| && p !in s0.done
    requires ReplacesBoth(j, s0.(done := s0.done + {p}), s, j.nodes[p].l, j.nodes[p].r, l, r)
    ensures Replaces(j, s0, Rebuilt(j, s, p), p, Keep(p, l, r))
  {
    KeptValue(j.sem, j.nodes, s0.q.tmp, s0.done, s0.cache, s0.tmps, Temps(s0), s0.m, p);
    KeepBalanced(j, s0, s, p, l, r);
  }

  lemma {:induction false} KeepBalanced(j: Job, s0: View, s: View, p: nat, l: OTree, r: OTree)
    requires Acyclic(j.nodes) && 0 < p < |j.nodes| && p !in s0.done && j.nodes[p].l in s.cache
      && j.nodes[p].r in s.cache
    requires forall n: nat :: BalancedBoth(j, s0.(done := s0.done + {p}), s, l, r, n)
    ensures forall n: nat :: Balanced(j, s0, Rebuilt(j, s, p), Keep(p, l, r), n)
  {
    forall n: nat ensures Balanced(j, s0, Rebuilt(j, s, p), Keep(p, l, r), n) {
      assert BalancedBoth(j, s0.(done := s0.done + {p}), s, l, r, n);
    }
  }

  ghost predicate BalancedBoth(j: Job, s: View, s': View, l: OTree, r: OTree, n: nat) {
    && Surplus(s', n) + Occurs(l, n) + Occurs(r, n) == Surplus(s, n)
    && Tally(j, s', n) + Reads(l, n) + Reads(r, n) == Tally(j, s, n)
  }

  /** Two uses replaced, the left one first; both trees are evaluated after that. */
  ghost predicate ReplacesBoth(j: Job, s: View, s': View, p: nat, q: nat, l: OTree, r: OTree)
    requires Acyclic(j.nodes) && p < |j.nodes| && q < |j.nodes|
  {
    && Extends(s, s') && s'.cache == CEval(j.sem, j.nodes, q, s.m, CEval(j.sem, j.nodes, p, s.m, s.cache))
    && ReadsBelow(l, Temps(s')) && ReadsBelow(r, Temps(s')) && p in s'.cache && q in s'.cache
    && EvalO(j.sem, j.nodes, l, s'.m, s'.tmps) == s'.cache[p]
    && EvalO(j.sem, j.nodes, r, s'.m, s'.tmps) == s'.cache[q]
    && Mirrors(j.nodes, Owners(s'.q.out), p, l) && Mirrors(j.nodes, Owners(s'.q.out), q, r)
    && forall n: nat :: BalancedBoth(j, s, s', l, r, n)
  }

  lemma BothStep(j: Job, s0: View, s1: View, s2: View, p: nat, q: nat, l: OTree, r: OTree)
    requires Acyclic(j.nodes) && p < |j.nodes| && q < |j.nodes|
    requires Replaces(j, s0, s1, p, l) && Replaces(j, s1, s2, q, r)
    requires forall t :: 0 <= t < Temps(s1) ==> t in s1.tmps
    ensures ReplacesBoth(j, s0, s2, p, q, l, r)
  {
    CEvalKeeps(j.sem, j.nodes, q, s1.m, s1.cache);
    EvalStable(j.sem, j.nodes, l, s1.m, Temps(s1), s1.tmps, s2.tmps);
    ReadsBelowMono(l, Temps(s1), Temps(s2));
    MirrorsMore(j.nodes, Owners(s1.q.out), Owners(s2.q.out), p, l);
    forall n: nat ensures BalancedBoth(j, s0, s2, l, r, n) {
      assert Balanced(j, s0, s1, l, n) && Balanced(j, s1, s2, r, n);
    }
  }
  /** Replacing one use of p keeps everything. */
  lemma {:induction false} VisitOk(j: Job, s: View, left: seq<Root>, due: multiset<nat>, open: set<nat>, p: nat)
    returns (s': View)
    requires Ok(j, s, left, due, open) && p < |j.nodes| && (p == 0 || p in due) && forall o :: o in open ==> p < o
    ensures var (q, t) := Visited(j.nodes, s.q, p);
      s'.q == q && Ok(j, s', left, due - multiset{p}, open) && Replaces(j, s, s', p, t)
    decreases p, 2
  {
    if p == 0 {
      s' := s;
      assert due - multiset{p} == due;
      assert forall n: nat :: Balanced(j, s, s, Null, n);
    } else if p in s.q.tmp {
      ReadStep(j, s, left, due, open, p);
      s' := s.(q := ReadTmp(s.q, p).0);
    } else if s.q.count[p] <= 1 {
      s' := SingleOk(j, s, left, due, open, p);
    } else if IsLocalAddr(j.nodes[p].op) {
      CopyStep(j, s, left, due, open, p);
      s' := s.(cache := CEval(j.sem, j.nodes, p, s.m, s.cache));
    } else {
      s' := SpillOk(j, s, left, due, open, p);
    }
  }

  /** Keeps p where it is used. */
  lemma {:induction false} SingleOk(j: Job, s: View, left: seq<Root>, due: multiset<nat>, open: set<nat>, p: nat)
    returns (s': View)
    requires Ok(j, s, left, due, open) && 0 < p < |j.nodes| && p in due && p !in s.q.tmp
    requires (forall o :: o in open ==> p < o) && s.q.count[p] <= 1
    ensures var (q, t) := Kept(j.nodes, s.q, p);
      s'.q == q && Ok(j, s', left, due - multiset{p}, open) && Replaces(j, s, s', p, t)
    decreases p, 1
  {
    s' := KeptOk(j, s, left, due, open, p);
    CloseSingle(j.nodes, s'.q.count, s'.q.tmp, s'.done, left, due - multiset{p}, open + {p}, p);
    OwnClose(s'.q.count, j.count0, s'.q.tmp, s'.done, open + {p}, Owners(s'.q.out), p);
    assert open + {p} - {p} == open;
  }

  lemma OwnClose(count: seq<int>, count0: seq<int>, tmp: map<nat, nat>, done: set<nat>, open: set<nat>,
                 owners: seq<nat>, p: nat)
    requires OwnInv(count, count0, tmp, done, open, owners) && p in open && p in done && p < |count| && count[p] <= 1
    ensures OwnInv(count, count0, tmp, done, open - {p}, owners)
  {
    forall t | 0 <= t < |owners| ensures Owned(count, tmp, done, open - {p}, owners, t) && owners[t] != p {
      assert Owned(count, tmp, done, open, owners, t);
    }
  }

  /** Computes p into a temporary just before its first use, and reads it. */
  lemma {:induction false} SpillOk(j: Job, s: View, left: seq<Root>, due: multiset<nat>, open: set<nat>, p: nat)
    returns (s': View)
    requires Ok(j, s, left, due, open) && 0 < p < |j.nodes| && p in due && p !in s.q.tmp
    requires (forall o :: o in open ==> p < o) && s.q.count[p] > 1 && !IsLocalAddr(j.nodes[p].op)
    ensures var (q1, e) := Kept(j.nodes, s.q, p);
      var (q, t) := ReadTmp(SetTo(q1, p, e), p);
      s'.q == q && Ok(j, s', left, due - multiset{p}, open) && Replaces(j, s, s', p, t)
    decreases p, 1
  {
    var (q1, e) := Kept(j.nodes, s.q, p);
    var s1 := KeptOk(j, s, left, due, open, p);
    var due1 := due - multiset{p};
    SpillStep(j, s1, left, due1, open + {p}, p, e);
    assert open + {p} - {p} == open && due1 + multiset{p} - multiset{p} == due1;
    var s2 := Spilled(s1, p, e);
    ReadStep(j, s2, left, due1 + multiset{p}, open, p);
    s' := s2.(q := ReadTmp(s2.q, p).0);
    SpillReplaces(j, s, s1, s2, s', p, e, ReadTmp(s2.q, p).1);
  }

  /** Expands p for a use of it. */
  lemma {:induction false} KeptOk(j: Job, s: View, left: seq<Root>, due: multiset<nat>, open: set<nat>, p: nat)
    returns (s': View)
    requires Ok(j, s, left, due, open) && 0 < p < |j.nodes| && p in due && p !in s.q.tmp
    requires (forall o :: o in open ==> p < o) && (s.q.count[p] <= 1 || !IsLocalAddr(j.nodes[p].op))
    ensures var (q, t) := Kept(j.nodes, s.q, p);
      && s'.q == q && Ok(j, s', left, due - multiset{p}, open + {p}) && Replaces(j, s, s', p, t)
      && p in s'.done && s'.q.count[p] == s.q.count[p] == j.count0[p] > 0
    decreases p, 0
  {
    MarkStep(j, s, left, due, open, p);
    var s1 := s.(done := s.done + {p});
    var due1 := due - multiset{p};
    var s2 := BothOk(j, s1, left, due1, open + {p}, j.nodes[p].l, j.nodes[p].r);
    var (q, l, r) := Both(j.nodes, s.q, j.nodes[p].l, j.nodes[p].r);
    KeepOk(j, s2, left, due1, open + {p}, p);
    KeepReplaces(j, s, s2, p, l, r);
    s' := Rebuilt(j, s2, p);
    assert CountFits(j.nodes, s'.q.count, s'.q.tmp, s'.done, left, due1, open + {p}, p);
  }

  lemma {:induction false} BothOk(j: Job, s: View, left: seq<Root>, due: multiset<nat>, open: set<nat>, a: nat, b: nat)
    returns (s': View)
    requires a < |j.nodes| && b < |j.nodes| && forall o :: o in open ==> a < o && b < o
    requires Ok(j, s, left, due + Operands(a, b), open)
    ensures var (q, l, r) := Both(j.nodes, s.q, a, b);
      s'.q == q && Ok(j, s', left, due, open) && ReplacesBoth(j, s, s', a, b, l, r)
    decreases if a > b then a else b, 3
  {
    var (q1, l) := Visited(j.nodes, s.q, a);
    var s1 := VisitOk(j, s, left, due + Operands(a, b), open, a);
    OperandsLess(due, a, b);
    var (q2, r) := Visited(j.nodes, q1, b);
    s' := VisitOk(j, s1, left, due + Operands(0, b), open, b);
    BothStep(j, s, s1, s', a, b, l, r);
  }
  // -------------------------------------------------------------------- whole forests

  ghost function Stored(s: View, root: Root, l: OTree, r: OTree): View
    requires root.l in s.cache && root.r in s.cache
  {
    s.(q := s.q.(out := Then(s.q.out, Store(l, r))), m := s.m[s.cache[root.l] := s.cache[root.r]],
       past := s.past + [root])
  }

  /** Nothing is in hand: the output holds what was expanded, and its reads are those counted down. */
  ghost predicate Even(j: Job, s: View, n: nat) { Surplus(s, n) == 0 && Tally(j, s, n) == 0 }

  /** The output so far has done what the roots in `forest` do. */
  ghost predicate RanTo(j: Job, s: View, forest: seq<Root>) {
    && Acyclic(j.nodes) && RootsOk(j.nodes, forest) && s.past == forest
    && (s.m, s.cache) == RunForest(j.sem, j.nodes, forest, j.m0)
    && forall n: nat :: Even(j, s, n)
  }

  lemma {:induction false} StoreOk(j: Job, s: View, left: seq<Root>, root: Root, l: OTree, r: OTree)
    requires Ok(j, s, left, multiset{}, {}) && root.l in s.cache && root.r in s.cache
    requires ReadsBelow(l, Temps(s)) && ReadsBelow(r, Temps(s))
    requires EvalO(j.sem, j.nodes, l, s.m, s.tmps) == s.cache[root.l]
    requires EvalO(j.sem, j.nodes, r, s.m, s.tmps) == s.cache[root.r]
    requires Mirrors(j.nodes, Owners(s.q.out), root.l, l) && Mirrors(j.nodes, Owners(s.q.out), root.r, r)
    ensures Ok(j, Stored(s, root, l, r), left, multiset{}, {})
  {
    var past := s.past + [root];
    assert past[..|past| - 1] == s.past;
  }

  /** One more root. */
  lemma RootOk(j: Job, s: View, left: seq<Root>, root: Root) returns (s': View)
    requires Ok(j, s, [root] + left, multiset{}, {}) && root.l < |j.nodes| && root.r < |j.nodes| && RanTo(j, s, s.past)
    ensures s'.q == RootVisited(j.nodes, s.q, root)
    ensures Ok(j, s', left, multiset{}, {}) && RanTo(j, s', s.past + [root])
  {
    RootDue(j.nodes, s.q.count, s.q.tmp, s.done, root, left);
    var (q, l, r) := Both(j.nodes, s.q, root.l, root.r);
    var s1 := BothOk(j, s, left, multiset{}, {}, root.l, root.r);
    StoreOk(j, s1, left, root, l, r);
    s' := Stored(s1, root, l, r);
    RootRan(j, s, s1, root, l, r);
  }

  lemma {:induction false} RootRan(j: Job, s: View, s1: View, root: Root, l: OTree, r: OTree)
    requires RanTo(j, s, s.past) && root.l < |j.nodes| && root.r < |j.nodes|
    requires ReplacesBoth(j, s, s1, root.l, root.r, l, r)
    ensures RanTo(j, Stored(s1, root, l, r), s.past + [root])
  {
    assert (s.past + [root])[..|s.past|] == s.past;
    RootEven(j, s, s1, root, l, r);
  }

  lemma {:induction false} RootEven(j: Job, s: View, s1: View, root: Root, l: OTree, r: OTree)
    requires root.l in s1.cache && root.r in s1.cache
    requires (forall n: nat :: Even(j, s, n)) && forall n: nat :: BalancedBoth(j, s, s1, l, r, n)
    ensures forall n: nat :: Even(j, Stored(s1, root, l, r), n)
  {
    forall n: nat ensures Even(j, Stored(s1, root, l, r), n) {
      assert Even(j, s, n) && BalancedBoth(j, s, s1, l, r, n);
    }
  }

  lemma FirstView(j: Job, forest: seq<Root>) returns (s: View)
    requires Acyclic(j.nodes) && LeavesBare(j.nodes) && |j.count0| == |j.nodes|
    requires RefInv(j.nodes, j.count0, map[], {}, forest, multiset{}, {})
    ensures s.q == Pass(j.count0, map[], Empty) && Ok(j, s, forest, multiset{}, {}) && RanTo(j, s, [])
  {
    s := View(Pass(j.count0, map[], Empty), j.m0, map[], map[0 := 0], {}, []);
    assert forall n: nat :: Even(j, s, n);
  }

  lemma {:induction false} ForestOk(j: Job, forest: seq<Root>, k: nat) returns (s: View)
    requires Acyclic(j.nodes) && LeavesBare(j.nodes) && RootsOk(j.nodes, forest) && k <= |forest|
    requires |j.count0| == |j.nodes| && RefInv(j.nodes, j.count0, map[], {}, forest, multiset{}, {})
    ensures s.q == ForestVisited(j.nodes, j.count0, forest[..k])
    ensures Ok(j, s, forest[k..], multiset{}, {}) && RanTo(j, s, forest[..k])
  {
    if k == 0 {
      s := FirstView(j, forest);
      assert forest[0..] == forest && forest[..0] == [];
    } else {
      var s0 := ForestOk(j, forest, k - 1);
      assert forest[k - 1..] == [forest[k - 1]] + forest[k..];
      assert forest[..k] == forest[..k - 1] + [forest[k - 1]] && forest[..k][..k - 1] == forest[..k - 1];
      s := RootOk(j, s0, forest[k..], forest[k - 1]);
    }
  }

  /** Counts as they are before the pass. */
  lemma StartOk(nodes: seq<Node>, count: seq<nat>, forest: seq<Root>)
    requires Acyclic(nodes) && LeavesBare(nodes) && CountsOk(nodes, forest, count)
    ensures RefInv(nodes, count, map[], {}, forest, multiset{}, {})
  {
    forall p | 1 <= p < |nodes| ensures CountFits(nodes, count, map[], {}, forest, multiset{}, {}, p) {
    }
  }

  /** A root that is taken up makes its operands due. */
  lemma RootDue(nodes: seq<Node>, count: seq<int>, tmp: map<nat, nat>, done: set<nat>, root: Root, left: seq<Root>)
    requires RefInv(nodes, count, tmp, done, [root] + left, multiset{}, {})
    ensures RefInv(nodes, count, tmp, done, left, multiset{} + Operands(root.l, root.r), {})
  {
    var due := multiset{} + Operands(root.l, root.r);
    forall p | 1 <= p < |nodes| ensures CountFits(nodes, count, tmp, done, left, due, {}, p) {
      assert CountFits(nodes, count, tmp, done, [root] + left, multiset{}, {}, p);
      assert ([root] + left)[1..] == left;
    }
  }

  /** When every node had a use, nothing is left to read at the end. */
  lemma AllRead(nodes: seq<Node>, count: seq<int>, tmp: map<nat, nat>, done: set<nat>)
    requires RefInv(nodes, count, tmp, done, [], multiset{}, {})
    requires forall p :: 1 <= p < |nodes| && p !in done ==> count[p] > 0
    ensures forall p :: 1 <= p < |nodes| ==> p !in tmp
  {
    AllExpanded(nodes, count, tmp, done, 0);
    forall p | 1 <= p < |nodes| ensures p !in tmp {
      assert CountFits(nodes, count, tmp, done, [], multiset{}, {}, p);
    }
  }

  lemma {:induction false} AllExpanded(nodes: seq<Node>, count: seq<int>, tmp: map<nat, nat>, done: set<nat>, n: nat)
    requires RefInv(nodes, count, tmp, done, [], multiset{}, {}) && n <= |nodes|
    requires forall p :: 1 <= p < |nodes| && p !in done ==> count[p] > 0
    ensures forall p :: n <= p < |nodes| && p > 0 ==> p in done || IsLocalAddr(nodes[p].op)
    ensures forall p :: 0 < p < |nodes| ==> NodeRefs(nodes, |nodes|, done, p) == NodeRefs(nodes, n, done, p)
    decreases |nodes| - n
  {
    if n < |nodes| {
      AllExpanded(nodes, count, tmp, done, n + 1);
      if n > 0 {
        NodeRefsNone(nodes, n + 1, done, n);
        assert CountFits(nodes, count, tmp, done, [], multiset{}, {}, n);
      }
    }
  }

  /** The nodes that the output holds. */
  ghost function Held(nodes: seq<Node>, out: Code): set<nat> { set n: nat | n < |nodes| && OccursAll(out, n) > 0 }

  lemma {:induction false} NodeRefsAlike(nodes: seq<Node>, n: nat, a: set<nat>, b: set<nat>, p: nat)
    requires n <= |nodes| && forall i :: 0 <= i < n ==> (i in a <==> i in b)
    ensures NodeRefs(nodes, n, a, p) == NodeRefs(nodes, n, b, p)
  {
    if n > 0 {
      NodeRefsAlike(nodes, n - 1, a, b, p);
    }
  }

  /** Temporary t is read as often as its node is referred to by roots and nodes of the output. */
  ghost predicate ReadsExact(nodes: seq<Node>, count: seq<int>, out: Code, t: nat) {
    && t < |Owners(out)| && 0 < Owners(out)[t] < |nodes| == |count| && Owners(out)[t] in Held(nodes, out)
    && ReadsAll(out, t) + NodeRefs(nodes, |nodes|, Held(nodes, out), Owners(out)[t]) == count[Owners(out)[t]]
  }

  lemma {:induction false} TmpExact(j: Job, s: View, t: nat)
    requires Ok(j, s, [], multiset{}, {}) && (forall n: nat :: Even(j, s, n)) && t < |Owners(s.q.out)|
    ensures ReadsExact(j.nodes, j.count0, s.q.out, t)
  {
    var owners := Owners(s.q.out);
    assert Even(j, s, t) && Owned(s.q.count, s.q.tmp, s.done, {}, owners, t);
    assert CountFits(j.nodes, s.q.count, s.q.tmp, s.done, [], multiset{}, {}, owners[t]);
    forall i | 0 <= i < |j.nodes| ensures i in s.done <==> i in Held(j.nodes, s.q.out) {
      assert Even(j, s, i);
    }
    NodeRefsAlike(j.nodes, |j.nodes|, s.done, Held(j.nodes, s.q.out), owners[t]);
  }

  ghost predicate ReadAllUses(nodes: seq<Node>, count: seq<int>, out: Code, t: nat) {
    t < |Owners(out)| && Owners(out)[t] < |nodes| == |count| && ReadsAll(out, t) == count[Owners(out)[t]]
  }

  /** The output holds every node but local addresses, and reads every temporary as often as its node is used. */
  ghost predicate AllUsed(nodes: seq<Node>, count: seq<int>, out: Code) {
    && (forall p: nat :: 1 <= p < |nodes| ==>
          OccursAll(out, p) == 1 || (nodes[p].op.Addr? && nodes[p].op.sym.scope != Global))
    && forall t: nat :: t < |Owners(out)| ==> ReadAllUses(nodes, count, out, t)
  }

  /** Every node was used, so the output holds it, and every temporary is read as often as counted. */
  lemma {:induction false} AllHeld(j: Job, s: View)
    requires Ok(j, s, [], multiset{}, {}) && forall n: nat :: Even(j, s, n)
    requires forall p :: 1 <= p < |j.nodes| ==> j.count0[p] > 0
    ensures AllUsed(j.nodes, j.count0, s.q.out)
  {
    AllRead(j.nodes, s.q.count, s.q.tmp, s.done);
    AllExpanded(j.nodes, s.q.count, s.q.tmp, s.done, 0);
    forall p: nat | 1 <= p < |j.nodes|
      ensures OccursAll(s.q.out, p) == 1 || (j.nodes[p].op.Addr? && j.nodes[p].op.sym.scope != Global)
    {
      assert Even(j, s, p);
    }
    forall t: nat | t < |Owners(s.q.out)| ensures ReadAllUses(j.nodes, j.count0, s.q.out, t) {
      assert Even(j, s, t) && Owned(s.q.count, s.q.tmp, s.done, {}, Owners(s.q.out), t);
    }
  }

  /**
   The nodes that go into temporaries are those of the output that are used more than once; addresses of locals and
   parameters are not among them.
   */
  ghost predicate TmpsNeeded(nodes: seq<Node>, count: seq<int>, out: Code) {
    && (forall p: nat :: p < |nodes| == |count| && OccursAll(out, p) > 0 ==> (p in Owners(out) <==> count[p] > 1))
    && forall t: nat :: t < |Owners(out)| ==> NoLocal(nodes, Owners(out)[t])
  }

  predicate NoLocal(nodes: seq<Node>, p: nat) { p < |nodes| && !(nodes[p].op.Addr? && nodes[p].op.sym.scope != Global) }

  lemma {:induction false} TmpsAreNeeded(j: Job, s: View)
    requires Ok(j, s, [], multiset{}, {}) && forall n: nat :: Even(j, s, n)
    ensures TmpsNeeded(j.nodes, j.count0, s.q.out)
  {
    var owners := Owners(s.q.out);
    forall p: nat | p < |j.nodes| && OccursAll(s.q.out, p) > 0 ensures p in owners <==> j.count0[p] > 1 {
      assert Even(j, s, p);
    }
    forall t: nat | t < |owners| ensures NoLocal(j.nodes, owners[t]) {
      assert Owned(s.q.count, s.q.tmp, s.done, {}, owners, t) && owners[t] in owners;
    }
  }

  /** What the output computes, whatever the operators mean and the memory holds. */
  lemma {:induction false} ForestRuns(nodes: seq<Node>, count: seq<nat>, forest: seq<Root>, sem: Sem, m0: Memory)
    requires Acyclic(nodes) && LeavesBare(nodes) && RootsOk(nodes, forest) && CountsOk(nodes, forest, count)
    ensures RunOut(sem, nodes, ForestVisited(nodes, count, forest).out, m0).0 == RunForest(sem, nodes, forest, m0).0
  {
    StartOk(nodes, count, forest);
    var s := ForestOk(Job(nodes, count, sem, m0), forest, |forest|);
    assert forest[..|forest|] == forest;
  }

  /** How the output is made up. */
  lemma {:induction false} ForestTidy(nodes: seq<Node>, count: seq<nat>, forest: seq<Root>)
    requires Acyclic(nodes) && LeavesBare(nodes) && RootsOk(nodes, forest) && CountsOk(nodes, forest, count)
    ensures var out := ForestVisited(nodes, count, forest).out;
      && SetBeforeRead(out) && MirrorsForest(nodes, out, forest) && (forall n: nat :: OccursAll(out, n) <= 1)
      && (forall t: nat :: t < |Owners(out)| ==> ReadsExact(nodes, count, out, t)) && TmpsNeeded(nodes, count, out)
      && ((forall p :: 1 <= p < |nodes| ==> count[p] > 0) ==> AllUsed(nodes, count, out))
  {
    StartOk(nodes, count, forest);
    var j := Job(nodes, count, Sem((s: Sym) => 0, (o, x) => 0, (o, x, y) => 0), map[]);
    var s := ForestOk(j, forest, |forest|);
    assert forest[..|forest|] == forest && forest[|forest|..] == [];
    forall n: nat ensures OccursAll(s.q.out, n) <= 1 {
      assert Even(j, s, n);
    }
    forall t: nat | t < |Owners(s.q.out)| ensures ReadsExact(nodes, count, s.q.out, t) {
      TmpExact(j, s, t);
    }
    TmpsAreNeeded(j, s);
    if forall p :: 1 <= p < |nodes| ==> count[p] > 0 {
      AllHeld(j, s);
    }
  }

  // -------------------------------------------------------------------- the pass in place

  class Undagger {
    const nodes: seq<Node>
    var count: seq<int>
    var tmp: map<nat, nat>      // the temporary of a node while uses of it are left
    var ntemps: nat
    var out: Code

    ghost predicate Valid()
      reads this
    {
      Acyclic(nodes) && |count| == |nodes| && ntemps == |Owners(out)|
    }

    ghost function State(): Pass reads this { Pass(count, tmp, out) }

    constructor (nodes: seq<Node>, count: seq<int>)
      requires Acyclic(nodes) && |count| == |nodes|
      ensures Valid() && this.nodes == nodes && State() == Pass(count, map[], Empty)
    {
      this.nodes, this.count, tmp, ntemps, out := nodes, count, map[], 0, Empty;
    }

    /** Reads the temporary of p; the last use releases it. */
    method TmpNode(p: nat) returns (t: OTree)
      requires Valid() && p < |nodes| && p in tmp
      modifies this
      ensures Valid() && (State(), t) == ReadTmp(old(State()), p)
    {
      t := Tmp(tmp[p]);
      count := count[p := count[p] - 1];
      if count[p] == 0 {
        tmp := tmp - {p};
      }
    }

    /** Replaces one use of node p by a tree. */
    method Visit(p: nat) returns (t: OTree)
      requires Valid() && p < |nodes|
      modifies this
      ensures Valid() && (State(), t) == Visited(nodes, old(State()), p)
      decreases p, 2
    {
      if p == 0 {
        t := Null;
      } else if p in tmp {
        t := TmpNode(p);
      } else if count[p] <= 1 {
        t := Rebuild(p);
      } else if IsLocalAddr(nodes[p].op) {
        t := Copy(nodes[p].op.sym);
      } else {
        var e := Rebuild(p);
        tmp, out, ntemps := tmp[p := ntemps], Then(out, SetTmp(ntemps, e)), ntemps + 1;
        t := TmpNode(p);
      }
    }

    /** Visits the operands of p and puts the results in place. */
    method Rebuild(p: nat) returns (t: OTree)
      requires Valid() && 0 < p < |nodes|
      modifies this
      ensures Valid() && (State(), t) == Kept(nodes, old(State()), p)
      decreases p, 0
    {
      var l := Visit(nodes[p].l);
      var r := Visit(nodes[p].r);
      t := Keep(p, l, r);
    }

    /** Replaces both operands of a root and emits it. */
    method DoRoot(root: Root)
      requires Valid() && root.l < |nodes| && root.r < |nodes|
      modifies this
      ensures Valid() && State() == RootVisited(nodes, old(State()), root)
    {
      var l := Visit(root.l);
      var r := Visit(root.r);
      out := Then(out, Store(l, r));
    }
  }

  /**
   The whole pass. Under every meaning and from every memory the output computes what the forest computes. It stores
   what the roots store, in their order, sets every temporary once and before it is read, and holds every node at most
   once; a temporary is read once for every reference to its node from a root or from a node that the output holds,
   which is as often as counted if every node was used at all.
   */
  method UndagForest(nodes: seq<Node>, count: seq<nat>, forest: seq<Root>) returns (out: Code)
    requires Acyclic(nodes) && LeavesBare(nodes) && RootsOk(nodes, forest) && CountsOk(nodes, forest, count)
    ensures out == ForestVisited(nodes, count, forest).out
    ensures forall sem, m0 :: RunOut(sem, nodes, out, m0).0 == RunForest(sem, nodes, forest, m0).0
    ensures SetBeforeRead(out) && MirrorsForest(nodes, out, forest) && forall n: nat :: OccursAll(out, n) <= 1
    ensures (forall t: nat :: t < |Owners(out)| ==> ReadsExact(nodes, count, out, t)) && TmpsNeeded(nodes, count, out)
    ensures (forall p :: 1 <= p < |nodes| ==> count[p] > 0) ==> AllUsed(nodes, count, out)
  {
    var u := new Undagger(nodes, count);
    for i := 0 to |forest|
      invariant u.Valid() && u.nodes == nodes && RootsOk(nodes, forest[..i])
      invariant u.State() == ForestVisited(nodes, count, forest[..i])
    {
      assert forest[..i + 1][..i] == forest[..i];
      u.DoRoot(forest[i]);
    }
    assert forest[..|forest|] == forest;
    out := u.out;
    ForestTidy(nodes, count, forest);
    forall sem, m0 ensures RunOut(sem, nodes, out, m0).0 == RunForest(sem, nodes, forest, m0).0 {
      ForestRuns(nodes, count, forest, sem, m0);
    }
  }

  /**
   Value numbering and undoing the sharing together. The trees that come out do what the block does under every meaning
   that keeps its variables apart. They hold every node exactly once, except addresses of locals, which are repeated
   instead of being kept, and they read every temporary exactly as often as its node is referred to.
   */
  method CompileBlock(block: seq<Assignment>, hash: Node -> nat)
    returns (nodes: seq<Node>, count: seq<nat>, out: Code)
    requires AllShaped(block)
    ensures nodes == DagOf(hash, block).nodes && count == DagOf(hash, block).count
    ensures forall sem, named, m0 :: Separate(sem, named) && AdmitsAll(block, named) ==>
      RunOut(sem, nodes, out, m0).0 == ExecAll(sem, block, m0)
    ensures SetBeforeRead(out) && MirrorsForest(nodes, out, DagOf(hash, block).forest) && AllUsed(nodes, count, out)
    ensures TmpsNeeded(nodes, count, out)
  {
    var forest;
    nodes, count, forest := BuildBlock(block, hash);
    out := UndagForest(nodes, count, forest);
    forall sem, named, m0 | Separate(sem, named) && AdmitsAll(block, named)
      ensures RunOut(sem, nodes, out, m0).0 == ExecAll(sem, block, m0)
    {
      assert RunsAlike(sem, nodes, forest, block, m0);
    }
  }
}
