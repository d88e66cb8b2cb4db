/**
 That value numbering does share: an expression that was listed before is found
 again, node for node, until a store may have changed a variable that it loads.
 */
module Sharing {
  import opened Dag

  /** The search of the table for the content of node i finds node i. */
  ghost predicate InTable(hash: Node -> nat, d: Dag, i: nat) {
    |d.buckets| == NBUCKETS && i < |d.nodes| && FindIn(d.nodes, d.buckets[hash(d.nodes[i]) % NBUCKETS], d.nodes[i]) == i
  }

  /** Node id and the nodes below it are those of the expression, and all of them are in the table. */
  ghost predicate Held(hash: Node -> nat, d: Dag, e: Expr, id: nat)
    decreases e
  {
    match e
    case Nil => id == 0
    case Tree(op, l, r) =>
      && 0 < id < |d.nodes| && d.nodes[id].op == op && InTable(hash, d, id)
      && Held(hash, d, l, d.nodes[id].l) && Held(hash, d, r, d.nodes[id].r)
  }

  /** Listing an expression whose nodes are in the table makes nothing new. */
  lemma {:induction false} HeldListed(hash: Node -> nat, d: Dag, e: Expr, id: nat)
    requires DagOk(d) && WellShaped(e) && Held(hash, d, e, id)
    ensures List(hash, d, e) == (d, id)
    decreases e
  {
    match e
    case Nil =>
    case Tree(op, l, r) =>
      HeldListed(hash, d, l, d.nodes[id].l);
      HeldListed(hash, d, r, d.nodes[id].r);
      ListTree(hash, d, e);
      assert d.nodes[id] == Node(op, d.nodes[id].l, d.nodes[id].r);
  }

  lemma {:induction false} FindMore(nodes: seq<Node>, n: Node, chain: seq<nat>, x: Node)
    requires forall k :: 0 <= k < |chain| ==> chain[k] < |nodes|
    ensures FindIn(nodes + [n], chain, x) == FindIn(nodes, chain, x)
  {
    if chain != [] {
      FindMore(nodes, n, chain[1..], x);
    }
  }

  lemma LookInTable(hash: Node -> nat, d: Dag, n: Node, i: nat)
    requires DagOk(d) && Fitting(d, n) && InTable(hash, d, i) && i > 0
    ensures InTable(hash, Look(hash, d, n).0, i)
  {
    var d' := Look(hash, d, n).0;
    if d' != d {
      var b := hash(n) % NBUCKETS;
      var x := d.nodes[i];
      var c := hash(x) % NBUCKETS;
      FindMore(d.nodes, n, d.buckets[c], x);
      if c == b {
        assert d'.buckets[b] == [|d.nodes|] + d.buckets[b] && d'.buckets[b][1..] == d.buckets[b];
        assert n != x;
      }
    }
  }

  lemma LookNew(hash: Node -> nat, d: Dag, n: Node)
    requires DagOk(d) && Fitting(d, n)
    ensures InTable(hash, Look(hash, d, n).0, Look(hash, d, n).1)
  {
    var (d', id) := Look(hash, d, n);
    var b := hash(n) % NBUCKETS;
    if FindIn(d.nodes, d.buckets[b], n) == 0 {
      assert d'.buckets[b][0] == |d.nodes|;
    } else {
      FoundIn(d.nodes, d.buckets[b], n);
    }
  }

  /** Looking other nodes up leaves the expression where it is. */
  lemma {:induction false} LookHeld(hash: Node -> nat, d: Dag, n: Node, e: Expr, id: nat)
    requires DagOk(d) && Fitting(d, n) && Held(hash, d, e, id)
    ensures Held(hash, Look(hash, d, n).0, e, id)
    decreases e
  {
    match e
    case Nil =>
    case Tree(op, l, r) =>
      LookInTable(hash, d, n, id);
      LookHeld(hash, d, n, l, d.nodes[id].l);
      LookHeld(hash, d, n, r, d.nodes[id].r);
  }

  lemma {:induction false} ListHeld(hash: Node -> nat, d: Dag, f: Expr, e: Expr, id: nat)
    requires DagOk(d) && WellShaped(f) && Held(hash, d, e, id)
    ensures Held(hash, List(hash, d, f).0, e, id)
    decreases f
  {
    match f
    case Nil =>
    case Tree(op, l, r) =>
      ListHeld(hash, d, l, e, id);
      var (d1, i) := List(hash, d, l);
      ListHeld(hash, d1, r, e, id);
      var (d2, j) := List(hash, d1, r);
      ListTree(hash, d, f);
      LookHeld(hash, d2, Node(op, i, j), e, id);
  }

  /** What was just listed is in the table. */
  lemma {:induction false} ListedHeld(hash: Node -> nat, d: Dag, e: Expr)
    requires DagOk(d) && WellShaped(e)
    ensures Held(hash, List(hash, d, e).0, e, List(hash, d, e).1)
    decreases e
  {
    match e
    case Nil =>
    case Tree(op, l, r) =>
      ListedHeld(hash, d, l);
      var (d1, i) := List(hash, d, l);
      ListedHeld(hash, d1, r);
      ListHeld(hash, d1, r, l, i);
      var (d2, j) := List(hash, d1, r);
      ListTree(hash, d, e);
      LookHeld(hash, d2, Node(op, i, j), l, i);
      LookHeld(hash, d2, Node(op, i, j), r, j);
      LookNew(hash, d2, Node(op, i, j));
  }

  /** An expression listed twice in a row is one node. */
  lemma {:induction false} ListAgain(hash: Node -> nat, d: Dag, e: Expr)
    requires DagOk(d) && WellShaped(e)
    ensures var (d', id) := List(hash, d, e); List(hash, d', e) == (d', id)
  {
    var (d', id) := List(hash, d, e);
    ListedHeld(hash, d, e);
    HeldListed(hash, d', e, id);
  }

  // ---------------------------------------------------------------------- stores

  /** The expression loads variables by name only, and p is not among them. */
  predicate Spared(e: Expr, p: Sym) {
    e.Tree? ==>
      && (e.op.Indir? ==> e.l.Tree? && e.l.op.Addr? && e.l.op.sym != p)
      && Spared(e.l, p) && Spared(e.r, p)
  }

  lemma {:induction false} FindSurvivor(nodes: seq<Node>, p: Sym, chain: seq<nat>, n: Node)
    requires var i := FindIn(nodes, chain, n); i != 0 && !Kills(nodes, p, i)
    ensures FindIn(nodes, Survivors(nodes, p, chain), n) == FindIn(nodes, chain, n)
  {
    if !(chain[0] < |nodes| && nodes[chain[0]] == n) {
      FindSurvivor(nodes, p, chain[1..], n);
    }
    var rest := Survivors(nodes, p, chain[1..]);
    assert ([chain[0]] + rest)[1..] == rest;
  }

  lemma {:induction false} KilledHeld(hash: Node -> nat, d: Dag, p: Sym, e: Expr, id: nat)
    requires DagOk(d) && Held(hash, d, e, id) && Spared(e, p)
    ensures Held(hash, d.(buckets := Killed(d.nodes, p, d.buckets)), e, id)
    decreases e
  {
    match e
    case Nil =>
    case Tree(op, l, r) =>
      KilledHeld(hash, d, p, l, d.nodes[id].l);
      KilledHeld(hash, d, p, r, d.nodes[id].r);
      FindSurvivor(d.nodes, p, d.buckets[hash(d.nodes[id]) % NBUCKETS], d.nodes[id]);
  }

  /** A store by name to an ordinary variable that the expression does not load leaves all its nodes to be found. */
  lemma {:induction false} StoreHeld(hash: Node -> nat, d: Dag, a: Assignment, e: Expr, id: nat)
    requires DagOk(d) && Shaped(a) && a.lhs.Tree? && a.lhs.op.Addr? && !a.lhs.op.sym.computed
    requires Held(hash, d, e, id) && Spared(e, a.lhs.op.sym)
    ensures Held(hash, Assigned(hash, d, a), e, id)
  {
    ListHeld(hash, d, a.lhs, e, id);
    var (d1, l) := List(hash, d, a.lhs);
    ListHeld(hash, d1, a.rhs, e, id);
    var d2 := Rooted(hash, d, a).0;
    SameHeld(hash, List(hash, d1, a.rhs).0, d2, e, id);
    KilledHeld(hash, d2, a.lhs.op.sym, e, id);
  }

  lemma {:induction false} SameHeld(hash: Node -> nat, d: Dag, d': Dag, e: Expr, id: nat)
    requires Held(hash, d, e, id) && d'.nodes == d.nodes && d'.buckets == d.buckets
    ensures Held(hash, d', e, id)
    decreases e
  {
    match e
    case Nil =>
    case Tree(_, l, r) =>
      SameHeld(hash, d, d', l, d.nodes[id].l);
      SameHeld(hash, d, d', r, d.nodes[id].r);
  }

  /** v := e; ... e ...: the second e is the node of the first, unless it loads v or loads through a pointer. */
  lemma ComputedOnce(hash: Node -> nat, d: Dag, a: Assignment)
    requires DagOk(d) && Shaped(a) && a.lhs.Tree? && a.lhs.op.Addr? && !a.lhs.op.sym.computed
    requires Spared(a.rhs, a.lhs.op.sym)
    ensures var d' := Assigned(hash, d, a); List(hash, d', a.rhs) == (d', Rooted(hash, d, a).1.r)
  {
    var (d1, l) := List(hash, d, a.lhs);
    ListedHeld(hash, d1, a.rhs);
    var (d2, r) := List(hash, d1, a.rhs);
    var d3 := Rooted(hash, d, a).0;
    SameHeld(hash, d2, d3, a.rhs, r);
    KilledHeld(hash, d3, a.lhs.op.sym, a.rhs, r);
    HeldListed(hash, Assigned(hash, d, a), a.rhs, r);
  }

  /** The nodes of the expression are found in the dag of the block. */
  ghost predicate HeldAfter(hash: Node -> nat, block: seq<Assignment>, e: Expr, id: nat) {
    AllShaped(block) && Held(hash, DagOf(hash, block), e, id)
  }

  lemma HeldSnoc(hash: Node -> nat, block: seq<Assignment>, a: Assignment, e: Expr, id: nat)
    requires HeldAfter(hash, block, e, id) && Spares(a, e)
    ensures HeldAfter(hash, block + [a], e, id)
  {
    DagSnoc(hash, block, a);
    StoreHeld(hash, DagOf(hash, block), a, e, id);
  }

  /** A store by name to an ordinary variable that the expression does not load. */
  ghost predicate Spares(a: Assignment, e: Expr) { Shaped(a) && ByName(a) && Spared(e, a.lhs.op.sym) }

  /** What every step keeps, any number of steps keeps. */
  lemma {:induction false} Steps<T(!new)>(p: seq<T> -> bool, ok: T -> bool, done: seq<T>, more: seq<T>)
    requires p(done) && forall x :: x in more ==> ok(x)
    requires forall s, x :: p(s) && ok(x) ==> p(s + [x])
    ensures p(done + more)
    decreases |more|
  {
    if more == [] {
      assert done + more == done;
    } else {
      var n := |more| - 1;
      Steps(p, ok, done, more[..n]);
      assert (done + more[..n]) + [more[n]] == done + more;
    }
  }

  /** Storing to other ordinary variables any number of times, too, leaves the expression to be found. */
  lemma BlockHeld(hash: Node -> nat, block: seq<Assignment>, more: seq<Assignment>, e: Expr, id: nat)
    requires HeldAfter(hash, block, e, id) && forall a :: a in more ==> Spares(a, e)
    ensures HeldAfter(hash, block + more, e, id)
  {
    ghost var p := b => HeldAfter(hash, b, e, id);
    ghost var ok := a => Spares(a, e);
    forall b, a | p(b) && ok(a) ensures p(b + [a]) {
      HeldSnoc(hash, b, a, e, id);
    }
    Steps(p, ok, block, more);
  }
}
