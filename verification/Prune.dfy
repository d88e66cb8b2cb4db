/**
 Temporaries that only hold a variable, or a global's address, are not worth a
 register: the assignment is omitted, and every read of the temporary becomes a
 fresh load of the variable. This is right because a load is shared only while it
 is current.
 */
module Prune {
  import opened Dag
  import opened Undag

  // --------------------------------------------------------- shared loads are current

  /** If temporary u holds a load of a variable by name, it has the value of the variable now. */
  ghost predicate TmpNow(sem: Sem, nodes: seq<Node>, owners: seq<nat>, m: Memory, tmps: map<nat, int>, u: nat) {
    u < |owners| && LoadsVar(nodes, owners[u]) ==> u in tmps && tmps[u] == Load(m, sem.addr(VarOf(nodes, owners[u])))
  }

  ghost predicate Fresh(sem: Sem, nodes: seq<Node>, owners: seq<nat>, m: Memory, tmps: map<nat, int>, t: OTree) {
    match t
    case Tmp(u) => TmpNow(sem, nodes, owners, m, tmps, u)
    case Keep(_, l, r) => Fresh(sem, nodes, owners, m, tmps, l) && Fresh(sem, nodes, owners, m, tmps, r)
    case _ => true
  }

  /** Wherever the output reads a temporary for a load by name, the load would give the same value there. */
  ghost predicate FreshOut(sem: Sem, nodes: seq<Node>, out: Code, m0: Memory) {
    match out
    case Empty => true
    case Then(prev, last) =>
      && FreshOut(sem, nodes, prev, m0)
      && var (m, tmps) := RunOut(sem, nodes, prev, m0);
      match last
      case SetTmp(_, e) => Fresh(sem, nodes, Owners(prev), m, tmps, e)
      case Store(l, r) => Fresh(sem, nodes, Owners(prev), m, tmps, l) && Fresh(sem, nodes, Owners(prev), m, tmps, r)
  }

  lemma {:induction false} FreshMore(sem: Sem, nodes: seq<Node>, owners: seq<nat>, m: Memory, tmps: map<nat, int>,
                                     owners': seq<nat>, tmps': map<nat, int>, t: OTree)
    requires Fresh(sem, nodes, owners, m, tmps, t) && ReadsBelow(t, |owners|)
    requires owners <= owners' && Grows(|owners|, tmps, |owners'|, tmps')
    ensures Fresh(sem, nodes, owners', m, tmps', t)
  {
    match t
    case Keep(_, l, r) =>
      FreshMore(sem, nodes, owners, m, tmps, owners', tmps', l);
      FreshMore(sem, nodes, owners, m, tmps, owners', tmps', r);
    case _ =>
  }

  /** One root is being done: the values of all nodes, and what had been evaluated before it. */
  datatype Phase = Phase(val: seq<int>, c: map<nat, int>, root: Root)

  predicate Below(ph: Phase, p: nat) { p <= ph.root.l || p <= ph.root.r }

  ghost predicate InVal(val: seq<int>, cache: map<nat, int>) {
    forall i :: i in cache ==> i < |val| && cache[i] == val[i]
  }

  ghost predicate InPhase(j: Job, ph: Phase, s: View) {
    && |ph.val| == |j.nodes| && ph.c.Keys <= s.cache.Keys && InVal(ph.val, s.cache)
    && (forall i: nat :: Below(ph, i) && i !in ph.c ==> NodeNow(j.sem, j.nodes, ph.val, s.m, i))
    && FreshOut(j.sem, j.nodes, s.q.out, j.m0)
  }

  lemma {:induction false} CEvalIn(j: Job, ph: Phase, id: nat, m: Memory, cache: map<nat, int>)
    requires Acyclic(j.nodes) && id < |j.nodes| == |ph.val| && 0 in cache && ph.c.Keys <= cache.Keys
    requires InVal(ph.val, cache) && Below(ph, id)
    requires forall i: nat :: Below(ph, i) && i !in ph.c ==> NodeNow(j.sem, j.nodes, ph.val, m, i)
    ensures InVal(ph.val, CEval(j.sem, j.nodes, id, m, cache))
  {
    if id !in cache {
      var n := j.nodes[id];
      assert NodeNow(j.sem, j.nodes, ph.val, m, id);
      CEvalIn(j, ph, n.l, m, cache);
      CEvalIn(j, ph, n.r, m, CEval(j.sem, j.nodes, n.l, m, cache));
    }
  }

  /** The output of a pass and a tree in hand are fresh. */
  ghost predicate FreshPass(j: Job, q: Pass, m: Memory, t: OTree) {
    && FreshOut(j.sem, j.nodes, q.out, j.m0)
    && Fresh(j.sem, j.nodes, Owners(q.out), m, RunOut(j.sem, j.nodes, q.out, j.m0).1, t)
  }

  lemma {:induction false} VisitFresh(j: Job, ph: Phase, s: View, left: seq<Root>, due: multiset<nat>, open: set<nat>,
                                      p: nat)
    requires Ok(j, s, left, due, open) && p < |j.nodes| && (p == 0 || p in due) && forall o :: o in open ==> p < o
    requires InPhase(j, ph, s) && Below(ph, p) && LoadNow(j.sem, j.nodes, ph.val, s.m, p)
    ensures var (q, t) := Visited(j.nodes, s.q, p); FreshPass(j, q, s.m, t)
    decreases p, 2
  {
    if p == 0 || p in s.q.tmp {
    } else if s.q.count[p] <= 1 {
      KeptFresh(j, ph, s, left, due, open, p);
    } else if !IsLocalAddr(j.nodes[p].op) {
      KeptFresh(j, ph, s, left, due, open, p);
      SpillFresh(j, ph, s, left, due, open, p);
    }
  }

  lemma {:induction false} SpillFresh(j: Job, ph: Phase, s: View, left: seq<Root>, due: multiset<nat>, open: set<nat>,
                                      p: nat)
    requires Ok(j, s, left, due, open) && 0 < p < |j.nodes| && p in due && p !in s.q.tmp
    requires (forall o :: o in open ==> p < o) && !IsLocalAddr(j.nodes[p].op)
    requires InPhase(j, ph, s) && Below(ph, p) && LoadNow(j.sem, j.nodes, ph.val, s.m, p)
    requires var (q1, e) := Kept(j.nodes, s.q, p); FreshPass(j, q1, s.m, e)
    ensures var (q1, e) := Kept(j.nodes, s.q, p);
      var (q, t) := ReadTmp(SetTo(q1, p, e), p);
      FreshPass(j, q, s.m, t)
  {
    var (q1, e) := Kept(j.nodes, s.q, p);
    var s1 := KeptOk(j, s, left, due, open, p);
    CEvalIn(j, ph, p, s.m, s.cache);
    var u := |Owners(q1.out)|;
    assert TmpNow(j.sem, j.nodes, Owners(q1.out) + [p], s.m, s1.tmps[u := s1.cache[p]], u);
  }

  lemma {:induction false} KeptFresh(j: Job, ph: Phase, s: View, left: seq<Root>, due: multiset<nat>, open: set<nat>,
                                     p: nat)
    requires Ok(j, s, left, due, open) && 0 < p < |j.nodes| && p in due && p !in s.q.tmp
    requires (forall o :: o in open ==> p < o) && (s.q.count[p] <= 1 || !IsLocalAddr(j.nodes[p].op))
    requires InPhase(j, ph, s) && Below(ph, p)
    ensures var (q, t) := Kept(j.nodes, s.q, p); FreshPass(j, q, s.m, t)
    decreases p, 0
  {
    MarkStep(j, s, left, due, open, p);
    if p in ph.c {
      assert IsLocalAddr(j.nodes[p].op) && j.nodes[p].l == j.nodes[p].r == 0;
    } else {
      assert NodeNow(j.sem, j.nodes, ph.val, s.m, p);
    }
    BothFresh(j, ph, s.(done := s.done + {p}), left, due - multiset{p}, open + {p}, j.nodes[p].l, j.nodes[p].r);
  }

  lemma {:induction false} BothFresh(j: Job, ph: Phase, s: View, left: seq<Root>, due: multiset<nat>, open: set<nat>,
                                     a: nat, b: nat)
    requires a < |j.nodes| && b < |j.nodes| && forall o :: o in open ==> a < o && b < o
    requires Ok(j, s, left, due + Operands(a, b), open) && InPhase(j, ph, s) && Below(ph, a) && Below(ph, b)
    requires LoadNow(j.sem, j.nodes, ph.val, s.m, a) && LoadNow(j.sem, j.nodes, ph.val, s.m, b)
    ensures var (q, l, r) := Both(j.nodes, s.q, a, b); FreshPass(j, q, s.m, l) && FreshPass(j, q, s.m, r)
    decreases if a > b then a else b, 3
  {
    var (q1, l) := Visited(j.nodes, s.q, a);
    VisitFresh(j, ph, s, left, due + Operands(a, b), open, a);
    var s1 := VisitOk(j, s, left, due + Operands(a, b), open, a);
    OperandsLess(due, a, b);
    PhaseGoesOn(j, ph, s, s1, a);
    VisitFresh(j, ph, s1, left, due + Operands(0, b), open, b);
    var s2 := VisitOk(j, s1, left, due + Operands(0, b), open, b);
    StillFresh(j, s1, s2, l);
  }

  /** A tree in hand stays fresh while the output grows. */
  lemma {:induction false} StillFresh(j: Job, s1: View, s2: View, l: OTree)
    requires RunOut(j.sem, j.nodes, s1.q.out, j.m0) == (s1.m, s1.tmps) && ReadsBelow(l, Temps(s1))
    requires RunOut(j.sem, j.nodes, s2.q.out, j.m0) == (s2.m, s2.tmps) && Extends(s1, s2)
    requires FreshPass(j, s1.q, s1.m, l) && FreshOut(j.sem, j.nodes, s2.q.out, j.m0)
    ensures FreshPass(j, s2.q, s1.m, l)
  {
    FreshMore(j.sem, j.nodes, Owners(s1.q.out), s1.m, s1.tmps, Owners(s2.q.out), s2.tmps, l);
  }

  lemma {:induction false} PhaseGoesOn(j: Job, ph: Phase, s: View, s': View, p: nat)
    requires Acyclic(j.nodes) && p < |j.nodes| && 0 in s.cache && InPhase(j, ph, s) && Below(ph, p) && s'.m == s.m
    requires s'.cache == CEval(j.sem, j.nodes, p, s.m, s.cache) && FreshOut(j.sem, j.nodes, s'.q.out, j.m0)
    ensures InPhase(j, ph, s')
  {
    CEvalIn(j, ph, p, s.m, s.cache);
  }

  lemma {:induction false} ForestFresh(j: Job, forest: seq<Root>, val: seq<int>, k: nat)
    requires Acyclic(j.nodes) && LeavesBare(j.nodes) && RootsOk(j.nodes, forest) && k <= |forest|
    requires |j.count0| == |j.nodes| && RefInv(j.nodes, j.count0, map[], {}, forest, multiset{}, {})
    requires Phased(j.sem, j.nodes, forest, j.m0, val)
    ensures FreshOut(j.sem, j.nodes, ForestVisited(j.nodes, j.count0, forest[..k]).out, j.m0)
  {
    if k > 0 {
      var root := forest[k - 1];
      assert forest[k - 1..] == [root] + forest[k..] && forest[..k][..k - 1] == forest[..k - 1];
      ForestFresh(j, forest, val, k - 1);
      var s := ForestOk(j, forest, k - 1);
      assert PhaseAt(j.sem, j.nodes, forest, j.m0, val, k - 1);
      RootFresh(j, Phase(val, s.cache, root), s, forest[k..]);
    }
  }

  lemma {:induction false} RootFresh(j: Job, ph: Phase, s: View, left: seq<Root>)
    requires Ok(j, s, [ph.root] + left, multiset{}, {}) && ph.root.l < |j.nodes| && ph.root.r < |j.nodes|
    requires InPhase(j, ph, s)
    requires LoadNow(j.sem, j.nodes, ph.val, s.m, ph.root.l) && LoadNow(j.sem, j.nodes, ph.val, s.m, ph.root.r)
    ensures FreshOut(j.sem, j.nodes, RootVisited(j.nodes, s.q, ph.root).out, j.m0)
  {
    RootDue(j.nodes, s.q.count, s.q.tmp, s.done, ph.root, left);
    BothFresh(j, ph, s, left, multiset{}, {}, ph.root.l, ph.root.r);
    var s1 := BothOk(j, s, left, multiset{}, {}, ph.root.l, ph.root.r);
  }
  // ------------------------------------------------------------------ leaving them out

  /** Where variables were put: temporaries that are not in a register, and variables that are. */
  datatype Storage = Storage(auto: nat -> bool, register: Sym -> bool)

  /** The variables and addresses that stand for temporaries left out. */
  type Standins = map<nat, OTree>

  function Replaced(rep: Standins, t: OTree): OTree {
    match t
    case Tmp(u) => if u in rep then rep[u] else t
    case Keep(id, l, r) => Keep(id, Replaced(rep, l), Replaced(rep, r))
    case _ => t
  }

  function ReplacedStmt(rep: Standins, s: OStmt): OStmt {
    match s
    case SetTmp(t, e) => SetTmp(t, Replaced(rep, e))
    case Store(l, r) => Store(Replaced(rep, l), Replaced(rep, r))
  }

  predicate IsAddress(nodes: seq<Node>, t: OTree) {
    t.Copy? || (t.Keep? && t.id < |nodes| && nodes[t.id].op.Addr?)
  }

  function AddressOf(nodes: seq<Node>, t: OTree): Sym
    requires IsAddress(nodes, t)
  {
    if t.Copy? then t.sym else nodes[t.id].op.sym
  }

  datatype Option = None | Some(t: OTree)

  /** What stands for temporary t, if setting it to e can be left out. */
  function Standin(nodes: seq<Node>, st: Storage, t: nat, e: OTree): Option {
    if !e.Keep? || e.id >= |nodes| then None
    else if nodes[e.id].op.Indir? && IsAddress(nodes, e.l) then
      var x := AddressOf(nodes, e.l);
      if st.register(x) || st.auto(t) then Some(Reload(x)) else None
    else if nodes[e.id].op.Addr? && nodes[e.id].op.sym.scope == Global && st.auto(t) then Some(Copy(nodes[e.id].op.sym))
    else None
  }

  /** One statement: reads of temporaries left out are replaced, and then it is kept or left out itself. */
  function Step(nodes: seq<Node>, st: Storage, out: Code, rep: Standins, s: OStmt): (Code, Standins) {
    var s' := ReplacedStmt(rep, s);
    var x := if s'.SetTmp? then Standin(nodes, st, s'.t, s'.e) else None;
    if x.Some? then (out, rep[s'.t := x.t]) else (Then(out, s'), rep)
  }

  function Pruned(nodes: seq<Node>, st: Storage, out: Code): (Code, Standins) {
    match out
    case Empty => (Empty, map[])
    case Then(prev, last) =>
      var (c, rep) := Pruned(nodes, st, prev);
      Step(nodes, st, c, rep, last)
  }

  // ----------------------------------------------------------------- what it preserves

  /** What stands for temporary u is a load of the variable that its node loads, or the address that its node is. */
  predicate StandsIn(nodes: seq<Node>, owners: seq<nat>, rep: Standins, u: nat)
    requires u in rep
  {
    u < |owners| && owners[u] < |nodes| &&
    match rep[u]
    case Reload(x) => LoadsVar(nodes, owners[u]) && VarOf(nodes, owners[u]) == x
    case Copy(x) => nodes[owners[u]].op == Addr(x)
    case _ => false
  }

  /** And it has the value that the temporary would have. */
  ghost predicate StandsFor(sem: Sem, nodes: seq<Node>, owners: seq<nat>, tmps: map<nat, int>, rep: Standins, u: nat)
    requires u in rep
  {
    StandsIn(nodes, owners, rep, u) && (rep[u].Copy? ==> u in tmps && tmps[u] == sem.addr(rep[u].sym))
  }

  /** Of the temporaries below n, those not left out have the same values. */
  ghost predicate Alike(n: nat, tmps: map<nat, int>, tmps': map<nat, int>, rep: Standins) {
    forall u: nat :: u < n ==> u in tmps && (u !in rep ==> u in tmps' && tmps'[u] == tmps[u])
  }

  ghost predicate Standing(sem: Sem, nodes: seq<Node>, owners: seq<nat>, tmps: map<nat, int>, tmps': map<nat, int>,
                           rep: Standins) {
    && Alike(|owners|, tmps, tmps', rep)
    && forall u: nat :: u in rep ==> StandsFor(sem, nodes, owners, tmps, rep, u)
  }

  /** Replacing the reads keeps the value of a tree. */
  lemma {:induction false} ReplacedEval(sem: Sem, nodes: seq<Node>, owners: seq<nat>, m: Memory, tmps: map<nat, int>,
                                        tmps': map<nat, int>, rep: Standins, t: OTree)
    requires Standing(sem, nodes, owners, tmps, tmps', rep)
    requires Fresh(sem, nodes, owners, m, tmps, t) && ReadsBelow(t, |owners|)
    ensures EvalO(sem, nodes, Replaced(rep, t), m, tmps') == EvalO(sem, nodes, t, m, tmps)
  {
    match t
    case Tmp(u) =>
      if u in rep {
        assert StandsFor(sem, nodes, owners, tmps, rep, u);
      }
    case Keep(_, l, r) =>
      ReplacedEval(sem, nodes, owners, m, tmps, tmps', rep, l);
      ReplacedEval(sem, nodes, owners, m, tmps, tmps', rep, r);
    case _ =>
  }

  /** The operand of a load is an address exactly of the variable that the node below it names. */
  lemma {:induction false} AddressHeld(nodes: seq<Node>, owners: seq<nat>, rep: Standins, p: nat, t: OTree)
    requires (forall u: nat :: u in rep ==> StandsIn(nodes, owners, rep, u)) && Mirrors(nodes, owners, p, t)
    requires IsAddress(nodes, Replaced(rep, t))
    ensures p < |nodes| && nodes[p].op == Addr(AddressOf(nodes, Replaced(rep, t)))
  {
    if t.Tmp? {
      assert StandsIn(nodes, owners, rep, t.t);
    }
  }

  /** A new temporary, set or left out. */
  lemma {:induction false} SetStanding(sem: Sem, nodes: seq<Node>, st: Storage, owners: seq<nat>, m: Memory,
                                       tmps: map<nat, int>, tmps': map<nat, int>, rep: Standins, e: OTree)
    requires Standing(sem, nodes, owners, tmps, tmps', rep) && ReadsBelow(e, |owners|)
    requires e.Keep? && Mirrors(nodes, owners, e.id, e) && Fresh(sem, nodes, owners, m, tmps, e)
    ensures var u, v := |owners|, EvalO(sem, nodes, e, m, tmps);
      match Standin(nodes, st, u, Replaced(rep, e))
      case Some(x) => Standing(sem, nodes, owners + [e.id], tmps[u := v], tmps', rep[u := x])
      case None => Standing(sem, nodes, owners + [e.id], tmps[u := v], tmps'[u := v], rep)
  {
    var u, v, owners' := |owners|, EvalO(sem, nodes, e, m, tmps), owners + [e.id];
    forall w: nat | w in rep ensures w < u && StandsFor(sem, nodes, owners', tmps[u := v], rep, w) {
      assert StandsFor(sem, nodes, owners, tmps, rep, w);
    }
    var s := Standin(nodes, st, u, Replaced(rep, e));
    if s.Some? {
      if nodes[e.id].op.Indir? {
        forall w: nat | w in rep ensures StandsIn(nodes, owners, rep, w) {
          assert StandsFor(sem, nodes, owners, tmps, rep, w);
        }
        AddressHeld(nodes, owners, rep, nodes[e.id].l, e.l);
      }
      var rep' := rep[u := s.t];
      forall w: nat | w in rep' ensures StandsFor(sem, nodes, owners', tmps[u := v], rep', w) {
        if w != u {
          assert StandsFor(sem, nodes, owners', tmps[u := v], rep, w);
        }
      }
    }
  }

  /** Leaving temporaries out keeps the memory, and the temporaries that are left. */
  lemma {:induction false} PrunedRuns(sem: Sem, nodes: seq<Node>, st: Storage, out: Code, forest: seq<Root>, m0: Memory)
    requires SetBeforeRead(out) && MirrorsForest(nodes, out, forest) && FreshOut(sem, nodes, out, m0)
    ensures var (c, rep) := Pruned(nodes, st, out);
      var (m, tmps) := RunOut(sem, nodes, out, m0);
      var (m', tmps') := RunOut(sem, nodes, c, m0);
      m' == m && Standing(sem, nodes, Owners(out), tmps, tmps', rep)
    decreases out
  {
    match out
    case Empty =>
    case Then(prev, SetTmp(t, e)) =>
      PrunedRuns(sem, nodes, st, prev, forest, m0);
      var (c, rep) := Pruned(nodes, st, prev);
      var (m, tmps) := RunOut(sem, nodes, prev, m0);
      var (m', tmps') := RunOut(sem, nodes, c, m0);
      ReplacedEval(sem, nodes, Owners(prev), m, tmps, tmps', rep, e);
      SetStanding(sem, nodes, st, Owners(prev), m, tmps, tmps', rep, e);
    case Then(prev, Store(l, r)) =>
      PrunedRuns(sem, nodes, st, prev, forest[..|forest| - 1], m0);
      var (c, rep) := Pruned(nodes, st, prev);
      var (m, tmps) := RunOut(sem, nodes, prev, m0);
      var (m', tmps') := RunOut(sem, nodes, c, m0);
      ReplacedEval(sem, nodes, Owners(prev), m, tmps, tmps', rep, l);
      ReplacedEval(sem, nodes, Owners(prev), m, tmps, tmps', rep, r);
  }
  /** Temporaries left out, and those not set yet, are not read. */
  ghost predicate Unread(c: Code, rep: Standins, n: nat) {
    && (forall u: nat :: u in rep ==> u < n && (rep[u].Reload? || rep[u].Copy?))
    && forall u: nat :: u in rep || u >= n ==> ReadsAll(c, u) == 0
  }

  lemma {:induction false} ReplacedReads(rep: Standins, n: nat, t: OTree, u: nat)
    requires (forall w: nat :: w in rep ==> rep[w].Reload? || rep[w].Copy?) && ReadsBelow(t, n) && (u in rep || u >= n)
    ensures Reads(Replaced(rep, t), u) == 0
  {
    match t
    case Keep(_, l, r) =>
      ReplacedReads(rep, n, l, u);
      ReplacedReads(rep, n, r, u);
    case _ =>
  }

  lemma {:induction false} PrunedReads(nodes: seq<Node>, st: Storage, out: Code)
    requires SetBeforeRead(out)
    ensures var (c, rep) := Pruned(nodes, st, out); Unread(c, rep, |Owners(out)|)
    decreases out
  {
    match out
    case Empty =>
    case Then(prev, last) =>
      PrunedReads(nodes, st, prev);
      var (c, rep) := Pruned(nodes, st, prev);
      var n := |Owners(prev)|;
      forall u: nat | u in rep || u >= n ensures ReadsStmt(ReplacedStmt(rep, last), u) == 0 {
        match last
        case SetTmp(_, e) => ReplacedReads(rep, n, e, u);
        case Store(l, r) =>
          ReplacedReads(rep, n, l, u);
          ReplacedReads(rep, n, r, u);
      }
  }

  /** What temporary u is set to. */
  function TmpTree(out: Code, u: nat): OTree {
    match out
    case Empty => Null
    case Then(prev, SetTmp(_, e)) => if u == |Owners(prev)| then e else TmpTree(prev, u)
    case Then(prev, Store(_, _)) => TmpTree(prev, u)
  }

  /**
   A temporary is left out exactly when it holds a load by name whose address is not kept in another temporary, and the
   variable is in a register or the temporary is not, or when it holds the address of a global and is not in a register.
   */
  ghost predicate LeftOut(nodes: seq<Node>, st: Storage, out: Code, rep: Standins, u: nat)
    requires u < |Owners(out)|
  {
    var o, e := Owners(out)[u], TmpTree(out, u);
    u in rep <==>
      || (LoadsVar(nodes, o) && (st.register(VarOf(nodes, o)) || st.auto(u))
          && e.Keep? && (e.l.Tmp? ==> e.l.t in rep))
      || (o < |nodes| && nodes[o].op.Addr? && nodes[o].op.sym.scope == Global && st.auto(u))
  }

  lemma {:induction false} StandinExactly(
    nodes: seq<Node>, st: Storage, owners: seq<nat>, rep: Standins, u: nat, e: OTree)
    requires Acyclic(nodes) && e.Keep? && Mirrors(nodes, owners, e.id, e)
    requires forall w: nat :: w in rep ==> StandsIn(nodes, owners, rep, w)
    ensures Standin(nodes, st, u, Replaced(rep, e)).Some? <==>
      || (LoadsVar(nodes, e.id) && (st.register(VarOf(nodes, e.id)) || st.auto(u)) && (e.l.Tmp? ==> e.l.t in rep))
      || (nodes[e.id].op.Addr? && nodes[e.id].op.sym.scope == Global && st.auto(u))
    ensures var s := Standin(nodes, st, u, Replaced(rep, e));
      s.Some? ==> StandsIn(nodes, owners + [e.id], map[|owners| := s.t], |owners|)
  {
    if nodes[e.id].op.Indir? {
      if IsAddress(nodes, Replaced(rep, e.l)) {
        AddressHeld(nodes, owners, rep, nodes[e.id].l, e.l);
      } else if e.l.Tmp? && e.l.t in rep {
        assert StandsIn(nodes, owners, rep, e.l.t);
      }
    }
  }

  /** Every temporary left out has its stand-in, and they are the right ones. */
  ghost predicate LeavesOut(nodes: seq<Node>, st: Storage, out: Code, rep: Standins) {
    && (forall u: nat :: u in rep ==> StandsIn(nodes, Owners(out), rep, u))
    && forall u: nat :: u < |Owners(out)| ==> LeftOut(nodes, st, out, rep, u)
  }

  lemma {:induction false} PrunedExactly(nodes: seq<Node>, st: Storage, out: Code, forest: seq<Root>)
    requires Acyclic(nodes) && SetBeforeRead(out) && MirrorsForest(nodes, out, forest)
    ensures LeavesOut(nodes, st, out, Pruned(nodes, st, out).1)
    decreases out
  {
    match out
    case Empty =>
    case Then(prev, Store(l, r)) =>
      PrunedExactly(nodes, st, prev, forest[..|forest| - 1]);
      StoreLeavesOut(nodes, st, prev, l, r, Pruned(nodes, st, prev).1);
    case Then(prev, SetTmp(t, e)) =>
      PrunedExactly(nodes, st, prev, forest);
      SetLeavesOut(nodes, st, prev, t, e, Pruned(nodes, st, prev).1);
  }

  lemma {:induction false} StoreLeavesOut(nodes: seq<Node>, st: Storage, prev: Code, l: OTree, r: OTree, rep: Standins)
    requires LeavesOut(nodes, st, prev, rep)
    ensures LeavesOut(nodes, st, Then(prev, Store(l, r)), rep)
  {
    var out := Then(prev, Store(l, r));
    forall u: nat | u < |Owners(out)| ensures LeftOut(nodes, st, out, rep, u) {
      assert LeftOut(nodes, st, prev, rep, u);
    }
  }

  lemma {:induction false} SetLeavesOut(nodes: seq<Node>, st: Storage, prev: Code, t: nat, e: OTree, rep: Standins)
    requires Acyclic(nodes) && LeavesOut(nodes, st, prev, rep) && SetBeforeRead(prev) && t == |Owners(prev)|
    requires e.Keep? && Mirrors(nodes, Owners(prev), e.id, e) && ReadsBelow(e, t)
    ensures var x := Standin(nodes, st, t, Replaced(rep, e));
      LeavesOut(nodes, st, Then(prev, SetTmp(t, e)), if x.Some? then rep[t := x.t] else rep)
  {
    var owners, out, x := Owners(prev), Then(prev, SetTmp(t, e)), Standin(nodes, st, t, Replaced(rep, e));
    var rep' := if x.Some? then rep[t := x.t] else rep;
    StandinExactly(nodes, st, owners, rep, t, e);
    forall u: nat | u in rep ensures u < t && StandsIn(nodes, Owners(out), rep, u) {
      assert StandsIn(nodes, owners, rep, u);
    }
    forall u: nat | u in rep' ensures StandsIn(nodes, Owners(out), rep', u) {
      assert u != t ==> StandsIn(nodes, Owners(out), rep, u);
    }
    forall u: nat | u < |Owners(out)| ensures LeftOut(nodes, st, out, rep', u) {
      if u < t {
        assert LeftOut(nodes, st, prev, rep, u);
        EarlierReads(prev, u);
      }
    }
  }

  lemma {:induction false} EarlierReads(out: Code, u: nat)
    requires SetBeforeRead(out) && u < |Owners(out)|
    ensures ReadsBelow(TmpTree(out, u), u)
    decreases out
  {
    match out
    case Then(prev, SetTmp(_, _)) =>
      if u < |Owners(prev)| {
        EarlierReads(prev, u);
      }
    case Then(prev, Store(_, _)) => EarlierReads(prev, u);
  }

  // ------------------------------------------------------------------------- the loop

  function CodeOf(stmts: seq<OStmt>): Code {
    if stmts == [] then Empty else Then(CodeOf(stmts[..|stmts| - 1]), stmts[|stmts| - 1])
  }

  function Stmts(out: Code): (stmts: seq<OStmt>)
    ensures CodeOf(stmts) == out
  {
    match out
    case Empty => []
    case Then(prev, last) =>
      var stmts := Stmts(prev) + [last];
      assert stmts[..|stmts| - 1] == Stmts(prev);
      stmts
  }

  lemma {:induction false} ReplacedNone(t: OTree)
    ensures Replaced(map[], t) == t
  {
    match t
    case Keep(_, l, r) =>
      ReplacedNone(l);
      ReplacedNone(r);
    case _ =>
  }

  lemma NothingReplaced(s: OStmt)
    ensures ReplacedStmt(map[], s) == s
  {
    match s
    case SetTmp(_, e) => ReplacedNone(e);
    case Store(l, r) =>
      ReplacedNone(l);
      ReplacedNone(r);
  }

  /** Goes over the statements once; reads are looked for only once something has been left out. */
  method PruneForest(nodes: seq<Node>, st: Storage, stmts: seq<OStmt>) returns (out: Code, rep: Standins)
    ensures (out, rep) == Pruned(nodes, st, CodeOf(stmts))
  {
    out, rep := Empty, map[];
    for i := 0 to |stmts|
      invariant (out, rep) == Pruned(nodes, st, CodeOf(stmts[..i]))
    {
      assert stmts[..i + 1][..i] == stmts[..i];
      var s := stmts[i];
      NothingReplaced(s);
      if rep != map[] {
        s := ReplacedStmt(rep, s);
      }
      var x := if s.SetTmp? then Standin(nodes, st, s.t, s.e) else None;
      if x.Some? {
        rep := rep[s.t := x.t];
      } else {
        out := Then(out, s);
      }
    }
    assert stmts[..|stmts|] == stmts;
  }

  /** In the trees of a block, every read of a temporary for a load by name is of the current value. */
  lemma {:induction false} BlockFresh(sem: Sem, named: set<Sym>, hash: Node -> nat, block: seq<Assignment>, m0: Memory)
    requires AllShaped(block) && Separate(sem, named) && AdmitsAll(block, named)
    ensures var d := DagOf(hash, block); FreshOut(sem, d.nodes, ForestVisited(d.nodes, d.count, d.forest).out, m0)
  {
    var d := DagOf(hash, block);
    var val := BlockPhased(sem, named, hash, block, m0);
    StartOk(d.nodes, d.count, d.forest);
    ForestFresh(Job(d.nodes, d.count, sem, m0), d.forest, val, |d.forest|);
    assert d.forest[..|d.forest|] == d.forest;
  }

  /**
   Value numbering, undoing the sharing, and leaving out temporaries, wherever variables were put: what comes out does
   what the block does under every meaning that keeps its variables apart, and never reads what was left out.
   */
  method CompilePruned(block: seq<Assignment>, hash: Node -> nat, st: Storage)
    returns (nodes: seq<Node>, out: Code, rep: Standins)
    requires AllShaped(block)
    ensures nodes == DagOf(hash, block).nodes
    ensures forall sem, named, m0 :: Separate(sem, named) && AdmitsAll(block, named) ==>
      RunOut(sem, nodes, out, m0).0 == ExecAll(sem, block, m0)
    ensures forall u: nat :: u in rep ==> ReadsAll(out, u) == 0
    ensures var trees := ForestVisited(nodes, DagOf(hash, block).count, DagOf(hash, block).forest).out;
      LeavesOut(nodes, st, trees, rep)
  {
    var count, forest;
    nodes, count, forest := BuildBlock(block, hash);
    var trees := UndagForest(nodes, count, forest);
    out, rep := PruneForest(nodes, st, Stmts(trees));
    PrunedReads(nodes, st, trees);
    PrunedExactly(nodes, st, trees, forest);
    forall sem, named, m0 | Separate(sem, named) && AdmitsAll(block, named)
      ensures RunOut(sem, nodes, out, m0).0 == ExecAll(sem, block, m0)
    {
      assert RunsAlike(sem, nodes, forest, block, m0);
      BlockFresh(sem, named, hash, block, m0);
      PrunedRuns(sem, nodes, st, trees, forest, m0);
    }
  }
}
