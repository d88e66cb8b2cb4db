/**
 The bottom-up labeller that the instruction-selector generator emits, and the
 reducer that follows the rules it recorded. A label gives every nonterminal the
 least cost of deriving the node from it; chain rules are closed over on the spot.
 */
module Burs {

  // ------------------------------------------------------------------- grammars

  datatype Tree = Leaf(op: int) | Unary(op: int, left: Tree) | Binary(op: int, left: Tree, right: Tree)

  datatype Pattern =
    | Goal(nt: nat)
    | Term0(op: int)
    | Term1(op: int, left: Pattern)
    | Term2(op: int, left: Pattern, right: Pattern)

  /** A rule costs a constant, or an expression evaluated at the node it is applied to. */
  datatype Cost = Fixed(n: nat) | Computed

  datatype Rule = Rule(lhs: nat, pattern: Pattern, cost: Cost)

  datatype Grammar = Grammar(nts: nat, rules: seq<Rule>, computed: (nat, Tree) -> nat)

  /** Cost of a nonterminal that does not derive the node. */
  const MAX := 0x7fff

  predicate GoalsBelow(p: Pattern, n: nat) {
    match p
    case Goal(nt) => nt < n
    case Term0(_) => true
    case Term1(_, l) => GoalsBelow(l, n)
    case Term2(_, l, r) => GoalsBelow(l, n) && GoalsBelow(r, n)
  }

  /** Nonterminals are numbered below nts, and chain rules have constant costs. */
  ghost predicate WellFormed(g: Grammar) {
    forall i :: 0 <= i < |g.rules| ==>
      var r := g.rules[i];
      r.lhs < g.nts && GoalsBelow(r.pattern, g.nts) && (r.pattern.Goal? ==> r.cost.Fixed?)
  }

  function RuleCost(g: Grammar, i: nat, t: Tree): nat
    requires i < |g.rules|
  {
    match g.rules[i].cost
    case Fixed(n) => n
    case Computed => g.computed(i, t)
  }

  predicate Matches(p: Pattern, t: Tree) {
    match p
    case Goal(_) => true
    case Term0(op) => t.Leaf? && t.op == op
    case Term1(op, l) => t.Unary? && t.op == op && Matches(l, t.left)
    case Term2(op, l, r) => t.Binary? && t.op == op && Matches(l, t.left) && Matches(r, t.right)
  }

  // --------------------------------------------------------------------- covers

  /** The subtrees under the nonterminals of a matched pattern, left to right. */
  function Leaves(p: Pattern, t: Tree): seq<(Tree, nat)>
    requires Matches(p, t)
  {
    match p
    case Goal(nt) => [(t, nt)]
    case Term0(_) => []
    case Term1(_, l) => Leaves(l, t.left)
    case Term2(_, l, r) => Leaves(l, t.left) + Leaves(r, t.right)
  }

  /** A derivation: the rule used at a node and one derivation for each nonterminal of its pattern. */
  datatype Cover = Cover(rule: nat, kids: seq<Cover>)

  ghost predicate Covers(g: Grammar, t: Tree, nt: nat, cv: Cover)
    decreases cv
  {
    && cv.rule < |g.rules| && g.rules[cv.rule].lhs == nt
    && Matches(g.rules[cv.rule].pattern, t)
    && var ls := Leaves(g.rules[cv.rule].pattern, t);
    && |cv.kids| == |ls|
    && forall i :: 0 <= i < |ls| ==> Covers(g, ls[i].0, ls[i].1, cv.kids[i])
  }

  ghost function CoverCost(g: Grammar, t: Tree, nt: nat, cv: Cover): nat
    requires Covers(g, t, nt, cv)
    decreases cv, 1
  {
    RuleCost(g, cv.rule, t) + KidsCost(g, Leaves(g.rules[cv.rule].pattern, t), cv.kids)
  }

  ghost function KidsCost(g: Grammar, ls: seq<(Tree, nat)>, kids: seq<Cover>): nat
    requires |kids| == |ls|
    requires forall i :: 0 <= i < |ls| ==> Covers(g, ls[i].0, ls[i].1, kids[i])
    decreases kids, 0
  {
    if ls == [] then 0
    else CoverCost(g, ls[0].0, ls[0].1, kids[0]) + KidsCost(g, ls[1..], kids[1..])
  }

  // --------------------------------------------------------------------- labels

  datatype State = State(cost: seq<int>, rule: seq<nat>)

  datatype LTree =
    | L0(op: int, st: State)
    | L1(op: int, left: LTree, st: State)
    | L2(op: int, left: LTree, right: LTree, st: State)

  function Erase(lt: LTree): Tree {
    match lt
    case L0(op, _) => Leaf(op)
    case L1(op, l, _) => Unary(op, Erase(l))
    case L2(op, l, r, _) => Binary(op, Erase(l), Erase(r))
  }

  function Size(lt: LTree): nat {
    match lt
    case L0(_, _) => 1
    case L1(_, l, _) => 1 + Size(l)
    case L2(_, l, r, _) => 1 + Size(l) + Size(r)
  }

  function LLeaves(p: Pattern, lt: LTree): seq<(LTree, nat)>
    requires Matches(p, Erase(lt))
  {
    match p
    case Goal(nt) => [(lt, nt)]
    case Term0(_) => []
    case Term1(_, l) => LLeaves(l, lt.left)
    case Term2(_, l, r) => LLeaves(l, lt.left) + LLeaves(r, lt.right)
  }

  /** Recorded cost of the nonterminal at each leaf, added up. */
  function LeafSum(ls: seq<(LTree, nat)>): int
    requires forall i :: 0 <= i < |ls| ==> ls[i].1 < |ls[i].0.st.cost|
  {
    if ls == [] then 0 else ls[0].0.st.cost[ls[0].1] + LeafSum(ls[1..])
  }

  ghost predicate Ranged(g: Grammar, st: State) {
    && |st.cost| == |st.rule| == g.nts
    && forall n :: 0 <= n < g.nts ==> 0 <= st.cost[n] <= MAX
  }

  ghost predicate AllRanged(g: Grammar, lt: LTree) {
    && Ranged(g, lt.st)
    && match lt
       case L0(_, _) => true
       case L1(_, l, _) => AllRanged(g, l)
       case L2(_, l, r, _) => AllRanged(g, l) && AllRanged(g, r)
  }

  /** The kids of a node are labelled; its own state may be missing. */
  ghost predicate KidsRanged(g: Grammar, lt: LTree) {
    match lt
    case L0(_, _) => true
    case L1(_, l, _) => AllRanged(g, l)
    case L2(_, l, r, _) => AllRanged(g, l) && AllRanged(g, r)
  }

  ghost predicate LeavesOk(g: Grammar, ls: seq<(LTree, nat)>) {
    forall i :: 0 <= i < |ls| ==> AllRanged(g, ls[i].0) && ls[i].1 < g.nts
  }

  lemma {:induction false} LeavesRanged(g: Grammar, p: Pattern, lt: LTree)
    requires GoalsBelow(p, g.nts) && Matches(p, Erase(lt))
    requires if p.Goal? then AllRanged(g, lt) else KidsRanged(g, lt)
    ensures LeavesOk(g, LLeaves(p, lt)) && LeavesMatch(LLeaves(p, lt), Leaves(p, Erase(lt)))
    ensures !p.Goal? ==> LeavesSmaller(LLeaves(p, lt), Size(lt))
  {
    LeavesInRange(g, p, lt);
    LeavesErased(p, lt);
  }

  lemma {:induction false} LeavesInRange(g: Grammar, p: Pattern, lt: LTree)
    requires GoalsBelow(p, g.nts) && Matches(p, Erase(lt))
    requires if p.Goal? then AllRanged(g, lt) else KidsRanged(g, lt)
    ensures LeavesOk(g, LLeaves(p, lt)) && (!p.Goal? ==> LeavesSmaller(LLeaves(p, lt), Size(lt)))
  {
    match p
    case Goal(_) =>
    case Term0(_) =>
    case Term1(_, l) => LeavesInRange(g, l, lt.left);
    case Term2(_, l, r) =>
      LeavesInRange(g, l, lt.left);
      LeavesInRange(g, r, lt.right);
  }

  lemma {:induction false} LeavesErased(p: Pattern, lt: LTree)
    requires Matches(p, Erase(lt))
    ensures LeavesMatch(LLeaves(p, lt), Leaves(p, Erase(lt)))
  {
    match p
    case Goal(_) =>
    case Term0(_) =>
    case Term1(_, l) => LeavesErased(l, lt.left);
    case Term2(_, l, r) =>
      LeavesErased(l, lt.left);
      LeavesErased(r, lt.right);
  }

  ghost predicate LeavesMatch(ls: seq<(LTree, nat)>, ts: seq<(Tree, nat)>) {
    |ls| == |ts| && forall i :: 0 <= i < |ls| ==> ts[i] == (Erase(ls[i].0), ls[i].1)
  }

  ghost predicate LeavesSmaller(lls: seq<(LTree, nat)>, n: nat) {
    forall i :: 0 <= i < |lls| ==> Size(lls[i].0) < n
  }

  // ------------------------------------------------------------ chain closure

  predicate IsChain(g: Grammar, i: nat, rhs: nat) {
    i < |g.rules| && g.rules[i].pattern == Goal(rhs) && g.rules[i].cost.Fixed?
  }

  /** The recorded rule of n explains its cost. `bc` holds the cost of applying each non-chain rule at this node. */
  ghost predicate Explained(g: Grammar, bc: seq<int>, cost: seq<int>, rule: seq<nat>, rank: seq<nat>, n: nat)
    requires WellFormed(g) && |bc| == |g.rules| && |cost| == |rule| == |rank| == g.nts && n < g.nts
  {
    && rule[n] < |g.rules| && g.rules[rule[n]].lhs == n
    && match g.rules[rule[n]].pattern
       case Goal(m) =>
         // the source of a chain rule is cheaper, or as cheap and settled earlier
         var c := cost[m] + g.rules[rule[n]].cost.n;
         c < cost[n] || (c == cost[n] && rank[m] < rank[n])
       case _ => cost[n] == bc[rule[n]]
  }

  ghost predicate Inv(g: Grammar, bc: seq<int>, cost: seq<int>, rule: seq<nat>, rank: seq<nat>, clock: nat) {
    && WellFormed(g) && |bc| == |g.rules| && |cost| == |rule| == |rank| == g.nts
    && (forall n :: 0 <= n < g.nts ==> 0 <= cost[n] <= MAX && rank[n] < clock)
    && forall n :: 0 <= n < g.nts && cost[n] < MAX ==> Explained(g, bc, cost, rule, rank, n)
  }

  /** Chain rules out of m cannot improve anything. */
  ghost predicate Closed(g: Grammar, cost: seq<int>, m: nat)
    requires WellFormed(g) && |cost| == g.nts && m < g.nts
  {
    forall i :: 0 <= i < |g.rules| && IsChain(g, i, m) ==> cost[g.rules[i].lhs] <= cost[m] + g.rules[i].cost.n
  }

  /** From cost to cost', entries only fell, none below c, and every one that fell is closed again. */
  ghost predicate Improves(g: Grammar, cost: seq<int>, cost': seq<int>, c: int)
    requires WellFormed(g) && |cost| == |cost'| == g.nts
  {
    forall n :: 0 <= n < g.nts ==>
      cost'[n] == cost[n] || (c <= cost'[n] < cost[n] && Closed(g, cost', n))
  }

  function Sum(s: seq<int>): int {
    if s == [] then 0 else s[0] + Sum(s[1..])
  }

  lemma {:induction false} SumFalls(s: seq<int>, s': seq<int>)
    requires |s| == |s'| && forall i :: 0 <= i < |s| ==> 0 <= s'[i] <= s[i]
    ensures 0 <= Sum(s') <= Sum(s)
    ensures s' != s ==> Sum(s') < Sum(s)
  {
    if s != [] {
      SumFalls(s[1..], s'[1..]);
      assert s == [s[0]] + s[1..] && s' == [s'[0]] + s'[1..];
    }
  }

  /** Recording a cheaper cost for n keeps every explanation. */
  lemma RecordKeeps(g: Grammar, bc: seq<int>, cost: seq<int>, rule: seq<nat>, rank: seq<nat>, clock: nat, i: nat,
                    c: int)
    requires Inv(g, bc, cost, rule, rank, clock) && i < |g.rules|
    requires 0 <= c < cost[g.rules[i].lhs]
    requires match g.rules[i].pattern
      case Goal(m) => m != g.rules[i].lhs && c == cost[m] + g.rules[i].cost.n
      case _ => c == bc[i]
    ensures var n := g.rules[i].lhs; Inv(g, bc, cost[n := c], rule[n := i], rank[n := clock], clock + 1)
  {
    var n := g.rules[i].lhs;
    var cost', rule', rank' := cost[n := c], rule[n := i], rank[n := clock];
    forall k | 0 <= k < g.nts && cost'[k] < MAX ensures Explained(g, bc, cost', rule', rank', k) {
      if k != n {
        assert Explained(g, bc, cost, rule, rank, k);
      }
    }
  }

  lemma ImprovesTrans(g: Grammar, a: seq<int>, b: seq<int>, d: seq<int>, c: int, c': int)
    requires WellFormed(g) && |a| == |b| == |d| == g.nts
    requires Improves(g, a, b, c) && Improves(g, b, d, c') && c <= c'
    ensures Improves(g, a, d, c)
    ensures forall m :: 0 <= m < g.nts && Closed(g, b, m) ==> Closed(g, d, m)
  {
    forall m | 0 <= m < g.nts && Closed(g, b, m) ensures Closed(g, d, m) {}
  }

  /** The chain rules out of m from number i on cannot improve anything, where m costs c. */
  ghost predicate TriedFrom(g: Grammar, cost: seq<int>, m: nat, c: int, i: int)
    requires WellFormed(g) && |cost| == g.nts
  {
    forall j :: 0 <= i <= j < |g.rules| && IsChain(g, j, m) ==> cost[g.rules[j].lhs] <= c + g.rules[j].cost.n
  }

  lemma TriedStays(g: Grammar, a: seq<int>, b: seq<int>, m: nat, c: int, i: int, c': int)
    requires WellFormed(g) && |a| == |b| == g.nts && TriedFrom(g, a, m, c, i) && Improves(g, a, b, c')
    ensures TriedFrom(g, b, m, c, i)
  {
  }

  /** The state of one node while it is being labelled; costs start out at MAX, rules undefined. */
  class NodeState {
    var cost: seq<int>
    var rule: seq<nat>
    ghost var rank: seq<nat>    // when each cost was last lowered
    ghost var clock: nat

    ghost predicate Valid(g: Grammar, bc: seq<int>)
      reads this
    {
      Inv(g, bc, cost, rule, rank, clock)
    }

    constructor (g: Grammar, junk: seq<nat>, ghost bc: seq<int>)
      requires WellFormed(g) && |junk| == g.nts && |bc| == |g.rules|
      ensures Valid(g, bc) && forall n :: 0 <= n < g.nts ==> cost[n] == MAX
    {
      cost := seq(g.nts, _ => MAX);
      rule := junk;
      rank := seq(g.nts, _ => 0);
      clock := 1;
    }

    /** Rule i derives its left-hand side at cost c: keep it if that is cheaper, and close over chain rules. */
    method Record(g: Grammar, i: nat, c: int, ghost bc: seq<int>)
      requires Valid(g, bc) && i < |g.rules| && 0 <= c
      requires match g.rules[i].pattern
        case Goal(m) => c == cost[m] + g.rules[i].cost.n
        case _ => c == bc[i]
      modifies this
      ensures Valid(g, bc) && Improves(g, old(cost), cost, c)
      ensures cost[g.rules[i].lhs] <= c
      decreases Sum(cost), 0
    {
      var n := g.rules[i].lhs;
      if c < cost[n] {
        ghost var before := cost;
        RecordKeeps(g, bc, cost, rule, rank, clock, i, c);
        cost, rule := cost[n := c], rule[n := i];
        rank, clock := rank[n := clock], clock + 1;
        SumFalls(before, cost);
        Closure(g, n, c, bc);
      }
    }

    /** The cost of m fell to c: try the chain rules out of m, the last one declared first. */
    method Closure(g: Grammar, m: nat, c: int, ghost bc: seq<int>)
      requires Valid(g, bc) && m < g.nts && cost[m] == c
      modifies this
      ensures Valid(g, bc) && Improves(g, old(cost), cost, c)
      ensures cost[m] == c && Closed(g, cost, m)
      decreases Sum(cost), 1
    {
      var i := |g.rules|;
      while i > 0
        invariant Valid(g, bc) && 0 <= i <= |g.rules|
        invariant Improves(g, old(cost), cost, c)
        invariant TriedFrom(g, cost, m, c, i)
      {
        i := i - 1;
        if g.rules[i].pattern == Goal(m) {
          ghost var before := cost;
          SumFalls(old(cost), cost);
          Record(g, i, c + g.rules[i].cost.n, bc);
          ImprovesTrans(g, old(cost), before, cost, c, c + g.rules[i].cost.n);
          TriedStays(g, before, cost, m, c, i + 1, c + g.rules[i].cost.n);
        }
      }
    }
  }

  // ------------------------------------------------------------------ labelling

  /** Non-chain rule i applies at the node. */
  predicate Applies(g: Grammar, node: LTree, i: nat) {
    i < |g.rules| && !g.rules[i].pattern.Goal? && Matches(g.rules[i].pattern, Erase(node))
  }

  /** Cost of applying rule i given the labels below. */
  function ApplyCost(g: Grammar, node: LTree, i: nat): int
    requires WellFormed(g) && i < |g.rules| && Matches(g.rules[i].pattern, Erase(node))
    requires if g.rules[i].pattern.Goal? then AllRanged(g, node) else KidsRanged(g, node)
  {
    LeavesRanged(g, g.rules[i].pattern, node);
    LeafSum(LLeaves(g.rules[i].pattern, node)) + RuleCost(g, i, Erase(node))
  }

  ghost function BaseCosts(g: Grammar, node: LTree): (bc: seq<int>)
    requires WellFormed(g) && KidsRanged(g, node)
    ensures |bc| == |g.rules|
  {
    seq(|g.rules|, i requires 0 <= i < |g.rules| => if Applies(g, node, i) then ApplyCost(g, node, i) else MAX)
  }

  /** The label of one node: no rule can improve it, and what is recorded adds up without cycles. */
  ghost predicate NodeLabelled(g: Grammar, lt: LTree)
    requires WellFormed(g) && AllRanged(g, lt)
  {
    && AllClosed(g, lt.st.cost) && Tried(g, lt, lt.st.cost, |g.rules|)
    && exists rank: seq<nat>, clock: nat :: Inv(g, BaseCosts(g, lt), lt.st.cost, lt.st.rule, rank, clock)
  }

  ghost predicate Labelled(g: Grammar, lt: LTree)
    requires WellFormed(g)
  {
    && AllRanged(g, lt) && NodeLabelled(g, lt)
    && match lt
       case L0(_, _) => true
       case L1(_, l, _) => Labelled(g, l)
       case L2(_, l, r, _) => Labelled(g, l) && Labelled(g, r)
  }

  lemma {:induction false} LeafSumRange(g: Grammar, ls: seq<(LTree, nat)>)
    requires LeavesOk(g, ls)
    ensures 0 <= LeafSum(ls)
    ensures forall i :: 0 <= i < |ls| ==> ls[i].0.st.cost[ls[i].1] <= LeafSum(ls)
  {
    if ls != [] {
      LeafSumRange(g, ls[1..]);
      assert forall i :: 1 <= i < |ls| ==> ls[i] == ls[1..][i - 1];
    }
  }

  lemma ApplyCostRange(g: Grammar, node: LTree, i: nat)
    requires WellFormed(g) && KidsRanged(g, node) && Applies(g, node, i)
    ensures 0 <= ApplyCost(g, node, i)
  {
    LeavesRanged(g, g.rules[i].pattern, node);
    LeafSumRange(g, LLeaves(g.rules[i].pattern, node));
  }

  ghost predicate AllClosed(g: Grammar, cost: seq<int>)
    requires WellFormed(g) && |cost| == g.nts
  {
    forall m :: 0 <= m < g.nts ==> Closed(g, cost, m)
  }

  /** None of the first n rules can improve the costs. */
  ghost predicate Tried(g: Grammar, node: LTree, cost: seq<int>, n: nat)
    requires WellFormed(g) && KidsRanged(g, node) && |cost| == g.nts
  {
    forall i :: 0 <= i < n && Applies(g, node, i) ==> cost[g.rules[i].lhs] <= ApplyCost(g, node, i)
  }

  lemma TryNext(g: Grammar, node: LTree, cost: seq<int>, cost': seq<int>, n: nat, c: int)
    requires WellFormed(g) && KidsRanged(g, node) && |cost| == |cost'| == g.nts
    requires AllClosed(g, cost) && Tried(g, node, cost, n) && Improves(g, cost, cost', c)
    requires n < |g.rules| && (Applies(g, node, n) ==> cost'[g.rules[n].lhs] <= ApplyCost(g, node, n))
    ensures AllClosed(g, cost') && Tried(g, node, cost', n + 1)
  {
    forall m | 0 <= m < g.nts ensures Closed(g, cost', m) {
      assert Closed(g, cost, m);
    }
  }

  /** Rules are tried in order of declaration; `node` has labelled kids and an empty state. */
  method LabelNode(g: Grammar, node: LTree, junk: seq<nat>) returns (st: State)
    requires WellFormed(g) && KidsRanged(g, node) && |junk| == g.nts
    ensures Ranged(g, st) && AllClosed(g, st.cost) && Tried(g, node, st.cost, |g.rules|)
    ensures exists rank: seq<nat>, clock: nat :: Inv(g, BaseCosts(g, node), st.cost, st.rule, rank, clock)
  {
    ghost var bc := BaseCosts(g, node);
    var s := new NodeState(g, junk, bc);
    for i := 0 to |g.rules|
      invariant s.Valid(g, bc)
      invariant AllClosed(g, s.cost) && Tried(g, node, s.cost, i)
    {
      ghost var before := s.cost;
      if Applies(g, node, i) {
        ApplyCostRange(g, node, i);
        s.Record(g, i, ApplyCost(g, node, i), bc);
      }
      TryNext(g, node, before, s.cost, i, 0);
    }
    st := State(s.cost, s.rule);
    assert Inv(g, bc, st.cost, st.rule, s.rank, s.clock);
  }

  function WithState(node: LTree, st: State): LTree {
    match node
    case L0(op, _) => L0(op, st)
    case L1(op, l, _) => L1(op, l, st)
    case L2(op, l, r, _) => L2(op, l, r, st)
  }

  /** Costs of non-chain rules do not depend on the state of the node itself. */
  lemma {:induction false} StateIrrelevant(g: Grammar, node: LTree, st: State)
    requires WellFormed(g) && KidsRanged(g, node)
    ensures Erase(WithState(node, st)) == Erase(node) && KidsRanged(g, WithState(node, st))
    ensures forall i :: 0 <= i < |g.rules| && Applies(g, node, i) ==>
      Applies(g, WithState(node, st), i) && ApplyCost(g, WithState(node, st), i) == ApplyCost(g, node, i)
    ensures BaseCosts(g, WithState(node, st)) == BaseCosts(g, node)
  {
    var node' := WithState(node, st);
    forall i | 0 <= i < |g.rules| && Applies(g, node, i)
      ensures Applies(g, node', i) && ApplyCost(g, node', i) == ApplyCost(g, node, i)
    {
      assert LLeaves(g.rules[i].pattern, node') == LLeaves(g.rules[i].pattern, node);
    }
  }

  /** Labels a whole tree, kids first. `junk` is what newly allocated rule fields happen to hold. */
  method Label(g: Grammar, t: Tree, junk: (Tree, nat) -> nat) returns (lt: LTree)
    requires WellFormed(g)
    ensures Erase(lt) == t && Labelled(g, lt)
    decreases t
  {
    var node;
    var blank := State([], []);
    match t {
      case Leaf(op) =>
        node := L0(op, blank);
      case Unary(op, left) =>
        var l := Label(g, left, junk);
        node := L1(op, l, blank);
      case Binary(op, left, right) =>
        var l := Label(g, left, junk);
        var r := Label(g, right, junk);
        node := L2(op, l, r, blank);
    }
    var st := LabelNode(g, node, seq(g.nts, n requires n >= 0 => junk(t, n)));
    StateIrrelevant(g, node, st);
    lt := WithState(node, st);
    assert Tried(g, lt, st.cost, |g.rules|);
  }

  // ----------------------------------------------------------------- optimality

  lemma {:induction false} LeavesLabelled(g: Grammar, p: Pattern, lt: LTree)
    requires WellFormed(g) && Labelled(g, lt) && Matches(p, Erase(lt))
    ensures forall i :: 0 <= i < |LLeaves(p, lt)| ==> Labelled(g, LLeaves(p, lt)[i].0)
  {
    match p
    case Goal(_) =>
    case Term0(_) =>
    case Term1(_, l) => LeavesLabelled(g, l, lt.left);
    case Term2(_, l, r) =>
      LeavesLabelled(g, l, lt.left);
      LeavesLabelled(g, r, lt.right);
  }

  lemma {:induction false} LabelledRanged(g: Grammar, lt: LTree)
    requires WellFormed(g) && Labelled(g, lt)
    ensures AllRanged(g, lt) && KidsRanged(g, lt)
  {
  }

  lemma {:induction false} ChainCost(g: Grammar, lt: LTree, i: nat, m: nat)
    requires WellFormed(g) && AllRanged(g, lt) && IsChain(g, i, m)
    ensures ApplyCost(g, lt, i) == lt.st.cost[m] + g.rules[i].cost.n
  {
    var ls := LLeaves(g.rules[i].pattern, lt);
    assert ls == [(lt, m)] && ls[1..] == [];
    assert LeafSum(ls) == lt.st.cost[m] + LeafSum(ls[1..]);
  }

  /** No rule, chain or not, undercuts a label. */
  lemma {:induction false} LabelBound(g: Grammar, lt: LTree, i: nat)
    requires WellFormed(g) && Labelled(g, lt) && i < |g.rules| && Matches(g.rules[i].pattern, Erase(lt))
    ensures AllRanged(g, lt) && KidsRanged(g, lt)
    ensures lt.st.cost[g.rules[i].lhs] <= ApplyCost(g, lt, i)
  {
    LabelledRanged(g, lt);
    match g.rules[i].pattern
    case Goal(m) =>
      assert Closed(g, lt.st.cost, m) && IsChain(g, i, m);
      ChainCost(g, lt, i, m);
    case _ =>
      assert Applies(g, lt, i);
  }

  /** The label is a lower bound: no derivation of the tree from nt is cheaper. */
  lemma {:induction false} Optimal(g: Grammar, lt: LTree, nt: nat, cv: Cover)
    requires WellFormed(g) && Labelled(g, lt) && nt < g.nts
    requires Covers(g, Erase(lt), nt, cv)
    ensures AllRanged(g, lt) && lt.st.cost[nt] <= CoverCost(g, Erase(lt), nt, cv)
    decreases cv, 1
  {
    var p := g.rules[cv.rule].pattern;
    LabelBound(g, lt, cv.rule);
    LeavesRanged(g, p, lt);
    LeavesLabelled(g, p, lt);
    OptimalKids(g, LLeaves(p, lt), Leaves(p, Erase(lt)), cv.kids);
  }

  lemma {:induction false} OptimalKids(g: Grammar, ls: seq<(LTree, nat)>, ts: seq<(Tree, nat)>, kids: seq<Cover>)
    requires WellFormed(g) && LeavesOk(g, ls) && LeavesMatch(ls, ts) && |kids| == |ts|
    requires forall i :: 0 <= i < |ls| ==> Labelled(g, ls[i].0)
    requires forall i :: 0 <= i < |ts| ==> Covers(g, ts[i].0, ts[i].1, kids[i])
    ensures LeafSum(ls) <= KidsCost(g, ts, kids)
    decreases kids, 0
  {
    if ls != [] {
      Optimal(g, ls[0].0, ls[0].1, kids[0]);
      OptimalKids(g, ls[1..], ts[1..], kids[1..]);
    }
  }

  // ------------------------------------------------------------------ reduction

  /** A settling order of the nonterminals of a node that recorded chain rules go down in. */
  ghost function Ranks(g: Grammar, lt: LTree): (rank: seq<nat>)
    requires WellFormed(g) && Labelled(g, lt)
    ensures exists clock: nat :: Inv(g, BaseCosts(g, lt), lt.st.cost, lt.st.rule, rank, clock)
  {
    var rank: seq<nat>, clock: nat :| Inv(g, BaseCosts(g, lt), lt.st.cost, lt.st.rule, rank, clock);
    rank
  }

  /** The rule recorded for a derivable nonterminal applies and accounts for its whole cost. */
  lemma {:induction false} RecordedRule(g: Grammar, lt: LTree, nt: nat)
    requires WellFormed(g) && Labelled(g, lt) && nt < g.nts && AllRanged(g, lt) && KidsRanged(g, lt)
    requires lt.st.cost[nt] < MAX
    ensures var i := lt.st.rule[nt];
      && i < |g.rules| && g.rules[i].lhs == nt && Matches(g.rules[i].pattern, Erase(lt))
      && lt.st.cost[nt] == ApplyCost(g, lt, i)
      && (g.rules[i].pattern.Goal? ==>
            var m := g.rules[i].pattern.nt;
            && |Ranks(g, lt)| == g.nts
            && (lt.st.cost[m] < lt.st.cost[nt]
                || (lt.st.cost[m] == lt.st.cost[nt] && Ranks(g, lt)[m] < Ranks(g, lt)[nt])))
  {
    var rank := Ranks(g, lt);
    assert Explained(g, BaseCosts(g, lt), lt.st.cost, lt.st.rule, rank, nt);
    var i := lt.st.rule[nt];
    match g.rules[i].pattern
    case Goal(m) =>
      assert Closed(g, lt.st.cost, m) && IsChain(g, i, m);
      ChainCost(g, lt, i, m);
    case _ =>
      assert BaseCosts(g, lt)[i] == lt.st.cost[nt] < MAX;
      assert Applies(g, lt, i);
  }

  lemma {:induction false} KidsCostAppend(g: Grammar, ls: seq<(Tree, nat)>, kids: seq<Cover>, l: (Tree, nat),
                                          kid: Cover)
    requires |kids| == |ls| && Covers(g, l.0, l.1, kid)
    requires forall i :: 0 <= i < |ls| ==> Covers(g, ls[i].0, ls[i].1, kids[i])
    ensures KidsCost(g, ls + [l], kids + [kid]) == KidsCost(g, ls, kids) + CoverCost(g, l.0, l.1, kid)
  {
    if ls == [] {
      assert (ls + [l])[1..] == [] && (kids + [kid])[1..] == [];
    } else {
      assert (ls + [l])[1..] == ls[1..] + [l] && (kids + [kid])[1..] == kids[1..] + [kid];
      KidsCostAppend(g, ls[1..], kids[1..], l, kid);
    }
  }

  lemma {:induction false} LeafSumAppend(ls: seq<(LTree, nat)>, l: (LTree, nat))
    requires forall i :: 0 <= i < |ls| ==> ls[i].1 < |ls[i].0.st.cost|
    requires l.1 < |l.0.st.cost|
    ensures LeafSum(ls + [l]) == LeafSum(ls) + l.0.st.cost[l.1]
  {
    if ls == [] {
      assert (ls + [l])[1..] == [];
    } else {
      assert (ls + [l])[1..] == ls[1..] + [l];
      LeafSumAppend(ls[1..], l);
    }
  }

  /** nt derives the labelled tree. */
  ghost predicate Reducible(g: Grammar, lt: LTree, nt: nat) {
    WellFormed(g) && Labelled(g, lt) && AllRanged(g, lt) && nt < g.nts && lt.st.cost[nt] < MAX
  }

  /** The kids of the rule recorded for nt. */
  lemma {:induction false} RecordedKids(g: Grammar, lt: LTree, nt: nat)
    requires Reducible(g, lt, nt)
    ensures var i := lt.st.rule[nt];
      && i < |g.rules| && g.rules[i].lhs == nt && Matches(g.rules[i].pattern, Erase(lt))
      && var kids := LLeaves(g.rules[i].pattern, lt);
      && LeavesOk(g, kids) && LeavesMatch(kids, Leaves(g.rules[i].pattern, Erase(lt)))
      && lt.st.cost[nt] == LeafSum(kids) + RuleCost(g, i, Erase(lt))
  {
    LabelledRanged(g, lt);
    RecordedRule(g, lt, nt);
    LeavesRanged(g, g.rules[lt.st.rule[nt]].pattern, lt);
  }

  /** Each of them can be reduced in turn, at a smaller node or earlier in the settling order. */
  lemma {:induction false} KidReducible(g: Grammar, lt: LTree, nt: nat, kid: LTree, n: nat, k: nat)
    requires Reducible(g, lt, nt)
    requires var i := lt.st.rule[nt];
      && i < |g.rules| && Matches(g.rules[i].pattern, Erase(lt))
      && k < |LLeaves(g.rules[i].pattern, lt)| && LLeaves(g.rules[i].pattern, lt)[k] == (kid, n)
    ensures Reducible(g, kid, n)
    ensures Size(kid) < Size(lt) || (Size(kid) == Size(lt) && (kid.st.cost[n] < lt.st.cost[nt]
      || (kid.st.cost[n] == lt.st.cost[nt] && Ranks(g, kid)[n] < Ranks(g, lt)[nt])))
  {
    LabelledRanged(g, lt);
    RecordedRule(g, lt, nt);
    var p := g.rules[lt.st.rule[nt]].pattern;
    LeavesRanged(g, p, lt);
    LeavesLabelled(g, p, lt);
    LeafSumRange(g, LLeaves(p, lt));
  }

  /** Derivations for the first kids, costing what their labels say. */
  ghost predicate Reduced(g: Grammar, kids: seq<(LTree, nat)>, ts: seq<(Tree, nat)>, subs: seq<Cover>)
    requires LeavesOk(g, kids) && LeavesMatch(kids, ts)
  {
    && |subs| <= |kids|
    && (forall j :: 0 <= j < |subs| ==> Covers(g, ts[j].0, ts[j].1, subs[j]))
    && KidsCost(g, ts[..|subs|], subs) == LeafSum(kids[..|subs|])
  }

  lemma {:induction false} ReducedStep(g: Grammar, kids: seq<(LTree, nat)>, ts: seq<(Tree, nat)>, subs: seq<Cover>,
                                       sub: Cover)
    requires LeavesOk(g, kids) && LeavesMatch(kids, ts) && Reduced(g, kids, ts, subs) && |subs| < |kids|
    requires Covers(g, ts[|subs|].0, ts[|subs|].1, sub)
    requires CoverCost(g, ts[|subs|].0, ts[|subs|].1, sub) == kids[|subs|].0.st.cost[kids[|subs|].1]
    ensures Reduced(g, kids, ts, subs + [sub])
  {
    var k := |subs|;
    KidsCostAppend(g, ts[..k], subs, ts[k], sub);
    LeafSumAppend(kids[..k], kids[k]);
    assert ts[..k + 1] == ts[..k] + [ts[k]] && kids[..k + 1] == kids[..k] + [kids[k]];
  }

  lemma {:induction false} ReducedAll(g: Grammar, lt: LTree, nt: nat, subs: seq<Cover>)
    requires Reducible(g, lt, nt)
    requires var i := lt.st.rule[nt];
      && i < |g.rules| && g.rules[i].lhs == nt && Matches(g.rules[i].pattern, Erase(lt))
      && var kids := LLeaves(g.rules[i].pattern, lt);
      && LeavesOk(g, kids) && LeavesMatch(kids, Leaves(g.rules[i].pattern, Erase(lt)))
      && lt.st.cost[nt] == LeafSum(kids) + RuleCost(g, i, Erase(lt))
      && |subs| == |kids| && Reduced(g, kids, Leaves(g.rules[i].pattern, Erase(lt)), subs)
    ensures Covers(g, Erase(lt), nt, Cover(lt.st.rule[nt], subs))
    ensures CoverCost(g, Erase(lt), nt, Cover(lt.st.rule[nt], subs)) == lt.st.cost[nt]
  {
    var p := g.rules[lt.st.rule[nt]].pattern;
    var kids, ts := LLeaves(p, lt), Leaves(p, Erase(lt));
    assert ts[..|kids|] == ts && kids[..|kids|] == kids;
  }

  /** Follows the recorded rules; this ends, and yields a derivation of exactly the labelled cost. */
  method Reduce(g: Grammar, lt: LTree, nt: nat) returns (cv: Cover)
    requires Reducible(g, lt, nt)
    ensures Covers(g, Erase(lt), nt, cv)
    ensures CoverCost(g, Erase(lt), nt, cv) == lt.st.cost[nt]
    decreases Size(lt), lt.st.cost[nt], Ranks(g, lt)[nt]
  {
    RecordedKids(g, lt, nt);
    var i := lt.st.rule[nt];
    var kids := LLeaves(g.rules[i].pattern, lt);
    ghost var ts := Leaves(g.rules[i].pattern, Erase(lt));
    var subs := [];
    for k := 0 to |kids|
      invariant |subs| == k && Reduced(g, kids, ts, subs)
    {
      KidReducible(g, lt, nt, kids[k].0, kids[k].1, k);
      var sub := Reduce(g, kids[k].0, kids[k].1);
      ReducedStep(g, kids, ts, subs, sub);
      subs := subs + [sub];
    }
    cv := Cover(i, subs);
    ReducedAll(g, lt, nt, subs);
  }

  // ------------------------------------------------------------ what a derivation spells

  /** The nonterminals of a pattern, left to right. */
  function GoalsOf(p: Pattern): seq<nat> {
    match p
    case Goal(nt) => [nt]
    case Term0(_) => []
    case Term1(_, l) => GoalsOf(l)
    case Term2(_, l, r) => GoalsOf(l) + GoalsOf(r)
  }

  /** The tree of a pattern with trees in place of its nonterminals. */
  function Plugged(p: Pattern, ts: seq<Tree>): Tree
    requires |ts| == |GoalsOf(p)|
  {
    match p
    case Goal(_) => ts[0]
    case Term0(op) => Leaf(op)
    case Term1(op, l) => Unary(op, Plugged(l, ts))
    case Term2(op, l, r) => Binary(op, Plugged(l, ts[..|GoalsOf(l)|]), Plugged(r, ts[|GoalsOf(l)|..]))
  }

  /** The derivation starts from nt, and goes on from the nonterminals of its rule. */
  predicate Derives(g: Grammar, nt: nat, cv: Cover)
    decreases cv, 0
  {
    && cv.rule < |g.rules| && g.rules[cv.rule].lhs == nt
    && var goals := GoalsOf(g.rules[cv.rule].pattern);
    && |cv.kids| == |goals| && forall i :: 0 <= i < |goals| ==> Derives(g, goals[i], cv.kids[i])
  }

  /** The tree that a derivation spells. */
  function Spelled(g: Grammar, nt: nat, cv: Cover): Tree
    requires Derives(g, nt, cv)
    decreases cv, 1
  {
    var p := g.rules[cv.rule].pattern;
    Plugged(p, SpelledAll(g, GoalsOf(p), cv.kids))
  }

  function SpelledAll(g: Grammar, goals: seq<nat>, kids: seq<Cover>): (ts: seq<Tree>)
    requires |kids| == |goals| && forall i :: 0 <= i < |kids| ==> Derives(g, goals[i], kids[i])
    ensures |ts| == |kids|
    decreases kids, 0
  {
    if kids == [] then [] else [Spelled(g, goals[0], kids[0])] + SpelledAll(g, goals[1..], kids[1..])
  }

  /** The costs of all rules of a derivation, each evaluated at the tree it spells. */
  function Total(g: Grammar, nt: nat, cv: Cover): nat
    requires Derives(g, nt, cv)
    decreases cv, 1
  {
    (match g.rules[cv.rule].cost case Fixed(n) => n case Computed => g.computed(cv.rule, Spelled(g, nt, cv)))
    + TotalAll(g, GoalsOf(g.rules[cv.rule].pattern), cv.kids)
  }

  function TotalAll(g: Grammar, goals: seq<nat>, kids: seq<Cover>): nat
    requires |kids| == |goals| && forall i :: 0 <= i < |kids| ==> Derives(g, goals[i], kids[i])
    decreases kids, 0
  {
    if kids == [] then 0 else Total(g, goals[0], kids[0]) + TotalAll(g, goals[1..], kids[1..])
  }

  /** Trees with the nonterminals they are to be derived from. */
  function Paired(ts: seq<Tree>, goals: seq<nat>): seq<(Tree, nat)>
    requires |ts| == |goals|
  {
    seq(|ts|, i requires 0 <= i < |ts| => (ts[i], goals[i]))
  }

  /** A pattern matches the trees that it becomes by plugging, with the plugged trees at its nonterminals. */
  lemma {:induction false} PluggedMatches(p: Pattern, ts: seq<Tree>)
    requires |ts| == |GoalsOf(p)|
    ensures Matches(p, Plugged(p, ts)) && Leaves(p, Plugged(p, ts)) == Paired(ts, GoalsOf(p))
  {
    match p
    case Goal(_) =>
    case Term0(_) =>
    case Term1(_, l) => PluggedMatches(l, ts);
    case Term2(_, l, r) =>
      var n := |GoalsOf(l)|;
      PluggedMatches(l, ts[..n]);
      PluggedMatches(r, ts[n..]);
      assert Paired(ts, GoalsOf(p)) == Paired(ts[..n], GoalsOf(l)) + Paired(ts[n..], GoalsOf(r));
  }

  /** And no others. */
  lemma {:induction false} MatchesPlugged(p: Pattern, t: Tree, ts: seq<Tree>)
    requires Matches(p, t) && |ts| == |GoalsOf(p)| && Leaves(p, t) == Paired(ts, GoalsOf(p))
    ensures Plugged(p, ts) == t
  {
    match p
    case Goal(_) => assert Leaves(p, t)[0] == Paired(ts, GoalsOf(p))[0];
    case Term0(_) =>
    case Term1(_, l) => MatchesPlugged(l, t.left, ts);
    case Term2(_, l, r) =>
      var n := |GoalsOf(l)|;
      LeavesGoals(l, t.left);
      LeavesGoals(r, t.right);
      assert Paired(ts, GoalsOf(p)) == Paired(ts[..n], GoalsOf(l)) + Paired(ts[n..], GoalsOf(r));
      Halves(Leaves(l, t.left), Leaves(r, t.right), Paired(ts[..n], GoalsOf(l)), Paired(ts[n..], GoalsOf(r)));
      MatchesPlugged(l, t.left, ts[..n]);
      MatchesPlugged(r, t.right, ts[n..]);
  }

  lemma Halves<T>(a: seq<T>, b: seq<T>, c: seq<T>, d: seq<T>)
    requires a + b == c + d && |a| == |c|
    ensures a == c && b == d
  {
    assert a == (a + b)[..|a|] && c == (c + d)[..|c|] && b == (a + b)[|a|..] && d == (c + d)[|c|..];
  }

  lemma {:induction false} LeavesGoals(p: Pattern, t: Tree)
    requires Matches(p, t)
    ensures |Leaves(p, t)| == |GoalsOf(p)| && forall i :: 0 <= i < |Leaves(p, t)| ==> Leaves(p, t)[i].1 == GoalsOf(p)[i]
  {
    match p
    case Goal(_) =>
    case Term0(_) =>
    case Term1(_, l) => LeavesGoals(l, t.left);
    case Term2(_, l, r) =>
      LeavesGoals(l, t.left);
      LeavesGoals(r, t.right);
  }

  /** A cover of a tree is a derivation that spells it, and costs what its rules cost together. */
  lemma {:induction false} CoverSpells(g: Grammar, t: Tree, nt: nat, cv: Cover)
    requires Covers(g, t, nt, cv)
    ensures Derives(g, nt, cv) && Spelled(g, nt, cv) == t && CoverCost(g, t, nt, cv) == Total(g, nt, cv)
    decreases cv, 1
  {
    var p := g.rules[cv.rule].pattern;
    LeavesGoals(p, t);
    KidsSpell(g, Leaves(p, t), GoalsOf(p), cv.kids);
    MatchesPlugged(p, t, SpelledAll(g, GoalsOf(p), cv.kids));
  }

  lemma {:induction false} KidsSpell(g: Grammar, ls: seq<(Tree, nat)>, goals: seq<nat>, kids: seq<Cover>)
    requires |kids| == |ls| == |goals| && forall i :: 0 <= i < |ls| ==> ls[i].1 == goals[i]
    requires forall i :: 0 <= i < |ls| ==> Covers(g, ls[i].0, ls[i].1, kids[i])
    ensures forall i :: 0 <= i < |kids| ==> Derives(g, goals[i], kids[i])
    ensures ls == Paired(SpelledAll(g, goals, kids), goals) && KidsCost(g, ls, kids) == TotalAll(g, goals, kids)
    decreases kids, 0
  {
    if kids != [] {
      CoverSpells(g, ls[0].0, ls[0].1, kids[0]);
      KidsSpell(g, ls[1..], goals[1..], kids[1..]);
      forall i | 0 <= i < |kids| ensures Derives(g, goals[i], kids[i]) {
        if i > 0 {
          assert Derives(g, goals[1..][i - 1], kids[1..][i - 1]);
        }
      }
      var ts := SpelledAll(g, goals, kids);
      forall i | 0 <= i < |ls| ensures ls[i] == (ts[i], goals[i]) {
        if i > 0 {
          assert ls[1..][i - 1] == Paired(ts[1..], goals[1..])[i - 1];
        }
      }
    }
  }

  /** A derivation covers the tree that it spells. */
  lemma {:induction false} SpelledCovers(g: Grammar, nt: nat, cv: Cover)
    requires Derives(g, nt, cv)
    ensures Covers(g, Spelled(g, nt, cv), nt, cv)
    decreases cv, 1
  {
    var p := g.rules[cv.rule].pattern;
    var goals := GoalsOf(p);
    KidsCover(g, goals, cv.kids);
    PluggedMatches(p, SpelledAll(g, goals, cv.kids));
  }

  lemma {:induction false} KidsCover(g: Grammar, goals: seq<nat>, kids: seq<Cover>)
    requires |kids| == |goals| && forall i :: 0 <= i < |kids| ==> Derives(g, goals[i], kids[i])
    ensures forall i :: 0 <= i < |kids| ==> Covers(g, SpelledAll(g, goals, kids)[i], goals[i], kids[i])
    decreases kids, 0
  {
    if kids != [] {
      SpelledCovers(g, goals[0], kids[0]);
      KidsCover(g, goals[1..], kids[1..]);
      forall i | 0 <= i < |kids| ensures Covers(g, SpelledAll(g, goals, kids)[i], goals[i], kids[i]) {
        if i > 0 {
          assert Covers(g, SpelledAll(g, goals[1..], kids[1..])[i - 1], goals[1..][i - 1], kids[1..][i - 1]);
        }
      }
    }
  }

  /** The derivation spells the tree from nt. */
  predicate DerivationOf(g: Grammar, t: Tree, nt: nat, cv: Cover) { Derives(g, nt, cv) && Spelled(g, nt, cv) == t }

  /** So the labeller's covers are the derivations of the tree. */
  lemma {:induction false} CoversExactly(g: Grammar, t: Tree, nt: nat, cv: Cover)
    ensures Covers(g, t, nt, cv) <==> DerivationOf(g, t, nt, cv)
  {
    if Covers(g, t, nt, cv) {
      CoverSpells(g, t, nt, cv);
    }
    if DerivationOf(g, t, nt, cv) {
      SpelledCovers(g, nt, cv);
    }
  }

  datatype Selection = Selected(cv: Cover) | NoCover

  /** Instruction selection for a tree: a cheapest derivation, or none when every derivation costs 0x7fff or more. */
  method Select(g: Grammar, t: Tree, nt: nat, junk: (Tree, nat) -> nat) returns (s: Selection)
    requires WellFormed(g) && nt < g.nts
    ensures s.Selected? ==> DerivationOf(g, t, nt, s.cv) && Total(g, nt, s.cv) < 0x7fff
    ensures s.Selected? ==> forall cv :: DerivationOf(g, t, nt, cv) ==> Total(g, nt, s.cv) <= Total(g, nt, cv)
    ensures s.NoCover? ==> forall cv :: DerivationOf(g, t, nt, cv) ==> Total(g, nt, cv) >= 0x7fff
  {
    var lt := Label(g, t, junk);
    LabelledRanged(g, lt);
    forall cv | DerivationOf(g, t, nt, cv) ensures lt.st.cost[nt] <= Total(g, nt, cv) {
      CoversExactly(g, t, nt, cv);
      CoverSpells(g, t, nt, cv);
      Optimal(g, lt, nt, cv);
    }
    if lt.st.cost[nt] < MAX {
      var cv := Reduce(g, lt, nt);
      CoverSpells(g, t, nt, cv);
      s := Selected(cv);
    } else {
      s := NoCover;
    }
  }
}
