/**
 When rescanning ends for macros without arguments, with hidesets that stop
 growing when they are full: exactly when no chain of definitions comes to the
 same name under the same hideset twice.
 */
module Cycle {
  import opened Hideset
  import opened Macro

  /** u is a name in the replacement of t. */
  ghost predicate Succ(defs: Defs, t: Tagged, u: Tagged) {
    && Expandable(defs, t)
    && exists i :: 0 <= i < |defs[t.p.text]| && defs[t.p.text][i].isName && u == Replaced(defs, t, i)
  }

  /** The i-th token of the replacement of t. */
  function Replaced(defs: Defs, t: Tagged, i: int): Tagged
    requires Expandable(defs, t) && 0 <= i < |defs[t.p.text]|
  {
    Tag(defs[t.p.text][i], Hide(t.hidden, t.p.text))
  }

  /** Replacing t, then the names in its replacement, and so on, comes to an end. */
  least predicate Finite(defs: Defs, t: Tagged) {
    forall u :: Succ(defs, t, u) ==> Finite(defs, u)
  }

  // ----------------------------------------------------------- finite and finished

  /** In front of any row, n turns turn these tokens into `out`. */
  ghost predicate Consumes(defs: Defs, row: seq<Tagged>, n: nat, out: seq<Tagged>) {
    forall done, rest :: Turns(defs, Scan(done, row + rest), n) == Scan(done + out, rest)
  }

  ghost predicate Consumed(defs: Defs, row: seq<Tagged>) { exists n: nat, out :: Consumes(defs, row, n, out) }

  lemma ConsumedNone(defs: Defs)
    ensures Consumed(defs, [])
  {
    forall done, rest ensures Turns(defs, Scan(done, [] + rest), 0) == Scan(done + [], rest) {
      assert [] + rest == rest && done + [] == done;
    }
    assert Consumes(defs, [], 0, []);
  }

  lemma ConsumedBoth(defs: Defs, a: seq<Tagged>, b: seq<Tagged>)
    requires Consumed(defs, a) && Consumed(defs, b)
    ensures Consumed(defs, a + b)
  {
    var m: nat, x :| Consumes(defs, a, m, x);
    var n: nat, y :| Consumes(defs, b, n, y);
    forall done, rest ensures Turns(defs, Scan(done, (a + b) + rest), m + n) == Scan(done + (x + y), rest) {
      assert (a + b) + rest == a + (b + rest);
      TurnsMore(defs, Scan(done, a + (b + rest)), m, n);
      assert Turns(defs, Scan(done, a + (b + rest)), m) == Scan(done + x, b + rest);
      assert Turns(defs, Scan(done + x, b + rest), n) == Scan((done + x) + y, rest);
      assert (done + x) + y == done + (x + y);
    }
    assert Consumes(defs, a + b, m + n, x + y);
  }

  lemma {:induction false} ConsumedAll(defs: Defs, row: seq<Tagged>)
    requires forall i :: 0 <= i < |row| ==> Consumed(defs, [row[i]])
    ensures Consumed(defs, row)
  {
    if row == [] {
      ConsumedNone(defs);
    } else {
      ConsumedAll(defs, row[1..]);
      ConsumedBoth(defs, [row[0]], row[1..]);
      assert row == [row[0]] + row[1..];
    }
  }

  /** One turn, then those for the replacement. */
  lemma ConsumedOne(defs: Defs, t: Tagged)
    requires Expandable(defs, t) ==> Consumed(defs, TagAll(defs[t.p.text], Hide(t.hidden, t.p.text)))
    ensures Consumed(defs, [t])
  {
    if Expandable(defs, t) {
      var body := TagAll(defs[t.p.text], Hide(t.hidden, t.p.text));
      var n: nat, out :| Consumes(defs, body, n, out);
      forall done, rest ensures Turns(defs, Scan(done, [t] + rest), n + 1) == Scan(done + out, rest) {
        assert ([t] + rest)[1..] == rest;
        assert Turn(defs, Scan(done, [t] + rest)) == Scan(done, body + rest);
      }
      assert Consumes(defs, [t], n + 1, out);
    } else {
      forall done, rest ensures Turns(defs, Scan(done, [t] + rest), 1) == Scan(done + [t], rest) {
        assert ([t] + rest)[1..] == rest;
      }
      assert Consumes(defs, [t], 1, [t]);
    }
  }

  least lemma {:induction false} FiniteConsumed(defs: Defs, t: Tagged)
    requires Finite(defs, t)
    ensures Consumed(defs, [t])
  {
    if Expandable(defs, t) {
      var body := TagAll(defs[t.p.text], Hide(t.hidden, t.p.text));
      forall i | 0 <= i < |body| ensures Consumed(defs, [body[i]]) {
        var u := Replaced(defs, t, i);
        if defs[t.p.text][i].isName {
          assert Succ(defs, t, u);
          FiniteConsumed(defs, u);
        } else {
          ConsumedOne(defs, u);
        }
      }
      ConsumedAll(defs, body);
    }
    ConsumedOne(defs, t);
  }

  /** A scan that ends has met only tokens that are finite. */
  lemma {:induction false} FinishedFinite(defs: Defs, s: Scan, n: nat)
    requires Turns(defs, s, n).left == []
    ensures forall i :: 0 <= i < |s.left| ==> Finite(defs, s.left[i])
    decreases n
  {
    if s.left != [] {
      var t, s' := s.left[0], Turn(defs, s);
      FinishedFinite(defs, s', n - 1);
      forall u | Succ(defs, t, u) ensures Finite(defs, u) {
        var i :| 0 <= i < |defs[t.p.text]| && defs[t.p.text][i].isName && u == Replaced(defs, t, i);
        assert s'.left[i] == u;
      }
      forall i | 1 <= i < |s.left| ensures Finite(defs, s.left[i]) {
        assert s.left[i] == s'.left[|s'.left| - |s.left| + i];
      }
    }
  }

  /** The scan of a row ends exactly when every token of it is finite. */
  lemma {:induction false} FinishesFinite(defs: Defs, row: seq<Tagged>)
    ensures Finishes(defs, row) <==> forall i :: 0 <= i < |row| ==> Finite(defs, row[i])
  {
    if Finishes(defs, row) {
      var n: nat :| Turns(defs, Scan([], row), n).left == [];
      FinishedFinite(defs, Scan([], row), n);
    }
    if forall i :: 0 <= i < |row| ==> Finite(defs, row[i]) {
      forall i | 0 <= i < |row| ensures Consumed(defs, [row[i]]) {
        FiniteConsumed(defs, row[i]);
      }
      ConsumedAll(defs, row);
      var n: nat, out :| Consumes(defs, row, n, out);
      assert row + [] == row;
      assert Turns(defs, Scan([], row + []), n) == Scan([] + out, []);
    }
  }

  // ---------------------------------------------------------- chains of definitions

  /** Each token of the walk is in the replacement of the one before it. */
  ghost predicate Walk(defs: Defs, w: seq<Tagged>) {
    w != [] && forall i :: 0 <= i < |w| - 1 ==> Succ(defs, w[i], w[i + 1])
  }

  ghost predicate Twice(w: seq<Tagged>, i: int, j: int) { 0 <= i < j < |w| && w[i] == w[j] }

  /** A walk that comes to some token a second time. */
  ghost predicate Lasso(defs: Defs, w: seq<Tagged>) { Walk(defs, w) && exists i, j :: Twice(w, i, j) }

  /** Some chain of definitions from t comes to the same name under the same hideset twice. */
  ghost predicate Repeats(defs: Defs, t: Tagged) { exists w :: Lasso(defs, w) && w[0] == t }

  lemma WalkJoin(defs: Defs, a: seq<Tagged>, b: seq<Tagged>)
    requires Walk(defs, a) && Walk(defs, b) && Succ(defs, a[|a| - 1], b[0])
    ensures Walk(defs, a + b)
  {
    var w := a + b;
    forall i | 0 <= i < |w| - 1 ensures Succ(defs, w[i], w[i + 1]) {
      if i < |a| - 1 {
        assert Succ(defs, a[i], a[i + 1]);
      } else if i >= |a| {
        assert Succ(defs, b[i - |a|], b[i - |a| + 1]);
      }
    }
  }

  lemma WalkPart(defs: Defs, w: seq<Tagged>, from: nat, to: nat)
    requires Walk(defs, w) && from < to <= |w|
    ensures Walk(defs, w[from..to])
  {
    var v := w[from..to];
    forall i | 0 <= i < |v| - 1 ensures Succ(defs, v[i], v[i + 1]) {
      assert Succ(defs, w[from + i], w[from + i + 1]);
    }
  }

  /** A walk that returns can start one step later. */
  lemma LassoMoves(defs: Defs, w: seq<Tagged>)
    requires Lasso(defs, w)
    ensures |w| > 1 && Succ(defs, w[0], w[1]) && Repeats(defs, w[1])
  {
    var i, j :| Twice(w, i, j);
    var v := w[1..j + 1];
    WalkPart(defs, w, 1, j + 1);
    assert Succ(defs, w[0], w[0 + 1]);
    if i > 0 {
      assert Twice(v, i - 1, j - 1);
      assert Lasso(defs, v) && v[0] == w[1];
    } else {
      assert Walk(defs, [w[1]]);
      WalkJoin(defs, v, [w[1]]);
      var u := v + [w[1]];
      assert Twice(u, 0, |u| - 1);
      assert Lasso(defs, u) && u[0] == w[1];
    }
  }

  least lemma {:induction false} FiniteNever(defs: Defs, t: Tagged)
    requires Finite(defs, t)
    ensures !Repeats(defs, t)
  {
    if Repeats(defs, t) {
      var w :| Lasso(defs, w) && w[0] == t;
      LassoMoves(defs, w);
      FiniteNever(defs, w[1]);
    }
  }

  /** Hidesets only grow along a walk. */
  lemma {:induction false} WalkGrows(defs: Defs, w: seq<Tagged>, i: nat, j: nat)
    requires Walk(defs, w) && i <= j < |w|
    ensures w[i].hidden <= w[j].hidden
    decreases j - i
  {
    if i < j {
      assert Succ(defs, w[j - 1], w[j - 1 + 1]);
      WalkGrows(defs, w, i, j - 1);
    }
  }

  /** What repeats does so under a full hideset, which then is that of the whole round. */
  lemma RepeatFull(defs: Defs, w: seq<Tagged>, i: nat, j: nat, k: nat)
    requires Walk(defs, w) && Twice(w, i, j) && i <= k < j
    ensures Expandable(defs, w[k]) && w[k].hidden == w[i].hidden && |w[i].hidden| >= 30
  {
    WalkGrows(defs, w, i, k);
    WalkGrows(defs, w, k, j);
    WalkGrows(defs, w, k + 1, j);
    assert Succ(defs, w[k], w[k + 1]);
    var h, n := w[k].hidden, w[k].p.text;
    assert n !in h && n !in w[k + 1].hidden;
    assert |h + {n}| == |h| + 1;
  }

  // ------------------------------------------------------------------ exactly when

  /** The walk keeps one hideset, and nothing that starts where it starts repeats. */
  ghost predicate Steady(defs: Defs, w: seq<Tagged>) {
    && Walk(defs, w) && !Repeats(defs, w[0])
    && forall i :: 0 <= i < |w| ==> w[i].p.isName && w[i].hidden == w[0].hidden
  }

  /** The names of the first n tokens. */
  ghost function Names(w: seq<Tagged>, n: nat): set<Name>
    requires n <= |w|
  {
    if n == 0 then {} else Names(w, n - 1) + {w[n - 1].p.text}
  }

  lemma {:induction false} NamesFound(w: seq<Tagged>, n: nat, x: Name) returns (i: int)
    requires n <= |w| && x in Names(w, n)
    ensures 0 <= i < n && w[i].p.text == x
  {
    i := n - 1;
    if w[n - 1].p.text != x {
      i := NamesFound(w, n - 1, x);
    }
  }

  /** Without repetition the walk is no longer than there are definitions. */
  lemma {:induction false} FewNames(defs: Defs, w: seq<Tagged>, n: nat)
    requires Steady(defs, w) && n <= |w| && forall i :: 0 <= i < n ==> w[i].p.text in defs
    ensures Names(w, n) <= defs.Keys && |Names(w, n)| == n <= |defs.Keys|
    decreases n
  {
    if n > 0 {
      FewNames(defs, w, n - 1);
      var x := w[n - 1].p.text;
      if x in Names(w, n - 1) {
        var i := NamesFound(w, n - 1, x);
        assert w[i] == w[n - 1];
        assert Twice(w, i, n - 1) && Lasso(defs, w);
      }
      Smaller(Names(w, n), defs.Keys);
    }
  }

  lemma StillSteady(defs: Defs, w: seq<Tagged>, u: Tagged)
    requires Steady(defs, w) && Succ(defs, w[|w| - 1], u) && u.p.isName
    ensures if u.hidden == w[0].hidden then Steady(defs, w + [u]) else Steady(defs, [u])
  {
    assert Walk(defs, [u]);
    WalkJoin(defs, w, [u]);
    if Repeats(defs, u) {
      var v :| Lasso(defs, v) && v[0] == u;
      var i, j :| Twice(v, i, j);
      WalkJoin(defs, w, v);
      assert Twice(w + v, |w| + i, |w| + j) && (w + v)[0] == w[0];
      assert Lasso(defs, w + v);
    }
  }

  /** Where nothing repeats, replacing comes to an end. */
  lemma {:induction false} SteadyFinite(defs: Defs, w: seq<Tagged>)
    requires Steady(defs, w)
    ensures Finite(defs, w[|w| - 1])
    decreases |defs.Keys - w[0].hidden|, |defs.Keys| + 1 - |w|
  {
    var t := w[|w| - 1];
    forall u | Succ(defs, t, u) ensures Finite(defs, u) {
      forall i | 0 <= i < |w| ensures w[i].p.text in defs {
        assert i < |w| - 1 ==> Succ(defs, w[i], w[i + 1]);
      }
      FewNames(defs, w, |w|);
      StillSteady(defs, w, u);
      if u.hidden == w[0].hidden {
        SteadyFinite(defs, w + [u]);
      } else {
        FewerLeft(defs, t.hidden, t.p.text);
        SteadyFinite(defs, [u]);
      }
    }
  }

  lemma {:induction false} FiniteExactly(defs: Defs, t: Tagged)
    ensures Finite(defs, t) <==> !Repeats(defs, t)
  {
    if Finite(defs, t) {
      FiniteNever(defs, t);
    }
    if !Repeats(defs, t) {
      if t.p.isName {
        assert Steady(defs, [t]);
        SteadyFinite(defs, [t]);
      }
    }
  }

  /** The scan of a row ends exactly when no chain of definitions from one of its tokens repeats. */
  lemma FinishesExactly(defs: Defs, row: seq<Tagged>)
    ensures Finishes(defs, row) <==> forall i :: 0 <= i < |row| ==> !Repeats(defs, row[i])
  {
    FinishesFinite(defs, row);
    forall i | 0 <= i < |row| ensures Finite(defs, row[i]) <==> !Repeats(defs, row[i]) {
      FiniteExactly(defs, row[i]);
    }
  }

  // --------------------------------------------------------------------- an example

  const TOP: int := 31

  /** Macros 1 to k, each naming the next one, and the thirty-first itself. */
  function Ladder(k: nat): Defs {
    if k == 0 then map[] else Ladder(k - 1)[k := [Piece(true, if k < TOP then k + 1 else k)]]
  }

  lemma {:induction false} LadderHas(k: nat, n: nat)
    requires 1 <= n <= k
    ensures n in Ladder(k) && Ladder(k)[n] == [Piece(true, if n < TOP then n + 1 else n)]
  {
    if n < k {
      LadderHas(k - 1, n);
    }
  }

  function Below(n: nat): set<Name> { if n <= 1 then {} else Below(n - 1) + {n - 1} }

  /** The name n with those below it hidden. */
  function Rung(n: nat): Tagged
    requires n > 0
  {
    Tagged(Piece(true, n), Below(n))
  }

  lemma {:induction false} BelowCard(n: nat)
    requires n >= 1
    ensures |Below(n)| == n - 1 && forall i :: i in Below(n) ==> i < n
  {
    if n > 1 {
      BelowCard(n - 1);
    }
  }

  lemma {:induction false} LadderSucc(top: nat, n: nat)
    requires top == TOP && 1 <= n <= top
    ensures Succ(Ladder(top), Rung(n), Rung(if n < top then n + 1 else n))
  {
    BelowCard(n);
    LadderHas(top, n);
    assert |Below(n) + {n}| == n && Below(n + 1) == Below(n) + {n};
    assert Rung(if n < top then n + 1 else n) == Replaced(Ladder(top), Rung(n), 0);
  }

  lemma {:induction false} LadderRepeats(top: nat)
    requires top == TOP
    ensures Repeats(Ladder(top), Rung(1))
  {
    var defs := Ladder(top);
    var w := seq(top + 1, i requires 0 <= i < top + 1 => Rung(if i < top then i + 1 else top));
    forall i | 0 <= i < |w| - 1 ensures Succ(defs, w[i], w[i + 1]) {
      LadderSucc(top, i + 1);
    }
    assert Twice(w, top - 1, top);
    LassoRepeats(defs, w);
    assert w[0] == Rung(1);
  }

  lemma LassoRepeats(defs: Defs, w: seq<Tagged>)
    requires Lasso(defs, w)
    ensures Repeats(defs, w[0])
  {
  }

  lemma RepeatLoops(defs: Defs, t: Tagged)
    requires Repeats(defs, t)
    ensures !Finishes(defs, [t])
  {
    FinishesExactly(defs, [t]);
    assert [t][0] == t;
  }

  /** From an empty hideset, the scan of the first of thirty-one such macros never ends. */
  lemma {:induction false} LadderLoops(top: nat)
    requires top == TOP
    ensures Rung(1) == Tagged(Piece(true, 1), {}) && !Finishes(Ladder(top), [Rung(1)])
  {
    LadderRepeats(top);
    RepeatLoops(Ladder(top), Rung(1));
  }
}
