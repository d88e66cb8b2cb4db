/**
 When macro rescanning comes to an end, for macros with arguments too. A scan is
 seen as what is left of its row and of its source; each turn of the loop passes
 over tokens or replaces some of them, and a call first scans its arguments. What
 a call is replaced by is left open: any row with the hidesets the code gives it.
 */
module Rescan {
  import opened Hideset
  import opened Macro

  type Row = seq<Tagged>

  // ------------------------------------------------------------- turns of the loop

  /** The defined names: those without parameters, and those that are replaced only when arguments follow. */
  datatype Macros = Macros(objects: set<Name>, calls: set<Name>)

  const NEWLINE := Piece(false, 10)
  const LEFT_PAREN := Piece(false, 40)

  predicate Replaceable(m: Macros, t: Tagged) {
    t.p.isName && t.p.text in m.objects + m.calls && t.p.text !in t.hidden
  }

  /** u hides what t hides, and the name t. */
  predicate Grown(t: Tagged, u: Tagged) { t.hidden + {t.p.text} <= u.hidden }

  predicate Full(t: Tagged) { |t.hidden| >= 30 }

  /** The first k tokens are replaced; each name hides more than the name replaced, unless its hideset is full. */
  ghost predicate IsReplacement(m: Macros, r: Row, k: nat, repl: Row) {
    && 1 <= k <= |r| && Replaceable(m, r[0])
    && forall i :: 0 <= i < |repl| && repl[i].p.isName ==> Grown(r[0], repl[i]) || Full(repl[i])
  }

  function SkipNewlines(r: Row, k: nat): (j: nat)
    requires k <= |r|
    ensures k <= j <= |r|
    decreases |r| - k
  {
    if k < |r| && r[k].p == NEWLINE then SkipNewlines(r, k + 1) else k
  }

  /** The name in front takes arguments and nothing but newlines follows it in the row and its source. */
  predicate Stuck(m: Macros, r: Row) {
    r != [] && Replaceable(m, r[0]) && r[0].p.text !in m.objects && SkipNewlines(r, 1) == |r|
  }

  /** The name in front takes arguments, and a parenthesis follows. */
  predicate Calls(m: Macros, r: Row) {
    && r != [] && Replaceable(m, r[0]) && r[0].p.text !in m.objects
    && var k := SkipNewlines(r, 1); k < |r| && r[k].p == LEFT_PAREN
  }

  /**
   What one turn of the loop may do to what is left of the row and of its source. A name with parameters that is
   followed by another token than a parenthesis is passed over along with the newlines; one that is followed by the
   end of the source is put back, and the row is as before.
   */
  ghost predicate Steps(m: Macros, r: Row, r': Row) {
    && r != []
    && if !Replaceable(m, r[0]) then r' == r[1..]
       else if r[0].p.text in m.objects then exists repl :: IsReplacement(m, r, 1, repl) && r' == repl + r[1..]
       else if Stuck(m, r) then r' == r
       else if !Calls(m, r) then r' == r[SkipNewlines(r, 1)..]
       else exists j: nat, repl :: IsReplacement(m, r, j, repl) && (r' == r[j..] || r' == repl + r[j..])
  }

  predicate IsNewline(t: Tagged) { t.p == Piece(false, 10) }

  lemma {:induction false} SkipsNewlines(r: Row, k: nat)
    requires k <= |r|
    ensures var j := SkipNewlines(r, k); (forall i :: k <= i < j ==> IsNewline(r[i])) && (j < |r| ==> !IsNewline(r[j]))
    decreases |r| - k
  {
    if k < |r| && IsNewline(r[k]) {
      SkipsNewlines(r, k + 1);
    }
  }

  /** A name that is defined with parameters, not without, and not hidden. */
  predicate TakesArguments(m: Macros, t: Tagged) {
    t.p.isName && t.p.text in m.calls && t.p.text !in m.objects && t.p.text !in t.hidden
  }

  /** Which rows are stuck: nothing but newlines follows. */
  lemma StuckExactly(m: Macros, r: Row)
    ensures Stuck(m, r) <==> r != [] && TakesArguments(m, r[0]) && forall i :: 1 <= i < |r| ==> IsNewline(r[i])
  {
    if r != [] {
      SkipsNewlines(r, 1);
    }
  }

  /** When the token at k is the first behind the name that is no newline, it decides what a turn does. */
  lemma NextDecides(m: Macros, r: Row, r': Row, k: nat)
    requires 1 <= k < |r| && TakesArguments(m, r[0]) && !IsNewline(r[k]) && forall i :: 1 <= i < k ==> IsNewline(r[i])
    ensures Calls(m, r) <==> r[k].p == Piece(false, 40)
    ensures r[k].p != Piece(false, 40) ==> (Steps(m, r, r') <==> r' == r[k..])
  {
    SkipsNewlines(r, 1);
  }

  /** The same name with the same hideset, or two tokens that are no names. */
  predicate Like(t: Tagged, u: Tagged) { t == u || (!t.p.isName && !u.p.isName) }

  /** a is what is left of r when some tokens are dropped, and others that are no names may be marked. */
  predicate Sub(a: Row, r: Row) {
    a == [] || (r != [] && (Sub(a, r[1..]) || (Like(a[0], r[0]) && Sub(a[1..], r[1..]))))
  }

  /**
   The arguments that a call scans by themselves are taken from behind the name; newlines in them are dropped, and
   double sharps are marked as ordinary.
   */
  ghost predicate ArgsOk(m: Macros, r: Row, args: seq<Row>) {
    && (args != [] ==> Calls(m, r))
    && forall a :: a in args ==> Sub(a, r[1..])
  }

  /** What the loop does: the row after a turn, and the arguments scanned during it. */
  datatype Scanner = Scanner(next: Row -> Row, args: Row -> seq<Row>)

  ghost predicate Legal(m: Macros, sc: Scanner) {
    forall r :: r != [] ==> Steps(m, r, sc.next(r)) && ArgsOk(m, r, sc.args(r))
  }

  // ---------------------------------------------------------------- turns that grow

  ghost predicate IsGrowing(names: set<Name>, r: Row, k: nat, repl: Row) {
    && 1 <= k <= |r| && r[0].p.isName && r[0].p.text in names && r[0].p.text !in r[0].hidden
    && forall i :: 0 <= i < |repl| && repl[i].p.isName ==> Grown(r[0], repl[i])
  }

  /** r' has fewer of the tokens of r, or r with a name in front replaced by names that all hide more. */
  ghost predicate Grows(names: set<Name>, r: Row, r': Row) {
    || (|r'| < |r| && Sub(r', r))
    || (exists k: nat, repl :: IsGrowing(names, r, k, repl) && r' == repl + r[k..])
  }

  /** Every sequence of such turns from r comes to an end. */
  least predicate Halts(names: set<Name>, r: Row) {
    forall r' :: Grows(names, r, r') ==> Halts(names, r')
  }

  /** How many more names a token could come to hide. */
  ghost function Depth(names: set<Name>, t: Tagged): nat {
    if t.p.isName then |names - t.hidden| else 0
  }

  lemma GrowingDepth(names: set<Name>, r: Row, k: nat, repl: Row, i: nat)
    requires IsGrowing(names, r, k, repl) && i < |repl|
    ensures Depth(names, repl[i]) < Depth(names, r[0])
  {
    var n := r[0].p.text;
    assert n in names - r[0].hidden;
    if repl[i].p.isName {
      assert names - repl[i].hidden <= (names - r[0].hidden) - {n};
      Smaller(names - repl[i].hidden, (names - r[0].hidden) - {n});
    }
  }

  lemma {:induction false} SubSelf(r: Row)
    ensures Sub(r, r)
  {
    if r != [] {
      SubSelf(r[1..]);
    }
  }

  lemma {:induction false} SubSuffix(r: Row, k: nat)
    requires k <= |r|
    ensures Sub(r[k..], r)
  {
    if k == 0 {
      SubSelf(r);
    } else {
      SubSuffix(r[1..], k - 1);
      assert r[1..][k - 1..] == r[k..];
    }
  }

  lemma {:induction false} SubTrans(a: Row, b: Row, c: Row)
    requires Sub(a, b) && Sub(b, c)
    ensures Sub(a, c)
    decreases |c|
  {
    if a != [] {
      if Sub(b, c[1..]) {
        SubTrans(a, b, c[1..]);
      } else if Sub(a, b[1..]) {
        SubTrans(a, b[1..], c[1..]);
      } else {
        SubTrans(a[1..], b[1..], c[1..]);
      }
    }
  }

  lemma {:induction false} SubLength(a: Row, r: Row)
    requires Sub(a, r)
    ensures |a| <= |r|
  {
    if a != [] {
      if Sub(a, r[1..]) {
        SubLength(a, r[1..]);
      } else {
        SubLength(a[1..], r[1..]);
      }
    }
  }

  /** Whatever tokens are dropped, the row halts. */
  ghost predicate PartsHalt(names: set<Name>, r: Row) {
    forall q :: Sub(q, r) ==> Halts(names, q)
  }

  lemma {:induction false} PartOfPart(names: set<Name>, r: Row, q: Row)
    requires PartsHalt(names, r) && Sub(q, r)
    ensures PartsHalt(names, q)
  {
    forall a | Sub(a, q) ensures Halts(names, a) {
      SubTrans(a, q, r);
    }
  }

  /** What a turn on x + p can lead to halts, when the parts of p and of any smaller replacement in front of them do. */
  lemma {:induction false} PrefixHalts(names: set<Name>, depth: nat, x: Tagged, p: Row)
    requires Depth(names, x) <= depth && PartsHalt(names, p)
    ensures Halts(names, [x] + p)
    decreases depth, |p|, 1
  {
    var row := [x] + p;
    assert row[1..] == p;
    forall r' | Grows(names, row, r') ensures Halts(names, r') {
      if |r'| < |row| && Sub(r', row) {
        if !Sub(r', p) {
          PartOfPart(names, p, r'[1..]);
          PrefixHalts(names, depth, r'[0], r'[1..]);
          assert r' == [r'[0]] + r'[1..];
        }
      } else {
        var k: nat, repl :| IsGrowing(names, row, k, repl) && r' == repl + row[k..];
        assert row[k..] == p[k - 1..];
        GrownHalts(names, depth, x, p, k, repl);
      }
    }
  }

  lemma {:induction false} GrownHalts(names: set<Name>, depth: nat, x: Tagged, p: Row, k: nat, repl: Row)
    requires Depth(names, x) <= depth && PartsHalt(names, p) && IsGrowing(names, [x] + p, k, repl)
    ensures Halts(names, repl + p[k - 1..])
    decreases depth, |p|, 0
  {
    var rest := p[k - 1..];
    SubSuffix(p, k - 1);
    PartOfPart(names, p, rest);
    forall i | 0 <= i < |repl| ensures Depth(names, repl[i]) < depth {
      GrowingDepth(names, [x] + p, k, repl, i);
    }
    SubSelf(repl + rest);
    if repl == [] {
      assert repl + rest == rest;
    } else {
      assert Depth(names, repl[0]) < depth;
      InFront(names, depth - 1, repl, rest);
    }
  }

  /** In front of a row whose parts halt, tokens of bounded depth do no harm: induction over multisets of depths. */
  lemma {:induction false} InFront(names: set<Name>, depth: nat, front: Row, rest: Row)
    requires forall i :: 0 <= i < |front| ==> Depth(names, front[i]) <= depth
    requires PartsHalt(names, rest)
    ensures PartsHalt(names, front + rest)
    decreases depth, |front| + |rest|, 2
  {
    if front == [] {
      assert front + rest == rest;
    } else {
      var p := front[1..] + rest;
      InFront(names, depth, front[1..], rest);
      assert front + rest == [front[0]] + p;
      PartsInFront(names, depth, front[0], p);
    }
  }

  lemma {:induction false} PartsInFront(names: set<Name>, depth: nat, x: Tagged, p: Row)
    requires Depth(names, x) <= depth && PartsHalt(names, p)
    ensures PartsHalt(names, [x] + p)
    decreases depth, |p| + 1, 1
  {
    var row := [x] + p;
    assert row[1..] == p;
    forall q | Sub(q, row) ensures Halts(names, q) {
      if !Sub(q, p) {
        SubLength(q[1..], p);
        PartOfPart(names, p, q[1..]);
        PrefixHalts(names, depth, q[0], q[1..]);
        assert q == [q[0]] + q[1..];
      }
    }
  }

  /** No row allows replacing, passing over and scanning parts for ever, as long as hidesets grow. */
  lemma {:induction false} RescanningHalts(names: set<Name>, row: Row)
    ensures Halts(names, row)
  {
    forall i | 0 <= i < |row| ensures Depth(names, row[i]) <= |names| {
      Smaller(names - row[i].hidden, names);
    }
    var none: Row := [];
    forall q | Sub(q, none) ensures Halts(names, q) {
      NothingHalts(names);
    }
    InFront(names, |names|, row, none);
    assert row + none == row;
    SubSelf(row);
  }

  lemma {:induction false} NothingHalts(names: set<Name>)
    ensures Halts(names, [])
  {
    assert forall r' :: !Grows(names, [], r');
  }

  // ---------------------------------------------------------------- a single scan

  /** The row after n turns. */
  ghost function Iter(sc: Scanner, r: Row, n: nat): Row
    decreases n
  {
    if n == 0 || r == [] then r else Iter(sc, sc.next(r), n - 1)
  }

  /** A turn that replaces without making every hideset grow. */
  ghost predicate Capped(m: Macros, r: Row, r': Row) {
    r != [] && !Stuck(m, r) && !Grows(m.objects + m.calls, r, r')
  }

  lemma PassGrows(names: set<Name>, r: Row, k: nat)
    requires 1 <= k <= |r|
    ensures Grows(names, r, r[k..])
  {
    SubSuffix(r, k);
  }

  /** Such a turn leaves a name with a full hideset. */
  lemma CappedFull(m: Macros, r: Row, r': Row)
    requires Steps(m, r, r') && Capped(m, r, r')
    ensures exists i :: 0 <= i < |r'| && r'[i].p.isName && Full(r'[i])
  {
    var names := m.objects + m.calls;
    forall k: nat | 1 <= k <= |r| ensures r' != r[k..] {
      PassGrows(names, r, k);
    }
    assert Replaceable(m, r[0]) && (r[0].p.text in m.objects || Calls(m, r));
    var j, repl := TurnReplaces(m, r, r');
    ReplacedFull(m, r, r', j, repl);
  }

  lemma TurnReplaces(m: Macros, r: Row, r': Row) returns (j: nat, repl: Row)
    requires Steps(m, r, r') && Replaceable(m, r[0]) && (r[0].p.text in m.objects || Calls(m, r))
    requires forall k: nat :: 1 <= k <= |r| ==> r' != r[k..]
    ensures IsReplacement(m, r, j, repl) && r' == repl + r[j..]
  {
    if r[0].p.text in m.objects {
      repl :| IsReplacement(m, r, 1, repl) && r' == repl + r[1..];
      j := 1;
    } else {
      j, repl :| IsReplacement(m, r, j, repl) && (r' == r[j..] || r' == repl + r[j..]);
    }
  }

  lemma ReplacedFull(m: Macros, r: Row, r': Row, j: nat, repl: Row)
    requires Capped(m, r, r') && IsReplacement(m, r, j, repl) && r' == repl + r[j..]
    ensures exists i :: 0 <= i < |r'| && r'[i].p.isName && Full(r'[i])
  {
    assert !IsGrowing(m.objects + m.calls, r, j, repl);
    var i :| 0 <= i < |repl| && repl[i].p.isName && !Grown(r[0], repl[i]);
    assert r'[i] == repl[i];
  }

  lemma {:induction false} IterNext(sc: Scanner, r: Row, n: nat)
    ensures Iter(sc, r, n + 1) == if Iter(sc, r, n) == [] then [] else sc.next(Iter(sc, r, n))
    decreases n
  {
    if n > 0 && r != [] {
      IterNext(sc, sc.next(r), n - 1);
    }
  }

  lemma {:induction false} StuckStays(m: Macros, sc: Scanner, r: Row, k: nat, n: nat)
    requires Legal(m, sc) && Stuck(m, Iter(sc, r, k)) && k <= n
    ensures Iter(sc, r, n) == Iter(sc, r, k)
    decreases n
  {
    if k < n {
      StuckStays(m, sc, r, k, n - 1);
      IterNext(sc, r, n - 1);
      assert Steps(m, Iter(sc, r, k), sc.next(Iter(sc, r, k)));
    }
  }

  lemma {:induction false} EndStays(sc: Scanner, r: Row, k: nat, n: nat)
    requires Iter(sc, r, k) == [] && k <= n
    ensures Iter(sc, r, n) == []
    decreases n
  {
    if k < n {
      EndStays(sc, r, k, n - 1);
      IterNext(sc, r, n - 1);
    }
  }

  ghost predicate StuckAt(m: Macros, sc: Scanner, r: Row, n: nat) { Stuck(m, Iter(sc, r, n)) }

  ghost predicate CappedTurn(m: Macros, sc: Scanner, r: Row, n: nat) {
    Capped(m, Iter(sc, r, n), sc.next(Iter(sc, r, n)))
  }

  /** From here on every turn makes hidesets grow, until the end. */
  ghost predicate GrowsOn(m: Macros, sc: Scanner, r: Row) {
    forall n: nat :: !StuckAt(m, sc, r, n) && !CappedTurn(m, sc, r, n)
  }

  least lemma {:induction false} GrowingEnds(m: Macros, sc: Scanner, names: set<Name>, r: Row)
    requires Halts(names, r)
    requires names == m.objects + m.calls && GrowsOn(m, sc, r)
    ensures exists n: nat :: Iter(sc, r, n) == []
  {
    if r == [] {
      assert Iter(sc, r, 0) == [];
    } else {
      var r' := sc.next(r);
      assert !StuckAt(m, sc, r, 0) && !CappedTurn(m, sc, r, 0);
      assert Grows(names, r, r');
      forall n: nat ensures !StuckAt(m, sc, r', n) && !CappedTurn(m, sc, r', n) {
        assert !StuckAt(m, sc, r, n + 1) && !CappedTurn(m, sc, r, n + 1);
        assert Iter(sc, r, n + 1) == Iter(sc, r', n);
      }
      GrowingEnds(m, sc, names, r');
      var n: nat :| Iter(sc, r', n) == [];
      assert Iter(sc, r, n + 1) == [];
    }
  }

  lemma {:induction false} IterMore(sc: Scanner, r: Row, k: nat, n: nat)
    ensures Iter(sc, r, k + n) == Iter(sc, Iter(sc, r, k), n)
    decreases k
  {
    if k > 0 && r != [] {
      IterMore(sc, sc.next(r), k - 1, n);
    }
  }

  /** From turn k on no turn is capped. */
  ghost predicate UncappedFrom(m: Macros, sc: Scanner, r: Row, k: nat) {
    forall n: nat :: n >= k ==> !CappedTurn(m, sc, r, n)
  }

  /** A scan ends exactly when it never puts a name back and replaces under full hidesets only finitely often. */
  lemma ScanExactly(m: Macros, sc: Scanner, r: Row)
    requires Legal(m, sc)
    ensures (exists n: nat :: Iter(sc, r, n) == []) <==>
            ((forall n: nat :: !StuckAt(m, sc, r, n)) && exists k: nat :: UncappedFrom(m, sc, r, k))
  {
    if n: nat :| Iter(sc, r, n) == [] {
      forall k: nat ensures !StuckAt(m, sc, r, k) && (k >= n ==> Iter(sc, r, k) == []) {
        if k >= n {
          EndStays(sc, r, n, k);
        } else if Stuck(m, Iter(sc, r, k)) {
          StuckStays(m, sc, r, k, n);
        }
      }
      assert UncappedFrom(m, sc, r, n);
    }
    if (forall n: nat :: !StuckAt(m, sc, r, n)) && exists k: nat :: UncappedFrom(m, sc, r, k) {
      var k: nat :| UncappedFrom(m, sc, r, k);
      var q := Iter(sc, r, k);
      forall n: nat ensures !StuckAt(m, sc, q, n) && !CappedTurn(m, sc, q, n) {
        IterMore(sc, r, k, n);
        assert !StuckAt(m, sc, r, k + n) && !CappedTurn(m, sc, r, k + n);
      }
      RescanningHalts(m.objects + m.calls, q);
      GrowingEnds(m, sc, m.objects + m.calls, q);
      var n: nat :| Iter(sc, q, n) == [];
      IterMore(sc, r, k, n);
    }
  }

  // ------------------------------------------------------ scans within scans

  /** A scan at r goes on at r', or scans the argument r' first. */
  ghost predicate Goes(sc: Scanner, r: Row, r': Row) { r != [] && (r' == sc.next(r) || r' in sc.args(r)) }

  /** The scan of r ends, with all the scans of arguments in it. */
  least predicate Ends(sc: Scanner, r: Row) {
    forall r' :: Goes(sc, r, r') ==> Ends(sc, r')
  }

  /** An endless descent: on from turn to turn, or down into an argument. */
  ghost predicate Path(sc: Scanner, p: nat -> Row) { forall i: nat :: Goes(sc, p(i), p(i + 1)) }

  /** The descent goes on from turn i, which replaces under a full hideset. */
  ghost predicate CappedAt(m: Macros, sc: Scanner, p: nat -> Row, i: nat) {
    p(i + 1) == sc.next(p(i)) && Capped(m, p(i), p(i + 1))
  }

  ghost predicate CappedAfter(m: Macros, sc: Scanner, p: nat -> Row, k: nat) {
    exists i: nat :: k <= i && CappedAt(m, sc, p, i)
  }

  ghost predicate GrowsAt(names: set<Name>, p: nat -> Row, i: nat) { Grows(names, p(i), p(i + 1)) }

  ghost predicate StallsAfter(names: set<Name>, p: nat -> Row, k: nat) {
    exists i: nat :: k <= i && !GrowsAt(names, p, i)
  }

  /** The descent comes to a name that is put back, or replaces under full hidesets again and again. */
  ghost predicate Endless(m: Macros, sc: Scanner, p: nat -> Row) {
    (exists i: nat :: Stuck(m, p(i))) || (forall k: nat :: CappedAfter(m, sc, p, k))
  }

  least lemma {:induction false} EndsNoPath(sc: Scanner, p: nat -> Row, i: nat, r: Row)
    requires Ends(sc, r)
    requires r == p(i)
    ensures !Path(sc, p)
  {
    if Path(sc, p) {
      assert Goes(sc, p(i), p(i + 1));
      EndsNoPath(sc, p, i + 1, p(i + 1));
    }
  }

  least lemma {:induction false} HaltsNoPath(names: set<Name>, p: nat -> Row, i: nat, r: Row)
    requires Halts(names, r)
    requires r == p(i)
    ensures StallsAfter(names, p, i)
  {
    if GrowsAt(names, p, i) {
      HaltsNoPath(names, p, i + 1, p(i + 1));
      var j: nat :| i + 1 <= j && !GrowsAt(names, p, j);
    }
  }

  /** One way on from a scan that does not end, to another such scan. */
  ghost function Pick(sc: Scanner, r: Row): (r': Row)
    requires !Ends(sc, r)
    ensures Goes(sc, r, r') && !Ends(sc, r')
  {
    var r' :| Goes(sc, r, r') && !Ends(sc, r');
    r'
  }

  ghost function Trail(sc: Scanner, r: Row, n: nat): (r': Row)
    requires !Ends(sc, r)
    ensures !Ends(sc, r')
  {
    if n == 0 then r else Pick(sc, Trail(sc, r, n - 1))
  }

  lemma Descends(sc: Scanner, r: Row) returns (p: nat -> Row)
    requires !Ends(sc, r)
    ensures Path(sc, p) && p(0) == r
  {
    p := (n: nat) => if Ends(sc, r) then r else Trail(sc, r, n);
    forall i: nat ensures Goes(sc, p(i), p(i + 1)) {
      assert p(i + 1) == Pick(sc, Trail(sc, r, i));
    }
  }

  /** A descent into an argument leaves fewer tokens. */
  lemma ArgumentGrows(m: Macros, sc: Scanner, r: Row, r': Row)
    requires Legal(m, sc) && Goes(sc, r, r') && r' in sc.args(r)
    ensures Grows(m.objects + m.calls, r, r')
  {
    assert ArgsOk(m, r, sc.args(r));
    SubLength(r', r[1..]);
    SubSuffix(r, 1);
    SubTrans(r', r[1..], r);
  }

  /** An endless descent comes to a name that is put back, or replaces under full hidesets again and again. */
  lemma PathEndless(m: Macros, sc: Scanner, p: nat -> Row)
    requires Legal(m, sc) && Path(sc, p)
    ensures Endless(m, sc, p)
  {
    var names := m.objects + m.calls;
    if !Endless(m, sc, p) {
      var k: nat :| !CappedAfter(m, sc, p, k);
      RescanningHalts(names, p(k));
      HaltsNoPath(names, p, k, p(k));
      var j: nat :| k <= j && !GrowsAt(names, p, j);
      assert Goes(sc, p(j), p(j + 1));
      if p(j + 1) in sc.args(p(j)) {
        ArgumentGrows(m, sc, p(j), p(j + 1));
      }
      assert !Stuck(m, p(j)) && CappedAt(m, sc, p, j);
    }
  }

  /** The scan of r, with the scans of arguments in it, fails to end exactly when some descent from r is endless. */
  lemma {:induction false} EndsExactly(m: Macros, sc: Scanner, r: Row)
    requires Legal(m, sc)
    ensures !Ends(sc, r) <==> exists p: nat -> Row :: Path(sc, p) && p(0) == r && Endless(m, sc, p)
  {
    if !Ends(sc, r) {
      var p := Descends(sc, r);
      PathEndless(m, sc, p);
      assert Path(sc, p) && p(0) == r && Endless(m, sc, p);
    }
    if p: nat -> Row :| Path(sc, p) && p(0) == r && Endless(m, sc, p) {
      if Ends(sc, r) {
        EndsNoPath(sc, p, 0, r);
      }
    }
  }

  // ------------------------------------------------------------------- few macros

  /** Every name hides defined names only. */
  ghost predicate Within(m: Macros, r: Row) {
    forall i :: 0 <= i < |r| && r[i].p.isName ==> r[i].hidden <= m.objects + m.calls
  }

  /** Replacements hide what their tokens hid, and names replaced. */
  ghost predicate Confined(m: Macros, sc: Scanner) {
    forall r :: r != [] && Within(m, r) ==> Within(m, sc.next(r))
  }

  predicate Few(m: Macros) { |m.objects + m.calls| <= 30 }

  /** With few macros a full hideset is all of their names, so that replacing always makes hidesets grow. */
  lemma FewGrow(m: Macros, r: Row, r': Row)
    requires Few(m) && Within(m, r) && Within(m, r') && Steps(m, r, r')
    ensures !Capped(m, r, r')
  {
    var names := m.objects + m.calls;
    if Capped(m, r, r') {
      forall k: nat | 1 <= k <= |r| ensures r' != r[k..] {
        PassGrows(names, r, k);
      }
      assert Replaceable(m, r[0]) && (r[0].p.text in m.objects || Calls(m, r));
      var j, repl := TurnReplaces(m, r, r');
      forall i | 0 <= i < |repl| && repl[i].p.isName ensures Grown(r[0], repl[i]) {
        assert r'[i] == repl[i];
        if Full(repl[i]) {
          Smaller(names - repl[i].hidden, names);
          assert names == repl[i].hidden + (names - repl[i].hidden);
          assert repl[i].hidden == names;
        }
      }
      assert IsGrowing(names, r, j, repl);
    }
  }

  lemma {:induction false} SubWithin(m: Macros, a: Row, r: Row)
    requires Sub(a, r) && Within(m, r)
    ensures Within(m, a)
  {
    if a != [] {
      assert Within(m, r[1..]);
      if Sub(a, r[1..]) {
        SubWithin(m, a, r[1..]);
      } else {
        SubWithin(m, a[1..], r[1..]);
        assert a == [a[0]] + a[1..];
      }
    }
  }

  lemma {:induction false} IterWithin(m: Macros, sc: Scanner, r: Row, n: nat)
    requires Confined(m, sc) && Within(m, r)
    ensures Within(m, Iter(sc, r, n))
    decreases n
  {
    if n > 0 && r != [] {
      IterWithin(m, sc, sc.next(r), n - 1);
    }
  }

  lemma {:induction false} PathWithin(m: Macros, sc: Scanner, p: nat -> Row, i: nat)
    requires Legal(m, sc) && Confined(m, sc) && Path(sc, p) && Within(m, p(0))
    ensures Within(m, p(i))
  {
    if i > 0 {
      var r, r' := p(i - 1), p(i);
      PathWithin(m, sc, p, i - 1);
      assert Goes(sc, p(i - 1), p(i - 1 + 1));
      if r' in sc.args(r) {
        assert ArgsOk(m, r, sc.args(r));
        SubWithin(m, r', r[1..]);
      }
    }
  }

  /** With at most thirty macros, a scan ends exactly when it never comes to a bare name that takes arguments. */
  lemma {:induction false} FewScan(m: Macros, sc: Scanner, r: Row)
    requires Legal(m, sc) && Confined(m, sc) && Few(m) && Within(m, r)
    ensures (exists n: nat :: Iter(sc, r, n) == []) <==> forall n: nat :: !StuckAt(m, sc, r, n)
  {
    forall n: nat ensures !CappedTurn(m, sc, r, n) {
      var q := Iter(sc, r, n);
      IterWithin(m, sc, r, n);
      if q != [] {
        FewGrow(m, q, sc.next(q));
      }
    }
    assert UncappedFrom(m, sc, r, 0);
    ScanExactly(m, sc, r);
  }

  /** The same with the scans of arguments. */
  lemma {:induction false} FewEnd(m: Macros, sc: Scanner, r: Row)
    requires Legal(m, sc) && Confined(m, sc) && Few(m) && Within(m, r)
    ensures !Ends(sc, r) <==> exists p: nat -> Row :: Path(sc, p) && p(0) == r && exists i: nat :: Stuck(m, p(i))
  {
    EndsExactly(m, sc, r);
    forall p: nat -> Row | Path(sc, p) && p(0) == r && Endless(m, sc, p) ensures exists i: nat :: Stuck(m, p(i)) {
      if CappedAfter(m, sc, p, 0) {
        var i: nat :| 0 <= i && CappedAt(m, sc, p, i);
        PathWithin(m, sc, p, i);
        PathWithin(m, sc, p, i + 1);
        FewGrow(m, p(i), p(i + 1));
      }
    }
  }

  // --------------------------------------------------------------------- examples

  /** A name with parameters that stands alone, as an argument or at the end of the source, is scanned for ever. */
  lemma {:induction false} BareNameLoops(m: Macros, sc: Scanner, f: Name, n: nat)
    requires Legal(m, sc) && f in m.calls && f !in m.objects
    ensures var row := [Tagged(Piece(true, f), {})]; Iter(sc, row, n) == row && !Ends(sc, row)
  {
    var row := [Tagged(Piece(true, f), {})];
    assert Stuck(m, row) && Steps(m, row, sc.next(row));
    StuckStays(m, sc, row, 0, n);
    var p := (i: nat) => row;
    assert Path(sc, p) && p(0) == row && Stuck(m, p(0));
    EndsExactly(m, sc, row);
  }

  /** The turns of macros without arguments are such turns. */
  lemma TurnSteps(defs: Defs, r: Row)
    requires r != []
    ensures Steps(Macros(defs.Keys, {}), r, Turn(defs, Scan([], r)).left)
  {
    var t, m := r[0], Macros(defs.Keys, {});
    if Expandable(defs, t) {
      var repl := TagAll(defs[t.p.text], Hide(t.hidden, t.p.text));
      if |t.hidden + {t.p.text}| > 30 {
        assert |t.hidden + {t.p.text}| == |t.hidden| + 1;
      }
      assert IsReplacement(m, r, 1, repl);
    }
  }
}
