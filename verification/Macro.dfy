/**
 What macro rescanning computes for macros without arguments: as the recursive
 expansion of the standard, in which names are not replaced inside their own
 expansion, and turn by turn, as the loop over a row of tokens does it with
 hidesets that hold a limited number of names.
 */
module Macro {
  import opened Hideset

  // -------------------------------------------------------------- specification

  /** A token of a macro body: an identifier, or anything else. */
  datatype Piece = Piece(isName: bool, text: Name)

  /** A token together with the set of macros whose replacement it comes from. */
  datatype Tagged = Tagged(p: Piece, hidden: set<Name>)

  type Defs = map<Name, seq<Piece>>

  predicate Expandable(defs: Defs, t: Tagged) {
    t.p.isName && t.p.text in defs && t.p.text !in t.hidden
  }

  /** Names carry the hideset of the replacement; other tokens need none. */
  function Tag(p: Piece, hidden: set<Name>): Tagged {
    Tagged(p, if !p.isName then {} else hidden)
  }

  lemma FewerLeft(defs: Defs, hidden: set<Name>, n: Name)
    requires n in defs && n !in hidden
    ensures |defs.Keys - (hidden + {n})| < |defs.Keys - hidden|
  {
    assert defs.Keys - (hidden + {n}) == (defs.Keys - hidden) - {n};
  }

  /** A name is replaced by its body, whose names are replaced in turn, except those being replaced already. */
  function Expand(defs: Defs, t: Tagged): seq<Tagged>
    decreases |defs.Keys - t.hidden|, 0
  {
    if Expandable(defs, t) then
      FewerLeft(defs, t.hidden, t.p.text);
      ExpandBody(defs, defs[t.p.text], t.hidden + {t.p.text})
    else [t]
  }

  function ExpandBody(defs: Defs, body: seq<Piece>, hidden: set<Name>): seq<Tagged>
    decreases |defs.Keys - hidden|, 1 + |body|
  {
    if body == [] then []
    else if body[0].isName then Expand(defs, Tagged(body[0], hidden)) + ExpandBody(defs, body[1..], hidden)
    else [Tagged(body[0], {})] + ExpandBody(defs, body[1..], hidden)
  }

  function ExpandAll(defs: Defs, row: seq<Tagged>): seq<Tagged> {
    if row == [] then [] else Expand(defs, row[0]) + ExpandAll(defs, row[1..])
  }

  /** No hideset in the expansion of t outgrows the table. */
  predicate Fits(defs: Defs, t: Tagged)
    decreases |defs.Keys - t.hidden|, 0
  {
    if Expandable(defs, t) then
      FewerLeft(defs, t.hidden, t.p.text);
      |t.hidden + {t.p.text}| <= 30 && FitsBody(defs, defs[t.p.text], t.hidden + {t.p.text})
    else true
  }

  predicate FitsBody(defs: Defs, body: seq<Piece>, hidden: set<Name>)
    decreases |defs.Keys - hidden|, 1 + |body|
  {
    body == [] || ((body[0].isName ==> Fits(defs, Tagged(body[0], hidden))) && FitsBody(defs, body[1..], hidden))
  }

  /** Number of tokens that are looked at while t is expanded. */
  function Work(defs: Defs, t: Tagged): nat
    decreases |defs.Keys - t.hidden|, 0
  {
    if Expandable(defs, t) then
      FewerLeft(defs, t.hidden, t.p.text);
      1 + WorkBody(defs, defs[t.p.text], t.hidden + {t.p.text})
    else 1
  }

  function WorkBody(defs: Defs, body: seq<Piece>, hidden: set<Name>): nat
    decreases |defs.Keys - hidden|, 1 + |body|
  {
    if body == [] then 0
    else (if body[0].isName then Work(defs, Tagged(body[0], hidden)) else 1) + WorkBody(defs, body[1..], hidden)
  }

  function WorkAll(defs: Defs, row: seq<Tagged>): nat {
    if row == [] then 0 else Work(defs, row[0]) + WorkAll(defs, row[1..])
  }

  function TagAll(body: seq<Piece>, hidden: set<Name>): seq<Tagged> {
    seq(|body|, i requires 0 <= i < |body| => Tag(body[i], hidden))
  }

  /** A tagged body in front of a row expands to the expansion of the body followed by that of the row. */
  lemma {:induction false} SpliceExpand(defs: Defs, body: seq<Piece>, hidden: set<Name>, rest: seq<Tagged>)
    ensures ExpandAll(defs, TagAll(body, hidden) + rest) == ExpandBody(defs, body, hidden) + ExpandAll(defs, rest)
    decreases |body|
  {
    var row := TagAll(body, hidden) + rest;
    if body == [] {
      assert row == rest;
    } else {
      SpliceExpand(defs, body[1..], hidden, rest);
      assert row[1..] == TagAll(body[1..], hidden) + rest;
      var first, others := Expand(defs, row[0]), ExpandBody(defs, body[1..], hidden);
      assert row[0] == Tag(body[0], hidden) && ExpandBody(defs, body, hidden) == first + others;
      assert first + (others + ExpandAll(defs, rest)) == (first + others) + ExpandAll(defs, rest);
    }
  }

  lemma {:induction false} SpliceWork(defs: Defs, body: seq<Piece>, hidden: set<Name>, rest: seq<Tagged>)
    ensures WorkAll(defs, TagAll(body, hidden) + rest) == WorkBody(defs, body, hidden) + WorkAll(defs, rest)
    decreases |body|
  {
    var row := TagAll(body, hidden) + rest;
    if body == [] {
      assert row == rest;
    } else {
      SpliceWork(defs, body[1..], hidden, rest);
      assert row[1..] == TagAll(body[1..], hidden) + rest;
      assert row[0] == Tag(body[0], hidden);
    }
  }

  ghost predicate FitsAll(defs: Defs, row: seq<Tagged>) {
    forall i :: 0 <= i < |row| ==> Fits(defs, row[i])
  }

  lemma {:induction false} FitsEach(defs: Defs, body: seq<Piece>, hidden: set<Name>)
    requires FitsBody(defs, body, hidden)
    ensures FitsAll(defs, TagAll(body, hidden))
    decreases |body|
  {
    if body != [] {
      FitsEach(defs, body[1..], hidden);
      var row := TagAll(body, hidden);
      assert row[1..] == TagAll(body[1..], hidden);
      forall i | 0 <= i < |row| ensures Fits(defs, row[i]) {
        assert i > 0 ==> row[i] == row[1..][i - 1];
      }
    }
  }

  // ---------------------------------------------------------------- turn by turn

  /** A full hideset stays as it is. */
  function Hide(hidden: set<Name>, n: Name): set<Name> {
    if |hidden + {n}| <= HSSIZ - 2 then hidden + {n} else hidden
  }

  /** A row during its scan: the tokens that are final, and those still to be looked at. */
  datatype Scan = Scan(done: seq<Tagged>, left: seq<Tagged>)

  /** One turn of the loop: the token in front is final, or it is replaced by its body. */
  function Turn(defs: Defs, s: Scan): Scan
    requires s.left != []
  {
    var t, rest := s.left[0], s.left[1..];
    if Expandable(defs, t) then Scan(s.done, TagAll(defs[t.p.text], Hide(t.hidden, t.p.text)) + rest)
    else Scan(s.done + [t], rest)
  }

  /** Up to n turns. */
  function Turns(defs: Defs, s: Scan, n: nat): Scan
    decreases n
  {
    if n == 0 || s.left == [] then s else Turns(defs, Turn(defs, s), n - 1)
  }

  /** The scan of the row comes to its end. */
  ghost predicate Finishes(defs: Defs, row: seq<Tagged>) { exists n: nat :: Turns(defs, Scan([], row), n).left == [] }

  lemma {:induction false} TurnsMore(defs: Defs, s: Scan, m: nat, n: nat)
    ensures Turns(defs, s, m + n) == Turns(defs, Turns(defs, s, m), n)
    decreases m
  {
    if m > 0 && s.left != [] {
      TurnsMore(defs, Turn(defs, s), m - 1, n);
    }
  }

  /** Once the scan is at its end, more turns change nothing. */
  lemma {:induction false} Settled(defs: Defs, s: Scan, m: nat, n: nat)
    requires Turns(defs, s, m).left == [] && Turns(defs, s, n).left == []
    ensures Turns(defs, s, m) == Turns(defs, s, n)
  {
    if m <= n {
      TurnsMore(defs, s, m, n - m);
    } else {
      TurnsMore(defs, s, n, m - n);
    }
  }

  // ------------------------------------------------- while no hideset is full

  lemma FitsAppend(defs: Defs, front: seq<Tagged>, row: seq<Tagged>)
    requires FitsAll(defs, front) && FitsAll(defs, row) && row != []
    ensures FitsAll(defs, front + row[1..])
  {
    var all := front + row[1..];
    forall i | 0 <= i < |all| ensures Fits(defs, all[i]) {
      if i >= |front| {
        assert all[i] == row[i - |front| + 1];
      }
    }
  }

  /** Passing over a token. */
  lemma {:induction false} PassFits(defs: Defs, s: Scan)
    requires s.left != [] && FitsAll(defs, s.left) && !Expandable(defs, s.left[0])
    ensures var s' := Turn(defs, s);
      && FitsAll(defs, s'.left) && WorkAll(defs, s.left) == 1 + WorkAll(defs, s'.left)
      && s'.done + ExpandAll(defs, s'.left) == s.done + ExpandAll(defs, s.left)
  {
    var t, rest := s.left[0], s.left[1..];
    FitsAppend(defs, [], s.left);
    assert [] + rest == rest;
    assert ExpandAll(defs, s.left) == [t] + ExpandAll(defs, rest);
    assert s.done + ([t] + ExpandAll(defs, rest)) == (s.done + [t]) + ExpandAll(defs, rest);
  }

  /** Replacing a name. */
  lemma {:induction false} ReplaceFits(defs: Defs, s: Scan)
    requires s.left != [] && FitsAll(defs, s.left) && Expandable(defs, s.left[0])
    ensures var s' := Turn(defs, s);
      && FitsAll(defs, s'.left) && WorkAll(defs, s.left) == 1 + WorkAll(defs, s'.left)
      && s'.done == s.done && ExpandAll(defs, s'.left) == ExpandAll(defs, s.left)
  {
    var t, rest := s.left[0], s.left[1..];
    var body, hidden := defs[t.p.text], t.hidden + {t.p.text};
    assert Fits(defs, t);
    FewerLeft(defs, t.hidden, t.p.text);
    assert Hide(t.hidden, t.p.text) == hidden;
    SpliceExpand(defs, body, hidden, rest);
    SpliceWork(defs, body, hidden, rest);
    FitsEach(defs, body, hidden);
    FitsAppend(defs, TagAll(body, hidden), s.left);
  }

  /** While no hideset is full the scan ends with the recursive expansion. */
  lemma {:induction false} FitsFinish(defs: Defs, s: Scan)
    requires FitsAll(defs, s.left)
    ensures Turns(defs, s, WorkAll(defs, s.left)) == Scan(s.done + ExpandAll(defs, s.left), [])
    decreases WorkAll(defs, s.left)
  {
    if s.left != [] {
      if Expandable(defs, s.left[0]) {
        ReplaceFits(defs, s);
      } else {
        PassFits(defs, s);
      }
      FitsFinish(defs, Turn(defs, s));
    }
  }
}
