/**
 The row of tokens that macro expansion edits in place: each macro name is
 replaced by its body in the row's buffer, and scanning resumes at the start of
 the replacement.
 */
module Tokens {
  import opened Hideset
  import opened Macro

  // ------------------------------------------------------------------ token rows

  /** A token with its hideset index. */
  datatype Token = Token(p: Piece, hs: nat)

  lemma Joined<T>(a: seq<T>, x: seq<T>, y: seq<T>, z: seq<T>)
    requires |a| == |x| + |y| + |z|
    requires forall i :: 0 <= i < |x| ==> a[i] == x[i]
    requires forall i :: 0 <= i < |y| ==> a[|x| + i] == y[i]
    requires forall i :: 0 <= i < |z| ==> a[|x| + |y| + i] == z[i]
    ensures a == x + y + z
  {
    forall i | 0 <= i < |a| ensures a[i] == (x + y + z)[i] {
      if |x| <= i < |x| + |y| {
        assert a[|x| + (i - |x|)] == y[i - |x|];
      } else if i >= |x| + |y| {
        assert a[|x| + |y| + (i - |x| - |y|)] == z[i - |x| - |y|];
      }
    }
  }

  /** A row of tokens in a growing buffer; tp is the scan position, lp the end. */
  class TokenRow {
    var buf: array<Token>
    var tp: nat
    var lp: nat

    ghost predicate Valid()
      reads this
    {
      tp <= lp <= buf.Length
    }

    ghost function Contents(): seq<Token>
      requires lp <= buf.Length
      reads this, buf
    {
      buf[..lp]
    }

    constructor (tokens: seq<Token>)
      ensures Valid() && Contents() == tokens && tp == 0 && fresh(buf)
    {
      var b := new Token[|tokens|](i requires 0 <= i < |tokens| => tokens[i]);
      buf, tp, lp := b, 0, |tokens|;
    }

    /** Enlarges the buffer by half. */
    method Grow()
      requires lp <= buf.Length
      modifies this
      ensures fresh(buf) && buf.Length == 3 * old(buf.Length) / 2 + 1 && tp == old(tp) && lp == old(lp)
      ensures lp <= buf.Length && Contents() == old(Contents())
    {
      var old' := buf;
      var b := new Token[3 * buf.Length / 2 + 1](_ => Token(Piece(false, 1), 0));
      forall i | 0 <= i < lp { b[i] := old'[i]; }
      buf := b;
    }

    /** Moves the tokens from `from` on by nt places. */
    method Adjust(from: nat, nt: int)
      requires from <= lp <= buf.Length && 0 <= from + nt
      modifies this, buf
      ensures tp == old(tp) && lp == old(lp) + nt && 0 <= lp <= buf.Length && (buf == old(buf) || fresh(buf))
      ensures forall i :: 0 <= i < from && i < from + nt ==> buf[i] == old(buf[i])
      ensures forall i :: from <= i < old(lp) ==> buf[i + nt] == old(buf[i])
    {
      if nt == 0 {
        return;
      }
      ghost var before := buf[..lp];
      while lp + nt > buf.Length
        invariant lp == old(lp) && tp == old(tp) && lp <= buf.Length && Contents() == before
        invariant buf == old(buf) || fresh(buf)
        decreases lp + nt - buf.Length
      {
        Grow();
      }
      assert forall i :: 0 <= i < lp ==> buf[i] == before[i];
      var moved := buf[from..lp];
      forall i | 0 <= i < |moved| { buf[from + nt + i] := moved[i]; }
      assert forall i :: from <= i < lp ==> buf[i + nt] == moved[i - from] == before[i];
      lp := lp + nt;
    }

    /** Replaces ntok tokens at tp by src; tp ends up behind the replacement. */
    method InsertRow(ntok: nat, src: seq<Token>)
      requires Valid() && tp + ntok <= lp
      modifies this, buf
      ensures Valid() && tp == old(tp) + |src| && (buf == old(buf) || fresh(buf))
      ensures Contents() == old(Contents())[..old(tp)] + src + old(Contents())[old(tp) + ntok..]
    {
      ghost var before := Contents();
      Adjust(tp + ntok, |src| - ntok);
      ghost var rest := before[tp + ntok..];
      forall i | 0 <= i < |rest| ensures buf[tp + |src| + i] == rest[i] {
        assert buf[(tp + ntok + i) + (|src| - ntok)] == before[tp + ntok + i];
      }
      forall i | 0 <= i < |src| { buf[tp + i] := src[i]; }
      Joined(buf[..lp], before[..tp], src, rest);
      tp := tp + |src|;
    }
  }

  // -------------------------------------------------------------------- rescanning

  /** Hideset indices are valid. */
  predicate Indexed(sets: seq<seq<Name>>, toks: seq<Token>) {
    forall i :: 0 <= i < |toks| ==> toks[i].hs < |sets|
  }

  ghost function Meaning(sets: seq<seq<Name>>, toks: seq<Token>): (r: seq<Tagged>)
    requires Indexed(sets, toks)
    ensures |r| == |toks|
  {
    seq(|toks|, i requires 0 <= i < |toks| => Tagged(toks[i].p, Elems(sets[toks[i].hs])))
  }

  /** The row stands at s: what is before tp is final. */
  ghost predicate At(sets: seq<seq<Name>>, toks: seq<Token>, tp: nat, s: Scan) {
    && tp <= |toks| && Indexed(sets, toks)
    && s == Scan(Meaning(sets, toks[..tp]), Meaning(sets, toks[tp..]))
  }

  lemma MeaningGrows(sets: seq<seq<Name>>, sets': seq<seq<Name>>, toks: seq<Token>)
    requires sets <= sets' && Indexed(sets, toks)
    ensures Indexed(sets', toks) && Meaning(sets', toks) == Meaning(sets, toks)
  {
  }

  lemma MeaningAppend(sets: seq<seq<Name>>, a: seq<Token>, b: seq<Token>)
    requires Indexed(sets, a) && Indexed(sets, b)
    ensures Indexed(sets, a + b) && Meaning(sets, a + b) == Meaning(sets, a) + Meaning(sets, b)
  {
  }

  lemma BodyMeaning(sets: seq<seq<Name>>, body: seq<Piece>, r: nat, repl: seq<Token>)
    requires r < |sets| && sets[0] == [] && |repl| == |body|
    requires forall i :: 0 <= i < |repl| ==> repl[i] == Token(body[i], if body[i].isName then r else 0)
    ensures Indexed(sets, repl) && Meaning(sets, repl) == TagAll(body, Elems(sets[r]))
  {
    var a, b := Meaning(sets, repl), TagAll(body, Elems(sets[r]));
    forall i | 0 <= i < |repl| ensures a[i] == b[i] {
      assert Elems(sets[0]) == {};
    }
  }

  lemma PassOver(defs: Defs, sets: seq<seq<Name>>, toks: seq<Token>, tp: nat, s: Scan)
    requires At(sets, toks, tp, s) && tp < |toks| && !Expandable(defs, s.left[0])
    ensures At(sets, toks, tp + 1, Turn(defs, s))
  {
    assert toks[..tp + 1] == toks[..tp] + [toks[tp]] && toks[tp..] == [toks[tp]] + toks[tp + 1..];
    MeaningAppend(sets, toks[..tp], [toks[tp]]);
    MeaningAppend(sets, [toks[tp]], toks[tp + 1..]);
  }

  /** Replacing the name at tp by its body with the hideset r. */
  lemma Replace(defs: Defs, sets: seq<seq<Name>>, sets': seq<seq<Name>>, toks: seq<Token>, tp: nat, r: nat,
                repl: seq<Token>, s: Scan)
    requires At(sets, toks, tp, s) && tp < |toks| && sets <= sets' && |sets| > 0 && sets[0] == [] && r < |sets'|
    requires Expandable(defs, s.left[0]) && |repl| == |defs[s.left[0].p.text]|
    requires Elems(sets'[r]) == Hide(s.left[0].hidden, s.left[0].p.text)
    requires var body := defs[s.left[0].p.text];
      forall i :: 0 <= i < |repl| ==> repl[i] == Token(body[i], if body[i].isName then r else 0)
    ensures At(sets', toks[..tp] + repl + toks[tp + 1..], tp, Turn(defs, s))
  {
    var toks' := toks[..tp] + repl + toks[tp + 1..];
    assert toks'[..tp] == toks[..tp] && toks'[tp..] == repl + toks[tp + 1..];
    assert toks[tp..] == [toks[tp]] + toks[tp + 1..];
    MeaningAppend(sets, [toks[tp]], toks[tp + 1..]);
    assert s.left[1..] == Meaning(sets, toks[tp + 1..]);
    MeaningGrows(sets, sets', toks[..tp]);
    MeaningGrows(sets, sets', toks[tp + 1..]);
    BodyMeaning(sets', defs[s.left[0].p.text], r, repl);
    MeaningAppend(sets', repl, toks[tp + 1..]);
    MeaningAppend(sets', toks[..tp], repl + toks[tp + 1..]);
    assert toks' == toks[..tp] + (repl + toks[tp + 1..]);
  }

  /** Copies a macro body and gives its names the hideset hs. */
  method CopyBody(body: seq<Piece>, hs: nat) returns (repl: seq<Token>)
    ensures |repl| == |body|
    ensures forall i :: 0 <= i < |body| ==> repl[i] == Token(body[i], if body[i].isName then hs else 0)
  {
    repl := [];
    for i := 0 to |body|
      invariant |repl| == i
      invariant forall j :: 0 <= j < i ==> repl[j] == Token(body[j], if body[j].isName then hs else 0)
    {
      repl := repl + [Token(body[i], if body[i].isName then hs else 0)];
    }
  }

  /** Replaces the macro name at tp by its body and moves tp back to the start of the replacement. */
  method ExpandName(row: TokenRow, table: Table, defs: Defs, ghost s: Scan)
    requires row.Valid() && table.Valid() && row.tp < row.lp
    requires At(table.hidesets, row.Contents(), row.tp, s) && Expandable(defs, s.left[0])
    modifies row, row.buf, table
    ensures row.Valid() && table.Valid() && (row.buf == old(row.buf) || fresh(row.buf))
    ensures At(table.hidesets, row.Contents(), row.tp, Turn(defs, s))
  {
    ghost var toks, sets := row.Contents(), table.hidesets;
    var t := row.buf[row.tp];
    assert toks[row.tp..][0] == t;
    var hs := table.New(t.hs, t.p.text);
    var repl := CopyBody(defs[t.p.text], hs);
    Replace(defs, sets, table.hidesets, toks, row.tp, hs, repl, s);
    row.InsertRow(1, repl);
    row.tp := row.tp - |repl|;
  }

  /** One turn of the loop: a token that is no macro name, or a hidden one, is passed over; another is replaced. */
  method ExpandOne(row: TokenRow, table: Table, defs: Defs, ghost s: Scan)
    requires row.Valid() && table.Valid() && row.tp < row.lp && At(table.hidesets, row.Contents(), row.tp, s)
    modifies row, row.buf, table
    ensures row.Valid() && table.Valid() && (row.buf == old(row.buf) || fresh(row.buf))
    ensures At(table.hidesets, row.Contents(), row.tp, Turn(defs, s))
  {
    var t := row.buf[row.tp];
    assert row.Contents()[row.tp..][0] == t;
    var hidden := table.Check(t.hs, t.p.text);
    if !t.p.isName || t.p.text !in defs || hidden {
      PassOver(defs, table.hidesets, row.Contents(), row.tp, s);
      row.tp := row.tp + 1;
    } else {
      ExpandName(row, table, defs, s);
    }
  }

  /** The loop: whenever the scan comes to its end at all, after n turns, this is where it ends. */
  method Scanned(row: TokenRow, table: Table, defs: Defs, ghost start: Scan, ghost n: nat)
    requires row.Valid() && table.Valid() && At(table.hidesets, row.Contents(), row.tp, start)
    requires Turns(defs, start, n).left == []
    modifies row, row.buf, table
    ensures row.Valid() && table.Valid() && row.tp == row.lp
    ensures At(table.hidesets, row.Contents(), row.tp, Turns(defs, start, n))
  {
    ghost var s, k := start, n;
    while row.tp < row.lp
      invariant row.Valid() && table.Valid() && (row.buf == old(row.buf) || fresh(row.buf))
      invariant At(table.hidesets, row.Contents(), row.tp, s) && Turns(defs, s, k) == Turns(defs, start, n)
      decreases k
    {
      ExpandOne(row, table, defs, s);
      s, k := Turn(defs, s), k - 1;
    }
  }

  /** Expands a row in place. While no hideset is full, what is left is the recursive expansion of what was there. */
  method ExpandRow(row: TokenRow, table: Table, defs: Defs, ghost n: nat)
    requires row.Valid() && table.Valid() && row.tp == 0 && Indexed(table.hidesets, row.Contents())
    requires Turns(defs, Scan([], Meaning(table.hidesets, row.Contents())), n).left == []
    modifies row, row.buf, table
    ensures row.Valid() && table.Valid() && Indexed(table.hidesets, row.Contents())
    ensures Scan(Meaning(table.hidesets, row.Contents()), []) ==
      old(Turns(defs, Scan([], Meaning(table.hidesets, row.Contents())), n))
    ensures old(FitsAll(defs, Meaning(table.hidesets, row.Contents()))) ==>
      Meaning(table.hidesets, row.Contents()) == old(ExpandAll(defs, Meaning(table.hidesets, row.Contents())))
  {
    ghost var start := Scan([], Meaning(table.hidesets, row.Contents()));
    assert row.Contents()[0..] == row.Contents() && row.Contents()[..0] == [];
    if FitsAll(defs, start.left) {
      FitsFinish(defs, start);
      Settled(defs, start, n, WorkAll(defs, start.left));
    }
    Scanned(row, table, defs, start, n);
    assert row.Contents()[..row.tp] == row.Contents() && row.Contents()[row.tp..] == [];
  }
}
