/**
 The symbol table of the assembler and simulator: every symbol is on the chain
 of its hash value and on the chain of the location it was added at. Symbols are
 numbered as they are created, and chains are linked through them.
 */
module Symbols {
  import Bits

  const HASH: nat := 997
  const LOCATIONS: nat := 65536

  /** A name is a sequence of characters, none of them zero. */
  type Char = c: int | 0 < c < 256 witness 1

  type Name = seq<Char>

  function Lower(c: Char): Char { if 65 <= c <= 90 then c + 32 else c }

  /** The name without its case. */
  function Fold(n: Name): Name { seq(|n|, i requires 0 <= i < |n| => Lower(n[i])) }

  function Hash(n: Name): (h: int)
    ensures 0 <= h < HASH
  {
    if n == [] then 1 else Hash(n[..|n| - 1]) * Lower(n[|n| - 1]) % HASH
  }

  method SymbolHash(n: Name) returns (h: int)
    ensures h == Hash(n)
  {
    h := 1;
    var i := 0;
    while i < |n|
      invariant 0 <= i <= |n| && h == Hash(n[..i])
    {
      assert n[..i + 1][..i] == n[..i];
      h := h * Lower(n[i]) % HASH;
      i := i + 1;
    }
    assert n[..i] == n;
  }

  /** The same letter, once as a capital and once not. */
  predicate CasesOf(c: Char, d: Char) { 65 <= c <= 90 && d == c + 32 }

  /** Names are one without case exactly when they differ in nothing but the case of letters. */
  lemma {:induction false} FoldExactly(a: Name, b: Name)
    ensures Fold(a) == Fold(b) <==>
      |a| == |b| && forall i :: 0 <= i < |a| ==> a[i] == b[i] || CasesOf(a[i], b[i]) || CasesOf(b[i], a[i])
  {
    assert |Fold(a)| == |a| && |Fold(b)| == |b|;
    if |a| == |b| {
      forall i | 0 <= i < |a|
        ensures Fold(a)[i] == Fold(b)[i] <==> a[i] == b[i] || CasesOf(a[i], b[i]) || CasesOf(b[i], a[i])
      {
      }
    }
  }

  /** The product of the codes of a name, those of capitals being 32 higher. */
  function Product(n: Name): nat {
    if n == [] then 1
    else
      var c := n[|n| - 1];
      Product(n[..|n| - 1]) * (if 65 <= c <= 90 then c + 32 else c)
  }

  /** Names that differ in case only have the same hash value. */
  lemma {:induction false} HashFolds(a: Name, b: Name)
    requires Fold(a) == Fold(b)
    ensures Hash(a) == Hash(b)
    decreases |a|
  {
    assert |Fold(a)| == |a| && |Fold(b)| == |b|;
    if a != [] {
      var n := |a| - 1;
      assert Fold(a)[n] == Fold(b)[n];
      forall i | 0 <= i < n ensures Fold(a[..n])[i] == Fold(b[..n])[i] {
        assert Fold(a)[i] == Fold(b)[i];
      }
      assert Fold(a[..n]) == Fold(b[..n]);
      HashFolds(a[..n], b[..n]);
    }
  }

  /** The hash value is that product modulo 997, although the loop reduces in every turn. */
  lemma {:induction false} HashIsProduct(n: Name)
    ensures Hash(n) == Product(n) % 997
    decreases |n|
  {
    if n != [] {
      HashIsProduct(n[..|n| - 1]);
      var c := n[|n| - 1];
      ProductMod(Product(n[..|n| - 1]), if 65 <= c <= 90 then c + 32 else c, 997);
    }
  }

  lemma ProductMod(x: int, y: int, m: nat)
    requires m > 0
    ensures (x % m) * y % m == x * y % m
  {
    var q, r := x / m, x % m;
    var q', r' := r * y / m, r * y % m;
    assert x == q * m + r && r * y == q' * m + r';
    Distributed(q, m, r, y);
    Bits.Distribute(q', -(q * y), m);
    Bits.Quotient(x * y, m, q' + q * y, r');
  }

  lemma Distributed(q: int, m: int, r: int, y: int)
    ensures (q * m + r) * y == r * y + (q * y) * m
  {
  }

  // ----------------------------------------------------------------------- invariant

  datatype Sym = Sym(name: Name, addr: int)

  datatype Table = Table(hash: seq<seq<int>>, loc: seq<seq<int>>, syms: map<int, Sym>, next: int)

  /** Where each symbol was first added, and which symbol has a name. */
  datatype Shape = Shape(first: map<int, int>, own: map<Name, int>)

  predicate On(chains: seq<seq<int>>, c: int, i: int) { 0 <= c < |chains| && 0 <= i < |chains[c]| }

  /** The chains hold every symbol of `chainOf` once, on the chain that it says. */
  ghost predicate Chained(chains: seq<seq<int>>, chainOf: map<int, int>) {
    && (forall c, i :: On(chains, c, i) ==> chains[c][i] in chainOf && chainOf[chains[c][i]] == c)
    && (forall c, i, j :: On(chains, c, i) && On(chains, c, j) && i < j ==> chains[c][i] != chains[c][j])
    && (forall id :: id in chainOf ==> 0 <= chainOf[id] < |chains| && id in chains[chainOf[id]])
  }

  function HashOf(t: Table): map<int, int> { map id | id in t.syms :: Hash(t.syms[id].name) }

  /** Names are unique up to case. */
  ghost predicate Named(t: Table, g: Shape) {
    && (forall id :: id in t.syms ==> Fold(t.syms[id].name) in g.own && g.own[Fold(t.syms[id].name)] == id)
    && (forall k :: k in g.own ==> g.own[k] in t.syms && Fold(t.syms[g.own[k]].name) == k)
  }

  /** Every symbol has a name of its own and was added somewhere. */
  ghost predicate Sound(t: Table, g: Shape) {
    && |t.hash| == HASH && |t.loc| == LOCATIONS
    && 0 <= t.next && g.first.Keys == t.syms.Keys && (forall id :: id in t.syms ==> 0 <= id < t.next) && Named(t, g)
  }

  ghost predicate Inv(t: Table, g: Shape) {
    Sound(t, g) && Chained(t.hash, HashOf(t)) && Chained(t.loc, g.first)
  }

  /** What is known about a name: its address, and the location it was first added at. */
  datatype Entry = Entry(addr: int, first: int)

  ghost function Meaning(t: Table, g: Shape): map<Name, Entry>
    requires Sound(t, g)
  {
    map k | k in g.own :: Entry(t.syms[g.own[k]].addr, g.first[g.own[k]])
  }

  // ------------------------------------------------------------------ what steps do

  lemma ChainedPush(chains: seq<seq<int>>, chainOf: map<int, int>, c: int, id: int)
    requires Chained(chains, chainOf) && 0 <= c < |chains| && id !in chainOf
    ensures Chained(chains[c := [id] + chains[c]], chainOf[id := c])
  {
    var chains', of' := chains[c := [id] + chains[c]], chainOf[id := c];
    forall d, i | On(chains', d, i) ensures chains'[d][i] in of' && of'[chains'[d][i]] == d {
      if d == c && i > 0 {
        assert On(chains, c, i - 1);
      } else if d != c {
        assert On(chains, d, i);
      }
    }
    forall d, i, j | On(chains', d, i) && On(chains', d, j) && i < j ensures chains'[d][i] != chains'[d][j] {
      if d == c {
        assert On(chains, c, j - 1);
        if i > 0 {
          assert On(chains, c, i - 1);
        }
      } else {
        assert On(chains, d, i) && On(chains, d, j);
      }
    }
    forall x | x in of' ensures 0 <= of'[x] < |chains'| && x in chains'[of'[x]] {
      if x != id {
        assert x in chains[chainOf[x]];
      }
    }
  }

  lemma ChainedDrop(chains: seq<seq<int>>, chainOf: map<int, int>, c: int, k: int, rest: seq<int>)
    requires Chained(chains, chainOf) && On(chains, c, k) && rest == chains[c][..k] + chains[c][k + 1..]
    ensures Chained(chains[c := rest], chainOf - {chains[c][k]})
  {
    var id := chains[c][k];
    var chains', of' := chains[c := rest], chainOf - {id};
    forall d, i | On(chains', d, i) ensures chains'[d][i] in of' && of'[chains'[d][i]] == d {
      if d == c {
        assert On(chains, c, if i < k then i else i + 1);
      } else {
        assert On(chains, d, i);
      }
    }
    forall d, i, j | On(chains', d, i) && On(chains', d, j) && i < j ensures chains'[d][i] != chains'[d][j] {
      if d == c {
        assert On(chains, c, if i < k then i else i + 1) && On(chains, c, if j < k then j else j + 1);
      } else {
        assert On(chains, d, i) && On(chains, d, j);
      }
    }
    forall x | x in of' ensures 0 <= of'[x] < |chains'| && x in chains'[of'[x]] {
      var d := chainOf[x];
      var i :| 0 <= i < |chains[d]| && chains[d][i] == x;
      if d == c {
        assert chains'[c][if i < k then i else i - 1] == x;
      }
    }
  }

  function Added(t: Table, n: Name, addr: int): Table
    requires |t.hash| == HASH && 0 <= addr < |t.loc|
  {
    var h := Hash(n);
    Table(t.hash[h := [t.next] + t.hash[h]], t.loc[addr := [t.next] + t.loc[addr]], t.syms[t.next := Sym(n, addr)],
          t.next + 1)
  }

  function AddedShape(t: Table, g: Shape, n: Name, addr: int): Shape {
    Shape(g.first[t.next := addr], g.own[Fold(n) := t.next])
  }

  lemma AddMeans(t: Table, g: Shape, n: Name, addr: int)
    requires Sound(t, g) && 0 <= addr < LOCATIONS && Fold(n) !in g.own
    ensures Sound(Added(t, n, addr), AddedShape(t, g, n, addr))
    ensures Meaning(Added(t, n, addr), AddedShape(t, g, n, addr)) == Meaning(t, g)[Fold(n) := Entry(addr, addr)]
  {
    var t', g' := Added(t, n, addr), AddedShape(t, g, n, addr);
    assert forall k :: k in g.own ==> g.own[k] != t.next;
    assert Named(t', g');
  }

  lemma {:induction false} HashAdded(t: Table, n: Name, addr: int)
    requires |t.hash| == HASH && 0 <= addr < |t.loc|
    ensures HashOf(Added(t, n, addr)) == HashOf(t)[t.next := Hash(n)]
  {
  }

  lemma AddNew(t: Table, g: Shape, n: Name, addr: int)
    requires Inv(t, g) && 0 <= addr < LOCATIONS && Fold(n) !in g.own
    ensures Inv(Added(t, n, addr), AddedShape(t, g, n, addr))
    ensures Meaning(Added(t, n, addr), AddedShape(t, g, n, addr)) == Meaning(t, g)[Fold(n) := Entry(addr, addr)]
  {
    AddMeans(t, g, n, addr);
    HashAdded(t, n, addr);
    ChainedPush(t.hash, HashOf(t), Hash(n), t.next);
    ChainedPush(t.loc, g.first, addr, t.next);
  }

  function Moved(t: Table, id: int, addr: int): Table
    requires id in t.syms
  {
    t.(syms := t.syms[id := t.syms[id].(addr := addr)])
  }

  lemma MoveMeans(t: Table, g: Shape, id: int, addr: int)
    requires Sound(t, g) && id in t.syms
    ensures Sound(Moved(t, id, addr), g) && HashOf(Moved(t, id, addr)) == HashOf(t)
    ensures var k := Fold(t.syms[id].name);
      k in g.own && Meaning(Moved(t, id, addr), g) == Meaning(t, g)[k := Entry(addr, g.first[id])]
  {
    MoveNamed(t, g, id, addr);
    assert forall k :: k in g.own && k != Fold(t.syms[id].name) ==> g.own[k] != id;
  }

  lemma MoveNamed(t: Table, g: Shape, id: int, addr: int)
    requires Named(t, g) && id in t.syms
    ensures Named(Moved(t, id, addr), g) && HashOf(Moved(t, id, addr)) == HashOf(t)
    ensures Moved(t, id, addr).syms.Keys == t.syms.Keys
  {
    var t' := Moved(t, id, addr);
    assert forall x :: x in t.syms ==> t'.syms[x].name == t.syms[x].name;
  }

  lemma Move(t: Table, g: Shape, id: int, addr: int)
    requires Inv(t, g) && id in t.syms
    ensures Inv(Moved(t, id, addr), g)
    ensures var k := Fold(t.syms[id].name);
      k in g.own && Meaning(Moved(t, id, addr), g) == Meaning(t, g)[k := Entry(addr, g.first[id])]
  {
    MoveMeans(t, g, id, addr);
  }

  function Removed(t: Table, addr: int, k: int): Table
    requires |t.hash| == HASH && 0 <= addr < |t.loc| && t.loc[addr] != [] && t.loc[addr][0] in t.syms
    requires 0 <= k < |t.hash[Hash(t.syms[t.loc[addr][0]].name)]|
  {
    var id := t.loc[addr][0];
    var h := Hash(t.syms[id].name);
    Table(t.hash[h := t.hash[h][..k] + t.hash[h][k + 1..]], t.loc[addr := t.loc[addr][1..]], t.syms - {id}, t.next)
  }

  function RemovedShape(t: Table, g: Shape, id: int): Shape
    requires id in t.syms
  {
    Shape(g.first - {id}, g.own - {Fold(t.syms[id].name)})
  }

  /** The first symbol at a location, and where it is on its hash chain. */
  predicate Found(t: Table, addr: int, k: int) {
    && |t.hash| == HASH && 0 <= addr < |t.loc| && t.loc[addr] != [] && t.loc[addr][0] in t.syms
    && var h := Hash(t.syms[t.loc[addr][0]].name); 0 <= k < |t.hash[h]| && t.hash[h][k] == t.loc[addr][0]
  }

  lemma RemoveMeans(t: Table, g: Shape, addr: int, k: int)
    requires Sound(t, g) && Found(t, addr, k)
    ensures var id := t.loc[addr][0];
      && id in t.syms && Sound(Removed(t, addr, k), RemovedShape(t, g, id))
      && HashOf(Removed(t, addr, k)) == HashOf(t) - {id}
      && Meaning(Removed(t, addr, k), RemovedShape(t, g, id)) == Meaning(t, g) - {Fold(t.syms[id].name)}
  {
    var id := t.loc[addr][0];
    assert forall x :: x in t.syms && x != id ==> Fold(t.syms[x].name) != Fold(t.syms[id].name);
    assert forall n :: n in g.own && n != Fold(t.syms[id].name) ==> g.own[n] != id;
    assert Named(Removed(t, addr, k), RemovedShape(t, g, id));
  }

  lemma LocRemoved(loc: seq<seq<int>>, first: map<int, int>, addr: int)
    requires Chained(loc, first) && 0 <= addr < |loc| && loc[addr] != []
    ensures Chained(loc[addr := loc[addr][1..]], first - {loc[addr][0]})
    ensures loc[addr][0] in first && first[loc[addr][0]] == addr
  {
    assert On(loc, addr, 0);
    ChainedDrop(loc, first, addr, 0, loc[addr][1..]);
  }

  lemma Remove(t: Table, g: Shape, addr: int, k: int)
    requires Inv(t, g) && Found(t, addr, k)
    ensures var id := t.loc[addr][0]; Inv(Removed(t, addr, k), RemovedShape(t, g, id))
    ensures var id := t.loc[addr][0];
      && Meaning(Removed(t, addr, k), RemovedShape(t, g, id)) == Meaning(t, g) - {Fold(t.syms[id].name)}
      && g.own[Fold(t.syms[id].name)] == id && g.first[id] == addr
  {
    var h := Hash(t.syms[t.loc[addr][0]].name);
    RemoveMeans(t, g, addr, k);
    LocRemoved(t.loc, g.first, addr);
    assert On(t.hash, h, k);
    ChainedDrop(t.hash, HashOf(t), h, k, t.hash[h][..k] + t.hash[h][k + 1..]);
  }

  /** A symbol at a location is on its hash chain, so the search for its link ends. */
  lemma OnHashChain(t: Table, g: Shape, addr: int)
    requires Inv(t, g) && 0 <= addr < LOCATIONS && t.loc[addr] != []
    ensures var id := t.loc[addr][0]; id in t.syms && id in t.hash[Hash(t.syms[id].name)]
  {
    var id := t.loc[addr][0];
    assert On(t.loc, addr, 0);
    assert id in g.first && id in t.syms && id in HashOf(t);
  }

  /** A name is known exactly when some symbol has it up to case, and that one is on the name's hash chain. */
  lemma {:induction false} Known(t: Table, g: Shape, n: Name, id: int)
    requires Inv(t, g) && id in t.syms && Fold(t.syms[id].name) == Fold(n)
    ensures Fold(n) in g.own && g.own[Fold(n)] == id && id in t.hash[Hash(n)]
  {
    HashFolds(t.syms[id].name, n);
    assert id in HashOf(t);
  }

  lemma {:induction false} Unknown(t: Table, g: Shape, n: Name)
    requires Inv(t, g) && forall i :: 0 <= i < |t.hash[Hash(n)]| ==> !Matches(t, n, i)
    ensures Fold(n) !in g.own
  {
    if Fold(n) in g.own {
      var id := g.own[Fold(n)];
      Known(t, g, n, id);
      var i :| 0 <= i < |t.hash[Hash(n)]| && t.hash[Hash(n)][i] == id;
      assert Matches(t, n, i);
    }
  }

  /** The i-th symbol on the hash chain of n has that name, up to case. */
  predicate Matches(t: Table, n: Name, i: int)
    requires |t.hash| == HASH && 0 <= i < |t.hash[Hash(n)]|
  {
    var id := t.hash[Hash(n)][i];
    id in t.syms && Fold(t.syms[id].name) == Fold(n)
  }

  /** Some names that were first added at a location are gone, and nothing else is changed. */
  predicate Without(was: map<Name, Entry>, now: map<Name, Entry>, addr: int) {
    && (forall k :: k in now ==> k in was && now[k] == was[k])
    && (forall k :: k in was && was[k].first != addr ==> k in now)
  }

  lemma WithoutMore(a: map<Name, Entry>, b: map<Name, Entry>, c: map<Name, Entry>, addr: int)
    requires Without(a, b, addr) && Without(b, c, addr)
    ensures Without(a, c, addr)
  {
  }

  /** The names that were not first added at a location. */
  function Elsewhere(m: map<Name, Entry>, addr: int): map<Name, Entry> {
    map k | k in m && m[k].first != addr :: m[k]
  }

  lemma WithoutAll(was: map<Name, Entry>, now: map<Name, Entry>, addr: int)
    requires Without(was, now, addr) && forall k :: k in now ==> now[k].first != addr
    ensures now == Elsewhere(was, addr)
  {
  }

  // -------------------------------------------------------------------------- links

  const NULL: int := -1

  /** Where each chain starts, and what follows each symbol. */
  datatype Links = Links(heads: seq<int>, next: map<int, int>)

  /** The symbol at a place on a chain; behind the last one there is none. */
  function At(chain: seq<int>, i: int): int { if 0 <= i < |chain| then chain[i] else NULL }

  /** Starting from p, the links lead along the chain. */
  ghost predicate Threads(p: int, next: map<int, int>, chain: seq<int>) {
    p == At(chain, 0) && forall i :: 0 <= i < |chain| ==> Follows(next, chain, i)
  }

  predicate Follows(next: map<int, int>, chain: seq<int>, i: int)
    requires 0 <= i < |chain|
  {
    chain[i] != NULL && chain[i] in next && next[chain[i]] == At(chain, i + 1)
  }

  ghost predicate Linked(links: Links, chains: seq<seq<int>>) {
    |links.heads| == |chains| && forall c :: 0 <= c < |chains| ==> Threads(links.heads[c], links.next, chains[c])
  }

  /** Links of symbols that are not on the chain do not matter. */
  lemma ThreadFrame(p: int, next: map<int, int>, chain: seq<int>, s: int, q: int)
    requires Threads(p, next, chain) && s !in chain
    ensures Threads(p, next[s := q], chain)
  {
    var next' := next[s := q];
    forall i | 0 <= i < |chain| ensures Follows(next', chain, i) {
      assert Follows(next, chain, i) && chain[i] in chain;
    }
  }

  lemma ThreadPush(p: int, next: map<int, int>, chain: seq<int>, id: int)
    requires Threads(p, next, chain) && id !in chain && id != NULL
    ensures Threads(id, next[id := p], [id] + chain)
  {
    var chain', next' := [id] + chain, next[id := p];
    forall i | 0 <= i < |chain'| ensures Follows(next', chain', i) {
      if i > 0 {
        assert Follows(next, chain, i - 1) && chain[i - 1] in chain;
      }
    }
  }

  /** The chain without its k-th symbol, reached through its head or the link of the symbol before. */
  lemma ThreadDrop(p: int, next: map<int, int>, chain: seq<int>, k: int)
    requires Threads(p, next, chain) && 0 <= k < |chain| && forall i, j :: 0 <= i < j < |chain| ==> chain[i] != chain[j]
    ensures chain[k] in next
    ensures k == 0 ==> Threads(next[chain[k]], next, chain[..k] + chain[k + 1..])
    ensures k > 0 ==> Threads(p, next[chain[k - 1] := next[chain[k]]], chain[..k] + chain[k + 1..])
  {
    assert Follows(next, chain, k);
    var chain' := chain[..k] + chain[k + 1..];
    var next' := if k == 0 then next else next[chain[k - 1] := next[chain[k]]];
    forall i | 0 <= i < |chain'| ensures Follows(next', chain', i) {
      assert Follows(next, chain, if i < k then i else i + 1);
    }
  }

  /** A new symbol in front of chain c. */
  function Pushed(links: Links, c: int, id: int): Links
    requires 0 <= c < |links.heads|
  {
    Links(links.heads[c := id], links.next[id := links.heads[c]])
  }

  lemma PushLinked(links: Links, chains: seq<seq<int>>, chainOf: map<int, int>, c: int, id: int)
    requires Linked(links, chains) && Chained(chains, chainOf) && 0 <= c < |chains| && id !in chainOf && id != NULL
    ensures Linked(Pushed(links, c, id), chains[c := [id] + chains[c]])
  {
    var links', chains' := Pushed(links, c, id), chains[c := [id] + chains[c]];
    forall d | 0 <= d < |chains| ensures Threads(links'.heads[d], links'.next, chains'[d]) {
      if i :| 0 <= i < |chains[d]| && chains[d][i] == id {
        assert On(chains, d, i);
      }
      if d == c {
        ThreadPush(links.heads[c], links.next, chains[c], id);
      } else {
        ThreadFrame(links.heads[d], links.next, chains[d], id, links.heads[c]);
      }
    }
  }

  /** What a pointer to a pointer refers to: the head of chain c, or the link of the symbol `at`. */
  function Deref(links: Links, c: int, at: int): int
    requires 0 <= c < |links.heads| && (at != NULL ==> at in links.next)
  {
    if at == NULL then links.heads[c] else links.next[at]
  }

  function Redirected(links: Links, c: int, at: int, to: int): Links
    requires 0 <= c < |links.heads|
  {
    if at == NULL then links.(heads := links.heads[c := to]) else links.(next := links.next[at := to])
  }

  lemma DropThis(links: Links, chains: seq<seq<int>>, chainOf: map<int, int>, c: int, k: int)
    requires Linked(links, chains) && Chained(chains, chainOf) && On(chains, c, k)
    ensures chains[c][k] in links.next
    ensures var links' := Redirected(links, c, At(chains[c], k - 1), links.next[chains[c][k]]);
      Threads(links'.heads[c], links'.next, chains[c][..k] + chains[c][k + 1..])
  {
    forall i, j | 0 <= i < j < |chains[c]| ensures chains[c][i] != chains[c][j] {
      assert On(chains, c, i) && On(chains, c, j);
    }
    ThreadDrop(links.heads[c], links.next, chains[c], k);
    if k > 0 {
      assert Follows(links.next, chains[c], k - 1);
    }
  }

  lemma DropOther(links: Links, chains: seq<seq<int>>, chainOf: map<int, int>, c: int, d: int, k: int, to: int)
    requires Linked(links, chains) && Chained(chains, chainOf) && On(chains, c, k) && 0 <= d < |chains| && c != d
    ensures var links' := Redirected(links, c, At(chains[c], k - 1), to);
      Threads(links'.heads[d], links'.next, chains[d])
  {
    if k > 0 {
      assert On(chains, c, k - 1);
      if i :| 0 <= i < |chains[d]| && chains[d][i] == chains[c][k - 1] {
        assert On(chains, d, i);
      }
      ThreadFrame(links.heads[d], links.next, chains[d], chains[c][k - 1], to);
    }
  }

  lemma DropLinked(links: Links, chains: seq<seq<int>>, chainOf: map<int, int>, c: int, k: int)
    requires Linked(links, chains) && Chained(chains, chainOf) && On(chains, c, k)
    ensures chains[c][k] in links.next
    ensures Linked(Redirected(links, c, At(chains[c], k - 1), links.next[chains[c][k]]),
                   chains[c := chains[c][..k] + chains[c][k + 1..]])
  {
    DropThis(links, chains, chainOf, c, k);
    var to := links.next[chains[c][k]];
    var links', chains' := Redirected(links, c, At(chains[c], k - 1), to),
      chains[c := chains[c][..k] + chains[c][k + 1..]];
    forall d | 0 <= d < |chains| ensures Threads(links'.heads[d], links'.next, chains'[d]) {
      if d != c {
        DropOther(links, chains, chainOf, c, d, k, to);
      }
    }
  }

  lemma LocUnlinked(loc: Links, chains: seq<seq<int>>, first: map<int, int>, addr: int)
    requires Linked(loc, chains) && Chained(chains, first) && 0 <= addr < |chains| && chains[addr] != []
    ensures chains[addr][0] in loc.next
    ensures Linked(Redirected(loc, addr, NULL, loc.next[chains[addr][0]]), chains[addr := chains[addr][1..]])
  {
    var chain := chains[addr];
    DropLinked(loc, chains, first, addr, 0);
    assert chain[..0] + chain[0 + 1..] == chain[1..];
  }

  /** The links represent the table. */
  ghost predicate Represents(hash: Links, loc: Links, t: Table, g: Shape) {
    Inv(t, g) && Linked(hash, t.hash) && Linked(loc, t.loc)
  }

  lemma OnThread(p: int, next: map<int, int>, chain: seq<int>, s: int)
    requires Threads(p, next, chain) && s in chain
    ensures s in next
  {
    var i :| 0 <= i < |chain| && chain[i] == s;
    assert Follows(next, chain, i);
  }

  /** The symbol that a location leads to is on its hash chain, so the search for its link ends. */
  lemma FirstAt(hash: Links, loc: Links, t: Table, g: Shape, addr: int)
    requires Represents(hash, loc, t, g) && 0 <= addr < LOCATIONS && loc.heads[addr] != NULL
    ensures var s := loc.heads[addr];
      && t.loc[addr] != [] && s == t.loc[addr][0] && s in t.syms && s in hash.next && s in loc.next
      && var h := Hash(t.syms[s].name); s in t.hash[h] && Threads(hash.heads[h], hash.next, t.hash[h])
  {
    assert Threads(loc.heads[addr], loc.next, t.loc[addr]) && Follows(loc.next, t.loc[addr], 0);
    OnHashChain(t, g, addr);
    var s := loc.heads[addr];
    OnThread(hash.heads[Hash(t.syms[s].name)], hash.next, t.hash[Hash(t.syms[s].name)], s);
  }

  /** Both chains after the first symbol at a location was unlinked. */
  lemma Unlink(hash: Links, loc: Links, t: Table, g: Shape, addr: int, k: int)
    requires Represents(hash, loc, t, g) && Found(t, addr, k)
    ensures var s := t.loc[addr][0];
      && s in hash.next && s in loc.next && var h := Hash(t.syms[s].name);
      && Represents(Redirected(hash, h, At(t.hash[h], k - 1), hash.next[s]), Redirected(loc, addr, NULL, loc.next[s]),
                    Removed(t, addr, k), RemovedShape(t, g, s))
      && Without(Meaning(t, g), Meaning(Removed(t, addr, k), RemovedShape(t, g, s)), addr)
  {
    var s := t.loc[addr][0];
    Remove(t, g, addr, k);
    DropLinked(hash, t.hash, HashOf(t), Hash(t.syms[s].name), k);
    LocUnlinked(loc, t.loc, g.first, addr);
  }

  /** A new symbol on both chains. */
  lemma {:induction false} Link(hash: Links, loc: Links, t: Table, g: Shape, n: Name, addr: int)
    requires Represents(hash, loc, t, g) && 0 <= addr < LOCATIONS && Fold(n) !in g.own
    ensures var t', g' := Added(t, n, addr), AddedShape(t, g, n, addr);
      && Represents(Pushed(hash, Hash(n), t.next), Pushed(loc, addr, t.next), t', g')
      && t'.syms == t.syms[t.next := Sym(n, addr)] && t'.next == t.next + 1
      && Meaning(t', g') == Meaning(t, g)[Fold(n) := Entry(addr, addr)]
  {
    AddNew(t, g, n, addr);
    PushLinked(hash, t.hash, HashOf(t), Hash(n), t.next);
    PushLinked(loc, t.loc, g.first, addr, t.next);
  }

  lemma Relocate(hash: Links, loc: Links, t: Table, g: Shape, id: int, addr: int)
    requires Represents(hash, loc, t, g) && id in t.syms
    ensures Represents(hash, loc, Moved(t, id, addr), g)
    ensures var k := Fold(t.syms[id].name);
      k in g.own && Meaning(Moved(t, id, addr), g) == Meaning(t, g)[k := Entry(addr, g.first[id])]
  {
    Move(t, g, id, addr);
  }

  lemma NoneLeft(hash: Links, loc: Links, t: Table, g: Shape, addr: int)
    requires Represents(hash, loc, t, g) && 0 <= addr < LOCATIONS && loc.heads[addr] == NULL
    ensures forall k :: k in Meaning(t, g) ==> Meaning(t, g)[k].first != addr
  {
    assert Threads(loc.heads[addr], loc.next, t.loc[addr]);
    forall k | k in Meaning(t, g) ensures Meaning(t, g)[k].first != addr {
      var id := g.own[k];
      assert id in t.syms && id in g.first;
      assert id in t.loc[g.first[id]];
    }
  }

  // ----------------------------------------------------------------------- the table

  class SymbolTable {
    var hash: Links
    var loc: Links
    var syms: map<int, Sym>
    var next: int
    ghost var t: Table
    ghost var g: Shape

    ghost predicate Valid()
      reads this
    {
      Represents(hash, loc, t, g) && t.syms == syms && t.next == next
    }

    ghost function Contents(): map<Name, Entry>
      reads this
      requires Valid()
    {
      Meaning(t, g)
    }

    constructor ()
      ensures Valid() && Contents() == map[]
    {
      hash, loc := Links(seq(HASH, i => NULL), map[]), Links(seq(LOCATIONS, i => NULL), map[]);
      syms, next := map[], 0;
      t := Table(seq(HASH, i => []), seq(LOCATIONS, i => []), map[], 0);
      g := Shape(map[], map[]);
    }

    /** The symbol with that name, up to case, or none. Following the links of the chain comes to an end. */
    method FindSymbol(n: Name) returns (id: int, h: int)
      requires Valid()
      ensures h == Hash(n)
      ensures id == NULL <==> Fold(n) !in Contents()
      ensures id != NULL ==> id in syms && g.own[Fold(n)] == id
      ensures id != NULL ==> Contents()[Fold(n)] == Entry(syms[id].addr, g.first[id])
    {
      h := SymbolHash(n);
      ghost var chain, i := t.hash[h], 0;
      id := hash.heads[h];
      assert Threads(hash.heads[h], hash.next, chain);
      while id != NULL
        invariant 0 <= i <= |chain| && id == At(chain, i) && forall j :: 0 <= j < i ==> !Matches(t, n, j)
        decreases |chain| - i
      {
        assert On(t.hash, h, i) && Follows(hash.next, chain, i);
        if Fold(syms[id].name) == Fold(n) {
          Known(t, g, n, id);
          return;
        }
        id, i := hash.next[id], i + 1;
      }
      Unknown(t, g, n);
    }

    /** Puts new links in place. */
    method Update(hash: Links, loc: Links, syms: map<int, Sym>, next: int, ghost t: Table, ghost g: Shape)
      requires Represents(hash, loc, t, g) && t.syms == syms && t.next == next
      modifies this
      ensures Valid() && this.t == t && this.g == g
    {
      this.hash, this.loc, this.syms, this.next, this.t, this.g := hash, loc, syms, next, t, g;
    }

    /** Adds a name, or changes the address of a known one if that is allowed. */
    method AddSymbol(n: Name, addr: int, dupOk: bool) returns (r: int)
      requires Valid() && 0 <= addr < 0x1_0000
      modifies this
      ensures Valid() && (r == -1 <==> Fold(n) in old(Contents()) && !dupOk)
      ensures r == -1 ==> Contents() == old(Contents())
      ensures r != -1 && Fold(n) in old(Contents()) ==>
        Contents() == old(Contents())[Fold(n) := Entry(addr, old(Contents())[Fold(n)].first)]
      ensures r != -1 && Fold(n) !in old(Contents()) ==> Contents() == old(Contents())[Fold(n) := Entry(addr, addr)]
    {
      var id, h := FindSymbol(n);
      r := 0;
      if id == NULL {
        Link(hash, loc, t, g, n, addr);
        Update(Pushed(hash, h, next), Pushed(loc, addr, next), syms[next := Sym(n, addr)], next + 1,
               Added(t, n, addr), AddedShape(t, g, n, addr));
      } else if !dupOk {
        r := -1;
      } else {
        Relocate(hash, loc, t, g, id, addr);
        Update(hash, loc, syms[id := syms[id].(addr := addr)], next, Moved(t, id, addr), g);
      }
    }

    /** The link on a chain that leads to s: its head, or the link of another symbol. */
    method FindLink(s: int, h: int, ghost chain: seq<int>) returns (at: int, ghost k: int)
      requires 0 <= h < |hash.heads| && Threads(hash.heads[h], hash.next, chain) && s in chain
      ensures 0 <= k < |chain| && chain[k] == s && at == At(chain, k - 1)
    {
      at, k := NULL, 0;
      while Deref(hash, h, at) != s
        invariant 0 <= k < |chain| && s in chain[k..] && at == At(chain, k - 1) && (at == NULL <==> k == 0)
        invariant at != NULL ==> Follows(hash.next, chain, k - 1)
        decreases |chain| - k
      {
        assert Follows(hash.next, chain, k);
        at, k := Deref(hash, h, at), k + 1;
      }
    }

    /** Unlinks the first symbol at a location from both chains. */
    method RemoveFirst(addr: int)
      requires Valid() && 0 <= addr < 0x1_0000 && loc.heads[addr] != NULL
      modifies this
      ensures Valid() && old(t.loc[addr]) != [] && t.loc[addr] == old(t.loc[addr])[1..]
      ensures Without(old(Contents()), Contents(), addr)
    {
      FirstAt(hash, loc, t, g, addr);
      var s := loc.heads[addr];
      var h := SymbolHash(syms[s].name);
      var at, k := FindLink(s, h, t.hash[h]);
      Unlink(hash, loc, t, g, addr, k);
      Update(Redirected(hash, h, at, hash.next[s]), Redirected(loc, addr, NULL, loc.next[s]), syms - {s}, next,
             Removed(t, addr, k), RemovedShape(t, g, s));
    }

    /** Removes every symbol that was first added at a location. */
    method RemoveSymbolAtAddr(addr: int)
      requires Valid() && 0 <= addr < 0x1_0000
      modifies this
      ensures Valid()
      ensures Contents() == Elsewhere(old(Contents()), addr)
    {
      ghost var was := Contents();
      while loc.heads[addr] != NULL
        invariant Valid() && Without(was, Contents(), addr)
        decreases |t.loc[addr]|
      {
        ghost var before := Contents();
        RemoveFirst(addr);
        WithoutMore(was, before, Contents(), addr);
      }
      NoneLeft(hash, loc, t, g, addr);
      WithoutAll(was, Contents(), addr);
    }
  }
}
