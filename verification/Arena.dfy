/**
 The arena allocator: three chains of blocks, the last of which is allocated
 from, and a list of blocks that are free again. Blocks are numbered in the order
 in which they were obtained; a number stands for a pointer, and -1 for NULL.
 */
module Arena {

  const ALIGN: nat := 8
  const HEADER: nat := 24
  const SLACK: nat := 10240
  const UINT: nat := 0x1_0000_0000

  /** A block at address `base`: what is below `avail` is taken, `limit` is its end. */
  datatype Block = Block(base: int, limit: int, avail: int, next: int)

  /** Blocks 0, 1 and 2 are the empty ones that start the chains. */
  datatype Heap = Heap(blocks: seq<Block>, arena: seq<int>, free: int)

  datatype Region = Region(start: int, size: int, block: int)

  /** The chains (0 to 2) and the free list (3), where each block is in them, and the regions in use per arena. */
  datatype Shape = Shape(lists: seq<seq<int>>, pos: seq<(int, int)>, live: seq<seq<Region>>)

  function RoundUp(n: int): int { (n + ALIGN - 1) / ALIGN * ALIGN }

  lemma Rounded(n: int)
    ensures n <= RoundUp(n) < n + 8 && RoundUp(n) % 8 == 0
  {
  }

  /** What is asked of malloc, in the 32 bits of an unsigned. */
  function MallocSize(n: int): int { (HEADER + n + SLACK) % UINT }

  /** The size asked of malloc does not wrap around. */
  predicate Enough(n: int) { HEADER + n + SLACK < UINT }

  /** A new block is large enough exactly when its size does not wrap around. */
  lemma SizeExactly(n: int)
    requires n >= 0
    ensures MallocSize(n) == (n + 10264) % 0x1_0000_0000 && (Enough(n) <==> n + 10264 < 0x1_0000_0000)
    ensures MallocSize(n) - 24 >= n <==> Enough(n)
  {
  }

  const ULONG: nat := 0x1_0000_0000_0000_0000

  /** A difference of pointers as the unsigned number that a size is compared with. */
  function AsUnsigned(d: int): int { if d < 0 then d + ULONG else d }

  /** A block of a wrapped size below the header's has its end before its first byte, and passes for large enough. */
  lemma TinyPasses(n: int)
    requires n > 0 && HEADER + n + SLACK < ULONG && MallocSize(n) < HEADER
    ensures !Enough(n) && n <= AsUnsigned(MallocSize(n) - HEADER) == MallocSize(n) - 24 + 0x1_0000_0000_0000_0000
  {
  }

  // ----------------------------------------------------------------------- invariant

  predicate InList(g: Shape, q: int, i: int) { 0 <= q < |g.lists| && 0 <= i < |g.lists[q]| }

  /** The lists hold every block once: lists and positions are inverse to each other. */
  ghost predicate Indexed(g: Shape) {
    && |g.lists| == 4
    && (forall q, i :: InList(g, q, i) ==> 0 <= g.lists[q][i] < |g.pos| && g.pos[g.lists[q][i]] == (q, i))
    && (forall b :: 0 <= b < |g.pos| ==> InList(g, g.pos[b].0, g.pos[b].1) && g.lists[g.pos[b].0][g.pos[b].1] == b)
  }

  function NextIn(l: seq<int>, i: int): int
    requires 0 <= i < |l|
  {
    if i + 1 < |l| then l[i + 1] else -1
  }

  ghost predicate Linked(h: Heap, g: Shape)
    requires Indexed(g)
  {
    && |h.blocks| == |g.pos| >= 3 && |h.arena| == 3
    && (forall q, i :: InList(g, q, i) ==> h.blocks[g.lists[q][i]].next == NextIn(g.lists[q], i))
    && (forall a :: 0 <= a < 3 ==> |g.lists[a]| > 0 && g.lists[a][0] == a && h.arena[a] == g.lists[a][|g.lists[a]| - 1])
    && h.free == if g.lists[3] == [] then -1 else g.lists[3][0]
  }

  predicate BlockOk(h: Heap, b: int)
    requires 0 <= b < |h.blocks|
  {
    var x := h.blocks[b];
    if b < 3 then x.base == x.limit == x.avail == 0
    else x.base % ALIGN == 0 && x.avail % ALIGN == 0 && 0 < x.base && x.base + HEADER <= x.avail <= x.limit
  }

  predicate Separate(h: Heap, b: int, c: int)
    requires 0 <= b < |h.blocks| && 0 <= c < |h.blocks|
  {
    h.blocks[b].limit <= h.blocks[c].base || h.blocks[c].limit <= h.blocks[b].base
  }

  ghost predicate BlocksOk(h: Heap) {
    && (forall b :: 0 <= b < |h.blocks| ==> BlockOk(h, b))
    && (forall b, c :: 3 <= b < c < |h.blocks| ==> Separate(h, b, c))
  }

  /** A region in use lies in the taken part of a block of its arena. */
  predicate RegionOk(h: Heap, g: Shape, a: int, r: Region) {
    && 3 <= r.block < |h.blocks| && |h.blocks| == |g.pos| && g.pos[r.block].0 == a
    && r.start % ALIGN == 0 && r.size > 0
    && h.blocks[r.block].base + HEADER <= r.start && r.start + r.size <= h.blocks[r.block].avail
  }

  predicate Disjoint(r: Region, s: Region) { r.start + r.size <= s.start || s.start + s.size <= r.start }

  ghost predicate LiveOk(h: Heap, g: Shape) {
    && |g.live| == 3
    && (forall a, i :: 0 <= a < 3 && 0 <= i < |g.live[a]| ==> RegionOk(h, g, a, g.live[a][i]))
    && (forall a, i, j :: 0 <= a < 3 && 0 <= i < j < |g.live[a]| ==> Disjoint(g.live[a][i], g.live[a][j]))
  }

  ghost predicate Inv(h: Heap, g: Shape) { Indexed(g) && Linked(h, g) && BlocksOk(h) && LiveOk(h, g) }

  lemma BlocksApart(h: Heap, b: int, c: int)
    requires BlocksOk(h) && 3 <= b < |h.blocks| && 3 <= c < |h.blocks| && b != c
    ensures Separate(h, b, c) && BlockOk(h, b) && BlockOk(h, c)
  {
    assert Separate(h, if b < c then b else c, if b < c then c else b);
  }

  lemma RegionsApart(h: Heap, g: Shape, a: int, b: int, r: Region, s: Region)
    requires BlocksOk(h) && RegionOk(h, g, a, r) && RegionOk(h, g, b, s) && a != b
    ensures Disjoint(r, s)
  {
    BlocksApart(h, r.block, s.block);
  }

  lemma SameArenaApart(h: Heap, g: Shape, a: int, i: int, j: int)
    requires LiveOk(h, g) && 0 <= a < 3 && 0 <= i < |g.live[a]| && 0 <= j < |g.live[a]| && i != j
    ensures Disjoint(g.live[a][i], g.live[a][j])
  {
    assert Disjoint(g.live[a][if i < j then i else j], g.live[a][if i < j then j else i]);
  }

  /** Regions in use never overlap, in whatever arenas they are. */
  lemma LiveApart(h: Heap, g: Shape, a: int, i: int, b: int, j: int)
    requires Inv(h, g) && 0 <= a < 3 && 0 <= i < |g.live[a]| && 0 <= b < 3 && 0 <= j < |g.live[b]| && (a, i) != (b, j)
    ensures Disjoint(g.live[a][i], g.live[b][j])
  {
    if a == b {
      SameArenaApart(h, g, a, i, j);
    } else {
      RegionsApart(h, g, a, b, g.live[a][i], g.live[b][j]);
    }
  }

  // ---------------------------------------------------------------- what the steps do

  /** Makes block b the last of chain a, all of it available. */
  function Append(h: Heap, a: int, b: int): Heap
    requires |h.arena| == 3 && 0 <= a < 3 && 0 <= h.arena[a] < |h.blocks| && 0 <= b < |h.blocks|
  {
    var x := h.blocks[b];
    h.(blocks := h.blocks[h.arena[a] := h.blocks[h.arena[a]].(next := b)]
                         [b := x.(avail := x.base + HEADER, next := -1)],
       arena := h.arena[a := b])
  }

  /** The first free block is made the last of chain a. */
  function Taken(h: Heap, a: int): Heap
    requires |h.arena| == 3 && 0 <= a < 3 && 0 <= h.arena[a] < |h.blocks| && 0 <= h.free < |h.blocks|
  {
    Append(h, a, h.free).(free := h.blocks[h.free].next)
  }

  function TakenShape(g: Shape, a: int): Shape
    requires |g.lists| == 4 && 0 <= a < 3 && g.lists[3] != []
  {
    var f := g.lists[3][0];
    Shape(g.lists[a := g.lists[a] + [f]][3 := g.lists[3][1..]],
      seq(|g.pos|, b requires 0 <= b < |g.pos| =>
        var (q, i) := g.pos[b];
        if q != 3 then (q, i) else if i == 0 then (a, |g.lists[a]|) else (3, i - 1)),
      g.live)
  }

  lemma Ends(h: Heap, g: Shape, a: int)
    requires Indexed(g) && Linked(h, g) && 0 <= a < 3
    ensures 0 <= h.arena[a] < |h.blocks| && g.pos[h.arena[a]] == (a, |g.lists[a]| - 1)
    ensures h.free != -1 ==>
      g.lists[3] != [] && 3 <= h.free < |h.blocks| && g.pos[h.free] == (3, 0) && h.arena[a] != h.free
    ensures h.free != -1 ==> h.free == g.lists[3][0] && h.blocks[h.free].next == NextIn(g.lists[3], 0)
    ensures h.free == -1 ==> g.lists[3] == []
  {
    assert InList(g, a, |g.lists[a]| - 1);
    if g.lists[3] != [] {
      assert InList(g, 3, 0);
      assert forall c :: 0 <= c < 3 ==> InList(g, c, 0) && g.pos[c] == (c, 0);
    }
  }

  lemma TakenIndexed(g: Shape, a: int)
    requires Indexed(g) && 0 <= a < 3 && g.lists[3] != []
    ensures Indexed(TakenShape(g, a))
  {
    var g' := TakenShape(g, a);
    forall q, i | InList(g', q, i) ensures 0 <= g'.lists[q][i] < |g'.pos| && g'.pos[g'.lists[q][i]] == (q, i) {
      if q == 3 {
        assert InList(g, 3, i + 1);
      } else if i < |g.lists[q]| {
        assert InList(g, q, i);
      } else {
        assert InList(g, 3, 0);
      }
    }
    forall b | 0 <= b < |g'.pos|
      ensures InList(g', g'.pos[b].0, g'.pos[b].1) && g'.lists[g'.pos[b].0][g'.pos[b].1] == b
    {
      assert InList(g, g.pos[b].0, g.pos[b].1);
    }
  }

  lemma AppendNext(h: Heap, a: int, b: int, x: int)
    requires |h.arena| == 3 && 0 <= a < 3 && 0 <= h.arena[a] < |h.blocks| && 0 <= b < |h.blocks| && b != h.arena[a]
      && 0 <= x < |h.blocks|
    ensures Append(h, a, b).blocks[x].next == if x == b then -1 else if x == h.arena[a] then b else h.blocks[x].next
  {
  }

  lemma TakenNext(h: Heap, g: Shape, a: int, q: int, i: int)
    requires Indexed(g) && Linked(h, g) && 0 <= a < 3 && h.free != -1
    requires 3 <= h.free < |h.blocks| && 0 <= h.arena[a] < |h.blocks| && g.lists[3] != []
    requires InList(TakenShape(g, a), q, i)
    ensures var l := TakenShape(g, a).lists[q];
      0 <= l[i] < |h.blocks| && Append(h, a, h.free).blocks[l[i]].next == NextIn(l, i)
  {
    Ends(h, g, a);
    var x := TakenShape(g, a).lists[q][i];
    if q == 3 {
      assert InList(g, 3, i + 1) && x == g.lists[3][i + 1];
    } else if i < |g.lists[q]| {
      assert InList(g, q, i) && x == g.lists[q][i];
    } else {
      assert x == h.free;
    }
    AppendNext(h, a, h.free, x);
  }

  lemma TakenLinked(h: Heap, g: Shape, a: int)
    requires Indexed(g) && Linked(h, g) && 0 <= a < 3 && h.free != -1
    requires 3 <= h.free < |h.blocks| && 0 <= h.arena[a] < |h.blocks| && g.lists[3] != [] && Indexed(TakenShape(g, a))
    ensures Linked(Taken(h, a), TakenShape(g, a))
  {
    var f, g' := h.free, TakenShape(g, a);
    var h' := Taken(h, a);
    forall q, i | InList(g', q, i) ensures h'.blocks[g'.lists[q][i]].next == NextIn(g'.lists[q], i) {
      TakenNext(h, g, a, q, i);
    }
    assert h'.free == if g'.lists[3] == [] then -1 else g'.lists[3][0] by {
      Ends(h, g, a);
    }
    forall c | 0 <= c < 3
      ensures |g'.lists[c]| > 0 && g'.lists[c][0] == c && h'.arena[c] == g'.lists[c][|g'.lists[c]| - 1]
    {
      assert |g.lists[c]| > 0 && g.lists[c][0] == c && h.arena[c] == g.lists[c][|g.lists[c]| - 1];
      Ends(h, g, a);
    }
  }

  /** Changing the availability of a block that has no region in use, and links. */
  lemma KeepsBlocks(h: Heap, a: int, b: int)
    requires BlocksOk(h) && |h.arena| == 3 && 0 <= a < 3 && 0 <= h.arena[a] < |h.blocks| && 3 <= b < |h.blocks|
      && b != h.arena[a]
    ensures BlocksOk(Append(h, a, b))
  {
    var h' := Append(h, a, b);
    forall c | 0 <= c < |h'.blocks| ensures BlockOk(h', c) {
      assert BlockOk(h, c);
    }
    forall c, d | 3 <= c < d < |h'.blocks| ensures Separate(h', c, d) {
      assert Separate(h, c, d);
    }
  }

  lemma TakenLive(h: Heap, g: Shape, a: int)
    requires Inv(h, g) && 0 <= a < 3 && h.free != -1
    requires 3 <= h.free < |h.blocks| && 0 <= h.arena[a] < |h.blocks| && g.lists[3] != []
    ensures LiveOk(Taken(h, a), TakenShape(g, a))
  {
    Ends(h, g, a);
    var g', h' := TakenShape(g, a), Taken(h, a);
    forall c, i | 0 <= c < 3 && 0 <= i < |g'.live[c]| ensures RegionOk(h', g', c, g'.live[c][i]) {
      assert RegionOk(h, g, c, g.live[c][i]);
    }
  }

  /** A block is taken from the free list. */
  lemma TakeFree(h: Heap, g: Shape, a: int)
    requires Inv(h, g) && 0 <= a < 3 && h.free != -1
    ensures g.lists[3] != [] && 3 <= h.free < |h.blocks| && 0 <= h.arena[a] < |h.blocks|
    ensures Inv(Taken(h, a), TakenShape(g, a))
  {
    Ends(h, g, a);
    var h' := Append(h, a, h.free);
    TakenIndexed(g, a);
    TakenLinked(h, g, a);
    KeepsBlocks(h, a, h.free);
    SameBlocks(h', Taken(h, a));
    TakenLive(h, g, a);
  }

  lemma SameBlocks(h: Heap, h': Heap)
    requires BlocksOk(h) && h'.blocks == h.blocks
    ensures BlocksOk(h')
  {
    forall c | 0 <= c < |h'.blocks| ensures BlockOk(h', c) {
      assert BlockOk(h, c);
    }
    forall c, d | 3 <= c < d < |h'.blocks| ensures Separate(h', c, d) {
      assert Separate(h, c, d);
    }
  }

  /** malloc's answer is NULL, or aligned memory of the size asked for that no block has. */
  ghost predicate Fresh(h: Heap, base: int, m: int) {
    base == 0 || (base > 0 && base % ALIGN == 0 && forall b :: 3 <= b < |h.blocks| ==> Outside(h, b, base, m))
  }

  predicate Outside(h: Heap, b: int, base: int, m: int)
    requires 0 <= b < |h.blocks|
  {
    h.blocks[b].limit <= base || base + m <= h.blocks[b].base
  }

  /** The heap with a new block, seen as the only one that is free. */
  function Obtained(h: Heap, base: int, m: int): Heap {
    h.(blocks := h.blocks + [Block(base, base + m, base + HEADER, -1)], free := |h.blocks|)
  }

  function ObtainedShape(g: Shape): Shape
    requires |g.lists| == 4
  {
    g.(lists := g.lists[3 := [|g.pos|]], pos := g.pos + [(3, 0)])
  }

  lemma Obtain(h: Heap, g: Shape, base: int, m: int)
    requires Inv(h, g) && h.free == -1 && base > 0 && Fresh(h, base, m) && m >= HEADER
    ensures Inv(Obtained(h, base, m), ObtainedShape(g))
  {
    Ends(h, g, 0);
    var h', g' := Obtained(h, base, m), ObtainedShape(g);
    ObtainIndexed(g);
    forall q, i | InList(g', q, i) ensures h'.blocks[g'.lists[q][i]].next == NextIn(g'.lists[q], i) {
      if q < 3 {
        assert InList(g, q, i);
      }
    }
    forall b | 0 <= b < |h'.blocks| ensures BlockOk(h', b) {
      if b < |h.blocks| {
        assert BlockOk(h, b);
      }
    }
    forall b, c | 3 <= b < c < |h'.blocks| ensures Separate(h', b, c) {
      if c < |h.blocks| {
        assert Separate(h, b, c);
      } else {
        assert Outside(h, b, base, m);
      }
    }
    forall a, i | 0 <= a < 3 && 0 <= i < |g'.live[a]| ensures RegionOk(h', g', a, g'.live[a][i]) {
      assert RegionOk(h, g, a, g.live[a][i]);
    }
  }

  lemma ObtainIndexed(g: Shape)
    requires Indexed(g) && g.lists[3] == []
    ensures Indexed(ObtainedShape(g))
  {
    var g' := ObtainedShape(g);
    forall q, i | InList(g', q, i) ensures 0 <= g'.lists[q][i] < |g'.pos| && g'.pos[g'.lists[q][i]] == (q, i) {
      if q < 3 {
        assert InList(g, q, i);
      }
    }
    forall b | 0 <= b < |g'.pos|
      ensures InList(g', g'.pos[b].0, g'.pos[b].1) && g'.lists[g'.pos[b].0][g'.pos[b].1] == b
    {
      if b < |g.pos| {
        assert InList(g, g.pos[b].0, g.pos[b].1);
      }
    }
  }

  /** A region of n bytes is taken from block b. */
  function Bumped(h: Heap, b: int, n: int): Heap
    requires 0 <= b < |h.blocks|
  {
    h.(blocks := h.blocks[b := h.blocks[b].(avail := h.blocks[b].avail + n)])
  }

  function BumpedShape(h: Heap, g: Shape, a: int, n: int): Shape
    requires |h.arena| == 3 && |g.live| == 3 && 0 <= a < 3 && 0 <= h.arena[a] < |h.blocks|
  {
    g.(live := g.live[a := g.live[a] + [Region(h.blocks[h.arena[a]].avail, n, h.arena[a])]])
  }

  lemma BumpBlocks(h: Heap, b: int, n: int)
    requires BlocksOk(h) && 3 <= b < |h.blocks| && n % ALIGN == 0 && 0 < n <= h.blocks[b].limit - h.blocks[b].avail
    ensures BlocksOk(Bumped(h, b, n))
  {
    var h' := Bumped(h, b, n);
    forall c | 0 <= c < |h'.blocks| ensures BlockOk(h', c) {
      assert BlockOk(h, c);
    }
    forall c, d | 3 <= c < d < |h'.blocks| ensures Separate(h', c, d) {
      assert Separate(h, c, d);
    }
  }

  lemma BumpLive(h: Heap, g: Shape, a: int, n: int)
    requires Inv(h, g) && 0 <= a < 3 && 3 <= h.arena[a] < |h.blocks| && n % ALIGN == 0
    requires 0 < n <= h.blocks[h.arena[a]].limit - h.blocks[h.arena[a]].avail
    ensures LiveOk(Bumped(h, h.arena[a], n), BumpedShape(h, g, a, n))
  {
    Ends(h, g, a);
    var k := h.arena[a];
    var h', g' := Bumped(h, k, n), BumpedShape(h, g, a, n);
    assert BlockOk(h, k);
    forall c, i | 0 <= c < 3 && 0 <= i < |g'.live[c]| ensures RegionOk(h', g', c, g'.live[c][i]) {
      if i < |g.live[c]| {
        assert RegionOk(h, g, c, g.live[c][i]);
      }
    }
    forall c, i, j | 0 <= c < 3 && 0 <= i < j < |g'.live[c]| ensures Disjoint(g'.live[c][i], g'.live[c][j]) {
      if j < |g.live[c]| {
        assert Disjoint(g.live[c][i], g.live[c][j]);
      } else {
        var r := g.live[c][i];
        assert RegionOk(h, g, c, r) && BlockOk(h, r.block);
        if r.block != k {
          assert Separate(h, if r.block < k then r.block else k, if r.block < k then k else r.block);
        }
      }
    }
  }

  lemma Bump(h: Heap, g: Shape, a: int, n: int)
    requires Inv(h, g) && 0 <= a < 3 && 0 <= h.arena[a] < |h.blocks| && n % ALIGN == 0
    requires 0 < n <= h.blocks[h.arena[a]].limit - h.blocks[h.arena[a]].avail
    ensures h.arena[a] >= 3 && Inv(Bumped(h, h.arena[a], n), BumpedShape(h, g, a, n))
  {
    assert BlockOk(h, h.arena[a]);
    BumpBlocks(h, h.arena[a], n);
    BumpLive(h, g, a, n);
    var h', g' := Bumped(h, h.arena[a], n), BumpedShape(h, g, a, n);
    SameLists(h, g, h', g');
  }

  lemma SameLists(h: Heap, g: Shape, h': Heap, g': Shape)
    requires Indexed(g) && Linked(h, g) && g'.lists == g.lists && g'.pos == g.pos
    requires |h'.blocks| == |h.blocks| && h'.arena == h.arena && h'.free == h.free
    requires forall b :: 0 <= b < |h.blocks| ==> h'.blocks[b].next == h.blocks[b].next
    ensures Indexed(g') && Linked(h', g')
  {
    forall q, i | InList(g', q, i) ensures 0 <= g'.lists[q][i] < |g'.pos| && g'.pos[g'.lists[q][i]] == (q, i) {
      assert InList(g, q, i);
    }
    forall b | 0 <= b < |g'.pos| ensures InList(g', g'.pos[b].0, g'.pos[b].1) {
      assert InList(g, g.pos[b].0, g.pos[b].1);
    }
    forall q, i | InList(g', q, i) ensures h'.blocks[g'.lists[q][i]].next == NextIn(g'.lists[q], i) {
      assert InList(g, q, i);
    }
  }

  /** The blocks of arena a go in front of the free list. */
  function Dropped(h: Heap, a: int): Heap
    requires |h.arena| == 3 && 0 <= a < 3 && 0 <= h.arena[a] < |h.blocks| && a < |h.blocks|
  {
    var blocks := h.blocks[h.arena[a] := h.blocks[h.arena[a]].(next := h.free)];
    Heap(blocks[a := blocks[a].(next := -1)], h.arena[a := a], blocks[a].next)
  }

  function DroppedShape(g: Shape, a: int): Shape
    requires |g.lists| == 4 && |g.live| == 3 && 0 <= a < 3 && g.lists[a] != []
  {
    Shape(g.lists[a := [g.lists[a][0]]][3 := g.lists[a][1..] + g.lists[3]],
      seq(|g.pos|, b requires 0 <= b < |g.pos| =>
        var (q, i) := g.pos[b];
        if q == 3 then (3, i + |g.lists[a]| - 1) else if q == a && i > 0 then (3, i - 1) else (q, i)),
      g.live[a := []])
  }

  lemma DropPos(g: Shape, a: int, q: int, i: int)
    requires Indexed(g) && |g.live| == 3 && 0 <= a < 3 && g.lists[a] != [] && InList(DroppedShape(g, a), q, i)
    ensures var g' := DroppedShape(g, a); 0 <= g'.lists[q][i] < |g'.pos| && g'.pos[g'.lists[q][i]] == (q, i)
  {
    var n := |g.lists[a]|;
    if q != 3 {
      assert InList(g, q, i);
    } else if i < n - 1 {
      assert InList(g, a, i + 1);
    } else {
      assert InList(g, 3, i - (n - 1));
    }
  }

  lemma DropBlock(g: Shape, a: int, b: int)
    requires Indexed(g) && |g.live| == 3 && 0 <= a < 3 && g.lists[a] != [] && 0 <= b < |g.pos|
    ensures var g' := DroppedShape(g, a);
      InList(g', g'.pos[b].0, g'.pos[b].1) && g'.lists[g'.pos[b].0][g'.pos[b].1] == b
  {
    assert InList(g, g.pos[b].0, g.pos[b].1);
  }

  lemma DropIndexed(g: Shape, a: int)
    requires Indexed(g) && |g.live| == 3 && 0 <= a < 3 && g.lists[a] != []
    ensures Indexed(DroppedShape(g, a))
  {
    var g' := DroppedShape(g, a);
    forall q, i | InList(g', q, i) ensures 0 <= g'.lists[q][i] < |g'.pos| && g'.pos[g'.lists[q][i]] == (q, i) {
      DropPos(g, a, q, i);
    }
    forall b | 0 <= b < |g'.pos|
      ensures InList(g', g'.pos[b].0, g'.pos[b].1) && g'.lists[g'.pos[b].0][g'.pos[b].1] == b
    {
      DropBlock(g, a, b);
    }
  }

  lemma DroppedNext(h: Heap, a: int, x: int)
    requires |h.arena| == 3 && 0 <= a < 3 && 0 <= h.arena[a] < |h.blocks| && a < |h.blocks| && 0 <= x < |h.blocks|
    ensures Dropped(h, a).blocks[x].next == if x == a then -1 else if x == h.arena[a] then h.free else h.blocks[x].next
  {
  }

  /** In a chain: it is the first block of chain a, or a block of another chain. */
  lemma DropNextChain(h: Heap, g: Shape, a: int, q: int, i: int)
    requires Indexed(g) && Linked(h, g) && |g.live| == 3 && 0 <= a < 3 && 0 <= h.arena[a] < |h.blocks|
    requires q != 3 && InList(DroppedShape(g, a), q, i)
    ensures var l := DroppedShape(g, a).lists[q];
      0 <= l[i] < |h.blocks| && Dropped(h, a).blocks[l[i]].next == NextIn(l, i)
  {
    Ends(h, g, a);
    var x := g.lists[q][i];
    assert InList(g, q, i) && g.pos[x] == (q, i);
    assert InList(g, a, 0) && g.pos[a] == (a, 0);
    DroppedNext(h, a, x);
  }

  /** In the free list: it comes from chain a, and the last of those is linked to what was free before. */
  lemma DropNextFree(h: Heap, g: Shape, a: int, i: int)
    requires Indexed(g) && Linked(h, g) && |g.live| == 3 && 0 <= a < 3 && 0 <= h.arena[a] < |h.blocks|
    requires 0 <= i < |g.lists[a]| - 1
    ensures var l := g.lists[a][1..] + g.lists[3];
      0 <= l[i] < |h.blocks| && Dropped(h, a).blocks[l[i]].next == NextIn(l, i)
  {
    Ends(h, g, a);
    var x := g.lists[a][i + 1];
    assert InList(g, a, i + 1) && g.pos[x] == (a, i + 1);
    assert InList(g, a, 0) && g.pos[a] == (a, 0);
    DroppedNext(h, a, x);
    if i + 2 == |g.lists[a]| {
      assert x == h.arena[a];
    }
  }

  lemma NextAppended(front: seq<int>, back: seq<int>, j: int)
    requires 0 <= j < |back|
    ensures (front + back)[|front| + j] == back[j] && NextIn(front + back, |front| + j) == NextIn(back, j)
  {
  }

  /** In the free list, and free before. */
  lemma DropNextOld(h: Heap, g: Shape, a: int, j: int)
    requires Indexed(g) && Linked(h, g) && |g.live| == 3 && 0 <= a < 3 && 0 <= h.arena[a] < |h.blocks|
    requires 0 <= j < |g.lists[3]|
    ensures var front := g.lists[a][1..];
      var l, i := front + g.lists[3], |front| + j;
      0 <= l[i] < |h.blocks| && Dropped(h, a).blocks[l[i]].next == NextIn(l, i)
  {
    Ends(h, g, a);
    NextAppended(g.lists[a][1..], g.lists[3], j);
    var x := g.lists[3][j];
    assert InList(g, 3, j) && g.pos[x] == (3, j);
    assert InList(g, a, 0) && g.pos[a] == (a, 0);
    DroppedNext(h, a, x);
  }

  lemma DropNextList(h: Heap, g: Shape, a: int, i: int)
    requires Indexed(g) && Linked(h, g) && |g.live| == 3 && 0 <= a < 3 && 0 <= h.arena[a] < |h.blocks|
    requires 0 <= i < |g.lists[a][1..] + g.lists[3]|
    ensures var l := g.lists[a][1..] + g.lists[3];
      0 <= l[i] < |h.blocks| && Dropped(h, a).blocks[l[i]].next == NextIn(l, i)
  {
    var n := |g.lists[a][1..]|;
    if i < n {
      DropNextFree(h, g, a, i);
    } else {
      DropNextOld(h, g, a, i - n);
    }
  }

  lemma DropNext(h: Heap, g: Shape, a: int, q: int, i: int)
    requires Indexed(g) && Linked(h, g) && |g.live| == 3 && 0 <= a < 3 && 0 <= h.arena[a] < |h.blocks|
    requires InList(DroppedShape(g, a), q, i)
    ensures var l := DroppedShape(g, a).lists[q];
      0 <= l[i] < |h.blocks| && Dropped(h, a).blocks[l[i]].next == NextIn(l, i)
  {
    if q != 3 {
      DropNextChain(h, g, a, q, i);
    } else {
      DropNextList(h, g, a, i);
    }
  }

  lemma DropLinked(h: Heap, g: Shape, a: int)
    requires Indexed(g) && Linked(h, g) && |g.live| == 3 && 0 <= a < 3 && 0 <= h.arena[a] < |h.blocks|
      && Indexed(DroppedShape(g, a))
    ensures Linked(Dropped(h, a), DroppedShape(g, a))
  {
    var h', g' := Dropped(h, a), DroppedShape(g, a);
    forall q, i | InList(g', q, i) ensures h'.blocks[g'.lists[q][i]].next == NextIn(g'.lists[q], i) {
      DropNext(h, g, a, q, i);
    }
    forall c | 0 <= c < 3
      ensures |g'.lists[c]| > 0 && g'.lists[c][0] == c && h'.arena[c] == g'.lists[c][|g'.lists[c]| - 1]
    {
      assert |g.lists[c]| > 0 && g.lists[c][0] == c && h.arena[c] == g.lists[c][|g.lists[c]| - 1];
    }
    assert h'.free == if g'.lists[3] == [] then -1 else g'.lists[3][0] by {
      DropFree(h, g, a);
    }
  }

  lemma DropFree(h: Heap, g: Shape, a: int)
    requires Indexed(g) && Linked(h, g) && |g.live| == 3 && 0 <= a < 3 && 0 <= h.arena[a] < |h.blocks|
    ensures var l := DroppedShape(g, a).lists[3]; Dropped(h, a).free == if l == [] then -1 else l[0]
  {
    Ends(h, g, a);
    assert InList(g, a, 0);
    assert h.blocks[a].next == NextIn(g.lists[a], 0);
  }

  lemma DropBlocks(h: Heap, a: int)
    requires BlocksOk(h) && |h.arena| == 3 && 0 <= a < 3 && 0 <= h.arena[a] < |h.blocks| && a < |h.blocks|
    ensures BlocksOk(Dropped(h, a))
  {
    var h' := Dropped(h, a);
    forall c | 0 <= c < |h'.blocks| ensures BlockOk(h', c) {
      assert BlockOk(h, c);
    }
    forall c, d | 3 <= c < d < |h'.blocks| ensures Separate(h', c, d) {
      assert Separate(h, c, d);
    }
  }

  lemma DropLive(h: Heap, g: Shape, a: int)
    requires LiveOk(h, g) && Indexed(g) && Linked(h, g) && 0 <= a < 3 && 0 <= h.arena[a] < |h.blocks|
    ensures LiveOk(Dropped(h, a), DroppedShape(g, a))
  {
    var h', g' := Dropped(h, a), DroppedShape(g, a);
    forall c, i | 0 <= c < 3 && 0 <= i < |g'.live[c]| ensures RegionOk(h', g', c, g'.live[c][i]) {
      assert RegionOk(h, g, c, g.live[c][i]);
    }
    forall c, i, j | 0 <= c < 3 && 0 <= i < j < |g'.live[c]| ensures Disjoint(g'.live[c][i], g'.live[c][j]) {
      assert Disjoint(g.live[c][i], g.live[c][j]);
    }
  }

  lemma Drop(h: Heap, g: Shape, a: int)
    requires Inv(h, g) && 0 <= a < 3
    ensures 0 <= h.arena[a] < |h.blocks|
    ensures Inv(Dropped(h, a), DroppedShape(g, a))
  {
    Ends(h, g, a);
    DropIndexed(g, a);
    DropLinked(h, g, a);
    DropBlocks(h, a);
    DropLive(h, g, a);
  }

  predicate SameRanges(h: Heap, h': Heap) {
    && |h'.blocks| == |h.blocks|
    && forall b :: 0 <= b < |h.blocks| ==>
      h'.blocks[b].base == h.blocks[b].base && h'.blocks[b].limit == h.blocks[b].limit
  }

  /** What is left of the block that arena a allocates from. */
  function Room(h: Heap, a: int): int
    requires 0 <= a < |h.arena| && 0 <= h.arena[a] < |h.blocks|
  {
    h.blocks[h.arena[a]].limit - h.blocks[h.arena[a]].avail
  }

  predicate ApartBy(x: int, y: int, m: int) { x == 0 || y == 0 || x + m <= y || y + m <= x }

  /** What malloc answers when it is asked again and again for m bytes; after the last answer it answers NULL. */
  ghost predicate Answers(h: Heap, mallocs: seq<int>, m: int) {
    && (forall i :: 0 <= i < |mallocs| ==> Fresh(h, mallocs[i], m))
    && (forall i, j :: 0 <= i < j < |mallocs| ==> ApartBy(mallocs[i], mallocs[j], m))
  }

  lemma AnswersKept(h: Heap, h': Heap, mallocs: seq<int>, m: int)
    requires SameRanges(h, h') && Answers(h, mallocs, m)
    ensures Answers(h', mallocs, m)
  {
    forall i | 0 <= i < |mallocs| ensures Fresh(h', mallocs[i], m) {
      assert Fresh(h, mallocs[i], m);
      if mallocs[i] != 0 {
        forall b | 3 <= b < |h'.blocks| ensures Outside(h', b, mallocs[i], m) {
          assert Outside(h, b, mallocs[i], m);
        }
      }
    }
  }

  /** After the first answer was taken. */
  lemma AnswersLeft(h: Heap, mallocs: seq<int>, m: int)
    requires mallocs != [] && mallocs[0] != 0 && Answers(h, mallocs, m)
    ensures Answers(Obtained(h, mallocs[0], m), mallocs[1..], m)
  {
    var h', rest := Obtained(h, mallocs[0], m), mallocs[1..];
    forall i | 0 <= i < |rest| ensures Fresh(h', rest[i], m) {
      assert Fresh(h, mallocs[i + 1], m) && ApartBy(mallocs[0], mallocs[i + 1], m);
      if rest[i] != 0 {
        forall b | 3 <= b < |h'.blocks| ensures Outside(h', b, rest[i], m) {
          assert b < |h.blocks| ==> Outside(h, b, mallocs[i + 1], m);
        }
      }
    }
    forall i, j | 0 <= i < j < |rest| ensures ApartBy(rest[i], rest[j], m) {
      assert ApartBy(mallocs[i + 1], mallocs[j + 1], m);
    }
  }

  // ----------------------------------------------------------- one more block

  /** The first free block was added to chain a. */
  ghost predicate GrownFree(h: Heap, g: Shape, h': Heap, g': Shape, a: int) {
    && Inv(h', g') && g'.live == g.live && |g.lists| == 4 && |g'.lists[3]| < |g.lists[3]|
    && 0 <= a < 3 && 0 <= h'.arena[a] < |h'.blocks| && SameRanges(h, h')
  }

  lemma GrowFree(h: Heap, g: Shape, a: int)
    requires Inv(h, g) && 0 <= a < 3 && h.free != -1
    ensures 0 <= h.arena[a] < |h.blocks| && 0 <= h.free < |h.blocks| && g.lists[3] != []
    ensures GrownFree(h, g, Taken(h, a), TakenShape(g, a), a)
  {
    TakeFree(h, g, a);
  }

  /** A block of m bytes from malloc was added to chain a. */
  ghost predicate GrownNew(h: Heap, g: Shape, h': Heap, g': Shape, a: int, m: int) {
    && Inv(h', g') && g'.live == g.live && g'.lists[3] == [] && |h'.blocks| == |h.blocks| + 1
    && 0 <= a < 3 && 0 <= h'.arena[a] < |h'.blocks| && Room(h', a) == m - HEADER
  }

  lemma GrowNew(h: Heap, g: Shape, a: int, m: int, base: int)
    requires Inv(h, g) && 0 <= a < 3 && h.free == -1 && base > 0 && m >= HEADER && Fresh(h, base, m)
    ensures 0 <= h.arena[a] < |h.blocks|
    ensures GrownNew(h, g, Taken(Obtained(h, base, m), a), TakenShape(ObtainedShape(g), a), a, m)
    ensures SameRanges(Obtained(h, base, m), Taken(Obtained(h, base, m), a))
  {
    Ends(h, g, a);
    Obtain(h, g, base, m);
    TakeFree(Obtained(h, base, m), ObtainedShape(g), a);
  }

  /** What block b can hold when it is empty. */
  function Capacity(h: Heap, b: int): int
    requires 0 <= b < |h.blocks|
  {
    h.blocks[b].limit - h.blocks[b].base - HEADER
  }

  predicate LargeAt(h: Heap, l: seq<int>, i: int, n: int) {
    0 <= i < |l| && 0 <= l[i] < |h.blocks| && Capacity(h, l[i]) >= n
  }

  /** The current block of arena a, or a free one, is large enough. */
  ghost predicate Suits(h: Heap, g: Shape, a: int, n: int)
    requires |g.lists| == 4 && 0 <= a < |h.arena| && 0 <= h.arena[a] < |h.blocks|
  {
    Room(h, a) >= n || exists i :: LargeAt(h, g.lists[3], i, n)
  }

  /** What arena a had from malloc serves any arena b again when a is freed. */
  lemma Reused(h: Heap, g: Shape, a: int, b: int, i: int, n: int)
    requires Inv(h, g) && 0 <= a < 3 && 0 <= b < 3 && 0 < i && LargeAt(h, g.lists[a], i, n)
    ensures 0 <= h.arena[a] < |h.blocks|
    ensures var h', g' := Dropped(h, a), DroppedShape(g, a);
      0 <= b < |h'.arena| && 0 <= h'.arena[b] < |h'.blocks| && Suits(h', g', b, n)
  {
    Drop(h, g, a);
    Ends(Dropped(h, a), DroppedShape(g, a), b);
    FreedAt(h, g, a, i, n);
  }

  lemma FreedAt(h: Heap, g: Shape, a: int, i: int, n: int)
    requires Indexed(g) && Linked(h, g) && |g.live| == 3 && 0 <= a < 3 && 0 < i && LargeAt(h, g.lists[a], i, n)
    requires 0 <= h.arena[a] < |h.blocks|
    ensures LargeAt(Dropped(h, a), DroppedShape(g, a).lists[3], i - 1, n)
  {
    assert DroppedShape(g, a).lists[3][i - 1] == g.lists[a][i];
  }

  /** Taking the first free block because the current one is too small. */
  lemma SuitsTaken(h: Heap, g: Shape, a: int, n: int)
    requires Inv(h, g) && 0 <= a < 3 && h.free != -1 && 0 <= h.arena[a] < |h.blocks| && Room(h, a) < n
    requires 0 <= h.free < |h.blocks| && g.lists[3] != [] && GrownFree(h, g, Taken(h, a), TakenShape(g, a), a)
    ensures Suits(h, g, a, n) <==> Suits(Taken(h, a), TakenShape(g, a), a, n)
  {
    Ends(h, g, a);
    var h', l, l' := Taken(h, a), g.lists[3], TakenShape(g, a).lists[3];
    assert Room(h', a) == Capacity(h, l[0]);
    if i :| LargeAt(h, l, i, n) {
      assert i > 0 ==> LargeAt(h', l', i - 1, n);
    }
    if i :| LargeAt(h', l', i, n) {
      assert InList(g, 3, i + 1);
      assert LargeAt(h, l, i + 1, n);
    }
    if Room(h', a) >= n {
      assert LargeAt(h, l, 0, n);
    }
  }

  function InitialHeap(): Heap { Heap([Block(0, 0, 0, -1), Block(0, 0, 0, -1), Block(0, 0, 0, -1)], [0, 1, 2], -1) }

  function InitialShape(): Shape { Shape([[0], [1], [2], []], [(0, 0), (1, 0), (2, 0)], [[], [], []]) }

  lemma InitialIndexed()
    ensures Indexed(InitialShape())
  {
    var g := InitialShape();
    forall q, i | InList(g, q, i) ensures 0 <= g.lists[q][i] < |g.pos| && g.pos[g.lists[q][i]] == (q, i) {
      assert (q == 0 || q == 1 || q == 2) && i == 0;
    }
    forall b | 0 <= b < |g.pos| ensures InList(g, g.pos[b].0, g.pos[b].1) && g.lists[g.pos[b].0][g.pos[b].1] == b {
      assert b == 0 || b == 1 || b == 2;
    }
  }

  lemma InitialLinked()
    requires Indexed(InitialShape())
    ensures Linked(InitialHeap(), InitialShape())
  {
    var h, g := InitialHeap(), InitialShape();
    forall q, i | InList(g, q, i) ensures h.blocks[g.lists[q][i]].next == NextIn(g.lists[q], i) {
      assert (q == 0 || q == 1 || q == 2) && i == 0;
    }
    forall a | 0 <= a < 3 ensures |g.lists[a]| > 0 && g.lists[a][0] == a && h.arena[a] == g.lists[a][|g.lists[a]| - 1] {
      assert a == 0 || a == 1 || a == 2;
    }
  }

  lemma Initial()
    ensures Inv(InitialHeap(), InitialShape())
  {
    InitialIndexed();
    InitialLinked();
    forall b | 0 <= b < 3 ensures BlockOk(InitialHeap(), b) {
      assert b == 0 || b == 1 || b == 2;
    }
    forall a | 0 <= a < 3 ensures InitialShape().live[a] == [] {
      assert a == 0 || a == 1 || a == 2;
    }
  }

  // ------------------------------------------------------------------- the allocator

  /** How the search for a block ends: with room, without memory, or with a block that only seems to have room. */
  datatype Search = Found | OutOfMemory | Overrun

  class Arenas {
    var h: Heap
    ghost var g: Shape

    ghost predicate Valid() reads this { Inv(h, g) }

    constructor ()
      ensures Valid() && g.live == [[], [], []]
    {
      h, g := InitialHeap(), InitialShape();
      new;
      Initial();
    }

    /** Adds the first free block to chain a. */
    method GrowFromFree(a: int)
      requires Valid() && 0 <= a < 3 && h.free != -1
      modifies this
      ensures GrownFree(old(h), old(g), h, g, a)
      ensures 0 <= old(h).arena[a] < |old(h).blocks| && 0 <= old(h).free < |old(h).blocks| && old(g).lists[3] != []
      ensures h == Taken(old(h), a) && g == TakenShape(old(g), a)
    {
      GrowFree(h, g, a);
      h, g := Taken(h, a), TakenShape(g, a);
    }

    /** Adds a block of m bytes from malloc to chain a. */
    method GrowFromMalloc(a: int, m: int, mallocs: seq<int>)
      requires Valid() && 0 <= a < 3 && h.free == -1 && m >= HEADER
      requires mallocs != [] && mallocs[0] != 0 && Answers(h, mallocs, m)
      modifies this
      ensures GrownNew(old(h), old(g), h, g, a, m) && Answers(h, mallocs[1..], m) && h.free == -1
    {
      assert Fresh(h, mallocs[0], m);
      GrowNew(h, g, a, m, mallocs[0]);
      AnswersLeft(h, mallocs, m);
      AnswersKept(Obtained(h, mallocs[0], m), Taken(Obtained(h, mallocs[0], m), a), mallocs[1..], m);
      h, g := Taken(Obtained(h, mallocs[0], m), a), TakenShape(ObtainedShape(g), a);
      Ends(h, g, a);
    }

    /** Looks for room among the current and the free blocks. */
    method SearchFree(n: int, a: int, ghost mallocs: seq<int>, ghost m: int)
      requires Valid() && 0 <= a < 3 && Answers(h, mallocs, m)
      modifies this
      ensures Valid() && g.live == old(g.live) && 0 <= h.arena[a] < |h.blocks| && |h.blocks| == |old(h.blocks)|
      ensures Answers(h, mallocs, m)
      ensures 0 <= old(h.arena)[a] < |old(h.blocks)| && (n <= Room(h, a) <==> old(Suits(h, g, a, n)))
      ensures n > Room(h, a) ==> h.free == -1
    {
      Ends(h, g, a);
      ghost var suits := Suits(h, g, a, n);
      while n > Room(h, a) && h.free != -1
        invariant Valid() && g.live == old(g.live) && 0 <= h.arena[a] < |h.blocks| && |h.blocks| == |old(h.blocks)|
        invariant Answers(h, mallocs, m) && (Suits(h, g, a, n) <==> suits)
        decreases |g.lists[3]|
      {
        GrowFree(h, g, a);
        SuitsTaken(h, g, a, n);
        AnswersKept(h, Taken(h, a), mallocs, m);
        GrowFromFree(a);
      }
      Ends(h, g, a);
    }

    /** Asks malloc for m bytes until a block is large enough, or seems to be, or there is no more memory. */
    method Ask(n: int, a: int, m: int, mallocs: seq<int>) returns (r: Search, used: nat)
      requires Valid() && 0 <= a < 3 && h.free == -1 && 0 < n
      requires 0 <= h.arena[a] < |h.blocks| && n > Room(h, a) && Answers(h, mallocs, m)
      modifies this
      ensures r.Found? <==> n <= m - HEADER && mallocs != [] && mallocs[0] != 0
      ensures r.Overrun? <==> m < HEADER && mallocs != [] && mallocs[0] != 0
      ensures r.Found? ==> Valid() && g.live == old(g.live) && 0 <= h.arena[a] < |h.blocks| && n <= Room(h, a)
      ensures r.Found? ==> |h.blocks| == |old(h.blocks)| + 1
      ensures r.OutOfMemory? ==> used <= |mallocs| && (used < |mallocs| ==> mallocs[used] == 0)
    {
      used := 0;
      var ms := mallocs;
      while n > Room(h, a)
        invariant Valid() && g.live == old(g.live) && 0 <= h.arena[a] < |h.blocks| && h.free == -1
        invariant used <= |mallocs| && ms == mallocs[used..] && Answers(h, ms, m)
          && |h.blocks| == |old(h.blocks)| + used
        invariant used > 0 ==> m >= HEADER && mallocs[0] != 0 && Room(h, a) == m - HEADER
        invariant used > 0 && n <= m - HEADER ==> used == 1
        invariant used == 0 ==> n > Room(h, a)
        decreases |ms|
      {
        if ms == [] || ms[0] == 0 {
          return OutOfMemory, used;
        }
        if m < HEADER {
          return Overrun, used;
        }
        GrowFromMalloc(a, m, ms);
        ms, used := ms[1..], used + 1;
      }
      r := Found;
    }

    /** Asks malloc for a block for n bytes. */
    method SearchNew(n: int, a: int, mallocs: seq<int>) returns (r: Search, used: nat)
      requires Valid() && 0 <= a < 3 && h.free == -1 && 0 < n
      requires 0 <= h.arena[a] < |h.blocks| && n > Room(h, a) && Answers(h, mallocs, MallocSize(n))
      modifies this
      ensures r.Found? <==> Enough(n) && mallocs != [] && mallocs[0] != 0
      ensures r.Overrun? <==> MallocSize(n) < HEADER && mallocs != [] && mallocs[0] != 0
      ensures r.Found? ==> Valid() && g.live == old(g.live) && 0 <= h.arena[a] < |h.blocks| && n <= Room(h, a)
      ensures r.Found? ==> |h.blocks| == |old(h.blocks)| + 1
      ensures r.OutOfMemory? ==> used <= |mallocs| && (used < |mallocs| ==> mallocs[used] == 0)
    {
      SizeExactly(n);
      r, used := Ask(n, a, MallocSize(n), mallocs);
    }

    /** Takes n bytes of the block that arena a allocates from. */
    method Take(n: int, a: int) returns (p: int)
      requires Valid() && 0 <= a < 3 && 0 <= h.arena[a] < |h.blocks| && n % ALIGN == 0 && 0 < n <= Room(h, a)
      modifies this
      ensures Valid() && p > 0 && |h.blocks| == |old(h.blocks)|
      ensures g.live == old(g.live)[a := old(g.live)[a] + [Region(p, n, h.arena[a])]]
    {
      Bump(h, g, a, n);
      var b := h.arena[a];
      p := h.blocks[b].avail;
      assert BlockOk(h, b);
      h, g := Bumped(h, b, n), BumpedShape(h, g, a, n);
    }

    /**
     Allocates `size` bytes, rounded up, in arena a; `mallocs` is what malloc answers each time it is asked. Room is
     found exactly when a block at hand is large enough, or malloc has memory and the size asked for does not wrap.
     When the wrapped size is below that of a header, the address returned is past the end of the new block.
     */
    method Allocate(size: int, a: int, mallocs: seq<int>) returns (r: Search, p: int)
      requires Valid() && 0 <= a < 3 && 0 < size && HEADER + RoundUp(size) + SLACK < ULONG
      requires Answers(h, mallocs, MallocSize(RoundUp(size)))
      modifies this
      ensures 0 <= old(h.arena)[a] < |old(h.blocks)|
      ensures var n := RoundUp(size);
        && (r.Found? <==> old(Suits(h, g, a, n)) || (Enough(n) && mallocs != [] && mallocs[0] != 0))
        && (r.Overrun? <==> !old(Suits(h, g, a, n)) && MallocSize(n) < HEADER && mallocs != [] && mallocs[0] != 0)
      ensures r.Found? ==> Valid()
      ensures r.Found? ==> |h.blocks| == |old(h.blocks)| + if old(Suits(h, g, a, RoundUp(size))) then 0 else 1
      ensures r.Found? ==> g.live == old(g.live)[a := old(g.live)[a] + [Region(p, RoundUp(size), h.arena[a])]]
      ensures r.Overrun? ==> var n, m := RoundUp(size), MallocSize(RoundUp(size));
        p == mallocs[0] + HEADER > mallocs[0] + m && n <= AsUnsigned(mallocs[0] + m - p)
    {
      Rounded(size);
      var n := RoundUp(size);
      r, p := Found, 0;
      SearchFree(n, a, mallocs, MallocSize(n));
      if n > Room(h, a) {
        var used;
        r, used := SearchNew(n, a, mallocs);
      }
      if r.Found? {
        p := Take(n, a);
      } else if r.Overrun? {
        TinyPasses(n);
        p := mallocs[0] + HEADER;
      }
    }

    /** Frees all of arena a. */
    method Deallocate(a: int)
      requires Valid() && 0 <= a < 3
      modifies this
      ensures Valid() && g.live == old(g.live)[a := []] && SameRanges(old(h), h)
      ensures |old(g).lists| == 4 && old(g).lists[a] != []
      ensures g.lists == old(g).lists[a := [a]][3 := old(g).lists[a][1..] + old(g).lists[3]]
    {
      Drop(h, g, a);
      h, g := Dropped(h, a), DroppedShape(g, a);
    }
  }
}
