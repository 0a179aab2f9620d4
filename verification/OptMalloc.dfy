/** opt_malloc.c: free lists of power-of-two cells in byte-addressed memory. The size of a
    cell is its first eight bytes; next and last, eight bytes each, lie inside what the caller
    gets. */
module OptMallocSpec {
  import opened MemoryBlocks
  import opened ByteMemory

  const HEAP_SIZE := 1048576
  const CELL_BYTES := 24           // sizeof(fl_cell)

  /** 2^(i+5). */
  function Size(i: nat): (w: nat)
    ensures w >= 32
  {
    if i == 0 then 32 else 2 * Size(i - 1)
  }

  lemma TopBin()
    ensures Size(15) == HEAP_SIZE
  {
    assert Size(4) == 512;
    assert Size(8) == 8192;
    assert Size(12) == 131072;
  }

  datatype Cell = Cell(bin: nat, home: nat)

  ghost predicate Apart(blk: Blocks) {
    && (forall c :: c in blk ==> c > 0 && blk[c] >= CELL_BYTES && c + blk[c] <= SIZE_T)
    && (forall c, d :: c in blk && d in blk && c < d ==> c + blk[c] <= d)
  }

  ghost predicate Multiple(a: int, w: nat) { exists q :: a == q * w }

  /** A cell of bin i has the size of its bin and lies in its heap at a multiple of it. */
  ghost predicate CellOk(blk: Blocks, heaps: set<nat>, c: nat, k: Cell) {
    && c > 0 && c in blk && k.bin < 16 && blk[c] == Size(k.bin)
    && k.home in heaps && k.home <= c && c + blk[c] <= k.home + HEAP_SIZE && Multiple(c - k.home, blk[c])
  }

  ghost predicate CellAt(blk: Blocks, cell: map<nat, Cell>, h: nat, c: nat, x: nat) {
    c in cell && cell[c].home == h && InBlock(blk, c, x)
  }

  /** Every byte of the heap is in some cell of it. */
  ghost predicate HeapTiled(blk: Blocks, cell: map<nat, Cell>, h: nat) {
    forall x: nat :: h <= x < h + HEAP_SIZE ==> Tiled(blk, cell, h, x)
  }

  ghost predicate Tiled(blk: Blocks, cell: map<nat, Cell>, h: nat, x: nat) {
    exists c :: CellAt(blk, cell, h, c, x)
  }

  ghost predicate Layout(blk: Blocks, cell: map<nat, Cell>, heaps: set<nat>) {
    && Apart(blk)
    && (forall c :: c in cell ==> CellOk(blk, heaps, c, cell[c]))
    && (forall h :: h in heaps ==> HeapTiled(blk, cell, h))
  }

  lemma HalfMultiple(a: nat, w: nat)
    requires Multiple(a, 2 * w)
    ensures Multiple(a, w) && Multiple(a + w, w)
  {
    var q :| a == q * (2 * w);
    assert a == (2 * q) * w;
    assert a + w == (2 * q + 1) * w;
  }

  lemma SplitApart(blk: Blocks, c: nat, w: nat)
    requires Apart(blk) && c in blk && blk[c] == 2 * w && w >= 32
    ensures c + w !in blk && Apart(blk[c := w][c + w := w])
  {
  }

  lemma SplitTiled(blk: Blocks, cell: map<nat, Cell>, c: nat, w: nat, k: Cell, g: nat)
    requires c in blk && blk[c] == 2 * w && c + w !in blk && c + w !in cell
    requires c in cell && k.home == cell[c].home && HeapTiled(blk, cell, g)
    ensures HeapTiled(blk[c := w][c + w := w], cell[c := k][c + w := k], g)
  {
    var b, e := blk[c := w][c + w := w], cell[c := k][c + w := k];
    forall x: nat | g <= x < g + HEAP_SIZE
      ensures Tiled(b, e, g, x)
    {
      assert Tiled(blk, cell, g, x);
      var d :| CellAt(blk, cell, g, d, x);
      if d == c && x >= c + w { assert CellAt(b, e, g, c + w, x); } else { assert CellAt(b, e, g, d, x); }
    }
  }

  /** Cutting a cell into two of the bin below. */
  lemma SplitLayout(blk: Blocks, cell: map<nat, Cell>, heaps: set<nat>, c: nat, i: nat)
    requires Layout(blk, cell, heaps) && c in cell && cell[c].bin == i + 1
    ensures var w, k := Size(i), Cell(i, cell[c].home);
            && c in blk && blk[c] == 2 * w && c + w !in blk && c + w !in cell
            && Layout(blk[c := w][c + w := w], cell[c := k][c + w := k], heaps)
  {
    hide Size, Multiple, Apart, HeapTiled, CellOk;
    var w, k := Size(i), Cell(i, cell[c].home);
    SplitFacts(blk, cell, heaps, c, i);
    SplitApart(blk, c, w);
    var e := cell[c := k][c + w := k];
    forall d | d in e
      ensures CellOk(blk[c := w][c + w := w], heaps, d, e[d])
    {
      if d != c && d != c + w { CellStays(blk, heaps, c, w, d, cell[d]); }
    }
    forall g | g in heaps
      ensures HeapTiled(blk[c := w][c + w := w], cell[c := k][c + w := k], g)
    {
      SplitTiled(blk, cell, c, w, k, g);
    }
  }

  /** The two halves are cells of the bin below. */
  lemma SplitFacts(blk: Blocks, cell: map<nat, Cell>, heaps: set<nat>, c: nat, i: nat)
    requires Layout(blk, cell, heaps) && c in cell && cell[c].bin == i + 1
    ensures var w, k := Size(i), Cell(i, cell[c].home);
            && c in blk && blk[c] == 2 * w && w >= 32 && Apart(blk) && c + w !in cell
            && CellOk(blk[c := w][c + w := w], heaps, c, k) && CellOk(blk[c := w][c + w := w], heaps, c + w, k)
  {
    var w := Size(i);
    assert CellOk(blk, heaps, c, cell[c]);
    HalfMultiple(c - cell[c].home, w);
    SplitApart(blk, c, w);
    assert forall d :: d in cell ==> d in blk;
  }

  lemma CellStays(blk: Blocks, heaps: set<nat>, c: nat, w: nat, d: nat, k: Cell)
    requires CellOk(blk, heaps, d, k) && d != c && d != c + w
    ensures CellOk(blk[c := w][c + w := w], heaps, d, k)
  {
  }

  /** The n bytes from a on are in no block. */
  ghost predicate Fresh(blk: Blocks, a: nat, n: nat) {
    a > 0 && a + n <= SIZE_T && forall c :: c in blk ==> c + blk[c] <= a || a + n <= c
  }

  lemma NewHeapLayout(blk: Blocks, cell: map<nat, Cell>, heaps: set<nat>, a: nat)
    requires Layout(blk, cell, heaps) && Fresh(blk, a, HEAP_SIZE)
    ensures a !in blk && a !in heaps
    ensures Layout(blk[a := HEAP_SIZE], cell[a := Cell(15, a)], heaps + {a})
  {
    var b, e := blk[a := HEAP_SIZE], cell[a := Cell(15, a)];
    TopBin();
    assert a - a == 0 * HEAP_SIZE;
    assert a !in blk;
    forall g | g in heaps
      ensures g != a
    {
      assert HeapTiled(blk, cell, g) && Tiled(blk, cell, g, g);
      var d :| CellAt(blk, cell, g, d, g);
    }
    assert CellOk(b, heaps + {a}, a, e[a]);
    forall d | d in e
      ensures CellOk(b, heaps + {a}, d, e[d])
    {
      if d != a { assert CellOk(blk, heaps, d, cell[d]); }
    }
    forall g | g in heaps + {a}
      ensures HeapTiled(b, e, g)
    {
      forall x: nat | g <= x < g + HEAP_SIZE
        ensures Tiled(b, e, g, x)
      {
        if g == a {
          assert CellAt(b, e, g, a, x);
        } else {
          assert Tiled(blk, cell, g, x);
          var d :| CellAt(blk, cell, g, d, x);
          assert CellOk(blk, heaps, d, cell[d]);
          assert CellAt(b, e, g, d, x);
        }
      }
    }
  }

  /** Blocks that are no cells come and go without touching the heaps. */
  lemma BigLayout(blk: Blocks, cell: map<nat, Cell>, heaps: set<nat>, a: nat, n: nat)
    requires Layout(blk, cell, heaps) && Fresh(blk, a, n) && n >= CELL_BYTES
    ensures a !in blk && a !in cell && Layout(blk[a := n], cell, heaps)
  {
    assert a !in blk;
    assert forall c :: c in cell ==> c in blk;
    SameCells(blk, blk[a := n], cell, heaps);
  }

  lemma UnmapLayout(blk: Blocks, cell: map<nat, Cell>, heaps: set<nat>, a: nat)
    requires Layout(blk, cell, heaps) && a !in cell
    ensures Layout(blk - {a}, cell, heaps)
  {
    SameCells(blk, blk - {a}, cell, heaps);
  }

  lemma SameCells(blk: Blocks, b: Blocks, cell: map<nat, Cell>, heaps: set<nat>)
    requires Layout(blk, cell, heaps) && Apart(b)
    requires forall c :: c in cell && c in blk ==> c in b && b[c] == blk[c]
    ensures Layout(b, cell, heaps)
  {
    forall d | d in cell
      ensures CellOk(b, heaps, d, cell[d])
    {
      assert CellOk(blk, heaps, d, cell[d]);
    }
    forall g | g in heaps
      ensures HeapTiled(b, cell, g)
    {
      forall x: nat | g <= x < g + HEAP_SIZE
        ensures Tiled(b, cell, g, x)
      {
        assert Tiled(blk, cell, g, x);
        var d :| CellAt(blk, cell, g, d, x);
        assert CellAt(b, cell, g, d, x);
      }
    }
  }

  /** In a heap each byte is in exactly one cell, and it is a cell of that heap. */
  lemma TilesExactly(blk: Blocks, cell: map<nat, Cell>, heaps: set<nat>, h: nat, x: nat)
    requires Layout(blk, cell, heaps) && h in heaps && h <= x < h + HEAP_SIZE
    ensures exists c :: CellAt(blk, cell, h, c, x)
    ensures forall c, d :: InBlock(blk, c, x) && InBlock(blk, d, x) ==> c == d
  {
    assert HeapTiled(blk, cell, h) && Tiled(blk, cell, h, x);
  }

  // ----- size fields

  ghost predicate SizeOk(m: Memory, blk: Blocks, cell: map<nat, Cell>, c: nat)
    requires c in blk
  {
    Load(m, c) == blk[c] && (c !in cell ==> blk[c] > HEAP_SIZE)
  }

  ghost predicate Headers(m: Memory, blk: Blocks, cell: map<nat, Cell>) {
    forall c :: c in blk ==> SizeOk(m, blk, cell, c)
  }

  // ----- free lists

  predicate Chain(m: Memory, list: seq<nat>, head: nat) {
    if list == [] then head == 0 else head == list[0] && head > 0 && Chain(m, list[1..], Load(m, head + 8))
  }

  predicate NoDup(s: seq<nat>) { forall i, j :: 0 <= i < j < |s| ==> s[i] != s[j] }

  ghost predicate ListOk(m: Memory, cell: map<nat, Cell>, list: seq<nat>, head: nat, i: nat) {
    && Chain(m, list, head) && NoDup(list)
    && (forall c :: c in list ==> c in cell && cell[c].bin == i)
  }

  ghost predicate Lists(m: Memory, cell: map<nat, Cell>, lists: seq<seq<nat>>, heads: seq<nat>) {
    && |lists| == 16 && |heads| == 16
    && (forall i :: 0 <= i < 16 ==> ListOk(m, cell, lists[i], heads[i], i))
  }

  lemma {:induction false} ChainFrame(m: Memory, m': Memory, list: seq<nat>, head: nat)
    requires Chain(m, list, head) && forall c :: c in list ==> Load(m', c + 8) == Load(m, c + 8)
    ensures Chain(m', list, head)
  {
    hide Load;
    if list != [] {
      assert list[0] in list && forall c :: c in list[1..] ==> c in list;
      ChainFrame(m, m', list[1..], Load(m, head + 8));
    }
  }

  predicate Free(cell: map<nat, Cell>, lists: seq<seq<nat>>, c: nat) {
    c in cell && cell[c].bin < |lists| && c in lists[cell[c].bin]
  }

  /** Changes away from the listed cells keep the lists. */
  lemma ListsFrame(m: Memory, m': Memory, cell: map<nat, Cell>, cell': map<nat, Cell>, lists: seq<seq<nat>>, heads: seq<nat>)
    requires Lists(m, cell, lists, heads)
    requires forall c: nat :: Free(cell, lists, c) ==> Load(m', c + 8) == Load(m, c + 8) && c in cell' && cell'[c] == cell[c]
    ensures Lists(m', cell', lists, heads)
  {
    hide Load;
    forall i | 0 <= i < 16
      ensures ListOk(m', cell', lists[i], heads[i], i)
    {
      assert ListOk(m, cell, lists[i], heads[i], i);
      assert forall c :: c in lists[i] ==> Free(cell, lists, c);
      ChainFrame(m, m', lists[i], heads[i]);
    }
  }

  lemma PopLists(m: Memory, cell: map<nat, Cell>, lists: seq<seq<nat>>, heads: seq<nat>, i: nat)
    requires Lists(m, cell, lists, heads) && i < 16 && lists[i] != []
    ensures heads[i] == lists[i][0] && heads[i] in cell && cell[heads[i]].bin == i
    ensures heads[i] !in lists[i][1..]
    ensures Lists(m, cell, lists[i := lists[i][1..]], heads[i := Load(m, heads[i] + 8)])
  {
    hide Load;
    assert ListOk(m, cell, lists[i], heads[i], i);
    assert lists[i] == [lists[i][0]] + lists[i][1..];
    var ls, hs := lists[i := lists[i][1..]], heads[i := Load(m, heads[i] + 8)];
    forall j | 0 <= j < 16
      ensures ListOk(m, cell, ls[j], hs[j], j)
    {
      assert ListOk(m, cell, lists[j], heads[j], j);
    }
  }

  /** A cell whose next field holds the old head becomes the head. */
  lemma PushLists(m: Memory, cell: map<nat, Cell>, lists: seq<seq<nat>>, heads: seq<nat>, i: nat, c: nat)
    requires Lists(m, cell, lists, heads) && i < 16 && c in cell && cell[c].bin == i && c !in lists[i] && c > 0
    requires Load(m, c + 8) == heads[i]
    ensures Lists(m, cell, lists[i := [c] + lists[i]], heads[i := c])
  {
    hide Load;
    var ls, hs := lists[i := [c] + lists[i]], heads[i := c];
    assert ([c] + lists[i])[1..] == lists[i];
    forall j | 0 <= j < 16
      ensures ListOk(m, cell, ls[j], hs[j], j)
    {
      assert ListOk(m, cell, lists[j], heads[j], j);
    }
  }

  // ----- what callers hold

  ghost function LiveOf(blk: Blocks, cell: map<nat, Cell>, lists: seq<seq<nat>>): Blocks {
    map c | c in blk && !Free(cell, lists, c) :: blk[c]
  }

  /** The bytes of those blocks are untouched. */
  ghost predicate Keeps(m: Memory, m': Memory, live: Blocks) {
    forall c, x :: InBlock(live, c, x) ==> Rd(m', x) == Rd(m, x)
  }
}

module OptMalloc {
  import opened MemoryBlocks
  import opened ByteMemory
  import opened OptMallocSpec

  // ----- steps on the whole state

  lemma PopLive(blk: Blocks, cell: map<nat, Cell>, lists: seq<seq<nat>>, i: nat)
    requires |lists| == 16 && i < 16 && lists[i] != [] && lists[i][0] in blk && lists[i][0] in cell
    requires cell[lists[i][0]].bin == i && lists[i][0] !in lists[i][1..]
    ensures var c := lists[i][0];
            && c !in LiveOf(blk, cell, lists)
            && LiveOf(blk, cell, lists[i := lists[i][1..]]) == LiveOf(blk, cell, lists)[c := blk[c]]
  {
    var c, ls := lists[i][0], lists[i := lists[i][1..]];
    assert lists[i] == [c] + lists[i][1..];
    assert forall d: nat :: Free(cell, ls, d) <==> Free(cell, lists, d) && d != c;
  }

  lemma PushLive(blk: Blocks, cell: map<nat, Cell>, lists: seq<seq<nat>>, i: nat, c: nat)
    requires |lists| == 16 && i < 16 && c in cell && cell[c].bin == i
    ensures LiveOf(blk, cell, lists[i := [c] + lists[i]]) == LiveOf(blk, cell, lists) - {c}
  {
    var ls := lists[i := [c] + lists[i]];
    assert forall d: nat :: Free(cell, ls, d) <==> Free(cell, lists, d) || d == c;
  }

  lemma SplitLive(blk: Blocks, cell: map<nat, Cell>, lists: seq<seq<nat>>, c: nat, w: nat, k: Cell, m: Memory, heads: seq<nat>)
    requires c in blk && c in cell && c + w !in blk && c + w !in cell && !Free(cell, lists, c) && Lists(m, cell, lists, heads)
    requires w > 0
    ensures LiveOf(blk[c := w][c + w := w], cell[c := k][c + w := k], lists) == LiveOf(blk, cell, lists)[c := w][c + w := w]
    ensures forall d: nat :: Free(cell, lists, d) ==> d in cell[c := k][c + w := k] && cell[c := k][c + w := k][d] == cell[d]
  {
    hide Load;
    var b, e := blk[c := w][c + w := w], cell[c := k][c + w := k];
    forall i | 0 <= i < 16
      ensures c !in lists[i] && c + w !in lists[i]
    {
      assert ListOk(m, cell, lists[i], heads[i], i);
    }
    assert forall d: nat :: Free(e, lists, d) <==> Free(cell, lists, d);
  }

  lemma KeepsTrans(m0: Memory, m1: Memory, m2: Memory, live: Blocks)
    requires Keeps(m0, m1, live) && Keeps(m1, m2, live)
    ensures Keeps(m0, m2, live)
  {
  }

  lemma KeepsLess(m0: Memory, m1: Memory, live: Blocks, live': Blocks)
    requires Keeps(m0, m1, live) && forall c :: c in live' ==> c in live && live'[c] == live[c]
    ensures Keeps(m0, m1, live')
  {
    forall c, x | InBlock(live', c, x)
      ensures Rd(m1, x) == Rd(m0, x)
    {
      assert InBlock(live, c, x);
    }
  }

  ghost predicate Good(m: Memory, blk: Blocks, cell: map<nat, Cell>, heaps: set<nat>, lists: seq<seq<nat>>, heads: seq<nat>) {
    Layout(blk, cell, heaps) && Headers(m, blk, cell) && Lists(m, cell, lists, heads)
  }

  lemma PopGood(m: Memory, blk: Blocks, cell: map<nat, Cell>, heaps: set<nat>, lists: seq<seq<nat>>, heads: seq<nat>, i: nat)
    requires Good(m, blk, cell, heaps, lists, heads) && i < 16 && |lists| == 16 && |heads| == 16 && lists[i] != []
    ensures heads[i] == lists[i][0] && heads[i] in cell && cell[heads[i]].bin == i && heads[i] in blk
    ensures var ls := lists[i := lists[i][1..]];
            && Good(m, blk, cell, heaps, ls, heads[i := Load(m, heads[i] + 8)])
            && heads[i] !in LiveOf(blk, cell, lists)
            && LiveOf(blk, cell, ls) == LiveOf(blk, cell, lists)[heads[i] := blk[heads[i]]]
  {
    hide Load;
    PopLists(m, cell, lists, heads, i);
    assert CellOk(blk, heaps, heads[i], cell[heads[i]]);
    hide Layout, Headers, Lists, LiveOf, CellOk;
    assert heads[i] in blk by { InLayout(blk, cell, heaps, heads[i]); }
    PopLive(blk, cell, lists, i);
  }

  lemma InLayout(blk: Blocks, cell: map<nat, Cell>, heaps: set<nat>, c: nat)
    requires Layout(blk, cell, heaps) && c in cell
    ensures c > 0 && c in blk && blk[c] == Size(cell[c].bin) && Apart(blk) && cell[c].bin < 16
  {
    assert CellOk(blk, heaps, c, cell[c]);
  }

  /** Only bytes of block c, or of no block, differ. */
  ghost predicate Inside(m: Memory, m': Memory, blk: Blocks, c: nat) {
    forall d, x :: d != c && InBlock(blk, d, x) ==> Rd(m', x) == Rd(m, x)
  }

  /** All changes lie in the n bytes from a on. */
  ghost predicate Only(m: Memory, m': Memory, a: nat, n: nat) {
    forall x: nat :: !(a <= x < a + n) ==> Rd(m', x) == Rd(m, x)
  }

  lemma OnlyInside(m: Memory, m': Memory, blk: Blocks, c: nat, a: nat, n: nat)
    requires Apart(blk) && c in blk && c <= a && a + n <= c + blk[c] && Only(m, m', a, n)
    ensures Inside(m, m', blk, c)
  {
    forall d: nat, x: nat | d != c && InBlock(blk, d, x)
      ensures Rd(m', x) == Rd(m, x)
    {
      assert d < c || c < d;
    }
  }

  lemma KeepsInside(m: Memory, m': Memory, blk: Blocks, live: Blocks, c: nat)
    requires Inside(m, m', blk, c) && c !in live && forall d :: d in live ==> d in blk && live[d] == blk[d]
    ensures Keeps(m, m', live)
  {
    forall d, x | InBlock(live, d, x)
      ensures Rd(m', x) == Rd(m, x)
    {
      assert InBlock(blk, d, x);
    }
  }

  /** A field of another block reads the same. */
  lemma FieldInside(m: Memory, m': Memory, blk: Blocks, c: nat, d: nat, k: nat)
    requires Inside(m, m', blk, c) && d in blk && d != c && k + 8 <= blk[d]
    ensures Load(m', d + k) == Load(m, d + k)
  {
    hide Load;
    forall x: nat | d + k <= x < d + k + 8
      ensures Rd(m', x) == Rd(m, x)
    {
      assert InBlock(blk, d, x);
    }
    LoadSame(m, m', d + k);
  }

  /** The listed cells other than c do not notice changes inside c. */
  lemma ListsInside(m: Memory, m': Memory, blk: Blocks, cell: map<nat, Cell>, cell': map<nat, Cell>, heaps: set<nat>,
                    lists: seq<seq<nat>>, heads: seq<nat>, c: nat)
    requires Layout(blk, cell, heaps) && Lists(m, cell, lists, heads) && Inside(m, m', blk, c) && !Free(cell, lists, c)
    requires forall d: nat :: Free(cell, lists, d) ==> d in cell' && cell'[d] == cell[d]
    ensures Lists(m', cell', lists, heads)
  {
    hide Load;
    forall d: nat | Free(cell, lists, d)
      ensures Load(m', d + 8) == Load(m, d + 8)
    {
      InLayout(blk, cell, heaps, d);
      FieldInside(m, m', blk, c, d, 8);
    }
    ListsFrame(m, m', cell, cell', lists, heads);
  }

  /** The size fields of the blocks other than c are as they were. */
  lemma SizesInside(m: Memory, m': Memory, blk: Blocks, cell: map<nat, Cell>, c: nat)
    requires Headers(m, blk, cell) && Inside(m, m', blk, c) && Apart(blk)
    ensures forall d :: d in blk && d != c ==> Load(m', d) == blk[d]
  {
    hide Load;
    forall d | d in blk && d != c
      ensures Load(m', d) == blk[d]
    {
      assert SizeOk(m, blk, cell, d);
      FieldInside(m, m', blk, c, d, 0);
    }
  }

  /** A holder may write anything into its block past the size field: next and last lie there
      too, and still no list and no other block is disturbed. */
  lemma WriteGood(m: Memory, m': Memory, blk: Blocks, cell: map<nat, Cell>, heaps: set<nat>, lists: seq<seq<nat>>, heads: seq<nat>,
                  c: nat, a: nat, n: nat)
    requires Good(m, blk, cell, heaps, lists, heads) && c in LiveOf(blk, cell, lists)
    requires c + 8 <= a && a + n <= c + blk[c] && Only(m, m', a, n)
    ensures Good(m', blk, cell, heaps, lists, heads) && Keeps(m, m', LiveOf(blk, cell, lists) - {c})
  {
    hide Lists, Headers, Only;
    GoodLayout(m, blk, cell, heaps, lists, heads);
    OnlyInside(m, m', blk, c, a, n);
    SizeKept(m, m', blk, cell, c, a, n);
    KeepsInside(m, m', blk, LiveOf(blk, cell, lists) - {c}, c);
    SizesInside(m, m', blk, cell, c);
    hide Layout, Inside, Keeps, Apart;
    ListsInside(m, m', blk, cell, cell, heaps, lists, heads, c);
    HeadersAre(m, m', blk, cell);
  }

  lemma SizeKept(m: Memory, m': Memory, blk: Blocks, cell: map<nat, Cell>, c: nat, a: nat, n: nat)
    requires Headers(m, blk, cell) && c in blk && c + 8 <= a && Only(m, m', a, n)
    ensures Load(m', c) == blk[c]
  {
    hide Load;
    assert SizeOk(m, blk, cell, c);
    LoadSame(m, m', c);
  }

  lemma HeadersAre(m: Memory, m': Memory, blk: Blocks, cell: map<nat, Cell>)
    requires Headers(m, blk, cell) && forall d :: d in blk ==> Load(m', d) == blk[d]
    ensures Headers(m', blk, cell)
  {
    hide Load;
    forall d | d in blk
      ensures SizeOk(m', blk, cell, d)
    {
      assert SizeOk(m, blk, cell, d);
    }
  }

  /** Once its next field holds the old head, a cell can become the head. */
  lemma LinkGood(m: Memory, blk: Blocks, cell: map<nat, Cell>, heaps: set<nat>, lists: seq<seq<nat>>, heads: seq<nat>, i: nat, c: nat)
    requires Good(m, blk, cell, heaps, lists, heads) && i < 16 && |lists| == 16 && |heads| == 16
    requires c in cell && cell[c].bin == i && c in LiveOf(blk, cell, lists) && Load(m, c + 8) == heads[i]
    ensures var ls := lists[i := [c] + lists[i]];
            && Good(m, blk, cell, heaps, ls, heads[i := c])
            && LiveOf(blk, cell, ls) == LiveOf(blk, cell, lists) - {c}
  {
    hide Load, Layout, Headers, Lists;
    InLayout(blk, cell, heaps, c);
    PushLists(m, cell, lists, heads, i, c);
    PushLive(blk, cell, lists, i, c);
  }

  lemma HeadsSmall(m: Memory, blk: Blocks, cell: map<nat, Cell>, heaps: set<nat>, lists: seq<seq<nat>>, heads: seq<nat>, i: nat)
    requires Good(m, blk, cell, heaps, lists, heads) && i < 16 && |heads| == 16 && |lists| == 16
    ensures heads[i] < SIZE_T
  {
    hide Load;
    assert ListOk(m, cell, lists[i], heads[i], i);
    if lists[i] != [] { InLayout(blk, cell, heaps, lists[i][0]); }
  }

  /** insert_fl_cell on the whole state. */
  lemma PushGood(m: Memory, m': Memory, blk: Blocks, cell: map<nat, Cell>, heaps: set<nat>, lists: seq<seq<nat>>, heads: seq<nat>, i: nat, c: nat)
    requires Good(m, blk, cell, heaps, lists, heads) && i < 16 && |lists| == 16 && |heads| == 16
    requires c in cell && cell[c].bin == i && c in LiveOf(blk, cell, lists) && m' == Store(m, c + 8, heads[i])
    ensures var ls := lists[i := [c] + lists[i]];
            && Good(m', blk, cell, heaps, ls, heads[i := c])
            && LiveOf(blk, cell, ls) == LiveOf(blk, cell, lists) - {c}
            && Keeps(m, m', LiveOf(blk, cell, lists) - {c})
  {
    hide Good, LiveOf, Keeps, Store, Load;
    HeadsSmall(m, blk, cell, heaps, lists, heads, i);
    StoreLoad(m, c + 8, heads[i]);
    GoodLayout(m, blk, cell, heaps, lists, heads);
    InLayout(blk, cell, heaps, c);
    WriteGood(m, m', blk, cell, heaps, lists, heads, c, c + 8, 8);
    LinkGood(m', blk, cell, heaps, lists, heads, i, c);
  }

  /** make_fl_cell. */
  function CellWritten(m: Memory, a: nat, bytes: nat): Memory {
    Store(Store(Store(m, a, bytes), a + 16, 0), a + 8, 0)
  }

  lemma CellWrittenIs(m: Memory, a: nat, bytes: nat)
    requires bytes < SIZE_T
    ensures Only(m, CellWritten(m, a, bytes), a, 24)
    ensures Load(CellWritten(m, a, bytes), a) == bytes && Load(CellWritten(m, a, bytes), a + 8) == 0
  {
    hide Store, Load;
    var m1 := Store(m, a, bytes);
    var m2 := Store(m1, a + 16, 0);
    var m3 := Store(m2, a + 8, 0);
    StoreLoad(m, a, bytes);
    StoreLoad(m1, a + 16, 0);
    StoreLoad(m2, a + 8, 0);
    LoadSame(m1, m2, a);
    LoadSame(m2, m3, a);
  }

  /** The memory after a split: c has a new size, and a new cell starts at c + w. */
  lemma SplitWritten(m: Memory, m': Memory, blk: Blocks, c: nat, w: nat)
    requires Apart(blk) && c in blk && blk[c] == 2 * w && w >= 32 && m' == CellWritten(Store(m, c, w), c + w, w)
    ensures Inside(m, m', blk, c) && Load(m', c) == w && Load(m', c + w) == w
  {
    hide Store, Load, CellWritten;
    var m1 := Store(m, c, w);
    StoreLoad(m, c, w);
    CellWrittenIs(m1, c + w, w);
    LoadSame(m1, m', c);
    assert Only(m, m', c, 2 * w);
    OnlyInside(m, m', blk, c, c, 2 * w);
  }

  /** Cutting a cell the allocator holds, and writing the two headers. */
  lemma SplitGood(m: Memory, m': Memory, blk: Blocks, b: Blocks, cell: map<nat, Cell>, e: map<nat, Cell>, heaps: set<nat>,
                  lists: seq<seq<nat>>, heads: seq<nat>, i: nat, c: nat, w: nat)
    requires Good(m, blk, cell, heaps, lists, heads) && c in cell && cell[c].bin == i + 1 && c in LiveOf(blk, cell, lists)
    requires w == Size(i) && b == blk[c := w][c + w := w] && m' == CellWritten(Store(m, c, w), c + w, w)
    requires e == cell[c := Cell(i, cell[c].home)][c + w := Cell(i, cell[c].home)]
    ensures Good(m', b, e, heaps, lists, heads) && c + w !in blk
    ensures LiveOf(b, e, lists) == LiveOf(blk, cell, lists)[c := w][c + w := w]
    ensures Keeps(m, m', LiveOf(blk, cell, lists) - {c})
  {
    hide Layout, Size, CellWritten, Lists, Headers, Inside, Keeps, Apart, Free, Load, Store;
    SplitLayout(blk, cell, heaps, c, i);
    SplitLive(blk, cell, lists, c, w, Cell(i, cell[c].home), m, heads);
    InLayout(blk, cell, heaps, c);
    SplitWritten(m, m', blk, c, w);
    KeepsInside(m, m', blk, LiveOf(blk, cell, lists) - {c}, c);
    SizesInside(m, m', blk, cell, c);
    hide LiveOf;
    SplitHeaders(m, m', blk, b, cell, e, c, w);
    ListsInside(m, m', blk, cell, e, heaps, lists, heads, c);
  }

  lemma SplitHeaders(m: Memory, m': Memory, blk: Blocks, b: Blocks, cell: map<nat, Cell>, e: map<nat, Cell>, c: nat, w: nat)
    requires Headers(m, blk, cell) && forall d :: d in blk && d != c ==> Load(m', d) == blk[d]
    requires b == blk[c := w][c + w := w] && c in e && c + w in e && Load(m', c) == w && Load(m', c + w) == w && w > 0
    requires forall d :: d != c && d != c + w ==> (d in e <==> d in cell)
    ensures Headers(m', b, e)
  {
    hide Load;
    forall d | d in b
      ensures SizeOk(m', b, e, d)
    {
      if d != c && d != c + w { assert SizeOk(m, blk, cell, d); }
    }
  }

  lemma HeadsEmpty(m: Memory, blk: Blocks, cell: map<nat, Cell>, heaps: set<nat>, lists: seq<seq<nat>>, heads: seq<nat>, i: nat)
    requires Good(m, blk, cell, heaps, lists, heads) && i < 16 && |lists| == 16 && |heads| == 16
    ensures heads[i] == 0 <==> lists[i] == []
  {
    hide Load;
    assert ListOk(m, cell, lists[i], heads[i], i);
  }

  lemma MapLive(m: Memory, blk: Blocks, cell: map<nat, Cell>, e: map<nat, Cell>, lists: seq<seq<nat>>, heads: seq<nat>, a: nat, n: nat)
    requires Lists(m, cell, lists, heads) && a !in blk && a !in cell
    requires forall d :: d in cell ==> d in e && e[d] == cell[d]
    requires forall d :: d in e && d != a ==> d in cell
    ensures LiveOf(blk[a := n], e, lists) == LiveOf(blk, cell, lists)[a := n]
    ensures !Free(cell, lists, a)
  {
    hide Load;
    assert forall i :: 0 <= i < 16 ==> ListOk(m, cell, lists[i], heads[i], i);
    assert forall d: nat :: Free(e, lists, d) <==> Free(cell, lists, d);
  }

  lemma MapInside(m: Memory, m': Memory, blk: Blocks, a: nat, n: nat)
    requires Fresh(blk, a, n) && Only(m, m', a, n)
    ensures Inside(m, m', blk, a)
  {
  }

  /** A block the system has just mapped belongs to the caller. */
  lemma MapGood(m: Memory, m': Memory, blk: Blocks, b: Blocks, cell: map<nat, Cell>, e: map<nat, Cell>, heaps: set<nat>, heaps': set<nat>,
                lists: seq<seq<nat>>, heads: seq<nat>, a: nat, n: nat)
    requires Good(m, blk, cell, heaps, lists, heads) && a !in blk && a !in cell && Inside(m, m', blk, a)
    requires b == blk[a := n] && Layout(b, e, heaps') && SizeOk(m', b, e, a)
    requires forall d :: d in cell ==> d in e && e[d] == cell[d]
    requires forall d :: d in e && d != a ==> d in cell
    ensures Good(m', b, e, heaps', lists, heads)
    ensures LiveOf(b, e, lists) == LiveOf(blk, cell, lists)[a := n]
    ensures Keeps(m, m', LiveOf(blk, cell, lists))
  {
    hide Lists, Headers, Load;
    GoodLayout(m, blk, cell, heaps, lists, heads);
    SizesInside(m, m', blk, cell, a);
    KeepsInside(m, m', blk, LiveOf(blk, cell, lists), a);
    MapLive(m, blk, cell, e, lists, heads, a, n);
    hide Layout, Inside, Keeps, LiveOf;
    ListsInside(m, m', blk, cell, e, heaps, lists, heads, a);
    MapHeaders(m, m', blk, b, cell, e, a, n);
  }

  lemma MapHeaders(m: Memory, m': Memory, blk: Blocks, b: Blocks, cell: map<nat, Cell>, e: map<nat, Cell>, a: nat, n: nat)
    requires Headers(m, blk, cell) && b == blk[a := n] && SizeOk(m', b, e, a)
    requires forall d :: d in blk && d != a ==> Load(m', d) == blk[d]
    requires forall d :: d != a ==> (d in e <==> d in cell)
    ensures Headers(m', b, e)
  {
    hide Load;
    forall d | d in b
      ensures SizeOk(m', b, e, d)
    {
      if d != a { assert SizeOk(m, blk, cell, d); }
    }
  }

  lemma GoodLayout(m: Memory, blk: Blocks, cell: map<nat, Cell>, heaps: set<nat>, lists: seq<seq<nat>>, heads: seq<nat>)
    requires Good(m, blk, cell, heaps, lists, heads)
    ensures Layout(blk, cell, heaps) && Apart(blk) && forall c :: c in cell ==> c in blk
  {
  }

  /** mmap of a new heap: one free cell of bin 15. */
  lemma NewHeapGood(m: Memory, m': Memory, blk: Blocks, b: Blocks, cell: map<nat, Cell>, e: map<nat, Cell>, heaps: set<nat>,
                    lists: seq<seq<nat>>, heads: seq<nat>, a: nat)
    requires Good(m, blk, cell, heaps, lists, heads) && Fresh(blk, a, HEAP_SIZE)
    requires |lists| == 16 && |heads| == 16 && lists[15] == [] && heads[15] == 0
    requires b == blk[a := HEAP_SIZE] && e == cell[a := Cell(15, a)] && m' == CellWritten(m, a, HEAP_SIZE)
    ensures var ls := lists[15 := [a] + lists[15]];
            && Good(m', b, e, heaps + {a}, ls, heads[15 := a])
            && LiveOf(b, e, ls) == LiveOf(blk, cell, lists)
            && Keeps(m, m', LiveOf(blk, cell, lists))
  {
    hide Good, Layout, LiveOf, Keeps, CellWritten, Load;
    GoodLayout(m, blk, cell, heaps, lists, heads);
    NewHeapLayout(blk, cell, heaps, a);
    CellWrittenIs(m, a, HEAP_SIZE);
    MapInside(m, m', blk, a, HEAP_SIZE);
    MapGood(m, m', blk, b, cell, e, heaps, heaps + {a}, lists, heads, a, HEAP_SIZE);
    LiveInBlocks(blk, cell, lists);
    LinkGood(m', b, e, heaps + {a}, lists, heads, 15, a);
    assert LiveOf(b, e, lists) - {a} == LiveOf(blk, cell, lists);
  }

  lemma LiveInBlocks(blk: Blocks, cell: map<nat, Cell>, lists: seq<seq<nat>>)
    ensures forall c :: c in LiveOf(blk, cell, lists) ==> c in blk && LiveOf(blk, cell, lists)[c] == blk[c]
  {
  }

  class Allocator {
    const heads: array<nat>
    var mem: Memory
    ghost var blk: Blocks                 // every mapped block: cells and big ones
    ghost var cell: map<nat, Cell>        // bin and heap of each cell
    ghost var heaps: set<nat>
    ghost var lists: seq<seq<nat>>        // the 16 free lists

    ghost predicate Valid()
      reads this, heads
    {
      heads.Length == 16 && |lists| == 16 && Good(mem, blk, cell, heaps, lists, heads[..])
    }

    ghost function Live(): Blocks
      reads this
    {
      LiveOf(blk, cell, lists)
    }

    constructor ()
      ensures Valid() && Live() == map[] && fresh(heads)
    {
      heads := new nat[16](i => 0);
      mem, blk, cell, heaps := map[], map[], map[], {};
      lists := seq(16, i => []);
      new;
      assert forall i :: 0 <= i < 16 ==> ListOk(mem, cell, lists[i], heads[..][i], i);
    }

    method Pop(i: nat) returns (c: nat)
      requires Valid() && i < 16 && lists[i] != []
      modifies this`lists, heads
      ensures Valid() && c == old(lists)[i][0] && lists == old(lists)[i := old(lists)[i][1..]]
      ensures c in cell && cell[c].bin == i && c in blk && c !in old(Live()) && Live() == old(Live())[c := blk[c]]
    {
      hide Good, LiveOf;
      PopGood(mem, blk, cell, heaps, lists, heads[..], i);
      c := heads[i];
      heads[i] := Load(mem, heads[i] + 8);
      lists := lists[i := lists[i][1..]];
      assert heads[..] == old(heads[..])[i := Load(mem, c + 8)];
    }

    method InsertCell(i: nat, c: nat)
      requires Valid() && i < 16 && c in cell && cell[c].bin == i && c in Live()
      modifies this`mem, this`lists, heads
      ensures Valid() && lists == old(lists)[i := [c] + old(lists)[i]]
      ensures Live() == old(Live()) - {c} && Keeps(old(mem), mem, Live())
    {
      hide Good, LiveOf, Keeps, Store;
      PushGood(mem, Store(mem, c + 8, heads[i]), blk, cell, heaps, lists, heads[..], i, c);
      mem := Store(mem, c + 8, heads[i]);
      heads[i] := c;
      lists := lists[i := [c] + lists[i]];
      assert heads[..] == old(heads[..])[i := c];
    }

    method PullFromAbove(i: nat)
      requires Valid() && i < 15 && lists[i + 1] != []
      modifies this, heads
      ensures Valid() && Live() == old(Live()) && Keeps(old(mem), mem, Live()) && heaps == old(heaps)
      ensures lists[i] != [] && lists[i + 1] == old(lists)[i + 1][1..]
    {
      hide Good, LiveOf, Keeps, Size, CellWritten, Store;
      ghost var live := Live();
      var c := Pop(i + 1);
      var w := Size(i);
      ghost var k := Cell(i, cell[c].home);
      ghost var b, e, m' := blk[c := w][c + w := w], cell[c := k][c + w := k], CellWritten(Store(mem, c, w), c + w, w);
      SplitGood(mem, m', blk, b, cell, e, heaps, lists, heads[..], i, c, w);
      assert Live() - {c} == live;
      LiveInBlocks(blk, cell, lists);
      mem := Store(mem, c, w);
      mem := CellWritten(mem, c + w, w);
      blk, cell := b, e;
      ghost var m1 := mem;
      InsertCell(i, c + w);
      KeepsLess(m1, mem, Live(), live);
      KeepsTrans(old(mem), m1, mem, live);
      ghost var m2 := mem;
      InsertCell(i, c);
      assert Live() == live;
      KeepsTrans(old(mem), m2, mem, live);
    }

    /** redistribute: bin i gets a cell, from the bins above or from a new heap at `addr`. */
    method Redistribute(i: nat, addr: nat)
      requires Valid() && i < 16 && Fresh(blk, addr, HEAP_SIZE)
      modifies this, heads
      ensures Valid() && lists[i] != [] && Live() == old(Live()) && Keeps(old(mem), mem, Live())
      ensures heaps == old(heaps) || (heaps == old(heaps) + {addr} && forall j :: i <= j < 16 ==> old(lists)[j] == [])
      ensures old(lists)[i] != [] ==> lists == old(lists) && mem == old(mem)
      decreases 15 - i
    {
      hide Good, LiveOf, Keeps;
      HeadsEmpty(mem, blk, cell, heaps, lists, heads[..], i);
      if heads[i] != 0 {
        KeepsSelf(mem, Live());
        return;
      }
      if i == 15 {
        NewHeap(addr);
        return;
      }
      Redistribute(i + 1, addr);
      ghost var m1 := mem;
      PullFromAbove(i);
      KeepsTrans(old(mem), m1, mem, Live());
    }

    method NewHeap(addr: nat)
      requires Valid() && Fresh(blk, addr, HEAP_SIZE) && lists[15] == [] && heads[15] == 0
      modifies this, heads
      ensures Valid() && lists[15] != [] && Live() == old(Live()) && Keeps(old(mem), mem, Live())
      ensures heaps == old(heaps) + {addr}
    {
      hide LiveOf, Keeps, Good, CellWritten;
      ghost var b, e := blk[addr := HEAP_SIZE], cell[addr := Cell(15, addr)];
      NewHeapGood(mem, CellWritten(mem, addr, HEAP_SIZE), blk, b, cell, e, heaps, lists, heads[..], addr);
      mem := CellWritten(mem, addr, HEAP_SIZE);
      blk, cell, heaps := b, e, heaps + {addr};
      heads[15] := addr;
      lists := lists[15 := [addr] + lists[15]];
      assert heads[..] == old(heads[..])[15 := addr];
    }

    method GetFlIndex(size: nat) returns (i: nat)
      requires size <= HEAP_SIZE
      ensures i < 16 && size <= Size(i) && (i > 0 ==> Size(i - 1) < size)
    {
      TopBin();
      i := 0;
      while i < 16
        invariant i <= 16 && (i > 0 ==> Size(i - 1) < size)
      {
        if Size(i) >= size { return; }
        i := i + 1;
      }
      assert false;
    }

    /** xmalloc_helper: the answer is the cell; callers get the address eight bytes on. */
    method XMallocHelper(size: nat, addr: nat) returns (c: nat)
      requires Valid() && size < SIZE_T && Fresh(blk, addr, MapSize(size))
      modifies this, heads
      ensures Valid() && c !in old(Live()) && c in blk && Live() == old(Live())[c := blk[c]] && Keeps(old(mem), mem, old(Live()))
      ensures blk[c] >= size && blk[c] >= CELL_BYTES && c + blk[c] <= SIZE_T
      ensures if size > HEAP_SIZE then c !in cell && blk[c] == size else c in cell && Fits(cell[c].bin, size)
      ensures size <= HEAP_SIZE && old(lists)[cell[c].bin] != [] ==> c == old(lists)[cell[c].bin][0] && mem == old(mem)
      ensures heaps == old(heaps) || (size <= HEAP_SIZE && forall j :: cell[c].bin <= j < 16 ==> old(lists)[j] == [])
    {
      hide LiveOf, Keeps, Headers, Lists, Size, Good, Store, Load;
      var n := AtLeastCell(size);
      if n > HEAP_SIZE {
        BigGood(mem, Store(mem, addr, n), blk, blk[addr := n], cell, heaps, lists, heads[..], addr, n);
        LiveInBlocks(blk, cell, lists);
        mem := Store(mem, addr, n);
        blk := blk[addr := n];
        SizeIn(mem, blk, cell, heaps, lists, heads[..], addr);
        return addr;
      }
      var i := GetFlIndex(n);
      Redistribute(i, addr);
      c := Pop(i);
      SizeIn(mem, blk, cell, heaps, lists, heads[..], c);
    }

    /** xfree_helper: a cell goes back to the front of its own bin; a big block is unmapped. */
    method XFreeHelper(c: nat)
      requires Valid() && c in Live()
      modifies this, heads
      ensures Valid() && Live() == old(Live()) - {c} && Keeps(old(mem), mem, Live()) && heaps == old(heaps)
      ensures if c in old(cell) then lists == old(lists)[old(cell)[c].bin := [c] + old(lists)[old(cell)[c].bin]] && blk == old(blk)
              else lists == old(lists) && blk == old(blk) - {c}
    {
      hide LiveOf, Keeps, Lists, Size, Good, Load;
      LiveInBlocks(blk, cell, lists);
      SizeIn(mem, blk, cell, heaps, lists, heads[..], c);
      var size := Load(mem, c);
      if size > HEAP_SIZE {
        UnmapGood(mem, blk, cell, heaps, lists, heads[..], c);
        KeepsSelf(mem, Live() - {c});
        blk := blk - {c};
        return;
      }
      var i := GetFlIndex(size);
      OneBin(cell[c].bin, i);
      InsertCell(i, c);
    }

    /** xrealloc_helper on pointers: 0 is NULL, otherwise the pointer is eight bytes past its
        cell. Every byte of the old block is found again in the new one, and the new one is
        large enough exactly when newSize + 8 does not wrap. */
    method XReallocHelper(p: nat, newSize: nat, addr: nat) returns (q: nat)
      requires Valid() && newSize < SIZE_T && (p != 0 ==> p >= 8 && p - 8 in Live()) && Fresh(blk, addr, MapSize(Padded(newSize)))
      modifies this, heads
      ensures Valid()
      ensures q == 0 <==> p != 0 && newSize == 0
      ensures q == 0 ==> Live() == old(Live()) - {p - 8}
      ensures q != 0 ==> q >= 8 && q - 8 in blk
      ensures q != 0 ==> Live() == (if p == 0 then old(Live()) else old(Live()) - {p - 8})[q - 8 := blk[q - 8]]
      ensures q != 0 ==> (blk[q - 8] - 8 >= newSize <==> newSize < SIZE_T - 8)
      ensures q != 0 && p != 0 ==> SameBytes(old(mem), p, mem, q, old(Live())[p - 8] - 8)
      ensures q != 0 && p != 0 && newSize + 8 <= old(Live())[p - 8] ==> q == p && mem == old(mem)
      ensures q != 0 && p != 0 && old(Live())[p - 8] < newSize + 8 < SIZE_T ==> q != p
      ensures Keeps(old(mem), mem, if p == 0 then old(Live()) else old(Live()) - {p - 8})
    {
      hide LiveOf, Keeps, Lists, Size, Good, Layout, Headers, Load;
      if p == 0 {
        var c := XMallocHelper(Padded(newSize), addr);
        SizeIn(mem, blk, cell, heaps, lists, heads[..], c);
        return c + 8;
      }
      var c := p - 8;
      if newSize == 0 {
        XFreeHelper(c);
        return 0;
      }
      ghost var live := Live();
      var n := Padded(newSize);
      LiveInBlocks(blk, cell, lists);
      SizeIn(mem, blk, cell, heaps, lists, heads[..], c);
      var size := Load(mem, c);
      if n <= size {
        KeepsSelf(mem, live - {c});
        assert live == (live - {c})[c := blk[c]];
        return p;
      }
      q := Move(c, n, addr);
    }

    /** The end of xrealloc_helper: a larger block, the old bytes, and the old block freed. */
    method Move(c: nat, n: nat, addr: nat) returns (q: nat)
      requires Valid() && c in Live() && c in blk && Load(mem, c) < n < SIZE_T && Fresh(blk, addr, MapSize(n))
      modifies this, heads
      ensures Valid() && q >= 8 && q - 8 in blk && Live() == (old(Live()) - {c})[q - 8 := blk[q - 8]] && blk[q - 8] >= n && q - 8 != c
      ensures q - 8 + blk[q - 8] <= SIZE_T
      ensures SameBytes(old(mem), c + 8, mem, q, old(blk)[c] - 8)
      ensures Keeps(old(mem), mem, old(Live()) - {c})
    {
      hide LiveOf, Keeps, Size, Good, SameBytes, CopyBytes, Load;
      ghost var live := Live();
      LiveInBlocks(blk, cell, lists);
      SizeIn(mem, blk, cell, heaps, lists, heads[..], c);
      ghost var len := blk[c] - 8;
      var d := CopyOut(c, n, addr);
      ghost var m2 := mem;
      assert d in Live();
      XFreeHelper(c);
      q := d + 8;
      assert d in Live() && Live()[d] == blk[d] by { LiveInBlocks(blk, cell, lists); }
      KeptBytes(m2, mem, Live(), d, len);
      SameTrans(old(mem), c + 8, m2, q, mem, len);
      KeepsLess(old(mem), m2, live, live - {c});
      KeepsLess(m2, mem, Live(), live - {c});
      KeepsTrans(old(mem), m2, mem, live - {c});
    }

    method CopyOut(c: nat, n: nat, addr: nat) returns (d: nat)
      requires Valid() && c in Live() && c in blk && Load(mem, c) < n < SIZE_T && Fresh(blk, addr, MapSize(n))
      modifies this, heads
      ensures Valid() && d in blk && d !in old(Live()) && Live() == old(Live())[d := blk[d]] && blk[d] >= n
      ensures d + blk[d] <= SIZE_T
      ensures SameBytes(old(mem), c + 8, mem, d + 8, old(blk)[c] - 8) && old(blk)[c] <= blk[d]
      ensures Keeps(old(mem), mem, old(Live()))
    {
      hide LiveOf, Keeps, Size, Good, SameBytes, CopyBytes, Load;
      ghost var live := Live();
      LiveInBlocks(blk, cell, lists);
      SizeIn(mem, blk, cell, heaps, lists, heads[..], c);
      var len := Load(mem, c) - 8;
      d := XMallocHelper(n, addr);
      ghost var m1 := mem;
      KeptBytes(old(mem), m1, live, c, len);
      ghost var m2 := CopyBytes(mem, d + 8, c + 8, len);
      CopyIs(mem, d + 8, c + 8, len);
      WriteGood(mem, m2, blk, cell, heaps, lists, heads[..], d, d + 8, len);
      mem := CopyBytes(mem, d + 8, c + 8, len);
      KeepsLess(m1, m2, Live() - {d}, live);
      KeepsTrans(old(mem), m1, m2, live);
      SameFrom(old(mem), c + 8, m1, m2, d + 8, len);
    }

    /** xmalloc: the caller gets enough bytes exactly when the padded size does not wrap. */
    method XMalloc(size: nat, addr: nat) returns (p: nat)
      requires Valid() && size < SIZE_T && Fresh(blk, addr, MapSize(Padded(size)))
      modifies this, heads
      ensures Valid() && p >= 8 && p - 8 !in old(Live()) && p - 8 in blk
      ensures Live() == old(Live())[p - 8 := blk[p - 8]] && Keeps(old(mem), mem, old(Live()))
      ensures blk[p - 8] - 8 >= size <==> size < SIZE_T - 8
    {
      hide LiveOf, Keeps, Good, Size;
      var c := XMallocHelper(Padded(size), addr);
      p := c + 8;
      SizeIn(mem, blk, cell, heaps, lists, heads[..], c);
    }
  }

  /** size + sizeof(size_t) in 64 bits. */
  function Padded(size: nat): (n: nat)
    ensures n < SIZE_T
  {
    (size + 8) % 0x1_0000_0000_0000_0000
  }

  function AtLeastCell(size: nat): nat { if size < CELL_BYTES then CELL_BYTES else size }

  /** The bytes mmap is asked for, if it is asked. */
  function MapSize(size: nat): nat { if size > HEAP_SIZE then size else HEAP_SIZE }

  /** The smallest bin whose cells hold the request. */
  predicate Fits(bin: nat, size: nat) {
    AtLeastCell(size) <= Size(bin) && (bin > 0 ==> Size(bin - 1) < AtLeastCell(size))
  }

  lemma {:induction false} SizeGrows(i: nat, j: nat)
    requires i < j
    ensures 2 * Size(i) <= Size(j)
  {
    if i + 1 < j { SizeGrows(i, j - 1); }
  }

  /** The size of a cell picks out its own bin. */
  lemma OneBin(b: nat, i: nat)
    requires Size(b) <= Size(i) && (i > 0 ==> Size(i - 1) < Size(b))
    ensures i == b
  {
    if b < i { SizeMono(b, i - 1); } else if i < b { SizeGrows(i, b); }
  }

  lemma SizeMono(i: nat, j: nat)
    requires i <= j
    ensures Size(i) <= Size(j)
  {
    if i < j { SizeGrows(i, j); }
  }

  lemma KeepsSelf(m: Memory, live: Blocks)
    ensures Keeps(m, m, live)
  {
  }

  /** What the size field of a block says. */
  lemma SizeIn(m: Memory, blk: Blocks, cell: map<nat, Cell>, heaps: set<nat>, lists: seq<seq<nat>>, heads: seq<nat>, c: nat)
    requires Good(m, blk, cell, heaps, lists, heads) && c in blk
    ensures Load(m, c) == blk[c] >= CELL_BYTES && c + blk[c] <= SIZE_T && c > 0
    ensures c in cell ==> c > 0 && blk[c] == Size(cell[c].bin) && cell[c].bin < 16 && blk[c] <= HEAP_SIZE
    ensures c !in cell ==> blk[c] > HEAP_SIZE
  {
    assert SizeOk(m, blk, cell, c);
    if c in cell {
      InLayout(blk, cell, heaps, c);
      TopBin();
      if cell[c].bin < 15 { SizeGrows(cell[c].bin, 15); }
    }
  }

  /** mmap of a block of its own. */
  lemma BigGood(m: Memory, m': Memory, blk: Blocks, b: Blocks, cell: map<nat, Cell>, heaps: set<nat>, lists: seq<seq<nat>>,
                heads: seq<nat>, a: nat, n: nat)
    requires Good(m, blk, cell, heaps, lists, heads) && HEAP_SIZE < n < SIZE_T && Fresh(blk, a, n)
    requires b == blk[a := n] && m' == Store(m, a, n)
    ensures Good(m', b, cell, heaps, lists, heads) && a !in blk && a !in cell
    ensures LiveOf(b, cell, lists) == LiveOf(blk, cell, lists)[a := n] && Keeps(m, m', LiveOf(blk, cell, lists))
  {
    hide Good, Layout, LiveOf, Keeps, Load, Store;
    GoodLayout(m, blk, cell, heaps, lists, heads);
    BigLayout(blk, cell, heaps, a, n);
    StoreLoad(m, a, n);
    MapInside(m, m', blk, a, n);
    MapGood(m, m', blk, b, cell, cell, heaps, heaps, lists, heads, a, n);
  }

  lemma UnmapGood(m: Memory, blk: Blocks, cell: map<nat, Cell>, heaps: set<nat>, lists: seq<seq<nat>>, heads: seq<nat>, c: nat)
    requires Good(m, blk, cell, heaps, lists, heads) && c in blk && c !in cell
    ensures Good(m, blk - {c}, cell, heaps, lists, heads)
    ensures LiveOf(blk - {c}, cell, lists) == LiveOf(blk, cell, lists) - {c}
  {
    hide Layout, Lists, Load;
    UnmapLayout(blk, cell, heaps, c);
    forall d | d in blk - {c}
      ensures SizeOk(m, blk - {c}, cell, d)
    {
      assert SizeOk(m, blk, cell, d);
    }
  }

  // ----- memcpy

  function ByteAt(m: Memory, a: nat, k: nat): nat { Rd(m, a + k) }

  /** n bytes from a on in m are those from b on in m'. */
  predicate SameBytes(m: Memory, a: nat, m': Memory, b: nat, n: nat) {
    forall k: nat :: k < n ==> ByteAt(m', b, k) == ByteAt(m, a, k)
  }

  function CopyBytes(m: Memory, dst: nat, src: nat, n: nat): Memory {
    if n == 0 then m else CopyBytes(m, dst, src, n - 1)[dst + n - 1 := Rd(m, src + n - 1)]
  }

  lemma {:induction false} CopyIs(m: Memory, dst: nat, src: nat, n: nat)
    ensures SameBytes(m, src, CopyBytes(m, dst, src, n), dst, n) && Only(m, CopyBytes(m, dst, src, n), dst, n)
  {
    if n > 0 { CopyIs(m, dst, src, n - 1); }
  }

  lemma SameTrans(m0: Memory, a: nat, m1: Memory, b: nat, m2: Memory, n: nat)
    requires SameBytes(m0, a, m1, b, n) && SameBytes(m1, b, m2, b, n)
    ensures SameBytes(m0, a, m2, b, n)
  {
  }

  lemma SameFrom(m0: Memory, a: nat, m1: Memory, m2: Memory, b: nat, n: nat)
    requires SameBytes(m0, a, m1, a, n) && SameBytes(m1, a, m2, b, n)
    ensures SameBytes(m0, a, m2, b, n)
  {
  }

  lemma KeptBytes(m: Memory, m': Memory, live: Blocks, c: nat, n: nat)
    requires Keeps(m, m', live) && c in live && n + 8 <= live[c]
    ensures SameBytes(m, c + 8, m', c + 8, n)
  {
    var a := c + 8;
    forall k: nat | k < n
      ensures ByteAt(m', a, k) == ByteAt(m, a, k)
    {
      assert InBlock(live, c, a + k);
    }
  }
}
