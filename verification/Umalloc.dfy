/** umalloc.c: the free list of section 8.7 of Kernighan and Ritchie. Addresses count headers
    (8 bytes). `base` is static data and lies below every block. */
module UmallocSpec {
  import opened Xv6Params
  import opened MemoryBlocks       // header address -> units, header included

  /** Every unit of the arena lies in exactly one block. */
  ghost predicate Tiles(blk: Blocks, arena: set<nat>) {
    && (forall h :: h in blk ==> blk[h] >= 1)
    && (forall h, k :: h in blk && k in blk && h < k ==> h + blk[h] <= k)
    && (forall x :: x in arena ==> exists h :: InBlock(blk, h, x))
    && (forall h, x :: InBlock(blk, h, x) ==> x in arena)
  }

  lemma MergeTiles(blk: Blocks, arena: set<nat>, h: nat, k: nat)
    requires Tiles(blk, arena) && h in blk && k in blk && h + blk[h] == k
    ensures Tiles((blk - {k})[h := blk[h] + blk[k]], arena)
  {
    var b := (blk - {k})[h := blk[h] + blk[k]];
    forall x | x in arena
      ensures exists g :: InBlock(b, g, x)
    {
      var g :| InBlock(blk, g, x);
      if g == k { assert InBlock(b, h, x); } else { assert InBlock(b, g, x); }
    }
    forall g, x | InBlock(b, g, x)
      ensures x in arena
    {
      assert InBlock(blk, g, x) || InBlock(blk, k, x);
    }
  }

  lemma SplitTiles(blk: Blocks, arena: set<nat>, h: nat, a: nat)
    requires Tiles(blk, arena) && h in blk && 0 < a < blk[h]
    ensures h + a !in blk && Tiles(blk[h := a][h + a := blk[h] - a], arena)
  {
    var b := blk[h := a][h + a := blk[h] - a];
    forall x | x in arena
      ensures exists g :: InBlock(b, g, x)
    {
      var g :| InBlock(blk, g, x);
      if g == h && x >= h + a { assert InBlock(b, h + a, x); } else { assert InBlock(b, g, x); }
    }
    forall g, x | InBlock(b, g, x)
      ensures x in arena
    {
      assert InBlock(blk, g, x) || InBlock(blk, h, x);
    }
  }

  predicate AtOrAbove(x: nat, c: nat) { c <= x }

  function Chunk(c: nat, n: nat): (s: set<nat>)
    ensures forall x :: x in s <==> c <= x < c + n
  {
    set x: nat | x < c + n && AtOrAbove(x, c)
  }

  lemma AddTiles(blk: Blocks, arena: set<nat>, c: nat, n: nat)
    requires Tiles(blk, arena) && n >= 1 && arena !! Chunk(c, n)
    ensures c !in blk && Tiles(blk[c := n], arena + Chunk(c, n))
  {
    var b := blk[c := n];
    assert c in Chunk(c, n);
    assert c !in blk by { assert InBlock(blk, c, c) || c !in blk; }
    forall x | x in arena + Chunk(c, n)
      ensures exists g :: InBlock(b, g, x)
    {
      if x in arena {
        var g :| InBlock(blk, g, x);
        assert InBlock(b, g, x);
      } else {
        assert InBlock(b, c, x);
      }
    }
    forall g, x | InBlock(b, g, x)
      ensures x in arena + Chunk(c, n)
    {
      if g != c { assert InBlock(blk, g, x); }
    }
    forall h | h in blk
      ensures h < c ==> h + blk[h] <= c
      ensures c < h ==> c + n <= h
    {
      assert InBlock(blk, h, h);
      var x := if h < c then c else h;
      assert x < h + blk[h] ==> InBlock(blk, h, x);
    }
  }

  /** Blocks lie in the arena and share no unit. */
  lemma BlocksDisjoint(blk: Blocks, arena: set<nat>, h: nat, k: nat)
    requires Tiles(blk, arena) && h in blk && k in blk && h != k
    ensures Chunk(h, blk[h]) <= arena && Chunk(h, blk[h]) !! Chunk(k, blk[k])
  {
    forall x | x in Chunk(h, blk[h])
      ensures x in arena
    {
      assert InBlock(blk, h, x);
    }
  }

  // ----- the circular list

  function After(cyc: seq<nat>, i: nat): nat
    requires i < |cyc|
  {
    if i + 1 < |cyc| then cyc[i + 1] else cyc[0]
  }

  predicate Increasing(cyc: seq<nat>) { forall i, j :: 0 <= i < j < |cyc| ==> cyc[i] < cyc[j] }

  /** The pointers form one cycle through cyc, in address order from base. */
  ghost predicate Ring(cyc: seq<nat>, base: nat, ptr: map<nat, nat>) {
    && |cyc| >= 1 && cyc[0] == base && Increasing(cyc)
    && (forall i :: 0 <= i < |cyc| ==> Linked(cyc, ptr, i))
  }

  predicate Linked(cyc: seq<nat>, ptr: map<nat, nat>, i: nat)
    requires i < |cyc|
  {
    cyc[i] in ptr && ptr[cyc[i]] == After(cyc, i)
  }

  /** The listed blocks other than base are blocks, and no two of them touch. */
  ghost predicate Apart(list: set<nat>, base: nat, blk: Blocks) {
    && (forall x :: x in list && x != base ==> x in blk)
    && (forall x, y :: x in list && y in list && x != base && x < y ==> x + blk[x] < y)
  }

  function Inserted(cyc: seq<nat>, i: nat, b: nat): (r: seq<nat>)
    requires i < |cyc|
    ensures |r| == |cyc| + 1
    ensures forall x :: x in r <==> x in cyc || x == b
  {
    assert cyc == cyc[..i + 1] + cyc[i + 1..];
    cyc[..i + 1] + [b] + cyc[i + 1..]
  }

  function Removed(cyc: seq<nat>, i: nat): (r: seq<nat>)
    requires i < |cyc|
    ensures |r| == |cyc| - 1
  {
    cyc[..i] + cyc[i + 1..]
  }

  /** b belongs between cyc[i] and the next one. */
  predicate Place(cyc: seq<nat>, i: nat, b: nat) {
    i < |cyc| && cyc[i] < b && (i + 1 < |cyc| ==> b < cyc[i + 1])
  }

  lemma InsertIncreasing(cyc: seq<nat>, i: nat, b: nat)
    requires Increasing(cyc) && Place(cyc, i, b)
    ensures Increasing(Inserted(cyc, i, b))
  {
    var c := Inserted(cyc, i, b);
    forall j, k | 0 <= j < k < |c|
      ensures c[j] < c[k]
    {
      var j', k' := if j <= i then j else j - 1, if k <= i then k else k - 1;
      assert c[j] == if j == i + 1 then b else cyc[j'];
      assert c[k] == if k == i + 1 then b else cyc[k'];
    }
  }

  lemma RingInsert(cyc: seq<nat>, base: nat, ptr: map<nat, nat>, ptr': map<nat, nat>, i: nat, b: nat)
    requires Ring(cyc, base, ptr) && Place(cyc, i, b)
    requires ptr' == ptr[b := After(cyc, i)][cyc[i] := b]
    ensures Ring(Inserted(cyc, i, b), base, ptr')
  {
    InsertIncreasing(cyc, i, b);
    var c := Inserted(cyc, i, b);
    forall j | 0 <= j < |c|
      ensures Linked(c, ptr', j)
    {
      var k := if j <= i then j else j - 1;
      assert Linked(cyc, ptr, k);
      assert c[j] == if j == i + 1 then b else cyc[k];
      assert j + 1 < |c| ==> c[j + 1] == if j == i then b else cyc[k + 1];
    }
  }

  lemma RemoveIncreasing(cyc: seq<nat>, i: nat)
    requires Increasing(cyc) && i < |cyc|
    ensures Increasing(Removed(cyc, i))
    ensures forall x :: x in Removed(cyc, i) <==> x in cyc && x != cyc[i]
  {
    var c := Removed(cyc, i);
    forall j, k | 0 <= j < k < |c|
      ensures c[j] < c[k]
    {
      assert c[j] == cyc[if j < i then j else j + 1] && c[k] == cyc[if k < i then k else k + 1];
    }
    forall x
      ensures x in c <==> x in cyc && x != cyc[i]
    {
      if x in cyc && x != cyc[i] {
        var j :| 0 <= j < |cyc| && cyc[j] == x;
        assert x == c[if j < i then j else j - 1];
      }
      if x in c {
        var j :| 0 <= j < |c| && c[j] == x;
        assert x == cyc[if j < i then j else j + 1];
      }
    }
  }

  lemma RemovedPlace(cyc: seq<nat>, i: nat, b: nat)
    requires Increasing(cyc) && Place(cyc, i, b) && i + 1 < |cyc|
    ensures Place(Removed(cyc, i + 1), i, b) && Removed(cyc, i + 1)[i] == cyc[i]
  {
    assert i + 2 < |cyc| ==> cyc[i + 1] < cyc[i + 2];
  }

  lemma RingRemove(cyc: seq<nat>, base: nat, ptr: map<nat, nat>, i: nat)
    requires Ring(cyc, base, ptr) && i + 1 < |cyc|
    ensures Linked(cyc, ptr, i + 1) && Ring(Removed(cyc, i + 1), base, ptr[cyc[i] := ptr[cyc[i + 1]]])
  {
    RemoveIncreasing(cyc, i + 1);
    assert Linked(cyc, ptr, i + 1);
    var c, ptr' := Removed(cyc, i + 1), ptr[cyc[i] := ptr[cyc[i + 1]]];
    forall j | 0 <= j < |c|
      ensures Linked(c, ptr', j)
    {
      var k := if j <= i then j else j + 1;
      assert Linked(cyc, ptr, k);
      assert c[j] == cyc[k];
      assert j + 1 < |c| ==> c[j + 1] == cyc[if j < i then k + 1 else j + 2];
    }
  }

  /** Only the pointers of listed blocks matter. */
  lemma RingFrame(cyc: seq<nat>, base: nat, ptr: map<nat, nat>, ptr': map<nat, nat>)
    requires Ring(cyc, base, ptr) && forall x :: x in cyc && x in ptr ==> x in ptr' && ptr'[x] == ptr[x]
    ensures Ring(cyc, base, ptr')
  {
    assert forall i :: 0 <= i < |cyc| ==> Linked(cyc, ptr, i) ==> Linked(cyc, ptr', i);
  }

  lemma RingFacts(cyc: seq<nat>, base: nat, ptr: map<nat, nat>, i: nat)
    requires Ring(cyc, base, ptr) && i < |cyc|
    ensures cyc[0] == base && Increasing(cyc) && Linked(cyc, ptr, i) && base in cyc
  {
  }

  lemma ListedBlock(list: set<nat>, base: nat, blk: Blocks, x: nat)
    requires Apart(list, base, blk) && x in list
    ensures x == base || x in blk
  {
  }

  lemma {:induction false} FindPlace(cyc: seq<nat>, b: nat) returns (i: nat)
    requires |cyc| >= 1 && cyc[0] < b && Increasing(cyc) && b !in cyc
    ensures Place(cyc, i, b)
  {
    var n := |cyc| - 1;
    if cyc[n] < b { return n; }
    assert cyc[n] in cyc;
    i := FindPlace(cyc[..n], b);
  }

  /** Steps along the ring from i to j. */
  function Dist(i: nat, j: nat, n: nat): (d: nat)
    requires i < n && j < n
    ensures d < n && (d == 0 <==> i == j)
  {
    if i <= j then j - i else j - i + n
  }

  function Next(i: nat, n: nat): nat
    requires i < n
  {
    if i + 1 < n then i + 1 else 0
  }

  lemma DistNext(i: nat, j: nat, n: nat)
    requires i < n && j < n && i != j
    ensures Next(i, n) < n && Dist(Next(i, n), j, n) == Dist(i, j, n) - 1
  {
  }

  // ----- giving a block back

  /** The loop of free stops exactly at the place of b. */
  lemma SearchStops(cyc: seq<nat>, base: nat, ptr: map<nat, nat>, i: nat, b: nat, pos: nat)
    requires Ring(cyc, base, ptr) && Place(cyc, pos, b) && b !in cyc && i < |cyc|
    ensures Linked(cyc, ptr, i)
    ensures var p := cyc[i];
            i == pos <==> (b > p && b < ptr[p]) || (p >= ptr[p] && (b > p || b < ptr[p]))
  {
    assert Linked(cyc, ptr, i);
    assert i < pos ==> cyc[i + 1] == cyc[pos] || cyc[i + 1] < cyc[pos];
    assert pos < i ==> cyc[pos + 1] == cyc[i] || cyc[pos + 1] < cyc[i];
    assert i > 0 ==> cyc[0] < cyc[i];
    assert pos > 0 ==> cyc[0] < cyc[pos];
  }

  /** p is the last listed block below b, n the first above it (base if there is none). */
  predicate Between(list: set<nat>, base: nat, p: nat, b: nat, n: nat) {
    && p in list && n in list && p < b && (n > b || n == base)
    && (forall y :: y in list ==> y <= p || y >= n > b || (n == base && y < b))
  }

  lemma PlaceBetween(cyc: seq<nat>, base: nat, i: nat, b: nat, list: set<nat>)
    requires |cyc| >= 1 && cyc[0] == base && Increasing(cyc) && Place(cyc, i, b) && list == (set x | x in cyc)
    ensures Between(list, base, cyc[i], b, After(cyc, i))
  {
    forall y | y in list
      ensures y <= cyc[i] || y >= After(cyc, i) > b
    {
      var j :| 0 <= j < |cyc| && cyc[j] == y;
      assert j < i ==> cyc[j] < cyc[i];
      assert i + 1 < j ==> cyc[i + 1] < cyc[j];
    }
  }

  /** Apart from b, the blocks outside the list are the same. */
  ghost predicate SameLive(blk1: Blocks, list1: set<nat>, blk: Blocks, list: set<nat>, b: nat) {
    && (forall h :: h in blk1 && h !in list1 && h != b ==> h in blk && h !in list && blk[h] == blk1[h])
    && (forall h :: h in blk && h !in list && h != b ==> h in blk1 && h !in list1)
  }

  /** Joining b with the free block n above it. */
  lemma JoinRight(list: set<nat>, base: nat, blk: Blocks, arena: set<nat>, p: nat, b: nat, n: nat)
    requires Tiles(blk, arena) && Apart(list, base, blk) && Between(list, base, p, b, n) && b in blk && b !in list
    requires b + blk[b] == n && base < b
    ensures n in blk
    ensures var blk1 := (blk - {n})[b := blk[b] + blk[n]];
            && Tiles(blk1, arena) && Apart(list - {n}, base, blk1)
            && (forall y :: y in list - {n} && y > b ==> b + blk1[b] < y)
            && (p in blk && p != base ==> p in blk1 && blk1[p] == blk[p])
            && SameLive(blk1, list - {n}, blk, list, b)
  {
    MergeTiles(blk, arena, b, n);
    hide Tiles;
  }

  lemma NoJoinRight(list: set<nat>, base: nat, blk: Blocks, arena: set<nat>, p: nat, b: nat, n: nat)
    requires Tiles(blk, arena) && Apart(list, base, blk) && Between(list, base, p, b, n) && b in blk && b !in list
    requires b + blk[b] != n && base < b
    ensures forall y :: y in list && y > b ==> b + blk[b] < y
  {
  }

  /** Joining b with the free block p below it. */
  lemma JoinLeft(list: set<nat>, base: nat, blk: Blocks, arena: set<nat>, p: nat, b: nat)
    requires Tiles(blk, arena) && Apart(list, base, blk) && b in blk && b !in list && p in list && p != base
    requires forall y :: y in list && y > b ==> b + blk[b] < y
    requires p in blk && p + blk[p] == b
    ensures var blk2 := (blk - {b})[p := blk[p] + blk[b]];
            Tiles(blk2, arena) && Apart(list, base, blk2)
  {
    MergeTiles(blk, arena, p, b);
    assert forall y :: y in list && p < y ==> b < y;
    hide Tiles;
  }

  lemma NoJoinLeft(list: set<nat>, base: nat, blk: Blocks, arena: set<nat>, p: nat, b: nat)
    requires Tiles(blk, arena) && Apart(list, base, blk) && b in blk && b !in list && p in list && p < b
    requires forall y :: y in list && y > b ==> b + blk[b] < y
    requires forall y :: y in list && y < b ==> y <= p
    requires p == base || (p in blk && p + blk[p] != b)
    ensures Apart(list + {b}, base, blk)
  {
    forall y | y in list && y < b && y != base
      ensures y + blk[y] < b
    {
    }
  }

  // ----- sizes

  const MORE := 4096

  /** (nbytes + 7) / 8 + 1 in 32-bit arithmetic. */
  function Nunits(nbytes: nat): (n: nat)
    ensures n >= 1
  {
    (nbytes + 7) % 0x1_0000_0000 / 8 + 1
  }

  /** morecore asks for no less than 32 kilobytes and no less than it needs. */
  function Asked(nu: nat): (r: nat)
    ensures r >= nu && 8 * r >= 32768 && (8 * nu >= 32768 ==> r == nu)
  { if nu < MORE then MORE else nu }

  /** The argument of sbrk as it receives it: nu * 8 in 32 bits, read as a signed int. */
  function SbrkArg(nu: nat): int {
    var w := nu * 8 % 0x1_0000_0000;
    if w >= 0x8000_0000 then w - 0x1_0000_0000 else w
  }

  /** sbrk is asked for the units morecore records exactly outside 2^31 - 15 .. 2^32 - 8
      bytes; in between it is asked for nothing or less. */
  lemma SbrkAskedIff(nbytes: nat)
    requires nbytes < UINT
    ensures SbrkArg(Asked(Nunits(nbytes))) == 8 * Asked(Nunits(nbytes)) <==>
            !(0x8000_0000 - 16 < nbytes <= 0xFFFF_FFF8)
    ensures 0x8000_0000 - 16 < nbytes <= 0xFFFF_FFF8 ==> SbrkArg(Asked(Nunits(nbytes))) <= 0
  {
    if nbytes <= 0xFFFF_FFF8 {
      assert Nunits(nbytes) == (nbytes + 7) / 8 + 1;
    } else {
      assert Nunits(nbytes) == 1;
    }
  }

  /** The unit count holds the request exactly up to 2^32 - 8 bytes; above it wraps to 1. */
  lemma EnoughIff(nbytes: nat)
    requires nbytes < UINT
    ensures 8 * (Nunits(nbytes) - 1) >= nbytes <==> nbytes <= 0xFFFF_FFF8
    ensures 8 * (Nunits(nbytes) - 1) < nbytes + 8
  {
    if nbytes <= 0xFFFF_FFF8 {
      assert Nunits(nbytes) == (nbytes + 7) / 8 + 1;
    } else {
      assert Nunits(nbytes) == 1;
    }
  }
}

module Umalloc {
  import opened Xv6Params
  import opened MemoryBlocks
  import opened UmallocSpec

  /** What sbrk answers: no memory, or the address of the new memory. */
  datatype Sbrk = Refused | At(addr: nat)

  /** Overrun: sbrk was asked for nothing or less and said yes; the block handed to free is
      not memory. */
  datatype Answer = Block(h: nat) | Null | Overrun

  function Listed(cyc: seq<nat>): (r: set<nat>)
    ensures forall x :: x in r <==> x in cyc
  {
    set x | x in cyc
  }

  function LiveOf(cyc: seq<nat>, blk: Blocks): Blocks {
    map h | h in blk && h !in cyc :: blk[h]
  }

  lemma LiveLess(cyc0: seq<nat>, blk0: Blocks, cyc1: seq<nat>, blk1: Blocks, cyc2: seq<nat>, blk2: Blocks, b: nat)
    requires SameLive(blk1, Listed(cyc1), blk0, Listed(cyc0), b) && SameLive(blk2, Listed(cyc2), blk1, Listed(cyc1), b)
    requires b !in LiveOf(cyc2, blk2)
    ensures LiveOf(cyc2, blk2) == LiveOf(cyc0, blk0) - {b}
  {
  }

  lemma ApartLess(list: set<nat>, base: nat, blk: Blocks, list': set<nat>)
    requires Apart(list, base, blk) && forall x :: x in list' ==> x in list
    ensures Apart(list', base, blk)
  {
  }

  /** A listed block that loses its tail h stays apart, and h is not listed. */
  lemma ApartShrink(list: set<nat>, base: nat, blk: Blocks, p: nat, rest: nat, h: nat)
    requires Apart(list, base, blk) && p in list && p in blk && p != base && 0 < rest < blk[p] && h == p + rest && h !in blk
    requires base < p
    ensures h !in list && Apart(list, base, blk[p := rest][h := blk[p] - rest])
  {
  }

  lemma LiveMore(cyc: seq<nat>, blk: Blocks, cyc': seq<nat>, blk': Blocks, h: nat)
    requires h in blk' && h !in cyc' && (h in blk ==> h in cyc)
    requires forall k :: k != h ==> (k in blk' && k !in cyc' <==> k in blk && k !in cyc)
    requires forall k :: k != h && k in blk' && k !in cyc' ==> blk'[k] == blk[k]
    ensures h !in LiveOf(cyc, blk) && LiveOf(cyc', blk') == LiveOf(cyc, blk)[h := blk'[h]]
  {
  }

  ghost function IndexOf(cyc: seq<nat>, x: nat): (i: nat)
    requires x in cyc
    ensures i < |cyc| && cyc[i] == x
  {
    var i :| 0 <= i < |cyc| && cyc[i] == x;
    i
  }

  lemma PlaceIsBelow(cyc: seq<nat>, base: nat, ptr: map<nat, nat>, i: nat, b: nat)
    requires Ring(cyc, base, ptr) && Place(cyc, i, b)
    ensures cyc[i] in cyc && cyc[i] < b && forall y :: y in cyc && y < b ==> y <= cyc[i]
  {
    forall y | y in cyc && y < b
      ensures y <= cyc[i]
    {
      var k :| 0 <= k < |cyc| && cyc[k] == y;
    }
  }

  lemma SameIndex(cyc: seq<nat>, base: nat, ptr: map<nat, nat>, i: nat, j: nat)
    requires Ring(cyc, base, ptr) && i < |cyc| && j < |cyc| && cyc[i] == cyc[j]
    ensures i == j
  {
  }

  /** Following a pointer is going to the next index. */
  lemma StepOn(cyc: seq<nat>, base: nat, ptr: map<nat, nat>, i: nat)
    requires Ring(cyc, base, ptr) && i < |cyc|
    ensures cyc[i] in ptr && Next(i, |cyc|) < |cyc| && ptr[cyc[i]] == cyc[Next(i, |cyc|)] == After(cyc, i)
  {
    assert Linked(cyc, ptr, i);
  }

  /** From the block after fi it takes the whole round to come to fi: every block is met. */
  lemma DistRound(fi: nat, n: nat)
    requires fi < n
    ensures Next(fi, n) < n && forall f :: 0 <= f < n ==> Dist(Next(fi, n), f, n) <= Dist(Next(fi, n), fi, n)
  {
  }

  /** Starting after fi and now at j, the search has passed e. */
  predicate Behind(j: nat, e: nat, fi: nat, n: nat)
    requires j < n && e < n && fi < n
  {
    Dist(j, e, n) > Dist(j, fi, n)
  }

  predicate FitsIn(cyc: seq<nat>, blk: Blocks, e: nat, nunits: nat)
    requires e < |cyc|
  {
    cyc[e] in blk && blk[cyc[e]] >= nunits
  }

  /** Looking from the block after fi on, the one after i is the first that fits. */
  ghost predicate FirstFit(cyc: seq<nat>, blk: Blocks, fi: nat, i: nat, nunits: nat) {
    && fi < |cyc| && i < |cyc|
    && FitsIn(cyc, blk, Next(i, |cyc|), nunits)
    && forall e :: 0 <= e < |cyc| && Behind(Next(i, |cyc|), e, fi, |cyc|) ==> !FitsIn(cyc, blk, e, nunits)
  }

  /** h is the tail of the first block that fits after freep, and newp the block before that. */
  ghost predicate NextFit(cyc: seq<nat>, blk: Blocks, freep: nat, nunits: nat, h: nat, newp: nat) {
    exists fi: nat, i: nat :: FirstFit(cyc, blk, fi, i, nunits) && cyc[fi] == freep && cyc[i] == newp
                    && var p := cyc[Next(i, |cyc|)]; h + nunits == p + blk[p]
  }

  lemma BehindNone(fi: nat, n: nat)
    requires fi < n
    ensures Next(fi, n) < n && forall e :: 0 <= e < n ==> !Behind(Next(fi, n), e, fi, n)
  {
  }

  lemma BehindNext(j: nat, fi: nat, n: nat)
    requires j < n && fi < n && j != fi
    ensures Next(j, n) < n && forall e :: 0 <= e < n && Behind(Next(j, n), e, fi, n) ==> e == j || Behind(j, e, fi, n)
  {
  }

  lemma Fitted(cyc: seq<nat>, blk: Blocks, freep: nat, fi: nat, i: nat, nunits: nat, h: nat)
    requires FirstFit(cyc, blk, fi, i, nunits) && cyc[fi] == freep
    requires var p := cyc[Next(i, |cyc|)]; h + nunits == p + blk[p]
    ensures NextFit(cyc, blk, freep, nunits, h, cyc[i])
  {
  }

  lemma BehindAll(fi: nat, n: nat)
    requires fi < n
    ensures forall e :: 0 <= e < n && e != fi ==> Behind(fi, e, fi, n)
  {
  }

  predicate NoneFits(cyc: seq<nat>, blk: Blocks, nunits: nat) {
    forall x :: x in cyc && x in blk ==> blk[x] < nunits
  }

  lemma NothingFits(cyc: seq<nat>, blk: Blocks, nunits: nat)
    requires forall e :: 0 <= e < |cyc| ==> !FitsIn(cyc, blk, e, nunits)
    ensures NoneFits(cyc, blk, nunits)
  {
    forall x | x in cyc && x in blk
      ensures blk[x] < nunits
    {
      var e :| 0 <= e < |cyc| && cyc[e] == x;
      assert !FitsIn(cyc, blk, e, nunits);
    }
  }

  lemma FitFound(cyc: seq<nat>, blk: Blocks, j: nat, nunits: nat)
    requires j < |cyc| && FitsIn(cyc, blk, j, nunits)
    ensures !NoneFits(cyc, blk, nunits)
  {
  }

  /** The empty list malloc starts with has nothing to offer. */
  lemma StartNoFit(cyc0: seq<nat>, blk0: Blocks, cyc: seq<nat>, blk: Blocks, base: nat, nunits: nat)
    requires (cyc == cyc0 && blk == blk0) || (cyc0 == [] && cyc == [base] && blk == blk0 == map[])
    ensures NoneFits(cyc, blk, nunits) == NoneFits(cyc0, blk0, nunits)
    ensures cyc0 == [] ==> NoneFits(cyc0, blk0, nunits)
  {
  }

  class Heap {
    const base: nat
    var freep: nat                  // 0 before the first malloc
    var size: map<nat, nat>         // s.size of each header
    var ptr: map<nat, nat>          // s.ptr of each header
    ghost var cyc: seq<nat>         // the free list from base on
    ghost var blk: Blocks           // free and live blocks
    ghost var arena: set<nat>       // all units sbrk has given

    ghost predicate Sized()
      reads this
    {
      base in size && size[base] == 0 && forall h :: h in blk ==> h > base && h in size && size[h] == blk[h]
    }

    ghost predicate Valid()
      reads this
    {
      && base > 0
      && if freep == 0 then cyc == [] && blk == map[] && arena == {}
         else && Ring(cyc, base, ptr) && Apart(Listed(cyc), base, blk) && Tiles(blk, arena)
              && freep in cyc && Sized()
    }

    /** The blocks that belong to callers. */
    ghost function Live(): Blocks
      reads this
    {
      LiveOf(cyc, blk)
    }

    constructor (b: nat)
      requires b > 0
      ensures Valid() && Live() == map[] && arena == {}
    {
      base, freep := b, 0;
      size, ptr := map[], map[];
      cyc, blk, arena := [], map[], {};
    }

    /** free, with its search and both joins. */
    method Free(bp: nat)
      requires Valid() && bp in Live()
      modifies this
      ensures Valid() && arena == old(arena) && Live() == old(Live()) - {bp} && freep != 0
      ensures freep in old(cyc) && freep < bp && forall y :: y in old(cyc) && y < bp ==> y <= freep
      ensures exists x :: x in cyc && x in blk && blk[x] >= old(blk)[bp]
    {
      hide Tiles, Apart;
      ghost var pos := FindPlace(cyc, bp);
      ghost var i :| 0 <= i < |cyc| && cyc[i] == freep;
      var p := freep;
      SearchStops(cyc, base, ptr, i, bp, pos);
      while !(bp > p && bp < ptr[p])
        invariant 0 <= i < |cyc| && p == cyc[i] && p in ptr
        invariant (bp > p && bp < ptr[p]) ==> i == pos
        modifies {}
        decreases Dist(i, pos, |cyc|)
      {
        SearchStops(cyc, base, ptr, i, bp, pos);
        if p >= ptr[p] && (bp > p || bp < ptr[p]) { break; }
        DistNext(i, pos, |cyc|);
        p := ptr[p];
        i := Next(i, |cyc|);
        SearchStops(cyc, base, ptr, i, bp, pos);
      }
      PlaceIsBelow(cyc, base, ptr, i, bp);
      Link(p, bp, i);
    }

    /** The second half of free: bp goes between p and the block after it. */
    method Link(p: nat, bp: nat, ghost i: nat)
      requires Valid() && bp in Live() && Place(cyc, i, bp) && p == cyc[i]
      modifies this
      ensures Valid() && arena == old(arena) && Live() == old(Live()) - {bp} && freep == p != 0
      ensures exists x :: x in cyc && x in blk && blk[x] >= old(blk)[bp]
    {
      hide Tiles, Apart, Ring, Increasing, SameLive;
      ghost var cyc1, blk1 := JoinAbove(p, bp, i);
      LinkBelow(p, bp, i, cyc1, blk1);
      LiveLess(old(cyc), old(blk), cyc1, blk1, cyc, blk, bp);
    }

    /** What is left to do once bp has taken over the free block above it, if it touches one:
        the list without bp is cyc1, the blocks are blk1, and the pointer of p is still to
        be set. */
    ghost predicate Joined(p: nat, bp: nat, i: nat, cyc1: seq<nat>, blk1: Blocks)
      reads this
    {
      && base > 0 && p in size && bp in size && p in ptr && bp in ptr && bp in blk1 && bp !in cyc1
      && Place(cyc1, i, bp) && p == cyc1[i] && Ring(cyc1, base, ptr[p := ptr[bp]])
      && Apart(Listed(cyc1), base, blk1) && Tiles(blk1, arena)
      && base in size && size[base] == 0
      && (forall h :: h in blk1 ==> h > base && h in size && size[h] == blk1[h])
      && (forall y :: y in cyc1 && y > bp ==> bp + blk1[bp] < y)
    }

    method JoinAbove(p: nat, bp: nat, ghost i: nat) returns (ghost cyc1: seq<nat>, ghost blk1: Blocks)
      requires Valid() && bp in Live() && Place(cyc, i, bp) && p == cyc[i]
      modifies this`size, this`ptr
      ensures Joined(p, bp, i, cyc1, blk1) && blk1[bp] >= blk[bp] && SameLive(blk1, Listed(cyc1), blk, Listed(cyc), bp)
    {
      RingFacts(cyc, base, ptr, i);
      ListedBlock(Listed(cyc), base, blk, p);
      PlaceBetween(cyc, base, i, bp, Listed(cyc));
      hide Tiles, Apart, Ring, Increasing, Between;
      if bp + size[bp] == ptr[p] {
        cyc1, blk1 := TakeAbove(p, bp, i);
      } else {
        NoJoinRight(Listed(cyc), base, blk, arena, p, bp, ptr[p]);
        cyc1, blk1 := cyc, blk;
        ptr := ptr[bp := ptr[p]];
        RingFrame(cyc1, base, old(ptr), ptr[p := ptr[bp]]);
      }
    }

    method TakeAbove(p: nat, bp: nat, ghost i: nat) returns (ghost cyc1: seq<nat>, ghost blk1: Blocks)
      requires Valid() && bp in Live() && Place(cyc, i, bp) && p == cyc[i] && p in ptr && bp + size[bp] == ptr[p]
      requires p in size
      modifies this`size, this`ptr
      ensures Joined(p, bp, i, cyc1, blk1) && blk1[bp] >= blk[bp] && SameLive(blk1, Listed(cyc1), blk, Listed(cyc), bp)
    {
      hide Tiles, Apart, Ring, Increasing, Removed, Between, SameLive;
      ghost var list := Listed(cyc);
      RingFacts(cyc, base, ptr, i);
      PlaceBetween(cyc, base, i, bp, list);
      var nx: nat := ptr[p];
      JoinRight(list, base, blk, arena, p, bp, nx);
      RingRemove(cyc, base, ptr, i);
      RemoveIncreasing(cyc, i + 1);
      RemovedPlace(cyc, i, bp);
      hide Place;
      cyc1, blk1 := Removed(cyc, i + 1), (blk - {nx})[bp := blk[bp] + blk[nx]];
      size := size[bp := size[bp] + size[nx]];
      ptr := ptr[bp := ptr[nx]];
      RingFrame(cyc1, base, old(ptr)[p := old(ptr)[nx]], ptr[p := ptr[bp]]);
      assert Listed(cyc1) == list - {nx};
    }

    /** The last part of free. */
    method LinkBelow(p: nat, bp: nat, ghost i: nat, ghost cyc1: seq<nat>, ghost blk1: Blocks)
      requires Joined(p, bp, i, cyc1, blk1)
      modifies this
      ensures Valid() && arena == old(arena) && freep == p != 0
      ensures bp !in Live() && SameLive(blk, Listed(cyc), blk1, Listed(cyc1), bp)
      ensures exists x :: x in cyc && x in blk && blk[x] >= blk1[bp]
    {
      hide Tiles, Apart, Ring, Increasing;
      ghost var list := Listed(cyc1);
      RingFacts(cyc1, base, ptr[p := ptr[bp]], i);
      PlaceBetween(cyc1, base, i, bp, list);
      ListedBlock(list, base, blk1, p);
      if p + size[p] == bp {
        JoinLeft(list, base, blk1, arena, p, bp);
        size := size[p := size[p] + size[bp]];
        ptr := ptr[p := ptr[bp]];
        cyc, blk := cyc1, (blk1 - {bp})[p := blk1[p] + blk1[bp]];
        assert p in cyc && p in blk;
      } else {
        NoJoinLeft(list, base, blk1, arena, p, bp);
        RingInsert(cyc1, base, ptr[p := ptr[bp]], ptr[p := bp], i, bp);
        ptr := ptr[p := bp];
        cyc, blk := Inserted(cyc1, i, bp), blk1;
        assert Listed(cyc) == list + {bp};
        assert bp in cyc && bp in blk;
      }
      freep := p;
    }

    method Morecore(nu: nat, brk: Sbrk) returns (p: nat, overrun: bool)
      requires Valid() && freep != 0 && nu >= 1 && Grants(nu, brk)
      modifies this
      ensures brk.Refused? ==> p == 0 && !overrun
      ensures brk.Refused? || overrun ==> unchanged(this)
      ensures overrun <==> brk.At? && SbrkArg(Asked(nu)) != 8 * Asked(nu)
      ensures brk.At? && !overrun ==> Valid() && p == freep != 0 && Live() == old(Live())
      ensures brk.At? && !overrun ==> arena == old(arena) + Chunk(brk.addr, Asked(nu))
      ensures brk.At? && !overrun ==> exists x :: x in cyc && x in blk && blk[x] >= nu
    {
      hide Tiles, Ring;
      var n := Asked(nu);
      if brk.Refused? { return 0, false; }
      if SbrkArg(n) != 8 * n { return 0, true; }
      var hp := brk.addr;
      AddTiles(blk, arena, hp, n);
      size := size[hp := n];
      blk, arena := blk[hp := n], arena + Chunk(hp, n);
      assert hp !in Listed(cyc);
      assert Live() - {hp} == old(Live());
      Free(hp);
      p, overrun := freep, false;
    }

    /** sbrk, when it grants something, grants memory above base that is not in use. */
    ghost predicate Grants(nu: nat, brk: Sbrk)
      reads this
    {
      brk.At? && SbrkArg(Asked(nu)) == 8 * Asked(nu) ==> base < brk.addr && arena !! Chunk(brk.addr, Asked(nu))
    }

    /** The fitting block p, after prevp, is taken whole or loses its tail. */
    method Take(prevp: nat, p: nat, nunits: nat, ghost i: nat) returns (h: nat)
      requires Valid() && freep != 0 && i < |cyc| && prevp == cyc[i] && p == After(cyc, i) && nunits >= 1
      requires p in size && size[p] >= nunits
      modifies this
      ensures Valid() && arena == old(arena) && h !in old(Live()) && Live() == old(Live())[h := nunits]
      ensures freep == prevp && p in old(blk) && h + nunits == p + old(blk)[p]
    {
      hide Tiles, Ring, Increasing, Apart;
      RingFacts(cyc, base, ptr, i);
      assert p in Listed(cyc);
      ListedBlock(Listed(cyc), base, blk, p);
      if size[p] == nunits {
        RingRemove(cyc, base, ptr, i);
        RemoveIncreasing(cyc, i + 1);
        hide Removed;
        ApartLess(Listed(cyc), base, blk, Listed(Removed(cyc, i + 1)));
        LiveMore(cyc, blk, Removed(cyc, i + 1), blk, p);
        ptr := ptr[prevp := ptr[p]];
        cyc := Removed(cyc, i + 1);
        h := p;
      } else {
        h := TakeTail(p, nunits);
      }
      freep := prevp;
    }

    method TakeTail(p: nat, nunits: nat) returns (h: nat)
      requires Valid() && freep != 0 && p in cyc && p in blk && p in size && 1 <= nunits < size[p]
      modifies this`size, this`blk
      ensures Valid() && h !in old(Live()) && Live() == old(Live())[h := nunits] && h + nunits == p + old(blk)[p]
    {
      hide Tiles, Ring, Increasing, Apart;
      var rest := size[p] - nunits;
      h := p + rest;
      SplitTiles(blk, arena, p, rest);
      ApartShrink(Listed(cyc), base, blk, p, rest, h);
      assert h !in cyc;
      LiveMore(cyc, blk, cyc, blk[p := rest][h := nunits], h);
      size := size[p := rest];
      size := size[h := nunits];
      blk := blk[p := rest][h := nunits];
    }

    /** malloc: exactly when each answer is given, and what it means. A block is too small
        exactly for requests above 2^32 - 8 bytes. */
    method Malloc(nbytes: nat, brk: Sbrk) returns (r: Answer)
      requires Valid() && nbytes < UINT && Grants(Nunits(nbytes), brk)
      modifies this
      ensures r.Null? <==> old(NoFit(Nunits(nbytes))) && brk.Refused?
      ensures r.Overrun? <==> old(NoFit(Nunits(nbytes))) && brk.At? && 0x8000_0000 - 16 < nbytes <= 0xFFFF_FFF8
      ensures !r.Overrun? ==> Valid()
      ensures r.Null? ==> Live() == old(Live()) && arena == old(arena)
      ensures r.Block? ==> r.h !in old(Live()) && Live() == old(Live())[r.h := Nunits(nbytes)]
      ensures r.Block? ==> (8 * (Live()[r.h] - 1) >= nbytes <==> nbytes <= 0xFFFF_FFF8)
      ensures r.Block? ==>
                arena == old(arena) + if old(NoFit(Nunits(nbytes))) then Chunk(brk.addr, Asked(Nunits(nbytes))) else {}
      ensures !old(NoFit(Nunits(nbytes))) ==> r.Block? && NextFit(old(cyc), old(blk), old(freep), Nunits(nbytes), r.h, freep)
    {
      hide Tiles, Ring, Increasing, Apart, Live, Nunits, Asked, SbrkArg, NoneFits, NextFit;
      EnoughIff(nbytes);
      SbrkAskedIff(nbytes);
      if freep == 0 { Start(); }
      StartNoFit(old(cyc), old(blk), cyc, blk, base, Nunits(nbytes));
      r := Search(Nunits(nbytes), brk);
    }

    /** No free block is large enough. */
    ghost predicate NoFit(nunits: nat)
      reads this
    {
      NoneFits(cyc, blk, nunits)
    }

    /** The loop of malloc: once round the list, then morecore, then once more. */
    method Search(nunits: nat, brk: Sbrk) returns (r: Answer)
      requires Valid() && freep != 0 && nunits >= 1 && Grants(nunits, brk)
      modifies this
      ensures r.Null? <==> old(NoFit(nunits)) && brk.Refused?
      ensures r.Overrun? <==> old(NoFit(nunits)) && brk.At? && SbrkArg(Asked(nunits)) != 8 * Asked(nunits)
      ensures !r.Overrun? ==> Valid()
      ensures r.Null? ==> Live() == old(Live()) && arena == old(arena)
      ensures r.Block? ==> r.h !in old(Live()) && Live() == old(Live())[r.h := nunits]
      ensures r.Block? ==> arena == old(arena) + if old(NoFit(nunits)) then Chunk(brk.addr, Asked(nunits)) else {}
      ensures !old(NoFit(nunits)) ==> r.Block? && NextFit(old(cyc), old(blk), old(freep), nunits, r.h, freep)
    {
      hide Tiles, Ring, Increasing, Apart, Live, Nunits, Asked, SbrkArg, Dist, Behind, NextFit;
      ghost var live := Live();
      ghost var fi := IndexOf(cyc, freep);
      ghost var i, j, f, grown := fi, Next(fi, |cyc|), 0, false;
      DistRound(fi, |cyc|);
      BehindNone(fi, |cyc|);
      var prevp := freep;
      StepOn(cyc, base, ptr, i);
      var p := ptr[prevp];
      while true
        invariant Valid() && freep != 0 && Live() == live == old(Live())
        invariant 0 <= i < |cyc| && j == Next(i, |cyc|) && prevp == cyc[i] && p == cyc[j]
        invariant 0 <= fi < |cyc| && cyc[fi] == freep
        invariant !grown ==> arena == old(arena) && blk == old(blk) && cyc == old(cyc) && freep == old(freep)
        invariant !grown ==> forall e :: 0 <= e < |cyc| && Behind(j, e, fi, |cyc|) ==> !FitsIn(cyc, blk, e, nunits)
        invariant grown ==> old(NoFit(nunits)) && SbrkArg(Asked(nunits)) == 8 * Asked(nunits)
        invariant grown ==> brk.At? && arena == old(arena) + Chunk(brk.addr, Asked(nunits))
        invariant grown ==> 0 <= f < |cyc| && cyc[f] in blk && blk[cyc[f]] >= nunits && Dist(j, f, |cyc|) <= Dist(j, fi, |cyc|)
        decreases !grown, Dist(j, if grown then f else fi, |cyc|)
      {
        InSize(j);
        if size[p] >= nunits {
          assert !grown ==> !NoneFits(cyc, blk, nunits) by { FitFound(cyc, blk, j, nunits); }
          var h := Take(prevp, p, nunits, i);
          if !grown { Fitted(old(cyc), old(blk), old(freep), fi, i, nunits, h); }
          return Block(h);
        }
        assert grown ==> j != f;
        if p == freep {
          SameIndex(cyc, base, ptr, j, fi);
          BehindAll(j, |cyc|);
          NothingFits(cyc, blk, nunits);
          var q, overrun := Morecore(nunits, brk);
          if overrun { return Overrun; }
          if q == 0 { return Null; }
          grown := true;
          p := q;
          fi := IndexOf(cyc, freep);
          ghost var x :| x in cyc && x in blk && blk[x] >= nunits;
          f := IndexOf(cyc, x);
          j := fi;
          DistRound(fi, |cyc|);
        } else {
          DistNext(j, fi, |cyc|);
          BehindNext(j, fi, |cyc|);
          if grown { DistNext(j, f, |cyc|); }
        }
        StepOn(cyc, base, ptr, j);
        prevp := p;
        p := ptr[p];
        i, j := j, Next(j, |cyc|);
      }
    }

    /** The list before the first block: base alone. */
    method Start()
      requires Valid() && freep == 0
      modifies this
      ensures Valid() && freep != 0 && Live() == old(Live()) && arena == old(arena) && blk == old(blk) == map[] && old(cyc) == [] && cyc == [base]
    {
      ptr, freep := ptr[base := base], base;
      size := size[base := 0];
      cyc := [base];
      assert Linked(cyc, ptr, 0);
    }

    lemma InSize(j: nat)
      requires Valid() && freep != 0 && j < |cyc|
      ensures cyc[j] in size && (cyc[j] in blk ==> size[cyc[j]] == blk[cyc[j]])
      ensures size[cyc[j]] >= 1 ==> cyc[j] in blk
    {
      ListedBlock(Listed(cyc), base, blk, cyc[j]);
    }
  }
}
