/** vm.c and kalloc.c: building, copying, shrinking and freeing address spaces, with every
    out-of-memory exit. */
module Vm {
  import opened VmTables
  import opened Counting

  const KERNBASE := 0x8000_0000
  const JUNK: Word := 0x0101_0101

  function PgUp(sz: nat): (vp: nat)
    ensures 4096 * vp - 4096 < sz <= 4096 * vp
  {
    (sz + 4095) / 4096
  }

  /** What kfree leaves in a frame it puts in front of the list. */
  function Freed(free: seq<nat>): (p: Page) {
    Fill(JUNK)[0 := Link(free)]
  }

  // ----- moving frames between the free list, a caller and an owner

  lemma TakeConserved(m: Memory, o: Owner, free: seq<nat>, transit: set<nat>, frames: set<nat>)
    requires Conserved(m, o, free, transit, frames) && free != []
    ensures Conserved(m, o, free[1..], transit + {free[0]}, frames)
    ensures free[0] in frames && free[0] !in o && free[0] !in transit
  {
    forall f
      ensures f in frames <==> f in free[1..] || f in o || f in transit + {free[0]}
    {
      assert f in free <==> f == free[0] || f in free[1..];
    }
  }

  lemma PushChain(m: Memory, free: seq<nat>, f: nat)
    requires Chained(m, free) && 0 < f < |m| && f !in free
    ensures Chained(m[f := Freed(free)], [f] + free)
  {
    ChainedFrame(m, m[f := Freed(free)], free);
    assert ([f] + free)[1..] == free;
  }

  /** The list holds exactly the frames lo .. p-1. */
  ghost predicate FreeFrom(m: Memory, free: seq<nat>, lo: nat, p: nat) {
    NoDup(free) && Chained(m, free) && forall f :: f in free <==> lo <= f < p
  }

  lemma FreeNone(m: Memory, lo: nat)
    ensures FreeFrom(m, [], lo, lo)
  {
  }

  lemma FreeNext(m: Memory, free: seq<nat>, lo: nat, p: nat)
    requires FreeFrom(m, free, lo, p) && 0 < lo <= p < |m|
    ensures FreeFrom(m[p := Freed(free)], [p] + free, lo, p + 1)
  {
    PushChain(m, free, p);
    assert forall f :: f in [p] + free <==> f == p || f in free;
    assert forall k :: 0 <= k < |free| ==> free[k] in free;
  }

  lemma FreeStart(m: Memory, free: seq<nat>, lo: nat, hi: nat, frames: set<nat>)
    requires FreeFrom(m, free, lo, hi) && |m| <= 0x10_0000 && 0 < lo && (lo < hi ==> hi <= |m|) && forall f :: f in frames <==> lo <= f < hi
    ensures Conserved(m, map[], free, {}, frames)
    ensures forall f :: f in free <==> lo <= f < hi
  {
  }

  /** The list's pointer leads to its first frame, and that to the rest. */
  lemma HeadOfList(m: Memory, o: Owner, free: seq<nat>, transit: set<nat>, frames: set<nat>)
    requires Conserved(m, o, free, transit, frames)
    ensures Link(free) == 0 <==> free == []
    ensures free != [] ==> Link(free) / 4096 == free[0] < |m| && m[free[0]][0] == Link(free[1..])
  {
  }

  lemma FreeConserved(m: Memory, o: Owner, free: seq<nat>, transit: set<nat>, frames: set<nat>, f: nat)
    requires Conserved(m, o, free, transit, frames) && f in transit
    ensures f < |m| && Conserved(m[f := Freed(free)], o, [f] + free, transit - {f}, frames)
    ensures forall d, vp :: d in o && o[d] == Dir && 0 <= vp < VPAGES ==> PteAt(m[f := Freed(free)], d, vp) == PteAt(m, d, vp)
  {
    TablesFrame(m, m[f := Freed(free)], o);
    PushChain(m, free, f);
    forall g
      ensures g in frames <==> g in [f] + free || g in o || g in transit - {f}
    {
      assert g in [f] + free <==> g == f || g in free;
    }
  }

  /** A frame in transit is zeroed or filled by its holder. */
  lemma TouchConserved(m: Memory, o: Owner, free: seq<nat>, transit: set<nat>, frames: set<nat>, f: nat, page: Page)
    requires Conserved(m, o, free, transit, frames) && f in transit
    ensures f < |m| && Conserved(m[f := page], o, free, transit, frames)
    ensures forall d, vp :: d in o && o[d] == Dir && 0 <= vp < VPAGES ==> PteAt(m[f := page], d, vp) == PteAt(m, d, vp)
  {
    TablesFrame(m, m[f := page], o);
    ChainedFrame(m, m[f := page], free);
  }

  /** What an operation on directory d leaves alone: every frame that is not d's, the pages
      every other directory maps, and the contents of user pages. */
  ghost predicate KeepsOthers(m0: Memory, o0: Owner, m1: Memory, o1: Owner, d: nat) {
    && |m1| == |m0|
    && (forall f :: f in o0 && !Of(o0[f], f, d) ==> f in o1 && o1[f] == o0[f])
    && (forall f :: f in o1 && !Of(o1[f], f, d) ==> f in o0 && o0[f] == o1[f])
    && (forall f :: f in o0 && f in o1 && o0[f].User? && o1[f] == o0[f] && f < |m0| ==> m1[f] == m0[f])
    && (forall e, vp :: e in o0 && o0[e] == Dir && e != d && e < |m0| && 0 <= vp < VPAGES ==>
          PteAt(m1, e, vp) == PteAt(m0, e, vp))
  }

  lemma KeepsTrans(m0: Memory, o0: Owner, m1: Memory, o1: Owner, m2: Memory, o2: Owner, d: nat)
    requires KeepsOthers(m0, o0, m1, o1, d) && KeepsOthers(m1, o1, m2, o2, d)
    requires forall f :: f in o0 && f in o2 && o0[f].User? && o2[f] == o0[f] ==> f in o1 && o1[f] == o0[f]
    requires forall f :: f in o0 ==> f < |m0|
    ensures KeepsOthers(m0, o0, m2, o2, d)
  {
  }

  /** The store of mappages, seen by the invariant. */
  lemma Stored(m: Memory, o: Owner, d: nat, vp: nat, w: Word, free: seq<nat>, transit: set<nat>, frames: set<nat>)
    requires Conserved(m, o, free, transit, frames) && d in o && o[d] == Dir && vp < VPAGES && Present(m[d][Pdx(vp)])
    requires !Present(PteAt(m, d, vp)) && Present(w) && (vp < KPAGE ==> Frame(w) in transit)
    ensures var t := Frame(m[d][Pdx(vp)]);
            && t < |m|
            && var m' := m[t := m[t][Ptx(vp) := w]];
               var o' := if vp < KPAGE then o[Frame(w) := User(d, vp)] else o;
            && Conserved(m', o', free, if vp < KPAGE then transit - {Frame(w)} else transit, frames)
            && KeepsOthers(m, o, m', o', d)
            && (forall v :: 0 <= v < VPAGES ==> PteAt(m', d, v) == if v == vp then w else PteAt(m, d, v))
            && (forall g :: g in transit ==> g < |m| && m'[g] == m[g])
  {
    PteStore(m, o, d, vp, w, d, vp);
    var t := Frame(m[d][Pdx(vp)]);
    var m' := m[t := m[t][Ptx(vp) := w]];
    if vp < KPAGE { LinkUser(m, o, d, vp, w); } else { StoreKernel(m, o, d, vp, w); }
    ChainedFrame(m, m', free);
    forall e, v | e in o && o[e] == Dir && 0 <= v < VPAGES
      ensures PteAt(m', e, v) == if e == d && v == vp then w else PteAt(m, e, v)
    {
      PteStore(m, o, d, vp, w, e, v);
    }
    assert forall g :: g in transit ==> g in frames;
  }

  lemma OwnedBound(m: Memory, o: Owner, free: seq<nat>, transit: set<nat>, frames: set<nat>)
    requires Conserved(m, o, free, transit, frames)
    ensures |m| <= 0x10_0000 && Tables(m, o)
    ensures forall f :: f in o ==> f < |m|
    ensures forall f :: f in frames ==> f < |m|
    ensures forall f :: f in o || f in transit || f in free ==> f in frames
    ensures forall f :: f in transit ==> f !in o
  {
  }

  /** The frames that the user pages among a0 .. a-1 get, from pf0 on. */
  function Taken(pf0: nat, a0: nat, a: nat): (r: set<nat>)
    ensures forall f :: f in r ==> pf0 <= f < pf0 + (a - a0)
  {
    if a <= a0 then {} else if a - 1 < KPAGE then Taken(pf0, a0, a - 1) + {pf0 + (a - 1 - a0)} else Taken(pf0, a0, a - 1)
  }

  lemma TakenNone(pf0: nat, a0: nat, transit: set<nat>)
    ensures Taken(pf0, a0, a0) == {} && transit - Taken(pf0, a0, a0) == transit
  {
  }

  lemma TakenOne(pf0: nat, a0: nat, transit: set<nat>)
    requires a0 < KPAGE
    ensures Taken(pf0, a0, a0) == {} && transit - {} == transit && Taken(pf0, a0, a0 + 1) == {pf0}
  {
  }

  lemma {:induction false} TakenKernel(pf0: nat, a0: nat, a: nat, transit: set<nat>)
    requires a0 >= KPAGE
    ensures Taken(pf0, a0, a) == {} && transit - Taken(pf0, a0, a) == transit
    decreases a
  {
    if a > a0 { TakenKernel(pf0, a0, a - 1, transit); }
  }

  lemma {:induction false} TakenLess(pf0: nat, a0: nat, a: nat, b: nat)
    requires a <= b
    ensures Taken(pf0, a0, a) <= Taken(pf0, a0, b)
    decreases b
  {
    if a < b { TakenLess(pf0, a0, a, b - 1); }
  }

  lemma TakenNext(pf0: nat, a0: nat, a: nat, pf: nat, transit: set<nat>)
    requires a0 <= a && pf == pf0 + (a - a0) && Taken(pf0, a0, a + 1) <= transit
    ensures a < KPAGE ==> pf in transit - Taken(pf0, a0, a) && Taken(pf0, a0, a + 1) == Taken(pf0, a0, a) + {pf}
    ensures a < KPAGE ==> transit - Taken(pf0, a0, a) - {pf} == transit - Taken(pf0, a0, a + 1)
    ensures a >= KPAGE ==> Taken(pf0, a0, a + 1) == Taken(pf0, a0, a)
  {
  }

  lemma UserPages(m0: Memory, o0: Owner, m1: Memory, o1: Owner, d: nat)
    requires KeepsOthers(m0, o0, m1, o1, d)
    ensures |m1| == |m0| && forall f :: f in o0 && f in o1 && o0[f].User? && o1[f] == o0[f] && f < |m0| ==> m1[f] == m0[f]
  {
  }

  lemma KeepsSelf(m: Memory, o: Owner, d: nat)
    ensures KeepsOthers(m, o, m, o, d)
  {
  }

  /** Taking out one user page and freeing its frame. */
  lemma Unmapped(m: Memory, o: Owner, d: nat, vp: nat, free: seq<nat>, transit: set<nat>, frames: set<nat>)
    requires Conserved(m, o, free, transit, frames) && d in o && o[d] == Dir && vp < KPAGE && Present(PteAt(m, d, vp))
    ensures var t := Frame(m[d][Pdx(vp)]);
            var f := Frame(PteAt(m, d, vp));
            && t < |m| && f < |m| && t != f && d != f && f in o && o[f] == User(d, vp)
            && var m' := m[t := m[t][Ptx(vp) := 0]][f := Freed(free)];
            && Conserved(m', o - {f}, [f] + free, transit, frames)
            && KeepsOthers(m, o, m', o - {f}, d)
            && (forall v :: 0 <= v < VPAGES ==> PteAt(m', d, v) == if v == vp then 0 else PteAt(m, d, v))
            && (forall g :: g in transit ==> g < |m| && m'[g] == m[g])
  {
    UnlinkUser(m, o, d, vp);
    var t, f := Frame(m[d][Pdx(vp)]), Frame(PteAt(m, d, vp));
    var m1 := m[t := m[t][Ptx(vp) := 0]];
    var m', o' := m1[f := Freed(free)], o - {f};
    TablesFrame(m1, m', o');
    ChainedFrame(m, m', free);
    assert ([f] + free)[1..] == free;
    forall e, v | e in o && o[e] == Dir && 0 <= v < VPAGES
      ensures PteAt(m', e, v) == if e == d && v == vp then 0 else PteAt(m, e, v)
    {
      PteStore(m, o, d, vp, 0, e, v);
      assert e in o';
    }
    forall g
      ensures g in frames <==> g in [f] + free || g in o' || g in transit
    {
      assert g in [f] + free <==> g == f || g in free;
    }
    assert forall g :: g in transit ==> g in frames;
  }

  /** The owners once user pages lo .. hi-1 of d are gone. */
  function Shrunk(o: Owner, d: nat, lo: nat, hi: nat): (r: Owner) {
    map f | f in o && !(o[f].User? && o[f].d == d && lo <= o[f].vp < hi) :: o[f]
  }

  lemma ShrunkNone(o: Owner, d: nat, lo: nat, hi: nat)
    ensures Shrunk(o, d, lo, lo) == o
    ensures lo >= hi ==> Shrunk(o, d, lo, hi) == o
  {
  }

  lemma ShrunkMore(m: Memory, o: Owner, d: nat, lo: nat, a: nat)
    requires Tables(m, o) && d in o && o[d] == Dir && lo <= a < KPAGE && d < |m| && Present(PteAt(m, d, a))
    ensures Shrunk(o, d, lo, a) - {Frame(PteAt(m, d, a))} == Shrunk(o, d, lo, a + 1)
  {
    assert PteOk(m, o, d, a);
    forall g | g in o && o[g] == User(d, a)
      ensures g == Frame(PteAt(m, d, a))
    {
      assert RoleOk(m, o, g, o[g]);
    }
  }

  lemma ShrunkSame(m: Memory, o: Owner, d: nat, lo: nat, a: nat, b: nat)
    requires Tables(m, o) && d in o && o[d] == Dir && lo <= a && b <= KPAGE && d < |m|
    requires forall v :: a <= v < b ==> !Present(PteAt(m, d, v))
    ensures forall c :: a <= c <= b ==> Shrunk(o, d, lo, c) == Shrunk(o, d, lo, a)
  {
    forall c | a <= c <= b
      ensures Shrunk(o, d, lo, c) == Shrunk(o, d, lo, a)
    {
      forall g | g in o && o[g].User? && o[g].d == d
        ensures !(a <= o[g].vp < c)
      {
        assert RoleOk(m, o, g, o[g]);
      }
    }
  }

  lemma NoTable(m: Memory, d: nat, a: nat)
    requires d < |m| && a < KPAGE && !Present(m[d][Pdx(a)])
    ensures 1024 * (Pdx(a) + 1) <= KPAGE
    ensures forall v :: a <= v < 1024 * (Pdx(a) + 1) ==> PteAt(m, d, v) == 0
  {
    forall v | a <= v < 1024 * (Pdx(a) + 1)
      ensures PteAt(m, d, v) == 0
    {
      assert Pdx(v) == Pdx(a);
    }
  }

  lemma HasTable(m: Memory, d: nat, vp: nat)
    requires d < |m| && vp < VPAGES && Present(PteAt(m, d, vp))
    ensures Present(m[d][Pdx(vp)])
  {
  }

  lemma NoEntry(m: Memory, d: nat, a: nat)
    requires d < |m| && a < VPAGES && !Present(m[d][Pdx(a)])
    ensures PteAt(m, d, a) == 0
  {
  }

  lemma TableEntry(m: Memory, o: Owner, free: seq<nat>, transit: set<nat>, frames: set<nat>, d: nat, a: nat)
    requires Conserved(m, o, free, transit, frames) && d in o && o[d] == Dir && d < |m| && a < VPAGES && Present(m[d][Pdx(a)])
    ensures Frame(m[d][Pdx(a)]) < |m| && PteAt(m, d, a) == m[Frame(m[d][Pdx(a)])][Ptx(a)]
  {
    assert PdeOk(m, o, d, Pdx(a));
  }

  /** The directory and the tables from slot i on. */
  function Left(o: Owner, d: nat, i: nat): (r: set<nat>) {
    set f | f in o && ((o[f] == Dir && f == d) || (o[f].Table? && o[f].d == d && o[f].i >= i))
  }

  lemma LeftStep(m: Memory, o: Owner, d: nat, i: nat)
    requires Tables(m, o) && d in o && o[d] == Dir && i < 1024 && d < |m|
    ensures Present(m[d][i]) ==> Frame(m[d][i]) in Left(o, d, i) && Frame(m[d][i]) != d && Frame(m[d][i]) in o
    ensures Left(o, d, i + 1) == if Present(m[d][i]) then Left(o, d, i) - {Frame(m[d][i])} else Left(o, d, i)
  {
    assert PdeOk(m, o, d, i);
    forall f | f in o && o[f] == Table(d, i)
      ensures Present(m[d][i]) && f == Frame(m[d][i])
    {
      assert RoleOk(m, o, f, o[f]);
    }
  }

  lemma LeftLast(m: Memory, o: Owner, d: nat)
    requires Tables(m, o) && d in o && o[d] == Dir
    ensures Left(o, d, 1024) == {d}
  {
    forall f | f in o && o[f].Table?
      ensures o[f].i < 1024
    {
      assert RoleOk(m, o, f, o[f]);
    }
  }

  /** After all user pages are gone, the whole directory can leave at once. */
  lemma Detached(m0: Memory, o0: Owner, m1: Memory, o1: Owner, free: seq<nat>, transit: set<nat>, frames: set<nat>, d: nat)
    requires Tables(m0, o0) && Conserved(m1, o1, free, transit, frames) && KeepsOthers(m0, o0, m1, o1, d)
    requires d in o0 && o0[d] == Dir && o1 == Shrunk(o0, d, 0, KPAGE)
    ensures Tables(m1, o1) && d in o1 && o1[d] == Dir && d < |m1|
    ensures Without(o1, d) == Without(o0, d) && d !in Without(o1, d)
    ensures forall f :: f in o1 ==> f !in transit
    ensures Conserved(m1, Without(o1, d), free, transit + Left(o1, d, 0), frames)
    ensures KeepsOthers(m0, o0, m1, Without(o1, d), d)
  {
    Detach(m1, o1, d);
    forall f | f in o0 && o0[f].User?
      ensures o0[f].vp < KPAGE
    {
      assert RoleOk(m0, o0, f, o0[f]);
    }
    assert forall f :: f in o1 ==> (Of(o1[f], f, d) <==> f in Left(o1, d, 0));
  }

  /** A frame of d that is no longer needed goes to the free list. */
  lemma FreeFrame(m0: Memory, o0: Owner, m: Memory, o: Owner, free: seq<nat>, kept: set<nat>, transit: set<nat>,
                  frames: set<nat>, d: nat, f: nat)
    requires Conserved(m, o, free, transit, frames) && KeepsOthers(m0, o0, m, o, d) && f in transit && f !in kept
    requires d !in o
    ensures f in frames && f < |m| && Conserved(m[f := Freed(free)], o, [f] + free, transit - {f}, frames)
    ensures KeepsOthers(m0, o0, m[f := Freed(free)], o, d)
  {
    FreeConserved(m, o, free, transit, frames, f);
    var m' := m[f := Freed(free)];
    forall e, vp | e in o0 && o0[e] == Dir && e != d && e < |m0| && 0 <= vp < VPAGES
      ensures PteAt(m', e, vp) == PteAt(m0, e, vp)
    {
      assert e in o && o[e] == Dir;
    }
  }

  lemma FreeSet(m0: Memory, o0: Owner, free0: seq<nat>, m: Memory, o: Owner, free: seq<nat>, transit: set<nat>,
                frames: set<nat>, d: nat)
    requires Conserved(m0, o0, free0, transit, frames) && Conserved(m, o, free, transit, frames) && o == Without(o0, d)
    ensures forall f :: f in free <==> f in free0 || f in Belongs(o0, d)
  {
    forall f
      ensures f in free <==> f in free0 || f in Belongs(o0, d)
    {
      assert f in frames <==> f in free0 || f in o0 || f in transit;
      assert f in frames <==> f in free || f in o || f in transit;
    }
  }

  lemma FreeSetSame(m0: Memory, o0: Owner, free0: seq<nat>, m: Memory, o: Owner, free: seq<nat>, transit: set<nat>,
                    frames: set<nat>)
    requires Conserved(m0, o0, free0, transit, frames) && Conserved(m, o, free, transit, frames) && o == o0
    ensures forall f :: f in free <==> f in free0
  {
    forall f
      ensures f in free <==> f in free0
    {
      assert f in frames <==> f in free0 || f in o0 || f in transit;
      assert f in frames <==> f in free || f in o || f in transit;
    }
  }

  // ----- the kernel part of an address space

  const KERNLINK := 0x8_0100
  const KERNTOP := 0x8_E000      // KERNBASE + PHYSTOP
  const DEVSPACE := 0xF_E000

  /** kmap[k]: first page, number of pages, first frame, permissions. */
  function Kmap(data: nat, k: nat): (r: (nat, nat, nat, nat))
    requires KERNLINK < data < KERNTOP && k < 4
    ensures KPAGE <= r.0 && 0 < r.1 && r.0 + r.1 <= VPAGES && r.2 + r.1 <= 0x10_0000 && r.3 < 4096
  {
    if k == 0 then (KPAGE, 0x100, 0, 2)
    else if k == 1 then (KERNLINK, data - KERNLINK, 0x100, 0)
    else if k == 2 then (data, KERNTOP - data, data - KPAGE, 2)
    else (DEVSPACE, 0x2000, DEVSPACE, 2)
  }

  /** The entry for page v once the first k rows of kmap are mapped. */
  function KernelPte(data: nat, v: nat, k: nat): Word
    requires KERNLINK < data < KERNTOP && k <= 4
  {
    if k == 0 then 0
    else
      var (virt, count, phys, perm) := Kmap(data, k - 1);
      if virt <= v < virt + count then MakePte(phys + (v - virt), perm) else KernelPte(data, v, k - 1)
  }

  /** The kernel's part of every address space, page by page: I/O space, then the kernel's text
      read-only, then its data and free memory, all at KERNBASE above their physical addresses,
      and devices where they are; user mode has no access, and nothing else is mapped. */
  lemma KernelLayout(data: nat, v: nat)
    requires KERNLINK < data < KERNTOP && v < VPAGES
    ensures var w := KernelPte(data, v, 4);
            if 0x8_0000 <= v < 0x8_0100 then Frame(w) == v - 0x8_0000 && Flags(w) == 3
            else if 0x8_0100 <= v < data then Frame(w) == v - 0x8_0000 && Flags(w) == 1
            else if data <= v < 0x8_E000 then Frame(w) == v - 0x8_0000 && Flags(w) == 3
            else if 0xF_E000 <= v then Frame(w) == v && Flags(w) == 3
            else !Present(w)
  {
    assert KernelPte(data, v, 0) == 0;
    assert KernelPte(data, v, 1) == if 0x8_0000 <= v < 0x8_0100 then MakePte(v - 0x8_0000, 2) else 0;
    assert KernelPte(data, v, 2) == if 0x8_0100 <= v < data then MakePte(v - 0x8_0000, 0) else KernelPte(data, v, 1);
    assert KernelPte(data, v, 3) == if data <= v < 0x8_E000 then MakePte(v - 0x8_0000, 2) else KernelPte(data, v, 2);
  }

  lemma KernelDisjoint(data: nat, k: nat)
    requires KERNLINK < data < KERNTOP && k < 4
    ensures var (virt, count, phys, perm) := Kmap(data, k);
            forall v :: virt <= v < virt + count ==> KernelPte(data, v, k) == 0
  {
    var (virt, count, phys, perm) := Kmap(data, k);
    forall v | virt <= v < virt + count
      ensures KernelPte(data, v, k) == 0
    {
      KernelBelow(data, v, k);
    }
  }

  lemma {:induction false} KernelBelow(data: nat, v: nat, k: nat)
    requires KERNLINK < data < KERNTOP && k <= 4
    requires forall j :: 0 <= j < k ==> v >= Kmap(data, j).0 + Kmap(data, j).1
    ensures KernelPte(data, v, k) == 0
  {
    if k > 0 { KernelBelow(data, v, k - 1); }
  }

  lemma KernelNext(data: nat, v: nat, k: nat)
    requires KERNLINK < data < KERNTOP && k < 4
    ensures var (virt, count, phys, perm) := Kmap(data, k);
            KernelPte(data, v, k + 1) ==
            (if virt <= v <= virt + count - 1 then MakePte(phys + (v - virt), perm) else KernelPte(data, v, k))
  {
  }

  lemma EmptyKernel(m: Memory, d: nat, data: nat)
    requires d < |m| && m[d] == Fill(0) && KERNLINK < data < KERNTOP
    ensures forall v :: 0 <= v < VPAGES ==> PteAt(m, d, v) == KernelPte(data, v, 0)
  {
  }

  lemma TableOwned(m: Memory, o: Owner, free: seq<nat>, transit: set<nat>, frames: set<nat>, d: nat, i: nat)
    requires Conserved(m, o, free, transit, frames) && d in o && o[d] == Dir && d < |m| && i < 1024 && Present(m[d][i])
    ensures Frame(m[d][i]) in o && o[Frame(m[d][i])] == Table(d, i) && Flags(m[d][i]) == 7
  {
    assert PdeOk(m, o, d, i);
  }

  /** walkpgdir's new table. */
  lemma TableMade(m: Memory, o: Owner, free: seq<nat>, transit: set<nat>, frames: set<nat>, d: nat, i: nat, t: nat, pde: Word)
    requires Conserved(m, o, free, transit + {t}, frames) && t !in o && t !in transit
    requires d in o && o[d] == Dir && d < |m| && i < 1024 && !Present(m[d][i]) && Present(pde) && Frame(pde) == t && Flags(pde) == 7
    ensures t < |m| && t != d
    ensures var m1 := m[t := Fill(0)];
            var m', o' := m1[d := m1[d][i := pde]], o[t := Table(d, i)];
            && Conserved(m', o', free, transit, frames) && KeepsOthers(m, o, m', o', d)
            && (forall v :: 0 <= v < VPAGES ==> PteAt(m', d, v) == PteAt(m, d, v))
            && (forall g :: g in transit ==> g < |m| && m'[g] == m[g])
  {
    TouchConserved(m, o, free, transit + {t}, frames, t, Fill(0));
    NewTable(m[t := Fill(0)], o, d, i, t, pde);
    ChainedFrame(m[t := Fill(0)], m[t := Fill(0)][d := m[t := Fill(0)][d][i := pde]], free);
    assert forall g :: g in transit ==> g in frames;
  }

  lemma DirMade(m: Memory, o: Owner, free: seq<nat>, transit: set<nat>, frames: set<nat>, d: nat)
    requires Conserved(m, o, free, transit + {d}, frames) && d !in o && d !in transit
    ensures d < |m| && Conserved(m[d := Fill(0)], o[d := Dir], free, transit, frames)
    ensures KeepsOthers(m, o, m[d := Fill(0)], o[d := Dir], d)
    ensures forall g :: g in transit ==> g < |m| && g != d
  {
    TouchConserved(m, o, free, transit + {d}, frames, d, Fill(0));
    NewDir(m[d := Fill(0)], o, d);
    assert forall g :: g in transit ==> g in frames;
  }

  /** Dropping all of d's frames undoes what was added for d. */
  lemma GoneAgain(m0: Memory, o0: Owner, o: Owner, d: nat)
    requires forall f :: f in o0 ==> f in o && o[f] == o0[f]
    requires forall f :: f in o && f !in o0 ==> Of(o[f], f, d)
    requires Tables(m0, o0) && d !in o0
    ensures Without(o, d) == o0
  {
    forall f | f in o0
      ensures !Of(o0[f], f, d)
    {
      assert RoleOk(m0, o0, f, o0[f]);
    }
  }

  // ----- growing and copying

  /** Page v of d is a writable user page on a zeroed frame that was not owned before. */
  ghost predicate FreshPage(m: Memory, o0: Owner, d: nat, v: nat)
    requires d < |m|
  {
    v < VPAGES &&
    var w := PteAt(m, d, v);
    Present(w) && Flags(w) == 7 && Frame(w) < |m| && m[Frame(w)] == Fill(0) && Frame(w) !in o0
  }

  /** The holder of a frame in transit fills it. */
  lemma ZeroPage(m: Memory, o: Owner, free: seq<nat>, transit: set<nat>, frames: set<nat>, d: nat, f: nat, page: Page)
    requires Conserved(m, o, free, transit + {f}, frames) && f !in o
    ensures f < |m| && Conserved(m[f := page], o, free, transit + {f}, frames)
    ensures KeepsOthers(m, o, m[f := page], o, d)
    ensures forall e, vp :: e in o && o[e] == Dir && 0 <= vp < VPAGES ==> PteAt(m[f := page], e, vp) == PteAt(m, e, vp)
    ensures forall e, vp :: e in o && o[e] == Dir && 0 <= vp < KPAGE ==>
              Present(PteAt(m, e, vp)) ==> Frame(PteAt(m, e, vp)) != f && Frame(PteAt(m, e, vp)) < |m|
    ensures forall g :: g in transit && g != f ==> g < |m| && m[f := page][g] == m[g]
  {
    TouchConserved(m, o, free, transit + {f}, frames, f, page);
    forall e, vp | e in o && o[e] == Dir && 0 <= vp < KPAGE && Present(PteAt(m, e, vp))
      ensures Frame(PteAt(m, e, vp)) != f && Frame(PteAt(m, e, vp)) < |m|
    {
      assert PteOk(m, o, e, vp);
    }
  }

  /** Mapping one more fresh page leaves the earlier ones fresh. */
  lemma StillFresh(m1: Memory, m3: Memory, o0: Owner, o1: Owner, o3: Owner, d: nat, lo: nat, a: nat, f: nat)
    requires Tables(m1, o1) && d in o1 && o1[d] == Dir && d < |m1| && lo <= a < KPAGE
    requires f < |m1| && f !in o1 && KeepsOthers(m1, o1, m3, o3, d) && m3[f] == Fill(0)
    requires forall g :: g in o0 ==> g in o1
    requires forall g :: g in o1 ==> g in o3 && o3[g] == o1[g]
    requires forall v :: 0 <= v < VPAGES ==> PteAt(m3, d, v) == if v == a then MakePte(f, 6) else PteAt(m1, d, v)
    requires forall v :: lo <= v < a && v < VPAGES ==> FreshPage(m1, o0, d, v)
    ensures forall v :: lo <= v < a + 1 && v < VPAGES ==> FreshPage(m3, o0, d, v)
  {
    hide PteAt, RoleOk, PdeOk;
    forall v | lo <= v < a + 1 && v < VPAGES
      ensures FreshPage(m3, o0, d, v)
    {
      if v < a {
        assert FreshPage(m1, o0, d, v);
        assert PteOk(m1, o1, d, v);
      }
    }
  }

  lemma FreeOther(m0: Memory, o0: Owner, m: Memory, o: Owner, free: seq<nat>, transit: set<nat>, frames: set<nat>,
                  d: nat, f: nat)
    requires Conserved(m, o, free, transit + {f}, frames) && KeepsOthers(m0, o0, m, o, d) && f !in transit
    requires d in o && o[d] == Dir
    ensures f in frames && f < |m| && Conserved(m[f := Freed(free)], o, [f] + free, transit, frames)
    ensures KeepsOthers(m0, o0, m[f := Freed(free)], o, d)
    ensures forall vp :: 0 <= vp < VPAGES ==> PteAt(m[f := Freed(free)], d, vp) == PteAt(m, d, vp)
    ensures forall g :: g in transit ==> g < |m| && g != f
  {
    FreeConserved(m, o, free, transit + {f}, frames, f);
    assert transit + {f} - {f} == transit;
    var m' := m[f := Freed(free)];
    forall e, vp | e in o0 && o0[e] == Dir && e != d && e < |m0| && 0 <= vp < VPAGES
      ensures PteAt(m', e, vp) == PteAt(m0, e, vp)
    {
      assert e in o && o[e] == Dir;
    }
    assert forall g :: g in transit ==> g in frames;
  }

  /** Page v of the copy: present with the same flags and bytes as the original's, on a frame
      nobody owned before. */
  ghost predicate CopiedPage(m0: Memory, o0: Owner, m: Memory, d: nat, e: nat, v: nat)
    requires d < |m0| && e < |m|
  {
    v < VPAGES &&
    var w, x := PteAt(m0, d, v), PteAt(m, e, v);
    && Present(w) && Present(x) && Flags(x) == Flags(w)
    && Frame(w) < |m0| && Frame(x) < |m| && m[Frame(x)] == m0[Frame(w)] && Frame(x) !in o0
  }

  /** Mapping page a of the copy leaves the earlier pages copied. */
  lemma StillCopied(m0: Memory, o0: Owner, m1: Memory, o1: Owner, m3: Memory, o3: Owner, d: nat, e: nat, a: nat, f: nat)
    requires d < |m0| && Tables(m1, o1) && e in o1 && o1[e] == Dir && e < |m1| && a < KPAGE && |m1| <= 0x10_0000
    requires Present(PteAt(m0, d, a)) && Frame(PteAt(m0, d, a)) < |m0|
    requires f < |m1| && f !in o1 && KeepsOthers(m1, o1, m3, o3, e) && m3[f] == m0[Frame(PteAt(m0, d, a))]
    requires forall g :: g in o0 ==> g in o1
    requires forall g :: g in o1 ==> g in o3 && o3[g] == o1[g]
    requires forall v :: 0 <= v < VPAGES ==>
               PteAt(m3, e, v) == if v == a then MakePte(f, Flags(PteAt(m0, d, a))) else PteAt(m1, e, v)
    requires forall v :: 0 <= v < a ==> CopiedPage(m0, o0, m1, d, e, v)
    ensures forall v :: 0 <= v < a + 1 ==> CopiedPage(m0, o0, m3, d, e, v)
  {
    hide PteAt, RoleOk, PdeOk;
    forall v | 0 <= v < a + 1
      ensures CopiedPage(m0, o0, m3, d, e, v)
    {
      if v < a {
        assert CopiedPage(m0, o0, m1, d, e, v);
        assert PteOk(m1, o1, e, v);
      }
    }
  }

  /** While the copy is made the original keeps its entries and its bytes. */
  lemma SourcePage(m0: Memory, o0: Owner, m: Memory, o: Owner, d: nat, e: nat, a: nat)
    requires Tables(m0, o0) && KeepsOthers(m0, o0, m, o, e) && d in o0 && o0[d] == Dir && e != d && e !in o0
    requires a < KPAGE && forall g :: g in o0 ==> g in o && o[g] == o0[g]
    ensures d < |m0| && d < |m| && PteAt(m, d, a) == PteAt(m0, d, a)
    ensures Present(PteAt(m0, d, a)) ==> Frame(PteAt(m0, d, a)) < |m0| && m[Frame(PteAt(m0, d, a))] == m0[Frame(PteAt(m0, d, a))]
  {
    assert PteOk(m0, o0, d, a);
  }

  lemma KernelAdded(m: Memory, o0: Owner, o: Owner, d: nat, data: nat, k: nat, virt: nat)
    requires Tables(m, o) && d < |m| && KERNLINK < data < KERNTOP && k <= 4 && virt >= KPAGE
    requires forall v :: 0 <= v < virt && v < VPAGES ==> PteAt(m, d, v) == KernelPte(data, v, k)
    requires forall g :: g in o && g !in o0 ==> Of(o[g], g, d)
    ensures Added(o0, o, d, 0)
  {
    forall v | 0 <= v < KPAGE
      ensures !Present(PteAt(m, d, v))
    {
      NoUserKernel(data, v, k);
    }
    AddedFresh(m, o0, o, d, 0);
  }

  lemma CopyAdded(m: Memory, o0: Owner, o: Owner, e: nat, data: nat, i: nat)
    requires Tables(m, o) && e < |m| && KERNLINK < data < KERNTOP
    requires forall v :: i <= v < VPAGES ==> PteAt(m, e, v) == KernelPte(data, v, 4)
    requires forall g :: g in o && g !in o0 ==> Of(o[g], g, e)
    ensures Added(o0, o, e, i)
  {
    forall v | i <= v < KPAGE
      ensures !Present(PteAt(m, e, v))
    {
      NoUserKernel(data, v, 4);
    }
    AddedFresh(m, o0, o, e, i);
  }

  lemma NoUserKernel(data: nat, v: nat, k: nat)
    requires KERNLINK < data < KERNTOP && k <= 4 && v < KPAGE
    ensures KernelPte(data, v, k) == 0
  {
  }

  /** What user code of d sees at page v. */
  datatype UserPage = Absent | Visible(flags: nat, bytes: Page)

  function View(m: Memory, d: nat, v: nat): UserPage
    requires d < |m| && v < VPAGES
  {
    var w := PteAt(m, d, v);
    if Present(w) && Frame(w) < |m| then Visible(Flags(w), m[Frame(w)]) else Absent
  }

  /** A store through one address space's page is invisible to every other address space, and
      to every other page of its own. */
  lemma Isolated(m: Memory, o: Owner, d: nat, v: nat, page: Page, e: nat, u: nat)
    requires Tables(m, o) && d in o && o[d] == Dir && e in o && o[e] == Dir && v < KPAGE && u < KPAGE
    requires Present(PteAt(m, d, v))
    ensures var f := Frame(PteAt(m, d, v));
            && f < |m| && Tables(m[f := page], o)
            && View(m[f := page], e, u) ==
               if e == d && u == v then Visible(Flags(PteAt(m, d, v)), page) else View(m, e, u)
  {
    assert PteOk(m, o, d, v) && PteOk(m, o, e, u);
    TablesFrame(m, m[Frame(PteAt(m, d, v)) := page], o);
  }

  // ----- running out of memory

  lemma Pigeonhole(ks: seq<nat>, n: nat)
    requires NoDup(ks) && forall k :: 0 <= k < |ks| ==> ks[k] < n
    ensures |ks| <= n
  {
    DistinctCount(ks);
    FewBelow(Elements(ks), n);
  }

  /** Numbers the roles a directory's frames can have. */
  function Key(r: Role): nat {
    match r
    case Dir => 0
    case Table(_, i) => 1 + i
    case User(_, v) => 1025 + v
  }

  lemma KeysDiffer(m: Memory, o: Owner, e: nat, f: nat, g: nat)
    requires Tables(m, o) && f in o && g in o && Of(o[f], f, e) && Of(o[g], g, e) && Key(o[f]) == Key(o[g])
    ensures f == g
  {
    assert RoleOk(m, o, f, o[f]) && RoleOk(m, o, g, o[g]);
  }

  /** The frames of e added since o0 are its directory, tables, and pages below `pages`. */
  ghost predicate Added(o0: Owner, o: Owner, e: nat, pages: nat) {
    forall g :: g in o && g !in o0 ==> Of(o[g], g, e) && Key(o[g]) < 1025 + pages
  }

  /** When the free list has run dry, it was no longer than what the address space e can
      have taken from it. */
  lemma AllTaken(m0: Memory, o0: Owner, free0: seq<nat>, m: Memory, o: Owner, transit: set<nat>, held: set<nat>,
                 frames: set<nat>, e: nat, pages: nat, x: nat)
    requires Conserved(m0, o0, free0, transit, frames) && Conserved(m, o, [], held, frames)
    requires held == transit || held == transit + {x}
    requires Added(o0, o, e, pages)
    ensures |free0| <= 1026 + pages
  {
    var keys := seq(|free0|, k requires 0 <= k < |free0| => if free0[k] in o then Key(o[free0[k]]) else 1025 + pages);
    forall k | 0 <= k < |free0|
      ensures free0[k] in o || free0[k] == x
      ensures free0[k] in o ==> Of(o[free0[k]], free0[k], e) && Key(o[free0[k]]) < 1025 + pages
    {
      assert free0[k] in free0 && free0[k] in frames;
    }
    assert Tables(m, o);
    hide Conserved, Tables, Key, Of;
    forall j, k | 0 <= j < k < |free0|
      ensures keys[j] != keys[k]
    {
      assert free0[j] != free0[k];
      if keys[j] == keys[k] && free0[j] in o && free0[k] in o { KeysDiffer(m, o, e, free0[j], free0[k]); }
    }
    Pigeonhole(keys, 1026 + pages);
  }

  lemma AddedFresh(m: Memory, o0: Owner, o: Owner, e: nat, pages: nat)
    requires Tables(m, o) && e < |m| && forall g :: g in o && g !in o0 ==> Of(o[g], g, e)
    requires forall v :: pages <= v < KPAGE ==> !Present(PteAt(m, e, v))
    ensures Added(o0, o, e, pages)
  {
    forall g | g in o && g !in o0
      ensures Key(o[g]) < 1025 + pages
    {
      assert RoleOk(m, o, g, o[g]);
    }
  }

  lemma AddedGrown(m0: Memory, o0: Owner, m: Memory, o: Owner, d: nat, pages: nat)
    requires Tables(m0, o0) && Tables(m, o) && d in o0 && o0[d] == Dir && d < |m0| == |m|
    requires forall g :: g in o && g !in o0 ==> Of(o[g], g, d)
    requires forall v :: pages <= v < KPAGE ==> PteAt(m, d, v) == PteAt(m0, d, v)
    ensures Added(o0, o, d, pages)
  {
    forall g | g in o && g !in o0
      ensures Key(o[g]) < 1025 + pages
    {
      assert RoleOk(m, o, g, o[g]);
      if o[g].User? { assert PteOk(m0, o0, d, o[g].vp); }
    }
  }

  lemma GrownDry(m0: Memory, o0: Owner, free0: seq<nat>, m: Memory, o: Owner, transit: set<nat>, held: set<nat>,
                 frames: set<nat>, d: nat, pages: nat, x: nat)
    requires Conserved(m0, o0, free0, transit, frames) && Conserved(m, o, [], held, frames)
    requires held == transit || held == transit + {x}
    requires d in o0 && o0[d] == Dir && d < |m0| == |m| && forall g :: g in o && g !in o0 ==> Of(o[g], g, d)
    requires forall v :: pages <= v < KPAGE ==> PteAt(m, d, v) == PteAt(m0, d, v)
    ensures |free0| <= 1026 + pages
  {
    AddedGrown(m0, o0, m, o, d, pages);
    AllTaken(m0, o0, free0, m, o, transit, held, frames, d, pages, x);
  }

  /** Tables of d belong to d. */
  lemma TablesOf(o: Owner, o0: Owner, d: nat)
    requires forall g :: g in o && g !in o0 ==> o[g].Table? && o[g].d == d
    ensures forall g :: g in o && g !in o0 ==> Of(o[g], g, d)
  {
  }

  predicate Within(f: nat, lo: nat, hi: nat) { lo <= f < hi }

  datatype MapResult = Mapped | NoMemory | Remap

  datatype CopyResult = Copied | OutOfMemory | Panic

  function PageOf(pa: nat): (f: nat)
    ensures 4096 * f <= pa < 4096 * f + 4096
  {
    pa / 4096
  }

  /** mappages has taken m0, o0 to m, o by mapping pages a0 .. a-1. */
  ghost predicate Mapping(m0: Memory, o0: Owner, m: Memory, o: Owner, d: nat, a0: nat, a: nat, pf0: nat, perm: nat, transit: set<nat>)
    requires d < |m0| && perm < 4096 && a0 <= a <= VPAGES && pf0 + (a - a0) <= 0x10_0000
  {
    && |m| == |m0| && d in o && o[d] == Dir && KeepsOthers(m0, o0, m, o, d)
    && (forall f :: f in o0 ==> f < |m0|)
    && (forall v :: 0 <= v < VPAGES ==>
          PteAt(m, d, v) == if a0 <= v < a then MakePte(pf0 + (v - a0), perm) else PteAt(m0, d, v))
    && (forall v :: a0 <= v < a ==> !Present(PteAt(m0, d, v)))
    && (forall g :: g in o0 ==> g in o && o[g] == o0[g])
    && (forall g :: g in o && g !in o0 ==>
          (o[g].Table? && o[g].d == d) || (g in Taken(pf0, a0, a) && o[g] == User(d, a0 + (g - pf0))))
    && (forall g :: g in Taken(pf0, a0, a) ==> g in o && o[g] == User(d, a0 + (g - pf0)))
    && (forall g :: g in transit ==> g < |m| && m[g] == m0[g])
  }

  lemma MappingStart(m: Memory, o: Owner, d: nat, a0: nat, pf0: nat, perm: nat, free: seq<nat>, transit: set<nat>, frames: set<nat>)
    requires Conserved(m, o, free, transit, frames) && d in o && o[d] == Dir && d < |m| && perm < 4096 && a0 <= VPAGES && pf0 <= 0x10_0000
    ensures Mapping(m, o, m, o, d, a0, a0, pf0, perm, transit)
  {
    hide PteAt, KeepsOthers, Conserved, MakePte, Tables;
    OwnedBound(m, o, free, transit, frames);
    KeepsSelf(m, o, d);
  }

  lemma MappingFacts(m0: Memory, o0: Owner, m: Memory, o: Owner, d: nat, a0: nat, a: nat, pf0: nat, perm: nat, transit: set<nat>)
    requires d < |m0| && perm < 4096 && a0 <= a <= VPAGES && pf0 + (a - a0) <= 0x10_0000
    requires Mapping(m0, o0, m, o, d, a0, a, pf0, perm, transit)
    ensures |m| == |m0| && d in o && o[d] == Dir && KeepsOthers(m0, o0, m, o, d) && (forall f :: f in o0 ==> f < |m0|)
    ensures forall v :: 0 <= v < VPAGES ==>
              PteAt(m, d, v) == if a0 <= v < a then MakePte(pf0 + (v - a0), perm) else PteAt(m0, d, v)
    ensures forall v :: a0 <= v < a ==> !Present(PteAt(m0, d, v))
    ensures forall g :: g in o0 ==> g in o && o[g] == o0[g]
    ensures forall g :: g in o && g !in o0 ==>
              (o[g].Table? && o[g].d == d) || (g in Taken(pf0, a0, a) && o[g] == User(d, a0 + (g - pf0)))
    ensures forall g :: g in Taken(pf0, a0, a) ==> g in o && o[g] == User(d, a0 + (g - pf0))
    ensures forall g :: g in transit ==> g < |m| && m[g] == m0[g]
  {
    hide PteAt, KeepsOthers, MakePte, Taken;
  }

  /** What one more page adds: its table, perhaps, and its frame. */
  lemma MappingMore(m0: Memory, o0: Owner, m1: Memory, o1: Owner, m: Memory, o: Owner, d: nat, a0: nat, a: nat,
                    pf0: nat, pf: nat, perm: nat, transit: set<nat>)
    requires d < |m0| && perm < 4096 && a0 <= a < VPAGES && pf == pf0 + (a - a0) < 0x10_0000 && Taken(pf0, a0, a + 1) <= transit
    requires Mapping(m0, o0, m1, o1, d, a0, a, pf0, perm, transit) && KeepsOthers(m1, o1, m, o, d) && d in o && o[d] == Dir
    requires !Present(PteAt(m1, d, a))
    requires forall v :: 0 <= v < VPAGES ==> PteAt(m, d, v) == if v == a then MakePte(pf, perm) else PteAt(m1, d, v)
    requires forall g :: g in o1 ==> g in o && o[g] == o1[g]
    requires forall g :: g in o && g !in o1 ==> (o[g].Table? && o[g].d == d) || (a < KPAGE && g == pf && o[g] == User(d, a))
    requires a < KPAGE ==> pf in o && o[pf] == User(d, a)
    requires forall g :: g in transit - Taken(pf0, a0, a) ==> g < |m| && m[g] == m1[g]
    ensures Mapping(m0, o0, m, o, d, a0, a + 1, pf0, perm, transit)
  {
    hide PteAt, KeepsOthers, MakePte, Taken;
    TakenNext(pf0, a0, a, pf, transit);
    KeepsTrans(m0, o0, m1, o1, m, o, d);
    UserPages(m1, o1, m, o, d);
  }

  lemma MappingSame(m0: Memory, o0: Owner, m1: Memory, o1: Owner, m: Memory, o: Owner, d: nat, a0: nat, a: nat,
                    pf0: nat, perm: nat, transit: set<nat>)
    requires d < |m0| && perm < 4096 && a0 <= a < VPAGES && pf0 + (a - a0) < 0x10_0000
    requires Mapping(m0, o0, m1, o1, d, a0, a, pf0, perm, transit) && KeepsOthers(m1, o1, m, o, d) && d in o && o[d] == Dir
    requires forall v :: 0 <= v < VPAGES ==> PteAt(m, d, v) == PteAt(m1, d, v)
    requires forall g :: g in o1 ==> g in o && o[g] == o1[g]
    requires forall g :: g in o && g !in o1 ==> o[g].Table? && o[g].d == d
    requires forall g :: g in transit - Taken(pf0, a0, a) ==> g < |m| && m[g] == m1[g]
    ensures Mapping(m0, o0, m, o, d, a0, a, pf0, perm, transit)
  {
    hide PteAt, KeepsOthers, MakePte, Taken;
    KeepsTrans(m0, o0, m1, o1, m, o, d);
    UserPages(m1, o1, m, o, d);
  }

  class Machine {
    const frames: set<nat>
    const end: nat               // first address after the kernel
    const phystop: nat           // PHYSTOP
    var mem: Memory
    var freelist: nat            // kmem.freelist, a physical address or 0
    ghost var free: seq<nat>     // the frames on it, head first
    ghost var owner: Owner

    ghost predicate Ok(transit: set<nat>)
      reads this
    {
      && Conserved(mem, owner, free, transit, frames) && freelist == Link(free)
      && phystop <= 4096 * |mem|
      && (forall f :: f in frames ==> Managed(f))
    }

    /** A whole page between the end of the kernel and the end of memory. */
    predicate Managed(f: nat)
    {
      0 < end <= 4096 * f < phystop
    }

    /** freerange over all of free memory: its whole pages start out free. */
    constructor (m: Memory, vstart: nat, vend: nat)
      requires 0 < vstart && vend <= 4096 * |m| && |m| <= 0x10_0000
      ensures Ok({}) && |mem| == |m| && owner == map[] && end == vstart && phystop == vend
      ensures forall f :: f in free <==> vstart <= 4096 * f && 4096 * f + 4096 <= vend
    {
      var lo := PgUp(vstart);
      var hi := if vend < 4096 then 0 else PgUp(vend - 4095);
      end, phystop := vstart, vend;
      frames := set f: nat | f < hi && Within(f, lo, hi);
      mem, free, owner, freelist := m, [], map[], 0;
      new;
      hide FreeFrom;
      FreeNone(mem, lo);
      var p := lo;
      while 4096 * p + 4096 <= vend
        invariant lo <= p && (p > lo ==> 4096 * p <= vend)
        invariant |mem| == |m| && owner == map[] && freelist == Link(free) && FreeFrom(mem, free, lo, p)
        decreases vend - 4096 * p
      {
        FreeNext(mem, free, lo, p);
        FreeOne(p);
        p := p + 1;
      }
      FreeStart(mem, free, lo, p, frames);
    }

    /** kfree; it panics exactly for an address that is not a page of free memory. */
    method Kfree(pa: nat) returns (ok: bool)
      requires phystop <= 4096 * |mem| && |mem| <= 0x10_0000 && freelist == Link(free)
      modifies this`mem, this`free, this`freelist
      ensures freelist == Link(free)
      ensures ok <==> pa % 4096 == 0 && end <= pa < phystop
      ensures !ok ==> mem == old(mem) && free == old(free)
      ensures ok ==> PageOf(pa) < |mem| == |old(mem)|
      ensures ok ==> mem == old(mem)[PageOf(pa) := Freed(old(free))] && free == [PageOf(pa)] + old(free)
    {
      if pa % 4096 != 0 || pa < end || pa >= phystop { return false; }
      mem := mem[PageOf(pa) := Fill(JUNK)];
      mem := mem[PageOf(pa) := mem[PageOf(pa)][0 := freelist]];
      freelist := pa;
      free := [PageOf(pa)] + free;
      ok := true;
    }

    /** The kfree of a managed frame. */
    method FreeOne(f: nat)
      requires Managed(f) && phystop <= 4096 * |mem| && |mem| <= 0x10_0000 && freelist == Link(free)
      modifies this`mem, this`free, this`freelist
      ensures f < |mem| == |old(mem)| && mem == old(mem)[f := Freed(old(free))] && free == [f] + old(free)
      ensures freelist == Link(free)
    {
      assert PageOf(4096 * f) == f;
      var ok := Kfree(4096 * f);
      assert ok;
    }

    method Kalloc(ghost transit: set<nat>) returns (f: nat, ok: bool)
      requires Ok(transit)
      modifies this`free, this`freelist
      ensures ok <==> old(free) != []
      ensures ok ==> Ok(transit + {f}) && free == old(free)[1..] && f == old(free)[0] && f < |mem| && f in frames
      ensures ok ==> f !in owner && f !in transit
      ensures !ok ==> Ok(transit) && free == old(free)
    {
      HeadOfList(mem, owner, free, transit, frames);
      if freelist == 0 { return 0, false; }
      TakeConserved(mem, owner, free, transit, frames);
      f, ok := freelist / 4096, true;
      freelist := mem[f][0];
      free := free[1..];
    }

    /** The table for page vp of d. With alloc it makes a missing one, unless memory is out;
        no page of any address space changes. */
    method Walkpgdir(d: nat, vp: nat, alloc: bool, ghost transit: set<nat>) returns (t: nat, ok: bool)
      requires Ok(transit) && d in owner && owner[d] == Dir && vp < VPAGES
      modifies this
      ensures Ok(transit) && d in owner && owner[d] == Dir && |mem| == |old(mem)|
      ensures ok ==> Present(mem[d][Pdx(vp)]) && t == Frame(mem[d][Pdx(vp)]) && t in owner && owner[t] == Table(d, Pdx(vp))
      ensures ok ==> Flags(mem[d][Pdx(vp)]) == 7    // present, writable, user: the page's own entry decides
      ensures !ok ==> mem == old(mem) && owner == old(owner) && free == old(free) && !Present(mem[d][Pdx(vp)])
      ensures !ok ==> !alloc || free == []
      ensures !alloc || Present(old(mem)[d][Pdx(vp)]) ==> mem == old(mem) && owner == old(owner) && free == old(free)
      ensures KeepsOthers(old(mem), old(owner), mem, owner, d)
      ensures forall v :: 0 <= v < VPAGES ==> PteAt(mem, d, v) == PteAt(old(mem), d, v)
      ensures forall f :: f in old(owner) ==> f in owner && owner[f] == old(owner)[f]
      ensures forall f :: f in owner && f !in old(owner) ==> owner[f] == Table(d, Pdx(vp))
      ensures forall f :: f in transit ==> mem[f] == old(mem)[f]
    {
      hide PteAt, KeepsOthers, Conserved, Tables, MakePte;
      OwnedBound(mem, owner, free, transit, frames);
      KeepsSelf(mem, owner, d);
      var pde := mem[d][Pdx(vp)];
      if Present(pde) {
        TableOwned(mem, owner, free, transit, frames, d, Pdx(vp));
        return Frame(pde), true;
      }
      if !alloc { return 0, false; }
      t, ok := Kalloc(transit);
      if !ok { return 0, false; }
      pde := MakePte(t, 7);
      TableMade(mem, owner, free, transit, frames, d, Pdx(vp), t, pde);
      mem := mem[t := Fill(0)];
      mem := mem[d := mem[d][Pdx(vp) := pde]];
      owner := owner[t := Table(d, Pdx(vp))];
    }

    /** One round of the loop of mappages. A user page takes a frame out of transit; a kernel
        page claims nothing. */
    method MapOne(d: nat, vp: nat, f: nat, perm: nat, ghost transit: set<nat>) returns (r: MapResult)
      requires Ok(transit) && d in owner && owner[d] == Dir && vp < VPAGES && f < 0x10_0000 && perm < 4096
      requires vp < KPAGE ==> f in transit
      modifies this
      ensures r != Remap ==> Ok(if r == Mapped && vp < KPAGE then transit - {f} else transit)
      ensures r != Remap ==> d in owner && owner[d] == Dir && KeepsOthers(old(mem), old(owner), mem, owner, d)
      ensures |mem| == |old(mem)|
      ensures r == Remap <==> Present(PteAt(old(mem), d, vp))
      ensures r == Remap ==> mem == old(mem) && owner == old(owner) && free == old(free) && Ok(transit)
      ensures r == Mapped ==> forall v :: 0 <= v < VPAGES ==>
                PteAt(mem, d, v) == if v == vp then MakePte(f, perm) else PteAt(old(mem), d, v)
      ensures r == NoMemory ==> free == [] && forall v :: 0 <= v < VPAGES ==> PteAt(mem, d, v) == PteAt(old(mem), d, v)
      ensures forall g :: g in old(owner) ==> g in owner && owner[g] == old(owner)[g]
      ensures forall g :: g in owner && g !in old(owner) ==>
                owner[g] == Table(d, Pdx(vp)) || (r == Mapped && vp < KPAGE && g == f && owner[g] == User(d, vp))
      ensures r == Mapped && vp < KPAGE ==> f in owner && owner[f] == User(d, vp)
      ensures forall g :: g in transit ==> g < |mem| && mem[g] == old(mem)[g]
    {
      hide PteAt, KeepsOthers, Conserved, MakePte, Tables, Pdx, Link, Ptx;
      ghost var m0, o0 := mem, owner;
      OwnedBound(mem, owner, free, transit, frames);
      var t, ok := Walkpgdir(d, vp, true, transit);
      OwnedBound(mem, owner, free, transit, frames);
      if !ok {
        NoEntry(mem, d, vp);
        return NoMemory;
      }
      TableEntry(mem, owner, free, transit, frames, d, vp);
      var pte := mem[t][Ptx(vp)];
      if Present(pte) {
        HasTable(m0, d, vp);
        return Remap;
      }
      var w := MakePte(f, perm);
      ghost var m1, o1 := mem, owner;
      Stored(m1, o1, d, vp, w, free, transit, frames);
      mem := mem[t := mem[t][Ptx(vp) := w]];
      if vp < KPAGE {
        owner := owner[f := User(d, vp)];
      }
      KeepsTrans(m0, o0, m1, o1, mem, owner, d);
      r := Mapped;
    }

    /** mappages over pages a0 .. last, with frames from pf0 on; `upto` is how far it got. User
        pages take their frames out of transit, kernel pages claim nothing. */
    method MapPages(d: nat, a0: nat, last: nat, pf0: nat, perm: nat, ghost transit: set<nat>) returns (r: MapResult, ghost upto: nat)
      requires Ok(transit) && d in owner && owner[d] == Dir && perm < 4096
      requires a0 <= last < VPAGES && pf0 + (last - a0) < 0x10_0000 && Taken(pf0, a0, last + 1) <= transit
      modifies this
      ensures a0 <= upto <= last + 1 && |mem| == |old(mem)|
      ensures r == Mapped <==> upto == last + 1
      ensures r == Remap ==> Present(PteAt(old(mem), d, upto))
      ensures r == NoMemory ==> free == [] && !Present(PteAt(old(mem), d, upto))
      ensures forall v :: a0 <= v < upto ==> !Present(PteAt(old(mem), d, v))
      ensures Ok(transit - Taken(pf0, a0, upto))
      ensures d in owner && owner[d] == Dir && KeepsOthers(old(mem), old(owner), mem, owner, d)
      ensures forall v :: 0 <= v < VPAGES ==>
                PteAt(mem, d, v) == if a0 <= v < upto then MakePte(pf0 + (v - a0), perm) else PteAt(old(mem), d, v)
      ensures forall g :: g in old(owner) ==> g in owner && owner[g] == old(owner)[g]
      ensures forall g :: g in owner && g !in old(owner) ==>
                (owner[g].Table? && owner[g].d == d) || (g in Taken(pf0, a0, upto) && owner[g] == User(d, a0 + (g - pf0)))
      ensures forall g :: g in Taken(pf0, a0, upto) ==> g in owner && owner[g] == User(d, a0 + (g - pf0))
      ensures forall g :: g in transit ==> g < |mem| && mem[g] == old(mem)[g]
    {
      hide PteAt, KeepsOthers, Conserved, MakePte, Tables, Mapping, Taken;
      var a, pf := a0, pf0;
      ghost var m0, o0 := mem, owner;
      OwnedBound(mem, owner, free, transit, frames);
      KeepsSelf(mem, owner, d);
      TakenNone(pf0, a0, transit);
      MappingStart(mem, owner, d, a0, pf0, perm, free, transit, frames);
      while true
        invariant a0 <= a <= last && pf == pf0 + (a - a0)
        invariant Ok(transit - Taken(pf0, a0, a)) && Mapping(m0, o0, mem, owner, d, a0, a, pf0, perm, transit)
        decreases last - a
      {
        TakenLess(pf0, a0, a + 1, last + 1);
        r := MapNext(d, a0, a, pf0, perm, m0, o0, transit);
        if r != Mapped {
          MappingFacts(m0, o0, mem, owner, d, a0, a, pf0, perm, transit);
          return r, a;
        }
        if a == last { break; }
        a, pf := a + 1, pf + 1;
      }
      upto := last + 1;
      MappingFacts(m0, o0, mem, owner, d, a0, upto, pf0, perm, transit);
    }

    /** One round of mappages. */
    method MapNext(d: nat, a0: nat, a: nat, pf0: nat, perm: nat, ghost m0: Memory, ghost o0: Owner, ghost transit: set<nat>)
      returns (r: MapResult)
      requires d < |m0| && perm < 4096 && a0 <= a < VPAGES && pf0 + (a - a0) < 0x10_0000 && Taken(pf0, a0, a + 1) <= transit
      requires Ok(transit - Taken(pf0, a0, a)) && Mapping(m0, o0, mem, owner, d, a0, a, pf0, perm, transit)
      modifies this
      ensures |mem| == |m0| && (r == Remap <==> Present(PteAt(m0, d, a)))
      ensures r == NoMemory ==> free == []
      ensures r != Mapped ==> Ok(transit - Taken(pf0, a0, a)) && Mapping(m0, o0, mem, owner, d, a0, a, pf0, perm, transit)
      ensures r == Mapped ==> Ok(transit - Taken(pf0, a0, a + 1)) && Mapping(m0, o0, mem, owner, d, a0, a + 1, pf0, perm, transit)
    {
      hide PteAt, KeepsOthers, Conserved, MakePte, Tables, Taken, Link, Mapping;
      var pf := pf0 + (a - a0);
      TakenNext(pf0, a0, a, pf, transit);
      ghost var m1, o1, rest := mem, owner, transit - Taken(pf0, a0, a);
      MappingFacts(m0, o0, mem, owner, d, a0, a, pf0, perm, transit);
      r := MapOne(d, a, pf, perm, rest);
      if r == Mapped {
        MappingMore(m0, o0, m1, o1, mem, owner, d, a0, a, pf0, pf, perm, transit);
      } else if r == NoMemory {
        MappingSame(m0, o0, m1, o1, mem, owner, d, a0, a, pf0, perm, transit);
      }
    }

    /** Unmap and free user page vp of d, whose table is t. */
    method FreePage(d: nat, vp: nat, t: nat, ghost transit: set<nat>)
      requires Ok(transit) && d in owner && owner[d] == Dir && vp < KPAGE && Present(PteAt(mem, d, vp))
      requires Present(mem[d][Pdx(vp)]) && t == Frame(mem[d][Pdx(vp)])
      modifies this
      ensures Ok(transit) && d in owner && owner[d] == Dir && |mem| == |old(mem)|
      ensures KeepsOthers(old(mem), old(owner), mem, owner, d)
      ensures forall v :: 0 <= v < VPAGES ==> PteAt(mem, d, v) == if v == vp then 0 else PteAt(old(mem), d, v)
      ensures var f := Frame(PteAt(old(mem), d, vp));
              && f in old(owner) && old(owner)[f] == User(d, vp) && owner == old(owner) - {f} && free == [f] + old(free)
      ensures forall g :: g in transit ==> mem[g] == old(mem)[g]
    {
      hide Conserved, KeepsOthers, Tables, Link, Freed;
      Unmapped(mem, owner, d, vp, free, transit, frames);
      OwnedBound(mem, owner, free, transit, frames);
      var pa := Frame(mem[t][Ptx(vp)]);
      ghost var f := Frame(PteAt(mem, d, vp));
      ghost var m0, free0 := mem, free;
      FreeOne(pa);
      mem := mem[t := mem[t][Ptx(vp) := 0]];
      owner := owner - {f};
      ghost var m1: Memory := m0[t := m0[t][Ptx(vp) := 0]];
      assert mem == m1[f := Freed(free0)];
    }

    /** deallocuvm: bring the size from oldsz down to newsz. Skipping a whole directory slot
        that has no table unmaps the same pages as visiting each of them. */
    method Deallocuvm(d: nat, oldsz: nat, newsz: nat, ghost transit: set<nat>) returns (r: nat)
      requires Ok(transit) && d in owner && owner[d] == Dir && oldsz <= KERNBASE
      modifies this
      ensures Ok(transit) && d in owner && owner[d] == Dir && |mem| == |old(mem)|
      ensures r == if newsz >= oldsz then oldsz else newsz
      ensures newsz >= oldsz ==> mem == old(mem) && owner == old(owner) && free == old(free)
      ensures KeepsOthers(old(mem), old(owner), mem, owner, d)
      ensures forall v :: 0 <= v < VPAGES ==>
                PteAt(mem, d, v) == if PgUp(newsz) <= v && 4096 * v < oldsz && Present(PteAt(old(mem), d, v)) then 0
                                    else PteAt(old(mem), d, v)
      ensures owner == Shrunk(old(owner), d, PgUp(newsz), PgUp(oldsz))
      ensures forall g :: g in transit ==> mem[g] == old(mem)[g]
    {
      hide PteAt, KeepsOthers, Conserved, Shrunk, Tables;
      ghost var m0, o0 := mem, owner;
      OwnedBound(mem, owner, free, transit, frames);
      KeepsSelf(mem, owner, d);
      ShrunkNone(owner, d, PgUp(newsz), PgUp(oldsz));
      if newsz >= oldsz { return oldsz; }
      var a := PgUp(newsz);
      while 4096 * a < oldsz
        invariant PgUp(newsz) <= a && Ok(transit) && Shrinking(m0, o0, d, PgUp(newsz), a, oldsz, transit)
        decreases KPAGE - a
      {
        a := ShrinkRound(d, a, PgUp(newsz), oldsz, m0, o0, transit);
      }
      r := newsz;
    }

    /** deallocuvm once it has passed the pages lo .. a-1. */
    ghost predicate Shrinking(m0: Memory, o0: Owner, d: nat, lo: nat, a: nat, oldsz: nat, transit: set<nat>)
      reads this
    {
      && |mem| == |m0| && d < |m0| && d in o0 && o0[d] == Dir && d in owner && owner[d] == Dir
      && Tables(m0, o0) && (forall f :: f in o0 ==> f < |m0|)
      && KeepsOthers(m0, o0, mem, owner, d)
      && (forall v :: 0 <= v < VPAGES ==>
            PteAt(mem, d, v) == if lo <= v < a && 4096 * v < oldsz && Present(PteAt(m0, d, v)) then 0 else PteAt(m0, d, v))
      && owner == Shrunk(o0, d, lo, if a < PgUp(oldsz) then a else PgUp(oldsz))
      && (forall g :: g in transit ==> g < |mem| && mem[g] == m0[g])
    }

    /** One round of the loop of deallocuvm: one page, or the rest of a slot without a table. */
    method ShrinkRound(d: nat, a: nat, lo: nat, oldsz: nat, ghost m0: Memory, ghost o0: Owner, ghost transit: set<nat>)
      returns (a': nat)
      requires Ok(transit) && lo <= a && 4096 * a < oldsz <= KERNBASE && Shrinking(m0, o0, d, lo, a, oldsz, transit)
      modifies this
      ensures Ok(transit) && a < a' && Shrinking(m0, o0, d, lo, a', oldsz, transit)
    {
      hide PteAt, KeepsOthers, Conserved, Shrunk, Tables;
      ghost var m1, o1 := mem, owner;
      a' := a;
      var t, ok := Walkpgdir(d, a, false, transit);
      if !ok {
        NoTable(mem, d, a);
        ShrunkSame(m0, o0, d, lo, a, 1024 * (Pdx(a) + 1));
        a' := 1024 * (Pdx(a) + 1) - 1;
      } else {
        TableEntry(mem, owner, free, transit, frames, d, a);
        if Present(mem[t][Ptx(a)]) {
          FreePage(d, a, t, transit);
          ShrunkMore(m0, o0, d, lo, a);
          KeepsTrans(m0, o0, m1, o1, mem, owner, d);
        } else {
          ShrunkSame(m0, o0, d, lo, a, a + 1);
        }
      }
      a' := a' + 1;
    }

    /** freevm: every frame of the address space goes back to the free list, and nothing else
        changes. */
    method Freevm(d: nat, ghost transit: set<nat>)
      requires Ok(transit) && d in owner && owner[d] == Dir
      modifies this
      ensures Ok(transit) && |mem| == |old(mem)| && owner == Without(old(owner), d)
      ensures KeepsOthers(old(mem), old(owner), mem, owner, d)
      ensures forall f :: f in free <==> f in old(free) || f in Belongs(old(owner), d)
      ensures forall g :: g in transit ==> mem[g] == old(mem)[g]
    {
      hide PteAt, KeepsOthers, Conserved, Shrunk, Tables, Without, Belongs, Left;
      ghost var m0, o0, free0 := mem, owner, free;
      OwnedBound(mem, owner, free, transit, frames);
      var r := Deallocuvm(d, KERNBASE, 0, transit);
      ghost var m1, o1 := mem, owner;
      ghost var o2 := Without(o1, d);
      Detached(m0, o0, m1, o1, free, transit, frames, d);
      owner := o2;
      var i: nat := 0;
      while i < 1024
        invariant i <= 1024 && owner == o2 && |mem| == |m1|
        invariant Conserved(mem, o2, free, transit + Left(o1, d, i), frames) && freelist == Link(free)
        invariant mem[d] == m1[d] && KeepsOthers(m0, o0, mem, o2, d)
        invariant forall g :: g in transit ==> g < |mem| && mem[g] == m0[g]
      {
        ghost var m2 := mem;
        LeftStep(m1, o1, d, i);
        var pde := mem[d][i];
        if Present(pde) {
          FreeFrame(m0, o0, mem, o2, free, transit, transit + Left(o1, d, i), frames, d, Frame(pde));
          FreeOne(Frame(pde));
          assert transit + Left(o1, d, i) - {Frame(pde)} == transit + Left(o1, d, i + 1) by {
            assert Frame(pde) !in transit;
          }
        }
        i := i + 1;
      }
      LeftLast(m1, o1, d);
      FreeFrame(m0, o0, mem, o2, free, transit, transit + {d}, frames, d, d);
      FreeOne(d);
      assert transit + {d} - {d} == transit;
      FreeSet(m0, o0, free0, mem, o2, free, transit, frames, d);
    }

    /** setupkvm: a new address space with the kernel's mappings. `data` is the page where the
        kernel's writable data starts. It never maps a page twice; if memory runs out it gives
        everything back. */
    method Setupkvm(data: nat, ghost transit: set<nat>) returns (d: nat, ok: bool)
      requires Ok(transit) && KERNLINK < data < KERNTOP
      modifies this
      ensures Ok(transit) && |mem| == |old(mem)|
      ensures !ok ==> owner == old(owner) && (forall f :: f in free <==> f in old(free))
      ensures !ok ==> |old(free)| <= 1026
      ensures ok ==> d in owner && owner[d] == Dir && d !in old(owner)
      ensures KeepsOthers(old(mem), old(owner), mem, owner, d)
      ensures ok ==> forall v :: 0 <= v < VPAGES ==> PteAt(mem, d, v) == KernelPte(data, v, 4)
      ensures ok ==> forall f :: f in old(owner) ==> f in owner && owner[f] == old(owner)[f]
      ensures ok ==> forall f :: f in owner && f !in old(owner) ==> Of(owner[f], f, d)
      ensures forall g :: g in transit ==> mem[g] == old(mem)[g]
    {
      hide PteAt, KeepsOthers, Conserved, Without, Belongs, KernelPte;
      ghost var m0, o0, free0 := mem, owner, free;
      OwnedBound(mem, owner, free, transit, frames);
      KeepsSelf(mem, owner, 0);
      d, ok := Kalloc(transit);
      if !ok {
        KeepsSelf(mem, owner, d);
        return;
      }
      DirMade(mem, owner, free, transit, frames, d);
      mem := mem[d := Fill(0)];
      owner := owner[d := Dir];
      assert transit + {d} - {d} == transit;
      EmptyKernel(mem, d, data);
      var k: nat := 0;
      while k < 4
        invariant k <= 4 && Ok(transit) && KernelMapped(m0, o0, d, data, k, transit)
      {
        ok := KernelRound(d, data, k, m0, o0, free0, transit);
        if !ok { return; }
        k := k + 1;
      }
    }

    /** setupkvm after k rows of kmap. */
    ghost predicate KernelMapped(m0: Memory, o0: Owner, d: nat, data: nat, k: nat, transit: set<nat>)
      reads this
      requires KERNLINK < data < KERNTOP && k <= 4
    {
      && |mem| == |m0| && d in owner && owner[d] == Dir && d !in o0 && d < |mem|
      && KeepsOthers(m0, o0, mem, owner, d)
      && (forall v :: 0 <= v < VPAGES ==> PteAt(mem, d, v) == KernelPte(data, v, k))
      && (forall f :: f in o0 ==> f in owner && owner[f] == o0[f])
      && (forall f :: f in owner && f !in o0 ==> Of(owner[f], f, d))
      && (forall g :: g in transit ==> g < |mem| && mem[g] == m0[g])
    }

    /** One row of kmap; when memory runs out everything is given back. */
    method KernelRound(d: nat, data: nat, k: nat, ghost m0: Memory, ghost o0: Owner, ghost free0: seq<nat>, ghost transit: set<nat>)
      returns (ok: bool)
      requires Ok(transit) && Conserved(m0, o0, free0, transit, frames) && KERNLINK < data < KERNTOP && k < 4
      requires KernelMapped(m0, o0, d, data, k, transit)
      modifies this
      ensures Ok(transit) && |mem| == |m0| && KeepsOthers(m0, o0, mem, owner, d)
      ensures forall g :: g in transit ==> mem[g] == m0[g]
      ensures ok ==> KernelMapped(m0, o0, d, data, k + 1, transit)
      ensures !ok ==> owner == o0 && (forall f :: f in free <==> f in free0) && |free0| <= 1026
    {
      hide PteAt, KeepsOthers, Conserved, Without, Belongs, KernelPte, Tables, Of;
      OwnedBound(m0, o0, free0, transit, frames);
      var (virt, count, phys, perm) := Kmap(data, k);
      ghost var m2, o2 := mem, owner;
      KernelDisjoint(data, k);
      TakenKernel(phys, virt, virt + count, transit);
      var r, upto := MapPages(d, virt, virt + count - 1, phys, perm, transit);
      TakenKernel(phys, virt, upto, transit);
      assert r != Remap;
      KeepsTrans(m0, o0, m2, o2, mem, owner, d);
      TablesOf(owner, o2, d);
      if r == NoMemory {
        ghost var m3, o3 := mem, owner;
        OwnedBound(mem, owner, free, transit, frames);
        KernelAdded(mem, o0, owner, d, data, k, virt);
        AllTaken(m0, o0, free0, mem, owner, transit, transit, frames, d, 0, 0);
        Freevm(d, transit);
        GoneAgain(m0, o0, o3, d);
        KeepsTrans(m0, o0, m3, o3, mem, owner, d);
        FreeSetSame(m0, o0, free0, mem, owner, free, transit, frames);
        return false;
      }
      forall v | 0 <= v < VPAGES
        ensures PteAt(mem, d, v) == KernelPte(data, v, k + 1)
      {
        KernelNext(data, v, k);
      }
      ok := true;
    }

    /** Fill frame f with `page` and map it as user page vp of d. */
    method FillAndMap(d: nat, vp: nat, f: nat, page: Page, perm: nat, ghost transit: set<nat>) returns (r: MapResult)
      requires Ok(transit + {f}) && f !in transit && d in owner && owner[d] == Dir && vp < KPAGE && perm < 4096 && f !in owner
      modifies this
      ensures |mem| == |old(mem)| && f < |mem| && d < |mem|
      ensures r == Remap <==> Present(PteAt(old(mem), d, vp))
      ensures r != Remap ==> d in owner && owner[d] == Dir && KeepsOthers(old(mem), old(owner), mem, owner, d)
      ensures r == Mapped ==> Ok(transit) && mem[f] == page && f in owner && owner[f] == User(d, vp)
      ensures r == Mapped ==> forall v :: 0 <= v < VPAGES ==>
                PteAt(mem, d, v) == if v == vp then MakePte(f, perm) else PteAt(old(mem), d, v)
      ensures r == NoMemory ==> free == [] && Ok(transit + {f})
      ensures r == NoMemory ==> forall v :: 0 <= v < VPAGES ==> PteAt(mem, d, v) == PteAt(old(mem), d, v)
      ensures forall g :: g in old(owner) ==> g in owner && owner[g] == old(owner)[g]
      ensures forall g :: g in owner && g !in old(owner) ==> Of(owner[g], g, d)
      ensures forall g :: g in transit ==> g < |mem| && mem[g] == old(mem)[g]
    {
      hide PteAt, KeepsOthers, Conserved, MakePte;
      ghost var m0, o0 := mem, owner;
      OwnedBound(mem, owner, free, transit + {f}, frames);
      ZeroPage(mem, owner, free, transit, frames, d, f, page);
      mem := mem[f := page];
      ghost var m1 := mem;
      ghost var upto;
      TakenOne(f, vp, transit + {f});
      r, upto := MapPages(d, vp, vp, f, perm, transit + {f});
      if r != Remap {
        KeepsTrans(m0, o0, m1, o0, mem, owner, d);
      }
      assert transit + {f} - {f} == transit;
    }

    /** allocuvm: grow from oldsz to newsz with zeroed user pages. Out of memory gives 0 and
        leaves none of the new pages mapped; a page already mapped stops the machine. */
    method Allocuvm(d: nat, oldsz: nat, newsz: nat, ghost transit: set<nat>) returns (r: nat, ok: bool)
      requires Ok(transit) && d in owner && owner[d] == Dir
      modifies this
      ensures ok ==> Ok(transit) && d in owner && owner[d] == Dir && KeepsOthers(old(mem), old(owner), mem, owner, d)
      ensures !ok ==> exists v :: PgUp(oldsz) <= v < KPAGE && d < |old(mem)| && Present(PteAt(old(mem), d, v))
      ensures newsz >= KERNBASE ==> ok && r == 0
      ensures newsz < KERNBASE && newsz < oldsz ==> ok && r == oldsz
      ensures newsz >= KERNBASE || newsz < oldsz ==> mem == old(mem) && owner == old(owner) && free == old(free)
      ensures oldsz <= newsz < KERNBASE && ok ==> r == newsz || r == 0
      ensures oldsz <= newsz < KERNBASE && ok ==> |mem| == |old(mem)|
      ensures oldsz <= newsz < KERNBASE && ok ==>
                forall v :: 0 <= v < VPAGES && !(PgUp(oldsz) <= v && 4096 * v < newsz) ==> PteAt(mem, d, v) == PteAt(old(mem), d, v)
      ensures oldsz <= newsz < KERNBASE && ok && r == 0 && newsz > 0 ==>
                forall v :: PgUp(oldsz) <= v && 4096 * v < newsz ==> !Present(PteAt(mem, d, v))
      ensures oldsz <= newsz < KERNBASE && ok && r == 0 && newsz > 0 ==> |old(free)| <= 1026 + PgUp(newsz)
      ensures oldsz <= newsz < KERNBASE && ok && r == newsz && newsz > 0 ==>
                forall v :: PgUp(oldsz) <= v && 4096 * v < newsz ==> FreshPage(mem, old(owner), d, v)
    {
      hide PteAt, KeepsOthers, Conserved, FreshPage;
      KeepsSelf(mem, owner, d);
      if newsz >= KERNBASE { return 0, true; }
      if newsz < oldsz { return oldsz, true; }
      ghost var m0, o0, free0 := mem, owner, free;
      OwnedBound(mem, owner, free, transit, frames);
      var a := PgUp(oldsz);
      while 4096 * a < newsz
        invariant PgUp(oldsz) <= a && Ok(transit) && Growing(m0, o0, d, PgUp(oldsz), a)
        invariant a > PgUp(oldsz) ==> 4096 * (a - 1) < newsz
        decreases newsz - 4096 * a
      {
        var mr := GrowRound(d, a, oldsz, newsz, m0, o0, free0, transit);
        if mr == Remap { return 0, false; }
        if mr == NoMemory { return 0, true; }
        a := a + 1;
      }
      return newsz, true;
    }

    /** allocuvm after the pages lo .. a-1. */
    ghost predicate Growing(m0: Memory, o0: Owner, d: nat, lo: nat, a: nat)
      reads this
    {
      && |mem| == |m0| && d < |m0| && d in o0 && o0[d] == Dir && d in owner && owner[d] == Dir
      && KeepsOthers(m0, o0, mem, owner, d)
      && (forall g :: g in o0 ==> g in owner && owner[g] == o0[g])
      && (forall g :: g in owner && g !in o0 ==> Of(owner[g], g, d))
      && (forall v :: 0 <= v < VPAGES && !(lo <= v < a) ==> PteAt(mem, d, v) == PteAt(m0, d, v))
      && (forall v :: lo <= v < a && v < VPAGES ==> FreshPage(mem, o0, d, v))
    }

    /** allocuvm's way out when mappages fails: the pages it added and the frame it holds. */
    method TakeBack(d: nat, f: nat, oldsz: nat, newsz: nat, ghost m0: Memory, ghost o0: Owner, ghost transit: set<nat>)
      requires Ok(transit + {f}) && f !in transit && d in owner && owner[d] == Dir && newsz <= KERNBASE
      requires KeepsOthers(m0, o0, mem, owner, d) && forall g :: g in o0 ==> g < |m0| && g in owner && owner[g] == o0[g]
      modifies this
      ensures Ok(transit) && d in owner && owner[d] == Dir && |mem| == |old(mem)| && KeepsOthers(m0, o0, mem, owner, d)
      ensures forall v :: 0 <= v < VPAGES ==>
                PteAt(mem, d, v) == if PgUp(oldsz) <= v && 4096 * v < newsz && Present(PteAt(old(mem), d, v)) then 0
                                    else PteAt(old(mem), d, v)
    {
      hide PteAt, KeepsOthers, Conserved, Shrunk, Tables, Link, Freed;
      ghost var m3, o3 := mem, owner;
      OwnedBound(mem, owner, free, transit + {f}, frames);
      var x := Deallocuvm(d, newsz, oldsz, transit + {f});
      KeepsTrans(m0, o0, m3, o3, mem, owner, d);
      FreeOther(m0, o0, mem, owner, free, transit, frames, d, f);
      OwnedBound(mem, owner, free, transit + {f}, frames);
      FreeOne(f);
    }

    /** One page of allocuvm. When memory runs out the pages it has added are taken out again. */
    method GrowRound(d: nat, a: nat, oldsz: nat, newsz: nat, ghost m0: Memory, ghost o0: Owner, ghost free0: seq<nat>,
                     ghost transit: set<nat>) returns (r: MapResult)
      requires Ok(transit) && Conserved(m0, o0, free0, transit, frames) && PgUp(oldsz) <= a && 4096 * a < newsz < KERNBASE
      requires Growing(m0, o0, d, PgUp(oldsz), a)
      modifies this
      ensures r == Remap ==> Present(PteAt(m0, d, a))
      ensures r == Mapped ==> Ok(transit) && Growing(m0, o0, d, PgUp(oldsz), a + 1)
      ensures r == NoMemory ==> Ok(transit) && d in owner && owner[d] == Dir && KeepsOthers(m0, o0, mem, owner, d)
      ensures r == NoMemory ==> |free0| <= 1026 + a && |mem| == |m0|
      ensures r == NoMemory ==> forall v :: 0 <= v < VPAGES ==>
                if PgUp(oldsz) <= v && 4096 * v < newsz then !Present(PteAt(mem, d, v)) else PteAt(mem, d, v) == PteAt(m0, d, v)
    {
      hide PteAt, KeepsOthers, Conserved, Shrunk, MakePte, FreshPage, Of, Tables, Link, Freed;
      ghost var m1, o1 := mem, owner;
      OwnedBound(m0, o0, free0, transit, frames);
      OwnedBound(mem, owner, free, transit, frames);
      var f, got := Kalloc(transit);
      if !got {
        GrownDry(m0, o0, free0, mem, owner, transit, transit, frames, d, a, 0);
        var x := Deallocuvm(d, newsz, oldsz, transit);
        KeepsTrans(m0, o0, m1, o1, mem, owner, d);
        return NoMemory;
      }
      r := FillAndMap(d, a, f, Fill(0), 6, transit);
      if r == Remap { return; }
      KeepsTrans(m0, o0, m1, o1, mem, owner, d);
      if r == NoMemory {
        GrownDry(m0, o0, free0, mem, owner, transit, transit + {f}, frames, d, a, f);
        TakeBack(d, f, oldsz, newsz, m0, o0, transit);
        return;
      }
      StillFresh(m1, mem, o0, o1, owner, d, PgUp(oldsz), a, f);
    }

    /** copyuvm: a child address space with the same flags and bytes at every page below sz, on
        frames of its own, and nothing else below KERNBASE. Out of memory gives every frame
        back; a missing page stops the machine. */
    method Copyuvm(d: nat, sz: nat, data: nat, ghost transit: set<nat>) returns (e: nat, r: CopyResult)
      requires Ok(transit) && d in owner && owner[d] == Dir && sz <= KERNBASE && KERNLINK < data < KERNTOP
      modifies this
      ensures |mem| == |old(mem)| && d < |mem|
      ensures r == Panic ==> exists v :: 0 <= v < PgUp(sz) && !Present(PteAt(old(mem), d, v))
      ensures r != Panic ==> Ok(transit) && KeepsOthers(old(mem), old(owner), mem, owner, e)
      ensures r == OutOfMemory ==> owner == old(owner) && forall f :: f in free <==> f in old(free)
      ensures r == OutOfMemory ==> |old(free)| <= 1026 + PgUp(sz)
      ensures r == Copied ==> e != d && e !in old(owner) && e in owner && owner[e] == Dir && e < |mem|
      ensures r == Copied ==> forall v :: 0 <= v < PgUp(sz) ==> CopiedPage(old(mem), old(owner), mem, d, e, v)
      ensures r == Copied ==> forall v :: PgUp(sz) <= v < VPAGES ==> PteAt(mem, e, v) == KernelPte(data, v, 4)
      ensures r == Copied ==> forall f :: f in old(owner) ==> f in owner && owner[f] == old(owner)[f]
      ensures r == Copied ==> forall f :: f in owner && f !in old(owner) ==> Of(owner[f], f, e)
    {
      hide PteAt, KeepsOthers, Conserved, KernelPte, CopiedPage, Tables, Of;
      ghost var m0, o0, free0 := mem, owner, free;
      OwnedBound(mem, owner, free, transit, frames);
      var ok;
      e, ok := Setupkvm(data, transit);
      if !ok { return e, OutOfMemory; }
      OwnedBound(mem, owner, free, transit, frames);
      var i: nat := 0;
      r := Copied;
      while 4096 * i < sz
        invariant i <= PgUp(sz) && Ok(transit) && r == Copied && |mem| == |m0| && Copying(m0, o0, d, e, i, data)
        decreases PgUp(sz) - i
      {
        r := CopyRound(d, e, i, data, m0, o0, free0, transit);
        if r != Copied { return; }
        i := i + 1;
      }
    }

    /** copyuvm after i pages. */
    ghost predicate Copying(m0: Memory, o0: Owner, d: nat, e: nat, i: nat, data: nat)
      reads this
      requires KERNLINK < data < KERNTOP
    {
      && |mem| == |m0| && d < |m0|
      && d in o0 && d in owner && owner[d] == Dir && e in owner && owner[e] == Dir && e != d && e !in o0 && e < |mem|
      && KeepsOthers(m0, o0, mem, owner, e)
      && (forall v :: 0 <= v < i ==> CopiedPage(m0, o0, mem, d, e, v))
      && (forall v :: i <= v < VPAGES ==> PteAt(mem, e, v) == KernelPte(data, v, 4))
      && (forall f :: f in o0 ==> f in owner && owner[f] == o0[f])
      && (forall f :: f in owner && f !in o0 ==> Of(owner[f], f, e))
    }

    /** One page of copyuvm. */
    method CopyRound(d: nat, e: nat, i: nat, data: nat, ghost m0: Memory, ghost o0: Owner, ghost free0: seq<nat>,
                     ghost transit: set<nat>) returns (r: CopyResult)
      requires Ok(transit) && Conserved(m0, o0, free0, transit, frames) && i < KPAGE && KERNLINK < data < KERNTOP
      requires Copying(m0, o0, d, e, i, data)
      modifies this
      ensures |mem| == |m0|
      ensures r == Panic ==> !Present(PteAt(m0, d, i))
      ensures r != Panic ==> Ok(transit)
      ensures r == Copied ==> Copying(m0, o0, d, e, i + 1, data)
      ensures r == OutOfMemory ==> KeepsOthers(m0, o0, mem, owner, e) && owner == o0 && forall f :: f in free <==> f in free0
      ensures r == OutOfMemory ==> |free0| <= 1026 + i
    {
      hide PteAt, KeepsOthers, Conserved, KernelPte, CopiedPage, MakePte, Tables, Of, Pdx, Link, Freed;
      ghost var m1, o1 := mem, owner;
      OwnedBound(mem, owner, free, transit, frames);
      OwnedBound(m0, o0, free0, transit, frames);
      SourcePage(m0, o0, mem, owner, d, e, i);
      NoUserKernel(data, i, 4);
      var t, found := Walkpgdir(d, i, false, transit);
      if !found {
        NoTable(mem, d, i);
        return Panic;
      }
      TableEntry(mem, owner, free, transit, frames, d, i);
      var pte := mem[t][Ptx(i)];
      if !Present(pte) { return Panic; }
      var f, got := Kalloc(transit);
      if !got {
        CopyAdded(mem, o0, owner, e, data, i);
        AllTaken(m0, o0, free0, mem, owner, transit, transit, frames, e, i, 0);
        Abandon(e, m0, o0, free0, transit);
        return OutOfMemory;
      }
      var mr := FillAndMap(e, i, f, mem[Frame(pte)], Flags(pte), transit);
      KeepsTrans(m0, o0, m1, o1, mem, owner, e);
      if mr == NoMemory {
        OwnedBound(mem, owner, free, transit + {f}, frames);
        CopyAdded(mem, o0, owner, e, data, i);
        AllTaken(m0, o0, free0, mem, owner, transit, transit + {f}, frames, e, i, f);
        FreeOther(m0, o0, mem, owner, free, transit, frames, e, f);
        FreeOne(f);
        Abandon(e, m0, o0, free0, transit);
        return OutOfMemory;
      }
      StillCopied(m0, o0, m1, o1, mem, owner, d, e, i, f);
      r := Copied;
    }

    /** The `bad:` exit of copyuvm. */
    method Abandon(e: nat, ghost m0: Memory, ghost o0: Owner, ghost free0: seq<nat>, ghost transit: set<nat>)
      requires Ok(transit) && e in owner && owner[e] == Dir && e !in o0
      requires Conserved(m0, o0, free0, transit, frames) && KeepsOthers(m0, o0, mem, owner, e)
      requires forall f :: f in o0 ==> f in owner && owner[f] == o0[f]
      requires forall f :: f in owner && f !in o0 ==> Of(owner[f], f, e)
      modifies this
      ensures Ok(transit) && |mem| == |old(mem)| && owner == o0 && KeepsOthers(m0, o0, mem, owner, e)
      ensures forall f :: f in free <==> f in free0
    {
      hide PteAt, KeepsOthers, Conserved, Without, Belongs, Tables;
      ghost var m3, o3 := mem, owner;
      OwnedBound(m0, o0, free0, transit, frames);
      Freevm(e, transit);
      GoneAgain(m0, o0, o3, e);
      KeepsTrans(m0, o0, m3, o3, mem, owner, e);
      FreeSetSame(m0, o0, free0, mem, owner, free, transit, frames);
    }
  }
}
