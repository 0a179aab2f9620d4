/** Two-level page tables over physical frames, and the ownership invariant: every frame
    is free, a directory, a table of one directory, or one user page of one directory. */
module VmTables {
  import opened Xv6Params

  type Word = n: int | 0 <= n < UINT
  type Page = p: seq<Word> | |p| == 1024 witness seq(1024, i => 0)
  type Memory = seq<Page>

  function Fill(w: Word): (p: Page)
    ensures forall k :: 0 <= k < 1024 ==> p[k] == w
  {
    seq(1024, i => w)
  }

  // ----- entries

  predicate Present(w: Word) { w % 2 == 1 }
  function Frame(w: Word): (f: nat)
    ensures 4096 * f <= w < 4096 * f + 4096
  {
    w / 4096
  }
  function Flags(w: Word): (fl: nat)
    ensures fl < 4096 && w == 4096 * Frame(w) + fl
  {
    w % 4096
  }

  /** `pa | perm | PTE_P` for the page-aligned address of frame f. */
  function MakePte(f: nat, perm: nat): (w: Word)
    requires f < 0x10_0000 && perm < 4096
    ensures Present(w) && Frame(w) == f && Flags(w) == if perm % 2 == 1 then perm else perm + 1
  {
    f * 4096 + (if perm % 2 == 1 then perm else perm + 1)
  }

  /** An entry is a frame number above twelve flag bits, of which the lowest says present; a page
      number is a directory index above a table index of ten bits. */
  lemma EntryFormat(f: nat, perm: nat, v: nat)
    requires f < 0x10_0000 && perm < 4096 && v < VPAGES
    ensures MakePte(f, perm) / 0x1000 == f && MakePte(f, perm) % 0x1000 == (if perm % 2 == 1 then perm else perm + 1)
    ensures v == 0x400 * Pdx(v) + Ptx(v) && Ptx(v) < 0x400
  {
  }

  // ----- virtual pages

  function Pdx(vp: nat): (i: nat)
    ensures 1024 * i <= vp < 1024 * i + 1024
  {
    vp / 1024
  }

  function Ptx(vp: nat): (j: nat)
    ensures j < 1024 && vp == 1024 * Pdx(vp) + j
  {
    vp % 1024
  }

  const VPAGES := 0x10_0000
  const KPAGE := 0x8_0000     // KERNBASE in pages: user pages lie below

  /** The page table entry for virtual page vp; 0 if there is no table for it. */
  function PteAt(m: Memory, d: nat, vp: nat): Word
    requires d < |m| && vp < VPAGES
  {
    var pde := m[d][Pdx(vp)];
    if Present(pde) && Frame(pde) < |m| then m[Frame(pde)][Ptx(vp)] else 0
  }

  // ----- ownership

  datatype Role = Dir | Table(d: nat, i: nat) | User(d: nat, vp: nat)

  type Owner = map<nat, Role>

  ghost predicate PdeOk(m: Memory, o: Owner, d: nat, i: nat)
    requires d < |m| && i < 1024
  {
    Present(m[d][i]) ==>
      Frame(m[d][i]) < |m| && Frame(m[d][i]) in o && o[Frame(m[d][i])] == Table(d, i) && Flags(m[d][i]) == 7
  }

  ghost predicate PteOk(m: Memory, o: Owner, d: nat, vp: nat)
    requires d < |m| && vp < VPAGES
  {
    Present(PteAt(m, d, vp)) ==>
      Frame(PteAt(m, d, vp)) in o && o[Frame(PteAt(m, d, vp))] == User(d, vp)
  }

  ghost predicate RoleOk(m: Memory, o: Owner, f: nat, r: Role) {
    match r
    case Dir => true
    case Table(d, i) => d < |m| && d in o && o[d] == Dir && i < 1024 && Present(m[d][i]) && Frame(m[d][i]) == f
    case User(d, vp) => d < |m| && d in o && o[d] == Dir && vp < KPAGE && Present(PteAt(m, d, vp)) && Frame(PteAt(m, d, vp)) == f
  }

  ghost predicate Tables(m: Memory, o: Owner) {
    && |m| <= 0x10_0000
    && (forall f :: f in o ==> f < |m| && RoleOk(m, o, f, o[f]))
    && (forall d, i :: d in o && o[d] == Dir && 0 <= i < 1024 ==> PdeOk(m, o, d, i))
    && (forall d, vp :: d in o && o[d] == Dir && 0 <= vp < KPAGE ==> PteOk(m, o, d, vp))
  }

  ghost predicate NoDup(s: seq<nat>) {
    forall i, j :: 0 <= i < j < |s| ==> s[i] != s[j]
  }

  /** The pointer to the first frame of a list; 0 ends it. */
  function Link(free: seq<nat>): Word {
    if free == [] then 0 else 4096 * free[0] % UINT
  }

  /** The free list runs through the first words of its frames. */
  ghost predicate Chained(m: Memory, free: seq<nat>) {
    free == [] || (0 < free[0] < |m| && m[free[0]][0] == Link(free[1..]) && Chained(m, free[1..]))
  }

  lemma {:induction false} ChainedFrame(m: Memory, m': Memory, free: seq<nat>)
    requires Chained(m, free) && |m'| == |m| && forall f :: f in free && f < |m| ==> m'[f] == m[f]
    ensures Chained(m', free)
  {
    if free != [] {
      assert free[0] in free;
      ChainedFrame(m, m', free[1..]);
    }
  }

  /** Conservation: the managed frames are split between the free list, the owned frames
      and those a caller holds in transit. */
  ghost predicate Conserved(m: Memory, o: Owner, free: seq<nat>, transit: set<nat>, frames: set<nat>) {
    && Tables(m, o)
    && NoDup(free) && Chained(m, free)
    && (forall f :: f in frames ==> 0 < f < |m|)
    && (forall f :: f in free ==> f !in o && f !in transit)
    && o.Keys !! transit
    && (forall f :: f in frames <==> f in free || f in o || f in transit)
  }

  /** Frames nobody owns may change freely. */
  lemma TablesFrame(m: Memory, m': Memory, o: Owner)
    requires Tables(m, o) && |m'| == |m|
    requires forall f :: f in o && !o[f].User? ==> m'[f] == m[f]
    ensures Tables(m', o)
    ensures forall d, vp :: d in o && o[d] == Dir && 0 <= vp < VPAGES ==> PteAt(m', d, vp) == PteAt(m, d, vp)
  {
    forall d, vp | d in o && o[d] == Dir && 0 <= vp < VPAGES
      ensures PteAt(m', d, vp) == PteAt(m, d, vp)
    {
      assert PdeOk(m, o, d, Pdx(vp));
    }
    forall f | f in o
      ensures f < |m'| && RoleOk(m', o, f, o[f])
    {
      assert RoleOk(m, o, f, o[f]);
    }
    forall d, i | d in o && o[d] == Dir && 0 <= i < 1024
      ensures PdeOk(m', o, d, i)
    {
      assert PdeOk(m, o, d, i);
    }
    forall d, vp | d in o && o[d] == Dir && 0 <= vp < KPAGE
      ensures PteOk(m', o, d, vp)
    {
      assert PteOk(m, o, d, vp);
    }
  }

  /** A zeroed frame in transit becomes a page directory. */
  lemma NewDir(m: Memory, o: Owner, d: nat)
    requires Tables(m, o) && d < |m| && d !in o && m[d] == Fill(0)
    ensures Tables(m, o[d := Dir])
    ensures forall vp :: 0 <= vp < VPAGES ==> PteAt(m, d, vp) == 0
  {
    var o' := o[d := Dir];
    forall f | f in o'
      ensures f < |m| && RoleOk(m, o', f, o'[f])
    {
      if f != d { assert RoleOk(m, o, f, o[f]); }
    }
    forall e, i | e in o' && o'[e] == Dir && 0 <= i < 1024
      ensures PdeOk(m, o', e, i)
    {
      if e != d { assert PdeOk(m, o, e, i); }
    }
    forall e, vp | e in o' && o'[e] == Dir && 0 <= vp < KPAGE
      ensures PteOk(m, o', e, vp)
    {
      if e != d { assert PteOk(m, o, e, vp); }
    }
  }

  /** A zeroed frame in transit becomes the table of an empty directory slot. No page
      changes: the missing table and the empty one say the same. */
  lemma NewTable(m: Memory, o: Owner, d: nat, i: nat, t: nat, pde: Word)
    requires Tables(m, o) && d in o && o[d] == Dir && i < 1024 && !Present(m[d][i])
    requires t < |m| && t !in o && m[t] == Fill(0) && Present(pde) && Frame(pde) == t && Flags(pde) == 7
    ensures var m' := m[d := m[d][i := pde]];
            && Tables(m', o[t := Table(d, i)])
            && forall e, vp :: e in o && o[e] == Dir && 0 <= vp < VPAGES ==> PteAt(m', e, vp) == PteAt(m, e, vp)
  {
    var m', o' := m[d := m[d][i := pde]], o[t := Table(d, i)];
    forall e, vp | e in o && o[e] == Dir && 0 <= vp < VPAGES
      ensures PteAt(m', e, vp) == PteAt(m, e, vp)
    {
      assert PdeOk(m, o, e, Pdx(vp));
    }
    forall e, k | e in o' && o'[e] == Dir && 0 <= k < 1024
      ensures PdeOk(m', o', e, k)
    {
      assert PdeOk(m, o, e, k);
    }
    forall e, vp | e in o' && o'[e] == Dir && 0 <= vp < KPAGE
      ensures PteOk(m', o', e, vp)
    {
      assert PteOk(m, o, e, vp);
    }
    forall f | f in o'
      ensures f < |m'| && RoleOk(m', o', f, o'[f])
    {
      if f != t { assert RoleOk(m, o, f, o[f]); }
    }
  }

  /** Storing an entry changes that page of that directory only. */
  lemma PteStore(m: Memory, o: Owner, d: nat, vp: nat, w: Word, e: nat, vq: nat)
    requires Tables(m, o) && d in o && o[d] == Dir && vp < VPAGES && Present(m[d][Pdx(vp)])
    requires e in o && o[e] == Dir && vq < VPAGES
    ensures Frame(m[d][Pdx(vp)]) < |m| && Frame(m[d][Pdx(vp)]) in o && o[Frame(m[d][Pdx(vp)])] == Table(d, Pdx(vp))
    ensures var t := Frame(m[d][Pdx(vp)]);
            var m' := m[t := m[t][Ptx(vp) := w]];
            PteAt(m', e, vq) == if e == d && vq == vp then w else PteAt(m, e, vq)
  {
    assert PdeOk(m, o, d, Pdx(vp));
    assert PdeOk(m, o, e, Pdx(vq));
  }

  /** A kernel mapping is no claim on a frame. */
  lemma StoreKernel(m: Memory, o: Owner, d: nat, vp: nat, w: Word)
    requires Tables(m, o) && d in o && o[d] == Dir && KPAGE <= vp < VPAGES && Present(m[d][Pdx(vp)])
    ensures var t := Frame(m[d][Pdx(vp)]);
            && t < |m| && t in o && o[t] == Table(d, Pdx(vp))
            && Tables(m[t := m[t][Ptx(vp) := w]], o)
  {
    PteStore(m, o, d, vp, w, d, vp);
    var t := Frame(m[d][Pdx(vp)]);
    var m' := m[t := m[t][Ptx(vp) := w]];
    forall e, vq | e in o && o[e] == Dir && 0 <= vq < KPAGE
      ensures PteAt(m', e, vq) == PteAt(m, e, vq) && PteOk(m', o, e, vq)
    {
      PteStore(m, o, d, vp, w, e, vq);
      assert PteOk(m, o, e, vq);
    }
    forall e, i | e in o && o[e] == Dir && 0 <= i < 1024
      ensures PdeOk(m', o, e, i)
    {
      assert PdeOk(m, o, e, i);
    }
    forall f | f in o
      ensures f < |m'| && RoleOk(m', o, f, o[f])
    {
      assert RoleOk(m, o, f, o[f]);
    }
  }

  /** A frame in transit becomes user page vp of d. */
  lemma LinkUser(m: Memory, o: Owner, d: nat, vp: nat, w: Word)
    requires Tables(m, o) && d in o && o[d] == Dir && vp < KPAGE && Present(m[d][Pdx(vp)])
    requires !Present(PteAt(m, d, vp)) && Present(w) && Frame(w) < |m| && Frame(w) !in o
    ensures var t := Frame(m[d][Pdx(vp)]);
            && t < |m| && t in o && o[t] == Table(d, Pdx(vp))
            && Tables(m[t := m[t][Ptx(vp) := w]], o[Frame(w) := User(d, vp)])
  {
    PteStore(m, o, d, vp, w, d, vp);
    var t := Frame(m[d][Pdx(vp)]);
    var m', o' := m[t := m[t][Ptx(vp) := w]], o[Frame(w) := User(d, vp)];
    forall e, vq | e in o' && o'[e] == Dir && 0 <= vq < KPAGE
      ensures PteAt(m', e, vq) == (if e == d && vq == vp then w else PteAt(m, e, vq)) && PteOk(m', o', e, vq)
    {
      PteStore(m, o, d, vp, w, e, vq);
      assert PteOk(m, o, e, vq);
    }
    forall e, i | e in o' && o'[e] == Dir && 0 <= i < 1024
      ensures PdeOk(m', o', e, i)
    {
      assert PdeOk(m, o, e, i);
    }
    forall f | f in o'
      ensures f < |m'| && RoleOk(m', o', f, o'[f])
    {
      if f != Frame(w) { assert RoleOk(m, o, f, o[f]); }
    }
  }

  /** A user page is unmapped: its frame is in transit. */
  lemma UnlinkUser(m: Memory, o: Owner, d: nat, vp: nat)
    requires Tables(m, o) && d in o && o[d] == Dir && vp < KPAGE && Present(PteAt(m, d, vp))
    ensures var t := Frame(m[d][Pdx(vp)]);
            var f := Frame(PteAt(m, d, vp));
            && Present(m[d][Pdx(vp)]) && t < |m| && t in o && o[t] == Table(d, Pdx(vp))
            && f in o && o[f] == User(d, vp)
            && Tables(m[t := m[t][Ptx(vp) := 0]], o - {f})
  {
    PteStore(m, o, d, vp, 0, d, vp);
    assert PteOk(m, o, d, vp);
    var t, f := Frame(m[d][Pdx(vp)]), Frame(PteAt(m, d, vp));
    var m', o' := m[t := m[t][Ptx(vp) := 0]], o - {f};
    forall e, vq | e in o' && o'[e] == Dir && 0 <= vq < KPAGE
      ensures PteAt(m', e, vq) == (if e == d && vq == vp then 0 else PteAt(m, e, vq)) && PteOk(m', o', e, vq)
    {
      PteStore(m, o, d, vp, 0, e, vq);
      assert PteOk(m, o, e, vq);
    }
    forall e, i | e in o' && o'[e] == Dir && 0 <= i < 1024
      ensures PdeOk(m', o', e, i)
    {
      assert PdeOk(m, o, e, i);
    }
    forall g | g in o'
      ensures g < |m'| && RoleOk(m', o', g, o'[g])
    {
      assert RoleOk(m, o, g, o[g]);
    }
  }

  /** Everything that belongs to directory d, and d itself. */
  predicate Of(r: Role, f: nat, d: nat) {
    (r == Dir && f == d) || (r.Table? && r.d == d) || (r.User? && r.d == d)
  }

  function Without(o: Owner, d: nat): (r: Owner) {
    map f | f in o && !Of(o[f], f, d) :: o[f]
  }

  function Belongs(o: Owner, d: nat): (r: set<nat>) {
    set f | f in o && Of(o[f], f, d)
  }

  /** A whole directory leaves at once. */
  lemma Detach(m: Memory, o: Owner, d: nat)
    requires Tables(m, o) && d in o && o[d] == Dir
    ensures Tables(m, Without(o, d))
  {
    var o' := Without(o, d);
    forall f | f in o'
      ensures f < |m| && RoleOk(m, o', f, o'[f])
    {
      assert RoleOk(m, o, f, o[f]);
    }
    forall e, i | e in o' && o'[e] == Dir && 0 <= i < 1024
      ensures PdeOk(m, o', e, i)
    {
      assert PdeOk(m, o, e, i);
    }
    forall e, vp | e in o' && o'[e] == Dir && 0 <= vp < KPAGE
      ensures PteOk(m, o', e, vp)
    {
      assert PteOk(m, o, e, vp);
    }
  }
}
