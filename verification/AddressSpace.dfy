/** Address spaces: building page tables from free frames, growing a process, copying one for fork(). */
module AddressSpace {
  import opened Blocks
  import opened Options
  import opened PageTable
  import Ring

  const PGSIZE := 4096

  datatype Mapped = Mapped | NoMemory | Remap

  type Frames = map<nat, seq<Byte>>

  /** The directory and its tables are none of those in `base`, and those in `base` are as they were. */
  ghost predicate Apart(base: Tables, tables: Tables, d: nat) {
    && (forall t :: t in base ==> t in tables && tables[t] == base[t])
    && d in tables && |tables[d]| == ENTRIES && d !in base
    && (forall i :: 0 <= i < ENTRIES && tables[d][i].present ==> tables[d][i].frame !in base)
  }

  /** The map with `n` pages from `v` on sent to frames from `frame` on, and otherwise as before. */
  ghost predicate Maps(was: Tables, tables: Tables, d: nat, v: nat, n: nat, frame: nat, user: bool) {
    forall w: nat :: w < ALL_PAGES ==>
      Lookup(tables, d, w) == if v <= w < v + n then Pte(true, user, frame + (w - v)) else Lookup(was, d, w)
  }

  /** Tables and user pages there were before are there and unchanged. */
  ghost predicate Untouched(base: Tables, was: Frames, tables: Tables, frames: Frames) {
    && (forall t :: t in base ==> t in tables && tables[t] == base[t])
    && (forall f :: f in was ==> f in frames && frames[f] == was[f])
  }

  /** The user pages of a directory are its own: none is among `was`, and each is reached from one virtual page,
      which `page` gives. */
  ghost predicate OwnPages(was: Frames, page: map<nat, nat>, tables: Tables, frames: Frames, d: nat, n: nat) {
    forall w: nat :: w < USER_PAGES ==>
      var c := Lookup(tables, d, w);
      if w < n then c.present && c.user && c.frame in frames && c.frame !in was && c.frame in page && page[c.frame] == w
      else c == ABSENT
  }

  /** The first `n` pages of the child hold what the parent's hold. */
  ghost predicate SameContents(base: Tables, was: Frames, parent: nat, tables: Tables, frames: Frames, child: nat,
                               n: nat) {
    forall w: nat {:trigger Lookup(tables, child, w)} :: w < n ==>
      var p, c := Lookup(base, parent, w), Lookup(tables, child, w);
      p.present && p.frame in was && c.frame in frames && frames[c.frame] == was[p.frame]
  }

  // ---- What it costs ----

  /** The entries of a directory that lead to tables. */
  ghost function Slots(tables: Tables, d: nat): set<nat> {
    if d in tables && |tables[d]| == ENTRIES then set i: nat | i < ENTRIES && tables[d][i].present else {}
  }

  /** The entries of a directory that `n` pages from `v` on need: one for every 1024 pages. */
  ghost function SlotsFor(v: nat, n: nat): set<nat> {
    set w: nat | v <= w < v + n :: w / 1024
  }

  /** The entries the first `k` ranges of the kernel's map need. */
  ghost function KernelSlots(kmap: seq<Range>, k: nat): set<nat>
    requires k <= |kmap|
  {
    if k == 0 then {} else KernelSlots(kmap, k - 1) + SlotsFor(kmap[k - 1].v, kmap[k - 1].n)
  }

  /** Frames a new address space with `n` user pages takes: its directory, a table for every entry, the pages. */
  ghost function SpaceCost(kmap: seq<Range>, n: nat): nat {
    1 + |KernelSlots(kmap, |kmap|) + SlotsFor(0, n)| + n
  }

  /** Frames that `n` pages from `v` on take in a directory with tables at `slots`: the tables not there, the pages. */
  ghost function GrowthCost(slots: set<nat>, v: nat, n: nat): nat {
    |SlotsFor(v, n) - slots| + n
  }

  /** One more frame for a table is one fewer free. */
  ghost predicate Pays(free: set<nat>, tables: Tables, free': set<nat>, tables': Tables, d: nat, pages: nat) {
    |free'| + |Slots(tables', d)| + pages == |free| + |Slots(tables, d)|
  }

  lemma SlotAdded(tables: Tables, d: nat, i: nat, t: nat)
    requires Shaped(tables) && d in tables && i < ENTRIES && !tables[d][i].present && t !in tables
    ensures var tables' := tables[t := EmptyTable()][d := tables[d][i := Pte(true, true, t)]];
            Slots(tables', d) == Slots(tables, d) + {i} && i !in Slots(tables, d)
  {
    var tables' := tables[t := EmptyTable()][d := tables[d][i := Pte(true, true, t)]];
    assert d in tables' && tables'[d] == tables[d][i := Pte(true, true, t)];
  }

  lemma SlotIs(tables: Tables, d: nat, i: nat)
    requires Shaped(tables) && d in tables && i < ENTRIES
    ensures i in Slots(tables, d) <==> tables[d][i].present
  {
  }

  lemma SameSlots(tables: Tables, d: nat, t: nat, k: nat, pte: Pte)
    requires Shaped(tables) && d in tables && t in tables && t != d && k < ENTRIES
    ensures Slots(tables[t := tables[t][k := pte]], d) == Slots(tables, d)
  {
  }

  lemma NoEntry(tables: Tables, d: nat, v: nat)
    requires DirOk(tables, d) && v < ALL_PAGES && !tables[d][v / ENTRIES].present
    ensures Lookup(tables, d, v) == ABSENT
  {
  }

  lemma DirAt(tables: Tables, d: nat)
    requires DirOk(tables, d)
    ensures d in tables && |tables[d]| == ENTRIES
  {
  }

  /** The free frames and the tables, when one becomes the other. */
  lemma FrameSpent(free: set<nat>, f: nat, slots: set<nat>, i: nat)
    requires f in free && i !in slots
    ensures |free - {f}| + |slots + {i}| == |free| + |slots|
  {
  }

  lemma SlotsNext(v: nat, n: nat)
    ensures SlotsFor(v, 0) == {} && SlotsFor(v, n + 1) == SlotsFor(v, n) + {(v + n) / 1024}
  {
    var more := SlotsFor(v, n + 1);
    forall x | x in SlotsFor(v, n) ensures x in more {
    }
    assert (v + n) / 1024 in more;
    forall x | x in more ensures x in SlotsFor(v, n) || x == (v + n) / 1024 {
    }
  }

  lemma {:induction false} SlotsGrow(v: nat, n: nat, m: nat)
    requires n <= m
    ensures SlotsFor(v, n) <= SlotsFor(v, m)
  {
  }

  lemma {:induction false} KernelGrows(kmap: seq<Range>, k: nat, m: nat)
    requires k <= m <= |kmap|
    ensures KernelSlots(kmap, k) <= KernelSlots(kmap, m)
    decreases m
  {
    hide SlotsFor;
    if k < m {
      KernelGrows(kmap, k, m - 1);
    }
  }

  lemma OnePageCost(slots: set<nat>, v: nat)
    ensures SlotsFor(v, 1) == {v / 1024} && GrowthCost(slots, v, 1) == if v / 1024 in slots then 1 else 2
  {
    SlotsNext(v, 0);
    assert SlotsFor(v, 1) == {v / 1024};
    assert SlotsFor(v, 1) - slots == if v / 1024 in slots then {} else {v / 1024};
  }

  lemma KernelCost(kmap: seq<Range>, n: nat)
    ensures 1 + |KernelSlots(kmap, |kmap|)| <= SpaceCost(kmap, n) && SlotsFor(0, 0) == {}
    ensures KernelSlots(kmap, |kmap|) + SlotsFor(0, 0) == KernelSlots(kmap, |kmap|)
  {
    hide SlotsFor;
    SlotsNext(0, 0);
    Ring.SubsetSize(KernelSlots(kmap, |kmap|), KernelSlots(kmap, |kmap|) + SlotsFor(0, n));
  }

  /** Page i of n: what it costs beyond the first i is within what n cost. */
  lemma CopyCost(kmap: seq<Range>, slots: set<nat>, i: nat, n: nat)
    requires i < n && slots == KernelSlots(kmap, |kmap|) + SlotsFor(0, i)
    ensures SlotsFor(0, i + 1) == SlotsFor(0, i) + SlotsFor(i, 1)
    ensures 1 + |slots| + i + GrowthCost(slots, i, 1) <= SpaceCost(kmap, n)
  {
    hide SlotsFor;
    SlotsNext(0, i);
    OnePageCost(slots, i);
    SlotsGrow(0, i + 1, n);
    UnionCost(slots, SlotsFor(i, 1));
    Ring.SubsetSize(slots + SlotsFor(i, 1), KernelSlots(kmap, |kmap|) + SlotsFor(0, n));
  }

  /** The same for pages that join a directory with tables. */
  lemma GrowCost(s0: set<nat>, slots: set<nat>, lo: nat, i: nat, n: nat)
    requires i < n && slots == s0 + SlotsFor(lo, i)
    ensures SlotsFor(lo, i + 1) == SlotsFor(lo, i) + SlotsFor(lo + i, 1)
    ensures |slots| + i + GrowthCost(slots, lo + i, 1) <= |s0| + GrowthCost(s0, lo, n)
  {
    hide SlotsFor;
    SlotsNext(lo, i);
    OnePageCost(slots, lo + i);
    SlotsGrow(lo, i + 1, n);
    UnionCost(slots, SlotsFor(lo + i, 1));
    UnionCost(s0, SlotsFor(lo, n));
    Ring.SubsetSize(slots + SlotsFor(lo + i, 1), s0 + SlotsFor(lo, n));
  }

  lemma GrownCost(s0: set<nat>, slots: set<nat>, lo: nat, n: nat)
    requires slots == s0 + SlotsFor(lo, n)
    ensures |slots| + n == |s0| + GrowthCost(s0, lo, n)
  {
    UnionCost(s0, SlotsFor(lo, n));
  }

  lemma NotYet(t0: Tables, f0: Frames, tables: Tables, frames: Frames, d: nat, lo: nat, w: nat)
    requires Zeroed(t0, f0, tables, frames, d, lo, w) && lo <= w < USER_PAGES && Lookup(t0, d, w) == ABSENT
    ensures Lookup(tables, d, w) == ABSENT
  {
    hide Lookup;
  }

  lemma AllThere(base: Tables, was: Frames, parent: nat, tables: Tables, frames: Frames, child: nat, n: nat)
    requires SameContents(base, was, parent, tables, frames, child, n)
    ensures forall w: nat :: w < n ==> Lookup(base, parent, w).present
  {
    forall w: nat | w < n ensures Lookup(base, parent, w).present {
      var c := Lookup(tables, child, w);
    }
  }

  /** The user part takes a table for every 1024 pages, begun or full. */
  lemma {:induction false} UserTables(n: nat)
    ensures |SlotsFor(0, n)| == (n + 1023) / 1024
    ensures forall x :: x in SlotsFor(0, n) ==> x < (n + 1023) / 1024
  {
    if n == 0 {
      assert SlotsFor(0, 0) == {};
    } else {
      var m := n - 1;
      UserTables(m);
      SlotsNext(0, m);
      if m % 1024 == 0 {
        assert m / 1024 !in SlotsFor(0, m);
      } else {
        assert m - 1 >= 0 && (m - 1) / 1024 == m / 1024;
        assert m / 1024 in SlotsFor(0, m);
        assert SlotsFor(0, n) == SlotsFor(0, m);
      }
    }
  }

  lemma {:induction false} KernelAbove(kmap: seq<Range>, k: nat)
    requires k <= |kmap| && forall j :: 0 <= j < |kmap| ==> USER_PAGES <= kmap[j].v
    ensures forall x :: x in KernelSlots(kmap, k) ==> 512 <= x
  {
    if k > 0 {
      KernelAbove(kmap, k - 1);
    }
  }

  /** What copyuvm() needs, in numbers: a directory, the kernel's tables, the user's tables and the pages. */
  lemma SpaceCostIs(kmap: seq<Range>, n: nat)
    requires n <= USER_PAGES && forall j :: 0 <= j < |kmap| ==> USER_PAGES <= kmap[j].v
    ensures SpaceCost(kmap, n) == 1 + |KernelSlots(kmap, |kmap|)| + (n + 1023) / 1024 + n
  {
    hide SlotsFor, KernelSlots;
    UserTables(n);
    KernelAbove(kmap, |kmap|);
    var k := KernelSlots(kmap, |kmap|);
    UnionCost(k, SlotsFor(0, n));
    assert SlotsFor(0, n) - k == SlotsFor(0, n);
  }

  /** A table that is still missing when the frames are gone: those there are too few. */
  lemma TooFew(have: set<nat>, need: set<nat>, x: nat)
    requires have <= need && x in need && x !in have
    ensures |have| + 1 <= |need|
  {
    Ring.SubsetSize(have + {x}, need);
  }

  lemma UnionCost(slots: set<nat>, more: set<nat>)
    ensures |slots + more| == |slots| + |more - slots|
  {
    assert slots + more == slots + (more - slots);
  }

  datatype Range = Range(v: nat, n: nat, frame: nat)

  datatype Copy = Child(d: nat) | Refused | Panicked

  function PagesOf(sz: nat): (n: nat)
    ensures 4096 * n >= sz && 4096 * n < sz + 4096
  {
    (sz + PGSIZE - 1) / PGSIZE
  }

  function ZeroPage(): (s: seq<Byte>)
    ensures |s| == 4096 && forall k :: 0 <= k < 4096 ==> s[k] == 0
  {
    seq(PGSIZE, _ => 0)
  }

  class Machine {
    var tables: Tables
    var frames: Frames
    var free: set<nat>

    /** A frame is free, or holds a table, or holds a user page. */
    ghost predicate Valid()
      reads this
    {
      && Shaped(tables) && (forall f :: f in frames ==> |frames[f]| == PGSIZE)
      && tables.Keys !! frames.Keys && tables.Keys !! free && frames.Keys !! free
    }

    /** kalloc(), as the page allocator behaves when nothing is damaged: some free frame, or none. */
    method Kalloc() returns (f: Option<nat>)
      requires Valid()
      modifies `free
      ensures Valid() && (f.None? <==> old(free) == {})
      ensures f.None? ==> free == old(free)
      ensures f.Some? ==> f.value in old(free) && free == old(free) - {f.value}
      ensures f.Some? ==> f.value !in tables && f.value !in frames
    {
      if free == {} {
        return None;
      }
      var x :| x in free;
      free := free - {x};
      return Some(x);
    }

    /** kfree() of a user page. */
    method Kfree(f: nat)
      requires Valid() && f in frames
      modifies `frames, `free
      ensures Valid() && frames == old(frames) - {f} && free == old(free) + {f}
    {
      frames := frames - {f};
      free := free + {f};
    }

    /** walkpgdir(): the table for a page, made if asked for; the map it stands for is the same. */
    method WalkPgdir(ghost base: Tables, d: nat, v: nat, alloc: bool) returns (t: Option<nat>)
      requires Valid() && DirOk(tables, d) && Apart(base, tables, d) && v < ALL_PAGES
      modifies `tables, `free
      ensures Valid() && DirOk(tables, d) && Apart(base, tables, d) && free <= old(free)
      ensures forall w: nat :: w < ALL_PAGES ==> Lookup(tables, d, w) == old(Lookup(tables, d, w))
      ensures t.Some? ==> tables[d][v / ENTRIES].present && tables[d][v / ENTRIES].frame == t.value
      ensures t.None? ==> !tables[d][v / ENTRIES].present && Lookup(tables, d, v) == ABSENT && (alloc ==> free == {})
      ensures !alloc ==> tables == old(tables) && free == old(free)
      ensures Slots(tables, d) == old(Slots(tables, d)) + if alloc && t.Some? then {v / ENTRIES} else {}
      ensures Pays(old(free), old(tables), free, tables, d, 0)
    {
      hide Slots, Lookup, DirOk;
      assert v / ENTRIES < |tables[d]| by { DirAt(tables, d); }
      SlotIs(tables, d, v / ENTRIES);
      var pde := tables[d][v / ENTRIES];
      if pde.present {
        return Some(pde.frame);
      }
      assert Lookup(tables, d, v) == ABSENT by { NoEntry(tables, d, v); }
      if !alloc {
        return None;
      }
      t := Kalloc();
      if t.Some? {
        AddTable(tables, d, v / ENTRIES, t.value);
        SlotAdded(tables, d, v / ENTRIES, t.value);
        FrameSpent(old(free), t.value, Slots(tables, d), v / ENTRIES);
        tables := tables[t.value := EmptyTable()];
        tables := tables[d := tables[d][v / ENTRIES := Pte(true, true, t.value)]];
      }
    }

    /** One page of mappages(): writing over a user page that is mapped elsewhere is the "remap" panic. */
    method MapPage(ghost base: Tables, d: nat, v: nat, frame: nat, user: bool) returns (r: Mapped)
      requires Valid() && DirOk(tables, d) && Apart(base, tables, d) && v < ALL_PAGES
      modifies `tables, `free
      ensures Valid() && DirOk(tables, d) && Apart(base, tables, d) && free <= old(free)
      ensures r.Mapped? ==> Maps(old(tables), tables, d, v, 1, frame, user)
      ensures !r.Mapped? ==> forall w: nat :: w < ALL_PAGES ==> Lookup(tables, d, w) == old(Lookup(tables, d, w))
      ensures r.NoMemory? ==> free == {} && v / ENTRIES !in Slots(tables, d)
      ensures Slots(tables, d) == old(Slots(tables, d)) + if r.NoMemory? then {} else {v / ENTRIES}
      ensures Pays(old(free), old(tables), free, tables, d, 0)
      ensures r.Remap? ==>
                v < USER_PAGES && old(Lookup(tables, d, v)).present && old(Lookup(tables, d, v)).frame != frame
    {
      hide Slots;
      SlotIs(tables, d, v / ENTRIES);
      var t := WalkPgdir(base, d, v, true);
      SlotIs(tables, d, v / ENTRIES);
      if t.None? {
        return NoMemory;
      }
      SameSlots(tables, d, t.value, v % ENTRIES, Pte(true, user, frame));
      var pte := tables[t.value][v % ENTRIES];
      if pte.present && pte.frame != frame && v < USER_PAGES {
        return Remap;
      }
      SetEntry(tables, d, v, Pte(true, user, frame));
      tables := tables[t.value := tables[t.value][v % ENTRIES := Pte(true, user, frame)]];
      return Mapped;
    }

    /** mappages(), in whole pages. */
    method MapPages(ghost base: Tables, d: nat, v: nat, n: nat, frame: nat, user: bool) returns (r: Mapped)
      requires Valid() && DirOk(tables, d) && Apart(base, tables, d) && v + n <= ALL_PAGES
      modifies `tables, `free
      ensures Valid() && DirOk(tables, d) && Apart(base, tables, d) && free <= old(free)
      ensures r.Mapped? ==> Maps(old(tables), tables, d, v, n, frame, user)
      ensures !r.Mapped? ==> exists k: nat :: k <= n && Maps(old(tables), tables, d, v, k, frame, user)
      ensures r.NoMemory? ==>
                free == {} && exists x :: x in SlotsFor(v, n) && x !in Slots(tables, d)
      ensures old(Slots(tables, d)) <= Slots(tables, d) <= old(Slots(tables, d)) + SlotsFor(v, n)
      ensures r.Mapped? ==> Slots(tables, d) == old(Slots(tables, d)) + SlotsFor(v, n)
      ensures Pays(old(free), old(tables), free, tables, d, 0)
      ensures r.Remap? ==> exists w: nat :: v <= w < v + n && w < USER_PAGES && old(Lookup(tables, d, w)).present
    {
      hide Lookup, DirOk, Apart, Slots, SlotsFor, Maps;
      SlotsNext(v, 0);
      assert Maps(tables, tables, d, v, 0, frame, user) by { MapsNone(tables, d, v, frame, user); }
      for i := 0 to n
        invariant Valid() && DirOk(tables, d) && Apart(base, tables, d) && free <= old(free)
        invariant Maps(old(tables), tables, d, v, i, frame, user)
        invariant Slots(tables, d) == old(Slots(tables, d)) + SlotsFor(v, i)
        invariant Pays(old(free), old(tables), free, tables, d, 0)
      {
        hide Lookup, DirOk, Apart, Slots, SlotsFor, Maps;
        SlotsNext(v, i);
        SlotsGrow(v, i + 1, n);
        ghost var t0 := tables;
        assert v + i < USER_PAGES ==> Lookup(t0, d, v + i) == Lookup(old(tables), d, v + i) by {
          MapsAbove(old(tables), t0, d, v, i, frame, user);
        }
        r := MapPage(base, d, v + i, frame + i, user);
        MapsMore(old(tables), t0, tables, d, v, i, frame, user);
        if !r.Mapped? {
          assert (v + i) / 1024 in SlotsFor(v, n);
          return;
        }
      }
      return Mapped;
    }

    /** freevm(), in one step: the directory, its tables and its user pages but the first four go back. */
    method FreeVm(ghost base: Tables, ghost was: Frames, d: nat)
      requires Valid() && DirOk(tables, d) && Apart(base, tables, d) && Untouched(base, was, tables, frames)
      requires forall w: nat :: w < USER_PAGES && Lookup(tables, d, w).present ==> Lookup(tables, d, w).frame !in was
      modifies this
      ensures Valid() && Untouched(base, was, tables, frames)
    {
      var user := set w: nat | 4 <= w < USER_PAGES && Lookup(tables, d, w).present :: Lookup(tables, d, w).frame;
      var own := {d} + set i | 0 <= i < ENTRIES && tables[d][i].present :: tables[d][i].frame;
      free := free + (user * frames.Keys) + own;
      frames := frames - user;
      tables := tables - own;
    }

    /** One range of the kernel's map. When there is no frame for a table all is given back. */
    method MapRange(ghost base: Tables, d: nat, r: Range) returns (ok: bool)
      requires Valid() && DirOk(tables, d) && Apart(base, tables, d) && USER_PAGES <= r.v && r.v + r.n <= ALL_PAGES
      requires forall w: nat :: w < USER_PAGES ==> Lookup(tables, d, w) == ABSENT
      modifies this
      ensures Valid() && Untouched(base, old(frames), tables, frames)
      ensures ok ==> DirOk(tables, d) && Apart(base, tables, d) && frames == old(frames)
      ensures ok ==> forall w: nat :: w < USER_PAGES ==> Lookup(tables, d, w) == ABSENT
      ensures ok ==> Slots(tables, d) == old(Slots(tables, d)) + SlotsFor(r.v, r.n)
      ensures ok ==> Pays(old(free), old(tables), free, tables, d, 0)
      ensures !ok ==> |old(free)| + |old(Slots(tables, d))| < |old(Slots(tables, d)) + SlotsFor(r.v, r.n)|
    {
      hide Lookup, Apart, DirOk, Slots, SlotsFor, Maps;
      var m := MapPages(base, d, r.v, r.n, r.frame, false);
      NoUser(old(tables), tables, d, r);
      assert Untouched(base, frames, tables, frames) by { Kept(base, tables, d); }
      ok := m.Mapped?;
      if !ok {
        ghost var x :| x in SlotsFor(r.v, r.n) && x !in Slots(tables, d);
        TooFew(Slots(tables, d), old(Slots(tables, d)) + SlotsFor(r.v, r.n), x);
        FreeVm(base, frames, d);
      }
    }

    /** A new directory, empty. */
    method NewDir() returns (d: Option<nat>)
      requires Valid()
      modifies `tables, `free
      ensures Valid() && Untouched(old(tables), frames, tables, frames) && (d.None? <==> old(free) == {})
      ensures d.Some? ==> DirOk(tables, d.value) && Apart(old(tables), tables, d.value)
      ensures d.Some? ==> forall w: nat :: w < USER_PAGES ==> Lookup(tables, d.value, w) == ABSENT
      ensures d.Some? ==> Slots(tables, d.value) == {} && |free| + 1 == |old(free)|
    {
      hide Lookup, Apart, DirOk, Slots;
      d := Kalloc();
      if d.Some? {
        tables := tables[d.value := EmptyTable()];
        NewDirectory(old(tables), d.value);
      }
    }

    /** setupkvm(): a directory with the kernel's pages, given as ranges above KERNBASE, and no user page. */
    method SetupKvm(kmap: seq<Range>) returns (d: Option<nat>)
      requires Valid() && forall k :: 0 <= k < |kmap| ==> USER_PAGES <= kmap[k].v && kmap[k].v + kmap[k].n <= ALL_PAGES
      modifies this
      ensures Valid() && Untouched(old(tables), old(frames), tables, frames)
      ensures d.Some? ==> DirOk(tables, d.value) && Apart(old(tables), tables, d.value) && frames == old(frames)
      ensures d.Some? ==> forall w: nat :: w < USER_PAGES ==> Lookup(tables, d.value, w) == ABSENT
      ensures d.Some? <==> |old(free)| >= 1 + |KernelSlots(kmap, |kmap|)|
      ensures d.Some? ==> Slots(tables, d.value) == KernelSlots(kmap, |kmap|)
      ensures d.Some? ==> |free| + |Slots(tables, d.value)| + 1 == |old(free)|
    {
      hide Lookup, Apart, DirOk, Slots, SlotsFor, Untouched;
      d := NewDir();
      if d.None? {
        return;
      }
      for k := 0 to |kmap|
        invariant Valid() && DirOk(tables, d.value) && Apart(old(tables), tables, d.value) && frames == old(frames)
        invariant Untouched(old(tables), old(frames), tables, frames)
        invariant forall w: nat :: w < USER_PAGES ==> Lookup(tables, d.value, w) == ABSENT
        invariant Slots(tables, d.value) == KernelSlots(kmap, k)
        invariant |free| + |Slots(tables, d.value)| + 1 == |old(free)|
      {
        hide Lookup, Apart, DirOk, Slots, SlotsFor, Untouched;
        KernelGrows(kmap, k + 1, |kmap|);
        Ring.SubsetSize(KernelSlots(kmap, k + 1), KernelSlots(kmap, |kmap|));
        var ok := MapRange(old(tables), d.value, kmap[k]);
        if !ok {
          return None;
        }
      }
    }

    method ReadPte(d: nat, v: nat) returns (pte: Pte)
      requires Valid() && DirOk(tables, d) && v < ALL_PAGES
      modifies `tables, `free
      ensures tables == old(tables) && free == old(free) && pte == Lookup(tables, d, v)
    {
      var t := WalkPgdir(map[], d, v, false);
      if t.None? {
        return ABSENT;
      }
      pte := tables[t.value][v % ENTRIES];
    }

    /** A new frame with these contents, mapped for the user. When there is no frame for its table it stays behind. */
    method NewPage(ghost base: Tables, d: nat, w: nat, contents: seq<Byte>) returns (f: Option<nat>, mapped: bool)
      requires Valid() && DirOk(tables, d) && Apart(base, tables, d) && w < USER_PAGES && |contents| == PGSIZE
      modifies this
      ensures Valid() && DirOk(tables, d) && Apart(base, tables, d)
      ensures f.None? ==> !mapped && frames == old(frames) && tables == old(tables) && old(free) == {}
      ensures f.Some? ==> f.value !in old(frames) && frames == old(frames)[f.value := contents]
      ensures mapped ==> f.Some? && Maps(old(tables), tables, d, w, 1, f.value, true)
      ensures mapped ==> Slots(tables, d) == old(Slots(tables, d)) + {w / 1024}
      ensures mapped ==> Pays(old(free), old(tables), free, tables, d, 1)
      ensures !mapped ==> forall x: nat :: x < ALL_PAGES ==> Lookup(tables, d, x) == old(Lookup(tables, d, x))
      ensures !mapped && !old(Lookup(tables, d, w)).present ==>
                |old(free)| < if w / 1024 in old(Slots(tables, d)) then 1 else 2
    {
      hide Lookup, Apart, DirOk, Maps, Slots;
      f := Kalloc();
      if f.None? {
        return f, false;
      }
      frames := frames[f.value := contents];
      var m := MapPage(base, d, w, f.value, true);
      mapped := m.Mapped?;
      assert |old(free)| == |old(free) - {f.value}| + 1;
    }

    /** One page of copyuvm(). */
    method CopyPage(ghost base: Tables, ghost was: Frames, ghost page: map<nat, nat>, parent: nat, d: nat, i: nat)
      returns (r: Copy, ghost page': map<nat, nat>)
      requires Valid() && DirOk(tables, d) && Apart(base, tables, d) && Untouched(base, was, tables, frames)
      requires DirOk(base, parent) && i < USER_PAGES
      requires Lookup(base, parent, i).present ==> Lookup(base, parent, i).frame in was
      requires OwnPages(was, page, tables, frames, d, i) && SameContents(base, was, parent, tables, frames, d, i)
      modifies this
      ensures Valid() && Untouched(base, was, tables, frames)
      ensures r.Panicked? ==> !Lookup(base, parent, i).present
      ensures r.Refused? ==> |old(free)| < GrowthCost(old(Slots(tables, d)), i, 1)
      ensures r.Child? ==> Slots(tables, d) == old(Slots(tables, d)) + SlotsFor(i, 1)
      ensures r.Child? ==> Pays(old(free), old(tables), free, tables, d, 1)
      ensures r.Child? ==> r.d == d && DirOk(tables, d) && Apart(base, tables, d)
      ensures r.Child? ==> OwnPages(was, page', tables, frames, d, i + 1)
      ensures r.Child? ==> SameContents(base, was, parent, tables, frames, d, i + 1)
    {
      hide Lookup, Apart, DirOk, OwnPages, SameContents, Maps, Slots, SlotsFor;
      page' := page;
      OnePageCost(Slots(tables, d), i);
      assert DirOk(tables, parent) && Lookup(tables, parent, i) == Lookup(base, parent, i) by {
        Elsewhere(base, tables, parent);
      }
      var pte := ReadPte(parent, i);
      if !pte.present {
        return Panicked, page';
      }
      NotShared(was, page, tables, frames, d, i);
      ghost var tables0, frames0 := tables, frames;
      var f, mapped := NewPage(base, d, i, frames[pte.frame]);
      assert Untouched(base, was, tables, frames) by { Kept(base, tables, d); }
      if !mapped {
        FreeVm(base, was, d);
        return Refused, page';
      }
      page' := page[f.value := i];
      CopyStep(base, was, page, tables0, frames0, tables, parent, d, i, f.value);
      return Child(d), page';
    }

    /** copyuvm(): every page of the parent copied to a frame of the child's own. */
    method CopyUvm(kmap: seq<Range>, parent: nat, sz: nat) returns (r: Copy)
      requires Valid() && forall k :: 0 <= k < |kmap| ==> USER_PAGES <= kmap[k].v && kmap[k].v + kmap[k].n <= ALL_PAGES
      requires DirOk(tables, parent)
      requires forall w: nat :: w < USER_PAGES && Lookup(tables, parent, w).present ==>
                 Lookup(tables, parent, w).frame in frames
      modifies this
      ensures Valid() && Untouched(old(tables), old(frames), tables, frames)
      ensures sz >= USER_PAGES * PGSIZE ==> r.Refused?
      ensures r.Panicked? ==> exists w: nat :: w < PagesOf(sz) && !old(Lookup(tables, parent, w)).present
      ensures r.Child? ==> DirOk(tables, r.d) && Apart(old(tables), tables, r.d)
      ensures r.Child? ==> SameContents(old(tables), old(frames), parent, tables, frames, r.d, PagesOf(sz))
      ensures r.Child? ==> exists page :: OwnPages(old(frames), page, tables, frames, r.d, PagesOf(sz))
      ensures sz < USER_PAGES * PGSIZE && |old(free)| >= SpaceCost(kmap, PagesOf(sz)) ==> !r.Refused?
      ensures r.Child? <==>
                && sz < 0x8000_0000 && |old(free)| >= SpaceCost(kmap, PagesOf(sz))
                && forall w: nat :: w < PagesOf(sz) ==> old(Lookup(tables, parent, w)).present
    {
      hide Lookup, Apart, DirOk, OwnPages, SameContents, Slots, SlotsFor;
      NothingTouched(tables, frames);
      KernelCost(kmap, PagesOf(sz));
      if sz >= USER_PAGES * PGSIZE {
        return Refused;
      }
      var k := SetupKvm(kmap);
      if k.None? {
        return Refused;
      }
      var d := k.value;
      ghost var page: map<nat, nat> := map[];
      NoPages(old(tables), old(frames), parent, tables, frames, d);
      for i := 0 to PagesOf(sz)
        invariant Valid() && DirOk(tables, d) && Apart(old(tables), tables, d)
        invariant Untouched(old(tables), old(frames), tables, frames)
        invariant OwnPages(old(frames), page, tables, frames, d, i)
        invariant SameContents(old(tables), old(frames), parent, tables, frames, d, i)
        invariant Slots(tables, d) == KernelSlots(kmap, |kmap|) + SlotsFor(0, i)
        invariant |free| + |Slots(tables, d)| + 1 + i == |old(free)|
      {
        hide Lookup, Apart, DirOk, OwnPages, SameContents, Slots, SlotsFor, SpaceCost, GrowthCost;
        CopyCost(kmap, Slots(tables, d), i, PagesOf(sz));
        r, page := CopyPage(old(tables), old(frames), page, parent, d, i);
        if !r.Child? {
          return;
        }
      }
      AllThere(old(tables), old(frames), parent, tables, frames, d, PagesOf(sz));
      return Child(d);
    }

    /** deallocuvm(), from one page boundary to another: every page from the fourth on goes, and its frame is free. */
    method DeallocUvm(ghost page: map<nat, nat>, d: nat, lo: nat, hi: nat)
      requires Valid() && DirOk(tables, d) && lo <= hi <= USER_PAGES && SpaceOk(page, tables, frames, d)
      modifies this
      ensures Valid() && DirOk(tables, d) && SpaceOk(page, tables, frames, d)
      ensures Unmapped(old(tables), tables, d, lo, hi) && Returned(page, old(tables), old(frames), frames, d, lo, hi)
      ensures frames.Keys <= old(frames).Keys && free == old(free) + (old(frames).Keys - frames.Keys)
    {
      hide Lookup, DirOk, SpaceOk;
      var w := lo;
      while w < hi
        invariant lo <= w && Valid() && DirOk(tables, d) && SpaceOk(page, tables, frames, d)
        invariant Unmapped(old(tables), tables, d, lo, Least(w, hi))
        invariant Returned(page, old(tables), old(frames), frames, d, lo, Least(w, hi))
        invariant frames.Keys <= old(frames).Keys && free == old(free) + (old(frames).Keys - frames.Keys)
      {
        hide Lookup, DirOk, SpaceOk, Unmapped, Returned;
        w := DeallocStep(page, d, lo, w, hi, old(tables), old(frames));
      }
    }

    /** One round: a page passed over, the pages of a table that is not there, or a page given back. */
    method DeallocStep(ghost page: map<nat, nat>, d: nat, ghost lo: nat, w: nat, hi: nat, ghost t0: Tables,
                       ghost f0: Frames)
      returns (next: nat)
      requires Valid() && DirOk(tables, d) && SpaceOk(page, tables, frames, d) && lo <= w < hi <= USER_PAGES
      requires Unmapped(t0, tables, d, lo, w) && Returned(page, t0, f0, frames, d, lo, w)
      modifies this
      ensures w < next && Valid() && DirOk(tables, d) && SpaceOk(page, tables, frames, d)
      ensures Unmapped(t0, tables, d, lo, Least(next, hi)) && Returned(page, t0, f0, frames, d, lo, Least(next, hi))
      ensures frames.Keys <= old(frames).Keys && free == old(free) + (old(frames).Keys - frames.Keys)
    {
      hide Lookup, DirOk, SpaceOk, Unmapped, Returned, Apart, Slots, Pays;
      if w < FIRST_PAGES {
        SkipPages(page, t0, tables, f0, frames, d, lo, w, w + 1);
        return w + 1;
      }
      OnlyDir(tables, d);
      var t := WalkPgdir(map[], d, w, false);
      if t.None? {
        next := (w / ENTRIES + 1) * ENTRIES;
        NoTable(tables, d, w, next);
        SkipPages(page, t0, tables, f0, frames, d, lo, w, Least(next, hi));
      } else {
        ghost var t1, f1 := tables, frames;
        SpaceAt(page, t1, f1, d, w);
        DropPage(page, d, w, t.value);
        OnePage(page, t0, t1, tables, f0, f1, frames, d, lo, w);
        next := w + 1;
      }
    }

    /** One page of it that has a table. */
    method DropPage(ghost page: map<nat, nat>, d: nat, w: nat, t: nat)
      requires Valid() && DirOk(tables, d) && w < USER_PAGES && SpaceOk(page, tables, frames, d)
      requires tables[d][w / ENTRIES].present && tables[d][w / ENTRIES].frame == t
      modifies this
      ensures Valid() && DirOk(tables, d) && SpaceOk(page, tables, frames, d)
      ensures forall x: nat :: x < ALL_PAGES ==>
                Lookup(tables, d, x) == if x == w then ABSENT else old(Lookup(tables, d, x))
      ensures frames == if old(Lookup(tables, d, w)).present then old(frames) - {old(Lookup(tables, d, w)).frame}
                        else old(frames)
      ensures frames.Keys <= old(frames).Keys && free == old(free) + (old(frames).Keys - frames.Keys)
    {
      var pte := tables[t][w % ENTRIES];
      assert pte == Lookup(tables, d, w);
      SetEntry(tables, d, w, ABSENT);
      ghost var t0, f0 := tables, frames;
      tables := tables[t := tables[t][w % ENTRIES := ABSENT]];
      if pte.present {
        frames := frames - {pte.frame};
        free := free + {pte.frame};
      }
      SpaceShrinks(page, t0, f0, tables, frames, d, w);
    }

    /** allocuvm(), from one page boundary to another, for pages that had none: zeroed frames of their own, and nothing
        else changed. When memory runs out every page from the fourth on is as before. */
    method AllocUvm(ghost page: map<nat, nat>, d: nat, lo: nat, hi: nat) returns (ok: bool, ghost page': map<nat, nat>)
      requires Valid() && DirOk(tables, d) && lo <= hi <= USER_PAGES && SpaceOk(page, tables, frames, d)
      requires forall w: nat :: lo <= w < hi ==> Lookup(tables, d, w) == ABSENT
      modifies this
      ensures Valid() && DirOk(tables, d) && SpaceOk(page', tables, frames, d)
      ensures forall f :: f in old(frames) ==> f in frames && frames[f] == old(frames)[f]
      ensures ok ==> Zeroed(old(tables), old(frames), tables, frames, d, lo, hi)
      ensures !ok ==> forall w: nat :: FIRST_PAGES <= w < USER_PAGES ==>
                Lookup(tables, d, w) == old(Lookup(tables, d, w))
      ensures !ok && lo >= FIRST_PAGES ==> frames == old(frames)
      ensures ok <==> |old(free)| >= GrowthCost(old(Slots(tables, d)), lo, hi - lo)
    {
      hide Lookup, DirOk, SpaceOk, Maps, Zeroed, Unmapped, Returned, Slots, SlotsFor, GrowthCost;
      page' := page;
      var w := lo;
      ghost var s0 := Slots(tables, d);
      ZeroedNone(tables, frames, d, lo);
      assert s0 + SlotsFor(lo, 0) == s0 by { SlotsNext(lo, 0); }
      while w < hi
        invariant lo <= w <= hi && Valid() && DirOk(tables, d) && SpaceOk(page', tables, frames, d)
        invariant Zeroed(old(tables), old(frames), tables, frames, d, lo, w)
        invariant Slots(tables, d) == s0 + SlotsFor(lo, w - lo)
        invariant |free| + |Slots(tables, d)| + (w - lo) == |old(free)| + |s0|
      {
        hide Lookup, DirOk, SpaceOk, Maps, Zeroed, Unmapped, Returned, Slots, SlotsFor, GrowthCost;
        ghost var t0, f0 := tables, frames;
        GrowCost(s0, Slots(tables, d), lo, w - lo, hi - lo);
        assert Lookup(tables, d, w) == ABSENT by { NotYet(old(tables), old(frames), tables, frames, d, lo, w); }
        var f;
        f, page' := AllocPage(page', d, w);
        if f.None? {
          ZeroedSame(old(tables), old(frames), t0, tables, frames, d, lo, w);
          GiveBack(page', d, lo, w, hi, old(tables), old(frames));
          return false, page';
        }
        ZeroedMore(old(tables), old(frames), t0, f0, tables, frames, d, lo, w, f.value);
        w := w + 1;
      }
      ZeroedKeeps(old(tables), old(frames), tables, frames, d, lo, hi);
      GrownCost(s0, Slots(tables, d), lo, hi - lo);
      ok := true;
    }

    /** allocuvm() in bytes: the new size, the old one when it is no growth, and 0 at the kernel's addresses and when
        memory runs out. */
    method Grow(ghost page: map<nat, nat>, d: nat, oldsz: nat, newsz: nat)
      returns (r: nat, ghost page': map<nat, nat>)
      requires Valid() && DirOk(tables, d) && SpaceOk(page, tables, frames, d)
      requires forall w: nat :: PagesOf(oldsz) <= w < USER_PAGES ==> Lookup(tables, d, w) == ABSENT
      modifies this
      ensures Valid() && DirOk(tables, d) && SpaceOk(page', tables, frames, d)
      ensures r == if newsz >= 0x8000_0000 then 0 else if newsz < oldsz then oldsz
                   else if |old(free)| >= GrowthCost(old(Slots(tables, d)), PagesOf(oldsz),
                                                     PagesOf(newsz) - PagesOf(oldsz))
                   then newsz else 0
      ensures r == newsz && newsz != 0 ==>
                Zeroed(old(tables), old(frames), tables, frames, d, PagesOf(oldsz), PagesOf(newsz))
      ensures r != newsz ==> forall w: nat :: FIRST_PAGES <= w < USER_PAGES ==>
                Lookup(tables, d, w) == old(Lookup(tables, d, w))
    {
      hide Lookup, DirOk, SpaceOk, Zeroed, Slots, SlotsFor, GrowthCost;
      page' := page;
      if newsz >= USER_PAGES * PGSIZE {
        return 0, page';
      }
      if newsz < oldsz {
        return oldsz, page';
      }
      var ok;
      ok, page' := AllocUvm(page, d, PagesOf(oldsz), PagesOf(newsz));
      r := if ok then newsz else 0;
    }

    /** What allocuvm() does when memory runs out at page w. */
    method GiveBack(ghost page: map<nat, nat>, d: nat, lo: nat, ghost w: nat, hi: nat, ghost t0: Tables,
                    ghost f0: Frames)
      requires Valid() && DirOk(tables, d) && lo <= w <= hi <= USER_PAGES && SpaceOk(page, tables, frames, d)
      requires Zeroed(t0, f0, tables, frames, d, lo, w)
      requires forall x: nat :: lo <= x < hi ==> Lookup(t0, d, x) == ABSENT
      modifies this
      ensures Valid() && DirOk(tables, d) && SpaceOk(page, tables, frames, d)
      ensures forall x: nat :: FIRST_PAGES <= x < USER_PAGES ==> Lookup(tables, d, x) == Lookup(t0, d, x)
      ensures forall f :: f in f0 ==> f in frames && frames[f] == f0[f]
      ensures lo >= FIRST_PAGES ==> frames == f0
    {
      hide Lookup, DirOk, SpaceOk, Zeroed, Unmapped, Returned;
      ghost var t1, f1 := tables, frames;
      DeallocUvm(page, d, lo, hi);
      RolledBack(page, t0, f0, t1, f1, tables, frames, d, lo, w, hi);
    }

    /** One page of it; if it cannot be mapped its frame is given back. */
    method AllocPage(ghost page: map<nat, nat>, d: nat, w: nat) returns (f: Option<nat>, ghost page': map<nat, nat>)
      requires Valid() && DirOk(tables, d) && w < USER_PAGES && SpaceOk(page, tables, frames, d)
      modifies this
      ensures Valid() && DirOk(tables, d) && SpaceOk(page', tables, frames, d)
      ensures f.Some? ==> f.value !in old(frames) && frames == old(frames)[f.value := ZeroPage()]
      ensures f.Some? ==> forall x: nat :: x < USER_PAGES ==>
                Lookup(tables, d, x) == if x == w then Pte(true, true, f.value) else old(Lookup(tables, d, x))
      ensures f.None? ==> frames == old(frames) && forall x: nat :: x < ALL_PAGES ==>
                Lookup(tables, d, x) == old(Lookup(tables, d, x))
      ensures f.None? && !old(Lookup(tables, d, w)).present ==> |old(free)| < GrowthCost(old(Slots(tables, d)), w, 1)
      ensures f.Some? ==> Slots(tables, d) == old(Slots(tables, d)) + SlotsFor(w, 1)
      ensures f.Some? ==> Pays(old(free), old(tables), free, tables, d, 1)
    {
      hide Lookup, DirOk, SpaceOk, Maps, Apart, Slots, SlotsFor, GrowthCost, ZeroPage, Pays;
      page' := page;
      OnePageCost(Slots(tables, d), w);
      OnlyDir(tables, d);
      var mapped;
      f, mapped := NewPage(map[], d, w, ZeroPage());
      if f.None? {
        SpaceSame(page, old(tables), old(frames), tables, frames, d);
      } else if mapped {
        SpaceGrows(page, old(tables), old(frames), tables, frames, d, w, f.value);
        page' := page[f.value := w];
      } else {
        Kfree(f.value);
        TakenBack(old(frames), f.value);
        SpaceSame(page, old(tables), old(frames), tables, frames, d);
        f := None;
      }
    }

    /** clearpteu(): false is the panic when there is no table. */
    method ClearPteU(ghost page: map<nat, nat>, d: nat, v: nat) returns (ok: bool)
      requires Valid() && DirOk(tables, d) && SpaceOk(page, tables, frames, d) && v < USER_PAGES
      modifies `tables, `free
      ensures Valid() && DirOk(tables, d) && SpaceOk(page, tables, frames, d)
      ensures old(Lookup(tables, d, v)).present ==> ok
      ensures ok ==> forall w: nat :: w < USER_PAGES ==>
                Lookup(tables, d, w) == if w == v then old(Lookup(tables, d, w)).(user := false)
                                        else old(Lookup(tables, d, w))
    {
      hide Slots, Pays;
      var t := WalkPgdir(map[], d, v, false);
      if t.None? {
        return false;
      }
      var pte := tables[t.value][v % ENTRIES];
      assert pte == Lookup(tables, d, v);
      SetEntry(tables, d, v, pte.(user := false));
      tables := tables[t.value := tables[t.value][v % ENTRIES := pte.(user := false)]];
      return true;
    }

    /** copyout(): all of it is written if every page of it is the user's, and nothing outside it is. */
    method CopyOut(ghost page: map<nat, nat>, d: nat, va: nat, bytes: seq<Byte>) returns (ok: bool)
      requires Valid() && DirOk(tables, d) && SpaceOk(page, tables, frames, d)
      modifies this
      ensures Valid() && tables == old(tables) && SpaceOk(page, tables, frames, d)
      ensures ok <==> forall a: nat :: va <= a < va + |bytes| ==> old(UserByte(tables, frames, d, a)).Some?
      ensures ok ==> Stored(old(tables), old(frames), tables, frames, d, va, bytes)
    {
      hide Lookup, SpaceOk, UserByte, DirOk;
      var k := 0;
      while k < |bytes|
        invariant 0 <= k <= |bytes| && Valid() && tables == old(tables) && SpaceOk(page, tables, frames, d)
        invariant frames.Keys == old(frames.Keys)
        invariant forall a: nat :: va <= a < va + k ==> old(UserByte(tables, frames, d, a)).Some?
        invariant Stored(old(tables), old(frames), tables, frames, d, va, bytes[..k])
      {
        hide Lookup, SpaceOk, UserByte, DirOk;
        var v, off := (va + k) / PGSIZE, (va + k) % PGSIZE;
        var pte := ABSENT;
        if v < ALL_PAGES {
          pte := ReadPte(d, v);
        }
        if !(pte.present && pte.user) {
          NotMapped(tables, old(frames), d, va + k);
          return false;
        }
        var n := if PGSIZE - off < |bytes| - k then PGSIZE - off else |bytes| - k;
        var chunk := bytes[k..k + n];
        assert pte.frame in frames && v < USER_PAGES by { UserFrame(page, tables, frames, d, v); }
        PageBytes(tables, old(frames), d, v, off, n);
        StoreChunk(page, tables, frames, d, v, off, chunk);
        ghost var f0 := frames;
        frames := frames[pte.frame := frames[pte.frame][..off] + chunk + frames[pte.frame][off + n..]];
        StoredMore(tables, old(frames), f0, frames, d, va, bytes, k, n, v, off);
        k := k + n;
      }
      assert bytes[..k] == bytes;
      ok := true;
    }
  }

  function Least(a: nat, b: nat): nat {
    if a < b then a else b
  }

  /** deallocuvm() leaves the pages below 0x4000 alone. */
  const FIRST_PAGES: nat := 4

  ghost predicate Unmapped(t0: Tables, tables: Tables, d: nat, lo: nat, hi: nat) {
    forall w: nat :: w < ALL_PAGES ==>
      Lookup(tables, d, w) == if lo <= w < hi && 4 <= w then ABSENT else Lookup(t0, d, w)
  }

  /** A frame of one of those pages. */
  ghost predicate Dropped(page: map<nat, nat>, t0: Tables, d: nat, lo: nat, hi: nat, f: nat) {
    && f in page && lo <= page[f] < hi && FIRST_PAGES <= page[f]
    && Lookup(t0, d, page[f]).present && Lookup(t0, d, page[f]).frame == f
  }

  /** Just the frames of those pages are gone. */
  ghost predicate Returned(page: map<nat, nat>, t0: Tables, f0: Frames, frames: Frames, d: nat, lo: nat, hi: nat) {
    && (forall f :: f in frames <==> f in f0 && !Dropped(page, t0, d, lo, hi, f))
    && (forall f :: f in frames ==> frames[f] == f0[f])
  }

  lemma SkipPages(page: map<nat, nat>, t0: Tables, tables: Tables, f0: Frames, frames: Frames, d: nat, lo: nat, w: nat,
                  next: nat)
    requires Unmapped(t0, tables, d, lo, w) && Returned(page, t0, f0, frames, d, lo, w) && w <= next <= USER_PAGES
    requires next == w + 1 <= FIRST_PAGES || forall x: nat :: w <= x < next ==> Lookup(tables, d, x) == ABSENT
    ensures Unmapped(t0, tables, d, lo, next) && Returned(page, t0, f0, frames, d, lo, next)
  {
    hide Lookup;
    forall f ensures Dropped(page, t0, d, lo, next, f) <==> Dropped(page, t0, d, lo, w, f) {
      if f in page && w <= page[f] < next && FIRST_PAGES <= page[f] {
        assert Lookup(tables, d, page[f]) == Lookup(t0, d, page[f]);
      }
    }
  }

  /** Without a table, the rest of its pages are absent too. */
  lemma NoTable(tables: Tables, d: nat, w: nat, next: nat)
    requires DirOk(tables, d) && w < USER_PAGES && !tables[d][w / ENTRIES].present
    requires next == (w / ENTRIES + 1) * ENTRIES
    ensures w < next && forall x: nat :: w <= x < next ==> Lookup(tables, d, x) == ABSENT
  {
    forall x: nat | w <= x < next ensures x / ENTRIES == w / ENTRIES {
    }
  }

  lemma OnePage(page: map<nat, nat>, t0: Tables, t1: Tables, tables: Tables, f0: Frames, f1: Frames, frames: Frames,
                d: nat, lo: nat, w: nat)
    requires Unmapped(t0, t1, d, lo, w) && Returned(page, t0, f0, f1, d, lo, w) && FIRST_PAGES <= w < USER_PAGES
    requires lo <= w
    requires forall x: nat :: x < ALL_PAGES ==> Lookup(tables, d, x) == if x == w then ABSENT else Lookup(t1, d, x)
    requires frames == if Lookup(t1, d, w).present then f1 - {Lookup(t1, d, w).frame} else f1
    requires Lookup(t1, d, w).present ==> Lookup(t1, d, w).frame in page && page[Lookup(t1, d, w).frame] == w
    ensures Unmapped(t0, tables, d, lo, w + 1) && Returned(page, t0, f0, frames, d, lo, w + 1)
  {
    hide Lookup;
    assert Lookup(t1, d, w) == Lookup(t0, d, w);
    forall f ensures Dropped(page, t0, d, lo, w + 1, f) <==>
                       Dropped(page, t0, d, lo, w, f) || (Lookup(t0, d, w).present && Lookup(t0, d, w).frame == f) {
    }
  }

  lemma SpaceAt(page: map<nat, nat>, tables: Tables, frames: Frames, d: nat, w: nat)
    requires SpaceOk(page, tables, frames, d) && w < USER_PAGES
    ensures var pte := Lookup(tables, d, w); pte.present ==>
              pte.frame in frames && pte.frame in page && page[pte.frame] == w
  {
    hide Lookup;
  }

  lemma SpaceShrinks(page: map<nat, nat>, tables: Tables, frames: Frames, tables': Tables, frames': Frames, d: nat,
                     v: nat)
    requires SpaceOk(page, tables, frames, d) && v < USER_PAGES
    requires forall x: nat :: x < ALL_PAGES ==> Lookup(tables', d, x) == if x == v then ABSENT else Lookup(tables, d, x)
    requires frames' == if Lookup(tables, d, v).present then frames - {Lookup(tables, d, v).frame} else frames
    ensures SpaceOk(page, tables', frames', d)
  {
    hide Lookup;
    assert Lookup(tables, d, v).present ==> page[Lookup(tables, d, v).frame] == v;
  }

  /** The pages from lo to hi are new, zeroed and the user's, in frames that held no page before; nothing else of the
      user part changed. */
  ghost predicate Zeroed(t0: Tables, f0: Frames, tables: Tables, frames: Frames, d: nat, lo: nat, hi: nat) {
    && (forall w: nat :: w < USER_PAGES ==>
          var pte := Lookup(tables, d, w);
          if lo <= w < hi then
            pte.present && pte.user && pte.frame !in f0 && pte.frame in frames &&
            frames[pte.frame] == ZeroPage()
          else pte == Lookup(t0, d, w))
    && (forall f :: f in f0 ==> f in frames && frames[f] == f0[f])
    && (forall f :: f in frames && f !in f0 ==> exists w: nat :: lo <= w < hi && Lookup(tables, d, w).frame == f)
  }

  lemma ZeroedNone(tables: Tables, frames: Frames, d: nat, lo: nat)
    ensures Zeroed(tables, frames, tables, frames, d, lo, lo)
  {
  }

  lemma ZeroedKeeps(t0: Tables, f0: Frames, tables: Tables, frames: Frames, d: nat, lo: nat, hi: nat)
    requires Zeroed(t0, f0, tables, frames, d, lo, hi)
    ensures forall f :: f in f0 ==> f in frames && frames[f] == f0[f]
  {
    hide Lookup;
  }

  lemma ZeroedSame(t0: Tables, f0: Frames, t1: Tables, tables: Tables, frames: Frames, d: nat, lo: nat, w: nat)
    requires Zeroed(t0, f0, t1, frames, d, lo, w) && w <= USER_PAGES
    requires forall x: nat :: x < ALL_PAGES ==> Lookup(tables, d, x) == Lookup(t1, d, x)
    ensures Zeroed(t0, f0, tables, frames, d, lo, w)
  {
    hide Lookup;
  }

  lemma ZeroedMore(t0: Tables, f0: Frames, t1: Tables, f1: Frames, tables: Tables, frames: Frames, d: nat, lo: nat,
                   w: nat, f: nat)
    requires Zeroed(t0, f0, t1, f1, d, lo, w) && lo <= w < USER_PAGES && f !in f1
    requires frames == f1[f := ZeroPage()]
    requires forall x: nat :: x < USER_PAGES ==>
               Lookup(tables, d, x) == if x == w then Pte(true, true, f) else Lookup(t1, d, x)
    ensures Zeroed(t0, f0, tables, frames, d, lo, w + 1)
  {
    hide Lookup;
    forall g | g in frames && g !in f0 ensures exists x: nat :: lo <= x < w + 1 && Lookup(tables, d, x).frame == g {
      if g == f {
        assert Lookup(tables, d, w).frame == f;
      } else {
        var x: nat :| lo <= x < w && Lookup(t1, d, x).frame == g;
        assert Lookup(tables, d, x).frame == g;
      }
    }
  }

  /** deallocuvm() takes back what was added, but for the pages it leaves alone. */
  lemma RolledBack(page: map<nat, nat>, t0: Tables, f0: Frames, t1: Tables, f1: Frames, tables: Tables, frames: Frames,
                   d: nat, lo: nat, w: nat, hi: nat)
    requires lo <= w <= hi <= USER_PAGES && Zeroed(t0, f0, t1, f1, d, lo, w) && SpaceOk(page, t1, f1, d)
    requires Unmapped(t1, tables, d, lo, hi) && Returned(page, t1, f1, frames, d, lo, hi)
    requires forall x: nat :: lo <= x < hi ==> Lookup(t0, d, x) == ABSENT
    ensures forall x: nat :: FIRST_PAGES <= x < USER_PAGES ==> Lookup(tables, d, x) == Lookup(t0, d, x)
    ensures forall f :: f in f0 ==> f in frames && frames[f] == f0[f]
    ensures lo >= FIRST_PAGES ==> frames == f0
  {
    hide Lookup;
    forall f ensures Dropped(page, t1, d, lo, hi, f) ==> f !in f0 {
    }
    if lo >= FIRST_PAGES {
      forall f | f in f1 && f !in f0 ensures Dropped(page, t1, d, lo, hi, f) {
        var x: nat :| lo <= x < w && Lookup(t1, d, x).frame == f;
        assert Lookup(t1, d, x).present && page[f] == x;
      }
    }
  }

  lemma MapsNone(tables: Tables, d: nat, v: nat, frame: nat, user: bool)
    ensures Maps(tables, tables, d, v, 0, frame, user)
  {
  }

  lemma MapsAbove(t0: Tables, t1: Tables, d: nat, v: nat, i: nat, frame: nat, user: bool)
    requires Maps(t0, t1, d, v, i, frame, user) && v + i < ALL_PAGES
    ensures Lookup(t1, d, v + i) == Lookup(t0, d, v + i)
  {
    hide Lookup;
  }

  /** One page more, or none. */
  lemma MapsMore(t0: Tables, t1: Tables, t2: Tables, d: nat, v: nat, i: nat, frame: nat, user: bool)
    requires Maps(t0, t1, d, v, i, frame, user)
    ensures Maps(t1, t2, d, v + i, 1, frame + i, user) ==> Maps(t0, t2, d, v, i + 1, frame, user)
    ensures (forall w: nat :: w < ALL_PAGES ==> Lookup(t2, d, w) == Lookup(t1, d, w)) ==>
              Maps(t0, t2, d, v, i, frame, user)
  {
    hide Lookup;
  }

  /** The kernel's ranges leave the user part alone. */
  lemma NoUser(t0: Tables, tables: Tables, d: nat, r: Range)
    requires exists k: nat :: k <= r.n && Maps(t0, tables, d, r.v, k, r.frame, false)
    requires USER_PAGES <= r.v && forall w: nat :: w < USER_PAGES ==> Lookup(t0, d, w) == ABSENT
    ensures forall w: nat :: w < USER_PAGES ==> Lookup(tables, d, w) == ABSENT
  {
    hide Lookup;
  }

  lemma NewDirectory(tables: Tables, d: nat)
    requires Shaped(tables) && d !in tables
    ensures var tables' := tables[d := EmptyTable()];
            && DirOk(tables', d) && Apart(tables, tables', d) && (forall w: nat :: Lookup(tables', d, w) == ABSENT)
            && Slots(tables', d) == {}
  {
  }

  lemma Kept(base: Tables, tables: Tables, d: nat)
    requires Apart(base, tables, d)
    ensures forall t :: t in base ==> t in tables && tables[t] == base[t]
  {
  }

  lemma NothingTouched(tables: Tables, frames: Frames)
    ensures Untouched(tables, frames, tables, frames)
  {
  }

  lemma NoPages(base: Tables, was: Frames, parent: nat, tables: Tables, frames: Frames, d: nat)
    requires forall w: nat :: w < USER_PAGES ==> Lookup(tables, d, w) == ABSENT
    ensures OwnPages(was, map[], tables, frames, d, 0) && SameContents(base, was, parent, tables, frames, d, 0)
  {
    hide Lookup;
  }

  lemma NotShared(was: Frames, page: map<nat, nat>, tables: Tables, frames: Frames, d: nat, n: nat)
    requires OwnPages(was, page, tables, frames, d, n)
    ensures forall w: nat :: w < USER_PAGES && Lookup(tables, d, w).present ==> Lookup(tables, d, w).frame !in was
    ensures n < USER_PAGES ==> Lookup(tables, d, n) == ABSENT
  {
    hide Lookup;
  }

  /** One more page mapped to a new frame with the parent's contents. */
  lemma CopyStep(base: Tables, was: Frames, page: map<nat, nat>, tables: Tables, frames: Frames, tables': Tables,
                 parent: nat, d: nat, i: nat, f: nat)
    requires OwnPages(was, page, tables, frames, d, i) && SameContents(base, was, parent, tables, frames, d, i)
    requires i < USER_PAGES && Maps(tables, tables', d, i, 1, f, true) && f !in frames && f !in was
    requires Lookup(base, parent, i).present && Lookup(base, parent, i).frame in was
    ensures var frames' := frames[f := was[Lookup(base, parent, i).frame]];
            && OwnPages(was, page[f := i], tables', frames', d, i + 1)
            && SameContents(base, was, parent, tables', frames', d, i + 1)
  {
    hide Lookup;
    assert Lookup(tables', d, i) == Pte(true, true, f);
    forall w: nat | w < USER_PAGES && w != i ensures Lookup(tables', d, w) == Lookup(tables, d, w) {
    }
    var frames' := frames[f := was[Lookup(base, parent, i).frame]];
    forall w: nat | w < i + 1
      ensures var p, c := Lookup(base, parent, w), Lookup(tables', d, w);
              p.present && p.frame in was && c.frame in frames' && frames'[c.frame] == was[p.frame]
    {
      if w < i {
        assert Lookup(tables, d, w).frame in frames;
      }
    }
  }

  /** Every user page that is there is in a frame of its own, which `page` leads back from, and the kernel's pages are
      not for the user. */
  ghost predicate SpaceOk(page: map<nat, nat>, tables: Tables, frames: Frames, d: nat) {
    forall w: nat :: w < ALL_PAGES ==>
      var pte := Lookup(tables, d, w);
      && (w < USER_PAGES && pte.present ==> pte.frame in frames && pte.frame in page && page[pte.frame] == w)
      && (USER_PAGES <= w && pte.present ==> !pte.user)
  }

  lemma OnlyDir(tables: Tables, d: nat)
    requires DirOk(tables, d)
    ensures Apart(map[], tables, d)
  {
  }

  lemma TakenBack(frames: Frames, f: nat)
    requires f !in frames
    ensures frames[f := ZeroPage()] - {f} == frames
  {
  }

  lemma SpaceSame(page: map<nat, nat>, tables: Tables, frames: Frames, tables': Tables, frames': Frames, d: nat)
    requires SpaceOk(page, tables, frames, d) && frames.Keys <= frames'.Keys
    requires forall w: nat :: w < ALL_PAGES ==> Lookup(tables', d, w) == Lookup(tables, d, w)
    ensures SpaceOk(page, tables', frames', d)
  {
    hide Lookup;
  }

  lemma SpaceGrows(page: map<nat, nat>, tables: Tables, frames: Frames, tables': Tables, frames': Frames, d: nat,
                   v: nat, f: nat)
    requires SpaceOk(page, tables, frames, d) && frames'.Keys == frames.Keys + {f} && f !in frames && v < USER_PAGES
    requires Maps(tables, tables', d, v, 1, f, true)
    ensures SpaceOk(page[f := v], tables', frames', d)
    ensures forall w: nat :: w < USER_PAGES ==>
              Lookup(tables', d, w) == if w == v then Pte(true, true, f) else Lookup(tables, d, w)
  {
    hide Lookup;
    forall w: nat | w < ALL_PAGES && w != v ensures Lookup(tables', d, w) == Lookup(tables, d, w) {
    }
    assert Lookup(tables', d, v) == Pte(true, true, f);
  }

  /** The byte at a virtual address. */
  function ByteAt(tables: Tables, frames: Frames, d: nat, va: nat): Option<Byte> {
    var pte := Lookup(tables, d, va / PGSIZE);
    if pte.present && pte.frame in frames && |frames[pte.frame]| == PGSIZE then Some(frames[pte.frame][va % PGSIZE])
    else None
  }

  /** Every byte of the parent below its size reads the same in the child. */
  lemma ForkReads(base: Tables, was: Frames, parent: nat, tables: Tables, frames: Frames, child: nat, sz: nat, va: nat)
    requires SameContents(base, was, parent, tables, frames, child, PagesOf(sz)) && va < sz
    requires exists page :: OwnPages(was, page, tables, frames, child, PagesOf(sz))
    requires PagesOf(sz) <= USER_PAGES && forall f :: f in was ==> |was[f]| == PGSIZE
    ensures ByteAt(tables, frames, child, va).Some?
    ensures ByteAt(tables, frames, child, va) == ByteAt(base, was, parent, va)
  {
    hide Lookup;
    assert va / PGSIZE < PagesOf(sz);
    assert Lookup(tables, child, va / PGSIZE).present;
  }

  /** The child's pages are in frames of their own: different ones for different pages, none of them there before. */
  lemma ForkFrames(was: Frames, page: map<nat, nat>, tables: Tables, frames: Frames, d: nat, n: nat, v: nat, w: nat)
    requires OwnPages(was, page, tables, frames, d, n) && v < w < n <= USER_PAGES
    ensures Lookup(tables, d, v).frame != Lookup(tables, d, w).frame
    ensures Lookup(tables, d, v).frame !in was && Lookup(tables, d, w).frame !in was
  {
    hide Lookup;
    assert page[Lookup(tables, d, v).frame] == v && page[Lookup(tables, d, w).frame] == w;
  }

  /** The byte a process sees at a virtual address. */
  function UserByte(tables: Tables, frames: Frames, d: nat, va: nat): Option<Byte> {
    var pte := Lookup(tables, d, va / PGSIZE);
    if pte.present && pte.user && pte.frame in frames && |frames[pte.frame]| == PGSIZE then
      Some(frames[pte.frame][va % PGSIZE])
    else None
  }

  /** What a process sees has `bytes` at `va` and is otherwise as it was. */
  ghost predicate Stored(t0: Tables, f0: Frames, tables: Tables, frames: Frames, d: nat, va: nat, bytes: seq<Byte>) {
    forall a: nat :: UserByte(tables, frames, d, a) ==
                     if va <= a < va + |bytes| then Some(bytes[a - va]) else UserByte(t0, f0, d, a)
  }

  lemma NotMapped(tables: Tables, frames: Frames, d: nat, a: nat)
    requires a / PGSIZE >= ALL_PAGES || !Lookup(tables, d, a / PGSIZE).present || !Lookup(tables, d, a / PGSIZE).user
    ensures UserByte(tables, frames, d, a) == None
  {
  }

  lemma PageBytes(tables: Tables, frames: Frames, d: nat, v: nat, off: nat, n: nat)
    requires var pte := Lookup(tables, d, v);
             pte.present && pte.user && pte.frame in frames && |frames[pte.frame]| == PGSIZE
    requires off + n <= PGSIZE
    ensures forall a: nat :: v * PGSIZE + off <= a < v * PGSIZE + off + n ==> UserByte(tables, frames, d, a).Some?
  {
    hide Lookup;
  }

  lemma UserFrame(page: map<nat, nat>, tables: Tables, frames: Frames, d: nat, v: nat)
    requires SpaceOk(page, tables, frames, d) && v < ALL_PAGES
    requires Lookup(tables, d, v).present && Lookup(tables, d, v).user
    ensures v < USER_PAGES && Lookup(tables, d, v).frame in frames
  {
    hide Lookup;
  }

  /** A store into one frame shows at one virtual page. */
  lemma StoreChunk(page: map<nat, nat>, tables: Tables, frames: Frames, d: nat, v: nat, off: nat, chunk: seq<Byte>)
    requires SpaceOk(page, tables, frames, d) && v < USER_PAGES && off + |chunk| <= PGSIZE
    requires var pte := Lookup(tables, d, v); pte.present && pte.user && pte.frame in frames
    requires forall f :: f in frames ==> |frames[f]| == PGSIZE
    ensures var f := Lookup(tables, d, v).frame;
            var frames' := frames[f := frames[f][..off] + chunk + frames[f][off + |chunk|..]];
            && SpaceOk(page, tables, frames', d)
            && Stored(tables, frames, tables, frames', d, v * PGSIZE + off, chunk)
  {
    hide Lookup;
    var f := Lookup(tables, d, v).frame;
    var frames' := frames[f := frames[f][..off] + chunk + frames[f][off + |chunk|..]];
    forall a: nat
      ensures UserByte(tables, frames', d, a) ==
              if v * PGSIZE + off <= a < v * PGSIZE + off + |chunk| then Some(chunk[a - (v * PGSIZE + off)])
              else UserByte(tables, frames, d, a)
    {
      var w := a / PGSIZE;
      assert a == w * PGSIZE + a % PGSIZE;
      Frame(page, tables, frames, d, v, w);
    }
  }

  lemma Frame(page: map<nat, nat>, tables: Tables, frames: Frames, d: nat, v: nat, w: nat)
    requires SpaceOk(page, tables, frames, d) && v < USER_PAGES && Lookup(tables, d, v).present
    ensures Lookup(tables, d, w).present && Lookup(tables, d, w).user && w != v ==>
              Lookup(tables, d, w).frame != Lookup(tables, d, v).frame
  {
    assert w >= ALL_PAGES ==> Lookup(tables, d, w) == ABSENT;
    hide Lookup;
  }

  lemma StoredMore(tables: Tables, was: Frames, f0: Frames, f1: Frames, d: nat, va: nat, bytes: seq<Byte>,
                   k: nat, n: nat, v: nat, off: nat)
    requires k + n <= |bytes| && v * PGSIZE + off == va + k
    requires Stored(tables, was, tables, f0, d, va, bytes[..k])
    requires Stored(tables, f0, tables, f1, d, v * PGSIZE + off, bytes[k..k + n])
    requires forall a: nat :: va <= a < va + k ==> UserByte(tables, was, d, a).Some?
    ensures Stored(tables, was, tables, f1, d, va, bytes[..k + n])
  {
    hide UserByte;
  }
}
