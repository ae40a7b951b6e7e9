/** The user-space allocator: malloc, free and realloc over one K&R free list. */
module Heap {
  import opened FreeList
  import opened Options

  const UNIT := 8
  const MAX_REQUEST := 0x7fffffff
  const MIN_GRANT := 4096

  /** Header units that hold `n` bytes, and one for the header itself. */
  function Units(n: nat): (u: nat)
    ensures 8 * (u - 1) >= n && 8 * (u - 2) < n
  {
    (n + UNIT - 1) / UNIT + 1
  }

  /** What morecore() asks for: at least 4096 units. */
  function Granted(n: nat): (g: nat)
    ensures n <= g && 4096 <= g && (g == n || g == 4096)
  {
    if n < MIN_GRANT then MIN_GRANT else n
  }

  /** What the first half of free() leaves: `b` with the block above it, if that one is adjacent. */
  function MergeUp(mem: Memory, p: int, b: int): Memory {
    var q := Ptr(mem, p);
    if b + Size(mem, b) == q then mem[b := Unit(Ptr(mem, q), Size(mem, b) + Size(mem, q))]
    else mem[b := Unit(q, Size(mem, b))]
  }

  /** The second half: `p` with `b`, if adjacent. */
  function MergeDown(mem: Memory, p: int, b: int): Memory {
    if p + Size(mem, p) == b then mem[p := Unit(Ptr(mem, b), Size(mem, p) + Size(mem, b))]
    else mem[p := Unit(b, Size(mem, p))]
  }

  ghost function FreeAfter(mem: Memory, free: set<int>, p: int, b: int): set<int> {
    var rest := if b + Size(mem, b) == Ptr(mem, p) then free - {Ptr(mem, p)} else free;
    if p + Size(mem, p) == b then rest else rest + {b}
  }

  ghost function BlockAfter(mem: Memory, block: map<int, int>, p: int, b: int): map<int, int> {
    var up := if b + Size(mem, b) == Ptr(mem, p) then Relabelled(block, Ptr(mem, p), b) else block;
    if p + Size(mem, p) == b then Relabelled(up, b, p) else up
  }

  /** The blocks of `live` are where they were, header and contents. */
  ghost predicate Undisturbed(mem: Memory, block: map<int, int>, mem': Memory, block': map<int, int>, live: set<int>) {
    forall u {:trigger u in block} :: u in block && block[u] in live ==>
      && u in block' && block'[u] == block[u]
      && Ptr(mem', u) == Ptr(mem, u) && Size(mem', u) == Size(mem, u)
  }

  /** How a live block lies between the free blocks around it. */
  lemma Between(mem: Memory, base: int, free: set<int>, live: set<int>, block: map<int, int>, p: int, b: int)
    requires HeapOk(mem, base, free, live, block) && b in live && Precedes(mem, base, free, p, b)
    ensures b !in free && base <= p && base < b && Size(mem, b) >= 1 && p + Size(mem, p) <= b
    ensures var q := Ptr(mem, p); q in free && Size(mem, q) >= 0 && (q == base || b + Size(mem, b) <= q)
    ensures var q := Ptr(mem, p); q != base ==> Ptr(mem, q) == base || q + Size(mem, q) < Ptr(mem, q)
  {
    hide Follows;
    NextFree(mem, base, free, p);
    NextFree(mem, base, free, Ptr(mem, p));
    assert IsHeader(free, live, b) && IsHeader(free, live, p) && IsHeader(free, live, Ptr(mem, p));
    Apart(mem, base, free, live, block, p, b);
    if Ptr(mem, p) != base {
      Apart(mem, base, free, live, block, b, Ptr(mem, p));
    }
  }

  /** The block above `b` joined to it. */
  lemma ReleasedUp(mem: Memory, base: int, free: set<int>, live: set<int>, block: map<int, int>, p: int, b: int)
    requires HeapOk(mem, base, free, live, block) && b in live && Precedes(mem, base, free, p, b)
    requires b + Size(mem, b) == Ptr(mem, p)
    ensures var q := Ptr(mem, p); var n := Ptr(mem, q);
            var m := mem[p := Unit(n, Size(mem, p))][b := Unit(n, Size(mem, b) + Size(mem, q))];
            && HeapOk(m, base, free - {q}, live, Relabelled(block, q, b))
            && Precedes(m, base, free - {q}, p, b)
            && (Size(m, b) + b < n || n == base)
  {
    hide FreeOk, TilesOk, Relabelled;
    Between(mem, base, free, live, block, p, b);
    var q := Ptr(mem, p);
    var n := Ptr(mem, q);
    var m := mem[p := Unit(n, Size(mem, p))];
    Unlink(mem, base, free, live, block, p);
    assert q !in live by { assert HeapOk(mem, base, free, live, block); Disjoint(mem, base, free, live, block); }
    Join(m, base, free - {q}, live + {q}, block, b, q, n);
    assert live + {q} - {q} == live;
  }

  lemma Disjoint(mem: Memory, base: int, free: set<int>, live: set<int>, block: map<int, int>)
    requires HeapOk(mem, base, free, live, block)
    ensures free !! live
  {
  }

  /** Releasing a live block keeps the whole heap well formed, whichever neighbours it is merged with. */
  lemma Released(mem: Memory, base: int, free: set<int>, live: set<int>, block: map<int, int>, p: int, b: int)
    requires HeapOk(mem, base, free, live, block) && b in live && Precedes(mem, base, free, p, b)
    ensures HeapOk(MergeDown(MergeUp(mem, p, b), p, b), base,
                   FreeAfter(mem, free, p, b), live - {b}, BlockAfter(mem, block, p, b))
    ensures p in FreeAfter(mem, free, p, b) && base <= p
  {
    hide FreeOk, TilesOk, Relabelled;
    Between(mem, base, free, live, block, p, b);
    var q := Ptr(mem, p);
    var n := Ptr(mem, q);
    var m, f, bl := mem, free, block;
    if b + Size(mem, b) == q {
      ReleasedUp(mem, base, free, live, block, p, b);
      m := mem[p := Unit(n, Size(mem, p))][b := Unit(n, Size(mem, b) + Size(mem, q))];
      f, bl := free - {q}, Relabelled(block, q, b);
    }
    if p + Size(mem, p) == b {
      Touch(m, base, f, live, bl, b, Ptr(m, p));
      m := m[b := Unit(Ptr(m, p), Size(m, b))];
      Absorb(m, base, f, live, bl, p, b);
      assert m[p := Unit(Ptr(m, p), Size(m, p) + Size(m, b))] == MergeDown(MergeUp(mem, p, b), p, b);
    } else {
      Link(m, base, f, live, bl, p, b);
      assert m[b := Unit(Ptr(m, p), Size(m, b))][p := Unit(b, Size(m, p))] == MergeDown(MergeUp(mem, p, b), p, b);
    }
  }

  /** A block that is still live was not the one released, and merging wrote to no part of it. */
  lemma ReleasedLeaves(mem: Memory, base: int, free: set<int>, live: set<int>, block: map<int, int>, p: int, b: int)
    requires HeapOk(mem, base, free, live, block) && b in live && Precedes(mem, base, free, p, b)
    ensures Undisturbed(mem, block, MergeDown(MergeUp(mem, p, b), p, b), BlockAfter(mem, block, p, b), live - {b})
    ensures BlockAfter(mem, block, p, b).Keys == block.Keys
  {
    hide HeapOk;
    NextIsFree(mem, base, free, live, block, p);
    forall u | u in block && block[u] in live - {b}
      ensures block[u] != b && block[u] != Ptr(mem, p) && u != b && u != p
    {
      LiveUnit(mem, base, free, live, block, b);
    }
  }

  /** A live block starts with its own header. */
  lemma LiveUnit(mem: Memory, base: int, free: set<int>, live: set<int>, block: map<int, int>, b: int)
    requires HeapOk(mem, base, free, live, block) && b in live
    ensures b in block && block[b] == b
  {
    hide FreeOk;
    UnitOf(mem, base, free, live, block, b, b);
  }

  /** The released block is inside a free block at least as large. */
  lemma ReleasedHolds(mem: Memory, base: int, free: set<int>, live: set<int>, block: map<int, int>, p: int, b: int)
    requires HeapOk(mem, base, free, live, block) && b in live && Precedes(mem, base, free, p, b)
    ensures var h := if p + Size(mem, p) == b then p else b;
            h in FreeAfter(mem, free, p, b) && Size(MergeDown(MergeUp(mem, p, b), p, b), h) >= Size(mem, b)
  {
    hide TilesOk, Follows;
    Between(mem, base, free, live, block, p, b);
  }

  lemma NextIsFree(mem: Memory, base: int, free: set<int>, live: set<int>, block: map<int, int>, p: int)
    requires HeapOk(mem, base, free, live, block) && p in free
    ensures Ptr(mem, p) in free && Ptr(mem, p) !in live && p !in live
    ensures p in block ==> block[p] == p
  {
    NextFree(mem, base, free, p);
    assert IsHeader(free, live, p);
  }

  /** A whole free block, or the top of a larger one, handed out. */
  function TakeMem(mem: Memory, prev: int, n: int): Memory {
    var p := Ptr(mem, prev);
    if Size(mem, p) == n then mem[prev := Unit(Ptr(mem, p), Size(mem, prev))]
    else
      var t := p + Size(mem, p) - n;
      mem[p := Unit(Ptr(mem, p), Size(mem, p) - n)][t := Unit(Ptr(mem, t), n)]
  }

  function TakeHeader(mem: Memory, prev: int, n: int): int {
    Ptr(mem, prev) + Size(mem, Ptr(mem, prev)) - n
  }

  ghost function TakeFree(mem: Memory, free: set<int>, prev: int, n: int): set<int> {
    if Size(mem, Ptr(mem, prev)) == n then free - {Ptr(mem, prev)} else free
  }

  ghost function TakeBlock(mem: Memory, block: map<int, int>, prev: int, n: int): map<int, int> {
    if Size(mem, Ptr(mem, prev)) == n then block else Cut(block, TakeHeader(mem, prev, n), n)
  }

  lemma Taken(mem: Memory, base: int, free: set<int>, live: set<int>, block: map<int, int>, prev: int, n: int)
    requires HeapOk(mem, base, free, live, block) && prev in free && 0 < n <= Size(mem, Ptr(mem, prev))
    ensures var h := TakeHeader(mem, prev, n);
            && HeapOk(TakeMem(mem, prev, n), base, TakeFree(mem, free, prev, n), live + {h},
                      TakeBlock(mem, block, prev, n))
            && base <= prev && h !in live && h > base && Size(TakeMem(mem, prev, n), h) == n
            && prev in TakeFree(mem, free, prev, n)
  {
    hide FreeOk, TilesOk, Cut;
    var p := Ptr(mem, prev);
    NextFree(mem, base, free, prev);
    NextApart(mem, base, free, live, block, prev);
    if Size(mem, p) == n {
      Unlink(mem, base, free, live, block, prev);
    } else {
      var t := p + Size(mem, p) - n;
      NotHeader(mem, base, free, live, block, p, t);
      Split(mem, base, free, live, block, p, n, Ptr(mem, t));
    }
  }

  lemma NextApart(mem: Memory, base: int, free: set<int>, live: set<int>, block: map<int, int>, prev: int)
    requires HeapOk(mem, base, free, live, block) && prev in free && Size(mem, Ptr(mem, prev)) > 0
    ensures var p := Ptr(mem, prev); p != base && base <= p && prev != p && p !in live && base <= prev
  {
    NextFree(mem, base, free, prev);
  }

  lemma TakenLeaves(mem: Memory, base: int, free: set<int>, live: set<int>, block: map<int, int>, prev: int, n: int)
    requires HeapOk(mem, base, free, live, block) && prev in free && 0 < n <= Size(mem, Ptr(mem, prev))
    ensures Undisturbed(mem, block, TakeMem(mem, prev, n), TakeBlock(mem, block, prev, n), live)
    ensures TakeBlock(mem, block, prev, n).Keys == block.Keys
  {
    hide HeapOk;
    var p := Ptr(mem, prev);
    NextIsFree(mem, base, free, live, block, prev);
    forall u | u in block && block[u] in live ensures !(p <= u < p + Size(mem, p)) && u != prev {
      LiveApart(mem, base, free, live, block, p, u);
    }
  }

  /** No unit of a live block is in a free one. */
  lemma LiveApart(mem: Memory, base: int, free: set<int>, live: set<int>, block: map<int, int>, p: int, u: int)
    requires HeapOk(mem, base, free, live, block) && p in free && u in block && block[u] in live
    ensures !(p <= u < p + Size(mem, p))
  {
    hide FreeOk;
    if p <= u < p + Size(mem, p) {
      UnitOf(mem, base, free, live, block, p, u);
    }
  }

  ghost predicate Fits(mem: Memory, free: set<int>, n: int) {
    exists h :: h in free && Size(mem, h) >= n
  }

  /** The free blocks a search for the place of `b` still has to pass before it wraps or ends. */
  ghost function Ahead(free: set<int>, p: int, b: int): set<int> {
    set g | g in free && p < g && (p < b ==> g < b)
  }

  /** The free blocks passed on the way round from `f` to `p`. */
  ghost predicate Passed(f: int, p: int, g: int) {
    if f < p then f < g < p else f < g || g < p
  }

  ghost function NotPassed(free: set<int>, f: int, p: int): set<int> {
    set g | g in free && !Passed(f, p, g)
  }

  lemma NextInList(mem: Memory, base: int, free: set<int>, live: set<int>, block: map<int, int>, p: int)
    requires HeapOk(mem, base, free, live, block) && p in free
    ensures Ptr(mem, p) in free
  {
    NextFree(mem, base, free, p);
  }

  lemma WalkStarts(mem: Memory, base: int, free: set<int>, live: set<int>, block: map<int, int>, f: int)
    requires HeapOk(mem, base, free, live, block) && f in free
    ensures forall g :: g in free ==> !Passed(f, Ptr(mem, f), g)
  {
    NextFree(mem, base, free, f);
  }

  /** One step round the list passes one block and no other. */
  lemma WalkStep(mem: Memory, base: int, free: set<int>, live: set<int>, block: map<int, int>, f: int, p: int)
    requires HeapOk(mem, base, free, live, block) && f in free && p in free && p != f
    ensures forall g :: g in free ==> (Passed(f, Ptr(mem, p), g) <==> Passed(f, p, g) || g == p)
    ensures NotPassed(free, f, Ptr(mem, p)) < NotPassed(free, f, p)
  {
    NextFree(mem, base, free, p);
    assert p in NotPassed(free, f, p) && p !in NotPassed(free, f, Ptr(mem, p));
  }

  lemma WalkEnds(mem: Memory, free: set<int>, f: int, n: int)
    requires f in free && Size(mem, f) < n
    requires forall g :: g in free && Passed(f, f, g) ==> Size(mem, g) < n
    ensures !Fits(mem, free, n)
  {
    assert forall g :: g in free && g != f ==> Passed(f, f, g);
  }

  function At(mem: Memory, u: int): Unit {
    Unit(Ptr(mem, u), Size(mem, u))
  }

  /** The `k` units from `a`. */
  ghost function Contents(mem: Memory, a: int, k: nat): seq<Unit> {
    if k == 0 then [] else Contents(mem, a, k - 1) + [At(mem, a + k - 1)]
  }

  lemma {:induction false} SameContents(mem: Memory, mem': Memory, a: int, k: nat)
    requires forall u :: a <= u < a + k ==> At(mem', u) == At(mem, u)
    ensures Contents(mem', a, k) == Contents(mem, a, k)
  {
    if k > 0 {
      SameContents(mem, mem', a, k - 1);
    }
  }

  /** The `k` units from `src` are at `dst`, and nothing else changed. */
  ghost predicate Copied(mem: Memory, mem': Memory, src: int, dst: int, k: nat) {
    && Contents(mem', dst, k) == Contents(mem, src, k)
    && forall u :: !(dst <= u < dst + k) ==> At(mem', u) == At(mem, u)
  }

  lemma CopiedOne(mem: Memory, mem': Memory, src: int, dst: int, k: nat)
    requires Copied(mem, mem', src, dst, k) && !(dst <= src + k < dst + k)
    ensures Copied(mem, mem'[dst + k := At(mem', src + k)], src, dst, k + 1)
  {
    var m := mem'[dst + k := At(mem', src + k)];
    SameContents(mem', m, dst, k);
    assert At(m, dst + k) == At(mem, src + k);
  }

  lemma Inside(mem: Memory, base: int, free: set<int>, live: set<int>, block: map<int, int>, h: int, u: int)
    requires HeapOk(mem, base, free, live, block) && h in live && h <= u < h + Size(mem, h)
    ensures u in block && block[u] == h
  {
    assert IsHeader(free, live, h);
  }

  /** A live block that was not disturbed has its contents. */
  lemma KeepsContents(mem: Memory, base: int, free: set<int>, live: set<int>, block: map<int, int>, h: int,
                      mem': Memory, block': map<int, int>, live': set<int>, k: nat)
    requires HeapOk(mem, base, free, live, block) && h in live && h in live' && k < Size(mem, h)
    requires Undisturbed(mem, block, mem', block', live')
    ensures Size(mem', h) == Size(mem, h) && Contents(mem', h + 1, k) == Contents(mem, h + 1, k)
  {
    hide FreeOk;
    Inside(mem, base, free, live, block, h, h);
    forall u | h + 1 <= u < h + 1 + k ensures At(mem', u) == At(mem, u) {
      Inside(mem, base, free, live, block, h, u);
    }
    SameContents(mem, mem', h + 1, k);
  }

  ghost function Others(live: set<int>, ap: int): set<int> {
    if ap == 0 then live else live - {ap - 1}
  }

  class Heap {
    var mem: Memory
    var freep: int
    const base: int
    ghost var free: set<int>
    ghost var live: set<int>
    ghost var block: map<int, int>

    /** Before the first malloc there is no list at all. */
    ghost predicate Valid()
      reads this
    {
      && 0 < base
      && (freep == 0 ==> free == {} && live == {} && block == map[])
      && (freep != 0 ==> freep in free && HeapOk(mem, base, free, live, block))
    }

    constructor (base: int)
      requires 0 < base
      ensures Valid() && live == {} && block == map[] && this.base == base
    {
      this.base := base;
      mem, freep := map[], 0;
      free, live, block := {}, {}, map[];
    }

    /** The search of free(): from wherever the list was last used round to the last free block below `b`. */
    method FindPlace(b: int) returns (p: int)
      requires Valid() && freep != 0 && b in live
      ensures Precedes(mem, base, free, p, b)
    {
      hide TilesOk;
      assert b !in free && base < b by {
        Outside(mem, base, free, live, block, b);
      }
      p := freep;
      while !(p < b < Ptr(mem, p))
        invariant p in free
        decreases p > b, Ahead(free, p, b)
      {
        hide TilesOk;
        NextFree(mem, base, free, p);
        if p >= Ptr(mem, p) && (b > p || b < Ptr(mem, p)) {
          return;
        }
        ghost var next := Ptr(mem, p);
        assert p < next ==> next in Ahead(free, p, b) && next !in Ahead(free, next, b);
        p := Ptr(mem, p);
      }
    }

    /** The two tests of free(), each merging or linking. */
    method Merge(p: int, b: int)
      modifies this`mem
      ensures mem == MergeDown(MergeUp(old(mem), p, b), p, b)
    {
      if b + Size(mem, b) == Ptr(mem, p) {
        mem := mem[b := Unit(Ptr(mem, Ptr(mem, p)), Size(mem, b) + Size(mem, Ptr(mem, p)))];
      } else {
        mem := mem[b := Unit(Ptr(mem, p), Size(mem, b))];
      }
      if p + Size(mem, p) == b {
        mem := mem[p := Unit(Ptr(mem, b), Size(mem, p) + Size(mem, b))];
      } else {
        mem := mem[p := Unit(b, Size(mem, p))];
      }
    }

    /** free(): the block is released and every other live block is left as it was. */
    method Free(ap: int)
      requires Valid() && (ap == 0 || ap - 1 in live)
      modifies this
      ensures Valid()
      ensures ap == 0 ==> mem == old(mem) && freep == old(freep) && live == old(live) && block == old(block)
      ensures ap == 0 ==> free == old(free)
      ensures ap != 0 ==> live == old(live) - {ap - 1} && freep != 0
      ensures ap != 0 ==> Fits(mem, free, old(Size(mem, ap - 1)))
      ensures Undisturbed(old(mem), old(block), mem, block, live) && block.Keys == old(block.Keys)
    {
      hide HeapOk, Precedes, Relabelled, BlockAfter, FreeAfter, MergeUp, MergeDown;
      if ap == 0 {
        return;
      }
      var b := ap - 1;
      var p := FindPlace(b);
      Released(mem, base, free, live, block, p, b);
      ReleasedLeaves(mem, base, free, live, block, p, b);
      ReleasedHolds(mem, base, free, live, block, p, b);
      ghost var f, bl := FreeAfter(mem, free, p, b), BlockAfter(mem, block, p, b);
      Merge(p, b);
      freep := p;
      free, live, block := f, live - {b}, bl;
    }

    /** The end of malloc(): the block `p` after `prev`, or its top, becomes live. */
    method Take(prev: int, p: int, n: int) returns (ap: int)
      requires Valid() && freep != 0 && prev in free && p == Ptr(mem, prev) && 0 < n <= Size(mem, p)
      modifies this
      ensures Valid() && freep == prev != 0
      ensures ap - 1 > base && ap - 1 !in old(live) && live == old(live) + {ap - 1} && Size(mem, ap - 1) == n
      ensures Undisturbed(old(mem), old(block), mem, block, old(live)) && block.Keys == old(block.Keys)
    {
      hide HeapOk, TakeFree, TakeBlock, Cut;
      Taken(mem, base, free, live, block, prev, n);
      TakenLeaves(mem, base, free, live, block, prev, n);
      ghost var f, bl := TakeFree(mem, free, prev, n), TakeBlock(mem, block, prev, n);
      var h := p;
      if Size(mem, p) == n {
        mem := mem[prev := Unit(Ptr(mem, p), Size(mem, prev))];
      } else {
        mem := mem[p := Unit(Ptr(mem, p), Size(mem, p) - n)];
        h := p + Size(mem, p);
        mem := mem[h := Unit(Ptr(mem, h), n)];
      }
      assert mem == TakeMem(old(mem), prev, n);
      freep := prev;
      free, live, block := f, live + {h}, bl;
      return h + 1;
    }

    /** What sbrk may answer: nothing, or memory above the static header that the heap does not have yet. */
    ghost predicate CanGrant(grant: Option<int>, n: nat)
      reads this
    {
      grant.Some? ==> base < grant.value && block.Keys !! Range(grant.value, Granted(n))
    }

    /** morecore(): memory from sbrk enters the list through free(). */
    method MoreCore(n: nat, grant: Option<int>) returns (p: int)
      requires Valid() && freep != 0 && CanGrant(grant, n)
      modifies this
      ensures Valid() && freep != 0
      ensures grant.None? ==> p == 0 && mem == old(mem) && freep == old(freep) && free == old(free)
      ensures grant.None? ==> live == old(live) && block == old(block)
      ensures grant.Some? ==> p == freep && block.Keys == old(block.Keys) + Range(grant.value, Granted(n))
      ensures grant.Some? ==> Fits(mem, free, n)
      ensures live == old(live) && Undisturbed(old(mem), old(block), mem, block, live)
    {
      hide HeapOk, Range, Undisturbed;
      if grant.None? {
        NothingDisturbed(mem, block, live);
        return 0;
      }
      var hp := grant.value;
      Grow(mem, base, free, live, block, hp, Granted(n), Ptr(mem, hp));
      Fresh(mem, base, free, live, block, hp, Granted(n), Ptr(mem, hp));
      mem := mem[hp := Unit(Ptr(mem, hp), Granted(n))];
      live, block := live + {hp}, Extended(block, hp, Granted(n));
      ghost var m, bl := mem, block;
      Free(hp + 1);
      assert live == old(live);
      DisturbedNeither(old(mem), old(block), m, bl, mem, block, live, live, live);
      return freep;
    }

    /** The first malloc makes a list of the static header alone. */
    method Start()
      requires Valid()
      modifies this
      ensures Valid() && freep != 0 && live == old(live) && block == old(block)
      ensures forall n :: n > 0 ==> Fits(mem, free, n) == old(Fits(mem, free, n))
      ensures Undisturbed(old(mem), old(block), mem, block, live)
    {
      if freep == 0 {
        mem, freep := mem[base := Unit(base, 0)], base;
        free := {base};
        assert Follows(mem, base, free, base);
      }
    }

    /** The state of malloc()'s walk round the list: nothing passed since `freep` is large enough. */
    ghost predicate Walking(prev: int, n: int)
      reads this
    {
      && Valid() && freep != 0 && prev in free
      && forall g :: g in free && Passed(freep, Ptr(mem, prev), g) ==> Size(mem, g) < n
    }

    /** The walk of malloc() once there is a list; it grows the heap at most once. */
    method Search(n: nat, grant: Option<int>) returns (ap: int)
      requires Valid() && freep != 0 && 0 < n && CanGrant(grant, n)
      modifies this
      ensures Valid()
      ensures ap == 0 <==> grant.None? && !old(Fits(mem, free, n))
      ensures ap == 0 ==> live == old(live)
      ensures ap != 0 ==> ap - 1 > base && ap - 1 !in old(live) && live == old(live) + {ap - 1}
      ensures ap != 0 ==> Size(mem, ap - 1) == n
      ensures Undisturbed(old(mem), old(block), mem, block, old(live))
      ensures block.Keys == old(block.Keys) +
                            if ap == 0 || old(Fits(mem, free, n)) then {} else Range(grant.value, Granted(n))
    {
      hide HeapOk, Range, Undisturbed, Passed;
      var prev := freep;
      ghost var grown := false;
      NothingDisturbed(mem, block, live);
      assert Walking(prev, n) by {
        WalkStarts(mem, base, free, live, block, freep);
      }
      while true
        invariant Walking(prev, n) && live == old(live) && Undisturbed(old(mem), old(block), mem, block, live)
        invariant !grown ==> mem == old(mem) && free == old(free) && block == old(block)
        invariant grown ==> grant.Some? && !old(Fits(mem, free, n)) && Fits(mem, free, n)
        invariant grown ==> block.Keys == old(block.Keys) + Range(grant.value, Granted(n))
        decreases !grown, NotPassed(free, freep, Ptr(mem, prev))
      {
        hide HeapOk, Range, Undisturbed, Passed;
        var p := Ptr(mem, prev);
        NextInList(mem, base, free, live, block, prev);
        if Size(mem, p) >= n {
          ghost var m, bl := mem, block;
          ap := Take(prev, p, n);
          DisturbedNeither(old(mem), old(block), m, bl, mem, block, old(live), old(live), old(live));
          return;
        }
        if p == freep {
          WalkEnds(mem, free, freep, n);
          p := MoreCore(n, grant);
          if p == 0 {
            return 0;
          }
          DisturbedNeither(old(mem), old(block), old(mem), old(block), mem, block, live, live, live);
          grown := true;
          WalkStarts(mem, base, free, live, block, freep);
        } else {
          WalkStep(mem, base, free, live, block, freep, p);
        }
        prev := p;
      }
    }

    /** malloc(): fails exactly when the request is too large, or no free block is large enough and sbrk refuses;
        otherwise a block of exactly the units asked for, disjoint from every live one. */
    method Malloc(nbytes: nat, grant: Option<int>) returns (ap: int)
      requires Valid() && CanGrant(grant, Units(nbytes))
      modifies this
      ensures Valid()
      ensures ap == 0 <==> nbytes > 0x7fff_ffff || (grant.None? && !old(Fits(mem, free, Units(nbytes))))
      ensures ap == 0 ==> live == old(live)
      ensures ap != 0 ==> ap - 1 > base && ap - 1 !in old(live) && live == old(live) + {ap - 1}
      ensures ap != 0 ==> Size(mem, ap - 1) == Units(nbytes)
      ensures Undisturbed(old(mem), old(block), mem, block, old(live))
      ensures block.Keys == old(block.Keys) +
                            if ap == 0 || old(Fits(mem, free, Units(nbytes))) then {}
                            else Range(grant.value, Granted(Units(nbytes)))
    {
      hide HeapOk, Range, Undisturbed;
      NothingDisturbed(mem, block, live);
      if nbytes > MAX_REQUEST {
        return 0;
      }
      var n := Units(nbytes);
      Start();
      ghost var m := mem;
      ap := Search(n, grant);
      DisturbedNeither(old(mem), old(block), m, old(block), mem, block, old(live), old(live), old(live));
    }

    /** A program's own store into a block it holds. */
    method Write(u: int, v: Unit)
      requires Valid() && freep != 0 && u in block && block[u] in live && u != block[u]
      modifies `mem
      ensures Valid() && mem == old(mem)[u := v]
    {
      hide HeapOk;
      Store(mem, base, free, live, block, u, v);
      mem := mem[u := v];
    }

    /** The copy loop of realloc(), a header's worth of bytes at a time. */
    method Copy(src: int, dst: int, k: nat)
      requires Valid() && freep != 0 && src - 1 in live && dst - 1 in live && src != dst
      requires k < Size(mem, src - 1) && k < Size(mem, dst - 1)
      modifies `mem
      ensures Valid() && Copied(old(mem), mem, src, dst, k)
    {
      hide HeapOk, Copied;
      CopiedNone(mem, src, dst);
      for i := 0 to k
        invariant Valid() && Copied(old(mem), mem, src, dst, i)
      {
        hide HeapOk, Copied;
        Inside(old(mem), base, free, live, block, src - 1, src + i);
        Inside(old(mem), base, free, live, block, dst - 1, dst + i);
        assert !(dst <= src + i < dst + i) by {
          if dst <= src + i < dst + i {
            Inside(old(mem), base, free, live, block, dst - 1, src + i);
          }
        }
        CopiedOne(old(mem), mem, src, dst, i);
        Write(dst + i, At(mem, src + i));
      }
    }

    /** The part of realloc() that may move a block. */
    method Resize(ap: int, nbytes: nat, grant: Option<int>) returns (r: int)
      requires Valid() && freep != 0 && ap != 0 && ap - 1 in live && 0 < nbytes <= MAX_REQUEST
      requires CanGrant(grant, Units(nbytes))
      modifies this
      ensures Valid()
      ensures r == 0 <==> grant.None? && !old(Fits(mem, free, Units(nbytes)))
                          && old(Size(mem, ap - 1)) < Units(nbytes)
      ensures r == 0 ==> live == old(live)
      ensures r != 0 ==> r - 1 in live && live == Others(old(live), ap) + {r - 1} && Size(mem, r - 1) >= Units(nbytes)
      ensures old(Size(mem, ap - 1)) >= 1
      ensures r != 0 ==>
                Contents(mem, r, old(Size(mem, ap - 1)) - 1) == old(Contents(mem, ap, Size(mem, ap - 1) - 1))
      ensures Undisturbed(old(mem), old(block), mem, block, if r == 0 then live else Others(old(live), ap))
    {
      hide HeapOk, Undisturbed, Contents, Range, Copied, Fits;
      NothingDisturbed(mem, block, Others(live, ap));
      LiveSize(mem, base, free, live, block, ap - 1);
      if Size(mem, ap - 1) >= Units(nbytes) {
        assert live == Others(live, ap) + {ap - 1};
        return ap;
      }
      // The copy is bounded by the old size alone: it is the smaller of the two.
      var k := Size(mem, ap - 1) - 1;
      assert UNIT * k < nbytes;
      r := Malloc(nbytes, grant);
      if r == 0 {
        return 0;
      }
      ghost var m1, b1, live1, rest := mem, block, live, Others(old(live), ap);
      KeepsContents(old(mem), base, old(free), old(live), old(block), ap - 1, m1, b1, old(live), k);
      Copy(ap, r, k);
      CopyDisturbs(m1, base, free, live, b1, mem, ap, r, k);
      ghost var m2, f2 := mem, free;
      Free(ap);
      KeepsContents(m2, base, f2, live1, b1, r - 1, mem, block, live, k);
      DisturbedNeither(old(mem), old(block), m1, b1, m2, b1, old(live), live1 - {r - 1}, rest);
      DisturbedNeither(old(mem), old(block), m2, b1, mem, block, rest, live, rest);
      assert live == rest + {r - 1};
    }

    /** realloc(): on success the old contents are at the start of the new block and the old block is released;
        on failure nothing is lost. */
    method Realloc(ap: int, nbytes: nat, grant: Option<int>) returns (r: int)
      requires Valid() && (ap == 0 || ap - 1 in live) && CanGrant(grant, Units(nbytes))
      modifies this
      ensures Valid()
      ensures nbytes == 0 ==> r == 0 && live == Others(old(live), ap)
      ensures nbytes > 0 ==>
                (r == 0 <==> nbytes > MAX_REQUEST ||
                             (grant.None? && !old(Fits(mem, free, Units(nbytes)))
                              && (ap == 0 || old(Size(mem, ap - 1)) < Units(nbytes))))
      ensures nbytes > 0 && r == 0 ==> live == old(live)
      ensures r != 0 ==> r - 1 in live && live == Others(old(live), ap) + {r - 1} && Size(mem, r - 1) >= Units(nbytes)
      ensures r != 0 && ap != 0 ==> old(Size(mem, ap - 1)) >= 1
      ensures r != 0 && ap != 0 ==>
                Contents(mem, r, old(Size(mem, ap - 1)) - 1) == old(Contents(mem, ap, Size(mem, ap - 1) - 1))
      ensures Undisturbed(old(mem), old(block), mem, block, if r == 0 then live else Others(old(live), ap))
    {
      hide HeapOk, Undisturbed, Contents, Range;
      NothingDisturbed(mem, block, live);
      if nbytes == 0 {
        Free(ap);
        return 0;
      }
      if ap == 0 {
        r := Malloc(nbytes, grant);
        return;
      }
      if nbytes > MAX_REQUEST {
        return 0;
      }
      r := Resize(ap, nbytes, grant);
    }
  }

  lemma CopiedNone(mem: Memory, src: int, dst: int)
    ensures Copied(mem, mem, src, dst, 0)
  {
  }

  lemma NothingDisturbed(mem: Memory, block: map<int, int>, live: set<int>)
    ensures Undisturbed(mem, block, mem, block, live)
  {
  }

  lemma DisturbedNeither(m0: Memory, b0: map<int, int>, m1: Memory, b1: map<int, int>, m2: Memory, b2: map<int, int>,
                         l1: set<int>, l2: set<int>, live: set<int>)
    requires Undisturbed(m0, b0, m1, b1, l1) && Undisturbed(m1, b1, m2, b2, l2) && live <= l1 && live <= l2
    ensures Undisturbed(m0, b0, m2, b2, live)
  {
  }

  /** Copying into a block disturbs that block alone. */
  lemma CopyDisturbs(mem: Memory, base: int, free: set<int>, live: set<int>, block: map<int, int>,
                     mem': Memory, src: int, dst: int, k: nat)
    requires HeapOk(mem, base, free, live, block) && dst - 1 in live && k < Size(mem, dst - 1)
    requires Copied(mem, mem', src, dst, k)
    ensures Undisturbed(mem, block, mem', block, live - {dst - 1}) && Size(mem', dst - 1) == Size(mem, dst - 1)
    ensures Contents(mem', dst, k) == Contents(mem, src, k)
  {
    hide FreeOk, Contents;
    assert At(mem', dst - 1) == At(mem, dst - 1);
    forall u | u in block && block[u] != dst - 1 ensures At(mem', u) == At(mem, u) {
      if dst <= u < dst + k {
        Inside(mem, base, free, live, block, dst - 1, u);
      }
    }
  }

  lemma LiveSize(mem: Memory, base: int, free: set<int>, live: set<int>, block: map<int, int>, h: int)
    requires HeapOk(mem, base, free, live, block) && h in live
    ensures Size(mem, h) >= 1
  {
  }

  /** A grant touches no block. */
  lemma Fresh(mem: Memory, base: int, free: set<int>, live: set<int>, block: map<int, int>, a: int, n: int, x: int)
    requires HeapOk(mem, base, free, live, block) && base < a && 0 < n && block.Keys !! Range(a, n)
    ensures a !in live && Undisturbed(mem, block, mem[a := Unit(x, n)], Extended(block, a, n), live)
    ensures Extended(block, a, n).Keys == block.Keys + Range(a, n)
  {
    hide FreeOk;
    assert a in Range(a, n) && a !in block.Keys;
    assert !(a in live) by { assert a in live ==> IsHeader(free, live, a); }
  }

  lemma Outside(mem: Memory, base: int, free: set<int>, live: set<int>, block: map<int, int>, b: int)
    requires HeapOk(mem, base, free, live, block) && b in live
    ensures b !in free && base < b
  {
    assert IsHeader(free, live, b);
    assert b in block;
  }
}
