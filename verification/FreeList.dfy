/** The K&R free list as a value: memory in header-sized units, the free blocks linked into one circle in
    address order, the blocks handed out, and which block every unit obtained from sbrk is in. */
module FreeList {
  /** Eight bytes of memory: two words, which in a header are the list pointer and the size in units. */
  datatype Unit = Unit(ptr: int, size: int)

  type Memory = map<int, Unit>

  function Ptr(mem: Memory, a: int): int {
    if a in mem then mem[a].ptr else 0
  }

  function Size(mem: Memory, a: int): int {
    if a in mem then mem[a].size else 0
  }

  /** The pointer of `h` is the next free block up, or `base` when `h` is the highest. */
  ghost predicate Follows(mem: Memory, base: int, free: set<int>, h: int) {
    && Ptr(mem, h) in free
    && (h < Ptr(mem, h) ==> forall g :: g in free ==> g <= h || Ptr(mem, h) <= g)
    && (Ptr(mem, h) <= h ==> Ptr(mem, h) == base && forall g :: g in free ==> g <= h)
  }

  /** One circle in address order with a gap after every block: no two free blocks are adjacent. */
  ghost predicate FreeOk(mem: Memory, base: int, free: set<int>) {
    && base in free && Size(mem, base) == 0
    && (forall h :: h in free ==> base <= h && (h == base || Size(mem, h) >= 1))
    && (forall g, h :: g in free && h in free && g < h ==> g + Size(mem, g) < h)
    && (forall h {:trigger Follows(mem, base, free, h)} :: h in free ==> Follows(mem, base, free, h))
  }

  predicate IsHeader(free: set<int>, live: set<int>, h: int) {
    h in live || h in free
  }

  /** Free and live blocks tile the memory: `block` gives for every unit the header of the block it is in. */
  ghost predicate TilesOk(mem: Memory, base: int, free: set<int>, live: set<int>, block: map<int, int>) {
    && free !! live
    && (forall h :: h in live ==> Size(mem, h) >= 1)
    && (forall h, u {:trigger IsHeader(free, live, h), u in block} ::
          IsHeader(free, live, h) && h <= u < h + Size(mem, h) ==> u in block && block[u] == h)
    && (forall u {:trigger u in block} :: u in block ==>
          && base < u && IsHeader(free, live, block[u])
          && block[u] <= u < block[u] + Size(mem, block[u]))
  }

  ghost predicate HeapOk(mem: Memory, base: int, free: set<int>, live: set<int>, block: map<int, int>) {
    FreeOk(mem, base, free) && TilesOk(mem, base, free, live, block)
  }

  /** The two halves of the tiling, for one unit. */
  lemma UnitOf(mem: Memory, base: int, free: set<int>, live: set<int>, block: map<int, int>, h: int, u: int)
    requires TilesOk(mem, base, free, live, block) && IsHeader(free, live, h) && h <= u < h + Size(mem, h)
    ensures u in block && block[u] == h
  {
  }

  lemma HeaderOf(mem: Memory, base: int, free: set<int>, live: set<int>, block: map<int, int>, u: int)
    requires TilesOk(mem, base, free, live, block) && u in block
    ensures base < u && IsHeader(free, live, block[u]) && block[u] <= u < block[u] + Size(mem, block[u])
  {
  }

  /** Blocks do not overlap. */
  lemma Apart(mem: Memory, base: int, free: set<int>, live: set<int>, block: map<int, int>, g: int, h: int)
    requires HeapOk(mem, base, free, live, block) && IsHeader(free, live, g) && IsHeader(free, live, h)
    requires g < h && Size(mem, h) >= 1
    ensures base < h && g + Size(mem, g) <= h
  {
    assert h in block;
  }

  /** What the pointer of a free block leads to. */
  lemma NextFree(mem: Memory, base: int, free: set<int>, p: int)
    requires FreeOk(mem, base, free) && p in free
    ensures Ptr(mem, p) in free
    ensures Ptr(mem, p) != base ==> p + Size(mem, p) < Ptr(mem, p)
    ensures forall g :: g in free ==> g <= p || (Ptr(mem, p) != base && Ptr(mem, p) <= g)
  {
    assert Follows(mem, base, free, p);
  }

  /** Memory that agrees on the free headers has the same free list. */
  lemma SameFree(mem: Memory, base: int, free: set<int>, m: Memory)
    requires FreeOk(mem, base, free)
    requires forall h :: h in free ==> Ptr(m, h) == Ptr(mem, h) && Size(m, h) == Size(mem, h)
    ensures FreeOk(m, base, free)
  {
    forall h | h in free ensures Follows(m, base, free, h) {
      assert Follows(mem, base, free, h);
    }
  }

  /** Moving blocks between the free and the live ones keeps the tiling. */
  lemma Retiled(mem: Memory, base: int, free: set<int>, live: set<int>, block: map<int, int>,
                m: Memory, free': set<int>, live': set<int>)
    requires TilesOk(mem, base, free, live, block) && free' !! live' && free' + live' == free + live
    requires forall a :: Size(m, a) == Size(mem, a)
    requires forall h :: h in live' ==> Size(mem, h) >= 1
    ensures TilesOk(m, base, free', live', block)
  {
    forall h ensures IsHeader(free', live', h) == IsHeader(free, live, h) {
      assert h in free' + live' <==> h in free + live;
    }
  }

  lemma UnlinkFollows(mem: Memory, base: int, free: set<int>, p: int, h: int)
    requires FreeOk(mem, base, free) && p in free && Ptr(mem, p) != base && h in free && h != Ptr(mem, p)
    ensures var q := Ptr(mem, p); Follows(mem[p := Unit(Ptr(mem, q), Size(mem, p))], base, free - {q}, h)
  {
    var q := Ptr(mem, p);
    assert Follows(mem, base, free, p) && Follows(mem, base, free, q) && Follows(mem, base, free, h);
    if h != p {
      assert Ptr(mem, h) != q;
    }
  }

  /** Unlinking a free block from its predecessor makes it a live one. */
  lemma Unlink(mem: Memory, base: int, free: set<int>, live: set<int>, block: map<int, int>, p: int)
    requires HeapOk(mem, base, free, live, block) && p in free && Ptr(mem, p) != base
    ensures var q := Ptr(mem, p);
            HeapOk(mem[p := Unit(Ptr(mem, q), Size(mem, p))], base, free - {q}, live + {q}, block)
  {
    hide Follows;
    var q := Ptr(mem, p);
    var m := mem[p := Unit(Ptr(mem, q), Size(mem, p))];
    NextFree(mem, base, free, p);
    forall h | h in free - {q} ensures Follows(m, base, free - {q}, h) {
      UnlinkFollows(mem, base, free, p, h);
    }
    Retiled(mem, base, free, live, block, m, free - {q}, live + {q});
  }

  /** Where the search of free() stops: the last free block below `b`. */
  ghost predicate Precedes(mem: Memory, base: int, free: set<int>, p: int, b: int) {
    p in free && p < b && (b < Ptr(mem, p) || Ptr(mem, p) == base)
  }

  lemma LinkFollows(mem: Memory, base: int, free: set<int>, p: int, b: int, h: int)
    requires FreeOk(mem, base, free) && Precedes(mem, base, free, p, b) && (h in free || h == b)
    requires b !in free
    ensures Follows(mem[b := Unit(Ptr(mem, p), Size(mem, b))][p := Unit(b, Size(mem, p))], base, free + {b}, h)
  {
    assert Follows(mem, base, free, p);
    assert h in free ==> Follows(mem, base, free, h);
    assert base < b;
  }

  /** A live block that touches no free block can be linked in after the last free block below it. */
  lemma Link(mem: Memory, base: int, free: set<int>, live: set<int>, block: map<int, int>, p: int, b: int)
    requires HeapOk(mem, base, free, live, block) && b in live && Precedes(mem, base, free, p, b)
    requires p + Size(mem, p) < b && (b + Size(mem, b) < Ptr(mem, p) || Ptr(mem, p) == base)
    ensures HeapOk(mem[b := Unit(Ptr(mem, p), Size(mem, b))][p := Unit(b, Size(mem, p))],
                   base, free + {b}, live - {b}, block)
  {
    hide Follows;
    var m := mem[b := Unit(Ptr(mem, p), Size(mem, b))][p := Unit(b, Size(mem, p))];
    NextFree(mem, base, free, p);
    forall h | h in free + {b} ensures Follows(m, base, free + {b}, h) {
      LinkFollows(mem, base, free, p, b, h);
    }
    assert forall g :: g in free && g < b ==> g <= p && g + Size(mem, g) < b;
    Retiled(mem, base, free, live, block, m, free + {b}, live - {b});
  }

  /** The units of block `q` now belong to block `b`. */
  function Relabelled(block: map<int, int>, q: int, b: int): map<int, int> {
    map u | u in block :: if block[u] == q then b else block[u]
  }

  lemma JoinUnit(mem: Memory, base: int, free: set<int>, live: set<int>, block: map<int, int>,
                 b: int, q: int, h: int, u: int)
    requires TilesOk(mem, base, free, live, block) && IsHeader(free, live, h) && h != q && IsHeader(free, live, q)
    requires b + Size(mem, b) == q
    requires h <= u < h + if h == b then Size(mem, b) + Size(mem, q) else Size(mem, h)
    ensures u in Relabelled(block, q, b) && Relabelled(block, q, b)[u] == h
  {
    hide TilesOk;
    UnitOf(mem, base, free, live, block, if h == b && q <= u then q else h, u);
  }

  lemma JoinHeader(mem: Memory, base: int, free: set<int>, live: set<int>, block: map<int, int>, b: int, q: int, u: int)
    requires TilesOk(mem, base, free, live, block) && IsHeader(free, live, b) && b + Size(mem, b) == q
    requires Size(mem, b) >= 1 && Size(mem, q) >= 0 && u in Relabelled(block, q, b)
    ensures base < u
    ensures var h := Relabelled(block, q, b)[u];
            && h != q && IsHeader(free, live, h)
            && h <= u < h + if h == b then Size(mem, b) + Size(mem, q) else Size(mem, h)
  {
    hide TilesOk;
    HeaderOf(mem, base, free, live, block, u);
  }

  /** Two blocks, the second starting where the first ends, taken as one. */
  lemma Joined(mem: Memory, base: int, free: set<int>, live: set<int>, block: map<int, int>, b: int, q: int, x: int)
    requires TilesOk(mem, base, free, live, block)
    requires IsHeader(free, live, b) && q in live && b != q && b + Size(mem, b) == q && Size(mem, b) >= 1
    ensures TilesOk(mem[b := Unit(x, Size(mem, b) + Size(mem, q))], base, free, live - {q}, Relabelled(block, q, b))
  {
    hide Relabelled;
    var m := mem[b := Unit(x, Size(mem, b) + Size(mem, q))];
    var l := live - {q};
    var bl := Relabelled(block, q, b);
    forall h, u | IsHeader(free, l, h) && h <= u < h + Size(m, h) ensures u in bl && bl[u] == h {
      JoinUnit(mem, base, free, live, block, b, q, h, u);
    }
    forall u | u in bl ensures base < u && IsHeader(free, l, bl[u]) && bl[u] <= u < bl[u] + Size(m, bl[u]) {
      JoinHeader(mem, base, free, live, block, b, q, u);
    }
  }

  /** The last free block below a block that starts where it ends takes that block in. */
  lemma Absorb(mem: Memory, base: int, free: set<int>, live: set<int>, block: map<int, int>, p: int, b: int)
    requires HeapOk(mem, base, free, live, block) && b in live && Precedes(mem, base, free, p, b)
    requires p + Size(mem, p) == b && (b + Size(mem, b) < Ptr(mem, p) || Ptr(mem, p) == base)
    ensures HeapOk(mem[p := Unit(Ptr(mem, p), Size(mem, p) + Size(mem, b))],
                   base, free, live - {b}, Relabelled(block, b, p))
  {
    hide Follows;
    var m := mem[p := Unit(Ptr(mem, p), Size(mem, p) + Size(mem, b))];
    NextFree(mem, base, free, p);
    Joined(mem, base, free, live, block, p, b, Ptr(mem, p));
    forall h | h in free ensures Follows(m, base, free, h) {
      SameFollows(mem, base, free, m, h);
    }
  }

  lemma SameFollows(mem: Memory, base: int, free: set<int>, m: Memory, h: int)
    requires FreeOk(mem, base, free) && h in free && Ptr(m, h) == Ptr(mem, h)
    ensures Follows(m, base, free, h)
  {
    assert Follows(mem, base, free, h);
  }

  /** Two adjacent live blocks taken as one. */
  lemma Join(mem: Memory, base: int, free: set<int>, live: set<int>, block: map<int, int>, b: int, q: int, x: int)
    requires HeapOk(mem, base, free, live, block) && b in live && q in live && b + Size(mem, b) == q
    ensures HeapOk(mem[b := Unit(x, Size(mem, b) + Size(mem, q))], base, free, live - {q}, Relabelled(block, q, b))
  {
    hide Follows, FreeOk;
    Joined(mem, base, free, live, block, b, q, x);
    SameFree(mem, base, free, mem[b := Unit(x, Size(mem, b) + Size(mem, q))]);
  }

  /** The units of the top `n` of block `p`, from `t` up, now belong to a block of their own. */
  function Cut(block: map<int, int>, t: int, n: int): map<int, int> {
    map u | u in block :: if t <= u < t + n then t else block[u]
  }

  lemma SplitUnit(mem: Memory, base: int, free: set<int>, live: set<int>, block: map<int, int>,
                  p: int, t: int, n: int, h: int, u: int)
    requires TilesOk(mem, base, free, live, block) && IsHeader(free, live, p)
    requires p < t < t + n == p + Size(mem, p)
    requires h == t || IsHeader(free, live, h)
    requires h <= u < h + if h == t then n else if h == p then t - p else Size(mem, h)
    ensures u in Cut(block, t, n) && Cut(block, t, n)[u] == h
  {
    hide TilesOk;
    UnitOf(mem, base, free, live, block, if h == t then p else h, u);
    if t <= u < t + n {
      UnitOf(mem, base, free, live, block, p, u);
    }
  }

  lemma SplitHeader(mem: Memory, base: int, free: set<int>, live: set<int>, block: map<int, int>,
                    p: int, t: int, n: int, u: int)
    requires TilesOk(mem, base, free, live, block) && IsHeader(free, live, p)
    requires p < t < t + n == p + Size(mem, p) && !IsHeader(free, live, t) && u in Cut(block, t, n)
    ensures base < u
    ensures var h := Cut(block, t, n)[u];
            && h <= u < h + (if h == t then n else if h == p then t - p else Size(mem, h))
            && (h == t || IsHeader(free, live, h))
  {
    hide TilesOk;
    HeaderOf(mem, base, free, live, block, u);
  }

  lemma SplitTiles(mem: Memory, base: int, free: set<int>, live: set<int>, block: map<int, int>,
                   p: int, n: int, x: int)
    requires TilesOk(mem, base, free, live, block) && p in free && 0 < n < Size(mem, p)
    requires !IsHeader(free, live, p + Size(mem, p) - n)
    ensures var t := p + Size(mem, p) - n;
            TilesOk(mem[p := Unit(Ptr(mem, p), Size(mem, p) - n)][t := Unit(x, n)],
                    base, free, live + {t}, Cut(block, t, n))
  {
    hide Cut;
    var t := p + Size(mem, p) - n;
    var m := mem[p := Unit(Ptr(mem, p), Size(mem, p) - n)][t := Unit(x, n)];
    var bl, l := Cut(block, t, n), live + {t};
    forall h, u | IsHeader(free, l, h) && h <= u < h + Size(m, h) ensures u in bl && bl[u] == h {
      SplitUnit(mem, base, free, live, block, p, t, n, h, u);
    }
    forall u | u in bl ensures base < u && IsHeader(free, l, bl[u]) && bl[u] <= u < bl[u] + Size(m, bl[u]) {
      SplitHeader(mem, base, free, live, block, p, t, n, u);
    }
  }

  /** Cutting the top of a free block off as a live one. */
  lemma Split(mem: Memory, base: int, free: set<int>, live: set<int>, block: map<int, int>, p: int, n: int, x: int)
    requires HeapOk(mem, base, free, live, block) && p in free && 0 < n < Size(mem, p)
    ensures var t := p + Size(mem, p) - n;
            HeapOk(mem[p := Unit(Ptr(mem, p), Size(mem, p) - n)][t := Unit(x, n)],
                   base, free, live + {t}, Cut(block, t, n))
  {
    hide Follows, Cut;
    var t := p + Size(mem, p) - n;
    var m := mem[p := Unit(Ptr(mem, p), Size(mem, p) - n)][t := Unit(x, n)];
    NotHeader(mem, base, free, live, block, p, t);
    SplitTiles(mem, base, free, live, block, p, n, x);
    forall h | h in free ensures Follows(m, base, free, h) {
      SameFollows(mem, base, free, m, h);
    }
  }

  /** A unit inside a block is not a header. */
  lemma NotHeader(mem: Memory, base: int, free: set<int>, live: set<int>, block: map<int, int>, h: int, u: int)
    requires HeapOk(mem, base, free, live, block) && IsHeader(free, live, h) && h < u < h + Size(mem, h)
    ensures !IsHeader(free, live, u)
  {
    hide Follows;
    assert u in block && block[u] == h;
  }

  predicate Within(u: int, a: int, n: int) {
    a <= u < a + n
  }

  function Range(a: int, n: int): set<int> {
    set u | a <= u < a + n && Within(u, a, n)
  }

  function Extended(block: map<int, int>, a: int, n: int): map<int, int> {
    map u | u in block.Keys + Range(a, n) :: if u in block then block[u] else a
  }

  lemma GrowUnit(mem: Memory, base: int, free: set<int>, live: set<int>, block: map<int, int>,
                 a: int, n: int, h: int, u: int)
    requires TilesOk(mem, base, free, live, block) && block.Keys !! Range(a, n)
    requires if h == a then Within(u, a, n) else IsHeader(free, live, h) && h <= u < h + Size(mem, h)
    ensures u in Extended(block, a, n) && Extended(block, a, n)[u] == h
  {
    hide TilesOk;
    if h == a {
      assert u in Range(a, n) && u !in block.Keys;
    } else {
      UnitOf(mem, base, free, live, block, h, u);
    }
  }

  lemma GrowHeader(mem: Memory, base: int, free: set<int>, live: set<int>, block: map<int, int>, a: int, n: int, u: int)
    requires TilesOk(mem, base, free, live, block) && u in Extended(block, a, n) && base < a
    ensures base < u
    ensures var h := Extended(block, a, n)[u];
            h <= u && if u in block then IsHeader(free, live, h) && u < h + Size(mem, h) else h == a && u < a + n
  {
    hide TilesOk;
    if u in block {
      HeaderOf(mem, base, free, live, block, u);
    }
  }

  lemma GrowTiles(mem: Memory, base: int, free: set<int>, live: set<int>, block: map<int, int>,
                  a: int, n: int, x: int)
    requires TilesOk(mem, base, free, live, block) && base < a && 0 < n && !IsHeader(free, live, a)
    requires block.Keys !! Range(a, n)
    ensures TilesOk(mem[a := Unit(x, n)], base, free, live + {a}, Extended(block, a, n))
  {
    hide Range, Extended;
    var m, bl, l := mem[a := Unit(x, n)], Extended(block, a, n), live + {a};
    forall h, u | IsHeader(free, l, h) && h <= u < h + Size(m, h) ensures u in bl && bl[u] == h {
      GrowUnit(mem, base, free, live, block, a, n, h, u);
    }
    forall u | u in bl ensures base < u && IsHeader(free, l, bl[u]) && bl[u] <= u < bl[u] + Size(m, bl[u]) {
      GrowHeader(mem, base, free, live, block, a, n, u);
    }
  }

  /** Memory from sbrk, as one live block. */
  lemma Grow(mem: Memory, base: int, free: set<int>, live: set<int>, block: map<int, int>, a: int, n: int, x: int)
    requires HeapOk(mem, base, free, live, block) && base < a && 0 < n
    requires block.Keys !! Range(a, n)
    ensures HeapOk(mem[a := Unit(x, n)], base, free, live + {a}, Extended(block, a, n))
  {
    hide Follows, Extended;
    assert a in Range(a, n) && a !in block.Keys;
    assert !IsHeader(free, live, a);
    GrowTiles(mem, base, free, live, block, a, n, x);
    SameFree(mem, base, free, mem[a := Unit(x, n)]);
  }

  /** A program's own stores go to units that are not headers. */
  lemma Store(mem: Memory, base: int, free: set<int>, live: set<int>, block: map<int, int>, u: int, v: Unit)
    requires HeapOk(mem, base, free, live, block) && u in block && block[u] != u
    ensures HeapOk(mem[u := v], base, free, live, block)
  {
    hide Follows;
    assert !IsHeader(free, live, u);
    SameFree(mem, base, free, mem[u := v]);
  }

  /** The list pointer in the header of a live block is of no account. */
  lemma Touch(mem: Memory, base: int, free: set<int>, live: set<int>, block: map<int, int>, b: int, x: int)
    requires HeapOk(mem, base, free, live, block) && b in live
    ensures HeapOk(mem[b := Unit(x, Size(mem, b))], base, free, live, block)
  {
    hide Follows;
    SameFree(mem, base, free, mem[b := Unit(x, Size(mem, b))]);
    Retiled(mem, base, free, live, block, mem[b := Unit(x, Size(mem, b))], free, live);
  }
}
