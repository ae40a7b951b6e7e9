/** The physical page allocator, which checks its free list against a table of page states and rebuilds it from the
    table when the two disagree. */
module PageAlloc {
  const PGSIZE := 4096
  const KERNBASE := 0x8000_0000
  const PHYSTOP := 0x7000_0000
  const SLOTS := PHYSTOP / PGSIZE

  datatype PageState = ALLOC | FREE | UNKNOWN

  /** Where pages can be: from the end of the kernel, a kernel address, up to the top of physical memory. */
  datatype Layout = Layout(end: nat, top: nat) {
    predicate Ok() {
      KERNBASE <= end && 0 < top <= PHYSTOP
    }

    /** The test kalloc() makes of a list node. */
    predicate IsPage(r: int) {
      r % PGSIZE == 0 && end <= r && r - KERNBASE < top
    }

    /** run_ptr_valid() */
    predicate IsPointer(r: int) {
      r == 0 || IsPage(r)
    }

    function First(): nat
      requires Ok()
    {
      (end - KERNBASE + PGSIZE - 1) / PGSIZE
    }

    function Last(): nat
      requires Ok()
    {
      (top - 1) / PGSIZE
    }
  }

  function Address(i: nat): int {
    KERNBASE + PGSIZE * i
  }

  function Index(r: int): int {
    (r - KERNBASE) / PGSIZE
  }

  /** The pages are the addresses of the indices from First to Last. */
  lemma PageIndex(l: Layout, r: int)
    requires l.Ok()
    ensures l.IsPage(r) ==> l.First() <= Index(r) <= l.Last() && r == Address(Index(r))
    ensures l.Last() < SLOTS
  {
  }

  lemma IndexPage(l: Layout, i: nat)
    requires l.Ok() && l.First() <= i <= l.Last()
    ensures l.IsPage(Address(i)) && Index(Address(i)) == i
  {
  }

  type Table = s: seq<PageState> | |s| == SLOTS witness seq(SLOTS, _ => UNKNOWN)

  /** The addresses of the free pages from index `i` to `last`, in order. */
  function FreePages(t: Table, i: nat, last: nat): (r: seq<int>)
    requires last < SLOTS
    decreases last + 1 - i
  {
    if i > last then [] else (if t[i] == FREE then [Address(i)] else []) + FreePages(t, i + 1, last)
  }

  lemma {:induction false} FreePagesAre(t: Table, i: nat, last: nat)
    requires last < SLOTS
    ensures forall k :: 0 <= k < |FreePages(t, i, last)| ==>
              var r := FreePages(t, i, last)[k]; i <= Index(r) <= last && t[Index(r)] == FREE && r == Address(Index(r))
    ensures forall j :: i <= j <= last && t[j] == FREE ==> Address(j) in FreePages(t, i, last)
    ensures forall j, k :: 0 <= j < k < |FreePages(t, i, last)| ==> FreePages(t, i, last)[j] < FreePages(t, i, last)[k]
    decreases last + 1 - i
  {
    if i <= last {
      FreePagesAre(t, i + 1, last);
      assert Index(Address(i)) == i;
    }
  }

  /** The list that starts at `head` and goes on by `next` is exactly `pages`. */
  lemma FreePagesNext(t: Table, i: nat, last: nat)
    requires i <= last < SLOTS
    ensures Address(i) !in FreePages(t, i + 1, last)
    ensures FreePages(t, i, last) == if t[i] == FREE then [Address(i)] + FreePages(t, i + 1, last)
                                     else FreePages(t, i + 1, last)
  {
    FreePagesAre(t, i + 1, last);
    assert FreePages(t, i, last) == (if t[i] == FREE then [Address(i)] else []) + FreePages(t, i + 1, last);
  }

  predicate IsList(next: map<int, int>, head: int, pages: seq<int>)
    decreases pages
  {
    if pages == [] then head == 0
    else head == pages[0] && head in next && IsList(next, next[head], pages[1..])
  }

  lemma {:induction false} ListKeeps(next: map<int, int>, head: int, pages: seq<int>, v: int, x: int)
    requires IsList(next, head, pages) && v !in pages
    ensures IsList(next[v := x], head, pages)
    decreases pages
  {
    if pages != [] {
      ListKeeps(next, next[head], pages[1..], v, x);
    }
  }

  /** A page pushed in front. */
  lemma ListPush(next: map<int, int>, head: int, pages: seq<int>, v: int)
    requires IsList(next, head, pages) && v !in pages
    ensures IsList(next[v := head], v, [v] + pages)
  {
    ListKeeps(next, head, pages, v, head);
    assert ([v] + pages)[1..] == pages;
  }

  /** `pages` is every free page once. */
  ghost predicate Complete(l: Layout, t: Table, pages: seq<int>)
    requires l.Ok() && l.Last() < SLOTS
  {
    && (forall k :: 0 <= k < |pages| ==>
          l.IsPage(pages[k]) && 0 <= Index(pages[k]) < SLOTS && t[Index(pages[k])] == FREE)
    && (forall j, k :: 0 <= j < k < |pages| ==> pages[j] != pages[k])
    && (forall i :: l.First() <= i <= l.Last() && t[i] == FREE ==> Address(i) in pages)
  }

  lemma RebuiltComplete(l: Layout, t: Table)
    requires l.Ok() && l.Last() < SLOTS
    ensures Complete(l, t, FreePages(t, l.First(), l.Last()))
  {
    FreePagesAre(t, l.First(), l.Last());
    var pages := FreePages(t, l.First(), l.Last());
    forall k | 0 <= k < |pages| ensures l.IsPage(pages[k]) {
      IndexPage(l, Index(pages[k]));
    }
  }

  lemma PastTheEnd(next: map<int, int>, t: Table, i: nat, last: nat)
    requires last < i && last < SLOTS
    ensures FreePages(t, i, last) == [] && IsList(next, 0, [])
  {
  }

  /** The first page of a complete list passes every check, and so does the one after it. */
  lemma FirstPasses(l: Layout, t: Table, next: map<int, int>, head: int, pages: seq<int>)
    requires l.Ok() && l.Last() < SLOTS && IsList(next, head, pages) && Complete(l, t, pages) && pages != []
    ensures head == pages[0] != 0 && head in next && FreePage(l, t, head)
    ensures next[head] == 0 || FreePage(l, t, next[head])
    ensures IsList(next, next[head], pages[1..])
  {
    assert l.IsPage(pages[0]);
    assert |pages| > 1 ==> pages[1..][0] == pages[1];
  }

  lemma SameIndex(l: Layout, r: int, i: nat)
    requires l.Ok() && l.Last() < SLOTS && l.IsPage(r)
    ensures Index(r) == i <==> r == Address(i)
  {
    PageIndex(l, r);
  }

  /** Taking the first page off, or putting one on, together with its mark in the table. */
  lemma CompleteTail(l: Layout, t: Table, pages: seq<int>)
    requires l.Ok() && l.Last() < SLOTS && pages != [] && Complete(l, t, pages)
    ensures Complete(l, t[Index(pages[0]) := ALLOC], pages[1..])
  {
    hide Layout.First, Layout.Last, Layout.IsPage, Index, Address;
    var i := Index(pages[0]);
    SameIndex(l, pages[0], i);
    forall k | 0 < k < |pages| ensures Index(pages[k]) != i {
      SameIndex(l, pages[k], i);
    }
    forall j | l.First() <= j <= l.Last() && t[j] == FREE && j != i ensures Address(j) in pages[1..] {
      SameIndex(l, pages[0], j);
      assert Address(j) in pages;
    }
  }

  lemma CompletePush(l: Layout, t: Table, pages: seq<int>, v: int)
    requires l.Ok() && l.Last() < SLOTS && Complete(l, t, pages)
    requires l.IsPage(v) && 0 <= Index(v) < SLOTS && t[Index(v)] != FREE
    ensures v !in pages && Complete(l, t[Index(v) := FREE], [v] + pages)
  {
    hide Layout.First, Layout.Last, Layout.IsPage, Index, Address;
    SameIndex(l, v, Index(v));
    var all := [v] + pages;
    forall i | l.First() <= i <= l.Last() && (t[i] == FREE || i == Index(v)) ensures Address(i) in all {
      assert i != Index(v) ==> Address(i) in pages;
    }
  }

  lemma EmptyMeansNone(l: Layout, t: Table, next: map<int, int>, head: int, pages: seq<int>)
    requires l.Ok() && l.Last() < SLOTS && Complete(l, t, pages) && IsList(next, head, pages)
    ensures pages == [] <==> NoneFree(l, t)
    ensures pages == [] <==> head == 0
  {
    if pages == [] {
      forall r ensures !FreePage(l, t, r) {
        PageIndex(l, r);
      }
    } else {
      assert FreePage(l, t, pages[0]);
    }
  }

  class KMem {
    const l: Layout
    var next: map<int, int>
    var state: Table
    var freelist: int
    var nfree: int
    var freelistShadow: int
    var nfreeShadow: int

    ghost predicate Valid() {
      l.Ok() && l.Last() < SLOTS
    }

    /** kinit1(), before it frees the first pages: nothing is known and nothing is listed. */
    constructor (l: Layout)
      requires l.Ok()
      ensures this.l == l && Valid() && Sound([])
    {
      PageIndex(l, 0);
      this.l := l;
      next, state := map[], seq(SLOTS, _ => UNKNOWN);
      freelist, nfree, freelistShadow, nfreeShadow := 0, 0, 0, 0;
    }

    /** The list and its count are what the table says. */
    ghost predicate Listed(pages: seq<int>)
      requires Valid()
      reads this
    {
      IsList(next, freelist, pages) && Complete(l, state, pages) && nfree == |pages|
    }

    /** And the shadows agree. */
    ghost predicate Sound(pages: seq<int>)
      requires Valid()
      reads this
    {
      Listed(pages) && freelistShadow == freelist && nfreeShadow == nfree
    }

    function NextOf(r: int): int
      reads this
    {
      if r in next then next[r] else 0
    }

    /** One page of the rebuilding, which goes from the top down. */
    method PushIfFree(pa: nat, ghost i: nat, ghost last: nat)
      requires i <= last < SLOTS && pa == PGSIZE * i
      requires IsList(next, freelist, FreePages(state, i + 1, last)) && nfree == |FreePages(state, i + 1, last)|
      modifies this
      ensures state == old(state)
      ensures IsList(next, freelist, FreePages(state, i, last)) && nfree == |FreePages(state, i, last)|
    {
      hide IsList, FreePages;
      FreePagesNext(state, i, last);
      var idx := pa / PGSIZE;
      if state[idx] == FREE {
        var r := KERNBASE + pa;
        ListPush(next, freelist, FreePages(state, i + 1, last), r);
        next := next[r := freelist];
        freelist := r;
        nfree := nfree + 1;
      }
    }

    /** rebuild_freelist_locked(): whatever the list was, it is now the free pages in order. */
    method Rebuild()
      requires Valid()
      modifies this
      ensures state == old(state) && Sound(FreePages(state, l.First(), l.Last()))
    {
      hide Layout.First, Layout.Last, Complete, FreePages, IsList;
      var paStart := PGSIZE * l.First();
      var pa := PGSIZE * l.Last();
      freelist, nfree := 0, 0;
      ghost var i: nat := l.Last();
      PastTheEnd(next, state, i + 1, i);
      while pa >= paStart
        invariant state == old(state) && pa == PGSIZE * i && i <= l.Last()
        invariant if l.First() <= l.Last() then l.First() <= i else i == l.Last()
        invariant IsList(next, freelist, FreePages(state, i + 1, l.Last()))
        invariant nfree == |FreePages(state, i + 1, l.Last())|
        decreases pa
      {
        hide Layout.First, Layout.Last, Complete, FreePages, IsList;
        PushIfFree(pa, i, l.Last());
        if pa < paStart + PGSIZE {
          break;
        }
        pa := pa - PGSIZE;
        i := i - 1;
      }
      if l.First() > l.Last() {
        PastTheEnd(next, state, l.First(), l.Last());
        PastTheEnd(next, state, i + 1, l.Last());
      }
      freelistShadow, nfreeShadow := freelist, nfree;
      RebuiltComplete(l, state);
    }

    /** What kalloc() and kfree() start from: the shadow, if the list pointer is bad and the shadow is not. */
    ghost function Head(): (int, int)
      reads this
    {
      if !l.IsPointer(freelist) && l.IsPointer(freelistShadow) then (freelistShadow, nfreeShadow) else (freelist, nfree)
    }

    method Restore()
      modifies `freelist, `nfree
      ensures (freelist, nfree) == old(Head())
    {
      if !l.IsPointer(freelist) && l.IsPointer(freelistShadow) {
        freelist, nfree := freelistShadow, nfreeShadow;
      }
    }

    /** The checks kalloc() makes of the first node before it takes it: all of them together say that the node and
        the one after it are free pages. */
    method Check() returns (ok: bool)
      requires Valid() && freelist != 0
      ensures ok <==> FreePage(l, state, freelist) && (NextOf(freelist) == 0 || FreePage(l, state, NextOf(freelist)))
    {
      var r := freelist;
      PageIndex(l, r);
      if r % PGSIZE != 0 || r < l.end || r - KERNBASE >= l.top {
        return false;
      }
      var after := NextOf(r);
      if !l.IsPointer(after) {
        return false;
      }
      if after != 0 {
        PageIndex(l, after);
        if state[Index(after)] != FREE {
          return false;
        }
      }
      ok := state[Index(r)] == FREE;
    }

    /** kalloc(): for any list, however damaged, it ends, and gives out a page only if the table has it free and
        then marks it; it gives none exactly when the list is empty by its own count or no page is free. */
    method Kalloc(ghost pages: seq<int>) returns (r: int)
      requires Valid()
      modifies this
      ensures r == 0 ==> state == old(state)
      ensures r != 0 ==> FreePage(l, old(state), r) && state == old(state)[Index(r) := ALLOC]
      ensures r == 0 <==> (old(Head().0) == 0 && old(Head().1) <= 0) || NoneFree(l, old(state))
      ensures old(Sound(pages)) ==> (r == 0 <==> pages == []) && Sound(if r == 0 then pages else pages[1..])
    {
      hide Complete, IsList, FreePages, NoneFree, FreePage, Layout.First, Layout.Last, Layout.IsPage;
      ghost var list, sound := pages, Sound(pages);
      Restore();
      if freelist == 0 && nfree > 0 {
        if sound {
          EmptyMeansNone(l, state, next, freelist, pages);
        }
        Rebuild();
        list, sound := FreePages(state, l.First(), l.Last()), true;
      }
      r := 0;
      while freelist != 0
        invariant state == old(state)
        invariant if sound then Listed(list) else (freelist, nfree) == old(Head()) && (freelist != 0 || nfree <= 0)
        invariant sound && !old(Sound(pages)) ==> old(Head().0) != 0 || old(Head().1) > 0
        invariant old(Sound(pages)) ==> sound && list == pages && freelist == old(freelist)
        decreases !sound
      {
        hide Complete, IsList, FreePages, NoneFree, FreePage, Layout.First, Layout.Last, Layout.IsPage;
        var ok := Check();
        if sound {
          EmptyMeansNone(l, state, next, freelist, list);
          FirstPasses(l, state, next, freelist, list);
          CompleteTail(l, state, list);
        }
        if ok {
          r := freelist;
          SomeFree(l, state, r);
          freelist := NextOf(r);
          state := state[Index(r) := ALLOC];
          if nfree > 0 {
            nfree := nfree - 1;
          }
          freelistShadow, nfreeShadow := freelist, nfree;
          return;
        }
        Rebuild();
        list, sound := FreePages(state, l.First(), l.Last()), true;
      }
      if sound {
        EmptyMeansNone(l, state, next, freelist, list);
      }
      freelistShadow, nfreeShadow := freelist, nfree;
    }

    /** kfree(): false is the panic on an address that is not a page. A page already free stays as it is. */
    method Kfree(v: int, ghost pages: seq<int>) returns (ok: bool)
      requires Valid()
      modifies this
      ensures ok <==> l.IsPointer(v)
      ensures !ok || v == 0 || FreePage(l, old(state), v) ==> state == old(state) && next == old(next)
      ensures ok && v != 0 ==> FreePage(l, state, v) && state == old(state)[Index(v) := FREE]
      ensures old(Sound(pages)) ==> Sound(if state == old(state) then pages else [v] + pages)
    {
      hide Complete, IsList;
      if v == 0 {
        return true;
      }
      if v % PGSIZE != 0 || v < l.end || v - KERNBASE >= l.top {
        return false;
      }
      PageIndex(l, v);
      var idx := Index(v);
      if state[idx] == FREE {
        assert state == state[idx := FREE];
        return true;
      }
      if Sound(pages) {
        CompletePush(l, state, pages, v);
        ListPush(next, freelist, pages, v);
      }
      state := state[idx := FREE];
      Restore();
      next := next[v := freelist];
      freelist := v;
      nfree := nfree + 1;
      freelistShadow, nfreeShadow := freelist, nfree;
      ok := true;
    }
  }

  lemma SomeFree(l: Layout, t: Table, r: int)
    requires FreePage(l, t, r)
    ensures !NoneFree(l, t) && 0 <= Index(r) < SLOTS
  {
  }

  ghost predicate FreePage(l: Layout, t: Table, r: int) {
    l.IsPage(r) && 0 <= Index(r) < SLOTS && t[Index(r)] == FREE
  }

  ghost predicate NoneFree(l: Layout, t: Table) {
    forall r :: !FreePage(l, t, r)
  }

  /** What happens to the allocator: calls, and stray writes to its list, count and shadows, but not to its table. */
  datatype Event =
    | Ask
    | Release(v: int)
    | Damage(freelist: int, next: map<int, int>, nfree: int, freelistShadow: int, nfreeShadow: int)

  ghost predicate ReleasedBetween(events: seq<Event>, i: int, j: int, v: int)
    requires 0 <= i <= j <= |events|
  {
    exists k :: i < k < j && events[k] == Release(v)
  }

  /** Every page handed out and not released since is marked. */
  ghost predicate Marked(l: Layout, t: Table, events: seq<Event>, got: seq<int>)
    requires |got| <= |events|
  {
    forall i {:trigger got[i]} :: 0 <= i < |got| && got[i] != 0 && !ReleasedBetween(events, i, |got|, got[i]) ==>
      l.IsPage(got[i]) && 0 <= Index(got[i]) < SLOTS && t[Index(got[i])] == ALLOC
  }

  ghost predicate OnceEach(events: seq<Event>, got: seq<int>)
    requires |got| <= |events|
  {
    forall i, j :: 0 <= i < j < |got| && got[i] != 0 && got[i] == got[j] ==> ReleasedBetween(events, i, j, got[i])
  }

  /** Whatever is done to the list, no page is handed out a second time unless it was released in between. */
  method Serve(mem: KMem, events: seq<Event>) returns (got: seq<int>)
    requires mem.Valid()
    modifies mem
    ensures mem.Valid() && |got| == |events| && OnceEach(events, got)
    ensures forall i :: 0 <= i < |events| && !events[i].Ask? ==> got[i] == 0
  {
    hide OnceEach, Marked;
    got := [];
    Unserved(mem.l, mem.state, events);
    while |got| < |events|
      invariant |got| <= |events| && mem.Valid() && OnceEach(events, got) && Marked(mem.l, mem.state, events, got)
      invariant forall i :: 0 <= i < |got| && !events[i].Ask? ==> got[i] == 0
      decreases |events| - |got|
    {
      hide OnceEach, Marked;
      ghost var t := mem.state;
      var r := 0;
      match events[|got|] {
        case Ask => r := mem.Kalloc([]);
        case Release(v) => var _ := mem.Kfree(v, []);
        case Damage(a, b, c, d, e) =>
          mem.freelist, mem.next, mem.nfree, mem.freelistShadow, mem.nfreeShadow := a, b, c, d, e;
      }
      Served(mem.l, t, mem.state, events, got, r);
      got := got + [r];
    }
  }

  lemma Unserved(l: Layout, t: Table, events: seq<Event>)
    ensures OnceEach(events, []) && Marked(l, t, events, [])
  {
  }

  /** One more call answered. */
  lemma Served(l: Layout, t: Table, t': Table, events: seq<Event>, got: seq<int>, r: int)
    requires l.Ok() && |got| < |events| && OnceEach(events, got) && Marked(l, t, events, got)
    requires if r != 0 then FreePage(l, t, r) && t' == t[Index(r) := ALLOC]
             else || t' == t
                  || exists v :: events[|got|] == Release(v) && l.IsPage(v) && 0 <= Index(v) < SLOTS
                                 && t' == t[Index(v) := FREE]
    ensures OnceEach(events, got + [r]) && Marked(l, t', events, got + [r])
  {
    hide Index, Layout.IsPage;
    var n, more := |got|, got + [r];
    forall i | 0 <= i < n && got[i] != 0 && got[i] == r ensures ReleasedBetween(events, i, n, got[i]) {
      assert got[i] == got[i];
    }
    forall i | 0 <= i <= n && more[i] != 0
      ensures ReleasedBetween(events, i, n + 1, more[i]) ||
              (l.IsPage(more[i]) && 0 <= Index(more[i]) < SLOTS && t'[Index(more[i])] == ALLOC)
    {
      if i < n && !ReleasedBetween(events, i, n, got[i]) {
        assert more[i] == got[i];
        if t' != t && r == 0 {
          var v := events[n].v;
          if v != got[i] {
            PageIndex(l, v);
            PageIndex(l, got[i]);
          }
        }
      }
    }
  }

  /** A free page that kalloc() does not find: the list and its count have both been overwritten with zero, and the
      rebuilding is not asked for. */
  method GivesNothing() returns (mem: KMem, r: int)
    ensures mem.Valid() && r == 0 && FreePage(mem.l, mem.state, KERNBASE + PGSIZE)
  {
    hide NoneFree;
    mem := new KMem(Layout(KERNBASE + PGSIZE, 2 * PGSIZE));
    var ok := mem.Kfree(KERNBASE + PGSIZE, []);
    mem.freelist, mem.nfree, mem.freelistShadow, mem.nfreeShadow := 0, 0, 0, 0;
    r := mem.Kalloc([]);
  }
}
