/** The stack exec() builds for a new program: argument strings from the top down, and under them the words main()
    starts from. */
module ExecStack {
  import opened Blocks
  import opened PageTable
  import opened AddressSpace
  import opened Options

  const MAXARG := 32
  const STACK := 16 * PGSIZE
  const KERNBASE := USER_PAGES * PGSIZE
  const WRAP := 0x1_0000_0000
  const FAKE_PC: Word := 0xffffffff

  /** Where a string of `len` bytes and its NUL go under `sp`, on a word boundary. */
  function Under(sp: int, len: nat): int {
    sp - (len + 1) - (sp - (len + 1)) % 4
  }

  /** The stack pointer after `k` strings, if there were room without end. */
  function Sp(top: int, args: seq<seq<Byte>>, k: nat): int
    requires k <= |args|
  {
    if k == 0 then top else Under(Sp(top, args, k - 1), |args[k - 1]|)
  }

  /** And after the words: a return address, a count, a pointer, the vector and its null. */
  function Final(top: int, args: seq<seq<Byte>>): int {
    Sp(top, args, |args|) - 4 * (4 + |args|)
  }

  lemma SpStep(top: int, args: seq<seq<Byte>>, k: nat)
    requires k < |args|
    ensures Sp(top, args, k) - 4 < Sp(top, args, k + 1) + |args[k]| + 1 <= Sp(top, args, k)
    ensures Sp(top, args, k + 1) % 4 == 0
  {
  }

  lemma {:induction false} SpDown(top: int, args: seq<seq<Byte>>, i: nat, k: nat)
    requires i <= k <= |args|
    ensures Sp(top, args, k) <= Sp(top, args, i)
    decreases k - i
  {
    if i < k {
      SpDown(top, args, i, k - 1);
      SpStep(top, args, k - 1);
    }
  }

  /** What a process sees from `a` on. */
  ghost predicate Holds(tables: Tables, frames: Frames, d: nat, a: nat, bytes: seq<Byte>) {
    forall i :: 0 <= i < |bytes| ==> UserByte(tables, frames, d, a + i) == Some(bytes[i])
  }

  /** A C string. */
  ghost predicate IsString(tables: Tables, frames: Frames, d: nat, a: nat, s: seq<Byte>) {
    0 !in s && Holds(tables, frames, d, a, s + [0])
  }

  ghost predicate HoldsWord(tables: Tables, frames: Frames, d: nat, a: nat, w: Word) {
    Holds(tables, frames, d, a, WordBytes(w))
  }

  /** The stack pages are the user's, the page under them is not, and nor is anything from KERNBASE on. */
  ghost predicate StackOk(tables: Tables, frames: Frames, d: nat, top: nat) {
    && top % PGSIZE == 0 && STACK + PGSIZE <= top < KERNBASE
    && (forall a: nat :: top - STACK <= a < top ==> UserByte(tables, frames, d, a).Some?)
    && (forall a: nat :: top - STACK - PGSIZE <= a < top - STACK || KERNBASE <= a ==>
          UserByte(tables, frames, d, a).None?)
  }

  /** Stores do not move the pages. */
  lemma StackKept(t0: Tables, f0: Frames, tables: Tables, frames: Frames, d: nat, top: nat, va: nat, bytes: seq<Byte>)
    requires StackOk(t0, f0, d, top) && Stored(t0, f0, tables, frames, d, va, bytes)
    requires top - STACK <= va && va + |bytes| <= top
    ensures StackOk(tables, frames, d, top) && Holds(tables, frames, d, va, bytes)
  {
    hide UserByte;
  }


  lemma StillHolds(t0: Tables, f0: Frames, tables: Tables, frames: Frames, d: nat, va: nat, bytes: seq<Byte>,
                   a: nat, s: seq<Byte>)
    requires Stored(t0, f0, tables, frames, d, va, bytes) && Holds(t0, f0, d, a, s) && va + |bytes| <= a
    ensures Holds(tables, frames, d, a, s)
  {
    hide UserByte;
  }

  /** The first `k` strings are in place, each under the one before, and `ptrs` are their addresses. */
  ghost predicate Pushed(tables: Tables, frames: Frames, d: nat, top: nat, args: seq<seq<Byte>>, ptrs: seq<Word>) {
    && |ptrs| <= |args| && top - STACK <= Sp(top, args, |ptrs|)
    && (forall i :: 0 <= i < |ptrs| ==>
          ptrs[i] == Sp(top, args, i + 1) && Holds(tables, frames, d, ptrs[i], args[i] + [0]))
  }

  /** A string that does not fit above the guard page cannot be copied: the copy ends next to what is already on the
      stack, so it reaches the guard page or, wrapped around, starts in the kernel's half. */
  lemma DoesNotFit(tables: Tables, frames: Frames, d: nat, top: nat, sp: nat, len: nat, x: int) returns (a: nat)
    requires StackOk(tables, frames, d, top) && top - STACK <= sp <= top && 0 < len < KERNBASE
    requires sp - 4 < x + len <= sp && x < top - STACK
    ensures x % WRAP <= a < x % WRAP + len && UserByte(tables, frames, d, a).None?
  {
    hide UserByte;
    if x < 0 {
      a := x + WRAP;
      assert x % WRAP == a;
    } else if x + len >= top - STACK {
      a := top - STACK - 1;
    } else {
      a := x + len - 1;
    }
  }

  /** And one that fits can. */
  lemma Fits(tables: Tables, frames: Frames, d: nat, top: nat, x: int, len: nat)
    requires StackOk(tables, frames, d, top) && top - STACK <= x && x + len <= top
    ensures x % WRAP == x && forall a: nat :: x <= a < x + len ==> UserByte(tables, frames, d, a).Some?
  {
    hide UserByte;
  }

  /** 32-bit unsigned subtraction. */
  function Minus(a: nat, b: nat): (r: nat)
    ensures r < WRAP
  {
    (a - b) % WRAP
  }

  lemma ModFour(q: int, r: int)
    requires 0 <= r < 4
    ensures (4 * q + r) % 4 == r
  {
  }

  lemma ModWrap(q: int, r: int)
    requires 0 <= r < WRAP
    ensures (WRAP * q + r) % WRAP == r
  {
  }

  lemma AlignWraps(x: int)
    ensures x % WRAP - x % WRAP % 4 == (x - x % 4) % WRAP
  {
    var q, r := x / WRAP, x % WRAP;
    var s, t := r / 4, r % 4;
    ModFour(q * (WRAP / 4) + s, t);
    assert x == 4 * (q * (WRAP / 4) + s) + t;
    ModWrap(q, r - t);
  }

  /** Copying a block of bytes right under what is on the stack succeeds exactly when it stays above the guard page. */
  method Push(m: Machine, ghost page: map<nat, nat>, d: nat, ghost top: nat, ghost sp: nat, va: nat, bytes: seq<Byte>,
              ghost x: int)
    returns (ok: bool)
    requires m.Valid() && DirOk(m.tables, d) && SpaceOk(page, m.tables, m.frames, d)
    requires StackOk(m.tables, m.frames, d, top) && top - STACK <= sp <= top && 0 < |bytes| < KERNBASE
    requires va == x % WRAP && sp - 4 < x + |bytes| <= sp
    modifies m
    ensures m.Valid() && m.tables == old(m.tables) && SpaceOk(page, m.tables, m.frames, d)
    ensures ok <==> x >= top - STACK
    ensures ok ==> StackOk(m.tables, m.frames, d, top) && va == x
    ensures ok ==> Stored(old(m.tables), old(m.frames), m.tables, m.frames, d, va, bytes)
    ensures ok ==> Holds(m.tables, m.frames, d, va, bytes)
  {
    hide UserByte, SpaceOk, DirOk, Stored, StackOk, Holds;
    if x >= top - STACK {
      Fits(m.tables, m.frames, d, top, x, |bytes|);
    } else {
      ghost var a := DoesNotFit(m.tables, m.frames, d, top, sp, |bytes|, x);
    }
    ok := m.CopyOut(page, d, va, bytes);
    if ok {
      StackKept(old(m.tables), old(m.frames), m.tables, m.frames, d, top, va, bytes);
    }
  }

  lemma PushedMore(t0: Tables, f0: Frames, tables: Tables, frames: Frames, d: nat, top: nat, args: seq<seq<Byte>>,
                   ptrs: seq<Word>, va: Word)
    requires Pushed(t0, f0, d, top, args, ptrs) && |ptrs| < |args| && va == Sp(top, args, |ptrs| + 1)
    requires Stored(t0, f0, tables, frames, d, va, args[|ptrs|] + [0]) && top - STACK <= va
    requires Holds(tables, frames, d, va, args[|ptrs|] + [0])
    ensures Pushed(tables, frames, d, top, args, ptrs + [va])
  {
    hide UserByte, Stored, Holds, Sp;
    var k := |ptrs|;
    SpStep(top, args, k);
    forall i | 0 <= i < k ensures Holds(tables, frames, d, ptrs[i], args[i] + [0]) {
      SpDown(top, args, i + 1, k);
      StillHolds(t0, f0, tables, frames, d, va, args[k] + [0], ptrs[i], args[i] + [0]);
    }
  }

  /** The loop of exec() that copies the strings out. */
  method PushStrings(m: Machine, ghost page: map<nat, nat>, d: nat, top: nat, args: seq<seq<Byte>>)
    returns (ok: bool, sp: nat, ptrs: seq<Word>)
    requires m.Valid() && DirOk(m.tables, d) && SpaceOk(page, m.tables, m.frames, d)
    requires StackOk(m.tables, m.frames, d, top)
    requires forall i :: 0 <= i < |args| ==> |args[i]| + 1 < KERNBASE
    modifies m
    ensures m.Valid() && DirOk(m.tables, d) && SpaceOk(page, m.tables, m.frames, d)
    ensures ok <==> |args| <= MAXARG && Sp(top, args, |args|) >= top - STACK
    ensures ok ==> StackOk(m.tables, m.frames, d, top) && sp == Sp(top, args, |args|) && |ptrs| == |args|
    ensures ok ==> Pushed(m.tables, m.frames, d, top, args, ptrs)
  {
    hide UserByte, SpaceOk, DirOk, Stored, StackOk, Holds, Pushed, Sp;
    sp, ptrs := top, [];
    StartsEmpty(m.tables, m.frames, d, top, args);
    while |ptrs| < |args|
      invariant m.Valid() && DirOk(m.tables, d) && SpaceOk(page, m.tables, m.frames, d)
      invariant StackOk(m.tables, m.frames, d, top)
      invariant |ptrs| <= |args| && |ptrs| <= MAXARG && top - STACK <= sp == Sp(top, args, |ptrs|) <= top
      invariant Pushed(m.tables, m.frames, d, top, args, ptrs)
      decreases |args| - |ptrs|
    {
      hide UserByte, SpaceOk, DirOk, Stored, StackOk, Holds, Pushed, Sp;
      ghost var k := |ptrs|;
      if |ptrs| >= MAXARG {
        return false, sp, ptrs;
      }
      var s := args[|ptrs|] + [0];
      SpStep(top, args, k);
      ghost var x := Sp(top, args, k + 1);
      var y := Minus(sp, |s|);
      var va := y - y % 4;
      AlignWraps(sp - |s|);
      assert x == Under(sp, |args[k]|) by { SpNext(top, args, k); }
      ghost var t0, f0 := m.tables, m.frames;
      ok := Push(m, page, d, top, sp, va, s, x);
      SpDown(top, args, k + 1, |args|);
      if !ok {
        return;
      }
      PushedMore(t0, f0, m.tables, m.frames, d, top, args, ptrs, va);
      ptrs := ptrs + [va];
      sp := va;
    }
    ok := true;
  }

  lemma SpNext(top: int, args: seq<seq<Byte>>, k: nat)
    requires k < |args|
    ensures Sp(top, args, k + 1) == Under(Sp(top, args, k), |args[k]|)
  {
  }

  lemma StartsEmpty(tables: Tables, frames: Frames, d: nat, top: nat, args: seq<seq<Byte>>)
    ensures Pushed(tables, frames, d, top, args, []) && Sp(top, args, 0) == top
  {
  }

  // ---- The words ----

  function WordsBytes(ws: seq<Word>): (r: seq<Byte>)
    ensures |r| == 4 * |ws|
  {
    if ws == [] then [] else WordBytes(ws[0]) + WordsBytes(ws[1..])
  }

  lemma {:induction false} WordInWords(ws: seq<Word>, i: nat)
    requires i < |ws|
    ensures WordsBytes(ws)[4 * i..4 * i + 4] == WordBytes(ws[i])
    decreases i
  {
    if i > 0 {
      WordInWords(ws[1..], i - 1);
      assert WordsBytes(ws)[4 * i..4 * i + 4] == WordsBytes(ws[1..])[4 * (i - 1)..4 * (i - 1) + 4];
    }
  }

  lemma HoldsSlice(tables: Tables, frames: Frames, d: nat, a: nat, bytes: seq<Byte>, i: nat, j: nat)
    requires Holds(tables, frames, d, a, bytes) && i <= j <= |bytes|
    ensures Holds(tables, frames, d, a + i, bytes[i..j])
  {
    hide UserByte;
    forall k | 0 <= k < j - i ensures UserByte(tables, frames, d, a + i + k) == Some(bytes[i..j][k]) {
      assert UserByte(tables, frames, d, a + (i + k)) == Some(bytes[i + k]);
    }
  }

  lemma AsWord(tables: Tables, frames: Frames, d: nat, a: nat, w: Word)
    requires Holds(tables, frames, d, a, WordBytes(w))
    ensures HoldsWord(tables, frames, d, a, w)
  {
  }

  lemma HoldsWords(tables: Tables, frames: Frames, d: nat, a: nat, ws: seq<Word>, i: nat)
    requires Holds(tables, frames, d, a, WordsBytes(ws)) && i < |ws|
    ensures HoldsWord(tables, frames, d, a + 4 * i, ws[i])
  {
    hide *;
    var all := WordsBytes(ws);
    WordInWords(ws, i);
    HoldsSlice(tables, frames, d, a, all, 4 * i, 4 * i + 4);
    AsWord(tables, frames, d, a + 4 * i, ws[i]);
  }

  /** What main() finds: at `sp` a return address, the count, a pointer to the vector right above; in the vector the
      address of each string and then null; and every string above the vector, below the one before it. */
  ghost predicate Laid(tables: Tables, frames: Frames, d: nat, top: nat, sp: nat, args: seq<seq<Byte>>) {
    && top - STACK <= sp && |args| <= MAXARG && sp + 16 + 4 * MAXARG < WRAP
    && HoldsWord(tables, frames, d, sp, 0xffff_ffff)
    && HoldsWord(tables, frames, d, sp + 4, |args|)
    && HoldsWord(tables, frames, d, sp + 8, sp + 12)
    && HoldsWord(tables, frames, d, sp + 12 + 4 * |args|, 0)
    && (forall i: nat :: i < |args| ==> LaidString(tables, frames, d, top, sp, args, i))
  }

  /** exec(), from the stack pages on. */
  method BuildStack(m: Machine, ghost page: map<nat, nat>, d: nat, top: nat, args: seq<seq<Byte>>)
    returns (ok: bool, sp: nat)
    requires m.Valid() && DirOk(m.tables, d) && SpaceOk(page, m.tables, m.frames, d)
    requires StackOk(m.tables, m.frames, d, top)
    requires forall i :: 0 <= i < |args| ==> |args[i]| + 1 < KERNBASE && 0 !in args[i]
    modifies m
    ensures m.Valid() && DirOk(m.tables, d) && SpaceOk(page, m.tables, m.frames, d)
    ensures ok <==> |args| <= 32 && Final(top, args) >= top - 65536
    ensures ok ==> sp == Final(top, args) && Laid(m.tables, m.frames, d, top, sp, args)
  {
    hide UserByte, SpaceOk, DirOk, Stored, StackOk, Holds, Pushed, Sp, WordsBytes;
    var ptrs;
    ok, sp, ptrs := PushStrings(m, page, d, top, args);
    if !ok {
      return;
    }
    SpDown(top, args, 0, |args|);
    assert Sp(top, args, 0) == top by { StartsEmpty(m.tables, m.frames, d, top, args); }
    StackBounds(m.tables, m.frames, d, top);
    var argc := |args|;
    var zero: Word, count: Word, vector: Word := 0, argc, Minus(sp, 4 * (argc + 1));
    var words := [FAKE_PC, count, vector] + ptrs + [zero];
    ghost var x := sp - 4 * (4 + argc);
    ghost var t0, f0, sp0 := m.tables, m.frames, sp;
    sp := Minus(sp, 4 * (4 + argc));
    ok := Push(m, page, d, top, sp0, sp, WordsBytes(words), x);
    if ok {
      assert sp0 == sp + 4 * (4 + argc) && Final(top, args) == sp;
      WordsLaid(t0, f0, m.tables, m.frames, d, top, sp, args, ptrs, vector);
    }
  }

  lemma StackBounds(tables: Tables, frames: Frames, d: nat, top: nat)
    requires StackOk(tables, frames, d, top)
    ensures STACK + PGSIZE <= top < KERNBASE
  {
  }

  /** One string of the finished stack. */
  ghost predicate LaidString(tables: Tables, frames: Frames, d: nat, top: nat, sp: nat, args: seq<seq<Byte>>, i: nat)
    requires i < |args|
  {
    var p := Sp(top, args, i + 1);
    && 0 <= p < WRAP && sp + 16 + 4 * |args| <= p && p + |args[i]| + 1 <= Sp(top, args, i)
    && HoldsWord(tables, frames, d, sp + 12 + 4 * i, p)
    && IsString(tables, frames, d, p, args[i])
  }

  lemma WordsLaid(t0: Tables, f0: Frames, tables: Tables, frames: Frames, d: nat, top: nat, sp: nat,
                  args: seq<seq<Byte>>, ptrs: seq<Word>, vector: Word)
    requires Pushed(t0, f0, d, top, args, ptrs) && |ptrs| == |args| <= MAXARG && STACK <= top < KERNBASE
    requires top - STACK <= sp == Final(top, args) && vector == sp + 12 && Sp(top, args, |args|) <= top
    requires var bytes := WordsBytes([FAKE_PC, |args|, vector] + ptrs + [0]);
             Stored(t0, f0, tables, frames, d, sp, bytes) && Holds(tables, frames, d, sp, bytes)
    requires forall i :: 0 <= i < |args| ==> 0 !in args[i]
    ensures Laid(tables, frames, d, top, sp, args)
  {
    hide UserByte, Stored, Holds, Sp, WordsBytes, HoldsWord, LaidString, Pushed;
    var words := [FAKE_PC, |args|, vector] + ptrs + [0];
    HoldsWords(tables, frames, d, sp, words, 0);
    HoldsWords(tables, frames, d, sp, words, 1);
    HoldsWords(tables, frames, d, sp, words, 2);
    HoldsWords(tables, frames, d, sp, words, 3 + |args|);
    forall i: nat | i < |args| ensures LaidString(tables, frames, d, top, sp, args, i) {
      StringLaid(t0, f0, tables, frames, d, top, sp, args, ptrs, vector, i);
    }
  }

  lemma StringLaid(t0: Tables, f0: Frames, tables: Tables, frames: Frames, d: nat, top: nat, sp: nat,
                   args: seq<seq<Byte>>, ptrs: seq<Word>, vector: Word, i: nat)
    requires Pushed(t0, f0, d, top, args, ptrs) && i < |ptrs| == |args| <= MAXARG && sp == Final(top, args)
    requires var bytes := WordsBytes([FAKE_PC, |args|, vector] + ptrs + [0]);
             Stored(t0, f0, tables, frames, d, sp, bytes) && Holds(tables, frames, d, sp, bytes)
    requires 0 !in args[i]
    ensures LaidString(tables, frames, d, top, sp, args, i)
  {
    hide UserByte, Stored, Holds, Sp, WordsBytes, HoldsWord;
    var words := [FAKE_PC, |args|, vector] + ptrs + [0];
    SpStep(top, args, i);
    SpDown(top, args, i + 1, |args|);
    HoldsWords(tables, frames, d, sp, words, 3 + i);
    assert words[3 + i] == ptrs[i];
    StillHolds(t0, f0, tables, frames, d, sp, WordsBytes(words), ptrs[i], args[i] + [0]);
  }

  // ---- The pages ----

  lemma StackIs(page: map<nat, nat>, tables: Tables, frames: Frames, d: nat, top: nat)
    requires SpaceOk(page, tables, frames, d) && (forall f :: f in frames ==> |frames[f]| == PGSIZE)
    requires top % PGSIZE == 0 && STACK + PGSIZE <= top < KERNBASE
    requires forall w: nat :: top / PGSIZE - 16 <= w < top / PGSIZE ==>
               Lookup(tables, d, w).present && Lookup(tables, d, w).user
    requires !Lookup(tables, d, top / PGSIZE - 17).user
    ensures StackOk(tables, frames, d, top)
  {
    hide Lookup;
    forall a: nat | top - STACK <= a < top ensures UserByte(tables, frames, d, a).Some? {
      assert top / PGSIZE - 16 <= a / PGSIZE < top / PGSIZE;
    }
    forall a: nat | top - STACK - PGSIZE <= a < top - STACK ensures UserByte(tables, frames, d, a).None? {
      assert a / PGSIZE == top / PGSIZE - 17;
    }
    forall a: nat | KERNBASE <= a ensures UserByte(tables, frames, d, a).None? {
      KernelPage(tables, d, a / PGSIZE);
    }
  }

  lemma KernelPage(tables: Tables, d: nat, w: nat)
    ensures w >= ALL_PAGES ==> Lookup(tables, d, w) == ABSENT
  {
  }

  /** exec() makes the stack above the program: seventeen new pages, the lowest out of the user's reach. */
  method MakeStack(m: Machine, ghost page: map<nat, nat>, d: nat, sz: nat)
    returns (ok: bool, top: nat, ghost page': map<nat, nat>)
    requires m.Valid() && DirOk(m.tables, d) && SpaceOk(page, m.tables, m.frames, d) && sz % PGSIZE == 0
    requires sz <= KERNBASE
    requires forall w: nat :: sz / PGSIZE <= w < USER_PAGES ==> Lookup(m.tables, d, w) == ABSENT
    modifies m
    ensures m.Valid() && DirOk(m.tables, d) && SpaceOk(page', m.tables, m.frames, d)
    ensures sz + STACK + PGSIZE >= KERNBASE ==> !ok
    ensures ok ==> top == sz + STACK + PGSIZE && StackOk(m.tables, m.frames, d, top)
    ensures ok <==> && sz + 17 * 4096 < 0x8000_0000
                    && |old(m.free)| >= GrowthCost(old(Slots(m.tables, d)), sz / 4096, 17)
  {
    hide Lookup, DirOk, SpaceOk, StackOk, Slots, SlotsFor, GrowthCost;
    page' := page;
    top := sz + STACK + PGSIZE;
    if top >= KERNBASE {
      return false, top, page';
    }
    ok, page' := m.AllocUvm(page, d, sz / PGSIZE, top / PGSIZE);
    if !ok {
      return;
    }
    var cleared := m.ClearPteU(page', d, top / PGSIZE - 17);
    assert cleared;
    StackIs(page', m.tables, m.frames, d, top);
  }
}
