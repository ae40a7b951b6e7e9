/** The buffer cache: NBUF buffers on a least-recently-used ring over one disk with atomic sector
    writes. Each of bget, the disk transfers and brelse is one critical section or one transfer, so any
    sequence of calls by any processes is an interleaving of the kernel's. */
module BufferCache {
  import opened Blocks
  import opened RedoLog
  import opened Ring

  const NBUF: nat := 10
  const HEAD: nat := NBUF
  const ROOTDEV: int := 1
  const NOBODY: int := -1

  datatype Buf = Buf(busy: bool, valid: bool, dirty: bool, dev: int, sector: nat, data: Block) {
    /** A buffer that may be recycled for another sector. */
    predicate Reusable() {
      !busy && !dirty
    }
  }

  /** The buffers binit starts from: none of them holds a sector. */
  function EmptyBufs(): (r: seq<Buf>)
    ensures |r| == NBUF
    ensures forall i :: 0 <= i < NBUF ==> r[i] == Buf(false, false, false, -1, 0, ZeroBlock())
  {
    seq(NBUF, _ => Buf(false, false, false, -1, 0, ZeroBlock()))
  }

  datatype BgetResult = Got(b: nat) | Sleeps(b: nat) | NoBuffers

  datatype BreadResult = Read(b: nat) | Blocked | Panicked

  /** What a process outside the transaction does to the cache, one atomic step at a time. */
  datatype ReaderOp =
    | ReaderGet(pid: nat, sector: nat)
    | ReaderFill(pid: nat, b: nat)
    | ReaderRelease(pid: nat, b: nat)

  // The contents side of the cache invariant. `slot` says which buffer a sector is in, `pinned` which
  // sectors are in dirty buffers, `stored` what bwrite or log_write last stored in each sector, `mine`
  // the buffers of the process in a transaction and `lent` the buffers other processes hold.

  ghost predicate SlotsOk(bufs: seq<Buf>, slot: map<nat, nat>, size: nat) {
    && |bufs| == NBUF
    && (forall i {:trigger bufs[i]} :: 0 <= i < NBUF ==>
          if bufs[i].dev == ROOTDEV then
            bufs[i].sector < size && bufs[i].sector in slot && slot[bufs[i].sector] == i
          else
            !bufs[i].busy && !bufs[i].valid && !bufs[i].dirty)
    && (forall s {:trigger slot[s]} :: s in slot ==>
          slot[s] < NBUF && bufs[slot[s]].dev == ROOTDEV && bufs[slot[s]].sector == s)
  }

  ghost predicate PinsOk(bufs: seq<Buf>, slot: map<nat, nat>, pinned: set<nat>)
    requires |bufs| == NBUF && forall s :: s in slot ==> slot[s] < NBUF
  {
    && (forall i {:trigger bufs[i]} :: 0 <= i < NBUF && bufs[i].dirty ==> bufs[i].valid && bufs[i].sector in pinned)
    && (forall s {:trigger s in pinned} :: s in pinned ==> s in slot && bufs[slot[s]].dirty)
  }

  /** Only the process in a transaction changes the data of a buffer it holds. */
  ghost predicate DataOk(bufs: seq<Buf>, mine: map<nat, Buf>, stored: Disk)
    requires |bufs| == NBUF
  {
    forall i {:trigger bufs[i]} :: 0 <= i < NBUF && bufs[i].valid && i !in mine ==>
      bufs[i].sector < |stored| && bufs[i].data == stored[bufs[i].sector]
  }

  ghost predicate StoredOk(disk: Disk, stored: Disk, pinned: set<nat>) {
    |stored| == |disk| && forall s :: 0 <= s < |disk| && s !in pinned ==> stored[s] == disk[s]
  }

  ghost predicate HeldOk(bufs: seq<Buf>, holder: seq<nat>, writer: int, mine: map<nat, Buf>, lent: set<nat>)
    requires |bufs| == NBUF
  {
    && |holder| == NBUF
    && (forall b {:trigger b in mine} :: b in mine ==>
          b < NBUF && bufs[b] == mine[b] && mine[b].busy && holder[b] == writer)
    && (forall b {:trigger b in lent} :: b in lent ==> b < NBUF && bufs[b].busy && holder[b] != writer)
    && (forall i {:trigger bufs[i]} :: 0 <= i < NBUF && bufs[i].busy ==>
          if holder[i] == writer then i in mine else i in lent)
  }

  /** The four together. */
  ghost predicate ContentsOk(bufs: seq<Buf>, holder: seq<nat>, writer: int, slot: map<nat, nat>, pinned: set<nat>,
                             stored: Disk, mine: map<nat, Buf>, lent: set<nat>) {
    && |bufs| == |holder| == NBUF
    && SlotsOk(bufs, slot, |stored|) && PinsOk(bufs, slot, pinned)
    && DataOk(bufs, mine, stored) && HeldOk(bufs, holder, writer, mine, lent)
  }

  ghost function Handed(pid: nat, writer: int, mine: map<nat, Buf>, b: nat, buf: Buf): map<nat, Buf> {
    if pid == writer then mine[b := buf] else mine
  }

  ghost function HandedLent(pid: nat, writer: int, lent: set<nat>, b: nat): set<nat> {
    if pid == writer then lent else lent + {b}
  }

  ghost function Reslotted(slot: map<nat, nat>, was: Buf, sector: nat, b: nat): map<nat, nat> {
    (if was.dev == ROOTDEV then slot - {was.sector} else slot)[sector := b]
  }

  lemma HeldMore(bufs: seq<Buf>, holder: seq<nat>, writer: int, mine: map<nat, Buf>, lent: set<nat>,
                 pid: nat, b: nat, buf: Buf)
    requires |bufs| == NBUF && HeldOk(bufs, holder, writer, mine, lent) && b < NBUF && !bufs[b].busy && buf.busy
    ensures b !in mine && b !in lent
    ensures HeldOk(bufs[b := buf], holder[b := pid], writer, Handed(pid, writer, mine, b, buf),
                   HandedLent(pid, writer, lent, b))
  {
  }

  /** bget hands a cached buffer to pid. */
  lemma HandOk(bufs: seq<Buf>, holder: seq<nat>, writer: int, slot: map<nat, nat>, pinned: set<nat>,
               stored: Disk, mine: map<nat, Buf>, lent: set<nat>, pid: nat, b: nat)
    requires ContentsOk(bufs, holder, writer, slot, pinned, stored, mine, lent)
    requires b < NBUF && !bufs[b].busy && bufs[b].dev == ROOTDEV
    ensures b !in mine && b !in lent && bufs[b].sector < |stored|
    ensures bufs[b].valid ==> bufs[b].data == stored[bufs[b].sector]
    ensures var buf := bufs[b].(busy := true);
            ContentsOk(bufs[b := buf], holder[b := pid], writer, slot, pinned, stored,
                       Handed(pid, writer, mine, b, buf), HandedLent(pid, writer, lent, b))
  {
    hide HeldOk;
    HeldMore(bufs, holder, writer, mine, lent, pid, b, bufs[b].(busy := true));
  }

  /** bget hands a recycled buffer to pid. */
  lemma RecycleOk(bufs: seq<Buf>, holder: seq<nat>, writer: int, slot: map<nat, nat>, pinned: set<nat>,
                  stored: Disk, mine: map<nat, Buf>, lent: set<nat>, pid: nat, b: nat, sector: nat)
    requires ContentsOk(bufs, holder, writer, slot, pinned, stored, mine, lent)
    requires b < NBUF && bufs[b].Reusable() && sector < |stored| && sector !in slot
    ensures b !in mine && b !in lent
    ensures var buf := Buf(true, false, false, ROOTDEV, sector, bufs[b].data);
            ContentsOk(bufs[b := buf], holder[b := pid], writer, Reslotted(slot, bufs[b], sector, b), pinned, stored,
                       Handed(pid, writer, mine, b, buf), HandedLent(pid, writer, lent, b))
  {
    hide HeldOk, Reslotted;
    var buf := Buf(true, false, false, ROOTDEV, sector, bufs[b].data);
    HeldMore(bufs, holder, writer, mine, lent, pid, b, buf);
    RecycledSlot(bufs, slot, pinned, |stored|, b, buf);
  }

  lemma RecycledSlot(bufs: seq<Buf>, slot: map<nat, nat>, pinned: set<nat>, size: nat, b: nat, buf: Buf)
    requires SlotsOk(bufs, slot, size) && PinsOk(bufs, slot, pinned) && b < NBUF && bufs[b].Reusable()
    requires buf.dev == ROOTDEV && !buf.dirty && buf.sector < size && buf.sector !in slot
    ensures SlotsOk(bufs[b := buf], Reslotted(slot, bufs[b], buf.sector, b), size)
    ensures PinsOk(bufs[b := buf], Reslotted(slot, bufs[b], buf.sector, b), pinned)
  {
  }

  /** A holder's buffer gets other data or flags, and with them the sector perhaps other stored contents. */
  lemma ChangeOk(bufs: seq<Buf>, holder: seq<nat>, writer: int, slot: map<nat, nat>, pinned: set<nat>,
                 stored: Disk, mine: map<nat, Buf>, lent: set<nat>, b: nat, buf: Buf, pinned': set<nat>, stored': Disk)
    requires ContentsOk(bufs, holder, writer, slot, pinned, stored, mine, lent)
    requires b < NBUF && bufs[b].busy && buf.busy && buf.valid && buf.dev == ROOTDEV && buf.sector == bufs[b].sector
    requires pinned' == if buf.dirty then pinned + {buf.sector} else pinned - {buf.sector}
    requires stored' == stored || (buf.sector < |stored| && stored' == stored[buf.sector := buf.data])
    requires holder[b] == writer || (buf.sector < |stored| && buf.data == stored'[buf.sector])
    ensures ContentsOk(bufs[b := buf], holder, writer, slot, pinned', stored',
                       if holder[b] == writer then mine[b := buf] else mine, lent)
  {
    assert forall i :: 0 <= i < NBUF && i != b && bufs[i].dev == ROOTDEV ==> bufs[i].sector != buf.sector;
  }

  /** brelse gives a buffer back. */
  lemma ReturnOk(bufs: seq<Buf>, holder: seq<nat>, writer: int, slot: map<nat, nat>, pinned: set<nat>,
                 stored: Disk, mine: map<nat, Buf>, lent: set<nat>, b: nat)
    requires ContentsOk(bufs, holder, writer, slot, pinned, stored, mine, lent)
    requires b < NBUF && bufs[b].busy
    requires bufs[b].sector < |stored| && (bufs[b].valid ==> bufs[b].data == stored[bufs[b].sector])
    ensures ContentsOk(bufs[b := bufs[b].(busy := false)], holder, writer, slot, pinned, stored, mine - {b}, lent - {b})
  {
  }

  /** b is the least recently released buffer that is neither busy nor dirty. */
  ghost predicate IsVictim(bufs: seq<Buf>, lru: seq<nat>, b: nat) {
    && b < |bufs| && bufs[b].Reusable()
    && forall k, j :: 0 <= k < j < |lru| && lru[k] == b && lru[j] < |bufs| ==> !bufs[lru[j]].Reusable()
  }

  /** `after` is `before` with b moved to the front. */
  ghost predicate IsMovedFirst(before: seq<nat>, after: seq<nat>, b: nat) {
    exists k :: 0 <= k < |before| && before[k] == b && after == [b] + before[..k] + before[k + 1..]
  }

  /** The buffers the sectors are in. */
  ghost function Slots(sectors: set<nat>, slot: map<nat, nat>): set<nat> {
    set s | s in sectors && s in slot :: slot[s]
  }

  lemma {:induction false} SlotsSize(sectors: set<nat>, slot: map<nat, nat>)
    requires sectors <= slot.Keys && forall s, t :: s in sectors && t in sectors && slot[s] == slot[t] ==> s == t
    ensures |Slots(sectors, slot)| == |sectors|
    decreases sectors
  {
    if sectors != {} {
      var s :| s in sectors;
      SlotsSize(sectors - {s}, slot);
      assert Slots(sectors, slot) == Slots(sectors - {s}, slot) + {slot[s]};
    }
  }

  /** The buffers that cannot be recycled: those of pinned sectors, and those held. */
  ghost function Taken(slot: map<nat, nat>, pinned: set<nat>, mine: map<nat, Buf>, lent: set<nat>): set<nat> {
    Slots(pinned, slot) + mine.Keys + lent
  }

  lemma TakenOne(bufs: seq<Buf>, holder: seq<nat>, writer: int, slot: map<nat, nat>, pinned: set<nat>,
                 stored: Disk, mine: map<nat, Buf>, lent: set<nat>, i: nat)
    requires ContentsOk(bufs, holder, writer, slot, pinned, stored, mine, lent) && i < NBUF
    ensures i in Taken(slot, pinned, mine, lent) <==> !bufs[i].Reusable()
  {
    hide DataOk;
    if bufs[i].dirty {
      assert bufs[i].sector in pinned && slot[bufs[i].sector] == i;
    }
  }

  lemma TakenRange(bufs: seq<Buf>, holder: seq<nat>, writer: int, slot: map<nat, nat>, pinned: set<nat>,
                   stored: Disk, mine: map<nat, Buf>, lent: set<nat>)
    requires ContentsOk(bufs, holder, writer, slot, pinned, stored, mine, lent)
    ensures Taken(slot, pinned, mine, lent) <= UpTo(NBUF) && |Slots(pinned, slot)| == |pinned|
  {
    hide DataOk, UpTo;
    PinnedSlots(bufs, slot, pinned, |stored|);
    assert mine.Keys <= UpTo(NBUF) && lent <= UpTo(NBUF);
  }

  lemma PinnedSlots(bufs: seq<Buf>, slot: map<nat, nat>, pinned: set<nat>, size: nat)
    requires SlotsOk(bufs, slot, size) && PinsOk(bufs, slot, pinned)
    ensures Slots(pinned, slot) <= UpTo(NBUF) && |Slots(pinned, slot)| == |pinned|
  {
    assert pinned <= slot.Keys;
    SlotsSize(pinned, slot);
  }

  /** Every buffer is busy or dirty exactly if those of the pinned sectors, those of the writer and those of the other
      processes make up the cache. */
  lemma AllTaken(bufs: seq<Buf>, holder: seq<nat>, writer: int, slot: map<nat, nat>, pinned: set<nat>,
                 stored: Disk, mine: map<nat, Buf>, lent: set<nat>)
    requires ContentsOk(bufs, holder, writer, slot, pinned, stored, mine, lent)
    ensures (forall i :: 0 <= i < NBUF ==> !bufs[i].Reusable()) <==> |Taken(slot, pinned, mine, lent)| == NBUF
    ensures |Taken(slot, pinned, mine, lent)| <= |pinned| + |mine| + |lent|
  {
    hide SlotsOk, PinsOk, DataOk, HeldOk, Taken, UpTo;
    var taken := Taken(slot, pinned, mine, lent);
    TakenRange(bufs, holder, writer, slot, pinned, stored, mine, lent);
    forall i: nat | i < NBUF ensures i in taken <==> !bufs[i].Reusable() {
      TakenOne(bufs, holder, writer, slot, pinned, stored, mine, lent, i);
    }
    FullSize(taken, NBUF);
    TakenSize(slot, pinned, mine, lent);
  }

  lemma FullSize(a: set<nat>, n: nat)
    requires a <= UpTo(n)
    ensures |a| <= n && (|a| == n <==> forall i: nat :: i < n ==> i in a)
  {
    hide UpTo;
    SubsetSize(a, UpTo(n));
    if i: nat :| i < n && i !in a {
      SubsetSize(a, UpTo(n) - {i});
    } else {
      assert a == UpTo(n);
    }
  }

  lemma TakenSize(slot: map<nat, nat>, pinned: set<nat>, mine: map<nat, Buf>, lent: set<nat>)
    ensures |Taken(slot, pinned, mine, lent)| <= |Slots(pinned, slot)| + |mine| + |lent|
  {
    hide Slots;
    var held := Slots(pinned, slot) + mine.Keys;
    assert |held| <= |Slots(pinned, slot)| + |mine.Keys|;
    assert |held + lent| <= |held| + |lent|;
    assert |mine.Keys| == |mine|;
  }

  /** With all but one of the buffers pinned and none held by the writer, none is left exactly if another process holds
      the one that is not pinned. */
  lemma OneLeft(bufs: seq<Buf>, holder: seq<nat>, writer: int, slot: map<nat, nat>, pinned: set<nat>,
                stored: Disk, mine: map<nat, Buf>, lent: set<nat>)
    requires ContentsOk(bufs, holder, writer, slot, pinned, stored, mine, lent) && mine == map[] && |pinned| == NBUF - 1
    ensures (forall i :: 0 <= i < NBUF ==> !bufs[i].Reusable()) <==> !(lent <= Slots(pinned, slot))
  {
    hide ContentsOk, Slots, UpTo;
    var dirty := Slots(pinned, slot);
    AllTaken(bufs, holder, writer, slot, pinned, stored, mine, lent);
    TakenRange(bufs, holder, writer, slot, pinned, stored, mine, lent);
    assert Taken(slot, pinned, mine, lent) == dirty + lent;
    FullSize(dirty + lent, NBUF);
    if lent <= dirty {
      assert dirty + lent == dirty;
    } else {
      var b :| b in lent && b !in dirty;
      SubsetSize(dirty + {b}, dirty + lent);
    }
  }

  class Cache {
    var bufs: seq<Buf>
    var next: seq<nat>
    var prev: seq<nat>
    var disk: Disk
    var holder: seq<nat>  // the process bread gave a busy buffer to
    var writer: int       // the process in a transaction, or NOBODY
    ghost var ring: seq<nat>
    ghost var slot: map<nat, nat>
    ghost var pinned: set<nat>
    ghost var stored: Disk
    ghost var mine: map<nat, Buf>
    ghost var lent: set<nat>
    ghost var history: seq<Disk>  // every state the disk has been in

    ghost predicate Valid()
      reads this
    {
      && IsRing(next, prev, ring) && |next| == |ring| == NBUF + 1 && ring[0] == HEAD
      && ContentsOk(bufs, holder, writer, slot, pinned, stored, mine, lent) && StoredOk(disk, stored, pinned)
      && NOBODY <= writer && history != [] && history[|history| - 1] == disk
    }

    /** The buffers from the most to the least recently released. */
    ghost function Lru(): seq<nat>
      requires Valid()
      reads this
    {
      ring[1..]
    }

    /** binit, with the disk as it is at boot. */
    constructor (d: Disk)
      ensures Valid() && disk == stored == d && history == [d]
      ensures pinned == {} && mine == map[] && lent == {} && writer == NOBODY
    {
      bufs := EmptyBufs();
      holder := seq(NBUF, _ => 0);
      next := seq(NBUF + 1, _ => HEAD);
      prev := seq(NBUF + 1, _ => HEAD);
      disk := d;
      writer := NOBODY;
      ring := [HEAD];
      slot := map[];
      pinned := {};
      stored := d;
      mine := map[];
      lent := {};
      history := [d];
      new;
      assert IsRing(next, prev, ring) by { assert Succ(ring, 0) == 0; }
      var b := 0;
      while b < NBUF
        modifies this`next, this`prev, this`ring
        invariant b <= NBUF && |next| == NBUF + 1 && |ring| == b + 1 && ring[0] == HEAD
        invariant IsRing(next, prev, ring)
        invariant forall i :: 0 <= i < |ring| ==> ring[i] < b || ring[i] == HEAD
      {
        ghost var was := ring;
        LinkFirst(b);
        assert forall i :: 2 <= i < |ring| ==> ring[i] == was[i - 1];
        b := b + 1;
      }
    }

    /** Puts b, which is not in the ring, right after the head: it becomes the most recently used. */
    method LinkFirst(b: nat)
      requires IsRing(next, prev, ring) && ring[0] == HEAD && b < |next| && b !in ring
      modifies this`next, this`prev, this`ring
      ensures IsRing(next, prev, ring) && |next| == old(|next|) && ring == Second(old(ring), b)
    {
      Inserted(next, prev, ring, b);
      var first := next[HEAD];
      next := next[b := first];
      prev := prev[b := HEAD];
      prev := prev[first := b];
      next := next[HEAD := b];
      ring := Second(ring, b);
    }

    /** The pointer updates of brelse. */
    method MoveFirst(b: nat)
      requires IsRing(next, prev, ring) && |next| == |ring| == NBUF + 1 && ring[0] == HEAD && b < NBUF
      modifies this`next, this`prev, this`ring
      ensures IsRing(next, prev, ring) && |next| == |ring| == NBUF + 1 && ring[0] == HEAD
      ensures IsMovedFirst(old(ring)[1..], ring[1..], b)
    {
      hide Without, Second;
      PlaceInFull(ring, NBUF + 1, b);
      ghost var k :| 0 <= k < |ring| && ring[k] == b;
      Unlinked(next, prev, ring, k);
      MovedFirst(ring, k);
      ghost var was := ring;
      var after, before := next[b], prev[b];
      prev := prev[after := before];
      next := next[before := after];
      ring := Without(ring, k);
      LinkFirst(b);
      assert was[1..][k - 1] == b;
    }

    ghost predicate Holds(b: nat, sector: nat)
      reads this
    {
      b < |bufs| && bufs[b].dev == ROOTDEV && bufs[b].sector == sector
    }

    lemma InRing(k: nat)
      requires Valid() && k < |ring|
      ensures ring[k] == HEAD <==> k == 0
      ensures k > 0 ==> ring[k] < NBUF
    {
    }

    lemma AllMembers()
      requires Valid()
      requires forall j {:trigger ring[j]} :: 0 < j < |ring| ==> ring[j] < NBUF && !bufs[ring[j]].Reusable()
      ensures forall i :: 0 <= i < NBUF ==> !bufs[i].Reusable()
    {
      forall i | 0 <= i < NBUF ensures !bufs[i].Reusable() {
        PlaceInFull(ring, NBUF + 1, i);
        var j :| 0 <= j < |ring| && ring[j] == i;
      }
    }

    lemma NotCached(sector: nat)
      requires Valid()
      requires forall j :: 1 <= j < |ring| ==> !Holds(ring[j], sector)
      ensures sector !in slot
    {
      if sector in slot {
        PlaceInFull(ring, NBUF + 1, slot[sector]);
      }
    }

    /** The first loop of bget. */
    method FindCached(sector: nat) returns (b: nat)
      requires Valid()
      ensures b != HEAD ==> sector in slot && slot[sector] == b && Holds(b, sector)
      ensures b == HEAD ==> sector !in slot
    {
      assert Succ(ring, 0) == 1;
      ghost var k := 1;
      b := next[HEAD];
      while b != HEAD
        invariant 1 <= k <= |ring| && b == if k < |ring| then ring[k] else HEAD
        invariant forall j :: 1 <= j < k ==> !Holds(ring[j], sector)
        decreases |ring| - k
      {
        InRing(k);
        if bufs[b].dev == ROOTDEV && bufs[b].sector == sector {
          return;
        }
        assert Succ(ring, k) == if k + 1 < |ring| then k + 1 else 0;
        b := next[b];
        k := k + 1;
      }
      if k < |ring| {
        InRing(k);
      }
      NotCached(sector);
    }

    /** The second loop of bget, from the least recently used end. */
    method FindReusable() returns (b: nat)
      requires Valid()
      ensures b != HEAD ==> IsVictim(bufs, Lru(), b)
      ensures b == HEAD ==> forall i :: 0 <= i < NBUF ==> !bufs[i].Reusable()
    {
      assert Succ(ring, NBUF) == 0;
      b := prev[HEAD];
      ghost var k := NBUF;
      while b != HEAD
        invariant 0 <= k <= NBUF && b == ring[k]
        invariant forall j {:trigger ring[j]} :: k < j < |ring| ==> ring[j] < NBUF && !bufs[ring[j]].Reusable()
        decreases k
      {
        InRing(k);
        if !bufs[b].busy && !bufs[b].dirty {
          return;
        }
        assert Succ(ring, k - 1) == k;
        b := prev[b];
        k := k - 1;
      }
      InRing(k);
      AllMembers();
    }

    /** One pass of bget under bcache.lock. A cached sector is handed out if nobody has it; otherwise the
        least recently released buffer that is neither busy nor dirty is taken for the sector. */
    method Bget(pid: nat, sector: nat) returns (r: BgetResult)
      requires Valid() && sector < |disk|
      modifies this`bufs, this`holder, this`slot, this`mine, this`lent
      ensures Valid()
      ensures !r.Got? ==> bufs == old(bufs) && holder == old(holder) && slot == old(slot)
      ensures !r.Got? ==> mine == old(mine) && lent == old(lent)
      ensures r.Got? ==>
                && r.b < NBUF && !old(bufs)[r.b].busy && holder == old(holder)[r.b := pid]
                && r.b !in old(mine) && sector in slot && slot[sector] == r.b && bufs[r.b].sector == sector
                && (bufs[r.b].valid ==> bufs[r.b].data == stored[sector])
                && mine == Handed(pid, writer, old(mine), r.b, bufs[r.b])
                && lent == HandedLent(pid, writer, old(lent), r.b)
      ensures match r
              case Got(b) =>
                if sector in old(slot) then
                  slot == old(slot) && bufs == old(bufs)[b := old(bufs)[b].(busy := true)]
                else
                  && IsVictim(old(bufs), Lru(), b)
                  && bufs == old(bufs)[b := Buf(true, false, false, ROOTDEV, sector, old(bufs)[b].data)]
              case Sleeps(b) => sector in slot && slot[sector] == b && bufs[b].busy
              case NoBuffers => sector !in slot && forall i :: 0 <= i < NBUF ==> !bufs[i].Reusable()
    {
      hide SlotsOk, PinsOk, DataOk, HeldOk, IsRing;
      var b := FindCached(sector);
      if b != HEAD {
        if bufs[b].busy {
          return Sleeps(b);
        }
        HandOk(bufs, holder, writer, slot, pinned, stored, mine, lent, pid, b);
        bufs := bufs[b := bufs[b].(busy := true)];
        holder := holder[b := pid];
      } else {
        b := FindReusable();
        if b == HEAD {
          return NoBuffers;
        }
        RecycleOk(bufs, holder, writer, slot, pinned, stored, mine, lent, pid, b, sector);
        slot := Reslotted(slot, bufs[b], sector, b);
        bufs := bufs[b := Buf(true, false, false, ROOTDEV, sector, bufs[b].data)];
        holder := holder[b := pid];
      }
      mine := Handed(pid, writer, mine, b, bufs[b]);
      lent := HandedLent(pid, writer, lent, b);
      return Got(b);
    }

    /** The disk read of bread, done outside the lock by the process that holds the buffer. */
    method Fill(pid: nat, b: nat)
      requires Valid() && b < NBUF && bufs[b].busy && holder[b] == pid
      modifies this`bufs, this`mine
      ensures Valid()
      ensures bufs == old(bufs)[b := if old(bufs)[b].valid then old(bufs)[b]
                                     else old(bufs)[b].(valid := true, data := disk[old(bufs)[b].sector])]
      ensures bufs[b].sector < |stored| && (!old(bufs)[b].valid ==> bufs[b].data == stored[bufs[b].sector])
      ensures mine == Handed(pid, writer, old(mine), b, bufs[b])
    {
      hide SlotsOk, PinsOk, DataOk, HeldOk, IsRing;
      HolderFacts(b);
      if bufs[b].valid {
        assert mine == Handed(pid, writer, mine, b, bufs[b]);
      } else {
        var buf := bufs[b].(valid := true, data := disk[bufs[b].sector]);
        ChangeOk(bufs, holder, writer, slot, pinned, stored, mine, lent, b, buf, pinned - {buf.sector}, stored);
        assert pinned - {buf.sector} == pinned;
        bufs := bufs[b := buf];
        mine := Handed(pid, writer, mine, b, buf);
      }
    }

    /** brelse: the buffer, whose data must have been stored if it was changed, becomes the most recently
        used one; the order of the others does not change. */
    method Brelse(pid: nat, b: nat)
      requires Valid() && b < NBUF && bufs[b].busy && holder[b] == pid
      requires bufs[b].valid ==> bufs[b].data == stored[bufs[b].sector]
      modifies this`bufs, this`next, this`prev, this`ring, this`mine, this`lent
      ensures Valid() && bufs == old(bufs)[b := old(bufs)[b].(busy := false)]
      ensures IsMovedFirst(old(Lru()), Lru(), b)
      ensures mine == old(mine) - {b} && lent == old(lent) - {b}
    {
      hide SlotsOk, PinsOk, DataOk, HeldOk, IsRing;
      HolderFacts(b);
      ReturnOk(bufs, holder, writer, slot, pinned, stored, mine, lent, b);
      MoveFirst(b);
      bufs := bufs[b := bufs[b].(busy := false)];
      mine := mine - {b};
      lent := lent - {b};
    }

    // Processes outside the transaction

    /** Any one step of a process other than the writer, or none if it cannot be taken. What is on the
        disk, what is stored, what is pinned and what the writer holds do not change. */
    method Reader(op: ReaderOp)
      requires Valid()
      modifies this`bufs, this`holder, this`slot, this`next, this`prev, this`ring, this`lent, this`mine
      ensures Valid() && mine == old(mine)
    {
      hide SlotsOk, PinsOk, DataOk, HeldOk, IsRing;
      if op.pid == writer {
        return;
      }
      match op {
        case ReaderGet(pid, sector) =>
          if sector < |disk| {
            var r := Bget(pid, sector);
          }
        case ReaderFill(pid, b) =>
          if b < NBUF && bufs[b].busy && holder[b] == pid {
            HolderFacts(b);
            Fill(pid, b);
          }
        case ReaderRelease(pid, b) =>
          if b < NBUF && bufs[b].busy && holder[b] == pid {
            HolderFacts(b);
            Brelse(pid, b);
          }
      }
    }

    method Readers(ops: seq<ReaderOp>)
      requires Valid()
      modifies this`bufs, this`holder, this`slot, this`next, this`prev, this`ring, this`lent, this`mine
      ensures Valid() && mine == old(mine) && (ops == [] ==> lent == old(lent))
    {
      for k := 0 to |ops|
        invariant Valid() && mine == old(mine) && (ops == [] ==> lent == old(lent))
      {
        Reader(ops[k]);
      }
    }

    // The process in a transaction

    /** Process pid, which holds no buffer, enters a transaction. */
    method Enter(pid: nat)
      requires Valid() && writer == NOBODY && forall b :: b in lent ==> holder[b] != pid
      modifies this`writer
      ensures Valid() && writer == pid
    {
      writer := pid;
    }

    /** The writer leaves its transaction, holding no buffer. */
    method Leave()
      requires Valid() && mine == map[]
      modifies this`writer
      ensures Valid() && writer == NOBODY
    {
      writer := NOBODY;
    }

    /** The writer's disk read of a buffer it has got from bget: `during` is what other processes do before it. */
    method FillMine(b: nat, during: seq<ReaderOp>)
      requires Valid() && 0 <= writer && b in mine && mine[b].sector < |stored|
      requires mine[b].valid ==> mine[b].data == stored[mine[b].sector]
      modifies this`bufs, this`holder, this`slot, this`next, this`prev, this`ring, this`mine, this`lent
      ensures Valid() && (during == [] ==> lent == old(lent))
      ensures var sector := old(mine)[b].sector;
              mine == old(mine)[b := Buf(true, true, sector in pinned, ROOTDEV, sector, stored[sector])]
    {
      hide SlotsOk, PinsOk, DataOk, HeldOk, IsRing;
      Readers(during);
      HolderFacts(b);
      Fill(writer, b);
      HolderFacts(b);
    }

    /** One pass of bread by the writer: bget, and the disk read if the buffer was recycled, which is done
        outside the lock. */
    method TryRead(sector: nat, during: seq<ReaderOp>) returns (r: BreadResult)
      requires Valid() && sector < |disk| && 0 <= writer
      modifies this`bufs, this`holder, this`slot, this`next, this`prev, this`ring, this`mine, this`lent
      ensures Valid() && (during == [] ==> lent == old(lent))
      ensures r.Read? ==>
                && r.b !in old(mine)
                && mine == old(mine)[r.b := Buf(true, true, sector in pinned, ROOTDEV, sector, stored[sector])]
      ensures !r.Read? ==> mine == old(mine)
      ensures (r.Read? <==> old(Readable(sector))) && (r.Panicked? <==> old(sector !in slot && !Readable(sector)))
    {
      hide SlotsOk, PinsOk, DataOk, HeldOk, IsRing, Readable;
      BgetIs(sector);
      var g := Bget(writer, sector);
      match g {
        case Got(b) =>
          FillMine(b, during);
          return Read(b);
        case NoBuffers => return Panicked;
        case Sleeps(_) => return Blocked;
      }
    }

    /** A pass of bget gets a buffer for the sector: the one it is in, if nobody holds it, or one that is not taken. */
    ghost predicate Readable(sector: nat)
      reads this
    {
      if sector in slot then slot[sector] !in mine && slot[sector] !in lent
      else |Taken(slot, pinned, mine, lent)| != NBUF
    }

    /** No other process holds a buffer, the writer does not hold the sector, and the sector is pinned in
        the cache or not every buffer is held or pinned. */
    ghost predicate Available(sector: nat)
      reads this
    {
      && lent == {}
      && (forall b :: b in mine ==> mine[b].sector != sector)
      && (sector in pinned || |pinned| + |mine| < NBUF)
    }

    /** bread by the writer: `env` is what other processes do, by turns before a pass of bget and between
        that pass and the disk read. The buffer comes back with the contents last stored in the sector,
        wherever they are. */
    method ReadBlock(sector: nat, env: seq<seq<ReaderOp>>) returns (r: BreadResult, rest: seq<seq<ReaderOp>>)
      requires Valid() && sector < |disk| && 0 <= writer
      modifies this`bufs, this`holder, this`slot, this`next, this`prev, this`ring, this`mine, this`lent
      ensures Valid()
      ensures r.Read? ==>
                && r.b !in old(mine)
                && mine == old(mine)[r.b := Buf(true, true, sector in pinned, ROOTDEV, sector, stored[sector])]
      ensures !r.Read? ==> mine == old(mine)
      ensures env == [] ==> rest == [] && lent == old(lent) && (old(Available(sector)) ==> r.Read?)
      ensures env == [] ==>
                (r.Read? <==> old(Readable(sector))) && (r.Panicked? <==> old(sector !in slot && !Readable(sector)))
    {
      hide SlotsOk, PinsOk, DataOk, HeldOk, IsRing;
      rest := env;
      while rest != []
        invariant Valid() && mine == old(mine)
        invariant env == [] ==> rest == [] && lent == old(lent) && bufs == old(bufs) && slot == old(slot)
        decreases |rest|
      {
        var during := if |rest| == 1 then [] else rest[1];
        Readers(rest[0]);
        rest := if |rest| == 1 then [] else rest[2..];
        r := TryRead(sector, during);
        if !r.Blocked? {
          return;
        }
      }
      if Available(sector) {
        IsReadable(sector);
      }
      r := TryRead(sector, []);
    }

    lemma HolderFacts(b: nat)
      requires Valid() && (b in mine || (b < NBUF && bufs[b].busy))
      ensures b < NBUF && bufs[b].busy && bufs[b].dev == ROOTDEV && bufs[b].sector < |disk| == |stored|
      ensures b in mine ==> bufs[b] == mine[b] && holder[b] == writer
      ensures b !in mine ==> holder[b] != writer
      ensures bufs[b].dirty <==> bufs[b].sector in pinned
      ensures bufs[b].dirty ==> bufs[b].valid
      ensures b !in mine && bufs[b].valid ==> bufs[b].data == stored[bufs[b].sector]
    {
    }

    /** The sector and the data of a buffer the writer holds. */
    method Contents(b: nat) returns (sector: nat, data: Block)
      requires Valid() && b in mine
      ensures sector == mine[b].sector < |disk| && data == mine[b].data
    {
      sector, data := bufs[b].sector, bufs[b].data;
    }

    /** The writer changes the data of its buffer. */
    method SetBlock(b: nat, data: Block)
      requires Valid() && b in mine && mine[b].valid
      modifies this`bufs, this`mine
      ensures Valid() && mine == old(mine)[b := old(mine)[b].(data := data)]
    {
      hide SlotsOk, PinsOk, DataOk, HeldOk, IsRing;
      HolderFacts(b);
      var buf := bufs[b].(data := data);
      ghost var pinned' := if buf.dirty then pinned + {buf.sector} else pinned - {buf.sector};
      ChangeOk(bufs, holder, writer, slot, pinned, stored, mine, lent, b, buf, pinned', stored);
      assert pinned' == pinned;
      bufs := bufs[b := buf];
      mine := mine[b := buf];
    }

    /** bwrite: the sector is written at once and the buffer is clean again. */
    method WriteBlock(b: nat)
      requires Valid() && b in mine && mine[b].valid
      modifies this`bufs, this`disk, this`stored, this`pinned, this`history, this`mine
      ensures Valid() && mine == old(mine)[b := old(mine)[b].(dirty := false)]
      ensures mine[b].sector < |old(disk)|
      ensures disk == old(disk)[mine[b].sector := mine[b].data] && history == old(history) + [disk]
      ensures stored == old(stored)[mine[b].sector := mine[b].data]
      ensures pinned == old(pinned) - {mine[b].sector}
    {
      hide SlotsOk, PinsOk, DataOk, HeldOk, IsRing;
      HolderFacts(b);
      var buf := bufs[b].(dirty := false);
      ChangeOk(bufs, holder, writer, slot, pinned, stored, mine, lent, b, buf, pinned - {buf.sector},
               stored[buf.sector := buf.data]);
      disk := disk[buf.sector := buf.data];
      history := history + [disk];
      stored := stored[buf.sector := buf.data];
      pinned := pinned - {buf.sector};
      bufs := bufs[b := buf];
      mine := mine[b := buf];
    }

    /** Setting the dirty flag at the end of log_write: the data counts as stored but stays off its
        home sector, and the buffer cannot be recycled. */
    method PinBlock(b: nat)
      requires Valid() && b in mine && mine[b].valid
      modifies this`bufs, this`stored, this`pinned, this`mine
      ensures Valid() && mine == old(mine)[b := old(mine)[b].(dirty := true)]
      ensures mine[b].sector < |disk| && stored == old(stored)[mine[b].sector := mine[b].data]
      ensures pinned == old(pinned) + {mine[b].sector}
    {
      hide SlotsOk, PinsOk, DataOk, HeldOk, IsRing;
      HolderFacts(b);
      var buf := bufs[b].(dirty := true);
      ChangeOk(bufs, holder, writer, slot, pinned, stored, mine, lent, b, buf, pinned + {buf.sector},
               stored[buf.sector := buf.data]);
      stored := stored[buf.sector := buf.data];
      pinned := pinned + {buf.sector};
      bufs := bufs[b := buf];
      mine := mine[b := buf];
    }

    /** brelse by the writer. */
    method ReleaseBlock(b: nat)
      requires Valid() && b in mine && mine[b].sector < |stored| && mine[b].data == stored[mine[b].sector]
      modifies this`bufs, this`next, this`prev, this`ring, this`mine, this`lent
      ensures Valid() && mine == old(mine) - {b} && lent == old(lent)
    {
      Brelse(writer, b);
    }

    /** Data moved into the writer's buffer, bwrite, brelse. */
    method Overwrite(b: nat, data: Block)
      requires Valid() && b in mine && mine[b].valid
      modifies this`bufs, this`disk, this`stored, this`pinned, this`history, this`mine
      modifies this`next, this`prev, this`ring, this`lent
      ensures Valid() && mine == old(mine) - {b} && lent == old(lent) && old(mine)[b].sector < |old(disk)|
      ensures disk == old(disk)[old(mine)[b].sector := data] && history == old(history) + [disk]
      ensures stored == old(stored)[old(mine)[b].sector := data]
      ensures pinned == old(pinned) - {old(mine)[b].sector}
    {
      hide SlotsOk, PinsOk, DataOk, HeldOk, IsRing;
      SetBlock(b, data);
      WriteBlock(b);
      ReleaseBlock(b);
    }

    /** What decides the result of bget for the writer. */
    lemma BgetIs(sector: nat)
      requires Valid()
      ensures if sector in slot then slot[sector] < NBUF && (Readable(sector) <==> !bufs[slot[sector]].busy)
              else Readable(sector) <==> exists i :: 0 <= i < NBUF && bufs[i].Reusable()
    {
      hide IsRing;
      AllTaken(bufs, holder, writer, slot, pinned, stored, mine, lent);
    }

    lemma IsReadable(sector: nat)
      requires Valid() && Available(sector)
      ensures Readable(sector)
    {
      AllTaken(bufs, holder, writer, slot, pinned, stored, mine, lent);
    }
  }
}
