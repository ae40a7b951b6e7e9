/** Transactions over the buffer cache, as the kernel runs them. Every sector write appends one state to
    the cache's disk history, and the methods say exactly which states they append. */
module Log {
  import opened Blocks
  import opened RedoLog
  import opened Ring
  import opened BufferCache

  /** What is pinned after the sectors of `done` have been installed. */
  ghost predicate Unpinned(pinned: set<nat>, was: set<nat>, done: seq<nat>) {
    forall s :: s in pinned <==> s in was && s !in done
  }

  lemma NoneUnpinned(pinned: set<nat>, done: seq<nat>)
    requires done == []
    ensures Unpinned(pinned, pinned, done)
  {
  }

  lemma OneUnpinned(pinned: set<nat>, was: set<nat>, done: seq<nat>, s: nat)
    requires Unpinned(pinned, was, done) && s !in done
    ensures Unpinned(pinned - {s}, was, done + [s]) && |pinned| <= |was| && (s in pinned <==> s in was)
  {
    SubsetSize(pinned, was);
  }

  /** What other processes do to the cache, by turns before a pass of bget and between it and the disk read. */
  type Schedule = seq<seq<ReaderOp>>

  datatype LogWriteResult = Appended | TooBig | Stopped

  class Log {
    const cache: Cache
    const layout: Layout
    var busy: bool
    var n: nat
    var sector: seq<nat>
    ghost var past: seq<Disk>      // the disk states up to the beginning of the transaction
    ghost var base: Disk           // the disk when the transaction began
    ghost var writes: seq<Write>   // what log_write has taken since

    /** The header lists the logged sectors, the log blocks hold their last contents, the home sectors are
        untouched on the disk, and the logged sectors are the pinned ones. */
    ghost predicate Valid()
      reads this, cache
    {
      && cache.Valid() && layout.LogOk(base) && layout.Count(base) == 0
      && layout.Accepted(writes)
      && |sector| == LOGSIZE && n <= LOGSIZE && sector[..n] == Logged(writes)
      && cache.disk == layout.LogDisk(base, writes)
      && cache.history == past + layout.AppendTrace(base, writes)
      && cache.pinned == Elements(Logged(writes))
      && layout.Home(cache.stored) == ApplyWrites(layout.Home(base), writes)
      && (busy <==> cache.writer != NOBODY)
      && (!busy ==> writes == [] && cache.mine == map[])
    }

    /** What write_head and install_trans start from: the writer holds no buffer, the header in memory can
        be committed and nothing but home sectors is pinned. */
    ghost predicate Ready()
      reads this, cache
    {
      && cache.Valid() && layout.Fits(cache.disk) && 0 <= cache.writer && cache.mine == map[]
      && |sector| == LOGSIZE && n <= LOGSIZE && layout.CanCommit(sector[..n])
      && forall s :: s in cache.pinned ==> s < layout.start
    }

    /** initlog: recover_from_log on the disk found at boot, before any other process runs. It passes
        through exactly the states of RecoveryTrace, and finds a buffer whenever it needs one. */
    constructor (cache: Cache, layout: Layout)
      requires cache.Valid() && cache.writer == NOBODY && cache.pinned == {} && cache.mine == map[] && cache.lent == {}
      requires layout.LogOk(cache.disk)
      modifies cache
      ensures Valid() && this.cache == cache && this.layout == layout && !busy && cache.lent == {}
      ensures cache.history == old(cache.history) + layout.RecoveryTrace(old(cache.disk))
    {
      hide SlotsOk, PinsOk, DataOk, HeldOk, IsRing;
      this.cache := cache;
      this.layout := layout;
      busy := false;
      n := 0;
      sector := [0, 0, 0, 0, 0, 0, 0, 0, 0, 0];
      writes := [];
      base := cache.disk;
      new;
      cache.Enter(0);
      RecoverFromLog();
      past := cache.history;
      cache.Leave();
    }

    /** recover_from_log: read_head, install_trans, write_head. */
    method RecoverFromLog()
      requires cache.Valid() && 0 <= cache.writer && cache.pinned == {} && cache.mine == map[] && cache.lent == {}
      requires layout.LogOk(cache.disk) && |sector| == LOGSIZE && writes == []
      modifies cache, this`n, this`sector, this`base
      ensures cache.writer == old(cache.writer) && cache.mine == map[] && cache.lent == {} && cache.pinned == {}
      ensures cache.Valid() && n == 0 && base == cache.disk && |sector| == LOGSIZE
      ensures layout.LogOk(base) && layout.Count(base) == 0
      ensures cache.history == old(cache.history) + layout.RecoveryTrace(old(cache.disk))
    {
      hide SlotsOk, PinsOk, DataOk, HeldOk, IsRing, ContentsOk, Layout.RecoveryTrace, Layout.HeaderBlock, GetWord;
      hide PutWord, Layout.IsInstall, Layout.Home, Cache.Readable;
      ghost var d := cache.disk;
      ReadHead();
      ghost var secs := sector[..n];
      var k, rest, states := InstallTrans([]);
      n := 0;
      assert sector[..n] == [];
      var done;
      done, rest := WriteHead([]);
      layout.RecoveryIs(d, states, cache.disk);
      base := cache.disk;
    }

    /** read_head: the header in memory becomes the one on the disk. */
    method ReadHead()
      requires cache.Valid() && 0 <= cache.writer && cache.pinned == {} && cache.mine == map[] && cache.lent == {}
      requires layout.LogOk(cache.disk) && |sector| == LOGSIZE
      modifies cache`bufs, cache`holder, cache`slot, cache`next, cache`prev, cache`ring, cache`mine, cache`lent
      modifies this`n, this`sector
      ensures Ready() && cache.lent == {} && sector[..n] == layout.Sectors(cache.disk)
    {
      hide SlotsOk, PinsOk, DataOk, HeldOk, IsRing, Cache.Readable;
      var r, rest := cache.ReadBlock(layout.start, []);
      var _, data := cache.Contents(r.b);
      assert data == cache.disk[layout.start];
      LoadHeader(data);
      cache.ReleaseBlock(r.b);
      assert sector[..n] == layout.Sectors(cache.disk);
      assert cache.mine == map[];
    }

    /** The loop of read_head. */
    method LoadHeader(data: Block)
      requires |sector| == LOGSIZE && GetWord(data, 0) <= LOGSIZE
      modifies this`n, this`sector
      ensures n == GetWord(data, 0) && |sector| == LOGSIZE
      ensures forall j :: 0 <= j < n ==> sector[j] == GetWord(data, 1 + j)
    {
      n := GetWord(data, 0);
      var i := 0;
      while i < n
        modifies this`sector
        invariant i <= n && |sector| == LOGSIZE
        invariant forall j :: 0 <= j < i ==> sector[j] == GetWord(data, 1 + j)
      {
        sector := sector[i := GetWord(data, 1 + i)];
        i := i + 1;
      }
    }

    /** write_head: one sector write, of the header in memory over the header on the disk. */
    method WriteHead(env: Schedule) returns (done: bool, rest: Schedule)
      requires Ready()
      modifies cache
      ensures cache.writer == old(cache.writer) && cache.pinned == old(cache.pinned)
      ensures done ==>
                && Ready()
                && cache.disk == old(cache.disk)[layout.start :=
                     layout.HeaderBlock(old(cache.disk)[layout.start], sector[..n], n)]
                && cache.history == old(cache.history) + [cache.disk]
      ensures !done ==> cache.disk == old(cache.disk) && cache.history == old(cache.history)
      ensures env == [] ==> rest == [] && cache.lent == old(cache.lent)
      ensures env == [] && old(cache.lent) == {} && |cache.pinned| < NBUF ==> done
      ensures env == [] ==> (done <==> old(cache.Readable(layout.start)))
    {
      hide SlotsOk, PinsOk, DataOk, HeldOk, IsRing, Cache.Readable, Layout.HeaderBlock, ContentsOk, PutWord;
      var r;
      r, rest := cache.ReadBlock(layout.start, env);
      if !r.Read? {
        return false, rest;
      }
      var _, before := cache.Contents(r.b);
      assert before == cache.disk[layout.start];
      var data := BuildHeader(before);
      cache.Overwrite(r.b, data);
      assert cache.mine == map[];
      return true, rest;
    }

    /** The loop of write_head, over the header block as it was. */
    method BuildHeader(before: Block) returns (data: Block)
      requires |sector| == LOGSIZE && n <= LOGSIZE && forall i :: 0 <= i < n ==> sector[i] < 0x1_0000_0000
      ensures data == layout.HeaderBlock(before, sector[..n], n)
    {
      hide PutWord;
      data := PutWord(before, 0, n);
      var i := 0;
      while i < n
        invariant i <= n && data == layout.HeaderBlock(before, sector[..n], i)
      {
        hide PutWord;
        data := PutWord(data, 1 + i, sector[i]);
        i := i + 1;
      }
    }

    /** One iteration of install_trans: log block `tail` is written to its home sector. */
    method InstallOne(tail: nat, env: Schedule) returns (done: bool, rest: Schedule)
      requires Ready() && tail < n
      modifies cache
      ensures cache.writer == old(cache.writer)
      ensures done ==>
                && Ready()
                && cache.disk == old(cache.disk)[sector[tail] := old(cache.disk)[layout.start + 1 + tail]]
                && cache.history == old(cache.history) + [cache.disk]
                && cache.pinned == old(cache.pinned) - {sector[tail]}
      ensures !done ==> cache.disk == old(cache.disk) && cache.history == old(cache.history)
      ensures !done ==> cache.pinned == old(cache.pinned)
      ensures env == [] ==> rest == [] && cache.lent == old(cache.lent)
      ensures env == [] && old(cache.lent) == {} && old(CanInstall(tail)) ==> done
    {
      hide SlotsOk, PinsOk, DataOk, HeldOk, IsRing;
      assert sector[..n][tail] == sector[tail];
      var l, d;
      done, l, d, rest := ReadPair(tail, env);
      if done {
        CopyPair(l, d);
      }
    }

    /** The two reads: log block `tail`, then its home sector. */
    method ReadPair(tail: nat, env: Schedule) returns (done: bool, l: nat, d: nat, rest: Schedule)
      requires Ready() && tail < n && sector[tail] < layout.start
      modifies cache`bufs, cache`holder, cache`slot, cache`next, cache`prev, cache`ring, cache`mine, cache`lent
      ensures done ==>
                && cache.Valid() && cache.mine.Keys == {l, d} && l != d && cache.mine[l].valid && cache.mine[d].valid
                && cache.mine[l].sector == layout.start + 1 + tail && cache.mine[d].sector == sector[tail]
                && cache.mine[l].data == cache.disk[layout.start + 1 + tail] == cache.stored[layout.start + 1 + tail]
      ensures env == [] ==> rest == [] && cache.lent == old(cache.lent)
      ensures env == [] && old(cache.lent) == {} && CanInstall(tail) ==> done
    {
      hide SlotsOk, PinsOk, DataOk, HeldOk, IsRing, Cache.Readable;
      d := 0;
      var r;
      r, rest := cache.ReadBlock(layout.start + tail + 1, env);
      if !r.Read? {
        return false, 0, 0, rest;
      }
      l := r.b;
      assert cache.mine.Keys == {l};
      r, rest := cache.ReadBlock(sector[tail], rest);
      if !r.Read? {
        return false, l, 0, rest;
      }
      return true, l, r.b, rest;
    }

    /** The copy, the bwrite and the two brelse calls. */
    method CopyPair(l: nat, d: nat)
      requires cache.Valid() && cache.mine.Keys == {l, d} && l != d && cache.mine[l].valid && cache.mine[d].valid
      requires cache.mine[l].sector < |cache.stored| && cache.mine[l].sector != cache.mine[d].sector
      requires cache.mine[l].data == cache.stored[cache.mine[l].sector]
      modifies cache
      ensures cache.Valid() && cache.mine == map[] && cache.lent == old(cache.lent) && cache.writer == old(cache.writer)
      ensures old(cache.mine)[d].sector < |old(cache.disk)|
      ensures cache.disk == old(cache.disk)[old(cache.mine)[d].sector := old(cache.mine)[l].data]
      ensures cache.history == old(cache.history) + [cache.disk]
      ensures cache.pinned == old(cache.pinned) - {old(cache.mine)[d].sector}
    {
      hide SlotsOk, PinsOk, DataOk, HeldOk, IsRing;
      var _, data := cache.Contents(l);
      cache.SetBlock(d, data);
      cache.WriteBlock(d);
      cache.ReleaseBlock(l);
      cache.ReleaseBlock(d);
      assert cache.mine == map[];
    }

    /** There are buffers enough for log block `tail` and its home sector, which may be pinned. */
    ghost predicate CanInstall(tail: nat)
      requires tail < |sector|
      reads this, cache
    {
      |cache.pinned| < NBUF && (sector[tail] in cache.pinned || |cache.pinned| + 1 < NBUF)
    }

    /** install_trans: each logged sector is written with its log block, in order. It stops after k, having
        taken the disk through `states`, and what it has installed is no longer pinned. */
    method InstallTrans(env: Schedule) returns (k: nat, rest: Schedule, ghost states: seq<Disk>)
      requires Ready()
      modifies cache
      ensures cache.writer == old(cache.writer) && k <= n && (k == n ==> Ready())
      ensures |states| == k + 1 && layout.IsInstall(old(cache.disk), sector[..n], states)
      ensures cache.history == old(cache.history) + states[1..] && cache.disk == states[k]
      ensures Unpinned(cache.pinned, old(cache.pinned), sector[..k])
      ensures env == [] ==> rest == [] && cache.lent == old(cache.lent)
      ensures env == [] && old(cache.lent) == {} && (forall i: nat :: i < n ==> old(CanInstall(i))) ==> k == n
    {
      hide Cache.Valid, Layout.IsInstall, Unpinned, Layout.CanCommit;
      rest := env;
      ghost var d, h := cache.disk, cache.history;
      ghost var secs := sector[..n];
      states := [d];
      layout.InstallStarts(d, secs);
      assert Unpinned(cache.pinned, cache.pinned, sector[..0]) by { NoneUnpinned(cache.pinned, sector[..0]); }
      k := 0;
      while k < n
        invariant k <= n && Ready() && |cache.disk| == |d| && cache.writer == old(cache.writer)
        invariant |states| == k + 1 && layout.IsInstall(d, secs, states)
        invariant cache.history == h + states[1..] && cache.disk == states[k]
        invariant forall s :: layout.start <= s < |d| ==> cache.disk[s] == d[s]
        invariant Unpinned(cache.pinned, old(cache.pinned), sector[..k])
        invariant env == [] ==> rest == [] && cache.lent == old(cache.lent)
      {
        hide Cache.Valid, Layout.IsInstall, Unpinned, Layout.CanCommit;
        assert sector[..k + 1] == sector[..k] + [sector[k]];
        assert sector[k] == secs[k] && sector[..k] == secs[..k];
        layout.CommitsOnce(secs, k);
        OneUnpinned(cache.pinned, old(cache.pinned), sector[..k], sector[k]);
        assert old(CanInstall(k)) ==> CanInstall(k);
        var done;
        done, rest := InstallOne(k, rest);
        if !done {
          break;
        }
        assert cache.disk == layout.InstallNext(d, secs, k, states[k]);
        layout.InstallExtends(d, secs, states);
        states := states + [cache.disk];
        k := k + 1;
      }
    }

    /** begin_trans by a process that holds no buffer; false means it has to sleep. */
    method BeginTrans(pid: nat) returns (ok: bool)
      requires Valid() && forall b :: b in cache.lent ==> cache.holder[b] != pid
      modifies this`busy, cache`writer
      ensures Valid() && ok == !old(busy) && busy
      ensures ok ==> cache.writer == pid && cache.mine == map[]
    {
      if busy {
        return false;
      }
      cache.Enter(pid);
      busy := true;
      return true;
    }

    /** The search loop of log_write. */
    method FindSector(s: nat) returns (i: nat)
      requires n <= |sector|
      ensures i == IndexOf(sector[..n], s)
    {
      i := 0;
      while i < n && sector[i] != s
        invariant i <= n && i + IndexOf(sector[i..n], s) == IndexOf(sector[..n], s)
      {
        assert sector[i..n][1..] == sector[i + 1..n];
        i := i + 1;
      }
    }

    /** The bread, memmove, bwrite and brelse of log_write on a log block. */
    method AppendBlock(s: nat, data: Block, env: Schedule) returns (done: bool, rest: Schedule)
      requires cache.Valid() && 0 <= cache.writer && s < |cache.disk| && s !in cache.pinned
      requires forall b :: b in cache.mine ==> cache.mine[b].sector != s
      modifies cache
      ensures cache.Valid() && cache.writer == old(cache.writer) && cache.mine == old(cache.mine)
      ensures cache.pinned == old(cache.pinned)
      ensures done ==>
                && cache.disk == old(cache.disk)[s := data] && cache.stored == old(cache.stored)[s := data]
                && cache.history == old(cache.history) + [cache.disk]
      ensures !done ==> cache.disk == old(cache.disk) && cache.stored == old(cache.stored)
      ensures !done ==> cache.history == old(cache.history)
      ensures env == [] ==> rest == [] && cache.lent == old(cache.lent)
      ensures env == [] && old(cache.lent) == {} && |cache.pinned| + |cache.mine| < NBUF ==> done
    {
      hide SlotsOk, PinsOk, DataOk, HeldOk, IsRing;
      var r;
      r, rest := cache.ReadBlock(s, env);
      if !r.Read? {
        return false, rest;
      }
      cache.Overwrite(r.b, data);
      assert cache.mine == old(cache.mine);
      return true, rest;
    }

    /** log_write: the block goes to a log block of its own or absorbs an earlier one; its buffer is pinned.
        It refuses a full log, and may stop for want of a buffer before it has written anything. */
    method LogWrite(b: nat, env: Schedule) returns (r: LogWriteResult, rest: Schedule)
      requires Valid() && busy && b in cache.mine && cache.mine[b].valid
      requires forall c :: c in cache.mine ==> cache.mine[c].sector < layout.start
      modifies cache, this`n, this`sector, this`writes
      ensures Valid() && busy
      ensures r.TooBig? <==> |Logged(old(writes))| >= layout.Capacity()
      ensures r.Appended? ==>
                && writes == old(writes) + [(old(cache.mine)[b].sector, old(cache.mine)[b].data)]
                && cache.mine == old(cache.mine)[b := old(cache.mine)[b].(dirty := true)]
      ensures !r.Appended? ==> writes == old(writes)
      ensures env == [] && !r.TooBig? && old(cache.lent) == {} && |old(cache.pinned)| + |old(cache.mine)| < NBUF ==>
                r.Appended?
    {
      hide SlotsOk, PinsOk, DataOk, HeldOk, IsRing, ContentsOk, Layout.LogDisk, Layout.AppendTrace;
      hide Layout.Accepted, ApplyWrites, IndexOf, Logged, Layout.Sectors, Elements;
      rest := env;
      if n >= LOGSIZE || n >= layout.size - 1 {
        return TooBig, rest;
      }
      var home, data := cache.Contents(b);
      layout.LogBlockFits(base, writes, home);
      var i := FindSector(home);
      sector := sector[i := home];
      var done;
      done, rest := AppendBlock(layout.start + i + 1, data, env);
      if !done {
        assert sector[..n] == Logged(writes);
        return Stopped, rest;
      }
      assert layout.Home(cache.stored) == layout.Home(old(cache.stored));
      Record(b, i, home, data);
      return Appended, rest;
    }

    /** The end of log_write, once the log block is on the disk. */
    method Record(b: nat, i: nat, home: nat, data: Block)
      requires cache.Valid() && busy && cache.writer != NOBODY && b in cache.mine && cache.mine[b].valid
      requires cache.mine[b].sector == home < layout.start && cache.mine[b].data == data
      requires layout.LogOk(base) && layout.Count(base) == 0 && layout.Accepted(writes)
      requires |Logged(writes)| < layout.Capacity() && |sector| == LOGSIZE && n == |Logged(writes)| < LOGSIZE
      requires i == IndexOf(Logged(writes), home) && sector[i] == home
      requires forall j :: 0 <= j < n && j != i ==> sector[j] == Logged(writes)[j]
      requires layout.start + 1 + i < |base| && cache.disk == layout.LogDisk(base, writes)[layout.start + 1 + i := data]
      requires cache.history == past + layout.AppendTrace(base, writes) + [cache.disk]
      requires cache.pinned == Elements(Logged(writes))
      requires layout.Home(cache.stored) == ApplyWrites(layout.Home(base), writes)
      modifies cache`bufs, cache`stored, cache`pinned, cache`mine, this`n, this`writes
      ensures Valid() && busy && writes == old(writes) + [(home, data)]
      ensures cache.mine == old(cache.mine)[b := old(cache.mine)[b].(dirty := true)]
    {
      hide SlotsOk, PinsOk, DataOk, HeldOk, IsRing, ContentsOk, Layout.LogDisk, Layout.AppendTrace;
      hide Layout.Accepted, ApplyWrites, IndexOf, Logged, Layout.Sectors, Elements;
      if i == n {
        n := n + 1;
      }
      cache.PinBlock(b);
      layout.AppendWrite(base, writes, home, data);
      writes := writes + [(home, data)];
      assert sector[..n] == Logged(writes);
      assert layout.Home(cache.stored) == layout.Home(old(cache.stored))[home := data];
    }

    /** A transaction that pins all buffers but one, as one of nine sectors does, can begin to commit with the header
        out of the cache exactly if no other process holds the buffer that is left; otherwise bget panics. */
    lemma NineLeaveOne()
      requires Ready() && |cache.pinned| == NBUF - 1 && layout.start !in cache.slot
      ensures cache.Readable(layout.start) <==> cache.lent <= Slots(cache.pinned, cache.slot)
    {
      hide SlotsOk, PinsOk, DataOk, HeldOk, IsRing, Slots;
      OneLeft(cache.bufs, cache.holder, cache.writer, cache.slot, cache.pinned, cache.stored, cache.mine, cache.lent);
      AllTaken(cache.bufs, cache.holder, cache.writer, cache.slot, cache.pinned, cache.stored, cache.mine, cache.lent);
    }

    /** The disk part of commit_trans, for a transaction that has logged something. It takes the disk through
        `tail`, a part of CommitTrace, and with no other process holding a buffer and fewer logged sectors
        than buffers it gets to the end; without a buffer for the header it does not begin. */
    method Commit(env: Schedule) returns (done: bool, rest: Schedule, ghost tail: seq<Disk>)
      requires Ready() && cache.pinned == Elements(sector[..n])
      modifies cache, this`n
      ensures cache.writer == old(cache.writer) && cache.history == old(cache.history) + tail
      ensures tail <= layout.CommitTrace(old(cache.disk), sector[..old(n)])
      ensures done ==>
                && cache.Valid() && cache.mine == map[] && cache.pinned == {} && n == 0
                && tail == layout.CommitTrace(old(cache.disk), sector[..old(n)])
      ensures env == [] && old(cache.lent) == {} && old(n) < NBUF ==> done && cache.lent == {}
      ensures env == [] && !old(cache.Readable(layout.start)) ==> !done && tail == []
    {
      hide Cache.Valid, Cache.Readable, ContentsOk, Layout.IsInstall, GetWord, PutWord, Layout.HeaderBlock;
      hide Layout.CommitTrace, Elements, Layout.Sectors, Layout.LogOk, Layout.Home, Layout.Installed;
      ghost var d, secs := cache.disk, sector[..n];
      SizeOfDistinct(secs);
      tail := [];
      done, rest := WriteHead(env);
      if !done {
        return;
      }
      ghost var c := cache.disk;
      assert c == layout.Committed(d, secs);
      var k; ghost var states;
      assert forall i: nat :: i < n ==> CanInstall(i) || n >= NBUF;
      k, rest, states := InstallTrans(rest);
      layout.CommitParts(d, secs, states);
      tail := [c] + states[1..];
      if k < n {
        return false, rest, tail;
      }
      assert cache.pinned == {} by { assert sector[..k] == secs; }
      n := 0;
      assert sector[..n] == [];
      done, rest := WriteHead(rest);
      if done {
        layout.ErasedBy(states[k]);
        tail := tail + [cache.disk];
      }
    }

    /** commit_trans by a process that holds no buffer. The disk states since begin_trans are a part of
        TransactionTrace, so whatever they are cut off at recovers to all of the transaction or none of it;
        at the end they are all of it, and the home sectors hold the last block logged for each. */
    method CommitTrans(env: Schedule) returns (done: bool, rest: Schedule)
      requires Valid() && busy && cache.mine == map[]
      modifies cache, this
      ensures old(past) <= cache.history
      ensures cache.history[|old(past)|..] <= layout.TransactionTrace(old(base), old(writes))
      ensures forall j :: |old(past)| <= j < |cache.history| ==>
                && layout.LogOk(cache.history[j])
                && (layout.Recovered(cache.history[j]) == layout.Home(old(base)) ||
                    layout.Recovered(cache.history[j]) == ApplyWrites(layout.Home(old(base)), old(writes)))
      ensures done ==>
                && Valid() && !busy && past == cache.history && base == cache.disk
                && cache.history == old(past) + layout.TransactionTrace(old(base), old(writes))
                && layout.Home(cache.disk) == layout.Home(cache.stored)
                && layout.Home(cache.disk) == ApplyWrites(layout.Home(old(base)), old(writes))
      ensures env == [] && old(cache.lent) == {} && |Logged(old(writes))| < NBUF ==> done
      ensures env == [] && old(writes) != [] && !old(cache.Readable(layout.start)) ==> !done
    {
      hide SlotsOk, PinsOk, DataOk, HeldOk, IsRing, ContentsOk, Cache.Readable;
      hide Layout.TransactionTrace, Layout.AppendTrace, Layout.CommitTrace, Layout.LogDisk, Logged, Elements;
      hide ApplyWrites;
      hide Layout.Recovered, Layout.Accepted, Layout.Installed, Layout.CanCommit;
      rest := env;
      done := true;
      layout.LoggedFacts(writes);
      layout.LoggedSome(writes);
      ghost var d, w := base, writes;
      ghost var part := layout.AppendTrace(d, w);
      if n > 0 {
        ghost var tail;
        done, rest, tail := Commit(env);
        layout.TransactionParts(d, w, tail);
        part := part + tail;
        if done {
          layout.TransactionCompletes(d, w);
        }
      } else {
        layout.EmptyTransaction(d);
      }
      layout.PrefixAtomic(d, w, part);
      assert cache.history == past + part;
      if done {
        Finish();
      }
    }

    /** The end of commit_trans: nothing is logged or pinned, and the next transaction may begin. */
    method Finish()
      requires cache.Valid() && cache.mine == map[] && cache.pinned == {} && n == 0 && |sector| == LOGSIZE
      requires layout.LogOk(cache.disk) && layout.Count(cache.disk) == 0
      requires layout.Home(cache.stored) == layout.Home(cache.disk)
      modifies this`busy, this`past, this`base, this`writes, cache`writer
      ensures Valid() && !busy && past == cache.history && base == cache.disk
    {
      hide SlotsOk, PinsOk, DataOk, HeldOk, IsRing, ContentsOk, StoredOk;
      busy := false;
      cache.Leave();
      past, base, writes := cache.history, cache.disk, [];
      layout.EmptyTransaction(base);
    }
  }
}
