/** The bytes of a pipe: a ring of PIPESIZE bytes under two 32-bit counters that wrap around. */
module Pipe {
  import opened Blocks

  const PIPESIZE := 512
  const WRAP := 0x1_0000_0000

  /** 32-bit unsigned addition. */
  function Plus(a: nat, b: nat): (r: nat)
    ensures r < WRAP
  {
    (a + b) % WRAP
  }

  lemma Advanced(n: nat)
    ensures Plus(n % WRAP, 1) == (n + 1) % WRAP
  {
  }

  /** The ring has as many places as divide the counters' range, so a wrapped counter names the same place. */
  lemma SamePlace(n: nat)
    ensures Place(n % WRAP) == Place(n)
  {
    var q, r := n / WRAP, n % WRAP;
    assert n == PIPESIZE * (q * (WRAP / PIPESIZE)) + r;
    assert n % PIPESIZE == r % PIPESIZE;
  }

  function Place(n: nat): (p: nat)
    ensures p < PIPESIZE
  {
    n % PIPESIZE
  }

  lemma Apart(i: nat, j: nat)
    requires i < j < i + PIPESIZE
    ensures Place(i) != Place(j)
  {
  }

  /** Comparing wrapped counters tells how full the pipe is, as long as it is never overfull. */
  lemma Distance(w: nat, r: nat)
    requires r <= w <= r + PIPESIZE
    ensures w % WRAP == r % WRAP <==> w == r
    ensures w % WRAP == Plus(r % WRAP, PIPESIZE) <==> w == r + PIPESIZE
  {
  }

  class Pipe {
    const data: array<Byte>
    var nread: nat
    var nwrite: nat
    var readOpen: bool
    var writeOpen: bool
    ghost var sent: seq<Byte>
    ghost var received: seq<Byte>

    /** What has been read is the beginning of what has been written, and the rest is in the ring. */
    ghost predicate Valid()
      reads this, data
    {
      && data.Length == PIPESIZE
      && nwrite == |sent| % WRAP && nread == |received| % WRAP
      && received <= sent && |sent| <= |received| + PIPESIZE
      && forall i {:trigger sent[i]} :: |received| <= i < |sent| ==> data[Place(i)] == sent[i]
    }

    constructor ()
      ensures Valid() && sent == [] && received == [] && readOpen && writeOpen && fresh(data)
    {
      data := new Byte[PIPESIZE];
      nread, nwrite, readOpen, writeOpen := 0, 0, true, true;
      sent, received := [], [];
    }

    method IsFull() returns (full: bool)
      requires Valid()
      ensures full <==> |sent| == |received| + 512
    {
      Distance(|sent|, |received|);
      full := nwrite == Plus(nread, PIPESIZE);
    }

    method IsEmpty() returns (empty: bool)
      requires Valid()
      ensures empty <==> sent == received
    {
      Distance(|sent|, |received|);
      empty := nread == nwrite;
    }

    /** The byte goes to the end of the stream; the place it takes held nothing still to be read. */
    method Put(b: Byte)
      requires Valid() && |sent| < |received| + PIPESIZE
      modifies this`nwrite, this`sent, data
      ensures Valid() && sent == old(sent) + [b]
    {
      hide Place, Plus;
      SamePlace(|sent|);
      Advanced(|sent|);
      forall i | |received| <= i < |sent| ensures Place(i) != Place(|sent|) {
        Apart(i, |sent|);
      }
      data[Place(nwrite)] := b;
      nwrite := Plus(nwrite, 1);
      sent := sent + [b];
    }

    method Get() returns (b: Byte)
      requires Valid() && received != sent
      modifies this`nread, this`received
      ensures Valid() && received == old(received) + [b]
    {
      hide Place, Plus;
      SamePlace(|received|);
      Advanced(|received|);
      b := data[Place(nread)];
      assert sent[|received|] == b;
      nread := Plus(nread, 1);
      received := received + [b];
    }

    /** The loop of pipewrite() from byte `i` until the bytes or the room run out. */
    method CopyIn(addr: seq<Byte>, i: nat) returns (j: nat)
      requires Valid() && i <= |addr|
      modifies this`nwrite, this`sent, data
      ensures Valid() && i <= j <= |addr| && sent == old(sent) + addr[i..j]
      ensures j == |addr| || |sent| == |received| + 512
    {
      j := i;
      while j < |addr|
        invariant Valid() && i <= j <= |addr| && sent == old(sent) + addr[i..j]
      {
        hide Place;
        var full := IsFull();
        if full {
          return;
        }
        Put(addr[j]);
        j := j + 1;
      }
    }

    /** The copy loop of piperead(): the oldest bytes, as many as are asked for and there. */
    method CopyOut(n: nat) returns (out: seq<Byte>)
      requires Valid()
      modifies this`nread, this`received
      ensures Valid() && received == old(received) + out && received <= sent
      ensures |out| == if n < |sent| - |old(received)| then n else |sent| - |old(received)|
    {
      out := [];
      while |out| < n
        invariant Valid() && |out| <= n && received == old(received) + out
      {
        hide Place;
        var empty := IsEmpty();
        if empty {
          return;
        }
        var b := Get();
        out := out + [b];
      }
    }

    /** pipecanwrite(): it never reports room that is not there, and misses room that is exactly while the reader's
        limit has wrapped around and the writer has not. */
    method CanWrite() returns (r: bool)
      requires Valid()
      ensures r ==> |sent| < |received| + 512
      ensures (r <==> |sent| < |received| + 512) <==> !LimitWrapped(|sent|, |received|)
    {
      ReportsRoom(|sent|, |received|);
      r := nwrite < Plus(nread, PIPESIZE);
    }

    /** Whether pipecanread() reports that a read would not block. */
    method CanRead() returns (r: bool)
      requires Valid()
      ensures r <==> received != sent || !writeOpen
    {
      Distance(|sent|, |received|);
      r := nwrite != nread || !writeOpen;
    }
  }

  /** The comparison pipecanwrite() makes. */
  ghost predicate Reports(w: nat, r: nat) {
    w % WRAP < Plus(r % WRAP, PIPESIZE)
  }

  /** The reader's counter is within PIPESIZE of the end of its range, and the writer's is still above it. */
  predicate LimitWrapped(w: nat, r: nat) {
    r % WRAP + PIPESIZE >= WRAP && w % WRAP >= r % WRAP
  }

  /** The comparison is right except while the reader's limit has wrapped around and the writer has not: then there
      is room and it reports none. */
  lemma ReportsRoom(w: nat, r: nat)
    requires r <= w <= r + PIPESIZE
    ensures (Reports(w, r) <==> w < r + PIPESIZE) <==> !LimitWrapped(w, r)
    ensures LimitWrapped(w, r) ==> w < r + PIPESIZE && !Reports(w, r)
  {
    var x, n := r % WRAP, w - r;
    assert w % WRAP == (x + n) % WRAP;
    if x + n < WRAP {
      assert w % WRAP == x + n;
    } else {
      assert w % WRAP == x + n - WRAP;
    }
    if x + PIPESIZE < WRAP {
      assert Plus(x, PIPESIZE) == x + PIPESIZE;
    } else {
      assert Plus(x, PIPESIZE) == x + PIPESIZE - WRAP;
    }
  }

  /** One byte in the pipe, 4 GiB into the stream, and it is reported full. */
  lemma ReportsFullWhenAlmostEmpty()
    ensures !Reports(WRAP - 1, WRAP - 2)
  {
  }
}
