/** A circular doubly linked list threaded through index arrays, as the buffer cache threads it through
    the prev and next pointers of its buffers. `ring` lists the members from the head on. */
module Ring {
  ghost predicate Distinct(ring: seq<nat>) {
    forall i, j :: 0 <= i < j < |ring| ==> ring[i] != ring[j]
  }

  function Succ(ring: seq<nat>, i: nat): (j: nat)
    requires i < |ring|
    ensures j < |ring|
  {
    if i + 1 < |ring| then i + 1 else 0
  }

  ghost predicate IsRing(next: seq<nat>, prev: seq<nat>, ring: seq<nat>) {
    && |next| == |prev| && ring != [] && Distinct(ring)
    && (forall i :: 0 <= i < |ring| ==> ring[i] < |next|)
    && (forall i: nat {:trigger Succ(ring, i)} :: i < |ring| ==>
          next[ring[i]] == ring[Succ(ring, i)] && prev[ring[Succ(ring, i)]] == ring[i])
  }

  function Without(ring: seq<nat>, k: nat): seq<nat>
    requires k < |ring|
  {
    ring[..k] + ring[k + 1..]
  }

  function Second(ring: seq<nat>, b: nat): seq<nat>
    requires ring != []
  {
    [ring[0], b] + ring[1..]
  }

  /** Joining the two neighbours of an element takes it out of the ring. */
  lemma Unlinked(next: seq<nat>, prev: seq<nat>, ring: seq<nat>, k: nat)
    requires IsRing(next, prev, ring) && 0 < k < |ring|
    ensures next[ring[k]] < |next| && prev[ring[k]] < |next|
    ensures IsRing(next[prev[ring[k]] := next[ring[k]]], prev[next[ring[k]] := prev[ring[k]]], Without(ring, k))
  {
    var b := ring[k];
    assert Succ(ring, k - 1) == k && prev[b] == ring[k - 1];
    assert next[b] == ring[Succ(ring, k)];
    var next' := next[prev[b] := next[b]];
    var prev' := prev[next[b] := prev[b]];
    var rest := Without(ring, k);
    forall i: nat | i < |rest|
      ensures next'[rest[i]] == rest[Succ(rest, i)] && prev'[rest[Succ(rest, i)]] == rest[i]
    {
      var at := if i < k then i else i + 1;
      assert rest[i] == ring[at];
      assert Succ(ring, at) < |ring|;
      if at == k - 1 {
        assert Succ(ring, k) < |ring|;
        assert rest[Succ(rest, i)] == ring[Succ(ring, k)];
      } else {
        assert rest[Succ(rest, i)] == ring[Succ(ring, at)];
      }
    }
  }

  lemma MovedFirst(ring: seq<nat>, k: nat)
    requires Distinct(ring) && 0 < k < |ring|
    ensures |Without(ring, k)| == |ring| - 1 && Without(ring, k)[0] == ring[0] && ring[k] !in Without(ring, k)
    ensures |Second(Without(ring, k), ring[k])| == |ring| && Second(Without(ring, k), ring[k])[0] == ring[0]
    ensures Second(Without(ring, k), ring[k])[1..] == [ring[k]] + ring[1..][..k - 1] + ring[1..][k..]
  {
  }

  /** Putting b between the head and what follows it. */
  lemma Inserted(next: seq<nat>, prev: seq<nat>, ring: seq<nat>, b: nat)
    requires IsRing(next, prev, ring) && b < |next| && b !in ring
    ensures next[ring[0]] < |next|
    ensures IsRing(next[b := next[ring[0]]][ring[0] := b], prev[b := ring[0]][next[ring[0]] := b], Second(ring, b))
  {
    var head := ring[0];
    assert next[head] == ring[Succ(ring, 0)];
    var next' := next[b := next[head]][head := b];
    var prev' := prev[b := head][next[head] := b];
    var more := Second(ring, b);
    forall i, j | 0 <= i < j < |more| ensures more[i] != more[j] {
      assert more[j] == if j == 1 then b else ring[j - 1];
      assert more[i] == if i == 0 then head else if i == 1 then b else ring[i - 1];
    }
    forall i: nat | i < |more|
      ensures next'[more[i]] == more[Succ(more, i)] && prev'[more[Succ(more, i)]] == more[i]
    {
      if i == 0 {
      } else if i == 1 {
        assert more[Succ(more, 1)] == ring[Succ(ring, 0)];
      } else {
        assert more[i] == ring[i - 1];
        assert more[Succ(more, i)] == ring[Succ(ring, i - 1)];
        assert ring[Succ(ring, i - 1)] != ring[Succ(ring, 0)];
      }
    }
  }

  /** Every index that is a member of a full ring has a place in it. */
  lemma {:induction false} PlaceInFull(ring: seq<nat>, n: nat, b: nat)
    requires Distinct(ring) && |ring| == n && (forall i :: 0 <= i < n ==> ring[i] < n) && b < n
    ensures b in ring
  {
    if b !in ring {
      SizeOfDistinct(ring);
      SubsetSize(Elements(ring), UpTo(n) - {b});
    }
  }

  ghost function Elements(s: seq<nat>): (r: set<nat>)
    ensures forall x :: x in r <==> x in s
  {
    if s == [] then {} else Elements(s[..|s| - 1]) + {s[|s| - 1]}
  }

  lemma {:induction false} SizeOfDistinct(s: seq<nat>)
    requires Distinct(s)
    ensures |Elements(s)| == |s|
  {
    if s != [] {
      SizeOfDistinct(s[..|s| - 1]);
      assert s[|s| - 1] !in s[..|s| - 1];
    }
  }

  ghost function UpTo(n: nat): (r: set<nat>)
    ensures |r| == n && forall x :: x in r <==> 0 <= x < n
  {
    if n == 0 then {} else UpTo(n - 1) + {n - 1}
  }

  lemma {:induction false} SubsetSize<T>(a: set<T>, b: set<T>)
    requires a <= b
    ensures |a| <= |b|
  {
    if a != {} {
      var x :| x in a;
      SubsetSize(a - {x}, b - {x});
    }
  }
}
