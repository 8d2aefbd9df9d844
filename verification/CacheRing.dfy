/** The next/prev pointers of the LRU ring, with the list head as one more node. */
module CacheRing {
  import opened CacheModel

  const HEAD: int := NBUF

  predicate Node(b: int) {
    0 <= b <= NBUF
  }

  function At(ring: seq<int>, k: int): int {
    if 0 <= k < |ring| then ring[k] else HEAD
  }

  ghost predicate Members(ring: seq<int>) {
    && (forall k :: 0 <= k < |ring| ==> 0 <= ring[k] < NBUF)
    && (forall j, k :: 0 <= j < k < |ring| ==> ring[j] != ring[k])
  }

  /** Following next from the head visits the ring in order and returns to the head. */
  ghost predicate Forward(next: seq<int>, ring: seq<int>)
    requires |next| == NBUF + 1 && Members(ring)
  {
    && next[HEAD] == At(ring, 0)
    && (forall k {:trigger next[ring[k]]} :: 0 <= k < |ring| ==> next[ring[k]] == At(ring, k + 1))
  }

  ghost predicate Backward(prev: seq<int>, ring: seq<int>)
    requires |prev| == NBUF + 1 && Members(ring)
  {
    && prev[HEAD] == At(ring, |ring| - 1)
    && (forall k {:trigger prev[ring[k]]} :: 0 <= k < |ring| ==> prev[ring[k]] == At(ring, k - 1))
  }

  ghost predicate Linked(next: seq<int>, prev: seq<int>, ring: seq<int>)
    requires |next| == |prev| == NBUF + 1
  {
    Members(ring) && Forward(next, ring) && Backward(prev, ring)
  }

  function Without(ring: seq<int>, p: nat): seq<int>
    requires p < |ring|
  {
    ring[..p] + ring[p + 1..]
  }

  lemma WithoutMembers(ring: seq<int>, p: nat)
    requires Members(ring) && p < |ring|
    ensures Members(Without(ring, p)) && ring[p] !in Without(ring, p)
    ensures forall k :: -1 <= k <= |ring| ==> -1 <= At(ring, k) <= NBUF
  {
  }

  lemma ForwardSkips(next: seq<int>, ring: seq<int>, p: nat)
    requires |next| == NBUF + 1 && Members(ring) && Forward(next, ring) && p < |ring| && Members(Without(ring, p))
    ensures Node(At(ring, p - 1)) && Forward(next[At(ring, p - 1) := At(ring, p + 1)], Without(ring, p))
  {
    var r := Without(ring, p);
    forall k | 0 <= k < |r| ensures next[At(ring, p - 1) := At(ring, p + 1)][r[k]] == At(r, k + 1) {
      var i := if k < p then k else k + 1;
      assert r[k] == ring[i] && next[ring[i]] == At(ring, i + 1);
    }
  }

  lemma BackwardSkips(prev: seq<int>, ring: seq<int>, p: nat)
    requires |prev| == NBUF + 1 && Members(ring) && Backward(prev, ring) && p < |ring| && Members(Without(ring, p))
    ensures Node(At(ring, p + 1)) && Backward(prev[At(ring, p + 1) := At(ring, p - 1)], Without(ring, p))
  {
    var r := Without(ring, p);
    forall k | 0 <= k < |r| ensures prev[At(ring, p + 1) := At(ring, p - 1)][r[k]] == At(r, k - 1) {
      var i := if k < p then k else k + 1;
      assert r[k] == ring[i] && prev[ring[i]] == At(ring, i - 1);
    }
  }

  /** b->next->prev = b->prev; b->prev->next = b->next. */
  lemma UnlinkLinked(next: seq<int>, prev: seq<int>, ring: seq<int>, p: nat)
    requires |next| == |prev| == NBUF + 1 && Linked(next, prev, ring) && p < |ring|
    ensures Node(next[ring[p]]) && Node(prev[ring[p]])
    ensures Linked(next[prev[ring[p]] := next[ring[p]]], prev[next[ring[p]] := prev[ring[p]]], Without(ring, p))
  {
    assert next[ring[p]] == At(ring, p + 1) && prev[ring[p]] == At(ring, p - 1);
    hide Forward, Backward, At, Without;
    WithoutMembers(ring, p);
    ForwardSkips(next, ring, p);
    BackwardSkips(prev, ring, p);
  }

  lemma ForwardPush(next: seq<int>, ring: seq<int>, b: int)
    requires |next| == NBUF + 1 && Members(ring) && Forward(next, ring) && Index(b) && b !in ring && Members([b] + ring)
    ensures Forward(next[b := next[HEAD]][HEAD := b], [b] + ring)
  {
    var r := [b] + ring;
    forall k | 0 <= k < |r| ensures next[b := next[HEAD]][HEAD := b][r[k]] == At(r, k + 1) {
      if k > 0 { assert next[ring[k - 1]] == At(ring, k); }
    }
  }

  lemma BackwardPush(prev: seq<int>, ring: seq<int>, b: int)
    requires |prev| == NBUF + 1 && Members(ring) && Backward(prev, ring) && Index(b) && b !in ring && Members([b] + ring)
    ensures Node(At(ring, 0)) && Backward(prev[b := HEAD][At(ring, 0) := b], [b] + ring)
  {
    var r := [b] + ring;
    forall k | 0 <= k < |r| ensures prev[b := HEAD][At(ring, 0) := b][r[k]] == At(r, k - 1) {
      if k > 0 {
        assert prev[ring[k - 1]] == At(ring, k - 2);
        BackwardPushAt(prev, ring, b, k);
      }
    }
  }

  lemma BackwardPushAt(prev: seq<int>, ring: seq<int>, b: int, k: int)
    requires |prev| == NBUF + 1 && Members(ring) && Index(b) && b !in ring && 0 < k <= |ring|
    requires prev[ring[k - 1]] == At(ring, k - 2)
    ensures prev[b := HEAD][At(ring, 0) := b][([b] + ring)[k]] == At([b] + ring, k - 1)
  {
    assert ring[k - 1] in ring;
  }

  /** Insert b between the head and the first buffer. */
  lemma PushLinked(next: seq<int>, prev: seq<int>, ring: seq<int>, b: int)
    requires |next| == |prev| == NBUF + 1 && Linked(next, prev, ring) && Index(b) && b !in ring
    ensures Node(next[HEAD])
    ensures Linked(next[b := next[HEAD]][HEAD := b], prev[b := HEAD][next[HEAD] := b], [b] + ring)
  {
    assert Members([b] + ring);
    assert next[HEAD] == At(ring, 0);
    hide Forward, Backward, At, Members;
    ForwardPush(next, ring, b);
    BackwardPush(prev, ring, b);
  }
}
