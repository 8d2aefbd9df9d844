/** The free list of umalloc.c as a value: free blocks in address order, never touching, counted in
    units of one header.  `base` lies below them all and is not listed. */
module FreeList {

  const BASE: int := 0

  datatype Blk = Blk(addr: int, size: int)

  function End(b: Blk): int {
    b.addr + b.size
  }

  predicate Has(b: Blk, u: int) {
    b.addr <= u < End(b)
  }

  /** In address order above base, nonempty, with a gap between any two: nothing is left to
      coalesce. */
  ghost predicate Coalesced(l: seq<Blk>) {
    && (forall k :: 0 <= k < |l| ==> l[k].addr > BASE && l[k].size >= 1)
    && (forall j, k :: 0 <= j < k < |l| ==> End(l[j]) < l[k].addr)
  }

  ghost predicate Covers(l: seq<Blk>, u: int) {
    exists k :: 0 <= k < |l| && Has(l[k], u)
  }

  ghost predicate Apart(l: seq<Blk>, b: Blk) {
    forall k :: 0 <= k < |l| ==> End(l[k]) <= b.addr || End(b) <= l[k].addr
  }

  /** How many blocks lie below address a, counting from k. */
  function Place(l: seq<Blk>, a: int, k: nat): (r: nat)
    requires k <= |l|
    ensures k <= r <= |l|
    ensures forall j :: k <= j < r ==> l[j].addr < a
    ensures r < |l| ==> l[r].addr >= a
    decreases |l| - k
  {
    if k == |l| || l[k].addr >= a then k else Place(l, a, k + 1)
  }

  /** Put block b at position k, joined to whichever neighbours it touches. */
  function JoinAt(l: seq<Blk>, k: nat, b: Blk): seq<Blk>
    requires k <= |l|
  {
    var up := k < |l| && End(b) == l[k].addr;
    var down := k > 0 && End(l[k - 1]) == b.addr;
    var start := if down then l[k - 1].addr else b.addr;
    var end := if up then End(l[k]) else End(b);
    l[..if down then k - 1 else k] + [Blk(start, end - start)] + l[if up then k + 1 else k..]
  }

  function FreeInto(l: seq<Blk>, b: Blk): seq<Blk> {
    JoinAt(l, Place(l, b.addr, 0), b)
  }

  /** Give n units off the end of block k, or all of it. */
  function TakeFrom(l: seq<Blk>, k: nat, n: int): seq<Blk>
    requires k < |l|
  {
    if l[k].size == n then l[..k] + l[k + 1..] else l[k := Blk(l[k].addr, l[k].size - n)]
  }

  function Taken(l: seq<Blk>, k: nat, n: int): Blk
    requires k < |l|
  {
    Blk(End(l[k]) - n, n)
  }

  /** Freeing a block that is apart from the free ones leaves a coalesced list that covers what it
      covered before and the block, no more and no less. */
  lemma FreeIntoExact(l: seq<Blk>, b: Blk)
    requires Coalesced(l) && b.size >= 1 && b.addr > BASE && Apart(l, b)
    ensures Coalesced(FreeInto(l, b))
    ensures forall u :: Covers(FreeInto(l, b), u) <==> Covers(l, u) || Has(b, u)
  {
    var k := Place(l, b.addr, 0);
    assert k < |l| ==> End(b) <= l[k].addr;
    assert k > 0 ==> End(l[k - 1]) <= b.addr;
    JoinAtSorted(l, k, b);
    forall u ensures Covers(FreeInto(l, b), u) <==> Covers(l, u) || Has(b, u) {
      JoinAtCovers(l, k, b, u);
    }
  }

  lemma JoinAtSorted(l: seq<Blk>, k: nat, b: Blk)
    requires Coalesced(l) && b.size >= 1 && b.addr > BASE && k <= |l|
    requires k < |l| ==> End(b) <= l[k].addr
    requires k > 0 ==> End(l[k - 1]) <= b.addr
    ensures Coalesced(JoinAt(l, k, b))
  {
    var up := k < |l| && End(b) == l[k].addr;
    var down := k > 0 && End(l[k - 1]) == b.addr;
    var start := if down then l[k - 1].addr else b.addr;
    var end := if up then End(l[k]) else End(b);
    var m, d := if down then k - 1 else k, if up then k + 1 else k;
    if k > 0 { Neighbours(l, k - 1); }
    if k < |l| { Neighbours(l, k); }
    JoinAtIs(l, k, b, m, d, Blk(start, end - start));
    hide Coalesced, JoinAt;
    SplicedSorted(l, m, d, Blk(start, end - start));
  }

  lemma JoinAtIs(l: seq<Blk>, k: nat, b: Blk, m: nat, d: nat, x: Blk)
    requires k <= |l|
    requires m == (if k > 0 && End(l[k - 1]) == b.addr then k - 1 else k)
    requires d == (if k < |l| && End(b) == l[k].addr then k + 1 else k)
    requires x.addr == (if m < k then l[k - 1].addr else b.addr) && End(x) == (if d > k then End(l[k]) else End(b))
    ensures JoinAt(l, k, b) == l[..m] + [x] + l[d..]
  {
  }

  lemma Neighbours(l: seq<Blk>, k: nat)
    requires Coalesced(l) && k < |l|
    ensures l[k].addr > BASE && l[k].size >= 1
    ensures (k > 0 ==> End(l[k - 1]) < l[k].addr) && (k + 1 < |l| ==> End(l[k]) < l[k + 1].addr)
  {
  }

  lemma SplicedSorted(l: seq<Blk>, m: nat, d: nat, x: Blk)
    requires Coalesced(l) && m <= d <= |l| && x.addr > BASE && x.size >= 1
    requires (m > 0 ==> End(l[m - 1]) < x.addr) && (d < |l| ==> End(x) < l[d].addr)
    ensures Coalesced(l[..m] + [x] + l[d..])
  {
    var r := l[..m] + [x] + l[d..];
    SplicedOf(l, m, d, x, r);
  }

  lemma SplicedOf(l: seq<Blk>, m: nat, d: nat, x: Blk, r: seq<Blk>)
    requires Coalesced(l) && m <= d <= |l| && x.addr > BASE && x.size >= 1
    requires (m > 0 ==> End(l[m - 1]) < x.addr) && (d < |l| ==> End(x) < l[d].addr)
    requires |r| == m + 1 + |l| - d
    requires r[m] == x && forall i :: 0 <= i < m ==> r[i] == l[i]
    requires forall i :: m < i < |r| ==> r[i] == l[i - m - 1 + d]
    ensures Coalesced(r)
  {
    forall i | 0 <= i < |r| ensures r[i].addr > BASE && r[i].size >= 1 {
      if i > m { assert r[i] == l[i - m - 1 + d]; }
    }
    forall i, j | 0 <= i < j < |r| ensures End(r[i]) < r[j].addr {
      if j > m {
        var b := l[j - m - 1 + d];
        assert r[j] == b && (j > m + 1 ==> End(l[d]) < b.addr);
        if i > m { assert r[i] == l[i - m - 1 + d]; }
        if i < m { assert End(l[i]) < b.addr; }
      } else {
        assert i < m - 1 ==> End(l[i]) < l[m - 1].addr;
      }
    }
  }

  lemma CoversConcat(a: seq<Blk>, b: seq<Blk>, u: int)
    ensures Covers(a + b, u) <==> Covers(a, u) || Covers(b, u)
  {
    var r := a + b;
    if k :| 0 <= k < |a| && Has(a[k], u) { assert r[k] == a[k]; }
    if k :| 0 <= k < |b| && Has(b[k], u) { assert r[|a| + k] == b[k]; }
  }

  lemma CoversOne(b: Blk, u: int)
    ensures Covers([b], u) <==> Has(b, u)
  {
    assert [b][0] == b;
  }

  /** l covers what its front, middle and back cover. */
  lemma CoversParts(l: seq<Blk>, m: nat, d: nat, u: int)
    requires m <= d <= |l|
    ensures Covers(l, u) <==> Covers(l[..m], u) || Covers(l[m..d], u) || Covers(l[d..], u)
  {
    assert l == (l[..m] + l[m..d]) + l[d..];
    CoversConcat(l[..m] + l[m..d], l[d..], u);
    CoversConcat(l[..m], l[m..d], u);
  }

  lemma JoinAtCovers(l: seq<Blk>, k: nat, b: Blk, u: int)
    requires Coalesced(l) && k <= |l| && b.size >= 1
    requires k < |l| ==> End(b) <= l[k].addr
    requires k > 0 ==> End(l[k - 1]) <= b.addr
    ensures Covers(JoinAt(l, k, b), u) <==> Covers(l, u) || Has(b, u)
  {
    var down := k > 0 && End(l[k - 1]) == b.addr;
    var up := k < |l| && End(b) == l[k].addr;
    var m, d := if down then k - 1 else k, if up then k + 1 else k;
    var x := JoinAt(l, k, b)[m];
    CoversParts(l, m, d, u);
    CoversConcat(l[..m] + [x], l[d..], u);
    CoversConcat(l[..m], [x], u);
    CoversOne(x, u);
    MiddleCovers(l, m, d, u);
    hide Covers;
    hide Coalesced;
  }

  lemma MiddleCovers(l: seq<Blk>, m: nat, d: nat, u: int)
    requires m <= d <= |l| && d <= m + 2
    ensures Covers(l[m..d], u) <==> (m < d && Has(l[m], u)) || (m + 1 < d && Has(l[m + 1], u))
  {
    var q := l[m..d];
    assert m < d ==> q[0] == l[m];
    assert m + 1 < d ==> q[1] == l[m + 1];
  }

  /** Taking n units moves exactly the taken block from the free units. */
  lemma TakeFromExact(l: seq<Blk>, k: nat, n: int)
    requires Coalesced(l) && k < |l| && 1 <= n <= l[k].size
    ensures Coalesced(TakeFrom(l, k, n)) && Taken(l, k, n).addr > BASE
    ensures forall u :: Covers(l, u) <==> Covers(TakeFrom(l, k, n), u) || Has(Taken(l, k, n), u)
    ensures forall u :: !(Covers(TakeFrom(l, k, n), u) && Has(Taken(l, k, n), u))
  {
    var t := Taken(l, k, n);
    forall u
      ensures Covers(l, u) <==> Covers(TakeFrom(l, k, n), u) || Has(t, u)
      ensures !(Covers(TakeFrom(l, k, n), u) && Has(t, u))
    {
      TakeFromCovers(l, k, n, u);
    }
  }

  lemma TakeFromCovers(l: seq<Blk>, k: nat, n: int, u: int)
    requires Coalesced(l) && k < |l| && 1 <= n <= l[k].size
    ensures Covers(l, u) <==> Covers(TakeFrom(l, k, n), u) || Has(Taken(l, k, n), u)
    ensures !(Covers(TakeFrom(l, k, n), u) && Has(Taken(l, k, n), u))
  {
    var x := Blk(l[k].addr, l[k].size - n);
    CoversParts(l, k, k + 1, u);
    MiddleCovers(l, k, k + 1, u);
    if Has(l[k], u) { OthersApart(l, k, u); }
    if l[k].size == n {
      CoversConcat(l[..k], l[k + 1..], u);
    } else {
      assert l[k := x] == l[..k] + [x] + l[k + 1..];
      CoversConcat(l[..k] + [x], l[k + 1..], u);
      CoversConcat(l[..k], [x], u);
      CoversOne(x, u);
    }
    hide Covers;
    hide Coalesced;
  }

  lemma OthersApart(l: seq<Blk>, k: nat, u: int)
    requires Coalesced(l) && k < |l| && Has(l[k], u)
    ensures !Covers(l[..k], u) && !Covers(l[k + 1..], u)
  {
  }
}
