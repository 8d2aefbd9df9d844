/** pipe.c: a 512-byte ring with unsigned 32-bit counters that wrap around.  A call runs from one
    sleep to the next under the pipe's lock, so each such stretch is one method call; any number
    of readers and writers may take turns. */
module Pipe {

  const PIPESIZE: int := 512
  const UINT: int := 0x1_0000_0000

  /** How a stretch of pipewrite or piperead ends: the call returns, or it returns -1, or it goes to
      sleep and will be resumed. */
  datatype Outcome = Done | Failed | Sleeps

  function Min(a: int, b: int): int {
    if a < b then a else b
  }

  /** With r bytes read and w written in all, and at most PIPESIZE in between, the wrapped counters
      tell an empty pipe, a full one and the number of bytes in it. */
  lemma CountersTell(r: nat, w: nat)
    requires r <= w <= r + PIPESIZE
    ensures r % UINT == w % UINT <==> r == w
    ensures w % UINT == (r % UINT + PIPESIZE) % UINT <==> w == r + PIPESIZE
    ensures (w % UINT - r % UINT) % UINT == w - r
  {
    var q := r / UINT;
    assert r == q * UINT + r % UINT;
    var d := w - r;
    if r % UINT + d < UINT {
      ModIs(w, q, r % UINT + d);
      ModIs(d, 0, d);
    } else {
      ModIs(w, q + 1, r % UINT + d - UINT);
      ModIs(r % UINT + d, 1, r % UINT + d - UINT);
      ModIs(w % UINT - r % UINT, -1, d);
    }
    if r % UINT + PIPESIZE < UINT {
      ModIs(r % UINT + PIPESIZE, 0, r % UINT + PIPESIZE);
    } else {
      ModIs(r % UINT + PIPESIZE, 1, r % UINT + PIPESIZE - UINT);
    }
    if r % UINT + d < UINT { ModIs(w % UINT - r % UINT, 0, d); }
  }

  lemma ModIs(x: int, q: int, m: int)
    requires x == q * UINT + m && 0 <= m < UINT
    ensures x % UINT == m
  {
  }

  /** PIPESIZE divides the range of the counters, so a wrapped counter still points at the slot of
      the byte it counts. */
  lemma SlotOfCounter(k: nat)
    ensures (k % UINT) % PIPESIZE == k % PIPESIZE
    ensures (k % UINT + 1) % UINT == (k + 1) % UINT
  {
    var q := k / UINT;
    assert k == q * UINT + k % UINT;
    assert UINT == 8388608 * PIPESIZE;
    assert k == (q * 8388608) * PIPESIZE + k % UINT;
    SlotIs(k, q * 8388608, k % UINT);
    if k % UINT + 1 < UINT {
      ModIs(k + 1, q, k % UINT + 1);
    } else {
      ModIs(k + 1, q + 1, 0);
    }
  }

  lemma SlotIs(k: nat, q: nat, m: nat)
    requires k == q * PIPESIZE + m
    ensures k % PIPESIZE == m % PIPESIZE
  {
    var a, b := m / PIPESIZE, m % PIPESIZE;
    assert k == (q + a) * PIPESIZE + b;
  }

  /** Bytes less than a ring apart are in different slots. */
  lemma SlotsDiffer(j: nat, k: nat)
    requires j < k < j + PIPESIZE
    ensures j % PIPESIZE != k % PIPESIZE
  {
    var q := j / PIPESIZE;
    assert j == q * PIPESIZE + j % PIPESIZE;
  }

  class Pipe {
    const data: array<int>
    var nread: int
    var nwrite: int
    var readopen: bool
    var writeopen: bool
    /** All bytes accepted from writers and all bytes given to readers, in order. */
    ghost var accepted: seq<int>
    ghost var delivered: seq<int>

    /** First in, first out: the bytes delivered are the first ones accepted, at most PIPESIZE more
        have been accepted, and those lie in their slots of the ring. */
    ghost predicate Valid()
      reads this, data
    {
      && data.Length == PIPESIZE
      && delivered <= accepted && |accepted| <= |delivered| + PIPESIZE
      && nread == |delivered| % UINT && nwrite == |accepted| % UINT
      && (forall k :: |delivered| <= k < |accepted| ==> data[k % PIPESIZE] == accepted[k])
    }

    constructor ()
      ensures Valid() && accepted == [] && delivered == [] && readopen && writeopen && fresh(data)
    {
      data := new int[PIPESIZE];
      nread, nwrite, readopen, writeopen := 0, 0, true, true;
      accepted, delivered := [], [];
    }

    /** p->data[p->nwrite++ % PIPESIZE] = b. */
    method Put(b: int)
      requires Valid() && |accepted| < |delivered| + PIPESIZE
      modifies this`nwrite, this`accepted, data
      ensures Valid() && accepted == old(accepted) + [b] && delivered == old(delivered)
    {
      SlotOfCounter(|accepted|);
      data[nwrite % PIPESIZE] := b;
      nwrite := (nwrite + 1) % UINT;
      accepted := accepted + [b];
      forall k | |delivered| <= k < |accepted| ensures data[k % PIPESIZE] == accepted[k] {
        if k < |accepted| - 1 { SlotsDiffer(k, |accepted| - 1); }
      }
    }

    /** pipewrite from byte i on, up to its return or its next sleep: the bytes it takes are the next
        ones of the caller's, and it stops early only on a full pipe. */
    method Write(addr: seq<int>, i: nat, killed: bool) returns (j: nat, outcome: Outcome)
      requires Valid() && i <= |addr|
      modifies this`nwrite, this`accepted, data
      ensures Valid() && i <= j <= |addr|
      ensures accepted == old(accepted) + addr[i..j] && delivered == old(delivered)
      ensures outcome.Done? <==> j == |addr|
      ensures !outcome.Done? ==> |accepted| == |delivered| + PIPESIZE
      ensures outcome.Failed? <==> !outcome.Done? && (!readopen || killed)
    {
      j := i;
      while j < |addr|
        invariant i <= j <= |addr| && Valid() && accepted == old(accepted) + addr[i..j] && delivered == old(delivered)
      {
        CountersTell(|delivered|, |accepted|);
        if nwrite == (nread + PIPESIZE) % UINT {
          if !readopen || killed {
            return j, Failed;
          }
          return j, Sleeps;
        }
        Put(addr[j]);
        assert old(accepted) + addr[i..j] + [addr[j]] == old(accepted) + addr[i..j + 1];
        j := j + 1;
      }
      return j, Done;
    }

    /** piperead up to its return or its next sleep: it sleeps or fails only on an empty pipe that
        may still be written, and otherwise delivers the next bytes, as many as it can. */
    method Read(n: int, killed: bool) returns (addr: seq<int>, outcome: Outcome)
      requires Valid()
      modifies this`nread, this`delivered
      ensures Valid() && accepted == old(accepted) && delivered == old(delivered) + addr
      ensures !outcome.Done? <==> old(delivered) == accepted && writeopen
      ensures outcome.Failed? <==> !outcome.Done? && killed
      ensures |addr| == if outcome.Done? && n > 0 then Min(n, |accepted| - |old(delivered)|) else 0
    {
      addr := [];
      CountersTell(|delivered|, |accepted|);
      if nread == nwrite && writeopen {
        return addr, if killed then Failed else Sleeps;
      }
      while |addr| < n
        invariant Valid() && accepted == old(accepted) && delivered == old(delivered) + addr
        invariant |addr| <= if n > 0 then n else 0
      {
        CountersTell(|delivered|, |accepted|);
        if nread == nwrite { break; }
        SlotOfCounter(|delivered|);
        addr := addr + [data[nread % PIPESIZE]];
        delivered := delivered + [data[nread % PIPESIZE]];
        nread := (nread + 1) % UINT;
      }
      outcome := Done;
    }

    /** pipeclose; true if both ends are closed now and the pipe is freed. */
    method Close(writable: bool) returns (freed: bool)
      requires Valid()
      modifies this`readopen, this`writeopen
      ensures Valid() && writeopen == (old(writeopen) && !writable) && readopen == (old(readopen) && writable)
      ensures freed == (!readopen && !writeopen)
    {
      if writable {
        writeopen := false;
      } else {
        readopen := false;
      }
      freed := !readopen && !writeopen;
    }
  }

  // ----- many readers and writers

  datatype Turn = WriterTurn(w: nat, killed: bool) | ReaderTurn(n: int, killed: bool) | CloseTurn(writable: bool)

  /** The bytes that came from writer w. */
  function From(bytes: seq<int>, source: seq<nat>, w: nat): seq<int>
    requires |bytes| == |source|
  {
    if bytes == [] then []
    else
      var n := |bytes| - 1;
      From(bytes[..n], source[..n], w) + if source[n] == w then [bytes[n]] else []
  }

  lemma {:induction false} FromAppend(bytes: seq<int>, source: seq<nat>, more: seq<int>, v: nat, w: nat)
    requires |bytes| == |source|
    ensures From(bytes + more, source + seq(|more|, _ => v), w) == From(bytes, source, w) + if v == w then more else []
  {
    var b, s := bytes + more, source + seq(|more|, _ => v);
    if more == [] {
      assert b == bytes && s == source;
    } else {
      var m := |more| - 1;
      FromAppend(bytes, source, more[..m], v, w);
      assert b[..|b| - 1] == bytes + more[..m] && s[..|b| - 1] == source + seq(m, _ => v);
      assert more == more[..m] + [more[m]];
    }
  }

  /** Whatever turns readers and writers take, what is read is a prefix of what was written, and each
      writer's bytes are in it in order, from the first to where the writer has got to: none is
      lost, repeated or overtaken by a later one of the same writer. */
  method Session(p: Pipe, msgs: seq<seq<int>>, turns: seq<Turn>)
    returns (received: seq<int>, pos: seq<nat>, ghost source: seq<nat>)
    requires p.Valid() && p.accepted == [] && p.delivered == []
    requires forall t :: t in turns && t.WriterTurn? ==> t.w < |msgs|
    modifies p, p.data
    ensures p.Valid() && received == p.delivered && received <= p.accepted
    ensures |pos| == |msgs| && |source| == |p.accepted| && forall k :: 0 <= k < |source| ==> source[k] < |msgs|
    ensures forall w :: 0 <= w < |msgs| ==> pos[w] <= |msgs[w]| && From(p.accepted, source, w) == msgs[w][..pos[w]]
  {
    received, pos, source := [], seq(|msgs|, _ => 0), [];
    var i := 0;
    while i < |turns|
      invariant 0 <= i <= |turns| && p.Valid() && received == p.delivered
      invariant |pos| == |msgs| && |source| == |p.accepted| && forall k :: 0 <= k < |source| ==> source[k] < |msgs|
      invariant forall w :: 0 <= w < |msgs| ==> pos[w] <= |msgs[w]| && From(p.accepted, source, w) == msgs[w][..pos[w]]
    {
      match turns[i] {
        case WriterTurn(v, killed) =>
          assert turns[i] in turns;
          ghost var before := p.accepted;
          var j, _ := p.Write(msgs[v], pos[v], killed);
          ghost var more := msgs[v][pos[v]..j];
          forall w | 0 <= w < |msgs|
            ensures From(p.accepted, source + seq(|more|, _ => v), w) == msgs[w][..if w == v then j else pos[w]]
          {
            FromAppend(before, source, more, v, w);
            assert msgs[v][..pos[v]] + more == msgs[v][..j];
          }
          source := source + seq(|more|, _ => v);
          pos := pos[v := j];
        case ReaderTurn(n, killed) =>
          var bytes, _ := p.Read(n, killed);
          received := received + bytes;
        case CloseTurn(writable) =>
          var _ := p.Close(writable);
      }
      i := i + 1;
    }
  }
}
