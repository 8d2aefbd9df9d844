/** The disk under the redo log: blocks of words, the log header and its encoding, what recovery
    makes of a disk image, and what the block writes of commit do to it. */
module LogDisk {

  const LOGSIZE: int := 30
  const MAXOPBLOCKS: int := 10
  const WORDS: int := 128

  type Block = b: seq<int> | |b| == WORDS witness seq(WORDS, i => 0)
  type Image = seq<Block>

  /** Where the log lies: log.start, log.size and the size of the disk. */
  datatype Geometry = Geometry(start: int, size: int, len: int)

  ghost predicate Sane(g: Geometry) {
    0 < g.start && 1 <= g.size && g.start + g.size <= g.len
  }

  ghost predicate IsDisk(g: Geometry, d: Image) {
    Sane(g) && |d| == g.len
  }

  /** A block outside the log. */
  predicate Home(g: Geometry, b: int) {
    0 <= b < g.len && !(g.start <= b < g.start + g.size)
  }

  predicate SameHome(g: Geometry, d: Image, e: Image)
    requires |d| == g.len && |e| == g.len
  {
    forall b :: 0 <= b < g.len && Home(g, b) ==> d[b] == e[b]
  }

  /** A list of block numbers that fits the header and the log and names distinct home blocks. */
  ghost predicate LogList(g: Geometry, lh: seq<int>) {
    && |lh| <= LOGSIZE && |lh| < g.size
    && (forall i :: 0 <= i < |lh| ==> Home(g, lh[i]))
    && (forall i, j :: 0 <= i < j < |lh| ==> lh[i] != lh[j])
  }

  // ----- the header block: word 0 is n, words 1..n are the block numbers

  function HeaderOf(b: Block): (lh: seq<int>)
  {
    if 0 <= b[0] <= LOGSIZE then b[1..1 + b[0]] else []
  }

  /** write_head overwrites n and the first n entries and leaves the rest of the block. */
  function PutHeader(b: Block, lh: seq<int>): (r: Block)
    requires |lh| <= LOGSIZE
    ensures HeaderOf(r) == lh
  {
    [|lh|] + lh + b[1 + |lh|..]
  }

  // ----- recovery

  /** Copy log blocks i, i+1, ... to their homes. */
  function InstallFrom(g: Geometry, d: Image, lh: seq<int>, i: nat): (r: Image)
    requires IsDisk(g, d) && LogList(g, lh) && i <= |lh|
    ensures |r| == |d|
    decreases |lh| - i
  {
    if i == |lh| then d else InstallFrom(g, d[lh[i] := d[g.start + 1 + i]], lh, i + 1)
  }

  /** The image recover_from_log leaves: install what the header names, then clear the header. */
  function Recover(g: Geometry, d: Image): (r: Image)
    requires IsDisk(g, d) && LogList(g, HeaderOf(d[g.start]))
    ensures |r| == |d|
  {
    var e := InstallFrom(g, d, HeaderOf(d[g.start]), 0);
    e[g.start := PutHeader(e[g.start], [])]
  }

  lemma {:induction false} InstallFromExact(g: Geometry, d: Image, lh: seq<int>, i: nat)
    requires IsDisk(g, d) && LogList(g, lh) && i <= |lh|
    ensures var r := InstallFrom(g, d, lh, i);
      && (forall j :: i <= j < |lh| ==> r[lh[j]] == d[g.start + 1 + j])
      && (forall b :: 0 <= b < g.len && b !in lh[i..] ==> r[b] == d[b])
    decreases |lh| - i
  {
    if i < |lh| {
      var d' := d[lh[i] := d[g.start + 1 + i]];
      InstallFromExact(g, d', lh, i + 1);
      assert lh[i..] == [lh[i]] + lh[i + 1..];
    }
  }
}
