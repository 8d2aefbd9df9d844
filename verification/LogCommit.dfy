/** A whole commit or a whole recovery: the block writes it makes, and what a crash after any one
    of them leaves to be recovered. */
module LogCommit {
  import opened LogDisk
  import opened LogMachine
  import opened LogTheorems

  /** Block writes left to make. */
  function WritesLeft(s: Sys): int {
    match s.phase
    case Open => 0
    case Logging(i) => 2 * |s.lh| - i + 2
    case Installing(i) => |s.lh| - i + 1
    case Recovering(lh, i) => |lh| - i + 1
  }

  lemma DiskWriteShape(g: Geometry, s: Sys)
    requires Shape(g, s) && Busy(s)
    ensures Shape(g, DoDiskWrite(g, s)) && WritesLeft(DoDiskWrite(g, s)) == WritesLeft(s) - 1 >= 0
  {
    hide HeaderOf;
    hide PutHeader;
  }

  /** The state when all writes are made. */
  function Settle(g: Geometry, s: Sys): (r: Sys)
    requires Shape(g, s)
    ensures Shape(g, r) && !Busy(r)
    decreases WritesLeft(s)
  {
    if !Busy(s) then s else DiskWriteShape(g, s); Settle(g, DoDiskWrite(g, s))
  }

  /** The disk after each of the writes. */
  function Trace(g: Geometry, s: Sys): (r: seq<Image>)
    requires Shape(g, s)
    ensures |r| == WritesLeft(s)
    decreases WritesLeft(s)
  {
    if !Busy(s) then [] else DiskWriteShape(g, s); [DoDiskWrite(g, s).disk] + Trace(g, DoDiskWrite(g, s))
  }

  /** s' is on the way from s to its end, having made the writes that took the images from t to t'. */
  ghost predicate OnTheWay(g: Geometry, s: Sys, t: seq<Image>, s': Sys, t': seq<Image>) {
    && Shape(g, s) && Shape(g, s')
    && Settle(g, s') == Settle(g, s)
    && t' + Trace(g, s') == t + Trace(g, s)
  }

  lemma StillOnTheWay(g: Geometry, s: Sys, t: seq<Image>, s': Sys, t': seq<Image>)
    requires OnTheWay(g, s, t, s', t') && Busy(s')
    ensures var s'' := DoDiskWrite(g, s'); OnTheWay(g, s, t, s'', t' + [s''.disk])
  {
    DiskWriteShape(g, s');
    hide Shape;
    hide DoDiskWrite;
    var s'' := DoDiskWrite(g, s');
    assert t' + ([s''.disk] + Trace(g, s'')) == (t' + [s''.disk]) + Trace(g, s'');
  }

  /** A crash after the k-th block write of a commit is recovered to the old home blocks while
      only log blocks have been written, and to the new ones from the header write on. */
  lemma {:induction false} CommitIsAtomic(g: Geometry, init: Image, s: Sys, k: nat)
    requires Inv(g, init, s) && (s.phase.Logging? || s.phase.Installing?) && k < WritesLeft(s)
    ensures var d := Trace(g, s)[k];
      && IsDisk(g, d) && LogList(g, HeaderOf(d[g.start]))
      && SameHome(g, Recover(g, d), if s.phase.Logging? && s.phase.i + k < |s.lh| then Before(g, init, s) else After(g, init, s))
    decreases WritesLeft(s)
  {
    hide HeaderOf;
    hide Apply;
    hide ApplyAll;
    hide Consistent;
    hide SameHome;
    hide Recover;
    hide PutHeader;
    var s' := DoDiskWrite(g, s);
    DiskWriteShape(g, s);
    StepKeepsInv(g, init, s, DiskWrite);
    ApplyAllSnoc(g, init, s.kept, s.current);
    if k == 0 {
      RecoveryIsAtomic(g, init, s');
    } else {
      assert Trace(g, s)[k] == Trace(g, s')[k - 1];
      CommitIsAtomic(g, init, s', k - 1);
    }
  }

  /** A crash after the k-th block write of a recovery is recovered to the same home blocks, so
      recovery may be interrupted any number of times. */
  lemma {:induction false} RecoveryIsRestartable(g: Geometry, init: Image, s: Sys, k: nat)
    requires Inv(g, init, s) && s.phase.Recovering? && k < WritesLeft(s)
    ensures var d := Trace(g, s)[k];
      && IsDisk(g, d) && LogList(g, HeaderOf(d[g.start]))
      && SameHome(g, Recover(g, d), Before(g, init, s))
    decreases WritesLeft(s)
  {
    hide HeaderOf;
    hide Apply;
    hide ApplyAll;
    hide Consistent;
    hide SameHome;
    hide Recover;
    hide PutHeader;
    var s' := DoDiskWrite(g, s);
    DiskWriteShape(g, s);
    StepKeepsInv(g, init, s, DiskWrite);
    if k == 0 {
      RecoveryIsAtomic(g, init, s');
    } else {
      assert Trace(g, s)[k] == Trace(g, s')[k - 1];
      RecoveryIsRestartable(g, init, s', k - 1);
    }
  }

  // ----- what a whole commit leaves

  /** The rest of the installing copies the rest of the log blocks home and clears the header. */
  lemma {:induction false} InstallingEnds(g: Geometry, s: Sys)
    requires Shape(g, s) && s.phase.Installing?
    ensures var r := Settle(g, s);
      && r.phase.Open? && r.lh == [] && r.kept == s.kept + [s.current] && r.current == [] && r.used == s.used && r.ops == s.ops
      && HeaderOf(r.disk[g.start]) == []
      && (forall j :: s.phase.i <= j < |s.lh| ==> r.disk[s.lh[j]] == s.disk[g.start + 1 + j])
      && (forall b :: Home(g, b) && b !in s.lh[s.phase.i..] ==> r.disk[b] == s.disk[b])
    decreases WritesLeft(s)
  {
    hide HeaderOf, PutHeader;
    var i := s.phase.i;
    DiskWriteShape(g, s);
    if i < |s.lh| {
      assert s.lh[i..] == [s.lh[i]] + s.lh[i + 1..];
      InstallingEnds(g, DoDiskWrite(g, s));
    }
  }

  /** A whole commit: the listed blocks get home, no other home block changes, the header is clear,
      the list is empty and the transaction is kept. */
  lemma {:induction false} LoggingEnds(g: Geometry, s: Sys)
    requires Shape(g, s) && s.phase.Logging?
    requires forall j :: 0 <= j < s.phase.i ==> s.disk[g.start + 1 + j] == s.pinned[s.lh[j]]
    ensures var r := Settle(g, s);
      && r.phase.Open? && r.lh == [] && r.kept == s.kept + [s.current] && r.current == [] && r.used == s.used && r.ops == s.ops
      && HeaderOf(r.disk[g.start]) == []
      && (forall b :: Home(g, b) ==> r.disk[b] == if b in s.lh then s.pinned[b] else s.disk[b])
    decreases WritesLeft(s)
  {
    hide HeaderOf, PutHeader;
    DiskWriteShape(g, s);
    var s' := DoDiskWrite(g, s);
    if s.phase.i < |s.lh| {
      LoggingEnds(g, s');
    } else {
      InstallingEnds(g, s');
      var r := Settle(g, s');
      assert s'.lh[0..] == s.lh;
      forall b | Home(g, b) && b in s.lh ensures r.disk[b] == s.pinned[b] {
        var j :| 0 <= j < |s.lh| && s.lh[j] == b;
      }
    }
  }

  /** A whole recovery turns the disk into its recovered image. */
  lemma {:induction false} RecoveringEnds(g: Geometry, s: Sys)
    requires Shape(g, s) && s.phase.Recovering?
    ensures var r := Settle(g, s); var d := InstallFrom(g, s.disk, s.phase.lh, s.phase.i);
      && r.phase.Open? && r.disk == d[g.start := PutHeader(d[g.start], [])] && r.kept == s.kept
    decreases WritesLeft(s)
  {
    hide HeaderOf, PutHeader;
    DiskWriteShape(g, s);
    if s.phase.i < |s.phase.lh| { RecoveringEnds(g, DoDiskWrite(g, s)); }
  }
}
