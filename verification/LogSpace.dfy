/** Log space: what begin_op's reservation guarantees, and where log_write's own check is stricter
    than the reservation. */
module LogSpace {
  import opened LogDisk
  import opened LogMachine
  import opened LogTheorems

  /** While anyone is inside an operation no commit is running, so end_op's panic cannot happen;
      and if the log has a block for the header besides the LOGSIZE data blocks, log_write never
      panics on a block that is new to the log and within the caller's budget. */
  lemma ReservationHolds(g: Geometry, init: Image, s: Sys, op: int)
    requires Inv(g, init, s) && Outstanding(s, op)
    ensures !Busy(s)
    ensures |s.lh| + Spare(s.used) <= LOGSIZE
    ensures g.size >= LOGSIZE + 1 && s.used[op] < MAXOPBLOCKS ==> !TooBig(g, s)
  {
    SpareBound(s.used);
  }

  /** log_write tests for space before it looks for the block: with such a log, rewriting a block
      that is already logged panics exactly when the log is full, though it needs no room. */
  lemma AbsorptionPanicsWhenFull(g: Geometry, init: Image, s: Sys, op: int, b: int, data: Block)
    requires Inv(g, init, s) && Outstanding(s, op) && g.size >= LOGSIZE + 1 && b in s.lh
    ensures !Enabled(g, s, LogWrite(op, b, data)) <==> |s.lh| == LOGSIZE
    ensures DoLogWrite(s, op, b, data).lh == s.lh
  {
  }

  /** begin_op goes ahead exactly when neither commit nor recovery runs and ten blocks for each
      outstanding operation and for this one fit beside those already listed. */
  lemma AdmittedIff(g: Geometry, s: Sys)
    ensures Enabled(g, s, Begin) <==> s.phase.Open? && |s.lh| + 10 * |s.used| + 10 <= 30
  {
  }

  /** Between operations and commits the list is empty. */
  lemma {:induction false} IdleIsEmpty(g: Geometry, d: Image, r: Run)
    requires IsDisk(g, d) && HeaderOf(d[g.start]) == [] && IsRun(g, r) && First(r) == Booted(g, d)
    ensures var s := Final(g, r); s.phase.Open? && s.used == [] ==> s.lh == []
  {
    hide HeaderOf;
    BootedInv(g, d);
    if r.Then? {
      hide Inv, Booted, Step;
      IdleIsEmpty(g, d, r.before);
      RunKeepsInv(g, d, r.before);
      InvReserves(g, d, Final(g, r.before));
      IdleStep(g, Final(g, r.before), r.event);
    }
  }

  lemma IdleStep(g: Geometry, s: Sys, e: Event)
    requires Shape(g, s) && Enabled(g, s, e) && Reserved(s) && (s.phase.Open? && s.used == [] ==> s.lh == [])
    ensures var s' := Step(g, s, e); s'.phase.Open? && s'.used == [] ==> s'.lh == []
  {
    hide HeaderOf, PutHeader, LogList, Spare;
  }

  /** Nobody waits for ever for room that is not coming: in every state of every run in which nothing
      is outstanding and no commit or recovery runs, an operation may begin. */
  lemma IdleAdmits(g: Geometry, d: Image, r: Run)
    requires IsDisk(g, d) && HeaderOf(d[g.start]) == [] && IsRun(g, r) && First(r) == Booted(g, d)
    requires Final(g, r).phase.Open? && Final(g, r).used == []
    ensures Enabled(g, Final(g, r), Begin)
  {
    IdleIsEmpty(g, d, r);
    AdmittedIff(g, Final(g, r));
  }

  /** end_op starts a commit exactly when it ends the last operation and something is listed. */
  lemma EndCommitsIff(s: Sys, op: int)
    requires Outstanding(s, op) && s.phase.Open?
    ensures var s' := DoEnd(s, op);
      && |s'.used| == |s.used| - 1 && s'.lh == s.lh && s'.disk == s.disk && s'.pinned == s.pinned
      && (s'.phase == Logging(0) <==> |s.used| == 1 && s.lh != [])
      && (s'.phase == Open <==> |s.used| > 1 || s.lh == [])
  {
  }

  // ----- both panics can be reached

  function Clamp(k: int): int {
    if k < 0 then 0 else if k > MAXOPBLOCKS then MAXOPBLOCKS else k
  }

  /** Three operations log k fresh blocks between them, each up to its budget. */
  ghost function Fill(g: Geometry, d: Image, k: nat): Run
    requires IsDisk(g, d)
  {
    if k == 0 then Then(Then(Then(Then(Start(Booted(g, d)), DiskWrite), Begin), Begin), Begin)
    else Then(Fill(g, d, k - 1), LogWrite((k - 1) / MAXOPBLOCKS, g.start + g.size + k - 1, d[0]))
  }

  lemma {:induction false} FillRuns(g: Geometry, d: Image, k: nat)
    requires IsDisk(g, d) && HeaderOf(d[g.start]) == [] && g.start + g.size + LOGSIZE <= g.len
    requires k <= LOGSIZE && k < g.size
    ensures IsRun(g, Fill(g, d, k))
    ensures var s := Final(g, Fill(g, d, k));
      && s.phase.Open? && |s.lh| == k && |s.ops| == 3
      && (forall i :: 0 <= i < k ==> s.lh[i] == g.start + g.size + i)
      && s.used == [Clamp(k), Clamp(k - 10), Clamp(k - 20)]
  {
    hide IsRun;
    hide Final;
    hide Inv;
    if k == 0 {
      FillBegins(g, d);
    } else {
      FillRuns(g, d, k - 1);
      FillStarts(g, d, k - 1);
      BootedInv(g, d);
      assert (k - 1) / MAXOPBLOCKS == if k <= 10 then 0 else if k <= 20 then 1 else 2;
      FillOnce(g, d, Fill(g, d, k - 1), k);
    }
  }

  lemma FillOnce(g: Geometry, d: Image, r: Run, k: nat)
    requires IsDisk(g, d) && IsRun(g, r) && Inv(g, d, First(r)) && g.start + g.size + LOGSIZE <= g.len
    requires 1 <= k <= LOGSIZE && k < g.size
    requires var s := Final(g, r);
      && s.phase.Open? && |s.lh| == k - 1 && |s.ops| == 3
      && (forall i :: 0 <= i < k - 1 ==> s.lh[i] == g.start + g.size + i)
      && s.used == [Clamp(k - 1), Clamp(k - 11), Clamp(k - 21)]
    ensures var e := LogWrite(if k <= 10 then 0 else if k <= 20 then 1 else 2, g.start + g.size + k - 1, d[0]);
      var s := Final(g, r);
      && Enabled(g, s, e) && IsRun(g, Then(r, e))
      && var s' := Final(g, Then(r, e));
      && s'.phase.Open? && s'.lh == s.lh + [g.start + g.size + k - 1] && |s'.ops| == 3
      && s'.used == [Clamp(k), Clamp(k - 10), Clamp(k - 20)]
  {
    hide Inv;
    hide IsRun;
    var e := LogWrite(if k <= 10 then 0 else if k <= 20 then 1 else 2, g.start + g.size + k - 1, d[0]);
    assert Enabled(g, Final(g, r), e);
    RunGoesOn(g, d, r, e);
  }

  lemma FillBegins(g: Geometry, d: Image)
    requires IsDisk(g, d) && HeaderOf(d[g.start]) == []
    ensures IsRun(g, Fill(g, d, 0))
    ensures var s := Final(g, Fill(g, d, 0)); s.phase.Open? && s.lh == [] && s.used == [0, 0, 0] && |s.ops| == 3
  {
    hide HeaderOf;
    BootedInv(g, d);
    var r0 := Start(Booted(g, d));
    RunGoesOn(g, d, r0, DiskWrite);
    var r1 := Then(r0, DiskWrite);
    RunGoesOn(g, d, r1, Begin);
    var r2 := Then(r1, Begin);
    RunGoesOn(g, d, r2, Begin);
    RunGoesOn(g, d, Then(r2, Begin), Begin);
  }

  /** A log of LOGSIZE blocks in all, as mkfs makes it, is one too small: an operation that keeps
      to its budget can meet the panic.  So log.size >= LOGSIZE + 1 is what the reservation
      needs, and nothing less. */
  lemma SmallLogPanics(g: Geometry, d: Image)
    requires IsDisk(g, d) && HeaderOf(d[g.start]) == [] && g.start + g.size + LOGSIZE <= g.len
    requires g.size <= LOGSIZE
    ensures exists r, op, b ::
      (&& IsRun(g, r) && First(r) == Booted(g, d)
       && Outstanding(Final(g, r), op) && Home(g, b) && b !in Final(g, r).lh && Final(g, r).used[op] < MAXOPBLOCKS
       && TooBig(g, Final(g, r)))
  {
    var k := g.size - 1;
    FillRuns(g, d, k);
    FillStarts(g, d, k);
    var r, b := Fill(g, d, k), g.start + g.size + k;
    assert Outstanding(Final(g, r), 2) && Final(g, r).used[2] < MAXOPBLOCKS && Home(g, b) && b !in Final(g, r).lh;
  }

  /** And with room enough three operations that log ten blocks each leave the log full, so that
      an operation that only rewrites a block it has already logged panics. */
  lemma FullLogPanics(g: Geometry, d: Image)
    requires IsDisk(g, d) && HeaderOf(d[g.start]) == [] && g.start + g.size + LOGSIZE <= g.len
    requires g.size >= LOGSIZE + 1
    ensures exists r, op, b ::
      (&& IsRun(g, r) && First(r) == Booted(g, d)
       && Outstanding(Final(g, r), op) && b in Final(g, r).lh && TooBig(g, Final(g, r)))
  {
    FillRuns(g, d, LOGSIZE);
    FillStarts(g, d, LOGSIZE);
    var r := Fill(g, d, LOGSIZE);
    assert Outstanding(Final(g, r), 0) && Final(g, r).lh[0] in Final(g, r).lh;
  }

  lemma {:induction false} FillStarts(g: Geometry, d: Image, k: nat)
    requires IsDisk(g, d)
    ensures First(Fill(g, d, k)) == Booted(g, d)
  {
    if k > 0 {
      FillStarts(g, d, k - 1);
    } else {
      var r0 := Then(Start(Booted(g, d)), DiskWrite);
      assert First(r0) == Booted(g, d);
      var r := Then(r0, Begin);
      assert First(Then(Then(r, Begin), Begin)) == First(r);
    }
  }
}
