/** What the log guarantees over every run of operations, commits and crashes. */
module LogTheorems {
  import opened LogDisk
  import opened LogMachine

  datatype Run = Start(s: Sys) | Then(before: Run, event: Event)

  ghost predicate IsRun(g: Geometry, r: Run)
    decreases r, 0
  {
    match r
    case Start(s) => Shape(g, s)
    case Then(r', e) => IsRun(g, r') && Shape(g, Final(g, r')) && Enabled(g, Final(g, r'), e)
  }

  ghost function Final(g: Geometry, r: Run): Sys
    requires IsRun(g, r)
    decreases r, 1
  {
    match r
    case Start(s) => s
    case Then(r', e) => Step(g, Final(g, r'), e)
  }

  ghost function First(r: Run): Sys {
    match r
    case Start(s) => s
    case Then(r', _) => First(r')
  }

  /** A file system that has just been made or cleanly shut down, before initlog has run. */
  function Booted(g: Geometry, d: Image): Sys
    requires IsDisk(g, d)
  {
    Sys(d, map[], [], [], Recovering(HeaderOf(d[g.start]), 0), [], 0, [], [])
  }

  lemma {:induction false} RunKeepsInv(g: Geometry, init: Image, r: Run)
    requires IsRun(g, r) && Inv(g, init, First(r))
    ensures Inv(g, init, Final(g, r))
  {
    hide Inv;
    if r.Then? {
      RunKeepsInv(g, init, r.before);
      StepKeepsInv(g, init, Final(g, r.before), r.event);
    }
  }

  /** A run goes on with any step that is enabled. */
  lemma RunGoesOn(g: Geometry, init: Image, r: Run, e: Event)
    requires IsRun(g, r) && Inv(g, init, First(r)) && Enabled(g, Final(g, r), e)
    ensures IsRun(g, Then(r, e)) && Final(g, Then(r, e)) == Step(g, Final(g, r), e)
  {
    hide Inv;
    RunKeepsInv(g, init, r);
  }

  lemma BootedInv(g: Geometry, d: Image)
    requires IsDisk(g, d) && HeaderOf(d[g.start]) == []
    ensures Inv(g, d, Booted(g, d))
  {
  }

  /** Crash atomicity.  Whatever has happened, if the machine stops now and recovery then runs
      undisturbed, the home blocks are those of the committed transactions in commit order, with
      the transaction being committed included entirely when its header is on disk and not at all
      otherwise. */
  lemma RecoveryIsAtomic(g: Geometry, init: Image, s: Sys)
    requires Inv(g, init, s)
    ensures LogList(g, HeaderOf(s.disk[g.start]))
    ensures SameHome(g, Recover(g, s.disk), if s.phase.Installing? then After(g, init, s) else Before(g, init, s))
    ensures s.phase.Logging? || s.phase.Installing? ==> (s.phase.Installing? <==> HeaderOf(s.disk[g.start]) != [])
  {
    hide HeaderOf;
    match s.phase {
      case Open => UnloggedRecovers(g, s.disk, Before(g, init, s));
      case Logging(_) => UnloggedRecovers(g, s.disk, Before(g, init, s));
      case Installing(i) => LoggedRecovers(g, s.disk, s.lh, i, After(g, init, s));
      case Recovering(lh, i) => LoggedRecovers(g, s.disk, lh, i, Before(g, init, s));
    }
  }

  // ----- operations are atomic

  ghost function OpsOf(w: Txn): set<int> {
    set k | 0 <= k < |w| :: w[k].op
  }

  ghost function Names(ops: seq<int>): set<int> {
    set k | 0 <= k < |ops| :: ops[k]
  }

  /** Operation names are distinct; no operation has log_writes in two transactions, nor any in a
      kept transaction while it is outstanding. */
  ghost predicate OpsWhole(s: Sys) {
    && (forall i :: 0 <= i < |s.ops| ==> s.ops[i] < s.nextOp)
    && (forall x :: x in OpsOf(s.current) ==> x < s.nextOp)
    && (forall i, j :: 0 <= i < j < |s.ops| ==> s.ops[i] != s.ops[j])
    && (forall i :: 0 <= i < |s.kept| ==>
          && (forall x :: x in OpsOf(s.kept[i]) ==> x < s.nextOp)
          && OpsOf(s.kept[i]) !! Names(s.ops)
          && OpsOf(s.kept[i]) !! OpsOf(s.current))
    && (forall i, j :: 0 <= i < j < |s.kept| ==> OpsOf(s.kept[i]) !! OpsOf(s.kept[j]))
  }

  lemma NamesSnoc(ops: seq<int>, x: int)
    ensures Names(ops + [x]) == Names(ops) + {x}
  {
    assert forall k :: 0 <= k < |ops| ==> (ops + [x])[k] == ops[k];
    assert (ops + [x])[|ops|] == x;
  }

  lemma OpsOfSnoc(w: Txn, x: Write)
    ensures OpsOf(w + [x]) == OpsOf(w) + {x.op}
  {
    assert forall k :: 0 <= k < |w| ==> (w + [x])[k] == w[k];
    assert (w + [x])[|w|] == x;
  }

  lemma NamesRemove(ops: seq<int>, i: nat)
    requires i < |ops|
    ensures Names(ops[..i] + ops[i + 1..]) <= Names(ops)
  {
  }

  lemma LogWriteKeepsOpsWhole(s: Sys, op: int, b: int, data: Block)
    requires OpsWhole(s) && Outstanding(s, op)
    ensures OpsWhole(DoLogWrite(s, op, b, data))
  {
    OpsOfSnoc(s.current, Write(s.ops[op], b, data));
    NamesHas(s.ops, op);
    hide OpsOf;
    hide Names;
  }

  lemma EndKeepsOpsWhole(s: Sys, op: int)
    requires OpsWhole(s) && Outstanding(s, op)
    ensures OpsWhole(DoEnd(s, op))
  {
    KeepingIsWhole(s);
    NamesRemove(s.ops, op);
    assert |s.used| == 1 ==> s.ops[..op] + s.ops[op + 1..] == [];
    hide OpsOf;
    hide Names;
  }

  lemma BeginKeepsOpsWhole(s: Sys, s': Sys)
    requires OpsWhole(s) && s' == s.(used := s'.used, ops := s.ops + [s.nextOp], nextOp := s.nextOp + 1)
    ensures OpsWhole(s')
  {
    NamesSnoc(s.ops, s.nextOp);
    hide OpsOf;
    hide Names;
  }

  lemma StepKeepsOpsWhole(g: Geometry, s: Sys, e: Event)
    requires Shape(g, s) && Enabled(g, s, e) && Reserved(s) && OpsWhole(s)
    ensures OpsWhole(Step(g, s, e))
  {
    match e {
      case Begin => BeginKeepsOpsWhole(s, Step(g, s, e));
      case LogWrite(op, b, data) => LogWriteKeepsOpsWhole(s, op, b, data);
      case End(op) => EndKeepsOpsWhole(s, op);
      case _ =>
        hide LogList;
        hide HeaderOf;
        hide PutHeader;
        OpsOfNothing();
        KeepingIsWhole(s);
        hide OpsOf;
        hide Names;
    }
  }

  lemma KeepingIsWhole(s: Sys)
    requires OpsWhole(s)
    ensures forall t: Sys :: t.ops == [] && t.nextOp == s.nextOp && t.current == [] && t.kept == s.kept + [s.current] ==> OpsWhole(t)
  {
    OpsOfNothing();
    var kept := s.kept + [s.current];
    assert forall i :: 0 <= i < |s.kept| ==> kept[i] == s.kept[i];
    hide OpsOf;
    hide Names;
  }

  lemma NamesHas(ops: seq<int>, i: nat)
    requires i < |ops|
    ensures ops[i] in Names(ops)
  {
  }

  lemma OpsOfNothing()
    ensures OpsOf([]) == {} && Names([]) == {}
  {
  }

  /** Over a run, no operation has log_writes in two transactions, nor any in a transaction on disk
      before it has ended.  That a transaction has all of them is TransactionsAreComplete. */
  lemma {:induction false} OperationsAreAtomic(g: Geometry, init: Image, r: Run)
    requires IsRun(g, r) && Inv(g, init, First(r)) && OpsWhole(First(r))
    ensures OpsWhole(Final(g, r))
  {
    if r.Then? {
      OperationsAreAtomic(g, init, r.before);
      RunKeepsInv(g, init, r.before);
      hide OpsWhole;
      StepKeepsOpsWhole(g, Final(g, r.before), r.event);
    }
  }

  // ----- durability

  ghost predicate Extends(g: Geometry, r: Run, q: Run) {
    r == q || (r.Then? && Extends(g, r.before, q))
  }

  /** A transaction that has reached the disk stays, in its place, whatever happens later. */
  lemma {:induction false} KeptForever(g: Geometry, r: Run, q: Run)
    requires IsRun(g, r) && Extends(g, r, q) && IsRun(g, q)
    ensures Final(g, q).kept <= Final(g, r).kept
  {
    hide Step, Enabled;
    if r != q {
      KeptForever(g, r.before, q);
      StepKeepsKept(g, Final(g, r.before), r.event);
    }
  }

  lemma StepKeepsKept(g: Geometry, s: Sys, e: Event)
    requires Shape(g, s) && Enabled(g, s, e)
    ensures s.kept <= Step(g, s, e).kept
  {
    hide Shape, HeaderOf, PutHeader;
  }

  /** commit() is about to return: the erased header is the last block it writes, and with an
      empty log it writes none. */
  predicate CommitReturns(s: Sys, e: Event) {
    (e.DiskWrite? && s.phase == Installing(|s.lh|)) || (e.End? && |s.used| == 1 && s.lh == [])
  }

  /** When commit() returns, the whole transaction has reached the disk and the disk is clean:
      the home blocks are up to date without recovery. */
  lemma CommitReturnIsDurable(g: Geometry, init: Image, s: Sys, e: Event)
    requires Inv(g, init, s) && Enabled(g, s, e) && CommitReturns(s, e)
    ensures var s' := Step(g, s, e);
      && s'.kept == s.kept + [s.current]
      && Inv(g, init, s') && HeaderOf(s'.disk[g.start]) == []
      && SameHome(g, s'.disk, After(g, init, s))
  {
    hide HeaderOf;
    hide PutHeader;
    StepKeepsInv(g, init, s, e);
    ApplyAllSnoc(g, init, s.kept, s.current);
  }

  /** The log_writes of a run, in order. */
  ghost function WritesOf(g: Geometry, r: Run): Txn
    requires IsRun(g, r)
  {
    match r
    case Start(_) => []
    case Then(r', e) =>
      if e.LogWrite? then WritesOf(g, r') + [Write(Final(g, r').ops[e.op], e.block, e.data)] else WritesOf(g, r')
  }

  /** The log_writes in w by the operations of a set, in order. */
  ghost function Only(w: Txn, ops: set<int>): Txn {
    if w == [] then []
    else Only(w[..|w| - 1], ops) + if w[|w| - 1].op in ops then [w[|w| - 1]] else []
  }

  lemma OnlySnoc(w: Txn, x: Write, ops: set<int>)
    ensures Only(w + [x], ops) == Only(w, ops) + if x.op in ops then [x] else []
  {
    assert (w + [x])[..|w|] == w;
  }

  lemma {:induction false} OnlyNone(w: Txn, ops: set<int>)
    requires OpsOf(w) !! ops
    ensures Only(w, ops) == []
  {
    if w != [] {
      InOpsOf(w);
      hide OpsOf;
      OnlyNone(w[..|w| - 1], ops);
    }
  }

  lemma InOpsOf(w: Txn)
    requires w != []
    ensures w[|w| - 1].op in OpsOf(w) && OpsOf(w[..|w| - 1]) <= OpsOf(w)
  {
  }

  /** Operations that contribute nothing may be dropped from the set. */
  lemma {:induction false} OnlyShrinks(w: Txn, ops: set<int>, fewer: set<int>)
    requires fewer <= ops && OpsOf(Only(w, ops)) <= fewer
    ensures Only(w, fewer) == Only(w, ops)
  {
    if w != [] {
      var v, x := w[..|w| - 1], w[|w| - 1];
      OnlySnoc(v, x, ops);
      assert v + [x] == w;
      if x.op in ops { OpsOfSnoc(Only(v, ops), x); } else { assert Only(w, ops) == Only(v, ops); }
      OnlyShrinks(v, ops, fewer);
    }
  }

  /** Every transaction holds all the log_writes, of the whole run, of the operations in it, and the
      current one those of the outstanding operations too. */
  ghost predicate Complete(s: Sys, all: Txn) {
    && (forall x :: x in OpsOf(all) ==> x < s.nextOp)
    && (forall i :: 0 <= i < |s.kept| ==> s.kept[i] == Only(all, OpsOf(s.kept[i])))
    && s.current == Only(all, OpsOf(s.current) + Names(s.ops))
  }

  lemma BeginCompletes(s: Sys, s': Sys, all: Txn)
    requires OpsWhole(s) && Complete(s, all)
    requires s' == s.(used := s'.used, ops := s.ops + [s.nextOp], nextOp := s.nextOp + 1)
    ensures Complete(s', all)
  {
    NamesSnoc(s.ops, s.nextOp);
    hide OpsOf, Names;
    var ops := OpsOf(s.current) + Names(s.ops);
    assert OpsOf(s'.current) + Names(s'.ops) == ops + {s.nextOp};
    OnlyGains(all, ops, s.nextOp);
  }

  lemma {:induction false} OnlyGains(w: Txn, ops: set<int>, x: int)
    requires x !in OpsOf(w)
    ensures Only(w, ops + {x}) == Only(w, ops)
  {
    if w != [] {
      InOpsOf(w);
      OnlyGains(w[..|w| - 1], ops, x);
    }
  }

  lemma LogWriteCompletes(s: Sys, op: int, b: int, data: Block, all: Txn)
    requires OpsWhole(s) && Complete(s, all) && Outstanding(s, op)
    ensures Complete(DoLogWrite(s, op, b, data), all + [Write(s.ops[op], b, data)])
  {
    var x := Write(s.ops[op], b, data);
    NamesHas(s.ops, op);
    OpsOfSnoc(s.current, x);
    OpsOfSnoc(all, x);
    hide OpsOf, Names;
    var ops := OpsOf(s.current) + Names(s.ops);
    assert OpsOf(s.current + [x]) + Names(s.ops) == ops;
    OnlySnoc(all, x, ops);
    forall i | 0 <= i < |s.kept| ensures s.kept[i] == Only(all + [x], OpsOf(s.kept[i])) {
      OnlySnoc(all, x, OpsOf(s.kept[i]));
    }
  }

  /** The current transaction moves to the kept ones. */
  lemma KeepingCompletes(s: Sys, s': Sys, all: Txn)
    requires Complete(s, all) && s'.ops == [] && s'.nextOp == s.nextOp && s'.current == []
    requires s'.kept == s.kept + [s.current] || s'.kept == s.kept
    ensures Complete(s', all)
  {
    OpsOfNothing();
    OnlyNone(all, {});
    OnlyShrinks(all, OpsOf(s.current) + Names(s.ops), OpsOf(s.current));
    hide OpsOf, Names, Only;
    assert OpsOf(s'.current) + Names(s'.ops) == {};
  }

  lemma EndCompletes(s: Sys, op: int, all: Txn)
    requires OpsWhole(s) && Complete(s, all) && Outstanding(s, op)
    ensures Complete(DoEnd(s, op), all)
  {
    var s' := DoEnd(s, op);
    if |s.used| == 1 && s.lh == [] {
      assert s.ops[..op] + s.ops[op + 1..] == [];
      KeepingCompletes(s, s', all);
    } else {
      NamesRemove(s.ops, op);
      hide OpsOf, Names, Only;
      OnlyShrinks(all, OpsOf(s.current) + Names(s.ops), OpsOf(s.current) + Names(s'.ops));
    }
  }

  lemma DiskWriteCompletes(g: Geometry, s: Sys, all: Txn)
    requires Shape(g, s) && Busy(s) && Reserved(s) && Complete(s, all)
    ensures Complete(DoDiskWrite(g, s), all)
  {
    hide LogList, HeaderOf, PutHeader, OpsOf, Names, Only;
    var s' := DoDiskWrite(g, s);
    assert s.ops == [] && s'.ops == [] && s'.nextOp == s.nextOp;
    if s'.current != s.current || s'.kept != s.kept { KeepingCompletes(s, s', all); }
  }

  lemma StepCompletes(g: Geometry, s: Sys, e: Event, all: Txn)
    requires Shape(g, s) && Enabled(g, s, e) && Reserved(s) && OpsWhole(s) && Complete(s, all)
    ensures var x := if e.LogWrite? then [Write(s.ops[e.op], e.block, e.data)] else [];
      Complete(Step(g, s, e), all + x)
  {
    assert all + [] == all;
    match e {
      case Begin => BeginCompletes(s, Step(g, s, e), all);
      case LogWrite(op, b, data) => LogWriteCompletes(s, op, b, data, all);
      case End(op) => EndCompletes(s, op, all);
      case DiskWrite => DiskWriteCompletes(g, s, all);
      case Crash =>
        hide Shape, HeaderOf, OpsOf, Names, Only;
        KeepingCompletes(s, DoCrash(g, s), all);
    }
  }

  /** Over any run from a started machine, crashes included: a transaction on disk holds all the
      log_writes that its operations made in the run, in the order they were made, and the current
      one all those of its own and of the outstanding operations. */
  lemma {:induction false} TransactionsAreComplete(g: Geometry, d: Image, r: Run)
    requires IsDisk(g, d) && HeaderOf(d[g.start]) == [] && IsRun(g, r) && First(r) == Booted(g, d)
    ensures OpsWhole(Final(g, r)) && Complete(Final(g, r), WritesOf(g, r))
  {
    hide HeaderOf;
    BootedInv(g, d);
    if r.Then? {
      hide Inv, OpsWhole, Complete, Step, Booted;
      TransactionsAreComplete(g, d, r.before);
      RunKeepsInv(g, d, r.before);
      InvReserves(g, d, Final(g, r.before));
      StepKeepsOpsWhole(g, Final(g, r.before), r.event);
      StepCompletes(g, Final(g, r.before), r.event, WritesOf(g, r.before));
      assert WritesOf(g, r.before) + [] == WritesOf(g, r.before);
    }
  }

  lemma InvReserves(g: Geometry, init: Image, s: Sys)
    requires Inv(g, init, s)
    ensures Shape(g, s) && Reserved(s)
  {
  }

  // ----- nothing else is lost

  /** The log_writes in w that are not by operations of a set. */
  ghost function Without(w: Txn, ops: set<int>): Txn {
    if w == [] then []
    else Without(w[..|w| - 1], ops) + if w[|w| - 1].op in ops then [] else [w[|w| - 1]]
  }

  /** The operations whose log_writes a crash has lost: those of the current transaction, unless its
      header was on disk, and those outstanding. */
  ghost function Lost(g: Geometry, r: Run): set<int>
    requires IsRun(g, r)
  {
    match r
    case Start(_) => {}
    case Then(r', e) =>
      var s := Final(g, r');
      if e.Crash? && !s.phase.Installing? then Lost(g, r') + OpsOf(s.current) + Names(s.ops) else Lost(g, r')
  }

  function Flat(ts: seq<Txn>): Txn {
    if ts == [] then [] else Flat(ts[..|ts| - 1]) + ts[|ts| - 1]
  }

  lemma FlatSnoc(ts: seq<Txn>, w: Txn)
    ensures Flat(ts + [w]) == Flat(ts) + w
  {
    assert (ts + [w])[..|ts|] == ts;
  }

  lemma {:induction false} OpsOfFlat(ts: seq<Txn>, ops: set<int>)
    requires forall i :: 0 <= i < |ts| ==> OpsOf(ts[i]) !! ops
    ensures OpsOf(Flat(ts)) !! ops
  {
    if ts != [] {
      OpsOfFlat(ts[..|ts| - 1], ops);
      OpsOfConcat(Flat(ts[..|ts| - 1]), ts[|ts| - 1]);
    }
  }

  lemma OpsOfConcat(v: Txn, w: Txn)
    ensures OpsOf(v + w) == OpsOf(v) + OpsOf(w)
  {
    assert forall k :: 0 <= k < |v| ==> (v + w)[k] == v[k];
    assert forall k :: 0 <= k < |w| ==> (v + w)[|v| + k] == w[k];
  }

  lemma WithoutSnoc(w: Txn, x: Write, ops: set<int>)
    ensures Without(w + [x], ops) == Without(w, ops) + if x.op in ops then [] else [x]
  {
    assert (w + [x])[..|w|] == w;
  }

  lemma {:induction false} WithoutMore(w: Txn, ops: set<int>, more: set<int>)
    ensures Without(w, ops + more) == Without(Without(w, ops), more)
  {
    if w != [] {
      var v, x := w[..|w| - 1], w[|w| - 1];
      WithoutMore(v, ops, more);
      if x.op in ops {
        assert Without(w, ops) == Without(v, ops);
      } else {
        WithoutSnoc(Without(v, ops), x, more);
      }
    }
  }

  lemma {:induction false} WithoutConcat(v: Txn, w: Txn, ops: set<int>)
    ensures Without(v + w, ops) == Without(v, ops) + Without(w, ops)
  {
    if w == [] {
      assert v + w == v;
    } else {
      var u, x := w[..|w| - 1], w[|w| - 1];
      assert v + w == (v + u) + [x];
      WithoutSnoc(v + u, x, ops);
      WithoutConcat(v, u, ops);
    }
  }

  lemma {:induction false} WithoutNone(w: Txn, ops: set<int>)
    requires OpsOf(w) !! ops
    ensures Without(w, ops) == w
  {
    if w != [] {
      InOpsOf(w);
      hide OpsOf;
      WithoutNone(w[..|w| - 1], ops);
      assert w == w[..|w| - 1] + [w[|w| - 1]];
    }
  }

  lemma {:induction false} WithoutAll(w: Txn, ops: set<int>)
    requires OpsOf(w) <= ops
    ensures Without(w, ops) == []
  {
    if w != [] {
      InOpsOf(w);
      hide OpsOf;
      WithoutAll(w[..|w| - 1], ops);
    }
  }

  /** What a crash drops from the history. */
  lemma CrashDrops(s: Sys, all: Txn, lost: set<int>)
    requires OpsWhole(s) && Flat(s.kept) + s.current == Without(all, lost)
    ensures Flat(s.kept) == Without(all, lost + OpsOf(s.current) + Names(s.ops))
  {
    var gone := OpsOf(s.current) + Names(s.ops);
    assert forall i :: 0 <= i < |s.kept| ==> OpsOf(s.kept[i]) !! gone;
    hide OpsOf, Names, OpsWhole;
    assert lost + OpsOf(s.current) + Names(s.ops) == lost + gone;
    WithoutMore(all, lost, gone);
    WithoutConcat(Flat(s.kept), s.current, gone);
    OpsOfFlat(s.kept, gone);
    WithoutNone(Flat(s.kept), gone);
    WithoutAll(s.current, gone);
  }

  ghost predicate Gone(s: Sys, lost: set<int>) {
    lost !! Names(s.ops) && forall x :: x in lost ==> x < s.nextOp
  }

  lemma StepGone(g: Geometry, s: Sys, e: Event, lost: set<int>)
    requires Shape(g, s) && Enabled(g, s, e) && Reserved(s) && OpsWhole(s) && Gone(s, lost)
    ensures Gone(Step(g, s, e), if e.Crash? && !s.phase.Installing? then lost + OpsOf(s.current) + Names(s.ops) else lost)
  {
    hide Shape, HeaderOf, PutHeader, OpsOf, Names, OpsWhole;
    OpsOfNothing();
    NamesBelow(s);
    match e {
      case Begin => NamesSnoc(s.ops, s.nextOp);
      case End(op) => NamesRemove(s.ops, op);
      case _ =>
    }
  }

  lemma NamesBelow(s: Sys)
    requires OpsWhole(s)
    ensures forall x :: x in Names(s.ops) ==> x < s.nextOp
    ensures forall x :: x in OpsOf(s.current) ==> x < s.nextOp
  {
  }

  /** Over any run, crashes included, the transactions are exactly the log_writes made, in order,
      less those of the operations that a crash cut off: no other is dropped, and none repeated or
      moved. */
  lemma {:induction false} EveryWriteIsLogged(g: Geometry, d: Image, r: Run)
    requires IsDisk(g, d) && HeaderOf(d[g.start]) == [] && IsRun(g, r) && First(r) == Booted(g, d)
    ensures Gone(Final(g, r), Lost(g, r))
    ensures Flat(Final(g, r).kept) + Final(g, r).current == Without(WritesOf(g, r), Lost(g, r))
  {
    hide HeaderOf;
    if r.Then? {
      hide Inv, OpsWhole, Complete, Booted, Gone;
      var s, all, lost := Final(g, r.before), WritesOf(g, r.before), Lost(g, r.before);
      BootedInv(g, d);
      EveryWriteIsLogged(g, d, r.before);
      TransactionsAreComplete(g, d, r.before);
      RunKeepsInv(g, d, r.before);
      InvReserves(g, d, s);
      StepGone(g, s, r.event, lost);
      StepLogs(g, s, r.event, all, lost);
    }
  }

  ghost predicate CrashFree(r: Run) {
    r.Then? ==> !r.event.Crash? && CrashFree(r.before)
  }

  /** Without a crash nothing is lost: the transactions are all the log_writes made. */
  lemma {:induction false} NothingLost(g: Geometry, d: Image, r: Run)
    requires IsDisk(g, d) && HeaderOf(d[g.start]) == [] && IsRun(g, r) && First(r) == Booted(g, d) && CrashFree(r)
    ensures Lost(g, r) == {} && Flat(Final(g, r).kept) + Final(g, r).current == WritesOf(g, r)
  {
    hide HeaderOf, Step;
    EveryWriteIsLogged(g, d, r);
    WithoutNone(WritesOf(g, r), {});
    if r.Then? { NothingLost(g, d, r.before); }
  }

  lemma StepLogs(g: Geometry, s: Sys, e: Event, all: Txn, lost: set<int>)
    requires Shape(g, s) && Enabled(g, s, e) && Reserved(s) && OpsWhole(s) && Gone(s, lost)
    requires Flat(s.kept) + s.current == Without(all, lost)
    ensures var all' := if e.LogWrite? then all + [Write(s.ops[e.op], e.block, e.data)] else all;
      var lost' := if e.Crash? && !s.phase.Installing? then lost + OpsOf(s.current) + Names(s.ops) else lost;
      var s' := Step(g, s, e);
      Flat(s'.kept) + s'.current == Without(all', lost')
  {
    match e {
      case LogWrite(op, b, data) => LogWriteLogs(s, op, b, data, all, lost);
      case Crash => CrashLogs(g, s, all, lost);
      case _ =>
        hide Step, Enabled, Reserved, OpsOf, Names, Without, Flat, OpsWhole, Gone;
        StepHistory(g, s, e);
        FlatSnoc(s.kept, s.current);
        assert Flat(s.kept + [s.current]) + [] == Flat(s.kept) + s.current;
    }
  }

  /** Other steps keep the history or move the current transaction to the kept ones. */
  lemma StepHistory(g: Geometry, s: Sys, e: Event)
    requires Shape(g, s) && Enabled(g, s, e) && !e.LogWrite? && !e.Crash?
    ensures var s' := Step(g, s, e);
      (s'.kept == s.kept && s'.current == s.current) || (s'.kept == s.kept + [s.current] && s'.current == [])
  {
    hide Shape, HeaderOf, PutHeader;
  }

  lemma LogWriteLogs(s: Sys, op: int, b: int, data: Block, all: Txn, lost: set<int>)
    requires Outstanding(s, op) && Gone(s, lost) && Flat(s.kept) + s.current == Without(all, lost)
    ensures var s' := DoLogWrite(s, op, b, data);
      Flat(s'.kept) + s'.current == Without(all + [Write(s.ops[op], b, data)], lost)
  {
    var x := Write(s.ops[op], b, data);
    NamesHas(s.ops, op);
    hide OpsOf, Names, Without, Flat;
    WithoutSnoc(all, x, lost);
    assert Flat(s.kept) + (s.current + [x]) == (Flat(s.kept) + s.current) + [x];
  }

  lemma CrashLogs(g: Geometry, s: Sys, all: Txn, lost: set<int>)
    requires Shape(g, s) && OpsWhole(s) && Flat(s.kept) + s.current == Without(all, lost)
    ensures var s' := DoCrash(g, s);
      var lost' := if s.phase.Installing? then lost else lost + OpsOf(s.current) + Names(s.ops);
      Flat(s'.kept) + s'.current == Without(all, lost')
  {
    hide Shape, HeaderOf, OpsOf, Names, Without, Flat, OpsWhole;
    FlatSnoc(s.kept, s.current);
    CrashDrops(s, all, lost);
    assert Flat(s.kept) + [] == Flat(s.kept);
    assert Flat(s.kept + [s.current]) + [] == Flat(s.kept) + s.current;
  }

  /** The whole statement: from a clean disk, at any point of any run, stopping and recovering
      gives the home blocks of the initial disk with the kept transactions applied in order, and
      the one being committed too exactly when its header has reached the disk. */
  lemma Durability(g: Geometry, d: Image, r: Run)
    requires IsDisk(g, d) && HeaderOf(d[g.start]) == []
    requires IsRun(g, r) && First(r) == Booted(g, d)
    ensures var s := Final(g, r);
      && Histories(g, d, s) && IsDisk(g, s.disk) && LogList(g, HeaderOf(s.disk[g.start]))
      && SameHome(g, Recover(g, s.disk), ApplyAll(g, d, if s.phase.Installing? then s.kept + [s.current] else s.kept))
      && (Busy(s) && !s.phase.Recovering? ==> (s.phase.Installing? <==> HeaderOf(s.disk[g.start]) != []))
  {
    BootedInv(g, d);
    RunKeepsInv(g, d, r);
    RecoveryIsAtomic(g, d, Final(g, r));
    ApplyAllSnoc(g, d, Final(g, r).kept, Final(g, r).current);
  }
}
