/** Exactly when a recovery that is entered again, after others were interrupted, goes through. */
module RestoreReentry {
  import opened Common
  import opened RestoreJournal
  import opened RestoreDisk
  import opened RestorePlan
  import opened RestoreSteps
  import opened RestoreRecovery

  /** What recovery can look up before it changes anything: the slots have valid names; the original waits in its slot
      or was never moved; a file that was not there waits in the stage or has a directory it can be absent from. */
  predicate Redoable(t: Tree, txn: string, op: Operation) {
    && op.target != [] && Short(op.target)
    && if op.existed then RollbackLoc(txn, op.root, op.target) in t || (!op.backedUp && !op.promoted)
       else (StageLoc(txn, op.root, op.target) in t && !op.promoted) || IsDir(t, Parent(Loc(op.root, op.target)))
  }

  lemma {:induction false} FilesStay(run: RestoreRun, a: nat, b: nat, l: Loc)
    requires GoodPlan(run) && a <= b <= |run.plan| && IsFile(Level(run, a), l)
    ensures IsFile(Level(run, b), l)
    decreases b - a
  {
    PlanFacts(run);
    if a < b {
      FilesStay(run, a, b - 1, l);
      PromotedAt(Level(run, b - 1), run.plan[b - 1], l);
    }
  }

  /** A file of the view is a file at every later level. */
  lemma ViewFilesStay(run: RestoreRun, p: Position, i: nat, l: Loc)
    requires GoodPlan(run) && ValidPosition(run, p) && p.k < i < |run.plan| && IsFile(View(run, p), l)
    ensures IsFile(Level(run, i), l)
  {
    if p.local.MakingDirs? {
      WithDirsAt(Level(run, p.k), run.plan[p.k].root, Created(run, p.k)[..p.local.made], l);
    }
    FilesStay(run, p.k, i, l);
  }

  lemma {:induction false} RemoveDirsQuiet(t: Tree, root: Root, dirs: seq<Path>)
    requires forall j :: 0 <= j < |dirs| ==>
      dirs[j] != [] && Loc(root, dirs[j]) !in t && !Open(t, root, RestoreJournal.Dir(dirs[j])).Blocked?
    ensures RemoveDirs(t, root, dirs) == Outcome(t, true)
  {
    if dirs != [] { RemoveDirsQuiet(t, root, dirs[..|dirs| - 1]); }
  }

  /** Directories of a promotion undone before are met absent, never blocked. */
  lemma GoneDirsQuiet(run: RestoreRun, t: Tree, p: Position, i: nat)
    requires At(run, t, p) && p.k < i < |run.plan| && Unblocked(Level(run, i), run.plan[i].root, run.plan[i].target)
    ensures RemoveDirs(t, run.plan[i].root, Created(run, i)) == Outcome(t, true)
  {
    var root, dirs := run.plan[i].root, Created(run, i);
    GoneDirs(run, t, p, i);
    forall j | 0 <= j < |dirs|
      ensures !Open(t, root, RestoreJournal.Dir(dirs[j])).Blocked?
    {
      GoneDirOpens(run, t, p, i, j);
    }
    RemoveDirsQuiet(t, root, dirs);
  }

  lemma GoneDirOpens(run: RestoreRun, t: Tree, p: Position, i: nat, j: nat)
    requires At(run, t, p) && p.k < i < |run.plan| && j < |Created(run, i)| && Created(run, i)[j] != []
    requires Unblocked(Level(run, i), run.plan[i].root, run.plan[i].target)
    ensures !Open(t, run.plan[i].root, RestoreJournal.Dir(Created(run, i)[j])).Blocked?
  {
    var s, parent := run.plan[i], RestoreJournal.Dir(Created(run, i)[j]);
    CreatedManaged(run, i, j);
    OpenTidy(t, s.root, parent);
    forall q | q <= parent && Loc(s.root, q) in t
      ensures t[Loc(s.root, q)].Dir?
    {
      assert Hangs(t, Loc(s.root, q));
      assert q[0] == s.target[0] && q < s.target;
      ViewIs(run, t, p, Loc(s.root, q));
      if IsFile(View(run, p), Loc(s.root, q)) { ViewFilesStay(run, p, i, Loc(s.root, q)); }
    }
  }

  /** A file whose promotion has not begun, or is undone: the target part goes through exactly when it is redoable. */
  lemma AbsentTargetIff(run: RestoreRun, t: Tree, p: Position, i: nat, op: Operation)
    requires At(run, t, p) && i < |run.plan| && Matches(run, i, op) && p.k <= i && !(p.k == i && p.local.Moved?)
    ensures RestoreTarget(t, Txn(run.header), op).ok <==> Redoable(t, Txn(run.header), op)
  {
    PlanFacts(run);
    var l := Target(run.plan[i]);
    SlotNames(run.header, op.root, op.target);
    NotBlocked(run, t, p, i);
    assert SlotsRight(run, t, p, i);
    SlotPlaces(run, i, i);
    ViewIs(run, t, p, l);
    OpenTidy(t, l.root, Parent(l).path);
    if op.existed {
      OriginalInView(run, p, i);
      assert IsFile(t, l) && Hangs(t, l);
    } else {
      TargetFresh(run, p, i);
    }
  }

  lemma AbsentIff(run: RestoreRun, t: Tree, p: Position, i: nat, op: Operation)
    requires At(run, t, p) && i < |run.plan| && Matches(run, i, op) && p.k <= i && !(p.k == i && p.local.Moved?)
    ensures RollbackOperation(t, Txn(run.header), op).ok <==> Redoable(t, Txn(run.header), op)
  {
    AbsentTargetIff(run, t, p, i, op);
    RestoreAbsent(run, t, p, i, op);
    if !RestoreTarget(t, Txn(run.header), op).ok {
      return;
    }
    if p.k == i {
      var c := Created(run, i);
      assert c[..|c|] == c;
      RemoveDirsAt(run, t, i, p.local.made, |c|);
    } else {
      GoneDirsQuiet(run, t, p, i);
    }
  }

  /** A placed file is redoable exactly when its slot can be named. */
  lemma PlacedRedoable(run: RestoreRun, t: Tree, p: Position, j: nat, op: Operation)
    requires At(run, t, p) && j < p.k && Matches(run, j, op)
    ensures Redoable(t, Txn(run.header), op) <==> Short(op.target)
  {
    var l := Target(run.plan[j]);
    assert SlotsRight(run, t, p, j);
    if !op.existed {
      FinalContent(run, p.k, l);
      if p.k < |run.plan| && p.local.MakingDirs? {
        WithDirsAt(Level(run, p.k), run.plan[p.k].root, Created(run, p.k)[..p.local.made], l);
      }
      SlotPlaces(run, j, j);
      ViewIs(run, t, p, l);
      assert Hangs(t, l);
    }
  }

  ghost predicate AllRedoable(t: Tree, txn: string, ops: seq<Operation>) {
    forall j :: 0 <= j < |ops| ==> Redoable(t, txn, ops[j])
  }

  lemma {:induction false} PlacedAllRedoable(run: RestoreRun, t: Tree, p: Position, ops: seq<Operation>)
    requires At(run, t, p) && |ops| <= p.k && AllMatch(run, ops)
    ensures AllRedoable(t, Txn(run.header), ops) <==> AllShort(ops)
  {
    forall j | 0 <= j < |ops|
      ensures Redoable(t, Txn(run.header), ops[j]) <==> Short(ops[j].target)
    {
      assert Matches(run, j, ops[j]);
      PlacedRedoable(run, t, p, j, ops[j]);
    }
  }

  lemma {:induction false} AllRedoableSnoc(t: Tree, txn: string, ops: seq<Operation>)
    requires ops != []
    ensures AllRedoable(t, txn, ops) <==> AllRedoable(t, txn, ops[..|ops| - 1]) && Redoable(t, txn, ops[|ops| - 1])
  {
    var n := |ops| - 1;
    assert forall j :: 0 <= j < n ==> ops[..n][j] == ops[j];
  }

  /** An operation that changes nothing, then the rest. */
  lemma {:induction false} CombineLater(t: Tree, txn: string, op: Operation, done: seq<Operation>, ops: seq<Operation>)
    requires op.target != [] && ops == done + [op] && Targeted(ops) && Targeted(done)
    requires RollbackOperation(t, txn, op).tree == t
    requires RollbackOperation(t, txn, op).ok <==> Redoable(t, txn, op)
    requires RollbackAll(t, txn, done).ok <==> AllRedoable(t, txn, done)
    ensures RollbackAll(t, txn, ops).ok <==> AllRedoable(t, txn, ops)
  {
    assert ops[..|ops| - 1] == done;
    AllRedoableSnoc(t, txn, ops);
  }

  /** The operation in progress, then ones in place. */
  lemma {:induction false} CombineNow(t: Tree, txn: string, op: Operation, done: seq<Operation>, ops: seq<Operation>)
    requires op.target != [] && ops == done + [op] && Targeted(ops) && Targeted(done)
    requires RollbackOperation(t, txn, op).ok <==> Redoable(t, txn, op)
    requires var r := RollbackOperation(t, txn, op);
      r.ok ==> (RollbackAll(r.tree, txn, done).ok <==> AllRedoable(t, txn, done))
    ensures RollbackAll(t, txn, ops).ok <==> AllRedoable(t, txn, ops)
  {
    assert ops[..|ops| - 1] == done;
    AllRedoableSnoc(t, txn, ops);
  }

  /** The last operation, begun and perhaps in progress. */
  lemma {:induction false} LastRedoable(run: RestoreRun, t: Tree, p: Position, i: nat, op: Operation)
    requires At(run, t, p) && i < |run.plan| && Matches(run, i, op) && p.k <= i
    ensures RollbackOperation(t, Txn(run.header), op).ok <==> Redoable(t, Txn(run.header), op)
  {
    if p.k == i && p.local.Moved? {
      RollbackAt(run, t, p, i, op);
      assert SlotsRight(run, t, p, i);
      assert Fresh(run, t, p, i, op);
    } else {
      AbsentIff(run, t, p, i, op);
    }
  }

  /** Once the operation in progress is undone, the placed ones before it follow exactly when they can be named. */
  lemma {:induction false} RestComplete(run: RestoreRun, t: Tree, p: Position, op: Operation, done: seq<Operation>)
    requires At(run, t, p) && AllMatch(run, done) && p.k == |done| < |run.plan| && Matches(run, |done|, op)
    ensures var r := RollbackOperation(t, Txn(run.header), op);
      r.ok ==> (RollbackAll(r.tree, Txn(run.header), done).ok <==> AllShort(done))
  {
    var r := RollbackOperation(t, Txn(run.header), op);
    RollbackAt(run, t, p, |done|, op);
    if r.ok { RollbackAllAt(run, r.tree, Undone(p, |done|), done); }
  }

  /** An operation undone before: nothing changes, and it goes through exactly when it is redoable. */
  lemma LaterOperation(run: RestoreRun, t: Tree, p: Position, i: nat, op: Operation)
    requires At(run, t, p) && p.k < i < |run.plan| && Matches(run, i, op)
    ensures var r := RollbackOperation(t, Txn(run.header), op);
      r.tree == t && (r.ok <==> Redoable(t, Txn(run.header), op))
  {
    LastRedoable(run, t, p, i, op);
    RollbackUntouched(run, t, p, i, op);
  }

  lemma {:induction false} NowIff(run: RestoreRun, t: Tree, p: Position, ops: seq<Operation>)
    requires At(run, t, p) && AllMatch(run, ops) && ops != [] && p.k == |ops| - 1
    ensures RollbackAll(t, Txn(run.header), ops).ok <==> AllRedoable(t, Txn(run.header), ops)
  {
    var i, done := |ops| - 1, ops[..|ops| - 1];
    AllMatchFront(run, ops);
    LastRedoable(run, t, p, i, ops[i]);
    PlacedAllRedoable(run, t, p, done);
    RestComplete(run, t, p, ops[i], done);
    CombineNow(t, Txn(run.header), ops[i], done, ops);
  }

  lemma {:induction false} LaterIff(run: RestoreRun, t: Tree, p: Position, op: Operation, done: seq<Operation>,
      ops: seq<Operation>)
    requires At(run, t, p) && ops == done + [op] && Targeted(ops) && Targeted(done)
    requires p.k < |done| < |run.plan| && Matches(run, |done|, op)
    requires RollbackAll(t, Txn(run.header), done).ok <==> AllRedoable(t, Txn(run.header), done)
    ensures RollbackAll(t, Txn(run.header), ops).ok <==> AllRedoable(t, Txn(run.header), ops)
  {
    LaterOperation(run, t, p, |done|, op);
    assert ops[|done|] == op;
    CombineLater(t, Txn(run.header), op, done, ops);
  }

  /** The whole rollback goes through exactly when every operation is redoable at the start. */
  lemma {:induction false} RollbackAllIff(run: RestoreRun, t: Tree, p: Position, ops: seq<Operation>)
    requires At(run, t, p) && AllMatch(run, ops)
    requires p.k <= |ops| && (p.k == |ops| ==> p.local == MakingDirs(0))
    ensures RollbackAll(t, Txn(run.header), ops).ok <==> AllRedoable(t, Txn(run.header), ops)
    decreases |ops|
  {
    if p.k == |ops| {
      RollbackAllAt(run, t, p, ops);
      PlacedAllRedoable(run, t, p, ops);
    } else if p.k == |ops| - 1 {
      NowIff(run, t, p, ops);
    } else {
      AllMatchFront(run, ops);
      var done, op := ops[..|ops| - 1], ops[|ops| - 1];
      assert ops == done + [op];
      RollbackAllIff(run, t, p, done);
      LaterIff(run, t, p, op, done, ops);
    }
  }

  /** After any number of interrupted recoveries the next one succeeds exactly when every begun operation is redoable;
      otherwise it refuses with the disk untouched, or is held at a long name for good. */
  lemma ReentrySucceedsIff(run: RestoreRun, d: Disk, s: Stand)
    requires Stands(run, d, s) && s.Undecided?
    ensures Recovered(d, run.header.project).1 <==> AllRedoable(d.tree, Txn(run.header), s.ops)
    ensures var (d', ok) := Recovered(d, run.header.project);
      ok || d' == d || (!Nameable(s) && Recovered(d', run.header.project) == (d', false))
  {
    JournalMeans(run, d, s);
    RecoveryFailsClosed(run, d, s);
    StandMatches(run, d, s);
    RecoveredUndecided(d, run.header.project, run.header, s.ops);
    RollbackAllIff(run, d.tree, s.at, s.ops);
  }

  /** So a recovery stopped after it put a backed-up original back is refused from then on. */
  lemma StoppedAfterRestoring(run: RestoreRun, d: Disk, s: Stand, i: nat)
    requires Stands(run, d, s) && s.Undecided? && i < |s.ops| && s.ops[i].existed && s.ops[i].backedUp
    requires s.at.k < i || (s.at.k == i && s.at.local.MakingDirs?)
    ensures Recovered(d, run.header.project) == (d, false)
  {
    assert Matches(run, i, s.ops[i]);
    assert SlotsRight(run, d.tree, s.at, i);
    StandMatches(run, d, s);
    if s.at.k == i { ExistedNoDirs(run, i); }
    AbsentIff(run, d.tree, s.at, i, s.ops[i]);
    RollbackUntouched(run, d.tree, s.at, i, s.ops[i]);
    RefusedAt(run, d.tree, s.at, s.ops, i);
    JournalMeans(run, d, s);
  }
}
