/** Recovery: what a complete one does, where it may refuse, and the method that may be interrupted. */
module RestoreRecovery {
  import opened Common
  import opened RestoreJournal
  import opened RestoreDisk
  import opened RestorePlan
  import opened RestoreSteps

  /** The trees after a call, and whether it returned without error. */
  datatype Outcome = Outcome(tree: Tree, ok: bool)

  /** removeRegularTargetIfPresent */
  function RemoveIfPresent(t: Tree, l: Loc): Outcome {
    if l !in t then Outcome(t, true)
    else if !t[l].File? || RemoveEntry(t, l).None? then Outcome(t, false)
    else Outcome(RemoveEntry(t, l).value, true)
  }

  /** The last loop of rollbackRestoreOperation: directories deepest first, absent ones skipped. */
  function RemoveDirs(t: Tree, root: Root, dirs: seq<Path>): Outcome {
    if dirs == [] then Outcome(t, true)
    else
      var rest, d := dirs[..|dirs| - 1], dirs[|dirs| - 1];
      if d == [] then Outcome(t, false)
      else match Open(t, root, RestoreJournal.Dir(d))
        case Blocked => Outcome(t, false)
        case Absent => RemoveDirs(t, root, rest)
        case Opened =>
          var l := Loc(root, d);
          if l !in t then RemoveDirs(t, root, rest)
          else if !t[l].Dir? || RemoveEntry(t, l).None? then Outcome(t, false)
          else RemoveDirs(RemoveEntry(t, l).value, root, rest)
  }

  /** The first half of rollbackRestoreOperation: the target itself. */
  function RestoreTarget(t: Tree, txn: string, op: Operation): Outcome
    requires op.target != []
  {
    var target := Loc(op.root, op.target);
    var stage, slot := StageLoc(txn, op.root, op.target), RollbackLoc(txn, op.root, op.target);
    var stageParent, slotParent := Open(t, op.root, Parent(stage).path), Open(t, op.root, Parent(slot).path);
    var targetParent := Open(t, op.root, Parent(target).path);
    if !ValidRelative(stage.path) || !ValidRelative(slot.path) then Outcome(t, false)
    else if stageParent.Blocked? || slotParent.Blocked? then Outcome(t, false)
    else if slotParent.Opened? && slot in t && !t[slot].File? then Outcome(t, false)
    else if op.existed then
      if slotParent.Opened? && slot in t then
        if !targetParent.Opened? then Outcome(t, false)
        else
          var removed := RemoveIfPresent(t, target);
          if !removed.ok then removed
          else if RenameEntry(removed.tree, slot, target).None? then Outcome(removed.tree, false)
          else Outcome(RenameEntry(removed.tree, slot, target).value, true)
      else if op.backedUp || op.promoted then Outcome(t, false)
      else Outcome(t, targetParent.Opened? && IsFile(t, target))
    else if op.promoted || !(stageParent.Opened? && stage in t) then
      if !targetParent.Opened? then Outcome(t, false) else RemoveIfPresent(t, target)
    else Outcome(t, true)
  }

  function RollbackOperation(t: Tree, txn: string, op: Operation): Outcome
    requires op.target != []
  {
    var r := RestoreTarget(t, txn, op);
    if !r.ok then r else RemoveDirs(r.tree, op.root, op.createdDirs)
  }

  predicate Targeted(ops: seq<Operation>) {
    forall i :: 0 <= i < |ops| ==> ops[i].target != []
  }

  /** Undoes ops in reverse order, stopping at the first error. */
  function RollbackAll(t: Tree, txn: string, ops: seq<Operation>): Outcome
    requires Targeted(ops)
    decreases |ops|
  {
    if ops == [] then Outcome(t, true)
    else
      var r := RollbackOperation(t, txn, ops[|ops| - 1]);
      if !r.ok then r else RollbackAll(r.tree, txn, ops[..|ops| - 1])
  }

  // ---- Which operations a journal holds for a run

  /** Operation i is file i of the plan, begun on a healthy tree. */
  ghost predicate Matches(run: RestoreRun, i: nat, op: Operation)
    requires i < |run.plan|
  {
    && op.root == run.plan[i].root && op.target == run.plan[i].target
    && op.existed == Existed(run, i) && op.createdDirs == Created(run, i)
    && FlagsOrdered(op)
    && Tidy(Level(run, i))
    && Unblocked(Level(run, i), op.root, op.target)
    && (Existed(run, i) ==> IsFile(run.pre, Target(run.plan[i])))
  }

  ghost predicate Begun(run: RestoreRun, ops: seq<Operation>) {
    && |ops| <= |run.plan|
    && (forall i {:trigger Matches(run, i, ops[i])} :: 0 <= i < |ops| ==> Matches(run, i, ops[i]))
    && (forall i :: 0 <= i < |ops| - 1 ==> ops[i].promoted)
  }

  /** Nothing recovery would refuse: the step in progress is one the journal does not yet claim. */
  ghost predicate Fresh(run: RestoreRun, t: Tree, p: Position, i: nat, op: Operation)
    requires i < |run.plan|
  {
    p.k == i + 1 || (p.k == i && (p.local.Moved?
         || (!op.backedUp && !op.promoted && (op.existed || Stage(run, i) in t))))
  }

  /** The length up to which the name of a target's rollback slot is still a valid one: 72 bytes come before it. */
  const MAX_RECOVERABLE_LENGTH := MAX_ARCHIVE_PATH_LENGTH - 72

  predicate Short(target: Path) {
    PathLength(target) <= MAX_RECOVERABLE_LENGTH
  }

  predicate AllShort(ops: seq<Operation>) {
    forall i :: 0 <= i < |ops| ==> Short(ops[i].target)
  }

  lemma TxnComponent(header: Header)
    requires ValidTransactionId(header.id)
    ensures ValidComponent(Txn(header)) && ByteLength(Txn(header)) == 62
  {
    assert forall i :: 14 <= i < 62 ==> Txn(header)[i] == header.id[i - 14];
    AsciiLength(Txn(header));
  }

  lemma RollbackName()
    ensures ValidComponent("rollback") && ByteLength("rollback") == 8
  {
    AsciiLength("rollback");
  }

  lemma StageName()
    ensures ValidComponent("stage") && ByteLength("stage") == 5
  {
    AsciiLength("stage");
  }

  lemma {:induction false} AreaLength(txn: string, area: string, target: Path)
    requires ValidComponent(txn) && ValidComponent(area) && ValidRelative(target)
    ensures ValidRelative([txn, area] + target)
      <==> ByteLength(txn) + ByteLength(area) + 2 + PathLength(target) <= MAX_ARCHIVE_PATH_LENGTH
  {
    var p := [txn, area] + target;
    assert p[0] == txn && p[1..] == [area] + target;
    assert ([area] + target)[1..] == target;
    assert PathLength(p) == ByteLength(txn) + 1 + PathLength([area] + target);
    forall i | 0 <= i < |p|
      ensures ValidComponent(p[i])
    {
      if i >= 2 { assert p[i] == target[i - 2]; }
    }
  }

  /** Only the length of the target decides whether recovery can look up its two slots. */
  lemma SlotNames(header: Header, root: Root, target: Path)
    requires ValidTransactionId(header.id) && ValidRelative(target)
    ensures ValidRelative(RollbackLoc(Txn(header), root, target).path) <==> Short(target)
    ensures Short(target) ==> ValidRelative(StageLoc(Txn(header), root, target).path)
  {
    TxnComponent(header);
    RollbackName();
    StageName();
    AreaLength(Txn(header), "rollback", target);
    AreaLength(Txn(header), "stage", target);
  }

  /** An operation whose slot name is too long is refused by every recovery, before it looks at anything. */
  lemma TooLongRefused(run: RestoreRun, t: Tree, i: nat, op: Operation)
    requires GoodPlan(run) && i < |run.plan| && Matches(run, i, op) && !Short(op.target)
    ensures RestoreTarget(t, Txn(run.header), op) == Outcome(t, false)
    ensures RollbackOperation(t, Txn(run.header), op) == Outcome(t, false)
  {
    PlanFacts(run);
    SlotNames(run.header, op.root, op.target);
  }

  function Undone(p: Position, i: nat): Position {
    if i > p.k then p else Position(i, MakingDirs(0))
  }

  lemma NotBlocked(run: RestoreRun, t: Tree, p: Position, i: nat)
    requires At(run, t, p) && i < |run.plan|
    ensures Open(t, run.plan[i].root, Parent(Slot(run, i)).path)
      == if IsDir(t, Parent(Slot(run, i))) then Opened else Absent
    ensures Open(t, run.plan[i].root, Parent(Stage(run, i)).path)
      == if IsDir(t, Parent(Stage(run, i))) then Opened else Absent
    ensures Slot(run, i) in t ==> IsDir(t, Parent(Slot(run, i)))
    ensures Stage(run, i) in t ==> IsDir(t, Parent(Stage(run, i)))
  {
    assert SlotsRight(run, t, p, i);
    OpenUnblocked(t, run.plan[i].root, Slot(run, i).path);
    OpenUnblocked(t, run.plan[i].root, Stage(run, i).path);
    assert Slot(run, i) in t ==> Hangs(t, Slot(run, i));
    assert Stage(run, i) in t ==> Hangs(t, Stage(run, i));
  }

  /** A managed place is in the trees exactly when it is in the view. */
  lemma ViewIs(run: RestoreRun, t: Tree, p: Position, l: Loc)
    requires AtView(run, t, p) && !InTxn(l, Txn(run.header))
    ensures (l in t <==> l in View(run, p)) && (l in t ==> t[l] == View(run, p)[l])
  {
    assert Shows(run, t, p, l);
    assert l in t <==> l in Managed(t, Txn(run.header));
  }

  /** Where the target stood before its promotion, its parent is a directory now. */
  lemma ParentOpen(run: RestoreRun, t: Tree, p: Position, i: nat)
    requires At(run, t, p) && i < |run.plan| && p.k == i && p.local.Moved?
    ensures IsDir(t, Parent(Target(run.plan[i])))
  {
    TargetUntouched(run, i, i);
    var l := Target(run.plan[i]);
    assert LevelTidy(run, i);
    assert Hangs(Level(run, i), l);
    SlotPlaces(run, i, i);
    if Parent(l).path != [] {
      assert Parent(l).path[0] == l.path[0];
      ViewIs(run, t, p, Parent(l));
    }
  }

  /** Undoing the target of file i from any position with files above i already undone. */
  lemma RestoreTargetAt(run: RestoreRun, t: Tree, p: Position, i: nat, op: Operation)
    requires At(run, t, p) && i < |run.plan| && Matches(run, i, op) && p.k <= i + 1
    requires p.k == i + 1 ==> p.local == MakingDirs(0)
    ensures var r := RestoreTarget(t, Txn(run.header), op);
      && (!r.ok ==> r.tree == t && !(Short(op.target) && Fresh(run, t, p, i, op)))
      && (r.ok ==> Short(op.target) && At(run, r.tree,
           if p.k > i then Position(i, if op.existed then MakingDirs(0) else MakingDirs(|Created(run, i)|))
           else if p.k == i && p.local.Moved? then Position(i, MakingDirs(0)) else p))
  {
    if !Short(op.target) {
      TooLongRefused(run, t, i, op);
    } else if p.k == i + 1 {
      RestorePlaced(run, t, i, op);
    } else if p.k == i && p.local.Moved? {
      RestoreMoved(run, t, i, op);
    } else {
      RestoreAbsent(run, t, p, i, op);
    }
  }

  /** Both slots of op can be looked at, and what the rollback slot holds is a file. */
  ghost predicate Judged(t: Tree, txn: string, op: Operation) {
    var stage, slot := StageLoc(txn, op.root, op.target), RollbackLoc(txn, op.root, op.target);
    var stageParent, slotParent := Open(t, op.root, Parent(stage).path), Open(t, op.root, Parent(slot).path);
    && op.target != [] && ValidRelative(stage.path) && ValidRelative(slot.path)
    && !stageParent.Blocked? && !slotParent.Blocked?
    && (slot in t ==> slotParent.Opened? && t[slot].File?)
    && (stage in t ==> stageParent.Opened?)
  }

  lemma JudgedAt(run: RestoreRun, t: Tree, p: Position, i: nat, op: Operation)
    requires i < |run.plan| && At(run, t, p) && Matches(run, i, op) && Short(op.target)
    ensures Judged(t, Txn(run.header), op)
  {
    PlanFacts(run);
    SlotNames(run.header, op.root, op.target);
    NotBlocked(run, t, p, i);
    assert SlotsRight(run, t, p, i);
  }

  /** The target gives way to the original in its slot, or to nothing. */
  lemma RestoreRemoves(t: Tree, txn: string, op: Operation, t1: Tree)
    requires Judged(t, txn, op)
    requires var target := Loc(op.root, op.target);
      && IsFile(t, target) && Open(t, op.root, Parent(target).path).Opened? && RemoveEntry(t, target) == Some(t1)
      && (if op.existed then
            var slot := RollbackLoc(txn, op.root, op.target);
            slot in t && RenameEntry(t1, slot, target).Some?
          else StageLoc(txn, op.root, op.target) !in t)
    ensures RestoreTarget(t, txn, op)
      == Outcome(if op.existed
                 then RenameEntry(t1, RollbackLoc(txn, op.root, op.target), Loc(op.root, op.target)).value
                 else t1, true)
  {
  }

  lemma RestorePlaced(run: RestoreRun, t: Tree, i: nat, op: Operation)
    requires i < |run.plan| && At(run, t, Position(i + 1, MakingDirs(0))) && Matches(run, i, op) && Short(op.target)
    ensures var r := RestoreTarget(t, Txn(run.header), op);
      r.ok && At(run, r.tree, Position(i, if op.existed then MakingDirs(0) else MakingDirs(|Created(run, i)|)))
  {
    var p, l := Position(i + 1, MakingDirs(0)), Target(run.plan[i]);
    PlacedFile(run, t, i);
    JudgedAt(run, t, p, i, op);
    assert SlotsRight(run, t, p, i);
    var t1 := RemoveEntry(t, l).value;
    UnplaceStep(run, t, t1, i);
    if op.existed {
      MovedRename(run, t1, i);
      MoveBack(run, t1, RenameEntry(t1, Slot(run, i), l).value, i);
    }
    RestoreRemoves(t, Txn(run.header), op, t1);
  }

  /** A promoted file can be removed. */
  lemma PlacedFile(run: RestoreRun, t: Tree, i: nat)
    requires i < |run.plan| && At(run, t, Position(i + 1, MakingDirs(0)))
    ensures var l := Target(run.plan[i]);
      IsFile(t, l) && RemoveEntry(t, l).Some? && Open(t, l.root, Parent(l).path).Opened?
  {
    PlanFacts(run);
    var p, l := Position(i + 1, MakingDirs(0)), Target(run.plan[i]);
    StartView(run, i + 1);
    PromotedAt(Level(run, i), run.plan[i], l);
    SlotPlaces(run, i, i);
    ViewIs(run, t, p, l);
    assert IsFile(t, l) && Hangs(t, l);
    FileNoChild(t, l);
    OpenTidy(t, l.root, Parent(l).path);
  }

  /** From the slot the original can always be renamed back. */
  lemma MovedRename(run: RestoreRun, t: Tree, i: nat)
    requires i < |run.plan| && At(run, t, Position(i, Moved)) && IsFile(run.pre, Target(run.plan[i]))
    ensures RenameEntry(t, Slot(run, i), Target(run.plan[i])).Some?
    ensures Target(run.plan[i]) !in t
  {
    var p, l := Position(i, Moved), Target(run.plan[i]);
    ParentOpen(run, t, p, i);
    SlotPlaces(run, i, i);
    ViewIs(run, t, p, l);
    assert SlotsRight(run, t, p, i);
  }

  lemma RestoreMoved(run: RestoreRun, t: Tree, i: nat, op: Operation)
    requires i < |run.plan| && At(run, t, Position(i, Moved)) && Matches(run, i, op) && Short(op.target)
    ensures var r := RestoreTarget(t, Txn(run.header), op);
      r.ok && At(run, r.tree, Position(i, MakingDirs(0)))
  {
    PlanFacts(run);
    var p, l := Position(i, Moved), Target(run.plan[i]);
    MovedRename(run, t, i);
    SlotNames(run.header, op.root, op.target);
    NotBlocked(run, t, p, i);
    assert SlotsRight(run, t, p, i);
    ParentOpen(run, t, p, i);
    OpenTidy(t, l.root, Parent(l).path);
    MoveBack(run, t, RenameEntry(t, Slot(run, i), l).value, i);
  }

  /** Nothing of file i is in place: the target is left alone, or recovery refuses. */
  lemma RestoreAbsent(run: RestoreRun, t: Tree, p: Position, i: nat, op: Operation)
    requires At(run, t, p) && i < |run.plan| && Matches(run, i, op) && p.k <= i && !(p.k == i && p.local.Moved?)
    ensures var r := RestoreTarget(t, Txn(run.header), op);
      r.tree == t && (r.ok ==> Short(op.target)) && (!r.ok ==> !(Short(op.target) && Fresh(run, t, p, i, op)))
  {
    if !Short(op.target) {
      TooLongRefused(run, t, i, op);
      return;
    }
    JudgedAt(run, t, p, i, op);
    var l := Target(run.plan[i]);
    assert SlotsRight(run, t, p, i);
    SlotPlaces(run, i, i);
    ViewIs(run, t, p, l);
    if !op.existed {
      TargetFresh(run, p, i);
    } else if p.k == i {
      ExistedNoDirs(run, i);
      TargetUntouched(run, i, i);
      assert IsFile(t, l) && Hangs(t, l);
      OpenTidy(t, l.root, Parent(l).path);
    }
  }

  /** The directory loop meets an absent directory, or one it can remove. */
  lemma {:induction false} RemoveDirsStep(t: Tree, root: Root, c: seq<Path>, n: nat)
    requires n < |c| && c[n] != [] && !Open(t, root, RestoreJournal.Dir(c[n])).Blocked?
    requires Loc(root, c[n]) in t ==> Open(t, root, RestoreJournal.Dir(c[n])).Opened?
    ensures Loc(root, c[n]) !in t ==> RemoveDirs(t, root, c[..n + 1]) == RemoveDirs(t, root, c[..n])
    ensures Loc(root, c[n]) in t && t[Loc(root, c[n])].Dir? && RemoveEntry(t, Loc(root, c[n])).Some? ==>
      RemoveDirs(t, root, c[..n + 1]) == RemoveDirs(RemoveEntry(t, Loc(root, c[n])).value, root, c[..n])
  {
    assert c[..n + 1][..n] == c[..n];
  }

  /** Removing the journaled directories of file i, any of which may be gone already. */
  lemma {:induction false} RemoveDirsAt(run: RestoreRun, t: Tree, i: nat, made: nat, n: nat)
    requires i < |run.plan| && At(run, t, Position(i, MakingDirs(made))) && made <= n <= |Created(run, i)|
    requires Unblocked(Level(run, i), run.plan[i].root, run.plan[i].target)
    ensures var r := RemoveDirs(t, run.plan[i].root, Created(run, i)[..n]);
      r.ok && At(run, r.tree, Position(i, MakingDirs(0)))
    decreases n
  {
    if n > 0 {
      var n1: nat := n - 1;
      DirOpens(run, t, i, made, n1);
      if made == n {
        var t1 := LastDirGoes(run, t, i, n1);
        RemoveDirsAt(run, t1, i, n1, n1);
      } else {
        RemoveDirsStep(t, run.plan[i].root, Created(run, i), n1);
        RemoveDirsAt(run, t, i, made, n1);
      }
    }
  }

  /** The deepest directory made is the next to go. */
  lemma {:induction false} LastDirGoes(run: RestoreRun, t: Tree, i: nat, n: nat) returns (t1: Tree)
    requires i < |run.plan| && n < |Created(run, i)| && At(run, t, Position(i, MakingDirs(n + 1)))
    requires Unblocked(Level(run, i), run.plan[i].root, run.plan[i].target)
    ensures At(run, t1, Position(i, MakingDirs(n)))
    ensures RemoveDirs(t, run.plan[i].root, Created(run, i)[..n + 1])
         == RemoveDirs(t1, run.plan[i].root, Created(run, i)[..n])
  {
    var root, c := run.plan[i].root, Created(run, i);
    DirOpens(run, t, i, n + 1, n);
    RmdirPossible(run, t, i, n);
    RemoveDirsStep(t, root, c, n);
    t1 := RemoveEntry(t, Loc(root, c[n])).value;
    RmdirStep(run, t, t1, i, n);
  }

  lemma DirOpens(run: RestoreRun, t: Tree, i: nat, made: nat, n: nat)
    requires i < |run.plan| && At(run, t, Position(i, MakingDirs(made))) && n < |Created(run, i)|
    requires Unblocked(Level(run, i), run.plan[i].root, run.plan[i].target)
    ensures var l := Loc(run.plan[i].root, Created(run, i)[n]);
      && l.path != []
      && !Open(t, l.root, Parent(l).path).Blocked?
      && (l in t <==> n < made)
      && (l in t ==> Open(t, l.root, Parent(l).path).Opened?)
  {
    var s, c := run.plan[i], Created(run, i);
    var l := Loc(s.root, c[n]);
    CreatedManaged(run, i, n);
    ViewIs(run, t, Position(i, MakingDirs(made)), l);
    WithDirsAt(Level(run, i), s.root, c[..made], l);
    forall j | 0 <= j < made && c[j] == c[n]
      ensures n < made
    {
      if j < n { CreatedManaged(run, i, n); } else if n < j { CreatedManaged(run, i, j); }
    }
    assert l in t ==> Hangs(t, l);
    OpenTidy(t, l.root, Parent(l).path);
    if Open(t, l.root, Parent(l).path).Blocked? {
      var q :| q <= Parent(l).path && Loc(l.root, q) in t && t[Loc(l.root, q)].File?;
      assert Hangs(t, Loc(l.root, q));
      assert q[0] == s.target[0] && q < s.target;
      ViewIs(run, t, Position(i, MakingDirs(made)), Loc(l.root, q));
      WithDirsAt(Level(run, i), s.root, c[..made], Loc(l.root, q));
    }
  }

  /** Directories of an undone promotion are gone, so removing them again does nothing. */
  lemma {:induction false} RemoveDirsGone(t: Tree, root: Root, dirs: seq<Path>)
    requires forall j :: 0 <= j < |dirs| ==> dirs[j] != [] && Loc(root, dirs[j]) !in t
    ensures RemoveDirs(t, root, dirs).tree == t
  {
    if dirs != [] { RemoveDirsGone(t, root, dirs[..|dirs| - 1]); }
  }

  /** Undoing file i: complete from a fresh position when its slot can be named, otherwise complete or refused with
      nothing changed. */
  lemma RollbackAt(run: RestoreRun, t: Tree, p: Position, i: nat, op: Operation)
    requires At(run, t, p) && i < |run.plan| && Matches(run, i, op) && p.k <= i + 1
    requires p.k == i + 1 ==> p.local == MakingDirs(0)
    ensures var r := RollbackOperation(t, Txn(run.header), op);
      && (!r.ok ==> r.tree == t && !(Short(op.target) && Fresh(run, t, p, i, op)))
      && (r.ok ==> Short(op.target) && At(run, r.tree, Undone(p, i)))
  {
    RestoreTargetAt(run, t, p, i, op);
    var r := RestoreTarget(t, Txn(run.header), op);
    if r.ok {
      var c := Created(run, i);
      assert c[..|c|] == c;
      if op.existed { ExistedNoDirs(run, i); }
      if p.k == i + 1 {
        RemoveDirsAt(run, r.tree, i, |c|, |c|);
      } else if p.k == i && p.local.Moved? {
        RemoveDirsAt(run, r.tree, i, 0, |c|);
      } else if p.k == i {
        RemoveDirsAt(run, r.tree, i, p.local.made, |c|);
      } else {
        GoneDirs(run, t, p, i);
        RestoreAbsent(run, t, p, i, op);
        RemoveDirsGone(t, op.root, c);
      }
    }
  }

  lemma GoneDirs(run: RestoreRun, t: Tree, p: Position, i: nat)
    requires At(run, t, p) && p.k < i < |run.plan|
    ensures forall j :: 0 <= j < |Created(run, i)| ==>
      Created(run, i)[j] != [] && Loc(run.plan[i].root, Created(run, i)[j]) !in t
  {
    ViewBelowLater(run, p, i);
    forall j | 0 <= j < |Created(run, i)|
      ensures Created(run, i)[j] != [] && Loc(run.plan[i].root, Created(run, i)[j]) !in t
    {
      CreatedManaged(run, i, j);
      ViewIs(run, t, p, Loc(run.plan[i].root, Created(run, i)[j]));
    }
  }

  /** How many operations lie up to the last one recovery cannot name, which it never gets past. */
  function Barrier(ops: seq<Operation>): (n: nat)
    ensures n <= |ops| && (n > 0 ==> !Short(ops[n - 1].target))
    ensures forall i :: n <= i < |ops| ==> Short(ops[i].target)
  {
    if ops == [] then 0
    else if !Short(ops[|ops| - 1].target) then |ops|
    else Barrier(ops[..|ops| - 1])
  }

  /** Where a complete rollback from p ends: at the start, or held at the last operation it cannot name. */
  function Held(ops: seq<Operation>, p: Position): Position {
    if Barrier(ops) <= p.k then Position(Barrier(ops), MakingDirs(0)) else p
  }

  /** Every operation is that of its file in the plan. */
  ghost predicate AllMatch(run: RestoreRun, ops: seq<Operation>) {
    && |ops| <= |run.plan| && Targeted(ops)
    && forall i {:trigger Matches(run, i, ops[i])} :: 0 <= i < |ops| ==> Matches(run, i, ops[i])
  }

  lemma {:induction false} AllMatchFront(run: RestoreRun, ops: seq<Operation>)
    requires AllMatch(run, ops) && ops != []
    ensures AllMatch(run, ops[..|ops| - 1]) && Matches(run, |ops| - 1, ops[|ops| - 1])
  {
  }

  ghost predicate FreshAll(run: RestoreRun, t: Tree, p: Position, ops: seq<Operation>)
    requires p.k <= |ops| <= |run.plan|
  {
    p.k == |ops| || Fresh(run, t, p, |ops| - 1, ops[|ops| - 1])
  }

  /** r may be the outcome of undoing ops from p: it went as far as the names allow, or it was refused with nothing
      changed; from a fresh position the former, and to the end exactly when all names do. */
  ghost predicate RolledBack(run: RestoreRun, t: Tree, p: Position, ops: seq<Operation>, r: Outcome)
    requires p.k <= |ops| <= |run.plan|
  {
    && (r.ok ==> AllShort(ops) && At(run, r.tree, Held(ops, p)))
    && (!r.ok ==> r.tree == t || (!AllShort(ops) && At(run, r.tree, Held(ops, p))))
    && (FreshAll(run, t, p, ops) ==> (r.ok <==> AllShort(ops)) && At(run, r.tree, Held(ops, p)))
  }

  lemma {:induction false} BarrierStep(ops: seq<Operation>, p: Position)
    requires ops != [] && Short(ops[|ops| - 1].target) && p.k <= |ops|
    ensures var done := ops[..|ops| - 1];
      && (AllShort(ops) <==> AllShort(done)) && (AllShort(ops) <==> Barrier(ops) == 0)
      && Held(ops, p) == Held(done, Undone(p, |done|))
  {
  }

  /** The last operation, then the others. */
  lemma {:induction false} RolledBackStep(run: RestoreRun, t: Tree, p: Position, ops: seq<Operation>, t1: Tree,
      r: Outcome)
    requires 0 < |ops| <= |run.plan| && p.k <= |ops| && Short(ops[|ops| - 1].target)
    requires p.k < |ops| - 1 ==> t1 == t
    requires Undone(p, |ops| - 1).k <= |ops| - 1 && RolledBack(run, t1, Undone(p, |ops| - 1), ops[..|ops| - 1], r)
    requires p.k == |ops| ==> p.local == MakingDirs(0)
    ensures RolledBack(run, t, p, ops, r)
  {
    BarrierStep(ops, p);
  }

  /** Undoing every begun operation. */
  lemma {:induction false} RollbackAllAt(run: RestoreRun, t: Tree, p: Position, ops: seq<Operation>)
    requires At(run, t, p) && AllMatch(run, ops)
    requires p.k <= |ops| && (p.k == |ops| ==> p.local == MakingDirs(0))
    ensures RolledBack(run, t, p, ops, RollbackAll(t, Txn(run.header), ops))
    decreases |ops|
  {
    if ops != [] {
      var i := |ops| - 1;
      AllMatchFront(run, ops);
      RollbackAt(run, t, p, i, ops[i]);
      var r := RollbackOperation(t, Txn(run.header), ops[i]);
      if r.ok {
        RollbackAllAt(run, r.tree, Undone(p, i), ops[..i]);
        if p.k < i { RollbackUntouched(run, t, p, i, ops[i]); }
        RolledBackStep(run, t, p, ops, r.tree, RollbackAll(r.tree, Txn(run.header), ops[..i]));
      } else {
        RefusedHere(run, t, p, ops, r);
      }
    }
  }

  lemma {:induction false} RefusedHere(run: RestoreRun, t: Tree, p: Position, ops: seq<Operation>, r: Outcome)
    requires 0 < |ops| <= |run.plan| && p.k <= |ops| && At(run, t, p) && !r.ok && r.tree == t
    requires p.k == |ops| ==> p.local == MakingDirs(0)
    requires !(Short(ops[|ops| - 1].target) && Fresh(run, t, p, |ops| - 1, ops[|ops| - 1]))
    ensures RolledBack(run, t, p, ops, r)
  {
  }

  /** An operation with nothing in place. */
  lemma RollbackUntouched(run: RestoreRun, t: Tree, p: Position, i: nat, op: Operation)
    requires At(run, t, p) && i < |run.plan| && Matches(run, i, op)
    requires p.k < i || p == Position(i, MakingDirs(0))
    ensures RollbackOperation(t, Txn(run.header), op).tree == t
  {
    RestoreAbsent(run, t, p, i, op);
    if p.k < i {
      GoneDirs(run, t, p, i);
    } else {
      forall j | 0 <= j < |Created(run, i)|
        ensures Created(run, i)[j] != [] && Loc(run.plan[i].root, Created(run, i)[j]) !in t
      {
        DirOpens(run, t, i, 0, j);
      }
    }
    RemoveDirsGone(t, op.root, op.createdDirs);
  }

  /** An operation that is refused, met before anything was changed, refuses the whole rollback. */
  lemma {:induction false} RefusedFirst(t: Tree, txn: string, ops: seq<Operation>, j: nat)
    requires Targeted(ops) && j < |ops| && RollbackOperation(t, txn, ops[j]) == Outcome(t, false)
    requires forall i :: j < i < |ops| ==> RollbackOperation(t, txn, ops[i]).tree == t
    ensures RollbackAll(t, txn, ops) == Outcome(t, false)
    decreases |ops|
  {
    var i := |ops| - 1;
    if i != j {
      RefusedFirst(t, txn, ops[..i], j);
      RefusedRest(t, txn, ops[i], ops[..i], ops);
    }
  }

  lemma {:induction false} RefusedRest(t: Tree, txn: string, op: Operation, done: seq<Operation>, ops: seq<Operation>)
    requires ops == done + [op] && Targeted(ops) && Targeted(done)
    requires op.target != [] && RollbackOperation(t, txn, op).tree == t
    requires RollbackAll(t, txn, done) == Outcome(t, false)
    ensures RollbackAll(t, txn, ops) == Outcome(t, false)
  {
    assert ops[..|done|] == done;
  }

  lemma {:induction false} RefusedAt(run: RestoreRun, t: Tree, p: Position, ops: seq<Operation>, j: nat)
    requires At(run, t, p) && AllMatch(run, ops)
    requires j < |ops| && p.k <= j + 1 && (p.k == j + 1 ==> p.local == MakingDirs(0))
    requires RollbackOperation(t, Txn(run.header), ops[j]) == Outcome(t, false)
    ensures RollbackAll(t, Txn(run.header), ops) == Outcome(t, false)
  {
    forall i | j < i < |ops|
      ensures RollbackOperation(t, Txn(run.header), ops[i]).tree == t
    {
      RollbackUntouched(run, t, p, i, ops[i]);
    }
    RefusedFirst(t, Txn(run.header), ops, j);
  }

  // ---- Whole disks

  /** How a restore stands on disk. */
  datatype Stand =
    | Bare                                              // journal open, nothing promoted yet
    | Undecided(ops: seq<Operation>, at: Position)      // some operations begun, no commit record
    | Committed(ops: seq<Operation>)                    // commit record present
    | Restored                                          // finished: the trees as before
    | Renewed                                           // finished: the staged files in place

  ghost predicate Stands(run: RestoreRun, d: Disk, s: Stand) {
    match s
    case Bare =>
      && HeaderAccepted(HeaderRecord(JOURNAL_VERSION, run.header), run.header.project)
      && d.journal == Some(Written(run.header, [], false)) && JournalFits(d.journal.value)
      && Tidy(d.tree) && Managed(d.tree, Txn(run.header)) == run.pre
    case Undecided(ops, p) =>
      && d.journal == Some(Written(run.header, ops, false)) && JournalFits(d.journal.value)
      && Begun(run, ops) && At(run, d.tree, p)
      && p.k <= |ops| && (p.k == |ops| ==> p.local == MakingDirs(0))
    case Committed(ops) =>
      && d.journal == Some(Written(run.header, ops, true)) && JournalFits(d.journal.value)
      && GoodPlan(run) && Begun(run, ops) && |ops| == |run.plan|
      && Tidy(d.tree) && Managed(d.tree, Txn(run.header)) == Level(run, |run.plan|)
    case Restored => d == Disk(run.pre, None)
    case Renewed => d == Disk(Level(run, |run.plan|), None)
  }

  /** Where the run itself, as opposed to an interrupted recovery, can leave the disk before it commits. */
  ghost predicate Running(run: RestoreRun, d: Disk, s: Stand) {
    && Stands(run, d, s)
    && match s
       case Bare => true
       case Undecided(ops, p) => FreshAll(run, d.tree, p, ops)
       case Committed(_) => true
       case Restored => false
       case Renewed => false
  }

  /** recoverRestoreTransaction without interruption: the disk it leaves and whether it succeeds. */
  function Recovered(d: Disk, project: Path): (Disk, bool) {
    if d.journal.None? then (d, true)
    else match Load(d.journal.value, project)
      case None => (d, false)
      case Some(st) =>
        var r := if st.committed || !Targeted(st.operations) then Outcome(d.tree, st.committed)
                 else RollbackAll(d.tree, Txn(st.header), st.operations);
        if r.ok then (Disk(Managed(r.tree, Txn(st.header)), None), true) else (Disk(r.tree, d.journal), false)
  }

  lemma BegunWritable(run: RestoreRun, ops: seq<Operation>)
    requires GoodPlan(run) && Begun(run, ops)
    ensures Writable(ops) && Targeted(ops)
  {
    PlanFacts(run);
    forall i | 0 <= i < |ops|
      ensures BeginAccepted(ops[i].target, ops[i].createdDirs) && FlagsOrdered(ops[i]) && ops[i].target != []
    {
      assert Matches(run, i, ops[i]);
      MissingAccepted(Level(run, i), run.plan[i].root, run.plan[i].target);
    }
    forall i, j | 0 <= i < j < |ops|
      ensures !SameTarget(ops[i], ops[j])
    {
      assert Matches(run, i, ops[i]) && Matches(run, j, ops[j]);
    }
  }

  lemma JournalMeans(run: RestoreRun, d: Disk, s: Stand)
    requires Stands(run, d, s) && (s.Bare? || s.Undecided? || s.Committed?)
    ensures d.journal.Some?
    ensures Load(d.journal.value, run.header.project)
      == Some(JournalState(run.header, if s.Bare? then [] else s.ops, s.Committed?))
    ensures !s.Bare? ==> Targeted(s.ops)
  {
    if s.Bare? {
      ReadBack(run.header, [], false);
    } else {
      BegunWritable(run, s.ops);
      ReadBack(run.header, s.ops, s.Committed?);
    }
  }

  lemma BegunMatch(run: RestoreRun, ops: seq<Operation>)
    requires GoodPlan(run) && Begun(run, ops)
    ensures AllMatch(run, ops)
  {
    BegunWritable(run, ops);
  }

  /** r may be the result of a complete recovery of d, where ops are begun and p is the position. */
  ghost predicate RecoveredTo(run: RestoreRun, d: Disk, ops: seq<Operation>, p: Position, r: (Disk, bool)) {
    && (r.1 ==> AllShort(ops) && r.0 == Disk(run.pre, None))
    && (!r.1 ==> r.0 == d || (!AllShort(ops) && Stands(run, r.0, Undecided(ops, Held(ops, p)))))
  }

  /** From a fresh position recovery goes through exactly when all names do, and otherwise stops at the last long one.
      */
  ghost predicate RecoveredAsNamed(run: RestoreRun, d: Disk, ops: seq<Operation>, p: Position, r: (Disk, bool)) {
    (r.1 <==> AllShort(ops)) && (!r.1 ==> Stands(run, r.0, Undecided(ops, Held(ops, p))))
  }

  /** The disk after a rollback that stopped at r. */
  lemma StopsAt(run: RestoreRun, d: Disk, ops: seq<Operation>, p: Position, t: Tree)
    requires Stands(run, d, Undecided(ops, p)) && At(run, t, Held(ops, p))
    ensures Stands(run, d.(tree := t), Undecided(ops, Held(ops, p)))
  {
  }

  lemma StartTree(run: RestoreRun, t: Tree)
    requires At(run, t, Position(0, MakingDirs(0)))
    ensures Managed(t, Txn(run.header)) == run.pre
  {
    Viewed(run, t, Position(0, MakingDirs(0)));
    StartView(run, 0);
  }

  lemma {:induction false} RecoveredUndecided(d: Disk, project: Path, header: Header, ops: seq<Operation>)
    requires d.journal.Some? && Targeted(ops)
    requires Load(d.journal.value, project) == Some(JournalState(header, ops, false))
    ensures var r := RollbackAll(d.tree, Txn(header), ops);
      Recovered(d, project)
        == if r.ok then (Disk(Managed(r.tree, Txn(header)), None), true) else (Disk(r.tree, d.journal), false)
  {
  }

  lemma RecoverUndecided(run: RestoreRun, d: Disk, ops: seq<Operation>, p: Position)
    requires Stands(run, d, Undecided(ops, p))
    ensures RecoveredTo(run, d, ops, p, Recovered(d, run.header.project))
    ensures FreshAll(run, d.tree, p, ops) ==> RecoveredAsNamed(run, d, ops, p, Recovered(d, run.header.project))
  {
    JournalMeans(run, d, Undecided(ops, p));
    BegunMatch(run, ops);
    RecoveredUndecided(d, run.header.project, run.header, ops);
    RollbackAllAt(run, d.tree, p, ops);
    var r := RollbackAll(d.tree, Txn(run.header), ops);
    if At(run, r.tree, Held(ops, p)) { StopsAt(run, d, ops, p, r.tree); }
    if r.ok { StartTree(run, r.tree); }
  }

  lemma HeldRollback(run: RestoreRun, t: Tree, p: Position, ops: seq<Operation>)
    requires At(run, t, p) && AllMatch(run, ops) && !AllShort(ops)
    requires p.k <= Barrier(ops) && (p.k == Barrier(ops) ==> p.local == MakingDirs(0))
    ensures RollbackAll(t, Txn(run.header), ops) == Outcome(t, false)
  {
    var j := Barrier(ops) - 1;
    TooLongRefused(run, t, j, ops[j]);
    RefusedAt(run, t, p, ops, j);
  }

  lemma {:induction false} StandMatches(run: RestoreRun, d: Disk, s: Stand)
    requires Stands(run, d, s) && s.Undecided?
    ensures At(run, d.tree, s.at) && AllMatch(run, s.ops)
    ensures s.at.k <= |s.ops| && (s.at.k == |s.ops| ==> s.at.local == MakingDirs(0))
  {
    BegunMatch(run, s.ops);
  }

  /** Once nothing is left to undo above an operation whose slot cannot be named, recovery stays refused. */
  lemma HeldForGood(run: RestoreRun, d: Disk, s: Stand)
    requires Stands(run, d, s) && s.Undecided? && !AllShort(s.ops)
    requires s.at.k <= Barrier(s.ops) && (s.at.k == Barrier(s.ops) ==> s.at.local == MakingDirs(0))
    ensures Recovered(d, run.header.project) == (d, false)
  {
    JournalMeans(run, d, s);
    StandMatches(run, d, s);
    HeldRollback(run, d.tree, s.at, s.ops);
    RecoveredUndecided(d, run.header.project, run.header, s.ops);
  }

  lemma RecoverSettled(run: RestoreRun, d: Disk, s: Stand)
    requires Stands(run, d, s) && (s.Bare? || s.Committed?)
    ensures Recovered(d, run.header.project)
      == (Disk(if s.Committed? then Level(run, |run.plan|) else run.pre, None), true)
  {
    JournalMeans(run, d, s);
  }

  /** The decision is taken, or every begun operation's slot can be named. */
  predicate Nameable(s: Stand) {
    s.Undecided? ==> AllShort(s.ops)
  }

  /** Crash atomicity: from every point a run can stop at, one complete recovery leaves the trees exactly as they were,
      or with every staged file in place when the commit record is there, and nothing else remains; exactly when no
      operation was begun whose slot name is too long. */
  lemma CrashAtomicity(run: RestoreRun, d: Disk, s: Stand)
    requires Running(run, d, s)
    ensures var (d', ok) := Recovered(d, run.header.project);
      && (ok <==> Nameable(s))
      && (ok ==> d' == Disk(if s.Committed? then Level(run, |run.plan|) else run.pre, None))
  {
    if s.Undecided? {
      RecoverUndecided(run, d, s.ops, s.at);
    } else {
      RecoverSettled(run, d, s);
    }
  }

  /** What a recovery held at a long name leaves: the later operations undone, the journal, and a disk no further
      recovery changes. */
  lemma LongNameHolds(run: RestoreRun, d: Disk, s: Stand)
    requires Running(run, d, s) && !Nameable(s)
    ensures var d' := Recovered(d, run.header.project).0;
      && Stands(run, d', Undecided(s.ops, Held(s.ops, s.at)))
      && Recovered(d', run.header.project) == (d', false)
  {
    RecoverUndecided(run, d, s.ops, s.at);
    HeldForGood(run, Recovered(d, run.header.project).0, Undecided(s.ops, Held(s.ops, s.at)));
  }

  /** Re-entry fails closed: after any number of interrupted recoveries a further one either finishes, or refuses with
      the disk untouched, or is held at a long name, from where no further recovery changes anything. */
  lemma RecoveryFailsClosed(run: RestoreRun, d: Disk, s: Stand)
    requires Stands(run, d, s)
    ensures var (d', ok) := Recovered(d, run.header.project);
      && (ok ==> Nameable(s) && Stands(run, d', if s.Committed? || s.Renewed? then Renewed else Restored))
      && (!ok ==> s.Undecided?)
      && (ok || d' == d || (!Nameable(s) && Stands(run, d', Undecided(s.ops, Held(s.ops, s.at)))
                            && Recovered(d', run.header.project) == (d', false)))
  {
    if s.Undecided? {
      RecoverUndecided(run, d, s.ops, s.at);
      var d' := Recovered(d, run.header.project).0;
      if !Recovered(d, run.header.project).1 && d' != d {
        HeldForGood(run, d', Undecided(s.ops, Held(s.ops, s.at)));
      }
    } else if s.Bare? || s.Committed? {
      JournalMeans(run, d, s);
    }
  }

  /** The view still holds the original of any file whose promotion has not moved it. */
  lemma OriginalInView(run: RestoreRun, p: Position, i: nat)
    requires GoodPlan(run) && ValidPosition(run, p) && i < |run.plan| && Tidy(Level(run, i))
    requires Existed(run, i) && !InSlot(run, p, i)
    ensures var l := Target(run.plan[i]); l in View(run, p) && View(run, p)[l] == run.pre[l]
  {
    PlanFacts(run);
    var l := Target(run.plan[i]);
    TargetUntouched(run, p.k, i);
    if p.local.MakingDirs? {
      var c := Created(run, p.k)[..p.local.made];
      WithDirsAt(Level(run, p.k), run.plan[p.k].root, c, l);
      if p.k == i {
        ExistedNoDirs(run, i);
      } else if run.plan[p.k].root == l.root {
        OtherTarget(run, p.k, i);
      }
    }
  }

  lemma OtherTarget(run: RestoreRun, k: nat, i: nat)
    requires GoodPlan(run) && k < |run.plan| && i < |run.plan| && k != i && run.plan[k].root == run.plan[i].root
    ensures run.plan[i].target !in Created(run, k)
  {
    PlanFacts(run);
    forall j | 0 <= j < |Created(run, k)|
      ensures Created(run, k)[j] != run.plan[i].target
    {
      CreatedManaged(run, k, j);
    }
  }

  /** Until commit the original of every begun operation is at its target or in its rollback slot. */
  lemma OriginalsKept(run: RestoreRun, d: Disk, s: Stand, i: nat)
    requires Stands(run, d, s) && s.Undecided? && i < |s.ops| && s.ops[i].existed
    ensures Target(run.plan[i]) in run.pre
    ensures var original, t := run.pre[Target(run.plan[i])], d.tree;
      || (Target(run.plan[i]) in t && t[Target(run.plan[i])] == original)
      || (Slot(run, i) in t && t[Slot(run, i)] == original)
  {
    assert Matches(run, i, s.ops[i]);
    if InSlot(run, s.at, i) {
      assert SlotsRight(run, d.tree, s.at, i);
    } else {
      OriginalInView(run, s.at, i);
      SlotPlaces(run, i, i);
      ViewIs(run, d.tree, s.at, Target(run.plan[i]));
    }
  }
}
