/** The recovery procedure itself, which may be interrupted at any filesystem call. */
module RestoreRecover {
  import opened Common
  import opened RestoreJournal
  import opened RestoreDisk
  import opened RestorePlan
  import opened RestoreSteps
  import opened RestoreRecovery

  /** A position recovery of the first n operations can be at. */
  ghost predicate Above(p: Position, n: nat) {
    p.k <= n && (p.k == n ==> p.local == MakingDirs(0))
  }

  /** The next two steps run. */
  predicate TwoRuns(faults: seq<Fault>) {
    |faults| >= 2 && faults[0].Run? && faults[1].Run?
  }

  /** The next step is the last of this process. */
  predicate Dying(faults: seq<Fault>) {
    faults != [] && faults[0].Crash?
  }

  method RemoveRegularIfPresent(host: Host, l: Loc, ghost run: RestoreRun, ghost p: Position, ghost i: nat)
    returns (status: Status, ghost q: Position)
    requires At(run, host.disk.tree, p) && i < |run.plan| && l == Target(run.plan[i])
    requires l in host.disk.tree ==> p == Position(i + 1, MakingDirs(0))
    modifies host
    ensures host.disk.journal == old(host.disk.journal)
    ensures At(run, host.disk.tree, q)
    ensures q == if l in old(host.disk.tree) && l !in host.disk.tree then Position(i, Ready(run, i)) else p
    ensures l !in old(host.disk.tree) ==> host.disk.tree == old(host.disk.tree)
    ensures status.Done? ==> l !in host.disk.tree
    ensures old(host.faults) == [] ==>
      host.faults == [] && RemoveIfPresent(old(host.disk.tree), l) == Outcome(host.disk.tree, status.Done?)
    ensures TwoRuns(old(host.faults)) && p.k == i + 1 && l in old(host.disk.tree) ==>
      status.Done? && host.faults == old(host.faults)[1..]
  {
    q := p;
    if l in host.disk.tree { PlacedFile(run, host.disk.tree, i); }
    if l !in host.disk.tree {
      return Done, q;
    }
    if !host.disk.tree[l].File? {
      return Failed, q;
    }
    status := host.Do(Remove(l));
    if l !in host.disk.tree {
      UnplaceStep(run, old(host.disk.tree), host.disk.tree, i);
      q := Position(i, Ready(run, i));
    }
  }

  /** A file in place can be removed. */
  lemma PlacedFile(run: RestoreRun, t: Tree, i: nat)
    requires i < |run.plan| && At(run, t, Position(i + 1, MakingDirs(0)))
    ensures IsFile(t, Target(run.plan[i])) && RemoveEntry(t, Target(run.plan[i])).Some?
  {
    PlanFacts(run);
    Viewed(run, t, Position(i + 1, MakingDirs(0)));
    var l := Target(run.plan[i]);
    StartView(run, i + 1);
    PromotedAt(Level(run, i), run.plan[i], l);
    SlotPlaces(run, i, i);
    ViewIs(run, t, Position(i + 1, MakingDirs(0)), l);
    FileNoChild(t, l);
  }

  /** The original is in its rollback slot: whatever took its place goes, and it is renamed back. */
  method RestoreFromSlot(host: Host, slot: Loc, target: Loc, ghost run: RestoreRun, ghost p: Position, ghost i: nat)
    returns (status: Status, ghost q: Position)
    requires At(run, host.disk.tree, p) && i < |run.plan| && InSlot(run, p, i) && Above(p, i + 1)
    requires slot == Slot(run, i) && target == Target(run.plan[i])
    modifies host
    ensures host.disk.journal == old(host.disk.journal)
    ensures At(run, host.disk.tree, q) && Above(q, i + 1)
    ensures status.Done? ==> q == Position(i, MakingDirs(0))
    ensures old(host.faults) == [] ==> host.faults == []
    ensures old(host.faults) == [] ==>
      var removed := RemoveIfPresent(old(host.disk.tree), target);
      Outcome(host.disk.tree, status.Done?) ==
        if !Open(old(host.disk.tree), target.root, Parent(target).path).Opened? then Outcome(old(host.disk.tree), false)
        else if !removed.ok then removed
        else if RenameEntry(removed.tree, slot, target).None? then Outcome(removed.tree, false)
        else Outcome(RenameEntry(removed.tree, slot, target).value, true)
    ensures TwoRuns(old(host.faults)) && p.k == i + 1 && IsFile(run.pre, target) ==>
      status.Done? && host.faults == old(host.faults)[2..]
  {
    TargetWhere(run, host.disk.tree, p, i);
    if target in host.disk.tree { OpenMeans(host.disk.tree, target); }
    if !Open(host.disk.tree, target.root, Parent(target).path).Opened? {
      return Failed, p;
    }
    status, q := RemoveRegularIfPresent(host, target, run, p, i);
    if !status.Done? {
      return;
    }
    if IsFile(run.pre, target) && p.k == i + 1 { MovedRename(run, host.disk.tree, i); }
    label removed:
    status := host.Do(Rename(slot, target));
    if target in host.disk.tree {
      MoveBack(run, old@removed(host.disk.tree), host.disk.tree, i);
      q := Position(i, MakingDirs(0));
    }
  }

  /** rollbackRestoreOperation, the target. */
  method RollbackTarget(host: Host, txn: string, op: Operation, ghost run: RestoreRun, ghost p: Position, ghost i: nat)
    returns (status: Status, ghost q: Position)
    requires At(run, host.disk.tree, p) && i < |run.plan| && Matches(run, i, op) && Above(p, i + 1)
    requires txn == Txn(run.header)
    modifies host
    ensures host.disk.journal == old(host.disk.journal)
    ensures At(run, host.disk.tree, q) && Above(q, i + 1)
    ensures status.Done? ==> q == AfterTarget(run, p, i) && Short(op.target)
    ensures old(host.faults) == [] ==>
      host.faults == [] && RestoreTarget(old(host.disk.tree), txn, op) == Outcome(host.disk.tree, status.Done?)
    ensures TwoRuns(old(host.faults)) && p.k == i + 1 && op.existed && Short(op.target) ==>
      status.Done? && host.faults == old(host.faults)[2..]
  {
    PlanFacts(run);
    q := p;
    SlotWhere(run, host.disk.tree, p, i);
    TargetWhere(run, host.disk.tree, p, i);
    var target := Loc(op.root, op.target);
    var stage, slot := StageLoc(txn, op.root, op.target), RollbackLoc(txn, op.root, op.target);
    SlotNames(run.header, op.root, op.target);
    if !ValidRelative(stage.path) {
      return Failed, q;
    }
    var stageParent := Open(host.disk.tree, op.root, Parent(stage).path);
    if stageParent.Blocked? {
      return Failed, q;
    }
    if !ValidRelative(slot.path) {
      return Failed, q;
    }
    var slotParent := Open(host.disk.tree, op.root, Parent(slot).path);
    if slotParent.Blocked? {
      return Failed, q;
    }
    var slotExists := slotParent.Opened? && slot in host.disk.tree;
    if slotExists && !host.disk.tree[slot].File? {
      return Failed, q;
    }
    if op.existed {
      if slotExists {
        status, q := RestoreFromSlot(host, slot, target, run, p, i);
      } else if op.backedUp || op.promoted {
        status := Failed;
      } else {
        var targetParent := Open(host.disk.tree, op.root, Parent(target).path);
        status := if targetParent.Opened? && IsFile(host.disk.tree, target) then Done else Failed;
      }
    } else {
      var stageExists := stageParent.Opened? && stage in host.disk.tree;
      if op.promoted || !stageExists {
        if !Open(host.disk.tree, op.root, Parent(target).path).Opened? {
          return Failed, q;
        }
        status, q := RemoveRegularIfPresent(host, target, run, p, i);
      } else {
        status := Done;
      }
    }
  }

  ghost function AfterTarget(run: RestoreRun, p: Position, i: nat): Position
    requires i < |run.plan|
  {
    if p.k > i then Position(i, if Existed(run, i) then MakingDirs(0) else MakingDirs(|Created(run, i)|))
    else if p.k == i && p.local.Moved? then Position(i, MakingDirs(0))
    else p
  }

  /** The rollback slot of file i is found exactly when the original is in it, and a consumed stage is gone. */
  lemma SlotWhere(run: RestoreRun, t: Tree, p: Position, i: nat)
    requires At(run, t, p) && i < |run.plan|
    ensures !Open(t, run.plan[i].root, Parent(Slot(run, i)).path).Blocked?
    ensures !Open(t, run.plan[i].root, Parent(Stage(run, i)).path).Blocked?
    ensures Slot(run, i) in t <==> InSlot(run, p, i)
    ensures Slot(run, i) in t ==> t[Slot(run, i)] == run.pre[Target(run.plan[i])]
    ensures Slot(run, i) in t ==> Open(t, run.plan[i].root, Parent(Slot(run, i)).path).Opened?
    ensures p.k > i ==> Stage(run, i) !in t
  {
    NotBlocked(run, t, p, i);
    assert SlotsRight(run, t, p, i);
  }

  /** The target of an undone or not yet placed file is absent unless it is the original. */
  lemma TargetWhere(run: RestoreRun, t: Tree, p: Position, i: nat)
    requires At(run, t, p) && i < |run.plan| && Above(p, i + 1)
    ensures p.k == i + 1 ==> Target(run.plan[i]) in t
    ensures p.k <= i && !Existed(run, i) ==> Target(run.plan[i]) !in t
    ensures p.k == i && p.local.Moved? ==> Target(run.plan[i]) !in t
  {
    var l := Target(run.plan[i]);
    SlotPlaces(run, i, i);
    ViewIs(run, t, p, l);
    if p.k == i + 1 {
      StartView(run, i + 1);
      PromotedAt(Level(run, i), run.plan[i], l);
    } else if !Existed(run, i) {
      TargetFresh(run, p, i);
    }
  }

  /** One directory of the loop below: skipped when absent, removed when it is the last one made. */
  method RollbackDir(host: Host, l: Loc, ghost run: RestoreRun, ghost p: Position, ghost i: nat, ghost index: nat)
    returns (status: Status, ghost q: Position)
    requires At(run, host.disk.tree, p) && i < |run.plan| && index < |Created(run, i)|
    requires l == Loc(run.plan[i].root, Created(run, i)[index]) && l.path != []
    requires if p.k == i then p.local.MakingDirs? && p.local.made <= index + 1 else l !in host.disk.tree
    requires p.k == i ==> (l in host.disk.tree <==> index < p.local.made)
    modifies host
    ensures host.disk.journal == old(host.disk.journal)
    ensures At(run, host.disk.tree, q)
    ensures q == if host.disk.tree == old(host.disk.tree) then p else Position(i, MakingDirs(index))
    ensures status.Done? && p.k == i ==> q.k == i && q.local.MakingDirs? && q.local.made <= index
    ensures p.k != i ==> host.disk.tree == old(host.disk.tree)
    ensures old(host.faults) == [] ==> host.faults == []
    ensures old(host.faults) == [] ==>
      RemoveDirs(old(host.disk.tree), l.root, Created(run, i)[..index + 1]) ==
        if status.Done? then RemoveDirs(host.disk.tree, l.root, Created(run, i)[..index])
          else Outcome(host.disk.tree, false)
  {
    q := p;
    ghost var dirs := Created(run, i)[..index + 1];
    assert dirs[..index] == Created(run, i)[..index];
    match Open(host.disk.tree, l.root, Parent(l).path) {
      case Blocked => return Failed, q;
      case Absent =>
        if p.k == i { OpenMeans(host.disk.tree, l); }
        return Done, q;
      case Opened =>
        if l !in host.disk.tree {
          return Done, q;
        }
        if !host.disk.tree[l].Dir? {
          return Failed, q;
        }
        status := host.Do(Remove(l));
        if host.disk.tree != old(host.disk.tree) {
          RmdirStep(run, old(host.disk.tree), host.disk.tree, i, index);
          q := Position(i, MakingDirs(index));
        }
    }
  }

  lemma OpenMeans(t: Tree, l: Loc)
    requires Tidy(t) && l.path != []
    ensures l in t ==> Open(t, l.root, Parent(l).path).Opened?
  {
    OpenTidy(t, l.root, Parent(l).path);
    assert l in t ==> Hangs(t, l);
  }

  lemma DirWhere(run: RestoreRun, t: Tree, p: Position, i: nat, index: nat)
    requires At(run, t, p) && i < |run.plan| && index < |Created(run, i)|
    requires Unblocked(Level(run, i), run.plan[i].root, run.plan[i].target)
    requires p.k < i || (p.k == i && p.local.MakingDirs?)
    ensures var l := Loc(run.plan[i].root, Created(run, i)[index]);
      l.path != [] && (l in t <==> p.k == i && index < p.local.made)
  {
    if p.k == i { DirOpens(run, t, i, p.local.made, index); } else { GoneDirs(run, t, p, i); }
  }

  /** The directory loop of rollbackRestoreOperation, deepest first. */
  method RollbackDirs(host: Host, root: Root, dirs: seq<Path>, ghost run: RestoreRun, ghost p: Position, ghost i: nat)
    returns (status: Status, ghost q: Position)
    requires At(run, host.disk.tree, p) && i < |run.plan| && root == run.plan[i].root && dirs == Created(run, i)
    requires Unblocked(Level(run, i), run.plan[i].root, run.plan[i].target)
    requires p.k < i || (p.k == i && p.local.MakingDirs?)
    modifies host
    ensures host.disk.journal == old(host.disk.journal)
    ensures At(run, host.disk.tree, q) && Above(q, i + 1)
    ensures status.Done? ==> q == Undone(p, i)
    ensures old(host.faults) == [] ==>
      host.faults == [] && RemoveDirs(old(host.disk.tree), root, dirs) == Outcome(host.disk.tree, status.Done?)
    ensures dirs == [] ==> status.Done? && host.faults == old(host.faults)
  {
    q := p;
    var index := |dirs|;
    assert dirs[..index] == dirs;
    while index > 0
      invariant 0 <= index <= |dirs| && (dirs == [] ==> host.faults == old(host.faults))
      invariant host.disk.journal == old(host.disk.journal)
      invariant At(run, host.disk.tree, q) && q.k == p.k
      invariant if p.k == i then q.local.MakingDirs? && q.local.made <= index else q == p
      invariant old(host.faults) == [] ==>
        host.faults == [] && RemoveDirs(old(host.disk.tree), root, dirs)
          == RemoveDirs(host.disk.tree, root, dirs[..index])
    {
      index := index - 1;
      DirWhere(run, host.disk.tree, q, i, index);
      status, q := RollbackDir(host, Loc(root, dirs[index]), run, q, i, index);
      if !status.Done? {
        return;
      }
    }
    status := Done;
  }

  /** rollbackRestoreOperation */
  method RollbackRestoreOperation(host: Host, txn: string, op: Operation, ghost run: RestoreRun, ghost p: Position,
      ghost i: nat)
    returns (status: Status, ghost q: Position)
    requires At(run, host.disk.tree, p) && i < |run.plan| && Matches(run, i, op) && Above(p, i + 1)
    requires txn == Txn(run.header)
    modifies host
    ensures host.disk.journal == old(host.disk.journal)
    ensures At(run, host.disk.tree, q) && Above(q, i + 1)
    ensures status.Done? ==> q == Undone(p, i) && Short(op.target)
    ensures old(host.faults) == [] ==>
      host.faults == [] && RollbackOperation(old(host.disk.tree), txn, op) == Outcome(host.disk.tree, status.Done?)
    ensures TwoRuns(old(host.faults)) && p.k == i + 1 && op.existed && Short(op.target) ==>
      status.Done? && host.faults == old(host.faults)[2..]
  {
    status, q := RollbackTarget(host, txn, op, run, p, i);
    if status.Done? {
      if op.existed { ExistedNoDirs(run, i); }
      status, q := RollbackDirs(host, op.root, op.createdDirs, run, q, i);
    }
  }

  /** The rollback of all operations, from t0, comes down to that of the first index ones from t. */
  ghost predicate Remaining(t0: Tree, t: Tree, txn: string, ops: seq<Operation>, index: nat) {
    && Targeted(ops) && index <= |ops|
    && RollbackAll(t0, txn, ops) == RollbackAll(t, txn, ops[..index])
  }

  lemma {:induction false} RemainingStart(t: Tree, txn: string, ops: seq<Operation>)
    requires Targeted(ops)
    ensures Remaining(t, t, txn, ops, |ops|)
  {
    assert ops[..|ops|] == ops;
  }

  lemma {:induction false} RemainingEnd(t0: Tree, t: Tree, txn: string, ops: seq<Operation>)
    requires Remaining(t0, t, txn, ops, 0)
    ensures RollbackAll(t0, txn, ops) == Outcome(t, true)
  {
  }

  lemma RemainingStep(t0: Tree, t: Tree, txn: string, ops: seq<Operation>, left: nat, index: nat)
    requires left == index + 1 && Remaining(t0, t, txn, ops, left)
    ensures var r := RollbackOperation(t, txn, ops[index]);
      if r.ok then Remaining(t0, r.tree, txn, ops, index) else RollbackAll(t0, txn, ops) == r
  {
    assert ops[..index + 1][..index] == ops[..index];
  }

  /** Between two turns of the loop below: the operations from index on are undone, and could all be named. */
  ghost predicate Rolling(run: RestoreRun, t: Tree, p: Position, ops: seq<Operation>, index: nat) {
    && index <= |ops| && AllMatch(run, ops) && At(run, t, p) && Above(p, index)
    && forall j :: index <= j < |ops| ==> Short(ops[j].target)
  }

  lemma {:induction false} RollingNow(run: RestoreRun, t: Tree, p: Position, ops: seq<Operation>, left: nat,
      index: nat)
    requires left == index + 1 && Rolling(run, t, p, ops, left)
    ensures index < |ops| && AllMatch(run, ops) && index < |run.plan| && Matches(run, index, ops[index])
    ensures At(run, t, p) && Above(p, index + 1)
    ensures forall j :: index < j < |ops| ==> Short(ops[j].target)
  {
    assert Matches(run, index, ops[index]);
  }

  lemma {:induction false} RollingNext(run: RestoreRun, t: Tree, q: Position, p: Position, ops: seq<Operation>,
      index: nat)
    requires index < |ops| && At(run, t, q) && AllMatch(run, ops) && Above(p, index + 1)
    requires q == Undone(p, index) && Short(ops[index].target)
    requires forall j :: index < j < |ops| ==> Short(ops[j].target)
    ensures Rolling(run, t, q, ops, index)
  {
  }

  /** Between two turns of the loop below, when nothing disturbs this recovery, which started on t0. */
  ghost predicate Calm(faults: seq<Fault>, t0: Tree, t: Tree, txn: string, ops: seq<Operation>, index: nat) {
    faults == [] && Remaining(t0, t, txn, ops, index)
  }

  /** A single replaced file, and two steps that run. */
  predicate OneReplaced(faults: seq<Fault>, ops: seq<Operation>, p: Position) {
    TwoRuns(faults) && |ops| == 1 && p.k == 1 && ops[0].existed && Short(ops[0].target)
  }

  /** Between two turns of the loop below, which started at p0 with faults0: a single replaced file goes smoothly. */
  ghost predicate OnTrack(faults0: seq<Fault>, ops: seq<Operation>, p0: Position, faults: seq<Fault>, p: Position,
      left: nat)
  {
    OneReplaced(faults0, ops, p0) ==> if left == 0 then faults == faults0[2..] else faults == faults0 && p == p0
  }

  /** One turn of the loop below. When quiet, nothing disturbs this recovery, which started on t0. */
  method RollbackNext(host: Host, txn: string, ops: seq<Operation>, left: nat, ghost run: RestoreRun,
      ghost p: Position, ghost quiet: bool, ghost t0: Tree, ghost faults0: seq<Fault>, ghost p0: Position)
    returns (status: Status, ghost q: Position, index: nat)
    requires OnTrack(faults0, ops, p0, host.faults, p, left)
    requires 0 < left <= |ops| && Rolling(run, host.disk.tree, p, ops, left) && txn == Txn(run.header)
    requires quiet ==> Calm(host.faults, t0, host.disk.tree, txn, ops, left)
    modifies host
    ensures host.disk.journal == old(host.disk.journal)
    ensures At(run, host.disk.tree, q) && Above(q, |ops|)
    ensures index == left - 1
    ensures status.Done? ==> Rolling(run, host.disk.tree, q, ops, index)
    ensures quiet && status.Done? ==> Calm(host.faults, t0, host.disk.tree, txn, ops, index)
    ensures quiet && !status.Done? ==>
      host.faults == [] && RollbackAll(t0, txn, ops) == Outcome(host.disk.tree, false)
    ensures OneReplaced(faults0, ops, p0) ==> status.Done?
    ensures status.Done? ==> OnTrack(faults0, ops, p0, host.faults, q, index)
  {
    index := left - 1;
    var op := ops[index];
    RollingNow(run, host.disk.tree, p, ops, left, index);
    if quiet { RemainingStep(t0, host.disk.tree, txn, ops, left, index); }
    status, q := RollbackRestoreOperation(host, txn, op, run, p, index);
    if status.Done? { RollingNext(run, host.disk.tree, q, p, ops, index); }
  }

  lemma {:induction false} RollingStart(run: RestoreRun, t: Tree, p: Position, ops: seq<Operation>)
    requires At(run, t, p) && Begun(run, ops) && Above(p, |ops|)
    ensures Rolling(run, t, p, ops, |ops|)
  {
    BegunMatch(run, ops);
  }

  lemma {:induction false} RollingEnd(run: RestoreRun, t: Tree, p: Position, ops: seq<Operation>)
    requires Rolling(run, t, p, ops, 0)
    ensures At(run, t, p) && p == Position(0, MakingDirs(0)) && AllShort(ops)
  {
  }

  /** recoverRestoreTransaction's loop: the begun operations, last first. */
  method RollbackLoop(host: Host, txn: string, ops: seq<Operation>, ghost run: RestoreRun, ghost p: Position,
      ghost quiet: bool, ghost t0: Tree)
    returns (status: Status, ghost q: Position)
    requires Rolling(run, host.disk.tree, p, ops, |ops|) && txn == Txn(run.header)
    requires quiet ==> Calm(host.faults, t0, host.disk.tree, txn, ops, |ops|)
    modifies host
    ensures host.disk.journal == old(host.disk.journal)
    ensures At(run, host.disk.tree, q) && Above(q, |ops|)
    ensures status.Done? ==> Rolling(run, host.disk.tree, q, ops, 0)
    ensures quiet && status.Done? ==> Calm(host.faults, t0, host.disk.tree, txn, ops, 0)
    ensures quiet && !status.Done? ==>
      host.faults == [] && RollbackAll(t0, txn, ops) == Outcome(host.disk.tree, false)
    ensures OneReplaced(old(host.faults), ops, p) ==> status.Done? && host.faults == old(host.faults)[2..]
  {
    q := p;
    var index: nat := |ops|;
    while index > 0
      invariant 0 <= index <= |ops|
      invariant host.disk.journal == old(host.disk.journal)
      invariant Rolling(run, host.disk.tree, q, ops, index)
      invariant OnTrack(old(host.faults), ops, p, host.faults, q, index)
      invariant quiet ==> Calm(host.faults, t0, host.disk.tree, txn, ops, index)
    {
      status, q, index := RollbackNext(host, txn, ops, index, run, q, quiet, t0, old(host.faults), p);
      if !status.Done? {
        return;
      }
    }
    status := Done;
  }

  /** The rollback of all begun operations. */
  method RollbackOperations(host: Host, txn: string, ops: seq<Operation>, ghost run: RestoreRun, ghost p: Position)
    returns (status: Status, ghost q: Position)
    requires At(run, host.disk.tree, p) && Begun(run, ops) && Above(p, |ops|) && txn == Txn(run.header)
    modifies host
    ensures host.disk.journal == old(host.disk.journal)
    ensures At(run, host.disk.tree, q) && Above(q, |ops|)
    ensures status.Done? ==> q == Position(0, MakingDirs(0)) && AllShort(ops)
    ensures Targeted(ops)
    ensures old(host.faults) == [] ==>
      host.faults == [] && RollbackAll(old(host.disk.tree), txn, ops) == Outcome(host.disk.tree, status.Done?)
    ensures OneReplaced(old(host.faults), ops, p) ==> status.Done? && host.faults == old(host.faults)[2..]
  {
    RollingStart(run, host.disk.tree, p, ops);
    ghost var quiet, t0 := host.faults == [], host.disk.tree;
    RemainingStart(t0, txn, ops);
    status, q := RollbackLoop(host, txn, ops, run, p, quiet, t0);
    if status.Done? {
      RollingEnd(run, host.disk.tree, q, ops);
      if quiet { RemainingEnd(t0, host.disk.tree, txn, ops); }
    }
  }

  // ---- Cleanup

  /** Only content of the transaction directories has gone. */
  ghost predicate Shrunk(t: Tree, t': Tree, txn: string) {
    && Tidy(t') && t'.Keys <= t.Keys && Managed(t', txn) == Managed(t, txn)
    && (forall l :: l in t' ==> t'[l] == t[l])
  }

  predicate TxnEmpty(t: Tree, txn: string, root: Root) {
    forall l :: l in t && l.root == root ==> !InTxn(l, txn)
  }

  /** Something in a non-empty transaction directory has nothing below it. */
  lemma {:induction false} LeafExists(t: Tree, txn: string, root: Root, l: Loc, s: set<Loc>) returns (leaf: Loc)
    requires l in t && InTxn(l, txn) && l.root == root && l !in s
    requires s == set x | x in t && |x.path| > |l.path|
    ensures leaf in t && InTxn(leaf, txn) && leaf.root == root && !HasChild(t, leaf)
    decreases s
  {
    leaf := l;
    if HasChild(t, l) {
      var c :| c in t && c.path != [] && Parent(c) == l;
      assert c.path[0] == l.path[0];
      var s' := set x | x in t && |x.path| > |c.path|;
      assert c in s && c !in s' && s' <= s;
      leaf := LeafExists(t, txn, root, c, s');
    }
  }

  /** RemoveAll of one transaction directory: entries with nothing below them go one at a time, in any order. */
  method RemoveAll(host: Host, txn: string, root: Root) returns (status: Status)
    requires Tidy(host.disk.tree)
    modifies host
    ensures host.disk.journal == old(host.disk.journal)
    ensures Shrunk(old(host.disk.tree), host.disk.tree, txn)
    ensures status.Done? ==> TxnEmpty(host.disk.tree, txn, root)
    ensures old(host.faults) == [] ==> host.faults == [] && status.Done?
    ensures Dying(old(host.faults)) ==>
      host.disk == old(host.disk) && (status.Crashed? || (status.Done? && host.faults == old(host.faults)))
  {
    ghost var t := host.disk.tree;
    while !TxnEmpty(host.disk.tree, txn, root)
      invariant host.disk.journal == old(host.disk.journal)
      invariant Shrunk(t, host.disk.tree, txn)
      invariant old(host.faults) == [] ==> host.faults == []
      invariant Dying(old(host.faults)) ==> host.faults == old(host.faults) && host.disk == old(host.disk)
      decreases host.disk.tree.Keys
    {
      ghost var some :| some in host.disk.tree && some.root == root && InTxn(some, txn);
      ghost var leaf := LeafExists(host.disk.tree, txn, root, some,
        set x | x in host.disk.tree && |x.path| > |some.path|);
      var l :| l in host.disk.tree && l.root == root && InTxn(l, txn) && !HasChild(host.disk.tree, l);
      ghost var before := host.disk.tree;
      TidyDrop(before, l);
      ManagedDrop(before, txn, l);
      status := host.Do(Remove(l));
      if !status.Done? {
        return;
      }
      assert l in before.Keys && host.disk.tree.Keys == before.Keys - {l};
    }
    status := Done;
  }

  /** cleanupRestoreTransaction */
  method CleanupRestoreTransaction(host: Host, txn: string) returns (status: Status)
    requires Tidy(host.disk.tree)
    modifies host
    ensures host.disk.journal == old(host.disk.journal)
    ensures Shrunk(old(host.disk.tree), host.disk.tree, txn)
    ensures status.Done? ==> host.disk.tree == Managed(old(host.disk.tree), txn)
    ensures old(host.faults) == [] ==> host.faults == [] && status.Done?
    ensures Dying(old(host.faults)) ==>
      host.disk == old(host.disk) && (status.Crashed? || (status.Done? && host.faults == old(host.faults)))
  {
    var roots := [Project, Config, Secrets];
    for i := 0 to 3
      invariant host.disk.journal == old(host.disk.journal)
      invariant Shrunk(old(host.disk.tree), host.disk.tree, txn)
      invariant forall j :: 0 <= j < i ==> TxnEmpty(host.disk.tree, txn, roots[j])
      invariant old(host.faults) == [] ==> host.faults == []
      invariant Dying(old(host.faults)) ==> host.faults == old(host.faults) && host.disk == old(host.disk)
    {
      ghost var before := host.disk.tree;
      status := RemoveAll(host, txn, roots[i]);
      if !status.Done? {
        return;
      }
      forall j | 0 <= j < i
        ensures TxnEmpty(host.disk.tree, txn, roots[j])
      {
        assert TxnEmpty(before, txn, roots[j]);
      }
    }
    assert roots[0] == Project && roots[1] == Config && roots[2] == Secrets;
    AllEmpty(host.disk.tree, txn);
    status := Done;
  }

  lemma AllEmpty(t: Tree, txn: string)
    requires TxnEmpty(t, txn, Project) && TxnEmpty(t, txn, Config) && TxnEmpty(t, txn, Secrets)
    ensures t == Managed(t, txn)
  {
    forall l | l in t
      ensures !InTxn(l, txn)
    {
      match l.root { case Project => case Config => case Secrets => }
    }
  }

  /** With everything rolled back, losing part of the transaction directories changes nothing that matters. */
  lemma CleanKeepsAt(run: RestoreRun, t: Tree, t': Tree, p: Position)
    requires At(run, t, p) && p == Position(0, MakingDirs(0)) && Shrunk(t, t', Txn(run.header))
    ensures At(run, t', p)
  {
    Viewed(run, t, p);
    forall i | 0 <= i < |run.plan|
      ensures SlotsRight(run, t', p, i)
    {
      assert SlotsRight(run, t, p, i);
    }
    MakeView(run, t', p);
  }

  /** How a recovery moves the stand: never away from the recorded decision, and to the end only if every slot can be
      named. */
  predicate Leads(s: Stand, s': Stand) {
    match s
    case Bare => s'.Bare? || s'.Restored?
    case Undecided(ops, _) => (s'.Undecided? && s'.ops == ops) || (s'.Restored? && AllShort(ops))
    case Committed(_) => s' == s || s'.Renewed?
    case Restored => s'.Restored?
    case Renewed => s'.Renewed?
  }

  predicate Finished(s: Stand) {
    s.Restored? || s.Renewed?
  }

  lemma CleanKeepsStand(run: RestoreRun, d: Disk, t': Tree, s: Stand)
    requires Stands(run, d, s) && !Finished(s) && Shrunk(d.tree, t', Txn(run.header))
    requires s.Undecided? ==> s.at == Position(0, MakingDirs(0))
    ensures Stands(run, d.(tree := t'), s)
    ensures Managed(d.tree, Txn(run.header)) == if s.Committed? then Level(run, |run.plan|) else run.pre
  {
    if s.Undecided? {
      CleanKeepsAt(run, d.tree, t', s.at);
      Viewed(run, d.tree, s.at);
      StartView(run, 0);
    }
  }

  /** cleanupRestoreTransaction and removeRestoreJournal at the end of recovery and of a committed run. */
  method FinishTransaction(host: Host, txn: string, ghost run: RestoreRun, ghost s: Stand)
    returns (status: Status, ghost s': Stand)
    requires Stands(run, host.disk, s) && !Finished(s) && txn == Txn(run.header)
    requires s.Undecided? ==> s.at == Position(0, MakingDirs(0)) && AllShort(s.ops)
    modifies host
    ensures Stands(run, host.disk, s') && Leads(s, s')
    ensures status.Done? ==> Finished(s')
    ensures old(host.faults) == [] ==>
      host.faults == [] && status.Done? && host.disk == Disk(Managed(old(host.disk.tree), txn), None)
    ensures Dying(old(host.faults)) ==> status.Crashed? && s' == s
  {
    s' := s;
    status := CleanupRestoreTransaction(host, txn);
    CleanKeepsStand(run, old(host.disk), host.disk.tree, s);
    if !status.Done? {
      return;
    }
    status := host.Do(DropJournal);
    if host.disk.journal.None? {
      s' := if s.Committed? then Renewed else Restored;
    }
  }

  /** One existing file was replaced; recovery takes the new file away, renames the original back, and dies. */
  predicate DiesAfterRestoring(faults: seq<Fault>, s: Stand) {
    && faults == [Run, Run, Crash]
    && s.Undecided? && |s.ops| == 1 && s.at.k == 1 && s.ops[0].existed && Short(s.ops[0].target)
  }

  /** The rollback part of recoverRestoreTransaction: nothing to do once the journal is committed. */
  method RollbackUncommitted(host: Host, st: JournalState, ghost run: RestoreRun, ghost s: Stand)
    returns (status: Status, ghost s': Stand)
    requires Stands(run, host.disk, s) && !Finished(s)
    requires st == JournalState(run.header, if s.Bare? then [] else s.ops, s.Committed?)
    modifies host
    ensures host.disk.journal == old(host.disk.journal)
    ensures Stands(run, host.disk, s') && Leads(s, s') && !Finished(s')
    ensures if s.Undecided? then s'.Undecided? else s' == s
    ensures status.Done? && s.Undecided? ==> s'.at == Position(0, MakingDirs(0)) && AllShort(s.ops)
    ensures old(host.faults) == [] ==> host.faults == []
    ensures s.Undecided? ==> Targeted(s.ops)
    ensures old(host.faults) == [] && s.Undecided? ==>
      RollbackAll(old(host.disk.tree), Txn(run.header), s.ops) == Outcome(host.disk.tree, status.Done?)
    ensures !s.Undecided? ==> status.Done? && host.disk == old(host.disk) && host.faults == old(host.faults)
    ensures DiesAfterRestoring(old(host.faults), s) ==> status.Done? && host.faults == [Crash]
  {
    s' := s;
    if st.committed || st.operations == [] {
      if s.Undecided? { StandMatches(run, host.disk, s); }
      return Done, s';
    }
    ghost var q;
    status, q := RollbackOperations(host, Txn(st.header), st.operations, run, s.at);
    s' := Undecided(s.ops, q);
  }

  /** recoverRestoreTransaction: from any stand, possibly interrupted; what it does when it is not is Recovered. */
  method RecoverRestoreTransaction(host: Host, project: Path, ghost run: RestoreRun, ghost s: Stand)
    returns (status: Status, ghost s': Stand)
    requires Stands(run, host.disk, s) && project == run.header.project
    modifies host
    ensures Stands(run, host.disk, s') && Leads(s, s')
    ensures status.Done? ==> Finished(s')
    ensures old(host.faults) == [] ==>
      host.faults == [] && Recovered(old(host.disk), project) == (host.disk, status.Done?)
    ensures DiesAfterRestoring(old(host.faults), s) ==>
      status.Crashed? && s' == Undecided(s.ops, Position(0, MakingDirs(0)))
  {
    s' := s;
    if host.disk.journal.None? {
      return Done, s';
    }
    JournalMeans(run, host.disk, s);
    var state := LoadRestoreJournal(host.disk.journal.value, project);
    if state.None? {
      return Failed, s';
    }
    RecoveredMeans(run, host.disk, s);
    status, s' := RollbackUncommitted(host, state.value, run, s);
    if !status.Done? {
      return;
    }
    status, s' := FinishTransaction(host, Txn(state.value.header), run, s');
  }

  lemma {:induction false} RecoveredMeans(run: RestoreRun, d: Disk, s: Stand)
    requires Stands(run, d, s) && !Finished(s)
    ensures s.Undecided? ==> Targeted(s.ops)
    ensures var r := if s.Undecided? then RollbackAll(d.tree, Txn(run.header), s.ops) else Outcome(d.tree, true);
      Recovered(d, run.header.project)
        == if r.ok then (Disk(Managed(r.tree, Txn(run.header)), None), true) else (Disk(r.tree, d.journal), false)
  {
    JournalMeans(run, d, s);
    if s.Undecided? { RecoveredUndecided(d, run.header.project, run.header, s.ops); }
  }
}
