/** The restore itself: staging, promotion, commit, and the in-process recovery after a failure. */
module RestoreApply {
  import opened Common
  import opened RestoreJournal
  import opened RestoreDisk
  import opened RestorePlan
  import opened RestoreSteps
  import opened RestoreRecovery
  import opened RestoreRecover
  import opened RestoreCapacity

  // ---- Journal appends

  lemma WrittenBegin(header: Header, ops: seq<Operation>, op: Operation)
    requires !op.backedUp && !op.promoted
    ensures Written(header, ops + [op], false)
      == Written(header, ops, false) + [BeginRecord(op.root, op.target, op.existed, op.createdDirs)]
  {
    assert (ops + [op])[..|ops + [op]| - 1] == ops;
  }

  lemma WrittenMark(header: Header, ops: seq<Operation>, op: Operation, op': Operation, mark: Record)
    requires || (mark == BackedUpRecord(op.root, op.target) && !op.backedUp && !op.promoted
                 && op' == op.(backedUp := true))
             || (mark == PromotedRecord(op.root, op.target) && !op.promoted && op' == op.(promoted := true))
    ensures Written(header, ops + [op'], false) == Written(header, ops + [op], false) + [mark]
  {
    assert (ops + [op])[..|ops + [op]| - 1] == ops;
    assert (ops + [op'])[..|ops + [op']| - 1] == ops;
    assert RecordsOf(op') == RecordsOf(op) + [mark];
  }

  // ---- Stage files still waiting

  /** Staged files from k on are in their slots. */
  ghost predicate StageKept(run: RestoreRun, t: Tree, k: nat) {
    forall j :: k <= j < |run.plan| ==> Stage(run, j) in t && t[Stage(run, j)] == run.plan[j].node
  }

  lemma StageKeptRename(run: RestoreRun, t: Tree, t': Tree, from: Loc, to: Loc, k: nat)
    requires GoodPlan(run) && k < |run.plan| && StageKept(run, t, k)
    requires RenameOf(run, from, to, k) && RenameEntry(t, from, to) == Some(t')
    ensures StageKept(run, t', if from == Stage(run, k) then k + 1 else k)
  {
    forall j | k <= j < |run.plan| && (j == k ==> from != Stage(run, k))
      ensures Stage(run, j) in t' && t'[Stage(run, j)] == run.plan[j].node
    {
      SlotPlaces(run, k, j);
      SlotPlaces(run, j, k);
    }
  }

  // ---- Making a chain of directories

  /** t' is t with some directories added on the way down to p. */
  ghost predicate Extended(t: Tree, t': Tree, root: Root, p: Path) {
    && Tidy(t')
    && (forall l :: l in t ==> l in t' && t'[l] == t[l])
    && (forall l :: l in t' && l !in t ==> l.root == root && l.path != [] && l.path <= p && t'[l].Dir?)
  }

  lemma ExtendedManaged(t: Tree, t': Tree, txn: string, root: Root, p: Path)
    requires Extended(t, t', root, p) && p != [] && p[0] == txn
    ensures Managed(t', txn) == Managed(t, txn)
  {
  }

  /** Everything on the way down to p, p included, is a directory or absent. */
  ghost predicate Clear(t: Tree, root: Root, p: Path) {
    forall q :: q <= p && Loc(root, q) in t ==> t[Loc(root, q)].Dir?
  }

  /** OpenPinnedDirectoryAt with create: missing components are made one at a time. */
  method EnsureDirectories(host: Host, root: Root, p: Path, mode: nat) returns (status: Status)
    requires Tidy(host.disk.tree)
    modifies host
    ensures host.disk.journal == old(host.disk.journal)
    ensures Extended(old(host.disk.tree), host.disk.tree, root, p)
    ensures status.Done? ==> IsDir(host.disk.tree, Loc(root, p))
    ensures old(host.faults) == [] ==>
      host.faults == [] && !status.Crashed? && (Clear(old(host.disk.tree), root, p) ==> status.Done?)
  {
    var n := 0;
    while n < |p|
      invariant n <= |p| && (old(host.faults) == [] ==> host.faults == [])
      invariant host.disk.journal == old(host.disk.journal)
      invariant Extended(old(host.disk.tree), host.disk.tree, root, p)
      invariant IsDir(host.disk.tree, Loc(root, p[..n]))
    {
      var l := Loc(root, p[..n + 1]);
      assert Parent(l).path == p[..n];
      if l !in host.disk.tree {
        ghost var before := host.disk.tree;
        TidyPut(before, l, Node.Dir(mode));
        status := host.Do(Mkdir(l, mode));
        if !status.Done? {
          return;
        }
      } else if !host.disk.tree[l].Dir? {
        return Failed;
      }
      n := n + 1;
    }
    assert p[..n] == p;
    status := Done;
  }

  // ---- One promotion

  /** missingRestoreDirectories: None when the nearest existing ancestor is not a directory. */
  method MissingRestoreDirectories(t: Tree, root: Root, target: RelativePath) returns (created: Option<seq<Path>>)
    requires Tidy(t)
    ensures created.Some? <==> Unblocked(t, root, target)
    ensures created.Some? ==> created.value == Missing(t, root, RestoreJournal.Dir(target))
  {
    var current := RestoreJournal.Dir(target);
    var below: seq<Path> := [];
    while current != []
      invariant current <= RestoreJournal.Dir(target)
      invariant Missing(t, root, RestoreJournal.Dir(target)) == Missing(t, root, current) + below
      invariant forall q :: current < q && q < target ==> Loc(root, q) !in t
      decreases |current|
    {
      if Loc(root, current) in t {
        if t[Loc(root, current)].File? {
          return None;
        }
        AboveIsDir(t, root, current, target);
        return Some(below);
      }
      below := [current] + below;
      ghost var deeper := current;
      current := RestoreJournal.Dir(current);
      forall q | current < q && q < target
        ensures Loc(root, q) !in t
      {
        assert q == deeper || deeper < q;
      }
    }
    RootAbsent(t, root);
    forall q | q < target
      ensures Loc(root, q) !in t
    {
      assert q == [] || current < q;
    }
    return Some(below);
  }

  lemma RootAbsent(t: Tree, root: Root)
    requires Tidy(t)
    ensures Loc(root, []) !in t
  {
    assert Loc(root, []) in t ==> Hangs(t, Loc(root, []));
  }

  lemma AboveIsDir(t: Tree, root: Root, p: Path, target: Path)
    requires Tidy(t) && Loc(root, p) in t && t[Loc(root, p)].Dir? && p < target
    requires forall q :: p < q && q < target ==> Loc(root, q) !in t
    ensures Unblocked(t, root, target)
  {
    forall q | q < target && Loc(root, q) in t
      ensures t[Loc(root, q)].Dir?
    {
      assert q < p || q == p || p < q;
      if q < p {
        AncestorIsDir(t, Loc(root, p), q);
        RootAbsent(t, root);
      }
    }
  }

  lemma {:induction false} MissingSame(t: Tree, m: Tree, root: Root, p: Path)
    requires forall q :: q != [] && q <= p ==> (Loc(root, q) in t <==> Loc(root, q) in m)
    ensures Missing(t, root, p) == Missing(m, root, p)
  {
    if p != [] && Loc(root, p) !in t { MissingSame(t, m, root, RestoreJournal.Dir(p)); }
  }

  /** Looking at the live trees before promotion i shows what Level(i) holds. */
  lemma LooksLikeLevel(run: RestoreRun, t: Tree, i: nat)
    requires i < |run.plan| && At(run, t, Position(i, MakingDirs(0)))
    ensures var s := run.plan[i];
      && Missing(t, s.root, RestoreJournal.Dir(s.target)) == Created(run, i)
      && (Unblocked(t, s.root, s.target) ==> Unblocked(Level(run, i), s.root, s.target))
      && (Target(s) in t <==> Existed(run, i))
      && (Target(s) in t ==> t[Target(s)] == run.pre[Target(s)])
  {
    Viewed(run, t, Position(i, MakingDirs(0)));
    var s, p := run.plan[i], Position(i, MakingDirs(0));
    StartView(run, i);
    SlotPlaces(run, i, i);
    TargetUntouched(run, i, i);
    ViewIs(run, t, p, Target(s));
    forall q | q != [] && q <= s.target
      ensures (Loc(s.root, q) in t <==> Loc(s.root, q) in Level(run, i))
        && (Loc(s.root, q) in t ==> t[Loc(s.root, q)] == Level(run, i)[Loc(s.root, q)])
    {
      assert q[0] == s.target[0];
      ViewIs(run, t, p, Loc(s.root, q));
    }
    RootAbsent(Level(run, i), s.root);
    MissingSame(t, Level(run, i), s.root, RestoreJournal.Dir(s.target));
  }

  /** Nothing stands in the way of s: no file above its target, and no directory at it. */
  ghost predicate Free(t: Tree, s: Staged) {
    Unblocked(t, s.root, s.target) && (Target(s) in t ==> t[Target(s)].File?)
  }

  /** The checks before anything is journaled: what the begin record will say, or a refusal. */
  method Inspect(t: Tree, s: Staged, ghost run: RestoreRun, ghost k: nat) returns (op: Option<Operation>)
    requires k < |run.plan| && s == run.plan[k] && At(run, t, Position(k, MakingDirs(0)))
    ensures Free(t, s) <==> op.Some?
    ensures op.Some? ==> Matches(run, k, op.value)
    ensures op.Some? ==> op.value == Operation(s.root, s.target, Existed(run, k), Created(run, k), false, false)
  {
    Viewed(run, t, Position(k, MakingDirs(0)));
    OpenTidy(t, s.root, RestoreJournal.Dir(s.target));
    var target := Target(s);
    if Open(t, s.root, RestoreJournal.Dir(s.target)).Blocked? || (target in t && !t[target].File?) {
      return None;
    }
    var created := MissingRestoreDirectories(t, s.root, s.target);
    if created.None? {
      return None;
    }
    LooksLikeLevel(run, t, k);
    return Some(Operation(s.root, s.target, target in t, created.value, false, false));
  }

  /** One record goes to the end of the journal, or not. */
  method AppendRecord(host: Host, record: Record) returns (status: Status, ghost written: bool)
    requires host.disk.journal.Some?
    modifies host
    ensures if written then Apply(old(host.disk), Append(record)) == Some(host.disk) else host.disk == old(host.disk)
    ensures host.disk.tree == old(host.disk.tree)
    ensures status.Done? ==> written
    ensures old(host.faults) == [] ==> host.faults == [] && !status.Crashed? && (status.Done? <==> written)
    ensures old(host.faults) == [] ==> (written <==> JournalFits(old(host.disk.journal).value + [record]))
  {
    ghost var before := host.disk;
    status := host.Do(Append(record));
    written := host.disk != before;
    assert Apply(before, Append(record)).Some? ==>
        |Apply(before, Append(record)).value.journal.value| == |before.journal.value| + 1;
  }

  /** The begin record goes into the journal, or finds no room there. */
  method WriteBegin(host: Host, op: Operation, ghost run: RestoreRun, ghost ops: seq<Operation>)
    returns (status: Status, ghost ops': seq<Operation>)
    requires |ops| < |run.plan| && AllPromoted(ops) && Matches(run, |ops|, op) && !op.backedUp && !op.promoted
    requires Running(run, host.disk, Undecided(ops, Position(|ops|, MakingDirs(0))))
    requires StageKept(run, host.disk.tree, |ops|)
    modifies host
    ensures host.disk.tree == old(host.disk.tree)
    ensures Running(run, host.disk, Undecided(ops', Position(|ops|, MakingDirs(0))))
    ensures status.Done? ==> ops' == ops + [op]
    ensures old(host.faults) == [] ==>
      host.faults == [] && !status.Crashed? && (status.Done? <==> BeginFits(run, |ops|))
    ensures old(host.faults) == [] && !status.Done? ==> ops' == ops
  {
    ops' := ops;
    ghost var before := host.disk;
    BeginRoom(run, before, ops, op);
    ghost var written;
    status, written := AppendRecord(host, BeginRecord(op.root, op.target, op.existed, op.createdDirs));
    if written {
      BeginRuns(run, before, host.disk, ops, op);
      ops' := ops + [op];
    }
  }

  lemma BeginRoom(run: RestoreRun, d: Disk, ops: seq<Operation>, op: Operation)
    requires |ops| < |run.plan| && AllPromoted(ops) && Matches(run, |ops|, op)
    requires Running(run, d, Undecided(ops, Position(|ops|, MakingDirs(0))))
    ensures d.journal.Some? && (JournalFits(d.journal.value + [BeginOf(op)]) <==> BeginFits(run, |ops|))
  {
    PromotedIsFull(run, ops);
    BeginWritten(run, ops, op);
  }

  /** The begin record is the first trace of promotion i. */
  method BeginPromotion(host: Host, s: Staged, ghost run: RestoreRun, ghost ops: seq<Operation>)
    returns (status: Status, op: Operation, ghost ops': seq<Operation>)
    requires |ops| < |run.plan| && s == run.plan[|ops|] && AllPromoted(ops)
    requires Running(run, host.disk, Undecided(ops, Position(|ops|, MakingDirs(0))))
    requires StageKept(run, host.disk.tree, |ops|)
    modifies host
    ensures host.disk.tree == old(host.disk.tree)
    ensures Running(run, host.disk, Undecided(ops', Position(|ops|, MakingDirs(0))))
    ensures status.Done? ==> ops' == ops + [op]
    ensures status.Done? ==> op == Operation(s.root, s.target, Existed(run, |ops|), Created(run, |ops|), false, false)
    ensures old(host.faults) == [] ==> host.faults == [] && !status.Crashed?
    ensures old(host.faults) == [] ==>
      (status.Done? <==> Free(old(host.disk.tree), s) && BeginFits(run, |ops|))
    ensures old(host.faults) == [] && !status.Done? ==> ops' == ops
  {
    ops', op := ops, Operation(s.root, s.target, false, [], false, false);
    var begun := Inspect(host.disk.tree, s, run, |ops|);
    if begun.None? {
      return Failed, op, ops';
    }
    op := begun.value;
    status, ops' := WriteBegin(host, op, run, ops);
  }

  /** With the begin record in the journal the operation is begun. */
  lemma BeginRuns(run: RestoreRun, d: Disk, d': Disk, ops: seq<Operation>, op: Operation)
    requires |ops| < |run.plan| && AllPromoted(ops) && Matches(run, |ops|, op) && !op.backedUp && !op.promoted
    requires Running(run, d, Undecided(ops, Position(|ops|, MakingDirs(0)))) && StageKept(run, d.tree, |ops|)
    requires Apply(d, Append(BeginOf(op))) == Some(d')
    ensures Running(run, d', Undecided(ops + [op], Position(|ops|, MakingDirs(0))))
  {
    WrittenBegin(run.header, ops, op);
    BegunMore(run, ops, op);
  }

  lemma BegunMore(run: RestoreRun, ops: seq<Operation>, op: Operation)
    requires Begun(run, ops) && AllPromoted(ops) && |ops| < |run.plan| && Matches(run, |ops|, op)
    ensures Begun(run, ops + [op])
  {
  }

  /** The parent of the next directory to make is there, and it is not. */
  lemma MkdirPossible(run: RestoreRun, t: Tree, k: nat, n: nat)
    requires k < |run.plan| && At(run, t, Position(k, MakingDirs(n))) && n <= |Created(run, k)|
    requires Unblocked(Level(run, k), run.plan[k].root, run.plan[k].target)
    ensures var s := run.plan[k];
      var l := if n < |Created(run, k)| then Loc(s.root, Created(run, k)[n]) else Target(s);
      && l.path != [] && IsDir(t, Parent(l)) && Open(t, l.root, Parent(l).path).Opened?
      && (n < |Created(run, k)| ==> l !in t)
  {
    var s, c, p := run.plan[k], Created(run, k), Position(k, MakingDirs(n));
    var l := if n < |c| then Loc(s.root, c[n]) else Target(s);
    MissingShape(Level(run, k), s.root, RestoreJournal.Dir(s.target));
    SlotPlaces(run, k, k);
    if n < |c| {
      CreatedManaged(run, k, n);
      ViewStep(run, k, n);
      ViewIs(run, t, p, l);
    }
    if Parent(l).path != [] {
      assert Parent(l).path[0] == s.target[0];
      ViewIs(run, t, p, Parent(l));
      WithDirsAt(Level(run, k), s.root, c[..n], Parent(l));
      if n > 0 { assert c[..n][n - 1] == c[n - 1]; }
    }
    OpenTidy(t, l.root, Parent(l).path);
  }

  /** The body of the loop below. */
  method CreateDirectory(host: Host, l: Loc, ghost run: RestoreRun, ghost k: nat, ghost n: nat, ghost next: nat)
    returns (status: Status, ghost made: nat)
    requires k < |run.plan| && n < |Created(run, k)| && next == n + 1 && l == Loc(run.plan[k].root, Created(run, k)[n])
    requires At(run, host.disk.tree, Position(k, MakingDirs(n))) && StageKept(run, host.disk.tree, k)
    requires Unblocked(Level(run, k), l.root, run.plan[k].target)
    modifies host
    ensures host.disk.journal == old(host.disk.journal)
    ensures old(host.faults) == [] ==> host.faults == [] && status.Done?
    ensures n <= made <= next && At(run, host.disk.tree, Position(k, MakingDirs(made)))
    ensures StageKept(run, host.disk.tree, k)
    ensures status.Done? ==> made == next
  {
    made := n;
    CreatedManaged(run, k, n);
    MkdirPossible(run, host.disk.tree, k, n);
    if !Open(host.disk.tree, l.root, Parent(l).path).Opened? {
      return Failed, made;
    }
    ghost var before := host.disk.tree;
    status := host.Do(Mkdir(l, DirectoryMode(l.root)));
    if host.disk.tree != before {
      MkdirStep(run, before, host.disk.tree, k, n);
      made := next;
    }
  }

  /** createRestoreDirectories */
  method CreateRestoreDirectories(host: Host, root: Root, dirs: seq<Path>, ghost run: RestoreRun, ghost k: nat)
    returns (status: Status, ghost made: nat)
    requires k < |run.plan| && root == run.plan[k].root && dirs == Created(run, k)
    requires At(run, host.disk.tree, Position(k, MakingDirs(0))) && StageKept(run, host.disk.tree, k)
    requires Unblocked(Level(run, k), root, run.plan[k].target)
    modifies host
    ensures host.disk.journal == old(host.disk.journal)
    ensures old(host.faults) == [] ==> host.faults == [] && status.Done?
    ensures made <= |dirs| && At(run, host.disk.tree, Position(k, MakingDirs(made)))
    ensures StageKept(run, host.disk.tree, k)
    ensures status.Done? ==> made == |dirs|
  {
    made := 0;
    for n := 0 to |dirs|
      invariant host.disk.journal == old(host.disk.journal) && (old(host.faults) == [] ==> host.faults == [])
      invariant made == n && At(run, host.disk.tree, Position(k, MakingDirs(n))) && StageKept(run, host.disk.tree, k)
    {
      status, made := CreateDirectory(host, Loc(root, dirs[n]), run, k, n, n + 1);
      if !status.Done? {
        return;
      }
    }
    status := Done;
  }

  lemma ExtendedAt(run: RestoreRun, t: Tree, t': Tree, p: Position, k: nat)
    requires At(run, t, p) && k < |run.plan|
    requires Extended(t, t', run.plan[k].root, Parent(Slot(run, k)).path)
    ensures At(run, t', p)
  {
    Viewed(run, t, p);
    ExtendedManaged(t, t', Txn(run.header), run.plan[k].root, Parent(Slot(run, k)).path);
    forall i | 0 <= i < |run.plan|
      ensures SlotsRight(run, t', p, i)
    {
      assert SlotsRight(run, t, p, i);
      SlotPlaces(run, i, k);
    }
    MakeView(run, t', p);
  }

  /** The directories down to the rollback slot; an occupied slot is refused. */
  method PrepareSlot(host: Host, slot: Loc, ghost run: RestoreRun, ghost p: Position, ghost k: nat)
    returns (status: Status)
    requires k < |run.plan| && slot == Slot(run, k) && At(run, host.disk.tree, p) && StageKept(run, host.disk.tree, k)
    modifies host
    ensures host.disk.journal == old(host.disk.journal)
    ensures At(run, host.disk.tree, p) && StageKept(run, host.disk.tree, k)
    ensures status.Done? ==> IsDir(host.disk.tree, Parent(slot)) && slot !in host.disk.tree
    ensures old(host.faults) == [] ==>
      host.faults == [] && !status.Crashed? && (p.local.MakingDirs? && p.k == k ==> status.Done?)
  {
    assert SlotsRight(run, host.disk.tree, p, k);
    status := EnsureDirectories(host, slot.root, Parent(slot).path, 0x1C0);
    ExtendedAt(run, old(host.disk.tree), host.disk.tree, p, k);
    assert SlotsRight(run, host.disk.tree, p, k);
    if status.Done? && slot in host.disk.tree {
      status := Failed;
    }
  }

  /** A record about the operation in progress reaches the journal, or does not. */
  method MarkAndHook(host: Host, mark: Record, ghost op: Operation, ghost marked: Operation, ghost run: RestoreRun,
      ghost ops: seq<Operation>)
    returns (status: Status, ghost op': Operation)
    requires host.disk.journal == Some(Written(run.header, ops + [op], false))
    requires Written(run.header, ops + [marked], false) == Written(run.header, ops + [op], false) + [mark]
    requires JournalFits(host.disk.journal.value)
    modifies host
    ensures host.disk.tree == old(host.disk.tree)
    ensures host.disk.journal == Some(Written(run.header, ops + [op'], false)) && (op' == op || op' == marked)
    ensures JournalFits(host.disk.journal.value)
    ensures status.Done? ==> op' == marked
    ensures old(host.faults) == [] ==> host.faults == [] && !status.Crashed?
    ensures old(host.faults) == [] && JournalFits(Written(run.header, ops + [marked], false)) ==> status.Done?
  {
    status := host.Do(Append(mark));
    op' := if host.disk.journal == old(host.disk.journal) then op else marked;
    if status.Done? {
      status := host.Do(Hook);
    }
  }

  /** The rename of the original into its rollback slot. */
  method RenameAside(host: Host, target: Loc, slot: Loc, ghost run: RestoreRun, ghost k: nat)
    returns (status: Status, ghost p: Position)
    requires k < |run.plan| && target == Target(run.plan[k]) && slot == Slot(run, k) && Existed(run, k)
    requires At(run, host.disk.tree, Position(k, MakingDirs(0))) && StageKept(run, host.disk.tree, k)
    modifies host
    ensures host.disk.journal == old(host.disk.journal)
    ensures At(run, host.disk.tree, p) && StageKept(run, host.disk.tree, k)
    ensures p == Position(k, Moved) || p == Position(k, MakingDirs(0))
    ensures status.Done? ==> p.local.Moved?
    ensures old(host.faults) == [] ==> host.faults == [] && !status.Crashed?
    ensures old(host.faults) == [] && RenameEntry(old(host.disk.tree), target, slot).Some? ==> status.Done?
  {
    p := Position(k, MakingDirs(0));
    ghost var before := host.disk.tree;
    status := host.Do(Rename(target, slot));
    if host.disk.tree != before {
      MoveAside(run, before, host.disk.tree, k);
      StageKeptRename(run, before, host.disk.tree, target, slot, k);
      p := Position(k, Moved);
    }
    if status.Done? { AsideChanges(run, before, k); }
  }

  lemma AsideChanges(run: RestoreRun, t: Tree, k: nat)
    requires GoodPlan(run) && k < |run.plan|
    ensures RenameEntry(t, Target(run.plan[k]), Slot(run, k)) != Some(t)
  {
    SlotPlaces(run, k, k);
  }

  /** The rename of the staged file to its target. */
  method RenameInto(host: Host, stage: Loc, target: Loc, ghost run: RestoreRun, ghost k: nat)
    returns (status: Status, ghost p: Position)
    requires k < |run.plan| && target == Target(run.plan[k]) && stage == Stage(run, k)
    requires At(run, host.disk.tree, Position(k, Ready(run, k))) && StageKept(run, host.disk.tree, k)
    modifies host
    ensures host.disk.journal == old(host.disk.journal)
    ensures At(run, host.disk.tree, p) && StageKept(run, host.disk.tree, p.k)
    ensures p == Position(k, Ready(run, k)) || p == Position(k + 1, MakingDirs(0))
    ensures status.Done? ==> p.k == k + 1
    ensures old(host.faults) == [] ==> host.faults == [] && !status.Crashed?
    ensures old(host.faults) == [] && RenameEntry(old(host.disk.tree), stage, target).Some? ==> status.Done?
  {
    p := Position(k, Ready(run, k));
    ghost var before := host.disk.tree;
    status := host.Do(Rename(stage, target));
    if host.disk.tree != before {
      PlaceStep(run, before, host.disk.tree, k);
      StageKeptRename(run, before, host.disk.tree, stage, target, k);
      p := Position(k + 1, MakingDirs(0));
    }
    if status.Done? { IntoChanges(run, before, k); }
  }

  lemma IntoChanges(run: RestoreRun, t: Tree, k: nat)
    requires GoodPlan(run) && k < |run.plan|
    ensures RenameEntry(t, Stage(run, k), Target(run.plan[k])) != Some(t)
  {
    SlotPlaces(run, k, k);
  }

  /** The original goes to its rollback slot, then the backed_up record. */
  method SetAside(host: Host, s: Staged, txn: string, ghost op: Operation, ghost run: RestoreRun,
      ghost ops: seq<Operation>)
    returns (status: Status, ghost op': Operation, ghost p: Position)
    requires |ops| < |run.plan| && s == run.plan[|ops|] && Existed(run, |ops|) && !op.backedUp && !op.promoted
    requires op.root == s.root && op.target == s.target && txn == Txn(run.header)
    requires At(run, host.disk.tree, Position(|ops|, MakingDirs(0))) && StageKept(run, host.disk.tree, |ops|)
    requires host.disk.journal == Some(Written(run.header, ops + [op], false))
    requires JournalFits(host.disk.journal.value)
    modifies host
    ensures At(run, host.disk.tree, p) && StageKept(run, host.disk.tree, |ops|)
    ensures host.disk.journal == Some(Written(run.header, ops + [op'], false))
    ensures JournalFits(host.disk.journal.value)
    ensures if p.local.Moved? then p.k == |ops| && (op' == op || op' == op.(backedUp := true))
      else p == Position(|ops|, MakingDirs(0)) && op' == op
    ensures status.Done? ==> p.local.Moved? && op' == op.(backedUp := true)
    ensures old(host.faults) == [] ==> host.faults == [] && !status.Crashed?
    ensures old(host.faults) == [] && RenameEntry(old(host.disk.tree), Target(s), Slot(run, |ops|)).Some?
      ==> (JournalFits(Written(run.header, ops + [op.(backedUp := true)], false)) ==> status.Done?)
  {
    ghost var marked := op.(backedUp := true);
    op' := op;
    status, p := RenameAside(host, Target(s), RollbackLoc(txn, s.root, s.target), run, |ops|);
    if !status.Done? {
      return;
    }
    WrittenMark(run.header, ops, op, marked, BackedUpRecord(s.root, s.target));
    status, op' := MarkAndHook(host, BackedUpRecord(s.root, s.target), op, marked, run, ops);
  }

  /** The staged file goes to its target, then the promoted record. */
  method PutInPlace(host: Host, s: Staged, txn: string, ghost op: Operation, ghost run: RestoreRun,
      ghost ops: seq<Operation>)
    returns (status: Status, ghost op': Operation, ghost p: Position)
    requires |ops| < |run.plan| && s == run.plan[|ops|] && !op.promoted
    requires op.root == s.root && op.target == s.target && txn == Txn(run.header)
    requires At(run, host.disk.tree, Position(|ops|, Ready(run, |ops|))) && StageKept(run, host.disk.tree, |ops|)
    requires host.disk.journal == Some(Written(run.header, ops + [op], false))
    requires JournalFits(host.disk.journal.value)
    modifies host
    ensures At(run, host.disk.tree, p)
    ensures host.disk.journal == Some(Written(run.header, ops + [op'], false))
    ensures JournalFits(host.disk.journal.value)
    ensures StageKept(run, host.disk.tree, p.k)
    ensures if p.k == |ops| then p.local == Ready(run, |ops|) && op' == op
      else p == Position(|ops| + 1, MakingDirs(0)) && (op' == op || op' == op.(promoted := true))
    ensures status.Done? ==> p == Position(|ops| + 1, MakingDirs(0)) && op' == op.(promoted := true)
    ensures old(host.faults) == [] ==> host.faults == [] && !status.Crashed?
    ensures old(host.faults) == [] && RenameEntry(old(host.disk.tree), Stage(run, |ops|), Target(s)).Some?
      ==> (JournalFits(Written(run.header, ops + [op.(promoted := true)], false)) ==> status.Done?)
  {
    ghost var marked := op.(promoted := true);
    op' := op;
    status, p := RenameInto(host, StageLoc(txn, s.root, s.target), Target(s), run, |ops|);
    if !status.Done? {
      return;
    }
    WrittenMark(run.header, ops, op, marked, PromotedRecord(s.root, s.target));
    status, op' := MarkAndHook(host, PromotedRecord(s.root, s.target), op, marked, run, ops);
  }

  /** Between the begin record of op and the end of its promotion. */
  ghost predicate Midway(run: RestoreRun, d: Disk, ops: seq<Operation>, op: Operation, p: Position) {
    && |ops| < |run.plan| && Begun(run, ops + [op]) && AllPromoted(ops) && At(run, d.tree, p)
    && d.journal == Some(Written(run.header, ops + [op], false)) && JournalFits(d.journal.value)
    && if p.k == |ops| then p.local.Moved? || (!op.backedUp && !op.promoted && StageKept(run, d.tree, |ops|))
       else p == Position(|ops| + 1, MakingDirs(0))
  }

  /** A promotion stopped after its begin record can be undone in full. */
  lemma MidwayRuns(run: RestoreRun, d: Disk, ops: seq<Operation>, op: Operation, p: Position)
    requires Midway(run, d, ops, op, p)
    ensures Running(run, d, Undecided(ops + [op], p))
  {
  }

  lemma MarkKeepsBegun(run: RestoreRun, ops: seq<Operation>, op: Operation, op': Operation)
    requires |ops| < |run.plan| && Begun(run, ops + [op]) && AllPromoted(ops)
    requires op' == op.(backedUp := op'.backedUp, promoted := op'.promoted) && FlagsOrdered(op')
    ensures Begun(run, ops + [op'])
  {
    var ops0, ops1 := ops + [op], ops + [op'];
    assert Matches(run, |ops|, ops0[|ops|]);
    forall i | 0 <= i < |ops1|
      ensures Matches(run, i, ops1[i])
    {
      assert Matches(run, i, ops0[i]);
    }
  }

  /** The checks between the begin record and the first rename: the parent opens and the target is as recorded. */
  method TargetUnchanged(t: Tree, s: Staged, existed: bool) returns (status: Status)
    ensures status.Done? <==>
      Open(t, s.root, RestoreJournal.Dir(s.target)).Opened? && (existed <==> Target(s) in t)
        && (existed ==> t[Target(s)].File?)
  {
    if !Open(t, s.root, RestoreJournal.Dir(s.target)).Opened? || existed != (Target(s) in t)
       || (existed && !t[Target(s)].File?) {
      return Failed;
    }
    return Done;
  }

  /** The renames of promotion k have somewhere to go. */
  ghost predicate Roomy(run: RestoreRun, t: Tree, k: nat)
    requires k < |run.plan|
  {
    && IsDir(t, Parent(Target(run.plan[k]))) && (Target(run.plan[k]) in t <==> Existed(run, k))
    && (Existed(run, k) ==> IsFile(t, Target(run.plan[k])) && IsDir(t, Parent(Slot(run, k))) && Slot(run, k) !in t)
  }

  /** With its directories made, the target's parent opens and the target is what it was at the start. */
  lemma RoomForTarget(run: RestoreRun, t: Tree, k: nat)
    requires k < |run.plan| && At(run, t, Position(k, MakingDirs(|Created(run, k)|)))
    requires Unblocked(Level(run, k), run.plan[k].root, run.plan[k].target)
    ensures var s := run.plan[k];
      && Open(t, s.root, RestoreJournal.Dir(s.target)).Opened? && IsDir(t, Parent(Target(s)))
      && (Target(s) in t <==> Existed(run, k)) && (Existed(run, k) ==> t[Target(s)] == run.pre[Target(s)])
  {
    Viewed(run, t, Position(k, MakingDirs(|Created(run, k)|)));
    var s, c := run.plan[k], Created(run, k);
    MkdirPossible(run, t, k, |c|);
    SlotPlaces(run, k, k);
    ViewIs(run, t, Position(k, MakingDirs(|c|)), Target(s));
    if Existed(run, k) {
      ExistedNoDirs(run, k);
      TargetUntouched(run, k, k);
    } else {
      TargetFresh(run, Position(k, MakingDirs(|c|)), k);
    }
  }

  /** Directories, the last checks, and room in the rollback area. */
  method MakeRoom(host: Host, s: Staged, txn: string, op: Operation, ghost run: RestoreRun, ghost ops: seq<Operation>)
    returns (status: Status, ghost p: Position)
    requires Midway(run, host.disk, ops, op, Position(|ops|, MakingDirs(0))) && !op.backedUp && !op.promoted
    requires s == run.plan[|ops|] && txn == Txn(run.header)
    modifies host
    ensures Midway(run, host.disk, ops, op, p) && p.k == |ops|
    ensures status.Done? ==> p.local == MakingDirs(|Created(run, |ops|)|) && StageKept(run, host.disk.tree, |ops|)
    ensures status.Done? ==> Roomy(run, host.disk.tree, |ops|)
    ensures old(host.faults) == [] ==> host.faults == [] && status.Done?
  {
    ghost var k := |ops|;
    assert Matches(run, k, (ops + [op])[k]);
    ghost var made;
    status, made := CreateRestoreDirectories(host, s.root, op.createdDirs, run, k);
    p := Position(k, MakingDirs(made));
    if !status.Done? {
      return;
    }
    RoomForTarget(run, host.disk.tree, k);
    status := TargetUnchanged(host.disk.tree, s, op.existed);
    if !status.Done? {
      return;
    }
    if op.existed {
      status := PrepareSlot(host, RollbackLoc(txn, s.root, s.target), run, p, k);
      if !status.Done? {
        return;
      }
      RoomForTarget(run, host.disk.tree, k);
    }
    status := host.Do(Hook);
  }

  /** The staged file can be renamed into place. */
  lemma PlacePossible(run: RestoreRun, t: Tree, k: nat, p: Position)
    requires k < |run.plan| && At(run, t, p) && p == Position(k, Ready(run, k)) && StageKept(run, t, k)
    requires Unblocked(Level(run, k), run.plan[k].root, run.plan[k].target)
    ensures RenameEntry(t, Stage(run, k), Target(run.plan[k])).Some?
  {
    PlanFacts(run);
    if Existed(run, k) {
      ParentOpen(run, t, p, k);
      SlotPlaces(run, k, k);
      ViewIs(run, t, p, Target(run.plan[k]));
    } else {
      RoomForTarget(run, t, k);
    }
  }

  /** With room for all records of the entry there is room for each. */
  lemma MarksFit(run: RestoreRun, ops: seq<Operation>, op: Operation)
    requires |ops| < |run.plan| && Begun(run, ops + [op]) && AllPromoted(ops) && !op.backedUp && !op.promoted
    ensures ops == FullOps(run, |ops|)
    ensures EntryFits(run, |ops|) && op.existed ==>
      JournalFits(Written(run.header, ops + [op.(backedUp := true)], false))
      && JournalFits(Written(run.header, ops + [op.(backedUp := true, promoted := true)], false))
    ensures EntryFits(run, |ops|) && !op.existed ==>
      JournalFits(Written(run.header, ops + [op.(promoted := true)], false))
  {
    assert Matches(run, |ops|, (ops + [op])[|ops|]);
    forall i | 0 <= i < |ops|
      ensures Matches(run, i, ops[i])
    {
      assert Matches(run, i, (ops + [op])[i]);
    }
    PromotedIsFull(run, ops);
    if EntryFits(run, |ops|) {
      if op.existed {
        PartFits(run, ops, op.(backedUp := true));
        PartFits(run, ops, op.(backedUp := true, promoted := true));
      } else {
        PartFits(run, ops, op.(promoted := true));
      }
    }
  }

  /** A promotion that is through had room. */
  lemma DoneFits(run: RestoreRun, d: Disk, ops: seq<Operation>, op: Operation, p: Position)
    requires Midway(run, d, ops, op, p) && op.promoted
    ensures EntryFits(run, |ops|)
  {
    forall i | 0 <= i < |ops|
      ensures Matches(run, i, ops[i])
    {
      assert Matches(run, i, (ops + [op])[i]);
    }
    assert Matches(run, |ops|, (ops + [op])[|ops|]);
    PromotedIsFull(run, ops);
    FullEntry(run, ops, op);
  }

  /** The renames: original aside, staged file into place. */
  method Exchange(host: Host, s: Staged, txn: string, op: Operation, ghost run: RestoreRun, ghost ops: seq<Operation>)
    returns (status: Status, ghost op': Operation, ghost p: Position)
    requires |ops| < |run.plan| && !op.backedUp && !op.promoted && s == run.plan[|ops|] && txn == Txn(run.header)
    requires Midway(run, host.disk, ops, op, Position(|ops|, MakingDirs(|Created(run, |ops|)|)))
    requires StageKept(run, host.disk.tree, |ops|) && Roomy(run, host.disk.tree, |ops|)
    modifies host
    ensures old(host.faults) == [] ==> host.faults == [] && !status.Crashed?
    ensures old(host.faults) == [] && EntryFits(run, |ops|) ==> status.Done?
    ensures Midway(run, host.disk, ops, op', p)
    ensures status.Done? ==>
      p == Position(|ops| + 1, MakingDirs(0)) && op'.promoted && StageKept(run, host.disk.tree, |ops| + 1)
  {
    ghost var k := |ops|;
    assert Matches(run, k, (ops + [op])[k]);
    MarksFit(run, ops, op);
    op', p := op, Position(k, MakingDirs(|Created(run, k)|));
    if op.existed {
      ExistedNoDirs(run, k);
      status, op', p := SetAside(host, s, txn, op, run, ops);
      MarkKeepsBegun(run, ops, op, op');
      if !status.Done? {
        return;
      }
    }
    status, op', p := Place(host, s, txn, op, op', run, ops);
  }

  /** The staged file goes into place, with the original aside if there was one. */
  method Place(host: Host, s: Staged, txn: string, ghost op: Operation, ghost op0: Operation, ghost run: RestoreRun,
      ghost ops: seq<Operation>)
    returns (status: Status, ghost op': Operation, ghost p: Position)
    requires |ops| < |run.plan| && s == run.plan[|ops|] && txn == Txn(run.header) && AllPromoted(ops)
    requires Begun(run, ops + [op]) && !op.backedUp && !op.promoted && op0 == op.(backedUp := op.existed)
    requires At(run, host.disk.tree, Position(|ops|, Ready(run, |ops|))) && StageKept(run, host.disk.tree, |ops|)
    requires host.disk.journal == Some(Written(run.header, ops + [op0], false))
    requires JournalFits(host.disk.journal.value)
    modifies host
    ensures old(host.faults) == [] ==> host.faults == [] && !status.Crashed?
    ensures old(host.faults) == [] && EntryFits(run, |ops|) ==> status.Done?
    ensures Midway(run, host.disk, ops, op', p)
    ensures status.Done? ==>
      p == Position(|ops| + 1, MakingDirs(0)) && op'.promoted && StageKept(run, host.disk.tree, |ops| + 1)
  {
    assert Matches(run, |ops|, (ops + [op])[|ops|]);
    MarksFit(run, ops, op);
    PlacePossible(run, host.disk.tree, |ops|, Position(|ops|, Ready(run, |ops|)));
    status, op', p := PutInPlace(host, s, txn, op0, run, ops);
    MarkKeepsBegun(run, ops, op, op');
  }

  lemma StageWaits(run: RestoreRun, t: Tree, k: nat)
    requires GoodPlan(run) && k < |run.plan| && StageKept(run, t, k)
    ensures IsFile(t, Stage(run, k))
  {
    PlanFacts(run);
  }

  /** promoteStagedRestoreFile: any call may fail or be the last one; what is left is always a running stand. */
  method PromoteStagedRestoreFile(host: Host, s: Staged, txn: string, ghost run: RestoreRun, ghost ops: seq<Operation>)
    returns (status: Status, ghost ops': seq<Operation>, ghost p: Position)
    requires |ops| < |run.plan| && s == run.plan[|ops|] && AllPromoted(ops) && txn == Txn(run.header)
    requires Running(run, host.disk, Undecided(ops, Position(|ops|, MakingDirs(0))))
    requires StageKept(run, host.disk.tree, |ops|)
    modifies host
    ensures Running(run, host.disk, Undecided(ops', p))
    ensures status.Done? ==> p == Position(|ops| + 1, MakingDirs(0)) && |ops'| == |ops| + 1
    ensures status.Done? ==> AllPromoted(ops') && StageKept(run, host.disk.tree, |ops| + 1)
    ensures old(host.faults) == [] ==> host.faults == [] && !status.Crashed?
    ensures old(host.faults) == [] ==>
      (status.Done? <==> Free(old(host.disk.tree), s) && EntryFits(run, |ops|))
    ensures old(host.faults) == [] && !status.Done? ==>
      |ops'| == |ops| + (if Free(old(host.disk.tree), s) && BeginFits(run, |ops|) then 1 else 0)
    ensures old(host.faults) == [] && !status.Done? && |ops'| == |ops| ==>
      ops' == ops && p == Position(|ops|, MakingDirs(0))
  {
    StageWaits(run, host.disk.tree, |ops|);
    p := Position(|ops|, MakingDirs(0));
    if EntryFits(run, |ops|) { EntryAfterBegin(run, |ops|); }
    if !IsFile(host.disk.tree, StageLoc(txn, s.root, s.target)) {
      return Failed, ops, p;
    }
    var op;
    status, op, ops' := BeginPromotion(host, s, run, ops);
    if !status.Done? {
      return;
    }
    ghost var op';
    status, op', p := CarryOut(host, s, txn, op, run, ops);
    MidwayRuns(run, host.disk, ops, op', p);
    ops' := ops + [op'];
  }

  /** What follows a begin record: room for the renames, then the renames. */
  method CarryOut(host: Host, s: Staged, txn: string, op: Operation, ghost run: RestoreRun, ghost ops: seq<Operation>)
    returns (status: Status, ghost op': Operation, ghost p: Position)
    requires Midway(run, host.disk, ops, op, Position(|ops|, MakingDirs(0))) && !op.backedUp && !op.promoted
    requires s == run.plan[|ops|] && txn == Txn(run.header)
    modifies host
    ensures Midway(run, host.disk, ops, op', p)
    ensures status.Done? ==>
      p == Position(|ops| + 1, MakingDirs(0)) && op'.promoted && StageKept(run, host.disk.tree, |ops| + 1)
    ensures old(host.faults) == [] ==> host.faults == [] && !status.Crashed?
    ensures old(host.faults) == [] ==> (status.Done? <==> EntryFits(run, |ops|))
  {
    op' := op;
    status, p := MakeRoom(host, s, txn, op, run, ops);
    if !status.Done? {
      return;
    }
    status, op', p := Exchange(host, s, txn, op, run, ops);
    if status.Done? { DoneFits(run, host.disk, ops, op', p); }
  }

  // ---- Staging

  /** l leads to, or is, the stage file of one of the first m entries. */
  ghost predicate LeadsToStage(run: RestoreRun, l: Loc, n: Node, m: nat)
    requires m <= |run.plan|
  {
    exists j :: 0 <= j < m && l.root == run.plan[j].root && l.path <= Stage(run, j).path &&
      (l == Stage(run, j) || n.Dir?)
  }

  /** While staging, the transaction directories hold their three directories and the files staged so far. */
  ghost predicate StagingShape(run: RestoreRun, t: Tree, m: nat)
    requires m <= |run.plan|
  {
    var txn := Txn(run.header);
    forall l :: l in t && InTxn(l, txn) ==>
      (t[l].Dir? && l.path in TxnDirs(txn)) || LeadsToStage(run, l, t[l], m)
  }

  function TxnDirs(txn: string): seq<Path> {
    [[txn], [txn, "stage"], [txn, "rollback"]]
  }

  ghost predicate StagedSoFar(run: RestoreRun, t: Tree, m: nat)
    requires m <= |run.plan|
  {
    && StagingShape(run, t, m) && Separated(run.plan[..m])
    && (forall j :: 0 <= j < m ==> Stage(run, j) in t && t[Stage(run, j)] == run.plan[j].node)
  }

  /** A run not yet staged: trees without a transaction directory, an open journal, validated entries. */
  ghost predicate Unstarted(run: RestoreRun, d: Disk) {
    && Stands(run, d, Bare) && d.tree == run.pre
    && |run.plan| <= MAX_RESTORE_ENTRIES
    && (forall i :: 0 <= i < |run.plan| ==> EntryAccepted(run.header, run.plan[i]))
  }

  /** A stage directory or file newly made cannot be above or below a file staged before. */
  lemma StageSeparates(run: RestoreRun, t: Tree, m: nat, j: nat)
    requires Tidy(t) && j < m < |run.plan| && run.plan[j].root == run.plan[m].root
    requires Stage(run, j) in t && t[Stage(run, j)].File? && Stage(run, m) !in t && IsDir(t, Parent(Stage(run, m)))
    ensures !(run.plan[j].target <= run.plan[m].target) && !(run.plan[m].target <= run.plan[j].target)
  {
    var a, b := Stage(run, j), Stage(run, m);
    var h := [Txn(run.header), "stage"];
    assert a.path == h + run.plan[j].target && b.path == h + run.plan[m].target;
    if run.plan[j].target <= run.plan[m].target {
      assert a.path <= b.path && a != b;
      if a != Parent(b) { AncestorIsDir(t, Parent(b), a.path); }
    }
    if run.plan[m].target <= run.plan[j].target {
      assert b.path < a.path;
      AncestorIsDir(t, a, b.path);
    }
  }

  lemma LeadsMore(run: RestoreRun, l: Loc, n: Node, m: nat)
    requires m < |run.plan| && LeadsToStage(run, l, n, m)
    ensures LeadsToStage(run, l, n, m + 1)
  {
    var j :| 0 <= j < m && l.root == run.plan[j].root && l.path <= Stage(run, j).path && (l == Stage(run, j) || n.Dir?);
    assert 0 <= j < m + 1;
  }

  /** Making the stage directories and then the stage file of entry m. */
  lemma StageCreate(run: RestoreRun, t: Tree, t1: Tree, t': Tree, m: nat)
    requires Tidy(t) && m < |run.plan| && StagedSoFar(run, t, m)
    requires forall i :: 0 <= i < |run.plan| ==> EntryAccepted(run.header, run.plan[i])
    requires Extended(t, t1, run.plan[m].root, Parent(Stage(run, m)).path)
    requires AddEntry(t1, Stage(run, m), run.plan[m].node) == Some(t')
    ensures Tidy(t') && StagedSoFar(run, t', m + 1)
    ensures Managed(t', Txn(run.header)) == Managed(t, Txn(run.header))
  {
    var txn, s, stage := Txn(run.header), run.plan[m], Stage(run, m);
    ExtendedManaged(t, t1, txn, s.root, Parent(stage).path);
    TidyPut(t1, stage, s.node);
    ManagedPut(t1, txn, stage, s.node);
    forall j | 0 <= j < m && run.plan[j].root == s.root
      ensures !(run.plan[j].target <= s.target) && !(s.target <= run.plan[j].target)
    {
      assert EntryAccepted(run.header, run.plan[j]);
      StageSeparates(run, t1, m, j);
    }
    assert run.plan[..m + 1] == run.plan[..m] + [s];
    SeparatedMore(run.plan[..m], s);
    forall l | l in t' && InTxn(l, txn)
      ensures (t'[l].Dir? && l.path in TxnDirs(txn)) || LeadsToStage(run, l, t'[l], m + 1)
    {
      if l == stage {
        assert 0 <= m < m + 1 && l.path <= Stage(run, m).path;
      } else if l !in t {
        assert l.path <= Parent(stage).path && Parent(stage).path <= stage.path;
      } else if !(t[l].Dir? && l.path in TxnDirs(txn)) {
        LeadsMore(run, l, t[l], m);
      }
    }
  }

  lemma SeparatedMore(plan: seq<Staged>, s: Staged)
    requires Separated(plan)
    requires forall j :: 0 <= j < |plan| && plan[j].root == s.root ==>
      !(plan[j].target <= s.target) && !(s.target <= plan[j].target)
    ensures Separated(plan + [s])
  {
    var more := plan + [s];
    forall i, j | 0 <= i < |more| && 0 <= j < |more| && i != j
      ensures Apart(more, i, j)
    {
      if i < |plan| && j < |plan| { assert Apart(plan, i, j); }
    }
  }

  /** createRestoreTransactionDirs */
  method CreateTransactionDirs(host: Host, txn: string, ghost run: RestoreRun) returns (status: Status)
    requires Unstarted(run, host.disk) && txn == Txn(run.header)
    modifies host
    ensures Stands(run, host.disk, Bare)
    ensures status.Done? ==> StagedSoFar(run, host.disk.tree, 0)
    ensures old(host.faults) == [] ==> host.faults == [] && status.Done?
  {
    var roots := [Project, Config, Secrets];
    assert forall l :: l in host.disk.tree ==> l in Managed(host.disk.tree, txn);
    for i := 0 to 3
      invariant Stands(run, host.disk, Bare) && (old(host.faults) == [] ==> host.faults == [])
      invariant TxnDirsOnly(host.disk.tree, txn, roots[..i])
    {
      assert roots[..i + 1] == roots[..i] + [roots[i]];
      status := CreateRootDirs(host, txn, roots[i], run, roots[..i]);
      if !status.Done? {
        return;
      }
    }
    assert run.plan[..0] == [];
    status := Done;
  }

  /** Nothing but the three directories is in the transaction directories, and only below these roots. */
  predicate TxnDirsOnly(t: Tree, txn: string, roots: seq<Root>) {
    forall l :: l in t && InTxn(l, txn) ==> l.root in roots && t[l].Dir? && l.path in TxnDirs(txn)
  }

  /** The first j directories of one root are there, and nothing else of the transaction. */
  ghost predicate RootDirs(t: Tree, txn: string, root: Root, others: seq<Root>, j: nat) {
    && j <= 3 && TxnDirsOnly(t, txn, others + [root])
    && (forall l :: l in t && InTxn(l, txn) && l.root == root ==> l.path in TxnDirs(txn)[..j])
    && (j > 0 ==> IsDir(t, Loc(root, [txn])))
  }

  /** The body of the loop below. */
  method CreateRootDir(host: Host, txn: string, root: Root, ghost run: RestoreRun, ghost others: seq<Root>, j: nat,
      ghost next: nat)
    returns (status: Status)
    requires Stands(run, host.disk, Bare) && txn == Txn(run.header) && j < 3 && next == j + 1
    requires RootDirs(host.disk.tree, txn, root, others, j)
    modifies host
    ensures Stands(run, host.disk, Bare)
    ensures status.Done? ==> RootDirs(host.disk.tree, txn, root, others, next)
    ensures old(host.faults) == [] ==> host.faults == [] && status.Done?
  {
    var l := Loc(root, TxnDirs(txn)[j]);
    assert Parent(l).path == if j == 0 then [] else [txn];
    ghost var before := host.disk.tree;
    status := host.Do(Mkdir(l, 0x1C0));
    if host.disk.tree != before {
      TidyPut(before, l, Node.Dir(0x1C0));
      ManagedPut(before, txn, l, Node.Dir(0x1C0));
    }
  }

  method CreateRootDirs(host: Host, txn: string, root: Root, ghost run: RestoreRun, ghost others: seq<Root>)
    returns (status: Status)
    requires Stands(run, host.disk, Bare) && txn == Txn(run.header)
    requires TxnDirsOnly(host.disk.tree, txn, others) && root !in others
    modifies host
    ensures Stands(run, host.disk, Bare)
    ensures status.Done? ==> TxnDirsOnly(host.disk.tree, txn, others + [root])
    ensures old(host.faults) == [] ==> host.faults == [] && status.Done?
  {
    for j := 0 to 3
      invariant Stands(run, host.disk, Bare) && (old(host.faults) == [] ==> host.faults == [])
      invariant RootDirs(host.disk.tree, txn, root, others, j)
    {
      status := CreateRootDir(host, txn, root, run, others, j, j + 1);
      if !status.Done? {
        return;
      }
    }
    status := Done;
  }

  /** The way down to stage file m is free of files when no target is below another. */
  lemma StageClear(run: RestoreRun, t: Tree, m: nat)
    requires Tidy(t) && m < |run.plan| && StagingShape(run, t, m) && Separated(run.plan)
    ensures Clear(t, run.plan[m].root, Parent(Stage(run, m)).path)
    ensures Stage(run, m) !in t
  {
    var root, stage, txn := run.plan[m].root, Stage(run, m), Txn(run.header);
    RootAbsent(t, root);
    forall q | q <= stage.path && Loc(root, q) in t
      ensures q != stage.path && t[Loc(root, q)].Dir?
    {
      assert q[0] == txn;
      if LeadsToStage(run, Loc(root, q), t[Loc(root, q)], m) {
        var j :| 0 <= j < m && root == run.plan[j].root && q <= Stage(run, j).path
          && (Loc(root, q) == Stage(run, j) || t[Loc(root, q)].Dir?);
        StageOrder(run, j, m);
      }
    }
  }

  lemma StageOrder(run: RestoreRun, j: nat, m: nat)
    requires j < |run.plan| && m < |run.plan| && j != m && run.plan[j].root == run.plan[m].root && Separated(run.plan)
    ensures !(Stage(run, j).path <= Stage(run, m).path) && !(Stage(run, m).path <= Stage(run, j).path)
  {
    assert Apart(run.plan, j, m) && Apart(run.plan, m, j);
    var h := [Txn(run.header), "stage"];
    var p, q := run.plan[j].target, run.plan[m].target;
    assert (h + p)[2..] == p && (h + q)[2..] == q;
    assert h + p <= h + q ==> p <= q;
    assert h + q <= h + p ==> q <= p;
  }

  /** stageRestoreFile */
  method StageRestoreFile(host: Host, s: Staged, txn: string, ghost run: RestoreRun, ghost m: nat)
    returns (status: Status)
    requires m < |run.plan| && s == run.plan[m] && txn == Txn(run.header)
    requires forall i :: 0 <= i < |run.plan| ==> EntryAccepted(run.header, run.plan[i])
    requires Stands(run, host.disk, Bare) && StagedSoFar(run, host.disk.tree, m)
    modifies host
    ensures Stands(run, host.disk, Bare)
    ensures status.Done? ==> StagedSoFar(run, host.disk.tree, m + 1)
    ensures old(host.faults) == [] ==> host.faults == [] && !status.Crashed? && (Separated(run.plan) ==> status.Done?)
  {
    var stage := StageLoc(txn, s.root, s.target);
    if Separated(run.plan) { StageClear(run, host.disk.tree, m); }
    status := EnsureDirectories(host, s.root, Parent(stage).path, 0x1C0);
    ghost var t1 := host.disk.tree;
    ExtendedManaged(old(host.disk.tree), t1, txn, s.root, Parent(stage).path);
    if !status.Done? {
      return;
    }
    status := host.Do(Create(stage, s.node));
    if host.disk.tree != t1 {
      StageCreate(run, old(host.disk.tree), t1, host.disk.tree, m);
    }
    assert stage !in t1 || !status.Done?;
  }

  /** With everything staged, the run is at position 0 with every stage file waiting. */
  lemma StagingComplete(run: RestoreRun, d: Disk)
    requires Stands(run, d, Bare) && StagedSoFar(run, d.tree, |run.plan|)
    requires |run.plan| <= MAX_RESTORE_ENTRIES
    requires forall i :: 0 <= i < |run.plan| ==> EntryAccepted(run.header, run.plan[i])
    ensures Running(run, d, Undecided([], Position(0, MakingDirs(0)))) && StageKept(run, d.tree, 0)
  {
    assert run.plan[..|run.plan|] == run.plan;
    ManagedTidy(d.tree, Txn(run.header));
    assert Managed(run.pre, Txn(run.header)) == run.pre;
    assert GoodPlan(run) by {
      forall i | 0 <= i < |run.plan|
        ensures ValidRelative(run.plan[i].target) && run.plan[i].target[0] != Txn(run.header) && run.plan[i].node.File?
      {
        assert EntryAccepted(run.header, run.plan[i]);
      }
    }
    StartView(run, 0);
    var p := Position(0, MakingDirs(0));
    forall i | 0 <= i < |run.plan|
      ensures SlotsRight(run, d.tree, p, i)
    {
      StagedSlots(run, d.tree, i);
    }
  }

  lemma StagedSlots(run: RestoreRun, t: Tree, i: nat)
    requires GoodPlan(run) && Tidy(t) && i < |run.plan| && StagingShape(run, t, |run.plan|) && Stage(run, i) in t
    ensures Slot(run, i) !in t
    ensures Unblocked(t, run.plan[i].root, Slot(run, i).path) && Unblocked(t, run.plan[i].root, Stage(run, i).path)
  {
    var root, slot, stage := run.plan[i].root, Slot(run, i), Stage(run, i);
    RootAbsent(t, root);
    forall q | q <= slot.path && Loc(root, q) in t
      ensures q != slot.path && t[Loc(root, q)].Dir?
    {
      assert q[0] == Txn(run.header);
      assert |q| >= 2 ==> q[1] == "rollback";
      if LeadsToStage(run, Loc(root, q), t[Loc(root, q)], |run.plan|) {
        var j :| 0 <= j < |run.plan| && root == run.plan[j].root && q <= Stage(run, j).path
          && (Loc(root, q) == Stage(run, j) || t[Loc(root, q)].Dir?);
        assert Stage(run, j).path[1] == "stage" && |Stage(run, j).path| >= 3;
      }
    }
    forall q | q < stage.path && Loc(root, q) in t
      ensures t[Loc(root, q)].Dir?
    {
      AncestorIsDir(t, stage, q);
    }
  }

  // ---- The whole restore

  /** Entry i is free, and so is every entry before it: an undisturbed promotion gets to its begin record. */
  ghost predicate Begins(run: RestoreRun, i: nat)
    requires i < |run.plan|
  {
    forall j :: 0 <= j <= i ==> Free(run.pre, run.plan[j])
  }

  /** An undisturbed promotion gets to the begin record of entry i, and that has room in the journal. */
  ghost predicate Reaches(run: RestoreRun, i: nat)
    requires i < |run.plan|
  {
    Begins(run, i) && BeginFits(run, i)
  }

  /** Where an undisturbed run that fails stops: before anything is promoted when two targets collide in the stage,
      otherwise with exactly the entries begun that it reaches, and between two of them unless the journal is full. */
  ghost predicate StopsShort(run: RestoreRun, s: Stand) {
    if !Separated(run.plan) then s.Bare?
    else
      && s.Undecided? && |s.ops| <= |run.plan|
      && (forall i :: 0 <= i < |run.plan| ==> (i < |s.ops| <==> Reaches(run, i)))
      && ((forall i :: 0 <= i < |s.ops| ==> EntryFits(run, i)) ==>
           s.at == Position(|s.ops|, MakingDirs(0)) && AllPromoted(s.ops))
  }

  /** An undisturbed run commits: nothing is in the way, and the journal has room for all of it. */
  ghost predicate Commits(run: RestoreRun) {
    Unobstructed(run) && RunFits(run)
  }

  /** The forward half of applyArchiveTransactional, up to and including the commit record. Undisturbed, it
      commits exactly when the plan is unobstructed and the journal has room. */
  method RunRestore(host: Host, header: Header, plan: seq<Staged>) returns (status: Status, ghost s: Stand)
    requires Unstarted(RestoreRun(header, host.disk.tree, plan), host.disk)
    modifies host
    ensures Running(RestoreRun(header, old(host.disk.tree), plan), host.disk, s)
    ensures status.Done? ==> s.Committed?
    ensures old(host.faults) == [] ==>
      host.faults == [] && !status.Crashed?
        && (status.Done? <==> Commits(RestoreRun(header, old(host.disk.tree), plan)))
    ensures old(host.faults) == [] && !status.Done? ==> StopsShort(RestoreRun(header, old(host.disk.tree), plan), s)
  {
    ghost var run := RestoreRun(header, host.disk.tree, plan);
    status := StageAll(host, plan, Txn(header), run);
    s := Bare;
    if !status.Done? {
      return;
    }
    StagingComplete(run, host.disk);
    status, s := PromoteAll(host, plan, Txn(header), run);
    if !status.Done? {
      return;
    }
    ghost var ops := s.ops;
    StopBetween(run, host.disk, ops, s.at);
    status, s := Commit(host, run, ops);
  }

  /** Transaction directories, every staged file, and the hooks that look at the stage. */
  method StageAll(host: Host, plan: seq<Staged>, txn: string, ghost run: RestoreRun) returns (status: Status)
    requires Unstarted(run, host.disk) && plan == run.plan && txn == Txn(run.header)
    modifies host
    ensures Stands(run, host.disk, Bare)
    ensures status.Done? ==> StagedSoFar(run, host.disk.tree, |plan|)
    ensures old(host.faults) == [] ==> host.faults == [] && !status.Crashed? && (Separated(plan) ==> status.Done?)
  {
    status := CreateTransactionDirs(host, txn, run);
    if !status.Done? {
      return;
    }
    for m := 0 to |plan|
      invariant Stands(run, host.disk, Bare) && StagedSoFar(run, host.disk.tree, m)
      invariant old(host.faults) == [] ==> host.faults == []
    {
      status := StageRestoreFile(host, plan[m], txn, run, m);
      if !status.Done? {
        return;
      }
    }
    status := host.Do(Hook);
  }

  /** The last hooks and the commit record, which decides whatever its append returned. */
  method Commit(host: Host, ghost run: RestoreRun, ghost ops: seq<Operation>) returns (status: Status, ghost s: Stand)
    requires |ops| == |run.plan| && Running(run, host.disk, Undecided(ops, Position(|run.plan|, MakingDirs(0))))
    requires AllPromoted(ops)
    modifies host
    ensures Running(run, host.disk, s)
    ensures status.Done? ==> s.Committed?
    ensures s.Committed? ==> Commits(run)
    ensures old(host.faults) == [] ==> host.faults == [] && !status.Crashed? && (status.Done? <==> RunFits(run))
    ensures old(host.faults) == [] && !status.Done? ==> s == Undecided(ops, Position(|run.plan|, MakingDirs(0)))
  {
    s := Undecided(ops, Position(|run.plan|, MakingDirs(0)));
    status := host.Do(Hook);
    if !status.Done? {
      return;
    }
    ghost var before := host.disk;
    assert before.journal.value + [CommitRecord] != before.journal.value;
    CommittedFits(run, ops);
    assert Written(run.header, ops, true) == Written(run.header, ops, false) + [CommitRecord] by {
      assert Written(run.header, ops, false) == WrittenOps(run.header, ops);
    }
    status := host.Do(Append(CommitRecord));
    if host.disk != before {
      CommitDecides(run, before, host.disk, ops);
      s := Committed(ops);
      CommittedUnobstructed(run, host.disk, s);
    }
  }

  /** No target is at or below another, none is below a file, and none is a directory. */
  ghost predicate Unobstructed(run: RestoreRun) {
    Separated(run.plan) && forall i :: 0 <= i < |run.plan| ==> Free(run.pre, run.plan[i])
  }

  /** An earlier promotion never gets in the way of a later one. */
  lemma FreeAgrees(run: RestoreRun, k: nat)
    requires GoodPlan(run) && k < |run.plan|
    ensures Free(Level(run, k), run.plan[k]) <==> Free(run.pre, run.plan[k])
  {
    PlanFacts(run);
    var s := run.plan[k];
    TargetUntouched(run, k, k);
    forall q | q < s.target
      ensures Loc(s.root, q) in run.pre ==>
        Loc(s.root, q) in Level(run, k) && Level(run, k)[Loc(s.root, q)] == run.pre[Loc(s.root, q)]
      ensures Loc(s.root, q) in Level(run, k) && Loc(s.root, q) !in run.pre ==> Level(run, k)[Loc(s.root, q)].Dir?
    {
      FinalContent(run, k, Loc(s.root, q));
    }
  }

  lemma FreeNow(run: RestoreRun, t: Tree, k: nat)
    requires k < |run.plan| && At(run, t, Position(k, MakingDirs(0))) && Free(run.pre, run.plan[k])
    ensures Free(t, run.plan[k])
  {
    var s, p := run.plan[k], Position(k, MakingDirs(0));
    FreeAgrees(run, k);
    StartView(run, k);
    SlotPlaces(run, k, k);
    ViewIs(run, t, p, Target(s));
    RootAbsent(t, s.root);
    forall q | q < s.target && Loc(s.root, q) in t
      ensures t[Loc(s.root, q)].Dir?
    {
      assert q[0] == s.target[0];
      ViewIs(run, t, p, Loc(s.root, q));
    }
  }

  /** Whatever was begun was free. */
  lemma BegunFree(run: RestoreRun, ops: seq<Operation>, i: nat)
    requires GoodPlan(run) && Begun(run, ops) && i < |ops|
    ensures Begins(run, i)
  {
    forall j | 0 <= j <= i
      ensures Free(run.pre, run.plan[j])
    {
      assert Matches(run, j, ops[j]);
      TargetUntouched(run, j, j);
      FreeAgrees(run, j);
    }
  }

  /** Only an unobstructed run ever commits. */
  lemma CommittedUnobstructed(run: RestoreRun, d: Disk, s: Stand)
    requires Stands(run, d, s) && s.Committed?
    ensures Unobstructed(run)
  {
    forall i | 0 <= i < |run.plan|
      ensures Free(run.pre, run.plan[i])
    {
      BegunFree(run, s.ops, i);
    }
  }

  lemma ReachesDown(run: RestoreRun, i: nat, k: nat)
    requires i <= k < |run.plan| && Reaches(run, k)
    ensures Reaches(run, i)
  {
    BeginsFitDown(run, i, k);
  }

  lemma BegunReached(run: RestoreRun, d: Disk, ops: seq<Operation>, p: Position, i: nat)
    requires Stands(run, d, Undecided(ops, p)) && i < |ops|
    ensures Reaches(run, i)
  {
    BegunFree(run, ops, i);
    assert Written(run.header, ops, false) == WrittenOps(run.header, ops);
    BegunFits(run, ops, i);
  }

  /** Where the next entry is not reached, exactly the begun ones are. */
  lemma StopBetween(run: RestoreRun, d: Disk, ops: seq<Operation>, p: Position)
    requires Stands(run, d, Undecided(ops, p)) && (|ops| < |run.plan| ==> !Reaches(run, |ops|))
    requires (forall i :: 0 <= i < |ops| ==> EntryFits(run, i)) ==>
      p == Position(|ops|, MakingDirs(0)) && AllPromoted(ops)
    ensures Separated(run.plan) ==> StopsShort(run, Undecided(ops, p))
  {
    forall i | 0 <= i < |run.plan|
      ensures i < |ops| <==> Reaches(run, i)
    {
      if i < |ops| {
        BegunReached(run, d, ops, p, i);
      } else if Reaches(run, i) {
        ReachesDown(run, |ops|, i);
      }
    }
  }

  /** An undisturbed promotion of entry |ops| that failed, with more begun than before or not. */
  lemma StopsAfter(run: RestoreRun, d: Disk, t: Tree, ops: seq<Operation>, ops': seq<Operation>, p: Position)
    requires Stands(run, d, Undecided(ops', p)) && |ops| < |run.plan| && AllPromoted(ops)
    requires At(run, t, Position(|ops|, MakingDirs(0)))
    requires !(Free(t, run.plan[|ops|]) && EntryFits(run, |ops|))
    requires |ops'| == |ops| + (if Free(t, run.plan[|ops|]) && BeginFits(run, |ops|) then 1 else 0)
    requires |ops'| == |ops| ==> ops' == ops && p == Position(|ops|, MakingDirs(0))
    ensures Separated(run.plan) ==> StopsShort(run, Undecided(ops', p))
  {
    var k := |ops|;
    if Free(run.pre, run.plan[k]) { FreeNow(run, t, k); }
    if |ops'| == k + 1 && k + 1 < |run.plan| && BeginFits(run, k + 1) {
      BeginAfterEntries(run, k, k + 1);
    }
    StopBetween(run, d, ops', p);
  }

  /** The promotion loop. */
  method PromoteAll(host: Host, plan: seq<Staged>, txn: string, ghost run: RestoreRun)
    returns (status: Status, ghost s: Stand)
    requires plan == run.plan && txn == Txn(run.header)
    requires Running(run, host.disk, Undecided([], Position(0, MakingDirs(0)))) && StageKept(run, host.disk.tree, 0)
    modifies host
    ensures s.Undecided? && Running(run, host.disk, s)
    ensures status.Done? ==> s.at == Position(|plan|, MakingDirs(0)) && |s.ops| == |plan| && AllPromoted(s.ops)
    ensures old(host.faults) == [] ==> host.faults == [] && !status.Crashed? && (Commits(run) ==> status.Done?)
    ensures old(host.faults) == [] && !status.Done? && Separated(plan) ==> StopsShort(run, s)
  {
    ghost var ops: seq<Operation> := [];
    s := Undecided([], Position(0, MakingDirs(0)));
    for k := 0 to |plan|
      invariant s == Undecided(ops, Position(k, MakingDirs(0))) && |ops| == k && AllPromoted(ops)
      invariant Running(run, host.disk, s) && StageKept(run, host.disk.tree, k)
      invariant old(host.faults) == [] ==> host.faults == []
    {
      if Commits(run) {
        FreeNow(run, host.disk.tree, k);
        RunAfterEntries(run, k);
      }
      ghost var t, done := host.disk.tree, ops;
      ghost var p;
      status, ops, p := PromoteStagedRestoreFile(host, plan[k], txn, run, ops);
      s := Undecided(ops, p);
      if !status.Done? {
        if old(host.faults) == [] { StopsAfter(run, host.disk, t, done, ops, p); }
        return;
      }
    }
    status := Done;
  }

  /** The commit record reaching the disk is what decides, whatever the append returned. */
  lemma CommitDecides(run: RestoreRun, d: Disk, d': Disk, ops: seq<Operation>)
    requires Stands(run, d, Undecided(ops, Position(|run.plan|, MakingDirs(0)))) && |ops| == |run.plan|
    requires Apply(d, Append(CommitRecord)) == Some(d')
    ensures Stands(run, d', Committed(ops))
  {
    Viewed(run, d.tree, Position(|run.plan|, MakingDirs(0)));
    StartView(run, |run.plan|);
    assert Written(run.header, ops, false) == WrittenOps(run.header, ops);
  }

  /** An undisturbed run commits, stages nothing that collides, or begins no entry whose slot name is too long. */
  ghost predicate Recoverable(run: RestoreRun) {
    || Commits(run) || !Separated(run.plan)
    || forall i :: 0 <= i < |run.plan| && Reaches(run, i) ==> Short(run.plan[i].target)
  }

  lemma NameableStop(run: RestoreRun, d: Disk, s: Stand)
    requires Stands(run, d, s) && StopsShort(run, s) && !Commits(run)
    ensures Nameable(s) <==> Recoverable(run)
  {
    if s.Undecided? {
      forall i | 0 <= i < |s.ops|
        ensures s.ops[i].target == run.plan[i].target
      {
        assert Matches(run, i, s.ops[i]);
      }
    }
  }

  /** The recovery by the process itself, after its run has failed; quiet when nothing has disturbed it so far. */
  method RecoverOwn(host: Host, ghost run: RestoreRun, project: Path, ghost reached: Stand, ghost quiet: bool)
    returns (recovery: Status, ghost s: Stand)
    requires Running(run, host.disk, reached) && project == run.header.project
    requires quiet ==> host.faults == [] && StopsShort(run, reached) && !Commits(run)
    modifies host
    ensures Stands(run, host.disk, s)
    ensures recovery.Done? ==> Finished(s)
    ensures quiet ==> (recovery.Done? <==> Recoverable(run))
    ensures quiet && recovery.Done? ==> s == Restored
    ensures quiet && !recovery.Done? ==>
      s.Undecided? && Recovered(host.disk, project) == (host.disk, false)
  {
    CrashAtomicity(run, host.disk, reached);
    if quiet { NameableStop(run, host.disk, reached); }
    if !Nameable(reached) { LongNameHolds(run, host.disk, reached); }
    recovery, s := RecoverRestoreTransaction(host, project, run, reached);
  }

  /** applyArchiveTransactional: on failure the process recovers itself; cleaned says whether nothing is left to do.
      Undisturbed, that fails exactly for a long name begun before an obstruction or the end of the journal's room. */
  method ApplyArchiveTransactional(host: Host, header: Header, plan: seq<Staged>)
    returns (status: Status, cleaned: bool, ghost s: Stand)
    requires Unstarted(RestoreRun(header, host.disk.tree, plan), host.disk)
    modifies host
    ensures Stands(RestoreRun(header, old(host.disk.tree), plan), host.disk, s)
    ensures status.Done? ==> s.Renewed?
    ensures cleaned ==> Finished(s)
    ensures old(host.faults) == [] ==> (cleaned <==> Recoverable(RestoreRun(header, old(host.disk.tree), plan)))
    ensures old(host.faults) == [] && cleaned ==>
      s == if Commits(RestoreRun(header, old(host.disk.tree), plan)) then Renewed else Restored
    ensures old(host.faults) == [] && !cleaned ==>
      s.Undecided? && Recovered(host.disk, header.project) == (host.disk, false)
  {
    ghost var run := RestoreRun(header, host.disk.tree, plan);
    ghost var reached;
    ghost var quiet := host.faults == [];
    cleaned := false;
    status, reached := RunRestore(host, header, plan);
    s := reached;
    if status.Crashed? {
      return;
    }
    if status.Failed? {
      var recovery;
      recovery, s := RecoverOwn(host, run, header.project, reached, quiet);
      cleaned := recovery.Done?;
      if recovery.Crashed? {
        status := Crashed;
      }
      return;
    }
    status, s := FinishTransaction(host, Txn(header), run, reached);
    cleaned := status.Done?;
  }

  /** Every target a journal begins is one recovery can name. */
  predicate NamesFit(records: seq<Record>) {
    forall i :: 0 <= i < |records| && records[i].BeginRecord? ==> Short(records[i].target)
  }

  lemma {:induction false} NamesFitIff(header: Header, ops: seq<Operation>, committed: bool)
    ensures NamesFit(Written(header, ops, committed)) <==> AllShort(ops)
    decreases |ops|, committed
  {
    assert Written(header, ops, false) == WrittenOps(header, ops);
    if committed {
      NamesFitIff(header, ops, false);
      NamesFitConcat(WrittenOps(header, ops), [CommitRecord]);
    } else if ops != [] {
      var done, op := ops[..|ops| - 1], ops[|ops| - 1];
      NamesFitIff(header, done, false);
      assert Written(header, done, false) == WrittenOps(header, done);
      NamesFitConcat(WrittenOps(header, done), RecordsOf(op));
      assert RecordsOf(op)[0].BeginRecord?;
      assert AllShort(ops) <==> AllShort(done) && Short(op.target);
    }
  }

  lemma {:induction false} NamesFitConcat(a: seq<Record>, b: seq<Record>)
    ensures NamesFit(a + b) <==> NamesFit(a) && NamesFit(b)
  {
    assert forall i :: 0 <= i < |a| ==> (a + b)[i] == a[i];
    assert forall i :: 0 <= i < |b| ==> (a + b)[|a| + i] == b[i];
  }

  /** Stop a restore anywhere, then run one undisturbed recovery: every staged file in place if the journal held the
      commit record when the restore stopped, otherwise the trees as they were, and nothing of the transaction remains,
      unless the journal begins a target whose slot name is too long: then the journal stays and recovery is refused
      from then on. */
  method StopThenRecover(host: Host, header: Header, plan: seq<Staged>) returns (ghost stopped: Disk, ghost s: Stand)
    requires Unstarted(RestoreRun(header, host.disk.tree, plan), host.disk)
    modifies host
    ensures stopped.journal.Some? && Stands(RestoreRun(header, old(host.disk.tree), plan), host.disk, s)
    ensures CommitRecord in stopped.journal.value ==>
      host.disk == Disk(Level(RestoreRun(header, old(host.disk.tree), plan), |plan|), None)
    ensures CommitRecord !in stopped.journal.value && NamesFit(stopped.journal.value) ==>
      host.disk == Disk(old(host.disk.tree), None)
    ensures CommitRecord !in stopped.journal.value && !NamesFit(stopped.journal.value) ==>
      host.disk.journal == stopped.journal && Recovered(host.disk, header.project) == (host.disk, false)
  {
    ghost var run := RestoreRun(header, host.disk.tree, plan);
    var status;
    status, s := RunRestore(host, header, plan);
    host.faults := [];
    stopped := host.disk;
    WrittenCommit(header, if s.Bare? then [] else s.ops, s.Committed?);
    NamesFitIff(header, if s.Bare? then [] else s.ops, s.Committed?);
    CrashAtomicity(run, host.disk, s);
    if !Nameable(s) { LongNameHolds(run, host.disk, s); }
    status, s := RecoverRestoreTransaction(host, header.project, run, s);
  }

  /** Restarts: recovery is entered again after each interruption, any number of times. */
  method RecoverRepeatedly(host: Host, project: Path, restarts: seq<seq<Fault>>, ghost run: RestoreRun, ghost s: Stand)
    returns (ghost s': Stand)
    requires Stands(run, host.disk, s) && project == run.header.project
    modifies host
    ensures Stands(run, host.disk, s')
    ensures s.Committed? || s.Renewed? <==> s'.Committed? || s'.Renewed?
    ensures (s.Committed? || s.Renewed?) && restarts != [] && restarts[|restarts| - 1] == [] ==> s'.Renewed?
    ensures !Nameable(s) ==> !Nameable(s')
  {
    s' := s;
    for i := 0 to |restarts|
      invariant Stands(run, host.disk, s')
      invariant s.Committed? || s.Renewed? <==> s'.Committed? || s'.Renewed?
      invariant !Nameable(s) ==> !Nameable(s')
      invariant i > 0 && (s.Committed? || s.Renewed?) && restarts[i - 1] == [] ==> s'.Renewed?
    {
      host.faults := restarts[i];
      RecoveryFailsClosed(run, host.disk, s');
      var status;
      status, s' := RecoverRestoreTransaction(host, project, run, s');
    }
  }
}
