/** The project generation transaction: journal, promote, commit, recover. */
module ProjectTransaction {
  import opened Common
  import opened ProjectUndo
  import opened ProjectExact
  import opened ProjectLog
  import opened ProjectApply

  const TRANSACTION_DIR := ".sdbx-init-transaction"

  // ---- Removing the transaction directory

  /** One thing removeTransactionDir removes. */
  datatype Piece = ManifestPiece | BackupPiece(backup: nat) | StagePiece(source: nat) | DirPiece

  predicate Removable(d: TxnDir, piece: Piece) {
    match piece
    case ManifestPiece => d.manifest.Some?
    case BackupPiece(k) => k in d.backups
    case StagePiece(k) => k in d.stage
    case DirPiece => d == TxnDir(map[], map[], None)
  }

  function Without(d: TxnDir, piece: Piece): Option<TxnDir> {
    match piece
    case ManifestPiece => Some(d.(manifest := None))
    case BackupPiece(k) => Some(d.(backups := d.backups - {k}))
    case StagePiece(k) => Some(d.(stage := d.stage - {k}))
    case DirPiece => None
  }

  lemma SomeRemovable(d: TxnDir) returns (piece: Piece)
    ensures Removable(d, piece)
  {
    if d.manifest.Some? {
      piece := ManifestPiece;
    } else if d.backups != map[] {
      var k :| k in d.backups;
      piece := BackupPiece(k);
    } else if d.stage != map[] {
      var k :| k in d.stage;
      piece := StagePiece(k);
    } else {
      piece := DirPiece;
    }
  }

  lemma Smaller(d: TxnDir, piece: Piece)
    requires Removable(d, piece)
    ensures Without(d, piece).Some? ==> Size(Without(d, piece).value) < Size(d)
    ensures Without(d, piece).None? ==> d.manifest.None?
  {
    match piece
    case ManifestPiece =>
    case BackupPiece(k) => assert (d.backups - {k}).Keys == d.backups.Keys - {k};
    case StagePiece(k) => assert (d.stage - {k}).Keys == d.stage.Keys - {k};
    case DirPiece =>
  }

  function Size(d: TxnDir): nat {
    |d.stage.Keys| + |d.backups.Keys| + if d.manifest.Some? then 1 else 0
  }

  /** The transaction directory or its manifest may have gone; the manifest has not changed. */
  predicate ManifestKept(before: Option<TxnDir>, now: Option<TxnDir>) {
    now.Some? ==> before.Some? && (now.value.manifest.None? || now.value.manifest == before.value.manifest)
  }

  /** The first piece is there, and not the last. */
  predicate GoesFirst(d: Option<TxnDir>, first: Piece) {
    d.Some? && Removable(d.value, first) && !first.DirPiece?
  }

  /** removeTransactionDir: RemoveAll, in the order the directory is listed, which is any. first goes first. */
  method RemoveTransactionDir(host: ProjectHost, first: Piece) returns (status: Status)
    modifies host
    ensures host.disk.tree == old(host.disk.tree)
    ensures ManifestKept(old(host.disk.txn), host.disk.txn)
    ensures status.Done? ==> host.disk.txn.None?
    ensures old(host.faults) == [] ==> host.faults == [] && status.Done?
    ensures old(host.faults) == [Run, Crash] && GoesFirst(old(host.disk.txn), first) ==>
      status.Crashed? && host.disk.txn == Without(old(host.disk.txn).value, first)
  {
    ghost var d0, dying := host.disk.txn, host.faults == [Run, Crash] && GoesFirst(host.disk.txn, first);
    var turn := 0;
    while host.disk.txn.Some?
      invariant host.disk.tree == old(host.disk.tree) && ManifestKept(d0, host.disk.txn)
      invariant old(host.faults) == [] ==> host.faults == []
      invariant turn == 0 ==> host.disk.txn == d0 && host.faults == old(host.faults)
      invariant dying ==> turn <= 1
      invariant dying && turn == 1 ==> host.faults == [Crash] && host.disk.txn == Without(d0.value, first)
      decreases host.disk.txn.Some?, if host.disk.txn.Some? then Size(host.disk.txn.value) else 0
    {
      var d := host.disk.txn.value;
      ghost var some := SomeRemovable(d);
      var piece :| Removable(d, piece) && (turn == 0 && Removable(d, first) ==> piece == first);
      Smaller(d, piece);
      status := host.Do(host.disk.(txn := Without(d, piece)));
      if !status.Done? {
        return;
      }
      turn := turn + 1;
    }
    status := Done;
  }

  // ---- Where a transaction stands on disk

  /** validateTransactionManifest: own project, sane roots, distinct targets inside the allowed roots and outside
      the transaction directory. */
  predicate ManifestAccepted(m: Manifest, project: Path) {
    && m.project == project && m.secrets != [] && m.allowed != [] && [] !in m.allowed
    && Distinct(m.entries)
    && forall i :: 0 <= i < |m.entries| ==> Allowed(project, m.allowed, m.entries[i].target)
  }

  predicate Allowed(project: Path, allowed: seq<Path>, p: Path) {
    !(project + [TRANSACTION_DIR] <= p) && exists r :: r in allowed && r <= p
  }

  /** The journal of a transaction that is to be undone. */
  predicate OpenJournal(d: ProjectDisk) {
    d.txn.Some? && d.txn.value.manifest.Some? && !d.txn.value.manifest.value.state.Committed?
  }

  /** Not committed: the tree is as before, but for what no log records, or the journal can take it back there. The
      paths in touch and the grants are those of the transaction that lies on disk. */
  ghost predicate Undoable(pre: Tree, touch: set<Path>, grants: set<Grant>, d: ProjectDisk) {
    if d.txn.None? || d.txn.value.manifest.None? then Faded(pre, touch, grants, d.tree)
    else Journaled(pre, touch, grants, d.tree, d.txn.value.manifest.value, d.txn.value.backups)
  }

  ghost predicate Journaled(pre: Tree, touch: set<Path>, grants: set<Grant>, t: Tree, m: Manifest,
      backups: map<nat, string>)
  {
    && !m.state.Committed? && GoodLog(pre, m.entries) && Touches(m.entries, touch)
    && Within(pre, grants, m.entries, t)
    && (Faded(pre, touch, grants, t) || BackupsKept(m.entries, backups))
  }

  /** Committed: the tree stays, whatever is left of the transaction directory. */
  ghost predicate Kept(after: Tree, d: ProjectDisk) {
    d.tree == after && (d.txn.None? || d.txn.value.manifest.None? || d.txn.value.manifest.value.state.Committed?)
  }

  /** The tree a finished recovery leaves: what an open journal gives back, otherwise what is there. */
  ghost function Regained(pre: Tree, process: Owner, d: ProjectDisk): Tree {
    if OpenJournal(d)
    then Final(pre, d.txn.value.backups, process, d.txn.value.manifest.value.entries, d.tree)
    else d.tree
  }

  /** Recovery can do its work: no journal, or an accepted one that is committed or can be undone in full. */
  ghost predicate Recoverable(d: ProjectDisk, project: Path, process: Owner) {
    d.txn.Some? && d.txn.value.manifest.Some? ==>
      var m := d.txn.value.manifest.value;
      && ManifestAccepted(m, project)
      && (m.state.Committed? || AllUsable(d.tree, d.txn.value.backups, process, m.entries))
  }

  ghost predicate JournalExact(pre: Tree, grants: set<Grant>, d: ProjectDisk, process: Owner)
    requires OpenJournal(d)
  {
    && BackupsKept(d.txn.value.manifest.value.entries, d.txn.value.backups)
    && Undistorted(pre, grants, d.txn.value.manifest.value.entries, process)
  }

  /** A recovery that goes through gives back the tree before the transaction, but for what no log records; exactly that
      tree when there was nothing of the kind. */
  lemma RegainedIsBefore(pre: Tree, touch: set<Path>, grants: set<Grant>, d: ProjectDisk, project: Path, process: Owner)
    requires Undoable(pre, touch, grants, d) && Recoverable(d, project, process)
    ensures Faded(pre, touch, grants, Regained(pre, process, d))
    ensures OpenJournal(d) && JournalExact(pre, grants, d, process) ==> Regained(pre, process, d) == pre
  {
    if OpenJournal(d) {
      var entries, backups := d.txn.value.manifest.value.entries, d.txn.value.backups;
      FinalFaded(pre, grants, entries, d.tree, backups, process, touch);
      if BackupsKept(entries, backups) && Undistorted(pre, grants, entries, process) {
        UndistortedFinal(pre, grants, entries, d.tree, backups, process);
      }
    }
  }

  /** A transaction directory that was lost in part leaves what it could be undone to. */
  lemma CleanupKeeps(pre: Tree, touch: set<Path>, grants: set<Grant>, d: ProjectDisk, txn: Option<TxnDir>)
    requires Undoable(pre, touch, grants, d) && Faded(pre, touch, grants, d.tree) && ManifestKept(d.txn, txn)
    ensures Undoable(pre, touch, grants, d.(txn := txn))
  {
  }

  lemma BackFaded(pre: Tree, touch: set<Path>, grants: set<Grant>, entries: seq<Entry>, t: Tree,
      backups: map<nat, string>, process: Owner)
    requires GoodLog(pre, entries) && Within(pre, grants, entries, t) && Touches(entries, touch)
    requires AllUsable(t, backups, process, entries)
    ensures var f := Final(pre, backups, process, entries, t);
      Faded(pre, touch, grants, f) && Within(pre, grants, entries, f)
  {
    FinalFaded(pre, grants, entries, t, backups, process, touch);
    RollbackRestores(pre, grants, entries, t, backups, process);
    RollbackWithin(pre, grants, entries, t, backups, process, entries);
  }

  /** A recovery that undoes its one entry, removes one piece of the transaction directory, and dies. */
  ghost predicate DiesCleaning(d: ProjectDisk, faults: seq<Fault>, project: Path, process: Owner, first: Piece) {
    && OpenJournal(d) && ManifestAccepted(d.txn.value.manifest.value, project) && GoesFirst(d.txn, first)
    && OneStepLeft(faults, d.tree, d.txn.value.backups, process, d.txn.value.manifest.value.entries)
  }

  /** RecoverProjectTransaction, possibly interrupted. */
  method RecoverProjectTransaction(host: ProjectHost, project: Path, process: Owner, first: Piece, ghost pre: Tree,
      ghost touch: set<Path>, ghost grants: set<Grant>, ghost after: Tree)
    returns (status: Status)
    requires Undoable(pre, touch, grants, host.disk) || Kept(after, host.disk)
    modifies host
    ensures old(Kept(after, host.disk)) ==> Kept(after, host.disk)
    ensures old(Undoable(pre, touch, grants, host.disk)) ==> Undoable(pre, touch, grants, host.disk)
    ensures status.Done? ==> host.disk == ProjectDisk(old(Regained(pre, process, host.disk)), None)
    ensures status.Done? ==> old(Recoverable(host.disk, project, process))
    ensures old(host.faults) == [] ==> host.faults == []
    ensures old(host.faults) == [] ==> (status.Done? <==> old(Recoverable(host.disk, project, process)))
    ensures old(host.faults) == [] && !status.Done? ==> host.disk.txn == old(host.disk.txn)
    ensures old(DiesCleaning(host.disk, host.faults, project, process, first)) ==>
      status.Crashed? && host.disk.txn == Without(old(host.disk.txn).value, first)
  {
    if host.disk.txn.None? {
      return Done;
    }
    var manifest := host.disk.txn.value.manifest;
    if manifest.Some? {
      if !ManifestAccepted(manifest.value, project) {
        return Failed;
      }
      if !manifest.value.state.Committed? {
        ghost var entries, backups, t := manifest.value.entries, host.disk.txn.value.backups, host.disk.tree;
        RollbackRestores(pre, grants, entries, t, backups, process);
        status := RollbackTransaction(host, manifest.value.entries, process, pre, touch, grants);
        if !status.Done? {
          return;
        }
        BackFaded(pre, touch, grants, entries, t, backups, process);
      }
    }
    status := RemoveTransactionDir(host, first);
  }

  // ---- GenerateProjectTransactional

  /** Item i is a file whose directory is p. */
  predicate HousesItem(item: Item, p: Path) {
    !item.dir && item.target != [] && Parent(item.target) == p
  }

  predicate HousesFile(items: seq<Item>, p: Path) {
    exists i :: 0 <= i < |items| && HousesItem(items[i], p)
  }

  /** What became of a place that is not generated: a directory of generated files loses its special mode bits, a volume
      may have been given away, everything else is as before. */
  predicate Spared(pre: Tree, grants: set<Grant>, items: seq<Item>, after: Tree, p: Path) {
    && (p in after <==> p in pre)
    && (p in pre ==>
         && after[p] == pre[p].(mode := after[p].mode, owner := after[p].owner)
         && OwnerKept(pre[p], after[p], p, grants)
         && after[p].mode == if HousesFile(items, p) && pre[p].Dir? then Perm(pre[p].mode) else pre[p].mode)
  }

  /** The project after a commit: every item in place with its content and mode. */
  ghost predicate Built(pre: Tree, secrets: Path, repaired: set<Path>, grants: set<Grant>, items: seq<Item>,
      after: Tree)
  {
    && Tidy(after)
    && (forall i :: 0 <= i < |items| ==> InPlace(after, secrets, repaired, items[i]))
    && (forall p :: (forall i :: 0 <= i < |items| ==> items[i].target != p) ==> Spared(pre, grants, items, after, p))
  }

  predicate InPlace(t: Tree, secrets: Path, repaired: set<Path>, item: Item) {
    && item.target in t && t[item.target].Dir? == item.dir
    && (if item.dir then t[item.target].mode == if UnderSecrets(secrets, item.target) then 0x1C0 else Perm(item.mode)
        else t[item.target].bytes == item.bytes
             && t[item.target].mode == if item.target in repaired then 0x180 else Perm(item.mode))
  }

  lemma TargetsAgree(pre: Tree, secrets: Path, items: seq<Item>, entries: seq<Entry>, p: Path)
    requires LogFor(pre, secrets, items, entries)
    ensures IsTarget(entries, p) <==> exists i :: 0 <= i < |items| && items[i].target == p
    ensures IsFileParent(entries, p) <==> HousesFile(items, p)
  {
    if IsTarget(entries, p) {
      var k :| 0 <= k < |entries| && entries[k].target == p;
      assert FromItem(pre, secrets, items, entries[k]);
    }
    if IsFileParent(entries, p) {
      var k :| 0 <= k < |entries| && HoldsFile(entries[k], p);
      assert FromItem(pre, secrets, items, entries[k]);
      var i :| 0 <= i < |items| && Describes(pre, secrets, items, i, entries[k]);
      assert HousesItem(items[i], p);
    }
    forall i | 0 <= i < |items|
      ensures IsTarget(entries, items[i].target)
      ensures HousesItem(items[i], p) ==> IsFileParent(entries, p)
    {
      assert HasEntry(pre, secrets, items, i, entries);
      var k :| 0 <= k < |entries| && Describes(pre, secrets, items, i, entries[k]);
      assert HousesItem(items[i], p) ==> HoldsFile(entries[k], p);
    }
  }

  lemma ItemInPlace(pre: Tree, secrets: Path, repaired: set<Path>, process: Owner, items: seq<Item>,
      entries: seq<Entry>, t: Tree, i: nat)
    requires LogFor(pre, secrets, items, entries) && i < |items|
    requires AppliedTo(t, process, repaired, entries, |entries|)
    ensures InPlace(t, secrets, repaired, items[i])
  {
    assert HasEntry(pre, secrets, items, i, entries);
    var k :| 0 <= k < |entries| && Describes(pre, secrets, items, i, entries[k]);
    assert AppliedAt(t, process, repaired, entries[k]);
    PermTwice(items[i].mode);
  }

  lemma ParentsPlain(process: Owner, repaired: set<Path>, entries: seq<Entry>, t: Tree, q: Path)
    requires AppliedTo(t, process, repaired, entries, |entries|) && IsFileParent(entries, q)
    ensures q in t && t[q].mode < 0x200
  {
    var k :| 0 <= k < |entries| && HoldsFile(entries[k], q);
    assert AppliedAt(t, process, repaired, entries[k]);
  }

  lemma AppliedIsBuilt(pre: Tree, secrets: Path, repaired: set<Path>, grants: set<Grant>, process: Owner,
      items: seq<Item>, entries: seq<Entry>, t: Tree)
    requires LogFor(pre, secrets, items, entries) && Within(pre, grants, entries, t)
    requires AppliedTo(t, process, repaired, entries, |entries|)
    ensures Built(pre, secrets, repaired, grants, items, t)
  {
    forall i | 0 <= i < |items|
      ensures InPlace(t, secrets, repaired, items[i])
    {
      ItemInPlace(pre, secrets, repaired, process, items, entries, t, i);
    }
    forall p | forall i :: 0 <= i < |items| ==> items[i].target != p
      ensures Spared(pre, grants, items, t, p)
    {
      TargetsAgree(pre, secrets, items, entries, p);
      assert Outside(pre, grants, entries, t, p);
      if p in pre {
        PlainMode(pre[p].mode);
        if HousesFile(items, p) { ParentsPlain(process, repaired, entries, t, p); }
      }
    }
  }

  /** What the journal of this transaction will be checked for. */
  ghost predicate Journalable(project: Path, secrets: Path, allowed: seq<Path>, items: seq<Item>) {
    && secrets != [] && allowed != [] && [] !in allowed
    && forall i :: 0 <= i < |items| ==> Allowed(project, allowed, items[i].target)
  }

  lemma JournalAccepted(pre: Tree, project: Path, secrets: Path, allowed: seq<Path>, items: seq<Item>,
      entries: seq<Entry>, state: State)
    requires LogFor(pre, secrets, items, entries)
    ensures ManifestAccepted(Manifest(state, project, secrets, allowed, entries), project)
      <==> Journalable(project, secrets, allowed, items)
  {
    forall k | 0 <= k < |entries|
      ensures exists i :: 0 <= i < |items| && items[i].target == entries[k].target
    {
      assert FromItem(pre, secrets, items, entries[k]);
    }
    forall i | 0 <= i < |items|
      ensures exists k :: 0 <= k < |entries| && entries[k].target == items[i].target
    {
      assert HasEntry(pre, secrets, items, i, entries);
    }
    assert GoodLog(pre, entries);
  }

  function StageOf(items: seq<Item>): map<nat, string> {
    map i: nat | 0 <= i < |items| && !items[i].dir :: items[i].bytes
  }

  lemma StageMatches(pre: Tree, secrets: Path, items: seq<Item>, entries: seq<Entry>)
    requires LogFor(pre, secrets, items, entries)
    ensures StageRight(StageOf(items), entries)
  {
    forall k | 0 <= k < |entries| && entries[k].FileEntry?
      ensures StagedRight(StageOf(items), entries[k])
    {
      assert FromItem(pre, secrets, items, entries[k]);
    }
  }

  /** What a transaction may leave changed: the generated paths and the directories of generated files. */
  function Touched(items: seq<Item>): set<Path> {
    (set i | 0 <= i < |items| :: items[i].target)
    + (set i | 0 <= i < |items| && !items[i].dir && items[i].target != [] :: Parent(items[i].target))
  }

  lemma LogTouches(pre: Tree, secrets: Path, items: seq<Item>, entries: seq<Entry>)
    requires LogFor(pre, secrets, items, entries)
    ensures Touches(entries, Touched(items))
  {
    forall p | IsTarget(entries, p) || IsFileParent(entries, p)
      ensures p in Touched(items)
    {
      TargetsAgree(pre, secrets, items, entries, p);
      if HousesFile(items, p) {
        var i :| 0 <= i < |items| && HousesItem(items[i], p);
        assert p == Parent(items[i].target);
      }
    }
  }

  // ---- Conditions on the items and the tree before

  predicate IsItem(items: seq<Item>, p: Path) {
    exists i :: 0 <= i < |items| && items[i].target == p
  }

  predicate IsFileItem(items: seq<Item>, p: Path) {
    exists i :: 0 <= i < |items| && items[i].target == p && !items[i].dir
  }

  /** Nothing is there that the log of these items does not record. */
  ghost predicate UndistortedBefore(pre: Tree, grants: set<Grant>, items: seq<Item>, process: Owner) {
    && (forall p :: p in pre && (IsItem(items, p) || (HousesFile(items, p) && pre[p].Dir?)) ==> pre[p].mode < 0x200)
    && (IsRoot(process) || forall p :: p in pre && IsItem(items, p) ==> OwnTarget(pre[p], process))
    && GrantsHeld(pre, grants)
  }

  lemma UndistortedAgree(pre: Tree, grants: set<Grant>, secrets: Path, items: seq<Item>, entries: seq<Entry>,
      process: Owner)
    requires LogFor(pre, secrets, items, entries)
    ensures Undistorted(pre, grants, entries, process) <==> UndistortedBefore(pre, grants, items, process)
  {
    forall p
      ensures IsTarget(entries, p) <==> IsItem(items, p)
      ensures IsFileParent(entries, p) <==> HousesFile(items, p)
    {
      TargetsAgree(pre, secrets, items, entries, p);
    }
  }

  /** The log of a run gives back exactly what was there, from every stop, if and only if the tree before, the items,
      the volumes and the process are such that nothing unrecorded can get lost. */
  lemma RollbackExactIff(pre: Tree, grants: set<Grant>, secrets: Path, items: seq<Item>, entries: seq<Entry>,
      backups: map<nat, string>, process: Owner)
    requires LogFor(pre, secrets, items, entries) && BackupsKept(entries, backups)
    ensures (forall t :: Within(pre, grants, entries, t) ==> ExactAt(pre, entries, t, backups, process))
      <==> UndistortedBefore(pre, grants, items, process)
  {
    ExactFromEveryStop(pre, grants, entries, backups, process);
    UndistortedAgree(pre, grants, secrets, items, entries, process);
  }

  /** The process may change the directories among the items that exist. */
  ghost predicate DirsMine(pre: Tree, items: seq<Item>, process: Owner) {
    forall i :: 0 <= i < |items| && items[i].dir && items[i].target in pre ==> MayChmod(pre[items[i].target], process)
  }

  /** The process may change the directories that generated files go to, and none of these is the filesystem root. */
  ghost predicate HomesMine(pre: Tree, items: seq<Item>, process: Owner) {
    forall i :: 0 <= i < |items| && !items[i].dir ==> HomeMine(pre, items[i].target, process)
  }

  predicate HomeMine(pre: Tree, target: Path, process: Owner) {
    |target| >= 2 && (Parent(target) in pre ==> MayChmod(pre[Parent(target)], process))
  }

  lemma PromotableAgree(pre: Tree, secrets: Path, items: seq<Item>, entries: seq<Entry>, process: Owner)
    requires LogFor(pre, secrets, items, entries)
    ensures Promotable(pre, entries, process) <==> DirsMine(pre, items, process) && HomesMine(pre, items, process)
  {
    forall k | 0 <= k < |entries|
      ensures DirsMine(pre, items, process) && HomesMine(pre, items, process) ==> PromotableAt(pre, entries[k], process)
    {
      assert FromItem(pre, secrets, items, entries[k]);
    }
    if Promotable(pre, entries, process) {
      forall i | 0 <= i < |items|
        ensures items[i].dir && items[i].target in pre ==> MayChmod(pre[items[i].target], process)
        ensures !items[i].dir ==> HomeMine(pre, items[i].target, process)
      {
        assert HasEntry(pre, secrets, items, i, entries);
        var k :| 0 <= k < |entries| && Describes(pre, secrets, items, i, entries[k]);
        assert PromotableAt(pre, entries[k], process);
      }
    }
  }

  /** Whether the rollback of this log can be complete: only directories of another owner are in the way. */
  lemma UsableAgree(pre: Tree, grants: set<Grant>, secrets: Path, items: seq<Item>, entries: seq<Entry>, t: Tree,
      backups: map<nat, string>, process: Owner)
    requires LogFor(pre, secrets, items, entries) && Within(pre, grants, entries, t) && BackupsKept(entries, backups)
    requires grants == {} || IsRoot(process)
    ensures AllUsable(t, backups, process, entries) <==> DirsMine(pre, items, process)
  {
    forall k | 0 <= k < |entries| && entries[k].DirEntry? && entries[k].existed
      ensures entries[k].target in pre && entries[k].target in t
      ensures MayChmod(t[entries[k].target], process) <==> MayChmod(pre[entries[k].target], process)
    {
      assert Recorded(pre, entries[k]) && Plausible(pre, grants, t, entries[k]);
    }
    if DirsMine(pre, items, process) {
      forall k | 0 <= k < |entries|
        ensures Usable(t, backups, process, entries[k])
      {
        assert FromItem(pre, secrets, items, entries[k]);
      }
    }
    if AllUsable(t, backups, process, entries) {
      forall i | 0 <= i < |items| && items[i].dir && items[i].target in pre
        ensures MayChmod(pre[items[i].target], process)
      {
        assert HasEntry(pre, secrets, items, i, entries);
        var k :| 0 <= k < |entries| && Describes(pre, secrets, items, i, entries[k]);
        assert Usable(t, backups, process, entries[k]);
      }
    }
  }

  /** Every managed file that is repaired and present is among the generated ones: existing ones are staged again. */
  ghost predicate RepairsStaged(pre: Tree, items: seq<Item>, repairs: seq<Path>) {
    forall r :: r in repairs ==> IsItem(items, r) || !(r in pre && pre[r].File?)
  }

  lemma RepairsAgree(pre: Tree, secrets: Path, items: seq<Item>, entries: seq<Entry>, repairs: seq<Path>)
    requires LogFor(pre, secrets, items, entries) && RepairsStaged(pre, items, repairs)
    ensures Repairable(pre, entries, repairs)
  {
    forall r | r in repairs
      ensures IsTarget(entries, r) || !(r in pre && pre[r].File?)
    {
      TargetsAgree(pre, secrets, items, entries, r);
    }
  }

  /** After an apply exactly the generated files among the repaired are there. */
  lemma RepairsThere(pre: Tree, secrets: Path, items: seq<Item>, entries: seq<Entry>, process: Owner, t: Tree,
      repairs: seq<Path>, r: Path)
    requires LogFor(pre, secrets, items, entries) && Within(pre, {}, entries, t) && RepairsStaged(pre, items, repairs)
    requires AppliedTo(t, process, {}, entries, |entries|) && r in repairs
    ensures r in t && t[r].File? <==> IsFileItem(items, r)
  {
    TargetsAgree(pre, secrets, items, entries, r);
    if IsItem(items, r) {
      var i :| 0 <= i < |items| && items[i].target == r;
      assert HasEntry(pre, secrets, items, i, entries);
      var k :| 0 <= k < |entries| && Describes(pre, secrets, items, i, entries[k]);
      assert AppliedAt(t, process, {}, entries[k]);
      forall j | 0 <= j < |items| && items[j].target == r
        ensures items[j].dir == items[i].dir
      {
        assert HasEntry(pre, secrets, items, j, entries);
        var l :| 0 <= l < |entries| && Describes(pre, secrets, items, j, entries[l]);
        assert k == l;
      }
    } else {
      assert Outside(pre, {}, entries, t, r);
    }
  }

  /** What is left of the tree before when everything was applied and rolled back: generated paths and the
      directories of generated files without special mode bits, and generated files that are the process's own unless
      it is root. */
  ghost function Stripped(pre: Tree, items: seq<Item>, process: Owner): Tree {
    map p | p in pre :: StrippedNode(pre[p], IsItem(items, p), HousesFile(items, p), process)
  }

  function StrippedNode(n: Node, item: bool, houses: bool, process: Owner): Node {
    n.(mode := if item || (houses && n.Dir?) then Perm(n.mode) else n.mode,
       owner := if item && n.File? && !IsRoot(process) then process else n.owner)
  }

  /** The directories of all files have lost their special bits. */
  ghost predicate HomesPlain(entries: seq<Entry>, t: Tree) {
    forall q :: IsFileParent(entries, q) ==> q in t && t[q].mode < 0x200
  }

  lemma StrippedTarget(pre: Tree, secrets: Path, items: seq<Item>, entries: seq<Entry>, t: Tree,
      backups: map<nat, string>, process: Owner, p: Path)
    requires LogFor(pre, secrets, items, entries) && Within(pre, {}, entries, t) && HomesPlain(entries, t)
    requires AllUsable(t, backups, process, entries) && p in pre && IsTarget(entries, p)
    ensures var f := Final(pre, backups, process, entries, t);
      p in f && f[p] == StrippedNode(pre[p], true, HousesFile(items, p), process)
  {
    var k :| 0 <= k < |entries| && entries[k].target == p;
    assert Recorded(pre, entries[k]) && Plausible(pre, {}, t, entries[k]);
    FinalAt(pre, backups, process, entries, t, k);
    assert entries[k].FileEntry? ==> HoldsFile(entries[k], Parent(p));
    assert entries[k].FileEntry? ==> IsFileParent(entries, Parent(p));
    if entries[k].FileEntry? { PlainMode(t[Parent(p)].mode); }
  }

  lemma StrippedFinal(pre: Tree, secrets: Path, items: seq<Item>, entries: seq<Entry>, t: Tree,
      backups: map<nat, string>, process: Owner)
    requires LogFor(pre, secrets, items, entries) && Within(pre, {}, entries, t) && HomesPlain(entries, t)
    requires AllUsable(t, backups, process, entries)
    ensures Final(pre, backups, process, entries, t) == Stripped(pre, items, process)
  {
    var f := Final(pre, backups, process, entries, t);
    forall p | p in pre
      ensures p in f && f[p] == Stripped(pre, items, process)[p]
    {
      TargetsAgree(pre, secrets, items, entries, p);
      if IsTarget(entries, p) {
        StrippedTarget(pre, secrets, items, entries, t, backups, process, p);
      } else {
        assert Outside(pre, {}, entries, t, p);
        PlainMode(pre[p].mode);
        assert HousesFile(items, p) ==> t[p].mode < 0x200;
      }
    }
  }

  /** It is the tree before exactly when nothing unrecorded was there. */
  lemma StrippedExactIff(pre: Tree, items: seq<Item>, process: Owner)
    requires DirsMine(pre, items, process) && forall i :: 0 <= i < |items| ==> Fits(pre, items[i])
    ensures Stripped(pre, items, process) == pre <==> UndistortedBefore(pre, {}, items, process)
  {
    forall p | p in pre
      ensures Stripped(pre, items, process)[p] == pre[p]
        <==> (IsItem(items, p) || (HousesFile(items, p) && pre[p].Dir?) ==> pre[p].mode < 0x200)
             && (IsRoot(process) || (IsItem(items, p) ==> OwnTarget(pre[p], process)))
    {
      PlainMode(pre[p].mode);
      if IsItem(items, p) {
        var i :| 0 <= i < |items| && items[i].target == p;
        assert Fits(pre, items[i]);
      }
    }
    if Stripped(pre, items, process) == pre {
      forall p | p in pre
        ensures IsItem(items, p) || (HousesFile(items, p) && pre[p].Dir?) ==> pre[p].mode < 0x200
        ensures IsRoot(process) || (IsItem(items, p) ==> OwnTarget(pre[p], process))
      {
        assert Stripped(pre, items, process)[p] == pre[p];
      }
    }
  }

  // ---- The run

  /** Staging, backups and the prepared and promoting manifests: no destination changes. */
  method Journal(host: ProjectHost, project: Path, secrets: Path, allowed: seq<Path>, items: seq<Item>, ghost pre: Tree)
    returns (status: Status, manifest: Manifest)
    requires Tidy(pre) && host.disk == ProjectDisk(pre, Some(TxnDir(map[], map[], None)))
    modifies host
    ensures Undoable(pre, Touched(items), {}, host.disk) && host.disk.tree == pre && host.disk.txn.Some?
    ensures status.Done? ==> manifest == Manifest(Promoting, project, secrets, allowed, manifest.entries)
    ensures status.Done? ==>
      host.disk.txn.value.manifest == Some(manifest) && host.disk.txn.value.stage == StageOf(items)
    ensures status.Done? ==>
      LogFor(pre, secrets, items, manifest.entries) && BackupsKept(manifest.entries, host.disk.txn.value.backups)
    ensures status.Done? ==> Preparable(pre, items) && Journalable(project, secrets, allowed, items)
    ensures old(host.faults) == [] ==> host.faults == [] && !status.Crashed?
    ensures old(host.faults) == [] ==>
      (status.Done? <==> Preparable(pre, items) && Journalable(project, secrets, allowed, items))
  {
    FadedItself(pre, Touched(items), {});
    manifest := Manifest(Prepared, project, secrets, allowed, []);
    status := host.Do(host.disk.(txn := Some(TxnDir(StageOf(items), map[], None))));
    if !status.Done? {
      return;
    }
    status := host.Do(host.disk);  // ValidateStage
    if !status.Done? {
      return;
    }
    var entries;
    status, entries := PrepareTransactionEntries(host, items, secrets);
    if !status.Done? {
      return;
    }
    manifest := manifest.(entries := entries);
    JournalAccepted(pre, project, secrets, allowed, items, entries, Prepared);
    if !ManifestAccepted(manifest, project) {
      return Failed, manifest;
    }
    BeforeIsWithin(pre, {}, entries);
    LogTouches(pre, secrets, items, entries);
    status := host.Do(host.disk.(txn := Some(host.disk.txn.value.(manifest := Some(manifest)))));
    if !status.Done? {
      return;
    }
    manifest := manifest.(state := Promoting);
    status := host.Do(host.disk.(txn := Some(host.disk.txn.value.(manifest := Some(manifest)))));
  }

  /** Who runs the transaction, and what is prepared behind the apply: managed files repaired for their owner, and
      volumes to be given away. */
  datatype Job = Job(process: Owner, repairs: seq<Path>, managed: Owner, volumes: seq<Grant>)

  /** The directories the job may give away. */
  function Grants(job: Job): set<Grant> {
    Granted(job.process, job.volumes)
  }

  ghost predicate AllRepairable(items: seq<Item>, repairs: seq<Path>) {
    forall r :: r in repairs ==> IsFileItem(items, r)
  }

  /** Nothing is there that the log of this job does not record. */
  ghost predicate NothingLost(pre: Tree, items: seq<Item>, job: Job) {
    UndistortedBefore(pre, Grants(job), items, job.process)
  }

  /** An undisturbed promotion goes through. */
  ghost predicate Promoted(pre: Tree, items: seq<Item>, job: Job) {
    && DirsMine(pre, items, job.process) && HomesMine(pre, items, job.process)
    && AllRepairable(items, job.repairs)
  }

  /** Apply, then the owners and modes of managed files, then the owners of volumes. */
  method Establish(host: ProjectHost, manifest: Manifest, job: Job, ghost pre: Tree, ghost items: seq<Item>)
    returns (status: Status)
    requires LogFor(pre, manifest.secrets, items, manifest.entries) && Rooted(pre, items)
    requires RepairsStaged(pre, items, job.repairs) && host.disk.txn.Some? && host.disk.tree == pre
    modifies host
    ensures host.disk.txn == old(host.disk.txn)
    ensures Within(pre, Grants(job), manifest.entries, host.disk.tree)
    ensures status.Done? ==>
      Built(pre, manifest.secrets, SetOf(job.repairs), Grants(job), items, host.disk.tree)
    ensures old(host.faults) == [] ==> host.faults == [] && !status.Crashed?
    ensures old(host.faults) == [] && host.disk.txn.value.stage == StageOf(items) ==>
      (status.Done? <==> Promoted(pre, items, job))
    ensures old(host.faults) == [] && host.disk.txn.value.stage == StageOf(items) ==>
      !status.Done? && DirsMine(pre, items, job.process) && HomesMine(pre, items, job.process) ==>
        Within(pre, {}, manifest.entries, host.disk.tree) && HomesPlain(manifest.entries, host.disk.tree)
  {
    ghost var entries, grants := manifest.entries, Grants(job);
    StageMatches(pre, manifest.secrets, items, entries);
    PromotableAgree(pre, manifest.secrets, items, entries, job.process);
    RepairsAgree(pre, manifest.secrets, items, entries, job.repairs);
    status := ApplyTransaction(host, manifest.entries, job.process, pre, manifest.secrets, items);
    WithinMore(pre, {}, grants, entries, host.disk.tree);
    if !status.Done? {
      return;
    }
    forall r | r in job.repairs
      ensures r in host.disk.tree && host.disk.tree[r].File? <==> IsFileItem(items, r)
    {
      RepairsThere(pre, manifest.secrets, items, entries, job.process, host.disk.tree, job.repairs, r);
    }
    forall q | IsFileParent(entries, q)
      ensures q in host.disk.tree && host.disk.tree[q].mode < 0x200 && host.disk.tree[q].Dir?
    {
      HomeApplied(job.process, entries, host.disk.tree, q);
    }
    status := RepairFiles(host, job.repairs, job.managed, job.process, pre, entries);
    WithinMore(pre, {}, grants, entries, host.disk.tree);
    if !status.Done? {
      return;
    }
    status := GrantVolumes(host, job.volumes, job.process, pre, entries, SetOf(job.repairs));
    if status.Done? {
      AppliedIsBuilt(pre, manifest.secrets, SetOf(job.repairs), grants, job.process, items, entries, host.disk.tree);
    }
  }

  lemma HomeApplied(process: Owner, entries: seq<Entry>, t: Tree, q: Path)
    requires AppliedTo(t, process, {}, entries, |entries|) && IsFileParent(entries, q)
    ensures q in t && t[q].mode < 0x200 && t[q].Dir?
  {
    var k :| 0 <= k < |entries| && HoldsFile(entries[k], q);
    assert AppliedAt(t, process, {}, entries[k]);
  }

  /** A failure behind the journal rolls back. keep: the transaction directory must stay for a later recovery. */
  method Promote(host: ProjectHost, manifest: Manifest, job: Job, ghost pre: Tree, ghost items: seq<Item>)
    returns (status: Status, keep: bool)
    requires LogFor(pre, manifest.secrets, items, manifest.entries) && Rooted(pre, items)
    requires RepairsStaged(pre, items, job.repairs)
    requires host.disk.txn.Some? && host.disk.tree == pre && BackupsKept(manifest.entries, host.disk.txn.value.backups)
    modifies host
    ensures host.disk.txn == old(host.disk.txn)
    ensures Within(pre, Grants(job), manifest.entries, host.disk.tree)
    ensures status.Done? ==> !keep
    ensures status.Done? ==>
      Built(pre, manifest.secrets, SetOf(job.repairs), Grants(job), items, host.disk.tree)
    ensures status.Failed? && !keep ==>
      Faded(pre, Touched(items), Grants(job), host.disk.tree)
    ensures status.Failed? && !keep && NothingLost(pre, items, job) ==>
      host.disk.tree == pre
    ensures old(host.faults) == [] ==> host.faults == [] && !status.Crashed?
    ensures old(host.faults) == [] && host.disk.txn.value.stage == StageOf(items) ==>
      (status.Done? <==> Promoted(pre, items, job))
    ensures old(host.faults) == [] && status.Failed? ==> (keep <==> !DirsMine(pre, items, job.process))
    ensures AllUsable(host.disk.tree, host.disk.txn.value.backups, job.process, manifest.entries)
      <==> DirsMine(pre, items, job.process)
    ensures old(host.faults) == [] && host.disk.txn.value.stage == StageOf(items) && status.Failed? ==>
      DirsMine(pre, items, job.process) && HomesMine(pre, items, job.process) ==>
        host.disk.tree == Stripped(pre, items, job.process)
  {
    keep := false;
    ghost var grants, backups := Grants(job), host.disk.txn.value.backups;
    status := Establish(host, manifest, job, pre, items);
    if status.Failed? {
      ghost var t := host.disk.tree;
      LogTouches(pre, manifest.secrets, items, manifest.entries);
      UndoMeans(pre, grants, manifest.secrets, items, manifest.entries, t, backups, job.process);
      if AllUsable(t, backups, job.process, manifest.entries) && Within(pre, {}, manifest.entries, t)
         && HomesPlain(manifest.entries, t) {
        StrippedFinal(pre, manifest.secrets, items, manifest.entries, t, backups, job.process);
      }
      var rollback := RollbackTransaction(host, manifest.entries, job.process, pre, Touched(items), grants);
      keep := !rollback.Done?;
      if rollback.Crashed? {
        status := Crashed;
      }
    }
    UsableAgree(pre, grants, manifest.secrets, items, manifest.entries, host.disk.tree, backups, job.process);
  }

  /** What a rollback from t comes to, in terms of the items. */
  lemma UndoMeans(pre: Tree, grants: set<Grant>, secrets: Path, items: seq<Item>, entries: seq<Entry>, t: Tree,
      backups: map<nat, string>, process: Owner)
    requires LogFor(pre, secrets, items, entries) && Within(pre, grants, entries, t) && BackupsKept(entries, backups)
    requires grants == {} || IsRoot(process)
    ensures var f := Final(pre, backups, process, entries, t);
      && (AllUsable(t, backups, process, entries) <==> DirsMine(pre, items, process))
      && (AllUsable(t, backups, process, entries) ==> Faded(pre, Touched(items), grants, f))
      && (UndistortedBefore(pre, grants, items, process) ==> f == pre)
      && Rollback(t, backups, process, entries) == Outcome(f, AllUsable(t, backups, process, entries))
  {
    LogTouches(pre, secrets, items, entries);
    UsableAgree(pre, grants, secrets, items, entries, t, backups, process);
    UndistortedAgree(pre, grants, secrets, items, entries, process);
    RollbackRestores(pre, grants, entries, t, backups, process);
    if AllUsable(t, backups, process, entries) {
      FinalFaded(pre, grants, entries, t, backups, process, Touched(items));
    }
    if Undistorted(pre, grants, entries, process) {
      UndistortedFinal(pre, grants, entries, t, backups, process);
    }
  }

  /** The committed manifest decides. */
  method PromoteAndCommit(host: ProjectHost, manifest: Manifest, job: Job, ghost pre: Tree, ghost items: seq<Item>)
    returns (status: Status, keep: bool, ghost after: Tree)
    requires LogFor(pre, manifest.secrets, items, manifest.entries) && Rooted(pre, items) && manifest.state.Promoting?
    requires RepairsStaged(pre, items, job.repairs)
    requires host.disk.txn.Some? && host.disk.txn.value.manifest == Some(manifest) && host.disk.tree == pre
    requires BackupsKept(manifest.entries, host.disk.txn.value.backups)
    modifies host
    ensures Undoable(pre, Touched(items), Grants(job), host.disk)
      || (Kept(after, host.disk)
          && Built(pre, manifest.secrets, SetOf(job.repairs), Grants(job), items, after))
    ensures status.Done? ==> !keep && Kept(after, host.disk)
    ensures status.Done? ==>
      Built(pre, manifest.secrets, SetOf(job.repairs), Grants(job), items, after)
    ensures status.Failed? && !keep ==>
      && Undoable(pre, Touched(items), Grants(job), host.disk)
      && Faded(pre, Touched(items), Grants(job), host.disk.tree)
    ensures status.Failed? && !keep && NothingLost(pre, items, job) ==>
      host.disk.tree == pre
    ensures old(host.faults) == [] ==> host.faults == [] && !status.Crashed?
    ensures old(host.faults) == [] && old(host.disk.txn.value.stage) == StageOf(items) ==>
      (status.Done? <==> Promoted(pre, items, job))
    ensures old(host.faults) == [] && status.Failed? ==> (keep <==> !DirsMine(pre, items, job.process))
    ensures old(host.faults) == [] && status.Failed? && keep ==>
      host.disk.txn == old(host.disk.txn)
      && !AllUsable(host.disk.tree, host.disk.txn.value.backups, job.process, manifest.entries)
    ensures old(host.faults) == [] && old(host.disk.txn.value.stage) == StageOf(items) && status.Failed? ==>
      DirsMine(pre, items, job.process) && HomesMine(pre, items, job.process) ==>
        host.disk.tree == Stripped(pre, items, job.process)
  {
    after := pre;
    LogTouches(pre, manifest.secrets, items, manifest.entries);
    status, keep := Promote(host, manifest, job, pre, items);
    if !status.Done? {
      return;
    }
    after := host.disk.tree;
    var committed := manifest.(state := Committed);
    status := host.Do(host.disk.(txn := Some(host.disk.txn.value.(manifest := Some(committed)))));
    keep := !status.Done?;
  }

  /** Everything an undisturbed run needs to go through. */
  ghost predicate Generatable(pre: Tree, project: Path, secrets: Path, allowed: seq<Path>, items: seq<Item>, job: Job) {
    && Preparable(pre, items) && Journalable(project, secrets, allowed, items)
    && Promoted(pre, items, job)
  }

  /** What an undisturbed run needs to get as far as a complete apply. */
  ghost predicate LateFailure(pre: Tree, project: Path, secrets: Path, allowed: seq<Path>, items: seq<Item>,
      process: Owner)
  {
    && Preparable(pre, items) && Journalable(project, secrets, allowed, items)
    && DirsMine(pre, items, process) && HomesMine(pre, items, process)
  }

  /** Behind the recovery: journal, promote, commit, clean up. */
  method Transact(host: ProjectHost, project: Path, secrets: Path, allowed: seq<Path>, items: seq<Item>, job: Job,
      first: Piece, ghost base: Tree)
    returns (status: Status, ghost after: Tree)
    requires Tidy(base) && Rooted(base, items) && RepairsStaged(base, items, job.repairs)
    requires host.disk == ProjectDisk(base, Some(TxnDir(map[], map[], None)))
    modifies host
    ensures Undoable(base, Touched(items), Grants(job), host.disk)
      || (Kept(after, host.disk)
          && Built(base, secrets, SetOf(job.repairs), Grants(job), items, after))
    ensures status.Done? ==> Kept(after, host.disk)
    ensures status.Done? ==>
      Built(base, secrets, SetOf(job.repairs), Grants(job), items, after)
    ensures old(host.faults) == [] ==> (status.Done? <==> Generatable(base, project, secrets, allowed, items, job))
    ensures old(host.faults) == [] && (status.Done? || DirsMine(base, items, job.process)) ==> host.disk.txn.None?
    ensures old(host.faults) == [] && !status.Done? && DirsMine(base, items, job.process) ==>
      Faded(base, Touched(items), Grants(job), host.disk.tree)
    ensures old(host.faults) == [] && !status.Done? && NothingLost(base, items, job) ==>
      host.disk == ProjectDisk(base, None)
    ensures old(host.faults) == [] && !status.Done? ==>
      (LateFailure(base, project, secrets, allowed, items, job.process) ==>
        host.disk == ProjectDisk(Stripped(base, items, job.process), None))
    ensures old(host.faults) == [] && Preparable(base, items) && Journalable(project, secrets, allowed, items) ==>
      (!DirsMine(base, items, job.process) ==> OpenJournal(host.disk) && !Recoverable(host.disk, project, job.process))
  {
    after := base;
    ghost var touch, grants := Touched(items), Grants(job);
    FadedItself(base, touch, grants);
    UndistortedDirs(base, grants, items, job.process);
    var manifest, keep := Manifest(Prepared, project, secrets, allowed, []), false;
    status, manifest := Journal(host, project, secrets, allowed, items, base);
    UndoableMore(base, touch, grants, host.disk);
    if status.Done? {
      status, keep, after := PromoteAndCommit(host, manifest, job, base, items);
    }
    if !status.Crashed? && !keep {
      ghost var d := host.disk;
      var cleanup := RemoveTransactionDir(host, first);
      if Undoable(base, touch, grants, d) && Faded(base, touch, grants, d.tree) {
        CleanupKeeps(base, touch, grants, d, host.disk.txn);
      }
    }
  }

  lemma UndistortedDirs(pre: Tree, grants: set<Grant>, items: seq<Item>, process: Owner)
    ensures UndistortedBefore(pre, grants, items, process) && (forall i :: 0 <= i < |items| ==> Fits(pre, items[i])) ==>
      DirsMine(pre, items, process)
  {
    if UndistortedBefore(pre, grants, items, process) && forall i :: 0 <= i < |items| ==> Fits(pre, items[i]) {
      forall i | 0 <= i < |items| && items[i].dir && items[i].target in pre
        ensures MayChmod(pre[items[i].target], process)
      {
        assert IsItem(items, items[i].target) && Fits(pre, items[i]);
        assert IsRoot(process) || OwnTarget(pre[items[i].target], process);
      }
    }
  }

  lemma UndoableMore(pre: Tree, touch: set<Path>, grants: set<Grant>, d: ProjectDisk)
    requires Undoable(pre, touch, {}, d) && d.tree == pre
    ensures Undoable(pre, touch, grants, d) && Faded(pre, touch, grants, d.tree)
  {
    FadedItself(pre, touch, grants);
    if d.txn.Some? && d.txn.value.manifest.Some? {
      WithinMore(pre, {}, grants, d.txn.value.manifest.value.entries, pre);
    }
  }

  lemma FadedRooted(pre: Tree, touch: set<Path>, grants: set<Grant>, t: Tree, items: seq<Item>, repairs: seq<Path>)
    requires Faded(pre, touch, grants, t)
    ensures Rooted(pre, items) ==> Rooted(t, items)
    ensures RepairsStaged(pre, items, repairs) ==> RepairsStaged(t, items, repairs)
  {
    if Rooted(pre, items) {
      forall i | 0 <= i < |items|
        ensures ParentKnown(t, items, items[i].target)
      {
        assert ParentKnown(pre, items, items[i].target);
      }
    }
  }

  /** GenerateProjectTransactional: it starts by finishing an earlier transaction, whose touched paths and grants are
      touch and grants, and from which base is regained; afterwards the project is as base but for what no log records,
      recoverable to that, or completely built. Undisturbed it goes through exactly when nothing is in its way, and a
      failure leaves base itself when nothing unrecorded was there. */
  method GenerateProjectTransactional(host: ProjectHost, project: Path, secrets: Path, allowed: seq<Path>,
      items: seq<Item>, job: Job, first: Piece, ghost pre: Tree, ghost touch: set<Path>, ghost grants: set<Grant>)
    returns (status: Status, ghost base: Tree, ghost after: Tree)
    requires Tidy(pre) && Rooted(pre, items) && RepairsStaged(pre, items, job.repairs)
    requires Undoable(pre, touch, grants, host.disk) || Kept(pre, host.disk)
    modifies host
    ensures Faded(pre, touch, grants, base)
    ensures || Undoable(pre, touch, grants, host.disk) || Kept(pre, host.disk)
            || Undoable(base, Touched(items), Grants(job), host.disk)
            || (Kept(after, host.disk)
                && Built(base, secrets, SetOf(job.repairs), Grants(job), items, after))
    ensures status.Done? ==> Kept(after, host.disk)
    ensures status.Done? ==>
      Built(base, secrets, SetOf(job.repairs), Grants(job), items, after)
    ensures old(host.faults) == [] && old(Recoverable(host.disk, project, job.process)) ==>
      base == old(Regained(pre, job.process, host.disk))
    ensures old(host.faults) == [] ==>
      (status.Done? <==> old(Recoverable(host.disk, project, job.process))
                         && Generatable(base, project, secrets, allowed, items, job))
    ensures old(host.faults) == [] && old(Recoverable(host.disk, project, job.process)) ==>
      (status.Done? || DirsMine(base, items, job.process) ==> host.disk.txn.None?)
    ensures old(host.faults) == [] && old(Recoverable(host.disk, project, job.process)) ==>
      (!status.Done? && NothingLost(base, items, job) ==> host.disk == ProjectDisk(base, None))
    ensures old(host.faults) == [] && old(Recoverable(host.disk, project, job.process)) ==>
      (!status.Done? && LateFailure(base, project, secrets, allowed, items, job.process) ==>
        host.disk == ProjectDisk(Stripped(base, items, job.process), None))
    ensures old(host.faults) == [] && old(Recoverable(host.disk, project, job.process)) ==>
      (Preparable(base, items) && Journalable(project, secrets, allowed, items)
       && !DirsMine(base, items, job.process) ==>
        OpenJournal(host.disk) && !Recoverable(host.disk, project, job.process))
  {
    base, after := pre, pre;
    FadedItself(pre, touch, grants);
    if Undoable(pre, touch, grants, host.disk) && Recoverable(host.disk, project, job.process) {
      RegainedIsBefore(pre, touch, grants, host.disk, project, job.process);
    }
    status := RecoverProjectTransaction(host, project, job.process, first, pre, touch, grants, pre);
    if !status.Done? {
      return;
    }
    base := host.disk.tree;
    FadedTidy(pre, touch, grants, base);
    FadedRooted(pre, touch, grants, base, items, job.repairs);
    FadedItself(base, Touched(items), Grants(job));
    status := host.Do(host.disk.(txn := Some(TxnDir(map[], map[], None))));
    if !status.Done? {
      return;
    }
    status, after := Transact(host, project, secrets, allowed, items, job, first, base);
  }
}
