/** The project generator's undo log: what its rollback does, from any partial apply or partial rollback. */
module ProjectUndo {
  import opened Common

  datatype Owner = Owner(uid: nat, gid: nat)

  datatype Node = Dir(mode: nat, owner: Owner) | File(bytes: string, mode: nat, owner: Owner)

  /** Absolute paths; [] is the filesystem root. */
  type Tree = map<Path, Node>

  /** SHA-256 as an injective digest. */
  datatype Digest = Sha256(of: string)

  datatype Entry =
    | DirEntry(target: Path, existed: bool, originalMode: nat, desiredMode: nat)
    | FileEntry(target: Path, existed: bool, originalMode: nat, originalOwner: Owner, desiredMode: nat,
        source: nat, stagedDigest: Digest, backup: nat, backupDigest: Digest)

  datatype Outcome = Outcome(tree: Tree, ok: bool)

  function Parent(p: Path): Path
    requires p != []
  {
    p[..|p| - 1]
  }

  predicate IsDir(t: Tree, p: Path) {
    p == [] || (p in t && t[p].Dir?)
  }

  predicate HasChild(t: Tree, p: Path) {
    exists c :: c in t && c != [] && Parent(c) == p
  }

  predicate Hangs(t: Tree, p: Path) {
    p != [] && IsDir(t, Parent(p))
  }

  ghost predicate Tidy(t: Tree) {
    forall p {:trigger Hangs(t, p)} :: p in t ==> Hangs(t, p)
  }

  predicate SameAt(t: Tree, u: Tree, p: Path) {
    (p in t <==> p in u) && (p in t ==> t[p] == u[p])
  }

  // ---- Modes and owners

  /** os.FileMode.Perm: without the setuid, setgid and sticky bits. */
  function Perm(mode: nat): nat {
    mode % 0x200
  }

  const SETGID := 0x400

  predicate Setgid(mode: nat) {
    mode / SETGID % 2 == 1
  }

  /** The identity of a process is the owner it gives to what it makes. */
  predicate IsRoot(process: Owner) {
    process.uid == 0
  }

  /** The filesystem root belongs to root. */
  function OwnerAt(t: Tree, p: Path): Owner {
    if p in t then t[p].owner else Owner(0, 0)
  }

  /** The owner of a file the process makes in a directory: a setgid directory passes its group on. */
  function MadeOwner(t: Tree, dir: Path, process: Owner): Owner {
    if dir in t && Setgid(t[dir].mode) then Owner(process.uid, t[dir].owner.gid) else process
  }

  /** applyExplicitFileOwnership on a file made beside its target: only root can give the recorded owner back. */
  function RestoredOwner(t: Tree, target: Path, recorded: Owner, process: Owner): Owner
    requires target != []
  {
    if IsRoot(process) then recorded else MadeOwner(t, Parent(target), process)
  }

  /** chmod is for the owner and for root. */
  predicate MayChmod(n: Node, process: Owner) {
    IsRoot(process) || n.owner.uid == process.uid
  }

  // ---- rollbackTransaction

  predicate BackupUsable(backups: map<nat, string>, e: Entry)
    requires e.FileEntry?
  {
    e.backup in backups && Sha256(backups[e.backup]) == e.backupDigest
  }

  /** One iteration of rollbackTransaction. Each is one atomic replacement, removal or chmod. */
  function RollbackEntry(t: Tree, backups: map<nat, string>, process: Owner, e: Entry): Outcome {
    match e
    case FileEntry(target, existed, mode, owner, _, _, _, backup, _) =>
      if existed then
        if !BackupUsable(backups, e) || !Hangs(t, target) || (target in t && t[target].Dir?) then Outcome(t, false)
        else Outcome(t[target := File(backups[backup], Perm(mode), RestoredOwner(t, target, owner, process))], true)
      else if target !in t then Outcome(t, true)
      else if t[target].Dir? then Outcome(t, false)
      else Outcome(t - {target}, true)
    case DirEntry(target, existed, mode, _) =>
      if existed then
        if target !in t || !MayChmod(t[target], process) then Outcome(t, false)
        else Outcome(t[target := t[target].(mode := Perm(mode))], true)
      else if target !in t then Outcome(t, true)
      else if HasChild(t, target) then Outcome(t, false)
      else Outcome(t - {target}, true)
  }

  /** All iterations, last entry first; errors are collected, not fatal. */
  function Rollback(t: Tree, backups: map<nat, string>, process: Owner, entries: seq<Entry>): Outcome
    decreases |entries|
  {
    if entries == [] then Outcome(t, true)
    else
      var r := RollbackEntry(t, backups, process, entries[|entries| - 1]);
      var rest := Rollback(r.tree, backups, process, entries[..|entries| - 1]);
      Outcome(rest.tree, r.ok && rest.ok)
  }

  // ---- What the log records

  /** The entry describes its target as it was, but for the special mode bits and the owner of a directory. */
  ghost predicate Recorded(pre: Tree, e: Entry) {
    && e.target != [] && (e.existed <==> e.target in pre)
    && (e.existed ==>
         && pre[e.target].Dir? == e.DirEntry? && Perm(pre[e.target].mode) == e.originalMode
         && (e.FileEntry? ==> pre[e.target].bytes == e.backupDigest.of && pre[e.target].owner == e.originalOwner))
  }

  /** sort.SliceStable's order: directories before files, shallow before deep within each. */
  predicate InOrder(a: Entry, b: Entry) {
    if a.DirEntry? != b.DirEntry? then a.DirEntry? else |a.target| <= |b.target|
  }

  predicate Ordered(entries: seq<Entry>) {
    forall i, j :: 0 <= i < j < |entries| ==> InOrder(entries[i], entries[j])
  }

  predicate Distinct(entries: seq<Entry>) {
    forall i, j :: 0 <= i < j < |entries| ==> entries[i].target != entries[j].target
  }

  ghost predicate GoodLog(pre: Tree, entries: seq<Entry>) {
    && Tidy(pre) && Ordered(entries) && Distinct(entries)
    && (forall i :: 0 <= i < |entries| ==> Recorded(pre, entries[i]))
  }

  ghost predicate BackupsKept(entries: seq<Entry>, backups: map<nat, string>) {
    forall i :: 0 <= i < |entries| && entries[i].FileEntry? && entries[i].existed ==> BackupUsable(backups, entries[i])
  }

  predicate IsTarget(entries: seq<Entry>, p: Path) {
    exists i :: 0 <= i < |entries| && entries[i].target == p
  }

  /** p is the directory of a file of the log: promoting the file sets its mode, to its own permission bits. */
  predicate IsFileParent(entries: seq<Entry>, p: Path) {
    exists i :: 0 <= i < |entries| && HoldsFile(entries[i], p)
  }

  predicate HoldsFile(e: Entry, p: Path) {
    e.FileEntry? && e.target != [] && Parent(e.target) == p
  }

  // ---- Every state a partial apply or a partial rollback can leave

  /** A directory given to an owner when volumes are prepared, which no log records. */
  datatype Grant = Grant(path: Path, owner: Owner)

  /** What may have become of the owner of what was there. */
  predicate OwnerKept(a: Node, b: Node, p: Path, grants: set<Grant>) {
    b.owner == a.owner || (a.Dir? && Grant(p, b.owner) in grants)
  }

  /** What may have become of a node that is no target: faded is set for the directory of a promoted file. */
  predicate Drifted(a: Node, b: Node, faded: bool, p: Path, grants: set<Grant>) {
    && b == a.(mode := b.mode, owner := b.owner) && OwnerKept(a, b, p, grants)
    && (b.mode == a.mode || (faded && a.Dir? && b.mode == Perm(a.mode)))
  }

  /** What may have become of a target that was a directory. */
  predicate StillDir(a: Node, b: Node, p: Path, grants: set<Grant>) {
    b.Dir? && OwnerKept(a, b, p, grants) && (b.mode == a.mode || b.mode < 0x200)
  }

  /** An entry's target in some state between apply and rollback: of its kind, and there if it existed. */
  ghost predicate Plausible(pre: Tree, grants: set<Grant>, t: Tree, e: Entry) {
    && (e.existed ==> e.target in t) && (e.target in t ==> t[e.target].Dir? == e.DirEntry?)
    && (e.existed && e.DirEntry? ==> e.target in pre && StillDir(pre[e.target], t[e.target], e.target, grants))
  }

  /** A place that is no target. */
  ghost predicate Outside(pre: Tree, grants: set<Grant>, entries: seq<Entry>, t: Tree, p: Path) {
    && (p in t <==> p in pre)
    && (p in pre ==> Drifted(pre[p], t[p], IsFileParent(entries, p), p, grants))
  }

  ghost predicate Within(pre: Tree, grants: set<Grant>, entries: seq<Entry>, t: Tree) {
    && Tidy(t)
    && (forall p :: !IsTarget(entries, p) ==> Outside(pre, grants, entries, t, p))
    && (forall i :: 0 <= i < |entries| ==> Plausible(pre, grants, t, entries[i]))
  }

  lemma BeforeIsWithin(pre: Tree, grants: set<Grant>, entries: seq<Entry>)
    requires GoodLog(pre, entries)
    ensures Within(pre, grants, entries, pre)
  {
    forall i | 0 <= i < |entries|
      ensures Plausible(pre, grants, pre, entries[i])
    {
      assert Recorded(pre, entries[i]);
    }
  }

  /** Any change confined to one target, keeping kinds and the tree's shape, stays within. */
  lemma TargetStep(pre: Tree, grants: set<Grant>, entries: seq<Entry>, t: Tree, t': Tree, k: nat)
    requires GoodLog(pre, entries) && Within(pre, grants, entries, t) && k < |entries|
    requires Tidy(t') && Plausible(pre, grants, t', entries[k])
    requires forall p :: p != entries[k].target ==> SameAt(t', t, p)
    ensures Within(pre, grants, entries, t')
  {
    forall i | 0 <= i < |entries|
      ensures Plausible(pre, grants, t', entries[i])
    {
      assert Plausible(pre, grants, t, entries[i]);
      if i < k { assert entries[i].target != entries[k].target; }
      if k < i { assert entries[k].target != entries[i].target; }
      assert i != k ==> SameAt(t', t, entries[i].target);
    }
    forall p | !IsTarget(entries, p)
      ensures Outside(pre, grants, entries, t', p)
    {
      assert Outside(pre, grants, entries, t, p) && SameAt(t', t, p);
    }
  }

  lemma TidyPut(t: Tree, p: Path, n: Node)
    requires Tidy(t) && Hangs(t, p) && (p in t && t[p].Dir? ==> n.Dir?)
    ensures Tidy(t[p := n])
  {
    var t' := t[p := n];
    forall q | q in t'
      ensures Hangs(t', q)
    {
      assert q in t ==> Hangs(t, q);
    }
  }

  lemma TidyDrop(t: Tree, p: Path)
    requires Tidy(t) && !HasChild(t, p)
    ensures Tidy(t - {p})
  {
    forall q | q in t - {p}
      ensures Hangs(t - {p}, q)
    {
      assert Hangs(t, q);
    }
  }

  lemma FileNoChild(t: Tree, p: Path)
    requires Tidy(t) && p in t && t[p].File?
    ensures !HasChild(t, p)
  {
    assert Hangs(t, p);
    forall c | c in t && c != []
      ensures Parent(c) != p
    {
      assert Hangs(t, c);
    }
  }

  /** What was a directory is one in every such state. */
  lemma DirStays(pre: Tree, grants: set<Grant>, entries: seq<Entry>, t: Tree, q: Path)
    requires GoodLog(pre, entries) && Within(pre, grants, entries, t) && q in pre && pre[q].Dir?
    ensures q in t && t[q].Dir? && OwnerKept(pre[q], t[q], q, grants)
    ensures t[q].mode == pre[q].mode || t[q].mode < 0x200
  {
    if IsTarget(entries, q) {
      var i :| 0 <= i < |entries| && entries[i].target == q;
      assert Recorded(pre, entries[i]) && Plausible(pre, grants, t, entries[i]);
    } else {
      assert Outside(pre, grants, entries, t, q);
    }
  }

  /** A parent that was a directory is one still. */
  lemma ParentStays(pre: Tree, grants: set<Grant>, entries: seq<Entry>, t: Tree, p: Path)
    requires GoodLog(pre, entries) && Within(pre, grants, entries, t) && p in pre
    ensures Hangs(t, p)
  {
    assert Hangs(pre, p);
    if Parent(p) != [] { DirStays(pre, grants, entries, t, Parent(p)); }
  }

  lemma RollbackElsewhere(t: Tree, backups: map<nat, string>, process: Owner, e: Entry, p: Path)
    ensures p != e.target ==> SameAt(RollbackEntry(t, backups, process, e).tree, t, p)
  {
  }

  /** What one step makes of its own target is plausible. */
  lemma RollbackPlausible(pre: Tree, grants: set<Grant>, t: Tree, backups: map<nat, string>, process: Owner, e: Entry)
    requires Recorded(pre, e) && Plausible(pre, grants, t, e)
    ensures Plausible(pre, grants, RollbackEntry(t, backups, process, e).tree, e)
  {
  }

  lemma RollbackTidy(pre: Tree, grants: set<Grant>, t: Tree, backups: map<nat, string>, process: Owner, e: Entry)
    requires Tidy(t) && Recorded(pre, e) && Plausible(pre, grants, t, e)
    ensures Tidy(RollbackEntry(t, backups, process, e).tree)
  {
    var t' := RollbackEntry(t, backups, process, e).tree;
    if t' != t {
      if e.existed {
        assert e.target in t ==> Hangs(t, e.target);
        TidyPut(t, e.target, t'[e.target]);
      } else {
        if e.FileEntry? { FileNoChild(t, e.target); }
        TidyDrop(t, e.target);
      }
    }
  }

  /** A rollback step stays within, whether or not it could do its work. */
  lemma RollbackStep(pre: Tree, grants: set<Grant>, entries: seq<Entry>, t: Tree, backups: map<nat, string>,
      process: Owner, k: nat)
    requires GoodLog(pre, entries) && Within(pre, grants, entries, t) && k < |entries|
    ensures Within(pre, grants, entries, RollbackEntry(t, backups, process, entries[k]).tree)
  {
    var t' := RollbackEntry(t, backups, process, entries[k]).tree;
    assert Plausible(pre, grants, t, entries[k]) && Recorded(pre, entries[k]);
    RollbackPlausible(pre, grants, t, backups, process, entries[k]);
    RollbackTidy(pre, grants, t, backups, process, entries[k]);
    forall p | p != entries[k].target
      ensures SameAt(t', t, p)
    {
      RollbackElsewhere(t, backups, process, entries[k], p);
    }
    TargetStep(pre, grants, entries, t, t', k);
  }

  // ---- What a full rollback gives back

  /** Nothing keeps the entry from being undone: its backup is there, or its directory may be changed. */
  predicate Usable(t: Tree, backups: map<nat, string>, process: Owner, e: Entry) {
    e.existed ==>
      if e.FileEntry? then BackupUsable(backups, e) else e.target in t && MayChmod(t[e.target], process)
  }

  ghost predicate AllUsable(t: Tree, backups: map<nat, string>, process: Owner, entries: seq<Entry>) {
    forall i :: 0 <= i < |entries| ==> Usable(t, backups, process, entries[i])
  }

  ghost predicate UsableAt(t: Tree, backups: map<nat, string>, process: Owner, entries: seq<Entry>, p: Path) {
    exists i :: 0 <= i < |entries| && entries[i].target == p && Usable(t, backups, process, entries[i])
  }

  /** A target put back: directories keep the owner they have, files get theirs when the process is root. */
  function PutBack(was: Node, now: Node, t: Tree, p: Path, process: Owner): Node
    requires p != []
  {
    if was.Dir? then now.(mode := Perm(was.mode))
    else File(was.bytes, Perm(was.mode), RestoredOwner(t, p, was.owner, process))
  }

  /** The tree a full rollback from t leaves. */
  ghost function Final(pre: Tree, backups: map<nat, string>, process: Owner, entries: seq<Entry>, t: Tree): Tree {
    map p | p in t && p in pre ::
      if p != [] && UsableAt(t, backups, process, entries, p) then PutBack(pre[p], t[p], t, p, process) else t[p]
  }

  lemma FinalAt(pre: Tree, backups: map<nat, string>, process: Owner, entries: seq<Entry>, t: Tree, k: nat)
    requires Distinct(entries) && k < |entries| && entries[k].target != []
    ensures var (f, p) := (Final(pre, backups, process, entries, t), entries[k].target);
      && (p in f <==> p in t && p in pre)
      && (p in f ==>
           f[p] == if Usable(t, backups, process, entries[k]) then PutBack(pre[p], t[p], t, p, process) else t[p])
  {
    var p := entries[k].target;
    if UsableAt(t, backups, process, entries, p) {
      var i :| 0 <= i < |entries| && entries[i].target == p && Usable(t, backups, process, entries[i]);
      assert i == k;
    }
  }

  /** Midway through a rollback from t0: the targets from k on are back, everything else is as it was in t0. */
  ghost predicate Rolling(pre: Tree, grants: set<Grant>, backups: map<nat, string>, process: Owner,
      entries: seq<Entry>, t0: Tree, t: Tree, k: nat)
  {
    && k <= |entries| && Within(pre, grants, entries, t0) && Within(pre, grants, entries, t)
    && (forall j :: k <= j < |entries| ==>
         SameAt(t, Final(pre, backups, process, entries, t0), entries[j].target))
    && (forall p :: UndoneFrom(entries, p, k) || SameAt(t, t0, p))
  }

  predicate UndoneFrom(entries: seq<Entry>, p: Path, k: nat) {
    exists j :: k <= j < |entries| && entries[j].target == p
  }

  lemma NotUndone(entries: seq<Entry>, t: Tree, t0: Tree, i: nat, k: nat)
    requires Distinct(entries) && i < k <= |entries| && forall p :: UndoneFrom(entries, p, k) || SameAt(t, t0, p)
    ensures SameAt(t, t0, entries[i].target)
  {
    assert !UndoneFrom(entries, entries[i].target, k) by {
      forall j | k <= j < |entries|
        ensures entries[j].target != entries[i].target
      {
      }
    }
  }

  /** The directory of a file whose turn has come is still as it was when the rollback started: only files are back. */
  lemma DirNotYet(pre: Tree, grants: set<Grant>, backups: map<nat, string>, process: Owner, entries: seq<Entry>,
      t0: Tree, t: Tree, k: nat)
    requires GoodLog(pre, entries) && k < |entries| && entries[k].FileEntry? && entries[k].existed
    requires Rolling(pre, grants, backups, process, entries, t0, t, k + 1)
    ensures Hangs(t, entries[k].target) && SameAt(t, t0, Parent(entries[k].target))
  {
    var q := Parent(entries[k].target);
    assert Recorded(pre, entries[k]);
    ParentStays(pre, grants, entries, t, entries[k].target);
    forall j | k + 1 <= j < |entries|
      ensures entries[j].target != q
    {
      assert InOrder(entries[k], entries[j]);
      assert Plausible(pre, grants, t, entries[j]) && Recorded(pre, entries[j]);
    }
  }

  /** With every later entry undone, a directory this transaction created is empty: its content would be a later
      entry, or would have made the directory exist before. */
  lemma CreatedDirEmpty(pre: Tree, grants: set<Grant>, backups: map<nat, string>, process: Owner,
      entries: seq<Entry>, t0: Tree, t: Tree, k: nat)
    requires GoodLog(pre, entries) && k < |entries| && entries[k].DirEntry? && !entries[k].existed
    requires Rolling(pre, grants, backups, process, entries, t0, t, k + 1)
    ensures !HasChild(t, entries[k].target)
  {
    forall c | c in t && c != []
      ensures Parent(c) != entries[k].target
    {
      assert Recorded(pre, entries[k]);
      if c in pre {
        assert Hangs(pre, c);
      } else if IsTarget(entries, c) {
        var j :| 0 <= j < |entries| && entries[j].target == c;
        if j < k { assert InOrder(entries[j], entries[k]); }
        if k < j { assert SameAt(t, Final(pre, backups, process, entries, t0), entries[j].target); }
      }
    }
  }

  /** One rollback step puts its target back, as far as it was recorded and can be given back. */
  lemma StepRestores(pre: Tree, grants: set<Grant>, backups: map<nat, string>, process: Owner, entries: seq<Entry>,
      t0: Tree, t: Tree, k: nat)
    requires GoodLog(pre, entries) && k < |entries|
    requires Rolling(pre, grants, backups, process, entries, t0, t, k + 1)
    ensures var r := RollbackEntry(t, backups, process, entries[k]);
      && (r.ok <==> Usable(t0, backups, process, entries[k]))
      && SameAt(r.tree, Final(pre, backups, process, entries, t0), entries[k].target)
  {
    var e := entries[k];
    assert Plausible(pre, grants, t, e) && Plausible(pre, grants, t0, e) && Recorded(pre, e);
    NotUndone(entries, t, t0, k, k + 1);
    FinalAt(pre, backups, process, entries, t0, k);
    if e.existed && e.FileEntry? {
      DirNotYet(pre, grants, backups, process, entries, t0, t, k);
    } else if !e.existed && e.DirEntry? {
      CreatedDirEmpty(pre, grants, backups, process, entries, t0, t, k);
    }
  }

  lemma RollingStep(pre: Tree, grants: set<Grant>, backups: map<nat, string>, process: Owner, entries: seq<Entry>,
      t0: Tree, t: Tree, k: nat)
    requires GoodLog(pre, entries) && k < |entries|
    requires Rolling(pre, grants, backups, process, entries, t0, t, k + 1)
    ensures Rolling(pre, grants, backups, process, entries, t0,
      RollbackEntry(t, backups, process, entries[k]).tree, k)
    ensures RollbackEntry(t, backups, process, entries[k]).ok <==> Usable(t0, backups, process, entries[k])
  {
    var t' := RollbackEntry(t, backups, process, entries[k]).tree;
    StepRestores(pre, grants, backups, process, entries, t0, t, k);
    RollbackStep(pre, grants, entries, t, backups, process, k);
    forall j | k < j < |entries|
      ensures SameAt(t', Final(pre, backups, process, entries, t0), entries[j].target)
    {
      assert entries[k].target != entries[j].target;
      RollbackElsewhere(t, backups, process, entries[k], entries[j].target);
    }
    forall p
      ensures UndoneFrom(entries, p, k) || SameAt(t', t0, p)
    {
      RollbackElsewhere(t, backups, process, entries[k], p);
      if UndoneFrom(entries, p, k + 1) {
        var j :| k + 1 <= j < |entries| && entries[j].target == p;
        assert k <= j < |entries| && entries[j].target == p;
      } else if p == entries[k].target {
        assert k <= k < |entries| && entries[k].target == p;
      }
    }
  }

  lemma RollingDone(pre: Tree, grants: set<Grant>, backups: map<nat, string>, process: Owner, entries: seq<Entry>,
      t0: Tree, t: Tree)
    requires GoodLog(pre, entries) && Rolling(pre, grants, backups, process, entries, t0, t, 0)
    ensures t == Final(pre, backups, process, entries, t0)
  {
    var goal := Final(pre, backups, process, entries, t0);
    forall p
      ensures SameAt(t, goal, p)
    {
      if IsTarget(entries, p) {
        var i :| 0 <= i < |entries| && entries[i].target == p;
        assert SameAt(t, goal, entries[i].target);
      } else {
        assert Outside(pre, grants, entries, t0, p);
        assert !UndoneFrom(entries, p, 0);
      }
    }
    SameEverywhere(t, goal);
  }

  lemma SameEverywhere(t: Tree, u: Tree)
    requires forall p :: SameAt(t, u, p)
    ensures t == u
  {
    forall p | p in t
      ensures p in u && t[p] == u[p]
    {
      assert SameAt(t, u, p);
    }
    forall p | p in u
      ensures p in t
    {
      assert SameAt(t, u, p);
    }
  }

  lemma {:induction false} RollbackFrom(pre: Tree, grants: set<Grant>, backups: map<nat, string>, process: Owner,
      entries: seq<Entry>, t0: Tree, t: Tree, k: nat)
    requires GoodLog(pre, entries) && Rolling(pre, grants, backups, process, entries, t0, t, k)
    ensures Rollback(t, backups, process, entries[..k])
      == Outcome(Final(pre, backups, process, entries, t0), AllUsable(t0, backups, process, entries[..k]))
    decreases k
  {
    if k == 0 {
      RollingDone(pre, grants, backups, process, entries, t0, t);
    } else {
      var r := RollbackEntry(t, backups, process, entries[k - 1]);
      RollingStep(pre, grants, backups, process, entries, t0, t, k - 1);
      RollbackFrom(pre, grants, backups, process, entries, t0, r.tree, k - 1);
      RollbackSnoc(t, t0, backups, process, entries[..k]);
      assert entries[..k][..k - 1] == entries[..k - 1];
    }
  }

  lemma {:induction false} RollbackSnoc(t: Tree, t0: Tree, backups: map<nat, string>, process: Owner,
      entries: seq<Entry>)
    requires entries != []
    ensures var n := |entries| - 1;
      var r := RollbackEntry(t, backups, process, entries[n]);
      var rest := Rollback(r.tree, backups, process, entries[..n]);
      && Rollback(t, backups, process, entries) == Outcome(rest.tree, r.ok && rest.ok)
      && (AllUsable(t0, backups, process, entries)
        <==> Usable(t0, backups, process, entries[n]) && AllUsable(t0, backups, process, entries[..n]))
  {
  }

  lemma RollingStart(pre: Tree, grants: set<Grant>, backups: map<nat, string>, process: Owner, entries: seq<Entry>,
      t: Tree)
    requires GoodLog(pre, entries) && Within(pre, grants, entries, t)
    ensures Rolling(pre, grants, backups, process, entries, t, t, |entries|)
  {
  }

  /** Rollback inverts every partial apply and every partial rollback, as far as its log goes: the contents and
      permission bits of all targets and the set of files and directories are as before, but for the targets whose
      backup is lost or whose directory the process may not change; exactly then it reports a failure. */
  lemma RollbackRestores(pre: Tree, grants: set<Grant>, entries: seq<Entry>, t: Tree, backups: map<nat, string>,
      process: Owner)
    requires GoodLog(pre, entries) && Within(pre, grants, entries, t)
    ensures Rollback(t, backups, process, entries)
      == Outcome(Final(pre, backups, process, entries, t), AllUsable(t, backups, process, entries))
  {
    assert entries[..|entries|] == entries;
    RollingStart(pre, grants, backups, process, entries, t);
    RollbackFrom(pre, grants, backups, process, entries, t, t, |entries|);
  }
}
