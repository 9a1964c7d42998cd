/** When the project generator's undo log gives back exactly what was there, and what else it may leave. */
module ProjectExact {
  import opened Common
  import opened ProjectUndo

  // ---- Repeated rollbacks

  /** A rollback stopped before it reached the entries below its cut, by whoever ran it. */
  datatype Attempt = Attempt(cut: nat, process: Owner)

  /** The tree after a series of stopped rollbacks. */
  function Interrupted(t: Tree, backups: map<nat, string>, entries: seq<Entry>, attempts: seq<Attempt>): Tree
    requires forall i :: 0 <= i < |attempts| ==> attempts[i].cut <= |entries|
    decreases |attempts|
  {
    if attempts == [] then t
    else
      var a := attempts[0];
      Interrupted(Rollback(t, backups, a.process, entries[a.cut..]).tree, backups, entries, attempts[1..])
  }

  lemma {:induction false} RollbackWithin(pre: Tree, grants: set<Grant>, entries: seq<Entry>, t: Tree,
      backups: map<nat, string>, process: Owner, part: seq<Entry>)
    requires GoodLog(pre, entries) && Within(pre, grants, entries, t)
    requires forall i :: 0 <= i < |part| ==> part[i] in entries
    ensures Within(pre, grants, entries, Rollback(t, backups, process, part).tree)
    decreases |part|
  {
    if part != [] {
      var e := part[|part| - 1];
      var k :| 0 <= k < |entries| && entries[k] == e;
      RollbackStep(pre, grants, entries, t, backups, process, k);
      RollbackWithin(pre, grants, entries, RollbackEntry(t, backups, process, e).tree, backups, process,
        part[..|part| - 1]);
    }
  }

  lemma {:induction false} InterruptedWithin(pre: Tree, grants: set<Grant>, entries: seq<Entry>, t: Tree,
      backups: map<nat, string>, attempts: seq<Attempt>)
    requires GoodLog(pre, entries) && Within(pre, grants, entries, t)
    requires forall i :: 0 <= i < |attempts| ==> attempts[i].cut <= |entries|
    ensures Within(pre, grants, entries, Interrupted(t, backups, entries, attempts))
    decreases |attempts|
  {
    if attempts != [] {
      var a := attempts[0];
      RollbackWithin(pre, grants, entries, t, backups, a.process, entries[a.cut..]);
      InterruptedWithin(pre, grants, entries, Rollback(t, backups, a.process, entries[a.cut..]).tree, backups,
        attempts[1..]);
    }
  }

  /** Any number of rollbacks stopped midway, by whatever processes, then a full one: what can be undone is. */
  lemma RepeatedRollback(pre: Tree, grants: set<Grant>, entries: seq<Entry>, t: Tree, backups: map<nat, string>,
      attempts: seq<Attempt>, process: Owner)
    requires GoodLog(pre, entries) && Within(pre, grants, entries, t)
    requires forall i :: 0 <= i < |attempts| ==> attempts[i].cut <= |entries|
    ensures var stopped := Interrupted(t, backups, entries, attempts);
      && Within(pre, grants, entries, stopped)
      && Rollback(stopped, backups, process, entries)
           == Outcome(Final(pre, backups, process, entries, stopped), AllUsable(stopped, backups, process, entries))
    ensures BackupsKept(entries, backups) && Undistorted(pre, grants, entries, process) ==>
      Rollback(Interrupted(t, backups, entries, attempts), backups, process, entries) == Outcome(pre, true)
  {
    var stopped := Interrupted(t, backups, entries, attempts);
    InterruptedWithin(pre, grants, entries, t, backups, attempts);
    RollbackRestores(pre, grants, entries, stopped, backups, process);
    if BackupsKept(entries, backups) && Undistorted(pre, grants, entries, process) {
      UndistortedFinal(pre, grants, entries, stopped, backups, process);
    }
  }

  // ---- Exact restoration

  /** The directory of a file of the log, as it was before. */
  predicate FileParentBefore(pre: Tree, entries: seq<Entry>, p: Path) {
    p in pre && pre[p].Dir? && IsFileParent(entries, p)
  }

  ghost predicate NoSpecialBits(pre: Tree, entries: seq<Entry>) {
    forall p :: p in pre && (IsTarget(entries, p) || FileParentBefore(pre, entries, p)) ==> pre[p].mode < 0x200
  }

  /** The process can give every target back to its owner. */
  ghost predicate OwnTargets(pre: Tree, entries: seq<Entry>, process: Owner) {
    IsRoot(process) || forall p :: p in pre && IsTarget(entries, p) ==> OwnTarget(pre[p], process)
  }

  predicate OwnTarget(n: Node, process: Owner) {
    if n.Dir? then n.owner.uid == process.uid else n.owner == process
  }

  /** Every directory to be given to an owner is that owner's already. */
  ghost predicate GrantsHeld(pre: Tree, grants: set<Grant>) {
    forall g :: g in grants && g.path in pre && pre[g.path].Dir? ==> pre[g.path].owner == g.owner
  }

  /** Nothing that the log does not record can get lost: all of it can be looked up before the call. */
  ghost predicate Undistorted(pre: Tree, grants: set<Grant>, entries: seq<Entry>, process: Owner) {
    NoSpecialBits(pre, entries) && OwnTargets(pre, entries, process) && GrantsHeld(pre, grants)
  }

  lemma PlainMode(mode: nat)
    ensures Perm(mode) < 0x200 && (mode < 0x200 <==> Perm(mode) == mode)
    ensures mode < 0x200 ==> !Setgid(mode)
  {
  }

  lemma NotSpecial(pre: Tree, entries: seq<Entry>, p: Path)
    requires NoSpecialBits(pre, entries) && p in pre && (IsTarget(entries, p) || FileParentBefore(pre, entries, p))
    ensures pre[p].mode < 0x200
  {
  }

  lemma HeldOwner(pre: Tree, grants: set<Grant>, b: Node, p: Path)
    requires GrantsHeld(pre, grants) && p in pre && OwnerKept(pre[p], b, p, grants)
    ensures b.owner == pre[p].owner
  {
  }

  /** A directory that holds a file target has no special bit at any stop. */
  lemma ParentPlain(pre: Tree, grants: set<Grant>, entries: seq<Entry>, t: Tree, k: nat)
    requires GoodLog(pre, entries) && Within(pre, grants, entries, t) && k < |entries|
    requires entries[k].FileEntry? && entries[k].existed && NoSpecialBits(pre, entries)
    ensures entries[k].target != [] && MadeOwner(t, Parent(entries[k].target), Owner(0, 0)) == Owner(0, 0)
    ensures forall process :: MadeOwner(t, Parent(entries[k].target), process) == process
  {
    assert Recorded(pre, entries[k]) && Hangs(pre, entries[k].target);
    var q := Parent(entries[k].target);
    assert q in t ==> Hangs(t, q);
    if q in t {
      assert HoldsFile(entries[k], q);
      NotSpecial(pre, entries, q);
      DirStays(pre, grants, entries, t, q);
      PlainMode(t[q].mode);
    }
  }

  lemma UndistortedTarget(pre: Tree, grants: set<Grant>, entries: seq<Entry>, t: Tree, backups: map<nat, string>,
      process: Owner, k: nat)
    requires GoodLog(pre, entries) && Within(pre, grants, entries, t) && BackupsKept(entries, backups)
    requires Undistorted(pre, grants, entries, process) && k < |entries|
    ensures Usable(t, backups, process, entries[k])
    ensures SameAt(Final(pre, backups, process, entries, t), pre, entries[k].target)
  {
    var e := entries[k];
    assert Recorded(pre, e) && Plausible(pre, grants, t, e);
    FinalAt(pre, backups, process, entries, t, k);
    if e.existed {
      assert IsTarget(entries, e.target);
      NotSpecial(pre, entries, e.target);
      PlainMode(pre[e.target].mode);
      assert IsRoot(process) || OwnTarget(pre[e.target], process);
      if e.DirEntry? {
        HeldOwner(pre, grants, t[e.target], e.target);
      } else {
        ParentPlain(pre, grants, entries, t, k);
      }
    }
  }

  lemma UndistortedElsewhere(pre: Tree, grants: set<Grant>, entries: seq<Entry>, t: Tree, backups: map<nat, string>,
      process: Owner, p: Path)
    requires GoodLog(pre, entries) && Within(pre, grants, entries, t) && Undistorted(pre, grants, entries, process)
    requires !IsTarget(entries, p)
    ensures SameAt(Final(pre, backups, process, entries, t), pre, p)
  {
    assert Outside(pre, grants, entries, t, p);
    if p in pre {
      HeldOwner(pre, grants, t[p], p);
      if FileParentBefore(pre, entries, p) {
        NotSpecial(pre, entries, p);
        PlainMode(pre[p].mode);
      }
    }
  }

  lemma UndistortedFinal(pre: Tree, grants: set<Grant>, entries: seq<Entry>, t: Tree, backups: map<nat, string>,
      process: Owner)
    requires GoodLog(pre, entries) && Within(pre, grants, entries, t) && BackupsKept(entries, backups)
    requires Undistorted(pre, grants, entries, process)
    ensures Final(pre, backups, process, entries, t) == pre && AllUsable(t, backups, process, entries)
  {
    forall p
      ensures SameAt(Final(pre, backups, process, entries, t), pre, p)
    {
      if IsTarget(entries, p) {
        var k :| 0 <= k < |entries| && entries[k].target == p;
        UndistortedTarget(pre, grants, entries, t, backups, process, k);
      } else {
        UndistortedElsewhere(pre, grants, entries, t, backups, process, p);
      }
    }
    SameEverywhere(Final(pre, backups, process, entries, t), pre);
    forall k | 0 <= k < |entries|
      ensures Usable(t, backups, process, entries[k])
    {
      UndistortedTarget(pre, grants, entries, t, backups, process, k);
    }
  }

  /** A single directory that drifted is a possible stop. */
  lemma OneDrift(pre: Tree, grants: set<Grant>, entries: seq<Entry>, p: Path, n: Node)
    requires GoodLog(pre, entries) && p in pre && pre[p].Dir?
    requires Drifted(pre[p], n, IsFileParent(entries, p), p, grants)
    ensures Within(pre, grants, entries, pre[p := n])
  {
    var t := pre[p := n];
    BeforeIsWithin(pre, grants, entries);
    PlainMode(pre[p].mode);
    assert Hangs(pre, p);
    TidyPut(pre, p, n);
    forall i | 0 <= i < |entries|
      ensures Plausible(pre, grants, t, entries[i])
    {
      assert Recorded(pre, entries[i]) && Plausible(pre, grants, pre, entries[i]);
    }
    forall q | !IsTarget(entries, q)
      ensures Outside(pre, grants, entries, t, q)
    {
      assert Outside(pre, grants, entries, pre, q);
    }
  }

  ghost predicate ExactAt(pre: Tree, entries: seq<Entry>, t: Tree, backups: map<nat, string>, process: Owner) {
    Rollback(t, backups, process, entries) == Outcome(pre, true)
  }

  ghost predicate BackAt(pre: Tree, entries: seq<Entry>, t: Tree, process: Owner, p: Path) {
    p in pre && p in t
    && if IsTarget(entries, p) then p != [] && PutBack(pre[p], t[p], t, p, process) == pre[p] else t[p] == pre[p]
  }

  /** An exact rollback of a tree puts every target back and leaves everything else as it is there. */
  lemma ExactMeans(pre: Tree, grants: set<Grant>, entries: seq<Entry>, t: Tree, backups: map<nat, string>,
      process: Owner)
    requires GoodLog(pre, entries) && Within(pre, grants, entries, t) && ExactAt(pre, entries, t, backups, process)
    ensures AllUsable(t, backups, process, entries)
    ensures forall p :: p in pre ==> BackAt(pre, entries, t, process, p)
  {
    RollbackRestores(pre, grants, entries, t, backups, process);
    forall p | p in pre
      ensures BackAt(pre, entries, t, process, p)
    {
      assert p in Final(pre, backups, process, entries, t);
      if IsTarget(entries, p) {
        var k :| 0 <= k < |entries| && entries[k].target == p;
        assert Recorded(pre, entries[k]);
        FinalAt(pre, backups, process, entries, t, k);
      }
    }
  }

  /** The directory of a file target, at a stop where it has no special bit. */
  lemma ExactOwner(pre: Tree, grants: set<Grant>, entries: seq<Entry>, t: Tree, backups: map<nat, string>,
      process: Owner, p: Path)
    requires GoodLog(pre, entries) && Within(pre, grants, entries, t) && ExactAt(pre, entries, t, backups, process)
    requires p in pre && IsTarget(entries, p) && pre[p].File?
    requires p != [] && Parent(p) in t ==> t[Parent(p)].mode < 0x200
    ensures pre[p].mode < 0x200 && (IsRoot(process) || pre[p].owner == process)
  {
    ExactMeans(pre, grants, entries, t, backups, process);
    PlainMode(pre[p].mode);
    if Parent(p) in t { PlainMode(t[Parent(p)].mode); }
  }

  lemma ExactDir(pre: Tree, grants: set<Grant>, entries: seq<Entry>, t: Tree, backups: map<nat, string>,
      process: Owner, p: Path)
    requires GoodLog(pre, entries) && Within(pre, grants, entries, t) && ExactAt(pre, entries, t, backups, process)
    requires p in pre && IsTarget(entries, p) && pre[p].Dir?
    ensures pre[p].mode < 0x200 && t[p].owner == pre[p].owner && (IsRoot(process) || pre[p].owner.uid == process.uid)
  {
    ExactMeans(pre, grants, entries, t, backups, process);
    PlainMode(pre[p].mode);
    var k :| 0 <= k < |entries| && entries[k].target == p;
    assert Recorded(pre, entries[k]) && Usable(t, backups, process, entries[k]);
  }

  lemma ExactBackups(pre: Tree, grants: set<Grant>, entries: seq<Entry>, t: Tree, backups: map<nat, string>,
      process: Owner)
    requires GoodLog(pre, entries) && Within(pre, grants, entries, t) && ExactAt(pre, entries, t, backups, process)
    ensures BackupsKept(entries, backups)
  {
    ExactMeans(pre, grants, entries, t, backups, process);
    forall i | 0 <= i < |entries| && entries[i].FileEntry? && entries[i].existed
      ensures BackupUsable(backups, entries[i])
    {
      assert Usable(t, backups, process, entries[i]);
    }
  }

  /** If a directory without special bits is a stop like any other, exactness everywhere means it had none. */
  lemma ExactParent(pre: Tree, grants: set<Grant>, entries: seq<Entry>, backups: map<nat, string>, process: Owner,
      q: Path)
    requires GoodLog(pre, entries) && FileParentBefore(pre, entries, q)
    requires forall t :: Within(pre, grants, entries, t) ==> ExactAt(pre, entries, t, backups, process)
    ensures pre[q].mode < 0x200
  {
    var n := Dir(Perm(pre[q].mode), pre[q].owner);
    PlainMode(pre[q].mode);
    OneDrift(pre, grants, entries, q, n);
    ExactMeans(pre, grants, entries, pre[q := n], backups, process);
  }

  lemma ExactGrant(pre: Tree, grants: set<Grant>, entries: seq<Entry>, backups: map<nat, string>, process: Owner,
      g: Grant)
    requires GoodLog(pre, entries) && g in grants && g.path in pre && pre[g.path].Dir?
    requires forall t :: Within(pre, grants, entries, t) ==> ExactAt(pre, entries, t, backups, process)
    ensures pre[g.path].owner == g.owner
  {
    var n := Dir(pre[g.path].mode, g.owner);
    assert g == Grant(g.path, n.owner);
    OneDrift(pre, grants, entries, g.path, n);
    ExactMeans(pre, grants, entries, pre[g.path := n], backups, process);
  }

  /** Exact restoration: rollback gives back the tree as it was from every stop if and only if its backups are there
      and nothing was there that the log does not record: special mode bits on targets or on the directories of
      generated files, targets of another owner for a process that is not root, directories of another owner than
      they are given. */
  lemma ExactFromEveryStop(pre: Tree, grants: set<Grant>, entries: seq<Entry>, backups: map<nat, string>,
      process: Owner)
    requires GoodLog(pre, entries)
    ensures (forall t :: Within(pre, grants, entries, t) ==> ExactAt(pre, entries, t, backups, process))
      <==> BackupsKept(entries, backups) && Undistorted(pre, grants, entries, process)
  {
    if BackupsKept(entries, backups) && Undistorted(pre, grants, entries, process) {
      forall t | Within(pre, grants, entries, t)
        ensures ExactAt(pre, entries, t, backups, process)
      {
        RollbackRestores(pre, grants, entries, t, backups, process);
        UndistortedFinal(pre, grants, entries, t, backups, process);
      }
    }
    if forall t :: Within(pre, grants, entries, t) ==> ExactAt(pre, entries, t, backups, process) {
      ExactEverywhere(pre, grants, entries, backups, process);
    }
  }

  lemma ExactEverywhere(pre: Tree, grants: set<Grant>, entries: seq<Entry>, backups: map<nat, string>, process: Owner)
    requires GoodLog(pre, entries)
    requires forall t :: Within(pre, grants, entries, t) ==> ExactAt(pre, entries, t, backups, process)
    ensures BackupsKept(entries, backups) && Undistorted(pre, grants, entries, process)
  {
    BeforeIsWithin(pre, grants, entries);
    ExactBackups(pre, grants, entries, pre, backups, process);
    forall q | FileParentBefore(pre, entries, q)
      ensures pre[q].mode < 0x200
    {
      ExactParent(pre, grants, entries, backups, process, q);
    }
    forall p | p in pre && IsTarget(entries, p)
      ensures pre[p].mode < 0x200 && (IsRoot(process) || OwnTarget(pre[p], process))
    {
      if pre[p].Dir? {
        ExactDir(pre, grants, entries, pre, backups, process, p);
      } else {
        TargetParent(pre, entries, p);
        ExactOwner(pre, grants, entries, pre, backups, process, p);
      }
    }
    forall g | g in grants && g.path in pre && pre[g.path].Dir?
      ensures pre[g.path].owner == g.owner
    {
      ExactGrant(pre, grants, entries, backups, process, g);
    }
  }

  /** The parent of an existing file target is the filesystem root or a directory of a file of the log. */
  lemma TargetParent(pre: Tree, entries: seq<Entry>, p: Path)
    requires GoodLog(pre, entries) && p in pre && IsTarget(entries, p) && pre[p].File?
    ensures p != [] && (Parent(p) == [] || FileParentBefore(pre, entries, Parent(p))) && [] !in pre
  {
    var k :| 0 <= k < |entries| && entries[k].target == p;
    assert Recorded(pre, entries[k]) && Hangs(pre, p);
    assert [] in pre ==> Hangs(pre, []);
    assert HoldsFile(entries[k], Parent(p));
  }

  /** At one single stop, where every directory of a file has lost its special bits, as after a complete apply: the same
      condition decides. */
  lemma ExactWhenWorn(pre: Tree, entries: seq<Entry>, t: Tree, backups: map<nat, string>, process: Owner)
    requires GoodLog(pre, entries) && Within(pre, {}, entries, t) && BackupsKept(entries, backups)
    requires forall q :: q in t && IsFileParent(entries, q) ==> t[q].mode < 0x200
    ensures ExactAt(pre, entries, t, backups, process) <==> Undistorted(pre, {}, entries, process)
  {
    if Undistorted(pre, {}, entries, process) {
      RollbackRestores(pre, {}, entries, t, backups, process);
      UndistortedFinal(pre, {}, entries, t, backups, process);
    }
    if ExactAt(pre, entries, t, backups, process) {
      ExactMeans(pre, {}, entries, t, backups, process);
      forall p | p in pre && IsTarget(entries, p)
        ensures pre[p].mode < 0x200 && (IsRoot(process) || OwnTarget(pre[p], process))
      {
        if pre[p].Dir? {
          ExactDir(pre, {}, entries, t, backups, process, p);
        } else {
          TargetParent(pre, entries, p);
          assert [] in t ==> Hangs(t, []);
          ExactOwner(pre, {}, entries, t, backups, process, p);
        }
      }
    }
  }

  // ---- Trees that are as before, but for what no log records

  /** What may have become of a node when nothing is left to undo; touched: a target or the directory of a file. */
  predicate Worn(a: Node, b: Node, touched: bool, p: Path, grants: set<Grant>) {
    && b == a.(mode := b.mode, owner := b.owner)
    && (OwnerKept(a, b, p, grants) || (touched && a.File?))
    && (b.mode == a.mode || (touched && b.mode == Perm(a.mode)))
  }

  /** t is pre, but for special mode bits and file owners of paths in touch, and owners of granted directories. */
  ghost predicate Faded(pre: Tree, touch: set<Path>, grants: set<Grant>, t: Tree) {
    t.Keys == pre.Keys && forall p :: p in pre ==> Worn(pre[p], t[p], p in touch, p, grants)
  }

  ghost predicate Touches(entries: seq<Entry>, touch: set<Path>) {
    forall p :: IsTarget(entries, p) || IsFileParent(entries, p) ==> p in touch
  }

  lemma FadedItself(t: Tree, touch: set<Path>, grants: set<Grant>)
    ensures Faded(t, touch, grants, t)
  {
  }

  /** What a complete rollback gives back. */
  lemma FinalFaded(pre: Tree, grants: set<Grant>, entries: seq<Entry>, t: Tree, backups: map<nat, string>,
      process: Owner, touch: set<Path>)
    requires GoodLog(pre, entries) && Within(pre, grants, entries, t) && AllUsable(t, backups, process, entries)
    requires Touches(entries, touch)
    ensures Faded(pre, touch, grants, Final(pre, backups, process, entries, t))
  {
    var f := Final(pre, backups, process, entries, t);
    forall p | p in pre
      ensures p in f && Worn(pre[p], f[p], p in touch, p, grants)
    {
      if IsTarget(entries, p) {
        var k :| 0 <= k < |entries| && entries[k].target == p;
        assert Recorded(pre, entries[k]) && Plausible(pre, grants, t, entries[k]);
        FinalAt(pre, backups, process, entries, t, k);
      } else {
        assert Outside(pre, grants, entries, t, p);
      }
    }
  }

  lemma FadedTidy(pre: Tree, touch: set<Path>, grants: set<Grant>, t: Tree)
    requires Tidy(pre) && Faded(pre, touch, grants, t)
    ensures Tidy(t)
  {
    forall p | p in t
      ensures Hangs(t, p)
    {
      assert Hangs(pre, p);
    }
  }

  /** A rollback step on such a tree leaves such a tree, also when its backup is lost. */
  lemma FadedStep(pre: Tree, touch: set<Path>, grants: set<Grant>, t: Tree, backups: map<nat, string>, process: Owner,
      e: Entry)
    requires Recorded(pre, e) && Faded(pre, touch, grants, t) && e.target in touch
    ensures Faded(pre, touch, grants, RollbackEntry(t, backups, process, e).tree)
  {
  }

  /** Once everything is back, a rollback that has lost any of its backups changes no more than what no log records. */
  lemma {:induction false} RollbackWhenRestored(pre: Tree, touch: set<Path>, grants: set<Grant>, entries: seq<Entry>,
      t: Tree, backups: map<nat, string>, process: Owner)
    requires Faded(pre, touch, grants, t) && Touches(entries, touch)
    requires forall i :: 0 <= i < |entries| ==> Recorded(pre, entries[i])
    ensures Faded(pre, touch, grants, Rollback(t, backups, process, entries).tree)
    decreases |entries|
  {
    if entries != [] {
      var n := |entries| - 1;
      assert IsTarget(entries, entries[n].target);
      FadedStep(pre, touch, grants, t, backups, process, entries[n]);
      TouchesFront(entries, touch);
      RollbackWhenRestored(pre, touch, grants, entries[..n], RollbackEntry(t, backups, process, entries[n]).tree,
        backups, process);
    }
  }

  lemma TouchesFront(entries: seq<Entry>, touch: set<Path>)
    requires entries != [] && Touches(entries, touch)
    ensures Touches(entries[..|entries| - 1], touch)
  {
    var front := entries[..|entries| - 1];
    forall p | IsTarget(front, p) || IsFileParent(front, p)
      ensures p in touch
    {
      if IsTarget(front, p) {
        var i :| 0 <= i < |front| && front[i].target == p;
        assert entries[i].target == p;
      } else {
        var i :| 0 <= i < |front| && HoldsFile(front[i], p);
        assert HoldsFile(entries[i], p);
      }
    }
  }
}
