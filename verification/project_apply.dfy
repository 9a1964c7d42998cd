/** Applying the project generator's log to the destinations, preparing owners, and rolling back, under faults. */
module ProjectApply {
  import opened Common
  import opened ProjectUndo
  import opened ProjectExact
  import opened ProjectLog

  /** Each target's parent is a directory already, or one the log creates: the ancestors of the mapped roots exist
      and a walk lists every directory above what it lists. */
  ghost predicate Rooted(pre: Tree, items: seq<Item>) {
    forall i :: 0 <= i < |items| ==> items[i].target != [] && ParentKnown(pre, items, items[i].target)
  }

  ghost predicate ParentKnown(pre: Tree, items: seq<Item>, p: Path)
    requires p != []
  {
    IsDir(pre, Parent(p)) || exists j :: 0 <= j < |items| && items[j].dir && items[j].target == Parent(p)
  }

  // ---- What is in place

  /** The directory of a promoted file: the process may change it, and it has no special mode bit. */
  predicate HomeReady(t: Tree, process: Owner, target: Path) {
    && target != [] && Parent(target) in t && t[Parent(target)].Dir?
    && t[Parent(target)].mode < 0x200 && MayChmod(t[Parent(target)], process)
  }

  /** Entry e is in place; the managed files in repaired have their own mode. */
  predicate AppliedAt(t: Tree, process: Owner, repaired: set<Path>, e: Entry) {
    && e.target in t && t[e.target].Dir? == e.DirEntry? && MayChmod(t[e.target], process)
    && t[e.target].mode == (if e.FileEntry? && e.target in repaired then 0x180 else Perm(e.desiredMode))
    && (e.FileEntry? ==> t[e.target].bytes == e.stagedDigest.of && HomeReady(t, process, e.target))
  }

  ghost predicate AppliedTo(t: Tree, process: Owner, repaired: set<Path>, entries: seq<Entry>, k: nat)
    requires k <= |entries|
  {
    forall j :: 0 <= j < k ==> AppliedAt(t, process, repaired, entries[j])
  }

  /** The owner of a new entry: the process, or for root the owner of the directory it is made in. */
  function NewOwner(t: Tree, target: Path, process: Owner): Owner
    requires target != []
  {
    if IsRoot(process) then OwnerAt(t, Parent(target)) else MadeOwner(t, Parent(target), process)
  }

  /** ownershipForReplacement: root keeps the owner of a file it replaces. */
  function ReplacedOwner(t: Tree, target: Path, process: Owner): Owner
    requires target != []
  {
    if IsRoot(process) && target in t then t[target].owner else NewOwner(t, target, process)
  }

  /** The directory of a file with its special bits gone, as EnsureDir leaves it. */
  function HomePlain(t: Tree, target: Path): Tree
    requires target != []
  {
    var q := Parent(target);
    if q in t then t[q := t[q].(mode := Perm(t[q].mode))] else t
  }

  /** Whose the target of e is once applied: directories keep their owner, files only when root replaces them. */
  predicate OwnerGiven(before: Tree, after: Tree, process: Owner, e: Entry)
    requires e.target in after && e.target != []
  {
    after[e.target].owner ==
      if e.FileEntry? then ReplacedOwner(HomePlain(before, e.target), e.target, process)
      else if e.target in before then before[e.target].owner
      else NewOwner(before, e.target, process)
  }

  /** Nothing keeps entry e from being applied. */
  predicate CanApply(t: Tree, stage: map<nat, string>, process: Owner, e: Entry) {
    if e.DirEntry? then e.target in t ==> MayChmod(t[e.target], process)
    else
      && StagedRight(stage, e) && e.target != [] && Parent(e.target) in t && MayChmod(t[Parent(e.target)], process)
  }

  predicate StagedRight(stage: map<nat, string>, e: Entry)
    requires e.FileEntry?
  {
    e.source in stage && Sha256(stage[e.source]) == e.stagedDigest
  }

  // ---- One write at a time

  /** One write of an apply: entry k's target becomes n. */
  method Place(host: ProjectHost, target: Path, n: Node, ghost pre: Tree, ghost grants: set<Grant>,
      ghost entries: seq<Entry>, ghost k: nat)
    returns (status: Status)
    requires GoodLog(pre, entries) && k < |entries| && entries[k].target == target && n.Dir? == entries[k].DirEntry?
    requires Within(pre, grants, entries, host.disk.tree) && Hangs(host.disk.tree, target)
    requires n.Dir? && target in host.disk.tree ==> n.owner == host.disk.tree[target].owner || target !in pre
    requires n.Dir? && target in pre ==> target in host.disk.tree && n.mode < 0x200
    modifies host
    ensures host.disk.txn == old(host.disk.txn) && Within(pre, grants, entries, host.disk.tree)
    ensures Hangs(host.disk.tree, target)
    ensures host.disk.tree in {old(host.disk.tree), old(host.disk.tree)[target := n]}
    ensures status.Done? ==> host.disk.tree == old(host.disk.tree)[target := n]
    ensures old(host.faults) == [] ==> host.faults == [] && status.Done?
  {
    PlaceWithin(pre, grants, entries, host.disk.tree, k, n);
    status := host.Do(host.disk.(tree := host.disk.tree[target := n]));
  }

  lemma PlaceWithin(pre: Tree, grants: set<Grant>, entries: seq<Entry>, t: Tree, k: nat, n: Node)
    requires GoodLog(pre, entries) && k < |entries| && n.Dir? == entries[k].DirEntry?
    requires Within(pre, grants, entries, t) && Hangs(t, entries[k].target)
    requires n.Dir? && entries[k].target in t ==> n.owner == t[entries[k].target].owner || entries[k].target !in pre
    requires n.Dir? && entries[k].target in pre ==> entries[k].target in t && n.mode < 0x200
    ensures Within(pre, grants, entries, t[entries[k].target := n])
    ensures Hangs(t[entries[k].target := n], entries[k].target)
  {
    assert Plausible(pre, grants, t, entries[k]) && Recorded(pre, entries[k]);
    TidyPut(t, entries[k].target, n);
    TargetStep(pre, grants, entries, t, t[entries[k].target := n], k);
  }

  /** A directory chmod between the entries' own writes: the home of file k. */
  lemma HomeWithin(pre: Tree, grants: set<Grant>, entries: seq<Entry>, t: Tree, k: nat)
    requires GoodLog(pre, entries) && k < |entries| && entries[k].FileEntry? && entries[k].target != []
    requires Within(pre, grants, entries, t) && Hangs(t, entries[k].target)
    ensures Within(pre, grants, entries, HomePlain(t, entries[k].target))
    ensures Hangs(HomePlain(t, entries[k].target), entries[k].target)
  {
    var q := Parent(entries[k].target);
    var t' := HomePlain(t, entries[k].target);
    if q in t {
      assert HoldsFile(entries[k], q);
      assert Hangs(t, q);
      PlainMode(t[q].mode);
      TidyPut(t, q, t'[q]);
      forall i | 0 <= i < |entries|
        ensures Plausible(pre, grants, t', entries[i])
      {
        assert Plausible(pre, grants, t, entries[i]);
      }
      forall p | !IsTarget(entries, p)
        ensures Outside(pre, grants, entries, t', p)
      {
        assert Outside(pre, grants, entries, t, p);
        if p == q && q in pre { PermTwice(pre[q].mode); }
      }
    }
  }

  lemma PermTwice(mode: nat)
    ensures Perm(Perm(mode)) == Perm(mode) < 0x200
  {
  }

  /** EnsureDir on a directory of the log. */
  method ApplyDir(host: ProjectHost, e: Entry, process: Owner, ghost pre: Tree, ghost grants: set<Grant>,
      ghost entries: seq<Entry>, ghost k: nat)
    returns (status: Status)
    requires host.disk.txn.Some? && GoodLog(pre, entries) && k < |entries| && entries[k] == e && e.DirEntry?
    requires Within(pre, grants, entries, host.disk.tree) && Hangs(host.disk.tree, e.target)
    modifies host
    ensures host.disk.txn == old(host.disk.txn) && Within(pre, grants, entries, host.disk.tree)
    ensures forall p :: p != e.target ==> SameAt(host.disk.tree, old(host.disk.tree), p)
    ensures status.Done? ==> AppliedAt(host.disk.tree, process, {}, e)
    ensures status.Done? ==> CanApply(old(host.disk.tree), host.disk.txn.value.stage, process, e)
    ensures status.Done? ==> OwnerGiven(old(host.disk.tree), host.disk.tree, process, e)
    ensures old(host.faults) == [] ==> host.faults == [] && !status.Crashed?
    ensures old(host.faults) == [] ==>
      (status.Done? <==> CanApply(old(host.disk.tree), host.disk.txn.value.stage, process, e))
  {
    var t, target, mode := host.disk.tree, e.target, Perm(e.desiredMode);
    assert Plausible(pre, grants, t, e) && Recorded(pre, e);
    PermTwice(e.desiredMode);
    if target in t {
      if !MayChmod(t[target], process) {
        return Failed;
      }
      status := Place(host, target, Dir(mode, t[target].owner), pre, grants, entries, k);     // chmod
      return;
    }
    var made, inherited := MadeOwner(t, Parent(target), process), OwnerAt(t, Parent(target));
    var made_mode := if Parent(target) in t && Setgid(t[Parent(target)].mode) then mode + SETGID else mode;
    status := Place(host, target, Dir(made_mode, made), pre, grants, entries, k);              // mkdir
    if !status.Done? {
      return;
    }
    status := Place(host, target, Dir(mode, made), pre, grants, entries, k);                   // chmod
    if status.Done? && IsRoot(process) {
      status := Place(host, target, Dir(mode, inherited), pre, grants, entries, k);            // chown
    }
  }

  /** The chmod of a file's directory that its promotion begins with. */
  method PrepareHome(host: ProjectHost, e: Entry, process: Owner, ghost pre: Tree, ghost grants: set<Grant>,
      ghost entries: seq<Entry>, ghost k: nat)
    returns (status: Status)
    requires GoodLog(pre, entries) && k < |entries| && entries[k] == e && e.FileEntry? && e.target != []
    requires Within(pre, grants, entries, host.disk.tree) && Hangs(host.disk.tree, e.target)
    modifies host
    ensures host.disk.txn == old(host.disk.txn) && Within(pre, grants, entries, host.disk.tree)
    ensures Hangs(host.disk.tree, e.target)
    ensures host.disk.tree in {old(host.disk.tree), HomePlain(old(host.disk.tree), e.target)}
    ensures status.Done? ==>
      host.disk.tree == HomePlain(old(host.disk.tree), e.target) && HomeReady(host.disk.tree, process, e.target)
    ensures status.Done? ==> MayChmod(old(host.disk.tree)[Parent(e.target)], process)
    ensures old(host.faults) == [] ==> host.faults == [] && !status.Crashed?
    ensures old(host.faults) == [] ==>
      (status.Done? <==> Parent(e.target) in old(host.disk.tree)
                         && MayChmod(old(host.disk.tree)[Parent(e.target)], process))
  {
    var t, q := host.disk.tree, Parent(e.target);
    assert q in t ==> Hangs(t, q);
    if q == [] || !MayChmod(t[q], process) {
      return Failed;
    }
    HomeWithin(pre, grants, entries, t, k);
    PlainMode(t[q].mode);
    status := host.Do(host.disk.(tree := HomePlain(t, e.target)));
  }

  /** WriteFileAtomicPreserveDir: the directory first, then the replacement. */
  method ApplyFile(host: ProjectHost, e: Entry, process: Owner, ghost pre: Tree, ghost grants: set<Grant>,
      ghost entries: seq<Entry>, ghost k: nat)
    returns (status: Status)
    requires host.disk.txn.Some? && GoodLog(pre, entries) && k < |entries| && entries[k] == e && e.FileEntry?
    requires Within(pre, grants, entries, host.disk.tree) && Hangs(host.disk.tree, e.target)
    modifies host
    ensures host.disk.txn == old(host.disk.txn) && Within(pre, grants, entries, host.disk.tree)
    ensures forall p :: p != e.target ==>
      || SameAt(host.disk.tree, old(host.disk.tree), p)
      || SameAt(host.disk.tree, HomePlain(old(host.disk.tree), e.target), p)
    ensures status.Done? ==> AppliedAt(host.disk.tree, process, {}, e)
    ensures status.Done? ==> OwnerGiven(old(host.disk.tree), host.disk.tree, process, e)
    ensures old(host.faults) == [] ==> host.faults == [] && !status.Crashed?
    ensures old(host.faults) == [] ==>
      (status.Done? <==> CanApply(old(host.disk.tree), host.disk.txn.value.stage, process, e))
  {
    var stage := host.disk.txn.value.stage;
    if e.source !in stage || Sha256(stage[e.source]) != e.stagedDigest {
      return Failed;
    }
    status := PrepareHome(host, e, process, pre, grants, entries, k);
    if !status.Done? {
      return;
    }
    PermTwice(e.desiredMode);
    var t := host.disk.tree;
    assert Plausible(pre, grants, t, e) && Recorded(pre, e);
    var n := File(stage[e.source], Perm(e.desiredMode), ReplacedOwner(t, e.target, process));
    FileOwned(t, e.target, process);
    assert t[e.target := n][Parent(e.target)] == t[Parent(e.target)];
    status := Place(host, e.target, n, pre, grants, entries, k);
    if status.Done? && Sha256(host.disk.tree[e.target].bytes) != e.stagedDigest {
      status := Failed;
    }
  }

  lemma FileOwned(t: Tree, target: Path, process: Owner)
    requires target != []
    ensures IsRoot(process) || ReplacedOwner(t, target, process).uid == process.uid
  {
  }

  // ---- applyTransaction

  /** One entry of applyTransaction. */
  method ApplyEntry(host: ProjectHost, e: Entry, process: Owner, ghost pre: Tree, ghost grants: set<Grant>,
      ghost entries: seq<Entry>, ghost k: nat)
    returns (status: Status)
    requires host.disk.txn.Some? && GoodLog(pre, entries) && k < |entries| && entries[k] == e
    requires Within(pre, grants, entries, host.disk.tree) && Hangs(host.disk.tree, e.target)
    modifies host
    ensures host.disk.txn == old(host.disk.txn) && Within(pre, grants, entries, host.disk.tree)
    ensures forall p :: p != e.target ==> Untouched(old(host.disk.tree), host.disk.tree, e, p)
    ensures status.Done? ==>
      AppliedAt(host.disk.tree, process, {}, e) && OwnerGiven(old(host.disk.tree), host.disk.tree, process, e)
    ensures old(host.faults) == [] ==> host.faults == [] && !status.Crashed?
    ensures old(host.faults) == [] ==>
      (status.Done? <==> CanApply(old(host.disk.tree), host.disk.txn.value.stage, process, e))
  {
    if e.DirEntry? {
      status := ApplyDir(host, e, process, pre, grants, entries, k);
    } else {
      status := ApplyFile(host, e, process, pre, grants, entries, k);
    }
  }

  /** What applying e leaves of another place: all of it, or a file's directory without its special bits. */
  predicate Untouched(before: Tree, after: Tree, e: Entry, p: Path)
    requires e.target != []
  {
    SameAt(after, before, p) || (e.FileEntry? && SameAt(after, HomePlain(before, e.target), p))
  }

  lemma UntouchedMode(before: Tree, after: Tree, e: Entry, p: Path)
    requires e.target != [] && Untouched(before, after, e, p)
    ensures p in after <==> p in before
    ensures p in after ==> after[p] == before[p].(mode := after[p].mode)
    ensures p in after ==> after[p].mode in {before[p].mode, Perm(before[p].mode)}
  {
  }

  /** Applying entry k leaves the earlier ones in place. */
  lemma StaysApplied(pre: Tree, before: Tree, after: Tree, process: Owner, entries: seq<Entry>, k: nat, j: nat)
    requires GoodLog(pre, entries) && j < k < |entries| && AppliedAt(before, process, {}, entries[j])
    requires entries[k].target != []
    requires entries[k].target in before ==> before[entries[k].target].Dir? == entries[k].DirEntry?
    requires forall p :: p != entries[k].target ==> Untouched(before, after, entries[k], p)
    ensures AppliedAt(after, process, {}, entries[j])
  {
    var e := entries[j];
    assert InOrder(entries[j], entries[k]) && e.target != entries[k].target;
    UntouchedMode(before, after, entries[k], e.target);
    PermTwice(e.desiredMode);
    if e.FileEntry? {
      var q := Parent(e.target);
      assert before[q].Dir?;
      PlainMode(before[q].mode);
      UntouchedMode(before, after, entries[k], q);
    } else if entries[k].FileEntry? {
      AppliedDirMode(before, after, process, e, entries[k]);
    }
  }

  lemma AppliedDirMode(before: Tree, after: Tree, process: Owner, d: Entry, e: Entry)
    requires d.DirEntry? && AppliedAt(before, process, {}, d) && e.target != [] && Untouched(before, after, e, d.target)
    ensures d.target in after && after[d.target].mode == Perm(d.desiredMode)
  {
    PermTwice(d.desiredMode);
  }

  lemma AppliedMore(pre: Tree, before: Tree, after: Tree, process: Owner, entries: seq<Entry>, k: nat)
    requires GoodLog(pre, entries) && k < |entries| && AppliedTo(before, process, {}, entries, k)
    requires AppliedAt(after, process, {}, entries[k])
    requires entries[k].target != []
    requires entries[k].target in before ==> before[entries[k].target].Dir? == entries[k].DirEntry?
    requires forall p :: p != entries[k].target ==> Untouched(before, after, entries[k], p)
    ensures AppliedTo(after, process, {}, entries, k + 1)
  {
    forall j | 0 <= j < k
      ensures AppliedAt(after, process, {}, entries[j])
    {
      StaysApplied(pre, before, after, process, entries, k, j);
    }
  }

  /** When entry k's turn comes its parent is there. */
  lemma ParentReady(pre: Tree, grants: set<Grant>, secrets: Path, items: seq<Item>, process: Owner,
      entries: seq<Entry>, t: Tree, k: nat)
    requires LogFor(pre, secrets, items, entries) && Rooted(pre, items) && Within(pre, grants, entries, t)
    requires k < |entries| && AppliedTo(t, process, {}, entries, k)
    ensures Hangs(t, entries[k].target)
  {
    assert FromItem(pre, secrets, items, entries[k]);
    var i :| 0 <= i < |items| && Describes(pre, secrets, items, i, entries[k]);
    var q := Parent(entries[k].target);
    if IsDir(pre, q) {
      if q != [] { DirStays(pre, grants, entries, t, q); }
    } else {
      assert ParentKnown(pre, items, items[i].target);
      var h :| 0 <= h < |items| && items[h].dir && items[h].target == q;
      assert HasEntry(pre, secrets, items, h, entries);
      var j :| 0 <= j < |entries| && Describes(pre, secrets, items, h, entries[j]);
      DirFirst(entries, j, k, q);
      assert AppliedAt(t, process, {}, entries[j]);
    }
  }

  /** The directory of an entry comes before it. */
  lemma DirFirst(entries: seq<Entry>, j: nat, k: nat, q: Path)
    requires Ordered(entries) && j < |entries| && k < |entries| && entries[j].DirEntry? && entries[j].target == q
    requires entries[k].target != [] && Parent(entries[k].target) == q
    ensures j < k
  {
    assert !InOrder(entries[k], entries[j]);
  }

  predicate StageRight(stage: map<nat, string>, entries: seq<Entry>) {
    forall k :: 0 <= k < |entries| && entries[k].FileEntry? ==> StagedRight(stage, entries[k])
  }

  /** The process may change every directory that a promotion will: existing targets, and the directories of files. */
  ghost predicate Promotable(pre: Tree, entries: seq<Entry>, process: Owner) {
    forall k :: 0 <= k < |entries| ==> PromotableAt(pre, entries[k], process)
  }

  predicate PromotableAt(pre: Tree, e: Entry, process: Owner) {
    if e.DirEntry? then e.target in pre ==> MayChmod(pre[e.target], process)
    else |e.target| >= 2 && (Parent(e.target) in pre ==> MayChmod(pre[Parent(e.target)], process))
  }

  /** The owner of a directory that was there does not change while the log is applied. */
  lemma SameOwner(pre: Tree, entries: seq<Entry>, t: Tree, q: Path)
    requires GoodLog(pre, entries) && Within(pre, {}, entries, t) && q in pre && pre[q].Dir?
    ensures q in t && t[q].owner == pre[q].owner
  {
    DirStays(pre, {}, entries, t, q);
  }

  /** Entry k can be applied exactly when its stage file is right and the process may change its directories. */
  lemma CanApplyIff(pre: Tree, secrets: Path, items: seq<Item>, process: Owner, entries: seq<Entry>, t: Tree,
      stage: map<nat, string>, k: nat)
    requires LogFor(pre, secrets, items, entries) && Rooted(pre, items) && Within(pre, {}, entries, t)
    requires k < |entries| && AppliedTo(t, process, {}, entries, k)
    requires entries[k].DirEntry? ==> SameAt(t, pre, entries[k].target)
    ensures CanApply(t, stage, process, entries[k])
      <==> PromotableAt(pre, entries[k], process) && (entries[k].FileEntry? ==> StagedRight(stage, entries[k]))
  {
    var e := entries[k];
    ParentReady(pre, {}, secrets, items, process, entries, t, k);
    assert Recorded(pre, e) && Plausible(pre, {}, t, e);
    if e.FileEntry? {
      var q := Parent(e.target);
      assert [] in t ==> Hangs(t, []);
      if q in pre {
        HomeWasDir(pre, secrets, items, entries, k);
        SameOwner(pre, entries, t, q);
      } else if q != [] {
        HomeIsNew(pre, secrets, items, process, entries, t, k);
      }
    }
  }

  /** Where a file goes there is a directory, or will be. */
  lemma HomeWasDir(pre: Tree, secrets: Path, items: seq<Item>, entries: seq<Entry>, k: nat)
    requires LogFor(pre, secrets, items, entries) && Rooted(pre, items) && k < |entries| && entries[k].target != []
    requires Parent(entries[k].target) in pre
    ensures pre[Parent(entries[k].target)].Dir?
  {
    assert FromItem(pre, secrets, items, entries[k]);
    var i :| 0 <= i < |items| && Describes(pre, secrets, items, i, entries[k]);
    var q := Parent(entries[k].target);
    assert ParentKnown(pre, items, items[i].target);
    assert q in pre ==> Hangs(pre, q);
    forall h | 0 <= h < |items| && items[h].dir && items[h].target == q
      ensures pre[q].Dir?
    {
      assert HasEntry(pre, secrets, items, h, entries);
      var j :| 0 <= j < |entries| && Describes(pre, secrets, items, h, entries[j]);
    }
  }

  /** A directory that was not there is one of this log, applied before. */
  lemma HomeIsNew(pre: Tree, secrets: Path, items: seq<Item>, process: Owner, entries: seq<Entry>, t: Tree, k: nat)
    requires LogFor(pre, secrets, items, entries) && Rooted(pre, items) && k < |entries| && entries[k].target != []
    requires AppliedTo(t, process, {}, entries, k)
    requires Parent(entries[k].target) !in pre && Parent(entries[k].target) != []
    ensures Parent(entries[k].target) in t && MayChmod(t[Parent(entries[k].target)], process)
  {
    assert FromItem(pre, secrets, items, entries[k]);
    var i :| 0 <= i < |items| && Describes(pre, secrets, items, i, entries[k]);
    var q := Parent(entries[k].target);
    assert ParentKnown(pre, items, items[i].target);
    var h :| 0 <= h < |items| && items[h].dir && items[h].target == q;
    assert HasEntry(pre, secrets, items, h, entries);
    var j :| 0 <= j < |entries| && Describes(pre, secrets, items, h, entries[j]);
    DirFirst(entries, j, k, q);
    assert AppliedAt(t, process, {}, entries[j]);
  }

  /** The directories whose turn has not come are as they were. */
  ghost predicate DirsPending(pre: Tree, entries: seq<Entry>, t: Tree, k: nat) {
    forall j :: k <= j < |entries| && entries[j].DirEntry? ==> SameAt(t, pre, entries[j].target)
  }

  lemma StillPending(pre: Tree, before: Tree, after: Tree, entries: seq<Entry>, k: nat)
    requires GoodLog(pre, entries) && k < |entries| && entries[k].target != [] && DirsPending(pre, entries, before, k)
    requires forall p :: p != entries[k].target ==> Untouched(before, after, entries[k], p)
    ensures DirsPending(pre, entries, after, k + 1)
  {
    forall j | k + 1 <= j < |entries| && entries[j].DirEntry?
      ensures SameAt(after, pre, entries[j].target)
    {
      assert InOrder(entries[k], entries[j]) && entries[k].target != entries[j].target;
      assert Untouched(before, after, entries[k], entries[j].target);
    }
  }

  /** applyTransaction: whatever happens, the tree stays one that rollback inverts; undisturbed it succeeds exactly when
      the stage is right and the process may change the directories. */
  method ApplyTransaction(host: ProjectHost, entries: seq<Entry>, process: Owner, ghost pre: Tree,
      ghost secrets: Path, ghost items: seq<Item>)
    returns (status: Status)
    requires host.disk.txn.Some? && LogFor(pre, secrets, items, entries) && Rooted(pre, items)
    requires host.disk.tree == pre
    modifies host
    ensures host.disk.txn == old(host.disk.txn) && Within(pre, {}, entries, host.disk.tree)
    ensures status.Done? ==> AppliedTo(host.disk.tree, process, {}, entries, |entries|)
    ensures status.Done? ==> Promotable(pre, entries, process)
    ensures old(host.faults) == [] ==> host.faults == [] && !status.Crashed?
    ensures old(host.faults) == [] && StageRight(host.disk.txn.value.stage, entries) ==>
      (status.Done? <==> Promotable(pre, entries, process))
  {
    BeforeIsWithin(pre, {}, entries);
    for k := 0 to |entries|
      invariant host.disk.txn == old(host.disk.txn) && Within(pre, {}, entries, host.disk.tree)
      invariant AppliedTo(host.disk.tree, process, {}, entries, k) && DirsPending(pre, entries, host.disk.tree, k)
      invariant forall j :: 0 <= j < k ==> PromotableAt(pre, entries[j], process)
      invariant old(host.faults) == [] ==> host.faults == []
    {
      ParentReady(pre, {}, secrets, items, process, entries, host.disk.tree, k);
      CanApplyIff(pre, secrets, items, process, entries, host.disk.tree, host.disk.txn.value.stage, k);
      ghost var before := host.disk.tree;
      assert Plausible(pre, {}, before, entries[k]);
      status := ApplyEntry(host, entries[k], process, pre, {}, entries, k);
      if !status.Done? {
        return;
      }
      AppliedMore(pre, before, host.disk.tree, process, entries, k);
      StillPending(pre, before, host.disk.tree, entries, k);
      AppliedPromotable(pre, secrets, items, process, entries, host.disk.tree, k);
    }
    status := Done;
  }

  /** What was applied was promotable. */
  lemma AppliedPromotable(pre: Tree, secrets: Path, items: seq<Item>, process: Owner, entries: seq<Entry>, t: Tree,
      k: nat)
    requires LogFor(pre, secrets, items, entries) && Rooted(pre, items) && Within(pre, {}, entries, t)
    requires k < |entries| && AppliedAt(t, process, {}, entries[k])
    ensures PromotableAt(pre, entries[k], process)
  {
    var e := entries[k];
    assert Recorded(pre, e);
    if e.DirEntry? {
      if e.target in pre { SameOwner(pre, entries, t, e.target); }
    } else {
      var q := Parent(e.target);
      assert [] in t ==> Hangs(t, []);
      if q in pre {
        HomeWasDir(pre, secrets, items, entries, k);
        SameOwner(pre, entries, t, q);
      }
    }
  }

  // ---- Owners and modes of managed files and volumes

  /** A repaired file is one of the log, or not there. */
  ghost predicate Repairable(pre: Tree, entries: seq<Entry>, repairs: seq<Path>) {
    forall r :: r in repairs ==> IsTarget(entries, r) || !(r in pre && pre[r].File?)
  }

  function SetOf(paths: seq<Path>): set<Path> {
    set p | p in paths
  }

  lemma {:induction false} RepairTarget(pre: Tree, entries: seq<Entry>, t: Tree, repairs: seq<Path>, r: Path)
    returns (k: nat)
    requires GoodLog(pre, entries) && Within(pre, {}, entries, t) && Repairable(pre, entries, repairs)
    requires r in repairs && r in t && t[r].File?
    ensures k < |entries| && entries[k].target == r && entries[k].FileEntry? && Hangs(t, r)
  {
    assert !IsTarget(entries, r) ==> Outside(pre, {}, entries, t, r);
    k :| 0 <= k < |entries| && entries[k].target == r;
    assert Plausible(pre, {}, t, entries[k]) && Hangs(t, r);
  }

  lemma RepairedMore(before: Tree, after: Tree, process: Owner, repaired: set<Path>, entries: seq<Entry>, k: nat)
    requires Distinct(entries) && k < |entries| && entries[k].FileEntry?
    requires AppliedTo(before, process, repaired, entries, |entries|)
    requires entries[k].target in before && entries[k].target in after
    requires after[entries[k].target].File? && after[entries[k].target].bytes == before[entries[k].target].bytes
    requires after[entries[k].target].mode == 0x180 && MayChmod(after[entries[k].target], process)
    requires forall p :: p != entries[k].target ==> SameAt(after, before, p)
    ensures AppliedTo(after, process, repaired + {entries[k].target}, entries, |entries|)
  {
    forall j | 0 <= j < |entries|
      ensures AppliedAt(after, process, repaired + {entries[k].target}, entries[j])
    {
      assert AppliedAt(before, process, repaired, entries[j]);
      assert AppliedAt(before, process, repaired, entries[k]);
      if j < k { assert entries[j].target != entries[k].target; }
      if k < j { assert entries[k].target != entries[j].target; }
      assert j != k ==> SameAt(after, before, entries[j].target);
      if entries[j].FileEntry? { assert SameAt(after, before, Parent(entries[j].target)); }
    }
  }

  predicate SameDirs(before: Tree, after: Tree) {
    forall p :: p in before && before[p].Dir? ==> p in after && after[p] == before[p]
  }

  /** RepairRegularFileMetadataAt: mode 0600, then the owner if the process is root. */
  method RepairFile(host: ProjectHost, r: Path, managed: Owner, process: Owner, ghost pre: Tree,
      ghost entries: seq<Entry>, ghost repairs: seq<Path>, ghost repaired: set<Path>)
    returns (status: Status)
    requires GoodLog(pre, entries) && Within(pre, {}, entries, host.disk.tree)
    requires Repairable(pre, entries, repairs) && r in repairs
    requires AppliedTo(host.disk.tree, process, repaired, entries, |entries|)
    modifies host
    ensures host.disk.txn == old(host.disk.txn) && Within(pre, {}, entries, host.disk.tree)
    ensures status.Done? ==> AppliedTo(host.disk.tree, process, repaired + {r}, entries, |entries|)
    ensures forall p :: p in host.disk.tree <==> p in old(host.disk.tree)
    ensures forall p :: p in host.disk.tree ==> host.disk.tree[p].File? == old(host.disk.tree)[p].File?
    ensures SameDirs(old(host.disk.tree), host.disk.tree)
    ensures old(host.faults) == [] ==> host.faults == [] && !status.Crashed?
    ensures old(host.faults) == [] ==> (status.Done? <==> r in old(host.disk.tree) && old(host.disk.tree)[r].File?)
  {
    var t := host.disk.tree;
    if r !in t || t[r].Dir? {
      return Failed;
    }
    ghost var k := RepairTarget(pre, entries, t, repairs, r);
    assert AppliedAt(t, process, repaired, entries[k]);
    var n := t[r].(mode := 0x180);
    status := Place(host, r, n, pre, {}, entries, k);               // chmod
    if status.Done? && IsRoot(process) {
      n := n.(owner := managed);
      status := Place(host, r, n, pre, {}, entries, k);             // chown
    }
    if status.Done? { RepairedMore(t, host.disk.tree, process, repaired, entries, k); }
  }

  /** repairTransactionManagedFileOwnership */
  method RepairFiles(host: ProjectHost, repairs: seq<Path>, managed: Owner, process: Owner, ghost pre: Tree,
      ghost entries: seq<Entry>)
    returns (status: Status)
    requires GoodLog(pre, entries) && Within(pre, {}, entries, host.disk.tree)
    requires Repairable(pre, entries, repairs)
    requires AppliedTo(host.disk.tree, process, {}, entries, |entries|)
    modifies host
    ensures host.disk.txn == old(host.disk.txn) && Within(pre, {}, entries, host.disk.tree)
    ensures status.Done? ==>
      AppliedTo(host.disk.tree, process, SetOf(repairs), entries, |entries|)
    ensures SameDirs(old(host.disk.tree), host.disk.tree)
    ensures old(host.faults) == [] ==> host.faults == [] && !status.Crashed?
    ensures old(host.faults) == [] ==>
      (status.Done? <==> forall r :: r in repairs ==> r in old(host.disk.tree) && old(host.disk.tree)[r].File?)
  {
    ghost var repaired: set<Path> := {};
    for i := 0 to |repairs|
      invariant host.disk.txn == old(host.disk.txn) && Within(pre, {}, entries, host.disk.tree)
      invariant repaired == SetOf(repairs[..i])
      invariant AppliedTo(host.disk.tree, process, repaired, entries, |entries|)
      invariant forall p :: p in host.disk.tree <==> p in old(host.disk.tree)
      invariant forall p :: p in host.disk.tree ==> host.disk.tree[p].File? == old(host.disk.tree)[p].File?
      invariant SameDirs(old(host.disk.tree), host.disk.tree)
      invariant old(host.faults) == [] ==> host.faults == []
      invariant old(host.faults) == [] ==>
        forall r :: r in repairs[..i] ==> r in old(host.disk.tree) && old(host.disk.tree)[r].File?
    {
      status := RepairFile(host, repairs[i], managed, process, pre, entries, repairs, repaired);
      if !status.Done? {
        return;
      }
      repaired := repaired + {repairs[i]};
      assert repairs[..i + 1] == repairs[..i] + [repairs[i]];
    }
    assert repairs[..|repairs|] == repairs;
    status := Done;
  }

  /** What volume preparation may have given away: nothing unless the process is root. */
  function Granted(process: Owner, volumes: seq<Grant>): set<Grant> {
    if IsRoot(process) then set g | g in volumes else {}
  }

  lemma WithinMore(pre: Tree, few: set<Grant>, many: set<Grant>, entries: seq<Entry>, t: Tree)
    requires Within(pre, few, entries, t) && few <= many
    ensures Within(pre, many, entries, t)
  {
    forall i | 0 <= i < |entries|
      ensures Plausible(pre, many, t, entries[i])
    {
      assert Plausible(pre, few, t, entries[i]);
    }
    forall p | !IsTarget(entries, p)
      ensures Outside(pre, many, entries, t, p)
    {
      assert Outside(pre, few, entries, t, p);
    }
  }

  /** The tree after a chown. */
  function GivenTo(t: Tree, p: Path, owner: Owner): Tree
    requires p in t
  {
    t[p := t[p].(owner := owner)]
  }

  lemma GrantStep(pre: Tree, grants: set<Grant>, process: Owner, repaired: set<Path>, entries: seq<Entry>, t: Tree,
      g: Grant)
    requires GoodLog(pre, entries) && Within(pre, grants, entries, t) && g in grants && IsRoot(process)
    requires g.path in t && t[g.path].Dir? && AppliedTo(t, process, repaired, entries, |entries|)
    ensures Within(pre, grants, entries, GivenTo(t, g.path, g.owner))
    ensures AppliedTo(GivenTo(t, g.path, g.owner), process, repaired, entries, |entries|)
  {
    var t' := GivenTo(t, g.path, g.owner);
    assert g == Grant(g.path, g.owner) && Hangs(t, g.path);
    TidyPut(t, g.path, t'[g.path]);
    forall i | 0 <= i < |entries|
      ensures Plausible(pre, grants, t', entries[i])
      ensures AppliedAt(t', process, repaired, entries[i])
    {
      assert Plausible(pre, grants, t, entries[i]) && AppliedAt(t, process, repaired, entries[i]);
    }
    forall p | !IsTarget(entries, p)
      ensures Outside(pre, grants, entries, t', p)
    {
      assert Outside(pre, grants, entries, t, p);
    }
  }

  /** applyVolumeOwnership: a volume whose directory cannot be given away is only warned about. */
  method GrantVolumes(host: ProjectHost, volumes: seq<Grant>, process: Owner, ghost pre: Tree,
      ghost entries: seq<Entry>, ghost repaired: set<Path>)
    returns (status: Status)
    requires GoodLog(pre, entries) && Within(pre, {}, entries, host.disk.tree)
    requires AppliedTo(host.disk.tree, process, repaired, entries, |entries|)
    modifies host
    ensures host.disk.txn == old(host.disk.txn)
    ensures Within(pre, Granted(process, volumes), entries, host.disk.tree)
    ensures status.Done? ==> AppliedTo(host.disk.tree, process, repaired, entries, |entries|)
    ensures old(host.faults) == [] ==> host.faults == [] && status.Done?
  {
    ghost var grants := Granted(process, volumes);
    WithinMore(pre, {}, grants, entries, host.disk.tree);
    for i := 0 to |volumes|
      invariant host.disk.txn == old(host.disk.txn) && Within(pre, grants, entries, host.disk.tree)
      invariant AppliedTo(host.disk.tree, process, repaired, entries, |entries|)
      invariant old(host.faults) == [] ==> host.faults == []
    {
      var g := volumes[i];
      status := host.Do(host.disk);  // the volume's path and the root it belongs to
      if !status.Done? {
        return;
      }
      var t := host.disk.tree;
      if IsRoot(process) && g.path in t && t[g.path].Dir? {
        GrantStep(pre, grants, process, repaired, entries, t, g);
        status := host.Do(host.disk.(tree := GivenTo(t, g.path, g.owner)));
        if status.Crashed? {
          return;
        }
      }
    }
    status := Done;
  }

  // ---- rollbackTransaction

  /** A log of one entry that can be undone, in a process that dies two steps after that. */
  ghost predicate OneStepLeft(faults: seq<Fault>, t: Tree, backups: map<nat, string>, process: Owner,
      entries: seq<Entry>)
  {
    faults == [Run, Run, Crash] && |entries| == 1 && AllUsable(t, backups, process, entries)
  }

  /** rollbackTransaction: errors are collected and the remaining entries still undone; only a crash stops it. */
  method RollbackTransaction(host: ProjectHost, entries: seq<Entry>, process: Owner, ghost pre: Tree,
      ghost touch: set<Path>, ghost grants: set<Grant>)
    returns (status: Status)
    requires host.disk.txn.Some? && GoodLog(pre, entries) && Within(pre, grants, entries, host.disk.tree)
    requires Touches(entries, touch)
    modifies host
    ensures host.disk.txn == old(host.disk.txn) && Within(pre, grants, entries, host.disk.tree)
    ensures Faded(pre, touch, grants, old(host.disk.tree)) ==> Faded(pre, touch, grants, host.disk.tree)
    ensures status.Done? ==>
      && AllUsable(old(host.disk.tree), host.disk.txn.value.backups, process, entries)
      && host.disk.tree == Final(pre, host.disk.txn.value.backups, process, entries, old(host.disk.tree))
    ensures old(host.faults) == [] ==> host.faults == [] && !status.Crashed?
    ensures old(host.faults) == [] ==>
      Rollback(old(host.disk.tree), host.disk.txn.value.backups, process, entries)
        == Outcome(host.disk.tree, status.Done?)
    ensures OneStepLeft(old(host.faults), old(host.disk.tree), host.disk.txn.value.backups, process, entries) ==>
      status.Done? && host.faults == [Run, Crash]
  {
    ghost var last := OneStepLeft(host.faults, host.disk.tree, host.disk.txn.value.backups, process, entries);
    var index, ok := |entries|, true;
    var backups := host.disk.txn.value.backups;
    ghost var t0 := host.disk.tree;
    assert entries[..index] == entries;
    RollingStart(pre, grants, backups, process, entries, t0);
    while index > 0
      invariant 0 <= index <= |entries| && host.disk.txn == old(host.disk.txn)
      invariant Within(pre, grants, entries, host.disk.tree)
      invariant Faded(pre, touch, grants, t0) ==> Faded(pre, touch, grants, host.disk.tree)
      invariant ok ==> Rolling(pre, grants, backups, process, entries, t0, host.disk.tree, index)
      invariant ok ==> forall j :: index <= j < |entries| ==> Usable(t0, backups, process, entries[j])
      invariant last ==> ok && host.faults == if index == 1 then [Run, Run, Crash] else [Run, Crash]
      invariant old(host.faults) == [] ==> host.faults == []
      invariant old(host.faults) == [] ==>
        var rest := Rollback(host.disk.tree, backups, process, entries[..index]);
        Rollback(t0, backups, process, entries) == Outcome(rest.tree, ok && rest.ok)
    {
      index := index - 1;
      assert entries[..index + 1][..index] == entries[..index];
      var r := RollbackEntry(host.disk.tree, backups, process, entries[index]);
      RollbackTurn(pre, touch, grants, entries, host.disk.tree, backups, process, index);
      if ok { RollingStep(pre, grants, backups, process, entries, t0, host.disk.tree, index); }
      if r.ok {
        status := host.Do(host.disk.(tree := r.tree));
        if status.Crashed? {
          return;
        }
        ok := ok && status.Done?;
      } else {
        ok := false;
      }
    }
    if ok { RollingDone(pre, grants, backups, process, entries, t0, host.disk.tree); }
    status := if ok then Done else Failed;
  }

  lemma RollbackTurn(pre: Tree, touch: set<Path>, grants: set<Grant>, entries: seq<Entry>, t: Tree,
      backups: map<nat, string>, process: Owner, index: nat)
    requires GoodLog(pre, entries) && Within(pre, grants, entries, t) && index < |entries| && Touches(entries, touch)
    ensures var r := RollbackEntry(t, backups, process, entries[index]);
      && Within(pre, grants, entries, r.tree) && (!r.ok ==> r.tree == t)
      && (Faded(pre, touch, grants, t) ==> Faded(pre, touch, grants, r.tree))
  {
    RollbackStep(pre, grants, entries, t, backups, process, index);
    assert IsTarget(entries, entries[index].target);
    if Faded(pre, touch, grants, t) { FadedStep(pre, touch, grants, t, backups, process, entries[index]); }
  }
}
