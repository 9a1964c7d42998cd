/** Where a restore stands: the managed trees after k promoted files, and part of the next one. */
module RestorePlan {
  import opened Common
  import opened RestoreJournal
  import opened RestoreDisk

  type RelativePath = p: Path | p != [] witness ["file"]

  datatype Staged = Staged(root: Root, target: RelativePath, node: Node)

  /** One restore: its journal header, the trees before it and the staged files in promotion order. */
  datatype RestoreRun = RestoreRun(header: Header, pre: Tree, plan: seq<Staged>)

  function Txn(header: Header): string {
    ".sdbx-restore-" + header.id
  }

  function Target(s: Staged): Loc {
    Loc(s.root, s.target)
  }

  function Stage(run: RestoreRun, i: nat): Loc
    requires i < |run.plan|
  {
    StageLoc(Txn(run.header), run.plan[i].root, run.plan[i].target)
  }

  function Slot(run: RestoreRun, i: nat): Loc
    requires i < |run.plan|
  {
    RollbackLoc(Txn(run.header), run.plan[i].root, run.plan[i].target)
  }

  function DirectoryMode(root: Root): nat {
    if root.Secrets? then 0x1C0 else 0x1ED  // 0700, 0755
  }

  /** missingRestoreDirectories: the absent directories from the nearest existing one down to p. */
  function Missing(m: Tree, root: Root, p: Path): seq<Path> {
    if p == [] || Loc(root, p) in m then [] else Missing(m, root, RestoreJournal.Dir(p)) + [p]
  }

  function WithDirs(m: Tree, root: Root, dirs: seq<Path>): Tree {
    if dirs == [] then m
    else WithDirs(m, root, dirs[..|dirs| - 1])[Loc(root, dirs[|dirs| - 1]) := Node.Dir(DirectoryMode(root))]
  }

  function Promoted(m: Tree, s: Staged): Tree {
    WithDirs(m, s.root, Missing(m, s.root, RestoreJournal.Dir(s.target)))[Target(s) := s.node]
  }

  /** Targets are valid, outside the transaction directory, and none is another or below another. */
  ghost predicate GoodPlan(run: RestoreRun) {
    && Tidy(run.pre) && Managed(run.pre, Txn(run.header)) == run.pre
    && |run.plan| <= MAX_RESTORE_ENTRIES
    && HeaderAccepted(HeaderRecord(JOURNAL_VERSION, run.header), run.header.project)
    && (forall i {:trigger EntryAccepted(run.header, run.plan[i])} :: 0 <= i < |run.plan| ==>
         EntryAccepted(run.header, run.plan[i]))
    && Separated(run.plan)
  }

  /** What archive validation guarantees of one entry. */
  predicate EntryAccepted(header: Header, s: Staged) {
    ValidRelative(s.target) && s.target[0] != Txn(header) && s.node.File?
  }

  ghost predicate Separated(plan: seq<Staged>) {
    forall i, j {:trigger Apart(plan, i, j)} :: 0 <= i < |plan| && 0 <= j < |plan| && i != j ==> Apart(plan, i, j)
  }

  /** Entry j is not at or below entry i. */
  predicate Apart(plan: seq<Staged>, i: nat, j: nat)
    requires i < |plan| && j < |plan|
  {
    plan[i].root == plan[j].root ==> !(plan[i].target <= plan[j].target)
  }

  /** The plan's conditions spelt out. */
  lemma PlanFacts(run: RestoreRun)
    requires GoodPlan(run)
    ensures forall i :: 0 <= i < |run.plan| ==>
      ValidRelative(run.plan[i].target) && run.plan[i].target[0] != Txn(run.header) && run.plan[i].node.File?
    ensures forall i, j ::
      0 <= i < |run.plan| && 0 <= j < |run.plan| && i != j && run.plan[i].root == run.plan[j].root ==>
        !(run.plan[i].target <= run.plan[j].target)
  {
    forall i | 0 <= i < |run.plan|
      ensures ValidRelative(run.plan[i].target) && run.plan[i].target[0] != Txn(run.header) && run.plan[i].node.File?
    {
      assert EntryAccepted(run.header, run.plan[i]);
    }
    forall i, j | 0 <= i < |run.plan| && 0 <= j < |run.plan| && i != j && run.plan[i].root == run.plan[j].root
      ensures !(run.plan[i].target <= run.plan[j].target)
    {
      assert Apart(run.plan, i, j);
    }
  }

  /** The managed trees once the first k staged files are in place. */
  function Level(run: RestoreRun, k: nat): Tree
    requires k <= |run.plan|
  {
    if k == 0 then run.pre else Promoted(Level(run, k - 1), run.plan[k - 1])
  }

  predicate Existed(run: RestoreRun, k: nat)
    requires k < |run.plan|
  {
    Target(run.plan[k]) in run.pre
  }

  ghost function Created(run: RestoreRun, k: nat): seq<Path>
    requires k < |run.plan|
  {
    Missing(Level(run, k), run.plan[k].root, RestoreJournal.Dir(run.plan[k].target))
  }

  /** Progress inside one promotion: j of its directories made, or its original moved to the rollback slot. */
  datatype Local = MakingDirs(made: nat) | Moved

  /** k files fully in place and the k-th in progress; file k just placed is (k + 1, MakingDirs(0)). */
  datatype Position = Position(k: nat, local: Local)

  ghost predicate ValidPosition(run: RestoreRun, p: Position) {
    && p.k <= |run.plan|
    && (p.k == |run.plan| ==> p.local == MakingDirs(0))
    && (p.k < |run.plan| ==> if p.local.Moved? then Existed(run, p.k) else p.local.made <= |Created(run, p.k)|)
  }

  ghost function View(run: RestoreRun, p: Position): Tree
    requires ValidPosition(run, p)
  {
    if p.k == |run.plan| then Level(run, p.k)
    else if p.local.Moved? then Level(run, p.k) - {Target(run.plan[p.k])}
    else WithDirs(Level(run, p.k), run.plan[p.k].root, Created(run, p.k)[..p.local.made])
  }

  predicate InSlot(run: RestoreRun, p: Position, i: nat)
    requires i < |run.plan|
  {
    Existed(run, i) && (i < p.k || (i == p.k && p.local.Moved?))
  }

  /** The trees stand at position p: managed content, originals in rollback slots, consumed stage files. */
  ghost predicate At(run: RestoreRun, t: Tree, p: Position) {
    AtView(run, t, p) && AtSlots(run, t, p)
  }

  ghost predicate AtView(run: RestoreRun, t: Tree, p: Position) {
    && GoodPlan(run) && Tidy(t) && ValidPosition(run, p)
    && (forall i {:trigger LevelTidy(run, i)} :: 0 <= i <= p.k ==> LevelTidy(run, i))
    && (forall l {:trigger Shows(run, t, p, l)} :: Shows(run, t, p, l))
  }

  ghost predicate LevelTidy(run: RestoreRun, i: nat)
    requires i <= |run.plan|
  {
    Tidy(Level(run, i))
  }

  /** Place l of the managed trees is as the view has it. */
  ghost predicate Shows(run: RestoreRun, t: Tree, p: Position, l: Loc)
    requires ValidPosition(run, p)
  {
    var m, v := Managed(t, Txn(run.header)), View(run, p);
    (l in m <==> l in v) && (l in m ==> m[l] == v[l])
  }

  /** What is managed is the view, and all levels so far hang together. */
  lemma Viewed(run: RestoreRun, t: Tree, p: Position)
    requires AtView(run, t, p)
    ensures Managed(t, Txn(run.header)) == View(run, p)
    ensures forall i :: 0 <= i <= p.k ==> Tidy(Level(run, i))
  {
    forall l
      ensures Shows(run, t, p, l)
    {
    }
    var m, v := Managed(t, Txn(run.header)), View(run, p);
    forall l | l in m
      ensures l in v && m[l] == v[l]
    {
      assert Shows(run, t, p, l);
    }
    forall l | l in v
      ensures l in m
    {
      assert Shows(run, t, p, l);
    }
    forall i | 0 <= i <= p.k
      ensures Tidy(Level(run, i))
    {
      assert LevelTidy(run, i);
    }
  }

  lemma MakeView(run: RestoreRun, t: Tree, p: Position)
    requires GoodPlan(run) && Tidy(t) && ValidPosition(run, p)
    requires forall i :: 0 <= i <= p.k ==> Tidy(Level(run, i))
    requires Managed(t, Txn(run.header)) == View(run, p)
    ensures AtView(run, t, p)
  {
  }

  ghost predicate AtSlots(run: RestoreRun, t: Tree, p: Position) {
    forall i :: 0 <= i < |run.plan| ==> SlotsRight(run, t, p, i)
  }

  ghost predicate SlotsRight(run: RestoreRun, t: Tree, p: Position, i: nat)
    requires i < |run.plan|
  {
    && (if InSlot(run, p, i) then Slot(run, i) in t && t[Slot(run, i)] == run.pre[Target(run.plan[i])]
        else Slot(run, i) !in t)
    && (i < p.k ==> Stage(run, i) !in t)
    && Unblocked(t, run.plan[i].root, Slot(run, i).path)
    && Unblocked(t, run.plan[i].root, Stage(run, i).path)
  }

  // ---- Directories a promotion makes

  lemma {:induction false} MissingShape(m: Tree, root: Root, p: Path)
    ensures var d := Missing(m, root, p);
      && (forall i :: 0 <= i < |d| ==> d[i] != [] && d[i] <= p && Loc(root, d[i]) !in m)
      && (forall i :: 0 < i < |d| ==> RestoreJournal.Dir(d[i]) == d[i - 1])
      && (forall i :: 0 <= i < |d| ==> |d[i]| == |p| - (|d| - 1 - i))
      && (d != [] ==> d[|d| - 1] == p)
      && (d != [] ==> d[0] != [] && (|d[0]| == 1 || Loc(root, RestoreJournal.Dir(d[0])) in m))
      && (p != [] && Loc(root, p) !in m ==> d != [])
  {
    if p != [] && Loc(root, p) !in m {
      MissingShape(m, root, RestoreJournal.Dir(p));
    }
  }

  lemma {:induction false} PrefixValid(p: Path, q: Path)
    requires ValidRelative(p) && q != [] && q <= p
    ensures ValidRelative(q)
  {
    PrefixLength(p, q);
  }

  lemma {:induction false} PrefixLength(p: Path, q: Path)
    requires q <= p
    ensures PathLength(q) <= PathLength(p)
  {
    if |q| >= 2 { PrefixLength(p[1..], q[1..]); }
  }

  /** The directory list a promotion journals passes the reader's ordered-ancestor check. */
  lemma {:induction false} MissingAccepted(m: Tree, root: Root, target: Path)
    requires ValidRelative(target)
    ensures BeginAccepted(target, Missing(m, root, RestoreJournal.Dir(target)))
  {
    var d := Missing(m, root, RestoreJournal.Dir(target));
    MissingShape(m, root, RestoreJournal.Dir(target));
    forall i | 0 <= i < |d|
      ensures ValidRelative(d[i])
    {
      PrefixValid(target, d[i]);
    }
  }

  lemma {:induction false} WithDirsAt(m: Tree, root: Root, dirs: seq<Path>, l: Loc)
    ensures var w := WithDirs(m, root, dirs);
      if l.root == root && l.path in dirs then l in w && w[l] == Node.Dir(DirectoryMode(root))
      else (l in w <==> l in m) && (l in m ==> w[l] == m[l])
  {
    if dirs != [] {
      WithDirsAt(m, root, dirs[..|dirs| - 1], l);
      assert dirs == dirs[..|dirs| - 1] + [dirs[|dirs| - 1]];
    }
  }

  lemma MissingBelow(m: Tree, s: Staged, q: Path)
    requires q in Missing(m, s.root, RestoreJournal.Dir(s.target))
    ensures q < s.target && Loc(s.root, q) !in m
  {
    MissingShape(m, s.root, RestoreJournal.Dir(s.target));
  }

  /** What one promotion changes: the target, and directories above it that were absent. */
  lemma PromotedAt(m: Tree, s: Staged, l: Loc)
    ensures var w := Promoted(m, s);
      && (l == Target(s) ==> l in w && w[l] == s.node)
      && (l != Target(s) && l in m ==> l in w && w[l] == m[l])
      && (l != Target(s) && l !in m && l in w ==>
           l.root == s.root && l.path < s.target && w[l] == Node.Dir(DirectoryMode(s.root)))
  {
    var dirs := Missing(m, s.root, RestoreJournal.Dir(s.target));
    WithDirsAt(m, s.root, dirs, l);
    if l.root == s.root && l.path in dirs { MissingBelow(m, s, l.path); }
  }

  /** Before its own promotion a target is what it was at the start. */
  lemma {:induction false} TargetUntouched(run: RestoreRun, k: nat, i: nat)
    requires GoodPlan(run) && k <= i < |run.plan|
    ensures var l := Target(run.plan[i]);
      (l in Level(run, k) <==> l in run.pre) && (l in run.pre ==> Level(run, k)[l] == run.pre[l])
  {
    PlanFacts(run);
    if k > 0 {
      TargetUntouched(run, k - 1, i);
      PromotedAt(Level(run, k - 1), run.plan[k - 1], Target(run.plan[i]));
    }
  }

  lemma {:induction false} LevelGrows(run: RestoreRun, a: nat, b: nat)
    requires GoodPlan(run) && a <= b <= |run.plan|
    ensures Level(run, a).Keys <= Level(run, b).Keys
    decreases b - a
  {
    if a < b {
      LevelGrows(run, a, b - 1);
      forall l | l in Level(run, b - 1)
        ensures l in Level(run, b)
      {
        PromotedAt(Level(run, b - 1), run.plan[b - 1], l);
      }
    }
  }

  /** After the whole plan: every target holds its staged file, everything else that existed is as it was,
      and what is new besides targets is directories above them. */
  lemma {:induction false} FinalContent(run: RestoreRun, k: nat, l: Loc)
    requires GoodPlan(run) && k <= |run.plan|
    ensures forall i :: 0 <= i < k && l == Target(run.plan[i]) ==>
      l in Level(run, k) && Level(run, k)[l] == run.plan[i].node
    ensures (forall i :: 0 <= i < k ==> l != Target(run.plan[i])) && l in run.pre ==>
      l in Level(run, k) && Level(run, k)[l] == run.pre[l]
    ensures l in Level(run, k) && l !in run.pre ==>
      exists i :: 0 <= i < k && run.plan[i].root == l.root && l.path <= run.plan[i].target
        && (l == Target(run.plan[i]) || Level(run, k)[l] == Node.Dir(DirectoryMode(l.root)))
  {
    PlanFacts(run);
    if k > 0 {
      FinalContent(run, k - 1, l);
      PromotedAt(Level(run, k - 1), run.plan[k - 1], l);
      if l in Level(run, k) && l !in run.pre {
        if l !in Level(run, k - 1) || l == Target(run.plan[k - 1]) {
          assert run.plan[k - 1].root == l.root && l.path <= run.plan[k - 1].target;
        }
      }
    }
  }

  /** A target that exists has its whole parent chain, so its promotion makes no directory. */
  lemma ExistedNoDirs(run: RestoreRun, k: nat)
    requires GoodPlan(run) && k < |run.plan| && Tidy(Level(run, k)) && Existed(run, k)
    ensures Created(run, k) == []
  {
    TargetUntouched(run, k, k);
    assert Hangs(Level(run, k), Target(run.plan[k]));
  }

  /** A target that did not exist is nowhere in the managed trees until its own promotion. */
  lemma TargetFresh(run: RestoreRun, p: Position, i: nat)
    requires GoodPlan(run) && ValidPosition(run, p) && p.k <= i < |run.plan| && !Existed(run, i)
    ensures Target(run.plan[i]) !in View(run, p)
  {
    PlanFacts(run);
    TargetUntouched(run, p.k, i);
    if p.local.MakingDirs? {
      var s := run.plan[p.k];
      MissingShape(Level(run, p.k), s.root, RestoreJournal.Dir(s.target));
      WithDirsAt(Level(run, p.k), s.root, Created(run, p.k)[..p.local.made], Target(run.plan[i]));
    }
  }

  /** Directories a later promotion made are absent once that promotion is undone. */
  lemma ViewBelowLater(run: RestoreRun, p: Position, i: nat)
    requires GoodPlan(run) && ValidPosition(run, p) && p.k < i < |run.plan|
    ensures View(run, p).Keys <= Level(run, i).Keys
  {
    LevelGrows(run, p.k + 1, i);
    forall l | l in View(run, p)
      ensures l in Level(run, p.k + 1)
    {
      PromotedAt(Level(run, p.k), run.plan[p.k], l);
      if p.local.MakingDirs? {
        var s, d := run.plan[p.k], Created(run, p.k);
        WithDirsAt(Level(run, p.k), s.root, d[..p.local.made], l);
        WithDirsAt(Level(run, p.k), s.root, d, l);
      }
    }
  }
}
