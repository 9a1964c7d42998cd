/** Accepted archives on which a restore or a recovery does not end as it should. */
module RestoreFailures {
  import opened Common
  import opened RestoreJournal
  import opened RestoreDisk
  import opened RestorePlan
  import opened RestoreRecovery
  import opened RestoreRecover
  import opened RestoreApply
  import opened RestoreCapacity
  import RestoreReentry
  import Archive
  import ArchivePlan

  /** Two entries, the first replacing a file and the second obstructed. The run stops at the second; the recovery that
      follows puts the original of the first back and dies. From then on every recovery is refused. */
  method StopAfterRestoring(host: Host, header: Header, plan: seq<Staged>) returns (status: Status)
    requires Unstarted(RestoreRun(header, host.disk.tree, plan), host.disk) && host.faults == []
    requires |plan| == 2 && Separated(plan) && Short(plan[0].target)
    requires JournalBytes(WrittenOps(header, [])) <= 1_000_000
    requires IsFile(host.disk.tree, Target(plan[0])) && Free(host.disk.tree, plan[0]) && !Free(host.disk.tree, plan[1])
    modifies host
    ensures status.Crashed? && host.disk.journal.Some?
    ensures Recovered(host.disk, header.project) == (host.disk, false)
  {
    ghost var run := RestoreRun(header, host.disk.tree, plan);
    ghost var s;
    UnstartedFits(run, host.disk);
    status, s := RunRestore(host, header, plan);
    OneBegun(run, host.disk, s);
    host.faults := [Run, Run, Crash];
    status, s := RecoverRestoreTransaction(host, header.project, run, s);
    RestoreReentry.StoppedAfterRestoring(run, host.disk, s, 0);
  }

  /** Behind a header of reasonable length the first entry always has room. */
  lemma UnstartedFits(run: RestoreRun, d: Disk)
    requires Unstarted(run, d) && Separated(run.plan) && run.plan != []
    requires JournalBytes(WrittenOps(run.header, [])) <= 1_000_000
    ensures EntryFits(run, 0) && BeginFits(run, 0)
  {
    assert GoodPlan(run) by {
      forall i | 0 <= i < |run.plan|
        ensures ValidRelative(run.plan[i].target) && run.plan[i].target[0] != Txn(run.header) && run.plan[i].node.File?
      {
        assert EntryAccepted(run.header, run.plan[i]);
      }
    }
    FirstFits(run);
  }

  /** An undisturbed run begins the first of two entries and not the second. */
  lemma FirstOnly(run: RestoreRun)
    requires |run.plan| == 2 && BeginFits(run, 0) && Free(run.pre, run.plan[0]) && !Free(run.pre, run.plan[1])
    ensures Reaches(run, 0) && !Reaches(run, 1) && !Commits(run)
  {
    assert !Begins(run, 1);
  }

  lemma OneBegun(run: RestoreRun, d: Disk, s: Stand)
    requires Stands(run, d, s) && StopsShort(run, s) && |run.plan| == 2 && Separated(run.plan)
    requires EntryFits(run, 0) && BeginFits(run, 0)
    requires IsFile(run.pre, Target(run.plan[0])) && Free(run.pre, run.plan[0]) && !Free(run.pre, run.plan[1])
    ensures s.Undecided? && |s.ops| == 1 && s.at.k == 1
    ensures s.ops[0].target == run.plan[0].target && s.ops[0].existed && s.ops[0].backedUp
  {
    FirstOnly(run);
    OneOp(run, s);
    assert Matches(run, 0, s.ops[0]);
  }

  lemma OneOp(run: RestoreRun, s: Stand)
    requires StopsShort(run, s) && |run.plan| == 2 && Separated(run.plan) && EntryFits(run, 0)
    requires Reaches(run, 0) && !Reaches(run, 1)
    ensures s.Undecided? && |s.ops| == 1 && s.at.k == 1 && s.ops[0].promoted
  {
  }

  /** A long target that is begun before an obstruction. */
  lemma NotRecoverable(run: RestoreRun, d: Disk)
    requires Unstarted(run, d) && |run.plan| == 2 && Separated(run.plan) && !Short(run.plan[0].target)
    requires JournalBytes(WrittenOps(run.header, [])) <= 1_000_000
    requires Free(run.pre, run.plan[0]) && !Free(run.pre, run.plan[1])
    ensures !Recoverable(run)
  {
    UnstartedFits(run, d);
    FirstOnly(run);
  }

  // ---- Runs of an accepted archive of two configuration files, the second obstructed by a directory

  function Repeat(c: char, n: nat): (s: string)
    ensures |s| == n && forall i :: 0 <= i < n ==> s[i] == c
  {
    if n == 0 then "" else [c] + Repeat(c, n - 1)
  }

  const HEADER: Header := Header(Repeat('0', 48), ["srv"], ["etc"], ["run"])

  function Plan(a: Path): seq<Staged>
    requires a != []
  {
    ArchivePlan.TwoConfigs(a, "new a", ["b"], "new b")
  }

  /** It is the plan of an archive the reader accepts. */
  lemma PlanAccepted(a: Path)
    requires ArchivePlan.PlainPath(a) && a != ["b"] && PathLength(a) <= 4088
    ensures var archive, s := ArchivePlan.Pair(a, ["b"]), Archive.Selection(false, {});
      Archive.ArchiveAccepted(archive, true) && |Archive.Staging(archive, s)| == 2
      && ArchivePlan.PlanOf(Archive.Staging(archive, s), ["new a", "new b"]) == Plan(a)
  {
    AsciiLength("b");
    ArchivePlan.PairAccepted(a, ["b"]);
    ArchivePlan.PairPlan(a, ["b"], "new a", "new b");
  }

  lemma HeaderFine()
    ensures HeaderAccepted(HeaderRecord(JOURNAL_VERSION, HEADER), HEADER.project)
    ensures JournalBytes(WrittenOps(HEADER, [])) <= 1_000_000 && JournalFits(Written(HEADER, [], false))
  {
    HeaderRoots();
    HeaderShort(HEADER);
    RootsApart();
    HeaderTaken(HEADER);
  }

  lemma RootsApart()
    ensures HEADER.project[0] != HEADER.config[0] && HEADER.project[0] != HEADER.secrets[0]
    ensures HEADER.config[0] != HEADER.secrets[0]
  {
    assert HEADER.project[0][0] == 's' && HEADER.config[0][0] == 'e' && HEADER.secrets[0][0] == 'r';
  }

  /** Roots in different top directories are accepted. */
  lemma HeaderTaken(h: Header)
    requires ValidTransactionId(h.id) && h.project != [] && h.config != [] && h.secrets != []
    requires h.project[0] != h.config[0] && h.project[0] != h.secrets[0] && h.config[0] != h.secrets[0]
    ensures HeaderAccepted(HeaderRecord(JOURNAL_VERSION, h), h.project)
  {
  }

  lemma HeaderRoots()
    ensures PathLength(HEADER.project) <= 4 && PathLength(HEADER.config) <= 4 && PathLength(HEADER.secrets) <= 4
  {
    AsciiLength("srv");
    AsciiLength("etc");
    AsciiLength("run");
  }

  lemma HeaderShort(h: Header)
    requires Ascii(h.id) && |h.id| == 48
    requires PathLength(h.project) <= 4 && PathLength(h.config) <= 4 && PathLength(h.secrets) <= 4
    ensures JournalBytes(WrittenOps(h, [])) <= 1_000_000 && JournalFits(Written(h, [], false))
  {
    EscapedBound(h.id);
    AsciiLength(h.id);
    EscapedPathBound(h.project);
    EscapedPathBound(h.config);
    EscapedPathBound(h.secrets);
    var records := WrittenOps(h, []);
    assert records[..0] == [];
    assert JournalBytes(records) == JournalBytes(records[..0]) + EncodedLength(records[0]);
    assert Written(h, [], false) == records;
  }

  lemma {:induction false} PlainRelative(p: Path)
    requires ArchivePlan.PlainPath(p) && PathLength(p) <= 4088
    ensures ValidRelative(p) && p[0] != Txn(HEADER)
  {
    forall i | 0 <= i < |p|
      ensures ValidComponent(p[i])
    {
      assert p[i][0] >= 'a';
    }
    assert p[0][0] >= 'a' && Txn(HEADER)[0] == '.';
  }

  function Start(pre: Tree): Disk {
    Disk(pre, Some(Written(HEADER, [], false)))
  }

  /** Configuration content that hangs together, in the trees before. */
  ghost predicate Before(pre: Tree) {
    Tidy(pre) && Managed(pre, Txn(HEADER)) == pre && Loc(Config, ["b"]) in pre && pre[Loc(Config, ["b"])].Dir?
  }

  /** Two accepted entries of which neither is above the other. */
  lemma TwoUnstarted(h: Header, pre: Tree, s: Staged, s': Staged)
    requires HeaderAccepted(HeaderRecord(JOURNAL_VERSION, h), h.project) && JournalFits(Written(h, [], false))
    requires Tidy(pre) && Managed(pre, Txn(h)) == pre && EntryAccepted(h, s) && EntryAccepted(h, s')
    requires !(s.target <= s'.target) && !(s'.target <= s.target)
    ensures Unstarted(RestoreRun(h, pre, [s, s']), Disk(pre, Some(Written(h, [], false)))) && Separated([s, s'])
  {
  }

  lemma PlanUnstarted(pre: Tree, a: Path)
    requires Before(pre) && ArchivePlan.PlainPath(a) && a[0] != "b" && PathLength(a) <= 4088
    ensures Unstarted(RestoreRun(HEADER, pre, Plan(a)), Start(pre)) && Separated(Plan(a))
    ensures !Free(pre, Plan(a)[1])
  {
    HeaderFine();
    PlainRelative(a);
    PlainB();
    HeadsApart(a, ["b"]);
    PlanObstructed(pre, a);
    TwoUnstarted(HEADER, pre, Plan(a)[0], Plan(a)[1]);
  }

  lemma HeadsApart(a: Path, b: Path)
    requires a != [] && b != [] && a[0] != b[0]
    ensures !(a <= b) && !(b <= a)
  {
  }

  lemma PlanObstructed(pre: Tree, a: Path)
    requires Before(pre) && a != []
    ensures !Free(pre, Plan(a)[1])
  {
  }

  lemma PlainB()
    ensures ValidRelative(["b"]) && ["b"][0] != Txn(HEADER)
  {
    AsciiLength("b");
    PlainRelative(["b"]);
  }

  function OldA(): Tree {
    map[Loc(Config, ["a"]) := File("old a", 0x1A4), Loc(Config, ["b"]) := Node.Dir(0x1ED)]
  }

  lemma StoppedFine()
    ensures var run := RestoreRun(HEADER, OldA(), Plan(["a"]));
      && Unstarted(run, Start(run.pre)) && Separated(run.plan) && Short(run.plan[0].target)
      && IsFile(run.pre, Target(run.plan[0])) && Free(run.pre, run.plan[0]) && !Free(run.pre, run.plan[1])
  {
    OldAFacts();
    PlainA();
    PlanUnstarted(OldA(), ["a"]);
    FreeAtTop(OldA(), Plan(["a"])[0]);
  }

  lemma PlainA()
    ensures ArchivePlan.PlainPath(["a"]) && ["a"][0] != "b" && PathLength(["a"]) == 1 && Short(["a"])
  {
    ArchivePlan.PlainA();
  }

  lemma OldAFacts()
    ensures Before(OldA()) && IsFile(OldA(), Loc(Config, ["a"]))
    ensures forall l :: l in OldA() ==> |l.path| == 1
  {
    OneAtATime(OldA());
  }

  /** The interrupted recovery on a concrete disk. */
  method StoppedRecovery() returns (host: Host)
    ensures fresh(host) && host.disk.journal.Some? && Recovered(host.disk, HEADER.project) == (host.disk, false)
  {
    host := new Host(Start(OldA()), []);
    StoppedFine();
    HeaderFine();
    var status := StopAfterRestoring(host, HEADER, Plan(["a"]));
  }

  lemma OneAtATime(pre: Tree)
    requires forall l :: l in pre ==> |l.path| == 1 && |l.path[0]| == 1
    ensures Tidy(pre) && Managed(pre, Txn(HEADER)) == pre
  {
    forall l | l in pre
      ensures Hangs(pre, l) && !InTxn(l, Txn(HEADER))
    {
    }
  }

  lemma FreeAtTop(pre: Tree, s: Staged)
    requires forall l :: l in pre ==> |l.path| == 1
    requires Target(s) in pre ==> pre[Target(s)].File?
    requires Loc(s.root, s.target[..1]) in pre ==> |s.target| == 1
    ensures Free(pre, s)
  {
    forall q | q < s.target
      ensures Loc(s.root, q) !in pre
    {
      assert |q| == 1 ==> q == s.target[..1];
    }
  }

  // ---- A long target

  /** Sixteen components of 254 letters: 4079 bytes. */
  const LONG: Path := Components(16)

  function Components(n: nat): (p: Path)
    ensures |p| == n && forall i :: 0 <= i < n ==> p[i] == Repeat('x', 254)
  {
    if n == 0 then [] else [Repeat('x', 254)] + Components(n - 1)
  }

  lemma {:induction false} EvenLength(p: Path, n: nat)
    requires forall i :: 0 <= i < |p| ==> Ascii(p[i]) && |p[i]| == n
    ensures p != [] ==> PathLength(p) == |p| * (n + 1) - 1
  {
    if p != [] { AsciiLength(p[0]); }
    if |p| > 1 { EvenLength(p[1..], n); }
  }

  lemma LongShape(p: Path)
    requires |p| == 16 && forall i :: 0 <= i < 16 ==> |p[i]| == 254 && forall k :: 0 <= k < 254 ==> p[i][k] == 'x'
    ensures ArchivePlan.PlainPath(p) && p[0] != "b" && PathLength(p) == 4079 && !Short(p)
  {
    EvenLength(p, 254);
    assert |p[0]| == 254;
  }

  lemma LongPath()
    ensures ArchivePlan.PlainPath(LONG) && LONG[0] != "b" && PathLength(LONG) == 4079 && !Short(LONG)
  {
    LongShape(LONG);
  }

  function Obstacle(): Tree {
    map[Loc(Config, ["b"]) := Node.Dir(0x1ED)]
  }

  lemma FreeBesideB(a: Path)
    requires a != [] && a[0] != "b"
    ensures Free(Obstacle(), Plan(a)[0])
  {
    assert a[..1][0] == a[0] && ["b"][0] == "b";
    FreeAtTop(Obstacle(), Plan(a)[0]);
  }

  /** The long target is begun before the run meets the directory at the second one. */
  lemma LongTarget()
    ensures var run := RestoreRun(HEADER, Obstacle(), Plan(LONG));
      Unstarted(run, Start(run.pre)) && !Recoverable(run)
  {
    var run := RestoreRun(HEADER, Obstacle(), Plan(LONG));
    OneAtATime(run.pre);
    LongPath();
    PlanUnstarted(run.pre, LONG);
    FreeBesideB(LONG);
    HeaderFine();
    NotRecoverable(run, Start(run.pre));
  }

  /** An undisturbed restore of an accepted archive that fails, and that no recovery will ever clean up. */
  method LongTargetStays() returns (host: Host, cleaned: bool)
    ensures fresh(host) && !cleaned && host.disk.journal.Some?
    ensures Recovered(host.disk, HEADER.project) == (host.disk, false)
  {
    host := new Host(Start(Obstacle()), []);
    LongPath();
    LongTarget();
    var status;
    ghost var s;
    status, cleaned, s := ApplyArchiveTransactional(host, HEADER, Plan(LONG));
  }
}
