/** An accepted archive with nothing in its way that still cannot be restored: the journal has no room for it. */
module RestoreFull {
  import opened Common
  import opened RestoreJournal
  import opened RestoreDisk
  import opened RestorePlan
  import opened RestoreRecovery
  import opened RestoreApply
  import opened RestoreCapacity
  import opened RestoreFailures
  import opened ArchivePaths
  import Archive
  import ArchivePlan

  const ENTRIES := 80
  const DEPTH := 1970

  /** A new directory of its own, and below it a file under a long way of directories. */
  function Deep(k: nat): (p: Path)
    ensures |p| == DEPTH + 1 && p[0] == Repeat('x', k + 1) && p[1..] == Below()
  {
    [Repeat('x', k + 1)] + Below()
  }

  function Below(): (p: Path)
    ensures |p| == DEPTH && forall i :: 0 <= i < DEPTH ==> p[i] == "a"
  {
    seq(DEPTH, i => "a")
  }

  lemma BelowLength(p: Path)
    requires |p| == DEPTH && forall i :: 0 <= i < |p| ==> p[i] == "a"
    ensures PathLength(p) == 2 * DEPTH - 1 && ArchivePlan.PlainPath(p)
  {
    EvenLength(p, 1);
  }

  lemma DeepShape(k: nat)
    requires k < ENTRIES
    ensures ArchivePlan.PlainPath(Deep(k)) && PathLength(Deep(k)) == k + 1 + 2 * DEPTH
    ensures Short(Deep(k)) && PathLength(Deep(k)) <= 4088
  {
    var p := Deep(k);
    BelowLength(Below());
    AsciiLength(p[0]);
    forall i | 0 <= i < |p|
      ensures p[i] != "" && forall j :: 0 <= j < |p[i]| ==> 'a' <= p[i][j] <= 'z'
    {
      if i > 0 { assert p[i] == Below()[i - 1]; }
    }
  }

  function Entry(k: nat): Staged {
    Staged(Config, Deep(k), File("x", 0x1A4))
  }

  function DeepPlan(): (plan: seq<Staged>)
    ensures |plan| == ENTRIES && forall k :: 0 <= k < ENTRIES ==> plan[k] == Entry(k)
  {
    seq(ENTRIES, (k: nat) => Entry(k))
  }

  ghost predicate DeepRun(run: RestoreRun) {
    run.header == HEADER && run.pre == map[] && run.plan == DeepPlan()
  }

  lemma HeadsDiffer(i: nat, j: nat)
    requires i != j
    ensures Deep(i)[0] != Deep(j)[0] && Deep(i) != Deep(j)
  {
    assert |Deep(i)[0]| == i + 1 && |Deep(j)[0]| == j + 1;
  }

  // ---- How much of the journal it would take

  lemma {:induction false} EscapedAtLeast(s: string)
    ensures EscapedLength(s) >= |s|
  {
    if s != "" { EscapedAtLeast(s[1..]); }
  }

  lemma {:induction false} PathAtLeast(p: Path)
    requires p != [] && forall i :: 0 <= i < |p| ==> p[i] != ""
    ensures EscapedPath(p) >= 2 * |p| - 1
  {
    EscapedAtLeast(p[0]);
    if |p| > 1 { PathAtLeast(p[1..]); }
  }

  lemma Square(n: nat)
    requires n > 0
    ensures n * n == (n - 1) * (n - 1) + 2 * n - 1
  {
  }

  /** A way of n new directories takes more than the square of n. */
  lemma {:induction false} ManyDirs(m: Tree, root: Root, p: Path)
    requires forall q :: q != [] && q <= p ==> Loc(root, q) !in m
    requires forall i :: 0 <= i < |p| ==> p[i] != ""
    ensures |Missing(m, root, p)| == |p| && ListLength(Missing(m, root, p)) >= |p| * |p|
    decreases |p|
  {
    if p != [] {
      var front := RestoreJournal.Dir(p);
      ManyDirs(m, root, front);
      PathAtLeast(p);
      Square(|p|);
      var dirs := Missing(m, root, p);
      assert p <= p && dirs == Missing(m, root, front) + [p];
      assert dirs[..|dirs| - 1] == Missing(m, root, front);
    }
  }

  /** Promotions elsewhere make nothing below name. */
  lemma {:induction false} LevelClear(run: RestoreRun, k: nat, root: Root, name: string)
    requires k <= |run.plan| && run.pre == map[]
    requires forall i :: 0 <= i < k ==> run.plan[i].target != [] && run.plan[i].target[0] != name
    ensures forall q :: q != [] && q[0] == name ==> Loc(root, q) !in Level(run, k)
  {
    if k > 0 {
      LevelClear(run, k - 1, root, name);
      forall q | q != [] && q[0] == name
        ensures Loc(root, q) !in Level(run, k)
      {
        PromotedAt(Level(run, k - 1), run.plan[k - 1], Loc(root, q));
      }
    }
  }

  lemma DeepCreated(run: RestoreRun, k: nat)
    requires DeepRun(run) && k < ENTRIES
    ensures ListLength(Created(run, k)) >= DEPTH * DEPTH && Created(run, k) != []
  {
    DeepFront(k);
    forall i | 0 <= i < k
      ensures run.plan[i].target != [] && run.plan[i].target[0] != Deep(k)[0]
    {
      HeadsDiffer(i, k);
    }
    LevelClear(run, k, Config, Deep(k)[0]);
    ManyDirs(Level(run, k), Config, RestoreJournal.Dir(Deep(k)));
  }

  lemma DeepFront(k: nat)
    requires k < ENTRIES
    ensures var p := RestoreJournal.Dir(Deep(k));
      |p| == DEPTH && p[0] == Deep(k)[0] && forall i :: 0 <= i < |p| ==> p[i] != ""
  {
    DeepShape(k);
  }

  lemma EntryBytes(run: RestoreRun, k: nat)
    requires DeepRun(run) && k < ENTRIES
    ensures JournalBytes(RecordsOf(FullOp(run, k))) >= DEPTH * DEPTH
  {
    DeepCreated(run, k);
    var op := FullOp(run, k);
    var rest := RecordsOf(op)[1..];
    assert RecordsOf(op) == [BeginOf(op)] + rest;
    JournalBytesConcat([BeginOf(op)], rest);
    assert JournalBytes([BeginOf(op)]) == JournalBytes([]) + EncodedLength(BeginOf(op));
  }

  lemma {:induction false} RunBytes(run: RestoreRun, k: nat)
    requires DeepRun(run) && k <= ENTRIES
    ensures JournalBytes(WrittenOps(run.header, FullOps(run, k))) >= k * (DEPTH * DEPTH)
  {
    if k > 0 {
      RunBytes(run, k - 1);
      EntryBytes(run, k - 1);
      FullSnoc(run, k - 1);
      JournalBytesConcat(WrittenOps(run.header, FullOps(run, k - 1)), RecordsOf(FullOp(run, k - 1)));
    }
  }

  /** Nothing stands in the way of the plan, and the journal has no room for it. */
  lemma NoRoom(run: RestoreRun)
    requires DeepRun(run)
    ensures Unobstructed(run) && !RunFits(run) && !Commits(run)
  {
    TooManyBytes(run);
    DeepSeparated();
  }

  lemma TooManyBytes(run: RestoreRun)
    requires DeepRun(run)
    ensures !RunFits(run)
  {
    RunBytes(run, ENTRIES);
    var records := WrittenOps(run.header, FullOps(run, ENTRIES));
    assert ENTRIES * (DEPTH * DEPTH) > MAX_JOURNAL_BYTES;
    if RunFits(run) { FitsBefore(records, [CommitRecord]); }
  }

  lemma DeepSeparated()
    ensures Separated(DeepPlan())
  {
    forall i, j | 0 <= i < ENTRIES && 0 <= j < ENTRIES && i != j
      ensures Apart(DeepPlan(), i, j)
    {
      HeadsDiffer(i, j);
    }
  }

  lemma DeepUnstarted(run: RestoreRun)
    requires DeepRun(run)
    ensures Unstarted(run, Start(run.pre)) && Recoverable(run)
  {
    HeaderFine();
    forall k | 0 <= k < ENTRIES
      ensures EntryAccepted(run.header, run.plan[k]) && Short(run.plan[k].target)
    {
      DeepShape(k);
      PlainRelative(Deep(k));
    }
  }

  /** Undisturbed, the restore fails all the same, and takes everything back. */
  method JournalTooSmall() returns (host: Host, status: Status)
    ensures fresh(host) && !status.Done? && host.disk == Disk(map[], None)
  {
    host := new Host(Start(map[]), []);
    NoRoom(RestoreRun(HEADER, map[], DeepPlan()));
    DeepUnstarted(RestoreRun(HEADER, map[], DeepPlan()));
    var cleaned;
    ghost var s;
    status, cleaned, s := ApplyArchiveTransactional(host, HEADER, DeepPlan());
  }

  // ---- The archive

  function Files(): (files: seq<Archive.Source>)
    ensures |files| == ENTRIES && forall k :: 0 <= k < ENTRIES ==> files[k] == FileOf(k)
  {
    seq(ENTRIES, (k: nat) => FileOf(k))
  }

  /** metadata.json and the files. */
  function DeepArchive(): (archive: seq<Archive.Entry>)
    ensures |archive| == ENTRIES + 1 && archive[0].name == Archive.METADATA
    ensures forall k :: 0 <= k < ENTRIES ==> archive[k + 1] == Archive.EntryOf(FileOf(k))
  {
    Archive.WrittenArchive(2, Files())
  }

  function FileOf(k: nat): Archive.Source {
    Archive.Source(ArchivePlan.ConfigName(Deep(k)), 0x1A4, 1)
  }

  lemma FilesFit()
    ensures Archive.Fit(Files())
  {
    assert Archive.Bit(0x1A4, Archive.OWNER_READ);
    forall i | 0 <= i < ENTRIES
      ensures AcceptedName(Files()[i].name) && Files()[i].name != Archive.METADATA
    {
      DeepShape(i);
      ArchivePlan.ConfigAccepted(Deep(i));
    }
    forall i, j | 0 <= i < j < ENTRIES
      ensures Files()[i].name != Files()[j].name
    {
      DeepShape(i);
      DeepShape(j);
      HeadsDiffer(i, j);
      ArchivePlan.ConfigNamesDiffer(Deep(i), Deep(j));
    }
  }

  lemma {:induction false} FilesReserved(b: Archive.Budget, items: seq<Archive.Item>, i: nat)
    requires |items| == ENTRIES && i <= ENTRIES
    requires forall k :: 0 <= k < ENTRIES ==> items[k].name == FileOf(k).name && items[k].size == 1
    requires b.entries == 1 + i && b.total == 2 + i && 0 <= b.pathBytes <= 13 + 5000 * i
    ensures Archive.ReserveItems(b, items[i..]).Some?
    decreases ENTRIES - i
  {
    if i < ENTRIES {
      DeepShape(i);
      ArchivePlan.ConfigReserved(b, Deep(i));
      assert items[i..][1..] == items[i + 1..];
      FilesReserved(Archive.Reserve(b, FileOf(i).name, 1).value, items, i + 1);
    }
  }

  lemma {:induction false} FilesStaged(entries: seq<Archive.Entry>, s: Archive.Selection, paths: seq<Path>)
    requires |entries| == |paths| + 1 && entries[0].name == Archive.METADATA && s == Archive.Selection(false, {})
    requires forall k :: 0 <= k < |paths| ==> entries[k + 1] == SmallEntry(paths[k]) && Plannable(paths[k])
    ensures Archive.Staging(entries, s) == StagedPaths(paths)
    decreases |paths|
  {
    if paths == [] {
      MetadataNotStaged(entries, s);
    } else {
      var n := |paths| - 1;
      FilesStaged(entries[..n + 1], s, paths[..n]);
      assert Plannable(paths[n]) && entries[n + 1] == SmallEntry(paths[n]);
      OneStaged(entries, s, paths[n]);
    }
  }

  /** What the archive holds for a configuration file. */
  function SmallEntry(p: Path): Archive.Entry {
    Archive.EntryOf(Archive.Source(ArchivePlan.ConfigName(p), 0x1A4, 1))
  }

  /** The file of that name goes to p. */
  predicate Plannable(p: Path) {
    && Destination(ArchivePlan.ConfigName(p)) == (Config, FromParts(p), false)
    && ArchivePlan.ConfigName(p) != Archive.METADATA
  }

  lemma {:induction false} MetadataNotStaged(entries: seq<Archive.Entry>, s: Archive.Selection)
    requires |entries| == 1 && entries[0].name == Archive.METADATA
    ensures Archive.Staging(entries, s) == []
  {
    assert entries[..0] == [];
  }

  /** The archive's last file is staged last. */
  lemma {:induction false} OneStaged(entries: seq<Archive.Entry>, s: Archive.Selection, p: Path)
    requires entries != [] && s == Archive.Selection(false, {})
    requires entries[|entries| - 1] == SmallEntry(p) && Plannable(p)
    ensures Archive.Staging(entries, s)
      == Archive.Staging(entries[..|entries| - 1], s) + [Archive.StagedFile(Config, FromParts(p), 0x1A4)]
  {
    assert Archive.Masked(0x1A4) == 0x1A4;
  }

  function StagedPaths(paths: seq<Path>): (files: seq<Archive.StagedFile>)
    ensures |files| == |paths|
    ensures forall k :: 0 <= k < |paths| ==> files[k] == Archive.StagedFile(Config, FromParts(paths[k]), 0x1A4)
  {
    if paths == [] then []
    else
      var n := |paths| - 1;
      StagedPaths(paths[..n]) + [Archive.StagedFile(Config, FromParts(paths[n]), 0x1A4)]
  }

  lemma OfferedNames(files: seq<Archive.Source>)
    ensures |Archive.Offered(files)| == |files|
    ensures forall k :: 0 <= k < |files| ==>
      Archive.Offered(files)[k].name == files[k].name && Archive.Offered(files)[k].size == files[k].size as int
  {
  }

  lemma DeepReserved()
    ensures Archive.ReserveItems(Archive.Budget(1, 2, |Archive.METADATA|), Archive.Offered(Files())).Some?
  {
    Archive.MetadataLength();
    OfferedNames(Files());
    FilesReserved(Archive.Budget(1, 2, 13), Archive.Offered(Files()), 0);
    assert Archive.Offered(Files())[0..] == Archive.Offered(Files());
  }

  function Targets(): (paths: seq<Path>)
    ensures |paths| == ENTRIES && forall k :: 0 <= k < ENTRIES ==> paths[k] == Deep(k)
  {
    seq(ENTRIES, (k: nat) => Deep(k))
  }

  lemma DeepStaged()
    ensures Archive.Staging(DeepArchive(), Archive.Selection(false, {})) == StagedPaths(Targets())
  {
    forall k | 0 <= k < ENTRIES
      ensures Plannable(Targets()[k])
    {
      DeepShape(k);
      ArchivePlan.ConfigAccepted(Deep(k));
    }
    FilesStaged(DeepArchive(), Archive.Selection(false, {}), Targets());
  }

  /** The plan is that of an archive the reader accepts. */
  lemma DeepAccepted()
    ensures Archive.ArchiveAccepted(DeepArchive(), true)
    ensures var files := Archive.Staging(DeepArchive(), Archive.Selection(false, {}));
      |files| == ENTRIES && ArchivePlan.PlanOf(files, Contents()) == DeepPlan()
  {
    DeepReserved();
    FilesFit();
    Archive.WriterReaderAgree(2, Files());
    DeepStaged();
    DeepPlanned(StagedPaths(Targets()), Contents());
  }

  function Contents(): (contents: seq<string>)
    ensures |contents| == ENTRIES && forall k :: 0 <= k < ENTRIES ==> contents[k] == "x"
  {
    seq(ENTRIES, k => "x")
  }

  lemma {:induction false} DeepPlanned(files: seq<Archive.StagedFile>, contents: seq<string>)
    requires |files| == |contents| == ENTRIES
    requires forall k :: 0 <= k < ENTRIES ==>
      files[k] == Archive.StagedFile(Config, FromParts(Deep(k)), 0x1A4) && contents[k] == "x"
    ensures ArchivePlan.PlanOf(files, contents) == DeepPlan()
  {
    forall k | 0 <= k < ENTRIES
      ensures ArchivePlan.EntryOf(files[k], contents[k]) == Entry(k)
    {
      DeepShape(k);
      ArchivePlan.ConfigParts(Deep(k));
    }
  }
}
