/** Projects whose failed generation does not leave them as they were, or cannot be undone at all. */
module ProjectFailures {
  import opened Common
  import opened ProjectUndo
  import opened ProjectExact
  import opened ProjectLog
  import opened ProjectApply
  import opened ProjectTransaction

  const USER: Owner := Owner(1000, 1000)
  const ROOT: Owner := Owner(0, 0)

  /** A job whose one managed file is not among the generated ones, so that it fails behind a complete apply. */
  function LateJob(process: Owner): Job {
    Job(process, [["gone"]], USER, [])
  }

  /** What an undisturbed generation at /srv needs to get as far as a complete apply. */
  lemma GetsFar(pre: Tree, items: seq<Item>, process: Owner)
    requires Preparable(pre, items) && DirsMine(pre, items, process) && HomesMine(pre, items, process)
    requires forall i :: 0 <= i < |items| ==> Allowed(["srv"], [["srv"]], items[i].target)
    ensures LateFailure(pre, ["srv"], ["srv", "secrets"], [["srv"]], items, process)
    ensures Journalable(["srv"], ["srv", "secrets"], [["srv"]], items)
  {
    assert [] !in [["srv"]];
  }

  /** An undisturbed generation at /srv that fails behind a complete apply leaves exactly what can be given back. */
  method FailLate(pre: Tree, items: seq<Item>, process: Owner) returns (host: ProjectHost)
    requires Tidy(pre) && Rooted(pre, items) && ["gone"] !in pre && !IsItem(items, ["gone"])
    requires Preparable(pre, items) && DirsMine(pre, items, process) && HomesMine(pre, items, process)
    requires forall i :: 0 <= i < |items| ==> Allowed(["srv"], [["srv"]], items[i].target)
    ensures fresh(host) && host.disk == ProjectDisk(Stripped(pre, items, process), None)
    ensures host.disk.tree == pre <==> UndistortedBefore(pre, {}, items, process)
  {
    host := new ProjectHost(ProjectDisk(pre, None), []);
    FadedItself(pre, {}, {});
    GetsFar(pre, items, process);
    StrippedExactIff(pre, items, process);
    var job := LateJob(process);
    assert ["gone"] in job.repairs && !IsFileItem(items, ["gone"]);
    var status;
    ghost var base, after;
    status, base, after := GenerateProjectTransactional(host, ["srv"], ["srv", "secrets"], [["srv"]], items, job,
      DirPiece, pre, {}, {});
  }

  lemma InSrv(p: Path)
    requires |p| >= 2 && p[0] == "srv" && p[1] != TRANSACTION_DIR
    ensures Allowed(["srv"], [["srv"]], p)
  {
    assert ["srv"] in [["srv"]] && ["srv"] <= p;
    assert (["srv"] + [TRANSACTION_DIR])[1] == TRANSACTION_DIR;
  }

  function LockItems(bytes: string): seq<Item> {
    [Item(false, ["srv", ".sdbx.lock"], 0x1A4, bytes)]
  }

  lemma LockAlone(pre: Tree, bytes: string)
    requires Tidy(pre) && ["srv"] in pre && pre[["srv"]].Dir? && ["srv", ".sdbx.lock"] !in pre && |bytes| <= FILE_LIMIT
    ensures Rooted(pre, LockItems(bytes)) && Preparable(pre, LockItems(bytes))
    ensures HousesFile(LockItems(bytes), ["srv"])
    ensures forall p :: IsItem(LockItems(bytes), p) <==> p == ["srv", ".sdbx.lock"]
  {
    var items := LockItems(bytes);
    assert Parent(["srv", ".sdbx.lock"]) == ["srv"];
    assert HousesItem(items[0], ["srv"]);
    assert items[0].target == ["srv", ".sdbx.lock"];
  }

  /** A project root with mode 02775, which no run journals and every run writes a file into, comes back as 0775. */
  method SetgidHome() returns (host: ProjectHost)
    ensures fresh(host) && host.disk == ProjectDisk(map[["srv"] := Dir(0x1FD, USER)], None)
  {
    var pre: Tree := map[["srv"] := Dir(0x5FD, USER)];
    assert Hangs(pre, ["srv"]);
    LockAlone(pre, "");
    InSrv(["srv", ".sdbx.lock"]);
    host := FailLate(pre, LockItems(""), USER);
  }

  /** It stays so when the generation succeeds. */
  method SetgidHomeCommitted() returns (host: ProjectHost)
    ensures fresh(host) && host.disk.txn.None?
    ensures ["srv"] in host.disk.tree && host.disk.tree[["srv"]] == Dir(0x1FD, USER)
  {
    var pre: Tree := map[["srv"] := Dir(0x5FD, USER)];
    assert Hangs(pre, ["srv"]);
    LockAlone(pre, "");
    InSrv(["srv", ".sdbx.lock"]);
    host := new ProjectHost(ProjectDisk(pre, None), []);
    FadedItself(pre, {}, {});
    GetsFar(pre, LockItems(""), USER);
    var job := Job(USER, [], USER, []);
    assert Promoted(pre, LockItems(""), job);
    var status;
    ghost var base, after;
    status, base, after := GenerateProjectTransactional(host, ["srv"], ["srv", "secrets"], [["srv"]], LockItems(""),
      job, DirPiece, pre, {}, {});
    assert status.Done? && base == pre;
    assert Spared(base, Grants(job), LockItems(""), after, ["srv"]);
  }

  /** /srv and one entry in it. */
  function Home(home: Node, name: string, n: Node): Tree {
    map[["srv"] := home, ["srv", name] := n]
  }

  lemma HomeFine(home: Node, name: string, n: Node, item: Item)
    requires home.Dir? && item.target == ["srv", name] && item.dir == n.Dir? && |item.bytes| <= FILE_LIMIT
    requires n.File? ==> |n.bytes| <= FILE_LIMIT
    ensures Tidy(Home(home, name, n)) && Rooted(Home(home, name, n), [item]) && Preparable(Home(home, name, n), [item])
  {
    assert Parent(["srv"]) == [] && Parent(["srv", name]) == ["srv"];
    assert Hangs(Home(home, name, n), ["srv"]) && Hangs(Home(home, name, n), ["srv", name]);
  }

  lemma HomeStripped(home: Node, name: string, n: Node, item: Item, process: Owner)
    requires home.Dir? && item.target == ["srv", name] && item.dir == n.Dir?
    ensures Stripped(Home(home, name, n), [item], process)
      == Home(StrippedNode(home, false, !item.dir, process), name, StrippedNode(n, true, false, process))
  {
    var pre, items := Home(home, name, n), [item];
    assert Parent(["srv", name]) == ["srv"];
    assert items[0] == item;
    assert HousesFile(items, ["srv"]) <==> HousesItem(items[0], ["srv"]);
    assert IsItem(items, ["srv", name]) && !IsItem(items, ["srv"]) && !HousesFile(items, ["srv", name]);
  }

  /** A failed generation of one entry of /srv that exists. */
  method FailOne(home: Node, name: string, n: Node, item: Item, process: Owner) returns (host: ProjectHost)
    requires home.Dir? && item.target == ["srv", name] && item.dir == n.Dir? && name != TRANSACTION_DIR
    requires |item.bytes| <= FILE_LIMIT && (n.File? ==> |n.bytes| <= FILE_LIMIT)
    requires MayChmod(home, process) && (n.Dir? ==> MayChmod(n, process))
    ensures fresh(host) && host.disk.txn.None?
    ensures host.disk.tree
      == Home(StrippedNode(home, false, !item.dir, process), name, StrippedNode(n, true, false, process))
  {
    HomeFine(home, name, n, item);
    HomeStripped(home, name, n, item, process);
    InSrv(item.target);
    assert Parent(["srv", name]) == ["srv"];
    host := FailLate(Home(home, name, n), [item], process);
  }

  /** A lock file that belongs to root, in a user's project: after a failed generation by the user it is the user's. */
  method ForeignFile() returns (host: ProjectHost)
    ensures fresh(host) && host.disk.txn.None?
    ensures host.disk.tree == Home(Dir(0x1ED, USER), ".sdbx.lock", File("old", 0x1A4, USER))
  {
    host := FailOne(Dir(0x1ED, USER), ".sdbx.lock", File("old", 0x1A4, ROOT), LockItems("new")[0], USER);
  }

  /** An existing directory with mode 02775 among the generated ones comes back as 0775. */
  method SetgidTarget() returns (host: ProjectHost)
    ensures fresh(host) && host.disk.txn.None?
    ensures host.disk.tree == Home(Dir(0x1ED, USER), "media", Dir(0x1FD, USER))
  {
    host := FailOne(Dir(0x1ED, USER), "media", Dir(0x5FD, USER), Item(true, ["srv", "media"], 0x1ED, ""), USER);
  }

  /** A directory of another owner among the generated ones: the generation fails, and so does its rollback; the journal
      stays, and every later generation by this user is refused. */
  method ForeignDirectory() returns (host: ProjectHost)
    ensures fresh(host) && OpenJournal(host.disk) && !Recoverable(host.disk, ["srv"], USER)
  {
    var pre := Home(Dir(0x1ED, USER), "media", Dir(0x1ED, ROOT));
    var items := [Item(true, ["srv", "media"], 0x1ED, "")];
    HomeFine(Dir(0x1ED, USER), "media", Dir(0x1ED, ROOT), items[0]);
    InSrv(["srv", "media"]);
    assert items[0].target == ["srv", "media"];
    host := new ProjectHost(ProjectDisk(pre, None), []);
    FadedItself(pre, {}, {});
    assert Journalable(["srv"], ["srv", "secrets"], [["srv"]], items);
    var status;
    ghost var base, after;
    status, base, after := GenerateProjectTransactional(host, ["srv"], ["srv", "secrets"], [["srv"]], items,
      Job(USER, [], USER, []), DirPiece, pre, {}, {});
  }

  /** A directory that root gives away while it prepares volumes is not taken back by a rollback. */
  lemma VolumeStaysGiven()
    ensures var pre: Tree := map[["srv"] := Dir(0x1ED, ROOT)];
      var given: Tree := map[["srv"] := Dir(0x1ED, USER)];
      && Within(pre, {Grant(["srv"], USER)}, [], given)
      && Rollback(given, map[], ROOT, []) == Outcome(given, true) && given != pre
  {
    var pre: Tree := map[["srv"] := Dir(0x1ED, ROOT)];
    var given: Tree := map[["srv"] := Dir(0x1ED, USER)];
    assert pre[["srv"]] != given[["srv"]];
    assert Hangs(given, ["srv"]);
    forall p | !IsTarget([], p)
      ensures Outside(pre, {Grant(["srv"], USER)}, [], given, p)
    {
    }
  }

  // ---- A recovery that dies while it cleans up

  /** One existing file was journaled. Recovery puts it back, removes its backup before the manifest, and dies: from
      then on every recovery is refused, and with it every generation, though the project is as it was. */
  method StopWhileCleaning(pre: Tree, item: Item, process: Owner) returns (host: ProjectHost)
    requires Tidy(pre) && item.target in pre && !item.dir && Preparable(pre, [item])
    requires Allowed(["srv"], [["srv"]], item.target)
    ensures fresh(host) && OpenJournal(host.disk)
    ensures forall later :: !Recoverable(host.disk, ["srv"], later)
  {
    host := new ProjectHost(ProjectDisk(pre, Some(TxnDir(map[], map[], None))), []);
    assert Journalable(["srv"], ["srv", "secrets"], [["srv"]], [item]) by { assert [] !in [["srv"]]; }
    var status, manifest := Journal(host, ["srv"], ["srv", "secrets"], [["srv"]], [item], pre);
    OneEntry(pre, ["srv", "secrets"], item, manifest.entries);
    var e := manifest.entries[0];
    var first := BackupPiece(e.backup);
    JournalAccepted(pre, ["srv"], ["srv", "secrets"], [["srv"]], [item], manifest.entries, Promoting);
    assert BackupUsable(host.disk.txn.value.backups, e);
    host.faults := [Run, Run, Crash];
    status := RecoverProjectTransaction(host, ["srv"], process, first, pre, Touched([item]), {}, pre);
    forall later
      ensures !Recoverable(host.disk, ["srv"], later)
    {
      assert !Usable(host.disk.tree, host.disk.txn.value.backups, later, e);
    }
  }

  lemma TwoDiffer(entries: seq<Entry>)
    requires Distinct(entries)
    ensures |entries| >= 2 ==> entries[0].target != entries[1].target
  {
  }

  lemma OneEntry(pre: Tree, secrets: Path, item: Item, entries: seq<Entry>)
    requires LogFor(pre, secrets, [item], entries) && !item.dir && item.target in pre
    ensures |entries| == 1 && entries[0].FileEntry? && entries[0].existed
  {
    TwoDiffer(entries);
    assert HasEntry(pre, secrets, [item], 0, entries);
    var k :| 0 <= k < |entries| && Describes(pre, secrets, [item], 0, entries[k]);
    forall j | 0 <= j < |entries|
      ensures entries[j].target == item.target
    {
      assert FromItem(pre, secrets, [item], entries[j]);
    }
  }

  method StoppedCleaning() returns (host: ProjectHost)
    ensures fresh(host) && OpenJournal(host.disk)
    ensures forall later :: !Recoverable(host.disk, ["srv"], later)
  {
    var home, lock, item := Dir(0x1ED, USER), File("old", 0x1A4, USER), LockItems("new")[0];
    HomeFine(home, ".sdbx.lock", lock, item);
    InSrv(["srv", ".sdbx.lock"]);
    host := StopWhileCleaning(Home(home, ".sdbx.lock", lock), item, USER);
  }
}
