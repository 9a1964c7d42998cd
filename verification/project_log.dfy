/** Preparing the project generator's undo log: the disk, the items to generate, and the sorted entries. */
module ProjectLog {
  import opened Common
  import opened ProjectUndo

  /** One staged path, in the order the stage tree is walked. */
  datatype Item = Item(dir: bool, target: Path, mode: nat, bytes: string)

  datatype State = Prepared | Promoting | Committed

  datatype Manifest = Manifest(state: State, project: Path, secrets: Path, allowed: seq<Path>, entries: seq<Entry>)

  /** The private transaction directory: staged files, backups, and the journal once it is written. */
  datatype TxnDir = TxnDir(stage: map<nat, string>, backups: map<nat, string>, manifest: Option<Manifest>)

  datatype ProjectDisk = ProjectDisk(tree: Tree, txn: Option<TxnDir>)

  class ProjectHost {
    var disk: ProjectDisk
    var faults: seq<Fault>  // one per coming step; no faults once it is used up

    constructor (disk: ProjectDisk, faults: seq<Fault>)
      ensures this.disk == disk && this.faults == faults
    {
      this.disk, this.faults := disk, faults;
    }

    /** One indivisible change of the disk. */
    method Do(next: ProjectDisk) returns (status: Status)
      modifies this
      ensures disk == old(disk) || disk == next
      ensures status.Done? ==> disk == next
      ensures faults == if old(faults) == [] then [] else old(faults)[1..]
      ensures old(faults) == [] || old(faults)[0].Run? ==> status.Done?
      ensures old(faults) != [] && old(faults)[0].Crash? ==> status.Crashed? && disk == old(disk)
    {
      var fault := Run;
      if faults != [] {
        fault, faults := faults[0], faults[1..];
      }
      if fault.Run? || fault.Landed? {
        disk := next;
      }
      return match fault case Run => Done case Refuse => Failed case Landed => Failed case Crash => Crashed;
    }
  }

  // ---- Preparing the log

  function Insert(e: Entry, s: seq<Entry>): seq<Entry> {
    if s == [] || InOrder(e, s[0]) then [e] + s else [s[0]] + Insert(e, s[1..])
  }

  /** sort.SliceStable by InOrder. */
  function SortEntries(s: seq<Entry>): seq<Entry> {
    if s == [] then [] else Insert(s[0], SortEntries(s[1..]))
  }

  lemma {:induction false} InsertMembers(e: Entry, s: seq<Entry>)
    ensures multiset(Insert(e, s)) == multiset(s) + multiset{e}
    ensures forall x :: x in Insert(e, s) <==> x == e || x in s
  {
    if s != [] {
      assert s == [s[0]] + s[1..];
      if !InOrder(e, s[0]) { InsertMembers(e, s[1..]); }
    }
  }

  lemma OrderedCons(e: Entry, s: seq<Entry>)
    requires Ordered(s) && forall x :: x in s ==> InOrder(e, x)
    ensures Ordered([e] + s)
  {
  }

  lemma {:induction false} InsertOrdered(e: Entry, s: seq<Entry>)
    requires Ordered(s)
    ensures Ordered(Insert(e, s))
  {
    if s == [] || InOrder(e, s[0]) {
      assert forall x :: x in s ==> InOrder(e, x);
      OrderedCons(e, s);
    } else {
      InsertOrdered(e, s[1..]);
      InsertMembers(e, s[1..]);
      OrderedCons(s[0], Insert(e, s[1..]));
    }
  }

  lemma DistinctCons(e: Entry, s: seq<Entry>)
    requires Distinct(s) && forall x :: x in s ==> x.target != e.target
    ensures Distinct([e] + s)
  {
  }

  lemma {:induction false} InsertDistinct(e: Entry, s: seq<Entry>)
    requires Distinct(s) && forall x :: x in s ==> x.target != e.target
    ensures Distinct(Insert(e, s))
  {
    if s == [] || InOrder(e, s[0]) {
      DistinctCons(e, s);
    } else {
      InsertDistinct(e, s[1..]);
      InsertMembers(e, s[1..]);
      DistinctCons(s[0], Insert(e, s[1..]));
    }
  }

  lemma {:induction false} SortMembers(s: seq<Entry>)
    requires s != [] && multiset(SortEntries(s[1..])) == multiset(s[1..])
    requires forall x :: x in SortEntries(s[1..]) <==> x in s[1..]
    ensures multiset(SortEntries(s)) == multiset(s) && forall x :: x in SortEntries(s) <==> x in s
  {
    var rest := s[1..];
    InsertMembers(s[0], SortEntries(rest));
    assert s == [s[0]] + rest;
    assert multiset(s) == multiset(rest) + multiset{s[0]};
  }

  lemma {:induction false} SortDistinct(s: seq<Entry>)
    requires s != [] && Distinct(s) && Distinct(SortEntries(s[1..]))
    requires forall x :: x in SortEntries(s[1..]) <==> x in s[1..]
    ensures Distinct(SortEntries(s))
  {
    forall x | x in SortEntries(s[1..])
      ensures x.target != s[0].target
    {
      assert x in s[1..];
    }
    InsertDistinct(s[0], SortEntries(s[1..]));
  }

  /** Sorting orders the entries and loses none. */
  lemma {:induction false} SortKeeps(s: seq<Entry>)
    ensures Ordered(SortEntries(s)) && multiset(SortEntries(s)) == multiset(s)
    ensures forall x :: x in SortEntries(s) <==> x in s
    ensures Distinct(s) ==> Distinct(SortEntries(s))
  {
    if s != [] {
      SortKeeps(s[1..]);
      InsertOrdered(s[0], SortEntries(s[1..]));
      SortMembers(s);
      if Distinct(s) { SortDistinct(s); }
    }
  }

  predicate UnderSecrets(secrets: Path, p: Path) {
    secrets <= p
  }

  /** Entry e was made for item i of the walk. */
  ghost predicate Describes(pre: Tree, secrets: Path, items: seq<Item>, i: nat, e: Entry)
    requires i < |items|
  {
    && e.target == items[i].target && e.DirEntry? == items[i].dir && Recorded(pre, e)
    && e.desiredMode == (if items[i].dir && UnderSecrets(secrets, e.target) then 0x1C0 else Perm(items[i].mode))
    && (e.FileEntry? ==> e.source == i && e.stagedDigest == Sha256(items[i].bytes))
  }

  /** The log made from the walk: one entry an item, ordered, each describing its target. */
  ghost predicate LogFor(pre: Tree, secrets: Path, items: seq<Item>, entries: seq<Entry>) {
    && GoodLog(pre, entries)
    && (forall k :: 0 <= k < |entries| ==> FromItem(pre, secrets, items, entries[k]))
    && (forall i :: 0 <= i < |items| ==> HasEntry(pre, secrets, items, i, entries))
  }

  ghost predicate FromItem(pre: Tree, secrets: Path, items: seq<Item>, e: Entry) {
    exists i :: 0 <= i < |items| && Describes(pre, secrets, items, i, e)
  }

  ghost predicate HasEntry(pre: Tree, secrets: Path, items: seq<Item>, i: nat, entries: seq<Entry>)
    requires i < |items|
  {
    exists k :: 0 <= k < |entries| && Describes(pre, secrets, items, i, entries[k])
  }

  /** transactionFileLimit, 16 MiB. */
  const FILE_LIMIT := 0x100_0000

  /** prepareTransactionEntries refuses nothing: no target twice, and kinds and sizes that fit what is there. */
  ghost predicate Preparable(t: Tree, items: seq<Item>) {
    && (forall i, j :: 0 <= i < j < |items| ==> items[i].target != items[j].target)
    && (forall i :: 0 <= i < |items| ==> Fits(t, items[i]))
  }

  predicate Fits(t: Tree, item: Item) {
    && item.target != [] && (item.dir || |item.bytes| <= FILE_LIMIT)
    && (item.target in t ==>
         t[item.target].Dir? == item.dir && (item.dir || |t[item.target].bytes| <= FILE_LIMIT))
  }

  /** The entry of one walked path; the original is copied aside. */
  method PrepareEntry(host: ProjectHost, items: seq<Item>, i: nat, secrets: Path) returns (status: Status, entry: Entry)
    requires host.disk.txn.Some? && i < |items| && Fits(host.disk.tree, items[i])
    modifies host
    ensures host.disk.tree == old(host.disk.tree) && host.disk.txn.Some?
    ensures host.disk.txn.value == old(host.disk.txn.value).(backups := host.disk.txn.value.backups)
    ensures forall k :: k in old(host.disk.txn.value.backups) && k != i ==>
      k in host.disk.txn.value.backups && host.disk.txn.value.backups[k] == old(host.disk.txn.value.backups)[k]
    ensures status.Done? ==> Describes(host.disk.tree, secrets, items, i, entry)
    ensures status.Done? && entry.FileEntry? && entry.existed ==>
      entry.backup == i && BackupUsable(host.disk.txn.value.backups, entry)
    ensures old(host.faults) == [] ==> host.faults == [] && status.Done?
  {
    var item := items[i];
    var existed := item.target in host.disk.tree;
    var mode := if item.dir && UnderSecrets(secrets, item.target) then 0x1C0 else Perm(item.mode);
    if item.dir {
      return Done, DirEntry(item.target, existed, if existed then Perm(host.disk.tree[item.target].mode) else 0, mode);
    }
    if !existed {
      return Done, FileEntry(item.target, false, 0, Owner(0, 0), mode, i, Sha256(item.bytes), i, Sha256(""));
    }
    var original := host.disk.tree[item.target];
    entry := FileEntry(item.target, true, Perm(original.mode), original.owner, mode,
      i, Sha256(item.bytes), i, Sha256(original.bytes));
    var txn := host.disk.txn.value;
    status := host.Do(host.disk.(txn := Some(txn.(backups := txn.backups[i := original.bytes]))));
  }

  /** prepareTransactionEntries: one entry per walked path, originals copied aside, then sorted. */
  method PrepareTransactionEntries(host: ProjectHost, items: seq<Item>, secrets: Path)
    returns (status: Status, entries: seq<Entry>)
    requires Tidy(host.disk.tree) && host.disk.txn.Some?
    modifies host
    ensures host.disk.tree == old(host.disk.tree) && host.disk.txn.Some?
    ensures host.disk.txn.value == old(host.disk.txn.value).(backups := host.disk.txn.value.backups)
    ensures status.Done? ==> LogFor(host.disk.tree, secrets, items, entries)
    ensures status.Done? ==> BackupsKept(entries, host.disk.txn.value.backups)
    ensures old(host.faults) == [] ==> host.faults == [] && !status.Crashed?
    ensures old(host.faults) == [] ==> (status.Done? <==> Preparable(host.disk.tree, items))
    ensures status.Done? ==> Preparable(host.disk.tree, items)
  {
    ghost var pre := host.disk.tree;
    var raw: seq<Entry>, seen: set<Path> := [], {};
    entries := [];
    for i := 0 to |items|
      invariant host.disk.tree == pre && host.disk.txn.Some? && |raw| == i
      invariant host.disk.txn.value == old(host.disk.txn.value).(backups := host.disk.txn.value.backups)
      invariant old(host.faults) == [] ==> host.faults == []
      invariant seen == set k | 0 <= k < i :: items[k].target
      invariant forall k :: 0 <= k < i ==> Describes(pre, secrets, items, k, raw[k])
      invariant forall k :: 0 <= k < i && raw[k].FileEntry? && raw[k].existed ==>
        raw[k].backup == k && BackupUsable(host.disk.txn.value.backups, raw[k])
      invariant Distinct(raw)
      invariant forall k, l :: 0 <= k < l < i ==> items[k].target != items[l].target
      invariant forall k :: 0 <= k < i ==> Fits(pre, items[k])
    {
      var item := items[i];
      if item.target in seen || !Fits(host.disk.tree, item) {
        return Failed, [];
      }
      seen := seen + {item.target};
      var entry;
      status, entry := PrepareEntry(host, items, i, secrets);
      if !status.Done? {
        return status, [];
      }
      raw := raw + [entry];
    }
    entries := SortEntries(raw);
    SortedLog(pre, secrets, items, raw, host.disk.txn.value.backups);
    status := Done;
  }

  lemma SortedLog(pre: Tree, secrets: Path, items: seq<Item>, raw: seq<Entry>, backups: map<nat, string>)
    requires Tidy(pre) && |raw| == |items| && Distinct(raw)
    requires forall k :: 0 <= k < |items| ==> Describes(pre, secrets, items, k, raw[k])
    requires forall k :: 0 <= k < |raw| && raw[k].FileEntry? && raw[k].existed ==> BackupUsable(backups, raw[k])
    ensures LogFor(pre, secrets, items, SortEntries(raw)) && BackupsKept(SortEntries(raw), backups)
  {
    SortKeeps(raw);
    var entries := SortEntries(raw);
    forall k | 0 <= k < |entries|
      ensures Recorded(pre, entries[k])
      ensures FromItem(pre, secrets, items, entries[k])
      ensures entries[k].FileEntry? && entries[k].existed ==> BackupUsable(backups, entries[k])
    {
      assert entries[k] in entries;
      var i :| 0 <= i < |raw| && raw[i] == entries[k];
      assert Describes(pre, secrets, items, i, entries[k]);
    }
    forall i | 0 <= i < |items|
      ensures HasEntry(pre, secrets, items, i, entries)
    {
      assert raw[i] in raw;
      var k :| 0 <= k < |entries| && entries[k] == raw[i];
      assert Describes(pre, secrets, items, i, entries[k]);
    }
  }
}
