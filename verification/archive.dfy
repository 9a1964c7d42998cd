/** Archive budgets and the two readers: what the writer may write is what they accept. */
module Archive {
  import opened Common
  import opened Splitting
  import opened ArchivePaths
  import RestoreJournal

  /** Go's int64: arithmetic on it must be shown not to leave the range. */
  newtype int64 = x: int | -0x8000_0000_0000_0000 <= x < 0x8000_0000_0000_0000

  const MAX_ENTRIES := 200_000
  const MAX_FILE_BYTES := 0x2_0000_0000    // 8 GiB
  const MAX_TOTAL_BYTES := 0x10_0000_0000  // 64 GiB
  const MAX_PATH_LENGTH := 4096
  const MAX_PATH_BYTES := 0x400_0000       // 64 MiB
  const MAX_METADATA_BYTES := 0x1_0000
  const MAX_PROJECT_CONFIG_BYTES := 0x10_0000
  const MAX_LOCK_BYTES := 0x100_0000
  const METADATA: string := "metadata.json"

  // ---- The budget

  datatype Budget = Budget(entries: int, total: int, pathBytes: int)

  predicate InBounds(b: Budget) {
    0 <= b.entries <= MAX_ENTRIES && 0 <= b.total <= MAX_TOTAL_BYTES && 0 <= b.pathBytes <= MAX_PATH_BYTES
  }

  predicate PathFits(name: string, pathBytes: int) {
    ByteLength(name) <= MAX_PATH_LENGTH && 0 <= pathBytes && ByteLength(name) <= MAX_PATH_BYTES - pathBytes
  }

  predicate SizeFits(size: int, total: int) {
    0 <= size <= MAX_FILE_BYTES && 0 <= total <= MAX_TOTAL_BYTES - size
  }

  datatype Limit = Limit(name: string, bytes: int)

  /** The files with a limit of their own. */
  const MANAGED: seq<Limit> := [
    Limit(METADATA, MAX_METADATA_BYTES),
    Limit(".sdbx.yaml", MAX_PROJECT_CONFIG_BYTES), Limit(".env", MAX_PROJECT_CONFIG_BYTES),
    Limit(".sdbx.lock", MAX_LOCK_BYTES), Limit("compose.yaml", MAX_LOCK_BYTES)
  ]

  function LimitOf(name: string, limits: seq<Limit>): Option<int> {
    if limits == [] then None
    else if name == limits[0].name then Some(limits[0].bytes)
    else LimitOf(name, limits[1..])
  }

  predicate ManagedFits(name: string, size: int) {
    match LimitOf(name, MANAGED) case Some(limit) => size <= limit case None => true
  }

  function Reserve(b: Budget, name: string, size: int): Option<Budget> {
    if b.entries < MAX_ENTRIES && PathFits(name, b.pathBytes) && SizeFits(size, b.total) && ManagedFits(name, size)
    then Some(Budget(b.entries + 1, b.total + size, b.pathBytes + ByteLength(name)))
    else None
  }

  /** validateRestorePathBudget */
  method ValidateRestorePathBudget(name: string, total: int64) returns (ok: bool, newTotal: int64)
    requires ByteLength(name) < 0x8000_0000_0000_0000
    ensures ok <==> PathFits(name, total as int)
    ensures newTotal as int == if ok then total as int + ByteLength(name) else total as int
  {
    var length := ByteLength(name) as int64;
    if length > MAX_PATH_LENGTH as int64 { return false, total; }
    if total < 0 || length > MAX_PATH_BYTES as int64 - total { return false, total; }
    return true, total + length;
  }

  /** validateRestoreSize */
  method ValidateRestoreSize(size: int64, currentTotal: int64) returns (ok: bool)
    ensures ok <==> SizeFits(size as int, currentTotal as int)
  {
    if size < 0 || size > MAX_FILE_BYTES as int64 { return false; }
    return !(currentTotal < 0 || currentTotal > MAX_TOTAL_BYTES as int64 - size);
  }

  /** validateManagedRestoreSize */
  method ValidateManagedRestoreSize(name: string, size: int64) returns (ok: bool)
    ensures ok <==> ManagedFits(name, size as int)
  {
    var limit := LimitOf(name, MANAGED);
    ok := limit.None? || size as int <= limit.value;
  }

  class BackupBudget {
    var entries: int64
    var total: int64
    var pathBytes: int64

    /** The budget after the metadata entry. */
    constructor (metadataSize: int64)
      requires 0 <= metadataSize as int <= MAX_METADATA_BYTES
      ensures Value() == Budget(1, metadataSize as int, |METADATA|) && InBounds(Value())
    {
      entries, total, pathBytes := 1, metadataSize, |METADATA| as int64;
    }

    function Value(): Budget
      reads this
    {
      Budget(entries as int, total as int, pathBytes as int)
    }

    /** reserveFile: a refused file ends the backup. */
    method ReserveFile(name: string, size: int64) returns (ok: bool)
      requires InBounds(Value()) && ByteLength(name) < 0x8000_0000_0000_0000
      modifies this
      ensures ok <==> Reserve(old(Value()), name, size as int).Some?
      ensures ok ==> Some(Value()) == Reserve(old(Value()), name, size as int) && InBounds(Value())
    {
      entries := entries + 1;
      if entries < 0 || entries > MAX_ENTRIES as int64 { return false; }
      ok, pathBytes := ValidateRestorePathBudget(name, pathBytes);
      if !ok { return; }
      ok := ValidateRestoreSize(size, total);
      if !ok { return; }
      ok := ValidateManagedRestoreSize(name, size);
      if !ok { return; }
      total := total + size;
    }
  }

  // ---- Modes

  predicate Bit(mode: int, place: int)
    requires place > 0
  {
    mode / place % 2 == 1
  }

  const GROUP_WRITE := 0x10
  const OTHER_WRITE := 0x2
  const OWNER_READ := 0x100

  /** Permission bits only, nothing writable by group or others, readable by the owner. */
  predicate SafeMode(mode: int) {
    0 <= mode < 0x200 && !Bit(mode, GROUP_WRITE) && !Bit(mode, OTHER_WRITE) && Bit(mode, OWNER_READ)
  }

  /** The writer's mask, 0755. */
  function Masked(mode: nat): nat {
    var m := mode % 0x200;
    m - (if Bit(m, GROUP_WRITE) then GROUP_WRITE else 0) - (if Bit(m, OTHER_WRITE) then OTHER_WRITE else 0)
  }

  /** A masked mode is safe exactly when the owner may read the file. */
  lemma MaskedSafe(mode: nat)
    ensures SafeMode(Masked(mode)) <==> Bit(mode, OWNER_READ)
  {
    ModeBits(mode % 0x200);
    OwnerBit(mode);
  }

  lemma OwnerBit(mode: nat)
    ensures Bit(mode, OWNER_READ) <==> Bit(mode % 0x200, OWNER_READ)
  {
    var m := mode % 0x200;
    assert mode == mode / 0x200 * 0x200 + m;
    assert mode / OWNER_READ == mode / 0x200 * 2 + m / OWNER_READ;
  }

  lemma ModeBits(m: nat)
    requires m < 0x200
    ensures SafeMode(m - (if Bit(m, GROUP_WRITE) then GROUP_WRITE else 0)
        - (if Bit(m, OTHER_WRITE) then OTHER_WRITE else 0))
      <==> Bit(m, OWNER_READ)
  {
    var n := WithoutGroupWrite(m);
    var k := WithoutOtherWrite(n);
  }

  lemma WithoutGroupWrite(m: nat) returns (n: nat)
    ensures n == m - if Bit(m, GROUP_WRITE) then GROUP_WRITE else 0
    ensures !Bit(n, GROUP_WRITE)
    ensures Bit(n, OTHER_WRITE) <==> Bit(m, OTHER_WRITE)
    ensures Bit(n, OWNER_READ) <==> Bit(m, OWNER_READ)
  {
    n := m;
    if Bit(m, GROUP_WRITE) {
      DropGroupWrite(m);
      n := m - GROUP_WRITE;
    }
  }

  lemma DropGroupWrite(m: nat)
    requires Bit(m, GROUP_WRITE)
    ensures m >= GROUP_WRITE && !Bit(m - GROUP_WRITE, GROUP_WRITE)
    ensures Bit(m - GROUP_WRITE, OTHER_WRITE) <==> Bit(m, OTHER_WRITE)
    ensures Bit(m - GROUP_WRITE, OWNER_READ) <==> Bit(m, OWNER_READ)
  {
  }

  lemma WithoutOtherWrite(m: nat) returns (n: nat)
    ensures n == m - if Bit(m, OTHER_WRITE) then OTHER_WRITE else 0
    ensures !Bit(n, OTHER_WRITE)
    ensures Bit(n, GROUP_WRITE) <==> Bit(m, GROUP_WRITE)
    ensures Bit(n, OWNER_READ) <==> Bit(m, OWNER_READ)
  {
    n := if Bit(m, OTHER_WRITE) then m - OTHER_WRITE else m;
  }

  // ---- Reading

  datatype Entry = Entry(name: string, regular: bool, mode: int64, size: int64)

  /** validateArchiveHeader */
  predicate HeaderAccepted(e: Entry, first: bool) {
    AcceptedName(e.name) && (first <==> e.name == METADATA) && e.regular && SafeMode(e.mode as int)
  }

  /** An entry whose header has been judged. */
  datatype Item = Item(name: string, size: int, header: bool)

  function Judged(e: Entry, first: bool): Item {
    Item(e.name, e.size as int, HeaderAccepted(e, first))
  }

  function Judge(archive: seq<Entry>): seq<Item> {
    seq(|archive|, i requires 0 <= i < |archive| => Judged(archive[i], i == 0))
  }

  datatype Progress = Progress(budget: Budget, seen: set<string>)

  const START: Progress := Progress(Budget(0, 0, 0), {})

  /** One item: within budget, its header accepted, and not met before. */
  function Admit(p: Progress, item: Item): Option<Progress> {
    match Reserve(p.budget, item.name, item.size)
    case None => None
    case Some(b) => if item.header && item.name !in p.seen then Some(Progress(b, p.seen + {item.name})) else None
  }

  function ReadItems(p: Progress, items: seq<Item>): Option<Progress>
    decreases |items|
  {
    if items == [] then Some(p)
    else match Admit(p, items[0])
      case None => None
      case Some(q) => ReadItems(q, items[1..])
  }

  /** A whole archive: not empty, every entry accepted in turn, and metadata of the supported version. */
  predicate ArchiveAccepted(archive: seq<Entry>, metadataValid: bool) {
    archive != [] && ReadItems(START, Judge(archive)).Some? && metadataValid
  }

  predicate Sized(entries: seq<Entry>) {
    forall i :: 0 <= i < |entries| ==> ByteLength(entries[i].name) < 0x8000_0000_0000_0000
  }

  // Judging is kept apart from reading: a loop over the archive takes its judgement as a ghost argument.

  predicate JudgedAt(archive: seq<Entry>, items: seq<Item>, i: nat)
    requires i < |archive| == |items|
  {
    items[i] == Judged(archive[i], i == 0)
  }

  ghost predicate Judges(archive: seq<Entry>, items: seq<Item>) {
    && |archive| == |items|
    && forall i {:trigger JudgedAt(archive, items, i)} :: 0 <= i < |archive| ==> JudgedAt(archive, items, i)
  }

  lemma JudgeJudges(archive: seq<Entry>)
    ensures Judges(archive, Judge(archive))
  {
  }

  method JudgeEntry(archive: seq<Entry>, i: nat, ghost items: seq<Item>) returns (header: bool, metadata: bool)
    requires Judges(archive, items) && i < |archive|
    ensures items[i] == Item(archive[i].name, archive[i].size as int, header)
    ensures header ==> (i == 0 <==> metadata)
  {
    metadata := archive[i].name == METADATA;
    header := HeaderAccepted(archive[i], i == 0);
    assert JudgedAt(archive, items, i);
  }

  /** The first i items lead to p, so the whole is what the rest makes of p. */
  ghost predicate ReadTo(items: seq<Item>, i: nat, p: Progress) {
    i <= |items| && ReadItems(START, items) == ReadItems(p, items[i..])
  }

  lemma ReadStep(items: seq<Item>, i: nat, p: Progress)
    requires i < |items| && ReadTo(items, i, p)
    ensures match Admit(p, items[i])
            case None => ReadItems(START, items).None?
            case Some(q) => ReadTo(items, i + 1, q)
  {
    assert items[i..][0] == items[i] && items[i..][1..] == items[i + 1..];
  }

  /** The checks both readers make on one entry, in their order. */
  method CheckEntry(name: string, size: int64, header: bool, entries: int64, total: int64, pathBytes: int64,
      seen: set<string>)
    returns (ok: bool, newTotal: int64, newPathBytes: int64)
    requires 0 < entries as int <= MAX_ENTRIES + 1 && ByteLength(name) < 0x8000_0000_0000_0000
    requires InBounds(Budget(entries as int - 1, total as int, pathBytes as int))
    ensures var p := Progress(Budget(entries as int - 1, total as int, pathBytes as int), seen);
            var next := Admit(p, Item(name, size as int, header));
            && ok == next.Some?
            && (ok ==>
                 next.value == Progress(Budget(entries as int, newTotal as int, newPathBytes as int), seen + {name}))
    ensures ok ==> InBounds(Budget(entries as int, newTotal as int, newPathBytes as int))
  {
    newTotal, newPathBytes := total, pathBytes;
    if entries < 0 || entries > MAX_ENTRIES as int64 { return false, total, pathBytes; }
    if !header { return false, total, pathBytes; }
    ok, newTotal, newPathBytes := CheckSizes(name, size, name in seen, total, pathBytes);
  }

  method CheckSizes(name: string, size: int64, duplicate: bool, total: int64, pathBytes: int64)
    returns (ok: bool, newTotal: int64, newPathBytes: int64)
    requires ByteLength(name) < 0x8000_0000_0000_0000
    ensures ok
      <==> PathFits(name, pathBytes as int) && !duplicate && SizeFits(size as int, total as int)
           && ManagedFits(name, size as int)
    ensures ok ==>
      newTotal as int == total as int + size as int && newPathBytes as int == pathBytes as int + ByteLength(name)
  {
    newTotal, newPathBytes := total, pathBytes;
    ok, newPathBytes := ValidateRestorePathBudget(name, pathBytes);
    if !ok { return; }
    if duplicate { return false, total, pathBytes; }
    ok := ValidateRestoreSize(size, total);
    if !ok { return; }
    ok := ValidateManagedRestoreSize(name, size);
    if !ok { return; }
    newTotal := total + size;
  }

  /** One turn of both loops: the checks, and the version of the metadata. */
  method NextEntry(archive: seq<Entry>, i: nat, metadataValid: bool, entries: int64, total: int64, pathBytes: int64,
      seen: set<string>, ghost items: seq<Item>)
    returns (ok: bool, newTotal: int64, newPathBytes: int64)
    requires Sized(archive) && Judges(archive, items) && i < |archive| && entries as int == i + 1
    requires InBounds(Budget(i, total as int, pathBytes as int)) && (i > 0 ==> metadataValid)
    requires ReadTo(items, i, Progress(Budget(i, total as int, pathBytes as int), seen))
    ensures ok ==> metadataValid && InBounds(Budget(i + 1, newTotal as int, newPathBytes as int))
    ensures ok ==>
      ReadTo(items, i + 1, Progress(Budget(i + 1, newTotal as int, newPathBytes as int), seen + {archive[i].name}))
    ensures !ok ==> ReadItems(START, items).None? || !metadataValid
  {
    ReadStep(items, i, Progress(Budget(i, total as int, pathBytes as int), seen));
    var header, metadata := JudgeEntry(archive, i, items);
    ok, newTotal, newPathBytes := CheckEntry(archive[i].name, archive[i].size, header, entries, total, pathBytes, seen);
    if ok && metadata && !metadataValid {
      ok := false;
    }
  }

  /** validateArchive */
  method ValidateArchive(archive: seq<Entry>, metadataValid: bool) returns (ok: bool)
    requires Sized(archive)
    ensures ok <==> ArchiveAccepted(archive, metadataValid)
  {
    JudgeJudges(archive);
    ok := ReadArchive(archive, metadataValid, Judge(archive));
  }

  /** The loop over the entries. */
  method ReadArchive(archive: seq<Entry>, metadataValid: bool, ghost items: seq<Item>) returns (ok: bool)
    requires Sized(archive) && Judges(archive, items)
    ensures ok <==> archive != [] && ReadItems(START, items).Some? && metadataValid
  {
    var seen: set<string> := {};
    var entries: int64, total: int64, pathBytes: int64 := 0, 0, 0;
    assert items[0..] == items;
    for i := 0 to |archive|
      invariant InBounds(Budget(entries as int, total as int, pathBytes as int)) && entries as int == i
      invariant ReadTo(items, i, Progress(Budget(entries as int, total as int, pathBytes as int), seen))
      invariant i > 0 ==> metadataValid
    {
      var e := archive[i];
      entries := entries + 1;
      ok, total, pathBytes := NextEntry(archive, i, metadataValid, entries, total, pathBytes, seen, items);
      if !ok { return; }
      seen := seen + {e.name};
    }
    ok := entries != 0;
  }

  // ---- What the writer writes

  /** A file to back up, with its permission bits. */
  datatype Source = Source(name: string, mode: nat, size: int64)

  function EntryOf(f: Source): Entry {
    Entry(f.name, true, Masked(f.mode) as int64, f.size)
  }

  /** metadata.json first, with its own size, then the files. */
  function WrittenArchive(metadataSize: int64, files: seq<Source>): seq<Entry> {
    [Entry(METADATA, true, 0x180, metadataSize)] + seq(|files|, i requires 0 <= i < |files| => EntryOf(files[i]))
  }

  function Offered(files: seq<Source>): seq<Item> {
    seq(|files|, i requires 0 <= i < |files| => Judged(EntryOf(files[i]), false))
  }

  /** The budget after all items were reserved, if none was refused. */
  function ReserveItems(b: Budget, items: seq<Item>): Option<Budget>
    decreases |items|
  {
    if items == [] then Some(b)
    else match Reserve(b, items[0].name, items[0].size)
      case None => None
      case Some(c) => ReserveItems(c, items[1..])
  }

  predicate Admissible(items: seq<Item>, seen: set<string>)
    decreases |items|
  {
    items == [] || (items[0].header && items[0].name !in seen && Admissible(items[1..], seen + {items[0].name}))
  }

  lemma {:induction false} AdmissibleMeaning(items: seq<Item>, seen: set<string>)
    ensures Admissible(items, seen) <==>
      && (forall i :: 0 <= i < |items| ==> items[i].header && items[i].name !in seen)
      && (forall i, j :: 0 <= i < j < |items| ==> items[i].name != items[j].name)
    decreases |items|
  {
    if items != [] {
      var rest, more := items[1..], seen + {items[0].name};
      AdmissibleMeaning(rest, more);
      if Admissible(items, seen) {
        forall i | 0 < i < |items|
          ensures items[i].header && items[i].name !in more
        {
          assert items[i] == rest[i - 1];
        }
        forall i, j | 0 <= i < j < |items|
          ensures items[i].name != items[j].name
        {
          if i > 0 { assert rest[i - 1].name != rest[j - 1].name; }
        }
      }
    }
  }

  /** Whatever the budget let the writer write passes every count, path and size check of the reader, so
      only its headers and repeated names can be refused. */
  lemma {:induction false} BudgetSuffices(p: Progress, items: seq<Item>)
    requires ReserveItems(p.budget, items).Some?
    ensures ReadItems(p, items).Some? <==> Admissible(items, p.seen)
    ensures Admissible(items, p.seen) ==> ReadItems(p, items).value.budget == ReserveItems(p.budget, items).value
    decreases |items|
  {
    if items != [] && Admit(p, items[0]).Some? {
      BudgetSuffices(Admit(p, items[0]).value, items[1..]);
    }
  }

  lemma SourceHeader(f: Source)
    ensures HeaderAccepted(EntryOf(f), false) <==> AcceptedName(f.name) && f.name != METADATA && Bit(f.mode, OWNER_READ)
  {
    MaskedSafe(f.mode);
  }

  /** Accepted names, readable by their owner, and all different. */
  ghost predicate Fit(files: seq<Source>) {
    && (forall i :: 0 <= i < |files| ==>
         AcceptedName(files[i].name) && files[i].name != METADATA && Bit(files[i].mode, OWNER_READ))
    && (forall i, j :: 0 <= i < j < |files| ==> files[i].name != files[j].name)
  }

  lemma OfferedFit(files: seq<Source>)
    ensures Admissible(Offered(files), {METADATA}) <==> Fit(files)
  {
    var items := Offered(files);
    AdmissibleMeaning(items, {METADATA});
    forall i | 0 <= i < |files|
      ensures items[i].header && items[i].name != METADATA <==>
        AcceptedName(files[i].name) && files[i].name != METADATA && Bit(files[i].mode, OWNER_READ)
      ensures items[i].name == files[i].name
    {
      SourceHeader(files[i]);
    }
  }

  lemma MetadataChars()
    ensures forall i :: 0 <= i < |METADATA| ==> 'a' <= METADATA[i] <= 'z' || METADATA[i] == '.'
  {
  }

  lemma PlainName(name: string)
    requires name != "" && name != "." && name != ".."
    requires forall i :: 0 <= i < |name| ==> 'a' <= name[i] <= 'z' || name[i] == '.'
    ensures SafeName(name)
  {
    SplitOnOne('/', name);
    SafeIff(name);
  }

  lemma MetadataLength()
    ensures ByteLength(METADATA) == |METADATA| == 13
  {
    MetadataChars();
    AsciiLength(METADATA);
  }

  lemma ListedAccepted(name: string)
    requires SafeName(name) && Listed(name, ALLOWED) && |name| > 7
    ensures AcceptedName(name)
  {
  }

  lemma MetadataName()
    ensures AcceptedName(METADATA)
  {
    MetadataChars();
    PlainName(METADATA);
    MetadataLength();
    ListedAccepted(METADATA);
  }

  lemma MetadataLimit(size: int)
    requires size <= MAX_METADATA_BYTES
    ensures ManagedFits(METADATA, size)
  {
  }

  lemma FirstReserved(name: string, size: int)
    requires 0 <= size <= MAX_METADATA_BYTES && ByteLength(name) <= MAX_PATH_LENGTH && ManagedFits(name, size)
    ensures Admit(START, Item(name, size, true)) == Some(Progress(Budget(1, size, ByteLength(name)), {name}))
  {
    assert START.seen + {name} == {name};
  }

  lemma MetadataHeader(size: int64)
    ensures Judged(Entry(METADATA, true, 0x180, size), true) == Item(METADATA, size as int, true)
  {
    MetadataName();
    OwnerOnly();
  }

  lemma OwnerOnly()
    ensures SafeMode(0x180)
  {
  }

  lemma MetadataAdmitted(size: int)
    requires 0 <= size <= MAX_METADATA_BYTES
    ensures Admit(START, Item(METADATA, size, true)) == Some(Progress(Budget(1, size, |METADATA|), {METADATA}))
  {
    MetadataLength();
    MetadataLimit(size);
    FirstReserved(METADATA, size);
  }

  lemma JudgeWritten(metadataSize: int64, files: seq<Source>)
    ensures Judge(WrittenArchive(metadataSize, files)) == [Item(METADATA, metadataSize as int, true)] + Offered(files)
  {
    MetadataHeader(metadataSize);
    JudgeFiles(Entry(METADATA, true, 0x180, metadataSize), files);
  }

  lemma JudgeFiles(first: Entry, files: seq<Source>)
    ensures Judge([first] + seq(|files|, i requires 0 <= i < |files| => EntryOf(files[i])))
      == [Judged(first, true)] + Offered(files)
  {
  }

  /** A backup within budget is accepted by the reader exactly when its names fit and its owner can read each file. */
  lemma WriterReaderAgree(metadataSize: int64, files: seq<Source>)
    requires 0 <= metadataSize as int <= MAX_METADATA_BYTES
    requires ReserveItems(Budget(1, metadataSize as int, |METADATA|), Offered(files)).Some?
    ensures ArchiveAccepted(WrittenArchive(metadataSize, files), true) <==> Fit(files)
  {
    var size := metadataSize as int;
    var items := [Item(METADATA, size, true)] + Offered(files);
    JudgeWritten(metadataSize, files);
    MetadataAdmitted(size);
    assert items[1..] == Offered(files);
    BudgetSuffices(Progress(Budget(1, size, |METADATA|), {METADATA}), Offered(files));
    OfferedFit(files);
  }

  // ---- Staging

  datatype Selection = Selection(preserveProject: bool, skipConfigPaths: set<string>)

  /** shouldSkip */
  predicate Skipped(s: Selection, root: Root, target: string) {
    (s.preserveProject && root.Project?) || (root.Config? && target in s.skipConfigPaths)
  }

  datatype StagedFile = StagedFile(root: Root, target: string, mode: nat)

  /** The permission bits. */
  function Perm(mode: int64): nat {
    (mode as int) % 0x200
  }

  function StagedOf(e: Entry): StagedFile {
    var (root, target, private) := Destination(e.name);
    StagedFile(root, target, if private then 0x180 else Perm(e.mode))
  }

  /** The files to stage: all but the metadata and what the selection skips, in archive order. */
  function Staging(entries: seq<Entry>, s: Selection): seq<StagedFile> {
    if entries == [] then []
    else
      var n := |entries| - 1;
      var e := entries[n];
      var (root, target, _) := Destination(e.name);
      if e.name == METADATA || Skipped(s, root, target) then Staging(entries[..n], s)
      else Staging(entries[..n], s) + [StagedOf(e)]
  }

  predicate Inspected(entries: seq<Entry>, refused: set<string>) {
    forall i :: 0 <= i < |entries| ==> Passes(entries[i], refused)
  }

  function Names(entries: seq<Entry>): set<string> {
    set e | e in entries :: e.name
  }

  /** What staging asks beyond validation: the caller's inspections, and the project's own files when those are kept. */
  predicate Acceptable(archive: seq<Entry>, s: Selection, refused: set<string>) {
    Inspected(archive, refused) && HasRequired(Names(archive), s)
  }

  predicate HasRequired(names: set<string>, s: Selection) {
    s.preserveProject ==> ".sdbx.yaml" in names && ".sdbx.lock" in names
  }

  /** stageRestoreArchive: it rejects nothing that validation accepts, but for the inspections and required files. */
  method StageRestoreArchive(archive: seq<Entry>, metadataValid: bool, s: Selection, refused: set<string>)
    returns (staged: Option<seq<StagedFile>>)
    requires Sized(archive)
    ensures staged.Some? <==> ArchiveAccepted(archive, metadataValid) && Acceptable(archive, s, refused)
    ensures staged.Some? ==> staged.value == Staging(archive, s)
  {
    JudgeJudges(archive);
    var ok, files, seen := StageEntries(archive, metadataValid, s, refused, Judge(archive));
    assert archive[..|archive|] == archive;
    if !ok || archive == [] { return None; }
    var complete := Complete(seen, s);
    staged := if complete then Some(files) else None;
  }

  method StageEntries(archive: seq<Entry>, metadataValid: bool, s: Selection, refused: set<string>,
      ghost items: seq<Item>)
    returns (ok: bool, files: seq<StagedFile>, seen: set<string>)
    requires Sized(archive) && Judges(archive, items)
    ensures ok <==> ReadItems(START, items).Some? && (archive == [] || metadataValid) && Inspected(archive, refused)
    ensures ok ==> StagedTo(archive, |archive|, s, refused, files, seen)
  {
    files, seen := [], {};
    var entries: int64, total: int64, pathBytes: int64 := 0, 0, 0;
    assert items[0..] == items && archive[..|archive|] == archive;
    for i := 0 to |archive|
      invariant InBounds(Budget(entries as int, total as int, pathBytes as int)) && entries as int == i
      invariant ReadTo(items, i, Progress(Budget(entries as int, total as int, pathBytes as int), seen))
      invariant i > 0 ==> metadataValid
      invariant StagedTo(archive, i, s, refused, files, seen)
    {
      var e := archive[i];
      StageStep(archive, i, s, refused, files, seen);
      entries := entries + 1;
      ok, total, pathBytes := NextEntry(archive, i, metadataValid, entries, total, pathBytes, seen, items);
      if !ok { return; }
      var passed, more := StageEntry(e, s, refused);
      if !passed {
        RefusedEntry(archive, i, refused);
        return false, files, seen;
      }
      seen := seen + {e.name};
      files := files + more;
    }
    ok := true;
  }

  /** Keeping the project asks for its own files to be in the archive. */
  method Complete(seen: set<string>, s: Selection) returns (complete: bool)
    ensures complete <==> HasRequired(seen, s)
  {
    complete := !(s.preserveProject && (".sdbx.yaml" !in seen || ".sdbx.lock" !in seen));
  }

  ghost predicate StagedTo(archive: seq<Entry>, i: nat, s: Selection, refused: set<string>, files: seq<StagedFile>,
      seen: set<string>) {
    && i <= |archive| && files == Staging(archive[..i], s)
    && Inspected(archive[..i], refused) && seen == Names(archive[..i])
  }

  lemma StageStep(archive: seq<Entry>, i: nat, s: Selection, refused: set<string>, files: seq<StagedFile>,
      seen: set<string>)
    requires i < |archive| && StagedTo(archive, i, s, refused, files, seen)
    ensures Passes(archive[i], refused) ==>
      StagedTo(archive, i + 1, s, refused, files + Staged(archive[i], s), seen + {archive[i].name})
  {
    assert archive[..i + 1] == archive[..i] + [archive[i]];
    Grow(archive[..i], archive[i], s, refused);
  }

  predicate Passes(e: Entry, refused: set<string>) {
    e.name != METADATA && Destination(e.name).0.Project? ==> e.name !in refused
  }

  /** What one entry adds to the plan. */
  function Staged(e: Entry, s: Selection): seq<StagedFile> {
    var (root, target, _) := Destination(e.name);
    if e.name == METADATA || Skipped(s, root, target) then [] else [StagedOf(e)]
  }

  method StageEntry(e: Entry, s: Selection, refused: set<string>) returns (passed: bool, files: seq<StagedFile>)
    ensures passed <==> Passes(e, refused)
    ensures passed ==> files == Staged(e, s)
  {
    if e.name == METADATA { return true, []; }
    var (root, target, private) := Destination(e.name);
    if root.Project? && e.name in refused { return false, []; }
    if Skipped(s, root, target) { return true, []; }
    return true, [StagedFile(root, target, if private then 0x180 else Perm(e.mode))];
  }

  lemma Grow(entries: seq<Entry>, e: Entry, s: Selection, refused: set<string>)
    ensures Staging(entries + [e], s) == Staging(entries, s) + Staged(e, s)
    ensures Inspected(entries + [e], refused) <==> Inspected(entries, refused) && Passes(e, refused)
    ensures Names(entries + [e]) == Names(entries) + {e.name}
  {
    var more := entries + [e];
    assert more[..|entries|] == entries && more[|entries|] == e;
    assert Inspected(more, refused) ==> Inspected(entries, refused) by {
      assert forall i :: 0 <= i < |entries| ==> more[i] == entries[i];
    }
    assert e in more && forall x :: x in more <==> x in entries || x == e;
  }

  lemma RefusedEntry(archive: seq<Entry>, i: nat, refused: set<string>)
    requires i < |archive| && !Passes(archive[i], refused)
    ensures !Inspected(archive, refused)
  {
  }

  // ---- The staged plan

  lemma {:induction false} ReadAdmissible(p: Progress, items: seq<Item>)
    requires ReadItems(p, items).Some?
    ensures Admissible(items, p.seen)
    ensures forall i :: 0 <= i < |items| ==> ByteLength(items[i].name) <= MAX_PATH_LENGTH
    decreases |items|
  {
    if items != [] {
      var rest := items[1..];
      ReadAdmissible(Admit(p, items[0]).value, rest);
      forall i | 0 < i < |items|
        ensures ByteLength(items[i].name) <= MAX_PATH_LENGTH
      {
        assert items[i] == rest[i - 1];
      }
    }
  }

  lemma AcceptedEntries(archive: seq<Entry>)
    requires ReadItems(START, Judge(archive)).Some?
    ensures forall i :: 0 <= i < |archive| ==>
      AcceptedName(archive[i].name) && ByteLength(archive[i].name) <= MAX_PATH_LENGTH
    ensures forall i, j :: 0 <= i < j < |archive| ==> archive[i].name != archive[j].name
  {
    var items := Judge(archive);
    ReadAdmissible(START, items);
    AdmissibleMeaning(items, {});
    forall i | 0 <= i < |archive|
      ensures items[i].name == archive[i].name
      ensures AcceptedName(archive[i].name) && ByteLength(archive[i].name) <= MAX_PATH_LENGTH
    {
      assert items[i].header;
    }
  }

  /** A staged file comes from an entry, and different staged files from different entries. */
  lemma {:induction false} StagingOrigin(entries: seq<Entry>, s: Selection, i: nat) returns (k: nat)
    requires i < |Staging(entries, s)|
    ensures k < |entries| && Staging(entries, s)[i] == StagedOf(entries[k])
    decreases |entries|
  {
    var n := |entries| - 1;
    if i < |Staging(entries[..n], s)| {
      k := StagingOrigin(entries[..n], s, i);
    } else {
      k := n;
    }
  }

  lemma {:induction false} StagingApart(entries: seq<Entry>, s: Selection, i: nat, j: nat)
    requires i < j < |Staging(entries, s)|
    requires forall a, b :: 0 <= a < b < |entries| ==> entries[a].name != entries[b].name
    ensures var files := Staging(entries, s); files[i].root != files[j].root || files[i].target != files[j].target
    decreases |entries|
  {
    var n := |entries| - 1;
    if j < |Staging(entries[..n], s)| {
      StagingApart(entries[..n], s, i, j);
    } else {
      var k := StagingOrigin(entries[..n], s, i);
      assert entries[k].name != entries[n].name;
      if StagedOf(entries[k]).root == StagedOf(entries[n]).root
         && StagedOf(entries[k]).target == StagedOf(entries[n]).target {
        DestinationInjective(entries[k].name, entries[n].name);
      }
    }
  }

  lemma {:induction false} JoinLength(parts: Path)
    ensures PathLength(parts) == ByteLength(FromParts(parts))
  {
    if |parts| > 1 {
      JoinLength(parts[1..]);
      ByteLengthConcat(parts[0] + ['/'], FromParts(parts[1..]));
      ByteLengthConcat(parts[0], ['/']);
    }
  }

  lemma TargetShorter(name: string)
    ensures ByteLength(Destination(name).1) <= ByteLength(name)
  {
    var target := Destination(name).1;
    assert name == name[..|name| - |target|] + target;
    ByteLengthConcat(name[..|name| - |target|], target);
  }

  lemma TargetRelative(name: string)
    requires AcceptedName(name) && ByteLength(name) <= MAX_PATH_LENGTH
    ensures RestoreJournal.ValidRelative(Parts(Destination(name).1))
  {
    DestinationClean(name);
    JoinLength(Parts(Destination(name).1));
    TargetShorter(name);
  }

  /** From an accepted archive every staged target is one the journal accepts, and no two files share a place. */
  lemma StagedPlan(archive: seq<Entry>, s: Selection)
    requires ArchiveAccepted(archive, true)
    ensures forall i :: 0 <= i < |Staging(archive, s)| ==>
      RestoreJournal.ValidRelative(Parts(Staging(archive, s)[i].target))
    ensures forall i, j :: 0 <= i < j < |Staging(archive, s)| ==>
      Staging(archive, s)[i].root != Staging(archive, s)[j].root
        || Staging(archive, s)[i].target != Staging(archive, s)[j].target
  {
    var files := Staging(archive, s);
    AcceptedEntries(archive);
    forall i | 0 <= i < |files|
      ensures RestoreJournal.ValidRelative(Parts(files[i].target))
    {
      var k := StagingOrigin(archive, s, i);
      TargetRelative(archive[k].name);
    }
    forall i, j | 0 <= i < j < |files|
      ensures files[i].root != files[j].root || files[i].target != files[j].target
    {
      StagingApart(archive, s, i, j);
    }
  }
}
