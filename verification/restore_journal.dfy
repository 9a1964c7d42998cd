/** The restore journal: what promotion writes and what recovery reads back. */
module RestoreJournal {
  import opened Common

  const MAX_RESTORE_ENTRIES := 200_000
  const MAX_ARCHIVE_PATH_LENGTH := 4096
  const MAX_RECORDS := MAX_RESTORE_ENTRIES * 3 + 2
  const JOURNAL_VERSION := 1
  const MAX_JOURNAL_BYTES := 0x1000_0000  // 256 MiB

  datatype Root = Project | Config | Secrets

  datatype Header = Header(id: string, project: Path, config: Path, secrets: Path)

  /** One line of the journal. Unreadable stands for a torn or undecodable line. */
  datatype Record =
    | HeaderRecord(version: nat, header: Header)
    | BeginRecord(root: Root, target: Path, existed: bool, createdDirs: seq<Path>)
    | BackedUpRecord(root: Root, target: Path)
    | PromotedRecord(root: Root, target: Path)
    | CommitRecord
    | Unreadable

  datatype Operation = Operation(
    root: Root, target: Path, existed: bool, createdDirs: seq<Path>,
    backedUp: bool, promoted: bool)

  datatype JournalState = JournalState(header: Header, operations: seq<Operation>, committed: bool)

  // ---- How long a record is in the file: one JSON object and a line break

  /** A character in a JSON string. */
  function EscapedChar(c: char): nat {
    var n := c as int;
    if c == '"' || c == '\\' || n in {8, 9, 10, 12, 13} then 2
    else if n < 0x20 || c in "<>&" || n == 0x2028 || n == 0x2029 then 6
    else Utf8Length(c)
  }

  function EscapedLength(s: string): nat {
    if s == "" then 0 else EscapedChar(s[0]) + EscapedLength(s[1..])
  }

  /** A relative path written with slashes. */
  function EscapedPath(p: Path): nat {
    if p == [] then 0
    else if |p| == 1 then EscapedLength(p[0])
    else EscapedLength(p[0]) + 1 + EscapedPath(p[1..])
  }

  /** The quoted paths of a list, separated by commas. */
  function ListLength(paths: seq<Path>): nat {
    if paths == [] then 0
    else ListLength(paths[..|paths| - 1]) + EscapedPath(paths[|paths| - 1]) + if |paths| == 1 then 2 else 3
  }

  function DigitCount(n: nat): nat {
    if n < 10 then 1 else DigitCount(n / 10) + 1
  }

  function RootLength(root: Root): nat {
    match root case Project => 7 case Config => 6 case Secrets => 7
  }

  /** The fixed parts are the keys, quotes and braces; false and empty fields are left out. */
  function EncodedLength(r: Record): nat {
    match r
    case HeaderRecord(version, h) =>
      91 + DigitCount(version) + EscapedLength(h.id)
      + 3 + EscapedPath(h.project) + EscapedPath(h.config) + EscapedPath(h.secrets)
    case BeginRecord(root, target, existed, dirs) =>
      40 + RootLength(root) + EscapedPath(target) + (if existed then 15 else 0)
      + (if dirs == [] then 0 else 18 + ListLength(dirs))
    case BackedUpRecord(root, target) => 44 + RootLength(root) + EscapedPath(target)
    case PromotedRecord(root, target) => 43 + RootLength(root) + EscapedPath(target)
    case CommitRecord => 19
    case Unreadable => 0
  }

  function JournalBytes(records: seq<Record>): nat {
    if records == [] then 0
    else JournalBytes(records[..|records| - 1]) + EncodedLength(records[|records| - 1])
  }

  /** restoreJournalWriter.append and loadRestoreJournal: the file never exceeds its limit. */
  predicate JournalFits(records: seq<Record>) {
    JournalBytes(records) <= MAX_JOURNAL_BYTES
  }

  lemma {:induction false} JournalBytesConcat(a: seq<Record>, b: seq<Record>)
    ensures JournalBytes(a + b) == JournalBytes(a) + JournalBytes(b)
    decreases |b|
  {
    if b == [] {
      assert a + b == a;
    } else {
      assert (a + b)[..|a + b| - 1] == a + b[..|b| - 1];
      JournalBytesConcat(a, b[..|b| - 1]);
    }
  }

  /** A journal that fits fitted all along. */
  lemma FitsBefore(a: seq<Record>, b: seq<Record>)
    requires JournalFits(a + b)
    ensures JournalFits(a)
  {
    JournalBytesConcat(a, b);
  }

  /** validateRestoreRelativePath: local, clean, bounded. */
  predicate ValidRelative(p: Path) {
    p != [] && (forall i :: 0 <= i < |p| ==> ValidComponent(p[i])) && PathLength(p) <= MAX_ARCHIVE_PATH_LENGTH
  }

  predicate HexDigit(c: char) {
    '0' <= c <= '9' || 'a' <= c <= 'f' || 'A' <= c <= 'F'
  }

  predicate ValidTransactionId(id: string) {
    |id| == 48 && forall i :: 0 <= i < 48 ==> HexDigit(id[i])
  }

  /** No root is the filesystem root, and none contains another except project/config, project/secrets. */
  predicate ValidRoots(h: Header) {
    && h.project != [] && h.config != [] && h.secrets != []
    && !(h.config <= h.project) && !(h.secrets <= h.project)
    && !(h.config <= h.secrets) && !(h.secrets <= h.config)
  }

  predicate HeaderAccepted(r: Record, expectedProject: Path) {
    && r.HeaderRecord? && r.version == JOURNAL_VERSION
    && ValidTransactionId(r.header.id) && ValidRoots(r.header)
    && r.header.project == expectedProject
  }

  function Dir(p: Path): Path
    requires p != []
  {
    p[..|p| - 1]
  }

  /** validateRestoreJournalOperation: each directory is an ancestor of the target, one level below the one before. */
  predicate BeginAccepted(target: Path, dirs: seq<Path>) {
    && ValidRelative(target)
    && (forall i :: 0 <= i < |dirs| ==> ValidRelative(dirs[i]) && dirs[i] <= Dir(target))
    && (forall i :: 0 < i < |dirs| ==> Dir(dirs[i]) == dirs[i - 1])
  }

  /** Position of the operation recorded for (root, target), or |ops| when there is none. */
  function FindOperation(ops: seq<Operation>, root: Root, target: Path): (i: nat)
    ensures i <= |ops|
    ensures i < |ops| ==> ops[i].root == root && ops[i].target == target
    ensures forall j :: 0 <= j < i ==> !(ops[j].root == root && ops[j].target == target)
  {
    if ops == [] then 0
    else if ops[0].root == root && ops[0].target == target then 0
    else 1 + FindOperation(ops[1..], root, target)
  }

  /** One record after the header; None is a refused journal. */
  function ReadRecord(st: JournalState, r: Record): Option<JournalState> {
    if st.committed then None
    else match r
      case BeginRecord(root, target, existed, dirs) =>
        if !BeginAccepted(target, dirs) || FindOperation(st.operations, root, target) < |st.operations| then None
        else Some(st.(operations := st.operations + [Operation(root, target, existed, dirs, false, false)]))
      case BackedUpRecord(root, target) =>
        var i := FindOperation(st.operations, root, target);
        if !ValidRelative(target) || i == |st.operations|
           || !st.operations[i].existed || st.operations[i].backedUp then None
        else Some(st.(operations := st.operations[i := st.operations[i].(backedUp := true)]))
      case PromotedRecord(root, target) =>
        var i := FindOperation(st.operations, root, target);
        if !ValidRelative(target) || i == |st.operations| || st.operations[i].promoted
           || (st.operations[i].existed && !st.operations[i].backedUp) then None
        else Some(st.(operations := st.operations[i := st.operations[i].(promoted := true)]))
      case CommitRecord => Some(st.(committed := true))
      case HeaderRecord(_, _) => None
      case Unreadable => None
  }

  function ReadAll(records: seq<Record>, expectedProject: Path): Option<JournalState> {
    if records == [] then None
    else if |records| == 1 then
      if HeaderAccepted(records[0], expectedProject) then Some(JournalState(records[0].header, [], false)) else None
    else
      match ReadAll(records[..|records| - 1], expectedProject)
      case None => None
      case Some(st) => ReadRecord(st, records[|records| - 1])
  }

  /** What a journal means: a state, or a refusal. */
  function Load(records: seq<Record>, expectedProject: Path): Option<JournalState> {
    if !JournalFits(records) || |records| > MAX_RECORDS then None else ReadAll(records, expectedProject)
  }

  lemma {:induction false} RefusedStaysRefused(records: seq<Record>, more: seq<Record>, project: Path)
    requires records != [] && ReadAll(records, project).None?
    ensures ReadAll(records + more, project).None?
  {
    if more != [] {
      RefusedStaysRefused(records, more[..|more| - 1], project);
      assert (records + more)[..|records + more| - 1] == records + more[..|more| - 1];
    } else {
      assert records + more == records;
    }
  }

  /** A journal with a torn record anywhere, or none at all, is refused as a whole. */
  lemma {:induction false} TornJournalRefused(records: seq<Record>, project: Path)
    requires records == [] || Unreadable in records
    ensures Load(records, project).None?
  {
    if records != [] {
      var i :| 0 <= i < |records| && records[i].Unreadable?;
      assert records[..i + 1] + records[i + 1..] == records;
      RefusedStaysRefused(records[..i + 1], records[i + 1..], project);
    }
  }

  /** The reader's index: exactly the recorded operations, each at its position. */
  ghost predicate Indexed(ops: seq<Operation>, index: map<(Root, Path), nat>) {
    forall root, target ::
      && ((root, target) in index <==> FindOperation(ops, root, target) < |ops|)
      && ((root, target) in index ==> index[(root, target)] == FindOperation(ops, root, target))
  }

  /** One iteration of the reader's loop after the header. */
  method ReadIndexed(st: JournalState, index: map<(Root, Path), nat>, r: Record)
    returns (next: Option<JournalState>, index': map<(Root, Path), nat>)
    requires Indexed(st.operations, index)
    ensures next == ReadRecord(st, r)
    ensures next.Some? ==> Indexed(next.value.operations, index')
  {
    next, index' := None, index;
    if st.committed {
      return;
    }
    match r {
      case BeginRecord(root, target, existed, dirs) =>
        if BeginAccepted(target, dirs) && (root, target) !in index {
          var op := Operation(root, target, existed, dirs, false, false);
          FindAfterAppend(st.operations, op);
          index' := index[(root, target) := |st.operations|];
          next := Some(st.(operations := st.operations + [op]));
        }
      case BackedUpRecord(root, target) =>
        if ValidRelative(target) && (root, target) in index {
          var i := index[(root, target)];
          if st.operations[i].existed && !st.operations[i].backedUp {
            FindAfterUpdate(st.operations, i, st.operations[i].(backedUp := true));
            next := Some(st.(operations := st.operations[i := st.operations[i].(backedUp := true)]));
          }
        }
      case PromotedRecord(root, target) =>
        if ValidRelative(target) && (root, target) in index {
          var i := index[(root, target)];
          if !st.operations[i].promoted && (st.operations[i].existed ==> st.operations[i].backedUp) {
            FindAfterUpdate(st.operations, i, st.operations[i].(promoted := true));
            next := Some(st.(operations := st.operations[i := st.operations[i].(promoted := true)]));
          }
        }
      case CommitRecord => next := Some(st.(committed := true));
      case HeaderRecord(_, _) =>
      case Unreadable =>
    }
  }

  /** loadRestoreJournal: one pass with an index from (root, target) to the operation. */
  method LoadRestoreJournal(records: seq<Record>, expectedProject: Path) returns (state: Option<JournalState>)
    ensures state == Load(records, expectedProject)
  {
    state := None;
    if !JournalFits(records) {
      return;
    }
    var index: map<(Root, Path), nat> := map[];
    var n := 0;
    while n <= MAX_RECORDS && n < |records|
      invariant 0 <= n <= |records| && n <= MAX_RECORDS + 1
      invariant n == 0 ==> state == None && index == map[]
      invariant n > 0 ==> state.Some? && ReadAll(records[..n], expectedProject) == state
      invariant state.Some? ==> Indexed(state.value.operations, index)
    {
      assert records[..n + 1][..n] == records[..n];
      if n == 0 {
        if HeaderAccepted(records[0], expectedProject) {
          state := Some(JournalState(records[0].header, [], false));
        }
      } else {
        state, index := ReadIndexed(state.value, index, records[n]);
      }
      n := n + 1;
      if state.None? {
        LoadPrefixRefused(records, n, expectedProject);
        return;
      }
    }
    if n > MAX_RECORDS {
      return None;
    }
    assert records[..n] == records;
  }

  lemma LoadPrefixRefused(records: seq<Record>, n: nat, project: Path)
    requires 0 < n <= |records| && ReadAll(records[..n], project).None?
    ensures Load(records, project).None?
  {
    RefusedStaysRefused(records[..n], records[n..], project);
    assert records[..n] + records[n..] == records;
  }

  function FoundAfterAppend(ops: seq<Operation>, op: Operation, root: Root, target: Path): nat {
    var i := FindOperation(ops, root, target);
    if i < |ops| then i else if root == op.root && target == op.target then |ops| else |ops| + 1
  }

  lemma {:induction false} FindAfterAppend(ops: seq<Operation>, op: Operation)
    ensures forall root, target :: FindOperation(ops + [op], root, target) == FoundAfterAppend(ops, op, root, target)
  {
    forall root, target
      ensures FindOperation(ops + [op], root, target) == FoundAfterAppend(ops, op, root, target)
    {
      FindUnique(ops + [op], root, target, FoundAfterAppend(ops, op, root, target));
    }
  }

  lemma FindUnique(ops: seq<Operation>, root: Root, target: Path, i: nat)
    requires i <= |ops|
    requires i < |ops| ==> ops[i].root == root && ops[i].target == target
    requires forall j :: 0 <= j < i ==> !(ops[j].root == root && ops[j].target == target)
    ensures FindOperation(ops, root, target) == i
  {
  }

  lemma FindAfterUpdate(ops: seq<Operation>, i: nat, op: Operation)
    requires i < |ops| && ops[i].root == op.root && ops[i].target == op.target
    ensures forall root, target :: FindOperation(ops[i := op], root, target) == FindOperation(ops, root, target)
  {
    forall root, target
      ensures FindOperation(ops[i := op], root, target) == FindOperation(ops, root, target)
    {
      FindUnique(ops[i := op], root, target, FindOperation(ops, root, target));
    }
  }

  // ---- The writer's side

  /** The records promotion has appended for one operation, in order. */
  function RecordsOf(op: Operation): seq<Record> {
    [BeginRecord(op.root, op.target, op.existed, op.createdDirs)]
    + (if op.backedUp then [BackedUpRecord(op.root, op.target)] else [])
    + (if op.promoted then [PromotedRecord(op.root, op.target)] else [])
  }

  function WrittenOps(header: Header, ops: seq<Operation>): seq<Record> {
    if ops == [] then [HeaderRecord(JOURNAL_VERSION, header)]
    else WrittenOps(header, ops[..|ops| - 1]) + RecordsOf(ops[|ops| - 1])
  }

  /** The journal after the operations in ops were begun and progressed as their flags say. */
  function Written(header: Header, ops: seq<Operation>, committed: bool): seq<Record> {
    WrittenOps(header, ops) + (if committed then [CommitRecord] else [])
  }

  predicate SameTarget(a: Operation, b: Operation) {
    a.root == b.root && a.target == b.target
  }

  predicate FlagsOrdered(op: Operation) {
    (op.backedUp ==> op.existed) && (op.promoted && op.existed ==> op.backedUp)
  }

  /** What promotion can have journaled: distinct targets, and only the last operation still in progress. */
  ghost predicate Writable(ops: seq<Operation>) {
    && |ops| <= MAX_RESTORE_ENTRIES
    && (forall i :: 0 <= i < |ops| ==> BeginAccepted(ops[i].target, ops[i].createdDirs) && FlagsOrdered(ops[i]))
    && (forall i :: 0 <= i < |ops| - 1 ==> ops[i].promoted)
    && (forall i, j :: 0 <= i < j < |ops| ==> !SameTarget(ops[i], ops[j]))
  }

  lemma {:induction false} WrittenBound(header: Header, ops: seq<Operation>)
    ensures 1 <= |WrittenOps(header, ops)| <= 3 * |ops| + 1
  {
    if ops != [] { WrittenBound(header, ops[..|ops| - 1]); }
  }

  lemma ReadOne(records: seq<Record>, r: Record, project: Path, st: JournalState)
    requires records != [] && ReadAll(records, project) == Some(st)
    ensures ReadAll(records + [r], project) == ReadRecord(st, r)
  {
    assert (records + [r])[..|records + [r]| - 1] == records;
  }

  lemma ReadBegin(r0: seq<Record>, st: JournalState, op: Operation, project: Path)
    requires r0 != [] && ReadAll(r0, project) == Some(st) && !st.committed
    requires BeginAccepted(op.target, op.createdDirs) && !op.backedUp && !op.promoted
    requires forall i :: 0 <= i < |st.operations| ==> !SameTarget(st.operations[i], op)
    ensures ReadAll(r0 + [BeginRecord(op.root, op.target, op.existed, op.createdDirs)], project)
      == Some(st.(operations := st.operations + [op]))
  {
    FindUnique(st.operations, op.root, op.target, |st.operations|);
    ReadOne(r0, BeginRecord(op.root, op.target, op.existed, op.createdDirs), project, st);
  }

  /** Reading the records of one further operation adds exactly that operation. */
  lemma ReadBackOne(r0: seq<Record>, st: JournalState, op: Operation, project: Path)
    requires r0 != [] && ReadAll(r0, project) == Some(st) && !st.committed
    requires BeginAccepted(op.target, op.createdDirs) && FlagsOrdered(op)
    requires forall i :: 0 <= i < |st.operations| ==> !SameTarget(st.operations[i], op)
    ensures ReadAll(r0 + RecordsOf(op), project) == Some(st.(operations := st.operations + [op]))
  {
    var begun := op.(backedUp := false, promoted := false);
    ReadBegin(r0, st, begun, project);
    var r1 := r0 + [BeginRecord(op.root, op.target, op.existed, op.createdDirs)];
    var st1 := st.(operations := st.operations + [begun]);
    var backed := begun.(backedUp := op.backedUp);
    var r2, st2 := r1, st1;
    if op.backedUp {
      ReadMark(r1, st1, begun, BackedUpRecord(op.root, op.target), backed, project);
      r2, st2 := r1 + [BackedUpRecord(op.root, op.target)], st1.(operations := st.operations + [backed]);
    }
    if op.promoted {
      ReadMark(r2, st2, backed, PromotedRecord(op.root, op.target), op, project);
      assert r2 + [PromotedRecord(op.root, op.target)] == r0 + RecordsOf(op);
    } else {
      assert r2 == r0 + RecordsOf(op);
    }
  }

  lemma ReadMark(r: seq<Record>, st: JournalState, last: Operation, mark: Record, next: Operation, project: Path)
    requires r != [] && ReadAll(r, project) == Some(st) && !st.committed
    requires st.operations != [] && st.operations[|st.operations| - 1] == last && ValidRelative(last.target)
    requires forall i :: 0 <= i < |st.operations| - 1 ==> !SameTarget(st.operations[i], last)
    requires || (mark == BackedUpRecord(last.root, last.target) && last.existed && !last.backedUp
                 && next == last.(backedUp := true))
             || (mark == PromotedRecord(last.root, last.target) && !last.promoted && (last.existed ==> last.backedUp)
                 && next == last.(promoted := true))
    ensures ReadAll(r + [mark], project) == Some(st.(operations := st.operations[..|st.operations| - 1] + [next]))
  {
    var n := |st.operations| - 1;
    FindUnique(st.operations, last.root, last.target, n);
    ReadOne(r, mark, project, st);
    assert st.operations[n := next] == st.operations[..n] + [next];
  }

  lemma {:induction false} ReadBackOps(header: Header, ops: seq<Operation>)
    requires HeaderAccepted(HeaderRecord(JOURNAL_VERSION, header), header.project) && Writable(ops)
    ensures ReadAll(WrittenOps(header, ops), header.project) == Some(JournalState(header, ops, false))
  {
    if ops != [] {
      var done, op := ops[..|ops| - 1], ops[|ops| - 1];
      WritableFront(ops);
      ReadBackOps(header, done);
      ReadBackNext(header, done, op);
      assert done + [op] == ops;
    }
  }

  lemma ReadBackNext(header: Header, done: seq<Operation>, op: Operation)
    requires ReadAll(WrittenOps(header, done), header.project) == Some(JournalState(header, done, false))
    requires BeginAccepted(op.target, op.createdDirs) && FlagsOrdered(op)
    requires forall i :: 0 <= i < |done| ==> !SameTarget(done[i], op)
    ensures ReadAll(WrittenOps(header, done + [op]), header.project)
      == Some(JournalState(header, done + [op], false))
  {
    WrittenBound(header, done);
    ReadBackOne(WrittenOps(header, done), JournalState(header, done, false), op, header.project);
    assert (done + [op])[..|done|] == done;
  }

  lemma WritableFront(ops: seq<Operation>)
    requires Writable(ops) && ops != []
    ensures var done, op := ops[..|ops| - 1], ops[|ops| - 1];
      && Writable(done) && BeginAccepted(op.target, op.createdDirs) && FlagsOrdered(op)
      && forall i :: 0 <= i < |done| ==> !SameTarget(done[i], op)
  {
  }

  /** Round trip: recovery rebuilds exactly the begun operations, their flags and the commit mark. */
  lemma {:induction false} ReadBack(header: Header, ops: seq<Operation>, committed: bool)
    requires HeaderAccepted(HeaderRecord(JOURNAL_VERSION, header), header.project) && Writable(ops)
    requires JournalFits(Written(header, ops, committed))
    ensures Load(Written(header, ops, committed), header.project) == Some(JournalState(header, ops, committed))
  {
    ReadBackOps(header, ops);
    WrittenBound(header, ops);
    if committed {
      ReadOne(WrittenOps(header, ops), CommitRecord, header.project, JournalState(header, ops, false));
    } else {
      assert Written(header, ops, false) == WrittenOps(header, ops);
    }
  }

  /** The commit record is there exactly when it was written. */
  lemma {:induction false} WrittenCommit(header: Header, ops: seq<Operation>, committed: bool)
    ensures CommitRecord in Written(header, ops, committed) <==> committed
    decreases |ops|, committed
  {
    if committed {
      assert CommitRecord in [CommitRecord];
    } else if ops != [] {
      WrittenCommit(header, ops[..|ops| - 1], false);
    }
  }

  lemma CutLast(op: Operation, k: nat) returns (last: Operation)
    requires FlagsOrdered(op) && 0 < k <= |RecordsOf(op)|
    ensures RecordsOf(op)[..k] == RecordsOf(last)
    ensures last.(backedUp := op.backedUp, promoted := op.promoted) == op && FlagsOrdered(last)
  {
    last := op.(backedUp := op.backedUp && k >= 2, promoted := op.promoted && k == |RecordsOf(op)|);
  }

  lemma WritableCut(ops: seq<Operation>, last: Operation)
    requires Writable(ops) && ops != [] && FlagsOrdered(last)
    requires last.(backedUp := ops[|ops| - 1].backedUp, promoted := ops[|ops| - 1].promoted) == ops[|ops| - 1]
    ensures Writable(ops[..|ops| - 1]) && Writable(ops[..|ops| - 1] + [last])
  {
    var cut := ops[..|ops| - 1] + [last];
    forall i, j | 0 <= i < j < |cut|
      ensures !SameTarget(cut[i], cut[j])
    {
      assert !SameTarget(ops[i], ops[j]);
    }
  }

  /** cut begins the operations of ops up to some point, the last one possibly with fewer marks. */
  ghost predicate CutOf(cut: seq<Operation>, ops: seq<Operation>) {
    && |cut| <= |ops|
    && (forall i :: 0 <= i < |cut| - 1 ==> cut[i] == ops[i])
    && (cut != [] ==>
         cut[|cut| - 1].(backedUp := ops[|cut| - 1].backedUp, promoted := ops[|cut| - 1].promoted) == ops[|cut| - 1])
  }

  /** Every record-boundary prefix of a run's journal is again a journal that promotion can have written. */
  lemma {:induction false} PrefixIsWritten(header: Header, ops: seq<Operation>, n: nat) returns (cut: seq<Operation>)
    requires Writable(ops) && 0 < n <= |WrittenOps(header, ops)|
    ensures Writable(cut) && CutOf(cut, ops) && WrittenOps(header, ops)[..n] == WrittenOps(header, cut)
  {
    if ops == [] {
      return [];
    }
    var done, op := ops[..|ops| - 1], ops[|ops| - 1];
    var r0 := WrittenOps(header, done);
    WritableCut(ops, op);
    assert done + [op] == ops;
    if n <= |r0| {
      cut := PrefixIsWritten(header, done, n);
      CutMore(cut, done, op);
      PrefixInDone(header, done, op, n);
    } else {
      var last := CutLast(op, n - |r0|);
      WritableCut(ops, last);
      cut := done + [last];
      CutHere(done, op, last);
      PrefixInLast(header, done, op, last, n);
    }
  }

  lemma CutMore(cut: seq<Operation>, done: seq<Operation>, op: Operation)
    requires CutOf(cut, done)
    ensures CutOf(cut, done + [op])
  {
  }

  lemma CutHere(done: seq<Operation>, op: Operation, last: Operation)
    requires last.(backedUp := op.backedUp, promoted := op.promoted) == op
    ensures CutOf(done + [last], done + [op])
  {
  }

  lemma PrefixInDone(header: Header, done: seq<Operation>, op: Operation, n: nat)
    requires n <= |WrittenOps(header, done)|
    ensures |WrittenOps(header, done + [op])| >= n
    ensures WrittenOps(header, done + [op])[..n] == WrittenOps(header, done)[..n]
  {
    assert (done + [op])[..|done|] == done;
  }

  lemma PrefixInLast(header: Header, done: seq<Operation>, op: Operation, last: Operation, n: nat)
    requires |WrittenOps(header, done)| < n <= |WrittenOps(header, done + [op])|
    requires RecordsOf(op)[..n - |WrittenOps(header, done)|] == RecordsOf(last)
    ensures WrittenOps(header, done + [op])[..n] == WrittenOps(header, done + [last])
  {
    assert (done + [op])[..|done|] == done && (done + [last])[..|done|] == done;
    var r0 := WrittenOps(header, done);
    assert (r0 + RecordsOf(op))[..n] == r0 + RecordsOf(op)[..n - |r0|];
  }

  /** So a crash between two appends leaves a journal that recovery accepts, and reads as the operations begun so far.
      */
  lemma CutJournalLoads(header: Header, ops: seq<Operation>, n: nat) returns (cut: seq<Operation>)
    requires HeaderAccepted(HeaderRecord(JOURNAL_VERSION, header), header.project) && Writable(ops)
    requires 0 < n <= |WrittenOps(header, ops)| && JournalFits(WrittenOps(header, ops))
    ensures CutOf(cut, ops)
    ensures Load(WrittenOps(header, ops)[..n], header.project) == Some(JournalState(header, cut, false))
  {
    cut := PrefixIsWritten(header, ops, n);
    assert WrittenOps(header, ops)[..n] + WrittenOps(header, ops)[n..] == WrittenOps(header, ops);
    FitsBefore(WrittenOps(header, ops)[..n], WrittenOps(header, ops)[n..]);
    assert Written(header, cut, false) == WrittenOps(header, cut);
    ReadBack(header, cut, false);
  }
}
