/** How far the limit of the journal file lets a restore get. */
module RestoreCapacity {
  import opened Common
  import opened RestoreJournal
  import opened RestorePlan
  import opened RestoreRecovery

  ghost predicate AllPromoted(ops: seq<Operation>) {
    forall i :: 0 <= i < |ops| ==> ops[i].promoted
  }

  function BeginOf(op: Operation): Record {
    BeginRecord(op.root, op.target, op.existed, op.createdDirs)
  }

  /** What the journal says of entry i once it is promoted. */
  ghost function FullOp(run: RestoreRun, i: nat): Operation
    requires i < |run.plan|
  {
    Operation(run.plan[i].root, run.plan[i].target, Existed(run, i), Created(run, i), Existed(run, i), true)
  }

  ghost function FullOps(run: RestoreRun, k: nat): (ops: seq<Operation>)
    requires k <= |run.plan|
    ensures |ops| == k
  {
    if k == 0 then [] else FullOps(run, k - 1) + [FullOp(run, k - 1)]
  }

  /** With the entries before k promoted, the journal has room for the begin record of entry k. */
  ghost predicate BeginFits(run: RestoreRun, k: nat)
    requires k < |run.plan|
  {
    JournalFits(WrittenOps(run.header, FullOps(run, k)) + [BeginOf(FullOp(run, k))])
  }

  /** And for all records of entry k. */
  ghost predicate EntryFits(run: RestoreRun, k: nat)
    requires k < |run.plan|
  {
    JournalFits(WrittenOps(run.header, FullOps(run, k + 1)))
  }

  /** The journal has room for the whole run. */
  ghost predicate RunFits(run: RestoreRun) {
    JournalFits(Written(run.header, FullOps(run, |run.plan|), true))
  }

  lemma {:induction false} PromotedIsFull(run: RestoreRun, ops: seq<Operation>)
    requires |ops| <= |run.plan| && AllPromoted(ops)
    requires forall i {:trigger Matches(run, i, ops[i])} :: 0 <= i < |ops| ==> Matches(run, i, ops[i])
    ensures ops == FullOps(run, |ops|)
  {
    if ops != [] {
      var n := |ops| - 1;
      var front := ops[..n];
      forall i | 0 <= i < |front|
        ensures Matches(run, i, front[i])
      {
        assert Matches(run, i, ops[i]);
      }
      PromotedIsFull(run, front);
      assert Matches(run, n, ops[n]);
      FullLast(run, n, ops[n]);
      assert ops == front + [ops[n]];
    }
  }

  lemma FullLast(run: RestoreRun, n: nat, op: Operation)
    requires n < |run.plan| && Matches(run, n, op) && op.promoted
    ensures FullOps(run, n + 1) == FullOps(run, n) + [op]
  {
  }

  lemma FullSnoc(run: RestoreRun, k: nat)
    requires k < |run.plan|
    ensures WrittenOps(run.header, FullOps(run, k + 1))
      == WrittenOps(run.header, FullOps(run, k)) + RecordsOf(FullOp(run, k))
  {
    assert FullOps(run, k + 1)[..k] == FullOps(run, k);
  }

  /** The records of an operation begin with its begin record. */
  lemma RecordsBegin(r0: seq<Record>, op: Operation) returns (rest: seq<Record>)
    ensures r0 + RecordsOf(op) == (r0 + [BeginOf(op)]) + rest
  {
    rest := RecordsOf(op)[1..];
    assert RecordsOf(op) == [BeginOf(op)] + rest;
  }

  lemma EntryAfterBegin(run: RestoreRun, k: nat)
    requires k < |run.plan| && EntryFits(run, k)
    ensures BeginFits(run, k)
  {
    FullSnoc(run, k);
    var rest := RecordsBegin(WrittenOps(run.header, FullOps(run, k)), FullOp(run, k));
    FitsBefore(WrittenOps(run.header, FullOps(run, k)) + [BeginOf(FullOp(run, k))], rest);
  }

  lemma EntryBeforeBegin(run: RestoreRun, k: nat)
    requires k + 1 < |run.plan| && BeginFits(run, k + 1)
    ensures EntryFits(run, k)
  {
    FitsBefore(WrittenOps(run.header, FullOps(run, k + 1)), [BeginOf(FullOp(run, k + 1))]);
  }

  lemma {:induction false} BeginAfterEntries(run: RestoreRun, i: nat, k: nat)
    requires i < k < |run.plan| && BeginFits(run, k)
    ensures EntryFits(run, i)
    decreases k
  {
    EntryBeforeBegin(run, k - 1);
    if i + 1 < k {
      EntryAfterBegin(run, k - 1);
      BeginAfterEntries(run, i, k - 1);
    }
  }

  /** Room for a later begin record means room for all earlier ones. */
  lemma BeginsFitDown(run: RestoreRun, i: nat, k: nat)
    requires i <= k < |run.plan| && BeginFits(run, k)
    ensures BeginFits(run, i)
  {
    if i < k {
      BeginAfterEntries(run, i, k);
      EntryAfterBegin(run, i);
    }
  }

  lemma LastEntryFits(run: RestoreRun)
    requires run.plan != [] && RunFits(run)
    ensures EntryFits(run, |run.plan| - 1)
  {
    var all := WrittenOps(run.header, FullOps(run, |run.plan|));
    assert Written(run.header, FullOps(run, |run.plan|), true) == all + [CommitRecord];
    FitsBefore(all, [CommitRecord]);
  }

  lemma RunAfterEntries(run: RestoreRun, i: nat)
    requires i < |run.plan| && RunFits(run)
    ensures EntryFits(run, i)
  {
    LastEntryFits(run);
    if i + 1 < |run.plan| {
      EntryAfterBegin(run, |run.plan| - 1);
      BeginAfterEntries(run, i, |run.plan| - 1);
    }
  }

  /** What was begun had room. */
  lemma {:induction false} BegunFits(run: RestoreRun, ops: seq<Operation>, i: nat)
    requires Begun(run, ops) && JournalFits(WrittenOps(run.header, ops)) && i < |ops|
    ensures BeginFits(run, i)
  {
    var n := |ops| - 1;
    var front, op := ops[..n], ops[n];
    forall j | 0 <= j < |front|
      ensures Matches(run, j, front[j]) && front[j].promoted
    {
      assert Matches(run, j, ops[j]);
    }
    PromotedIsFull(run, front);
    assert Matches(run, n, op);
    var r0 := WrittenOps(run.header, front);
    var rest := RecordsBegin(r0, op);
    assert BeginOf(op) == BeginOf(FullOp(run, n));
    FitsBefore(r0 + [BeginOf(op)], rest);
    BeginsFitDown(run, i, n);
  }

  /** An entry with all its marks is the full one. */
  lemma {:induction false} FullEntry(run: RestoreRun, ops: seq<Operation>, op: Operation)
    requires |ops| < |run.plan| && ops == FullOps(run, |ops|) && Matches(run, |ops|, op) && op.promoted
    ensures ops + [op] == FullOps(run, |ops| + 1)
    ensures Written(run.header, ops + [op], false) == WrittenOps(run.header, FullOps(run, |ops| + 1))
  {
  }

  lemma RecordsPart(op: Operation, full: Operation) returns (rest: seq<Record>)
    requires full == op.(backedUp := full.backedUp, promoted := full.promoted) && FlagsOrdered(op)
    requires full.promoted && full.backedUp == full.existed
    ensures RecordsOf(full) == RecordsOf(op) + rest
  {
    rest := RecordsOf(full)[|RecordsOf(op)|..];
  }

  /** An entry with fewer marks has shorter records. */
  lemma {:induction false} PartFits(run: RestoreRun, ops: seq<Operation>, op: Operation)
    requires |ops| < |run.plan| && ops == FullOps(run, |ops|) && Matches(run, |ops|, op) && EntryFits(run, |ops|)
    ensures JournalFits(Written(run.header, ops + [op], false))
  {
    FullSnoc(run, |ops|);
    var r0 := WrittenOps(run.header, ops);
    var rest := RecordsPart(op, FullOp(run, |ops|));
    assert r0 + (RecordsOf(op) + rest) == (r0 + RecordsOf(op)) + rest;
    FitsBefore(r0 + RecordsOf(op), rest);
    WrittenSnoc(run.header, ops, op);
  }

  lemma WrittenSnoc(header: Header, ops: seq<Operation>, op: Operation)
    ensures Written(header, ops + [op], false) == WrittenOps(header, ops) + RecordsOf(op)
  {
    assert (ops + [op])[..|ops|] == ops;
  }

  lemma {:induction false} BeginWritten(run: RestoreRun, ops: seq<Operation>, op: Operation)
    requires |ops| < |run.plan| && ops == FullOps(run, |ops|) && Matches(run, |ops|, op)
    ensures JournalFits(Written(run.header, ops, false) + [BeginOf(op)]) <==> BeginFits(run, |ops|)
  {
    assert Written(run.header, ops, false) == WrittenOps(run.header, ops);
    assert BeginOf(op) == BeginOf(FullOp(run, |ops|));
  }

  /** The commit record had room when it is there. */
  lemma {:induction false} CommittedFits(run: RestoreRun, ops: seq<Operation>)
    requires Begun(run, ops) && |ops| == |run.plan| && AllPromoted(ops)
    ensures Written(run.header, ops, true) == Written(run.header, FullOps(run, |run.plan|), true)
    ensures JournalFits(Written(run.header, ops, true)) <==> RunFits(run)
  {
    PromotedIsFull(run, ops);
  }

  // ---- One entry always fits behind a short header

  lemma {:induction false} EscapedBound(s: string)
    ensures EscapedLength(s) <= 6 * ByteLength(s)
  {
    if s != "" { EscapedBound(s[1..]); }
  }

  lemma {:induction false} EscapedPathBound(p: Path)
    ensures EscapedPath(p) <= 6 * PathLength(p)
  {
    if p != [] {
      EscapedBound(p[0]);
      if |p| > 1 { EscapedPathBound(p[1..]); }
    }
  }

  lemma {:induction false} ComponentsBound(p: Path)
    requires forall i :: 0 <= i < |p| ==> p[i] != ""
    ensures |p| <= PathLength(p)
  {
    if p != [] {
      assert ByteLength(p[0]) >= 1;
      if |p| > 1 { ComponentsBound(p[1..]); }
    }
  }

  lemma {:induction false} ListBound(paths: seq<Path>)
    requires forall i :: 0 <= i < |paths| ==> ValidRelative(paths[i])
    ensures ListLength(paths) <= 24_579 * |paths|
  {
    if paths != [] {
      ListBound(paths[..|paths| - 1]);
      EscapedPathBound(paths[|paths| - 1]);
    }
  }

  lemma {:induction false} DirsBound(target: Path, dirs: seq<Path>, i: nat)
    requires BeginAccepted(target, dirs) && i < |dirs|
    ensures i < |dirs[i]|
  {
    if i > 0 { DirsBound(target, dirs, i - 1); }
  }

  lemma BeginBound(op: Operation)
    requires BeginAccepted(op.target, op.createdDirs)
    ensures JournalBytes([BeginOf(op)]) <= 100_900_000
  {
    var dirs, begin := op.createdDirs, [BeginOf(op)];
    EscapedPathBound(op.target);
    ListBound(dirs);
    if dirs != [] {
      DirsBound(op.target, dirs, |dirs| - 1);
      ComponentsBound(op.target);
    }
    assert JournalBytes(begin) == JournalBytes([]) + EncodedLength(begin[0]);
  }

  lemma OperationBound(op: Operation)
    requires BeginAccepted(op.target, op.createdDirs)
    ensures JournalBytes(RecordsOf(op)) <= 101_000_000
  {
    var begin := [BeginOf(op)];
    BeginBound(op);
    EscapedPathBound(op.target);
    var backed := if op.backedUp then [BackedUpRecord(op.root, op.target)] else [];
    var promoted := if op.promoted then [PromotedRecord(op.root, op.target)] else [];
    assert JournalBytes(backed) <= 30_000;
    assert JournalBytes(promoted) <= 30_000;
    JournalBytesConcat(begin, backed);
    JournalBytesConcat(begin + backed, promoted);
    assert RecordsOf(op) == begin + backed + promoted;
  }

  lemma FirstFits(run: RestoreRun)
    requires GoodPlan(run) && run.plan != [] && JournalBytes(WrittenOps(run.header, [])) <= 1_000_000
    ensures EntryFits(run, 0) && BeginFits(run, 0)
  {
    PlanFacts(run);
    var op := FullOp(run, 0);
    MissingAccepted(Level(run, 0), op.root, op.target);
    OperationBound(op);
    FullSnoc(run, 0);
    assert FullOps(run, 0) == [];
    JournalBytesConcat(WrittenOps(run.header, []), RecordsOf(op));
    EntryAfterBegin(run, 0);
  }
}
