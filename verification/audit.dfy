/** The audit log: an append-only file of one-line records, read back through a window at its end. */
module Audit {
  import opened Common
  import opened Lines

  const WINDOW: nat := 0x80_0000  // 8 MiB
  const MAX_LIMIT: int := 500

  /** An encoded event: one line, not blank, with no white space at either end. */
  predicate Record(r: string) {
    r != "" && Trimmed(r) && OneLine(r)
  }

  predicate Records(log: seq<string>) {
    forall i :: 0 <= i < |log| ==> Record(log[i])
  }

  /** A file of whole records. */
  function Text(log: seq<string>): string {
    if log == [] then "" else Text(log[..|log| - 1]) + log[|log| - 1] + "\n"
  }

  function NewlineAt(s: string): (i: nat)
    ensures i <= |s| && (i < |s| ==> s[i] == '\n') && forall j :: 0 <= j < i ==> s[j] != '\n'
  {
    if s == "" || s[0] == '\n' then 0 else 1 + NewlineAt(s[1..])
  }

  /** The window's content from the first line that starts in it; None when no line does. */
  function Visible(file: string): Option<string> {
    if |file| <= WINDOW then Some(file)
    else
      var data := file[|file| - WINDOW..];
      var newline := NewlineAt(data);
      if newline < |data| then Some(data[newline + 1..]) else None
  }

  /** Newest first, at most limit, blank lines left out; None when a line met on the way is damaged. */
  function Newest(lines: seq<string>, limit: nat, damaged: set<string>): Option<seq<string>>
    decreases |lines|
  {
    if lines == [] || limit == 0 then Some([])
    else
      var n := |lines| - 1;
      if TrimSpace(lines[n]) == "" then Newest(lines[..n], limit, damaged)
      else if lines[n] in damaged then None
      else Before([lines[n]], Newest(lines[..n], limit - 1, damaged))
  }

  function Before(newer: seq<string>, older: Option<seq<string>>): (r: Option<seq<string>>)
    ensures newer == [] ==> r == older
  {
    match older
    case None => None
    case Some(events) => assert newer == [] ==> newer + events == events; Some(newer + events)
  }

  lemma BeforeTwice(a: seq<string>, b: seq<string>, older: Option<seq<string>>)
    ensures Before(a, Before(b, older)) == Before(a + b, older)
  {
    if older.Some? { assert a + (b + older.value) == a + b + older.value; }
  }

  /** What a read answers. */
  function Answer(file: string, limit: int, damaged: set<string>): Option<seq<string>> {
    if limit <= 0 || limit > MAX_LIMIT then None
    else match Visible(file)
      case None => Some([])
      case Some(data) => Newest(Split(TrimSpace(data)), limit, damaged)
  }

  class FileAuditor {
    var file: string

    constructor ()
      ensures file == ""
    {
      file := "";
    }

    /** Record: the encoded event and a newline, appended in one write. */
    method Append(record: string, ghost log: seq<string>)
      requires file == Text(log) && Records(log) && Record(record)
      modifies this
      ensures file == Text(log + [record]) && Records(log + [record])
    {
      file := file + record + "\n";
      assert (log + [record])[..|log|] == log;
    }

    /** Recent; damaged are the lines that do not decode. */
    method Recent(limit: int, damaged: set<string>) returns (events: Option<seq<string>>)
      ensures events == Answer(file, limit, damaged)
    {
      if limit <= 0 || limit > MAX_LIMIT { return None; }
      var start := if |file| > WINDOW then |file| - WINDOW else 0;
      var data := file[start..];
      if start > 0 {
        var newline := NewlineAt(data);
        if newline == |data| { return Some([]); }
        data := data[newline + 1..];
      } else {
        assert data == file;
      }
      events := LastLines(Split(TrimSpace(data)), limit, damaged);
    }
  }

  /** The backwards loop. */
  method LastLines(lines: seq<string>, limit: nat, damaged: set<string>) returns (events: Option<seq<string>>)
    ensures events == Newest(lines, limit, damaged)
  {
    var result: seq<string> := [];
    var index := |lines|;
    ghost var rest := lines;
    while index > 0 && |result| < limit
      invariant |rest| == index && rest == lines[..index] && |result| <= limit
      invariant Newest(lines, limit, damaged) == Before(result, Newest(rest, limit - |result|, damaged))
    {
      index := index - 1;
      var line := lines[index];
      assert line == rest[index];
      ghost var older := Newest(rest[..index], limit - |result| - 1, damaged);
      rest := rest[..index];
      if TrimSpace(line) == "" { continue; }
      if line in damaged { return None; }
      BeforeTwice(result, [line], older);
      result := result + [line];
    }
    assert result + [] == result;
    return Some(result);
  }

  // ---- Against the whole log

  function Last(log: seq<string>, k: nat): seq<string>
    requires k <= |log|
  {
    log[|log| - k..]
  }

  function Reversed(log: seq<string>): seq<string> {
    if log == [] then [] else [log[|log| - 1]] + Reversed(log[..|log| - 1])
  }

  /** How many of the newest records the window shows: all when the file fits, otherwise those that take strictly
      fewer bytes than the window, because the first line in the window is dropped even when it is whole. */
  ghost predicate Shown(log: seq<string>, k: nat) {
    && k <= |log|
    && if |Text(log)| <= WINDOW then k == |log|
       else |Text(Last(log, k))| < WINDOW && k < |log| && |Text(Last(log, k + 1))| >= WINDOW
  }

  lemma {:induction false} TextAppend(a: seq<string>, b: seq<string>)
    ensures Text(a + b) == Text(a) + Text(b)
    decreases |b|
  {
    if b == [] {
      assert a + b == a;
    } else {
      assert (a + b)[..|a + b| - 1] == a + b[..|b| - 1];
      TextAppend(a, b[..|b| - 1]);
    }
  }

  lemma TextOne(r: string)
    ensures Text([r]) == r + "\n"
  {
    assert [r][..0] == [];
  }

  /** Some number of records is shown. */
  lemma {:induction false} ShownExists(log: seq<string>) returns (k: nat)
    ensures Shown(log, k)
  {
    k := 0;
    if |Text(log)| <= WINDOW {
      k := |log|;
    } else {
      assert Last(log, 0) == [] && Last(log, |log|) == log;
      while |Text(Last(log, k + 1))| < WINDOW
        invariant k < |log| && |Text(Last(log, k))| < WINDOW
        decreases |log| - k
      {
        k := k + 1;
      }
    }
  }

  lemma NewlineFirst(a: string, b: string)
    requires OneLine(a)
    ensures NewlineAt(a + "\n" + b) == |a|
  {
    var s := a + "\n" + b;
    assert s[|a|] == '\n';
    forall j | 0 <= j < |a|
      ensures s[j] != '\n'
    {
      assert a[j] in a;
    }
  }

  /** What is visible are the shown records, whole. */
  lemma VisibleIsShown(log: seq<string>, k: nat)
    requires Records(log) && Shown(log, k)
    ensures Visible(Text(log)) == Some(Text(Last(log, k)))
  {
    var file := Text(log);
    if |file| <= WINDOW {
      assert Last(log, k) == log;
    } else {
      var shown := Last(log, k);
      var cut := log[|log| - k - 1];
      assert Last(log, k + 1) == [cut] + shown;
      assert log == log[..|log| - k - 1] + ([cut] + shown);
      TextAppend(log[..|log| - k - 1], [cut] + shown);
      TextAppend([cut], shown);
      TextOne(cut);
      CutInWindow(Text(log[..|log| - k - 1]), cut, Text(shown));
    }
  }

  /** The window starts inside the line of the record that no longer fits, which is dropped. */
  lemma CutInWindow(before: string, cut: string, shown: string)
    requires OneLine(cut) && |shown| < WINDOW <= |cut + "\n" + shown|
    ensures |before + (cut + "\n" + shown)| > WINDOW ==> Visible(before + (cut + "\n" + shown)) == Some(shown)
  {
    var file := before + (cut + "\n" + shown);
    if |file| > WINDOW {
      var start := |file| - WINDOW;
      var skip := start - |before|;
      var tail := cut[skip..];
      assert file[start..] == tail + "\n" + shown;
      NewlineFirst(tail, shown);
    }
  }

  /** Splitting the trimmed text of whole records gives the records. */
  lemma RecordsSplit(log: seq<string>)
    requires Records(log)
    ensures Split(TrimSpace(Text(log))) == if log == [] then [""] else log
  {
    if log != [] {
      TextJoin(log);
      JoinTrimmed(log);
      TrimAfter(Join(log), '\n');
      assert AllOneLine(log);
      SplitJoin(log);
    }
  }

  lemma {:induction false} TextJoin(log: seq<string>)
    requires log != []
    ensures Text(log) == Join(log) + ['\n']
  {
    var n := |log| - 1;
    if n == 0 {
      TextOne(log[0]);
      assert log == [log[0]];
    } else {
      TextJoin(log[..n]);
      JoinSnoc(log[..n], log[n]);
      assert log[..n] + [log[n]] == log;
    }
  }

  lemma {:induction false} JoinTrimmed(log: seq<string>)
    requires Records(log) && log != []
    ensures Join(log) != "" && Trimmed(Join(log))
  {
    if |log| > 1 { JoinTrimmed(log[1..]); }
  }

  function Min(a: nat, b: nat): nat {
    if a < b then a else b
  }

  predicate AnyDamaged(lines: seq<string>, damaged: set<string>) {
    exists i :: 0 <= i < |lines| && lines[i] in damaged
  }

  lemma AnyDamagedSnoc(lines: seq<string>, line: string, damaged: set<string>)
    ensures AnyDamaged(lines + [line], damaged) <==> AnyDamaged(lines, damaged) || line in damaged
  {
    var all := lines + [line];
    assert all[|lines|] == line;
    if AnyDamaged(lines, damaged) {
      var i :| 0 <= i < |lines| && lines[i] in damaged;
      assert all[i] in damaged;
    }
  }

  /** The newest of the whole log: None when one of them is damaged. */
  function NewestOf(log: seq<string>, m: nat, damaged: set<string>): Option<seq<string>>
    requires m <= |log|
  {
    if AnyDamaged(Last(log, m), damaged) then None else Some(Reversed(Last(log, m)))
  }

  lemma NewestOfSnoc(log: seq<string>, m: nat, damaged: set<string>)
    requires 0 < m <= |log|
    ensures NewestOf(log, m, damaged) == (
      if log[|log| - 1] in damaged then None
      else Before([log[|log| - 1]], NewestOf(log[..|log| - 1], m - 1, damaged)))
  {
    var n := |log| - 1;
    var older := Last(log[..n], m - 1);
    assert Last(log, m) == older + [log[n]];
    AnyDamagedSnoc(older, log[n], damaged);
    assert (older + [log[n]])[..m - 1] == older;
  }

  lemma NewestBase(log: seq<string>, limit: nat, damaged: set<string>)
    requires log == [] || limit == 0
    ensures Newest(log, limit, damaged) == NewestOf(log, Min(limit, |log|), damaged)
  {
    NoneNewest(log, damaged);
    assert Newest(log, limit, damaged) == Some([]);
  }

  lemma NoneNewest(log: seq<string>, damaged: set<string>)
    ensures NewestOf(log, 0, damaged) == Some([])
  {
    assert Last(log, 0) == [];
    assert !AnyDamaged([], damaged);
    assert Reversed([]) == [];
  }

  lemma NewestSnoc(log: seq<string>, limit: nat, damaged: set<string>)
    requires Records(log) && log != [] && limit > 0
    ensures Newest(log, limit, damaged) == (
      if log[|log| - 1] in damaged then None
      else Before([log[|log| - 1]], Newest(log[..|log| - 1], limit - 1, damaged)))
  {
    TrimTrimmed(log[|log| - 1]);
  }

  /** Of records, the newest are the last ones, reversed; the read fails exactly when one of those is damaged. */
  lemma {:induction false} NewestRecords(log: seq<string>, limit: nat, damaged: set<string>)
    requires Records(log)
    ensures Newest(log, limit, damaged) == NewestOf(log, Min(limit, |log|), damaged)
    decreases |log|
  {
    if log == [] || limit == 0 {
      NewestBase(log, limit, damaged);
    } else {
      var n := |log| - 1;
      var front := log[..n];
      NewestSnoc(log, limit, damaged);
      assert Records(front) && |front| == n;
      NewestRecords(front, limit - 1, damaged);
      NewestOfSnoc(log, Min(limit, |log|), damaged);
      assert Min(limit, |log|) - 1 == Min(limit - 1, n);
    }
  }

  lemma NewestBlank(limit: nat, damaged: set<string>)
    ensures Newest([""], limit, damaged) == Some([])
  {
    assert TrimSpace("") == "" && [""][..0] == [];
  }

  lemma {:induction false} NewestShown(shown: seq<string>, limit: nat, damaged: set<string>)
    requires Records(shown)
    ensures Newest(if shown == [] then [""] else shown, limit, damaged) == NewestOf(shown, Min(limit, |shown|), damaged)
  {
    if shown == [] {
      NewestBlank(limit, damaged);
      assert Last(shown, 0) == [];
    } else {
      NewestRecords(shown, limit, damaged);
    }
  }

  /** Reading the window refines reading the whole log: the newest records, as many as asked for and shown. */
  lemma RecentRefines(log: seq<string>, limit: nat, damaged: set<string>) returns (k: nat)
    requires Records(log) && 0 < limit <= MAX_LIMIT
    ensures Shown(log, k) && Answer(Text(log), limit, damaged) == NewestOf(log, Min(limit, k), damaged)
  {
    k := ShownExists(log);
    var shown := Last(log, k);
    VisibleIsShown(log, k);
    RecordsSplit(shown);
    NewestShown(shown, limit, damaged);
    NewestOfLast(log, k, Min(limit, k), damaged);
  }

  lemma NewestOfLast(log: seq<string>, k: nat, m: nat, damaged: set<string>)
    requires m <= k <= |log|
    ensures NewestOf(Last(log, k), m, damaged) == NewestOf(log, m, damaged)
  {
    assert Last(Last(log, k), m) == Last(log, m);
  }

  lemma {:induction false} TextGrows(log: seq<string>, j: nat, k: nat)
    requires j <= k <= |log|
    ensures |Text(Last(log, j))| <= |Text(Last(log, k))|
  {
    assert Last(log, k) == Last(log, k)[..k - j] + Last(log, j);
    TextAppend(Last(log, k)[..k - j], Last(log, j));
  }

  /** All records asked for are returned exactly when the file fits the window or they take strictly fewer bytes. */
  lemma CompleteWhen(log: seq<string>, k: nat, limit: nat)
    requires Records(log) && Shown(log, k)
    ensures Min(limit, k) == Min(limit, |log|) <==>
      |Text(log)| <= WINDOW || |Text(Last(log, Min(limit, |log|)))| < WINDOW
  {
    var m := Min(limit, |log|);
    if |Text(log)| > WINDOW {
      if m <= k {
        TextGrows(log, m, k);
      } else {
        TextGrows(log, k + 1, m);
      }
    }
  }

  // ---- A file whose newest records fill the window

  /** n times the same record. */
  function Copies(r: string, n: nat): (log: seq<string>)
    ensures |log| == n && forall i :: 0 <= i < n ==> log[i] == r
  {
    seq(n, i => r)
  }

  lemma {:induction false} CopiesText(r: string, n: nat)
    ensures |Text(Copies(r, n))| == n * (|r| + 1)
  {
    if n > 0 {
      assert Copies(r, n)[..n - 1] == Copies(r, n - 1);
      CopiesText(r, n - 1);
    }
  }

  function Letters(n: nat): (s: string)
    ensures |s| == n && forall i :: 0 <= i < n ==> s[i] == 'x'
  {
    seq(n, i => 'x')
  }

  /** Records that fill the window to the byte, with one more before them. */
  lemma FullWindow(r: string, n: nat)
    requires 0 < n && n * (|r| + 1) == WINDOW
    ensures Shown(Copies(r, n + 1), n - 1)
  {
    var log := Copies(r, n + 1);
    CopiesText(r, n + 1);
    CopiesText(r, n);
    CopiesText(r, n - 1);
    assert Last(log, n) == Copies(r, n) && Last(log, n - 1) == Copies(r, n - 1);
  }

  lemma {:induction false} ShownOnce(log: seq<string>, j: nat, k: nat)
    requires Shown(log, j) && Shown(log, k)
    ensures j == k
  {
    if j < k {
      TextGrows(log, j + 1, k);
    } else if k < j {
      TextGrows(log, k + 1, j);
    }
  }

  /** Of 257 records of 32768 bytes each, 256 are asked for, 256 fill the window, and 255 are returned. */
  lemma ExactWindow()
    ensures var r := Letters(0x7FFF);
      && Records(Copies(r, 257)) && |Text(Copies(r, 256))| == WINDOW
      && Answer(Text(Copies(r, 257)), 256, {}) == Some(Copies(r, 255))
  {
    var r := Letters(0x7FFF);
    var log := Copies(r, 257);
    CopiesText(r, 256);
    FullWindow(r, 256);
    var k := RecentRefines(log, 256, {});
    ShownOnce(log, k, 255);
    assert Last(log, 255) == Copies(r, 255);
    CopiesReversed(r, 255);
  }

  lemma {:induction false} CopiesReversed(r: string, n: nat)
    ensures Reversed(Copies(r, n)) == Copies(r, n)
  {
    if n > 0 {
      assert Copies(r, n)[..n - 1] == Copies(r, n - 1);
      CopiesReversed(r, n - 1);
      assert [r] + Copies(r, n - 1) == Copies(r, n);
    }
  }
}
