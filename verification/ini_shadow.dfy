/** What an earlier duplicate section hides from the editor is the same before and after every edit. */
module IniShadow {
  import opened Common
  import opened Lines
  import opened IniSections
  import opened IniLaws

  /** Reading up to the last header of the section's first run: not there yet, in the run with the value
      met before its last header and the value met so far, or past it. */
  datatype Run = NotSeen | Open(committed: Option<string>, pending: Option<string>) | Past(value: Option<string>)

  function RunLine(header: string, key: string, r: Run, line: string): Run {
    match r
    case NotSeen => if TrimSpace(line) == header then Open(None, None) else NotSeen
    case Open(committed, pending) =>
      if TrimSpace(line) == header then Open(pending, pending)
      else if Bracketed(line) then Past(committed)
      else if pending.None? && HasEquals(line) && KeyOf(line) == key then Open(committed, Some(ValueOf(line)))
      else r
    case Past(_) => r
  }

  function RunLines(header: string, key: string, r: Run, lines: seq<string>): Run {
    if lines == [] then r
    else RunLine(header, key, RunLines(header, key, r, lines[..|lines| - 1]), lines[|lines| - 1])
  }

  function Value(r: Run): Option<string> {
    match r case NotSeen => None case Open(committed, _) => committed case Past(v) => v
  }

  lemma {:induction false} RunAppend(header: string, key: string, r: Run, a: seq<string>, b: seq<string>)
    ensures RunLines(header, key, r, a + b) == RunLines(header, key, RunLines(header, key, r, a), b)
    decreases |b|
  {
    if b == [] {
      assert a + b == a;
    } else {
      assert (a + b)[..|a + b| - 1] == a + b[..|b| - 1];
      RunAppend(header, key, r, a, b[..|b| - 1]);
    }
  }

  /** The scan of the reader at each stage of the run. */
  predicate Follows(r: Run, p: Place, atHeader: Scan, now: Scan) {
    if p.start < 0 then r == NotSeen && now == Searching(false)
    else if p.end < 0 then
      r == Open(Result(atHeader), Result(now)) && (now.Found? || now == Searching(true))
    else r == Past(Result(atHeader))
  }

  lemma {:induction false} RunFollows(section: string, key: string, lines: seq<string>)
    ensures var header := Header(section); var p := Locate(header, lines);
            Follows(RunLines(header, key, NotSeen, lines), p,
                    ScanAt(header, key, lines[..p.start + 1]), ScanAt(header, key, lines))
    decreases |lines|
  {
    var header := Header(section);
    if lines != [] {
      var n := |lines| - 1;
      var front := lines[..n];
      var p := Locate(header, lines);
      RunFollows(section, key, front);
      ScanSnoc(header, key, front, lines[n]);
      HeaderTrimmed(section, lines[n]);
      assert lines == front + [lines[n]];
      if p.start == n {
        assert lines[..n + 1] == lines;
      } else {
        assert front[..p.start + 1] == lines[..p.start + 1];
      }
    }
  }

  /** The hidden value is the value of the run. */
  lemma EarlierIsRun(contents: string, section: string, key: string)
    ensures EarlierValue(contents, section, key) == Value(RunLines(Header(section), key, NotSeen, Split(contents)))
  {
    var header := Header(section);
    var lines := Split(contents);
    RunFollows(section, key, lines);
    if Locate(header, lines).start < 0 {
      LocateNone(header, lines);
      DropEmptyShape(lines);
      var before := TakeApart(header, lines).before;
      var front := before[..|before| - 1];
      HeaderTrimmed(section, "");
      HeaderTrimmed(section, header);
      assert before == front + [header];
      ScanNoHeader(header, key, front);
      ScanSnoc(header, key, front, header);
    }
  }

  lemma {:induction false} RunBlank(header: string, key: string, r: Run, lines: seq<string>)
    requires header != "" && forall i :: 0 <= i < |lines| ==> lines[i] == ""
    ensures RunLines(header, key, r, lines) == r
    decreases |lines|
  {
    if lines != [] {
      RunBlank(header, key, r, lines[..|lines| - 1]);
      assert lines[|lines| - 1] == "" && TrimSpace("") == "";
    }
  }

  lemma RunDropEmpty(header: string, key: string, lines: seq<string>)
    requires header != ""
    ensures RunLines(header, key, NotSeen, DropEmpty(lines)) == RunLines(header, key, NotSeen, lines)
    ensures RunLines(header, key, NotSeen, DropEmpty(lines) + [""]) == RunLines(header, key, NotSeen, lines)
  {
    var d := DropEmpty(lines);
    DropEmptyShape(lines);
    assert lines == d + lines[|d|..];
    RunAppend(header, key, NotSeen, d, lines[|d|..]);
    RunAppend(header, key, NotSeen, d, [""]);
    RunBlank(header, key, RunLines(header, key, NotSeen, d), lines[|d|..]);
    RunBlank(header, key, RunLines(header, key, NotSeen, d), [""]);
  }

  /** Outside the run, plain lines do not matter. */
  lemma {:induction false} RunPlain(section: string, key: string, r: Run, lines: seq<string>)
    requires Plain(lines)
    ensures !r.Open? ==> RunLines(Header(section), key, r, lines) == r
    ensures Value(RunLines(Header(section), key, r, lines)) == Value(r)
    ensures r.Open? ==> RunLines(Header(section), key, r, lines).Open?
    decreases |lines|
  {
    if lines != [] {
      RunPlain(section, key, r, lines[..|lines| - 1]);
      HeaderTrimmed(section, lines[|lines| - 1]);
    }
  }

  /** After another section's header the run has not started or is over. */
  lemma RunOther(section: string, other: string, key: string, p: Parts)
    requires Shaped(Header(other), p) && other != section
    ensures !RunLines(Header(section), key, NotSeen, p.before).Open?
  {
    var n := |p.before| - 1;
    LocateAt(Header(other), p.before);
    HeaderTrimmed(other, p.before[n]);
    HeadersDiffer(section, other);
  }

  lemma RunUpdated(contents: string, edited: string, want: Settings, section: string, key: string)
    requires ValidSection(edited) && WellFormed(want)
    ensures RunLines(Header(section), key, NotSeen, Split(Update(contents, edited, want)))
         == RunLines(Header(section), key, NotSeen, EditedParts(TakeApart(Header(edited), Split(contents)), want))
  {
    UpdatedLines(contents, edited, want);
    RunDropEmpty(Header(section), key, UpdateLines(Header(edited), Split(contents), want));
  }

  lemma RunParts(header: string, key: string, before: seq<string>, body: seq<string>, after: seq<string>)
    ensures RunLines(header, key, NotSeen, before + body + after)
         == RunLines(header, key, RunLines(header, key, RunLines(header, key, NotSeen, before), body), after)
  {
    RunAppend(header, key, NotSeen, before + body, after);
    RunAppend(header, key, NotSeen, before, body);
  }

  lemma RunSnoc(header: string, key: string, lines: seq<string>, line: string)
    ensures RunLines(header, key, NotSeen, lines + [line])
         == RunLine(header, key, RunLines(header, key, NotSeen, lines), line)
  {
    assert (lines + [line])[..|lines|] == lines;
  }

  /** Appending the other section's header changes no value. */
  lemma RunAppended(section: string, other: string, key: string, lines: seq<string>)
    requires other != section
    ensures Value(RunLines(Header(section), key, NotSeen, Appended(Header(other), lines)))
         == Value(RunLines(Header(section), key, NotSeen, lines))
  {
    var header := Header(section);
    var kept := DropEmpty(lines);
    RunDropEmpty(header, key, lines);
    HeaderTrimmed(other, Header(other));
    HeadersDiffer(section, other);
    if kept == [] {
      assert [] + [Header(other)] == [Header(other)];
      RunSnoc(header, key, [], Header(other));
    } else {
      RunSnoc(header, key, kept + [""], Header(other));
    }
  }

  lemma RunWhole(section: string, other: string, key: string, lines: seq<string>)
    requires other != section
    ensures Value(RunLines(Header(section), key, NotSeen, Whole(TakeApart(Header(other), lines))))
         == Value(RunLines(Header(section), key, NotSeen, lines))
  {
    var p := TakeApart(Header(other), lines);
    if Locate(Header(other), lines).start < 0 {
      RunAppended(section, other, key, lines);
      assert Whole(p) == Appended(Header(other), lines);
    } else {
      assert Whole(p) == lines;
    }
  }

  /** Editing another section hides and uncovers nothing. */
  lemma EarlierAfterOther(contents: string, other: string, want: Settings, section: string, key: string)
    requires ValidSection(other) && WellFormed(want) && other != section
    ensures EarlierValue(Update(contents, other, want), section, key) == EarlierValue(contents, section, key)
  {
    var header := Header(section);
    var lines := Split(contents);
    var p := TakeApart(Header(other), lines);
    var e := Edited(p.body, want);
    TakeApartShaped(other, lines);
    TakeApartOneLine(other, lines);
    EditedOneLine(p, want);
    RunOther(section, other, key, p);
    var r := RunLines(header, key, NotSeen, p.before);
    RunPlain(section, key, r, e);
    RunPlain(section, key, r, p.body);
    RunParts(header, key, p.before, e, p.after);
    RunParts(header, key, p.before, p.body, p.after);
    RunWhole(section, other, key, lines);
    RunUpdated(contents, other, want, section, key);
    EarlierIsRun(contents, section, key);
    EarlierIsRun(Update(contents, other, want), section, key);
  }

  /** Neither does editing the section itself. */
  lemma EarlierAfterSame(contents: string, section: string, want: Settings, key: string)
    requires ValidSection(section) && WellFormed(want)
    ensures EarlierValue(Update(contents, section, want), section, key) == EarlierValue(contents, section, key)
  {
    var header := Header(section);
    var lines := Split(contents);
    var p := TakeApart(header, lines);
    TakeApartShaped(section, lines);
    TakeApartOneLine(section, lines);
    EditedOneLine(p, want);
    EditedNotEmpty(section, p, want);
    UpdatedLines(contents, section, want);
    var q := Parts(p.before, Edited(p.body, want), p.after);
    ClosedWhole(section, q);
    TakeApartWhole(section, Closed(q));
  }
}
