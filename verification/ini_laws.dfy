/** Laws of the INI editor: what its reader finds afterwards, and that editing twice is editing once. */
module IniLaws {
  import opened Common
  import opened Lines
  import opened IniSections

  predicate Plain(lines: seq<string>) {
    forall i :: 0 <= i < |lines| ==> !Bracketed(lines[i])
  }

  /** What taking a file apart guarantees. */
  predicate Shaped(header: string, p: Parts) {
    && p.before != [] && Locate(header, p.before) == Place(|p.before| - 1, -1)
    && Plain(p.body)
    && (p.after == [] || (Bracketed(p.after[0]) && TrimSpace(p.after[0]) != header))
  }

  function Whole(p: Parts): seq<string> {
    p.before + p.body + p.after
  }

  lemma HeaderTrimmed(section: string, line: string)
    ensures TrimSpace(Header(section)) == Header(section)
    ensures TrimSpace(line) == Header(section) ==> Bracketed(line)
  {
    var h := Header(section);
    assert h[0] == '[' && h[|h| - 1] == ']';
  }

  // ---- Taking apart

  lemma {:induction false} LocateAt(header: string, lines: seq<string>)
    ensures var p := Locate(header, lines);
            && (p.start >= 0 ==> TrimSpace(lines[p.start]) == header)
            && (p.end >= 0 ==> Bracketed(lines[p.end]) && TrimSpace(lines[p.end]) != header)
    decreases |lines|
  {
    if lines != [] { LocateAt(header, lines[..|lines| - 1]); }
  }

  lemma {:induction false} LocateNone(header: string, lines: seq<string>)
    requires Locate(header, lines).start < 0
    ensures forall i :: 0 <= i < |lines| ==> TrimSpace(lines[i]) != header
    decreases |lines|
  {
    if lines != [] { LocateNone(header, lines[..|lines| - 1]); }
  }

  lemma {:induction false} LocatePrefix(header: string, lines: seq<string>)
    ensures var p := Locate(header, lines); p.start >= 0 ==> Locate(header, lines[..p.start + 1]) == Place(p.start, -1)
    decreases |lines|
  {
    if lines != [] {
      var front := lines[..|lines| - 1];
      var p := Locate(header, lines);
      LocatePrefix(header, front);
      if p.start == |lines| - 1 {
        assert lines[..|lines|] == lines;
      } else if p.start >= 0 {
        assert front[..p.start + 1] == lines[..p.start + 1];
      }
    }
  }

  function EndOf(p: Place, lines: seq<string>): int {
    if p.end < 0 then |lines| else p.end
  }

  lemma {:induction false} LocateBody(section: string, lines: seq<string>)
    ensures var p := Locate(Header(section), lines);
            p.start >= 0 ==> forall i :: p.start < i < EndOf(p, lines) ==> !Bracketed(lines[i])
    decreases |lines|
  {
    if lines != [] {
      var n := |lines| - 1;
      LocateBody(section, lines[..n]);
      HeaderTrimmed(section, lines[n]);
    }
  }

  lemma {:induction false} LocateAbsent(header: string, lines: seq<string>)
    requires forall i :: 0 <= i < |lines| ==> TrimSpace(lines[i]) != header
    ensures Locate(header, lines) == Place(-1, -1)
    decreases |lines|
  {
    if lines != [] { LocateAbsent(header, lines[..|lines| - 1]); }
  }

  lemma TakeApartShaped(section: string, lines: seq<string>)
    ensures Shaped(Header(section), TakeApart(Header(section), lines))
  {
    var header := Header(section);
    var p := Locate(header, lines);
    var parts := TakeApart(header, lines);
    LocateAt(header, lines);
    LocatePrefix(header, lines);
    LocateBody(section, lines);
    if p.start < 0 {
      LocateNone(header, lines);
      DropEmptyShape(lines);
      var front := parts.before[..|parts.before| - 1];
      assert TrimSpace("") != header;
      LocateAbsent(header, front);
      HeaderTrimmed(section, "");
    }
  }

  lemma {:induction false} LocatePlain(section: string, a: seq<string>, b: seq<string>)
    requires Plain(b)
    ensures Locate(Header(section), a + b) == Locate(Header(section), a)
    decreases |b|
  {
    if b == [] {
      assert a + b == a;
    } else {
      var n := |b| - 1;
      assert (a + b)[..|a + b| - 1] == a + b[..n];
      LocatePlain(section, a, b[..n]);
      HeaderTrimmed(section, b[n]);
    }
  }

  /** Taking a shaped file apart gives the same parts back. */
  lemma TakeApartWhole(section: string, p: Parts)
    requires Shaped(Header(section), p)
    ensures TakeApart(Header(section), Whole(p)) == p
  {
    var header := Header(section);
    var front := p.before + p.body;
    LocatePlain(section, p.before, p.body);
    if p.after == [] {
      assert Whole(p) == front;
    } else {
      assert Whole(p)[..|front|] == front && Whole(p)[|front|] == p.after[0];
      assert Whole(p)[..|front| + 1][..|front|] == front;
      assert Locate(header, Whole(p)[..|front| + 1]) == Place(|p.before| - 1, |front|);
      LocateSettles(header, Whole(p), |front| + 1);
    }
    assert Whole(p)[..|p.before|] == p.before;
    assert Whole(p)[|p.before|..|front|] == p.body && Whole(p)[|front|..] == p.after;
  }

  // ---- The edited body

  /** A written line means its key and value, and is not a section line. */
  lemma SetLine(key: string, value: string)
    requires Addable(key) && Trimmed(key) && key[0] != '[' && Trimmed(value) && OneLine(value)
    ensures var line := key + "=" + value;
            HasEquals(line) && KeyOf(line) == key && ValueOf(line) == value && !Bracketed(line) && OneLine(line)
  {
    CutFirst(key, value);
    TrimTrimmed(key);
    TrimTrimmed(value);
    TrimKeepsFirst(key + "=" + value);
  }

  /** A line rewriting leaves alone: it sets no managed key, or sets it to its value. */
  predicate RightLine(line: string, want: Settings) {
    && !Bracketed(line) && OneLine(line)
    && (HasEquals(line) && KeyOf(line) in want ==> line == KeyOf(line) + "=" + want[KeyOf(line)])
  }

  predicate RightLines(lines: seq<string>, want: Settings) {
    forall i :: 0 <= i < |lines| ==> RightLine(lines[i], want)
  }

  ghost predicate SetsAll(lines: seq<string>, want: Settings) {
    forall k :: k in want ==> Sets(lines, k)
  }

  lemma {:induction false} NewLinesRight(missing: seq<string>, want: Settings)
    requires WellFormed(want) && forall k :: k in missing ==> k in want
    ensures RightLines(NewLines(missing, want), want)
    ensures |NewLines(missing, want)| == |missing|
    ensures forall i :: 0 <= i < |missing| ==> NewLines(missing, want)[i] == missing[i] + "=" + want[missing[i]]
  {
    if missing != [] {
      SetLine(missing[0], want[missing[0]]);
      NewLinesRight(missing[1..], want);
    }
  }

  lemma RewriteRight(line: string, want: Settings)
    requires WellFormed(want) && !Bracketed(line) && OneLine(line)
    ensures RightLine(RewriteLine(line, want), want)
    ensures HasEquals(line) ==> HasEquals(RewriteLine(line, want)) && KeyOf(RewriteLine(line, want)) == KeyOf(line)
  {
    if HasEquals(line) && KeyOf(line) in want { SetLine(KeyOf(line), want[KeyOf(line)]); }
  }

  lemma EditedRight(body: seq<string>, want: Settings)
    requires WellFormed(want) && Plain(body) && AllOneLine(body)
    ensures RightLines(Edited(body, want), want)
  {
    NewLinesRight(MissingKeys(body, want), want);
    forall i | 0 <= i < |body|
      ensures RightLine(RewriteLines(body, want)[i], want)
    {
      RewriteRight(body[i], want);
    }
  }

  lemma EditedSets(body: seq<string>, want: Settings, k: string)
    requires WellFormed(want) && Plain(body) && AllOneLine(body) && k in want
    ensures Sets(Edited(body, want), k)
  {
    var e, missing := Edited(body, want), MissingKeys(body, want);
    if Sets(body, k) {
      var i :| 0 <= i < |body| && HasEquals(body[i]) && KeyOf(body[i]) == k;
      RewriteRight(body[i], want);
      assert e[i] == RewriteLine(body[i], want);
    } else {
      assert k in missing;
      var j :| 0 <= j < |missing| && missing[j] == k;
      NewLinesRight(missing, want);
      SetLine(k, want[k]);
      assert e[|body| + j] == k + "=" + want[k];
    }
  }

  lemma OneLineAppend(a: seq<string>, b: seq<string>)
    requires AllOneLine(a) && AllOneLine(b)
    ensures AllOneLine(a + b)
  {
  }

  predicate OneLineParts(p: Parts) {
    AllOneLine(p.before) && AllOneLine(p.body) && AllOneLine(p.after)
  }

  lemma TakeApartOneLine(section: string, lines: seq<string>)
    requires AllOneLine(lines) && OneLine(section)
    ensures OneLineParts(TakeApart(Header(section), lines))
  {
    DropEmptyShape(lines);
  }

  lemma EditedOneLine(p: Parts, want: Settings)
    requires WellFormed(want) && Plain(p.body) && OneLineParts(p)
    ensures AllOneLine(EditedParts(p, want)) && RightLines(Edited(p.body, want), want)
  {
    var e := Edited(p.body, want);
    EditedRight(p.body, want);
    OneLineAppend(p.before, e);
    OneLineAppend(p.before + e, p.after);
  }

  /** The lines of the edited file. */
  lemma UpdatedLines(contents: string, section: string, want: Settings)
    requires WellFormed(want) && ValidSection(section)
    ensures var lines := UpdateLines(Header(section), Split(contents), want);
            Split(Update(contents, section, want)) == DropEmpty(lines) + [""]
  {
    var header := Header(section);
    var p := TakeApart(header, Split(contents));
    TakeApartShaped(section, Split(contents));
    TakeApartOneLine(section, Split(contents));
    EditedOneLine(p, want);
    EditedNotEmpty(section, p, want);
    SplitTrimmed(EditedParts(p, want));
  }

  lemma EditedNotEmpty(section: string, p: Parts, want: Settings)
    requires Shaped(Header(section), p)
    ensures DropEmpty(EditedParts(p, want)) != []
  {
    var lines := EditedParts(p, want);
    var n := |p.before| - 1;
    DropEmptyShape(lines);
    assert lines[n] == p.before[n];
    LocateAt(Header(section), p.before);
    assert TrimSpace("") == "";
  }

  // ---- Scanning

  lemma {:induction false} ScanBlank(header: string, key: string, st: Scan, lines: seq<string>)
    requires forall i :: 0 <= i < |lines| ==> lines[i] == ""
    ensures ScanLines(header, key, st, lines) == st
    decreases |lines|
  {
    if lines != [] { ScanBlank(header, key, st, lines[1..]); }
  }

  /** Trailing empty lines do not matter to the reader. */
  lemma ScanDropEmpty(header: string, key: string, st: Scan, lines: seq<string>)
    ensures ScanLines(header, key, st, DropEmpty(lines)) == ScanLines(header, key, st, lines)
  {
    var d := DropEmpty(lines);
    DropEmptyShape(lines);
    assert lines == d + lines[|d|..];
    ScanAppend(header, key, st, d, lines[|d|..]);
    ScanBlank(header, key, ScanLines(header, key, st, d), lines[|d|..]);
  }

  lemma LookupUpdate(contents: string, section: string, want: Settings, other: string, key: string)
    requires WellFormed(want) && ValidSection(section)
    ensures Lookup(Update(contents, section, want), other, key)
         == Result(ScanLines(Header(other), key, Searching(false), UpdateLines(Header(section), Split(contents), want)))
  {
    var lines := UpdateLines(Header(section), Split(contents), want);
    var st := Searching(false);
    UpdatedLines(contents, section, want);
    ScanDropEmpty(Header(other), key, st, lines);
    ScanAppend(Header(other), key, st, DropEmpty(lines), [""]);
    ScanBlank(Header(other), key, ScanLines(Header(other), key, st, DropEmpty(lines)), [""]);
  }

  function ScanAt(header: string, key: string, lines: seq<string>): Scan {
    ScanLines(header, key, Searching(false), lines)
  }

  lemma ScanSnoc(header: string, key: string, lines: seq<string>, line: string)
    ensures ScanAt(header, key, lines + [line]) == ScanLine(header, key, ScanAt(header, key, lines), line)
  {
    ScanAppend(header, key, Searching(false), lines, [line]);
    assert [line][1..] == [];
    var st := ScanAt(header, key, lines);
    assert ScanLines(header, key, st, [line]) == ScanLine(header, key, st, line);
  }

  lemma {:induction false} ScanClosed(header: string, key: string, lines: seq<string>)
    requires Plain(lines)
    ensures ScanLines(header, key, Searching(false), lines) == Searching(false)
    decreases |lines|
  {
    if lines != [] { ScanClosed(header, key, lines[1..]); }
  }

  /** In an open section whose lines all set key to one value, the reader finds that value. */
  lemma {:induction false} ScanOpen(header: string, key: string, value: string, lines: seq<string>)
    requires Plain(lines)
    requires forall i :: 0 <= i < |lines| && HasEquals(lines[i]) && KeyOf(lines[i]) == key ==>
      ValueOf(lines[i]) == value
    ensures ScanLines(header, key, Searching(true), lines) == if Sets(lines, key) then Found(value) else Searching(true)
    decreases |lines|
  {
    if lines != [] {
      var rest := lines[1..];
      ScanOpen(header, key, value, rest);
      FoundStays(header, key, value, rest);
      if Sets(rest, key) {
        var i :| 0 <= i < |rest| && HasEquals(rest[i]) && KeyOf(rest[i]) == key;
        assert lines[i + 1] == rest[i];
      }
      if Sets(lines, key) && !(HasEquals(lines[0]) && KeyOf(lines[0]) == key) {
        var i :| 0 <= i < |lines| && HasEquals(lines[i]) && KeyOf(lines[i]) == key;
        assert rest[i - 1] == lines[i];
      }
    }
  }

  /** Reaching the end of the part before the body, the section is open unless the key was found. */
  lemma ScanBefore(section: string, other: string, key: string, p: Parts)
    requires Shaped(Header(section), p)
    ensures var st := ScanLines(Header(other), key, Searching(false), p.before);
            st.Found? || st == Searching(Header(other) == Header(section))
  {
    var n := |p.before| - 1;
    var header := Header(other);
    LocateAt(Header(section), p.before);
    HeaderTrimmed(section, p.before[n]);
    assert p.before == p.before[..n] + [p.before[n]];
    ScanSnoc(header, key, p.before[..n], p.before[n]);
  }

  /** The value of key that the reader meets before the edited lines: one set under an earlier, duplicate header. */
  function EarlierValue(contents: string, section: string, key: string): Option<string> {
    Result(ScanLines(Header(section), key, Searching(false), TakeApart(Header(section), Split(contents)).before))
  }

  /** After the edit, every wanted key reads as an earlier duplicate section sets it, or else as wanted. */
  lemma ReadBack(contents: string, section: string, want: Settings, key: string)
    requires ValidSection(section) && WellFormed(want) && key in want
    ensures Lookup(Update(contents, section, want), section, key)
         == match EarlierValue(contents, section, key) case Some(v) => Some(v) case None => Some(want[key])
  {
    var header := Header(section);
    var lines := Split(contents);
    var p := TakeApart(header, lines);
    TakeApartShaped(section, lines);
    TakeApartOneLine(section, lines);
    LookupUpdate(contents, section, want, section, key);
    PartsReadBack(section, p, want, key);
  }

  lemma PartsReadBack(section: string, p: Parts, want: Settings, key: string)
    requires Shaped(Header(section), p) && OneLineParts(p) && WellFormed(want) && key in want
    ensures var st := ScanLines(Header(section), key, Searching(false), p.before);
            ScanLines(Header(section), key, Searching(false), EditedParts(p, want))
              == if st.Found? then st else Found(want[key])
  {
    var header := Header(section);
    EditedOneLine(p, want);
    EditedSets(p.body, want, key);
    EditedScan(header, key, p.body, want);
    ScanBefore(section, section, key, p);
    ScanParts(header, key, want[key], p.before, Edited(p.body, want), p.after);
  }

  lemma ScanParts(header: string, key: string, value: string, before: seq<string>, e: seq<string>, after: seq<string>)
    requires ScanLines(header, key, Searching(true), e) == Found(value)
    requires ScanLines(header, key, Searching(false), before) != Searching(false)
    ensures var st := ScanLines(header, key, Searching(false), before);
            ScanLines(header, key, Searching(false), before + e + after) == if st.Found? then st else Found(value)
  {
    var st := ScanLines(header, key, Searching(false), before);
    ScanAppend(header, key, Searching(false), before, e);
    ScanAppend(header, key, Searching(false), before + e, after);
    if st.Found? {
      FoundStays(header, key, st.value, e);
      FoundStays(header, key, st.value, after);
    } else {
      FoundStays(header, key, value, after);
    }
  }

  lemma EditedScan(header: string, key: string, body: seq<string>, want: Settings)
    requires WellFormed(want) && key in want
    requires RightLines(Edited(body, want), want) && Sets(Edited(body, want), key)
    ensures ScanLines(header, key, Searching(true), Edited(body, want)) == Found(want[key])
  {
    var e := Edited(body, want);
    SetLine(key, want[key]);
    ScanOpen(header, key, want[key], e);
  }

  /** So the edit reads back exactly when no earlier duplicate section sets the key to something else. */
  lemma ReadsBackIff(contents: string, section: string, want: Settings, key: string)
    requires ValidSection(section) && WellFormed(want) && key in want
    ensures Lookup(Update(contents, section, want), section, key) == Some(want[key])
       <==> EarlierValue(contents, section, key) in {None, Some(want[key])}
  {
    ReadBack(contents, section, want, key);
  }

  /** Only one line may open the section. */
  predicate SingleHeader(contents: string, section: string) {
    var lines := Split(contents);
    forall i, j :: 0 <= i < j < |lines| && TrimSpace(lines[i]) == Header(section) ==>
      TrimSpace(lines[j]) != Header(section)
  }

  /** With at most one such section every wanted key reads back. */
  lemma SingleHeaderReadsBack(contents: string, section: string, want: Settings, key: string)
    requires ValidSection(section) && WellFormed(want) && key in want && SingleHeader(contents, section)
    ensures Lookup(Update(contents, section, want), section, key) == Some(want[key])
  {
    SingleHeaderHidesNothing(contents, section, key);
    ReadBack(contents, section, want, key);
  }

  lemma SingleHeaderHidesNothing(contents: string, section: string, key: string)
    requires SingleHeader(contents, section)
    ensures EarlierValue(contents, section, key) == None
  {
    var before := TakeApart(Header(section), Split(contents)).before;
    var n := |before| - 1;
    SingleHeaderFirst(contents, section);
    FirstHeaderOpens(section, key, before[..n], before[n]);
    assert before == before[..n] + [before[n]];
  }

  /** What an earlier section sets is what the reader finds, before any edit. */
  lemma EarlierRead(contents: string, section: string, key: string)
    requires EarlierValue(contents, section, key).Some?
    ensures Lookup(contents, section, key) == EarlierValue(contents, section, key)
  {
    var header, lines := Header(section), Split(contents);
    var p := Locate(header, lines);
    if p.start < 0 {
      LocateNone(header, lines);
      SingleHeaderHidesNothing(contents, section, key);
    } else {
      var before, rest := lines[..p.start + 1], lines[p.start + 1..];
      assert lines == before + rest;
      ScanAppend(header, key, Searching(false), before, rest);
      FoundStays(header, key, EarlierValue(contents, section, key).value, rest);
    }
  }

  lemma FirstHeaderOpens(section: string, key: string, front: seq<string>, line: string)
    requires TrimSpace(line) == Header(section)
    requires forall i :: 0 <= i < |front| ==> TrimSpace(front[i]) != Header(section)
    ensures ScanAt(Header(section), key, front + [line]) == Searching(true)
  {
    ScanNoHeader(Header(section), key, front);
    HeaderTrimmed(section, line);
    ScanSnoc(Header(section), key, front, line);
  }

  lemma SingleHeaderFirst(contents: string, section: string)
    requires SingleHeader(contents, section)
    ensures var before := TakeApart(Header(section), Split(contents)).before;
            && before != [] && TrimSpace(before[|before| - 1]) == Header(section)
            && forall i :: 0 <= i < |before| - 1 ==> TrimSpace(before[i]) != Header(section)
  {
    var header := Header(section);
    var lines := Split(contents);
    var p := Locate(header, lines);
    LocateAt(header, lines);
    HeaderTrimmed(section, header);
    if p.start < 0 {
      LocateNone(header, lines);
      DropEmptyShape(lines);
      assert TrimSpace("") == "";
    }
  }

  lemma {:induction false} ScanNoHeader(header: string, key: string, lines: seq<string>)
    requires forall i :: 0 <= i < |lines| ==> TrimSpace(lines[i]) != header
    ensures ScanLines(header, key, Searching(false), lines) == Searching(false)
    decreases |lines|
  {
    if lines != [] { ScanNoHeader(header, key, lines[1..]); }
  }

  /** A duplicate header hides the edit: the editor writes under the second one, the reader stops at the first. */
  lemma DuplicateHeaderHides(section: string, want: Settings, key: string, value: string)
    requires ValidSection(section) && WellFormed(want) && key in want && Trimmed(value) && OneLine(value)
    ensures var file := Join([Header(section), key + "=" + value, Header(section), ""]);
            Lookup(Update(file, section, want), section, key) == Some(value)
  {
    var header := Header(section);
    var line := key + "=" + value;
    var lines := [header, line, header, ""];
    SetLine(key, value);
    HeaderTrimmed(section, header);
    SplitJoin(lines);
    DuplicateHeaderParts(section, line);
    FirstWins(header, key, value, line);
    ReadBack(Join(lines), section, want, key);
  }

  lemma DuplicateHeaderParts(section: string, line: string)
    requires !Bracketed(line)
    ensures TakeApart(Header(section), [Header(section), line, Header(section), ""]).before
         == [Header(section), line, Header(section)]
  {
    var header := Header(section);
    var lines := [header, line, header, ""];
    HeaderTrimmed(section, header);
    HeaderTrimmed(section, line);
    HeaderTrimmed(section, "");
    var before := [header, line, header];
    assert before[..2] == [header, line] && lines[..3] == before;
    assert Locate(header, [header, line][..1]) == Place(0, -1);
    assert Locate(header, before) == Place(2, -1);
  }

  lemma FirstWins(header: string, key: string, value: string, line: string)
    requires Bracketed(header) && TrimSpace(header) == header
    requires !Bracketed(line) && HasEquals(line) && KeyOf(line) == key && ValueOf(line) == value
    ensures ScanLines(header, key, Searching(false), [header, line, header]) == Found(value)
  {
    assert [header, line, header][1..] == [line, header] && [line, header][1..] == [header];
    FoundStays(header, key, value, [header]);
    assert ScanLines(header, key, Searching(true), [line, header]) == Found(value);
  }

  // ---- Everything else is unchanged

  lemma {:induction false} ScanPointwise(header: string, key: string, a: seq<string>, b: seq<string>, open: bool)
    requires |a| == |b| && Plain(a) && Plain(b)
    requires forall i :: 0 <= i < |a| && a[i] != b[i] ==>
      HasEquals(a[i]) && HasEquals(b[i]) && KeyOf(a[i]) != key && KeyOf(b[i]) != key
    ensures ScanLines(header, key, Searching(open), a) == ScanLines(header, key, Searching(open), b)
    decreases |a|
  {
    if a != [] {
      var st := ScanLine(header, key, Searching(open), a[0]);
      assert st == ScanLine(header, key, Searching(open), b[0]);
      if st.Found? {
        FoundStays(header, key, st.value, a[1..]);
        FoundStays(header, key, st.value, b[1..]);
      } else {
        ScanPointwise(header, key, a[1..], b[1..], open);
      }
    }
  }

  /** For a key that is not wanted, the edited body reads like the old one. */
  lemma ScanUnmanaged(header: string, key: string, body: seq<string>, want: Settings)
    requires WellFormed(want) && Plain(body) && AllOneLine(body) && key !in want
    ensures ScanLines(header, key, Searching(true), Edited(body, want)) == ScanLines(header, key, Searching(true), body)
  {
    var r, new1 := RewriteLines(body, want), NewLines(MissingKeys(body, want), want);
    EditedRight(body, want);
    forall i | 0 <= i < |body|
      ensures !Bracketed(r[i])
      ensures r[i] != body[i] ==> HasEquals(r[i]) && HasEquals(body[i]) && KeyOf(r[i]) != key && KeyOf(body[i]) != key
    {
      RewriteRight(body[i], want);
    }
    ScanPointwise(header, key, r, body, true);
    ScanAppend(header, key, Searching(true), r, new1);
    var st := ScanLines(header, key, Searching(true), r);
    var missing := MissingKeys(body, want);
    NewLinesRight(missing, want);
    forall i | 0 <= i < |new1|
      ensures KeyOf(new1[i]) != key
    {
      SetLine(missing[i], want[missing[i]]);
    }
    if st.Found? {
      FoundStays(header, key, st.value, new1);
    } else {
      ScanOpen(header, key, "", new1);
      ScanStaysOpen(header, key, r);
    }
  }

  lemma {:induction false} ScanStaysOpen(header: string, key: string, lines: seq<string>)
    requires Plain(lines)
    ensures ScanLines(header, key, Searching(true), lines) != Searching(false)
    decreases |lines|
  {
    if lines != [] {
      if HasEquals(lines[0]) && KeyOf(lines[0]) == key {
        FoundStays(header, key, ValueOf(lines[0]), lines[1..]);
      } else {
        ScanStaysOpen(header, key, lines[1..]);
      }
    }
  }

  /** An appended section line opens nothing the reader has already found. */
  lemma AppendedRead(section: string, other: string, key: string, lines: seq<string>)
    ensures Result(ScanAt(Header(other), key, Appended(Header(section), lines)))
      == Result(ScanAt(Header(other), key, lines))
  {
    var header := Header(section);
    var kept := DropEmpty(lines);
    HeaderTrimmed(section, header);
    ScanDropEmpty(Header(other), key, Searching(false), lines);
    if kept == [] {
      assert [] + [header] == [header];
      ScanSnoc(Header(other), key, [], header);
    } else {
      assert TrimSpace("") == "";
      ScanSnoc(Header(other), key, kept, "");
      ScanSnoc(Header(other), key, kept + [""], header);
    }
  }

  /** The parts of a file read like the file itself, also when the section had to be appended. */
  lemma PartsRead(section: string, other: string, key: string, lines: seq<string>)
    ensures Result(ScanAt(Header(other), key, Whole(TakeApart(Header(section), lines))))
         == Result(ScanAt(Header(other), key, lines))
  {
    var header := Header(section);
    if Locate(header, lines).start < 0 {
      AppendedRead(section, other, key, lines);
      assert Whole(TakeApart(header, lines)) == Appended(header, lines);
    } else {
      assert Whole(TakeApart(header, lines)) == lines;
    }
  }

  /** Lookups in other sections, and of keys that are not wanted, are unchanged. */
  lemma OthersUnchanged(contents: string, section: string, want: Settings, other: string, key: string)
    requires ValidSection(section) && WellFormed(want) && (other != section || key !in want)
    ensures Lookup(Update(contents, section, want), other, key) == Lookup(contents, other, key)
  {
    var lines := Split(contents);
    var p := TakeApart(Header(section), lines);
    TakeApartShaped(section, lines);
    TakeApartOneLine(section, lines);
    LookupUpdate(contents, section, want, other, key);
    PartsRead(section, other, key, lines);
    EditedOneLine(p, want);
    SameRead(section, want, other, key, p);
  }

  lemma SameRead(section: string, want: Settings, other: string, key: string, p: Parts)
    requires WellFormed(want) && (other != section || key !in want)
    requires Shaped(Header(section), p) && AllOneLine(p.body) && RightLines(Edited(p.body, want), want)
    ensures ScanLines(Header(other), key, Searching(false), EditedParts(p, want))
         == ScanLines(Header(other), key, Searching(false), Whole(p))
  {
    var header := Header(other);
    var e := Edited(p.body, want);
    var st := ScanLines(header, key, Searching(false), p.before);
    ScanBefore(section, other, key, p);
    HeadersDiffer(section, other);
    assert ScanLines(header, key, st, e) == ScanLines(header, key, st, p.body) by {
      if st.Found? {
        FoundStays(header, key, st.value, e);
        FoundStays(header, key, st.value, p.body);
      } else if st.inSection {
        ScanUnmanaged(header, key, p.body, want);
      } else {
        ScanClosed(header, key, e);
        ScanClosed(header, key, p.body);
      }
    }
    ScanAppend(header, key, Searching(false), p.before, e);
    ScanAppend(header, key, Searching(false), p.before, p.body);
    ScanAppend(header, key, Searching(false), p.before + e, p.after);
    ScanAppend(header, key, Searching(false), p.before + p.body, p.after);
  }

  lemma HeadersDiffer(a: string, b: string)
    ensures Header(a) == Header(b) ==> a == b
  {
    assert Header(a)[1..|a| + 1] == a && Header(b)[1..|b| + 1] == b;
  }

  // ---- Editing twice

  lemma {:induction false} DropEmptyAppend(a: seq<string>, b: seq<string>)
    requires a != [] && a[|a| - 1] != ""
    ensures DropEmpty(a + b) == a + DropEmpty(b)
    decreases |b|
  {
    if b == [] {
      assert a + b == a;
    } else if b[|b| - 1] == "" {
      assert (a + b)[..|a + b| - 1] == a + b[..|b| - 1];
      DropEmptyAppend(a, b[..|b| - 1]);
    }
  }

  /** Closing the file with one empty line keeps the parts, trimming the last one. */
  function Closed(p: Parts): Parts {
    if p.after != [] then p.(after := [p.after[0]] + DropEmpty(p.after[1..]) + [""])
    else p.(body := DropEmpty(p.body) + [""])
  }

  lemma ClosedWhole(section: string, p: Parts)
    requires Shaped(Header(section), p)
    ensures Whole(Closed(p)) == DropEmpty(Whole(p)) + [""]
    ensures Shaped(Header(section), Closed(p))
  {
    LocateAt(Header(section), p.before);
    assert TrimSpace("") == "";
    DropEmptyShape(p.body);
    if p.after == [] {
      DropEmptyAppend(p.before, p.body);
      assert Whole(p) == p.before + p.body;
    } else {
      var a := p.before + p.body + [p.after[0]];
      assert Whole(p) == a + p.after[1..];
      DropEmptyAppend(a, p.after[1..]);
      assert Whole(Closed(p)) == a + DropEmpty(p.after[1..]) + [""];
    }
  }

  lemma FirstMember(s: seq<string>)
    ensures s == [] || exists x :: x in s
  {
    if s != [] { assert s[0] in s; }
  }

  /** A body that is already right is left alone. */
  lemma RightBodyStays(body: seq<string>, want: Settings)
    requires RightLines(body, want) && SetsAll(body, want)
    ensures Edited(body, want) == body
  {
    assert RewriteLines(body, want) == body;
    var missing := MissingKeys(body, want);
    FirstMember(missing);
  }

  lemma ClosedBodyRight(body: seq<string>, want: Settings)
    requires RightLines(body, want) && SetsAll(body, want)
    ensures RightLines(DropEmpty(body) + [""], want) && SetsAll(DropEmpty(body) + [""], want)
  {
    var d := DropEmpty(body) + [""];
    DropEmptyShape(body);
    forall k | k in want
      ensures Sets(d, k)
    {
      assert Sets(body, k);
      var i :| 0 <= i < |body| && HasEquals(body[i]) && KeyOf(body[i]) == k;
      assert d[i] == body[i];
    }
  }

  /** Once edited, editing the lines again changes none of them. */
  lemma UpdateLinesStays(section: string, lines: seq<string>, want: Settings)
    requires WellFormed(want) && OneLine(section) && AllOneLine(lines)
    ensures var edited := DropEmpty(UpdateLines(Header(section), lines, want)) + [""];
            UpdateLines(Header(section), edited, want) == edited
  {
    var header := Header(section);
    var p := TakeApart(header, lines);
    var e := Edited(p.body, want);
    TakeApartShaped(section, lines);
    TakeApartOneLine(section, lines);
    EditedOneLine(p, want);
    EditedSetsAll(p.body, want);
    RightPartsStay(section, Parts(p.before, e, p.after), want);
  }

  lemma EditedSetsAll(body: seq<string>, want: Settings)
    requires WellFormed(want) && Plain(body) && AllOneLine(body)
    ensures SetsAll(Edited(body, want), want)
  {
    forall k | k in want
      ensures Sets(Edited(body, want), k)
    {
      EditedSets(body, want, k);
    }
  }

  lemma RightPartsStay(section: string, p: Parts, want: Settings)
    requires Shaped(Header(section), p) && RightLines(p.body, want) && SetsAll(p.body, want)
    ensures UpdateLines(Header(section), DropEmpty(Whole(p)) + [""], want) == DropEmpty(Whole(p)) + [""]
  {
    var c := Closed(p);
    ClosedWhole(section, p);
    ClosedBodyRight(p.body, want);
    RightBodyStays(c.body, want);
    TakeApartWhole(section, c);
  }

  lemma {:induction false} TrimNewlinesTwice(s: string)
    ensures TrimNewlines(TrimNewlines(s)) == TrimNewlines(s) && TrimNewlines(s + "\n") == TrimNewlines(s)
  {
    assert (s + "\n")[..|s|] == s;
    if s != "" && s[|s| - 1] == '\n' { TrimNewlinesTwice(s[..|s| - 1]); }
  }

  /** Editing twice is editing once. */
  lemma UpdateTwice(contents: string, section: string, want: Settings)
    requires ValidSection(section) && WellFormed(want)
    ensures Update(Update(contents, section, want), section, want) == Update(contents, section, want)
  {
    var once := Update(contents, section, want);
    UpdatedLines(contents, section, want);
    UpdateLinesStays(section, Split(contents), want);
    JoinSplit(once);
    TrimNewlinesTwice(once);
    TrimNewlinesTwice(Join(UpdateLines(Header(section), Split(contents), want)));
    TrimNewlinesTwice(TrimNewlines(Join(UpdateLines(Header(section), Split(contents), want))));
  }
}
