/** The INI editor of the qBittorrent integration and its reader. */
module IniSections {
  import opened Common
  import opened Lines
  import opened Names

  type Settings = map<string, string>

  function Header(section: string): string {
    "[" + section + "]"
  }

  predicate ValidSection(section: string) {
    section != "" && forall c :: c in "[]\r\n" ==> c !in section
  }

  /** A key the editor will add: not empty, no separator or line break. */
  predicate Addable(key: string) {
    key != "" && '=' !in key && '\n' !in key && '\r' !in key
  }

  /** Keys and values that mean themselves in a file: trimmed, on one line, and not looking like a section. */
  predicate WellFormed(want: Settings) {
    forall k :: k in want ==> Addable(k) && Trimmed(k) && k[0] != '[' && Trimmed(want[k]) && OneLine(want[k])
  }

  // ---- The reader

  /** A scan for one key: the value once found, otherwise whether the section is open. */
  datatype Scan = Found(value: string) | Searching(inSection: bool)

  function ScanLine(header: string, key: string, st: Scan, line: string): Scan {
    if st.Found? then st
    else if Bracketed(line) then Searching(TrimSpace(line) == header)
    else if st.inSection && HasEquals(line) && KeyOf(line) == key then Found(ValueOf(line))
    else st
  }

  function ScanLines(header: string, key: string, st: Scan, lines: seq<string>): Scan
    decreases |lines|
  {
    if lines == [] then st else ScanLines(header, key, ScanLine(header, key, st, lines[0]), lines[1..])
  }

  lemma {:induction false} ScanAppend(header: string, key: string, st: Scan, a: seq<string>, b: seq<string>)
    ensures ScanLines(header, key, st, a + b) == ScanLines(header, key, ScanLines(header, key, st, a), b)
    decreases |a|
  {
    if a == [] {
      assert a + b == b;
    } else {
      assert (a + b)[1..] == a[1..] + b;
      ScanAppend(header, key, ScanLine(header, key, st, a[0]), a[1..], b);
    }
  }

  /** The value of key in section, if the file sets it there. */
  function Lookup(contents: string, section: string, key: string): Option<string> {
    Result(ScanLines(Header(section), key, Searching(false), Split(contents)))
  }

  function Result(st: Scan): Option<string> {
    match st case Found(v) => Some(v) case Searching(_) => None
  }

  /** qbtPreferenceValue: the first setting of key in a section named Preferences, or the empty string. */
  method QbtPreferenceValue(contents: string, key: string) returns (value: string)
    ensures value == match Lookup(contents, "Preferences", key) case Some(v) => v case None => ""
  {
    var lines := Split(contents);
    var header := Header("Preferences");
    var inPreferences := false;
    assert lines[0..] == lines;
    for i := 0 to |lines|
      invariant ScanLines(header, key, Searching(false), lines)
        == ScanLines(header, key, Searching(inPreferences), lines[i..])
    {
      var line := lines[i];
      assert lines[i..][1..] == lines[i + 1..];
      if Bracketed(line) {
        inPreferences := TrimSpace(line) == header;
      } else if inPreferences && HasEquals(line) && KeyOf(line) == key {
        value := ValueOf(line);
        FoundStays(header, key, value, lines[i + 1..]);
        return;
      }
    }
    value := "";
  }

  lemma {:induction false} FoundStays(header: string, key: string, value: string, lines: seq<string>)
    ensures ScanLines(header, key, Found(value), lines) == Found(value)
    decreases |lines|
  {
    if lines != [] { FoundStays(header, key, value, lines[1..]); }
  }

  // ---- The editor

  /** Where the edited section starts and ends; -1 for not yet. */
  datatype Place = Place(start: int, end: int)

  function PlaceStep(header: string, p: Place, i: int, line: string): Place {
    if p.end >= 0 then p
    else if TrimSpace(line) == header then Place(i, -1)
    else if p.start >= 0 && Bracketed(line) then Place(p.start, i)
    else p
  }

  function Locate(header: string, lines: seq<string>): (p: Place)
    ensures -1 <= p.start < |lines| && (p.end == -1 || 0 <= p.start < p.end < |lines|)
  {
    if lines == [] then Place(-1, -1)
    else PlaceStep(header, Locate(header, lines[..|lines| - 1]), |lines| - 1, lines[|lines| - 1])
  }

  function RewriteLine(line: string, want: Settings): string {
    if HasEquals(line) && KeyOf(line) in want then KeyOf(line) + "=" + want[KeyOf(line)] else line
  }

  function RewriteLines(lines: seq<string>, want: Settings): (r: seq<string>)
    ensures |r| == |lines| && forall i :: 0 <= i < |r| ==> r[i] == RewriteLine(lines[i], want)
  {
    if lines == [] then []
    else RewriteLines(lines[..|lines| - 1], want) + [RewriteLine(lines[|lines| - 1], want)]
  }

  predicate Sets(lines: seq<string>, key: string) {
    exists i :: 0 <= i < |lines| && HasEquals(lines[i]) && KeyOf(lines[i]) == key
  }

  /** The addable keys of want that no line sets, in order. */
  ghost function MissingKeys(body: seq<string>, want: Settings): seq<string> {
    InOrder(set k | k in want && Addable(k) && !Sets(body, k))
  }

  function NewLines(missing: seq<string>, want: Settings): seq<string>
    requires forall k :: k in missing ==> k in want
  {
    if missing == [] then [] else [missing[0] + "=" + want[missing[0]]] + NewLines(missing[1..], want)
  }

  /** A file taken apart: up to and including the section's header, the section's own lines, and what follows. */
  datatype Parts = Parts(before: seq<string>, body: seq<string>, after: seq<string>)

  /** The lines with the header at the end, one empty line before it unless it is the only line. */
  function Appended(header: string, lines: seq<string>): seq<string> {
    if DropEmpty(lines) == [] then [header] else DropEmpty(lines) + [""] + [header]
  }

  /** The section is appended when it is absent. */
  function TakeApart(header: string, lines: seq<string>): Parts {
    var p := Locate(header, lines);
    if p.start < 0 then Parts(Appended(header, lines), [], [])
    else
      var end := if p.end < 0 then |lines| else p.end;
      Parts(lines[..p.start + 1], lines[p.start + 1..end], lines[end..])
  }

  ghost function UpdateLines(header: string, lines: seq<string>, want: Settings): seq<string> {
    EditedParts(TakeApart(header, lines), want)
  }

  /** The section's own lines after the edit: managed lines rewritten, missing ones added at the end. */
  ghost function Edited(body: seq<string>, want: Settings): seq<string> {
    RewriteLines(body, want) + NewLines(MissingKeys(body, want), want)
  }

  ghost function EditedParts(p: Parts, want: Settings): seq<string> {
    p.before + Edited(p.body, want) + p.after
  }

  function TextOf(lines: seq<string>): string {
    TrimNewlines(Join(lines)) + "\n"
  }

  ghost function Update(contents: string, section: string, want: Settings): string {
    TextOf(UpdateLines(Header(section), Split(contents), want))
  }

  /** updateINISection */
  method UpdateINISection(contents: string, section: string, want: Settings) returns (out: string)
    ensures out == Update(contents, section, want)
  {
    var before, own, after := SplitSection(Header(section), Split(contents));
    var body, written := RewriteBody(own, want);
    var missing: seq<string> := AscendingKeys(own, want, written);
    out := TextOf(before + (body + NewLines(missing, want)) + after);
  }

  /** The lines up to the section's header, appended if need be, the section's own lines and the others. */
  method SplitSection(header: string, given: seq<string>)
    returns (before: seq<string>, body: seq<string>, after: seq<string>)
    ensures Parts(before, body, after) == TakeApart(header, given)
  {
    var start, end := LocateSection(header, given);
    var lines := given;
    if start < 0 {
      lines := WithHeader(given, header);
      start, end := |lines| - 1, |lines|;
    }
    before, body, after := lines[..start + 1], lines[start + 1..end], lines[end..];
  }

  /** The first loop: the last header before another section starts, and where that section starts. */
  method LocateSection(header: string, lines: seq<string>) returns (start: int, end: nat)
    ensures start == Locate(header, lines).start
    ensures end == if Locate(header, lines).end < 0 then |lines| else Locate(header, lines).end
  {
    start, end := -1, |lines|;
    assert lines[..0] == [];
    assert lines[..|lines|] == lines;
    for i := 0 to |lines|
      invariant Locate(header, lines[..i]) == Place(start, -1) && end == |lines|
    {
      assert lines[..i + 1][..i] == lines[..i];
      if TrimSpace(lines[i]) == header {
        start := i;
      } else if start >= 0 && Bracketed(lines[i]) {
        end := i;
        LocateSettles(header, lines, i + 1);
        break;
      }
    }
  }

  method WithHeader(given: seq<string>, header: string) returns (lines: seq<string>)
    ensures lines == Appended(header, given)
  {
    lines := given;
    while lines != [] && lines[|lines| - 1] == ""
      invariant DropEmpty(lines) == DropEmpty(given)
    {
      lines := lines[..|lines| - 1];
    }
    if lines != [] {
      lines := lines + [""];
    }
    lines := lines + [header];
  }

  /** Once the section has ended, or the lines have, the place is settled. */
  lemma {:induction false} LocateSettles(header: string, lines: seq<string>, n: nat)
    requires n <= |lines| && (n == |lines| || Locate(header, lines[..n]).end >= 0)
    ensures Locate(header, lines) == Locate(header, lines[..n])
    decreases |lines|
  {
    if n == |lines| {
      assert lines[..n] == lines;
    } else {
      var front := lines[..|lines| - 1];
      assert front[..n] == lines[..n];
      LocateSettles(header, front, n);
    }
  }

  /** The keys of want that the body sets. */
  ghost function SetKeys(body: seq<string>, want: Settings): set<string> {
    set k | k in want && Sets(body, k)
  }

  /** The rewriting loop, with the set of keys it has written. */
  method RewriteBody(body: seq<string>, want: Settings) returns (rewritten: seq<string>, written: set<string>)
    ensures rewritten == RewriteLines(body, want) && written == SetKeys(body, want)
  {
    rewritten, written := [], {};
    ghost var done: seq<string> := [];
    for i := 0 to |body|
      invariant done == body[..i] && rewritten == RewriteLines(done, want) && written == SetKeys(done, want)
    {
      var line := body[i];
      SetsMore(done, line, want);
      RewriteMore(done, line, want);
      done := done + [line];
      rewritten := rewritten + [RewriteLine(line, want)];
      if HasEquals(line) && KeyOf(line) in want {
        written := written + {KeyOf(line)};
      }
    }
  }

  lemma RewriteMore(lines: seq<string>, line: string, want: Settings)
    ensures RewriteLines(lines + [line], want) == RewriteLines(lines, want) + [RewriteLine(line, want)]
  {
  }

  lemma SetsSnoc(lines: seq<string>, line: string, k: string)
    ensures Sets(lines + [line], k) <==> Sets(lines, k) || (HasEquals(line) && KeyOf(line) == k)
  {
    assert (lines + [line])[|lines|] == line;
    if Sets(lines, k) {
      var i :| 0 <= i < |lines| && HasEquals(lines[i]) && KeyOf(lines[i]) == k;
      assert (lines + [line])[i] == lines[i];
    }
  }

  lemma SetsMore(lines: seq<string>, line: string, want: Settings)
    ensures SetKeys(lines + [line], want)
      == SetKeys(lines, want) + (if HasEquals(line) && KeyOf(line) in want then {KeyOf(line)} else {})
  {
    forall k { SetsSnoc(lines, line, k); }
  }

  /** The keys still to add, sorted. */
  method AscendingKeys(ghost body: seq<string>, want: Settings, written: set<string>) returns (missing: seq<string>)
    requires written == SetKeys(body, want)
    ensures missing == MissingKeys(body, want)
  {
    missing := SortedSet(set k | k in want && Addable(k) && k !in written);
    assert (set k | k in want && Addable(k) && k !in written) == (set k | k in want && Addable(k) && !Sets(body, k));
  }
}
