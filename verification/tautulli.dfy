/** The Tautulli settings file: reading the Plex section and rendering it. */
module Tautulli {
  import opened Common
  import opened Lines

  datatype Setting = Ip | Port | Token | Ssl

  function Name(s: Setting): string {
    match s case Ip => "pms_ip" case Port => "pms_port" case Token => "pms_token" case Ssl => "pms_ssl"
  }

  function Named(text: string): Option<Setting> {
    if text == "pms_ip" then Some(Ip)
    else if text == "pms_port" then Some(Port)
    else if text == "pms_token" then Some(Token)
    else if text == "pms_ssl" then Some(Ssl)
    else None
  }

  const SECTION: string := "pms"

  function Lower(s: string): string {
    if s == "" then ""
    else [if 'A' <= s[0] <= 'Z' then (s[0] as int + 32) as char else s[0]] + Lower(s[1..])
  }

  // ---- One line, in a section

  function SectionName(raw: string): string
    requires Bracketed(raw)
  {
    var line := TrimSpace(raw);
    Lower(TrimSpace(line[1..|line| - 1]))
  }

  function Next(section: string, raw: string): string {
    if Bracketed(raw) then SectionName(raw) else section
  }

  predicate Comment(line: string) {
    line != "" && (line[0] == '#' || line[0] == ';')
  }

  /** The managed setting a line of the section holds, if any. */
  function Held(section: string, raw: string): Option<Setting> {
    var line := TrimSpace(raw);
    if Bracketed(raw) || section != SECTION || Comment(line) || !HasEquals(line) then None
    else Named(Lower(KeyOf(line)))
  }

  function HeldValue(raw: string): string {
    var line := TrimSpace(raw);
    if HasEquals(line) then ValueOf(line) else ""
  }

  // ---- Reading

  type Values = map<Setting, string>

  datatype Result<T> = Ok(value: T) | Duplicate(setting: Setting) | NoSection

  function ReadLines(section: string, values: Values, lines: seq<string>): Result<Values>
    decreases |lines|
  {
    if lines == [] then Ok(values)
    else match Held(section, lines[0])
      case None => ReadLines(Next(section, lines[0]), values, lines[1..])
      case Some(s) =>
        if s in values then Duplicate(s)
        else ReadLines(section, values[s := HeldValue(lines[0])], lines[1..])
  }

  function Read(body: string): Result<Values> {
    ReadLines("", map[], Split(body))
  }

  datatype ConfigState = ConfigState(ip: string, port: string, token: string, ssl: string)

  function Get(values: Values, s: Setting): string {
    if s in values then values[s] else ""
  }

  function StateOf(values: Values): ConfigState {
    ConfigState(Get(values, Ip), Get(values, Port), Get(values, Token), Get(values, Ssl))
  }

  /** readTautulliConfig */
  method ReadTautulliConfig(body: string) returns (result: Result<ConfigState>)
    ensures result == match Read(body)
      case Ok(values) => Ok(StateOf(values))
      case Duplicate(s) => Duplicate(s)
      case NoSection => NoSection
  {
    var state := ConfigState("", "", "", "");
    var section := "";
    var seen: set<Setting> := {};
    ghost var values: Values := map[];
    var lines := Split(body);
    assert lines[0..] == lines;
    for i := 0 to |lines|
      invariant Read(body) == ReadLines(section, values, lines[i..])
      invariant seen == values.Keys && state == StateOf(values)
    {
      var raw := lines[i];
      assert lines[i..][1..] == lines[i + 1..];
      if Bracketed(raw) {
        section := SectionName(raw);
        continue;
      }
      var held := Held(section, raw);
      if held.None? { continue; }
      if held.value in seen { return Duplicate(held.value); }
      seen := seen + {held.value};
      var value := HeldValue(raw);
      values := values[held.value := value];
      match held.value {
        case Ip => state := state.(ip := value);
        case Port => state := state.(port := value);
        case Token => state := state.(token := value);
        case Ssl => state := state.(ssl := value);
      }
    }
    return Ok(state);
  }

  // ---- Rendering

  /** The desired values, given the token. */
  function Want(token: string, s: Setting): string {
    match s case Ip => "sdbx-plex" case Port => "32400" case Token => token case Ssl => "0"
  }

  function SettingLine(token: string, s: Setting): string {
    Name(s) + " = " + Want(token, s)
  }

  function RewriteLine(section: string, raw: string, token: string): string {
    match Held(section, raw) case None => raw case Some(s) => SettingLine(token, s)
  }

  function Rewritten(section: string, lines: seq<string>, token: string): (r: seq<string>)
    ensures |r| == |lines|
    decreases |lines|
  {
    if lines == [] then []
    else [RewriteLine(section, lines[0], token)] + Rewritten(Next(section, lines[0]), lines[1..], token)
  }

  /** How many lines come before the end of the first Plex section, or of the file. */
  function SectionEnd(section: string, lines: seq<string>): (n: nat)
    ensures n <= |lines|
    decreases |lines|
  {
    if lines == [] || (section == SECTION && Bracketed(lines[0])) then 0
    else 1 + SectionEnd(Next(section, lines[0]), lines[1..])
  }

  predicate HasSection(lines: seq<string>)
    decreases |lines|
  {
    lines != [] && ((Bracketed(lines[0]) && SectionName(lines[0]) == SECTION) || HasSection(lines[1..]))
  }

  const ORDER: seq<Setting> := [Ip, Port, Token, Ssl]

  function MissingLines(order: seq<Setting>, seen: set<Setting>, token: string): seq<string> {
    if order == [] then []
    else
      var rest := MissingLines(order[1..], seen, token);
      if order[0] in seen then rest else [SettingLine(token, order[0])] + rest
  }

  function Inserted(lines: seq<string>, at: nat, new1: seq<string>): seq<string>
    requires at <= |lines|
  {
    lines[..at] + new1 + lines[at..]
  }

  function RenderLines(lines: seq<string>, seen: set<Setting>, token: string): seq<string> {
    Inserted(Rewritten("", lines, token), SectionEnd("", lines), MissingLines(ORDER, seen, token))
  }

  function Render(body: string, token: string): Result<string> {
    match Read(body)
    case Ok(values) =>
      if HasSection(Split(body)) then Ok(Join(RenderLines(Split(body), values.Keys, token))) else NoSection
    case Duplicate(s) => Duplicate(s)
    case NoSection => NoSection
  }

  /** The renderer's pass over the lines: what it has rewritten, whether and where a Plex section was seen
      and ended, and the settings met; or the first setting met twice. */
  datatype Pass =
    | Pass(section: string, done: seq<string>, found: bool, end: int, values: Values)
    | Twice(setting: Setting)

  const START: Pass := Pass("", [], false, -1, map[])

  function PassLine(p: Pass, raw: string, token: string): Pass {
    if p.Twice? then p
    else
      var done := p.done + [RewriteLine(p.section, raw, token)];
      if Bracketed(raw) then
        var end := if p.section == SECTION && p.end < 0 then |p.done| else p.end;
        Pass(SectionName(raw), done, p.found || SectionName(raw) == SECTION, end, p.values)
      else match Held(p.section, raw)
        case None => p.(done := done)
        case Some(s) => if s in p.values then Twice(s) else p.(done := done, values := p.values[s := HeldValue(raw)])
  }

  function PassLines(p: Pass, lines: seq<string>, token: string): Pass
    decreases |lines|
  {
    if lines == [] then p else PassLines(PassLine(p, lines[0], token), lines[1..], token)
  }

  lemma {:induction false} TwiceStays(s: Setting, lines: seq<string>, token: string)
    ensures PassLines(Twice(s), lines, token) == Twice(s)
    decreases |lines|
  {
    if lines != [] { TwiceStays(s, lines[1..], token); }
  }

  /** The pass meets the reader's settings. */
  lemma {:induction false} PassReads(p: Pass, lines: seq<string>, token: string)
    requires p.Pass?
    ensures match ReadLines(p.section, p.values, lines)
            case Ok(values) => PassLines(p, lines, token).Pass? && PassLines(p, lines, token).values == values
            case Duplicate(s) => PassLines(p, lines, token) == Twice(s)
            case NoSection => false
    decreases |lines|
  {
    if lines != [] {
      var q := PassLine(p, lines[0], token);
      if q.Pass? {
        PassReads(q, lines[1..], token);
      } else {
        TwiceStays(q.setting, lines[1..], token);
      }
    }
  }

  /** It rewrites the managed lines. */
  lemma {:induction false} PassRewrites(p: Pass, lines: seq<string>, token: string)
    requires p.Pass? && PassLines(p, lines, token).Pass?
    ensures PassLines(p, lines, token).done == p.done + Rewritten(p.section, lines, token)
    decreases |lines|
  {
    if lines != [] {
      var q := PassLine(p, lines[0], token);
      if q.Pass? {
        var line, rest := RewriteLine(p.section, lines[0], token), Rewritten(q.section, lines[1..], token);
        PassRewrites(q, lines[1..], token);
        assert q.done == p.done + [line] && q.section == Next(p.section, lines[0]);
        assert p.done + [line] + rest == p.done + ([line] + rest);
      } else {
        TwiceStays(q.setting, lines[1..], token);
      }
    }
  }

  function EndOf(p: Pass): int
    requires p.Pass?
  {
    if p.end >= 0 then p.end else |p.done|
  }

  /** It finds a Plex section, and where the first one ends. */
  lemma {:induction false} PassFinds(p: Pass, lines: seq<string>, token: string)
    requires p.Pass? && PassLines(p, lines, token).Pass?
    ensures var q := PassLines(p, lines, token);
            && q.found == (p.found || HasSection(lines))
            && EndOf(q) == (if p.end >= 0 then p.end else |p.done| + SectionEnd(p.section, lines))
    decreases |lines|
  {
    if lines != [] {
      var q := PassLine(p, lines[0], token);
      if q.Pass? {
        PassFinds(q, lines[1..], token);
      } else {
        TwiceStays(q.setting, lines[1..], token);
      }
    }
  }

  lemma Advance(done: seq<string>, rest: seq<string>, line: string)
    requires rest != []
    ensures (done + rest)[|done| := line] == done + [line] + rest[1..]
    ensures line == rest[0] ==> done + rest == done + [line] + rest[1..]
  {
  }

  lemma PassNext(p: Pass, given: seq<string>, i: nat, token: string)
    requires i < |given|
    ensures PassLines(p, given[i..], token) == PassLines(PassLine(p, given[i], token), given[i + 1..], token)
    ensures given[i..][1..] == given[i + 1..]
  {
  }

  /** One line of the renderer's loop. */
  method RewriteOne(raw: string, at: nat, section0: string, found0: bool, end0: int, seen0: set<Setting>, token: string,
      ghost p: Pass)
    returns (duplicate: Option<Setting>, line: string, section: string, found: bool, end: int, seen: set<Setting>)
    requires p.Pass? && p == Pass(section0, p.done, found0, end0, p.values) && |p.done| == at && seen0 == p.values.Keys
    ensures duplicate.Some? ==> PassLine(p, raw, token) == Twice(duplicate.value)
    ensures duplicate.None? ==>
      var q := PassLine(p, raw, token);
      q.Pass? && q == Pass(section, p.done + [line], found, end, q.values) && seen == q.values.Keys
  {
    duplicate, line, section, found, end, seen := None, raw, section0, found0, end0, seen0;
    if Bracketed(raw) {
      if section == SECTION && end < 0 {
        end := at;
      }
      section := SectionName(raw);
      if section == SECTION {
        found := true;
      }
      return;
    }
    var held := Held(section, raw);
    if held.None? { return; }
    if held.value in seen {
      duplicate := held;
      return;
    }
    seen := seen + {held.value};
    line := SettingLine(token, held.value);
  }

  /** After i lines the pass has reached p, and they are overwritten in place. */
  ghost predicate HalfWay(p: Pass, given: seq<string>, i: nat, token: string, lines: seq<string>) {
    && p.Pass? && |p.done| == i <= |given|
    && lines == p.done + given[i..]
    && PassLines(START, given, token) == PassLines(p, given[i..], token)
  }

  /** One line further; line is what the line becomes. */
  lemma StepOn(p: Pass, given: seq<string>, i: nat, token: string, lines: seq<string>, q: Pass, line: string)
    requires i < |given| && HalfWay(p, given, i, token, lines)
    requires q == PassLine(p, given[i], token) && q.Pass? && q.done == p.done + [line]
    ensures HalfWay(q, given, i + 1, token, lines[i := line])
  {
    PassNext(p, given, i, token);
    Advance(p.done, given[i..], line);
  }

  /** A repeated setting ends the pass. */
  lemma StepTwice(p: Pass, given: seq<string>, i: nat, token: string, lines: seq<string>, s: Setting)
    requires i < |given| && HalfWay(p, given, i, token, lines) && PassLine(p, given[i], token) == Twice(s)
    ensures PassLines(START, given, token) == Twice(s)
  {
    PassNext(p, given, i, token);
    TwiceStays(s, given[i + 1..], token);
  }

  lemma AllStepped(p: Pass, given: seq<string>, token: string, lines: seq<string>)
    requires HalfWay(p, given, |given|, token, lines)
    ensures PassLines(START, given, token) == p && lines == p.done
  {
    assert given[|given|..] == [];
  }

  /** The loop of the renderer, overwriting managed lines. */
  method RewritePass(given: seq<string>, token: string)
    returns (duplicate: Option<Setting>, lines: seq<string>, foundSection: bool, sectionEnd: int, seen: set<Setting>)
    ensures match PassLines(START, given, token)
            case Twice(s) => duplicate == Some(s)
            case Pass(_, done, found, end, values) =>
              duplicate.None? && lines == done && foundSection == found && sectionEnd == end && seen == values.Keys
  {
    duplicate, lines, foundSection, sectionEnd, seen := None, given, false, -1, {};
    var section, line := "", "";
    ghost var p := START;
    for i := 0 to |given|
      invariant p.Pass? && p == Pass(section, p.done, foundSection, sectionEnd, p.values)
      invariant HalfWay(p, given, i, token, lines) && seen == p.values.Keys && duplicate.None?
    {
      assert lines[i] == given[i];
      ghost var q := PassLine(p, given[i], token);
      duplicate, line, section, foundSection, sectionEnd, seen :=
        RewriteOne(lines[i], i, section, foundSection, sectionEnd, seen, token, p);
      if duplicate.Some? {
        StepTwice(p, given, i, token, lines, duplicate.value);
        return;
      }
      StepOn(p, given, i, token, lines, q, line);
      lines := lines[i := line];
      p := q;
    }
    AllStepped(p, given, token, lines);
  }

  /** The rendering that a pass over all lines amounts to, once the missing settings are inserted. */
  function Finished(p: Pass, token: string): Result<string>
    requires p.Pass? ==> 0 <= EndOf(p) <= |p.done|
  {
    match p
    case Twice(s) => Duplicate(s)
    case Pass(_, done, found, end, values) =>
      if found then Ok(Join(Inserted(done, EndOf(p), MissingLines(ORDER, values.Keys, token)))) else NoSection
  }

  lemma PassRenders(body: string, token: string)
    ensures var p := PassLines(START, Split(body), token);
      (p.Pass? ==> 0 <= EndOf(p) <= |p.done|) && Finished(p, token) == Render(body, token)
  {
    var given := Split(body);
    PassReads(START, given, token);
    if PassLines(START, given, token).Pass? {
      PassRewrites(START, given, token);
      PassFinds(START, given, token);
      assert PassLines(START, given, token).done == Rewritten("", given, token);
    }
  }

  method InsertMissing(lines: seq<string>, at: nat, missing: seq<string>) returns (out: seq<string>)
    requires at <= |lines|
    ensures out == Inserted(lines, at, missing)
  {
    if |missing| > 0 {
      return lines[..at] + missing + lines[at..];
    }
    assert Inserted(lines, at, []) == lines;
    return lines;
  }

  /** renderTautulliPMSConfig */
  method RenderTautulliPMSConfig(body: string, token: string) returns (result: Result<string>)
    ensures result == Render(body, token)
  {
    PassRenders(body, token);
    var duplicate, lines, foundSection, sectionEnd, seen := RewritePass(Split(body), token);
    if duplicate.Some? { return Duplicate(duplicate.value); }
    if !foundSection { return NoSection; }
    if sectionEnd < 0 {
      sectionEnd := |lines|;
    }
    var missing := ListMissing(ORDER, seen, token);
    lines := InsertMissing(lines, sectionEnd, missing);
    return Ok(Join(lines));
  }

  method ListMissing(order: seq<Setting>, seen: set<Setting>, token: string) returns (missing: seq<string>)
    ensures missing == MissingLines(order, seen, token)
  {
    missing := [];
    assert order[0..] == order;
    for k := 0 to |order|
      invariant MissingLines(order, seen, token) == missing + MissingLines(order[k..], seen, token)
    {
      assert order[k..][1..] == order[k + 1..];
      if order[k] !in seen {
        missing := missing + [SettingLine(token, order[k])];
      }
    }
  }
}
