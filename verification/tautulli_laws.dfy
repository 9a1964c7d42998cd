/** Laws of the Tautulli renderer: what it writes is what its reader finds, and nothing else moves. */
module TautulliLaws {
  import opened Common
  import opened Lines
  import opened Tautulli

  predicate PlainToken(token: string) {
    Trimmed(token) && OneLine(token)
  }

  /** The desired settings, all four. */
  function Desired(token: string): Values {
    Right({Ip, Port, Token, Ssl}, token)
  }

  function Right(keys: set<Setting>, token: string): Values {
    map s | s in keys :: Want(token, s)
  }

  // ---- One written line

  lemma NameFacts(s: Setting)
    ensures var n := Name(s);
            n != "" && n[0] == 'p' && !IsSpace(n[|n| - 1]) && '=' !in n && OneLine(n) && Named(n) == Some(s)
  {
  }

  lemma {:induction false} LowerSame(s: string)
    requires forall i :: 0 <= i < |s| ==> !('A' <= s[i] <= 'Z')
    ensures Lower(s) == s
  {
    if s != "" {
      LowerSame(s[1..]);
      assert s == [s[0]] + s[1..];
    }
  }

  lemma NameLower(s: Setting)
    ensures Lower(Name(s)) == Name(s)
  {
    LowerSame(Name(s));
  }

  lemma WantPlain(token: string, s: Setting)
    requires PlainToken(token)
    ensures Trimmed(Want(token, s)) && OneLine(Want(token, s))
  {
  }

  /** The written line after trimming: an empty value loses the space after the equals sign. */
  lemma LineTrims(name: string, value: string)
    requires name != "" && !IsSpace(name[0]) && !IsSpace(name[|name| - 1]) && Trimmed(value)
    ensures TrimSpace(name + " = " + value) == name + " =" + (if value == "" then "" else " " + value)
  {
    var line := name + " = " + value;
    if value == "" {
      assert line == (name + " =") + [' '];
      TrimAfter(name + " =", ' ');
    } else {
      assert line[0] == name[0] && line[|line| - 1] == value[|value| - 1];
      assert line == name + " =" + (" " + value);
      TrimTrimmed(line);
    }
  }

  /** A written line holds its setting and value in the Plex section. */
  lemma LineHolds(token: string, s: Setting)
    requires PlainToken(token)
    ensures var line := SettingLine(token, s);
            !Bracketed(line) && OneLine(line) && Held(SECTION, line) == Some(s) && HeldValue(line) == Want(token, s)
  {
    var name, value := Name(s), Want(token, s);
    NameFacts(s);
    WantPlain(token, s);
    NameLower(s);
    LineTrims(name, value);
    LineParts(name, value);
  }

  lemma LineParts(name: string, value: string)
    requires name != "" && name[0] == 'p' && !IsSpace(name[|name| - 1]) && '=' !in name && Trimmed(value)
    ensures var t := name + " =" + (if value == "" then "" else " " + value);
            t[0] == 'p' && HasEquals(t) && KeyOf(t) == name && ValueOf(t) == value
  {
    var rest := if value == "" then "" else " " + value;
    assert '=' !in name + " ";
    assert name + " =" + rest == (name + " ") + "=" + rest;
    SplitLine(name + " ", rest);
    TrimPadded(name);
    TrimPadded(value);
  }

  lemma SplitLine(before: string, rest: string)
    requires '=' !in before
    ensures var t := before + "=" + rest;
      HasEquals(t) && KeyOf(t) == TrimSpace(before) && ValueOf(t) == TrimSpace(rest)
  {
    CutFirst(before, rest);
  }

  // ---- Appending

  function After(section: string, lines: seq<string>): string
    decreases |lines|
  {
    if lines == [] then section else After(Next(section, lines[0]), lines[1..])
  }

  function Then(r: Result<Values>, section: string, lines: seq<string>): Result<Values> {
    match r
    case Ok(values) => ReadLines(section, values, lines)
    case Duplicate(s) => Duplicate(s)
    case NoSection => NoSection
  }

  lemma {:induction false} ReadAppend(section: string, values: Values, a: seq<string>, b: seq<string>)
    ensures ReadLines(section, values, a + b) == Then(ReadLines(section, values, a), After(section, a), b)
    decreases |a|
  {
    if a == [] {
      assert a + b == b;
    } else {
      assert (a + b)[1..] == a[1..] + b;
      match Held(section, a[0]) {
        case None => ReadAppend(Next(section, a[0]), values, a[1..], b);
        case Some(s) => if s !in values { ReadAppend(section, values[s := HeldValue(a[0])], a[1..], b); }
      }
    }
  }

  lemma {:induction false} RewriteAppend(section: string, a: seq<string>, b: seq<string>, token: string)
    ensures Rewritten(section, a + b, token) == Rewritten(section, a, token) + Rewritten(After(section, a), b, token)
    decreases |a|
  {
    if a == [] {
      assert a + b == b;
    } else {
      assert (a + b)[1..] == a[1..] + b;
      RewriteAppend(Next(section, a[0]), a[1..], b, token);
    }
  }

  lemma RewriteKind(section: string, raw: string, token: string)
    requires PlainToken(token)
    ensures var line := RewriteLine(section, raw, token);
            Held(section, line) == Held(section, raw) && Next(section, line) == Next(section, raw)
    ensures Held(section, raw).Some? ==>
      HeldValue(RewriteLine(section, raw, token)) == Want(token, Held(section, raw).value)
    ensures OneLine(raw) ==> OneLine(RewriteLine(section, raw, token))
  {
    match Held(section, raw) {
      case None =>
      case Some(s) => LineHolds(token, s);
    }
  }

  lemma {:induction false} AfterRewrite(section: string, lines: seq<string>, token: string)
    requires PlainToken(token)
    ensures After(section, Rewritten(section, lines, token)) == After(section, lines)
    decreases |lines|
  {
    if lines != [] {
      RewriteKind(section, lines[0], token);
      AfterRewrite(Next(section, lines[0]), lines[1..], token);
    }
  }

  // ---- Reading back

  /** Rewritten lines give every setting they hold its desired value. */
  lemma {:induction false} RewrittenReads(section: string, values: Values, keys: set<Setting>, lines: seq<string>,
      token: string)
    requires PlainToken(token) && ReadLines(section, values, lines).Ok?
    requires keys !! ReadLines(section, values, lines).value.Keys - values.Keys
    ensures ReadLines(section, Right(keys, token), Rewritten(section, lines, token))
         == Ok(Right(keys + (ReadLines(section, values, lines).value.Keys - values.Keys), token))
    ensures values.Keys <= ReadLines(section, values, lines).value.Keys
    decreases |lines|
  {
    if lines == [] {
      assert keys + (values.Keys - values.Keys) == keys;
    } else {
      RewriteKind(section, lines[0], token);
      match Held(section, lines[0]) {
        case None => RewrittenReads(Next(section, lines[0]), values, keys, lines[1..], token);
        case Some(s) => HeldReads(section, values, keys, lines, token, s);
      }
    }
  }

  lemma {:induction false} HeldReads(section: string, values: Values, keys: set<Setting>, lines: seq<string>,
      token: string, s: Setting)
    requires PlainToken(token) && lines != [] && Held(section, lines[0]) == Some(s)
    requires ReadLines(section, values, lines).Ok?
    requires keys !! ReadLines(section, values, lines).value.Keys - values.Keys
    ensures ReadLines(section, Right(keys, token), Rewritten(section, lines, token))
         == Ok(Right(keys + (ReadLines(section, values, lines).value.Keys - values.Keys), token))
    ensures values.Keys <= ReadLines(section, values, lines).value.Keys
    decreases |lines|, 0
  {
    var more := values[s := HeldValue(lines[0])];
    var total := ReadLines(section, values, lines).value.Keys;
    assert total == ReadLines(section, more, lines[1..]).value.Keys;
    KeysGrow(section, more, lines[1..]);
    assert more.Keys == values.Keys + {s} && s in total;
    OneMore(keys, values.Keys, total, s);
    RewriteKind(section, lines[0], token);
    RewrittenReads(section, more, keys + {s}, lines[1..], token);
    RightMore(keys, s, token);
  }

  lemma OneMore(keys: set<Setting>, before: set<Setting>, total: set<Setting>, s: Setting)
    requires keys !! total - before && s in total && s !in before
    ensures s !in keys && keys + {s} !! total - (before + {s})
    ensures keys + {s} + (total - (before + {s})) == keys + (total - before)
  {
  }

  lemma {:induction false} KeysGrow(section: string, values: Values, lines: seq<string>)
    requires ReadLines(section, values, lines).Ok?
    ensures values.Keys <= ReadLines(section, values, lines).value.Keys
    decreases |lines|
  {
    if lines != [] {
      match Held(section, lines[0]) {
        case None => KeysGrow(Next(section, lines[0]), values, lines[1..]);
        case Some(s) =>
          KeysGrow(section, values[s := HeldValue(lines[0])], lines[1..]);
      }
    }
  }

  function Unseen(order: seq<Setting>, seen: set<Setting>): set<Setting> {
    set s | s in order && s !in seen
  }

  /** The added lines give the settings that were missing. */
  lemma {:induction false} MissingReads(order: seq<Setting>, seen: set<Setting>, keys: set<Setting>, token: string)
    requires PlainToken(token) && keys !! Unseen(order, seen)
    requires forall i, j :: 0 <= i < j < |order| ==> order[i] != order[j]
    ensures ReadLines(SECTION, Right(keys, token), MissingLines(order, seen, token))
      == Ok(Right(keys + Unseen(order, seen), token))
    ensures After(SECTION, MissingLines(order, seen, token)) == SECTION
    ensures AllOneLine(MissingLines(order, seen, token))
    decreases |order|
  {
    if order == [] {
      assert keys + Unseen(order, seen) == keys;
    } else {
      var s := order[0];
      if s in seen {
        assert Unseen(order[1..], seen) == Unseen(order, seen);
        MissingReads(order[1..], seen, keys, token);
      } else {
        LineHolds(token, s);
        UnseenFirst(order, seen, keys);
        RightMore(keys, s, token);
        MissingReads(order[1..], seen, keys + {s}, token);
        assert ([SettingLine(token, s)] + MissingLines(order[1..], seen, token))[1..]
          == MissingLines(order[1..], seen, token);
      }
    }
  }

  lemma UnseenFirst(order: seq<Setting>, seen: set<Setting>, keys: set<Setting>)
    requires order != [] && order[0] !in seen && order[0] !in order[1..] && keys !! Unseen(order, seen)
    ensures keys + {order[0]} !! Unseen(order[1..], seen)
    ensures keys + {order[0]} + Unseen(order[1..], seen) == keys + Unseen(order, seen)
  {
    assert order == [order[0]] + order[1..];
    assert Unseen(order, seen) == {order[0]} + Unseen(order[1..], seen);
  }

  lemma RightMore(keys: set<Setting>, s: Setting, token: string)
    ensures Right(keys, token)[s := Want(token, s)] == Right(keys + {s}, token)
  {
  }

  /** The first Plex section is still open where it ends. */
  lemma {:induction false} EndInSection(section: string, lines: seq<string>)
    requires section == SECTION || HasSection(lines)
    ensures After(section, lines[..SectionEnd(section, lines)]) == SECTION
    decreases |lines|
  {
    if lines != [] && !(section == SECTION && Bracketed(lines[0])) {
      EndInSection(Next(section, lines[0]), lines[1..]);
      var n := SectionEnd(Next(section, lines[0]), lines[1..]);
      assert lines[..n + 1][1..] == lines[1..][..n];
    }
  }

  /** The pieces of a rendered file around the place where lines are added. */
  lemma RenderPieces(lines: seq<string>, seen: set<Setting>, token: string)
    requires PlainToken(token) && HasSection(lines)
    ensures var at := SectionEnd("", lines);
            var a, b := lines[..at], lines[at..];
            && lines == a + b && After("", a) == SECTION
            && RenderLines(lines, seen, token)
              == Rewritten("", a, token) + MissingLines(ORDER, seen, token) + Rewritten(SECTION, b, token)
  {
    var at := SectionEnd("", lines);
    var a, b := lines[..at], lines[at..];
    assert lines == a + b;
    EndInSection("", lines);
    RewriteAppend("", a, b, token);
    var r := Rewritten("", lines, token);
    assert r[..at] == Rewritten("", a, token) && r[at..] == Rewritten(SECTION, b, token);
  }

  lemma ReadThree(a: seq<string>, m: seq<string>, b: seq<string>, one: Values, two: Values)
    requires After("", a) == SECTION && After(SECTION, m) == SECTION
    requires ReadLines("", map[], a) == Ok(one) && ReadLines(SECTION, one, m) == Ok(two)
    ensures ReadLines("", map[], a + m + b) == ReadLines(SECTION, two, b)
  {
    Regroup(a, m, b);
    ReadAppend("", map[], a, m + b);
    ReadAppend(SECTION, one, m, b);
  }

  lemma Regroup(a: seq<string>, m: seq<string>, b: seq<string>)
    ensures a + m + b == a + (m + b)
  {
  }

  lemma OrderAll(seen: set<Setting>)
    ensures Unseen(ORDER, seen) == {Ip, Port, Token, Ssl} - seen
    ensures forall i, j :: 0 <= i < j < |ORDER| ==> ORDER[i] != ORDER[j]
  {
  }

  lemma EverySetting(keys: set<Setting>)
    ensures keys <= {Ip, Port, Token, Ssl}
  {
    forall s | s in keys
      ensures s in {Ip, Port, Token, Ssl}
    {
      match s case Ip => case Port => case Token => case Ssl =>
    }
  }

  lemma FirstReads(a: seq<string>, one: Values, token: string)
    requires PlainToken(token) && ReadLines("", map[], a) == Ok(one)
    ensures ReadLines("", map[], Rewritten("", a, token)) == Ok(Right(one.Keys, token))
  {
    var none: Values := map[];
    RewrittenReads("", none, {}, a, token);
    assert Right({}, token) == none;
    assert {} + (one.Keys - none.Keys) == one.Keys;
  }

  lemma AddUp(one: set<Setting>, seen: set<Setting>, all: set<Setting>)
    requires one <= seen <= all
    ensures one + (all - seen) + (seen - one) == all
  {
  }

  /** The pieces of a rendered file, read one after the other. */
  lemma PiecesRead(a: seq<string>, b: seq<string>, m: seq<string>, one: Values, seen: set<Setting>, token: string)
    requires PlainToken(token) && After("", a) == SECTION && ReadLines("", map[], a) == Ok(one)
    requires ReadLines(SECTION, one, b).Ok? && ReadLines(SECTION, one, b).value.Keys == seen
    requires m == MissingLines(ORDER, seen, token)
    ensures ReadLines("", map[], Rewritten("", a, token) + m + Rewritten(SECTION, b, token)) == Ok(Desired(token))
  {
    var all: set<Setting> := {Ip, Port, Token, Ssl};
    KeysGrow(SECTION, one, b);
    FirstReads(a, one, token);
    OrderAll(seen);
    MissingReads(ORDER, seen, one.Keys, token);
    AfterRewrite("", a, token);
    ReadThree(Rewritten("", a, token), m, Rewritten(SECTION, b, token),
      Right(one.Keys, token), Right(one.Keys + (all - seen), token));
    RewrittenReads(SECTION, one, one.Keys + (all - seen), b, token);
    EverySetting(seen);
    AddUp(one.Keys, seen, all);
  }

  lemma RenderedReads(lines: seq<string>, token: string)
    requires PlainToken(token) && HasSection(lines) && ReadLines("", map[], lines).Ok?
    ensures ReadLines("", map[], RenderLines(lines, ReadLines("", map[], lines).value.Keys, token))
      == Ok(Desired(token))
  {
    var seen := ReadLines("", map[], lines).value.Keys;
    var at := SectionEnd("", lines);
    var a, b := lines[..at], lines[at..];
    RenderPieces(lines, seen, token);
    ReadAppend("", map[], a, b);
    PiecesRead(a, b, MissingLines(ORDER, seen, token), ReadLines("", map[], a).value, seen, token);
  }

  lemma RenderOneLine(lines: seq<string>, seen: set<Setting>, token: string)
    requires PlainToken(token) && HasSection(lines) && AllOneLine(lines)
    ensures AllOneLine(RenderLines(lines, seen, token)) && RenderLines(lines, seen, token) != []
  {
    RewrittenOneLine("", lines, token);
    OrderAll(seen);
    MissingReads(ORDER, seen, {}, token);
  }

  lemma {:induction false} RewrittenOneLine(section: string, lines: seq<string>, token: string)
    requires PlainToken(token) && AllOneLine(lines)
    ensures AllOneLine(Rewritten(section, lines, token))
    decreases |lines|
  {
    if lines != [] {
      RewriteKind(section, lines[0], token);
      RewrittenOneLine(Next(section, lines[0]), lines[1..], token);
    }
  }

  /** Rendering then reading: the four desired values, however many Plex sections the file has. */
  lemma RenderRead(body: string, token: string)
    requires PlainToken(token) && Render(body, token).Ok?
    ensures Read(Render(body, token).value) == Ok(Desired(token))
  {
    var lines, seen := Split(body), Read(body).value.Keys;
    RenderOneLine(lines, seen, token);
    SplitJoin(RenderLines(lines, seen, token));
    RenderedReads(lines, token);
  }

  // ---- Nothing else moves

  /** The lines that hold no managed setting, in order. */
  function Unmanaged(section: string, lines: seq<string>): seq<string>
    decreases |lines|
  {
    if lines == [] then []
    else
      var rest := Unmanaged(Next(section, lines[0]), lines[1..]);
      if Held(section, lines[0]).None? then [lines[0]] + rest else rest
  }

  lemma {:induction false} UnmanagedAppend(section: string, a: seq<string>, b: seq<string>)
    ensures Unmanaged(section, a + b) == Unmanaged(section, a) + Unmanaged(After(section, a), b)
    decreases |a|
  {
    if a == [] {
      assert a + b == b;
    } else {
      assert (a + b)[1..] == a[1..] + b;
      UnmanagedAppend(Next(section, a[0]), a[1..], b);
    }
  }

  lemma {:induction false} UnmanagedRewrite(section: string, lines: seq<string>, token: string)
    requires PlainToken(token)
    ensures Unmanaged(section, Rewritten(section, lines, token)) == Unmanaged(section, lines)
    decreases |lines|
  {
    if lines != [] {
      RewriteKind(section, lines[0], token);
      UnmanagedRewrite(Next(section, lines[0]), lines[1..], token);
    }
  }

  lemma {:induction false} UnmanagedMissing(order: seq<Setting>, seen: set<Setting>, token: string)
    requires PlainToken(token)
    ensures Unmanaged(SECTION, MissingLines(order, seen, token)) == []
    decreases |order|
  {
    if order != [] {
      UnmanagedMissing(order[1..], seen, token);
      if order[0] !in seen {
        LineHolds(token, order[0]);
        var rest := MissingLines(order[1..], seen, token);
        assert ([SettingLine(token, order[0])] + rest)[1..] == rest;
      }
    }
  }

  /** Every line that holds no managed setting survives, in order. */
  lemma UnmanagedSurvive(body: string, token: string)
    requires PlainToken(token) && Render(body, token).Ok?
    ensures Unmanaged("", Split(Render(body, token).value)) == Unmanaged("", Split(body))
  {
    var lines, seen := Split(body), Read(body).value.Keys;
    RenderOneLine(lines, seen, token);
    SplitJoin(RenderLines(lines, seen, token));
    UnmanagedRendered(lines, seen, token);
  }

  lemma UnmanagedRendered(lines: seq<string>, seen: set<Setting>, token: string)
    requires PlainToken(token) && HasSection(lines)
    ensures Unmanaged("", RenderLines(lines, seen, token)) == Unmanaged("", lines)
  {
    var at := SectionEnd("", lines);
    RenderPieces(lines, seen, token);
    OrderAll(seen);
    MissingReads(ORDER, seen, {}, token);
    UnmanagedMissing(ORDER, seen, token);
    UnmanagedAppend("", lines[..at], lines[at..]);
    UnmanagedPieces(lines[..at], lines[at..], MissingLines(ORDER, seen, token), token);
  }

  lemma UnmanagedPieces(a: seq<string>, b: seq<string>, m: seq<string>, token: string)
    requires PlainToken(token) && After("", a) == SECTION
    requires After(SECTION, m) == SECTION && Unmanaged(SECTION, m) == []
    ensures Unmanaged("", Rewritten("", a, token) + m + Rewritten(SECTION, b, token))
      == Unmanaged("", a) + Unmanaged(SECTION, b)
  {
    var ra, rb := Rewritten("", a, token), Rewritten(SECTION, b, token);
    AfterRewrite("", a, token);
    UnmanagedThree(ra, m, rb);
    UnmanagedRewrite("", a, token);
    UnmanagedRewrite(SECTION, b, token);
  }

  lemma UnmanagedThree(a: seq<string>, m: seq<string>, b: seq<string>)
    requires After("", a) == SECTION && After(SECTION, m) == SECTION && Unmanaged(SECTION, m) == []
    ensures Unmanaged("", a + m + b) == Unmanaged("", a) + Unmanaged(SECTION, b)
  {
    Regroup(a, m, b);
    UnmanagedAppend("", a, m + b);
    UnmanagedAppend(SECTION, m, b);
    assert [] + Unmanaged(SECTION, b) == Unmanaged(SECTION, b);
  }

  // ---- Rendering twice

  lemma {:induction false} RewriteTwice(section: string, lines: seq<string>, token: string)
    requires PlainToken(token)
    ensures Rewritten(section, Rewritten(section, lines, token), token) == Rewritten(section, lines, token)
    decreases |lines|
  {
    if lines != [] {
      RewriteKind(section, lines[0], token);
      RewriteTwice(Next(section, lines[0]), lines[1..], token);
    }
  }

  lemma {:induction false} MissingRewrite(order: seq<Setting>, seen: set<Setting>, token: string)
    requires PlainToken(token)
    ensures Rewritten(SECTION, MissingLines(order, seen, token), token) == MissingLines(order, seen, token)
    decreases |order|
  {
    if order != [] {
      MissingRewrite(order[1..], seen, token);
      if order[0] !in seen {
        LineHolds(token, order[0]);
        var rest := MissingLines(order[1..], seen, token);
        assert ([SettingLine(token, order[0])] + rest)[1..] == rest;
      }
    }
  }

  lemma {:induction false} NoneMissing(order: seq<Setting>, token: string)
    ensures MissingLines(order, {Ip, Port, Token, Ssl}, token) == []
  {
    if order != [] { NoneMissing(order[1..], token); }
  }

  lemma {:induction false} UnmanagedSection(section: string, lines: seq<string>)
    ensures HasSection(Unmanaged(section, lines)) <==> HasSection(lines)
    decreases |lines|
  {
    if lines != [] {
      var rest := Unmanaged(Next(section, lines[0]), lines[1..]);
      UnmanagedSection(Next(section, lines[0]), lines[1..]);
      if Held(section, lines[0]).None? { assert ([lines[0]] + rest)[1..] == rest; }
    }
  }

  lemma RewriteRendered(lines: seq<string>, seen: set<Setting>, token: string)
    requires PlainToken(token) && HasSection(lines)
    ensures Rewritten("", RenderLines(lines, seen, token), token) == RenderLines(lines, seen, token)
  {
    var at := SectionEnd("", lines);
    RenderPieces(lines, seen, token);
    OrderAll(seen);
    MissingReads(ORDER, seen, {}, token);
    MissingRewrite(ORDER, seen, token);
    RewritePieces(lines[..at], lines[at..], MissingLines(ORDER, seen, token), token);
  }

  lemma RewritePieces(a: seq<string>, b: seq<string>, m: seq<string>, token: string)
    requires PlainToken(token) && After("", a) == SECTION
    requires After(SECTION, m) == SECTION && Rewritten(SECTION, m, token) == m
    ensures var whole := Rewritten("", a, token) + m + Rewritten(SECTION, b, token);
      Rewritten("", whole, token) == whole
  {
    var ra, rb := Rewritten("", a, token), Rewritten(SECTION, b, token);
    assert ra + m + rb == ra + (m + rb);
    AfterRewrite("", a, token);
    RewriteAppend("", ra, m + rb, token);
    RewriteAppend(SECTION, m, rb, token);
    RewriteTwice("", a, token);
    RewriteTwice(SECTION, b, token);
  }

  lemma RenderLinesTwice(lines: seq<string>, seen: set<Setting>, token: string)
    requires PlainToken(token) && HasSection(lines)
    ensures var once := RenderLines(lines, seen, token);
            HasSection(once) && RenderLines(once, {Ip, Port, Token, Ssl}, token) == once
  {
    var once := RenderLines(lines, seen, token);
    UnmanagedRendered(lines, seen, token);
    UnmanagedSection("", once);
    UnmanagedSection("", lines);
    RewriteRendered(lines, seen, token);
    NoneMissing(ORDER, token);
  }

  /** Rendering twice is rendering once. */
  lemma RenderTwice(body: string, token: string)
    requires PlainToken(token) && Render(body, token).Ok?
    ensures Render(Render(body, token).value, token) == Render(body, token)
  {
    var lines, seen := Split(body), Read(body).value.Keys;
    RenderOneLine(lines, seen, token);
    SplitJoin(RenderLines(lines, seen, token));
    RenderRead(body, token);
    RenderLinesTwice(lines, seen, token);
    assert Desired(token).Keys == {Ip, Port, Token, Ssl};
  }
}
