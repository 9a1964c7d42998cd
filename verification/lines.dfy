/** Text as lines: splitting, joining, trimming and cutting, as the Go strings package does. */
module Lines {
  import opened Splitting

  function Split(s: string): (lines: seq<string>)
    ensures lines != [] && forall i :: 0 <= i < |lines| ==> '\n' !in lines[i]
  {
    SplitOn('\n', s)
  }

  function Join(lines: seq<string>): string {
    JoinWith('\n', lines)
  }

  predicate OneLine(s: string) {
    '\n' !in s
  }

  predicate AllOneLine(lines: seq<string>) {
    forall i :: 0 <= i < |lines| ==> OneLine(lines[i])
  }

  lemma SplitJoin(lines: seq<string>)
    requires lines != [] && AllOneLine(lines)
    ensures Split(Join(lines)) == lines
  {
    SplitOnJoin('\n', lines);
  }

  lemma JoinSplit(s: string)
    ensures Join(Split(s)) == s
  {
    JoinSplitOn('\n', s);
  }

  // ---- Trailing newlines

  function TrimNewlines(s: string): string {
    if s != "" && s[|s| - 1] == '\n' then TrimNewlines(s[..|s| - 1]) else s
  }

  function DropEmpty(lines: seq<string>): seq<string> {
    if lines != [] && lines[|lines| - 1] == "" then DropEmpty(lines[..|lines| - 1]) else lines
  }

  lemma {:induction false} JoinSnoc(lines: seq<string>, last: string)
    requires lines != []
    ensures Join(lines + [last]) == Join(lines) + "\n" + last
  {
    assert (lines + [last])[1..] == lines[1..] + [last];
    if |lines| == 1 {
      assert lines[1..] + [last] == [last] && Join([last]) == last;
    } else {
      JoinSnoc(lines[1..], last);
    }
  }

  /** A text ended by exactly one newline, from lines that are not all empty. */
  lemma {:induction false} SplitTrimmed(lines: seq<string>)
    requires AllOneLine(lines) && DropEmpty(lines) != []
    ensures Split(TrimNewlines(Join(lines)) + "\n") == DropEmpty(lines) + [""]
    decreases |lines|
  {
    var n := |lines| - 1;
    if lines[n] == "" {
      var front := lines[..n];
      assert lines == front + [""];
      JoinSnoc(front, "");
      assert Join(lines) == Join(front) + "\n";
      assert Join(lines)[..|Join(lines)| - 1] == Join(front);
      SplitTrimmed(front);
    } else {
      LastChar(lines);
      JoinSnoc(lines, "");
      assert Join(lines) + "\n" == Join(lines + [""]) by {
        assert Join(lines) + "\n" + "" == Join(lines) + "\n";
      }
      SplitJoin(lines + [""]);
    }
  }

  lemma {:induction false} LastChar(lines: seq<string>)
    requires AllOneLine(lines) && lines != [] && lines[|lines| - 1] != ""
    ensures Join(lines) != "" && Join(lines)[|Join(lines)| - 1] != '\n'
  {
    if |lines| > 1 {
      LastChar(lines[1..]);
    } else {
      var s := lines[0];
      assert s[|s| - 1] in s;
    }
  }

  lemma {:induction false} DropEmptyShape(lines: seq<string>)
    ensures DropEmpty(lines) <= lines
    ensures forall i :: |DropEmpty(lines)| <= i < |lines| ==> lines[i] == ""
    ensures DropEmpty(lines) != [] ==> DropEmpty(lines)[|DropEmpty(lines)| - 1] != ""
    decreases |lines|
  {
    if lines != [] && lines[|lines| - 1] == "" { DropEmptyShape(lines[..|lines| - 1]); }
  }

  // ---- Trimming and cutting

  /** unicode.IsSpace */
  predicate IsSpace(c: char) {
    var n := c as int;
    || 9 <= n <= 13 || n == 32 || n == 0x85 || n == 0xA0 || n == 0x1680 || 0x2000 <= n <= 0x200A
    || n == 0x2028 || n == 0x2029 || n == 0x202F || n == 0x205F || n == 0x3000
  }

  function TrimLeft(s: string): string {
    if s != "" && IsSpace(s[0]) then TrimLeft(s[1..]) else s
  }

  function TrimRight(s: string): string {
    if s != "" && IsSpace(s[|s| - 1]) then TrimRight(s[..|s| - 1]) else s
  }

  function TrimSpace(s: string): string {
    TrimRight(TrimLeft(s))
  }

  predicate Trimmed(s: string) {
    s == "" || (!IsSpace(s[0]) && !IsSpace(s[|s| - 1]))
  }

  lemma TrimTrimmed(s: string)
    requires Trimmed(s)
    ensures TrimSpace(s) == s
  {
  }

  lemma {:induction false} TrimRightShape(s: string)
    ensures TrimRight(s) <= s && (TrimRight(s) != "" ==> !IsSpace(TrimRight(s)[|TrimRight(s)| - 1]))
    ensures s != "" && !IsSpace(s[0]) ==> TrimRight(s) != ""
    decreases |s|
  {
    if s != "" && IsSpace(s[|s| - 1]) { TrimRightShape(s[..|s| - 1]); }
  }

  /** A text starting with a non-space keeps its first character. */
  lemma TrimKeepsFirst(s: string)
    requires s != "" && !IsSpace(s[0])
    ensures TrimSpace(s) != "" && TrimSpace(s)[0] == s[0]
  {
    TrimRightShape(s);
  }

  lemma {:induction false} TrimLeftShape(s: string)
    ensures |TrimLeft(s)| <= |s| && TrimLeft(s) == s[|s| - |TrimLeft(s)|..]
    ensures TrimLeft(s) != "" ==> !IsSpace(TrimLeft(s)[0])
    decreases |s|
  {
    if s != "" && IsSpace(s[0]) { TrimLeftShape(s[1..]); }
  }

  /** Trimming leaves a trimmed text, and adds no line break. */
  lemma TrimSpaceTrims(s: string)
    ensures Trimmed(TrimSpace(s)) && (OneLine(s) ==> OneLine(TrimSpace(s)))
  {
    TrimLeftShape(s);
    TrimRightShape(TrimLeft(s));
  }

  /** White space after a trimmed text is trimmed away. */
  lemma TrimAfter(s: string, c: char)
    requires Trimmed(s) && IsSpace(c)
    ensures TrimSpace(s + [c]) == s
  {
    var t := s + [c];
    if s == "" {
      assert t[1..] == "" && TrimLeft(t) == TrimLeft("");
    } else {
      assert t[..|t| - 1] == s && TrimRight(t) == TrimRight(s);
    }
  }

  /** Surrounding a trimmed text with single spaces is undone by trimming. */
  lemma TrimPadded(s: string)
    requires Trimmed(s)
    ensures TrimSpace(" " + s) == s && TrimSpace(s + " ") == s
  {
    var left, right := " " + s, s + " ";
    assert left[1..] == s && TrimLeft(left) == TrimLeft(s);
    if s == "" {
      assert right == " " && right[1..] == "" && TrimLeft(right) == "";
    } else {
      assert TrimLeft(right) == right;
      assert right[..|right| - 1] == s && TrimRight(right) == TrimRight(s);
    }
  }

  /** strings.Cut at the first equals sign. */
  function CutAt(s: string): (i: nat)
    ensures i <= |s| && (i < |s| ==> s[i] == '=') && forall j :: 0 <= j < i ==> s[j] != '='
  {
    if s == "" || s[0] == '=' then 0 else 1 + CutAt(s[1..])
  }

  predicate HasEquals(line: string) {
    CutAt(line) < |line|
  }

  function KeyOf(line: string): string {
    TrimSpace(line[..CutAt(line)])
  }

  function ValueOf(line: string): string
    requires HasEquals(line)
  {
    TrimSpace(line[CutAt(line) + 1..])
  }

  lemma CutFirst(a: string, b: string)
    requires '=' !in a
    ensures CutAt(a + "=" + b) == |a|
    ensures (a + "=" + b)[..|a|] == a && (a + "=" + b)[|a| + 1..] == b
  {
    var s := a + "=" + b;
    assert s[|a|] == '=';
    forall j | 0 <= j < |a|
      ensures s[j] != '='
    {
      assert a[j] in a;
    }
  }

  /** A section line: bracketed after trimming. */
  predicate Bracketed(line: string) {
    var t := TrimSpace(line);
    t != "" && t[0] == '[' && t[|t| - 1] == ']'
  }
}
