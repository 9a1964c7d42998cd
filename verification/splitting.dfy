/** Splitting a text at a separator character and joining it again. */
module Splitting {
  function SplitOn(sep: char, s: string): (parts: seq<string>)
    ensures parts != [] && forall i :: 0 <= i < |parts| ==> sep !in parts[i]
  {
    if s == "" then [""]
    else
      var rest := SplitOn(sep, s[1..]);
      if s[0] == sep then [""] + rest else [[s[0]] + rest[0]] + rest[1..]
  }

  function JoinWith(sep: char, parts: seq<string>): string {
    if parts == [] then "" else if |parts| == 1 then parts[0] else parts[0] + [sep] + JoinWith(sep, parts[1..])
  }

  ghost predicate Free(sep: char, parts: seq<string>) {
    forall i :: 0 <= i < |parts| ==> sep !in parts[i]
  }

  lemma {:induction false} SplitOnFirst(sep: char, a: string, s: string)
    requires sep !in a
    ensures SplitOn(sep, a + [sep] + s) == [a] + SplitOn(sep, s)
    decreases |a|
  {
    var t := a + [sep] + s;
    if a == "" {
      assert t[1..] == s;
    } else {
      assert t[1..] == a[1..] + [sep] + s && sep !in a[1..];
      SplitOnFirst(sep, a[1..], s);
      assert [a[0]] + a[1..] == a;
    }
  }

  lemma {:induction false} SplitOnOne(sep: char, a: string)
    requires sep !in a
    ensures SplitOn(sep, a) == [a]
    decreases |a|
  {
    if a != "" {
      SplitOnOne(sep, a[1..]);
      assert [a[0]] + a[1..] == a;
    }
  }

  /** Splitting undoes joining. */
  lemma {:induction false} SplitOnJoin(sep: char, parts: seq<string>)
    requires parts != [] && Free(sep, parts)
    ensures SplitOn(sep, JoinWith(sep, parts)) == parts
  {
    if |parts| == 1 {
      SplitOnOne(sep, parts[0]);
    } else {
      SplitOnJoin(sep, parts[1..]);
      SplitOnFirst(sep, parts[0], JoinWith(sep, parts[1..]));
    }
  }

  /** Joining undoes splitting. */
  lemma {:induction false} JoinSplitOn(sep: char, s: string)
    ensures JoinWith(sep, SplitOn(sep, s)) == s
    decreases |s|
  {
    if s != "" {
      JoinSplitOn(sep, s[1..]);
      var rest := SplitOn(sep, s[1..]);
      if s[0] == sep {
        assert JoinWith(sep, [""] + rest) == "" + [sep] + JoinWith(sep, rest) by {
          assert ([""] + rest)[1..] == rest;
        }
      } else if |rest| > 1 {
        assert ([[s[0]] + rest[0]] + rest[1..])[1..] == rest[1..];
      }
    }
  }
}
