/** Shared vocabulary: optional results and slash paths as component lists. */
module Common {
  datatype Option<+T> = None | Some(value: T)

  /** A cleaned path, one string per component; [] is the root it is relative to. */
  type Path = seq<string>

  predicate ValidComponent(c: string) {
    c != "" && c != "." && c != ".." && '/' !in c
  }

  function Utf8Length(c: char): nat {
    if c as int < 0x80 then 1 else if c as int < 0x800 then 2 else if c as int < 0x10000 then 3 else 4
  }

  /** The length of a text in bytes. */
  function ByteLength(s: string): nat {
    if s == "" then 0 else Utf8Length(s[0]) + ByteLength(s[1..])
  }

  /** Length in bytes of the path written with slashes. */
  function PathLength(p: Path): nat {
    if p == [] then 0
    else if |p| == 1 then ByteLength(p[0])
    else ByteLength(p[0]) + 1 + PathLength(p[1..])
  }

  predicate Ascii(s: string) {
    forall i :: 0 <= i < |s| ==> s[i] as int < 0x80
  }

  lemma {:induction false} AsciiLength(s: string)
    requires Ascii(s)
    ensures ByteLength(s) == |s|
  {
    if s != "" { AsciiLength(s[1..]); }
  }

  lemma {:induction false} ByteLengthConcat(a: string, b: string)
    ensures ByteLength(a + b) == ByteLength(a) + ByteLength(b)
  {
    if a == "" {
      assert a + b == b;
    } else {
      assert (a + b)[1..] == a[1..] + b;
      ByteLengthConcat(a[1..], b);
    }
  }

  /** What the environment does to the next step: lets it run, refuses it, lets it happen although the
      call or the sync behind it reports failure, or ends the process. */
  datatype Fault = Run | Refuse | Landed | Crash

  datatype Status = Done | Failed | Crashed
}
