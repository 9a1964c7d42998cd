/** The bounded redacting line writer: its output is one function of the whole stream. */
module Redacting {

  const MAX_BUFFERED_LINE_BYTES: nat := 0x20_0000  // 2 << 20

  const OVERSIZED := "[REDACTED OVERSIZED LOG LINE]\n"

  /** Index of the first newline, or |s|. */
  function IndexByte(s: string): (i: nat)
    ensures i <= |s| && (i < |s| ==> s[i] == '\n')
    ensures forall j :: 0 <= j < i ==> s[j] != '\n'
  {
    if s == "" || s[0] == '\n' then 0 else 1 + IndexByte(s[1..])
  }

  /** The output for a whole stream: each line redacted, an oversized one replaced, the tail flushed. */
  function Render(text: string -> string, stream: string): string
    decreases |stream|
  {
    var i := IndexByte(stream);
    if i == |stream| then
      if stream == "" then "" else if |stream| > MAX_BUFFERED_LINE_BYTES then OVERSIZED else text(stream)
    else
      (if i > MAX_BUFFERED_LINE_BYTES then OVERSIZED else text(stream[..i]) + "\n") + Render(text, stream[i + 1..])
  }

  /** What a writer holds, and what it has written so far. */
  datatype LineState = LineState(pending: string, discarding: bool, out: string)

  /** One byte at a time. */
  function Feed(text: string -> string, st: LineState, c: char): LineState {
    if c == '\n' then
      if st.discarding then st.(discarding := false) else LineState("", false, st.out + text(st.pending) + "\n")
    else if st.discarding then st
    else if |st.pending| + 1 > MAX_BUFFERED_LINE_BYTES then LineState("", true, st.out + OVERSIZED)
    else st.(pending := st.pending + [c])
  }

  function FeedAll(text: string -> string, st: LineState, data: string): LineState
    decreases |data|
  {
    if data == "" then st else FeedAll(text, Feed(text, st, data[0]), data[1..])
  }

  predicate Sound(st: LineState) {
    |st.pending| <= MAX_BUFFERED_LINE_BYTES && (st.discarding ==> st.pending == "")
  }

  /** Splitting the data changes nothing. */
  lemma {:induction false} FeedSplit(text: string -> string, st: LineState, a: string, b: string)
    ensures FeedAll(text, st, a + b) == FeedAll(text, FeedAll(text, st, a), b)
    decreases |a|
  {
    if a == "" {
      assert a + b == b;
    } else {
      assert (a + b)[1..] == a[1..] + b;
      FeedSplit(text, Feed(text, st, a[0]), a[1..], b);
    }
  }

  /** Data without a newline joins the pending line, or turns it into a discarded one. */
  lemma {:induction false} FeedPart(text: string -> string, st: LineState, part: string)
    requires Sound(st) && forall i :: 0 <= i < |part| ==> part[i] != '\n'
    ensures FeedAll(text, st, part) ==
      if st.discarding then st
      else if |st.pending| + |part| > MAX_BUFFERED_LINE_BYTES then LineState("", true, st.out + OVERSIZED)
      else st.(pending := st.pending + part)
    decreases |part|
  {
    if part != "" {
      FeedPart(text, Feed(text, st, part[0]), part[1..]);
      assert st.pending + [part[0]] + part[1..] == st.pending + part;
    } else {
      assert st.pending + part == st.pending;
    }
  }

  /** Data up to and including a newline completes the line. */
  lemma FeedLine(text: string -> string, st: LineState, part: string)
    requires Sound(st) && forall i :: 0 <= i < |part| ==> part[i] != '\n'
    ensures FeedAll(text, st, part + "\n") ==
      if st.discarding then st.(discarding := false)
      else if |st.pending| + |part| > MAX_BUFFERED_LINE_BYTES then LineState("", false, st.out + OVERSIZED)
      else LineState("", false, st.out + (text(st.pending + part) + "\n"))
  {
    FeedSplit(text, st, part, "\n");
    FeedPart(text, st, part);
    var mid := FeedAll(text, st, part);
    assert FeedAll(text, mid, "\n") == Feed(text, mid, '\n');
    assert st.out + text(st.pending + part) + "\n" == st.out + (text(st.pending + part) + "\n");
  }

  /** Close: an unterminated line is flushed unless it is being discarded. */
  function Finish(text: string -> string, st: LineState): string {
    if st.discarding || st.pending == "" then st.out else st.out + text(st.pending)
  }

  function LineOut(text: string -> string, line: string): string {
    if |line| > MAX_BUFFERED_LINE_BYTES then OVERSIZED else text(line) + "\n"
  }

  lemma WholeLine(text: string -> string, out: string, line: string)
    requires forall i :: 0 <= i < |line| ==> line[i] != '\n'
    ensures FeedAll(text, LineState("", false, out), line + "\n") == LineState("", false, out + LineOut(text, line))
  {
    FeedLine(text, LineState("", false, out), line);
    assert "" + line == line;
  }

  /** The first complete line is written and forgotten. */
  lemma FirstLine(text: string -> string, out: string, line: string, rest: string)
    requires forall i :: 0 <= i < |line| ==> line[i] != '\n'
    ensures FeedAll(text, LineState("", false, out), line + "\n" + rest)
         == FeedAll(text, LineState("", false, out + LineOut(text, line)), rest)
  {
    FeedSplit(text, LineState("", false, out), line + "\n", rest);
    WholeLine(text, out, line);
  }

  /** Feeding a stream to an empty writer and closing it gives the stream's rendering. */
  lemma {:induction false} FeedRenders(text: string -> string, out: string, stream: string)
    ensures Finish(text, FeedAll(text, LineState("", false, out), stream)) == out + Render(text, stream)
    decreases |stream|
  {
    var st, i := LineState("", false, out), IndexByte(stream);
    if i == |stream| {
      FeedPart(text, st, stream);
      assert "" + stream == stream && out + "" == out;
    } else {
      var line, rest := stream[..i], stream[i + 1..];
      var first := LineOut(text, line);
      assert stream == line + "\n" + rest;
      FirstLine(text, out, line, rest);
      FeedRenders(text, out + first, rest);
      assert out + first + Render(text, rest) == out + (first + Render(text, rest));
    }
  }

  /** Where the writer sends its output. Each coming write fails where failures says so. */
  class Destination {
    var written: string
    var failures: seq<bool>

    method WriteString(s: string) returns (ok: bool)
      modifies this
      ensures ok ==> written == old(written) + s
      ensures old(failures) == [] ==> ok && failures == []
    {
      ok := failures == [] || !failures[0];
      if failures != [] {
        failures := failures[1..];
      }
      if ok {
        written := written + s;
      }
    }
  }

  class LineWriter {
    const text: string -> string
    const destination: Destination?
    var pending: string
    var discarding: bool
    var closed: bool

    constructor (text: string -> string, destination: Destination?)
      ensures this.text == text && this.destination == destination
      ensures pending == "" && !discarding && !closed
    {
      this.text, this.destination := text, destination;
      pending, discarding, closed := "", false, false;
    }

    /** The pending line is bounded, and empty while a line is being discarded. */
    ghost predicate Valid()
      reads this
    {
      |pending| <= MAX_BUFFERED_LINE_BYTES && (discarding ==> pending == "")
    }

    ghost function State(): LineState
      reads this, destination
      requires destination != null
    {
      LineState(pending, discarding, destination.written)
    }

    /** Write: whatever the split, the writer ends where feeding the bytes one by one ends. */
    method Write(data: string) returns (accepted: nat, ok: bool)
      requires Valid()
      modifies this, destination
      ensures Valid() && closed == old(closed)
      ensures closed || destination == null ==> !ok && pending == old(pending) && discarding == old(discarding)
      ensures closed && destination != null ==> destination.written == old(destination.written)
      ensures ok ==> accepted == |data| && State() == FeedAll(text, old(State()), data)
      ensures !ok ==> accepted == 0
      ensures destination != null && !closed && old(destination.failures) == [] ==> ok && destination.failures == []
    {
      if closed || destination == null {
        return 0, false;
      }
      accepted, ok := |data|, true;
      var rest := data;
      while rest != ""
        invariant Valid() && !closed && closed == old(closed)
        invariant FeedAll(text, State(), rest) == FeedAll(text, old(State()), data)
        invariant old(destination.failures) == [] ==> destination.failures == []
        decreases |rest|
      {
        var newline := IndexByte(rest);
        ghost var st := State();
        if newline == |rest| {
          FeedPart(text, st, rest);
        } else {
          assert rest == rest[..newline] + "\n" + rest[newline + 1..];
          FeedSplit(text, st, rest[..newline] + "\n", rest[newline + 1..]);
          FeedLine(text, st, rest[..newline]);
        }
        if discarding {
          if newline == |rest| {
            return;
          }
          rest := rest[newline + 1..];
          discarding := false;
        } else if newline == |rest| {
          if |pending| + |rest| > MAX_BUFFERED_LINE_BYTES {
            pending, discarding := "", true;
            ok := destination.WriteString(OVERSIZED);
            if !ok {
              accepted := 0;
            }
            return;
          }
          pending := pending + rest;
          return;
        } else {
          var line := pending + rest[..newline];
          pending := "";
          rest := rest[newline + 1..];
          ok := destination.WriteString(if |line| > MAX_BUFFERED_LINE_BYTES then OVERSIZED else text(line) + "\n");
          if !ok {
            return 0, false;
          }
        }
      }
    }

    /** Close flushes the unterminated line once. */
    method Close() returns (ok: bool)
      requires Valid()
      modifies this, destination
      ensures Valid() && closed && (old(closed) ==> ok && pending == old(pending) && discarding == old(discarding))
      ensures !old(closed) ==> pending == ""
      ensures !old(closed) && ok ==> destination != null && destination.written == Finish(text, old(State()))
      ensures !old(closed) && destination != null && old(destination.failures) == [] ==> ok
    {
      if closed {
        return true;
      }
      closed := true;
      if destination == null {
        pending := "";
        return false;
      }
      if discarding || pending == "" {
        pending := "";
        return true;
      }
      var tail := text(pending);
      pending := "";
      ok := destination.WriteString(tail);
    }
  }

  function Concat(chunks: seq<string>): string {
    if chunks == [] then "" else chunks[0] + Concat(chunks[1..])
  }

  lemma {:induction false} ConcatMore(chunks: seq<string>, chunk: string)
    ensures Concat(chunks + [chunk]) == Concat(chunks) + chunk
  {
    if chunks == [] {
      assert Concat([chunk]) == chunk + "";
    } else {
      assert (chunks + [chunk])[1..] == chunks[1..] + [chunk];
      ConcatMore(chunks[1..], chunk);
    }
  }

  /** Any sequence of writes followed by a close, to a destination that does not fail, outputs the rendering of the
      concatenated data: how the stream was cut does not matter. */
  method WriteStream(text: string -> string, destination: Destination, chunks: seq<string>)
    requires destination.failures == []
    modifies destination
    ensures destination.written == old(destination.written) + Render(text, Concat(chunks))
  {
    var w := new LineWriter(text, destination);
    ghost var start := w.State();
    for i := 0 to |chunks|
      invariant w.Valid() && !w.closed && w.text == text && w.destination == destination && destination.failures == []
      invariant w.State() == FeedAll(text, start, Concat(chunks[..i]))
    {
      assert chunks[..i + 1] == chunks[..i] + [chunks[i]];
      ConcatMore(chunks[..i], chunks[i]);
      FeedSplit(text, start, Concat(chunks[..i]), chunks[i]);
      var _, _ := w.Write(chunks[i]);
    }
    assert chunks[..|chunks|] == chunks;
    FeedRenders(text, old(destination.written), Concat(chunks));
    var _ := w.Close();
  }
}
