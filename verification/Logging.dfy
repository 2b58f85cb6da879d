/** The log hub: lines put together from arbitrary chunks, and a ring of them. */
module Logging {
  import opened Text

  const RING_SIZE := 1000
  const MAX_PARTIAL := 64 * 1024

  /** The complete lines of a text, right-trimmed, without the empty ones. */
  function CompleteLines(s: string): (ls: seq<string>)
    decreases |s|
  {
    var i := Find(s, '\n');
    if i == |s| then []
    else
      var line := TrimEnd(s[..i + 1]);
      (if line == "" then [] else [line]) + CompleteLines(s[i + 1..])
  }

  /** What follows the last newline. */
  function Residue(s: string): (r: string)
    ensures '\n' !in r
    decreases |s|
  {
    var i := Find(s, '\n');
    if i == |s| then assert s[..i] == s; s else Residue(s[i + 1..])
  }

  function Last(s: seq<string>, n: nat): (r: seq<string>)
    ensures |r| == if n < |s| then n else |s|
  {
    if n < |s| then s[|s| - n..] else s
  }

  class LogHub {
    var entries: seq<string>
    var partial: string
    /** The lines handed to the log file and to the subscribers. */
    var filed: seq<string>
    var broadcast: seq<string>

    /** Every line ever pushed. */
    ghost var pushed: seq<string>

    ghost predicate Valid()
      reads this
    {
      && Delivered()
      && '\n' !in partial && ByteLen(partial) <= MAX_PARTIAL
    }

    /** The ring has the last lines pushed, and the file and the subscribers were
        handed each line once, in order. */
    ghost predicate Delivered()
      reads this
    {
      entries == Last(pushed, RING_SIZE) && filed == pushed && broadcast == pushed
    }

    constructor ()
      ensures Valid() && pushed == [] && partial == ""
    {
      entries, partial, filed, broadcast, pushed := [], "", [], [], [];
    }

    method PushLine(line: string)
      requires Delivered()
      modifies this`entries, this`filed, this`broadcast, this`pushed
      ensures Delivered() && pushed == old(pushed) + [line]
    {
      if |entries| == RING_SIZE {
        entries := entries[1..];
      }
      entries := entries + [line];
      filed := filed + [line];
      broadcast := broadcast + [line];
      pushed := pushed + [line];
    }

    /** The last lines pushed, `n` of them or all that the ring holds. */
    method Snapshot(n: nat) returns (lines: seq<string>)
      requires Valid()
      ensures lines == Last(pushed, if n < RING_SIZE then n else RING_SIZE)
    {
      var skip := if |entries| > n then |entries| - n else 0;
      lines := entries[skip..];
    }

    /** One turn of the loop: the line up to position `pos` leaves the buffer. */
    method TakeLine(pos: nat)
      requires Delivered() && pos == Find(partial, '\n') && pos < |partial|
      modifies this
      ensures Delivered() && |partial| < |old(partial)|
      ensures pushed + CompleteLines(partial) == old(pushed) + CompleteLines(old(partial))
      ensures Residue(partial) == Residue(old(partial))
    {
      var line := TrimEnd(partial[..pos + 1]);
      ghost var was, rest := pushed, CompleteLines(partial[pos + 1..]);
      partial := partial[pos + 1..];
      if line != "" {
        PushLine(line);
        assert was + ([line] + rest) == was + [line] + rest;
      } else {
        assert was + ([] + rest) == was + rest;
      }
    }

    method TakeLines()
      requires Delivered()
      modifies this
      ensures Delivered()
      ensures pushed == old(pushed) + CompleteLines(old(partial)) && partial == Residue(old(partial))
    {
      ghost var text, before := partial, pushed;
      var pos := Find(partial, '\n');
      while pos < |partial|
        invariant pos == Find(partial, '\n')
        invariant Delivered()
        invariant pushed + CompleteLines(partial) == before + CompleteLines(text)
        invariant Residue(partial) == Residue(text)
        decreases |partial|
      {
        TakeLine(pos);
        pos := Find(partial, '\n');
      }
      assert CompleteLines(partial) == [] && Residue(partial) == partial;
      assert pushed + [] == pushed;
    }

    /** Pushes the complete lines and keeps the rest; a rest that is too long is
        pushed as a line of its own. */
    method Ingest(buf: string)
      requires Valid()
      modifies this
      ensures Valid()
      ensures var text := old(partial) + buf;
              var rest := Residue(text);
              if ByteLen(rest) <= MAX_PARTIAL then
                partial == rest && pushed == old(pushed) + CompleteLines(text)
              else
                && partial == ""
                && pushed == old(pushed) + CompleteLines(text) + (if TrimEnd(rest) == "" then [] else [TrimEnd(rest)])
    {
      partial := partial + buf;
      TakeLines();
      if ByteLen(partial) > MAX_PARTIAL {
        var line := TrimEnd(partial);
        partial := "";
        if line != "" {
          PushLine(line);
        }
      }
    }
  }

  /** What a first line contributes. */
  function Pushed(line: string): seq<string> {
    if TrimEnd(line) == "" then [] else [TrimEnd(line)]
  }

  lemma FirstLine(line: string, rest: string)
    requires '\n' !in line
    ensures CompleteLines(line + ['\n'] + rest) == Pushed(line + ['\n']) + CompleteLines(rest)
    ensures Residue(line + ['\n'] + rest) == Residue(rest)
  {
    var s := line + ['\n'] + rest;
    FindFirst(line, '\n', rest);
    assert s[..|line| + 1] == line + ['\n'] && s[|line| + 1..] == rest;
  }

  function Joined(lines: seq<string>): string {
    if lines == [] then "" else lines[0] + ['\n'] + Joined(lines[1..])
  }

  function PushedAll(lines: seq<string>): seq<string> {
    if lines == [] then [] else Pushed(lines[0] + ['\n']) + PushedAll(lines[1..])
  }

  /** A text made of lines and an unfinished one holds those lines and that rest. */
  lemma {:induction false} LinesOfText(lines: seq<string>, rest: string)
    requires (forall l | l in lines :: '\n' !in l) && '\n' !in rest
    ensures CompleteLines(Joined(lines) + rest) == PushedAll(lines) && Residue(Joined(lines) + rest) == rest
  {
    if lines == [] {
      assert Joined(lines) + rest == rest;
      assert Find(rest, '\n') == |rest|;
    } else {
      assert Joined(lines) + rest == lines[0] + ['\n'] + (Joined(lines[1..]) + rest);
      FirstLine(lines[0], Joined(lines[1..]) + rest);
      LinesOfText(lines[1..], rest);
    }
  }

  /** A line that does not end in white space is pushed as it is. */
  lemma CleanLine(line: string)
    requires line != "" && !IsWhitespace(line[|line| - 1])
    ensures Pushed(line + ['\n']) == [line]
  {
    TrimEndOf(line, ['\n']);
  }

  /** A clean line that comes in one piece on top of nothing. */
  lemma IngestsClean(line: string)
    requires line != "" && '\n' !in line && !IsWhitespace(line[|line| - 1])
    ensures CompleteLines(line + ['\n']) == [line] && Residue(line + ['\n']) == ""
  {
    CleanLine(line);
    FirstLine(line, "");
    assert line + ['\n'] + "" == line + ['\n'];
    assert CompleteLines("") == [] && Residue("") == "";
  }

  /** A text in two parts: the rest of the first goes in front of the second. */
  lemma {:induction false} CutAnywhere(a: string, b: string)
    ensures CompleteLines(a + b) == CompleteLines(a) + CompleteLines(Residue(a) + b)
    ensures Residue(a + b) == Residue(Residue(a) + b)
    decreases |a|
  {
    var i := Find(a, '\n');
    if i < |a| {
      var line, rest := a[..i], a[i + 1..];
      assert a == line + ['\n'] + rest;
      assert a + b == line + ['\n'] + (rest + b);
      FirstLine(line, rest);
      FirstLine(line, rest + b);
      CutAnywhere(rest, b);
      assert Pushed(line + ['\n']) + (CompleteLines(rest) + CompleteLines(Residue(rest) + b))
          == Pushed(line + ['\n']) + CompleteLines(rest) + CompleteLines(Residue(rest) + b);
    }
  }

  function Flatten(chunks: seq<string>): string {
    if chunks == [] then "" else Flatten(chunks[..|chunks| - 1]) + chunks[|chunks| - 1]
  }

  /** What `Ingest` pushes for a list of chunks, and what it keeps. */
  function Fed(chunks: seq<string>): (seq<string>, string) {
    if chunks == [] then ([], "")
    else
      var (ls, partial) := Fed(chunks[..|chunks| - 1]);
      var text := partial + chunks[|chunks| - 1];
      var rest := Residue(text);
      if ByteLen(rest) <= MAX_PARTIAL then (ls + CompleteLines(text), rest)
      else (ls + CompleteLines(text) + (if TrimEnd(rest) == "" then [] else [TrimEnd(rest)]), "")
  }

  /** No unfinished line ever grows past the limit. */
  ghost predicate NeverTooLong(chunks: seq<string>) {
    forall k | 0 <= k <= |chunks| :: ByteLen(Residue(Flatten(chunks[..k]))) <= MAX_PARTIAL
  }

  /** However a text is cut, the lines pushed are the lines of the whole. */
  lemma {:induction false} CutsDoNotShow(chunks: seq<string>)
    requires NeverTooLong(chunks)
    ensures Fed(chunks) == (CompleteLines(Flatten(chunks)), Residue(Flatten(chunks)))
    decreases |chunks|
  {
    if chunks != [] {
      var front, last := chunks[..|chunks| - 1], chunks[|chunks| - 1];
      assert NeverTooLong(front) by {
        forall k | 0 <= k <= |front|
          ensures ByteLen(Residue(Flatten(front[..k]))) <= MAX_PARTIAL
        {
          assert front[..k] == chunks[..k];
        }
      }
      CutsDoNotShow(front);
      CutAnywhere(Flatten(front), last);
      assert chunks[..|chunks|] == chunks;
    }
  }

  /** A hub fed chunk by chunk. */
  method Feed(hub: LogHub, chunks: seq<string>)
    requires hub.Valid() && hub.pushed == [] && hub.partial == ""
    modifies hub
    ensures hub.Valid() && (hub.pushed, hub.partial) == Fed(chunks)
    ensures NeverTooLong(chunks) ==> hub.pushed == CompleteLines(Flatten(chunks))
  {
    var i := 0;
    while i < |chunks|
      invariant 0 <= i <= |chunks| && hub.Valid() && (hub.pushed, hub.partial) == Fed(chunks[..i])
    {
      assert chunks[..i + 1][..i] == chunks[..i];
      hub.Ingest(chunks[i]);
      i := i + 1;
    }
    assert chunks[..i] == chunks;
    if NeverTooLong(chunks) {
      CutsDoNotShow(chunks);
    }
  }
}
