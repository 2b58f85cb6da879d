/** The record a signal handler writes, and its parser. A record is plain ASCII, so
    its bytes are modelled as characters. */
module Signals {
  import opened Bytes
  import opened Decimal
  import opened Text

  datatype Termination = Termination(signal: int, senderPid: int, senderUid: int, code: int)

  predicate I32(v: int) {
    -0x8000_0000 <= v <= 0x7FFF_FFFF
  }

  predicate U32(v: int) {
    0 <= v <= 0xFFFF_FFFF
  }

  predicate I64(v: int) {
    -0x8000_0000_0000_0000 <= v <= 0x7FFF_FFFF_FFFF_FFFF
  }

  predicate Typed(t: Termination) {
    I32(t.signal) && I32(t.senderPid) && U32(t.senderUid) && I32(t.code)
  }

  // ---- Writing.

  /** A buffer after `text` was put at `at`, cut off at the end of the buffer. */
  function Placed(buf: string, at: nat, text: string): (r: string)
    ensures |r| == |buf|
  {
    if at >= |buf| then buf
    else if at + |text| <= |buf| then buf[..at] + text + buf[at + |text|..]
    else buf[..at] + text[..|buf| - at]
  }

  function EndOf(size: nat, at: nat, text: string): (n: nat)
    ensures at <= size ==> n <= size
  {
    if at >= size then at else if at + |text| <= size then at + |text| else size
  }

  lemma PlacedTwice(buf: string, at: nat, a: string, b: string)
    ensures Placed(Placed(buf, at, a), EndOf(|buf|, at, a), b) == Placed(buf, at, a + b)
    ensures EndOf(|buf|, EndOf(|buf|, at, a), b) == EndOf(|buf|, at, a + b)
  {
  }

  /** Putting `text` at `at` turned buffer `b` into `b'` and ended at `n`. Opened
      only on request. */
  ghost predicate Wrote(b: string, b': string, at: nat, n: nat, text: string) {
    forall k: nat {:trigger Open(k)} | Open(k) :: b' == Placed(b, at, text) && n == EndOf(|b|, at, text)
  }

  lemma WroteNothing(b: string, at: nat)
    ensures Wrote(b, b, at, at, "")
  {
    assert Placed(b, at, "") == b;
  }

  lemma WroteMore(b: string, b1: string, b2: string, at: nat, n1: nat, n2: nat, s: string, t: string)
    requires Wrote(b, b1, at, n1, s) && Wrote(b1, b2, n1, n2, t)
    ensures Wrote(b, b2, at, n2, s + t)
  {
    assert Open(0);
    PlacedTwice(b, at, s, t);
  }

  lemma WroteChar(b: string, n: nat, c: char)
    requires n < |b|
    ensures Wrote(b, b[n := c], n, n + 1, [c])
  {
    assert Placed(b, n, [c]) == b[n := c];
  }

  lemma WroteNext(b: string, b': string, at: nat, n: nat, text: string, i: nat)
    requires i < |text| && n < |b'| && Wrote(b, b', at, n, text[..i])
    ensures Wrote(b, b'[n := text[i]], at, n + 1, text[..i + 1])
  {
    WroteChar(b', n, text[i]);
    WroteMore(b, b', b'[n := text[i]], at, n, n + 1, text[..i], [text[i]]);
    assert text[..i] + [text[i]] == text[..i + 1];
  }

  lemma WroteFits(b: string, b': string, at: nat, n: nat, text: string)
    requires Wrote(b, b', at, n, text) && at + |text| <= |b|
    ensures |b'| == |b| && n == at + |text| && b'[..n] == b[..at] + text
  {
    assert Open(0);
  }

  /** Past the end nothing more is written. */
  lemma CutOff(b: string, b': string, at: nat, n: nat, s: string, text: string)
    requires Wrote(b, b', at, n, s) && n >= |b| && s <= text
    ensures Wrote(b, b', at, n, text)
  {
    assert Open(0);
  }

  method Put(buf: array<char>, at: nat, text: string) returns (n: nat)
    modifies buf
    ensures Wrote(old(buf[..]), buf[..], at, n, text)
  {
    n := at;
    ghost var was := buf[..];
    var i := 0;
    WroteNothing(was, at);
    while i < |text|
      invariant 0 <= i <= |text| && Wrote(was, buf[..], at, n, text[..i])
    {
      if n >= buf.Length {
        CutOff(was, buf[..], at, n, text[..i], text);
        return;
      }
      WroteNext(was, buf[..], at, n, text, i);
      ghost var after := buf[..][n := text[i]];
      buf[n] := text[i];
      assert buf[..] == after;
      n := n + 1;
      i := i + 1;
    }
    assert text[..i] == text;
  }

  function Rev(s: string): (r: string)
    ensures |r| == |s|
  {
    seq(|s|, i requires 0 <= i < |s| => s[|s| - 1 - i])
  }

  lemma RevSnoc(s: string, c: char)
    ensures Rev(s + [c]) == [c] + Rev(s)
  {
  }

  lemma RevNext(s: string, k: nat)
    requires k < |s|
    ensures Rev(s)[..k] + [s[|s| - 1 - k]] == Rev(s)[..k + 1]
  {
  }

  lemma NineteenDigits(n: nat)
    requires n <= 0x8000_0000_0000_0000
    ensures |Digits(n)| <= 19
  {
    assert Pow10(5) == 100_000;
    assert Pow10(10) == 100_000 * Pow10(5);
    assert Pow10(15) == 100_000 * Pow10(10);
    assert Pow10(19) == 10_000 * Pow10(15);
    DigitCount(n, 19, Pow10(19));
  }

  function Abs(v: int): nat {
    if v < 0 then -v else v
  }

  /** The digits of a number, least significant first. */
  method ReversedDigits(v: nat) returns (digits: array<char>, len: nat)
    requires v <= 0x8000_0000_0000_0000
    ensures fresh(digits) && digits.Length == 20 && 0 < len <= 20
    ensures Rev(digits[..len]) == Digits(v)
  {
    digits := new char[20](_ => '0');
    len := 0;
    var rest := v;
    NineteenDigits(v);
    assert Rev(digits[..0]) == "";
    while true
      invariant len < 20 && rest >= 0 && Digits(v) == Digits(rest) + Rev(digits[..len])
      invariant |Digits(v)| <= 19
      decreases rest
    {
      var d := Digit(rest % 10);
      ghost var low := digits[..len];
      RevSnoc(low, d);
      digits[len] := d;
      assert digits[..len + 1] == low + [d];
      len := len + 1;
      if rest < 10 {
        assert Digits(rest) == [d];
        return;
      }
      assert Digits(rest) == Digits(rest / 10) + [d];
      assert Digits(v) == Digits(rest / 10) + Rev(digits[..len]);
      rest := rest / 10;
    }
  }

  method PutInt(buf: array<char>, at: nat, v: int) returns (n: nat)
    requires I64(v)
    modifies buf
    ensures Wrote(old(buf[..]), buf[..], at, n, Print(v))
  {
    n := at;
    ghost var was := buf[..];
    var digits, len := ReversedDigits(Abs(v));
    WroteNothing(was, at);
    if v < 0 {
      n := Put(buf, n, "-");
      ghost var mid, n1 := buf[..], n;
      n := PutReversed(buf, n, digits, len);
      WroteMore(was, mid, buf[..], at, n1, n, "-", Digits(-v));
    } else {
      n := PutReversed(buf, n, digits, len);
    }
  }

  /** The digits in reading order. */
  method PutReversed(buf: array<char>, at: nat, digits: array<char>, count: nat) returns (n: nat)
    requires count <= digits.Length && buf != digits
    modifies buf
    ensures Wrote(old(buf[..]), buf[..], at, n, Rev(digits[..count]))
  {
    n := at;
    var len := count;
    ghost var was, ds := buf[..], digits[..count];
    ghost var done := "";
    WroteNothing(was, at);
    while len > 0
      invariant 0 <= len <= count && digits[..count] == ds
      invariant done == Rev(ds)[..count - len]
      invariant Wrote(was, buf[..], at, n, done)
    {
      len := len - 1;
      var d := digits[len];
      assert d == ds[len];
      RevNext(ds, count - len - 1);
      ghost var before, n0 := buf[..], n;
      n := Put(buf, n, [d]);
      WroteMore(was, before, buf[..], at, n0, n, done, [d]);
      done := done + [d];
    }
    assert Rev(ds)[..count] == Rev(ds);
  }

  function Record(t: Termination): string {
    "signal " + Print(t.signal) + " from pid=" + Print(t.senderPid)
    + " uid=" + Print(t.senderUid) + " code=" + Print(t.code) + "\n"
  }

  lemma FieldLengths(t: Termination)
    requires Typed(t)
    ensures |Print(t.signal)| <= 11 && |Print(t.senderPid)| <= 11
    ensures |Print(t.senderUid)| <= 10 && |Print(t.code)| <= 11
  {
    assert Pow10(5) == 100_000;
    assert Pow10(10) == 100_000 * Pow10(5);
    DigitCount(Abs(t.signal), 10, Pow10(10));
    DigitCount(Abs(t.senderPid), 10, Pow10(10));
    DigitCount(Abs(t.senderUid), 10, Pow10(10));
    DigitCount(Abs(t.code), 10, Pow10(10));
  }

  lemma RecordPieces(t: Termination, p1: string, p2: string, p3: string, p4: string)
    requires p1 == "" + ("signal " + Print(t.signal)) && p2 == p1 + (" from pid=" + Print(t.senderPid))
    requires p3 == p2 + (" uid=" + Print(t.senderUid)) && p4 == p3 + (" code=" + Print(t.code))
    ensures p4 + "\n" == Record(t)
  {
    assert p1 == "signal " + Print(t.signal);
    assert p2 == p1 + " from pid=" + Print(t.senderPid);
    assert p3 == p2 + " uid=" + Print(t.senderUid);
    assert p4 == p3 + " code=" + Print(t.code);
  }

  /** The record takes at most 72 of the 80 places, so nothing is cut off. */
  method RecordBytes(t: Termination) returns (buf: array<char>, n: nat)
    requires Typed(t)
    ensures buf.Length == 80 && n <= 72 && buf[..n] == Record(t)
  {
    buf := new char[80](_ => '\0');
    FieldLengths(t);
    n := PutField(buf, 0, "", "signal ", t.signal);
    ghost var p1 := buf[..n];
    n := PutField(buf, n, p1, " from pid=", t.senderPid);
    ghost var p2 := buf[..n];
    n := PutField(buf, n, p2, " uid=", t.senderUid);
    ghost var p3 := buf[..n];
    n := PutField(buf, n, p3, " code=", t.code);
    ghost var p4, before, n0 := buf[..n], buf[..], n;
    n := Put(buf, n, "\n");
    WroteFits(before, buf[..], n0, n, "\n");
    RecordPieces(t, p1, p2, p3, p4);
  }

  /** A tag and a number, where there is room for both. */
  method PutField(buf: array<char>, at: nat, ghost done: string, tag: string, v: int) returns (n: nat)
    requires I64(v) && at + |tag| + |Print(v)| <= buf.Length && buf[..at] == done
    modifies buf
    ensures n == at + |tag| + |Print(v)| && buf[..n] == done + (tag + Print(v))
  {
    ghost var was := buf[..];
    n := Put(buf, at, tag);
    ghost var mid, n1 := buf[..], n;
    n := PutInt(buf, n, v);
    WroteMore(was, mid, buf[..], at, n1, n, tag, Print(v));
    WroteFits(was, buf[..], at, n, tag + Print(v));
  }

  // ---- Reading.

  function StripPrefix(s: string, p: string): Option<string> {
    if p <= s then Some(s[|p|..]) else None
  }

  function SplitOnce(s: string, c: char): Option<(string, string)> {
    var i := Find(s, c);
    if i < |s| then Some((s[..i], s[i + 1..])) else None
  }

  /** One `label<number>` field that ends with a blank, and what follows. */
  function TakeField(s: string, tag: string, signed: bool, lo: int, hi: int): Option<(int, string)> {
    var rest := StripPrefix(s, tag);
    if rest.None? then None
    else
      var parts := SplitOnce(rest.value, ' ');
      if parts.None? then None
      else
        var v := Decimal.Parse(parts.value.0, signed, lo, hi);
        if v.None? then None else Some((v.value, parts.value.1))
  }

  function Parse(line: string): Option<Termination> {
    var sig := TakeField(line, "signal ", true, -0x8000_0000, 0x7FFF_FFFF);
    if sig.None? then None
    else
      var pid := TakeField(sig.value.1, "from pid=", true, -0x8000_0000, 0x7FFF_FFFF);
      if pid.None? then None
      else
        var uid := TakeField(pid.value.1, "uid=", false, 0, 0xFFFF_FFFF);
        if uid.None? then None
        else
          var rest := StripPrefix(uid.value.1, "code=");
          if rest.None? then None
          else
            var code := ParseI32(TrimEnd(rest.value));
            if code.None? then None
            else Some(Termination(sig.value.0, pid.value.0, uid.value.0, code.value))
  }

  /** `str::lines`: pieces that end with a newline, which goes together with a
      carriage return before it; a last piece without one is kept as it is. */
  function Lines(s: string): seq<string>
    decreases |s|
  {
    if s == "" then []
    else
      var i := Find(s, '\n');
      if i == |s| then [s]
      else
        var line := s[..i];
        [if line != "" && line[|line| - 1] == '\r' then line[..|line| - 1] else line] + Lines(s[i + 1..])
  }

  function ParseLines(lines: seq<string>): seq<Termination> {
    if lines == [] then []
    else (var t := Parse(lines[0]); if t.Some? then [t.value] else []) + ParseLines(lines[1..])
  }

  function ParseAll(text: string): seq<Termination> {
    ParseLines(Lines(text))
  }

  // ---- Reading what was written.

  lemma PrintedChars(v: int)
    ensures forall c | c in Print(v) :: c == '-' || IsDigit(c)
  {
  }

  lemma FieldReads(tag: string, a: string, rest: string, signed: bool, lo: int, hi: int, v: int)
    requires ' ' !in a && Decimal.Parse(a, signed, lo, hi) == Some(v)
    ensures TakeField(tag + a + " " + rest, tag, signed, lo, hi) == Some((v, rest))
  {
    var s, tail := tag + a + " " + rest, a + [' '] + rest;
    assert s == tag + tail && s[|tag|..] == tail;
    FindFirst(a, ' ', rest);
    assert tail[..|a|] == a && tail[|a| + 1..] == rest;
  }

  lemma FieldTaken(tag: string, v: int, rest: string, signed: bool, lo: int, hi: int)
    requires lo <= v <= hi && (v < 0 ==> signed)
    ensures TakeField(tag + Print(v) + " " + rest, tag, signed, lo, hi) == Some((v, rest))
  {
    PrintedChars(v);
    ParseOfPrint(v, signed, lo, hi);
    FieldReads(tag, Print(v), rest, signed, lo, hi, v);
  }

  lemma NothingToTrim(v: int)
    ensures TrimEnd(Print(v)) == Print(v)
  {
    var p := Print(v);
    PrintedChars(v);
    assert p[|p| - 1] in p;
  }

  lemma CodeTaken(v: int)
    requires I32(v)
    ensures StripPrefix("code=" + Print(v), "code=") == Some(Print(v))
    ensures ParseI32(TrimEnd(Print(v))) == Some(v)
  {
    assert ("code=" + Print(v))[5..] == Print(v);
    NothingToTrim(v);
    ParseOfPrint(v, true, -0x8000_0000, 0x7FFF_FFFF);
  }

  /** A record without its newline parses to the four numbers. */
  lemma ParseRecord(t: Termination)
    requires Typed(t)
    ensures Parse(Body(t)) == Some(t)
  {
    var r3 := "code=" + Print(t.code);
    var r2 := "uid=" + Print(t.senderUid) + " " + r3;
    var r1 := "from pid=" + Print(t.senderPid) + " " + r2;
    FieldTaken("signal ", t.signal, r1, true, -0x8000_0000, 0x7FFF_FFFF);
    FieldTaken("from pid=", t.senderPid, r2, true, -0x8000_0000, 0x7FFF_FFFF);
    FieldTaken("uid=", t.senderUid, r3, false, 0, 0xFFFF_FFFF);
    CodeTaken(t.code);
  }

  function Body(t: Termination): string {
    "signal " + Print(t.signal) + " " +
    ("from pid=" + Print(t.senderPid) + " " +
     ("uid=" + Print(t.senderUid) + " " + ("code=" + Print(t.code))))
  }

  lemma RecordIsBody(t: Termination)
    ensures Record(t) == Body(t) + "\n"
  {
    assert " from pid=" == " " + "from pid=" && " uid=" == " " + "uid=" && " code=" == " " + "code=";
  }

  lemma BodyIsOneLine(t: Termination)
    ensures '\n' !in Body(t) && Body(t) != "" && Body(t)[|Body(t)| - 1] != '\r'
  {
    PrintedChars(t.signal);
    PrintedChars(t.senderPid);
    PrintedChars(t.senderUid);
    PrintedChars(t.code);
    var p := Print(t.code);
    assert Body(t)[|Body(t)| - 1] == p[|p| - 1] && p[|p| - 1] in p;
  }

  function Records(ts: seq<Termination>): string {
    if ts == [] then "" else Record(ts[0]) + Records(ts[1..])
  }

  /** A line ends at its newline, which a carriage return goes with. */
  lemma LinesCons(line: string, rest: string)
    requires '\n' !in line && (line == "" || line[|line| - 1] != '\r')
    ensures Lines(line + "\n" + rest) == [line] + Lines(rest)
  {
    var s := line + ['\n'] + rest;
    FindFirst(line, '\n', rest);
    assert s[..|line|] == line && s[|line| + 1..] == rest;
  }

  lemma LinesConsCr(line: string, rest: string)
    requires '\n' !in line
    ensures Lines(line + "\r\n" + rest) == [line] + Lines(rest)
  {
    var full := line + "\r";
    var s := full + ['\n'] + rest;
    assert line + "\r\n" + rest == s;
    FindFirst(full, '\n', rest);
    assert s[..|full|] == full && s[|full| + 1..] == rest && full[..|full| - 1] == line;
  }

  /** A last line needs no newline. */
  lemma LastLine(line: string)
    requires '\n' !in line && line != ""
    ensures Lines(line) == [line] && Lines("") == []
  {
    assert Find(line, '\n') == |line|;
  }

  lemma ParseLinesCons(line: string, lines: seq<string>, t: Termination)
    requires Parse(line) == Some(t)
    ensures ParseLines([line] + lines) == [t] + ParseLines(lines)
  {
    assert ([line] + lines)[1..] == lines;
  }

  lemma RecordFirst(t: Termination, rest: string)
    requires Typed(t)
    ensures ParseAll(Record(t) + rest) == [t] + ParseAll(rest)
  {
    var line := Body(t);
    RecordIsBody(t);
    BodyIsOneLine(t);
    LinesCons(line, rest);
    ParseRecord(t);
    ParseLinesCons(line, Lines(rest), t);
  }

  /** Any number of records in one read are all read back, in order. */
  lemma {:induction false} ParseAllRecords(ts: seq<Termination>)
    requires forall t | t in ts :: Typed(t)
    ensures ParseAll(Records(ts)) == ts
  {
    if ts != [] {
      RecordFirst(ts[0], Records(ts[1..]));
      ParseAllRecords(ts[1..]);
    }
  }

  // ---- Exactly what is read as a record.

  lemma FieldFrom(s: string, tag: string, signed: bool, lo: int, hi: int) returns (a: string)
    requires TakeField(s, tag, signed, lo, hi).Some?
    ensures var r := TakeField(s, tag, signed, lo, hi).value;
            ' ' !in a && s == tag + a + " " + r.1 && Decimal.Parse(a, signed, lo, hi) == Some(r.0)
  {
    var tail := s[|tag|..];
    var i := Find(tail, ' ');
    a := tail[..i];
    assert s == tag + tail && tail == a + " " + tail[i + 1..];
  }

  /** The four fields of a line, as texts. */
  ghost predicate Spells(line: string, a: string, b: string, c: string, d: string) {
    && ' ' !in a && ' ' !in b && ' ' !in c
    && line == "signal " + a + " " + ("from pid=" + b + " " + ("uid=" + c + " " + ("code=" + d)))
  }

  ghost predicate Means(t: Termination, a: string, b: string, c: string, d: string) {
    && ParseI32(a) == Some(t.signal) && ParseI32(b) == Some(t.senderPid)
    && Decimal.Parse(c, false, 0, 0xFFFF_FFFF) == Some(t.senderUid) && ParseI32(TrimEnd(d)) == Some(t.code)
  }

  lemma ParseIf(line: string, t: Termination, a: string, b: string, c: string, d: string)
    requires Spells(line, a, b, c, d) && Means(t, a, b, c, d)
    ensures Parse(line) == Some(t)
  {
    var r3 := "code=" + d;
    var r2 := "uid=" + c + " " + r3;
    var r1 := "from pid=" + b + " " + r2;
    FieldReads("signal ", a, r1, true, -0x8000_0000, 0x7FFF_FFFF, t.signal);
    FieldReads("from pid=", b, r2, true, -0x8000_0000, 0x7FFF_FFFF, t.senderPid);
    FieldReads("uid=", c, r3, false, 0, 0xFFFF_FFFF, t.senderUid);
    assert line == "signal " + a + " " + r1;
    CodeReads(d, t.code);
  }

  lemma CodeReads(d: string, v: int)
    requires ParseI32(TrimEnd(d)) == Some(v)
    ensures StripPrefix("code=" + d, "code=") == Some(d)
  {
    assert ("code=" + d)[5..] == d;
  }

  /** What is left after each of the first three fields. */
  lemma ParseStages(line: string) returns (r1: string, r2: string, r3: string)
    requires Parse(line).Some?
    ensures var t := Parse(line).value;
            && TakeField(line, "signal ", true, -0x8000_0000, 0x7FFF_FFFF) == Some((t.signal, r1))
            && TakeField(r1, "from pid=", true, -0x8000_0000, 0x7FFF_FFFF) == Some((t.senderPid, r2))
            && TakeField(r2, "uid=", false, 0, 0xFFFF_FFFF) == Some((t.senderUid, r3))
            && StripPrefix(r3, "code=").Some? && ParseI32(TrimEnd(StripPrefix(r3, "code=").value)) == Some(t.code)
  {
    r1 := TakeField(line, "signal ", true, -0x8000_0000, 0x7FFF_FFFF).value.1;
    r2 := TakeField(r1, "from pid=", true, -0x8000_0000, 0x7FFF_FFFF).value.1;
    r3 := TakeField(r2, "uid=", false, 0, 0xFFFF_FFFF).value.1;
  }

  lemma CodeFrom(r3: string, d: string)
    requires StripPrefix(r3, "code=") == Some(d)
    ensures r3 == "code=" + d
  {
  }

  lemma ParseOnlyIf(line: string, t: Termination) returns (a: string, b: string, c: string, d: string)
    requires Parse(line) == Some(t)
    ensures Spells(line, a, b, c, d) && Means(t, a, b, c, d)
  {
    var r1, r2, r3 := ParseStages(line);
    a := FieldFrom(line, "signal ", true, -0x8000_0000, 0x7FFF_FFFF);
    b := FieldFrom(r1, "from pid=", true, -0x8000_0000, 0x7FFF_FFFF);
    c := FieldFrom(r2, "uid=", false, 0, 0xFFFF_FFFF);
    d := StripPrefix(r3, "code=").value;
    CodeFrom(r3, d);
  }

  /** A line is read as a record exactly when it spells out four numbers of the right
      types behind their labels. */
  lemma ParseIff(line: string, t: Termination)
    ensures Parse(line) == Some(t) <==> exists a, b, c, d :: Spells(line, a, b, c, d) && Means(t, a, b, c, d)
  {
    if Parse(line) == Some(t) {
      var a, b, c, d := ParseOnlyIf(line, t);
    }
    if a, b, c, d :| Spells(line, a, b, c, d) && Means(t, a, b, c, d) {
      ParseIf(line, t, a, b, c, d);
    }
  }

  lemma SampleNumbers()
    ensures Print(15) == "15" && Print(4242) == "4242" && Print(0) == "0" && Print(-6) == "-6"
  {
    assert Digits(42) == "42";
    assert Digits(424) == Digits(42) + "4";
    assert Digits(4242) == Digits(424) + "2";
  }

  /** A record as it stands in the log. */
  lemma SampleRecord()
    ensures Record(Termination(15, 4242, 0, -6)) == "signal 15 from pid=4242 uid=0 code=-6\n"
  {
    SampleNumbers();
    assert Record(Termination(15, 4242, 0, -6))
        == "signal " + "15" + " from pid=" + "4242" + " uid=" + "0" + " code=" + "-6" + "\n";
  }
}
