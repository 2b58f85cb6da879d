/** The one-line syntax of a client proxy: its parser, and the console's printer. */
module ProxyLine {
  import opened Bytes
  import opened Decimal
  import opened Text

  datatype Proxy = Proxy(name: string, kind: string, localIp: string, localPort: int, remotePort: int)

  datatype Error =
    | EmptyLine
    | OutOfRange(n: int)
    | Unexpected(field: string)
    | TooManyPorts(count: nat)
    | TooFewPorts(count: nat)

  datatype Result = Ok(proxy: Proxy) | Err(error: Error)

  predicate IsSep(c: char) {
    IsWhitespace(c) || c == ','
  }

  /** The pieces between separators, empty ones included. */
  function Split(s: string): (ps: seq<string>)
    ensures |ps| > 0
    ensures forall p | p in ps :: SepFree(p)
  {
    if s == "" then [""]
    else
      var rest := Split(s[1..]);
      assert rest[0] in rest;
      if IsSep(s[0]) then [""] + rest else [[s[0]] + rest[0]] + rest[1..]
  }

  predicate SepFree(s: string) {
    forall i | 0 <= i < |s| :: !IsSep(s[i])
  }

  function NonEmpty(ps: seq<string>): (r: seq<string>)
    ensures forall p | p in r :: p in ps && p != ""
  {
    if ps == [] then [] else (if ps[0] == "" then [] else [ps[0]]) + NonEmpty(ps[1..])
  }

  predicate IsWord(s: string) {
    s != "" && SepFree(s)
  }

  function Parts(s: string): (ps: seq<string>)
    ensures forall p | p in ps :: IsWord(p)
  {
    NonEmpty(Split(s))
  }

  function LowerChar(c: char): char {
    if 'A' <= c <= 'Z' then (c as int + 32) as char else c
  }

  function Lower(s: string): (r: string)
    ensures |r| == |s|
  {
    seq(|s|, i requires 0 <= i < |s| => LowerChar(s[i]))
  }

  /** What a field after the name can be. */
  datatype Field = Kind(kind: string) | Port(n: int) | BadNumber(n: int) | Word

  function Classify(tok: string): (f: Field)
    ensures f.Kind? ==> f.kind == "tcp" || f.kind == "udp"
    ensures f.Port? ==> 0 <= f.n < 0x1_0000
  {
    if Lower(tok) == "tcp" || Lower(tok) == "udp" then Kind(Lower(tok))
    else if ParseU16(tok).Some? then Port(ParseU16(tok).value)
    else if ParseI64(tok).Some? then BadNumber(ParseI64(tok).value)
    else Word
  }

  lemma LowerIs(c: char)
    ensures LowerChar(c) == 't' <==> c == 't' || c == 'T'
    ensures LowerChar(c) == 'c' <==> c == 'c' || c == 'C'
    ensures LowerChar(c) == 'p' <==> c == 'p' || c == 'P'
    ensures LowerChar(c) == 'u' <==> c == 'u' || c == 'U'
    ensures LowerChar(c) == 'd' <==> c == 'd' || c == 'D'
  {
  }

  lemma LowerChars(tok: string, word: string)
    ensures Lower(tok) == word <==> |tok| == |word| && forall i | 0 <= i < |tok| :: LowerChar(tok[i]) == word[i]
  {
    if |tok| == |word| && forall i | 0 <= i < |tok| :: LowerChar(tok[i]) == word[i] {
      assert Lower(tok) == word;
    }
  }

  /** The type is recognised in any mixture of upper and lower case. */
  lemma KindIff(tok: string)
    ensures Classify(tok) == Kind("tcp") <==>
              |tok| == 3 && tok[0] in {'t', 'T'} && tok[1] in {'c', 'C'} && tok[2] in {'p', 'P'}
    ensures Classify(tok) == Kind("udp") <==>
              |tok| == 3 && tok[0] in {'u', 'U'} && tok[1] in {'d', 'D'} && tok[2] in {'p', 'P'}
  {
    LowerChars(tok, "tcp");
    LowerChars(tok, "udp");
    if |tok| == 3 {
      LowerIs(tok[0]);
      LowerIs(tok[1]);
      LowerIs(tok[2]);
    }
  }

  /** A number is a port, out of range, or too long to be taken for a number. */
  lemma NumberIs(n: int)
    ensures Classify(Decimal.Print(n)) ==
              if 0 <= n < 0x1_0000 then Port(n)
              else if -0x8000_0000_0000_0000 <= n <= 0x7FFF_FFFF_FFFF_FFFF then BadNumber(n)
              else Word
  {
    var s := Decimal.Print(n);
    ParsePrinted(n, false, 0, 0xFFFF);
    ParsePrinted(n, true, -0x8000_0000_0000_0000, 0x7FFF_FFFF_FFFF_FFFF);
    assert s[0] == '-' || IsDigit(s[0]);
    LowerChars(s, "tcp");
    LowerChars(s, "udp");
    LowerIs(s[0]);
  }

  // ---- What a line means, field by field.

  function Kinds(toks: seq<string>): seq<string> {
    if toks == [] then []
    else Kinds(toks[..|toks| - 1]) + var f := Classify(toks[|toks| - 1]); if f.Kind? then [f.kind] else []
  }

  function Ports(toks: seq<string>): (ps: seq<int>)
    ensures forall p | p in ps :: 0 <= p < 0x1_0000
  {
    if toks == [] then []
    else Ports(toks[..|toks| - 1]) + var f := Classify(toks[|toks| - 1]); if f.Port? then [f.n] else []
  }

  function Words(toks: seq<string>): (ws: seq<string>)
    ensures forall w | w in ws :: w in toks && Classify(w).Word?
  {
    if toks == [] then []
    else Words(toks[..|toks| - 1]) + if Classify(toks[|toks| - 1]).Word? then [toks[|toks| - 1]] else []
  }

  predicate HasBadNumber(toks: seq<string>) {
    exists i | 0 <= i < |toks| :: Classify(toks[i]).BadNumber?
  }

  /** The first field that cannot stay: a number that is no port, or a second
      word. */
  function FirstError(toks: seq<string>): Option<Error> {
    if toks == [] then None
    else
      var before := toks[..|toks| - 1];
      var tok := toks[|toks| - 1];
      var e := FirstError(before);
      if e.Some? then e
      else match Classify(tok)
        case BadNumber(n) => Some(OutOfRange(n))
        case Word => if Words(before) != [] then Some(Unexpected(tok)) else None
        case _ => None
  }

  function LastOr(s: seq<string>, default: string): string {
    if s == [] then default else s[|s| - 1]
  }

  function Assemble(name: string, toks: seq<string>): Proxy
    requires |Ports(toks)| == 2
  {
    Proxy(name, LastOr(Kinds(toks), "tcp"), if Words(toks) == [] then "127.0.0.1" else Words(toks)[0],
          Ports(toks)[0], Ports(toks)[1])
  }

  function Meaning(s: string): Result {
    var parts := Parts(s);
    if parts == [] then Err(EmptyLine)
    else
      var toks := parts[1..];
      var e := FirstError(toks);
      if e.Some? then Err(e.value)
      else if |Ports(toks)| > 2 then Err(TooManyPorts(|Ports(toks)|))
      else if |Ports(toks)| < 2 then Err(TooFewPorts(|Ports(toks)|))
      else Ok(Assemble(parts[0], toks))
  }

  /** What the token loop has found in the fields it has seen. Opened only on
      request. */
  ghost predicate Seen(toks: seq<string>, kind: string, localIp: string, ports: seq<int>, ipSeen: bool) {
    forall k: nat {:trigger Open(k)} | Open(k) ::
      && kind == LastOr(Kinds(toks), "tcp") && ports == Ports(toks)
      && ipSeen == (Words(toks) != [])
      && localIp == (if ipSeen then Words(toks)[0] else "127.0.0.1")
      && FirstError(toks).None?
  }

  lemma SeenNothing()
    ensures Seen([], "tcp", "127.0.0.1", [], false)
  {
  }

  lemma SeeNext(toks: seq<string>, tok: string, kind: string, localIp: string, ports: seq<int>, ipSeen: bool)
    requires Seen(toks, kind, localIp, ports, ipSeen)
    ensures var all := toks + [tok];
            match Classify(tok)
            case Kind(k) => Seen(all, k, localIp, ports, ipSeen)
            case Port(n) => Seen(all, kind, localIp, ports + [n], ipSeen)
            case BadNumber(n) => FirstError(all) == Some(OutOfRange(n))
            case Word => if ipSeen then FirstError(all) == Some(Unexpected(tok)) else Seen(all, kind, tok, ports, true)
  {
    match Classify(tok)
    case Kind(_) => SeeKind(toks, tok, kind, localIp, ports, ipSeen);
    case Port(_) => SeePort(toks, tok, kind, localIp, ports, ipSeen);
    case BadNumber(_) => SeeBadNumber(toks, tok, kind, localIp, ports, ipSeen);
    case Word => SeeWord(toks, tok, kind, localIp, ports, ipSeen);
  }

  lemma SeeKind(toks: seq<string>, tok: string, kind: string, localIp: string, ports: seq<int>, ipSeen: bool)
    requires Seen(toks, kind, localIp, ports, ipSeen) && Classify(tok).Kind?
    ensures Seen(toks + [tok], Classify(tok).kind, localIp, ports, ipSeen)
  {
    assert Open(0);
    Snoc(toks, tok);
    ErrorSnoc(toks, tok);
    assert Words(toks) + [] == Words(toks) && Ports(toks) + [] == Ports(toks);
  }

  lemma SeePort(toks: seq<string>, tok: string, kind: string, localIp: string, ports: seq<int>, ipSeen: bool)
    requires Seen(toks, kind, localIp, ports, ipSeen) && Classify(tok).Port?
    ensures Seen(toks + [tok], kind, localIp, ports + [Classify(tok).n], ipSeen)
  {
    assert Open(0);
    Snoc(toks, tok);
    ErrorSnoc(toks, tok);
    assert Words(toks) + [] == Words(toks) && Kinds(toks) + [] == Kinds(toks);
  }

  lemma SeeBadNumber(toks: seq<string>, tok: string, kind: string, localIp: string, ports: seq<int>, ipSeen: bool)
    requires Seen(toks, kind, localIp, ports, ipSeen) && Classify(tok).BadNumber?
    ensures FirstError(toks + [tok]) == Some(OutOfRange(Classify(tok).n))
  {
    assert Open(0);
    ErrorSnoc(toks, tok);
  }

  lemma SeeWord(toks: seq<string>, tok: string, kind: string, localIp: string, ports: seq<int>, ipSeen: bool)
    requires Seen(toks, kind, localIp, ports, ipSeen) && Classify(tok).Word?
    ensures if ipSeen then FirstError(toks + [tok]) == Some(Unexpected(tok))
            else Seen(toks + [tok], kind, tok, ports, true)
  {
    assert Open(0);
    Snoc(toks, tok);
    ErrorSnoc(toks, tok);
    assert Ports(toks) + [] == Ports(toks) && Kinds(toks) + [] == Kinds(toks);
  }

  lemma ErrorSnoc(toks: seq<string>, tok: string)
    requires FirstError(toks).None?
    ensures FirstError(toks + [tok]) == (
              match Classify(tok)
              case BadNumber(n) => Some(OutOfRange(n))
              case Word => if Words(toks) != [] then Some(Unexpected(tok)) else None
              case _ => None)
  {
    var all := toks + [tok];
    assert all[..|all| - 1] == toks && all[|all| - 1] == tok;
  }

  lemma Snoc(toks: seq<string>, tok: string)
    ensures var all := toks + [tok];
            var f := Classify(tok);
            && Kinds(all) == Kinds(toks) + (if f.Kind? then [f.kind] else [])
            && Ports(all) == Ports(toks) + (if f.Port? then [f.n] else [])
            && Words(all) == Words(toks) + (if f.Word? then [tok] else [])
  {
    var all := toks + [tok];
    assert all[..|all| - 1] == toks && all[|all| - 1] == tok;
  }

  lemma SeenAll(toks: seq<string>, kind: string, localIp: string, ports: seq<int>, ipSeen: bool)
    requires Seen(toks, kind, localIp, ports, ipSeen)
    ensures FirstError(toks).None? && ports == Ports(toks)
    ensures |ports| == 2 ==> forall name :: Assemble(name, toks) == Proxy(name, kind, localIp, ports[0], ports[1])
  {
    assert Open(0);
  }

  /** The token loop of the parser. */
  method ParseLine(s: string) returns (r: Result)
    ensures r == Meaning(s)
  {
    var parts := Parts(s);
    if parts == [] {
      return Err(EmptyLine);
    }
    var kind, localIp := "tcp", "127.0.0.1";
    var ports: seq<int> := [];
    var ipSeen := false;
    var toks := parts[1..];
    var i := 0;
    SeenNothing();
    while i < |toks|
      invariant 0 <= i <= |toks| && Seen(toks[..i], kind, localIp, ports, ipSeen)
    {
      var tok := toks[i];
      SeeNext(toks[..i], tok, kind, localIp, ports, ipSeen);
      assert toks[..i + 1] == toks[..i] + [tok];
      match Classify(tok) {
        case Kind(k) => kind := k;
        case Port(n) => ports := ports + [n];
        case BadNumber(n) =>
          ErrorStays(toks, i + 1);
          return Err(OutOfRange(n));
        case Word =>
          if ipSeen {
            ErrorStays(toks, i + 1);
            return Err(Unexpected(tok));
          }
          localIp := tok;
          ipSeen := true;
      }
      i := i + 1;
    }
    assert toks[..i] == toks;
    SeenAll(toks, kind, localIp, ports, ipSeen);
    if |ports| > 2 {
      return Err(TooManyPorts(|ports|));
    }
    if |ports| < 2 {
      return Err(TooFewPorts(|ports|));
    }
    return Ok(Proxy(parts[0], kind, localIp, ports[0], ports[1]));
  }

  lemma {:induction false} ErrorStays(toks: seq<string>, k: nat)
    requires k <= |toks| && FirstError(toks[..k]).Some?
    ensures FirstError(toks) == FirstError(toks[..k])
    decreases |toks| - k
  {
    if k == |toks| {
      assert toks[..k] == toks;
    } else {
      assert toks[..k + 1][..k] == toks[..k];
      ErrorStays(toks, k + 1);
    }
  }

  /** A line is accepted exactly when it has a name, no number out of range, at
      most one address and two ports. */
  lemma AcceptedIff(s: string)
    ensures Meaning(s).Ok? <==>
            (var ps := Parts(s);
             && ps != [] && !HasBadNumber(ps[1..]) && |Words(ps[1..])| <= 1 && |Ports(ps[1..])| == 2)
  {
    if Parts(s) != [] {
      NoErrorIff(Parts(s)[1..]);
    }
  }

  lemma {:induction false} NoErrorIff(toks: seq<string>)
    ensures FirstError(toks).None? <==> !HasBadNumber(toks) && |Words(toks)| <= 1
    decreases |toks|
  {
    if toks != [] {
      var before := toks[..|toks| - 1];
      NoErrorIff(before);
      assert forall i | 0 <= i < |before| :: before[i] == toks[i];
    }
  }

  // ---- The console's printer.

  function OrElse(s: string, default: string): string {
    if s == "" then default else s
  }

  /** `proxyLine`: the five fields with blanks between them. */
  function PrintLine(p: Proxy): string {
    p.name + " " + OrElse(p.kind, "tcp") + " " + OrElse(p.localIp, "127.0.0.1") + " "
    + Decimal.Print(p.localPort) + " " + Decimal.Print(p.remotePort)
  }

  /** The proxies that a line can denote. */
  predicate Printable(p: Proxy) {
    && IsWord(p.name) && (p.kind == "tcp" || p.kind == "udp")
    && IsWord(p.localIp) && Classify(p.localIp).Word?
    && 0 <= p.localPort < 0x1_0000 && 0 <= p.remotePort < 0x1_0000
  }

  lemma {:induction false} SplitWord(w: string)
    requires SepFree(w)
    ensures Split(w) == [w]
  {
    if w != "" {
      SplitWord(w[1..]);
      assert [w[0]] + w[1..] == w;
    }
  }

  lemma PartsCons(w: string, rest: string)
    requires IsWord(w)
    ensures Parts(w + " " + rest) == [w] + Parts(rest)
  {
    SplitAt(w, ' ', rest);
    var r := Split(rest);
    assert ([w] + r)[1..] == r;
  }

  /** The separators: the comma and white space. */
  lemma SeparatorIs(c: char)
    ensures IsSep(c) <==> c in {
              ',', '\U{9}', '\U{A}', '\U{B}', '\U{C}', '\U{D}', ' ', '\U{85}', '\U{A0}', '\U{1680}',
              '\U{2000}', '\U{2001}', '\U{2002}', '\U{2003}', '\U{2004}', '\U{2005}', '\U{2006}', '\U{2007}',
              '\U{2008}', '\U{2009}', '\U{200A}', '\U{2028}', '\U{2029}', '\U{202F}', '\U{205F}', '\U{3000}'}
  {
    WhitespaceIs(c);
  }

  lemma {:induction false} SplitAt(w: string, c: char, rest: string)
    requires SepFree(w) && IsSep(c)
    ensures Split(w + [c] + rest) == [w] + Split(rest)
  {
    var s := w + [c] + rest;
    if w == "" {
      assert s[1..] == rest;
    } else {
      assert s[1..] == w[1..] + [c] + rest;
      SplitAt(w[1..], c, rest);
      assert [w[0]] + w[1..] == w;
      assert ([w[1..]] + Split(rest))[1..] == Split(rest);
    }
  }

  predicate AllSep(s: string) {
    forall i | 0 <= i < |s| :: IsSep(s[i])
  }

  lemma {:induction false} LeadingSeparators(sep: string, rest: string)
    requires AllSep(sep)
    ensures Parts(sep + rest) == Parts(rest)
  {
    if sep == "" {
      assert sep + rest == rest;
    } else {
      assert sep + rest == "" + [sep[0]] + (sep[1..] + rest);
      SplitAt("", sep[0], sep[1..] + rest);
      var r := Split(sep[1..] + rest);
      assert ([""] + r)[1..] == r;
      LeadingSeparators(sep[1..], rest);
    }
  }

  lemma WordFirst(w: string, rest: string)
    requires IsWord(w) && (rest == "" || IsSep(rest[0]))
    ensures Parts(w + rest) == [w] + Parts(rest)
  {
    if rest == "" {
      assert w + rest == w;
      PartsWord(w);
      assert Parts("") == [];
    } else {
      assert w + rest == w + [rest[0]] + rest[1..];
      SplitAt(w, rest[0], rest[1..]);
      var r := Split(rest[1..]);
      assert ([w] + r)[1..] == r;
      assert rest == "" + [rest[0]] + rest[1..];
      SplitAt("", rest[0], rest[1..]);
      assert ([""] + r)[1..] == r;
    }
  }

  /** Words with separators in front, between and behind. */
  function Spread(ws: seq<string>, seps: seq<string>): string
    requires |seps| == |ws| + 1
    decreases |ws|
  {
    if ws == [] then seps[0] else seps[0] + (ws[0] + Spread(ws[1..], seps[1..]))
  }

  /** The fields of a line are its words, however they are separated. */
  lemma {:induction false} FieldsAreWords(ws: seq<string>, seps: seq<string>)
    requires |seps| == |ws| + 1 && (forall i | 0 <= i < |seps| :: AllSep(seps[i]))
    requires (forall i | 0 <= i < |ws| :: IsWord(ws[i])) && (forall i | 0 < i < |ws| :: seps[i] != "")
    ensures Parts(Spread(ws, seps)) == ws
    decreases |ws|
  {
    if ws == [] {
      LeadingSeparators(seps[0], "");
      assert seps[0] + "" == seps[0];
      assert Parts("") == [];
    } else {
      var rest := Spread(ws[1..], seps[1..]);
      FieldsAreWords(ws[1..], seps[1..]);
      assert rest == "" || IsSep(rest[0]) by {
        if seps[1] != "" { assert rest[0] == seps[1][0]; }
      }
      LeadingSeparators(seps[0], ws[0] + rest);
      WordFirst(ws[0], rest);
    }
  }

  lemma PartsWord(w: string)
    requires IsWord(w)
    ensures Parts(w) == [w]
  {
    SplitWord(w);
    assert NonEmpty([w]) == [w] + NonEmpty([]);
  }

  lemma NumberIsWord(n: nat)
    requires n < 0x1_0000
    ensures IsWord(Decimal.Print(n)) && Classify(Decimal.Print(n)) == Port(n)
  {
    var s := Decimal.Print(n);
    ParseOfPrint(n, false, 0, 0xFFFF);
    assert IsDigit(s[0]);
    assert Lower(s)[0] == s[0];
  }

  lemma PartsOfLine(p: Proxy)
    requires Printable(p)
    ensures Parts(PrintLine(p))
         == [p.name, p.kind, p.localIp, Decimal.Print(p.localPort), Decimal.Print(p.remotePort)]
  {
    var a, b := Decimal.Print(p.localPort), Decimal.Print(p.remotePort);
    NumberIsWord(p.localPort);
    NumberIsWord(p.remotePort);
    LineShape(p);
    PartsWord(b);
    PartsMore(a, b, [b]);
    PartsMore(p.localIp, a + " " + b, [a, b]);
    PartsMore(p.kind, p.localIp + " " + (a + " " + b), [p.localIp, a, b]);
    PartsMore(p.name, p.kind + " " + (p.localIp + " " + (a + " " + b)), [p.kind, p.localIp, a, b]);
  }

  lemma PartsMore(w: string, rest: string, ws: seq<string>)
    requires IsWord(w) && Parts(rest) == ws
    ensures Parts(w + " " + rest) == [w] + ws
  {
    PartsCons(w, rest);
  }

  lemma LineShape(p: Proxy)
    requires Printable(p)
    ensures var a, b := Decimal.Print(p.localPort), Decimal.Print(p.remotePort);
            && PrintLine(p) == p.name + " " + (p.kind + " " + (p.localIp + " " + (a + " " + b)))
            && IsWord(p.kind)
  {
    var a, b := Decimal.Print(p.localPort), Decimal.Print(p.remotePort);
    assert PrintLine(p) == p.name + " " + p.kind + " " + p.localIp + " " + a + " " + b;
  }

  lemma KindClassified(k: string)
    requires k == "tcp" || k == "udp"
    ensures Classify(k) == Kind(k)
  {
    assert Lower(k) == k;
  }

  /** Reading a printed line gives the proxy back. */
  lemma ReadPrinted(p: Proxy)
    requires Printable(p)
    ensures Meaning(PrintLine(p)) == Ok(p)
  {
    PartsOfLine(p);
    var a, b := Decimal.Print(p.localPort), Decimal.Print(p.remotePort);
    NumberIsWord(p.localPort);
    NumberIsWord(p.remotePort);
    KindClassified(p.kind);
    var toks := [p.kind, p.localIp, a, b];
    FieldsRead(p, a, b);
    SeenAll(toks, p.kind, p.localIp, [p.localPort, p.remotePort], true);
    assert Parts(PrintLine(p))[1..] == toks;
  }

  lemma FieldsRead(p: Proxy, a: string, b: string)
    requires Classify(p.kind) == Kind(p.kind) && Classify(p.localIp).Word?
    requires Classify(a) == Port(p.localPort) && Classify(b) == Port(p.remotePort)
    ensures Seen([p.kind, p.localIp, a, b], p.kind, p.localIp, [p.localPort, p.remotePort], true)
  {
    SeenNothing();
    SeeKind([], p.kind, "tcp", "127.0.0.1", [], false);
    assert [] + [p.kind] == [p.kind];
    SeeWord([p.kind], p.localIp, p.kind, "127.0.0.1", [], false);
    assert [p.kind] + [p.localIp] == [p.kind, p.localIp];
    SeePort([p.kind, p.localIp], a, p.kind, p.localIp, [], true);
    assert [p.kind, p.localIp] + [a] == [p.kind, p.localIp, a] && [] + [p.localPort] == [p.localPort];
    SeePort([p.kind, p.localIp, a], b, p.kind, p.localIp, [p.localPort], true);
    assert [p.kind, p.localIp, a] + [b] == [p.kind, p.localIp, a, b];
    assert [p.localPort] + [p.remotePort] == [p.localPort, p.remotePort];
  }

  /** Whatever a line denotes can be printed. */
  lemma AcceptedIsPrintable(s: string)
    requires Meaning(s).Ok?
    ensures Printable(Meaning(s).proxy)
  {
    var parts := Parts(s);
    var toks := parts[1..];
    assert parts[0] in parts;
    assert Ports(toks)[0] in Ports(toks) && Ports(toks)[1] in Ports(toks);
    KindsKnown(toks);
    if Kinds(toks) != [] {
      assert Kinds(toks)[|Kinds(toks)| - 1] in Kinds(toks);
    }
    DefaultIsWord();
    if Words(toks) != [] {
      assert Words(toks)[0] in Words(toks);
      assert Words(toks)[0] in parts;
    }
  }

  lemma {:induction false} KindsKnown(toks: seq<string>)
    ensures forall k | k in Kinds(toks) :: k == "tcp" || k == "udp"
    decreases |toks|
  {
    if toks != [] {
      KindsKnown(toks[..|toks| - 1]);
    }
  }

  lemma DefaultIsWord()
    ensures IsWord("127.0.0.1") && Classify("127.0.0.1").Word?
  {
    var s := "127.0.0.1";
    assert Lower(s)[0] == '1';
    NotDigits(s, 3);
  }

  /** A string with a character that is no digit is no number. */
  lemma {:induction false} NotDigits(s: string, i: nat)
    requires i < |s| && !IsDigit(s[i])
    ensures ParseDigits(s).None?
    decreases |s|
  {
    if |s| > 1 && i < |s| - 1 {
      assert s[..|s| - 1][i] == s[i];
      NotDigits(s[..|s| - 1], i);
    }
  }

  /** Normal form: printing an accepted line and reading it again changes nothing,
      and only proxies that some line denotes survive the round trip. */
  lemma NormalForm(s: string)
    requires Meaning(s).Ok?
    ensures Meaning(PrintLine(Meaning(s).proxy)) == Meaning(s)
  {
    AcceptedIsPrintable(s);
    ReadPrinted(Meaning(s).proxy);
  }

  lemma RoundTripIff(p: Proxy)
    ensures Meaning(PrintLine(p)) == Ok(p) <==> Printable(p)
  {
    if Printable(p) {
      ReadPrinted(p);
    }
    if Meaning(PrintLine(p)) == Ok(p) {
      AcceptedIsPrintable(PrintLine(p));
    }
  }

  lemma SampleNumbers()
    ensures Decimal.Print(80) == "80" && Decimal.Print(7001) == "7001"
  {
    assert Decimal.Digits(70) == "70";
    assert Decimal.Digits(700) == Decimal.Digits(70) + "0";
    assert Decimal.Digits(7001) == Decimal.Digits(700) + "1";
  }

  /** A line as the console shows it. */
  lemma SampleLine()
    ensures PrintLine(Proxy("web", "udp", "10.0.0.1", 80, 7001)) == "web udp 10.0.0.1 80 7001"
  {
    SampleNumbers();
    var p := Proxy("web", "udp", "10.0.0.1", 80, 7001);
    assert PrintLine(p) == "web" + " " + "udp" + " " + "10.0.0.1" + " " + "80" + " " + "7001";
  }
}
