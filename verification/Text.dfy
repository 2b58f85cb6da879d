/** Strings the way the standard library treats them. */
module Text {

  /** White space as Unicode defines it. */
  predicate IsWhitespace(c: char) {
    || '\U{9}' <= c <= '\U{D}' || c == ' ' || c == '\U{85}' || c == '\U{A0}' || c == '\U{1680}'
    || '\U{2000}' <= c <= '\U{200A}' || c == '\U{2028}' || c == '\U{2029}' || c == '\U{202F}'
    || c == '\U{205F}' || c == '\U{3000}'
  }

  /** The characters that white space is, one by one. */
  lemma WhitespaceIs(c: char)
    ensures IsWhitespace(c) <==> c in {
              '\U{9}', '\U{A}', '\U{B}', '\U{C}', '\U{D}', ' ', '\U{85}', '\U{A0}', '\U{1680}',
              '\U{2000}', '\U{2001}', '\U{2002}', '\U{2003}', '\U{2004}', '\U{2005}', '\U{2006}', '\U{2007}',
              '\U{2008}', '\U{2009}', '\U{200A}', '\U{2028}', '\U{2029}', '\U{202F}', '\U{205F}', '\U{3000}'}
  {
  }

  /** Without the white space at the end, and with all the rest. */
  function TrimEnd(s: string): (r: string)
    ensures r <= s && (r != "" ==> !IsWhitespace(r[|r| - 1]))
  {
    if s != "" && IsWhitespace(s[|s| - 1]) then TrimEnd(s[..|s| - 1]) else s
  }

  /** Nothing but white space is cut off. */
  lemma {:induction false} TrimEndDrops(s: string)
    ensures forall i | |TrimEnd(s)| <= i < |s| :: IsWhitespace(s[i])
    decreases |s|
  {
    if s != "" && IsWhitespace(s[|s| - 1]) {
      TrimEndDrops(s[..|s| - 1]);
      assert forall i | 0 <= i < |s| - 1 :: s[..|s| - 1][i] == s[i];
    }
  }

  /** The position of the first `c`, or the length. */
  function Find(s: string, c: char): (i: nat)
    ensures i <= |s| && c !in s[..i] && (i < |s| ==> s[i] == c)
  {
    if s == "" || s[0] == c then 0 else 1 + Find(s[1..], c)
  }

  lemma {:induction false} FindFirst(a: string, c: char, rest: string)
    requires c !in a
    ensures Find(a + [c] + rest, c) == |a|
  {
    if a != "" {
      assert (a + [c] + rest)[1..] == a[1..] + [c] + rest;
      FindFirst(a[1..], c, rest);
    }
  }

  /** Any text followed by white space trims to that text. */
  lemma TrimEndOf(text: string, blank: string)
    requires text == "" || !IsWhitespace(text[|text| - 1])
    requires forall i | 0 <= i < |blank| :: IsWhitespace(blank[i])
    ensures TrimEnd(text + blank) == text
  {
    var s := text + blank;
    var r := TrimEnd(s);
    TrimEndDrops(s);
    assert forall i | |text| <= i < |s| :: s[i] == blank[i - |text|];
    assert text != "" ==> s[|text| - 1] == text[|text| - 1];
    assert |r| == |text|;
    assert r == s[..|text|] == text;
  }

  // ---- The length of a string in UTF-8.

  /** The bytes of a character: a first byte that tells how many there are, and six
      bits in each of the others. */
  function Utf8(c: char): (b: seq<int>) {
    var v := c as int;
    if v < 0x80 then [v]
    else if v < 0x800 then [0xC0 + v / 64, 0x80 + v % 64]
    else if v < 0x1_0000 then [0xE0 + v / 4096, 0x80 + v / 64 % 64, 0x80 + v % 64]
    else [0xF0 + v / 0x4_0000, 0x80 + v / 4096 % 64, 0x80 + v / 64 % 64, 0x80 + v % 64]
  }

  function Utf8All(s: string): (b: seq<int>) {
    if s == "" then [] else Utf8All(s[..|s| - 1]) + Utf8(s[|s| - 1])
  }

  /** How many bytes a character has, read off its first byte. */
  function Utf8Len(first: int): nat {
    if first < 0x80 then 1 else if first < 0xE0 then 2 else if first < 0xF0 then 3 else 4
  }

  lemma CharLenIs(c: char)
    ensures |Utf8(c)| == CharLen(c) == Utf8Len(Utf8(c)[0])
    ensures forall b | b in Utf8(c) :: 0 <= b < 256
  {
  }

  /** The length that is compared with the limit is that of the encoded text. */
  lemma {:induction false} ByteLenIs(s: string)
    ensures ByteLen(s) == |Utf8All(s)|
  {
    if s != "" {
      ByteLenIs(s[..|s| - 1]);
      CharLenIs(s[|s| - 1]);
    }
  }

  /** The length of a string in UTF-8. */
  function ByteLen(s: string): nat {
    if s == "" then 0 else ByteLen(s[..|s| - 1]) + CharLen(s[|s| - 1])
  }

  function CharLen(c: char): nat {
    var v := c as int;
    if v < 0x80 then 1 else if v < 0x800 then 2 else if v < 0x1_0000 then 3 else 4
  }
}
