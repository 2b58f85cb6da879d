/** The STUN Binding responder (sections 6, 15 and 15.2 of RFC 5389). */
module Stun {
  import opened Bytes

  const COOKIE: seq<byte> := [0x21, 0x12, 0xA4, 0x42]
  const COOKIE_HIGH: uint16 := 0x2112
  const BINDING_REQUEST: uint16 := 0x0001
  const BINDING_SUCCESS: uint16 := 0x0101
  const ATTR_CHANGE_REQUEST: uint16 := 0x0003
  const ATTR_XOR_MAPPED_ADDRESS: uint16 := 0x0020
  const ATTR_RESPONSE_PORT: uint16 := 0x0027
  const ATTR_SOFTWARE: uint16 := 0x8022

  /** "ReMgr" */
  const SOFTWARE: seq<byte> := [0x52, 0x65, 0x4D, 0x67, 0x72]

  function U16At(s: seq<byte>, i: nat): uint16
    requires i + 2 <= |s|
  {
    U16FromBe(s[i], s[i + 1])
  }

  lemma U16Bytes(v: uint16)
    ensures ToBe(v, 2) == [v / 256, v % 256] && U16FromBe(v / 256, v % 256) == v
  {
    assert ToBe(v, 2) == ToBe(v / 256, 1) + [v % 256];
    assert ToBe(v / 256, 1) == ToBe(v / 256 / 256, 0) + [v / 256 % 256];
  }

  // ---- Attribute lists.

  datatype Attr = Attr(kind: uint16, value: seq<byte>)

  /** The attributes of a message body. One whose length runs past the end is cut
      short there and is the last. */
  function Attrs(body: seq<byte>): (r: seq<Attr>)
    decreases |body|
  {
    if |body| < 4 then []
    else
      var len: nat := U16At(body, 2);
      var a := Attr(U16At(body, 0), body[4..Min(4 + len, |body|)]);
      if 4 + len > |body| then [a]
      else [a] + Attrs(body[Min(4 + len + Pad(len), |body|)..])
  }

  predicate NonZero(value: seq<byte>) {
    exists i | 0 <= i < |value| :: value[i] != 0
  }

  predicate AsksElsewhere(a: Attr) {
    (a.kind == ATTR_CHANGE_REQUEST || a.kind == ATTR_RESPONSE_PORT) && NonZero(a.value)
  }

  /** The bytes that belong to the message by its declared length. */
  function Body(packet: seq<byte>, bodyLen: nat): seq<byte> {
    if |packet| < 20 then [] else packet[20..Min(20 + bodyLen, |packet|)]
  }

  predicate AnyElsewhere(attrs: seq<Attr>) {
    exists a | a in attrs :: AsksElsewhere(a)
  }

  method HasNonZero(packet: seq<byte>, lo: nat, hi: nat) returns (r: bool)
    requires lo <= hi <= |packet|
    ensures r == NonZero(packet[lo..hi])
  {
    var i := lo;
    while i < hi
      invariant lo <= i <= hi && forall k | lo <= k < i :: packet[k] == 0
    {
      if packet[i] != 0 {
        assert packet[lo..hi][i - lo] != 0;
        return true;
      }
      i := i + 1;
    }
    assert forall k | 0 <= k < hi - lo :: packet[lo..hi][k] == packet[lo + k];
    return false;
  }

  /** `asks` is whether the attribute asks for an alternate address. Opened only
      on request. */
  ghost predicate Tells(asks: bool, a: Attr) {
    forall k: nat {:trigger Open(k)} | Open(k) :: asks == AsksElsewhere(a)
  }

  method AttrAsks(packet: seq<byte>, kind: uint16, lo: nat, hi: nat) returns (r: bool)
    requires lo <= hi <= |packet|
    ensures Tells(r, Attr(kind, packet[lo..hi]))
  {
    r := false;
    if kind == ATTR_CHANGE_REQUEST || kind == ATTR_RESPONSE_PORT {
      r := HasNonZero(packet, lo, hi);
    }
  }

  function FirstAttr(body: seq<byte>): Attr
    requires |body| >= 4
  {
    Attr(U16At(body, 0), body[4..Min(4 + U16At(body, 2), |body|)])
  }

  /** What follows the first attribute and its padding. */
  function AfterFirst(body: seq<byte>): seq<byte>
    requires |body| >= 4
  {
    var len: nat := U16At(body, 2);
    if 4 + len > |body| then [] else body[Min(4 + len + Pad(len), |body|)..]
  }

  /** The first attribute of a body and what follows it. */
  ghost predicate Splits(body: seq<byte>, a: Attr, rest: seq<byte>) {
    forall k: nat {:trigger Open(k)} | Open(k) :: Attrs(body) == [a] + Attrs(rest)
  }

  lemma AttrsCons(body: seq<byte>)
    requires |body| >= 4
    ensures Splits(body, FirstAttr(body), AfterFirst(body))
  {
    assert Attrs([]) == [];
  }

  lemma AnyOfCons(a: Attr, rest: seq<Attr>)
    ensures AnyElsewhere([a] + rest) == (AsksElsewhere(a) || AnyElsewhere(rest))
  {
    assert forall x | x in rest :: x in [a] + rest;
    assert a in [a] + rest;
  }

  /** The part of the body still to be walked. */
  function Rest(packet: seq<byte>, pos: nat, msgEnd: nat): seq<byte>
    requires msgEnd <= |packet|
  {
    if pos <= msgEnd then packet[pos..msgEnd] else []
  }

  /** The answer is `want`, and the attributes from `pos` on decide it. This and the
      next two are opened only on request. */
  ghost predicate Ahead(want: bool, packet: seq<byte>, pos: nat, msgEnd: nat)
    requires msgEnd <= |packet|
  {
    forall k: nat {:trigger Open(k)} | Open(k) :: want == AnyElsewhere(Attrs(Rest(packet, pos, msgEnd)))
  }

  /** The attribute at `pos` has type `kind`, a value of `len` bytes that stops at
      `end`, and is followed by one at `next` unless it runs past the end. */
  ghost predicate HeadAt(packet: seq<byte>, pos: nat, msgEnd: nat, kind: uint16, over: bool, end: nat, next: nat)
    requires pos + 4 <= msgEnd <= |packet|
  {
    forall k: nat {:trigger Open(k)} | Open(k) ::
      var len: nat := U16At(packet, pos + 2);
      && kind == U16At(packet, pos)
      && over == (pos + 4 + len > msgEnd)
      && end == Min(pos + 4 + len, msgEnd)
      && next == end + Pad(len)
  }

  method ReadHead(packet: seq<byte>, pos: nat, msgEnd: nat)
    returns (kind: uint16, over: bool, end: nat, next: nat)
    requires pos + 4 <= msgEnd <= |packet|
    ensures HeadAt(packet, pos, msgEnd, kind, over, end, next)
    ensures pos + 4 <= end <= msgEnd && end <= next
  {
    var len: nat := U16At(packet, pos + 2);
    kind := U16At(packet, pos);
    over := pos + 4 + len > msgEnd;
    end := Min(pos + 4 + len, msgEnd);
    next := end + Pad(len);
  }

  /** The walk over the attributes stays inside the packet, ends, and finds what
      the attribute list holds. */
  method AsksForAlternateAddress(packet: seq<byte>, bodyLen: nat) returns (r: bool)
    ensures r == AnyElsewhere(Attrs(Body(packet, bodyLen)))
  {
    var msgEnd := Min(20 + bodyLen, |packet|);
    assert Body(packet, bodyLen) == Rest(packet, 20, msgEnd);
    r := Walk(packet, msgEnd, AnyElsewhere(Attrs(Body(packet, bodyLen))));
  }

  method Walk(packet: seq<byte>, msgEnd: nat, ghost want: bool) returns (r: bool)
    requires msgEnd <= |packet| && Ahead(want, packet, 20, msgEnd)
    ensures r == want
  {
    var pos := 20;
    while pos + 4 <= msgEnd
      invariant 20 <= pos && Ahead(want, packet, pos, msgEnd)
      decreases msgEnd - pos
    {
      var kind, over, end, next := ReadHead(packet, pos, msgEnd);
      var asks := AttrAsks(packet, kind, pos + 4, end);
      WalkAt(want, packet, pos, msgEnd, kind, over, end, next, asks);
      if asks {
        return true;
      }
      if over {
        return false;
      }
      pos := next;
    }
    NothingAhead(want, packet, pos, msgEnd);
    return false;
  }

  lemma NothingAhead(want: bool, packet: seq<byte>, pos: nat, msgEnd: nat)
    requires msgEnd <= |packet| && msgEnd < pos + 4 && Ahead(want, packet, pos, msgEnd)
    ensures !want
  {
    assert Open(0);
  }

  lemma SliceOfSlice(s: seq<byte>, a: nat, b: nat, i: nat, j: nat)
    requires a <= b <= |s| && i <= j <= b - a
    ensures s[a..b][i..j] == s[a + i..a + j]
  {
    var x, y := s[a..b][i..j], s[a + i..a + j];
    assert |x| == |y|;
    forall k | 0 <= k < |x| ensures x[k] == y[k] {
      assert s[a..b][i + k] == s[a + (i + k)];
    }
  }

  lemma WalkParts(packet: seq<byte>, pos: nat, msgEnd: nat)
    requires pos + 4 <= msgEnd <= |packet|
    ensures var rest := packet[pos..msgEnd];
            var len: nat := U16At(packet, pos + 2);
            && FirstAttr(rest) == Attr(U16At(packet, pos), packet[pos + 4..Min(pos + 4 + len, msgEnd)])
            && AfterFirst(rest) == if pos + 4 + len > msgEnd then [] else Rest(packet, pos + 4 + len + Pad(len), msgEnd)
  {
    var len: nat := U16At(packet, pos + 2);
    var n := msgEnd - pos;
    SliceOfSlice(packet, pos, msgEnd, 4, Min(4 + len, n));
    if 4 + len <= n {
      TailOfSlice(packet, pos, msgEnd, Min(4 + len + Pad(len), n));
    }
  }

  lemma TailOfSlice(s: seq<byte>, a: nat, b: nat, i: nat)
    requires a <= b <= |s| && i <= b - a
    ensures s[a..b][i..] == s[a + i..b]
  {
    SliceOfSlice(s, a, b, i, b - a);
    assert s[a..b][i..] == s[a..b][i..b - a];
  }

  lemma HeadSplits(packet: seq<byte>, pos: nat, msgEnd: nat, kind: uint16, over: bool, end: nat, next: nat)
    requires pos + 4 <= msgEnd <= |packet| && pos + 4 <= end <= msgEnd
    requires HeadAt(packet, pos, msgEnd, kind, over, end, next)
    ensures Splits(Rest(packet, pos, msgEnd), Attr(kind, packet[pos + 4..end]),
                   if over then [] else Rest(packet, next, msgEnd))
  {
    HeadParts(packet, pos, msgEnd, kind, over, end, next);
    AttrsCons(packet[pos..msgEnd]);
  }

  lemma HeadParts(packet: seq<byte>, pos: nat, msgEnd: nat, kind: uint16, over: bool, end: nat, next: nat)
    requires pos + 4 <= msgEnd <= |packet| && pos + 4 <= end <= msgEnd
    requires HeadAt(packet, pos, msgEnd, kind, over, end, next)
    ensures FirstAttr(packet[pos..msgEnd]) == Attr(kind, packet[pos + 4..end])
    ensures AfterFirst(packet[pos..msgEnd]) == if over then [] else Rest(packet, next, msgEnd)
  {
    assert Open(0);
    WalkParts(packet, pos, msgEnd);
  }

  lemma Decides(want: bool, body: seq<byte>, a: Attr, rest: seq<byte>, asks: bool)
    requires want == AnyElsewhere(Attrs(body)) && Splits(body, a, rest) && Tells(asks, a)
    ensures want == (asks || AnyElsewhere(Attrs(rest)))
  {
    assert Open(0);
    AnyOfCons(a, Attrs(rest));
  }

  /** One turn of the walk: the attribute decides, or what follows it does. */
  lemma WalkAt(want: bool, packet: seq<byte>, pos: nat, msgEnd: nat,
               kind: uint16, over: bool, end: nat, next: nat, asks: bool)
    requires pos + 4 <= msgEnd <= |packet| && pos + 4 <= end <= msgEnd
    requires Ahead(want, packet, pos, msgEnd) && HeadAt(packet, pos, msgEnd, kind, over, end, next)
    requires Tells(asks, Attr(kind, packet[pos + 4..end]))
    ensures asks ==> want
    ensures !asks && over ==> !want
    ensures !asks && !over ==> Ahead(want, packet, next, msgEnd)
  {
    HeadSplits(packet, pos, msgEnd, kind, over, end, next);
    var body, a := Rest(packet, pos, msgEnd), Attr(kind, packet[pos + 4..end]);
    var rest := if over then [] else Rest(packet, next, msgEnd);
    assert want == AnyElsewhere(Attrs(body)) by { assert Open(0); }
    Decides(want, body, a, rest, asks);
    assert Attrs([]) == [];
  }

  /** Bytes behind the declared length change nothing. */
  lemma TrailingBytesIgnored(packet: seq<byte>, extra: seq<byte>, bodyLen: nat)
    requires 20 + bodyLen <= |packet|
    ensures Attrs(Body(packet + extra, bodyLen)) == Attrs(Body(packet, bodyLen))
  {
    assert Body(packet + extra, bodyLen) == Body(packet, bodyLen);
  }

  // ---- Writing attributes.

  function EncodeAttr(a: Attr): (s: seq<byte>)
    requires |a.value| < 0x1_0000
    ensures |s| == 4 + |a.value| + Pad(|a.value|)
  {
    ToBe(a.kind, 2) + ToBe(|a.value|, 2) + a.value + Zeros(Pad(|a.value|))
  }

  function EncodeAttrs(as_: seq<Attr>): (s: seq<byte>)
    requires forall a | a in as_ :: |a.value| < 0x1_0000
  {
    if as_ == [] then [] else EncodeAttr(as_[0]) + EncodeAttrs(as_[1..])
  }

  lemma EncodedAttrFirst(a: Attr, rest: seq<byte>)
    requires |a.value| < 0x1_0000
    ensures Attrs(EncodeAttr(a) + rest) == [a] + Attrs(rest)
  {
    var s := EncodeAttr(a) + rest;
    EncodedHead(a, rest);
    assert s[4..4 + |a.value|] == a.value;
    assert s[4 + |a.value| + Pad(|a.value|)..] == rest;
    AttrsCons(s);
    assert Open(0);
  }

  lemma EncodedHead(a: Attr, rest: seq<byte>)
    requires |a.value| < 0x1_0000
    ensures var s := EncodeAttr(a) + rest; U16At(s, 0) == a.kind && U16At(s, 2) == |a.value|
  {
    U16Bytes(a.kind);
    U16Bytes(|a.value|);
  }

  /** Reading a written attribute list gives it back. */
  lemma {:induction false} AttrsRoundTrip(as_: seq<Attr>)
    requires forall a | a in as_ :: |a.value| < 0x1_0000
    ensures Attrs(EncodeAttrs(as_)) == as_
  {
    if as_ != [] {
      EncodedAttrFirst(as_[0], EncodeAttrs(as_[1..]));
      AttrsRoundTrip(as_[1..]);
    }
  }

  // ---- The mapped address.

  type Octets4 = s: seq<byte> | |s| == 4 witness [0, 0, 0, 0]

  datatype Addr = V4(ip4: Octets4, port: uint16) | V6(ip6: Block, port: uint16)

  function Octets(src: Addr): (s: seq<byte>)
    ensures |s| == if src.V4? then 4 else 16
  {
    if src.V4? then src.ip4 else src.ip6
  }

  /** Undo the masking of an XOR-MAPPED-ADDRESS value. */
  function ReadMapped(value: seq<byte>, mask: Block): Option<Addr> {
    if |value| < 4 then None
    else
      var port := Xor16(U16At(value, 2), COOKIE_HIGH);
      if value[1] == 1 && |value| == 8 then Some(V4(XorSeq(value[4..], mask), port))
      else if value[1] == 2 && |value| == 20 then Some(V6(XorSeq(value[4..], mask), port))
      else None
  }

  /** A client that undoes the masking finds its own address and port. */
  method XorMappedAddress(src: Addr, mask: Block) returns (val: seq<byte>)
    ensures |val| == 4 + |Octets(src)| && ReadMapped(val, mask) == Some(src)
    ensures val[..2] == [0, if src.V4? then 1 else 2]
    ensures val[2..4] == XorSeq(ToBe(src.port, 2), COOKIE) && val[4..] == XorSeq(Octets(src), mask)
  {
    var port := Xor16(src.port, COOKIE_HIGH);
    var family: byte := if src.V4? then 1 else 2;
    var masked := MaskOctets(Octets(src), mask);
    val := [0, family] + ToBe(port, 2) + masked;
    MaskedPort(src.port);
    Unmasked(src, mask, val);
  }

  /** The port is masked with the first two bytes of the cookie. */
  lemma MaskedPort(port: uint16)
    ensures ToBe(Xor16(port, COOKIE_HIGH), 2) == XorSeq(ToBe(port, 2), COOKIE)
  {
    var h, l := Xor(port / 256, 0x21), Xor(port % 256, 0x12);
    Xor16Bytes(port, COOKIE_HIGH);
    TwoBytes(Xor16(port, COOKIE_HIGH), h, l);
    U16Bytes(port);
    assert XorSeq([port / 256, port % 256], COOKIE) == [h, l];
  }

  lemma TwoBytes(v: uint16, h: byte, l: byte)
    requires v == 256 * h + l
    ensures ToBe(v, 2) == [h, l]
  {
    ByteParts(v, h, l);
    U16Bytes(v);
  }

  /** The octets, each with the mask byte at its position. */
  method MaskOctets(octets: seq<byte>, mask: Block) returns (r: seq<byte>)
    requires |octets| <= 16
    ensures r == XorSeq(octets, mask)
  {
    r := [];
    var i := 0;
    while i < |octets|
      invariant 0 <= i <= |octets| && r == XorSeq(octets[..i], mask)
    {
      XorSeqSnoc(octets[..i], octets[i], mask);
      assert octets[..i + 1] == octets[..i] + [octets[i]];
      r := r + [Xor(octets[i], mask[i])];
      i := i + 1;
    }
    assert octets[..i] == octets;
  }

  lemma Unmasked(src: Addr, mask: Block, val: seq<byte>)
    requires val == [0, if src.V4? then 1 else 2] + ToBe(Xor16(src.port, COOKIE_HIGH), 2) + XorSeq(Octets(src), mask)
    ensures ReadMapped(val, mask) == Some(src)
  {
    U16Bytes(Xor16(src.port, COOKIE_HIGH));
    Xor16Twice(src.port, COOKIE_HIGH);
    XorSeqTwice(Octets(src), mask);
    assert val[4..] == XorSeq(Octets(src), mask);
  }

  // ---- The responder.

  function Mask(tid: seq<byte>): Block
    requires |tid| == 12
  {
    COOKIE + tid
  }

  /** A well-formed Binding request that can be answered from this socket. */
  predicate Answerable(packet: seq<byte>) {
    && |packet| >= 20
    && packet[4..8] == COOKIE
    && var bodyLen: nat := U16At(packet, 2);
       && bodyLen % 4 == 0 && bodyLen + 20 <= |packet|
       && U16At(packet, 0) == BINDING_REQUEST
       && !AnyElsewhere(Attrs(Body(packet, bodyLen)))
  }

  /** The reply answers this request: its own length, the request's transaction
      id, and two attributes of which the first is the sender's address. */
  ghost predicate Answers(reply: seq<byte>, packet: seq<byte>, src: Addr)
    requires |packet| >= 20
  {
    && |reply| >= 20
    && U16At(reply, 0) == BINDING_SUCCESS
    && U16At(reply, 2) == |reply| - 20 && |reply| % 4 == 0
    && reply[4..8] == COOKIE && reply[8..20] == packet[8..20]
    && var attrs := Attrs(reply[20..]);
       && |attrs| == 2
       && attrs[0].kind == ATTR_XOR_MAPPED_ADDRESS
       && ReadMapped(attrs[0].value, Mask(packet[8..20])) == Some(src)
       && attrs[1] == Attr(ATTR_SOFTWARE, SOFTWARE)
  }

  /** Whether a datagram is answered does not depend on what follows the message. */
  lemma AnswerableIgnoresTrailing(packet: seq<byte>, extra: seq<byte>)
    requires |packet| >= 20 && 20 + U16At(packet, 2) <= |packet|
    ensures Answerable(packet + extra) == Answerable(packet)
  {
    var longer := packet + extra;
    assert longer[4..8] == packet[4..8];
    assert U16At(longer, 0) == U16At(packet, 0) && U16At(longer, 2) == U16At(packet, 2);
    TrailingBytesIgnored(packet, extra, U16At(packet, 2));
  }

  method ProcessStunPacket(packet: seq<byte>, src: Addr) returns (reply: Option<seq<byte>>)
    ensures reply.Some? <==> Answerable(packet)
    ensures reply.Some? ==> Answers(reply.value, packet, src)
  {
    if |packet| < 20 {
      return None;
    }
    if packet[4..8] != COOKIE {
      return None;
    }
    var bodyLen: nat := U16At(packet, 2);
    if bodyLen % 4 != 0 || bodyLen + 20 > |packet| {
      return None;
    }
    var tid := packet[8..20];
    if U16At(packet, 0) != BINDING_REQUEST {
      return None;
    }
    var elsewhere := AsksForAlternateAddress(packet, bodyLen);
    if elsewhere {
      return None;
    }
    var xorVal := XorMappedAddress(src, Mask(tid));
    ResponseAnswers(packet, src, xorVal);
    return Some(Response(tid, xorVal));
  }

  function Header(len: uint16, tid: seq<byte>): (h: seq<byte>)
    requires |tid| == 12
    ensures |h| == 20
  {
    ToBe(BINDING_SUCCESS, 2) + ToBe(len, 2) + COOKIE + tid
  }

  /** The mapped address needs no padding, its length being a multiple of four. */
  function Response(tid: seq<byte>, xorVal: seq<byte>): (r: seq<byte>)
    requires |tid| == 12 && |xorVal| <= 20
  {
    var padded := (|SOFTWARE| + 3) / 4 * 4;
    Header(4 + |xorVal| + 4 + padded, tid)
    + (EncodeAttr(Attr(ATTR_XOR_MAPPED_ADDRESS, xorVal)) + EncodeAttr(Attr(ATTR_SOFTWARE, SOFTWARE)))
  }

  lemma TwoAttrs(a: Attr, b: Attr)
    requires |a.value| < 0x1_0000 && |b.value| < 0x1_0000
    ensures Attrs(EncodeAttr(a) + EncodeAttr(b)) == [a, b]
  {
    EncodedAttrFirst(a, EncodeAttr(b));
    EncodedAttrFirst(b, []);
    assert EncodeAttr(b) + [] == EncodeAttr(b);
    assert [a] + ([b] + []) == [a, b];
  }

  lemma HeaderReads(len: uint16, tid: seq<byte>, body: seq<byte>)
    requires |tid| == 12
    ensures var r := Header(len, tid) + body;
            && U16At(r, 0) == BINDING_SUCCESS && U16At(r, 2) == len
            && r[4..8] == COOKIE && r[8..20] == tid && r[20..] == body
  {
    U16Bytes(BINDING_SUCCESS);
    U16Bytes(len);
    var r := Header(len, tid) + body;
    assert r[0] == BINDING_SUCCESS / 256 && r[1] == BINDING_SUCCESS % 256 && r[2] == len / 256 && r[3] == len % 256;
  }

  lemma ResponseShape(tid: seq<byte>, xorVal: seq<byte>)
    requires |tid| == 12 && (|xorVal| == 8 || |xorVal| == 20)
    ensures var body := EncodeAttr(Attr(ATTR_XOR_MAPPED_ADDRESS, xorVal)) + EncodeAttr(Attr(ATTR_SOFTWARE, SOFTWARE));
            |body| == 16 + |xorVal| && Response(tid, xorVal) == Header(16 + |xorVal|, tid) + body
  {
    assert Pad(8) == 0 && Pad(20) == 0 && Pad(5) == 3;
  }

  lemma AnswersFrom(reply: seq<byte>, packet: seq<byte>, src: Addr, a: Attr, b: Attr)
    requires |packet| >= 20 && |reply| >= 20 && |reply| % 4 == 0
    requires U16At(reply, 0) == BINDING_SUCCESS && U16At(reply, 2) == |reply| - 20
    requires reply[4..8] == COOKIE && reply[8..20] == packet[8..20]
    requires Attrs(reply[20..]) == [a, b]
    requires a.kind == ATTR_XOR_MAPPED_ADDRESS && ReadMapped(a.value, Mask(packet[8..20])) == Some(src)
    requires b == Attr(ATTR_SOFTWARE, SOFTWARE)
    ensures Answers(reply, packet, src)
  {
  }

  lemma HeaderAnswers(packet: seq<byte>, src: Addr, xorVal: seq<byte>, body: seq<byte>)
    requires |packet| >= 20 && (|xorVal| == 8 || |xorVal| == 20)
    requires |body| == 16 + |xorVal|
    requires Attrs(body) == [Attr(ATTR_XOR_MAPPED_ADDRESS, xorVal), Attr(ATTR_SOFTWARE, SOFTWARE)]
    requires ReadMapped(xorVal, Mask(packet[8..20])) == Some(src)
    ensures Answers(Header(16 + |xorVal|, packet[8..20]) + body, packet, src)
  {
    var tid := packet[8..20];
    HeaderReads(16 + |xorVal|, tid, body);
    var reply := Header(16 + |xorVal|, tid) + body;
    assert |reply| % 4 == 0 by {
      assert |reply| == 44 || |reply| == 56;
    }
    AnswersFrom(reply, packet, src,
                Attr(ATTR_XOR_MAPPED_ADDRESS, xorVal), Attr(ATTR_SOFTWARE, SOFTWARE));
  }

  lemma ResponseAnswers(packet: seq<byte>, src: Addr, xorVal: seq<byte>)
    requires |packet| >= 20 && (|xorVal| == 8 || |xorVal| == 20)
    requires ReadMapped(xorVal, Mask(packet[8..20])) == Some(src)
    ensures Answers(Response(packet[8..20], xorVal), packet, src)
  {
    var a, b := Attr(ATTR_XOR_MAPPED_ADDRESS, xorVal), Attr(ATTR_SOFTWARE, SOFTWARE);
    ResponseShape(packet[8..20], xorVal);
    TwoAttrs(a, b);
    HeaderAnswers(packet, src, xorVal, EncodeAttr(a) + EncodeAttr(b));
  }

  /** The two attributes that ask for another address, by their numbers. */
  lemma AsksIff(a: Attr)
    ensures AsksElsewhere(a) <==> (a.kind == 0x0003 || a.kind == 0x0027) && a.value != Zeros(|a.value|)
  {
    if !NonZero(a.value) {
      assert a.value == Zeros(|a.value|);
    }
  }

  /** A request that is answered starts with its type and carries the cookie. */
  lemma AnswerableBytes(packet: seq<byte>)
    requires Answerable(packet)
    ensures packet[..2] == [0x00, 0x01] && packet[4..8] == [0x21, 0x12, 0xA4, 0x42]
    ensures |packet| >= 20 + U16At(packet, 2) && U16At(packet, 2) % 4 == 0
  {
    ByteParts(1, packet[0], packet[1]);
  }

  // ---- Bytes on the wire.

  lemma AttrBytes(a: Attr)
    requires |a.value| < 0x1_0000
    ensures EncodeAttr(a)
         == [a.kind / 256, a.kind % 256, |a.value| / 256, |a.value| % 256] + a.value + Zeros(Pad(|a.value|))
  {
    U16Bytes(a.kind);
    U16Bytes(|a.value|);
  }

  /** The response to an IPv4 client, byte by byte. */
  lemma ResponseBytes(tid: seq<byte>, val: seq<byte>)
    requires |tid| == 12 && |val| == 8
    ensures Response(tid, val)
         == [0x01, 0x01, 0x00, 0x18, 0x21, 0x12, 0xA4, 0x42] + tid
            + ([0x00, 0x20, 0x00, 0x08] + val + [0x80, 0x22, 0x00, 0x05, 0x52, 0x65, 0x4D, 0x67, 0x72, 0, 0, 0])
  {
    HeaderBytes(tid);
    ResponseShape(tid, val);
    MappedBytes(val);
    SoftwareBytes();
  }

  lemma HeaderBytes(tid: seq<byte>)
    requires |tid| == 12
    ensures Header(24, tid) == [0x01, 0x01, 0x00, 0x18, 0x21, 0x12, 0xA4, 0x42] + tid
  {
    U16Bytes(BINDING_SUCCESS);
    U16Bytes(24);
    assert Header(24, tid) == [0x01, 0x01] + [0x00, 0x18] + COOKIE + tid;
  }

  lemma MappedBytes(val: seq<byte>)
    requires |val| == 8
    ensures EncodeAttr(Attr(ATTR_XOR_MAPPED_ADDRESS, val)) == [0x00, 0x20, 0x00, 0x08] + val
  {
    AttrBytes(Attr(ATTR_XOR_MAPPED_ADDRESS, val));
    assert Pad(8) == 0 && Zeros(0) == [];
  }

  lemma SoftwareBytes()
    ensures EncodeAttr(Attr(ATTR_SOFTWARE, SOFTWARE))
         == [0x80, 0x22, 0x00, 0x05, 0x52, 0x65, 0x4D, 0x67, 0x72, 0, 0, 0]
  {
    AttrBytes(Attr(ATTR_SOFTWARE, SOFTWARE));
    assert Pad(5) == 3 && Zeros(3) == [0, 0, 0];
  }

}
