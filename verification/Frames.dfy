/** Length-prefixed frames: a type byte, the body length as eight big-endian
    bytes, the body. */
module Frames {
  import opened Bytes

  const MAX_MSG_LEN := 10240

  datatype Frame = Frame(typeByte: byte, body: seq<byte>)

  predicate Fits(f: Frame) {
    |f.body| <= MAX_MSG_LEN
  }

  function Encode(f: Frame): (s: seq<byte>)
    ensures |s| == 9 + |f.body|
  {
    [f.typeByte] + ToBe(|f.body|, 8) + f.body
  }

  function EncodeAll(fs: seq<Frame>): (s: seq<byte>) {
    if fs == [] then [] else Encode(fs[0]) + EncodeAll(fs[1..])
  }

  /** One reading of the start of a byte string. */
  datatype Parsed = Got(frame: Frame, used: nat) | Short | BadLength(len: int)

  function Parse(s: seq<byte>): (r: Parsed)
    ensures r.Got? ==> 9 <= r.used <= |s|
  {
    if |s| < 9 then Short
    else
      var len := I64FromBe(s[1..9]);
      if len < 0 || len > MAX_MSG_LEN then BadLength(len)
      else if |s| < 9 + len then Short
      else Got(Frame(s[0], s[9..9 + len]), 9 + len)
  }

  /** All complete frames at the start of a byte string. */
  function ParseAll(s: seq<byte>): (fs: seq<Frame>)
    decreases |s|
  {
    match Parse(s)
    case Got(f, used) => [f] + ParseAll(s[used..])
    case _ => []
  }

  lemma LengthHeader(len: nat)
    requires len <= MAX_MSG_LEN
    ensures I64FromBe(ToBe(len, 8)) == len
  {
    assert Pow256(2) == 65536;
    assert Pow256(8) == Pow256(2) * Pow256(2) * Pow256(2) * Pow256(2) by {
      assert Pow256(4) == Pow256(2) * 65536;
      assert Pow256(6) == Pow256(4) * 65536;
      assert Pow256(8) == Pow256(6) * 65536;
    }
    FromBeToBe(len, 8);
  }

  /** Where everything is: the type, eight length bytes with the most significant
      first, the body. */
  lemma FrameLayout(f: Frame, i: nat)
    requires i < 8
    ensures Encode(f)[0] == f.typeByte && Encode(f)[9..] == f.body
    ensures Encode(f)[1 + i] == |f.body| / Pow256(7 - i) % 256
  {
    ToBeAt(|f.body|, 8, i);
    assert Encode(f)[1 + i] == ToBe(|f.body|, 8)[i];
  }

  lemma {:induction false} ToBeOfZero(width: nat)
    ensures ToBe(0, width) == Zeros(width)
  {
    if width > 0 {
      ToBeOfZero(width - 1);
    }
  }

  /** An admissible length takes the last two of the length bytes. */
  lemma FrameHeader(f: Frame)
    requires Fits(f)
    ensures Encode(f)[..9] == [f.typeByte, 0, 0, 0, 0, 0, 0, |f.body| / 256, |f.body| % 256]
  {
    var n := |f.body|;
    ToBeOfZero(6);
    assert ToBe(n / 256, 7) == ToBe(n / 256 / 256, 6) + [n / 256 % 256];
    assert n / 256 / 256 == 0 && n / 256 % 256 == n / 256;
    assert ToBe(n, 8) == Zeros(6) + [n / 256, n % 256];
    assert Zeros(6) == [0, 0, 0, 0, 0, 0];
  }

  /** Reading what was written gives the frame and leaves the rest. */
  lemma ParseEncode(f: Frame, rest: seq<byte>)
    requires Fits(f)
    ensures Parse(Encode(f) + rest) == Got(f, |Encode(f)|)
  {
    var s := Encode(f) + rest;
    assert s[1..9] == ToBe(|f.body|, 8);
    LengthHeader(|f.body|);
    assert s[9..9 + |f.body|] == f.body;
  }

  /** A strict prefix of one frame is never taken for a frame or for an error. */
  lemma ParseStrictPrefix(f: Frame, s: seq<byte>)
    requires Fits(f) && s < Encode(f)
    ensures Parse(s) == Short
  {
    if |s| >= 9 {
      assert s[1..9] == Encode(f)[1..9] == ToBe(|f.body|, 8);
      LengthHeader(|f.body|);
    }
  }

  /** The frames read from any prefix of the plaintext are a prefix of the frames
      written, and the reader never reports a bad length. */
  lemma {:induction false} PrefixOfFrames(fs: seq<Frame>, s: seq<byte>)
    requires forall f | f in fs :: Fits(f)
    requires s <= EncodeAll(fs)
    ensures ParseAll(s) <= fs
    ensures !Parse(s).BadLength?
    ensures s == EncodeAll(fs) ==> ParseAll(s) == fs
    decreases |fs|
  {
    if fs == [] {
      assert s == [];
    } else {
      var e := Encode(fs[0]);
      if |s| < |e| {
        assert s < e by { assert s == EncodeAll(fs)[..|s|] == e[..|s|]; }
        ParseStrictPrefix(fs[0], s);
      } else {
        var rest := s[|e|..];
        assert s == e + rest by { assert s[..|e|] == EncodeAll(fs)[..|e|] == e; }
        assert rest <= EncodeAll(fs[1..]) by {
          assert EncodeAll(fs)[|e|..] == EncodeAll(fs[1..]);
          assert rest == EncodeAll(fs)[|e|..|s|];
        }
        ParseEncode(fs[0], rest);
        PrefixOfFrames(fs[1..], rest);
      }
    }
  }

  lemma {:induction false} EncodeAllAppend(fs: seq<Frame>, gs: seq<Frame>)
    ensures EncodeAll(fs + gs) == EncodeAll(fs) + EncodeAll(gs)
    decreases |fs|
  {
    if fs == [] {
      assert fs + gs == gs;
    } else {
      assert (fs + gs)[1..] == fs[1..] + gs;
      EncodeAllAppend(fs[1..], gs);
    }
  }

  lemma EncodeAllSnoc(fs: seq<Frame>, k: nat)
    requires k < |fs|
    ensures EncodeAll(fs[..k + 1]) == EncodeAll(fs[..k]) + Encode(fs[k])
    ensures fs[..k + 1] == fs[..k] + [fs[k]]
  {
    assert fs[..k + 1] == fs[..k] + [fs[k]];
    EncodeAllAppend(fs[..k], [fs[k]]);
    assert EncodeAll([fs[k]]) == Encode(fs[k]);
  }

  lemma ParseAllCons(f: Frame, rest: seq<byte>)
    requires Fits(f)
    ensures ParseAll(Encode(f) + rest) == [f] + ParseAll(rest)
  {
    var s := Encode(f) + rest;
    ParseEncode(f, rest);
    assert s[|Encode(f)|..] == rest;
  }

  /** Frames read one after the other are what `ParseAll` finds. */
  lemma {:induction false} ParseAllAppend(fs: seq<Frame>, rest: seq<byte>)
    requires forall f | f in fs :: Fits(f)
    ensures ParseAll(EncodeAll(fs) + rest) == fs + ParseAll(rest)
    decreases |fs|
  {
    if fs == [] {
      assert EncodeAll(fs) + rest == rest;
    } else {
      var e, t := Encode(fs[0]), EncodeAll(fs[1..]);
      Regroup(e, t, rest);
      ParseAllCons(fs[0], t + rest);
      ParseAllAppend(fs[1..], rest);
      Regroup([fs[0]], fs[1..], ParseAll(rest));
      assert [fs[0]] + fs[1..] == fs;
    }
  }

  /** A header with an admissible length, followed by that many bytes, is the
      encoding of a frame. */
  lemma EncodeOfParts(tb: seq<byte>, lb: seq<byte>, body: seq<byte>)
    requires |tb| == 1 && |lb| == 8 && I64FromBe(lb) == |body|
    ensures tb + lb + body == Encode(Frame(tb[0], body))
  {
    ToBeFromBe(lb);
  }
}
