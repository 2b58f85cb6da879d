/** The 128-bit cipher feedback mode (section 6.3 of NIST SP 800-38A), with a
    partial last block, over an arbitrary block function. */
module CfbSpec {
  import opened Bytes

  /** The forward cipher under one key. Nothing is assumed about it. */
  type BlockFn = Block -> Block

  function Encrypt(enc: BlockFn, reg: Block, p: seq<byte>): (c: seq<byte>)
    ensures |c| == |p|
    decreases |p|
  {
    if |p| < 16 then XorSeq(p, enc(reg))
    else
      var c: Block := XorSeq(p[..16], enc(reg));
      c + Encrypt(enc, c, p[16..])
  }

  function Decrypt(enc: BlockFn, reg: Block, c: seq<byte>): (p: seq<byte>)
    ensures |p| == |c|
    decreases |c|
  {
    if |c| < 16 then XorSeq(c, enc(reg))
    else XorSeq(c[..16], enc(reg)) + Decrypt(enc, c[..16], c[16..])
  }

  function Transform(enc: BlockFn, iv: Block, decrypt: bool, x: seq<byte>): (y: seq<byte>)
    ensures |y| == |x|
  {
    if decrypt then Decrypt(enc, iv, x) else Encrypt(enc, iv, x)
  }

  /** The ciphertext that belongs to an input: what feeds the register. */
  function Feedback(enc: BlockFn, iv: Block, decrypt: bool, x: seq<byte>): (c: seq<byte>)
    ensures |c| == |x|
  {
    if decrypt then x else Encrypt(enc, iv, x)
  }

  /** The last complete ciphertext block, or the initial register. */
  function Register(reg: Block, c: seq<byte>): (r: Block)
    decreases |c|
  {
    if |c| < 16 then reg else Register(c[..16], c[16..])
  }

  /** The ciphertext after the last complete block. */
  function Tail(c: seq<byte>): (t: seq<byte>)
    ensures |t| < 16 && |t| <= |c|
    decreases |c|
  {
    if |c| < 16 then c else Tail(c[16..])
  }

  /** The ciphertext block in front of position `i`, or the initial vector. */
  function Before(iv: Block, c: seq<byte>, i: nat): (b: Block)
    requires i < |c|
  {
    if i < 16 then iv else c[i / 16 * 16 - 16..i / 16 * 16]
  }

  lemma BeforeShifts(iv: Block, first: Block, rest: seq<byte>, i: nat)
    requires i < |rest|
    ensures Before(iv, first + rest, i + 16) == Before(first, rest, i)
  {
    assert (i + 16) / 16 == i / 16 + 1;
    var at := i / 16 * 16;
    if i < 16 {
      assert (first + rest)[0..16] == first;
    } else {
      assert (first + rest)[at..at + 16] == rest[at - 16..at];
    }
  }

  /** The keystream byte for position `i` of a ciphertext. */
  function KeyAt(enc: BlockFn, iv: Block, c: seq<byte>, i: nat): byte
    requires i < |c|
  {
    enc(Before(iv, c, i))[i % 16]
  }

  lemma KeyShifts(enc: BlockFn, iv: Block, first: Block, rest: seq<byte>, i: nat)
    requires i < |rest|
    ensures KeyAt(enc, iv, first + rest, i + 16) == KeyAt(enc, first, rest, i)
  {
    BeforeShifts(iv, first, rest, i);
    assert (i + 16) % 16 == i % 16;
  }

  lemma KeyFirst(enc: BlockFn, iv: Block, c: seq<byte>, i: nat)
    requires i < |c| && i < 16
    ensures KeyAt(enc, iv, c, i) == enc(iv)[i]
  {
  }

  /** The mode, byte by byte: each plaintext byte is masked with the encryption of
      the ciphertext block in front of it. */
  lemma {:induction false} EncryptAt(enc: BlockFn, iv: Block, p: seq<byte>, i: nat)
    requires i < |p|
    ensures Encrypt(enc, iv, p)[i] == Xor(p[i], KeyAt(enc, iv, Encrypt(enc, iv, p), i))
    decreases |p|
  {
    if i < 16 {
      KeyFirst(enc, iv, Encrypt(enc, iv, p), i);
    } else {
      var first: Block := XorSeq(p[..16], enc(iv));
      EncryptAt(enc, first, p[16..], i - 16);
      KeyShifts(enc, iv, first, Encrypt(enc, first, p[16..]), i - 16);
    }
  }

  lemma {:induction false} DecryptAt(enc: BlockFn, iv: Block, c: seq<byte>, i: nat)
    requires i < |c|
    ensures Decrypt(enc, iv, c)[i] == Xor(c[i], KeyAt(enc, iv, c, i))
    decreases |c|
  {
    if i < 16 {
      KeyFirst(enc, iv, c, i);
    } else {
      DecryptAt(enc, c[..16], c[16..], i - 16);
      KeyShifts(enc, iv, c[..16], c[16..], i - 16);
      assert c[..16] + c[16..] == c;
    }
  }

  lemma {:induction false} RegisterSnoc(reg: Block, c: seq<byte>, b: byte)
    ensures |Tail(c)| == 15 ==> Register(reg, c + [b]) == Tail(c) + [b] && Tail(c + [b]) == []
    ensures |Tail(c)| < 15 ==> Register(reg, c + [b]) == Register(reg, c) && Tail(c + [b]) == Tail(c) + [b]
    decreases |c|
  {
    if |c| < 15 {
    } else if |c| == 15 {
      var d := c + [b];
      assert d[..16] == d && d[16..] == [];
      assert Register(reg, d) == Register(d, []) == d;
    } else {
      assert (c + [b])[..16] == c[..16] && (c + [b])[16..] == c[16..] + [b];
      RegisterSnoc(c[..16], c[16..], b);
    }
  }

  lemma {:induction false} DecryptSnoc(enc: BlockFn, reg: Block, c: seq<byte>, b: byte)
    ensures Decrypt(enc, reg, c + [b])
         == Decrypt(enc, reg, c) + [Xor(b, enc(Register(reg, c))[|Tail(c)|])]
    decreases |c|
  {
    var d := c + [b];
    if |c| < 15 {
      XorSeqSnoc(c, b, enc(reg));
    } else if |c| == 15 {
      XorSeqSnoc(c, b, enc(reg));
      assert d[..16] == d && d[16..] == [];
      assert Decrypt(enc, d, []) == [];
    } else {
      assert d[..16] == c[..16] && d[16..] == c[16..] + [b];
      DecryptSnoc(enc, c[..16], c[16..], b);
    }
  }

  lemma EncryptSnocShort(enc: BlockFn, reg: Block, p: seq<byte>, b: byte)
    requires |p| < 16
    ensures Encrypt(enc, reg, p + [b]) == Encrypt(enc, reg, p) + [Xor(b, enc(reg)[|p|])]
  {
    var q := p + [b];
    XorSeqSnoc(p, b, enc(reg));
    if |p| == 15 {
      assert q[..16] == q && q[16..] == [];
      assert Encrypt(enc, XorSeq(q, enc(reg)), []) == [];
    }
  }

  lemma {:induction false} EncryptSnoc(enc: BlockFn, reg: Block, p: seq<byte>, b: byte)
    ensures var c := Encrypt(enc, reg, p);
            Encrypt(enc, reg, p + [b]) == c + [Xor(b, enc(Register(reg, c))[|Tail(c)|])]
    decreases |p|
  {
    var q := p + [b];
    if |p| < 16 {
      EncryptSnocShort(enc, reg, p, b);
    } else {
      assert q[..16] == p[..16] && q[16..] == p[16..] + [b];
      var c: Block := XorSeq(p[..16], enc(reg));
      var rest := Encrypt(enc, c, p[16..]);
      EncryptSnoc(enc, c, p[16..], b);
      assert (c + rest)[..16] == c && (c + rest)[16..] == rest;
    }
  }

  /** One more input byte: the output, the feedback and the next register. */
  lemma TransformSnoc(enc: BlockFn, iv: Block, decrypt: bool, x: seq<byte>, b: byte)
    ensures var c := Feedback(enc, iv, decrypt, x);
            var o := Xor(b, enc(Register(iv, c))[|Tail(c)|]);
            && Transform(enc, iv, decrypt, x + [b]) == Transform(enc, iv, decrypt, x) + [o]
            && Feedback(enc, iv, decrypt, x + [b]) == c + [if decrypt then b else o]
  {
    if decrypt {
      DecryptSnoc(enc, iv, x, b);
    } else {
      EncryptSnoc(enc, iv, x, b);
    }
  }

  /** Decryption undoes encryption under the same key and initial vector. */
  lemma {:induction false} DecryptEncrypt(enc: BlockFn, iv: Block, p: seq<byte>)
    ensures Decrypt(enc, iv, Encrypt(enc, iv, p)) == p
    decreases |p|
  {
    if |p| < 16 {
      XorSeqTwice(p, enc(iv));
    } else {
      XorSeqTwice(p[..16], enc(iv));
      var c: Block := XorSeq(p[..16], enc(iv));
      var rest := Encrypt(enc, c, p[16..]);
      assert (c + rest)[..16] == c && (c + rest)[16..] == rest;
      DecryptEncrypt(enc, c, p[16..]);
      assert p == p[..16] + p[16..];
    }
  }

  /** Encryption undoes decryption, so the two are inverse bijections. */
  lemma {:induction false} EncryptDecrypt(enc: BlockFn, iv: Block, c: seq<byte>)
    ensures Encrypt(enc, iv, Decrypt(enc, iv, c)) == c
    decreases |c|
  {
    if |c| < 16 {
      XorSeqTwice(c, enc(iv));
    } else {
      XorSeqTwice(c[..16], enc(iv));
      var p := XorSeq(c[..16], enc(iv));
      var rest := Decrypt(enc, c[..16], c[16..]);
      assert (p + rest)[..16] == p && (p + rest)[16..] == rest;
      EncryptDecrypt(enc, c[..16], c[16..]);
      assert c == c[..16] + c[16..];
    }
  }

  /** The output for a prefix of the input is a prefix of the output. */
  lemma {:induction false} TransformPrefix(enc: BlockFn, iv: Block, decrypt: bool, x: seq<byte>, y: seq<byte>)
    ensures Transform(enc, iv, decrypt, x) <= Transform(enc, iv, decrypt, x + y)
    decreases |y|
  {
    if y == [] {
      assert x + y == x;
    } else {
      var b := y[|y| - 1];
      var y' := y[..|y| - 1];
      TransformPrefix(enc, iv, decrypt, x, y');
      assert x + y == x + y' + [b];
      OneMorePrefix(enc, iv, decrypt, x + y', b);
    }
  }

  lemma OneMorePrefix(enc: BlockFn, iv: Block, decrypt: bool, x: seq<byte>, b: byte)
    ensures Transform(enc, iv, decrypt, x) <= Transform(enc, iv, decrypt, x + [b])
  {
    TransformSnoc(enc, iv, decrypt, x, b);
  }

  /** The stretches of the transform that belong to `chunks`, given one by one after
      the bytes `fed`. */
  function ChunkedOutput(enc: BlockFn, iv: Block, decrypt: bool, fed: seq<byte>, chunks: seq<seq<byte>>)
    : (out: seq<byte>)
    decreases |chunks|
  {
    if chunks == [] then []
    else
      var now := fed + chunks[0];
      Transform(enc, iv, decrypt, now)[|fed|..] + ChunkedOutput(enc, iv, decrypt, now, chunks[1..])
  }

  function Flatten(chunks: seq<seq<byte>>): (s: seq<byte>) {
    if chunks == [] then [] else chunks[0] + Flatten(chunks[1..])
  }

  /** Cutting a byte stream into chunks does not show in the output. */
  lemma {:induction false} CutsDoNotMatter(enc: BlockFn, iv: Block, decrypt: bool,
                                           fed: seq<byte>, chunks: seq<seq<byte>>)
    ensures Transform(enc, iv, decrypt, fed) + ChunkedOutput(enc, iv, decrypt, fed, chunks)
         == Transform(enc, iv, decrypt, fed + Flatten(chunks))
    decreases |chunks|
  {
    if chunks == [] {
      assert fed + [] == fed;
    } else {
      var now := fed + chunks[0];
      var more := Stretch(enc, iv, decrypt, fed, chunks[0]);
      CutsDoNotMatter(enc, iv, decrypt, now, chunks[1..]);
      Regroup(Transform(enc, iv, decrypt, fed), more, ChunkedOutput(enc, iv, decrypt, now, chunks[1..]));
      Regroup(fed, chunks[0], Flatten(chunks[1..]));
    }
  }

  /** The output of one chunk. */
  lemma Stretch(enc: BlockFn, iv: Block, decrypt: bool, fed: seq<byte>, chunk: seq<byte>) returns (more: seq<byte>)
    ensures more == Transform(enc, iv, decrypt, fed + chunk)[|fed|..]
    ensures Transform(enc, iv, decrypt, fed + chunk) == Transform(enc, iv, decrypt, fed) + more
  {
    TransformPrefix(enc, iv, decrypt, fed, chunk);
    more := Transform(enc, iv, decrypt, fed + chunk)[|fed|..];
  }

  lemma FirstChunk(enc: BlockFn, iv: Block, decrypt: bool, fed: seq<byte>, chunks: seq<seq<byte>>, more: seq<byte>)
    requires chunks != []
    requires Transform(enc, iv, decrypt, fed + chunks[0]) == Transform(enc, iv, decrypt, fed) + more
    ensures ChunkedOutput(enc, iv, decrypt, fed, chunks)
         == more + ChunkedOutput(enc, iv, decrypt, fed + chunks[0], chunks[1..])
  {
    assert Transform(enc, iv, decrypt, fed + chunks[0])[|fed|..] == more;
  }

  /** Encrypting under one set of cuts and decrypting under another gives the
      plaintext back. */
  lemma UnrelatedCutsInvert(enc: BlockFn, iv: Block, plain: seq<seq<byte>>, cipher: seq<seq<byte>>)
    requires Flatten(cipher) == ChunkedOutput(enc, iv, false, [], plain)
    ensures ChunkedOutput(enc, iv, true, [], cipher) == Flatten(plain)
  {
    CutsDoNotMatter(enc, iv, false, [], plain);
    CutsDoNotMatter(enc, iv, true, [], cipher);
    assert [] + Flatten(plain) == Flatten(plain) && [] + Flatten(cipher) == Flatten(cipher);
    DecryptEncrypt(enc, iv, Flatten(plain));
  }
}

/** The byte-granular cipher object. */
module CfbCipher {
  import opened Bytes
  import opened CfbSpec

  class Cfb {
    const enc: BlockFn
    const decrypt: bool
    // `[u8; 16]` fields are values in the original: assigning one copies it.
    var reg: Block
    var ks: Block
    var ct: Block
    var pos: nat

    ghost const iv: Block
    /** Every input byte so far, and every output byte. */
    ghost var fed: seq<byte>
    ghost var produced: seq<byte>

    /** The keystream block is refreshed lazily: after the sixteenth byte of a
        block `pos` stays at 16 until another byte arrives. */
    ghost predicate Synced(c: seq<byte>)
      reads this
    {
      && pos <= 16
      && (pos < 16 ==> reg == Register(iv, c) && ks == enc(reg) && ct[..pos] == Tail(c))
      && (pos == 16 ==> ct == Register(iv, c) && Tail(c) == [])
    }

    ghost predicate State()
      reads this
    {
      && produced == Transform(enc, iv, decrypt, fed)
      && Synced(Feedback(enc, iv, decrypt, fed))
    }

    /** `State()`, which the verifier opens only where `Open` is mentioned. */
    ghost predicate Valid()
      reads this
    {
      forall k: nat {:trigger Open(k)} | Open(k) :: State()
    }

    constructor (enc: BlockFn, iv: Block, decrypt: bool)
      ensures Valid() && fed == []
      ensures this.enc == enc && this.iv == iv && this.decrypt == decrypt
    {
      this.enc, this.decrypt, this.iv := enc, decrypt, iv;
      reg, ks, ct, pos := iv, seq(16, _ => 0), seq(16, _ => 0), 16;
      fed, produced := [], [];
      new;
      Refresh();
    }

    method Refresh()
      modifies this`ks, this`pos
      ensures ks == enc(reg) && pos == 0
    {
      ks := enc(reg);
      pos := 0;
    }

    /** The body of the loop in `Apply`: `c` is the ciphertext so far. */
    method Mask(b: byte, ghost c: seq<byte>) returns (out: byte)
      requires Synced(c)
      modifies this`reg, this`ks, this`ct, this`pos
      ensures out == Xor(b, enc(Register(iv, c))[|Tail(c)|])
      ensures Synced(c + [if decrypt then b else out])
    {
      if pos == 16 {
        reg := ct;
        Refresh();
      }
      assert ct[..pos] == Tail(c) && pos == |Tail(c)|;
      out := Xor(b, ks[pos]);
      var fb := if decrypt then b else out;
      ct := ct[pos := fb];
      pos := pos + 1;
      RegisterSnoc(iv, c, fb);
      assert ct[..pos] == Tail(c) + [fb];
      assert pos == 16 ==> ct == ct[..pos];
    }

    lemma Outputs()
      requires Valid()
      ensures produced == Transform(enc, iv, decrypt, fed)
    {
      assert Open(0);
    }

    method Step(data: array<byte>, i: nat)
      requires Valid() && i < data.Length
      modifies this, data
      ensures Valid() && fed == old(fed) + [old(data[i])] && produced == old(produced) + [data[i]]
      ensures data[..] == old(data[..])[i := data[i]]
    {
      assert Open(0);
      TransformSnoc(enc, iv, decrypt, fed, data[i]);
      var out := Mask(data[i], Feedback(enc, iv, decrypt, fed));
      fed, produced := fed + [data[i]], produced + [out];
      data[i] := out;
    }

    /** Transforms `data[lo..hi]` in place, continuing the stream where the last
        call left it. */
    method Apply(data: array<byte>, lo: nat, hi: nat)
      requires Valid() && lo <= hi <= data.Length
      modifies this, data
      ensures Valid() && fed == old(fed) + old(data[..])[lo..hi]
      ensures produced == old(produced) + data[..][lo..hi]
      ensures data[..] == old(data[..])[..lo] + data[..][lo..hi] + old(data[..])[hi..]
    {
      ghost var src := data[..];
      ghost var outs: seq<byte> := [];
      var i := lo;
      assert data[..] == src[..lo] + outs + src[lo..];
      while i < hi
        invariant lo <= i <= hi && |outs| == i - lo
        invariant Valid() && fed == old(fed) + src[lo..i] && produced == old(produced) + outs
        invariant data[..] == src[..lo] + outs + src[i..]
      {
        assert data[i] == data[..][i] == src[i];
        Step(data, i);
        PatchNext(src, lo, outs, i, data[i]);
        outs := outs + [data[i]];
        i := i + 1;
      }
      assert data[..][lo..hi] == outs;
    }
  }

  lemma PatchNext(src: seq<byte>, lo: nat, outs: seq<byte>, i: nat, b: byte)
    requires lo <= i < |src| && |outs| == i - lo
    ensures (src[..lo] + outs + src[i..])[i := b] == src[..lo] + (outs + [b]) + src[i + 1..]
    ensures src[lo..i + 1] == src[lo..i] + [src[i]]
  {
    var x, y := (src[..lo] + outs + src[i..])[i := b], src[..lo] + (outs + [b]) + src[i + 1..];
    assert |x| == |y| && forall k | 0 <= k < |x| :: x[k] == y[k];
  }

  /** One chunk through the cipher. */
  method FeedChunk(c: Cfb, chunk: seq<byte>) returns (out: seq<byte>)
    requires c.Valid()
    modifies c
    ensures c.Valid() && c.fed == old(c.fed) + chunk
    ensures |out| == |chunk| && c.produced == old(c.produced) + out
  {
    var a := new byte[|chunk|](i requires 0 <= i < |chunk| => chunk[i]);
    assert a[..] == chunk;
    c.Apply(a, 0, a.Length);
    out := a[..];
    assert out[0..|chunk|] == out && chunk[0..|chunk|] == chunk;
  }

  lemma NextChunk(enc: BlockFn, iv: Block, decrypt: bool, fed: seq<byte>, chunks: seq<seq<byte>>, i: nat,
                  more: seq<byte>, out: seq<byte>, all: seq<byte>)
    requires i < |chunks| && all == out + ChunkedOutput(enc, iv, decrypt, fed, chunks[i..])
    requires Transform(enc, iv, decrypt, fed + chunks[i]) == Transform(enc, iv, decrypt, fed) + more
    ensures all == (out + more) + ChunkedOutput(enc, iv, decrypt, fed + chunks[i], chunks[i + 1..])
  {
    var rest := chunks[i..];
    assert rest[0] == chunks[i] && rest[1..] == chunks[i + 1..];
    FirstChunk(enc, iv, decrypt, fed, rest, more);
    Regroup(out, more, ChunkedOutput(enc, iv, decrypt, fed + chunks[i], rest[1..]));
  }

  /** Chunks through the cipher one by one, from wherever its stream stands. */
  method FeedChunks(c: Cfb, chunks: seq<seq<byte>>) returns (out: seq<byte>)
    requires c.Valid()
    modifies c
    ensures c.Valid() && out == ChunkedOutput(c.enc, c.iv, c.decrypt, old(c.fed), chunks)
  {
    out := [];
    var i := 0;
    ghost var all := ChunkedOutput(c.enc, c.iv, c.decrypt, c.fed, chunks);
    assert chunks[0..] == chunks;
    while i < |chunks|
      invariant 0 <= i <= |chunks| && c.Valid()
      invariant all == out + ChunkedOutput(c.enc, c.iv, c.decrypt, c.fed, chunks[i..])
    {
      ghost var fed := c.fed;
      c.Outputs();
      var more := FeedChunk(c, chunks[i]);
      c.Outputs();
      NextChunk(c.enc, c.iv, c.decrypt, fed, chunks, i, more, out, all);
      out := out + more;
      i := i + 1;
    }
    assert chunks[i..] == [];
  }

  /** Any way of cutting a byte string. */
  function CutUp(s: seq<byte>, cuts: seq<nat>): seq<seq<byte>>
    decreases |cuts|
  {
    if cuts == [] then [s]
    else
      var n := Min(cuts[0], |s|);
      [s[..n]] + CutUp(s[n..], cuts[1..])
  }

  lemma {:induction false} CutUpIsWhole(s: seq<byte>, cuts: seq<nat>)
    ensures Flatten(CutUp(s, cuts)) == s
    decreases |cuts|
  {
    if cuts == [] {
      assert [s][1..] == [];
      assert Flatten([s]) == s + Flatten([]);
    } else {
      var n := Min(cuts[0], |s|);
      CutUpIsWhole(s[n..], cuts[1..]);
      assert s[..n] + s[n..] == s;
    }
  }

  /** An encrypting object is fed one set of chunks and a decrypting one with the
      same key and initial vector the output under unrelated cuts. */
  method RoundTrip(enc: BlockFn, iv: Block, plain: seq<seq<byte>>, cuts: seq<nat>) returns (back: seq<byte>)
    ensures back == Flatten(plain)
  {
    var e := new Cfb(enc, iv, false);
    var cipher := FeedChunks(e, plain);
    var pieces := CutUp(cipher, cuts);
    CutUpIsWhole(cipher, cuts);
    var d := new Cfb(enc, iv, true);
    back := FeedChunks(d, pieces);
    UnrelatedCutsInvert(enc, iv, plain, pieces);
  }
}
