/** The encrypted control stream over an arbitrary transport. */
module CryptoStreams {
  import opened Bytes
  import opened CfbSpec
  import opened CfbCipher
  import opened Transport

  /** The guard of `CryptoStream.Valid`. It is not `Open`, so that looking inside a
      stream does not look inside its ciphers as well. */
  ghost predicate Inside(k: nat) {
    true
  }

  datatype Unsent = Unsent(bytes: seq<byte>, off: nat)

  /** What the peer sees of a plaintext: the initial vector, then ciphertext. */
  function Wire(enc: BlockFn, iv: Block, plain: seq<byte>): (w: seq<byte>)
    ensures |w| == 16 + |plain|
  {
    iv + Encrypt(enc, iv, plain)
  }

  /** What a byte string from the peer means. */
  function Plain(enc: BlockFn, wire: seq<byte>): (p: seq<byte>)
    ensures |p| == if |wire| < 16 then 0 else |wire| - 16
  {
    if |wire| < 16 then [] else Decrypt(enc, wire[..16], wire[16..])
  }

  class CryptoStream {
    const inner: Inner
    /** AES-128 under the derived keys. */
    const key: BlockFn
    const writeKey: Option<BlockFn>

    var ivRead: nat
    var ivBuf: Block
    var dec: Cfb?

    const iv: Block
    var ivWritten: nat
    var enc: Cfb?
    var pending: Option<Unsent>

    /** All plaintext handed to the reader, and all plaintext taken from the
        writer, in order. */
    ghost var delivered: seq<byte>
    ghost var sent: seq<byte>

    ghost function Repr(): set<object>
      reads this
    {
      {this, inner} + (if dec == null then {} else {dec}) + (if enc == null then {} else {enc})
    }

    ghost function WriteFn(): BlockFn {
      if writeKey.Some? then writeKey.value else key
    }

    ghost predicate ReadSide()
      reads this, Repr()
    {
      var inc := inner.incoming;
      && inner.Valid()
      && (dec == null ==>
            && inner.taken == ivRead <= 16
            && ivBuf[..ivRead] == inc[..ivRead]
            && delivered == [])
      && (dec != null ==>
            && dec.Valid() && dec.decrypt && dec.enc == key
            && 16 <= inner.taken && dec.iv == inc[..16]
            && dec.fed == inc[16..inner.taken]
            && delivered == dec.produced)
    }

    ghost predicate WriteSide()
      reads this, Repr()
    {
      && (enc == null ==>
            && pending.None? && ivWritten <= 16
            && inner.outbox == iv[..ivWritten]
            && sent == [])
      && (enc != null ==>
            && enc.Valid() && !enc.decrypt && enc.enc == WriteFn() && enc.iv == iv
            && enc.fed == sent
            && (pending.Some? ==> pending.value.off <= |pending.value.bytes|)
            && inner.outbox + Left() == iv + enc.produced)
    }

    /** Ciphertext produced but not yet accepted by the transport. */
    ghost function Left(): seq<byte>
      reads this
      requires pending.Some? ==> pending.value.off <= |pending.value.bytes|
    {
      if pending.None? then [] else pending.value.bytes[pending.value.off..]
    }

    ghost predicate Sides()
      reads this, Repr()
    {
      && ReadSide() && WriteSide()
      && (dec != null && enc != null ==> dec != enc)
    }

    /** `Sides()`, which the verifier opens only where `Inside` is mentioned. */
    ghost predicate Valid()
      reads this, Repr()
    {
      && inner.Valid()
      && forall k: nat {:trigger Inside(k)} | Inside(k) :: Sides()
    }

    constructor (inner: Inner, key: BlockFn, writeKey: Option<BlockFn>, iv: Block)
      requires inner.Valid() && inner.taken == 0 && inner.outbox == []
      ensures Valid() && delivered == [] && sent == [] && pending.None?
      ensures dec == null && enc == null
      ensures this.inner == inner && this.key == key && this.writeKey == writeKey && this.iv == iv
    {
      this.inner, this.key, this.writeKey, this.iv := inner, key, writeKey, iv;
      ivRead, ivBuf, dec := 0, seq(16, _ => 0), null;
      ivWritten, enc, pending := 0, null, None;
      delivered, sent := [], [];
    }

    /** The bytes on the wire are a prefix of the initial vector followed by the
        encryption of everything written so far: nothing is encrypted twice,
        skipped or reordered. */
    lemma WireIsPrefix()
      requires Valid()
      ensures inner.outbox <= Wire(WriteFn(), iv, sent)
      ensures (enc != null || sent != []) && pending.None? ==> inner.outbox == Wire(WriteFn(), iv, sent)
    {
      assert Inside(0);
      if enc != null {
        enc.Outputs();
        assert inner.outbox <= inner.outbox + Left();
      }
    }

    /** The reader has received exactly the decryption of the bytes that arrived,
        and nothing before sixteen of them had. */
    lemma DeliveredIsPlain()
      requires Valid()
      ensures delivered == Plain(key, inner.incoming[..inner.taken])
    {
      assert Inside(0);
      var got := inner.incoming[..inner.taken];
      if dec != null {
        dec.Outputs();
        assert got[..16] == dec.iv && got[16..] == dec.fed;
      } else if |got| == 16 {
        assert got[16..] == [];
      }
    }

    /** One poll for the rest of the peer's initial vector. */
    method ReadIvChunk() returns (r: IoPoll<()>)
      requires Valid() && dec == null && ivRead < 16
      modifies this`ivRead, this`ivBuf, inner`clock, inner`taken, inner`faulted
      ensures Valid() && ivRead <= 16
      ensures r.Ready? ==> old(ivRead) < ivRead
      ensures old(inner.clock) < inner.clock && (r.Failed? ==> inner.faulted)
      ensures old(inner.taken) <= inner.taken && (r.Pending? ==> inner.NothingRead())
    {
      assert Inside(0);
      var tmp := new ReadBuf(16 - ivRead);
      r := inner.PollRead(tmp);
      var n := tmp.filled;
      if r.Ready? && n == 0 {
        r := Failed;
      } else if r.Ready? {
        assert tmp.data[..n] == tmp.Filled() == inner.incoming[ivRead..ivRead + n];
        Splice(ivBuf, ivRead, tmp.data[..n], inner.incoming);
        ivBuf := ivBuf[..ivRead] + tmp.data[..n] + ivBuf[ivRead + n..];
        ivRead := ivRead + n;
      }
    }

    method ReadIv() returns (r: IoPoll<()>)
      requires Valid() && dec == null
      modifies this`ivRead, this`ivBuf, this`dec, inner`clock, inner`taken, inner`faulted
      ensures Valid() && (dec != null ==> fresh(dec) && dec != enc)
      ensures r.Ready? <==> dec != null
      ensures old(inner.taken) <= inner.taken
      ensures old(inner.clock) <= inner.clock && (r.Failed? ==> inner.faulted)
      ensures !r.Ready? ==> old(inner.clock) < inner.clock
      ensures r.Pending? ==> inner.NothingRead()
    {
      while ivRead < 16
        invariant Valid() && dec == null && old(inner.taken) <= inner.taken
        invariant old(inner.clock) <= inner.clock
        decreases 16 - ivRead
      {
        r := ReadIvChunk();
        if !r.Ready? {
          return;
        }
      }
      StartDecrypting();
      r := Ready(());
    }

    method StartDecrypting()
      requires Valid() && dec == null && ivRead >= 16
      modifies this`dec
      ensures Valid() && dec != null && fresh(dec) && dec != enc
    {
      assert Inside(0);
      assert ivBuf[..16] == ivBuf;
      dec := new Cfb(key, ivBuf, true);
      dec.Outputs();
      assert inner.incoming[16..inner.taken] == [];
    }

    method PollRead(buf: ReadBuf) returns (r: IoPoll<()>)
      requires Valid() && buf.Valid() && buf !in Repr()
      modifies Repr(), buf`filled, buf.data
      ensures Valid() && buf.Valid() && fresh(Repr() - old(Repr()))
      ensures sent == old(sent) && pending == old(pending) && inner.outbox == old(inner.outbox)
      ensures old(inner.taken) <= inner.taken
      ensures old(delivered) <= delivered
      ensures buf.Filled() == old(buf.Filled()) + delivered[|old(delivered)|..]
      ensures !r.Ready? ==> delivered == old(delivered)
      ensures old(inner.clock) < inner.clock
      ensures r.Failed? || (r.Ready? && delivered == old(delivered) && buf.filled < buf.data.Length) ==> inner.faulted
      ensures r.Pending? ==> inner.NothingRead()
    {
      if dec == null {
        r := ReadIv();
        if dec == null {
          return;
        }
      }
      r := ReadOn(buf);
    }

    method ReadOn(buf: ReadBuf) returns (r: IoPoll<()>)
      requires Valid() && buf.Valid() && buf !in Repr() && dec != null
      modifies dec, this`delivered, inner`clock, inner`taken, inner`faulted, buf`filled, buf.data
      ensures Valid() && buf.Valid()
      ensures old(inner.taken) <= inner.taken
      ensures old(delivered) <= delivered
      ensures buf.Filled() == old(buf.Filled()) + delivered[|old(delivered)|..]
      ensures !r.Ready? ==> delivered == old(delivered)
      ensures old(inner.clock) < inner.clock
      ensures r.Failed? || (r.Ready? && delivered == old(delivered) && buf.filled < buf.data.Length) ==> inner.faulted
      ensures r.Pending? ==> inner.NothingRead()
    {
      assert Inside(0);
      var before := buf.filled;
      ghost var was := inner.taken;
      r := inner.PollRead(buf);
      if r.Ready? && before < buf.filled {
        ghost var got := inner.incoming[was..inner.taken];
        assert buf.data[..][before..buf.filled] == got;
        dec.Apply(buf.data, before, buf.filled);
        JoinSlices(inner.incoming, 16, was, inner.taken);
        delivered := dec.produced;
      }
    }

    /** A transport that is ready and takes nothing keeps the loop going. The run is
        then cut after `idle` such answers, which a productive one never gives. */
    method WriteIv(idle: nat) returns (r: IoPoll<()>, cut: bool)
      requires Valid() && enc == null
      modifies this`ivWritten, this`enc, inner`clock, inner`outbox, inner`faulted
      ensures Valid() && (enc != null ==> fresh(enc) && enc != dec)
      ensures r.Ready? <==> enc != null
      ensures old(inner.outbox) <= inner.outbox
      ensures old(inner.clock) <= inner.clock && (r.Failed? ==> inner.faulted)
      ensures !r.Ready? ==> old(inner.clock) < inner.clock
      ensures cut ==> r.Pending? && !inner.Productive() && inner.clock >= old(inner.clock) + idle
      ensures r.Pending? && !cut ==> inner.RefusedWrite()
      ensures r.Failed? ==> !Reliable(inner.writeReply, inner.readReply)
    {
      var left := idle;
      cut := false;
      while ivWritten < 16
        invariant Valid() && enc == null && old(inner.outbox) <= inner.outbox && !cut
        invariant 0 <= left <= idle && inner.clock >= old(inner.clock) + (idle - left)
        decreases 16 - ivWritten, left
      {
        var n := WriteIvSome();
        if !n.Ready? {
          r := if n.Failed? then Failed else Pending;
          return;
        }
        if n.value == 0 {
          if left == 0 {
            return Pending, true;
          }
          left := left - 1;
        }
      }
      StartEncrypting();
      r := Ready(());
    }

    /** One write of the rest of the initial vector. */
    method WriteIvSome() returns (r: IoPoll<nat>)
      requires Valid() && enc == null && ivWritten < 16
      modifies this`ivWritten, inner`clock, inner`outbox, inner`faulted
      ensures Valid() && old(inner.outbox) <= inner.outbox
      ensures inner.clock == old(inner.clock) + 1 && (r.Failed? ==> inner.faulted)
      ensures r.Ready? ==> ivWritten == old(ivWritten) + r.value <= 16
      ensures r.Ready? && inner.Productive() ==> r.value > 0
      ensures r.Pending? ==> inner.RefusedWrite()
      ensures r.Failed? ==> !Reliable(inner.writeReply, inner.readReply)
    {
      assert Inside(0);
      r := inner.PollWrite(iv[ivWritten..]);
      if r.Ready? {
        assert iv[..ivWritten] + iv[ivWritten..][..r.value] == iv[..ivWritten + r.value];
        ivWritten := ivWritten + r.value;
      }
    }

    method StartEncrypting()
      requires Valid() && enc == null && ivWritten >= 16
      modifies this`enc
      ensures Valid() && enc != null && fresh(enc) && enc != dec
    {
      assert Inside(0);
      assert iv[..16] == iv;
      enc := new Cfb(if writeKey.Some? then writeKey.value else key, iv, false);
      enc.Outputs();
    }

    /** The caller's buffer is encrypted once, when nothing is waiting; a poll
        that finds ciphertext waiting only moves that on. */
    method PollWrite(buf: seq<byte>, idle: nat) returns (r: IoPoll<nat>, cut: bool)
      requires Valid()
      modifies Repr()
      ensures Valid() && fresh(Repr() - old(Repr()))
      ensures delivered == old(delivered) && inner.taken == old(inner.taken)
      ensures old(inner.outbox) <= inner.outbox
      ensures r.Failed? ==> inner.faulted
      ensures !r.Ready? ==> old(inner.clock) < inner.clock
      ensures old(inner.clock) <= inner.clock
      ensures old(pending).Some? ==> sent == old(sent)
      ensures old(pending).None? ==> sent == old(sent) || sent == old(sent) + buf
      ensures r.Ready? ==> pending.None? && enc != null
      ensures r.Ready? && old(pending).None? ==> sent == old(sent) + buf && r.value == |buf|
      ensures r.Ready? && old(pending).Some? ==> r.value == |old(pending).value.bytes|
      ensures !r.Ready? && pending.None? ==> sent == old(sent)
      ensures !r.Ready? && pending.Some? && old(pending).None? ==>
                sent == old(sent) + buf && |pending.value.bytes| == |buf|
      ensures !r.Ready? && old(pending).Some? ==>
                pending.Some? && |pending.value.bytes| == |old(pending).value.bytes|
      ensures cut ==> r.Pending? && !inner.Productive() && inner.clock >= old(inner.clock) + idle
      ensures r.Pending? && !cut ==> inner.RefusedWrite()
      ensures r.Failed? ==> !Reliable(inner.writeReply, inner.readReply)
    {
      assert Inside(0);
      if enc == null {
        var w;
        w, cut := WriteIv(idle);
        if enc == null {
          r := if w.Failed? then Failed else Pending;
          return;
        }
      }
      if pending.None? {
        Latch(buf);
      }
      r, cut := Drain(idle);
    }

    method Latch(buf: seq<byte>)
      requires Valid() && enc != null && pending.None?
      modifies this`pending, this`sent, enc
      ensures Valid() && sent == old(sent) + buf
      ensures pending.Some? && |pending.value.bytes| == |buf|
    {
      assert Inside(0);
      ghost var produced0 := enc.produced;
      var out := FeedChunk(enc, buf);
      assert inner.outbox + [] == inner.outbox;
      assert inner.outbox + out == iv + (produced0 + out);
      pending := Some(Unsent(out, 0));
      assert pending.value.bytes[0..] == out;
      sent := sent + buf;
    }

    method Drain(idle: nat) returns (r: IoPoll<nat>, cut: bool)
      requires Valid() && enc != null && pending.Some?
      modifies this`pending, inner`clock, inner`outbox, inner`faulted
      ensures Valid() && old(inner.outbox) <= inner.outbox
      ensures old(inner.clock) <= inner.clock && (r.Failed? ==> inner.faulted)
      ensures !r.Ready? ==> old(inner.clock) < inner.clock
      ensures r.Ready? ==> pending.None? && r.value == |old(pending).value.bytes|
      ensures !r.Ready? ==> pending.Some? && |pending.value.bytes| == |old(pending).value.bytes|
      ensures cut ==> r.Pending? && !inner.Productive() && inner.clock >= old(inner.clock) + idle
      ensures r.Pending? && !cut ==> inner.RefusedWrite()
      ensures r.Failed? ==> !Reliable(inner.writeReply, inner.readReply)
    {
      var len, left := |pending.value.bytes|, idle;
      cut := false;
      while pending.value.off < len
        invariant Valid() && pending.Some? && pending.value.bytes == old(pending).value.bytes && !cut
        invariant old(inner.outbox) <= inner.outbox
        invariant 0 <= left <= idle && inner.clock >= old(inner.clock) + (idle - left)
        decreases len - pending.value.off, left
      {
        r := DrainSome();
        if !r.Ready? {
          return;
        }
        if r.value == 0 {
          if left == 0 {
            return Pending, true;
          }
          left := left - 1;
        }
      }
      Forget();
      r := Ready(len);
    }

    /** One write of what is waiting. */
    method DrainSome() returns (r: IoPoll<nat>)
      requires Valid() && enc != null && pending.Some?
      requires pending.value.off < |pending.value.bytes|
      modifies this`pending, inner`clock, inner`outbox, inner`faulted
      ensures Valid() && old(inner.outbox) <= inner.outbox
      ensures inner.clock == old(inner.clock) + 1 && (r.Failed? ==> inner.faulted)
      ensures pending.Some? && pending.value.bytes == old(pending).value.bytes
      ensures r.Ready? ==> pending.value.off == old(pending).value.off + r.value <= |pending.value.bytes|
      ensures r.Ready? && inner.Productive() ==> r.value > 0
      ensures r.Pending? ==> inner.RefusedWrite()
      ensures r.Failed? ==> !Reliable(inner.writeReply, inner.readReply)
    {
      assert Inside(0);
      var off := pending.value.off;
      ghost var before := inner.outbox;
      r := inner.PollWrite(pending.value.bytes[off..]);
      if r.Ready? {
        MoveOn(before, pending.value.bytes, off, r.value);
        pending := Some(Unsent(pending.value.bytes, off + r.value));
      }
    }

    method Forget()
      requires Valid() && enc != null && pending.Some? && pending.value.off >= |pending.value.bytes|
      modifies this`pending
      ensures Valid() && pending.None?
    {
      assert Inside(0);
      assert pending.value.bytes[pending.value.off..] == [];
      pending := None;
    }
  }

  lemma Splice(buf: Block, at: nat, got: seq<byte>, incoming: seq<byte>)
    requires at + |got| <= 16 && at + |got| <= |incoming|
    requires buf[..at] == incoming[..at] && got == incoming[at..at + |got|]
    ensures var b := buf[..at] + got + buf[at + |got|..];
            |b| == 16 && b[..at + |got|] == incoming[..at + |got|]
  {
  }

  lemma JoinSlices(s: seq<byte>, a: nat, b: nat, c: nat)
    requires a <= b <= c <= |s|
    ensures s[a..c] == s[a..b] + s[b..c]
  {
  }

  lemma MoveOn(outbox: seq<byte>, bytes: seq<byte>, off: nat, k: nat)
    requires off + k <= |bytes|
    ensures outbox + bytes[off..] == (outbox + bytes[off..][..k]) + bytes[off + k..]
  {
  }
}
