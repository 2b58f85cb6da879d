/** Frames written to and read from an encrypted stream, and the two ends of a
    connection put together. */
module FrameIo {
  import opened Bytes
  import opened CfbSpec
  import opened Transport
  import opened CryptoStreams
  import opened Frames

  /** The transport of a stream answers every poll at once, and no poll fails. */
  ghost predicate Ideal(s: CryptoStream)
    reads s
  {
    IdealReplies(s.inner.writeReply, s.inner.readReply)
  }

  method WriteAll(s: CryptoStream, buf: seq<byte>, polls: nat) returns (o: Outcome)
    requires s.Valid() && s.pending.None?
    modifies s.Repr()
    ensures s.Valid() && fresh(s.Repr() - old(s.Repr()))
    ensures s.delivered == old(s.delivered)
    ensures s.sent == old(s.sent) || s.sent == old(s.sent) + buf
    ensures o.Done? ==> s.sent == old(s.sent) + buf && s.pending.None?
    ensures o.Broken? ==> s.inner.faulted
    ensures o.Stalled? ==> s.inner.clock >= old(s.inner.clock) + polls
    ensures Ideal(s) && polls > 0 ==> o.Done?
  {
    var rest := buf;
    var left := polls;
    assert s.sent + [] == s.sent;
    while rest != []
      invariant s.Valid() && fresh(s.Repr() - old(s.Repr())) && s.delivered == old(s.delivered)
      invariant rest == buf || rest == []
      invariant rest == [] ==> s.sent == old(s.sent) + buf && s.pending.None?
      invariant rest != [] && s.pending.None? ==> s.sent == old(s.sent)
      invariant rest != [] && s.pending.Some? ==>
                  s.sent == old(s.sent) + buf && |s.pending.value.bytes| == |buf|
      invariant rest != [] ==> s.inner.clock + left >= old(s.inner.clock) + polls
      invariant rest != [] && Ideal(s) ==> left == polls
      decreases left
    {
      if left == 0 {
        return Stalled;
      }
      left := left - 1;
      var r, cut := s.PollWrite(rest, left + 1);
      if cut {
        return Stalled;
      }
      match r
      case Ready(n) =>
        if n == 0 {
          return Broken;
        }
        rest := rest[n..];
      case Failed => return Broken;
      case Pending =>
    }
    return Done;
  }

  /** An oversized body is refused before anything is written. */
  method WriteFrame(s: CryptoStream, f: Frame, polls: nat) returns (o: Outcome)
    requires s.Valid() && s.pending.None?
    modifies s.Repr()
    ensures s.Valid() && fresh(s.Repr() - old(s.Repr()))
    ensures s.delivered == old(s.delivered)
    ensures s.sent == old(s.sent) || (Fits(f) && s.sent == old(s.sent) + Encode(f))
    ensures o.Done? ==> Fits(f) && s.sent == old(s.sent) + Encode(f) && s.pending.None?
    ensures o.Broken? && Fits(f) ==> s.inner.faulted
    ensures o.Stalled? ==> s.inner.clock >= old(s.inner.clock) + polls
    ensures !Fits(f) ==> o.Broken? && s.inner.outbox == old(s.inner.outbox)
    ensures Ideal(s) && polls > 0 && Fits(f) ==> o.Done?
  {
    if |f.body| > MAX_MSG_LEN {
      return Broken;
    }
    var buf: seq<byte> := [f.typeByte] + ToBe(|f.body|, 8) + f.body;
    o := WriteAll(s, buf, polls);
  }

  /** The writer task: frames in order, until one fails or the run is cut. `k`
      frames were encrypted, all of them admissible. */
  method SendFrames(s: CryptoStream, fs: seq<Frame>, polls: nat -> nat) returns (o: Outcome, ghost k: nat)
    requires s.Valid() && s.pending.None? && s.sent == []
    modifies s.Repr()
    ensures s.Valid() && fresh(s.Repr() - old(s.Repr()))
    ensures k <= |fs| && s.sent == EncodeAll(fs[..k])
    ensures forall f | f in fs[..k] :: Fits(f)
    ensures o.Done? ==> k == |fs| && s.pending.None?
    ensures Ideal(s) && (forall i: nat :: polls(i) > 0) && (forall f | f in fs :: Fits(f)) ==> o.Done?
  {
    var i := 0;
    k := 0;
    while i < |fs|
      invariant k == i <= |fs| && s.Valid() && s.pending.None? && fresh(s.Repr() - old(s.Repr()))
      invariant s.sent == EncodeAll(fs[..k]) && forall f | f in fs[..k] :: Fits(f)
    {
      EncodeAllSnoc(fs, i);
      ghost var before := s.sent;
      o := WriteFrame(s, fs[i], polls(i));
      if !o.Done? {
        k := if s.sent != before then i + 1 else i;
        return;
      }
      i := i + 1;
      k := i;
    }
    o := Done;
  }

  /** `read_exact`: an empty read is end of file. */
  method ReadExact(s: CryptoStream, n: nat, polls: nat) returns (o: Outcome, bytes: seq<byte>)
    requires s.Valid()
    modifies s.Repr()
    ensures s.Valid() && fresh(s.Repr() - old(s.Repr()))
    ensures s.sent == old(s.sent) && s.pending == old(s.pending)
    ensures s.delivered == old(s.delivered) + bytes && |bytes| <= n
    ensures o.Done? <==> |bytes| == n
    ensures o.Broken? ==> s.inner.faulted
    ensures o.Stalled? ==> s.inner.clock >= old(s.inner.clock) + polls
    ensures s.inner.clock >= old(s.inner.clock)
    ensures Ideal(s) && polls >= n ==> !o.Stalled?
  {
    var buf := new ReadBuf(n);
    var left := polls;
    while buf.filled < n
      invariant s.Valid() && buf.Valid() && fresh(s.Repr() - old(s.Repr()))
      invariant buf !in s.Repr() && fresh(buf) && fresh(buf.data)
      invariant s.sent == old(s.sent) && s.pending == old(s.pending)
      invariant s.delivered == old(s.delivered) + buf.Filled()
      invariant s.inner.clock + left >= old(s.inner.clock) + polls && 0 <= left <= polls
      invariant Ideal(s) ==> polls - left <= buf.filled
      decreases left
    {
      if left == 0 {
        return Stalled, buf.data[..buf.filled];
      }
      left := left - 1;
      var before := buf.filled;
      ghost var had, were := buf.Filled(), s.delivered;
      var r := s.PollRead(buf);
      assert s.delivered == were + s.delivered[|were|..];
      if r.Failed? || (r.Ready? && buf.filled == before) {
        return Broken, buf.data[..buf.filled];
      }
    }
    return Done, buf.data[..n];
  }

  datatype ReadResult = Read(frame: Frame) | OutOfRange(len: int) | Ended(outcome: Outcome)

  lemma Behind(a: seq<byte>, b: seq<byte>)
    ensures (a + b)[|a|..] == b && a <= a + b
  {
  }

  /** A frame is returned exactly when its whole encoding was consumed. */
  method ReadFrame(s: CryptoStream, polls: nat) returns (r: ReadResult)
    requires s.Valid()
    modifies s.Repr()
    ensures s.Valid() && fresh(s.Repr() - old(s.Repr()))
    ensures s.sent == old(s.sent) && s.pending == old(s.pending)
    ensures old(s.delivered) <= s.delivered
    ensures var got := s.delivered[|old(s.delivered)|..];
            match r
            case Read(f) => Fits(f) && got == Encode(f)
            case OutOfRange(len) => Parse(got) == BadLength(len)
            case Ended(_) => Parse(got) == Short
    ensures r.Ended? ==> r.outcome.Broken? || r.outcome.Stalled?
    ensures r.Ended? && r.outcome.Broken? ==> s.inner.faulted
    ensures r.Ended? && r.outcome.Stalled? ==> s.inner.clock >= old(s.inner.clock) + polls
    ensures Ideal(s) && polls >= MAX_MSG_LEN ==> r != Ended(Stalled)
  {
    var o, tb := ReadExact(s, 1, polls);
    ghost var d0 := old(s.delivered);
    Behind(d0, tb);
    if !o.Done? {
      return Ended(o);
    }
    var lb;
    o, lb := ReadExact(s, 8, polls);
    Regroup(d0, tb, lb);
    Behind(d0, tb + lb);
    if !o.Done? {
      return Ended(o);
    }
    assert (tb + lb)[1..9] == lb;
    var len := I64FromBe(lb);
    if len < 0 || len > MAX_MSG_LEN {
      return OutOfRange(len);
    }
    var body;
    o, body := ReadExact(s, len, polls);
    Regroup(d0, tb + lb, body);
    Behind(d0, tb + lb + body);
    if !o.Done? {
      assert (tb + lb + body)[1..9] == lb;
      return Ended(o);
    }
    EncodeOfParts(tb, lb, body);
    return Read(Frame(tb[0], body));
  }

  /** One more frame behind those read so far. */
  method ReceiveOne(s: CryptoStream, ghost fs: seq<Frame>, polls: nat) returns (r: ReadResult)
    requires s.Valid() && s.delivered == EncodeAll(fs) && forall f | f in fs :: Fits(f)
    modifies s.Repr()
    ensures s.Valid() && fresh(s.Repr() - old(s.Repr()))
    ensures r.Read? ==> Fits(r.frame) && s.delivered == EncodeAll(fs + [r.frame])
    ensures !r.Read? ==> ParseAll(s.delivered) == fs
    ensures r.OutOfRange? ==> StopsAtBadLength(s.delivered, fs)
    ensures r.Ended? ==> r.outcome.Broken? || r.outcome.Stalled?
    ensures r == Ended(Broken) ==> s.inner.faulted
    ensures Ideal(s) && polls >= MAX_MSG_LEN ==> r != Ended(Stalled)
  {
    ghost var before := s.delivered;
    r := ReadFrame(s, polls);
    ghost var got := s.delivered[|before|..];
    assert s.delivered == before + got;
    if r.Read? {
      OneMore(fs, r.frame);
    } else {
      AllRead(fs, got);
    }
  }

  /** The reader task: frames until one cannot be read or there are `limit` of
      them. What it returns is all that the delivered plaintext holds. */
  method ReceiveFrames(s: CryptoStream, polls: nat -> nat, limit: nat)
    returns (fs: seq<Frame>, last: Option<ReadResult>)
    requires s.Valid() && s.delivered == []
    modifies s.Repr()
    ensures s.Valid() && fresh(s.Repr() - old(s.Repr()))
    ensures fs == ParseAll(s.delivered)
    ensures last.None? ==> |fs| == limit
    ensures last.Some? && last.value.Ended? ==> last.value.outcome.Broken? || last.value.outcome.Stalled?
    ensures last == Some(Ended(Broken)) ==> s.inner.faulted
    ensures last.Some? ==> !last.value.Read?
    ensures last.Some? && last.value.OutOfRange? ==> StopsAtBadLength(s.delivered, fs)
    ensures forall f | f in fs :: Fits(f)
    ensures Ideal(s) && (forall i: nat :: polls(i) >= MAX_MSG_LEN) ==> last != Some(Ended(Stalled))
  {
    fs := [];
    last := None;
    var i := 0;
    while i < limit
      invariant s.Valid() && fresh(s.Repr() - old(s.Repr()))
      invariant forall f | f in fs :: Fits(f)
      invariant s.delivered == EncodeAll(fs) && last == None && |fs| == i <= limit
    {
      var r := ReceiveOne(s, fs, polls(i));
      if !r.Read? {
        return fs, Some(r);
      }
      fs := fs + [r.frame];
      i := i + 1;
    }
    AllRead(fs, []);
    assert EncodeAll(fs) + [] == s.delivered;
  }

  lemma OneMore(fs: seq<Frame>, f: Frame)
    ensures EncodeAll(fs + [f]) == EncodeAll(fs) + Encode(f)
  {
    EncodeAllAppend(fs, [f]);
    assert EncodeAll([f]) == Encode(f) + EncodeAll([]);
  }

  lemma AllRead(fs: seq<Frame>, got: seq<byte>)
    requires forall f | f in fs :: Fits(f)
    requires Parse(got).Short? || Parse(got).BadLength?
    ensures ParseAll(EncodeAll(fs) + got) == fs
  {
    ParseAllAppend(fs, got);
    assert fs + [] == fs;
  }

  /** Both ends together, in terms of bytes: whatever prefix of the sender's wire
      reaches the reader decrypts to a prefix of the plaintext. */
  lemma PlainOfWirePrefix(enc: BlockFn, iv: Block, plain: seq<byte>, arrived: seq<byte>)
    requires arrived <= Wire(enc, iv, plain)
    ensures Plain(enc, arrived) <= plain
    ensures arrived == Wire(enc, iv, plain) ==> Plain(enc, arrived) == plain
  {
    if |arrived| >= 16 {
      var c := Encrypt(enc, iv, plain);
      HeadAndBody(iv, c, arrived);
      DecryptPrefix(enc, iv, arrived[16..], c);
      DecryptEncrypt(enc, iv, plain);
    }
  }

  lemma HeadAndBody(iv: Block, c: seq<byte>, arrived: seq<byte>)
    requires arrived <= iv + c && |arrived| >= 16
    ensures arrived[..16] == iv && arrived[16..] <= c
    ensures arrived == iv + c ==> arrived[16..] == c
  {
    assert arrived[..16] == (iv + c)[..16];
    assert arrived[16..] == c[..|arrived| - 16];
  }

  lemma DecryptPrefix(enc: BlockFn, iv: Block, d: seq<byte>, c: seq<byte>)
    requires d <= c
    ensures Decrypt(enc, iv, d) <= Decrypt(enc, iv, c)
  {
    assert d + c[|d|..] == c;
    TransformPrefix(enc, iv, true, d, c[|d|..]);
  }

  /** The end-to-end law of the control channel. `k` frames were written;
      `outbox` is what the sender's transport accepted of them and `arrived` what
      of that has reached the receiver. The receiver's frames are then a prefix
      of the frames written, and all of them once everything arrived. */
  lemma EndToEnd(enc: BlockFn, iv: Block, fs: seq<Frame>, k: nat, outbox: seq<byte>, arrived: seq<byte>)
    requires k <= |fs| && forall f | f in fs[..k] :: Fits(f)
    requires outbox <= Wire(enc, iv, EncodeAll(fs[..k])) && arrived <= outbox
    ensures ParseAll(Plain(enc, arrived)) <= fs[..k] <= fs
    ensures !Parse(Plain(enc, arrived)).BadLength?
    ensures arrived == Wire(enc, iv, EncodeAll(fs[..k])) ==> ParseAll(Plain(enc, arrived)) == fs[..k]
  {
    PlainOfWirePrefix(enc, iv, EncodeAll(fs[..k]), arrived);
    PrefixOfFrames(fs[..k], Plain(enc, arrived));
  }

  lemma CommonPrefix(a: seq<byte>, b: seq<byte>, c: seq<byte>)
    requires a + b <= a + c
    ensures b <= c
  {
    assert b == (a + b)[|a|..] && c == (a + c)[|a|..];
    assert b == c[..|b|];
  }

  /** Nor does the reader ever meet a length out of range. */
  lemma NeverOutOfRange(fs: seq<Frame>, got: seq<Frame>, seen: seq<byte>, rest: seq<byte>)
    requires forall f | f in fs :: Fits(f)
    requires got <= fs && seen <= EncodeAll(fs) && seen == EncodeAll(got) + rest
    ensures !Parse(rest).BadLength?
  {
    var todo := fs[|got|..];
    EncodeAllAppend(got, todo);
    assert got + todo == fs;
    CommonPrefix(EncodeAll(got), rest, EncodeAll(todo));
    PrefixOfFrames(todo, rest);
  }

  /** A whole connection: one side sends `fs`, the network passes on any part of
      what was accepted, the other side reads. Every reply of both transports and
      every cut of the run is arbitrary. The reader only ever depends on the
      bytes handed to it, so fixing the sender's part first loses no
      interleaving. When the sender finished, everything got through and no poll
      failed, a reader that did not stall has every frame; and if every poll is
      answered at once and each operation may poll often enough, it has them. */
  method Relay(enc: BlockFn, iv: Block, other: Block, fs: seq<Frame>,
               writeReply: nat -> WriteReply, readReply: nat -> ReadReply,
               sendPolls: nat -> nat, readPolls: nat -> nat, through: nat, limit: nat)
    returns (got: seq<Frame>, sent: Outcome, last: Option<ReadResult>)
    ensures got <= fs
    ensures last.None? || last.value.Ended?
    ensures Reliable(writeReply, readReply) && sent.Done? && through >= 16 + |EncodeAll(fs)| ==>
              limit >= |fs| && last != Some(Ended(Stalled)) ==> got == fs
    ensures IdealReplies(writeReply, readReply) && (forall f | f in fs :: Fits(f)) ==>
              (forall i: nat :: sendPolls(i) > 0 && readPolls(i) >= MAX_MSG_LEN) ==>
              through >= 16 + |EncodeAll(fs)| && limit >= |fs| ==> got == fs
  {
    var outbox;
    ghost var k, seen;
    sent, outbox, k := SendSide(enc, iv, fs, writeReply, readReply, sendPolls);
    var arrived := outbox[..Min(through, |outbox|)];
    got, last, seen := ReceiveSide(enc, other, arrived, writeReply, readReply, readPolls, limit);
    EndToEnd(enc, iv, fs, k, outbox, arrived[..seen]);
    if last.Some? && last.value.OutOfRange? {
      NoBadLength(enc, iv, fs[..k], arrived[..seen], got);
    }
    assert fs[..|fs|] == fs;
  }

  /** The receiving half: `seen` bytes were taken when the run is cut. */
  method ReceiveSide(enc: BlockFn, iv: Block, arrived: seq<byte>,
                     writeReply: nat -> WriteReply, readReply: nat -> ReadReply, polls: nat -> nat, limit: nat)
    returns (got: seq<Frame>, last: Option<ReadResult>, ghost seen: nat)
    ensures seen <= |arrived| && got == ParseAll(Plain(enc, arrived[..seen]))
    ensures last.None? ==> |got| == limit
    ensures last.Some? ==> !last.value.Read?
    ensures last.Some? && last.value.Ended? ==> last.value.outcome.Broken? || last.value.outcome.Stalled?
    ensures last == Some(Ended(Broken)) && Reliable(writeReply, readReply) ==> seen == |arrived|
    ensures last.Some? && last.value.OutOfRange? ==> StopsAtBadLength(Plain(enc, arrived[..seen]), got)
    ensures IdealReplies(writeReply, readReply) && (forall i: nat :: polls(i) >= MAX_MSG_LEN) ==>
              last != Some(Ended(Stalled))
  {
    var right := new Inner(writeReply, readReply, arrived);
    var receiver := new CryptoStream(right, enc, None, iv);
    got, last := ReceiveFrames(receiver, polls, limit);
    receiver.DeliveredIsPlain();
    seen := right.taken;
  }

  ghost predicate StopsAtBadLength(plain: seq<byte>, got: seq<Frame>) {
    exists rest :: plain == EncodeAll(got) + rest && Parse(rest).BadLength?
  }

  lemma NoBadLength(enc: BlockFn, iv: Block, fs: seq<Frame>, seen: seq<byte>, got: seq<Frame>)
    requires forall f | f in fs :: Fits(f)
    requires seen <= Wire(enc, iv, EncodeAll(fs)) && got <= fs
    ensures !StopsAtBadLength(Plain(enc, seen), got)
  {
    var plain := Plain(enc, seen);
    PlainOfWirePrefix(enc, iv, EncodeAll(fs), seen);
    if StopsAtBadLength(plain, got) {
      var rest :| plain == EncodeAll(got) + rest && Parse(rest).BadLength?;
      NeverOutOfRange(fs, got, plain, rest);
    }
  }

  /** The sending half: what its transport has accepted when the run is cut. */
  method SendSide(enc: BlockFn, iv: Block, fs: seq<Frame>,
                  writeReply: nat -> WriteReply, readReply: nat -> ReadReply, polls: nat -> nat)
    returns (o: Outcome, outbox: seq<byte>, ghost k: nat)
    ensures k <= |fs| && forall f | f in fs[..k] :: Fits(f)
    ensures outbox <= Wire(enc, iv, EncodeAll(fs[..k]))
    ensures o.Done? ==> k == |fs| && (fs != [] ==> outbox == Wire(enc, iv, EncodeAll(fs)))
    ensures IdealReplies(writeReply, readReply) && (forall i: nat :: polls(i) > 0) ==>
              (forall f | f in fs :: Fits(f)) ==> o.Done?
  {
    var left := new Inner(writeReply, readReply, []);
    var sender := new CryptoStream(left, enc, None, iv);
    o, k := SendFrames(sender, fs, polls);
    sender.WireIsPrefix();
    outbox := left.outbox;
    assert fs[..|fs|] == fs;
    assert fs != [] ==> EncodeAll(fs) != [];
  }
}
