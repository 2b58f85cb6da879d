/** TURN messages on a stream transport (section 11.5 of RFC 5766). */
module Turn {
  import opened Bytes
  import opened Transport

  datatype FrameLen = FrameLen(total: nat, isChannel: bool)

  /** The two top bits of the first byte select the framing: 0 is STUN, 1 is
      ChannelData, the others are reserved. */
  function FrameLenOf(head: seq<byte>): (r: Option<FrameLen>)
    requires |head| == 4
    ensures r.Some? ==> r.value.total >= 4
  {
    var len: nat := U16FromBe(head[2], head[3]);
    if head[0] / 64 == 0 then Some(FrameLen(20 + len, false))
    else if head[0] / 64 == 1 then Some(FrameLen(4 + len + Pad(len), true))
    else None
  }

  function MessageLen(head: seq<byte>, f: FrameLen): nat
    requires |head| == 4
  {
    if f.isChannel then 4 + U16FromBe(head[2], head[3]) else f.total
  }

  // ---- Messages.

  predicate IsStun(m: seq<byte>) {
    |m| >= 20 && m[0] / 64 == 0 && |m| == 20 + U16FromBe(m[2], m[3])
  }

  /** ChannelData, with or without its padding. */
  predicate IsChannelData(m: seq<byte>) {
    && |m| >= 4 && m[0] / 64 == 1
    && var len: nat := U16FromBe(m[2], m[3]);
       |m| == 4 + len || |m| == 4 + len + Pad(len)
  }

  predicate WellFormed(m: seq<byte>) {
    IsStun(m) || IsChannelData(m)
  }

  /** What the receiver is to be handed: the message without padding. */
  function Unpadded(m: seq<byte>): seq<byte>
    requires WellFormed(m)
  {
    if IsStun(m) then m else m[..4 + U16FromBe(m[2], m[3])]
  }

  /** What goes on the wire. */
  function Framed(m: seq<byte>): seq<byte> {
    if |m| >= 4 && m[0] / 64 == 1 then m + Zeros(Pad(|m|)) else m
  }

  function FramedAll(ms: seq<seq<byte>>): seq<byte> {
    if ms == [] then [] else Framed(ms[0]) + FramedAll(ms[1..])
  }

  // ---- Reading.

  datatype Parsed = Got(msg: seq<byte>, used: nat) | Short | Reserved | TooBig

  /** The first message of a byte string, for a receive buffer of `cap` bytes. */
  function Parse(s: seq<byte>, cap: nat): (r: Parsed)
    ensures r.Got? ==> 4 <= r.used <= |s| && |r.msg| <= r.used <= cap
  {
    if |s| < 4 then Short
    else
      var f := FrameLenOf(s[..4]);
      if f.None? then Reserved
      else if f.value.total > cap then TooBig
      else if |s| < f.value.total then Short
      else
        var n := MessageLen(s[..4], f.value);
        Got(s[..n], f.value.total)
  }

  function ParseAll(s: seq<byte>, cap: nat): seq<seq<byte>>
    decreases |s|
  {
    match Parse(s, cap)
    case Got(m, used) => [m] + ParseAll(s[used..], cap)
    case _ => []
  }

  lemma PadOfLen(len: nat)
    ensures Pad(4 + len) == Pad(len) && Pad(4 + len + Pad(len)) == 0
  {
  }

  lemma FramedShape(m: seq<byte>)
    requires WellFormed(m)
    ensures |Framed(m)| >= 4 && Framed(m)[..4] == m[..4]
    ensures FrameLenOf(m[..4]) == Some(FrameLen(|Framed(m)|, !IsStun(m)))
    ensures |Unpadded(m)| <= |Framed(m)| && Unpadded(m) == Framed(m)[..|Unpadded(m)|]
    ensures MessageLen(m[..4], FrameLen(|Framed(m)|, !IsStun(m))) == |Unpadded(m)|
  {
    if !IsStun(m) {
      ChannelDataLen(m);
    }
  }

  lemma ChannelDataLen(m: seq<byte>)
    requires IsChannelData(m)
    ensures |Framed(m)| == 4 + U16FromBe(m[2], m[3]) + Pad(U16FromBe(m[2], m[3]))
  {
    PadOfLen(U16FromBe(m[2], m[3]));
    assert |Framed(m)| == |m| + Pad(|m|);
  }

  /** A message put on the wire is read back, whatever follows it. */
  lemma ParseFramed(m: seq<byte>, rest: seq<byte>, cap: nat)
    requires WellFormed(m) && |Framed(m)| <= cap
    ensures Parse(Framed(m) + rest, cap) == Got(Unpadded(m), |Framed(m)|)
  {
    FramedShape(m);
    var s := Framed(m) + rest;
    assert s[..4] == m[..4];
    assert s[..|Unpadded(m)|] == Unpadded(m);
  }

  /** Part of a message is only waited for. */
  lemma ParsePartial(m: seq<byte>, s: seq<byte>, cap: nat)
    requires WellFormed(m) && |Framed(m)| <= cap && s < Framed(m)
    ensures Parse(s, cap) == Short
  {
    FramedShape(m);
    if |s| >= 4 {
      assert s[..4] == Framed(m)[..4];
    }
  }

  function UnpaddedAll(ms: seq<seq<byte>>): (r: seq<seq<byte>>)
    requires forall m | m in ms :: WellFormed(m)
    ensures |r| == |ms|
  {
    if ms == [] then [] else [Unpadded(ms[0])] + UnpaddedAll(ms[1..])
  }

  /** The messages read from any part of the stream that has arrived are the first
      of those sent, without their padding; all of them once all has arrived. */
  lemma {:induction false} PrefixOfMessages(ms: seq<seq<byte>>, s: seq<byte>, cap: nat)
    requires forall m | m in ms :: WellFormed(m) && |Framed(m)| <= cap
    requires s <= FramedAll(ms)
    ensures ParseAll(s, cap) <= UnpaddedAll(ms)
    ensures !Parse(s, cap).Reserved? && !Parse(s, cap).TooBig?
    ensures s == FramedAll(ms) ==> ParseAll(s, cap) == UnpaddedAll(ms)
    decreases |ms|
  {
    if ms == [] {
      assert s == [];
    } else {
      var e := Framed(ms[0]);
      if |s| < |e| {
        assert s < e by { assert s == FramedAll(ms)[..|s|] == e[..|s|]; }
        ParsePartial(ms[0], s, cap);
      } else {
        var rest := s[|e|..];
        assert s == e + rest by { assert s[..|e|] == FramedAll(ms)[..|e|] == e; }
        assert rest <= FramedAll(ms[1..]) by {
          assert FramedAll(ms)[|e|..] == FramedAll(ms[1..]);
          assert rest == FramedAll(ms)[|e|..|s|];
        }
        ParseFramed(ms[0], rest, cap);
        PrefixOfMessages(ms[1..], rest, cap);
      }
    }
  }

  // ---- The connection.

  /** Every poll is answered at once, and none fails. */
  ghost predicate Ideal(io: Inner) {
    IdealReplies(io.writeReply, io.readReply)
  }

  /** Reads until `want` bytes are there: both the exact read of the header and
      the loop that fills the caller's buffer. */
  method ReadBytes(io: Inner, want: nat, polls: nat) returns (o: Outcome, bytes: seq<byte>)
    requires io.Valid()
    modifies io
    ensures io.Valid() && old(io.taken) <= io.taken && io.outbox == old(io.outbox)
    ensures bytes == io.incoming[old(io.taken)..io.taken] && |bytes| <= want
    ensures o.Done? <==> |bytes| == want
    ensures o.Broken? ==> io.faulted
    ensures o.Stalled? ==> io.clock >= old(io.clock) + polls
    ensures Ideal(io) && polls >= want ==> !o.Stalled?
  {
    var buf := new ReadBuf(want);
    var left: nat := polls;
    ghost var t0 := io.taken;
    while buf.filled < want
      invariant io.Valid() && buf.Valid() && t0 <= io.taken && io.outbox == old(io.outbox)
      invariant buf.Filled() == io.incoming[t0..io.taken]
      invariant Ideal(io) ==> polls - left <= buf.filled
      invariant io.clock + left == old(io.clock) + polls
      decreases left
    {
      if left == 0 {
        return Stalled, buf.data[..buf.filled];
      }
      left := left - 1;
      var before := buf.filled;
      ghost var was := io.taken;
      var r := io.PollRead(buf);
      assert io.incoming[t0..io.taken] == io.incoming[t0..was] + io.incoming[was..io.taken];
      if r.Failed? || (r.Ready? && buf.filled == before) {
        return Broken, buf.data[..buf.filled];
      }
    }
    return Done, buf.data[..buf.filled];
  }

  datatype Recv = Message(n: nat) | Refused | Oversized | Ended(outcome: Outcome)

  method RecvFrom(io: Inner, buf: array<byte>, polls: nat) returns (r: Recv)
    requires io.Valid()
    modifies io, buf
    ensures io.Valid() && old(io.taken) <= io.taken && io.outbox == old(io.outbox)
    ensures var got := io.incoming[old(io.taken)..io.taken];
            match r
            case Message(n) => n <= buf.Length && Parse(got, buf.Length) == Got(buf[..n], |got|)
            case Refused => Parse(got, buf.Length).Reserved?
            case Oversized => Parse(got, buf.Length).TooBig?
            case Ended(o) => Parse(got, buf.Length).Short? && !o.Done? && (o.Broken? ==> io.faulted)
    ensures Ideal(io) && polls >= 4 && polls >= buf.Length ==> r != Ended(Stalled)
  {
    ghost var t0 := io.taken;
    var o, head := ReadBytes(io, 4, polls);
    if !o.Done? {
      return Ended(o);
    }
    assert head[..4] == head;
    var f := FrameLenOf(head);
    if f.None? {
      return Refused;
    }
    var total := f.value.total;
    if total > buf.Length {
      return Oversized;
    }
    var body;
    ghost var t1 := io.taken;
    o, body := ReadBytes(io, total - 4, polls);
    ghost var got := io.incoming[t0..io.taken];
    assert got == head + body by {
      assert got == io.incoming[t0..t1] + io.incoming[t1..io.taken];
    }
    assert got[..4] == head;
    if !o.Done? {
      return Ended(o);
    }
    var n := MessageLen(head, f.value);
    forall i | 0 <= i < total {
      buf[i] := if i < 4 then head[i] else body[i - 4];
    }
    assert buf[..total] == head + body;
    assert buf[..n] == got[..n];
    return Message(n);
  }

  method WriteAll(io: Inner, bytes: seq<byte>, polls: nat) returns (o: Outcome)
    requires io.Valid()
    modifies io
    ensures io.Valid() && io.taken == old(io.taken)
    ensures old(io.outbox) <= io.outbox <= old(io.outbox) + bytes
    ensures o.Done? <==> io.outbox == old(io.outbox) + bytes
    ensures o.Broken? ==> io.faulted
    ensures o.Stalled? ==> io.clock >= old(io.clock) + polls
    ensures io.clock >= old(io.clock)
    ensures Ideal(io) && polls >= |bytes| ==> o.Done?
  {
    var rest := bytes;
    var left: nat := polls;
    ghost var all := io.outbox + bytes;
    while rest != []
      invariant io.Valid() && io.taken == old(io.taken)
      invariant old(io.outbox) <= io.outbox && io.outbox + rest == all
      invariant Ideal(io) ==> polls - left <= |bytes| - |rest|
      invariant io.clock + left == old(io.clock) + polls
      decreases left
    {
      if left == 0 {
        return Stalled;
      }
      left := left - 1;
      ghost var before := io.outbox;
      var r := io.PollWrite(rest);
      match r
      case Ready(n) =>
        if n == 0 {
          return Broken;
        }
        assert before + rest == (before + rest[..n]) + rest[n..];
        rest := rest[n..];
      case Failed => return Broken;
      case Pending =>
    }
    return Done;
  }

  /** ChannelData is padded to a multiple of four on the stream, and the padding is
      written by a write of its own. */
  method SendTo(io: Inner, m: seq<byte>, polls: nat) returns (o: Outcome)
    requires io.Valid()
    modifies io
    ensures io.Valid() && io.taken == old(io.taken)
    ensures old(io.outbox) <= io.outbox <= old(io.outbox) + Framed(m)
    ensures o.Done? <==> io.outbox == old(io.outbox) + Framed(m)
    ensures o.Broken? ==> io.faulted
    ensures o.Stalled? ==> io.clock >= old(io.clock) + polls
    ensures Ideal(io) && polls >= |m| + 3 ==> o.Done?
  {
    o := WriteAll(io, m, polls);
    if !o.Done? {
      return;
    }
    if |m| >= 4 && m[0] / 64 == 1 {
      var pad := Pad(|m|);
      if pad > 0 {
        ghost var before := old(io.outbox);
        assert (before + m) + Zeros(pad) == before + Framed(m);
        o := WriteAll(io, Zeros(pad), polls);
      } else {
        assert m + Zeros(0) == m;
      }
    }
  }

  lemma {:induction false} FramedAllSnoc(ms: seq<seq<byte>>, k: nat)
    requires k < |ms|
    ensures FramedAll(ms[..k + 1]) == FramedAll(ms[..k]) + Framed(ms[k])
    decreases k
  {
    if k == 0 {
      assert ms[..1][1..] == [];
      assert FramedAll(ms[..1]) == Framed(ms[0]) + FramedAll([]);
    } else {
      FramedAllSnoc(ms[1..], k - 1);
      assert ms[..k + 1][1..] == ms[1..][..k] && ms[..k][1..] == ms[1..][..k - 1];
    }
  }

  lemma {:induction false} FramedAllPrefix(ms: seq<seq<byte>>, k: nat)
    requires k <= |ms|
    ensures FramedAll(ms[..k]) <= FramedAll(ms)
    decreases |ms| - k
  {
    if k < |ms| {
      FramedAllSnoc(ms, k);
      FramedAllPrefix(ms, k + 1);
    } else {
      assert ms[..k] == ms;
    }
  }

  method SendAll(io: Inner, ms: seq<seq<byte>>, polls: nat -> nat) returns (o: Outcome)
    requires io.Valid() && io.outbox == []
    modifies io
    ensures io.outbox <= FramedAll(ms)
    ensures o.Done? ==> io.outbox == FramedAll(ms)
    ensures Ideal(io) && (forall i | 0 <= i < |ms| :: polls(i) >= |ms[i]| + 3) ==> o.Done?
  {
    var i := 0;
    while i < |ms|
      invariant 0 <= i <= |ms| && io.Valid() && io.outbox == FramedAll(ms[..i])
    {
      FramedAllSnoc(ms, i);
      FramedAllPrefix(ms, i + 1);
      o := SendTo(io, ms[i], polls(i));
      if !o.Done? {
        return;
      }
      i := i + 1;
    }
    assert ms[..i] == ms;
    o := Done;
  }

  lemma {:induction false} ParseAllSnoc(s: seq<byte>, a: seq<byte>, cap: nat, ms: seq<seq<byte>>, m: seq<byte>)
    requires Reads(s, cap, ms) && Parse(a, cap) == Got(m, |a|)
    ensures Reads(s + a, cap, ms + [m])
    decreases |ms|
  {
    if ms == [] {
      assert s + a == a;
      assert a[|a|..] == [];
    } else {
      var used := Parse(s, cap).used;
      StaysParsed(s, a, cap);
      assert (s + a)[used..] == s[used..] + a;
      ParseAllSnoc(s[used..], a, cap, ms[1..], m);
      assert (ms + [m])[1..] == ms[1..] + [m];
    }
  }

  /** The bytes `s` are exactly the messages `ms`. */
  ghost predicate Reads(s: seq<byte>, cap: nat, ms: seq<seq<byte>>)
    decreases |ms|
  {
    if ms == [] then s == []
    else
      var p := Parse(s, cap);
      p.Got? && p.msg == ms[0] && Reads(s[p.used..], cap, ms[1..])
  }

  lemma StaysParsed(s: seq<byte>, a: seq<byte>, cap: nat)
    requires Parse(s, cap).Got?
    ensures Parse(s + a, cap) == Parse(s, cap)
  {
    var p := Parse(s, cap);
    assert (s + a)[..4] == s[..4];
    assert (s + a)[..|p.msg|] == s[..|p.msg|];
  }

  lemma {:induction false} ReadsThen(s: seq<byte>, rest: seq<byte>, cap: nat, ms: seq<seq<byte>>)
    requires Reads(s, cap, ms)
    ensures ParseAll(s + rest, cap) == ms + ParseAll(rest, cap)
    decreases |ms|
  {
    if ms == [] {
      assert s + rest == rest;
    } else {
      FirstOf(s, rest, cap);
      ReadsThen(s[Parse(s, cap).used..], rest, cap, ms[1..]);
      HeadAndRest(ms, ParseAll(rest, cap));
    }
  }

  lemma FirstOf(s: seq<byte>, rest: seq<byte>, cap: nat)
    requires Parse(s, cap).Got?
    ensures var p := Parse(s, cap);
            ParseAll(s + rest, cap) == [p.msg] + ParseAll(s[p.used..] + rest, cap)
  {
    var used := Parse(s, cap).used;
    StaysParsed(s, rest, cap);
    assert (s + rest)[used..] == s[used..] + rest;
  }

  lemma HeadAndRest(ms: seq<seq<byte>>, more: seq<seq<byte>>)
    requires ms != []
    ensures [ms[0]] + (ms[1..] + more) == ms + more
  {
  }

  /** After some whole messages, the rest of the stream is the rest of the messages. */
  lemma {:induction false} RestOfMessages(ms: seq<seq<byte>>, s: seq<byte>, rest: seq<byte>,
                                          cap: nat, got: seq<seq<byte>>)
    requires forall m | m in ms :: WellFormed(m) && |Framed(m)| <= cap
    requires Reads(s, cap, got) && s + rest <= FramedAll(ms)
    ensures !Parse(rest, cap).Reserved? && !Parse(rest, cap).TooBig?
    decreases |got|
  {
    if got == [] {
      assert s + rest == rest;
      PrefixOfMessages(ms, rest, cap);
    } else {
      var used := Parse(s, cap).used;
      FirstUsed(ms, s, rest, cap);
      RestOfMessages(ms[1..], s[used..], rest, cap, got[1..]);
    }
  }

  /** The start of what is left of a stream is the start of its first frame. */
  lemma SplitPrefix(s: seq<byte>, rest: seq<byte>, e: seq<byte>, more: seq<byte>)
    requires s + rest <= e + more && |s| >= 4 && |e| >= 4
    ensures s[..4] == e[..4]
    ensures |e| <= |s| ==> s[|e|..] + rest <= more
  {
    assert s[..4] == (s + rest)[..4] == (e + more)[..4] == e[..4];
    if |e| <= |s| {
      assert s[|e|..] + rest == (s + rest)[|e|..];
      assert (e + more)[|e|..] == more;
    }
  }

  /** The header of the first frame says how much is used. */
  lemma UsedByHead(m: seq<byte>, s: seq<byte>, cap: nat)
    requires WellFormed(m) && Parse(s, cap).Got? && s[..4] == m[..4]
    ensures Parse(s, cap).used == |Framed(m)|
  {
    FramedShape(m);
  }

  lemma FirstUsed(ms: seq<seq<byte>>, s: seq<byte>, rest: seq<byte>, cap: nat)
    requires forall m | m in ms :: WellFormed(m) && |Framed(m)| <= cap
    requires Parse(s, cap).Got? && s + rest <= FramedAll(ms)
    ensures ms != [] && s[Parse(s, cap).used..] + rest <= FramedAll(ms[1..])
  {
    assert |s + rest| >= 4;
    assert ms != [];
    var m, e, more := ms[0], Framed(ms[0]), FramedAll(ms[1..]);
    FramedHead(m);
    SplitPrefix(s, rest, e, more);
    UsedByHead(m, s, cap);
  }

  lemma FramedHead(m: seq<byte>)
    requires WellFormed(m)
    ensures |Framed(m)| >= 4 && Framed(m)[..4] == m[..4]
  {
    FramedShape(m);
  }

  /** Receives until something else than a message comes back. */
  method RecvAll(io: Inner, cap: nat, polls: nat -> nat, limit: nat) returns (ms: seq<seq<byte>>, last: Option<Recv>)
    requires io.Valid() && io.taken == 0
    modifies io
    ensures io.Valid() && ms == ParseAll(io.incoming[..io.taken], cap)
    ensures last.None? ==> |ms| == limit
    ensures last.Some? && last.value.Ended? ==> last.value.outcome.Broken? || last.value.outcome.Stalled?
    ensures last == Some(Ended(Broken)) ==> io.faulted
    ensures Ideal(io) && (forall i: nat :: polls(i) >= 4 && polls(i) >= cap) ==> last != Some(Ended(Stalled))
    ensures last.Some? && !last.value.Ended? ==> StopsAtBadMessage(io.incoming[..io.taken], cap, ms)
  {
    ms, last := [], None;
    var i := 0;
    assert io.incoming[..0] == [];
    while i < limit
      invariant io.Valid() && Reads(io.incoming[..io.taken], cap, ms) && last == None && |ms| == i <= limit
    {
      ghost var k := io.taken;
      var buf := new byte[cap](_ => 0);
      var r := RecvFrom(io, buf, polls(i));
      ghost var got := io.incoming[k..io.taken];
      assert io.incoming[..io.taken] == io.incoming[..k] + got;
      if !r.Message? {
        ReadsThen(io.incoming[..k], got, cap, ms);
        assert ParseAll(got, cap) == [];
        assert io.incoming[..io.taken][..k] == io.incoming[..k] && io.incoming[..io.taken][k..] == got;
        return ms, Some(r);
      }
      ParseAllSnoc(io.incoming[..k], got, cap, ms, buf[..r.n]);
      ms := ms + [buf[..r.n]];
      i := i + 1;
    }
    ReadsThen(io.incoming[..io.taken], [], cap, ms);
    assert io.incoming[..io.taken] + [] == io.incoming[..io.taken];
  }

  /** A whole connection, whatever the segmentation: what is received is the first
      of what was sent, in order, with the padding of ChannelData removed. When the
      sender finished, everything got through and no poll failed, a receiver that did
      not stall has every message; and if every poll is answered at once and each
      operation may poll often enough, it has them. */
  method Relay(ms: seq<seq<byte>>, cap: nat, writeReply: nat -> WriteReply, readReply: nat -> ReadReply,
               sendPolls: nat -> nat, recvPolls: nat -> nat, through: nat, limit: nat)
    returns (got: seq<seq<byte>>, sent: Outcome, last: Option<Recv>)
    requires forall m | m in ms :: WellFormed(m) && |Framed(m)| <= cap
    ensures got <= UnpaddedAll(ms)
    ensures last.None? || last.value.Ended?
    ensures Reliable(writeReply, readReply) && sent.Done? && through >= |FramedAll(ms)| ==>
              limit >= |ms| && last != Some(Ended(Stalled)) ==> got == UnpaddedAll(ms)
    ensures IdealReplies(writeReply, readReply) && (forall i: nat :: recvPolls(i) >= 4 && recvPolls(i) >= cap) ==>
              (forall i | 0 <= i < |ms| :: sendPolls(i) >= |ms[i]| + 3) ==>
              through >= |FramedAll(ms)| && limit >= |ms| ==> got == UnpaddedAll(ms)
  {
    var outbox;
    ghost var seen;
    sent, outbox := SendSide(ms, writeReply, readReply, sendPolls);
    var arrived := outbox[..Min(through, |outbox|)];
    got, last, seen := RecvSide(arrived, cap, writeReply, readReply, recvPolls, limit);
    PrefixOfMessages(ms, arrived[..seen], cap);
    if last.Some? && !last.value.Ended? {
      NeverRefused(ms, arrived[..seen], cap, got);
    }
  }

  /** The sending half: what its transport has accepted when the run is cut. */
  method SendSide(ms: seq<seq<byte>>, writeReply: nat -> WriteReply, readReply: nat -> ReadReply, polls: nat -> nat)
    returns (o: Outcome, outbox: seq<byte>)
    ensures outbox <= FramedAll(ms) && (o.Done? ==> outbox == FramedAll(ms))
    ensures IdealReplies(writeReply, readReply) && (forall i | 0 <= i < |ms| :: polls(i) >= |ms[i]| + 3) ==> o.Done?
  {
    var left := new Inner(writeReply, readReply, []);
    o := SendAll(left, ms, polls);
    outbox := left.outbox;
  }

  /** The receiving half: `seen` bytes were taken when the run is cut. */
  method RecvSide(arrived: seq<byte>, cap: nat, writeReply: nat -> WriteReply, readReply: nat -> ReadReply,
                  polls: nat -> nat, limit: nat)
    returns (got: seq<seq<byte>>, last: Option<Recv>, ghost seen: nat)
    ensures seen <= |arrived| && got == ParseAll(arrived[..seen], cap)
    ensures last.None? ==> |got| == limit
    ensures last.Some? && last.value.Ended? ==> last.value.outcome.Broken? || last.value.outcome.Stalled?
    ensures last == Some(Ended(Broken)) && Reliable(writeReply, readReply) ==> seen == |arrived|
    ensures last.Some? && !last.value.Ended? ==> StopsAtBadMessage(arrived[..seen], cap, got)
    ensures IdealReplies(writeReply, readReply) && (forall i: nat :: polls(i) >= 4 && polls(i) >= cap) ==>
              last != Some(Ended(Stalled))
  {
    var right := new Inner(writeReply, readReply, arrived);
    got, last := RecvAll(right, cap, polls, limit);
    seen := right.taken;
  }

  ghost predicate StopsAtBadMessage(s: seq<byte>, cap: nat, ms: seq<seq<byte>>) {
    exists k: nat :: k <= |s| && Reads(s[..k], cap, ms) && Bad(Parse(s[k..], cap))
  }

  ghost predicate Bad(p: Parsed) {
    p.Reserved? || p.TooBig?
  }

  lemma NeverRefused(ms: seq<seq<byte>>, s: seq<byte>, cap: nat, got: seq<seq<byte>>)
    requires forall m | m in ms :: WellFormed(m) && |Framed(m)| <= cap
    requires s <= FramedAll(ms)
    ensures !StopsAtBadMessage(s, cap, got)
  {
    if StopsAtBadMessage(s, cap, got) {
      var k: nat :| k <= |s| && Reads(s[..k], cap, got) && Bad(Parse(s[k..], cap));
      assert s[..k] + s[k..] == s;
      RestOfMessages(ms, s[..k], s[k..], cap, got);
    }
  }
}
