/** The byte stream under a control connection, driven by an adversary. */
module Transport {
  import opened Bytes

  datatype IoPoll<+T> = Ready(value: T) | Failed | Pending

  /** How an awaited operation stood when the run was cut: the number of polls an
      operation is given bounds how often it may be polled, so every finite run is
      covered. */
  datatype Outcome = Done | Broken | Stalled

  datatype WriteReply = Accept(n: nat) | RefuseWrite | WriteError

  datatype ReadReply = Deliver(n: nat) | NothingYet | ReadError

  /** A caller's read buffer: the first `filled` bytes of `data` are in use. */
  class ReadBuf {
    const data: array<byte>
    var filled: nat

    ghost predicate Valid()
      reads this
    {
      filled <= data.Length
    }

    ghost function Filled(): (s: seq<byte>)
      requires Valid()
      reads this, data
      ensures |s| == filled
    {
      data[..filled]
    }

    constructor (size: nat)
      ensures Valid() && filled == 0 && data.Length == size
      ensures fresh(data)
    {
      data := new byte[size](_ => 0);
      filled := 0;
    }
  }

  /** No poll fails, a write that is ready moves something, and a read is empty only
      at the end of the stream. */
  ghost predicate Reliable(writeReply: nat -> WriteReply, readReply: nat -> ReadReply) {
    && (forall t: nat :: !writeReply(t).WriteError? && (writeReply(t).Accept? ==> writeReply(t).n > 0))
    && forall t: nat :: !readReply(t).ReadError? && (readReply(t).Deliver? ==> readReply(t).n > 0)
  }

  /** Every poll is answered at once. */
  ghost predicate Prompt(writeReply: nat -> WriteReply, readReply: nat -> ReadReply) {
    && (forall t: nat :: !writeReply(t).RefuseWrite?)
    && forall t: nat :: !readReply(t).NothingYet?
  }

  ghost predicate IdealReplies(writeReply: nat -> WriteReply, readReply: nat -> ReadReply) {
    Reliable(writeReply, readReply) && Prompt(writeReply, readReply)
  }

  /** Poll number `t` is answered as `writeReply(t)` and `readReply(t)` say: how
      many bytes move, or none yet, or an error. `incoming` is all the peer will
      ever send; when it is used up a delivery is empty, which is end of file. */
  class Inner {
    const writeReply: nat -> WriteReply
    const readReply: nat -> ReadReply
    const incoming: seq<byte>
    var clock: nat
    var outbox: seq<byte>
    var taken: nat
    /** An error was returned, or a poll was ready that could have moved something
        and moved nothing. */
    ghost var faulted: bool

    ghost predicate Valid()
      reads this
    {
      taken <= |incoming| && (faulted && Reliable(writeReply, readReply) ==> taken == |incoming|)
    }

    /** The last poll was told to come back later. */
    ghost predicate RefusedWrite()
      reads this`clock
    {
      clock > 0 && writeReply(clock - 1).RefuseWrite?
    }

    ghost predicate NothingRead()
      reads this`clock
    {
      clock > 0 && readReply(clock - 1).NothingYet?
    }

    /** A write that is ready moves at least one byte. */
    ghost predicate Productive() {
      forall t: nat :: writeReply(t).Accept? ==> writeReply(t).n > 0
    }

    constructor (writeReply: nat -> WriteReply, readReply: nat -> ReadReply, incoming: seq<byte>)
      ensures Valid() && outbox == [] && taken == 0
      ensures this.writeReply == writeReply && this.readReply == readReply && this.incoming == incoming
    {
      this.writeReply, this.readReply, this.incoming := writeReply, readReply, incoming;
      clock, outbox, taken := 0, [], 0;
      faulted := false;
    }

    method PollWrite(data: seq<byte>) returns (r: IoPoll<nat>)
      requires Valid()
      modifies this`clock, this`outbox, this`faulted
      ensures Valid() && clock == old(clock) + 1
      ensures faulted == (old(faulted) || r.Failed? || (r.Ready? && r.value == 0 && data != []))
      ensures r.Ready? ==> r.value <= |data| && outbox == old(outbox) + data[..r.value]
      ensures r.Ready? && Productive() && data != [] ==> r.value > 0
      ensures !r.Ready? ==> outbox == old(outbox)
      ensures r.Pending? ==> RefusedWrite()
      ensures r.Failed? ==> !Reliable(writeReply, readReply)
    {
      var reply := writeReply(clock);
      clock := clock + 1;
      faulted := faulted || reply.WriteError?;
      match reply
      case Accept(n) =>
        var k := Min(n, |data|);
        faulted := faulted || (k == 0 && data != []);
        outbox := outbox + data[..k];
        r := Ready(k);
      case RefuseWrite => r := Pending;
      case WriteError => r := Failed;
    }

    method PollRead(buf: ReadBuf) returns (r: IoPoll<()>)
      requires Valid() && buf.Valid()
      modifies this`clock, this`taken, this`faulted, buf`filled, buf.data
      ensures clock == old(clock) + 1
      ensures faulted == (old(faulted) || r.Failed?
                          || (r.Ready? && taken == old(taken) && buf.filled < buf.data.Length))
      ensures Valid() && buf.Valid()
      ensures old(taken) <= taken && old(buf.filled) <= buf.filled
      ensures r.Ready? ==> buf.Filled() == old(buf.Filled()) + incoming[old(taken)..taken]
      ensures !r.Ready? ==> taken == old(taken) && buf.filled == old(buf.filled)
      ensures buf.data[..][..old(buf.filled)] == old(buf.Filled())
      ensures r.Pending? ==> NothingRead()
    {
      var reply := readReply(clock);
      clock := clock + 1;
      match reply
      case Deliver(n) =>
        var k := Min(Min(n, |incoming| - taken), buf.data.Length - buf.filled);
        forall i | 0 <= i < k {
          buf.data[buf.filled + i] := incoming[taken + i];
        }
        assert buf.data[..buf.filled + k] == old(buf.Filled()) + incoming[taken..taken + k];
        buf.filled := buf.filled + k;
        taken := taken + k;
        faulted := faulted || (k == 0 && buf.filled < buf.data.Length);
        r := Ready(());
      case NothingYet => r := Pending;
      case ReadError =>
        faulted := true;
        r := Failed;
    }
  }

  /** Replays one byte that was read ahead, then passes the inner stream on. */
  class Prefixed {
    var prefix: Option<byte>
    const inner: Inner

    /** All that is still to be read. */
    ghost function Rest(): (s: seq<byte>)
      requires inner.Valid()
      reads this, inner
    {
      (if prefix.Some? then [prefix.value] else []) + inner.incoming[inner.taken..]
    }

    constructor (first: byte, inner: Inner)
      requires inner.Valid()
      ensures this.inner == inner && prefix == Some(first)
      ensures Rest() == [first] + inner.incoming[inner.taken..]
    {
      this.prefix, this.inner := Some(first), inner;
    }

    /** No poll loses or repeats a byte, whatever room the buffer has. */
    method PollRead(buf: ReadBuf) returns (r: IoPoll<()>)
      requires inner.Valid() && buf.Valid()
      modifies this`prefix, inner`clock, inner`taken, inner`faulted, buf`filled, buf.data
      ensures inner.Valid() && buf.Valid()
      ensures old(buf.filled) <= buf.filled && buf.Filled()[..old(buf.filled)] == old(buf.Filled())
      ensures old(Rest()) == buf.Filled()[old(buf.filled)..] + Rest()
      ensures old(buf.filled) < buf.data.Length ==> prefix.None?
      ensures !r.Ready? ==> buf.filled == old(buf.filled) && prefix == old(prefix)
      ensures old(prefix).Some? && old(buf.filled) < buf.data.Length ==>
                r.Ready? && prefix.None? && inner.taken == old(inner.taken)
      ensures r.Pending? ==> inner.NothingRead()
    {
      if buf.filled < buf.data.Length && prefix.Some? {
        buf.data[buf.filled] := prefix.value;
        assert buf.data[..buf.filled + 1] == old(buf.Filled()) + [prefix.value];
        buf.filled := buf.filled + 1;
        prefix := None;
        return Ready(());
      }
      ghost var was := inner.taken;
      r := inner.PollRead(buf);
      if prefix.None? {
        assert inner.incoming[was..] == inner.incoming[was..inner.taken] + inner.incoming[inner.taken..];
      } else {
        assert inner.taken == was;
      }
    }
  }
}
