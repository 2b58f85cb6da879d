/** The client's multiplexer driver: open requests and their answers. */
module MuxDriver {
  import opened Bytes

  datatype OpenReply = Opened | OpenFailed | NotYet

  /** What the driver's `select!` can wake up for. */
  datatype Event = Cancelled | Request | RequestsClosed | Retry | Inbound | SessionFailed | SessionClosed

  predicate Ends(e: Event) {
    e.Cancelled? || e.RequestsClosed? || e.SessionFailed? || e.SessionClosed?
  }

  /** How many of the first `n` polls opened a stream. */
  function Opens(reply: nat -> OpenReply, n: nat): nat {
    if n == 0 then 0 else Opens(reply, n - 1) + if reply(n - 1).Opened? then 1 else 0
  }

  /** How many of the first `n` wake-ups brought a request. */
  function Requests(event: nat -> Event, n: nat): nat {
    if n == 0 then 0 else Requests(event, n - 1) + if event(n - 1).Request? then 1 else 0
  }

  /** The answer to one open request: a stream, or an error. */
  datatype Answer = Answer(req: nat, ok: bool)

  function Ids(answers: seq<Answer>): multiset<nat> {
    if answers == [] then multiset{} else multiset{answers[0].req} + Ids(answers[1..])
  }

  function Successes(answers: seq<Answer>): nat {
    if answers == [] then 0 else (if answers[0].ok then 1 else 0) + Successes(answers[1..])
  }

  lemma {:induction false} AnswersAppend(a: seq<Answer>, b: seq<Answer>)
    ensures Ids(a + b) == Ids(a) + Ids(b)
    ensures Successes(a + b) == Successes(a) + Successes(b)
  {
    if a == [] {
      assert a + b == b;
    } else {
      assert (a + b)[1..] == a[1..] + b;
      AnswersAppend(a[1..], b);
    }
  }

  lemma OneMore(a: seq<Answer>, x: Answer)
    ensures Ids(a + [x]) == Ids(a) + multiset{x.req}
    ensures Successes(a + [x]) == Successes(a) + (if x.ok then 1 else 0)
  {
    AnswersAppend(a, [x]);
    assert [x][1..] == [];
    assert Ids([x]) == multiset{x.req} + Ids([]);
    assert Successes([x]) == (if x.ok then 1 else 0) + Successes([]);
  }

  /** The last `n` of the pending requests get a stream, newest first. */
  function Served(pending: seq<nat>, n: nat): (r: seq<Answer>)
    requires n <= |pending|
    ensures |r| == n
  {
    if n == 0 then [] else Served(pending, n - 1) + [Answer(pending[|pending| - n], true)]
  }

  /** All of them get an error, oldest first. */
  function Refused(pending: seq<nat>): (r: seq<Answer>) {
    if pending == [] then [] else [Answer(pending[0], false)] + Refused(pending[1..])
  }

  lemma Shift(a: multiset<nat>, b: multiset<nat>, x: multiset<nat>, all: multiset<nat>)
    requires a + (b + x) == all
    ensures (a + x) + b == all
  {
  }

  lemma LastOf(pending: seq<nat>, k: nat)
    requires k < |pending|
    ensures multiset(pending[..k + 1]) == multiset(pending[..k]) + multiset{pending[k]}
  {
    assert pending[..k + 1] == pending[..k] + [pending[k]];
  }

  lemma {:induction false} ServedIds(pending: seq<nat>, n: nat)
    requires n <= |pending|
    ensures Ids(Served(pending, n)) + multiset(pending[..|pending| - n]) == multiset(pending)
    ensures Successes(Served(pending, n)) == n
  {
    var k := |pending| - n;
    if n == 0 {
      assert pending[..k] == pending;
    } else {
      ServedIds(pending, n - 1);
      LastOf(pending, k);
      OneMore(Served(pending, n - 1), Answer(pending[k], true));
      Shift(Ids(Served(pending, n - 1)), multiset(pending[..k]), multiset{pending[k]}, multiset(pending));
    }
  }

  lemma {:induction false} RefusedIds(pending: seq<nat>)
    ensures Ids(Refused(pending)) == multiset(pending)
    ensures Successes(Refused(pending)) == 0
  {
    if pending != [] {
      RefusedIds(pending[1..]);
      assert pending == [pending[0]] + pending[1..];
      AnswersAppend([Answer(pending[0], false)], Refused(pending[1..]));
      assert Ids([Answer(pending[0], false)]) == multiset{pending[0]};
    }
  }

  lemma ServedThenRefused(pending: seq<nat>, n: nat)
    requires n <= |pending|
    ensures var all := Served(pending, n) + Refused(pending[..|pending| - n]);
            Ids(all) + multiset([]) == multiset(pending) && Successes(all) == n
  {
    var left := pending[..|pending| - n];
    ServedIds(pending, n);
    RefusedIds(left);
    AnswersAppend(Served(pending, n), Refused(left));
  }

  /** Fail every queued request. */
  method Drain(pending: seq<nat>) returns (answers: seq<Answer>)
    ensures answers == Refused(pending)
  {
    answers := [];
    var left := pending;
    while left != []
      invariant answers + Refused(left) == Refused(pending)
      decreases |left|
    {
      assert answers + Refused(left) == (answers + [Answer(left[0], false)]) + Refused(left[1..]);
      answers := answers + [Answer(left[0], false)];
      left := left[1..];
    }
  }

  /** Serve what can be served right now. A failure to open a stream answers all
      that is queued and empties the queue; it does not end the session. */
  method ServePending(pending: seq<nat>, reply: nat -> OpenReply, at: nat)
    returns (left: seq<nat>, answers: seq<Answer>, streams: nat, at': nat)
    ensures streams <= |pending|
    ensures || (&& left == pending[..|pending| - streams] && answers == Served(pending, streams)
                && (left != [] ==> at' > at && reply(at' - 1).NotYet?))
            || (&& left == [] && at' > at && reply(at' - 1).OpenFailed?
                && answers == Served(pending, streams) + Refused(pending[..|pending| - streams]))
    ensures Ids(answers) + multiset(left) == multiset(pending)
    ensures Successes(answers) == streams
    ensures at <= at' && Opens(reply, at') == Opens(reply, at) + streams
  {
    left, answers, streams, at' := pending, [], 0, at;
    while left != []
      invariant streams <= |pending| && left == pending[..|pending| - streams]
      invariant answers == Served(pending, streams)
      invariant at <= at' && Opens(reply, at') == Opens(reply, at) + streams
      decreases |left|
    {
      var r := reply(at');
      at' := at' + 1;
      match r
      case Opened =>
        answers := answers + [Answer(left[|left| - 1], true)];
        left := left[..|left| - 1];
        streams := streams + 1;
      case OpenFailed =>
        var rest := Drain(left);
        ServedThenRefused(pending, streams);
        answers := answers + rest;
        left := [];
        return;
      case NotYet =>
        ServedIds(pending, streams);
        return;
    }
    ServedIds(pending, streams);
  }

  function UpTo(n: nat): (m: multiset<nat>)
    ensures forall x: nat :: m[x] == if x < n then 1 else 0
  {
    if n == 0 then multiset{} else UpTo(n - 1) + multiset{n - 1}
  }

  /** Each request taken has one answer or is queued, and each stream answers one
      request. Opened only on request. */
  ghost predicate Tallied(answers: seq<Answer>, pending: seq<nat>, taken: nat, streams: nat) {
    forall k: nat {:trigger Open(k)} | Open(k) ::
      Ids(answers) + multiset(pending) == UpTo(taken) && Successes(answers) == streams
  }

  lemma TallyNothing()
    ensures Tallied([], [], 0, 0)
  {
  }

  lemma TallyMeans(answers: seq<Answer>, pending: seq<nat>, taken: nat, streams: nat)
    requires Tallied(answers, pending, taken, streams)
    ensures Ids(answers) + multiset(pending) == UpTo(taken) && Successes(answers) == streams
  {
    assert Open(0);
  }

  lemma TallyAnswers(answers: seq<Answer>, pending: seq<nat>, taken: nat, streams: nat,
                     more: seq<Answer>, left: seq<nat>)
    requires Tallied(answers, pending, taken, streams) && Ids(more) + multiset(left) == multiset(pending)
    ensures Tallied(answers + more, left, taken, streams + Successes(more))
  {
    assert Open(0);
    AnswersAppend(answers, more);
  }

  lemma TallyRequest(answers: seq<Answer>, pending: seq<nat>, taken: nat, streams: nat)
    requires Tallied(answers, pending, taken, streams)
    ensures Tallied(answers, pending + [taken], taken + 1, streams)
  {
    assert Open(0);
    assert multiset(pending + [taken]) == multiset(pending) + multiset{taken};
  }

  /** The part of the loop before the driver goes to sleep. */
  method Serve(pending: seq<nat>, answers: seq<Answer>, streams: nat, ghost taken: nat,
               reply: nat -> OpenReply, at: nat)
    returns (left: seq<nat>, answers': seq<Answer>, streams': nat, at': nat)
    requires Tallied(answers, pending, taken, streams) && streams == Opens(reply, at)
    ensures Tallied(answers', left, taken, streams') && streams' == Opens(reply, at')
  {
    var more, n;
    left, more, n, at' := ServePending(pending, reply, at);
    TallyAnswers(answers, pending, taken, streams, more, left);
    answers', streams' := answers + more, streams + n;
  }

  /** The part after the loop. */
  method Fail(pending: seq<nat>, answers: seq<Answer>, ghost streams: nat, ghost taken: nat)
    returns (answers': seq<Answer>)
    requires Tallied(answers, pending, taken, streams)
    ensures Tallied(answers', [], taken, streams)
  {
    var rest := Drain(pending);
    RefusedIds(pending);
    TallyAnswers(answers, pending, taken, streams, rest, []);
    answers' := answers + rest;
  }

  /** One wake-up: the loop ends and fails what is queued, or goes on. */
  method WakeUp(e: Event, pending: seq<nat>, answers: seq<Answer>, taken: nat, ghost streams: nat)
    returns (ended: bool, pending': seq<nat>, answers': seq<Answer>, taken': nat)
    requires Tallied(answers, pending, taken, streams)
    ensures Tallied(answers', pending', taken', streams)
    ensures ended == Ends(e) && taken' == taken + (if e.Request? then 1 else 0)
    ensures ended ==> pending' == []
  {
    ended, pending', answers', taken' := Ends(e), pending, answers, taken;
    if ended {
      answers' := Fail(pending, answers, streams, taken);
      pending' := [];
    } else if e.Request? {
      TallyRequest(answers, pending, taken, streams);
      pending' := pending + [taken];
      taken' := taken + 1;
    }
  }

  /** The driver over at most `rounds` wake-ups. Requests are numbered as they are
      taken from the channel; `round` wake-ups happened, and `at` polls for a stream.
      Each request that a wake-up brought is answered exactly once or still queued,
      each stream opened answers one request, the loop ends on the first ending event
      and on no other, and nothing is queued once it has ended. */
  method Drive(event: nat -> Event, reply: nat -> OpenReply, rounds: nat)
    returns (ended: bool, taken: nat, streams: nat, answers: seq<Answer>, pending: seq<nat>, round: nat, at: nat)
    ensures Ids(answers) + multiset(pending) == UpTo(taken) && taken == Requests(event, round)
    ensures Successes(answers) == streams == Opens(reply, at)
    ensures round <= rounds && (!ended ==> round == rounds)
    ensures ended ==> pending == [] && round > 0 && Ends(event(round - 1))
    ensures forall t: nat | t < round - (if ended then 1 else 0) :: !Ends(event(t))
  {
    ended, taken, streams, answers, pending, round, at := Loop(event, reply, rounds);
    TallyMeans(answers, pending, taken, streams);
  }

  method Loop(event: nat -> Event, reply: nat -> OpenReply, rounds: nat)
    returns (ended: bool, taken: nat, streams: nat, answers: seq<Answer>, pending: seq<nat>, round: nat, at: nat)
    ensures Tallied(answers, pending, taken, streams)
    ensures taken == Requests(event, round) && streams == Opens(reply, at)
    ensures round <= rounds && (!ended ==> round == rounds)
    ensures ended ==> pending == [] && round > 0 && Ends(event(round - 1))
    ensures forall t: nat | t < round - (if ended then 1 else 0) :: !Ends(event(t))
  {
    ended, taken, streams, answers, pending, round, at := false, 0, 0, [], [], 0, 0;
    TallyNothing();
    while round < rounds && !ended
      invariant round <= rounds && Tallied(answers, pending, taken, streams)
      invariant taken == Requests(event, round) && streams == Opens(reply, at)
      invariant ended ==> pending == [] && round > 0 && Ends(event(round - 1))
      invariant forall t: nat | t < round - (if ended then 1 else 0) :: !Ends(event(t))
      decreases rounds - round
    {
      pending, answers, streams, at := Serve(pending, answers, streams, taken, reply, at);
      ended, pending, answers, taken := WakeUp(event(round), pending, answers, taken, streams);
      round := round + 1;
    }
  }
}
