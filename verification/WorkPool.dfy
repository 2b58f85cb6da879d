/** The work connections of one open control: requests, arrivals and callers. */
module WorkPool {

  const CHANNEL_LEN := 64

  /** A `get_work_conn` call: before it looked into the pool, with a pooled
      connection whose replacement is still to be requested, about to request,
      waiting for the receiver's lock, waiting for a connection, finished. */
  datatype Call =
    | Fresh
    | Pooled(conn: nat)
    | Asking
    | Requested
    | Receiving
    | Served(conn: nat)
    | TimedOut

  predicate HasConn(c: Call) {
    c.Pooled? || c.Served?
  }

  /** Connections are numbered as the client opens them: `idle` are in the
      channel, `arriving` wait for room in it. `issued` of the `target` pool
      requests and `asked` requests of calls have been sent. */
  datatype Pool = Pool(target: nat, issued: nat, asked: nat, arrived: nat,
                       idle: seq<nat>, arriving: set<nat>, calls: map<nat, Call>, lock: bool)

  datatype Step =
    | Issue
    | Call(id: nat)
    | Look(id: nat)
    | Replenish(id: nat)
    | Ask(id: nat)
    | Lock(id: nat)
    | Receive(id: nat)
    | GiveUp(id: nat)
    | Open
    | Deliver(conn: nat)

  function Distance(a: int, b: int): nat {
    if a < b then b - a else a - b
  }

  /** `pool_count.clamp(0, max_pool_count)`: the nearest admissible count. */
  function Clamp(poolCount: int, max: nat): (n: nat)
    ensures n <= max && forall m: nat | m <= max :: Distance(n, poolCount) <= Distance(m, poolCount)
  {
    if poolCount < 0 then 0 else if poolCount > max then max else poolCount
  }

  function Start(poolCount: int, max: nat): Pool {
    Pool(Clamp(poolCount, max), 0, 0, 0, [], {}, map[], false)
  }

  /** Requests that the client has not answered yet. */
  function Owed(s: Pool): int {
    s.issued + s.asked - s.arrived
  }

  predicate In(s: Pool, id: nat, c: Call) {
    id in s.calls && s.calls[id] == c
  }

  predicate Enabled(s: Pool, a: Step) {
    match a
    case Issue => s.issued < s.target
    case Call(id) => id !in s.calls
    case Look(id) => In(s, id, Fresh) && !s.lock
    case Replenish(id) => id in s.calls && s.calls[id].Pooled?
    case Ask(id) => In(s, id, Asking)
    case Lock(id) => In(s, id, Requested) && !s.lock
    case Receive(id) => In(s, id, Receiving) && s.idle != []
    case GiveUp(id) => In(s, id, Receiving)
    case Open => Owed(s) > 0
    case Deliver(conn) => conn in s.arriving && |s.idle| < CHANNEL_LEN
  }

  function Do(s: Pool, a: Step): Pool
    requires Enabled(s, a)
  {
    match a
    case Issue => s.(issued := s.issued + 1)
    case Call(id) => s.(calls := s.calls[id := Fresh])
    case Look(id) =>
      if s.idle != [] then s.(calls := s.calls[id := Pooled(s.idle[0])], idle := s.idle[1..])
      else s.(calls := s.calls[id := Asking])
    case Replenish(id) => s.(calls := s.calls[id := Served(s.calls[id].conn)], asked := s.asked + 1)
    case Ask(id) => s.(calls := s.calls[id := Requested], asked := s.asked + 1)
    case Lock(id) => s.(calls := s.calls[id := Receiving], lock := true)
    case Receive(id) => s.(calls := s.calls[id := Served(s.idle[0])], idle := s.idle[1..], lock := false)
    case GiveUp(id) => s.(calls := s.calls[id := TimedOut], lock := false)
    case Open => s.(arrived := s.arrived + 1, arriving := s.arriving + {s.arrived})
    case Deliver(conn) => s.(arriving := s.arriving - {conn}, idle := s.idle + [conn])
  }

  ghost predicate Next(s: Pool, s': Pool) {
    exists a :: Enabled(s, a) && s' == Do(s, a)
  }

  ghost predicate IsRun(poolCount: int, max: nat, run: seq<Pool>) {
    && run != [] && run[0] == Start(poolCount, max)
    && forall i | 0 <= i < |run| - 1 :: Next(run[i], run[i + 1])
  }

  /** The calls a connection has been handed to. */
  ghost function Holders(calls: map<nat, Call>): set<nat> {
    set id | id in calls && HasConn(calls[id])
  }

  ghost predicate Apart(s: Pool) {
    Separate(s.arrived, s.idle, s.arriving, s.calls)
  }

  /** No connection is in two places. */
  ghost predicate Separate(arrived: nat, idle: seq<nat>, arriving: set<nat>, calls: map<nat, Call>) {
    && (forall i, j | 0 <= i < j < |idle| :: idle[i] != idle[j])
    && (forall x | x in idle :: x < arrived && x !in arriving)
    && (forall x | x in arriving :: x < arrived)
    && (forall id | id in calls && HasConn(calls[id]) ::
          calls[id].conn < arrived && calls[id].conn !in idle && calls[id].conn !in arriving)
    && (forall id, id' | id in calls && id' in calls && HasConn(calls[id]) && HasConn(calls[id'])
          && calls[id].conn == calls[id'].conn :: id == id')
  }

  /** The receiver's lock is held by exactly the call that is receiving. */
  ghost predicate LockOk(s: Pool) {
    && (s.lock ==> exists id :: In(s, id, Receiving))
    && (forall id, id' :: In(s, id, Receiving) && In(s, id', Receiving) ==> id == id' && s.lock)
    && (forall id :: In(s, id, Receiving) ==> s.lock)
  }

  ghost predicate Balanced(s: Pool) {
    && s.issued <= s.target
    && s.arrived <= s.issued + s.asked
    && |s.idle| + |s.arriving| + |Holders(s.calls)| == s.arrived
  }

  /** The head of the channel is handed to a call that has no connection. */
  lemma HandOver(arrived: nat, idle: seq<nat>, arriving: set<nat>, calls: map<nat, Call>, id: nat, c: Call)
    requires Separate(arrived, idle, arriving, calls)
    requires idle != [] && id in calls && !HasConn(calls[id])
    requires HasConn(c) && c.conn == idle[0]
    ensures Separate(arrived, idle[1..], arriving, calls[id := c])
    ensures Holders(calls[id := c]) == Holders(calls) + {id}
  {
    var calls' := calls[id := c];
    assert idle[0] in idle && idle[0] !in idle[1..];
    forall other | other in calls' && HasConn(calls'[other]) && other != id
      ensures calls'[other] == calls[other] && calls[other].conn != idle[0]
    {
    }
    assert forall x | x in idle[1..] :: x in idle;
    forall i, j | 0 <= i < j < |idle[1..]| ensures idle[1..][i] != idle[1..][j] {
      assert idle[i + 1] != idle[j + 1];
    }
    assert Holders(calls') == Holders(calls) + {id};
  }

  /** A call moves on with the connection it has, or without one. */
  lemma SameConn(arrived: nat, idle: seq<nat>, arriving: set<nat>, calls: map<nat, Call>, id: nat, c: Call)
    requires Separate(arrived, idle, arriving, calls)
    requires if id in calls then HasConn(c) == HasConn(calls[id]) && (HasConn(c) ==> c.conn == calls[id].conn)
             else !HasConn(c)
    ensures Separate(arrived, idle, arriving, calls[id := c])
    ensures Holders(calls[id := c]) == Holders(calls)
  {
  }

  lemma NewConn(arrived: nat, idle: seq<nat>, arriving: set<nat>, calls: map<nat, Call>)
    requires Separate(arrived, idle, arriving, calls)
    ensures Separate(arrived + 1, idle, arriving + {arrived}, calls)
    ensures |arriving + {arrived}| == |arriving| + 1
  {
    assert arrived !in arriving;
  }

  lemma IntoChannel(arrived: nat, idle: seq<nat>, arriving: set<nat>, calls: map<nat, Call>, conn: nat)
    requires Separate(arrived, idle, arriving, calls) && conn in arriving
    ensures Separate(arrived, idle + [conn], arriving - {conn}, calls)
  {
  }

  /** The steps that move no connection. */
  lemma CallMovesKeep(s: Pool, a: Step)
    requires Apart(s) && Balanced(s) && Enabled(s, a)
    requires a.Call? || a.Replenish? || a.Ask? || a.Lock? || a.GiveUp?
    ensures Apart(Do(s, a)) && Balanced(Do(s, a))
  {
    SameConn(s.arrived, s.idle, s.arriving, s.calls, a.id, Do(s, a).calls[a.id]);
  }

  lemma LookKeeps(s: Pool, id: nat)
    requires Apart(s) && Balanced(s) && Enabled(s, Look(id))
    ensures Apart(Do(s, Look(id))) && Balanced(Do(s, Look(id)))
  {
    if s.idle != [] {
      HandOver(s.arrived, s.idle, s.arriving, s.calls, id, Pooled(s.idle[0]));
    } else {
      SameConn(s.arrived, s.idle, s.arriving, s.calls, id, Asking);
    }
  }

  lemma ReceiveKeeps(s: Pool, id: nat)
    requires Apart(s) && Balanced(s) && Enabled(s, Receive(id))
    ensures Apart(Do(s, Receive(id))) && Balanced(Do(s, Receive(id)))
  {
    HandOver(s.arrived, s.idle, s.arriving, s.calls, id, Served(s.idle[0]));
  }

  lemma ArrivalKeeps(s: Pool, a: Step)
    requires Apart(s) && Balanced(s) && Enabled(s, a) && (a.Open? || a.Deliver?)
    ensures Apart(Do(s, a)) && Balanced(Do(s, a))
  {
    if a.Open? {
      NewConn(s.arrived, s.idle, s.arriving, s.calls);
    } else {
      IntoChannel(s.arrived, s.idle, s.arriving, s.calls, a.conn);
    }
  }

  lemma StepKeeps(s: Pool, a: Step)
    requires Apart(s) && Balanced(s) && Enabled(s, a)
    ensures Apart(Do(s, a)) && Balanced(Do(s, a))
  {
    match a
    case Issue =>
    case Look(id) => LookKeeps(s, id);
    case Receive(id) => ReceiveKeeps(s, id);
    case Open => ArrivalKeeps(s, a);
    case Deliver(_) => ArrivalKeeps(s, a);
    case _ => CallMovesKeep(s, a);
  }

  lemma LockKeeps(s: Pool, a: Step)
    requires LockOk(s) && Enabled(s, a)
    ensures LockOk(Do(s, a))
  {
    var s' := Do(s, a);
    assert forall id :: In(s', id, Receiving) ==> In(s, id, Receiving) || a == Lock(id);
    if s'.lock && !a.Lock? {
      var id :| In(s, id, Receiving);
      assert In(s', id, Receiving);
    }
    if a.Lock? { assert In(s', a.id, Receiving); }
  }

  /** In every run no connection is in two places or handed to two callers, and
      one caller at a time receives. */
  lemma {:induction false} PoolInEveryRun(poolCount: int, max: nat, run: seq<Pool>, i: nat)
    requires IsRun(poolCount, max, run) && i < |run|
    ensures Apart(run[i]) && Balanced(run[i]) && LockOk(run[i]) && run[i].target == Clamp(poolCount, max)
  {
    if i == 0 {
      assert Holders(run[0].calls) == {};
    } else {
      PoolInEveryRun(poolCount, max, run, i - 1);
      assert Next(run[i - 1], run[i - 1 + 1]);
      var a :| Enabled(run[i - 1], a) && run[i] == Do(run[i - 1], a);
      StepKeeps(run[i - 1], a);
      LockKeeps(run[i - 1], a);
    }
  }

  /** Conservation: waiting, owed and handed-out connections make up the requests
      sent, and once the pool loop is done these are the clamped pool count plus
      one for every call that has sent its request. */
  lemma Conservation(poolCount: int, max: nat, run: seq<Pool>, i: nat)
    requires IsRun(poolCount, max, run) && i < |run|
    ensures var s := run[i];
            && Owed(s) >= 0
            && |s.idle| + |s.arriving| + Owed(s) + |Holders(s.calls)| == s.issued + s.asked
            && (!Enabled(s, Issue) ==> s.issued == Clamp(poolCount, max))
  {
    PoolInEveryRun(poolCount, max, run, i);
  }

  predicate HasAsked(c: Call) {
    c.Requested? || c.Receiving? || c.Served? || c.TimedOut?
  }

  /** The calls that have sent their request. */
  ghost function Askers(calls: map<nat, Call>): set<nat> {
    set id | id in calls && HasAsked(calls[id])
  }

  lemma AskersPut(calls: map<nat, Call>, id: nat, c: Call)
    requires id in calls && HasAsked(calls[id]) ==> HasAsked(c)
    ensures var before := id in calls && HasAsked(calls[id]);
            |Askers(calls[id := c])| == |Askers(calls)| + (if HasAsked(c) && !before then 1 else 0)
  {
    if HasAsked(c) {
      assert Askers(calls[id := c]) == Askers(calls) + {id};
      if id in Askers(calls) {
        assert Askers(calls) + {id} == Askers(calls);
      }
    } else {
      assert Askers(calls[id := c]) == Askers(calls);
    }
  }

  lemma AskersStep(s: Pool, a: Step)
    requires Enabled(s, a) && s.asked == |Askers(s.calls)|
    ensures Do(s, a).asked == |Askers(Do(s, a).calls)|
  {
    match a
    case Issue =>
    case Call(id) => AskersPut(s.calls, id, Fresh);
    case Look(id) => AskersPut(s.calls, id, if s.idle != [] then Pooled(s.idle[0]) else Asking);
    case Replenish(id) => AskersPut(s.calls, id, Served(s.calls[id].conn));
    case Ask(id) => AskersPut(s.calls, id, Requested);
    case Lock(id) => AskersPut(s.calls, id, Receiving);
    case Receive(id) => AskersPut(s.calls, id, Served(s.idle[0]));
    case GiveUp(id) => AskersPut(s.calls, id, TimedOut);
    case Open =>
    case Deliver(_) =>
  }

  /** Each call sends one request: the count of requests is the count of calls
      that are past theirs. */
  lemma {:induction false} OneRequestPerCall(poolCount: int, max: nat, run: seq<Pool>, i: nat)
    requires IsRun(poolCount, max, run) && i < |run|
    ensures run[i].asked == |Askers(run[i].calls)|
  {
    if i == 0 {
      assert Askers(run[0].calls) == {};
    } else {
      OneRequestPerCall(poolCount, max, run, i - 1);
      var s, s' := run[i - 1], run[i];
      assert Next(run[i - 1], run[i - 1 + 1]);
      var a :| Enabled(s, a) && s' == Do(s, a);
      AskersStep(s, a);
    }
  }

  /** A connection is never handed to two callers. */
  lemma NoSharing(poolCount: int, max: nat, run: seq<Pool>, i: nat, id: nat, id': nat)
    requires IsRun(poolCount, max, run) && i < |run|
    requires id in run[i].calls && id' in run[i].calls && HasConn(run[i].calls[id]) && HasConn(run[i].calls[id'])
    requires run[i].calls[id].conn == run[i].calls[id'].conn
    ensures id == id'
  {
    PoolInEveryRun(poolCount, max, run, i);
  }

  // ---- The order in which connections are handed out.

  /** The connection that enters the channel in a step. */
  function Enters(a: Step): seq<nat> {
    if a.Deliver? then [a.conn] else []
  }

  /** The connection that a caller has after a step and had not before. */
  function Handed(s: Pool, a: Step): seq<nat>
    requires Enabled(s, a)
  {
    if a.Issue? || a.Open? || a.Deliver? || a.id !in Do(s, a).calls then []
    else
      var c := Do(s, a).calls[a.id];
      if HasConn(c) && !(a.id in s.calls && HasConn(s.calls[a.id])) then [c.conn] else []
  }

  /** The channel gives out first what came in first, and keeps within its length. */
  lemma ChannelInOrder(s: Pool, a: Step)
    requires Enabled(s, a)
    ensures s.idle + Enters(a) == Handed(s, a) + Do(s, a).idle
    ensures |s.idle| <= CHANNEL_LEN ==> |Do(s, a).idle| <= CHANNEL_LEN
  {
    if Handed(s, a) != [] {
      assert s.idle == [s.idle[0]] + s.idle[1..];
    }
  }

  /** A call that looks when a connection is pooled has it at once, and asks for a
      replacement; one that finds none has to ask and wait. */
  lemma PooledIsTaken(s: Pool, id: nat)
    requires Enabled(s, Look(id))
    ensures Handed(s, Look(id)) != [] <==> s.idle != []
    ensures var s' := Do(s, Look(id));
            if s.idle != [] then Enabled(s', Replenish(id)) else Enabled(s', Ask(id))
  {
  }

  ghost predicate IsTrace(poolCount: int, max: nat, run: seq<Pool>, steps: seq<Step>) {
    && |run| == |steps| + 1 && run[0] == Start(poolCount, max)
    && forall i | 0 <= i < |steps| :: Enabled(run[i], steps[i]) && run[i + 1] == Do(run[i], steps[i])
  }

  function AllEntered(steps: seq<Step>, i: nat): seq<nat>
    requires i <= |steps|
  {
    if i == 0 then [] else AllEntered(steps, i - 1) + Enters(steps[i - 1])
  }

  function AllHanded(run: seq<Pool>, steps: seq<Step>, i: nat): seq<nat>
    requires i <= |steps| <= |run| && forall k | 0 <= k < |steps| :: Enabled(run[k], steps[k])
  {
    if i == 0 then [] else AllHanded(run, steps, i - 1) + Handed(run[i - 1], steps[i - 1])
  }

  /** In every run the connections that came into the channel are those handed out, in
      that order, followed by those still in it. */
  lemma {:induction false} FirstComeFirstServed(poolCount: int, max: nat, run: seq<Pool>, steps: seq<Step>, i: nat)
    requires IsTrace(poolCount, max, run, steps) && i <= |steps|
    ensures AllEntered(steps, i) == AllHanded(run, steps, i) + run[i].idle && |run[i].idle| <= CHANNEL_LEN
  {
    if i > 0 {
      FirstComeFirstServed(poolCount, max, run, steps, i - 1);
      var s, a := run[i - 1], steps[i - 1];
      assert run[i - 1 + 1] == Do(s, a);
      ChannelInOrder(s, a);
      Rearrange(AllHanded(run, steps, i - 1), s.idle, Enters(a), Handed(s, a), run[i].idle);
    }
  }

  lemma Rearrange(h: seq<nat>, idle: seq<nat>, x: seq<nat>, y: seq<nat>, idle': seq<nat>)
    requires idle + x == y + idle'
    ensures (h + idle) + x == (h + y) + idle'
  {
    assert (h + idle) + x == h + (idle + x);
  }
}
