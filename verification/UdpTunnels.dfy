/** The user sockets of the client's udp tunnels. */
module UdpTunnels {
  import opened Bytes

  const MAX_UDP_USER_SESSIONS := 512
  const MAX_UDP_USER_SOCKETS := 1024

  /** What a tunnel is awaiting: the next frame; the bind and then the connect of
      a new user socket, which only exists once it is bound; a send. */
  datatype Phase = Reading | Opening(user: nat, sock: Option<nat>) | Sending(user: nat)

  datatype Tunnel = Tunnel(users: map<nat, nat>, phase: Phase)

  /** `tasks` are the user tasks that have not finished, `alive` the users whose
      flag is set, `counter` the client-wide count of user sockets. Sockets are
      numbered as they are bound. */
  datatype Client = Client(permits: nat, tunnels: map<nat, Tunnel>, counter: int,
                           tasks: set<nat>, alive: set<nat>, next: nat)

  datatype Step =
    | StartTunnel(t: nat)
    | EndTunnel(t: nat)
    | Datagram(t: nat, user: nat)
    | Bound(t: nat)
    | Connected(t: nat)
    | Sent(t: nat, ok: bool)
    | TaskEnds(sock: nat)

  function Start(permits: nat): Client {
    Client(permits, map[], 0, {}, {}, 0)
  }

  /** Room for one more user: forget the dead ones when the table is full, and all
      of them when that is not enough. */
  function MakeRoom(users: map<nat, nat>, user: nat, alive: set<nat>): (r: map<nat, nat>)
    ensures |users| <= MAX_UDP_USER_SESSIONS ==>
              |r| <= MAX_UDP_USER_SESSIONS && (|r| < MAX_UDP_USER_SESSIONS || user in r)
    ensures forall u | u in r :: u in users && r[u] == users[u]
  {
    if |users| >= MAX_UDP_USER_SESSIONS && user !in users then
      var kept := map u | u in users && users[u] in alive :: users[u];
      KeysShrink(kept, users);
      if |kept| >= MAX_UDP_USER_SESSIONS then map[] else kept
    else users
  }

  lemma SubsetSize(a: set<nat>, b: set<nat>)
    requires a <= b
    ensures |a| <= |b|
  {
    assert b == a + (b - a);
  }

  lemma KeysShrink(a: map<nat, nat>, b: map<nat, nat>)
    requires a.Keys <= b.Keys
    ensures |a| <= |b|
  {
    SubsetSize(a.Keys, b.Keys);
    assert |a| == |a.Keys| && |b| == |b.Keys|;
  }

  predicate At(s: Client, t: nat, p: Phase) {
    t in s.tunnels && s.tunnels[t].phase == p
  }

  predicate Enabled(s: Client, a: Step) {
    match a
    case StartTunnel(t) => t !in s.tunnels && |s.tunnels| < s.permits
    case EndTunnel(t) => t in s.tunnels
    case Datagram(t, _) => At(s, t, Reading)
    case Bound(t) => t in s.tunnels && s.tunnels[t].phase.Opening? && s.tunnels[t].phase.sock.None?
    case Connected(t) => t in s.tunnels && s.tunnels[t].phase.Opening? && s.tunnels[t].phase.sock.Some?
    case Sent(t, _) => t in s.tunnels && s.tunnels[t].phase.Sending?
    case TaskEnds(sock) => sock in s.tasks
  }

  function Put(s: Client, t: nat, users: map<nat, nat>, phase: Phase): Client {
    s.(tunnels := s.tunnels[t := Tunnel(users, phase)])
  }

  function Do(s: Client, a: Step): Client
    requires Enabled(s, a)
  {
    match a
    case StartTunnel(t) => Put(s, t, map[], Reading)
    case EndTunnel(t) => s.(tunnels := s.tunnels - {t})
    case Datagram(t, user) =>
      var users := MakeRoom(s.tunnels[t].users, user, s.alive);
      if user in users && users[user] in s.alive then Put(s, t, users, Sending(user))
      else if s.counter >= MAX_UDP_USER_SOCKETS then Put(s, t, users, Reading)
      else Put(s, t, users, Opening(user, None))
    case Bound(t) =>
      Put(s, t, s.tunnels[t].users, Opening(s.tunnels[t].phase.user, Some(s.next))).(next := s.next + 1)
    case Connected(t) =>
      var Opening(user, sock) := s.tunnels[t].phase;
      Put(s, t, s.tunnels[t].users[user := sock.value], Sending(user)).(
        counter := s.counter + 1, tasks := s.tasks + {sock.value}, alive := s.alive + {sock.value})
    case Sent(t, ok) =>
      var users := s.tunnels[t].users;
      var user := s.tunnels[t].phase.user;
      if ok || user !in users then Put(s, t, users, Reading)
      else Put(s, t, users - {user}, Reading).(alive := s.alive - {users[user]})
    case TaskEnds(sock) =>
      s.(counter := s.counter - 1, tasks := s.tasks - {sock}, alive := s.alive - {sock})
  }

  ghost predicate Next(s: Client, s': Client) {
    exists a :: Enabled(s, a) && s' == Do(s, a)
  }

  ghost predicate IsRun(permits: nat, run: seq<Client>) {
    && run != [] && run[0] == Start(permits)
    && forall i | 0 <= i < |run| - 1 :: Next(run[i], run[i + 1])
  }

  /** Tunnels between the cap check and the increment. */
  ghost function Openers(ts: map<nat, Tunnel>): set<nat> {
    set t | t in ts && ts[t].phase.Opening?
  }

  /** Sockets of users in some table. A table keeps its user's socket open even
      after the user's task has ended. */
  ghost function Tabled(ts: map<nat, Tunnel>): set<nat> {
    set t, u | t in ts && u in ts[t].users :: ts[t].users[u]
  }

  /** Sockets bound but not counted yet. */
  ghost function Uncounted(ts: map<nat, Tunnel>): set<nat> {
    set t | t in ts && ts[t].phase.Opening? && ts[t].phase.sock.Some? :: ts[t].phase.sock.value
  }

  /** Every open user socket. */
  ghost function OpenSockets(s: Client): set<nat> {
    s.tasks + Tabled(s.tunnels) + Uncounted(s.tunnels)
  }

  ghost function Stale(s: Client): set<nat> {
    Tabled(s.tunnels) - s.tasks
  }

  ghost predicate CountOk(s: Client) {
    && s.counter == |s.tasks|
    && |s.tunnels| <= s.permits
    && s.counter + |Openers(s.tunnels)| <= MAX_UDP_USER_SOCKETS - 1 + s.permits
    && s.alive <= s.tasks
  }

  ghost predicate TablesOk(ts: map<nat, Tunnel>) {
    forall t | t in ts ::
      && |ts[t].users| <= MAX_UDP_USER_SESSIONS
      && (ts[t].phase.Opening? ==> |ts[t].users| < MAX_UDP_USER_SESSIONS || ts[t].phase.user in ts[t].users)
  }

  /** Socket numbers are fresh, and a socket is counted only once it is connected. */
  ghost predicate SocketsOk(s: Client) {
    && (forall x | x in s.tasks :: x < s.next)
    && (forall t, u | t in s.tunnels && u in s.tunnels[t].users :: s.tunnels[t].users[u] < s.next)
    && (forall t | t in s.tunnels && s.tunnels[t].phase.Opening? && s.tunnels[t].phase.sock.Some? ::
          Lone(s, t, s.tunnels[t].phase.sock.value))
  }

  ghost predicate Lone(s: Client, t: nat, x: nat) {
    && x < s.next && x !in s.tasks
    && (forall t', u | t' in s.tunnels && u in s.tunnels[t'].users :: s.tunnels[t'].users[u] != x)
    && (forall t' | t' in s.tunnels && t' != t && s.tunnels[t'].phase.Opening? ::
          s.tunnels[t'].phase.sock != Some(x))
  }

  lemma OpenersBound(ts: map<nat, Tunnel>)
    ensures |Openers(ts)| <= |ts|
  {
    SubsetSize(Openers(ts), ts.Keys);
    assert |ts| == |ts.Keys|;
  }

  lemma DatagramCount(s: Client, t: nat, user: nat)
    requires CountOk(s) && Enabled(s, Datagram(t, user))
    ensures CountOk(Do(s, Datagram(t, user)))
  {
    var s' := Do(s, Datagram(t, user));
    assert s'.tunnels.Keys == s.tunnels.Keys;
    assert |s'.tunnels| == |s.tunnels|;
    if s'.tunnels[t].phase.Opening? {
      OpenersBound(s'.tunnels);
    } else {
      assert Openers(s'.tunnels) == Openers(s.tunnels);
    }
  }

  lemma StartCount(s: Client, t: nat)
    requires CountOk(s) && Enabled(s, StartTunnel(t))
    ensures CountOk(Do(s, StartTunnel(t)))
  {
    var s' := Do(s, StartTunnel(t));
    assert s'.tunnels.Keys == s.tunnels.Keys + {t};
    assert |s'.tunnels| == |s'.tunnels.Keys| && |s.tunnels| == |s.tunnels.Keys|;
    assert Openers(s'.tunnels) == Openers(s.tunnels);
  }

  lemma EndCount(s: Client, t: nat)
    requires CountOk(s) && Enabled(s, EndTunnel(t))
    ensures CountOk(Do(s, EndTunnel(t)))
  {
    var s' := Do(s, EndTunnel(t));
    SubsetSize(Openers(s'.tunnels), Openers(s.tunnels));
    KeepFewer(s.tunnels, t);
  }

  /** Opening, counting and sending leave the set of tunnels alone. */
  lemma InnerCount(s: Client, a: Step)
    requires CountOk(s) && SocketsOk(s) && Enabled(s, a) && (a.Bound? || a.Connected? || a.Sent?)
    ensures CountOk(Do(s, a))
  {
    var s' := Do(s, a);
    PutOpeners(s.tunnels, a.t, s'.tunnels[a.t]);
    if a.Connected? {
      var x := s.tunnels[a.t].phase.sock.value;
      assert x !in s.tasks by { assert Lone(s, a.t, x); }
      assert s'.tasks == s.tasks + {x} && |s'.tasks| == |s.tasks| + 1;
    } else {
      assert s'.tasks == s.tasks && s'.counter == s.counter;
    }
  }

  lemma PutOpeners(ts: map<nat, Tunnel>, t: nat, x: Tunnel)
    requires t in ts
    ensures |ts[t := x]| == |ts|
    ensures x.phase.Opening? == ts[t].phase.Opening? ==> Openers(ts[t := x]) == Openers(ts)
    ensures !x.phase.Opening? && ts[t].phase.Opening? ==> |Openers(ts[t := x])| == |Openers(ts)| - 1
  {
    assert ts[t := x].Keys == ts.Keys;
    assert |ts[t := x]| == |ts[t := x].Keys| && |ts| == |ts.Keys|;
    if !x.phase.Opening? && ts[t].phase.Opening? {
      assert Openers(ts[t := x]) == Openers(ts) - {t};
    }
  }

  lemma CountKeeps(s: Client, a: Step)
    requires CountOk(s) && SocketsOk(s) && Enabled(s, a)
    ensures CountOk(Do(s, a))
  {
    match a
    case StartTunnel(t) => StartCount(s, t);
    case EndTunnel(t) => EndCount(s, t);
    case Datagram(t, user) => DatagramCount(s, t, user);
    case TaskEnds(sock) =>
    case _ => InnerCount(s, a);
  }

  lemma KeepFewer(ts: map<nat, Tunnel>, t: nat)
    ensures |ts - {t}| <= |ts|
  {
    SubsetSize((ts - {t}).Keys, ts.Keys);
    assert |ts - {t}| == |(ts - {t}).Keys| && |ts| == |ts.Keys|;
  }

  lemma InsertSize(m: map<nat, nat>, k: nat, v: nat)
    ensures |m[k := v]| == if k in m then |m| else |m| + 1
  {
    assert m[k := v].Keys == m.Keys + {k};
    assert |m[k := v]| == |m[k := v].Keys| && |m| == |m.Keys|;
  }

  lemma RemoveSize(m: map<nat, nat>, k: nat)
    ensures |m - {k}| <= |m|
  {
    KeysShrink(m - {k}, m);
  }

  lemma TablesKeep(s: Client, a: Step)
    requires TablesOk(s.tunnels) && Enabled(s, a)
    ensures TablesOk(Do(s, a).tunnels)
  {
    match a
    case EndTunnel(t) =>
    case TaskEnds(_) =>
    case Connected(t) =>
      InsertSize(s.tunnels[t].users, s.tunnels[t].phase.user, s.tunnels[t].phase.sock.value);
      PutKeepsTables(s.tunnels, t, Do(s, a).tunnels[t]);
    case Sent(t, _) =>
      RemoveSize(s.tunnels[t].users, s.tunnels[t].phase.user);
      PutKeepsTables(s.tunnels, t, Do(s, a).tunnels[t]);
    case _ => PutKeepsTables(s.tunnels, a.t, Do(s, a).tunnels[a.t]);
  }

  lemma PutKeepsTables(ts: map<nat, Tunnel>, t: nat, x: Tunnel)
    requires TablesOk(ts) && |x.users| <= MAX_UDP_USER_SESSIONS
    requires x.phase.Opening? ==> |x.users| < MAX_UDP_USER_SESSIONS || x.phase.user in x.users
    ensures TablesOk(ts[t := x])
  {
  }

  lemma BoundSockets(s: Client, t: nat)
    requires SocketsOk(s) && Enabled(s, Bound(t))
    ensures SocketsOk(Do(s, Bound(t)))
  {
    var s' := Do(s, Bound(t));
    forall t' | t' in s'.tunnels && s'.tunnels[t'].phase.Opening? && s'.tunnels[t'].phase.sock.Some?
      ensures Lone(s', t', s'.tunnels[t'].phase.sock.value)
    {
      if t' != t {
        assert Lone(s, t', s.tunnels[t'].phase.sock.value);
      } else {
        assert forall o | o in s.tunnels && o != t && s.tunnels[o].phase.Opening? && s.tunnels[o].phase.sock.Some? ::
            s.tunnels[o].phase.sock.value < s.next;
      }
    }
  }

  /** A tunnel drops some of its users and opens nothing. */
  lemma PutSockets(s: Client, t: nat, users: map<nat, nat>, phase: Phase)
    requires SocketsOk(s) && (phase.Opening? ==> phase.sock.None?)
    requires forall u | u in users :: t in s.tunnels && u in s.tunnels[t].users && s.tunnels[t].users[u] == users[u]
    ensures SocketsOk(Put(s, t, users, phase))
  {
    FewerSockets(s, Put(s, t, users, phase));
  }

  lemma SameSockets(s: Client, s': Client)
    requires SocketsOk(s) && s'.tunnels == s.tunnels && s'.tasks <= s.tasks && s'.next == s.next
    ensures SocketsOk(s')
  {
    FewerSockets(s, s');
  }

  lemma SentSockets(s: Client, t: nat, ok: bool)
    requires SocketsOk(s) && Enabled(s, Sent(t, ok))
    ensures SocketsOk(Do(s, Sent(t, ok)))
  {
    var users, user := s.tunnels[t].users, s.tunnels[t].phase.user;
    PutSockets(s, t, users, Reading);
    PutSockets(s, t, users - {user}, Reading);
    SameSockets(Put(s, t, Do(s, Sent(t, ok)).tunnels[t].users, Reading), Do(s, Sent(t, ok)));
  }

  lemma SocketsKeep(s: Client, a: Step)
    requires SocketsOk(s) && Enabled(s, a)
    ensures SocketsOk(Do(s, a))
  {
    match a
    case StartTunnel(t) => PutSockets(s, t, map[], Reading);
    case EndTunnel(_) => FewerSockets(s, Do(s, a));
    case Datagram(t, _) => PutSockets(s, t, Do(s, a).tunnels[t].users, Do(s, a).tunnels[t].phase);
    case Bound(t) => BoundSockets(s, t);
    case Connected(t) => ConnectedSockets(s, t);
    case Sent(t, ok) => SentSockets(s, t, ok);
    case TaskEnds(_) => SameSockets(s, Do(s, a));
  }

  /** A step that binds and counts nothing. */
  lemma FewerSockets(s: Client, s': Client)
    requires SocketsOk(s) && s'.tasks <= s.tasks && s'.next == s.next
    requires forall t | t in s'.tunnels && s'.tunnels[t].phase.Opening? && s'.tunnels[t].phase.sock.Some? ::
               t in s.tunnels && s.tunnels[t].phase == s'.tunnels[t].phase
    requires forall t, u | t in s'.tunnels && u in s'.tunnels[t].users ::
               t in s.tunnels && u in s.tunnels[t].users && s.tunnels[t].users[u] == s'.tunnels[t].users[u]
    ensures SocketsOk(s')
  {
    forall t | t in s'.tunnels && s'.tunnels[t].phase.Opening? && s'.tunnels[t].phase.sock.Some?
      ensures Lone(s', t, s'.tunnels[t].phase.sock.value)
    {
      assert Lone(s, t, s'.tunnels[t].phase.sock.value);
    }
  }

  lemma ConnectedSockets(s: Client, t: nat)
    requires SocketsOk(s) && Enabled(s, Connected(t))
    ensures SocketsOk(Do(s, Connected(t)))
  {
    var s' := Do(s, Connected(t));
    assert Lone(s, t, s.tunnels[t].phase.sock.value);
    forall t' | t' in s'.tunnels && s'.tunnels[t'].phase.Opening? && s'.tunnels[t'].phase.sock.Some?
      ensures Lone(s', t', s'.tunnels[t'].phase.sock.value)
    {
      assert Lone(s, t', s.tunnels[t'].phase.sock.value);
    }
  }

  /** In every run: the counter is the number of unfinished user tasks, it stays
      within the cap plus one per permit, tunnels in the act of opening included,
      and no table outgrows its limit. */
  lemma {:induction false} UdpInEveryRun(permits: nat, run: seq<Client>, i: nat)
    requires IsRun(permits, run) && i < |run|
    ensures CountOk(run[i]) && TablesOk(run[i].tunnels) && SocketsOk(run[i]) && run[i].permits == permits
  {
    if i == 0 {
      assert Openers(run[0].tunnels) == {};
    } else {
      UdpInEveryRun(permits, run, i - 1);
      assert Next(run[i - 1], run[i - 1 + 1]);
      var a :| Enabled(run[i - 1], a) && run[i] == Do(run[i - 1], a);
      CountKeeps(run[i - 1], a);
      TablesKeep(run[i - 1], a);
      SocketsKeep(run[i - 1], a);
    }
  }

  /** A map from keys onto a set is at least as large as the set. */
  lemma {:induction false} ImageSize(m: map<nat, nat>, keys: set<nat>, image: set<nat>)
    requires keys <= m.Keys && image == (set k | k in keys :: m[k])
    ensures |image| <= |keys|
    decreases |keys|
  {
    if keys == {} {
      assert image == {};
    } else {
      var k :| k in keys;
      var rest := set j | j in keys - {k} :: m[j];
      ImageSize(m, keys - {k}, rest);
      assert image == rest + {m[k]};
    }
  }

  /** The tables of `ts` hold at most 512 sockets each. */
  lemma {:induction false} TabledBound(all: map<nat, Tunnel>, ts: set<nat>, socks: set<nat>)
    requires ts <= all.Keys && TablesOk(all)
    requires socks == (set t, u | t in ts && u in all[t].users :: all[t].users[u])
    ensures |socks| <= MAX_UDP_USER_SESSIONS * |ts|
    decreases |ts|
  {
    if ts == {} {
      assert socks == {};
    } else {
      var t :| t in ts;
      var rest := set t', u | t' in ts - {t} && u in all[t'].users :: all[t'].users[u];
      var m := all[t].users;
      var mine := set k | k in m.Keys :: m[k];
      TabledBound(all, ts - {t}, rest);
      ImageSize(m, m.Keys, mine);
      assert |m.Keys| == |m|;
      assert socks == rest + mine;
    }
  }

  /** The sockets that are bound and not counted belong to different tunnels. */
  lemma {:induction false} UncountedBound(ts: map<nat, Tunnel>)
    ensures |Uncounted(ts)| <= |Openers(ts)|
  {
    var m := map t | t in ts && ts[t].phase.Opening? && ts[t].phase.sock.Some? :: ts[t].phase.sock.value;
    forall x | x in Uncounted(ts)
      ensures x in (set k | k in m.Keys :: m[k])
    {
      var t :| t in ts && ts[t].phase.Opening? && ts[t].phase.sock == Some(x);
      assert t in m.Keys && m[t] == x;
    }
    ImageSize(m, m.Keys, Uncounted(ts));
    SubsetSize(m.Keys, Openers(ts));
  }

  lemma UncountedAlone(s: Client)
    requires SocketsOk(s)
    ensures s.tasks !! Stale(s) && Uncounted(s.tunnels) !! (s.tasks + Stale(s))
  {
    forall x | x in Uncounted(s.tunnels)
      ensures x !in s.tasks && x !in Tabled(s.tunnels)
    {
      var t :| t in s.tunnels && s.tunnels[t].phase.Opening? && s.tunnels[t].phase.sock == Some(x);
      assert Lone(s, t, x);
    }
  }

  /** How many user sockets are open, exactly: those counted, those being opened,
      and those that a table still holds after their task has ended. */
  lemma OpenSocketCount(permits: nat, run: seq<Client>, i: nat)
    requires IsRun(permits, run) && i < |run|
    ensures var s := run[i];
            && |OpenSockets(s)| == s.counter + |Uncounted(s.tunnels)| + |Stale(s)|
            && s.counter + |Uncounted(s.tunnels)| <= MAX_UDP_USER_SOCKETS - 1 + permits
            && |Stale(s)| <= MAX_UDP_USER_SESSIONS * permits
            && (Stale(s) == {} ==> |OpenSockets(s)| <= MAX_UDP_USER_SOCKETS - 1 + permits)
            && |OpenSockets(s)| <= MAX_UDP_USER_SOCKETS - 1 + (MAX_UDP_USER_SESSIONS + 1) * permits
  {
    var s := run[i];
    UdpInEveryRun(permits, run, i);
    UncountedBound(s.tunnels);
    ThreeKinds(s);
    StaleBound(s);
  }

  lemma ThreeKinds(s: Client)
    requires SocketsOk(s)
    ensures |OpenSockets(s)| == |s.tasks| + |Uncounted(s.tunnels)| + |Stale(s)|
  {
    UncountedAlone(s);
    assert OpenSockets(s) == s.tasks + Stale(s) + Uncounted(s.tunnels);
  }

  lemma StaleBound(s: Client)
    requires TablesOk(s.tunnels) && |s.tunnels| <= s.permits
    ensures |Stale(s)| <= MAX_UDP_USER_SESSIONS * s.permits
  {
    TabledBound(s.tunnels, s.tunnels.Keys, Tabled(s.tunnels));
    SubsetSize(Stale(s), Tabled(s.tunnels));
    assert |s.tunnels| == |s.tunnels.Keys|;
  }

  // ---- What leaves a socket open behind the counter's back.

  /** The one step that adds to the sockets open past their task: a task ends while
      its user is still in a table. */
  ghost predicate LeavesStale(s: Client, a: Step) {
    a.TaskEnds? && a.sock in Tabled(s.tunnels)
  }

  lemma TabledBy(ts: map<nat, Tunnel>, t: nat, u: nat)
    requires t in ts && u in ts[t].users
    ensures ts[t].users[u] in Tabled(ts)
  {
  }

  lemma TabledAfter(s: Client, a: Step)
    requires Enabled(s, a)
    ensures a.Connected? ==> Tabled(Do(s, a).tunnels) <= Tabled(s.tunnels) + {s.tunnels[a.t].phase.sock.value}
    ensures !a.Connected? ==> Tabled(Do(s, a).tunnels) <= Tabled(s.tunnels)
  {
    var s' := Do(s, a);
    forall x | x in Tabled(s'.tunnels) && !(a.Connected? && x == s.tunnels[a.t].phase.sock.value)
      ensures x in Tabled(s.tunnels)
    {
      var t, u :| t in s'.tunnels && u in s'.tunnels[t].users && s'.tunnels[t].users[u] == x;
      TabledBy(s.tunnels, t, u);
    }
  }

  lemma StaleGrowsIff(s: Client, a: Step)
    requires Enabled(s, a)
    ensures Stale(Do(s, a)) <= Stale(s) <==> !LeavesStale(s, a)
  {
    TabledAfter(s, a);
    if LeavesStale(s, a) {
      assert a.sock in Stale(Do(s, a)) && a.sock !in Stale(s);
    }
  }

  /** A run with its steps. */
  ghost predicate IsTrace(permits: nat, run: seq<Client>, steps: seq<Step>) {
    && |run| == |steps| + 1 && run[0] == Start(permits)
    && forall i | 0 <= i < |steps| :: Enabled(run[i], steps[i]) && run[i + 1] == Do(run[i], steps[i])
  }

  lemma TraceIsRun(permits: nat, run: seq<Client>, steps: seq<Step>)
    requires IsTrace(permits, run, steps)
    ensures IsRun(permits, run)
  {
    forall i | 0 <= i < |run| - 1
      ensures Next(run[i], run[i + 1])
    {
      assert Enabled(run[i], steps[i]);
    }
  }

  lemma {:induction false} NoneLeftStale(permits: nat, run: seq<Client>, steps: seq<Step>, i: nat)
    requires IsTrace(permits, run, steps) && i < |run|
    requires forall k | 0 <= k < i :: !LeavesStale(run[k], steps[k])
    ensures Stale(run[i]) == {}
  {
    if i > 0 {
      NoneLeftStale(permits, run, steps, i - 1);
      assert run[i - 1 + 1] == Do(run[i - 1], steps[i - 1]);
      StaleGrowsIff(run[i - 1], steps[i - 1]);
    }
  }

  /** Along a run every open socket belongs to an unfinished task or is being
      opened, always, if and only if no task ends while its user is in a table. */
  lemma NeverStaleIff(permits: nat, run: seq<Client>, steps: seq<Step>)
    requires IsTrace(permits, run, steps)
    ensures (forall i | 0 <= i < |run| :: Stale(run[i]) == {})
       <==> (forall i | 0 <= i < |steps| :: !LeavesStale(run[i], steps[i]))
  {
    if forall i | 0 <= i < |run| :: Stale(run[i]) == {} {
      forall i | 0 <= i < |steps|
        ensures !LeavesStale(run[i], steps[i])
      {
        assert Stale(run[i + 1]) == {};
        StaleGrowsIff(run[i], steps[i]);
      }
    }
    if forall i | 0 <= i < |steps| :: !LeavesStale(run[i], steps[i]) {
      forall i | 0 <= i < |run|
        ensures Stale(run[i]) == {}
      {
        NoneLeftStale(permits, run, steps, i);
      }
    }
  }

  /** In such a run the cap does bound the open sockets. */
  lemma CapBoundsSockets(permits: nat, run: seq<Client>, steps: seq<Step>, i: nat)
    requires IsTrace(permits, run, steps) && i < |run|
    requires forall k | 0 <= k < |steps| :: !LeavesStale(run[k], steps[k])
    ensures |OpenSockets(run[i])| <= MAX_UDP_USER_SOCKETS - 1 + permits
  {
    TraceIsRun(permits, run, steps);
    NoneLeftStale(permits, run, steps, i);
    OpenSocketCount(permits, run, i);
  }
}
