/** Runs with as many open user sockets as there can be. */
module UdpCrowds {
  import opened Bytes
  import opened UdpTunnels

  lemma Then(permits: nat, run: seq<Client>, a: Step) returns (run': seq<Client>)
    requires IsRun(permits, run) && Enabled(run[|run| - 1], a)
    ensures IsRun(permits, run') && run'[|run'| - 1] == Do(run[|run| - 1], a)
  {
    var last := run[|run| - 1];
    run' := run + [Do(last, a)];
    assert Next(last, Do(last, a));
    forall i | 0 <= i < |run'| - 1
      ensures Next(run'[i], run'[i + 1])
    {
      if i < |run| - 1 { assert Next(run[i], run[i + 1]); }
    }
  }

  predicate Between(lo: nat, x: nat, hi: nat) {
    lo <= x < hi
  }

  function Range(lo: nat, hi: nat): (r: set<nat>)
    ensures forall x: nat :: x in r <==> lo <= x < hi
  {
    set x: nat | lo <= x < hi && Between(lo, x, hi)
  }

  lemma {:induction false} RangeSize(lo: nat, hi: nat)
    requires lo <= hi
    ensures |Range(lo, hi)| == hi - lo
    decreases hi - lo
  {
    if lo < hi {
      RangeSize(lo, hi - 1);
      assert Range(lo, hi) == Range(lo, hi - 1) + {hi - 1};
    }
  }

  /** Users 0 to `k - 1` hold the sockets from `from` on. */
  function Users(from: nat, k: nat): map<nat, nat> {
    map u | u in Range(0, k) :: from + u
  }

  lemma UsersSize(from: nat, k: nat)
    ensures |Users(from, k)| == k
  {
    RangeSize(0, k);
    assert Users(from, k).Keys == Range(0, k);
    assert |Users(from, k)| == |Users(from, k).Keys|;
  }

  /** The first socket of tunnel `j`, when `m` came before those of the tunnels. */
  function First(m: nat, j: nat): nat {
    m + MAX_UDP_USER_SESSIONS * j
  }

  /** Tunnels 0 to `t - 1` have full tables and tunnel `t` has `k` users. */
  function Tunnels(m: nat, t: nat, k: nat): map<nat, Tunnel> {
    map j | j in Range(0, t + 1) ::
      Tunnel(Users(First(m, j), if j < t then MAX_UDP_USER_SESSIONS else k), Reading)
  }

  /** In addition `m` sockets are in no table, their tasks not ended; the sockets
      from `d` on are those of live users, and the tasks of the others have ended. */
  function Crowd(permits: nat, m: nat, d: nat, t: nat, k: nat): Client
    requires d <= First(m, t) + k
  {
    var next := First(m, t) + k;
    Client(permits, Tunnels(m, t, k), m + next - d, Range(0, m) + Range(d, next), Range(d, next), next)
  }

  /** A user that is not in a table comes, and its datagram is sent. */
  lemma OneUser(run: seq<Client>, s: Client, t: nat, users: map<nat, nat>, user: nat) returns (run': seq<Client>)
    requires IsRun(s.permits, run) && run[|run| - 1] == s
    requires t in s.tunnels && s.tunnels[t] == Tunnel(users, Reading) && user !in users
    requires |users| < MAX_UDP_USER_SESSIONS && s.counter < MAX_UDP_USER_SOCKETS
    ensures IsRun(s.permits, run')
    ensures run'[|run'| - 1] == s.(tunnels := s.tunnels[t := Tunnel(users[user := s.next], Reading)],
                                   counter := s.counter + 1, tasks := s.tasks + {s.next},
                                   alive := s.alive + {s.next}, next := s.next + 1)
  {
    run' := Connect(run, s, t, users, user);
    run' := Then(s.permits, run', Sent(t, true));
    assert run'[|run'| - 1].tunnels == s.tunnels[t := Tunnel(users[user := s.next], Reading)];
  }

  lemma Connect(run: seq<Client>, s: Client, t: nat, users: map<nat, nat>, user: nat) returns (run': seq<Client>)
    requires IsRun(s.permits, run) && run[|run| - 1] == s
    requires t in s.tunnels && s.tunnels[t] == Tunnel(users, Reading) && user !in users
    requires |users| < MAX_UDP_USER_SESSIONS && s.counter < MAX_UDP_USER_SOCKETS
    ensures IsRun(s.permits, run')
    ensures run'[|run'| - 1] == s.(tunnels := s.tunnels[t := Tunnel(users[user := s.next], Sending(user))],
                                   counter := s.counter + 1, tasks := s.tasks + {s.next},
                                   alive := s.alive + {s.next}, next := s.next + 1)
  {
    run' := Then(s.permits, run, Datagram(t, user));
    run' := Then(s.permits, run', Bound(t));
    assert run'[|run'| - 1].tunnels == s.tunnels[t := Tunnel(users, Opening(user, Some(s.next)))];
    run' := Then(s.permits, run', Connected(t));
    assert run'[|run'| - 1].tunnels == s.tunnels[t := Tunnel(users[user := s.next], Sending(user))];
  }

  /** A user comes and its send fails: its task is cancelled and has not ended yet. */
  lemma OneFailed(run: seq<Client>, s: Client, t: nat, users: map<nat, nat>, user: nat) returns (run': seq<Client>)
    requires IsRun(s.permits, run) && run[|run| - 1] == s
    requires t in s.tunnels && s.tunnels[t] == Tunnel(users, Reading) && user !in users
    requires |users| < MAX_UDP_USER_SESSIONS && s.counter < MAX_UDP_USER_SOCKETS && s.next !in s.alive
    ensures IsRun(s.permits, run')
    ensures run'[|run'| - 1] == s.(counter := s.counter + 1, tasks := s.tasks + {s.next}, next := s.next + 1)
  {
    run' := Connect(run, s, t, users, user);
    run' := Then(s.permits, run', Sent(t, false));
    assert users[user := s.next] - {user} == users;
    assert run'[|run'| - 1].tunnels == s.tunnels;
    assert run'[|run'| - 1].alive == s.alive;
  }

  lemma OneMoreUser(m: nat, t: nat, k: nat)
    requires k < MAX_UDP_USER_SESSIONS
    ensures var next := First(m, t) + k;
            Tunnels(m, t, k)[t := Tunnel(Users(First(m, t), k)[k := next], Reading)] == Tunnels(m, t, k + 1)
  {
    var from := First(m, t);
    assert Users(from, k)[k := from + k] == Users(from, k + 1);
  }

  lemma MoreLive(m: nat, d: nat, next: nat)
    requires d <= next
    ensures Range(d, next + 1) == Range(d, next) + {next}
    ensures Range(0, m) + Range(d, next + 1) == Range(0, m) + Range(d, next) + {next}
  {
  }

  lemma AddLive(permits: nat, run: seq<Client>, m: nat, d: nat, t: nat, k: nat) returns (run': seq<Client>)
    requires d <= First(m, t) + k && k < MAX_UDP_USER_SESSIONS && m + First(m, t) + k - d < MAX_UDP_USER_SOCKETS
    requires IsRun(permits, run) && run[|run| - 1] == Crowd(permits, m, d, t, k)
    ensures IsRun(permits, run') && run'[|run'| - 1] == Crowd(permits, m, d, t, k + 1)
  {
    var s := Crowd(permits, m, d, t, k);
    UsersSize(First(m, t), k);
    run' := OneUser(run, s, t, Users(First(m, t), k), k);
    OneMoreUser(m, t, k);
    MoreLive(m, d, s.next);
  }

  lemma AddDead(permits: nat, run: seq<Client>, m: nat, t: nat, k: nat) returns (run': seq<Client>)
    requires k < MAX_UDP_USER_SESSIONS && m < MAX_UDP_USER_SOCKETS
    requires IsRun(permits, run) && run[|run| - 1] == Crowd(permits, m, First(m, t) + k, t, k)
    ensures IsRun(permits, run') && run'[|run'| - 1] == Crowd(permits, m, First(m, t) + k + 1, t, k + 1)
  {
    var next := First(m, t) + k;
    run' := AddLive(permits, run, m, next, t, k);
    run' := Then(permits, run', TaskEnds(next));
    assert Range(next, next + 1) == {next};
    assert run'[|run'| - 1].tasks == Range(0, m) + Range(next + 1, next + 1);
    assert run'[|run'| - 1].alive == Range(next + 1, next + 1);
  }

  lemma NextTunnel(permits: nat, run: seq<Client>, m: nat, d: nat, t: nat) returns (run': seq<Client>)
    requires d <= First(m, t) + MAX_UDP_USER_SESSIONS && t + 1 < permits
    requires IsRun(permits, run) && run[|run| - 1] == Crowd(permits, m, d, t, MAX_UDP_USER_SESSIONS)
    ensures IsRun(permits, run') && run'[|run'| - 1] == Crowd(permits, m, d, t + 1, 0)
  {
    TunnelCount(m, t, MAX_UDP_USER_SESSIONS);
    run' := Then(permits, run, StartTunnel(t + 1));
    assert run'[|run'| - 1].tunnels == Tunnels(m, t + 1, 0);
  }

  lemma TunnelCount(m: nat, t: nat, k: nat)
    ensures |Tunnels(m, t, k)| == t + 1
  {
    RangeSize(0, t + 1);
    assert Tunnels(m, t, k).Keys == Range(0, t + 1);
    assert |Tunnels(m, t, k)| == |Tunnels(m, t, k).Keys|;
  }

  /** One tunnel, and `m` users whose sends have failed. */
  lemma {:induction false} Failures(permits: nat, m: nat) returns (run: seq<Client>)
    requires permits > 0 && m < MAX_UDP_USER_SOCKETS
    ensures IsRun(permits, run) && run[|run| - 1] == Crowd(permits, m, m, 0, 0)
    decreases m
  {
    if m == 0 {
      run := Then(permits, [Start(permits)], StartTunnel(0));
      FirstTunnel(permits);
    } else {
      run := Failures(permits, m - 1);
      OneMoreFailure(permits, m - 1);
      run := OneFailed(run, run[|run| - 1], 0, map[], 0);
    }
  }

  lemma FirstTunnel(permits: nat)
    ensures Put(Start(permits), 0, map[], Reading) == Crowd(permits, 0, 0, 0, 0)
  {
    assert Users(First(0, 0), 0) == map[];
    assert forall j :: j in Range(0, 1) <==> j == 0;
    assert Tunnels(0, 0, 0) == map[0 := Tunnel(map[], Reading)];
    assert Range(0, 0) + Range(0, 0) == {} && Range(0, 0) == {};
  }

  lemma OneMoreFailure(permits: nat, m: nat)
    ensures var s := Crowd(permits, m, m, 0, 0);
            s.(counter := m + 1, tasks := s.tasks + {m}, next := m + 1) == Crowd(permits, m + 1, m + 1, 0, 0)
    ensures Tunnels(m, 0, 0)[0] == Tunnel(map[], Reading) && Crowd(permits, m, m, 0, 0).alive == {}
  {
    assert Users(m, 0) == map[] && Users(m + 1, 0) == map[];
    assert Tunnels(m, 0, 0) == Tunnels(m + 1, 0, 0);
    assert Range(m, m) == {} && Range(m + 1, m + 1) == {};
    assert Range(0, m) + {m} == Range(0, m + 1);
  }

  lemma NextQuiet(permits: nat, run: seq<Client>, m: nat, t: nat) returns (run': seq<Client>)
    requires t + 1 < permits && IsRun(permits, run)
    requires run[|run| - 1] == Crowd(permits, m, First(m, t) + MAX_UDP_USER_SESSIONS, t, MAX_UDP_USER_SESSIONS)
    ensures IsRun(permits, run') && run'[|run'| - 1] == Crowd(permits, m, First(m, t + 1), t + 1, 0)
  {
    assert First(m, t) + MAX_UDP_USER_SESSIONS == First(m, t + 1);
    run' := NextTunnel(permits, run, m, First(m, t + 1), t);
  }

  /** Tunnels full of users that have gone quiet. */
  lemma {:induction false} Quiet(permits: nat, m: nat, t: nat, k: nat) returns (run: seq<Client>)
    requires t < permits && k <= MAX_UDP_USER_SESSIONS && m < MAX_UDP_USER_SOCKETS
    ensures IsRun(permits, run) && run[|run| - 1] == Crowd(permits, m, First(m, t) + k, t, k)
    decreases t, k
  {
    if k > 0 {
      run := Quiet(permits, m, t, k - 1);
      run := AddDead(permits, run, m, t, k - 1);
    } else if t > 0 {
      run := Quiet(permits, m, t - 1, MAX_UDP_USER_SESSIONS);
      run := NextQuiet(permits, run, m, t - 1);
    } else {
      run := Failures(permits, m);
    }
  }

  // ---- All counted sockets belong to live users.

  lemma {:induction false} Lively(permits: nat, t: nat, k: nat) returns (run: seq<Client>)
    requires 1 <= t <= 2 < permits && k <= MAX_UDP_USER_SESSIONS
    ensures IsRun(permits, run) && run[|run| - 1] == Crowd(permits, 0, MAX_UDP_USER_SESSIONS, t, k)
    decreases t, k
  {
    if k > 0 {
      run := Lively(permits, t, k - 1);
      run := AddLive(permits, run, 0, MAX_UDP_USER_SESSIONS, t, k - 1);
    } else if t == 2 {
      run := Lively(permits, 1, MAX_UDP_USER_SESSIONS);
      run := NextTunnel(permits, run, 0, MAX_UDP_USER_SESSIONS, 1);
    } else {
      run := Quiet(permits, 0, 0, MAX_UDP_USER_SESSIONS);
      run := NextTunnel(permits, run, 0, MAX_UDP_USER_SESSIONS, 0);
    }
  }

  /** Three tunnels, 1024 live users, and 512 more sockets open that are not
      counted. */
  lemma CapDoesNotBoundSockets(permits: nat) returns (run: seq<Client>)
    requires permits >= 3
    ensures IsRun(permits, run)
    ensures var s := run[|run| - 1];
            && |s.tunnels| == 3 && s.counter == MAX_UDP_USER_SOCKETS && s.alive == s.tasks
            && |OpenSockets(s)| == MAX_UDP_USER_SOCKETS + MAX_UDP_USER_SESSIONS
  {
    run := Lively(permits, 2, MAX_UDP_USER_SESSIONS);
    var s := run[|run| - 1];
    TunnelCount(0, 2, MAX_UDP_USER_SESSIONS);
    assert s.alive == s.tasks;
    AllOpen(0, s.tunnels, 2);
    assert Uncounted(s.tunnels) == {};
    assert OpenSockets(s) == Range(0, s.next);
    RangeSize(0, s.next);
  }

  /** The sockets in the tables of `t + 1` full tunnels. */
  lemma AllOpen(m: nat, ts: map<nat, Tunnel>, t: nat)
    requires ts.Keys == Range(0, t + 1)
    requires forall j | j in ts :: ts[j].users == Users(First(m, j), MAX_UDP_USER_SESSIONS)
    ensures Tabled(ts) == Range(m, First(m, t + 1))
  {
    forall x: nat | x in Range(m, First(m, t + 1))
      ensures x in Tabled(ts)
    {
      var j, u := (x - m) / MAX_UDP_USER_SESSIONS, (x - m) % MAX_UDP_USER_SESSIONS;
      assert j in ts && u in ts[j].users;
      TabledBy(ts, j, u);
      assert ts[j].users[u] == x;
    }
    forall x | x in Tabled(ts)
      ensures x in Range(m, First(m, t + 1))
    {
      var j, u :| j in ts && u in ts[j].users && ts[j].users[u] == x;
      assert x == First(m, j) + u;
    }
  }

  // ---- The bound is attained.

  /** All `t + 1` tunnels have a full table of quiet users; the first `b` of them
      have just bound a socket for a user that came back. */
  function Openings(m: nat, t: nat, b: nat): map<nat, Tunnel> {
    map j | j in Range(0, t + 1) ::
      Tunnel(Users(First(m, j), MAX_UDP_USER_SESSIONS),
             if j < b then Opening(0, Some(First(m, t + 1) + j)) else Reading)
  }

  function Opened(permits: nat, m: nat, t: nat, b: nat): Client {
    Client(permits, Openings(m, t, b), m, Range(0, m), {}, First(m, t + 1) + b)
  }

  lemma OneMoreOpening(permits: nat, run: seq<Client>, m: nat, t: nat, b: nat) returns (run': seq<Client>)
    requires b <= t && m < MAX_UDP_USER_SOCKETS
    requires IsRun(permits, run) && run[|run| - 1] == Opened(permits, m, t, b)
    ensures IsRun(permits, run') && run'[|run'| - 1] == Opened(permits, m, t, b + 1)
  {
    var s := Opened(permits, m, t, b);
    var users := Users(First(m, b), MAX_UDP_USER_SESSIONS);
    NextOpening(m, t, b, users);
    run' := ComeBack(run, s, b, users, 0);
  }

  lemma NextOpening(m: nat, t: nat, b: nat, users: map<nat, nat>)
    requires b <= t && users == Users(First(m, b), MAX_UDP_USER_SESSIONS)
    ensures Openings(m, t, b)[b] == Tunnel(users, Reading) && 0 in users
    ensures Openings(m, t, b)[b := Tunnel(users, Opening(0, Some(First(m, t + 1) + b)))] == Openings(m, t, b + 1)
  {
  }

  /** A user in a table whose task has ended comes back: a socket is bound for it. */
  lemma ComeBack(run: seq<Client>, s: Client, t: nat, users: map<nat, nat>, user: nat) returns (run': seq<Client>)
    requires IsRun(s.permits, run) && run[|run| - 1] == s
    requires t in s.tunnels && s.tunnels[t] == Tunnel(users, Reading) && user in users && users[user] !in s.alive
    requires s.counter < MAX_UDP_USER_SOCKETS
    ensures IsRun(s.permits, run')
    ensures run'[|run'| - 1] == s.(tunnels := s.tunnels[t := Tunnel(users, Opening(user, Some(s.next)))],
                                   next := s.next + 1)
  {
    run' := Then(s.permits, run, Datagram(t, user));
    run' := Then(s.permits, run', Bound(t));
    assert run'[|run'| - 1].tunnels == s.tunnels[t := Tunnel(users, Opening(user, Some(s.next)))];
  }

  lemma {:induction false} ManyOpening(permits: nat, m: nat, t: nat, b: nat) returns (run: seq<Client>)
    requires b <= t + 1 <= permits && m < MAX_UDP_USER_SOCKETS
    ensures IsRun(permits, run) && run[|run| - 1] == Opened(permits, m, t, b)
    decreases b
  {
    if b == 0 {
      run := Quiet(permits, m, t, MAX_UDP_USER_SESSIONS);
      assert Tunnels(m, t, MAX_UDP_USER_SESSIONS) == Openings(m, t, 0);
      var next := First(m, t + 1);
      assert Range(0, m) + Range(next, next) == Range(0, m) && Range(next, next) == {};
    } else {
      run := ManyOpening(permits, m, t, b - 1);
      run := OneMoreOpening(permits, run, m, t, b - 1);
    }
  }

  lemma AllOpening(m: nat, t: nat)
    ensures Uncounted(Openings(m, t, t + 1)) == Range(First(m, t + 1), First(m, t + 1) + t + 1)
  {
    var ts, from := Openings(m, t, t + 1), First(m, t + 1);
    forall x: nat | x in Range(from, from + t + 1)
      ensures x in Uncounted(ts)
    {
      assert (x - from) in ts && ts[x - from].phase.sock == Some(x);
    }
  }

  /** With any number of tunnels the general bound is reached: the cap less one, and
      for each tunnel its full table and one socket about to be counted. */
  lemma BoundIsAttained(permits: nat) returns (run: seq<Client>)
    requires permits > 0
    ensures IsRun(permits, run)
    ensures |OpenSockets(run[|run| - 1])| == MAX_UDP_USER_SOCKETS - 1 + (MAX_UDP_USER_SESSIONS + 1) * permits
  {
    var m, t := MAX_UDP_USER_SOCKETS - 1, permits - 1;
    run := ManyOpening(permits, m, t, permits);
    var s := run[|run| - 1];
    assert s.tunnels.Keys == Range(0, t + 1);
    AllOpen(m, s.tunnels, t);
    AllOpening(m, t);
    assert OpenSockets(s) == Range(0, s.next);
    RangeSize(0, s.next);
  }
}
