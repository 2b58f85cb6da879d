/** Which user a socket of a udp tunnel belongs to. */
module UdpUsers {
  import opened Bytes
  import opened UdpTunnels

  /** A datagram of a user whose task is running goes out through the socket the user
      has: nothing is opened, counted, replaced or closed. */
  lemma KnownUserKeepsSocket(s: Client, t: nat, user: nat)
    requires Enabled(s, Datagram(t, user))
    requires user in s.tunnels[t].users && s.tunnels[t].users[user] in s.alive
    ensures var s' := Do(s, Datagram(t, user));
            && s'.next == s.next && s'.counter == s.counter && s'.tasks == s.tasks && s'.alive == s.alive
            && s'.tunnels == s.tunnels[t := Tunnel(s.tunnels[t].users, Sending(user))]
            && Tabled(s'.tunnels) == Tabled(s.tunnels)
  {
    var s' := Do(s, Datagram(t, user));
    assert forall j | j in s.tunnels :: s'.tunnels[j].users == s.tunnels[j].users;
  }

  /** Only a full table loses users: the dead ones, or all when none is dead. */
  lemma RoomIsMadeSparingly(users: map<nat, nat>, user: nat, alive: set<nat>)
    requires |users| <= MAX_UDP_USER_SESSIONS
    ensures var r := MakeRoom(users, user, alive);
            var full := |users| == MAX_UDP_USER_SESSIONS && user !in users;
            var dead := exists u :: u in users && users[u] !in alive;
            && (!full ==> r == users)
            && (full && dead ==> forall u | u in users :: u in r <==> users[u] in alive)
            && (full && !dead ==> r == map[])
  {
    var kept := map u | u in users && users[u] in alive :: users[u];
    if u :| u in users && users[u] !in alive {
      SubsetSize(kept.Keys, users.Keys - {u});
      assert |kept| == |kept.Keys| && |users| == |users.Keys|;
    } else {
      assert kept == users;
    }
  }

  /** When a tunnel ends its permit is free again, and of its sockets only those whose
      tasks have not ended stay open. */
  lemma EndOfTunnel(s: Client, t: nat)
    requires t in s.tunnels && SocketsOk(s)
    ensures var s' := Do(s, EndTunnel(t));
            && t !in s'.tunnels && |s'.tunnels| == |s.tunnels| - 1
            && forall u | u in s.tunnels[t].users && s.tunnels[t].users[u] !in Tabled(s.tunnels - {t}) ::
                 s.tunnels[t].users[u] in OpenSockets(s') ==> s.tunnels[t].users[u] in s.tasks
  {
    var s' := Do(s, EndTunnel(t));
    assert s'.tunnels.Keys == s.tunnels.Keys - {t};
    assert |s'.tunnels| == |s'.tunnels.Keys| && |s.tunnels| == |s.tunnels.Keys|;
    assert forall j | j in s'.tunnels && s'.tunnels[j].phase.Opening? && s'.tunnels[j].phase.sock.Some? ::
        Lone(s, j, s'.tunnels[j].phase.sock.value);
  }

  // ---- One socket per user.

  /** The tunnel and the user that each socket was connected for. */
  type Owners = map<nat, (nat, nat)>

  function StepOwners(own: Owners, s: Client, a: Step): Owners
    requires Enabled(s, a)
  {
    if a.Connected? then own[s.tunnels[a.t].phase.sock.value := (a.t, s.tunnels[a.t].phase.user)] else own
  }

  /** The table is full of live users, and a new one comes. */
  ghost predicate Drains(users: map<nat, nat>, user: nat, alive: set<nat>) {
    |users| >= MAX_UDP_USER_SESSIONS && user !in users && forall u | u in users :: users[u] in alive
  }

  /** The sockets whose tasks a step cancels: that of a user whose send failed, those
      of a table that is emptied, those of a tunnel that ends. */
  ghost function StepCancels(s: Client, a: Step): set<nat>
    requires Enabled(s, a)
  {
    match a
    case Sent(t, ok) =>
      var users, user := s.tunnels[t].users, s.tunnels[t].phase.user;
      if !ok && user in users then {users[user]} else {}
    case Datagram(t, user) =>
      if Drains(s.tunnels[t].users, user, s.alive) then s.tunnels[t].users.Values else {}
    case EndTunnel(t) => s.tunnels[t].users.Values
    case _ => {}
  }

  function OwnersAt(run: seq<Client>, steps: seq<Step>, i: nat): Owners
    requires i <= |steps| <= |run| && forall k | 0 <= k < |steps| :: Enabled(run[k], steps[k])
  {
    if i == 0 then map[] else StepOwners(OwnersAt(run, steps, i - 1), run[i - 1], steps[i - 1])
  }

  ghost function CancelledAt(run: seq<Client>, steps: seq<Step>, i: nat): set<nat>
    requires i <= |steps| <= |run| && forall k | 0 <= k < |steps| :: Enabled(run[k], steps[k])
  {
    if i == 0 then {} else CancelledAt(run, steps, i - 1) + StepCancels(run[i - 1], steps[i - 1])
  }

  /** The table of tunnel `t` has socket `x` for user `u`. */
  predicate Has(s: Client, t: nat, u: nat, x: nat) {
    t in s.tunnels && u in s.tunnels[t].users && s.tunnels[t].users[u] == x
  }

  /** A running task that has not been cancelled is that of the socket its user has. */
  ghost predicate TasksOwned(s: Client, own: Owners, can: set<nat>) {
    forall x | x in s.tasks :: x in own && (x in can || Has(s, own[x].0, own[x].1, x))
  }

  /** A table holds the sockets that were connected for its users, and flags tell the
      truth about them. */
  ghost predicate TablesOwned(s: Client, own: Owners) {
    forall t: nat, u: nat, x :: Has(s, t, u, x) ==> x in own && own[x] == (t, u) && (x in s.tasks ==> x in s.alive)
  }

  /** A socket being opened belongs to nobody yet, and replaces no live one. */
  ghost predicate OpeningsNew(s: Client, own: Owners) {
    && (forall x | x in own :: x < s.next)
    && (forall t | t in s.tunnels && s.tunnels[t].phase.Opening? ::
          var p := s.tunnels[t].phase;
          && (p.sock.Some? ==> p.sock.value !in own)
          && (p.user in s.tunnels[t].users ==> s.tunnels[t].users[p.user] !in s.alive))
  }

  ghost predicate UsersOk(s: Client, own: Owners, can: set<nat>) {
    TasksOwned(s, own, can) && TablesOwned(s, own) && OpeningsNew(s, own)
  }

  /** A tunnel drops users whose tasks have ended, and opens nothing it could not. */
  lemma PutUsers(s: Client, own: Owners, can: set<nat>, t: nat, users: map<nat, nat>, phase: Phase)
    requires UsersOk(s, own, can) && t in s.tunnels
    requires forall u | u in users :: u in s.tunnels[t].users && s.tunnels[t].users[u] == users[u]
    requires forall u | u in s.tunnels[t].users && u !in users ::
               s.tunnels[t].users[u] in s.tasks ==> s.tunnels[t].users[u] in can
    requires phase.Opening? ==> phase.sock.None? && (phase.user in users ==> users[phase.user] !in s.alive)
    ensures UsersOk(Put(s, t, users, phase), own, can)
  {
    var s' := Put(s, t, users, phase);
    forall j: nat, u: nat, x | Has(s', j, u, x)
      ensures Has(s, j, u, x)
    {
    }
    forall x | x in s'.tasks
      ensures x in own && (x in can || Has(s', own[x].0, own[x].1, x))
    {
      if x !in can {
        assert Has(s, own[x].0, own[x].1, x);
      }
    }
  }

  lemma MoreCancelled(s: Client, own: Owners, can: set<nat>, more: set<nat>)
    requires UsersOk(s, own, can)
    ensures UsersOk(s, own, can + more)
  {
  }

  lemma DatagramUsers(s: Client, own: Owners, can: set<nat>, t: nat, user: nat)
    requires UsersOk(s, own, can) && TablesOk(s.tunnels) && Enabled(s, Datagram(t, user))
    ensures UsersOk(Do(s, Datagram(t, user)), own, can + StepCancels(s, Datagram(t, user)))
  {
    var a := Datagram(t, user);
    var users, s' := s.tunnels[t].users, Do(s, a);
    var room := MakeRoom(users, user, s.alive);
    RoomIsMadeSparingly(users, user, s.alive);
    MoreCancelled(s, own, can, StepCancels(s, a));
    forall u | u in users && u !in room
      ensures users[u] in s.tasks ==> users[u] in can + StepCancels(s, a)
    {
      assert Has(s, t, u, users[u]);
    }
    PutUsers(s, own, can + StepCancels(s, a), t, room, s'.tunnels[t].phase);
  }

  lemma SentUsers(s: Client, own: Owners, can: set<nat>, t: nat, ok: bool)
    requires UsersOk(s, own, can) && Enabled(s, Sent(t, ok))
    ensures UsersOk(Do(s, Sent(t, ok)), own, can + StepCancels(s, Sent(t, ok)))
  {
    var a := Sent(t, ok);
    var users, user := s.tunnels[t].users, s.tunnels[t].phase.user;
    MoreCancelled(s, own, can, StepCancels(s, a));
    assert user in users ==> Has(s, t, user, users[user]);
    if ok || user !in users {
      PutUsers(s, own, can + StepCancels(s, a), t, users, Reading);
    } else {
      PutUsers(s, own, can + {users[user]}, t, users - {user}, Reading);
      Unflag(Put(s, t, users - {user}, Reading), own, can + {users[user]}, users[user], t, user);
    }
  }

  /** The flag of a socket that is in no table is taken down. */
  lemma Unflag(s: Client, own: Owners, can: set<nat>, x: nat, t: nat, u: nat)
    requires UsersOk(s, own, can) && x in own && own[x] == (t, u) && !Has(s, t, u, x)
    ensures UsersOk(s.(alive := s.alive - {x}), own, can)
  {
    var s' := s.(alive := s.alive - {x});
    forall j: nat, v: nat, y | Has(s', j, v, y)
      ensures y in own && own[y] == (j, v) && (y in s'.tasks ==> y in s'.alive)
    {
      assert Has(s, j, v, y);
    }
    forall y | y in s'.tasks && y !in can
      ensures Has(s', own[y].0, own[y].1, y)
    {
      assert Has(s, own[y].0, own[y].1, y);
    }
  }

  lemma ConnectedUsers(s: Client, own: Owners, can: set<nat>, t: nat)
    requires UsersOk(s, own, can) && SocketsOk(s) && Enabled(s, Connected(t))
    ensures UsersOk(Do(s, Connected(t)), StepOwners(own, s, Connected(t)), can)
  {
    var s', own' := Do(s, Connected(t)), StepOwners(own, s, Connected(t));
    var x, user := s.tunnels[t].phase.sock.value, s.tunnels[t].phase.user;
    assert Lone(s, t, x);
    forall j: nat, u: nat, y | Has(s', j, u, y)
      ensures y in own' && own'[y] == (j, u) && (y in s'.tasks ==> y in s'.alive)
    {
      assert (j, u, y) == (t, user, x) || Has(s, j, u, y);
    }
    forall y | y in s'.tasks && y !in can
      ensures y in own' && Has(s', own'[y].0, own'[y].1, y)
    {
      if y != x {
        assert Has(s, own[y].0, own[y].1, y);
      }
    }
    forall j | j in s'.tunnels && s'.tunnels[j].phase.Opening?
      ensures var p := s'.tunnels[j].phase;
              && (p.sock.Some? ==> p.sock.value !in own')
              && (p.user in s'.tunnels[j].users ==> s'.tunnels[j].users[p.user] !in s'.alive)
    {
      var p := s.tunnels[j].phase;
      if p.user in s.tunnels[j].users {
        assert Has(s, j, p.user, s.tunnels[j].users[p.user]);
      }
    }
  }

  lemma BoundUsers(s: Client, own: Owners, can: set<nat>, t: nat)
    requires UsersOk(s, own, can) && Enabled(s, Bound(t))
    ensures UsersOk(Do(s, Bound(t)), own, can)
  {
    var s' := Do(s, Bound(t));
    forall j: nat, u: nat, x | Has(s', j, u, x)
      ensures Has(s, j, u, x)
    {
    }
    forall x | x in s'.tasks && x !in can
      ensures Has(s', own[x].0, own[x].1, x)
    {
      assert Has(s, own[x].0, own[x].1, x);
    }
  }

  lemma TaskEndsUsers(s: Client, own: Owners, can: set<nat>, sock: nat)
    requires UsersOk(s, own, can) && Enabled(s, TaskEnds(sock))
    ensures UsersOk(Do(s, TaskEnds(sock)), own, can)
  {
    var s' := Do(s, TaskEnds(sock));
    forall j: nat, u: nat, x | Has(s', j, u, x)
      ensures Has(s, j, u, x)
    {
    }
    forall x | x in s'.tasks && x !in can
      ensures Has(s', own[x].0, own[x].1, x)
    {
      assert Has(s, own[x].0, own[x].1, x);
    }
  }

  lemma StartUsers(s: Client, own: Owners, can: set<nat>, t: nat)
    requires UsersOk(s, own, can) && Enabled(s, StartTunnel(t))
    ensures UsersOk(Do(s, StartTunnel(t)), own, can)
  {
    var s' := Do(s, StartTunnel(t));
    forall j: nat, u: nat, x | Has(s', j, u, x)
      ensures Has(s, j, u, x)
    {
    }
    forall x | x in s'.tasks && x !in can
      ensures Has(s', own[x].0, own[x].1, x)
    {
      assert Has(s, own[x].0, own[x].1, x);
    }
  }

  lemma EndUsers(s: Client, own: Owners, can: set<nat>, t: nat)
    requires UsersOk(s, own, can) && Enabled(s, EndTunnel(t))
    ensures UsersOk(Do(s, EndTunnel(t)), own, can + StepCancels(s, EndTunnel(t)))
  {
    var s' := Do(s, EndTunnel(t));
    forall j: nat, u: nat, x | Has(s', j, u, x)
      ensures Has(s, j, u, x)
    {
    }
    forall x | x in s'.tasks && x !in can + s.tunnels[t].users.Values
      ensures Has(s', own[x].0, own[x].1, x)
    {
      assert Has(s, own[x].0, own[x].1, x);
    }
  }

  lemma StepUsers(s: Client, own: Owners, can: set<nat>, a: Step)
    requires UsersOk(s, own, can) && SocketsOk(s) && TablesOk(s.tunnels) && Enabled(s, a)
    ensures UsersOk(Do(s, a), StepOwners(own, s, a), can + StepCancels(s, a))
  {
    assert can + {} == can;
    match a
    case StartTunnel(t) => StartUsers(s, own, can, t);
    case EndTunnel(t) => EndUsers(s, own, can, t);
    case Datagram(t, user) => DatagramUsers(s, own, can, t, user);
    case Bound(t) => BoundUsers(s, own, can, t);
    case Connected(t) => ConnectedUsers(s, own, can, t);
    case Sent(t, ok) => SentUsers(s, own, can, t, ok);
    case TaskEnds(sock) => TaskEndsUsers(s, own, can, sock);
  }

  /** In every run: a socket whose task is running and has not been cancelled is the
      one that the table has for the user it was connected for. */
  lemma {:induction false} UsersInEveryRun(permits: nat, run: seq<Client>, steps: seq<Step>, i: nat)
    requires IsTrace(permits, run, steps) && i <= |steps|
    ensures UsersOk(run[i], OwnersAt(run, steps, i), CancelledAt(run, steps, i))
  {
    if i > 0 {
      UsersInEveryRun(permits, run, steps, i - 1);
      TraceIsRun(permits, run, steps);
      UdpInEveryRun(permits, run, i - 1);
      assert run[i - 1 + 1] == Do(run[i - 1], steps[i - 1]);
      StepUsers(run[i - 1], OwnersAt(run, steps, i - 1), CancelledAt(run, steps, i - 1), steps[i - 1]);
    }
  }

  /** So no user of a tunnel has two of them. */
  lemma OneSocketPerUser(permits: nat, run: seq<Client>, steps: seq<Step>, i: nat, x: nat, y: nat)
    requires IsTrace(permits, run, steps) && i <= |steps| && x in run[i].tasks && y in run[i].tasks
    requires x !in CancelledAt(run, steps, i) && y !in CancelledAt(run, steps, i)
    ensures var own := OwnersAt(run, steps, i); x in own && y in own && (own[x] == own[y] ==> x == y)
  {
    UsersInEveryRun(permits, run, steps, i);
  }
}
