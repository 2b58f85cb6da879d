/** What a control claims: names and ports of its proxies. */
module FrpsClaims {
  import opened Bytes
  import opened PortTables
  import opened Frps

  /** The registration has its name, and has not been refused. */
  predicate Claiming(c: Control) {
    c.reg.Some? && (c.reg.value.stage.Config? || Holding(c))
  }

  /** The registration has its port as well. */
  predicate Holding(c: Control) {
    && c.reg.Some?
    && var st := c.reg.value.stage;
       st.Binding? || ((st.Sending? || st.Flushing?) && st.ok)
  }

  /** The registration in flight is for this port and name. */
  predicate ForReg(c: Control, k: Kind, p: nat, n: string) {
    c.reg.Some? && c.reg.value.kind == k && c.reg.value.port == p && c.reg.value.name == n
  }

  predicate Registering(c: Control, k: Kind, p: nat, n: string) {
    Holding(c) && ForReg(c, k, p, n)
  }

  /** A spawned proxy that has not been closed. */
  predicate Live(c: Control, l: Listener) {
    l in c.spawned && l.name in c.proxies && c.proxies[l.name] == l.token
  }

  ghost predicate Owns(c: Control, k: Kind, p: nat, n: string) {
    Registering(c, k, p, n) || exists l :: Live(c, l) && l.kind == k && l.port == p && l.name == n
  }

  predicate Uses(c: Control, n: string) {
    n in c.proxies || (Claiming(c) && c.reg.value.name == n)
  }

  lemma OwnsUses(c: Control, k: Kind, p: nat, n: string)
    requires Owns(c, k, p, n)
    ensures Uses(c, n)
  {
  }

  /** A name in use is that of the registration or of a live proxy. */
  ghost predicate Named(c: Control) {
    forall n | n in c.proxies ::
      (Claiming(c) && c.reg.value.name == n) || exists l :: Live(c, l) && l.name == n
  }

  /** The registration has a token of its own, and its name while the control is
      up. */
  ghost predicate ClaimOk(c: Control) {
    Claiming(c) ==>
      var r := c.reg.value;
      && r.token < c.nextToken
      && (c.online ==> r.name in c.proxies)
      && (r.name in c.proxies ==> c.proxies[r.name] == r.token)
      && (forall l | l in c.spawned :: l.token != r.token)
  }

  ghost predicate TokensOk(c: Control) {
    && (forall l | l in c.spawned :: l.token < c.nextToken)
    && (forall n | n in c.proxies :: c.proxies[n] < c.nextToken)
    && (forall l, m | l in c.spawned && m in c.spawned && l.token == m.token :: l == m)
  }

  /** The bookkeeping of one control. */
  ghost predicate Tidy(c: Control) {
    && ClaimOk(c) && Named(c) && TokensOk(c)
    && (!c.online ==> c.cancelled && c.proxies == map[])
  }

  ghost predicate AllTidy(cs: map<nat, Control>) {
    forall id | id in cs :: Tidy(cs[id])
  }

  lemma ClaimIsNotLive(c: Control)
    requires Tidy(c) && Claiming(c)
    ensures forall l :: Live(c, l) ==> l.name != c.reg.value.name
  {
  }

  /** A control whose claims do not change. */
  predicate SameClaims(c: Control, c': Control) {
    && c'.proxies == c.proxies && c'.spawned == c.spawned && c'.nextToken >= c.nextToken
    && SameIdentity(c, c')
    && Claiming(c') == Claiming(c) && Holding(c') == Holding(c)
    && (Claiming(c) ==> c'.reg.value.(stage := Config) == c.reg.value.(stage := Config))
  }

  lemma SameClaimsMeans(c: Control, c': Control)
    requires SameClaims(c, c')
    ensures forall l :: Live(c', l) == Live(c, l)
    ensures forall k, p: nat, n :: Registering(c', k, p, n) == Registering(c, k, p, n)
  {
  }

  lemma TidySame(c: Control, c': Control)
    requires Tidy(c) && SameClaims(c, c')
    ensures Tidy(c')
  {
    SameClaimsMeans(c, c');
    forall n | n in c'.proxies && !(Claiming(c') && c'.reg.value.name == n)
      ensures exists l :: Live(c', l) && l.name == n
    {
      var l :| Live(c, l) && l.name == n;
      assert Live(c', l);
    }
  }

  /** The acts that move messages, not proxies. */
  predicate MovesMessages(act: Act) {
    act.Enqueue? || act.QueueOther? || act.Take? || act.Wrote? || act.WriterQuits? || act.StartWork?
  }

  lemma WroteSameClaims(c: Control, ok: bool)
    requires c.writer.Writing?
    ensures SameClaims(c, DoWrote(c, ok))
  {
  }

  lemma MessagesSameClaims(stopped: bool, c: Control, t: Tables, act: Act)
    requires CanAct(stopped, c, act) && MovesMessages(act)
    ensures SameClaims(c, DoAct(stopped, c, t, act).0) && DoAct(stopped, c, t, act).1 == t
  {
    if act.Wrote? {
      WroteSameClaims(c, act.ok);
    }
  }

  // ---- The bookkeeping of every control is in order in every run.

  /** Every name left is that of a proxy that stays live. */
  lemma StillNamed(c: Control, c': Control)
    requires Named(c) && c'.proxies.Keys <= c.proxies.Keys && c.spawned <= c'.spawned
    requires forall n | n in c'.proxies :: c'.proxies[n] == c.proxies[n]
    requires forall n | n in c'.proxies && Claiming(c) && c.reg.value.name == n ::
               Claiming(c') && c'.reg.value.name == n
    ensures Named(c')
  {
    forall n | n in c'.proxies && !(Claiming(c') && c'.reg.value.name == n)
      ensures exists l :: Live(c', l) && l.name == n
    {
      var l :| Live(c, l) && l.name == n;
      assert Live(c', l);
    }
  }

  lemma RefuseTidy(c: Control)
    requires Tidy(c) && Claiming(c)
    ensures Tidy(Refuse(c, c.reg.value))
  {
    StillNamed(c, Refuse(c, c.reg.value));
  }

  lemma GrantTidy(c: Control)
    requires Tidy(c) && Claiming(c)
    ensures Tidy(c.(reg := Some(c.reg.value.(stage := Binding))))
  {
    StillNamed(c, c.(reg := Some(c.reg.value.(stage := Binding))));
  }

  lemma NewProxyTidy(stopped: bool, c: Control, act: Act)
    requires Tidy(c) && act.NewProxy? && CanAct(stopped, c, act)
    ensures Tidy(DoNewProxy(stopped, c, act.name, act.kind, act.port, act.plain))
  {
    var c' := DoNewProxy(stopped, c, act.name, act.kind, act.port, act.plain);
    if Claiming(c') {
      forall n | n in c'.proxies && n != act.name
        ensures exists l :: Live(c', l) && l.name == n
      {
        assert n in c.proxies;
        var l :| Live(c, l) && l.name == n;
        assert Live(c', l);
      }
    } else {
      TidySame(c, c');
    }
  }

  lemma CloseTidy(c: Control, t: Tables, name: string)
    requires Tidy(c) && (Claiming(c) ==> c.reg.value.name != name)
    ensures Tidy(DoClose(c, t, name).0)
  {
    StillNamed(c, DoClose(c, t, name).0);
  }

  lemma UndoTidy(c: Control, t: Tables)
    requires Tidy(c) && Holding(c)
    ensures Tidy(DoClose(c.(reg := None), t, c.reg.value.name).0)
  {
    StillNamed(c, DoClose(c.(reg := None), t, c.reg.value.name).0);
  }

  /** The control after a registration has succeeded. */
  function Spawned(c: Control): Control
    requires c.reg.Some?
  {
    c.(reg := None, spawned := c.spawned + {RegListener(c)})
  }

  function RegListener(c: Control): Listener
    requires c.reg.Some?
  {
    var r := c.reg.value;
    Listener(r.name, r.kind, r.port, r.token)
  }

  lemma SpawnTidy(c: Control)
    requires Tidy(c) && Holding(c) && c.online
    ensures Tidy(Spawned(c))
  {
    var c' := Spawned(c);
    forall n | n in c'.proxies
      ensures exists l :: Live(c', l) && l.name == n
    {
      if n == c.reg.value.name {
        assert Live(c', RegListener(c));
      } else {
        var l :| Live(c, l) && l.name == n;
        assert Live(c', l);
      }
    }
  }

  lemma FinishTidy(stopped: bool, c: Control, t: Tables)
    requires Tidy(c) && c.reg.Some? && (c.reg.value.stage.Sending? || c.reg.value.stage.Flushing?)
    ensures Tidy(Finish(stopped, c, t, c.reg.value).0)
  {
    var r := c.reg.value;
    if !r.stage.ok {
      TidySame(c, c.(reg := None));
    } else if TokenCancelled(stopped, c, r.token) {
      UndoTidy(c, Release(t, r.kind, r.port, r.name));
    } else {
      SpawnTidy(c);
    }
  }

  lemma ActTidy(stopped: bool, c: Control, t: Tables, act: Act)
    requires Tidy(c) && CanAct(stopped, c, act)
    ensures Tidy(DoAct(stopped, c, t, act).0)
  {
    match act
    case NewProxy(_, _, _, _) => NewProxyTidy(stopped, c, act);
    case Configured(_, _) =>
      RefuseTidy(c);
      GrantTidy(c);
    case Bound(ok) =>
      RefuseTidy(c);
      TidySame(c, c.(reg := Some(c.reg.value.(stage := Sending(true)))));
    case Abandon => FinishTidy(stopped, c, t);
    case Flushed => FinishTidy(stopped, c, t);
    case CloseProxy(name) => CloseTidy(c, t, name);
    case _ =>
      MessagesSameClaims(stopped, c, t, act);
      TidySame(c, DoAct(stopped, c, t, act).0);
  }

  lemma DownedTidy(c: Control)
    requires Tidy(c)
    ensures Tidy(Downed(c))
  {
  }

  lemma StepTidy(s: State, a: Step)
    requires AllTidy(s.ctl) && Enabled(s, a)
    ensures AllTidy(Do(s, a).ctl)
  {
    match a
    case Login(runId, id) =>
    case Replace(runId) =>
      if runId in s.registry && s.registry[runId] in s.ctl {
        DownedTidy(s.ctl[s.registry[runId]]);
      }
    case TearDown(id) => DownedTidy(s.ctl[id]);
    case Stop =>
    case Local(id, act) => ActTidy(s.stopped, s.ctl[id], s.tables, act);
  }

  /** In every run, shared names or not: a name in use belongs to the registration
      in flight or to a live proxy, and tokens tell proxies apart. */
  lemma {:induction false} TidyInEveryRun(run: seq<State>, i: nat)
    requires IsRun(run) && i < |run|
    ensures AllTidy(run[i].ctl)
  {
    if i > 0 {
      TidyInEveryRun(run, i - 1);
      assert Next(run[i - 1], run[i - 1 + 1]);
      var a :| Enabled(run[i - 1], a) && run[i] == Do(run[i - 1], a);
      StepTidy(run[i - 1], a);
    }
  }
}
