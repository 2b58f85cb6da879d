/** Who owns a port reservation, and exactly when that stays in order. */
module FrpsPorts {
  import opened Bytes
  import opened PortTables
  import opened Frps
  import opened FrpsClaims

  /** No proxy name is in use by two controls at once. */
  ghost predicate NamesDisjoint(s: State) {
    forall i, j, n :: i in s.ctl && j in s.ctl && Uses(s.ctl[i], n) && Uses(s.ctl[j], n) ==> i == j
  }

  /** An owner's port is reserved in its name. */
  ghost predicate OwnersHold(cs: map<nat, Control>, t: Tables) {
    forall id, k, p: nat, n :: id in cs && Owns(cs[id], k, p, n) ==> Holds(t, k, p, n)
  }

  /** A reservation has an owner. */
  ghost predicate HeldIsOwned(cs: map<nat, Control>, t: Tables) {
    forall k, p: nat, n :: Holds(t, k, p, n) ==> exists id :: id in cs && Owns(cs[id], k, p, n)
  }

  predicate Recorded(t: Tables, l: Listener) {
    l.name in t.infos && t.infos[l.name] == Info(l.kind, l.port)
  }

  ghost predicate LiveIsRecorded(cs: map<nat, Control>, t: Tables) {
    forall id, l :: id in cs && Live(cs[id], l) ==> Recorded(t, l)
  }

  ghost predicate RecordIsLive(cs: map<nat, Control>, t: Tables) {
    forall n | n in t.infos :: LiveSomewhere(cs, n)
  }

  ghost predicate LiveSomewhere(cs: map<nat, Control>, n: string) {
    exists id, l :: id in cs && Live(cs[id], l) && l.name == n
  }

  ghost predicate PortsOk(s: State) {
    && AllTidy(s.ctl)
    && OwnersHold(s.ctl, s.tables) && HeldIsOwned(s.ctl, s.tables)
    && LiveIsRecorded(s.ctl, s.tables) && RecordIsLive(s.ctl, s.tables)
  }

  // ---- What a step does to the tables, read off the guards of its branches.

  /** `undo`: the port of the registration in flight is released. `names`: the
      proxies that are closed. `publish`: the registration's record is set.
      `grant`: the registration is given its port. */
  datatype Effect = Effect(undo: bool, names: set<string>, publish: bool, grant: bool)

  const NoEffect := Effect(false, {}, false, false)

  function Closing(names: set<string>): Effect {
    Effect(false, names, false, false)
  }

  function FinishEffect(stopped: bool, c: Control): Effect
    requires c.reg.Some? && (c.reg.value.stage.Sending? || c.reg.value.stage.Flushing?)
  {
    var r := c.reg.value;
    if !r.stage.ok then NoEffect
    else if TokenCancelled(stopped, c, r.token) then Effect(true, {r.name} * c.proxies.Keys, false, false)
    else Effect(false, {}, true, false)
  }

  function ActEffect(stopped: bool, c: Control, t: Tables, act: Act): Effect
    requires CanAct(stopped, c, act)
  {
    match act
    case Configured(allowed, addrOk) =>
      var r := c.reg.value;
      var ok := allowed && !Taken(t, r.kind, r.port, r.name);
      Effect(ok && !addrOk, {}, false, ok && addrOk)
    case Bound(ok) => Effect(!ok, {}, false, false)
    case Abandon => FinishEffect(stopped, c)
    case Flushed => FinishEffect(stopped, c)
    case CloseProxy(name) => Closing({name} * c.proxies.Keys)
    case _ => NoEffect
  }

  /** The control whose claims a step can change. */
  function Actor(s: State, a: Step): (r: Option<nat>)
    requires Enabled(s, a)
    ensures r.Some? ==> r.value in s.ctl
  {
    match a
    case Login(_, _) => None
    case Replace(runId) =>
      if runId in s.registry && s.registry[runId] in s.ctl then Some(s.registry[runId]) else None
    case TearDown(id) => Some(id)
    case Stop => None
    case Local(id, _) => Some(id)
  }

  function StepEffect(s: State, a: Step): Effect
    requires Enabled(s, a) && Actor(s, a).Some?
  {
    var c := s.ctl[Actor(s, a).value];
    if a.Local? then ActEffect(s.stopped, c, s.tables, a.act) else Closing(c.proxies.Keys)
  }

  /** The reservations that go. */
  predicate Released(e: Effect, c: Control, t: Tables, k: Kind, p: nat, n: string) {
    (e.undo && ForReg(c, k, p, n)) || Freed(t, e.names, k, p, n)
  }

  /** The reservation that is made, unless the name has it already. */
  predicate Granted(e: Effect, c: Control, k: Kind, p: nat, n: string) {
    e.grant && ForReg(c, k, p, n)
  }

  /** The actor's claims that survive the step. */
  ghost predicate KeepsClaim(e: Effect, c: Control, k: Kind, p: nat, n: string) {
    || (Registering(c, k, p, n) && !e.undo)
    || exists l :: Live(c, l) && l.name !in e.names && l.kind == k && l.port == p && l.name == n
  }

  /** No reservation that goes is in use: not by another control, and not by a
      registration in flight that goes on. */
  ghost predicate SafeRelease(e: Effect, cs: map<nat, Control>, t: Tables, id: nat)
    requires id in cs
  {
    forall k, p: nat, n :: Released(e, cs[id], t, k, p, n) ==>
      (e.undo || !Registering(cs[id], k, p, n)) && forall j :: j in cs && j != id ==> !Owns(cs[j], k, p, n)
  }

  /** Every proxy that is closed and has its port is the one on record under its
      name, or another control owns the port under that name. */
  ghost predicate LeakFree(e: Effect, cs: map<nat, Control>, t: Tables, id: nat)
    requires id in cs
  {
    forall l :: Live(cs[id], l) && l.name in e.names && Holds(t, l.kind, l.port, l.name) ==>
      Recorded(t, l) || exists j :: j in cs && j != id && Owns(cs[j], l.kind, l.port, l.name)
  }

  /** The records of other controls' live proxies are neither removed nor
      overwritten by another port. */
  ghost predicate SafeRecord(e: Effect, cs: map<nat, Control>, id: nat)
    requires id in cs
  {
    forall j, l :: j in cs && j != id && Live(cs[j], l) ==>
      && l.name !in e.names
      && (e.publish && cs[id].reg.Some? && l.name == cs[id].reg.value.name ==>
            ForReg(cs[id], l.kind, l.port, l.name))
  }

  // ---- The effect of a step explains its result.

  ghost predicate ExplainsPorts(e: Effect, c: Control, t: Tables, c': Control, t': Tables) {
    && (forall k, p: nat, n ::
          Holds(t', k, p, n) <==>
            !Released(e, c, t, k, p, n)
            && (Holds(t, k, p, n) || Granted(e, c, k, p, n)))
    && (forall k, p: nat, n ::
          Registering(c', k, p, n) <==>
            Granted(e, c, k, p, n) || (Registering(c, k, p, n) && !e.undo && !e.publish))
    && (e.undo || e.publish || e.grant ==> Claiming(c))
    && (e.grant ==> !e.undo && !e.publish && e.names == {})
    && (e.publish ==> Holding(c) && !e.undo && e.names == {} && c.reg.value.name in c.proxies)
    && e.names <= c.proxies.Keys
  }

  ghost predicate ExplainsRecords(e: Effect, c: Control, t: Tables, c': Control, t': Tables) {
    && (e.publish ==> c.reg.Some?)
    && (forall l :: Live(c', l) <==> (Live(c, l) && l.name !in e.names) || (e.publish && l == RegListener(c)))
    && t'.infos == if e.publish then t.infos[c.reg.value.name := Info(c.reg.value.kind, c.reg.value.port)]
                   else t.infos - e.names
  }

  ghost predicate Explains(e: Effect, c: Control, t: Tables, c': Control, t': Tables) {
    ExplainsPorts(e, c, t, c', t') && ExplainsRecords(e, c, t, c', t')
  }

  lemma SameClaimsExplained(c: Control, t: Tables, c': Control)
    requires SameClaims(c, c')
    ensures Explains(NoEffect, c, t, c', t)
  {
    SameClaimsMeans(c, c');
    assert t.infos - {} == t.infos;
  }

  lemma NewProxyExplained(stopped: bool, c: Control, t: Tables, act: Act)
    requires Tidy(c) && act.NewProxy? && CanAct(stopped, c, act)
    ensures Explains(NoEffect, c, t, DoAct(stopped, c, t, act).0, t)
  {
    var c' := DoAct(stopped, c, t, act).0;
    assert forall l :: Live(c', l) == Live(c, l);
    assert t.infos - {} == t.infos;
  }

  /** A registration that is refused gives its name back, and its port if it has
      been given one. */
  lemma RefuseExplained(c: Control, t: Tables, t': Tables, undo: bool)
    requires Tidy(c) && Claiming(c) && (Holding(c) ==> undo)
    requires var r := c.reg.value; t' == if undo then Release(t, r.kind, r.port, r.name) else t
    ensures Explains(Effect(undo, {}, false, false), c, t, Refuse(c, c.reg.value), t')
  {
    var c' := Refuse(c, c.reg.value);
    ClaimIsNotLive(c);
    assert forall l :: Live(c', l) == Live(c, l);
    assert t.infos - {} == t.infos;
    assert !Claiming(c');
    assert ExplainsRecords(Effect(undo, {}, false, false), c, t, c', t');
  }

  lemma GrantExplained(c: Control, t: Tables)
    requires Tidy(c) && Claiming(c) && !Holding(c)
    requires var r := c.reg.value; !Taken(t, r.kind, r.port, r.name)
    ensures var r := c.reg.value;
            Explains(Effect(false, {}, false, true), c, t,
                     c.(reg := Some(r.(stage := Binding))), Register(t, r.kind, r.port, r.name))
  {
    var r := c.reg.value;
    var c' := c.(reg := Some(r.(stage := Binding)));
    assert forall l :: Live(c', l) == Live(c, l);
    assert t.infos - {} == t.infos;
  }

  lemma ConfiguredExplained(stopped: bool, c: Control, t: Tables, act: Act)
    requires Tidy(c) && act.Configured? && CanAct(stopped, c, act)
    ensures var (c', t') := DoAct(stopped, c, t, act); Explains(ActEffect(stopped, c, t, act), c, t, c', t')
  {
    var r := c.reg.value;
    if !act.allowed || Taken(t, r.kind, r.port, r.name) {
      RefuseExplained(c, t, t, false);
    } else if act.addrOk {
      GrantExplained(c, t);
    } else {
      var t1 := Register(t, r.kind, r.port, r.name);
      TablesEqual(Release(t1, r.kind, r.port, r.name), Release(t, r.kind, r.port, r.name));
      RefuseExplained(c, t, Release(t, r.kind, r.port, r.name), true);
    }
  }

  lemma BoundExplained(stopped: bool, c: Control, t: Tables, act: Act)
    requires Tidy(c) && act.Bound? && CanAct(stopped, c, act)
    ensures var (c', t') := DoAct(stopped, c, t, act); Explains(ActEffect(stopped, c, t, act), c, t, c', t')
  {
    var r := c.reg.value;
    if act.ok {
      SameClaimsExplained(c, t, c.(reg := Some(r.(stage := Sending(true)))));
    } else {
      RefuseExplained(c, t, Release(t, r.kind, r.port, r.name), true);
    }
  }

  /** The names `ns` are closed, the registration in flight aside. */
  lemma ClosesExplained(c: Control, t: Tables, c': Control, t': Tables, ns: set<string>)
    requires Tidy(c) && ns <= c.proxies.Keys
    requires c'.reg == c.reg && c'.spawned == c.spawned && c'.proxies == c.proxies - ns && t' == CloseNames(t, ns)
    ensures Explains(Closing(ns), c, t, c', t')
  {
    assert forall l :: Live(c', l) == (Live(c, l) && l.name !in ns);
  }

  lemma CloseNameIsCloseNames(t: Tables, n: string)
    ensures CloseName(t, n) == CloseNames(t, {n})
  {
    TablesEqual(CloseName(t, n), CloseNames(t, {n}));
  }

  lemma CloseExplained(stopped: bool, c: Control, t: Tables, act: Act)
    requires Tidy(c) && act.CloseProxy? && CanAct(stopped, c, act)
    ensures var (c', t') := DoAct(stopped, c, t, act); Explains(ActEffect(stopped, c, t, act), c, t, c', t')
  {
    var (c', t') := DoAct(stopped, c, t, act);
    var ns := {act.name} * c.proxies.Keys;
    if act.name in c.proxies {
      CloseNameIsCloseNames(t, act.name);
      assert ns == {act.name};
    } else {
      CloseNoNames(t);
      assert ns == {} && c.proxies - {} == c.proxies;
    }
    ClosesExplained(c, t, c', t', ns);
  }

  lemma TearDownExplained(c: Control, t: Tables)
    requires Tidy(c)
    ensures Explains(Closing(c.proxies.Keys), c, t, Downed(c), CloseNames(t, c.proxies.Keys))
  {
    assert c.proxies - c.proxies.Keys == map[];
    ClosesExplained(c, t, Downed(c), CloseNames(t, c.proxies.Keys), c.proxies.Keys);
  }

  /** The registration returns cancelled: its port goes, and its name if it is
      still there. */
  lemma UndoExplained(c: Control, t: Tables)
    requires Tidy(c) && Holding(c)
    ensures var r := c.reg.value;
            var (c', t') := DoClose(c.(reg := None), Release(t, r.kind, r.port, r.name), r.name);
            Explains(Effect(true, {r.name} * c.proxies.Keys, false, false), c, t, c', t')
  {
    var r := c.reg.value;
    var ns := {r.name} * c.proxies.Keys;
    var t1 := Release(t, r.kind, r.port, r.name);
    var (c', t') := DoClose(c.(reg := None), t1, r.name);
    ClaimIsNotLive(c);
    assert forall l :: Live(c', l) == Live(c, l);
    if r.name in c.proxies {
      assert ns == {r.name};
      assert t'.infos == t.infos - ns;
    } else {
      assert ns == {} && t.infos - {} == t.infos;
    }
    assert forall k, p: nat, n :: Freed(t1, {r.name}, k, p, n) == Freed(t, {r.name}, k, p, n);
  }

  lemma SpawnExplained(c: Control, t: Tables)
    requires Tidy(c) && Holding(c) && c.online
    ensures var r := c.reg.value;
            Explains(Effect(false, {}, true, false), c, t, Spawned(c), Publish(t, r.name, Info(r.kind, r.port)))
  {
    var r := c.reg.value;
    var t' := Publish(t, r.name, Info(r.kind, r.port));
    assert forall k, p: nat, n :: Holds(t', k, p, n) == Holds(t, k, p, n);
    ClaimIsNotLive(c);
    assert Live(Spawned(c), RegListener(c));
    assert forall l :: Live(Spawned(c), l) <==> Live(c, l) || l == RegListener(c);
  }

  lemma FinishExplained(stopped: bool, c: Control, t: Tables, act: Act)
    requires Tidy(c) && (act.Abandon? || act.Flushed?) && CanAct(stopped, c, act)
    ensures var (c', t') := DoAct(stopped, c, t, act); Explains(ActEffect(stopped, c, t, act), c, t, c', t')
  {
    var r := c.reg.value;
    if !r.stage.ok {
      SameClaimsExplained(c, t, c.(reg := None));
    } else if TokenCancelled(stopped, c, r.token) {
      UndoExplained(c, t);
    } else {
      SpawnExplained(c, t);
    }
  }

  lemma ActExplained(stopped: bool, c: Control, t: Tables, act: Act)
    requires Tidy(c) && CanAct(stopped, c, act)
    ensures var (c', t') := DoAct(stopped, c, t, act); Explains(ActEffect(stopped, c, t, act), c, t, c', t')
  {
    match act
    case NewProxy(_, _, _, _) => NewProxyExplained(stopped, c, t, act);
    case Configured(_, _) => ConfiguredExplained(stopped, c, t, act);
    case Bound(_) => BoundExplained(stopped, c, t, act);
    case Abandon => FinishExplained(stopped, c, t, act);
    case Flushed => FinishExplained(stopped, c, t, act);
    case CloseProxy(_) => CloseExplained(stopped, c, t, act);
    case _ =>
      MessagesSameClaims(stopped, c, t, act);
      SameClaimsExplained(c, t, DoAct(stopped, c, t, act).0);
  }

  /** A step with an actor changes that control and the tables, as its effect
      says. */
  lemma StepExplained(s: State, a: Step)
    requires AllTidy(s.ctl) && Enabled(s, a) && Actor(s, a).Some?
    ensures var id, s' := Actor(s, a).value, Do(s, a);
            && id in s'.ctl && s'.ctl == s.ctl[id := s'.ctl[id]]
            && Explains(StepEffect(s, a), s.ctl[id], s.tables, s'.ctl[id], s'.tables)
  {
    var id := Actor(s, a).value;
    if a.Local? {
      ActExplained(s.stopped, s.ctl[id], s.tables, a.act);
    } else {
      TearDownExplained(s.ctl[id], s.tables);
    }
  }

  // ---- The exact conditions, one invariant at a time.

  lemma OwnsAfterIff(e: Effect, c: Control, t: Tables, c': Control, t': Tables, k: Kind, p: nat, n: string)
    requires Tidy(c) && Explains(e, c, t, c', t')
    ensures Owns(c', k, p, n) <==> Granted(e, c, k, p, n) || KeepsClaim(e, c, k, p, n)
    ensures KeepsClaim(e, c, k, p, n) ==> Owns(c, k, p, n)
    ensures Granted(e, c, k, p, n) ==> !Released(e, c, t, k, p, n)
  {
    if Owns(c', k, p, n) && !Registering(c', k, p, n) {
      var l :| Live(c', l) && l.kind == k && l.port == p && l.name == n;
      assert Live(c, l) || l == RegListener(c);
    }
    if Registering(c, k, p, n) && e.publish {
      assert Live(c', RegListener(c));
    }
    if l :| Live(c, l) && l.name !in e.names && l.kind == k && l.port == p && l.name == n {
      assert Live(c', l);
    }
  }

  /** A claim that survives although its reservation goes is that of a registration
      in flight. */
  lemma KeptAndReleased(e: Effect, c: Control, t: Tables, c': Control, t': Tables, k: Kind, p: nat, n: string)
    requires Tidy(c) && Explains(e, c, t, c', t') && Released(e, c, t, k, p, n)
    ensures KeepsClaim(e, c, k, p, n) <==> !e.undo && Registering(c, k, p, n)
  {
    if e.undo {
      ClaimIsNotLive(c);
    }
  }

  lemma OwnersHoldIf(e: Effect, cs: map<nat, Control>, t: Tables, id: nat, c': Control, t': Tables)
    requires id in cs && Tidy(cs[id]) && Explains(e, cs[id], t, c', t') && OwnersHold(cs, t)
    requires SafeRelease(e, cs, t, id)
    ensures OwnersHold(cs[id := c'], t')
  {
    forall j, k, p: nat, n | j in cs && Owns(cs[id := c'][j], k, p, n)
      ensures Holds(t', k, p, n)
    {
      OwnsAfterIff(e, cs[id], t, c', t', k, p, n);
      if Released(e, cs[id], t, k, p, n) {
        KeptAndReleased(e, cs[id], t, c', t', k, p, n);
      }
      if j != id || Owns(cs[id], k, p, n) {
        assert Holds(t, k, p, n);
      }
    }
  }

  lemma OwnersHoldOnlyIf(e: Effect, cs: map<nat, Control>, t: Tables, id: nat, c': Control, t': Tables)
    requires id in cs && Tidy(cs[id]) && Explains(e, cs[id], t, c', t')
    requires OwnersHold(cs[id := c'], t')
    ensures SafeRelease(e, cs, t, id)
  {
    var cs' := cs[id := c'];
    forall k, p: nat, n | Released(e, cs[id], t, k, p, n)
      ensures e.undo || !Registering(cs[id], k, p, n)
      ensures forall j :: j in cs && j != id ==> !Owns(cs[j], k, p, n)
    {
      OwnsAfterIff(e, cs[id], t, c', t', k, p, n);
      assert !Holds(t', k, p, n);
      assert !Owns(cs'[id], k, p, n);
      assert forall j :: j in cs && j != id ==> cs'[j] == cs[j] && !Owns(cs'[j], k, p, n);
    }
  }

  /** A claim that goes is released, or is that of a proxy that is closed. */
  lemma DropsOf(e: Effect, c: Control, t: Tables, c': Control, t': Tables, k: Kind, p: nat, n: string)
    requires Tidy(c) && Explains(e, c, t, c', t') && Owns(c, k, p, n) && !KeepsClaim(e, c, k, p, n)
    ensures Released(e, c, t, k, p, n)
         || exists l :: Live(c, l) && l.name in e.names && l.kind == k && l.port == p && l.name == n
  {
    if !Registering(c, k, p, n) {
      var l :| Live(c, l) && l.kind == k && l.port == p && l.name == n;
    }
  }

  lemma HeldIsOwnedIf(e: Effect, cs: map<nat, Control>, t: Tables, id: nat, c': Control, t': Tables)
    requires id in cs && Tidy(cs[id]) && Explains(e, cs[id], t, c', t') && HeldIsOwned(cs, t)
    requires LeakFree(e, cs, t, id)
    ensures HeldIsOwned(cs[id := c'], t')
  {
    var cs' := cs[id := c'];
    forall k, p: nat, n | Holds(t', k, p, n)
      ensures exists j :: j in cs' && Owns(cs'[j], k, p, n)
    {
      OwnsAfterIff(e, cs[id], t, c', t', k, p, n);
      if Owns(c', k, p, n) {
        assert Owns(cs'[id], k, p, n);
      } else {
        assert Holds(t, k, p, n);
        var j :| j in cs && Owns(cs[j], k, p, n);
        if j == id {
          DropsOf(e, cs[id], t, c', t', k, p, n);
          var l :| Live(cs[id], l) && l.name in e.names && l.kind == k && l.port == p && l.name == n;
          assert !Recorded(t, l);
          var i :| i in cs && i != id && Owns(cs[i], k, p, n);
          assert Owns(cs'[i], k, p, n);
        } else {
          assert Owns(cs'[j], k, p, n);
        }
      }
    }
  }

  lemma ClosedIsGone(e: Effect, c: Control, t: Tables, c': Control, t': Tables, l: Listener)
    requires Tidy(c) && Explains(e, c, t, c', t') && Live(c, l) && l.name in e.names
    ensures !Owns(c', l.kind, l.port, l.name)
    ensures Released(e, c, t, l.kind, l.port, l.name) ==> Recorded(t, l)
  {
    if Claiming(c) {
      ClaimIsNotLive(c);
    }
  }

  lemma HeldIsOwnedOnlyIf(e: Effect, cs: map<nat, Control>, t: Tables, id: nat, c': Control, t': Tables)
    requires id in cs && Tidy(cs[id]) && Explains(e, cs[id], t, c', t')
    requires HeldIsOwned(cs[id := c'], t')
    ensures LeakFree(e, cs, t, id)
  {
    var cs' := cs[id := c'];
    forall l | Live(cs[id], l) && l.name in e.names && Holds(t, l.kind, l.port, l.name) && !Recorded(t, l)
      ensures exists j :: j in cs && j != id && Owns(cs[j], l.kind, l.port, l.name)
    {
      ClosedIsGone(e, cs[id], t, c', t', l);
      var j :| j in cs' && Owns(cs'[j], l.kind, l.port, l.name);
      assert j != id && cs'[j] == cs[j];
    }
  }

  lemma LiveIsRecordedIff(e: Effect, cs: map<nat, Control>, t: Tables, id: nat, c': Control, t': Tables)
    requires id in cs && Tidy(cs[id]) && Explains(e, cs[id], t, c', t') && LiveIsRecorded(cs, t)
    ensures LiveIsRecorded(cs[id := c'], t') <==> SafeRecord(e, cs, id)
  {
    var cs' := cs[id := c'];
    assert forall j | j in cs && j != id :: cs'[j] == cs[j];
    if e.publish {
      ClaimIsNotLive(cs[id]);
    }
    if LiveIsRecorded(cs', t') {
      forall j, l | j in cs && j != id && Live(cs[j], l)
        ensures l.name !in e.names
        ensures e.publish && cs[id].reg.Some? && l.name == cs[id].reg.value.name ==>
                  ForReg(cs[id], l.kind, l.port, l.name)
      {
        assert Live(cs'[j], l) && Recorded(t', l);
      }
    }
    if SafeRecord(e, cs, id) {
      forall j, l | j in cs' && Live(cs'[j], l)
        ensures Recorded(t', l)
      {
        if j != id {
          assert Live(cs[j], l) && Recorded(t, l);
        } else if Live(cs[id], l) {
          assert Recorded(t, l);
        }
      }
    }
  }

  /** A record always has a live proxy, whatever names are shared. */
  lemma RecordIsLiveKept(e: Effect, cs: map<nat, Control>, t: Tables, id: nat, c': Control, t': Tables)
    requires id in cs && Explains(e, cs[id], t, c', t') && RecordIsLive(cs, t)
    ensures RecordIsLive(cs[id := c'], t')
  {
    var cs' := cs[id := c'];
    forall n | n in t'.infos
      ensures LiveSomewhere(cs', n)
    {
      if e.publish && n == cs[id].reg.value.name {
        assert Live(cs'[id], RegListener(cs[id]));
      } else {
        assert LiveSomewhere(cs, n);
        var j, l :| j in cs && Live(cs[j], l) && l.name == n;
        assert Live(cs'[j], l);
      }
    }
  }

  // ---- The steps that change no claim.

  lemma NoActorKeeps(s: State, a: Step)
    requires Enabled(s, a) && Actor(s, a).None?
    ensures var s' := Do(s, a);
            && s'.tables == s.tables && s.ctl.Keys <= s'.ctl.Keys
            && (forall j | j in s.ctl :: s'.ctl[j] == s.ctl[j])
            && (forall j, k, p: nat, n | j in s'.ctl && j !in s.ctl :: !Owns(s'.ctl[j], k, p, n))
            && (forall j, l | j in s'.ctl && j !in s.ctl :: !Live(s'.ctl[j], l))
  {
  }

  lemma NoActorPorts(s: State, a: Step)
    requires Enabled(s, a) && Actor(s, a).None?
    ensures OwnersHold(s.ctl, s.tables) ==> OwnersHold(Do(s, a).ctl, Do(s, a).tables)
    ensures HeldIsOwned(s.ctl, s.tables) ==> HeldIsOwned(Do(s, a).ctl, Do(s, a).tables)
  {
    NoActorKeeps(s, a);
    var s' := Do(s, a);
    assert forall j, k, p: nat, n :: j in s.ctl && Owns(s.ctl[j], k, p, n) ==> Owns(s'.ctl[j], k, p, n);
  }

  lemma NoActorRecords(s: State, a: Step)
    requires Enabled(s, a) && Actor(s, a).None?
    ensures LiveIsRecorded(s.ctl, s.tables) ==> LiveIsRecorded(Do(s, a).ctl, Do(s, a).tables)
    ensures RecordIsLive(s.ctl, s.tables) ==> RecordIsLive(Do(s, a).ctl, Do(s, a).tables)
  {
    NoActorKeeps(s, a);
    var s' := Do(s, a);
    assert forall j, l :: j in s.ctl && Live(s.ctl[j], l) ==> Live(s'.ctl[j], l);
    assert forall n :: LiveSomewhere(s.ctl, n) ==> LiveSomewhere(s'.ctl, n);
  }

  // ---- One step, exactly.

  ghost predicate StepSafe(s: State, a: Step)
    requires Enabled(s, a)
  {
    Actor(s, a).None? || SafeRelease(StepEffect(s, a), s.ctl, s.tables, Actor(s, a).value)
  }

  ghost predicate StepLeakFree(s: State, a: Step)
    requires Enabled(s, a)
  {
    Actor(s, a).None? || LeakFree(StepEffect(s, a), s.ctl, s.tables, Actor(s, a).value)
  }

  ghost predicate StepRecordSafe(s: State, a: Step)
    requires Enabled(s, a)
  {
    Actor(s, a).None? || SafeRecord(StepEffect(s, a), s.ctl, Actor(s, a).value)
  }

  /** Every owner keeps its port over a step if and only if no reservation that the
      step releases is claimed by another control, or by the registration in flight
      of a control that is torn down. */
  lemma OwnersKeepPortsIff(s: State, a: Step)
    requires AllTidy(s.ctl) && Enabled(s, a) && OwnersHold(s.ctl, s.tables)
    ensures OwnersHold(Do(s, a).ctl, Do(s, a).tables) <==> StepSafe(s, a)
  {
    if Actor(s, a).None? {
      NoActorPorts(s, a);
    } else {
      var id, s' := Actor(s, a).value, Do(s, a);
      StepExplained(s, a);
      if OwnersHold(s'.ctl, s'.tables) {
        OwnersHoldOnlyIf(StepEffect(s, a), s.ctl, s.tables, id, s'.ctl[id], s'.tables);
      }
      if StepSafe(s, a) {
        OwnersHoldIf(StepEffect(s, a), s.ctl, s.tables, id, s'.ctl[id], s'.tables);
      }
    }
  }

  /** No reservation loses its owner over a step if and only if every proxy that the
      step closes is the one on record, or another control claims its port. */
  lemma NoLeakIff(s: State, a: Step)
    requires AllTidy(s.ctl) && Enabled(s, a) && HeldIsOwned(s.ctl, s.tables)
    ensures HeldIsOwned(Do(s, a).ctl, Do(s, a).tables) <==> StepLeakFree(s, a)
  {
    if Actor(s, a).None? {
      NoActorPorts(s, a);
    } else {
      var id, s' := Actor(s, a).value, Do(s, a);
      StepExplained(s, a);
      if HeldIsOwned(s'.ctl, s'.tables) {
        HeldIsOwnedOnlyIf(StepEffect(s, a), s.ctl, s.tables, id, s'.ctl[id], s'.tables);
      }
      if StepLeakFree(s, a) {
        HeldIsOwnedIf(StepEffect(s, a), s.ctl, s.tables, id, s'.ctl[id], s'.tables);
      }
    }
  }

  /** Every live proxy stays on record over a step if and only if the step neither
      closes nor publishes, for another port, a name that another control has live. */
  lemma RecordsStayIff(s: State, a: Step)
    requires AllTidy(s.ctl) && Enabled(s, a) && LiveIsRecorded(s.ctl, s.tables)
    ensures LiveIsRecorded(Do(s, a).ctl, Do(s, a).tables) <==> StepRecordSafe(s, a)
  {
    if Actor(s, a).None? {
      NoActorRecords(s, a);
    } else {
      var id, s' := Actor(s, a).value, Do(s, a);
      StepExplained(s, a);
      LiveIsRecordedIff(StepEffect(s, a), s.ctl, s.tables, id, s'.ctl[id], s'.tables);
    }
  }

  lemma RecordsLive(s: State, a: Step)
    requires AllTidy(s.ctl) && Enabled(s, a) && RecordIsLive(s.ctl, s.tables)
    ensures RecordIsLive(Do(s, a).ctl, Do(s, a).tables)
  {
    if Actor(s, a).None? {
      NoActorRecords(s, a);
    } else {
      var id, s' := Actor(s, a).value, Do(s, a);
      StepExplained(s, a);
      RecordIsLiveKept(StepEffect(s, a), s.ctl, s.tables, id, s'.ctl[id], s'.tables);
    }
  }

  // ---- Whole runs, exactly.

  /** Along a run every owner has its port, always, if and only if every step is
      safe. */
  lemma OwnersHoldThroughoutIff(run: seq<State>, steps: seq<Step>)
    requires IsTrace(run, steps)
    ensures (forall i | 0 <= i < |run| :: OwnersHold(run[i].ctl, run[i].tables))
       <==> (forall i | 0 <= i < |steps| :: StepSafe(run[i], steps[i]))
  {
    TraceIsRun(run, steps);
    if forall i | 0 <= i < |run| :: OwnersHold(run[i].ctl, run[i].tables) {
      forall i | 0 <= i < |steps|
        ensures StepSafe(run[i], steps[i])
      {
        TidyInEveryRun(run, i);
        assert OwnersHold(run[i + 1].ctl, run[i + 1].tables);
        OwnersKeepPortsIff(run[i], steps[i]);
      }
    }
    if forall i | 0 <= i < |steps| :: StepSafe(run[i], steps[i]) {
      forall i | 0 <= i < |run|
        ensures OwnersHold(run[i].ctl, run[i].tables)
      {
        SafeStepsHold(run, steps, i);
      }
    }
  }

  lemma {:induction false} SafeStepsHold(run: seq<State>, steps: seq<Step>, i: nat)
    requires IsTrace(run, steps) && i < |run|
    requires forall k | 0 <= k < |steps| :: StepSafe(run[k], steps[k])
    ensures OwnersHold(run[i].ctl, run[i].tables)
  {
    if i > 0 {
      SafeStepsHold(run, steps, i - 1);
      TraceIsRun(run, steps);
      TidyInEveryRun(run, i - 1);
      OwnersKeepPortsIff(run[i - 1], steps[i - 1]);
      assert run[i - 1 + 1] == Do(run[i - 1], steps[i - 1]);
    }
  }

  /** Along a run no reservation is ever without an owner if and only if every step
      is free of leaks. */
  lemma NoLeakThroughoutIff(run: seq<State>, steps: seq<Step>)
    requires IsTrace(run, steps)
    ensures (forall i | 0 <= i < |run| :: HeldIsOwned(run[i].ctl, run[i].tables))
       <==> (forall i | 0 <= i < |steps| :: StepLeakFree(run[i], steps[i]))
  {
    TraceIsRun(run, steps);
    if forall i | 0 <= i < |run| :: HeldIsOwned(run[i].ctl, run[i].tables) {
      forall i | 0 <= i < |steps|
        ensures StepLeakFree(run[i], steps[i])
      {
        TidyInEveryRun(run, i);
        assert HeldIsOwned(run[i + 1].ctl, run[i + 1].tables);
        NoLeakIff(run[i], steps[i]);
      }
    }
    if forall i | 0 <= i < |steps| :: StepLeakFree(run[i], steps[i]) {
      forall i | 0 <= i < |run|
        ensures HeldIsOwned(run[i].ctl, run[i].tables)
      {
        LeakFreeStepsHold(run, steps, i);
      }
    }
  }

  lemma {:induction false} LeakFreeStepsHold(run: seq<State>, steps: seq<Step>, i: nat)
    requires IsTrace(run, steps) && i < |run|
    requires forall k | 0 <= k < |steps| :: StepLeakFree(run[k], steps[k])
    ensures HeldIsOwned(run[i].ctl, run[i].tables)
  {
    if i > 0 {
      LeakFreeStepsHold(run, steps, i - 1);
      TraceIsRun(run, steps);
      TidyInEveryRun(run, i - 1);
      NoLeakIff(run[i - 1], steps[i - 1]);
      assert run[i - 1 + 1] == Do(run[i - 1], steps[i - 1]);
    }
  }

  ghost predicate AllReturned(s: State) {
    forall id | id in s.ctl :: !s.ctl[id].online && s.ctl[id].reg.None?
  }

  // ---- One reservation, exactly, whatever the rest looks like.

  ghost predicate Owned(cs: map<nat, Control>, k: Kind, p: nat, n: string) {
    exists id :: id in cs && Owns(cs[id], k, p, n)
  }

  /** The port is reserved in the name, and nobody has a claim to it. */
  ghost predicate Orphan(s: State, k: Kind, p: nat, n: string) {
    Holds(s.tables, k, p, n) && !Owned(s.ctl, k, p, n)
  }

  ghost predicate OthersOwn(cs: map<nat, Control>, id: nat, k: Kind, p: nat, n: string) {
    exists j :: j in cs && j != id && Owns(cs[j], k, p, n)
  }

  /** The step releases the reservation, or grants it anew. */
  ghost predicate Settles(s: State, a: Step, k: Kind, p: nat, n: string)
    requires Enabled(s, a)
  {
    && Actor(s, a).Some?
    && var c := s.ctl[Actor(s, a).value];
       Released(StepEffect(s, a), c, s.tables, k, p, n) || Granted(StepEffect(s, a), c, k, p, n)
  }

  /** The step drops the only claim to a port that stays reserved. */
  ghost predicate Abandons(s: State, a: Step, k: Kind, p: nat, n: string)
    requires Enabled(s, a)
  {
    && Actor(s, a).Some? && Holds(s.tables, k, p, n) && !Settles(s, a, k, p, n)
    && var id := Actor(s, a).value;
       && Owns(s.ctl[id], k, p, n) && !KeepsClaim(StepEffect(s, a), s.ctl[id], k, p, n)
       && !OthersOwn(s.ctl, id, k, p, n)
  }

  lemma OwnedSplits(cs: map<nat, Control>, id: nat, c': Control, k: Kind, p: nat, n: string)
    requires id in cs
    ensures Owned(cs, k, p, n) <==> Owns(cs[id], k, p, n) || OthersOwn(cs, id, k, p, n)
    ensures Owned(cs[id := c'], k, p, n) <==> Owns(c', k, p, n) || OthersOwn(cs, id, k, p, n)
  {
    var cs' := cs[id := c'];
    assert cs'[id] == c' && forall j | j in cs && j != id :: cs'[j] == cs[j];
    if OthersOwn(cs, id, k, p, n) {
      var j :| j in cs && j != id && Owns(cs[j], k, p, n);
      assert Owns(cs'[j], k, p, n);
    }
    if Owns(c', k, p, n) {
      assert Owns(cs'[id], k, p, n);
    }
  }

  /** A reservation is without an owner after a step if and only if it was so and the
      step did not settle it, or the step abandons it. */
  lemma OrphanIff(s: State, a: Step, k: Kind, p: nat, n: string)
    requires AllTidy(s.ctl) && Enabled(s, a)
    ensures Orphan(Do(s, a), k, p, n) <==>
              (Orphan(s, k, p, n) && !Settles(s, a, k, p, n)) || Abandons(s, a, k, p, n)
  {
    var s' := Do(s, a);
    if Actor(s, a).None? {
      NoActorKeeps(s, a);
      if Owned(s.ctl, k, p, n) {
        var j :| j in s.ctl && Owns(s.ctl[j], k, p, n);
        assert Owns(s'.ctl[j], k, p, n);
      }
    } else {
      var id := Actor(s, a).value;
      StepExplained(s, a);
      OwnedSplits(s.ctl, id, s'.ctl[id], k, p, n);
      OwnsAfterIff(StepEffect(s, a), s.ctl[id], s.tables, s'.ctl[id], s'.tables, k, p, n);
    }
  }

  /** The control has a claim to a port that is not reserved in the name. */
  ghost predicate Bereft(s: State, j: nat, k: Kind, p: nat, n: string) {
    j in s.ctl && Owns(s.ctl[j], k, p, n) && !Holds(s.tables, k, p, n)
  }

  /** The claim of a control survives the step. */
  ghost predicate Survives(s: State, a: Step, j: nat, k: Kind, p: nat, n: string)
    requires Enabled(s, a)
  {
    && j in s.ctl
    && if Actor(s, a) == Some(j) then KeepsClaim(StepEffect(s, a), s.ctl[j], k, p, n)
       else Owns(s.ctl[j], k, p, n)
  }

  /** A control lacks a port it has a claim to after a step if and only if the claim
      survives the step, the step does not grant the port, and it releases the
      reservation or there was none. */
  lemma BereftIff(s: State, a: Step, j: nat, k: Kind, p: nat, n: string)
    requires AllTidy(s.ctl) && Enabled(s, a)
    ensures Bereft(Do(s, a), j, k, p, n) <==>
              && Survives(s, a, j, k, p, n)
              && (if Settles(s, a, k, p, n)
                  then Released(StepEffect(s, a), s.ctl[Actor(s, a).value], s.tables, k, p, n)
                  else !Holds(s.tables, k, p, n))
  {
    if Actor(s, a).None? {
      NoActorKeeps(s, a);
    } else {
      var id, s' := Actor(s, a).value, Do(s, a);
      StepExplained(s, a);
      assert j in s.ctl && j != id ==> s'.ctl[j] == s.ctl[j];
      BereftLocally(StepEffect(s, a), s.ctl[id], s.tables, s'.ctl[id], s'.tables, k, p, n);
    }
  }

  lemma BereftLocally(e: Effect, c: Control, t: Tables, c': Control, t': Tables, k: Kind, p: nat, n: string)
    requires Tidy(c) && Explains(e, c, t, c', t')
    ensures !Holds(t', k, p, n) <==>
              if Released(e, c, t, k, p, n) || Granted(e, c, k, p, n) then Released(e, c, t, k, p, n)
              else !Holds(t, k, p, n)
    ensures Owns(c', k, p, n) && !Holds(t', k, p, n) ==> KeepsClaim(e, c, k, p, n)
    ensures KeepsClaim(e, c, k, p, n) ==> Owns(c', k, p, n)
  {
    OwnsAfterIff(e, c, t, c', t', k, p, n);
  }

  /** Step `m` abandoned the reservation, and no step up to `i` has settled it. */
  ghost predicate AbandonedAt(run: seq<State>, steps: seq<Step>, i: nat, m: nat, k: Kind, p: nat, n: string)
    requires IsTrace(run, steps) && i <= |steps|
  {
    && m < i && Abandons(run[m], steps[m], k, p, n)
    && forall q | m < q < i :: !Settles(run[q], steps[q], k, p, n)
  }

  ghost predicate WasAbandoned(run: seq<State>, steps: seq<Step>, i: nat, k: Kind, p: nat, n: string)
    requires IsTrace(run, steps) && i <= |steps|
  {
    exists m: nat :: AbandonedAt(run, steps, i, m, k, p, n)
  }

  /** The history of a reservation without an owner: some step abandoned it, and none
      since has released it or granted it anew. */
  lemma {:induction false} OrphanHistoryIff(run: seq<State>, steps: seq<Step>, i: nat, k: Kind, p: nat, n: string)
    requires IsTrace(run, steps) && i <= |steps|
    ensures Orphan(run[i], k, p, n) <==> WasAbandoned(run, steps, i, k, p, n)
  {
    if i > 0 {
      OrphanHistoryIff(run, steps, i - 1, k, p, n);
      OrphanNext(run, steps, i - 1, i, k, p, n);
      HistoryGrows(run, steps, i - 1, i, k, p, n);
    }
  }

  lemma OrphanNext(run: seq<State>, steps: seq<Step>, i: nat, next: nat, k: Kind, p: nat, n: string)
    requires IsTrace(run, steps) && i < |steps| && next == i + 1
    ensures Orphan(run[next], k, p, n) <==>
              (Orphan(run[i], k, p, n) && !Settles(run[i], steps[i], k, p, n)) || Abandons(run[i], steps[i], k, p, n)
  {
    TraceIsRun(run, steps);
    TidyInEveryRun(run, i);
    OrphanIff(run[i], steps[i], k, p, n);
    assert run[i + 1] == Do(run[i], steps[i]);
  }

  lemma HistoryGrows(run: seq<State>, steps: seq<Step>, i: nat, next: nat, k: Kind, p: nat, n: string)
    requires IsTrace(run, steps) && i < |steps| && next == i + 1
    ensures WasAbandoned(run, steps, next, k, p, n) <==>
              || Abandons(run[i], steps[i], k, p, n)
              || (!Settles(run[i], steps[i], k, p, n) && WasAbandoned(run, steps, i, k, p, n))
  {
    if WasAbandoned(run, steps, next, k, p, n) {
      var m: nat :| AbandonedAt(run, steps, next, m, k, p, n);
      OneBack(run, steps, i, next, m, k, p, n);
    }
    if Abandons(run[i], steps[i], k, p, n) {
      assert AbandonedAt(run, steps, next, i, k, p, n);
    }
    if WasAbandoned(run, steps, i, k, p, n) && !Settles(run[i], steps[i], k, p, n) {
      var m: nat :| AbandonedAt(run, steps, i, m, k, p, n);
      OneOn(run, steps, i, next, m, k, p, n);
    }
  }

  lemma OneBack(run: seq<State>, steps: seq<Step>, i: nat, next: nat, m: nat, k: Kind, p: nat, n: string)
    requires IsTrace(run, steps) && i < |steps| && next == i + 1 && AbandonedAt(run, steps, next, m, k, p, n)
    ensures m == i || (AbandonedAt(run, steps, i, m, k, p, n) && !Settles(run[i], steps[i], k, p, n))
  {
  }

  lemma OneOn(run: seq<State>, steps: seq<Step>, i: nat, next: nat, m: nat, k: Kind, p: nat, n: string)
    requires IsTrace(run, steps) && i < |steps| && next == i + 1 && AbandonedAt(run, steps, i, m, k, p, n)
    requires !Settles(run[i], steps[i], k, p, n)
    ensures AbandonedAt(run, steps, next, m, k, p, n)
  {
  }

  /** Once every control is down and every registration has returned, a port is still
      reserved if and only if some step abandoned it and none since has settled it. */
  lemma LeftReservedIff(run: seq<State>, steps: seq<Step>, k: Kind, p: nat, n: string)
    requires IsTrace(run, steps) && AllReturned(run[|steps|])
    ensures Holds(run[|steps|].tables, k, p, n) <==> WasAbandoned(run, steps, |steps|, k, p, n)
  {
    TraceIsRun(run, steps);
    TidyInEveryRun(run, |steps|);
    NobodyOwns(run[|steps|], k, p, n);
    OrphanHistoryIff(run, steps, |steps|, k, p, n);
  }

  lemma NobodyOwns(s: State, k: Kind, p: nat, n: string)
    requires AllTidy(s.ctl) && AllReturned(s)
    ensures !Owned(s.ctl, k, p, n)
  {
    forall id | id in s.ctl
      ensures !Owns(s.ctl[id], k, p, n)
    {
      assert Tidy(s.ctl[id]);
    }
  }

  // ---- Runs in which no name is shared.

  /** While names are not shared every step meets all three conditions. */
  lemma UnsharedIsSafe(s: State, a: Step)
    requires PortsOk(s) && NamesDisjoint(s) && Enabled(s, a)
    ensures StepSafe(s, a) && StepLeakFree(s, a) && StepRecordSafe(s, a)
  {
    if Actor(s, a).Some? {
      var id := Actor(s, a).value;
      StepExplained(s, a);
      UnsharedRelease(StepEffect(s, a), s, id, Do(s, a).ctl[id], Do(s, a).tables);
      UnsharedRecord(StepEffect(s, a), s, id, Do(s, a).ctl[id], Do(s, a).tables);
    }
  }

  lemma UnsharedRelease(e: Effect, s: State, id: nat, c': Control, t': Tables)
    requires PortsOk(s) && NamesDisjoint(s) && id in s.ctl && Explains(e, s.ctl[id], s.tables, c', t')
    ensures SafeRelease(e, s.ctl, s.tables, id) && LeakFree(e, s.ctl, s.tables, id)
  {
    var c, t := s.ctl[id], s.tables;
    forall k, p: nat, n | Released(e, c, t, k, p, n)
      ensures e.undo || !Registering(c, k, p, n)
      ensures forall j :: j in s.ctl && j != id ==> !Owns(s.ctl[j], k, p, n)
    {
      assert Uses(c, n);
      forall j | j in s.ctl && j != id
        ensures !Owns(s.ctl[j], k, p, n)
      {
        if Owns(s.ctl[j], k, p, n) { OwnsUses(s.ctl[j], k, p, n); }
      }
      if !e.undo && Registering(c, k, p, n) {
        assert LiveSomewhere(s.ctl, n);
        var j, l :| j in s.ctl && Live(s.ctl[j], l) && l.name == n;
        assert Uses(s.ctl[j], n);
        ClaimIsNotLive(c);
      }
    }
  }

  lemma UnsharedRecord(e: Effect, s: State, id: nat, c': Control, t': Tables)
    requires PortsOk(s) && NamesDisjoint(s) && id in s.ctl && Explains(e, s.ctl[id], s.tables, c', t')
    ensures SafeRecord(e, s.ctl, id)
  {
    forall j, l | j in s.ctl && j != id && Live(s.ctl[j], l)
      ensures l.name !in e.names && !(e.publish && l.name == s.ctl[id].reg.value.name)
    {
      assert Uses(s.ctl[j], l.name);
      assert !Uses(s.ctl[id], l.name);
    }
  }

  lemma StepKeeps(s: State, a: Step)
    requires PortsOk(s) && NamesDisjoint(s) && Enabled(s, a)
    ensures PortsOk(Do(s, a))
  {
    UnsharedIsSafe(s, a);
    StepTidy(s, a);
    OwnersKeepPortsIff(s, a);
    NoLeakIff(s, a);
    RecordsStayIff(s, a);
    RecordsLive(s, a);
  }

  /** A run in which no two controls use one proxy name at the same time. */
  ghost predicate NamesNeverShared(run: seq<State>) {
    forall i | 0 <= i < |run| :: NamesDisjoint(run[i])
  }

  lemma {:induction false} PortsInEveryRun(run: seq<State>, i: nat)
    requires IsRun(run) && NamesNeverShared(run) && i < |run|
    ensures PortsOk(run[i])
  {
    if i > 0 {
      PortsInEveryRun(run, i - 1);
      assert Next(run[i - 1], run[i - 1 + 1]);
      var a :| Enabled(run[i - 1], a) && run[i] == Do(run[i - 1], a);
      StepKeeps(run[i - 1], a);
    }
  }

  /** Exactly one proxy of the control is behind the claim: the one registering, with
      none live under the name, or the only live one. */
  ghost predicate SoleProxy(c: Control, k: Kind, p: nat, n: string) {
    if Registering(c, k, p, n) then forall l :: Live(c, l) ==> l.name != n
    else exists l :: Live(c, l) && l.kind == k && l.port == p && l.name == n
           && forall m :: Live(c, m) && m.name == n ==> m == l
  }

  lemma OwnsSole(c: Control, k: Kind, p: nat, n: string)
    requires Tidy(c) && Owns(c, k, p, n)
    ensures SoleProxy(c, k, p, n)
  {
    if Registering(c, k, p, n) {
      ClaimIsNotLive(c);
    } else {
      var l :| Live(c, l) && l.kind == k && l.port == p && l.name == n;
      assert forall m :: Live(c, m) && m.name == n ==> m == l;
    }
  }

  /** Every reservation belongs to exactly one proxy, registering or live under the
      reserved name, of exactly one control. */
  lemma ReservationHasOneOwner(run: seq<State>, i: nat, k: Kind, p: nat)
    requires IsRun(run) && NamesNeverShared(run) && i < |run|
    requires p in Ports(run[i].tables, k)
    ensures var n := Ports(run[i].tables, k)[p];
            exists id :: id in run[i].ctl && Owns(run[i].ctl[id], k, p, n) && SoleProxy(run[i].ctl[id], k, p, n)
                && forall j, m :: j in run[i].ctl && Owns(run[i].ctl[j], k, p, m) ==> j == id && m == n
  {
    var s := run[i];
    PortsInEveryRun(run, i);
    var n := Ports(s.tables, k)[p];
    assert Holds(s.tables, k, p, n);
    var id :| id in s.ctl && Owns(s.ctl[id], k, p, n);
    OwnsSole(s.ctl[id], k, p, n);
    forall j, m | j in s.ctl && Owns(s.ctl[j], k, p, m)
      ensures j == id && m == n
    {
      assert Holds(s.tables, k, p, m);
      OwnsUses(s.ctl[id], k, p, n);
      OwnsUses(s.ctl[j], k, p, m);
    }
  }

  /** Every live proxy holds its port. */
  lemma LiveHoldsPort(run: seq<State>, i: nat, id: nat, l: Listener)
    requires IsRun(run) && NamesNeverShared(run) && i < |run|
    requires id in run[i].ctl && Live(run[i].ctl[id], l)
    ensures Holds(run[i].tables, l.kind, l.port, l.name)
  {
    PortsInEveryRun(run, i);
    assert Owns(run[i].ctl[id], l.kind, l.port, l.name);
  }

  // ---- Nothing leaks as long as no two controls have a name at once.

  /** No name is in the proxy maps of two controls. A registration that outlives its
      control does not count: the teardown has taken its name. */
  ghost predicate ProxiesDisjoint(s: State) {
    forall i, j, n :: i in s.ctl && j in s.ctl && n in s.ctl[i].proxies && n in s.ctl[j].proxies ==> i == j
  }

  ghost predicate ProxiesNeverShared(run: seq<State>) {
    forall i | 0 <= i < |run| :: ProxiesDisjoint(run[i])
  }

  ghost predicate Accounted(s: State) {
    && AllTidy(s.ctl) && HeldIsOwned(s.ctl, s.tables)
    && LiveIsRecorded(s.ctl, s.tables) && RecordIsLive(s.ctl, s.tables)
  }

  lemma UnsharedProxiesAreSafe(s: State, a: Step)
    requires Accounted(s) && ProxiesDisjoint(s) && Enabled(s, a)
    ensures StepLeakFree(s, a) && StepRecordSafe(s, a)
  {
    if Actor(s, a).Some? {
      var id := Actor(s, a).value;
      StepExplained(s, a);
      UnsharedProxies(StepEffect(s, a), s, id, Do(s, a).ctl[id], Do(s, a).tables);
    }
  }

  lemma UnsharedProxies(e: Effect, s: State, id: nat, c': Control, t': Tables)
    requires Accounted(s) && ProxiesDisjoint(s) && id in s.ctl && Explains(e, s.ctl[id], s.tables, c', t')
    ensures LeakFree(e, s.ctl, s.tables, id) && SafeRecord(e, s.ctl, id)
  {
    forall j, l | j in s.ctl && j != id && Live(s.ctl[j], l)
      ensures l.name !in e.names && !(e.publish && l.name == s.ctl[id].reg.value.name)
    {
      assert l.name in s.ctl[j].proxies && l.name !in s.ctl[id].proxies;
    }
  }

  lemma AccountedKeeps(s: State, a: Step)
    requires Accounted(s) && ProxiesDisjoint(s) && Enabled(s, a)
    ensures Accounted(Do(s, a))
  {
    UnsharedProxiesAreSafe(s, a);
    StepTidy(s, a);
    NoLeakIff(s, a);
    RecordsStayIff(s, a);
    RecordsLive(s, a);
  }

  lemma {:induction false} AccountedInEveryRun(run: seq<State>, i: nat)
    requires IsRun(run) && ProxiesNeverShared(run) && i < |run|
    ensures Accounted(run[i])
  {
    if i > 0 {
      AccountedInEveryRun(run, i - 1);
      assert Next(run[i - 1], run[i - 1 + 1]);
      var a :| Enabled(run[i - 1], a) && run[i] == Do(run[i - 1], a);
      AccountedKeeps(run[i - 1], a);
    }
  }

  /** Once every control is down and every registration has returned, whenever it
      was that the teardown came, and even if its client is back with the same name,
      no port is reserved. */
  lemma NothingLeaks(run: seq<State>, i: nat)
    requires IsRun(run) && ProxiesNeverShared(run) && i < |run|
    requires AllReturned(run[i])
    ensures run[i].tables == Tables(map[], map[], map[])
  {
    var s := run[i];
    AccountedInEveryRun(run, i);
    forall k, p: nat, n
      ensures !Holds(s.tables, k, p, n)
    {
      NobodyOwns(s, k, p, n);
    }
    assert forall id, l :: id in s.ctl && Live(s.ctl[id], l) ==> Tidy(s.ctl[id]);
    assert forall n :: !LiveSomewhere(s.ctl, n);
    TablesEqual(s.tables, Tables(map[], map[], map[]));
  }
}
