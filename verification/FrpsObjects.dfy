/** The server's objects carry out the steps of the step system. */
module FrpsObjects {
  import opened Bytes
  import opened PortTables
  import opened ControlObjects
  import opened Frps

  ghost predicate Shows(o: ControlState, c: Control)
    reads o
  {
    && o.runId == c.runId && o.cancelled == c.cancelled && o.online == c.online
    && o.proxies == c.proxies && o.closed == c.closed
  }

  /** The registry holds the objects that it names in the step system. This and the
      next are opened only on request. */
  ghost predicate RegistryIs(controls: map<string, ControlState>, objs: map<nat, ControlState>,
                             registry: map<string, nat>)
  {
    forall k: nat {:trigger Open(k)} | Open(k) ::
      && controls.Keys == registry.Keys
      && (forall r | r in registry :: registry[r] in objs && objs[registry[r]] == controls[r])
  }

  /** The controls other than `id` are as in `cs`. */
  ghost predicate OthersShow(objs: map<nat, ControlState>, cs: map<nat, Control>, id: nat)
    reads set i | i in objs && i != id :: objs[i]
  {
    forall k: nat {:trigger Open(k)} | Open(k) ::
      forall i | i in objs && i in cs && i != id :: Shows(objs[i], cs[i])
  }

  /** The objects, numbered as in the step system, are distinct and share one. */
  ghost predicate Layout(shared: ServerShared, objs: map<nat, ControlState>) {
    && (forall i, j | i in objs && j in objs && objs[i] == objs[j] :: i == j)
    && (forall i | i in objs :: objs[i].shared == shared)
  }

  /** The objects and the shared object are in state `s`. */
  ghost predicate Represents(shared: ServerShared, objs: map<nat, ControlState>, s: State)
    reads shared, objs.Values
  {
    && Layout(shared, objs) && objs.Keys == s.ctl.Keys
    && shared.View() == s.tables && shared.clientsOnline == s.online
    && RegistryIs(shared.controls, objs, s.registry)
    && AllShow(objs, s.ctl)
  }

  ghost predicate AllShow(objs: map<nat, ControlState>, cs: map<nat, Control>)
    reads objs.Values
  {
    forall k: nat {:trigger Open(k)} | Open(k) :: forall i | i in objs && i in cs :: Shows(objs[i], cs[i])
  }

  lemma Apart(shared: ServerShared, objs: map<nat, ControlState>, s: State, id: nat)
    requires Represents(shared, objs, s) && id in objs
    ensures OthersShow(objs, s.ctl, id) && Shows(objs[id], s.ctl[id])
  {
    assert Open(0);
  }

  /** The control and the tables have moved on, and the rest has not. */
  lemma Together(objs: map<nat, ControlState>, cs: map<nat, Control>, id: nat, c: Control)
    requires id in objs && objs.Keys == cs.Keys && OthersShow(objs, cs, id) && Shows(objs[id], c)
    ensures AllShow(objs, cs[id := c])
  {
    assert Open(0);
  }

  /** The entry goes in the one exactly when it goes in the other. */
  lemma RegistryRemoves(shared: ServerShared, controls: map<string, ControlState>, objs: map<nat, ControlState>,
                        registry: map<string, nat>, id: nat, r: string)
    requires Layout(shared, objs) && id in objs && RegistryIs(controls, objs, registry)
    ensures RegistryIs(if r in controls && controls[r] == objs[id] then controls - {r} else controls, objs,
                       if r in registry && registry[r] == id then registry - {r} else registry)
  {
    assert Open(0);
  }

  /** Whoever tears a control down: its reader, the monitor, a login or a stop. */
  method TearDownStep(shared: ServerShared, objs: map<nat, ControlState>, ghost s: State,
                      ghost id: nat, o: ControlState)
    requires Represents(shared, objs, s) && id in objs && o == objs[id]
    modifies shared, o
    ensures Represents(shared, objs, DoTearDown(s, id))
  {
    Apart(shared, objs, s, id);
    ghost var c := s.ctl[id];
    RegistryRemoves(shared, shared.controls, objs, s.registry, id, c.runId);
    o.Teardown();
    Together(objs, s.ctl, id, Downed(c));
  }

  /** A login with a run id in use tears the control down that has it. */
  method ReplaceStep(shared: ServerShared, objs: map<nat, ControlState>, ghost s: State, runId: string)
    requires Represents(shared, objs, s)
    modifies shared, objs.Values
    ensures Represents(shared, objs, Do(s, Replace(runId)))
  {
    Named(shared, objs, s, runId);
    if runId in shared.controls {
      TearDownStep(shared, objs, s, s.registry[runId], shared.controls[runId]);
    }
  }

  lemma Named(shared: ServerShared, objs: map<nat, ControlState>, s: State, runId: string)
    requires Represents(shared, objs, s)
    ensures runId in shared.controls <==> runId in s.registry
    ensures runId in s.registry ==> s.registry[runId] in objs && objs[s.registry[runId]] == shared.controls[runId]
  {
    assert Open(0);
  }

  function Moved(s: State, id: nat, r: (Control, Tables)): State {
    s.(ctl := s.ctl[id := r.0], tables := r.1)
  }

  lemma LocalDo(s: State, id: nat, act: Act)
    requires Enabled(s, Local(id, act))
    ensures Do(s, Local(id, act)) == Moved(s, id, DoAct(s.stopped, s.ctl[id], s.tables, act))
  {
  }

  method CloseStep(shared: ServerShared, objs: map<nat, ControlState>, ghost s: State, id: nat, name: string)
    requires Represents(shared, objs, s) && id in objs && Enabled(s, Local(id, Act.CloseProxy(name)))
    modifies shared, objs[id]
    ensures Represents(shared, objs, Do(s, Local(id, Act.CloseProxy(name))))
  {
    LocalDo(s, id, Act.CloseProxy(name));
    Close(shared, objs, s, id, name);
  }

  method Close(shared: ServerShared, objs: map<nat, ControlState>, ghost s: State, id: nat, name: string)
    requires Represents(shared, objs, s) && id in objs
    modifies shared, objs[id]
    ensures Represents(shared, objs, Moved(s, id, DoClose(s.ctl[id], s.tables, name)))
  {
    Apart(shared, objs, s, id);
    ghost var (c, t) := DoClose(s.ctl[id], s.tables, name);
    objs[id].CloseProxy(name);
    assert Shows(objs[id], c) by {
      assert name !in s.ctl[id].proxies ==> s.ctl[id].proxies - {name} == s.ctl[id].proxies;
    }
    Together(objs, s.ctl, id, c);
  }

  /** A request for a proxy, accepted exactly when its step goes on to configure it. */
  method NewProxyStep(shared: ServerShared, objs: map<nat, ControlState>, ghost s: State, id: nat,
                      name: string, kind: Option<Kind>, port: nat, plain: bool, token: nat, stopped: bool)
    returns (r: Reservation)
    requires Represents(shared, objs, s) && id in objs && Enabled(s, Local(id, NewProxy(name, kind, port, plain)))
    requires token == s.ctl[id].nextToken && stopped == s.stopped
    modifies shared, objs[id]
    ensures var s' := Do(s, Local(id, NewProxy(name, kind, port, plain)));
            && Represents(shared, objs, s')
            && (r.Accepted? <==> s'.ctl[id].reg.Some? && s'.ctl[id].reg.value.stage.Config?)
            && (r.Refused? <==> s'.ctl[id].reg.Some? && s'.ctl[id].reg.value.stage == Sending(false))
  {
    LocalDo(s, id, NewProxy(name, kind, port, plain));
    Apart(shared, objs, s, id);
    ghost var c := DoNewProxy(s.stopped, s.ctl[id], name, kind, port, plain);
    r := objs[id].Reserve(name, token, plain, kind.Some?, stopped);
    assert Shows(objs[id], c);
    Together(objs, s.ctl, id, c);
  }

  /** The registration in flight of control `id`. */
  ghost predicate InFlight(s: State, id: nat, name: string, k: Kind, port: nat) {
    && id in s.ctl && s.ctl[id].reg.Some?
    && s.ctl[id].reg.value.name == name && s.ctl[id].reg.value.kind == k && s.ctl[id].reg.value.port == port
  }

  method ConfigureStep(shared: ServerShared, objs: map<nat, ControlState>, ghost s: State, id: nat,
                       name: string, k: Kind, port: nat, allowed: bool, addrOk: bool)
    requires Represents(shared, objs, s) && id in objs && InFlight(s, id, name, k, port)
    requires Enabled(s, Local(id, Configured(allowed, addrOk)))
    modifies shared, objs[id]
    ensures Represents(shared, objs, Do(s, Local(id, Configured(allowed, addrOk))))
  {
    LocalDo(s, id, Configured(allowed, addrOk));
    var binding := Configure(shared, objs, s, id, name, k, port, allowed, addrOk);
  }

  method Configure(shared: ServerShared, objs: map<nat, ControlState>, ghost s: State, id: nat,
                   name: string, k: Kind, port: nat, allowed: bool, addrOk: bool)
    returns (binding: bool)
    requires Represents(shared, objs, s) && id in objs && InFlight(s, id, name, k, port)
    modifies shared, objs[id]
    ensures var r := DoConfigured(s.ctl[id], s.tables, s.ctl[id].reg.value, allowed, addrOk);
            Represents(shared, objs, Moved(s, id, r)) && binding == r.0.reg.value.stage.Binding?
  {
    Apart(shared, objs, s, id);
    ghost var (c, t) := DoConfigured(s.ctl[id], s.tables, s.ctl[id].reg.value, allowed, addrOk);
    binding := objs[id].Configure(name, k, port, allowed, addrOk);
    assert Shows(objs[id], c) && shared.View() == t;
    Together(objs, s.ctl, id, c);
  }

  method BindFailedStep(shared: ServerShared, objs: map<nat, ControlState>, ghost s: State, id: nat,
                        name: string, k: Kind, port: nat)
    requires Represents(shared, objs, s) && id in objs && InFlight(s, id, name, k, port)
    requires Enabled(s, Local(id, Bound(false)))
    modifies shared, objs[id]
    ensures Represents(shared, objs, Do(s, Local(id, Bound(false))))
  {
    LocalDo(s, id, Bound(false));
    Apart(shared, objs, s, id);
    ghost var (c, t) := DoBound(s.ctl[id], s.tables, s.ctl[id].reg.value, false);
    objs[id].BindFailed(name, k, port);
    Together(objs, s.ctl, id, c);
  }

  /** The return of a registration whose success response was sent or given up. */
  method ConcludeStep(shared: ServerShared, objs: map<nat, ControlState>, ghost s: State, id: nat,
                      name: string, k: Kind, port: nat, tokenCancelled: bool, ghost act: Act)
    requires Represents(shared, objs, s) && id in objs && InFlight(s, id, name, k, port)
    requires (act.Abandon? || act.Flushed?) && Enabled(s, Local(id, act)) && s.ctl[id].reg.value.stage.ok
    requires tokenCancelled == TokenCancelled(s.stopped, s.ctl[id], s.ctl[id].reg.value.token)
    modifies shared, objs[id]
    ensures Represents(shared, objs, Do(s, Local(id, act)))
  {
    LocalDo(s, id, act);
    Conclude(shared, objs, s, id, name, k, port, tokenCancelled);
  }

  method Conclude(shared: ServerShared, objs: map<nat, ControlState>, ghost s: State, id: nat,
                  name: string, k: Kind, port: nat, tokenCancelled: bool)
    requires Represents(shared, objs, s) && id in objs && InFlight(s, id, name, k, port)
    requires s.ctl[id].reg.value.stage.Sending? || s.ctl[id].reg.value.stage.Flushing?
    requires s.ctl[id].reg.value.stage.ok
    requires tokenCancelled == TokenCancelled(s.stopped, s.ctl[id], s.ctl[id].reg.value.token)
    modifies shared, objs[id]
    ensures Represents(shared, objs, Moved(s, id, Finish(s.stopped, s.ctl[id], s.tables, s.ctl[id].reg.value)))
  {
    Apart(shared, objs, s, id);
    ghost var (c, t) := Finish(s.stopped, s.ctl[id], s.tables, s.ctl[id].reg.value);
    objs[id].Conclude(name, k, port, tokenCancelled);
    assert Shows(objs[id], c) by {
      assert name !in s.ctl[id].proxies ==> s.ctl[id].proxies - {name} == s.ctl[id].proxies;
    }
    Together(objs, s.ctl, id, c);
  }
}
