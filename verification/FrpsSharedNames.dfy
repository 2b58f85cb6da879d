/** What goes wrong when two controls use one proxy name. */
module FrpsSharedNames {
  import opened Bytes
  import opened PortTables
  import opened Frps
  import opened FrpsClaims
  import opened FrpsPorts

  lemma Extend(run: seq<State>, a: Step)
    requires IsRun(run) && Enabled(run[|run| - 1], a)
    ensures IsRun(run + [Do(run[|run| - 1], a)])
  {
    var last := run[|run| - 1];
    var run' := run + [Do(last, a)];
    assert Next(last, Do(last, a));
    forall i | 0 <= i < |run'| - 1
      ensures Next(run'[i], run'[i + 1])
    {
      if i < |run| - 1 { assert Next(run[i], run[i + 1]); }
    }
  }

  /** One act of one control, at the end of a run. */
  lemma Then(run: seq<State>, id: nat, act: Act) returns (run': seq<State>)
    requires IsRun(run) && Enabled(run[|run| - 1], Local(id, act))
    ensures IsRun(run') && run'[|run'| - 1] == Do(run[|run| - 1], Local(id, act))
  {
    Extend(run, Local(id, act));
    run' := run + [Do(run[|run| - 1], Local(id, act))];
  }

  /** Two controls log in. */
  lemma TwoLogins() returns (run: seq<State>)
    ensures IsRun(run)
    ensures run[|run| - 1] == State(false, map["a" := 0, "b" := 1], map[0 := NewControl("a"), 1 := NewControl("b")],
                                    Tables(map[], map[], map[]), 2)
  {
    run := [Empty()];
    Extend(run, Login("a", 0));
    run := run + [Do(Empty(), Login("a", 0))];
    var s := run[1];
    Extend(run, Login("b", 1));
    run := run + [Do(s, Login("b", 1))];
  }

  /** A registration that goes through: the proxy is live and holds its port. */
  lemma GoLive(run: seq<State>, id: nat, n: string, k: Kind, p: nat) returns (run': seq<State>)
    requires IsRun(run)
    requires var s := run[|run| - 1];
             id in s.ctl && s.ctl[id] == NewControl(s.ctl[id].runId) && !s.stopped && !Taken(s.tables, k, p, n)
    ensures IsRun(run')
    ensures var s, s' := run[|run| - 1], run'[|run'| - 1];
            && s'.ctl.Keys == s.ctl.Keys && (forall j | j in s.ctl && j != id :: s'.ctl[j] == s.ctl[j])
            && !s'.stopped && Live(s'.ctl[id], Listener(n, k, p, 0))
            && s'.ctl[id].proxies == map[n := 0] && s'.ctl[id].reg.None?
            && s'.tables == Publish(Register(s.tables, k, p, n), n, Info(k, p))
  {
    run' := Then(run, id, NewProxy(n, Some(k), p, true));
    run' := Then(run', id, Configured(true, true));
    run' := Then(run', id, Bound(true));
    run' := Answer(run', id);
  }

  /** The writer sends the response of control `id`, whose registration then ends. */
  lemma Answer(run: seq<State>, id: nat) returns (run': seq<State>)
    requires IsRun(run)
    requires var s := run[|run| - 1];
             && id in s.ctl && !s.stopped && !s.ctl[id].cancelled && s.ctl[id].closed == {}
             && s.ctl[id].queue == [] && s.ctl[id].writer.Idle?
             && s.ctl[id].reg.Some? && s.ctl[id].reg.value.stage == Sending(true)
    ensures IsRun(run')
    ensures var s, s' := run[|run| - 1], run'[|run'| - 1];
            var r := s.ctl[id].reg.value;
            && s'.ctl.Keys == s.ctl.Keys && (forall j | j in s.ctl && j != id :: s'.ctl[j] == s.ctl[j])
            && !s'.stopped && s'.tables == Publish(s.tables, r.name, Info(r.kind, r.port))
            && s'.ctl[id].proxies == s.ctl[id].proxies && s'.ctl[id].reg.None?
            && s'.ctl[id].spawned == s.ctl[id].spawned + {Listener(r.name, r.kind, r.port, r.token)}
  {
    ghost var r := run[|run| - 1].ctl[id].reg.value;
    run' := Then(run, id, Enqueue);
    run' := Then(run', id, Take);
    assert run'[|run'| - 1].ctl[id].writer == Writing(Response(r.token, true));
    assert [Response(r.token, true)][0].Response?;
    run' := Then(run', id, Wrote(true));
    run' := Then(run', id, Flushed);
  }

  ghost predicate LosesPort(s: State, n: string, k: Kind, p: nat) {
    && !Holds(s.tables, k, p, n)
    && exists id, l :: id in s.ctl && Live(s.ctl[id], l) && l.name == n && l.kind == k && l.port == p
  }

  /** Why names must not be shared: whatever the name, the transport and the port,
      a second control that registers them is granted the reservation again, and
      when its bind fails the first control's live proxy loses its port. */
  lemma SharedNameLosesPort(n: string, k: Kind, p: nat)
    ensures exists run: seq<State> :: IsRun(run) && LosesPort(run[|run| - 1], n, k, p)
  {
    var run := TwoLogins();
    run := GoLive(run, 0, n, k, p);
    var l := Listener(n, k, p, 0);
    run := Then(run, 1, NewProxy(n, Some(k), p, true));
    run := Then(run, 1, Configured(true, true));
    run := Then(run, 1, Bound(false));
    assert Live(run[|run| - 1].ctl[0], l);
    assert LosesPort(run[|run| - 1], n, k, p);
  }

  /** The other way a shared name goes wrong: the record of the second proxy
      replaces that of the first, so closing the first gives the second's port back
      and nothing gives back the first's. Every control is down and every
      registration has returned, and port `p` stays reserved. */
  lemma SharedNameLeaksPort(n: string, k: Kind, p: nat, q: nat)
    requires p != q
    ensures exists run: seq<State> :: IsRun(run) && AllReturned(run[|run| - 1]) && Holds(run[|run| - 1].tables, k, p, n)
  {
    var run := BothLive(n, k, p, q);
    LostTrack(run[|run| - 1].tables, n, k, p, q);
    run := Down(run, 0);
    run := Down(run, 1);
    var s := run[|run| - 1];
    assert AllReturned(s) && Holds(s.tables, k, p, n);
  }

  /** Closing the name twice, with only one port on record, leaves the other. */
  lemma LostTrack(t: Tables, n: string, k: Kind, p: nat, q: nat)
    requires Holds(t, k, p, n) && t.infos == map[n := Info(k, q)] && p != q
    ensures Holds(CloseNames(CloseNames(t, map[n := 0].Keys), map[n := 0].Keys), k, p, n)
  {
  }

  /** Two controls have a proxy of the same name, on two ports. */
  lemma BothLive(n: string, k: Kind, p: nat, q: nat) returns (run: seq<State>)
    requires p != q
    ensures IsRun(run)
    ensures var s := run[|run| - 1];
            && s.ctl.Keys == {0, 1} && s.ctl[0].proxies == s.ctl[1].proxies == map[n := 0]
            && s.ctl[0].reg.None? && s.ctl[1].reg.None?
            && Live(s.ctl[1], Listener(n, k, q, 0))
            && Holds(s.tables, k, p, n) && s.tables.infos == map[n := Info(k, q)]
  {
    run := TwoLogins();
    run := GoLive(run, 0, n, k, p);
    run := GoLive(run, 1, n, k, q);
  }

  /** A control is torn down at the end of a run. */
  lemma Down(run: seq<State>, id: nat) returns (run': seq<State>)
    requires IsRun(run) && id in run[|run| - 1].ctl
    ensures IsRun(run') && run'[|run'| - 1] == DoTearDown(run[|run| - 1], id)
  {
    Extend(run, TearDown(id));
    run' := run + [Do(run[|run| - 1], TearDown(id))];
  }

  /** The same state, one teardown on: closing the first proxy takes the port of the
      second, which is live. */
  lemma TearDownTakesPort(n: string, k: Kind, p: nat, q: nat)
    requires p != q
    ensures exists run: seq<State> :: IsRun(run) && LosesPort(run[|run| - 1], n, k, q)
  {
    var run := BothLive(n, k, p, q);
    var l := Listener(n, k, q, 0);
    run := Down(run, 0);
    var s := run[|run| - 1];
    assert Live(s.ctl[1], l);
    assert !Holds(s.tables, k, q, n);
    assert LosesPort(s, n, k, q);
  }

  /** One client is enough: it reconnects while its registration is binding and
      registers the same proxy again; the reservation is granted again, and when the
      old bind fails the new proxy, live, loses its port. */
  lemma ReconnectLosesPort(n: string, k: Kind, p: nat)
    ensures exists run: seq<State> :: IsRun(run) && LosesPort(run[|run| - 1], n, k, p)
  {
    var run := Reconnect(n, k, p);
    run := GoLive(run, 1, n, k, p);
    assert Live(run[|run| - 1].ctl[1], Listener(n, k, p, 0));
    run := Then(run, 0, Bound(false));
    assert Live(run[|run| - 1].ctl[1], Listener(n, k, p, 0));
    assert LosesPort(run[|run| - 1], n, k, p);
  }

  /** Control 0 is binding, torn down, and replaced by control 1. */
  lemma Reconnect(n: string, k: Kind, p: nat) returns (run: seq<State>)
    ensures IsRun(run)
    ensures var s := run[|run| - 1];
            && s.ctl.Keys == {0, 1} && s.ctl[1] == NewControl("a") && !s.stopped && Holds(s.tables, k, p, n)
            && s.ctl[0].reg == Some(Reg(n, k, p, 0, Binding))
  {
    run := [Empty()];
    Extend(run, Login("a", 0));
    run := run + [Do(Empty(), Login("a", 0))];
    run := Then(run, 0, NewProxy(n, Some(k), p, true));
    run := Then(run, 0, Configured(true, true));
    run := Again(run, n, k, p);
  }

  lemma Again(run: seq<State>, n: string, k: Kind, p: nat) returns (run': seq<State>)
    requires IsRun(run)
    requires var s := run[|run| - 1];
             && s.registry == map["a" := 0] && s.ctl.Keys == {0} && s.ctl[0].runId == "a" && !s.stopped
             && s.ctl[0].reg == Some(Reg(n, k, p, 0, Binding))
             && s.tables == Register(Tables(map[], map[], map[]), k, p, n)
    ensures IsRun(run')
    ensures var s := run'[|run'| - 1];
            && s.ctl.Keys == {0, 1} && s.ctl[1] == NewControl("a") && !s.stopped && Holds(s.tables, k, p, n)
            && s.ctl[0].reg == Some(Reg(n, k, p, 0, Binding))
  {
    var s := run[|run| - 1];
    Extend(run, Replace("a"));
    run' := run + [Do(s, Replace("a"))];
    var s1 := run'[|run'| - 1];
    assert Holds(s1.tables, k, p, n);
    Extend(run', Login("a", 1));
    run' := run' + [Do(s1, Login("a", 1))];
  }
}
