/** Where names, claims and reservations come from. */
module FrpsOrigins {
  import opened Bytes
  import opened PortTables
  import opened Frps
  import opened FrpsClaims
  import opened FrpsPorts
  import FrpsWriter

  /** A request goes on to be configured exactly when the control is there, the name
      is free, and it asks for a plain proxy of a type that is supported. */
  lemma NewProxyIff(stopped: bool, c: Control, t: Tables, name: string, kind: Option<Kind>, port: nat, plain: bool)
    requires CanAct(stopped, c, NewProxy(name, kind, port, plain))
    ensures var c' := DoAct(stopped, c, t, NewProxy(name, kind, port, plain)).0;
            && (Claiming(c') <==> !Cancelled(stopped, c) && name !in c.proxies && plain && kind.Some?)
            && (Claiming(c') ==> ForReg(c', kind.value, port, name) && c'.proxies.Keys == c.proxies.Keys + {name})
            && (!Claiming(c') ==> c'.proxies == c.proxies && c'.spawned == c.spawned)
            && (!Claiming(c') && !Cancelled(stopped, c) ==> c'.reg.Some? && c'.reg.value.stage == Sending(false))
  {
  }

  /** Control `id` was asked, in one of the first `i` steps, for a plain proxy with
      this name, transport and port. */
  ghost predicate Asked(steps: seq<Step>, i: nat, id: nat, k: Kind, p: nat, n: string) {
    exists m: nat :: AskedAt(steps, i, m, id, k, p, n)
  }

  predicate AskedAt(steps: seq<Step>, i: nat, m: nat, id: nat, k: Kind, p: nat, n: string) {
    m < i && m < |steps| && steps[m] == Local(id, NewProxy(n, Some(k), p, true))
  }

  lemma AskedStays(steps: seq<Step>, i: nat, next: nat, id: nat, k: Kind, p: nat, n: string)
    requires Asked(steps, i, id, k, p, n) && i <= next
    ensures Asked(steps, next, id, k, p, n)
  {
    var m: nat :| AskedAt(steps, i, m, id, k, p, n);
    assert AskedAt(steps, next, m, id, k, p, n);
  }

  /** Everything a control claims or has spawned was asked of it. */
  ghost predicate ControlAsked(steps: seq<Step>, i: nat, id: nat, c: Control) {
    && (Claiming(c) ==> Asked(steps, i, id, c.reg.value.kind, c.reg.value.port, c.reg.value.name))
    && (forall l | l in c.spawned :: Asked(steps, i, id, l.kind, l.port, l.name))
  }

  ghost predicate AskedOfSome(steps: seq<Step>, i: nat, k: Kind, p: nat, n: string) {
    exists id :: Asked(steps, i, id, k, p, n)
  }

  /** Every reservation and every record was asked of some control. */
  ghost predicate TablesAsked(steps: seq<Step>, i: nat, t: Tables) {
    && (forall k, p: nat, n :: Holds(t, k, p, n) ==> AskedOfSome(steps, i, k, p, n))
    && (forall n | n in t.infos :: AskedOfSome(steps, i, t.infos[n].kind, t.infos[n].port, n))
  }

  ghost predicate AllAsked(steps: seq<Step>, i: nat, s: State) {
    && TablesAsked(steps, i, s.tables)
    && (forall id | id in s.ctl :: ControlAsked(steps, i, id, s.ctl[id]))
  }

  lemma ControlStays(steps: seq<Step>, i: nat, next: nat, id: nat, c: Control)
    requires ControlAsked(steps, i, id, c) && i <= next
    ensures ControlAsked(steps, next, id, c)
  {
    if Claiming(c) {
      AskedStays(steps, i, next, id, c.reg.value.kind, c.reg.value.port, c.reg.value.name);
    }
    forall l | l in c.spawned
      ensures Asked(steps, next, id, l.kind, l.port, l.name)
    {
      AskedStays(steps, i, next, id, l.kind, l.port, l.name);
    }
  }

  /** A control that claims no more than before, or what its registration claimed. */
  lemma ControlMoves(steps: seq<Step>, i: nat, id: nat, c: Control, c': Control)
    requires ControlAsked(steps, i, id, c)
    requires Claiming(c') ==> Claiming(c) && ForReg(c, c'.reg.value.kind, c'.reg.value.port, c'.reg.value.name)
    requires forall l | l in c'.spawned :: l in c.spawned || (Claiming(c) && l == RegListener(c))
    ensures ControlAsked(steps, i, id, c')
  {
  }

  lemma OtherActMoves(stopped: bool, c: Control, t: Tables, act: Act)
    requires CanAct(stopped, c, act) && !act.NewProxy?
    ensures var c' := DoAct(stopped, c, t, act).0;
            && (Claiming(c') ==> Claiming(c) && ForReg(c, c'.reg.value.kind, c'.reg.value.port, c'.reg.value.name))
            && (forall l | l in c'.spawned :: l in c.spawned || (Claiming(c) && l == RegListener(c)))
  {
    if MovesMessages(act) {
      MessagesSameClaims(stopped, c, t, act);
    }
  }

  lemma ActAsked(steps: seq<Step>, i: nat, next: nat, s: State, id: nat, act: Act)
    requires i < |steps| && next == i + 1 && steps[i] == Local(id, act) && Enabled(s, steps[i])
    requires ControlAsked(steps, i, id, s.ctl[id])
    ensures ControlAsked(steps, next, id, DoAct(s.stopped, s.ctl[id], s.tables, act).0)
  {
    var c, c' := s.ctl[id], DoAct(s.stopped, s.ctl[id], s.tables, act).0;
    ControlStays(steps, i, next, id, c);
    if act.NewProxy? {
      NewProxyIff(s.stopped, c, s.tables, act.name, act.kind, act.port, act.plain);
      if Claiming(c') {
        assert AskedAt(steps, next, i, id, act.kind.value, act.port, act.name);
      }
    } else {
      OtherActMoves(s.stopped, c, s.tables, act);
      ControlMoves(steps, next, id, c, c');
    }
  }

  lemma SomeStays(steps: seq<Step>, i: nat, next: nat, k: Kind, p: nat, n: string)
    requires AskedOfSome(steps, i, k, p, n) && i <= next
    ensures AskedOfSome(steps, next, k, p, n)
  {
    var id :| Asked(steps, i, id, k, p, n);
    AskedStays(steps, i, next, id, k, p, n);
  }

  lemma TablesStay(steps: seq<Step>, i: nat, next: nat, t: Tables)
    requires TablesAsked(steps, i, t) && i <= next
    ensures TablesAsked(steps, next, t)
  {
    forall k, p: nat, n | Holds(t, k, p, n)
      ensures AskedOfSome(steps, next, k, p, n)
    {
      SomeStays(steps, i, next, k, p, n);
    }
    forall n | n in t.infos
      ensures AskedOfSome(steps, next, t.infos[n].kind, t.infos[n].port, n)
    {
      SomeStays(steps, i, next, t.infos[n].kind, t.infos[n].port, n);
    }
  }

  /** A step adds to the tables only what the registration in flight is for. */
  lemma TablesMove(steps: seq<Step>, i: nat, id: nat, e: Effect, c: Control, t: Tables, c': Control, t': Tables)
    requires TablesAsked(steps, i, t) && ControlAsked(steps, i, id, c) && Explains(e, c, t, c', t')
    ensures TablesAsked(steps, i, t')
  {
    forall k, p: nat, n | Holds(t', k, p, n)
      ensures AskedOfSome(steps, i, k, p, n)
    {
      if !Holds(t, k, p, n) {
        assert Granted(e, c, k, p, n) && Claiming(c);
        assert Asked(steps, i, id, k, p, n);
      }
    }
    forall n | n in t'.infos
      ensures AskedOfSome(steps, i, t'.infos[n].kind, t'.infos[n].port, n)
    {
      if e.publish && n == c.reg.value.name {
        assert Asked(steps, i, id, c.reg.value.kind, c.reg.value.port, n);
      } else {
        assert n in t.infos && t'.infos[n] == t.infos[n];
      }
    }
  }

  lemma StepTables(steps: seq<Step>, i: nat, s: State, a: Step)
    requires AllTidy(s.ctl) && AllAsked(steps, i, s) && Enabled(s, a)
    ensures TablesAsked(steps, i, Do(s, a).tables)
  {
    if Actor(s, a).Some? {
      var id, s' := Actor(s, a).value, Do(s, a);
      StepExplained(s, a);
      TablesMove(steps, i, id, StepEffect(s, a), s.ctl[id], s.tables, s'.ctl[id], s'.tables);
    } else {
      NoActorKeeps(s, a);
    }
  }

  lemma StepControls(steps: seq<Step>, i: nat, next: nat, s: State, j: nat)
    requires i < |steps| && next == i + 1 && AllAsked(steps, i, s) && Enabled(s, steps[i])
    requires j in Do(s, steps[i]).ctl
    ensures ControlAsked(steps, next, j, Do(s, steps[i]).ctl[j])
  {
    var a := steps[i];
    if a.Local? && a.id == j {
      ActAsked(steps, i, next, s, j, a.act);
    } else if j in s.ctl {
      ControlMoves(steps, i, j, s.ctl[j], Do(s, a).ctl[j]);
      ControlStays(steps, i, next, j, Do(s, a).ctl[j]);
    }
  }

  /** In every run, at every point: each registration that has not been refused, each
      spawned proxy, each reservation and each record comes from an earlier request
      for a plain proxy with that name, transport and port. */
  lemma {:induction false} EverythingWasAskedFor(run: seq<State>, steps: seq<Step>, i: nat)
    requires IsTrace(run, steps) && i <= |steps|
    ensures AllAsked(steps, i, run[i])
  {
    if i > 0 {
      var s, a := run[i - 1], steps[i - 1];
      EverythingWasAskedFor(run, steps, i - 1);
      TraceIsRun(run, steps);
      TidyInEveryRun(run, i - 1);
      assert run[i - 1 + 1] == Do(s, a);
      StepTables(steps, i - 1, s, a);
      TablesStay(steps, i - 1, i, run[i].tables);
      forall j | j in run[i].ctl
        ensures ControlAsked(steps, i, j, run[i].ctl[j])
      {
        StepControls(steps, i - 1, i, s, j);
      }
    }
  }

  /** So does each name in use. */
  lemma NameWasAskedFor(run: seq<State>, steps: seq<Step>, i: nat, id: nat, n: string)
    requires IsTrace(run, steps) && i <= |steps| && id in run[i].ctl && n in run[i].ctl[id].proxies
    ensures exists k, p: nat :: Asked(steps, i, id, k, p, n)
  {
    EverythingWasAskedFor(run, steps, i);
    TraceIsRun(run, steps);
    TidyInEveryRun(run, i);
    var c := run[i].ctl[id];
    assert Tidy(c);
    if Claiming(c) && c.reg.value.name == n {
      assert Asked(steps, i, id, c.reg.value.kind, c.reg.value.port, n);
    } else {
      var l :| Live(c, l) && l.name == n;
      assert Asked(steps, i, id, l.kind, l.port, n);
    }
  }

  // ---- Stopping the server.

  /** What a control has spawned, nothing if there is no such control. */
  function SpawnedBy(s: State, id: nat): set<Listener> {
    if id in s.ctl then s.ctl[id].spawned else {}
  }

  lemma StopStep(s: State)
    ensures Do(s, Stop).stopped && forall id :: SpawnedBy(Do(s, Stop), id) == SpawnedBy(s, id)
  {
  }

  lemma StoppedStep(s: State, a: Step, id: nat)
    requires s.stopped && Enabled(s, a)
    ensures Do(s, a).stopped && SpawnedBy(Do(s, a), id) == SpawnedBy(s, id)
  {
    if a.Local? && a.id == id {
      FrpsWriter.ActNoSpawn(s.stopped, s.ctl[id], s.tables, a.act);
    }
  }

  /** Once the server has been stopped nothing is spawned any more, for the controls
      of that moment and for those that log in later. */
  lemma {:induction false} NoSpawnAfterStop(run: seq<State>, steps: seq<Step>, m: nat, i: nat, id: nat)
    requires IsTrace(run, steps) && m < i <= |steps| && steps[m] == Stop
    ensures run[i].stopped && SpawnedBy(run[i], id) == SpawnedBy(run[m], id)
    decreases i
  {
    TraceStep(run, steps, i - 1, i);
    if m == i - 1 {
      StopStep(run[m]);
    } else {
      NoSpawnAfterStop(run, steps, m, i - 1, id);
      StoppedStep(run[i - 1], steps[i - 1], id);
    }
  }
}
