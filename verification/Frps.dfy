/** The frps server as a step system. A step is the code between two awaits, so
    every interleaving of the tasks at await points is a run. */
module Frps {
  import opened Bytes
  import opened PortTables

  /** Where one registration stands. `Sending` waits for room in the writer's
      queue, `Flushing` for the latch of its queued response; `ok` tells a
      success response from an error response. */
  datatype Stage = Config | Binding | Sending(ok: bool) | Flushing(ok: bool, latch: Latch)

  datatype Latch = Waiting | Fired | Dropped

  datatype Reg = Reg(name: string, kind: Kind, port: nat, token: nat, stage: Stage)

  datatype Item = Response(token: nat, ok: bool) | Plain

  datatype Writer = Idle | Writing(item: Item) | Stopped

  /** A spawned proxy task. */
  datatype Listener = Listener(name: string, kind: Kind, port: nat, token: nat)

  /** One control. `reg` is the registration its reader is in the middle of: the
      reader awaits it, so there is at most one. `closed` are the proxy tokens
      cancelled on their own, `written` the registrations whose success response
      is on the wire. */
  datatype Control = Control(
    runId: string, cancelled: bool, online: bool,
    proxies: map<string, nat>, nextToken: nat, closed: set<nat>,
    reg: Option<Reg>,
    queue: seq<Item>, writer: Writer, written: set<nat>, writeFailed: bool,
    spawned: set<Listener>, started: set<Listener>)

  datatype State = State(
    stopped: bool, registry: map<string, nat>, ctl: map<nat, Control>,
    tables: Tables, online: int)

  datatype Step =
    | Login(runId: string, newId: nat)
    | Replace(runId: string)
    | TearDown(victim: nat)
    | Stop
    | Local(id: nat, act: Act)

  /** What happens inside one control. */
  datatype Act =
    | NewProxy(name: string, kind: Option<Kind>, port: nat, plain: bool)
    | Configured(allowed: bool, addrOk: bool)
    | Bound(ok: bool)
    | Enqueue
    | Abandon
    | Flushed
    | QueueOther
    | Take
    | Wrote(ok: bool)
    | WriterQuits
    | CloseProxy(name: string)
    | StartWork(l: Listener)

  const QUEUE_LEN := 256

  function Empty(): State {
    State(false, map[], map[], Tables(map[], map[], map[]), 0)
  }

  /** Control tokens are children of the server's run token, which `stopped`
      stands for, and proxy tokens are children of their control's. */
  predicate Cancelled(stopped: bool, c: Control) {
    stopped || c.cancelled
  }

  predicate TokenCancelled(stopped: bool, c: Control, token: nat) {
    Cancelled(stopped, c) || token in c.closed
  }

  function NewControl(runId: string): Control {
    Control(runId, false, true, map[], 0, {}, None, [], Idle, {}, false, {}, {})
  }

  function Downed(c: Control): Control {
    c.(cancelled := true, online := false, proxies := map[], closed := c.closed + c.proxies.Values)
  }

  function DoTearDown(s: State, id: nat): State
    requires id in s.ctl
  {
    var c := s.ctl[id];
    State(s.stopped,
          if c.runId in s.registry && s.registry[c.runId] == id then s.registry - {c.runId} else s.registry,
          s.ctl[id := Downed(c)],
          CloseNames(s.tables, c.proxies.Keys),
          if c.online then s.online - 1 else s.online)
  }

  predicate SameIdentity(c: Control, c': Control) {
    c'.runId == c.runId && c'.online == c.online && c'.cancelled == c.cancelled
  }

  function DoClose(c: Control, t: Tables, name: string): (r: (Control, Tables))
    ensures SameIdentity(c, r.0)
  {
    if name in c.proxies then
      (c.(proxies := c.proxies - {name}, closed := c.closed + {c.proxies[name]}), CloseName(t, name))
    else (c, t)
  }

  /** The registration goes on to send an error response, without its name. */
  function Refuse(c: Control, r: Reg): Control {
    c.(proxies := c.proxies - {r.name}, reg := Some(r.(stage := Sending(false))))
  }

  function DoNewProxy(stopped: bool, c: Control, name: string, kind: Option<Kind>, port: nat, plain: bool)
    : (c': Control)
    ensures SameIdentity(c, c')
  {
    if Cancelled(stopped, c) then c
    else
      var k := if kind.Some? then kind.value else Tcp;
      var c1 := c.(nextToken := c.nextToken + 1);
      if name in c.proxies || !plain || kind.None? then
        c1.(reg := Some(Reg(name, k, port, c.nextToken, Sending(false))))
      else
        c1.(proxies := c.proxies[name := c.nextToken],
            reg := Some(Reg(name, k, port, c.nextToken, Config)))
  }

  function DoConfigured(c: Control, t: Tables, r: Reg, allowed: bool, addrOk: bool): (r': (Control, Tables))
    ensures SameIdentity(c, r'.0)
  {
    if !allowed || Taken(t, r.kind, r.port, r.name) then (Refuse(c, r), t)
    else
      var t1 := Register(t, r.kind, r.port, r.name);
      if addrOk then (c.(reg := Some(r.(stage := Binding))), t1)
      else (Refuse(c, r), Release(t1, r.kind, r.port, r.name))
  }

  function DoBound(c: Control, t: Tables, r: Reg, ok: bool): (r': (Control, Tables))
    ensures SameIdentity(c, r'.0)
  {
    if ok then (c.(reg := Some(r.(stage := Sending(true)))), t)
    else (Refuse(c, r), Release(t, r.kind, r.port, r.name))
  }

  /** The response was sent or given up: publish the proxy and spawn its task, or
      undo the registration when its token is cancelled. */
  function Finish(stopped: bool, c: Control, t: Tables, r: Reg): (r': (Control, Tables))
    requires r.stage.Sending? || r.stage.Flushing?
    ensures SameIdentity(c, r'.0)
  {
    var c1 := c.(reg := None);
    if !r.stage.ok then (c1, t)
    else if TokenCancelled(stopped, c, r.token) then
      DoClose(c1, Release(t, r.kind, r.port, r.name), r.name)
    else
      (c1.(spawned := c.spawned + {Listener(r.name, r.kind, r.port, r.token)}),
       Publish(t, r.name, Info(r.kind, r.port)))
  }

  predicate Carries(items: seq<Item>, token: nat) {
    exists i | 0 <= i < |items| :: items[i].Response? && items[i].token == token
  }

  /** The latches that `items` carry are fired, or dropped with the items. */
  function Settle(c: Control, items: seq<Item>, latch: Latch): (c': Control)
    ensures SameIdentity(c, c') && c' == c.(reg := c'.reg)
  {
    if c.reg.Some? && c.reg.value.stage.Flushing? && Carries(items, c.reg.value.token) then
      c.(reg := Some(c.reg.value.(stage := c.reg.value.stage.(latch := latch))))
    else c
  }

  /** Messages taken from the senders and not yet written. */
  function Pipeline(c: Control): seq<Item> {
    (if c.writer.Writing? then [c.writer.item] else []) + c.queue
  }

  function DoWrote(c: Control, ok: bool): (c': Control)
    requires c.writer.Writing?
    ensures SameIdentity(c, c')
  {
    var item := c.writer.item;
    var c1 := Settle(c, [item], Fired);
    if ok then
      c1.(writer := Idle, written := if item.Response? && item.ok then c.written + {item.token} else c.written)
    else
      Settle(c1, c.queue, Dropped).(queue := [], writer := Stopped, writeFailed := true)
  }

  function DoWriterQuits(c: Control): (c': Control)
    ensures SameIdentity(c, c')
  {
    Settle(c, Pipeline(c), Dropped).(queue := [], writer := Stopped)
  }

  predicate CanAct(stopped: bool, c: Control, act: Act) {
    match act
    case NewProxy(_, _, _, _) => c.reg.None?
    case Configured(_, _) => c.reg.Some? && c.reg.value.stage.Config?
    case Bound(_) => c.reg.Some? && c.reg.value.stage.Binding?
    case Enqueue => c.reg.Some? && c.reg.value.stage.Sending? && !c.writer.Stopped? && |c.queue| < QUEUE_LEN
    case Abandon => c.reg.Some? && c.reg.value.stage.Sending? && (Cancelled(stopped, c) || c.writer.Stopped?)
    case Flushed => c.reg.Some? && c.reg.value.stage.Flushing? && !c.reg.value.stage.latch.Waiting?
    case QueueOther => !c.writer.Stopped? && |c.queue| < QUEUE_LEN
    case Take => c.writer.Idle? && c.queue != []
    case Wrote(_) => c.writer.Writing?
    case WriterQuits => Cancelled(stopped, c) && !c.writer.Stopped?
    case CloseProxy(_) => c.reg.None?
    case StartWork(l) => l in c.spawned
  }

  /** Nothing a control does by itself changes who it is or whether it is up. */
  function DoAct(stopped: bool, c: Control, t: Tables, act: Act): (r: (Control, Tables))
    requires CanAct(stopped, c, act)
    ensures SameIdentity(c, r.0)
  {
    match act
    case NewProxy(name, kind, port, plain) => (DoNewProxy(stopped, c, name, kind, port, plain), t)
    case Configured(allowed, addrOk) => DoConfigured(c, t, c.reg.value, allowed, addrOk)
    case Bound(ok) => DoBound(c, t, c.reg.value, ok)
    case Enqueue =>
      var r := c.reg.value;
      (c.(queue := c.queue + [Response(r.token, r.stage.ok)],
          reg := Some(r.(stage := Flushing(r.stage.ok, Waiting)))), t)
    case Abandon => Finish(stopped, c, t, c.reg.value)
    case Flushed => Finish(stopped, c, t, c.reg.value)
    case QueueOther => (c.(queue := c.queue + [Plain]), t)
    case Take => (c.(queue := c.queue[1..], writer := Writing(c.queue[0])), t)
    case Wrote(ok) => (DoWrote(c, ok), t)
    case WriterQuits => (DoWriterQuits(c), t)
    case CloseProxy(name) => DoClose(c, t, name)
    case StartWork(l) => (c.(started := c.started + {l}), t)
  }

  predicate Enabled(s: State, a: Step) {
    match a
    case Login(_, id) => id !in s.ctl
    case Replace(_) => true
    case TearDown(id) => id in s.ctl
    case Stop => true
    case Local(id, act) => id in s.ctl && CanAct(s.stopped, s.ctl[id], act)
  }

  /** A login takes effect when its response has gone out; replacing the control
      that holds the run id is an earlier step of the same task, so other logins
      can come between the two. */
  function Do(s: State, a: Step): State
    requires Enabled(s, a)
  {
    match a
    case Login(runId, id) =>
      s.(ctl := s.ctl[id := NewControl(runId)], registry := s.registry[runId := id], online := s.online + 1)
    case Replace(runId) =>
      if runId in s.registry && s.registry[runId] in s.ctl then DoTearDown(s, s.registry[runId]) else s
    case TearDown(id) => DoTearDown(s, id)
    case Stop => s.(stopped := true)
    case Local(id, act) =>
      var (c, t) := DoAct(s.stopped, s.ctl[id], s.tables, act);
      s.(ctl := s.ctl[id := c], tables := t)
  }

  ghost predicate Next(s: State, s': State) {
    exists a :: Enabled(s, a) && s' == Do(s, a)
  }

  ghost predicate IsRun(run: seq<State>) {
    && run != [] && run[0] == Empty()
    && forall i | 0 <= i < |run| - 1 :: Next(run[i], run[i + 1])
  }

  /** A run with its steps. */
  ghost predicate IsTrace(run: seq<State>, steps: seq<Step>) {
    && |run| == |steps| + 1 && run[0] == Empty()
    && forall i | 0 <= i < |steps| :: Enabled(run[i], steps[i]) && run[i + 1] == Do(run[i], steps[i])
  }

  lemma TraceIsRun(run: seq<State>, steps: seq<Step>)
    requires IsTrace(run, steps)
    ensures IsRun(run)
  {
    forall i | 0 <= i < |run| - 1
      ensures Next(run[i], run[i + 1])
    {
      assert Enabled(run[i], steps[i]);
    }
  }

  lemma TraceStep(run: seq<State>, steps: seq<Step>, i: nat, next: nat)
    requires IsTrace(run, steps) && i < |steps| && next == i + 1
    ensures Enabled(run[i], steps[i]) && run[next] == Do(run[i], steps[i])
  {
  }
}

/** The registry of controls and the online gauge. */
module FrpsRegistry {
  import opened PortTables
  import opened Frps

  /** Controls created and not yet torn down. */
  ghost function Up(s: State): set<nat> {
    set id | id in s.ctl && s.ctl[id].online
  }

  ghost predicate RegistryOk(s: State) {
    && (forall r | r in s.registry ::
          s.registry[r] in s.ctl && s.ctl[s.registry[r]].runId == r && s.ctl[s.registry[r]].online)
    && s.online == |Up(s)|
    && (forall id | id in s.ctl && !s.ctl[id].online :: s.ctl[id].cancelled)
  }

  /** Tearing a control down removes its own entry at most: a control that took
      over its run id stays registered. Doing it again changes nothing more. */
  lemma TearDownKeeps(s: State, id: nat)
    requires RegistryOk(s) && id in s.ctl
    ensures RegistryOk(DoTearDown(s, id))
    ensures forall r | r in s.registry && s.registry[r] != id ::
              r in DoTearDown(s, id).registry && DoTearDown(s, id).registry[r] == s.registry[r]
    ensures DoTearDown(DoTearDown(s, id), id).registry == DoTearDown(s, id).registry
    ensures DoTearDown(DoTearDown(s, id), id).online == DoTearDown(s, id).online
  {
    var s' := DoTearDown(s, id);
    assert Up(s') == Up(s) - {id};
  }

  lemma SameIdentityKeeps(s: State, id: nat, c: Control, t: Tables)
    requires RegistryOk(s) && id in s.ctl && SameIdentity(s.ctl[id], c)
    ensures RegistryOk(s.(ctl := s.ctl[id := c], tables := t))
  {
    assert Up(s.(ctl := s.ctl[id := c], tables := t)) == Up(s);
  }

  lemma StepKeeps(s: State, a: Step)
    requires RegistryOk(s) && Enabled(s, a)
    ensures RegistryOk(Do(s, a))
  {
    var s' := Do(s, a);
    match a
    case Login(runId, id) => assert Up(s') == Up(s) + {id};
    case Replace(runId) =>
      if runId in s.registry { TearDownKeeps(s, s.registry[runId]); }
    case TearDown(id) => TearDownKeeps(s, id);
    case Stop => assert Up(s') == Up(s);
    case Local(id, act) => SameIdentityKeeps(s, id, s'.ctl[id], s'.tables);
  }

  /** In every run: a registry entry is a control of that run id that has not been
      torn down, and the gauge counts the controls that are up. */
  lemma {:induction false} RegistryInEveryRun(run: seq<State>, i: nat)
    requires IsRun(run) && i < |run|
    ensures RegistryOk(run[i])
  {
    if i == 0 {
      assert Up(Empty()) == {};
    } else {
      RegistryInEveryRun(run, i - 1);
      assert Next(run[i - 1], run[i - 1 + 1]);
      var a :| Enabled(run[i - 1], a) && run[i] == Do(run[i - 1], a);
      StepKeeps(run[i - 1], a);
    }
  }
}
