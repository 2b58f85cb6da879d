/** The writer task, the "written" latch and the order of responses and work
    connections. */
module FrpsWriter {
  import opened Bytes
  import opened PortTables
  import opened Frps

  /** The items that carry a latch. */
  predicate Latched(items: seq<Item>, i: int) {
    0 <= i < |items| && items[i].Response?
  }

  /** A latch in the pipeline belongs to the registration that waits for it, and a
      registration waits only while its latch is in the pipeline. */
  ghost predicate LatchesOk(c: Control) {
    var q := Pipeline(c);
    && (forall i | Latched(q, i) ::
          && c.reg.Some? && c.reg.value.token == q[i].token
          && c.reg.value.stage == Flushing(q[i].ok, Waiting))
    && (forall i, j | Latched(q, i) && Latched(q, j) :: i == j)
    && (c.reg.Some? && c.reg.value.stage.Flushing? && c.reg.value.stage.latch.Waiting? ==>
          Carries(q, c.reg.value.token))
  }

  /** A settled latch tells the truth about the wire. */
  ghost predicate OutcomeOk(stopped: bool, c: Control) {
    && (c.writer.Stopped? ==> c.queue == [] && (c.writeFailed || Cancelled(stopped, c)))
    && (c.writeFailed ==> c.writer.Stopped?)
    && (c.reg.Some? && c.reg.value.stage.Flushing? ==>
          var st := c.reg.value.stage;
          && (st.latch.Fired? && st.ok && !c.writeFailed ==> c.reg.value.token in c.written)
          && (st.latch.Dropped? ==> c.writeFailed || Cancelled(stopped, c)))
  }

  ghost predicate SpawnedOk(c: Control) {
    && (forall l | l in c.spawned :: c.writeFailed || l.token in c.written)
    && c.started <= c.spawned
  }

  ghost predicate WriterOk(stopped: bool, c: Control) {
    LatchesOk(c) && OutcomeOk(stopped, c) && SpawnedOk(c)
  }

  ghost predicate AllWritersOk(s: State) {
    forall id | id in s.ctl :: WriterOk(s.stopped, s.ctl[id])
  }

  /** Growing the queue by a message without a latch. */
  lemma QueueOtherKeeps(stopped: bool, c: Control)
    requires WriterOk(stopped, c) && !c.writer.Stopped?
    ensures WriterOk(stopped, c.(queue := c.queue + [Plain]))
  {
    var c' := c.(queue := c.queue + [Plain]);
    var q := Pipeline(c);
    assert Pipeline(c') == q + [Plain];
    assert forall i | Latched(q + [Plain], i) :: Latched(q, i) && (q + [Plain])[i] == q[i];
    if c.reg.Some? && Carries(q, c.reg.value.token) {
      var i :| 0 <= i < |q| && q[i].Response? && q[i].token == c.reg.value.token;
      assert (q + [Plain])[i] == q[i];
    }
  }

  lemma EnqueueKeeps(stopped: bool, c: Control, t: Tables)
    requires WriterOk(stopped, c) && CanAct(stopped, c, Enqueue)
    ensures WriterOk(stopped, DoAct(stopped, c, t, Enqueue).0)
  {
    var c' := DoAct(stopped, c, t, Enqueue).0;
    var r := c.reg.value;
    var q := Pipeline(c);
    var item := Response(r.token, r.stage.ok);
    assert Pipeline(c') == q + [item];
    assert forall i :: !Latched(q, i);
    assert forall i | Latched(q + [item], i) :: i == |q| by {
      assert forall i | Latched(q + [item], i) && i < |q| :: Latched(q, i);
    }
    assert (q + [item])[|q|] == item;
  }

  lemma TakeKeeps(stopped: bool, c: Control, t: Tables)
    requires WriterOk(stopped, c) && CanAct(stopped, c, Take)
    ensures WriterOk(stopped, DoAct(stopped, c, t, Take).0)
  {
    assert Pipeline(DoAct(stopped, c, t, Take).0) == Pipeline(c);
  }

  /** Looking at the queue behind the item in the writer's hands. */
  lemma Behind(item: Item, queue: seq<Item>)
    ensures forall i :: Latched(queue, i) ==> Latched([item] + queue, i + 1)
    ensures forall i :: Latched(queue, i) ==> ([item] + queue)[i + 1] == queue[i]
    ensures item.Response? ==> Latched([item] + queue, 0)
    ensures forall t: nat :: Carries([item] + queue, t) ==> Carries([item], t) || Carries(queue, t)
    ensures item.Response? ==> Carries([item], item.token)
    ensures forall t: nat :: !item.Response? ==> !Carries([item], t)
  {
    assert item.Response? ==> [item][0].Response?;
    var q := [item] + queue;
    forall t: nat | Carries(q, t) && !Carries([item], t)
      ensures Carries(queue, t)
    {
      var i :| 0 <= i < |q| && q[i].Response? && q[i].token == t;
      if i > 0 {
        assert queue[i - 1] == q[i];
      }
    }
  }

  /** The response of the waiting registration is written, or its write fails. */
  lemma WroteResponse(stopped: bool, c: Control, ok: bool)
    requires WriterOk(stopped, c) && c.writer.Writing? && c.writer.item.Response?
    ensures WriterOk(stopped, DoWrote(c, ok))
  {
    var item := c.writer.item;
    Behind(item, c.queue);
    assert Pipeline(c) == [item] + c.queue && Pipeline(c)[0] == item;
    assert Latched(Pipeline(c), 0);
    assert forall i | Latched(c.queue, i) :: Latched(Pipeline(c), i + 1);
    assert forall i :: !Latched(c.queue, i);
    assert !Carries(c.queue, item.token) by {
      assert forall i | 0 <= i < |c.queue| :: !Latched(c.queue, i);
    }
    assert Pipeline(DoWrote(c, ok)) == if ok then c.queue else [];
  }

  lemma WroteOther(stopped: bool, c: Control, ok: bool)
    requires WriterOk(stopped, c) && c.writer.Writing? && !c.writer.item.Response?
    ensures WriterOk(stopped, DoWrote(c, ok))
  {
    var item := c.writer.item;
    var c' := DoWrote(c, ok);
    Behind(item, c.queue);
    var q := Pipeline(c);
    assert q == [item] + c.queue;
    if ok {
      assert Pipeline(c') == c.queue;
      assert forall i | Latched(c.queue, i) :: Latched(q, i + 1) && q[i + 1] == c.queue[i];
      assert c'.reg == c.reg;
    } else {
      assert Pipeline(c') == [];
    }
  }

  lemma WroteKeeps(stopped: bool, c: Control, ok: bool)
    requires WriterOk(stopped, c) && c.writer.Writing?
    ensures WriterOk(stopped, DoWrote(c, ok))
  {
    if c.writer.item.Response? {
      WroteResponse(stopped, c, ok);
    } else {
      WroteOther(stopped, c, ok);
    }
  }

  lemma QuitKeeps(stopped: bool, c: Control)
    requires WriterOk(stopped, c) && Cancelled(stopped, c)
    ensures WriterOk(stopped, DoWriterQuits(c))
  {
    assert Pipeline(DoWriterQuits(c)) == [];
  }

  /** A registration that is not waiting for a latch has none in the pipeline, so
      what it does leaves the pipeline in order. */
  lemma RegMovesKeep(stopped: bool, c: Control, c': Control)
    requires WriterOk(stopped, c)
    requires c.reg.None? || !c.reg.value.stage.Flushing? || !c.reg.value.stage.latch.Waiting?
    requires c'.queue == c.queue && c'.writer == c.writer && c'.written == c.written
    requires c'.writeFailed == c.writeFailed && c'.started == c.started && SameIdentity(c, c')
    requires c'.reg.None? || !c'.reg.value.stage.Flushing?
    requires c.spawned <= c'.spawned
    requires forall l | l in c'.spawned && l !in c.spawned :: c.writeFailed || l.token in c.written
    ensures WriterOk(stopped, c')
  {
    assert Pipeline(c') == Pipeline(c);
    assert forall i :: !Latched(Pipeline(c), i);
  }

  /** The success response is on the wire, or a write failed, or nothing is
      spawned. */
  lemma FinishKeeps(stopped: bool, c: Control, t: Tables, act: Act)
    requires WriterOk(stopped, c) && CanAct(stopped, c, act) && (act.Abandon? || act.Flushed?)
    ensures WriterOk(stopped, DoAct(stopped, c, t, act).0)
  {
    RegMovesKeep(stopped, c, Finish(stopped, c, t, c.reg.value).0);
  }

  lemma NewProxyKeeps(stopped: bool, c: Control, t: Tables, act: Act)
    requires WriterOk(stopped, c) && CanAct(stopped, c, act) && act.NewProxy?
    ensures WriterOk(stopped, DoAct(stopped, c, t, act).0)
  {
    RegMovesKeep(stopped, c, DoNewProxy(stopped, c, act.name, act.kind, act.port, act.plain));
  }

  lemma ConfiguredKeeps(stopped: bool, c: Control, t: Tables, act: Act)
    requires WriterOk(stopped, c) && CanAct(stopped, c, act) && act.Configured?
    ensures WriterOk(stopped, DoAct(stopped, c, t, act).0)
  {
    RegMovesKeep(stopped, c, DoConfigured(c, t, c.reg.value, act.allowed, act.addrOk).0);
  }

  lemma BoundKeeps(stopped: bool, c: Control, t: Tables, act: Act)
    requires WriterOk(stopped, c) && CanAct(stopped, c, act) && act.Bound?
    ensures WriterOk(stopped, DoAct(stopped, c, t, act).0)
  {
    RegMovesKeep(stopped, c, DoBound(c, t, c.reg.value, act.ok).0);
  }

  lemma CloseKeeps(stopped: bool, c: Control, t: Tables, name: string)
    requires WriterOk(stopped, c) && CanAct(stopped, c, CloseProxy(name))
    ensures WriterOk(stopped, DoAct(stopped, c, t, CloseProxy(name)).0)
  {
    RegMovesKeep(stopped, c, DoClose(c, t, name).0);
  }

  lemma StartWorkKeeps(stopped: bool, c: Control, l: Listener)
    requires WriterOk(stopped, c) && l in c.spawned
    ensures WriterOk(stopped, c.(started := c.started + {l}))
  {
    assert Pipeline(c.(started := c.started + {l})) == Pipeline(c);
  }

  lemma ActKeeps(stopped: bool, c: Control, t: Tables, act: Act)
    requires WriterOk(stopped, c) && CanAct(stopped, c, act)
    ensures WriterOk(stopped, DoAct(stopped, c, t, act).0)
  {
    match act
    case QueueOther => QueueOtherKeeps(stopped, c);
    case Enqueue => EnqueueKeeps(stopped, c, t);
    case Take => TakeKeeps(stopped, c, t);
    case Wrote(ok) => WroteKeeps(stopped, c, ok);
    case WriterQuits => QuitKeeps(stopped, c);
    case Abandon => FinishKeeps(stopped, c, t, act);
    case Flushed => FinishKeeps(stopped, c, t, act);
    case StartWork(l) => StartWorkKeeps(stopped, c, l);
    case NewProxy(_, _, _, _) => NewProxyKeeps(stopped, c, t, act);
    case Configured(_, _) => ConfiguredKeeps(stopped, c, t, act);
    case Bound(_) => BoundKeeps(stopped, c, t, act);
    case CloseProxy(name) => CloseKeeps(stopped, c, t, name);
  }

  lemma TearDownKeeps(stopped: bool, c: Control)
    requires WriterOk(stopped, c)
    ensures WriterOk(stopped, Downed(c)) && WriterOk(true, c)
  {
    assert Pipeline(Downed(c)) == Pipeline(c);
  }

  lemma StepKeeps(s: State, a: Step)
    requires AllWritersOk(s) && Enabled(s, a)
    ensures AllWritersOk(Do(s, a))
  {
    match a
    case Login(runId, id) => assert Pipeline(NewControl(runId)) == [];
    case Replace(runId) =>
      if runId in s.registry && s.registry[runId] in s.ctl { TearDownKeeps(s.stopped, s.ctl[s.registry[runId]]); }
    case TearDown(id) => TearDownKeeps(s.stopped, s.ctl[id]);
    case Stop =>
      forall id | id in s.ctl ensures WriterOk(true, s.ctl[id]) { TearDownKeeps(s.stopped, s.ctl[id]); }
    case Local(id, act) => ActKeeps(s.stopped, s.ctl[id], s.tables, act);
  }

  /** In every run: while no write of a control has failed, a work connection is
      started only for a registration whose success response is on the wire; and
      a registration that waits for its latch has it in a running writer's
      pipeline, so the wait ends with the writer at the latest. */
  lemma {:induction false} WritersInEveryRun(run: seq<State>, i: nat)
    requires IsRun(run) && i < |run|
    ensures AllWritersOk(run[i])
  {
    if i > 0 {
      WritersInEveryRun(run, i - 1);
      assert Next(run[i - 1], run[i - 1 + 1]);
      var a :| Enabled(run[i - 1], a) && run[i] == Do(run[i - 1], a);
      StepKeeps(run[i - 1], a);
    }
  }

  lemma ResponseBeforeWork(run: seq<State>, i: nat, id: nat, l: Listener)
    requires IsRun(run) && i < |run| && id in run[i].ctl
    requires l in run[i].ctl[id].started && !run[i].ctl[id].writeFailed
    ensures l.token in run[i].ctl[id].written
  {
    WritersInEveryRun(run, i);
  }

  lemma WaitEndsWithWriter(run: seq<State>, i: nat, id: nat)
    requires IsRun(run) && i < |run| && id in run[i].ctl && run[i].ctl[id].writer.Stopped?
    ensures var c := run[i].ctl[id];
            c.reg.Some? && c.reg.value.stage.Flushing? ==> CanAct(run[i].stopped, c, Flushed)
  {
    WritersInEveryRun(run, i);
    assert Pipeline(run[i].ctl[id]) == [];
  }

  lemma ActNoSpawn(stopped: bool, c: Control, t: Tables, act: Act)
    requires CanAct(stopped, c, act) && Cancelled(stopped, c)
    ensures DoAct(stopped, c, t, act).0.spawned == c.spawned
  {
    match act
    case Abandon =>
    case Flushed =>
    case _ =>
  }

  /** Cancellation is for good, and nothing is spawned after it. */
  lemma NoSpawnWhenCancelled(s: State, a: Step, id: nat)
    requires Enabled(s, a) && id in s.ctl && Cancelled(s.stopped, s.ctl[id])
    ensures var s' := Do(s, a);
            id in s'.ctl && Cancelled(s'.stopped, s'.ctl[id]) && s'.ctl[id].spawned == s.ctl[id].spawned
  {
    if a.Local? && a.id == id {
      ActNoSpawn(s.stopped, s.ctl[id], s.tables, a.act);
    }
  }

  lemma NoSpawnNext(s: State, s': State, id: nat)
    requires Next(s, s') && id in s.ctl && Cancelled(s.stopped, s.ctl[id])
    ensures id in s'.ctl && Cancelled(s'.stopped, s'.ctl[id]) && s'.ctl[id].spawned == s.ctl[id].spawned
  {
    var a :| Enabled(s, a) && s' == Do(s, a);
    NoSpawnWhenCancelled(s, a, id);
  }

  /** If a control is cancelled, whatever it was waiting for, no proxy task is
      spawned for it in the rest of the run. */
  lemma {:induction false} NoSpawnAfterCancel(run: seq<State>, i: nat, j: nat, id: nat)
    requires IsRun(run) && i <= j < |run|
    requires id in run[i].ctl && Cancelled(run[i].stopped, run[i].ctl[id])
    ensures id in run[j].ctl && Cancelled(run[j].stopped, run[j].ctl[id])
    ensures run[j].ctl[id].spawned == run[i].ctl[id].spawned
  {
    if i < j {
      NoSpawnAfterCancel(run, i, j - 1, id);
      assert Next(run[j - 1], run[j - 1 + 1]);
      NoSpawnNext(run[j - 1], run[j], id);
    }
  }
}
