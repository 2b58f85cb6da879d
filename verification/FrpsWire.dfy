/** The order of the messages on the wire of a control. */
module FrpsWire {
  import opened Bytes
  import opened PortTables
  import opened Frps

  /** The message that an act hands to the writer's queue. */
  function Queues(c: Control, act: Act): seq<Item> {
    match act
    case Enqueue =>
      if c.reg.Some? && c.reg.value.stage.Sending? then [Response(c.reg.value.token, c.reg.value.stage.ok)] else []
    case QueueOther => [Plain]
    case _ => []
  }

  /** The message that an act puts on the wire. */
  function Writes(c: Control, act: Act): seq<Item> {
    if act == Wrote(true) && c.writer.Writing? then [c.writer.item] else []
  }

  function StepQueues(s: State, a: Step, id: nat): seq<Item> {
    if a.Local? && a.id == id && id in s.ctl then Queues(s.ctl[id], a.act) else []
  }

  function StepWrites(s: State, a: Step, id: nat): seq<Item> {
    if a.Local? && a.id == id && id in s.ctl then Writes(s.ctl[id], a.act) else []
  }

  /** All messages queued for control `id`, and all written, in the first `i` steps. */
  function Queued(run: seq<State>, steps: seq<Step>, id: nat, i: nat): seq<Item>
    requires i <= |steps| <= |run|
  {
    if i == 0 then [] else Queued(run, steps, id, i - 1) + StepQueues(run[i - 1], steps[i - 1], id)
  }

  function Written(run: seq<State>, steps: seq<Step>, id: nat, i: nat): seq<Item>
    requires i <= |steps| <= |run|
  {
    if i == 0 then [] else Written(run, steps, id, i - 1) + StepWrites(run[i - 1], steps[i - 1], id)
  }

  /** Messages enter the pipeline at its end and leave it at its front. */
  ghost predicate MovesInOrder(c: Control, queued: seq<Item>, written: seq<Item>, c': Control) {
    && (c.writer.Stopped? ==> c'.writer.Stopped?)
    && (c'.writer.Stopped? ==> queued == [] && written == [])
    && (!c'.writer.Stopped? ==> Pipeline(c) + queued == written + Pipeline(c'))
    && (|c.queue| <= QUEUE_LEN ==> |c'.queue| <= QUEUE_LEN)
  }

  lemma SameWriter(c: Control, c': Control)
    requires c'.queue == c.queue && c'.writer == c.writer
    ensures MovesInOrder(c, [], [], c')
  {
    assert Pipeline(c) == Pipeline(c');
  }

  lemma QueueActs(stopped: bool, c: Control, t: Tables, act: Act)
    requires CanAct(stopped, c, act) && (act.Enqueue? || act.QueueOther? || act.Take?)
    ensures MovesInOrder(c, Queues(c, act), Writes(c, act), DoAct(stopped, c, t, act).0)
  {
    var c' := DoAct(stopped, c, t, act).0;
    assert Pipeline(c) + Queues(c, act) == Pipeline(c');
  }

  lemma WriteActs(stopped: bool, c: Control, t: Tables, act: Act)
    requires CanAct(stopped, c, act) && (act.Wrote? || act.WriterQuits?)
    ensures MovesInOrder(c, Queues(c, act), Writes(c, act), DoAct(stopped, c, t, act).0)
  {
    var c' := DoAct(stopped, c, t, act).0;
    if act == Wrote(true) {
      assert Pipeline(c) == [c.writer.item] + c.queue && Pipeline(c') == c.queue;
    }
  }

  lemma ActsInOrder(stopped: bool, c: Control, t: Tables, act: Act)
    requires CanAct(stopped, c, act)
    ensures MovesInOrder(c, Queues(c, act), Writes(c, act), DoAct(stopped, c, t, act).0)
  {
    match act
    case Enqueue => QueueActs(stopped, c, t, act);
    case QueueOther => QueueActs(stopped, c, t, act);
    case Take => QueueActs(stopped, c, t, act);
    case Wrote(_) => WriteActs(stopped, c, t, act);
    case WriterQuits => WriteActs(stopped, c, t, act);
    case _ => SameWriter(c, DoAct(stopped, c, t, act).0);
  }

  lemma StepsInOrder(s: State, a: Step, id: nat)
    requires Enabled(s, a) && id in s.ctl
    ensures id in Do(s, a).ctl
    ensures MovesInOrder(s.ctl[id], StepQueues(s, a, id), StepWrites(s, a, id), Do(s, a).ctl[id])
  {
    if a.Local? && a.id == id {
      ActsInOrder(s.stopped, s.ctl[id], s.tables, a.act);
    } else {
      SameWriter(s.ctl[id], Do(s, a).ctl[id]);
    }
  }

  lemma NewInOrder(s: State, a: Step, id: nat)
    requires Enabled(s, a) && id !in s.ctl
    ensures StepQueues(s, a, id) == [] && StepWrites(s, a, id) == []
    ensures id in Do(s, a).ctl ==> Do(s, a).ctl[id].writer.Idle? && Do(s, a).ctl[id].queue == []
  {
  }

  /** What was queued is what was written, followed by what is in the pipeline. */
  ghost predicate InOrder(queued: seq<Item>, written: seq<Item>, s: State, id: nat) {
    if id in s.ctl then
      var c := s.ctl[id];
      && written <= queued && |c.queue| <= QUEUE_LEN
      && (!c.writer.Stopped? ==> queued == written + Pipeline(c))
    else queued == [] && written == []
  }

  lemma OrderKept(q: seq<Item>, w: seq<Item>, c: Control, dq: seq<Item>, dw: seq<Item>, c': Control)
    requires w <= q && (!c.writer.Stopped? ==> q == w + Pipeline(c)) && MovesInOrder(c, dq, dw, c')
    ensures w + dw <= q + dq && (!c'.writer.Stopped? ==> q + dq == (w + dw) + Pipeline(c'))
  {
    if c'.writer.Stopped? {
      assert w + dw == w && q + dq == q;
    } else {
      assert q + dq == w + (Pipeline(c) + dq) == w + (dw + Pipeline(c')) == (w + dw) + Pipeline(c');
    }
  }

  /** In every run the messages of a control reach the wire in the order in which they
      were queued, none left out; the queue keeps within its bound; and nothing is
      written once the writer has stopped. */
  lemma {:induction false} WireInOrder(run: seq<State>, steps: seq<Step>, id: nat, i: nat)
    requires IsTrace(run, steps) && i <= |steps|
    ensures InOrder(Queued(run, steps, id, i), Written(run, steps, id, i), run[i], id)
  {
    if i > 0 {
      var s, a, q, w := run[i - 1], steps[i - 1], Queued(run, steps, id, i - 1), Written(run, steps, id, i - 1);
      WireInOrder(run, steps, id, i - 1);
      TraceStep(run, steps, i - 1, i);
      OneStep(q, w, s, a, id);
    }
  }

  lemma OneStep(q: seq<Item>, w: seq<Item>, s: State, a: Step, id: nat)
    requires InOrder(q, w, s, id) && Enabled(s, a)
    ensures InOrder(q + StepQueues(s, a, id), w + StepWrites(s, a, id), Do(s, a), id)
  {
    if id in s.ctl {
      StepsInOrder(s, a, id);
      OrderKept(q, w, s.ctl[id], StepQueues(s, a, id), StepWrites(s, a, id), Do(s, a).ctl[id]);
    } else {
      NewInOrder(s, a, id);
    }
  }
}
