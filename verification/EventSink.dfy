/**
 * The batched event sink as a step system: any number of emitter tasks and the
 * one flush task, interleaved at every lock operation and every channel send.
 *
 * A critical emit and a flush own the `emit_order` lock from before they touch
 * the queues until their last send; the `inner` lock guards the queues alone and
 * is released before anything is sent. `submitted` records the order in which
 * the events went through the `inner` lock, `emitted` the batches on the channel.
 */
module EventSink {
  import opened Wrappers
  import opened Sequences
  import opened EventQueues
  import Runs

  datatype Task = Flusher | Emitter(id: nat)

  datatype Pc =
    | Idle
    | Entered(event: Event)    // called, no lock yet
    | OrderHeld(event: Event)  // critical event, emit_order taken
    | BothHeld(event: Event)   // critical event, both locks taken
    | InnerHeld(event: Event)  // ordinary event, inner taken
    | FlushOrderHeld
    | FlushBothHeld
    | Sending(source: Option<nat>, batches: seq<seq<Event>>)
      // emit_order held, inner released; `source` is where the call's own event stands in `submitted`

  datatype World = World(
    pcs: map<Task, Pc>,
    emitOrder: Option<Task>,
    inner: Option<Task>,
    queues: Queues,
    submitted: seq<Event>,
    emitted: seq<seq<Event>>)

  function PcOf(w: World, t: Task): Pc {
    if t in w.pcs then w.pcs[t] else Idle
  }

  const START := World(map[], None, None, EMPTY_QUEUES, [], [])

  // ------------------------------------------------------------------ the steps

  /** A task calls `emit_app_server_event`. */
  function Called(w: World, t: Task, e: Event): Option<World> {
    if t.Emitter? && PcOf(w, t).Idle? then Some(w.(pcs := w.pcs[t := Entered(e)])) else None
  }

  /** The flush timer fires and the flush task gets the emit-order lock. */
  function Ticked(w: World): Option<World> {
    if PcOf(w, Flusher).Idle? && w.emitOrder.None? then
      Some(w.(pcs := w.pcs[Flusher := FlushOrderHeld], emitOrder := Some(Flusher)))
    else None
  }

  /** The next step of a task that is under way; None while it waits for a lock. */
  function Resumed(w: World, t: Task): Option<World>
    requires forall x :: x in w.queues.order <==> x in w.queues.byWorkspace
  {
    match PcOf(w, t)
    case Idle => None
    case Entered(e) =>
      if IsCritical(e) then
        if w.emitOrder.None? then Some(w.(pcs := w.pcs[t := OrderHeld(e)], emitOrder := Some(t))) else None
      else
        if w.inner.None? then Some(w.(pcs := w.pcs[t := InnerHeld(e)], inner := Some(t))) else None
    case OrderHeld(e) =>
      if w.inner.None? then Some(w.(pcs := w.pcs[t := BothHeld(e)], inner := Some(t))) else None
    case BothHeld(e) =>
      var batch := if IsTerminal(e) then BarrierBatch(w.queues, e) else [e];
      Some(w.(pcs := w.pcs[t := Sending(Some(|w.submitted|), [batch])],
              inner := None,
              queues := if IsTerminal(e) then Barred(w.queues, e) else Bypassed(w.queues, e),
              submitted := w.submitted + [e]))
    case InnerHeld(e) =>
      Some(w.(pcs := w.pcs[t := Idle],
              inner := None,
              queues := Submitted(w.queues, e),
              submitted := w.submitted + [e]))
    case FlushOrderHeld =>
      if w.inner.None? then Some(w.(pcs := w.pcs[t := FlushBothHeld], inner := Some(t))) else None
    case FlushBothHeld =>
      Some(w.(pcs := w.pcs[t := Sending(None, Batches(w.queues.order, w.queues.byWorkspace))],
              inner := None,
              queues := Drained(w.queues)))
    case Sending(source, batches) =>
      if batches == [] then Some(w.(pcs := w.pcs[t := Idle], emitOrder := None))
      else Some(w.(pcs := w.pcs[t := Sending(source, batches[1..])], emitted := w.emitted + [batches[0]]))
  }

  ghost predicate Next(w: World, w': World) {
    && (forall x :: x in w.queues.order <==> x in w.queues.byWorkspace)
    && (|| (exists t, e :: Called(w, t, e) == Some(w'))
        || Ticked(w) == Some(w')
        || (exists t :: Resumed(w, t) == Some(w')))
  }

  ghost predicate IsRun(run: seq<World>) {
    && run != []
    && run[0] == START
    && forall i, j :: 0 <= i && j == i + 1 < |run| ==> Next(run[i], run[j])
  }

  // ---------------------------------------------------------------- projections

  /** The events of one workspace that are urgent, or those that are not, in their order. */
  function Project(events: seq<Event>, workspace: WorkspaceId, urgent: bool): seq<Event> {
    if events == [] then []
    else
      var last := events[|events| - 1];
      Project(events[..|events| - 1], workspace, urgent)
      + if last.workspaceId == workspace && IsUrgent(last) == urgent then [last] else []
  }

  lemma {:induction false} ProjectConcat(a: seq<Event>, b: seq<Event>, workspace: WorkspaceId, urgent: bool)
    ensures Project(a + b, workspace, urgent) == Project(a, workspace, urgent) + Project(b, workspace, urgent)
  {
    if b == [] {
      assert a + b == a;
    } else {
      assert (a + b)[..|a + b| - 1] == a + b[..|b| - 1];
      ProjectConcat(a, b[..|b| - 1], workspace, urgent);
    }
  }

  lemma ProjectAppend(events: seq<Event>, e: Event, workspace: WorkspaceId, urgent: bool)
    ensures Project(events + [e], workspace, urgent)
         == Project(events, workspace, urgent) + if e.workspaceId == workspace && IsUrgent(e) == urgent then [e] else []
  {
    assert (events + [e])[..|events + [e]| - 1] == events;
  }

  ghost predicate Ordinary(events: seq<Event>) {
    forall i :: 0 <= i < |events| ==> !IsCritical(events[i])
  }

  lemma OrdinaryFront(queue: seq<Event>, front: seq<Event>, last: Event, owner: WorkspaceId)
    requires AllFrom(queue, owner) && Ordinary(queue) && queue != []
    requires front == queue[..|queue| - 1] && last == queue[|queue| - 1]
    ensures queue == front + [last] && AllFrom(front, owner) && Ordinary(front)
    ensures last.workspaceId == owner && !IsUrgent(last)
  {
  }

  lemma {:induction false} ProjectQueue(queue: seq<Event>, owner: WorkspaceId, workspace: WorkspaceId)
    requires AllFrom(queue, owner) && Ordinary(queue)
    ensures Project(queue, workspace, true) == []
    ensures Project(queue, workspace, false) == if workspace == owner then queue else []
  {
    if queue != [] {
      var front, last := queue[..|queue| - 1], queue[|queue| - 1];
      OrdinaryFront(queue, front, last, owner);
      ProjectQueue(front, owner, workspace);
      ProjectAppend(front, last, workspace, true);
      ProjectAppend(front, last, workspace, false);
    }
  }

  lemma ProjectWithQueue(sent: seq<Event>, queue: seq<Event>, owner: WorkspaceId, ws: WorkspaceId)
    requires AllFrom(queue, owner) && Ordinary(queue)
    ensures Project(sent + queue, ws, true) == Project(sent, ws, true)
    ensures Project(sent + queue, ws, false) == Project(sent, ws, false) + if ws == owner then queue else []
  {
    ProjectQueue(queue, owner, ws);
    ProjectConcat(sent, queue, ws, true);
    ProjectConcat(sent, queue, ws, false);
  }

  lemma FlattenBatches(front: seq<WorkspaceId>, last: WorkspaceId, order: seq<WorkspaceId>,
                       queues: map<WorkspaceId, seq<Event>>)
    requires order == front + [last] && forall w :: w in order ==> w in queues
    ensures Flatten(Batches(order, queues)) == Flatten(Batches(front, queues)) + queues[last]
  {
    assert order[..|order| - 1] == front;
    FlattenConcat(Batches(front, queues), [queues[last]]);
    FlattenSingle(queues[last]);
  }

  lemma LastApart<T>(s: seq<T>, front: seq<T>, last: T)
    requires s == front + [last] && Distinct(s)
    ensures Distinct(front) && last !in front
    ensures forall x :: x in s <==> x in front || x == last
  {
    assert forall i :: 0 <= i < |front| ==> front[i] == s[i];
    assert s[|front|] == last;
  }

  /** Flushing moves each queue, whole and in order, into the batches. */
  lemma {:induction false} ProjectBatches(order: seq<WorkspaceId>, queues: map<WorkspaceId, seq<Event>>,
                                          workspace: WorkspaceId)
    requires Distinct(order) && forall w :: w in order ==> w in queues
    requires forall w | w in queues :: AllFrom(queues[w], w) && Ordinary(queues[w])
    ensures Project(Flatten(Batches(order, queues)), workspace, true) == []
    ensures Project(Flatten(Batches(order, queues)), workspace, false)
         == if workspace in order then queues[workspace] else []
  {
    if order != [] {
      var front, last := order[..|order| - 1], order[|order| - 1];
      LastApart(order, front, last);
      ProjectBatches(front, queues, workspace);
      FlattenBatches(front, last, order, queues);
      ProjectWithQueue(Flatten(Batches(front, queues)), queues[last], last, workspace);
    }
  }

  lemma {:induction false} OrdinaryBatches(order: seq<WorkspaceId>, queues: map<WorkspaceId, seq<Event>>)
    requires forall w :: w in order ==> w in queues && Ordinary(queues[w])
    ensures Ordinary(Flatten(Batches(order, queues)))
  {
    if order != [] {
      var front, last := order[..|order| - 1], order[|order| - 1];
      OrdinaryBatches(front, queues);
      FlattenConcat(Batches(front, queues), [queues[last]]);
      FlattenSingle(queues[last]);
    }
  }

  // ------------------------------------------------------------------ invariant

  predicate HoldsOrder(pc: Pc) {
    pc.OrderHeld? || pc.BothHeld? || pc.FlushOrderHeld? || pc.FlushBothHeld? || pc.Sending?
  }

  predicate HoldsInner(pc: Pc) {
    pc.BothHeld? || pc.InnerHeld? || pc.FlushBothHeld?
  }

  /** What has been drained but not yet sent: only the owner of the emit-order lock can have any. */
  function InFlight(w: World): seq<seq<Event>> {
    if w.emitOrder.Some? && PcOf(w, w.emitOrder.value).Sending? then PcOf(w, w.emitOrder.value).batches else []
  }

  ghost predicate Locks(w: World) {
    && (forall t :: HoldsOrder(PcOf(w, t)) <==> w.emitOrder == Some(t))
    && (forall t :: HoldsInner(PcOf(w, t)) <==> w.inner == Some(t))
    && (forall t :: (PcOf(w, t).OrderHeld? || PcOf(w, t).BothHeld?) ==> IsCritical(PcOf(w, t).event))
    && (forall t :: PcOf(w, t).InnerHeld? ==> !IsCritical(PcOf(w, t).event))
  }

  /** Everything that has left the queues, in the order in which it reaches the channel. */
  function Outgoing(w: World): seq<Event> {
    Flatten(w.emitted + InFlight(w))
  }

  ghost predicate QueuesSound(q: Queues) {
    && q.WellFormed()
    && q.queuedBytes <= q.Held()
    && (forall w | w in q.byWorkspace :: Ordinary(q.byWorkspace[w]))
  }

  /** Every event is in exactly one place, and each workspace's order is the order of submission. */
  ghost predicate Conserved(sent: seq<Event>, queue: seq<Event>, submitted: seq<Event>, workspace: WorkspaceId) {
    && Project(sent, workspace, false) + queue == Project(submitted, workspace, false)
    && Project(sent, workspace, true) == Project(submitted, workspace, true)
  }

  /** `sent` holds exactly the events of the i-th submission's workspace that were submitted before it. */
  ghost predicate Caught(sent: seq<Event>, submitted: seq<Event>, i: nat) {
    && i < |submitted|
    && forall urgent :: Project(sent, submitted[i].workspaceId, urgent)
                        == Project(submitted[..i], submitted[i].workspaceId, urgent)
  }

  /** The p-th sent event, if terminal, came after exactly what was submitted before it. */
  ghost predicate InPlace(sent: seq<Event>, submitted: seq<Event>, p: nat)
    requires p < |sent|
  {
    IsTerminal(sent[p]) ==>
      exists i :: 0 <= i < |submitted| && submitted[i] == sent[p] && Caught(sent[..p], submitted, i)
  }

  ghost predicate TerminalsInPlace(sent: seq<Event>, submitted: seq<Event>) {
    forall p :: 0 <= p < |sent| ==> InPlace(sent, submitted, p)
  }

  /** The k-th submission is out, and so is all it had to wait for. */
  ghost predicate Delivered(sent: seq<Event>, submitted: seq<Event>, k: nat) {
    && k < |submitted|
    && IsCritical(submitted[k])
    && forall urgent :: urgent || IsTerminal(submitted[k]) ==>
         Project(submitted[..k + 1], submitted[k].workspaceId, urgent)
         <= Project(sent, submitted[k].workspaceId, urgent)
  }

  ghost predicate SourcesDelivered(w: World) {
    forall t :: PcOf(w, t).Sending? && PcOf(w, t).source.Some? ==>
      Delivered(Outgoing(w), w.submitted, PcOf(w, t).source.value)
  }

  ghost predicate Counted(w: World) {
    w.queues.flushCount == SaturatingAdd(|w.emitted|, |InFlight(w)|, U64_MAX)
  }

  ghost predicate AllConserved(sent: seq<Event>, q: Queues, submitted: seq<Event>) {
    forall workspace :: Conserved(sent, q.Queue(workspace), submitted, workspace)
  }

  /** The account of all events, independent of which task is where. */
  ghost predicate Sound(sent: seq<Event>, q: Queues, submitted: seq<Event>) {
    && QueuesSound(q)
    && AllConserved(sent, q, submitted)
    && TerminalsInPlace(sent, submitted)
  }

  ghost predicate Inv(w: World) {
    && Locks(w)
    && Sound(Outgoing(w), w.queues, w.submitted)
    && SourcesDelivered(w)
    && Counted(w)
  }

  // -------------------------------------------- what the three critical sections do

  lemma {:induction false} TerminalsExtend(sent: seq<Event>, more: seq<Event>, submitted: seq<Event>, later: seq<Event>)
    requires TerminalsInPlace(sent, submitted)
    requires forall i :: 0 <= i < |more| ==> !IsTerminal(more[i])
    ensures TerminalsInPlace(sent + more, submitted + later)
  {
    forall p | 0 <= p < |sent + more|
      ensures InPlace(sent + more, submitted + later, p)
    {
      if p < |sent| && IsTerminal(sent[p]) {
        assert InPlace(sent, submitted, p);
        var i :| 0 <= i < |submitted| && submitted[i] == sent[p] && Caught(sent[..p], submitted, i);
        assert (sent + more)[..p] == sent[..p];
        assert (submitted + later)[..i] == submitted[..i];
        assert Caught((sent + more)[..p], submitted + later, i);
        assert (submitted + later)[i] == (sent + more)[p];
      }
    }
  }

  lemma DeliveredStays(sent: seq<Event>, submitted: seq<Event>, e: Event, k: nat)
    requires Delivered(sent, submitted, k)
    ensures Delivered(sent, submitted + [e], k)
  {
    assert (submitted + [e])[..k + 1] == submitted[..k + 1];
    assert (submitted + [e])[k] == submitted[k];
  }

  lemma SubmittedOrdinary(q: Queues, e: Event)
    requires (forall w | w in q.byWorkspace :: Ordinary(q.byWorkspace[w])) && !IsCritical(e)
    ensures forall w | w in Submitted(q, e).byWorkspace :: Ordinary(Submitted(q, e).byWorkspace[w])
  {
    forall w | w in Submitted(q, e).byWorkspace
      ensures Ordinary(Submitted(q, e).byWorkspace[w])
    {
      assert Ordinary(q.Queue(w));
    }
  }

  lemma SubmitAllConserved(sent: seq<Event>, q: Queues, submitted: seq<Event>, e: Event)
    requires AllConserved(sent, q, submitted) && !IsCritical(e)
    ensures AllConserved(sent, Submitted(q, e), submitted + [e])
  {
    forall ws
      ensures Conserved(sent, Submitted(q, e).Queue(ws), submitted + [e], ws)
    {
      assert Conserved(sent, q.Queue(ws), submitted, ws);
    }
  }

  lemma SubmitTerminals(sent: seq<Event>, submitted: seq<Event>, e: Event)
    requires TerminalsInPlace(sent, submitted)
    ensures TerminalsInPlace(sent, submitted + [e])
  {
    TerminalsExtend(sent, [], submitted, [e]);
    assert sent + [] == sent;
  }

  lemma SubmitQueuesSound(q: Queues, e: Event)
    requires QueuesSound(q) && !IsCritical(e)
    ensures QueuesSound(Submitted(q, e))
  {
    SubmitBytes(q, e);
    SubmittedOrdinary(q, e);
  }

  /** An ordinary event joins the end of its queue. */
  lemma SubmitSound(sent: seq<Event>, q: Queues, submitted: seq<Event>, e: Event)
    requires Sound(sent, q, submitted) && !IsCritical(e)
    ensures Sound(sent, Submitted(q, e), submitted + [e])
  {
    SubmitQueuesSound(q, e);
    SubmitAllConserved(sent, q, submitted, e);
    SubmitTerminals(sent, submitted, e);
  }

  /** A flush takes every queue into flight. */
  lemma FlushSound(sent: seq<Event>, q: Queues, submitted: seq<Event>, more: seq<Event>)
    requires Sound(sent, q, submitted) && more == Flatten(Batches(q.order, q.byWorkspace))
    ensures Sound(sent + more, Drained(q), submitted)
  {
    DrainBytes(q);
    OrdinaryBatches(q.order, q.byWorkspace);
    forall ws
      ensures Conserved(sent + more, Drained(q).Queue(ws), submitted, ws)
    {
      assert Conserved(sent, q.Queue(ws), submitted, ws);
      ProjectBatches(q.order, q.byWorkspace, ws);
      ProjectConcat(sent, more, ws, true);
      ProjectConcat(sent, more, ws, false);
    }
    assert submitted + [] == submitted;
    TerminalsExtend(sent, more, submitted, []);
  }

  lemma UrgentConserved(sent: seq<Event>, queue: seq<Event>, submitted: seq<Event>, e: Event, ws: WorkspaceId)
    requires Conserved(sent, queue, submitted, ws) && IsUrgent(e)
    ensures Conserved(sent + [e], queue, submitted + [e], ws)
  {
    ProjectAppend(submitted, e, ws, true);
    ProjectAppend(submitted, e, ws, false);
    ProjectAppend(sent, e, ws, true);
    ProjectAppend(sent, e, ws, false);
  }

  /** An urgent event goes out past the queues. */
  lemma UrgentSound(sent: seq<Event>, q: Queues, submitted: seq<Event>, e: Event)
    requires Sound(sent, q, submitted) && IsUrgent(e)
    ensures Sound(sent + [e], Bypassed(q, e), submitted + [e])
  {
    assert Bypassed(q, e).WellFormed();
    forall ws
      ensures Conserved(sent + [e], Bypassed(q, e).Queue(ws), submitted + [e], ws)
    {
      assert Conserved(sent, q.Queue(ws), submitted, ws);
      UrgentConserved(sent, q.Queue(ws), submitted, e, ws);
    }
    TerminalsExtend(sent, [e], submitted, [e]);
  }

  lemma ProjectBarrier(sent: seq<Event>, queue: seq<Event>, e: Event, ws: WorkspaceId)
    requires IsTerminal(e) && AllFrom(queue, e.workspaceId) && Ordinary(queue)
    ensures Project(sent + queue + [e], ws, true) == Project(sent, ws, true)
    ensures Project(sent + queue + [e], ws, false)
         == Project(sent, ws, false) + if ws == e.workspaceId then queue + [e] else []
  {
    ProjectWithQueue(sent, queue, e.workspaceId, ws);
    ProjectAppend(sent + queue, e, ws, true);
    ProjectAppend(sent + queue, e, ws, false);
  }

  lemma JoinBarrier<T>(out: seq<T>, queue: seq<T>, own: seq<T>, all: seq<T>, e: T, mine: bool)
    requires out + own == all && (mine ==> own == queue)
    ensures (out + if mine then queue + [e] else []) + (if mine then [] else own) == all + if mine then [e] else []
  {
  }

  lemma BarrierConserved(sent: seq<Event>, queue: seq<Event>, own: seq<Event>, submitted: seq<Event>, e: Event,
                         ws: WorkspaceId)
    requires IsTerminal(e) && AllFrom(queue, e.workspaceId) && Ordinary(queue)
    requires Conserved(sent, own, submitted, ws) && (ws == e.workspaceId ==> own == queue)
    ensures Conserved(sent + queue + [e], if ws == e.workspaceId then [] else own, submitted + [e], ws)
  {
    ProjectBarrier(sent, queue, e, ws);
    ProjectAppend(submitted, e, ws, true);
    ProjectAppend(submitted, e, ws, false);
    JoinBarrier(Project(sent, ws, false), queue, own, Project(submitted, ws, false), e, ws == e.workspaceId);
  }

  lemma BarredQueue(q: Queues, e: Event, ws: WorkspaceId)
    ensures Barred(q, e).Queue(ws) == if ws == e.workspaceId then [] else q.Queue(ws)
  {
  }

  /** A terminal event finds everything submitted before it to its workspace out ahead of it. */
  lemma TerminalCaught(sent: seq<Event>, q: Queues, submitted: seq<Event>, e: Event)
    requires Sound(sent, q, submitted) && IsTerminal(e)
    ensures Caught(sent + q.Queue(e.workspaceId), submitted + [e], |submitted|)
  {
    var ws := e.workspaceId;
    assert Conserved(sent, q.Queue(ws), submitted, ws);
    ProjectWithQueue(sent, q.Queue(ws), ws, ws);
    assert (submitted + [e])[..|submitted|] == submitted;
  }

  lemma BarrierInPlace(sent: seq<Event>, q: Queues, submitted: seq<Event>, e: Event)
    requires Sound(sent, q, submitted) && IsTerminal(e)
    ensures TerminalsInPlace(sent + BarrierBatch(q, e), submitted + [e])
  {
    var queue := q.Queue(e.workspaceId);
    var before, after := sent + queue, sent + BarrierBatch(q, e);
    assert Ordinary(queue);
    TerminalsExtend(sent, queue, submitted, [e]);
    TerminalCaught(sent, q, submitted, e);
    assert after == before + [e];
    forall p | 0 <= p < |after|
      ensures InPlace(after, submitted + [e], p)
    {
      if p < |before| {
        assert InPlace(before, submitted + [e], p);
        assert after[..p] == before[..p];
      } else {
        assert after[..p] == before;
        assert (submitted + [e])[|submitted|] == after[p];
      }
    }
  }

  lemma BarrierAllConserved(sent: seq<Event>, q: Queues, submitted: seq<Event>, e: Event)
    requires QueuesSound(q) && AllConserved(sent, q, submitted) && IsTerminal(e)
    ensures AllConserved(sent + q.Queue(e.workspaceId) + [e], Barred(q, e), submitted + [e])
  {
    var queue := q.Queue(e.workspaceId);
    assert Ordinary(queue) && AllFrom(queue, e.workspaceId);
    forall ws
      ensures Conserved(sent + queue + [e], Barred(q, e).Queue(ws), submitted + [e], ws)
    {
      assert Conserved(sent, q.Queue(ws), submitted, ws);
      BarrierConserved(sent, queue, q.Queue(ws), submitted, e, ws);
      BarredQueue(q, e, ws);
    }
  }

  lemma BarrierSent(sent: seq<Event>, q: Queues, e: Event)
    ensures sent + BarrierBatch(q, e) == sent + q.Queue(e.workspaceId) + [e]
  {
  }

  lemma BarrierQueuesSound(q: Queues, e: Event)
    requires QueuesSound(q)
    ensures QueuesSound(Barred(q, e))
  {
    BarrierBytes(q, e);
  }

  /** A terminal event goes out behind its workspace's whole queue. */
  lemma BarrierSound(sent: seq<Event>, q: Queues, submitted: seq<Event>, e: Event)
    requires Sound(sent, q, submitted) && IsTerminal(e)
    ensures Sound(sent + BarrierBatch(q, e), Barred(q, e), submitted + [e])
  {
    BarrierQueuesSound(q, e);
    BarrierInPlace(sent, q, submitted, e);
    BarrierSent(sent, q, e);
    BarrierAllConserved(sent, q, submitted, e);
  }

  /** After its critical section a critical event counts as delivered: it and all it waits for are on their way. */
  lemma CriticalDelivered(sent: seq<Event>, q: Queues, submitted: seq<Event>, e: Event)
    requires Sound(sent, q, submitted + [e]) && IsCritical(e)
    requires IsTerminal(e) ==> q.Queue(e.workspaceId) == []
    ensures Delivered(sent, submitted + [e], |submitted|)
  {
    assert Conserved(sent, q.Queue(e.workspaceId), submitted + [e], e.workspaceId);
    assert (submitted + [e])[..|submitted| + 1] == submitted + [e];
  }

  // ------------------------------------------------------- the invariant is kept

  lemma StartInv()
    ensures Inv(START)
  {
    assert START.emitted + InFlight(START) == [];
  }

  lemma CalledInv(w: World, t: Task, e: Event, w': World)
    requires Inv(w) && Called(w, t, e) == Some(w')
    ensures Inv(w')
  {
    assert forall x :: PcOf(w', x) == if x == t then Entered(e) else PcOf(w, x);
    assert InFlight(w') == InFlight(w);
  }

  lemma TickedInv(w: World, w': World)
    requires Inv(w) && Ticked(w) == Some(w')
    ensures Inv(w')
  {
    assert forall x :: PcOf(w', x) == if x == Flusher then FlushOrderHeld else PcOf(w, x);
    assert InFlight(w') == InFlight(w);
  }

  lemma OthersStay(w: World, t: Task, w': World)
    requires (forall x :: x in w.queues.order <==> x in w.queues.byWorkspace) && Resumed(w, t) == Some(w')
    ensures forall x :: x != t ==> PcOf(w', x) == PcOf(w, x)
  {
  }

  lemma OrderKept(w: World, t: Task, w': World)
    requires Locks(w) && (forall x :: x in w.queues.order <==> x in w.queues.byWorkspace) && Resumed(w, t) == Some(w')
    ensures forall x :: HoldsOrder(PcOf(w', x)) <==> w'.emitOrder == Some(x)
  {
    OthersStay(w, t, w');
    assert HoldsOrder(PcOf(w, t)) <==> w.emitOrder == Some(t);
  }

  lemma InnerKept(w: World, t: Task, w': World)
    requires Locks(w) && (forall x :: x in w.queues.order <==> x in w.queues.byWorkspace) && Resumed(w, t) == Some(w')
    ensures forall x :: HoldsInner(PcOf(w', x)) <==> w'.inner == Some(x)
  {
    OthersStay(w, t, w');
    assert HoldsInner(PcOf(w, t)) <==> w.inner == Some(t);
  }

  lemma LocksKept(w: World, t: Task, w': World)
    requires Locks(w) && (forall x :: x in w.queues.order <==> x in w.queues.byWorkspace)
    requires Resumed(w, t) == Some(w')
    ensures Locks(w')
    ensures forall x :: x != t ==> PcOf(w', x) == PcOf(w, x)
  {
    OthersStay(w, t, w');
    OrderKept(w, t, w');
    InnerKept(w, t, w');
  }

  /** Steps that take a lock, send a batch or let go of emit_order move no event between places. */
  lemma QuietInv(w: World, t: Task, w': World)
    requires Inv(w) && Resumed(w, t) == Some(w')
    requires !PcOf(w, t).BothHeld? && !PcOf(w, t).InnerHeld? && !PcOf(w, t).FlushBothHeld?
    ensures Inv(w')
  {
    LocksKept(w, t, w');
    assert w'.emitted + InFlight(w') == w.emitted + InFlight(w);
  }

  lemma SubmitInv(w: World, t: Task, w': World)
    requires Inv(w) && PcOf(w, t).InnerHeld? && Resumed(w, t) == Some(w')
    ensures Inv(w')
  {
    var e := PcOf(w, t).event;
    LocksKept(w, t, w');
    assert InFlight(w') == InFlight(w);
    SubmitSound(Outgoing(w), w.queues, w.submitted, e);
    forall x | PcOf(w', x).Sending? && PcOf(w', x).source.Some?
      ensures Delivered(Outgoing(w'), w'.submitted, PcOf(w', x).source.value)
    {
      assert PcOf(w, x) == PcOf(w', x);
      DeliveredStays(Outgoing(w), w.submitted, e, PcOf(w, x).source.value);
    }
  }

  /** The owner of emit_order, having nothing in flight before, now has `batches`. */
  lemma Departed(w: World, t: Task, w': World, batches: seq<seq<Event>>)
    requires Locks(w) && Locks(w') && w.emitOrder == w'.emitOrder == Some(t) && !PcOf(w, t).Sending?
    requires PcOf(w', t).Sending? && PcOf(w', t).batches == batches && w'.emitted == w.emitted
    ensures InFlight(w) == [] && InFlight(w') == batches
    ensures Outgoing(w') == Outgoing(w) + Flatten(batches)
    ensures forall x :: PcOf(w', x).Sending? ==> x == t
  {
    assert w.emitted + [] == w.emitted;
    FlattenConcat(w.emitted, batches);
    forall x | PcOf(w', x).Sending?
      ensures x == t
    {
      assert HoldsOrder(PcOf(w', x));
    }
  }

  lemma FlushInv(w: World, t: Task, w': World)
    requires Inv(w) && PcOf(w, t).FlushBothHeld? && Resumed(w, t) == Some(w')
    ensures Inv(w')
  {
    var batches := Batches(w.queues.order, w.queues.byWorkspace);
    assert HoldsOrder(PcOf(w, t));
    LocksKept(w, t, w');
    BatchesFacts(w.queues.order, w.queues.byWorkspace);
    Departed(w, t, w', batches);
    FlushSound(Outgoing(w), w.queues, w.submitted, Flatten(batches));
  }

  lemma CriticalInv(w: World, t: Task, w': World)
    requires Inv(w) && PcOf(w, t).BothHeld? && Resumed(w, t) == Some(w')
    ensures Inv(w')
  {
    var e := PcOf(w, t).event;
    var more := if IsTerminal(e) then BarrierBatch(w.queues, e) else [e];
    assert HoldsOrder(PcOf(w, t));
    LocksKept(w, t, w');
    Departed(w, t, w', [more]);
    FlattenSingle(more);
    if IsTerminal(e) {
      BarrierSound(Outgoing(w), w.queues, w.submitted, e);
    } else {
      UrgentSound(Outgoing(w), w.queues, w.submitted, e);
    }
    CriticalDelivered(Outgoing(w'), w'.queues, w.submitted, e);
  }

  lemma NextInv(w: World, w': World)
    requires Inv(w) && Next(w, w')
    ensures Inv(w')
  {
    if t, e :| Called(w, t, e) == Some(w') {
      CalledInv(w, t, e, w');
    } else if Ticked(w) == Some(w') {
      TickedInv(w, w');
    } else {
      var t :| Resumed(w, t) == Some(w');
      match PcOf(w, t) {
        case InnerHeld(_) => SubmitInv(w, t, w');
        case FlushBothHeld => FlushInv(w, t, w');
        case BothHeld(_) => CriticalInv(w, t, w');
        case _ => QuietInv(w, t, w');
      }
    }
  }

  lemma RunStep(run: seq<World>, i: nat)
    requires IsRun(run) && i + 1 < |run|
    ensures Next(run[i], run[i + 1])
  {
  }

  lemma RunInv(run: seq<World>, i: nat)
    requires IsRun(run) && i < |run|
    ensures Inv(run[i])
  {
    StartInv();
    forall k: nat, m | m == k + 1 <= i && Inv(run[k])
      ensures Inv(run[m])
    {
      RunStep(run, k);
      NextInv(run[k], run[m]);
    }
    Runs.Stays(run, 0, i, (w: World) => Inv(w));
  }
}
