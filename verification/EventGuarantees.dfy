/**
 * What the event sink guarantees in every interleaving of emitting tasks with
 * its flush task.
 */
module EventGuarantees {
  import opened Wrappers
  import opened Sequences
  import opened EventQueues
  import opened EventSink

  /**
   * In every reachable state and for every workspace: what was emitted, then what is
   * drained but unsent, then what is queued, is exactly what was submitted, in order.
   * Urgent events keep their own order.
   */
  lemma NothingLostOrReordered(run: seq<World>, i: nat, workspace: WorkspaceId)
    requires IsRun(run) && i < |run|
    ensures Project(Flatten(run[i].emitted), workspace, false) + Project(Flatten(InFlight(run[i])), workspace, false)
            + run[i].queues.Queue(workspace) == Project(run[i].submitted, workspace, false)
    ensures Project(Flatten(run[i].emitted), workspace, true) + Project(Flatten(InFlight(run[i])), workspace, true)
            == Project(run[i].submitted, workspace, true)
  {
    RunInv(run, i);
    var w := run[i];
    assert Conserved(Outgoing(w), w.queues.Queue(workspace), w.submitted, workspace);
    FlattenConcat(w.emitted, InFlight(w));
    ProjectConcat(Flatten(w.emitted), Flatten(InFlight(w)), workspace, true);
    ProjectConcat(Flatten(w.emitted), Flatten(InFlight(w)), workspace, false);
  }

  lemma {:induction false} ProjectCounts(events: seq<Event>, e: Event)
    ensures multiset(Project(events, e.workspaceId, IsUrgent(e)))[e] == multiset(events)[e]
  {
    if events != [] {
      ProjectCounts(events[..|events| - 1], e);
      assert events == events[..|events| - 1] + [events[|events| - 1]];
    }
  }

  /** No event is lost or duplicated: its copies emitted, in flight and queued add up to those submitted. */
  lemma EveryEventAccountedFor(run: seq<World>, i: nat, e: Event)
    requires IsRun(run) && i < |run|
    ensures multiset(Flatten(run[i].emitted))[e] + multiset(Flatten(InFlight(run[i])))[e]
            + multiset(run[i].queues.Queue(e.workspaceId))[e] == multiset(run[i].submitted)[e]
  {
    RunInv(run, i);
    var w := run[i];
    var queue := w.queues.Queue(e.workspaceId);
    NothingLostOrReordered(run, i, e.workspaceId);
    ProjectCounts(Flatten(w.emitted), e);
    ProjectCounts(Flatten(InFlight(w)), e);
    ProjectCounts(w.submitted, e);
    if IsUrgent(e) {
      assert Ordinary(queue);
      assert e !in queue;
    }
  }

  /**
   * A terminal event never overtakes: when it reaches the channel, the events of its workspace
   * already there, urgent or not, are exactly those submitted before it.
   */
  lemma TerminalNeverOvertakes(run: seq<World>, i: nat, p: nat)
    requires IsRun(run) && i < |run| && p < |Flatten(run[i].emitted)| && IsTerminal(Flatten(run[i].emitted)[p])
    ensures exists k :: 0 <= k < |run[i].submitted| && run[i].submitted[k] == Flatten(run[i].emitted)[p]
                        && Caught(Flatten(run[i].emitted)[..p], run[i].submitted, k)
  {
    RunInv(run, i);
    var w := run[i];
    FlattenConcat(w.emitted, InFlight(w));
    assert InPlace(Outgoing(w), w.submitted, p);
    assert Outgoing(w)[..p] == Flatten(w.emitted)[..p];
  }

  /**
   * When a critical call is about to return, its event has been emitted, and for a terminal event
   * so has everything submitted to its workspace before it.
   */
  lemma CriticalCallReturnsDelivered(run: seq<World>, i: nat, t: Task, k: nat)
    requires IsRun(run) && i < |run| && PcOf(run[i], t) == Sending(Some(k), [])
    ensures Delivered(Flatten(run[i].emitted), run[i].submitted, k)
    ensures run[i].submitted[k] in Flatten(run[i].emitted)
  {
    RunInv(run, i);
    var w := run[i];
    assert HoldsOrder(PcOf(w, t));
    assert w.emitted + InFlight(w) == w.emitted;
    DeliveredIsSent(Flatten(w.emitted), w.submitted, k);
  }

  lemma DeliveredIsSent(sent: seq<Event>, submitted: seq<Event>, k: nat)
    requires Delivered(sent, submitted, k)
    ensures submitted[k] in sent
  {
    var e := submitted[k];
    ProjectAppend(submitted[..k], e, e.workspaceId, IsUrgent(e));
    assert submitted[..k + 1] == submitted[..k] + [e];
    var due, all := Project(submitted[..k + 1], e.workspaceId, IsUrgent(e)), Project(sent, e.workspaceId, IsUrgent(e));
    assert due <= all;
    assert e == due[|due| - 1] == all[|due| - 1];
    assert e in multiset(all);
    ProjectCounts(sent, e);
    assert e in multiset(sent);
  }

  /**
   * An urgent event overtakes the queued events of its workspace and nothing else: it arrives in
   * submission order precisely when nothing of its workspace is queued at that moment.
   */
  lemma UrgentOvertakesExactlyTheQueue(run: seq<World>, i: nat, t: Task, e: Event)
    requires IsRun(run) && i < |run| && PcOf(run[i], t) == BothHeld(e) && IsUrgent(e)
    ensures Project(Outgoing(run[i]), e.workspaceId, false) + run[i].queues.Queue(e.workspaceId)
            == Project(run[i].submitted, e.workspaceId, false)
    ensures Caught(Outgoing(run[i]), run[i].submitted + [e], |run[i].submitted|)
            <==> run[i].queues.Queue(e.workspaceId) == []
  {
    RunInv(run, i);
    var w := run[i];
    assert Conserved(Outgoing(w), w.queues.Queue(e.workspaceId), w.submitted, e.workspaceId);
    CaughtIff(Outgoing(w), w.queues, w.submitted, e);
  }

  lemma CaughtIff(sent: seq<Event>, q: Queues, submitted: seq<Event>, e: Event)
    requires Conserved(sent, q.Queue(e.workspaceId), submitted, e.workspaceId)
    ensures Caught(sent, submitted + [e], |submitted|) <==> q.Queue(e.workspaceId) == []
  {
    assert (submitted + [e])[..|submitted|] == submitted;
    var ws, out := e.workspaceId, Project(sent, e.workspaceId, false);
    assert |out| + |q.Queue(ws)| == |Project(submitted, ws, false)|;
    assert (submitted + [e])[|submitted|] == e;
    if q.Queue(ws) == [] {
      assert out + [] == out;
      forall urgent
        ensures Project(sent, ws, urgent) == Project(submitted, ws, urgent)
      {
        if !urgent {
          assert out == Project(submitted, ws, false);
        }
      }
    }
  }

  /** The flush counter is the number of batches produced, capped at the largest u64. */
  lemma FlushCountIsBatches(run: seq<World>, i: nat)
    requires IsRun(run) && i < |run|
    ensures run[i].queues.flushCount == if |run[i].emitted| + |InFlight(run[i])| > U64_MAX then U64_MAX
                                        else |run[i].emitted| + |InFlight(run[i])|
  {
    RunInv(run, i);
  }

  ghost predicate BytesFit(q: Queues) {
    q.WellFormed() && q.Held() <= USIZE_MAX
  }

  ghost predicate BytesExact(q: Queues) {
    q.WellFormed() && q.queuedBytes == q.Held()
  }

  /** As long as the queued total has always fitted the counter, the counter is that total. */
  lemma {:induction false} QueuedBytesExact(run: seq<World>, i: nat)
    requires IsRun(run) && i < |run|
    requires forall j :: 0 <= j <= i ==> BytesFit(run[j].queues)
    ensures BytesExact(run[i].queues)
  {
    RunInv(run, i);
    if i > 0 {
      QueuedBytesExact(run, i - 1);
      RunInv(run, i - 1);
      assert Next(run[i - 1], run[i - 1 + 1]);
      BytesStayExact(run[i - 1], run[i]);
    }
  }

  lemma BytesStayExact(w: World, w': World)
    requires Next(w, w') && QueuesSound(w.queues) && BytesExact(w.queues)
    requires w'.queues.WellFormed() && BytesFit(w'.queues)
    ensures BytesExact(w'.queues)
  {
    if w'.queues != w.queues {
      var t :| Resumed(w, t) == Some(w');
      match PcOf(w, t) {
        case InnerHeld(e) =>
          SubmitBytes(w.queues, e);
          SubmittedHeld(w.queues, e);
        case FlushBothHeld => DrainBytes(w.queues);
        case BothHeld(e) => BarrierBytes(w.queues, e);
        case _ =>
      }
    }
  }

  /** No deadlock: while any task is under way, some task that is under way can take its next step. */
  lemma SomeTaskCanStep(run: seq<World>, i: nat, busy: Task)
    requires IsRun(run) && i < |run| && !PcOf(run[i], busy).Idle?
    ensures QueuesSound(run[i].queues)
    ensures exists t :: !PcOf(run[i], t).Idle? && Resumed(run[i], t).Some?
  {
    RunInv(run, i);
    var w := run[i];
    if w.inner.Some? {
      assert HoldsInner(PcOf(w, w.inner.value));
      assert Resumed(w, w.inner.value).Some?;
    } else if w.emitOrder.Some? {
      assert HoldsOrder(PcOf(w, w.emitOrder.value));
      assert Resumed(w, w.emitOrder.value).Some?;
    } else {
      assert !HoldsOrder(PcOf(w, busy)) && !HoldsInner(PcOf(w, busy));
      assert Resumed(w, busy).Some?;
    }
  }

  /** Submissions are never taken back or renumbered, so a call that returned stays ahead of one made later. */
  lemma {:induction false} SubmittedOnlyGrows(run: seq<World>, i: nat, j: nat)
    requires IsRun(run) && i <= j < |run|
    ensures run[i].submitted <= run[j].submitted && run[i].emitted <= run[j].emitted
    decreases j - i
  {
    if i < j {
      SubmittedOnlyGrows(run, i, j - 1);
      assert Next(run[j - 1], run[j - 1 + 1]);
      NextGrows(run[j - 1], run[j]);
    }
  }

  lemma NextGrows(w: World, w': World)
    requires Next(w, w')
    ensures w.submitted <= w'.submitted && w.emitted <= w'.emitted
  {
  }
}
