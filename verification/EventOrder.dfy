/**
 * In which order a flush sends the queues, and what the sink's statistics say,
 * over every run: told by when a queue was last empty, and by what was submitted
 * and what left.
 */
module EventOrder {
  import opened Wrappers
  import opened Sequences
  import opened EventQueues
  import opened EventSink

  // ------------------------------------------------------------------ first seen first

  ghost predicate Before(order: seq<WorkspaceId>, x: WorkspaceId, y: WorkspaceId) {
    exists j, k :: 0 <= j < k < |order| && order[j] == x && order[k] == y
  }

  ghost predicate Waits(run: seq<World>, i: nat, ws: WorkspaceId) {
    i < |run| && run[i].queues.Queue(ws) != []
  }

  /** Empty in world `k`, and not in any from there to world `i`. */
  ghost predicate WaitsSince(run: seq<World>, i: nat, ws: WorkspaceId, k: nat) {
    k < i && !Waits(run, k, ws) && forall n: nat :: k < n <= i ==> Waits(run, n, ws)
  }

  lemma {:induction false} WithoutKeepsOrder(order: seq<WorkspaceId>, gone: WorkspaceId, x: WorkspaceId, y: WorkspaceId)
    requires Before(Without(order, gone), x, y)
    ensures Before(order, x, y)
  {
    if order != [] {
      var front, last := order[..|order| - 1], order[|order| - 1];
      var rest := Without(front, gone);
      assert order == front + [last];
      WithoutMembers(front, gone);
      if Before(rest, x, y) {
        WithoutKeepsOrder(front, gone, x, y);
        BeforeExtends(front, last, x, y);
      } else {
        LastIsBehind(rest, last, x, y);
        BehindLast(front, x, last);
      }
    }
  }

  lemma BeforeExtends(front: seq<WorkspaceId>, last: WorkspaceId, x: WorkspaceId, y: WorkspaceId)
    requires Before(front, x, y)
    ensures Before(front + [last], x, y)
  {
    var j, k :| 0 <= j < k < |front| && front[j] == x && front[k] == y;
    assert (front + [last])[j] == x && (front + [last])[k] == y;
  }

  lemma LastIsBehind(front: seq<WorkspaceId>, last: WorkspaceId, x: WorkspaceId, y: WorkspaceId)
    requires Before(front + [last], x, y) && !Before(front, x, y)
    ensures y == last && x in front
  {
    var all := front + [last];
    assert forall a, b :: 0 <= a < b < |front| ==> !(front[a] == x && front[b] == y);
    var j, k :| 0 <= j < k < |all| && all[j] == x && all[k] == y;
    assert forall a :: 0 <= a < |front| ==> all[a] == front[a];
  }

  lemma BehindLast(front: seq<WorkspaceId>, x: WorkspaceId, last: WorkspaceId)
    requires x in front
    ensures Before(front + [last], x, last)
  {
    var j :| 0 <= j < |front| && front[j] == x;
    assert (front + [last])[j] == x && (front + [last])[|front|] == last;
  }

  /** A step leaves two workspaces in their order, or the later one was not queued before it. */
  lemma OrderStep(w: World, w': World, x: WorkspaceId, y: WorkspaceId)
    requires Next(w, w') && Before(w'.queues.order, x, y)
    ensures Before(w.queues.order, x, y) || (y !in w.queues.order && x in w.queues.order)
  {
    if w'.queues.order != w.queues.order {
      var t :| Resumed(w, t) == Some(w');
      match PcOf(w, t) {
        case InnerHeld(e) =>
          if !Before(w.queues.order, x, y) {
            LastIsBehind(w.queues.order, e.workspaceId, x, y);
          }
        case BothHeld(e) => WithoutKeepsOrder(w.queues.order, e.workspaceId, x, y);
        case _ =>
      }
    }
  }

  lemma QueuedWaits(run: seq<World>, i: nat, ws: WorkspaceId)
    requires IsRun(run) && i < |run|
    ensures ws in run[i].queues.order <==> Waits(run, i, ws)
  {
    RunInv(run, i);
  }

  lemma BeforeMembers(order: seq<WorkspaceId>, x: WorkspaceId, y: WorkspaceId)
    requires Before(order, x, y)
    ensures x in order && y in order
  {
  }

  lemma SinceBack(run: seq<World>, i: nat, ws: WorkspaceId, k: nat)
    requires WaitsSince(run, i + 1, ws, k)
    ensures if Waits(run, i, ws) then WaitsSince(run, i, ws, k) else k == i
  {
  }

  /** In every run the queues stand, and are flushed, in the order in which they last stopped being empty. */
  lemma {:induction false} FirstSeenFirst(run: seq<World>, i: nat, x: WorkspaceId, y: WorkspaceId, k: nat, m: nat)
    requires IsRun(run) && i < |run| && Before(run[i].queues.order, x, y)
    requires WaitsSince(run, i, x, k) && WaitsSince(run, i, y, m)
    ensures k < m
  {
    var n := i - 1;
    RunStep(run, n);
    OrderStep(run[n], run[i], x, y);
    QueuedWaits(run, n, x);
    QueuedWaits(run, n, y);
    SinceBack(run, n, x, k);
    SinceBack(run, n, y, m);
    if Before(run[n].queues.order, x, y) {
      BeforeMembers(run[n].queues.order, x, y);
      FirstSeenFirst(run, n, x, y, k, m);
    }
  }

  /** And each queue has such a moment. */
  lemma {:induction false} WaitsSinceSome(run: seq<World>, i: nat, ws: WorkspaceId) returns (k: nat)
    requires IsRun(run) && Waits(run, i, ws)
    ensures WaitsSince(run, i, ws, k)
  {
    k := i - 1;
    if Waits(run, k, ws) {
      k := WaitsSinceSome(run, k, ws);
    }
  }

  // ------------------------------------------------------------------ the statistics

  function CriticalAmong(events: seq<Event>): nat {
    if events == [] then 0
    else CriticalAmong(events[..|events| - 1]) + if IsCritical(events[|events| - 1]) then 1 else 0
  }

  function Capped(n: nat): nat {
    if n > U64_MAX then U64_MAX else n
  }

  ghost predicate CriticalCounted(w: World) {
    w.queues.criticalBypassCount == w.queues.criticalFlushCount == Capped(CriticalAmong(w.submitted))
  }

  lemma OneMoreSubmitted(events: seq<Event>, e: Event)
    ensures CriticalAmong(events + [e]) == CriticalAmong(events) + if IsCritical(e) then 1 else 0
  {
    assert (events + [e])[..|events|] == events;
  }

  lemma CriticalResumed(w: World, t: Task, w': World)
    requires (forall x :: x in w.queues.order <==> x in w.queues.byWorkspace) && Resumed(w, t) == Some(w')
    requires CriticalCounted(w) && (PcOf(w, t).InnerHeld? ==> !IsCritical(PcOf(w, t).event))
    requires PcOf(w, t).BothHeld? ==> IsCritical(PcOf(w, t).event)
    ensures CriticalCounted(w')
  {
    if PcOf(w, t).InnerHeld? || PcOf(w, t).BothHeld? {
      OneMoreSubmitted(w.submitted, PcOf(w, t).event);
    }
  }

  lemma CriticalStep(w: World, w': World)
    requires Locks(w) && Next(w, w') && CriticalCounted(w)
    ensures CriticalCounted(w')
  {
    if t :| Resumed(w, t) == Some(w') {
      CriticalResumed(w, t, w');
    }
  }

  /** Both critical counters are the number of critical events that went through the lock, up to the largest u64. */
  lemma {:induction false} CriticalCountersExact(run: seq<World>, i: nat)
    requires IsRun(run) && i < |run|
    ensures CriticalCounted(run[i])
  {
    if i > 0 {
      CriticalCountersExact(run, i - 1);
      RunInv(run, i - 1);
      RunStep(run, i - 1);
      CriticalStep(run[i - 1], run[i]);
    }
  }

  /** In this step `more` leaves the queues, and the last flush size is set to its bytes, if it is anything. */
  ghost predicate Leaves(w: World, w': World, more: seq<Event>) {
    && Outgoing(w') == Outgoing(w) + more
    && w'.queues.lastFlushSizeBytes == if more == [] then w.queues.lastFlushSizeBytes else TotalBytes(more)
  }

  lemma NothingLeaves(w: World, w': World)
    requires w'.emitted + InFlight(w') == w.emitted + InFlight(w) && w'.queues == w.queues
    ensures Leaves(w, w', [])
  {
    assert Outgoing(w) + [] == Outgoing(w);
  }

  lemma QuietLeaves(w: World, t: Task, w': World)
    requires Inv(w) && Resumed(w, t) == Some(w')
    requires !PcOf(w, t).BothHeld? && !PcOf(w, t).InnerHeld? && !PcOf(w, t).FlushBothHeld?
    ensures Leaves(w, w', [])
  {
    LocksKept(w, t, w');
    assert w'.emitted + InFlight(w') == w.emitted + InFlight(w);
    NothingLeaves(w, w');
  }

  lemma SubmitLeaves(w: World, t: Task, w': World)
    requires Inv(w) && PcOf(w, t).InnerHeld? && Resumed(w, t) == Some(w')
    ensures Leaves(w, w', [])
  {
    LocksKept(w, t, w');
    assert InFlight(w') == InFlight(w);
    assert Outgoing(w) + [] == Outgoing(w);
  }

  lemma CriticalLeaves(w: World, t: Task, w': World, more: seq<Event>)
    requires Inv(w) && PcOf(w, t).BothHeld? && Resumed(w, t) == Some(w')
    requires more == if IsTerminal(PcOf(w, t).event) then BarrierBatch(w.queues, PcOf(w, t).event)
                     else [PcOf(w, t).event]
    ensures Leaves(w, w', more)
  {
    assert HoldsOrder(PcOf(w, t));
    LocksKept(w, t, w');
    Departed(w, t, w', [more]);
    FlattenSingle(more);
    assert [PcOf(w, t).event][..0] == [];
  }

  lemma FlushLeaves(w: World, t: Task, w': World, more: seq<Event>)
    requires Inv(w) && PcOf(w, t).FlushBothHeld? && Resumed(w, t) == Some(w')
    requires more == Flatten(Batches(w.queues.order, w.queues.byWorkspace))
    ensures Leaves(w, w', more)
  {
    assert HoldsOrder(PcOf(w, t));
    LocksKept(w, t, w');
    Departed(w, t, w', Batches(w.queues.order, w.queues.byWorkspace));
    FlushNotEmpty(w.queues, more);
  }

  lemma FlushNotEmpty(q: Queues, more: seq<Event>)
    requires q.WellFormed() && more == Flatten(Batches(q.order, q.byWorkspace))
    ensures more == [] <==> q.order == []
  {
    BatchesFacts(q.order, q.byWorkspace);
    if q.order != [] {
      var batches := Batches(q.order, q.byWorkspace);
      assert batches[0] == q.byWorkspace[q.order[0]] != [];
      assert Flatten(batches) == batches[0] + Flatten(batches[1..]);
    }
  }

  lemma StepLeaves(w: World, w': World) returns (more: seq<Event>)
    requires Inv(w) && Next(w, w')
    ensures Leaves(w, w', more)
  {
    more := [];
    if t, e :| Called(w, t, e) == Some(w') {
      assert InFlight(w') == InFlight(w);
      NothingLeaves(w, w');
    } else if Ticked(w) == Some(w') {
      assert InFlight(w') == InFlight(w);
      NothingLeaves(w, w');
    } else {
      var t :| Resumed(w, t) == Some(w');
      match PcOf(w, t) {
        case InnerHeld(_) => SubmitLeaves(w, t, w');
        case FlushBothHeld =>
          more := Flatten(Batches(w.queues.order, w.queues.byWorkspace));
          FlushLeaves(w, t, w', more);
        case BothHeld(e) =>
          more := if IsTerminal(e) then BarrierBatch(w.queues, e) else [e];
          CriticalLeaves(w, t, w', more);
        case _ => QuietLeaves(w, t, w');
      }
    }
  }

  /** In every run the last flush size is the size of what last left the queues. */
  lemma LastFlushSizeExact(run: seq<World>, i: nat)
    requires IsRun(run) && i + 1 < |run|
    ensures Outgoing(run[i]) <= Outgoing(run[i + 1])
    ensures run[i + 1].queues.lastFlushSizeBytes
         == if Outgoing(run[i + 1]) == Outgoing(run[i]) then run[i].queues.lastFlushSizeBytes
            else TotalBytes(Outgoing(run[i + 1])[|Outgoing(run[i])|..])
  {
    RunInv(run, i);
    RunStep(run, i);
    var more := StepLeaves(run[i], run[i + 1]);
    assert Outgoing(run[i + 1])[|Outgoing(run[i])|..] == more;
  }
}
