/**
 * The batch buffer of the application event sink: one queue per workspace, the
 * order in which workspaces were first seen, and saturating counters.
 *
 * `Queues` and the functions on it say what each operation computes; the class
 * `BatchedEventState` does the work in place and is proved against them.
 */
module EventQueues {
  import opened Wrappers
  import opened Sequences

  const U64_MAX: nat := 0xFFFF_FFFF_FFFF_FFFF
  const USIZE_MAX: nat := 0xFFFF_FFFF_FFFF_FFFF

  const TERMINAL_BARRIER_METHODS: seq<string> := ["turn/completed", "turn/error", "runtime/ended"]
  const URGENT_BYPASS_METHODS: seq<string> := [
    "item/tool/requestUserInput",
    "approval/request",
    "collaboration/modeBlocked",
    "collaboration/modeResolved"
  ]

  /** Workspace identifiers are only ever compared for equality, so numbers stand for them. */
  type WorkspaceId = nat

  /** `kind` is the JSON message's method field, `message` stands for the rest; `bytes` is the serialized size. */
  datatype Event = Event(workspaceId: WorkspaceId, kind: Option<string>, message: nat, bytes: nat)

  predicate IsTerminal(e: Event) {
    e.kind.Some? && e.kind.value in TERMINAL_BARRIER_METHODS
  }

  predicate IsCritical(e: Event) {
    e.kind.Some? && (e.kind.value in TERMINAL_BARRIER_METHODS || e.kind.value in URGENT_BYPASS_METHODS)
  }

  /** Urgent events skip the queue altogether; every other event keeps its place in its workspace. */
  predicate IsUrgent(e: Event) {
    IsCritical(e) && !IsTerminal(e)
  }

  function SaturatingAdd(a: nat, b: nat, max: nat): nat {
    if a + b > max then max else a + b
  }

  function SaturatingSub(a: nat, b: nat): nat {
    if a < b then 0 else a - b
  }

  function TotalBytes(events: seq<Event>): nat {
    if events == [] then 0 else TotalBytes(events[..|events| - 1]) + events[|events| - 1].bytes
  }

  // ---------------------------------------------------------------- the state

  datatype Queues = Queues(
    byWorkspace: map<WorkspaceId, seq<Event>>,
    order: seq<WorkspaceId>,
    queuedBytes: nat,
    flushCount: nat,
    criticalBypassCount: nat,
    criticalFlushCount: nat,
    lastFlushSizeBytes: nat)
  {
    function Queue(workspace: WorkspaceId): seq<Event> {
      if workspace in byWorkspace then byWorkspace[workspace] else []
    }

    /** The order lists exactly the queued workspaces, each once; no queue is empty or holds a stranger. */
    ghost predicate WellFormed() {
      && Distinct(order)
      && (forall w :: w in order <==> w in byWorkspace)
      && (forall w | w in byWorkspace :: byWorkspace[w] != [])
      && (forall w | w in byWorkspace :: AllFrom(byWorkspace[w], w))
      && flushCount <= U64_MAX
    }

    /** The bytes that really are queued. */
    function Held(): nat
      requires forall w :: w in order ==> w in byWorkspace
    {
      HeldBy(order, byWorkspace)
    }
  }

  ghost predicate AllFrom(events: seq<Event>, workspace: WorkspaceId) {
    forall i :: 0 <= i < |events| ==> events[i].workspaceId == workspace
  }

  const EMPTY_QUEUES := Queues(map[], [], 0, 0, 0, 0, 0)

  function HeldBy(order: seq<WorkspaceId>, queues: map<WorkspaceId, seq<Event>>): nat
    requires forall w :: w in order ==> w in queues
  {
    if order == [] then 0
    else HeldBy(order[..|order| - 1], queues) + TotalBytes(queues[order[|order| - 1]])
  }

  function Without(order: seq<WorkspaceId>, workspace: WorkspaceId): seq<WorkspaceId> {
    if order == [] then []
    else
      var rest := Without(order[..|order| - 1], workspace);
      if order[|order| - 1] == workspace then rest else rest + [order[|order| - 1]]
  }

  /** The queues of the listed workspaces, in list order. */
  function Batches(order: seq<WorkspaceId>, queues: map<WorkspaceId, seq<Event>>): seq<seq<Event>>
    requires forall w :: w in order ==> w in queues
  {
    if order == [] then []
    else Batches(order[..|order| - 1], queues) + [queues[order[|order| - 1]]]
  }

  // ----------------------------------------------------------- the operations

  function Submitted(q: Queues, e: Event): Queues {
    q.(queuedBytes := SaturatingAdd(q.queuedBytes, e.bytes, USIZE_MAX),
       order := if e.workspaceId in q.byWorkspace then q.order else q.order + [e.workspaceId],
       byWorkspace := q.byWorkspace[e.workspaceId := q.Queue(e.workspaceId) + [e]])
  }

  function Drained(q: Queues): Queues
    requires forall w :: w in q.order <==> w in q.byWorkspace
  {
    if q.order == [] then q
    else
      var total := TotalBytes(Flatten(Batches(q.order, q.byWorkspace)));
      q.(byWorkspace := map[],
         order := [],
         flushCount := SaturatingAdd(q.flushCount, |q.order|, U64_MAX),
         lastFlushSizeBytes := total,
         queuedBytes := SaturatingSub(q.queuedBytes, total))
  }

  function CountedCritical(q: Queues, size: nat): Queues {
    q.(criticalBypassCount := SaturatingAdd(q.criticalBypassCount, 1, U64_MAX),
       flushCount := SaturatingAdd(q.flushCount, 1, U64_MAX),
       criticalFlushCount := SaturatingAdd(q.criticalFlushCount, 1, U64_MAX),
       lastFlushSizeBytes := size)
  }

  function Bypassed(q: Queues, e: Event): Queues {
    CountedCritical(q, e.bytes)
  }

  function BarrierBatch(q: Queues, e: Event): seq<Event> {
    q.Queue(e.workspaceId) + [e]
  }

  function Barred(q: Queues, e: Event): Queues {
    var w := e.workspaceId;
    CountedCritical(
      q.(byWorkspace := q.byWorkspace - {w},
         order := if w in q.byWorkspace then Without(q.order, w) else q.order,
         queuedBytes := SaturatingSub(q.queuedBytes, TotalBytes(q.Queue(w)))),
      TotalBytes(BarrierBatch(q, e)))
  }

  // ------------------------------------------------------------- byte accounts

  lemma {:induction false} TotalBytesConcat(a: seq<Event>, b: seq<Event>)
    ensures TotalBytes(a + b) == TotalBytes(a) + TotalBytes(b)
  {
    if b == [] {
      assert a + b == a;
    } else {
      assert (a + b)[..|a + b| - 1] == a + b[..|b| - 1];
      TotalBytesConcat(a, b[..|b| - 1]);
    }
  }

  lemma {:induction false} WithoutMembers(order: seq<WorkspaceId>, workspace: WorkspaceId)
    ensures forall w :: w in Without(order, workspace) <==> w in order && w != workspace
    ensures Distinct(order) ==> Distinct(Without(order, workspace))
  {
    if order != [] {
      var front, last := order[..|order| - 1], order[|order| - 1];
      WithoutMembers(front, workspace);
      assert order == front + [last];
      if Distinct(order) {
        assert last !in front;
      }
    }
  }

  lemma {:induction false} HeldByFrame(order: seq<WorkspaceId>, queues: map<WorkspaceId, seq<Event>>,
                                       other: map<WorkspaceId, seq<Event>>)
    requires forall w :: w in order ==> w in queues && w in other && queues[w] == other[w]
    ensures HeldBy(order, queues) == HeldBy(order, other)
  {
    if order != [] {
      HeldByFrame(order[..|order| - 1], queues, other);
    }
  }

  lemma {:induction false} HeldByUpdate(order: seq<WorkspaceId>, queues: map<WorkspaceId, seq<Event>>,
                                        workspace: WorkspaceId, queue: seq<Event>)
    requires Distinct(order) && workspace in order && forall w :: w in order ==> w in queues
    ensures HeldBy(order, queues[workspace := queue])
         == HeldBy(order, queues) - TotalBytes(queues[workspace]) + TotalBytes(queue)
  {
    var front, last := order[..|order| - 1], order[|order| - 1];
    if last == workspace {
      HeldByFrame(front, queues, queues[workspace := queue]);
    } else {
      HeldByUpdate(front, queues, workspace, queue);
    }
  }

  lemma {:induction false} HeldByWithout(order: seq<WorkspaceId>, queues: map<WorkspaceId, seq<Event>>,
                                         workspace: WorkspaceId)
    requires Distinct(order) && workspace in order && forall w :: w in order ==> w in queues
    ensures forall w :: w in Without(order, workspace) ==> w in queues
    ensures HeldBy(Without(order, workspace), queues) == HeldBy(order, queues) - TotalBytes(queues[workspace])
  {
    WithoutMembers(order, workspace);
    var front, last := order[..|order| - 1], order[|order| - 1];
    if last == workspace {
      assert workspace !in front;
      WithoutAbsent(front, workspace);
    } else {
      WithoutMembers(front, workspace);
      HeldByWithout(front, queues, workspace);
      var rest := Without(front, workspace);
      assert (rest + [last])[..|rest + [last]| - 1] == rest;
    }
  }

  lemma {:induction false} WithoutAbsent(order: seq<WorkspaceId>, workspace: WorkspaceId)
    requires workspace !in order
    ensures Without(order, workspace) == order
  {
    if order != [] {
      WithoutAbsent(order[..|order| - 1], workspace);
    }
  }

  lemma {:induction false} BatchesFacts(order: seq<WorkspaceId>, queues: map<WorkspaceId, seq<Event>>)
    requires forall w :: w in order ==> w in queues
    ensures |Batches(order, queues)| == |order|
    ensures forall i :: 0 <= i < |order| ==> Batches(order, queues)[i] == queues[order[i]]
    ensures TotalBytes(Flatten(Batches(order, queues))) == HeldBy(order, queues)
  {
    if order != [] {
      var front, last := order[..|order| - 1], order[|order| - 1];
      BatchesFacts(front, queues);
      FlattenConcat(Batches(front, queues), [queues[last]]);
      FlattenSingle(queues[last]);
      TotalBytesConcat(Flatten(Batches(front, queues)), queues[last]);
    }
  }

  /** Taking the queues in order: the next one is still there, and joins the batches when it is taken. */
  lemma TakeNext(order: seq<WorkspaceId>, queues: map<WorkspaceId, seq<Event>>, i: nat)
    requires i < |order| && Distinct(order) && forall w :: w in order ==> w in queues
    ensures order[i] in queues - Elements(order[..i])
    ensures queues - Elements(order[..i]) - {order[i]} == queues - Elements(order[..i + 1])
    ensures Batches(order[..i + 1], queues) == Batches(order[..i], queues) + [queues[order[i]]]
  {
    assert order[..i + 1] == order[..i] + [order[i]];
    assert Elements(order[..i + 1]) == Elements(order[..i]) + {order[i]};
    assert order[..i + 1][..i] == order[..i];
  }

  lemma AllTaken(order: seq<WorkspaceId>, queues: map<WorkspaceId, seq<Event>>)
    requires forall w :: w in order <==> w in queues
    ensures queues - Elements(order[..|order|]) == map[] && order[..|order|] == order
    ensures |Batches(order, queues)| == |order|
  {
    BatchesFacts(order, queues);
    assert order[..|order|] == order;
    assert queues.Keys == Elements(order);
  }

  // --------------------------------------------------- what the operations keep

  lemma SubmittedKeepsForm(q: Queues, e: Event)
    requires q.WellFormed()
    ensures Submitted(q, e).WellFormed()
  {
  }

  lemma SubmittedHeld(q: Queues, e: Event)
    requires q.WellFormed() && Submitted(q, e).WellFormed()
    ensures Submitted(q, e).Held() == q.Held() + e.bytes
  {
    var w := e.workspaceId;
    var after := Submitted(q, e);
    TotalBytesConcat(q.Queue(w), [e]);
    assert TotalBytes([e]) == e.bytes by {
      assert [e][..0] == [];
    }
    if w in q.byWorkspace {
      HeldByUpdate(q.order, q.byWorkspace, w, after.byWorkspace[w]);
    } else {
      assert after.order[..|after.order| - 1] == q.order;
      HeldByFrame(q.order, q.byWorkspace, after.byWorkspace);
    }
  }

  lemma DrainedKeepsForm(q: Queues)
    requires q.WellFormed()
    ensures Drained(q).WellFormed()
    ensures Drained(q).byWorkspace == map[] && Drained(q).Held() == 0
  {
    if q.order == [] {
      assert q.byWorkspace == map[];
    }
  }

  lemma BarredKeepsForm(q: Queues, e: Event)
    requires q.WellFormed()
    ensures Barred(q, e).WellFormed()
  {
    WithoutMembers(q.order, e.workspaceId);
  }

  lemma BarredHeld(q: Queues, e: Event)
    requires q.WellFormed() && Barred(q, e).WellFormed()
    ensures Barred(q, e).Held() == q.Held() - TotalBytes(q.Queue(e.workspaceId))
  {
    var w := e.workspaceId;
    var after := Barred(q, e);
    if w in q.byWorkspace {
      HeldByWithout(q.order, q.byWorkspace, w);
    } else {
      assert after.byWorkspace == q.byWorkspace;
    }
    HeldByFrame(after.order, q.byWorkspace, after.byWorkspace);
  }

  /**
   * A submit keeps an exact counter exact precisely when the new total still fits;
   * past that point the counter can only report too little.
   */
  lemma SubmitBytes(q: Queues, e: Event)
    requires q.WellFormed() && q.queuedBytes <= q.Held()
    ensures Submitted(q, e).WellFormed()
    ensures Submitted(q, e).queuedBytes <= Submitted(q, e).Held()
    ensures q.queuedBytes == q.Held() ==>
              (Submitted(q, e).queuedBytes == Submitted(q, e).Held() <==> q.Held() + e.bytes <= USIZE_MAX)
  {
    SubmittedKeepsForm(q, e);
    SubmittedHeld(q, e);
  }

  /** A barrier keeps an exact counter exact and never lets it report too much. */
  lemma BarrierBytes(q: Queues, e: Event)
    requires q.WellFormed() && q.queuedBytes <= q.Held()
    ensures Barred(q, e).WellFormed()
    ensures Barred(q, e).queuedBytes <= Barred(q, e).Held()
    ensures q.queuedBytes == q.Held() ==> Barred(q, e).queuedBytes == Barred(q, e).Held()
  {
    BarredKeepsForm(q, e);
    BarredHeld(q, e);
  }

  /** A full drain empties the queues and brings even a saturated counter back to the exact zero. */
  lemma DrainBytes(q: Queues)
    requires q.WellFormed() && q.queuedBytes <= q.Held()
    ensures Drained(q).WellFormed() && Drained(q).byWorkspace == map[]
    ensures Drained(q).queuedBytes == Drained(q).Held() == 0
  {
    DrainedKeepsForm(q);
    if q.order != [] {
      BatchesFacts(q.order, q.byWorkspace);
    }
  }

  // ------------------------------------------------------- the state in place

  class BatchedEventState {
    var byWorkspace: map<WorkspaceId, seq<Event>>
    var workspaceOrder: seq<WorkspaceId>
    var queuedBytes: nat
    var flushCount: nat
    var criticalBypassCount: nat
    var criticalFlushCount: nat
    var lastFlushSizeBytes: nat

    ghost function View(): Queues
      reads this
    {
      Queues(byWorkspace, workspaceOrder, queuedBytes, flushCount, criticalBypassCount, criticalFlushCount,
             lastFlushSizeBytes)
    }

    ghost predicate Valid()
      reads this
    {
      View().WellFormed()
    }

    constructor ()
      ensures Valid() && View() == EMPTY_QUEUES
    {
      byWorkspace, workspaceOrder := map[], [];
      queuedBytes, flushCount, criticalBypassCount, criticalFlushCount, lastFlushSizeBytes := 0, 0, 0, 0, 0;
    }

    /** Appends to the workspace's queue; a workspace not yet queued joins the order at its end. */
    method Submit(event: Event)
      requires Valid()
      modifies this
      ensures Valid() && View() == Submitted(old(View()), event)
    {
      SubmittedKeepsForm(View(), event);
      var workspaceId := event.workspaceId;
      queuedBytes := SaturatingAdd(queuedBytes, event.bytes, USIZE_MAX);
      if workspaceId !in byWorkspace {
        workspaceOrder := workspaceOrder + [workspaceId];
        byWorkspace := byWorkspace[workspaceId := []];
      }
      byWorkspace := byWorkspace[workspaceId := byWorkspace[workspaceId] + [event]];
      assert byWorkspace == Submitted(old(View()), event).byWorkspace;
    }

    /** Removes one workspace's queue; the counters are left to the caller. */
    method TakeWorkspaceBatch(workspaceId: WorkspaceId) returns (batch: Option<seq<Event>>)
      requires Valid()
      modifies this`byWorkspace, this`workspaceOrder
      ensures Valid()
      ensures byWorkspace == old(byWorkspace) - {workspaceId}
      ensures workspaceOrder == if workspaceId in old(byWorkspace)
                                then Without(old(workspaceOrder), workspaceId)
                                else old(workspaceOrder)
      ensures batch == if workspaceId in old(byWorkspace) then Some(old(byWorkspace)[workspaceId]) else None
    {
      WithoutMembers(workspaceOrder, workspaceId);
      if workspaceId !in byWorkspace {
        assert byWorkspace == byWorkspace - {workspaceId};
        return None;
      }
      var queue := byWorkspace[workspaceId];
      byWorkspace := byWorkspace - {workspaceId};
      workspaceOrder := Without(workspaceOrder, workspaceId);
      batch := if queue != [] then Some(queue) else None;
    }

    /** Empties every queue, one batch per workspace in first-seen order. */
    method DrainAllWorkspaceBatches() returns (batches: seq<seq<Event>>)
      requires Valid()
      modifies this
      ensures Valid() && View() == Drained(old(View()))
      ensures batches == Batches(old(workspaceOrder), old(byWorkspace))
    {
      ghost var before := View();
      var order := workspaceOrder;
      workspaceOrder := [];
      batches := [];
      for i := 0 to |order|
        invariant byWorkspace == before.byWorkspace - Elements(order[..i])
        invariant batches == Batches(order[..i], before.byWorkspace)
        modifies this`byWorkspace
      {
        var workspaceId := order[i];
        TakeNext(order, before.byWorkspace, i);
        if workspaceId in byWorkspace {
          var queue := byWorkspace[workspaceId];
          byWorkspace := byWorkspace - {workspaceId};
          if queue != [] {
            batches := batches + [queue];
          }
        }
      }
      AllTaken(order, before.byWorkspace);
      DrainedKeepsForm(before);
      if batches != [] {
        var totalBytes := TotalBytes(Flatten(batches));
        flushCount := SaturatingAdd(flushCount, |batches|, U64_MAX);
        lastFlushSizeBytes := totalBytes;
        queuedBytes := SaturatingSub(queuedBytes, totalBytes);
      }
    }

    /** An urgent event travels alone and leaves every queue as it was. */
    method CriticalBypassBatch(event: Event) returns (batch: seq<Event>)
      requires Valid()
      modifies this
      ensures Valid() && View() == Bypassed(old(View()), event)
      ensures batch == [event]
    {
      criticalBypassCount := SaturatingAdd(criticalBypassCount, 1, U64_MAX);
      flushCount := SaturatingAdd(flushCount, 1, U64_MAX);
      criticalFlushCount := SaturatingAdd(criticalFlushCount, 1, U64_MAX);
      lastFlushSizeBytes := event.bytes;
      batch := [event];
    }

    /** A terminal event takes its workspace's whole queue with it and goes last. */
    method TerminalBarrierBatch(event: Event) returns (batch: seq<Event>)
      requires Valid()
      modifies this
      ensures Valid() && View() == Barred(old(View()), event)
      ensures batch == BarrierBatch(old(View()), event)
    {
      BarredKeepsForm(View(), event);
      var taken := TakeWorkspaceBatch(event.workspaceId);
      batch := if taken.Some? then taken.value else [];
      var drainedBytes := TotalBytes(batch);
      queuedBytes := SaturatingSub(queuedBytes, drainedBytes);
      batch := batch + [event];
      criticalBypassCount := SaturatingAdd(criticalBypassCount, 1, U64_MAX);
      flushCount := SaturatingAdd(flushCount, 1, U64_MAX);
      criticalFlushCount := SaturatingAdd(criticalFlushCount, 1, U64_MAX);
      lastFlushSizeBytes := TotalBytes(batch);
    }
  }
}
