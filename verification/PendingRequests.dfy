/**
 * The request table of one language-server session: many callers sending
 * requests, one reader task settling them, in every interleaving.
 *
 * A request's sender sits in `pending` until somebody takes it out; what was sent
 * through it sits in the request's mailbox until its caller looks.
 */
module PendingRequests {
  import opened Wrappers
  import Runs

  type CallerId = nat
  type RequestId = nat
  type Value = nat // an opaque JSON value
  const NULL: Value := 0

  type Reply = Result<Value, string>

  // ------------------------------------------------------------------- messages

  /** The `id` member, as far as dispatch looks at it. */
  datatype IdField = NoId | Unsigned(id: RequestId) | OtherId

  /** `named` says whether the message has a method. */
  datatype Message = Message(named: bool, id: IdField, error: Option<Option<string>>, result: Option<Value>)

  const DEFAULT_ERROR := "Language server request failed"

  function ReplyOf(m: Message): Reply {
    match m.error
    case Some(message) => Err(if message.Some? then message.value else DEFAULT_ERROR)
    case None => Ok(if m.result.Some? then m.result.value else NULL)
  }

  /** A message with a method is the server's own request or notification, whatever its id says. */
  predicate IsResponseTo(m: Message, id: RequestId) {
    !m.named && m.id == Unsigned(id)
  }

  // ------------------------------------------------------------------ the state

  datatype Mail = Empty | Delivered(reply: Reply) | SenderDropped

  datatype Outcome = Replied(reply: Reply) | WriteError | TimedOutError | CanceledError

  datatype Pc =
    | Idle
    | Checked                      // found the session alive
    | Numbered(id: RequestId)
    | Writing(id: RequestId)       // sender inserted
    | Waiting(id: RequestId)
    | Removing(id: RequestId, why: Outcome)
    | Returning(id: RequestId, outcome: Outcome)

  datatype Reader =
    | Reading
    | Settling(id: RequestId, reply: Reply)  // sender taken, not yet used
    | Failing(left: set<RequestId>, error: string, last: bool)
    | Closing                                // about to mark the session dead
    | Closed                                 // marked dead, table not yet emptied
    | Exited

  datatype World = World(
    alive: bool,
    nextId: RequestId,
    pending: map<RequestId, CallerId>,
    mail: map<RequestId, Mail>,
    pcs: map<CallerId, Pc>,
    reader: Reader,
    received: seq<Message>,
    failures: set<string>,  // what the reader has told waiting callers on giving up
    outcomes: seq<(RequestId, Outcome)>)
  {
    function PcOf(c: CallerId): Pc {
      if c in pcs then pcs[c] else Idle
    }
  }

  const START := World(true, 1, map[], map[], map[], Reading, [], {}, [])

  const EXITED := "Language server exited"

  // ------------------------------------------------------------------ the steps

  datatype CallerStep = Check | TakeId | Insert | WriteOk | WriteErr | Look | TimeOut | Remove | Return

  function DoCaller(w: World, c: CallerId, s: CallerStep): Option<World> {
    var pc := w.PcOf(c);
    match s
    case Check => if pc.Idle? && w.alive then Some(w.(pcs := w.pcs[c := Checked])) else None
    case TakeId =>
      if pc.Checked? then Some(w.(pcs := w.pcs[c := Numbered(w.nextId)], nextId := w.nextId + 1)) else None
    case Insert =>
      if pc.Numbered? then
        Some(w.(pcs := w.pcs[c := Writing(pc.id)],
                pending := w.pending[pc.id := c],
                // an entry already there would lose its sender, and with it this mailbox
                mail := w.mail[pc.id := if pc.id in w.pending then SenderDropped else Empty]))
      else None
    case WriteOk => if pc.Writing? then Some(w.(pcs := w.pcs[c := Waiting(pc.id)])) else None
    case WriteErr => if pc.Writing? then Some(w.(pcs := w.pcs[c := Removing(pc.id, WriteError)])) else None
    case Look =>
      if pc.Waiting? && pc.id in w.mail then
        match w.mail[pc.id]
        case Empty => None
        case Delivered(reply) => Some(w.(pcs := w.pcs[c := Returning(pc.id, Replied(reply))]))
        case SenderDropped => Some(w.(pcs := w.pcs[c := Removing(pc.id, CanceledError)]))
      else None
    case TimeOut => if pc.Waiting? then Some(w.(pcs := w.pcs[c := Removing(pc.id, TimedOutError)])) else None
    case Remove =>
      if pc.Removing? then
        Some(w.(pcs := w.pcs[c := Returning(pc.id, pc.why)], pending := w.pending - {pc.id}))
      else None
    case Return =>
      if pc.Returning? then
        Some(w.(pcs := w.pcs[c := Idle], outcomes := w.outcomes + [(pc.id, pc.outcome)]))
      else None
  }

  datatype ReaderStep =
    | Receive(message: Message)
    | ReadError(problem: string)
    | EndOfStream
    | Settle
    | FailOne(victim: RequestId)
    | FailedAll
    | MarkDead
    | TakeAll

  function Received(w: World, m: Message): World {
    var logged := w.(received := w.received + [m]);
    if m.named || !m.id.Unsigned? || m.id.id !in w.pending then logged
    else logged.(pending := w.pending - {m.id.id}, reader := Settling(m.id.id, ReplyOf(m)))
  }

  /** `fail_pending` empties the table before it sends anything. */
  function TakenAll(w: World, error: string, last: bool): World {
    w.(reader := Failing(w.pending.Keys, error, last), pending := map[], failures := w.failures + {error})
  }

  function DoReader(w: World, s: ReaderStep): Option<World> {
    match s
    case Receive(m) => if w.reader.Reading? then Some(Received(w, m)) else None
    case ReadError(problem) =>
      if w.reader.Reading? then Some(TakenAll(w, problem, false)) else None
    case EndOfStream => if w.reader.Reading? then Some(w.(reader := Closing)) else None
    case Settle =>
      if w.reader.Settling? then
        Some(w.(reader := Reading, mail := w.mail[w.reader.id := Delivered(w.reader.reply)]))
      else None
    case FailOne(id) =>
      if w.reader.Failing? && id in w.reader.left then
        Some(w.(reader := Failing(w.reader.left - {id}, w.reader.error, w.reader.last),
                mail := w.mail[id := Delivered(Err(w.reader.error))]))
      else None
    case FailedAll =>
      if w.reader.Failing? && w.reader.left == {} then Some(w.(reader := if w.reader.last then Exited else Closing))
      else None
    case MarkDead => if w.reader.Closing? then Some(w.(reader := Closed, alive := false)) else None
    case TakeAll =>
      if w.reader.Closed? then Some(TakenAll(w, EXITED, true)) else None
  }

  ghost predicate Next(w: World, w': World) {
    || (exists c, s :: DoCaller(w, c, s) == Some(w'))
    || (exists s :: DoReader(w, s) == Some(w'))
    || w' == w.(alive := false) // the session is stopped from outside
  }

  ghost predicate IsRun(run: seq<World>) {
    && run != []
    && run[0] == START
    && forall i, j :: 0 <= i && j == i + 1 < |run| ==> Next(run[i], run[j])
  }

  // ------------------------------------------------------------------ invariant

  function IdOf(pc: Pc): Option<RequestId> {
    if pc.Idle? || pc.Checked? then None else Some(pc.id)
  }

  /** The sender of a request is with the reader. */
  predicate InReadersHand(r: Reader, id: RequestId) {
    (r.Settling? && r.id == id) || (r.Failing? && id in r.left)
  }

  ghost predicate Finished(w: World, id: RequestId) {
    exists i :: 0 <= i < |w.outcomes| && w.outcomes[i].0 == id
  }

  /** An id belongs to one call: one active caller or one recorded outcome. */
  ghost predicate IdsUnique(w: World) {
    && (forall c: CallerId :: IdOf(w.PcOf(c)).Some? ==>
          IdOf(w.PcOf(c)).value < w.nextId && !Finished(w, IdOf(w.PcOf(c)).value))
    && (forall c: CallerId, d: CallerId :: IdOf(w.PcOf(c)).Some? && IdOf(w.PcOf(c)) == IdOf(w.PcOf(d)) ==> c == d)
    && (forall i :: 0 <= i < |w.outcomes| ==> w.outcomes[i].0 < w.nextId)
    && (forall i, j :: 0 <= i < j < |w.outcomes| ==> w.outcomes[i].0 != w.outcomes[j].0)
  }

  predicate Listed(pc: Pc) {
    pc.Writing? || pc.Waiting? || pc.Removing?
  }

  /** A pending entry belongs to a caller that will still look after it. */
  ghost predicate PendingOwned(w: World) {
    forall id :: id in w.pending ==> Listed(w.PcOf(w.pending[id])) && w.PcOf(w.pending[id]).id == id
  }

  /** A request has a mailbox from its insertion on; the reader takes senders out of the table. */
  ghost predicate MailKnown(w: World) {
    && (forall id :: id in w.mail ==> id < w.nextId)
    && (forall id :: InReadersHand(w.reader, id) ==> id in w.mail && id !in w.pending)
    && (forall c: CallerId :: w.PcOf(c).Numbered? ==> w.PcOf(c).id !in w.mail && w.PcOf(c).id !in w.pending)
  }

  /** A sender is never lost: while a caller waits it is in the table, in the reader's hand, or used. */
  ghost predicate SendersKept(w: World) {
    && (forall id :: id in w.mail ==> !w.mail[id].SenderDropped?)
    && (forall id :: id in w.pending || InReadersHand(w.reader, id) ==> id in w.mail && w.mail[id].Empty?)
    && (forall c: CallerId :: w.PcOf(c).Writing? || w.PcOf(c).Waiting? ==>
          w.PcOf(c).id in w.pending || InReadersHand(w.reader, w.PcOf(c).id) || IsDelivered(w, w.PcOf(c).id))
  }

  predicate IsDelivered(w: World, id: RequestId) {
    id in w.mail && w.mail[id].Delivered?
  }

  /** Some received message is a response to this very id and says this, or the reader gave up saying this. */
  ghost predicate Explained(w: World, id: RequestId, r: Reply) {
    || (exists i :: 0 <= i < |w.received| && IsResponseTo(w.received[i], id) && ReplyOf(w.received[i]) == r)
    || (r.Err? && r.error in w.failures)
  }

  ghost predicate AllExplained(w: World) {
    && (forall id :: id in w.mail && w.mail[id].Delivered? ==> Explained(w, id, w.mail[id].reply))
    && (w.reader.Settling? ==> Explained(w, w.reader.id, w.reader.reply))
    && (w.reader.Failing? ==> w.reader.error in w.failures)
    && (forall c: CallerId :: w.PcOf(c).Returning? && w.PcOf(c).outcome.Replied? ==>
          Explained(w, w.PcOf(c).id, w.PcOf(c).outcome.reply))
    && (forall i :: 0 <= i < |w.outcomes| && w.outcomes[i].1.Replied? ==>
          Explained(w, w.outcomes[i].0, w.outcomes[i].1.reply))
  }

  ghost predicate NoneCanceled(w: World) {
    && (forall c: CallerId :: w.PcOf(c).Removing? ==> w.PcOf(c).why.WriteError? || w.PcOf(c).why.TimedOutError?)
    && (forall c: CallerId :: w.PcOf(c).Returning? ==> !w.PcOf(c).outcome.CanceledError?)
    && (forall i :: 0 <= i < |w.outcomes| ==> !w.outcomes[i].1.CanceledError?)
  }

  ghost predicate Inv(w: World) {
    IdsUnique(w) && PendingOwned(w) && MailKnown(w) && SendersKept(w) && AllExplained(w) && NoneCanceled(w)
  }

  // ------------------------------------------------------- the invariant is kept

  lemma CallerPcs(w: World, c: CallerId, s: CallerStep, w': World)
    requires DoCaller(w, c, s) == Some(w')
    ensures forall d: CallerId :: d != c ==> w'.PcOf(d) == w.PcOf(d)
    ensures w'.reader == w.reader && w'.received == w.received && w'.failures == w.failures
  {
  }

  lemma CallerIds(w: World, c: CallerId, s: CallerStep, w': World)
    requires IdsUnique(w) && DoCaller(w, c, s) == Some(w')
    ensures IdsUnique(w')
  {
    CallerPcs(w, c, s, w');
    forall d: CallerId | IdOf(w'.PcOf(d)).Some?
      ensures !Finished(w', IdOf(w'.PcOf(d)).value)
    {
      if s.Return? {
        assert IdOf(w.PcOf(c)) != IdOf(w.PcOf(d));
        assert !Finished(w, IdOf(w.PcOf(d)).value);
      } else if s.TakeId? && d == c {
        assert w'.outcomes == w.outcomes;
      } else {
        assert w'.outcomes == w.outcomes;
        assert !Finished(w, IdOf(w.PcOf(d)).value);
      }
    }
    if s.Return? {
      assert !Finished(w, w.PcOf(c).id);
    }
  }

  lemma CallerPending(w: World, c: CallerId, s: CallerStep, w': World)
    requires PendingOwned(w) && MailKnown(w) && SendersKept(w) && DoCaller(w, c, s) == Some(w')
    ensures PendingOwned(w')
  {
    CallerPcs(w, c, s, w');
  }

  lemma CallerMailNew(w: World, c: CallerId, s: CallerStep, w': World)
    requires IdsUnique(w) && PendingOwned(w) && MailKnown(w) && DoCaller(w, c, s) == Some(w')
    ensures forall d: CallerId :: w'.PcOf(d).Numbered? ==> w'.PcOf(d).id !in w'.mail && w'.PcOf(d).id !in w'.pending
  {
    CallerPcs(w, c, s, w');
  }

  lemma CallerMail(w: World, c: CallerId, s: CallerStep, w': World)
    requires IdsUnique(w) && PendingOwned(w) && MailKnown(w) && DoCaller(w, c, s) == Some(w')
    ensures MailKnown(w')
  {
    CallerMailNew(w, c, s, w');
  }

  lemma CallerSenders(w: World, c: CallerId, s: CallerStep, w': World)
    requires IdsUnique(w) && MailKnown(w) && SendersKept(w) && DoCaller(w, c, s) == Some(w')
    ensures SendersKept(w')
  {
    CallerPcs(w, c, s, w');
  }

  lemma CallerExplained(w: World, c: CallerId, s: CallerStep, w': World)
    requires AllExplained(w) && NoneCanceled(w) && SendersKept(w) && DoCaller(w, c, s) == Some(w')
    ensures AllExplained(w')
  {
    CallerPcs(w, c, s, w');
    forall id, r | Explained(w, id, r)
      ensures Explained(w', id, r)
    {
    }
  }

  lemma CallerNoneCanceled(w: World, c: CallerId, s: CallerStep, w': World)
    requires SendersKept(w) && NoneCanceled(w) && DoCaller(w, c, s) == Some(w')
    ensures NoneCanceled(w')
  {
    CallerPcs(w, c, s, w');
  }

  lemma ReaderFrame(w: World, s: ReaderStep, w': World)
    requires DoReader(w, s) == Some(w')
    ensures w'.pcs == w.pcs && w'.nextId == w.nextId && w'.outcomes == w.outcomes
    ensures w.received <= w'.received && w.failures <= w'.failures
  {
  }

  lemma ReaderIds(w: World, s: ReaderStep, w': World)
    requires IdsUnique(w) && DoReader(w, s) == Some(w')
    ensures IdsUnique(w') && (NoneCanceled(w) ==> NoneCanceled(w'))
  {
    ReaderFrame(w, s, w');
    assert forall c: CallerId :: w'.PcOf(c) == w.PcOf(c);
    assert forall id :: Finished(w', id) <==> Finished(w, id);
  }

  lemma ReaderPending(w: World, s: ReaderStep, w': World)
    requires PendingOwned(w) && DoReader(w, s) == Some(w')
    ensures PendingOwned(w')
  {
    ReaderFrame(w, s, w');
    assert forall c: CallerId :: w'.PcOf(c) == w.PcOf(c);
  }

  lemma ReaderMail(w: World, s: ReaderStep, w': World)
    requires MailKnown(w) && SendersKept(w) && DoReader(w, s) == Some(w')
    ensures MailKnown(w')
  {
    ReaderFrame(w, s, w');
    assert forall c: CallerId :: w'.PcOf(c) == w.PcOf(c);
    if s.Settle? {
      assert InReadersHand(w.reader, w.reader.id);
    } else if s.FailOne? {
      assert InReadersHand(w.reader, s.victim);
    }
  }

  lemma ReaderSenders(w: World, s: ReaderStep, w': World)
    requires MailKnown(w) && SendersKept(w) && DoReader(w, s) == Some(w')
    ensures SendersKept(w')
  {
    ReaderFrame(w, s, w');
    assert forall c: CallerId :: w'.PcOf(c) == w.PcOf(c);
  }

  lemma ReaderExplained(w: World, s: ReaderStep, w': World)
    requires AllExplained(w) && DoReader(w, s) == Some(w')
    ensures AllExplained(w')
  {
    ReaderFrame(w, s, w');
    assert forall c: CallerId :: w'.PcOf(c) == w.PcOf(c);
    forall id, r | Explained(w, id, r)
      ensures Explained(w', id, r)
    {
    }
    if s.Receive? && w'.reader.Settling? {
      assert w'.received[|w.received|] == s.message;
      assert IsResponseTo(w'.received[|w.received|], w'.reader.id);
    }
  }

  lemma NextInv(w: World, w': World)
    requires Inv(w) && Next(w, w')
    ensures Inv(w')
  {
    if c, s :| DoCaller(w, c, s) == Some(w') {
      CallerIds(w, c, s, w');
      CallerPending(w, c, s, w');
      CallerMail(w, c, s, w');
      CallerSenders(w, c, s, w');
      CallerExplained(w, c, s, w');
      CallerNoneCanceled(w, c, s, w');
    } else if s :| DoReader(w, s) == Some(w') {
      ReaderIds(w, s, w');
      ReaderPending(w, s, w');
      ReaderMail(w, s, w');
      ReaderSenders(w, s, w');
      ReaderExplained(w, s, w');
    } else {
      StoppedInv(w, w');
    }
  }

  lemma StoppedInv(w: World, w': World)
    requires Inv(w) && w' == w.(alive := false)
    ensures Inv(w')
  {
    assert forall c: CallerId :: w'.PcOf(c) == w.PcOf(c);
    assert forall id :: Finished(w', id) <==> Finished(w, id);
    forall id, r | Explained(w, id, r)
      ensures Explained(w', id, r)
    {
    }
  }

  lemma StartInv()
    ensures Inv(START)
  {
  }

  lemma RunStep(run: seq<World>, i: nat)
    requires IsRun(run) && i + 1 < |run|
    ensures Next(run[i], run[i + 1])
  {
  }

  lemma RunInv(run: seq<World>, i: nat)
    requires IsRun(run) && i < |run|
    ensures Inv(run[i])
  {
    StartInv();
    forall k: nat, m | m == k + 1 <= i && Inv(run[k])
      ensures Inv(run[m])
    {
      RunStep(run, k);
      NextInv(run[k], run[m]);
    }
    Runs.Stays(run, 0, i, (w: World) => Inv(w));
  }

  lemma RunMail(run: seq<World>, i: nat)
    requires IsRun(run) && i < |run|
    ensures MailKnown(run[i]) && SendersKept(run[i])
  {
    RunInv(run, i);
  }
}
