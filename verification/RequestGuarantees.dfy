/**
 * What the request table guarantees in every interleaving of callers with the
 * reader: each id has one caller and one outcome, each reply is its own
 * request's, and which requests the reader's exit leaves unanswered.
 */
module RequestGuarantees {
  import opened Wrappers
  import opened PendingRequests
  import Runs

  // ------------------------------------------------------- one outcome for each call

  /** Every id is used by one call only, and no call ends twice. */
  lemma IdsAreUsedOnce(run: seq<World>, i: nat)
    requires IsRun(run) && i < |run|
    ensures forall j, k :: 0 <= j < k < |run[i].outcomes| ==> run[i].outcomes[j].0 != run[i].outcomes[k].0
    ensures forall c: CallerId, d: CallerId ::
              IdOf(run[i].PcOf(c)).Some? && IdOf(run[i].PcOf(c)) == IdOf(run[i].PcOf(d)) ==> c == d
    ensures forall c: CallerId :: IdOf(run[i].PcOf(c)).Some? ==> !Finished(run[i], IdOf(run[i].PcOf(c)).value)
  {
    RunInv(run, i);
  }

  /** From the moment a call has its outcome, and for good, its id is not pending. */
  lemma ReturnedIsNotPending(run: seq<World>, i: nat, id: RequestId)
    requires IsRun(run) && i < |run|
    requires Finished(run[i], id) || exists c: CallerId :: run[i].PcOf(c).Returning? && run[i].PcOf(c).id == id
    ensures id !in run[i].pending
  {
    RunInv(run, i);
    assert id in run[i].pending ==> IdOf(run[i].PcOf(run[i].pending[id])) == Some(id);
  }

  /** What a response is to tell its caller: the error's text, if it has one, or else its result. */
  ghost predicate Tells(m: Message, r: Reply) {
    && (r.Ok? <==> m.error.None?)
    && (m.error.None? && m.result.Some? ==> r == Ok(m.result.value))
    && (m.error.None? && m.result.None? ==> r == Ok(NULL))
    && (m.error.Some? && m.error.value.Some? ==> r == Err(m.error.value.value))
    && (m.error.Some? && m.error.value.None? ==> r == Err("Language server request failed"))
  }

  /** Step `k` of the run receives `m`. */
  ghost predicate Receives(run: seq<World>, k: nat, m: Message) {
    k + 1 < |run| && DoReader(run[k], Receive(m)) == Some(run[k + 1])
  }

  /** In step `k` the reader gives up, for this reason. */
  ghost predicate GivesUp(run: seq<World>, k: nat, why: string) {
    && k + 1 < |run|
    && (|| DoReader(run[k], ReadError(why)) == Some(run[k + 1])
        || (why == "Language server exited" && DoReader(run[k], TakeAll) == Some(run[k + 1])))
  }

  lemma NewInReaderLogs(w: World, s: ReaderStep, w': World, m: Message, why: string)
    requires DoReader(w, s) == Some(w')
    ensures m in w'.received ==> m in w.received || s == Receive(m)
    ensures why in w'.failures ==> why in w.failures || s == ReadError(why) || (why == EXITED && s == TakeAll)
  {
  }

  lemma NewInLogs(w: World, w': World, m: Message, why: string)
    requires Next(w, w')
    ensures m in w'.received ==> m in w.received || DoReader(w, Receive(m)) == Some(w')
    ensures why in w'.failures ==>
              || why in w.failures || DoReader(w, ReadError(why)) == Some(w')
              || (why == EXITED && DoReader(w, TakeAll) == Some(w'))
  {
    if c, s :| DoCaller(w, c, s) == Some(w') {
      CallerPcs(w, c, s, w');
    } else if s :| DoReader(w, s) == Some(w') {
      NewInReaderLogs(w, s, w', m, why);
    }
  }

  lemma {:induction false} WasReceived(run: seq<World>, i: nat, m: Message) returns (k: nat)
    requires IsRun(run) && i < |run| && m in run[i].received
    ensures k < i && Receives(run, k, m)
  {
    StepBefore(run, i);
    k := i - 1;
    if !Receives(run, k, m) {
      NewInLogs(run[k], run[i], m, "");
      k := WasReceived(run, k, m);
    }
  }

  lemma {:induction false} DidGiveUp(run: seq<World>, i: nat, why: string) returns (k: nat)
    requires IsRun(run) && i < |run| && why in run[i].failures
    ensures k < i && GivesUp(run, k, why)
  {
    StepBefore(run, i);
    k := i - 1;
    if !GivesUp(run, k, why) {
      NewInLogs(run[k], run[i], Message(false, NoId, None, None), why);
      k := DidGiveUp(run, k, why);
    }
  }

  lemma StepBefore(run: seq<World>, i: nat)
    requires IsRun(run) && i < |run|
    ensures if i == 0 then run[i] == START else Next(run[i - 1], run[i])
  {
    if i > 0 {
      RunStep(run, i - 1);
    }
  }

  /**
   * A reply a caller returns is what a response to its very id, received earlier in the run, has to tell, or it is
   * the reason for which the reader gave up.
   */
  lemma RepliesAreOwn(run: seq<World>, i: nat, n: nat)
    requires IsRun(run) && i < |run| && n < |run[i].outcomes| && run[i].outcomes[n].1.Replied?
    ensures var (id, outcome) := run[i].outcomes[n];
            || (exists k: nat, m :: k < i && Receives(run, k, m) && IsResponseTo(m, id) && Tells(m, outcome.reply))
            || (outcome.reply.Err? && exists k: nat :: k < i && GivesUp(run, k, outcome.reply.error))
  {
    RunInv(run, i);
    var (id, outcome) := run[i].outcomes[n];
    assert Explained(run[i], id, outcome.reply);
    if j :| && 0 <= j < |run[i].received|
            && IsResponseTo(run[i].received[j], id) && ReplyOf(run[i].received[j]) == outcome.reply {
      var m := run[i].received[j];
      var k := WasReceived(run, i, m);
      assert Tells(m, outcome.reply);
    } else {
      var k := DidGiveUp(run, i, outcome.reply.error);
    }
  }

  ghost predicate HasCaller(w: World, id: RequestId) {
    exists c: CallerId :: IdOf(w.PcOf(c)) == Some(id)
  }

  lemma IdKept(w: World, w': World, id: RequestId)
    requires Next(w, w') && (HasCaller(w, id) || Finished(w, id))
    ensures HasCaller(w', id) || Finished(w', id)
  {
    if c, s :| DoCaller(w, c, s) == Some(w') {
      CallerKeepsId(w, c, s, w', id);
    } else {
      SamePcs(w, w');
      assert forall c: CallerId :: w'.PcOf(c) == w.PcOf(c);
    }
  }

  /** A step that no caller takes leaves every caller where it is. */
  lemma SamePcs(w: World, w': World)
    requires Next(w, w') && !exists c, s :: DoCaller(w, c, s) == Some(w')
    ensures w'.pcs == w.pcs && w'.outcomes == w.outcomes && w'.nextId == w.nextId
  {
    if s :| DoReader(w, s) == Some(w') {
      ReaderFrame(w, s, w');
    }
  }

  lemma CallerKeepsId(w: World, c: CallerId, s: CallerStep, w': World, id: RequestId)
    requires DoCaller(w, c, s) == Some(w') && (HasCaller(w, id) || Finished(w, id))
    ensures HasCaller(w', id) || Finished(w', id)
  {
    CallerPcs(w, c, s, w');
    if Finished(w, id) {
      var i :| 0 <= i < |w.outcomes| && w.outcomes[i].0 == id;
      assert w'.outcomes[i].0 == id;
    } else {
      var d: CallerId :| IdOf(w.PcOf(d)) == Some(id);
      if d == c && s.Return? {
        assert w'.outcomes[|w.outcomes|].0 == id;
      } else {
        assert IdOf(w'.PcOf(d)) == Some(id);
      }
    }
  }

  /** No id is lost: every id handed out has its caller still under way, or has its outcome. */
  lemma {:induction false} EveryIdAccountedFor(run: seq<World>, i: nat, id: RequestId)
    requires IsRun(run) && i < |run| && 1 <= id < run[i].nextId
    ensures HasCaller(run[i], id) || Finished(run[i], id)
  {
    if i > 0 {
      if id < run[i - 1].nextId {
        EveryIdAccountedFor(run, i - 1, id);
      }
      IdAccountedNext(run, i - 1, id);
    }
  }

  lemma IdAccountedNext(run: seq<World>, i: nat, id: RequestId)
    requires IsRun(run) && i + 1 < |run| && id < run[i + 1].nextId
    requires id < run[i].nextId ==> HasCaller(run[i], id) || Finished(run[i], id)
    ensures HasCaller(run[i + 1], id) || Finished(run[i + 1], id)
  {
    RunStep(run, i);
    if id < run[i].nextId {
      IdKept(run[i], run[i + 1], id);
    } else {
      NewIdHasCaller(run[i], run[i + 1], id);
    }
  }

  lemma NewIdHasCaller(w: World, w': World, id: RequestId)
    requires Next(w, w') && w.nextId <= id < w'.nextId
    ensures HasCaller(w', id)
  {
    if c, s :| DoCaller(w, c, s) == Some(w') {
      IdTaken(w, c, s, w', id);
    } else {
      SamePcs(w, w');
    }
  }

  lemma IdTaken(w: World, c: CallerId, s: CallerStep, w': World, id: RequestId)
    requires DoCaller(w, c, s) == Some(w') && w.nextId <= id < w'.nextId
    ensures HasCaller(w', id)
  {
    assert IdOf(w'.PcOf(c)) == Some(id);
  }

  /** How many steps of its own a call can still take. */
  function StepsLeft(pc: Pc): nat {
    match pc
    case Idle => 0
    case Checked => 6
    case Numbered(_) => 5
    case Writing(_) => 4
    case Waiting(_) => 3
    case Removing(_, _) => 2
    case Returning(_, _) => 1
  }

  /** A call under way can always go on, whatever the reader does: a waiting one can time out. */
  lemma CallCanStep(w: World, c: CallerId)
    requires !w.PcOf(c).Idle?
    ensures exists s: CallerStep :: !s.Check? && DoCaller(w, c, s).Some?
  {
    var s :=
      match w.PcOf(c)
      case Idle => Check
      case Checked => TakeId
      case Numbered(_) => Insert
      case Writing(_) => WriteOk
      case Waiting(_) => TimeOut
      case Removing(_, _) => Remove
      case Returning(_, _) => Return;
    assert DoCaller(w, c, s).Some?;
  }

  lemma OwnStepsCount(w: World, c: CallerId, s: CallerStep, w': World, d: CallerId)
    requires DoCaller(w, c, s) == Some(w') && !w.PcOf(d).Idle?
    ensures if d == c then StepsLeft(w'.PcOf(d)) < StepsLeft(w.PcOf(d)) else w'.PcOf(d) == w.PcOf(d)
  {
    CallerPcs(w, c, s, w');
  }

  /** Every call ends: each step leaves it alone or brings it nearer its end, and it always has a next one. */
  lemma EveryCallEnds(run: seq<World>, i: nat, c: CallerId)
    requires IsRun(run) && i + 1 < |run| && !run[i].PcOf(c).Idle?
    ensures run[i + 1].PcOf(c) == run[i].PcOf(c) || StepsLeft(run[i + 1].PcOf(c)) < StepsLeft(run[i].PcOf(c))
    ensures exists s: CallerStep :: !s.Check? && DoCaller(run[i], c, s).Some?
  {
    RunStep(run, i);
    CallCanStep(run[i], c);
    CallNearsItsEnd(run[i], run[i + 1], c);
  }

  lemma CallNearsItsEnd(w: World, w': World, c: CallerId)
    requires Next(w, w') && !w.PcOf(c).Idle?
    ensures w'.PcOf(c) == w.PcOf(c) || StepsLeft(w'.PcOf(c)) < StepsLeft(w.PcOf(c))
  {
    if d, s :| DoCaller(w, d, s) == Some(w') {
      OwnStepsCount(w, d, s, w', c);
    } else {
      SamePcs(w, w');
    }
  }

  // ------------------------------------------------------------ who settles a request

  /** A received message takes a sender precisely when it is a response to a pending id, and then only that one. */
  lemma ResponseTaken(w: World, m: Message)
    requires w.reader.Reading?
    ensures Received(w, m).pcs == w.pcs && Received(w, m).mail == w.mail
    ensures (exists id :: id in w.pending && IsResponseTo(m, id)) <==> Received(w, m).reader != w.reader
    ensures forall id :: id in w.pending && !IsResponseTo(m, id) ==>
              id in Received(w, m).pending && Received(w, m).pending[id] == w.pending[id]
    ensures forall id :: id in w.pending && IsResponseTo(m, id) ==>
              id !in Received(w, m).pending && Received(w, m).reader == Settling(id, ReplyOf(m))
  {
    if !m.named && m.id.Unsigned? && m.id.id in w.pending {
      assert IsResponseTo(m, m.id.id);
    }
  }

  ghost predicate TakenByResponse(w: World, w': World, id: RequestId) {
    exists m :: DoReader(w, Receive(m)) == Some(w') && IsResponseTo(m, id) && w'.reader == Settling(id, ReplyOf(m))
  }

  ghost predicate TakenByGivingUp(w: World, w': World) {
    && w'.pending == map[] && w'.reader.Failing? && w'.reader.left == w.pending.Keys
    && (DoReader(w, TakeAll) == Some(w') || exists problem :: DoReader(w, ReadError(problem)) == Some(w'))
  }

  ghost predicate TakenByItsCaller(w: World, w': World, id: RequestId) {
    exists c: CallerId :: DoCaller(w, c, Remove) == Some(w') && w.PcOf(c).id == id
  }

  lemma SenderTaken(w: World, w': World, id: RequestId)
    requires Next(w, w') && id in w.pending && id !in w'.pending
    ensures TakenByResponse(w, w', id) || TakenByGivingUp(w, w') || TakenByItsCaller(w, w', id)
  {
    if c, s :| DoCaller(w, c, s) == Some(w') {
      SenderRemoved(w, c, s, w', id);
    } else if s :| DoReader(w, s) == Some(w') {
      SenderTakenByReader(w, s, w', id);
    }
  }

  lemma SenderRemoved(w: World, c: CallerId, s: CallerStep, w': World, id: RequestId)
    requires DoCaller(w, c, s) == Some(w') && id in w.pending && id !in w'.pending
    ensures TakenByItsCaller(w, w', id)
  {
    assert s.Remove? && w.PcOf(c).id == id;
  }

  lemma SenderTakenByReader(w: World, s: ReaderStep, w': World, id: RequestId)
    requires DoReader(w, s) == Some(w') && id in w.pending && id !in w'.pending
    ensures TakenByResponse(w, w', id) || TakenByGivingUp(w, w')
  {
    if s.Receive? {
      ResponseTaken(w, s.message);
      assert IsResponseTo(s.message, id);
    }
  }

  /**
   * In every run a request leaves the table in one of three ways: a response to its very id arrives, the reader
   * gives up on everything, or its own caller removes it. No server request and no other id's response does it.
   */
  lemma OnlyOwnResponseSettles(run: seq<World>, i: nat, id: RequestId)
    requires IsRun(run) && i + 1 < |run| && id in run[i].pending && id !in run[i + 1].pending
    ensures || TakenByResponse(run[i], run[i + 1], id)
            || TakenByGivingUp(run[i], run[i + 1])
            || TakenByItsCaller(run[i], run[i + 1], id)
    ensures IdOf(run[i].PcOf(run[i].pending[id])) == Some(id)
  {
    RunInv(run, i);
    RunStep(run, i);
    SenderTaken(run[i], run[i + 1], id);
  }

  /** And a reply reaches a mailbox only from the reader's hand, once: a late response changes nothing. */
  lemma DeliveredOnlyFromHand(run: seq<World>, i: nat, id: RequestId)
    requires IsRun(run) && i + 1 < |run|
    ensures IsDelivered(run[i + 1], id) && !IsDelivered(run[i], id) ==> InReadersHand(run[i].reader, id)
    ensures IsDelivered(run[i], id) ==> IsDelivered(run[i + 1], id) && run[i + 1].mail[id] == run[i].mail[id]
  {
    RunMail(run, i);
    RunStep(run, i);
    MailChanges(run[i], run[i + 1], id);
  }

  lemma MailChanges(w: World, w': World, id: RequestId)
    requires MailKnown(w) && SendersKept(w) && Next(w, w')
    ensures IsDelivered(w', id) && !IsDelivered(w, id) ==> InReadersHand(w.reader, id)
    ensures IsDelivered(w, id) ==> IsDelivered(w', id) && w'.mail[id] == w.mail[id]
  {
    if c, s :| DoCaller(w, c, s) == Some(w') {
      MailInserted(w, c, s, w', id);
    } else if s :| DoReader(w, s) == Some(w') {
      MailSent(w, s, w', id);
    }
  }

  lemma MailInserted(w: World, c: CallerId, s: CallerStep, w': World, id: RequestId)
    requires MailKnown(w) && DoCaller(w, c, s) == Some(w')
    ensures IsDelivered(w', id) == IsDelivered(w, id)
    ensures IsDelivered(w, id) ==> w'.mail[id] == w.mail[id]
  {
    assert w.PcOf(c).Numbered? ==> w.PcOf(c).id !in w.mail;
  }

  lemma MailSent(w: World, s: ReaderStep, w': World, id: RequestId)
    requires SendersKept(w) && DoReader(w, s) == Some(w')
    ensures IsDelivered(w', id) && !IsDelivered(w, id) ==> InReadersHand(w.reader, id)
    ensures IsDelivered(w, id) ==> IsDelivered(w', id) && w'.mail[id] == w.mail[id]
  {
    assert s.Settle? ==> InReadersHand(w.reader, w.reader.id);
    assert s.FailOne? ==> InReadersHand(w.reader, s.victim);
  }

  /** While a caller waits, its sender is in the table, with the reader, or has been used: nothing it needs is lost. */
  lemma WaitingIsAnswerable(run: seq<World>, i: nat, c: CallerId)
    requires IsRun(run) && i < |run| && run[i].PcOf(c).Waiting?
    ensures var id := run[i].PcOf(c).id;
            || (id in run[i].pending && run[i].pending[id] == c)
            || InReadersHand(run[i].reader, id)
            || IsDelivered(run[i], id)
  {
    RunInv(run, i);
    var id := run[i].PcOf(c).id;
    if id in run[i].pending {
      assert IdOf(run[i].PcOf(run[i].pending[id])) == IdOf(run[i].PcOf(c));
    }
  }

  /** The arm for a canceled request is never taken: no sender is dropped unused. */
  lemma NeverCanceled(run: seq<World>, i: nat, k: nat)
    requires IsRun(run) && i < |run| && k < |run[i].outcomes|
    ensures run[i].outcomes[k].1 != CanceledError
  {
    RunInv(run, i);
  }

  /**
   * Exit fails only the requests that were in the table by then: a caller that saw the session alive may
   * insert its request afterwards, and that request is still pending once the reader has exited.
   */
  lemma ExitMissesLateRequest() returns (run: seq<World>)
    ensures IsRun(run) && run[|run| - 1].reader.Exited? && !run[|run| - 1].alive
    ensures 1 in run[|run| - 1].pending && run[|run| - 1].PcOf(0) == Waiting(1)
  {
    var w0 := START;
    var w1 := DoCaller(w0, 0, Check).value;
    var w2 := DoReader(w1, EndOfStream).value;
    var w3 := DoReader(w2, MarkDead).value;
    var w4 := DoReader(w3, TakeAll).value;
    var w5 := DoReader(w4, FailedAll).value;
    var w6 := DoCaller(w5, 0, TakeId).value;
    var w7 := DoCaller(w6, 0, Insert).value;
    var w8 := DoCaller(w7, 0, WriteOk).value;
    run := [w0, w1, w2, w3, w4, w5, w6, w7, w8];
    assert DoCaller(w0, 0, Check) == Some(w1);
    assert DoCaller(w5, 0, TakeId) == Some(w6);
    assert DoCaller(w6, 0, Insert) == Some(w7);
    assert DoCaller(w7, 0, WriteOk) == Some(w8);
  }

  // --------------------------------------------------- which requests exit leaves behind

  /** The reader has emptied the table for the last time. */
  predicate PastLastTake(r: Reader) {
    r.Exited? || (r.Failing? && r.last)
  }

  /** A request inserted in time is not in the table any more once that has happened. */
  ghost predicate InTime(w: World, id: RequestId) {
    id in w.mail && (PastLastTake(w.reader) ==> id !in w.pending)
  }

  /** A request inserted afterwards: nobody will ever use its sender. */
  ghost predicate TooLate(w: World, id: RequestId) {
    PastLastTake(w.reader) && id in w.mail && w.mail[id].Empty? && !InReadersHand(w.reader, id)
  }

  lemma InsertDecides(w: World, c: CallerId, w': World)
    requires MailKnown(w) && DoCaller(w, c, Insert) == Some(w')
    ensures if PastLastTake(w.reader) then TooLate(w', w.PcOf(c).id) else InTime(w', w.PcOf(c).id)
  {
  }

  lemma DecidedByCaller(w: World, c: CallerId, s: CallerStep, w': World, id: RequestId)
    requires MailKnown(w) && DoCaller(w, c, s) == Some(w')
    ensures InTime(w, id) ==> InTime(w', id)
    ensures TooLate(w, id) ==> TooLate(w', id)
  {
    assert w.PcOf(c).Numbered? ==> w.PcOf(c).id !in w.mail;
  }

  lemma DecidedByReader(w: World, s: ReaderStep, w': World, id: RequestId)
    requires DoReader(w, s) == Some(w')
    ensures InTime(w, id) ==> InTime(w', id)
    ensures TooLate(w, id) ==> TooLate(w', id)
  {
  }

  lemma DecidedStays(w: World, w': World, id: RequestId)
    requires MailKnown(w) && Next(w, w')
    ensures InTime(w, id) ==> InTime(w', id)
    ensures TooLate(w, id) ==> TooLate(w', id)
  {
    if c, s :| DoCaller(w, c, s) == Some(w') {
      DecidedByCaller(w, c, s, w', id);
    } else if s :| DoReader(w, s) == Some(w') {
      DecidedByReader(w, s, w', id);
    }
  }

  lemma InTimeNext(run: seq<World>, i: nat, id: RequestId)
    requires IsRun(run) && i + 1 < |run| && InTime(run[i], id)
    ensures InTime(run[i + 1], id)
  {
    RunMail(run, i);
    RunStep(run, i);
    DecidedStays(run[i], run[i + 1], id);
  }

  lemma TooLateNext(run: seq<World>, i: nat, id: RequestId)
    requires IsRun(run) && i + 1 < |run| && TooLate(run[i], id)
    ensures TooLate(run[i + 1], id)
  {
    RunMail(run, i);
    RunStep(run, i);
    DecidedStays(run[i], run[i + 1], id);
  }

  lemma InTimeForGood(run: seq<World>, i: nat, j: nat, id: RequestId)
    requires IsRun(run) && i <= j < |run| && InTime(run[i], id)
    ensures InTime(run[j], id)
  {
    forall k: nat, m | i <= k && m == k + 1 <= j && InTime(run[k], id)
      ensures InTime(run[m], id)
    {
      InTimeNext(run, k, id);
    }
    Runs.Stays(run, i, j, (w: World) => InTime(w, id));
  }

  lemma TooLateForGood(run: seq<World>, i: nat, j: nat, id: RequestId)
    requires IsRun(run) && i <= j < |run| && TooLate(run[i], id)
    ensures TooLate(run[j], id)
  {
    forall k: nat, m | i <= k && m == k + 1 <= j && TooLate(run[k], id)
      ensures TooLate(run[m], id)
    {
      TooLateNext(run, k, id);
    }
    Runs.Stays(run, i, j, (w: World) => TooLate(w, id));
  }

  /**
   * Whether a request is answered is decided when it is inserted: once the reader has exited, a caller still
   * waiting has its reply exactly if the reader had not yet emptied the table for the last time by then.
   */
  lemma AnsweredIffInserted(run: seq<World>, i: nat, j: nat, c: CallerId, id: RequestId)
    requires IsRun(run) && i + 1 <= j < |run| && run[i].PcOf(c) == Numbered(id)
    requires DoCaller(run[i], c, Insert) == Some(run[i + 1])
    requires run[j].reader.Exited? && run[j].PcOf(c) == Waiting(id)
    ensures IsDelivered(run[j], id) <==> !PastLastTake(run[i].reader)
  {
    RunMail(run, i);
    InsertDecides(run[i], c, run[i + 1]);
    if PastLastTake(run[i].reader) {
      TooLateForGood(run, i + 1, j, id);
    } else {
      InTimeForGood(run, i + 1, j, id);
      RunMail(run, j);
    }
  }

  /** What is pending once the reader has exited is never answered: its caller can only time out. */
  lemma LateRequestNeverAnswered(run: seq<World>, i: nat, j: nat, id: RequestId)
    requires IsRun(run) && i <= j < |run| && run[i].reader.Exited? && id in run[i].pending
    ensures run[j].reader.Exited? && id in run[j].mail && run[j].mail[id].Empty?
  {
    RunMail(run, i);
    TooLateForGood(run, i, j, id);
    ExitIsFinal(run, i, j);
  }

  lemma ExitStays(w: World, w': World)
    requires Next(w, w') && w.reader.Exited?
    ensures w'.reader.Exited?
  {
    if c, s :| DoCaller(w, c, s) == Some(w') {
      CallerPcs(w, c, s, w');
    }
  }

  lemma ExitNext(run: seq<World>, i: nat)
    requires IsRun(run) && i + 1 < |run| && run[i].reader.Exited?
    ensures run[i + 1].reader.Exited?
  {
    RunStep(run, i);
    ExitStays(run[i], run[i + 1]);
  }

  lemma ExitIsFinal(run: seq<World>, i: nat, j: nat)
    requires IsRun(run) && i <= j < |run| && run[i].reader.Exited?
    ensures run[j].reader.Exited?
  {
    forall k: nat, m | i <= k && m == k + 1 <= j && run[k].reader.Exited?
      ensures run[m].reader.Exited?
    {
      ExitNext(run, k);
    }
    Runs.Stays(run, i, j, (w: World) => w.reader.Exited?);
  }
}
