/**
 * No caller of the session registry is stuck: it can go on, or waits for one
 * that can, and each call has only so many steps.
 */
module SessionProgress {
  import opened Wrappers
  import opened Sequences
  import opened SessionEvictions
  import opened SessionRegistry
  import opened SessionProtocol
  import Runs

  // ------------------------------------------------------------------ who can step

  /** The caller has a next step of its own. */
  ghost predicate CanStep(w: World, c: CallerId) {
    exists a: Action :: DoLocks(w, c, a).Some? || DoSessions(w, c, a).Some?
  }

  /** A guard is held by a caller on its way through the initializer. */
  ghost predicate GuardsHeld(w: World) {
    forall i: InitId :: i in w.locks.guards ==> IsGuardOf(w.PcOf(w.locks.guards[i]), i)
  }

  predicate IsGuardOf(pc: Pc, i: InitId) {
    GuardOf(pc).Some? && GuardOf(pc).value.init == i
  }

  lemma LockStepGuards(w: World, c: CallerId, a: Action, w': World)
    requires Handles(w) && GuardsHeld(w) && LockStep(w, c, a, w')
    ensures GuardsHeld(w')
  {
    assert forall d: CallerId :: d != c ==> w'.PcOf(d) == w.PcOf(d);
    forall i: InitId | i in w'.locks.guards
      ensures IsGuardOf(w'.PcOf(w'.locks.guards[i]), i)
    {
      if i in w.locks.guards {
        assert IsGuardOf(w.PcOf(w.locks.guards[i]), i);
      }
    }
  }

  lemma NextGuards(w: World, w': World)
    requires Handles(w) && GuardsHeld(w) && Next(w, w')
    ensures GuardsHeld(w')
  {
    if c, a :| LockStep(w, c, a, w') {
      LockStepGuards(w, c, a, w');
    } else if c, a :| SessionStep(w, c, a, w') {
      SessionStepPc(w, c, a, w');
    } else {
      assert forall d: CallerId :: w'.PcOf(d) == w.PcOf(d);
    }
  }

  lemma RunGuards(run: seq<World>, i: nat)
    requires IsRun(run) && i < |run|
    ensures GuardsHeld(run[i])
  {
    forall k: nat, m | m == k + 1 <= i && GuardsHeld(run[k])
      ensures GuardsHeld(run[m])
    {
      RunInv(run, k);
      RunStep(run, k);
      NextGuards(run[k], run[m]);
    }
    Runs.Stays(run, 0, i, (w: World) => GuardsHeld(w));
  }

  /** The entries of a registry can be listed. */
  lemma {:induction false} ListingExists(reg: Registry, alive: set<SessionId>) returns (facts: seq<Fact>)
    ensures Lists(facts, reg, alive)
    decreases |reg|
  {
    if reg == map[] {
      facts := [];
    } else {
      var key :| key in reg;
      var rest := reg - {key};
      assert reg.Keys == rest.Keys + {key};
      var front := ListingExists(rest, alive);
      facts := front + [Fact(key, reg[key].session in alive, reg[key].lastUsed)];
    }
  }

  /** Whoever waits for no lock has a step to take. */
  lemma UnblockedCanStep(w: World, c: CallerId)
    requires !w.PcOf(c).Idle?
    requires w.PcOf(c).Wanting? ==> w.locks.initLock.None?
    requires w.PcOf(c).Waiting? ==> w.PcOf(c).init !in w.locks.guards
    ensures CanStep(w, c)
  {
    var facts := ListingExists(w.sessions.registry, w.sessions.alive);
    var stop := if DoomedBy(w.PcOf(c)) == [] then StoppedAll else StopOne;
    var a :=
      match w.PcOf(c)
      case Idle => Finish
      case Wanting(_) => Retain
      case Retained(_) => FindInitializer
      case Waiting(_, _) => LockInitializer
      case Guarded(_, _, _) => Look(facts)
      case Spawning(_, _) => SpawnErr
      case Created(_, _, _) => Register(facts)
      case Leaving(_, _, _) => Unlock
      case Released(_, _, _) => DropHandle
      case Using(_, _) => Finish
      case _ => stop;
    assert DoLocks(w, c, a).Some? || DoSessions(w, c, a).Some?;
  }

  /** The caller that `c` has to wait for, if the lock it wants next is taken. */
  function WaitsFor(w: World, c: CallerId): CallerId {
    var pc := w.PcOf(c);
    if pc.Wanting? && w.locks.initLock.Some? then w.locks.initLock.value
    else if pc.Waiting? && pc.init in w.locks.guards then w.locks.guards[pc.init]
    else c
  }

  /** No deadlock: in every run a caller under way can take its next step, or the one it waits for can. */
  lemma NoCallerIsStuck(run: seq<World>, i: nat, c: CallerId)
    requires IsRun(run) && i < |run| && !run[i].PcOf(c).Idle?
    ensures !run[i].PcOf(WaitsFor(run[i], c)).Idle? && CanStep(run[i], WaitsFor(run[i], c))
  {
    RunInv(run, i);
    RunGuards(run, i);
    var w := run[i];
    var d := WaitsFor(w, c);
    if w.PcOf(c).Wanting? && w.locks.initLock == Some(d) {
      assert w.PcOf(d).Retained?;
    } else if w.PcOf(c).Waiting? && w.PcOf(c).init in w.locks.guards {
      assert IsGuardOf(w.PcOf(d), w.PcOf(c).init);
    }
    UnblockedCanStep(w, d);
  }

  // ------------------------------------------------------------- how long calls take

  /** More steps than a caller at this point will still take, by the bound on the registry. */
  function StepsLeft(pc: Pc): nat {
    match pc
    case Idle => 0
    case Evicting(doomed) => |doomed| + 1
    case Using(_, _) => 3
    case Released(_, _, _) => 4
    case Leaving(_, _, _) => 5
    case StoppingEvicted(_, _, doomed, _) => |doomed| + 6
    case Created(_, _, _) => MAX_SESSIONS + 7
    case Spawning(_, _) => MAX_SESSIONS + 8
    case StoppingExpired(_, _, doomed, _) => |doomed| + MAX_SESSIONS + 9
    case Guarded(_, _, _) => 2 * MAX_SESSIONS + 10
    case Waiting(_, _) => 2 * MAX_SESSIONS + 11
    case Retained(_) => 2 * MAX_SESSIONS + 12
    case Wanting(_) => 2 * MAX_SESSIONS + 13
  }

  lemma {:induction false} SessionsOfCount(reg: Registry, keys: seq<Key>)
    ensures |SessionsOf(reg, keys)| <= |keys|
  {
    if keys != [] {
      SessionsOfCount(reg, keys[..|keys| - 1]);
    }
  }

  /** No eviction takes more sessions than the registry has. */
  lemma EvictionsCount(reg: Registry, facts: seq<Fact>, alive: set<SessionId>, key: Key, now: nat)
    requires Lists(facts, reg, alive) && |reg| <= MAX_SESSIONS
    ensures |SessionsOf(reg, SelectEvictions(facts, key, now))| <= MAX_SESSIONS
  {
    var evictions := SelectEvictions(facts, key, now);
    EvictionMakesRoom(facts, key, now);
    ListedKeys(facts, reg, alive);
    DistinctCardinality(evictions);
    SubsetCardinality(Elements(evictions), reg.Keys);
    SessionsOfCount(reg, evictions);
  }

  lemma LockStepCounts(w: World, c: CallerId, a: Action)
    requires DoLocks(w, c, a).Some? && !w.PcOf(c).Idle?
    ensures StepsLeft(DoLocks(w, c, a).value.1) < StepsLeft(w.PcOf(c))
  {
  }

  lemma EvictingStepCounts(w: World, c: CallerId, a: Action)
    requires DoSessions(w, c, a).Some? && |w.sessions.registry| <= MAX_SESSIONS && (a.Look? || a.Register?)
    ensures |DoSessions(w, c, a).value.1.doomed| <= MAX_SESSIONS
  {
    var pc, t := w.PcOf(c), w.sessions;
    EvictionsCount(t.registry, a.facts, t.alive, pc.key, if a.Look? then pc.now else w.clock);
  }

  lemma OtherStepCounts(w: World, c: CallerId, a: Action)
    requires DoSessions(w, c, a).Some? && !a.Look? && !a.Register?
    ensures StepsLeft(DoSessions(w, c, a).value.1) < StepsLeft(w.PcOf(c))
  {
  }

  lemma SessionStepCounts(w: World, c: CallerId, a: Action)
    requires DoSessions(w, c, a).Some? && |w.sessions.registry| <= MAX_SESSIONS
    ensures StepsLeft(DoSessions(w, c, a).value.1) < StepsLeft(w.PcOf(c))
  {
    if a.Look? || a.Register? {
      EvictingStepCounts(w, c, a);
    } else {
      OtherStepCounts(w, c, a);
    }
  }

  lemma NextCounts(w: World, w': World, c: CallerId)
    requires |w.sessions.registry| <= MAX_SESSIONS && Next(w, w') && !w.PcOf(c).Idle?
    ensures w'.PcOf(c) == w.PcOf(c) || StepsLeft(w'.PcOf(c)) < StepsLeft(w.PcOf(c))
  {
    if d, a :| LockStep(w, d, a, w') {
      if d == c { LockStepCounts(w, c, a); }
    } else if d, a :| SessionStep(w, d, a, w') {
      if d == c { SessionStepCounts(w, c, a); }
    } else {
      assert w'.pcs == w.pcs;
    }
  }

  /** Every call ends: each step of a run leaves it alone or brings it nearer its end, whatever it has to evict. */
  lemma CallNearsItsEnd(run: seq<World>, i: nat, c: CallerId)
    requires IsRun(run) && i + 1 < |run| && !run[i].PcOf(c).Idle?
    ensures run[i + 1].PcOf(c) == run[i].PcOf(c) || StepsLeft(run[i + 1].PcOf(c)) < StepsLeft(run[i].PcOf(c))
  {
    RunInv(run, i);
    RunStep(run, i);
    NextCounts(run[i], run[i + 1], c);
  }
}
