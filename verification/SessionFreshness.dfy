/**
 * What "last used" means in a run of the session registry, told by the callers'
 * own steps: an entry is stamped whenever a caller finds or registers its
 * session, and evictions go by these stamps.
 */
module SessionFreshness {
  import opened Wrappers
  import opened Sequences
  import opened SessionEvictions
  import opened SessionRegistry
  import opened SessionProtocol

  // -------------------------------------------------------------- uses of a session

  /** In this step a lookup, made for time `t`, finds the session of the key. */
  predicate FindsAt(w: World, w': World, c: CallerId, key: Key, t: nat) {
    var pc, pc' := w.PcOf(c), w'.PcOf(c);
    pc.Guarded? && pc.key == key && pc.now == t && pc'.StoppingExpired? && pc'.cached.Some?
  }

  /** In this step, at time `t`, a new session of the key is registered. */
  predicate RegistersAt(w: World, w': World, c: CallerId, key: Key, t: nat) {
    w.PcOf(c).Created? && w.PcOf(c).key == key && w.clock == t && w'.PcOf(c).StoppingEvicted?
  }

  ghost predicate Uses(w: World, w': World, key: Key, t: nat) {
    exists c: CallerId :: FindsAt(w, w', c, key, t) || RegistersAt(w, w', c, key, t)
  }

  ghost predicate Unused(w: World, w': World, key: Key) {
    forall t: nat :: !Uses(w, w', key, t)
  }

  lemma NotByOthers(w: World, w': World, c: CallerId)
    requires Next(w, w') && (w.PcOf(c).Guarded? || w.PcOf(c).Created?)
    requires !exists a :: SessionStep(w, c, a, w')
    ensures w'.PcOf(c) == w.PcOf(c)
  {
    if d, b :| LockStep(w, d, b, w') {
      assert w'.PcOf(d) == DoLocks(w, d, b).value.1;
    } else if d, b :| SessionStep(w, d, b, w') {
      SessionStepPc(w, d, b, w');
    }
  }

  lemma OnlyStepperMoves(w: World, w': World, c: CallerId) returns (a: Action)
    requires Next(w, w') && (w.PcOf(c).Guarded? || w.PcOf(c).Created?) && w'.PcOf(c) != w.PcOf(c)
    ensures SessionStep(w, c, a, w')
  {
    if d, b :| SessionStep(w, d, b, w') && d == c {
      a := b;
    } else {
      NotByOthers(w, w', c);
      assert false;
    }
  }

  /** A use stamps the entry. */
  lemma UseStamps(w: World, w': World, key: Key, t: nat)
    requires Next(w, w') && Uses(w, w', key, t)
    ensures key in w'.sessions.registry && w'.sessions.registry[key].lastUsed == t
  {
    var c :| FindsAt(w, w', c, key, t) || RegistersAt(w, w', c, key, t);
    var a := OnlyStepperMoves(w, w', c);
  }

  lemma SessionStepKeeps(w: World, c: CallerId, a: Action, w': World, key: Key)
    requires SessionStep(w, c, a, w') && Unused(w, w', key) && key in w'.sessions.registry
    ensures key in w.sessions.registry && w'.sessions.registry[key] == w.sessions.registry[key]
  {
    if a.Look? && w'.PcOf(c).cached.Some? && w.PcOf(c).key == key {
      assert FindsAt(w, w', c, key, w.PcOf(c).now);
      assert Uses(w, w', key, w.PcOf(c).now);
    }
    if a.Register? && w.PcOf(c).key == key {
      assert RegistersAt(w, w', c, key, w.clock);
      assert Uses(w, w', key, w.clock);
    }
  }

  /** Nothing but a use changes an entry. */
  lemma UnusedKeeps(w: World, w': World, key: Key)
    requires Next(w, w') && Unused(w, w', key) && key in w'.sessions.registry
    ensures key in w.sessions.registry && w'.sessions.registry[key] == w.sessions.registry[key]
  {
    if c, a :| LockStep(w, c, a, w') {
      assert w'.sessions == w.sessions;
    } else if c, a :| SessionStep(w, c, a, w') {
      SessionStepKeeps(w, c, a, w', key);
    }
  }

  // ---------------------------------------------------------------- over whole runs

  ghost predicate UsedAt(run: seq<World>, m: nat, key: Key, t: nat) {
    m + 1 < |run| && Uses(run[m], run[m + 1], key, t)
  }

  ghost predicate UnusedAt(run: seq<World>, m: nat, key: Key) {
    m + 1 < |run| ==> Unused(run[m], run[m + 1], key)
  }

  /** The step from `m` uses the key at time `t`, and no later step before world `j` does. */
  ghost predicate LastUse(run: seq<World>, j: nat, key: Key, m: nat, t: nat) {
    m < j && UsedAt(run, m, key, t) && UnusedFrom(run, m + 1, j, key)
  }

  ghost predicate UnusedFrom(run: seq<World>, m: nat, j: nat, key: Key) {
    forall n: nat :: m <= n < j ==> UnusedAt(run, n, key)
  }

  lemma StepBack(run: seq<World>, n: nat, key: Key)
    requires IsRun(run) && n + 1 < |run| && UnusedAt(run, n, key) && key in run[n + 1].sessions.registry
    ensures key in run[n].sessions.registry && run[n].sessions.registry[key] == run[n + 1].sessions.registry[key]
  {
    RunStep(run, n);
    UnusedKeeps(run[n], run[n + 1], key);
  }

  lemma {:induction false} UnusedBack(run: seq<World>, i: nat, j: nat, key: Key)
    requires IsRun(run) && i <= j < |run| && UnusedFrom(run, i, j, key) && key in run[j].sessions.registry
    ensures key in run[i].sessions.registry && run[i].sessions.registry[key] == run[j].sessions.registry[key]
    decreases j
  {
    if i < j {
      StepBack(run, j - 1, key);
      UnusedBack(run, i, j - 1, key);
    }
  }

  /** The stamp of an entry is the time of its last use. */
  lemma StampIsLastUse(run: seq<World>, j: nat, key: Key, m: nat, t: nat)
    requires IsRun(run) && j < |run| && LastUse(run, j, key, m, t) && key in run[j].sessions.registry
    ensures run[j].sessions.registry[key].lastUsed == t
  {
    RunStep(run, m);
    UseStamps(run[m], run[m + 1], key, t);
    UnusedBack(run, m + 1, j, key);
  }

  /** And every entry has one. */
  lemma {:induction false} EntryHasLastUse(run: seq<World>, j: nat, key: Key) returns (m: nat, t: nat)
    requires IsRun(run) && j < |run| && key in run[j].sessions.registry
    ensures LastUse(run, j, key, m, t)
    decreases j
  {
    if j > 0 {
      var used;
      used, t := UsedOrNot(run, j - 1, key);
      if used {
        m := j - 1;
      } else {
        StepBack(run, j - 1, key);
        m, t := EntryHasLastUse(run, j - 1, key);
        StillLast(run, j - 1, key, m, t);
      }
    }
  }

  lemma StillLast(run: seq<World>, j: nat, key: Key, m: nat, t: nat)
    requires LastUse(run, j, key, m, t) && UnusedAt(run, j, key)
    ensures LastUse(run, j + 1, key, m, t)
  {
  }

  lemma UsedOrNot(run: seq<World>, n: nat, key: Key) returns (used: bool, t: nat)
    requires n + 1 < |run|
    ensures if used then LastUse(run, n + 1, key, n, t) else UnusedAt(run, n, key)
  {
    var w, w' := run[n], run[n + 1];
    if u: nat :| Uses(w, w', key, u) {
      used, t := true, u;
      assert UsedAt(run, n, key, u);
    } else {
      used, t := false, 0;
      assert Unused(w, w', key);
    }
  }

  // ------------------------------------------------------------------- the evictions

  /** In this step caller `c` decides about evictions, on behalf of `requested` and for time `now`. */
  predicate Decides(w: World, w': World, c: CallerId, requested: Key, now: nat) {
    var pc, pc' := w.PcOf(c), w'.PcOf(c);
    || (pc.Guarded? && pc.key == requested && pc.now == now && pc'.StoppingExpired?)
    || (pc.Created? && pc.key == requested && w.clock == now && pc'.StoppingEvicted?)
  }

  ghost predicate Evicts(w: World, w': World, c: CallerId, key: Key) {
    key in w.sessions.registry && w.sessions.registry[key].session in DoomedBy(w'.PcOf(c))
  }

  ghost predicate Running(w: World, key: Key) {
    key in w.sessions.registry && w.sessions.registry[key].session in w.sessions.alive
  }

  lemma DecisionFacts(w: World, w': World, c: CallerId, requested: Key, now: nat) returns (facts: seq<Fact>)
    requires Next(w, w') && Decides(w, w', c, requested, now)
    ensures Lists(facts, w.sessions.registry, w.sessions.alive)
    ensures DoomedBy(w'.PcOf(c)) == SessionsOf(w.sessions.registry, SelectEvictions(facts, requested, now))
    ensures w.PcOf(c).Guarded? ==> w'.PcOf(c).cached == LookedUp(w.sessions.registry, facts, requested, now).1
  {
    var a := OnlyStepperMoves(w, w', c);
    facts := a.facts;
  }

  lemma EvictedIsSelected(w: World, w': World, c: CallerId, requested: Key, now: nat, facts: seq<Fact>, key: Key)
    requires Entries(w) && key in w.sessions.registry
    requires DoomedBy(w'.PcOf(c)) == SessionsOf(w.sessions.registry, SelectEvictions(facts, requested, now))
    ensures Evicts(w, w', c, key) <==> key in SelectEvictions(facts, requested, now)
  {
    EvictedSessions(w, SelectEvictions(facts, requested, now));
    assert SpawnedFor(w.sessions, w.sessions.registry[key].session, key);
  }

  lemma FactOf(facts: seq<Fact>, reg: Registry, alive: set<SessionId>, key: Key) returns (i: nat)
    requires Lists(facts, reg, alive) && key in reg
    ensures i < |facts| && facts[i] == Fact(key, reg[key].session in alive, reg[key].lastUsed)
  {
    ListedKeys(facts, reg, alive);
    i :| i < |facts| && facts[i].key == key;
  }

  lemma NoneExpired(facts: seq<Fact>, now: nat, i: nat)
    requires DistinctKeys(facts) && i < |facts| && |ExpiredKeys(facts, now)| == 0
    ensures !Expired(facts[i], now)
  {
    var k := facts[i].key;
    ExpiredKeysAre(facts, now, k);
    assert !IsExpiredKey(facts, now, k);
  }

  /** The decision about one entry of a registry. */
  lemma DecisionInRegistry(facts: seq<Fact>, reg: Registry, alive: set<SessionId>, requested: Key, now: nat, key: Key)
    requires Lists(facts, reg, alive) && |reg| <= MAX_SESSIONS && key in reg
    ensures !(reg[key].session in alive && now < reg[key].lastUsed + SESSION_IDLE_TIMEOUT) ==>
              key in SelectEvictions(facts, requested, now)
    ensures reg[key].session in alive && now < reg[key].lastUsed + SESSION_IDLE_TIMEOUT
            && key in SelectEvictions(facts, requested, now) ==>
              && |reg| == MAX_SESSIONS && requested !in reg
              && forall k :: k in reg ==>
                   && reg[k].session in alive && now < reg[k].lastUsed + SESSION_IDLE_TIMEOUT
                   && reg[key].lastUsed <= reg[k].lastUsed
  {
    var i := FactOf(facts, reg, alive, key);
    EvictionDecision(facts, requested, now, i);
    if !Expired(facts[i], now) && key in SelectEvictions(facts, requested, now) {
      forall k | k in reg
        ensures k != requested && reg[k].session in alive && now < reg[k].lastUsed + SESSION_IDLE_TIMEOUT
        ensures reg[key].lastUsed <= reg[k].lastUsed
      {
        var j := FactOf(facts, reg, alive, k);
        NoneExpired(facts, now, j);
      }
    }
  }

  /** An entry whose server has died, or that nobody used for the whole timeout, goes at the next decision. */
  lemma StaleIsEvicted(run: seq<World>, j: nat, c: CallerId, requested: Key, now: nat, key: Key, m: nat, t: nat)
    requires IsRun(run) && j + 1 < |run| && Decides(run[j], run[j + 1], c, requested, now)
    requires key in run[j].sessions.registry && LastUse(run, j, key, m, t)
    requires !Running(run[j], key) || now >= t + SESSION_IDLE_TIMEOUT
    ensures Evicts(run[j], run[j + 1], c, key)
  {
    RunInv(run, j);
    RunStep(run, j);
    StampIsLastUse(run, j, key, m, t);
    var facts := DecisionFacts(run[j], run[j + 1], c, requested, now);
    DecisionInRegistry(facts, run[j].sessions.registry, run[j].sessions.alive, requested, now, key);
    EvictedIsSelected(run[j], run[j + 1], c, requested, now, facts, key);
  }

  /**
   * A running session used within the timeout goes only to make room: the registry is full of such sessions, the
   * requested key is not among them, and no other one was last used earlier than the one that goes.
   */
  lemma FreshGoesOnlyForRoom(run: seq<World>, j: nat, c: CallerId, requested: Key, now: nat, key: Key, m: nat, t: nat,
                             other: Key, n: nat, u: nat)
    requires IsRun(run) && j + 1 < |run| && Decides(run[j], run[j + 1], c, requested, now)
    requires Running(run[j], key) && LastUse(run, j, key, m, t) && now < t + SESSION_IDLE_TIMEOUT
    requires Evicts(run[j], run[j + 1], c, key)
    requires other in run[j].sessions.registry && LastUse(run, j, other, n, u)
    ensures |run[j].sessions.registry| == MAX_SESSIONS && requested !in run[j].sessions.registry
    ensures Running(run[j], other) && now < u + SESSION_IDLE_TIMEOUT && t <= u
  {
    RunInv(run, j);
    RunStep(run, j);
    StampIsLastUse(run, j, key, m, t);
    StampIsLastUse(run, j, other, n, u);
    EvictedForRoom(run[j], run[j + 1], c, requested, now, key, other);
  }

  lemma EvictedForRoom(w: World, w': World, c: CallerId, requested: Key, now: nat, key: Key, other: Key)
    requires Inv(w) && Next(w, w') && Decides(w, w', c, requested, now) && Evicts(w, w', c, key)
    requires Running(w, key) && now < w.sessions.registry[key].lastUsed + SESSION_IDLE_TIMEOUT
    requires other in w.sessions.registry
    ensures |w.sessions.registry| == MAX_SESSIONS && requested !in w.sessions.registry && Running(w, other)
    ensures now < w.sessions.registry[other].lastUsed + SESSION_IDLE_TIMEOUT
    ensures w.sessions.registry[key].lastUsed <= w.sessions.registry[other].lastUsed
  {
    var facts := DecisionFacts(w, w', c, requested, now);
    EvictedIsSelected(w, w', c, requested, now, facts, key);
    DecisionInRegistry(facts, w.sessions.registry, w.sessions.alive, requested, now, key);
  }

  /** So whoever looks up a running session within the timeout of its last use is given that session. */
  lemma FreshIsFound(run: seq<World>, j: nat, c: CallerId, key: Key, now: nat, m: nat, t: nat)
    requires IsRun(run) && j + 1 < |run| && Decides(run[j], run[j + 1], c, key, now) && run[j].PcOf(c).Guarded?
    requires Running(run[j], key) && LastUse(run, j, key, m, t) && now < t + SESSION_IDLE_TIMEOUT
    ensures run[j + 1].PcOf(c).cached == Some(run[j].sessions.registry[key].session)
  {
    RunInv(run, j);
    RunStep(run, j);
    StampIsLastUse(run, j, key, m, t);
    var facts := DecisionFacts(run[j], run[j + 1], c, key, now);
    DecisionInRegistry(facts, run[j].sessions.registry, run[j].sessions.alive, key, now, key);
  }
}
