/**
 * Any number of concurrent `session_for` and `evict_session` calls on one registry,
 * interleaved with language servers that die on their own and with the clock.
 */
module SessionProtocol {
  import opened Wrappers
  import opened Sequences
  import opened SessionEvictions
  import opened SessionRegistry
  import Runs

  datatype Pc =
    | Idle
    | Wanting(key: Key)
    | Retained(key: Key)                    // holds the initializer table, stale entries dropped
    | Waiting(key: Key, init: InitId)       // has a handle to the initializer, waits for it
    | Guarded(key: Key, init: InitId, now: nat)
    | StoppingExpired(key: Key, init: InitId, doomed: seq<SessionId>, cached: Option<SessionId>)
    | Spawning(key: Key, init: InitId)
    | Created(key: Key, init: InitId, session: SessionId)
    | StoppingEvicted(key: Key, init: InitId, doomed: seq<SessionId>, session: SessionId)
    | Leaving(key: Key, init: InitId, result: Option<SessionId>)
    | Released(key: Key, init: InitId, result: Option<SessionId>) // guard dropped, handle not yet
    | Using(key: Key, session: SessionId)
    | Evicting(doomed: seq<SessionId>)

  /** The initializer table and the mutexes it leads to. */
  datatype Locks = Locks(
    initializers: map<Key, InitId>,
    initLock: Option<CallerId>,
    guards: map<InitId, CallerId>,
    nextInit: InitId)

  /** The registry, and what has become of every session ever spawned. */
  datatype Sessions = Sessions(
    registry: Registry,
    spawned: map<SessionId, Key>,
    alive: set<SessionId>,
    stopped: set<SessionId>)
  {
    function Stop(s: SessionId): Sessions {
      Sessions(registry, spawned, alive - {s}, stopped + {s})
    }
  }

  datatype World = World(clock: nat, locks: Locks, sessions: Sessions, pcs: map<CallerId, Pc>) {
    function PcOf(c: CallerId): Pc {
      if c in pcs then pcs[c] else Idle
    }

    function At(c: CallerId, pc: Pc, l: Locks, t: Sessions): World {
      World(clock, l, t, pcs[c := pc])
    }
  }

  const START := World(0, Locks(map[], None, map[], 0), Sessions(map[], map[], {}, {}), map[])

  /** The initializer a caller has a handle to, and the key it got it for. */
  datatype Handle = Handle(key: Key, init: InitId)

  function HandleOf(pc: Pc): Option<Handle> {
    if pc.Idle? || pc.Wanting? || pc.Retained? || pc.Using? || pc.Evicting? then None else Some(Handle(pc.key, pc.init))
  }

  function GuardOf(pc: Pc): Option<Handle> {
    if pc.Waiting? || pc.Released? then None else HandleOf(pc)
  }

  function DoomedBy(pc: Pc): seq<SessionId> {
    if pc.StoppingExpired? || pc.StoppingEvicted? || pc.Evicting? then pc.doomed else []
  }

  /** Past the lookup without a cached session and before the entry is made. */
  predicate MakesSession(pc: Pc) {
    (pc.StoppingExpired? && pc.cached.None?) || pc.Spawning? || pc.Created?
  }

  /** Some caller still has a handle, so the weak reference can be upgraded. */
  ghost predicate Held(w: World, init: InitId) {
    exists c: CallerId :: HandleOf(w.PcOf(c)).Some? && HandleOf(w.PcOf(c)).value.init == init
  }

  // ------------------------------------------------------------------ the steps

  datatype Action =
    | Call(key: Key)
    | Retain
    | FindInitializer
    | LockInitializer
    | Look(facts: seq<Fact>)
    | StopOne
    | StoppedAll
    | SpawnOk(spawnedAs: SessionId)
    | SpawnErr
    | Register(facts: seq<Fact>)
    | Unlock
    | DropHandle
    | QueryFails
    | Finish

  /** The handle steps: how a caller comes by its initializer and gives it back. */
  ghost function DoLocks(w: World, c: CallerId, a: Action): Option<(Locks, Pc)> {
    var pc, l := w.PcOf(c), w.locks;
    match a
    case Retain =>
      if pc.Wanting? && l.initLock.None? then
        var kept := map k | k in l.initializers && Held(w, l.initializers[k]) :: l.initializers[k];
        Some((Locks(kept, Some(c), l.guards, l.nextInit), Retained(pc.key)))
      else None
    case FindInitializer =>
      if pc.Retained? then
        if pc.key in l.initializers && Held(w, l.initializers[pc.key]) then
          Some((Locks(l.initializers, None, l.guards, l.nextInit), Waiting(pc.key, l.initializers[pc.key])))
        else
          Some((Locks(l.initializers[pc.key := l.nextInit], None, l.guards, l.nextInit + 1),
                Waiting(pc.key, l.nextInit)))
      else None
    case LockInitializer =>
      if pc.Waiting? && pc.init !in l.guards then
        Some((Locks(l.initializers, l.initLock, l.guards[pc.init := c], l.nextInit), Guarded(pc.key, pc.init, w.clock)))
      else None
    case Unlock =>
      if pc.Leaving? then
        Some((Locks(l.initializers, l.initLock, l.guards - {pc.init}, l.nextInit),
              Released(pc.key, pc.init, pc.result)))
      else None
    case DropHandle =>
      if pc.Released? then Some((l, if pc.result.Some? then Using(pc.key, pc.result.value) else Idle)) else None
    case Call(key) => if pc.Idle? then Some((l, Wanting(key))) else None
    case Finish => if pc.Using? then Some((l, Idle)) else None
    case _ => None
  }

  /** The session steps: lookup, stop, spawn, entry, eviction after a failed query. */
  ghost function DoSessions(w: World, c: CallerId, a: Action): Option<(Sessions, Pc)> {
    var pc, t := w.PcOf(c), w.sessions;
    match a
    case Look(facts) =>
      if pc.Guarded? && Lists(facts, t.registry, t.alive) then
        var (registry, cached) := LookedUp(t.registry, facts, pc.key, pc.now);
        var expired := SessionsOf(t.registry, SelectEvictions(facts, pc.key, pc.now));
        Some((Sessions(registry, t.spawned, t.alive, t.stopped), StoppingExpired(pc.key, pc.init, expired, cached)))
      else None
    case StopOne =>
      match pc {
        case StoppingExpired(key, init, doomed, cached) =>
          if doomed == [] then None else Some((t.Stop(doomed[0]), StoppingExpired(key, init, doomed[1..], cached)))
        case StoppingEvicted(key, init, doomed, session) =>
          if doomed == [] then None else Some((t.Stop(doomed[0]), StoppingEvicted(key, init, doomed[1..], session)))
        case Evicting(doomed) =>
          if doomed == [] then None else Some((t.Stop(doomed[0]), Evicting(doomed[1..])))
        case _ => None
      }
    case StoppedAll =>
      match pc {
        case StoppingExpired(key, init, doomed, cached) =>
          if doomed != [] then None
          else Some((t, if cached.Some? then Leaving(key, init, cached) else Spawning(key, init)))
        case StoppingEvicted(key, init, doomed, session) =>
          if doomed != [] then None else Some((t, Leaving(key, init, Some(session))))
        case Evicting(doomed) =>
          if doomed != [] then None else Some((t, Idle))
        case _ => None
      }
    case SpawnOk(s) =>
      if pc.Spawning? && s !in t.spawned then
        Some((Sessions(t.registry, t.spawned[s := pc.key], t.alive + {s}, t.stopped), Created(pc.key, pc.init, s)))
      else None
    case SpawnErr =>
      if pc.Spawning? then Some((t, Leaving(pc.key, pc.init, None))) else None
    case Register(facts) =>
      if pc.Created? && Lists(facts, t.registry, t.alive) then
        var registry := Entered(t.registry, facts, pc.key, pc.session, w.clock);
        var evicted := SessionsOf(t.registry, SelectEvictions(facts, pc.key, w.clock));
        Some((Sessions(registry, t.spawned, t.alive, t.stopped), StoppingEvicted(pc.key, pc.init, evicted, pc.session)))
      else None
    case QueryFails =>
      if pc.Using? then
        if pc.key in t.registry && t.registry[pc.key].session == pc.session then
          Some((Sessions(t.registry - {pc.key}, t.spawned, t.alive, t.stopped), Evicting([pc.session])))
        else Some((t, Evicting([])))
      else None
    case _ => None
  }

  ghost predicate LockStep(w: World, c: CallerId, a: Action, w': World) {
    DoLocks(w, c, a).Some? && w' == w.At(c, DoLocks(w, c, a).value.1, DoLocks(w, c, a).value.0, w.sessions)
  }

  ghost predicate SessionStep(w: World, c: CallerId, a: Action, w': World) {
    DoSessions(w, c, a).Some? && w' == w.At(c, DoSessions(w, c, a).value.1, w.locks, DoSessions(w, c, a).value.0)
  }

  ghost predicate Next(w: World, w': World) {
    || (exists c, a :: LockStep(w, c, a, w'))
    || (exists c, a :: SessionStep(w, c, a, w'))
    || (exists s :: w' == ServerDied(w, s))
    || w' == World(w.clock + 1, w.locks, w.sessions, w.pcs)
  }

  function ServerDied(w: World, s: SessionId): World {
    var t := w.sessions;
    World(w.clock, w.locks, Sessions(t.registry, t.spawned, t.alive - {s}, t.stopped), w.pcs)
  }

  ghost predicate IsRun(run: seq<World>) {
    && run != []
    && run[0] == START
    && forall i, j :: 0 <= i && j == i + 1 < |run| ==> Next(run[i], run[j])
  }

  // ------------------------------------------------------------------ invariant

  /** Whoever holds a handle holds the one its key maps to; a guard belongs to one caller. */
  ghost predicate Handles(w: World) {
    var l := w.locks;
    && (forall c: CallerId :: HandleOf(w.PcOf(c)).Some? ==>
          var h := HandleOf(w.PcOf(c)).value; h.key in l.initializers && l.initializers[h.key] == h.init)
    && (forall k :: k in l.initializers ==> l.initializers[k] < l.nextInit)
    && (forall k, m :: k in l.initializers && m in l.initializers && l.initializers[k] == l.initializers[m] ==> k == m)
    && (forall c: CallerId :: w.PcOf(c).Retained? <==> l.initLock == Some(c))
    && (forall c: CallerId :: GuardOf(w.PcOf(c)).Some? ==> Guards(l, c, GuardOf(w.PcOf(c)).value.init))
    && (forall i: InitId :: i in l.guards ==> i < l.nextInit)
  }

  predicate Guards(l: Locks, c: CallerId, i: InitId) {
    i in l.guards && l.guards[i] == c
  }

  ghost predicate Registered(t: Sessions, s: SessionId) {
    s in t.spawned && t.spawned[s] in t.registry && t.registry[t.spawned[s]].session == s
  }

  ghost predicate HeldByCreator(w: World, s: SessionId) {
    exists c: CallerId :: CreatedBy(w.PcOf(c)) == Some(s)
  }

  ghost predicate HandedToStop(w: World, s: SessionId) {
    exists c: CallerId :: s in DoomedBy(w.PcOf(c))
  }

  /** Spawned, and neither stopped nor about to be. */
  ghost predicate Live(w: World, s: SessionId) {
    s in w.sessions.spawned && s !in w.sessions.stopped && !HandedToStop(w, s)
  }

  function CreatedBy(pc: Pc): Option<SessionId> {
    if pc.Created? then Some(pc.session) else None
  }

  /** The session a caller has been or is about to be given. */
  function ResultOf(pc: Pc): Option<SessionId> {
    if pc.StoppingExpired? then pc.cached
    else if pc.StoppingEvicted? || pc.Using? then Some(pc.session)
    else if pc.Leaving? || pc.Released? then pc.result
    else None
  }

  predicate SpawnedFor(t: Sessions, s: SessionId, k: Key) {
    s in t.spawned && t.spawned[s] == k
  }

  ghost predicate Entries(w: World) {
    forall k :: k in w.sessions.registry ==>
      SpawnedFor(w.sessions, w.sessions.registry[k].session, k) && Live(w, w.sessions.registry[k].session)
  }

  ghost predicate Creators(w: World) {
    && (forall c: CallerId :: MakesSession(w.PcOf(c)) ==> w.PcOf(c).key !in w.sessions.registry)
    && (forall c: CallerId :: CreatedBy(w.PcOf(c)).Some? ==>
          SpawnedFor(w.sessions, w.PcOf(c).session, w.PcOf(c).key) && Live(w, w.PcOf(c).session))
  }

  ghost predicate Accounted(w: World) {
    && (forall s: SessionId :: s in w.sessions.spawned ==>
          Registered(w.sessions, s) || HeldByCreator(w, s) || HandedToStop(w, s) || s in w.sessions.stopped)
    && (forall c: CallerId, s: SessionId :: s in DoomedBy(w.PcOf(c)) ==> s in w.sessions.spawned)
    && (forall s: SessionId :: s in w.sessions.stopped ==> s in w.sessions.spawned)
  }

  ghost predicate Results(w: World) {
    forall c: CallerId :: ResultOf(w.PcOf(c)).Some? ==> SpawnedFor(w.sessions, ResultOf(w.PcOf(c)).value, w.PcOf(c).key)
  }

  ghost predicate PlacesHold(w: World) {
    && |w.sessions.registry| <= MAX_SESSIONS
    && Entries(w)
    && Creators(w)
    && Accounted(w)
    && Results(w)
  }

  ghost predicate Inv(w: World) {
    Handles(w) && PlacesHold(w)
  }

  // ------------------------------------------------------- the handles are kept

  lemma HeldSurvives(w: World, c: CallerId, w': World)
    requires Handles(w) && LockStep(w, c, Retain, w')
    ensures forall d: CallerId :: HandleOf(w'.PcOf(d)) == HandleOf(w.PcOf(d))
    ensures forall d: CallerId :: HandleOf(w'.PcOf(d)).Some? ==>
              var h := HandleOf(w'.PcOf(d)).value;
              h.key in w'.locks.initializers && w'.locks.initializers[h.key] == h.init
  {
    forall d: CallerId | HandleOf(w'.PcOf(d)).Some?
      ensures var h := HandleOf(w'.PcOf(d)).value;
              h.key in w'.locks.initializers && w'.locks.initializers[h.key] == h.init
    {
      assert HandleOf(w.PcOf(d)) == HandleOf(w'.PcOf(d));
      assert Held(w, HandleOf(w.PcOf(d)).value.init);
    }
  }

  lemma RetainHandles(w: World, c: CallerId, w': World)
    requires Handles(w) && LockStep(w, c, Retain, w')
    ensures Handles(w')
  {
    assert forall d: CallerId :: w'.PcOf(d) == if d == c then Retained(w.PcOf(c).key) else w.PcOf(d);
    HeldSurvives(w, c, w');
  }

  /** A fresh initializer is made only when nobody holds a handle for the key. */
  lemma FindHandles(w: World, c: CallerId, w': World)
    requires Handles(w) && LockStep(w, c, FindInitializer, w')
    ensures Handles(w')
  {
    var key, l := w.PcOf(c).key, w.locks;
    assert forall d: CallerId :: d != c ==> w'.PcOf(d) == w.PcOf(d);
    assert w'.PcOf(c).Waiting? && w'.PcOf(c).key == key;
    if !(key in l.initializers && Held(w, l.initializers[key])) {
      forall d: CallerId | d != c && HandleOf(w.PcOf(d)).Some?
        ensures HandleOf(w.PcOf(d)).value.key != key
      {
        if HandleOf(w.PcOf(d)).value.key == key {
          assert Held(w, l.initializers[key]);
        }
      }
    }
  }

  lemma UnlockHandles(w: World, c: CallerId, w': World)
    requires Handles(w) && LockStep(w, c, Unlock, w')
    ensures Handles(w')
  {
    var pc := w.PcOf(c);
    assert forall d: CallerId :: w'.PcOf(d) == if d == c then Released(pc.key, pc.init, pc.result) else w.PcOf(d);
    forall d: CallerId | GuardOf(w'.PcOf(d)).Some?
      ensures Guards(w'.locks, d, GuardOf(w'.PcOf(d)).value.init)
    {
      assert Guards(w.locks, d, GuardOf(w.PcOf(d)).value.init);
      assert Guards(w.locks, c, pc.init);
    }
  }

  lemma GuardHandles(w: World, c: CallerId, w': World)
    requires Handles(w) && LockStep(w, c, LockInitializer, w')
    ensures Handles(w')
  {
    var pc := w.PcOf(c);
    assert forall d: CallerId :: w'.PcOf(d) == if d == c then Guarded(pc.key, pc.init, w.clock) else w.PcOf(d);
    forall d: CallerId | GuardOf(w'.PcOf(d)).Some?
      ensures Guards(w'.locks, d, GuardOf(w'.PcOf(d)).value.init)
    {
      assert d != c ==> Guards(w.locks, d, GuardOf(w.PcOf(d)).value.init);
    }
  }

  /** These steps only drop what a caller holds. */
  lemma LeaveHandles(w: World, c: CallerId, a: Action, w': World)
    requires Handles(w) && LockStep(w, c, a, w') && (a.DropHandle? || a.Call? || a.Finish?)
    ensures Handles(w')
  {
    var pc' := DoLocks(w, c, a).value.1;
    assert HandleOf(pc').None? && GuardOf(pc').None? && !pc'.Retained? && !w.PcOf(c).Retained?;
    assert forall d: CallerId :: w'.PcOf(d) == if d == c then pc' else w.PcOf(d);
  }

  lemma LockHandles(w: World, c: CallerId, a: Action, w': World)
    requires Handles(w) && LockStep(w, c, a, w')
    ensures Handles(w')
  {
    match a
    case Retain => RetainHandles(w, c, w');
    case FindInitializer => FindHandles(w, c, w');
    case LockInitializer => GuardHandles(w, c, w');
    case Unlock => UnlockHandles(w, c, w');
    case DropHandle => LeaveHandles(w, c, a, w');
    case Call(_) => LeaveHandles(w, c, a, w');
    case Finish => LeaveHandles(w, c, a, w');
    case _ =>
  }

  lemma SessionStepPc(w: World, c: CallerId, a: Action, w': World)
    requires SessionStep(w, c, a, w')
    ensures HandleOf(w'.PcOf(c)) == HandleOf(w.PcOf(c)) && GuardOf(w'.PcOf(c)) == GuardOf(w.PcOf(c))
    ensures !w.PcOf(c).Retained? && !w'.PcOf(c).Retained?
    ensures forall d: CallerId :: d != c ==> w'.PcOf(d) == w.PcOf(d)
  {
  }

  lemma SessionHandles(w: World, c: CallerId, a: Action, w': World)
    requires Handles(w) && SessionStep(w, c, a, w')
    ensures Handles(w')
  {
    SessionStepPc(w, c, a, w');
  }

  // -------------------------------------------------------- the places are kept

  /** What a handle step does to its caller's place: nothing that matters to a session. */
  ghost predicate SamePlace(w: World, c: CallerId, w': World) {
    var pc, pc' := w.PcOf(c), w'.PcOf(c);
    && w'.sessions == w.sessions
    && (forall d: CallerId :: d != c ==> w'.PcOf(d) == w.PcOf(d))
    && DoomedBy(pc') == DoomedBy(pc) && CreatedBy(pc') == CreatedBy(pc) && !MakesSession(pc')
    && (ResultOf(pc').Some? ==> ResultOf(pc') == ResultOf(pc) && pc'.key == pc.key)
  }

  lemma LockStepPlace(w: World, c: CallerId, a: Action, w': World)
    requires LockStep(w, c, a, w')
    ensures SamePlace(w, c, w')
  {
  }

  lemma EntriesStay(w: World, c: CallerId, w': World)
    requires Entries(w) && Results(w) && SamePlace(w, c, w')
    ensures Entries(w') && Results(w')
  {
  }

  /** A handle step leaves every session where it is. */
  lemma LockPlaces(w: World, c: CallerId, a: Action, w': World)
    requires PlacesHold(w) && LockStep(w, c, a, w')
    ensures PlacesHold(w')
  {
    LockStepPlace(w, c, a, w');
    EntriesStay(w, c, w');
  }

  lemma {:induction false} SessionsOfAre(reg: Registry, keys: seq<Key>, s: SessionId)
    ensures s in SessionsOf(reg, keys) <==> exists k :: k in keys && k in reg && reg[k].session == s
  {
    if keys != [] {
      SessionsOfAre(reg, keys[..|keys| - 1], s);
      assert keys == keys[..|keys| - 1] + [keys[|keys| - 1]];
    }
  }

  /** What evictions remove from the registry is exactly what they hand to stop. */
  lemma EvictedSessions(w: World, keys: seq<Key>)
    requires Entries(w)
    ensures forall s: SessionId :: s in SessionsOf(w.sessions.registry, keys) <==>
                          Registered(w.sessions, s) && w.sessions.spawned[s] in keys
  {
    forall s: SessionId
      ensures s in SessionsOf(w.sessions.registry, keys) <==>
                Registered(w.sessions, s) && w.sessions.spawned[s] in keys
    {
      SessionsOfAre(w.sessions.registry, keys, s);
    }
  }

  lemma ListedKeys(facts: seq<Fact>, reg: Registry, alive: set<SessionId>)
    requires Lists(facts, reg, alive)
    ensures (set i | 0 <= i < |facts| :: facts[i].key) == reg.Keys
  {
    var keys := seq(|facts|, i requires 0 <= i < |facts| => facts[i].key);
    assert Distinct(keys);
    DistinctCardinality(keys);
    assert Elements(keys) <= reg.Keys;
    SubsetCardinality(Elements(keys), reg.Keys);
    assert forall k :: k in Elements(keys) ==> k in (set i | 0 <= i < |facts| :: facts[i].key);
  }

  /** After the evictions there is room for a key that had no entry. */
  lemma KeptSize(facts: seq<Fact>, reg: Registry, alive: set<SessionId>, key: Key, now: nat)
    requires Lists(facts, reg, alive) && |reg| <= MAX_SESSIONS
    ensures |Kept(reg, facts, key, now)| <= |reg|
    ensures key !in reg ==> |Kept(reg, facts, key, now)| < MAX_SESSIONS
  {
    var evictions := SelectEvictions(facts, key, now);
    var kept := Kept(reg, facts, key, now);
    SubsetCardinality(kept.Keys, reg.Keys);
    if key !in reg {
      ListedKeys(facts, reg, alive);
      EvictionMakesRoom(facts, key, now);
      DistinctCardinality(evictions);
      assert kept.Keys == reg.Keys - Elements(evictions);
    }
  }

  /** Only the stepping caller's own hand changes. */
  lemma HandsAfter(w: World, c: CallerId, w': World)
    requires forall d: CallerId :: d != c ==> w'.PcOf(d) == w.PcOf(d)
    ensures forall s: SessionId :: HandedToStop(w', s) ==> HandedToStop(w, s) || s in DoomedBy(w'.PcOf(c))
    ensures forall s: SessionId :: s in DoomedBy(w'.PcOf(c)) ==> HandedToStop(w', s)
    ensures forall s: SessionId :: HandedToStop(w, s) && s !in DoomedBy(w.PcOf(c)) ==> HandedToStop(w', s)
    ensures forall s: SessionId :: CreatedBy(w'.PcOf(c)) == Some(s) ==> HeldByCreator(w', s)
    ensures forall s: SessionId :: HeldByCreator(w, s) && CreatedBy(w.PcOf(c)) != Some(s) ==> HeldByCreator(w', s)
  {
    forall s: SessionId | HandedToStop(w', s)
      ensures HandedToStop(w, s) || s in DoomedBy(w'.PcOf(c))
    {
      var d :| s in DoomedBy(w'.PcOf(d));
      assert d != c ==> s in DoomedBy(w.PcOf(d));
    }
    forall s: SessionId | HandedToStop(w, s) && s !in DoomedBy(w.PcOf(c))
      ensures HandedToStop(w', s)
    {
      var d :| s in DoomedBy(w.PcOf(d));
      assert s in DoomedBy(w'.PcOf(d));
    }
    forall s: SessionId | HeldByCreator(w, s) && CreatedBy(w.PcOf(c)) != Some(s)
      ensures HeldByCreator(w', s)
    {
      var d :| CreatedBy(w.PcOf(d)) == Some(s);
      assert CreatedBy(w'.PcOf(d)) == Some(s);
    }
  }

  /** The stepping caller takes the sessions registered under `keys` into its hand; no session is new or stopped. */
  ghost predicate Takes(w: World, c: CallerId, w': World, keys: seq<Key>) {
    && (forall d: CallerId :: d != c ==> w'.PcOf(d) == w.PcOf(d))
    && w'.sessions.spawned == w.sessions.spawned && w'.sessions.stopped == w.sessions.stopped
    && DoomedBy(w.PcOf(c)) == [] && CreatedBy(w'.PcOf(c)).None?
    && (forall s: SessionId :: s in DoomedBy(w'.PcOf(c)) <==>
          Registered(w.sessions, s) && w.sessions.spawned[s] in keys)
  }

  lemma TakesCreators(w: World, c: CallerId, w': World, keys: seq<Key>)
    requires Entries(w) && Creators(w) && Takes(w, c, w', keys)
    requires forall d: CallerId :: MakesSession(w'.PcOf(d)) ==> w'.PcOf(d).key !in w'.sessions.registry
    ensures Creators(w')
  {
    HandsAfter(w, c, w');
    forall d: CallerId | CreatedBy(w'.PcOf(d)).Some?
      ensures SpawnedFor(w'.sessions, w'.PcOf(d).session, w'.PcOf(d).key) && Live(w', w'.PcOf(d).session)
    {
      assert w'.PcOf(d) == w.PcOf(d) && MakesSession(w.PcOf(d));
    }
  }

  lemma TakesAccounted(w: World, c: CallerId, w': World, keys: seq<Key>)
    requires Accounted(w) && Takes(w, c, w', keys)
    requires forall k :: k in w.sessions.registry && k !in keys ==>
               k in w'.sessions.registry && w'.sessions.registry[k].session == w.sessions.registry[k].session
    requires CreatedBy(w.PcOf(c)).Some? ==> Registered(w'.sessions, w.PcOf(c).session)
    ensures Accounted(w')
  {
    HandsAfter(w, c, w');
    forall s: SessionId | s in w'.sessions.spawned
      ensures Registered(w'.sessions, s) || HeldByCreator(w', s) || HandedToStop(w', s) || s in w'.sessions.stopped
    {
      assert Registered(w.sessions, s) || HeldByCreator(w, s) || HandedToStop(w, s) || s in w.sessions.stopped;
    }
  }

  /** Entries leave the registry for the stepping caller's hand. */
  ghost predicate Shrinks(w: World, c: CallerId, w': World, keys: seq<Key>) {
    && Takes(w, c, w', keys)
    && CreatedBy(w.PcOf(c)).None?
    && w'.sessions.registry.Keys == w.sessions.registry.Keys - Elements(keys)
    && (forall k :: k in w'.sessions.registry ==> w'.sessions.registry[k].session == w.sessions.registry[k].session)
    && (MakesSession(w'.PcOf(c)) ==> w'.PcOf(c).key !in w'.sessions.registry)
    && (ResultOf(w'.PcOf(c)).Some? ==> SpawnedFor(w.sessions, ResultOf(w'.PcOf(c)).value, w'.PcOf(c).key))
  }

  lemma ShrinksOthers(w: World, c: CallerId, w': World, keys: seq<Key>)
    requires Creators(w) && Results(w) && Shrinks(w, c, w', keys) && |w.sessions.registry| <= MAX_SESSIONS
    ensures Results(w') && |w'.sessions.registry| <= MAX_SESSIONS
    ensures forall d: CallerId :: MakesSession(w'.PcOf(d)) ==> w'.PcOf(d).key !in w'.sessions.registry
  {
    SubsetCardinality(w'.sessions.registry.Keys, w.sessions.registry.Keys);
  }

  lemma RegistryShrinks(w: World, c: CallerId, w': World, keys: seq<Key>)
    requires PlacesHold(w) && Shrinks(w, c, w', keys)
    ensures PlacesHold(w')
  {
    ShrinksOthers(w, c, w', keys);
    TakesCreators(w, c, w', keys);
    TakesAccounted(w, c, w', keys);
  }

  lemma LookTakes(w: World, c: CallerId, facts: seq<Fact>, w': World)
    requires Entries(w) && SessionStep(w, c, Look(facts), w')
    ensures Takes(w, c, w', SelectEvictions(facts, w.PcOf(c).key, w.PcOf(c).now))
  {
    EvictedSessions(w, SelectEvictions(facts, w.PcOf(c).key, w.PcOf(c).now));
  }

  lemma LookShrinks(w: World, c: CallerId, facts: seq<Fact>, w': World)
    requires Entries(w) && SessionStep(w, c, Look(facts), w')
    ensures Shrinks(w, c, w', SelectEvictions(facts, w.PcOf(c).key, w.PcOf(c).now))
  {
    var pc, t := w.PcOf(c), w.sessions;
    LookTakes(w, c, facts, w');
  }

  lemma LookPlaces(w: World, c: CallerId, facts: seq<Fact>, w': World)
    requires PlacesHold(w) && SessionStep(w, c, Look(facts), w')
    ensures PlacesHold(w')
  {
    LookShrinks(w, c, facts, w');
    RegistryShrinks(w, c, w', SelectEvictions(facts, w.PcOf(c).key, w.PcOf(c).now));
  }

  /** The stepping caller stops the next session in its hand. */
  ghost predicate StopsOne(w: World, c: CallerId, first: SessionId, rest: seq<SessionId>, w': World) {
    var pc, pc' := w.PcOf(c), w'.PcOf(c);
    && (forall d: CallerId :: d != c ==> w'.PcOf(d) == w.PcOf(d))
    && w'.sessions == w.sessions.Stop(first)
    && DoomedBy(pc) == [first] + rest && DoomedBy(pc') == rest
    && CreatedBy(pc) == CreatedBy(pc') == None
    && (MakesSession(pc') ==> MakesSession(pc) && pc'.key == pc.key)
    && (ResultOf(pc').Some? ==> ResultOf(pc') == ResultOf(pc) && pc'.key == pc.key)
  }

  lemma StopOneHands(w: World, c: CallerId, first: SessionId, rest: seq<SessionId>, w': World)
    requires StopsOne(w, c, first, rest, w')
    ensures HandedToStop(w, first) && forall s: SessionId :: Live(w, s) ==> Live(w', s)
  {
    HandsAfter(w, c, w');
    assert first in DoomedBy(w.PcOf(c));
    forall s: SessionId | Live(w, s)
      ensures Live(w', s)
    {
      assert s in DoomedBy(w'.PcOf(c)) ==> s in DoomedBy(w.PcOf(c));
    }
  }

  lemma StopOneCreators(w: World, c: CallerId, first: SessionId, rest: seq<SessionId>, w': World)
    requires Entries(w) && Creators(w) && Results(w) && StopsOne(w, c, first, rest, w')
    ensures Entries(w') && Creators(w') && Results(w')
  {
    StopOneHands(w, c, first, rest, w');
  }

  lemma StopOneAccounted(w: World, c: CallerId, first: SessionId, rest: seq<SessionId>, w': World)
    requires Accounted(w) && StopsOne(w, c, first, rest, w')
    ensures Accounted(w')
  {
    HandsAfter(w, c, w');
    assert first in DoomedBy(w.PcOf(c));
    forall s: SessionId | s in w'.sessions.spawned
      ensures Registered(w'.sessions, s) || HeldByCreator(w', s) || HandedToStop(w', s) || s in w'.sessions.stopped
    {
      assert Registered(w.sessions, s) || HeldByCreator(w, s) || HandedToStop(w, s) || s in w.sessions.stopped;
    }
  }

  lemma StopOnePlaces(w: World, c: CallerId, first: SessionId, rest: seq<SessionId>, w': World)
    requires PlacesHold(w) && StopsOne(w, c, first, rest, w')
    ensures PlacesHold(w')
  {
    StopOneCreators(w, c, first, rest, w');
    StopOneAccounted(w, c, first, rest, w');
  }

  /** Steps that only move a caller on. */
  lemma MovedOnPlaces(w: World, c: CallerId, w': World)
    requires PlacesHold(w) && w'.sessions == w.sessions
    requires forall d: CallerId :: d != c ==> w'.PcOf(d) == w.PcOf(d)
    requires DoomedBy(w.PcOf(c)) == DoomedBy(w'.PcOf(c)) && CreatedBy(w.PcOf(c)) == CreatedBy(w'.PcOf(c))
    requires MakesSession(w'.PcOf(c)) ==> MakesSession(w.PcOf(c)) && w'.PcOf(c).key == w.PcOf(c).key
    requires ResultOf(w'.PcOf(c)).Some? ==>
               ResultOf(w'.PcOf(c)) == ResultOf(w.PcOf(c)) && w'.PcOf(c).key == w.PcOf(c).key
    ensures PlacesHold(w')
  {
    assert Creators(w') by {
      forall d: CallerId | CreatedBy(w'.PcOf(d)).Some?
        ensures w'.PcOf(d) == w.PcOf(d) || d == c
      {
      }
    }
  }

  lemma StopPlaces(w: World, c: CallerId, a: Action, w': World)
    requires PlacesHold(w) && (a.StopOne? || a.StoppedAll?) && SessionStep(w, c, a, w')
    ensures PlacesHold(w')
  {
    assert forall d: CallerId :: d != c ==> w'.PcOf(d) == w.PcOf(d);
    var doomed := DoomedBy(w.PcOf(c));
    if a.StopOne? {
      assert doomed == [doomed[0]] + doomed[1..];
      StopOnePlaces(w, c, doomed[0], doomed[1..], w');
    } else {
      MovedOnPlaces(w, c, w');
    }
  }

  ghost predicate Spawns(w: World, c: CallerId, s: SessionId, w': World) {
    var pc, t := w.PcOf(c), w.sessions;
    && pc.Spawning? && s !in t.spawned
    && w'.sessions == Sessions(t.registry, t.spawned[s := pc.key], t.alive + {s}, t.stopped)
    && w'.PcOf(c) == Created(pc.key, pc.init, s)
    && (forall d: CallerId :: d != c ==> w'.PcOf(d) == w.PcOf(d))
  }

  lemma SpawnsCreators(w: World, c: CallerId, s: SessionId, w': World)
    requires Creators(w) && Accounted(w) && Spawns(w, c, s, w')
    ensures Creators(w')
  {
    HandsAfter(w, c, w');
  }

  lemma SpawnsAccounted(w: World, c: CallerId, s: SessionId, w': World)
    requires Accounted(w) && Spawns(w, c, s, w')
    ensures Accounted(w')
  {
    HandsAfter(w, c, w');
    forall d: CallerId, r: SessionId | r in DoomedBy(w'.PcOf(d))
      ensures r in w'.sessions.spawned
    {
      assert r in DoomedBy(w.PcOf(d));
    }
  }

  lemma SpawnsEntries(w: World, c: CallerId, s: SessionId, w': World)
    requires Entries(w) && Results(w) && Spawns(w, c, s, w')
    ensures Entries(w') && Results(w')
  {
    HandsAfter(w, c, w');
  }

  lemma SpawnPlaces(w: World, c: CallerId, s: SessionId, w': World)
    requires PlacesHold(w) && SessionStep(w, c, SpawnOk(s), w')
    ensures PlacesHold(w')
  {
    assert Spawns(w, c, s, w');
    SpawnsEntries(w, c, s, w');
    SpawnsCreators(w, c, s, w');
    SpawnsAccounted(w, c, s, w');
  }

  /** Two callers on their way to making a session for one key would be one caller. */
  lemma OneMaker(w: World, c: CallerId, d: CallerId)
    requires Handles(w) && MakesSession(w.PcOf(c)) && MakesSession(w.PcOf(d)) && w.PcOf(c).key == w.PcOf(d).key
    ensures c == d
  {
    assert Guards(w.locks, c, w.PcOf(c).init) && Guards(w.locks, d, w.PcOf(d).init);
  }

  /** The session just made enters the registry, and `keys` leave it. */
  ghost predicate Swaps(w: World, c: CallerId, w': World, keys: seq<Key>) {
    && Takes(w, c, w', keys)
    && w.PcOf(c).Created?
    && |w'.sessions.registry| <= MAX_SESSIONS
    && (forall d: CallerId :: d != c && MakesSession(w.PcOf(d)) ==> w.PcOf(d).key != w.PcOf(c).key)
    && w'.sessions.registry.Keys == (w.sessions.registry.Keys - Elements(keys)) + {w.PcOf(c).key}
    && (forall k :: k in w'.sessions.registry && k != w.PcOf(c).key ==>
          w'.sessions.registry[k].session == w.sessions.registry[k].session)
    && w'.sessions.registry[w.PcOf(c).key].session == w.PcOf(c).session
    && w'.PcOf(c).StoppingEvicted?
    && w'.PcOf(c).session == w.PcOf(c).session && w'.PcOf(c).key == w.PcOf(c).key
  }

  lemma SwapsOthers(w: World, c: CallerId, w': World, keys: seq<Key>)
    requires Creators(w) && Results(w) && Swaps(w, c, w', keys)
    ensures Results(w') && Registered(w'.sessions, w.PcOf(c).session)
    ensures forall d: CallerId :: MakesSession(w'.PcOf(d)) ==> w'.PcOf(d).key !in w'.sessions.registry
  {
    assert CreatedBy(w.PcOf(c)) == Some(w.PcOf(c).session) && MakesSession(w.PcOf(c));
  }

  lemma SwapsAccounted(w: World, c: CallerId, w': World, keys: seq<Key>)
    requires Accounted(w) && Creators(w) && Swaps(w, c, w', keys) && Registered(w'.sessions, w.PcOf(c).session)
    ensures Accounted(w')
  {
    assert MakesSession(w.PcOf(c));
    TakesAccounted(w, c, w', keys);
  }

  lemma SwapsEntries(w: World, c: CallerId, w': World, keys: seq<Key>)
    requires Entries(w) && Creators(w) && Swaps(w, c, w', keys)
    ensures Entries(w')
  {
    HandsAfter(w, c, w');
    assert CreatedBy(w.PcOf(c)) == Some(w.PcOf(c).session) && MakesSession(w.PcOf(c));
  }

  lemma RegistrySwaps(w: World, c: CallerId, w': World, keys: seq<Key>)
    requires PlacesHold(w) && Swaps(w, c, w', keys)
    ensures PlacesHold(w')
  {
    SwapsEntries(w, c, w', keys);
    SwapsOthers(w, c, w', keys);
    SwapsAccounted(w, c, w', keys);
    TakesCreators(w, c, w', keys);
  }

  lemma RegisterTakes(w: World, c: CallerId, facts: seq<Fact>, w': World)
    requires Entries(w) && SessionStep(w, c, Register(facts), w')
    ensures Takes(w, c, w', SelectEvictions(facts, w.PcOf(c).key, w.clock))
  {
    EvictedSessions(w, SelectEvictions(facts, w.PcOf(c).key, w.clock));
  }

  lemma EnteredFacts(reg: Registry, facts: seq<Fact>, alive: set<SessionId>, key: Key, session: SessionId, now: nat)
    requires Lists(facts, reg, alive) && |reg| <= MAX_SESSIONS && key !in reg
    ensures var reg' := Entered(reg, facts, key, session, now);
            && |reg'| <= MAX_SESSIONS
            && reg'.Keys == (reg.Keys - Elements(SelectEvictions(facts, key, now))) + {key}
            && (forall k :: k in reg' && k != key ==> reg'[k].session == reg[k].session)
            && reg'[key].session == session
  {
    KeptSize(facts, reg, alive, key, now);
  }

  lemma RegisterSwaps(w: World, c: CallerId, facts: seq<Fact>, w': World)
    requires Handles(w) && Creators(w) && |w.sessions.registry| <= MAX_SESSIONS
    requires SessionStep(w, c, Register(facts), w') && Takes(w, c, w', SelectEvictions(facts, w.PcOf(c).key, w.clock))
    ensures Swaps(w, c, w', SelectEvictions(facts, w.PcOf(c).key, w.clock))
  {
    var pc, t := w.PcOf(c), w.sessions;
    EnteredFacts(t.registry, facts, t.alive, pc.key, pc.session, w.clock);
    forall d: CallerId | d != c && MakesSession(w.PcOf(d))
      ensures w.PcOf(d).key != pc.key
    {
      if w.PcOf(d).key == pc.key {
        OneMaker(w, c, d);
      }
    }
  }

  lemma RegisterPlaces(w: World, c: CallerId, facts: seq<Fact>, w': World)
    requires Handles(w) && PlacesHold(w) && SessionStep(w, c, Register(facts), w')
    ensures PlacesHold(w')
  {
    RegisterTakes(w, c, facts, w');
    RegisterSwaps(w, c, facts, w');
    RegistrySwaps(w, c, w', SelectEvictions(facts, w.PcOf(c).key, w.clock));
  }

  lemma QueryFailsPlaces(w: World, c: CallerId, w': World)
    requires PlacesHold(w) && SessionStep(w, c, QueryFails, w')
    ensures PlacesHold(w')
  {
    if w'.PcOf(c).doomed == [] {
      assert forall d: CallerId :: d != c ==> w'.PcOf(d) == w.PcOf(d);
      MovedOnPlaces(w, c, w');
    } else {
      RegistryShrinks(w, c, w', [w.PcOf(c).key]);
    }
  }

  lemma SessionPlaces(w: World, c: CallerId, a: Action, w': World)
    requires Handles(w) && PlacesHold(w) && SessionStep(w, c, a, w')
    ensures PlacesHold(w')
  {
    if a.Look? {
      LookPlaces(w, c, a.facts, w');
    } else if a.Register? {
      RegisterPlaces(w, c, a.facts, w');
    } else if a.QueryFails? {
      QueryFailsPlaces(w, c, w');
    } else if a.SpawnOk? {
      SpawnPlaces(w, c, a.spawnedAs, w');
    } else if a.SpawnErr? {
      assert forall d: CallerId :: d != c ==> w'.PcOf(d) == w.PcOf(d);
      MovedOnPlaces(w, c, w');
    } else {
      StopPlaces(w, c, a, w');
    }
  }

  lemma QuietInv(w: World, w': World)
    requires Inv(w) && w'.locks == w.locks && w'.pcs == w.pcs
    requires w'.sessions == Sessions(w.sessions.registry, w.sessions.spawned, w'.sessions.alive, w.sessions.stopped)
    ensures Inv(w')
  {
    assert forall d: CallerId :: w'.PcOf(d) == w.PcOf(d);
  }

  lemma NextInv(w: World, w': World)
    requires Inv(w) && Next(w, w')
    ensures Inv(w')
  {
    if c, a :| LockStep(w, c, a, w') {
      LockHandles(w, c, a, w');
      LockPlaces(w, c, a, w');
    } else if c, a :| SessionStep(w, c, a, w') {
      SessionHandles(w, c, a, w');
      SessionPlaces(w, c, a, w');
    } else {
      QuietInv(w, w');
    }
  }

  lemma StartInv()
    ensures Inv(START)
  {
  }

  lemma RunStep(run: seq<World>, i: nat)
    requires IsRun(run) && i + 1 < |run|
    ensures Next(run[i], run[i + 1])
  {
  }

  lemma RunInv(run: seq<World>, i: nat)
    requires IsRun(run) && i < |run|
    ensures Inv(run[i])
  {
    StartInv();
    forall k: nat, m | m == k + 1 <= i && Inv(run[k])
      ensures Inv(run[m])
    {
      RunStep(run, k);
      NextInv(run[k], run[m]);
    }
    Runs.Stays(run, 0, i, (w: World) => Inv(w));
  }

  // --------------------------------------------------------------- main results

  /** Active callers hold the same initializer exactly when they asked for the same key. */
  lemma SameKeySameInitializer(run: seq<World>, i: nat, c: CallerId, d: CallerId)
    requires IsRun(run) && i < |run|
    requires HandleOf(run[i].PcOf(c)).Some? && HandleOf(run[i].PcOf(d)).Some?
    ensures HandleOf(run[i].PcOf(c)).value.init == HandleOf(run[i].PcOf(d)).value.init
            <==> HandleOf(run[i].PcOf(c)).value.key == HandleOf(run[i].PcOf(d)).value.key
  {
    RunInv(run, i);
  }

  /** At most one caller at a time is between lookup and entry for a key, so no two spawn for it. */
  lemma AtMostOneSpawning(run: seq<World>, i: nat, c: CallerId, d: CallerId)
    requires IsRun(run) && i < |run|
    requires MakesSession(run[i].PcOf(c)) && MakesSession(run[i].PcOf(d)) && run[i].PcOf(c).key == run[i].PcOf(d).key
    ensures c == d
  {
    RunInv(run, i);
    OneMaker(run[i], c, d);
  }

  /** The final insert meets no entry under its key, and the table stays within its bound. */
  lemma InsertNeverOverwrites(run: seq<World>, i: nat, c: CallerId)
    requires IsRun(run) && i < |run| && run[i].PcOf(c).Created?
    ensures run[i].PcOf(c).key !in run[i].sessions.registry
  {
    RunInv(run, i);
  }

  lemma RegistryBounded(run: seq<World>, i: nat)
    requires IsRun(run) && i < |run|
    ensures |run[i].sessions.registry| <= MAX_SESSIONS
  {
    RunInv(run, i);
  }

  /** No spawned session leaks. */
  lemma NoSessionLeaks(run: seq<World>, i: nat, s: SessionId)
    requires IsRun(run) && i < |run| && s in run[i].sessions.spawned
    ensures || Registered(run[i].sessions, s) || HeldByCreator(run[i], s) || HandedToStop(run[i], s)
            || s in run[i].sessions.stopped
    ensures Registered(run[i].sessions, s) ==> !HandedToStop(run[i], s) && s !in run[i].sessions.stopped
  {
    RunInv(run, i);
  }

  /** A key never has two sessions that are both still wanted. */
  lemma OneLiveSessionPerKey(run: seq<World>, i: nat, s: SessionId, r: SessionId)
    requires IsRun(run) && i < |run| && Live(run[i], s) && Live(run[i], r)
    requires run[i].sessions.spawned[s] == run[i].sessions.spawned[r]
    ensures s == r
  {
    RunInv(run, i);
    var w := run[i];
    if HeldByCreator(w, s) && HeldByCreator(w, r) {
      var c :| CreatedBy(w.PcOf(c)) == Some(s);
      var d :| CreatedBy(w.PcOf(d)) == Some(r);
      OneMaker(w, c, d);
    } else if HeldByCreator(w, s) {
      var c :| CreatedBy(w.PcOf(c)) == Some(s);
      assert MakesSession(w.PcOf(c));
    } else if HeldByCreator(w, r) {
      var d :| CreatedBy(w.PcOf(d)) == Some(r);
      assert MakesSession(w.PcOf(d));
    }
  }

  /** A caller is given a session of its own key; a cached one was running and registered when it was looked up. */
  lemma ResultsAreForTheKey(run: seq<World>, i: nat, c: CallerId)
    requires IsRun(run) && i < |run| && run[i].PcOf(c).Using?
    ensures SpawnedFor(run[i].sessions, run[i].PcOf(c).session, run[i].PcOf(c).key)
  {
    RunInv(run, i);
  }

  lemma CachedSessionIsAlive(run: seq<World>, i: nat, c: CallerId, facts: seq<Fact>)
    requires IsRun(run) && i < |run| && DoSessions(run[i], c, Look(facts)).Some?
    ensures DoSessions(run[i], c, Look(facts)).value.1.cached.Some? ==>
              && DoSessions(run[i], c, Look(facts)).value.1.cached.value in run[i].sessions.alive
              && Registered(run[i].sessions, DoSessions(run[i], c, Look(facts)).value.1.cached.value)
              && Live(run[i], DoSessions(run[i], c, Look(facts)).value.1.cached.value)
  {
    RunInv(run, i);
    var pc, t := run[i].PcOf(c), run[i].sessions;
    if pc.key in Kept(t.registry, facts, pc.key, pc.now) {
      ListedKeys(facts, t.registry, t.alive);
      var j :| 0 <= j < |facts| && facts[j].key == pc.key;
      EvictionDecision(facts, pc.key, pc.now, j);
    }
  }
}
