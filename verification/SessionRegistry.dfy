/**
 * The language-server session registry under concurrent callers.
 *
 * Every `session_for` call takes its key's initializer (a mutex the registry
 * holds only weakly), looks the key up, and if need be spawns a session and
 * enters it. Here are the registry's own critical sections, methods of a class
 * proved against functions; SessionProtocol runs its callers as a step system over
 * those functions.
 */
module SessionRegistry {
  import opened Wrappers
  import opened Sequences
  import opened SessionEvictions

  type CallerId = nat
  type InitId = nat

  datatype Entry = Entry(session: SessionId, lastUsed: nat)

  type Registry = map<Key, Entry>

  // ------------------------------------------------- one critical section at a time

  /** `facts` lists the registry's entries, each once, in whatever order the map yields them. */
  ghost predicate Lists(facts: seq<Fact>, reg: Registry, alive: set<SessionId>) {
    && DistinctKeys(facts)
    && |facts| == |reg|
    && forall i :: 0 <= i < |facts| ==>
         && facts[i].key in reg
         && facts[i] == Fact(facts[i].key, reg[facts[i].key].session in alive, reg[facts[i].key].lastUsed)
  }

  function SessionsOf(reg: Registry, keys: seq<Key>): seq<SessionId> {
    if keys == [] then []
    else
      var last := keys[|keys| - 1];
      SessionsOf(reg, keys[..|keys| - 1]) + if last in reg then [reg[last].session] else []
  }

  function Kept(reg: Registry, facts: seq<Fact>, key: Key, now: nat): Registry {
    reg - Elements(SelectEvictions(facts, key, now))
  }

  /** The lookup: evict, then refresh and return the entry of the key if it is still there. */
  function LookedUp(reg: Registry, facts: seq<Fact>, key: Key, now: nat): (Registry, Option<SessionId>) {
    var kept := Kept(reg, facts, key, now);
    if key in kept then (kept[key := kept[key].(lastUsed := now)], Some(kept[key].session)) else (kept, None)
  }

  function Entered(reg: Registry, facts: seq<Fact>, key: Key, session: SessionId, now: nat): Registry {
    Kept(reg, facts, key, now)[key := Entry(session, now)]
  }

  class SessionTable {
    var sessions: Registry

    constructor ()
      ensures sessions == map[]
    {
      sessions := map[];
    }

    method SessionFacts(alive: set<SessionId>) returns (facts: seq<Fact>)
      ensures Lists(facts, sessions, alive)
    {
      facts := [];
      var left := sessions.Keys;
      while left != {}
        invariant left <= sessions.Keys && |facts| + |left| == |sessions|
        invariant DistinctKeys(facts)
        invariant forall i :: 0 <= i < |facts| ==>
          facts[i].key in sessions && facts[i].key !in left
          && facts[i] == Fact(facts[i].key, sessions[facts[i].key].session in alive, sessions[facts[i].key].lastUsed)
        decreases left
      {
        var key :| key in left;
        facts := facts + [Fact(key, sessions[key].session in alive, sessions[key].lastUsed)];
        left := left - {key};
      }
    }

    method RemoveAll(keys: seq<Key>) returns (removed: seq<SessionId>)
      requires Distinct(keys)
      modifies this
      ensures sessions == old(sessions) - Elements(keys)
      ensures removed == SessionsOf(old(sessions), keys)
    {
      removed := [];
      for i := 0 to |keys|
        invariant sessions == old(sessions) - Elements(keys[..i])
        invariant removed == SessionsOf(old(sessions), keys[..i])
      {
        assert keys[..i + 1] == keys[..i] + [keys[i]];
        if keys[i] in sessions {
          removed := removed + [sessions[keys[i]].session];
          sessions := sessions - {keys[i]};
        }
        assert sessions == old(sessions) - Elements(keys[..i + 1]);
      }
      assert keys[..|keys|] == keys;
    }

    /** First critical section of `session_for`. */
    method Lookup(key: Key, now: nat, alive: set<SessionId>)
      returns (cached: Option<SessionId>, expired: seq<SessionId>)
      modifies this
      ensures exists facts :: Lists(facts, old(sessions), alive)
                && (sessions, cached) == LookedUp(old(sessions), facts, key, now)
                && expired == SessionsOf(old(sessions), SelectEvictions(facts, key, now))
    {
      var facts := SessionFacts(alive);
      var evictions := SelectEvictions(facts, key, now);
      SelectedAreDistinct(facts, key, now);
      expired := RemoveAll(evictions);
      if key in sessions {
        sessions := sessions[key := sessions[key].(lastUsed := now)];
        cached := Some(sessions[key].session);
      } else {
        cached := None;
      }
      assert (sessions, cached) == LookedUp(old(sessions), facts, key, now);
    }

    /** Second critical section of `session_for`. */
    method Enter(key: Key, session: SessionId, now: nat, alive: set<SessionId>) returns (evicted: seq<SessionId>)
      modifies this
      ensures exists facts :: Lists(facts, old(sessions), alive)
                && sessions == Entered(old(sessions), facts, key, session, now)
                && evicted == SessionsOf(old(sessions), SelectEvictions(facts, key, now))
    {
      var facts := SessionFacts(alive);
      var evictions := SelectEvictions(facts, key, now);
      SelectedAreDistinct(facts, key, now);
      evicted := RemoveAll(evictions);
      sessions := sessions[key := Entry(session, now)];
      assert sessions == Entered(old(sessions), facts, key, session, now);
    }

    /** Critical section of `evict_session`: only the very session that failed is removed. */
    method RemoveFailed(key: Key, failed: SessionId) returns (removed: Option<SessionId>)
      modifies this
      ensures removed == if key in old(sessions) && old(sessions)[key].session == failed then Some(failed) else None
      ensures sessions == if removed.Some? then old(sessions) - {key} else old(sessions)
    {
      if key in sessions && sessions[key].session == failed {
        removed := Some(failed);
        sessions := sessions - {key};
      } else {
        removed := None;
      }
    }
  }

  lemma SelectedAreDistinct(facts: seq<Fact>, key: Key, now: nat)
    requires DistinctKeys(facts)
    ensures Distinct(SelectEvictions(facts, key, now))
  {
    if facts == [] {
      assert ExpiredKeys(facts, now) == [];
    } else {
      EvictionDecision(facts, key, now, 0);
    }
  }
}
