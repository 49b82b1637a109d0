/**
 * Which language-server sessions to evict: every dead or idle one, and, when a
 * new session needs room, the least recently used survivor.
 */
module SessionEvictions {
  import opened Wrappers
  import opened Sequences

  /** A provider and workspace pair; only equality matters. */
  type Key = nat
  type SessionId = nat

  const MAX_SESSIONS: nat := 6
  const SESSION_IDLE_TIMEOUT: nat := 15 * 60 // seconds

  /** What the decision sees of one registry entry. */
  datatype Fact = Fact(key: Key, alive: bool, lastUsed: nat)

  /** Durations saturate: an entry used after `now` was read counts as just used. */
  function Elapsed(now: nat, since: nat): nat {
    if now < since then 0 else now - since
  }

  predicate Expired(f: Fact, now: nat) {
    !f.alive || Elapsed(now, f.lastUsed) >= SESSION_IDLE_TIMEOUT
  }

  function ExpiredKeys(facts: seq<Fact>, now: nat): seq<Key> {
    if facts == [] then []
    else
      var last := facts[|facts| - 1];
      ExpiredKeys(facts[..|facts| - 1], now) + if Expired(last, now) then [last.key] else []
  }

  /** The first entry, among those not listed, that no other such entry is older than. */
  function OldestSurvivor(facts: seq<Fact>, evictions: seq<Key>): Option<Fact> {
    if facts == [] then None
    else
      var last := facts[|facts| - 1];
      var oldest := OldestSurvivor(facts[..|facts| - 1], evictions);
      if last.key in evictions then oldest
      else if oldest.None? || last.lastUsed < oldest.value.lastUsed then Some(last)
      else oldest
  }

  predicate RequestedSurvives(facts: seq<Fact>, requested: Key, evictions: seq<Key>) {
    exists i :: 0 <= i < |facts| && facts[i].key == requested && facts[i].key !in evictions
  }

  function SelectEvictions(facts: seq<Fact>, requested: Key, now: nat): seq<Key> {
    var evictions := ExpiredKeys(facts, now);
    var survivorCount := if |facts| < |evictions| then 0 else |facts| - |evictions|;
    if !RequestedSurvives(facts, requested, evictions) && survivorCount >= MAX_SESSIONS then
      match OldestSurvivor(facts, evictions)
      case Some(oldest) => evictions + [oldest.key]
      case None => evictions
    else evictions
  }

  ghost predicate DistinctKeys(facts: seq<Fact>) {
    forall i, j :: 0 <= i < j < |facts| ==> facts[i].key != facts[j].key
  }

  ghost predicate IsExpiredKey(facts: seq<Fact>, now: nat, k: Key) {
    exists i :: 0 <= i < |facts| && facts[i].key == k && Expired(facts[i], now)
  }

  lemma {:induction false} ExpiredKeysAre(facts: seq<Fact>, now: nat, k: Key)
    ensures k in ExpiredKeys(facts, now) <==> IsExpiredKey(facts, now, k)
  {
    if facts != [] {
      var front, last := facts[..|facts| - 1], facts[|facts| - 1];
      ExpiredKeysAre(front, now, k);
      if IsExpiredKey(front, now, k) {
        var i :| 0 <= i < |front| && front[i].key == k && Expired(front[i], now);
        assert facts[i] == front[i];
      }
      if IsExpiredKey(facts, now, k) && !(last.key == k && Expired(last, now)) {
        var i :| 0 <= i < |facts| && facts[i].key == k && Expired(facts[i], now);
        assert front[i] == facts[i];
      }
    }
  }

  lemma {:induction false} ExpiredKeysCounted(facts: seq<Fact>, now: nat)
    requires DistinctKeys(facts)
    ensures Distinct(ExpiredKeys(facts, now)) && |ExpiredKeys(facts, now)| <= |facts|
  {
    if facts != [] {
      var front, last := facts[..|facts| - 1], facts[|facts| - 1];
      ExpiredKeysCounted(front, now);
      ExpiredKeysAre(front, now, last.key);
      assert last.key !in ExpiredKeys(front, now);
    }
  }

  lemma ExpiredKeysFacts(facts: seq<Fact>, now: nat)
    requires DistinctKeys(facts)
    ensures forall k :: k in ExpiredKeys(facts, now) <==> IsExpiredKey(facts, now, k)
    ensures Distinct(ExpiredKeys(facts, now)) && |ExpiredKeys(facts, now)| <= |facts|
  {
    ExpiredKeysCounted(facts, now);
    forall k
      ensures k in ExpiredKeys(facts, now) <==> IsExpiredKey(facts, now, k)
    {
      ExpiredKeysAre(facts, now, k);
    }
  }

  lemma {:induction false} OldestSurvivorFacts(facts: seq<Fact>, evictions: seq<Key>)
    ensures OldestSurvivor(facts, evictions).None? <==> forall i :: 0 <= i < |facts| ==> facts[i].key in evictions
    ensures OldestSurvivor(facts, evictions).Some? ==>
              var o := OldestSurvivor(facts, evictions).value;
              && o in facts && o.key !in evictions
              && forall i :: 0 <= i < |facts| && facts[i].key !in evictions ==> o.lastUsed <= facts[i].lastUsed
  {
    if facts != [] {
      OldestSurvivorFacts(facts[..|facts| - 1], evictions);
      assert facts == facts[..|facts| - 1] + [facts[|facts| - 1]];
    }
  }

  /**
   * The decision, entry by entry: an expired entry always goes; a live one goes only to make room,
   * which is when the requested key does not survive and six or more entries do, and then it is
   * one that no survivor is older than.
   */
  lemma EvictionDecision(facts: seq<Fact>, requested: Key, now: nat, i: nat)
    requires DistinctKeys(facts) && i < |facts|
    ensures Distinct(SelectEvictions(facts, requested, now))
    ensures Expired(facts[i], now) ==> facts[i].key in SelectEvictions(facts, requested, now)
    ensures !Expired(facts[i], now) && facts[i].key in SelectEvictions(facts, requested, now) ==>
              && facts[i].key != requested
              && |facts| - |ExpiredKeys(facts, now)| >= MAX_SESSIONS
              && (forall j :: 0 <= j < |facts| && !Expired(facts[j], now) ==>
                    facts[j].key != requested && facts[i].lastUsed <= facts[j].lastUsed)
              && (forall j :: 0 <= j < |facts| && j != i && !Expired(facts[j], now) ==>
                    facts[j].key !in SelectEvictions(facts, requested, now))
  {
    ExpiredKeysFacts(facts, now);
    var expired := ExpiredKeys(facts, now);
    OldestSurvivorFacts(facts, expired);
    forall j | 0 <= j < |facts|
      ensures facts[j].key in expired <==> Expired(facts[j], now)
    {
      assert facts[j].key in expired <==> IsExpiredKey(facts, now, facts[j].key);
    }
    var all := SelectEvictions(facts, requested, now);
    if all != expired {
      var oldest := OldestSurvivor(facts, expired).value;
      assert all == expired + [oldest.key];
    }
  }

  /** What is evicted was there, each entry once, and a new session then fits. */
  lemma EvictionMakesRoom(facts: seq<Fact>, requested: Key, now: nat)
    requires DistinctKeys(facts) && |facts| <= MAX_SESSIONS
    ensures Distinct(SelectEvictions(facts, requested, now))
    ensures forall k :: k in SelectEvictions(facts, requested, now) ==> k in (set i | 0 <= i < |facts| :: facts[i].key)
    ensures (forall i :: 0 <= i < |facts| ==> facts[i].key != requested) ==>
              |facts| - |SelectEvictions(facts, requested, now)| < MAX_SESSIONS
  {
    ExpiredKeysFacts(facts, now);
    var expired := ExpiredKeys(facts, now);
    OldestSurvivorFacts(facts, expired);
    if |expired| == 0 && |facts| == MAX_SESSIONS {
      assert facts[0].key !in expired;
    }
    var all := SelectEvictions(facts, requested, now);
    if all != expired {
      var oldest := OldestSurvivor(facts, expired).value;
      assert all == expired + [oldest.key];
      var i :| 0 <= i < |facts| && facts[i] == oldest;
      assert facts[i].key == oldest.key;
    }
  }
}
