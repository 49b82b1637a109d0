/** What an import of any list of agents into any store does, under each strategy. */
module AgentImportLaws {
  import opened Wrappers
  import opened AgentImport
  import FreshIds

  type Incoming = seq<Result<Agent, Invalid>>

  /** Every agent is counted once, the store grows by what was imported, and no id disappears. */
  lemma {:induction false} CountsAddUp(agents: Agents, incoming: Incoming, strategy: Strategy, clock: nat -> int)
    ensures var p := Import(agents, incoming, strategy, clock);
            && p.counts.imported + p.counts.updated + p.counts.skipped == |incoming|
            && |p.agents| == |agents| + p.counts.imported
            && agents.Keys <= p.agents.Keys
            && (strategy != Overwrite ==> p.counts.updated == 0)
  {
    if incoming != [] {
      var n := |incoming| - 1;
      CountsAddUp(agents, incoming[..n], strategy, clock);
    }
  }

  /** What the first `i` agents leave in the store stays there, unless agents overwrite. */
  lemma {:induction false} EntriesKept(agents: Agents, incoming: Incoming, strategy: Strategy, clock: nat -> int,
                                       i: nat, k: string)
    requires strategy != Overwrite && i <= |incoming| && k in Import(agents, incoming[..i], strategy, clock).agents
    ensures k in Import(agents, incoming, strategy, clock).agents
    ensures Import(agents, incoming, strategy, clock).agents[k]
         == Import(agents, incoming[..i], strategy, clock).agents[k]
    decreases |incoming|
  {
    if i == |incoming| {
      assert incoming[..i] == incoming;
    } else {
      var n := |incoming| - 1;
      assert incoming[..n][..i] == incoming[..i];
      EntriesKept(agents, incoming[..n], strategy, clock, i, k);
    }
  }

  /** Skipping and duplicating leave every old entry as it was. */
  lemma OldEntriesKept(agents: Agents, incoming: Incoming, strategy: Strategy, clock: nat -> int, k: string)
    requires strategy != Overwrite && k in agents
    ensures k in Import(agents, incoming, strategy, clock).agents
    ensures Import(agents, incoming, strategy, clock).agents[k] == agents[k]
  {
    assert incoming[..0] == [];
    EntriesKept(agents, incoming, strategy, clock, 0, k);
  }

  /** Each entry stands under its own id. */
  ghost predicate IdsAreKeys(agents: Agents) {
    forall k :: k in agents ==> agents[k].id == k
  }

  lemma {:induction false} IdsStayKeys(agents: Agents, incoming: Incoming, strategy: Strategy, clock: nat -> int)
    requires IdsAreKeys(agents)
    ensures IdsAreKeys(Import(agents, incoming, strategy, clock).agents)
  {
    if incoming != [] {
      var n := |incoming| - 1;
      IdsStayKeys(agents, incoming[..n], strategy, clock);
    }
  }

  // --------------------------------------------------------------- every valid agent

  predicate Has(incoming: Incoming, i: nat, k: string) {
    i < |incoming| && incoming[i].Ok? && incoming[i].value.id == k
  }

  lemma {:induction false} EveryIdPresent(agents: Agents, incoming: Incoming, strategy: Strategy, clock: nat -> int,
                                          i: nat, k: string)
    requires Has(incoming, i, k)
    ensures k in Import(agents, incoming, strategy, clock).agents
  {
    var n := |incoming| - 1;
    if i < n {
      EveryIdPresent(agents, incoming[..n], strategy, clock, i, k);
    }
  }

  lemma {:induction false} NothingNewToSkip(agents: Agents, incoming: Incoming, clock: nat -> int)
    requires forall i: nat :: i < |incoming| && incoming[i].Ok? ==> incoming[i].value.id in agents
    ensures Import(agents, incoming, Skip, clock).agents == agents
    ensures Import(agents, incoming, Skip, clock).counts.imported == 0
  {
    if incoming != [] {
      NothingNewToSkip(agents, incoming[..|incoming| - 1], clock);
    }
  }

  /** Importing the same list again with Skip changes nothing. */
  lemma SkipTwice(agents: Agents, incoming: Incoming, clock: nat -> int, later: nat -> int)
    ensures var once := Import(agents, incoming, Skip, clock);
            && Import(once.agents, incoming, Skip, later).agents == once.agents
            && Import(once.agents, incoming, Skip, later).counts.imported == 0
  {
    var once := Import(agents, incoming, Skip, clock);
    forall i: nat | i < |incoming| && incoming[i].Ok?
      ensures incoming[i].value.id in once.agents
    {
      EveryIdPresent(agents, incoming, Skip, clock, i, incoming[i].value.id);
    }
    NothingNewToSkip(once.agents, incoming, later);
  }

  // ----------------------------------------------------------------- duplicating

  ghost function Duplicated(agents: Agents, incoming: Incoming, clock: nat -> int): Agents {
    Import(agents, incoming, Duplicate, clock).agents
  }

  /** The id under which agent number `i` is to end: its own, or its own with a number if that one is taken by then. */
  ghost function NewId(agents: Agents, incoming: Incoming, clock: nat -> int, i: nat): string
    requires i < |incoming| && incoming[i].Ok?
  {
    FreshIds.FreshId(incoming[i].value.id, Duplicated(agents, incoming[..i], clock).Keys)
  }

  lemma DuplicateOne(agents: Agents, incoming: Incoming, clock: nat -> int, i: nat)
    requires i < |incoming| && incoming[i].Ok?
    ensures var id := NewId(agents, incoming, clock, i);
            && id !in Duplicated(agents, incoming[..i], clock)
            && Duplicated(agents, incoming[..i + 1], clock)
            == Duplicated(agents, incoming[..i], clock)[id := Stamped(incoming[i].value.(id := id), clock(i))]
  {
    assert incoming[..i + 1][..i] == incoming[..i];
  }

  /** Every valid agent ends as an entry of its own, with its own content, under an id that was free. */
  lemma EveryAgentDuplicated(agents: Agents, incoming: Incoming, clock: nat -> int, i: nat)
    requires i < |incoming| && incoming[i].Ok?
    ensures var a, id, all := incoming[i].value, NewId(agents, incoming, clock, i), Duplicated(agents, incoming, clock);
            && id !in Duplicated(agents, incoming[..i], clock)
            && id in all
            && all[id] == Agent(id, a.name, a.prompt, if a.createdAt.Some? then a.createdAt else Some(clock(i)),
                                a.extra)
  {
    DuplicateOne(agents, incoming, clock, i);
    EntriesKept(agents, incoming, Duplicate, clock, i + 1, NewId(agents, incoming, clock, i));
  }

  /** No two agents end under one id. */
  lemma DuplicatesApart(agents: Agents, incoming: Incoming, clock: nat -> int, i: nat, j: nat)
    requires i < j < |incoming| && incoming[i].Ok? && incoming[j].Ok?
    ensures NewId(agents, incoming, clock, i) != NewId(agents, incoming, clock, j)
  {
    assert incoming[..j][..i] == incoming[..i];
    EveryAgentDuplicated(agents, incoming[..j], clock, i);
    EveryAgentDuplicated(agents, incoming, clock, j);
  }

  /** And the store holds nothing but its old entries and these. */
  lemma {:induction false} NothingElseDuplicated(agents: Agents, incoming: Incoming, clock: nat -> int, k: string)
    requires k in Duplicated(agents, incoming, clock) && k !in agents
    ensures exists i: nat :: i < |incoming| && incoming[i].Ok? && k == NewId(agents, incoming, clock, i)
  {
    var n := |incoming| - 1;
    var front := incoming[..n];
    if k in Duplicated(agents, front, clock) {
      NothingElseDuplicated(agents, front, clock, k);
      var i: nat :| i < |front| && front[i].Ok? && k == NewId(agents, front, clock, i);
      assert front[..i] == incoming[..i];
      assert k == NewId(agents, incoming, clock, i);
    } else {
      assert k == NewId(agents, incoming, clock, n);
    }
  }

  // ----------------------------------------------------------------- overwriting

  ghost predicate Never(incoming: Incoming, k: string) {
    forall i: nat :: !Has(incoming, i, k)
  }

  ghost predicate LastAt(incoming: Incoming, k: string, i: nat) {
    Has(incoming, i, k) && forall j: nat :: j > i ==> !Has(incoming, j, k)
  }

  /** Overwriting touches no entry that no valid agent has the id of. */
  lemma {:induction false} OverwriteUntouched(agents: Agents, incoming: Incoming, clock: nat -> int, k: string)
    requires Never(incoming, k)
    ensures var p := Import(agents, incoming, Overwrite, clock);
            (k in p.agents <==> k in agents) && (k in agents ==> p.agents[k] == agents[k])
  {
    if incoming != [] {
      var n := |incoming| - 1;
      assert !Has(incoming, n, k);
      forall i: nat
        ensures !Has(incoming[..n], i, k)
      {
        assert !Has(incoming, i, k);
      }
      OverwriteUntouched(agents, incoming[..n], clock, k);
    }
  }

  /** The entry that the last agent with an id leaves: stamped only if the id was new to it. */
  ghost function Left(agents: Agents, incoming: Incoming, clock: nat -> int, k: string, i: nat): Agent
    requires Has(incoming, i, k)
  {
    if k in agents || !Never(incoming[..i], k) then incoming[i].value else Stamped(incoming[i].value, clock(i))
  }

  lemma FirstHas(agents: Agents, incoming: Incoming, clock: nat -> int, k: string)
    ensures k in Import(agents, incoming, Overwrite, clock).agents <==> k in agents || !Never(incoming, k)
  {
    if Never(incoming, k) {
      OverwriteUntouched(agents, incoming, clock, k);
    } else {
      var i: nat :| Has(incoming, i, k);
      EveryIdPresent(agents, incoming, Overwrite, clock, i, k);
    }
  }

  /** The last valid agent with an id wins. */
  lemma {:induction false} LastWins(agents: Agents, incoming: Incoming, clock: nat -> int, k: string, i: nat)
    requires LastAt(incoming, k, i)
    ensures k in Import(agents, incoming, Overwrite, clock).agents
    ensures Import(agents, incoming, Overwrite, clock).agents[k] == Left(agents, incoming, clock, k, i)
  {
    var n := |incoming| - 1;
    if i == n {
      FirstHas(agents, incoming[..n], clock, k);
    } else {
      assert !Has(incoming, n, k);
      forall j: nat | j > i
        ensures !Has(incoming[..n], j, k)
      {
        assert !Has(incoming, j, k);
      }
      assert Has(incoming[..n], i, k);
      assert incoming[..n][..i] == incoming[..i];
      LastWins(agents, incoming[..n], clock, k, i);
    }
  }

  lemma {:induction false} SomeLast(incoming: Incoming, k: string) returns (i: nat)
    requires !Never(incoming, k)
    ensures LastAt(incoming, k, i)
  {
    var n := |incoming| - 1;
    if Has(incoming, n, k) {
      i := n;
    } else {
      var j: nat :| Has(incoming, j, k);
      assert Has(incoming[..n], j, k);
      i := SomeLast(incoming[..n], k);
      forall m: nat | m > i
        ensures !Has(incoming, m, k)
      {
        assert !Has(incoming[..n], m, k);
      }
    }
  }

  /** The agent is new to the store, alone with its id, and has no time of creation. */
  ghost predicate LosesStamp(agents: Agents, incoming: Incoming, i: nat) {
    && i < |incoming| && incoming[i].Ok? && incoming[i].value.createdAt.None?
    && incoming[i].value.id !in agents
    && forall j: nat :: j != i ==> !Has(incoming, j, incoming[i].value.id)
  }

  lemma LostStamp(agents: Agents, incoming: Incoming, clock: nat -> int, later: nat -> int, i: nat)
    requires LosesStamp(agents, incoming, i)
    ensures var once := Import(agents, incoming, Overwrite, clock).agents;
            Import(once, incoming, Overwrite, later).agents != once
  {
    var k, once := incoming[i].value.id, Import(agents, incoming, Overwrite, clock).agents;
    assert LastAt(incoming, k, i);
    forall j: nat
      ensures !Has(incoming[..i], j, k)
    {
      assert j != i ==> !Has(incoming, j, k);
    }
    LastWins(agents, incoming, clock, k, i);
    LastWins(once, incoming, later, k, i);
  }

  lemma SameEntryAgain(agents: Agents, incoming: Incoming, clock: nat -> int, later: nat -> int, k: string)
    requires forall i :: !LosesStamp(agents, incoming, i)
    ensures var once := Import(agents, incoming, Overwrite, clock).agents;
            var twice := Import(once, incoming, Overwrite, later).agents;
            (k in twice <==> k in once) && (k in once ==> twice[k] == once[k])
  {
    var once := Import(agents, incoming, Overwrite, clock).agents;
    if Never(incoming, k) {
      OverwriteUntouched(once, incoming, later, k);
    } else {
      var i := SomeLast(incoming, k);
      LastWins(agents, incoming, clock, k, i);
      LastWins(once, incoming, later, k, i);
      if k !in agents && Never(incoming[..i], k) {
        forall j: nat | j != i
          ensures !Has(incoming, j, k)
        {
          assert !Has(incoming[..i], j, k);
        }
        assert !LosesStamp(agents, incoming, i);
      }
    }
  }

  ghost function Overwritten(agents: Agents, incoming: Incoming, clock: nat -> int): Agents {
    Import(agents, incoming, Overwrite, clock).agents
  }

  /**
   * Importing the same list again with Overwrite changes nothing exactly if no agent loses the time of creation
   * that the first import had filled in.
   */
  lemma OverwriteTwiceIff(agents: Agents, incoming: Incoming, clock: nat -> int, later: nat -> int)
    ensures Overwritten(Overwritten(agents, incoming, clock), incoming, later) == Overwritten(agents, incoming, clock)
       <==> forall i :: !LosesStamp(agents, incoming, i)
  {
    var once := Import(agents, incoming, Overwrite, clock).agents;
    if i :| LosesStamp(agents, incoming, i) {
      LostStamp(agents, incoming, clock, later, i);
    } else {
      forall k
        ensures var twice := Import(once, incoming, Overwrite, later).agents;
                (k in twice <==> k in once) && (k in once ==> twice[k] == once[k])
      {
        SameEntryAgain(agents, incoming, clock, later, k);
      }
    }
  }
}
