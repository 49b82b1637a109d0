/**
 * What an import makes of one agent's fields, and what its report counts and
 * complains about, told by the list of agents and the ids already there.
 */
module AgentReports {
  import opened Wrappers
  import opened AgentImport
  import opened AgentImportLaws
  import Text

  // ------------------------------------------------------------------------ one agent

  /** The texts of `clean` are those of `raw` trimmed, a blank prompt is none, and all else is carried along. */
  predicate Cleaned(raw: Agent, clean: Agent) {
    && clean.id == Text.Trim(raw.id) && clean.name == Text.Trim(raw.name)
    && (clean.prompt.Some? <==> raw.prompt.Some? && Text.Trim(raw.prompt.value) != "")
    && (clean.prompt.Some? ==> clean.prompt.value == Text.Trim(raw.prompt.value))
    && clean.createdAt == raw.createdAt && clean.extra == raw.extra
  }

  /** An agent is accepted exactly if what is left of its texts has the right lengths, and then is cleaned. */
  lemma CheckedExactly(raw: Agent, clean: Agent)
    requires Cleaned(raw, clean)
    ensures Checked(raw)
         == if clean.id == "" then Err(MissingId)
            else if clean.name == "" then Err(MissingName)
            else if |clean.name| > 64 then Err(LongName)
            else if clean.prompt.Some? && |clean.prompt.value| > 100_000 then Err(LongPrompt)
            else Ok(clean)
  {
    SanitizedIs(raw, clean);
    TrimTwice(raw.id);
    TrimTwice(raw.name);
    ValidatedIs(clean);
  }

  lemma SanitizedIs(raw: Agent, clean: Agent)
    requires Cleaned(raw, clean)
    ensures Sanitize(raw) == clean
  {
  }

  lemma ValidatedIs(clean: Agent)
    requires Text.Trim(clean.id) == clean.id && Text.Trim(clean.name) == clean.name
    ensures Validate(clean)
         == if clean.id == "" then Some(MissingId)
            else if clean.name == "" then Some(MissingName)
            else if |clean.name| > 64 then Some(LongName)
            else if clean.prompt.Some? && |clean.prompt.value| > 100_000 then Some(LongPrompt)
            else None
  {
  }

  // -------------------------------------------------------------------- the whole list

  /** The complaints, in the order of the agents. */
  function ErrorsIn(incoming: Incoming): seq<Invalid> {
    if incoming == [] then []
    else
      var last := incoming[|incoming| - 1];
      ErrorsIn(incoming[..|incoming| - 1]) + if last.Err? then [last.error] else []
  }

  /** The last agent has an id that the store, or a valid agent before it, already has. */
  ghost predicate LastRepeats(agents: Agents, incoming: Incoming)
    requires incoming != []
  {
    var n := |incoming| - 1;
    && incoming[n].Ok?
    && (incoming[n].value.id in agents || exists i: nat :: i < n && Has(incoming, i, incoming[n].value.id))
  }

  /** How many agents have such an id. */
  ghost function RepeatsIn(agents: Agents, incoming: Incoming): nat {
    if incoming == [] then 0
    else RepeatsIn(agents, incoming[..|incoming| - 1]) + if LastRepeats(agents, incoming) then 1 else 0
  }

  lemma {:induction false} KnownIds(agents: Agents, incoming: Incoming, strategy: Strategy, clock: nat -> int,
                                    k: string)
    requires strategy != Duplicate
    ensures k in Import(agents, incoming, strategy, clock).agents
       <==> k in agents || exists i: nat :: i < |incoming| && Has(incoming, i, k)
  {
    if incoming != [] {
      var n := |incoming| - 1;
      KnownIds(agents, incoming[..n], strategy, clock, k);
      assert forall i: nat :: i < n ==> (Has(incoming[..n], i, k) <==> Has(incoming, i, k));
      assert Has(incoming, n, k) <==> incoming[n].Ok? && incoming[n].value.id == k;
    }
  }

  lemma LastIsKnown(agents: Agents, incoming: Incoming, strategy: Strategy, clock: nat -> int, n: nat)
    requires strategy != Duplicate && incoming != [] && n == |incoming| - 1 && incoming[n].Ok?
    ensures LastRepeats(agents, incoming)
       <==> incoming[n].value.id in Import(agents, incoming[..n], strategy, clock).agents
  {
    var k := incoming[n].value.id;
    KnownIds(agents, incoming[..n], strategy, clock, k);
    assert forall i: nat :: i < n ==> (Has(incoming[..n], i, k) <==> Has(incoming, i, k));
  }

  /**
   * The report, from the list alone: every complaint in order; agents whose id was there before are skipped, or
   * counted as updates, or get an entry like all others, as the strategy says.
   */
  lemma {:induction false} ReportExactly(agents: Agents, incoming: Incoming, strategy: Strategy, clock: nat -> int)
    ensures Import(agents, incoming, strategy, clock).errors == ErrorsIn(incoming)
    ensures var c, bad, known := Import(agents, incoming, strategy, clock).counts, |ErrorsIn(incoming)|,
                                 RepeatsIn(agents, incoming);
            && c.imported + c.updated + c.skipped == |incoming|
            && c.updated == (if strategy == Overwrite then known else 0)
            && c.skipped == bad + (if strategy == Skip then known else 0)
  {
    if incoming != [] {
      var n := |incoming| - 1;
      ReportExactly(agents, incoming[..n], strategy, clock);
      if incoming[n].Ok? && strategy != Duplicate {
        LastIsKnown(agents, incoming, strategy, clock, n);
      }
    }
  }
}
