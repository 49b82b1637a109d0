/**
 * Importing agents into a store: every agent is cleaned up and checked, and one
 * whose id is taken is skipped, replaces the old one, or gets an id of its own.
 */
module AgentImport {
  import opened Wrappers
  import Text
  import FreshIds

  /** `extra` stands for the properties that an import carries along unread. */
  datatype Agent = Agent(id: string, name: string, prompt: Option<string>, createdAt: Option<int>, extra: string)

  datatype Strategy = Skip | Overwrite | Duplicate

  datatype Invalid = MissingId | MissingName | LongName | LongPrompt

  type Agents = map<string, Agent>

  // ----------------------------------------------------------------- one agent

  const MAX_NAME := 64
  const MAX_PROMPT := 100_000

  function CleanPrompt(prompt: Option<string>): Option<string> {
    match prompt
    case None => None
    case Some(value) => if Text.Trim(value) == "" then None else Some(Text.Trim(value))
  }

  function Sanitize(agent: Agent): Agent {
    agent.(id := Text.Trim(agent.id), name := Text.Trim(agent.name), prompt := CleanPrompt(agent.prompt))
  }

  function Validate(agent: Agent): Option<Invalid> {
    var name := Text.Trim(agent.name);
    if Text.Trim(agent.id) == "" then Some(MissingId)
    else if |name| == 0 then Some(MissingName)
    else if |name| > MAX_NAME then Some(LongName)
    else if agent.prompt.Some? && |agent.prompt.value| > MAX_PROMPT then Some(LongPrompt)
    else None
  }

  function Checked(raw: Agent): Result<Agent, Invalid> {
    var agent := Sanitize(raw);
    match Validate(agent)
    case Some(error) => Err(error)
    case None => Ok(agent)
  }

  lemma TrimTwice(s: string)
    ensures Text.Trim(Text.Trim(s)) == Text.Trim(s)
  {
    Text.TrimIs(s);
    Text.TrimTrimmed(Text.Trim(s));
  }

  lemma CleanPromptTwice(prompt: Option<string>)
    ensures CleanPrompt(CleanPrompt(prompt)) == CleanPrompt(prompt)
  {
    if prompt.Some? {
      TrimTwice(prompt.value);
    }
  }

  /** Cleaning up once is enough. */
  lemma SanitizeTwice(agent: Agent, once: Agent, twice: Agent)
    requires once == Sanitize(agent) && twice == Sanitize(once)
    ensures twice == once
  {
    TrimTwice(agent.id);
    TrimTwice(agent.name);
    CleanPromptTwice(agent.prompt);
  }

  // ------------------------------------------------------------------ the import

  datatype Counts = Counts(imported: nat, updated: nat, skipped: nat)

  datatype Progress = Progress(agents: Agents, counts: Counts, errors: seq<Invalid>)

  function Stamped(agent: Agent, now: int): Agent {
    if agent.createdAt.None? then agent.(createdAt := Some(now)) else agent
  }

  ghost function WithNew(p: Progress, agent: Agent, now: int): Progress {
    p.(agents := p.agents[agent.id := Stamped(agent, now)], counts := p.counts.(imported := p.counts.imported + 1))
  }

  ghost function ImportOne(p: Progress, agent: Result<Agent, Invalid>, strategy: Strategy, now: int): Progress {
    match agent
    case Err(error) => p.(counts := p.counts.(skipped := p.counts.skipped + 1), errors := p.errors + [error])
    case Ok(a) =>
      if a.id !in p.agents then WithNew(p, a, now)
      else
        match strategy
        case Skip => p.(counts := p.counts.(skipped := p.counts.skipped + 1))
        case Overwrite => p.(agents := p.agents[a.id := a], counts := p.counts.(updated := p.counts.updated + 1))
        case Duplicate => WithNew(p, a.(id := FreshIds.FreshId(a.id, p.agents.Keys)), now)
  }

  /** `clock` gives the time at which each agent is handled. */
  ghost function Import(agents: Agents, checked: seq<Result<Agent, Invalid>>, strategy: Strategy, clock: nat -> int)
    : Progress
  {
    if checked == [] then Progress(agents, Counts(0, 0, 0), [])
    else
      var n := |checked| - 1;
      ImportOne(Import(agents, checked[..n], strategy, clock), checked[n], strategy, clock(n))
  }

  function CheckedAll(raw: seq<Agent>): seq<Result<Agent, Invalid>> {
    seq(|raw|, i requires 0 <= i < |raw| => Checked(raw[i]))
  }

  datatype Report = Report(success: bool, counts: Counts, errors: seq<Invalid>)

  /** The store in its file. */
  class AgentStore {
    var agents: Agents

    constructor (agents: Agents)
      ensures this.agents == agents
    {
      this.agents := agents;
    }

    /** `writable` says whether the file can be written in the end; if not, nothing was imported. */
    method ImportApply(raw: seq<Agent>, strategy: Strategy, clock: nat -> int, writable: bool)
      returns (r: Option<Report>)
      modifies this
      ensures r.Some? <==> writable
      ensures !writable ==> agents == old(agents)
      ensures writable ==>
                var p := Import(old(agents), CheckedAll(raw), strategy, clock);
                agents == p.agents && r.value == Report(p.errors == [], p.counts, p.errors)
    {
      var p := ImportAll(agents, raw, strategy, clock, CheckedAll(raw));
      if !writable {
        return None;
      }
      agents := p.agents;
      return Some(Report(p.errors == [], p.counts, p.errors));
    }
  }

  method ImportAll(agents: Agents, raw: seq<Agent>, strategy: Strategy, clock: nat -> int,
                   ghost checked: seq<Result<Agent, Invalid>>)
    returns (p: Progress)
    requires |checked| == |raw| && forall i :: 0 <= i < |raw| ==> checked[i] == Checked(raw[i])
    ensures p == Import(agents, checked, strategy, clock)
  {
    p := Progress(agents, Counts(0, 0, 0), []);
    for i := 0 to |raw|
      invariant p == Import(agents, checked[..i], strategy, clock)
    {
      p := ImportNext(p, Checked(raw[i]), strategy, clock(i));
      assert checked[..i + 1][..i] == checked[..i];
    }
    assert checked[..|raw|] == checked;
  }

  method ImportNext(p: Progress, agent: Result<Agent, Invalid>, strategy: Strategy, now: int) returns (p': Progress)
    ensures p' == ImportOne(p, agent, strategy, now)
  {
    var store, errors := p.agents, p.errors;
    var imported, updated, skipped := p.counts.imported, p.counts.updated, p.counts.skipped;
    if agent.Err? {
      skipped, errors := skipped + 1, errors + [agent.error];
    } else if agent.value.id in store {
      match strategy
      case Skip =>
        skipped := skipped + 1;
      case Overwrite =>
        store, updated := store[agent.value.id := agent.value], updated + 1;
      case Duplicate =>
        var id, _ := FreshIds.GenerateUniqueId(agent.value.id, store.Keys);
        store, imported := store[id := Stamped(agent.value.(id := id), now)], imported + 1;
    } else {
      store, imported := store[agent.value.id := Stamped(agent.value, now)], imported + 1;
    }
    return Progress(store, Counts(imported, updated, skipped), errors);
  }
}
