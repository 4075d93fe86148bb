/**
 `spawn_agents`: one result slot per requested agent, filled as the agents' tasks are
 joined, in whatever order they finish or panic. A joined panic does not say whose task it
 was: it is parked in the first slot that is still empty.
 */
module SubAgents {
  import opened Wrappers
  import opened Text

  datatype Outcome = Success(text: string) | Failure(error: string)

  /** `search` is what the queries of a code searcher come to; other agents ignore it. */
  datatype Request = Request(agentType: string, prompt: string, search: Outcome)

  datatype Slot = Empty | Own(outcome: Outcome) | Parked(panic: string)

  datatype Join = Finished(agent: nat, outcome: Outcome) | Panicked(agent: nat, panic: string)

  datatype Refusal = NoAgents | UnknownType(agentType: string) | BlankPrompt(agentType: string)

  const SEARCHER := "code-searcher"

  // ----- what the join loop does to the slots

  function FirstEmpty(slots: seq<Slot>): (r: Option<nat>)
    ensures r.Some? ==> r.value < |slots| && slots[r.value] == Empty && forall i | 0 <= i < r.value :: slots[i] != Empty
    ensures r.None? ==> forall i | 0 <= i < |slots| :: slots[i] != Empty
  {
    if slots == [] then None
    else if slots[0] == Empty then Some(0)
    else
      var r := FirstEmpty(slots[1..]);
      assert forall i | 0 < i < |slots| :: slots[i] == slots[1..][i - 1];
      if r.Some? then Some(r.value + 1) else None
  }

  function Filled(slots: seq<Slot>, join: Join): (r: seq<Slot>)
    requires join.agent < |slots|
    ensures |r| == |slots|
  {
    match join
    case Finished(i, outcome) => slots[i := Own(outcome)]
    case Panicked(_, panic) =>
      var k := FirstEmpty(slots);
      if k.Some? then slots[k.value := Parked(panic)] else slots
  }

  ghost predicate Fits(joins: seq<Join>, n: nat) {
    forall j | j in joins :: j.agent < n
  }

  function Settled(slots: seq<Slot>, joins: seq<Join>): (r: seq<Slot>)
    requires forall j | j in joins :: j.agent < |slots|
    ensures |r| == |slots|
    decreases |joins|
  {
    if joins == [] then slots
    else
      assert joins[0] in joins;
      Settled(Filled(slots, joins[0]), joins[1..])
  }

  ghost predicate OncePerAgent(joins: seq<Join>) {
    forall a, b | 0 <= a < b < |joins| :: joins[a].agent != joins[b].agent
  }

  /** Once filled by its own agent, a slot stays as it is. */
  lemma {:induction false} OwnStays(slots: seq<Slot>, joins: seq<Join>, i: nat)
    requires Fits(joins, |slots|) && i < |slots| && slots[i].Own?
    requires forall k | 0 <= k < |joins| && joins[k].Finished? :: joins[k].agent != i
    ensures Settled(slots, joins)[i] == slots[i]
    decreases |joins|
  {
    if joins != [] {
      assert joins[0] in joins;
      OwnStays(Filled(slots, joins[0]), joins[1..], i);
    }
  }

  /** Whatever the order of completions and panics: an agent that completed has its own
      outcome in its own slot. A panic parked there is overwritten, and none is parked later. */
  lemma {:induction false} CompletedOwnsItsSlot(slots: seq<Slot>, joins: seq<Join>, k: nat)
    requires Fits(joins, |slots|) && OncePerAgent(joins)
    requires k < |joins| && joins[k].Finished?
    ensures joins[k] in joins
    ensures Settled(slots, joins)[joins[k].agent] == Own(joins[k].outcome)
    decreases |joins|
  {
    assert joins[0] in joins;
    if k == 0 {
      var i := joins[0].agent;
      forall x | 0 <= x < |joins[1..]| && joins[1..][x].Finished? ensures joins[1..][x].agent != i {
        assert joins[x + 1].agent != joins[0].agent;
      }
      OwnStays(Filled(slots, joins[0]), joins[1..], i);
    } else {
      assert joins[1..][k - 1] == joins[k];
      CompletedOwnsItsSlot(Filled(slots, joins[0]), joins[1..], k - 1);
    }
  }

  /** A slot its agent never filled holds no other agent's outcome: it is empty or a panic. */
  lemma {:induction false} OthersNeverIntrude(slots: seq<Slot>, joins: seq<Join>, i: nat)
    requires Fits(joins, |slots|) && i < |slots| && !slots[i].Own?
    requires forall k | 0 <= k < |joins| && joins[k].Finished? :: joins[k].agent != i
    ensures !Settled(slots, joins)[i].Own?
    decreases |joins|
  {
    if joins != [] {
      assert joins[0] in joins;
      OthersNeverIntrude(Filled(slots, joins[0]), joins[1..], i);
    }
  }

  // ----- how many panics go unreported

  function Empties(slots: seq<Slot>): nat {
    if slots == [] then 0 else (if slots[0] == Empty then 1 else 0) + Empties(slots[1..])
  }

  lemma {:induction false} FillingOne(slots: seq<Slot>, i: nat, slot: Slot)
    requires i < |slots| && slot != Empty
    ensures Empties(slots[i := slot]) == Empties(slots) - if slots[i] == Empty then 1 else 0
  {
    if i == 0 {
      assert slots[0 := slot][1..] == slots[1..];
    } else {
      FillingOne(slots[1..], i - 1, slot);
      assert slots[i := slot][1..] == slots[1..][i - 1 := slot];
    }
  }

  lemma {:induction false} SomeEmpty(slots: seq<Slot>)
    ensures Empties(slots) > 0 <==> FirstEmpty(slots).Some?
  {
    if slots != [] && slots[0] != Empty {
      SomeEmpty(slots[1..]);
    }
  }

  /** How many joins complete an agent in whose slot a panic had been parked. */
  function Overwritten(slots: seq<Slot>, joins: seq<Join>): nat
    requires forall j | j in joins :: j.agent < |slots|
    decreases |joins|
  {
    if joins == [] then 0
    else
      assert joins[0] in joins;
      (if joins[0].Finished? && slots[joins[0].agent].Parked? then 1 else 0)
      + Overwritten(Filled(slots, joins[0]), joins[1..])
  }

  ghost predicate Unfinished(slots: seq<Slot>, joins: seq<Join>) {
    forall j | j in joins :: j.agent < |slots| && !slots[j.agent].Own?
  }

  lemma StaysUnfinished(slots: seq<Slot>, joins: seq<Join>)
    requires joins != [] && Unfinished(slots, joins) && OncePerAgent(joins)
    ensures joins[0] in joins && Unfinished(Filled(slots, joins[0]), joins[1..])
    ensures OncePerAgent(joins[1..])
  {
    assert joins[0] in joins;
    forall j | j in joins[1..] ensures j.agent < |slots| && !Filled(slots, joins[0])[j.agent].Own? {
      var k :| 0 <= k < |joins[1..]| && joins[1..][k] == j;
      assert joins[k + 1] == j && j in joins && joins[0].agent != joins[k + 1].agent;
    }
  }

  /** With a slot for every task, no panic ever lacks one to be parked in, and each that is
      overwritten leaves one slot empty at the end: as many parts read "(no result)" as
      panics were overwritten. */
  lemma {:induction false} EmptyOnePerOverwrite(slots: seq<Slot>, joins: seq<Join>)
    requires Unfinished(slots, joins) && OncePerAgent(joins) && |joins| <= Empties(slots)
    ensures Empties(Settled(slots, joins)) == Empties(slots) - |joins| + Overwritten(slots, joins)
    decreases |joins|
  {
    if joins != [] {
      StaysUnfinished(slots, joins);
      SomeEmpty(slots);
      if joins[0].Finished? {
        FillingOne(slots, joins[0].agent, Own(joins[0].outcome));
      } else {
        FillingOne(slots, FirstEmpty(slots).value, Parked(joins[0].panic));
      }
      EmptyOnePerOverwrite(Filled(slots, joins[0]), joins[1..]);
    }
  }

  // ----- the whole call

  function IndexOfUnknown(defs: seq<string>, requests: seq<Request>): (r: Option<nat>)
    ensures r.Some? ==> r.value < |requests| && requests[r.value].agentType !in defs
    ensures r.Some? ==> forall i | 0 <= i < r.value :: requests[i].agentType in defs
    ensures r.None? ==> forall i | 0 <= i < |requests| :: requests[i].agentType in defs
  {
    if requests == [] then None
    else if requests[0].agentType !in defs then Some(0)
    else
      var r := IndexOfUnknown(defs, requests[1..]);
      assert forall i | 0 < i < |requests| :: requests[i] == requests[1..][i - 1];
      if r.Some? then Some(r.value + 1) else None
  }

  predicate IsBlank(request: Request) {
    request.agentType != SEARCHER && Trim(request.prompt) == ""
  }

  function IndexOfBlank(requests: seq<Request>): (r: Option<nat>)
    ensures r.Some? ==> r.value < |requests| && IsBlank(requests[r.value])
    ensures r.Some? ==> forall i | 0 <= i < r.value :: !IsBlank(requests[i])
    ensures r.None? ==> forall i | 0 <= i < |requests| :: !IsBlank(requests[i])
  {
    if requests == [] then None
    else if IsBlank(requests[0]) then Some(0)
    else
      var r := IndexOfBlank(requests[1..]);
      assert forall i | 0 < i < |requests| :: requests[i] == requests[1..][i - 1];
      if r.Some? then Some(r.value + 1) else None
  }

  /** Slots as the launch loop leaves them: code searchers have run by then. */
  function Launched(requests: seq<Request>): (slots: seq<Slot>)
    ensures |slots| == |requests|
    ensures forall i | 0 <= i < |slots| ::
              slots[i] == if requests[i].agentType == SEARCHER then Own(requests[i].search) else Empty
  {
    seq(|requests|, i requires 0 <= i < |requests| =>
      if requests[i].agentType == SEARCHER then Own(requests[i].search) else Empty)
  }

  function Part(agentType: string, slot: Slot): string {
    var tag := "[" + agentType + "]";
    match slot
    case Own(Success(text)) => tag + "\n" + text
    case Own(Failure(error)) => tag + " ERROR: " + error
    case Parked(panic) => tag + " ERROR: sub-agent task failed: " + panic
    case Empty => tag + " (no result)"
  }

  function Parts(requests: seq<Request>, slots: seq<Slot>): (parts: seq<string>)
    requires |slots| == |requests|
    ensures |parts| == |requests|
    ensures forall i | 0 <= i < |parts| :: parts[i] == Part(requests[i].agentType, slots[i])
  {
    seq(|requests|, i requires 0 <= i < |requests| => Part(requests[i].agentType, slots[i]))
  }

  const SEPARATOR := "\n\n---\n\n"

  function JoinedBy(separator: string, parts: seq<string>): string {
    if parts == [] then "" else if |parts| == 1 then parts[0] else parts[0] + separator + JoinedBy(separator, parts[1..])
  }

  /** The join set yields every spawned task once. */
  ghost predicate JoinsEach(requests: seq<Request>, joins: seq<Join>) {
    && OncePerAgent(joins)
    && (forall j | j in joins :: j.agent < |requests| && requests[j.agent].agentType != SEARCHER)
    && |joins| == Empties(Launched(requests))
  }

  class SpawnAgentsTool {
    const defs: seq<string>
    var runCounter: nat

    constructor (defs: seq<string>)
      ensures this.defs == defs && runCounter == 0
    {
      this.defs, runCounter := defs, 0;
    }

    /** Refusals in order: no agents, an unknown type before anything is launched, a blank
        prompt where the launch gets to it. Otherwise one part per requested agent, in the
        order of the request. Each launch takes a run number. */
    method Execute(requests: seq<Request>, joins: seq<Join>) returns (r: Result<string, Refusal>)
      requires JoinsEach(requests, joins)
      modifies this
      ensures requests == [] ==> r == Err(NoAgents)
      ensures requests != [] && IndexOfUnknown(defs, requests).Some? ==>
                && r == Err(UnknownType(requests[IndexOfUnknown(defs, requests).value].agentType))
                && runCounter == old(runCounter)
      ensures requests != [] && IndexOfUnknown(defs, requests).None? && IndexOfBlank(requests).Some? ==>
                && r == Err(BlankPrompt(requests[IndexOfBlank(requests).value].agentType))
                && runCounter == old(runCounter) + IndexOfBlank(requests).value
      ensures requests != [] && IndexOfUnknown(defs, requests).None? && IndexOfBlank(requests).None? ==>
                && runCounter == old(runCounter) + |requests|
                && r == Ok(JoinedBy(SEPARATOR, Parts(requests, Settled(Launched(requests), joins))))
    {
      if requests == [] {
        return Err(NoAgents);
      }
      var unknown := IndexOfUnknown(defs, requests);
      if unknown.Some? {
        return Err(UnknownType(requests[unknown.value].agentType));
      }
      var slots, blank := Launch(requests);
      if blank.Some? {
        return Err(BlankPrompt(requests[blank.value].agentType));
      }
      slots := Joined(slots, joins);
      var parts := Report(requests, slots);
      r := Ok(JoinedBy(SEPARATOR, parts));
    }

    method Report(requests: seq<Request>, slots: seq<Slot>) returns (parts: seq<string>)
      requires |slots| == |requests|
      ensures parts == Parts(requests, slots)
    {
      parts := [];
      for i := 0 to |requests|
        invariant |parts| == i
        invariant forall k | 0 <= k < i :: parts[k] == Part(requests[k].agentType, slots[k])
      {
        parts := parts + [Part(requests[i].agentType, slots[i])];
      }
    }

    method Launch(requests: seq<Request>) returns (slots: seq<Slot>, blank: Option<nat>)
      modifies this
      ensures blank == IndexOfBlank(requests)
      ensures runCounter == old(runCounter) + if blank.Some? then blank.value else |requests|
      ensures blank.None? ==> slots == Launched(requests)
    {
      slots := seq(|requests|, _ => Empty);
      for i := 0 to |requests|
        invariant |slots| == |requests| && runCounter == old(runCounter) + i
        invariant forall k | 0 <= k < i :: !IsBlank(requests[k])
        invariant forall k | 0 <= k < |requests| :: slots[k] == if k < i then Launched(requests)[k] else Empty
      {
        if IsBlank(requests[i]) {
          return slots, Some(i);
        }
        runCounter := runCounter + 1;
        if requests[i].agentType == SEARCHER {
          slots := slots[i := Own(requests[i].search)];
        }
      }
      blank := None;
    }

    method Joined(launched: seq<Slot>, joins: seq<Join>) returns (slots: seq<Slot>)
      requires forall j | j in joins :: j.agent < |launched|
      ensures slots == Settled(launched, joins)
    {
      slots := launched;
      for k := 0 to |joins|
        invariant |slots| == |launched|
        invariant Settled(slots, joins[k..]) == Settled(launched, joins)
      {
        assert joins[k..][0] == joins[k] && joins[k..][1..] == joins[k + 1..];
        assert joins[k] in joins;
        match joins[k] {
          case Finished(i, outcome) => slots := slots[i := Own(outcome)];
          case Panicked(_, panic) =>
            var at := FirstEmpty(slots);
            if at.Some? {
              slots := slots[at.value := Parked(panic)];
            }
        }
      }
    }
  }

  /** What the caller reads, in any order of completion: the outcome of each agent that
      completed stands in its own part; an agent that panicked reads as an error or as
      without a result, never as someone else's outcome. */
  lemma EveryPartIsItsAgents(requests: seq<Request>, joins: seq<Join>, i: nat)
    requires JoinsEach(requests, joins) && i < |requests|
    ensures requests[i].agentType == SEARCHER ==> Settled(Launched(requests), joins)[i] == Own(requests[i].search)
    ensures forall k | 0 <= k < |joins| && joins[k].agent == i && joins[k].Finished? ::
              Settled(Launched(requests), joins)[i] == Own(joins[k].outcome)
    ensures forall k | 0 <= k < |joins| && joins[k].agent == i && joins[k].Panicked? ::
              !Settled(Launched(requests), joins)[i].Own?
  {
    if requests[i].agentType == SEARCHER {
      forall k | 0 <= k < |joins| ensures joins[k].agent != i {
        assert joins[k] in joins;
      }
      OwnStays(Launched(requests), joins, i);
    }
    forall k | 0 <= k < |joins| && joins[k].agent == i && joins[k].Finished?
      ensures Settled(Launched(requests), joins)[i] == Own(joins[k].outcome)
    {
      CompletedOwnsItsSlot(Launched(requests), joins, k);
    }
    forall k | 0 <= k < |joins| && joins[k].agent == i && joins[k].Panicked?
      ensures !Settled(Launched(requests), joins)[i].Own?
    {
      assert joins[k] in joins;
      assert forall x | 0 <= x < |joins| && x != k :: joins[x].agent != joins[k].agent;
      OthersNeverIntrude(Launched(requests), joins, i);
    }
  }

  /** And exactly as many parts read "(no result)" as completions overwrote a parked panic;
      with none overwritten every panic is reported. */
  lemma NoResultPerOverwrite(requests: seq<Request>, joins: seq<Join>)
    requires JoinsEach(requests, joins)
    ensures Fits(joins, |requests|)
    ensures Empties(Settled(Launched(requests), joins)) == Overwritten(Launched(requests), joins)
  {
    EmptyOnePerOverwrite(Launched(requests), joins);
  }

  // ----- what the answer says

  /** How each outcome reads. */
  lemma PartsRead(agentType: string, text: string)
    ensures Part(agentType, Own(Success(text))) == "[" + agentType + "]" + "\n" + text
    ensures Part(agentType, Own(Failure(text))) == "[" + agentType + "]" + " ERROR: " + text
    ensures Part(agentType, Parked(text)) == "[" + agentType + "]" + " ERROR: sub-agent task failed: " + text
    ensures Part(agentType, Empty) == "[" + agentType + "]" + " (no result)"
  {
  }

  /** The parts stand in their order, with a line of dashes between each two. */
  lemma {:induction false} PartsAreSeparated(parts: seq<string>, last: string)
    ensures JoinedBy("\n\n---\n\n", [last]) == last
    ensures parts != [] ==>
              JoinedBy("\n\n---\n\n", parts + [last]) == JoinedBy("\n\n---\n\n", parts) + ("\n\n---\n\n" + last)
    ensures SEPARATOR == "\n\n---\n\n"
  {
    if parts != [] {
      SeparatedBy(SEPARATOR, parts, last);
    }
  }

  lemma {:induction false} SeparatedBy(separator: string, parts: seq<string>, last: string)
    requires parts != []
    ensures JoinedBy(separator, parts + [last]) == JoinedBy(separator, parts) + (separator + last)
  {
    var all := parts + [last];
    assert all[0] == parts[0] && all[1..] == parts[1..] + [last];
    if |parts| == 1 {
      assert all[1..] == [last];
      assert parts[0] + separator + last == parts[0] + (separator + last);
    } else {
      SeparatedBy(separator, parts[1..], last);
      var more := JoinedBy(separator, parts[1..]);
      assert parts[0] + separator + (more + (separator + last)) == (parts[0] + separator + more) + (separator + last);
    }
  }

  /** Which requests are refused for their prompt: blank ones, save those of a code searcher. */
  lemma BlankIff(request: Request)
    ensures IsBlank(request) <==> request.agentType != "code-searcher" && Trim(request.prompt) == ""
  {
  }

  /** What a join does to the slots: an outcome goes where its agent belongs, a panic to the first
      slot that is empty, whoever's that is. */
  lemma JoinFills(slots: seq<Slot>, agent: nat, outcome: Outcome, panic: string, k: nat)
    requires agent < |slots| && k <= |slots|
    requires (forall i | 0 <= i < k :: slots[i] != Empty) && (k < |slots| ==> slots[k] == Empty)
    ensures Filled(slots, Finished(agent, outcome)) == slots[agent := Own(outcome)]
    ensures Filled(slots, Panicked(agent, panic)) == if k < |slots| then slots[k := Parked(panic)] else slots
  {
  }
}
