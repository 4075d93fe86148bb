/**
 A combo's fallback: a run that fails before it has produced anything is retried on the
 first entry of the combo that is neither the one that failed nor cooling down. What the
 runs do comes from outside, as an oracle; cooldowns recorded on the way outlast the prompt.
 */
module Fallback {
  import opened Wrappers
  import opened Sequences

  datatype Entry = Entry(provider: string, model: string)

  datatype Message = User(text: string) | Assistant(text: string) | System(text: string)

  /** How one run goes. `FailsEarly` is an error before any output and without a cancel: the
      agent leaves its transcript, others may have put more entries on cooldown meanwhile,
      and building the agent for the next entry succeeds or not. `Ends` is any other end,
      with the messages the session is left with. */
  datatype Attempt =
    | FailsEarly(transcript: seq<Message>, alsoCooled: set<Entry>, rebuilds: bool)
    | Ends(messages: seq<Message>, failed: bool)

  // ----- the next entry

  function NextEntry(priority: seq<Entry>, cooling: set<Entry>, current: Entry): (r: Option<Entry>)
    ensures r.Some? ==> exists i | 0 <= i < |priority| ::
              && priority[i] == r.value && r.value != current && r.value !in cooling
              && forall j | 0 <= j < i :: priority[j] == current || priority[j] in cooling
    ensures r.None? ==> forall e | e in priority :: e == current || e in cooling
  {
    if priority == [] then None
    else if priority[0] != current && priority[0] !in cooling then
      assert priority[0] == priority[0];
      Some(priority[0])
    else
      var r := NextEntry(priority[1..], cooling, current);
      assert r.Some? ==> exists i | 0 <= i < |priority| ::
          && priority[i] == r.value && r.value != current && r.value !in cooling
          && forall j | 0 <= j < i :: priority[j] == current || priority[j] in cooling
      by {
        if r.Some? {
          var i :| 0 <= i < |priority[1..]| && priority[1..][i] == r.value
                   && forall j | 0 <= j < i :: priority[1..][j] == current || priority[1..][j] in cooling;
          assert priority[i + 1] == r.value;
          forall j | 0 <= j < i + 1 ensures priority[j] == current || priority[j] in cooling {
            assert j > 0 ==> priority[1..][j - 1] == priority[j];
          }
        }
      }
      r
  }

  /** The entries a walk can still go to. */
  ghost function Left(priority: seq<Entry>, cooling: set<Entry>, current: Entry): set<Entry> {
    set e | e in priority && e != current && e !in cooling
  }

  lemma WalkShrinks(priority: seq<Entry>, cooling: set<Entry>, current: Entry, more: set<Entry>)
    requires NextEntry(priority, cooling, current).Some?
    ensures var next := NextEntry(priority, cooling, current).value;
            && next in Left(priority, cooling, current)
            && Left(priority, cooling + more + {current}, next) <= Left(priority, cooling, current) - {next}
            && |Left(priority, cooling + more + {current}, next)| < |Left(priority, cooling, current)|
  {
    var next := NextEntry(priority, cooling, current).value;
    Fewer(Left(priority, cooling + more + {current}, next), Left(priority, cooling, current), next);
  }

  lemma Fewer(a: set<Entry>, b: set<Entry>, x: Entry)
    requires a <= b - {x} && x in b
    ensures |a| < |b|
  {
    Smaller(a, b - {x});
  }

  lemma Smaller(a: set<Entry>, b: set<Entry>)
    requires a <= b
    ensures |a| <= |b|
  {
    assert b == a + (b - a);
  }

  lemma RetryShrinks(priority: seq<Entry>, cooling: set<Entry>, current: Entry, more: set<Entry>)
    requires NextEntry(priority, cooling + more, current).Some?
    ensures var next := NextEntry(priority, cooling + more, current).value;
            |Left(priority, cooling + more + {current}, next)| < |Left(priority, cooling, current)|
  {
    WalkShrinks(priority, cooling + more, current, {});
    assert cooling + more + {} + {current} == cooling + more + {current};
    Smaller(Left(priority, cooling + more, current), Left(priority, cooling, current));
  }

  // ----- conversations

  function DropTrailingUser(messages: seq<Message>): seq<Message> {
    if messages != [] && messages[|messages| - 1].User? then messages[..|messages| - 1] else messages
  }

  /** Dropping the trailing user message gives the conversation back exactly when the failed
      run had pushed one user message onto it, or nothing onto one that did not end with one. */
  lemma DroppingRestoresIff(before: seq<Message>, transcript: seq<Message>)
    ensures DropTrailingUser(transcript) == before <==>
            || (|transcript| == |before| + 1 && transcript[..|before|] == before && transcript[|before|].User?)
            || (transcript == before && (before == [] || !before[|before| - 1].User?))
  {
  }

  // ----- the walk of one prompt

  datatype Walk = Walk(ran: seq<Entry>, seeds: seq<seq<Message>>, cooling: set<Entry>, messages: seq<Message>, failed: bool)

  ghost function WalkFrom(priority: seq<Entry>, cooling: set<Entry>, current: Entry, seed: seq<Message>,
                          oracle: (nat, Entry, seq<Message>) -> Attempt, k: nat): Walk
    decreases |Left(priority, cooling, current)|
  {
    var attempt := oracle(k, current, seed);
    if attempt.Ends? then Walk([current], [seed], cooling, attempt.messages, attempt.failed)
    else
      var cooling' := cooling + attempt.alsoCooled;
      var next := NextEntry(priority, cooling', current);
      if next.None? then Walk([current], [seed], cooling', attempt.transcript, true)
      else if !attempt.rebuilds then Walk([current], [seed], cooling' + {current}, attempt.transcript, true)
      else
        assert |Left(priority, cooling' + {current}, next.value)| < |Left(priority, cooling, current)| by {
          RetryShrinks(priority, cooling, current, attempt.alsoCooled);
        }
        var rest := WalkFrom(priority, cooling' + {current}, next.value, DropTrailingUser(attempt.transcript), oracle, k + 1);
        rest.(ran := [current] + rest.ran, seeds := [seed] + rest.seeds)
  }

  /** No entry runs twice in one prompt, and every retry runs on an entry that was neither
      the first one nor cooling when the prompt began. */
  lemma {:induction false} WalkVisitsOnce(priority: seq<Entry>, cooling: set<Entry>, current: Entry, seed: seq<Message>,
                                          oracle: (nat, Entry, seq<Message>) -> Attempt, k: nat)
    ensures var ran := WalkFrom(priority, cooling, current, seed, oracle, k).ran;
            && ran != [] && ran[0] == current && NoRepeats(ran)
            && forall i | 1 <= i < |ran| :: ran[i] in Left(priority, cooling, current)
    decreases |Left(priority, cooling, current)|
  {
    var attempt := oracle(k, current, seed);
    if attempt.FailsEarly? && attempt.rebuilds {
      var cooling' := cooling + attempt.alsoCooled;
      var next := NextEntry(priority, cooling', current);
      if next.Some? {
        WalkShrinks(priority, cooling', current, {});
        assert cooling' + {} + {current} == cooling' + {current};
        Smaller(Left(priority, cooling', current), Left(priority, cooling, current));
        var seed' := DropTrailingUser(attempt.transcript);
        WalkVisitsOnce(priority, cooling' + {current}, next.value, seed', oracle, k + 1);
        var rest := WalkFrom(priority, cooling' + {current}, next.value, seed', oracle, k + 1).ran;
        assert forall i | 0 <= i < |rest| :: rest[i] in Left(priority, cooling, current);
      }
    }
  }

  lemma {:induction false} DistinctFit(s: seq<Entry>, within: set<Entry>)
    requires NoRepeats(s) && forall i | 0 <= i < |s| :: s[i] in within
    ensures |s| <= |within|
    decreases |s|
  {
    if s != [] {
      forall i | 0 <= i < |s[1..]| ensures s[1..][i] in within - {s[0]} {
        assert s[1..][i] == s[i + 1];
      }
      DistinctFit(s[1..], within - {s[0]});
    }
  }

  /** Over n distinct entries a prompt that starts on one of them falls back at most n - 1 times. */
  lemma AtMostAllButOne(priority: seq<Entry>, cooling: set<Entry>, start: Entry, seed: seq<Message>,
                        oracle: (nat, Entry, seq<Message>) -> Attempt)
    requires start in priority
    ensures |WalkFrom(priority, cooling, start, seed, oracle, 0).ran| - 1 <= |set e | e in priority| - 1
  {
    WalkVisitsOnce(priority, cooling, start, seed, oracle, 0);
    var ran := WalkFrom(priority, cooling, start, seed, oracle, 0).ran;
    DistinctFit(ran, set e | e in priority);
  }

  /** The agent pushes the prompt onto its seed before anything can fail. */
  ghost predicate PushesPrompt(oracle: (nat, Entry, seq<Message>) -> Attempt, prompt: string) {
    forall k, e, seed :: oracle(k, e, seed).FailsEarly? ==> oracle(k, e, seed).transcript == seed + [User(prompt)]
  }

  /** Every run of the prompt is seeded with exactly the conversation that preceded it. */
  lemma {:induction false} EveryRunHasTheSameSeed(priority: seq<Entry>, cooling: set<Entry>, current: Entry,
                                                  seed: seq<Message>, oracle: (nat, Entry, seq<Message>) -> Attempt,
                                                  k: nat, prompt: string)
    requires PushesPrompt(oracle, prompt)
    ensures var w := WalkFrom(priority, cooling, current, seed, oracle, k);
            && |w.seeds| == |w.ran|
            && forall i | 0 <= i < |w.seeds| :: w.seeds[i] == seed
    decreases |Left(priority, cooling, current)|
  {
    var attempt := oracle(k, current, seed);
    if attempt.FailsEarly? && attempt.rebuilds {
      var cooling' := cooling + attempt.alsoCooled;
      var next := NextEntry(priority, cooling', current);
      if next.Some? {
        RetryShrinks(priority, cooling, current, attempt.alsoCooled);
        DroppingRestoresIff(seed, attempt.transcript);
        EveryRunHasTheSameSeed(priority, cooling' + {current}, next.value, seed, oracle, k + 1, prompt);
      }
    }
  }

  // ----- every entry gets its turn

  /** The list without what is in `seen` and without repeats. */
  function Fresh(priority: seq<Entry>, seen: set<Entry>): seq<Entry> {
    if priority == [] then []
    else if priority[0] in seen then Fresh(priority[1..], seen)
    else [priority[0]] + Fresh(priority[1..], seen + {priority[0]})
  }

  lemma {:induction false} FreshHead(priority: seq<Entry>, cooling: set<Entry>, current: Entry)
    ensures var next := NextEntry(priority, cooling, current);
            Fresh(priority, cooling + {current}) ==
            if next.None? then [] else [next.value] + Fresh(priority, cooling + {current} + {next.value})
  {
    if priority != [] {
      FreshHead(priority[1..], cooling, current);
    }
  }

  ghost predicate AllFail(oracle: (nat, Entry, seq<Message>) -> Attempt) {
    forall k, e, seed :: oracle(k, e, seed).FailsEarly? && oracle(k, e, seed).alsoCooled == {} && oracle(k, e, seed).rebuilds
  }

  /** When everything fails, each entry that was not cooling runs once, in the order of the
      list, after the one the prompt started on. */
  lemma {:induction false} FailingWalkTriesAll(priority: seq<Entry>, cooling: set<Entry>, current: Entry,
                                               seed: seq<Message>, oracle: (nat, Entry, seq<Message>) -> Attempt, k: nat)
    requires AllFail(oracle)
    ensures WalkFrom(priority, cooling, current, seed, oracle, k).ran == [current] + Fresh(priority, cooling + {current})
    ensures WalkFrom(priority, cooling, current, seed, oracle, k).failed
    decreases |Left(priority, cooling, current)|
  {
    var attempt := oracle(k, current, seed);
    var cooling' := cooling + attempt.alsoCooled;
    assert cooling' == cooling;
    var next := NextEntry(priority, cooling, current);
    FreshHead(priority, cooling, current);
    if next.Some? {
      RetryShrinks(priority, cooling, current, {});
      assert cooling + {} == cooling;
      FailingWalkTriesAll(priority, cooling + {current}, next.value, DropTrailingUser(attempt.transcript), oracle, k + 1);
    }
  }

  // ----- whether there is a second run

  /** The first run fails before any output, another entry is free and its agent can be built. */
  predicate FallsBack(priority: seq<Entry>, cooling: set<Entry>, first: Attempt, start: Entry) {
    first.FailsEarly? && first.rebuilds && NextEntry(priority, cooling + first.alsoCooled, start).Some?
  }

  lemma SecondRunIff(priority: seq<Entry>, cooling: set<Entry>, start: Entry, seed: seq<Message>,
                     oracle: (nat, Entry, seq<Message>) -> Attempt)
    ensures |WalkFrom(priority, cooling, start, seed, oracle, 0).ran| > 1
            <==> FallsBack(priority, cooling, oracle(0, start, seed), start)
  {
    var first := oracle(0, start, seed);
    if FallsBack(priority, cooling, first, start) {
      var cooling' := cooling + first.alsoCooled;
      WalkVisitsOnce(priority, cooling' + {start}, NextEntry(priority, cooling', start).value,
                     DropTrailingUser(first.transcript), oracle, 1);
    }
  }

  // ----- the objects

  class FallbackManager {
    const enabled: bool
    const priority: seq<Entry>
    var cooling: set<Entry>

    constructor (switchedOn: bool, entries: seq<Entry>, cooling: set<Entry>)
      ensures enabled == (switchedOn && entries != [])
      ensures priority == entries && this.cooling == cooling
    {
      enabled := switchedOn && entries != [];
      priority := entries;
      this.cooling := cooling;
    }

    method Next(current: Entry) returns (next: Option<Entry>)
      ensures next == NextEntry(priority, cooling, current)
    {
      for i := 0 to |priority|
        invariant NextEntry(priority[i..], cooling, current) == NextEntry(priority, cooling, current)
      {
        assert priority[i..][0] == priority[i] && priority[i..][1..] == priority[i + 1..];
        if priority[i] != current && priority[i] !in cooling {
          return Some(priority[i]);
        }
      }
      next := None;
    }

    /** How the terminal front ends ask: they heed the switch, which the prompt loop below never
        looks at, and take what the score has chosen, where there is a score, before the walk.
        That choice only has to be another entry of the combo; it may be cooling. */
    method ChooseNext(current: Entry, scored: Option<Entry>) returns (next: Option<Entry>)
      ensures !enabled ==> next == None
      ensures enabled && scored.Some? && scored.value != current && scored.value in priority ==> next == scored
      ensures enabled && !(scored.Some? && scored.value != current && scored.value in priority) ==>
                next == NextEntry(priority, cooling, current)
    {
      if !enabled {
        return None;
      }
      if scored.Some? && scored.value != current && scored.value in priority {
        return scored;
      }
      next := Next(current);
    }

    method RecordFailure(entry: Entry)
      modifies this
      ensures cooling == old(cooling) + {entry}
    {
      cooling := cooling + {entry};
    }
  }

  /** `rest` is what remains of `whole` once all but the last of `ran` have failed. */
  ghost predicate Continues(whole: Walk, ran: seq<Entry>, seeds: seq<seq<Message>>, rest: Walk)
    requires ran != [] && seeds != []
  {
    && whole.ran == ran[..|ran| - 1] + rest.ran && whole.seeds == seeds[..|seeds| - 1] + rest.seeds
    && whole.cooling == rest.cooling && whole.messages == rest.messages && whole.failed == rest.failed
  }

  lemma LastRun(whole: Walk, ran: seq<Entry>, seeds: seq<seq<Message>>, rest: Walk)
    requires ran != [] && seeds != [] && Continues(whole, ran, seeds, rest)
    requires rest.ran == [ran[|ran| - 1]] && rest.seeds == [seeds[|seeds| - 1]]
    ensures whole == Walk(ran, seeds, rest.cooling, rest.messages, rest.failed)
  {
  }

  lemma NextRun(whole: Walk, ran: seq<Entry>, seeds: seq<seq<Message>>, rest: Walk, after: Walk,
                next: Entry, seed: seq<Message>)
    requires ran != [] && seeds != [] && Continues(whole, ran, seeds, rest)
    requires rest == after.(ran := [ran[|ran| - 1]] + after.ran, seeds := [seeds[|seeds| - 1]] + after.seeds)
    ensures Continues(whole, ran + [next], seeds + [seed], after)
  {
    assert (ran + [next])[..|ran|] == ran && (seeds + [seed])[..|seeds|] == seeds;
    assert ran == ran[..|ran| - 1] + [ran[|ran| - 1]];
    assert seeds == seeds[..|seeds| - 1] + [seeds[|seeds| - 1]];
  }

  /** The loop of `handle_prompt`, with the conversation it leaves in the session. */
  method RunPrompt(manager: FallbackManager, start: Entry, conversation: seq<Message>,
                   oracle: (nat, Entry, seq<Message>) -> Attempt)
    returns (messages: seq<Message>, failed: bool, ghost ran: seq<Entry>, ghost seeds: seq<seq<Message>>)
    modifies manager
    ensures Walk(ran, seeds, manager.cooling, messages, failed) ==
            WalkFrom(manager.priority, old(manager.cooling), start, conversation, oracle, 0)
    ensures |ran| > 1 <==> FallsBack(manager.priority, old(manager.cooling), oracle(0, start, conversation), start)
  {
    SecondRunIff(manager.priority, manager.cooling, start, conversation, oracle);
    var current, k: nat := start, 0;
    messages, ran, seeds := conversation, [start], [conversation];
    ghost var whole := WalkFrom(manager.priority, manager.cooling, start, conversation, oracle, 0);
    while true
      invariant ran != [] && ran[|ran| - 1] == current && seeds != [] && seeds[|seeds| - 1] == messages
      invariant Continues(whole, ran, seeds, WalkFrom(manager.priority, manager.cooling, current, messages, oracle, k))
      decreases |Left(manager.priority, manager.cooling, current)|
    {
      var attempt := oracle(k, current, messages);
      ghost var rest := WalkFrom(manager.priority, manager.cooling, current, messages, oracle, k);
      ghost var before := manager.cooling;
      if attempt.Ends? {
        LastRun(whole, ran, seeds, rest);
        return attempt.messages, attempt.failed, ran, seeds;
      }
      manager.cooling := manager.cooling + attempt.alsoCooled;
      var next := manager.Next(current);
      if next.None? {
        LastRun(whole, ran, seeds, rest);
        return attempt.transcript, true, ran, seeds;
      }
      manager.RecordFailure(current);
      if !attempt.rebuilds {
        LastRun(whole, ran, seeds, rest);
        return attempt.transcript, true, ran, seeds;
      }
      RetryShrinks(manager.priority, before, current, attempt.alsoCooled);
      messages := DropTrailingUser(attempt.transcript);
      NextRun(whole, ran, seeds, rest,
              WalkFrom(manager.priority, manager.cooling, next.value, messages, oracle, k + 1), next.value, messages);
      current, k := next.value, k + 1;
      ran, seeds := ran + [current], seeds + [messages];
    }
  }

  /** A combo of two entries with fallback switched off: the terminal would stop, the prompt
      loop runs the second entry. */
  method SwitchedOffFallsBack(first: Entry, second: Entry, scored: Option<Entry>, transcript: seq<Message>, answer: seq<Message>)
    returns (chosen: Option<Entry>, messages: seq<Message>, failed: bool, ghost ran: seq<Entry>)
    requires first != second
    ensures chosen.None?
    ensures ran == [first, second] && messages == answer && !failed
  {
    var manager := new FallbackManager(false, [first, second], {});
    chosen := manager.ChooseNext(first, scored);
    var oracle := (k: nat, e: Entry, seed: seq<Message>) =>
      if k == 0 then FailsEarly(transcript, {}, true) else Ends(answer, false);
    TwoRuns(first, second, [], oracle);
    ghost var seeds;
    messages, failed, ran, seeds := RunPrompt(manager, first, [], oracle);
  }

  lemma TwoRuns(first: Entry, second: Entry, seed: seq<Message>, oracle: (nat, Entry, seq<Message>) -> Attempt)
    requires first != second
    requires forall e, s :: oracle(0, e, s).FailsEarly? && oracle(0, e, s).rebuilds && oracle(0, e, s).alsoCooled == {}
    requires forall e, s :: oracle(1, e, s).Ends?
    ensures var w, last := WalkFrom([first, second], {}, first, seed, oracle, 0), WalkFrom([first, second], {first}, second,
                  DropTrailingUser(oracle(0, first, seed).transcript), oracle, 1);
            w.ran == [first, second] && last.ran == [second] && w.messages == last.messages && w.failed == last.failed
  {
    var priority, none: set<Entry> := [first, second], {};
    assert none + none == none && none + {first} == {first};
    assert priority[1..] == [second];
    assert NextEntry(priority, none, first) == Some(second);
  }

  // ----- what a walk is made of

  /** The `i`-th attempt of a walk that began with the oracle's `k`-th answer: each but the last
      failed early with an agent built for the next entry, was put on cooldown, and seeded the
      next with its transcript less the trailing prompt; the last is what the prompt comes to. */
  ghost predicate AttemptIs(w: Walk, oracle: (nat, Entry, seq<Message>) -> Attempt, k: nat, i: nat)
    requires i < |w.ran| == |w.seeds|
  {
    var a := oracle(k + i, w.ran[i], w.seeds[i]);
    if i < |w.ran| - 1 then
      && a.FailsEarly? && a.rebuilds && w.ran[i] in w.cooling && a.alsoCooled <= w.cooling
      && w.seeds[i + 1] == DropTrailingUser(a.transcript)
    else if a.Ends? then w.messages == a.messages && w.failed == a.failed
    else w.messages == a.transcript && w.failed && a.alsoCooled <= w.cooling
  }

  lemma LaterAttempt(w: Walk, rest: Walk, start: Entry, seed: seq<Message>,
                     oracle: (nat, Entry, seq<Message>) -> Attempt, k: nat, i: nat)
    requires w == rest.(ran := [start] + rest.ran, seeds := [seed] + rest.seeds)
    requires i < |rest.ran| == |rest.seeds| && AttemptIs(rest, oracle, k + 1, i)
    ensures AttemptIs(w, oracle, k, i + 1)
  {
    assert w.ran[i + 1] == rest.ran[i] && w.seeds[i + 1] == rest.seeds[i];
    assert k + (i + 1) == k + 1 + i;
    if i < |rest.ran| - 1 {
      assert w.seeds[i + 2] == rest.seeds[i + 1];
    }
  }

  lemma FirstAttempt(w: Walk, rest: Walk, start: Entry, seed: seq<Message>,
                     oracle: (nat, Entry, seq<Message>) -> Attempt, k: nat)
    requires w == rest.(ran := [start] + rest.ran, seeds := [seed] + rest.seeds) && |rest.ran| == |rest.seeds| > 0
    requires var a := oracle(k, start, seed);
             && a.FailsEarly? && a.rebuilds && start in rest.cooling && a.alsoCooled <= rest.cooling
             && rest.seeds[0] == DropTrailingUser(a.transcript)
    ensures AttemptIs(w, oracle, k, 0)
  {
    assert w.ran[0] == start && w.seeds[0] == seed && w.seeds[1] == rest.seeds[0] && k + 0 == k;
  }

  lemma {:induction false} WalkIsItsAttempts(priority: seq<Entry>, cooling: set<Entry>, start: Entry, seed: seq<Message>,
                                             oracle: (nat, Entry, seq<Message>) -> Attempt, k: nat)
    ensures var w := WalkFrom(priority, cooling, start, seed, oracle, k);
            && |w.seeds| == |w.ran| > 0 && w.ran[0] == start && w.seeds[0] == seed && cooling <= w.cooling
            && forall i: nat | i < |w.ran| :: AttemptIs(w, oracle, k, i)
    decreases |Left(priority, cooling, start)|
  {
    var w := WalkFrom(priority, cooling, start, seed, oracle, k);
    var first := oracle(k, start, seed);
    assert k + 0 == k;
    if first.FailsEarly? && first.rebuilds {
      var cooling' := cooling + first.alsoCooled;
      var next := NextEntry(priority, cooling', start);
      if next.Some? {
        RetryShrinks(priority, cooling, start, first.alsoCooled);
        var seed' := DropTrailingUser(first.transcript);
        var rest := WalkFrom(priority, cooling' + {start}, next.value, seed', oracle, k + 1);
        WalkIsItsAttempts(priority, cooling' + {start}, next.value, seed', oracle, k + 1);
        FirstAttempt(w, rest, start, seed, oracle, k);
        forall i: nat | i < |w.ran| ensures AttemptIs(w, oracle, k, i) {
          if i > 0 {
            LaterAttempt(w, rest, start, seed, oracle, k, i - 1);
          }
        }
      }
    }
  }

  /** Only a user message at the very end goes, and only one. */
  lemma OnlyThePromptIsDropped(messages: seq<Message>, text: string, answer: string)
    ensures DropTrailingUser(messages + [User(text)]) == messages
    ensures DropTrailingUser(messages + [Assistant(answer)]) == messages + [Assistant(answer)]
    ensures DropTrailingUser(messages + [System(answer)]) == messages + [System(answer)]
    ensures DropTrailingUser([]) == []
  {
  }
}
