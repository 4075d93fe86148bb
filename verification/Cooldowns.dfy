/**
 The fallback walk with a clock: a failure is recorded with the time its cooldown ends, and
 an entry is passed over only until then. Others write to the same registry.
 */
module Cooldowns {
  import opened Wrappers
  import opened Sequences
  import opened Fallback

  type Registry = map<Entry, int>

  /** An early failure: the registry as the search for the next entry finds it, when that
      search reads the clock, and when the failure is recorded. */
  datatype Failure = Failure(registry: Registry, asked: int, recorded: int)

  function Cooling(f: Failure): set<Entry> {
    set e | e in f.registry && f.registry[e] > f.asked
  }

  /** The entries run by a prompt on which these failures befall, in turn, every run. */
  function Ran(priority: seq<Entry>, start: Entry, failures: seq<Failure>): (r: seq<Entry>)
    ensures 1 <= |r| <= |failures| + 1 && r[0] == start
    decreases |failures|
  {
    if failures == [] then [start]
    else
      match NextEntry(priority, Cooling(failures[0]), start)
      case None => [start]
      case Some(next) => [start] + Ran(priority, next, failures[1..])
  }

  /** What holds between each two failures in a row, given the entry that the first befell. */
  ghost predicate Linked(priority: seq<Entry>, start: Entry, failures: seq<Failure>, link: (Entry, Failure, Failure) -> bool)
    decreases |failures|
  {
    |failures| < 2 ||
    var next := NextEntry(priority, Cooling(failures[0]), start);
    next.Some? ==> link(start, failures[0], failures[1]) && Linked(priority, next.value, failures[1..], link)
  }

  /** The registry once the failure is recorded. */
  function Recorded(f: Failure, e: Entry, cooldown: nat): Registry {
    f.registry[e := f.recorded + cooldown]
  }

  /** The clock goes on, and nobody takes a recorded cooldown back or shortens it. */
  ghost predicate Lasting(priority: seq<Entry>, start: Entry, failures: seq<Failure>, cooldown: nat) {
    && (forall k | 0 <= k < |failures| :: failures[k].asked <= failures[k].recorded)
    && Linked(priority, start, failures, (e: Entry, f: Failure, g: Failure) =>
         f.recorded <= g.asked && Outlasts(g.registry, Recorded(f, e, cooldown)))
  }

  ghost predicate Outlasts(later: Registry, earlier: Registry) {
    forall e | e in earlier :: e in later && later[e] >= earlier[e]
  }

  /** An entry on cooldown until `until` is not run before. */
  lemma {:induction false} NotBefore(priority: seq<Entry>, start: Entry, failures: seq<Failure>, cooldown: nat,
                                     e: Entry, until: int, j: nat)
    requires Lasting(priority, start, failures, cooldown)
    requires 1 <= j < |Ran(priority, start, failures)| && Ran(priority, start, failures)[j] == e
    requires e in failures[0].registry && until <= failures[0].registry[e] && until <= failures[0].asked + cooldown
    ensures until <= failures[j - 1].asked
    decreases |failures|
  {
    if j > 1 {
      var next := NextEntry(priority, Cooling(failures[0]), start).value;
      TailOf(start, Ran(priority, next, failures[1..]));
      assert e in Recorded(failures[0], start, cooldown);
      NotBefore(priority, next, failures[1..], cooldown, e, until, j - 1);
    }
  }

  /** An entry runs again only once the cooldown recorded for it has ended. */
  lemma {:induction false} RepeatsOnlyAfterExpiry(priority: seq<Entry>, start: Entry, failures: seq<Failure>, cooldown: nat,
                                                  i: nat, j: nat)
    requires Lasting(priority, start, failures, cooldown)
    requires i < j < |Ran(priority, start, failures)|
    requires Ran(priority, start, failures)[i] == Ran(priority, start, failures)[j]
    ensures failures[j - 1].asked >= failures[i].recorded + cooldown
    decreases |failures|
  {
    var next := NextEntry(priority, Cooling(failures[0]), start).value;
    TailOf(start, Ran(priority, next, failures[1..]));
    if i > 0 {
      RepeatsOnlyAfterExpiry(priority, next, failures[1..], cooldown, i - 1, j - 1);
    } else {
      assert next != start && j > 1;
      assert start in Recorded(failures[0], start, cooldown);
      NotBefore(priority, next, failures[1..], cooldown, start, failures[0].recorded + cooldown, j - 1);
    }
  }

  lemma {:induction false} ClockGoesOn(priority: seq<Entry>, start: Entry, failures: seq<Failure>, cooldown: nat, k: nat, l: nat)
    requires Lasting(priority, start, failures, cooldown)
    requires k < l < |failures| && l < |Ran(priority, start, failures)|
    ensures failures[k].recorded <= failures[l].asked
    decreases |failures|
  {
    var next := NextEntry(priority, Cooling(failures[0]), start).value;
    TailOf(start, Ran(priority, next, failures[1..]));
    if k > 0 {
      ClockGoesOn(priority, next, failures[1..], cooldown, k - 1, l - 1);
    } else if l > 1 {
      ClockGoesOn(priority, next, failures[1..], cooldown, 0, l - 1);
    }
  }

  lemma {:induction false} RanIsListed(priority: seq<Entry>, start: Entry, failures: seq<Failure>, k: nat)
    requires start in priority && k < |Ran(priority, start, failures)|
    ensures Ran(priority, start, failures)[k] in priority
    decreases |failures|
  {
    if k > 0 {
      var next := NextEntry(priority, Cooling(failures[0]), start).value;
      RanIsListed(priority, next, failures[1..], k - 1);
    }
  }

  lemma DifferWithinCooldown(priority: seq<Entry>, start: Entry, failures: seq<Failure>, cooldown: nat, i: nat, j: nat)
    requires Lasting(priority, start, failures, cooldown)
    requires i < j < |Ran(priority, start, failures)|
    requires failures[j - 1].asked < failures[i].recorded + cooldown
    ensures Ran(priority, start, failures)[i] != Ran(priority, start, failures)[j]
  {
    if Ran(priority, start, failures)[i] == Ran(priority, start, failures)[j] {
      RepeatsOnlyAfterExpiry(priority, start, failures, cooldown, i, j);
    }
  }

  lemma DifferInStretch(priority: seq<Entry>, start: Entry, failures: seq<Failure>, cooldown: nat,
                        i: nat, a: nat, b: nat, j: nat)
    requires Lasting(priority, start, failures, cooldown)
    requires i <= a < b <= j < |Ran(priority, start, failures)|
    requires failures[j - 1].asked < failures[i].recorded + cooldown
    ensures Ran(priority, start, failures)[a] != Ran(priority, start, failures)[b]
  {
    Ordered(priority, start, failures, cooldown, i, a);
    Ordered(priority, start, failures, cooldown, b - 1, j - 1);
    DifferWithinCooldown(priority, start, failures, cooldown, a, b);
  }

  /** Of n distinct entries, no more than n runs begin within one cooldown of a failure. */
  lemma {:induction false} RunsPerCooldown(priority: seq<Entry>, start: Entry, failures: seq<Failure>, cooldown: nat, i: nat, j: nat)
    requires Lasting(priority, start, failures, cooldown) && start in priority
    requires i < j < |Ran(priority, start, failures)|
    requires failures[j - 1].asked < failures[i].recorded + cooldown
    ensures j - i + 1 <= |set e | e in priority|
  {
    var stretch := Ran(priority, start, failures)[i..j + 1];
    forall a, b | 0 <= a < b < |stretch| ensures stretch[a] != stretch[b] {
      DifferInStretch(priority, start, failures, cooldown, i, i + a, i + b, j);
    }
    forall a | 0 <= a < |stretch| ensures stretch[a] in set e | e in priority {
      RanIsListed(priority, start, failures, i + a);
    }
    DistinctFit(stretch, set e | e in priority);
  }

  lemma Ordered(priority: seq<Entry>, start: Entry, failures: seq<Failure>, cooldown: nat, k: nat, l: nat)
    requires Lasting(priority, start, failures, cooldown)
    requires k <= l < |failures| && l < |Ran(priority, start, failures)|
    ensures failures[k].recorded <= failures[l].recorded && failures[k].asked <= failures[l].asked
  {
    if k < l {
      ClockGoesOn(priority, start, failures, cooldown, k, l);
    }
  }

  // ----- when no cooldown ends meanwhile

  /** Then the walk is the one whose cooldowns last. */
  ghost predicate NoneEnds(priority: seq<Entry>, start: Entry, failures: seq<Failure>) {
    Linked(priority, start, failures, (e: Entry, f: Failure, g: Failure) => Cooling(f) + {e} <= Cooling(g))
  }

  /** From its `k`-th answer on the oracle plays these failures, and then lets the run end. */
  ghost predicate Plays(oracle: (nat, Entry, seq<Message>) -> Attempt, failures: seq<Failure>, k: nat)
    decreases |failures|
  {
    if failures == [] then forall e, seed :: oracle(k, e, seed).Ends?
    else
      && (forall e, seed :: oracle(k, e, seed).FailsEarly? && oracle(k, e, seed).rebuilds
                            && oracle(k, e, seed).alsoCooled == Cooling(failures[0]))
      && Plays(oracle, failures[1..], k + 1)
  }

  lemma {:induction false} SameAsLastingWalk(priority: seq<Entry>, cooling: set<Entry>, start: Entry, seed: seq<Message>,
                                             failures: seq<Failure>, oracle: (nat, Entry, seq<Message>) -> Attempt, k: nat)
    requires Plays(oracle, failures, k) && NoneEnds(priority, start, failures)
    requires failures != [] ==> cooling <= Cooling(failures[0])
    ensures WalkFrom(priority, cooling, start, seed, oracle, k).ran == Ran(priority, start, failures)
    decreases |failures|
  {
    var attempt := oracle(k, start, seed);
    if failures != [] {
      var cooling' := Cooling(failures[0]);
      assert cooling + cooling' == cooling';
      var next := NextEntry(priority, cooling', start);
      if next.Some? {
        SameAsLastingWalk(priority, cooling' + {start}, next.value, DropTrailingUser(attempt.transcript),
                          failures[1..], oracle, k + 1);
      }
    }
  }

  // ----- when every cooldown ends before the next failure

  /** Each run takes at least as long to fail as a cooldown lasts, and others write only about
      the entry that is running, as its transport does. With `cooldown_seconds` of 0 the clock
      alone sees to the first: the record of a failure lifts what the transport had written. */
  ghost predicate Slow(priority: seq<Entry>, start: Entry, failures: seq<Failure>, cooldown: nat) {
    && (forall k | 0 <= k < |failures| :: failures[k].asked <= failures[k].recorded)
    && (failures != [] ==> Cooling(failures[0]) <= {start})
    && Linked(priority, start, failures, (e: Entry, f: Failure, g: Failure) =>
         && f.recorded + cooldown <= g.asked
         && OnlyAbout(NextEntry(priority, Cooling(f), e), g.registry, Recorded(f, e, cooldown)))
  }

  ghost predicate OnlyAbout(running: Option<Entry>, later: Registry, earlier: Registry) {
    forall e | e in later && Some(e) != running :: e in earlier && later[e] == earlier[e]
  }

  lemma SlowGoesOn(priority: seq<Entry>, start: Entry, failures: seq<Failure>, cooldown: nat)
    requires failures != [] && Slow(priority, start, failures, cooldown)
    requires NextEntry(priority, Cooling(failures[0]), start).Some?
    ensures Slow(priority, NextEntry(priority, Cooling(failures[0]), start).value, failures[1..], cooldown)
  {
    if |failures| > 1 {
      var next := NextEntry(priority, Cooling(failures[0]), start).value;
      var f, g := failures[0], failures[1];
      forall e | e in g.registry && e != next ensures g.registry[e] <= g.asked {
        assert e != start ==> e in f.registry && e !in Cooling(f);
      }
      assert Cooling(failures[1..][0]) <= {next};
    }
  }

  lemma {:induction false} EveryFailureIsRetried(priority: seq<Entry>, start: Entry, failures: seq<Failure>, cooldown: nat,
                                                 a: Entry, b: Entry)
    requires Slow(priority, start, failures, cooldown)
    requires a in priority && b in priority && a != b
    ensures |Ran(priority, start, failures)| == |failures| + 1
    decreases |failures|
  {
    if failures != [] {
      var next := NextEntry(priority, Cooling(failures[0]), start);
      assert next.Some?;
      SlowGoesOn(priority, start, failures, cooldown);
      EveryFailureIsRetried(priority, next.value, failures[1..], cooldown, a, b);
    }
  }

  lemma {:induction false} NowhereElse(priority: seq<Entry>, cooling: set<Entry>, current: Entry)
    requires forall e | e in priority :: e == current
    ensures NextEntry(priority, cooling, current).None?
  {
    if priority != [] {
      assert priority[0] in priority;
      assert forall e | e in priority[1..] :: e in priority;
      NowhereElse(priority[1..], cooling, current);
    }
  }

  /** Then the prompt is retried after every failure, however many there are, exactly when
      the list holds two different entries. */
  lemma RetriedForEverIff(priority: seq<Entry>, start: Entry, failures: seq<Failure>, cooldown: nat)
    requires Slow(priority, start, failures, cooldown) && start in priority && failures != []
    ensures |Ran(priority, start, failures)| == |failures| + 1
            <==> exists a, b :: a in priority && b in priority && a != b
  {
    if a, b :| a in priority && b in priority && a != b {
      EveryFailureIsRetried(priority, start, failures, cooldown, a, b);
    } else {
      NowhereElse(priority, Cooling(failures[0]), start);
    }
  }
}
