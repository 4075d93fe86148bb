/** What follows from the refresh machine's invariant: safety and progress. */
module RefreshGuarantees {
  import opened Wrappers
  import opened GithubAuth
  import opened GithubRefresh
  import opened Sequences

  // ----- safety over every run

  /** Each refresh token is exchanged at most once, whatever the interleaving. */
  lemma ExchangedAtMostOnce(w: World, steps: seq<Step>)
    requires Initial(w) && Legal(w, steps)
    ensures NoRepeats(Run(w, steps).exchanged)
    ensures Run(w, steps).server.current !in Run(w, steps).exchanged
  {
    RunKeeps(w, steps);
  }

  /** Whenever no refresh is in flight, the file holds the server's live refresh token. */
  lemma FileHoldsTheLiveToken(w: World, steps: seq<Step>)
    requires Initial(w) && Legal(w, steps)
    requires Run(w, steps).holder.None?
    ensures Run(w, steps).file.Some?
    ensures Run(w, steps).file.value.refreshToken == Some(Run(w, steps).server.current)
    ensures HasUsableCredentials(Run(w, steps).file, Run(w, steps).now)
  {
    RunKeeps(w, steps);
  }

  /** No attempt is refused, told to reconnect, or ever reaches the clean-up that
      drops the pair; at most one attempt talks to the server at a time. */
  lemma NoAttemptLosesTheConnection(w: World, steps: seq<Step>, i: nat)
    requires Initial(w) && Legal(w, steps) && i < |w.attempts|
    ensures |Run(w, steps).attempts| == |w.attempts|
    ensures var a := Run(w, steps).attempts[i];
            && !a.CleaningUp?
            && (a.Done? ==> a.outcome.Token? || a.outcome.Unreachable?)
            && (a.Answered? ==> !a.reply.Refused?)
            && (a.Requesting? || a.Answered? ==> Run(w, steps).holder == Some(i))
  {
    RunKeeps(w, steps);
    assert AttemptOk(Run(w, steps), i);
  }

  /** An attempt that waited while a refresh landed is answered with the pair that
      landed, without a request of its own. */
  lemma WaiterTakesThePairThatLanded(w: World, steps: seq<Step>, i: nat)
    requires Initial(w) && Legal(w, steps)
    requires var v := Run(w, steps);
             && i < |v.attempts| && v.attempts[i].Waiting? && v.attempts[i].seen < v.landed
             && v.holder.None? && v.file.Some?
             && (v.file.value.accessExpiresAt.None? || v.file.value.accessExpiresAt.value > v.now + 60)
    ensures var v := Run(w, steps);
            && v.file.value.accessToken.Some?
            && Apply(v, Acquire(i)) == Put(v, i, Done(Token(v.file.value.accessToken.value)))
  {
    RunKeeps(w, steps);
    assert AttemptOk(Run(w, steps), i);
  }

  // ----- progress

  /** Steps an attempt still has in it. */
  function Budget(a: Attempt): nat {
    match a
    case Begin(_) => 2 * CONNECT_ATTEMPTS + 3
    case Waiting(_, _, _) => 2 * CONNECT_ATTEMPTS + 2
    case Requesting(_, _, failures) => if failures < CONNECT_ATTEMPTS then 2 * (CONNECT_ATTEMPTS - failures) + 1 else 3
    case Answered(_, _, failures, _) => if failures < CONNECT_ATTEMPTS then 2 * (CONNECT_ATTEMPTS - failures) else 2
    case CleaningUp(_) => 1
    case Done(_) => 0
  }

  function TotalBudget(attempts: seq<Attempt>): nat {
    if attempts == [] then 0 else Budget(attempts[0]) + TotalBudget(attempts[1..])
  }

  predicate ByAttempt(step: Step) {
    !step.Tick? && !step.SetCadence? && !step.SetPersonal?
  }

  function AttemptSteps(steps: seq<Step>): nat {
    if steps == [] then 0 else (if ByAttempt(steps[0]) then 1 else 0) + AttemptSteps(steps[1..])
  }

  lemma {:induction false} TotalBudgetUpdate(attempts: seq<Attempt>, i: nat, a: Attempt)
    requires i < |attempts|
    ensures TotalBudget(attempts[i := a]) == TotalBudget(attempts) - Budget(attempts[i]) + Budget(a)
  {
    if i == 0 {
      assert attempts[i := a][1..] == attempts[1..];
    } else {
      assert attempts[i := a][1..] == attempts[1..][i - 1 := a];
      TotalBudgetUpdate(attempts[1..], i - 1, a);
    }
  }

  lemma StepSpendsBudget(w: World, step: Step)
    requires Enabled(w, step)
    ensures TotalBudget(Apply(w, step).attempts) + (if ByAttempt(step) then 1 else 0) <= TotalBudget(w.attempts)
  {
    if ByAttempt(step) {
      var i := step.i;
      var v := Apply(w, step);
      assert v.attempts == w.attempts[i := v.attempts[i]];
      assert Budget(v.attempts[i]) < Budget(w.attempts[i]);
      TotalBudgetUpdate(w.attempts, i, v.attempts[i]);
    }
  }

  /** No schedule keeps the attempts busy for ever: whatever the server answers,
      n attempts take at most their total budget of steps (eleven each). */
  lemma {:induction false} RunsAreBounded(w: World, steps: seq<Step>)
    requires Legal(w, steps)
    ensures AttemptSteps(steps) + TotalBudget(Run(w, steps).attempts) <= TotalBudget(w.attempts)
    decreases |steps|
  {
    if steps != [] {
      StepSpendsBudget(w, steps[0]);
      RunsAreBounded(Apply(w, steps[0]), steps[1..]);
    }
  }

  /** The lock never wedges: in a reachable world some unfinished attempt can always move. */
  lemma NoDeadlock(w: World, steps: seq<Step>, i: nat)
    requires Initial(w) && Legal(w, steps)
    requires i < |Run(w, steps).attempts| && !Run(w, steps).attempts[i].Done?
    ensures exists step :: ByAttempt(step) && Enabled(Run(w, steps), step)
  {
    RunKeeps(w, steps);
    var v := Run(w, steps);
    assert AttemptOk(v, i);
    var k := if v.attempts[i].Waiting? && v.holder.Some? then v.holder.value else i;
    assert AttemptOk(v, k);
    var step := match v.attempts[k]
      case Begin(_) => Enter(k)
      case Waiting(_, _, _) => Acquire(k)
      case Requesting(_, _, _) => Answer(k, Unavailable)
      case Answered(_, _, _, _) => Resume(k)
      case _ => CleanUp(k);
    assert ByAttempt(step) && Enabled(v, step);
  }

  // ----- what a landing leaves behind

  /** While no refresh lands the live token stays `live`, except inside an exchange. */
  ghost predicate Since(w: World, live: string, landed: nat) {
    && w.landed >= landed
    && (w.server.current == live || live in w.server.retired)
    && (w.landed > landed ==> live in w.server.retired)
    && (w.landed == landed && GrantInHand(w) ==> live in w.server.retired)
    && (w.landed == landed && w.server.current != live ==> GrantInHand(w))
  }

  /** The lock holder has a grant it has not saved yet. */
  ghost predicate GrantInHand(w: World) {
    && w.holder.Some? && w.holder.value < |w.attempts|
    && w.attempts[w.holder.value].Answered? && w.attempts[w.holder.value].reply.Granted?
  }

  lemma LandingRetires(w: World, step: Step, live: string, landed: nat)
    requires Inv(w) && Enabled(w, step) && Since(w, live, landed)
    ensures Since(Apply(w, step), live, landed)
    ensures w.server.retired <= Apply(w, step).server.retired
  {
    if ByAttempt(step) {
      assert AttemptOk(w, step.i);
    }
    if w.holder.Some? {
      assert AttemptOk(w, w.holder.value);
    }
  }

  lemma {:induction false} LandingsRetire(w: World, steps: seq<Step>, live: string, landed: nat)
    requires Inv(w) && Legal(w, steps) && Since(w, live, landed)
    ensures Since(Run(w, steps), live, landed)
    ensures w.server.retired <= Run(w, steps).server.retired
    decreases |steps|
  {
    if steps != [] {
      StepKeeps(w, steps[0]);
      LandingRetires(w, steps[0], live, landed);
      LandingsRetire(Apply(w, steps[0]), steps[1..], live, landed);
    }
  }
}
