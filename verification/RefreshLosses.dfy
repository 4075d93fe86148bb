/**
 Where the guarantees of the refresh end: a reply that is lost on its way back, and a writer
 that saves the file from a copy it read before an await.
 */
module RefreshLosses {
  import opened Wrappers
  import opened GithubAuth
  import opened GithubRefresh

  // ----- lost replies

  /** A step of the protocol, or a rotation whose reply does not arrive: the server retires
      the token and the attempt reads `Unavailable`. */
  datatype LossyStep = Ordinary(step: Step) | Loss(i: nat, grant: TokenGrant)

  predicate LossyEnabled(w: World, s: LossyStep) {
    match s
    case Ordinary(step) => Enabled(w, step)
    case Loss(i, grant) =>
      i < |w.attempts| && w.attempts[i].Requesting? && Honest(w.server, w.attempts[i].sent, Granted(grant))
  }

  function ExchangeAndLoseReply(w: World, i: nat, grant: TokenGrant): World
    requires i < |w.attempts| && w.attempts[i].Requesting?
  {
    var v := Exchange(w, i, Granted(grant));
    Put(v, i, Answered(v.attempts[i].cleanup, v.attempts[i].sent, v.attempts[i].failures, Unavailable))
  }

  function LossyApply(w: World, s: LossyStep): World
    requires LossyEnabled(w, s)
  {
    match s
    case Ordinary(step) => Apply(w, step)
    case Loss(i, grant) => ExchangeAndLoseReply(w, i, grant)
  }

  ghost predicate LossyLegal(w: World, steps: seq<LossyStep>)
    decreases |steps|
  {
    steps == [] || (LossyEnabled(w, steps[0]) && LossyLegal(LossyApply(w, steps[0]), steps[1..]))
  }

  ghost function LossyRun(w: World, steps: seq<LossyStep>): World
    requires LossyLegal(w, steps)
    decreases |steps|
  {
    if steps == [] then w else LossyRun(LossyApply(w, steps[0]), steps[1..])
  }

  predicate AnyLoss(steps: seq<LossyStep>) {
    exists k | 0 <= k < |steps| :: steps[k].Loss?
  }

  ghost predicate StaleAttempt(w: World, i: nat)
    requires i < |w.attempts|
  {
    match w.attempts[i]
    case Requesting(_, sent, _) => sent in w.server.retired
    case Answered(_, sent, _, reply) => sent in w.server.retired && !reply.Granted?
    case _ => true
  }

  /** The live token is nowhere: every token on file, being sent or being answered is retired. */
  ghost predicate Stranded(w: World) {
    && w.server.current !in w.server.retired
    && (w.file.Some? && w.file.value.refreshToken.Some? ==> w.file.value.refreshToken.value in w.server.retired)
    && (forall i: nat | i < |w.attempts| :: StaleAttempt(w, i))
  }

  lemma LossStrands(w: World, i: nat, grant: TokenGrant)
    requires Inv(w) && LossyEnabled(w, Loss(i, grant))
    ensures Stranded(ExchangeAndLoseReply(w, i, grant))
    ensures ExchangeAndLoseReply(w, i, grant).landed == w.landed
  {
    var v := ExchangeAndLoseReply(w, i, grant);
    assert AttemptOk(w, i);
    forall j: nat | j < |v.attempts| ensures StaleAttempt(v, j) {
      assert AttemptOk(w, j);
    }
  }

  /** A rotation can be lost only once: from then on nothing the server would grant is sent. */
  lemma OnlyOneLoss(w: World, s: LossyStep)
    requires Stranded(w) && LossyEnabled(w, s)
    ensures s.Ordinary?
  {
    forall i: nat | i < |w.attempts| && w.attempts[i].Requesting? ensures w.attempts[i].sent in w.server.retired {
      assert StaleAttempt(w, i);
    }
  }

  lemma OneAttemptStranded(w: World, step: Step, j: nat)
    requires Stranded(w) && Enabled(w, step) && j < |w.attempts|
    ensures j < |Apply(w, step).attempts| && StaleAttempt(Apply(w, step), j)
  {
    assert StaleAttempt(w, j);
    SameServer(w, step);
    if !step.Tick? && !step.SetCadence? && !step.SetPersonal? {
      assert StaleAttempt(w, step.i);
    }
  }

  lemma StrandedFile(w: World, step: Step)
    requires Stranded(w) && Enabled(w, step)
    ensures |Apply(w, step).attempts| == |w.attempts|
    ensures var file := Apply(w, step).file;
            file.Some? && file.value.refreshToken.Some? ==> file.value.refreshToken.value in w.server.retired
  {
    if step.Resume? {
      assert StaleAttempt(w, step.i);
    }
  }

  lemma SameServer(w: World, step: Step)
    requires Stranded(w) && Enabled(w, step)
    ensures Apply(w, step).server == w.server && Apply(w, step).landed == w.landed
    ensures Apply(w, step).exchanged == w.exchanged
  {
    if step.Answer? || step.Resume? {
      assert StaleAttempt(w, step.i);
    }
  }

  lemma {:induction false} StrandedStays(w: World, steps: seq<LossyStep>)
    requires Stranded(w) && LossyLegal(w, steps)
    ensures Stranded(LossyRun(w, steps))
    ensures LossyRun(w, steps).server == w.server && LossyRun(w, steps).landed == w.landed
    ensures LossyRun(w, steps).exchanged == w.exchanged
    decreases |steps|
  {
    if steps != [] {
      OnlyOneLoss(w, steps[0]);
      var v := Apply(w, steps[0].step);
      SameServer(w, steps[0].step);
      StrandedFile(w, steps[0].step);
      forall j: nat | j < |v.attempts| ensures StaleAttempt(v, j) {
        OneAttemptStranded(w, steps[0].step, j);
      }
      StrandedStays(v, steps[1..]);
    }
  }

  /** From the first lost rotation on, whatever follows and whatever try it was: no refresh
      ever lands again, nothing more is exchanged, and the file never holds the live token. */
  lemma LostReplyStrandsTheFile(w: World, before: seq<Step>, i: nat, grant: TokenGrant, after: seq<LossyStep>)
    requires Initial(w) && Legal(w, before) && LossyEnabled(Run(w, before), Loss(i, grant))
    requires LossyLegal(ExchangeAndLoseReply(Run(w, before), i, grant), after)
    ensures var lost := ExchangeAndLoseReply(Run(w, before), i, grant);
            var last := LossyRun(lost, after);
            && last.landed == Run(w, before).landed && last.exchanged == lost.exchanged
            && last.server.current == lost.server.current
            && (last.file.Some? ==> last.file.value.refreshToken != Some(last.server.current))
            && (last.file.Some? && last.file.value.refreshToken.Some? ==>
                  last.file.value.refreshToken.value in last.server.retired)
  {
    RunKeeps(w, before);
    LossStrands(Run(w, before), i, grant);
    StrandedStays(ExchangeAndLoseReply(Run(w, before), i, grant), after);
  }

  lemma {:induction false} SoundUntilALoss(w: World, steps: seq<LossyStep>)
    requires Inv(w) && LossyLegal(w, steps)
    ensures if AnyLoss(steps) then Stranded(LossyRun(w, steps)) else Inv(LossyRun(w, steps))
    decreases |steps|
  {
    if steps != [] {
      var v := LossyApply(w, steps[0]);
      AnyLossFrom(steps);
      match steps[0]
      case Ordinary(step) =>
        StepKeeps(w, step);
        SoundUntilALoss(v, steps[1..]);
      case Loss(i, grant) =>
        LossStrands(w, i, grant);
        StrandedStays(v, steps[1..]);
    }
  }

  lemma AnyLossFrom(steps: seq<LossyStep>)
    requires steps != []
    ensures AnyLoss(steps) <==> steps[0].Loss? || AnyLoss(steps[1..])
  {
    if AnyLoss(steps) && !steps[0].Loss? {
      var k :| 0 <= k < |steps| && steps[k].Loss?;
      assert steps[1..][k - 1].Loss?;
    }
    if AnyLoss(steps[1..]) {
      var k :| 0 <= k < |steps[1..]| && steps[1..][k].Loss?;
      assert steps[k + 1].Loss?;
    }
  }

  /** Whenever no refresh is in flight the file holds the live refresh token if and only if
      no rotation's reply was lost on the way there. */
  lemma FileIsLiveIffNothingWasLost(w: World, steps: seq<LossyStep>)
    requires Initial(w) && LossyLegal(w, steps) && LossyRun(w, steps).holder.None?
    ensures var last := LossyRun(w, steps);
            last.file.Some? && last.file.value.refreshToken == Some(last.server.current) <==> !AnyLoss(steps)
  {
    SoundUntilALoss(w, steps);
  }

  // ----- a write from an old copy

  /** `copy` was on file when `landed` refreshes had landed. */
  ghost predicate Copied(w: World, copy: string, landed: nat) {
    && w.file.Some? && w.landed >= landed
    && (w.landed == landed ==> w.file.value.refreshToken == Some(copy))
    && (w.landed > landed ==> copy in w.server.retired && w.file.value.refreshToken != Some(copy))
  }

  lemma CopyAges(w: World, step: Step, copy: string, landed: nat)
    requires Inv(w) && Enabled(w, step) && Copied(w, copy, landed)
    ensures Copied(Apply(w, step), copy, landed)
  {
    if !step.Tick? && !step.SetCadence? && !step.SetPersonal? {
      assert AttemptOk(w, step.i);
    }
  }

  lemma {:induction false} CopyStaysAged(w: World, steps: seq<Step>, copy: string, landed: nat)
    requires Inv(w) && Legal(w, steps) && Copied(w, copy, landed)
    ensures Copied(Run(w, steps), copy, landed)
    decreases |steps|
  {
    if steps != [] {
      StepKeeps(w, steps[0]);
      CopyAges(w, steps[0], copy, landed);
      CopyStaysAged(Apply(w, steps[0]), steps[1..], copy, landed);
    }
  }

  /** `save_personal_token` writes the file twice, the second time from the copy it read
      before awaiting the account lookup. Whatever is in flight at either write: the second
      one leaves the refresh token on file alone if and only if no refresh landed in between;
      otherwise it puts a retired one in its place. */
  lemma SecondPersonalWriteIsSafeIff(w: World, before: seq<Step>, between: seq<Step>, login: string)
    requires Initial(w) && Legal(w, before) && Legal(Run(w, before), between)
    requires Run(w, before).file.Some?
    ensures var first := Run(w, before);
            var last := Run(first, between);
            var written := first.file.value.(login := Some(login));
            && last.file.Some?
            && (written.refreshToken == last.file.value.refreshToken <==> last.landed == first.landed)
            && (last.landed != first.landed ==>
                  written.refreshToken.Some? && written.refreshToken.value in last.server.retired)
            && (last.holder.None? ==>
                  (written.refreshToken == Some(last.server.current) <==> last.landed == first.landed))
  {
    RunKeeps(w, before);
    var first := Run(w, before);
    RunKeeps(first, between);
    var copy := FileToken(first);
    CopyStaysAged(first, between, copy, first.landed);
  }

  lemma FileToken(w: World) returns (token: string)
    requires Inv(w)
    ensures w.file.Some? && w.file.value.refreshToken == Some(token)
  {
    if w.holder.Some? {
      assert AttemptOk(w, w.holder.value);
    }
    token := w.file.value.refreshToken.value;
  }

  // ----- the rest of the file

  predicate SameButLogin(a: GithubFile, b: GithubFile) {
    a.(login := None) == b.(login := None)
  }

  /** The cadence on file after some steps: the last one set. */
  function CadenceAfter(cadence: Option<nat>, steps: seq<Step>): Option<nat>
    decreases |steps|
  {
    if steps == [] then cadence
    else CadenceAfter(if steps[0].SetCadence? then Some(steps[0].secs) else cadence, steps[1..])
  }

  /** The personal token on file after a step: one that is set, or none if an attempt enters
      whose goal is to recover from its rejection. */
  function PersonalNext(personal: Option<string>, attempts: seq<Attempt>, step: Step): Option<string> {
    match step
    case SetPersonal(token) => token
    case Enter(i) =>
      if i < |attempts| && attempts[i].Begin? && attempts[i].goal.Recover? && personal == Some(attempts[i].goal.rejected)
      then None else personal
    case _ => personal
  }

  /** The attempts are those at the start: whoever enters is still where it was then. */
  function PersonalAfter(personal: Option<string>, attempts: seq<Attempt>, steps: seq<Step>): Option<string>
    decreases |steps|
  {
    if steps == [] then personal
    else PersonalAfter(PersonalNext(personal, attempts, steps[0]), attempts, steps[1..])
  }

  lemma StepEdits(w: World, step: Step)
    requires Inv(w) && Enabled(w, step)
    ensures Apply(w, step).file.Some? && Apply(w, step).landed >= w.landed
    ensures var a, b := w.file.value, Apply(w, step).file.value;
            && b.pollIntervalSecs == (if step.SetCadence? then Some(step.secs) else a.pollIntervalSecs)
            && b.personalToken == PersonalNext(a.personalToken, w.attempts, step)
            && b.clientId == a.clientId && b.scope == a.scope && b.createdAt == a.createdAt
            && (Apply(w, step).landed == w.landed ==>
                  && b.accessToken == a.accessToken && b.refreshToken == a.refreshToken
                  && b.accessExpiresAt == a.accessExpiresAt && b.refreshExpiresAt == a.refreshExpiresAt)
  {
    if step.CleanUp? {
      NothingToCleanUp(w, step.i);
    }
  }

  lemma AttemptsOnlyLeave(w: World, step: Step, i: nat)
    requires Enabled(w, step) && i < |w.attempts|
    ensures i < |Apply(w, step).attempts|
    ensures Apply(w, step).attempts[i].Begin? ==> Apply(w, step).attempts[i] == w.attempts[i]
  {
  }

  lemma SameCount(w: World, step: Step)
    requires Enabled(w, step)
    ensures |Apply(w, step).attempts| == |w.attempts|
  {
  }

  /** Whoever enters in a run was at its beginning when the run began. */
  ghost predicate EntersFrom(attempts: seq<Attempt>, steps: seq<Step>) {
    forall k | 0 <= k < |steps| && steps[k].Enter? :: steps[k].i < |attempts| && attempts[steps[k].i].Begin?
  }

  lemma {:induction false} LegalEnters(w: World, steps: seq<Step>)
    requires Legal(w, steps)
    ensures EntersFrom(w.attempts, steps)
    decreases |steps|
  {
    if steps != [] {
      LegalEnters(Apply(w, steps[0]), steps[1..]);
      SameCount(w, steps[0]);
      forall k | 0 <= k < |steps| && steps[k].Enter? ensures steps[k].i < |w.attempts| && w.attempts[steps[k].i].Begin? {
        if k > 0 {
          assert steps[1..][k - 1] == steps[k];
          AttemptsOnlyLeave(w, steps[0], steps[k].i);
        }
      }
    }
  }

  lemma {:induction false} SameAttemptsSamePersonal(personal: Option<string>, a: seq<Attempt>, b: seq<Attempt>, steps: seq<Step>)
    requires |a| == |b| && EntersFrom(b, steps)
    requires forall i | 0 <= i < |b| && b[i].Begin? :: a[i] == b[i]
    ensures PersonalAfter(personal, a, steps) == PersonalAfter(personal, b, steps)
    decreases |steps|
  {
    if steps != [] {
      assert EntersFrom(b, steps[1..]) by {
        assert forall k | 0 <= k < |steps[1..]| :: steps[1..][k] == steps[k + 1];
      }
      SameAttemptsSamePersonal(PersonalNext(personal, a, steps[0]), a, b, steps[1..]);
    }
  }

  /** What a run leaves of the file that it found, read off its steps. */
  lemma {:induction false} RunEdits(w: World, steps: seq<Step>)
    requires Inv(w) && Legal(w, steps)
    ensures Run(w, steps).file.Some? && Run(w, steps).landed >= w.landed
    ensures var a, b := w.file.value, Run(w, steps).file.value;
            && b.pollIntervalSecs == CadenceAfter(a.pollIntervalSecs, steps)
            && b.personalToken == PersonalAfter(a.personalToken, w.attempts, steps)
            && b.clientId == a.clientId && b.scope == a.scope && b.createdAt == a.createdAt
            && (Run(w, steps).landed == w.landed ==>
                  && b.accessToken == a.accessToken && b.refreshToken == a.refreshToken
                  && b.accessExpiresAt == a.accessExpiresAt && b.refreshExpiresAt == a.refreshExpiresAt)
    decreases |steps|
  {
    if steps != [] {
      var v := Apply(w, steps[0]);
      StepKeeps(w, steps[0]);
      StepEdits(w, steps[0]);
      RunEdits(v, steps[1..]);
      LegalEnters(v, steps[1..]);
      SameCount(w, steps[0]);
      forall i | 0 <= i < |v.attempts| && v.attempts[i].Begin? ensures w.attempts[i] == v.attempts[i] {
        AttemptsOnlyLeave(w, steps[0], i);
      }
      SameAttemptsSamePersonal(v.file.value.personalToken, w.attempts, v.attempts, steps[1..]);
    }
  }

  /** The second write puts the whole old copy back, so it leaves the file apart from the
      account name alone if and only if, in between, no refresh landed, the last cadence set
      was the old one and the last personal token was the old one. */
  lemma SecondPersonalWriteUndoesNothingIff(w: World, before: seq<Step>, between: seq<Step>, login: string)
    requires Initial(w) && Legal(w, before) && Legal(Run(w, before), between)
    requires Run(w, before).file.Some?
    ensures var first := Run(w, before);
            var last := Run(first, between);
            var written := first.file.value.(login := Some(login));
            && last.file.Some?
            && (SameButLogin(written, last.file.value) <==>
                  && last.landed == first.landed
                  && CadenceAfter(written.pollIntervalSecs, between) == written.pollIntervalSecs
                  && PersonalAfter(written.personalToken, first.attempts, between) == written.personalToken)
  {
    RunKeeps(w, before);
    RunEdits(Run(w, before), between);
    SecondPersonalWriteIsSafeIff(w, before, between, login);
  }

  /** A cadence set in between is lost, with no refresh anywhere near. */
  lemma CadenceIsLost(w: World, secs: nat, login: string)
    requires Initial(w) && w.file.value.pollIntervalSecs != Some(secs)
    ensures Legal(w, [SetCadence(secs)])
    ensures var last := Run(w, [SetCadence(secs)]);
            var written := w.file.value.(login := Some(login));
            && last.landed == w.landed && last.file.Some? && last.file.value.pollIntervalSecs == Some(secs)
            && written.pollIntervalSecs != Some(secs) && !SameButLogin(written, last.file.value)
  {
    assert [SetCadence(secs)][1..] == [];
  }
}
