/**
 Concurrent token refreshes over one connection file, one process-wide lock and
 one authorization server (RFC 6749, section 6).

 An attempt is a small-step machine. Every stretch of code between two awaits is
 one atomic step; the server's exchange and the attempt's reading of the reply
 are two steps, and so are a failed refresh and the clean-up that follows it, so
 any other attempt may run in between.
 */
module GithubRefresh {
  import opened Wrappers
  import opened GithubAuth
  import opened Sequences

  /** Which entry point an attempt came through. */
  datatype Goal = GetCredential | Recover(rejected: string)

  /** What the caller of the refresh does when the refresh fails for good. */
  datatype Cleanup = ClearPair | DiscardRejected(token: string)

  datatype Outcome = Token(token: string) | Unreachable | Reconnect | NotConnected

  /** Where one attempt stands. `seen` is the number of refreshes that had
      landed when the attempt began to wait for the lock. */
  datatype Attempt =
    | Begin(goal: Goal)
    | Waiting(cleanup: Cleanup, replacing: Option<string>, seen: nat)
    | Requesting(cleanup: Cleanup, sent: string, failures: nat)
    | Answered(cleanup: Cleanup, sent: string, failures: nat, reply: Reply)
    | CleaningUp(cleanup: Cleanup)
    | Done(outcome: Outcome)

  /** The server's side: the live refresh token, those already used, and every
      access token it ever issued. */
  datatype Server = Server(current: string, retired: set<string>, minted: set<string>)

  /** `exchanged`, `landed` and `stored` are history: refresh tokens the server
      exchanged in order, refreshes saved so far, access tokens ever on file. */
  datatype World = World(
    file: Option<GithubFile>,
    holder: Option<nat>,
    attempts: seq<Attempt>,
    server: Server,
    now: int,
    exchanged: seq<string>,
    landed: nat,
    stored: set<string>)

  datatype Step =
    | Enter(i: nat)
    | Acquire(i: nat)
    | Answer(i: nat, reply: Reply)
    | Resume(i: nat)
    | CleanUp(i: nat)
    | Tick(later: int)
    | SetCadence(secs: nat)
    | SetPersonal(token: Option<string>)

  /** The server of the protocol: it always returns a new pair, refuses only a
      refresh token it has retired, and consumes nothing when it is unavailable. */
  predicate Honest(server: Server, sent: string, reply: Reply) {
    match reply
    case Unavailable => true
    case Refused => sent in server.retired
    case Granted(grant) =>
      && sent !in server.retired
      && NonEmpty(grant.refreshToken).Some?
      && grant.refreshToken.value !in server.retired + {server.current}
      && grant.accessToken != "" && grant.accessToken !in server.minted
  }

  predicate Enabled(w: World, step: Step) {
    match step
    case Enter(i) => i < |w.attempts| && w.attempts[i].Begin?
    case Acquire(i) => i < |w.attempts| && w.attempts[i].Waiting? && w.holder.None?
    case Answer(i, reply) =>
      i < |w.attempts| && w.attempts[i].Requesting? && Honest(w.server, w.attempts[i].sent, reply)
    case Resume(i) => i < |w.attempts| && w.attempts[i].Answered?
    case CleanUp(i) => i < |w.attempts| && w.attempts[i].CleaningUp?
    case Tick(later) => w.now <= later
    case SetCadence(_) => w.file.Some?
    case SetPersonal(_) => w.file.Some?
  }

  function Put(w: World, i: nat, attempt: Attempt): World
    requires i < |w.attempts|
  {
    w.(attempts := w.attempts[i := attempt])
  }

  /** `active_credential_at` up to its first await. */
  function EnterCredential(w: World, i: nat): World
    requires i < |w.attempts|
  {
    if w.file.None? then Put(w, i, Done(NotConnected))
    else if NonEmpty(w.file.value.personalToken).Some? then Put(w, i, Done(Token(w.file.value.personalToken.value)))
    else if FreshAccess(w.file.value, w.now).Some? then Put(w, i, Done(Token(w.file.value.accessToken.value)))
    else Put(w, i, Waiting(ClearPair, NonEmpty(w.file.value.accessToken), w.landed))
  }

  /** `recover_from_rejected_token_at` up to its first await. */
  function EnterRecovery(w: World, i: nat, rejected: string): World
    requires i < |w.attempts|
  {
    if w.file.None? then Put(w, i, Done(NotConnected))
    else if w.file.value.personalToken == Some(rejected) then
      EnterCredential(w.(file := Some(Invalidate(w.file.value, rejected))), i)
    else if w.file.value.accessToken == Some(rejected) then
      Put(w, i, Waiting(DiscardRejected(rejected), NonEmpty(w.file.value.accessToken), w.landed))
    else
      EnterCredential(w, i)
  }

  /** From taking the lock to sending the request, or to giving up on it. */
  function TakeLock(w: World, i: nat): World
    requires i < |w.attempts| && w.attempts[i].Waiting?
  {
    var Waiting(cleanup, replacing, _) := w.attempts[i];
    if w.file.None? then Put(w, i, CleaningUp(cleanup))
    else
      var superseding := SupersedingAccess(w.file.value, replacing, w.now);
      if superseding.Some? then Put(w, i, Done(Token(superseding.value)))
      else if NonEmpty(w.file.value.refreshToken).None? || w.file.value.clientId == "" then
        Put(w, i, CleaningUp(cleanup))
      else
        Put(w, i, Requesting(cleanup, w.file.value.refreshToken.value, 0)).(holder := Some(i))
  }

  /** The server's atomic exchange of one request. */
  function Exchange(w: World, i: nat, reply: Reply): World
    requires i < |w.attempts| && w.attempts[i].Requesting?
  {
    var Requesting(cleanup, sent, failures) := w.attempts[i];
    var answered := Put(w, i, Answered(cleanup, sent, failures, reply));
    match reply
    case Granted(grant) =>
      answered.(
        exchanged := w.exchanged + [sent],
        server := Server(if grant.refreshToken.Some? then grant.refreshToken.value else w.server.current,
                         w.server.retired + {sent},
                         w.server.minted + {grant.accessToken}))
    case _ => answered
  }

  /** What the attempt does with the reply, still holding the lock. */
  function ReadReply(w: World, i: nat): World
    requires i < |w.attempts| && w.attempts[i].Answered?
  {
    var Answered(cleanup, sent, failures, reply) := w.attempts[i];
    match reply
    case Granted(grant) =>
      if w.file.None? then Put(w, i, CleaningUp(cleanup)).(holder := None)
      else Put(w, i, Done(Token(grant.accessToken))).(
        holder := None,
        file := Some(ApplyRefreshed(w.file.value, grant)),
        landed := w.landed + 1,
        stored := w.stored + {grant.accessToken})
    case Unavailable =>
      if failures + 1 < CONNECT_ATTEMPTS then Put(w, i, Requesting(cleanup, sent, failures + 1))
      else Put(w, i, Done(Unreachable)).(holder := None)
    case Refused => Put(w, i, CleaningUp(cleanup)).(holder := None)
  }

  function RunCleanup(w: World, i: nat): World
    requires i < |w.attempts| && w.attempts[i].CleaningUp?
  {
    var done := Put(w, i, Done(Reconnect));
    if w.file.None? then done
    else match w.attempts[i].cleanup
      case ClearPair => done.(file := Some(ClearOauth(w.file.value)))
      case DiscardRejected(token) => done.(file := Some(Invalidate(w.file.value, token)))
  }

  function Apply(w: World, step: Step): World
    requires Enabled(w, step)
  {
    match step
    case Enter(i) =>
      (match w.attempts[i].goal
       case GetCredential => EnterCredential(w, i)
       case Recover(rejected) => EnterRecovery(w, i, rejected))
    case Acquire(i) => TakeLock(w, i)
    case Answer(i, reply) => Exchange(w, i, reply)
    case Resume(i) => ReadReply(w, i)
    case CleanUp(i) => RunCleanup(w, i)
    case Tick(later) => w.(now := later)
    case SetCadence(secs) => w.(file := Some(w.file.value.(pollIntervalSecs := Some(secs))))
    case SetPersonal(token) => w.(file := Some(w.file.value.(personalToken := token, login := None)))
  }

  ghost predicate Legal(w: World, steps: seq<Step>)
    decreases |steps|
  {
    steps == [] || (Enabled(w, steps[0]) && Legal(Apply(w, steps[0]), steps[1..]))
  }

  ghost function Run(w: World, steps: seq<Step>): World
    requires Legal(w, steps)
    decreases |steps|
  {
    if steps == [] then w else Run(Apply(w, steps[0]), steps[1..])
  }

  /** A live connection before any attempt has started. */
  ghost predicate Initial(w: World) {
    && w.file.Some? && w.file.value.clientId != ""
    && w.file.value.refreshToken == Some(w.server.current)
    && w.server.current != "" && w.server.current !in w.server.retired
    && w.holder.None?
    && (forall i | 0 <= i < |w.attempts| :: w.attempts[i].Begin?)
    && w.exchanged == [] && w.landed == 0
    && w.stored <= w.server.minted
    && (NonEmpty(w.file.value.accessToken).Some? ==> w.file.value.accessToken.value in w.stored)
  }

  // ----- the invariant

  /** The file's pair, the lock and the server agree, read from one attempt. */
  ghost predicate AttemptOk(w: World, i: nat)
    requires i < |w.attempts| && w.file.Some?
  {
    match w.attempts[i]
    case Begin(_) => true
    case Waiting(_, replacing, seen) =>
      && seen <= w.landed
      && (replacing.Some? ==> replacing.value in w.stored)
      && (seen < w.landed ==>
            NonEmpty(w.file.value.accessToken).Some? && w.file.value.accessToken != replacing)
    case Requesting(_, sent, failures) =>
      && w.holder == Some(i) && failures < CONNECT_ATTEMPTS
      && sent == w.server.current && w.file.value.refreshToken == Some(sent)
    case Answered(_, sent, failures, reply) =>
      && w.holder == Some(i) && failures < CONNECT_ATTEMPTS
      && w.file.value.refreshToken == Some(sent)
      && (match reply
          case Granted(grant) =>
            && sent in w.server.retired
            && grant.refreshToken == Some(w.server.current)
            && grant.accessToken != "" && grant.accessToken !in w.stored
            && grant.accessToken in w.server.minted
          case Unavailable => sent == w.server.current
          case Refused => false)
    case CleaningUp(_) => false
    case Done(outcome) => outcome.Token? || outcome.Unreachable?
  }

  ghost predicate FileOk(w: World) {
    && w.file.Some? && w.file.value.clientId != ""
    && (NonEmpty(w.file.value.accessToken).Some? ==> w.file.value.accessToken.value in w.stored)
    && (w.holder.None? ==> w.file.value.refreshToken == Some(w.server.current))
    && (w.holder.Some? ==>
          w.holder.value < |w.attempts| &&
          (w.attempts[w.holder.value].Requesting? || w.attempts[w.holder.value].Answered?))
  }

  ghost predicate ServerOk(w: World) {
    && w.server.current != "" && w.server.current !in w.server.retired
    && w.stored <= w.server.minted
    && (forall t | t in w.exchanged :: t in w.server.retired)
    && NoRepeats(w.exchanged)
  }

  ghost predicate Inv(w: World) {
    && FileOk(w) && ServerOk(w)
    && (forall i: nat | i < |w.attempts| :: AttemptOk(w, i))
  }

  /** Editing settings or the personal token leaves the OAuth pair, and so the invariant, alone. */
  lemma EditKeeps(w: World, file: GithubFile)
    requires Inv(w)
    requires w.file.value.clientId == file.clientId
    requires w.file.value.accessToken == file.accessToken
    requires w.file.value.refreshToken == file.refreshToken
    ensures Inv(w.(file := Some(file)))
  {
    var v := w.(file := Some(file));
    forall j: nat | j < |v.attempts| ensures AttemptOk(v, j) {
      assert AttemptOk(w, j);
    }
  }

  lemma EnterCredentialKeeps(w: World, i: nat)
    requires Inv(w) && i < |w.attempts| && w.attempts[i].Begin?
    ensures Inv(EnterCredential(w, i))
  {
    var v := EnterCredential(w, i);
    forall j: nat | j < |v.attempts| ensures AttemptOk(v, j) {
      assert AttemptOk(w, j);
    }
  }

  lemma EnterKeeps(w: World, i: nat)
    requires Inv(w) && Enabled(w, Enter(i))
    ensures Inv(Apply(w, Enter(i)))
  {
    match w.attempts[i].goal
    case GetCredential => EnterCredentialKeeps(w, i);
    case Recover(rejected) =>
      if w.file.value.personalToken == Some(rejected) {
        EditKeeps(w, Invalidate(w.file.value, rejected));
        EnterCredentialKeeps(w.(file := Some(Invalidate(w.file.value, rejected))), i);
      } else if w.file.value.accessToken == Some(rejected) {
        var v := EnterRecovery(w, i, rejected);
        forall j: nat | j < |v.attempts| ensures AttemptOk(v, j) {
          assert AttemptOk(w, j);
        }
      } else {
        EnterCredentialKeeps(w, i);
      }
  }

  lemma AcquireKeeps(w: World, i: nat)
    requires Inv(w) && Enabled(w, Acquire(i))
    ensures Inv(Apply(w, Acquire(i)))
  {
    var v := Apply(w, Acquire(i));
    assert AttemptOk(w, i);
    forall j: nat | j < |v.attempts| ensures AttemptOk(v, j) {
      assert AttemptOk(w, j);
    }
  }

  lemma AnswerKeeps(w: World, i: nat, reply: Reply)
    requires Inv(w) && Enabled(w, Answer(i, reply))
    ensures Inv(Apply(w, Answer(i, reply)))
  {
    var v := Apply(w, Answer(i, reply));
    assert AttemptOk(w, i);
    forall j: nat | j < |v.attempts| ensures AttemptOk(v, j) {
      assert AttemptOk(w, j);
    }
  }

  lemma ResumeKeeps(w: World, i: nat)
    requires Inv(w) && Enabled(w, Resume(i))
    ensures Inv(Apply(w, Resume(i)))
  {
    var v := Apply(w, Resume(i));
    assert AttemptOk(w, i);
    forall j: nat | j < |v.attempts| ensures AttemptOk(v, j) {
      assert AttemptOk(w, j);
    }
  }

  lemma NothingToCleanUp(w: World, i: nat)
    requires Inv(w) && i < |w.attempts|
    ensures !w.attempts[i].CleaningUp?
  {
    assert AttemptOk(w, i);
  }

  /** Every step of every attempt, of the server and of the settings keeps the invariant. */
  lemma StepKeeps(w: World, step: Step)
    requires Inv(w) && Enabled(w, step)
    ensures Inv(Apply(w, step))
  {
    match step
    case Enter(i) => EnterKeeps(w, i);
    case Acquire(i) => AcquireKeeps(w, i);
    case Answer(i, reply) => AnswerKeeps(w, i, reply);
    case Resume(i) => ResumeKeeps(w, i);
    case CleanUp(i) => NothingToCleanUp(w, i);
    case Tick(later) =>
      forall j: nat | j < |w.attempts| ensures AttemptOk(w.(now := later), j) {
        assert AttemptOk(w, j);
      }
    case SetCadence(secs) => EditKeeps(w, w.file.value.(pollIntervalSecs := Some(secs)));
    case SetPersonal(token) => EditKeeps(w, w.file.value.(personalToken := token, login := None));
  }

  lemma {:induction false} RunKeeps(w: World, steps: seq<Step>)
    requires Inv(w) && Legal(w, steps)
    ensures Inv(Run(w, steps)) && |Run(w, steps).attempts| == |w.attempts|
    decreases |steps|
  {
    if steps != [] {
      StepKeeps(w, steps[0]);
      RunKeeps(Apply(w, steps[0]), steps[1..]);
    }
  }
}
