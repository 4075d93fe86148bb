/**
 One caller at a time on the connection file: renewing an expired token, recovering
 from a rejected one, and the polling of the device flow. The server is an oracle
 that says how the k-th request of a call ends; saving the file always succeeds.
 */
module ConnectionFile {
  import opened Wrappers
  import opened GithubAuth

  /** Why a call failed: the attempt may be repeated, or the secret cannot renew itself. */
  datatype Failure = Retryable | Permanent

  /** How the refresh request of a call ended, if the call sent one. */
  type Verdict = Option<Reply>

  /** Seconds slept before retry number `failed + 1`: 5, 10, 20, 40, then 60. */
  function BackoffDelay(failed: nat): (d: nat)
    ensures 5 <= d <= 60
  {
    if failed == 0 then 5 else if failed == 1 then 10 else if failed == 2 then 20 else if failed == 3 then 40 else 60
  }

  /** The first delay is five seconds, and each doubles the one before up to a minute. */
  lemma BackoffDoubles(failed: nat)
    ensures BackoffDelay(0) == 5
    ensures BackoffDelay(failed + 1) == if 2 * BackoffDelay(failed) > 60 then 60 else 2 * BackoffDelay(failed)
  {
  }

  /** Total sleep after `failed` failures in a row. */
  function TotalBackoff(failed: nat): nat {
    if failed == 0 then 0 else TotalBackoff(failed - 1) + BackoffDelay(failed - 1)
  }

  /** One operation against the server, retried only while it is unavailable. */
  method RetryConnection(server: nat -> Reply) returns (reply: Reply, requests: nat, slept: nat)
    ensures 1 <= requests <= 4
    ensures forall k: nat | k < requests - 1 :: server(k).Unavailable?
    ensures reply == server(requests - 1)
    ensures reply.Unavailable? ==> requests == 4
    ensures slept == TotalBackoff(requests - 1)
    ensures slept == if requests == 1 then 0 else if requests == 2 then 5 else if requests == 3 then 15 else 35
  {
    var failedAttempts: nat := 0;
    slept := 0;
    while true
      invariant failedAttempts < CONNECT_ATTEMPTS
      invariant forall k: nat | k < failedAttempts :: server(k).Unavailable?
      invariant slept == TotalBackoff(failedAttempts)
      decreases CONNECT_ATTEMPTS - failedAttempts
    {
      reply := server(failedAttempts);
      if reply.Unavailable? && failedAttempts + 1 < CONNECT_ATTEMPTS {
        slept := slept + BackoffDelay(failedAttempts);
        failedAttempts := failedAttempts + 1;
      } else {
        return reply, failedAttempts + 1, slept;
      }
    }
  }

  /** A secret that was on file and is there no longer, with nothing in its place. */
  predicate Discarded(before: Option<string>, after: Option<string>) {
    NonEmpty(before).Some? && after.None?
  }

  class Connection {
    var file: Option<GithubFile>

    constructor (file: Option<GithubFile>)
      ensures this.file == file
    {
      this.file := file;
    }

    /** The pair, its expiries and the account name go; what is left to authenticate with is
        the personal token alone. */
    method ClearOauthTokens()
      modifies this
      ensures old(file).None? ==> file.None?
      ensures old(file).Some? ==>
                && file.Some? && PairIsGone(file.value) && file.value.login.None?
                && file.value.personalToken == old(file).value.personalToken
                && SameSettings(file.value, old(file).value)
                && file.value == ClearOauth(old(file).value)
      ensures forall now :: HasUsableCredentials(file, now) <==>
                            old(file).Some? && NonEmpty(old(file).value.personalToken).Some?
    {
      if file.Some? {
        file := Some(ClearOauth(file.value));
      }
    }

    /** A rejected personal token goes alone, a rejected access token takes the whole pair
        with it; a secret stored as both is left standing as the access token. */
    method InvalidateToken(rejected: string) returns (changed: bool)
      modifies this
      ensures changed <==> OnFile(old(file), rejected)
      ensures !changed ==> file == old(file)
      ensures changed ==> file.Some? && SameSettings(file.value, old(file).value)
      ensures changed && old(file).value.personalToken == Some(rejected) ==>
                && file.value.personalToken.None? && SamePair(file.value, old(file).value)
                && file.value.login == if NonEmpty(old(file).value.accessToken).Some? then old(file).value.login else None
      ensures changed && old(file).value.personalToken != Some(rejected) ==>
                && PairIsGone(file.value) && file.value.login.None?
                && file.value.personalToken == old(file).value.personalToken
                && file.value == ClearOauth(old(file).value)
      ensures OnFile(file, rejected) <==>
                && old(file).Some? && old(file).value.personalToken == Some(rejected)
                && old(file).value.accessToken == Some(rejected)
    {
      changed := file.Some? && (file.value.personalToken == Some(rejected) || file.value.accessToken == Some(rejected));
      if file.Some? {
        file := Some(Invalidate(file.value, rejected));
      }
    }

    /** The refresh itself. Only a grant touches the file, and only the OAuth pair in it. */
    method TryRefresh(server: nat -> Reply, now: int) returns (r: Result<string, Failure>, verdict: Verdict)
      modifies this
      ensures verdict.Some? <==>
                && old(file).Some? && old(file).value.clientId != ""
                && NonEmpty(old(file).value.refreshToken).Some?
      ensures verdict.Some? && verdict.value.Granted? ==>
                && r == Ok(verdict.value.grant.accessToken) && file.Some?
                && Renews(old(file).value, file.value, verdict.value.grant)
      ensures !(verdict.Some? && verdict.value.Granted?) ==> r.Err? && file == old(file)
      ensures r.Err? && r.error.Retryable? <==> verdict == Some(Unavailable)
    {
      verdict := None;
      ghost var replacing := if file.Some? then NonEmpty(file.value.accessToken) else None;
      if file.None? {
        return Err(Permanent), None;
      }
      // Nothing lands between the two reads of a lone caller.
      assert SupersedingAccess(file.value, replacing, now).None?;
      if NonEmpty(file.value.refreshToken).None? || file.value.clientId == "" {
        return Err(Permanent), None;
      }
      var reply, requests, slept := RetryConnection(server);
      verdict := Some(reply);
      match reply
      case Granted(grant) =>
        file := Some(ApplyRefreshed(file.value, grant));
        r := Ok(grant.accessToken);
      case Unavailable => r := Err(Retryable);
      case Refused => r := Err(Permanent);
    }

    /** `refresh_oauth_token_at`: a refresh that fails for good clears the pair. */
    method RefreshOauthToken(server: nat -> Reply, now: int) returns (r: Result<string, Failure>, verdict: Verdict)
      modifies this
      ensures verdict.Some? <==>
                && old(file).Some? && old(file).value.clientId != ""
                && NonEmpty(old(file).value.refreshToken).Some?
      ensures verdict.Some? && verdict.value.Granted? ==>
                && r == Ok(verdict.value.grant.accessToken) && file.Some?
                && Renews(old(file).value, file.value, verdict.value.grant)
      ensures verdict == Some(Unavailable) ==> r.Err? && r.error.Retryable? && file == old(file)
      ensures verdict.None? || verdict.value.Refused? ==>
                && r.Err? && r.error.Permanent?
                && file == if old(file).None? then None else Some(ClearOauth(old(file).value))
    {
      r, verdict := TryRefresh(server, now);
      if r.Err? && r.error.Permanent? {
        ClearOauthTokens();
      }
    }

    /** A call succeeds exactly when a personal token is stored, the access token lasts beyond
        the next minute, or the server grants the refresh. It takes them in that order, and a
        request goes out only when neither of the first two is there. */
    method ActiveCredential(server: nat -> Reply, now: int) returns (r: Result<string, Failure>, verdict: Verdict)
      modifies this
      ensures !HasUsableCredentials(old(file), now) ==> r.Err? && verdict.None?
      ensures old(file).None? ==> r.Err? && verdict.None? && file.None?
      ensures old(file).Some? ==>
                var f := old(file).value;
                var personal := f.personalToken.Some? && f.personalToken.value != "";
                var lasting := f.accessToken.Some? && f.accessToken.value != ""
                               && (f.accessExpiresAt.None? || f.accessExpiresAt.value > now + 60);
                && (personal ==> r == Ok(f.personalToken.value))
                && (!personal && lasting ==> r == Ok(f.accessToken.value))
                && (personal || lasting ==> verdict.None? && file == old(file))
                && (verdict.Some? <==> !personal && !lasting && f.clientId != ""
                                       && f.refreshToken.Some? && f.refreshToken.value != "")
                && (!personal && !lasting ==>
                      (r.Ok? <==> verdict.Some? && verdict.value.Granted?))
                && (verdict.Some? && verdict.value.Granted? ==>
                      && r == Ok(verdict.value.grant.accessToken)
                      && file.Some? && Renews(f, file.value, verdict.value.grant))
      ensures verdict == Some(Unavailable) ==> r.Err? && r.error.Retryable? && file == old(file)
      ensures Spares(old(file), file, None, verdict, now)
      ensures r.Ok? ==> OnFile(file, r.value)
    {
      if file.None? {
        return Err(Permanent), None;
      }
      if NonEmpty(file.value.personalToken).Some? {
        return Ok(file.value.personalToken.value), None;
      }
      if FreshAccess(file.value, now).Some? {
        return Ok(file.value.accessToken.value), None;
      }
      r, verdict := RefreshOauthToken(server, now);
    }

    /** Recovery from a 401 on `rejected`. What it may discard is `Spares`; a rejection
        of a token no longer on file returns the fresh pair and leaves it untouched; an
        access token that is rejected and cannot be renewed does not stay on file. */
    method RecoverFromRejected(rejected: string, server: nat -> Reply, now: int)
      returns (r: Result<string, Failure>, verdict: Verdict)
      modifies this
      ensures Spares(old(file), file, Some(rejected), verdict, now)
      ensures r.Ok? ==> OnFile(file, r.value)
      ensures old(file).None? ==> r.Err? && verdict.None?
      ensures old(file).Some? && old(file).value.personalToken == Some(rejected) ==>
                Serves(old(file).value.(personalToken := None), now, r, verdict) && file.value.personalToken.None?
      ensures old(file).Some? && old(file).value.personalToken != Some(rejected) && old(file).value.accessToken != Some(rejected) ==>
                Serves(old(file).value, now, r, verdict)
      ensures old(file).Some? && old(file).value.personalToken != Some(rejected) && old(file).value.accessToken == Some(rejected) ==>
                && (verdict.Some? <==> old(file).value.clientId != "" && old(file).value.refreshToken.Some?
                                       && old(file).value.refreshToken.value != "")
                && (r.Ok? <==> verdict.Some? && verdict.value.Granted?)
                && (r.Ok? ==> r.value == verdict.value.grant.accessToken
                              && file.Some? && Renews(old(file).value, file.value, verdict.value.grant))
      ensures old(file).Some? && old(file).value.personalToken != Some(rejected)
              && old(file).value.accessToken != Some(rejected)
              && (old(file).value.personalToken.None? || old(file).value.personalToken.value == "")
              && old(file).value.accessToken.Some? && old(file).value.accessToken.value != ""
              && (old(file).value.accessExpiresAt.None? || old(file).value.accessExpiresAt.value > now + 60) ==>
                r == Ok(old(file).value.accessToken.value) && file == old(file) && verdict.None?
      ensures old(file).Some? && old(file).value.personalToken != Some(rejected)
              && old(file).value.accessToken == Some(rejected) && (verdict.None? || verdict.value.Refused?) ==>
                file == Some(ClearOauth(old(file).value))
      ensures verdict == Some(Unavailable) ==>
                && r.Err? && r.error.Retryable? && file.Some?
                && file.value.accessToken == old(file).value.accessToken
                && file.value.refreshToken == old(file).value.refreshToken
    {
      if file.None? {
        return Err(Permanent), None;
      }
      if file.value.personalToken == Some(rejected) {
        var changed := InvalidateToken(rejected);
        r, verdict := ActiveCredential(server, now);
        return;
      }
      if file.value.accessToken == Some(rejected) {
        r, verdict := TryRefresh(server, now);
        if r.Err? && r.error.Permanent? {
          var changed := InvalidateToken(rejected);
        }
        return;
      }
      r, verdict := ActiveCredential(server, now);
    }
  }

  /** The token handed back is the personal or the access token now on file. */
  predicate OnFile(file: Option<GithubFile>, token: string) {
    file.Some? && (file.value.personalToken == Some(token) || file.value.accessToken == Some(token))
  }

  predicate SamePair(a: GithubFile, b: GithubFile) {
    && a.accessToken == b.accessToken && a.refreshToken == b.refreshToken
    && a.accessExpiresAt == b.accessExpiresAt && a.refreshExpiresAt == b.refreshExpiresAt
  }

  /** What a lone call gets from a file: the personal token, else an access token that lasts beyond
      the next minute, else what a refresh comes to, if one can be asked for. */
  predicate Serves(f: GithubFile, now: int, r: Result<string, Failure>, verdict: Verdict) {
    var personal := f.personalToken.Some? && f.personalToken.value != "";
    var lasting := f.accessToken.Some? && f.accessToken.value != ""
                   && (f.accessExpiresAt.None? || f.accessExpiresAt.value > now + 60);
    && (personal ==> r == Ok(f.personalToken.value))
    && (!personal && lasting ==> r == Ok(f.accessToken.value))
    && (verdict.Some? <==> !personal && !lasting && f.clientId != "" && f.refreshToken.Some? && f.refreshToken.value != "")
    && (!personal && !lasting ==> (r.Ok? <==> verdict.Some? && verdict.value.Granted?))
    && (verdict.Some? && verdict.value.Granted? ==> r == Ok(verdict.value.grant.accessToken))
  }

  predicate HoldsGrant(file: GithubFile, grant: TokenGrant) {
    && file.accessToken == Some(grant.accessToken) && file.refreshToken == grant.refreshToken
    && file.accessExpiresAt == grant.accessExpiresAt && file.refreshExpiresAt == grant.refreshExpiresAt
  }

  /** The new pair takes the place of the old one, and nothing else is touched. */
  predicate Renews(before: GithubFile, after: GithubFile, grant: TokenGrant) {
    && HoldsGrant(after, grant) && SameSettings(after, before)
    && after.personalToken == before.personalToken && after.login == before.login
  }

  predicate PairIsGone(file: GithubFile) {
    && file.accessToken.None? && file.refreshToken.None?
    && file.accessExpiresAt.None? && file.refreshExpiresAt.None?
  }

  predicate SameSettings(a: GithubFile, b: GithubFile) {
    && a.clientId == b.clientId && a.scope == b.scope
    && a.pollIntervalSecs == b.pollIntervalSecs && a.createdAt == b.createdAt
  }

  /** Nothing is discarded but what the server refused, or what had expired with no way
      to renew it; settings are never touched. `rejected` is the token the server
      answered 401 to, `verdict` the end of the refresh request, if one was sent. */
  predicate Spares(before: Option<GithubFile>, after: Option<GithubFile>, rejected: Option<string>, verdict: Verdict, now: int) {
    && (before.Some? <==> after.Some?)
    && (before.Some? ==>
          var b, a := before.value, after.value;
          var renewable := NonEmpty(b.refreshToken).Some? && b.clientId != "";
          && (a.personalToken == b.personalToken || (a.personalToken.None? && b.personalToken == rejected))
          && (Discarded(b.accessToken, a.accessToken) ==>
                && (b.accessToken == rejected || (b.accessExpiresAt.Some? && b.accessExpiresAt.value <= now + 60))
                && (renewable ==> verdict == Some(Refused)))
          && (Discarded(b.refreshToken, a.refreshToken) && b.clientId != "" ==>
                && verdict.Some?
                && (verdict.value.Refused? || (verdict.value.Granted? && verdict.value.grant.refreshToken.None?)))
          && (if verdict.Some? && verdict.value.Granted? then HoldsGrant(a, verdict.value.grant)
              else SamePair(a, b) || SamePair(a, ClearOauth(b)))
          && (verdict.Some? ==> renewable)
          && SameSettings(a, b))
  }

  // ----- device-flow polling (RFC 8628, section 3.5)

  /** The members of a token response that are read, each of them optional. */
  datatype PollBody = PollBody(
    accessToken: Option<string>,
    error: Option<string>,
    scope: Option<string>,
    refreshToken: Option<string>,
    accessExpiresAt: Option<int>,
    refreshExpiresAt: Option<int>)

  /** `Failed` with the error code it was read from, or none for an unexpected response. */
  datatype PollAction = Wait | SlowDown | Finished(grant: TokenGrant, scope: Option<string>) | Failed(error: Option<string>)

  const SLOW_DOWN_STEP: nat := 5
  const PENDING := "authorization_pending"
  const SLOW := "slow_down"

  /** A body asks to go on with this code: it has the code and no token, or an empty one. */
  predicate Asks(body: PollBody, code: string) {
    NonEmpty(body.accessToken).None? && body.error == Some(code)
  }

  class PollSchedule {
    var interval: nat

    constructor (interval: nat)
      ensures this.interval == if interval == 0 then 1 else interval
    {
      this.interval := if interval == 0 then 1 else interval;
    }

    /** A token ends the polling whatever else the body says; an empty one is no token, so
        the error code decides. Only `slow_down` changes the pace. */
    method Absorb(body: PollBody) returns (action: PollAction)
      modifies this
      ensures interval == old(interval) + (if Asks(body, "slow_down") then 5 else 0)
      ensures action.Wait? <==> Asks(body, "authorization_pending")
      ensures action.SlowDown? <==> Asks(body, "slow_down")
      ensures action.Finished? <==> NonEmpty(body.accessToken).Some?
      ensures action.Finished? ==>
                && Some(action.grant.accessToken) == body.accessToken && action.scope == body.scope
                && action.grant.refreshToken == NonEmpty(body.refreshToken)
                && action.grant.accessExpiresAt == body.accessExpiresAt
                && action.grant.refreshExpiresAt == body.refreshExpiresAt
      ensures action.Failed? ==> action.error == body.error
    {
      var token := NonEmpty(body.accessToken);
      if token.Some? {
        var grant := TokenGrant(token.value, NonEmpty(body.refreshToken), body.accessExpiresAt, body.refreshExpiresAt);
        return Finished(grant, body.scope);
      }
      if body.error == Some(PENDING) {
        action := Wait;
      } else if body.error == Some(SLOW) {
        interval := interval + SLOW_DOWN_STEP;
        action := SlowDown;
      } else {
        action := Failed(body.error);
      }
    }
  }

  /** How one poll ends: nothing comes back; what comes back is unreadable or carries a status
      worth retrying; it carries a final one; or it has a body to absorb. */
  datatype PollReply = NoResponse | Unusable | Final | Answer(body: PollBody)

  predicate GoesOn(reply: PollReply) {
    reply.NoResponse? || reply.Unusable? || (reply.Answer? && (Asks(reply.body, PENDING) || Asks(reply.body, SLOW)))
  }

  function SlowDowns(replies: seq<PollReply>): nat {
    if replies == [] then 0
    else
      var last := replies[|replies| - 1];
      SlowDowns(replies[..|replies| - 1]) + (if last.Answer? && Asks(last.body, SLOW) then 1 else 0)
  }

  /** Failures in a row. Any response starts the count again, an unusable one as the first. */
  function FailuresInARow(replies: seq<PollReply>): nat {
    if replies == [] then 0
    else
      match replies[|replies| - 1]
      case NoResponse => FailuresInARow(replies[..|replies| - 1]) + 1
      case Unusable => 1
      case _ => 0
  }

  /** The pause after a failure, before the pace of the schedule sets in. */
  function Pause(replies: seq<PollReply>): nat {
    var failures := FailuresInARow(replies);
    if failures == 0 then 0 else BackoffDelay(failures - 1)
  }

  /** `n` polls in a row without a response, behind a response or at the start. */
  lemma {:induction false} SilencesAddUp(replies: seq<PollReply>, n: nat)
    requires replies == [] || replies[|replies| - 1].Answer?
    ensures FailuresInARow(replies + seq(n, _ => NoResponse)) == n
    ensures FailuresInARow(replies + seq(n, _ => NoResponse) + [Unusable]) == 1
    ensures Pause(replies + seq(n + 1, _ => NoResponse)) == BackoffDelay(n)
  {
    SilencesCount(replies, n);
    SilencesCount(replies, n + 1);
    var silent := replies + seq(n, _ => NoResponse);
    assert (silent + [Unusable])[|silent|] == Unusable;
  }

  lemma {:induction false} SilencesCount(replies: seq<PollReply>, n: nat)
    requires replies == [] || replies[|replies| - 1].Answer?
    ensures FailuresInARow(replies + seq(n, _ => NoResponse)) == n
  {
    var silent := replies + seq(n, _ => NoResponse);
    if n == 0 {
      assert silent == replies;
    } else {
      SilencesCount(replies, n - 1);
      assert silent[..|silent| - 1] == replies + seq(n - 1, _ => NoResponse);
      assert silent[|silent| - 1] == NoResponse;
    }
  }

  /** The polling loop. Before the k-th poll it waits the interval it was given plus five
      seconds for each `slow_down` so far, and the pause that a failure in between calls for;
      it never gives up on failures, and stops at the first answer that does not ask for more. */
  method Poll(interval: nat, replies: seq<PollReply>) returns (action: PollAction, waits: seq<nat>)
    ensures |waits| <= |replies|
    ensures forall k | 0 <= k < |waits| ::
              waits[k] == (if interval == 0 then 1 else interval) + 5 * SlowDowns(replies[..k]) + Pause(replies[..k])
    ensures forall k | 0 <= k < |waits| - 1 :: GoesOn(replies[k])
    ensures action.Finished? || action.Failed? <==> |waits| > 0 && !GoesOn(replies[|waits| - 1])
    ensures action.Finished? ==> replies[|waits| - 1].Answer? && Some(action.grant.accessToken) == replies[|waits| - 1].body.accessToken
    ensures action.Wait? || action.SlowDown? ==> |waits| == |replies|
  {
    var schedule := new PollSchedule(interval);
    var failedAttempts, pause: nat := 0, 0;
    waits := [];
    action := Wait;
    while |waits| < |replies|
      invariant |waits| <= |replies|
      invariant action.Wait? || action.SlowDown?
      invariant forall k | 0 <= k < |waits| :: GoesOn(replies[k])
      invariant schedule.interval == (if interval == 0 then 1 else interval) + 5 * SlowDowns(replies[..|waits|])
      invariant failedAttempts == FailuresInARow(replies[..|waits|]) && pause == Pause(replies[..|waits|])
      invariant forall k | 0 <= k < |waits| ::
                  waits[k] == (if interval == 0 then 1 else interval) + 5 * SlowDowns(replies[..k]) + Pause(replies[..k])
    {
      var k := |waits|;
      waits := waits + [schedule.interval + pause];
      assert replies[..k + 1][..k] == replies[..k];
      match replies[k]
      case NoResponse =>
        pause, failedAttempts := BackoffDelay(failedAttempts), failedAttempts + 1;
      case Unusable =>
        pause, failedAttempts := BackoffDelay(0), 1;
      case Final =>
        return Failed(None), waits;
      case Answer(body) =>
        failedAttempts, pause := 0, 0;
        action := schedule.Absorb(body);
        if action.Finished? || action.Failed? {
          return;
        }
    }
  }
}
