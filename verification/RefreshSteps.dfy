/** What the steps of the refresh machine do, in the members of the file. */
module RefreshSteps {
  import opened Wrappers
  import opened GithubAuth
  import opened GithubRefresh

  /** The file has an access token that lasts beyond the next minute. */
  predicate Lasts(file: GithubFile, now: int) {
    && file.accessToken.Some? && file.accessToken.value != ""
    && (file.accessExpiresAt.None? || file.accessExpiresAt.value > now + 60)
  }

  predicate HasPersonal(file: GithubFile) {
    file.personalToken.Some? && file.personalToken.value != ""
  }

  /** An attempt that wants a credential: the personal token before the access token, without
      a request; else it waits to replace whatever access token there is. */
  lemma EnteringTakes(w: World, i: nat)
    requires Enabled(w, Enter(i)) && w.attempts[i].goal.GetCredential? && w.file.Some?
    ensures var f, v := w.file.value, Apply(w, Enter(i));
            && v == w.(attempts := v.attempts) && v.attempts == w.attempts[i := v.attempts[i]]
            && (HasPersonal(f) ==> v.attempts[i] == Done(Token(f.personalToken.value)))
            && (!HasPersonal(f) && Lasts(f, w.now) ==> v.attempts[i] == Done(Token(f.accessToken.value)))
            && (!HasPersonal(f) && !Lasts(f, w.now) ==>
                  && v.attempts[i].Waiting? && v.attempts[i].cleanup == ClearPair && v.attempts[i].seen == w.landed
                  && v.attempts[i].replacing == if f.accessToken == Some("") then None else f.accessToken)
  {
  }

  /** An attempt to recover: a rejected personal token goes at once, and what is left is taken;
      a rejected access token is to be replaced; a token that is on file no longer costs nothing. */
  lemma RecoveryEnters(w: World, i: nat)
    requires Enabled(w, Enter(i)) && w.attempts[i].goal.Recover? && w.file.Some?
    ensures var f, v, rejected := w.file.value, Apply(w, Enter(i)), w.attempts[i].goal.rejected;
            && v.file.Some? && v.holder == w.holder && v.server == w.server && v.landed == w.landed
            && (f.personalToken == Some(rejected) ==>
                  && v.file.value.(login := None) == f.(personalToken := None, login := None)
                  && (Lasts(f, w.now) ==> v.attempts[i] == Done(Token(f.accessToken.value)))
                  && (!Lasts(f, w.now) ==> v.attempts[i].Waiting?))
            && (f.personalToken != Some(rejected) ==> v.file == w.file)
            && (f.personalToken != Some(rejected) && f.accessToken == Some(rejected) ==>
                  v.attempts[i].Waiting? && v.attempts[i].cleanup == DiscardRejected(rejected))
            && (f.personalToken != Some(rejected) && f.accessToken != Some(rejected) ==>
                  (HasPersonal(f) ==> v.attempts[i] == Done(Token(f.personalToken.value)))
                  && (!HasPersonal(f) && Lasts(f, w.now) ==> v.attempts[i] == Done(Token(f.accessToken.value))))
  {
  }

  /** With the lock in hand: the access token that landed meanwhile is taken if it is another one
      and lasts beyond the next minute; else the refresh token on file is sent, if there is one
      and a client id; else the attempt has failed for good. */
  lemma LockHolderDecides(w: World, i: nat)
    requires Enabled(w, Acquire(i)) && w.file.Some?
    ensures var f, v, replacing := w.file.value, Apply(w, Acquire(i)), w.attempts[i].replacing;
            var taken := Lasts(f, w.now) && f.accessToken != replacing;
            var renewable := f.refreshToken.Some? && f.refreshToken.value != "" && f.clientId != "";
            && v.file == w.file && v.server == w.server
            && (taken ==> v.attempts[i] == Done(Token(f.accessToken.value)) && v.holder.None?)
            && (!taken && renewable ==>
                  && v.attempts[i].Requesting? && v.attempts[i].sent == f.refreshToken.value
                  && v.attempts[i].failures == 0 && v.holder == Some(i))
            && (!taken && !renewable ==> v.attempts[i].CleaningUp? && v.holder.None?)
  {
  }

  /** What is done with a reply: a grant replaces the pair and nothing else, a server that was
      unavailable is asked four times in all, a refusal leads to the clean-up. */
  lemma ReplyIsRead(w: World, i: nat)
    requires Enabled(w, Resume(i)) && w.file.Some?
    ensures var f, v, a := w.file.value, Apply(w, Resume(i)), w.attempts[i];
            match a.reply
            case Granted(grant) =>
              && v.attempts[i] == Done(Token(grant.accessToken)) && v.holder.None? && v.landed == w.landed + 1
              && v.file == Some(f.(accessToken := Some(grant.accessToken), refreshToken := grant.refreshToken,
                                   accessExpiresAt := grant.accessExpiresAt, refreshExpiresAt := grant.refreshExpiresAt))
            case Unavailable =>
              && v.file == w.file
              && (if a.failures < 3 then v.attempts[i] == Requesting(a.cleanup, a.sent, a.failures + 1) && v.holder == w.holder
                  else v.attempts[i] == Done(Unreachable) && v.holder.None?)
            case Refused => v.file == w.file && v.attempts[i] == CleaningUp(a.cleanup) && v.holder.None?
  {
  }

  /** The clean-up drops the pair: any pair after a refresh, only the rejected one in a recovery. */
  lemma CleaningDrops(w: World, i: nat)
    requires Enabled(w, CleanUp(i)) && w.file.Some?
    ensures var f, v := w.file.value, Apply(w, CleanUp(i));
            var bare := f.(accessToken := None, refreshToken := None, accessExpiresAt := None, refreshExpiresAt := None, login := None);
            && v.attempts[i] == Done(Reconnect) && v.file.Some?
            && (w.attempts[i].cleanup.ClearPair? ==> v.file.value == bare)
            && (w.attempts[i].cleanup.DiscardRejected? && f.personalToken != Some(w.attempts[i].cleanup.token) ==>
                  v.file.value == if f.accessToken == Some(w.attempts[i].cleanup.token) then bare else f)
  {
  }

  /** What others do to the file: a cadence or a personal token is saved, the latter without an
      account name until its owner is known; time only goes on. */
  lemma OthersSave(w: World, secs: nat, token: Option<string>, later: int)
    requires w.file.Some? && w.now <= later
    ensures Apply(w, SetCadence(secs)) == w.(file := Some(w.file.value.(pollIntervalSecs := Some(secs))))
    ensures Apply(w, SetPersonal(token)) == w.(file := Some(w.file.value.(personalToken := token, login := None)))
    ensures Apply(w, Tick(later)) == w.(now := later)
  {
  }

  /** The server's side of a request: a grant retires the token that was sent and makes the new
      one live, any other reply leaves the server as it was; the file is not touched. */
  lemma ServerAnswers(w: World, i: nat, reply: Reply)
    requires Enabled(w, Answer(i, reply))
    ensures var v, sent := Apply(w, Answer(i, reply)), w.attempts[i].sent;
            && v.file == w.file && v.holder == w.holder && v.landed == w.landed
            && v.attempts[i].Answered? && v.attempts[i].sent == sent && v.attempts[i].reply == reply
            && v.attempts[i].failures == w.attempts[i].failures
            && (if reply.Granted? then
                  && sent !in w.server.retired && v.server.retired == w.server.retired + {sent}
                  && reply.grant.refreshToken == Some(v.server.current)
                  && v.server.current !in w.server.retired && v.server.current != w.server.current
                  && v.exchanged == w.exchanged + [sent]
                else v.server == w.server && v.exchanged == w.exchanged && (reply.Refused? ==> sent in w.server.retired))
  {
  }
}
