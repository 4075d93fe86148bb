/**
 The connection file of the GitHub device flow and the pure decisions made on it:
 which secret backs a call, when an access token is too old to use, and what a
 granted, refused or rejected token does to the stored pair.
 */
module GithubAuth {
  import opened Wrappers

  /** What `github.json` holds. A missing file is `None` of this. */
  datatype GithubFile = GithubFile(
    clientId: string,
    accessToken: Option<string>,
    refreshToken: Option<string>,
    accessExpiresAt: Option<int>,
    refreshExpiresAt: Option<int>,
    personalToken: Option<string>,
    scope: Option<string>,
    login: Option<string>,
    pollIntervalSecs: Option<nat>,
    createdAt: Option<int>)

  datatype TokenGrant = TokenGrant(
    accessToken: string,
    refreshToken: Option<string>,
    accessExpiresAt: Option<int>,
    refreshExpiresAt: Option<int>)

  /** How one request to the token endpoint ends: a new pair, a failure worth
      retrying (transport, 408, 429, 5xx), or any answer that is final. */
  datatype Reply = Granted(grant: TokenGrant) | Unavailable | Refused

  /** Seconds of skew that keep a token from expiring between check and call. */
  const EXPIRY_SKEW := 60

  /** One initial request plus three retries. */
  const CONNECT_ATTEMPTS: nat := 4

  /** An empty secret counts as no secret. */
  function NonEmpty(secret: Option<string>): (r: Option<string>)
    ensures r.Some? <==> secret.Some? && secret.value != ""
    ensures r.Some? ==> r == secret
  {
    if secret.Some? && secret.value != "" then secret else None
  }

  predicate Expired(expiresAt: Option<int>, now: int) {
    expiresAt.Some? && expiresAt.value <= now + EXPIRY_SKEW
  }

  /** The access token that can be used as it is, if there is one. */
  function FreshAccess(file: GithubFile, now: int): Option<string> {
    if Expired(file.accessExpiresAt, now) then None else NonEmpty(file.accessToken)
  }

  predicate HasUsableCredentials(file: Option<GithubFile>, now: int) {
    && file.Some?
    && (|| NonEmpty(file.value.personalToken).Some?
        || NonEmpty(file.value.refreshToken).Some?
        || FreshAccess(file.value, now).Some?)
  }

  /** The stored access token a waiting attempt hands back instead of refreshing. */
  function SupersedingAccess(file: GithubFile, replacing: Option<string>, now: int): Option<string> {
    var stored := NonEmpty(file.accessToken);
    if stored.None? || stored == replacing || Expired(file.accessExpiresAt, now) then None else stored
  }

  function ApplyRefreshed(file: GithubFile, grant: TokenGrant): GithubFile {
    file.(accessToken := Some(grant.accessToken),
          refreshToken := grant.refreshToken,
          accessExpiresAt := grant.accessExpiresAt,
          refreshExpiresAt := grant.refreshExpiresAt)
  }

  function ClearOauth(file: GithubFile): GithubFile {
    file.(accessToken := None, refreshToken := None,
          accessExpiresAt := None, refreshExpiresAt := None, login := None)
  }

  /** Discard exactly the secret that was rejected, if it is still on file. */
  function Invalidate(file: GithubFile, rejected: string): GithubFile {
    if file.personalToken == Some(rejected) then
      file.(personalToken := None,
            login := if NonEmpty(file.accessToken).None? then None else file.login)
    else if file.accessToken == Some(rejected) then
      ClearOauth(file)
    else
      file
  }

  // ----- the decisions in the file's own members

  /** A personal token, a refresh token, or an access token that does not expire within the
      next minute; an empty one counts for nothing. */
  lemma UsableCredentialsIff(file: Option<GithubFile>, now: int)
    ensures HasUsableCredentials(file, now) <==>
              && file.Some?
              && (|| (file.value.personalToken.Some? && file.value.personalToken.value != "")
                  || (file.value.refreshToken.Some? && file.value.refreshToken.value != "")
                  || (file.value.accessToken.Some? && file.value.accessToken.value != ""
                      && (file.value.accessExpiresAt.None? || file.value.accessExpiresAt.value > now + 60)))
  {
  }

  /** A waiting attempt is handed the stored access token exactly when it is not the one it set
      out to replace and lasts beyond the next minute. */
  lemma SupersededIff(file: GithubFile, replacing: Option<string>, now: int, token: string)
    ensures SupersedingAccess(file, replacing, now) == Some(token) <==>
              && file.accessToken == Some(token) && token != "" && replacing != Some(token)
              && (file.accessExpiresAt.None? || file.accessExpiresAt.value > now + 60)
  {
  }
}
