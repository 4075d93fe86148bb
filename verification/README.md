# Verified models of the desktop app and the agent

Dafny models of the parts of this repository whose correctness is hardest to see by
reading: a GitHub token refresh that many tasks run at once, a JSON-RPC server whose
handlers interleave, hand-written scanners and codecs, calendar arithmetic, and a few
small algorithms with real invariants. Code that changes state step by step is modelled by
methods and classes proved against a specification; concurrent code by state machines
whose steps are the stretches between two awaits; the rest by functions and lemmas.

`dafny verify dfyconfig.toml` checks everything.

| files | what they model |
|---|---|
| `GithubAuth`, `ConnectionFile`, `GithubRefresh`, `RefreshSteps`, `RefreshGuarantees`, `RefreshLosses` | the connection file of the GitHub device flow, one caller at a time and many at once, with replies lost and without |
| `Calendar`, `SessionTime` | day numbers to Gregorian dates, and the time column made of them |
| `SqlSplitter`, `SqlSplitterLaws`, `SqlLexemes`, `SqlKeywords` | the migration splitter, what holds of every split, quotes and comments, BEGIN and END |
| `PngFilter`, `PngFile`, `Grain` | the icon script: scanline filters, the file format, the noise |
| `AcpRuns`, `AcpOutbound`, `AcpServer`, `AcpEffects`, `StuckPrompts` | the ACP server: run slots, requests to the client, replies to it, prompts that hang |
| `Providers`, `Selection`, `CatalogueRules`, `Fallback`, `Cooldowns` | the provider catalogue, model references and their rules, the combo fallback and its clock |
| `SubAgents`, `ThinkTags` | spawned agents and their result slots, the cleaning of their answers |
| `RepoWalk`, `GitRemote`, `GitHost`, `RemoteChoice`, `GitExclude` | repository discovery, remote URLs and their hosts, the choice of a remote, the exclude file |
| `ResponseFormat` | streamed completions read into segments |
| `Wrappers`, `Sequences`, `Text`, `NameOrder` | shared result types, sequence facts, string operations, stable sorting |

## Where the code does not do what it says

The models follow the code. These are the places where a comment, a standard or a natural
reading promises more, each with the lemma that says exactly when the promise holds.

- `acp.rs:1676-1687` means to report a selection that cannot be run, but clears the run slot
  while it still holds the session's lock, so the prompt hangs and never replies. That
  happens in some run exactly when some selection a client can make cannot be run
  (`AcpServer.NobodyIsEverStuckIff`), which comes down to what a `providers.combos` entry in
  the config file lists (`StuckPrompts.NoPromptHangsIff`).
- `acp.rs` answers notifications with a null id, where section 4.1 of JSON-RPC 2.0 asks for
  silence; `AcpServer.NotificationUnansweredIff` says which it does not answer.
- `providers.rs:534` says that combos come in config order. They sit in a hash map, so their
  order, and with it the model a bare `combos` selects, is arbitrary as soon as there are two
  (`Selection.DefaultComboIsFixedIff`).
- `providers.rs:992-1002` does not look at the fallback switch, and neither does the loop at
  `acp.rs:1745-1817`, though `providers.rs:1611` does: a prompt on a combo falls back with
  fallback switched off, exactly when it would with it on (`Fallback.SecondRunIff`,
  `Fallback.RunPrompt`; at two entries `Fallback.SwitchedOffFallsBack`).
- A fallback cooldown of zero seconds, or any that ends before the next failure, lets a
  failing combo be retried for ever exactly when it has two different entries
  (`Cooldowns.RetriedForEverIff`).
- `github_auth.rs:998-1025` writes the connection file a second time from the copy it read
  before an await, and so undoes what was written in between. It leaves the refresh token alone
  exactly when no refresh landed (`RefreshLosses.SecondPersonalWriteIsSafeIff`), and the whole
  file apart from the account name exactly when, besides, cadence and personal token came out
  as they were (`RefreshLosses.SecondPersonalWriteUndoesNothingIff`; at a new cadence
  `RefreshLosses.CadenceIsLost`).
- A refresh whose reply is lost after the server rotated the pair strands the connection for
  good (`RefreshLosses.LostReplyStrandsTheFile`); the file stays live exactly as long as that
  does not happen (`RefreshLosses.FileIsLiveIffNothingWasLost`).
- `telemetry_migrations.rs:228-230` says that "beginning" is not taken for BEGIN. The check
  runs after every character, so the keyword counts as soon as its last letter arrives
  (`SqlKeywords.BeginningCountsAsBegin`). And `telemetry_migrations.rs:135-139` promises not to
  split inside a block, but the keyword counts only behind a space: a BEGIN at the start of a
  line opens none (`SqlKeywords.BlockOnItsOwnLineIsCut`). For which words the check stands for
  the keyword is `SqlKeywords.KeywordIsTheWholeWordIff`.
- `telemetry_migrations.rs:206-217` rescans the buffer without knowing where a backtick
  literal ended; it agrees with the scanner exactly when no such literal before the last
  lexeme holds an unbalanced quote (`SqlSplitterLaws.RescanAgreesIff`).
- `icon-grain.py:88` sizes the noise grid from the width alone; a taller image whose lower
  lines have an opaque pixel runs off it (`Grain.AddGrain`, `Grain.TallImagesFail`).
- `coding_git.rs:224-226` says that a host that merely contains the name is rejected, and
  `coding_git.rs:259-260` that remotes on other hosts are never used. A remote on gitlab.com
  is, with the name as the first part of its path (`RemoteChoice.GitLabIsTaken`); the remote
  chosen is on GitHub exactly when the name stands as its host
  (`RemoteChoice.TakenIsOnGithubIff`), and which part of a URL the pair is read behind is
  `GitHost.ReadBehindFirstPart`.
- The result of `strip_think_tags` can hold an opening tag, exactly when taking blocks out
  joins one (`ThinkTags.TagRemainsIff`).
- A panic of one sub-agent is reported in the slot of another that is still running, and is
  lost when that one completes (`SubAgents.NoResultPerOverwrite`).

## Model

| member | source | states |
|---|---|---|
| `GithubRefresh.StepKeeps` | apps/taskstream-desktop/src/github_auth.rs:676-799 | Every atomic step of every attempt, of the server, of the clock and of the settings writers keeps the invariant that ties the file's pair, the lock and the server's live refresh token together. |
| `GithubRefresh.RunKeeps` | apps/taskstream-desktop/src/github_auth.rs:676-799 | The same over any interleaving of any number of attempts; none is lost or added on the way. |
| `RefreshSteps.EnteringTakes` | apps/taskstream-desktop/src/github_auth.rs:676-700 | An attempt takes the personal token before the access token, the latter only if it lasts beyond the next minute, both without a request; else it waits to replace whatever access token is on file. |
| `RefreshSteps.RecoveryEnters` | apps/taskstream-desktop/src/github_auth.rs:858-892 | A rejected personal token goes at once and what is left is taken; a rejected access token is to be replaced; a rejected token that is on file no longer costs nothing. |
| `RefreshSteps.LockHolderDecides` | apps/taskstream-desktop/src/github_auth.rs:749-785 | With the lock: another access token on file that lasts beyond the next minute is taken; else the refresh token on file is sent, if it and a client id are there; else the attempt has failed for good. |
| `RefreshSteps.ReplyIsRead` | apps/taskstream-desktop/src/github_auth.rs:786-799 | A grant replaces the pair and nothing else; a server that is unavailable is asked four times in all; a refusal leads to the clean-up. |
| `RefreshSteps.CleaningDrops` | apps/taskstream-desktop/src/github_auth.rs:733-747 | After a failed refresh the clean-up drops the pair, in a recovery only the rejected one. |
| `RefreshSteps.ServerAnswers` | apps/taskstream-desktop/src/github_auth.rs:803-842 | What the model's server does: a grant retires the token sent and makes a new one live, other replies change nothing. |
| `RefreshSteps.OthersSave` | apps/taskstream-desktop/src/github_auth.rs:965-1025 | A cadence or a personal token is saved alone, the latter without an account name. |
| `RefreshGuarantees.ExchangedAtMostOnce` | apps/taskstream-desktop/src/github_auth.rs:749-799 | No refresh token is ever exchanged twice, and the live one has not been exchanged (section 6 of RFC 6749). |
| `RefreshGuarantees.FileHoldsTheLiveToken` | apps/taskstream-desktop/src/github_auth.rs:713-799 | Whenever no refresh is in flight the file holds the refresh token the server will accept next, and the connection counts as usable. |
| `RefreshGuarantees.NoAttemptLosesTheConnection` | apps/taskstream-desktop/src/github_auth.rs:733-799 | Against an honest server no attempt is refused, told to reconnect or reaches the clean-up that drops the pair; only the lock holder talks to the server. |
| `RefreshGuarantees.WaiterTakesThePairThatLanded` | apps/taskstream-desktop/src/github_auth.rs:722-731 | An attempt that waited while a refresh landed is answered with the stored token and sends no request. |
| `RefreshGuarantees.RunsAreBounded` | apps/taskstream-desktop/src/github_auth.rs:117-136 | Whatever the server answers, the attempts together take at most their budget of steps: the retry loop cannot spin. |
| `RefreshGuarantees.NoDeadlock` | apps/taskstream-desktop/src/github_auth.rs:713-799 | In every reachable state with an unfinished attempt some attempt can move: the lock never wedges. |
| `RefreshLosses.LostReplyStrandsTheFile` | apps/taskstream-desktop/src/github_auth.rs:749-799 | Where the guarantee ends: once the server rotated the pair and the reply was lost, on whatever try, no refresh lands in any continuation, nothing more is exchanged, and the file never holds the live token again. |
| `RefreshLosses.FileIsLiveIffNothingWasLost` | apps/taskstream-desktop/src/github_auth.rs:749-799 | In every run of the protocol in which replies may be lost, whenever no refresh is in flight the file holds the live refresh token if and only if no rotation's reply was lost. |
| `RefreshGuarantees.LandingsRetire` | apps/taskstream-desktop/src/github_auth.rs:749-799 | Over any run, once a refresh lands the token that was live before is retired and stays so. |
| `RefreshLosses.SecondPersonalWriteIsSafeIff` | apps/taskstream-desktop/src/github_auth.rs:998-1025 | Whatever is in flight at either write: the second write of a saved personal token leaves the refresh token on file alone if and only if no refresh landed since the first; otherwise it puts a retired one back. |
| `RefreshLosses.SecondPersonalWriteUndoesNothingIff` | apps/taskstream-desktop/src/github_auth.rs:998-1025 | The second write leaves the whole file apart from the account name alone if and only if, in between, no refresh landed, the last cadence set was the old one and the personal token came out as the old one, both read off the steps in between. |
| `RefreshLosses.CadenceIsLost` | apps/taskstream-desktop/src/github_auth.rs:965-1025 | A new cadence set in between is undone although no refresh landed. |
| `ConnectionFile.RetryConnection` | apps/taskstream-desktop/src/github_auth.rs:89-136 | At most four requests; all but the last met an unavailable server; the reply is that of the last; the time slept is 0, 5, 15 or 35 seconds. |
| `ConnectionFile.BackoffDoubles` | apps/taskstream-desktop/src/github_auth.rs:89-95 | The first delay is five seconds, and each doubles the one before up to a minute. |
| `GithubAuth.UsableCredentialsIff` | apps/taskstream-desktop/src/github_auth.rs:645-660 | Usable credentials are a personal token, a refresh token, or an access token that does not expire within the next minute. |
| `GithubAuth.SupersededIff` | apps/taskstream-desktop/src/github_auth.rs:722-731 | A waiting attempt is handed the stored access token exactly when it is not the one to be replaced and lasts beyond the next minute. |
| `ConnectionFile.Connection.ClearOauthTokens` | apps/taskstream-desktop/src/github_auth.rs:919-933 | The pair, its expiries and the account name go, the personal token and the settings stay; afterwards there are usable credentials if and only if a personal token is on file. |
| `ConnectionFile.Connection.InvalidateToken` | apps/taskstream-desktop/src/github_auth.rs:894-917 | It answers whether the secret was on file and changes nothing otherwise; a personal token goes alone, an access token takes its pair with it, settings stay; afterwards the secret is on file only if it had been stored as both. |
| `ConnectionFile.Connection.TryRefresh` | apps/taskstream-desktop/src/github_auth.rs:749-799 | A request is sent exactly when there is a client id and a refresh token; only a grant changes the file; a failure is worth retrying exactly when the server was unavailable. |
| `ConnectionFile.Connection.RefreshOauthToken` | apps/taskstream-desktop/src/github_auth.rs:733-747 | A refresh that fails for good clears the pair, one that may be retried leaves the file as it was. |
| `ConnectionFile.Connection.ActiveCredential` | apps/taskstream-desktop/src/github_auth.rs:676-705 | The personal token if there is one, else the access token if it has no expiry or one more than sixty seconds away, both without a request; else, and only then, the refresh token is sent, if it and a client id are there, and the call succeeds exactly when that is granted; the token returned is on file. |
| `ConnectionFile.Connection.RecoverFromRejected` | apps/taskstream-desktop/src/github_auth.rs:858-892 | After a 401 a stored secret is discarded only if the server refused it or it had expired beyond renewal. A rejected personal token goes and what is left is served, a rejected access token is renewed if a refresh can be asked for and granted, and a rejection of a token no longer on file is served like any call; a rejected token that cannot be renewed does not stay. |
| `ConnectionFile.PollSchedule.Absorb` | apps/taskstream-desktop/src/github_auth.rs:411-450 | A non-empty token finishes whatever else the body says, with all the members of its grant; an empty one is no token, so the error code decides: only pending and `slow_down` go on, and only `slow_down` lengthens the interval, by five seconds for good. |
| `ConnectionFile.Poll` | apps/taskstream-desktop/src/github_auth.rs:492-582 | Before the k-th poll the wait is the given interval plus five seconds for each `slow_down` so far (section 3.5 of RFC 8628) plus the back-off of the failures since the last response; failures never end it, the first answer that does not ask for more does. |
| `ConnectionFile.SilencesAddUp` | apps/taskstream-desktop/src/github_auth.rs:492-582 | Polls without a response in a row are counted from the last response on, an unusable response counts as the first, and the pause is that of the count. |
| `Calendar.YearOfEraIsRight` | apps/agent-cli/src/telemetry.rs:1170-1172 | The nested divisions find the year of the 400-year era, with its 4, 100 and 400 rules, for every day of the era. |
| `Calendar.CivilFromDays` | apps/agent-cli/src/telemetry.rs:1167-1182 | Every day number, negative ones included, gives a date of the Gregorian calendar whose independent day count is that number. |
| `Calendar.SuccessorIsNextDay` | apps/agent-cli/src/telemetry.rs:1167-1182 | The independent day count of the calendar successor of a date is one more than that of the date. |
| `Calendar.CivilFromDaysInverts` | apps/agent-cli/src/telemetry.rs:1167-1182 | The other way round: every date of the calendar is the one computed for its day count. |
| `Calendar.NextDayIsSuccessor` | apps/agent-cli/src/telemetry.rs:1167-1182 | Of any conversion that gives each day number a date of the calendar with that day count, as this one does, day d + 1 is the calendar successor of day d, for every integer d. |
| `Calendar.CivilFromDaysFollows` | apps/agent-cli/src/telemetry.rs:1167-1182 | For the source's own conversion: every day number gives a date of the calendar, and day d + 1 is the calendar successor of day d. |
| `Calendar.DayIsUnique` | apps/agent-cli/src/telemetry.rs:1167-1182 | At most one date is reached from 1970-01-01 by stepping a given number of days. |
| `Calendar.FollowingIsCounting` | apps/agent-cli/src/telemetry.rs:1167-1182 | Any function on day numbers that starts at day 0 and steps by calendar successor is that stepping. |
| `Calendar.CivilFromDaysIsTheCalendar` | apps/agent-cli/src/telemetry.rs:1167-1182 | A date is the computed one if and only if stepping day by day from 1970-01-01 leads to it. |
| `Calendar.NoOverflow` | apps/agent-cli/src/telemetry.rs:1167-1182 | For every day number a clock can hold, the intermediate values stay within 64 bits. |
| `SessionTime.PrintedTimeReadsBack` | apps/agent-cli/src/telemetry.rs:1157-1164 | Reading a printed time gives back its day, hour and minute, for any conversion of day numbers that is right, as the source's is. |
| `SessionTime.SameColumnSameMinute` | apps/agent-cli/src/telemetry.rs:1157-1164 | Two times print alike if and only if they fall in the same minute. |
| `SessionTime.PrintsItsOwnTime` | apps/agent-cli/src/telemetry.rs:1157-1164 | The column printed for a time reads as the calendar's day reached by that many days from 1970-01-01 and the minute of that day; a time before the epoch prints as the epoch. |
| `SessionTime.PrintsTheDigits` | apps/agent-cli/src/telemetry.rs:1157-1164 | Which digit stands where in `YYYY-MM-DD HH:MM`. |
| `SessionTime.PrintsTheSeparators` | apps/agent-cli/src/telemetry.rs:1157-1164 | Dashes, space and colon stand between the fields, and everything else is a digit. |
| `SqlSplitter.SplitSql` | apps/agent-cli/src/telemetry_migrations.rs:140-204 | The scanner as written, with its lookahead, its nested loops and its rescan of the buffer, computes the split of the lexeme stream. |
| `SqlSplitter.MainTurn` | apps/agent-cli/src/telemetry_migrations.rs:145-196 | One turn of the loop consumes exactly one lexeme and makes exactly one step of the abstract scan. |
| `SqlSplitter.InQuoteScan` | apps/agent-cli/src/telemetry_migrations.rs:206-217 | The rescan of a buffer says whether it ends inside a quote. |
| `SqlSplitter.ScanQuoted` | apps/agent-cli/src/telemetry_migrations.rs:150-163 | The inner loop stops after the closing quote, stepping over doubled ones, or at the end of the text. |
| `SqlSplitter.ScanLine` | apps/agent-cli/src/telemetry_migrations.rs:164-172 | A line comment runs through its newline and leaves only that. |
| `SqlSplitter.ScanBlock` | apps/agent-cli/src/telemetry_migrations.rs:173-182 | A block comment runs through the first closing mark and leaves nothing. |
| `SqlLexemes.LineCommentEnds` | apps/agent-cli/src/telemetry_migrations.rs:164-172 | `--` up to and with the first newline, or up to the end, is one lexeme, and lexing goes on behind it. |
| `SqlLexemes.LineCommentIsDropped` | apps/agent-cli/src/telemetry_migrations.rs:164-172 | A text that begins with a line comment splits as if the comment were its newline. |
| `SqlLexemes.BlockCommentEnds` | apps/agent-cli/src/telemetry_migrations.rs:173-182 | A block comment up to and with the first closing mark, or up to the end, is one lexeme, and lexing goes on behind it. |
| `SqlLexemes.BlockCommentIsDropped` | apps/agent-cli/src/telemetry_migrations.rs:173-182 | A text that begins with a block comment splits as if it were not there. |
| `SqlLexemes.QuotedIsOneLexeme` | apps/agent-cli/src/telemetry_migrations.rs:150-163 | Any body between quotes of one of the three kinds, with those of its own kind doubled, is one lexeme, kept as it stands, that neither cuts nor moves the depth. |
| `SqlLexemes.OnlyASemicolonCuts` | apps/agent-cli/src/telemetry_migrations.rs:145-196 | Nothing cuts but a semicolon outside quotes, comments and blocks; everything else is kept, comments without their text. |
| `SqlLexemes.NoKeywordInQuote` | apps/agent-cli/src/telemetry_migrations.rs:191-195 | While the rescan finds the buffer inside a quote no keyword moves the depth. |
| `SqlLexemes.InsideUntilTheSame` | apps/agent-cli/src/telemetry_migrations.rs:206-217 | The rescan is inside from a single or double quote up to the next of the same kind, whatever stands between. |
| `SqlLexemes.StatementsAreTrimmed` | apps/agent-cli/src/telemetry_migrations.rs:183-203 | No statement is empty or has space at its ends. |
| `SqlLexemes.SpaceAroundIsDropped` | apps/agent-cli/src/telemetry_migrations.rs:183-203 | A piece counts without the space around it, and not at all if it is all space. |
| `SqlSplitterLaws.LexingIsLossless` | apps/agent-cli/src/telemetry_migrations.rs:145-196 | The lexemes joined are the input. |
| `SqlSplitterLaws.LexemesAppend` | apps/agent-cli/src/telemetry_migrations.rs:145-196 | If the lexemes of a text end in a plain semicolon, appending more text only appends lexemes. |
| `SqlSplitterLaws.SplitAtBoundary` | apps/agent-cli/src/telemetry_migrations.rs:140-204 | If scanning `a` ends just after a cut, the statements of `a + b` are those of `a` followed by those of `b`. |
| `SqlSplitterLaws.StatementsAfterCut` | apps/agent-cli/src/telemetry_migrations.rs:183-190 | After a cut the scanner carries nothing over. |
| `SqlSplitterLaws.BlockStaysTogether` | apps/agent-cli/src/telemetry_migrations.rs:183-196 | While the depth is positive nothing is cut, however many semicolons go by, and no text is lost. |
| `SqlSplitterLaws.SplitConservesText` | apps/agent-cli/src/telemetry_migrations.rs:140-204 | The pieces, with a semicolon between each two, are the input with its comments taken out. |
| `SqlSplitterLaws.RescanAgreesIff` | apps/agent-cli/src/telemetry_migrations.rs:191-217 | At every turn of the loop the buffer is outside quotes if and only if no backtick literal before the last lexeme holds an unbalanced quote. |
| `SqlSplitterLaws.NoBackticks` | apps/agent-cli/src/telemetry_migrations.rs:206-217 | Input without backticks meets that condition. |
| `SqlSplitterLaws.RescanIsRedundant` | apps/agent-cli/src/telemetry_migrations.rs:191-241 | Under that condition the statements are those of a plain lexer with a depth counter, no rescan. |
| `SqlKeywords.WordBehindBreak` | apps/agent-cli/src/telemetry_migrations.rs:191-241 | Outside quotes, a word read behind a character that is in neither keyword, or at the start, moves the depth only if that character is a space, and then once: up if its first five letters are `begin` in any case, down if its first three are `end`, and not at all otherwise. |
| `SqlKeywords.KeywordInAnyCase` | apps/agent-cli/src/telemetry_migrations.rs:219-241 | The keyword is its letters in any mixture of capitals and small letters. |
| `SqlKeywords.KeywordIsTheWholeWordIff` | apps/agent-cli/src/telemetry_migrations.rs:219-241 | So the check stands for the keyword itself exactly for words that, behind a space, are the keyword or do not start with it and, behind anything else, are not the keyword. |
| `SqlKeywords.SemicolonAfterWord` | apps/agent-cli/src/telemetry_migrations.rs:183-195 | The semicolon behind such a word ends the statement unless the word stands behind a space and starts with `begin`. |
| `SqlKeywords.BeginningCountsAsBegin` | apps/agent-cli/src/telemetry_migrations.rs:227-232 | At the word that the comment names: the semicolon behind "beginning" does not cut. |
| `SqlKeywords.BlockOnItsOwnLineIsCut` | apps/agent-cli/src/telemetry_migrations.rs:135-139 | At a block that opens on a line of its own: its first semicolon cuts. |
| `PngFilter.Paeth` | scripts/icon-grain.py:41-53 | The predictor is the nearest of left, up and upper-left to the estimate, ties resolved in that order (section 9 of the PNG specification). |
| `PngFilter.FilterRoundTrip` | scripts/icon-grain.py:29-53 | For every filter type and every line, reversing the filtered line gives the line back. |
| `PngFilter.RestoreRoundTrip` | scripts/icon-grain.py:29-53 | Filtering a restored line gives back what was stored, so reversal loses nothing either. |
| `PngFilter.UnfilteredIsUnique` | scripts/icon-grain.py:29-53 | A stored line stands for exactly one line. |
| `PngFilter.FilterStores` | scripts/icon-grain.py:29-50 | What each filter stores of a byte: less the byte four to the left, less the byte above, less half their sum rounded down, less the Paeth predictor, or as it is (section 6 of RFC 2083). |
| `PngFilter.UnfilteredBytes` | scripts/icon-grain.py:29-50 | What each byte of a reversed line is, by filter, in its three neighbours. |
| `PngFilter.Unfilter` | scripts/icon-grain.py:29-53 | The loop in place finishes if and only if it stays inside both lines, and then the line holds the one line whose filtered form it held. |
| `PngFilter.RestoreByte` | scripts/icon-grain.py:31-53 | One byte is restored from its neighbours, and no other byte changes. |
| `PngFile.WordRoundTrip` | scripts/icon-grain.py:60-107 | A 32-bit length survives being written big-endian and read back. |
| `PngFile.WordsAreBigEndian` | scripts/icon-grain.py:57-69 | Four-byte numbers have their most significant byte first. |
| `PngFile.ReadScanline` | scripts/icon-grain.py:76-80 | One turn of the row loop reads the one line the row stands for, or fails. |
| `PngFile.ReadScanlines` | scripts/icon-grain.py:73-82 | The row loop, with its offset, reads rows from what is left of the data until the height is reached. |
| `PngFile.ReadChunk` | scripts/icon-grain.py:60-66 | One turn of the chunk loop consumes a frame of twelve bytes and its body. |
| `PngFile.WalkChunks` | scripts/icon-grain.py:58-66 | The chunk loop, with its position, keeps the last header and all image data in order. |
| `PngFile.WalkKeeps` | scripts/icon-grain.py:56-66 | Of all chunks the walk keeps the bodies of the IDAT chunks joined in their order, and the body of the last IHDR. |
| `PngFile.ReadPng` | scripts/icon-grain.py:56-83 | The reader computes the specified reading of the file, with every refusal and every index error where the source has it. |
| `PngFile.ReadingSucceedsIff` | scripts/icon-grain.py:67-83 | Which headers are refused and how, and that the size and the number of rows are the header's. |
| `PngFile.WritePng` | scripts/icon-grain.py:104-123 | The writer emits the signature and the three framed chunks, rows stored without a filter. |
| `PngFile.FrameBytes` | scripts/icon-grain.py:104-111 | A chunk is the length of its body, its kind, its body, and the CRC of kind and body. |
| `PngFile.WrittenBytes` | scripts/icon-grain.py:113-123 | The file is the signature, then header, compressed rows and the empty end, each as one chunk, in their own bytes. |
| `PngFile.ReadFramed` | scripts/icon-grain.py:58-66 | Walking any sequence of framed chunks visits exactly those chunks (section 3.2 of RFC 2083). |
| `PngFile.ReadEncodedRows` | scripts/icon-grain.py:73-82 | Rows encoded with any filter per row read back as the lines. |
| `PngFile.ReadsEveryConformingEncoding` | scripts/icon-grain.py:56-83 | Whatever filter each row uses, however the data is cut into chunks and whatever other chunks lie between, the lines are recovered, given an inverse pair for zlib. |
| `PngFile.PackingIsFilterZero` | scripts/icon-grain.py:113-117 | What the writer packs is the encoding with filter 0 in every row. |
| `PngFile.WrittenImageReadsBack` | scripts/icon-grain.py:56-123 | Reading what was written gives the lines back. |
| `Grain.DeltaBounded` | scripts/icon-grain.py:88-98 | Blending four grid corners that lie within the amplitude stays within it: the weights sum to the square of the cell. |
| `Grain.DeltaIsBilinear` | scripts/icon-grain.py:88-98 | The noise at a pixel is that of its four grid points, each weighted by the distances to the opposite one. |
| `Grain.ShiftedBounded` | scripts/icon-grain.py:99-101 | A colour byte stays a byte and moves by less than the amplitude plus one. |
| `Grain.ShiftedIs` | scripts/icon-grain.py:99-101 | A byte with its noise: 0 below 0, 255 above 255, and in between the largest whole number not above the sum. |
| `Grain.GrainTouchesColours` | scripts/icon-grain.py:88-101 | In a line that fits, every pixel that is not transparent has its four grid corners; alpha bytes and transparent pixels stay as they were. |
| `Grain.GrainMovesColours` | scripts/icon-grain.py:91-101 | Red, green and blue of an opaque pixel move by the noise at that pixel; its alpha and transparent pixels do not move. |
| `Grain.GrainIsBounded` | scripts/icon-grain.py:88-101 | No byte of a line moves by as much as the amplitude plus one. |
| `Grain.GrainLine` | scripts/icon-grain.py:91-101 | A line gets through if and only if it fits, and then each byte is its grained self. |
| `Grain.AddGrain` | scripts/icon-grain.py:86-101 | The whole loop gets through if and only if the cell is not zero and every line fits; then every line is its grained self. |
| `Grain.ShallowImagesFit` | scripts/icon-grain.py:86-97 | With `(height - 1) / cell <= width / cell` no index leaves the grid, whatever the pixels. |
| `Grain.FitsIffCornersExist` | scripts/icon-grain.py:86-97 | A line gets through if and only if it is as long as the width asks and every opaque pixel of it has its four grid corners. |
| `Grain.TallImagesFail` | scripts/icon-grain.py:86-97 | A line with an opaque pixel gets through if and only if it stands above pixel row `(width / cell + 1) * cell`, whatever the height. |
| `AcpRuns.StepKeeps` | apps/agent-cli/src/acp.rs:886-948 | Prompts, cancels, closes and finishing runs keep the slot's invariant. |
| `AcpRuns.RunKeeps` | apps/agent-cli/src/acp.rs:886-948 | The same over every interleaving, in which run numbers only grow and are never reused. |
| `AcpRuns.OnlyTheNewestRunIsUncancelled` | apps/agent-cli/src/acp.rs:1662-1672 | A live run that is neither cancelled nor about to be is the newest run and the one in the slot, so there is at most one. |
| `AcpRuns.FinishingSparesNewerRuns` | apps/agent-cli/src/acp.rs:1899-1908 | A run that ends after a newer one started leaves the slot alone. |
| `AcpRuns.DoomedStays` | apps/agent-cli/src/acp.rs:886-948 | Runs that were reached by a cancel stay reached, whatever follows. |
| `AcpRuns.CancelReachesEveryStartedRun` | apps/agent-cli/src/acp.rs:886-893 | Once the tokens taken have been fired, no run that had started by the time of a cancel is live and uncancelled. |
| `AcpRuns.Session.BeginRun` | apps/agent-cli/src/acp.rs:1662-1672 | Taking the slot cancels the previous run's token and stores a fresh one under the next number, exactly as the machine's step. |
| `AcpRuns.Session.TakePending` | apps/agent-cli/src/acp.rs:886-890 | Taking the token empties the slot and hands over the newest run's own token. |
| `AcpRuns.Session.FireToken` | apps/agent-cli/src/acp.rs:890-893 | Firing cancels that run's token object and no other. |
| `AcpRuns.Session.ClearPending` | apps/agent-cli/src/acp.rs:1899-1908 | The slot is emptied only when its number is the run's own. |
| `AcpOutbound.StepKeeps` | apps/agent-cli/src/acp.rs:236-270 | Every step of every request, response, timeout and abandoned wait keeps the correlation invariant. |
| `AcpOutbound.IdsAreUnique` | apps/agent-cli/src/acp.rs:253-264 | No two requests share an id and no line is sent twice. |
| `AcpOutbound.RegisteredBeforeSent` | apps/agent-cli/src/acp.rs:253-264 | When a line is about to go out its id is filed under its own waiter, or already answered. |
| `AcpOutbound.WaiterGetsTheFirstReply` | apps/agent-cli/src/acp.rs:236-248 | From registration on, a waiter is completed only by the first response that bears its id, and by that one unless it timed out or was abandoned. |
| `AcpOutbound.TimedOutStaysForgotten` | apps/agent-cli/src/acp.rs:1579-1598 | A timed-out request leaves no entry and gets no reply in any continuation. |
| `AcpOutbound.NothingLingers` | apps/agent-cli/src/acp.rs:265-270 | When every caller has its answer or has forgotten its request, no entry is left; only an abandoned wait can leave one. |
| `AcpOutbound.WaiterIsAlwaysReachable` | apps/agent-cli/src/acp.rs:236-248 | A waiter without a reply can always be answered: a response with its id completes it in three steps. |
| `AcpOutbound.RequestAddsUp` | apps/agent-cli/src/acp.rs:253-264 | The three steps of a request, run without interruption, add up to one entry, one line and one waiter. |
| `AcpOutbound.DeliveryAddsUp` | apps/agent-cli/src/acp.rs:236-248 | Routing a response and completing the sender add up to removing the entry and telling the waiter if it still listens. |
| `AcpOutbound.Connection.Request` | apps/agent-cli/src/acp.rs:253-264 | The connection object takes exactly that combined step, with a fresh channel. |
| `AcpOutbound.Connection.DeliverResponse` | apps/agent-cli/src/acp.rs:236-248 | Ids that are no integers or have no entry are ignored; otherwise the entry goes and only its own channel is written. |
| `AcpOutbound.Connection.ForgetRequest` | apps/agent-cli/src/acp.rs:266-270 | Only the caller's own entry goes. |
| `AcpServer.RepliesAreExact` | apps/agent-cli/src/acp.rs:789-958 | In every interleaving a task has said nothing until it is done, and then exactly the replies its message is due, under that message's id. |
| `AcpServer.EveryRequestIsAnsweredOnce` | apps/agent-cli/src/acp.rs:789-958 | A call with an id gets at most one reply, and one exactly when its handler is done (section 5 of JSON-RPC 2.0). |
| `AcpServer.NotificationUnansweredIff` | apps/agent-cli/src/acp.rs:789-958 | A notification that was handled has no reply if and only if it is a `session/cancel` that parses or names no known method (section 4.1 of JSON-RPC 2.0 asks for none). |
| `AcpServer.HandledIsDue` | apps/agent-cli/src/acp.rs:789-958 | Every handler sends the number of replies its message is due, unless it goes on as a prompt. |
| `AcpServer.TellingKept` | apps/agent-cli/src/acp.rs:789-1897 | No step of one task adds or removes a reply of another. |
| `AcpServer.RefusalChangesNothing` | apps/agent-cli/src/acp.rs:1190-1376 | A handler that replies with an error has changed no session. |
| `AcpServer.OthersAreUntouched` | apps/agent-cli/src/acp.rs:789-958 | A message leaves every session alone but the one it is about. |
| `AcpEffects.SetModeSets` | apps/agent-cli/src/acp.rs:1301-1334 | A mode is set exactly if it is "auto" or "readonly" and the session is live; it is then the session's mode and nothing else changes; any other call is refused. |
| `AcpEffects.SetModeOptionSets` | apps/agent-cli/src/acp.rs:1190-1280 | The same by way of the config option. |
| `AcpEffects.SetModelSelects` | apps/agent-cli/src/acp.rs:1336-1376 | A model switch leaves exactly what the text resolves to, with the mode as it was, and is refused if it resolves to nothing. |
| `AcpEffects.SetModelOptionSelects` | apps/agent-cli/src/acp.rs:1190-1280 | The same by way of the config option. |
| `AcpEffects.SetProviderOptionSelects` | apps/agent-cli/src/acp.rs:1190-1280 | A provider switch leaves that provider's default model, with the mode as it was. |
| `AcpEffects.OtherOptionsFail` | apps/agent-cli/src/acp.rs:1190-1280 | Any other option, and one without a name or a value, is refused. |
| `AcpEffects.SessionsComeAndGo` | apps/agent-cli/src/acp.rs:820-950 | A new session is listed with the server's selection in mode "auto"; a session that is loaded stays as it is; one that is closed is listed no longer. |
| `AcpEffects.CancelChangesNothing` | apps/agent-cli/src/acp.rs:876-898 | A cancel changes no session and is answered only if it has an id. |
| `AcpEffects.PromptIsTakenUpIff` | apps/agent-cli/src/acp.rs:1600-1640 | A prompt is taken up exactly if its session is live, it says something, and an interview command in it names a target. |
| `AcpEffects.OthersAreAnswered` | apps/agent-cli/src/acp.rs:789-958 | How the messages about no session are answered, and with which error codes (section 5.1 of JSON-RPC 2.0). |
| `AcpEffects.MessagesAreHandled` | apps/agent-cli/src/acp.rs:789-1672 | A message queues, is handled with exactly the replies and the registry of its handler, and a prompt that is taken up takes its slot before it starts. |
| `AcpEffects.RepliesGoUnderTheirId` | apps/agent-cli/src/acp.rs:789-812 | A call is answered under the id it came with and an unreadable message with the parse error under its own; a response, or a message with neither method nor id, is answered with nothing. |
| `AcpEffects.StartRunsTheSelection` | apps/agent-cli/src/acp.rs:1676-1698 | A run starts on what the session's selection comes to, or ends with an error if its agent cannot be built, or hangs if the selection comes to nothing. |
| `AcpEffects.FinishReports` | apps/agent-cli/src/acp.rs:1882-1896 | The end of a run is reported as an error only if it was one and nothing had been cancelled. |
| `AcpEffects.HandlingWaitsIff` | apps/agent-cli/src/acp.rs:1190-1376 | Which messages wait for a lock that is held: those that come to lock a live session. |
| `AcpServer.ReachableIsSound` | apps/agent-cli/src/acp.rs:1190-1376 | In every reachable state every session selects the default or something on offer, in one of the two modes. |
| `AcpServer.NobodyIsEverStuckIff` | apps/agent-cli/src/acp.rs:1676-1687 | No prompt ever hangs on its own session lock, in any run, if and only if every selection a client can make can be run. |
| `AcpServer.HonestConfigNeverSticks` | apps/agent-cli/src/acp.rs:1676-1687 | A config whose own `combos` entry lists only combos never leads to a hang. |
| `AcpServer.DishonestConfigSticks` | apps/agent-cli/src/acp.rs:1676-1687 | One that lists a model that is no combo, under a displayed id that selects it, has a run that hangs. |
| `StuckPrompts.NoPromptHangsIff` | apps/agent-cli/src/acp.rs:1676-1687 | Over all runs of a server whose provider names hold no slash, no prompt hangs if and only if every model listed under `combos` is a combo, or is not the first and selected neither by its displayed id nor with the prefix in front of the whole id. |
| `StuckPrompts.SelectedIsSelectable` | apps/agent-cli/src/providers.rs:1113-1164 | Whatever text a client sends, a model that it selects is the first listed or selected by one of those two ids. |
| `StuckPrompts.DisplayIsNotEnough` | apps/agent-cli/src/providers.rs:1113-1164 | The displayed id alone does not decide: a model can be selected only with the prefix in front of an id that carries it already. |
| `AcpServer.EveryTaskCanAdvance` | apps/agent-cli/src/acp.rs:1600-1897 | Without such selections every unfinished task has a step of its own that takes it closer to done, whatever the others do. |
| `AcpServer.StuckMeansSilence` | apps/agent-cli/src/acp.rs:1676-1687 | A prompt that hangs has no reply and gets none in any continuation. |
| `Providers.Combos` | apps/agent-cli/src/providers.rs:537-561 | Each combo with a usable entry is listed once, with exactly its usable entries; the others are dropped. |
| `Providers.KeepValid` | apps/agent-cli/src/providers.rs:540-550 | The entries kept are those that name a concrete provider, in order. |
| `CatalogueRules.EntriesKeepTheirOrder` | apps/agent-cli/src/providers.rs:525-559 | Entries stay in their order, and one stays exactly if its provider is built in or configured and is not the virtual one. |
| `CatalogueRules.RunsStartOn` | apps/agent-cli/src/providers.rs:537-591 | A combo is there if an entry of it stays; a run on it starts on the first such entry, a run on anything else on what was selected. |
| `Providers.ListProviders` | apps/agent-cli/src/providers.rs:616-678 | The merge of built-ins, combos and config entries lists every provider once, in the stated order, each field from the last source that sets it. |
| `Providers.LayConfigOver` | apps/agent-cli/src/providers.rs:640-663 | Laying the config's entries over the table in any order gives the same table. |
| `CatalogueRules.ConfigWins` | apps/agent-cli/src/providers.rs:616-664 | Each member of a provider's record is the config file's if it gives one, else the built-in one, else, for models, the combos or nothing. |
| `CatalogueRules.WhoIsListed` | apps/agent-cli/src/providers.rs:616-664 | Listed are the built-in providers, the configured ones, and the combos if there is one. |
| `CatalogueRules.ListOrder` | apps/agent-cli/src/providers.rs:616-680 | The built-in providers come in their own order, then the combos, then the others by name. |
| `Providers.InsertedIsOrdered` | apps/agent-cli/src/providers.rs:665-675 | Sorting by rank and name yields an ordered list of the same providers. |
| `Providers.OrderedIsUnique` | apps/agent-cli/src/providers.rs:665-675 | Two ordered lists of the same names are the same list. |
| `Providers.HashOrderIsInvisible` | apps/agent-cli/src/providers.rs:616-678 | Whatever order the hash maps yield, the names come out in one order and every provider but a `combos` without own models is the same record. |
| `Selection.Resolve` | apps/agent-cli/src/providers.rs:1113-1164 | The search loops compute: exact provider name, then provider prefix, then bare model. |
| `CatalogueRules.NameMeansDefault` | apps/agent-cli/src/providers.rs:1113-1135 | A reference that is a provider's name means the first model it lists, or fails if it lists none. |
| `CatalogueRules.PrefixMeansProvider` | apps/agent-cli/src/providers.rs:1136-1151 | Else one that begins with a provider's name and a slash means that provider's first model under the rest or the whole, or fails. |
| `CatalogueRules.BareNameMeansFirst` | apps/agent-cli/src/providers.rs:1153-1162 | Else it means the first model of the list under that name, with or without its provider's prefix. |
| `CatalogueRules.NothingMeant` | apps/agent-cli/src/providers.rs:1113-1164 | Else it fails, and so does an empty one. |
| `CatalogueRules.DefaultIsTheFirst` | apps/agent-cli/src/providers.rs:717-726 | A provider's default is the first model it lists. |
| `CatalogueRules.ShownWithPrefix` | apps/agent-cli/src/providers.rs:728-738 | A model is shown with its provider's prefix, which is not written twice. |
| `Selection.ResolvedIsOffered` | apps/agent-cli/src/providers.rs:1113-1164 | Whatever resolves is a listed model of a listed provider. |
| `Selection.DefaultIsOffered` | apps/agent-cli/src/providers.rs:719-726 | So is every provider's default model. |
| `Selection.DisplayResolvesIff` | apps/agent-cli/src/providers.rs:728-738 | A displayed id selects the model it displays if and only if it has no space at either end and the provider does not list the id's other spelling first. |
| `Selection.EffectiveIsConcrete` | apps/agent-cli/src/providers.rs:574-589 | What a selection runs on is never the virtual provider, so resolving never recurs twice, and a combo's entry names a listed provider. |
| `Selection.OffersRunIff` | apps/agent-cli/src/providers.rs:574-589 | Everything on offer can be run if and only if the config's own `combos` entry, if any, lists only combos. |
| `Selection.DefaultComboIsFixedIff` | apps/agent-cli/src/providers.rs:719-726 | The model a bare `combos` selects does not depend on the hash order if and only if there are fewer than two combos or the config lists the models itself. |
| `Fallback.NextEntry` | apps/agent-cli/src/providers.rs:992-1002 | The entry chosen is the first that is neither the failed one nor cooling; none is chosen only if there is no such entry. |
| `Fallback.WalkVisitsOnce` | apps/agent-cli/src/acp.rs:1745-1817 | No entry runs twice in one prompt, and every retry runs on an entry that was neither the first nor cooling when the prompt began. |
| `Fallback.AtMostAllButOne` | apps/agent-cli/src/acp.rs:1745-1817 | Over n distinct entries a prompt falls back at most n - 1 times. |
| `Fallback.DroppingRestoresIff` | apps/agent-cli/src/providers.rs:856-860 | Dropping the trailing user message gives the earlier conversation back if and only if the run had pushed one user message, or nothing onto one that did not end with one. |
| `Fallback.EveryRunHasTheSameSeed` | apps/agent-cli/src/acp.rs:1755-1770 | If the agent pushes the prompt before anything fails, every retry starts from exactly the conversation that preceded the prompt. |
| `Fallback.WalkIsItsAttempts` | apps/agent-cli/src/acp.rs:1745-1817 | Every attempt but the last failed early, was put on cooldown and seeded the next with its transcript less the trailing prompt; the messages and the outcome left are those of the last. |
| `Fallback.FailingWalkTriesAll` | apps/agent-cli/src/acp.rs:1745-1817 | If everything fails, each entry that was not cooling runs once, in the order of the list, before the prompt gives up. |
| `Fallback.SecondRunIff` | apps/agent-cli/src/acp.rs:1745-1817 | A prompt has a second run if and only if the first fails before any output, another entry is free and its agent can be built; the fallback switch does not come into it. |
| `Cooldowns.RepeatsOnlyAfterExpiry` | apps/agent-cli/src/providers.rs:965-1002 | With a clock, and a registry in which nobody shortens a recorded cooldown, an entry runs again in a prompt only once the cooldown recorded for it has ended. |
| `Cooldowns.RunsPerCooldown` | apps/agent-cli/src/providers.rs:965-1002 | Of n distinct entries, no more than n runs begin within one cooldown of a failure. |
| `Cooldowns.SameAsLastingWalk` | apps/agent-cli/src/acp.rs:1745-1817 | If no cooldown ends during the prompt, the entries run are those of the walk whose cooldowns last. |
| `Cooldowns.RetriedForEverIff` | apps/agent-cli/src/providers.rs:965-1002 | If every run takes as long to fail as a cooldown lasts, as it does with a cooldown of zero seconds, and others write only about the running entry, every failure is retried, however many there are, if and only if the list holds two different entries. |
| `Fallback.FallbackManager.Next` | apps/agent-cli/src/providers.rs:992-1002 | The search loop computes the next entry. |
| `Fallback.FallbackManager.ChooseNext` | apps/agent-cli/src/providers.rs:1601-1640 | The terminal's way of asking heeds the switch: none with fallback off or without entries, else what the score has chosen, if that is another entry of the combo, else the next entry of the walk. |
| `Fallback.RunPrompt` | apps/agent-cli/src/acp.rs:1721-1817 | The loop with its variables, which ends on every oracle, makes exactly the specified walk and leaves its conversation in the session; whether there is a second run does not depend on the switch. |
| `Fallback.SwitchedOffFallsBack` | apps/agent-cli/src/acp.rs:1745-1817 | On a combo of two entries with fallback switched off, the terminal would stop and the prompt runs the second entry. |
| `SubAgents.JoinFills` | apps/agent-cli/src/subagents.rs:655-666 | An outcome goes to its own agent's slot, a panic to the first slot that is empty. |
| `SubAgents.CompletedOwnsItsSlot` | apps/agent-cli/src/subagents.rs:655-666 | In any order of completions and panics an agent that completed has its own outcome in its own slot. |
| `SubAgents.OthersNeverIntrude` | apps/agent-cli/src/subagents.rs:655-666 | A slot whose agent panicked never shows another agent's outcome. |
| `SubAgents.EmptyOnePerOverwrite` | apps/agent-cli/src/subagents.rs:655-666 | A panic always finds an empty slot, and each parked panic that is overwritten leaves exactly one slot empty at the end. |
| `SubAgents.EveryPartIsItsAgents` | apps/agent-cli/src/subagents.rs:655-679 | Each part of the answer is the outcome of the agent requested at that place, or says that it panicked or has no result. |
| `SubAgents.NoResultPerOverwrite` | apps/agent-cli/src/subagents.rs:655-679 | As many parts read "(no result)" as completions overwrote a parked panic. |
| `SubAgents.PartsRead` | apps/agent-cli/src/subagents.rs:668-679 | How a success, a failure, a panic and a missing result read. |
| `SubAgents.PartsAreSeparated` | apps/agent-cli/src/subagents.rs:681-681 | The parts stand in their order with the separator line between each two. |
| `SubAgents.BlankIff` | apps/agent-cli/src/subagents.rs:594-653 | A prompt is refused exactly if it is blank and not a code searcher's. |
| `SubAgents.SpawnAgentsTool.Execute` | apps/agent-cli/src/subagents.rs:570-682 | Refusals in their order with the run numbers they use up; otherwise one part per requested agent, in the order of the request, joined by the separator line. |
| `SubAgents.SpawnAgentsTool.Launch` | apps/agent-cli/src/subagents.rs:594-653 | Each launch takes one number; a blank prompt stops the launch where it stands; code searchers fill their slots at once. |
| `SubAgents.SpawnAgentsTool.Joined` | apps/agent-cli/src/subagents.rs:655-666 | The join loop settles the slots as specified. |
| `ThinkTags.ThinkBlocksVanish` | apps/agent-cli/src/subagents.rs:729-746 | For an answer printed with blocks, exactly the texts outside them survive, trimmed; an unclosed tag drops exactly the remainder. |
| `ThinkTags.BlocksAreDropped` | apps/agent-cli/src/subagents.rs:729-746 | A `<think>` block goes with its tags and what follows is cleaned in turn; a tag that is never closed takes the rest. |
| `ThinkTags.EveryTextIsPrinted` | apps/agent-cli/src/subagents.rs:729-746 | Every input is such a print, so its result is always known. |
| `ThinkTags.TagRemainsIff` | apps/agent-cli/src/subagents.rs:729-746 | The trimmed result holds an opening tag if and only if the tag straddles a join of the outside texts: a proper front of it ends what stands before the join, the rest begins what stands behind it. |
| `ThinkTags.TagRemainsInAnyIff` | apps/agent-cli/src/subagents.rs:729-746 | The same for every input, with the texts it is printed from. |
| `ThinkTags.ResultCanHoldATag` | apps/agent-cli/src/subagents.rs:729-746 | An empty block inside a tag cut in two, wherever it is cut, leaves that tag as the result. |
| `ThinkTags.StripThinkTags` | apps/agent-cli/src/subagents.rs:729-746 | The loop ends on every input and computes the trimmed text outside the blocks. |
| `RepoWalk.WalkFindsTheWanted` | apps/taskstream-desktop/src/projects.rs:93-132 | A directory is collected if and only if it is within depth 5, holds a `.git` directory, has no such ancestor in the scan and is reached through no skipped name. |
| `RepoWalk.HasGitIff` | apps/taskstream-desktop/src/projects.rs:93-120 | A repository is a directory that lists a directory named `.git`. |
| `RepoWalk.WantedIsNear` | apps/taskstream-desktop/src/projects.rs:11-31 | No repository is found more than five levels down or through one of the thirteen skipped names. |
| `RepoWalk.NoneTwice` | apps/taskstream-desktop/src/projects.rs:93-132 | No directory is collected twice. |
| `RepoWalk.WantedAreApart` | apps/taskstream-desktop/src/projects.rs:93-132 | No collected repository lies inside another one. |
| `RepoWalk.Walk` | apps/taskstream-desktop/src/projects.rs:93-132 | The recursion that pushes into one list appends exactly the specified walk. |
| `RepoWalk.ListDir` | apps/taskstream-desktop/src/projects.rs:102-119 | The loop over a directory's entries finds whether it is a repository and which subdirectories to enter. |
| `RepoWalk.Scan` | apps/taskstream-desktop/src/projects.rs:61-75 | The scan as started has all three properties and lists the repositories by lower-cased name, equal names in the order of the walk. |
| `NameOrder.SortIsUnique` | apps/taskstream-desktop/src/projects.rs:72-72 | That order leaves no choice: two stable sorts of one list are the same list. |
| `GitRemote.SearchMissesNothing` | apps/taskstream-desktop/src/coding_git.rs:230-246 | Skipping a failing occurrence as a whole misses nothing: the search finds the first properly bounded occurrence of the host, or there is none. |
| `GitRemote.FindHost` | apps/taskstream-desktop/src/coding_git.rs:229-246 | The loop computes that search. |
| `GitRemote.ParseGithubRemote` | apps/taskstream-desktop/src/coding_git.rs:227-254 | The parser computes the specified parse. |
| `GitRemote.ParsedIsLegal` | apps/taskstream-desktop/src/coding_git.rs:247-254 | Whatever is parsed is a non-empty owner and repository without slashes. |
| `GitRemote.ParseInvertsPrinting` | apps/taskstream-desktop/src/coding_git.rs:227-254 | For every printing of a legal owner and repository (any lead-in ending in a boundary, `:` or `/`, with or without `.git`, any trailing slashes) parsing gives them back. |
| `GitRemote.GithubUrlReadsBackIff` | apps/taskstream-desktop/src/coding_git.rs:227-254 | With `.git` or without, slashes behind it or none, a URL reads back if and only if owner and repository are legal and, without `.git`, the name does not end in it nor in a space at the end of the text. |
| `GitRemote.UsualFormsRead` | apps/taskstream-desktop/src/coding_git.rs:224-254 | The five forms in which GitHub's addresses are written parse to owner and repository. |
| `GitHost.UrlHost` | apps/taskstream-desktop/src/coding_git.rs:224-226 | The host that the properties below speak of: for a URL printed from scheme, user, host, port and path it is that host. |
| `GitHost.ScpHost` | apps/taskstream-desktop/src/coding_git.rs:224-226 | The same for the form without a scheme. |
| `GitHost.ParsedIsOnHostIff` | apps/taskstream-desktop/src/coding_git.rs:224-246 | Of a URL that parses: the occurrence its pair is read behind is the host exactly when it stands as one (in the authority, first in it or behind an `@`, with no `@` behind), and the URL is on the host exactly when that or a later occurrence does. |
| `GitHost.ReadBehindFirstPart` | apps/taskstream-desktop/src/coding_git.rs:224-246 | Of a URL printed from scheme, user, host, port and path, with no space at its ends: the pair is read behind the first of these parts that has the name between boundaries, and without such a part the URL is refused; it is on the host if and only if the host part is the name. |
| `GitHost.PathTakenForHost` | apps/taskstream-desktop/src/coding_git.rs:227-254 | Where the comment fails: on any other host, with the name as the first part of the path. |
| `GitHost.PortTakenForHost` | apps/taskstream-desktop/src/coding_git.rs:227-254 | And with the name as the port, inside the authority and with no `@` behind it. |
| `GitHost.UserTakenForHost` | apps/taskstream-desktop/src/coding_git.rs:227-254 | With the name as the user, the URL is on the host, but the pair is read behind the user. |
| `RemoteChoice.TriedInPriorityOrder` | apps/taskstream-desktop/src/coding_git.rs:256-291 | The remotes tried are every remote's name exactly once, in the stated priority. |
| `RemoteChoice.PriorityIs` | apps/taskstream-desktop/src/coding_git.rs:256-291 | `remote.pushDefault` comes first, then the branch's remote unless it is the repository itself, then `origin`, then `github`, then any other. |
| `RemoteChoice.ResolvedIsTheBest` | apps/taskstream-desktop/src/coding_git.rs:292-301 | If the parser takes any remote's URL, it takes that of the one chosen, and of none that ranks before it. |
| `RemoteChoice.ResolvedIsAccepted` | apps/taskstream-desktop/src/coding_git.rs:292-301 | A remote whose URL the parser does not take is never chosen. |
| `RemoteChoice.TakenIsOnGithubIff` | apps/taskstream-desktop/src/coding_git.rs:256-301 | The remote chosen is on GitHub if and only if the name stands as the host of its URL, at the occurrence its pair was read behind or at a later one. |
| `RemoteChoice.GitLabIsTaken` | apps/taskstream-desktop/src/coding_git.rs:256-301 | A checkout whose `origin` is on gitlab.com, with the name as the first part of the path, gets that remote, whatever the other remote is. |
| `RemoteChoice.ResolveRemote` | apps/taskstream-desktop/src/coding_git.rs:261-301 | The three loops and the final search compute that choice. |
| `GitExclude.LinesAreKept` | apps/taskstream-desktop/src/coding_git.rs:329-343 | Every line of the exclude file stays in its place; at most the entry is added as a line of its own. |
| `GitExclude.ExcludingIsIdempotent` | apps/taskstream-desktop/src/coding_git.rs:319-343 | Afterwards the directory is excluded, and a second call changes nothing. |
| `GitExclude.LeftAloneIff` | apps/taskstream-desktop/src/coding_git.rs:319-343 | The file is left alone exactly if some line, without space around it and slashes behind it, is `worktrees`; else the entry is added. |
| `GitExclude.EnsureExcluded` | apps/taskstream-desktop/src/coding_git.rs:328-343 | The method writes exactly that text. |
| `ResponseFormat.ParsedIsTheNormalForm` | apps/agent-cli/src/response_format.rs:183-207 | The result is the one sequence of non-empty segments without equal neighbours that says, character by character with kinds, what the deltas said. |
| `ResponseFormat.NormalFormIsUnique` | apps/agent-cli/src/response_format.rs:200-205 | Two such sequences that say the same are the same. |
| `ResponseFormat.MergeIsAssociative` | apps/agent-cli/src/response_format.rs:200-205 | Merging at the boundary is associative, with the empty parse as unit. |
| `ResponseFormat.ParsesInPieces` | apps/agent-cli/src/response_format.rs:183-207 | A body cut after any line parses to the merge of its pieces' parses. |
| `ResponseFormat.EachKindIsConserved` | apps/agent-cli/src/response_format.rs:144-207 | The text of each kind is the concatenation of that kind's deltas. |
| `ResponseFormat.DeltaReads` | apps/agent-cli/src/response_format.rs:140-175 | A delta's thinking comes before its text, each if there and not empty; in the plain format there is only text. |
| `ResponseFormat.LineReads` | apps/agent-cli/src/response_format.rs:183-199 | Only lines that begin with `data:` count, and of those neither empty ones, the end mark, nor what does not decode. |
| `ResponseFormat.ParseSse` | apps/agent-cli/src/response_format.rs:183-207 | The loop that extends the last segment computes that parse. |

## Left out

- HTTP, sockets, standard input and output, git subprocesses and SQL execution appear as oracles and parameters; saving a file always succeeds and never tears.
- zlib, CRC-32 and JSON parsing are uninterpreted functions; where a round trip needs it, compression comes with its inverse.
- RefreshGuarantees.NoAttemptLosesTheConnection: assumes a server that always returns a new pair, refuses only retired tokens and consumes nothing when it is unavailable; `RefreshLosses` says what happens when a reply is lost.
- SqlSplitter.SplitSql: lower-cases ASCII letters only, which is exact for the keywords it looks for; the nesting counter is unbounded.
- Grain.AddGrain: the random generator is a parameter (any grid of the right size); blends are exact reals, so floating-point rounding is not modelled; negative cells and amplitudes are left out.
- PngFile.ReadPng: reads the bytes of the file, not the file; a corrupt zlib stream is a failed decompression.
- AcpRuns.Session.FireToken: a token is a flag; how a run notices it is outside the model.
- AcpOutbound.Connection.Request: ids are unbounded integers, so the wrap of the 64-bit counter is not modelled.
- AcpOutbound.WaiterGetsTheFirstReply: a waiter whose connection is torn down is outside the machine.
- AcpServer.RepliesAreExact: handlers other than prompts are one step each; what goes on inside a run, its notifications and the text of replies are left out.
- AcpServer.NobodyIsEverStuckIff: a cancel or close that blocks on a hanging session also keeps the lock on the session registry; that further effect is not modelled.
- Providers.ListProviders: the table of built-in providers is a parameter with distinct names, none of them `combos`; per-model request parameters are left out.
- Selection.DisplayResolvesIff: asks for distinct provider names without slashes; the list always has the first, the built-in names have the second, a config file may break it.
- Fallback.RunPrompt: speaks of prompts during which no cooldown ends, others being the matter of `Cooldowns`; the runs themselves are an oracle.
- Fallback.FallbackManager.ChooseNext: the score itself is not modelled; what it has chosen is a parameter.
- AcpServer.OthersAreUntouched: a session's cooldowns are not part of its state here; the handlers that change its selection also give it a fallback manager with an empty registry.
- RefreshLosses.SecondPersonalWriteUndoesNothingIff: one such call; the second write of another one and a device login that completes in between are not steps.
- Cooldowns.RepeatsOnlyAfterExpiry: asks that nobody shortens or clears a recorded cooldown; the search for the next entry reads the clock once, where the source reads it at each entry.
- GitHost.ParsedIsOnHostIff: a `?` or `#` does not end the authority here, and a host in square brackets is not read as one.
- ConnectionFile.Poll: the server's answers come as a list, and expiry times as read from the body.
- SubAgents.SpawnAgentsTool.Execute: the activity events are left out.
- RepoWalk.Scan: entries whose type cannot be read are left out; lower-casing is a parameter.
- RemoteChoice.ResolveRemote: takes the remotes and config values that git reports.
- ResponseFormat.ParseSse: deltas are maps of their string members; what JSON parsing accepts is a parameter.
- The choice of a response format, model families, config merging and templates, CLI commands, permission profiles and web search: single branches or plumbing.
- `coding_mcp.rs`: its rules live in a storage crate that is not part of this model.
- Matching `ask_user` answers across tool instances: each instance counts from zero on one shared channel, so no delivery claim holds in general.
- The sessions and tasks of `AcpServer` are values of its machine; the in-place update of a session's run slot under its lock is what `AcpRuns.Session` models.
- Parsing of GitHub's replies, the client id's sources, the in-memory connection of a client id from the environment, and the form of elicitation requests.
