# Verified model of the Aurum platform's stateful cores

Aurum is a trading dashboard: a backend that ingests the journal of a trading
runner into Postgres, serves read models over it, issues rotating refresh
tokens and raises control flags for the runner, and a browser frontend. This
project models the parts of it whose correctness depends on several functions,
on a whole run or on an interleaving, and proves what those parts promise.

`dafny verify dfyconfig.toml` checks everything.

## What is modelled

- **Journal ETL** (`JournalLine`, `JournalTable`, `JournalSession`,
  `JournalRun`, `JournalInvariant`, `JournalSplit`, `JournalTheorems`,
  `JournalContent`, `JournalProgress`).
  `Session` is the database session with its uncommitted and committed contents;
  its methods are the loops of the worker over the lines an iteration yields,
  proved against `FileEffect` (one file) and `PassEffect` (one pass). `JournalRun`
  is the state machine in which the journal's writer and the worker interleave
  freely. The writer adds text to a line, completes it, writes its newline,
  starts files; the worker lists the directory in any order, opens a file, takes
  one line at a time from wherever the file then ends, meets its end, commits,
  fails, restarts. A line that is completed while the iteration stands inside it
  comes in pieces, each of which takes a line number. The `Commit` step and
  `Session.ProcessFile` share `FileEffect`, and `QuietPassIsRunOnce` shows that an
  undisturbed pass of the machine has the outcome `Session.RunOnce` promises.
- **Refresh tokens and the browser tab** (`TokenServer`, `TokenChains`,
  `RefreshClient`, `RefreshCalls`). `AuthApi` is the endpoints over a request-scoped session
  that commits even when the handler raises; `TokenChains` runs any sequence of
  requests; `RefreshClient` composes one tab (its shared promise, its timers,
  its messages under way) with the server, with replies delivered, delayed or
  lost and other requests in between; `RefreshCalls` tells how each call comes out.
- **Read models** (`PaperEvents`, `ClosedPositions`, `EquityBars`,
  `DailyReport`). Queries are relations where SQL leaves the order of ties open,
  so the theorems hold whatever the database picks.
- **Control flags** (`ControlFlags`, `ControlHistory`). Owner requests write a temporary file byte
  by byte, rename it, flush an audit row and a control row into their session
  and commit; they interleave step by step, and at any step a request may raise
  (its session is committed all the same), fail in the database or die.
- **Self-contained algorithms**: the token redactor (`Redaction`, `RedactionLaw`), the favicon
  writer (`IcoWriter`, with a reader that follows the directory), the filter URL
  (`TradeFilters`), the trade table (`TradeTable` over `Sorting`) and the audit
  scrubber (`AuditScrub`).

`Prelude` and `Lexicographic` hold stock definitions.

## Where the code and its documentation disagree

The model follows the code.

- The docstring of `journal_etl.py` speaks of byte offsets, of a checkpoint
  after each batch and of three retries per batch. The code reads the whole
  checkpointed file again, moves the checkpoint once per file, only if the file
  had a parseable row, and rolls the whole file back on a database error.
- The ETL calls its replays idempotent. They are, as long as no line comes in
  pieces: the lines after such a line are counted one too far, so their rows get
  a wrong `source_line` and, without an id of their own, a wrong id
  (`SplitReadBreaks`). `CommitIffClean` and `PrefixConsistency` say exactly when
  the table stays that of a prefix of the journal; no event is lost even then
  (`NothingIsLost`).
- `aurum_closed_positions` takes its cursor from the first row it does not show
  and then asks for rows strictly before it, so that row is never shown.
  `CompleteIffOnePage` says exactly when a walk is complete, `CursorWalkLaw`
  which rows it returns, and that the cursor `rows[limit-1]` repairs it for
  distinct timestamps.
- `_sanitize` may put a token together again from the end or the beginning of
  its own marker. `TokenSafeIff` says for which tokens it cannot, for tokens of
  every length.
- `_scrub` does not enter lists. `CleanEverywhereIff` says exactly when its
  result is clean all the same.
- A flag may be raised or lowered without any record (`KilledUnrecorded`).
  `RecordedUnlessLost` says exactly when: the request died, failed in the
  database or raised after the flag step and before its control row was in the
  session it commits.
- An audit row may stand without its control row, if the request raises between
  the two flushes (`TornRecord`); `RecordsArePaired` says that this is the only
  way. The code only builds a row there, so it relies on that not raising.
- Clearing the refresh cookie on an error reaches no browser, since the error
  response is built afresh; the tab therefore keeps its cookie.
- Reading back a written filter query loses an empty date and any instrument
  name that is empty, untrimmed or contains a comma (`RoundTripIff`).
- A size of 0 in the icon directory reads back as 256 (`IcoRoundTrip`).

## Model

| member | source | states |
|---|---|---|
| JournalLine.ParseLineMeaning | backend/app/workers/journal_etl.py:79-126 | a line yields a row exactly when it is an object with a truthy type or event_type and a readable ts; the row carries the line's own instant, instrument, payload and first type, its position, and the runner's own id exactly when event_id is a UUID |
| JournalLine.SyntheticNameInjective | backend/app/workers/journal_etl.py:74-76 | the hashed name determines file and line number, whatever colons ts and type contain |
| JournalLine.SyntheticNameTells | backend/app/workers/journal_etl.py:74-76 | at one position a different ts or a different type gives a different name |
| JournalLine.DecimalReads | backend/app/workers/journal_etl.py:75 | the line number is in the name in decimal digits without leading zeros, and reads back |
| JournalLine.JournalNameIff | backend/app/workers/journal_etl.py:53 | the file names that match are exactly those with eight digits between the two fixed parts, perhaps followed by a newline |
| JournalLine.SyntheticIdsNeverCollide | backend/app/workers/journal_etl.py:106-116 | a row with a synthetic id never shares it with a row of another journal position |
| JournalTable.FirstWriterWins | backend/app/workers/journal_etl.py:129-136 | the table holds exactly the event ids that occur, each with its first row |
| JournalTable.InsertAllKeeps | backend/app/workers/journal_etl.py:129-136 | insertion changes no existing row, misses no given id and invents none |
| JournalTable.ReplayThenNew | backend/app/workers/journal_etl.py:19-22 | replaying lines already loaded and then new ones equals loading all lines once |
| JournalTable.ReplayOnly | backend/app/workers/journal_etl.py:19-22 | replaying any stretch already loaded changes nothing |
| JournalTable.CheckpointIsLastRow | backend/app/workers/journal_etl.py:186-201 | after a file the checkpoint names it with the instant and id of its last row-bearing line; without one it stays |
| JournalSession.Session.InsertBatch | backend/app/workers/journal_etl.py:129-136 | on success the batch is inserted row by row if absent and the count is the growth of the table; on failure nothing changes |
| JournalSession.Session.UpdateCheckpoint | backend/app/workers/journal_etl.py:139-160 | upserts the one checkpoint row, leaving the events alone |
| JournalSession.Session.ReadLines | backend/app/workers/journal_etl.py:182-192 | the loop flushes and batches exactly the rows of the parseable lines, in order, for any batch size |
| JournalSession.Session.ReadAndInsert | backend/app/workers/journal_etl.py:175-194 | all rows of the file are in the table as if inserted one by one; parsed, inserted and the last row are exact |
| JournalSession.Session.ProcessFile | backend/app/workers/journal_etl.py:167-206 | the committed outcome is that of row-by-row insertion plus the checkpoint of the last row, whatever the batch size; inserted is the growth of the table; after a database error nothing of the file remains |
| JournalSession.Session.ProcessFiles | backend/app/workers/journal_etl.py:232-237 | files are committed in order; a failed pass has committed exactly the files before the failing one |
| JournalSession.Session.RunOnce | backend/app/workers/journal_etl.py:209-242 | one pass commits the checkpointed file and all after it; totals are exact |
| JournalSession.StartIndexFound | backend/app/workers/journal_etl.py:225-231 | the search loop finds the first file of the checkpointed name, or starts at 0 |
| JournalRun.ListingInOrder | backend/app/workers/journal_etl.py:59-62 | whatever order the directory yields, the listing is the journal files in name order |
| JournalRun.ListingMeaning | backend/app/workers/journal_etl.py:59-62 | of any directory, the listing has each journal file as often as it is there, no other file, in the order of names |
| Lexicographic.LexMeaning | backend/app/workers/journal_etl.py:62 | a name comes before another exactly when it does at the first place where they differ |
| JournalRun.WriterWrites | backend/app/workers/journal_etl.py:182-187 | completing a line adds it to the journal at the end of its file under the next number; the writer's other steps add nothing |
| JournalRun.OnlyCommitStores | backend/app/workers/journal_etl.py:202-205 | no step but a commit changes what is stored, and a failure ends the pass |
| JournalRun.TornAddsNothing | backend/app/workers/journal_etl.py:90-94 | a piece of a line at the end of a file bears no row |
| JournalRun.Absorb | backend/app/workers/journal_etl.py:167-206 | inserting any stretch of the log that starts inside the loaded prefix gives the table of the longer prefix |
| JournalInvariant.StepKeepsInv | backend/app/workers/journal_etl.py:167-242 | whatever is read while the writer goes on, every step keeps: the table knows every event of a journal prefix that never shrinks, and everything before the checkpointed file lies in it |
| JournalInvariant.NextKeepsCursor | backend/app/workers/journal_etl.py:182-185 | what an iteration over a growing file has yielded is its first lines under their numbers, then pieces without rows and lines counted too far |
| JournalSplit.WholeLinesAreClean | backend/app/workers/journal_etl.py:182-191 | if the iteration met no line in pieces, however many were appended meanwhile, the commit is clean |
| JournalSplit.CommitIffClean | backend/app/workers/journal_etl.py:175-202 | from the table of a prefix a commit leads to the table of a prefix if and only if no row read past a line met in pieces is new to the table |
| JournalSplit.CleanShiftsNoSynthetic | backend/app/workers/journal_etl.py:106-116 | a commit that read a row without an id of its own past a line met in pieces is never clean |
| JournalSplit.LoadedRow | backend/app/workers/journal_etl.py:117-136 | the row a loaded table holds for an event id carries the content and the position of the first line with that id |
| JournalContent.RowsComeFromLines | backend/app/workers/journal_etl.py:117-136 | in every run, split reads included, each row carries the instant, instrument, payload and type of a complete line of the file it names |
| JournalContent.RowsAreFirstLines | backend/app/workers/journal_etl.py:117-136 | after clean commits each row carries the content and position of the first line of the journal with its event id |
| JournalTheorems.PrefixConsistency | backend/app/workers/journal_etl.py:167-242 | in every run, the table is at every point the first-occurrence table of a prefix of the journal that includes all the last finished pass had listed, if and only if every commit of the run is clean in that sense |
| JournalTheorems.SplitReadBreaks | backend/app/workers/journal_etl.py:182-202 | a concrete run from the empty state whose commit leaves the table of no prefix |
| JournalTheorems.LateNewlineShifts | backend/app/workers/journal_etl.py:182-185 | a line read before its newline costs the next one its number, too: the newline comes as a line of its own |
| JournalTheorems.FinishCoversListed | backend/app/workers/journal_etl.py:209-242 | a pass that finishes while the writer goes on covers at least what its listing saw |
| JournalTheorems.NothingIsLost | backend/app/workers/journal_etl.py:209-242 | after any history, split reads included, a pass that finishes without a writer step since its listing leaves no event of the journal missing |
| JournalTheorems.PassCatchesUp | backend/app/workers/journal_etl.py:209-242 | if the commits before were clean, such a pass leaves exactly the table of the whole journal, after any failures and restarts |
| JournalTheorems.RowsAreForever | backend/app/workers/journal_etl.py:129-136 | no run changes or drops a row |
| JournalTheorems.CheckpointNeverMovesBack | backend/app/workers/journal_etl.py:195-201 | in every run the checkpointed file name stays or grows lexicographically |
| JournalTheorems.ResumeEqualsRescan | backend/app/workers/journal_etl.py:225-237 | in every reachable state, split reads included, starting at the checkpointed file leaves the same table and checkpoint as starting at the first file; after clean commits, the table of the whole journal |
| JournalTheorems.QuietPassIsRunOnce | backend/app/workers/journal_etl.py:209-242 | from every reachable state an undisturbed pass of the state machine is a run, and has the outcome RunOnce promises |
| JournalProgress.WorkerIsNeverStuck | backend/app/workers/journal_etl.py:167-242 | in every reachable state the worker can go on, fail while it reads, and be restarted |
| JournalProgress.DirectoryIsListed | backend/app/workers/journal_etl.py:59-62 | an idle worker can list any directory that holds the journal, whatever else it holds |
| JournalProgress.WriterIsFree | backend/app/workers/journal_etl.py:182-187 | the writer can always add text, complete a line, end it, or start a later file |
| JournalTheorems.SyntheticLinesAreNeverLost | backend/app/workers/journal_etl.py:106-116 | after clean commits each loaded line without an id of its own has its own row, with its file and line number |
| TokenServer.AuthApi.IssueTokens | backend/app/api/auth.py:122-148 | adds one unrevoked row for the minted token |
| TokenServer.AuthApi.RefreshHandler | backend/app/api/auth.py:488-570 | the six outcomes of a refresh and the store each leaves: missing, unknown, reused (all of the user revoked), expired (revoked), inactive, rotated |
| TokenServer.AuthApi.LogoutHandler | backend/app/api/auth.py:575-608 | revokes the presented token if it is known and unrevoked, and says whether it did |
| TokenServer.AuthApi.Handle | backend/app/db/session.py:34-47 | whether the handler returns or raises, its writes are committed |
| TokenChains.OnlyTheNewestIsLive | backend/app/api/auth.py:555-559 | in every run, of the tokens descending from one login at most one is unrevoked, it is the newest, and all belong to one user |
| TokenChains.RevokedAtIsWriteOnce | backend/app/api/auth.py:518-556 | no run changes revoked_at once it is set |
| TokenChains.AcceptedIffUsable | backend/app/api/auth.py:515-559 | a refresh is accepted exactly for an unrevoked, unexpired token of an active user; its successor is live and of the same user, and the token is spent |
| TokenChains.IssuedRow | backend/app/api/auth.py:130-140 | an issued token belongs to who logged in or owned the token used up, is live and unused, and expires at the drawn instant |
| TokenChains.IssuedTokenLifetime | backend/app/api/auth.py:515-559 | in every run a refresh with an issued token is answered as a replay if it was revoked, as expired from the instant drawn at its issue on, and before that is accepted if and only if its user is active |
| TokenChains.RotationStamps | backend/app/api/auth.py:555-559 | a rotation stamps exactly the token it uses up, as revoked and as used |
| TokenChains.SweepStamps | backend/app/api/auth.py:518-524 | a sweep stamps exactly the user's live tokens with the instant of the request |
| TokenChains.OneStamped | backend/app/api/auth.py:537-553 | a refusal for expiry stamps the presented token, any other refusal nothing |
| TokenChains.LogoutStamps | backend/app/api/auth.py:584-594 | a logout stamps the presented token if it is live, says so, and changes nothing else |
| TokenChains.RefusedWithoutEffect | backend/app/api/auth.py:489-513 | requests without a known token or an active user are refused and change nothing |
| TokenChains.ChainsGrow | backend/app/api/auth.py:555-559 | in every run a login starts a chain and a rotation continues the chain of the token it uses up |
| TokenChains.ActiveIsLastSet | backend/app/api/auth.py:551-553 | a user is active as it was set last |
| TokenChains.AcceptedAtMostOnce | backend/app/api/auth.py:515-559 | in every run a refresh token is accepted at most once |
| TokenChains.LogoutIsFinal | backend/app/api/auth.py:584-594 | a known token presented to logout is never accepted afterwards |
| TokenChains.LogoutAllIsFinal | backend/app/api/auth.py:624-630 | after a sign-out everywhere the user has no live token until the next login |
| TokenChains.UsersAreIsolated | backend/app/api/auth.py:515-630 | a request changes no row of a user it does not act for and adds none |
| TokenChains.ReuseKills | backend/app/api/auth.py:517-535 | presenting a revoked token fails and leaves its user without a live token |
| TokenChains.ReuseKillLasts | backend/app/api/auth.py:517-535 | after a replay every refresh with one of the user's tokens is refused as another replay until a login |
| RefreshClient.Tab.RefreshOnce | frontend/src/lib/api/client.ts:49-71 | joins the flight in progress, or starts one and sends one request with the jar's cookie |
| RefreshClient.Tab.OnReply | frontend/src/lib/api/client.ts:99-108 | only a first 401 with retry allowed waits for a refresh |
| RefreshClient.Tab.OnRefreshReply | frontend/src/lib/api/client.ts:57-68 | a successful reply sets the cookie, the promise resolves true only if its body can be read too, and the timer is armed either way |
| RefreshClient.Tab.OnTimer | frontend/src/lib/api/client.ts:65-67 | the timer clears the shared promise |
| RefreshClient.Tab.OnRefreshed | frontend/src/lib/api/client.ts:108-113 | a waiting call retries once without a further retry, or gives up |
| RefreshClient.SingleFlight | frontend/src/lib/api/client.ts:47-114 | in every run at most one message or timer is outstanding, a timer clears only its own flight, no request is sent more than twice and no call waits for a flight that is gone |
| RefreshClient.ReuseIffRevoked | backend/app/api/auth.py:517-535 | the server takes its reuse branch exactly when the token the tab holds or is about to receive is revoked |
| RefreshClient.RevokedByMishap | frontend/src/lib/api/client.ts:47-114 | a step leaves the tab's token revoked exactly when it was revoked or the step is a mishap: a successful reply lost, a live token looked at after its expiry, or a request of someone else that names the token or its user in one of the ways that revoke |
| RefreshClient.ReuseIffMishap | frontend/src/lib/api/client.ts:47-114 | a tab whose cookie starts unrevoked reaches the reuse branch if and only if a mishap came first; concurrent 401s alone never do |
| RefreshCalls.CallOutcomes | frontend/src/lib/api/client.ts:89-114 | in every run a call's second send happens if and only if the flight its 401 waited for ended in a delivered, readable success; otherwise it gave up with that 401 after one send; a finished call reports the answer to its last request |
| RefreshCalls.WaitingCallGoesOn | frontend/src/lib/api/client.ts:108-113 | a waiting call goes on exactly when its flight has ended, and then as that flight decides |
| RefreshCalls.RefreshIsSent | frontend/src/lib/api/client.ts:49-56 | exactly a first 401 that may retry, met while no refresh is in progress, sends one, with the jar's cookie |
| RefreshCalls.AnythingMayHappen | frontend/src/lib/api/client.ts:47-114 | the environment is unrestricted: any call, answer, loss, delivery, timer or request of someone else may come next |
| ClosedPositions.WalkEnds | backend/app/api/aurum.py:242-262 | n rows allow at most n / (limit + 1) pages that point to a next one |
| ClosedPositions.WalkExists | backend/app/api/aurum.py:242-262 | from every cursor there is a walk to the end |
| ClosedPositions.MatchingCount | backend/app/api/aurum.py:242-254 | the query selects exactly the closed positions before the cursor, each as often as it is in the table |
| ClosedPositions.CursorOf | backend/app/api/aurum.py:257-262 | a page shows the first limit rows and points on exactly when there are more, with the ts of the first hidden row |
| ClosedPositions.NeverTwice | backend/app/api/aurum.py:242-262 | ties included, a walk returns table rows at most as often as they are there, newest first throughout |
| ClosedPositions.CompleteIffOnePage | backend/app/api/aurum.py:258-262 | ties included, a walk returns every row if and only if one page holds them all |
| ClosedPositions.KeptLaw | backend/app/api/aurum.py:258-262 | of n rows n - n / (limit + 1) are kept, index i at position i - i / (limit + 1) unless i mod (limit + 1) is limit |
| ClosedPositions.CursorWalkLaw | backend/app/api/aurum.py:242-262 | for distinct ts the walk returns exactly the rows KeptLaw describes; with the cursor of the last row shown it returns every row once |
| EquityBars.BarsAreMinuteMaxima | backend/app/api/aurum.py:203-220 | ties included, exactly one bar per nonempty minute of the window, of maximal ts, ts strictly increasing |
| EquityBars.OneBarPerMinute | backend/app/api/aurum.py:203-220 | told in microseconds: a minute has a bar exactly if the table has an equity snapshot of the window in it, only one, and none later |
| EquityBars.Idempotent | backend/app/api/aurum.py:203-220 | downsampling the bars again gives the same bars |
| EquityBars.BarsMerge | backend/app/api/aurum.py:203-220 | the bars of two parts' bars stand at the times of the bars of the whole, ties included, and are the same bars for distinct ts |
| DailyReport.ReportConserves | backend/app/api/aurum.py:289-348 | wins, losses and rows without pnl make up the trades; averages times counts make up the total; averages and win rate exist exactly when they should and have the right sign or range |
| DailyReport.OneMoreRow | backend/app/api/aurum.py:289-355 | one more row changes a report only if it is a closed position of the interval, and then by exactly its pnl: as a win above 0, a loss at 0 or below, neither without pnl, and in the group of its instrument |
| DailyReport.EmptyReport | backend/app/api/aurum.py:327-355 | the report over nothing |
| DailyReport.DayIsReported | backend/app/api/aurum.py:285-287 | a day's report covers 24 hours |
| DailyReport.GroupMeaning | backend/app/api/aurum.py:310-322 | an instrument has a group exactly when it has rows, and the group counts and sums those rows |
| DailyReport.GroupsConserve | backend/app/api/aurum.py:310-355 | all groups together count and sum exactly the rows that have an instrument |
| DailyReport.ReportsAdd | backend/app/api/aurum.py:285-355 | the reports of two consecutive days add up to the report over both, overall and for every instrument |
| Redaction.NoneLeft | backend/app/brokers/oanda_adapter.py:40-43 | replacing a pattern that is not leaky leaves no occurrence, in gaps, in markers or across them |
| Redaction.LeakyLeaks | backend/app/brokers/oanda_adapter.py:40-43 | for every leaky pattern a short text comes out with the pattern in it |
| Redaction.SafeTokenNeverEchoed | backend/app/brokers/oanda_adapter.py:36-44 | if the last pattern searched for is not leaky, no text lets the token or its first 8 characters through, and the output has at most 500 characters |
| RedactionLaw.TokenSafeIff | backend/app/brokers/oanda_adapter.py:36-44 | for every nonempty token the promise holds for all texts if and only if the token is not echoable: its pattern lies in the marker, is completed before it, or is completed after it by a text whose double does not contain the token |
| RedactionLaw.LongToken | backend/app/brokers/oanda_adapter.py:36-44 | from 15 characters on, a token is echoable exactly when its first 8 are leaky |
| RedactionLaw.NineBrackets | backend/app/brokers/oanda_adapter.py:36-44 | a token whose first 8 characters are leaky and that is safe all the same |
| Redaction.DisjointTokenNeverEchoed | backend/app/brokers/oanda_adapter.py:36-44 | tokens sharing no character with the marker are never echoed, whole or by their first 8 characters |
| Redaction.LeakyTokenExists | backend/app/brokers/oanda_adapter.py:36-44 | a concrete token and text for which the promise fails |
| Redaction.OtherTextPasses | backend/app/brokers/oanda_adapter.py:36-44 | a text without the token and its first 8 characters comes out as it is, cut to 500 characters |
| Redaction.TokenReplaced | backend/app/brokers/oanda_adapter.py:40-44 | where the token comes once, the marker takes its place and the rest stays |
| Redaction.EmptyPattern | backend/app/brokers/oanda_adapter.py:40 | an empty token puts the marker around every character |
| IcoWriter.Buffer.WriteUInt8 | frontend/scripts/generate-icons.mjs:73-76 | writes one byte at the first unwritten position, or throws when out of range |
| IcoWriter.Buffer.WriteUInt16LE | frontend/scripts/generate-icons.mjs:62-64 | the same for two bytes, low byte first |
| IcoWriter.Buffer.WriteUInt32LE | frontend/scripts/generate-icons.mjs:79-80 | the same for four bytes, low byte first |
| IcoWriter.WriteHeader | frontend/scripts/generate-icons.mjs:61-64 | the header announces the number of entries, which must fit 16 bits; each of its bytes is written once |
| IcoWriter.WriteEntry | frontend/scripts/generate-icons.mjs:73-80 | one entry is written exactly when its size, length and offset fit their fields, every byte once |
| IcoWriter.WriteDirectory | frontend/scripts/generate-icons.mjs:66-83 | succeeds exactly when all entries fit and have an image; the directory and the chunks are complete |
| IcoWriter.BuildIco | frontend/scripts/generate-icons.mjs:59-85 | succeeds exactly on encodable input and returns the specified file |
| IcoWriter.IcoRoundTrip | frontend/scripts/generate-icons.mjs:59-85 | a reader following the directory recovers every image, as wide as high, with one plane of 32 bits, and its size exactly when that is not 0 |
| IcoWriter.RangesTile | frontend/scripts/generate-icons.mjs:67-82 | the ranges of the entries tile the file after the directory, without gap or overlap |
| TradeFilters.UrlSearchParams.Set | frontend/src/app/(authed)/dashboard/trades/page.tsx:68-73 | replaces the first pair of a name and drops the others, or appends |
| TradeFilters.WriteFilters | frontend/src/app/(authed)/dashboard/trades/page.tsx:66-76 | the query holds exactly the settings that differ from the default, in a fixed order |
| TradeFilters.ReadWritten | frontend/src/app/(authed)/dashboard/trades/page.tsx:52-76 | with canonical names the filters come back, an empty date as none |
| TradeFilters.RoundTripIff | frontend/src/app/(authed)/dashboard/trades/page.tsx:52-76 | the filters come back unchanged if and only if the names are nonempty, trimmed and without commas and no date is empty |
| TradeFilters.RewriteStable | frontend/src/app/(authed)/dashboard/trades/page.tsx:52-76 | for every query, rewriting twice is rewriting once |
| TradeFilters.WrittenGets | frontend/src/app/(authed)/dashboard/trades/page.tsx:66-76 | what each parameter of a written query reads as |
| TradeFilters.FullQuery | frontend/src/app/(authed)/dashboard/trades/page.tsx:66-76 | the names and the order of the parameters of a query with every filter set |
| TradeFilters.EmptyQuery | frontend/src/app/(authed)/dashboard/trades/page.tsx:52-64 | an empty query means no filter, newest first |
| TradeFilters.NamesRead | frontend/src/app/(authed)/dashboard/trades/page.tsx:54-57 | a comma list is read name by name |
| TradeFilters.TrimAllMeaning | frontend/src/app/(authed)/dashboard/trades/page.tsx:56-57 | names are trimmed one by one in their order, those that trim to nothing left out |
| TradeFilters.TrimExact | frontend/src/app/(authed)/dashboard/trades/page.tsx:56 | trimming takes off white space on both sides, all of it and nothing else |
| TradeFilters.GetFirst | frontend/src/app/(authed)/dashboard/trades/page.tsx:54-62 | a parameter that is there more than once reads as its first value |
| TradeFilters.SetThenGet | frontend/src/app/(authed)/dashboard/trades/page.tsx:68-73 | setting a parameter changes what is read under its name and nothing else |
| TradeTable.FilterRows | frontend/src/app/(authed)/dashboard/trades/page.tsx:287-304 | one filter pass keeps the passing rows in order |
| TradeTable.SortRows | frontend/src/app/(authed)/dashboard/trades/page.tsx:309-334 | a fresh copy is the stable sort of the rows, which stay as they are |
| TradeTable.ApplyClientFilters | frontend/src/app/(authed)/dashboard/trades/page.tsx:282-307 | the result is the stable sort of the rows that meet all active conditions |
| TradeTable.StagesAreConjunction | frontend/src/app/(authed)/dashboard/trades/page.tsx:286-304 | filtering stage after stage keeps exactly the rows that meet every condition |
| TradeTable.StageOrderIrrelevant | frontend/src/app/(authed)/dashboard/trades/page.tsx:286-304 | the order of the stages does not matter |
| TradeTable.TableMeaning | frontend/src/app/(authed)/dashboard/trades/page.tsx:282-345 | the table holds each row that meets all conditions as often as given, and no other, in the chosen order, ties in their original order |
| TradeTable.RowShown | frontend/src/app/(authed)/dashboard/trades/page.tsx:287-304 | a row is shown exactly if its instrument, side and instant meet the filters, told without the stages; an invalid date shows nothing |
| TradeTable.RowsFollow | frontend/src/app/(authed)/dashboard/trades/page.tsx:314-332 | each row is followed by rows that are not below it, or not above it, in the chosen column, missing values counting as 0 or the empty name |
| TradeTable.HoldMeaning | frontend/src/app/(authed)/dashboard/trades/page.tsx:336-345 | the hold time is the recorded one, else that between opening and closing to the nearest second |
| Sorting.SortInPlace | frontend/src/app/(authed)/dashboard/trades/page.tsx:316-332 | sorts an array in place into the sorted form of its old contents |
| Sorting.SortIsStable | frontend/src/app/(authed)/dashboard/trades/page.tsx:316-332 | the sorted form is ordered and keeps ties in their original order |
| Sorting.StableSortUnique | frontend/src/app/(authed)/dashboard/trades/page.tsx:316-332 | any ordering that keeps ties in place is that sorted form, so the engine's algorithm does not matter |
| ControlFlags.FlagsAreNeverTorn | backend/app/aurum/control.py:41-53 | in every interleaving, with deaths at any step, a flag is absent or holds one complete payload of an owner's request for it |
| ControlFlags.StopIsLatched | backend/app/aurum/control.py:119-154 | no run removes the stop flag |
| ControlHistory.FlagIsLastWritten | backend/app/aurum/control.py:103-154 | in every run each flag file holds the payload of the last request that wrote it, and a pause flag is absent after a resume |
| ControlHistory.ViewTellsHistory | backend/app/aurum/control.py:157-172 | a view says what the run up to each of its looks says: stop requested if a stop was written, paused if a pause was that no resume has undone, and that pause's payload |
| ControlHistory.StopIffRequested | backend/app/aurum/control.py:140-154 | in every run the stop flag is there if and only if an admitted stop of the owner has done its flag step |
| ControlHistory.AnythingMayHappen | backend/app/aurum/control.py:103-154 | any new request may begin, and a live one may go on, raise, fail in the database or die |
| ControlFlags.RecordsArePaired | backend/app/aurum/control.py:72-100 | in every run each control row has its audit row and each row follows the flag step of an admitted owner request with its id and action; the two tables agree row by row if and only if no request raised between its two flushes |
| ControlFlags.RecordedUnlessLost | backend/app/aurum/control.py:103-154 | in every run, when all requests have ended, a flag step is without its control row if and only if its request died, failed in the database or raised after the flag step and before that row was in the session it commits |
| ControlFlags.KilledUnrecorded | backend/app/aurum/control.py:103-154 | a concrete run in which a request dies right after its flag step and no row tells of it |
| ControlFlags.TornRecord | backend/app/aurum/control.py:82-100 | a concrete run in which a request raises between its flushes and its audit row stands alone |
| ControlFlags.ViewMeaning | backend/app/aurum/control.py:157-172 | a view shows only whole payloads, says paused and stop requested exactly as its last two looks found the flags, is unreadable exactly when a resume came between its first two looks, and is consistent when nothing changed |
| ControlFlags.AloneIsHandle | backend/app/aurum/control.py:103-154 | a request that runs alone through the state machine has the outcome its handler promises |
| ControlFlags.ControlApi.AtomicWriteJson | backend/app/aurum/control.py:41-53 | the flag holds the payload, the temporary file is gone, no other file changed |
| ControlFlags.ControlApi.Record | backend/app/aurum/control.py:72-100 | flushes one audit row and then one control row for the same action and request |
| ControlFlags.ControlApi.Handle | backend/app/aurum/control.py:103-154 | pause, resume and stop: refused without effect unless the user is the owner; otherwise the flag step and one pair of rows |
| AuditScrub.Scrub | backend/app/core/audit.py:36-47 | the loop scrubs every member and recurses on dicts; nothing stays nothing |
| AuditScrub.ScrubbedAt | backend/app/core/audit.py:40-46 | along every path of keys without a forbidden one before its end, the value is the scrubbed original, and the redaction at a forbidden end |
| AuditScrub.ForbiddenIff | backend/app/core/audit.py:18-41 | a key is forbidden exactly if it spells one of the twelve words, whatever its capitals |
| AuditScrub.FindsLast | backend/app/core/audit.py:39-46 | what is found under a key is the value of its last member |
| AuditScrub.AtGoesOn | backend/app/core/audit.py:40-46 | a path of keys is followed object by object |
| AuditScrub.ScrubbedIsClean | backend/app/core/audit.py:40-46 | through dicts no forbidden key carries anything but the redaction |
| AuditScrub.ScrubIdempotent | backend/app/core/audit.py:36-47 | scrubbing again changes nothing |
| AuditScrub.CleanEverywhereIff | backend/app/core/audit.py:43-46 | the result is clean everywhere, lists included, if and only if the lists it passes by were clean |
| AuditScrub.ListsAreNotScrubbed | backend/app/core/audit.py:45-46 | a concrete metadata tree whose token survives in a list |

## Left out

- JournalSession.Session.UpdateCheckpoint: does not model `updated_at`, which nothing in the ETL reads.
- ClosedPositions.CursorWalkLaw: states the repaired cursor for distinct ts only; rows that tie across a page boundary can still be dropped.
- JSON, ISO date and UUID text parsing: lines come classified. UUIDv5 (section 5.5 of RFC 9562) is taken as injective on its name and never equal to an id the runner wrote; an object without its closing brace is malformed (section 4 of RFC 8259).
- Pieces of a line are taken to bear no row: the runner's lines are objects that begin with their brace, so neither a proper beginning nor a proper end of one is an object.
- Journal discipline assumed of the writer: files are append-only and never deleted, new names sort last, and a file is complete once a later one exists.
- Non-ASCII decimal digits in journal file names, which `\d` would match.
- A missing journal directory, backoff and sleeping in `run_loop`; a row the database itself rejects.
- Concurrent transactions inside the token endpoints: the code takes no row lock, so requests are taken as serial.
- JWTs, WebAuthn and hashing: tokens stand for their SHA-256 digests, fresh ones are distinct; login is modelled from the point where the user is known.
- Audit rows of the token and read endpoints, cookie attributes, deletion of users.
- `refresh()` in `frontend/src/lib/api/auth.ts`, which bypasses the shared promise; login and logout inside the tab, access tokens and their headers.
- Percent-encoding of the query string: a query is the list of its decoded pairs.
- Floating point: amounts are reals, without NaN or rounding. Dates and unknown sort keys reach the trade table already interpreted; case folding and locale order are parameters.
- The float projection of equity payloads, ISO parsing of report dates, and the range check on `days`.
- Durability under power loss, creation of the control directory, clashes of random temporary names, the runner's side of the flags.
- Rasterizing of icons and fractional sizes.
- Non-string metadata keys, and lower-casing beyond ASCII and the Kelvin sign.
- Routing, rate limits, React components, broker adapters, the MT5 bridge, watchdog thresholds and toggles: plumbing or easy members.
