# Artek Buddy, verified

Artek Buddy hosts AI agents: a Python host, a web client, sandboxed desktops. This project
models the parts of it that carry real state, scanning or arithmetic, and proves what each of
them is for. Every module names the file it models; loops and objects that change state are
Dafny methods and classes proved against functions, and the properties are lemmas about those
functions, over every input or every run.

`dafny verify dfyconfig.toml` checks everything.

| modules | what they model | main results |
|---|---|---|
| `SqlSplit`, `SqlSplitLaws`, `SqlTokens` | the SQL statement splitter | both lexers agree; the cuts are the only way to write the input as texts joined at semicolons in code; split after join is the identity; each kind of token, and so the first cut, is what section 4.1 of the PostgreSQL manual describes |
| `Calendar`, `Cron`, `CronText` | cron schedules on a concrete Gregorian calendar | the least matching minute, by the rule for the two day fields; exactly when the search fails; printed schedules parse to what they denote |
| `EventHub`, `EventHubRuns` | the in-process event hub | what a subscriber is given in every interleaving |
| `Sse` | server-sent event printers and the incremental reader | chunking does not matter; what is printed is read |
| `Takeovers`, `TakeoverRuns` | takeover waits of the consent hub | the first decision counts, tokens are used once, nothing is left behind |
| `Questions`, `QuestionRuns` | owner questions of the consent hub | exactly which answers are accepted: at most one, which is what the wait returns |
| `PgUrls`, `PgUrlLaws` | redaction of postgres URLs | idempotent; changes exactly the passwords of postgres URLs |
| `Migration` | moving credentials into the broker | nothing is lost in any intermediate state, whatever fails; without faults everything storable is moved |
| `Bytes`, `ScreenUrl`, `ScreenPath` | signed screen URLs | mint and resolve are inverse; a URL resolves to exactly what it is signed for; the opened path shows the signed policy |
| `KeyCase` | snake and camel case of JSON keys | exactly which trees survive the round trip |
| `Turns` | the runtime's turn indexes | over every interleaving, exactly which steps keep agents' turns live and tool boxes right |
| `Audit` | the audit hash chain | a head hash commits to all that follows the last restart, and to nothing before it |
| `Limiter`, `Spans`, `Packers` | rate limiting, credential masking, byte budgets | exactly how many records a window can hold; masking is simultaneous replacement; packing is maximal |

`Text` holds the string operations of Python and JavaScript that several modules share.

Results that are not what one might expect:

- `CronText.LeapDayMissed`: the schedule `0 0 29 2 *` is refused as having no next run unless a
  29th of February lies within 366 days. `Cron.FailsIff` says exactly when a search fails.
- `KeyCase.ProtoIsLost`: a property named `__proto__` does not survive camelizing, because
  assigning to that key sets a prototype. `KeyCase.RoundTripIff` says exactly which trees survive.
- `ScreenPath.FragmentHidesPolicy`: a number sign in the path a screen URL is minted for swallows
  the policy query. `ScreenPath.MintedPolicyIff` says exactly when.
- `Turns.LateFillRevives`: a tool box is registered in the lock and filled after it, so a turn that
  is cleared in between comes back into the box. `Turns.RunBoxesIff` says exactly, by the
  steps of a run, when all boxes are right.
- `Turns.SharedRunDangles` and `Turns.RunNamedAsBot`: a run frozen for two bots, or a run whose id is
  another bot's, leaves an agent with a turn that is not live. `Turns.RunAgentsIff` says exactly,
  by the steps of a run, when every agent's turn is live.
- `Audit.RestartAccepted`: any verified chain can be put in front of another without changing the
  head hash. `Audit.NumberedIff` and `Audit.CommitsFromLastStart` say what holds of chains that restart.
- `Limiter.Sharp`: with c checks of a key outstanding at once, limit + c - 1 records fit into one
  window, and by `Limiter.EveryRun` no more.

## Model

| member | source | states |
|---|---|---|
| SqlSplit.SplitSqlStatements | src/artek_buddy/db/sql_split.py:6-138 | the seven-state loop computes the split that works token by token on the remaining text |
| SqlSplit.OnlyTrivia | src/artek_buddy/db/sql_split.py:164-204 | the second loop decides whether a text is only white space and comments |
| SqlSplit.DollarOpenAt | src/artek_buddy/db/sql_split.py:141-153 | the tag found at a position is the dollar tag the text starts with there, without look-behind |
| SqlSplit.EscapeStartAgrees | src/artek_buddy/db/sql_split.py:156-161 | the look-behind into the whole text sees what a look-behind into the current statement sees, across cuts |
| SqlSplit.TailStep | src/artek_buddy/db/sql_split.py:21-135 | every turn of the character loop consumes a piece of the token it is in: state by state, the loop reads whole tokens |
| SqlSplitLaws.RawIff | src/artek_buddy/db/sql_split.py:21-138 | lossless, and cuts exactly in code: the raw segments are the one sequence of texts that join with semicolons to the input and each end in code |
| SqlSplitLaws.TriviaAgrees | src/artek_buddy/db/sql_split.py:164-204 | the second lexer agrees with the first on every text |
| SqlSplitLaws.EmitIff | src/artek_buddy/db/sql_split.py:15-19 | a segment is dropped exactly when the main lexer finds only white space and comments in it |
| SqlSplitLaws.FirstStable | src/artek_buddy/db/sql_split.py:25-135 | a token that closes in a text closes there whatever follows apart from it; an open one runs on |
| SqlSplitLaws.SplitStatements | src/artek_buddy/db/sql_split.py:6-138 | of the emitted statements only the last can be left unterminated |
| SqlSplitLaws.SplitAlone | src/artek_buddy/db/sql_split.py:6-138 | each emitted statement splits to itself alone |
| SqlSplitLaws.SplitJoin | src/artek_buddy/db/sql_split.py:6-138 | any list of statements survives joining with newline-semicolon-newline and splitting |
| SqlSplitLaws.RoundTrip | src/artek_buddy/db/sql_split.py:6-138 | for every text, joining its statements and splitting again gives the same list |
| SqlTokens.QuoteIff | src/artek_buddy/db/sql_split.py:50-86 | a quoted token is exactly a value with its quotes doubled and a closing quote |
| SqlTokens.EQuoteIff | src/artek_buddy/db/sql_split.py:61-75 | an escape string is exactly backslash pairs, doubled quotes and bare characters, then a quote |
| SqlTokens.DollarBody | src/artek_buddy/db/sql_split.py:88-98 | a dollar body opened by a text of the shape of a tag ends at the first occurrence of that text, or nowhere if there is none |
| SqlTokens.DollarIff | src/artek_buddy/db/sql_split.py:88-98 | a dollar body closes after n characters exactly if its opening text stands for the first time just before |
| SqlTokens.OpenIff | src/artek_buddy/db/sql_split.py:141-153 | a tag is found exactly if one stands there: a dollar sign, no name or a letter or underscore and then word characters, a dollar sign; no look-behind |
| SqlTokens.BlockIff | src/artek_buddy/db/sql_split.py:32-48 | a block comment closes exactly where its marks nest and first balance |
| SqlTokens.LineIff | src/artek_buddy/db/sql_split.py:25-30 | a line comment ends at its first newline |
| SqlTokens.EscapeStartIff | src/artek_buddy/db/sql_split.py:156-161 | a quote starts an escape string exactly behind an E or e that no word character precedes |
| SqlTokens.FirstIff | src/artek_buddy/db/sql_split.py:100-135 | the token that starts at a character of code is the one whose text stands there: comment, quoted text, escape string, dollar quote or a character of its own |
| SqlTokens.CutIff | src/artek_buddy/db/sql_split.py:21-138 | the first statement ends exactly at the semicolon that a sequence of whole tokens leads up to |
| SqlTokens.TriviaIff | src/artek_buddy/db/sql_split.py:164-204 | a text is dropped exactly if it is white space and comments, written out |
| Calendar.TickAdds | src/artek_buddy/cron.py:49 | the minute after, by fields, is one minute later by count, across months, years and leap days |
| Calendar.OrderIff | src/artek_buddy/cron.py:45-49 | the minute count orders wall-clock minutes as the calendar does |
| Cron.ParseField | src/artek_buddy/cron.py:53-81 | the loop over pieces computes the field, or the first piece's error |
| Cron.FieldMeans | src/artek_buddy/cron.py:53-81 | a field holds exactly the values its pieces denote, with Sunday's 7 read as 0; it is not empty and in range |
| Cron.ParseCron | src/artek_buddy/cron.py:28-36 | five fields in their ranges, or the first error |
| Cron.ParseSane | src/artek_buddy/cron.py:28-36 | every accepted schedule has nonempty fields in range |
| Cron.SaturdayIsSix | src/artek_buddy/cron.py:103 | weekdays are counted from Sunday as 0: the first of January 2000 was a 6 |
| Cron.WeekdayAdvances | src/artek_buddy/cron.py:103 | the weekday advances by one a day, modulo 7 |
| Cron.MatchesIff | src/artek_buddy/cron.py:91-110 | which minutes a schedule matches: where a day field is free the other decides, where both are restricted either may |
| Cron.NextRunAt | src/artek_buddy/cron.py:39-50 | the least matching minute after the start, or an error only if none is within the bound |
| Cron.EarlierOfTwo | src/artek_buddy/cron.py:39-110 | with both day fields restricted, the next run is the earlier of the next runs of the two schedules that free one of them, and fails only if both do |
| Cron.DateRecurs | src/artek_buddy/cron.py:46 | a date that every year has recurs within 366 days |
| Cron.WeekdayRecurs | src/artek_buddy/cron.py:46-110 | every weekday of every month recurs within 366 days |
| Cron.FailsIff | src/artek_buddy/cron.py:46-110 | nothing matches within the bound exactly if weekdays are unrestricted, no allowed month and day exist in every year, and no allowed 29th of February lies ahead |
| Cron.NextRunFailsIff | src/artek_buddy/cron.py:39-50 | the search raises for exactly those schedules |
| CronText.FieldParses | src/artek_buddy/cron.py:53-81 | a printed field parses to what its pieces denote |
| CronText.ItemIff | src/artek_buddy/cron.py:56-80 | a printed piece is read as what it denotes if its step is positive and its bounds are ordered and in range, and is refused with the right error otherwise |
| CronText.FieldIff | src/artek_buddy/cron.py:53-81 | a printed field is accepted exactly if all its pieces are |
| CronText.ScheduleParses | src/artek_buddy/cron.py:28-81 | a printed schedule parses to what it denotes, whatever white space parts its fields |
| CronText.LeapDayMissed | src/artek_buddy/cron.py:39-50 | the text `0 0 29 2 *`, asked about in March 2025, is refused, though it is a schedule that February 2028 matches |
| EventHub.EventHub.Publish | src/artek_buddy/bus.py:34-41 | the new hub: the ring keeps the newest events, both channels' queues get the event |
| EventHub.EventHub.Deliver | src/artek_buddy/bus.py:43-45 | exactly the given queues get the event |
| EventHub.EventHub.Enqueue | src/artek_buddy/bus.py:47-59 | a full queue drops its oldest event, no other queue changes |
| EventHub.EventHub.HasEvent | src/artek_buddy/bus.py:71-72 | whether the ring holds an id |
| EventHub.EventHub.Replay | src/artek_buddy/bus.py:74-85 | the ring after the first event with the cursor's id |
| EventHub.EventHub.Register | src/artek_buddy/bus.py:94-96 | a fresh, empty, registered queue |
| EventHub.EventHub.Get | src/artek_buddy/bus.py:107 | the oldest queued event is taken |
| EventHub.EventHub.Discard | src/artek_buddy/bus.py:111-112 | the queue is gone from its channel |
| EventHubRuns.StepKeeps | src/artek_buddy/bus.py:34-112 | every step keeps: rings and queues are suffixes of history; taken, dropped and queued events account for all since registration; outputs hold at most one gap marker, right after the opening heartbeat |
| EventHubRuns.RunKeeps | src/artek_buddy/bus.py:34-112 | so does every run |
| EventHubRuns.WantedIs | src/artek_buddy/bus.py:74-104 | the replay is history from just after the cursor to the snapshot, if the cursor is among the last `size` events of the channel; otherwise there is none and the gap is marked |
| EventHubRuns.RingHolds | src/artek_buddy/bus.py:36-39 | the ring holds the last `size` events, or all there are |
| EventHubRuns.StreamIs | src/artek_buddy/bus.py:87-112 | what a live subscriber has been given, on any channel: a replay up to the snapshot, then live events at increasing positions from registration on; one gap marker, ahead of all events, exactly for an evicted cursor |
| EventHubRuns.EveryRun | src/artek_buddy/bus.py:87-112 | that, for every subscriber in every run from an empty hub |
| EventHubRuns.NothingLost | src/artek_buddy/bus.py:87-112 | without overflow every event since registration follows the replay; on a bot's channel the stream is history[lo..snapshot) then history[registration..), so nothing is lost and only the overlap repeats |
| EventHubRuns.DropsOnlyWhenFull | src/artek_buddy/bus.py:47-59 | an event is dropped only when the queue is full |
| Sse.ReadSse | client/web/src/api.ts:703-741 | the two loops compute the line-by-line reading of the chunks, events and leftover state |
| Sse.Whole | client/web/src/api.ts:709-741 | reading chunk by chunk is reading the whole text |
| Sse.ChunkIndependent | client/web/src/api.ts:709-741 | two chunkings of one text give the same events and state |
| Sse.ReadFrame | client/web/src/api.ts:716-739 | a printed frame is read as its type, id and data |
| Sse.PrintedIsRead | client/web/src/api.ts:703-740 | any run of printed frames and keepalives, however chunked, yields what the decoder makes of the printed triples, in order, and nothing else |
| Sse.EveryFrameIsRead | client/web/src/api.ts:703-740 | with a decoder that takes every frame, exactly the printed triples come out |
| Sse.DataLines | client/web/src/api.ts:716-739 | several data lines of one frame are joined by newlines |
| Sse.ToSsePrints | src/artek_buddy/activity.py:83-85 | an activity record prints such a frame |
| Takeovers.TakeoverHub.EnterWait | src/artek_buddy/consent.py:1047-1065 | the first locked section, on all three tables |
| Takeovers.TakeoverHub.FinishWait | src/artek_buddy/consent.py:1067-1077 | the last locked section and its result |
| Takeovers.TakeoverHub.ReleaseTakeovers | src/artek_buddy/consent.py:1079-1091 | all waiting runs of the bot are released, or a token is left |
| Takeovers.TakeoverHub.CancelTakeovers | src/artek_buddy/consent.py:1093-1107 | exactly the wanted runs are cancelled, of every bot |
| TakeoverRuns.RunKeeps | src/artek_buddy/consent.py:1047-1107 | every run keeps the tables consistent with the log of releases and cancels |
| TakeoverRuns.WaitOutcome | src/artek_buddy/consent.py:1047-1107 | a wait returns the first release or cancel since it registered, a timeout exactly if there was none, and at once "released" exactly if a token is pending |
| TakeoverRuns.NothingLeft | src/artek_buddy/consent.py:1047-1107 | a token means nobody waits for the bot and serves at most one wait; with no wait in flight nothing is left |
| Questions.QuestionHub.BeginQuestion | src/artek_buddy/consent.py:875-887 | one question per run |
| Questions.QuestionHub.ActivateQuestion | src/artek_buddy/consent.py:889-929 | the run waits for input unless it was answered or cancelled |
| Questions.QuestionHub.AnswerQuestion | src/artek_buddy/consent.py:931-970 | when an answer is accepted, and what it changes |
| Questions.QuestionHub.FinishWait | src/artek_buddy/consent.py:1005-1045 | the question is removed, and its answer, cancellation or timeout returned |
| Questions.QuestionHub.CancelQuestions | src/artek_buddy/consent.py:1148-1155 | exactly the given runs' questions are cancelled |
| QuestionRuns.StepKeeps | src/artek_buddy/consent.py:875-1155 | every step keeps the questions and run statuses what the log of begins, activations, answers and ends says |
| QuestionRuns.EveryRun | src/artek_buddy/consent.py:875-1155 | so does every run |
| QuestionRuns.BeginIff | src/artek_buddy/consent.py:875-887 | a question begins exactly if the names are given, the bot exists and the run has none open |
| QuestionRuns.ActivateIff | src/artek_buddy/consent.py:889-929 | when an activation succeeds, when it ends the question, and that an unanswered run then waits for input |
| QuestionRuns.ReplyIff | src/artek_buddy/consent.py:931-970 | an answer is accepted exactly if its text is not blank, a question of that bot is open and undecided, the message is the one it is shown as or one of the run, and the store takes it; a wait that ends next returns its text |
| QuestionRuns.WaitOutcome | src/artek_buddy/consent.py:1005-1045 | a wait returns the first thing decided since the question began: the accepted answer word for word, the cancellation, or a timeout if neither came; at most one answer was accepted, for one message |
| QuestionRuns.NeverBackToWaiting | src/artek_buddy/consent.py:889-970 | once an answer is accepted the run stays running, whatever activations come late, until a new question begins |
| PgUrls.RedactPostgresUrls | src/artek_buddy/observe.py:149-194 | the scan computes the redaction turn by turn, and always advances |
| PgUrls.FindScheme | src/artek_buddy/observe.py:160-168 | the earliest scheme, the longer one of two |
| PgUrls.Decide | src/artek_buddy/observe.py:170-186 | the seven tests together: a user without slash and a password without white space |
| PgUrlLaws.UrlIff | src/artek_buddy/observe.py:160-186 | what the scan takes for a URL with a password to redact is exactly a text of that form |
| PgUrlLaws.OnlyPasswordsChange | src/artek_buddy/observe.py:149-194 | the output is the input with disjoint password spans replaced at once |
| PgUrlLaws.EveryPasswordCovered | src/artek_buddy/observe.py:149-194 | every URL's password lies in a replaced span, also behind skipped or swallowed schemes |
| PgUrlLaws.EveryUrlCovered | src/artek_buddy/observe.py:149-194 | that, for every text of the form of a postgres URL with a password |
| PgUrlLaws.SpansAreUrls | src/artek_buddy/observe.py:149-194 | conversely, every replaced span is the password of one |
| PgUrlLaws.LikeOutput | src/artek_buddy/observe.py:171-190 | decisions are unaffected by later replacements |
| PgUrlLaws.OutputClean | src/artek_buddy/observe.py:149-194 | no password that would be redacted is left unmasked |
| PgUrlLaws.CleanFixed | src/artek_buddy/observe.py:149-194 | a text in which all are masked does not change |
| PgUrlLaws.Idempotent | src/artek_buddy/observe.py:149-194 | redacting twice is redacting once |
| Migration.Migrator.Migrate | src/artek_buddy/credential_broker.py:590-683 | every state in between keeps every credential, also when an exception ends the run; a report counts true outcomes of exactly the legacy files; where no call raised, only files whose value the broker does not take have failed; a clean run leaves nothing to do and a rerun changes nothing |
| Migration.Migrator.MigrateDir | src/artek_buddy/credential_broker.py:601-676 | that for one bot directory, and no other directory changes |
| Migration.Migrator.MigrateOne | src/artek_buddy/credential_broker.py:611-665 | a file is gone after a success, and the broker then holds its own value or, if stale, another; migrated means stored by this run; without a raising call it fails only if the value is missing and not storable; caught exceptions count as failed, others end the run |
| Migration.Migrator.PutIfMissing | src/artek_buddy/credential_broker.py:161-187 | a value is stored only where there was none, and is refused exactly if blank or too long, unless the call raises |
| Migration.Migrator.ConfirmSecret | src/artek_buddy/credential_broker.py:255-263 | whether the broker holds this value |
| Migration.Migrator.SecretState | src/artek_buddy/credential_broker.py:265-277 | missing, same or different |
| Migration.Migrator.Unlink | src/artek_buddy/credential_broker.py:643 | removing a file is only reached when the broker holds its credential |
| Migration.StepKept | src/artek_buddy/credential_broker.py:612-645 | adding credentials, or removing a file whose credential the broker holds, loses nothing |
| Migration.NeverLost | src/artek_buddy/credential_broker.py:590-683 | at every moment each credential is in its file or in the broker, as the file's own value unless another was there before; broker values never change |
| Bytes.Utf8RoundTrip | src/artek_buddy/computer/screen.py:71-96 | strict UTF-8 decoding inverts encoding |
| Bytes.CharBits | src/artek_buddy/computer/screen.py:71-96 | the code points of one to four bytes are those of section 3 of RFC 3629 |
| Bytes.B64UrlRoundTrip | src/artek_buddy/computer/screen.py:25-31 | unpadded base64url decoding inverts encoding on all byte strings |
| Bytes.GroupIs | src/artek_buddy/computer/screen.py:25-31 | three bytes and their four letters are the same 24-bit number |
| Bytes.LastGroup | src/artek_buddy/computer/screen.py:25-31 | one or two bytes at the end are padded with zero bits |
| Bytes.LetterTable | src/artek_buddy/computer/screen.py:25-31 | the letters are those of table 2 in section 5 of RFC 4648 |
| ScreenUrl.ParsePrints | src/artek_buddy/computer/screen.py:12-14 | the regular expression takes a printed URL apart into its parts |
| ScreenUrl.ParseReads | src/artek_buddy/computer/screen.py:12-14 | every text of the form of a screen URL is taken apart into its pieces |
| ScreenUrl.ParseShape | src/artek_buddy/computer/screen.py:12-14 | conversely, what is taken apart has that form |
| ScreenUrl.AllowedHostIff | src/artek_buddy/computer/screen.py:43-52 | the allowed hosts: three names, the addresses of three private networks, and bot containers |
| ScreenUrl.RoundTrip | src/artek_buddy/computer/screen.py:55-116 | a minted URL resolves to its host, port and policy at any time up to its expiry, and to nothing after |
| ScreenUrl.MessageDetermines | src/artek_buddy/computer/screen.py:34-40 | the signed text determines host, port, policy and expiry, colons in the host or not |
| ScreenUrl.ResolvedIsSigned | src/artek_buddy/computer/screen.py:92-116 | a URL that resolves gives only what its signature was made for, unless two signed texts collide |
| ScreenUrl.ResolveIff | src/artek_buddy/computer/screen.py:92-116 | a URL resolves to a target exactly if it has the form, names an allowed host and port, is not expired and is signed for that |
| ScreenPath.QueryRoundTrip | src/artek_buddy/computer/screen.py:85-88 | parsing an encoded query gives its pairs back |
| ScreenPath.PolicyHolds | src/artek_buddy/computer/screen.py:79-89 | whatever is requested, the opened path shows no policy but the signed one, and when it shows it |
| ScreenPath.MintedPolicyIff | src/artek_buddy/computer/screen.py:72-89 | a minted URL opens with its policy exactly if its path has no number sign or names the embed page |
| ScreenPath.FragmentHidesPolicy | src/artek_buddy/computer/screen.py:72-89 | minted for /vnc.html#x, it opens without a policy |
| ScreenPath.SomeCodec | src/artek_buddy/computer/screen.py:85-88 | a codec with the assumed properties exists |
| KeyCase.ConvertJson | client/web/src/camel.ts:9-35 | the loop that fills the new object computes the conversion |
| KeyCase.CamelWord | client/web/src/camel.ts:1-3 | an underscore before a small letter becomes its capital, the rest stays |
| KeyCase.SnakeWord | client/web/src/camel.ts:5-7 | a capital becomes an underscore and its small letter, the rest stays |
| KeyCase.SnakeCamel | client/web/src/camel.ts:1-7 | on keys without upper-case letters snakeKey inverts camelKey |
| KeyCase.CamelSnake | client/web/src/camel.ts:1-7 | on keys without an underscore before a lower-case letter camelKey inverts snakeKey |
| KeyCase.KeyBack | client/web/src/camel.ts:1-7 | keys that survive come back, so they do not collide |
| KeyCase.RoundTripIff | client/web/src/camel.ts:1-35 | a tree comes back from a conversion and its inverse exactly when all its keys survive, in both directions |
| KeyCase.ProtoIsLost | client/web/src/camel.ts:13-17 | a property named `__proto__` is lost |
| Turns.TurnIndex.FreezeTurn | src/artek_buddy/runtime/base.py:251-262 | the new maps and the turn in the agent's box |
| Turns.TurnIndex.RegisterToolBox | src/artek_buddy/runtime/base.py:264-268 | the locked section: the box is registered and the agent's frozen turn read |
| Turns.TurnIndex.FillBox | src/artek_buddy/runtime/base.py:269-270 | after the lock, the box gets the turn that was read, if any |
| Turns.TurnIndex.ResolveTurn | src/artek_buddy/runtime/base.py:294-318 | the callback's turn, then the agent's, then the only live one |
| Turns.TurnIndex.ClearActiveTurn | src/artek_buddy/runtime/base.py:340-371 | exactly the entries of the run or bot are dropped, and their boxes emptied |
| Turns.RunShape | src/artek_buddy/runtime/base.py:251-371 | in every run the three per-run maps have the same keys and agree, and each agent has a box of its own |
| Turns.RunTurn | src/artek_buddy/runtime/base.py:251-371 | in every run an agent's turn is what the freezes and clears so far leave it with |
| Turns.RunLive | src/artek_buddy/runtime/base.py:251-371 | in every run exactly those runs are live that were frozen and not cleared since, each with its latest turn |
| Turns.StepBox | src/artek_buddy/runtime/base.py:251-371 | what each step makes of the turn in an agent's box |
| Turns.BoxesIff | src/artek_buddy/runtime/base.py:251-371 | no step but a late fill disturbs the boxes, and a fill exactly if its turn is no longer the agent's and the box still is |
| Turns.InTimeIff | src/artek_buddy/runtime/base.py:264-270 | whether a fill comes in time is a matter of the steps since its read: those leave the agent with the turn read, or with another box |
| Turns.RunBoxesIff | src/artek_buddy/runtime/base.py:251-371 | every box holds its agent's turn or none, in every state of a run, exactly if every fill comes in time |
| Turns.LateFillRevives | src/artek_buddy/runtime/base.py:264-270 | read, clear, fill: the box holds a turn that is gone |
| Turns.AgentsIff | src/artek_buddy/runtime/base.py:251-371 | a freeze or clear keeps every agent's turn live exactly if no other bot's agent has a turn of the run it takes over or drops |
| Turns.RunAgentsIff | src/artek_buddy/runtime/base.py:251-371 | every agent's turn is live in every state of a run exactly if every step is safe in that sense, by the steps before it |
| Turns.SharedRunDangles | src/artek_buddy/runtime/base.py:251-371 | a run frozen for two bots leaves the first one's agent without a live turn of its own, and a clear leaves it a dead one |
| Turns.RunNamedAsBot | src/artek_buddy/runtime/base.py:355-371 | clearing a bot drops another bot's run of the same id and leaves its agent |
| Turns.RunConsistent | src/artek_buddy/runtime/base.py:251-371 | if run ids belong to one bot each and fills come in time, all maps are consistent in every run and what resolves is a turn of a live run of the bot asked for |
| Turns.ClearForgets | src/artek_buddy/runtime/base.py:340-371 | after a clear no run, agent or box has what was cleared |
| Audit.VerifyAuditChain | src/artek_buddy/audit.py:90-161 | accepts exactly the faultless chains, and names the first fault |
| Audit.NumberedIff | src/artek_buddy/audit.py:90-161 | a verified chain is numbered 1 to n exactly if it does not restart at 1 |
| Audit.SoundIffLog | src/artek_buddy/audit.py:53-161 | the verified chains without restarts are exactly the logs of some events, appended one by one as in `src/artek_buddy/db/history/audit.py` |
| Audit.RawDetermines | src/artek_buddy/audit.py:53-62 | the hashed text determines all hashed fields, colons in the payload or not |
| Audit.HeadHashCommits | src/artek_buddy/audit.py:53-161 | verified chains without restarts, such as those of increasing numbers, that have the same head hash are equal record for record, or exhibit a hash collision |
| Audit.CommitsFromLastStart | src/artek_buddy/audit.py:53-161 | verified chains with the same head hash, restarts or not, are equal from their last restart on, or exhibit a hash collision |
| Audit.RestartAccepted | src/artek_buddy/audit.py:95-105 | a head hash commits to nothing before the last restart: any verified chain can be put in front |
| Limiter.AttemptLimiter.Prune | src/artek_buddy/auth.py:21-27 | the stamps within the window are kept |
| Limiter.AttemptLimiter.Allow | src/artek_buddy/auth.py:29-31 | fewer than the limit are in the window |
| Limiter.AttemptLimiter.Record | src/artek_buddy/auth.py:33-37 | the stamp is added to what is kept |
| Limiter.RecentTwice | src/artek_buddy/auth.py:21-27 | pruning early loses nothing that pruning later would keep |
| Limiter.NothingForgotten | src/artek_buddy/auth.py:21-37 | in every run, however checks and records mix, a check counts exactly the records from some position on, all those made within the window before it |
| Limiter.EveryRun | src/artek_buddy/auth.py:21-37 | if every record follows an allowing check and at most c such checks of a key are outstanding, from one record of a key to another less than a window later there are at most limit + c - 1; for c = 1, no more than the limit |
| Limiter.Sharp | src/artek_buddy/auth.py:29-37 | for every limit and c a run has limit + c - 1 records at one moment |
| Spans.FindChatCredentials | src/artek_buddy/bot_credentials.py:237-279 | the candidates that overlap none kept before |
| Spans.AcceptedIsMaximal | src/artek_buddy/bot_credentials.py:237-279 | kept spans are disjoint candidates, and every other candidate overlaps one |
| Spans.EarlierWins | src/artek_buddy/bot_credentials.py:237-279 | of overlapping candidates the earlier one wins: exactly those are kept that overlap no earlier kept one |
| Spans.SortedAscends | src/artek_buddy/bot_credentials.py:319 | sorted by start, disjoint spans are in order and apart |
| Spans.RedactFound | src/artek_buddy/bot_credentials.py:317-320 | splicing from the right is replacing all spans at once, keeping the text between |
| Spans.ReplacedIsWoven | src/artek_buddy/bot_credentials.py:317-320 | the text is some gaps woven with the secrets, and the result is the same gaps woven with the masks |
| Packers.TruncateUtf8 | src/artek_buddy/memory.py:42-55 | the longest prefix that fits |
| Packers.PackSections | src/artek_buddy/memory.py:106-120 | the longest run of whole documents that fits, then as much of the next as fits behind its heading |
| Packers.FormatMemoryContext | src/artek_buddy/memory.py:89-121 | within the budget, between the fixed texts |
| Packers.SliceFits | src/artek_buddy/memory.py:250-253 | cutting the encoded bytes and ignoring what is no character keeps the longest fitting prefix |
| Packers.CompactThreadContext | src/artek_buddy/memory.py:243-265 | the longest run of the latest lines that fits, each whole or cut as late as fits with an ellipsis |
| Packers.FormatSessionResume | src/artek_buddy/memory.py:326-341 | within the budget, the longest fitting text of the facts, and the closing line |
| Packers.FormatRecalledMemory | src/artek_buddy/memory_book.py:153-169 | within the budget, each book's longest fitting prefix in order, none if only white space would be left |
| Packers.RecalledWhole | src/artek_buddy/memory_book.py:153-169 | where all books fit and none is blank, all are there in full |

## Left out

- SqlSplit.DollarOpenAt: has no look-behind, as the code has none, so `a$b$` opens a dollar quote although section 4.1.2.4 of the PostgreSQL manual asks for white space between an identifier and a dollar quote.
- Cron.NextRunAt: stays with local wall-clock minutes, so time zones, daylight saving, the current time and the end of the calendar in year 9999 are not modelled; error messages are kinds of error, and non-ASCII digits are not accepted as numbers.
- EventHub.EventHub.Publish: models publishing on the loop thread; delivery from other threads is not modelled, nor sequence numbers and negative buffer sizes.
- Sse.ReadSse: starts from decoded text, and JSON parsing with camelizing is an arbitrary function; failed requests are not modelled, and an abort is the end of the chunks.
- Sse.ToSsePrints: takes the record's JSON text as given; the frames of client threads (`src/artek_buddy/http/threads.py:88-121`) have the same three lines.
- Takeovers.TakeoverHub.EnterWait: leaves out recovery after a host restart, here and in the other waits, with the stored wait rows it depends on.
- Questions.QuestionHub.AnswerQuestion: takes the store's answers as parameters; parked questions, published events and `abort_question` are not modelled.
- Questions.QuestionHub.FinishWait: the store update after a timeout is a later step of the run model, so that other steps may come in between.
- Migration.Migrator.MigrateOne: which names are providers and bots is a parameter; environment names, last four characters, log lines and reading the metadata file are not modelled, and files are visited in any order.
- Migration.Migrator.Interference: others may only add credentials to the broker meanwhile, not replace or forget them.
- ScreenUrl.RoundTrip: the signature is an arbitrary function to 43 alphabet characters, ports and times in a URL are ASCII digits, and the clock is not before 1970.
- ScreenPath.PolicyHolds: percent-encoding is any codec that inverts itself; how `urlunparse` prints a path that starts with two slashes, and host parts that `urlparse` refuses, are not modelled.
- KeyCase.RoundTripIff: objects are lists of entries in order; that JavaScript lists integer-like keys first is not modelled, since conversion leaves such keys as they are.
- Turns.TurnIndex.RegisterToolBox: tool boxes are numbered, and each registration of a run comes with a new one, as in `src/artek_buddy/runtime/cursor.py:352` and `src/artek_buddy/runtime/cursor.py:400`; the agent id written on a box is not modelled.
- Turns.TurnIndex.ClearActiveTurn: the sets of sent messages, owner intents and `_bot_by_agent` are not modelled, here and in freezing.
- Audit.CommitsFromLastStart: assumes hashes without colons, and event types, actors and resources without colons; the canonical JSON text of a payload is given.
- Limiter.EveryRun: times are real numbers that do not run backwards.
- Spans.FindChatCredentials: candidates are arbitrary spans; the regular expressions and tables that produce them are not modelled.
- Spans.RedactFound: the summary returned when only masks are left is not modelled.
- Packers.FormatMemoryContext: the order and the headings of documents are given, and budgets are not negative, here and in the other packers.
- Packers.CompactThreadContext: the filtering of messages into lines is not modelled.
- Packers.FormatSessionResume: the choice of facts is not modelled.
- Strings are sequences of Unicode scalar values throughout, so lone surrogates do not occur.
- The history store, HTTP handlers, proxies, desktop windows, notifications, containers, model providers and file access are plumbing, or rest on code outside these files.
- Command classifiers, memory heuristics, usage costs, attention tables and the model catalogue would add only easy members.
