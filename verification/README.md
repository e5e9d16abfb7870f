# sleeping-beauty core, modelled in Dafny

The model covers the core of sleeping-beauty, a command-line companion for the Oura ring API. It has two halves.

**Sleep-day pipeline.**
- The provider fetches the sleep episodes of a three-day window and the day's sleep and readiness scores.
- The builder picks the core night, sums the naps and derives the stage percentages and timing label of a `SleepDaySnapshot`.
- The timeline builder decodes the five-minute hypnogram string into stage segments and collects supplemental episodes.
- The journal and summary services walk a date range day by day and render each snapshot.
- The context builder turns a view name or a pair of ISO dates into that range.

**OAuth and API plumbing.**
- The `TokenSet` invariants, expiry and scope checks.
- The token file format.
- The localhost callback validator.
- The token endpoint error handling, including payload truncation.
- The `OuraAuth` lifecycle: login versus refresh, scope normalisation and revocation.
- The API client's status-to-exception mapping.
- Webhook status handling.
- Heart-rate parsing.
- Environment-boolean parsing.
- Settings validation.

How the Python is represented:
- Instants are integer Unix seconds and dates are proleptic Gregorian ordinals, as `date.toordinal` numbers them. Module `Calendar` holds the calendar arithmetic.
- JSON is a recursive `PyValue.Value`, and Python truthiness, `int()` and `str()` are written out for it.
- Every raise becomes a `Failure` of a named error datatype, or a named outcome of a rendering function.
- The HTTP response, the clock, the stored file and the alias table are parameters.

Where the docstrings and the code disagree, the model follows the code:
- Core selection is long-sleep first, then the night heuristic, then the longest episode. No midnight-crossing rule exists in the code.
- Webhook deletion treats every status of 500 or more as success, not only 500.

## Model

| member | source | states |
|---|---|---|
| SleepTimelineBuilder.StageOfCode | src/sleeping_beauty/core/sleep/sleep_timeline_builder.py:13-18 | exactly the characters 1-4 are stage codes; every other character is unknown |
| SleepTimelineBuilder.StageCodesDistinct | src/sleeping_beauty/core/sleep/sleep_timeline_builder.py:13-18 | the code-to-stage map is injective |
| SleepTimelineBuilder.BuildSleepStageTimeline | src/sleeping_beauty/core/sleep/sleep_timeline_builder.py:26-81 | no timeline exactly when the hypnogram is missing or empty; otherwise the segments are contiguous, adjacent segments differ in stage, and the instant each segment covers lies within the night |
| SleepTimelineBuilder.TimelineStageAt | src/sleeping_beauty/core/sleep/sleep_timeline_builder.py:26-81 | the stage the timeline shows at any instant is the last recognised code at or before that five-minute bucket, carried forward over unknown codes |
| SleepTimelineBuilder.BucketShowsItsCode | src/sleeping_beauty/core/sleep/sleep_timeline_builder.py:40-63 | every bucket whose code is recognised is shown with that code's stage |
| SleepTimelineBuilder.AllRecognisedCoversNight | src/sleeping_beauty/core/sleep/sleep_timeline_builder.py:26-81 | when every code is recognised, the segment durations add up to five minutes per character |
| SleepTimelineBuilder.PreviousCoreSleepEnd | src/sleeping_beauty/core/sleep/sleep_timeline_builder.py:89-107 | the latest end among episodes that ended before the core night began, and None exactly when there is none |
| SleepTimelineBuilder.BuildSupplementalSleepEpisodes | src/sleeping_beauty/core/sleep/sleep_timeline_builder.py:110-155 | the admitted episodes, ordered by start, as a permutation of the admitted set |
| SleepTimelineBuilder.SupplementalWithinGap | src/sleeping_beauty/core/sleep/sleep_timeline_builder.py:110-155 | every supplemental episode is a non-core episode with non-zero sleep that lies between the previous core end and the core night's start |
| SleepTimelineBuilder.SupplementalComplete | src/sleeping_beauty/core/sleep/sleep_timeline_builder.py:110-155 | every admissible episode appears in the result |
| SleepDayBuilder.MaxByDuration | src/sleeping_beauty/core/sleep/sleep_day_builder.py:80-86 | `max(..., key=duration or 0)`: the first element of greatest duration |
| SleepDayBuilder.SelectCoreSleep | src/sleeping_beauty/core/sleep/sleep_day_builder.py:72-91 | fails exactly when no episode ends on the day; otherwise it picks from the long sleeps when there are any, else from the night-time episodes, else from all of them |
| SleepDayBuilder.SelectCoreSleepAsWritten | src/sleeping_beauty/core/sleep/sleep_day_builder.py:72-91 | as written: with a long sleep on the day it agrees with the corrected selection; without one it raises TypeError exactly when some same-day episode's start carried a UTC offset |
| SleepDayBuilder.SelectCoreSleepDiscrepancy | src/sleeping_beauty/core/sleep/sleep_day_builder.py:89-91 | a single offset-stamped nap: the code as written raises, the corrected selection picks the nap |
| SleepDayBuilder.CoreIsLongest | src/sleeping_beauty/core/sleep/sleep_day_builder.py:78-80 | no long sleep of the day is longer than the chosen core |
| SleepDayBuilder.ComputeSupplementalSleep | src/sleeping_beauty/core/sleep/sleep_day_builder.py:99-119 | the episodes that end on the day, are not the core and have positive sleep, with their summed duration; the sum is zero exactly when there are none |
| SleepDayBuilder.SupplementalMonotone | src/sleeping_beauty/core/sleep/sleep_day_builder.py:99-119 | adding an episode never lowers the supplemental total |
| SleepDayBuilder.RoundHalfEven | src/sleeping_beauty/core/sleep/sleep_day_builder.py:27-37 | Python's `round` of a quotient: the nearest integer, with ties going to the even one |
| SleepDayBuilder.RoundHalfEvenUnique | src/sleeping_beauty/core/sleep/sleep_day_builder.py:27-37 | that nearest-even integer is the only one with those properties |
| SleepDayBuilder.StagePercent | src/sleeping_beauty/core/sleep/sleep_day_builder.py:27-37 | present exactly when both durations are truthy; then the integer nearest to 100·stage/total, and on a tie the even one, as Python's `round` picks it |
| SleepDayBuilder.TimingLabel | src/sleeping_beauty/core/sleep/sleep_day_builder.py:39-41 | "Optimal" exactly when timing is at least 90; otherwise the number reads back from "N/100" |
| SleepDayBuilder.BuildSleepDaySnapshot | src/sleeping_beauty/core/sleep/sleep_day_builder.py:13-64 | with the corrected core selection, succeeds exactly when an episode ends on the day and the timing score exists; the snapshot copies the core night's bedtimes, time in bed, efficiency, latency, heart rate and HRV, reads a missing REM, deep or total duration as 0, takes its percentages from the rounded stage shares and its label from the timing score, carries both scores, and its 24-hour total is core plus supplemental | |
| SleepDayProvider.LastOf | src/sleeping_beauty/core/sleep/sleep_day_provider.py:30-35 | the element the loop leaves behind: None exactly for an empty stream |
| SleepDayProvider.GetSnapshot | src/sleeping_beauty/core/sleep/sleep_day_provider.py:13-61 | a window that leaves the calendar overflows; the streams are read in source order and the first one that raises fails the day with its error; an empty window gives None; a missing score fails |
| SleepDayProvider.BuildsFromLastScores | src/sleeping_beauty/core/sleep/sleep_day_provider.py:30-61 | when every stream delivers documents, the day's snapshot is the builder's snapshot of the window's episodes with the last document of each score stream, and the builder's failure is the day's failure |
| SleepDayProvider.GetSnapshotAsWritten | src/sleeping_beauty/core/sleep/sleep_day_provider.py:43-51 | as written: never yields a snapshot, only None or a failure |
| SleepDayProvider.AsWrittenNeverBuildsSnapshot | src/sleeping_beauty/core/sleep/sleep_day_provider.py:43-51 | every day for which the corrected provider builds a snapshot raises AttributeError as written, whatever the readiness stream holds; on every other day the two agree |
| SleepDayProvider.LoginFailureFailsTheDay | src/sleeping_beauty/clients/oura_api_client.py:116-118 | when the token provider requires a login at the first request, the day fails with that error before anything is built |
| SleepDayProvider.LastScoreWins | src/sleeping_beauty/core/sleep/sleep_day_provider.py:30-51 | scores streamed before the last one do not change the snapshot, and a stream that raises still raises |
| Presentation.HoursMinutes | src/sleeping_beauty/services/sleep_journal_service.py:358-363 | the whole hours and the remaining whole minutes of a duration, with minutes below 60 |
| Presentation.HoursMinutesUnique | src/sleeping_beauty/services/sleep_journal_service.py:358-363 | that split is the only one with those properties |
| Presentation.SecondsToHm | src/sleeping_beauty/services/sleep_journal_service.py:358-363 | "0h 00m" for None or a non-positive duration; otherwise text that reads back as the whole hours and the leftover whole minutes of the duration |
| Presentation.HmTextReadsBack | src/sleeping_beauty/services/sleep_summary_service.py:244-249 | "Hh MMm" made from any hours and minutes below 60 reads back as those hours and minutes |
| Presentation.SecondsToMinutes | src/sleeping_beauty/services/sleep_journal_service.py:365-368 | "n/a" for None; otherwise the floor-divided minutes in decimal |
| Presentation.StageLabel | src/sleeping_beauty/services/sleep_journal_service.py:344-347 | "REM" exactly for the rem stage; every other label is the stage's value with its first letter upper-cased |
| Presentation.StageLabelLowersToValue | src/sleeping_beauty/services/sleep_journal_service.py:344-347 | lower-casing a label gives back the stage's enum value |
| SleepJournal.RangeForHour | src/sleeping_beauty/services/sleep_journal_service.py:290-301 | each hour falls in exactly one range; evening covers before 6 and from 18 on |
| SleepJournal.RangeRows | src/sleeping_beauty/services/sleep_journal_service.py:303-319 | a row for exactly the ranges that have episodes, in enum order, with each range's count and minutes |
| SleepJournal.RangeRowsAccountForAll | src/sleeping_beauty/services/sleep_journal_service.py:303-319 | the counts in the rows add up to the number of episodes, and the minutes to their total minutes |
| SleepJournal.RangeLineSuffix | src/sleeping_beauty/services/sleep_journal_service.py:315-317 | the "(N episodes)" suffix appears exactly when the count exceeds one |
| SleepJournal.RangeSummaryLines | src/sleeping_beauty/services/sleep_journal_service.py:303-319 | the header followed by one line per row |
| SleepJournal.TimelineRows | src/sleeping_beauty/services/sleep_journal_service.py:338-357 | no rows exactly when there is no timeline; otherwise one row per segment, with the end clamped to the night's end |
| SleepJournal.ClampIsIdentityInsideNight | src/sleeping_beauty/services/sleep_journal_service.py:349 | the clamp leaves alone every segment that ends within the night |
| SleepJournal.BuiltSnapshotsHaveNoTimeline | src/sleeping_beauty/core/sleep/sleep_day_builder.py:43-64 | snapshots the builder produces carry no timeline, so the journal's timeline section is always "unavailable" |
| SleepJournal.RenderSnapshot | src/sleeping_beauty/services/sleep_journal_service.py:154-242 | raises the formatting TypeError exactly when the average heart rate is missing; otherwise the corrected entry for the snapshot's day, whose duration texts read back as the snapshot's hours and minutes and whose latency reads back as its whole minutes, with a range summary exactly when there are supplemental episodes, and the clamped timeline |
| SleepJournal.RenderDayAsWritten | src/sleeping_beauty/services/sleep_journal_service.py:131-148 | as written, any day with data raises AttributeError; a day without data prints the placeholder |
| SleepJournal.RenderDay | src/sleeping_beauty/services/sleep_journal_service.py:131-148 | corrected: never the AttributeError; the TypeError exactly for a snapshot without an average heart rate; otherwise the missing-day placeholder for a day without data, or an entry for that day |
| SleepJournal.RenderDayDiscrepancy | src/sleeping_beauty/services/sleep_journal_service.py:175-196 | as written every day with data raises AttributeError; corrected, such a day prints exactly when its average heart rate can be formatted; the two agree on days without data |
| SleepSummary.AwakeSegments | src/sleeping_beauty/services/sleep_summary_service.py:221-223 | exactly the timeline's awake segments |
| SleepSummary.PyTake | src/sleeping_beauty/services/sleep_summary_service.py:228 | Python's `s[:n]`, including a negative n |
| SleepSummary.RowOf | src/sleeping_beauty/services/sleep_summary_service.py:229-230 | the segment's bounds and its floor-divided whole minutes |
| SleepSummary.AwakePeriods | src/sleeping_beauty/services/sleep_summary_service.py:213-242 | nothing without a timeline; "none" exactly when there are no awake segments; otherwise the first max_entries rows and the count of the rest |
| SleepSummary.ListedPlusMoreIsAll | src/sleeping_beauty/services/sleep_summary_service.py:228-236 | listed rows plus the "+N more" count equal the number of awake segments |
| SleepSummary.ListedRowsAreAwake | src/sleeping_beauty/services/sleep_summary_service.py:228-230 | every listed row is an awake segment of the timeline, in timeline order |
| SleepSummary.RenderAwakeBlock | src/sleeping_beauty/services/sleep_summary_service.py:213-242 | empty text exactly without a timeline; the listing opens with its header and ends with a newline |
| SleepSummary.SupplementalMinutes | src/sleeping_beauty/services/sleep_summary_service.py:196-211 | one floor-divided minute figure per supplemental episode |
| SleepSummary.SummarizeDay | src/sleeping_beauty/services/sleep_summary_service.py:133-187 | nothing for a day without a snapshot; the formatting TypeError exactly for a snapshot without an average heart rate; otherwise a summary of that day whose duration texts read back as the snapshot's hours and minutes, whose latency reads back as its whole minutes, with the snapshot's awake periods, timing label and one nap figure per supplemental episode |
| SleepSummary.BuiltSnapshotsHaveEmptyAwakeBlock | src/sleeping_beauty/core/sleep/sleep_day_builder.py:43-64 | snapshots the builder produces never show an awake block |
| DayLoop.Run | src/sleeping_beauty/services/sleep_journal_service.py:112-129 | the loop emits the same events and ends with the same status as the day-by-day reference transcript |
| DayLoop.EveryDayVisitedInOrder | src/sleeping_beauty/services/sleep_journal_service.py:112-122 | when no day raises, every day from start to end is rendered once and in order, with a divider between consecutive days when dividers are on |
| DayLoop.StopsAtFirstFailure | src/sleeping_beauty/services/sleep_journal_service.py:112-129 | the first raising day ends the run: an auth error exits quietly, any other error propagates, and only the earlier days were rendered |
| DayLoop.LastDateOverflows | src/sleeping_beauty/services/sleep_journal_service.py:121 | a range ending on the last representable date renders every day and then overflows the date increment |
| ServiceRuns.ProviderError | src/sleeping_beauty/services/sleep_journal_service.py:124-129 | a login-required failure and a 401 keep their classes, and these are exactly the errors the run catches; a date out of range becomes the overflow; every other failure propagates unchanged as the snapshot error |
| ServiceRuns.JournalDay | src/sleeping_beauty/services/sleep_journal_service.py:131-148 | one journal day: the provider's failure, or the missing-day placeholder; as written a day with data raises AttributeError; corrected, a day renders exactly when the provider delivered it with a formattable heart rate, and raises the formatting TypeError when the heart rate is missing |
| ServiceRuns.JournalAsWrittenStopsAtFirstDayWithData | src/sleeping_beauty/services/sleep_journal_service.py:112-129 | as written, a journal run prints placeholders up to the first day with data and then fails there with AttributeError |
| ServiceRuns.JournalCorrectedRendersDaysWithData | src/sleeping_beauty/services/sleep_journal_service.py:131-148 | corrected, a day with data renders exactly when its average heart rate is present, and then as an entry |
| ServiceRuns.JournalAuthFailureEndsQuietly | src/sleeping_beauty/services/sleep_journal_service.py:112-129 | when every earlier day was delivered with a formattable heart rate (and, as written, had no data), an authentication failure while fetching day k ends the journal run quietly, with exactly the days before k shown |
| ServiceRuns.SummaryDay | src/sleeping_beauty/services/sleep_summary_service.py:133-187 | one summary day: the provider's failure as the run sees it; it renders exactly when the provider delivered it with a formattable heart rate, with nothing shown exactly for a day without data; a delivered snapshot without a heart rate raises the formatting TypeError |
| ServiceRuns.SummaryAuthFailureEndsQuietly | src/sleeping_beauty/services/sleep_summary_service.py:114-131 | when every earlier day was delivered with a formattable heart rate, an authentication failure while fetching day k ends the summary run quietly, with exactly the days before k shown |
| ServiceRuns.JournalNullHeartRateEndsTheRun | src/sleeping_beauty/services/sleep_journal_service.py:112-129 | with the corrected rendering, the first delivered day whose snapshot has no average heart rate ends the journal run with the uncaught TypeError, after exactly the days before it |
| ServiceRuns.SummaryNullHeartRateEndsTheRun | src/sleeping_beauty/services/sleep_summary_service.py:114-131 | the first delivered day whose snapshot has no average heart rate ends the summary run with the uncaught TypeError, after exactly the days before it |
| Calendar.MondayOnOrBefore | src/sleeping_beauty/services/sleep/sleep_context_builder.py:48 | stepping back by the weekday lands on a Monday that is still a valid date |
| SleepContextBuilder.WeekRange | src/sleeping_beauty/services/sleep/sleep_context_builder.py:47-49 | Monday to Sunday of the week, failing exactly when Sunday is past the last date |
| SleepContextBuilder.MonthRange | src/sleeping_beauty/services/sleep/sleep_context_builder.py:51-58 | the first to the last day of the month, failing only for December of the last year |
| SleepContextBuilder.ResolveView | src/sleeping_beauty/services/sleep/sleep_context_builder.py:40-62 | each view's range; an unknown view fails; every range is ordered and within the calendar |
| SleepContextBuilder.ViewLengths | src/sleeping_beauty/services/sleep/sleep_context_builder.py:40-62 | today and yesterday span one day, week seven, month its length in days |
| SleepContextBuilder.Build | src/sleeping_beauty/services/sleep/sleep_context_builder.py:23-69 | view mode exactly when a view is given; in date mode a missing or bad start fails, an empty end means the start, and a start after the end fails |
| Token.Check | src/sleeping_beauty/oura/auth/domain/token.py:32-47 | passes exactly for a valid token; otherwise the first failed check in source order |
| Token.MakeTokenSet | src/sleeping_beauty/oura/auth/domain/token.py:32-47 | construction succeeds exactly for a valid candidate and then yields it unchanged |
| Token.ExpiresIn | src/sleeping_beauty/oura/auth/domain/token.py:51-56 | the seconds until expiry, negative exactly once expired |
| Token.IsExpired | src/sleeping_beauty/oura/auth/domain/token.py:58-67 | expired exactly from skew seconds before expires_at on |
| Token.RequiresRefresh | src/sleeping_beauty/oura/auth/domain/token.py:69-77 | due for refresh exactly from skew seconds before expires_at on |
| Token.ExpiredNeedsRefresh | src/sleeping_beauty/oura/auth/domain/token.py:58-77 | with the default skews, an expired token always needs refresh, and there is an instant where refresh is due but expiry is not |
| Token.ExpiryIsMonotone | src/sleeping_beauty/oura/auth/domain/token.py:58-77 | once expired or due for refresh, a token stays so |
| Token.ScopeSet | src/sleeping_beauty/oura/auth/domain/token.py:79-83 | the whitespace-separated words of the scope string |
| Token.HasScopes | src/sleeping_beauty/oura/auth/domain/token.py:85-89 | true exactly when every required scope is one of those words |
| Token.HasScopesEdges | src/sleeping_beauty/oura/auth/domain/token.py:85-89 | nothing required is always held; a required scope with a space or an empty one never is |
| Token.JoinedScopesAreHeld | src/sleeping_beauty/oura/auth/domain/token.py:79-89 | a scope string made by joining words with single spaces splits back to exactly those words |
| TokenStorage.Serialize | src/sleeping_beauty/oura/auth/storage/file_storage.py:99-110 | the six-key record holding each field of the token |
| TokenStorage.ParseTokenData | src/sleeping_beauty/oura/auth/storage/file_storage.py:86-97 | a successful parse yields a valid token whose fields are the record's; a record without obtained_at is always rejected |
| TokenStorage.ParseSerializeRoundTrip | src/sleeping_beauty/oura/auth/storage/file_storage.py:86-110 | every valid token parses back unchanged from its record |
| TokenStorage.Load | src/sleeping_beauty/oura/auth/storage/file_storage.py:30-51 | None exactly when the file does not exist; an unreadable file or a record it rejects fails with AuthStorageError; an infinite float in an integer field escapes as OverflowError; a loaded token is valid |
| TokenStorage.NonFiniteExpiry | src/sleeping_beauty/oura/auth/storage/file_storage.py:46-51 | an expiry stored as an infinite float escapes `load` as OverflowError; one stored as NaN is reported as a corrupted file |
| TokenStorage.SaveThenLoad | src/sleeping_beauty/oura/auth/storage/file_storage.py:30-110 | loading what was saved yields the same token |
| Callback.GetSingleParam | src/sleeping_beauty/oura/auth/callback_server.py:176-182 | None for a missing or empty list, the value for one, and an error exactly for more than one |
| Callback.HandleCallback | src/sleeping_beauty/oura/auth/callback_server.py:141-174 | a wrong path or state fails; an error parameter fails, as a consent denial exactly for access_denied; success exactly for a single non-empty code with a matching state and no error |
| Callback.HandleRequest | src/sleeping_beauty/oura/auth/callback_server.py:28-42 | a success records the code; every validator error except the duplicate-parameter one is recorded |
| Callback.ResponseTo | src/sleeping_beauty/oura/auth/callback_server.py:28-42 | the success page exactly on success, the cancellation page exactly for a denial |
| Callback.WaitForCallback | src/sleeping_beauty/oura/auth/callback_server.py:113-132 | a recorded error wins, then the code; with neither, "no callback received" |
| Callback.OneRequestFlow | src/sleeping_beauty/oura/auth/callback_server.py:28-132 | after one request the caller sees the validator's verdict, except that a duplicated parameter surfaces as "no callback received" |
| Callback.CodeOnlyFromValidRequest | src/sleeping_beauty/oura/auth/callback_server.py:141-174 | a code reaches the caller only from the expected path with exactly the expected state, no error and exactly that code |
| AuthErrors.NewOAuthError | src/sleeping_beauty/oura/auth/domain/exceptions.py:78-91 | the fields as given, with a falsy raw replaced by an empty object |
| AuthErrors.FormatMessage | src/sleeping_beauty/oura/auth/domain/exceptions.py:93-99 | the message starts with the prefix and error code; a non-empty description follows right after, with its separator; without one the code is followed directly by the HTTP suffix, or by nothing; a status always ends the message with the HTTP suffix |
| AuthErrors.StatusReadsBack | src/sleeping_beauty/oura/auth/domain/exceptions.py:93-99 | the status code parses back from the message's suffix |
| OAuthHttp.SafeBodySnippet | src/sleeping_beauty/oura/auth/oauth_http.py:265-273 | a placeholder when the body cannot be read; otherwise a prefix of at most the limit, and the whole body when it fits |
| OAuthHttp.KeptKeys | src/sleeping_beauty/oura/auth/oauth_http.py:284 | exactly `limit` of the payload's keys, each sorting before every key left out |
| OAuthHttp.WithMarkers | src/sleeping_beauty/oura/auth/oauth_http.py:285-291 | the kept entries plus the truncation flag and the original key count |
| OAuthHttp.SafePayload | src/sleeping_beauty/oura/auth/oauth_http.py:276-292 | an object within the limit is returned unchanged; a larger one is cut to the sorted-first keys plus the two markers, at most limit+2 entries |
| OAuthHttp.SafePayloadOfAny | src/sleeping_beauty/oura/auth/oauth_http.py:276-292 | what the truncation does to a non-object: a value without a length raises TypeError, a short string or list passes, a long one raises AttributeError |
| OAuthHttp.SmallPayloadUnchanged | src/sleeping_beauty/oura/auth/oauth_http.py:276-283 | a string, list or dict whose length is within the limit comes back unchanged |
| OAuthHttp.ExtractOAuthError | src/sleeping_beauty/oura/auth/oauth_http.py:236-262 | a non-object body gives no error fields and the snippet as raw; an object gives error and description, with "error description" as fallback, and the truncated payload |
| OAuthHttp.TokenSetFromPayload | src/sleeping_beauty/oura/auth/oauth_http.py:210-233 | a successful parse is a valid token obtained now that expires now+expires_in, with token_type defaulting to bearer; a non-positive expires_in always fails; it overflows exactly when expires_in is an infinite float |
| OAuthHttp.TokenErrorFromResponse | src/sleeping_beauty/oura/auth/oauth_http.py:200-207 | a non-2xx answer becomes an OAuth error with the server's code, or token_request_failed, and its description, or the body snippet |
| OAuthHttp.TokenRequestAsWritten | src/sleeping_beauty/oura/auth/oauth_http.py:139-207 | as written: missing credentials fail first, and a token comes only from a 2xx answer |
| OAuthHttp.TokenRequest | src/sleeping_beauty/oura/auth/oauth_http.py:139-207 | corrected: the only raw Python error left is the OverflowError of an infinite expires_in; success exactly for a 2xx answer carrying a valid token payload; any other 2xx answer is invalid_response with its status |
| OAuthHttp.TokenFromPayload | src/sleeping_beauty/oura/auth/oauth_http.py:190-198 | corrected handling of a parsed 2xx body: a token exactly when the payload parses; a raw OverflowError exactly when expires_in overflows; any other failure is invalid_response with the answer's status |
| OAuthHttp.TokenRequestRawOverflow | src/sleeping_beauty/oura/auth/oauth_http.py:190-198 | the corrected request escapes with a raw OverflowError exactly when credentials are present, the answer is 2xx JSON, and its payload fails to parse with that error |
| OAuthHttp.TokenRequestAgreesOnObjects | src/sleeping_beauty/oura/auth/oauth_http.py:179-198 | the two versions agree whenever a 2xx JSON body is an object |
| OAuthHttp.TokenRequestOverflowsOnlyOnInfiniteExpiry | src/sleeping_beauty/oura/auth/oauth_http.py:190-198 | a raw OverflowError exactly for a 2xx object payload whose expires_in is an infinite float |
| OAuthHttp.TokenRequestNumberBody | src/sleeping_beauty/oura/auth/oauth_http.py:190-198 | for a 200 answer with body `7`, the code as written escapes with a raw TypeError while the corrected one reports invalid_response |
| OAuthHttp.ExchangeCodeForTokens | src/sleeping_beauty/oura/auth/oauth_http.py:26-56 | an empty code is invalid_request without a request; otherwise the corrected token request, with errors tagged as exchange errors |
| OAuthHttp.RefreshAccessToken | src/sleeping_beauty/oura/auth/oauth_http.py:59-90 | an empty refresh token is invalid_request without a request; otherwise the corrected token request, with errors tagged as refresh errors |
| OAuthHttp.RevokeAccessToken | src/sleeping_beauty/oura/auth/oauth_http.py:93-133 | an empty token is invalid_request; success exactly for a 2xx answer; otherwise the server's code or revocation_failed, with the status |
| OuraAuth.NormalizeScopes | src/sleeping_beauty/oura/auth/oura_auth.py:188-200 | succeeds exactly when every non-API scope has an alias, and then gives the API scopes plus the aliases' targets; a failure names an unknown scope |
| OuraAuth.ValidateConfig | src/sleeping_beauty/oura/auth/oura_auth.py:175-186 | passes exactly when all settings are present; otherwise the first missing one in source order |
| OuraAuth.NewAuth | src/sleeping_beauty/oura/auth/oura_auth.py:40-67 | normalisation runs before validation; a constructed client has every setting and the normalised scopes |
| OuraAuth.RefreshToken | src/sleeping_beauty/oura/auth/oura_auth.py:137-149 | a refresh the server rejects means login is required; other failures pass through; success is a valid token obtained now |
| OuraAuth.GetAccessToken | src/sleeping_beauty/oura/auth/oura_auth.py:69-88 | no token or too few scopes means login; a fresh token is served from storage; a token is saved exactly when a refresh succeeded, and that token is served |
| OuraAuth.SavedTokenIsServedNext | src/sleeping_beauty/oura/auth/oura_auth.py:69-88 | the token a refresh saved is served from storage by the next call without a request |
| OuraAuth.AuthorizationScope | src/sleeping_beauty/oura/auth/oura_auth.py:157-158 | when every scope is a single word, splitting the scope parameter on whitespace gives back the scopes sorted and without duplicates |
| OuraAuth.AuthorizationScopeIsHeld | src/sleeping_beauty/oura/auth/oura_auth.py:157-158 | a token granted with exactly the requested scope string holds exactly the configured scopes |
| OuraAuth.Revoke | src/sleeping_beauty/oura/auth/oura_auth.py:122-131 | storage is cleared exactly when a token was loaded, even if revocation fails; a revocation failure is raised |
| ApiClient.ClassifyStatus | src/sleeping_beauty/clients/oura_api_client.py:146-230 | each status maps to exactly one exception class: 400, 401, 403, 404, 409 and 429 each get their own, any other 4xx is a client error, 5xx and above are server errors, and the rest get the base error |
| ApiClient.ClientErrorsAreExactly4xx | src/sleeping_beauty/clients/oura_errors.py:30-69 | the client-error family is exactly the 4xx statuses except 429 |
| ApiClient.ErrorMessage | src/sleeping_beauty/clients/oura_api_client.py:153-157 | the payload's error, else its message, else the default text; a truthy non-object payload raises; the message is always truthy |
| ApiClient.RaiseForStatus | src/sleeping_beauty/clients/oura_api_client.py:146-230 | the classified exception carrying the status, the message, the payload and the request id |
| ApiClient.RequestOutcome | src/sleeping_beauty/clients/oura_api_client.py:127-140 | success exactly below 400, with a falsy payload replaced by an empty object; otherwise the mapped exception |
| ApiClient.FailedRequestIsTyped | src/sleeping_beauty/clients/oura_api_client.py:133-138 | an object payload on a failed request always yields a typed exception |
| WebhookAdmin.DeleteSubscription | src/sleeping_beauty/clients/oura_webhook_admin.py:138-157 | fails exactly on a 4xx other than 404 |
| WebhookAdmin.MutationOutcome | src/sleeping_beauty/clients/oura_webhook_admin.py:82-91 | create, update and renew fail on status 400 and above, and otherwise return the decoded body |
| WebhookAdmin.DeleteIsMoreLenient | src/sleeping_beauty/clients/oura_webhook_admin.py:87-157 | every status that fails a delete also fails create, update and renew, with the same error |
| Heartrate.NormalizeUtc | src/sleeping_beauty/clients/oura_endpoints/heartrate.py:10-12 | text without a trailing Z is unchanged; with one, no Z remains and the result ends in +00:00 |
| Heartrate.TrailingZIsUtc | src/sleeping_beauty/clients/oura_endpoints/heartrate.py:10-12 | a single trailing Z becomes the +00:00 offset |
| Heartrate.ParseUtcTimestamp | src/sleeping_beauty/clients/oura_endpoints/heartrate.py:10-13 | a timestamp without Z is parsed as it is; one whose only Z is the last character is parsed with +00:00 in its place |
| Heartrate.ParseItem | src/sleeping_beauty/clients/oura_endpoints/heartrate.py:16-47 | the missing-key checks, then the type checks, in source order; a bool counts as an int; success carries the item's fields |
| Heartrate.ParseItems | src/sleeping_beauty/clients/oura_endpoints/heartrate.py:55 | success exactly when every item parses, giving the items in order; a failure is one of the items' errors |
| Heartrate.ParsePage | src/sleeping_beauty/clients/oura_endpoints/heartrate.py:50-61 | a falsy data field gives an empty page; a list is parsed item by item; next_token and the raw payload are kept |
| Heartrate.PagePreservesItems | src/sleeping_beauty/clients/oura_endpoints/heartrate.py:50-61 | the page has one sample per data item, each equal to that item's parse |
| EnvUtils.WordsDisjoint | src/sleeping_beauty/utils/env_utils.py:11-14 | no word is both true and false |
| EnvUtils.ParseEnvBool | src/sleeping_beauty/utils/env_utils.py:4-16 | unset gives the default; true exactly for a true word after strip and lower-casing, false exactly for a false word, and an error for anything else |
| EnvUtils.UnsetAndEmpty | src/sleeping_beauty/utils/env_utils.py:4-16 | the default default is true, and an empty value is an error |
| EnvUtils.PaddedAnyCaseIsAccepted | src/sleeping_beauty/utils/env_utils.py:10-14 | surrounding whitespace and letter case do not matter |
| Config.SetLogLevel | src/sleeping_beauty/config/config.py:126-139 | a string is upper-cased and accepted exactly when it is an allowed level; anything else fails |
| Config.SetDebug | src/sleeping_beauty/config/config.py:108-120 | only a bool is accepted; true also sets the level to DEBUG, false leaves it |
| Config.SetConfigPath | src/sleeping_beauty/config/config.py:98-102 | only a string is accepted and stored |
| Config.OuraClientId | src/sleeping_beauty/config/config.py:141-150 | the configured value when truthy, else the environment's, else empty |
| Config.OuraClientSecret | src/sleeping_beauty/config/config.py:152-161 | the configured value when truthy, else the environment's, else empty |
| Config.LogLevelIgnoresCase | src/sleeping_beauty/config/config.py:126-139 | setting a level in any ASCII case has the same effect |
| Config.SettersKeepLevelAllowed | src/sleeping_beauty/config/config.py:98-139 | no setter can leave the log level outside the allowed set |
| PyValue.ToInt | src/sleeping_beauty/oura/auth/oauth_http.py:223 | `int()`: an int is itself; None, a list or a dict raises TypeError; a string converts exactly when it reads as a signed decimal; a finite float truncates, an infinite one raises OverflowError and NaN raises ValueError |

## Left out

- SleepDayBuilder.BuildSleepDaySnapshot: built on the corrected `SelectCoreSleep`. As written, a day without a long sleep whose episodes carry offset timestamps raises the naive/aware TypeError; that failure is shown only by `SleepDayBuilder.SelectCoreSleepAsWritten`.
- OAuthHttp.ExchangeCodeForTokens: built on the corrected `TokenRequest`. As written, a 2xx answer whose JSON body is not an object escapes with a raw TypeError or AttributeError; that is shown only by `OAuthHttp.TokenRequestAsWritten`.
- OAuthHttp.RefreshAccessToken: built on the corrected `TokenRequest`, with the same gap as the exchange.
- OuraAuth.RefreshToken: through the corrected refresh, a 2xx answer with a non-object body becomes `LoginRequired`. As written, `_refresh_token` catches only the OAuth refresh error, so the raw TypeError would escape `get_access_token`.
- OuraAuth.GetAccessToken: inherits that gap of `OuraAuth.RefreshToken` for an expiring token.
- Network, file and console I/O: httpx transport, the atomic file write, `save` and `clear` failures, logging and every `print`. Responses, file contents and the clock are parameters instead.
- The `_run` sync-to-async boundary, the async iterators and pagination of the API client. A stream is modelled as the list it yields, or as the error it raises part-way; documents yielded before the error are dropped, since the provider never returns them.
- SleepModel.FetchError: a failed request is told apart only by its exception class; the message, request id and response it carries are not modelled.
- `login_interactive`: starting the browser, generating the state secret, URL encoding, and running the callback server's socket. The validator and the server's recorded state are modelled.
- The alias table of `domain/scopes.py` is not part of this model. It is the `aliases` parameter of `OuraAuth.NormalizeScopes`.
- OuraAuth.NormalizeScopes: Python reports whichever unknown scope set iteration meets first. The model names an arbitrary one.
- `list_subscriptions` and `get_subscription`: they return the decoded body and have no logic of their own.
- `Config` as a process-wide singleton, its `__init__`, and `load_from_yaml`. Only the validating setters and credential precedence are modelled.
- Time-zone conversion and `strftime`. The hour of an instant is the `hourOf` parameter, the clock rendering is the `hhmm` parameter, and `is_night_sleep` reads a precomputed local time of day.
- `datetime.fromisoformat` is the `fromIso` parameter in `Heartrate.ParseUtcTimestamp` and `SleepContextBuilder.Build`.
- Floating-point fields such as average heart rate are carried opaquely. The `:.0f` text of a present average heart rate is not modelled; a missing one makes both renderers raise TypeError, which is modelled (`Presentation.HeartRatePrints`).
- `Strings.Lower` maps ASCII letters only, and `Strings.Upper` maps ASCII letters plus the dotless i and the long s, whose upper case is ASCII. Python's Unicode case mapping is wider. `Strings.Strip` and `Strings.SplitWs` use Python's full `isspace` set.
- PyValue.ToInt: a string must be an optional sign and ASCII decimal digits, after surrounding whitespace is stripped. Python's `int()` also accepts underscores between digits (`1_000`) and non-ASCII decimal digits; the model rejects both with ValueError.
- PyValue.ToStr: `str()` of a non-empty list or dict is a placeholder, not Python's repr. The model only promises it is non-empty, and every decision in the model depends only on its truthiness.
- TokenStorage.ParseTokenData: accepts only JSON strings for string fields. Python would store any value there and fail later.
- `build_supplemental_sleep_episodes` takes `target_day` but never reads it, so the model has no such parameter.
- `sleep_onset`, `temperature_deviation` and the early-waking block of the journal entry read fields the core snapshot does not have. The corrected rendering leaves these lines out.

## Findings

| source | as written | input that shows it | evidently intended | confidence | as-written member | corrected member |
|---|---|---|---|---|---|---|
| src/sleeping_beauty/oura/auth/oauth_http.py:190-198 | A 2xx token answer whose JSON body is not an object is passed to `_safe_payload`. Its `len()` or `.keys()` raises a bare TypeError or AttributeError instead of the OAuth error. | status 200 with JSON body `7` | the `invalid_response` OAuth error with the status, as for any other unusable 2xx body | not executed | OAuthHttp.TokenRequestAsWritten | OAuthHttp.TokenRequest |
| src/sleeping_beauty/core/sleep/sleep_day_builder.py:89-91 | `is_night_sleep` orders `bedtime_start.timetz()` against the naive `time(18, 0)` and `time(12, 0)`. Bedtimes parsed from API timestamps with an offset are aware, and Python raises TypeError when an aware time is compared with a naive one. | a day whose episodes are all naps, with `bedtime_start` such as `2024-01-02T14:00:00+02:00` | classify by the local time of day of the bedtime start | not executed | SleepDayBuilder.SelectCoreSleepAsWritten | SleepDayBuilder.SelectCoreSleep |
| src/sleeping_beauty/core/sleep/sleep_day_provider.py:43-51 | `get_snapshot` iterates `self.client.iter_daily_readiness_scores`, which `OuraApiClient` does not define (it has `iter_daily_sleep_scores`, `iter_sleep` and `iter_heartrate`). The attribute lookup raises AttributeError on every day that has episodes and a sleep score. | any day with sleep episodes and a daily sleep score | read the day's readiness score from the API's daily readiness stream | not executed | SleepDayProvider.GetSnapshotAsWritten | SleepDayProvider.GetSnapshot |
| src/sleeping_beauty/services/sleep_journal_service.py:175-196 | `_render_snapshot` reads `temperature_deviation` and `sleep_onset`, which the core `SleepDaySnapshot` it is given does not define. Every day with data raises AttributeError, which escapes the journal run. | any day for which the provider returns a snapshot | render the journal entry from the fields the snapshot has | not executed | SleepJournal.RenderDayAsWritten | SleepJournal.RenderDay |

The discrepancies are exhibited by these lemmas:
- `SleepDayBuilder.SelectCoreSleepDiscrepancy` for the night heuristic.
- `SleepJournal.RenderDayDiscrepancy` and `ServiceRuns.JournalAsWrittenStopsAtFirstDayWithData` for the journal rendering.
- `OAuthHttp.TokenRequestNumberBody` for the token request.
- `SleepDayProvider.AsWrittenNeverBuildsSnapshot` for the readiness lookup. The services are modelled over the corrected provider, so that what they do on a day with data can be stated. In the same way, the snapshot builder uses the corrected core selection, and the token entry points (`OAuthHttp.ExchangeCodeForTokens`, `OAuthHttp.RefreshAccessToken`, and through them `OuraAuth.RefreshToken` and `OuraAuth.GetAccessToken`) use the corrected token request.
