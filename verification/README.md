# Verified models of PostHog backend components

This project models fifteen components of the PostHog backend in Dafny and proves what they promise.
Each component is a module, or a few. A component that changes state step by step is written twice: as a
function on values (`Step`, `Decide`, `Send`, ...) that says what one step does, and as a class or a
method with the source's own loops and assignments, proved to do exactly that. The theorems are then
about every input, every run of steps, or every reachable state.

| file | component |
|---|---|
| `invite_throttle.dfy` | the organization-invite rate limit: a truncated, expiring history that decides as the full log would |
| `multisort.dfy` | sorting by several fields in several directions by repeated stable passes |
| `calendar.dfy`, `date_range.dfy` | the Gregorian calendar and the lists of dates of a chart |
| `compare_period.dfy` | the earlier period a chart is compared with |
| `like_matching.dfy`, `term_search.dfy`, `term_search_sql.dfy`, `term_search_agreement.dfy` | the search filter built twice, as `Q` objects and as SQL text, and when the two agree |
| `cached_function.dfy` | the function cache with foreground or background refresh |
| `challenge_nonce.dfy` | sign-up challenges with single-use nonces |
| `json_versions.dfy`, `schema_helpers.dfy`, `schema_dictionary.dfy` | the canonical dictionary of an insight query, as an equivalence and key by key |
| `admin_oauth.dfy` | the OpenID Connect gate in front of the admin site |
| `impersonation.dfy` | expiry of impersonated sessions |
| `campaign_email.dfy` | campaign email sent recipient by recipient, resumable |
| `user_permissions.dfy` | the effective membership level of a user in a team |
| `redis_clients.dfy` | asynchronous Redis clients per event loop, closed when the loop dies |
| `sampling.dfy` | the 32-bit polynomial hash and sampling by rate |
| `product_db_router.dfy` | product database routes: the startup check and the router |

`options.dfy` and `strings.dfy` hold what several components share. The project is checked with
`dafny verify dfyconfig.toml`.

Clocks are integers that never go backwards within a run. Random tokens, hashes, lower-casing, the
answers of remote services and the outcome of a cached function are inputs or uninterpreted
functions; where a theorem needs fresh tokens, its `requires` says so.

## What turned out different from the documentation

- The two search builders do not agree on every search. The SQL builder puts a term into a `LIKE`
  pattern unescaped, and its `ilike` need not fold case as `icontains` does: an upper-case folding
  joins the two small sigmas that a lower-case one keeps apart (`FinalSigmaDiffers`).
  `TextAgreesExactlyWhen` proves that they accept the same rows if and only if no term holds `%`,
  `_` or a backslash and both foldings identify every character of the terms with the same others.
- The earlier period of a chart can overlap the current one; 25 hours by days do
  (`TwentyFiveHoursOverlap`). `OverlapsExactlyWhen` gives the exact condition. In the whole-weeks case
  the earlier period always ends after the current one has started; with an end at midnight
  `WholeWeeksAlign` moves it back one day fewer than the weeks asked for, and when the moved start
  stays within its day it is the period one day *later* (`WholeWeeksMayMoveLater`).
- A campaign email can be delivered twice when an attempt fails after the provider has accepted the
  message, because the marker is rolled back. `DeliveredIsExact` proves that a slot gets one message for
  every call that stops at it that way and one more if it ends up sent; `AtMostOneDelivery` says exactly
  when that is at most one, `RerunDeliversTwiceExactly` when a rerun makes it two.
- `get_daterange` cuts both bounds to midnight for the frequency `second`, which its documentation
  does not list.

## Model

| member | source | states |
|---|---|---|
| InviteThrottle.InviteCount | posthog-master/posthog/rate_limit.py:919-927 | the least count that charges no request with nothing and a bulk request with every invite it lists |
| InviteThrottle.Throttle.AllowRequest | posthog-master/posthog/rate_limit.py:887-917 | the in-place request, with its tail-popping loop, makes exactly the specified decision and cache; a refusal leaves the cache untouched |
| InviteThrottle.DropOldCuts | posthog-master/posthog/rate_limit.py:905-906 | popping the tail of a newest-first history keeps exactly the entries newer than the cutoff |
| InviteThrottle.TruncatedIsWindow | posthog-master/posthog/rate_limit.py:902-906 | what a request sees after expiry and popping is exactly its window of the never-truncated log |
| InviteThrottle.RunRepresents | posthog-master/posthog/rate_limit.py:902-913 | after any run the cached history is a prefix of the full log and everything cut off lies outside every later window |
| InviteThrottle.DecisionIsExact | posthog-master/posthog/rate_limit.py:901-913 | in every run a charged request is admitted if and only if the invites admitted in its window, counted over the whole past, plus its own fit the limit |
| InviteThrottle.NoRateNoLimit | posthog-master/posthog/rate_limit.py:891-892 | without a rate every request is admitted and nothing is recorded |
| InviteThrottle.NoWindowExceedsLimit | posthog-master/posthog/rate_limit.py:867-917 | no window (t - duration, t] of any run ever holds more admitted invites than the limit, for any t and any key |
| InviteThrottle.ExpiryIsInvisible | posthog-master/posthog/rate_limit.py:902-912 | over a whole run, entries past their deadline may be kept, still returned or evicted before any request without changing a single answer |
| Multisort.PyList.Sort | posthog-master/posthog/utils.py:1904-1905 | one pass replaces the list by its stable sort, or fails on a missing field and leaves it as it was |
| Multisort.MultisortInPlace | posthog-master/posthog/utils.py:1894-1906 | the loop from the last spec to the first leaves exactly the list, and raises exactly the missing key, of the specified passes |
| Multisort.MultisortIsStableLexicographic | posthog-master/posthog/utils.py:1894-1906 | the result is a permutation in lexicographic order of all specs, with fully tied entries in their original order |
| Multisort.SortSpecDeterminesResult | posthog-master/posthog/utils.py:1902-1906 | a list meets that description if and only if it is the result, so no other stable sort could give anything else |
| Multisort.ResultFollowsFields | posthog-master/posthog/utils.py:1896-1900 | any two entries stand in the direction of the first field on which they differ, each field in its own direction |
| Multisort.FailsExactlyOnMissingField | posthog-master/posthog/utils.py:1904-1905 | the call fails if and only if some entry lacks some field, and names the last spec with such a field |
| Calendar.AddDaysOrdinal | posthog-master/posthog/utils.py:1303-1309 | adding days moves the ordinal by exactly that many, across months, years and leap days |
| Calendar.OrdinalIsOrder | posthog-master/posthog/utils.py:1301-1307 | ordinals number the dates in calendar order, one number a date |
| Calendar.ThirtyOneDaysLater | posthog-master/posthog/utils.py:1309 | 31 days after the first of any month falls on one of the first four days of the next month |
| Calendar.SundaysAreDated | posthog-master/posthog/utils.py:1297-1298 | weekdays are those of the actual calendar, on dated Sundays before and after leap days and centuries |
| Calendar.LeapDaysAreDated | posthog-master/posthog/utils.py:1295-1309 | the calendar has its leap days in 2000 and 2024 and none in 1900 and 2023 |
| DateRange.GetDateRange | posthog-master/posthog/utils.py:1275-1310 | fixed frequencies give the maximal arithmetic progression, months the first-of-month midnights, missing bounds nothing, unknown frequencies a key error |
| DateRange.MonthDates | posthog-master/posthog/utils.py:1304-1309 | the month walk ends and visits every month from the start's to the end's once, in order |
| DateRange.MonthRangeIsExact | posthog-master/posthog/utils.py:1304-1309 | a datetime is in a monthly range if and only if it is a first-of-month midnight from the start's month up to the end |
| DateRange.MonthRangeSkipsNothing | posthog-master/posthog/utils.py:1307-1309 | consecutive entries are consecutive months, a month's own length apart, leap years included |
| DateRange.ProgressionIsExact | posthog-master/posthog/utils.py:1300-1303 | a fixed range holds its k-th step if and only if that step is not past the end |
| DateRange.WeeksAreSundays | posthog-master/posthog/utils.py:1298-1303 | weekly entries are Sundays at midnight, the first within the seven days up to the start |
| DateRange.DaysAreConsecutive | posthog-master/posthog/utils.py:1295-1303 | a daily range visits every calendar day at midnight |
| DateRange.StepsByClock | posthog-master/posthog/utils.py:1290-1303 | ranges by seconds, minutes and hours go on by one second, minute or hour of the clock, over midnight to the next day, from the start or (seconds) its midnight |
| ComparePeriod.SameLength | posthog-master/posthog/utils.py:893-930 | the previous period is exactly as long as the current one, for every interval and input |
| ComparePeriod.MovedBackWholeDays | posthog-master/posthog/utils.py:896-929 | for every interval but minutes the previous period is the current one moved back by whole days, so times of day line up |
| ComparePeriod.MinutesAbut | posthog-master/posthog/utils.py:893-895 | for minutes the previous period ends where the current one starts |
| ComparePeriod.EndsBeforeExactlyWhen | posthog-master/posthog/utils.py:896-929 | for every interval but minutes the previous period ends no later than the current one starts if and only if the whole-weeks case does not apply and aligning the start did not move it later |
| ComparePeriod.OverlapsExactlyWhen | posthog-master/posthog/utils.py:886-930 | the two periods share a moment if and only if the current one is not empty and its start, moved back by the length, is at an earlier time of day (for whole weeks: on an earlier day); never for minutes |
| ComparePeriod.TwentyFiveHoursOverlap | posthog-master/posthog/utils.py:896-929 | a period of 25 hours by days overlaps the one it is compared with |
| ComparePeriod.WholeWeeksMayMoveLater | posthog-master/posthog/utils.py:901-926 | in the whole-weeks case the "previous" period is the current one a day later if and only if the start moved back by the length stays on its day |
| ComparePeriod.MidnightStartNeverOverlaps | posthog-master/posthog/utils.py:886-930 | from a midnight start the periods never overlap outside the whole-weeks case |
| ComparePeriod.WholeWeeksAlign | posthog-master/posthog/utils.py:910-926 | in the whole-weeks case with an end n days on, the previous period is the current one moved back n days, or n - 1 when the end is a midnight |
| ComparePeriod.WeeksAlignExactlyWhen | posthog-master/posthog/utils.py:910-926 | from midnight to a time n days on, the previous period is n days back if and only if the chart is by days over a relative start a non-zero multiple of seven days back without a relative end, and else n + 1 days |
| TermSearch.TermsAreWords | posthog-master/posthog/filters.py:33-35 | terms are non-empty words without spaces or null characters, and nothing else of the search is lost |
| TermSearch.TermsRoundTrip | posthog-master/posthog/filters.py:33-35 | words written out with spaces are read back as they were |
| TermSearch.CombineMeans | posthog-master/posthog/filters.py:52-58 | combining `Q` objects connects their meanings, and an empty `Q()` is neutral for both connectors |
| TermSearch.FilterQueryset | posthog-master/posthog/filters.py:37-60 | the nested loops build a filter that accepts a row if and only if every term occurs in some field |
| TermSearch.FilterMeans | posthog-master/posthog/filters.py:49-60 | the filter folded from `Q` objects accepts a row if and only if every term occurs in some field |
| TermSearchSql.TermSearchFilterSql | posthog-master/posthog/filters.py:63-86 | the nested loops produce a text and exactly the numbered bindings; read by its own characters, the text asks of a row that every term's pattern matches some field by `ilike` |
| TermSearchSql.TextIsRead | posthog-master/posthog/filters.py:73-84 | a reader of the characters gets back the condition, a conjunction of disjunctions, and the extra text |
| TermSearchSql.TextMeans | posthog-master/posthog/filters.py:73-84 | the text with its bindings accepts a row if and only if each term's pattern matches some field |
| TermSearchSql.TextDeterminesCondition | posthog-master/posthog/filters.py:73-84 | the generated text determines the condition tree and the extra text, so nothing is lost between them |
| TermSearchSql.BuiltConditionsAreReadable | posthog-master/posthog/filters.py:75-81 | the condition built for fields without spaces is of the kind that text determines |
| TermSearchSql.NumberedDistinct | posthog-master/posthog/filters.py:78-80 | no two placeholders share a name |
| TermSearchSql.NumberedNames | posthog-master/posthog/filters.py:78-80 | the bound names are those of 0, 1, 2, ... without a gap |
| TermSearchSql.BoundToItsTerm | posthog-master/posthog/filters.py:75-80 | each placeholder of a term's clause is bound to that term's own pattern |
| TermSearchSql.SqlMeans | posthog-master/posthog/filters.py:75-84 | the condition with its bindings accepts a row if and only if each term's pattern matches some field |
| LikeMatching.PlainTermsAgree | posthog-master/posthog/filters.py:57-80 | for a term without special characters, made of characters both foldings identify alike, the pattern under one folding matches exactly the texts that contain the term under the other |
| TermSearchAgreement.BuildersAgree | posthog-master/posthog/filters.py:37-86 | for such terms both builders, each with its own folding, accept the same rows |
| TermSearchAgreement.BuildersAgreeExactlyWhen | posthog-master/posthog/filters.py:37-86 | each with its own case folding, both builders accept the same rows if and only if no term has a LIKE special character or a character that the foldings identify differently |
| TermSearchAgreement.BuildersAgreeExactlyOnPlainTerms | posthog-master/posthog/filters.py:37-86 | where both operators identify the same characters they agree if and only if no term has a LIKE special character |
| TermSearchAgreement.TextAgreesExactlyWhen | posthog-master/posthog/filters.py:37-86 | end to end: the SQL text with its bindings and the `Q` filter of a search accept the same rows if and only if no term has a LIKE special character or a character that the foldings identify differently |
| TermSearchAgreement.OneLetterTells | posthog-master/posthog/filters.py:57-79 | a search for one letter gives the same rows if and only if both foldings identify that letter with the same others |
| TermSearchAgreement.FinalSigmaDiffers | posthog-master/posthog/filters.py:57-79 | foldings to upper and to lower case answer a search for sigma differently |
| CachedFunctions.CachedFunction.CallFunction | posthog-master/posthog/cache_utils.py:30-58 | the in-place call changes the dictionaries and answers exactly as the specified step |
| CachedFunctions.ReachableKeepsKey | posthog-master/posthog/cache_utils.py:38-58 | in every reachable state the cached value is the latest computation of its key, and a key is marked exactly while one refresh is in flight |
| CachedFunctions.LoggedWasComputed | posthog-master/posthog/cache_utils.py:38-42 | every cached computation was made for that same key with that result |
| CachedFunctions.CallReturnsLatest | posthog-master/posthog/cache_utils.py:47-58 | a call returns the latest computation for its own key |
| CachedFunctions.ReplyIsExact | posthog-master/posthog/cache_utils.py:30-58 | the reply to every call of every run: its own result or exception where the function must run, and that result is cached; else the latest computation; uncached calls change nothing |
| CachedFunctions.ForegroundIsFresh | posthog-master/posthog/cache_utils.py:49-56 | a foreground cache never returns anything older than the cache time |
| CachedFunctions.RunsOnlyWhenNeeded | posthog-master/posthog/cache_utils.py:47-56 | the caller runs the function if and only if its key was never computed or, in the foreground, is too old |
| CachedFunctions.AtMostOneRefresh | posthog-master/posthog/cache_utils.py:49-54 | over all interleavings at most one refresh of a key is in flight |
| CachedFunctions.EndedRefreshFreesKey | posthog-master/posthog/cache_utils.py:38-54 | a finished or failed refresh frees its key, so the next stale call starts a new one |
| CachedFunctions.BackgroundNeverBlocks | posthog-master/posthog/cache_utils.py:49-58 | in every run, once computed, a background call returns the latest computation without running the function, and a stale one only while exactly one refresh is in flight |
| CachedFunctions.TimestampsNeverGoBack | posthog-master/posthog/cache_utils.py:40-41 | stored timestamps never go backwards |
| ChallengeNonces.Gate.CreateNonce | posthog-master/posthog/turnstile.py:62-67 | stores the nonce of this identity and uuid with a 300-second deadline |
| ChallengeNonces.Gate.ValidateAndConsume | posthog-master/posthog/turnstile.py:70-93 | accepts exactly a well-formed live nonce of this identity, and deletes it |
| ChallengeNonces.Gate.DecideOutcome | posthog-master/posthog/workos_radar.py:195-217 | which of the five outcomes, resubmission first and then by verdict and bypass, with no other change to the store |
| ChallengeNonces.Gate.EvaluateAuthAttempt | posthog-master/posthog/workos_radar.py:98-168 | one attempt changes the store and answers exactly as the specified step |
| ChallengeNonces.NonceIsInjective | posthog-master/posthog/turnstile.py:63-64 | a nonce names the identity and the uuid it was made from |
| ChallengeNonces.ConsumptionHasIssue | posthog-master/posthog/turnstile.py:70-93 | every consumption goes back to an earlier issue of that nonce to the same identity less than 300 seconds before |
| ChallengeNonces.ConsumedOnce | posthog-master/posthog/turnstile.py:87-91 | no nonce is consumed twice |
| ChallengeNonces.ReuseIsBlocked | posthog-master/posthog/workos_radar.py:203-206 | after a consumption, even one Turnstile then refused, any reuse is blocked |
| ChallengeNonces.CompletionIsExact | posthog-master/posthog/workos_radar.py:203-206 | a challenge is completed if and only if Turnstile agrees and the nonce has a live, unused issue to this identity |
| ChallengeNonces.AttemptIsExact | posthog-master/posthog/workos_radar.py:98-217 | the answer to every attempt of every run, by its fields: completed, blocked, bypassed, challenged with that nonce, or accepted with its verdict |
| ChallengeNonces.SuspiciousNeedsCompletion | posthog-master/posthog/workos_radar.py:203-215 | a suspicious signup without a bypass is accepted only by completing a challenge issued to it before |
| ChallengeNonces.CompletionsAreOneToOne | posthog-master/posthog/workos_radar.py:135-168 | two completions never come from the same issue |
| JsonVersions.StripVersionRecursive | posthog-master/posthog/schema_helpers.py:20-33 | the loops over dictionaries and lists compute exactly the stripped value |
| JsonVersions.StripIsExact | posthog-master/posthog/schema_helpers.py:20-33 | two values strip to the same one if and only if they differ in nothing but versions that stripping reaches |
| JsonVersions.StripRemovesVersionsOnly | posthog-master/posthog/schema_helpers.py:20-33 | the stripped value has no version that stripping reaches, and differs from the original in nothing else |
| SchemaHelpers.ToDictInPlace | posthog-master/posthog/schema_helpers.py:36-138 | the loops that restore literals, clean fields and remove empty models compute exactly the specified dictionary |
| SchemaHelpers.CleanFilterIsExact | posthog-master/posthog/schema_helpers.py:78-130 | two filters are stripped and cleaned to the same one if and only if they differ only in versions, frontend keys, entity uuids and displays of one group |
| SchemaHelpers.CleanSeriesIsExact | posthog-master/posthog/schema_helpers.py:63-77 | two series are stripped and cleaned to the same one if and only if they differ only in versions and custom name and compute the same math |
| SchemaHelpers.CanonicalForm | posthog-master/posthog/schema_helpers.py:36-138 | two queries of one class get the same dictionary if and only if every field of their dumps asks for the same dataset, versions ignored and an empty model counting as an absent one |
| SchemaDictionary.EmptyModelIsAbsent | posthog-master/posthog/schema_helpers.py:132-136 | an empty filter, breakdown or date range counts as absent, and no other empty field does |
| SchemaDictionary.SettingMatters | posthog-master/posthog/schema_helpers.py:78-118 | the thirty frontend settings, by name, and versions never matter to a filter, and every other setting does |
| SchemaDictionary.DisplayMatters | posthog-master/posthog/schema_helpers.py:124-130 | two charts share a dictionary if and only if both plot over time (no display included), both show a total, or they are the same |
| SchemaDictionary.EntityMatters | posthog-master/posthog/schema_helpers.py:120-122 | of the target and returning entity the uuid and the version never matter, and all else does |
| SchemaDictionary.DisplayInDict | posthog-master/posthog/schema_helpers.py:124-130 | a chart over time is not recorded, a chart of a total as ActionsBarValue, any other as itself |
| SchemaDictionary.EntityInDict | posthog-master/posthog/schema_helpers.py:120-122 | the entities are recorded without uuid and versions |
| SchemaDictionary.SettingInDict | posthog-master/posthog/schema_helpers.py:78-118 | a recorded setting is recorded as it was, versions aside |
| SchemaDictionary.SeriesInDict | posthog-master/posthog/schema_helpers.py:63-77 | every key of every series as recorded: no custom name, daily active users for weekly ones over weeks or months and monthly ones over months, in trends only, all else as it was |
| SchemaDictionary.OtherFieldInDict | posthog-master/posthog/schema_helpers.py:37-46 | literals are put back and any other field is recorded as it was, versions aside |
| SchemaHelpers.VersionsDoNotMatter | posthog-master/posthog/schema_helpers.py:37-38 | queries that differ only in versions get the same dictionary |
| SchemaHelpers.ToDictTwice | posthog-master/posthog/schema_helpers.py:36-138 | cleaning a cleaned dictionary changes nothing |
| AdminOAuth.Gate.HandleRequest | posthog-master/ee/middleware.py:51-136 | the in-place request changes the session and answers exactly as the specified step |
| AdminOAuth.Gate.HandleCallback | posthog-master/ee/middleware.py:139-216 | the in-place callback, branch by branch, changes the session and answers exactly as the specified step |
| AdminOAuth.AdmissionIsProved | posthog-master/ee/middleware.py:148-202 | every admission carries the state and nonce of the latest redirect (section 10.12 of RFC 6749, section 3.1.3.7 of OpenID Connect Core 1.0), not used before, and the user's own email |
| AdminOAuth.AdmissionIsExact | posthog-master/ee/middleware.py:112-208 | in every run a callback is admitted if and only if it answers the latest redirect, not used before, with its state, its nonce and the user's own email, and then lands on the page first asked for |
| AdminOAuth.RefusalIsExact | posthog-master/ee/middleware.py:139-216 | a refused callback goes to the front page if and only if it answers the pending redirect with another email, and else to the admin page |
| AdminOAuth.SecretIsFromAdmission | posthog-master/ee/middleware.py:104-136 | in every reachable session a verification secret was drawn by an admission, with that client's hash, that nothing has ended since |
| AdminOAuth.ServedMeansProved | posthog-master/ee/middleware.py:51-102 | a guarded request is served only after a proved callback of the same client whose cookie it carries |
| AdminOAuth.ServedUserIsProved | posthog-master/ee/middleware.py:51-102 | with one user to a session, the provider confirmed the email of the very user who is served |
| AdminOAuth.VisitIsExact | posthog-master/ee/middleware.py:51-136 | the answer to every request of every run: staff on an admin page are served exactly with the cookie of an admission in force, else the API is refused and pages go to the provider with a fresh state and nonce; all others are served |
| AdminOAuth.NoCallbackSucceedsTwice | posthog-master/ee/middleware.py:197-198 | a success uses up its state: no later callback with that state is admitted |
| AdminOAuth.ChangedClientIsCleared | posthog-master/ee/middleware.py:90-100 | a guarded request with the right cookie from another client is refused, and nothing guarded is served again before a new admission |
| AdminOAuth.LoginSucceeds | posthog-master/ee/middleware.py:112-208 | a callback that answers the pending redirect lands on the page first asked for, and every later visit of that browser is served until something ends the admission |
| AdminOAuth.FirstLogin | posthog-master/ee/middleware.py:51-208 | the whole login from the first visit of a new session: redirected, admitted to that page, served |
| Impersonation.Middleware.SessionExpiresAt | posthog-master/posthog/middleware.py:759-777 | the in-place extension of the session and its expiry are exactly as specified |
| Impersonation.Middleware.Handle | posthog-master/posthog/middleware.py:825-855 | the in-place request changes the session and answers exactly as the specified step |
| Impersonation.ExpiryIsExact | posthog-master/posthog/middleware.py:759-831 | in every run a request sees the session expired if and only if the total age has passed, or the idle timeout since the activity before some late request, or the request itself took that long |
| Impersonation.AnswerIsExact | posthog-master/posthog/middleware.py:825-855 | the answer to every request of every run: passed when the impersonation is over, not lapsed, or for static files; else 401 for the API, a reload for admin pages, a redirect to the admin for the rest |
| Impersonation.LastsUntilOver | posthog-master/posthog/middleware.py:835-853 | the impersonation lasts exactly until a request for a page sees it expired |
| Impersonation.StaysExpired | posthog-master/posthog/middleware.py:765-777 | a session once seen as expired stays expired |
| Impersonation.GapExpires | posthog-master/posthog/middleware.py:768-777 | any gap longer than the idle timeout, or the total age, expires the session |
| Impersonation.ActiveSessionLives | posthog-master/posthog/middleware.py:768-777 | with every gap below the idle timeout and the total age not passed the session lives |
| CampaignEmail.Mailer.SendTransaction | posthog-master/posthog/email.py:153-193 | one transaction marks, skips or rolls back exactly as specified |
| CampaignEmail.Mailer.SendViaHttp | posthog-master/posthog/email.py:135-197 | the loop that stops at the first failure changes the records exactly as specified |
| CampaignEmail.CallSendsUpToFirstFailure | posthog-master/posthog/email.py:152-197 | every call sends exactly the recipients before its first failure, duplicates and earlier sends skipped, and leaves everything else as it was |
| CampaignEmail.SendTimeIsRecorded | posthog-master/posthog/email.py:153-193 | each recipient a call sends to is marked with the time of that send |
| CampaignEmail.FailureFreeCallSendsAll | posthog-master/posthog/email.py:152-193 | a failure-free rerun leaves the whole list sent, earlier sends untouched |
| CampaignEmail.DeliveriesAreAccountedFor | posthog-master/posthog/email.py:152-197 | over any sequence of calls an address gets at most one committed send per campaign, committed if and only if newly sent, and every delivery is that one or was lost to a rollback |
| CampaignEmail.LostIsExact | posthog-master/posthog/email.py:152-197 | a call loses a message of a slot if and only if it stops at that slot by a failure after delivery |
| CampaignEmail.DeliveredIsExact | posthog-master/posthog/email.py:152-197 | over any run a slot gets one message for every call that stops late at it, and one more if and only if it ends up newly sent |
| CampaignEmail.AtMostOneDelivery | posthog-master/posthog/email.py:152-197 | a slot gets at most one message if and only if no two calls stop late at it, nor any when it ends up newly sent |
| CampaignEmail.CompletedRunDelivers | posthog-master/posthog/email.py:152-197 | any run ended by a failure-free call delivers to a listed recipient once, and once more for every call that stopped late at it |
| CampaignEmail.RerunDeliversTwiceExactly | posthog-master/posthog/email.py:152-197 | one call and its failure-free rerun deliver twice to a recipient if and only if the first stopped at it by a failure after delivery |
| CampaignEmail.LateFailureDeliversTwice | posthog-master/posthog/email.py:174-196 | for every unsent recipient there is such a call and rerun |
| UserPermissions.PrefetchAccessControls | posthog-master/posthog/user_permissions.py:124-131 | the grouping loop gives each team its own rows in table order |
| UserPermissions.PrefetchRoleMemberships | posthog-master/posthog/user_permissions.py:143-149 | the grouping loop gives each membership its own roles in table order |
| UserPermissions.HighestGrantIsMaximum | posthog-master/posthog/user_permissions.py:209-252 | the highest grant is reached by a row the user holds and passed by none |
| UserPermissions.PrefetchedLevel | posthog-master/posthog/user_permissions.py:189-277 | the search in order of priority over the prefetched maps equals the highest grant in the whole table, else the default row's level, else admin |
| UserPermissions.LevelIsExact | posthog-master/posthog/user_permissions.py:189-277 | the level case by case from the rows: membership, admins and owners, granted admin, granted member, then the first row for all, where none hides the team and no row makes an admin |
| UserPermissions.RowOrderDoesNotMatter | posthog-master/posthog/user_permissions.py:254-277 | when the default rows of a team agree the order of the rows does not change the level |
| UserPermissions.VisibleIsExact | posthog-master/posthog/user_permissions.py:65-70 | a team is visible if and only if the user has a level in it |
| UserPermissions.Permissions.TeamLevel | posthog-master/posthog/user_permissions.py:42-47 | remembered or computed, the level is the one over the whole table |
| UserPermissions.Permissions.TeamsVisible | posthog-master/posthog/user_permissions.py:65-70 | the list of visible teams, in order |
| RedisClients.LoopClients.GetAsyncClient | posthog-master/posthog/redis.py:102-132 | a client is only ever returned to the loop it was made for, there is one per loop and url, and it is open |
| RedisClients.LoopClients.PoolFor | posthog-master/posthog/redis.py:118-124 | a new loop gets an empty map that the dictionary and the finalizer share |
| RedisClients.LoopClients.LoopDied | posthog-master/posthog/redis.py:46-64 | when a loop dies every client ever made for it is closed, those added after the finalizer was registered included, and no other |
| RedisClients.LoopClients.PoolIsExact | posthog-master/posthog/redis.py:43-132 | the map of a live loop holds exactly the clients ever made for it |
| Sampling.SimpleHash | posthog-master/posthog/sampling.py:51-58 | the hash masked at every step is the polynomial in 31 modulo 2^32 |
| Sampling.HashConcat | posthog-master/posthog/sampling.py:51-58 | the hash of a concatenation follows from the two hashes and the second length |
| Sampling.HashIsSum | posthog-master/posthog/sampling.py:51-58 | the hash is the sum of the character codes weighted by powers of 31, modulo 2^32 |
| Sampling.ClampIsNearest | posthog-master/posthog/sampling.py:38-48 | a number is clamped to the nearest value of the range |
| Sampling.ClampEdges | posthog-master/posthog/sampling.py:23-48 | a lower bound above the upper gives way to it, and anything but a number counts as the fallback or the upper bound |
| Sampling.SamplingIsMonotone | posthog-master/posthog/sampling.py:62-78 | a property sampled at one rate is sampled at every higher one |
| Sampling.SampledShare | posthog-master/posthog/sampling.py:70-78 | at n hundredths exactly the hashes below n modulo 100 are sampled, and the empty property always is |
| ProductDbRouter.CheckProductDbRoutes | posthog-master/posthog/product_db_router.py:69-87 | the loop over a mutated dictionary reports exactly the specified errors |
| ProductDbRouter.ReportedExactlyWhenDisagreeing | posthog-master/posthog/product_db_router.py:75-85 | comparing each route with the last one seen reports an app if and only if some two of its routes disagree |
| ProductDbRouter.OrderDoesNotMatter | posthog-master/posthog/product_db_router.py:18-65 | when the check is silent read, write, relation and migration answers are independent of the order of the routes |
| ProductDbRouter.WritesAreMigrated | posthog-master/posthog/product_db_router.py:37-65 | an app is written to a database its migrations may run on |
| ProductDbRouter.RelationIsSymmetric | posthog-master/posthog/product_db_router.py:43-55 | the order of the two objects does not matter to a relation |
| ProductDbRouter.ReadsShareDatabase | posthog-master/posthog/product_db_router.py:27-41 | reads go to the database of the writes |
| ProductDbRouter.RoutedAnswers | posthog-master/posthog/product_db_router.py:27-61 | a routed app is read, written and migrated on the aliases, by name, of its first route's database |
| ProductDbRouter.UnroutedAnswers | posthog-master/posthog/product_db_router.py:27-65 | an app without a route has no database of its own and may not migrate on any product alias |
| ProductDbRouter.RelationIsExact | posthog-master/posthog/product_db_router.py:43-49 | objects are related if and only if both apps are routed to one database; with neither routed there is no opinion |
| ProductDbRouter.SharedAliasMeansRelated | posthog-master/posthog/product_db_router.py:43-65 | two apps may migrate on one alias only when relations between them are allowed |

## Left out

- Fail-open paths of the throttle (exceptions, cache errors) and concurrent read-modify-write of its history: the bound is about serial requests.
- The framework base classes of the throttle, among them rate parsing and the fallback cache key, are not part of this model; a key is an input.
- Multisort.PyList.Sort: values are integers and comparisons never raise; the sorting algorithm of the runtime is replaced by its specification, which determines the result.
- Dates outside the years 1 to 9999, time zones and daylight-saving folds: datetimes are naive and years are unbounded.
- Case folding beyond single characters: the foldings of `icontains` and `ilike` are any two functions of characters that leave `%`, `_`, the backslash and the space alone.
- The meaning of a non-empty `search_extra`, which is only carried in the SQL text.
- TermSearchSql.TermSearchFilterSql: its text gets its meaning from a reader of the one shape it has, for fields without spaces; the SQL grammar of the database is not modelled.
- Two threads inside one `__call__` of the function cache: a call is one step. Instance memoization and the JSON serializer next to it are left out.
- Redis bypass-list maintenance, the Radar and Turnstile requests themselves, logging and event capture: their answers are inputs of an attempt.
- Values of a dump that the query schema rules out, such as a filter that is not a dictionary: the source would raise, the model leaves them alone.
- SchemaHelpers.CleanSeries: reads the math of a series from its dump; that the dump agrees with the query object is the serializer's business.
- Cookie attributes, token exchange and id-token checks of the admin gate: the token's email and nonce are inputs.
- Starting an impersonation, and sessions of ordinary users: a run begins with a session just impersonated.
- `_send_via_smtp`, which does not skip duplicate recipients within one call.
- Dashboard and insight permissions, and the synchronous and test-mode Redis clients.
- Sampling.SampledShare: rates are reals, so the rounding of `percent * 100` in floating point is not modelled.
