# Intercom conversation export pipeline: a Dafny model

The repository exports Intercom conversations into a Supabase `qa_metrics`
table and a Google Sheet. It also stores full conversation threads and
backfills dates and workspaces. There are five Python scripts, several of
them near-duplicate revisions of one pipeline that disagree in small rules.
This project models the deterministic core of each revision as written:

- the tag classifiers;
- timestamp-to-date conversion over POSIX seconds (POSIX.1-2017 Base
  Definitions, section 4.16);
- the three score normalisers and the agent-identity resolvers;
- the first-non-empty field chains;
- the PII redactor;
- the export job's poll, backoff, download and payload-format rules, with
  the gzip signature of RFC 1952 section 2.3.1 and the ZIP signature of
  PKWARE APPNOTE section 4.3.7;
- the orchestration loops that filter, enrich, batch, deduplicate, group
  and count.

HTTP replies, the clock, "today", decoders and `json.dumps` are parameters.

One module per concern, one file each:

| file | module | what |
|---|---|---|
| text.dfy | `Text` | `Option`, ASCII character classes, `lower`, `strip`, substring search, `int()` and `float()` text parsing |
| rows.dfy | `Rows` | an export row as an ordered dict, `row.get(k) or ...` chains |
| calendar.dfy | `Calendar` | day numbers and proleptic Gregorian dates, `datetime.fromtimestamp(t, tz=utc)`, `isoformat()` |
| tags.dfy | `Tags` | substring classifiers of the sync script, whole-tag classifiers of the backfill |
| timestamps.dfy | `Timestamps` | `parse_timestamp_to_date` and the revisions' date rules |
| scores.dfy | `Scores` | `round`, the three score normalisers, `percent_to_1_5` |
| agents.dfy | `Agents` | `looks_like_teammate_id`, both `resolve_agent_name`s, `fetch_all_admins_map` |
| redactor.dfy | `Redactor` | `anonymize_text` as four regex passes and whitespace collapse |
| export_job.dfy | `ExportJob` | `poll_export`, the three `download_export`s, `parse_export_bytes` |
| metrics_sync.dfy | `MetricsSync` | `parse_conversation_row` and `sync_conversations` of the sync script |
| metrics_sync_revision.dfy | `MetricsSyncRevision` | the same for the revision under `scripts/intercom/` |
| sheet_export.dfy | `SheetExport` | `map_row_to_canonical` and the `run_window` loops of the sheet export |
| sheet_teammates.dfy | `SheetTeammates` | `resolve_teammate_ids_and_update_sheet` |
| conversation_thread.dfy | `ConversationThread` | `should_skip_part`, `extract_message_body`, `parse_conversation_thread`, `parse_conversation_messages` |
| backfill.dfy | `Backfill` | `fetch_conversation_from_intercom`, `extract_conversation_data`, `update_qa_metric` and the counter loop of `main` |

A raised Python exception is a `None` result or an `Abort`/`Raised`
outcome wherever the source lets it escape. Where the source catches it, the
model takes the branch the handler takes.

## Model

| member | source | states |
|---|---|---|
| Text.Strip | scripts/intercom_supabase_sync.py:213 | The stripped text has no whitespace at either end. |
| Text.StripIsSlice | scripts/intercom_supabase_sync.py:213 | The stripped text is a slice of the input, and only whitespace is cut off. |
| Text.Lower | scripts/intercom_supabase_sync.py:153 | Same length, and every character is lower-cased in place. |
| Text.ParseIntOfNatToString | scripts/intercom/intercom_cx_export_run.py:285 | `int(str(n)) == n` for every natural number. |
| Text.ParseIntOfDigits | scripts/intercom/intercom_cx_export_run.py:285 | A non-empty digit string is read as its decimal value. |
| Text.ParseDecimal | scripts/intercom_supabase_sync.py:229 | Blank text is rejected. |
| Text.ParseDecimalOfInteger | scripts/intercom_supabase_sync.py:229 | `float` agrees with `int` on integer text. |
| Rows.Get | scripts/intercom_supabase_sync.py:506-507 | A key present in the row gives the value of its last entry, as `dict(zip(...))` keeps it; a missing key gives none. |
| Rows.FirstTruthy | scripts/intercom_supabase_sync.py:525-530 | The first key with a non-empty value gives that value. When none has one, the default. |
| Rows.Keys | scripts/intercom/intercom_cx_export_run.py:249-264 | `row.keys()` of the dict that `dict(zip(fieldnames, cells))` builds: every header of the row is listed, and only headers of the row are listed. |
| Rows.KeysOrdered | scripts/intercom/intercom_cx_export_run.py:249-264 | The listed keys come in the order of their first occurrence, so each header appears once, in its first place. |
| Calendar.CivilFromDays | backfill_dates_and_workspace.py:130 | The date of a day number is a valid proleptic Gregorian date whose day number is that number. |
| Calendar.CivilRoundTrip | backfill_dates_and_workspace.py:130 | Converting a valid date to its day number and back gives the same date. |
| Calendar.DaysFromCivilInjective | backfill_dates_and_workspace.py:130 | Distinct valid dates have distinct day numbers. |
| Calendar.UtcDateOfSeconds | scripts/intercom_supabase_sync.py:241-249 | `fromtimestamp(t, utc).date()` is a valid date with year 1..9999, and `t` lies inside that day. Otherwise Python raises (`None`). |
| Calendar.UtcDateInRange | scripts/intercom/fetch_conversation_thread.py:187 | `fromtimestamp` succeeds exactly on the instants of years 1 to 9999. |
| Calendar.IsoDate | scripts/intercom_supabase_sync.py:249 | `date.isoformat()` is ten characters of the shape `DDDD-DD-DD` (RFC 3339 full-date), and the three digit groups read back as the year, month and day of the date. |
| Calendar.IsoDateTime | scripts/intercom/intercom_cx_export_run.py:286 | `fromtimestamp(t, utc).isoformat()` exists exactly when the date does. It is 25 characters: the ISO date, `T`, then `HH:MM:SS` whose digits give the seconds of `t` since midnight of that day (hours below 24, minutes and seconds below 60), then `+00:00`. |
| Calendar.ClockText | scripts/intercom/intercom_cx_export_run.py:286 | The `HH:MM:SS` text of a second of the day reads back as that second, with hours below 24 and minutes and seconds below 60. |
| Calendar.DateOf1731398400 | scripts/intercom_supabase_sync.py:205 | 1731398400 seconds after the epoch fall on 2024-11-12 UTC. |
| Tags.LowerAll | scripts/intercom_supabase_sync.py:153 | Every tag is lower-cased, in order, and none is lost. |
| Tags.NamedTags | scripts/intercom_supabase_sync.py:483-484 | Only present, non-empty names are kept, each comes from a tag, and every such name is kept. |
| Tags.NamedTagsAppend | scripts/intercom_supabase_sync.py:484 | Named tags keep their order across concatenation. |
| Tags.Workspace | scripts/intercom_supabase_sync.py:148-160 | Gives `Unknown` for no tags. The result is one of three labels. SkyPrivate holds iff one of its keywords occurs in the joined lower-case text. CamModelDirectory holds iff none of SkyPrivate's does and one of its own does. |
| Tags.Queue360 | scripts/intercom_supabase_sync.py:162-179 | The flag is true iff a kind is given. No tags give `(False, None)`. The kind is `both` iff both keyword groups hit. |
| Tags.Queue360Kinds | scripts/intercom_supabase_sync.py:162-179 | `billing` iff only the billing keywords hit, `ceq` iff only the CEQ keywords hit, and `(False, None)` iff there are no tags or neither group hits. |
| Tags.KeywordInTagIsInJoined | scripts/intercom_supabase_sync.py:153-157 | A keyword found inside one tag is found in the joined text. |
| Tags.SkyPrivateWins | scripts/intercom_supabase_sync.py:155-158 | If any one tag holds a SkyPrivate keyword, the workspace is SkyPrivate, whatever the other tags say. |
| Tags.BothGroupsGiveBoth | scripts/intercom_supabase_sync.py:169-173 | A billing-keyword tag together with a CEQ-keyword tag gives `(True, 'both')`. |
| Tags.BillingTopUpExample | scripts/intercom_supabase_sync.py:145-175 | `["billing-top-up-issue"]` gives `(True, 'billing')`. |
| Tags.WorkspaceDependsOnOrder | scripts/intercom_supabase_sync.py:153 | The substring classifier is not order-independent. `["sky", "private"]` is SkyPrivate but `["private", "sky"]` is Unknown. |
| Tags.WholeTagWorkspace | backfill_dates_and_workspace.py:70-78 | Gives `Unknown` for no tags. SkyPrivate holds iff a tag equals a SkyPrivate identifier up to case. CamModelDirectory holds iff none does and a CamModelDirectory identifier does. |
| Tags.WholeTagQueue360 | backfill_dates_and_workspace.py:81-95 | `both` iff a billing tag and a CEQ tag are listed; `billing` or `ceq` iff only that group is; otherwise `(False, None)`. The flag is true iff a kind is given. |
| Tags.WholeTagOrderIndependent | backfill_dates_and_workspace.py:70-95 | Tag lists with the same members, in any order and with any repetition, are classified alike by both whole-tag classifiers. |
| Tags.WholeTagPermutation | backfill_dates_and_workspace.py:70-95 | Permuting the tags changes neither whole-tag result. |
| Tags.WholeTagTopUpExample | backfill_dates_and_workspace.py:59-62 | A tag equal to `Billing - top-up-issue` in any letter case is billing and not CEQ. |
| Tags.WholeTagUnlistedExample | backfill_dates_and_workspace.py:59-66 | `billing-issue` is listed in no group and gives `(False, None)`. |
| Timestamps.ParseTimestampToDate | scripts/intercom_supabase_sync.py:199-262 | No value, blank and `"0"` give no date. An ISO-shaped text containing `-` returns exactly its first ten characters. |
| Timestamps.NumericTimestampDate | scripts/intercom_supabase_sync.py:231-249 | A value at most one billion gives no date. Above ten billion the value is read as milliseconds: the outcome is that of `v / 1000` seconds. In between it is the outcome of `v` seconds, which never raises. |
| Timestamps.InstantSecond | scripts/intercom_supabase_sync.py:239-243 | `fromtimestamp` rounds to whole microseconds, half to even: the second it lands in is the floor of `x`, or the next one exactly when the fraction is at least 0.9999995. |
| Timestamps.UtcDateOfInstant | scripts/intercom_supabase_sync.py:239-249 | The UTC date of an instant, after that rounding, is valid, in years 1..9999, and its day contains the rounded instant. |
| Timestamps.InstantDate | scripts/intercom_supabase_sync.py:239-253 | `fromtimestamp` raises an uncaught `OverflowError` iff the rounded second is outside the 64-bit `time_t` range. Otherwise a date in years 1..9999 gives its ISO text, and any other year falls through to `fromisoformat`. |
| Timestamps.OnlyMillisecondsRaise | scripts/intercom_supabase_sync.py:237-253 | The whole function raises only for numeric text above ten billion, read as milliseconds. |
| Timestamps.HugeMillisecondsRaise | scripts/intercom_supabase_sync.py:237-253 | A digit string of at least 1000 * 2^63 overflows `time_t` after `/1000`, so the call raises. |
| Timestamps.CarryIntoNextDay | scripts/intercom_supabase_sync.py:241-249 | `1731484799.9999996` rounds up to the next microsecond second and is dated `2024-11-13`, not `2024-11-12`. |
| Timestamps.NumericPath | scripts/intercom_supabase_sync.py:219-229 | Decimal text of a natural number skips the ISO branch and goes to the numeric branch. |
| Timestamps.SecondsGiveTheirDate | scripts/intercom_supabase_sync.py:241-244 | A digit string `v` with 1e9 < v <= 1e10 gives the UTC date of `v` seconds. |
| Timestamps.MillisecondsGiveTheirDate | scripts/intercom_supabase_sync.py:237-240 | A digit string `v` > 1e10 gives the date of `v div 1000` seconds. |
| Timestamps.SmallNumbersRejected | scripts/intercom_supabase_sync.py:231-247 | Digit strings up to one billion give `None`. |
| Timestamps.SecondsAndMillisecondsAgree | scripts/intercom_supabase_sync.py:205-206 | `1731398400` and `1731398400000` both give `2024-11-12`. |
| Timestamps.RevisionMetricDate | scripts/intercom/intercom_supabase_sync.py:232-238 | `int(ts)` read as Unix seconds gives its UTC date. Text that is no integer, or a year outside 1..9999, gives the supplied `today`. |
| Timestamps.RevisionMillisecondsGiveToday | scripts/intercom/intercom_supabase_sync.py:234-238 | A millisecond timestamp lands beyond year 9999, so the revision dates the row `today`. |
| Timestamps.CanonicalTimestamp | scripts/intercom/intercom_cx_export_run.py:283-288 | An integer text whose instant has a representable year becomes that instant's ISO date-time: its date, `T`, the `HH:MM:SS` of the seconds since midnight, and `+00:00`. Anything else is passed through as it stands. |
| Scores.RoundHalfEven | scripts/intercom_supabase_sync.py:546 | Python's `round`: within one half of `x`, and ties go to the even integer. |
| Scores.RoundIsNearest | scripts/intercom_supabase_sync.py:546 | No integer is closer to `x` than `round(x)`. |
| Scores.Round2 | scripts/intercom_supabase_sync.py:546 | `round(x, 2)` lies within 0.005 of `x`. |
| Scores.Round2Within | scripts/intercom_supabase_sync.py:545-549 | Rounding to two decimals never leaves an interval whose ends have two decimals. |
| Scores.Round2Exact | scripts/intercom_supabase_sync.py:546 | A value with two decimals is its own rounding. |
| Scores.PercentToScale | scripts/intercom_supabase_sync.py:549 | `1 + 4 * v / 100` maps 0..100 into 1..5. |
| Scores.SyncScore | scripts/intercom_supabase_sync.py:541-551 | A score is present iff the value is in 0..100. A value in 1..5 is kept (rounded). A value elsewhere in 0..100 is mapped (rounded). A present score lies in 1..5. |
| Scores.SyncScoreOfText | scripts/intercom_supabase_sync.py:541-551 | An empty or unparsable text gives `None`. A parsable text gives the sync normaliser's score of its value. A present score lies in 1..5. |
| Scores.RatingSource | scripts/intercom_supabase_sync.py:570 | `rating_source` is `"ai"` iff a score is present, and `"none"` otherwise. |
| Scores.SyncScoreExamples | scripts/intercom_supabase_sync.py:541-551 | 92 gives 4.68; 4.2 gives 4.2. |
| Scores.RevisionScore | scripts/intercom/intercom_supabase_sync.py:259-268 | A score is present iff the value is in 0..100, and it lies in 1..5. |
| Scores.RevisionTreatsAllAsPercent | scripts/intercom/intercom_supabase_sync.py:263-266 | The 1..5 branch is unreachable. Every value in 0..100 is mapped as a percentage, so 4.2 gives 1.17. |
| Scores.RevisionScoreOfText | scripts/intercom/intercom_supabase_sync.py:253-268 | An empty or unparsable text gives `None`. A parsable text gives the revision normaliser's score of its value. A present score lies in 1..5. |
| Scores.PercentToGrade | scripts/intercom/intercom_cx_export_run.py:338-345 | Gives a grade iff the value is in 0..100. The grade is an integer 1..5 within one half of `1 + 4v/100`. |
| Scores.FinalScore | scripts/intercom/intercom_cx_export_run.py:347-360 | No score or `""` gives the empty cell. Non-numeric text is returned as it stands. A value in 1..5 or outside 0..100 gives the real `round(f, 2)`. An integer result is a grade 1..5, and a real result lies within 0.005 of the value. |
| Scores.FinalScorePercentIsGrade | scripts/intercom/intercom_cx_export_run.py:353-355 | A number in 0..100 outside 1..5 always becomes the integer grade. The `round(f, 2)` fallback is dead. |
| Scores.FinalScoreAgreesWithSync | scripts/intercom/intercom_cx_export_run.py:347-360 | On a value in 0..100 the sheet score and the sync score both exist. They are equal when the sheet keeps a real, and the sheet's integer grade lies within 0.505 of the sync score. |
| Agents.LooksLikeTeammateId | scripts/intercom/intercom_cx_export_run.py:367-375 | False for `""` and `Unknown`. Otherwise true iff the stripped text is all digits, or at least eight hex digits or hyphens. |
| Agents.IsIdShaped | scripts/intercom/intercom_cx_export_run.py:373-375 | An id-shaped text is non-empty and made of hex digits and hyphens only. |
| Agents.ResolveAgentName | scripts/intercom_supabase_sync.py:444-455 | `""` and `Unknown` give `Unassigned`. Text that does not look like an id is returned unchanged. An id gives the map's name for the stripped id, else `Unassigned`. |
| Agents.RevisionResolveAgentName | scripts/intercom/intercom_supabase_sync.py:215-223 | `""` and `Unknown` give `Unknown`. A name passes through. An id gives the map's name, else the raw id. The result is non-empty when the map's names are. |
| Agents.ResolversCompared | scripts/intercom/intercom_supabase_sync.py:215-223 | The two resolvers agree on a known, unpadded id. On an unknown id the sync script says `Unassigned` and the revision returns the id. |
| Agents.AdminList | scripts/intercom_supabase_sync.py:425 | A non-empty `admins` list wins. Otherwise a present `data` list. Otherwise no records. |
| Agents.AdminName | scripts/intercom_supabase_sync.py:429 | Name, else email, else the id. Non-empty when the id is. |
| Agents.AddAdmins | scripts/intercom_supabase_sync.py:427-431 | Storing a page keeps earlier keys. Every new key is the id of a record. Every record with an id is stored. Names stay non-empty. |
| Agents.AddAdminsLastWins | scripts/intercom_supabase_sync.py:427-431 | The last record listed for an id decides its name. |
| Agents.PagesFoldKeys | scripts/intercom_supabase_sync.py:418-439 | Every key of the final map is the id of an admin on a page the loop read, and every name is non-empty. |
| Agents.PagesFold | scripts/intercom_supabase_sync.py:418-439 | Earlier keys are kept. A missing or non-200 page ends the walk with the map unchanged. Every admin with an id on a 200 page is stored. |
| Agents.StoreAdmins | scripts/intercom_supabase_sync.py:427-431 | The inner loop stores exactly what `AddAdmins` describes. |
| Agents.FetchAllAdminsMap | scripts/intercom_supabase_sync.py:411-442 | The page loop stops at a non-200 page or a page without a next link, and yields the page fold. The id keys of each revision are a parameter. |
| Redactor.Replacement | scripts/intercom_supabase_sync.py:189-192 | Each replacement text is non-empty and holds no digit and no whitespace. |
| Redactor.RunEnd | scripts/intercom_supabase_sync.py:189-192 | A greedy repetition stops at the first character outside its class. |
| Redactor.LastHit | scripts/intercom_supabase_sync.py:189 | The backtracking engine takes the last position that completes the match. |
| Redactor.EmailMatch | scripts/intercom_supabase_sync.py:189 | An email match is non-empty and contains an `@`. |
| Redactor.NumberMatch | scripts/intercom_supabase_sync.py:190-191 | The pattern matches at `i` iff the whole digit run starting there has a word boundary on both sides and a length within the bounds. A match ends at the end of that run. |
| Redactor.PhoneMatch | scripts/intercom_supabase_sync.py:192 | A phone match starts at a digit or at `+` followed by a digit. |
| Redactor.Collapse | scripts/intercom_supabase_sync.py:193 | `\s+` becomes one space: no two whitespace characters in a row, every whitespace is a space, and leading digits are kept. |
| Redactor.Anonymize | scripts/intercom_supabase_sync.py:184-194 | Falsy text comes back unchanged. The output has no whitespace at either end and never two whitespace characters in a row. |
| Redactor.SubWithoutMatch | scripts/intercom_supabase_sync.py:189-192 | A pass that matches nowhere leaves the text unchanged. |
| Redactor.PlainTextOnlyCollapses | scripts/intercom_supabase_sync.py:184-194 | Text with no `@` and no digit changes only by whitespace collapsing and stripping. |
| Redactor.PhoneMatchesEightDigits | scripts/intercom_supabase_sync.py:192 | The phone pattern matches at the first of eight digits in a row. |
| Redactor.PhonePassBreaksDigitRuns | scripts/intercom_supabase_sync.py:192 | After the phone pass no eight digits stand in a row. |
| Redactor.NoLongDigitRunSurvives | scripts/intercom_supabase_sync.py:184-194 | No run of eight or more digits survives redaction. |
| ExportJob.PollStep | scripts/intercom_supabase_sync.py:308-333 | A 4xx/5xx reply raises. A download URL returns even when the status says failed. Success words (any case) return. Failure words raise. The time limit is judged only after these. |
| ExportJob.NextDelay | scripts/intercom_supabase_sync.py:333 | The next delay is doubled or 60, and at most 60. |
| ExportJob.Backoff | scripts/intercom_supabase_sync.py:306-334 | Every delay lies between 5 and 60 seconds. |
| ExportJob.BackoffValues | scripts/intercom_supabase_sync.py:306-333 | The delays run 5, 10, 20, 40 and then stay at 60. |
| ExportJob.PollExport | scripts/intercom_supabase_sync.py:296-333 | The poll loop ends as `PollRun` says, with the sleeps `PollRun` lists. |
| ExportJob.PollRun | scripts/intercom_supabase_sync.py:308-334 | One sleep per unfinished poll, never more than the polls. Running out of replies means every poll was unfinished. The first sleep is the starting delay. |
| ExportJob.Ended | scripts/intercom_supabase_sync.py:312-330 | The loop ends with an `HTTPError` iff the step raised for status, and returns the body iff the step was ready. |
| ExportJob.PollSleepsFollowBackoff | scripts/intercom_supabase_sync.py:306-333 | The `j`-th sleep is the `j`-th backoff delay: 5, 10, 20, 40, 60, 60, ..., always in 5..60. |
| ExportJob.PollReturnsReadyBody | scripts/intercom_supabase_sync.py:320-324 | The loop returns only a body with a download URL or a success word. |
| ExportJob.DecisiveReplyEndsPolling | scripts/intercom_supabase_sync.py:320-330 | After a decisive reply no further poll is read and nothing is slept. |
| ExportJob.DownloadUrlWins | scripts/intercom_supabase_sync.py:320-321 | A reply with a download URL ends polling successfully whatever its status and however late. |
| ExportJob.StatusBeforeTimeout | scripts/intercom_supabase_sync.py:323-330 | A success or failure word decides before the time limit is checked. |
| ExportJob.SyncDownloadAttempts | scripts/intercom_supabase_sync.py:345-373 | The attempts are a prefix of URL with auth, URL without auth, then fallback (only the fallback without a URL). Every attempt before the last failed, and the list stops early only at a 200 reply. |
| ExportJob.SyncDownload | scripts/intercom_supabase_sync.py:335-379 | The content of the last attempt if it is a 200 reply, otherwise `RuntimeError`. |
| ExportJob.SheetDownload | scripts/intercom/intercom_cx_export_run.py:187-238 | As the sync script, but a final non-200 response goes to `raise_for_status` first. |
| ExportJob.DownloadTakesFirstSuccess | scripts/intercom/intercom_cx_export_run.py:202-233 | A payload comes back iff some attempt of the full order would get a 200 reply, and it is the first such reply's content. The fallback is asked only after both URL attempts failed. |
| ExportJob.SyncUrlsThenFallback | scripts/intercom_supabase_sync.py:345-373 | When both URL attempts fail, the download ends as if the job named no URL. When only the first fails, the second attempt's content is returned. |
| ExportJob.SheetDownloadAgrees | scripts/intercom/intercom_cx_export_run.py:187-238 | Whenever the sync revision returns a payload, the sheet revision returns the same one. When it returns none, the sheet revision returns none either; only the exception differs. |
| ExportJob.RevisionDownloadAttempts | scripts/intercom/intercom_supabase_sync.py:130-155 | The attempts are URL with auth, then fallback, or only the fallback without a URL. The URL alone is tried only when it answers 200 or the request raises. Any other response forces the fallback. |
| ExportJob.RevisionUrlThenFallback | scripts/intercom/intercom_supabase_sync.py:130-155 | A 200 at the URL gives its content and a failed request raises. Any other response leaves the outcome to the fallback endpoint, exactly as if there were no URL. |
| ExportJob.RevisionDownload | scripts/intercom/intercom_supabase_sync.py:130-155 | As written: the first 200 content is returned. Otherwise `raise_for_status` runs on the last response and the function may fall off its end. |
| ExportJob.RevisionDownloadReturnsNothing | scripts/intercom/intercom_supabase_sync.py:151-155 | A 204 from the fallback endpoint makes the revision return `None` and raise nothing. |
| ExportJob.CorrectedRevisionDownload | scripts/intercom/intercom_supabase_sync.py:130-155 | As intended: never `None`, and it agrees with the as-written download wherever that returns something. |
| ExportJob.ParseExportBytes | scripts/intercom_supabase_sync.py:381-406 | Gzip if the first two bytes are 1f 8b and the decoder succeeds. Then ZIP if the first four are `PK\x03\x04` and the decoder succeeds. Otherwise CSV text. |
| ExportJob.MagicDispatch | scripts/intercom_supabase_sync.py:384-406 | The two signatures never both match. A gzip or ZIP payload that its decoder rejects is read as CSV. |
| MetricsSync.SyncMetricDate | scripts/intercom_supabase_sync.py:507-519 | The start date when it gives one. Otherwise the closing date when it gives one. Otherwise today. A raise from either parse that is reached propagates. Never empty when today is not. |
| MetricsSync.ConversationId | scripts/intercom_supabase_sync.py:522 | The id when truthy, else `""`. |
| MetricsSync.AgentRaw | scripts/intercom_supabase_sync.py:525-530 | The first non-empty assignee column, else `Unknown`. Never empty. |
| MetricsSync.Feedback | scripts/intercom_supabase_sync.py:554-555 | `None` iff the explanation is empty. Otherwise the anonymised text: single-spaced, with no run of eight digits. |
| MetricsSync.ResolutionStatus | scripts/intercom_supabase_sync.py:558 | The state when truthy, else `completed`. |
| MetricsSync.ParseConversationRow | scripts/intercom_supabase_sync.py:499-576 | Each field comes from its rule above. `rating_source` is `ai` iff a score is present. Response time and CSAT are `None`. Tags are empty, the workspace is Unknown and there is no 360 queue. |
| MetricsSync.CellDateOfSeconds | scripts/intercom_supabase_sync.py:241-249 | A cell of whole seconds in range gives their UTC date. |
| MetricsSync.CellDate | scripts/intercom_supabase_sync.py:506-512 | A missing or empty cell gives no date. Otherwise the cell is parsed as `parse_timestamp_to_date` does. |
| MetricsSync.StartedSecondsDecide | scripts/intercom_supabase_sync.py:511-512 | A start time in seconds decides the date, whatever the closing time says. |
| MetricsSync.ClosedUsedWithoutStart | scripts/intercom_supabase_sync.py:514-515 | Without a start time the closing time is used. |
| MetricsSync.NoTimeGivesToday | scripts/intercom_supabase_sync.py:517-519 | A row with neither time is dated today. |
| MetricsSync.HugeStartRaises | scripts/intercom_supabase_sync.py:506-512 | A start time that overflows `time_t` as milliseconds makes the row raise, whatever the closing time says. |
| MetricsSync.EnrichConversation | scripts/intercom_supabase_sync.py:460-494 | A failed fetch, a non-200 reply, or a 200 reply without a tag list gives no tags, Unknown and no queue. Otherwise the named tags of the reply. The workspace and queue are always those the two classifiers give for the tags. |
| MetricsSync.MergeIffTags | scripts/intercom_supabase_sync.py:661 | A classification is merged iff it found a named tag, so a failed fetch never is. |
| MetricsSync.Enriched | scripts/intercom_supabase_sync.py:661-665 | A merge overwrites the four classification fields and nothing else. No merge changes nothing. |
| MetricsSync.MergeCount | scripts/intercom_supabase_sync.py:666 | At most one merge per record. |
| MetricsSync.TransformRecords | scripts/intercom_supabase_sync.py:636-642 | Every record has a non-empty conversation id and no tags yet. |
| MetricsSync.RecordOf | scripts/intercom_supabase_sync.py:637-642 | A row without an id gives nothing. Any other row gives its parsed record, or raises when parsing raises. |
| MetricsSync.TransformRaisesIff | scripts/intercom_supabase_sync.py:636-642 | The transform raises iff some row with an id fails to parse. |
| MetricsSync.TransformLength | scripts/intercom_supabase_sync.py:636-642 | At most one record per row. |
| MetricsSync.TransformAppend | scripts/intercom_supabase_sync.py:636-642 | Rows are transformed independently and in order. |
| MetricsSync.RowWithoutIdDropped | scripts/intercom_supabase_sync.py:637-639 | A row without a conversation id contributes nothing. |
| MetricsSync.TransformRows | scripts/intercom_supabase_sync.py:635-642 | The loop yields exactly `Transform`. |
| MetricsSync.FoldRows | scripts/intercom_supabase_sync.py:635-642 | The loop stops at the first row that raises, and otherwise appends each row's records in order: exactly the fold over the rows. |
| MetricsSync.EnrichAll | scripts/intercom_supabase_sync.py:647-673 | Every record is replaced by its enrichment of its own id. `enriched` counts the merges. `enriched + failed` is the number of records. |
| MetricsSync.EnrichBatch | scripts/intercom_supabase_sync.py:656-669 | One batch extends the enriched prefix to its end. |
| MetricsSync.SerializeTags | scripts/intercom_supabase_sync.py:680-682 | Every tag list becomes its JSON text, and nothing else changes. |
| MetricsSync.UpsertBatches | scripts/intercom_supabase_sync.py:688-691 | The batches are consecutive non-empty slices of at most 100, every one but the last full, and they concatenate to the records. There are ceil(n/100) of them. |
| MetricsSync.Flatten | scripts/intercom_supabase_sync.py:688-691 | Every record of every batch is in the concatenation. |
| MetricsSync.SyncConversations | scripts/intercom_supabase_sync.py:629-695 | No rows give 0 and no batch. Processed is the number of transformed records. The batches are chunked by 100, and the `k`-th record upserted is the `k`-th transformed record, enriched (when enabled) with its own id's fetch and serialised. `enriched + failed` is the number processed when enrichment runs, 0 otherwise. |
| MetricsSyncRevision.RevisionTimestamp | scripts/intercom/intercom_supabase_sync.py:232 | The closing time, else the start time, else `""`. |
| MetricsSyncRevision.RevisionParseConversationRow | scripts/intercom/intercom_supabase_sync.py:228-287 | The revision's date, resolver and score rules. The explanation is `None` iff empty. The status defaults to `completed`. The three unused fields are `None`. |
| MetricsSyncRevision.ClosedSecondsDecide | scripts/intercom/intercom_supabase_sync.py:232-236 | A closing time in seconds decides the date, whatever the start time says. |
| MetricsSyncRevision.ClosedMillisecondsGiveToday | scripts/intercom/intercom_supabase_sync.py:234-238 | A closing time in milliseconds gives today. |
| MetricsSyncRevision.IsoClosingTimeGivesToday | scripts/intercom/intercom_supabase_sync.py:234-238 | An ISO closing time gives today, because `int()` rejects it. |
| MetricsSyncRevision.RevisionNoTimeGivesToday | scripts/intercom/intercom_supabase_sync.py:232-238 | A row with neither time is dated today. |
| MetricsSyncRevision.RevisionRecordOf | scripts/intercom/intercom_supabase_sync.py:365-374 | A row yields one record iff it has a conversation id. |
| MetricsSyncRevision.RowWithIdKept | scripts/intercom/intercom_supabase_sync.py:364-374 | A row with an id appends its record, carrying that id, after the records of the rows before it. |
| MetricsSyncRevision.RevisionRowWithoutIdDropped | scripts/intercom/intercom_supabase_sync.py:366-367 | A row without an id yields no record. |
| MetricsSyncRevision.UpsertCalls | scripts/intercom/intercom_supabase_sync.py:301-316 | One call with every record, or none for no records. |
| MetricsSyncRevision.RevisionTransformRows | scripts/intercom/intercom_supabase_sync.py:363-374 | The loop yields exactly `RevisionTransform`. |
| MetricsSyncRevision.RevisionSyncConversations | scripts/intercom/intercom_supabase_sync.py:360-378 | The records do not depend on the ids already stored, and all of them go in export order to at most one upsert call. |
| SheetExport.MappedCell | scripts/intercom/intercom_cx_export_run.py:276-278 | A value only when the mapped name and its cell are both truthy. |
| SheetExport.ClosedPreferred | scripts/intercom/intercom_cx_export_run.py:274-281 | The closing time is preferred over the start time, and neither gives `""`. |
| SheetExport.IntegerClosingTimeBecomesDateTime | scripts/intercom/intercom_cx_export_run.py:283-286 | A closing time in whole seconds becomes the full ISO date-time of that instant. |
| SheetExport.KeyOfLower | scripts/intercom/intercom_cx_export_run.py:298 | `keys_lower[fk]` is missing iff no header lower-cases to `fk`. Otherwise it is a header of the row that lower-cases to `fk`, and of all such headers it is the one whose first occurrence comes latest, since the comprehension runs over `row.keys()` and a later key overwrites an earlier one. |
| SheetExport.LastHeaderWins | scripts/intercom/intercom_cx_export_run.py:298 | A header at its first occurrence `i` is the spelling `keys_lower` stores for its lower-case form when every header with that form has already appeared by position `i`. |
| SheetExport.FirstValue | scripts/intercom/intercom_cx_export_run.py:299-307 | A `for`/`break` search gives the first candidate with a value, or none iff none has one. |
| SheetExport.FirstCandidate | scripts/intercom/intercom_cx_export_run.py:299-307 | None iff no candidate gives a value. Otherwise a non-empty value. |
| SheetExport.FirstKeywordValue | scripts/intercom/intercom_cx_export_run.py:309-313 | The first keyword-named column with a value, in header order. None iff there is none. |
| SheetExport.CanonicalAgent | scripts/intercom/intercom_cx_export_run.py:290-314 | The first candidate field with a value, else the first column named like an assignee, else `Unknown`. Never empty. |
| SheetExport.CandidateMatchesAnyCase | scripts/intercom/intercom_cx_export_run.py:302-306 | A candidate is found whatever the case of its header. |
| SheetExport.RepeatedHeaderKey | scripts/intercom/intercom_cx_export_run.py:298 | For headers `Assignee, assignee, Assignee` with cells `x, y, z`: `row.keys()` is `[Assignee, assignee]`, `keys_lower` stores `assignee`, and `row.get("assignee")` is `y`. |
| SheetExport.RepeatedHeaderAgent | scripts/intercom/intercom_cx_export_run.py:290-306 | The agent of that row is `y`: the `assignee` candidate reads the cell `keys_lower` points to, not the last cell `z`. |
| SheetExport.CaseVariantAgent | scripts/intercom/intercom_cx_export_run.py:290-306 | Every row `A, assignee, A` whose `A` has eight characters takes its agent from the middle cell. |
| SheetExport.DetectedScore | scripts/intercom/intercom_cx_export_run.py:316-336 | Exact name first, then any case, then a score-like column. A found score is non-empty. |
| SheetExport.CanonicalConversationId | scripts/intercom/intercom_cx_export_run.py:361 | The mapped id column, else `conversation_id`, else `""`. |
| SheetExport.MapRowToCanonical | scripts/intercom/intercom_cx_export_run.py:269-362 | Date, agent (never empty), final score (the empty cell when no score) and id, each by its rule. |
| SheetExport.FirstHeader | scripts/intercom/intercom_cx_export_run.py:503-508 | The first accepted header, or none iff no header is accepted. |
| SheetExport.DetectColumns | scripts/intercom/intercom_cx_export_run.py:499-526 | No rows change nothing. Set columns are kept, and the other fields are unchanged. An unset score column becomes the first header of the first row that contains a score token. |
| SheetExport.DetectedScoreColumn | scripts/intercom/intercom_cx_export_run.py:499-508 | The detected score column is a header of the first row with a score token and no such header before it. It is absent iff no header has one. |
| SheetExport.FirstHeaderOfKeys | scripts/intercom/intercom_cx_export_run.py:499-508 | The first accepted header of `row.keys()` is the header of the first accepted entry of the row, and there is none iff no entry is accepted. |
| SheetExport.FallbackNeverSelects | scripts/intercom/intercom_cx_export_run.py:519-526 | When the first loop finds no header, neither does the fallback loop, so the fallback never selects a column. |
| SheetExport.DetectedExplanation | scripts/intercom/intercom_cx_export_run.py:510-526 | The detected explanation column is the first header naming an explanation or breakdown, or none. |
| SheetExport.DedupId | scripts/intercom/intercom_cx_export_run.py:532 | `conversation_id` when truthy, then `id`, then the mapped column, else `""`. The id is non-empty iff one of the three is truthy. |
| SheetExport.Breakdown | scripts/intercom/intercom_cx_export_run.py:539-552 | The anonymised explanation text, with no run of eight digits. |
| SheetExport.Cells | scripts/intercom/intercom_cx_export_run.py:554-563 | Eleven cells, with agent second, job id sixth, timestamp seventh and the last four empty. |
| SheetExport.SheetRowValues | scripts/intercom/intercom_cx_export_run.py:537-563 | The cells appended for a row have that shape. |
| SheetExport.SeenIds | scripts/intercom/intercom_cx_export_run.py:565 | Exactly the non-empty ids of the rows. |
| SheetExport.NewIndices | scripts/intercom/intercom_cx_export_run.py:531-536 | The rows kept are exactly the first occurrences of ids not in the sheet, in increasing order. |
| SheetExport.NewRowsLength | scripts/intercom/intercom_cx_export_run.py:564 | One row of values is appended per new row. |
| SheetExport.NewRowAt | scripts/intercom/intercom_cx_export_run.py:531-565 | The `k`-th appended row is the values of the `k`-th new row, in export order. |
| SheetExport.RepeatedIdAppendsNothing | scripts/intercom/intercom_cx_export_run.py:535-536 | A row repeating an earlier id is not appended; the first occurrence wins. |
| SheetExport.FirstNewBySeenIds | scripts/intercom/intercom_cx_export_run.py:533-536 | A row is new iff its id is neither in the sheet nor among the ids of earlier rows. |
| SheetExport.NewSheetRowShape | scripts/intercom/intercom_cx_export_run.py:554-563 | Every appended row has eleven cells, a non-empty agent, the job id sixth and the last four empty. |
| SheetExport.DedupStep | scripts/intercom/intercom_cx_export_run.py:531-565 | A row whose id is new is appended and recorded. Otherwise nothing changes. |
| SheetExport.AppendRow | scripts/intercom/intercom_cx_export_run.py:531-565 | One pass keeps `to_append` and `existing_ids` equal to their specification on the prefix. |
| SheetExport.AppendNewRows | scripts/intercom/intercom_cx_export_run.py:529-565 | `to_append` is the new rows. `existing_ids` grows by every id in the export. |
| SheetExport.RunWindowRows | scripts/intercom/intercom_cx_export_run.py:488-565 | Columns are detected and then the new rows appended. The explanation column is the first explanation-named header. |
| SheetTeammates.PadRow | scripts/intercom/intercom_cx_export_run.py:413-414 | Rows are padded to four cells with empty cells, and the original cells are kept. |
| SheetTeammates.KeyOf | scripts/intercom/intercom_cx_export_run.py:415-417 | A row is grouped iff its agent cell looks like a teammate id, and it is grouped under that cell. |
| SheetTeammates.AgentKeys | scripts/intercom/intercom_cx_export_run.py:412-417 | One key per row, in sheet order. |
| SheetTeammates.RowNumbersOfMembers | scripts/intercom/intercom_cx_export_run.py:412-417 | Row number `n` is listed under `tid` iff the row at index `n - 2` has key `tid`. |
| SheetTeammates.RowNumbersIncreasing | scripts/intercom/intercom_cx_export_run.py:412-417 | The row numbers under one id strictly increase, so none is listed twice. |
| SheetTeammates.IdOrderMembers | scripts/intercom/intercom_cx_export_run.py:411-417 | An id is a key iff some row is listed under it. |
| SheetTeammates.IdOrderDistinct | scripts/intercom/intercom_cx_export_run.py:411-417 | Each id is a key once. |
| SheetTeammates.GroupRow | scripts/intercom/intercom_cx_export_run.py:413-417 | One pass keeps the ids and `id_to_rows` equal to their specification on the prefix. |
| SheetTeammates.GroupRowsById | scripts/intercom/intercom_cx_export_run.py:411-417 | The ids come in first-appearance order, and `id_to_rows` holds each id's row numbers. |
| SheetTeammates.NameFor | scripts/intercom/intercom_cx_export_run.py:428-441 | A truthy map name. Otherwise, on a 200 reply, name, email or the id. Otherwise the id. Never empty. |
| SheetTeammates.RangeOfInjective | scripts/intercom/intercom_cx_export_run.py:444 | Different rows are addressed by different ranges. |
| SheetTeammates.RowUpdates | scripts/intercom/intercom_cx_export_run.py:443-444 | One update per row number, all with the id's name. |
| SheetTeammates.UpdatesForMember | scripts/intercom/intercom_cx_export_run.py:427-444 | Every update is for a row listed under an id, with that id's name. |
| SheetTeammates.UpdatesForCovers | scripts/intercom/intercom_cx_export_run.py:427-444 | Every listed row gets its update. |
| SheetTeammates.UpdatesForDistinct | scripts/intercom/intercom_cx_export_run.py:427-444 | With distinct ids, no two updates address the same cell. |
| SheetTeammates.ListedRowUpdated | scripts/intercom/intercom_cx_export_run.py:411-444 | Every listed sheet row has its cell updated with the name of its id. |
| SheetTeammates.UpdateIsForListedRow | scripts/intercom/intercom_cx_export_run.py:411-444 | Every update writes the name of a listed row's id into that row. |
| SheetTeammates.UpdatesTouchDistinctCells | scripts/intercom/intercom_cx_export_run.py:411-444 | No cell is written twice. |
| SheetTeammates.ResolveName | scripts/intercom/intercom_cx_export_run.py:428-441 | The name for one id, where a fetched name is stored under that id and nothing else in the map changes. |
| SheetTeammates.AppendRowUpdates | scripts/intercom/intercom_cx_export_run.py:443-444 | The loop appends exactly the row updates. |
| SheetTeammates.BuildUpdates | scripts/intercom/intercom_cx_export_run.py:426-444 | The updates are those of the admins map as fetched. A name cached in the loop is never read again. |
| SheetTeammates.ResolveTeammateIds | scripts/intercom/intercom_cx_export_run.py:403-447 | The updates sent are the specified resolution of the sheet rows. |
| ConversationThread.StrippedField | scripts/intercom/fetch_conversation_thread.py:86-88 | A missing field is `""` and text is stripped. Another value raises; with the correction a null reads as `""`. |
| ConversationThread.ShouldSkipPart | scripts/intercom/fetch_conversation_thread.py:77-127 | As written: an always-skipped type is skipped whenever the test answers. The test raises only when body, text or message is present and not text. |
| ConversationThread.CorrectedShouldSkipPart | scripts/intercom/fetch_conversation_thread.py:77-127 | Corrected: an always-skipped type is skipped, and the test answers for every part whose text fields are missing, null or text. |
| ConversationThread.AlwaysSkipTypesSkipped | scripts/intercom/fetch_conversation_thread.py:93-112 | A part of an always-skipped type is skipped even when it has content. |
| ConversationThread.OtherTypesSkipIffNoContent | scripts/intercom/fetch_conversation_thread.py:85-125 | Every other type, `assignment` included, is skipped iff body, text and message are blank and there are no blocks. |
| ConversationThread.NullBodyRaises | scripts/intercom/fetch_conversation_thread.py:86 | As written, a null body makes the test raise. |
| ConversationThread.CloseWithNullBodyRaises | scripts/intercom/fetch_conversation_thread.py:86-112 | A close event with a null body raises as written and is skipped once corrected. |
| ConversationThread.CorrectedAgrees | scripts/intercom/fetch_conversation_thread.py:77-127 | Wherever the test as written answers, the corrected one agrees. |
| ConversationThread.BlockText | scripts/intercom/fetch_conversation_thread.py:153-158 | Only a dict block gives a result (any other block raises), and a text it gives is truthy: its text, else paragraph, else heading. |
| ConversationThread.BlockTexts | scripts/intercom/fetch_conversation_thread.py:151-158 | Every collected block text is truthy. |
| ConversationThread.BlockTextsRaiseKept | scripts/intercom/fetch_conversation_thread.py:152-158 | Once a block raises, the whole loop raises. |
| ConversationThread.JoinTexts | scripts/intercom/fetch_conversation_thread.py:160 | The join succeeds iff every block text is text. |
| ConversationThread.MessageBody | scripts/intercom/fetch_conversation_thread.py:132-167 | A non-blank body verbatim. Otherwise text. Otherwise a string message. Otherwise the block texts joined by blank lines. Otherwise `""`. |
| ConversationThread.CollectBlockTexts | scripts/intercom/fetch_conversation_thread.py:151-158 | The loop collects exactly `BlockTexts`. |
| ConversationThread.ExtractMessageBody | scripts/intercom/fetch_conversation_thread.py:132-167 | The method returns `MessageBody`. |
| ConversationThread.BodyIndependentOfShow | scripts/intercom/fetch_conversation_thread.py:138-143 | After the skip test, the body never depends on how `str` renders a non-text value. |
| ConversationThread.StrippedText | scripts/intercom/fetch_conversation_thread.py:86-88 | On a strippable field, `str` gives the same text, non-blank iff the strip was. |
| ConversationThread.TextContentGivesBody | scripts/intercom/fetch_conversation_thread.py:85-147 | A part with content in body, text or message yields a non-blank body. |
| ConversationThread.Subject | scripts/intercom/fetch_conversation_thread.py:179-183 | Title, else the opening message's subject, else `No subject`; always truthy. |
| ConversationThread.ConversationId | scripts/intercom/fetch_conversation_thread.py:175 | `id` when truthy. Otherwise `conversation_id` as it is, falsy or missing included. |
| ConversationThread.FalsyConversationIdKept | scripts/intercom/fetch_conversation_thread.py:175 | A null `id` with an empty `conversation_id` keeps the empty text, not null. |
| ConversationThread.TimestampField | scripts/intercom/fetch_conversation_thread.py:185-191 | A missing or falsy field gives no time. A number gives the ISO date-time of those seconds; a value `fromtimestamp` rejects raises. |
| ConversationThread.Customer | scripts/intercom/fetch_conversation_thread.py:194 | No contacts gives `{}`. Otherwise the first entry of the contacts list (default `[{}]`), which must be a dict. |
| ConversationThread.ConversationTags | scripts/intercom/fetch_conversation_thread.py:199-200 | Every kept tag name is truthy, and a conversation without `tags` has none. |
| ConversationThread.NamedTagValues | scripts/intercom/fetch_conversation_thread.py:200 | Only truthy names are kept, never more than the tags. |
| ConversationThread.NamedTagValuesAppend | scripts/intercom/fetch_conversation_thread.py:200 | Named tags keep their order across concatenation. |
| ConversationThread.NamedTagValuesOne | scripts/intercom/fetch_conversation_thread.py:200 | A single tag contributes its name iff the name is truthy. |
| ConversationThread.ParseConversationThread | scripts/intercom/fetch_conversation_thread.py:172-219 | The thread exists iff its subject, times, customer and tags do. Each stored field is given by its rule: the conversation id, subject, both times, tags, customer name and e-mail. The subject and customer name are truthy, and every tag is a truthy name. |
| ConversationThread.ThreadDefaults | scripts/intercom/fetch_conversation_thread.py:178-203 | A truthy title is the subject. Otherwise a truthy `conversation_message.subject` is. Otherwise the subject is `No subject`. Priority defaults to `normal` and state to `unknown`. |
| ConversationThread.OpenerMessage | scripts/intercom/fetch_conversation_thread.py:228-258 | An opening message has a non-blank body, type `comment` and no note flag. |
| ConversationThread.OpenerRecord | scripts/intercom/fetch_conversation_thread.py:244-257 | The opener's row carries its body, the conversation id, the creation time, type `comment` and `is_note` false. Its part id is the message `id`, or `{conv_id}_initial` when that is missing. There is no row iff the author is not a dict or the time raises. |
| ConversationThread.PartStep | scripts/intercom/fetch_conversation_thread.py:267-305 | A kept part gives a message with a non-blank body and a note flag iff its type is `note` or starts with `note_`. |
| ConversationThread.PartMessageOrigin | scripts/intercom/fetch_conversation_thread.py:267-305 | The part messages come from kept parts at strictly increasing positions, so they follow the order of the parts. |
| ConversationThread.PartIdFallback | scripts/intercom/fetch_conversation_thread.py:293 | A part without an `id` is named `{conv_id}_{n}`, where `n` is the number of messages already collected. |
| ConversationThread.PartsFold | scripts/intercom/fetch_conversation_thread.py:266-305 | Part messages plus skipped parts equal the number of parts. |
| ConversationThread.OpenerFirst | scripts/intercom/fetch_conversation_thread.py:228-258 | The opener, if any, comes first, with type `comment` and no note flag. |
| ConversationThread.AssembleShape | scripts/intercom/fetch_conversation_thread.py:221-310 | For any step that keeps only well-formed messages, every message is well formed and the parts are accounted for. |
| ConversationThread.MessagesShape | scripts/intercom/fetch_conversation_thread.py:221-310 | Every message has a non-blank body and the right note flag, and skipped plus part messages equal the parts. |
| ConversationThread.ConversationMessages | scripts/intercom/fetch_conversation_thread.py:221-310 | No messages without an opener outcome and a parts list. An opening message comes first. The skip count is at most the number of parts. |
| ConversationThread.EmptyBlockPartSkipped | scripts/intercom/fetch_conversation_thread.py:277-280 | A part whose only content is a block without text passes the skip test, extracts `""` and is counted as skipped. |
| ConversationThread.AlwaysSkipTypePartSkipped | scripts/intercom/fetch_conversation_thread.py:269-271 | A part of an always-skipped type is counted as skipped. |
| ConversationThread.ParsePart | scripts/intercom/fetch_conversation_thread.py:268-305 | One pass of the loop body gives `PartStep`. |
| ConversationThread.ParsePartAt | scripts/intercom/fetch_conversation_thread.py:267-305 | After part `i` the collected messages and skip count are the fold of the prefix, or the whole loop raises. |
| ConversationThread.ParseParts | scripts/intercom/fetch_conversation_thread.py:266-305 | The loop raises iff the fold does. Otherwise it gives the earlier messages followed by the part messages, and the skip count. |
| ConversationThread.ParseConversationMessages | scripts/intercom/fetch_conversation_thread.py:221-310 | The method returns `ConversationMessages`. |
| Backfill.FetchConversation | backfill_dates_and_workspace.py:98-121 | The decoded body iff the reply is 200 with a body. A 404, another status or a failure gives `None`. |
| Backfill.RealDate | backfill_dates_and_workspace.py:127-132 | No date iff `created_at` is missing or falsy. Otherwise a ten-character ISO date, or a raise outside years 1..9999. |
| Backfill.RealDateOfSeconds | backfill_dates_and_workspace.py:129-130 | A non-zero second count gives a date iff its year is 1..9999, and the date is the day holding that instant. |
| Backfill.RealDateExample | backfill_dates_and_workspace.py:130 | A conversation created at 1731398400 gives `2024-11-12`. |
| Backfill.RealDateSameDay | backfill_dates_and_workspace.py:130 | Two instants of the same UTC day give the same date. |
| Backfill.TagNames | backfill_dates_and_workspace.py:135-136 | Every name kept is text, or the classifiers' `lower()` raises. |
| Backfill.TagNamesNonEmpty | backfill_dates_and_workspace.py:136 | Every extracted tag name is non-empty. |
| Backfill.ExtractConversationData | backfill_dates_and_workspace.py:124-150 | Extracts iff the date and the tags extract. The classification is the whole-tag classification of the tags. |
| Backfill.ExtractedClassification | backfill_dates_and_workspace.py:139-142 | The classification follows from the tag names alone. |
| Backfill.ExtractedOrderIndependent | backfill_dates_and_workspace.py:139-142 | Conversations with the same tag names, in any order and with any repetition, are classified alike. |
| Backfill.UpdatePayload | backfill_dates_and_workspace.py:156-165 | The payload always holds workspace, queue flag, queue type and tags. It holds `metric_date` iff the date is truthy. Keys are distinct. |
| Backfill.MetricDateIffRealDate | backfill_dates_and_workspace.py:163-165 | `metric_date` is written iff a date was found. |
| Backfill.VisitOf | backfill_dates_and_workspace.py:224-231 | A missing or falsy conversation is skipped. |
| Backfill.RunStep | backfill_dates_and_workspace.py:216-254 | One more conversation extends the run by its visit. |
| Backfill.Count | backfill_dates_and_workspace.py:224-251 | A pass raises iff its visit aborts. Otherwise exactly one counter grows by one, and at most one write is added; a dry run adds none. |
| Backfill.BackfillRun | backfill_dates_and_workspace.py:212-254 | At most one write per conversation, and none in a dry run. |
| Backfill.ProcessConversation | backfill_dates_and_workspace.py:217-251 | The loop body gives the counters of the run one step further, or reports that the run raised. |
| Backfill.RunBackfill | backfill_dates_and_workspace.py:212-254 | The loop yields exactly `BackfillRun`. |
| Backfill.AbortStays | backfill_dates_and_workspace.py:216-254 | Once a pass raises, the run has raised. |
| Backfill.CountersAddUp | backfill_dates_and_workspace.py:212-251 | `updated + failed + skipped` equals the number of conversations. |
| Backfill.RunAbortsIff | backfill_dates_and_workspace.py:216-254 | The run raises iff some pass raises. |
| Backfill.RunCounts | backfill_dates_and_workspace.py:226-251 | `skipped` counts the conversations without data. A dry run writes nothing and fails nothing. A live run sends one update per other conversation, in order. |
| Backfill.DryRunUpdatesAll | backfill_dates_and_workspace.py:250-251 | A dry run counts every conversation with data as updated. |
| Backfill.LiveRunOutcomes | backfill_dates_and_workspace.py:245-249 | A failed write counts as failed and a successful one as updated. |

## Left out

- HTTP and the Supabase and Sheets clients. `enqueue_export`, the requests themselves, `upsert`, `select`, `load_existing_conversation_ids`, `append_rows`, `batchUpdate`, `get_sheets_service`, `ensure_rawdata_sheet` and `get_conversations_to_update` are out. Replies are inputs (status, decoded body, or a failed request) and writes are returned lists.
- Library decoding. Gzip, ZIP, UTF-8 and `csv.DictReader` are parameters of `ExportJob.ParseExportBytes`. `datetime.fromisoformat` is the `fromIso` parameter. `json.dumps` is a parameter, and the JSON text of `full_data`, the thread tags and the attachments is not modelled. A row maps text headers to text cells. A CSV row with more cells than headers is not modelled. `csv.DictReader` stores the extra cells under the key `None`, and `k.lower()` in `keys_lower` then raises `AttributeError`, which ends `run_window`.
- The clock and sleeps. `time.time()` readings are the `elapsed` field of each poll. `datetime.now()` is a `today` or `now` parameter. `time.sleep` between batches and conversations is not modelled, and `synced_at` is dropped.
- Logging, argparse, environment checks, dotenv, `main()`, the CLI windows, `fix_workspace_names.py` and `check_conversation_tags.py`. None of them computes anything the pipeline stores.
- Python's Unicode tables. `\w`, `\d`, `\s`, `str.lower` and `str.strip` are modelled on ASCII characters.
- Binary floating point. Scores are exact reals, and `round(x, 2)` rounds half to even on the exact value. `float()` accepts an optional sign, digits and an optional fraction; exponents, underscores, `inf` and `nan` are left out. `int()` accepts an optional sign and digits.
- JSON numbers in conversations are whole numbers. A float `created_at` is not modelled.
- Timestamps.NumericTimestampDate: decimal text is read as an exact rational, not rounded to a binary64 float first, and `/ 1000` is exact. Near the thresholds the two can differ: `"10000000000.0000001"` becomes `1e10` as a float and takes the seconds branch, while the model takes the milliseconds branch.
- ConversationThread.StrOf: `str()` of a non-text JSON value is the `show` parameter. `BodyIndependentOfShow` proves that no stored body depends on it.
- Stored messages: `body_html` repeats `body` and is not stored twice. `attachments` and `synced_at` are dropped.
- ConversationThread.ParseConversationMessages uses `CorrectedShouldSkipPart` (see Findings). The as-written test is `ShouldSkipPart`, and `CorrectedAgrees` shows that the two differ only where the original raises.
- Backfill.ProcessConversation: the log lines comparing the current date and workspace with the extracted ones only print, so the current values are not inputs.
- Backfill.FetchConversation: the decoded body is any JSON value. A body that is not an object ends the run, as `.get` on it raises outside the `try`.
- ExportJob.PollExport: a reply's time reading is a given real and `max_wait_seconds` is a parameter. The `app_id` parameter and the headers are not modelled.
- MetricsSync.EnrichConversation: `r.json()` failures and other exceptions are a `FetchError` reply.
- Agents.FetchAllAdminsMap: the page loop follows the pages given in order. Whether a `next` link points back to an earlier page is not modelled.
- SheetTeammates.ResolveTeammateIds: the cell range is read as given, and rows beyond `A2:D10000` are not modelled.

## Findings

| source | as written | input that shows it | evidently intended | confidence | as-written member | corrected member |
|---|---|---|---|---|---|---|
| scripts/intercom/fetch_conversation_thread.py:86-88 | `part.get("body", "").strip()` calls `strip` on `None` when the field is a JSON null, so `should_skip_part` raises `AttributeError` before it looks at the type. | `{"part_type": "close", "body": null}` | A null body, text or message reads as blank: the close event is skipped | not executed | ConversationThread.CloseWithNullBodyRaises | ConversationThread.CorrectedShouldSkipPart |
| scripts/intercom/intercom_supabase_sync.py:151-155 | After the last attempt the function calls `r.raise_for_status()` and falls off its end. A final reply that is neither 200 nor 4xx/5xx makes `download_export` return `None`, which `parse_export_bytes` then fails on. | no download URL, and the fallback endpoint answers 204 | Every failed download raises | not executed | ExportJob.RevisionDownloadReturnsNothing | ExportJob.CorrectedRevisionDownload |
