# Sauti Porini backend — a Dafny model of its decision and query logic

Sauti Porini watches forest zones for fire risk. A polling agent reads, for each
zone, the newest weather readings and fire detections from a hosted Postgres
table API, decides a risk level (NORMAL, WATCH or ALERT) with a threshold rule
or a hosted language model, writes the zone's new status and logs an
alert-history row. A small read API serves fire detections in a public
"satellite alert" shape. This project models the deterministic parts of that:

- `risk.dfy` (module `Risk`, `src/ai_analyzer.py`): the threshold rule
  (`Fallback`), the choice between the rule and the language model's reply
  (`AIAnalyzer.EvaluateRisk`) and the history gate (`AIAnalyzer.SaveAlert`).
- `state.dfy` (module `StateManager`, `src/state_manager_supabase.py`): one
  evaluation of a zone, `SupabaseStateManager.AnalyzeZone`, proved to write
  exactly what the pure function `ApplyDecision` describes. Lemmas about
  `ApplyDecision` hold whatever the decision is, so they cover the language
  model's decisions too.
- `db.dfy` (module `Db`): the database as an in-memory `Store` class with the
  `zones` map and the `weather_logs`, `fire_events` and `alert_history`
  tables. A select filtered on `zone_id`, ordered newest first and limited to
  n rows is `NewestFirst`.
- `rest.dfy` (module `Rest`, `src/simple_supabase.py`): the REST client. It
  covers the base URL and headers, the update query string
  (`k=eq.v` joined with `&`), the select parameter map and the rule that a
  status of 400 or more is an error. The HTTP exchange is abstract: each call
  takes the server's response (status, parsed body, raw text) as a parameter
  and returns the request it sends.
- `api.dfy` (module `Api`, `api.py`): the `.env` loader (`LoadEnvFile`) and the
  `/satellite-alerts` handler (`GetSatelliteAlerts`, `MapFires`).
- `text.dfy` (module `Text`): the Python string operations used above:
  `str.strip()`, `in` and the first index, `str.split`, `str.join` and `str(n)`.
- `wrappers.dfy`: `Option` and `Result`.

Both writes of an evaluation, the zone update and the alert-history row, happen
only inside `if new_status != current_status or new_status == "ALERT"`
(src/state_manager_supabase.py:41-48). A zone that stays WATCH therefore writes
nothing (`StateManager.SteadyStateWritesNothing`). The language-model prompt
states the rule as "above 30, below 20" (src/ai_analyzer.py:40), but the
fallback code compares with 28 and 25 (src/ai_analyzer.py:85), and the model
follows the code.

## Model

| member | source | states |
|---|---|---|
| `Risk.LastWeather` | src/ai_analyzer.py:81 | The newest reading's temperature and humidity, or the defaults 25 and 50 when there is no reading. |
| `Risk.TempText` | src/ai_analyzer.py:91-92 | The text prints the same temperature the rule compared: the newest reading's, or the default 25 printed as "25". |
| `Risk.Fallback` | src/ai_analyzer.py:78-93 | The result is always NORMAL, WATCH or ALERT. It is ALERT exactly when there is a fire row. It is WATCH exactly when there is no fire row and the newest reading has temp > 28 and humidity < 25. The reasoning text is fixed, and both messages carry the status and the newest temperature (the default 25 when there is no reading). |
| `Risk.BoundaryIsNormal` | src/ai_analyzer.py:80-86 | The comparisons are strict: with no fires, temp exactly 28 or humidity exactly 25 gives NORMAL. |
| `Risk.EmptyHistoryIsNormal` | src/ai_analyzer.py:81-86 | With no weather rows and no fires, the defaults (25, 50) give NORMAL. |
| `Risk.OnlyNewestReadingCounts` | src/ai_analyzer.py:81 | Only `weather_history[0]` is read. Older readings never change the decision. |
| `Risk.IgnoresCurrentStatus` | src/ai_analyzer.py:78-93 | The rule's decision does not depend on `current_status`. |
| `Risk.FallbackMonotone` | src/ai_analyzer.py:83-86 | A hotter and drier newest reading, or more fire rows, never lowers the level (ALERT > WATCH > NORMAL). |
| `Risk.AlertRows` | src/ai_analyzer.py:95-106 | The history rows for a decision: none for NORMAL. Otherwise exactly one, for the zone, with risk_level = new_status and both messages copied from the decision. |
| `Risk.AIAnalyzer.constructor` | src/ai_analyzer.py:6-17 | `has_ai` holds iff the key is truthy (neither None nor empty), is not the placeholder, and the client was built. A None or empty key never enables the model. The model name is fixed. |
| `Risk.AIAnalyzer.EvaluateRisk` | src/ai_analyzer.py:29-76 | Without a client, or when the model call raises, the decision is exactly the threshold rule's. Otherwise it is the model's reply. |
| `Risk.AIAnalyzer.SaveAlert` | src/ai_analyzer.py:95-107 | The history gains exactly `AlertRows` (nothing for NORMAL, one row otherwise). Nothing else changes. |
| `StateManager.CurrentStatus` | src/state_manager_supabase.py:15-16 | The zone's stored status, or NORMAL when the lookup finds no row. |
| `StateManager.ShouldUpdate` | src/state_manager_supabase.py:41 | ALERT always writes. A write is skipped only when the status stays the same. |
| `StateManager.RecentWeather` | src/state_manager_supabase.py:19-24 | At most 3 readings, all rows of the weather table for the zone. Empty exactly when the table holds no reading for the zone. |
| `StateManager.RecentFires` | src/state_manager_supabase.py:27-32 | At most 5 rows, all rows of the fire table for the zone. Empty exactly when the table holds no fire row for the zone. |
| `StateManager.DecisionFor` | src/state_manager_supabase.py:15-35 | Without the language model (or when its call raised), the decision is a valid level, and it is ALERT exactly when the fire table holds a row for the zone. Otherwise it is the model's reply. |
| `StateManager.ApplyDecision` | src/state_manager_supabase.py:41-48 | The weather and fire tables are untouched. No zone row is added or removed, and zones other than zone_id keep their rows. The history only grows, by at most one row. |
| `StateManager.AlertAlwaysWrites` | src/state_manager_supabase.py:41-48 | An ALERT updates the zone (status ALERT, fresh timestamp) and appends one ALERT row, even when the zone is already ALERT. |
| `StateManager.SteadyStateWritesNothing` | src/state_manager_supabase.py:41 | Staying in the same non-ALERT status writes neither a zone update nor a history row. |
| `StateManager.ChangeToNormalLogsNothing` | src/state_manager_supabase.py:41-48 | A change to NORMAL updates the zone but appends no history row. |
| `StateManager.WrittenStateMatchesDecision` | src/state_manager_supabase.py:41-48 | When the update branch runs, the zone row (if it exists) holds new_status and the new timestamp, and a missing row stays missing. The history grows by one row exactly for non-NORMAL, and that row carries the decided level and messages. |
| `StateManager.RepeatIsQuiet` | src/state_manager_supabase.py:41-48 | For an existing zone, applying the same non-ALERT decision again writes nothing more. |
| `StateManager.MissingZoneLogsEachTime` | src/state_manager_supabase.py:15-48 | For a zone id with no row, the status always reads NORMAL. A WATCH decision therefore logs a history row on every run, while the update touches no row. |
| `StateManager.ReadsAreBounded` | src/state_manager_supabase.py:18-32 | The weather read returns at most 3 rows and the fire read at most 5, all for the zone. |
| `StateManager.WeatherQueryParams` | src/state_manager_supabase.py:19-24 | The weather select sends exactly select=*, zone_id=eq.<id>, order=recorded_at.desc and limit=3. |
| `StateManager.FireQueryParams` | src/state_manager_supabase.py:27-32 | The fire select sends exactly select=*, zone_id=eq.<id>, order=detected_at.desc and limit=5. |
| `StateManager.ZoneLookupParams` | src/state_manager_supabase.py:15 | The status lookup sends exactly select=current_status and id=eq.<id>, with no order and no limit. |
| `StateManager.ZonePatchQuery` | src/state_manager_supabase.py:42-46 | The zone write's query string is exactly `id=eq.<id>`, and it reads back as that one filter. |
| `StateManager.FireRowMeansAlert` | src/state_manager_supabase.py:26-48 | Without a language model, any fire row for an existing zone makes the decision ALERT. The zone is then rewritten with ALERT and the current timestamp, and one history row is added. |
| `StateManager.HotDryZoneGoesWatch` | src/state_manager_supabase.py:8-50 | Without a language model, no fire rows and a newest reading of 30 degrees and 20% humidity turn a NORMAL zone WATCH and log one WATCH row. |
| `StateManager.SupabaseStateManager.constructor` | src/state_manager_supabase.py:5-6 | The manager works on the given database. |
| `StateManager.SupabaseStateManager.AnalyzeZone` | src/state_manager_supabase.py:8-50 | Returns the decision's new_status. The database afterwards is exactly `ApplyDecision` of the state before, for that decision. |
| `Db.RowsOf` | src/state_manager_supabase.py:19-32 | The rows of one zone: every row returned belongs to the zone and comes from the table, and every such row of the table is returned. |
| `Db.NewestFirst` | src/state_manager_supabase.py:19-32 | A zone-filtered, newest-first, limited select returns min(limit, rows of the zone) rows: the zone's rows read back from the newest. |
| `Db.NewestFirstNonEmpty` | src/state_manager_supabase.py:27-32 | A zone with at least one row gets a non-empty answer to any positive limit. |
| `Db.NewestFirstOfZone` | src/state_manager_supabase.py:19-32 | Every row a zone-filtered select returns is a row of the table and belongs to that zone. |
| `Db.NewestFirstEmptyIff` | src/state_manager_supabase.py:19-32 | With a positive limit, the select comes back empty exactly when the table has no row for the zone. |
| `Db.RowsOfNone` | src/state_manager_supabase.py:27-32 | A zone with no rows in the table gets no rows back. |
| `Db.Store.UpdateZone` | src/state_manager_supabase.py:42-46 | PATCH on id=zone_id sets status and timestamp of that row if it exists. No other row changes. |
| `Db.Store.InsertAlert` | src/ai_analyzer.py:107 | Appends exactly one row to alert_history. |
| `Rest.Checked` | src/simple_supabase.py:16-18 | A status of 400 or more is an error that carries the status and the response text. A lower status returns the body. |
| `Rest.FilterTerms` | src/simple_supabase.py:23 | One `k=eq.v` term per filter, in filter order. |
| `Rest.QueryString` | src/simple_supabase.py:23-24 | The update query string is empty exactly when there are no filters. |
| `Rest.QueryStringRoundTrip` | src/simple_supabase.py:23-24 | Reading the update query string back (split at `&`, key up to the first `=`, then `eq.`) gives the filters in order, for one or more filters whose text holds no `&` (and keys no `=`). |
| `Rest.ParseTermOfFilterTerm` | src/simple_supabase.py:23 | A single `k=eq.v` term reads back as (k, v) when the key holds no `=`. |
| `Rest.ParseTermsOfFilterTerms` | src/simple_supabase.py:23 | Each `k=eq.v` term reads back as (k, v). |
| `Rest.EmptyFiltersQuery` | src/simple_supabase.py:23-24 | With no filters the query string is empty, so the URL ends in `?`. |
| `Rest.WithFilters` | src/simple_supabase.py:33-35 | The filter loop adds exactly the filter keys to the params. |
| `Rest.WithFiltersSets` | src/simple_supabase.py:33-35 | When no key repeats, every filter key ends up mapped to `eq.<value>`. |
| `Rest.WithFiltersKeeps` | src/simple_supabase.py:33-35 | A key no filter names keeps its value, or stays absent. |
| `Rest.WithFiltersSpec` | src/simple_supabase.py:33-35 | After the filter loop, each filter key maps to `eq.<value>`. Keys that are not filters keep their prior value or stay absent. |
| `Rest.SelectParams` | src/simple_supabase.py:31-45 | On success the params are exactly `select`, the filter keys, `order` when an order string is given and `limit` when a non-zero limit is given. A failure is the bad order string itself. |
| `Rest.SelectParamsFailure` | src/simple_supabase.py:37-39 | A select fails exactly when a non-empty order string does not split into two parts at `.`. |
| `Rest.SelectParamsColumns` | src/simple_supabase.py:32 | `select` holds the column list, unless a filter of that name overwrote it. |
| `Rest.SelectParamsFilters` | src/simple_supabase.py:33-35 | Every filter key maps to `eq.<value>`, unless the order or limit parameter overwrote it. |
| `Rest.SelectParamsOrder` | src/simple_supabase.py:37-40 | A given order string is stored whole: its two parts are rejoined with `.`. |
| `Rest.SelectParamsOrderPresent` | src/simple_supabase.py:37-40 | `order` is present exactly when a non-empty order string is given. |
| `Rest.SelectParamsLimit` | src/simple_supabase.py:42-45 | `limit` is present exactly when it is given and non-zero (None and 0 are falsy), and then it holds the limit. |
| `Rest.SelectParamsOneFilter` | src/simple_supabase.py:31-45 | One ordinary filter, a two-part order and a non-zero limit give exactly four params. |
| `Rest.SimpleSupabase.constructor` | src/simple_supabase.py:5-12 | The base URL is url + "/rest/v1". The headers carry apikey = key, Authorization = "Bearer " + key, the JSON content type and return=representation. |
| `Rest.SimpleSupabase.Insert` | src/simple_supabase.py:14-18 | POSTs to base/table. The result is an error iff the status is 400 or more, and otherwise the body. |
| `Rest.SimpleSupabase.Update` | src/simple_supabase.py:20-29 | PATCHes base/table?<query string>. The result is an error iff the status is 400 or more, and otherwise the body. |
| `Rest.SimpleSupabase.Select` | src/simple_supabase.py:31-50 | Sends a GET with exactly `SelectParams`, or nothing when the order string is bad. The result is an error iff the status is 400 or more, and otherwise the body. |
| `Api.ParseEnvLine` | api.py:11-15 | A line yields a key/value pair iff, once stripped, it is non-empty, does not start with `#` and contains `=`. |
| `Api.EnvLineSplitsAtFirstEquals` | api.py:13-15 | The split is at the first `=` of the stripped line, so the raw key has no `=` and the value may. Key and value are the two parts, stripped. |
| `Api.EnvLineEntryStripped` | api.py:13-15 | The parsed key holds no `=`, and key and value are already stripped (stripping them again changes nothing). |
| `Api.EnvLineRoundTrip` | api.py:11-15 | `key=value` reads back as (key, value) for a stripped key without `=` or a leading `#` and a stripped value, which may itself contain `=`. |
| `Api.ParseLines` | api.py:10-15 | One parsed entry per line, in order. |
| `Api.ApplyLastWins` | api.py:15 | Applying entries in order leaves each key with the value of the last entry that sets it. |
| `Api.ApplyUnsetKey` | api.py:15 | A key no entry sets keeps its previous value, or stays absent. |
| `Api.LastWriteWins` | api.py:10-15 | After loading, a key holds the value from the last line that sets it. |
| `Api.UnsetKeyUnchanged` | api.py:10-15 | A variable that no line sets is left as it was. |
| `Api.ApplyNextLine` | api.py:10-15 | One more line changes the environment only through its own parsed entry. |
| `Api.Apply` | api.py:15 | The variables after applying entries are those before plus the keys the entries set. |
| `Api.EnvAfter` | api.py:10-15 | After the lines are loaded, the variables are those before plus the keys the lines set. |
| `Api.EmptyKeyLineUnsettable` | api.py:11-15 | A line `=value` parses to the empty key, which `os.environ` refuses. |
| `Api.LoadEnvFile` | api.py:7-17 | Without a `.env` file the environment is unchanged. With one, loading succeeds iff every parsed entry can be set (a non-empty name, and no NUL in name or value). The result is then the environment after all lines were applied in order. Otherwise the failure names the first line whose entry cannot be set, and its key. |
| `Api.AlertDate` | api.py:59 | The date holds no `T`, is a prefix of detected_at, and is either all of it or is followed by a `T`. |
| `Api.IsoTimestampDate` | api.py:59 | For an ISO timestamp `YYYY-MM-DDT...`, the date is its first ten characters. |
| `Api.ToSatelliteAlert` | api.py:55-61 | lat and lon are passed through, null included. The date holds no `T` and is a prefix of detected_at. The confidence is never absent. The id is `str(id)`. |
| `Api.ConfidenceLevel` | api.py:60 | "nominal" when the confidence column is absent from the row. Otherwise the row's value, null included. |
| `Api.DistinctIdsStayDistinct` | api.py:56 | Distinct row ids give distinct stringified ids. |
| `Api.AlertListParams` | api.py:50 | The endpoint's read sends exactly select=*, order=detected_at.desc and limit=200, with no zone filter. |
| `Api.MapFires` | api.py:52-62 | One alert per fire row, with the same length and order. |
| `Api.GetSatelliteAlerts` | api.py:42-65 | It sends one GET to base/fire_events with exactly the `AlertListParams` params. A failed fetch (status 400 or more) becomes an HTTP 500 that carries the select error. Otherwise the result is the fetched rows mapped one by one, in order, and an empty table gives an empty list. |
| `Text.Strip` | api.py:11 | No whitespace at either end of the result. |
| `Text.StripIsSlice` | api.py:11 | Only whitespace is removed, and only from the two ends. |
| `Text.StripIdempotent` | api.py:15 | Stripping twice is stripping once. |
| `Text.IndexOf` | api.py:13-14 | None iff the character is absent. Otherwise the index of its first occurrence. |
| `Text.Split` | src/simple_supabase.py:39 | At least one piece, and no piece contains the separator. A single piece iff the separator is absent. |
| `Text.SplitThenJoin` | src/simple_supabase.py:39-40 | Joining the pieces of a split with the same separator gives back the string. |
| `Text.Join` | src/simple_supabase.py:23 | The joined string starts with the first piece and has at least one character between each two pieces. |
| `Text.JoinThenSplit` | src/simple_supabase.py:23 | Splitting a join of separator-free pieces gives back the pieces. |
| `Text.IntText` | api.py:56 | `str(n)` is non-empty and made of digits and `-`. |
| `Text.NatTextRoundTrip` | api.py:56 | The decimal text of n reads back as n. |
| `Text.IntTextInjective` | api.py:56 | `str(i) == str(j)` only when i == j. |

## Left out

- The language-model call (src/ai_analyzer.py:32-73): the prompt, the client and `json.loads` of the reply are foreign calls. Its outcome is the `aiReply` parameter: a `Decision`, or None when the call raised. A reply missing a key (which would raise in the source) is not modelled.
- Float formatting: how Python prints a stored temperature inside the alert messages is the `showTemp` parameter. The default temperature is the integer 25 and prints as "25".
- HTTP through `requests`, JSON encoding, and `resp.json()` failing on a non-JSON body. The JSON payload of insert and update is forwarded unchanged and is not part of `Request`. The error message text (`Supabase ... Error (status): text`) is kept as the structured `HttpError` value, not as a rendered string.
- Errors raised by the store during `analyze_zone` (a failed select, update or insert) and the partial writes they would leave. The in-memory store always succeeds.
- Timestamps (`datetime.utcnow().isoformat()`, `"now()"`): one opaque `now` value per call, used both for the zone's last_updated and for the history row's created_at.
- The order of the weather and fire tables: rows are kept in insertion order, which is taken to be timestamp order because every row is stamped with the current time when inserted. Two rows with the same timestamp are not modelled.
- `os.environ` and the `.env` file itself: the environment is a map passed in and returned, and the file is `Option<seq<string>>` (None when it does not exist). Which entries `os.environ` refuses follows CPython on POSIX.
- Api.LoadEnvFile: when an entry cannot be set, the exception ends the import of api.py. The variables already set by earlier lines are not part of the result.
- Missing columns in a fire row (a `KeyError` for id, lat, lon or detected_at) and a null detected_at (`None.split` raises). Columns are always present, and lat and lon may be null.
- `api.py` start-up (the `SUPABASE_URL` check), FastAPI and CORS wiring, `uvicorn`, the fixed `/`, `/ussd` and `/iot-events` payloads, and the 500 translation of errors other than the select's.
- The fetch step (src/fetchers_supabase.py): random sampling, rounding and an insert, with nothing deterministic to state.
- main_agent.py: an endless polling loop with a sleep. It also calls `analyze_zone` with one argument and unpacks three results, and it calls a `generate_and_save_alert` that does not exist, so its contract does not match the code it calls.
- demo_trigger.py: a one-off script that inserts a fire row.
- `Rest.SimpleSupabase.Select`: filter values are taken as already-rendered text (Python's f-string of the value). For integer ids that text is `Text.IntText`.
