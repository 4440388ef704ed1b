# data-puppy core, modelled in Dafny

data-puppy is a self-hosted monitoring dashboard. A Rails application stores
API requests, background jobs and host metrics, and a React client draws
them. This project models the deterministic core of that system and proves
properties about it:

- **Server-side time-series post-processing.**
  - the bucket specifier parser and bucket grid (`TimespanHelper`);
  - the preset/custom span resolver (`TimespanHelper`);
  - the three gap-fill merges (`ApiHistory`, `LatencyHistory`, `JobHistory`);
  - the host-metric downsampler (`HostMetrics`);
  - the closed time-window scope (`TimespanRecord`);
  - the filtered, sorted and paged listings (`ApiRequestList`, `JobList`, `ListQuery`);
  - the command wrapper with its page parameters (`BaseCommand`).
- **The JSON:API helpers.**
  - include-path and sparse-fieldset parsing (`JsonApiParams`);
  - attributes and their `:if` conditions (`JsonApiAttribute`);
  - relationships and the de-duplicated `included` list (`JsonApiRelationship`);
  - the document envelope (`JsonApiSerializer`);
  - host-metric unit conversions (`HostMetricSerializer`).
- **Sidekiq routing.** Job-set aliasing, action whitelists, key splitting and the queue-name guard (`SidekiqController`).
- **Client stores.**
  - the stored-span codec and the bucket/downsample policy (`TimespanStore`);
  - the page cursors and the live-poll flag (`SidekiqStore`);
  - trace span ordering, grouping and range (`Trace`);
  - graph line formatting and scale (`GraphHelpers`);
  - array comparison (`CompareArrays`).

**How the environment is modelled.**
- The database, the clock and date-string parsing are parameters.
- The store's answers (`time_bucket_gapfill` rows, `percentile_cont` rows, stored records) are input sequences of rows.
- "now" and "one month ago" come in a `Clock`.
- `Kernel#Float` on text, `Time.zone.parse`, PostgreSQL's text-to-numeric cast and `String#to_f` are function parameters.

**Time units.**
- Span ends are integer milliseconds.
- The history commands round them to whole seconds, as `Time#round` does.
- Buckets and series times are integer seconds.

Shared helpers:
- `Wrappers` provides `Option` and `Result`.
- `Strings` covers digits, `split` in Ruby's and JavaScript's forms, blank and code-unit order.
- `Seqs` covers filter, first-occurrence de-duplication, a stable insertion sort, paging and "new in" lists.
- `Arith` holds small arithmetic facts.
- `JsonApiValues` provides JSON values, records and insertion-ordered members.

**Where the code differs from the system's design description, the model follows the code.** The one exception is the attribute `:if` option, listed under "## Findings". There the serializer uses the corrected reading, and the as-written reading is modelled beside it.
- The downsampling stride is `spacing / 30` with Integer division. The `.ceil` after it does nothing, so a 45-second spacing keeps every row.
- A zero-size bucket ("0m") parses. Enumerating its fallback grid then divides by zero, and `floor` of the resulting Infinity/NaN raises.
- The specifier regex uses `^`/`$`, which are line anchors in Ruby. Any one line of a multi-line value may match.
- The grid count uses the span end as given. A lemma shows this equals the count for the end floored to the unit.

## Model

| member | source | states |
|---|---|---|
| TimespanHelper.UnitOfChar | app/services/timespan_helper.rb:6-11 | the letter table maps exactly s, m, h, d, each to the unit whose letter it is; any other letter has no unit |
| TimespanHelper.UnitOfName | app/services/timespan_helper.rb:21 | a unit name is one of the four symbol names and maps back to that unit |
| TimespanHelper.NewBucket | app/services/timespan_helper.rb:20-25 | construction succeeds iff the unit is second/minute/hour/day, keeping size and unit; otherwise ArgumentError "Invalid bucket unit" |
| TimespanHelper.FirstSpecLine | app/services/timespan_helper.rb:5 | with line anchors, the matched line is the first specifier line of the input: it is a specifier line and no earlier line is one; no match means no line matches |
| TimespanHelper.FirstSpecLineAt | app/services/timespan_helper.rb:5 | conversely, a specifier line with none before it is the line matched, whatever lines follow |
| TimespanHelper.ParseSingleLine | app/services/timespan_helper.rb:15-18 | a one-line value parses iff it is digits followed by one unit letter, to the bucket of that size and unit |
| TimespanHelper.SpecRoundTrip | app/services/timespan_helper.rb:15-18 | the specifier text of any bucket parses back to the same bucket |
| TimespanHelper.ZeroSizeAccepted | app/services/timespan_helper.rb:20-25 | "0m" is accepted as a zero-size minute bucket: nothing checks positivity |
| TimespanHelper.LineAnchorsExample | app/services/timespan_helper.rb:5 | a value whose second line is "5m" parses as five minutes |
| TimespanHelper.MalformedRaises | app/services/timespan_helper.rb:16-17 | a one-line value that is not a specifier raises (NoMethodError on nil) instead of defaulting |
| TimespanHelper.ToStringReadsBack | app/services/timespan_helper.rb:27-29 | `to_s` is "<size> <unit>": splitting on the space gives back the size digits and the unit name |
| TimespanHelper.Interval | app/services/timespan_helper.rb:31-33 | the width is a whole number of the unit's seconds, exactly `size` of them, and zero iff the size is zero |
| TimespanHelper.AlignDown | app/services/timespan_helper.rb:35-42 | the unit start lies at or below `t`, less than one unit below, on a unit boundary |
| TimespanHelper.AlignDownIdempotent | app/services/timespan_helper.rb:35-42 | aligning an aligned instant changes nothing |
| TimespanHelper.Timestamps | app/services/timespan_helper.rb:66-73 | enumeration fails iff the width is zero; otherwise it is the progression from the aligned start in steps of the width, every entry at most the end, the next one past it, and at least one entry when the end is not before the aligned start |
| TimespanHelper.Progression | app/services/timespan_helper.rb:70-72 | `count` entries, the k-th at a + k·w, consecutive entries exactly w apart |
| TimespanHelper.GridCount | app/services/timespan_helper.rb:70 | floor((end − a)/w + 1) is positive exactly when the end is not before the aligned start |
| TimespanHelper.GridBounds | app/services/timespan_helper.rb:70-72 | with that count every entry is at most the end and one more step would pass it |
| TimespanHelper.GridMembership | app/services/timespan_helper.rb:66-73 | reference definition: an instant is on the grid iff it lies between the aligned start and the end at a whole number of widths from the aligned start |
| TimespanHelper.GridOnlyMultiples | app/services/timespan_helper.rb:66-73 | every grid entry is such an instant |
| TimespanHelper.GridHasMultiples | app/services/timespan_helper.rb:66-73 | every such instant is a grid entry |
| TimespanHelper.GridIgnoresSubUnitEnd | app/services/timespan_helper.rb:66-73 | the grid for an end and for that end floored to the unit are the same |
| TimespanHelper.ThirtyMinuteExample | app/services/timespan_helper.rb:66-73 | one whole-minute hour at 30-minute buckets gives three starts, the last exactly at the end |
| TimespanHelper.ParamToDate | app/services/timespan_helper.rb:77-89 | numbers and date-like values are used as they are; a missing (nil) value raises TypeError in the zone parser; digit text is Unix seconds; text `Float()` reads is that many seconds; empty text gives nil; otherwise only text the zone parser rejects raises |
| TimespanHelper.SecondsTextAgreesWithNumber | app/services/timespan_helper.rb:78-86 | the decimal text of n seconds gives the same date as the number n; empty text gives nil and a missing value raises |
| TimespanHelper.ConvertTimespanToTimes | app/services/timespan_helper.rb:46-64 | every span type except custom resolves, ending now; only a custom span can fail |
| TimespanHelper.PresetSpans | app/services/timespan_helper.rb:49-54 | the six presets span 1 h, 8 h, 1 day, 2 days, 1 week back from now, and from one month ago, to now |
| TimespanHelper.UnknownSpanIsPrevDay | app/services/timespan_helper.rb:60-61 | an unrecognised or missing span type resolves exactly as prev_day |
| TimespanHelper.CustomDefaults | app/services/timespan_helper.rb:55-59 | a custom span with empty dates is the hour before now; a missing (nil) date raises TypeError instead of defaulting |
| Strings.BlankIncludesUnicodeSpaces | app/services/param_helpers.rb:6 | `blank?` counts every Unicode space as blank, wider than the ASCII whitespace `to_i` skips |
| Strings.ToISeparators | app/commands/host_metrics/list_host_metrics.rb:11 | `to_i` reads a single underscore between digits as a separator and stops at a doubled or trailing one |
| Strings.ToIDecimalPrefix | app/commands/host_metrics/list_host_metrics.rb:11 | `to_i` skips a `0d`/`0D` prefix after the sign ("0d5" is 5, "-0D5" is -5), and a prefix without digits after it reads as 0 |
| TimespanHelper.CustomUnordered | app/services/timespan_helper.rb:55-59 | custom dates are used as given, even with the start after the end |
| TimespanHelper.RoundToSecond | app/commands/api_requests/list_history.rb:22-24 | the rounded second is within half a second of the instant (half rounds up) |
| BaseCommand.Execute | app/commands/base_command.rb:13-20 | a first successful run returns the body's value and marks the command executed; a later call raises AlreadyExecuted; a raising body leaves the command unexecuted |
| BaseCommand.ResultOf | app/commands/base_command.rb:22-26 | `result` raises before a successful execute and is nil after it |
| BaseCommand.ErrorsOf | app/commands/base_command.rb:28-32 | `errors` raises (the code raises AlreadyExecuted here) before a successful execute and is empty after it |
| BaseCommand.ExecuteOnce | app/commands/base_command.rb:13-20 | after one success any second execute raises, whatever its body |
| BaseCommand.FailedExecuteRetries | app/commands/base_command.rb:13-20 | a raising run leaves a fresh command that a later successful run completes |
| BaseCommand.PageParam | app/commands/base_command.rb:36-39 | page is at least 1, and is the parameter's integer value whenever that is positive |
| BaseCommand.PerPageParam | app/commands/base_command.rb:41-44 | per_page is at least 1, and is the parameter's integer value whenever that is positive |
| BaseCommand.PagingParams | app/commands/base_command.rb:36-44 | a positive decimal is used as sent; missing, negative and non-numeric values give 1 and 20 |
| TimespanRecord.ForTimespan | app/models/concerns/timespan_record.rb:7-13 | a row is kept iff its time is at or after a given start and at or before a given end, with its multiplicity; nothing else is kept |
| TimespanRecord.NoBoundsIsIdentity | app/models/concerns/timespan_record.rb:9-12 | with neither bound the scope is unchanged |
| TimespanRecord.ForTimespanIsFilter | app/models/concerns/timespan_record.rb:7-13 | the scope equals the order-preserving filter by the closed-window predicate |
| ApiHistory.StatusClass | app/commands/api_requests/list_history.rb:5-14 | a status in 100..599 gets its hundreds digit followed by "xx"; every other status, and only those, gets "unknown" |
| ApiHistory.StatusClassSameLabel | app/commands/api_requests/list_history.rb:5-14 | two statuses share a label iff both are outside 100..599 or both are inside with the same hundreds digit |
| ApiHistory.SanitizedGroupBy | app/commands/api_requests/list_history.rb:103-108 | success/error grouping is chosen iff group_by is "error" |
| ApiHistory.TimeAxis | app/commands/api_requests/list_history.rb:49-53 | with rows, the axis is strictly increasing and holds exactly the returned buckets; without rows it is the fallback grid |
| ApiHistory.AxisIgnoresBucketWhenRowsExist | app/commands/api_requests/list_history.rb:49-53 | once rows exist the span and bucket do not affect the axis |
| ApiHistory.StatusMerge | app/commands/api_requests/list_history.rb:55-64 | one output row per axis instant, in axis order, carrying that instant |
| ApiHistory.StatusMergeReportsRow | app/commands/api_requests/list_history.rb:54-63 | each (bucket, label) row on the axis is reported under its label with its count (NULL as 0) |
| ApiHistory.StatusMergeGapIsZero | app/commands/api_requests/list_history.rb:58-62 | a (bucket, label) pair the store did not return reads 0 |
| ApiHistory.BucketCountOfRow | app/commands/api_requests/list_history.rb:92-98 | the indexed count at a returned bucket is that row's count |
| ApiHistory.BucketCountAbsent | app/commands/api_requests/list_history.rb:97-98 | a bucket without a row reads 0 |
| ApiHistory.TwoSeriesMerge | app/commands/api_requests/list_history.rb:94-100 | one success/error row per axis instant, in axis order |
| ApiHistory.TwoSeriesMergeCounts | app/commands/api_requests/list_history.rb:92-99 | each side reports its own count at buckets it returned and 0 at buckets it did not |
| ApiHistory.Execute | app/commands/api_requests/list_history.rb:18-33 | success requires a resolved span and a parsed bucket, and with rows needs nothing more; both ends are the span's ends rounded to seconds; the grouping follows group_by; the data is the status or success/error merge onto the time axis; with rows, the times are exactly the store's buckets ascending |
| ApiHistory.ErrorsOutsideSuccessAxisDropped | app/commands/api_requests/list_history.rb:86-100 | in error grouping an instant missing from the success rows does not appear, whatever the error rows hold |
| ApiHistory.EmptyStoreGivesZeroGrid | app/commands/api_requests/list_history.rb:49-64 | with no rows the times are the fallback grid over the rounded window and every count is 0 |
| LatencyHistory.ToMs | app/commands/api_requests/list_latency_history.rb:41-43 | a missing value reads 0; a present one is 1000 times the stored seconds |
| LatencyHistory.LatencyMerge | app/commands/api_requests/list_latency_history.rb:38-45 | one row per axis instant, in axis order |
| LatencyHistory.LatencyMergeValues | app/commands/api_requests/list_latency_history.rb:37-45 | a returned bucket shows its three percentiles times 1000 (NULL as 0); a gap bucket shows zeros |
| LatencyHistory.Execute | app/commands/api_requests/list_latency_history.rb:7-48 | ends rounded to seconds; the data is the percentile merge onto the time axis; with rows, times are exactly the returned buckets ascending and success needs only a resolved span and bucket; without rows every value is 0 |
| JobHistory.Keys | app/commands/background_jobs/list_history.rb:38 | the index keys are the returned buckets, each once |
| JobHistory.JobMerge | app/commands/background_jobs/list_history.rb:18-25 | the output times are the union of both sides' buckets, each exactly once |
| JobHistory.JobMergeOrder | app/commands/background_jobs/list_history.rb:18-19 | the order is the success keys followed by the error-only keys, without sorting |
| JobHistory.DedupIdempotent | app/commands/background_jobs/list_history.rb:18 | a list without repeats is its own union |
| JobHistory.JobMergeCounts | app/commands/background_jobs/list_history.rb:20-24 | each side reports its own count at its buckets and 0 at a bucket only the other side returned |
| JobHistory.NoFallback | app/commands/background_jobs/list_history.rb:15-27 | with no rows on either side the series is empty |
| JobHistory.Execute | app/commands/background_jobs/list_history.rb:7-28 | success iff the span resolves and the bucket parses; ends rounded to seconds; data is the key-union merge |
| ApiRequestList.StatusMap | app/commands/api_requests/list_api_requests.rb:5-11 | exactly the five labels map, each to the hundred statuses d00..d99 of its digit |
| ApiRequestList.StatusRangesPartition | app/commands/api_requests/list_api_requests.rb:5-11 | every status in 100..599 lies in its class's range and in no other, and none outside lies in any |
| ApiRequestList.StatusesToRange | app/commands/api_requests/list_api_requests.rb:54-58 | every range comes from a label in the input, and none is added |
| ApiRequestList.StatusesToRangeDistributes | app/commands/api_requests/list_api_requests.rb:54-58 | the mapping distributes over concatenation, so it keeps input order |
| ApiRequestList.StatusesToRangeSingle | app/commands/api_requests/list_api_requests.rb:54-58 | one label maps to its range, an unknown one to nothing |
| ApiRequestList.ConvertToNumeric | app/services/param_helpers.rb:4-12 | numbers pass through; text gives its float value iff it is not blank and the value is positive; nothing gives nil |
| ApiRequestList.MsToSeconds | app/commands/api_requests/list_api_requests.rb:36-37 | a Float bound is divided exactly by 1000; an Integer bound is floor-divided |
| ApiRequestList.FiltersOf | app/commands/api_requests/list_api_requests.rb:29-39 | each filter is on iff its parameter is present; error class, path and verbs filter on the parameter's own value; duration bounds are the converted value in seconds; statuses become their ranges |
| ApiRequestList.AbsentParamsKeepAll | app/commands/api_requests/list_api_requests.rb:32-39 | with no filter parameter every request matches |
| ApiRequestList.WithErrorKeepsErrors | app/commands/api_requests/list_api_requests.rb:34 | with_error keeps only requests that recorded an error class |
| ApiRequestList.StatusFilterByClass | app/commands/api_requests/list_api_requests.rb:39 | a status filter keeps a request only when its class label is listed; a list of unknown labels keeps nothing |
| ApiRequestList.MinDurationUnits | app/commands/api_requests/list_api_requests.rb:29-37 | "1500" ms compares dt with 1.5 s; the Integer 1500 with 1 s |
| ApiRequestList.SortColumnOf | app/commands/api_requests/list_api_requests.rb:42-49 | "duration" and "query_count" choose those columns; anything else sorts by time |
| ApiRequestList.Query | app/commands/api_requests/list_api_requests.rb:15-49 | the relation is the stored requests in the window that pass the filters, with multiplicity, ordered descending (NULL first) by the chosen column |
| ApiRequestList.Execute | app/commands/api_requests/list_api_requests.rb:15-52 | succeeds iff the span resolves; returns the span's ends and that page of the relation, at most per_page long |
| ApiRequestList.ListedRequestsQualify | app/commands/api_requests/list_api_requests.rb:25-39 | every listed request is stored, inside the window, and passes the filters |
| JobList.Bound | app/commands/background_jobs/list_jobs.rb:13-14 | a present bound is the database's reading of the text, unconverted; a bound it cannot read fails the query |
| JobList.SortKey | app/commands/background_jobs/list_jobs.rb:17-22 | "duration" orders by dt; anything else by time |
| JobList.Query | app/commands/background_jobs/list_jobs.rb:7-22 | the stored jobs in the window that pass the class and duration conditions, with multiplicity, ordered descending |
| JobList.ListedJobsQualify | app/commands/background_jobs/list_jobs.rb:9-14 | every listed job is stored, inside the window, and passes the conditions |
| JobList.Execute | app/commands/background_jobs/list_jobs.rb:7-25 | succeeds iff the span resolves and both bounds read; returns the span's ends and that page of the relation |
| JobList.DurationUnitsDiffer | app/commands/background_jobs/list_jobs.rb:13-14 | the same bound text limits dt as it is here and divided by 1000 in the request listing |
| ListQuery.DescLeqTotal | app/commands/api_requests/list_api_requests.rb:42-49 | descending order on a nullable key is a total preorder |
| ListQuery.OrderDesc | app/commands/api_requests/list_api_requests.rb:42-49 | the ordered relation is a permutation of its rows, each at or before the next in descending order |
| ListQuery.OrderDescNullsFirst | app/commands/background_jobs/list_jobs.rb:17-22 | NULL keys come first, then keys from largest down |
| ListQuery.PageOfOrdered | app/commands/base_command.rb:36-44 | a page is the contiguous run of rows after the earlier pages: a full per_page of them, what is left, or none past the end, in the relation's order |
| HostMetrics.EffectiveSpacing | app/commands/host_metrics/list_host_metrics.rb:5-11 | the spacing is at least 30, and any other value than 30 is the present parameter's integer value |
| HostMetrics.SpacingParam | app/commands/host_metrics/list_host_metrics.rb:11 | a decimal spacing is used when at least 30, otherwise 30 |
| HostMetrics.SpacingDefaults | app/commands/host_metrics/list_host_metrics.rb:11 | missing, blank and non-numeric spacings give 30 |
| HostMetrics.Stride | app/commands/host_metrics/list_host_metrics.rb:44 | the stride is at least 1, the whole number of 30-second steps in the spacing, rounded down |
| HostMetrics.StrideExamples | app/commands/host_metrics/list_host_metrics.rb:44 | 30, 45 and 59 give 1; 60 gives 2; 90 gives 3; 300 gives 10 |
| HostMetrics.SelectShape | app/commands/host_metrics/list_host_metrics.rb:42-49 | ceil(N/n) rows are kept, the j-th being row j·n |
| HostMetrics.SelectKeeps | app/commands/host_metrics/list_host_metrics.rb:42-49 | a row is kept iff its 0-based position is a multiple of n, and then it is the selection's entry i/n |
| HostMetrics.TwoHourExample | app/commands/host_metrics/list_host_metrics.rb:44-56 | 120 rows at a 300-second spacing give a total of 12 |
| HostMetrics.TimeLeqIsTotalPreorder | app/commands/host_metrics/list_host_metrics.rb:19 | ordering samples by time is a total preorder, so the sort is well defined |
| HostMetrics.OrderedWindow | app/commands/host_metrics/list_host_metrics.rb:33-39 | the project's samples inside the closed window, as a permutation sorted by time |
| HostMetrics.PageOfSelection | app/commands/host_metrics/list_host_metrics.rb:59-64 | a page of the selection has at most per_page rows: those at positions (per_page·(page−1) + j)·n |
| HostMetrics.SelectOne | app/commands/host_metrics/list_host_metrics.rb:14-21 | a stride of 1 keeps every row |
| HostMetrics.SelectionPaged | app/commands/host_metrics/list_host_metrics.rb:52-67 | the page is strided as above, holds a full per_page of the ceil(N/n) selected samples or what is left after the earlier pages, and the total is ceil(N/n) whatever the page |
| HostMetrics.Listing | app/commands/host_metrics/list_host_metrics.rb:14-21 | on either path, the rows and total are a page of the stride selection with total ceil(N/n), of exactly the page's length |
| HostMetrics.ListingRows | app/commands/host_metrics/list_host_metrics.rb:14-21 | at the default spacing, the plain path's rows equal what the downsampling path would select (stride 1) |
| HostMetrics.Execute | app/commands/host_metrics/list_host_metrics.rb:9-24 | succeeds iff the span resolves; returns its ends and the listing of the time-ordered window at the effective spacing |
| HostMetricSerializer.ToF | app/serializers/host_metric_serializer.rb:24 | `to_f` keeps numbers and reads nil as 0.0 |
| HostMetricSerializer.ToRecord | app/serializers/host_metric_serializer.rb:8-46 | the record answers every declared column |
| HostMetricSerializer.Rendered | app/serializers/host_metric_serializer.rb:22-46 | time is rendered in seconds; a NULL reading is 0.0; any other reading is times its column's factor (1, 1024 or 1048576) |
| HostMetricSerializer.Factor | app/serializers/host_metric_serializer.rb:28-46 | every factor is positive |
| HostMetricSerializer.Attributes | app/serializers/host_metric_serializer.rb:8-46 | one attribute per column, in declaration order, each with its rendered value |
| HostMetricSerializer.Render | app/serializers/host_metric_serializer.rb:22-25 | each column under its name with its block's value, in order |
| HostMetricSerializer.ConstructsWithType | app/serializers/host_metric_serializer.rb:6 | the serializer constructs with the type host_metrics |
| HostMetricSerializer.SerializesReadings | app/serializers/host_metric_serializer.rb:8-46 | without a sparse fieldset, the attributes member of a row is exactly the converted readings |
| HostMetricSerializer.RendersAll | app/serializers/host_metric_serializer.rb:22-25 | a class of one unconditional block per column renders every column |
| HostMetricSerializer.KeepsAll | app/serializers/host_metric_serializer.rb:3-6 | without a fieldset or `allowed_fields` nothing is filtered |
| HostMetricSerializer.AllShown | app/serializers/host_metric_serializer.rb:22-25 | every declared attribute is shown and renders without raising |
| HostMetricSerializer.DiskInBytes | app/serializers/host_metric_serializer.rb:28-36 | total_hdd is 1024 times the stored 1k-block count |
| HostMetricSerializer.MemoryInBytes | app/serializers/host_metric_serializer.rb:38-46 | free_system_mem is 1048576 times the stored MiB |
| HostMetricSerializer.ReadingsRecoverable | app/serializers/host_metric_serializer.rb:8-46 | dividing a rendered reading by its factor recovers the stored reading; a NULL one renders 0 |
| SidekiqController.JobTypeOf | app/controllers/api/sidekiq_controller.rb:264-273 | each set is chosen by exactly its two spellings |
| SidekiqController.AliasesName | app/controllers/api/sidekiq_controller.rb:264-273 | a name selects a set iff it is that set's symbol, sorted-set name or alternative spelling |
| SidekiqController.IndexByType | app/controllers/api/sidekiq_controller.rb:64-77 | sorted sets are listed for exactly the set aliases; the queue listing for exactly "queued"/"queue"; anything else is not found |
| SidekiqController.SplitKey | app/controllers/api/sidekiq_controller.rb:83 | an empty key gives neither part, a dash-free key only a score; otherwise the key splits at its first "-" into a dash-free score and the whole rest, which join back to the key |
| SidekiqController.SplitKeyJoin | app/controllers/api/sidekiq_controller.rb:83 | score-dash-jid splits back into the score and the jid, even when the jid has dashes |
| SidekiqController.Show | app/controllers/api/sidekiq_controller.rb:79-88 | a job is shown iff the set name resolves and the key finds a job; otherwise 404 |
| SidekiqController.Update | app/controllers/api/sidekiq_controller.rb:90-103 | the action runs iff the set resolves, the job is found and the action is listed for the set; otherwise 404 |
| SidekiqController.UpdateAll | app/controllers/api/sidekiq_controller.rb:105-115 | the scheduled set raises; a set action runs iff listed for that set; otherwise 404 |
| SidekiqController.UpdateWhitelist | app/controllers/api/sidekiq_controller.rb:14-18 | a found job accepts exactly the listed (set, action) pairs |
| SidekiqController.UpdateAllWhitelist | app/controllers/api/sidekiq_controller.rb:20-23 | a whole set accepts exactly the listed pairs, and only the scheduled set raises |
| SidekiqController.QueuePatternChars | app/controllers/api/sidekiq_controller.rb:134 | a name passes iff it is non-empty and every character is a letter of either case, a digit or one of `_:.-` |
| SidekiqController.DefaultQueueNameValid | app/controllers/api/sidekiq_controller.rb:134 | "default" passes |
| SidekiqController.ValidQueueNameExamples | app/controllers/api/sidekiq_controller.rb:134 | mixed case, digits and the punctuation pass |
| SidekiqController.InvalidQueueNameExamples | app/controllers/api/sidekiq_controller.rb:134 | a space, a slash, the empty name and no name fail |
| SidekiqController.ClearQueueAsWritten | app/controllers/api/sidekiq_controller.rb:142-149 | the queue is always cleared, and a bad name ends in a second render |
| SidekiqController.ClearQueue | app/controllers/api/sidekiq_controller.rb:142-149 | a queue is cleared iff its name passes; a bad name gets only the 404 |
| SidekiqController.ClearQueueInvalidName | app/controllers/api/sidekiq_controller.rb:144 | on "a b" the code clears and double-renders, while the intended reading clears nothing |
| SidekiqController.ClearQueueAgreesOnValidNames | app/controllers/api/sidekiq_controller.rb:142-149 | on valid names both readings agree |
| SidekiqController.ShowQueueAsWritten | app/controllers/api/sidekiq_controller.rb:129-140 | a bad name ends in a second render, never a plain 404 |
| SidekiqController.ShowQueue | app/controllers/api/sidekiq_controller.rb:129-140 | a bad name gets the 404, and only a bad name |
| SidekiqController.ShowQueueInvalidName | app/controllers/api/sidekiq_controller.rb:134 | "a b" separates the readings; on valid names they agree |
| SidekiqController.PaginationOf | app/controllers/api/sidekiq_controller.rb:218-224 | the record keeps the page and total and fixes the page size at PER_PAGE, 20 |
| SidekiqStore.IncrementPage | app/javascript/sidekiq/store.ts:332-336 | the page moves up one unless that passes max_page, where it stops |
| SidekiqStore.DecrementPage | app/javascript/sidekiq/store.ts:338-341 | the page moves down one unless that goes below 1, where it stops |
| SidekiqStore.PageMovesStayInRange | app/javascript/sidekiq/store.ts:332-341 | both moves keep a page in [1, max_page] |
| SidekiqStore.PageMovesInverse | app/javascript/sidekiq/store.ts:332-341 | inside the range the moves undo each other |
| SidekiqStore.IncrementWithoutPages | app/javascript/sidekiq/store.ts:332-336 | with max_page 0 incrementing gives page 0 |
| SidekiqStore.IncrementBackgroundJobsPage | app/javascript/sidekiq/store.ts:332-336 | incrementing before any pagination arrived throws, leaving the page already advanced by one; otherwise the page is clamped by max_page |
| SidekiqStore.CeilDiv | app/javascript/sidekiq/store.ts:385 | the number of per_page-sized pages needed to cover the records: enough, and one fewer is not |
| SidekiqStore.CanAdvanceIff | app/javascript/sidekiq/store.ts:385-386 | a next page exists iff the records run past the current page |
| SidekiqStore.IncrementJobsPage | app/javascript/sidekiq/store.ts:383-390 | the page moves up and a fetch happens iff a next page exists; otherwise nothing changes |
| SidekiqStore.DecrementJobsPage | app/javascript/sidekiq/store.ts:392-397 | the page moves down and a fetch happens iff it is above 1 |
| SidekiqStore.JobsPageStaysOnRecords | app/javascript/sidekiq/store.ts:383-397 | the cursor never reaches a page starting past the last record, nor below 1 |
| SidekiqStore.JobsPageMovesInverse | app/javascript/sidekiq/store.ts:383-397 | forward then back returns the same query |
| SidekiqStore.FetchJobList | app/javascript/sidekiq/store.ts:359-381 | each fetch selects its list, resets to page 1 and fetches |
| SidekiqStore.FetchResets | app/javascript/sidekiq/store.ts:359-381 | the result forgets the previous query, and different lists get different job types |
| SidekiqStore.ReceiveJobs | app/javascript/sidekiq/store.ts:349-354 | a response sets the page to the server's current page and keeps the list |
| SidekiqStore.SetLivePolling | app/javascript/sidekiq/store.ts:243-259 | polling is on iff asked and the span includes now; off clears any timer; on schedules one only when none is pending |
| SidekiqStore.SetLivePollingIdempotent | app/javascript/sidekiq/store.ts:243-259 | a repeated call changes nothing and starts no second timer |
| SidekiqStore.OnSpanChange | app/javascript/sidekiq/store.ts:189-195 | when the span stops including now, polling is switched off; otherwise nothing changes |
| SidekiqStore.PastSpanStopsPolling | app/javascript/sidekiq/store.ts:189-195 | a span excluding now leaves no polling and no timer |
| TimespanStore.PresetOfName | app/javascript/stores/timespanStore.ts:20-29 | a stored name is a preset iff it is one of the six preset names, and decodes to that preset |
| TimespanStore.Decode | app/javascript/stores/timespanStore.ts:12-41 | a value decodes iff it is a preset name or two digit runs joined by a comma; a preset decodes to itself without dates; a pair decodes to a custom span whose dates are the runs read as decimal seconds (leading zeros allowed) in milliseconds; absent or empty decodes to nothing |
| TimespanStore.Encode | app/javascript/stores/timespanStore.ts:62-83 | a preset is written as its name; a custom span is written iff both dates are set |
| TimespanStore.EncodeDecode | app/javascript/stores/timespanStore.ts:62-83 | round trip: a preset comes back; a custom span with dates at or after the epoch comes back with dates cut to seconds |
| TimespanStore.PairDecodes | app/javascript/stores/timespanStore.ts:31-40 | two digit runs joined by a comma decode to a custom span at those seconds |
| TimespanStore.DecodeEncodeDecode | app/javascript/stores/timespanStore.ts:12-83 | whatever decodes is re-encoded to something that decodes the same |
| TimespanStore.NegativeDateNotRestored | app/javascript/stores/timespanStore.ts:76-78 | a custom start before the epoch is written with a minus sign and does not decode |
| TimespanStore.Initial | app/javascript/stores/timespanStore.ts:48-60 | the start-up span is the decoded one, or prev_8_hours when nothing decodes |
| TimespanStore.SetSpanAsTimestamps | app/javascript/stores/timespanStore.ts:86-92 | the span is custom; a missing or zero timestamp leaves that end open; others are the seconds in ms |
| TimespanStore.TimestampsIncludeNow | app/javascript/stores/timespanStore.ts:148-150 | such a span includes now iff its end timestamp is missing or zero |
| TimespanStore.InitialIncludesNow | app/javascript/stores/timespanStore.ts:148-150 | the start-up span includes now iff it is a preset |
| TimespanStore.SpanSizeInMin | app/javascript/stores/timespanStore.ts:94-111 | the presets measure 60, 480, 1440, 2880, 10080 and 43200 minutes; an open custom span measures 60 |
| TimespanStore.PreferredBucket | app/javascript/stores/timespanStore.ts:113-129 | each threshold's specifier is the text form of the bucket it names |
| TimespanStore.BucketSizeParses | app/javascript/stores/timespanStore.ts:113-129 | every specifier the client sends parses on the server to that bucket, with a positive width |
| TimespanStore.BucketSizeMonotone | app/javascript/stores/timespanStore.ts:113-129 | a longer span never gets a narrower bucket |
| TimespanStore.PreferredDownsampleInterval | app/javascript/stores/timespanStore.ts:134-146 | the interval is a multiple of 30, at least 30 |
| TimespanStore.DownsampleIntervalExact | app/javascript/stores/timespanStore.ts:134-146 | the server uses the interval as sent, and its stride is exact |
| TimespanStore.DownsampleIntervalMonotone | app/javascript/stores/timespanStore.ts:134-146 | a longer span never gets denser sampling |
| TimespanStore.PresetPolicy | app/javascript/stores/timespanStore.ts:94-146 | the presets get 1m, 5m, 30m, 1h, 12h and 1d buckets; prev_day 300 s and prev_month 1800 s intervals |
| Trace.SpanLeqIsTotalPreorder | app/javascript/apiRequests/requestDetails/trace.tsx:141-151 | the comparator's order is a total preorder |
| Trace.SortSpans | app/javascript/apiRequests/requestDetails/trace.tsx:140-152 | the result is a permutation of the input, sorted by that order |
| Trace.SortedSpansOrder | app/javascript/apiRequests/requestDetails/trace.tsx:142-149 | timed spans precede untimed ones, timed ones by start time descending, untimed ones by name |
| Trace.SpanMap | app/javascript/apiRequests/requestDetails/trace.tsx:177-184 | the map's keys are exactly the spans' `parent_id \|\| 0` keys |
| Trace.Group | app/javascript/apiRequests/requestDetails/trace.tsx:179-182 | one step appends the span to its key's group, opening it if needed, and leaves other groups alone |
| Trace.SpanMapGroups | app/javascript/apiRequests/requestDetails/trace.tsx:177-184 | each group is exactly the spans with its key, in input order; a missing key has no spans |
| Trace.Keys | app/javascript/apiRequests/requestDetails/trace.tsx:177-184 | the keys in first-appearance order are the map's keys, each once |
| Trace.SpanMapCount | app/javascript/apiRequests/requestDetails/trace.tsx:177-184 | the group sizes add up to the number of spans |
| Trace.ChildrenFor | app/javascript/apiRequests/requestDetails/trace.tsx:162-165 | the children are a sorted permutation of the id's group |
| Trace.RootSpans | app/javascript/apiRequests/requestDetails/trace.tsx:167-169 | the roots are a sorted permutation of the spans without parent |
| Trace.ChildrenAreExactlyTheChildren | app/javascript/apiRequests/requestDetails/trace.tsx:162-165 | for a non-zero id, a span is listed iff its parent is that id, as often as it occurs |
| Trace.ZeroIdAdoptsRoots | app/javascript/apiRequests/requestDetails/trace.tsx:179 | every root is also listed as a child of id 0 |
| Trace.EndOf | app/javascript/apiRequests/requestDetails/trace.tsx:193-196 | an end exists iff start and duration do, and is their sum |
| Trace.TimeRange | app/javascript/apiRequests/requestDetails/trace.tsx:186-209 | min is the least truthy start (0 if none); max bounds every truthy end and is one of them or 0, unless every end is below a positive min, when it is min + 100; always min ≤ max |
| GraphHelpers.YOf | app/javascript/components/graphHelpers.ts:61 | a present reading is used; a missing one plots as 0 |
| GraphHelpers.Points | app/javascript/components/graphHelpers.ts:58-63 | one point per row, in order, with the row's time and y |
| GraphHelpers.FormatLineData | app/javascript/components/graphHelpers.ts:52-66 | one line per key, in key order, with the key's name and color and its points |
| GraphHelpers.LineMax | app/javascript/components/graphHelpers.ts:8 | at least 0, at least every y, and 0 or one of them |
| GraphHelpers.MaxYDataPoint | app/javascript/components/graphHelpers.ts:6-11 | at least 0 and every y, and 0 or one of the y values |
| GraphHelpers.LineMin | app/javascript/components/graphHelpers.ts:15 | Infinity iff there are no points; otherwise the least y |
| GraphHelpers.MinYDataPoint | app/javascript/components/graphHelpers.ts:13-18 | Infinity iff no line has a point; otherwise at most every y and one of them |
| GraphHelpers.ScaleCoversReadings | app/javascript/components/graphHelpers.ts:6-66 | every plotted reading lies between the minimum and maximum |
| GraphHelpers.NoRowsScale | app/javascript/components/graphHelpers.ts:6-18 | without rows the maximum is 0 and the minimum Infinity |
| CompareArrays.Every | app/javascript/utils/compareArrays.ts:9 | true iff every element of the first occurs in the second |
| CompareArrays.Compare | app/javascript/utils/compareArrays.ts:1-10 | both undefined: true; one undefined: false; different lengths: false; otherwise iff every element of the first is in the second |
| CompareArrays.CompareReflexive | app/javascript/utils/compareArrays.ts:8-9 | a defined array equals itself and any reordering |
| CompareArrays.MultiplicityIgnored | app/javascript/utils/compareArrays.ts:9 | [1,1,2] equals [1,2,2] |
| CompareArrays.NotSymmetric | app/javascript/utils/compareArrays.ts:9 | [1,1] equals [1,2] but not the reverse |
| CompareArrays.DistinctMeansSameSet | app/javascript/utils/compareArrays.ts:8-9 | for repeat-free arrays it is equality of lengths and element sets |
| JsonApiParams.ChildIndex | lib/json_api/serializer.rb:69-70 | the position of the first child with the name, or none when no child has it |
| JsonApiParams.Child | lib/json_api/serializer.rb:69-70 | a subtree exists iff some child has the name |
| JsonApiParams.ChildOfInsert | lib/json_api/serializer.rb:68-71 | inserting a path updates only its first name's child, creating it if missing |
| JsonApiParams.InsertPathHas | lib/json_api/serializer.rb:66-71 | inserting a path adds exactly its prefixes |
| JsonApiParams.InsertAllHas | lib/json_api/serializer.rb:62-75 | after all paths, a path is present iff it was or is a prefix of one inserted |
| JsonApiParams.Paths | lib/json_api/serializer.rb:64-68 | one path per comma part, each split on dots |
| JsonApiParams.ConvertIncludedParams | lib/json_api/serializer.rb:62-75 | the tree holds a path iff it is empty or a prefix of a requested path |
| JsonApiParams.EmptyIncludeIsLeaf | lib/json_api/serializer.rb:62-75 | "" gives the empty tree |
| JsonApiParams.IncludeExample | lib/json_api/serializer.rb:59-61 | "a.b,c" gives { a => { b => {} }, c => {} } |
| JsonApiParams.PathsExample | lib/json_api/serializer.rb:64-68 | "a.b,c" lists the paths [a, b] and [c] |
| JsonApiParams.FieldList | lib/json_api/serializer.rb:81 | no name twice, and a name is listed iff it is a non-blank comma part |
| JsonApiParams.ConvertFieldsParams | lib/json_api/serializer.rb:80-82 | the same types, each with exactly its non-blank names, each once |
| JsonApiParams.EmptyFieldList | lib/json_api/serializer.rb:81 | an empty value lists nothing |
| JsonApiParams.FieldListExamples | lib/json_api/serializer.rb:81 | "b,a,b" lists b then a |
| JsonApiAttribute.ValueFor | lib/json_api/attribute.rb:13-19 | the block's value when there is a block; otherwise the record's same-named reader, raising when it has none |
| JsonApiAttribute.ShouldIncludeAsWritten | lib/json_api/attribute.rb:21-32 | blank includes; a Proc includes iff its result is truthy; only the literal `:symbol` is sent to the record; every other symbol and every other value raises ArgumentError |
| JsonApiAttribute.ShouldInclude | lib/json_api/attribute.rb:21-32 | as intended: a symbol names a reader whose truthiness decides, raising only when it is missing |
| JsonApiAttribute.SymbolConditionRaises | lib/json_api/attribute.rb:27-30 | `if: :published` on a published record raises as written but includes as intended |
| JsonApiAttribute.ReadingsAgreeElsewhere | lib/json_api/attribute.rb:21-32 | the readings agree on every option but a symbol other than `:symbol` |
| JsonApiRelationship.RelTypeOfName | lib/json_api/relationship.rb:5 | exactly has_one, has_many and belongs_to are valid |
| JsonApiRelationship.NewRelationship | lib/json_api/relationship.rb:8-16 | succeeds iff the type is valid and a serializer is given; "Invalid type" is checked first, then "Must specify serializer" |
| JsonApiRelationship.FetchRelated | lib/json_api/relationship.rb:79-87 | `data: false` gives nil; the default reads the association, raising when the record has none |
| JsonApiRelationship.Identifier | lib/json_api/relationship.rb:89-94 | the identifier holds the record's id (not as a string) and the related serializer's type |
| JsonApiRelationship.SerializeData | lib/json_api/relationship.rb:67-77 | nil gives no data; a to-one gives its identifier; a to-many gives one identifier per related record, in order |
| JsonApiRelationship.AddIncluded | lib/json_api/relationship.rb:21-34 | existing entries are kept in place; with a related class without a type the loop succeeds iff every related key is already present, leaving `included` unchanged, and otherwise raises the constructor's ArgumentError |
| JsonApiRelationship.AddIncludedOk | lib/json_api/relationship.rb:23-33 | the loop succeeds iff every related record it has to add (its key neither present nor an earlier record's) can be constructed and serialized |
| JsonApiRelationship.AddIncludedError | lib/json_api/relationship.rb:23-33 | a raising loop raises the error of the first record it has to add that cannot be serialized |
| JsonApiRelationship.AddIncludedKeys | lib/json_api/relationship.rb:21-34 | after a successful loop, keys stay distinct and the new keys are exactly the related records' keys not yet present, in order, each once |
| JsonApiRelationship.AddIncludedCovers | lib/json_api/relationship.rb:23-33 | after a successful loop, every related record is under its "type-id" key |
| JsonApiRelationship.AddIncludedValues | lib/json_api/relationship.rb:28-32 | each new entry is what the related serializer made of a related record, under that record's key |
| JsonApiRelationship.TypelessIncludeRaises | lib/json_api/relationship.rb:26-32 | a related class without a type raises "… does not have a type specified" as soon as one related record has to be added; when every key is present `included` is unchanged |
| JsonApiRelationship.EnumerableRelated | lib/json_api/relationship.rb:22 | a to-one walks its one record, a to-many its collection; a wrong shape raises |
| JsonApiRelationship.Assemble | lib/json_api/relationship.rb:36-40 | the object holds links, meta and data exactly when given and not nil, each with its given value |
| JsonApiRelationship.SerializeMeta | lib/json_api/relationship.rb:59-65 | no option, or a nil or false literal, gives nil; a callable gives whatever it returns; any other literal is kept |
| JsonApiRelationship.FalseMetaLiteralOmitted | lib/json_api/relationship.rb:36-40 | a literal `meta: false` renders no meta member, while a callable renders one exactly when it returns something other than nil |
| JsonApiRelationship.SerializeLinks | lib/json_api/relationship.rb:45-57 | the same link names in the same order, each value called, sent or kept; fails iff a symbol has no reader |
| JsonApiRelationship.ValueFor | lib/json_api/relationship.rb:18-41 | `included` is threaded iff requested and then extended by the related records, and an error while filling it is raised; data appears iff the related value is non-nil; links iff the option is set; meta iff the option is set and truthy and its value is not nil |
| JsonApiRelationship.NilToOneRaisesOnlyWhenIncluded | lib/json_api/relationship.rb:21-39 | a nil to-one relation raises when being included, and otherwise renders without data |
| JsonApiSerializer.NewSerializer | lib/json_api/serializer.rb:88-101 | construction succeeds iff the class has a type, keeping its arguments; otherwise ArgumentError naming the class |
| JsonApiSerializer.FilterAllowableFields | lib/json_api/serializer.rb:180-190 | an entry survives iff it is in the fieldset (when present) and allowed by the hook (when defined), never duplicated |
| JsonApiSerializer.EmptyFieldsetKeepsAll | lib/json_api/serializer.rb:182 | an empty fieldset filters nothing |
| JsonApiSerializer.SparseFieldsetSelects | lib/json_api/serializer.rb:182 | a non-empty fieldset keeps exactly the declared names it lists |
| JsonApiSerializer.AttributesOf | lib/json_api/serializer.rb:148-150 | fails iff some attribute raises; otherwise the shown attributes, each with its value, in declaration order |
| JsonApiSerializer.SerializeAttributes | lib/json_api/serializer.rb:145-151 | the allowed attributes rendered; a class without attributes raises |
| JsonApiSerializer.RelationshipStep | lib/json_api/serializer.rb:156-163 | a relationship at the top of the include tree extends `included` with its related records; any other leaves it alone |
| JsonApiSerializer.StepIncluded | lib/json_api/serializer.rb:156-163 | a step keeps keys distinct and covers a requested relationship's records |
| JsonApiSerializer.RelationshipsOf | lib/json_api/serializer.rb:153-164 | one member per relationship, in order; `included` only grows, and stays the same without include requests |
| JsonApiSerializer.RelationshipsDistinct | lib/json_api/serializer.rb:153-164 | included keys stay distinct through the loop |
| JsonApiSerializer.RelationshipsCover | lib/json_api/serializer.rb:153-164 | afterwards every requested relationship's records are included |
| JsonApiSerializer.ResourceObject | lib/json_api/serializer.rb:130-140 | type, string id and attributes first, then relationships, meta and links exactly when given |
| JsonApiSerializer.RelationshipsPart | lib/json_api/serializer.rb:136 | relationships are rendered iff the class declares any |
| JsonApiSerializer.SerializeDataObject | lib/json_api/serializer.rb:128-141 | succeeds iff attributes and relationships do; type, string id, attributes, then optional members per declaration |
| JsonApiSerializer.DataObjectIncluded | lib/json_api/serializer.rb:128-141 | one record extends `included`, keeps keys distinct and covers its requested relationships |
| JsonApiSerializer.DataObjects | lib/json_api/serializer.rb:110 | one data object per record; `included` only grows |
| JsonApiSerializer.DataObjectsIdentify | lib/json_api/serializer.rb:110 | the i-th data object is the i-th record's, of the serializer's type |
| JsonApiSerializer.DataObjectsDistinct | lib/json_api/serializer.rb:110 | keys stay distinct across a collection |
| JsonApiSerializer.DataObjectsCoverAt | lib/json_api/serializer.rb:110 | the final `included` covers every record's requested relationships |
| JsonApiSerializer.PrimaryData | lib/json_api/serializer.rb:110 | a collection gives an array of the records' objects, one record gives its object; a shape mismatch raises |
| JsonApiSerializer.IncludedMember | lib/json_api/serializer.rb:112-116 | present iff records were collected or inclusion was requested, listing the collected objects in order |
| JsonApiSerializer.TopLevel | lib/json_api/serializer.rb:104-121 | data first, then included, meta and links exactly when given |
| JsonApiSerializer.Serialize | lib/json_api/serializer.rb:103-122 | nil gives only data ([] or null); otherwise data first, then included as above, and meta and links exactly when given and truthy, each with its given value |
| JsonApiSerializer.FalsyTopLevelOmitted | lib/json_api/serializer.rb:118-119 | document-level meta or links given as nil or false render no member; a truthy value is rendered as given |
| JsonApiSerializer.NoIncludeNoIncluded | lib/json_api/serializer.rb:112-116 | with no include request and nothing handed in, no `included` member |
| JsonApiSerializer.IncludeRequestedGivesIncluded | lib/json_api/serializer.rb:114-115 | an include request always yields `included`, even empty |
| JsonApiSerializer.CompoundDocument | lib/json_api/serializer.rb:103-122 | each included record appears once, and every requested related record of every primary record is included |

## Left out

- SQL semantics are not modelled: `time_bucket_gapfill` alignment, `percentile_cont`, `COUNT(DISTINCT …)`, the `row_number()` CTE and Arel. Store answers are input rows.
  - The GROUP BY's one-row-per-key guarantee is a precondition of the merge lemmas.
  - Rows that tie under an ORDER BY keep their stored order; the database leaves their order open.
- Kaminari is not modelled. The `paginate_array(records, total_count:)` wrapper at the end of the downsampled query is taken to return the fetched page unchanged, with its total. Paging is "skip per_page·(page − 1), take per_page". Kaminari's own clamping of page 0 is not modelled; `page` is never below 1 here anyway.
- The timing parts of the Sidekiq pieces are left out: Redis, `Sidekiq::Paginator`, the job-set objects and queue sizes. A job lookup is a function parameter, and clearing a queue is recorded as an effect.
- Clocks and parsing are parameters. This covers `Time.now`, `1.month.ago` (a calendar month), `Time.zone.parse`, `Float()` on text other than digit runs, PostgreSQL's text-to-numeric cast and `String#to_f`.
- TimespanHelper.ParamToDate: `Float()` on text is a parameter. So is which text it accepts (decimals, exponents, padding, underscores) and its rounding to a `Time`. Only digit runs are read concretely.
- Floating point is not modelled: readings and percentiles are reals, and NaN and Infinity are not modelled.
- Trace times are integers. The `TraceSpan` type is not part of this model; its fields are taken from their use in trace.tsx.
- `localeCompare` on span names is approximated by code-unit order.
- Object.keys lists integer-like keys in ascending order. The model keeps insertion order for the span-map keys and for `nameMap`.
- `activeSpan` and the trace UI are left out. So are React components, routes, pickers, throttle and debounce, the host-metric paging loop and `fetchHistory`'s re-arming of the poll timer; timers are opaque handles.
- The duplicated page cursors of the other stores are the same code as `incrementPage`/`decrementPage` and are covered by them.
- JavaScript `Date` range limits and `parseInt` on very long digit runs are not modelled.
- `setSpanAsTimestamps` takes integer seconds.
- Case folding in the queue-name regex covers ASCII letters only.
- `includes` is SameValueZero; it is modelled as equality.
- Link values are modelled as functions of the record and the related value, and `link.rb` blocks as such functions. Nested serializers are reduced to their class name, their type and a data-object function that may raise. A related class without a type raises in its constructor. Any other failure of the nested serializer, such as a class without attributes, is what that function returns.
- JsonApiSerializer.CompoundDocument: only the first level of include paths reaches `included`. relationship.rb:28-32 hands the nested include tree and the shared `included_records` to the related record's serializer. Its own related records, such as the posts of "author.posts", would be added there ahead of the related record's entry. The model's data-object function takes neither, so those records are not modelled. RelationshipsCover is stated for the first level likewise.
- BaseCommand.Execute: base_command.rb:14 raises a bare `AlreadyExecuted`, while lines 23 and 29 name `CommandErrors::`. The error classes are not part of this model. Without a top-level `AlreadyExecuted` constant, a second call would raise NameError instead. The model records AlreadyExecuted. Either way the second call raises and does not run the body.
- JsonApiSerializer.AttributesOf: attributes are decided with the corrected `:if` reading (JsonApiAttribute.ShouldInclude). In the code as written, `if: :published` raises ArgumentError (see "## Findings"); here the attribute renders when `published` is truthy.
- JsonApiSerializer.SerializeAttributes: uses the same corrected `:if` reading as AttributesOf.
- HostMetrics.Listing: the outer SELECT at list_host_metrics.rb:59-64 has no ORDER BY. The model assumes the page comes back in the window's time order.
- `meta` blocks on serializers and `serialize_meta_object` are functions of the record.
- The job listing is not scoped to a project, as in the code. The id-0 root adoption in `spanMap` is proved rather than corrected.
- The list, delete and pghero commands and controllers other than Sidekiq's are not part of this model.
- TimespanHelper.ConvertTimespanToTimes: its own contract states only that non-custom spans succeed and end now. The exact preset values, the unknown-type fallback and the custom defaults are in PresetSpans, UnknownSpanIsPrevDay, CustomDefaults and CustomUnordered.
- ApiRequestList.StatusesToRange: its contract states soundness (every range comes from an input label). Order preservation and the dropping of unknown labels are stated by StatusesToRangeDistributes and StatusesToRangeSingle.
- TimespanStore.SpanSizeInMin: for a custom span with dates only the open-open case is stated. Other custom sizes depend on the clock and on floating-point division.

## Findings

| source | as written | input that shows it | evidently intended | confidence | as-written member | corrected member |
|---|---|---|---|---|---|---|
| lib/json_api/attribute.rb:27-28 | `when :symbol` compares the option with the literal symbol `:symbol` | `attribute :title, if: :published` raises ArgumentError for every record | `when Symbol`: send the symbol to the record and include iff truthy | high (not executed) | JsonApiAttribute.ShouldIncludeAsWritten | JsonApiAttribute.ShouldInclude |
| app/controllers/api/sidekiq_controller.rb:144 | `render … if invalid` has no `and return`, so `queue.clear` still runs | `DELETE` on queue id "a b" clears that queue, then renders twice (DoubleRenderError) | a bad name stops at the 404 and clears nothing | high (not executed) | SidekiqController.ClearQueueAsWritten | SidekiqController.ClearQueue |
| app/controllers/api/sidekiq_controller.rb:134 | same guard without `and return` in show_queue | `GET` on queue id "a b" renders 404, then renders the queue (DoubleRenderError) | a bad name gets only the 404 | high (not executed) | SidekiqController.ShowQueueAsWritten | SidekiqController.ShowQueue |
