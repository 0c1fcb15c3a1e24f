# Verified model of Skaldberg

Skaldberg is a time-series database with two hard cores, and this project models
both in Dafny 4.11.

**Ingest durability.** A handler appends a batch to a rotating write-ahead log,
syncs it, and then inserts it into an in-memory buffer. A flusher takes the buffer,
commits the samples table and then the series table, and deletes finished log files
up to the highest record number it took. A restart rescans the log, seeds the known
series from the catalogue and replays. `WalFormat` is the byte format of a log file,
`WalLog` the directory and the writer's position in it, `WalRuns` a whole log cut at
any byte, `WalWriter` the classes over them, `IngestBuffer` and `Flush` the accumulator and what a flush writes, `Service`
the calls. `Protocol` is the step machine in which appends, inserts, takes, the two
commits, failures, truncations, crashes and reopens interleave freely; the
`Protocol...` modules prove what holds over every run of it, under hypotheses on the
run each of which has a run that shows it is needed, or, for the bound on duplicates,
under none. `Validate` is the way in: which samples are
accepted, and what a series id identifies.

**PromQL evaluation.** The operators exist twice, over instant and over range
vectors, and a third time as relational plans. `Vectors`, `Aggregate`, `TopK`,
`TopKRange`, `TopKLoops`, `Histogram`, `HistogramLoops`, `Quantile` and `Binary` are
the operators as written, loops included; `RangeLifting` proves for every tree of
them that a range query is the instant query at every timestamp, and `RangeWitness`
and `QuantileWitness` show where its condition on ties is needed. `Selector`,
`Pushdown`, `HistogramPlan` and `HistogramPushdown` are the plans as functions over finite relations, with
the exact conditions under which they agree with the operators. `Counter`, `EvalGrid`
and `Matrix` are the range functions, the evaluation grid and its windows;
`StringKeys` the strings that stand for label sets; `Reaggregate` aggregation in two
stages. `Orders`, `Sorting`, `Delimited`, `Bytes` and `Wrappers` are the common
ground: BTreeMap order as the ascending listing under any strict total order,
`sort_by` as a stable sort, little-endian integers.

Sample values are real numbers; a bucket edge, and the answer of a quantile, is a real
or +Inf, and `FiniteAnswers` are the answers a further operator can take. The checksum, the
hash behind series ids, UTF-8, the payload codec, f64 division, remainder and power,
the reading of `le` labels and the orders of label maps and strings are parameters;
what is assumed of each is stated where it is used: of the codec only that the batches
a run appends read back, of the hash only what it does on the series that are stored.
The clock is a parameter, and so
is whether a table accepts a commit.

Where the code and its documentation differ the model follows the code: a file that
ends inside a header is read as a clean end and replay goes on with the next file,
although the module comment of `src/ingest/wal.rs` says that a torn write is caught
at any position; `rate` does not extrapolate; record numbers may start over at 1
after a reopen, so the protocol tells records apart by an id of their own.

## Results that are not as promised

- An append behind a torn tail is lost to replay, whatever its checksum:
  `WalFormat.AppendIsReadIffClean` gives the exact condition for one append of
  unknown content, `ProtocolWitness.TornTailLoses` a run.
- An acknowledged record can be lost when a record with a lower number waits to be
  inserted at a take, when two flushes overlap, or after a failed flush:
  `WaitingBelowLoses`, `OverlapLoses`, `FailureLoses`.
- A reopen that cannot read the catalogue writes second rows for series:
  `UnseededReopenDuplicates`.
- Label values may contain a zero character, and then two accepted series can share
  an id whatever the hash: `ZeroInValueCollides`.
- `topk` over `topk` with tied values keeps different series in a range query and in
  an instant query: `NestedTiesDiverge`; the cut does not depend on the order of its
  input exactly when it is clean: `CutFixedIffClean`.
- `histogram_quantile` over `bottomk` with two edges that read alike, such as `1` and
  `1.0`, answers differently in a range query and in an instant query:
  `TiedEdgesDiverge`.
- `count` without grouping gives a zero row in the plan and nothing in the operator
  when the selection is empty: `AggregatePushdownIff`. The `without` plans lose the
  series that keep no label: `WithoutPushdownIff`.
- The histogram plan takes the largest count for the total and answers for a single
  bucket; the operator takes the last count and wants two buckets. On rising positive
  edges they agree exactly when no positive count exceeds the last one and the group is
  not a single filled bucket: `PlanAgreesIff` for one group, `HistogramSqlIff` for the
  whole plan.
- A sample exactly one range before an evaluation is seen by the instant form only:
  `SeenAlikeIff`, `EdgeSampleDiffers`. Where chrono cannot represent an end of the query
  its SQL literal is the epoch, and the filter over the whole query can drop samples an
  evaluation needs: `PrefilterDropsNothing` has the exact condition.
- `name=""` on a missing label does not match in SQL and does in `match_label`:
  `MatchersAgreeIff`.
- A range query whose end is the largest 64-bit number is refused whatever its step:
  `EvalTimes`.

## Model

| member | source | states |
|---|---|---|
| WalFormat.TornTailRecovery | src/ingest/wal.rs:205-249 | for any records and any byte cut of their file, reading yields exactly the records whose frames end at or before the cut, with their numbers, and the scan for the highest number agrees |
| WalRuns.LogRecovery | src/ingest/wal.rs:69-249 | payloads appended from an empty directory under any rotation threshold, the log cut at any byte: replay yields exactly the payloads whose frames end at or before the cut, numbered from 1, and the reopened writer goes on with the next number |
| WalFormat.RoundTrip | src/ingest/wal.rs:102-130 | an uncut file reads back as the very records written, with a clean end |
| WalFormat.AppendIsReadIffClean | src/ingest/wal.rs:102-130 | an append to a file of any bytes is read back, whatever its content, exactly when the file's reading ends clean |
| WalFormat.AppendLostWhenTorn | src/ingest/wal.rs:205-249 | behind a torn tail some payload is not read back |
| WalFormat.ScanCoversParse | src/ingest/wal.rs:280-302 | the scan that ignores checksums sees at least every number the reader yields |
| WalFormat.LengthMisread | src/ingest/wal.rs:205-249 | leftover header bytes give the next frame a wrong length |
| WalLog.AppendOk | src/ingest/wal.rs:102-143 | an append behind a clean tail, rotating or not, keeps record numbers ascending in reading order below the next number, and the current file the last |
| WalLog.CrashOk | src/ingest/wal.rs:102-130 | a crash at any byte of an append keeps every readable record and adds the new one only when all of it got out |
| WalLog.ReopenOk | src/ingest/wal.rs:69-98 | a reopen continues in the last file with a next number above every recovered one |
| WalLog.LogOrder | src/ingest/wal.rs:186-249 | replay of all files in file order yields strictly increasing numbers below the next one, and exactly the records of the files |
| WalLog.TruncateOk | src/ingest/wal.rs:147-159 | truncation, complete or interrupted, keeps the log invariant |
| WalLog.TruncateRemovesPrefix | src/ingest/wal.rs:147-159 | what truncation removes is a prefix of the replay without a number above the bound, and never the current file |
| WalWriter.ScanMaxRecordSeq | src/ingest/wal.rs:280-302 | the read loop returns the largest number among whole frames |
| WalWriter.WalWriter.OpenWithRotation | src/ingest/wal.rs:69-98 | the opened writer's fields and directory are those of the specified open |
| WalWriter.WalWriter.Append | src/ingest/wal.rs:102-130 | the refusal of an oversized payload changes nothing; otherwise the new state, rotation included, is the specified one |
| WalWriter.WalWriter.Rotate | src/ingest/wal.rs:132-143 | the next file is current and empty unless it existed |
| WalWriter.WalWriter.TruncateThrough | src/ingest/wal.rs:147-159 | exactly the deletable files are gone |
| WalWriter.WalIter.Open | src/ingest/wal.rs:186-199 | the iterator starts before the whole replay |
| WalWriter.WalIter.Next | src/ingest/wal.rs:205-249 | each call yields the next record of the replay; it reports an error or the end exactly when the replay does |
| Validate.CheckLabels | src/ingest/validate.rs:55-64 | the first bad label in iteration order decides the error; otherwise all labels are kept |
| Validate.ValidateSample | src/ingest/validate.rs:47-104 | accepted exactly when metric, labels, value and time are acceptable; which error comes first; the accepted sample's fields |
| Validate.DeriveSeriesId | src/ingest/validate.rs:121-134 | the loop hashes the specified byte string, and the id is a non-negative i64 |
| Validate.PreimageInjective | src/ingest/validate.rs:114-132 | without zero characters the hashed bytes determine metric and labels |
| Validate.SeriesIdIdentifies | src/ingest/validate.rs:114-134 | in any finite set of stored series without zero characters, ids identify series exactly when the hash keeps the upper 63 bits of their byte strings apart |
| Validate.ZeroInValueCollides | src/ingest/validate.rs:121-134 | two different accepted series with one preimage |
| Validate.AcceptedWindow | src/ingest/validate.rs:77-92 | under any sane clock acceptance is the hour behind and the five minutes ahead, and microseconds are exact |
| IngestBuffer.DayIsFloor | src/ingest/buffer.rs:169-175 | a sample's day is the floor of its timestamp over a day, negatives included |
| IngestBuffer.AddBatchHolds | src/ingest/buffer.rs:88-122 | inserting a batch keeps the buffer an exact account of its batches: rows by multiplicity, counters, highest number, first-seen metadata |
| IngestBuffer.BufferRefinesLog | src/ingest/buffer.rs:88-166 | over any inserts and takes the snapshots and the rest hold everything inserted exactly once; each is exact for the batches of its own interval, counters and highest number included; each unseeded series is emitted in one place, with the first metadata ever inserted for it |
| IngestBuffer.Buffer.InsertBatch | src/ingest/buffer.rs:88-95 | the loop adds every sample and raises the highest number |
| IngestBuffer.Buffer.InsertOne | src/ingest/buffer.rs:97-122 | one sample goes under its day and series, and its metadata is new unless known |
| IngestBuffer.Buffer.Take | src/ingest/buffer.rs:144-166 | the snapshot is the whole buffer; what stays is empty and knows its series |
| Flush.FlushWritesSnapshot | src/ingest/flush.rs:125-137 | a flush writes each row exactly as often as the snapshot holds it |
| Flush.FlushPartitions | src/ingest/flush.rs:125-137 | each file is sorted by series and time, and a row's partition value is the floor of its timestamp over a day |
| Flush.BuildSamplesBatch | src/ingest/flush.rs:245-273 | the three column builders spell the specified rows |
| Flush.FlushSamples | src/ingest/flush.rs:125-137 | the per-day loop writes the specified files |
| Service.IngestService.Open | src/state.rs:69-83 | seeding, opening and replay give the specified service |
| Service.IngestService.ReplayLog | src/state.rs:122-142 | the buffer gets every decodable replayed record, the count is exact, and the loop stops at a read error |
| Service.IngestService.AppendValidated | src/ingest/service.rs:71-87 | log and buffer after the call, the error case, and when the flusher is woken |
| Service.IngestService.FlushTables | src/ingest/flush.rs:62-86 | samples before series; what each table gains by how the commits end |
| Service.IngestService.FlushOnce | src/ingest/service.rs:106-146 | nothing for an empty buffer; otherwise the state by outcome, truncation only after both commits |
| Service.AppendIsSteps | src/ingest/service.rs:71-87 | an append call is two steps of the protocol |
| Service.FlushIsSteps | src/ingest/service.rs:106-146 | a flush call is the protocol's take, commits and truncation or failure |
| Service.OpenIsStep | src/state.rs:69-83 | a restart is the protocol's reopen, with the same log and buffer |
| ProtocolLog.LogInvAlways | src/ingest/wal.rs:69-159 | over every run that does not write behind torn bytes, whatever the codec does with other batches than those appended, the bytes on disk are exactly the appended entries of the live files |
| ProtocolLog.RecoveredIsLive | src/state.rs:122-142 | replay recovers exactly the entries of the live files |
| ProtocolTables.TableInvAlways | src/ingest/flush.rs:62-86 | over every run the samples table is exactly the rows of the committed entries, with multiplicity, and every snapshot is exact |
| ProtocolDurability.CrashDurability | src/ingest/service.rs:71-146 | over every run that meets the hypotheses each acknowledged entry is committed, with its rows in the table, or recovered by a replay of the bytes on disk |
| ProtocolDurability.CrashAndReplayLoseNothing | src/state.rs:69-83 | a crash at any point of such a run, even inside one more append, followed by reopen and replay, leaves it committed or in the buffer |
| ProtocolWitness.WaitingBelowLoses | src/ingest/service.rs:71-87 | a run that loses an acknowledged entry when only the condition on waiting records fails, for any rotation size the batches fill |
| ProtocolWitness.OverlapLoses | src/main.rs:331-334 | a run that loses one when only flush overlap is allowed |
| ProtocolWitness.FailureLoses | src/ingest/service.rs:106-133 | a run that loses one when only a failed flush is allowed |
| ProtocolWitness.TornTailLoses | src/ingest/wal.rs:69-130 | a run that loses one when only an append behind a torn tail is allowed |
| ProtocolCatalogue.NoDuplicateSeries | src/ingest/buffer.rs:97-153 | when every reopen reads the catalogue no run leaves two rows for one series id, not with failed or overlapping flushes or crashes |
| ProtocolCatalogue.CommittedSamplesCatalogued | src/ingest/flush.rs:67-73 | each committed sample's series has a row, or one is pending, or after a crash or failure its record is still live |
| ProtocolSeedWitness.UnseededReopenDuplicates | src/state.rs:69-75 | a run with one unreadable catalogue that writes a second row for a series |
| ProtocolDuplication.DuplicationBound | src/state.rs:122-142 | over every run, torn tails, overlaps and failures included, the samples of each append are committed at most once more often than there were crashes |
| Aggregate.AggregateInstantPoints | src/prometheus.rs:1528-1548 | the grouping loop gives one nameless point per group in label order |
| Aggregate.AggregateRangePoints | src/prometheus.rs:3109-3142 | the grouping and alignment loops give one series per group with points |
| Aggregate.AggPermutes | src/prometheus.rs:4687-4701 | a group's aggregate does not depend on the order of its values |
| Aggregate.AggregateLifts | src/prometheus.rs:3109-3142 | range aggregation at a timestamp is instant aggregation of the slice, as sequences, for any input |
| Aggregate.AggregatePermutes | src/prometheus.rs:1528-1548 | the result does not depend on the order of the input vector |
| Aggregate.AggregateWellFormed | src/prometheus.rs:3109-3142 | the output has one series per retained label set and one value per timestamp |
| Reaggregate.TwoStages | src/prometheus.rs:4687-4729 | sum, min, max and summed counts by a finer grouping and then a coarser one equal the direct aggregation |
| Reaggregate.CoarserModifiers | src/prometheus.rs:4706-4729 | which modifiers are coarser: fewer labels kept, more dropped, none |
| TopK.TopKInstantPoints | src/prometheus.rs:3148-3178 | the loop gives the ranked cut of every group, groups in label order |
| TopK.TopKCutsEachGroup | src/prometheus.rs:3148-3178 | in each group exactly min(n, members) points survive unchanged and each ranks at least as high as every dropped one |
| TopKOrder.CutFixedIffClean | src/prometheus.rs:3163-3176 | the cut is the same for every order of distinct members exactly when the values at its edge differ |
| TopKOrder.TopKPermutes | src/prometheus.rs:3148-3178 | with clean cuts the survivors do not depend on the order of the input |
| TopKLoops.TopKRangePoints | src/prometheus.rs:3184-3243 | the loops over groups, timestamps and members build the specified series |
| TopKRange.TopKLifts | src/prometheus.rs:3184-3243 | the survivors at a timestamp are those of the instant operator on the slice |
| TopKShape.TopKRangeShape | src/prometheus.rs:3184-3243 | every output series is part of an input series in strictly ascending time, one per label set |
| Quantile.QuantileFromBuckets | src/prometheus.rs:4164-4210 | the three loops return the specified answer for every quantile |
| Quantile.QuantileAnswers | src/prometheus.rs:4191-4209 | strictly between 0 and 1 an answer always exists, it is the interpolation in the first crossing bucket, and the guard against an empty bucket never fires |
| Quantile.AnswerInBucket | src/prometheus.rs:4191-4209 | the answer lies in the crossing bucket, and is its lower edge when the bucket is unbounded |
| Quantile.AnswerMonotone | src/prometheus.rs:4191-4209 | a larger quantile has no smaller answer |
| Quantile.AnswerAtMostTop | src/prometheus.rs:4181-4189 | no answer below 1 exceeds the answer for 1 |
| Quantile.CountAtAnswer | src/prometheus.rs:4199-4205 | the interpolated cumulative count at the answer is exactly the target |
| Histogram.HistogramQuantileInstant | src/prometheus.rs:4072-4101 | the grouping loop gives one point per answered group, infinite answers included |
| HistogramLoops.HistogramQuantileRange | src/prometheus.rs:4103-4139 | the nested maps give one series per group with answers, infinite ones included |
| Histogram.HistLifts | src/prometheus.rs:4103-4139 | the range quantile at a timestamp is the instant quantile of the slice, infinite answers included |
| FiniteAnswers.AnswersFinite | src/prometheus.rs:4164-4210 | above quantile 0 and with distinct edges in every group no answer is infinite |
| Histogram.HistPermutes | src/prometheus.rs:4072-4101 | with distinct edges the result does not depend on the order of the input |
| HistogramPlan.PlanAgreesIff | src/prometheus.rs:674-700 | for 0 < q < 1 and rising positive edges, plan and operator agree on a group exactly when no positive count exceeds the last one and it is not one filled bucket |
| HistogramPlan.PeakedPlanAgreesIff | src/prometheus.rs:674-700 | for any sorted edges, equal and negative ones included, and a largest last count they agree exactly unless the group is one filled bucket |
| HistogramPlan.CumulativePeaksLast | src/prometheus.rs:678 | cumulative counts have their largest last |
| HistogramPlan.DifferentTotals | src/prometheus.rs:678 | one group with a larger earlier count, and the two answers it gets |
| HistogramPushdown.HistogramSqlIsHistInstant | src/prometheus.rs:638-704 | over the same per-series points, where no group has equal edges and every group is answered alike, the whole plan, group keys and representatives included, returns exactly the operator's points, in whatever order its window leaves tied rows |
| HistogramPushdown.HistogramSqlIff | src/prometheus.rs:638-704 | where the edges of every group rise from above zero, the two return the same points exactly when every group is answered alike |
| Binary.ScalarLifts | src/prometheus.rs:3952-3985 | a scalar operator on a range vector is the instant operator at every timestamp |
| Binary.ScalarPermutes | src/prometheus.rs:3372-3401 | it treats points one by one |
| Binary.ApplyVectorVectorInstant | src/prometheus.rs:3987-4020 | the index and the matching loop give the specified points |
| Binary.ApplyVectorVectorRange | src/prometheus.rs:4022-4066 | the index and the nested matching loops give the specified series |
| Binary.VectorLifts | src/prometheus.rs:4022-4066 | matching range vectors is matching what they show at every timestamp |
| Binary.VectorPermutes | src/prometheus.rs:3987-4020 | the result does not depend on the order of either side |
| RangeLifting.RangeIsInstantLifted | src/prometheus.rs:3109-4139 | for every tree of the operators as the Rust code runs them, what the range result shows at a timestamp is the instant result on the slices, in the same order unless `topk` decides it; nodes that go to SQL plans are the subject of the plan rows |
| RangeLifting.TreeGood | src/prometheus.rs:3109-3243 | every operator preserves distinct labels, distinct timestamps and telling keys |
| RangeWitness.NestedTiesDiverge | src/prometheus.rs:3184-3243 | equal values under two nested `topk` operators: the two queries keep different series |
| QuantileWitness.TiedEdgesDiverge | src/prometheus.rs:4103-4139 | equal edges under a quantile over `bottomk`: the instant query answers 1, the range query 0.15 |
| StringKeys.PairListInjective | src/prometheus.rs:4972-4975 | without commas in values the joined pairs determine the labels |
| StringKeys.SeriesKeyInjective | src/prometheus.rs:4972-4975 | the series key determines metric and labels |
| StringKeys.CommaCollides | src/prometheus.rs:4972-4975 | a comma in a value makes two label sets share their list |
| StringKeys.WithoutKeyGroups | src/prometheus.rs:1978-1990 | the plan's key groups exactly as the retained labels do, and is missing exactly when no label is left |
| Selector.InstantSelector | src/prometheus.rs:266-292 | the loop returns the latest row of each series key in key order |
| Selector.LatestByKeyExact | src/prometheus.rs:266-292 | these are exactly the latest samples of the selected series |
| Selector.LatestByIdExact | src/prometheus.rs:1868-1880 | so are the rows with number one per series id |
| Selector.MatchersAgreeIff | src/prometheus.rs:4830-4898 | the SQL predicate and the label match differ exactly for an empty value on a missing label |
| Pushdown.SelectionsAgree | src/prometheus.rs:1868-1880 | both selections hold the same points |
| Pushdown.AggregatePushdownIff | src/prometheus.rs:1816-1930 | the plan returns the operator's points for every `by` list and no modifier, except exactly for a count without grouping over nothing |
| Pushdown.WithoutPlanIsOperator | src/prometheus.rs:1967-2031 | the `without` plan returns the operator's points but for the label-less group |
| Pushdown.WithoutPushdownIff | src/prometheus.rs:1940-2033 | they agree over a database exactly when every selected series keeps a label |
| Counter.NeverOvercounts | src/prometheus.rs:772-804 | for any history of a counter the computed increase is at most what was counted between first and last sample |
| Counter.ExactWithoutRestart | src/prometheus.rs:772-804 | it is exact without a restart in between |
| Counter.IncreaseIsNetPlusDropped | src/prometheus.rs:788-792 | it is last minus first plus the values dropped at detected resets |
| Counter.IncreaseNonNegative | src/prometheus.rs:788-792 | it is not negative for samples that are not |
| Counter.IncreaseSplits | src/prometheus.rs:788-792 | it adds up over a window split at a shared sample |
| Counter.RateTimesSpan | src/prometheus.rs:772-803 | rate times the observed span is the increase, and both are answered for the same windows |
| EvalGrid.EvalTimes | src/prometheus.rs:882-892 | the loop ends for all inputs, answers exactly the requests that fit the cap, and then returns exactly the grid |
| Matrix.PrefilterDropsNothing | src/prometheus.rs:897-904 | for any request the filter over the whole query drops no sample an evaluation needs exactly when its two literals enclose the evaluation's window |
| Matrix.WindowsAgreeIff | src/prometheus.rs:1430-1442 | for any samples and request, instant and matrix window are the same exactly when both forms see the same of those samples |
| Matrix.SeenAlikeIff | src/prometheus.rs:1430-1442 | where chrono can represent the ends of the query they see the same timestamps but for the one exactly one range before the evaluation |
| Matrix.MatrixIsInstant | src/prometheus.rs:1422-1524 | for any request, if both forms see the same samples at each grid point, the matrix query gives there what the instant query gives |
| Matrix.MatrixIsInstantOffEdges | src/prometheus.rs:1422-1524 | where chrono can represent the ends that is so as long as no sample lies one range before a grid point |
| Matrix.EdgeSampleDiffers | src/prometheus.rs:310-319 | with such a sample the instant query answers and the matrix query does not |

## Left out

- ApplyAgg: an empty slice gives zero, where the code gives infinities for min and max; no group is ever empty.
- FiniteInstant: inside a tree of operators an infinite quantile is dropped, because the vectors between operators hold real values; it takes a quantile of at most 0 or two +Inf buckets in a group.
- Le: bucket edges of -Inf and NaN are not part of the model.
- Enabled: the appends and crashes of a run carry batches whose payload reads back as the batch, as the service's codec is there for; a logged batch that does not read back is skipped by replay in the code.
- AppendIsReadIffClean: the condition is for all payloads at once; a particular payload behind torn bytes may be read by luck.
- OverlapLoses: as in the other runs with lost entries, each batch fills a log file by itself, whatever the rotation size; smaller batches need more appends.
- TornTailLoses: the run tears a frame whose payload is longer than the next append's.
- MatrixWindow: the subtraction of the range inside the SQL text is on unbounded integers.
- OpenWithRotation: the file number and the byte counter of the writer are unbounded; the record number wraps as u64.
- InWindow: the lookback window is taken as it is; that a bound chrono cannot represent becomes the epoch in SQL is modelled in `Matrix` only.
- KeyedBuckets: the plan's cast of an `le` label and the operator's parser are one and the same parameter.
- ValidateSample: the hash-map order of labels is a parameter; which of several bad labels is reported depends on it.
- Truncation of the last file's tail is the only damage a crash does; bit flips, reordered writes and I/O errors inside append or rotate are not modelled.
- `range_selector`: it returns raw samples, not the latest one at each step; the leaves of `RangeLifting` are arbitrary vectors, so the lifting is a statement about operators.
- NaN, infinities as samples, rounding and negative zero: values are real numbers.
- Regular-expression matchers, the PromQL parser, JSON encoding and Arrow conversion.
- The plans for `topk`, for aggregates and quantiles over range functions as one statement, and for vector matching in SQL: they compose the parts modelled here.
- `irate` and `delta` are modelled in `Counter.RangeFn`; only the window results speak of them.
- DataFusion, Iceberg, Parquet and S3: a commit is one atomic append to a table, a SQL operator a function over rows.
- HTTP handlers, authentication, metrics, backpressure, timeouts and shutdown, except that the final flush can overlap the background one.
- `flush_series` column building and the rewriting of label maps for Arrow.
