# EchonetGO: a verified model

EchonetGO polls ECHONET Lite devices over UDP, keeps their metrics in a cache, takes commands from MQTT and publishes
state back to it. This project models the parts of it whose correctness depends on more than one function, and proves
what they guarantee for every input, every device and every interleaving. `dafny verify dfyconfig.toml` checks all of
it.

## How the model is built

* **Values and loops.** Code that works by changing things is imperative here too: classes hold the fields the source
  guards with its locks, loops are loops, and each method's contract ties its result or the new state to a function
  of the old one. The theorems are lemmas about those functions.
* **The device is an oracle.** `Client.Network` says what comes back for the n-th Get and its list of codes. It may
  answer the same question differently every time, partially, with garbage or not at all.
* **Interleavings are lists of actions.** The transport, the reconciler and the publish pipeline are systems of
  atomic steps (one lock section, channel operation or goroutine phase each). An action that is not enabled changes
  nothing, so a theorem about every list of actions is a theorem about every run. The classes `Transport`,
  `Publisher` and `CapabilityReconciler` carry the same tables as the program; `Shows` relates them to a state of the
  system, and each method says which steps it takes.
* **Cache runs are lists of operations.** Every critical section of the cache is one operation; `CacheRuns.Replay`
  folds a list of them. Methods that use the cache more than once take the operations of others in between as a
  parameter.

Files follow the source's: `Protocol`, `PropertyMap`, `Encoder`, `Metrics`, `Client` and `AdaptiveFetch` model
`internal/echonet` (with `Transport` and `TransportRuns`), `Specs` and `SuperClass` model `internal/specs`, `Cache`,
`CacheRuns`, `Scheduler`, `ScheduleRuns`, `Scrape`, `Reconciler` and `ReconcilerRuns` model `internal/poller`, and
`Commander`, `VerifiedSet`, `Publisher`, `PublisherRuns`, `PublisherShutdown` and `PublishedDevices` model
`internal/mqtt`. `Bytes`, `Numeric`, `Results` and `Sets` are shared vocabulary, and `Examples` works out entries of the
device definitions by hand.

## Main results

* **Adaptive fetch.** Against any device a fetch of n codes sends at most 2n - 1 requests and never more than 511, each
  a contiguous slice of the list; looking a code up in its result is looking it up in the plain concatenation of
  everything accepted, in request order, however many sub-requests failed; and a code the device returns when asked for
  alone is never lost to partial answers or to the depth limit.
* **Frames.** The parser is the inverse of the printer on the longest prefix that is a property list, and the only
  one; every builder's output is read back, exactly as long as the one-byte counts hold.
* **Numbers and labels.** Decoding an encoded value gives clamp(round(v / scale)) * scale. For a spec the loader
  accepts, every enum label survives the trip to the device's bytes and back. The scales for which decoding lands on
  the right multiple are characterised exactly.
* **Transport.** A Send returns only a datagram from its own host with its own TID; a host has at most one waiter,
  and registering one never overwrites another; a late answer is taken by a later request exactly when their
  counters agree modulo 2^16; every received datagram is in exactly one place, and notifications are read in order; no
  lock is held for more than six steps of its holder.
* **Cache and scheduling.** After any run a metric has the value of the last operation that stored it; what `Get`
  reports is a function of the device's own polls; a notification postpones polling of its code by at most three ticks
  of a ticker that runs late and two of one on time.
* **Verified SET.** At most one merge per command, always with the latest read, and before the last attempt only when
  every update came back byte for byte; what is then cached is the quantized number, the commanded label or the
  commanded switch position.
* **Reconciler.** Gate passes of one device are a minute apart from each other and from earlier refreshes, one body
  per device runs at a time, and so, although a body looks for a map in one step and records it in another, a map it
  records never replaces a recorded one as long as others record maps of the device only while no body asks for them;
  that condition is exact, and startup discovery meets it if no reconciliation of the device starts before its end.
* **Publish pipeline.** No wakeup and no update is lost in any interleaving, states of one device name are handed
  over in order, the drain at shutdown is complete, and the pipeline comes to rest by itself. For a device the same
  holds exactly when no other device has its name.

## Where code, comments and intentions differ

* `internal/echonet/transport.go:233` calls the TID monotonically increasing; it wraps at 2^16.
  `TransportRuns.CongruentAnswerIsTaken` shows what a late answer can do then.
* `internal/specs/loader.go:216-226` accepts scales below one within an absolute 1e-12 of a power of ten. From three
  decimals on that is too wide for four-byte values: `Encoder.ToleranceTooWide` gives a scale and a raw value that
  decode to the wrong multiple, and `Encoder.GridScaleIsExact` gives the exact condition.
* The device key joins name, address and class with `|`. `CacheRuns.KeysCanCollide` gives two devices with the same
  key; `CacheRuns.KeysAreDistinct` shows that it takes that character in two different fields, and
  `CacheRuns.KeyIsUnique` that a device shares its key with no other exactly when none of its fields contains it.
* A push or poll that brings a value but not its unit code is stored without the factor, with a warning in the log
  (`internal/echonet/client.go:313-315`): `Metrics.PushWithoutUnit` is such a push, `Metrics.FactorNeedsUnit` the
  exact condition.
* Startup discovery makes a device known (`internal/poller/scheduler.go:159`) before it records the maps (lines
  172-200), and a climate or light power command needs no more than that to start a reconciliation
  (`internal/mqtt/commander.go:342-343`, `587-588`). Discovery then records a map while a body asks for it, and the
  answer replaces it: `ReconcilerRuns.OutsideMapIsReplaced` has the steps of that run, `ReconcilerRuns.PoliteIsExact`
  the exact condition, and `ReconcilerRuns.DiscoveryIsPolite` shows that discovering a device once is otherwise safe.
* An eight-byte unsigned payload is read as signed (`Encoder.IntegerIsMathematical`).
* The reconciler means to record an empty map when a device refuses with Get_SNA
  (`internal/poller/reconciler.go:147-150`). The fetch absorbs Get_SNA, so that branch is never taken and the model
  does not have it: `Reconciler.MapNeedsData` says exactly when a map is recorded, and
  `Reconciler.RefusedMapIsNotRecorded` is such a refusal, byte for byte.
* States await publication by device name (`internal/mqtt/publisher.go:158`), while the cache tells devices apart by
  name, address and class, and configuration accepts two devices of one name (`internal/config/config.go:222-234`), also
  after it has replaced unsafe characters (lines 212-218). `PublishedDevices.SharedNameIsOverwritten` is a run in which
  the state of one is never handed over; `PublishedDevices.UpToDateExactlyWhen` gives the exact condition.
* A second metric of a skipped code still requests its own multiplier code, although it is not parsed
  (`internal/poller/scheduler.go:473-478`): `Scheduler.SkippedRequestsMultiplier` says when, and
  `Scheduler.MultiplierInVain` is an example in which nothing is polled.
* A pre-set is sent before the commanded value is checked, so an unknown option still sends it
  (`internal/mqtt/commander.go:249-294`): `Commander.PreSetAlone` says when only the pre-set is sent, and
  `Commander.UnknownOptionSendsPreSet` is an example.

## Model

| member | source | states |
|---|---|---|
| AdaptiveFetch.FetchIsComplete | internal/echonet/client.go:88-142 | For any device and at most 256 codes, one more than a frame can name, if every request of the fetch that names a code is answered, and the code is returned whenever it is asked for alone, then it is in the result, however partial the longer answers are and whatever happens to requests for other codes; the depth limit never loses one. |
| AdaptiveFetch.FetchRefinesConcatenation | internal/echonet/client.go:121-141 | For every device and every pattern of failed sub-requests, lookups in the result and in the concatenation of all accepted answers in request order agree, nothing is invented, the result is an error only if nothing was accepted, and both give the same metrics. |
| AdaptiveFetch.RequestBound | internal/echonet/client.go:88-142 | A fetch of n codes sends between 1 and 2n - 1 requests whatever the device answers, each a non-empty contiguous slice of the list. |
| AdaptiveFetch.RequestsAreLimited | internal/echonet/client.go:14-142 | However long the list, the depth limit of 8 keeps a fetch to at most 511 requests. |
| AdaptiveFetch.RequestBoundIsReached | internal/echonet/client.go:88-142 | For at most 256 codes, all that one byte can name, a device that answers everything with nothing makes the fetch reach 2n - 1. |
| AdaptiveFetch.SplitResultAscends | internal/echonet/client.go:389-400 | A result put together from several answers is strictly ascending in its codes. |
| AdaptiveFetch.SortedKeepsLookups | internal/echonet/client.go:369-400 | Merging with the first non-empty property winning, sorting and listing changes no lookup and leaves each code once. |
| AdaptiveFetch.AnswerNames | internal/echonet/client.go:88-105 | A code is in an accepted answer exactly when the datagram is a Get_Res that names it or a Get_SNA that gives data for it. |
| AdaptiveFetch.WithDataKeepsLookups | internal/echonet/client.go:97-105 | Dropping the empty properties of a Get_SNA changes no lookup. |
| Client.Client.GetPropsAdaptive | internal/echonet/client.go:88-142 | The recursive fetch returns the result and sends the requests of the fetch function, at every depth. |
| Client.Client.GetProps | internal/echonet/client.go:84-86 | The same from depth 0. |
| Client.Client.SendGet | internal/echonet/client.go:52-59 | An empty list is refused without sending; anything else is sent once and returns the network's answer. |
| Client.Client.Ask | internal/echonet/client.go:89-105 | One request and what is accepted from its answer. |
| Client.Client.AskWhole | internal/echonet/client.go:89-118 | The first request of a call, and whether its answer settles the call: a complete answer, one code, or the depth limit. |
| Client.Client.RetryHalves | internal/echonet/client.go:120-141 | The two halves are asked in order, each only if it lacks something, and merged after the first answer. |
| Client.Client.RetryHalf | internal/echonet/client.go:122-131 | A half that failed contributes nothing; a half that lacks nothing is not asked. |
| Client.KeepWithData | internal/echonet/client.go:97-105 | Keeps exactly the properties with data, in order. |
| Client.MissingEpcs | internal/echonet/client.go:329-341 | Exactly the requested codes without a property. |
| Client.ContainsAny | internal/echonet/client.go:356-367 | Whether the lists share a code. |
| Client.MergeProps | internal/echonet/client.go:369-387 | Merging into the table of what was seen gives the table of the concatenation. |
| Client.MergeAnswers | internal/echonet/client.go:121-141 | Three answers merged are their concatenation merged; an empty merge is an error. |
| Client.MapToProps | internal/echonet/client.go:389-400 | Every entry of the table once, by ascending code. |
| Protocol.ParseFrame | internal/echonet/protocol.go:127-153 | The parser loop computes the frame, or the error for a short datagram or wrong header. |
| Protocol.FrameOnTheWire | internal/echonet/protocol.go:127-137 | Where TID, service code and count are read, and which datagrams are refused with which error. |
| Protocol.AnswerOnTheWire | internal/echonet/protocol.go:127-153 | A concrete Get_Res of two properties, byte for byte. |
| Protocol.ReadProperties | internal/echonet/protocol.go:136-151 | The loop reads exactly the announced properties that are whole. |
| Protocol.ParserIsMaximalPrefixInverse | internal/echonet/protocol.go:127-153 | For every datagram with a valid header, a property list is the parser's result if and only if printing it gives back the bytes read, every PDC is the length of its EDT, it has at most OPC entries, and it has OPC entries or no whole property is left. |
| Protocol.TruncationGivesPrefix | internal/echonet/protocol.go:138-151 | Cutting a datagram to at least 12 bytes yields a prefix of the properties and the same TID and ESV. |
| Protocol.ParseInfFrame | internal/echonet/protocol.go:262-275 | The notification parser adds both objects to the frame. |
| Protocol.GetRequest | internal/echonet/protocol.go:55-68 | The Get builder's loop prints the header, byte for byte, and one empty property per code. |
| Protocol.GetRequestRoundTrip | internal/echonet/protocol.go:55-68 | A Get request parses to its TID, objects and codes in order exactly when it names at most 255 codes. |
| Protocol.SetRequestWith | internal/echonet/protocol.go:70-100 | The common layout of the SetI and SetC requests. |
| Protocol.SetIRequest | internal/echonet/protocol.go:70-84 | The SetI builder prints a header with its service code and one property. |
| Protocol.SetRequest | internal/echonet/protocol.go:86-100 | The same for the SetC builder. |
| Protocol.SetRequestRoundTrip | internal/echonet/protocol.go:70-100 | A SetI or SetC request parses to its TID and one property, whose data is the data sent exactly when that has at most 255 bytes. |
| Protocol.ParseSetRes | internal/echonet/protocol.go:112-124 | An answer accepts a write exactly when it parses and is a Set_Res. |
| Protocol.BuildInfcRes | internal/echonet/protocol.go:277-290 | The acknowledgement's loop prints the notification's properties under a response header. |
| Protocol.InfcResRoundTrip | internal/echonet/protocol.go:262-290 | The acknowledgement of any parsed notification parses to the same TID and properties, addressed to the sender, and its count byte never wraps. |
| Protocol.PropIsFirst | internal/echonet/protocol.go:198-205 | A lookup finds some data exactly when the first property with this code and any data at all has that data. |
| Protocol.PropConcat | internal/echonet/protocol.go:198-205 | In a concatenation the first list that has the code wins. |
| PropertyMap.DecodePropertyMap | internal/echonet/protocol.go:155-177 | The nested loops compute the set a property map stands for, in both formats. |
| PropertyMap.MapRoundTrip | internal/echonet/protocol.go:155-177 | Decoding the standard's encoding of any set of codes from 0x80 up gives exactly that set, as a list below 16 codes and as a bitmap otherwise. |
| PropertyMap.BitmapIgnoresTail | internal/echonet/protocol.go:166-176 | A bitmap names only codes from 0x80 up, and bytes past the seventeenth have no effect. |
| PropertyMap.ListedMap | internal/echonet/protocol.go:160-165 | A concrete map in list format. |
| PropertyMap.BitmapByte | internal/echonet/protocol.go:166-176 | Which bit of which byte stands for which code, with the bit's weight in numbers. |
| Encoder.ParseInteger | internal/echonet/encoder.go:49-65 | The shift loop on a 64-bit word with sign extension computes the integer, or the error for no bytes or more than eight. |
| Encoder.IntegerIsMathematical | internal/echonet/encoder.go:49-65 | The integer read is the two's-complement value of the bytes, except exactly for unsigned eight-byte payloads with the top bit set. |
| Encoder.ScaleRaw | internal/echonet/encoder.go:34-39 | Scaling, and rounding to the decimals of a scale below one. |
| Encoder.ParseEdt | internal/echonet/encoder.go:14-44 | Size and offset handling, the errors, the invalid sentinel and the scaled value. |
| Encoder.OffsetSelects | internal/echonet/encoder.go:14-30 | A metric with an offset reads its own bytes: what comes before and after them does not matter. |
| Encoder.SecondPhase | internal/echonet/encoder.go:26 | A concrete payload with two currents, of which the metric with offset 2 reads the second. |
| Encoder.ShortPayload | internal/echonet/encoder.go:14-25 | The errors for payloads that do not hold all bytes of the metric, and for automatic sizes above eight. |
| Encoder.EncodeValueToEdt | internal/echonet/encoder.go:70-117 | Refuses auto-sized and unsupported metrics; otherwise the nearest raw integer, clamped, in big-endian two's complement. |
| Encoder.NoScaleIsOne | internal/echonet/encoder.go:78-81 | A scale of zero stands for one. |
| Encoder.ClampRaw | internal/echonet/encoder.go:88-106 | Saturation at the limits of the size and sign. |
| Encoder.BigEndianBytes | internal/echonet/encoder.go:110-116 | Filling the array from its end writes the big-endian bytes. |
| Encoder.BytesRoundTrip | internal/echonet/encoder.go:107-116 | Every integer that fits 1, 2 or 4 bytes is read back from its bytes. |
| Encoder.ValueRoundTrip | internal/echonet/encoder.go:70-117 | Decoding an encoded value gives the clamped nearest multiple of the step, or the sentinel error exactly when that raw value is the sentinel. |
| Encoder.GridScaleIsExact | internal/echonet/encoder.go:34-39 | All raw values of a metric decode to their multiples of the step if and only if the scale's drift rounds away at the two extreme raw values. |
| Encoder.PowerOfTenIsExact | internal/echonet/encoder.go:35-39 | An exact power of ten does not drift and is its own step. |
| Encoder.AcceptedTwoDigitsIsExact | internal/specs/loader.go:216-226 | Every scale of at most two decimals that the loader accepts meets that condition. |
| Encoder.ToleranceTooWide | internal/specs/loader.go:216-226 | With three decimals an accepted scale can fail it: a concrete scale and raw value. |
| Encoder.NumericRoundTrip | internal/echonet/encoder.go:70-117 | For scales of at least one or powers of ten, parse(encode(v)) is clamp(round(v / scale)) * scale, or the sentinel error; for a value whose nearest raw integer does not fit int64 exactly when the integer that Go leaves to the platform clamps to the same raw value. |
| Encoder.QuantizedError | internal/echonet/encoder.go:82-106 | In range that is within half a scale unit of v; outside, the extreme value. |
| Encoder.QuantizedExactOnGrid | internal/echonet/encoder.go:82-106 | Multiples of the scale in range come back unchanged. |
| Encoder.QuantizedMonotone | internal/echonet/encoder.go:82-106 | Larger values never come back smaller. |
| Numeric.DigitsLeast | internal/echonet/encoder.go:36 | The digit count is the least d with scale * 10^d >= 1. |
| Numeric.RoundHalves | internal/echonet/encoder.go:37 | Halves are rounded away from zero. |
| Numeric.TruncateIsTowardZero | internal/echonet/client.go:319-323 | The value looked up among the labels is truncated toward zero. |
| Metrics.LookUp | internal/echonet/protocol.go:198-205 | The lookup loop. |
| Metrics.FindMultiplier | internal/echonet/client.go:306-317 | The factor named by the unit property, or 1. |
| Metrics.FactorNeedsUnit | internal/echonet/client.go:306-317 | For a metric with a multiplier on a device that reports in one unit, the value is decoded times the factor of that unit if and only if the properties include the unit code, or the factor changes nothing. |
| Metrics.PushWithoutUnit | internal/poller/cache.go:428-434 | A concrete push of a value without its unit code gives ten times the value that the push of both gives. |
| Metrics.ParsePropsToMetrics | internal/echonet/client.go:289-327 | The loop over specs computes the metrics of the properties. |
| Metrics.MetricsDependOnLookup | internal/echonet/client.go:289-327 | Property lists with equal lookups give equal metrics. |
| Metrics.LastOfNameWins | internal/echonet/client.go:289-327 | The result has exactly the names of specs that have a value, each with the value of the last such spec. |
| Metrics.MetricUnderItsName | internal/echonet/client.go:289-327 | A name carried by one spec only is present exactly when that spec has a value. |
| Specs.ParseMetricSpec | internal/specs/loader.go:166-281 | A rejection names a condition that holds; an accepted entry meets none of them and becomes its spec. |
| Specs.AcceptedExactlyWhen | internal/specs/loader.go:166-224 | An entry meets no rejection if and only if it meets the conditions written out in numbers. |
| Examples.RoomBecomes | internal/specs/loader.go:166-281 | A concrete entry that leaves out what can be left out, and the whole spec it becomes. |
| Examples.FlowBecomes | internal/specs/loader.go:166-281 | A concrete entry that uses everything, and the whole spec it becomes. |
| Examples.FieldRejections | internal/specs/loader.go:167-178 | Concrete entries with one fault each: size, type, code, offset. |
| Examples.OptionRejections | internal/specs/loader.go:185-240 | The same for the number range, the mode and the interval. |
| Examples.CodeRejections | internal/specs/loader.go:179-196 | The same for the multiplier and the pre-set. |
| Examples.ValueRejections | internal/specs/loader.go:197-226 | The same for labels and scales. |
| Specs.CheckFields | internal/specs/loader.go:167-204 | The checks on single fields, sound and complete. |
| Specs.CheckLabels | internal/specs/loader.go:200-215 | The enum is copied whole, or some label is empty or some raw value does not fit. |
| Specs.ReverseLabels | internal/specs/loader.go:246-249 | Every label maps to one of its raw values, whatever the iteration order. |
| Specs.FindMetricSpecByEpc | internal/specs/types.go:114-124 | The loop finds the first spec of a code; code 0 finds none. |
| Specs.FindMetricSpecByName | internal/specs/types.go:127-137 | The loop finds the first spec of a name; the empty name finds none. |
| Specs.FindByEpc | internal/specs/types.go:114-124 | What is found is the first spec with the code, and nothing is found only if no spec has it. |
| Specs.FindByName | internal/specs/types.go:127-137 | The same for names. |
| SuperClass.MergeSuperClass | internal/specs/loader.go:287-333 | The class's own metrics stay; appended, in order, is the first super class definition of each code it lacks, and nothing else, polled at its own interval if it has one, else at the device's, else every minute. |
| SuperClass.MissingCodes | internal/specs/loader.go:287-333 | What is appended names exactly the missing codes, each once. |
| Cache.Cache.Update | internal/poller/cache.go:215-255 | The new state, and what the subscriber is told, after a poll. |
| Cache.Cache.MergeMetrics | internal/poller/cache.go:389-408 | The same after a push or a verification read. |
| Cache.Cache.RecordPush | internal/poller/cache.go:338-349 | All codes of a push get the same time, others keep theirs. |
| Cache.Cache.ShouldSkipPoll | internal/poller/cache.go:360-383 | The skip decision. |
| Cache.Cache.Get | internal/poller/cache.go:166-201 | The aggregate over groups visited in any order: success, last success, duration of the latest attempt. |
| Cache.VouchesFor | internal/poller/cache.go:180-195 | A success counts for twice the interval of its group, and for at least five seconds. |
| Cache.Cache.FindDevice | internal/poller/cache.go:447-464 | The first configured device with this address and this known object is found; none is found if and only if none has them. |
| Cache.Cache.IngestNotification | internal/poller/cache.go:412-438 | The first matching device is chosen; push times of all codes are recorded and then, whatever others do to the cache in between, the metrics of all specs are merged and the subscriber is told, the latter two only if there are metrics; unknown devices change nothing. |
| Cache.PushedMetrics | internal/poller/cache.go:428-434 | Parsing only the specs of announced codes gives the metrics that all specs give. |
| Cache.Cache.UpdateInfo | internal/poller/cache.go:468-481 | Stores the identity, field by field, with the configured manufacturer and model for what the device does not report. |
| Cache.Cache.SetWritableEpcs | internal/poller/cache.go:125-129 | Records the SETMAP. |
| Cache.Cache.SetNotificationEpcs | internal/poller/cache.go:331-335 | Records the STATMAP. |
| Cache.Cache.TriggerUpdate | internal/poller/cache.go:289-300 | Tells the subscriber the current state. |
| CacheRuns.LastWriterWins | internal/poller/cache.go:215-255 | After any run a device has a metric with a value exactly when the last operation that stored this metric (a successful poll, or a merge) stored that value. |
| CacheRuns.SnapshotTellsHistory | internal/poller/cache.go:257-284 | In every run, what the subscriber is told of a device has each metric as the last operation that stored it left it, and the identity, specs and SETMAP recorded last. |
| CacheRuns.LookupsTellHistory | internal/poller/cache.go:325-383 | In every run the STATMAP, the object and forced polling are those recorded last. |
| CacheRuns.MetricsNeverDisappear | internal/poller/cache.go:389-408 | A metric once present stays present. |
| CacheRuns.StatusDependsOnPolls | internal/poller/cache.go:166-201 | Removing every operation that is not a poll of the device changes nothing Get aggregates. |
| CacheRuns.StatusReflectsPolls | internal/poller/cache.go:215-245 | A device has exactly the groups that were polled, each with the interval, duration, times, last error and number of failures that its polls give it. |
| CacheRuns.FailuresAreCounted | internal/poller/cache.go:215-245 | The failure count of a group is the number of polls since its last successful one. |
| CacheRuns.GetReportsHistory | internal/poller/cache.go:166-201 | On a clock that does not run backwards: last scrape is the time of the device's last successful poll, duration that of a group's last poll at the time of the device's last poll (the only one unless two groups were polled at the same instant), success exactly when the last poll of some group is a fresh success. |
| CacheRuns.MapsNeverRemoved | internal/poller/cache.go:125-129 | A SETMAP or STATMAP once recorded stays recorded, in every run. |
| CacheRuns.KeysAreDistinct | internal/poller/cache.go:62-64 | If in both devices no field but the same one holds a `\|`, they share a key exactly when name, address and class agree; so names may hold any character as long as addresses and classes hold no `\|`. |
| CacheRuns.KeyIsUnique | internal/poller/cache.go:62-64 | A device shares its key with no other exactly when none of its fields holds that character. |
| CacheRuns.KeysCanCollide | internal/poller/cache.go:62-64 | Two devices, one with `\|` in its name and one with it in its address, have the same key. |
| Scheduler.GroupByInterval | internal/poller/scheduler.go:226-233 | One group per interval that occurs, holding exactly its metrics in order; every metric is in the group of its own positive interval or else of the device's, and in no other. |
| Scheduler.PlanScrape | internal/poller/scheduler.go:457-479 | The planning loop computes the plan, with cache and clock free to change between two metrics. |
| Scheduler.PolledMetrics | internal/poller/scheduler.go:488-493 | The metrics whose code was not skipped, in order. |
| Scheduler.PlanGuarantees | internal/poller/scheduler.go:456-493 | Requested codes are distinct and disjoint from skipped ones; every polled metric has its code requested and its multiplier's requested or skipped; every other metric has a code announced by the device and pushed less than two intervals ago; nothing else is requested. |
| Scheduler.SkippedExactlyWhen | internal/poller/scheduler.go:462-472 | A code is skipped if and only if it may be skipped at the moment it first comes up. |
| Scheduler.SkippedRequestsMultiplier | internal/poller/scheduler.go:462-479 | A metric of a skipped code is not polled, but brings its new multiplier code into the requests if and only if its own code was skipped for an earlier metric. |
| Scheduler.MultiplierInVain | internal/poller/scheduler.go:462-479 | Two metrics of one skipped code: nothing is polled and yet a multiplier code is requested. |
| Scheduler.FreshlyNeededIsRequested | internal/poller/scheduler.go:462-479 | A code that could not be skipped at any moment of the scrape is requested. |
| Scheduler.ForcePollingSkipsNothing | internal/poller/cache.go:358-365 | With force polling every metric is polled. |
| ScheduleRuns.PushTimeIsLast | internal/poller/cache.go:338-349 | The recorded push time is that of the last push of the code in the run. |
| ScheduleRuns.SkipsByLastPush | internal/poller/cache.go:360-383 | The skip decision in terms of the whole run. |
| ScheduleRuns.SkippingEnds | internal/poller/scheduler.go:456-479 | A scrape that looks two intervals or more after a code's last push requests the code and polls its metric, whatever happens to the cache meanwhile. |
| ScheduleRuns.BoundedSkipping | internal/poller/scheduler.go:443-470 | Counting the ticks received after a code's last push, however late: the fourth and every later one requests it, and with ticks received on time already the third, whatever else happens to the cache. |
| ScheduleRuns.BoundsAreReached | internal/poller/scheduler.go:443-470 | Three skipped ticks do occur after a late tick, and two among ticks on time. |
| Scrape.ScrapeOnce | internal/poller/scheduler.go:456-507 | A whole scrape, with others free to change the cache at any time: nothing requested, nothing done; otherwise one fetch and one update of the cache as it then is, successful exactly when the fetch is, with the metrics of the polled specs or, after a failure, all metrics as they were; after a success an incomplete device, and only such a one, is handed to the reconciler. |
| Scrape.FailureIsRecorded | internal/poller/scheduler.go:497-500 | A failed scrape leaves every metric as it is; its group is marked failed with the error, one failure more and its last success kept. |
| Scrape.SuccessIsRecorded | internal/poller/scheduler.go:502-506 | After a successful scrape its group is marked successful at that time, without failures and error. |
| Scrape.ScrapeTouchesOneGroup | internal/poller/cache.go:215-245 | A scrape changes no other group, no other device and nothing but metrics and group status. |
| Scrape.ScrapeStoresWhatWasHeard | internal/poller/scheduler.go:495-507 | After a successful scrape every name has the value that the polled specs give it in the concatenation of everything the device answered, or exactly the value it had, if any, when they give it none; whatever state the cache was in at the update. |
| Scrape.ScrapeStoresMetric | internal/poller/scheduler.go:495-507 | So a polled metric has its own decoded value, if it has one and no later polled spec of its name does. |
| Commander.ExecuteWritableSet | internal/mqtt/commander.go:244-331 | What is sent, in which order, and what follows: verification of an answered write with its pre-set, one read after a refused one, nothing otherwise. |
| Commander.PreSetAlone | internal/mqtt/commander.go:249-297 | With a pre-set, it alone is sent if and only if it can be sent and the payload stands for nothing or the metric cannot be encoded. |
| Commander.UnknownOptionSendsPreSet | internal/mqtt/commander.go:286-291 | A concrete pre-set that an unknown option sends alone. |
| Commander.ValueToWrite | internal/mqtt/commander.go:269-297 | What a payload stands for, with 1 and 0 for switches without labels; an unknown option or a payload that is no number stands for nothing. |
| Commander.AnswerAccepts | internal/mqtt/commander.go:308-313 | A write is accepted exactly by a datagram with the right header and service code 0x71. |
| Commander.SentIsFollowedUp | internal/mqtt/commander.go:295-331 | What is verified is what was sent, only after an accepted write; a refused one is followed by one read of its code, and one that asks for no answer by nothing. |
| Commander.ValueIsSent | internal/mqtt/commander.go:244-331 | The encoded value is the last write, exactly when there is one and the pre-set, if any, can be sent. |
| Commander.PreSetIsEncoded | internal/mqtt/commander.go:249-262 | The pre-set is the value named for it, encoded for the metric that has its code. |
| Commander.MergePropsToCache | internal/mqtt/commander.go:712-731 | Only metrics of the requested codes are merged, and nothing when there are none, whatever others do to the cache between the look at the specs and the merge. |
| Commander.AllMatch | internal/mqtt/commander.go:770-786 | The nested loops decide whether every update is shown byte for byte by the first property of its code. |
| Commander.MatchesExactly | internal/mqtt/commander.go:770-786 | An answer confirms a command exactly when, for every update, the first property of its code exists and has its data. |
| Commander.ReadAttempt | internal/mqtt/commander.go:762-786 | One read and its verdict. |
| Commander.ReadDecides | internal/mqtt/commander.go:788-796 | A read settles the verification exactly when it confirms every update or is the third and succeeded. |
| Commander.DecisionIsLatest | internal/mqtt/commander.go:753-797 | At most three reads; the first that shows every update is the last and is merged; otherwise the third is, if it succeeded. |
| Commander.ReadsFollow | internal/mqtt/commander.go:762-766 | Each read fetches all the codes written, one after the other. |
| Commander.ReadUntilConfirmed | internal/mqtt/commander.go:753-797 | At most three reads, none after a confirming one or after cancellation; what is returned for merging is the latest read, and before the third only a confirming one. |
| Commander.VerifyStateUpdate | internal/mqtt/commander.go:744-799 | For any device, and whatever others do to the cache during the reads, the cache is merged at most once, with that read only. |
| Commander.ReadAndMergeProps | internal/mqtt/commander.go:735-742 | A failed read changes nothing; a successful one is merged. |
| VerifiedSet.ConfirmedWriteIsStored | internal/mqtt/commander.go:788-796 | When the device shows the bytes written, the metric is merged as those bytes decode, times the factor of the unit that was read with them. |
| VerifiedSet.MergeStores | internal/mqtt/commander.go:712-731 | A merge into any cache stores under a metric's name what its spec decodes to, if the spec decides the name, that is, no other spec of that name has a value or, when this one has one, no later spec does; otherwise the name keeps what it had. |
| VerifiedSet.NumberEndToEnd | internal/mqtt/commander.go:295-331 | A number commanded and confirmed is cached as clamp(round(v / scale)) * scale times the factor of its unit; only if its raw value is the invalid sentinel the cache keeps what it had. |
| VerifiedSet.LoadedLabel | internal/specs/loader.go:200-249 | In a spec the loader accepts, a label's raw value carries that label, fits the size and is unscaled. |
| VerifiedSet.LabelRoundTrip | internal/specs/loader.go:246-249 | Every label goes to a raw value of that label, is encoded without clamping and decodes to the label again, with duplicate labels too, unless that raw value is the invalid sentinel. |
| VerifiedSet.LabelEndToEnd | internal/mqtt/commander.go:288-331 | A label commanded, confirmed and merged is the label the cache shows, unless the raw value is the sentinel or a unit factor scales it. |
| VerifiedSet.WrittenExactlyWhen | internal/mqtt/commander.go:268-303 | For which payloads and metrics anything is written. |
| VerifiedSet.SelectRoundTrip | internal/mqtt/commander.go:286-292 | A select is written as a raw value of its option, which reads back as the option unless it is the sentinel. |
| VerifiedSet.SwitchRoundTrip | internal/mqtt/commander.go:272-283 | On is written as the raw value of the label "on", and as 1 without such a label, off likewise as "off" or 0, and reads back as that label or number unless it is the sentinel. |
| VerifiedSet.SwitchEndToEnd | internal/mqtt/commander.go:272-331 | A switch commanded, confirmed and merged shows the label commanded. |
| VerifiedSet.OperationStatus | internal/mqtt/commander.go:272-283 | The concrete bytes for on and off of a common metric. |
| VerifiedSet.RunCommand | internal/mqtt/commander.go:244-331 | The same for a metric already found: what is sent, and how the cache can end, also when the program stops before a read. |
| VerifiedSet.HandleWritable | internal/mqtt/commander.go:190-331 | The whole command against any device, with others free to change the cache meanwhile: a metric that is unknown, unresolved, read-only, excluded, or left to climate or light commands sends nothing and changes nothing; otherwise the command changes the cache only by one read after a refused write or by the merge that ends a verification, and when the merged read confirms every update the metric is cached as the written bytes decode. A reconciliation is asked for exactly when the metric is known and no SETMAP is. |
| Reconciler.CapabilityReconciler.Gate | internal/poller/reconciler.go:63-80 | Passes exactly when something is missing and the last attempt is absent or a minute old, and records the attempt exactly then: the system's gate step. |
| Reconciler.CapabilityReconciler.Enter | internal/poller/reconciler.go:85-88 | A call whose device has a body in flight waits for it; any other runs its body: the system's step into the group. |
| Reconciler.CapabilityReconciler.Leave | internal/poller/reconciler.go:85-88 | The end of a body frees its device: the system's step out of the group. |
| Reconciler.CapabilityReconciler.RunReconcile | internal/poller/reconciler.go:82-93 | The goroutine of a passed gate: coalesced it changes nothing; otherwise it takes the steps of a whole body, records exactly what the device answers for the parts that are missing, and tells the subscriber if that is anything, whatever others do to the cache while it asks. |
| Reconciler.CapabilityReconciler.RefreshDevice | internal/poller/reconciler.go:98-128 | Always records the attempt; if no body of the device is in flight it renews the identity and then, if something is missing, heals it from the device's answers, otherwise it changes nothing; all of it steps of the system. |
| Reconciler.CapabilityReconciler.RefreshBody | internal/poller/reconciler.go:112-122 | The body of a refresh, from its identity query to its end: the cache it leaves in terms of the device's answers and of what others did meanwhile. |
| Reconciler.CapabilityReconciler.DoReconcile | internal/poller/reconciler.go:130-194 | Asks for exactly what is missing as its turn comes, records exactly what the device answers, by the steps of a body, and tells the subscriber exactly when something was recorded, whatever others do to the cache while it asks. |
| Reconciler.CapabilityReconciler.HealAll | internal/poller/reconciler.go:138-188 | The three parts in order, and whether any recorded something. |
| Reconciler.CapabilityReconciler.ReconcileWritable | internal/poller/reconciler.go:140-156 | The SETMAP step: a missing map is asked for, and an answer is recorded over whatever others did meanwhile. |
| Reconciler.CapabilityReconciler.ReconcileNotify | internal/poller/reconciler.go:158-174 | The STATMAP step. |
| Reconciler.CapabilityReconciler.ReconcileInfo | internal/poller/reconciler.go:176-188 | The identity step. |
| Reconciler.HealsAccumulate | internal/poller/reconciler.go:138-193 | Undisturbed, a reconciliation changes the cache exactly when the subscriber is told; it then fills in something missing, and never changes a recorded map or loses an identity. |
| Reconciler.GetPropertyMap | internal/echonet/client.go:160-191 | A property map is read by the adaptive fetch and decoded, or nothing is. |
| Reconciler.MapNeedsData | internal/echonet/client.go:160-191 | For any network, a map is recorded if and only if the datagram parses, is a Get_Res or Get_SNA, and has a property with this code and some data; it is then the decoded data of the first such property. |
| Reconciler.RefusedMapIsNotRecorded | internal/poller/reconciler.go:145-150 | A concrete Get_SNA datagram that refuses the SETMAP: nothing is recorded, not even the empty map. |
| Reconciler.MapCodes | internal/echonet/client.go:160-191 | The SETMAP is asked for as 0x9E and the STATMAP as 0x9D, each alone. |
| Reconciler.AnswersHeard | internal/poller/reconciler.go:138-188 | Undisturbed, the SETMAP is asked for first and the STATMAP after it, each only if missing, and an identity is taken only if none is known and it has a manufacturer or a UID. |
| Reconciler.HealedIs | internal/poller/reconciler.go:138-188 | What an undisturbed reconciliation records of its answers, field by field. |
| Reconciler.OthersAreKept | internal/poller/reconciler.go:138-188 | Nothing that others do to the cache while a body asks is lost, except what they record as maps or identity of this device. |
| Reconciler.RefreshRenews | internal/poller/reconciler.go:111-123 | An undisturbed refresh stores the identity it read, completed from the configuration, and leaves known maps alone. |
| Reconciler.RecordsTheAnnouncedSet | internal/echonet/client.go:160-191 | A device that answers with the standard's encoding of a set has exactly that set recorded. |
| ReconcilerRuns.ReconcilerDiscipline | internal/poller/reconciler.go:63-128 | In every interleaving, with bodies that check, ask and record in separate steps: gate passes of a device are a minute apart from each other and from earlier refreshes, no two bodies of a device run at once, and nobody waits for a body that has ended. |
| ReconcilerRuns.RecordedMapsStay | internal/poller/reconciler.go:130-174 | In every interleaving a recorded SETMAP or STATMAP stays recorded. |
| ReconcilerRuns.RecordedMapsKeepTheirValues | internal/poller/reconciler.go:130-174 | In every run in which a map of the device is recorded from outside only while it is unknown and no body asks for it, or with the value it has, the SETMAP and STATMAP of the device keep the values first recorded, although bodies check and record in different steps: what single flight is for. |
| ReconcilerRuns.PoliteIsExact | internal/poller/reconciler.go:130-174 | That condition is exact: after any run that met it, an action meets it if and only if neither the action nor the next answer after it can replace a recorded map. |
| ReconcilerRuns.DiscoveryIsPolite | internal/poller/scheduler.go:172-200 | Startup discovery meets it, with notifications enabled or disabled, if it records each map once and before any reconciliation of the device starts. |
| ReconcilerRuns.OutsideMapIsReplaced | internal/poller/reconciler.go:140-156 | A run from the start that does not meet it: a SETMAP recorded while the first body asks for it is replaced by the answer. |
| ReconcilerRuns.BodyCanMove | internal/poller/reconciler.go:98-194 | A running body always has a step that brings it closer to its end, whatever the device answers. |
| ReconcilerRuns.UsesAreSteps | internal/poller/reconciler.go:140-188 | What others do to the cache while a body asks is a run of the system's cache steps. |
| PublisherRuns.RunInvariant | internal/mqtt/publisher.go:156-205 | In every interleaving: whatever is pending has a token, a drain or a signalling producer on its way; per device name, order is kept; and nothing inserted is lost. |
| PublisherRuns.NoLostUpdate | internal/mqtt/publisher.go:156-205 | Whenever the pipeline is at rest, the last state handed over under each device name is the last one inserted under it. |
| PublisherRuns.FinalDrainIsComplete | internal/mqtt/publisher.go:138-146 | After the stop, everything inserted before the worker's exit was handed over, itself or by a later state of its device name, and the last one handed over is the last one inserted. |
| PublisherRuns.HandedInOrder | internal/mqtt/publisher.go:181-205 | Per device name, the states handed over are an ordered subsequence of those inserted, without repeats. |
| PublisherRuns.RestOrProgress | internal/mqtt/publisher.go:166-205 | There is no deadlock: the pipeline is at rest exactly when no producer or worker step is possible. |
| PublisherRuns.RankDecreases | internal/mqtt/publisher.go:156-205 | Every step but a new insert or the stop brings the pipeline closer to rest. |
| PublisherRuns.EventuallyPublished | internal/mqtt/publisher.go:156-205 | Left alone in any reachable state, every schedule ends within its rank and has then published the last state under every device name. |
| PublisherShutdown.StopFlushesEverything | internal/mqtt/publisher.go:138-205 | Once the program stops and no more states come in, every schedule ends with the worker's exit, and by then every state inserted was handed over, itself or by a later one of its name. |
| PublisherShutdown.StoppedStays | internal/mqtt/publisher.go:138-146 | A program once stopped stays stopped, in every run. |
| PublishedDevices.UpToDateExactlyWhen | internal/mqtt/publisher.go:156-205 | For a device of a given configuration: in every run, whenever the pipeline is at rest, the last state handed over for the device is the last one inserted for it, if and only if no other configured device has its name. |
| PublishedDevices.SharedNameIsOverwritten | internal/mqtt/publisher.go:158 | A run for any two devices of one name: the state of the first is overwritten and never handed over. |
| Publisher.Publisher.Insert | internal/mqtt/publisher.go:157-159 | The locked part of an enqueue takes the system's insert step. |
| Publisher.Publisher.Signal | internal/mqtt/publisher.go:160-163 | The non-blocking send takes its signal step. |
| Publisher.Publisher.Receive | internal/mqtt/publisher.go:175 | The worker's receive takes its wake step. |
| Publisher.Publisher.TakeOne | internal/mqtt/publisher.go:185-199 | One locked round removes some waiting state, or finds none. |
| Publisher.Publisher.Publish | internal/mqtt/publisher.go:200-203 | The removed state is handed over. |
| Publisher.Publisher.DrainPending | internal/mqtt/publisher.go:183-205 | A drain, with producers inserting between its rounds, consists of the system's steps and leaves nothing pending, whatever came in. |
| TransportRuns.RoutingIsSafe | internal/echonet/transport.go:378-418 | In every interleaving a Send returns only a datagram from its own host with its own TID, and no two return the same one. |
| TransportRuns.OneWaiterPerHost | internal/echonet/transport.go:241-252 | A host has at most one waiter, and every waiter belongs to a request in flight under the host's lock. |
| TransportRuns.WaitersAreNotOverwritten | internal/echonet/transport.go:383-386 | Registering a waiter never overwrites one. |
| TransportRuns.EveryDatagramIsInOnePlace | internal/echonet/transport.go:458-498 | In every run each received datagram is in exactly one place: the receiver's hand, one response channel, the result of one request, the notification channel, its reader, or dropped. |
| TransportRuns.NotificationsInOrder | internal/echonet/transport.go:472-486 | Notifications are read in the order of arrival, each once, and at most 256 wait. |
| TransportRuns.QueuedUnlessFull | internal/echonet/transport.go:472-486 | A datagram nobody waits for is queued exactly when someone listens and fewer than 256 wait, and what is queued can be read. |
| TransportRuns.StaleAnswers | internal/echonet/transport.go:458-462 | If devices echo the TID, an answer to request c is returned by request c' only if c and c' agree modulo 2^16; so none goes astray while fewer TIDs are issued in between. |
| TransportRuns.CongruentAnswerIsTaken | internal/echonet/transport.go:458-462 | Conversely, in any reachable state with the host free, a late answer to c is taken by the next request whenever their counters agree modulo 2^16. |
| TransportRuns.RetriesReuseTheTid | internal/echonet/transport.go:336-360 | In every run a request keeps its counter, host and TID through all its attempts. |
| TransportRuns.CountersDiffer | internal/echonet/transport.go:234-236 | No two requests share a counter. |
| TransportRuns.CountersAreConsecutive | internal/echonet/transport.go:234-236 | Counters are issued one after the other. |
| TransportRuns.RequestsAdvance | internal/echonet/transport.go:336-360 | In every run a request that moves comes closer to its end, so it moves at most seven times. |
| TransportRuns.LockHolderCanMove | internal/echonet/transport.go:241-288 | The holder of a host lock can always take a step of its own, and has at most six left. |
| TransportRuns.AtMostTwoAttempts | internal/echonet/transport.go:336-360 | No request is tried more than twice. |
| TransportRuns.TimesOutAfterTwoAttempts | internal/echonet/transport.go:336-360 | A Send returns a timeout exactly when two of its attempts expired, and a datagram or an error when at most one did. |
| Transport.WaiterKeyInjective | internal/echonet/transport.go:630-632 | Waiter keys agree exactly when host and TID do. |
| Transport.WaiterKeyExample | internal/echonet/transport.go:630-632 | A concrete waiter key. |
| Transport.ExpiredWaitersBounded | internal/echonet/transport.go:536-555 | The table of expired requests never holds more than 128 entries. |
| Transport.TrimmedExactly | internal/echonet/transport.go:536-555 | Nothing is forgotten below 128 entries; at 128 what is older than 30 seconds, and everything if that frees no room. |
| Transport.DropOld | internal/echonet/transport.go:541-546 | The trimming loop keeps exactly the young entries. |
| Transport.Transport.NextTid | internal/echonet/transport.go:234-236 | Takes the system's call step and returns its TID. |
| Transport.Transport.AddWaiter | internal/echonet/transport.go:521-525 | Takes the listen step and finds no waiter under its key. |
| Transport.Transport.RemoveWaiter | internal/echonet/transport.go:527-531 | Takes the remove step. |
| Transport.Transport.RecordExpiredWaiter | internal/echonet/transport.go:536-555 | The table after trimming and recording. |
| Transport.Transport.Route | internal/echonet/transport.go:454-498 | The receiver finds the channel of the waiter of the datagram's host and TID; without one it notes a late answer and puts the datagram into the notification channel if there is one with room: the system's receive step. |
| Transport.Transport.SetNotificationChan | internal/echonet/transport.go:67-69 | Connecting the channel changes no table. |
| Transport.Transport.NextNotification | internal/echonet/notification.go:45-56 | The listener takes the oldest notification: the system's handle step. |
| Transport.Transport.PopExpired | internal/echonet/transport.go:557-565 | An expired entry is found once. |

## Left out

* Sockets, multicast, DNS, the MQTT client, HTTP, Prometheus, YAML and JSON parsing, environment variables and
  logging: foreign calls. The network and the device are oracles or arbitrary steps, and the publish function records
  what it is called with.
* IEEE floats: values are reals, so infinities, NaN and rounding errors of float64 do not occur. A rounded value that
  does not fit int64 becomes an arbitrary int64, as Go leaves that to the platform. An enum label is looked up under
  the exact truncated value.
* Encoder.ParseEdt: the error for an infinite or NaN result does not occur, because values are reals.
* Specs.ParseMetricSpec: the spec has no help text and no Home Assistant fields other than the number range.
* Reconciler.CapabilityReconciler.RunReconcile: is called with the goroutine's turn; that a command or scrape started it
  is a flag of HandleWritable and ScrapeOnce. What identity the device gives is a parameter.
* Reconciler.CapabilityReconciler.DoReconcile: others may change the cache at any time, but no other call of the
  reconciler's own methods runs between its steps; ReconcilerRuns has every interleaving. The same holds for
  RunReconcile and RefreshDevice.
* TransportRuns.RoutingIsSafe: hosts are canonical IP addresses, so that lock key and waiter key agree; the ephemeral
  port fallback and SendFireAndForget have no waiters and are not modelled.
* The subscriber's callback runs after the cache's lock is released, so concurrent callbacks may come in any order.
  Pipeline claims are about the order of insertion.
* Parsing of topics and payload texts, the delays between verification reads, and which codes the climate and light
  specs handle, which is a parameter. A command is what its payload was found to mean.
* Sorting is modelled as listing by ascending code, and message texts of errors are not modelled.
* Climate and light commands, Home Assistant discovery, friendly names, manufacturer tables, device identity decoding
  and instance discovery: easy members only.
* The single-flight group is modelled by its documented behaviour, not by its code.
