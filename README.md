# Tracer core: span buffering, sampling, service registry and flush worker

This project is a Dafny model of the `Tracer` in `tracer/tracer.go` of a Go tracing client. The tracer creates spans and applies the sampling policy. It buffers finished, sampled spans and keeps a registry of service metadata with a "modified" flag. A single background worker flushes both to a transport on a timer. When the tracer is stopped, the worker drains the queued service updates and does one last flush.

The model is sequential:

- The service channel is a FIFO queue (`serviceQueue`).
- The span buffer is a sequence with push (`Record`) and pop-all (`FlushTraces`).
- The worker's `select` loop is a step function over events: a timer tick, a service message ready on the channel, and the exit signal that `Stop` sends.
- The transport is either present or absent (`hasTransport`). Each call to it is an input saying whether the call succeeded. Each call that is made is returned, so contracts can say exactly what was sent.
- Span ids come from a random generator in the source. Here the fresh id is a parameter. The rate sampler's random draw is a parameter too.

Modules:

- `Spans` (`Spans.dfy`): span identity, the two sampling policies, the sample-rate rule, and root and child span construction.
- `Services` (`Services.dfy`): `Service`, its equality, the registry upsert (`appendService`) and the drain fold (`drainServices`).
- `Traces` (`Traces.dfy`): grouping the popped buffer by trace id, and the proof that the grouping partitions the buffer.
- `Tracing` (`Tracing.dfy`): the `Tracer` class, the worker step and loop, and the as-written `flushServices` (see Findings).
- `Wrappers` (`Wrappers.dfy`): `Option`, used for nil pointers and for "nothing was sent".

The `Tracer` class keeps an invariant, `Valid()`:

- the installed sampler is one `SetSampleRate` can install;
- every buffered span is sampled;
- while `servicesModified` is false, the registry equals the map the transport last accepted. That map is the ghost field `delivered`.

Every state-changing method preserves it.

Two points need a word:

- **Child of a nil parent.** The comment at tracer/tracer.go:127-130 promises a "wrongly configured span that is not sent to the trace agent". The code at lines 131-134 runs that span through the sampler, so under the keep-all policy it comes out sampled, `record` (lines 154-158) buffers it, and the next flush sends it. `Spans.NewChildSpanAsWritten` models the code as written. The rest of the model uses `Spans.NewChildSpan`, whose detached span is not sampled. See Findings.
- **Rate sampler.** `newRateSampler` is defined outside tracer.go and is not part of this model. The model takes its decision to be a uniform draw in [0, 1) that is kept when it is below the rate.

## Model

| member | source | states |
|---|---|---|
| `Spans.Sample` | tracer/tracer.go:118 | the keep-all policy keeps every trace; a rate policy keeps a trace exactly when the draw is below the rate |
| `Spans.SamplerFor` | tracer/tracer.go:93-101 | rate 1 installs keep-all, a rate in [0, 1) installs that rate, any other rate keeps the current policy; a valid policy stays valid |
| `Spans.SampleRateExtremes` | tracer/tracer.go:93-101 | after rate 1 every draw in [0, 1) is kept, after rate 0 none is, and an out-of-range rate changes nothing |
| `Spans.NewRootSpan` | tracer/tracer.go:115-119 | a root span is its own trace (trace id = span id) with parent 0, carries the fresh id and the given names, and its sampled flag is the sampler's decision |
| `Spans.NewChildSpanAsWritten` | tracer/tracer.go:124-143 | as written: with a parent, same trace, parent id = parent's span id, same service, resource = name, same sampled flag; without one, trace and parent ids are the new id, service is empty, resource = name, sampled by the sampler |
| `Spans.DetachedSpanSampledAsWritten` | tracer/tracer.go:127-134 | as written, under the keep-all policy the span made for a nil parent is sampled, contrary to the comment that it is not sent |
| `Spans.NewChildSpan` | tracer/tracer.go:124-143 | with a parent: same trace, parent id = parent's span id, same service, resource = name, same sampled flag; without one: trace and parent ids are the new id, service is empty, resource = name, and the span is not sampled, so it is never sent |
| `Spans.ChildIgnoresSampler` | tracer/tracer.go:137-142 | a child of a real parent does not depend on the sampler or the draw (the sampler is not consulted), and is the same span as written and as corrected |
| `Spans.Descendants` | tracer/tracer.go:137-142 | repeated child creation yields a line of spans, each a child of the one before, carrying the given fresh ids |
| `Spans.DescendantsShareTrace` | tracer/tracer.go:137-142 | every descendant of a span stays in its trace, keeps its service and carries its sampling outcome: the decision is taken once per trace |
| `Services.Equal` | tracer/tracer.go:21-23 | the field-by-field comparison holds exactly when the two services are the same value |
| `Services.Upsert` | tracer/tracer.go:221-226 | afterwards the name maps to the new service and every other name is unchanged; the flag is raised iff it was up or the map changed; if the map did not change, nothing changed |
| `Services.UpsertIdempotent` | tracer/tracer.go:221-226 | upserting the same service twice is the same as once |
| `Services.UpsertAll` | tracer/tracer.go:228-237 | draining the queue leaves exactly the old names plus the queued names in the registry, and never lowers the flag |
| `Services.UpsertAllLastWins` | tracer/tracer.go:228-237 | after draining, each queued name maps to the last service queued under it |
| `Services.UpsertAllKeepsUnqueued` | tracer/tracer.go:228-237 | after draining, a name that was never queued keeps its old entry |
| `Services.UpsertAllFlagsChanges` | tracer/tracer.go:221-237 | if the flag is down after draining, the registry is exactly as it was |
| `Traces.IndexByTrace` | tracer/tracer.go:184-187 | the filing loop maps each trace id present among the spans, and no other, to exactly the spans of that trace in buffer order |
| `Traces.IndexAt` | tracer/tracer.go:184-187 | filing span by span files a trace id iff it occurs, under exactly its spans |
| `Traces.GroupByTrace` | tracer/tracer.go:183-190 | the emitted groups are non-empty, each is exactly the spans of one trace in buffer order, no two share a trace, and every trace has a group (any order) |
| `Traces.GroupingPartitions` | tracer/tracer.go:183-190 | the groups together hold every popped span exactly as often as the buffer did, and there are as many groups as distinct trace ids |
| `Traces.GroupSizesSum` | tracer/tracer.go:183-190 | the group sizes add up to the number of popped spans |
| `Traces.SpanInExactlyOneGroup` | tracer/tracer.go:183-190 | each popped span is in some group, and in only one |
| `Tracing.Tracer.constructor` | tracer/tracer.go:53-73 | a new tracer is enabled, keeps every trace, has empty buffer, registry and queue, the flag down and the worker running |
| `Tracing.Tracer.SetEnabled` | tracer/tracer.go:82-84 | sets the enabled flag, keeping the tracer's invariant |
| `Tracing.Tracer.SetSampleRate` | tracer/tracer.go:93-101 | the sampler becomes `SamplerFor(rate, old sampler)`, keeping the tracer's invariant |
| `Tracing.Tracer.SetServiceInfo` | tracer/tracer.go:105-111 | the service is appended to the end of the channel queue, keeping the tracer's invariant |
| `Tracing.Tracer.NewRootSpan` | tracer/tracer.go:115-120 | returns a root span sampled by the installed policy |
| `Tracing.Tracer.NewChildSpan` | tracer/tracer.go:124-143 | returns the child that `Spans.NewChildSpan` describes, or, without a parent, a detached span that is not sampled |
| `Tracing.Tracer.Record` | tracer/tracer.go:154-158 | the span is appended to the buffer iff the tracer is enabled and the span is sampled; otherwise the buffer is unchanged |
| `Tracing.Tracer.FlushTraces` | tracer/tracer.go:163-194 | the buffer is always emptied; nothing is sent iff the tracer is disabled, has no transport or the buffer was empty; otherwise one grouping by trace of the popped spans is sent, and the error is returned iff that send failed |
| `Tracing.Tracer.FlushServices` | tracer/tracer.go:196-207 | the whole map is sent iff the tracer is enabled, the flag is up and there is a transport; the flag is cleared only when that send succeeds; the map is never touched |
| `Tracing.Tracer.Flush` | tracer/tracer.go:209-219 | flushes traces, then services, each with its own outcome |
| `Tracing.Tracer.AppendService` | tracer/tracer.go:221-226 | the registry becomes `Upsert` of the old registry, keeping the invariant that a lowered flag means the registry is what was last delivered |
| `Tracing.Tracer.DrainServices` | tracer/tracer.go:228-237 | every queued service is applied oldest first (the registry becomes `UpsertAll` of the old one), so the last service queued under each name is stored; the queue ends empty |
| `Tracing.Tracer.Step` | tracer/tracer.go:246-263 | a tick flushes and leaves the registry and queue alone; a ready service is upserted without a flush; the exit signal drains the queue, then flushes and stops, so the last service queued under each name is in the registry that flush sends (or already delivered) |
| `Tracing.Tracer.Shutdown` | tracer/tracer.go:254-261 | the queued services are applied before the final flush, which sends the drained registry if it changed since the last delivery; the last service queued under each name is in the map sent (or already delivered); the worker stops with the buffer and queue empty |
| `Tracing.Tracer.Worker` | tracer/tracer.go:240-264 | the loop handles events in order until the first exit signal, after which the worker is stopped with an empty buffer and queue |
| `Tracing.FlushServicesAsWritten` | tracer/tracer.go:196-207 | as written, the function skips when disabled or unmodified, and dereferences a nil transport when enabled, modified and without transport |
| `Tracing.NilTransportExitScenario` | tracer/tracer.go:53-73 | a tracer created without a transport, given one service and then stopped, reaches that nil dereference in its final flush |
| `Tracing.DetachedSpanSentScenario` | tracer/tracer.go:127-134 | on a tracer that keeps every trace, the span built as written for a nil parent is buffered by `record` and sent by the next `FlushTraces`, grouped on its own |

## Left out

- Goroutines, `sync.WaitGroup`, channel blocking and the closing of the exit channel (tracer/tracer.go:69-79): this is concurrency. The worker is a step function over events, and `Stop` is the `Exit` event. Calling `Stop` twice (a double close) is not modelled.
- The channel's capacity of 10: `SetServiceInfo` never blocks in the model.
- The flush ticker and `flushInterval` (timing): they become the `Tick` event.
- Transport implementations, `NewTracer` and `newDefaultTransport` (foreign I/O): the transport is a present/absent flag, and each send's success is an input.
- The random id generator `nextSpanID`: fresh ids are parameters.
- The sampler implementations, which use a floating-point random draw: the draw is a `real` parameter. Go `float64` precision and NaN are not modelled; a NaN rate would take the rejecting branch.
- `Spans.Sample`: `newRateSampler` is defined outside tracer.go. The model takes its decision to be a uniform draw in [0, 1) that is kept when it is below the rate.
- The span buffer's internals (maximum size, silent drops, locking): the buffer is an unbounded sequence.
- Logging, `DebugLoggingEnabled` and the lost-span count in `flush` (tracer/tracer.go:166-171, 210-218): they change no state.
- `NewChildSpanFromContext`, the `DefaultTracer` global with its wrappers, and the `Enabled` getter (tracer/tracer.go:86-89, 145-151, 266-301): thin delegations.
- Span fields other than identity, names and the sampled flag (timing, tags, the back-reference to the tracer): they are not used by this core.
- The order of the groups sent by `FlushTraces`, which comes from Go map iteration: the contracts hold for any order.
- Tracing.Tracer.Worker: states where the loop stops and the final buffer and queue only. What each event sends is stated on `Step`.

## Findings

| source | as written | input that shows it | evidently intended | confidence | as-written member | corrected member |
|---|---|---|---|---|---|---|
| tracer/tracer.go:196-207 | `flushServices` calls `SendServices` on the transport without the nil check that `FlushTraces` makes at line 174 | `NewTracerTransport(nil)`, then `SetServiceInfo("db", "postgres", "db")`, then `Stop()`: the worker drains the service, raises the flag, and its final flush calls a method on a nil interface | with no transport, skip the send and keep the flag up, as `FlushTraces` skips its send | medium; not executed | `Tracing.FlushServicesAsWritten`, `Tracing.NilTransportExitScenario` | `Tracing.Tracer.FlushServices` |
| tracer/tracer.go:127-134 | for a nil parent, `NewChildSpan` runs the detached span through the sampler, although the comment at lines 127-130 says it is not sent | `NewChildSpan("q", nil)` on a tracer with the default keep-all sampler, then finish the span (which calls `record`) and flush: the span is sampled, buffered and sent | mark the detached span not sampled, so that `record` drops it and it is never sent | medium; not executed | `Spans.NewChildSpanAsWritten`, `Spans.DetachedSpanSampledAsWritten`, `Tracing.DetachedSpanSentScenario` | `Spans.NewChildSpan` |
