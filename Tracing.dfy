/**
 * The tracer: it creates spans, buffers the finished sampled ones, keeps the
 * service registry and, from a single background worker, flushes both to the
 * transport.
 *
 * Sequential model. The service channel is a FIFO queue (`serviceQueue`), the
 * span buffer a sequence, and the worker's `select` loop a step function over
 * events: a timer tick, a service message ready on the channel, and the exit
 * signal that `Stop` sends. The transport is present or absent
 * (`hasTransport`); each of its calls is an input saying whether the call
 * succeeded, and each call that is made is returned, so that what was sent
 * can be stated.
 */
module Tracing {
  import opened Wrappers
  import opened Spans
  import opened Services
  import Traces

  /** What the worker's `select` loop can receive. */
  datatype Event =
    | Tick(tracesAccepted: bool, servicesAccepted: bool)  // the flush ticker fired
    | ServiceReady                                        // a service is waiting on the channel
    | Exit(tracesAccepted: bool, servicesAccepted: bool)  // `Stop` closed the exit channel

  datatype WorkerState = Running | Stopped

  class Tracer {
    var hasTransport: bool
    var sampler: Sampler
    var buffer: seq<Span>
    var enabled: bool
    var services: map<string, Service>
    var servicesModified: bool
    var serviceQueue: seq<Service>
    var worker: WorkerState
    /** The service map the transport last accepted (empty before the first delivery). */
    ghost var delivered: map<string, Service>

    /**
     * The tracer's invariant: the installed sampler is one `SetSampleRate`
     * accepts, only sampled spans are buffered, and while the "modified" flag
     * is down the registry is exactly what the transport last accepted.
     */
    ghost predicate Valid()
      reads this
    {
      && ValidSampler(sampler)
      && (forall k :: 0 <= k < |buffer| ==> buffer[k].sampled)
      && (!servicesModified ==> services == delivered)
    }

    /** The registry part of the state. */
    function RegistryState(): Registry
      reads this
    {
      Registry(services, servicesModified)
    }

    /**
     * `FlushTraces` ran on the buffer `before`: the buffer is now empty, and
     * the grouped traces were sent exactly when the tracer is enabled, has a
     * transport and `before` was not empty.
     */
    ghost predicate TracesFlushed(before: seq<Span>, sent: Option<seq<seq<Span>>>)
      reads this
    {
      && buffer == []
      && (sent.None? <==> !enabled || !hasTransport || before == [])
      && (sent.Some? ==> Traces.IsGrouping(before, sent.value))
    }

    /**
     * `flushServices` ran with the flag at `wasModified`: the whole map was
     * sent exactly when the tracer is enabled, the flag was up and there is a
     * transport, and the flag was cleared exactly when that send succeeded.
     */
    ghost predicate ServicesFlushed(wasModified: bool, wasDelivered: map<string, Service>,
                                    accepted: bool, sent: Option<map<string, Service>>)
      reads this
    {
      && sent == (if enabled && wasModified && hasTransport then Some(services) else None)
      && servicesModified == (wasModified && !(sent.Some? && accepted))
      && delivered == (if sent.Some? && accepted then services else wasDelivered)
    }

    /** `NewTracerTransport`: an enabled tracer that keeps every trace. */
    constructor (hasTransport: bool)
      ensures Valid()
      ensures this.hasTransport == hasTransport && enabled && sampler == AllSampler
      ensures buffer == [] && services == map[] && !servicesModified && serviceQueue == []
      ensures worker == Running
    {
      this.hasTransport := hasTransport;
      sampler := AllSampler;
      buffer := [];
      enabled := true;
      services := map[];
      servicesModified := false;
      serviceQueue := [];
      worker := Running;
      delivered := map[];
    }

    method SetEnabled(on: bool)
      requires Valid()
      modifies this`enabled
      ensures Valid()
      ensures enabled == on
    {
      enabled := on;
    }

    /** Installs the policy for `rate`, or keeps the current one if `rate` is out of range. */
    method SetSampleRate(rate: real)
      requires Valid()
      modifies this`sampler
      ensures Valid()
      ensures sampler == SamplerFor(rate, old(sampler))
    {
      if rate == 1.0 {
        sampler := AllSampler;
      } else if 0.0 <= rate < 1.0 {
        sampler := RateSampler(rate);
      }
    }

    /** Queues a service update for the worker. */
    method SetServiceInfo(name: string, app: string, appType: string)
      requires Valid()
      modifies this`serviceQueue
      ensures Valid()
      ensures serviceQueue == old(serviceQueue) + [Service(name, app, appType)]
    {
      serviceQueue := serviceQueue + [Service(name, app, appType)];
    }

    /** A root span with the fresh id `spanId`, sampled by the installed policy. */
    method NewRootSpan(name: string, service: string, resource: string, spanId: U64, draw: real)
      returns (span: Span)
      ensures span == Spans.NewRootSpan(name, service, resource, spanId, sampler, draw)
      ensures IsRoot(span) && span.sampled == Sample(sampler, draw)
    {
      span := Spans.NewRootSpan(name, service, resource, spanId, sampler, draw);
    }

    /**
     * A child of `parent` with the fresh id `spanId`, or, when there is no
     * parent, a detached span that is not sampled and so never sent.
     */
    method NewChildSpan(name: string, parent: Option<Span>, spanId: U64)
      returns (span: Span)
      ensures span == Spans.NewChildSpan(name, parent, spanId)
      ensures parent.None? ==> !span.sampled
    {
      span := Spans.NewChildSpan(name, parent, spanId);
    }

    /** `record`: buffer a finished span if the tracer is enabled and the span is sampled. */
    method Record(span: Span)
      requires Valid()
      modifies this`buffer
      ensures Valid()
      ensures buffer == if enabled && span.sampled then old(buffer) + [span] else old(buffer)
    {
      if enabled && span.sampled {
        buffer := buffer + [span];
      }
    }

    /**
     * Pops the whole buffer; unless the tracer is disabled, has no transport
     * or popped nothing, sends the spans grouped by trace in one call.
     * `failed` is the error returned to the caller.
     */
    method FlushTraces(accepted: bool) returns (sent: Option<seq<seq<Span>>>, failed: bool)
      requires Valid()
      modifies this`buffer
      ensures Valid()
      ensures TracesFlushed(old(buffer), sent)
      ensures failed <==> sent.Some? && !accepted
    {
      var spans := buffer;
      buffer := [];
      if !enabled || !hasTransport || |spans| == 0 {
        return None, false;
      }
      var traces := Traces.GroupByTrace(spans);
      sent := Some(traces);
      failed := !accepted;
    }

    /**
     * Sends the service map when the tracer is enabled and the map changed
     * since the last successful send; clears the flag only on success. With no
     * transport nothing is sent and the flag stays up (the source has no such
     * guard; see `FlushServicesAsWritten`).
     */
    method FlushServices(accepted: bool) returns (sent: Option<map<string, Service>>, failed: bool)
      requires Valid()
      modifies this`servicesModified, this`delivered
      ensures Valid()
      ensures ServicesFlushed(old(servicesModified), old(delivered), accepted, sent)
      ensures failed <==> sent.Some? && !accepted
    {
      if !enabled || !servicesModified {
        return None, false;
      }
      if !hasTransport {
        return None, false;
      }
      sent := Some(services);
      if !accepted {
        return sent, true;
      }
      servicesModified := false;
      delivered := services;
      failed := false;
    }

    /** `flush`: traces first, then services; a failure of one does not stop the other. */
    method Flush(tracesAccepted: bool, servicesAccepted: bool)
      returns (sentTraces: Option<seq<seq<Span>>>, sentServices: Option<map<string, Service>>)
      requires Valid()
      modifies this`buffer, this`servicesModified, this`delivered
      ensures Valid()
      ensures TracesFlushed(old(buffer), sentTraces)
      ensures ServicesFlushed(old(servicesModified), old(delivered), servicesAccepted, sentServices)
    {
      var tracesFailed, servicesFailed;
      sentTraces, tracesFailed := FlushTraces(tracesAccepted);
      sentServices, servicesFailed := FlushServices(servicesAccepted);
    }

    /** `appendService`: upsert `s` into the registry, raising the flag if anything changed. */
    method AppendService(s: Service)
      requires Valid()
      modifies this`services, this`servicesModified
      ensures Valid()
      ensures RegistryState() == Upsert(old(RegistryState()), s)
    {
      if s.name !in services || !Equal(services[s.name], s) {
        services := services[s.name := s];
        servicesModified := true;
      }
    }

    /** `drainServices`: apply every queued service, oldest first, until the queue is empty. */
    method DrainServices()
      requires Valid()
      modifies this`services, this`servicesModified, this`serviceQueue
      ensures Valid()
      ensures serviceQueue == []
      ensures RegistryState() == UpsertAll(old(RegistryState()), old(serviceQueue))
      ensures forall i :: 0 <= i < |old(serviceQueue)| && LastForName(old(serviceQueue), i) ==>
        old(serviceQueue)[i].name in services && services[old(serviceQueue)[i].name] == old(serviceQueue)[i]
    {
      ghost var queued, before := serviceQueue, RegistryState();
      forall i | 0 <= i < |queued| && LastForName(queued, i)
        ensures UpsertAll(before, queued).services[queued[i].name] == queued[i]
      {
        UpsertAllLastWins(before, queued, i);
      }
      while serviceQueue != []
        invariant Valid()
        invariant UpsertAll(RegistryState(), serviceQueue)
               == UpsertAll(old(RegistryState()), old(serviceQueue))
        decreases |serviceQueue|
      {
        var s := serviceQueue[0];
        serviceQueue := serviceQueue[1..];
        AppendService(s);
      }
    }

    /**
     * One turn of the worker's loop. A tick flushes; a ready service message
     * is applied to the registry at once, without a flush (with nothing on
     * the channel that case of the `select` is not ready and nothing
     * happens); the exit signal drains the queued services, flushes one last
     * time and stops the worker.
     */
    method Step(ev: Event)
      returns (sentTraces: Option<seq<seq<Span>>>, sentServices: Option<map<string, Service>>)
      requires Valid() && worker == Running
      modifies this`buffer, this`services, this`servicesModified, this`serviceQueue, this`worker, this`delivered
      ensures Valid()
      ensures worker == (if ev.Exit? then Stopped else Running)
      ensures ev.Tick? ==>
        && serviceQueue == old(serviceQueue) && services == old(services)
        && TracesFlushed(old(buffer), sentTraces)
        && ServicesFlushed(old(servicesModified), old(delivered), ev.servicesAccepted, sentServices)
      ensures ev.ServiceReady? ==>
        && sentTraces == None && sentServices == None
        && buffer == old(buffer) && delivered == old(delivered)
        && (old(serviceQueue) == [] ==> serviceQueue == [] && RegistryState() == old(RegistryState()))
        && (old(serviceQueue) != [] ==>
              serviceQueue == old(serviceQueue)[1..]
              && RegistryState() == Upsert(old(RegistryState()), old(serviceQueue)[0]))
      ensures ev.Exit? ==>
        && serviceQueue == []
        && services == UpsertAll(old(RegistryState()), old(serviceQueue)).services
        && TracesFlushed(old(buffer), sentTraces)
        && ServicesFlushed(UpsertAll(old(RegistryState()), old(serviceQueue)).modified,
                           old(delivered), ev.servicesAccepted, sentServices)
      ensures ev.Exit? ==>
        forall i :: 0 <= i < |old(serviceQueue)| && LastForName(old(serviceQueue), i) ==>
          old(serviceQueue)[i].name in services && services[old(serviceQueue)[i].name] == old(serviceQueue)[i]
      ensures ev.Exit? && enabled && hasTransport ==>
        sentServices == Some(services) || delivered == services
    {
      match ev
      case Tick(tracesAccepted, servicesAccepted) =>
        sentTraces, sentServices := Flush(tracesAccepted, servicesAccepted);
      case ServiceReady =>
        sentTraces, sentServices := None, None;
        if serviceQueue != [] {
          var s := serviceQueue[0];
          serviceQueue := serviceQueue[1..];
          AppendService(s);
        }
      case Exit(tracesAccepted, servicesAccepted) =>
        sentTraces, sentServices := Shutdown(tracesAccepted, servicesAccepted);
    }

    /**
     * The exit case of the worker's loop: apply the services still queued on
     * the channel, flush one last time, and stop.
     */
    method Shutdown(tracesAccepted: bool, servicesAccepted: bool)
      returns (sentTraces: Option<seq<seq<Span>>>, sentServices: Option<map<string, Service>>)
      requires Valid() && worker == Running
      modifies this`buffer, this`services, this`servicesModified, this`serviceQueue, this`worker, this`delivered
      ensures Valid()
      ensures worker == Stopped && serviceQueue == []
      ensures services == UpsertAll(old(RegistryState()), old(serviceQueue)).services
      ensures TracesFlushed(old(buffer), sentTraces)
      ensures ServicesFlushed(UpsertAll(old(RegistryState()), old(serviceQueue)).modified,
                              old(delivered), servicesAccepted, sentServices)
      ensures forall i :: 0 <= i < |old(serviceQueue)| && LastForName(old(serviceQueue), i) ==>
        old(serviceQueue)[i].name in services && services[old(serviceQueue)[i].name] == old(serviceQueue)[i]
      ensures enabled && hasTransport ==> sentServices == Some(services) || delivered == services
    {
      DrainServices();
      sentTraces, sentServices := Flush(tracesAccepted, servicesAccepted);
      worker := Stopped;
    }

    /**
     * `worker`: take the events in order until the exit signal has been
     * handled; `processed` is the number of events consumed.
     */
    method Worker(events: seq<Event>) returns (processed: nat)
      requires Valid() && worker == Running
      modifies this`buffer, this`services, this`servicesModified, this`serviceQueue, this`worker, this`delivered
      ensures Valid()
      ensures processed <= |events|
      ensures forall k :: 0 <= k < processed - 1 ==> !events[k].Exit?
      ensures worker == Stopped <==> processed > 0 && events[processed - 1].Exit?
      ensures worker == Running ==> processed == |events|
      ensures worker == Stopped ==> buffer == [] && serviceQueue == []
    {
      processed := 0;
      while processed < |events| && worker == Running
        invariant Valid()
        invariant processed <= |events|
        invariant forall k :: 0 <= k < processed - 1 ==> !events[k].Exit?
        invariant worker == Stopped <==> processed > 0 && events[processed - 1].Exit?
        invariant worker == Stopped ==> buffer == [] && serviceQueue == []
      {
        var sentTraces, sentServices := Step(events[processed]);
        processed := processed + 1;
      }
    }
  }

  /** What `flushServices` does, as the source writes it. */
  datatype ServicesFlush = Skipped | Delivered | Rejected | NilTransportPanic

  /**
   * `flushServices` as written: it guards on the enabled and modified flags
   * but, unlike `FlushTraces`, not on a nil transport, so with the flags up
   * and no transport the call to `SendServices` dereferences nil.
   */
  function FlushServicesAsWritten(enabled: bool, modified: bool, hasTransport: bool,
                                  accepted: bool): (r: ServicesFlush)
    ensures r == Skipped <==> !enabled || !modified
    ensures r == NilTransportPanic <==> enabled && modified && !hasTransport
    ensures r == Delivered <==> enabled && modified && hasTransport && accepted
  {
    if !enabled || !modified then Skipped
    else if !hasTransport then NilTransportPanic
    else if accepted then Delivered
    else Rejected
  }

  /**
   * A tracer built without a transport, given one service before it is
   * stopped, reaches the nil dereference in its final flush.
   */
  method NilTransportExitScenario() returns (outcome: ServicesFlush)
    ensures outcome == NilTransportPanic
  {
    var t := new Tracer(false);
    t.SetServiceInfo("db", "postgres", "db");
    t.DrainServices();
    assert [Service("db", "postgres", "db")][1..] == [];
    outcome := FlushServicesAsWritten(t.enabled, t.servicesModified, t.hasTransport, true);
  }

  /**
   * A span made for a nil parent by the source's `NewChildSpan`, on a tracer
   * that keeps every trace, is buffered once finished and sent by the next
   * flush, although the source's comment says it is not sent.
   */
  method DetachedSpanSentScenario(name: string, spanId: U64, draw: real)
    returns (span: Span, sent: Option<seq<seq<Span>>>)
    ensures span.parentId == spanId && span.service == ""
    ensures sent.Some? && Traces.IsGrouping([span], sent.value)
  {
    var t := new Tracer(true);
    span := NewChildSpanAsWritten(name, None, spanId, t.sampler, draw);
    t.Record(span);
    var failed;
    sent, failed := t.FlushTraces(true);
  }
}
