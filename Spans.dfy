/**
 * Span identity and the sampling policy of the tracer.
 *
 * A span is modelled as a value: the tracer creates it, the caller hands it
 * back when finished, and from then on it is never changed. Identifiers are
 * 64-bit unsigned integers; the random generator that produces span ids is
 * not modelled, so every constructor takes the fresh id as a parameter.
 */
module Spans {
  import opened Wrappers

  /** Go's uint64. */
  newtype U64 = x: int | 0 <= x < 0x1_0000_0000_0000_0000

  datatype Span = Span(
    name: string,
    service: string,
    resource: string,
    spanId: U64,
    traceId: U64,
    parentId: U64,
    sampled: bool)

  /**
   * The installed sampling policy: keep everything, or keep a fraction
   * `rate` of new traces. The rate sampler's draw is a uniform random number
   * in [0, 1) supplied by the caller of `Sample`.
   */
  datatype Sampler = AllSampler | RateSampler(rate: real)

  /** A policy `SetSampleRate` can install. */
  predicate ValidSampler(s: Sampler) {
    s.AllSampler? || 0.0 <= s.rate < 1.0
  }

  /** The sampling decision for a new trace, given the random draw. */
  function Sample(s: Sampler, draw: real): (keep: bool)
    ensures s.AllSampler? ==> keep
    ensures s.RateSampler? ==> (keep <==> draw < s.rate)
  {
    match s
    case AllSampler => true
    case RateSampler(rate) => draw < rate
  }

  /**
   * The sampler in force after `SetSampleRate(rate)` when `current` was in
   * force before: 1 selects the keep-all policy, [0, 1) a rate policy, and
   * any other rate is rejected, leaving `current` in place.
   */
  function SamplerFor(rate: real, current: Sampler): (s: Sampler)
    ensures rate == 1.0 ==> s == AllSampler
    ensures 0.0 <= rate < 1.0 ==> s == RateSampler(rate)
    ensures !(0.0 <= rate <= 1.0) ==> s == current
    ensures ValidSampler(current) ==> ValidSampler(s)
  {
    if rate == 1.0 then AllSampler
    else if 0.0 <= rate < 1.0 then RateSampler(rate)
    else current
  }

  /** A span that starts a trace: it is its own trace and has no parent. */
  predicate IsRoot(s: Span) {
    s.traceId == s.spanId && s.parentId == 0
  }

  /** `child` was created as a child of `parent`, inside the parent's trace. */
  predicate IsChildOf(child: Span, parent: Span) {
    child.traceId == parent.traceId
    && child.parentId == parent.spanId
    && child.service == parent.service
    && child.sampled == parent.sampled
  }

  /** A root span with the fresh id `spanId`, run through the sampler. */
  function NewRootSpan(name: string, service: string, resource: string,
                       spanId: U64, sampler: Sampler, draw: real): (r: Span)
    ensures IsRoot(r) && r.spanId == spanId
    ensures r.name == name && r.service == service && r.resource == resource
    ensures r.sampled == Sample(sampler, draw)
  {
    Span(name, service, resource, spanId, spanId, 0, Sample(sampler, draw))
  }

  /**
   * `NewChildSpan` as the source writes it. With a parent, the child joins
   * the parent's trace and copies its service and its sampling outcome; the
   * sampler is not consulted. Without a parent (a nil pointer in the
   * source), a detached span is built whose trace and parent ids are both
   * its own id, whose service is empty, and which is run through the
   * sampler, so it can come out sampled and be sent.
   */
  function NewChildSpanAsWritten(name: string, parent: Option<Span>, spanId: U64,
                                 sampler: Sampler, draw: real): (r: Span)
    ensures r.spanId == spanId && r.name == name && r.resource == name
    ensures parent.Some? ==> IsChildOf(r, parent.value)
    ensures parent.None? ==>
      r.traceId == spanId && r.parentId == spanId && r.service == ""
      && r.sampled == Sample(sampler, draw)
  {
    match parent
    case None => Span(name, "", name, spanId, spanId, spanId, Sample(sampler, draw))
    case Some(p) => Span(name, p.service, name, spanId, p.traceId, p.spanId, p.sampled)
  }

  /** Under the keep-all policy the detached span of a nil parent comes out sampled. */
  lemma DetachedSpanSampledAsWritten(name: string, spanId: U64, draw: real)
    ensures NewChildSpanAsWritten(name, None, spanId, AllSampler, draw).sampled
  {
  }

  /**
   * A child span with the fresh id `spanId`. With a parent it is the span
   * the source builds. Without a parent it is the detached span with the
   * same ids and empty service, marked not sampled, so that it is never
   * buffered and never sent.
   */
  function NewChildSpan(name: string, parent: Option<Span>, spanId: U64): (r: Span)
    ensures r.spanId == spanId && r.name == name && r.resource == name
    ensures parent.Some? ==> IsChildOf(r, parent.value)
    ensures parent.None? ==>
      r.traceId == spanId && r.parentId == spanId && r.service == "" && !r.sampled
  {
    match parent
    case None => Span(name, "", name, spanId, spanId, spanId, false)
    case Some(p) => Span(name, p.service, name, spanId, p.traceId, p.spanId, p.sampled)
  }

  /**
   * A child of a real parent does not depend on the sampler or the draw,
   * and is the same span whether built as written or as corrected.
   */
  lemma ChildIgnoresSampler(name: string, parent: Span, spanId: U64, sampler: Sampler, draw: real)
    ensures NewChildSpanAsWritten(name, Some(parent), spanId, sampler, draw)
         == NewChildSpan(name, Some(parent), spanId)
  {
  }

  /**
   * A line of descent: the first span is a child of `parent`, each later one
   * a child of the one before, with the given names and fresh ids.
   */
  function Descendants(parent: Span, names: seq<string>, ids: seq<U64>): (line: seq<Span>)
    requires |names| == |ids|
    ensures |line| == |names|
    ensures forall k :: 0 <= k < |line| ==> line[k].spanId == ids[k]
    ensures |line| > 0 ==> IsChildOf(line[0], parent)
    ensures forall k :: 0 < k < |line| ==> IsChildOf(line[k], line[k - 1])
    decreases |names|
  {
    if names == [] then []
    else
      var child := NewChildSpan(names[0], Some(parent), ids[0]);
      [child] + Descendants(child, names[1..], ids[1..])
  }

  /**
   * The sampling decision is taken once per trace: every descendant of a span
   * stays in its trace, keeps its service and carries its sampling outcome.
   */
  lemma {:induction false} DescendantsShareTrace(parent: Span, names: seq<string>, ids: seq<U64>)
    requires |names| == |ids|
    ensures forall s :: s in Descendants(parent, names, ids) ==>
      s.traceId == parent.traceId && s.service == parent.service
      && s.sampled == parent.sampled
    decreases |names|
  {
    if names != [] {
      var child := NewChildSpan(names[0], Some(parent), ids[0]);
      DescendantsShareTrace(child, names[1..], ids[1..]);
    }
  }

  /** Rate 1 keeps every new trace; rate 0 keeps none; an invalid rate changes nothing. */
  lemma SampleRateExtremes(current: Sampler, draw: real, bad: real)
    requires 0.0 <= draw < 1.0
    requires bad < 0.0 || bad > 1.0
    ensures Sample(SamplerFor(1.0, current), draw)
    ensures !Sample(SamplerFor(0.0, current), draw)
    ensures SamplerFor(bad, current) == current
  {
  }
}
