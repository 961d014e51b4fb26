/**
 * Grouping the drained span buffer into traces, as `FlushTraces` does before
 * the one call that hands the batch to the transport.
 *
 * The source collects the spans into a map from trace id to the list of
 * spans of that trace, then copies the map's values out in Go's unspecified
 * map order. The specification below therefore says nothing about the order
 * of the groups, only what each group holds.
 */
module Traces {
  import opened Spans

  /** The spans of trace `id`, in the order they were buffered. */
  function SpansOf(spans: seq<Span>, id: U64): (r: seq<Span>)
    ensures forall k :: 0 <= k < |r| ==> r[k].traceId == id
    decreases |spans|
  {
    if spans == [] then []
    else
      var init := SpansOf(spans[..|spans| - 1], id);
      if spans[|spans| - 1].traceId == id then init + [spans[|spans| - 1]] else init
  }

  /** The spans that are not in trace `id`, in the order they were buffered. */
  function Without(spans: seq<Span>, id: U64): seq<Span>
    decreases |spans|
  {
    if spans == [] then []
    else
      var init := Without(spans[..|spans| - 1], id);
      if spans[|spans| - 1].traceId != id then init + [spans[|spans| - 1]] else init
  }

  /** The distinct trace ids among the spans. */
  function TraceIds(spans: seq<Span>): set<U64>
    decreases |spans|
  {
    if spans == [] then {}
    else TraceIds(spans[..|spans| - 1]) + {spans[|spans| - 1].traceId}
  }

  /** The trace id a group is filed under: the id of its first span. */
  function GroupId(group: seq<Span>): U64
    requires group != []
  {
    group[0].traceId
  }

  /** The trace ids the groups are filed under. */
  function GroupIds(groups: seq<seq<Span>>): set<U64>
    decreases |groups|
  {
    if groups == [] then {}
    else (if groups[0] == [] then {} else {GroupId(groups[0])}) + GroupIds(groups[1..])
  }

  /**
   * `groups` is a grouping of `spans` by trace: no group is empty, each group
   * is exactly the spans of its trace in buffer order, no two groups share a
   * trace, and every trace of `spans` has a group.
   */
  predicate IsGrouping(spans: seq<Span>, groups: seq<seq<Span>>) {
    && (forall i :: 0 <= i < |groups| ==>
          groups[i] != [] && groups[i] == SpansOf(spans, GroupId(groups[i])))
    && (forall i, j :: 0 <= i < j < |groups| && groups[i] != [] && groups[j] != [] ==>
          GroupId(groups[i]) != GroupId(groups[j]))
    && GroupIds(groups) == TraceIds(spans)
  }

  /** All the groups' spans, one group after the other. */
  function Flatten(groups: seq<seq<Span>>): seq<Span>
    decreases |groups|
  {
    if groups == [] then [] else groups[0] + Flatten(groups[1..])
  }

  /** The sum of the group sizes. */
  function TotalSize(groups: seq<seq<Span>>): nat
    decreases |groups|
  {
    if groups == [] then 0 else |groups[0]| + TotalSize(groups[1..])
  }

  lemma {:induction false} SpansOfNonEmpty(spans: seq<Span>, id: U64)
    ensures SpansOf(spans, id) != [] <==> id in TraceIds(spans)
    decreases |spans|
  {
    if spans != [] {
      SpansOfNonEmpty(spans[..|spans| - 1], id);
    }
  }

  /** Splitting the buffer by one trace loses and duplicates nothing. */
  lemma {:induction false} SplitByTrace(spans: seq<Span>, id: U64)
    ensures multiset(spans) == multiset(SpansOf(spans, id)) + multiset(Without(spans, id))
    decreases |spans|
  {
    if spans != [] {
      var init, last := spans[..|spans| - 1], spans[|spans| - 1];
      SplitByTrace(init, id);
      assert spans == init + [last];
      assert multiset(spans) == multiset(init) + multiset{last};
      if last.traceId == id {
        assert multiset(SpansOf(spans, id)) == multiset(SpansOf(init, id)) + multiset{last};
        assert Without(spans, id) == Without(init, id);
      } else {
        assert SpansOf(spans, id) == SpansOf(init, id);
        assert multiset(Without(spans, id)) == multiset(Without(init, id)) + multiset{last};
      }
    }
  }

  lemma {:induction false} SpansOfWithout(spans: seq<Span>, a: U64, b: U64)
    requires a != b
    ensures SpansOf(Without(spans, a), b) == SpansOf(spans, b)
    decreases |spans|
  {
    if spans != [] {
      var init := spans[..|spans| - 1];
      SpansOfWithout(init, a, b);
      var w := Without(init, a);
      var last := spans[|spans| - 1];
      if last.traceId != a {
        assert (w + [last])[..|w + [last]| - 1] == w;
      }
    }
  }

  lemma {:induction false} TraceIdsWithout(spans: seq<Span>, id: U64)
    ensures TraceIds(Without(spans, id)) == TraceIds(spans) - {id}
    decreases |spans|
  {
    if spans != [] {
      var init := spans[..|spans| - 1];
      TraceIdsWithout(init, id);
      var w := Without(init, id);
      var last := spans[|spans| - 1];
      if last.traceId != id {
        assert (w + [last])[..|w + [last]| - 1] == w;
      }
    }
  }

  lemma {:induction false} FlattenLength(groups: seq<seq<Span>>)
    ensures |Flatten(groups)| == TotalSize(groups)
    decreases |groups|
  {
    if groups != [] {
      FlattenLength(groups[1..]);
    }
  }

  /**
   * Any grouping of the buffer is a partition of it: the groups together hold
   * every drained span exactly as often as the buffer did, and there are as
   * many groups as distinct trace ids.
   */
  lemma {:induction false} GroupingPartitions(spans: seq<Span>, groups: seq<seq<Span>>)
    requires IsGrouping(spans, groups)
    ensures multiset(Flatten(groups)) == multiset(spans)
    ensures |groups| == |TraceIds(spans)|
    decreases |groups|
  {
    if groups != [] {
      var id := GroupId(groups[0]);
      var rest := Without(spans, id);
      var tail := groups[1..];
      assert GroupIds(groups) == {id} + GroupIds(tail);
      assert id !in GroupIds(tail) by {
        if id in GroupIds(tail) {
          GroupIdsIndex(tail, id);
        }
      }
      TraceIdsWithout(spans, id);
      forall i | 0 <= i < |tail|
        ensures tail[i] != [] && tail[i] == SpansOf(rest, GroupId(tail[i]))
      {
        assert tail[i] == groups[i + 1];
        SpansOfWithout(spans, id, GroupId(tail[i]));
      }
      assert IsGrouping(rest, tail);
      GroupingPartitions(rest, tail);
      SplitByTrace(spans, id);
      assert id in TraceIds(spans);
    }
  }

  /** A trace id filed in `groups` is the id of one of its groups. */
  lemma {:induction false} GroupIdsIndex(groups: seq<seq<Span>>, id: U64)
    requires id in GroupIds(groups)
    ensures exists i :: 0 <= i < |groups| && groups[i] != [] && GroupId(groups[i]) == id
    decreases |groups|
  {
    if groups[0] == [] || GroupId(groups[0]) != id {
      GroupIdsIndex(groups[1..], id);
      var i :| 0 <= i < |groups[1..]| && groups[1..][i] != [] && GroupId(groups[1..][i]) == id;
      assert groups[i + 1] == groups[1..][i];
    }
  }

  /** The group sizes add up to the number of drained spans. */
  lemma GroupSizesSum(spans: seq<Span>, groups: seq<seq<Span>>)
    requires IsGrouping(spans, groups)
    ensures TotalSize(groups) == |spans|
  {
    GroupingPartitions(spans, groups);
    FlattenLength(groups);
    assert |multiset(Flatten(groups))| == |multiset(spans)|;
  }

  /**
   * Each drained span lands in exactly one group: the group of its trace
   * holds it, and no group of another trace does.
   */
  lemma SpanInExactlyOneGroup(spans: seq<Span>, groups: seq<seq<Span>>, k: int)
    requires IsGrouping(spans, groups)
    requires 0 <= k < |spans|
    ensures exists i :: 0 <= i < |groups| && spans[k] in groups[i]
    ensures forall i, j ::
      0 <= i < |groups| && 0 <= j < |groups| && spans[k] in groups[i] && spans[k] in groups[j] ==> i == j
  {
    var s := spans[k];
    GroupingPartitions(spans, groups);
    assert s in multiset(spans);
    FlattenMember(groups, s);
    forall i, j | 0 <= i < |groups| && 0 <= j < |groups| && s in groups[i] && s in groups[j]
      ensures i == j
    {
      var a :| 0 <= a < |groups[i]| && groups[i][a] == s;
      var b :| 0 <= b < |groups[j]| && groups[j][b] == s;
      assert GroupId(groups[i]) == s.traceId == GroupId(groups[j]);
    }
  }

  lemma {:induction false} FlattenMember(groups: seq<seq<Span>>, s: Span)
    requires s in Flatten(groups)
    ensures exists i :: 0 <= i < |groups| && s in groups[i]
    decreases |groups|
  {
    if s !in groups[0] {
      FlattenMember(groups[1..], s);
      var i :| 0 <= i < |groups[1..]| && s in groups[1..][i];
      assert groups[i + 1] == groups[1..][i];
    }
  }

  /** `byTrace` maps each trace id of `spans`, and nothing else, to the spans of that trace. */
  predicate IsIndexOf(byTrace: map<U64, seq<Span>>, spans: seq<Span>) {
    && byTrace.Keys == TraceIds(spans)
    && forall id :: id in byTrace ==> byTrace[id] == SpansOf(spans, id)
  }

  /** Appends `s` to the list of its trace, starting the list if the trace is new. */
  function File(byTrace: map<U64, seq<Span>>, s: Span): map<U64, seq<Span>> {
    byTrace[s.traceId := (if s.traceId in byTrace then byTrace[s.traceId] else []) + [s]]
  }

  /** The index the filing loop builds from `spans`. */
  function Index(spans: seq<Span>): map<U64, seq<Span>>
    decreases |spans|
  {
    if spans == [] then map[] else File(Index(spans[..|spans| - 1]), spans[|spans| - 1])
  }

  /** Filing the spans one by one files trace `id` exactly when it occurs, under exactly its spans. */
  lemma {:induction false} IndexAt(spans: seq<Span>, id: U64)
    ensures id in Index(spans) <==> id in TraceIds(spans)
    ensures id in Index(spans) ==> Index(spans)[id] == SpansOf(spans, id)
    decreases |spans|
  {
    if spans != [] {
      var init := spans[..|spans| - 1];
      IndexAt(init, id);
      SpansOfNonEmpty(init, id);
    }
  }

  lemma IndexIsIndexOf(spans: seq<Span>)
    ensures IsIndexOf(Index(spans), spans)
  {
    forall id ensures (id in Index(spans) <==> id in TraceIds(spans))
      && (id in Index(spans) ==> Index(spans)[id] == SpansOf(spans, id))
    {
      IndexAt(spans, id);
    }
  }

  /**
   * The first loop of the grouping in `FlushTraces`: file each span under its
   * trace id, appending it to that trace's list.
   */
  method IndexByTrace(spans: seq<Span>) returns (byTrace: map<U64, seq<Span>>)
    ensures IsIndexOf(byTrace, spans)
  {
    byTrace := map[];
    var i := 0;
    while i < |spans|
      invariant 0 <= i <= |spans|
      invariant byTrace == Index(spans[..i])
    {
      assert spans[..i + 1][..i] == spans[..i];
      byTrace := File(byTrace, spans[i]);
      i := i + 1;
    }
    assert spans[..i] == spans;
    IndexIsIndexOf(spans);
  }

  /**
   * The grouping of `FlushTraces`: index the spans by trace, then emit the
   * lists in an arbitrary order, as iterating over a Go map does.
   */
  method GroupByTrace(spans: seq<Span>) returns (traces: seq<seq<Span>>)
    ensures IsGrouping(spans, traces)
  {
    var byTrace := IndexByTrace(spans);
    traces := [];
    var pending := byTrace.Keys;
    ghost var ids: seq<U64> := [];
    while pending != {}
      invariant pending <= byTrace.Keys
      invariant |ids| == |traces|
      invariant forall k :: 0 <= k < |ids| ==> ids[k] in byTrace && ids[k] !in pending
      invariant forall k :: 0 <= k < |ids| ==> traces[k] == byTrace[ids[k]]
      invariant forall a, b :: 0 <= a < b < |ids| ==> ids[a] != ids[b]
      invariant GroupIds(traces) == byTrace.Keys - pending
      decreases pending
    {
      var id :| id in pending;
      IndexedGroup(spans, byTrace, id);
      GroupIdsAppend(traces, byTrace[id]);
      traces := traces + [byTrace[id]];
      ids := ids + [id];
      pending := pending - {id};
    }
    EmittedGroups(spans, byTrace, traces, ids);
  }

  /** Each list of the index is non-empty and filed under its own trace id. */
  lemma IndexedGroup(spans: seq<Span>, byTrace: map<U64, seq<Span>>, id: U64)
    requires IsIndexOf(byTrace, spans)
    requires id in byTrace
    ensures byTrace[id] != [] && GroupId(byTrace[id]) == id
  {
    SpansOfNonEmpty(spans, id);
  }

  /** Emitting every list of the index once yields a grouping. */
  lemma EmittedGroups(spans: seq<Span>, byTrace: map<U64, seq<Span>>,
                      traces: seq<seq<Span>>, ids: seq<U64>)
    requires IsIndexOf(byTrace, spans)
    requires |ids| == |traces|
    requires forall k :: 0 <= k < |ids| ==> ids[k] in byTrace && traces[k] == byTrace[ids[k]]
    requires forall a, b :: 0 <= a < b < |ids| ==> ids[a] != ids[b]
    requires GroupIds(traces) == byTrace.Keys
    ensures IsGrouping(spans, traces)
  {
    forall k | 0 <= k < |ids| ensures traces[k] != [] && GroupId(traces[k]) == ids[k] {
      IndexedGroup(spans, byTrace, ids[k]);
    }
  }

  lemma {:induction false} GroupIdsAppend(groups: seq<seq<Span>>, g: seq<Span>)
    requires g != []
    ensures GroupIds(groups + [g]) == GroupIds(groups) + {GroupId(g)}
    decreases |groups|
  {
    if groups == [] {
      assert ([] + [g])[1..] == [];
    } else {
      assert (groups + [g])[1..] == groups[1..] + [g];
      GroupIdsAppend(groups[1..], g);
    }
  }
}
