/** The passes of the trace converter put together: conversion feeds the layout, and both feed the arrows. */
module TracePipeline {
  import opened Seqs
  import opened SpanForest
  import opened SpanWalk
  import SpanLines
  import TraceLayout
  import LayoutTheorems
  import FlowArrows

  type DrawnSpan = TraceLayout.Span

  ghost function Roots(spans: seq<OtelSpan>): seq<nat> {
    RootsUpTo(spans, |spans|)
  }

  /** The times and processes after conversion. */
  ghost function Final(spans: seq<OtelSpan>): (s: Times)
    ensures |s.ends| == |s.pids| == |spans|
  {
    VisitsInRange(spans);
    Converted(Initial(spans), Visits(spans))
  }

  /** The requests' span lists as conversion fills them. */
  ghost function Lists(spans: seq<OtelSpan>): seq<seq<nat>> {
    LinkedIsForest(spans);
    RootsAreValid(spans, |spans|);
    RequestLists(Linked(spans), Roots(spans))
  }

  /** What the layout sees of an engine span: its process, its start and its trimmed end. */
  ghost function Shown(spans: seq<OtelSpan>, x: nat): DrawnSpan {
    if x < |spans| && Final(spans).pids[x].Some? then
      TraceLayout.Span(TraceLayout.Engine(Final(spans).pids[x].value),
                       SpanLines.Interval(spans[x].start, Final(spans).ends[x]))
    else TraceLayout.Span(TraceLayout.Engine(0), SpanLines.Interval(0, -TRIM))
  }

  ghost function ShownList(spans: seq<OtelSpan>, list: seq<nat>): (shown: seq<DrawnSpan>)
    ensures |shown| == |list| && forall i :: 0 <= i < |list| ==> shown[i] == Shown(spans, list[i])
  {
    if list == [] then []
    else ShownList(spans, list[..|list| - 1]) + [Shown(spans, list[|list| - 1])]
  }

  ghost function ShownLists(spans: seq<OtelSpan>, lists: seq<seq<nat>>): seq<seq<DrawnSpan>> {
    if lists == [] then []
    else ShownLists(spans, lists[..|lists| - 1]) + [ShownList(spans, lists[|lists| - 1])]
  }

  /** And of a gateway span. */
  function ShownSmg(smg: seq<OtelSpan>): (shown: seq<DrawnSpan>)
    ensures |shown| == |smg|
    ensures forall i :: 0 <= i < |smg| ==>
              shown[i] == TraceLayout.Span(TraceLayout.Smg, SpanLines.Interval(smg[i].start, smg[i].end - TRIM))
  {
    if smg == [] then []
    else
      var last := smg[|smg| - 1];
      ShownSmg(smg[..|smg| - 1])
      + [TraceLayout.Span(TraceLayout.Smg, SpanLines.Interval(last.start, last.end - TRIM))]
  }

  /** The layout of the whole trace. */
  ghost function TraceLayoutOf(spans: seq<OtelSpan>, smg: seq<OtelSpan>): Result<TraceLayout.Layout> {
    LayoutTheorems.GenerateLayout(ShownLists(spans, Lists(spans)), ShownSmg(smg))
  }

  // ----- Every listed span is shown with its own process and its trimmed end -----

  lemma {:induction false} ShownAsTrimmed(spans: seq<OtelSpan>, x: nat)
    requires x in Concat(Lists(spans))
    ensures x < |spans| && Final(spans).pids[x].Some? && Final(spans).ends[x] == spans[x].end - TRIM
    ensures Shown(spans, x).pid.Engine?
    ensures Shown(spans, x).time == SpanLines.Interval(spans[x].start, spans[x].end - TRIM)
  {
    var t, roots := Linked(spans), Roots(spans);
    LinkedIsForest(spans);
    RootsAreValid(spans, |spans|);
    var q := AllRequestSpanPath(t, roots, x);
    assert q[|q| - 1] == x;
    TrimmedExactlyOnce(spans, x);
  }

  lemma {:induction false} ShownConcat(spans: seq<OtelSpan>, lists: seq<seq<nat>>)
    ensures Concat(ShownLists(spans, lists)) == ShownList(spans, Concat(lists))
  {
    if lists != [] {
      var init, last := lists[..|lists| - 1], lists[|lists| - 1];
      ShownConcat(spans, init);
    }
  }

  /** A span whose length is exactly the trim has no length left. */
  ghost predicate NoneVanish(spans: seq<OtelSpan>, list: seq<nat>) {
    forall i :: 0 <= i < |list| && list[i] < |spans| ==> spans[list[i]].end - spans[list[i]].start != TRIM
  }

  lemma {:induction false} ShownNotZero(spans: seq<OtelSpan>, smg: seq<OtelSpan>)
    requires NoneVanish(spans, Concat(Lists(spans)))
    requires forall i :: 0 <= i < |smg| ==> smg[i].end - smg[i].start != TRIM
    ensures LayoutTheorems.NoneZero(Concat(ShownLists(spans, Lists(spans))) + ShownSmg(smg))
  {
    var list := Concat(Lists(spans));
    ShownConcat(spans, Lists(spans));
    forall i | 0 <= i < |list| ensures ShownList(spans, list)[i].time.start != ShownList(spans, list)[i].time.end {
      assert list[i] in list;
      ShownAsTrimmed(spans, list[i]);
    }
  }

  /** From the recorded spans to the picture: if no top-level span was exactly 1000 ns long, then no two spans
      of a process overlap on a line, whatever the identifiers, the lengths and the order of the input. */
  lemma {:induction false} TraceIsDrawnApart(spans: seq<OtelSpan>, smg: seq<OtelSpan>)
    requires NoneVanish(spans, Concat(Lists(spans)))
    requires forall i :: 0 <= i < |smg| ==> smg[i].end - smg[i].start != TRIM
    ensures TraceLayoutOf(spans, smg).Ok? ==> TraceLayout.NoClash(TraceLayoutOf(spans, smg).value.placed)
  {
    ShownNotZero(spans, smg);
    LayoutTheorems.NoZeroLengthIsSafe(ShownLists(spans, Lists(spans)), ShownSmg(smg));
  }

  lemma {:induction false} ShownIsEngine(spans: seq<OtelSpan>)
    ensures LayoutTheorems.AllEngine(Concat(ShownLists(spans, Lists(spans))))
  {
    var list := Concat(Lists(spans));
    ShownConcat(spans, Lists(spans));
    forall i | 0 <= i < |list| ensures ShownList(spans, list)[i].pid.Engine? {
      assert list[i] in list;
      ShownAsTrimmed(spans, list[i]);
    }
  }

  /** And if every gateway span was longer than 1000 ns, the gateway has as many lines as trimmed gateway spans
      are alive at one instant, whatever the engine's spans. */
  lemma {:induction false} GatewayLinesAreOptimal(spans: seq<OtelSpan>, smg: seq<OtelSpan>)
    requires forall i :: 0 <= i < |smg| ==> smg[i].end - smg[i].start > TRIM
    ensures TraceLayoutOf(spans, smg).Ok? ==>
              var k := TraceLayout.LineCount(TraceLayoutOf(spans, smg).value.graph, TraceLayout.Smg);
              && (forall t :: LayoutTheorems.AliveSpans(ShownSmg(smg), t) <= k)
              && (smg != [] ==> exists t :: LayoutTheorems.AliveSpans(ShownSmg(smg), t) == k)
              && (smg == [] ==> k == 0)
  {
    ShownIsEngine(spans);
    LayoutTheorems.OptimalSmgLayout(ShownLists(spans, Lists(spans)), ShownSmg(smg));
  }

  // ----- The arrows' preconditions -----

  /** However the layout ordered the requests' spans, none is listed twice and all are converted, as the arrows
      need. */
  lemma {:induction false} ArrowsCanBeDrawn(spans: seq<OtelSpan>, requests: seq<FlowArrows.Request>, at: set<nat>)
    requires multiset(FlowArrows.AllSpans(requests)) == multiset(Concat(Lists(spans)))
    requires forall x :: x in SpansOf(Visits(spans)) ==> x in at
    ensures NoDup(FlowArrows.AllSpans(requests))
    ensures forall i :: 0 <= i < |FlowArrows.AllSpans(requests)| ==> FlowArrows.AllSpans(requests)[i] in at
  {
    var listed, all := Concat(Lists(spans)), FlowArrows.AllSpans(requests);
    LinkedIsForest(spans);
    LinkedIsComplete(spans);
    RootsAreValid(spans, |spans|);
    RequestSpansApart(Linked(spans), Pids(spans), Roots(spans));
    NoDupPermuted(listed, all);
    forall i | 0 <= i < |all| ensures all[i] in at {
      assert all[i] in all;
      SameMembers(all, listed, all[i]);
    }
  }
}
