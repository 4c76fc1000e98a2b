/** The whole layout pass and what it guarantees. */
module LayoutTheorems {
  import opened Seqs
  import opened SpanLines
  import opened TraceLayout

  // ----- Sorting: Python's `sorted` with a key is stable -----

  /** Inserts `x` after every element whose key is not larger. */
  function InsertByKey<T>(s: seq<T>, x: T, key: T -> int): seq<T> {
    if s == [] || key(s[|s| - 1]) <= key(x) then s + [x]
    else InsertByKey(s[..|s| - 1], x, key) + [s[|s| - 1]]
  }

  function SortByKey<T>(s: seq<T>, key: T -> int): seq<T> {
    if s == [] then [] else InsertByKey(SortByKey(s[..|s| - 1], key), s[|s| - 1], key)
  }

  ghost predicate Ordered<T>(s: seq<T>, key: T -> int) {
    forall i, j :: 0 <= i < j < |s| ==> key(s[i]) <= key(s[j])
  }

  ghost predicate KeysAtMost<T>(s: seq<T>, key: T -> int, bound: int) {
    forall i :: 0 <= i < |s| ==> key(s[i]) <= bound
  }

  lemma {:induction false} InsertByKeyAtMost<T>(s: seq<T>, x: T, key: T -> int, bound: int)
    requires KeysAtMost(s, key, bound) && key(x) <= bound
    ensures KeysAtMost(InsertByKey(s, x, key), key, bound)
  {
    if s != [] && key(s[|s| - 1]) > key(x) {
      InsertByKeyAtMost(s[..|s| - 1], x, key, bound);
    }
  }

  lemma {:induction false} InsertByKeyOrdered<T>(s: seq<T>, x: T, key: T -> int)
    requires Ordered(s, key)
    ensures Ordered(InsertByKey(s, x, key), key)
  {
    if s != [] && key(s[|s| - 1]) > key(x) {
      InsertByKeyOrdered(s[..|s| - 1], x, key);
      InsertByKeyAtMost(s[..|s| - 1], x, key, key(s[|s| - 1]));
    }
  }

  lemma {:induction false} InsertByKeyContents<T>(s: seq<T>, x: T, key: T -> int)
    ensures multiset(InsertByKey(s, x, key)) == multiset(s) + multiset{x}
  {
    if s != [] && key(s[|s| - 1]) > key(x) {
      SplitLast(s);
      InsertByKeyContents(s[..|s| - 1], x, key);
    }
  }

  lemma {:induction false} SortByKeyOrdered<T>(s: seq<T>, key: T -> int)
    ensures Ordered(SortByKey(s, key), key)
    ensures multiset(SortByKey(s, key)) == multiset(s)
  {
    if s != [] {
      SortByKeyOrdered(s[..|s| - 1], key);
      InsertByKeyOrdered(SortByKey(s[..|s| - 1], key), s[|s| - 1], key);
      InsertByKeyContents(SortByKey(s[..|s| - 1], key), s[|s| - 1], key);
      SplitLast(s);
    }
  }

  /** The elements with a given key, in order. */
  function WithKey<T>(s: seq<T>, key: T -> int, v: int): seq<T> {
    if s == [] then []
    else WithKey(s[..|s| - 1], key, v) + (if key(s[|s| - 1]) == v then [s[|s| - 1]] else [])
  }

  lemma {:induction false} InsertByKeyStable<T>(s: seq<T>, x: T, key: T -> int, v: int)
    ensures WithKey(InsertByKey(s, x, key), key, v) == WithKey(s + [x], key, v)
  {
    if s != [] && key(s[|s| - 1]) > key(x) {
      var init, last := s[..|s| - 1], s[|s| - 1];
      InsertByKeyStable(init, x, key, v);
    }
  }

  /** Elements with equal keys keep their order. */
  lemma {:induction false} SortByKeyStable<T>(s: seq<T>, key: T -> int, v: int)
    ensures WithKey(SortByKey(s, key), key, v) == WithKey(s, key, v)
  {
    if s != [] {
      var init, last := s[..|s| - 1], s[|s| - 1];
      SortByKeyStable(init, key, v);
      InsertByKeyStable(SortByKey(init, key), last, key, v);
    }
  }

  // ----- How many spans are alive at an instant -----

  function Alive(iv: Interval, t: int): nat {
    if iv.start <= t < iv.end then 1 else 0
  }

  function AliveOn(ivs: seq<Interval>, t: int): nat {
    if ivs == [] then 0 else AliveOn(ivs[..|ivs| - 1], t) + Alive(ivs[|ivs| - 1], t)
  }

  function AliveTotal(lines: seq<seq<Interval>>, t: int): nat {
    if lines == [] then 0 else AliveTotal(lines[..|lines| - 1], t) + AliveOn(lines[|lines| - 1], t)
  }

  function AliveSpans(spans: seq<Span>, t: int): nat {
    if spans == [] then 0 else AliveSpans(spans[..|spans| - 1], t) + Alive(spans[|spans| - 1].time, t)
  }

  lemma {:induction false} AliveOnConcat(a: seq<Interval>, b: seq<Interval>, t: int)
    ensures AliveOn(a + b, t) == AliveOn(a, t) + AliveOn(b, t)
  {
    if b == [] {
      assert a + b == a;
    } else {
      assert (a + b)[..|a + b| - 1] == a + b[..|b| - 1];
      AliveOnConcat(a, b[..|b| - 1], t);
    }
  }

  lemma {:induction false} AliveInsorted(ivs: seq<Interval>, iv: Interval, t: int)
    ensures AliveOn(Insorted(ivs, iv), t) == AliveOn(ivs, t) + Alive(iv, t)
  {
    var at := InsertAt(ivs, iv);
    var a, b := ivs[..at], ivs[at..];
    assert ivs == a + b;
    AliveOnConcat(a, b, t);
    AliveOnConcat(a, [iv], t);
    AliveOnConcat(a + [iv], b, t);
  }

  lemma {:induction false} AliveTotalUpdate(lines: seq<seq<Interval>>, k: nat, line: seq<Interval>, t: int)
    requires k < |lines|
    ensures AliveTotal(lines[k := line], t) + AliveOn(lines[k], t) == AliveTotal(lines, t) + AliveOn(line, t)
  {
    var n := |lines| - 1;
    if k == n {
      assert lines[k := line][..n] == lines[..n];
    } else {
      assert lines[k := line][..n] == lines[..n][k := line];
      AliveTotalUpdate(lines[..n], k, line, t);
    }
  }

  predicate Positive(iv: Interval) {
    iv.start < iv.end
  }

  /** An overlap-free line of intervals of positive length. */
  ghost predicate PositiveLane(ivs: seq<Interval>) {
    Laned(ivs) && forall k :: 0 <= k < |ivs| ==> Positive(ivs[k])
  }

  ghost predicate PositiveLanes(lines: seq<seq<Interval>>) {
    forall k :: 0 <= k < |lines| ==> PositiveLane(lines[k])
  }

  /** On one line at most one span is alive at a time. */
  lemma {:induction false} LaneAliveOnce(ivs: seq<Interval>, t: int)
    requires PositiveLane(ivs)
    ensures AliveOn(ivs, t) <= 1
    ensures ivs != [] && t >= ivs[|ivs| - 1].end ==> AliveOn(ivs, t) == 0
  {
    if |ivs| > 1 {
      LaneAliveOnce(ivs[..|ivs| - 1], t);
      assert ivs[|ivs| - 2].end <= ivs[|ivs| - 1].start;
    }
  }

  lemma {:induction false} AtMostOnePerLine(lines: seq<seq<Interval>>, t: int)
    requires PositiveLanes(lines)
    ensures AliveTotal(lines, t) <= |lines|
  {
    if lines != [] {
      AtMostOnePerLine(lines[..|lines| - 1], t);
      LaneAliveOnce(lines[|lines| - 1], t);
    }
  }

  lemma {:induction false} OnePerLine(lines: seq<seq<Interval>>, t: int)
    requires forall k :: 0 <= k < |lines| ==> AliveOn(lines[k], t) >= 1
    ensures AliveTotal(lines, t) >= |lines|
  {
    if lines != [] {
      OnePerLine(lines[..|lines| - 1], t);
    }
  }

  // ----- Optimality for spans that arrive sorted by start -----

  function Lines(graph: Graph, pid: Pid): seq<seq<Interval>> {
    if pid in graph then graph[pid] else []
  }

  /** Nothing on the process's lines starts after `bound`. */
  ghost predicate StartedBy(lines: seq<seq<Interval>>, bound: int) {
    forall k, j :: 0 <= k < |lines| && 0 <= j < |lines[k]| ==> lines[k][j].start <= bound
  }

  /** The lines are free of overlaps, hold exactly the given spans, and as many as there are lines were alive
      together at some instant. */
  ghost predicate Tight(lines: seq<seq<Interval>>, spans: seq<Span>) {
    && PositiveLanes(lines)
    && (forall t :: AliveTotal(lines, t) == AliveSpans(spans, t))
    && (lines == [] || exists t :: AliveSpans(spans, t) >= |lines|)
  }

  lemma {:induction false} AliveSpansSnoc(spans: seq<Span>, span: Span, t: int)
    ensures AliveSpans(spans + [span], t) == AliveSpans(spans, t) + Alive(span.time, t)
  {
    assert (spans + [span])[..|spans|] == spans;
  }

  /** How placing changes the lines of the span's process. */
  lemma {:induction false} PlacedLines(l: Layout, span: Span)
    requires WellFormed(l.graph, l.status)
    ensures var c := FindLine(l, span.pid, span.time);
            var lines, lines' := Lines(l.graph, span.pid), Lines(Place(l, span).graph, span.pid);
            PutOn(lines, lines', c.line, span.time)
  {
    assert Insorted([], span.time) == [span.time];
  }

  /** The span went to line number `line`, a new one if there was no such line yet. */
  ghost predicate PutOn(lines: seq<seq<Interval>>, lines': seq<seq<Interval>>, line: nat, iv: Interval) {
    && 1 <= line <= |lines| + 1
    && lines' == if line <= |lines| then lines[line - 1 := Insorted(lines[line - 1], iv)] else lines + [[iv]]
  }

  lemma {:induction false} PutKeepsLanes(lines: seq<seq<Interval>>, lines': seq<seq<Interval>>, line: nat, iv: Interval)
    requires PositiveLanes(lines) && Positive(iv) && PutOn(lines, lines', line, iv)
    requires line <= |lines| ==> !CheckOverlap(lines[line - 1], iv)
    ensures PositiveLanes(lines')
  {
    if line <= |lines| {
      var ivs := lines[line - 1];
      CheckedInsertKeepsLane(ivs, iv);
      assert forall k :: 0 <= k < |Insorted(ivs, iv)| ==> Positive(Insorted(ivs, iv)[k]);
    }
  }

  lemma {:induction false} PlaceStaysTight(l: Layout, spans: seq<Span>, span: Span)
    requires WellFormed(l.graph, l.status) && Positive(span.time)
    requires Tight(Lines(l.graph, span.pid), spans) && StartedBy(Lines(l.graph, span.pid), span.time.start)
    ensures Tight(Lines(Place(l, span).graph, span.pid), spans + [span])
    ensures StartedBy(Lines(Place(l, span).graph, span.pid), span.time.start)
  {
    var c := FindLine(l, span.pid, span.time);
    PlacedLines(l, span);
    PutStaysTight(Lines(l.graph, span.pid), Lines(Place(l, span).graph, span.pid), c.line, spans, span);
  }

  lemma {:induction false} PutStaysTight(lines: seq<seq<Interval>>, lines': seq<seq<Interval>>, line: nat,
                                         spans: seq<Span>, span: Span)
    requires Positive(span.time)
    requires Tight(lines, spans) && StartedBy(lines, span.time.start) && PutOn(lines, lines', line, span.time)
    requires line <= |lines| ==> !CheckOverlap(lines[line - 1], span.time)
    requires line > |lines| ==> forall k :: 0 <= k < |lines| ==> CheckOverlap(lines[k], span.time)
    ensures Tight(lines', spans + [span]) && StartedBy(lines', span.time.start)
  {
    PutTotals(lines, lines', line, spans, span);
    PutKeepsLanes(lines, lines', line, span.time);
    PlacedStarts(lines, lines', line, span.time);
    if line <= |lines| {
      var t :| AliveSpans(spans, t) >= |lines|;
      AliveSpansSnoc(spans, span, t);
    } else {
      PeakAtOpening(lines, spans, span);
    }
  }

  lemma {:induction false} PutTotals(lines: seq<seq<Interval>>, lines': seq<seq<Interval>>, line: nat,
                                     spans: seq<Span>, span: Span)
    requires PutOn(lines, lines', line, span.time)
    requires forall t :: AliveTotal(lines, t) == AliveSpans(spans, t)
    ensures forall t :: AliveTotal(lines', t) == AliveSpans(spans + [span], t)
  {
    forall t ensures AliveTotal(lines', t) == AliveSpans(spans + [span], t) {
      AliveSpansSnoc(spans, span, t);
      PlacedAlive(lines, lines', line, span.time, t);
    }
  }

  /** When every line conflicts, one span per line and the new one are alive together. */
  lemma {:induction false} PeakAtOpening(lines: seq<seq<Interval>>, spans: seq<Span>, span: Span)
    requires PositiveLanes(lines) && (forall k :: 0 <= k < |lines| ==> CheckOverlap(lines[k], span.time))
    requires StartedBy(lines, span.time.start) && Positive(span.time)
    requires forall t :: AliveTotal(lines, t) == AliveSpans(spans, t)
    ensures AliveSpans(spans + [span], span.time.start) >= |lines| + 1
  {
    var t := span.time.start;
    assert forall k :: 0 <= k < |lines| ==> AliveOn(lines[k], t) >= 1;
    OnePerLine(lines, t);
    AliveSpansSnoc(spans, span, t);
  }

  lemma {:induction false} PlacedAlive(lines: seq<seq<Interval>>, lines': seq<seq<Interval>>, line: nat,
                                       iv: Interval, t: int)
    requires PutOn(lines, lines', line, iv)
    ensures AliveTotal(lines', t) == AliveTotal(lines, t) + Alive(iv, t)
  {
    if line <= |lines| {
      AliveInsorted(lines[line - 1], iv, t);
      AliveTotalUpdate(lines, line - 1, Insorted(lines[line - 1], iv), t);
    } else {
      assert lines'[..|lines'| - 1] == lines;
      assert AliveOn([iv], t) == Alive(iv, t);
    }
  }

  lemma {:induction false} PlacedStarts(lines: seq<seq<Interval>>, lines': seq<seq<Interval>>, line: nat, iv: Interval)
    requires StartedBy(lines, iv.start) && PutOn(lines, lines', line, iv)
    ensures StartedBy(lines', iv.start)
  {
    if line <= |lines| {
      var ivs := lines[line - 1];
      assert forall j :: 0 <= j < |ivs| + 1 ==> Insorted(ivs, iv)[j].start <= iv.start;
    }
  }

  ghost predicate SameProcess(spans: seq<Span>, pid: Pid) {
    forall i :: 0 <= i < |spans| ==> spans[i].pid == pid
  }

  ghost predicate ByStart(spans: seq<Span>) {
    forall i, j :: 0 <= i < j < |spans| ==> spans[i].time.start <= spans[j].time.start
  }

  predicate AllPositive(spans: seq<Span>) {
    forall i :: 0 <= i < |spans| ==> Positive(spans[i].time)
  }

  lemma {:induction false} LayStaysTight(l: Layout, spans: seq<Span>, pid: Pid)
    requires WellFormed(l.graph, l.status)
    requires pid !in l.graph && AllPositive(spans) && SameProcess(spans, pid) && ByStart(spans)
    ensures Tight(Lines(Lay(l, spans).graph, pid), spans)
    ensures spans != [] ==> StartedBy(Lines(Lay(l, spans).graph, pid), spans[|spans| - 1].time.start)
    ensures spans == [] <==> pid !in Lay(l, spans).graph
  {
    if spans != [] {
      var init, last := spans[..|spans| - 1], spans[|spans| - 1];
      LayStaysTight(l, init, pid);
      var before := Lay(l, init);
      if init != [] {
        assert spans[|init| - 1].time.start <= last.time.start;
      }
      PlaceStaysTight(before, init, last);
      SplitLast(spans);
    }
  }

  /** The number of lines of a process whose spans arrive sorted by start is the largest number of spans
      alive at one instant: no layout without overlaps could use fewer. */
  lemma {:induction false} OptimalLines(l: Layout, spans: seq<Span>, pid: Pid)
    requires WellFormed(l.graph, l.status)
    requires pid !in l.graph && AllPositive(spans) && SameProcess(spans, pid) && ByStart(spans)
    ensures var k := LineCount(Lay(l, spans).graph, pid);
            && (forall t :: AliveSpans(spans, t) <= k)
            && (spans != [] ==> exists t :: AliveSpans(spans, t) == k)
            && (spans == [] ==> k == 0)
  {
    LayStaysTight(l, spans, pid);
    var lines := Lines(Lay(l, spans).graph, pid);
    forall t ensures AliveSpans(spans, t) <= |lines| {
      assert AliveTotal(lines, t) == AliveSpans(spans, t);
      AtMostOnePerLine(lines, t);
    }
    if spans != [] {
      assert lines != [];
      var t :| AliveSpans(spans, t) >= |lines|;
      assert AliveSpans(spans, t) == |lines|;
    }
  }

  // ----- `generate_perfetto_span_layout` -----

  function StartKey(span: Span): int {
    span.time.start
  }

  function FirstStart(request: seq<Span>): int {
    if request == [] then 0 else request[0].time.start
  }

  function SortEach(requests: seq<seq<Span>>): seq<seq<Span>> {
    if requests == [] then []
    else SortEach(requests[..|requests| - 1]) + [SortByKey(requests[|requests| - 1], StartKey)]
  }

  /** Requests are laid out in the order of their first spans, then the gateway's spans in order of start.
      A request without spans makes the sort key fail. */
  function GenerateLayout(requests: seq<seq<Span>>, smg: seq<Span>): Result<Layout> {
    if [] in requests then Err("list index out of range")
    else Ok(Lay(EngineLayout(requests).(status := map[]), SortByKey(smg, StartKey)))
  }

  function EngineLayout(requests: seq<seq<Span>>): (l: Layout)
    ensures WellFormed(l.graph, l.status)
  {
    LayAll(EMPTY, SortByKey(SortEach(requests), FirstStart))
  }

  lemma {:induction false} SortEachConcat(requests: seq<seq<Span>>)
    ensures multiset(Concat(SortEach(requests))) == multiset(Concat(requests))
  {
    if requests != [] {
      var init, last := requests[..|requests| - 1], requests[|requests| - 1];
      SortEachConcat(init);
      SortByKeyOrdered(last, StartKey);
    }
  }

  lemma {:induction false} InsertByKeyConcat(s: seq<seq<Span>>, x: seq<Span>, key: seq<Span> -> int)
    ensures multiset(Concat(InsertByKey(s, x, key))) == multiset(Concat(s)) + multiset(x)
  {
    if s != [] && key(s[|s| - 1]) > key(x) {
      InsertByKeyConcat(s[..|s| - 1], x, key);
    }
  }

  lemma {:induction false} SortByKeyConcat(s: seq<seq<Span>>, key: seq<Span> -> int)
    ensures multiset(Concat(SortByKey(s, key))) == multiset(Concat(s))
  {
    if s != [] {
      SortByKeyConcat(s[..|s| - 1], key);
      InsertByKeyConcat(SortByKey(s[..|s| - 1], key), s[|s| - 1], key);
    }
  }

  // ----- Layout safety -----

  /** Whenever a zero-length span skips the check, the check would have passed. */
  predicate SkippedChecksPass(requests: seq<seq<Span>>, smg: seq<Span>) {
    && NoneHidesAll(EMPTY, SortByKey(SortEach(requests), FirstStart))
    && NoneHides(EngineLayout(requests).(status := map[]), SortByKey(smg, StartKey))
  }

  /** Layout safety: no two spans of one process overlap on one line, although requests interleave in time and
      keep to their lines, if and only if every check that was skipped would have passed. */
  lemma {:induction false} LayoutSafety(requests: seq<seq<Span>>, smg: seq<Span>)
    ensures GenerateLayout(requests, smg).Ok? ==>
              (NoClash(GenerateLayout(requests, smg).value.placed) <==> SkippedChecksPass(requests, smg))
  {
    var order, last := SortByKey(SortEach(requests), FirstStart), SortByKey(smg, StartKey);
    var engine := EngineLayout(requests).(status := map[]);
    LayAllKeepsGood(EMPTY, order);
    if NoneHidesAll(EMPTY, order) {
      LayKeepsGood(engine, last);
    } else {
      LayGrows(engine, last);
      ClashStays(engine.placed, Lay(engine, last).placed);
    }
  }

  /** No zero-length span lies strictly inside a span of its process. */
  ghost predicate NoneInside(spans: seq<Span>) {
    forall z, s :: z in spans && s in spans && z.pid == s.pid && z.time.start == z.time.end ==>
      !(s.time.start < z.time.start < s.time.end)
  }

  ghost predicate From(spans: seq<Span>, all: seq<Span>) {
    forall i :: 0 <= i < |spans| ==> spans[i] in all
  }

  /** Everything placed is one of the given spans. */
  ghost predicate PlacedFrom(l: Layout, all: seq<Span>) {
    forall p :: p in l.placed ==> p.span in all
  }

  lemma {:induction false} NotInsideNotHidden(l: Layout, span: Span, all: seq<Span>)
    requires Good(l) && PlacedFrom(l, all) && span in all && NoneInside(all)
    ensures !Hides(l, span) && Good(Place(l, span)) && PlacedFrom(Place(l, span), all)
  {
    if Hides(l, span) {
      var q := Covering(l.graph, span, l.status[span.pid]);
      assert false;
    }
    PlaceKeepsGood(l, span);
  }

  lemma {:induction false} NoneInsideNoneHides(l: Layout, spans: seq<Span>, all: seq<Span>)
    requires Good(l) && PlacedFrom(l, all) && NoneInside(all) && From(spans, all)
    ensures NoneHides(l, spans) && Good(Lay(l, spans)) && PlacedFrom(Lay(l, spans), all)
  {
    if spans != [] {
      NoneInsideNoneHides(l, spans[..|spans| - 1], all);
      NotInsideNotHidden(Lay(l, spans[..|spans| - 1]), spans[|spans| - 1], all);
    }
  }

  lemma {:induction false} NoneInsideNoneHidesAll(l: Layout, requests: seq<seq<Span>>, all: seq<Span>)
    requires Good(l) && PlacedFrom(l, all) && NoneInside(all) && From(Concat(requests), all)
    ensures NoneHidesAll(l, requests) && Good(LayAll(l, requests)) && PlacedFrom(LayAll(l, requests), all)
  {
    if requests != [] {
      var init, last := requests[..|requests| - 1], requests[|requests| - 1];
      FromParts(Concat(init), last, all);
      NoneInsideNoneHidesAll(l, init, all);
      NoneInsideNoneHides(LayAll(l, init).(status := map[]), last, all);
    }
  }

  lemma {:induction false} FromParts(a: seq<Span>, b: seq<Span>, all: seq<Span>)
    requires From(a + b, all)
    ensures From(a, all) && From(b, all)
  {
    forall i | 0 <= i < |a| ensures a[i] in all {
      assert (a + b)[i] == a[i];
    }
    forall i | 0 <= i < |b| ensures b[i] in all {
      assert (a + b)[|a| + i] == b[i];
    }
  }

  lemma {:induction false} FromMultiset(spans: seq<Span>, all: seq<Span>)
    requires multiset(spans) <= multiset(all)
    ensures From(spans, all)
  {
    forall i | 0 <= i < |spans| ensures spans[i] in all {
      assert spans[i] in multiset(spans);
    }
  }

  /** The order in which spans are laid out has the given spans only. */
  lemma {:induction false} OrderFrom(requests: seq<seq<Span>>, smg: seq<Span>)
    ensures From(Concat(SortByKey(SortEach(requests), FirstStart)), Concat(requests) + smg)
    ensures From(SortByKey(smg, StartKey), Concat(requests) + smg)
  {
    SortEachConcat(requests);
    SortByKeyConcat(SortEach(requests), FirstStart);
    SortByKeyOrdered(smg, StartKey);
    FromMultiset(Concat(SortByKey(SortEach(requests), FirstStart)), Concat(requests) + smg);
    FromMultiset(SortByKey(smg, StartKey), Concat(requests) + smg);
  }

  /** A condition on the spans alone: no zero-length span lies strictly inside a span of the same process. */
  lemma {:induction false} NothingInsideIsSafe(requests: seq<seq<Span>>, smg: seq<Span>)
    requires NoneInside(Concat(requests) + smg)
    ensures SkippedChecksPass(requests, smg)
    ensures GenerateLayout(requests, smg).Ok? ==> NoClash(GenerateLayout(requests, smg).value.placed)
  {
    var all := Concat(requests) + smg;
    OrderFrom(requests, smg);
    NoneInsideNoneHidesAll(EMPTY, SortByKey(SortEach(requests), FirstStart), all);
    NoneInsideNoneHides(EngineLayout(requests).(status := map[]), SortByKey(smg, StartKey), all);
    LayoutSafety(requests, smg);
  }

  ghost predicate NoneZero(spans: seq<Span>) {
    forall i :: 0 <= i < |spans| ==> spans[i].time.start != spans[i].time.end
  }

  /** In particular when no span has length zero; spans that the trim made negative do no harm. */
  lemma {:induction false} NoZeroLengthIsSafe(requests: seq<seq<Span>>, smg: seq<Span>)
    requires NoneZero(Concat(requests) + smg)
    ensures GenerateLayout(requests, smg).Ok? ==> NoClash(GenerateLayout(requests, smg).value.placed)
  {
    var all := Concat(requests) + smg;
    assert NoneInside(all);
    NothingInsideIsSafe(requests, smg);
  }

  lemma {:induction false} SortedAlready<T>(s: seq<T>, key: T -> int)
    requires Ordered(s, key)
    ensures SortByKey(s, key) == s
  {
    if s != [] {
      SortedAlready(s[..|s| - 1], key);
      SplitLast(s);
    }
  }

  /** What the layout is for two requests whose spans come in order. */
  function LayTwo(first: seq<Span>, second: seq<Span>): Layout {
    Lay(Lay(FRESH, first).(status := map[]), second)
  }

  lemma {:induction false} TwoRequests(first: seq<Span>, second: seq<Span>)
    requires first != [] && second != [] && Ordered(first, StartKey) && Ordered(second, StartKey)
    requires first[0].time.start <= second[0].time.start
    ensures GenerateLayout([first, second], []) == Ok(LayTwo(first, second).(status := map[]))
  {
    SortTwo(first, second);
    var both := [first, second];
    assert both[..1] == [first] && [first][..0] == [];
    assert LayAll(EMPTY, []) == EMPTY;
    assert LayAll(EMPTY, [first]) == Lay(FRESH, first);
    assert LayAll(EMPTY, both) == LayTwo(first, second);
  }

  lemma {:induction false} SortTwo(first: seq<Span>, second: seq<Span>)
    requires first != [] && second != [] && Ordered(first, StartKey) && Ordered(second, StartKey)
    requires first[0].time.start <= second[0].time.start
    ensures SortByKey(SortEach([first, second]), FirstStart) == [first, second]
  {
    SortedAlready(first, StartKey);
    SortedAlready(second, StartKey);
    var both := [first, second];
    assert both[..1] == [first] && [first][..0] == [];
    assert SortEach([first]) == [first];
    assert SortEach(both) == both;
    SortedAlready(both, FirstStart);
  }

  lemma {:induction false} LayOne(l: Layout, span: Span)
    requires WellFormed(l.graph, l.status)
    ensures Lay(l, [span]) == Place(l, span)
  {
    assert [span][..0] == [];
  }

  lemma {:induction false} PlaceFirst(l: Layout, span: Span)
    requires WellFormed(l.graph, l.status) && span.pid !in l.graph
    ensures var l' := Place(l, span);
            && l'.graph[span.pid] == [[span.time]] && l'.placed == l.placed + [Placed(span, 1)]
            && span.pid in l'.status && l'.status[span.pid] == 1
  {
    assert span.pid !in l.status;
    assert FindLine(l, span.pid, span.time) == Open(l, span.pid, []);
    assert Insorted([], span.time) == [span.time];
  }

  const FRESH := EMPTY.(status := map[])

  /** After a request of one span. */
  lemma {:induction false} AfterOne(long: Span)
    ensures var l := Lay(FRESH, [long]);
            && long.pid in l.graph && l.graph[long.pid] == [[long.time]] && l.placed == [Placed(long, 1)]
            && long.pid in l.status && l.status[long.pid] == 1
  {
    LayOne(FRESH, long);
    PlaceFirst(FRESH, long);
  }

  /** After a request whose second span has length zero. */
  lemma {:induction false} AfterTwo(long: Span, point: Span)
    requires long.pid == point.pid && point.time.start == point.time.end
    ensures var l := Lay(FRESH, [long, point]);
            && long.pid in l.graph && l.graph[long.pid] == [Insorted([long.time], point.time)]
            && l.placed == [Placed(long, 1), Placed(point, 1)]
  {
    assert [long, point][..1] == [long];
    AfterOne(long);
  }

  /** A trace that breaks: a zero-length span hides the span it lies in, and a later request's span is put on
      top of that one. */
  lemma {:induction false} HiddenSpanIsOverdrawn(pid: Pid)
    ensures var long, point := Span(pid, Interval(0, 10)), Span(pid, Interval(5, 5));
            var short := Span(pid, Interval(6, 8));
            var r := GenerateLayout([[long, point], [short]], []);
            && r.Ok? && r.value.placed == [Placed(long, 1), Placed(point, 1)] + [Placed(short, 1)]
            && !Compatible(Placed(long, 1), Placed(short, 1))
  {
    var long, point := Span(pid, Interval(0, 10)), Span(pid, Interval(5, 5));
    var short := Span(pid, Interval(6, 8));
    TwoRequests([long, point], [short]);
    AfterTwo(long, point);
    PointBehind(long.time, point.time, short.time);
    var two := Lay(FRESH, [long, point]).(status := map[]);
    LayOne(two, short);
  }

  lemma {:induction false} PointBehind(long: Interval, point: Interval, short: Interval)
    requires long.start < point.start == point.end < short.start
    ensures Insorted([long], point) == [long, point] && !CheckOverlap([long, point], short)
  {
    assert Bisect([long, point], short.start) == 2;
  }

  /** A zero-length span inside another need not do harm: a request's first span is always checked. */
  lemma {:induction false} InsideButHarmless(pid: Pid)
    ensures var long, point := Span(pid, Interval(0, 10)), Span(pid, Interval(5, 5));
            var r := GenerateLayout([[long], [point]], []);
            && r.Ok? && r.value.placed == [Placed(long, 1)] + [Placed(point, 2)] && NoClash(r.value.placed)
            && !NoneInside([long, point])
  {
    var long, point := Span(pid, Interval(0, 10)), Span(pid, Interval(5, 5));
    TwoRequests([long], [point]);
    AfterOne(long);
    var one := Lay(FRESH, [long]).(status := map[]);
    LayOne(one, point);
    PointRefused(long.time, point.time);
    PointIsInside(long, point);
    OtherLine(Placed(long, 1), Placed(point, 2));
  }

  lemma {:induction false} PointIsInside(long: Span, point: Span)
    requires long.pid == point.pid && long.time.start < point.time.start == point.time.end < long.time.end
    ensures !NoneInside([long, point])
  {
    var both := [long, point];
    assert both[0] in both && both[1] in both;
  }

  lemma {:induction false} OtherLine(p: Placed, q: Placed)
    requires p.line != q.line
    ensures NoClash([p] + [q])
  {
  }

  lemma {:induction false} PointRefused(long: Interval, point: Interval)
    requires long.start < point.start == point.end < long.end
    ensures CheckOverlap([long], point)
  {
    assert Bisect([long], point.start) == 1;
  }

  /** Whatever the spans, each is given a line exactly once and the lines of a process are announced once
      each, as 1, 2, ..., k.  The pass fails exactly when some request has no spans. */
  lemma {:induction false} LayoutComplete(requests: seq<seq<Span>>, smg: seq<Span>)
    ensures GenerateLayout(requests, smg).Err? <==> [] in requests
    ensures GenerateLayout(requests, smg).Ok? ==>
              var l := GenerateLayout(requests, smg).value;
              && Numbered(l) && AllSorted(l.graph)
              && multiset(PlacedSpans(l.placed)) == multiset(Concat(requests)) + multiset(smg)
  {
    var order, last := SortByKey(SortEach(requests), FirstStart), SortByKey(smg, StartKey);
    LayAllKeepsSorted(EMPTY, order);
    LayKeepsSorted(EngineLayout(requests).(status := map[]), last);
    LayoutNumbered(order, last);
    LayoutPlaces(requests, smg);
  }

  lemma {:induction false} LayoutNumbered(order: seq<seq<Span>>, last: seq<Span>)
    ensures Numbered(Lay(LayAll(EMPTY, order).(status := map[]), last))
  {
    var engine := LayAll(EMPTY, order).(status := map[]);
    LayAllKeepsNumbered(EMPTY, order);
    assert Numbered(engine);
    LayKeepsNumbered(engine, last);
  }

  lemma {:induction false} LayoutPlaces(requests: seq<seq<Span>>, smg: seq<Span>)
    ensures var l := Lay(EngineLayout(requests).(status := map[]), SortByKey(smg, StartKey));
            multiset(PlacedSpans(l.placed)) == multiset(Concat(requests)) + multiset(smg)
  {
    var order, last := SortByKey(SortEach(requests), FirstStart), SortByKey(smg, StartKey);
    LayAllPlaces(EMPTY, order);
    LayPlaces(EngineLayout(requests).(status := map[]), last);
    SortEachConcat(requests);
    SortByKeyConcat(SortEach(requests), FirstStart);
    SortByKeyOrdered(smg, StartKey);
    assert PlacedSpans(EMPTY.placed) + Concat(order) == Concat(order);
  }

  // ----- The gateway's lines -----

  lemma {:induction false} AliveInsertByKey(s: seq<Span>, x: Span, t: int)
    ensures AliveSpans(InsertByKey(s, x, StartKey), t) == AliveSpans(s, t) + Alive(x.time, t)
  {
    if s == [] || StartKey(s[|s| - 1]) <= StartKey(x) {
      AliveSpansSnoc(s, x, t);
    } else {
      AliveInsertByKey(s[..|s| - 1], x, t);
      AliveSpansSnoc(InsertByKey(s[..|s| - 1], x, StartKey), s[|s| - 1], t);
    }
  }

  lemma {:induction false} AliveSorted(s: seq<Span>, t: int)
    ensures AliveSpans(SortByKey(s, StartKey), t) == AliveSpans(s, t)
  {
    if s != [] {
      AliveSorted(s[..|s| - 1], t);
      AliveInsertByKey(SortByKey(s[..|s| - 1], StartKey), s[|s| - 1], t);
    }
  }

  lemma {:induction false} LayKeepsAbsent(l: Layout, spans: seq<Span>, pid: Pid)
    requires WellFormed(l.graph, l.status) && pid !in l.graph
    requires forall i :: 0 <= i < |spans| ==> spans[i].pid != pid
    ensures pid !in Lay(l, spans).graph
  {
    if spans != [] {
      LayKeepsAbsent(l, spans[..|spans| - 1], pid);
    }
  }

  lemma {:induction false} LayAllKeepsAbsent(l: Layout, requests: seq<seq<Span>>, pid: Pid)
    requires WellFormed(l.graph, l.status) && pid !in l.graph
    requires forall i :: 0 <= i < |Concat(requests)| ==> Concat(requests)[i].pid != pid
    ensures pid !in LayAll(l, requests).graph
  {
    if requests != [] {
      var init, last := requests[..|requests| - 1], requests[|requests| - 1];
      var all := Concat(requests);
      assert all == Concat(init) + last;
      forall i | 0 <= i < |Concat(init)| ensures Concat(init)[i].pid != pid {
        assert all[i] == Concat(init)[i];
      }
      forall i | 0 <= i < |last| ensures last[i].pid != pid {
        assert all[|Concat(init)| + i] == last[i];
      }
      LayAllKeepsAbsent(l, init, pid);
      LayKeepsAbsent(LayAll(l, init).(status := map[]), last, pid);
    }
  }

  ghost predicate AllEngine(spans: seq<Span>) {
    forall i :: 0 <= i < |spans| ==> spans[i].pid.Engine?
  }

  lemma {:induction false} SmgAbsent(requests: seq<seq<Span>>)
    requires AllEngine(Concat(requests))
    ensures Smg !in EngineLayout(requests).graph
  {
    var order := SortByKey(SortEach(requests), FirstStart);
    SortEachConcat(requests);
    SortByKeyConcat(SortEach(requests), FirstStart);
    forall i | 0 <= i < |Concat(order)| ensures Concat(order)[i].pid != Smg {
      assert Concat(order)[i] in multiset(Concat(order));
      assert Concat(order)[i] in Concat(requests);
    }
    LayAllKeepsAbsent(EMPTY, order, Smg);
  }

  /** Optimal gateway layout: the number of lines opened for the gateway's positive-length spans is the
      largest number of them alive at one instant. */
  lemma {:induction false} OptimalSmgLayout(requests: seq<seq<Span>>, smg: seq<Span>)
    requires AllPositive(smg) && SameProcess(smg, Smg) && AllEngine(Concat(requests))
    ensures GenerateLayout(requests, smg).Ok? ==>
              var k := LineCount(GenerateLayout(requests, smg).value.graph, Smg);
              && (forall t :: AliveSpans(smg, t) <= k)
              && (smg != [] ==> exists t :: AliveSpans(smg, t) == k)
              && (smg == [] ==> k == 0)
  {
    var sorted := SortByKey(smg, StartKey);
    SmgAbsent(requests);
    SortedSmg(smg);
    OptimalLines(EngineLayout(requests).(status := map[]), sorted, Smg);
    forall t ensures AliveSpans(sorted, t) == AliveSpans(smg, t) {
      AliveSorted(smg, t);
    }
  }

  lemma {:induction false} SortedSmg(smg: seq<Span>)
    requires SameProcess(smg, Smg) && AllPositive(smg)
    ensures SameProcess(SortByKey(smg, StartKey), Smg) && ByStart(SortByKey(smg, StartKey))
    ensures AllPositive(SortByKey(smg, StartKey))
    ensures |SortByKey(smg, StartKey)| == |smg|
  {
    var sorted := SortByKey(smg, StartKey);
    SortByKeyOrdered(smg, StartKey);
    assert |multiset(sorted)| == |multiset(smg)|;
    forall i | 0 <= i < |sorted| ensures sorted[i].pid == Smg && Positive(sorted[i].time) {
      assert sorted[i] in multiset(sorted);
      assert sorted[i] in smg;
    }
    forall i, j | 0 <= i < j < |sorted| ensures sorted[i].time.start <= sorted[j].time.start {
      assert StartKey(sorted[i]) <= StartKey(sorted[j]);
    }
  }
}
