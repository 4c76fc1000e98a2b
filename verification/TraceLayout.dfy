/** Laying out spans on lines: first fit per process, with a preference for the line that the same
    request used last. */
module TraceLayout {
  import opened Seqs
  import opened SpanLines

  datatype Pid = Engine(id: int) | Smg

  datatype Span = Span(pid: Pid, time: Interval)

  /** A span together with the `tid` it was given. */
  datatype Placed = Placed(span: Span, line: nat)

  datatype Slot = Slot(pid: Pid, line: nat)

  type Graph = map<Pid, seq<seq<Interval>>>

  /** `graph`, the request's `trans_graph_status`, `slot_meta_data` and the spans laid out so far. */
  datatype Layout = Layout(graph: Graph, status: map<Pid, nat>, slots: seq<Slot>, placed: seq<Placed>)

  datatype Choice = Choice(layout: Layout, line: nat)

  const EMPTY := Layout(map[], map[], [], [])

  // ----- `__find_line` -----

  /** Lines are numbered from one; a request only remembers lines that exist. */
  ghost predicate WellFormed(graph: Graph, status: map<Pid, nat>) {
    forall pid :: pid in status ==> pid in graph && 1 <= status[pid] <= |graph[pid]|
  }

  /** The first line from position `k` on that is free for the interval. */
  function FirstFree(lines: seq<seq<Interval>>, iv: Interval, k: nat): (r: Option<nat>)
    requires k <= |lines|
    ensures r.Some? ==> k <= r.value < |lines| && !CheckOverlap(lines[r.value], iv)
    ensures r.Some? ==> forall j :: k <= j < r.value ==> CheckOverlap(lines[j], iv)
    ensures r.None? ==> forall j :: k <= j < |lines| ==> CheckOverlap(lines[j], iv)
    decreases |lines| - k
  {
    if k == |lines| then None
    else if !CheckOverlap(lines[k], iv) then Some(k)
    else FirstFree(lines, iv, k + 1)
  }

  /** The search over all lines, and a new line when none is free. */
  function Search(l: Layout, pid: Pid, iv: Interval): Choice {
    if pid !in l.graph then Open(l, pid, [])
    else match FirstFree(l.graph[pid], iv, 0)
      case Some(k) => Choice(l.(status := l.status[pid := k + 1]), k + 1)
      case None => Open(l, pid, l.graph[pid])
  }

  function Open(l: Layout, pid: Pid, lines: seq<seq<Interval>>): Choice {
    var line := |lines| + 1;
    Choice(l.(graph := l.graph[pid := lines + [[]]], status := l.status[pid := line],
              slots := l.slots + [Slot(pid, line)]), line)
  }

  function FindLine(l: Layout, pid: Pid, iv: Interval): (c: Choice)
    requires WellFormed(l.graph, l.status)
    ensures WellFormed(c.layout.graph, c.layout.status)
    ensures pid in c.layout.graph && 1 <= c.line <= |c.layout.graph[pid]|
  {
    if pid in l.status
       && (iv.start == iv.end || !CheckOverlap(l.graph[pid][l.status[pid] - 1], iv))
    then Choice(l, l.status[pid])
    else Search(l, pid, iv)
  }

  function Insert(graph: Graph, pid: Pid, line: nat, iv: Interval): Graph
    requires pid in graph && 1 <= line <= |graph[pid]|
  {
    graph[pid := graph[pid][line - 1 := Insorted(graph[pid][line - 1], iv)]]
  }

  /** Finds a line for the span, puts the span on it and records the choice. */
  function Place(l: Layout, span: Span): (l': Layout)
    requires WellFormed(l.graph, l.status)
    ensures WellFormed(l'.graph, l'.status) && span.pid in l'.graph
    ensures exists line :: l'.placed == l.placed + [Placed(span, line)]
  {
    var c := FindLine(l, span.pid, span.time);
    c.layout.(graph := Insert(c.layout.graph, span.pid, c.line, span.time),
              placed := l.placed + [Placed(span, c.line)])
  }

  /** The spans of one request, in order. */
  function Lay(l: Layout, spans: seq<Span>): (l': Layout)
    requires WellFormed(l.graph, l.status)
    ensures WellFormed(l'.graph, l'.status)
  {
    if spans == [] then l else Place(Lay(l, spans[..|spans| - 1]), spans[|spans| - 1])
  }

  /** The requests, in order; each starts without a line of its own. */
  function LayAll(l: Layout, requests: seq<seq<Span>>): (l': Layout)
    requires WellFormed(l.graph, l.status)
    ensures WellFormed(l'.graph, l'.status)
  {
    if requests == [] then l
    else Lay(LayAll(l, requests[..|requests| - 1]).(status := map[]), requests[|requests| - 1])
  }

  // ----- Layout safety -----

  ghost predicate AllLaned(graph: Graph) {
    forall pid, k :: pid in graph && 0 <= k < |graph[pid]| ==> Laned(graph[pid][k])
  }

  /** The span is stored on the line. */
  ghost predicate Stored(graph: Graph, p: Placed) {
    && p.span.pid in graph && 1 <= p.line <= |graph[p.span.pid]|
    && p.span.time in graph[p.span.pid][p.line - 1]
  }

  /** The lines hold exactly the spans that were given them. */
  ghost predicate Recorded(graph: Graph, placed: seq<Placed>) {
    forall p :: Stored(graph, p) <==> p in placed
  }

  predicate Compatible(p: Placed, q: Placed) {
    p.span.pid == q.span.pid && p.line == q.line ==> !Overlaps(p.span.time, q.span.time)
  }

  /** No two spans of one process overlap on one line. */
  ghost predicate NoClash(placed: seq<Placed>) {
    forall i, j :: 0 <= i < j < |placed| ==> Compatible(placed[i], placed[j])
  }

  ghost predicate Good(l: Layout) {
    WellFormed(l.graph, l.status) && AllLaned(l.graph) && Recorded(l.graph, l.placed) && NoClash(l.placed)
  }

  /** A zero-length span goes to the request's line without the check.  Here the check would have refused it. */
  predicate Hides(l: Layout, span: Span)
    requires WellFormed(l.graph, l.status)
  {
    && span.pid in l.status && span.time.start == span.time.end
    && CheckOverlap(l.graph[span.pid][l.status[span.pid] - 1], span.time)
  }

  /** Apart from that the line that is found is always free. */
  lemma {:induction false} FoundLineIsFree(l: Layout, span: Span)
    requires WellFormed(l.graph, l.status)
    ensures var c := FindLine(l, span.pid, span.time);
            CheckOverlap(c.layout.graph[span.pid][c.line - 1], span.time) <==> Hides(l, span)
  {
  }

  lemma {:induction false} FindLineKeepsGraph(l: Layout, pid: Pid, iv: Interval)
    requires WellFormed(l.graph, l.status) && AllLaned(l.graph)
    ensures var c := FindLine(l, pid, iv);
            && AllLaned(c.layout.graph) && c.layout.placed == l.placed
            && forall p :: Stored(l.graph, p) <==> Stored(c.layout.graph, p)
  {
    var c := FindLine(l, pid, iv);
    if c.layout.graph != l.graph {
      OpenKeepsStored(l.graph, pid, if pid in l.graph then l.graph[pid] else []);
    }
  }

  lemma {:induction false} OpenKeepsStored(graph: Graph, pid: Pid, lines: seq<seq<Interval>>)
    requires if pid in graph then lines == graph[pid] else lines == []
    ensures AllLaned(graph) ==> AllLaned(graph[pid := lines + [[]]])
    ensures forall p :: Stored(graph, p) <==> Stored(graph[pid := lines + [[]]], p)
  {
  }

  lemma {:induction false} InsertStores(graph: Graph, pid: Pid, line: nat, iv: Interval)
    requires pid in graph && 1 <= line <= |graph[pid]|
    ensures forall p :: Stored(Insert(graph, pid, line, iv), p) <==>
                        Stored(graph, p) || p == Placed(Span(pid, iv), line)
  {
    var ivs := graph[pid][line - 1];
    assert forall x :: x in Insorted(ivs, iv) <==> x == iv || x in ivs;
  }

  lemma {:induction false} InsertKeepsLanes(graph: Graph, pid: Pid, line: nat, iv: Interval)
    requires AllLaned(graph) && pid in graph && 1 <= line <= |graph[pid]|
    requires !CheckOverlap(graph[pid][line - 1], iv)
    ensures AllLaned(Insert(graph, pid, line, iv))
  {
    CheckedInsertKeepsLane(graph[pid][line - 1], iv);
  }

  /** Placing a span keeps everything in order if and only if it does not hide behind another. */
  lemma {:induction false} PlaceKeepsGood(l: Layout, span: Span)
    requires Good(l)
    ensures !Hides(l, span) ==> Good(Place(l, span))
    ensures Hides(l, span) ==> !NoClash(Place(l, span).placed)
  {
    var c := FindLine(l, span.pid, span.time);
    var graph := c.layout.graph;
    FoundLineIsFree(l, span);
    FindLineKeepsGraph(l, span.pid, span.time);
    if Hides(l, span) {
      HiddenClashes(graph, l.placed, span, c.line);
    } else {
      StaysClear(graph, l.placed, span, c.line);
      InsertKeepsLanes(graph, span.pid, c.line, span.time);
      InsertStores(graph, span.pid, c.line, span.time);
    }
  }

  lemma {:induction false} StaysClear(graph: Graph, placed: seq<Placed>, span: Span, line: nat)
    requires AllLaned(graph) && Recorded(graph, placed) && NoClash(placed)
    requires span.pid in graph && 1 <= line <= |graph[span.pid]|
    requires !CheckOverlap(graph[span.pid][line - 1], span.time)
    ensures NoClash(placed + [Placed(span, line)])
  {
    forall i | 0 <= i < |placed| ensures Compatible(placed[i], Placed(span, line)) {
      StoredIsCompatible(graph, placed[i], span, line);
    }
  }

  lemma {:induction false} StoredIsCompatible(graph: Graph, p: Placed, span: Span, line: nat)
    requires AllLaned(graph) && Stored(graph, p)
    requires span.pid in graph && 1 <= line <= |graph[span.pid]|
    requires !CheckOverlap(graph[span.pid][line - 1], span.time)
    ensures Compatible(p, Placed(span, line))
  {
    BisectAgreesWithScan(graph[span.pid][line - 1], span.time);
  }

  lemma {:induction false} HiddenClashes(graph: Graph, placed: seq<Placed>, span: Span, line: nat)
    requires AllLaned(graph) && Recorded(graph, placed)
    requires span.pid in graph && 1 <= line <= |graph[span.pid]|
    requires span.time.start == span.time.end && CheckOverlap(graph[span.pid][line - 1], span.time)
    ensures !NoClash(placed + [Placed(span, line)])
  {
    var q := Covering(graph, span, line);
    var i :| 0 <= i < |placed| && placed[i] == q;
    var all := placed + [Placed(span, line)];
    assert !Compatible(all[i], all[|placed|]);
  }

  /** The stored span that a refused zero-length span lies in. */
  lemma {:induction false} Covering(graph: Graph, span: Span, line: nat) returns (q: Placed)
    requires AllLaned(graph) && span.pid in graph && 1 <= line <= |graph[span.pid]|
    requires span.time.start == span.time.end && CheckOverlap(graph[span.pid][line - 1], span.time)
    ensures Stored(graph, q) && q.span.pid == span.pid && q.line == line
    ensures q.span.time.start < span.time.start < q.span.time.end
  {
    var ivs, p := graph[span.pid][line - 1], span.time.start;
    PointCheck(ivs, p);
    var k :| 0 <= k < |ivs| && ivs[k].start < p < ivs[k].end;
    q := Placed(Span(span.pid, ivs[k]), line);
  }

  lemma {:induction false} ClashStays(placed: seq<Placed>, more: seq<Placed>)
    requires !NoClash(placed) && placed <= more
    ensures !NoClash(more)
  {
    var i, j :| 0 <= i < j < |placed| && !Compatible(placed[i], placed[j]);
    assert !Compatible(more[i], more[j]);
  }

  /** No span of the request hides. */
  predicate NoneHides(l: Layout, spans: seq<Span>)
    requires WellFormed(l.graph, l.status)
  {
    spans == []
    || (NoneHides(l, spans[..|spans| - 1]) && !Hides(Lay(l, spans[..|spans| - 1]), spans[|spans| - 1]))
  }

  predicate NoneHidesAll(l: Layout, requests: seq<seq<Span>>)
    requires WellFormed(l.graph, l.status)
  {
    requests == []
    || (&& NoneHidesAll(l, requests[..|requests| - 1])
        && NoneHides(LayAll(l, requests[..|requests| - 1]).(status := map[]), requests[|requests| - 1]))
  }

  lemma {:induction false} LayGrows(l: Layout, spans: seq<Span>)
    requires WellFormed(l.graph, l.status)
    ensures l.placed <= Lay(l, spans).placed
  {
    if spans != [] {
      LayGrows(l, spans[..|spans| - 1]);
    }
  }

  lemma {:induction false} LayKeepsGood(l: Layout, spans: seq<Span>)
    requires Good(l)
    ensures NoneHides(l, spans) ==> Good(Lay(l, spans))
    ensures !NoneHides(l, spans) ==> !NoClash(Lay(l, spans).placed)
  {
    if spans != [] {
      var init, last := spans[..|spans| - 1], spans[|spans| - 1];
      LayKeepsGood(l, init);
      if NoneHides(l, init) {
        PlaceKeepsGood(Lay(l, init), last);
      } else {
        LayGrows(Lay(l, init), [last]);
        ClashStays(Lay(l, init).placed, Lay(l, spans).placed);
      }
    }
  }

  lemma {:induction false} LayAllKeepsGood(l: Layout, requests: seq<seq<Span>>)
    requires Good(l)
    ensures NoneHidesAll(l, requests) ==> Good(LayAll(l, requests))
    ensures !NoneHidesAll(l, requests) ==> !NoClash(LayAll(l, requests).placed)
  {
    if requests != [] {
      var init, last := requests[..|requests| - 1], requests[|requests| - 1];
      LayAllKeepsGood(l, init);
      var mid := LayAll(l, init).(status := map[]);
      if NoneHidesAll(l, init) {
        LayKeepsGood(mid, last);
      } else {
        LayGrows(mid, last);
        ClashStays(mid.placed, LayAll(l, requests).placed);
      }
    }
  }

  // ----- Lines are sorted, whatever the spans -----

  ghost predicate AllSorted(graph: Graph) {
    forall pid, k :: pid in graph && 0 <= k < |graph[pid]| ==> Sorted(graph[pid][k])
  }

  lemma {:induction false} PlaceKeepsSorted(l: Layout, span: Span)
    requires WellFormed(l.graph, l.status) && AllSorted(l.graph)
    ensures AllSorted(Place(l, span).graph)
  {
    var c := FindLine(l, span.pid, span.time);
    InsertKeepsSorted(c.layout.graph, span.pid, c.line, span.time);
  }

  lemma {:induction false} InsertKeepsSorted(graph: Graph, pid: Pid, line: nat, iv: Interval)
    requires AllSorted(graph) && pid in graph && 1 <= line <= |graph[pid]|
    ensures AllSorted(Insert(graph, pid, line, iv))
  {
    InsortKeepsSorted(graph[pid][line - 1], iv);
  }

  lemma {:induction false} LayKeepsSorted(l: Layout, spans: seq<Span>)
    requires WellFormed(l.graph, l.status) && AllSorted(l.graph)
    ensures AllSorted(Lay(l, spans).graph)
  {
    if spans != [] {
      LayKeepsSorted(l, spans[..|spans| - 1]);
      PlaceKeepsSorted(Lay(l, spans[..|spans| - 1]), spans[|spans| - 1]);
    }
  }

  lemma {:induction false} LayAllKeepsSorted(l: Layout, requests: seq<seq<Span>>)
    requires WellFormed(l.graph, l.status) && AllSorted(l.graph)
    ensures AllSorted(LayAll(l, requests).graph)
  {
    if requests != [] {
      LayAllKeepsSorted(l, requests[..|requests| - 1]);
      LayKeepsSorted(LayAll(l, requests[..|requests| - 1]).(status := map[]), requests[|requests| - 1]);
    }
  }

  // ----- Lines are numbered 1, 2, ..., k, and each is announced once -----

  function LineCount(graph: Graph, pid: Pid): nat {
    if pid in graph then |graph[pid]| else 0
  }

  /** The lines announced for a process, in order. */
  function Announced(slots: seq<Slot>, pid: Pid): seq<nat> {
    if slots == [] then []
    else
      var last := slots[|slots| - 1];
      Announced(slots[..|slots| - 1], pid) + (if last.pid == pid then [last.line] else [])
  }

  function UpTo(k: nat): seq<nat> {
    if k == 0 then [] else UpTo(k - 1) + [k]
  }

  ghost predicate Numbered(l: Layout) {
    forall pid :: Announced(l.slots, pid) == UpTo(LineCount(l.graph, pid))
  }

  /** Placing announces a line exactly when it opens one. */
  lemma {:induction false} PlaceAnnounces(l: Layout, span: Span)
    requires WellFormed(l.graph, l.status)
    ensures var l', k := Place(l, span), LineCount(l.graph, span.pid);
            && (forall pid :: pid != span.pid ==> LineCount(l'.graph, pid) == LineCount(l.graph, pid))
            && (|| (l'.slots == l.slots && LineCount(l'.graph, span.pid) == k)
                || (l'.slots == l.slots + [Slot(span.pid, k + 1)] && LineCount(l'.graph, span.pid) == k + 1))
  {
  }

  lemma {:induction false} PlaceKeepsNumbered(l: Layout, span: Span)
    requires WellFormed(l.graph, l.status) && Numbered(l)
    ensures Numbered(Place(l, span))
  {
    var l' := Place(l, span);
    PlaceAnnounces(l, span);
    forall pid ensures Announced(l'.slots, pid) == UpTo(LineCount(l'.graph, pid)) {
      assert Announced(l.slots, pid) == UpTo(LineCount(l.graph, pid));
    }
  }

  lemma {:induction false} LayKeepsNumbered(l: Layout, spans: seq<Span>)
    requires WellFormed(l.graph, l.status) && Numbered(l)
    ensures Numbered(Lay(l, spans))
  {
    if spans != [] {
      LayKeepsNumbered(l, spans[..|spans| - 1]);
      PlaceKeepsNumbered(Lay(l, spans[..|spans| - 1]), spans[|spans| - 1]);
    }
  }

  lemma {:induction false} LayAllKeepsNumbered(l: Layout, requests: seq<seq<Span>>)
    requires WellFormed(l.graph, l.status) && Numbered(l)
    ensures Numbered(LayAll(l, requests))
  {
    if requests != [] {
      var init := requests[..|requests| - 1];
      LayAllKeepsNumbered(l, init);
      var mid := LayAll(l, init).(status := map[]);
      assert Numbered(mid);
      LayKeepsNumbered(mid, requests[|requests| - 1]);
    }
  }

  // ----- Every span is placed once, in order -----

  function PlacedSpans(placed: seq<Placed>): seq<Span> {
    if placed == [] then [] else PlacedSpans(placed[..|placed| - 1]) + [placed[|placed| - 1].span]
  }

  lemma {:induction false} LayPlaces(l: Layout, spans: seq<Span>)
    requires WellFormed(l.graph, l.status)
    ensures PlacedSpans(Lay(l, spans).placed) == PlacedSpans(l.placed) + spans
  {
    if spans == [] {
      assert PlacedSpans(l.placed) + [] == PlacedSpans(l.placed);
    } else {
      var init, last := spans[..|spans| - 1], spans[|spans| - 1];
      LayPlaces(l, init);
      var before := Lay(l, init);
      var line :| Place(before, last).placed == before.placed + [Placed(last, line)];
      SplitLast(spans);
      ConcatAssoc(PlacedSpans(l.placed), init, [last]);
    }
  }

  lemma {:induction false} LayAllPlaces(l: Layout, requests: seq<seq<Span>>)
    requires WellFormed(l.graph, l.status)
    ensures PlacedSpans(LayAll(l, requests).placed) == PlacedSpans(l.placed) + Concat(requests)
  {
    if requests != [] {
      var init := requests[..|requests| - 1];
      LayAllPlaces(l, init);
      var mid, last := LayAll(l, init).(status := map[]), requests[|requests| - 1];
      LayPlaces(mid, last);
      ConcatAssoc(PlacedSpans(l.placed), Concat(init), last);
    }
  }
}
