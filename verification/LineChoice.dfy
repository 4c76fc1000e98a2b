/** Which line a span is put on, said of the list of placed spans alone: its request's last line of the process if
    that is free, or else the lowest free line. */
module LineChoice {
  import opened Seqs
  import opened SpanLines
  import opened TraceLayout
  import opened LayoutTheorems

  // ----- Free lines -----

  predicate On(p: Placed, pid: Pid, line: nat) {
    p.span.pid == pid && p.line == line
  }

  /** Of the spans on the line that start before `start`, none comes after `p`. */
  ghost predicate LastBefore(placed: seq<Placed>, pid: Pid, line: nat, start: int, p: Placed) {
    && p.span.time.start < start
    && forall q :: q in placed && On(q, pid, line) && q.span.time.start < start ==> !Less(p.span.time, q.span.time)
  }

  /** No span on the line starts during the interval, and the last one that starts before it has ended by then.
      A line without spans is free. */
  ghost predicate Free(placed: seq<Placed>, pid: Pid, line: nat, iv: Interval) {
    forall p :: p in placed && On(p, pid, line) ==>
      && !(iv.start <= p.span.time.start < iv.end)
      && (LastBefore(placed, pid, line, iv.start, p) ==> p.span.time.end <= iv.start)
  }

  /** The check on a sorted line, without positions. */
  lemma {:induction false} CheckBySpans(ivs: seq<Interval>, iv: Interval)
    requires Sorted(ivs)
    ensures !CheckOverlap(ivs, iv) <==> FreeOn(ivs, iv)
  {
    var idx := Bisect(ivs, iv.start);
    forall k | 0 <= k < |ivs| ensures ivs[k].start < iv.start <==> k < idx {
      if k >= idx {
        StartsAscend(ivs, idx, k);
      }
    }
    if idx > 0 {
      assert NoneLater(ivs, iv.start, ivs[idx - 1]);
    }
    if !CheckOverlap(ivs, iv) {
      forall x | x in ivs ensures Spares(ivs, iv, x) {
        FreeByIndex(ivs, iv, x);
      }
    } else {
      var x := if idx > 0 && ivs[idx - 1].end > iv.start then ivs[idx - 1] else ivs[idx];
      assert x in ivs && !Spares(ivs, iv, x);
    }
  }

  /** The stored interval `x` leaves room. */
  ghost predicate Spares(ivs: seq<Interval>, iv: Interval, x: Interval) {
    && !(iv.start <= x.start < iv.end)
    && (x.start < iv.start && NoneLater(ivs, iv.start, x) ==> x.end <= iv.start)
  }

  ghost predicate FreeOn(ivs: seq<Interval>, iv: Interval) {
    forall x :: x in ivs ==> Spares(ivs, iv, x)
  }

  ghost predicate NoneLater(ivs: seq<Interval>, start: int, x: Interval) {
    forall y :: y in ivs && y.start < start ==> !Less(x, y)
  }

  lemma {:induction false} FreeByIndex(ivs: seq<Interval>, iv: Interval, x: Interval)
    requires Sorted(ivs) && !CheckOverlap(ivs, iv) && x in ivs
    ensures Spares(ivs, iv, x)
  {
    var idx := Bisect(ivs, iv.start);
    var k :| 0 <= k < |ivs| && ivs[k] == x;
    if k >= idx {
      StartsAscend(ivs, idx, k);
    } else if NoneLater(ivs, iv.start, x) {
      var y := ivs[idx - 1];
      assert !Less(x, y) && (k < idx - 1 ==> !Less(y, x));
      assert x == y;
    }
  }

  /** The line holds what was placed on it. */
  ghost predicate Holds(ivs: seq<Interval>, placed: seq<Placed>, pid: Pid, line: nat) {
    forall x :: x in ivs <==> Placed(Span(pid, x), line) in placed
  }

  lemma {:induction false} LineHolds(graph: Graph, placed: seq<Placed>, pid: Pid, line: nat)
    requires Recorded(graph, placed) && pid in graph && 1 <= line <= |graph[pid]|
    ensures Holds(graph[pid][line - 1], placed, pid, line)
  {
    var ivs := graph[pid][line - 1];
    forall x ensures x in ivs <==> Placed(Span(pid, x), line) in placed {
      assert Stored(graph, Placed(Span(pid, x), line)) <==> x in ivs;
    }
  }

  lemma {:induction false} FreeOnIsFree(ivs: seq<Interval>, placed: seq<Placed>, pid: Pid, line: nat, iv: Interval)
    requires Holds(ivs, placed, pid, line)
    ensures Free(placed, pid, line, iv) <==> FreeOn(ivs, iv)
  {
    if Free(placed, pid, line, iv) {
      forall x | x in ivs ensures Spares(ivs, iv, x) {
        var p := Placed(Span(pid, x), line);
        assert p in placed && On(p, pid, line);
        if x.start < iv.start {
          SameLast(ivs, placed, pid, line, iv.start, x);
        }
      }
    }
    if FreeOn(ivs, iv) {
      forall p | p in placed && On(p, pid, line)
        ensures !(iv.start <= p.span.time.start < iv.end)
        ensures LastBefore(placed, pid, line, iv.start, p) ==> p.span.time.end <= iv.start
      {
        var x := p.span.time;
        assert p == Placed(Span(pid, x), line) && Spares(ivs, iv, x);
        if x.start < iv.start {
          SameLast(ivs, placed, pid, line, iv.start, x);
        }
      }
    }
  }

  lemma {:induction false} CheckIsFree(graph: Graph, placed: seq<Placed>, pid: Pid, line: nat, iv: Interval)
    requires Recorded(graph, placed) && pid in graph && 1 <= line <= |graph[pid]| && Sorted(graph[pid][line - 1])
    ensures Free(placed, pid, line, iv) <==> !CheckOverlap(graph[pid][line - 1], iv)
  {
    LineHolds(graph, placed, pid, line);
    CheckBySpans(graph[pid][line - 1], iv);
    FreeOnIsFree(graph[pid][line - 1], placed, pid, line, iv);
  }

  lemma {:induction false} SameLast(ivs: seq<Interval>, placed: seq<Placed>, pid: Pid, line: nat, start: int,
                                    x: Interval)
    requires Holds(ivs, placed, pid, line) && x in ivs && x.start < start
    ensures NoneLater(ivs, start, x) <==> LastBefore(placed, pid, line, start, Placed(Span(pid, x), line))
  {
    if NoneLater(ivs, start, x) {
      forall q | q in placed && On(q, pid, line) && q.span.time.start < start ensures !Less(x, q.span.time) {
        assert q == Placed(Span(pid, q.span.time), line);
      }
    } else {
      var y :| y in ivs && y.start < start && Less(x, y);
      assert On(Placed(Span(pid, y), line), pid, line);
    }
  }

  /** As long as nothing has hidden, a line is free exactly when no span on it conflicts with the interval. */
  lemma {:induction false} FreeIsClear(l: Layout, pid: Pid, line: nat, iv: Interval)
    requires Good(l) && pid in l.graph && 1 <= line <= |l.graph[pid]|
    ensures Free(l.placed, pid, line, iv) <==>
            forall p :: p in l.placed && On(p, pid, line) ==> !Conflicts(p.span.time, iv)
  {
    var ivs := l.graph[pid][line - 1];
    CheckIsFree(l.graph, l.placed, pid, line, iv);
    BisectAgreesWithScan(ivs, iv);
    LineHolds(l.graph, l.placed, pid, line);
    if k :| 0 <= k < |ivs| && Conflicts(ivs[k], iv) {
      var p := Placed(Span(pid, ivs[k]), line);
      assert p in l.placed && On(p, pid, line);
    }
    if p :| p in l.placed && On(p, pid, line) && Conflicts(p.span.time, iv) {
      assert p == Placed(Span(pid, p.span.time), line);
      var k :| 0 <= k < |ivs| && ivs[k] == p.span.time;
    }
  }

  // ----- The choice -----

  /** The line of the last of these spans that is of the process. */
  function LastLine(own: seq<Placed>, pid: Pid): Option<nat> {
    if own == [] then None
    else if own[|own| - 1].span.pid == pid then Some(own[|own| - 1].line)
    else LastLine(own[..|own| - 1], pid)
  }

  ghost predicate LowestFree(placed: seq<Placed>, p: Placed) {
    && p.line >= 1 && Free(placed, p.span.pid, p.line, p.span.time)
    && forall k: nat :: 1 <= k < p.line ==> !Free(placed, p.span.pid, k, p.span.time)
  }

  /** Span `p` was put where it belongs: after the spans of `placed`, of which `own` are those of its request.  It
      stays on the request's last line of the process if that is free or the span has no length; otherwise it goes
      to the lowest free line, which may be one without spans yet. */
  ghost predicate Belongs(placed: seq<Placed>, own: seq<Placed>, p: Placed) {
    var last := LastLine(own, p.span.pid);
    if last.Some?
       && (p.span.time.start == p.span.time.end || Free(placed, p.span.pid, last.value, p.span.time))
    then p.line == last.value
    else LowestFree(placed, p)
  }

  /** The layout's own books agree with the placed spans. */
  ghost predicate Booked(l: Layout, own: seq<Placed>) {
    && WellFormed(l.graph, l.status) && AllSorted(l.graph) && Recorded(l.graph, l.placed)
    && forall pid :: LastLine(own, pid) == if pid in l.status then Some(l.status[pid]) else None
  }

  lemma {:induction false} NewLineIsFree(l: Layout, pid: Pid, iv: Interval)
    requires Recorded(l.graph, l.placed)
    ensures Free(l.placed, pid, LineCount(l.graph, pid) + 1, iv)
  {
    forall p | p in l.placed ensures !On(p, pid, LineCount(l.graph, pid) + 1) {
      assert Stored(l.graph, p);
    }
  }

  lemma {:induction false} SearchFindsLowest(l: Layout, span: Span)
    requires Recorded(l.graph, l.placed) && AllSorted(l.graph)
    ensures LowestFree(l.placed, Placed(span, Search(l, span.pid, span.time).line))
  {
    var pid, iv := span.pid, span.time;
    NewLineIsFree(l, pid, iv);
    if pid in l.graph {
      forall k: nat | 1 <= k <= |l.graph[pid]|
        ensures Free(l.placed, pid, k, iv) <==> !CheckOverlap(l.graph[pid][k - 1], iv)
      {
        CheckIsFree(l.graph, l.placed, pid, k, iv);
      }
    }
  }

  lemma {:induction false} FoundLineBelongs(l: Layout, own: seq<Placed>, span: Span)
    requires Booked(l, own)
    ensures Belongs(l.placed, own, Placed(span, FindLine(l, span.pid, span.time).line))
  {
    SearchFindsLowest(l, span);
    if span.pid in l.status {
      CheckIsFree(l.graph, l.placed, span.pid, l.status[span.pid], span.time);
    }
  }

  lemma {:induction false} PlaceKeepsRecords(l: Layout, span: Span)
    requires WellFormed(l.graph, l.status) && Recorded(l.graph, l.placed)
    ensures Recorded(Place(l, span).graph, Place(l, span).placed)
  {
    var c := FindLine(l, span.pid, span.time);
    if c.layout.graph != l.graph {
      OpenKeepsStored(l.graph, span.pid, if span.pid in l.graph then l.graph[span.pid] else []);
    }
    InsertStores(c.layout.graph, span.pid, c.line, span.time);
  }

  lemma {:induction false} LastLineSnoc(own: seq<Placed>, p: Placed, pid: Pid)
    ensures LastLine(own + [p], pid) == if p.span.pid == pid then Some(p.line) else LastLine(own, pid)
  {
    assert (own + [p])[..|own|] == own;
  }

  lemma {:induction false} PlaceStaysBooked(l: Layout, own: seq<Placed>, span: Span)
    requires Booked(l, own)
    ensures var p := Placed(span, FindLine(l, span.pid, span.time).line);
            && Place(l, span).placed == l.placed + [p] && Booked(Place(l, span), own + [p])
            && Belongs(l.placed, own, p)
  {
    var p, l' := Placed(span, FindLine(l, span.pid, span.time).line), Place(l, span);
    FoundLineBelongs(l, own, span);
    PlaceKeepsSorted(l, span);
    PlaceKeepsRecords(l, span);
    forall pid ensures LastLine(own + [p], pid) == if pid in l'.status then Some(l'.status[pid]) else None {
      LastLineSnoc(own, p, pid);
      assert LastLine(own, pid) == if pid in l.status then Some(l.status[pid]) else None;
    }
  }

  // ----- A request, and all of them -----

  /** Of the placed spans, those from `from` to `to` are one request's, and each was put where it belongs. */
  ghost predicate AllBelong(placed: seq<Placed>, from: nat, to: nat) {
    forall i :: from <= i < to && i < |placed| ==> Belongs(placed[..i], placed[from..i], placed[i])
  }

  lemma {:induction false} BelongStill(placed: seq<Placed>, more: seq<Placed>, from: nat, to: nat)
    requires AllBelong(placed, from, to) && to <= |placed| && placed <= more
    ensures AllBelong(more, from, to)
  {
    forall i | from <= i < to ensures Belongs(more[..i], more[from..i], more[i]) {
      assert more[..i] == placed[..i] && more[from..i] == placed[from..i] && more[i] == placed[i];
    }
  }

  lemma {:induction false} LayBelongs(l: Layout, spans: seq<Span>)
    requires Booked(l, [])
    ensures var l' := Lay(l, spans);
            && l.placed <= l'.placed && |l'.placed| == |l.placed| + |spans|
            && Booked(l', l'.placed[|l.placed|..]) && AllBelong(l'.placed, |l.placed|, |l'.placed|)
  {
    if spans == [] {
      assert l.placed[|l.placed|..] == [];
    } else {
      var init, last, n := spans[..|spans| - 1], spans[|spans| - 1], |l.placed|;
      LayBelongs(l, init);
      var before := Lay(l, init);
      PlaceStaysBooked(before, before.placed[n..], last);
      var l', p := Lay(l, spans), Placed(last, FindLine(before, last.pid, last.time).line);
      assert l'.placed == before.placed + [p];
      assert l'.placed[n..] == before.placed[n..] + [p];
      BelongStill(before.placed, l'.placed, n, |before.placed|);
      assert l'.placed[..|before.placed|] == before.placed && l'.placed[n..|before.placed|] == before.placed[n..];
    }
  }

  /** How many spans come before row `r`. */
  function Before(rows: seq<seq<Span>>, r: nat): nat
    requires r <= |rows|
  {
    if r == 0 then 0 else Before(rows, r - 1) + |rows[r - 1]|
  }

  lemma {:induction false} BeforeSnoc(rows: seq<seq<Span>>, row: seq<Span>, r: nat)
    requires r <= |rows|
    ensures Before(rows + [row], r) == Before(rows, r) <= Before(rows, |rows|)
    decreases |rows|, r
  {
    if r > 0 {
      BeforeSnoc(rows, row, r - 1);
    }
    BeforeGrows(rows, r);
  }

  lemma {:induction false} BeforeGrows(rows: seq<seq<Span>>, r: nat)
    requires r <= |rows|
    ensures Before(rows, r) <= Before(rows, |rows|)
    decreases |rows| - r
  {
    if r < |rows| {
      BeforeGrows(rows, r + 1);
    }
  }

  ghost predicate RowBelongs(placed: seq<Placed>, rows: seq<seq<Span>>, r: nat)
    requires r < |rows|
  {
    AllBelong(placed, Before(rows, r), Before(rows, r) + |rows[r]|)
  }

  ghost predicate RowsBelong(placed: seq<Placed>, rows: seq<seq<Span>>) {
    |placed| == Before(rows, |rows|) && forall r: nat :: r < |rows| ==> RowBelongs(placed, rows, r)
  }

  lemma {:induction false} RowsBelongSnoc(placed: seq<Placed>, more: seq<Placed>, rows: seq<seq<Span>>, row: seq<Span>)
    requires RowsBelong(placed, rows) && placed <= more && |more| == |placed| + |row|
    requires AllBelong(more, |placed|, |more|)
    ensures RowsBelong(more, rows + [row])
  {
    var all := rows + [row];
    BeforeSnoc(rows, row, |rows|);
    forall r: nat | r < |all| ensures RowBelongs(more, all, r) {
      BeforeSnoc(rows, row, if r <= |rows| then r else |rows|);
      if r < |rows| {
        BeforeGrows(rows, r + 1);
        assert RowBelongs(placed, rows, r);
        BelongStill(placed, more, Before(rows, r), Before(rows, r) + |rows[r]|);
      }
    }
  }

  lemma {:induction false} LayAllBelongs(rows: seq<seq<Span>>)
    ensures Booked(LayAll(EMPTY, rows).(status := map[]), []) && RowsBelong(LayAll(EMPTY, rows).placed, rows)
  {
    if rows != [] {
      var init, last := rows[..|rows| - 1], rows[|rows| - 1];
      LayAllBelongs(init);
      var before := LayAll(EMPTY, init).(status := map[]);
      LayBelongs(before, last);
      RowsBelongSnoc(before.placed, Lay(before, last).placed, init, last);
      SplitLast(rows);
    }
  }

  /** The rows of spans in the order in which they are laid out: the requests, then the gateway's spans. */
  function Rows(requests: seq<seq<Span>>, smg: seq<Span>): seq<seq<Span>> {
    SortByKey(SortEach(requests), FirstStart) + [SortByKey(smg, StartKey)]
  }

  lemma {:induction false} LayoutOfRows(requests: seq<seq<Span>>, smg: seq<Span>)
    requires GenerateLayout(requests, smg).Ok?
    ensures GenerateLayout(requests, smg).value == LayAll(EMPTY, Rows(requests, smg))
  {
    var order, rows := SortByKey(SortEach(requests), FirstStart), Rows(requests, smg);
    assert rows[..|rows| - 1] == order;
  }

  /** The whole pass: the placed spans are those of the rows, in order, and each was put where it belongs. */
  lemma {:induction false} EverySpanBelongs(requests: seq<seq<Span>>, smg: seq<Span>)
    requires GenerateLayout(requests, smg).Ok?
    ensures var placed, rows := GenerateLayout(requests, smg).value.placed, Rows(requests, smg);
            PlacedSpans(placed) == Concat(rows) && RowsBelong(placed, rows)
  {
    var rows := Rows(requests, smg);
    LayoutOfRows(requests, smg);
    LayAllBelongs(rows);
    LayAllPlaces(EMPTY, rows);
    assert [] + Concat(rows) == Concat(rows);
  }

  // ----- The order of the rows -----

  lemma {:induction false} SortEachAt(requests: seq<seq<Span>>, r: nat)
    requires r < |requests|
    ensures |SortEach(requests)| == |requests| && SortEach(requests)[r] == SortByKey(requests[r], StartKey)
  {
    if r < |requests| - 1 {
      SortEachAt(requests[..|requests| - 1], r);
    } else if requests[..|requests| - 1] != [] {
      SortEachAt(requests[..|requests| - 1], 0);
    }
  }

  /** Rows of requests come in the order of their first spans' starts, and every row is in order of start. */
  lemma {:induction false} RowsInOrder(requests: seq<seq<Span>>, smg: seq<Span>)
    requires [] !in requests
    ensures var rows := Rows(requests, smg);
            && |rows| == |requests| + 1
            && (forall r :: 0 <= r < |rows| ==> ByStart(rows[r]))
            && (forall r :: 0 <= r < |requests| ==> rows[r] != [])
            && (forall q, r :: 0 <= q < r < |requests| ==> rows[q][0].time.start <= rows[r][0].time.start)
            && multiset(rows[|requests|]) == multiset(smg)
            && multiset(rows[..|requests|]) == multiset(SortEach(requests))
  {
    var each := SortEach(requests);
    var order: seq<seq<Span>> := SortByKey(each, FirstStart);
    SortByKeyOrdered(each, FirstStart);
    SortByKeyOrdered(smg, StartKey);
    SortedByStart(smg);
    if requests != [] {
      SortEachAt(requests, 0);
    }
    assert |multiset(order)| == |multiset(each)|;
    assert Rows(requests, smg)[..|requests|] == order;
    forall r | 0 <= r < |order| ensures ByStart(order[r]) && order[r] != [] {
      RowIsSorted(requests, order[r]);
    }
    forall q, r | 0 <= q < r < |order| ensures order[q][0].time.start <= order[r][0].time.start {
      assert FirstStart(order[q]) <= FirstStart(order[r]);
    }
  }

  /** Each row of a request holds that request's spans. */
  lemma {:induction false} RowsHoldRequests(requests: seq<seq<Span>>)
    ensures |SortEach(requests)| == |requests|
    ensures forall r :: 0 <= r < |requests| ==> multiset(SortEach(requests)[r]) == multiset(requests[r])
  {
    forall r | 0 <= r < |requests|
      ensures |SortEach(requests)| == |requests| && multiset(SortEach(requests)[r]) == multiset(requests[r])
    {
      SortEachAt(requests, r);
      SortByKeyOrdered(requests[r], StartKey);
    }
  }

  lemma {:induction false} SortedByStart(spans: seq<Span>)
    ensures ByStart(SortByKey(spans, StartKey))
  {
    var sorted := SortByKey(spans, StartKey);
    SortByKeyOrdered(spans, StartKey);
    forall i, j | 0 <= i < j < |sorted| ensures sorted[i].time.start <= sorted[j].time.start {
      assert StartKey(sorted[i]) <= StartKey(sorted[j]);
    }
  }

  lemma {:induction false} RowIsSorted(requests: seq<seq<Span>>, row: seq<Span>)
    requires [] !in requests && row in multiset(SortEach(requests))
    ensures ByStart(row) && row != []
  {
    var each := SortEach(requests);
    if requests != [] {
      SortEachAt(requests, 0);
    }
    var r :| 0 <= r < |each| && each[r] == row;
    SortEachAt(requests, r);
    SortedByStart(requests[r]);
    SortByKeyOrdered(requests[r], StartKey);
    assert requests[r] in requests;
    assert |multiset(row)| == |multiset(requests[r])|;
  }
}
