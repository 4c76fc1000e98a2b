/** The layout pass on the program's mutable objects: containers hanging in a dictionary of dictionaries. */
module LayoutObjects {
  import opened Seqs
  import SpanLines
  import TraceLayout
  import LayoutTheorems

  type Interval = SpanLines.Interval
  type Pid = TraceLayout.Pid
  type Span = TraceLayout.Span

  class SpanLayoutContainer {
    var intervals: seq<Interval>

    constructor ()
      ensures intervals == []
    {
      intervals := [];
    }

    method CheckOverlap(iv: Interval) returns (overlap: bool)
      ensures overlap == SpanLines.CheckOverlap(intervals, iv)
    {
      var idx := SpanLines.Bisect(intervals, iv.start);
      if idx > 0 {
        var prev := intervals[idx - 1];
        if prev.end > iv.start {
          return true;
        }
      }
      if idx < |intervals| {
        var next := intervals[idx];
        if next.start < iv.end {
          return true;
        }
      }
      return false;
    }

    method InsertSpan(iv: Interval)
      modifies this
      ensures intervals == SpanLines.Insorted(old(intervals), iv)
    {
      var idx := SpanLines.InsertAt(intervals, iv);
      intervals := intervals[..idx] + [iv] + intervals[idx..];
    }
  }

  type Lines = seq<SpanLayoutContainer>

  class SpanLayout {
    var graph: map<Pid, Lines>
    var status: map<Pid, nat>
    var slots: seq<TraceLayout.Slot>
    var placed: seq<TraceLayout.Placed>
    ghost var contents: TraceLayout.Graph
    ghost var owner: map<SpanLayoutContainer, (Pid, nat)>

    /** The containers on the lines hold `contents`, and each serves the one line that it belongs to. */
    ghost predicate Linked()
      reads this`graph, this`contents, this`owner, owner.Keys
    {
      && graph.Keys == contents.Keys
      && (forall pid :: pid in graph ==> |graph[pid]| == |contents[pid]|)
      && (forall pid, k :: pid in graph && 0 <= k < |graph[pid]| ==> Holds(graph[pid][k], pid, k, contents[pid][k]))
    }

    ghost predicate Holds(c: SpanLayoutContainer, pid: Pid, k: nat, ivs: seq<Interval>)
      reads this`owner, owner.Keys
    {
      c in owner && owner[c] == (pid, k) && c.intervals == ivs
    }

    ghost predicate Valid()
      reads this, owner.Keys
    {
      Linked() && TraceLayout.WellFormed(contents, status)
    }

    ghost function View(): TraceLayout.Layout
      reads this
    {
      TraceLayout.Layout(contents, status, slots, placed)
    }

    constructor ()
      ensures Valid() && View() == TraceLayout.EMPTY && owner == map[]
    {
      graph, status, slots, placed := map[], map[], [], [];
      contents, owner := map[], map[];
    }

    /** `__find_line`. */
    method FindLine(pid: Pid, iv: Interval) returns (line: nat)
      requires Valid()
      modifies this
      ensures Valid() && fresh(owner.Keys - old(owner.Keys)) && old(owner.Keys) <= owner.Keys
      ensures TraceLayout.Choice(View(), line) == TraceLayout.FindLine(old(View()), pid, iv)
    {
      if pid in status {
        line := status[pid];
        if iv.start == iv.end {
          return;
        }
        var conflict := graph[pid][line - 1].CheckOverlap(iv);
        if !conflict {
          return;
        }
      }
      line := Search(pid, iv);
    }

    method Search(pid: Pid, iv: Interval) returns (line: nat)
      requires Valid()
      modifies this
      ensures Valid() && fresh(owner.Keys - old(owner.Keys)) && old(owner.Keys) <= owner.Keys
      ensures TraceLayout.Choice(View(), line) == TraceLayout.Search(old(View()), pid, iv)
    {
      if pid !in graph {
        line := OpenLine(pid, [], []);
        return;
      }
      var free := FirstFreeLine(pid, iv);
      if free.Some? {
        line := free.value + 1;
        status := status[pid := line];
      } else {
        line := OpenLine(pid, graph[pid], contents[pid]);
      }
    }

    /** The loop over the lines of a process. */
    method FirstFreeLine(pid: Pid, iv: Interval) returns (free: Option<nat>)
      requires Linked() && pid in graph
      ensures free == TraceLayout.FirstFree(contents[pid], iv, 0)
    {
      for k := 0 to |graph[pid]|
        invariant TraceLayout.FirstFree(contents[pid], iv, 0) == TraceLayout.FirstFree(contents[pid], iv, k)
      {
        assert Holds(graph[pid][k], pid, k, contents[pid][k]);
        var conflict := graph[pid][k].CheckOverlap(iv);
        if !conflict {
          return Some(k);
        }
      }
      return None;
    }

    /** Hangs a new, empty container under a process. */
    method AddContainer(pid: Pid, lines: Lines, ghost held: seq<seq<Interval>>)
      requires Linked()
      requires if pid in graph then lines == graph[pid] && held == contents[pid] else lines == [] && held == []
      modifies this`graph, this`contents, this`owner
      ensures Linked() && fresh(owner.Keys - old(owner.Keys)) && old(owner.Keys) <= owner.Keys
      ensures contents == old(contents)[pid := held + [[]]]
    {
      var container := new SpanLayoutContainer();
      graph := graph[pid := lines + [container]];
      contents := contents[pid := held + [[]]];
      owner := owner[container := (pid, |lines|)];
      forall p, k | p in graph && 0 <= k < |graph[p]| ensures Holds(graph[p][k], p, k, contents[p][k]) {
        if p == pid && k == |lines| {
          assert graph[p][k] == container;
        } else {
          assert p in old(graph) && graph[p][k] == old(graph)[p][k] && contents[p][k] == old(contents)[p][k];
        }
      }
    }

    /** Adds an empty line to a process and announces it. */
    method OpenLine(pid: Pid, lines: Lines, ghost held: seq<seq<Interval>>) returns (line: nat)
      requires Valid()
      requires if pid in graph then lines == graph[pid] && held == contents[pid] else lines == [] && held == []
      modifies this
      ensures Valid() && fresh(owner.Keys - old(owner.Keys)) && old(owner.Keys) <= owner.Keys
      ensures TraceLayout.Choice(View(), line) == TraceLayout.Open(old(View()), pid, held)
    {
      line := |lines| + 1;
      AddContainer(pid, lines, held);
      status := status[pid := line];
      slots := slots + [TraceLayout.Slot(pid, line)];
    }

    /** Inserts the span on its line and records the line as its `tid`. */
    method Put(span: Span, line: nat)
      requires Valid() && span.pid in graph && 1 <= line <= |graph[span.pid]|
      modifies this`contents, this`placed, graph[span.pid][line - 1]
      ensures Valid()
      ensures contents == TraceLayout.Insert(old(contents), span.pid, line, span.time)
      ensures placed == old(placed) + [TraceLayout.Placed(span, line)]
    {
      var container := graph[span.pid][line - 1];
      assert Holds(container, span.pid, line - 1, contents[span.pid][line - 1]);
      placed := placed + [TraceLayout.Placed(span, line)];
      contents := TraceLayout.Insert(contents, span.pid, line, span.time);
      container.InsertSpan(span.time);
    }

    method Place(span: Span)
      requires Valid()
      modifies this, owner.Keys
      ensures Valid() && fresh(owner.Keys - old(owner.Keys)) && old(owner.Keys) <= owner.Keys
      ensures View() == TraceLayout.Place(old(View()), span)
    {
      var line := FindLine(span.pid, span.time);
      assert Holds(graph[span.pid][line - 1], span.pid, line - 1, contents[span.pid][line - 1]);
      Put(span, line);
    }

    /** The spans of one request, which starts without a line of its own. */
    method LayRequest(spans: seq<Span>)
      requires Valid()
      modifies this, owner.Keys
      ensures Valid() && fresh(owner.Keys - old(owner.Keys)) && old(owner.Keys) <= owner.Keys
      ensures View() == TraceLayout.Lay(old(View()).(status := map[]), spans)
    {
      status := map[];
      ghost var start := View();
      for j := 0 to |spans|
        invariant Valid() && fresh(owner.Keys - old(owner.Keys)) && old(owner.Keys) <= owner.Keys
        invariant View() == TraceLayout.Lay(start, spans[..j])
      {
        assert spans[..j + 1][..j] == spans[..j];
        assert TraceLayout.Lay(start, spans[..j + 1]) == TraceLayout.Place(View(), spans[j]);
        Place(spans[j]);
      }
      assert spans[..|spans|] == spans;
    }

    /** `generate_perfetto_span_layout` on a fresh layout. */
    method Generate(requests: seq<seq<Span>>, smg: seq<Span>) returns (failed: bool)
      requires Valid() && View() == TraceLayout.EMPTY
      modifies this, owner.Keys
      ensures failed == LayoutTheorems.GenerateLayout(requests, smg).Err?
      ensures !failed ==> Ok(View()) == LayoutTheorems.GenerateLayout(requests, smg)
    {
      if [] in requests {
        return true;
      }
      var order := LayoutTheorems.SortByKey(LayoutTheorems.SortEach(requests), LayoutTheorems.FirstStart);
      for i := 0 to |order|
        invariant Valid() && fresh(owner.Keys - old(owner.Keys)) && old(owner.Keys) <= owner.Keys
        invariant View() == TraceLayout.LayAll(TraceLayout.EMPTY, order[..i])
      {
        LayRequest(order[i]);
        assert order[..i + 1][..i] == order[..i];
      }
      assert order[..|order|] == order;
      LayRequest(LayoutTheorems.SortByKey(smg, LayoutTheorems.StartKey));
      return false;
    }
  }
}
