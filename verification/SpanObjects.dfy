/** The span dictionaries as the program mutates them: child lists are filled in one pass, then recursive
    walks trim end times, assign processes and gather what is emitted. */
module SpanObjects {
  import opened Seqs
  import opened SpanForest
  import opened SpanWalk
  import opened SpanEmission

  lemma {:induction false} KidsInRange(t: Tree, path: seq<nat>, k: nat, pid: int)
    requires IsForest(t) && IsPath(t, path) && k <= |t.child[Last(path)]|
    ensures InRange(Tagged(Kids(t, path, k), pid), |t.parent|)
  {
    var w := Kids(t, path, k);
    forall i | 0 <= i < |w| ensures w[i] < |t.parent| {
      var q := KidsPath(t, path, k, w[i]);
    }
  }

  lemma {:induction false} TaggedConcat(a: seq<nat>, b: seq<nat>, pid: int)
    ensures Tagged(a + b, pid) == Tagged(a, pid) + Tagged(b, pid)
  {
  }

  /** Visiting the children from `k` on turns `s` into `goal`. */
  ghost predicate KidsLeft(t: Tree, path: seq<nat>, k: nat, pid: int, s: Times, goal: Times)
    requires IsForest(t) && IsPath(t, path) && k <= |t.child[Last(path)]|
  {
    && |s.ends| == |s.pids| == |t.parent|
    && InRange(Tagged(Kids(t, path, k), pid), |t.parent|)
    && Converted(s, Tagged(Kids(t, path, k), pid)) == goal
  }

  /** Visiting the children from `k` on is visiting child `k` and then the later ones. */
  lemma {:induction false} KidsStep(t: Tree, path: seq<nat>, next: seq<nat>, k: nat, pid: int, s: Times, goal: Times)
    requires IsForest(t) && IsPath(t, path) && k < |t.child[Last(path)]|
    requires next == path + [t.child[Last(path)][k]] && KidsLeft(t, path, k, pid, s, goal)
    ensures IsPath(t, next) && |next| <= |t.parent| && InRange(Tagged(Subtree(t, next), pid), |t.parent|)
    ensures KidsLeft(t, path, k + 1, pid, Converted(s, Tagged(Subtree(t, next), pid)), goal)
  {
    PathBound(t, next);
    KidsInRange(t, path, k + 1, pid);
    var a, b := Subtree(t, next), Kids(t, path, k + 1);
    TaggedConcat(a, b, pid);
    forall i | 0 <= i < |a| ensures Tagged(a, pid)[i].span < |t.parent| {
      assert (Tagged(a, pid) + Tagged(b, pid))[i] == Tagged(a, pid)[i];
    }
    ConvertedConcat(s, Tagged(a, pid), Tagged(b, pid));
  }

  lemma {:induction false} SubtreeStep(t: Tree, path: seq<nat>, pid: int, s: Times)
    requires IsForest(t) && IsPath(t, path) && |s.ends| == |s.pids| == |t.parent|
    ensures InRange(Tagged(Subtree(t, path), pid), |t.parent|)
    ensures InRange(Tagged(Kids(t, path, 0), pid), |t.parent|)
    ensures Converted(s, Tagged(Subtree(t, path), pid))
         == Converted(Touch(s, Visit(Last(path), pid)), Tagged(Kids(t, path, 0), pid))
  {
    var kids := Kids(t, path, 0);
    KidsInRange(t, path, 0, pid);
    TaggedConcat([Last(path)], kids, pid);
    var first := [Visit(Last(path), pid)];
    assert Tagged([Last(path)], pid) == first;
    ConvertedConcat(s, first, Tagged(kids, pid));
    assert first[..0] == [];
    assert Converted(s, first) == Touch(s, first[0]);
  }

  lemma {:induction false} RequestVisitsInRange(t: Tree, pids: seq<int>, r: nat, k: nat)
    requires IsForest(t) && |pids| == |t.parent| && r < |t.parent| && t.parent[r].None? && k <= |t.child[r]|
    ensures InRange(RequestVisits(t, pids, r, k), |t.parent|)
  {
    var v := RequestVisits(t, pids, r, k);
    forall i | 0 <= i < |v| ensures v[i].span < |t.parent| {
      var q := RequestVisitPath(t, pids, r, k, v[i]);
    }
  }

  /** Visiting the first `i` requests turns `start` into `now`. */
  ghost predicate RequestsDone(t: Tree, pids: seq<int>, roots: seq<nat>, i: nat, start: Times, now: Times)
    requires IsForest(t) && |pids| == |t.parent| && i <= |roots|
  {
    && |start.ends| == |start.pids| == |t.parent| && ValidRoots(t, roots[..i])
    && InRange(AllVisits(t, pids, roots[..i]), |t.parent|)
    && now == Converted(start, AllVisits(t, pids, roots[..i]))
  }

  lemma {:induction false} AllVisitsStep(t: Tree, pids: seq<int>, roots: seq<nat>, i: nat, start: Times, now: Times)
    requires IsForest(t) && |pids| == |t.parent| && ValidRoots(t, roots) && i < |roots|
    requires RequestsDone(t, pids, roots, i, start, now)
    ensures InRange(RequestVisits(t, pids, roots[i], 0), |t.parent|)
    ensures RequestsDone(t, pids, roots, i + 1, start, Converted(now, RequestVisits(t, pids, roots[i], 0)))
  {
    assert roots[..i + 1][..i] == roots[..i];
    RequestVisitsInRange(t, pids, roots[i], 0);
    ConvertedConcat(start, AllVisits(t, pids, roots[..i]), RequestVisits(t, pids, roots[i], 0));
  }

  class TraceConverter {
    const spans: seq<OtelSpan>
    var child: seq<seq<nat>>
    var roots: seq<nat>
    var ends: seq<int>
    var pids: seq<Option<int>>

    constructor (spans: seq<OtelSpan>)
      ensures this.spans == spans && Mutable() == Initial(spans)
    {
      this.spans := spans;
      child, roots := [], [];
      ends := seq(|spans|, i requires 0 <= i < |spans| => spans[i].end);
      pids := seq(|spans|, _ => None);
    }

    function Mutable(): Times
      reads this
    {
      Times(ends, pids)
    }

    /** `build_otel_span_tree`: every span's child list is emptied, then each span is filed once. */
    method Build()
      modifies this`child, this`roots
      ensures child == Linked(spans).child && roots == RootsUpTo(spans, |spans|)
    {
      child := seq(|spans|, _ => []);
      roots := [];
      for i := 0 to |spans|
        invariant roots == RootsUpTo(spans, i) && |child| == |spans|
        invariant forall p :: 0 <= p < |spans| ==> child[p] == ChildrenUpTo(spans, p, i)
      {
        if IsRoot(spans[i]) {
          roots := roots + [i];
        } else {
          var parent := LookUp(spans, spans[i].parentSpanId);
          if parent.Some? {
            child := child[parent.value := child[parent.value] + [i]];
          }
        }
      }
    }

    /** The child lists are those of `t`. */
    ghost predicate Built(t: Tree)
      reads this`child
    {
      child == t.child && IsForest(t) && |t.parent| == |spans|
    }

    ghost predicate Sized()
      reads this`ends, this`pids
    {
      |ends| == |pids| == |spans|
    }

    /** `__convert_to_perfetto_span`.  The path is only there to bound the recursion. */
    method Convert(i: nat, pid: int, ghost t: Tree, ghost path: seq<nat>)
      requires Built(t) && Sized() && IsPath(t, path) && Last(path) == i
      modifies this`ends, this`pids
      ensures Sized() && InRange(Tagged(Subtree(t, path), pid), |spans|)
      ensures Mutable() == Converted(old(Mutable()), Tagged(Subtree(t, path), pid))
      decreases |spans| - |path|
    {
      SubtreeStep(t, path, pid, Mutable());
      ends := ends[i := ends[i] - 1000];
      pids := pids[i := Some(pid)];
      ConvertChildren(i, pid, t, path);
    }

    /** The loop over a span's children. */
    method ConvertChildren(i: nat, pid: int, ghost t: Tree, ghost path: seq<nat>)
      requires Built(t) && Sized() && IsPath(t, path) && Last(path) == i
      modifies this`ends, this`pids
      ensures Sized() && InRange(Tagged(Kids(t, path, 0), pid), |spans|)
      ensures Mutable() == Converted(old(Mutable()), Tagged(Kids(t, path, 0), pid))
      decreases |spans| - |path|, 0
    {
      KidsInRange(t, path, 0, pid);
      ghost var goal := Converted(Mutable(), Tagged(Kids(t, path, 0), pid));
      for k := 0 to |child[i]|
        invariant Sized() && KidsLeft(t, path, k, pid, Mutable(), goal)
      {
        ghost var next := path + [child[i][k]];
        KidsStep(t, path, next, k, pid, Mutable(), goal);
        Convert(child[i][k], pid, t, next);
      }
    }

    /** One request of `generate_perfetto_span`: its threads, and the spans of each thread. */
    method ConvertRequest(r: nat, ghost t: Tree)
      requires Built(t) && Sized() && r < |spans| && t.parent[r].None?
      modifies this`ends, this`pids
      ensures Sized() && InRange(RequestVisits(t, Pids(spans), r, 0), |spans|)
      ensures Mutable() == Converted(old(Mutable()), RequestVisits(t, Pids(spans), r, 0))
    {
      ghost var all := Pids(spans);
      RequestVisitsInRange(t, all, r, 0);
      ghost var goal := Converted(Mutable(), RequestVisits(t, all, r, 0));
      for k := 0 to |child[r]|
        invariant Sized() && InRange(RequestVisits(t, all, r, k), |spans|)
        invariant Converted(Mutable(), RequestVisits(t, all, r, k)) == goal
      {
        var thread := child[r][k];
        var pid := spans[thread].pid;
        ThreadPath(t, r, k);
        RequestVisitsInRange(t, all, r, k + 1);
        KidsInRange(t, [r, thread], 0, pid);
        ConvertedConcat(Mutable(), Tagged(Kids(t, [r, thread], 0), pid), RequestVisits(t, all, r, k + 1));
        ConvertChildren(thread, pid, t, [r, thread]);
      }
    }

    /** The loop of `generate_perfetto_span` over the engine's requests. */
    method ConvertAll(ghost t: Tree)
      requires Built(t) && Sized() && ValidRoots(t, roots)
      modifies this`ends, this`pids
      ensures Sized() && InRange(AllVisits(t, Pids(spans), roots), |spans|)
      ensures Mutable() == Converted(old(Mutable()), AllVisits(t, Pids(spans), roots))
    {
      ghost var all, start := Pids(spans), Mutable();
      for i := 0 to |roots|
        invariant Sized() && RequestsDone(t, all, roots, i, start, Mutable())
      {
        AllVisitsStep(t, all, roots, i, start, Mutable());
        ConvertRequest(roots[i], t);
      }
      assert roots[..|roots|] == roots;
    }

    /** Building the tree and converting: the program's first two passes over the spans. */
    method Run()
      requires Mutable() == Initial(spans)
      modifies this
      ensures InRange(Visits(spans), |spans|)
      ensures Mutable() == Converted(Initial(spans), Visits(spans))
    {
      Build();
      LinkedIsForest(spans);
      RootsAreValid(spans, |spans|);
      ConvertAll(Linked(spans));
    }

    /** `__gather_one_span`: the spans emitted below span `i`, in order, none twice. */
    method Gather(i: nat, ghost t: Tree, ghost path: seq<nat>) returns (elems: seq<nat>)
      requires Built(t) && IsPath(t, path) && Last(path) == i
      ensures elems == Subtree(t, path) && NoDup(elems)
      decreases |spans| - |path|
    {
      PathBound(t, path);
      elems := [i];
      for k := 0 to |child[i]|
        invariant elems + Kids(t, path, k) == Subtree(t, path)
      {
        ghost var next := path + [child[i][k]];
        PathBound(t, next);
        var below := Gather(child[i][k], t, next);
        elems := elems + below;
      }
      SubtreeOnce(t, path);
    }

    /** One request's part of the gathering loop. */
    method GatherList(list: seq<nat>, ghost t: Tree) returns (elems: seq<nat>)
      requires Built(t) && AllTop(t, list)
      ensures elems == Emitted(t, list)
    {
      elems := [];
      for k := 0 to |list|
        invariant elems == Emitted(t, list[..k])
      {
        assert IsTop(t, list[k]);
        var below := Gather(list[k], t, PathTo(t, list[k]));
        TakeNext(list, k);
        elems := elems + below;
      }
      assert list[..|list|] == list;
    }

    /** The loop over the requests. */
    method GatherLists(lists: seq<seq<nat>>, ghost t: Tree) returns (elems: seq<nat>)
      requires Built(t) && AllTop(t, Concat(lists))
      ensures elems == Emitted(t, Concat(lists))
    {
      elems := [];
      for i := 0 to |lists|
        invariant AllTop(t, Concat(lists[..i])) && elems == Emitted(t, Concat(lists[..i]))
      {
        ListsSplit(t, lists, i);
        var part := GatherList(lists[i], t);
        EmittedConcat(t, Concat(lists[..i]), lists[i]);
        elems := elems + part;
      }
      assert lists[..|lists|] == lists;
    }

    /** The engine's part of `gather_all_perfetto_elems`, for any order of the requests' span lists: every
        converted span is emitted, once, and nothing else. */
    method GatherAll(lists: seq<seq<nat>>, ghost t: Tree) returns (elems: seq<nat>)
      requires Built(t) && Complete(t) && ValidRoots(t, roots)
      requires multiset(Concat(lists)) == multiset(AllRequestSpans(t, roots))
      ensures AllTop(t, Concat(lists)) && elems == Emitted(t, Concat(lists)) && NoDup(elems)
      ensures forall x :: x in elems <==> x in SpansOf(AllVisits(t, Pids(spans), roots))
    {
      EmittedExactlyConverted(t, Pids(spans), roots, Concat(lists));
      elems := GatherLists(lists, t);
    }
  }
}
