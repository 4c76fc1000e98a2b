/** The conversion walk over all requests, and what it does to every span. */
module SpanWalk {
  import opened Seqs
  import opened SpanForest

  /** A visit of the walk: the span and the process of the thread it was reached through. */
  datatype Visit = Visit(span: nat, pid: int)

  function Tagged(w: seq<nat>, pid: int): (v: seq<Visit>)
    ensures |v| == |w| && forall i :: 0 <= i < |w| ==> v[i] == Visit(w[i], pid)
  {
    if w == [] then [] else Tagged(w[..|w| - 1], pid) + [Visit(w[|w| - 1], pid)]
  }

  function SpansOf(v: seq<Visit>): (w: seq<nat>)
    ensures |w| == |v| && forall i :: 0 <= i < |v| ==> w[i] == v[i].span
  {
    if v == [] then [] else SpansOf(v[..|v| - 1]) + [v[|v| - 1].span]
  }

  // ----- Which spans the walk over the requests visits -----

  ghost predicate ValidRoots(t: Tree, roots: seq<nat>) {
    NoDup(roots) && forall i :: 0 <= i < |roots| ==> roots[i] < |t.parent| && t.parent[roots[i]].None?
  }

  lemma {:induction false} ThreadPath(t: Tree, r: nat, k: nat)
    requires IsForest(t) && r < |t.parent| && t.parent[r].None? && k < |t.child[r]|
    ensures IsPath(t, [r, t.child[r][k]])
  {
  }

  /** The visits below one request, from thread `k` on; the request and its threads are not converted. */
  function RequestVisits(t: Tree, pids: seq<int>, r: nat, k: nat): seq<Visit>
    requires IsForest(t) && |pids| == |t.parent|
    requires r < |t.parent| && t.parent[r].None? && k <= |t.child[r]|
    decreases |t.child[r]| - k
  {
    if k == |t.child[r]| then []
    else
      ThreadPath(t, r, k);
      Tagged(Kids(t, [r, t.child[r][k]], 0), pids[t.child[r][k]]) + RequestVisits(t, pids, r, k + 1)
  }

  function AllVisits(t: Tree, pids: seq<int>, roots: seq<nat>): seq<Visit>
    requires IsForest(t) && |pids| == |t.parent| && ValidRoots(t, roots)
    decreases |roots|
  {
    if roots == [] then []
    else AllVisits(t, pids, roots[..|roots| - 1]) + RequestVisits(t, pids, roots[|roots| - 1], 0)
  }

  /** The span is at least two levels below the request `q[0]`, in the thread `q[1]`. */
  ghost predicate UnderRequest(t: Tree, q: seq<nat>, x: nat) {
    IsPath(t, q) && |q| >= 3 && Last(q) == x
  }

  lemma {:induction false} RequestVisitPath(t: Tree, pids: seq<int>, r: nat, k: nat, v: Visit) returns (q: seq<nat>)
    requires IsForest(t) && |pids| == |t.parent|
    requires r < |t.parent| && t.parent[r].None? && k <= |t.child[r]| && v in RequestVisits(t, pids, r, k)
    ensures UnderRequest(t, q, v.span) && q[0] == r && v.pid == pids[q[1]]
    ensures exists j :: k <= j < |t.child[r]| && q[1] == t.child[r][j]
    decreases |t.child[r]| - k
  {
    ThreadPath(t, r, k);
    var thread := [r, t.child[r][k]];
    var w := Tagged(Kids(t, thread, 0), pids[t.child[r][k]]);
    if v in w {
      var i :| 0 <= i < |w| && w[i] == v;
      q := KidsPath(t, thread, 0, v.span);
      assert q[..2] == thread;
      assert q[0] == thread[0] && q[1] == thread[1];
    } else {
      q := RequestVisitPath(t, pids, r, k + 1, v);
    }
  }

  lemma {:induction false} AllVisitPath(t: Tree, pids: seq<int>, roots: seq<nat>, v: Visit) returns (q: seq<nat>)
    requires IsForest(t) && |pids| == |t.parent| && ValidRoots(t, roots) && v in AllVisits(t, pids, roots)
    ensures UnderRequest(t, q, v.span) && q[0] in roots && v.pid == pids[q[1]]
  {
    var init, last := roots[..|roots| - 1], roots[|roots| - 1];
    if v in RequestVisits(t, pids, last, 0) {
      q := RequestVisitPath(t, pids, last, 0, v);
    } else {
      q := AllVisitPath(t, pids, init, v);
    }
  }

  lemma {:induction false} RequestVisitsInclude(t: Tree, pids: seq<int>, r: nat, j: nat, k: nat, x: nat)
    requires IsForest(t) && |pids| == |t.parent|
    requires r < |t.parent| && t.parent[r].None? && j <= k < |t.child[r]|
    requires IsPath(t, [r, t.child[r][k]]) && x in Kids(t, [r, t.child[r][k]], 0)
    ensures Visit(x, pids[t.child[r][k]]) in RequestVisits(t, pids, r, j)
    decreases k - j
  {
    if j == k {
      var w := Kids(t, [r, t.child[r][k]], 0);
      var i :| 0 <= i < |w| && w[i] == x;
      assert Tagged(w, pids[t.child[r][k]])[i] == Visit(x, pids[t.child[r][k]]);
    } else {
      RequestVisitsInclude(t, pids, r, j + 1, k, x);
    }
  }

  /** Everything two or more levels below a request is visited, with its own thread's process. */
  lemma {:induction false} EverythingBelowVisited(t: Tree, pids: seq<int>, roots: seq<nat>, q: seq<nat>, x: nat)
    requires IsForest(t) && Complete(t) && |pids| == |t.parent| && ValidRoots(t, roots)
    requires UnderRequest(t, q, x) && q[0] in roots
    ensures Visit(x, pids[q[1]]) in AllVisits(t, pids, roots)
    decreases |roots|
  {
    var r := roots[|roots| - 1];
    if q[0] == r {
      assert t.parent[q[1]] == Some(r);
      var k :| 0 <= k < |t.child[r]| && t.child[r][k] == q[1];
      assert [r, q[1]] == q[..2];
      ThreadPath(t, r, k);
      SubtreeReaches(t, [r, q[1]], q);
      RequestVisitsInclude(t, pids, r, 0, k, x);
    } else {
      EverythingBelowVisited(t, pids, roots[..|roots| - 1], q, x);
    }
  }

  // ----- No span is visited twice -----

  ghost predicate Once(v: seq<Visit>) {
    forall i, j :: 0 <= i < j < |v| ==> v[i].span != v[j].span
  }

  lemma {:induction false} RequestVisitsOnce(t: Tree, pids: seq<int>, r: nat, k: nat)
    requires IsForest(t) && |pids| == |t.parent|
    requires r < |t.parent| && t.parent[r].None? && k <= |t.child[r]|
    ensures Once(RequestVisits(t, pids, r, k))
    decreases |t.child[r]| - k
  {
    if k < |t.child[r]| {
      ThreadPath(t, r, k);
      var thread := [r, t.child[r][k]];
      var a, b := Tagged(Kids(t, thread, 0), pids[t.child[r][k]]), RequestVisits(t, pids, r, k + 1);
      KidsOnce(t, thread, 0);
      RequestVisitsOnce(t, pids, r, k + 1);
      forall x, y | x in a && y in b ensures x.span != y.span {
        ThreadsApart(t, pids, r, k, x, y);
      }
    }
  }

  lemma {:induction false} ThreadsApart(t: Tree, pids: seq<int>, r: nat, k: nat, x: Visit, y: Visit)
    requires IsForest(t) && |pids| == |t.parent|
    requires r < |t.parent| && t.parent[r].None? && k < |t.child[r]| && IsPath(t, [r, t.child[r][k]])
    requires x in Tagged(Kids(t, [r, t.child[r][k]], 0), pids[t.child[r][k]])
    requires y in RequestVisits(t, pids, r, k + 1)
    ensures x.span != y.span
  {
    var thread := [r, t.child[r][k]];
    var w := Tagged(Kids(t, thread, 0), pids[t.child[r][k]]);
    var i :| 0 <= i < |w| && w[i] == x;
    var p := KidsPath(t, thread, 0, x.span);
    assert p[..2] == thread;
    assert p[1] == thread[1];
    var q := RequestVisitPath(t, pids, r, k + 1, y);
    assert NoDup(t.child[r]);
    if x.span == y.span {
      PathUnique(t, p, q);
      assert false;
    }
  }

  lemma {:induction false} AllVisitsOnce(t: Tree, pids: seq<int>, roots: seq<nat>)
    requires IsForest(t) && |pids| == |t.parent| && ValidRoots(t, roots)
    ensures Once(AllVisits(t, pids, roots))
    decreases |roots|
  {
    if roots != [] {
      var init, last := roots[..|roots| - 1], roots[|roots| - 1];
      AllVisitsOnce(t, pids, init);
      RequestVisitsOnce(t, pids, last, 0);
      var a, b := AllVisits(t, pids, init), RequestVisits(t, pids, last, 0);
      forall x, y | x in a && y in b ensures x.span != y.span {
        var p := AllVisitPath(t, pids, init, x);
        var q := RequestVisitPath(t, pids, last, 0, y);
        if x.span == y.span {
          PathUnique(t, p, q);
          assert false;
        }
      }
    }
  }

  // ----- The span lists of the requests -----

  /** `root_span["spans"]`: the spans directly below a request's threads, from thread `k` on. */
  function RequestSpans(t: Tree, r: nat, k: nat): seq<nat>
    requires IsForest(t) && r < |t.parent| && k <= |t.child[r]|
    decreases |t.child[r]| - k
  {
    if k == |t.child[r]| then [] else t.child[t.child[r][k]] + RequestSpans(t, r, k + 1)
  }

  function RequestLists(t: Tree, roots: seq<nat>): seq<seq<nat>>
    requires IsForest(t) && ValidRoots(t, roots)
  {
    if roots == [] then []
    else RequestLists(t, roots[..|roots| - 1]) + [RequestSpans(t, roots[|roots| - 1], 0)]
  }

  function AllRequestSpans(t: Tree, roots: seq<nat>): seq<nat>
    requires IsForest(t) && ValidRoots(t, roots)
  {
    Concat(RequestLists(t, roots))
  }

  lemma {:induction false} RequestSpanPath(t: Tree, r: nat, k: nat, x: nat) returns (j: nat)
    requires IsForest(t) && r < |t.parent| && t.parent[r].None? && k <= |t.child[r]| && x in RequestSpans(t, r, k)
    ensures k <= j < |t.child[r]| && UnderRequest(t, [r, t.child[r][j], x], x)
    decreases |t.child[r]| - k
  {
    var thread := t.child[r][k];
    if x in t.child[thread] {
      j := k;
      ThreadPath(t, r, k);
      var i :| 0 <= i < |t.child[thread]| && t.child[thread][i] == x;
      assert [r, thread] + [x] == [r, thread, x];
    } else {
      j := RequestSpanPath(t, r, k + 1, x);
    }
  }

  lemma {:induction false} RequestSpansOnce(t: Tree, r: nat, k: nat)
    requires IsForest(t) && r < |t.parent| && t.parent[r].None? && k <= |t.child[r]|
    ensures NoDup(RequestSpans(t, r, k))
    decreases |t.child[r]| - k
  {
    if k < |t.child[r]| {
      RequestSpansOnce(t, r, k + 1);
      var a, b := t.child[t.child[r][k]], RequestSpans(t, r, k + 1);
      forall x | x in a ensures x !in b {
        if x in b {
          var j := RequestSpanPath(t, r, k + 1, x);
          ParentOfLast(t, [r, t.child[r][j], x]);
          assert false;
        }
      }
      NoDupConcat(a, b);
    }
  }

  lemma {:induction false} AllRequestSpanPath(t: Tree, roots: seq<nat>, x: nat) returns (q: seq<nat>)
    requires IsForest(t) && ValidRoots(t, roots) && x in AllRequestSpans(t, roots)
    ensures UnderRequest(t, q, x) && q[0] in roots
  {
    var init, last := roots[..|roots| - 1], roots[|roots| - 1];
    if x in AllRequestSpans(t, init) {
      q := AllRequestSpanPath(t, init, x);
    } else {
      var j := RequestSpanPath(t, last, 0, x);
      q := [last, t.child[last][j], x];
    }
  }

  /** No span is listed twice, in one request or in two, and every listed span is converted. */
  lemma {:induction false} RequestSpansApart(t: Tree, pids: seq<int>, roots: seq<nat>)
    requires IsForest(t) && Complete(t) && ValidRoots(t, roots) && |pids| == |t.parent|
    ensures NoDup(AllRequestSpans(t, roots))
    ensures forall x :: x in AllRequestSpans(t, roots) ==> x in SpansOf(AllVisits(t, pids, roots))
    decreases |roots|
  {
    forall x | x in AllRequestSpans(t, roots) ensures x in SpansOf(AllVisits(t, pids, roots)) {
      var q := AllRequestSpanPath(t, roots, x);
      EverythingBelowVisited(t, pids, roots, q, x);
      var v, visits := Visit(x, pids[q[1]]), AllVisits(t, pids, roots);
      var i :| 0 <= i < |visits| && visits[i] == v;
      assert SpansOf(visits)[i] == x;
    }
    if roots != [] {
      var init, last := roots[..|roots| - 1], roots[|roots| - 1];
      RequestSpansApart(t, pids, init);
      RequestSpansOnce(t, last, 0);
      var a, b := AllRequestSpans(t, init), RequestSpans(t, last, 0);
      forall x | x in a ensures x !in b {
        if x in b {
          var p := AllRequestSpanPath(t, init, x);
          var j := RequestSpanPath(t, last, 0, x);
          PathUnique(t, p, [last, t.child[last][j], x]);
          assert false;
        }
      }
      NoDupConcat(a, b);
    }
  }

  // ----- What a visit does -----

  /** The mutable parts of the spans: their end times and the process they were assigned to. */
  datatype Times = Times(ends: seq<int>, pids: seq<Option<int>>)

  const TRIM := 1000

  function Touch(s: Times, v: Visit): Times
    requires v.span < |s.ends| == |s.pids|
  {
    Times(s.ends[v.span := s.ends[v.span] - TRIM], s.pids[v.span := Some(v.pid)])
  }

  ghost predicate InRange(v: seq<Visit>, n: nat) {
    forall i :: 0 <= i < |v| ==> v[i].span < n
  }

  function Converted(s: Times, v: seq<Visit>): (s': Times)
    requires |s.ends| == |s.pids| && InRange(v, |s.ends|)
    ensures |s'.ends| == |s'.pids| == |s.ends|
  {
    if v == [] then s else Touch(Converted(s, v[..|v| - 1]), v[|v| - 1])
  }

  lemma {:induction false} ConvertedConcat(s: Times, a: seq<Visit>, b: seq<Visit>)
    requires |s.ends| == |s.pids| && InRange(a, |s.ends|) && InRange(b, |s.ends|)
    ensures InRange(a + b, |s.ends|) && Converted(s, a + b) == Converted(Converted(s, a), b)
  {
    if b == [] {
      assert a + b == a;
    } else {
      assert (a + b)[..|a + b| - 1] == a + b[..|b| - 1];
      ConvertedConcat(s, a, b[..|b| - 1]);
    }
  }

  lemma {:induction false} ConvertedElsewhere(s: Times, v: seq<Visit>, x: nat)
    requires |s.ends| == |s.pids| && InRange(v, |s.ends|) && x < |s.ends|
    requires forall i :: 0 <= i < |v| ==> v[i].span != x
    ensures Converted(s, v).ends[x] == s.ends[x] && Converted(s, v).pids[x] == s.pids[x]
  {
    if v != [] {
      ConvertedElsewhere(s, v[..|v| - 1], x);
    }
  }

  lemma {:induction false} ConvertedOnce(s: Times, v: seq<Visit>, i: nat)
    requires |s.ends| == |s.pids| && InRange(v, |s.ends|) && Once(v) && i < |v|
    ensures Converted(s, v).ends[v[i].span] == s.ends[v[i].span] - TRIM
    ensures Converted(s, v).pids[v[i].span] == Some(v[i].pid)
  {
    var init := v[..|v| - 1];
    if i == |v| - 1 {
      ConvertedElsewhere(s, init, v[i].span);
    } else {
      ConvertedOnce(s, init, i);
      assert v[i].span != v[|v| - 1].span;
    }
  }

  // ----- The whole conversion of an input -----

  function Initial(spans: seq<OtelSpan>): Times {
    Times(seq(|spans|, i requires 0 <= i < |spans| => spans[i].end), seq(|spans|, _ => None))
  }

  function Pids(spans: seq<OtelSpan>): seq<int> {
    seq(|spans|, i requires 0 <= i < |spans| => spans[i].pid)
  }

  /** The roots are exactly the requests, each once. */
  lemma {:induction false} RootsAreRequests(spans: seq<OtelSpan>, n: nat)
    requires n <= |spans|
    ensures NoDup(RootsUpTo(spans, n))
    ensures forall i :: i in RootsUpTo(spans, n) <==> 0 <= i < n && IsRoot(spans[i])
  {
    if n > 0 {
      RootsAreRequests(spans, n - 1);
    }
  }

  lemma {:induction false} RootsAreValid(spans: seq<OtelSpan>, n: nat)
    requires n <= |spans|
    ensures ValidRoots(Linked(spans), RootsUpTo(spans, n))
    ensures forall i :: i in RootsUpTo(spans, n) <==> 0 <= i < n && IsRoot(spans[i])
  {
    RootsAreRequests(spans, n);
    var t, roots := Linked(spans), RootsUpTo(spans, n);
    forall i | 0 <= i < |roots| ensures roots[i] < |t.parent| && t.parent[roots[i]].None? {
      assert roots[i] in roots;
    }
  }

  ghost function Visits(spans: seq<OtelSpan>): seq<Visit> {
    LinkedIsForest(spans);
    RootsAreValid(spans, |spans|);
    AllVisits(Linked(spans), Pids(spans), RootsUpTo(spans, |spans|))
  }

  lemma {:induction false} VisitsInRange(spans: seq<OtelSpan>)
    ensures InRange(Visits(spans), |spans|) && Once(Visits(spans))
  {
    var t, roots, v := Linked(spans), RootsUpTo(spans, |spans|), Visits(spans);
    LinkedIsForest(spans);
    RootsAreValid(spans, |spans|);
    AllVisitsOnce(t, Pids(spans), roots);
    forall i | 0 <= i < |v| ensures v[i].span < |spans| {
      var q := AllVisitPath(t, Pids(spans), roots, v[i]);
    }
  }

  /** Even with repeated, dangling or cyclic parent identifiers: a span two or more levels below a request
      has its end trimmed by exactly 1000 and gets the process of its own thread span, once; every other
      span is left alone. */
  lemma {:induction false} TrimmedExactlyOnce(spans: seq<OtelSpan>, x: nat)
    requires x < |spans|
    ensures InRange(Visits(spans), |spans|)
    ensures var s := Converted(Initial(spans), Visits(spans)); var t := Linked(spans);
            && (forall q :: UnderRequest(t, q, x) && IsRoot(spans[q[0]]) ==>
                  s.ends[x] == spans[x].end - TRIM && s.pids[x] == Some(spans[q[1]].pid))
            && ((forall q :: UnderRequest(t, q, x) ==> !IsRoot(spans[q[0]])) ==>
                  s.ends[x] == spans[x].end && s.pids[x] == None)
  {
    var t, roots, v, s := Linked(spans), RootsUpTo(spans, |spans|), Visits(spans), Initial(spans);
    LinkedIsForest(spans);
    LinkedIsComplete(spans);
    RootsAreValid(spans, |spans|);
    VisitsInRange(spans);
    forall q | UnderRequest(t, q, x) && IsRoot(spans[q[0]])
      ensures Converted(s, v).ends[x] == spans[x].end - TRIM
      ensures Converted(s, v).pids[x] == Some(spans[q[1]].pid)
    {
      EverythingBelowVisited(t, Pids(spans), roots, q, x);
      var i :| 0 <= i < |v| && v[i] == Visit(x, spans[q[1]].pid);
      ConvertedOnce(s, v, i);
    }
    if forall q :: UnderRequest(t, q, x) ==> !IsRoot(spans[q[0]]) {
      forall i | 0 <= i < |v| ensures v[i].span != x {
        var q := AllVisitPath(t, Pids(spans), roots, v[i]);
      }
      ConvertedElsewhere(s, v, x);
    }
  }
}
