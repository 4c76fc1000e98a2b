/** What the whole conversion emits: the subtrees of all top-level spans, in whatever order the requests list
    them. */
module SpanEmission {
  import opened Seqs
  import opened SpanForest
  import opened SpanWalk

  /** The way to a top-level span: request, thread, span. */
  function PathTo(t: Tree, x: nat): seq<nat> {
    if x < |t.parent| && t.parent[x].Some? then
      var thread := t.parent[x].value;
      if thread < |t.parent| && t.parent[thread].Some? then [t.parent[thread].value, thread, x] else [x]
    else [x]
  }

  ghost predicate IsTop(t: Tree, x: nat) {
    |PathTo(t, x)| == 3 && IsPath(t, PathTo(t, x))
  }

  ghost predicate AllTop(t: Tree, tops: seq<nat>) {
    forall i :: 0 <= i < |tops| ==> IsTop(t, tops[i])
  }

  lemma {:induction false} TopPath(t: Tree, r: nat, thread: nat, x: nat)
    requires IsPath(t, [r, thread, x])
    ensures IsTop(t, x) && PathTo(t, x) == [r, thread, x]
  {
    var path := [r, thread, x];
    assert t.parent[path[2]] == Some(path[1]) && t.parent[path[1]] == Some(path[0]);
  }

  /** The spans emitted for a list of top-level spans. */
  function Emitted(t: Tree, tops: seq<nat>): seq<nat>
    requires IsForest(t) && AllTop(t, tops)
  {
    if tops == [] then []
    else
      assert IsTop(t, tops[|tops| - 1]);
      Emitted(t, tops[..|tops| - 1]) + Subtree(t, PathTo(t, tops[|tops| - 1]))
  }

  lemma {:induction false} EmittedConcat(t: Tree, a: seq<nat>, b: seq<nat>)
    requires IsForest(t) && AllTop(t, a) && AllTop(t, b)
    ensures AllTop(t, a + b) && Emitted(t, a + b) == Emitted(t, a) + Emitted(t, b)
  {
    if b == [] {
      assert a + b == a;
    } else {
      var init, last := b[..|b| - 1], b[|b| - 1];
      assert IsTop(t, last);
      EmittedConcat(t, a, init);
      ConcatAssoc(a, init, [last]);
      SplitLast(b);
      ConcatAssoc(Emitted(t, a), Emitted(t, init), Subtree(t, PathTo(t, last)));
    }
  }

  lemma {:induction false} ConcatPrefix(lists: seq<seq<nat>>, i: nat)
    requires i <= |lists|
    ensures Concat(lists[..i]) <= Concat(lists)
    decreases |lists| - i
  {
    if i == |lists| {
      assert lists[..i] == lists;
    } else {
      ConcatPrefix(lists, i + 1);
      TakeNext(lists, i);
    }
  }

  /** One more request's list. */
  lemma {:induction false} ListsSplit(t: Tree, lists: seq<seq<nat>>, i: nat)
    requires i < |lists| && AllTop(t, Concat(lists))
    ensures Concat(lists[..i + 1]) == Concat(lists[..i]) + lists[i] && AllTop(t, lists[i])
  {
    TakeNext(lists, i);
    ConcatPrefix(lists, i + 1);
    forall k | 0 <= k < |lists[i]| ensures IsTop(t, lists[i][k]) {
      assert Concat(lists)[|Concat(lists[..i])| + k] == lists[i][k];
    }
  }

  /** An emitted span lies below one of the listed spans. */
  lemma {:induction false} EmittedPath(t: Tree, tops: seq<nat>, x: nat) returns (i: nat, q: seq<nat>)
    requires IsForest(t) && AllTop(t, tops) && x in Emitted(t, tops)
    ensures i < |tops| && IsPath(t, q) && PathTo(t, tops[i]) <= q && Last(q) == x
  {
    var init, last := tops[..|tops| - 1], tops[|tops| - 1];
    if x in Emitted(t, init) {
      i, q := EmittedPath(t, init, x);
    } else {
      i := |tops| - 1;
      assert IsTop(t, last);
      q := SubtreePath(t, PathTo(t, last), x);
    }
  }

  lemma {:induction false} EmittedIncludes(t: Tree, tops: seq<nat>, i: nat, x: nat)
    requires IsForest(t) && AllTop(t, tops) && i < |tops| && IsTop(t, tops[i]) && x in Subtree(t, PathTo(t, tops[i]))
    ensures x in Emitted(t, tops)
  {
    if i < |tops| - 1 {
      EmittedIncludes(t, tops[..|tops| - 1], i, x);
    }
  }

  /** Different top-level spans have nothing in common below them. */
  lemma {:induction false} TopsApart(t: Tree, tops: seq<nat>, y: nat, x: nat)
    requires IsForest(t) && AllTop(t, tops) && IsTop(t, y) && y !in tops && x in Subtree(t, PathTo(t, y))
    ensures x !in Emitted(t, tops)
  {
    var p := SubtreePath(t, PathTo(t, y), x);
    assert p[..3] == PathTo(t, y);
    if x in Emitted(t, tops) {
      var i, q := EmittedPath(t, tops, x);
      assert IsTop(t, tops[i]) && q[..3] == PathTo(t, tops[i]);
      PathUnique(t, p, q);
      assert false;
    }
  }

  lemma {:induction false} EmittedOnce(t: Tree, tops: seq<nat>)
    requires IsForest(t) && AllTop(t, tops) && NoDup(tops)
    ensures NoDup(Emitted(t, tops))
  {
    if tops != [] {
      var init, last := tops[..|tops| - 1], tops[|tops| - 1];
      assert IsTop(t, last);
      EmittedOnce(t, init);
      SubtreeOnce(t, PathTo(t, last));
      forall x | x in Emitted(t, init) ensures x !in Subtree(t, PathTo(t, last)) {
        if x in Subtree(t, PathTo(t, last)) {
          TopsApart(t, init, last, x);
          assert false;
        }
      }
      NoDupConcat(Emitted(t, init), Subtree(t, PathTo(t, last)));
    }
  }

  // ----- Over all requests -----

  lemma {:induction false} ListedIsTop(t: Tree, roots: seq<nat>, x: nat)
    requires IsForest(t) && ValidRoots(t, roots) && x in AllRequestSpans(t, roots)
    ensures IsTop(t, x) && PathTo(t, x)[0] in roots
  {
    var init, last := roots[..|roots| - 1], roots[|roots| - 1];
    if x in AllRequestSpans(t, init) {
      ListedIsTop(t, init, x);
    } else {
      var j := RequestSpanPath(t, last, 0, x);
      TopPath(t, last, t.child[last][j], x);
    }
  }

  lemma {:induction false} SpanIsListed(t: Tree, r: nat, j: nat, k: nat, x: nat)
    requires IsForest(t) && r < |t.parent| && j <= k < |t.child[r]| && x in t.child[t.child[r][k]]
    ensures x in RequestSpans(t, r, j)
    decreases k - j
  {
    var first, rest := t.child[t.child[r][j]], RequestSpans(t, r, j + 1);
    assert RequestSpans(t, r, j) == first + rest;
    if j < k {
      SpanIsListed(t, r, j + 1, k, x);
      assert x in rest;
    } else {
      assert x in first;
    }
  }

  lemma {:induction false} TopIsListed(t: Tree, roots: seq<nat>, r: nat, thread: nat, x: nat)
    requires IsForest(t) && Complete(t) && ValidRoots(t, roots) && r in roots && IsPath(t, [r, thread, x])
    ensures x in AllRequestSpans(t, roots)
    decreases |roots|
  {
    var init, last := roots[..|roots| - 1], roots[|roots| - 1];
    if r == last {
      var path := [r, thread, x];
      assert t.parent[path[2]] == Some(path[1]) && t.parent[path[1]] == Some(path[0]);
      assert x in t.child[thread] && thread in t.child[r];
      var k :| 0 <= k < |t.child[r]| && t.child[r][k] == thread;
      SpanIsListed(t, r, 0, k, x);
    } else {
      TopIsListed(t, init, r, thread, x);
    }
  }

  lemma {:induction false} EmittedIsBelow(t: Tree, roots: seq<nat>, tops: seq<nat>, x: nat) returns (q: seq<nat>)
    requires IsForest(t) && ValidRoots(t, roots) && AllTop(t, tops)
    requires forall i :: 0 <= i < |tops| ==> tops[i] in AllRequestSpans(t, roots)
    requires x in Emitted(t, tops)
    ensures UnderRequest(t, q, x) && q[0] in roots
  {
    var i;
    i, q := EmittedPath(t, tops, x);
    ListedIsTop(t, roots, tops[i]);
    assert q[..3] == PathTo(t, tops[i]);
    assert q[0] == PathTo(t, tops[i])[0];
  }

  lemma {:induction false} BelowIsEmitted(t: Tree, roots: seq<nat>, tops: seq<nat>, q: seq<nat>, x: nat)
    requires IsForest(t) && Complete(t) && ValidRoots(t, roots) && AllTop(t, tops)
    requires forall y :: y in AllRequestSpans(t, roots) ==> y in tops
    requires UnderRequest(t, q, x) && q[0] in roots
    ensures x in Emitted(t, tops)
  {
    assert q[..3] == [q[0], q[1], q[2]];
    assert IsPath(t, q[..3]);
    TopIsListed(t, roots, q[0], q[1], q[2]);
    TopPath(t, q[0], q[1], q[2]);
    var i :| 0 <= i < |tops| && tops[i] == q[2];
    SubtreeReaches(t, PathTo(t, q[2]), q);
    EmittedIncludes(t, tops, i, x);
  }

  /** However the requests order their spans: what is emitted is exactly what was converted, and nothing is
      emitted twice. */
  lemma {:induction false} EmittedExactlyConverted(t: Tree, pids: seq<int>, roots: seq<nat>, tops: seq<nat>)
    requires IsForest(t) && Complete(t) && ValidRoots(t, roots) && |pids| == |t.parent|
    requires multiset(tops) == multiset(AllRequestSpans(t, roots))
    ensures AllTop(t, tops) && NoDup(Emitted(t, tops))
    ensures forall x :: x in Emitted(t, tops) <==> x in SpansOf(AllVisits(t, pids, roots))
  {
    TopsOfRequests(t, pids, roots, tops);
    EmittedOnce(t, tops);
    forall x ensures x in Emitted(t, tops) <==> x in SpansOf(AllVisits(t, pids, roots)) {
      EmittedIffVisited(t, pids, roots, tops, x);
    }
  }

  lemma {:induction false} TopsOfRequests(t: Tree, pids: seq<int>, roots: seq<nat>, tops: seq<nat>)
    requires IsForest(t) && Complete(t) && ValidRoots(t, roots) && |pids| == |t.parent|
    requires multiset(tops) == multiset(AllRequestSpans(t, roots))
    ensures AllTop(t, tops) && NoDup(tops)
    ensures forall y :: y in tops <==> y in AllRequestSpans(t, roots)
  {
    var listed := AllRequestSpans(t, roots);
    RequestSpansApart(t, pids, roots);
    NoDupPermuted(listed, tops);
    forall y ensures y in tops <==> y in listed {
      SameMembers(tops, listed, y);
    }
    forall i | 0 <= i < |tops| ensures IsTop(t, tops[i]) {
      assert tops[i] in tops;
      ListedIsTop(t, roots, tops[i]);
    }
  }

  lemma {:induction false} EmittedIffVisited(t: Tree, pids: seq<int>, roots: seq<nat>, tops: seq<nat>, x: nat)
    requires IsForest(t) && Complete(t) && ValidRoots(t, roots) && |pids| == |t.parent| && AllTop(t, tops)
    requires forall y :: y in tops <==> y in AllRequestSpans(t, roots)
    ensures x in Emitted(t, tops) <==> x in SpansOf(AllVisits(t, pids, roots))
  {
    var visits := AllVisits(t, pids, roots);
    if x in Emitted(t, tops) {
      forall i | 0 <= i < |tops| ensures tops[i] in AllRequestSpans(t, roots) {
        assert tops[i] in tops;
      }
      var q := EmittedIsBelow(t, roots, tops, x);
      EverythingBelowVisited(t, pids, roots, q, x);
      var i :| 0 <= i < |visits| && visits[i] == Visit(x, pids[q[1]]);
      assert SpansOf(visits)[i] == x;
    }
    if x in SpansOf(visits) {
      var i :| 0 <= i < |visits| && SpansOf(visits)[i] == x;
      var q := AllVisitPath(t, pids, roots, visits[i]);
      BelowIsEmitted(t, roots, tops, q, x);
    }
  }
}
