/** Spans linked by parent identifiers.  Identifiers may repeat, dangle or form cycles; what hangs below the
    request roots is a forest all the same. */
module SpanForest {
  import opened Seqs

  datatype OtelSpan = OtelSpan(spanId: string, parentSpanId: string, kind: string, pid: int, start: int, end: int)

  predicate IsRoot(span: OtelSpan) {
    span.kind == "sglang::request" || span.kind == "sglang::mooncake"
  }

  /** `span_id_map.get(id)`: among spans with the same identifier the last one wins. */
  function LookUp(spans: seq<OtelSpan>, id: string): (r: Option<nat>)
    ensures r.Some? ==> r.value < |spans| && spans[r.value].spanId == id
    ensures r.Some? ==> forall i :: r.value < i < |spans| ==> spans[i].spanId != id
    ensures r.None? <==> forall i :: 0 <= i < |spans| ==> spans[i].spanId != id
  {
    if spans == [] then None
    else if spans[|spans| - 1].spanId == id then Some(|spans| - 1)
    else LookUp(spans[..|spans| - 1], id)
  }

  /** The span to whose `child` list span `i` is appended, if any. */
  function ParentOf(spans: seq<OtelSpan>, i: nat): (r: Option<nat>)
    requires i < |spans|
    ensures r.Some? ==> r.value < |spans|
  {
    if IsRoot(spans[i]) then None else LookUp(spans, spans[i].parentSpanId)
  }

  function RootsUpTo(spans: seq<OtelSpan>, n: nat): seq<nat>
    requires n <= |spans|
  {
    if n == 0 then [] else RootsUpTo(spans, n - 1) + (if IsRoot(spans[n - 1]) then [n - 1] else [])
  }

  function ChildrenUpTo(spans: seq<OtelSpan>, p: nat, n: nat): seq<nat>
    requires n <= |spans|
  {
    if n == 0 then []
    else ChildrenUpTo(spans, p, n - 1) + (if ParentOf(spans, n - 1) == Some(p) then [n - 1] else [])
  }

  // ----- The tree as built -----

  /** Child lists and parents that agree. */
  datatype Tree = Tree(child: seq<seq<nat>>, parent: seq<Option<nat>>)

  ghost predicate IsForest(t: Tree) {
    && |t.child| == |t.parent|
    && (forall q, k :: 0 <= q < |t.child| && 0 <= k < |t.child[q]| ==>
          t.child[q][k] < |t.parent| && t.parent[t.child[q][k]] == Some(q))
    && (forall q :: 0 <= q < |t.child| ==> NoDup(t.child[q]))
  }

  function Linked(spans: seq<OtelSpan>): Tree {
    Tree(seq(|spans|, p requires 0 <= p => ChildrenUpTo(spans, p, |spans|)),
         seq(|spans|, i requires 0 <= i < |spans| => ParentOf(spans, i)))
  }

  lemma {:induction false} ChildrenAreChildren(spans: seq<OtelSpan>, p: nat, n: nat)
    requires n <= |spans|
    ensures forall k :: 0 <= k < |ChildrenUpTo(spans, p, n)| ==>
              ChildrenUpTo(spans, p, n)[k] < n && ParentOf(spans, ChildrenUpTo(spans, p, n)[k]) == Some(p)
    ensures NoDup(ChildrenUpTo(spans, p, n))
    ensures forall i :: 0 <= i < n && ParentOf(spans, i) == Some(p) ==> i in ChildrenUpTo(spans, p, n)
  {
    if n > 0 {
      ChildrenAreChildren(spans, p, n - 1);
    }
  }

  /** Children and requests are listed in the order of the input. */
  lemma {:induction false} ListsInOrder(spans: seq<OtelSpan>, p: nat, n: nat)
    requires n <= |spans|
    ensures Ascending(ChildrenUpTo(spans, p, n)) && Ascending(RootsUpTo(spans, n))
    ensures forall k :: 0 <= k < |ChildrenUpTo(spans, p, n)| ==> ChildrenUpTo(spans, p, n)[k] < n
    ensures forall k :: 0 <= k < |RootsUpTo(spans, n)| ==> RootsUpTo(spans, n)[k] < n
  {
    if n > 0 {
      ListsInOrder(spans, p, n - 1);
    }
  }

  /** Whatever the identifiers, every span is in at most one child list, and there once. */
  lemma {:induction false} LinkedIsForest(spans: seq<OtelSpan>)
    ensures IsForest(Linked(spans))
  {
    forall p | 0 <= p < |spans| ensures NoDup(Linked(spans).child[p]) {
      ChildrenAreChildren(spans, p, |spans|);
    }
    forall q, k | 0 <= q < |spans| && 0 <= k < |Linked(spans).child[q]|
      ensures Linked(spans).child[q][k] < |spans| && Linked(spans).parent[Linked(spans).child[q][k]] == Some(q)
    {
      ChildrenAreChildren(spans, q, |spans|);
    }
  }

  // ----- Paths from a parentless span -----

  ghost predicate IsPath(t: Tree, path: seq<nat>) {
    && path != [] && (forall k :: 0 <= k < |path| ==> path[k] < |t.parent|)
    && t.parent[path[0]].None?
    && (forall k :: 0 < k < |path| ==> t.parent[path[k]] == Some(path[k - 1]))
  }

  function Last(path: seq<nat>): nat
    requires path != []
  {
    path[|path| - 1]
  }

  /** Parents are unique, so a span is reached along one path only. */
  lemma {:induction false} PathUnique(t: Tree, p: seq<nat>, q: seq<nat>)
    requires IsPath(t, p) && IsPath(t, q) && Last(p) == Last(q)
    ensures p == q
    decreases |p|
  {
    ParentOfLast(t, p);
    ParentOfLast(t, q);
    if |p| > 1 {
      PathUnique(t, p[..|p| - 1], q[..|q| - 1]);
      SplitLast(p);
      SplitLast(q);
    }
  }

  lemma {:induction false} ParentOfLast(t: Tree, path: seq<nat>)
    requires IsPath(t, path)
    ensures t.parent[Last(path)] == if |path| == 1 then None else Some(path[|path| - 2])
  {
  }

  /** So a path never comes back to a span, and is no longer than there are spans: the walks terminate. */
  lemma {:induction false} PathBound(t: Tree, path: seq<nat>)
    requires IsPath(t, path)
    ensures NoDup(path) && |path| <= |t.parent|
  {
    forall i, j | 0 <= i < j < |path| ensures path[i] != path[j] {
      if path[i] == path[j] {
        PathUnique(t, path[..i + 1], path[..j + 1]);
        assert false;
      }
    }
    NoDupBound(path, |t.parent|);
  }

  // ----- The recursive walk -----

  /** The spans that the walk visits from the end of `path`, in order. */
  function Subtree(t: Tree, path: seq<nat>): seq<nat>
    requires IsForest(t) && IsPath(t, path)
    decreases |t.parent| - |path|, 1, 0
  {
    PathBound(t, path);
    [Last(path)] + Kids(t, path, 0)
  }

  function Kids(t: Tree, path: seq<nat>, k: nat): seq<nat>
    requires IsForest(t) && IsPath(t, path) && k <= |t.child[Last(path)]|
    decreases |t.parent| - |path|, 0, |t.child[Last(path)]| - k
  {
    PathBound(t, path);
    if k == |t.child[Last(path)]| then []
    else
      PathBound(t, path + [t.child[Last(path)][k]]);
      Subtree(t, path + [t.child[Last(path)][k]]) + Kids(t, path, k + 1)
  }

  /** Everything visited lies on a path that extends the one the walk came along. */
  lemma {:induction false} SubtreePath(t: Tree, path: seq<nat>, x: nat) returns (q: seq<nat>)
    requires IsForest(t) && IsPath(t, path) && x in Subtree(t, path)
    ensures IsPath(t, q) && path <= q && Last(q) == x
    decreases |t.parent| - |path|, 1, 0
  {
    PathBound(t, path);
    if x == Last(path) {
      q := path;
    } else {
      q := KidsPath(t, path, 0, x);
    }
  }

  lemma {:induction false} KidsPath(t: Tree, path: seq<nat>, k: nat, x: nat) returns (q: seq<nat>)
    requires IsForest(t) && IsPath(t, path) && k <= |t.child[Last(path)]| && x in Kids(t, path, k)
    ensures IsPath(t, q) && path < q && Last(q) == x
    ensures exists j :: k <= j < |t.child[Last(path)]| && q[|path|] == t.child[Last(path)][j]
    decreases |t.parent| - |path|, 0, |t.child[Last(path)]| - k
  {
    PathBound(t, path);
    var next := path + [t.child[Last(path)][k]];
    PathBound(t, next);
    if x in Subtree(t, next) {
      q := SubtreePath(t, next, x);
      assert q[..|next|] == next;
      assert q[|path|] == next[|path|];
    } else {
      q := KidsPath(t, path, k + 1, x);
    }
  }

  /** The walk visits no span twice, whatever the identifiers. */
  lemma {:induction false} SubtreeOnce(t: Tree, path: seq<nat>)
    requires IsForest(t) && IsPath(t, path)
    ensures NoDup(Subtree(t, path))
    decreases |t.parent| - |path|, 1, 0
  {
    PathBound(t, path);
    KidsOnce(t, path, 0);
    var kids := Kids(t, path, 0);
    if Last(path) in kids {
      var q := KidsPath(t, path, 0, Last(path));
      PathUnique(t, path, q);
      assert false;
    }
  }

  lemma {:induction false} KidsOnce(t: Tree, path: seq<nat>, k: nat)
    requires IsForest(t) && IsPath(t, path) && k <= |t.child[Last(path)]|
    ensures NoDup(Kids(t, path, k))
    decreases |t.parent| - |path|, 0, |t.child[Last(path)]| - k
  {
    PathBound(t, path);
    if k < |t.child[Last(path)]| {
      var next := path + [t.child[Last(path)][k]];
      PathBound(t, next);
      SubtreeOnce(t, next);
      KidsOnce(t, path, k + 1);
      forall x | x in Subtree(t, next) ensures x !in Kids(t, path, k + 1) {
        SiblingsApart(t, path, k, x);
      }
      NoDupConcat(Subtree(t, next), Kids(t, path, k + 1));
    }
  }

  lemma {:induction false} SiblingsApart(t: Tree, path: seq<nat>, k: nat, x: nat)
    requires IsForest(t) && IsPath(t, path) && k < |t.child[Last(path)]|
    requires IsPath(t, path + [t.child[Last(path)][k]])
    requires x in Subtree(t, path + [t.child[Last(path)][k]])
    ensures x !in Kids(t, path, k + 1)
  {
    var next := path + [t.child[Last(path)][k]];
    var q := SubtreePath(t, next, x);
    assert q[..|next|] == next;
    assert q[|path|] == next[|path|];
    assert NoDup(t.child[Last(path)]);
    if x in Kids(t, path, k + 1) {
      var q' := KidsPath(t, path, k + 1, x);
      PathUnique(t, q, q');
      assert false;
    }
  }

  lemma {:induction false} NoDupConcat(a: seq<nat>, b: seq<nat>)
    requires NoDup(a) && NoDup(b) && forall x :: x in a ==> x !in b
    ensures NoDup(a + b)
  {
    forall i, j | 0 <= i < j < |a + b| ensures (a + b)[i] != (a + b)[j] {
      if i < |a| <= j {
        assert a[i] in a && b[j - |a|] in b;
      }
    }
  }

  /** No child is missing from its parent's list. */
  ghost predicate Complete(t: Tree) {
    forall c, q :: 0 <= c < |t.parent| && 0 <= q < |t.child| && t.parent[c] == Some(q) ==> c in t.child[q]
  }

  lemma {:induction false} LinkedIsComplete(spans: seq<OtelSpan>)
    ensures Complete(Linked(spans))
  {
    forall c, q | 0 <= c < |spans| && 0 <= q < |spans| && ParentOf(spans, c) == Some(q)
      ensures c in Linked(spans).child[q]
    {
      ChildrenAreChildren(spans, q, |spans|);
    }
  }

  /** The walk misses nothing below the span it starts from. */
  lemma {:induction false} SubtreeReaches(t: Tree, path: seq<nat>, q: seq<nat>)
    requires IsForest(t) && Complete(t) && IsPath(t, path) && IsPath(t, q) && path <= q
    ensures Last(q) in Subtree(t, path)
    ensures path < q ==> Last(q) in Kids(t, path, 0)
    decreases |q| - |path|
  {
    if path != q {
      var c := q[|path|];
      assert q[|path| - 1] == Last(path);
      assert t.parent[c] == Some(Last(path));
      var k :| 0 <= k < |t.child[Last(path)]| && t.child[Last(path)][k] == c;
      assert path + [c] == q[..|path| + 1];
      SubtreeReaches(t, path + [c], q);
      KidsInclude(t, path, 0, k, Last(q));
    }
  }

  lemma {:induction false} KidsInclude(t: Tree, path: seq<nat>, j: nat, k: nat, x: nat)
    requires IsForest(t) && IsPath(t, path) && j <= k < |t.child[Last(path)]|
    requires IsPath(t, path + [t.child[Last(path)][k]]) && x in Subtree(t, path + [t.child[Last(path)][k]])
    ensures x in Kids(t, path, j)
    decreases k - j
  {
    if j < k {
      KidsInclude(t, path, j + 1, k, x);
    }
  }

  // ----- The order of the walk -----

  /** The walk comes to a span's parent before it comes to the span. */
  lemma {:induction false} ParentsFirst(t: Tree, path: seq<nat>, j: nat) returns (i: nat)
    requires IsForest(t) && IsPath(t, path) && 0 < j < |Subtree(t, path)|
    ensures i < j && Subtree(t, path)[j] < |t.parent|
    ensures t.parent[Subtree(t, path)[j]] == Some(Subtree(t, path)[i])
    decreases |t.parent| - |path|, 1, 0
  {
    PathBound(t, path);
    var kids := Kids(t, path, 0);
    var top, k := KidsParent(t, path, 0, j - 1);
    i := if top then 0 else k + 1;
  }

  lemma {:induction false} KidsParent(t: Tree, path: seq<nat>, k: nat, j: nat) returns (top: bool, i: nat)
    requires IsForest(t) && IsPath(t, path) && k <= |t.child[Last(path)]| && j < |Kids(t, path, k)|
    ensures Kids(t, path, k)[j] < |t.parent|
    ensures top ==> t.parent[Kids(t, path, k)[j]] == Some(Last(path))
    ensures !top ==> i < j && t.parent[Kids(t, path, k)[j]] == Some(Kids(t, path, k)[i])
    decreases |t.parent| - |path|, 0, |t.child[Last(path)]| - k
  {
    PathBound(t, path);
    var next := path + [t.child[Last(path)][k]];
    PathBound(t, next);
    var first, rest := Subtree(t, next), Kids(t, path, k + 1);
    assert Kids(t, path, k) == first + rest;
    if j == 0 {
      top, i := true, 0;
    } else if j < |first| {
      i := ParentsFirst(t, next, j);
      top := false;
    } else {
      top, i := KidsParent(t, path, k + 1, j - |first|);
      i := if top then 0 else i + |first|;
    }
  }
}
