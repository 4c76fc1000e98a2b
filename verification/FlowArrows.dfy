/** Arrows between linked spans: every source span gets one correlation id, and each link becomes a start node
    at its source followed by an end node at its target. */
module FlowArrows {
  import opened Seqs

  /** Where a converted span is drawn; `pid` as printed. */
  datatype Place = Place(pid: string, tid: int, ts: real)

  datatype Node = Start(id: int, at: Place) | Finish(id: int, at: Place)

  /** The correlation ids of the sources so far, and the next number of the id generator. */
  datatype Ids = Ids(of: map<nat, int>, next: int)

  // ----- Correlation ids -----

  /** The id of one source: the one its span already carries, or else a new one, stored in the span. */
  function Draw(ids: Ids, src: nat): Ids {
    if src in ids.of then ids else Ids(ids.of[src := ids.next], ids.next + 1)
  }

  function Assign(given: Ids, srcs: seq<nat>): (ids: Ids)
    ensures forall s :: s in given.of ==> s in ids.of && ids.of[s] == given.of[s]
    ensures forall i :: 0 <= i < |srcs| ==> srcs[i] in ids.of
  {
    if srcs == [] then given else Draw(Assign(given, srcs[..|srcs| - 1]), srcs[|srcs| - 1])
  }

  lemma {:induction false} AssignConcat(given: Ids, a: seq<nat>, b: seq<nat>)
    ensures Assign(given, a + b) == Assign(Assign(given, a), b)
  {
    if b == [] {
      assert a + b == a;
    } else {
      assert (a + b)[..|a + b| - 1] == a + b[..|b| - 1];
      AssignConcat(given, a, b[..|b| - 1]);
    }
  }

  /** How many different sources carry no id of their own. */
  function FreshCount(given: map<nat, int>, srcs: seq<nat>): nat {
    if srcs == [] then 0
    else
      var init, last := srcs[..|srcs| - 1], srcs[|srcs| - 1];
      FreshCount(given, init) + (if last in given || last in init then 0 else 1)
  }

  lemma {:induction false} AssignKeys(given: Ids, srcs: seq<nat>, s: nat)
    ensures s in Assign(given, srcs).of <==> s in given.of || s in srcs
  {
    if srcs != [] {
      AssignKeys(given, srcs[..|srcs| - 1], s);
    }
  }

  lemma {:induction false} AssignNext(given: Ids, srcs: seq<nat>)
    ensures Assign(given, srcs).next == given.next + FreshCount(given.of, srcs)
  {
    if srcs != [] {
      AssignNext(given, srcs[..|srcs| - 1]);
      AssignKeys(given, srcs[..|srcs| - 1], srcs[|srcs| - 1]);
    }
  }

  /** New ids come from the numbers drawn. */
  lemma {:induction false} FreshInRange(given: Ids, srcs: seq<nat>, s: nat)
    requires s in Assign(given, srcs).of && s !in given.of
    ensures given.next <= Assign(given, srcs).of[s] < Assign(given, srcs).next
  {
    var init := srcs[..|srcs| - 1];
    AssignNext(given, init);
    if s in Assign(given, init).of {
      FreshInRange(given, init, s);
    }
  }

  /** No number is drawn for two sources. */
  lemma {:induction false} FreshDistinct(given: Ids, srcs: seq<nat>, s: nat, t: nat)
    requires s in Assign(given, srcs).of && s !in given.of
    requires t in Assign(given, srcs).of && t !in given.of && s != t
    ensures Assign(given, srcs).of[s] != Assign(given, srcs).of[t]
  {
    var init := srcs[..|srcs| - 1];
    var before := Assign(given, init);
    if s in before.of {
      FreshInRange(given, init, s);
    }
    if t in before.of {
      FreshInRange(given, init, t);
    }
    if s in before.of && t in before.of {
      FreshDistinct(given, init, s, t);
    }
  }

  /** Every number drawn went to a source that had no id. */
  lemma {:induction false} DrawnForSomeone(given: Ids, srcs: seq<nat>, v: int) returns (i: nat)
    requires given.next <= v < Assign(given, srcs).next
    ensures i < |srcs| && srcs[i] !in given.of && Assign(given, srcs).of[srcs[i]] == v
  {
    var init := srcs[..|srcs| - 1];
    if v < Assign(given, init).next {
      i := DrawnForSomeone(given, init, v);
      assert init[i] == srcs[i];
    } else {
      i := |srcs| - 1;
    }
  }

  // ----- When ids tell sources apart -----

  /** Arrows share an id exactly when they start at the same span. */
  ghost predicate IdsIdentify(ids: map<nat, int>, srcs: seq<nat>)
    requires forall i :: 0 <= i < |srcs| ==> srcs[i] in ids
  {
    forall i, j :: 0 <= i < |srcs| && 0 <= j < |srcs| ==> (ids[srcs[i]] == ids[srcs[j]] <==> srcs[i] == srcs[j])
  }

  /** No two sources come with the same id, and none comes with a number that will be drawn. */
  ghost predicate GivenIdsAreSafe(given: Ids, srcs: seq<nat>) {
    && (forall i, j :: 0 <= i < |srcs| && 0 <= j < |srcs| && srcs[i] in given.of && srcs[j] in given.of ==>
          given.of[srcs[i]] == given.of[srcs[j]] ==> srcs[i] == srcs[j])
    && (forall i :: 0 <= i < |srcs| && srcs[i] in given.of ==>
          !(given.next <= given.of[srcs[i]] < given.next + FreshCount(given.of, srcs)))
  }

  lemma {:induction false} SafeIdsIdentify(given: Ids, srcs: seq<nat>)
    requires GivenIdsAreSafe(given, srcs)
    ensures IdsIdentify(Assign(given, srcs).of, srcs)
  {
    var ids := Assign(given, srcs).of;
    AssignNext(given, srcs);
    forall i, j | 0 <= i < |srcs| && 0 <= j < |srcs| && srcs[i] != srcs[j] ensures ids[srcs[i]] != ids[srcs[j]] {
      if srcs[i] !in given.of {
        FreshInRange(given, srcs, srcs[i]);
      }
      if srcs[j] !in given.of {
        FreshInRange(given, srcs, srcs[j]);
      }
      if srcs[i] !in given.of && srcs[j] !in given.of {
        FreshDistinct(given, srcs, srcs[i], srcs[j]);
      }
    }
  }

  /** The exact condition: with ids that came in as span attributes, arrows of different sources stay apart if
      and only if those ids are distinct and outside the numbers drawn. */
  lemma {:induction false} ArrowsIdentifySources(given: Ids, srcs: seq<nat>)
    ensures IdsIdentify(Assign(given, srcs).of, srcs) <==> GivenIdsAreSafe(given, srcs)
  {
    if GivenIdsAreSafe(given, srcs) {
      SafeIdsIdentify(given, srcs);
    }
    var ids := Assign(given, srcs).of;
    if IdsIdentify(ids, srcs) {
      AssignNext(given, srcs);
      forall i | 0 <= i < |srcs| && srcs[i] in given.of
        ensures !(given.next <= given.of[srcs[i]] < given.next + FreshCount(given.of, srcs))
      {
        if given.next <= given.of[srcs[i]] < given.next + FreshCount(given.of, srcs) {
          var j := DrawnForSomeone(given, srcs, given.of[srcs[i]]);
        }
      }
    }
  }

  /** In particular when no span has an attribute named "correlation". */
  lemma {:induction false} FreshIdsIdentify(next: int, srcs: seq<nat>)
    ensures IdsIdentify(Assign(Ids(map[], next), srcs).of, srcs)
  {
    ArrowsIdentifySources(Ids(map[], next), srcs);
  }

  /** Two spans that arrive with one id: their arrows cannot be told apart. */
  lemma {:induction false} SharedGivenIdClashes()
    ensures var given := Ids(map[0 := 7, 1 := 7], 0); !IdsIdentify(Assign(given, [0, 1]).of, [0, 1])
  {
    assert [0, 1][0] != [0, 1][1];
  }

  // ----- Nodes -----

  /** The links that lead to converted spans; others are skipped. */
  function Live(converted: set<nat>, links: seq<nat>): (live: seq<nat>)
    ensures forall i :: 0 <= i < |live| ==> live[i] in converted
  {
    if links == [] then []
    else
      var last := links[|links| - 1];
      Live(converted, links[..|links| - 1]) + (if last in converted then [last] else [])
  }

  predicate Leads(converted: set<nat>, links: seq<nat>, i: nat) {
    i < |links| && links[i] in converted
  }

  lemma {:induction false} LeadsBefore(converted: set<nat>, links: seq<nat>, i: nat)
    requires links != []
    ensures Leads(converted, links, i) <==>
            Leads(converted, links[..|links| - 1], i) || (i == |links| - 1 && Leads(converted, links, i))
  {
  }

  /** The followed links are exactly those to converted spans, in their order. */
  lemma {:induction false} LiveLinks(converted: set<nat>, links: seq<nat>) returns (idx: seq<nat>)
    ensures Ascending(idx) && |idx| == |Live(converted, links)|
    ensures forall i: nat :: i in idx <==> Leads(converted, links, i)
    ensures forall k :: 0 <= k < |idx| ==> idx[k] < |links| && Live(converted, links)[k] == links[idx[k]]
  {
    if links == [] {
      idx := [];
    } else {
      var n := |links| - 1;
      var init := links[..n];
      idx := LiveLinks(converted, init);
      forall i: nat
        ensures Leads(converted, links, i) <==> Leads(converted, init, i) || (i == n && Leads(converted, links, n))
      {
        LeadsBefore(converted, links, i);
      }
      if Leads(converted, links, n) {
        AppendPosition(idx, n);
        idx := idx + [n];
      }
    }
  }

  function Nodes(ids: map<nat, int>, at: map<nat, Place>, live: seq<nat>, d: nat): seq<Node>
    requires d in at && forall i :: 0 <= i < |live| ==> live[i] in ids && live[i] in at
  {
    if live == [] then []
    else
      var s := live[|live| - 1];
      Nodes(ids, at, live[..|live| - 1], d) + [Start(ids[s], at[s]), Finish(ids[s], at[d])]
  }

  /** Node `2k` starts link `k` at its source and node `2k + 1` ends it at the span, under one id. */
  lemma {:induction false} NodesPaired(ids: map<nat, int>, at: map<nat, Place>, live: seq<nat>, d: nat)
    requires d in at && forall i :: 0 <= i < |live| ==> live[i] in ids && live[i] in at
    ensures |Nodes(ids, at, live, d)| == 2 * |live|
    ensures forall k :: 0 <= k < |live| ==>
              && Nodes(ids, at, live, d)[2 * k] == Start(ids[live[k]], at[live[k]])
              && Nodes(ids, at, live, d)[2 * k + 1] == Finish(ids[live[k]], at[d])
  {
    if live != [] {
      NodesPaired(ids, at, live[..|live| - 1], d);
    }
  }

  lemma {:induction false} NodesStable(ids: map<nat, int>, later: map<nat, int>, at: map<nat, Place>,
                                       live: seq<nat>, d: nat)
    requires d in at && forall i :: 0 <= i < |live| ==> live[i] in ids && live[i] in at
    requires forall s :: s in ids ==> s in later && later[s] == ids[s]
    ensures Nodes(ids, at, live, d) == Nodes(later, at, live, d)
  {
    if live != [] {
      NodesStable(ids, later, at, live[..|live| - 1], d);
    }
  }

  // ----- All requests -----

  /** An engine request: its spans by start time, and the gateway span that is its parent, if there is one. */
  datatype Request = Request(parent: Option<nat>, spans: seq<nat>)

  /** The links of the spans once the request's parent has replaced those of its first span. */
  function WithParent(links: map<nat, seq<nat>>, r: Request): (l: map<nat, seq<nat>>)
    requires r.parent.Some? ==> r.spans != []
  {
    if r.parent.Some? then links[r.spans[0] := [r.parent.value]] else links
  }

  /** A span without links has none to follow. */
  function LinksOf(links: map<nat, seq<nat>>, d: nat): seq<nat> {
    if d in links then links[d] else []
  }

  /** The sources met along some spans. */
  function Sources(converted: set<nat>, links: map<nat, seq<nat>>, spans: seq<nat>): (srcs: seq<nat>)
  {
    if spans == [] then []
    else
      Sources(converted, links, spans[..|spans| - 1]) + Live(converted, LinksOf(links, spans[|spans| - 1]))
  }

  /** The span carries the nodes of its live links, under the ids of `ids`. */
  ghost predicate Drawn(nodes: map<nat, seq<Node>>, ids: map<nat, int>, at: map<nat, Place>,
                        links: map<nat, seq<nat>>, d: nat)
  {
    && d in at && d in nodes
    && (forall i :: 0 <= i < |Live(at.Keys, LinksOf(links, d))| ==> Live(at.Keys, LinksOf(links, d))[i] in ids)
    && nodes[d] == Nodes(ids, at, Live(at.Keys, LinksOf(links, d)), d)
  }

  ghost predicate AllDrawn(nodes: map<nat, seq<Node>>, ids: map<nat, int>, at: map<nat, Place>,
                           links: map<nat, seq<nat>>, spans: seq<nat>)
  {
    forall i :: 0 <= i < |spans| ==> Drawn(nodes, ids, at, links, spans[i])
  }

  /** `later` has every entry of `m` for the keys in `spans`. */
  ghost predicate SameAt<V>(m: map<nat, V>, later: map<nat, V>, spans: seq<nat>) {
    forall i :: 0 <= i < |spans| ==>
      (spans[i] in m <==> spans[i] in later) && (spans[i] in m ==> m[spans[i]] == later[spans[i]])
  }

  ghost predicate Extends(m: map<nat, int>, later: map<nat, int>) {
    forall s :: s in m ==> s in later && later[s] == m[s]
  }

  /** What is drawn stays drawn when other spans are linked and more ids are given out. */
  lemma {:induction false} AllDrawnStable(had: map<nat, seq<Node>>, nodes: map<nat, seq<Node>>, ids: map<nat, int>,
                                          later: map<nat, int>, at: map<nat, Place>, links: map<nat, seq<nat>>,
                                          newLinks: map<nat, seq<nat>>, spans: seq<nat>)
    requires AllDrawn(had, ids, at, links, spans)
    requires SameAt(had, nodes, spans) && SameAt(links, newLinks, spans) && Extends(ids, later)
    ensures AllDrawn(nodes, later, at, newLinks, spans)
  {
    forall i | 0 <= i < |spans| ensures Drawn(nodes, later, at, newLinks, spans[i]) {
      assert Drawn(had, ids, at, links, spans[i]);
      NodesStable(ids, later, at, Live(at.Keys, LinksOf(links, spans[i])), spans[i]);
    }
  }

  lemma {:induction false} LiveStep(converted: set<nat>, links: seq<nat>, i: nat)
    requires i < |links|
    ensures var live := Live(converted, links[..i]);
            Live(converted, links[..i + 1]) == if links[i] in converted then live + [links[i]] else live
  {
    assert links[..i + 1][..i] == links[..i];
  }

  lemma {:induction false} SourcesConcat(converted: set<nat>, links: map<nat, seq<nat>>, a: seq<nat>, b: seq<nat>)
    ensures Sources(converted, links, a + b) == Sources(converted, links, a) + Sources(converted, links, b)
  {
    if b == [] {
      assert a + b == a;
    } else {
      var init, last := b[..|b| - 1], b[|b| - 1];
      assert (a + b)[..|a + b| - 1] == a + init && (a + b)[|a + b| - 1] == last;
      SourcesConcat(converted, links, a, init);
      ConcatAssoc(Sources(converted, links, a), Sources(converted, links, init), Live(converted, LinksOf(links, last)));
    }
  }

  lemma {:induction false} SourcesAgree(converted: set<nat>, links: map<nat, seq<nat>>, later: map<nat, seq<nat>>,
                                        spans: seq<nat>)
    requires SameAt(links, later, spans)
    ensures Sources(converted, links, spans) == Sources(converted, later, spans)
  {
    if spans != [] {
      SourcesAgree(converted, links, later, spans[..|spans| - 1]);
    }
  }

  /** From the ids `given`, the spans have been linked in this order: every source has its id, and every span
      its nodes. */
  ghost predicate Linked(given: Ids, ids: Ids, nodes: map<nat, seq<Node>>, at: map<nat, Place>,
                         links: map<nat, seq<nat>>, spans: seq<nat>)
  {
    ids == Assign(given, Sources(at.Keys, links, spans)) && AllDrawn(nodes, ids.of, at, links, spans)
  }

  lemma {:induction false} SourceIndex(converted: set<nat>, links: map<nat, seq<nat>>, spans: seq<nat>, a: nat, k: nat)
      returns (i: nat)
    requires a < |spans| && k < |Live(converted, LinksOf(links, spans[a]))|
    ensures i < |Sources(converted, links, spans)|
    ensures Sources(converted, links, spans)[i] == Live(converted, LinksOf(links, spans[a]))[k]
  {
    var init := spans[..|spans| - 1];
    if a == |spans| - 1 {
      i := |Sources(converted, links, init)| + k;
    } else {
      i := SourceIndex(converted, links, init, a, k);
    }
  }

  /** Of the nodes written: any two arrows, of the same span or of different spans, carry the same id exactly
      when they start at the same source; and each is closed by the node that follows it. */
  lemma {:induction false} SharedIdMeansSameSource(given: Ids, ids: Ids, nodes: map<nat, seq<Node>>,
                                                   at: map<nat, Place>, links: map<nat, seq<nat>>, spans: seq<nat>,
                                                   a: nat, k: nat, b: nat, l: nat)
    requires Linked(given, ids, nodes, at, links, spans)
    requires GivenIdsAreSafe(given, Sources(at.Keys, links, spans))
    requires a < |spans| && k < |Live(at.Keys, LinksOf(links, spans[a]))|
    requires b < |spans| && l < |Live(at.Keys, LinksOf(links, spans[b]))|
    ensures spans[a] in nodes && |nodes[spans[a]]| == 2 * |Live(at.Keys, LinksOf(links, spans[a]))|
    ensures spans[b] in nodes && |nodes[spans[b]]| == 2 * |Live(at.Keys, LinksOf(links, spans[b]))|
    ensures nodes[spans[a]][2 * k].id == nodes[spans[b]][2 * l].id <==>
            Live(at.Keys, LinksOf(links, spans[a]))[k] == Live(at.Keys, LinksOf(links, spans[b]))[l]
    ensures nodes[spans[a]][2 * k].Start? && nodes[spans[a]][2 * k + 1].Finish?
    ensures nodes[spans[a]][2 * k + 1].id == nodes[spans[a]][2 * k].id
  {
    var srcs := Sources(at.Keys, links, spans);
    assert Drawn(nodes, ids.of, at, links, spans[a]) && Drawn(nodes, ids.of, at, links, spans[b]);
    NodesPaired(ids.of, at, Live(at.Keys, LinksOf(links, spans[a])), spans[a]);
    NodesPaired(ids.of, at, Live(at.Keys, LinksOf(links, spans[b])), spans[b]);
    var i := SourceIndex(at.Keys, links, spans, a, k);
    var j := SourceIndex(at.Keys, links, spans, b, l);
    ArrowsIdentifySources(given, srcs);
    assert ids.of[srcs[i]] == ids.of[srcs[j]] <==> srcs[i] == srcs[j];
  }

  lemma {:induction false} LinkedOne(given: Ids, ids: Ids, nodes: map<nat, seq<Node>>, at: map<nat, Place>,
                                     links: map<nat, seq<nat>>, d: nat)
    requires ids == Assign(given, Live(at.Keys, LinksOf(links, d))) && Drawn(nodes, ids.of, at, links, d)
    ensures Linked(given, ids, nodes, at, links, [d])
  {
    assert [d][..0] == [];
    assert [] + Live(at.Keys, LinksOf(links, d)) == Live(at.Keys, LinksOf(links, d));
  }

  lemma {:induction false} LinkedConcat(given: Ids, before: Ids, had: map<nat, seq<Node>>, hadLinks: map<nat, seq<nat>>,
                                        done: seq<nat>, ids: Ids, nodes: map<nat, seq<Node>>, links: map<nat, seq<nat>>,
                                        more: seq<nat>, at: map<nat, Place>)
    requires Linked(given, before, had, at, hadLinks, done) && Linked(before, ids, nodes, at, links, more)
    requires SameAt(had, nodes, done) && SameAt(hadLinks, links, done)
    ensures Linked(given, ids, nodes, at, links, done + more)
  {
    SourcesAgree(at.Keys, hadLinks, links, done);
    SourcesConcat(at.Keys, links, done, more);
    AssignConcat(given, Sources(at.Keys, links, done), Sources(at.Keys, links, more));
    AllDrawnStable(had, nodes, before.of, ids.of, at, hadLinks, links, done);
  }

  /** Only entries of `spans` differ. */
  ghost predicate Untouched<V>(m: map<nat, V>, later: map<nat, V>, spans: seq<nat>) {
    forall x :: x !in spans ==> (x in m <==> x in later) && (x in m ==> m[x] == later[x])
  }

  lemma {:induction false} UntouchedSame<V>(m: map<nat, V>, later: map<nat, V>, spans: seq<nat>, done: seq<nat>)
    requires Untouched(m, later, spans) && forall k :: 0 <= k < |done| ==> done[k] !in spans
    ensures SameAt(m, later, done)
  {
  }

  lemma {:induction false} UntouchedBefore<V>(m: map<nat, V>, later: map<nat, V>, spans: seq<nat>, i: nat)
    requires NoDup(spans) && i < |spans| && Untouched(m, later, [spans[i]])
    ensures SameAt(m, later, spans[..i])
  {
    UntouchedSame(m, later, [spans[i]], spans[..i]);
  }

  function AllSpans(requests: seq<Request>): seq<nat> {
    if requests == [] then [] else AllSpans(requests[..|requests| - 1]) + requests[|requests| - 1].spans
  }

  /** Every request with a parent has a first span to link it to. */
  ghost predicate Linkable(requests: seq<Request>) {
    forall i :: 0 <= i < |requests| ==> requests[i].parent.Some? ==> requests[i].spans != []
  }

  /** The links after all parents took over. */
  function FinalLinks(links: map<nat, seq<nat>>, requests: seq<Request>): map<nat, seq<nat>>
    requires Linkable(requests)
  {
    if requests == [] then links
    else WithParent(FinalLinks(links, requests[..|requests| - 1]), requests[|requests| - 1])
  }

  lemma {:induction false} FinalLinksStep(links: map<nat, seq<nat>>, requests: seq<Request>, i: nat)
    requires Linkable(requests) && i < |requests|
    ensures Linkable(requests[..i]) && Linkable(requests[..i + 1])
    ensures FinalLinks(links, requests[..i + 1]) == WithParent(FinalLinks(links, requests[..i]), requests[i])
  {
    assert requests[..i + 1][..i] == requests[..i];
  }

  /** Span `x` is the first of request `i`, which has a parent. */
  predicate TakenOver(requests: seq<Request>, i: nat, x: nat) {
    i < |requests| && requests[i].parent.Some? && requests[i].spans != [] && requests[i].spans[0] == x
  }

  /** The first span of a request with a parent links to that parent alone; all other spans keep their links. */
  ghost predicate ParentsLinked(links: map<nat, seq<nat>>, later: map<nat, seq<nat>>, requests: seq<Request>) {
    && (forall i: nat, x: nat :: TakenOver(requests, i, x) ==> x in later && later[x] == [requests[i].parent.value])
    && (forall x: nat :: (forall i: nat :: !TakenOver(requests, i, x)) ==>
          (x in later <==> x in links) && (x in links ==> later[x] == links[x]))
  }

  lemma {:induction false} TakenOverIsListed(requests: seq<Request>, i: nat, x: nat)
    requires TakenOver(requests, i, x)
    ensures x in AllSpans(requests)
  {
    if i < |requests| - 1 {
      assert TakenOver(requests[..|requests| - 1], i, x);
      TakenOverIsListed(requests[..|requests| - 1], i, x);
    }
  }

  lemma {:induction false} TakenOverBefore(requests: seq<Request>, i: nat, x: nat)
    requires requests != []
    ensures TakenOver(requests, i, x) <==>
            TakenOver(requests[..|requests| - 1], i, x) || (i == |requests| - 1 && TakenOver(requests, i, x))
  {
  }

  /** No request of `init` has the first span of `r`. */
  ghost predicate Apart(init: seq<Request>, r: Request) {
    forall i: nat, x: nat :: TakenOver(init, i, x) ==> x !in r.spans
  }

  lemma {:induction false} ParentsAreLinked(links: map<nat, seq<nat>>, requests: seq<Request>)
    requires Linkable(requests) && NoDup(AllSpans(requests))
    ensures ParentsLinked(links, FinalLinks(links, requests), requests)
  {
    if requests != [] {
      var init, n := requests[..|requests| - 1], |requests| - 1;
      PrefixApart(requests, n);
      NoDupParts(AllSpans(init), requests[n].spans);
      ParentsAreLinked(links, init);
      forall i: nat, x: nat | TakenOver(init, i, x) ensures x !in requests[n].spans {
        TakenOverIsListed(init, i, x);
      }
      SplitLast(requests);
      LinkOneMore(links, FinalLinks(links, init), requests, init, requests[n]);
    }
  }

  lemma {:induction false} LinkOneMore(links: map<nat, seq<nat>>, before: map<nat, seq<nat>>, requests: seq<Request>,
                                       init: seq<Request>, r: Request)
    requires requests == init + [r] && Linkable(requests) && ParentsLinked(links, before, init) && Apart(init, r)
    ensures r.parent.Some? ==> r.spans != []
    ensures ParentsLinked(links, WithParent(before, r), requests)
  {
    var n := |init|;
    assert requests[n] == r && requests[..n] == init;
    var later := WithParent(before, r);
    forall i: nat, x: nat | TakenOver(requests, i, x)
      ensures x in later && later[x] == [requests[i].parent.value]
    {
      TakenOverBefore(requests, i, x);
      if i < n {
        assert TakenOver(init, i, x) && init[i] == requests[i];
      }
    }
    forall x: nat | forall i: nat :: !TakenOver(requests, i, x)
      ensures (x in later <==> x in links) && (x in links ==> later[x] == links[x])
    {
      assert !TakenOver(requests, n, x);
      forall i: nat ensures !TakenOver(init, i, x) {
        assert !TakenOver(requests, i, x);
        TakenOverBefore(requests, i, x);
      }
    }
  }

  /** Requests do not share spans. */
  lemma {:induction false} PrefixApart(requests: seq<Request>, i: nat)
    requires i < |requests| && NoDup(AllSpans(requests))
    ensures AllSpans(requests[..i + 1]) == AllSpans(requests[..i]) + requests[i].spans
    ensures NoDup(AllSpans(requests[..i + 1])) && NoDup(requests[i].spans)
    ensures forall k :: 0 <= k < |AllSpans(requests[..i])| ==> AllSpans(requests[..i])[k] !in requests[i].spans
    ensures AllSpans(requests[..i + 1]) <= AllSpans(requests)
    decreases |requests| - i
  {
    assert requests[..i + 1][..i] == requests[..i];
    var a, b := AllSpans(requests[..i]), requests[i].spans;
    if i == |requests| - 1 {
      assert requests[..i + 1] == requests;
    } else {
      PrefixApart(requests, i + 1);
      assert AllSpans(requests[..i + 2])[..|a + b|] == a + b;
    }
    NoDupParts(a, b);
  }

  lemma {:induction false} InPrefix(requests: seq<Request>, i: nat, converted: set<nat>)
    requires i < |requests| && NoDup(AllSpans(requests))
    requires forall k :: 0 <= k < |AllSpans(requests)| ==> AllSpans(requests)[k] in converted
    ensures forall k :: 0 <= k < |requests[i].spans| ==> requests[i].spans[k] in converted
  {
    PrefixApart(requests, i);
    var a := AllSpans(requests[..i]);
    forall k | 0 <= k < |requests[i].spans| ensures requests[i].spans[k] in converted {
      assert requests[i].spans[k] == AllSpans(requests)[|a| + k];
    }
  }

  lemma {:induction false} NoDupParts(a: seq<nat>, b: seq<nat>)
    requires NoDup(a + b)
    ensures NoDup(a) && NoDup(b) && forall k :: 0 <= k < |a| ==> a[k] !in b
  {
    forall i, j | 0 <= i < j < |a| ensures a[i] != a[j] {
      assert (a + b)[i] != (a + b)[j];
    }
    forall i, j | 0 <= i < j < |b| ensures b[i] != b[j] {
      assert (a + b)[|a| + i] != (a + b)[|a| + j];
    }
    forall k, j | 0 <= k < |a| && 0 <= j < |b| ensures a[k] != b[j] {
      assert (a + b)[k] != (a + b)[|a| + j];
    }
  }

  /** One more live link: its id is drawn and its two nodes follow those before. */
  lemma {:induction false} LinkStep(given: Ids, at: map<nat, Place>, live: seq<nat>, src: nat, d: nat)
    requires d in at && src in at && forall i :: 0 <= i < |live| ==> live[i] in at
    ensures var before, ids := Assign(given, live), Assign(given, live + [src]);
            && ids == Draw(before, src) && src in ids.of
            && (forall i :: 0 <= i < |live + [src]| ==> (live + [src])[i] in at)
            && Nodes(ids.of, at, live + [src], d)
            == Nodes(before.of, at, live, d) + [Start(ids.of[src], at[src]), Finish(ids.of[src], at[d])]
  {
    var before, ids := Assign(given, live), Assign(given, live + [src]);
    assert (live + [src])[..|live|] == live;
    NodesStable(before.of, ids.of, at, live, d);
  }

  class LinkGenerator {
    const at: map<nat, Place>
    var links: map<nat, seq<nat>>
    var ids: Ids
    var nodes: map<nat, seq<Node>>

    constructor (at: map<nat, Place>, links: map<nat, seq<nat>>, given: map<nat, int>)
      ensures this.at == at && this.links == links && ids == Ids(given, 0) && nodes == map[]
    {
      this.at, this.links, ids, nodes := at, links, Ids(given, 0), map[];
    }

    /** The loop over one span's links. */
    method LinkSpan(d: nat)
      requires d in at
      modifies this`ids, this`nodes
      ensures Linked(old(ids), ids, nodes, at, links, [d])
      ensures Untouched(old(nodes), nodes, [d])
    {
      var mine := [];
      var all := LinksOf(links, d);
      ghost var given := ids;
      for i := 0 to |all|
        invariant nodes == old(nodes) && ids == Assign(given, Live(at.Keys, all[..i]))
        invariant mine == Nodes(ids.of, at, Live(at.Keys, all[..i]), d)
      {
        var src := all[i];
        LiveStep(at.Keys, all, i);
        if src in at {
          LinkStep(given, at, Live(at.Keys, all[..i]), src, d);
          ids := Draw(ids, src);
          mine := mine + [Start(ids.of[src], at[src]), Finish(ids.of[src], at[d])];
        }
      }
      assert all[..|all|] == all;
      nodes := nodes[d := mine];
      LinkedOne(given, ids, nodes, at, links, d);
    }

    /** The loop over one request's spans. */
    method LinkSpans(spans: seq<nat>)
      requires NoDup(spans) && forall i :: 0 <= i < |spans| ==> spans[i] in at
      modifies this`ids, this`nodes
      ensures Linked(old(ids), ids, nodes, at, links, spans)
      ensures Untouched(old(nodes), nodes, spans)
    {
      ghost var given, start := ids, nodes;
      for i := 0 to |spans|
        invariant Linked(given, ids, nodes, at, links, spans[..i])
        invariant Untouched(start, nodes, spans)
      {
        ghost var before, had := ids, nodes;
        LinkSpan(spans[i]);
        UntouchedBefore(had, nodes, spans, i);
        LinkedConcat(given, before, had, links, spans[..i], ids, nodes, links, [spans[i]], at);
        TakeNext(spans, i);
      }
      assert spans[..|spans|] == spans;
    }

    /** `generate_perfetto_links`: each request's parent takes over the links of its first span, and every span
        of every request ends up with the nodes of its links, under the ids that all sources have in the end. */
    method Generate(requests: seq<Request>)
      requires Linkable(requests) && NoDup(AllSpans(requests))
      requires forall i :: 0 <= i < |AllSpans(requests)| ==> AllSpans(requests)[i] in at
      modifies this`links, this`ids, this`nodes
      ensures links == FinalLinks(old(links), requests) && ParentsLinked(old(links), links, requests)
      ensures Linked(old(ids), ids, nodes, at, links, AllSpans(requests))
    {
      ghost var given, start := ids, links;
      for i := 0 to |requests|
        invariant Linkable(requests[..i]) && links == FinalLinks(start, requests[..i])
        invariant Linked(given, ids, nodes, at, links, AllSpans(requests[..i]))
      {
        var r := requests[i];
        ghost var before, had, hadLinks, done := ids, nodes, links, AllSpans(requests[..i]);
        PrefixApart(requests, i);
        InPrefix(requests, i, at.Keys);
        FinalLinksStep(start, requests, i);
        if r.parent.Some? {
          links := links[r.spans[0] := [r.parent.value]];
        }
        UntouchedSame(hadLinks, links, r.spans, done);
        LinkSpans(r.spans);
        UntouchedSame(had, nodes, r.spans, done);
        LinkedConcat(given, before, had, hadLinks, done, ids, nodes, links, r.spans, at);
      }
      assert requests[..|requests|] == requests;
      ParentsAreLinked(start, requests);
    }
  }
}
