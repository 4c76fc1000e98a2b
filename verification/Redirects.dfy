/** Resolving redirections between lines: each line holds its own value or names the line whose value
    it shares.  The generator walks every chain, detects rings and overwrites the values in place. */
module Redirects {
  import opened Seqs

  type Links = seq<Option<nat>>

  ghost predicate Valid(r: Links) {
    forall i :: 0 <= i < |r| && r[i].Some? ==> r[i].value < |r|
  }

  /** The line reached from `i` after `k` redirections; `None` once the chain has ended. */
  function Follow(r: Links, i: nat, k: nat): (line: Option<nat>)
    requires Valid(r) && i < |r|
    ensures line.Some? ==> line.value < |r|
  {
    if k == 0 then Some(i)
    else match Follow(r, i, k - 1)
      case None => None
      case Some(c) => r[c]
  }

  /** `t` carries its own value and is reached from `i` after `k` redirections. */
  ghost predicate EndsAt(r: Links, i: nat, k: nat, t: nat)
    requires Valid(r) && i < |r|
  {
    t < |r| && Follow(r, i, k) == Some(t) && r[t].None?
  }

  ghost predicate Resolves(r: Links, i: nat)
    requires Valid(r) && i < |r|
  {
    exists k: nat, t: nat :: EndsAt(r, i, k, t)
  }

  /** `path` lists the lines visited from `i`, `i` first. */
  ghost predicate IsWalk(r: Links, i: nat, path: seq<nat>)
    requires Valid(r) && i < |r|
  {
    forall k :: 0 <= k < |path| ==> Follow(r, i, k) == Some(path[k])
  }

  /** `links[i]` of a line that resolves: every line after `i` up to the one with a value of its own. */
  ghost predicate IsChain(r: Links, i: nat, chain: seq<nat>)
    requires Valid(r) && i < |r|
  {
    && IsWalk(r, i, [i] + chain)
    && NoDup([i] + chain)
    && r[([i] + chain)[|chain|]].None?
  }

  /** `e` is where the walk from `i` first comes back to: the entry of the ring that `i` leads into. */
  ghost predicate EntersRing(r: Links, i: nat, e: nat)
    requires Valid(r) && i < |r|
  {
    exists path, a: nat :: RingPath(r, i, e, path, a)
  }

  ghost predicate RingPath(r: Links, i: nat, e: nat, path: seq<nat>, a: nat)
    requires Valid(r) && i < |r|
  {
    && path != [] && path[0] == i && IsWalk(r, i, path) && NoDup(path)
    && a < |path| && path[a] == e && Follow(r, i, |path|) == Some(e)
  }

  /** The line whose original value line `i` ends up with. */
  ghost predicate IsSource(r: Links, i: nat, s: nat)
    requires Valid(r) && i < |r|
  {
    (exists k: nat :: EndsAt(r, i, k, s)) || EntersRing(r, i, s)
  }

  // ----- Following redirections -----

  lemma {:induction false} FollowAdd(r: Links, i: nat, a: nat, b: nat)
    requires Valid(r) && i < |r| && Follow(r, i, a).Some?
    ensures Follow(r, i, a + b) == Follow(r, Follow(r, i, a).value, b)
    decreases b
  {
    if b > 0 {
      FollowAdd(r, i, a, b - 1);
    }
  }

  lemma {:induction false} EndedForGood(r: Links, i: nat, k: nat, m: nat)
    requires Valid(r) && i < |r| && Follow(r, i, k).None? && k <= m
    ensures Follow(r, i, m).None?
    decreases m
  {
    if k < m {
      EndedForGood(r, i, k, m - 1);
    }
  }

  lemma {:induction false} GoRound(r: Links, c: nat, p: nat, m: nat)
    requires Valid(r) && c < |r| && Follow(r, c, p) == Some(c)
    ensures Follow(r, c, m * p) == Some(c)
    decreases m
  {
    if m == 0 {
      assert m * p == 0;
    } else {
      GoRound(r, c, p, m - 1);
      assert m * p == (m - 1) * p + p;
      FollowAdd(r, c, (m - 1) * p, p);
    }
  }

  /** A walk that comes back to a line never reaches a line with a value of its own. */
  lemma {:induction false} RingNeverResolves(r: Links, i: nat, a: nat, b: nat)
    requires Valid(r) && i < |r| && a < b && Follow(r, i, a).Some? && Follow(r, i, a) == Follow(r, i, b)
    ensures !Resolves(r, i)
  {
    var c, p := Follow(r, i, a).value, b - a;
    FollowAdd(r, i, a, p);
    forall k: nat, t: nat ensures !EndsAt(r, i, k, t) {
      if EndsAt(r, i, k, t) {
        assert Follow(r, i, k + 1).None?;
        var m := k + 1;
        GoRound(r, c, p, m);
        FollowAdd(r, i, a, m * p);
        assert m * p >= m;
        EndedForGood(r, i, k + 1, a + m * p);
        assert false;
      }
    }
  }

  /** A line resolves or leads into a ring, never both, and its source is unique. */
  lemma {:induction false} SourceUnique(r: Links, i: nat, s: nat, s': nat)
    requires Valid(r) && i < |r| && IsSource(r, i, s) && IsSource(r, i, s')
    ensures s == s'
    ensures Resolves(r, i) <==> !EntersRing(r, i, s)
  {
    if EntersRing(r, i, s) {
      var path, a :| RingPath(r, i, s, path, a);
      RingNeverResolves(r, i, a, |path|);
      if EntersRing(r, i, s') {
        var path', a' :| RingPath(r, i, s', path', a');
        SameRing(r, i, s, path, a, s', path', a');
      }
    } else {
      var k: nat :| EndsAt(r, i, k, s);
      if EntersRing(r, i, s') {
        var path', a' :| RingPath(r, i, s', path', a');
        RingNeverResolves(r, i, a', |path'|);
      } else {
        var k': nat :| EndsAt(r, i, k', s');
        if k < k' {
          EndedForGood(r, i, k + 1, k');
        } else if k' < k {
          EndedForGood(r, i, k' + 1, k);
        }
      }
    }
  }

  lemma {:induction false} SameRing(r: Links, i: nat, s: nat, path: seq<nat>, a: nat,
                                    s': nat, path': seq<nat>, a': nat)
    requires Valid(r) && i < |r| && RingPath(r, i, s, path, a) && RingPath(r, i, s', path', a')
    ensures s == s'
  {
    assert Follow(r, i, a) == Some(path[a]) && Follow(r, i, a') == Some(path'[a']);
    assert |path| == |path'|;
  }

  // ----- Lines on a ring keep their own value -----

  ghost predicate OnRing(r: Links, c: nat, p: nat)
    requires Valid(r) && c < |r|
  {
    p > 0 && Follow(r, c, p) == Some(c)
  }

  lemma {:induction false} EntryIsOnRing(r: Links, i: nat, e: nat, path: seq<nat>, a: nat)
    requires Valid(r) && i < |r| && RingPath(r, i, e, path, a)
    ensures e < |r| && OnRing(r, e, |path| - a)
  {
    FollowAdd(r, i, a, |path| - a);
  }

  /** From a line on a ring, the walk first comes back to that very line. */
  lemma {:induction false} OnRingEntersAtItself(r: Links, c: nat, p: nat, e: nat, path: seq<nat>, a: nat)
    requires Valid(r) && c < |r| && OnRing(r, c, p) && RingPath(r, c, e, path, a)
    ensures e == c
  {
    var d := |path| - a;
    var rest := a * p - a;
    assert a * p >= a;
    // Going on from the repeated line up to a whole number of rounds shows that `d` is a round too.
    FollowAdd(r, c, a, rest);
    FollowAdd(r, c, |path|, rest);
    GoRound(r, c, p, a);
    FollowAdd(r, c, a * p, d);
    assert Follow(r, c, d) == Some(c);
    assert d == |path|;
  }

  /** The lines whose value is never overwritten by another: those with one of their own or on a ring. */
  ghost predicate Anchor(r: Links, t: nat)
    requires Valid(r) && t < |r|
  {
    r[t].None? || exists p: nat :: OnRing(r, t, p)
  }

  lemma {:induction false} SourceIsAnchor(r: Links, i: nat, s: nat)
    requires Valid(r) && i < |r| && IsSource(r, i, s)
    ensures s < |r| && Anchor(r, s)
  {
    if EntersRing(r, i, s) {
      var path, a :| RingPath(r, i, s, path, a);
      EntryIsOnRing(r, i, s, path, a);
    }
  }

  lemma {:induction false} AnchorIsOwnSource(r: Links, i: nat, s: nat)
    requires Valid(r) && i < |r| && Anchor(r, i) && IsSource(r, i, s)
    ensures s == i
  {
    if r[i].None? {
      assert EndsAt(r, i, 0, i);
      SourceUnique(r, i, s, i);
    } else {
      var p: nat :| OnRing(r, i, p);
      RingNeverResolves(r, i, 0, p);
      if EntersRing(r, i, s) {
        var path, a :| RingPath(r, i, s, path, a);
        OnRingEntersAtItself(r, i, p, s, path, a);
      }
    }
  }

  // ----- The program -----

  /** The inner loop: follows line `i` until a value or a line visited before. */
  method Walk(r: Links, i: nat) returns (ring: bool, cur: nat, link: seq<nat>)
    requires Valid(r) && i < |r|
    ensures cur < |r| && IsSource(r, i, cur)
    ensures ring <==> !Resolves(r, i)
    ensures ring ==> EntersRing(r, i, cur)
    ensures !ring ==> IsChain(r, i, link) && cur == ([i] + link)[|link|]
  {
    link, cur := [], i;
    var visited: set<nat> := {};
    ghost var path := [i];
    while r[cur].Some?
      invariant path == [i] + link && cur == path[|path| - 1] < |r|
      invariant IsWalk(r, i, path) && NoDup(path)
      invariant visited == Visited(path[..|path| - 1]) && visited <= Below(|r|) && cur !in visited
      decreases Below(|r|) - visited
    {
      visited := visited + {cur};
      link := link + [r[cur].value];
      cur := r[cur].value;
      assert visited == Visited(path);
      assert Follow(r, i, |path|) == Some(cur);
      if cur in visited {
        ghost var a := VisitedAt(path, cur);
        assert RingPath(r, i, cur, path, a);
        RingNeverResolves(r, i, a, |path|);
        return true, cur, [];
      }
      ExtendWalk(r, i, path, cur);
      assert (path + [cur])[..|path|] == path;
      path := path + [cur];
    }
    ring := false;
    assert EndsAt(r, i, |link|, cur);
  }

  function Visited(path: seq<nat>): set<nat> {
    if path == [] then {} else Visited(path[..|path| - 1]) + {path[|path| - 1]}
  }

  lemma {:induction false} VisitedAt(path: seq<nat>, v: nat) returns (a: nat)
    requires v in Visited(path)
    ensures a < |path| && path[a] == v
  {
    if path[|path| - 1] == v {
      a := |path| - 1;
    } else {
      a := VisitedAt(path[..|path| - 1], v);
    }
  }

  lemma {:induction false} AllVisited(path: seq<nat>, a: nat)
    requires a < |path|
    ensures path[a] in Visited(path)
  {
    if a < |path| - 1 {
      AllVisited(path[..|path| - 1], a);
    }
  }

  lemma {:induction false} ExtendWalk(r: Links, i: nat, path: seq<nat>, c: nat)
    requires Valid(r) && i < |r| && IsWalk(r, i, path) && NoDup(path)
    requires Follow(r, i, |path|) == Some(c) && c !in Visited(path)
    ensures IsWalk(r, i, path + [c]) && NoDup(path + [c])
  {
    forall a | 0 <= a < |path| ensures path[a] != c {
      AllVisited(path, a);
    }
  }

  /** What the outer loop has established about line `k` once it has passed it. */
  ghost predicate Resolved<V>(r: Links, k: nat, link: Option<seq<nat>>, ring: bool, value: V, originals: seq<V>)
    requires Valid(r) && k < |r| == |originals|
  {
    && (ring <==> !Resolves(r, k))
    && (ring <==> link.None?)
    && (link.Some? ==> IsChain(r, k, link.value))
    && exists s: nat :: s < |r| && IsSource(r, k, s) && value == originals[s]
  }

  /** The link-building loop.  Although it overwrites `values` as it goes and reads entries that it may
      already have overwritten, every line ends up with the original value of its source. */
  method BuildLinks<V(==)>(r: Links, values: array<V>) returns (links: seq<Option<seq<nat>>>, rings: set<nat>)
    requires Valid(r) && values.Length == |r|
    modifies values
    ensures |links| == |r| && rings <= Below(|r|)
    ensures forall k: nat :: k < |r| ==> Resolved(r, k, links[k], k in rings, values[k], old(values[..]))
  {
    ghost var originals := values[..];
    links := seq(|r|, _ => Some([]));
    rings := {};
    for i := 0 to |r|
      invariant |links| == |r| && rings <= Below(i)
      invariant forall k: nat :: k < i ==> Resolved(r, k, links[k], k in rings, values[k], originals)
      invariant forall k: nat :: i <= k < |r| ==> links[k] == Some([])
      invariant forall t: nat :: t < |r| && (i <= t || Anchor(r, t)) ==> values[t] == originals[t]
    {
      var link := ResolveLine(r, i, values, originals);
      links := links[i := link];
      if link.None? {
        rings := rings + {i};
      }
    }
  }

  /** The body of the loop: what happens to line `i`. */
  method ResolveLine<V(==)>(r: Links, i: nat, values: array<V>, ghost originals: seq<V>)
      returns (link: Option<seq<nat>>)
    requires Valid(r) && i < values.Length == |r| == |originals|
    requires forall t: nat :: t < |r| && (i <= t || Anchor(r, t)) ==> values[t] == originals[t]
    modifies values
    ensures Resolved(r, i, link, link.None?, values[i], originals)
    ensures forall t: nat :: t < |r| && t != i ==> values[t] == old(values[t])
    ensures Anchor(r, i) ==> values[i] == originals[i]
  {
    if r[i].None? {
      assert EndsAt(r, i, 0, i);
      assert IsChain(r, i, []);
      return Some([]);
    }
    var ring, cur, chain := Walk(r, i);
    SourceIsAnchor(r, i, cur);
    if Anchor(r, i) {
      AnchorIsOwnSource(r, i, cur);
    }
    values[i] := values[cur];
    link := if ring then None else Some(chain);
  }

  /** The grouping loop: lines that resolve, by the number of lines on their chain. */
  method GroupByHops(links: seq<Option<seq<nat>>>, rings: set<nat>) returns (groups: map<nat, seq<nat>>)
    requires forall i: nat :: i < |links| && i !in rings ==> links[i].Some?
    ensures forall h: nat :: h in groups ==> groups[h] != [] && Increasing(groups[h])
    ensures forall i: nat, h: nat :: InGroup(groups, h, i) <==>
              i < |links| && i !in rings && h == |links[i].value| + 1
  {
    groups := map[];
    for i := 0 to |links|
      invariant forall h: nat :: h in groups ==> groups[h] != [] && Increasing(groups[h])
      invariant forall k: nat, h: nat :: InGroup(groups, h, k) <==>
                  k < i && k !in rings && h == |links[k].value| + 1
    {
      if i in rings {
        continue;
      }
      var h := |links[i].value| + 1;
      var group := if h in groups then groups[h] else [];
      forall x | 0 <= x < |group| ensures group[x] < i {
        assert InGroup(groups, h, group[x]);
      }
      ghost var before := groups;
      groups := groups[h := group + [i]];
      forall k: nat, g: nat
        ensures InGroup(groups, g, k) <==> InGroup(before, g, k) || (k == i && g == h)
      {
      }
    }
  }

  ghost predicate InGroup(groups: map<nat, seq<nat>>, h: nat, i: nat) {
    h in groups && i in groups[h]
  }

  ghost predicate Increasing(s: seq<nat>) {
    forall i, j :: 0 <= i < j < |s| ==> s[i] < s[j]
  }
}
