/** One display line: the intervals placed on it, kept sorted, with an overlap check that looks at two
    neighbours only. */
module SpanLines {

  datatype Interval = Interval(start: int, end: int)

  predicate Less(a: Interval, b: Interval) {
    a.start < b.start || (a.start == b.start && a.end < b.end)
  }

  predicate Overlaps(a: Interval, b: Interval) {
    a.start < b.end && b.start < a.end
  }

  /** `bisect_left(intervals, (start, -inf))`: how many intervals of a sorted list start before `start`. */
  function Bisect(ivs: seq<Interval>, start: int): (idx: nat)
    ensures idx <= |ivs|
    ensures forall k :: 0 <= k < idx ==> ivs[k].start < start
    ensures idx < |ivs| ==> ivs[idx].start >= start
  {
    if ivs == [] || ivs[0].start >= start then 0 else 1 + Bisect(ivs[1..], start)
  }

  /** The position at which `insort_left` inserts. */
  function InsertAt(ivs: seq<Interval>, iv: Interval): (idx: nat)
    ensures idx <= |ivs|
    ensures forall k :: 0 <= k < idx ==> Less(ivs[k], iv)
    ensures idx < |ivs| ==> !Less(ivs[idx], iv)
  {
    if ivs == [] || !Less(ivs[0], iv) then 0 else 1 + InsertAt(ivs[1..], iv)
  }

  function Insorted(ivs: seq<Interval>, iv: Interval): seq<Interval> {
    var idx := InsertAt(ivs, iv);
    ivs[..idx] + [iv] + ivs[idx..]
  }

  /** `check_overlap`. */
  predicate CheckOverlap(ivs: seq<Interval>, iv: Interval) {
    var idx := Bisect(ivs, iv.start);
    || (idx > 0 && ivs[idx - 1].end > iv.start)
    || (idx < |ivs| && ivs[idx].start < iv.end)
  }

  predicate Sorted(ivs: seq<Interval>) {
    forall i, j :: 0 <= i < j < |ivs| ==> !Less(ivs[j], ivs[i])
  }

  /** What a line holds when every interval on it passed the check: each ends before the next starts.
      Lengths are free: a trimmed span may have length zero or less. */
  ghost predicate Laned(ivs: seq<Interval>) {
    && Sorted(ivs)
    && (forall i, j :: 0 <= i < j < |ivs| ==> ivs[i].end <= ivs[j].start)
  }

  lemma {:induction false} StartsAscend(ivs: seq<Interval>, i: int, j: int)
    requires Sorted(ivs) && 0 <= i <= j < |ivs|
    ensures ivs[i].start <= ivs[j].start
  {
    if i < j {
      assert !Less(ivs[j], ivs[i]);
    }
  }

  /** A free answer puts every stored interval wholly before or wholly after the asked one. */
  lemma {:induction false} FreeAround(ivs: seq<Interval>, iv: Interval, k: int)
    requires Laned(ivs) && !CheckOverlap(ivs, iv) && 0 <= k < |ivs|
    ensures k < Bisect(ivs, iv.start) ==> ivs[k].end <= iv.start
    ensures k >= Bisect(ivs, iv.start) ==> iv.end <= ivs[k].start
  {
    var idx := Bisect(ivs, iv.start);
    if k + 1 < idx {
      assert ivs[k].end <= ivs[idx - 1].start;
    } else if idx <= k {
      StartsAscend(ivs, idx, k);
    }
  }

  /** One of the two starts inside the other. */
  predicate Conflicts(a: Interval, b: Interval) {
    a.start < b.start < a.end || b.start <= a.start < b.end
  }

  /** On such a line the two-neighbour check agrees with a scan over all stored intervals; it never misses an
      overlap, and between intervals of positive length it finds nothing else. */
  lemma {:induction false} BisectAgreesWithScan(ivs: seq<Interval>, iv: Interval)
    requires Laned(ivs)
    ensures CheckOverlap(ivs, iv) <==> exists k :: 0 <= k < |ivs| && Conflicts(ivs[k], iv)
    ensures !CheckOverlap(ivs, iv) ==> forall k :: 0 <= k < |ivs| ==> !Overlaps(ivs[k], iv)
    ensures iv.start < iv.end && (forall k :: 0 <= k < |ivs| ==> ivs[k].start < ivs[k].end) ==>
              (CheckOverlap(ivs, iv) <==> exists k :: 0 <= k < |ivs| && Overlaps(ivs[k], iv))
  {
    var idx := Bisect(ivs, iv.start);
    if CheckOverlap(ivs, iv) {
      if idx > 0 && ivs[idx - 1].end > iv.start {
        assert Conflicts(ivs[idx - 1], iv);
      } else {
        assert Conflicts(ivs[idx], iv);
      }
    } else {
      forall k | 0 <= k < |ivs| ensures !Conflicts(ivs[k], iv) && !Overlaps(ivs[k], iv) {
        ConflictFree(ivs, iv, k);
      }
    }
  }

  lemma {:induction false} ConflictFree(ivs: seq<Interval>, iv: Interval, k: int)
    requires Laned(ivs) && !CheckOverlap(ivs, iv) && 0 <= k < |ivs|
    ensures !Conflicts(ivs[k], iv) && !Overlaps(ivs[k], iv)
  {
    FreeAround(ivs, iv, k);
    var idx := Bisect(ivs, iv.start);
    if idx <= k {
      StartsAscend(ivs, idx, k);
    }
  }

  lemma {:induction false} LaneBetween(a: seq<Interval>, iv: Interval, b: seq<Interval>)
    requires Laned(a) && Laned(b)
    requires forall k :: 0 <= k < |a| ==> Less(a[k], iv) && a[k].end <= iv.start
    requires forall k :: 0 <= k < |b| ==> !Less(b[k], iv) && iv.end <= b[k].start
    requires forall i, j :: 0 <= i < |a| && 0 <= j < |b| ==> a[i].end <= b[j].start
    ensures Laned(a + [iv] + b)
  {
  }

  /** A checked insertion keeps the line sorted and free of overlaps, whatever the interval's length. */
  lemma {:induction false} CheckedInsertKeepsLane(ivs: seq<Interval>, iv: Interval)
    requires Laned(ivs) && !CheckOverlap(ivs, iv)
    ensures Laned(Insorted(ivs, iv))
  {
    var at := InsertAt(ivs, iv);
    var a, b := ivs[..at], ivs[at..];
    forall k | 0 <= k < |a| ensures Less(a[k], iv) && a[k].end <= iv.start {
      FreeBesides(ivs, iv, k);
    }
    forall k | 0 <= k < |b| ensures !Less(b[k], iv) && iv.end <= b[k].start {
      FreeBesides(ivs, iv, at + k);
    }
    LaneBetween(a, iv, b);
  }

  lemma {:induction false} FreeBesides(ivs: seq<Interval>, iv: Interval, k: int)
    requires Laned(ivs) && !CheckOverlap(ivs, iv) && 0 <= k < |ivs|
    ensures k < InsertAt(ivs, iv) ==> Less(ivs[k], iv) && ivs[k].end <= iv.start
    ensures k >= InsertAt(ivs, iv) ==> !Less(ivs[k], iv) && iv.end <= ivs[k].start
  {
    FreeAround(ivs, iv, k);
    AfterInsertion(ivs, iv, k);
  }

  /** Everything from the insertion position on is not smaller than the new interval. */
  lemma {:induction false} AfterInsertion(ivs: seq<Interval>, iv: Interval, k: int)
    requires Sorted(ivs) && 0 <= k < |ivs|
    ensures k >= InsertAt(ivs, iv) ==> !Less(ivs[k], iv)
  {
    var at := InsertAt(ivs, iv);
    if at < k {
      assert !Less(ivs[k], ivs[at]);
    }
  }

  /** `insort_left` keeps any sorted list sorted and adds exactly the one interval. */
  lemma {:induction false} InsortKeepsSorted(ivs: seq<Interval>, iv: Interval)
    requires Sorted(ivs)
    ensures Sorted(Insorted(ivs, iv))
    ensures multiset(Insorted(ivs, iv)) == multiset(ivs) + multiset{iv}
  {
    InsortedSorted(ivs, iv);
    InsortedContents(ivs, iv);
  }

  lemma {:induction false} InsortedSorted(ivs: seq<Interval>, iv: Interval)
    requires Sorted(ivs)
    ensures Sorted(Insorted(ivs, iv))
  {
    var at := InsertAt(ivs, iv);
    forall k | at <= k < |ivs| ensures !Less(ivs[k], iv) {
      AfterInsertion(ivs, iv, k);
    }
  }

  lemma {:induction false} InsortedContents(ivs: seq<Interval>, iv: Interval)
    ensures multiset(Insorted(ivs, iv)) == multiset(ivs) + multiset{iv}
  {
    var at := InsertAt(ivs, iv);
    assert ivs == ivs[..at] + ivs[at..];
  }

  // ----- Spans of length zero -----

  /** The check never misses: if it says free, nothing stored overlaps. */
  ghost predicate Sound(ivs: seq<Interval>) {
    forall q: Interval, k: nat :: q.start < q.end && k < |ivs| && !CheckOverlap(ivs, q) ==> !Overlaps(ivs[k], q)
  }

  /** A point strictly inside a stored interval. */
  ghost predicate Inside(ivs: seq<Interval>, p: int) {
    exists k :: 0 <= k < |ivs| && ivs[k].start < p < ivs[k].end
  }

  /** A point strictly inside a stored interval, with room after it. */
  ghost predicate Buried(ivs: seq<Interval>, p: int) {
    exists k :: 0 <= k < |ivs| && ivs[k].start < p && p + 1 < ivs[k].end
  }

  /** For a span of length zero the check means just that. */
  lemma {:induction false} PointCheck(ivs: seq<Interval>, p: int)
    requires Laned(ivs)
    ensures CheckOverlap(ivs, Interval(p, p)) <==> Inside(ivs, p)
  {
    BisectAgreesWithScan(ivs, Interval(p, p));
    if Inside(ivs, p) {
      var k :| 0 <= k < |ivs| && ivs[k].start < p < ivs[k].end;
      assert Conflicts(ivs[k], Interval(p, p));
    }
  }

  /** A zero-length span may skip the check.  Putting it on its line leaves the line's check sound exactly
      when it does not fall inside a stored interval, with room after it: otherwise it hides that interval. */
  lemma {:induction false} ZeroLengthSpanHides(ivs: seq<Interval>, p: int)
    requires Laned(ivs)
    ensures Sound(Insorted(ivs, Interval(p, p))) <==> !Buried(ivs, p)
  {
    var ivs' := Insorted(ivs, Interval(p, p));
    if Buried(ivs, p) {
      var k: nat :| k < |ivs| && ivs[k].start < p && p + 1 < ivs[k].end;
      HiddenInterval(ivs, p, k);
      assert Overlaps(ivs'[k], Interval(p + 1, p + 2));
    } else {
      PointLeavesGap(ivs, p);
      NearlyLanedIsSound(ivs');
    }
  }

  /** Every interval ends at most one past the start of each later one. */
  ghost predicate NearlyLaned(ivs: seq<Interval>) {
    Sorted(ivs) && forall i, j :: 0 <= i < j < |ivs| ==> ivs[i].end <= ivs[j].start + 1
  }

  lemma {:induction false} NearlyLanedIsSound(ivs: seq<Interval>)
    requires NearlyLaned(ivs)
    ensures Sound(ivs)
  {
    forall q: Interval, k: nat | q.start < q.end && k < |ivs| && !CheckOverlap(ivs, q)
      ensures !Overlaps(ivs[k], q)
    {
      NearlyFree(ivs, q, k);
    }
  }

  lemma {:induction false} NearlyFree(ivs: seq<Interval>, q: Interval, k: nat)
    requires NearlyLaned(ivs) && k < |ivs| && !CheckOverlap(ivs, q)
    ensures !Overlaps(ivs[k], q)
  {
    var idx := Bisect(ivs, q.start);
    if k + 1 < idx {
      assert ivs[k].end <= ivs[idx - 1].start + 1;
    } else if idx <= k {
      StartsAscend(ivs, idx, k);
    }
  }

  lemma {:induction false} PointLeavesGap(ivs: seq<Interval>, p: int)
    requires Laned(ivs) && !Buried(ivs, p)
    ensures NearlyLaned(Insorted(ivs, Interval(p, p)))
  {
    var z := Interval(p, p);
    var at := InsertAt(ivs, z);
    var a, b := ivs[..at], ivs[at..];
    forall k | 0 <= k < |a| ensures a[k].end <= p + 1 {
      assert Less(ivs[k], z);
    }
    forall k | 0 <= k < |b| ensures p <= b[k].start {
      AfterInsertion(ivs, z, at + k);
    }
    InsortedSorted(ivs, z);
    assert a + b == ivs;
    NearlyBetween(a, z, b);
  }

  lemma {:induction false} NearlyBetween(a: seq<Interval>, z: Interval, b: seq<Interval>)
    requires Laned(a + b) && Sorted(a + [z] + b)
    requires forall k :: 0 <= k < |a| ==> a[k].end <= z.start + 1
    requires forall k :: 0 <= k < |b| ==> z.end <= b[k].start
    ensures NearlyLaned(a + [z] + b)
  {
    var ivs := a + [z] + b;
    forall i, j | 0 <= i < j < |ivs| ensures ivs[i].end <= ivs[j].start + 1 {
      if i != |a| && j != |a| {
        var i', j' := if i < |a| then i else i - 1, if j < |a| then j else j - 1;
        assert ivs[i] == (a + b)[i'] && ivs[j] == (a + b)[j'];
      }
    }
  }

  lemma {:induction false} HiddenInterval(ivs: seq<Interval>, p: int, k: nat)
    requires Laned(ivs) && k < |ivs| && ivs[k].start < p && p + 1 < ivs[k].end
    ensures InsertAt(ivs, Interval(p, p)) == k + 1 && Insorted(ivs, Interval(p, p))[k] == ivs[k]
    ensures !CheckOverlap(Insorted(ivs, Interval(p, p)), Interval(p + 1, p + 2))
  {
    var z := Interval(p, p);
    AfterInsertion(ivs, z, k);
    if k + 1 < |ivs| {
      assert ivs[k].end <= ivs[k + 1].start;
      assert !Less(ivs[k + 1], z);
    }
    forall j | 0 <= j < k + 1 ensures ivs[j].start < p {
      StartsAscend(ivs, j, k);
    }
    HidesBehind(ivs[..k + 1], z, ivs[k + 1..]);
  }

  lemma {:induction false} HidesBehind(a: seq<Interval>, z: Interval, b: seq<Interval>)
    requires z.start == z.end
    requires forall j :: 0 <= j < |a| ==> a[j].start < z.start
    requires b != [] ==> z.start + 2 <= b[0].start
    ensures !CheckOverlap(a + [z] + b, Interval(z.start + 1, z.start + 2))
  {
    var ivs := a + [z] + b;
    var idx := Bisect(ivs, z.start + 1);
    assert ivs[|a|] == z && (b != [] ==> ivs[|a| + 1] == b[0]);
    assert forall j :: 0 <= j < |a| ==> ivs[j] == a[j];
    assert idx == |a| + 1;
  }
}
