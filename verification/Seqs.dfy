/** Facts about sequences, sets and sums that several components share. */
module Seqs {

  datatype Option<+T> = None | Some(value: T)

  datatype Result<+T> = Ok(value: T) | Err(reason: string)

  function One(b: bool): nat {
    if b then 1 else 0
  }

  function Sum(s: seq<nat>): nat {
    if s == [] then 0 else Sum(s[..|s| - 1]) + s[|s| - 1]
  }

  lemma {:induction false} SumConcat(a: seq<nat>, b: seq<nat>)
    ensures Sum(a + b) == Sum(a) + Sum(b)
  {
    if b == [] {
      assert a + b == a;
    } else {
      assert (a + b)[..|a + b| - 1] == a + b[..|b| - 1];
      SumConcat(a, b[..|b| - 1]);
    }
  }

  lemma {:induction false} SumAtLeast(s: seq<nat>, i: nat)
    requires i < |s|
    ensures s[i] <= Sum(s)
  {
    if i < |s| - 1 {
      SumAtLeast(s[..|s| - 1], i);
    }
  }

  lemma {:induction false} SplitLast<T>(s: seq<T>)
    requires s != []
    ensures s == s[..|s| - 1] + [s[|s| - 1]]
  {
  }

  lemma {:induction false} TakeNext<T>(s: seq<T>, i: nat)
    requires i < |s|
    ensures s[..i + 1] == s[..i] + [s[i]]
  {
  }

  lemma {:induction false} ConcatAssoc<T>(a: seq<T>, b: seq<T>, c: seq<T>)
    ensures (a + b) + c == a + (b + c)
  {
  }

  /** A queue from outside: whoever joins or leaves, those taken and those waiting stay in line. */
  lemma {:induction false} Regroup<T>(taken: seq<T>, leaves: seq<T>, before: seq<T>, now: seq<T>, joins: seq<T>)
    requires before + joins == leaves + now
    ensures (taken + leaves) + now == (taken + before) + joins
  {
    ConcatAssoc(taken, leaves, now);
    ConcatAssoc(taken, before, joins);
  }

  /** `[x] * k`. */
  function Replicate<T>(x: T, k: nat): (s: seq<T>)
    ensures |s| == k && forall i :: 0 <= i < k ==> s[i] == x
  {
    if k == 0 then [] else Replicate(x, k - 1) + [x]
  }

  /** `[x for list in lists for x in list]`. */
  function Concat<T>(lists: seq<seq<T>>): seq<T> {
    if lists == [] then [] else Concat(lists[..|lists| - 1]) + lists[|lists| - 1]
  }

  /** `list.pop(i)`: what is left once position `i` is taken out. */
  function RemoveAt<T>(s: seq<T>, i: nat): seq<T>
    requires i < |s|
  {
    s[..i] + s[i + 1..]
  }

  /** Positions in increasing order. */
  ghost predicate Ascending(idx: seq<nat>) {
    forall i, j :: 0 <= i < j < |idx| ==> idx[i] < idx[j]
  }

  lemma {:induction false} AppendPosition(idx: seq<nat>, n: nat)
    requires Ascending(idx) && forall i: nat :: i in idx ==> i < n
    ensures Ascending(idx + [n]) && forall i: nat :: i in idx + [n] <==> i in idx || i == n
  {
    assert forall k :: 0 <= k < |idx| ==> idx[k] in idx;
  }

  ghost predicate NoDup<T>(s: seq<T>) {
    forall i, j :: 0 <= i < j < |s| ==> s[i] != s[j]
  }

  lemma {:induction false} CountSplit<T>(s: seq<T>, x: T)
    requires s != []
    ensures multiset(s)[x] == multiset(s[..|s| - 1])[x] + (if x == s[|s| - 1] then 1 else 0)
    ensures x in s[..|s| - 1] <==> multiset(s[..|s| - 1])[x] > 0
  {
    SplitLast(s);
  }

  lemma {:induction false} NoDupCounts<T>(s: seq<T>)
    ensures NoDup(s) <==> forall x :: multiset(s)[x] <= 1
  {
    if s != [] {
      var init, last := s[..|s| - 1], s[|s| - 1];
      NoDupCounts(init);
      CountSplit(s, last);
      forall x ensures multiset(init)[x] <= multiset(s)[x] && (x != last ==> multiset(s)[x] == multiset(init)[x]) {
        CountSplit(s, x);
      }
    }
  }

  /** A rearrangement repeats nothing that was not repeated before. */
  lemma {:induction false} NoDupPermuted<T>(a: seq<T>, b: seq<T>)
    requires multiset(a) == multiset(b) && NoDup(a)
    ensures NoDup(b)
  {
    NoDupCounts(a);
    NoDupCounts(b);
  }

  lemma {:induction false} SameMembers<T>(a: seq<T>, b: seq<T>, x: T)
    requires multiset(a) == multiset(b)
    ensures x in a <==> x in b
  {
    assert x in a <==> x in multiset(a);
    assert x in b <==> x in multiset(b);
  }

  lemma {:induction false} SubsetCard<T>(a: set<T>, b: set<T>)
    requires a <= b
    ensures |a| <= |b|
    ensures |a| == |b| ==> a == b
  {
    assert b == a + (b - a);
    assert |b| == |a| + |b - a|;
  }

  /** The numbers 0, 1, ..., n - 1. */
  function Below(n: nat): (below: set<nat>)
    ensures forall x :: x in below <==> 0 <= x < n
    ensures |below| == n
  {
    if n == 0 then {} else Below(n - 1) + {n - 1}
  }

  lemma {:induction false} NoDupCard<T>(s: seq<T>)
    requires NoDup(s)
    ensures |set x | x in s| == |s|
  {
    if s != [] {
      var init, last := s[..|s| - 1], s[|s| - 1];
      NoDupCard(init);
      assert last !in init;
      assert s == init + [last];
      assert (set x | x in s) == (set x | x in init) + {last};
    }
  }

  /** Pigeonhole: a repeat-free sequence of numbers below `n` has at most `n` elements. */
  lemma {:induction false} NoDupBound(s: seq<nat>, n: nat)
    requires NoDup(s)
    requires forall i :: 0 <= i < |s| ==> s[i] < n
    ensures |s| <= n
  {
    var members := set x | x in s;
    NoDupCard(s);
    assert members <= Below(n);
    SubsetCard(members, Below(n));
  }
}
