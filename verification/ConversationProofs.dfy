/** What every run of the conversation queue keeps, and when all turns are sent. */
module ConversationProofs {
  import opened Seqs
  import opened Conversations

  // ----- The invariant -----

  function Owned(s: State, c: nat): nat {
    Count(s.queue, c) + Count(s.waiting, c) + Count(s.running, c)
  }

  /** The conversation still has something to do: a turn to send, or, if it has none at all, to fail at that. */
  predicate Open(w: Workload, s: State, c: nat) {
    && Fits(w, s, c) && c !in s.crashed && c !in s.dropped
    && (s.inputs[c].finished < |w.turns[c]| || w.turns[c] == [])
  }

  ghost predicate Shape(w: Workload, s: State) {
    && |s.inputs| == |w.turns|
    && (forall c :: 0 <= c < |w.turns| ==> s.inputs[c].finished <= |w.turns[c]|)
    && (forall c :: c in s.crashed ==> 0 <= c < |w.turns| && w.turns[c] == [])
    && (forall c :: c in s.dropped ==> 0 <= c < |w.turns| && s.inputs[c].finished < |w.turns[c]|)
    && (forall c: nat :: c < |w.turns| && w.turns[c] == [] ==> Count(s.running, c) == 0)
  }

  /** An open conversation is in exactly one place, a closed one nowhere. */
  ghost predicate OnePlace(w: Workload, s: State) {
    forall c: nat :: Owned(s, c) == One(Open(w, s, c))
  }

  function SentCount(s: State, c: nat): nat
    requires c < |s.inputs|
  {
    s.inputs[c].finished + Count(s.running, c) + One(c in s.dropped)
  }

  /** The turns of each conversation went out once each, in order. */
  ghost predicate InOrder(s: State) {
    forall c: nat :: c < |s.inputs| ==> TurnsSent(s.log, c) == Identity(SentCount(s, c))
  }

  ghost predicate LogKnown(w: Workload, log: seq<Sent>) {
    forall i :: 0 <= i < |log| ==> log[i].conv < |w.turns|
  }

  ghost predicate Tally(w: Workload, s: State) {
    && |s.queue| + |s.waiting| + |s.running| <= |w.turns|
    && |s.log| + |s.waiting| + |s.crashed| == s.issued <= Total(w)
    && (w.limit.Some? ==> |s.running| <= w.limit.value)
    && (s.aborted ==> s.issued < Total(w))
  }

  /** The queue still starts with the conversations never issued, in their order; behind them come
      conversations put back, which are not empty. */
  ghost predicate Fifo(w: Workload, s: State) {
    && |s.queue| >= |w.turns| - s.issued
    && forall j: nat :: j < |s.queue| ==>
         if j < |w.turns| - s.issued then s.queue[j] == s.issued + j
         else s.queue[j] < |w.turns| && w.turns[s.queue[j]] != []
  }

  ghost predicate Inv(w: Workload, s: State) {
    Shape(w, s) && OnePlace(w, s) && InOrder(s) && LogKnown(w, s.log) && Tally(w, s) && Fifo(w, s)
  }

  // ----- The first state -----

  lemma {:induction false} IdentityFacts(n: nat)
    ensures |Identity(n)| == n && forall i :: 0 <= i < n ==> Identity(n)[i] == i
    ensures forall c: nat :: Count(Identity(n), c) == One(c < n)
  {
    if n > 0 {
      IdentityFacts(n - 1);
      CountAppend(Identity(n - 1), n - 1);
    }
  }

  lemma {:induction false} FreshFacts(n: nat)
    ensures |Fresh(n)| == n && forall i :: 0 <= i < n ==> Fresh(n)[i] == Input(0, [])
  {
    if n > 0 {
      FreshFacts(n - 1);
    }
  }

  lemma {:induction false} InvInit(w: Workload)
    ensures Inv(w, Init(w))
  {
    IdentityFacts(|w.turns|);
    FreshFacts(|w.turns|);
  }

  // ----- Steps -----

  lemma {:induction false} CountTail(q: seq<nat>, c: nat)
    requires q != []
    ensures Count(q, c) == One(q[0] == c) + Count(q[1..], c)
  {
    CountRemoveAt(q, 0, c);
    assert RemoveAt(q, 0) == q[1..];
  }

  lemma {:induction false} CountMember(q: seq<nat>, i: nat)
    requires i < |q|
    ensures Count(q, q[i]) > 0
  {
    CountRemoveAt(q, i, q[i]);
  }

  lemma {:induction false} CountZero(q: seq<nat>, c: nat)
    requires Count(q, c) > 0
    ensures c in q
  {
    if q[|q| - 1] != c {
      CountZero(q[..|q| - 1], c);
    }
  }

  lemma {:induction false} InvIssue(w: Workload, s: State)
    requires Inv(w, s) && Enabled(w, s, Issue)
    ensures Inv(w, DoIssue(s))
  {
    var s' := DoIssue(s);
    CountAppend(s.waiting, s.queue[0]);
    forall c: nat ensures Owned(s', c) == One(Open(w, s', c)) {
      CountTail(s.queue, c);
      assert Owned(s, c) == One(Open(w, s, c));
    }
    assert InOrder(s') by {
      forall c: nat | c < |s.inputs| ensures TurnsSent(s'.log, c) == Identity(SentCount(s', c)) {
        assert TurnsSent(s.log, c) == Identity(SentCount(s, c));
      }
    }
  }

  lemma {:induction false} InvAbort(w: Workload, s: State)
    requires Inv(w, s) && Enabled(w, s, Abort)
    ensures Inv(w, s.(aborted := true))
  {
    var s' := s.(aborted := true);
    forall c: nat ensures Owned(s', c) == One(Open(w, s', c)) {
      assert Owned(s, c) == One(Open(w, s, c));
    }
    forall c: nat | c < |s.inputs| ensures TurnsSent(s'.log, c) == Identity(SentCount(s', c)) {
      assert TurnsSent(s.log, c) == Identity(SentCount(s, c));
    }
  }

  /** A conversation that waits or runs is there once and nowhere else. */
  lemma {:induction false} OwnerIsOpen(w: Workload, s: State, c: nat)
    requires OnePlace(w, s) && Count(s.waiting, c) + Count(s.running, c) > 0
    ensures Open(w, s, c) && Owned(s, c) == 1
  {
    assert Owned(s, c) == One(Open(w, s, c));
  }

  lemma {:induction false} InvStart(w: Workload, s: State, i: nat)
    requires Inv(w, s) && Enabled(w, s, Start(i))
    ensures Inv(w, DoStart(w, s, i))
  {
    StartPlaces(w, s, i);
    StartOrder(w, s, i);
    CountAppend(s.running, s.waiting[i]);
  }

  lemma {:induction false} StartPlaces(w: Workload, s: State, i: nat)
    requires OnePlace(w, s) && Enabled(w, s, Start(i))
    ensures OnePlace(w, DoStart(w, s, i))
  {
    var s' := DoStart(w, s, i);
    CountAppend(s.running, s.waiting[i]);
    forall d: nat ensures Owned(s', d) == One(Open(w, s', d)) {
      CountRemoveAt(s.waiting, i, d);
      assert Owned(s, d) == One(Open(w, s, d));
    }
  }

  lemma {:induction false} StartOrder(w: Workload, s: State, i: nat)
    requires OnePlace(w, s) && InOrder(s) && Enabled(w, s, Start(i))
    ensures InOrder(DoStart(w, s, i))
  {
    var s', c := DoStart(w, s, i), s.waiting[i];
    CountMember(s.waiting, i);
    OwnerIsOpen(w, s, c);
    CountAppend(s.running, c);
    TurnsSentSnoc(s.log, s'.log[|s.log|]);
    forall d: nat | d < |s'.inputs| ensures TurnsSent(s'.log, d) == Identity(SentCount(s', d)) {
      assert TurnsSent(s.log, d) == Identity(SentCount(s, d));
      assert d == c ==> SentCount(s, c) == s.inputs[c].finished;
    }
  }

  lemma {:induction false} InvCrash(w: Workload, s: State, i: nat)
    requires Inv(w, s) && Enabled(w, s, Crash(i))
    ensures Inv(w, DoCrash(s, i))
  {
    var s' := DoCrash(s, i);
    CountMember(s.waiting, i);
    OwnerIsOpen(w, s, s.waiting[i]);
    CrashPlaces(w, s, i);
    forall d: nat | d < |s'.inputs| ensures TurnsSent(s'.log, d) == Identity(SentCount(s', d)) {
      assert TurnsSent(s.log, d) == Identity(SentCount(s, d));
    }
  }

  lemma {:induction false} CrashPlaces(w: Workload, s: State, i: nat)
    requires OnePlace(w, s) && i < |s.waiting|
    ensures OnePlace(w, DoCrash(s, i))
  {
    var s' := DoCrash(s, i);
    CountMember(s.waiting, i);
    OwnerIsOpen(w, s, s.waiting[i]);
    forall d: nat ensures Owned(s', d) == One(Open(w, s', d)) {
      CountRemoveAt(s.waiting, i, d);
      assert Owned(s, d) == One(Open(w, s, d));
    }
  }

  lemma {:induction false} InvSucceed(w: Workload, s: State, i: nat, reply: string)
    requires Inv(w, s) && Enabled(w, s, Succeed(i, reply))
    ensures Inv(w, DoSucceed(w, s, i, reply))
  {
    CountMember(s.running, i);
    OwnerIsOpen(w, s, s.running[i]);
    SucceedPlaces(w, s, i, reply);
    SucceedOrder(w, s, i, reply);
    SucceedShape(w, s, i, reply);
  }

  lemma {:induction false} SucceedPlaces(w: Workload, s: State, i: nat, reply: string)
    requires Shape(w, s) && OnePlace(w, s) && Enabled(w, s, Succeed(i, reply))
    ensures OnePlace(w, DoSucceed(w, s, i, reply))
  {
    var s' := DoSucceed(w, s, i, reply);
    CountMember(s.running, i);
    OwnerIsOpen(w, s, s.running[i]);
    CountAppend(s.queue, s.running[i]);
    forall d: nat ensures Owned(s', d) == One(Open(w, s', d)) {
      CountRemoveAt(s.running, i, d);
      assert Owned(s, d) == One(Open(w, s, d));
    }
  }

  lemma {:induction false} SucceedOrder(w: Workload, s: State, i: nat, reply: string)
    requires InOrder(s) && Enabled(w, s, Succeed(i, reply))
    ensures InOrder(DoSucceed(w, s, i, reply))
  {
    var s' := DoSucceed(w, s, i, reply);
    forall d: nat | d < |s'.inputs| ensures TurnsSent(s'.log, d) == Identity(SentCount(s', d)) {
      CountRemoveAt(s.running, i, d);
      assert TurnsSent(s.log, d) == Identity(SentCount(s, d));
    }
  }

  lemma {:induction false} SucceedShape(w: Workload, s: State, i: nat, reply: string)
    requires Shape(w, s) && OnePlace(w, s) && Enabled(w, s, Succeed(i, reply))
    ensures Shape(w, DoSucceed(w, s, i, reply))
  {
    var s' := DoSucceed(w, s, i, reply);
    CountMember(s.running, i);
    OwnerIsOpen(w, s, s.running[i]);
    StillNotRunning(w, s, i);
  }

  lemma {:induction false} StillNotRunning(w: Workload, s: State, i: nat)
    requires Shape(w, s) && i < |s.running|
    ensures forall d: nat :: d < |w.turns| && w.turns[d] == [] ==> Count(RemoveAt(s.running, i), d) == 0
  {
    forall d: nat | d < |w.turns| && w.turns[d] == [] ensures Count(RemoveAt(s.running, i), d) == 0 {
      CountRemoveAt(s.running, i, d);
    }
  }

  lemma {:induction false} InvFail(w: Workload, s: State, i: nat)
    requires Inv(w, s) && Enabled(w, s, Fail(i))
    ensures Inv(w, DoFail(s, i))
  {
    CountMember(s.running, i);
    OwnerIsOpen(w, s, s.running[i]);
    FailPlaces(w, s, i);
    FailOrder(w, s, i);
    StillNotRunning(w, s, i);
  }

  lemma {:induction false} FailPlaces(w: Workload, s: State, i: nat)
    requires OnePlace(w, s) && i < |s.running|
    ensures OnePlace(w, DoFail(s, i))
  {
    var s' := DoFail(s, i);
    CountMember(s.running, i);
    OwnerIsOpen(w, s, s.running[i]);
    forall d: nat ensures Owned(s', d) == One(Open(w, s', d)) {
      CountRemoveAt(s.running, i, d);
      assert Owned(s, d) == One(Open(w, s, d));
    }
  }

  lemma {:induction false} FailOrder(w: Workload, s: State, i: nat)
    requires OnePlace(w, s) && InOrder(s) && i < |s.running|
    ensures InOrder(DoFail(s, i))
  {
    var s' := DoFail(s, i);
    CountMember(s.running, i);
    OwnerIsOpen(w, s, s.running[i]);
    forall d: nat | d < |s'.inputs| ensures TurnsSent(s'.log, d) == Identity(SentCount(s', d)) {
      CountRemoveAt(s.running, i, d);
      assert TurnsSent(s.log, d) == Identity(SentCount(s, d));
    }
  }

  lemma {:induction false} InvStep(w: Workload, s: State, a: Action)
    requires Inv(w, s) && Enabled(w, s, a)
    ensures Inv(w, Apply(w, s, a))
  {
    match a
    case Issue => InvIssue(w, s);
    case Abort => InvAbort(w, s);
    case Start(i) => InvStart(w, s, i);
    case Crash(i) => InvCrash(w, s, i);
    case Succeed(i, reply) => InvSucceed(w, s, i, reply);
    case Fail(i) => InvFail(w, s, i);
  }

  lemma {:induction false} InvRun(w: Workload, start: State, actions: seq<Action>, s: State)
    requires Inv(w, start) && After(w, start, actions) == Some(s)
    ensures Inv(w, s)
  {
    if actions != [] {
      var before := After(w, start, actions[..|actions| - 1]).value;
      InvRun(w, start, actions[..|actions| - 1], before);
      InvStep(w, before, actions[|actions| - 1]);
    }
  }

  lemma {:induction false} InvReachable(w: Workload, s: State)
    requires Reachable(w, s)
    ensures Inv(w, s)
  {
    var actions :| After(w, Init(w), actions) == Some(s);
    InvInit(w);
    InvRun(w, Init(w), actions, s);
  }
}
