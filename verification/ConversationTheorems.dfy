/** What the serving benchmark's conversation queue guarantees. */
module ConversationTheorems {
  import opened Seqs
  import opened Conversations
  import opened ConversationProofs

  // ----- The bounded queue never blocks a task -----

  /** Conversations queued and under way never outnumber those loaded, and a task that puts its
      conversation back always finds room, failures and crashes included. */
  lemma {:induction false} PutNeverBlocks(w: Workload, s: State)
    requires Reachable(w, s)
    ensures |s.queue| + |s.waiting| + |s.running| <= |w.turns|
    ensures forall i: nat, reply :: i < |s.running| ==> Enabled(w, s, Succeed(i, reply))
  {
    InvReachable(w, s);
    forall i: nat, reply | i < |s.running| ensures Enabled(w, s, Succeed(i, reply)) {
      CountMember(s.running, i);
      OwnerIsOpen(w, s, s.running[i]);
    }
  }

  /** In every run, each conversation's turns go out once each and in order. */
  lemma {:induction false} TurnsInOrder(w: Workload, s: State, c: nat)
    requires Reachable(w, s) && c < |w.turns|
    ensures exists k: nat :: k <= |w.turns[c]| && TurnsSent(s.log, c) == Identity(k)
  {
    InvReachable(w, s);
    SentAtMost(w, s, c);
    assert TurnsSent(s.log, c) == Identity(SentCount(s, c));
  }

  lemma {:induction false} SentAtMost(w: Workload, s: State, c: nat)
    requires Inv(w, s) && c < |w.turns|
    ensures SentCount(s, c) <= |w.turns[c]|
  {
    assert Owned(s, c) == One(Open(w, s, c));
  }

  // ----- What a request carries -----

  /** The prompts so far, each but the last followed by a reply. */
  ghost predicate Dialogue(turns: seq<Prompt>, messages: seq<Message>) {
    forall j :: 0 <= j < |messages| ==>
      if j % 2 == 0 then j / 2 < |turns| && messages[j] == User(turns[j / 2]) else messages[j].Assistant?
  }

  ghost predicate Contexts(w: Workload, s: State) {
    && |s.inputs| == |w.turns|
    && (forall c: nat :: c < |w.turns| ==>
          && Dialogue(w.turns[c], s.inputs[c].messages)
          && |s.inputs[c].messages| == 2 * s.inputs[c].finished + Count(s.running, c) + One(c in s.dropped))
    && (forall i :: 0 <= i < |s.log| ==> GoodEntry(w, s.log[i]))
  }

  ghost predicate GoodEntry(w: Workload, e: Sent) {
    e.conv < |w.turns| && Dialogue(w.turns[e.conv], e.messages) && |e.messages| == 2 * e.turn + 1
  }

  lemma {:induction false} ContextsStart(w: Workload, s: State, i: nat)
    requires OnePlace(w, s) && Contexts(w, s) && Enabled(w, s, Start(i))
    ensures Contexts(w, DoStart(w, s, i))
  {
    var s', c := DoStart(w, s, i), s.waiting[i];
    CountMember(s.waiting, i);
    OwnerIsOpen(w, s, c);
    CountAppend(s.running, c);
    assert Dialogue(w.turns[c], s'.inputs[c].messages);
    assert GoodEntry(w, s'.log[|s.log|]);
  }

  lemma {:induction false} ContextsSucceed(w: Workload, s: State, i: nat, reply: string)
    requires OnePlace(w, s) && Contexts(w, s) && Enabled(w, s, Succeed(i, reply))
    ensures Contexts(w, DoSucceed(w, s, i, reply))
  {
    var s', c := DoSucceed(w, s, i, reply), s.running[i];
    CountMember(s.running, i);
    OwnerIsOpen(w, s, c);
    assert |s.inputs[c].messages| == 2 * s.inputs[c].finished + 1;
    DialogueReply(w.turns[c], s.inputs[c].messages, reply);
    forall d: nat | d < |w.turns|
      ensures |s'.inputs[d].messages| == 2 * s'.inputs[d].finished + Count(s'.running, d) + One(d in s.dropped)
    {
      CountRemoveAt(s.running, i, d);
    }
  }

  lemma {:induction false} DialogueReply(turns: seq<Prompt>, messages: seq<Message>, reply: string)
    requires Dialogue(turns, messages) && |messages| % 2 == 1
    ensures Dialogue(turns, messages + [Assistant(reply)])
  {
  }

  lemma {:induction false} ContextsFail(w: Workload, s: State, i: nat)
    requires OnePlace(w, s) && Contexts(w, s) && i < |s.running|
    ensures Contexts(w, DoFail(s, i))
  {
    CountMember(s.running, i);
    OwnerIsOpen(w, s, s.running[i]);
    forall d: nat | d < |w.turns|
      ensures |s.inputs[d].messages|
           == 2 * s.inputs[d].finished + Count(DoFail(s, i).running, d) + One(d in DoFail(s, i).dropped)
    {
      CountRemoveAt(s.running, i, d);
    }
  }

  lemma {:induction false} ContextsRun(w: Workload, actions: seq<Action>, s: State)
    requires After(w, Init(w), actions) == Some(s)
    ensures Contexts(w, s)
  {
    InvInit(w);
    if actions == [] {
      FreshFacts(|w.turns|);
    } else {
      var init, a := actions[..|actions| - 1], actions[|actions| - 1];
      var before := After(w, Init(w), init).value;
      ContextsRun(w, init, before);
      InvRun(w, Init(w), init, before);
      match a
      case Issue =>
      case Abort =>
      case Start(i) => ContextsStart(w, before, i);
      case Crash(i) =>
      case Succeed(i, reply) => ContextsSucceed(w, before, i, reply);
      case Fail(i) => ContextsFail(w, before, i);
    }
  }

  /** Turn `k` is sent with the first `k + 1` prompts of its conversation, each earlier one answered. */
  lemma {:induction false} RequestsCarryContext(w: Workload, s: State)
    requires Reachable(w, s)
    ensures forall i :: 0 <= i < |s.log| ==> GoodEntry(w, s.log[i])
  {
    var actions :| After(w, Init(w), actions) == Some(s);
    ContextsRun(w, actions, s);
  }

  // ----- When every turn is sent -----

  /** Turns sent by the first `n` conversations. */
  function SentSum(log: seq<Sent>, n: nat): nat {
    if n == 0 then 0 else SentSum(log, n - 1) + |TurnsSent(log, n - 1)|
  }

  function TurnSum(turns: seq<seq<Prompt>>, n: nat): nat
    requires n <= |turns|
  {
    if n == 0 then 0 else TurnSum(turns, n - 1) + |turns[n - 1]|
  }

  lemma {:induction false} TotalIsTurnSum(turns: seq<seq<Prompt>>, n: nat)
    requires n <= |turns|
    ensures Sum(Lengths(turns[..n])) == TurnSum(turns, n)
  {
    if n > 0 {
      TotalIsTurnSum(turns, n - 1);
      assert turns[..n][..n - 1] == turns[..n - 1];
      var l := Lengths(turns[..n]);
      assert l[..|l| - 1] == Lengths(turns[..n - 1]);
    }
  }

  lemma {:induction false} SentSumSnoc(log: seq<Sent>, e: Sent, n: nat)
    ensures SentSum(log + [e], n) == SentSum(log, n) + One(e.conv < n)
  {
    if n > 0 {
      SentSumSnoc(log, e, n - 1);
      TurnsSentSnoc(log, e);
    }
  }

  lemma {:induction false} SentSumEmpty(n: nat)
    ensures SentSum([], n) == 0
  {
    if n > 0 {
      SentSumEmpty(n - 1);
    }
  }

  lemma {:induction false} SentSumIsLog(w: Workload, log: seq<Sent>)
    requires LogKnown(w, log)
    ensures SentSum(log, |w.turns|) == |log|
  {
    if log == [] {
      SentSumEmpty(|w.turns|);
    } else {
      SentSumIsLog(w, log[..|log| - 1]);
      SentSumSnoc(log[..|log| - 1], log[|log| - 1], |w.turns|);
      SplitLast(log);
    }
  }

  lemma {:induction false} SentSumFull(turns: seq<seq<Prompt>>, log: seq<Sent>, n: nat)
    requires n <= |turns| && forall c: nat :: c < n ==> |TurnsSent(log, c)| <= |turns[c]|
    ensures SentSum(log, n) <= TurnSum(turns, n)
    ensures SentSum(log, n) == TurnSum(turns, n) <==> forall c: nat :: c < n ==> |TurnsSent(log, c)| == |turns[c]|
  {
    if n > 0 {
      SentSumFull(turns, log, n - 1);
    }
  }

  ghost predicate AllSent(w: Workload, s: State) {
    forall c: nat :: c < |w.turns| ==> TurnsSent(s.log, c) == Identity(|w.turns[c]|)
  }

  /** The run is over: no request is waiting or running and none will be issued, because all were, because
      nothing is left to take, or because the wait for the queue ran out. */
  ghost predicate Finished(w: Workload, s: State) {
    s.waiting == [] && s.running == [] && (s.aborted || s.issued == Total(w) || s.queue == [])
  }

  lemma {:induction false} SentLengths(w: Workload, s: State)
    requires Inv(w, s)
    ensures forall c: nat :: c < |w.turns| ==> |TurnsSent(s.log, c)| == SentCount(s, c) <= |w.turns[c]|
  {
    forall c: nat | c < |w.turns| ensures |TurnsSent(s.log, c)| == SentCount(s, c) <= |w.turns[c]| {
      SentAtMost(w, s, c);
      IdentityFacts(SentCount(s, c));
      assert TurnsSent(s.log, c) == Identity(SentCount(s, c));
    }
  }

  lemma {:induction false} AllSentBySum(w: Workload, s: State)
    requires Inv(w, s)
    ensures |s.log| <= Total(w)
    ensures AllSent(w, s) <==> |s.log| == Total(w)
  {
    SentLengths(w, s);
    SentSumFull(w.turns, s.log, |w.turns|);
    SentSumIsLog(w, s.log);
    TotalIsTurnSum(w.turns, |w.turns|);
    assert w.turns[..|w.turns|] == w.turns;
    forall c: nat | c < |w.turns|
      ensures TurnsSent(s.log, c) == Identity(|w.turns[c]|) <==> |TurnsSent(s.log, c)| == |w.turns[c]|
    {
      IdentityFacts(|w.turns[c]|);
      assert TurnsSent(s.log, c) == Identity(SentCount(s, c));
    }
  }

  /** With an empty queue and no failures everything open is gone, so everything was sent. */
  lemma {:induction false} DrainedSentAll(w: Workload, s: State)
    requires Inv(w, s) && Finished(w, s) && s.queue == [] && s.dropped == {}
    ensures AllSent(w, s)
  {
    forall c: nat | c < |w.turns| ensures TurnsSent(s.log, c) == Identity(|w.turns[c]|) {
      assert Owned(s, c) == One(Open(w, s, c));
      assert TurnsSent(s.log, c) == Identity(SentCount(s, c));
    }
  }

  /** An empty conversation has crashed its task exactly when its place in line was reached. */
  lemma {:induction false} CrashedWhenReached(w: Workload, s: State, c: nat)
    requires Inv(w, s) && Finished(w, s) && c < |w.turns| && w.turns[c] == []
    ensures c in s.crashed <==> c < s.issued
  {
    assert Owned(s, c) == One(Open(w, s, c));
    if c >= s.issued {
      assert s.queue[c - s.issued] == c;
      CountMember(s.queue, c - s.issued);
    } else {
      NotQueuedAgain(w, s, c);
    }
  }

  lemma {:induction false} NotQueuedAgain(w: Workload, s: State, c: nat)
    requires Fifo(w, s) && c < |w.turns| && w.turns[c] == [] && c < s.issued
    ensures Count(s.queue, c) == 0
  {
    if Count(s.queue, c) > 0 {
      CountZero(s.queue, c);
      assert false;
    }
  }

  /** A finished run without failed requests has issued exactly `num_actual_requests` if and only if no wait
      for the queue ran out.  It has sent every turn of every conversation if and only if, besides, no empty
      conversation stands among the first that many: each of those uses up a request without sending anything. */
  lemma {:induction false} AllTurnsSent(w: Workload, s: State)
    requires Reachable(w, s) && Finished(w, s) && s.dropped == {}
    ensures s.issued == Total(w) <==> !s.aborted
    ensures AllSent(w, s) <==> !s.aborted && forall c: nat :: c < |w.turns| && w.turns[c] == [] ==> c >= Total(w)
  {
    InvReachable(w, s);
    AllSentBySum(w, s);
    if s.queue == [] && !s.aborted {
      DrainedSentAll(w, s);
    }
    NoneCrashed(w, s);
  }

  lemma {:induction false} NoneCrashed(w: Workload, s: State)
    requires Inv(w, s) && Finished(w, s)
    ensures |s.crashed| == 0 <==> forall c: nat :: c < |w.turns| && w.turns[c] == [] ==> c >= s.issued
  {
    forall c: nat | c < |w.turns| && w.turns[c] == [] ensures c in s.crashed <==> c < s.issued {
      CrashedWhenReached(w, s, c);
    }
    assert |s.crashed| == 0 <==> s.crashed == {};
    if s.crashed != {} {
      var c :| c in s.crashed;
      assert w.turns[c] == [];
    }
  }

  lemma {:induction false} AfterSnoc(w: Workload, start: State, actions: seq<Action>, s: State, a: Action)
    requires After(w, start, actions) == Some(s) && Enabled(w, s, a)
    ensures After(w, start, actions + [a]) == Some(Apply(w, s, a))
  {
    assert (actions + [a])[..|actions|] == actions;
  }

  /** A step more is still a run. */
  lemma {:induction false} ReachableStep(w: Workload, s: State, a: Action)
    requires Reachable(w, s) && Enabled(w, s, a)
    ensures Reachable(w, Apply(w, s, a))
  {
    var actions :| After(w, Init(w), actions) == Some(s);
    AfterSnoc(w, Init(w), actions, s, a);
  }

  lemma {:induction false} ReachableInit(w: Workload)
    ensures Reachable(w, Init(w))
  {
    assert After(w, Init(w), []) == Some(Init(w));
  }

  /** One conversation of two turns, of which the first is answered only after the wait ran out: no request
      fails, yet the second turn is never sent. */
  lemma {:induction false} SlowReplyEndsRun(reply: string) returns (w: Workload, s: State)
    ensures w == Workload([["a", "b"]], None)
    ensures Reachable(w, s) && Finished(w, s) && s.dropped == {}
    ensures Total(w) == 2 && s.issued == 1 && !AllSent(w, s)
  {
    w := Workload([["a", "b"]], None);
    TwoTurns(w.turns[0], []);
    var s0 := Init(w);
    ReachableInit(w);
    ReachableStep(w, s0, Issue);
    var s1 := DoIssue(s0);
    ReachableStep(w, s1, Start(0));
    var s2 := DoStart(w, s1, 0);
    ReachableStep(w, s2, Abort);
    var s3 := s2.(aborted := true);
    ReachableStep(w, s3, Succeed(0, reply));
    s := DoSucceed(w, s3, 0, reply);
    AllTurnsSent(w, s);
  }

  lemma {:induction false} TwoTurns(first: seq<Prompt>, rest: seq<seq<Prompt>>)
    requires |first| == 2 && (rest == [] || rest == [[]])
    ensures Sum(Lengths([first] + rest)) == 2
  {
    assert [first][..0] == [] && Lengths([first]) == [2] && [2][..0] == [];
    assert Sum([2]) == 2;
    if rest != [] {
      var turns := [first, []];
      assert turns[..1] == [first] && Lengths(turns) == [2, 0] && [2, 0][..1] == [2];
      assert [first] + rest == turns;
    } else {
      assert [first] + rest == [first];
    }
  }

  /** A conversation of two turns and an empty one: all requests are issued, none fails and no wait runs out,
      yet the second turn is never sent. */
  lemma {:induction false} EmptyConversationCostsTurn(reply: string) returns (w: Workload, s: State)
    ensures w == Workload([["a", "b"], []], None)
    ensures Reachable(w, s) && Finished(w, s) && s.dropped == {} && !s.aborted
    ensures Total(w) == 2 && s.issued == 2 && !AllSent(w, s)
  {
    w := Workload([["a", "b"], []], None);
    TwoTurns(w.turns[0], [[]]);
    assert [w.turns[0]] + [[]] == w.turns;
    var s0 := Init(w);
    TwoInit(w);
    ReachableInit(w);
    ReachableStep(w, s0, Issue);
    var s1 := DoIssue(s0);
    ReachableStep(w, s1, Issue);
    var s2 := DoIssue(s1);
    ReachableStep(w, s2, Start(0));
    var s3 := DoStart(w, s2, 0);
    ReachableStep(w, s3, Crash(0));
    var s4 := DoCrash(s3, 0);
    ReachableStep(w, s4, Succeed(0, reply));
    s := DoSucceed(w, s4, 0, reply);
    AllTurnsSent(w, s);
    assert w.turns[1] == [];
  }

  lemma {:induction false} TwoInit(w: Workload)
    requires |w.turns| == 2
    ensures Init(w) == State([0, 1], [], [], [Input(0, []), Input(0, [])], 0, false, [], {}, {})
  {
    assert Identity(1) == Identity(0) + [0] && Fresh(1) == Fresh(0) + [Input(0, [])];
    assert Identity(2) == Identity(1) + [1] && Fresh(2) == Fresh(1) + [Input(0, [])];
  }

  // ----- Every run ends, and can always go on until it is over -----

  function Fuel(w: Workload, s: State): int {
    3 * (Total(w) - s.issued) + 2 * |s.waiting| + |s.running| + One(!s.aborted)
  }

  lemma {:induction false} FuelStep(w: Workload, s: State, a: Action)
    requires Enabled(w, s, a)
    ensures Fuel(w, Apply(w, s, a)) < Fuel(w, s)
  {
  }

  lemma {:induction false} FuelRun(w: Workload, start: State, actions: seq<Action>, s: State)
    requires After(w, start, actions) == Some(s)
    ensures |actions| + Fuel(w, s) <= Fuel(w, start)
  {
    if actions != [] {
      var before := After(w, start, actions[..|actions| - 1]).value;
      FuelRun(w, start, actions[..|actions| - 1], before);
      FuelStep(w, before, actions[|actions| - 1]);
    }
  }

  lemma {:induction false} RunsAreBounded(w: Workload, actions: seq<Action>, s: State)
    requires After(w, Init(w), actions) == Some(s)
    ensures |actions| <= 3 * Total(w) + 1
  {
    FuelRun(w, Init(w), actions, s);
    InvInit(w);
    InvRun(w, Init(w), actions, s);
  }

  /** No deadlock: until the run is over some task can start, crash or finish, or a request be issued. */
  lemma {:induction false} Progress(w: Workload, s: State)
    requires Reachable(w, s) && !Finished(w, s)
    requires w.limit.Some? ==> w.limit.value >= 1
    ensures exists a :: Enabled(w, s, a) && !a.Fail? && !a.Abort?
  {
    InvReachable(w, s);
    PutNeverBlocks(w, s);
    if s.running != [] {
      assert Enabled(w, s, Succeed(0, ""));
    } else if s.waiting != [] {
      CountMember(s.waiting, 0);
      OwnerIsOpen(w, s, s.waiting[0]);
      assert Enabled(w, s, Start(0)) || Enabled(w, s, Crash(0));
    } else {
      assert Enabled(w, s, Issue);
    }
  }

  // ----- Shared prefixes -----

  /** `[[r] for requests in input_requests for r in requests]`. */
  function Flatten(turns: seq<seq<Prompt>>): seq<seq<Prompt>> {
    if turns == [] then [] else Flatten(turns[..|turns| - 1]) + Singletons(turns[|turns| - 1])
  }

  function Singletons(conversation: seq<Prompt>): seq<seq<Prompt>> {
    if conversation == [] then []
    else Singletons(conversation[..|conversation| - 1]) + [[conversation[|conversation| - 1]]]
  }

  lemma {:induction false} LengthsConcat(a: seq<seq<Prompt>>, b: seq<seq<Prompt>>)
    ensures Lengths(a + b) == Lengths(a) + Lengths(b)
  {
    if b == [] {
      assert a + b == a;
    } else {
      assert (a + b)[..|a + b| - 1] == a + b[..|b| - 1];
      LengthsConcat(a, b[..|b| - 1]);
    }
  }

  lemma {:induction false} SingletonsTotal(conversation: seq<Prompt>)
    ensures Sum(Lengths(Singletons(conversation))) == |conversation|
    ensures [] !in Singletons(conversation)
    ensures Concat(Singletons(conversation)) == conversation
    ensures forall i :: 0 <= i < |Singletons(conversation)| ==> |Singletons(conversation)[i]| == 1
  {
    if conversation != [] {
      var init, last := conversation[..|conversation| - 1], conversation[|conversation| - 1];
      SingletonsTotal(init);
      LengthsConcat(Singletons(init), [[last]]);
      assert Lengths([[last]]) == [1];
      SplitLast(conversation);
      SumConcat(Lengths(Singletons(init)), [1]);
    }
  }

  lemma {:induction false} ConcatBoth(a: seq<seq<Prompt>>, b: seq<seq<Prompt>>)
    ensures Concat(a + b) == Concat(a) + Concat(b)
  {
    if b == [] {
      assert a + b == a;
    } else {
      var init, last := b[..|b| - 1], b[|b| - 1];
      ConcatBoth(a, init);
      assert a + b == (a + init) + [last];
      ConcatAssoc(Concat(a), Concat(init), last);
    }
  }

  /** Flattening keeps the requests and their order, and leaves no empty conversation behind, so with shared
      prefixes every failure-free run in which no wait runs out sends everything. */
  lemma {:induction false} FlattenSafe(turns: seq<seq<Prompt>>)
    ensures Concat(Flatten(turns)) == Concat(turns)
    ensures forall i :: 0 <= i < |Flatten(turns)| ==> |Flatten(turns)[i]| == 1
    ensures Sum(Lengths(Flatten(turns))) == Sum(Lengths(turns))
    ensures [] !in Flatten(turns)
  {
    if turns != [] {
      var init, last := turns[..|turns| - 1], turns[|turns| - 1];
      FlattenSafe(init);
      SingletonsTotal(last);
      LengthsConcat(Flatten(init), Singletons(last));
      ConcatBoth(Flatten(init), Singletons(last));
      SumConcat(Lengths(Flatten(init)), Lengths(Singletons(last)));
      SumConcat(Lengths(init), [|last|]);
      assert Sum([|last|]) == |last|;
    }
  }
}
