/** What the multi-turn generator guarantees in every run, over all interleavings and replies. */
module MultiturnTheorems {
  import opened Seqs
  import opened Multiturn
  import opened MultiturnInvariant

  function Min(a: nat, b: nat): nat {
    if a < b then a else b
  }

  // ----- Round setup -----

  function SumCapped(totals: seq<nat>, m: nat): nat {
    if totals == [] then 0 else SumCapped(totals[..|totals| - 1], m) + Min(totals[|totals| - 1], m)
  }

  lemma {:induction false} SumCappedStep(totals: seq<nat>, m: nat)
    ensures SumCapped(totals, m + 1) == SumCapped(totals, m) + ClientsInRound(totals, m)
  {
    if totals != [] {
      SumCappedStep(totals[..|totals| - 1], m);
    }
  }

  lemma {:induction false} SumCappedEnds(totals: seq<nat>, m: nat)
    ensures SumCapped(totals, 0) == 0
    ensures (forall i :: 0 <= i < |totals| ==> totals[i] <= m) ==> SumCapped(totals, m) == Sum(totals)
  {
    if totals != [] {
      SumCappedEnds(totals[..|totals| - 1], m);
    }
  }

  lemma {:induction false} ClientsPerRoundCapped(totals: seq<nat>, m: nat)
    ensures Sum(ClientsPerRound(totals, m)) == SumCapped(totals, m)
  {
    if m == 0 {
      SumCappedEnds(totals, 0);
    } else {
      assert ClientsPerRound(totals, m)[..m - 1] == ClientsPerRound(totals, m - 1);
      ClientsPerRoundCapped(totals, m - 1);
      SumCappedStep(totals, m - 1);
    }
  }

  /** Counting participants round by round and rounds client by client gives the same total. */
  lemma {:induction false} ClientsPerRoundTotal(cfg: Config)
    requires ValidConfig(cfg)
    ensures Sum(ClientsPerRound(cfg.totals, cfg.maxRounds)) == TotalRequests(cfg)
  {
    ClientsPerRoundCapped(cfg.totals, cfg.maxRounds);
    SumCappedEnds(cfg.totals, cfg.maxRounds);
  }

  /** One sub-question for every round but each client's first. */
  lemma {:induction false} SubQuestionsTotal(totals: seq<nat>)
    requires forall i :: 0 <= i < |totals| ==> totals[i] >= 1
    ensures SubQuestionsNeeded(totals) + |totals| == Sum(totals)
  {
    if totals != [] {
      SubQuestionsTotal(totals[..|totals| - 1]);
    }
  }

  // ----- Safety, failures included -----

  /** A client's request is never in two places, a finished or failed client has none, and the
      two counters differ by exactly the requests under way, at most `maxParallel` of them. */
  lemma {:induction false} Conservation(cfg: Config, s: State)
    requires Reachable(cfg, s)
    ensures forall c: nat :: Active(s, c) + Deferred(s, c) <= 1
    ensures |s.records| == |cfg.totals|
    ensures forall c: nat :: c < |s.records| && (c in s.failed || s.records[c].round == cfg.totals[c]) ==>
              Active(s, c) + Deferred(s, c) == 0
    ensures s.sent - s.completed == |s.inflight| + |s.responses| + One(s.handler.Got?)
    ensures 0 <= cfg.maxParallel ==> s.sent - s.completed <= cfg.maxParallel
  {
    InvReachable(cfg, s);
  }

  /** The sender has popped the request and not launched it yet. */
  predicate Holds(s: State, r: Request) {
    s.sender.Holding? && s.sender.request == r
  }

  /** A request that waits or travels carries exactly its client's conversation so far, although
      later requests share the history list that the response thread extends. */
  lemma {:induction false} PayloadsAreHistories(cfg: Config, s: State)
    requires Reachable(cfg, s)
    ensures forall r :: r in s.ready || r in s.inflight || r in s.deferred || Holds(s, r) ==>
              r.client < |s.records| && r.payload == s.records[r.client].history
  {
    InvReachable(cfg, s);
    forall r | r in s.ready || r in s.inflight || r in s.deferred || Holds(s, r)
      ensures r.client < |s.records| && r.payload == s.records[r.client].history
    {
      assert CurrentPayload(s.records, r);
    }
  }

  /** Barrier safety.  While some round-`r` request is out, every client has already succeeded in all
      of its rounds below `r`; outside the release loop that `r` is the current barrier round. */
  lemma {:induction false} BarrierSafety(cfg: Config, s: State, c: nat)
    requires Reachable(cfg, s) && cfg.barrier && Active(s, c) > 0
    ensures c < |s.records| == |cfg.totals|
    ensures forall d: nat :: d < |s.records| ==> s.records[d].round >= Min(s.records[c].round, cfg.totals[d])
    ensures !s.handler.Releasing? ==> s.records[c].round == s.barrierRound
    ensures s.handler.Releasing? ==>
              s.records[c].round == s.barrierRound + 1
              && s.barrierCount == ClientsInRound(cfg.totals, s.barrierRound)
  {
    InvReachable(cfg, s);
    assert Active(s, c) + Deferred(s, c) == Owes(s.records, s.failed, InHand(s.handler), c);
  }

  /** The sub-question pool is never popped when empty. */
  lemma {:induction false} PoolNeverExhausted(cfg: Config, s: State)
    requires Reachable(cfg, s) && s.handler.Recorded?
    ensures s.handler.client < |s.records|
    ensures MoreRounds(s, s.handler.client) ==> s.pool != []
    ensures Enabled(cfg, s, Issue)
  {
    InvReachable(cfg, s);
  }

  // ----- Every run does a bounded amount of work -----

  /** Polling: the sender looks at the counters or at an empty ready queue and nothing changes hands. */
  predicate Polls(a: Action) {
    a.Admit? || a.PopEmpty?
  }

  function HandlerWork(h: Handler): nat {
    match h
    case Idle => 0
    case Got(_) => 1
    case Recorded(_) => 10
    case Issued => 3
    case Releasing => 2
  }

  function Work(cfg: Config, s: State): int {
    12 * (TotalRequests(cfg) - RoundsDone(s.records)) + 6 * |s.deferred| + 5 * |s.ready|
    + 4 * One(s.sender.Holding?) + 3 * |s.inflight| + 2 * |s.responses| + HandlerWork(s.handler)
  }

  lemma {:induction false} RoundsAtMostTotals(records: seq<Record>, totals: seq<nat>)
    requires |records| == |totals|
    requires forall c :: 0 <= c < |records| ==> records[c].round <= totals[c]
    ensures RoundsDone(records) <= Sum(totals)
    ensures RoundsDone(records) == Sum(totals) <==> forall c :: 0 <= c < |records| ==> records[c].round == totals[c]
  {
    if records != [] {
      RoundsAtMostTotals(records[..|records| - 1], totals[..|totals| - 1]);
    }
  }

  lemma {:induction false} WorkNonNegative(cfg: Config, s: State)
    requires Inv(cfg, s)
    ensures Work(cfg, s) >= 0
  {
    RoundsAtMostTotals(s.records, cfg.totals);
  }

  lemma {:induction false} WorkStep(cfg: Config, s: State, a: Action)
    requires Enabled(cfg, s, a)
    ensures Polls(a) ==> Work(cfg, Apply(cfg, s, a)) == Work(cfg, s)
    ensures !Polls(a) ==> Work(cfg, Apply(cfg, s, a)) < Work(cfg, s)
  {
    if a.CountSuccess? {
      var c := s.handler.response.client;
      TotalsUpdate(s.records, c, DoCountSuccess(s).records[c]);
    } else if a.Issue? && MoreRounds(s, s.handler.client) {
      var c := s.handler.client;
      TotalsUpdate(s.records, c, DoIssue(cfg, s).records[c]);
    }
  }

  function Steps(actions: seq<Action>): nat {
    if actions == [] then 0
    else Steps(actions[..|actions| - 1]) + One(!Polls(actions[|actions| - 1]))
  }

  lemma {:induction false} WorkRun(cfg: Config, start: State, actions: seq<Action>, s: State)
    requires After(cfg, start, actions) == Some(s)
    ensures Steps(actions) + Work(cfg, s) <= Work(cfg, start)
  {
    if actions != [] {
      var before := After(cfg, start, actions[..|actions| - 1]).value;
      WorkRun(cfg, start, actions[..|actions| - 1], before);
      WorkStep(cfg, before, actions[|actions| - 1]);
    }
  }

  /** No run, failing or not, takes more than this many steps besides polling. */
  lemma {:induction false} RunsAreBounded(cfg: Config, start: State, actions: seq<Action>, s: State)
    requires Setup(cfg, start) && After(cfg, start, actions) == Some(s)
    ensures Steps(actions) <= 12 * TotalRequests(cfg) + 5 * |cfg.totals|
  {
    InvInit(cfg, start);
    InvRun(cfg, start, actions, s);
    WorkNonNegative(cfg, s);
    WorkRun(cfg, start, actions, s);
    TotalsInit(start.records, cfg.totals);
  }

  // ----- No lost work -----

  /** Nothing is ready, held, in flight, awaiting handling or being handled. */
  ghost predicate Quiescent(s: State) {
    s.ready == [] && !s.sender.Holding? && s.inflight == [] && s.responses == [] && s.handler.Idle?
  }

  ghost predicate AllFinished(cfg: Config, s: State) {
    |s.records| == |cfg.totals| && forall c :: 0 <= c < |s.records| ==> s.records[c].round == cfg.totals[c]
  }

  /** Without failures, quiescence means completion: nothing is left behind the barrier, every client
      has done exactly its rounds and the counters equal the announced total.  A single failure
      always prevents completion, so the two sides are equivalent. */
  lemma {:induction false} NoLostWork(cfg: Config, s: State)
    requires Reachable(cfg, s) && Quiescent(s)
    ensures |s.records| == |cfg.totals|
    ensures AllFinished(cfg, s) <==> s.failed == {}
    ensures s.failed == {} ==> s.deferred == [] && s.sent == s.completed == TotalRequests(cfg)
    ensures !cfg.barrier ==>
              forall c: nat :: c < |s.records| && c !in s.failed ==> s.records[c].round == cfg.totals[c]
  {
    InvReachable(cfg, s);
    if s.failed == {} {
      QuiescentFinished(cfg, s);
      FinishedCounters(cfg, s);
    } else {
      var c :| c in s.failed;
      assert s.records[c].round < s.records[c].total;
    }
    if !cfg.barrier {
      SurvivorsFinished(cfg, s);
    }
  }

  lemma {:induction false} SurvivorsFinished(cfg: Config, s: State)
    requires Shape(cfg, s.records, s.failed, None) && s.deferred == []
    requires forall c: nat :: Deferred(s, c) == Owes(s.records, s.failed, None, c)
    ensures forall c: nat :: c < |s.records| && c !in s.failed ==> s.records[c].round == cfg.totals[c]
  {
    forall c: nat | c < |s.records| && c !in s.failed ensures s.records[c].round == cfg.totals[c] {
      assert Deferred(s, c) == Owes(s.records, s.failed, None, c);
    }
  }

  lemma {:induction false} FinishedCounters(cfg: Config, s: State)
    requires Counters(cfg, s) && Quiescent(s) && s.failed == {} && AllFinished(cfg, s)
    ensures s.sent == s.completed == TotalRequests(cfg)
  {
    RoundsAtMostTotals(s.records, cfg.totals);
  }

  lemma {:induction false} QuiescentFinished(cfg: Config, s: State)
    requires Inv(cfg, s) && Quiescent(s) && s.failed == {}
    requires forall c: nat :: Active(s, c) == 0 && Deferred(s, c) == Owes(s.records, s.failed, None, c)
    ensures s.deferred == [] && AllFinished(cfg, s)
  {
    if cfg.barrier && s.deferred != [] {
      var d := s.deferred[0].client;
      CountMember(s.deferred, 0);
      // Everyone in the round is waiting behind the barrier, so the barrier must have opened.
      forall c: nat | c < |s.records| && s.records[c].total > s.barrierRound
        ensures s.records[c].round == s.barrierRound + 1
      {
        assert Deferred(s, c) == Owes(s.records, s.failed, None, c);
      }
      AllDoneCount(s.records, cfg.totals, s.barrierRound);
      ParticipantCounts(cfg.totals, s.barrierRound, d);
      assert false;
    }
    forall c: nat | c < |s.records| ensures s.records[c].round == cfg.totals[c] {
      assert Deferred(s, c) == Owes(s.records, s.failed, None, c);
    }
  }

  lemma {:induction false} AllDoneCount(records: seq<Record>, totals: seq<nat>, r: nat)
    requires |records| == |totals|
    requires forall c :: 0 <= c < |records| && totals[c] > r ==> records[c].round == r + 1
    ensures ClientsInRound(totals, r) <= DoneCount(records, r)
  {
    if records != [] {
      AllDoneCount(records[..|records| - 1], totals[..|totals| - 1], r);
    }
  }

  lemma {:induction false} ParticipantCounts(totals: seq<nat>, r: nat, c: nat)
    requires c < |totals| && totals[c] > r
    ensures ClientsInRound(totals, r) > 0
  {
    if c < |totals| - 1 {
      ParticipantCounts(totals[..|totals| - 1], r, c);
    }
  }

  /** No deadlock: unless the run is quiescent, some thread can do real work, or the sender can admit
      the next ready request. */
  lemma {:induction false} Progress(cfg: Config, s: State)
    requires Reachable(cfg, s) && cfg.maxParallel >= 1 && !cfg.policy.Unknown? && !Quiescent(s)
    ensures exists a ::
              Enabled(cfg, s, a) && (!Polls(a) || (a.Admit? && s.ready != []))
  {
    InvReachable(cfg, s);
    NextActionEnabled(cfg, s);
  }

  function NextAction(s: State): Action {
    match s.handler
    case Got(r) => if r.reply.Success? then CountSuccess else CountFailure
    case Recorded(_) => Issue
    case Issued => Tally
    case Releasing => if s.deferred == [] then ReleaseDone else ReleaseOne
    case Idle =>
      if s.responses != [] then Get
      else if s.inflight != [] then Answer(0, Success([]))
      else if s.sender.Holding? then Launch
      else if s.sender.Admitted? then PopReady(0)
      else Admit
  }

  // ----- Completion -----

  /** No failure was counted and none is on its way. */
  ghost predicate FailureFree(s: State) {
    && s.failed == {}
    && (forall i :: 0 <= i < |s.responses| ==> s.responses[i].reply.Success?)
    && (s.handler.Got? ==> s.handler.response.reply.Success?)
  }

  /** No request is answered with a failure. */
  ghost predicate OnlySuccesses(actions: seq<Action>) {
    forall i :: 0 <= i < |actions| ==> actions[i].Answer? ==> actions[i].reply.Success?
  }

  lemma {:induction false} AfterLast(cfg: Config, s: State, init: seq<Action>, last: Action)
    ensures After(cfg, s, init + [last]) ==
            match After(cfg, s, init)
            case None => None
            case Some(t) => if Enabled(cfg, t, last) then Some(Apply(cfg, t, last)) else None
  {
    assert (init + [last])[..|init|] == init;
  }

  lemma {:induction false} AfterCons(cfg: Config, s: State, a: Action, rest: seq<Action>)
    requires Enabled(cfg, s, a)
    ensures After(cfg, s, [a] + rest) == After(cfg, Apply(cfg, s, a), rest)
  {
    if rest == [] {
      assert [a] + rest == [a] && [a][..0] == [];
    } else {
      var init, last := rest[..|rest| - 1], rest[|rest| - 1];
      AfterCons(cfg, s, a, init);
      SplitLast(rest);
      AfterLast(cfg, s, [a] + init, last);
      AfterLast(cfg, Apply(cfg, s, a), init, last);
      ConcatAssoc([a], init, [last]);
    }
  }

  lemma {:induction false} ReachableStep(cfg: Config, s: State, a: Action)
    requires Reachable(cfg, s) && Enabled(cfg, s, a)
    ensures Reachable(cfg, Apply(cfg, s, a))
  {
    var start, actions :| Setup(cfg, start) && After(cfg, start, actions) == Some(s);
    AfterSnoc(cfg, start, actions, a);
  }

  lemma {:induction false} NextActionEnabled(cfg: Config, s: State)
    requires Inv(cfg, s) && cfg.maxParallel >= 1 && !cfg.policy.Unknown? && !Quiescent(s)
    ensures var a := NextAction(s); Enabled(cfg, s, a) && (!Polls(a) || (a.Admit? && s.ready != []))
  {
    if s.handler.Got? {
      GotClient(s);
    }
  }

  lemma {:induction false} NextActionStaysFree(cfg: Config, s: State)
    requires FailureFree(s) && Enabled(cfg, s, NextAction(s))
    ensures FailureFree(Apply(cfg, s, NextAction(s))) && OnlySuccesses([NextAction(s)])
  {
  }

  /** Completion: from every reachable state without failures the run can go on, without failures, until every
      client has done exactly its rounds. */
  lemma {:induction false} CanAlwaysFinish(cfg: Config, s: State) returns (actions: seq<Action>, t: State)
    requires Reachable(cfg, s) && FailureFree(s) && cfg.maxParallel >= 1 && !cfg.policy.Unknown?
    ensures After(cfg, s, actions) == Some(t) && OnlySuccesses(actions)
    ensures AllFinished(cfg, t) && t.failed == {} && t.completed == TotalRequests(cfg)
    decreases Work(cfg, s), One(s.sender.Waiting?)
  {
    InvReachable(cfg, s);
    WorkNonNegative(cfg, s);
    if Quiescent(s) {
      NoLostWork(cfg, s);
      actions, t := [], s;
    } else {
      var a := NextAction(s);
      NextActionEnabled(cfg, s);
      NextActionStaysFree(cfg, s);
      ReachableStep(cfg, s, a);
      WorkStep(cfg, s, a);
      var rest;
      rest, t := CanAlwaysFinish(cfg, Apply(cfg, s, a));
      AfterCons(cfg, s, a, rest);
      actions := [a] + rest;
    }
  }

  /** With no parallelism allowed nothing is ever sent, so a run with clients never completes. */
  lemma {:induction false} NoParallelismNoWork(cfg: Config, s: State)
    requires Reachable(cfg, s) && cfg.maxParallel < 1
    ensures s.sent == 0 && s.completed == 0
    ensures cfg.totals != [] ==> !AllFinished(cfg, s)
  {
    var start, actions :| Setup(cfg, start) && After(cfg, start, actions) == Some(s);
    NothingSent(cfg, start, actions, s);
    InvReachable(cfg, s);
    RoundsAtMostTotals(s.records, cfg.totals);
    if cfg.totals != [] {
      SumAtLeast(cfg.totals, 0);
    }
  }

  lemma {:induction false} NothingSent(cfg: Config, start: State, actions: seq<Action>, s: State)
    requires cfg.maxParallel < 1 && Setup(cfg, start) && After(cfg, start, actions) == Some(s)
    ensures s.sent == 0 && s.completed == 0
  {
    InvInit(cfg, start);
    InvRun(cfg, start, actions, s);
    if actions != [] {
      var before := After(cfg, start, actions[..|actions| - 1]).value;
      InvRun(cfg, start, actions[..|actions| - 1], before);
      NothingSent(cfg, start, actions[..|actions| - 1], before);
    }
  }

  // ----- What a failure costs -----

  lemma {:induction false} FailedStep(cfg: Config, s: State, a: Action, c: nat)
    requires Inv(cfg, s) && Enabled(cfg, s, a) && c in s.failed
    ensures var s' := Apply(cfg, s, a);
            c in s'.failed && c < |s'.records| == |s.records| && s'.records[c] == s.records[c]
  {
    if s.handler.Got? {
      GotClient(s);
    }
  }

  lemma {:induction false} FailedRun(cfg: Config, s: State, actions: seq<Action>, s': State, c: nat)
    requires Inv(cfg, s) && After(cfg, s, actions) == Some(s') && c in s.failed
    ensures c in s'.failed && c < |s'.records| == |s.records| && s'.records[c] == s.records[c]
  {
    if actions != [] {
      var before := After(cfg, s, actions[..|actions| - 1]).value;
      FailedRun(cfg, s, actions[..|actions| - 1], before, c);
      InvRun(cfg, s, actions[..|actions| - 1], before);
      FailedStep(cfg, before, actions[|actions| - 1], c);
    }
  }

  /** One failed response stalls the barrier for good: however the run continues, the failed client's
      record is frozen, the barrier stays at the failed round and no client gets past the next one. */
  lemma {:induction false} FailureStallsBarrier(cfg: Config, s: State, actions: seq<Action>, s': State, c: nat)
    requires Reachable(cfg, s) && cfg.barrier && c in s.failed
    requires After(cfg, s, actions) == Some(s')
    ensures c < |s.records| == |s'.records| && s'.records[c] == s.records[c]
    ensures s'.barrierRound == s.barrierRound == s.records[c].round
    ensures forall d: nat :: d < |s'.records| ==> s'.records[d].round <= s.barrierRound + 1
  {
    InvReachable(cfg, s);
    InvRun(cfg, s, actions, s');
    FailedRun(cfg, s, actions, s', c);
  }
}
