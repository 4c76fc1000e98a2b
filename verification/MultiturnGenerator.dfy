/** The generator's objects, updated in place.  Each method is one uninterrupted pass through a loop
    body of the program and is proved to be a run of the state machine's actions. */
module MultiturnGenerator {
  import opened Seqs
  import opened Multiturn
  import opened MultiturnInvariant

  class ReadyQueue {
    var requests: seq<Request>
    const policy: Policy

    constructor (init: seq<Request>, policy: Policy)
      ensures requests == init && this.policy == policy
    {
      this.requests := init;
      this.policy := policy;
    }

    method Append(item: Request)
      modifies this
      ensures requests == old(requests) + [item]
    {
      requests := requests + [item];
    }

    /** `index` is the draw of `random.randrange`; only the random policy looks at it. */
    method Pop(index: nat) returns (r: Result<Option<Request>>)
      requires index < |requests| || requests == []
      modifies this
      ensures old(requests) == [] ==> r == Ok(None) && requests == []
      ensures old(requests) != [] && policy.Unknown? ==> r.Err? && requests == old(requests)
      ensures old(requests) != [] && !policy.Unknown? ==>
                var i := if policy.Fifo? then 0 else index;
                r == Ok(Some(old(requests)[i])) && requests == RemoveAt(old(requests), i)
    {
      if requests == [] {
        return Ok(None);
      }
      if policy.Random? {
        r := Ok(Some(requests[index]));
        requests := requests[..index] + requests[index + 1..];
      } else if policy.Fifo? {
        r := Ok(Some(requests[0]));
        requests := requests[1..];
      } else {
        r := Err("policy not implemented");
      }
    }
  }

  /** The first response can be handled: its client exists and, if it goes on, so does a sub-question. */
  predicate Handleable(s: State) {
    && s.handler.Idle? && s.responses != []
    && var c := s.responses[0].client;
       c < |s.records| && (s.records[c].round + 1 < s.records[c].total ==> s.pool != [])
  }

  /** The state once a successful first response is counted in the barrier round. */
  function Tallied(cfg: Config, s: State): State
    requires Handleable(s) && s.responses[0].reply.Success?
  {
    DoTally(cfg, DoIssue(cfg, DoCountSuccess(DoGet(s))))
  }

  function Released(t: State): State {
    DoReleaseDone(t.(ready := t.ready + t.deferred, deferred := []))
  }

  /** What one uninterrupted pass of the response thread does. */
  function Handled(cfg: Config, s: State): State
    requires Handleable(s)
  {
    if s.responses[0].reply.Failure? then DoCountFailure(DoGet(s))
    else
      var t := Tallied(cfg, s);
      if t.handler.Releasing? then Released(t) else t
  }

  /** The same pass as the actions it consists of. */
  function HandlerPass(cfg: Config, s: State): seq<Action>
    requires Handleable(s)
  {
    if s.responses[0].reply.Failure? then [Get, CountFailure]
    else
      var t := Tallied(cfg, s);
      [Get, CountSuccess, Issue, Tally]
      + (if t.handler.Releasing? then Replicate(ReleaseOne, |t.deferred|) + [ReleaseDone] else [])
  }

  lemma {:induction false} ReachableHandleable(cfg: Config, s: State)
    requires Reachable(cfg, s) && s.handler.Idle? && s.responses != []
    ensures Handleable(s)
  {
    InvReachable(cfg, s);
    InvGet(cfg, s);
    GotClient(DoGet(s));
    NeedAtLeast(s.records, s.responses[0].client);
  }

  lemma {:induction false} NeedAtLeast(records: seq<Record>, c: nat)
    requires c < |records|
    ensures Need(records[c]) <= Needs(records)
  {
    if c < |records| - 1 {
      NeedAtLeast(records[..|records| - 1], c);
    }
  }

  /** A pass of the sender that finds a request: it takes request `i` and launches it. */
  lemma {:induction false} SenderSteps(cfg: Config, s: State, i: nat)
    requires Enabled(cfg, s, Admit) && Enabled(cfg, DoAdmit(s), PopReady(i))
    ensures After(cfg, s, [Admit, PopReady(i), Launch])
         == Some(s.(ready := RemoveAt(s.ready, i), inflight := s.inflight + [s.ready[i]], sent := s.sent + 1))
  {
    var pop := PopReady(i);
    AfterSnoc(cfg, s, [], Admit);
    assert [] + [Admit] == [Admit];
    AfterSnoc(cfg, s, [Admit], pop);
    assert [Admit] + [pop] == [Admit, pop];
    AfterSnoc(cfg, s, [Admit, pop], Launch);
    assert [Admit, pop] + [Launch] == [Admit, pop, Launch];
  }

  lemma {:induction false} SenderPolls(cfg: Config, s: State)
    requires Enabled(cfg, s, Admit) && s.ready == []
    ensures After(cfg, s, [Admit, PopEmpty]) == Some(s)
  {
    AfterSnoc(cfg, s, [], Admit);
    assert [] + [Admit] == [Admit];
    AfterSnoc(cfg, s, [Admit], PopEmpty);
    assert [Admit] + [PopEmpty] == [Admit, PopEmpty];
  }

  lemma {:induction false} SuccessSteps(cfg: Config, s: State)
    requires Handleable(s) && s.responses[0].reply.Success?
    ensures After(cfg, s, [Get, CountSuccess, Issue, Tally]) == Some(Tallied(cfg, s))
  {
    var s2 := DoCountSuccess(DoGet(s));
    AfterSnoc(cfg, s, [], Get);
    assert [] + [Get] == [Get];
    AfterSnoc(cfg, s, [Get], CountSuccess);
    assert [Get] + [CountSuccess] == [Get, CountSuccess];
    AfterSnoc(cfg, s, [Get, CountSuccess], Issue);
    assert [Get, CountSuccess] + [Issue] == [Get, CountSuccess, Issue];
    AfterSnoc(cfg, s, [Get, CountSuccess, Issue], Tally);
    assert [Get, CountSuccess, Issue] + [Tally] == [Get, CountSuccess, Issue, Tally];
  }

  lemma {:induction false} ReleaseSteps(cfg: Config, s: State, actions: seq<Action>, t: State, k: nat)
    requires After(cfg, s, actions) == Some(t) && t.handler.Releasing? && k <= |t.deferred|
    ensures After(cfg, s, actions + Replicate(ReleaseOne, k))
         == Some(t.(ready := t.ready + t.deferred[..k], deferred := t.deferred[k..]))
  {
    if k == 0 {
      assert actions + Replicate(ReleaseOne, 0) == actions;
      assert t.ready + t.deferred[..0] == t.ready;
    } else {
      ReleaseSteps(cfg, s, actions, t, k - 1);
      var before := actions + Replicate(ReleaseOne, k - 1);
      AfterSnoc(cfg, s, before, ReleaseOne);
      ReplicateSnoc(actions, k - 1);
      MoveOne(t.ready, t.deferred, k);
    }
  }

  lemma {:induction false} ReplicateSnoc(actions: seq<Action>, k: nat)
    ensures actions + Replicate(ReleaseOne, k) + [ReleaseOne] == actions + Replicate(ReleaseOne, k + 1)
  {
  }

  lemma {:induction false} MoveOne(ready: seq<Request>, deferred: seq<Request>, k: nat)
    requires 1 <= k <= |deferred|
    ensures ready + deferred[..k - 1] + [deferred[k - 1..][0]] == ready + deferred[..k]
    ensures deferred[k - 1..][1..] == deferred[k..]
  {
  }

  /** A pass of the response thread is a run of the state machine, so it keeps what every run keeps. */
  lemma {:induction false} HandledIsRun(cfg: Config, s: State)
    requires Handleable(s)
    ensures After(cfg, s, HandlerPass(cfg, s)) == Some(Handled(cfg, s))
  {
    if s.responses[0].reply.Failure? {
      AfterSnoc(cfg, s, [], Get);
      assert [] + [Get] == [Get];
      AfterSnoc(cfg, s, [Get], CountFailure);
      assert [Get] + [CountFailure] == [Get, CountFailure];
    } else {
      SuccessSteps(cfg, s);
      var actions := [Get, CountSuccess, Issue, Tally];
      var t := Tallied(cfg, s);
      if t.handler.Releasing? {
        var k := |t.deferred|;
        ReleaseSteps(cfg, s, actions, t, k);
        assert t.deferred[..k] == t.deferred;
        AfterSnoc(cfg, s, actions + Replicate(ReleaseOne, k), ReleaseDone);
        assert actions + Replicate(ReleaseOne, k) + [ReleaseDone] == HandlerPass(cfg, s);
      } else {
        assert HandlerPass(cfg, s) == actions;
      }
    }
  }

  class WorkloadGenerator {
    const cfg: Config
    const readyQueue: ReadyQueue
    var inflight: seq<Request>
    var responseQueue: seq<Response>
    var clientRecords: seq<Record>
    var subQuestionInputs: seq<seq<Token>>
    var sentRequests: nat
    var completedRequests: nat
    var nextRoundReqs: seq<Request>
    var currentBarrierRound: nat
    var barrierRoundCompleted: nat
    ghost var failed: set<nat>

    ghost function View(): State
      reads this, readyQueue
    {
      State(readyQueue.requests, Waiting, inflight, responseQueue, Idle, nextRoundReqs, clientRecords,
            subQuestionInputs, sentRequests, completedRequests, currentBarrierRound, barrierRoundCompleted, failed)
    }

    constructor (cfg: Config, prompts: seq<seq<Token>>, pool: seq<seq<Token>>)
      requires ValidConfig(cfg) && |prompts| == |cfg.totals| && |pool| >= SubQuestionsNeeded(cfg.totals)
      ensures this.cfg == cfg && readyQueue.policy == cfg.policy
      ensures View() == Init(cfg, prompts, pool) && Setup(cfg, View())
    {
      this.cfg := cfg;
      readyQueue := new ReadyQueue(
        seq(|prompts|, i requires 0 <= i < |prompts| => Request(i, prompts[i])), cfg.policy);
      clientRecords := seq(|prompts|, i requires 0 <= i < |prompts| => Record(0, prompts[i], cfg.totals[i]));
      inflight, responseQueue, subQuestionInputs := [], [], pool;
      sentRequests, completedRequests := 0, 0;
      nextRoundReqs, currentBarrierRound, barrierRoundCompleted := [], 0, 0;
      failed := {};
    }

    /** One pass through `request_loop`. */
    method SenderPass(index: nat) returns (r: Result<bool>)
      requires readyQueue.policy == cfg.policy
      requires index < |readyQueue.requests| || readyQueue.requests == []
      modifies this, readyQueue
      ensures sentRequests - completedRequests <= cfg.maxParallel || View() == old(View())
      ensures r == Ok(true) ==>
                var i := if cfg.policy.Fifo? then 0 else index;
                After(cfg, old(View()), [Admit, PopReady(i), Launch]) == Some(View())
      ensures r == Ok(false) ==>
                View() == old(View())
                && (!Enabled(cfg, View(), Admit) || After(cfg, View(), [Admit, PopEmpty]) == Some(View()))
      ensures r.Err? <==> Enabled(cfg, old(View()), Admit) && old(readyQueue.requests) != [] && cfg.policy.Unknown?
      ensures r.Err? ==> View() == old(View())
    {
      ghost var s := View();
      if sentRequests - completedRequests < cfg.maxParallel {
        var popped := readyQueue.Pop(index);
        match popped
        case Err(reason) =>
          return Err(reason);
        case Ok(None) =>
          SenderPolls(cfg, s);
          return Ok(false);
        case Ok(Some(request)) =>
          SenderSteps(cfg, s, if cfg.policy.Fifo? then 0 else index);
          inflight := inflight + [request];
          sentRequests := sentRequests + 1;
          return Ok(true);
      }
      return Ok(false);
    }

    /** The end of `handle_request`: the reply, or the failure, goes to the response queue. */
    method HandleRequest(index: nat, reply: Reply)
      requires index < |inflight|
      modifies this
      ensures After(cfg, old(View()), [Answer(index, reply)]) == Some(View())
    {
      AfterSnoc(cfg, View(), [], Answer(index, reply));
      assert [] + [Answer(index, reply)] == [Answer(index, reply)];
      responseQueue := responseQueue + [Response(inflight[index].client, reply)];
      inflight := inflight[..index] + inflight[index + 1..];
    }

    /** Builds the client's next request, if it has rounds left, for the queue or for the next round. */
    method IssueNext(c: nat)
      requires c < |clientRecords|
      requires clientRecords[c].round < clientRecords[c].total ==> subQuestionInputs != []
      modifies this, readyQueue
      ensures View().(handler := Issued) == DoIssue(cfg, old(View()).(handler := Recorded(c)))
    {
      if clientRecords[c].round < clientRecords[c].total {
        var subQuestion := subQuestionInputs[|subQuestionInputs| - 1];
        subQuestionInputs := subQuestionInputs[..|subQuestionInputs| - 1];
        clientRecords := clientRecords[c := clientRecords[c].(history := clientRecords[c].history + subQuestion)];
        var request := Request(c, clientRecords[c].history);
        if cfg.barrier {
          nextRoundReqs := nextRoundReqs + [request];
        } else {
          readyQueue.Append(request);
        }
      }
    }

    /** The release loop of the barrier. */
    method Release()
      modifies readyQueue
      ensures readyQueue.requests == old(readyQueue.requests) + nextRoundReqs
    {
      for i := 0 to |nextRoundReqs|
        invariant readyQueue.requests == old(readyQueue.requests) + nextRoundReqs[..i]
      {
        readyQueue.Append(nextRoundReqs[i]);
      }
    }

    /** The barrier logic at the end of a pass. */
    method TallyRound()
      modifies this, readyQueue
      ensures var t := DoTally(cfg, old(View()).(handler := Issued));
              View() == if t.handler.Releasing? then Released(t) else t
    {
      if cfg.barrier && currentBarrierRound < cfg.maxRounds {
        barrierRoundCompleted := barrierRoundCompleted + 1;
        if barrierRoundCompleted == ClientsInRound(cfg.totals, currentBarrierRound) {
          Release();
          nextRoundReqs := [];
          currentBarrierRound := currentBarrierRound + 1;
          barrierRoundCompleted := 0;
        }
      }
    }

    /** One pass through `response_handler`: handles the first response, if there is one. */
    method HandleResponse() returns (got: bool)
      requires responseQueue != [] ==> Handleable(View())
      modifies this, readyQueue
      ensures got == (old(responseQueue) != [])
      ensures View() == if got then Handled(cfg, old(View())) else old(View())
    {
      if responseQueue == [] {
        return false;
      }
      got := true;
      var response := responseQueue[0];
      var c := response.client;
      responseQueue := responseQueue[1..];
      if response.reply.Failure? {
        completedRequests := completedRequests + 1;
        failed := failed + {c};
        return;
      }
      var rec := clientRecords[c];
      clientRecords := clientRecords[c := rec.(round := rec.round + 1, history := rec.history + response.reply.output)];
      completedRequests := completedRequests + 1;
      assert View().(handler := Recorded(c)) == DoCountSuccess(DoGet(old(View())));
      IssueNext(c);
      TallyRound();
    }
  }
}
