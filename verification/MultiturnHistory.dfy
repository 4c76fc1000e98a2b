/** What the requests of the multi-turn generator say and in which order they go out, read off a run's actions:
    who was answered what, and which sub-question was drawn next. */
module MultiturnHistory {
  import opened Seqs
  import opened Multiturn
  import opened MultiturnInvariant

  // ----- The run as seen from outside -----

  /** The reply that a step puts into the response queue: to the request that the action names, as the action says. */
  function NewAnswer(s: State, a: Action): seq<Response> {
    if a.Answer? && a.index < |s.inflight| then [Response(s.inflight[a.index].client, a.reply)] else []
  }

  /** The replies put into the response queue, in order. */
  function Answers(cfg: Config, start: State, actions: seq<Action>): seq<Response> {
    if actions == [] then []
    else
      var init, a := actions[..|actions| - 1], actions[|actions| - 1];
      match After(cfg, start, init)
      case None => Answers(cfg, start, init)
      case Some(s) =>
        Answers(cfg, start, init) + NewAnswer(s, a)
  }

  function Counted(actions: seq<Action>): nat {
    if actions == [] then 0
    else
      var a := actions[|actions| - 1];
      Counted(actions[..|actions| - 1]) + One(a.CountSuccess? || a.CountFailure?)
  }

  /** The replies that the response thread has counted: those first put into the queue. */
  function Heard(cfg: Config, start: State, actions: seq<Action>): seq<Response> {
    var answers := Answers(cfg, start, actions);
    if Counted(actions) <= |answers| then answers[..Counted(actions)] else answers
  }

  function Successes(actions: seq<Action>): nat {
    if actions == [] then 0
    else Successes(actions[..|actions| - 1]) + One(actions[|actions| - 1].CountSuccess?)
  }

  function Issues(actions: seq<Action>): nat {
    if actions == [] then 0 else Issues(actions[..|actions| - 1]) + One(actions[|actions| - 1].Issue?)
  }

  /** A success has been counted and its client's next request has not been built yet. */
  predicate Pending(actions: seq<Action>) {
    Issues(actions) < Successes(actions)
  }

  // ----- What a client has been told -----

  /** Successful replies to client `c`. */
  function Rounds(heard: seq<Response>, c: nat): nat {
    if heard == [] then 0
    else
      var last := heard[|heard| - 1];
      Rounds(heard[..|heard| - 1], c) + One(last.client == c && last.reply.Success?)
  }

  /** The last reply leads to a further request. */
  predicate GoesOn(totals: seq<nat>, heard: seq<Response>) {
    && heard != []
    && var last := heard[|heard| - 1];
       last.reply.Success? && last.client < |totals| && Rounds(heard, last.client) < totals[last.client]
  }

  /** Replies that lead to a further request: each draws one sub-question. */
  function Drawn(totals: seq<nat>, heard: seq<Response>): nat {
    if heard == [] then 0 else Drawn(totals, heard[..|heard| - 1]) + One(GoesOn(totals, heard))
  }

  /** The `k`th sub-question drawn: the pool is used from its end. */
  function Question(pool: seq<seq<Token>>, k: nat): seq<Token> {
    if k < |pool| then pool[|pool| - 1 - k] else []
  }

  /** The conversation of client `c`: its first prompt, then every successful reply, each followed, while rounds
      remain, by the sub-question drawn for it. */
  function Told(totals: seq<nat>, prompt: seq<Token>, pool: seq<seq<Token>>, heard: seq<Response>, c: nat): seq<Token> {
    if heard == [] then prompt
    else
      var init, last := heard[..|heard| - 1], heard[|heard| - 1];
      if last.client != c || last.reply.Failure? then Told(totals, prompt, pool, init, c)
      else
        Told(totals, prompt, pool, init, c) + last.reply.output
        + (if GoesOn(totals, heard) then Question(pool, Drawn(totals, init)) else [])
  }

  /** The same while the last success still awaits its sub-question. */
  function ToldSoFar(totals: seq<nat>, prompt: seq<Token>, pool: seq<seq<Token>>, heard: seq<Response>,
                     pending: bool, c: nat): seq<Token>
  {
    if pending && heard != [] && heard[|heard| - 1].client == c && heard[|heard| - 1].reply.Success? then
      Told(totals, prompt, pool, heard[..|heard| - 1], c) + heard[|heard| - 1].reply.output
    else Told(totals, prompt, pool, heard, c)
  }

  // ----- What every run keeps -----

  function Unhandled(s: State): seq<Response> {
    (if s.handler.Got? then [s.handler.response] else []) + s.responses
  }

  /** Sub-questions drawn, with one still to be drawn for a pending success. */
  function DrawnSoFar(totals: seq<nat>, heard: seq<Response>, pending: bool): nat {
    if pending && heard != [] then Drawn(totals, heard[..|heard| - 1]) else Drawn(totals, heard)
  }

  /** Replies are handled in the order in which they were put into the queue. */
  ghost predicate InOrder(cfg: Config, start: State, actions: seq<Action>, s: State) {
    && Counted(actions) <= |Answers(cfg, start, actions)|
    && Answers(cfg, start, actions)[Counted(actions)..] == Unhandled(s)
  }

  /** What the step adds to the replies heard. */
  function NowHeard(heard: seq<Response>, s: State, a: Action): seq<Response> {
    if (a.CountSuccess? || a.CountFailure?) && s.handler.Got? then heard + [s.handler.response] else heard
  }

  ghost predicate Talks(cfg: Config, prompts: seq<seq<Token>>, pool: seq<seq<Token>>, heard: seq<Response>,
                        pending: bool, s: State)
  {
    && |s.records| == |prompts| == |cfg.totals|
    && (pending <==> s.handler.Recorded?)
    && (pending ==> heard != [] && heard[|heard| - 1] == Response(s.handler.client, heard[|heard| - 1].reply)
                    && heard[|heard| - 1].reply.Success?)
    && (forall c: nat :: c < |prompts| ==>
          && s.records[c].round == Rounds(heard, c) && s.records[c].total == cfg.totals[c]
          && s.records[c].history == ToldSoFar(cfg.totals, prompts[c], pool, heard, pending, c))
    && DrawnSoFar(cfg.totals, heard, pending) <= |pool|
    && s.pool == pool[..|pool| - DrawnSoFar(cfg.totals, heard, pending)]
  }

  /** A queue seen as all that was ever put into it and how much of that was taken out. */
  lemma {:induction false} PutOne(all: seq<Response>, h: nat, r: Response)
    requires h <= |all|
    ensures (all + [r])[h..] == all[h..] + [r] && (all + [r])[..h] == all[..h]
  {
  }

  lemma {:induction false} TakeOne(all: seq<Response>, h: nat, first: Response, rest: seq<Response>)
    requires h <= |all| && all[h..] == [first] + rest
    ensures h < |all| && all[h + 1..] == rest && all[..h + 1] == all[..h] + [first]
  {
    assert all[h] == all[h..][0];
    assert all[h + 1..] == all[h..][1..];
    TakeNext(all, h);
  }

  lemma {:induction false} UnhandledStep(cfg: Config, s: State, a: Action)
    requires Enabled(cfg, s, a)
    ensures var left := Unhandled(Apply(cfg, s, a));
            if a.CountSuccess? || a.CountFailure? then Unhandled(s) == [s.handler.response] + left
            else left == Unhandled(s) + NewAnswer(s, a)
  {
    if a.Get? {
      assert s.responses == [s.responses[0]] + s.responses[1..];
    } else if a.Answer? && s.handler.Got? {
      ConcatAssoc([s.handler.response], s.responses, NewAnswer(s, a));
    }
  }

  lemma {:induction false} InOrderStep(cfg: Config, start: State, actions: seq<Action>, before: State)
    requires actions != [] && After(cfg, start, actions[..|actions| - 1]) == Some(before)
    requires Enabled(cfg, before, actions[|actions| - 1])
    requires InOrder(cfg, start, actions[..|actions| - 1], before)
    ensures InOrder(cfg, start, actions, Apply(cfg, before, actions[|actions| - 1]))
    ensures Heard(cfg, start, actions)
         == NowHeard(Heard(cfg, start, actions[..|actions| - 1]), before, actions[|actions| - 1])
  {
    var init, a := actions[..|actions| - 1], actions[|actions| - 1];
    var answers, h := Answers(cfg, start, init), Counted(init);
    UnhandledStep(cfg, before, a);
    assert answers + [] == answers;
    if a.Answer? {
      PutOne(answers, h, NewAnswer(before, a)[0]);
    } else if a.CountSuccess? || a.CountFailure? {
      TakeOne(answers, h, before.handler.response, Unhandled(Apply(cfg, before, a)));
    }
  }

  lemma {:induction false} RoundsSnoc(heard: seq<Response>, r: Response, c: nat)
    ensures Rounds(heard + [r], c) == Rounds(heard, c) + One(r.client == c && r.reply.Success?)
  {
    assert (heard + [r])[..|heard|] == heard;
  }

  /** A failed reply changes nothing that was said. */
  lemma {:induction false} FailureSaysNothing(totals: seq<nat>, prompt: seq<Token>, pool: seq<seq<Token>>,
                                              heard: seq<Response>, r: Response, c: nat)
    requires r.reply.Failure?
    ensures Rounds(heard + [r], c) == Rounds(heard, c) && Drawn(totals, heard + [r]) == Drawn(totals, heard)
    ensures Told(totals, prompt, pool, heard + [r], c) == Told(totals, prompt, pool, heard, c)
  {
    assert (heard + [r])[..|heard|] == heard;
  }

  lemma {:induction false} TalksFailure(cfg: Config, prompts: seq<seq<Token>>, pool: seq<seq<Token>>,
                                        heard: seq<Response>, s: State)
    requires Talks(cfg, prompts, pool, heard, false, s) && Enabled(cfg, s, CountFailure)
    ensures Talks(cfg, prompts, pool, heard + [s.handler.response], false, DoCountFailure(s))
  {
    var r := s.handler.response;
    FailureSaysNothing(cfg.totals, [], pool, heard, r, 0);
    forall c: nat | c < |prompts|
      ensures Rounds(heard + [r], c) == s.records[c].round
      ensures Told(cfg.totals, prompts[c], pool, heard + [r], c) == s.records[c].history
    {
      FailureSaysNothing(cfg.totals, prompts[c], pool, heard, r, c);
      assert s.records[c].history == ToldSoFar(cfg.totals, prompts[c], pool, heard, false, c);
    }
  }

  lemma {:induction false} TalksSuccess(cfg: Config, prompts: seq<seq<Token>>, pool: seq<seq<Token>>,
                                        heard: seq<Response>, s: State)
    requires Talks(cfg, prompts, pool, heard, false, s) && Enabled(cfg, s, CountSuccess)
    ensures Talks(cfg, prompts, pool, heard + [s.handler.response], true, DoCountSuccess(s))
  {
    var r, s' := s.handler.response, DoCountSuccess(s);
    assert (heard + [r])[..|heard|] == heard;
    forall c: nat | c < |prompts|
      ensures s'.records[c].round == Rounds(heard + [r], c)
      ensures s'.records[c].history == ToldSoFar(cfg.totals, prompts[c], pool, heard + [r], true, c)
    {
      RoundsSnoc(heard, r, c);
    }
  }

  lemma {:induction false} TalksIssue(cfg: Config, prompts: seq<seq<Token>>, pool: seq<seq<Token>>,
                                      heard: seq<Response>, s: State)
    requires Talks(cfg, prompts, pool, heard, true, s) && Enabled(cfg, s, Issue)
    ensures Talks(cfg, prompts, pool, heard, false, DoIssue(cfg, s))
  {
    var s', c, init := DoIssue(cfg, s), s.handler.client, heard[..|heard| - 1];
    IssueGoesOn(cfg, prompts, pool, heard, s);
    if MoreRounds(s, c) {
      var k := Drawn(cfg.totals, init);
      assert s.pool[|s.pool| - 1] == Question(pool, k);
      assert s'.pool == pool[..|pool| - k - 1];
    }
    forall d: nat | d < |prompts|
      ensures s'.records[d].history == Told(cfg.totals, prompts[d], pool, heard, d)
    {
      assert s.records[d].history == ToldSoFar(cfg.totals, prompts[d], pool, heard, true, d);
      if d == c && !MoreRounds(s, c) {
        var told := s.records[d].history;
        assert told + [] == told;
      }
    }
  }

  predicate NowPending(pending: bool, a: Action) {
    a.CountSuccess? || (pending && !a.Issue?)
  }

  lemma {:induction false} TalksStep(cfg: Config, prompts: seq<seq<Token>>, pool: seq<seq<Token>>,
                                     heard: seq<Response>, pending: bool, s: State, a: Action)
    requires Talks(cfg, prompts, pool, heard, pending, s) && Enabled(cfg, s, a)
    ensures Talks(cfg, prompts, pool, NowHeard(heard, s, a), NowPending(pending, a), Apply(cfg, s, a))
  {
    match a
    case CountFailure => TalksFailure(cfg, prompts, pool, heard, s);
    case CountSuccess => TalksSuccess(cfg, prompts, pool, heard, s);
    case Issue => TalksIssue(cfg, prompts, pool, heard, s);
    case _ =>
  }

  lemma {:induction false} TalksInit(cfg: Config, prompts: seq<seq<Token>>, pool: seq<seq<Token>>)
    requires |prompts| == |cfg.totals|
    ensures Talks(cfg, prompts, pool, [], false, Init(cfg, prompts, pool))
  {
    assert pool[..|pool|] == pool;
  }

  /** The run so far, from outside and from inside. */
  ghost predicate Agrees(cfg: Config, prompts: seq<seq<Token>>, pool: seq<seq<Token>>, actions: seq<Action>, s: State)
    requires |prompts| == |cfg.totals|
  {
    var start := Init(cfg, prompts, pool);
    && InOrder(cfg, start, actions, s) && Issues(actions) <= Successes(actions) <= Issues(actions) + 1
    && Talks(cfg, prompts, pool, Heard(cfg, start, actions), Pending(actions), s)
  }

  lemma {:induction false} PendingStep(actions: seq<Action>, cfg: Config, s: State)
    requires actions != [] && Enabled(cfg, s, actions[|actions| - 1])
    requires Pending(actions[..|actions| - 1]) <==> s.handler.Recorded?
    requires var init := actions[..|actions| - 1]; Issues(init) <= Successes(init) <= Issues(init) + 1
    ensures Issues(actions) <= Successes(actions) <= Issues(actions) + 1
    ensures Pending(actions) <==> NowPending(Pending(actions[..|actions| - 1]), actions[|actions| - 1])
  {
  }

  lemma {:induction false} AgreesRun(cfg: Config, prompts: seq<seq<Token>>, pool: seq<seq<Token>>,
                                     actions: seq<Action>, s: State)
    requires |prompts| == |cfg.totals| && After(cfg, Init(cfg, prompts, pool), actions) == Some(s)
    ensures Agrees(cfg, prompts, pool, actions, s)
  {
    var start := Init(cfg, prompts, pool);
    if actions == [] {
      TalksInit(cfg, prompts, pool);
    } else {
      var init, a := actions[..|actions| - 1], actions[|actions| - 1];
      var before := After(cfg, start, init).value;
      AgreesRun(cfg, prompts, pool, init, before);
      InOrderStep(cfg, start, actions, before);
      PendingStep(actions, cfg, before);
      TalksStep(cfg, prompts, pool, Heard(cfg, start, init), Pending(init), before, a);
    }
  }

  /** In every run, failures included: a client's history is its first prompt, then the outputs of its successful
      replies in the order in which they came back, each followed, while rounds remain, by the sub-question drawn
      for it from the end of the pool. */
  lemma {:induction false} HistoriesAreTold(cfg: Config, prompts: seq<seq<Token>>, pool: seq<seq<Token>>,
                                            actions: seq<Action>, s: State, c: nat)
    requires |prompts| == |cfg.totals| && After(cfg, Init(cfg, prompts, pool), actions) == Some(s) && c < |prompts|
    ensures Counted(actions) <= |Answers(cfg, Init(cfg, prompts, pool), actions)| && |s.records| == |prompts|
    ensures var heard := Answers(cfg, Init(cfg, prompts, pool), actions)[..Counted(actions)];
            && s.records[c].round == Rounds(heard, c)
            && s.records[c].history == ToldSoFar(cfg.totals, prompts[c], pool, heard, Pending(actions), c)
  {
    AgreesRun(cfg, prompts, pool, actions, s);
  }

  /** So every request that waits, is held or travels says just that. */
  lemma {:induction false} RequestsSayTheirHistory(cfg: Config, prompts: seq<seq<Token>>, pool: seq<seq<Token>>,
                                                   actions: seq<Action>, s: State, r: Request)
    requires ValidConfig(cfg) && |prompts| == |cfg.totals| && |pool| >= SubQuestionsNeeded(cfg.totals)
    requires After(cfg, Init(cfg, prompts, pool), actions) == Some(s)
    requires r in s.ready || r in s.inflight || r in s.deferred || (s.sender.Holding? && s.sender.request == r)
    ensures r.client < |prompts|
    ensures var heard := Heard(cfg, Init(cfg, prompts, pool), actions);
            r.payload == ToldSoFar(cfg.totals, prompts[r.client], pool, heard, Pending(actions), r.client)
  {
    var start := Init(cfg, prompts, pool);
    assert Setup(cfg, start);
    InvInit(cfg, start);
    InvRun(cfg, start, actions, s);
    AgreesRun(cfg, prompts, pool, actions, s);
    assert CurrentPayload(s.records, r);
  }

  // ----- First come, first served -----

  /** The clients whose requests the sender took from the ready queue, in order. */
  function Taken(cfg: Config, start: State, actions: seq<Action>): seq<nat> {
    if actions == [] then []
    else
      var init, a := actions[..|actions| - 1], actions[|actions| - 1];
      match After(cfg, start, init)
      case None => Taken(cfg, start, init)
      case Some(s) =>
        Taken(cfg, start, init) + Leaves(s, a)
  }

  function UpTo(n: nat): seq<nat> {
    if n == 0 then [] else UpTo(n - 1) + [n - 1]
  }

  /** The clients in the order in which they make requests: all once, then each after its own successful replies. */
  function Turns(totals: seq<nat>, heard: seq<Response>): seq<nat> {
    if heard == [] then UpTo(|totals|)
    else
      Turns(totals, heard[..|heard| - 1])
      + (if GoesOn(totals, heard) then [heard[|heard| - 1].client] else [])
  }

  function TurnsSoFar(totals: seq<nat>, heard: seq<Response>, pending: bool): seq<nat> {
    if pending && heard != [] then Turns(totals, heard[..|heard| - 1]) else Turns(totals, heard)
  }

  function Clients(q: seq<Request>): seq<nat> {
    if q == [] then [] else Clients(q[..|q| - 1]) + [q[|q| - 1].client]
  }

  lemma {:induction false} ClientsConcat(a: seq<Request>, b: seq<Request>)
    ensures Clients(a + b) == Clients(a) + Clients(b)
  {
    if b == [] {
      assert a + b == a;
    } else {
      assert (a + b)[..|a + b| - 1] == a + b[..|b| - 1];
      ClientsConcat(a, b[..|b| - 1]);
      ConcatAssoc(Clients(a), Clients(b[..|b| - 1]), [b[|b| - 1].client]);
    }
  }

  lemma {:induction false} ClientsFirst(q: seq<Request>)
    requires q != []
    ensures Clients(q) == [q[0].client] + Clients(q[1..])
  {
    assert q == [q[0]] + q[1..];
    ClientsConcat([q[0]], q[1..]);
    assert [q[0]][..0] == [];
  }

  lemma {:induction false} ClientsInit(q: seq<Request>)
    requires forall i :: 0 <= i < |q| ==> q[i].client == i
    ensures Clients(q) == UpTo(|q|)
  {
    if q != [] {
      ClientsInit(q[..|q| - 1]);
    }
  }

  /** Everything waiting, in the order in which it will be taken. */
  function Line(s: State): seq<nat> {
    Clients(s.ready + s.deferred)
  }

  /** Who joins the line in a step, and who leaves it. */
  function Joins(s: State, a: Action): seq<nat> {
    if a.Issue? && s.handler.Recorded? && s.handler.client < |s.records| && MoreRounds(s, s.handler.client)
    then [s.handler.client] else []
  }

  function Leaves(s: State, a: Action): seq<nat> {
    if a.PopReady? && a.index < |s.ready| then [s.ready[a.index].client] else []
  }

  lemma {:induction false} LineFirst(ready: seq<Request>, deferred: seq<Request>)
    requires ready != []
    ensures Clients(ready + deferred) == [ready[0].client] + Clients(RemoveAt(ready, 0) + deferred)
  {
    ClientsFirst(ready + deferred);
    assert (ready + deferred)[1..] == RemoveAt(ready, 0) + deferred;
  }

  lemma {:induction false} LineLast(ready: seq<Request>, deferred: seq<Request>, r: Request)
    ensures Clients(ready + (deferred + [r])) == Clients(ready + deferred) + [r.client]
    ensures deferred == [] ==> Clients((ready + [r]) + deferred) == Clients(ready + deferred) + [r.client]
  {
    ConcatAssoc(ready, deferred, [r]);
    ClientsConcat(ready + deferred, [r]);
    assert Clients([r]) == [] + [r.client];
    assert deferred == [] ==> (ready + [r]) + deferred == (ready + deferred) + [r];
  }

  lemma {:induction false} LineMoves(ready: seq<Request>, deferred: seq<Request>)
    requires deferred != []
    ensures (ready + [deferred[0]]) + deferred[1..] == ready + deferred
  {
  }

  lemma {:induction false} LineStep(cfg: Config, s: State, a: Action)
    requires Enabled(cfg, s, a) && (!cfg.barrier ==> s.deferred == []) && cfg.policy.Fifo?
    ensures !cfg.barrier ==> Apply(cfg, s, a).deferred == []
    ensures Line(s) + Joins(s, a) == Leaves(s, a) + Line(Apply(cfg, s, a))
  {
    assert Line(s) + [] == Line(s) == [] + Line(s);
    match a
    case PopReady(i) => LineFirst(s.ready, s.deferred);
    case Issue => LineIssue(cfg, s);
    case ReleaseOne => LineMoves(s.ready, s.deferred);
    case _ =>
  }

  lemma {:induction false} LineIssue(cfg: Config, s: State)
    requires Enabled(cfg, s, Issue) && (!cfg.barrier ==> s.deferred == [])
    ensures !cfg.barrier ==> DoIssue(cfg, s).deferred == []
    ensures Line(DoIssue(cfg, s)) == Line(s) + Joins(s, Issue)
  {
    var c, s' := s.handler.client, DoIssue(cfg, s);
    if MoreRounds(s, c) {
      LineLast(s.ready, s.deferred, Request(c, s'.records[c].history));
    } else {
      assert Line(s) + [] == Line(s);
    }
  }

  lemma {:induction false} TurnsCount(totals: seq<nat>, heard: seq<Response>, r: Response)
    ensures TurnsSoFar(totals, heard + [r], true) == Turns(totals, heard)
    ensures r.reply.Failure? ==> Turns(totals, heard + [r]) == Turns(totals, heard)
  {
    assert (heard + [r])[..|heard|] == heard;
  }

  lemma {:induction false} TurnsStep(cfg: Config, prompts: seq<seq<Token>>, pool: seq<seq<Token>>,
                                     heard: seq<Response>, pending: bool, s: State, a: Action)
    requires Talks(cfg, prompts, pool, heard, pending, s) && Enabled(cfg, s, a)
    ensures TurnsSoFar(cfg.totals, NowHeard(heard, s, a), NowPending(pending, a))
         == TurnsSoFar(cfg.totals, heard, pending) + Joins(s, a)
  {
    var before := TurnsSoFar(cfg.totals, heard, pending);
    assert before + [] == before;
    if a.CountSuccess? || a.CountFailure? {
      TurnsCount(cfg.totals, heard, s.handler.response);
    } else if a.Issue? {
      IssueGoesOn(cfg, prompts, pool, heard, s);
    }
  }

  lemma {:induction false} IssueGoesOn(cfg: Config, prompts: seq<seq<Token>>, pool: seq<seq<Token>>,
                                       heard: seq<Response>, s: State)
    requires Talks(cfg, prompts, pool, heard, true, s) && s.handler.client < |s.records|
    ensures heard != [] && heard[|heard| - 1].client == s.handler.client
    ensures GoesOn(cfg.totals, heard) <==> MoreRounds(s, s.handler.client)
  {
  }

  /** Taken and waiting together are all turns so far. */
  ghost predicate Served(cfg: Config, prompts: seq<seq<Token>>, pool: seq<seq<Token>>, actions: seq<Action>, s: State)
    requires |prompts| == |cfg.totals|
  {
    var start := Init(cfg, prompts, pool);
    && (!cfg.barrier ==> s.deferred == [])
    && Taken(cfg, start, actions) + Line(s)
       == TurnsSoFar(cfg.totals, Heard(cfg, start, actions), Pending(actions))
  }

  lemma {:induction false} ServedRun(cfg: Config, prompts: seq<seq<Token>>, pool: seq<seq<Token>>,
                                     actions: seq<Action>, s: State)
    requires |prompts| == |cfg.totals| && cfg.policy.Fifo?
    requires After(cfg, Init(cfg, prompts, pool), actions) == Some(s)
    ensures Served(cfg, prompts, pool, actions, s)
  {
    var start := Init(cfg, prompts, pool);
    if actions == [] {
      ClientsInit(start.ready);
      assert start.ready + start.deferred == start.ready;
    } else {
      var init, a := actions[..|actions| - 1], actions[|actions| - 1];
      var before := After(cfg, start, init).value;
      ServedRun(cfg, prompts, pool, init, before);
      AgreesRun(cfg, prompts, pool, init, before);
      InOrderStep(cfg, start, actions, before);
      PendingStep(actions, cfg, before);
      LineStep(cfg, before, a);
      TurnsStep(cfg, prompts, pool, Heard(cfg, start, init), Pending(init), before, a);
      Regroup(Taken(cfg, start, init), Leaves(before, a), Line(before), Line(s), Joins(before, a));
    }
  }

  /** With the first-in-first-out policy, in every run and with or without the barrier: requests are taken in the
      order in which they were made, all first prompts first. */
  lemma {:induction false} FirstInFirstOut(cfg: Config, prompts: seq<seq<Token>>, pool: seq<seq<Token>>,
                                           actions: seq<Action>, s: State)
    requires |prompts| == |cfg.totals| && cfg.policy.Fifo?
    requires After(cfg, Init(cfg, prompts, pool), actions) == Some(s)
    ensures var start := Init(cfg, prompts, pool);
            Taken(cfg, start, actions) <= TurnsSoFar(cfg.totals, Heard(cfg, start, actions), Pending(actions))
  {
    ServedRun(cfg, prompts, pool, actions, s);
  }
}
