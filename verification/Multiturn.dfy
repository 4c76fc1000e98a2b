/** The multi-turn workload generator as a state machine.

    Two threads share the generator.  The sender admits, pops and launches
    requests; the response thread takes replies from the response queue, updates
    the client's record, issues the client's next request and, when the round
    barrier is on, holds next-round requests back until the round is complete.
    Replies arrive in any order.  One action below is one point at which the
    threads can interleave: every access to state that the other thread reads. */
module Multiturn {
  import opened Seqs

  type Token = int

  /** `--ready-queue-policy`: any other value makes a pop from a non-empty queue raise. */
  datatype Policy = Random | Fifo | Unknown

  datatype Config = Config(totals: seq<nat>, maxRounds: nat, barrier: bool,
                           maxParallel: int, policy: Policy)

  /** A request as it sits in a queue: `(client_id, payload)`. */
  datatype Request = Request(client: nat, payload: seq<Token>)

  datatype Reply = Success(output: seq<Token>) | Failure

  datatype Response = Response(client: nat, reply: Reply)

  /** `client_records[i]`. */
  datatype Record = Record(round: nat, history: seq<Token>, total: nat)

  /** Where the sender is inside one iteration of its loop. */
  datatype Sender = Waiting | Admitted | Holding(request: Request)

  /** Where the response thread is inside one iteration of its loop. */
  datatype Handler =
    | Idle
    | Got(response: Response)
    | Recorded(client: nat)
    | Issued
    | Releasing

  datatype State = State(
    ready: seq<Request>, sender: Sender, inflight: seq<Request>,
    responses: seq<Response>, handler: Handler, deferred: seq<Request>,
    records: seq<Record>, pool: seq<seq<Token>>, sent: nat, completed: nat,
    barrierRound: nat, barrierCount: nat,
    failed: set<nat>)  // clients whose failed response was counted; the program only prints them

  datatype Action =
    | Admit | PopReady(index: nat) | PopEmpty | Launch
    | Answer(index: nat, reply: Reply)
    | Get | CountFailure | CountSuccess | Issue | Tally | ReleaseOne | ReleaseDone

  // ----- Round setup -----

  /** Resolves `--num-rounds`, `--min-rounds` and `--max-rounds`; zero means "not given". */
  function ResolveRounds(numRounds: int, minRounds: int, maxRounds: int): (r: Result<(nat, nat)>)
    ensures r.Ok? ==> 1 <= r.value.0 <= r.value.1
    ensures r.Ok? && minRounds != 0 ==> r.value.0 == minRounds
    ensures r.Ok? && maxRounds != 0 ==> r.value.1 == maxRounds
    ensures minRounds == 0 && maxRounds == 0 ==> (r.Ok? <==> numRounds >= 1)
    ensures minRounds == 0 && maxRounds == 0 && r.Ok? ==> r.value == (numRounds, numRounds)
    ensures minRounds != 0 && maxRounds != 0 ==> (r.Ok? <==> 1 <= minRounds <= maxRounds)
    ensures (minRounds == 0) != (maxRounds == 0) ==>
              (r.Ok? <==> minRounds + maxRounds >= 1) && (r.Ok? ==> r.value.0 == r.value.1)
  {
    var lo := if minRounds == 0 then (if maxRounds == 0 then numRounds else maxRounds) else minRounds;
    var hi := if maxRounds == 0 then (if minRounds == 0 then numRounds else minRounds) else maxRounds;
    if lo < 1 then Err("--min-rounds must be >= 1")
    else if lo > hi then Err("--min-rounds must be <= --max-rounds")
    else Ok((lo, hi))
  }

  ghost predicate ValidConfig(cfg: Config) {
    forall i :: 0 <= i < |cfg.totals| ==> 1 <= cfg.totals[i] <= cfg.maxRounds
  }

  /** `clients_per_round[r]`: how many clients take part in round `r`. */
  function ClientsInRound(totals: seq<nat>, r: nat): nat {
    if totals == [] then 0
    else
      var n := |totals| - 1;
      ClientsInRound(totals[..n], r) + (if totals[n] > r then 1 else 0)
  }

  function ClientsPerRound(totals: seq<nat>, maxRounds: nat): seq<nat> {
    seq(maxRounds, r requires 0 <= r => ClientsInRound(totals, r))
  }

  function TotalRequests(cfg: Config): nat {
    Sum(cfg.totals)
  }

  /** `num_sub_questions`. */
  function SubQuestionsNeeded(totals: seq<nat>): nat {
    if totals == [] then 0
    else
      var n := |totals| - 1;
      SubQuestionsNeeded(totals[..n]) + (if totals[n] > 0 then totals[n] - 1 else 0)
  }

  /** Every client starts with its first prompt in the ready queue. */
  function Init(cfg: Config, prompts: seq<seq<Token>>, pool: seq<seq<Token>>): State
    requires |prompts| == |cfg.totals|
  {
    State(
      seq(|prompts|, i requires 0 <= i < |prompts| => Request(i, prompts[i])), Waiting, [], [], Idle, [],
      seq(|prompts|, i requires 0 <= i < |prompts| => Record(0, prompts[i], cfg.totals[i])),
      pool, 0, 0, 0, 0, {})
  }

  // ----- Steps -----

  predicate Enabled(cfg: Config, s: State, a: Action) {
    match a
    case Admit => s.sender.Waiting? && s.sent - s.completed < cfg.maxParallel
    case PopReady(i) => s.sender.Admitted? && i < |s.ready| && (cfg.policy.Random? || (cfg.policy.Fifo? && i == 0))
    case PopEmpty => s.sender.Admitted? && s.ready == []
    case Launch => s.sender.Holding?
    case Answer(i, _) => i < |s.inflight|
    case Get => s.handler.Idle? && s.responses != []
    case CountFailure => s.handler.Got? && s.handler.response.reply.Failure?
    case CountSuccess =>
      s.handler.Got? && s.handler.response.reply.Success? && s.handler.response.client < |s.records|
    case Issue =>
      && s.handler.Recorded? && s.handler.client < |s.records|
      && (MoreRounds(s, s.handler.client) ==> s.pool != [])
    case Tally => s.handler.Issued?
    case ReleaseOne => s.handler.Releasing? && s.deferred != []
    case ReleaseDone => s.handler.Releasing? && s.deferred == []
  }

  predicate MoreRounds(s: State, c: nat)
    requires c < |s.records|
  {
    s.records[c].round < s.records[c].total
  }

  // The sender: `request_loop`, one iteration of it.

  function DoAdmit(s: State): State {
    s.(sender := Admitted)
  }

  function DoPop(s: State, i: nat): State
    requires i < |s.ready|
  {
    s.(ready := RemoveAt(s.ready, i), sender := Holding(s.ready[i]))
  }

  function DoPopEmpty(s: State): State {
    s.(sender := Waiting)
  }

  function DoLaunch(s: State): State
    requires s.sender.Holding?
  {
    s.(inflight := s.inflight + [s.sender.request], sender := Waiting, sent := s.sent + 1)
  }

  // The server: `handle_request` puts the reply, or the failure, in the response queue.

  function DoAnswer(s: State, i: nat, reply: Reply): State
    requires i < |s.inflight|
  {
    s.(inflight := RemoveAt(s.inflight, i),
       responses := s.responses + [Response(s.inflight[i].client, reply)])
  }

  // The response thread: `response_handler`, one iteration of it.

  function DoGet(s: State): State
    requires s.responses != []
  {
    s.(handler := Got(s.responses[0]), responses := s.responses[1..])
  }

  function DoCountFailure(s: State): State
    requires s.handler.Got?
  {
    s.(handler := Idle, completed := s.completed + 1, failed := s.failed + {s.handler.response.client})
  }

  function DoCountSuccess(s: State): State
    requires s.handler.Got? && s.handler.response.reply.Success? && s.handler.response.client < |s.records|
  {
    var c := s.handler.response.client;
    var rec := s.records[c];
    s.(handler := Recorded(c), completed := s.completed + 1,
       records := s.records[c := rec.(round := rec.round + 1,
                                      history := rec.history + s.handler.response.reply.output)])
  }

  /** The client's next request: the history so far, extended by a sub-question from the pool. */
  function DoIssue(cfg: Config, s: State): State
    requires s.handler.Recorded? && s.handler.client < |s.records|
    requires MoreRounds(s, s.handler.client) ==> s.pool != []
  {
    var c := s.handler.client;
    if !MoreRounds(s, c) then s.(handler := Issued)
    else
      var rec := s.records[c].(history := s.records[c].history + s.pool[|s.pool| - 1]);
      var request := Request(c, rec.history);
      s.(handler := Issued, pool := s.pool[..|s.pool| - 1], records := s.records[c := rec],
         deferred := if cfg.barrier then s.deferred + [request] else s.deferred,
         ready := if cfg.barrier then s.ready else s.ready + [request])
  }

  function DoTally(cfg: Config, s: State): State {
    if cfg.barrier && s.barrierRound < cfg.maxRounds then
      s.(barrierCount := s.barrierCount + 1,
         handler := if s.barrierCount + 1 == ClientsInRound(cfg.totals, s.barrierRound) then Releasing else Idle)
    else
      s.(handler := Idle)
  }

  function DoReleaseOne(s: State): State
    requires s.deferred != []
  {
    s.(ready := s.ready + [s.deferred[0]], deferred := s.deferred[1..])
  }

  function DoReleaseDone(s: State): State {
    s.(handler := Idle, barrierRound := s.barrierRound + 1, barrierCount := 0)
  }

  function Apply(cfg: Config, s: State, a: Action): State
    requires Enabled(cfg, s, a)
  {
    match a
    case Admit => DoAdmit(s)
    case PopReady(i) => DoPop(s, i)
    case PopEmpty => DoPopEmpty(s)
    case Launch => DoLaunch(s)
    case Answer(i, reply) => DoAnswer(s, i, reply)
    case Get => DoGet(s)
    case CountFailure => DoCountFailure(s)
    case CountSuccess => DoCountSuccess(s)
    case Issue => DoIssue(cfg, s)
    case Tally => DoTally(cfg, s)
    case ReleaseOne => DoReleaseOne(s)
    case ReleaseDone => DoReleaseDone(s)
  }

  /** Where performing `actions` from `start` leads, if each action is enabled in its turn. */
  function After(cfg: Config, start: State, actions: seq<Action>): Option<State> {
    if actions == [] then Some(start)
    else
      var a := actions[|actions| - 1];
      match After(cfg, start, actions[..|actions| - 1])
      case None => None
      case Some(s) => if Enabled(cfg, s, a) then Some(Apply(cfg, s, a)) else None
  }

  lemma {:induction false} AfterSnoc(cfg: Config, s: State, actions: seq<Action>, a: Action)
    requires After(cfg, s, actions).Some? && Enabled(cfg, After(cfg, s, actions).value, a)
    ensures After(cfg, s, actions + [a]) == Some(Apply(cfg, After(cfg, s, actions).value, a))
  {
    assert (actions + [a])[..|actions|] == actions;
  }

  /** What the constructor of the generator establishes before the threads start. */
  ghost predicate Setup(cfg: Config, start: State) {
    && ValidConfig(cfg)
    && exists prompts: seq<seq<Token>>, pool: seq<seq<Token>> ::
         && |prompts| == |cfg.totals|
         && |pool| >= SubQuestionsNeeded(cfg.totals)
         && start == Init(cfg, prompts, pool)
  }

  ghost predicate Reachable(cfg: Config, s: State) {
    exists start, actions :: Setup(cfg, start) && After(cfg, start, actions) == Some(s)
  }
}
