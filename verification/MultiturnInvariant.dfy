/** What every step of the generator keeps, whatever the interleaving and the replies. */
module MultiturnInvariant {
  import opened Seqs
  import opened Multiturn

  // ----- Who holds a request, and where -----

  /** How many requests of client `c` are in a queue. */
  function Count(q: seq<Request>, c: nat): nat {
    if q == [] then 0 else Count(q[..|q| - 1], c) + One(q[|q| - 1].client == c)
  }

  function CountReplies(q: seq<Response>, c: nat): nat {
    if q == [] then 0 else One(q[0].client == c) + CountReplies(q[1..], c)
  }

  /** Requests of client `c` that are ready, held by the sender, in flight or awaiting handling. */
  function Active(s: State, c: nat): nat {
    Count(s.ready, c) + One(s.sender.Holding? && s.sender.request.client == c) + Count(s.inflight, c)
    + CountReplies(s.responses, c) + One(s.handler.Got? && s.handler.response.client == c)
  }

  function Deferred(s: State, c: nat): nat {
    Count(s.deferred, c)
  }

  lemma {:induction false} CountAppend(q: seq<Request>, r: Request)
    ensures forall c: nat :: Count(q + [r], c) == Count(q, c) + One(r.client == c)
  {
    assert (q + [r])[..|q|] == q;
  }

  lemma {:induction false} CountRemoveAt(q: seq<Request>, i: nat, c: nat)
    requires i < |q|
    ensures Count(q, c) == Count(RemoveAt(q, i), c) + One(q[i].client == c)
  {
    var n := |q| - 1;
    if i == n {
      assert RemoveAt(q, i) == q[..n];
    } else {
      CountRemoveAt(q[..n], i, c);
      assert RemoveAt(q, i) == RemoveAt(q[..n], i) + [q[n]];
      CountAppend(RemoveAt(q[..n], i), q[n]);
    }
  }

  lemma {:induction false} CountRepliesAppend(q: seq<Response>, r: Response, c: nat)
    ensures CountReplies(q + [r], c) == CountReplies(q, c) + One(r.client == c)
  {
    if q == [] {
      assert q + [r] == [r];
    } else {
      assert (q + [r])[1..] == q[1..] + [r];
      CountRepliesAppend(q[1..], r, c);
    }
  }

  lemma {:induction false} CountMember(q: seq<Request>, i: nat)
    requires i < |q|
    ensures Count(q, q[i].client) > 0
  {
    CountRemoveAt(q, i, q[i].client);
  }

  // ----- The invariant -----

  /** The client between its last reply and its next request, if there is one. */
  function InHand(handler: Handler): Option<nat> {
    if handler.Recorded? then Some(handler.client) else None
  }

  ghost predicate Shape(cfg: Config, records: seq<Record>, failed: set<nat>, inHand: Option<nat>) {
    && ValidConfig(cfg)
    && |records| == |cfg.totals|
    && (forall c :: 0 <= c < |records| ==>
          records[c].total == cfg.totals[c] && records[c].round <= records[c].total)
    && (forall c :: c in failed ==> 0 <= c < |records| && records[c].round < records[c].total)
    && (inHand.Some? ==> inHand.value < |records| && inHand.value !in failed)
  }

  /** A client that has neither finished nor failed owns exactly one request; the others own none. */
  function Owes(records: seq<Record>, failed: set<nat>, inHand: Option<nat>, c: nat): nat {
    One(c < |records| && c !in failed && inHand != Some(c) && records[c].round < records[c].total)
  }

  ghost predicate OneRequestEach(s: State) {
    forall c: nat :: Active(s, c) + Deferred(s, c) == Owes(s.records, s.failed, InHand(s.handler), c)
  }

  /** A request carries its client's current history. */
  ghost predicate CurrentPayload(records: seq<Record>, r: Request) {
    r.client < |records| && r.payload == records[r.client].history
  }

  ghost predicate AllCurrent(records: seq<Record>, q: seq<Request>) {
    forall i :: 0 <= i < |q| ==> CurrentPayload(records, q[i])
  }

  ghost predicate Payloads(s: State) {
    && AllCurrent(s.records, s.ready)
    && AllCurrent(s.records, s.inflight)
    && AllCurrent(s.records, s.deferred)
    && (s.sender.Holding? ==> CurrentPayload(s.records, s.sender.request))
  }

  /** Rounds completed by all clients together. */
  function RoundsDone(records: seq<Record>): nat {
    if records == [] then 0 else RoundsDone(records[..|records| - 1]) + records[|records| - 1].round
  }

  /** Sub-questions the client still has to draw. */
  function Need(r: Record): nat {
    if r.round < r.total then r.total - r.round - 1 else 0
  }

  function Needs(records: seq<Record>): nat {
    if records == [] then 0 else Needs(records[..|records| - 1]) + Need(records[|records| - 1])
  }

  lemma {:induction false} TotalsUpdate(records: seq<Record>, c: nat, rec: Record)
    requires c < |records|
    ensures RoundsDone(records[c := rec]) + records[c].round == RoundsDone(records) + rec.round
    ensures Needs(records[c := rec]) + Need(records[c]) == Needs(records) + Need(rec)
  {
    var n := |records| - 1;
    if c == n {
      assert records[c := rec][..n] == records[..n];
    } else {
      assert records[c := rec][..n] == records[..n][c := rec];
      TotalsUpdate(records[..n], c, rec);
    }
  }

  lemma {:induction false} TotalsInit(records: seq<Record>, totals: seq<nat>)
    requires |records| == |totals|
    requires forall c :: 0 <= c < |records| ==> records[c].round == 0 && records[c].total == totals[c]
    ensures RoundsDone(records) == 0 && Needs(records) == SubQuestionsNeeded(totals)
  {
    if records != [] {
      TotalsInit(records[..|records| - 1], totals[..|totals| - 1]);
    }
  }

  /** The client in hand has still to draw the sub-question for its next request. */
  function ToDraw(s: State): nat {
    One(s.handler.Recorded? && s.handler.client < |s.records| && MoreRounds(s, s.handler.client))
  }

  /** Requests that are sent and not yet counted as completed. */
  function Outstanding(s: State): nat {
    |s.inflight| + |s.responses| + (if s.handler.Got? then 1 else 0)
  }

  ghost predicate Counters(cfg: Config, s: State) {
    && s.sent == s.completed + Outstanding(s)
    && (Outstanding(s) <= cfg.maxParallel || Outstanding(s) == 0)
    && (!s.sender.Waiting? ==> Outstanding(s) < cfg.maxParallel)
    && s.completed == RoundsDone(s.records) + |s.failed|
    && |s.pool| >= Needs(s.records) + ToDraw(s)
  }

  /** How many clients succeeded in round `r` and stand at round `r + 1`. */
  function DoneCount(records: seq<Record>, r: nat): nat {
    if records == [] then 0
    else
      var n := |records| - 1;
      DoneCount(records[..n], r) + (if records[n].round == r + 1 then 1 else 0)
  }

  lemma {:induction false} DoneCountUpdate(records: seq<Record>, r: nat, c: nat, rec: Record)
    requires c < |records|
    ensures DoneCount(records[c := rec], r) + (if records[c].round == r + 1 then 1 else 0)
         == DoneCount(records, r) + (if rec.round == r + 1 then 1 else 0)
  {
    var n := |records| - 1;
    if c == n {
      assert records[c := rec][..n] == records[..n];
    } else {
      assert records[c := rec][..n] == records[..n][c := rec];
      DoneCountUpdate(records[..n], r, c, rec);
    }
  }

  lemma {:induction false} DoneCountNone(records: seq<Record>, r: nat)
    requires forall c :: 0 <= c < |records| ==> records[c].round != r + 1
    ensures DoneCount(records, r) == 0
  {
    if records != [] {
      DoneCountNone(records[..|records| - 1], r);
    }
  }

  lemma {:induction false} DoneCountCongruent(records: seq<Record>, records': seq<Record>, r: nat)
    requires |records| == |records'|
    requires forall c :: 0 <= c < |records| ==> records[c].round == records'[c].round
    ensures DoneCount(records, r) == DoneCount(records', r)
  {
    if records != [] {
      DoneCountCongruent(records[..|records| - 1], records'[..|records| - 1], r);
    }
  }

  /** If only participants are done, there are no more done than participants; if as many, all are done. */
  lemma {:induction false} DoneAmongParticipants(records: seq<Record>, totals: seq<nat>, r: nat)
    requires |records| == |totals|
    requires forall c :: 0 <= c < |records| && records[c].round == r + 1 ==> totals[c] > r
    ensures DoneCount(records, r) <= ClientsInRound(totals, r)
    ensures DoneCount(records, r) == ClientsInRound(totals, r) ==>
              forall c :: 0 <= c < |records| && totals[c] > r ==> records[c].round == r + 1
  {
    if records != [] {
      DoneAmongParticipants(records[..|records| - 1], totals[..|totals| - 1], r);
    }
  }

  ghost predicate BarrierOff(s: State) {
    s.deferred == [] && s.barrierRound == 0 && s.barrierCount == 0 && !s.handler.Releasing?
  }

  ghost predicate BarrierRounds(s: State) {
    var round := s.barrierRound;
    forall c: nat :: c < |s.records| ==>
      && (s.records[c].total <= round ==> s.records[c].round == s.records[c].total)
      && (s.records[c].total > round ==> s.records[c].round == round || s.records[c].round == round + 1)
      && (Active(s, c) > 0 ==> s.records[c].round == if s.handler.Releasing? then round + 1 else round)
      && (Deferred(s, c) > 0 ==> s.records[c].round == round + 1)
      && (c in s.failed ==> s.records[c].round == round)
      && (s.handler.Releasing? && s.records[c].total > round ==> s.records[c].round == round + 1)
  }

  ghost predicate BarrierTally(cfg: Config, records: seq<Record>, handler: Handler, round: nat, count: nat) {
    var expected := ClientsInRound(cfg.totals, round);
    var done := DoneCount(records, round);
    && round <= cfg.maxRounds
    && match handler
       case Idle => count == done && (count < expected || expected == 0)
       case Got(_) => count == done && (count < expected || expected == 0)
       case Recorded(c) =>
         count + 1 == done && count < expected && c < |records| && records[c].round == round + 1
       case Issued => count + 1 == done && count < expected && round < cfg.maxRounds
       case Releasing => count == expected && round < cfg.maxRounds
  }

  ghost predicate BarrierOn(cfg: Config, s: State) {
    && BarrierRounds(s)
    && BarrierTally(cfg, s.records, s.handler, s.barrierRound, s.barrierCount)
  }

  ghost predicate Inv(cfg: Config, s: State) {
    && Shape(cfg, s.records, s.failed, InHand(s.handler))
    && OneRequestEach(s)
    && Payloads(s)
    && Counters(cfg, s)
    && (if cfg.barrier then BarrierOn(cfg, s) else BarrierOff(s))
  }

  // ----- The first state -----

  lemma {:induction false} InvInit(cfg: Config, s: State)
    requires Setup(cfg, s)
    ensures Inv(cfg, s)
  {
    CountInit(s.ready);
    TotalsInit(s.records, cfg.totals);
    DoneCountNone(s.records, 0);
  }

  lemma {:induction false} CountInit(q: seq<Request>)
    requires forall i :: 0 <= i < |q| ==> q[i].client == i
    ensures forall c: nat :: Count(q, c) == One(c < |q|)
  {
    if q != [] {
      CountInit(q[..|q| - 1]);
    }
  }

  // ----- Steps that only move a request from one place to the next -----

  /** A move: no client gains or loses a request and no record changes. */
  ghost predicate Move(s: State, s': State) {
    && s'.records == s.records && s'.failed == s.failed && s'.pool == s.pool && s'.completed == s.completed
    && s'.deferred == s.deferred && s'.barrierRound == s.barrierRound && s'.barrierCount == s.barrierCount
    && (forall c: nat :: Active(s', c) == Active(s, c))
    && (s'.handler == s.handler || (s.handler.Idle? && s'.handler.Got?))
  }

  lemma {:induction false} InvAdmit(cfg: Config, s: State)
    requires Inv(cfg, s) && Enabled(cfg, s, Admit)
    ensures Inv(cfg, DoAdmit(s))
  {
  }

  lemma {:induction false} InvPopEmpty(cfg: Config, s: State)
    requires Inv(cfg, s) && Enabled(cfg, s, PopEmpty)
    ensures Inv(cfg, DoPopEmpty(s))
  {
  }

  lemma {:induction false} InvPop(cfg: Config, s: State, i: nat)
    requires Inv(cfg, s) && Enabled(cfg, s, PopReady(i))
    ensures Inv(cfg, DoPop(s, i))
  {
    forall c: nat ensures Active(DoPop(s, i), c) == Active(s, c) {
      CountRemoveAt(s.ready, i, c);
    }
    CurrentRemoveAt(s.records, s.ready, i);
  }

  lemma {:induction false} InvLaunch(cfg: Config, s: State)
    requires Inv(cfg, s) && Enabled(cfg, s, Launch)
    ensures Inv(cfg, DoLaunch(s))
  {
    LaunchMoves(s);
    CurrentAppend(s.records, s.inflight, s.sender.request);
  }

  lemma {:induction false} LaunchMoves(s: State)
    requires s.sender.Holding?
    ensures Move(s, DoLaunch(s))
  {
    var r := s.sender.request;
    CountAppend(s.inflight, r);
    forall c: nat ensures Active(DoLaunch(s), c) == Active(s, c) {
      assert Count(s.inflight + [r], c) == Count(s.inflight, c) + One(r.client == c);
    }
  }

  lemma {:induction false} CurrentAppend(records: seq<Record>, q: seq<Request>, r: Request)
    requires AllCurrent(records, q) && CurrentPayload(records, r)
    ensures AllCurrent(records, q + [r])
  {
  }

  lemma {:induction false} InvAnswer(cfg: Config, s: State, i: nat, reply: Reply)
    requires Inv(cfg, s) && Enabled(cfg, s, Answer(i, reply))
    ensures Inv(cfg, DoAnswer(s, i, reply))
  {
    AnswerMoves(s, i, reply);
    CurrentRemoveAt(s.records, s.inflight, i);
  }

  lemma {:induction false} AnswerMoves(s: State, i: nat, reply: Reply)
    requires i < |s.inflight|
    ensures Move(s, DoAnswer(s, i, reply))
  {
    forall c: nat ensures Active(DoAnswer(s, i, reply), c) == Active(s, c) {
      CountRemoveAt(s.inflight, i, c);
      CountRepliesAppend(s.responses, Response(s.inflight[i].client, reply), c);
    }
  }

  lemma {:induction false} InvGet(cfg: Config, s: State)
    requires Inv(cfg, s) && Enabled(cfg, s, Get)
    ensures Inv(cfg, DoGet(s))
  {
  }

  lemma {:induction false} CurrentRemoveAt(records: seq<Record>, q: seq<Request>, i: nat)
    requires AllCurrent(records, q) && i < |q|
    ensures AllCurrent(records, RemoveAt(q, i)) && CurrentPayload(records, q[i])
  {
    assert CurrentPayload(records, q[i]);
  }

  // ----- Counting a reply -----

  lemma {:induction false} GotClient(s: State)
    requires OneRequestEach(s) && s.handler.Got?
    ensures var c := s.handler.response.client;
            && c < |s.records| && c !in s.failed && s.records[c].round < s.records[c].total
            && Active(s, c) == 1 && Deferred(s, c) == 0
  {
    var c := s.handler.response.client;
    assert Active(s, c) + Deferred(s, c) == Owes(s.records, s.failed, InHand(s.handler), c);
  }

  /** Counting a reply takes the client's one request away and leaves every other client's alone. */
  lemma {:induction false} CountedOwners(s: State, s': State)
    requires OneRequestEach(s) && s.handler.Got?
    requires s' == DoCountFailure(s)
             || (&& s.handler.response.reply.Success? && s.handler.response.client < |s.records|
                 && s' == DoCountSuccess(s))
    ensures OneRequestEach(s')
    ensures var c := s.handler.response.client; Active(s', c) == 0 && Deferred(s', c) == 0
    ensures forall d: nat :: Active(s', d) <= Active(s, d) && Deferred(s', d) == Deferred(s, d)
  {
    GotClient(s);
    var c := s.handler.response.client;
    forall d: nat
      ensures Active(s', d) + Deferred(s', d) == Owes(s'.records, s'.failed, InHand(s'.handler), d)
      ensures Active(s', d) + One(c == d) == Active(s, d)
    {
      assert Active(s, d) + Deferred(s, d) == Owes(s.records, s.failed, InHand(s.handler), d);
    }
  }

  lemma {:induction false} InvCountFailure(cfg: Config, s: State)
    requires Inv(cfg, s) && Enabled(cfg, s, CountFailure)
    ensures Inv(cfg, DoCountFailure(s))
  {
    GotClient(s);
    CountedOwners(s, DoCountFailure(s));
    if cfg.barrier {
      FailureBarrier(cfg, s);
    }
  }

  lemma {:induction false} FailureBarrier(cfg: Config, s: State)
    requires BarrierOn(cfg, s) && OneRequestEach(s) && Enabled(cfg, s, CountFailure)
    ensures BarrierOn(cfg, DoCountFailure(s))
  {
    GotClient(s);
    CountedOwners(s, DoCountFailure(s));
  }

  lemma {:induction false} InvCountSuccess(cfg: Config, s: State)
    requires Inv(cfg, s) && Enabled(cfg, s, CountSuccess)
    ensures Inv(cfg, DoCountSuccess(s))
  {
    var s' := DoCountSuccess(s);
    var c := s.handler.response.client;
    GotClient(s);
    CountedOwners(s, s');
    SuccessCounters(cfg, s);
    PayloadsElsewhere(s, s', c);
    if cfg.barrier {
      SuccessBarrier(cfg, s);
    }
  }

  lemma {:induction false} SuccessCounters(cfg: Config, s: State)
    requires Counters(cfg, s) && Enabled(cfg, s, CountSuccess)
    requires s.records[s.handler.response.client].round < s.records[s.handler.response.client].total
    ensures Counters(cfg, DoCountSuccess(s))
  {
    var c := s.handler.response.client;
    TotalsUpdate(s.records, c, DoCountSuccess(s).records[c]);
  }

  lemma {:induction false} SuccessBarrier(cfg: Config, s: State)
    requires BarrierOn(cfg, s) && OneRequestEach(s) && Enabled(cfg, s, CountSuccess)
    requires Shape(cfg, s.records, s.failed, None)
    ensures BarrierOn(cfg, DoCountSuccess(s))
  {
    var s' := DoCountSuccess(s);
    var c := s.handler.response.client;
    GotClient(s);
    CountedOwners(s, s');
    DoneCountUpdate(s.records, s.barrierRound, c, s'.records[c]);
    DoneAmongParticipants(s'.records, cfg.totals, s.barrierRound);
  }

  /** Rewriting the record of a client that owns no request leaves every payload current. */
  lemma {:induction false} PayloadsElsewhere(s: State, s': State, c: nat)
    requires Payloads(s) && c < |s.records|
    requires |s'.records| == |s.records|
    requires forall d :: 0 <= d < |s.records| && d != c ==> s'.records[d] == s.records[d]
    requires s'.ready == s.ready && s'.inflight == s.inflight && s'.deferred == s.deferred && s'.sender == s.sender
    requires Active(s', c) == 0 && Deferred(s', c) == 0
    ensures Payloads(s')
  {
    CurrentElsewhere(s.records, s'.records, s.ready, c);
    CurrentElsewhere(s.records, s'.records, s.inflight, c);
    CurrentElsewhere(s.records, s'.records, s.deferred, c);
  }

  lemma {:induction false} CurrentElsewhere(records: seq<Record>, records': seq<Record>, q: seq<Request>, c: nat)
    requires AllCurrent(records, q) && Count(q, c) == 0
    requires |records'| == |records|
    requires forall d :: 0 <= d < |records| && d != c ==> records'[d] == records[d]
    ensures AllCurrent(records', q)
  {
    forall i | 0 <= i < |q| ensures CurrentPayload(records', q[i]) {
      assert CurrentPayload(records, q[i]);
      CountMember(q, i);
    }
  }

  // ----- Issuing the next request -----

  lemma {:induction false} InvIssue(cfg: Config, s: State)
    requires Inv(cfg, s) && Enabled(cfg, s, Issue)
    ensures Inv(cfg, DoIssue(cfg, s))
  {
    IssueOwners(cfg, s);
    IssueCounters(cfg, s);
    IssuePayloads(cfg, s);
    if cfg.barrier {
      IssueBarrier(cfg, s);
    }
  }

  /** Issuing gives a client with rounds left one request, behind the barrier if there is one. */
  lemma {:induction false} IssueCounts(cfg: Config, s: State)
    requires Enabled(cfg, s, Issue)
    ensures var s' := DoIssue(cfg, s); var c := s.handler.client; var more := MoreRounds(s, c);
            forall d: nat ::
              && Active(s', d) == Active(s, d) + One(more && !cfg.barrier && c == d)
              && Deferred(s', d) == Deferred(s, d) + One(more && cfg.barrier && c == d)
  {
    var c := s.handler.client;
    if MoreRounds(s, c) {
      var request := Request(c, DoIssue(cfg, s).records[c].history);
      if cfg.barrier {
        CountAppend(s.deferred, request);
      } else {
        CountAppend(s.ready, request);
      }
    }
  }

  lemma {:induction false} IssueOwners(cfg: Config, s: State)
    requires OneRequestEach(s) && Enabled(cfg, s, Issue) && s.handler.client !in s.failed
    ensures OneRequestEach(DoIssue(cfg, s))
    ensures Active(s, s.handler.client) == 0 && Deferred(s, s.handler.client) == 0
  {
    var s' := DoIssue(cfg, s);
    var c := s.handler.client;
    IssueCounts(cfg, s);
    assert Active(s, c) + Deferred(s, c) == Owes(s.records, s.failed, Some(c), c);
    forall d: nat
      ensures Active(s', d) + Deferred(s', d) == Owes(s'.records, s'.failed, None, d)
    {
      assert Active(s, d) + Deferred(s, d) == Owes(s.records, s.failed, Some(c), d);
    }
  }

  lemma {:induction false} IssueCounters(cfg: Config, s: State)
    requires Counters(cfg, s) && Enabled(cfg, s, Issue)
    ensures Counters(cfg, DoIssue(cfg, s))
  {
    var s' := DoIssue(cfg, s);
    var c := s.handler.client;
    if MoreRounds(s, c) {
      TotalsUpdate(s.records, c, s'.records[c]);
    }
  }

  lemma {:induction false} IssuePayloads(cfg: Config, s: State)
    requires Payloads(s) && Enabled(cfg, s, Issue)
    requires Active(s, s.handler.client) == 0 && Deferred(s, s.handler.client) == 0
    ensures Payloads(DoIssue(cfg, s))
  {
    var s' := DoIssue(cfg, s);
    var c := s.handler.client;
    PayloadsElsewhere(s, s.(records := s'.records), c);
    assert CurrentPayload(s'.records, Request(c, s'.records[c].history));
  }

  lemma {:induction false} IssueBarrier(cfg: Config, s: State)
    requires BarrierOn(cfg, s) && cfg.barrier && Enabled(cfg, s, Issue)
    requires Shape(cfg, s.records, s.failed, InHand(s.handler))
    ensures BarrierOn(cfg, DoIssue(cfg, s))
  {
    var s' := DoIssue(cfg, s);
    var c := s.handler.client;
    DoneCountCongruent(s.records, s'.records, s.barrierRound);
    IssueCounts(cfg, s);
  }

  // ----- The barrier -----

  lemma {:induction false} InvTally(cfg: Config, s: State)
    requires Inv(cfg, s) && Enabled(cfg, s, Tally)
    ensures Inv(cfg, DoTally(cfg, s))
  {
    var s' := DoTally(cfg, s);
    assert forall c: nat :: Active(s', c) == Active(s, c);
    if cfg.barrier {
      TallyBarrier(cfg, s);
    }
  }

  lemma {:induction false} TallyBarrier(cfg: Config, s: State)
    requires Shape(cfg, s.records, s.failed, InHand(s.handler)) && OneRequestEach(s)
    requires cfg.barrier && BarrierOn(cfg, s) && Enabled(cfg, s, Tally)
    ensures BarrierOn(cfg, DoTally(cfg, s))
  {
    var s' := DoTally(cfg, s);
    if s'.handler.Releasing? {
      RoundComplete(cfg, s);
    }
    assert forall c: nat :: Active(s', c) == Active(s, c);
  }

  /** Once as many clients are done as take part, every participant is done and none is active or failed. */
  lemma {:induction false} RoundComplete(cfg: Config, s: State)
    requires Shape(cfg, s.records, s.failed, InHand(s.handler)) && OneRequestEach(s)
    requires BarrierOn(cfg, s) && !s.handler.Releasing?
    requires DoneCount(s.records, s.barrierRound) == ClientsInRound(cfg.totals, s.barrierRound)
    ensures forall c: nat :: c < |s.records| && s.records[c].total > s.barrierRound ==>
              s.records[c].round == s.barrierRound + 1
    ensures forall c: nat :: Active(s, c) == 0
    ensures forall c: nat :: c !in s.failed
  {
    DoneAmongParticipants(s.records, cfg.totals, s.barrierRound);
    forall c: nat ensures Active(s, c) == 0 && c !in s.failed {
      assert Active(s, c) + Deferred(s, c) == Owes(s.records, s.failed, InHand(s.handler), c);
    }
  }

  /** Releasing moves one request from behind the barrier to the ready queue. */
  lemma {:induction false} ReleaseOneCounts(s: State)
    requires s.deferred != []
    ensures var s', d := DoReleaseOne(s), s.deferred[0].client;
            forall c: nat ::
              && Active(s', c) == Active(s, c) + One(d == c)
              && Deferred(s', c) + One(d == c) == Deferred(s, c)
  {
    CountAppend(s.ready, s.deferred[0]);
    forall c: nat ensures Count(s.deferred[1..], c) + One(s.deferred[0].client == c) == Count(s.deferred, c) {
      CountRemoveAt(s.deferred, 0, c);
      assert RemoveAt(s.deferred, 0) == s.deferred[1..];
    }
  }

  lemma {:induction false} ReleaseOneBarrier(cfg: Config, s: State)
    requires BarrierOn(cfg, s) && s.handler.Releasing? && s.deferred != []
    ensures BarrierOn(cfg, DoReleaseOne(s))
  {
    ReleaseOneCounts(s);
  }

  lemma {:induction false} InvReleaseOne(cfg: Config, s: State)
    requires Inv(cfg, s) && Enabled(cfg, s, ReleaseOne)
    ensures Inv(cfg, DoReleaseOne(s))
  {
    ReleaseOneOwners(s);
    assert CurrentPayload(s.records, s.deferred[0]);
    CurrentAppend(s.records, s.ready, s.deferred[0]);
    if cfg.barrier {
      ReleaseOneBarrier(cfg, s);
    }
  }

  lemma {:induction false} ReleaseOneOwners(s: State)
    requires OneRequestEach(s) && s.deferred != []
    ensures OneRequestEach(DoReleaseOne(s))
  {
    ReleaseOneCounts(s);
  }

  lemma {:induction false} InvReleaseDone(cfg: Config, s: State)
    requires Inv(cfg, s) && Enabled(cfg, s, ReleaseDone)
    ensures Inv(cfg, DoReleaseDone(s))
  {
    if cfg.barrier {
      ReleaseDoneBarrier(cfg, s);
    }
  }

  lemma {:induction false} ReleaseDoneBarrier(cfg: Config, s: State)
    requires Shape(cfg, s.records, s.failed, InHand(s.handler))
    requires BarrierOn(cfg, s) && Enabled(cfg, s, ReleaseDone)
    ensures BarrierOn(cfg, DoReleaseDone(s))
  {
    DoneCountNone(s.records, s.barrierRound + 1);
  }

  lemma {:induction false} InvStep(cfg: Config, s: State, a: Action)
    requires Inv(cfg, s) && Enabled(cfg, s, a)
    ensures Inv(cfg, Apply(cfg, s, a))
  {
    match a
    case Admit => InvAdmit(cfg, s);
    case PopReady(i) => InvPop(cfg, s, i);
    case PopEmpty => InvPopEmpty(cfg, s);
    case Launch => InvLaunch(cfg, s);
    case Answer(i, reply) => InvAnswer(cfg, s, i, reply);
    case Get => InvGet(cfg, s);
    case CountFailure => InvCountFailure(cfg, s);
    case CountSuccess => InvCountSuccess(cfg, s);
    case Issue => InvIssue(cfg, s);
    case Tally => InvTally(cfg, s);
    case ReleaseOne => InvReleaseOne(cfg, s);
    case ReleaseDone => InvReleaseDone(cfg, s);
  }

  lemma {:induction false} InvRun(cfg: Config, start: State, actions: seq<Action>, s: State)
    requires Inv(cfg, start) && After(cfg, start, actions) == Some(s)
    ensures Inv(cfg, s)
  {
    if actions != [] {
      var before := After(cfg, start, actions[..|actions| - 1]).value;
      InvRun(cfg, start, actions[..|actions| - 1], before);
      InvStep(cfg, before, actions[|actions| - 1]);
    }
  }

  lemma {:induction false} InvReachable(cfg: Config, s: State)
    requires Reachable(cfg, s)
    ensures Inv(cfg, s)
  {
    var start, actions :| Setup(cfg, start) && After(cfg, start, actions) == Some(s);
    InvInit(cfg, start);
    InvRun(cfg, start, actions, s);
  }
}
