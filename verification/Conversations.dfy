/** The conversation queue of the serving benchmark.  Tasks take a conversation from a bounded queue, send
    its next turn and, when the turn succeeds, put the conversation back for the turn after. */
module Conversations {
  import opened Seqs

  type Prompt = string

  datatype Message = User(content: Prompt) | Assistant(content: string)

  /** `turns[c]` are the prompts of conversation `c`; no limit stands for no semaphore. */
  datatype Workload = Workload(turns: seq<seq<Prompt>>, limit: Option<nat>)

  /** The mutable part of a `RequestFuncInput`. */
  datatype Input = Input(finished: nat, messages: seq<Message>)

  datatype Sent = Sent(conv: nat, turn: nat, messages: seq<Message>)

  datatype State = State(
    queue: seq<nat>, waiting: seq<nat>, running: seq<nat>, inputs: seq<Input>,
    issued: nat, aborted: bool, log: seq<Sent>,
    crashed: set<nat>, dropped: set<nat>)  // conversations whose task raised, and whose request failed

  /** `Abort` is the five-minute wait of `get_requests` on an empty queue running out. */
  datatype Action = Issue | Abort | Start(i: nat) | Crash(i: nat) | Succeed(i: nat, reply: string) | Fail(i: nat)

  function Lengths(turns: seq<seq<Prompt>>): seq<nat> {
    if turns == [] then [] else Lengths(turns[..|turns| - 1]) + [|turns[|turns| - 1]|]
  }

  /** `num_actual_requests`. */
  function Total(w: Workload): nat {
    Sum(Lengths(w.turns))
  }

  function Identity(n: nat): seq<nat> {
    if n == 0 then [] else Identity(n - 1) + [n - 1]
  }

  function Fresh(n: nat): seq<Input> {
    if n == 0 then [] else Fresh(n - 1) + [Input(0, [])]
  }

  /** All conversations are loaded with `put_nowait` before any request is issued. */
  function Init(w: Workload): State {
    State(Identity(|w.turns|), [], [], Fresh(|w.turns|), 0, false, [], {}, {})
  }

  predicate Fits(w: Workload, s: State, c: nat) {
    c < |w.turns| && c < |s.inputs|
  }

  predicate Enabled(w: Workload, s: State, a: Action) {
    match a
    case Issue => !s.aborted && s.issued < Total(w) && s.queue != []
    case Abort => !s.aborted && s.issued < Total(w) && s.queue == []
    case Start(i) =>
      && i < |s.waiting| && Fits(w, s, s.waiting[i])
      && s.inputs[s.waiting[i]].finished < |w.turns[s.waiting[i]]|
      && (w.limit.Some? ==> |s.running| < w.limit.value)
    case Crash(i) =>
      && i < |s.waiting| && Fits(w, s, s.waiting[i])
      && s.inputs[s.waiting[i]].finished >= |w.turns[s.waiting[i]]|
      && (w.limit.Some? ==> |s.running| < w.limit.value)
    case Succeed(i, _) =>
      && i < |s.running| && Fits(w, s, s.running[i])
      // `queue.put` waits while the queue is full
      && (GoesOn(w, s, s.running[i]) ==> |s.queue| < |w.turns|)
    case Fail(i) => i < |s.running|
  }

  /** The conversation has a further turn after the one under way. */
  predicate GoesOn(w: Workload, s: State, c: nat)
    requires Fits(w, s, c)
  {
    s.inputs[c].finished + 1 < |w.turns[c]|
  }

  function DoIssue(s: State): State
    requires s.queue != []
  {
    s.(queue := s.queue[1..], waiting := s.waiting + [s.queue[0]], issued := s.issued + 1)
  }

  function DoStart(w: Workload, s: State, i: nat): State
    requires i < |s.waiting| && Fits(w, s, s.waiting[i])
    requires s.inputs[s.waiting[i]].finished < |w.turns[s.waiting[i]]|
  {
    var c := s.waiting[i];
    var input := s.inputs[c];
    var messages := input.messages + [User(w.turns[c][input.finished])];
    s.(waiting := RemoveAt(s.waiting, i), running := s.running + [c],
       inputs := s.inputs[c := input.(messages := messages)],
       log := s.log + [Sent(c, input.finished, messages)])
  }

  function DoCrash(s: State, i: nat): State
    requires i < |s.waiting|
  {
    s.(waiting := RemoveAt(s.waiting, i), crashed := s.crashed + {s.waiting[i]})
  }

  function DoSucceed(w: Workload, s: State, i: nat, reply: string): State
    requires i < |s.running| && Fits(w, s, s.running[i])
  {
    var c := s.running[i];
    var input := s.inputs[c];
    s.(running := RemoveAt(s.running, i),
       inputs := s.inputs[c := Input(input.finished + 1, input.messages + [Assistant(reply)])],
       queue := if GoesOn(w, s, c) then s.queue + [c] else s.queue)
  }

  function DoFail(s: State, i: nat): State
    requires i < |s.running|
  {
    s.(running := RemoveAt(s.running, i), dropped := s.dropped + {s.running[i]})
  }

  function Apply(w: Workload, s: State, a: Action): State
    requires Enabled(w, s, a)
  {
    match a
    case Issue => DoIssue(s)
    case Abort => s.(aborted := true)
    case Start(i) => DoStart(w, s, i)
    case Crash(i) => DoCrash(s, i)
    case Succeed(i, reply) => DoSucceed(w, s, i, reply)
    case Fail(i) => DoFail(s, i)
  }

  function After(w: Workload, start: State, actions: seq<Action>): Option<State> {
    if actions == [] then Some(start)
    else
      match After(w, start, actions[..|actions| - 1])
      case None => None
      case Some(s) =>
        var a := actions[|actions| - 1];
        if Enabled(w, s, a) then Some(Apply(w, s, a)) else None
  }

  ghost predicate Reachable(w: Workload, s: State) {
    exists actions :: After(w, Init(w), actions) == Some(s)
  }

  // ----- Counting -----

  function Count(q: seq<nat>, c: nat): nat {
    if q == [] then 0 else Count(q[..|q| - 1], c) + One(q[|q| - 1] == c)
  }

  lemma {:induction false} CountAppend(q: seq<nat>, x: nat)
    ensures forall c: nat :: Count(q + [x], c) == Count(q, c) + One(x == c)
  {
    assert (q + [x])[..|q|] == q;
  }

  lemma {:induction false} CountRemoveAt(q: seq<nat>, i: nat, c: nat)
    requires i < |q|
    ensures Count(q, c) == Count(RemoveAt(q, i), c) + One(q[i] == c)
  {
    var n := |q| - 1;
    if i == n {
      assert RemoveAt(q, i) == q[..n];
    } else {
      CountRemoveAt(q[..n], i, c);
      assert RemoveAt(q, i) == RemoveAt(q[..n], i) + [q[n]];
      CountAppend(RemoveAt(q[..n], i), q[n]);
    }
  }

  /** The turns of conversation `c` that were sent, in order. */
  function TurnsSent(log: seq<Sent>, c: nat): seq<nat> {
    if log == [] then []
    else
      var last := log[|log| - 1];
      TurnsSent(log[..|log| - 1], c) + (if last.conv == c then [last.turn] else [])
  }

  lemma {:induction false} TurnsSentSnoc(log: seq<Sent>, e: Sent)
    ensures forall c: nat :: TurnsSent(log + [e], c) == TurnsSent(log, c) + (if e.conv == c then [e.turn] else [])
  {
    assert (log + [e])[..|log|] == log;
  }
}
