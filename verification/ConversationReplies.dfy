/** What the serving benchmark's requests say and in which order conversations are taken, read off a run's
    actions. */
module ConversationReplies {
  import opened Seqs
  import opened Conversations
  import opened ConversationProofs
  import opened ConversationTheorems

  // ----- Replies -----

  /** The reply to conversation `c` in a step, if the step is one. */
  function NewReply(s: State, a: Action, c: nat): seq<string> {
    if a.Succeed? && a.i < |s.running| && s.running[a.i] == c then [a.reply] else []
  }

  /** The replies to conversation `c`, in order. */
  function Replies(w: Workload, actions: seq<Action>, c: nat): seq<string> {
    if actions == [] then []
    else
      var init := actions[..|actions| - 1];
      match After(w, Init(w), init)
      case None => Replies(w, init, c)
      case Some(s) => Replies(w, init, c) + NewReply(s, actions[|actions| - 1], c)
  }

  /** Reply `k` stands behind prompt `k`. */
  predicate Answered(messages: seq<Message>, replies: seq<string>, k: nat) {
    2 * k + 1 < |messages| && k < |replies| && messages[2 * k + 1] == Assistant(replies[k])
  }

  ghost predicate AllAnswered(messages: seq<Message>, replies: seq<string>, n: nat) {
    forall k: nat :: k < n ==> Answered(messages, replies, k)
  }

  lemma {:induction false} AnsweredMore(messages: seq<Message>, more: seq<Message>, replies: seq<string>,
                                        later: seq<string>, n: nat)
    requires AllAnswered(messages, replies, n)
    ensures AllAnswered(messages + more, replies + later, n)
  {
    forall k: nat | k < n ensures Answered(messages + more, replies + later, k) {
      assert Answered(messages, replies, k);
    }
  }

  lemma {:induction false} AnsweredNext(messages: seq<Message>, replies: seq<string>, reply: string)
    requires AllAnswered(messages, replies, |replies|) && |messages| == 2 * |replies| + 1
    ensures AllAnswered(messages + [Assistant(reply)], replies + [reply], |replies| + 1)
  {
    AnsweredMore(messages, [Assistant(reply)], replies, [reply], |replies|);
  }

  ghost predicate Told(w: Workload, actions: seq<Action>, s: State, c: nat)
    requires c < |s.inputs|
  {
    && |Replies(w, actions, c)| == s.inputs[c].finished
    && AllAnswered(s.inputs[c].messages, Replies(w, actions, c), s.inputs[c].finished)
  }

  ghost predicate AllTold(w: Workload, actions: seq<Action>, s: State) {
    && |s.inputs| == |w.turns|
    && (forall c: nat :: c < |w.turns| ==> Told(w, actions, s, c))
    && (forall i :: 0 <= i < |s.log| ==>
          AllAnswered(s.log[i].messages, Replies(w, actions, s.log[i].conv), s.log[i].turn))
  }

  /** How one step changes what conversation `c` was told. */
  lemma {:induction false} ToldStep(w: Workload, actions: seq<Action>, before: State, c: nat)
    requires actions != [] && After(w, Init(w), actions[..|actions| - 1]) == Some(before)
    requires Enabled(w, before, actions[|actions| - 1]) && OnePlace(w, before) && Contexts(w, before)
    requires c < |before.inputs| && Told(w, actions[..|actions| - 1], before, c)
    ensures var s := Apply(w, before, actions[|actions| - 1]); c < |s.inputs| && Told(w, actions, s, c)
  {
    var init, a := actions[..|actions| - 1], actions[|actions| - 1];
    var replies, messages := Replies(w, init, c), before.inputs[c].messages;
    assert replies + [] == replies && messages + [] == messages;
    if a.Start? && before.waiting[a.i] == c {
      AnsweredMore(messages, [User(w.turns[c][before.inputs[c].finished])], replies, [], |replies|);
    } else if a.Succeed? && before.running[a.i] == c {
      CountMember(before.running, a.i);
      OwnerIsOpen(w, before, c);
      AnsweredNext(messages, replies, a.reply);
    }
  }

  lemma {:induction false} LogStep(w: Workload, actions: seq<Action>, before: State)
    requires actions != [] && After(w, Init(w), actions[..|actions| - 1]) == Some(before)
    requires Enabled(w, before, actions[|actions| - 1]) && AllTold(w, actions[..|actions| - 1], before)
    ensures var s := Apply(w, before, actions[|actions| - 1]);
            forall i :: 0 <= i < |s.log| ==>
              AllAnswered(s.log[i].messages, Replies(w, actions, s.log[i].conv), s.log[i].turn)
  {
    var init, a := actions[..|actions| - 1], actions[|actions| - 1];
    var s := Apply(w, before, a);
    forall i | 0 <= i < |s.log|
      ensures AllAnswered(s.log[i].messages, Replies(w, actions, s.log[i].conv), s.log[i].turn)
    {
      var e := s.log[i];
      if i < |before.log| {
        assert e == before.log[i] && e.messages + [] == e.messages;
        AnsweredMore(e.messages, [], Replies(w, init, e.conv), NewReply(before, a, e.conv), e.turn);
      } else {
        assert Told(w, init, before, e.conv);
        var messages, replies := before.inputs[e.conv].messages, Replies(w, init, e.conv);
        AnsweredMore(messages, [User(w.turns[e.conv][e.turn])], replies, [], e.turn);
        assert replies + [] == replies;
      }
    }
  }

  lemma {:induction false} ToldRun(w: Workload, actions: seq<Action>, s: State)
    requires After(w, Init(w), actions) == Some(s)
    ensures AllTold(w, actions, s)
  {
    if actions == [] {
      FreshFacts(|w.turns|);
    } else {
      var init := actions[..|actions| - 1];
      var before := After(w, Init(w), init).value;
      ToldRun(w, init, before);
      InvInit(w);
      InvRun(w, Init(w), init, before);
      ContextsRun(w, init, before);
      LogStep(w, actions, before);
      forall c: nat | c < |w.turns| ensures c < |s.inputs| && Told(w, actions, s, c) {
        ToldStep(w, actions, before, c);
      }
    }
  }

  /** Every request of turn `t` says the conversation's prompts up to `t`, and behind prompt `k` the text of the
      reply to turn `k`. */
  lemma {:induction false} RequestsSayReplies(w: Workload, actions: seq<Action>, s: State, i: nat, k: nat)
    requires After(w, Init(w), actions) == Some(s) && i < |s.log| && k <= s.log[i].turn
    ensures var e := s.log[i]; e.conv < |w.turns| && e.turn < |w.turns[e.conv]| && |e.messages| == 2 * e.turn + 1
    ensures s.log[i].messages[2 * k] == User(w.turns[s.log[i].conv][k])
    ensures k < s.log[i].turn ==>
              && k < |Replies(w, actions, s.log[i].conv)|
              && s.log[i].messages[2 * k + 1] == Assistant(Replies(w, actions, s.log[i].conv)[k])
  {
    ToldRun(w, actions, s);
    ContextsRun(w, actions, s);
    var e := s.log[i];
    assert GoodEntry(w, e);
    DialogueAt(w.turns[e.conv], e.messages, k);
    DialogueAt(w.turns[e.conv], e.messages, e.turn);
    if k < e.turn {
      assert Answered(e.messages, Replies(w, actions, e.conv), k);
    }
  }

  lemma {:induction false} DialogueAt(turns: seq<Prompt>, messages: seq<Message>, k: nat)
    requires Dialogue(turns, messages) && 2 * k < |messages|
    ensures k < |turns| && messages[2 * k] == User(turns[k])
  {
    var j := 2 * k;
    assert j % 2 == 0 && j / 2 == k;
    assert j < |messages| && messages[j] == messages[2 * k];
  }

  // ----- First come, first served -----

  /** Who is taken from the queue in a step, and who is put back into it because turns remain. */
  function Takes(s: State, a: Action): seq<nat> {
    if a.Issue? && s.queue != [] then [s.queue[0]] else []
  }

  function PutsBack(w: Workload, replies: nat, s: State, a: Action): seq<nat> {
    if a.Succeed? && a.i < |s.running| && s.running[a.i] < |w.turns| && replies < |w.turns[s.running[a.i]]|
    then [s.running[a.i]] else []
  }

  function Taken(w: Workload, actions: seq<Action>): seq<nat> {
    if actions == [] then []
    else
      var init := actions[..|actions| - 1];
      match After(w, Init(w), init)
      case None => Taken(w, init)
      case Some(s) => Taken(w, init) + Takes(s, actions[|actions| - 1])
  }

  /** Conversations put back, in order: those answered with turns left over. */
  function PutBack(w: Workload, actions: seq<Action>): seq<nat> {
    if actions == [] then []
    else
      var init, a := actions[..|actions| - 1], actions[|actions| - 1];
      match After(w, Init(w), init)
      case None => PutBack(w, init)
      case Some(s) =>
        PutBack(w, init) + PutsBack(w, RepliesNow(w, actions, s, a), s, a)
  }

  lemma {:induction false} QueueStep(w: Workload, s: State, a: Action, replies: nat)
    requires Enabled(w, s, a) && (a.Succeed? ==> replies == s.inputs[s.running[a.i]].finished + 1)
    ensures s.queue + PutsBack(w, replies, s, a) == Takes(s, a) + Apply(w, s, a).queue
  {
    if a.Issue? {
      assert s.queue == [s.queue[0]] + s.queue[1..];
    }
  }

  lemma {:induction false} QueueRun(w: Workload, actions: seq<Action>, s: State)
    requires After(w, Init(w), actions) == Some(s)
    ensures Taken(w, actions) + s.queue == Identity(|w.turns|) + PutBack(w, actions)
  {
    if actions == [] {
      assert [] + s.queue == Identity(|w.turns|) + [];
    } else {
      var init, a := actions[..|actions| - 1], actions[|actions| - 1];
      var before := After(w, Init(w), init).value;
      QueueRun(w, init, before);
      var replies := RepliesNow(w, actions, before, a);
      if a.Succeed? {
        RepliesFinished(w, actions, before);
      }
      QueueStep(w, before, a, replies);
      Regroup(Taken(w, init), Takes(before, a), before.queue, s.queue, PutsBack(w, replies, before, a));
      ConcatAssoc(Identity(|w.turns|), PutBack(w, init), PutsBack(w, replies, before, a));
    }
  }

  /** The replies to the conversation that a step answers, itself included. */
  function RepliesNow(w: Workload, actions: seq<Action>, s: State, a: Action): nat {
    if a.Succeed? && a.i < |s.running| then |Replies(w, actions, s.running[a.i])| else 0
  }

  lemma {:induction false} RepliesFinished(w: Workload, actions: seq<Action>, before: State)
    requires actions != [] && After(w, Init(w), actions[..|actions| - 1]) == Some(before)
    requires Enabled(w, before, actions[|actions| - 1]) && actions[|actions| - 1].Succeed?
    ensures var a := actions[|actions| - 1];
            RepliesNow(w, actions, before, a) == before.inputs[before.running[a.i]].finished + 1
  {
    var a := actions[|actions| - 1];
    ToldRun(w, actions[..|actions| - 1], before);
    assert Told(w, actions[..|actions| - 1], before, before.running[a.i]);
  }

  /** Conversations are taken in the order in which they were loaded and then in which they were put back, one for
      every request issued. */
  lemma {:induction false} TakenInTurn(w: Workload, actions: seq<Action>, s: State)
    requires After(w, Init(w), actions) == Some(s)
    ensures Taken(w, actions) <= Identity(|w.turns|) + PutBack(w, actions)
    ensures |Taken(w, actions)| == s.issued
  {
    QueueRun(w, actions, s);
    IssuedRun(w, actions, s);
  }

  lemma {:induction false} IssuedRun(w: Workload, actions: seq<Action>, s: State)
    requires After(w, Init(w), actions) == Some(s)
    ensures |Taken(w, actions)| == s.issued
  {
    if actions != [] {
      IssuedRun(w, actions[..|actions| - 1], After(w, Init(w), actions[..|actions| - 1]).value);
    }
  }
}
