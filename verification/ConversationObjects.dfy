/** The benchmark's queue and request objects, updated in place.  Each method runs without awaiting anything
    in between, so a run of the program is a sequence of these calls. */
module ConversationObjects {
  import opened Seqs
  import opened Conversations

  class Benchmark {
    const workload: Workload
    var queue: seq<nat>
    var waiting: seq<nat>
    var running: seq<nat>
    var finishedPrompts: seq<nat>
    var prevMessages: seq<seq<Message>>
    var issued: nat
    var aborted: bool
    ghost var log: seq<Sent>
    ghost var crashed: set<nat>
    ghost var dropped: set<nat>

    ghost predicate Valid()
      reads this
    {
      |finishedPrompts| == |prevMessages| == |workload.turns|
    }

    ghost function Inputs(n: nat): (inputs: seq<Input>)
      requires n <= |finishedPrompts| && n <= |prevMessages|
      reads this
      ensures |inputs| == n
      ensures forall c :: 0 <= c < n ==> inputs[c] == Input(finishedPrompts[c], prevMessages[c])
    {
      if n == 0 then [] else Inputs(n - 1) + [Input(finishedPrompts[n - 1], prevMessages[n - 1])]
    }

    ghost function View(): State
      requires Valid()
      reads this
    {
      State(queue, waiting, running, Inputs(|workload.turns|), issued, aborted, log, crashed, dropped)
    }

    /** The loading loop: every conversation goes into the queue once, in order. */
    constructor (w: Workload)
      ensures workload == w && Valid() && View() == Init(w)
    {
      workload := w;
      queue, waiting, running := [], [], [];
      finishedPrompts, prevMessages := [], [];
      issued, aborted, log, crashed, dropped := 0, false, [], {}, {};
      new;
      for c := 0 to |w.turns|
        invariant workload == w && waiting == running == [] && log == [] && crashed == dropped == {} && issued == 0
        invariant !aborted
        invariant |finishedPrompts| == |prevMessages| == c
        invariant queue == Identity(c) && Inputs(c) == Fresh(c)
      {
        ghost var before := Inputs(c);
        queue := queue + [c];
        finishedPrompts := finishedPrompts + [0];
        prevMessages := prevMessages + [[]];
        assert Inputs(c) == before;
      }
    }

    /** One pass through `get_requests`: starts a request, waits on, or gives up when the wait has expired. */
    method GetRequest(expired: bool) returns (got: bool)
      requires Valid()
      modifies this`queue, this`waiting, this`issued, this`aborted
      ensures got == Enabled(workload, old(View()), Issue)
      ensures got ==> View() == DoIssue(old(View()))
      ensures !got ==> View() == if expired && Enabled(workload, old(View()), Abort)
                                 then old(View()).(aborted := true) else old(View())
    {
      got := false;
      if !aborted && issued < Total(workload) {
        if queue != [] {
          got := true;
          waiting := waiting + [queue[0]];
          queue := queue[1..];
          issued := issued + 1;
        } else if expired {
          aborted := true;
        }
      }
      assert Inputs(|workload.turns|) == old(Inputs(|workload.turns|));
    }

    /** A task up to its request: the user's message is appended and everything so far is posted. */
    method BeginRequest(i: nat) returns (ok: bool)
      requires Valid() && i < |waiting| && waiting[i] < |workload.turns|
      modifies this
      ensures Valid()
      ensures ok == (old(finishedPrompts[waiting[i]]) < |workload.turns[old(waiting[i])]|)
      ensures View() == if ok then DoStart(workload, old(View()), i) else DoCrash(old(View()), i)
    {
      var c := waiting[i];
      waiting := waiting[..i] + waiting[i + 1..];
      var turn := finishedPrompts[c];
      ok := turn < |workload.turns[c]|;
      if !ok {
        crashed := crashed + {c};
        assert Inputs(|workload.turns|) == old(Inputs(|workload.turns|));
        return;
      }
      prevMessages := prevMessages[c := prevMessages[c] + [User(workload.turns[c][turn])]];
      running := running + [c];
      log := log + [Sent(c, turn, prevMessages[c])];
      assert Inputs(|workload.turns|)
          == old(Inputs(|workload.turns|))[c := Input(turn, prevMessages[c])];
    }

    /** A task after a successful reply: the conversation goes back to the queue if turns remain. */
    method EndRequest(i: nat, reply: string)
      requires Valid() && i < |running| && running[i] < |workload.turns|
      modifies this
      ensures Valid() && View() == DoSucceed(workload, old(View()), i, reply)
    {
      var c := running[i];
      running := running[..i] + running[i + 1..];
      var next := finishedPrompts[c] + 1;
      prevMessages := prevMessages[c := prevMessages[c] + [Assistant(reply)]];
      finishedPrompts := finishedPrompts[c := next];
      if next < |workload.turns[c]| {
        queue := queue + [c];
      }
      assert Inputs(|workload.turns|)
          == old(Inputs(|workload.turns|))[c := Input(next, prevMessages[c])];
    }

    /** A task whose request failed: the conversation is not put back. */
    method FailRequest(i: nat)
      requires Valid() && i < |running|
      modifies this`running, this`dropped
      ensures View() == DoFail(old(View()), i)
    {
      dropped := dropped + {running[i]};
      running := running[..i] + running[i + 1..];
      assert Inputs(|workload.turns|) == old(Inputs(|workload.turns|));
    }
  }
}
