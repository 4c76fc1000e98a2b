/** Choosing conversations for the benchmark: conversations that survive the length limits are taken in order,
    over and over, until there are enough. */
module ChatFilter {
  import opened Seqs

  datatype Turn = Turn(prompt: string, completion: string)

  datatype Kept = Kept(prompt: string, promptLen: nat, outputLen: int)

  /** The tokenizer gives lengths only; a limit that is not set does not apply. */
  datatype Limits = Limits(minPrompt: Option<int>, minOutput: Option<int>, maxPrompt: Option<int>,
                           maxOutput: Option<int>, fixedOutput: Option<int>, tokens: string -> nat)

  function OutputLen(lim: Limits, t: Turn): int {
    if lim.fixedOutput.Some? then lim.fixedOutput.value else lim.tokens(t.completion)
  }

  predicate Pruned(lim: Limits, t: Turn) {
    || (lim.minPrompt.Some? && lim.tokens(t.prompt) < lim.minPrompt.value)
    || (lim.minOutput.Some? && OutputLen(lim, t) < lim.minOutput.value)
    || (lim.maxPrompt.Some? && lim.tokens(t.prompt) > lim.maxPrompt.value)
    || (lim.maxOutput.Some? && OutputLen(lim, t) > lim.maxOutput.value)
  }

  /** The turns of a conversation that are kept. */
  function Processed(lim: Limits, conversation: seq<Turn>): seq<Kept> {
    if conversation == [] then []
    else
      var init, t := conversation[..|conversation| - 1], conversation[|conversation| - 1];
      Processed(lim, init) + (if Pruned(lim, t) then [] else [Kept(t.prompt, lim.tokens(t.prompt), OutputLen(lim, t))])
  }

  /** The conversations of which something is kept. */
  function Survivors(lim: Limits, dataset: seq<seq<Turn>>): (s: seq<seq<Kept>>)
    ensures [] !in s
  {
    if dataset == [] then []
    else
      var p := Processed(lim, dataset[|dataset| - 1]);
      Survivors(lim, dataset[..|dataset| - 1]) + (if p == [] then [] else [p])
  }

  // ----- What is kept -----

  /** Every limit that is set is met. */
  predicate Within(lim: Limits, promptLen: int, outputLen: int) {
    && (lim.minPrompt.Some? ==> lim.minPrompt.value <= promptLen)
    && (lim.maxPrompt.Some? ==> promptLen <= lim.maxPrompt.value)
    && (lim.minOutput.Some? ==> lim.minOutput.value <= outputLen)
    && (lim.maxOutput.Some? ==> outputLen <= lim.maxOutput.value)
  }

  /** The length of the reply to ask for: the fixed one, or that of the recorded completion. */
  predicate AsksFor(lim: Limits, t: Turn, outputLen: int) {
    if lim.fixedOutput.Some? then outputLen == lim.fixedOutput.value else outputLen == lim.tokens(t.completion)
  }

  /** Turn `t` is within the limits. */
  ghost predicate Fits(lim: Limits, t: Turn) {
    exists outputLen :: AsksFor(lim, t, outputLen) && Within(lim, lim.tokens(t.prompt), outputLen)
  }

  lemma {:induction false} PrunedUnlessFits(lim: Limits, t: Turn)
    ensures Pruned(lim, t) <==> !Fits(lim, t)
    ensures AsksFor(lim, t, OutputLen(lim, t))
  {
    assert AsksFor(lim, t, OutputLen(lim, t));
  }

  ghost predicate FitsAt(lim: Limits, conversation: seq<Turn>, j: nat) {
    j < |conversation| && Fits(lim, conversation[j])
  }

  lemma {:induction false} FitsBefore(lim: Limits, conversation: seq<Turn>, j: nat)
    requires conversation != []
    ensures FitsAt(lim, conversation, j) <==>
            || FitsAt(lim, conversation[..|conversation| - 1], j)
            || (j == |conversation| - 1 && FitsAt(lim, conversation, j))
  {
  }

  /** The turn is kept with its own prompt, that prompt's length and the length to ask for. */
  predicate KeptAs(lim: Limits, t: Turn, kept: Kept) {
    kept.prompt == t.prompt && kept.promptLen == lim.tokens(t.prompt) && AsksFor(lim, t, kept.outputLen)
  }

  /** Exactly the turns within the limits are kept, in order, each with its own prompt and lengths. */
  lemma {:induction false} KeptTurns(lim: Limits, conversation: seq<Turn>) returns (idx: seq<nat>)
    ensures Ascending(idx) && |idx| == |Processed(lim, conversation)|
    ensures forall j: nat :: j in idx <==> FitsAt(lim, conversation, j)
    ensures forall k :: 0 <= k < |idx| ==>
              idx[k] < |conversation| && KeptAs(lim, conversation[idx[k]], Processed(lim, conversation)[k])
  {
    if conversation == [] {
      idx := [];
    } else {
      var n := |conversation| - 1;
      var init := conversation[..n];
      idx := KeptTurns(lim, init);
      forall j: nat
        ensures FitsAt(lim, conversation, j) <==> FitsAt(lim, init, j) || (j == n && FitsAt(lim, conversation, n))
      {
        FitsBefore(lim, conversation, j);
      }
      PrunedUnlessFits(lim, conversation[n]);
      if !Pruned(lim, conversation[n]) {
        AppendPosition(idx, n);
        idx := idx + [n];
      }
    }
  }

  predicate Remains(lim: Limits, dataset: seq<seq<Turn>>, i: nat) {
    i < |dataset| && Processed(lim, dataset[i]) != []
  }

  /** The survivors are the conversations of which a turn remains, in order. */
  lemma {:induction false} SurvivingConversations(lim: Limits, dataset: seq<seq<Turn>>) returns (idx: seq<nat>)
    ensures Ascending(idx) && |idx| == |Survivors(lim, dataset)|
    ensures forall i: nat :: i in idx <==> Remains(lim, dataset, i)
    ensures forall k :: 0 <= k < |idx| ==>
              idx[k] < |dataset| && Survivors(lim, dataset)[k] == Processed(lim, dataset[idx[k]])
  {
    if dataset == [] {
      idx := [];
    } else {
      var n := |dataset| - 1;
      var init := dataset[..n];
      idx := SurvivingConversations(lim, init);
      forall i: nat
        ensures Remains(lim, dataset, i) <==> Remains(lim, init, i) || (i == n && Remains(lim, dataset, n))
      {
        RemainsBefore(lim, dataset, i);
      }
      if Remains(lim, dataset, n) {
        AppendPosition(idx, n);
        idx := idx + [n];
      }
    }
  }

  lemma {:induction false} RemainsBefore(lim: Limits, dataset: seq<seq<Turn>>, i: nat)
    requires dataset != []
    ensures Remains(lim, dataset, i) <==>
            Remains(lim, dataset[..|dataset| - 1], i) || (i == |dataset| - 1 && Remains(lim, dataset, i))
  {
  }

  // ----- Endless repetition -----

  /** The first `n` items of `s` repeated without end. */
  function Cycle<T>(s: seq<T>, n: nat): seq<T>
    requires s != [] || n == 0
    decreases n
  {
    if n <= |s| then s[..n] else s + Cycle(s, n - |s|)
  }

  lemma {:induction false} CycleLength<T>(s: seq<T>, n: nat)
    requires s != [] || n == 0
    ensures |Cycle(s, n)| == n
    decreases n
  {
    if n > |s| {
      CycleLength(s, n - |s|);
    }
  }

  lemma {:induction false} RemainderStep(k: nat, m: nat)
    requires 0 < m <= k
    ensures (k - m) % m == k % m
  {
    var d := k / m - (k - m) / m - 1;
    MultipleBelow(m, d, (k - m) % m - k % m);
  }

  /** Zero is the only multiple of `m` that is smaller than `m` either way. */
  lemma {:induction false} MultipleBelow(m: int, d: int, r: int)
    requires m * d == r && -m < r < m
    ensures r == 0
  {
  }

  /** The remainder, by taking rounds away. */
  function Wrap(k: nat, m: nat): (r: nat)
    requires m > 0
    ensures r < m
  {
    if k < m then k else Wrap(k - m, m)
  }

  lemma {:induction false} WrapIsRemainder(k: nat, m: nat)
    requires m > 0
    ensures Wrap(k, m) == k % m
    decreases k
  {
    if k >= m {
      WrapIsRemainder(k - m, m);
      RemainderStep(k, m);
    }
  }

  lemma {:induction false} CycleWraps<T>(s: seq<T>, n: nat, k: nat)
    requires s != [] && k < n
    ensures |Cycle(s, n)| == n && Cycle(s, n)[k] == s[Wrap(k, |s|)]
    decreases n
  {
    CycleLength(s, n);
    if k >= |s| {
      CycleWraps(s, n - |s|, k - |s|);
    }
  }

  lemma {:induction false} CycleAt<T>(s: seq<T>, n: nat, k: nat)
    requires s != [] && k < n
    ensures |Cycle(s, n)| == n && Cycle(s, n)[k] == s[k % |s|]
  {
    CycleWraps(s, n, k);
    WrapIsRemainder(k, |s|);
  }

  lemma {:induction false} CycleMembers<T>(s: seq<T>, n: nat, x: T)
    requires s != [] || n == 0
    ensures x in Cycle(s, n) ==> x in s
    decreases n
  {
    if n > |s| {
      CycleMembers(s, n - |s|, x);
    }
  }

  /** One round of the cycle, or what is wanted of it, and then the rest. */
  lemma {:induction false} CycleRound<T>(s: seq<T>, n: nat, round: seq<T>)
    requires s != [] && round == if |s| <= n then s else s[..n]
    ensures Cycle(s, n) == round + Cycle(s, n - |round|)
  {
    if |s| > n {
      assert Cycle(s, 0) == [];
    } else if |s| == n {
      assert Cycle(s, 0) == [];
      assert s[..n] == s;
    }
  }

  // ----- One pass over the data set -----

  function Max0(n: int): nat {
    if n < 0 then 0 else n
  }

  /** What the inner loop adds to `l` conversations: survivors in order, as many as are still wanted. */
  function PassAdds(lim: Limits, dataset: seq<seq<Turn>>, l: nat, wanted: int): seq<seq<Kept>>
    requires l <= Max0(wanted)
  {
    var s := Survivors(lim, dataset);
    if |s| <= Max0(wanted) - l then s else s[..Max0(wanted) - l]
  }

  /** A pass over the data set gets anywhere exactly when some conversation survives, so the outer loop ends
      exactly then (or when nothing is wanted). */
  lemma {:induction false} PassProgress(lim: Limits, dataset: seq<seq<Turn>>, l: nat, wanted: int)
    requires l < wanted
    ensures PassAdds(lim, dataset, l, wanted) != [] <==> Survivors(lim, dataset) != []
    ensures Survivors(lim, dataset) != [] <==> SomeLive(lim, dataset)
  {
    SurvivorsExist(lim, dataset);
  }

  /** Something of the conversation is kept. */
  ghost predicate Lives(lim: Limits, conversation: seq<Turn>) {
    exists j :: 0 <= j < |conversation| && !Pruned(lim, conversation[j])
  }

  lemma {:induction false} ProcessedExist(lim: Limits, conversation: seq<Turn>)
    ensures Processed(lim, conversation) != [] <==> Lives(lim, conversation)
  {
    if conversation != [] {
      ProcessedExist(lim, conversation[..|conversation| - 1]);
    }
  }

  ghost predicate SomeLive(lim: Limits, dataset: seq<seq<Turn>>) {
    exists i :: 0 <= i < |dataset| && Lives(lim, dataset[i])
  }

  lemma {:induction false} SomeLiveSnoc(lim: Limits, dataset: seq<seq<Turn>>)
    requires dataset != []
    ensures SomeLive(lim, dataset) <==>
            SomeLive(lim, dataset[..|dataset| - 1]) || Lives(lim, dataset[|dataset| - 1])
  {
    var init := dataset[..|dataset| - 1];
    if i :| 0 <= i < |init| && Lives(lim, init[i]) {
      assert Lives(lim, dataset[i]);
    }
  }

  lemma {:induction false} SurvivorsExist(lim: Limits, dataset: seq<seq<Turn>>)
    ensures Survivors(lim, dataset) != [] <==> SomeLive(lim, dataset)
  {
    if dataset != [] {
      SurvivorsExist(lim, dataset[..|dataset| - 1]);
      ProcessedExist(lim, dataset[|dataset| - 1]);
      SomeLiveSnoc(lim, dataset);
    }
  }

  /** The loop over the turns of a conversation. */
  method Process(lim: Limits, conversation: seq<Turn>) returns (processed: seq<Kept>)
    ensures processed == Processed(lim, conversation)
  {
    processed := [];
    for j := 0 to |conversation|
      invariant processed == Processed(lim, conversation[..j])
    {
      assert conversation[..j + 1][..j] == conversation[..j];
      var t := conversation[j];
      if Pruned(lim, t) {
        continue;
      }
      processed := processed + [Kept(t.prompt, lim.tokens(t.prompt), OutputLen(lim, t))];
    }
    assert conversation[..|conversation|] == conversation;
  }

  /** One pass of the inner loop. */
  method Pass(lim: Limits, dataset: seq<seq<Turn>>, l: nat, wanted: int) returns (added: seq<seq<Kept>>)
    requires l < wanted
    ensures added == PassAdds(lim, dataset, l, wanted)
  {
    added := [];
    for i := 0 to |dataset|
      invariant added == Survivors(lim, dataset[..i]) && l + |added| <= wanted
    {
      if l + |added| == wanted {
        SurvivorsGrow(lim, dataset, i);
        return;
      }
      assert dataset[..i + 1][..i] == dataset[..i];
      var processed := Process(lim, dataset[i]);
      if |processed| != 0 {
        added := added + [processed];
      }
    }
    assert dataset[..|dataset|] == dataset;
  }

  lemma {:induction false} SurvivorsGrow(lim: Limits, dataset: seq<seq<Turn>>, i: nat)
    requires i <= |dataset|
    ensures Survivors(lim, dataset[..i]) <= Survivors(lim, dataset)
    decreases |dataset| - i
  {
    if i == |dataset| {
      assert dataset[..i] == dataset;
    } else {
      SurvivorsGrow(lim, dataset, i + 1);
      assert dataset[..i + 1][..i] == dataset[..i];
    }
  }

  /** `common_filter_chat`: exactly the first `wanted` items of the endless repetition of the survivors. */
  method CommonFilterChat(lim: Limits, dataset: seq<seq<Turn>>, wanted: int) returns (filtered: seq<seq<Kept>>)
    requires wanted <= 0 || Survivors(lim, dataset) != []  // the program does not terminate otherwise
    ensures |filtered| == Max0(wanted)
    ensures forall k :: 0 <= k < |filtered| ==>
              filtered[k] == Survivors(lim, dataset)[k % |Survivors(lim, dataset)|]
    ensures filtered == Cycle(Survivors(lim, dataset), Max0(wanted))
    ensures [] !in filtered
  {
    filtered := [];
    ghost var s, n := Survivors(lim, dataset), Max0(wanted);
    while |filtered| < wanted
      invariant |filtered| <= n && filtered + Cycle(s, n - |filtered|) == Cycle(s, n)
      decreases wanted - |filtered|
    {
      var added := Pass(lim, dataset, |filtered|, wanted);
      RoundAdded(filtered, s, n, added);
      filtered := filtered + added;
    }
    assert filtered + [] == filtered;
    CycleLength(s, n);
    CycleMembers(s, n, []);
    CycleItems(s, n);
  }

  lemma {:induction false} RoundAdded<T>(filtered: seq<T>, s: seq<T>, n: nat, added: seq<T>)
    requires s != [] && |filtered| <= n && filtered + Cycle(s, n - |filtered|) == Cycle(s, n)
    requires added == if |s| <= n - |filtered| then s else s[..n - |filtered|]
    ensures |filtered + added| <= n && (filtered + added) + Cycle(s, n - |filtered + added|) == Cycle(s, n)
  {
    CycleRound(s, n - |filtered|, added);
    ConcatAssoc(filtered, added, Cycle(s, n - |filtered| - |added|));
  }

  lemma {:induction false} CycleItems<T>(s: seq<T>, n: nat)
    requires s != [] || n == 0
    ensures |Cycle(s, n)| == n && forall k :: 0 <= k < n ==> Cycle(s, n)[k] == s[k % |s|]
  {
    CycleLength(s, n);
    forall k | 0 <= k < n ensures Cycle(s, n)[k] == s[k % |s|] {
      CycleAt(s, n, k);
    }
  }

  // ----- Prompts of an exact length -----

  function Repeat<T>(s: seq<T>, k: nat): seq<T> {
    if k == 0 then [] else s + Repeat(s, k - 1)
  }

  lemma {:induction false} RepeatIsCycle<T>(s: seq<T>, k: nat, n: nat)
    requires s != [] && n <= k * |s|
    ensures |Repeat(s, k)| == k * |s| && Repeat(s, k)[..n] == Cycle(s, n)
    decreases k
  {
    if k > 0 {
      assert k * |s| == |s| + (k - 1) * |s|;
      if n > |s| {
        RepeatIsCycle(s, k - 1, n - |s|);
      } else {
        RepeatIsCycle(s, k - 1, 0);
      }
    }
  }

  /** The repeat-or-truncate step: the tokens, repeated as often as needed and cut to exactly `n`. */
  function FitTokens(tokens: seq<int>, n: nat): (r: seq<int>)
    requires tokens != []
  {
    if |tokens| > n then tokens[..n]
    else
      var ratio := (n + |tokens| - 1) / |tokens|;
      RepeatIsCycle(tokens, ratio, n);
      Repeat(tokens, ratio)[..n]
  }

  /** Either way the prompt has exactly the wanted length and cycles through the tokens. */
  lemma {:induction false} FitTokensCycles(tokens: seq<int>, n: nat)
    requires tokens != []
    ensures FitTokens(tokens, n) == Cycle(tokens, n) && |FitTokens(tokens, n)| == n
  {
    CycleLength(tokens, n);
    if |tokens| <= n {
      RepeatIsCycle(tokens, (n + |tokens| - 1) / |tokens|, n);
    }
  }
}
