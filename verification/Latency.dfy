/** Streaming latencies: the delay to the first token and one share of the waiting time for every later token,
    over exact reals. */
module Latency {
  import opened Seqs

  /** A streamed chunk: with text, its time of arrival and the number of tokens so far; or anything else. */
  datatype Chunk = Other | Text(at: real, tokens: int)

  datatype Meter = Meter(ttft: real, latest: real, counted: int, itl: seq<real>)

  function SumR(s: seq<real>): real {
    if s == [] then 0.0 else SumR(s[..|s| - 1]) + s[|s| - 1]
  }

  /** `[x] * n`, which is empty for a negative `n`. */
  function Times(x: real, n: int): (s: seq<real>)
    ensures |s| == if n < 0 then 0 else n
  {
    if n <= 0 then [] else Replicate(x, n)
  }

  function Start(start: real): Meter {
    Meter(0.0, start, 0, [])
  }

  /** One pass of the chunk loop. */
  function Step(start: real, m: Meter, c: Chunk): Meter {
    if c.Other? then m
    else if m.ttft == 0.0 then m.(ttft := c.at - start, latest := c.at, counted := c.tokens)
    else if c.tokens == m.counted then m
    else
      var more := c.tokens - m.counted;
      m.(latest := c.at, counted := c.tokens, itl := m.itl + Times((c.at - m.latest) / more as real, more))
  }

  function Run(start: real, chunks: seq<Chunk>): Meter {
    if chunks == [] then Start(start)
    else Step(start, Run(start, chunks[..|chunks| - 1]), chunks[|chunks| - 1])
  }

  /** The chunk loop on its own variables. */
  method Account(start: real, chunks: seq<Chunk>) returns (ttft: real, itl: seq<real>, outputLen: int)
    ensures var m := Run(start, chunks); ttft == m.ttft && itl == m.itl && outputLen == m.counted
  {
    ttft, itl, outputLen := 0.0, [], 0;
    var latest, counted := start, 0;
    for i := 0 to |chunks|
      invariant Run(start, chunks[..i]) == Meter(ttft, latest, counted, itl) && outputLen == counted
    {
      assert chunks[..i + 1][..i] == chunks[..i];
      if chunks[i].Other? {
        continue;
      }
      var at, current := chunks[i].at, chunks[i].tokens;
      if ttft == 0.0 {
        ttft := at - start;
      } else {
        var more := current - counted;
        if more == 0 {
          continue;
        }
        itl := itl + Times((at - latest) / more as real, more);
      }
      latest, counted, outputLen := at, current, current;
    }
    assert chunks[..|chunks|] == chunks;
  }

  // ----- Conservation of time -----

  /** The chunk reports fewer tokens than were counted. */
  predicate Shrinks(m: Meter, c: Chunk) {
    c.Text? && m.ttft != 0.0 && c.tokens < m.counted
  }

  /** The waiting time that goes to no token, because the count shrank. */
  function Lost(start: real, chunks: seq<Chunk>): real {
    if chunks == [] then 0.0
    else
      var init, c := chunks[..|chunks| - 1], chunks[|chunks| - 1];
      var m := Run(start, init);
      Lost(start, init) + (if Shrinks(m, c) then c.at - m.latest else 0.0)
  }

  lemma {:induction false} SumRConcat(a: seq<real>, b: seq<real>)
    ensures SumR(a + b) == SumR(a) + SumR(b)
  {
    if b == [] {
      assert a + b == a;
    } else {
      assert (a + b)[..|a + b| - 1] == a + b[..|b| - 1];
      SumRConcat(a, b[..|b| - 1]);
    }
  }

  lemma {:induction false} SumReplicate(x: real, n: nat)
    ensures SumR(Replicate(x, n)) == n as real * x
  {
    if n > 0 {
      SumReplicate(x, n - 1);
      assert Replicate(x, n)[..n - 1] == Replicate(x, n - 1);
      OneMore(x, n);
    }
  }

  lemma {:induction false} OneMore(x: real, n: nat)
    requires n > 0
    ensures (n - 1) as real * x + x == n as real * x
  {
  }

  /** Equal shares of a gap add up to the gap. */
  lemma {:induction false} SharesAddUp(gap: real, n: nat)
    requires n > 0
    ensures SumR(Times(gap / n as real, n)) == gap
  {
    SumReplicate(gap / n as real, n);
  }

  /** The first-token delay, the shares and the lost time add up to the time of the last counted chunk. */
  lemma {:induction false} TimeIsConserved(start: real, chunks: seq<Chunk>)
    ensures var m := Run(start, chunks); m.ttft + SumR(m.itl) + Lost(start, chunks) == m.latest - start
    ensures var m := Run(start, chunks); m.ttft == 0.0 ==> m.itl == [] && m.latest == start
    ensures Run(start, chunks).ttft == 0.0 ==> Lost(start, chunks) == 0.0
  {
    if chunks != [] {
      var init, c := chunks[..|chunks| - 1], chunks[|chunks| - 1];
      TimeIsConserved(start, init);
      var m := Run(start, init);
      if c.Text? && m.ttft != 0.0 && c.tokens != m.counted {
        var more := c.tokens - m.counted;
        SumRConcat(m.itl, Times((c.at - m.latest) / more as real, more));
        if more > 0 {
          SharesAddUp(c.at - m.latest, more);
        }
      }
    }
  }

  /** Chunks arrive in order, none before the request. */
  ghost predicate Ordered(start: real, chunks: seq<Chunk>) {
    && (forall i :: 0 <= i < |chunks| && chunks[i].Text? ==> start <= chunks[i].at)
    && (forall i, j :: 0 <= i < j < |chunks| && chunks[i].Text? && chunks[j].Text? ==> chunks[i].at <= chunks[j].at)
  }

  // ----- The same, read off the chunks -----

  /** A chunk with text by which the first-token delay has been set. */
  ghost predicate Settled(start: real, chunks: seq<Chunk>, j: nat) {
    j < |chunks| && chunks[j].Text? && exists k :: 0 <= k <= j && chunks[k].Text? && chunks[k].at != start
  }

  /** From chunk `j` on, every chunk with text reports as many tokens as chunk `j`. */
  ghost predicate Level(chunks: seq<Chunk>, j: nat) {
    j < |chunks| && chunks[j].Text?
    && forall m :: j < m < |chunks| && chunks[m].Text? ==> chunks[m].tokens == chunks[j].tokens
  }

  /** The count stays where it is from chunk `j` on and then falls at chunk `i`. */
  ghost predicate Falls(start: real, chunks: seq<Chunk>, j: nat, i: nat) {
    && j < i < |chunks| && chunks[i].Text? && Settled(start, chunks[..i], j) && Level(chunks[..i], j)
    && chunks[i].tokens < chunks[j].tokens
  }

  /** Somewhere the count falls, after some waiting. */
  ghost predicate LosesTime(start: real, chunks: seq<Chunk>) {
    exists j: nat, i: nat :: Falls(start, chunks, j, i) && chunks[j].at < chunks[i].at
  }

  ghost predicate EverFalls(start: real, chunks: seq<Chunk>) {
    exists j: nat, i: nat :: Falls(start, chunks, j, i)
  }

  lemma {:induction false} DelaySet(start: real, chunks: seq<Chunk>)
    ensures Run(start, chunks).ttft != 0.0 <==>
            exists k :: 0 <= k < |chunks| && chunks[k].Text? && chunks[k].at != start
  {
    if chunks != [] {
      DelaySet(start, chunks[..|chunks| - 1]);
    }
  }

  lemma {:induction false} SettledDelay(start: real, chunks: seq<Chunk>, j: nat)
    requires Settled(start, chunks, j)
    ensures Run(start, chunks).ttft != 0.0
  {
    DelaySet(start, chunks);
  }

  lemma {:induction false} LevelCount(start: real, chunks: seq<Chunk>, j: nat)
    requires Level(chunks, j)
    ensures Run(start, chunks).counted == chunks[j].tokens
  {
    if j < |chunks| - 1 {
      LevelCount(start, chunks[..|chunks| - 1], j);
    }
  }

  /** The chunk that was counted last. */
  lemma {:induction false} LastCounted(start: real, chunks: seq<Chunk>) returns (j: nat)
    requires Run(start, chunks).ttft != 0.0
    ensures Settled(start, chunks, j) && Level(chunks, j)
    ensures chunks[j].at == Run(start, chunks).latest && chunks[j].tokens == Run(start, chunks).counted
  {
    var init, c := chunks[..|chunks| - 1], chunks[|chunks| - 1];
    var before := Run(start, init);
    if c.Text? && (before.ttft == 0.0 || c.tokens != before.counted) {
      j := |chunks| - 1;
      DelaySet(start, chunks);
    } else {
      j := LastCounted(start, init);
      var k :| 0 <= k <= j && init[k].Text? && init[k].at != start;
      assert chunks[k] == init[k];
    }
  }

  lemma {:induction false} LatestAtMost(start: real, chunks: seq<Chunk>, j: nat)
    requires Ordered(start, chunks) && Settled(start, chunks, j) && Level(chunks, j)
    ensures Run(start, chunks).latest <= chunks[j].at
  {
    var init, c := chunks[..|chunks| - 1], chunks[|chunks| - 1];
    SplitLast(chunks);
    if j < |chunks| - 1 {
      var k :| 0 <= k <= j && chunks[k].Text? && chunks[k].at != start;
      assert init[k] == chunks[k];
      LatestAtMost(start, init, j);
      SettledDelay(start, init, j);
      LevelCount(start, init, j);
    } else {
      LatestBefore(start, init, c);
    }
  }

  /** The meter sees the count shrink exactly where it falls. */
  lemma {:induction false} ShrinksWhereItFalls(start: real, chunks: seq<Chunk>, i: nat)
    requires i < |chunks|
    ensures Shrinks(Run(start, chunks[..i]), chunks[i]) <==> exists j: nat :: Falls(start, chunks, j, i)
  {
    var before := chunks[..i];
    if Shrinks(Run(start, before), chunks[i]) {
      var j := LastCounted(start, before);
      assert Falls(start, chunks, j, i);
    }
    if j: nat :| Falls(start, chunks, j, i) {
      SettledDelay(start, before, j);
      LevelCount(start, before, j);
    }
  }

  lemma {:induction false} LosesWhereItFalls(start: real, chunks: seq<Chunk>, i: nat)
    requires Ordered(start, chunks) && i < |chunks|
    ensures LosesAt(start, chunks, i) <==>
            exists j: nat :: Falls(start, chunks, j, i) && chunks[j].at < chunks[i].at
  {
    var before := chunks[..i];
    ShrinksWhereItFalls(start, chunks, i);
    if LosesAt(start, chunks, i) {
      var j := LastCounted(start, before);
      assert Falls(start, chunks, j, i) && chunks[j].at < chunks[i].at;
    }
    if j: nat :| Falls(start, chunks, j, i) && chunks[j].at < chunks[i].at {
      LatestAtMost(start, before, j);
    }
  }

  /** The meter loses time at chunk `i`. */
  predicate LosesAt(start: real, chunks: seq<Chunk>, i: nat)
    requires i < |chunks|
  {
    Shrinks(Run(start, chunks[..i]), chunks[i]) && chunks[i].at > Run(start, chunks[..i]).latest
  }

  lemma {:induction false} LatestBefore(start: real, chunks: seq<Chunk>, c: Chunk)
    requires Ordered(start, chunks + [c]) && c.Text?
    ensures Run(start, chunks).latest <= c.at
  {
    var all := chunks + [c];
    assert all[|chunks|] == c;
    if chunks != [] {
      var init, d := chunks[..|chunks| - 1], chunks[|chunks| - 1];
      assert all[|chunks| - 1] == d && all == init + [d] + [c];
      OrderedWithout(start, init, d, c);
      LatestBefore(start, init, c);
    }
  }

  lemma {:induction false} OrderedWithout(start: real, init: seq<Chunk>, d: Chunk, c: Chunk)
    requires Ordered(start, init + [d] + [c])
    ensures Ordered(start, init + [c])
  {
    var all, fewer := init + [d] + [c], init + [c];
    assert all[|init| + 1] == c && forall i :: 0 <= i < |init| ==> all[i] == init[i];
    assert forall i :: 0 <= i < |init| ==> fewer[i] == all[i];
  }

  ghost predicate LosesSomewhere(start: real, chunks: seq<Chunk>) {
    exists i: nat :: i < |chunks| && LosesAt(start, chunks, i)
  }

  lemma {:induction false} LostSign(start: real, chunks: seq<Chunk>)
    requires Ordered(start, chunks)
    ensures Lost(start, chunks) >= 0.0
    ensures Lost(start, chunks) > 0.0 <==> LosesSomewhere(start, chunks)
  {
    if chunks != [] {
      var init, c := chunks[..|chunks| - 1], chunks[|chunks| - 1];
      LostSign(start, init);
      SplitLast(chunks);
      if c.Text? {
        LatestBefore(start, init, c);
      }
      LosesSnoc(start, chunks);
    }
  }

  lemma {:induction false} LosesSnoc(start: real, chunks: seq<Chunk>)
    requires chunks != []
    ensures LosesSomewhere(start, chunks) <==>
            LosesSomewhere(start, chunks[..|chunks| - 1]) || LosesAt(start, chunks, |chunks| - 1)
  {
    var init := chunks[..|chunks| - 1];
    forall i: nat | i < |init| ensures LosesAt(start, chunks, i) <==> LosesAt(start, init, i) {
      assert chunks[..i] == init[..i];
    }
    if LosesSomewhere(start, init) {
      var i: nat :| i < |init| && LosesAt(start, init, i);
      assert LosesAt(start, chunks, i);
    }
  }

  /** The delay and the shares add up exactly when the count never falls after some waiting. */
  lemma {:induction false} LatenciesAddUp(start: real, chunks: seq<Chunk>)
    requires Ordered(start, chunks)
    ensures var m := Run(start, chunks);
            m.ttft + SumR(m.itl) == m.latest - start <==> !LosesTime(start, chunks)
  {
    TimeIsConserved(start, chunks);
    LostSign(start, chunks);
    if j: nat, i: nat :| Falls(start, chunks, j, i) && chunks[j].at < chunks[i].at {
      LosesWhereItFalls(start, chunks, i);
      assert LosesAt(start, chunks, i);
    }
    if i: nat :| i < |chunks| && LosesAt(start, chunks, i) {
      LosesWhereItFalls(start, chunks, i);
    }
  }

  /** A second of waiting that ends in a smaller count is in no share. */
  lemma {:induction false} ShrinkingCountLosesTime()
    ensures var m := Run(0.0, [Text(1.0, 2), Text(2.0, 1)]); m.ttft + SumR(m.itl) == 1.0 && m.latest == 2.0
  {
    var chunks := [Text(1.0, 2), Text(2.0, 1)];
    assert chunks[..1] == [Text(1.0, 2)] && chunks[..1][..0] == [];
    assert Run(0.0, chunks[..1]) == Meter(1.0, 1.0, 2, []);
    assert Run(0.0, chunks) == Meter(1.0, 2.0, 1, []);
  }

  // ----- Conservation of tokens -----

  /** The token count of the chunk that set the first-token delay. */
  function First(start: real, chunks: seq<Chunk>): int {
    if chunks == [] then 0
    else
      var init, c := chunks[..|chunks| - 1], chunks[|chunks| - 1];
      if c.Text? && Run(start, init).ttft == 0.0 then c.tokens else First(start, init)
  }

  /** The tokens by which counts went down. */
  function Shrunk(start: real, chunks: seq<Chunk>): nat {
    if chunks == [] then 0
    else
      var init, c := chunks[..|chunks| - 1], chunks[|chunks| - 1];
      var m := Run(start, init);
      Shrunk(start, init) + (if Shrinks(m, c) then m.counted - c.tokens else 0)
  }

  /** Shares, counted tokens and lost tokens balance. */
  lemma {:induction false} TokensAreConserved(start: real, chunks: seq<Chunk>)
    ensures var m := Run(start, chunks); |m.itl| == m.counted - First(start, chunks) + Shrunk(start, chunks)
    ensures Run(start, chunks).ttft == 0.0 ==>
              && Run(start, chunks).itl == [] && Run(start, chunks).counted == First(start, chunks)
              && Shrunk(start, chunks) == 0
  {
    if chunks != [] {
      TokensAreConserved(start, chunks[..|chunks| - 1]);
    }
  }

  predicate ShrinksAt(start: real, chunks: seq<Chunk>, i: nat)
    requires i < |chunks|
  {
    Shrinks(Run(start, chunks[..i]), chunks[i])
  }

  ghost predicate ShrinksSomewhere(start: real, chunks: seq<Chunk>) {
    exists i: nat :: i < |chunks| && ShrinksAt(start, chunks, i)
  }

  lemma {:induction false} ShrunkSign(start: real, chunks: seq<Chunk>)
    ensures Shrunk(start, chunks) > 0 <==> ShrinksSomewhere(start, chunks)
  {
    if chunks != [] {
      ShrunkSign(start, chunks[..|chunks| - 1]);
      ShrinksSnoc(start, chunks);
    }
  }

  lemma {:induction false} ShrinksSnoc(start: real, chunks: seq<Chunk>)
    requires chunks != []
    ensures ShrinksSomewhere(start, chunks) <==>
            ShrinksSomewhere(start, chunks[..|chunks| - 1]) || ShrinksAt(start, chunks, |chunks| - 1)
  {
    var init := chunks[..|chunks| - 1];
    forall i: nat | i < |init| ensures ShrinksAt(start, chunks, i) <==> ShrinksAt(start, init, i) {
      assert chunks[..i] == init[..i];
    }
    if ShrinksSomewhere(start, init) {
      var i: nat :| i < |init| && ShrinksAt(start, init, i);
      assert ShrinksAt(start, chunks, i);
    }
  }

  /** Every token after the first chunk has one share, exactly when the count never falls. */
  lemma {:induction false} OneShareEach(start: real, chunks: seq<Chunk>)
    ensures var m := Run(start, chunks); |m.itl| >= m.counted - First(start, chunks)
    ensures var m := Run(start, chunks);
            |m.itl| == m.counted - First(start, chunks) <==> !EverFalls(start, chunks)
  {
    TokensAreConserved(start, chunks);
    ShrunkSign(start, chunks);
    if j: nat, i: nat :| Falls(start, chunks, j, i) {
      ShrinksWhereItFalls(start, chunks, i);
      assert ShrinksAt(start, chunks, i);
    }
    if i: nat :| i < |chunks| && ShrinksAt(start, chunks, i) {
      ShrinksWhereItFalls(start, chunks, i);
    }
  }

  /** That chunk is the first with text that did not arrive in no time. */
  lemma {:induction false} FirstIs(start: real, chunks: seq<Chunk>, f: nat)
    requires f < |chunks| && chunks[f].Text? && chunks[f].at != start
    requires forall k :: 0 <= k < f && chunks[k].Text? ==> chunks[k].at == start
    ensures First(start, chunks) == chunks[f].tokens
  {
    var init := chunks[..|chunks| - 1];
    DelaySet(start, init);
    if f < |chunks| - 1 {
      assert init[f] == chunks[f];
      FirstIs(start, init, f);
    }
  }

  lemma {:induction false} DelayIs(start: real, chunks: seq<Chunk>, f: nat)
    requires f < |chunks| && chunks[f].Text? && chunks[f].at != start
    requires forall k :: 0 <= k < f && chunks[k].Text? ==> chunks[k].at == start
    ensures Run(start, chunks).ttft == chunks[f].at - start
  {
    var init := chunks[..|chunks| - 1];
    DelaySet(start, init);
    if f < |chunks| - 1 {
      assert init[f] == chunks[f];
      DelayIs(start, init, f);
    }
  }

  ghost predicate NonDecreasing(chunks: seq<Chunk>) {
    forall i, j :: 0 <= i < j < |chunks| && chunks[i].Text? && chunks[j].Text? ==> chunks[i].tokens <= chunks[j].tokens
  }

  lemma {:induction false} NeverFalls(start: real, chunks: seq<Chunk>)
    requires NonDecreasing(chunks)
    ensures !EverFalls(start, chunks) && !LosesTime(start, chunks)
  {
  }

  /** What is promised of a stream: when counts never go down and the first text takes some time, delay and
      shares add up to the time of the last counted chunk, and there is one share for every token after the
      first chunk's; chunks that add no tokens included. */
  lemma {:induction false} SteadyStream(start: real, chunks: seq<Chunk>, f: nat)
    requires Ordered(start, chunks) && NonDecreasing(chunks)
    requires f < |chunks| && chunks[f].Text? && chunks[f].at > start && forall k :: 0 <= k < f ==> chunks[k].Other?
    ensures var m := Run(start, chunks);
            && m.ttft == chunks[f].at - start && m.ttft + SumR(m.itl) == m.latest - start
            && |m.itl| == m.counted - chunks[f].tokens
  {
    DelayIs(start, chunks, f);
    LatenciesAddUp(start, chunks);
    OneShareEach(start, chunks);
    FirstIs(start, chunks, f);
    NeverFalls(start, chunks);
  }

  // ----- Each share -----

  /** Chunk `j` is the first that reports its number of tokens. */
  ghost predicate Rises(chunks: seq<Chunk>, j: nat) {
    j < |chunks| && chunks[j].Text?
    && forall m :: 0 <= m < j && chunks[m].Text? ==> chunks[m].tokens < chunks[j].tokens
  }

  lemma {:induction false} LatestIsRise(start: real, chunks: seq<Chunk>, f: nat, j: nat)
    requires f <= j < |chunks| && chunks[f].Text? && chunks[f].at != start
    requires (forall k :: 0 <= k < f ==> chunks[k].Other?) && NonDecreasing(chunks)
    requires Rises(chunks, j) && Level(chunks, j)
    ensures Run(start, chunks).latest == chunks[j].at && Run(start, chunks).ttft != 0.0
  {
    var n := |chunks| - 1;
    var init, c := chunks[..n], chunks[n];
    DelaySet(start, chunks);
    if j < n {
      LatestIsRise(start, init, f, j);
      LevelCount(start, init, j);
    } else {
      DelaySet(start, init);
      if f < n {
        assert init[f] == chunks[f];
        var i := LastCounted(start, init);
        assert chunks[i].tokens < c.tokens;
      }
    }
  }

  lemma {:induction false} SharesStay(start: real, chunks: seq<Chunk>, i: nat)
    requires i <= |chunks|
    ensures Run(start, chunks[..i]).itl <= Run(start, chunks).itl
    decreases |chunks|
  {
    if i == |chunks| {
      assert chunks[..i] == chunks;
    } else {
      SharesStay(start, chunks[..|chunks| - 1], i);
      assert chunks[..|chunks| - 1][..i] == chunks[..i];
    }
  }

  lemma {:induction false} EqualShares(gap: real, n: nat, k: nat)
    requires k < n
    ensures IsShare(Times(gap / n as real, n)[k], n, gap)
  {
  }

  /** As many shares as tokens make up the time. */
  predicate IsShare(share: real, tokens: int, time: real) {
    share * tokens as real == time
  }

  /** Every token has its own share of the waiting time: the time between the chunk that first reports it and the
      one that rose to the count before, over the tokens that arrived together. */
  lemma {:induction false} ShareOfToken(start: real, chunks: seq<Chunk>, f: nat, j: nat, i: nat, t: int)
    requires Ordered(start, chunks) && NonDecreasing(chunks)
    requires f < |chunks| && chunks[f].Text? && chunks[f].at > start && forall k :: 0 <= k < f ==> chunks[k].Other?
    requires f <= j < i < |chunks| && chunks[i].Text? && Rises(chunks, j) && Level(chunks[..i], j)
    requires chunks[j].tokens <= t < chunks[i].tokens
    ensures 0 <= t - chunks[f].tokens < |Run(start, chunks).itl|
    ensures IsShare(Run(start, chunks).itl[t - chunks[f].tokens], chunks[i].tokens - chunks[j].tokens,
                    chunks[i].at - chunks[j].at)
  {
    AtTheRise(start, chunks, f, j, i);
    SharesStay(start, chunks, i + 1);
    ShareAt(start, chunks, i, chunks[j].at, chunks[j].tokens, t - chunks[j].tokens);
    var shares, all, n := Run(start, chunks[..i + 1]).itl, Run(start, chunks).itl, t - chunks[f].tokens;
    assert n < |shares| && all[n] == shares[n];
  }

  /** The meter when chunk `i` arrives. */
  lemma {:induction false} AtTheRise(start: real, chunks: seq<Chunk>, f: nat, j: nat, i: nat)
    requires Ordered(start, chunks) && NonDecreasing(chunks)
    requires f < |chunks| && chunks[f].Text? && chunks[f].at > start && forall k :: 0 <= k < f ==> chunks[k].Other?
    requires f <= j < i < |chunks| && Rises(chunks, j) && Level(chunks[..i], j)
    ensures var m := Run(start, chunks[..i]);
            && m.ttft != 0.0 && m.counted == chunks[j].tokens && m.latest == chunks[j].at
            && |m.itl| == chunks[j].tokens - chunks[f].tokens
  {
    var before := chunks[..i];
    assert before[f] == chunks[f] && before[j] == chunks[j];
    SteadyStream(start, before, f);
    LevelCount(start, before, j);
    LatestIsRise(start, before, f, j);
  }

  /** The shares that a rise from `tokens` tokens at time `at` adds. */
  lemma {:induction false} ShareAt(start: real, chunks: seq<Chunk>, i: nat, at: real, tokens: int, k: nat)
    requires i < |chunks| && chunks[i].Text? && k < chunks[i].tokens - tokens
    requires var m := Run(start, chunks[..i]); m.ttft != 0.0 && m.counted == tokens && m.latest == at
    ensures var shares, n := Run(start, chunks[..i + 1]).itl, |Run(start, chunks[..i]).itl| + k;
            n < |shares| && IsShare(shares[n], chunks[i].tokens - tokens, chunks[i].at - at)
  {
    var m, more := Run(start, chunks[..i]), chunks[i].tokens - tokens;
    assert chunks[..i + 1][..i] == chunks[..i];
    var shares := Times((chunks[i].at - at) / more as real, more);
    assert Run(start, chunks[..i + 1]).itl == m.itl + shares;
    EqualShares(chunks[i].at - at, more, k);
  }
}
