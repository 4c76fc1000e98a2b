# Verified models of SGLang's benchmark clients and scripts

This project models the algorithms and protocols inside SGLang's benchmark clients and maintenance scripts, and
proves what they guarantee for every input and every run.

| component | files | what it is |
|---|---|---|
| multi-turn workload generator | `Multiturn*.dfy` | a sender thread and a response thread around a ready queue, a response queue and an optional round barrier |
| conversation queue | `Conversation*.dfy` | a bounded queue whose entries are put back by the requests that consumed them |
| trace layout | `SpanLines.dfy`, `TraceLayout.dfy`, `Layout*.dfy`, `LineChoice.dfy` | spans on lines: a bisect overlap check, first-fit lines with affinity |
| span graph | `SpanForest.dfy`, `SpanWalk.dfy`, `SpanEmission.dfy`, `SpanObjects.dfy` | parent identifiers turned into child lists, and the recursive walks over them |
| flow arrows | `FlowArrows.dfy` | correlation ids and the nodes drawn between linked spans |
| trace converter | `TracePipeline.dfy` | the passes above put together |
| edit distance | `EditDistance.dfy` | a one-row dynamic program updated in place |
| redirected lines | `Redirects.dfy` | chains and rings of redirections, resolved while values are overwritten |
| wheel index | `WheelIndex.dfy`, `WheelMerge.dfy` | reading, merging and writing an HTML package index (PEP 503, section "Specification") |
| conversation filter | `ChatFilter.dfy` | survivors of the length limits, repeated until there are enough |
| latency accounting | `Latency.dfy` | first-token delay and per-token shares of the waiting time |

How the models are built:

- The two concurrent clients are state machines. A step is one access to state that another thread or coroutine
  can see; replies succeed or fail freely and arrive in any order. `Reachable` ranges over all finite runs.
  The classes beside them carry the program's fields, and every method is proved to perform steps of the machine.
- The other imperative code is a class or a method with the program's own loops, proved against a function on
  values; the theorems are about that function.
- Integers are unbounded, as in Python. Times in the latency accounting and in arrows are exact reals.
- Python's sort is stable insertion by key; `bisect_left` and `insort_left` are given by their defining property
  on sorted lists.
- Exceptions that the modelled code can raise are `Err` results or, in the conversation queue, a crashed request.

Where the code does not keep a promise, the model follows the code and a lemma gives the exact condition:

- `ConversationTheorems.AllTurnsSent`: an empty conversation uses up one of the announced requests, and a wait
  of five minutes on an empty queue ends the run, so turns are never sent although nothing failed.
- `LayoutTheorems.LayoutSafety` and `SpanLines.ZeroLengthSpanHides`: a zero-length span can skip the overlap
  check and hide a longer one, on which a later span is then drawn.
- `FlowArrows.ArrowsIdentifySources`: span attributes named "correlation" can collide with each other or with
  generated ids.
- `Latency.LatenciesAddUp` and `Latency.OneShareEach`: a token count that goes down loses waiting time.
- `WheelIndex.NameFoundExactlyWhenPlain`: a file name with markup is filed under another name.
- `ChatFilter.PassProgress`: without a survivor the filter loops for ever.
- `MultiturnTheorems.NoLostWork` and `FailureStallsBarrier`: one failed response prevents completion, and with
  the barrier on it stops everyone.

## Model

| member | source | states |
|---|---|---|
| `Multiturn.ResolveRounds` | benchmark/hicache/bench_multiturn.py:237-250 | exactly which round options are accepted, and that the resolved range is `1 <= min <= max`, honours each option given and is the number of rounds when neither is |
| `MultiturnTheorems.ClientsPerRoundTotal` | benchmark/hicache/bench_multiturn.py:263-267 | the participants summed over rounds equal the rounds summed over clients, the announced number of requests |
| `MultiturnTheorems.SubQuestionsTotal` | benchmark/hicache/bench_multiturn.py:292 | the pool asked for has one sub-question for every round but each client's first |
| `MultiturnInvariant.InvStep` | benchmark/hicache/bench_multiturn.py:402-538 | every step of either thread and every reply keeps the joint invariant: one request per client that still owes rounds, payloads equal to histories, counter balance, pool size, barrier state |
| `MultiturnTheorems.Conservation` | benchmark/hicache/bench_multiturn.py:388-516 | in every run, failures included, a client's request is in at most one place, finished or failed clients have none, `sent - completed` is exactly what is in flight or unhandled and never exceeds the parallelism limit |
| `MultiturnTheorems.PayloadsAreHistories` | benchmark/hicache/bench_multiturn.py:456-516 | a request that waits, is held by the sender or travels carries exactly its client's conversation so far, although it shares the history list that the response thread extends |
| `MultiturnHistory.HistoriesAreTold` | benchmark/hicache/bench_multiturn.py:455-506 | read off the run's actions, in every run: a client's history is its first prompt, then the outputs of its successful replies in the order they came back, each followed, while rounds remain, by the sub-question drawn for it from the end of the pool |
| `MultiturnHistory.RequestsSayTheirHistory` | benchmark/hicache/bench_multiturn.py:484-512 | every request that waits, is held or travels says exactly that |
| `MultiturnHistory.FirstInFirstOut` | benchmark/hicache/bench_multiturn.py:197-208 | with the fifo policy, barrier or not, requests are taken in the order in which clients made them, all first prompts first |
| `MultiturnTheorems.BarrierSafety` | benchmark/hicache/bench_multiturn.py:518-538 | with the barrier on, while a round-`r` request is out every client has succeeded in all its rounds below `r`; outside the release loop `r` is the barrier round, inside it the round's participants were all counted |
| `MultiturnTheorems.PoolNeverExhausted` | benchmark/hicache/bench_multiturn.py:484-486 | the sub-question pool is non-empty whenever the response thread pops it |
| `MultiturnTheorems.RunsAreBounded` | benchmark/hicache/bench_multiturn.py:402-538 | besides polling, no run takes more than `12 * requests + 5 * clients` steps |
| `MultiturnTheorems.NoLostWork` | benchmark/hicache/bench_multiturn.py:435-538 | once nothing is queued, in flight or being handled: all clients did exactly their rounds if and only if no response failed, and then the deferred list is empty and both counters equal the total; without the barrier every client that did not fail is finished |
| `MultiturnTheorems.Progress` | benchmark/hicache/bench_multiturn.py:402-538 | no deadlock: unless the run is quiescent, some thread can do real work or admit a waiting request |
| `MultiturnTheorems.CanAlwaysFinish` | benchmark/hicache/bench_multiturn.py:402-538 | from every reachable state without failures the run can go on, without failures, until every client has done exactly its rounds and all requests are counted |
| `MultiturnTheorems.NoParallelismNoWork` | benchmark/hicache/bench_multiturn.py:402-412 | with a parallelism limit below one nothing is ever sent |
| `MultiturnTheorems.FailureStallsBarrier` | benchmark/hicache/bench_multiturn.py:446-449 | after a failure the failed client's record is frozen, the barrier round never advances again and no client gets past the next round |
| `MultiturnGenerator.ReadyQueue.constructor` | benchmark/hicache/bench_multiturn.py:188-191 | the queue starts with the given requests |
| `MultiturnGenerator.ReadyQueue.Append` | benchmark/hicache/bench_multiturn.py:193-195 | adds one request at the end |
| `MultiturnGenerator.ReadyQueue.Pop` | benchmark/hicache/bench_multiturn.py:197-208 | removes and returns exactly one request, the first or the drawn one; nothing on an empty queue; an error that leaves the queue alone for an unknown policy |
| `MultiturnGenerator.WorkloadGenerator.constructor` | benchmark/hicache/bench_multiturn.py:337-361 | the object starts in the initial state of the machine |
| `MultiturnGenerator.WorkloadGenerator.SenderPass` | benchmark/hicache/bench_multiturn.py:402-412 | a pass of the sender is admit, pop, launch of the machine, or polling that changes nothing; it fails exactly for an unknown policy with work at hand |
| `MultiturnGenerator.WorkloadGenerator.HandleRequest` | benchmark/hicache/bench_multiturn.py:388-400 | the reply or the failure of one request in flight moves to the response queue and nothing else changes |
| `MultiturnGenerator.WorkloadGenerator.IssueNext` | benchmark/hicache/bench_multiturn.py:483-516 | refines the issue step: history extended by the popped sub-question, request deferred or made ready |
| `MultiturnGenerator.WorkloadGenerator.TallyRound` | benchmark/hicache/bench_multiturn.py:518-538 | refines the barrier step, release loop included |
| `MultiturnGenerator.WorkloadGenerator.HandleResponse` | benchmark/hicache/bench_multiturn.py:435-538 | a whole pass of the response thread computes `Handled` |
| `MultiturnGenerator.HandledIsRun` | benchmark/hicache/bench_multiturn.py:435-538 | that pass is a run of the machine, so it keeps everything proved of runs |
| `MultiturnGenerator.ReachableHandleable` | benchmark/hicache/bench_multiturn.py:435-486 | in reachable states the pass can always be made: known client, pool not empty when needed |
| `ConversationTheorems.PutNeverBlocks` | benchmark/hicache/bench_serving.py:186-190 | queued plus started conversations never outnumber those loaded, so putting one back never waits on the bounded queue |
| `ConversationTheorems.TurnsInOrder` | benchmark/hicache/bench_serving.py:99-190 | in every run each conversation's turns go out once each and in order |
| `ConversationTheorems.RequestsCarryContext` | benchmark/hicache/bench_serving.py:99-116 | turn `k` is sent with the first `k + 1` prompts, each earlier one answered |
| `ConversationReplies.RequestsSayReplies` | benchmark/hicache/bench_serving.py:99-184 | read off the run's actions: message `2k` of a request is prompt `k` and message `2k + 1` is the text of the reply to turn `k` |
| `ConversationReplies.TakenInTurn` | benchmark/hicache/bench_serving.py:186-190 | conversations are taken in the order loaded and then in the order put back, one for every request issued |
| `ConversationTheorems.AllTurnsSent` | benchmark/hicache/bench_serving.py:263-277 | a finished run without failed requests has issued the announced number if and only if no wait for the queue ran out, and has sent every turn if and only if, besides, no empty conversation stands among the first that many |
| `ConversationTheorems.SlowReplyEndsRun` | benchmark/hicache/bench_serving.py:268-274 | a run without failed requests in which a late reply ends the issuing after one of two turns |
| `ConversationTheorems.EmptyConversationCostsTurn` | benchmark/hicache/bench_serving.py:414 | a run without failures or expired waits in which an empty conversation takes the place of a turn |
| `ConversationTheorems.RunsAreBounded` | benchmark/hicache/bench_serving.py:263-277 | no run has more than three steps per announced request and one more |
| `ConversationTheorems.Progress` | benchmark/hicache/bench_serving.py:394-412 | until the run is over, a request can be issued, started or finished, whatever the concurrency limit of at least one, after an expired wait too |
| `ConversationTheorems.FlattenSafe` | benchmark/hicache/bench_serving.py:419-420 | flattening for shared prefixes keeps the prompts in their order and their number, and every part has exactly one prompt |
| `ConversationObjects.Benchmark.constructor` | benchmark/hicache/bench_serving.py:460-468 | every conversation is queued once, in order |
| `ConversationObjects.Benchmark.GetRequest` | benchmark/hicache/bench_serving.py:263-277 | takes the first conversation exactly when one is queued, requests remain and no wait ran out; gives up for good exactly when the wait on an empty queue expires |
| `ConversationObjects.Benchmark.BeginRequest` | benchmark/hicache/bench_serving.py:99-116 | posts the messages so far with the next prompt, or crashes exactly when the conversation has no such prompt |
| `ConversationObjects.Benchmark.EndRequest` | benchmark/hicache/bench_serving.py:172-190 | records the reply and puts the conversation back exactly when turns remain |
| `ConversationObjects.Benchmark.FailRequest` | benchmark/hicache/bench_serving.py:191-197 | the conversation of a failed request is not put back |
| `SpanLines.BisectAgreesWithScan` | scripts/convert_otel_2_perfetto.py:58-70 | on a line where each interval ends before the next starts, the check of two neighbours agrees with a scan of all stored intervals, never misses an overlap, and between positive intervals finds nothing else |
| `SpanLines.CheckedInsertKeepsLane` | scripts/convert_otel_2_perfetto.py:72-73 | inserting an interval of any length that passed the check keeps the line sorted and overlap-free |
| `SpanLines.InsortKeepsSorted` | scripts/convert_otel_2_perfetto.py:72-73 | insertion keeps any sorted list sorted and adds exactly the one interval |
| `SpanLines.ZeroLengthSpanHides` | scripts/convert_otel_2_perfetto.py:98-99 | an unchecked zero-length span leaves the check of its line, whatever else is on it, sound if and only if it does not fall inside a stored interval with room after it |
| `TraceLayout.FirstFree` | scripts/convert_otel_2_perfetto.py:111-114 | the first line without a conflict, or proof that all conflict |
| `TraceLayout.FoundLineIsFree` | scripts/convert_otel_2_perfetto.py:95-120 | the line found, by affinity, search or opening, is free, except exactly when a zero-length span skips a check that would have failed |
| `TraceLayout.PlaceKeepsGood` | scripts/convert_otel_2_perfetto.py:281-293 | placing a span of any length keeps all lines overlap-free and recorded unless it hides, and a span that hides always clashes |
| `TraceLayout.PlaceAnnounces` | scripts/convert_otel_2_perfetto.py:104-120 | a line is announced exactly when one is opened, with the next number, for that process only |
| `LayoutTheorems.SortByKeyOrdered` | scripts/convert_otel_2_perfetto.py:270-277 | sorting orders by key and keeps the contents |
| `LayoutTheorems.SortByKeyStable` | scripts/convert_otel_2_perfetto.py:270-277 | elements with equal keys keep their order |
| `LayoutTheorems.LayoutSafety` | scripts/convert_otel_2_perfetto.py:278-309 | for all spans: no two spans of a process overlap on a line, although requests interleave in time and keep to their lines, if and only if every check that a zero-length span skipped would have passed |
| `LayoutTheorems.NothingInsideIsSafe` | scripts/convert_otel_2_perfetto.py:98-99 | it is enough that no zero-length span lies strictly inside a span of its process |
| `LayoutTheorems.NoZeroLengthIsSafe` | scripts/convert_otel_2_perfetto.py:278-309 | in particular that no span has length zero; negative lengths do no harm |
| `LayoutTheorems.HiddenSpanIsOverdrawn` | scripts/convert_otel_2_perfetto.py:98-99 | a trace in which a zero-length span hides a span and a later one is put on top of it |
| `LayoutTheorems.InsideButHarmless` | scripts/convert_otel_2_perfetto.py:100-114 | a zero-length span inside another that does no harm, so that condition is not necessary |
| `LayoutTheorems.LayoutComplete` | scripts/convert_otel_2_perfetto.py:269-309 | for all spans: each gets a line exactly once, every line is sorted, the lines of a process are announced as 1, 2, ..., k, and the pass fails if and only if some request has no spans |
| `LineChoice.EverySpanBelongs` | scripts/convert_otel_2_perfetto.py:95-120 | of the placed spans of any trace: a span stays on its request's last line of the process if that line is free or the span has no length; otherwise it goes to the lowest free line, a new one if need be; "free" is said of the spans placed on the line |
| `LineChoice.FreeIsClear` | scripts/convert_otel_2_perfetto.py:58-70 | while nothing has hidden, a line is free exactly when no span placed on it conflicts |
| `LineChoice.RowsInOrder` | scripts/convert_otel_2_perfetto.py:270-277 | requests are laid out in the order of their first starts, the spans of each and of the gateway in order of start |
| `LineChoice.RowsHoldRequests` | scripts/convert_otel_2_perfetto.py:270-273 | sorting a request's spans loses and adds none |
| `LayoutTheorems.OptimalLines` | scripts/convert_otel_2_perfetto.py:95-120 | spans of one process that arrive by start use exactly as many lines as spans are alive at one instant |
| `LayoutTheorems.OptimalSmgLayout` | scripts/convert_otel_2_perfetto.py:295-309 | the gateway's lines are that optimum, after the engine's layout of any spans and its own sort |
| `LayoutObjects.SpanLayoutContainer.CheckOverlap` | scripts/convert_otel_2_perfetto.py:58-70 | the container's check computes the modelled check |
| `LayoutObjects.SpanLayoutContainer.InsertSpan` | scripts/convert_otel_2_perfetto.py:72-73 | the container's list becomes the insorted one |
| `LayoutObjects.SpanLayout.FindLine` | scripts/convert_otel_2_perfetto.py:95-120 | on the heap of containers, finds and opens lines as the value model does |
| `LayoutObjects.SpanLayout.FirstFreeLine` | scripts/convert_otel_2_perfetto.py:111-114 | the loop over a process's containers finds the first free line |
| `LayoutObjects.SpanLayout.OpenLine` | scripts/convert_otel_2_perfetto.py:104-120 | adds one empty container and announces it |
| `LayoutObjects.SpanLayout.Put` | scripts/convert_otel_2_perfetto.py:290-293 | changes one container and no other, and records the line |
| `LayoutObjects.SpanLayout.Place` | scripts/convert_otel_2_perfetto.py:281-293 | refines the placing of one span |
| `LayoutObjects.SpanLayout.LayRequest` | scripts/convert_otel_2_perfetto.py:279-293 | refines the layout of one request, which starts without a line of its own |
| `LayoutObjects.SpanLayout.Generate` | scripts/convert_otel_2_perfetto.py:269-309 | refines the whole layout pass, its failure included |
| `SpanForest.LookUp` | scripts/convert_otel_2_perfetto.py:173 | finds the last span with the identifier, exactly when there is one |
| `SpanForest.LinkedIsForest` | scripts/convert_otel_2_perfetto.py:179-187 | whatever the identifiers, every span is in at most one child list, once |
| `SpanForest.LinkedIsComplete` | scripts/convert_otel_2_perfetto.py:179-187 | every span with a parent is in that parent's child list |
| `SpanForest.ListsInOrder` | scripts/convert_otel_2_perfetto.py:179-187 | children and requests are listed in the order of the input |
| `SpanForest.PathUnique` | scripts/convert_otel_2_perfetto.py:172-196 | a span is reached from the requests along one path only |
| `SpanForest.PathBound` | scripts/convert_otel_2_perfetto.py:226-227 | no path repeats a span, so the recursive walks end on every input, cyclic identifiers included |
| `SpanForest.SubtreeOnce` | scripts/convert_otel_2_perfetto.py:396-407 | a walk visits no span twice |
| `SpanForest.SubtreeReaches` | scripts/convert_otel_2_perfetto.py:396-407 | a walk misses nothing below its start |
| `SpanForest.ParentsFirst` | scripts/convert_otel_2_perfetto.py:396-407 | a walk comes to a span's parent before the span |
| `SpanWalk.AllVisitsOnce` | scripts/convert_otel_2_perfetto.py:230-253 | over all requests and threads no span is converted twice |
| `SpanWalk.RootsAreRequests` | scripts/convert_otel_2_perfetto.py:177-183 | the roots are exactly the request spans, each once |
| `SpanWalk.RequestSpansApart` | scripts/convert_otel_2_perfetto.py:231-253 | no span is in the span lists of the requests twice, and every listed span is converted |
| `SpanWalk.EverythingBelowVisited` | scripts/convert_otel_2_perfetto.py:230-253 | everything two or more levels below a request is converted, with its own thread's process |
| `SpanWalk.TrimmedExactlyOnce` | scripts/convert_otel_2_perfetto.py:199-227 | for all inputs: a span two or more levels below a request has its end trimmed by exactly 1000 and gets its thread's process; every other span is untouched |
| `SpanObjects.TraceConverter.Build` | scripts/convert_otel_2_perfetto.py:172-196 | the one-pass mutation builds exactly the child lists and roots of the specification |
| `SpanObjects.TraceConverter.Convert` | scripts/convert_otel_2_perfetto.py:199-227 | the recursive conversion performs exactly the visits of the subtree, in order, and terminates |
| `SpanObjects.TraceConverter.ConvertRequest` | scripts/convert_otel_2_perfetto.py:231-253 | converts exactly the spans below the request's threads |
| `SpanObjects.TraceConverter.Run` | scripts/convert_otel_2_perfetto.py:230-253 | building and converting yield the state that `TrimmedExactlyOnce` describes |
| `SpanObjects.TraceConverter.Gather` | scripts/convert_otel_2_perfetto.py:396-407 | emits the subtree in order, nothing twice |
| `SpanObjects.TraceConverter.GatherAll` | scripts/convert_otel_2_perfetto.py:410-418 | for any order of the requests' span lists, the gathering loop emits every converted engine span once and nothing else |
| `SpanEmission.EmittedExactlyConverted` | scripts/convert_otel_2_perfetto.py:396-418 | what is emitted over all requests is exactly what was converted, nothing twice |
| `TracePipeline.TraceIsDrawnApart` | scripts/convert_otel_2_perfetto.py:445-453 | conversion and layout together: unless a top-level span is exactly 1000 ns long, no two spans of a process overlap on a line |
| `TracePipeline.GatewayLinesAreOptimal` | scripts/convert_otel_2_perfetto.py:445-453 | conversion and layout together: with gateway spans longer than 1000 ns the gateway's lines are optimal |
| `TracePipeline.ArrowsCanBeDrawn` | scripts/convert_otel_2_perfetto.py:346-355 | however the layout ordered the span lists, they repeat nothing and hold converted spans only, which is what generating the arrows requires |
| `FlowArrows.ArrowsIdentifySources` | scripts/convert_otel_2_perfetto.py:365-369 | ids tell sources apart if and only if ids that came in as attributes are distinct and outside the numbers drawn |
| `FlowArrows.FreshIdsIdentify` | scripts/convert_otel_2_perfetto.py:365-369 | without such attributes arrows share an id exactly when they share a source |
| `FlowArrows.SharedGivenIdClashes` | scripts/convert_otel_2_perfetto.py:365-366 | two spans that arrive with one id cannot be told apart |
| `FlowArrows.NodesPaired` | scripts/convert_otel_2_perfetto.py:371-393 | node `2k` starts link `k` at its source and node `2k + 1` ends it at the span, under the same id |
| `FlowArrows.LiveLinks` | scripts/convert_otel_2_perfetto.py:359-363 | the links followed are exactly those to converted spans, in their order |
| `FlowArrows.ParentsAreLinked` | scripts/convert_otel_2_perfetto.py:350-353 | the first span of a request with a gateway parent links to that parent alone, and every other span keeps its links |
| `FlowArrows.SharedIdMeansSameSource` | scripts/convert_otel_2_perfetto.py:346-393 | of the nodes written for all spans: any two arrows carry the same id exactly when they start at the same source |
| `FlowArrows.LinkGenerator.LinkSpan` | scripts/convert_otel_2_perfetto.py:355-393 | a span gets the nodes of its links to converted spans, other spans keep theirs |
| `FlowArrows.LinkGenerator.Generate` | scripts/convert_otel_2_perfetto.py:346-393 | the first span of a request with a gateway parent links to it alone, other spans keep their links, and every span of every request ends up with its nodes under the final ids |
| `EditDistance.DiagonalOnMatch` | benchmark/ocr/eval_utils.py:625-629 | taking the diagonal on a match equals the three-way minimum |
| `EditDistance.DistanceIsMinimal` | benchmark/ocr/eval_utils.py:617-631 | the recurrence is the least number of insertions, deletions and substitutions: some script attains it, none is shorter |
| `EditDistance.DistanceIsMetric` | benchmark/ocr/eval_utils.py:617-631 | zero exactly for equal texts, symmetric, triangle inequality, at most the longer length |
| `EditDistance.RatioIsNormalised` | benchmark/ocr/eval_utils.py:612-631 | the ratio lies in [0, 1], is 0 exactly for equal texts, and is symmetric |
| `EditDistance.RatioCountsEdits` | benchmark/ocr/eval_utils.py:631 | times the longer length, the ratio is the length of some script that turns one text into the other, and no script is shorter |
| `EditDistance.NextRowIsCells` | benchmark/ocr/eval_utils.py:620-629 | a row computed from the row above holds the recurrence's cells |
| `EditDistance.UpdateRow` | benchmark/ocr/eval_utils.py:623-629 | the in-place inner loop turns one row into the next |
| `EditDistance.LastCell` | benchmark/ocr/eval_utils.py:619-629 | the one-row program computes the distance |
| `EditDistance.NormalizedEditDistance` | benchmark/ocr/eval_utils.py:605-631 | times the longer length, the result is the length of a shortest edit script; the early returns of 0 and 1 are that same ratio |
| `Redirects.RingNeverResolves` | benchmark/line_retrieval/gen_data.py:63-74 | a walk that comes back to a line never reaches a line with a value of its own |
| `Redirects.SourceUnique` | benchmark/line_retrieval/gen_data.py:59-76 | a line resolves or enters a ring, never both, and its source is unique |
| `Redirects.AnchorIsOwnSource` | benchmark/line_retrieval/gen_data.py:57-76 | ends of chains and lines on rings are their own source, so overwriting cannot harm them |
| `Redirects.Walk` | benchmark/line_retrieval/gen_data.py:63-74 | the walk terminates and reports a ring exactly when the line never resolves; otherwise its repeat-free chain to the end |
| `Redirects.ResolveLine` | benchmark/line_retrieval/gen_data.py:59-76 | one line gets its source's original value and no other line changes |
| `Redirects.BuildLinks` | benchmark/line_retrieval/gen_data.py:57-76 | although values are overwritten while they are read, every line ends with its source's original value, its full chain, or a ring mark exactly when it never resolves |
| `Redirects.GroupByHops` | benchmark/line_retrieval/gen_data.py:79-83 | a line is in group `h` exactly when it resolves through `h` lines; groups are non-empty and increasing |
| `WheelIndex.RoundTrip` | scripts/update_nightly_whl_index.py:80-87 | reading a written index gives back exactly the links written |
| `WheelIndex.WrittenLines` | scripts/update_nightly_whl_index.py:145-150 | the written file line by line: head, title with the CUDA version, the links, nothing after |
| `WheelIndex.NameOfMade` | scripts/update_nightly_whl_index.py:116 | the leftmost match of the name pattern in a generated link is the file name |
| `WheelIndex.NameFoundExactlyWhenPlain` | scripts/update_nightly_whl_index.py:97-98 | the name is found again if and only if it has no markup and something before its suffix |
| `WheelIndex.MarkupNameIsMisfiled` | scripts/update_nightly_whl_index.py:116 | a file name for which it is not |
| `WheelMerge.RemoveDuplicates` | scripts/update_nightly_whl_index.py:111-121 | the loop computes `Dedup` |
| `WheelMerge.DedupKeepsFirst` | scripts/update_nightly_whl_index.py:111-121 | de-duplication keeps the first link of every name and loses no name |
| `WheelMerge.DedupUnique` | scripts/update_nightly_whl_index.py:111-121 | no name is left twice |
| `WheelMerge.DedupPicks` | scripts/update_nightly_whl_index.py:111-121 | exactly the first link of every name is kept, in the order of the list |
| `WheelMerge.DedupAbsorbs` | scripts/update_nightly_whl_index.py:108-121 | de-duplicating older links beforehand makes no difference |
| `WheelMerge.UpdateWheelIndex` | scripts/update_nightly_whl_index.py:80-150 | the steps of an update compute `Update`, refusing a build without wheels |
| `WheelMerge.UpdateIsIdempotent` | scripts/update_nightly_whl_index.py:80-150 | repeating an update with the same wheels changes nothing, markup in names or not |
| `WheelMerge.NothingIsLost` | scripts/update_nightly_whl_index.py:80-150 | after any builds, from any file, every name ever recorded leads to the link of the newest build that recorded it |
| `WheelMerge.NewestWheelIsFound` | scripts/update_nightly_whl_index.py:97-98 | without markup that is the wheel's own file name, and the link is spelt out: tag, file name and digest of the newest build in their places |
| `WheelMerge.NamesStayUnique` | scripts/update_nightly_whl_index.py:111-150 | after any builds no name is listed twice |
| `ChatFilter.Process` | benchmark/hicache/data_processing.py:57-82 | the loop over turns keeps exactly those within the limits |
| `ChatFilter.KeptTurns` | benchmark/hicache/data_processing.py:57-82 | the turns kept are exactly those that meet every limit that is set, in order, each with its prompt, that prompt's length and the fixed or recorded reply length |
| `ChatFilter.SurvivingConversations` | benchmark/hicache/data_processing.py:83-85 | the survivors are exactly the conversations with something kept, in order |
| `ChatFilter.Pass` | benchmark/hicache/data_processing.py:54-85 | one pass appends survivors in order, as many as are wanted |
| `ChatFilter.PassProgress` | benchmark/hicache/data_processing.py:53-85 | a pass appends something if and only if some turn of some conversation is within the limits; otherwise the outer loop never ends |
| `ChatFilter.CommonFilterChat` | benchmark/hicache/data_processing.py:37-91 | item `k` is survivor `k` modulo the number of survivors, there are exactly as many as wanted (none for a negative number), and none is empty |
| `ChatFilter.FitTokensCycles` | benchmark/hicache/data_processing.py:409-413 | repeating or truncating gives exactly the wanted length, cycling through the tokens |
| `Latency.Account` | benchmark/hicache/bench_warm_cache.py:118-159 | the chunk loop computes the meter of `Run` |
| `Latency.TimeIsConserved` | benchmark/hicache/bench_warm_cache.py:118-159 | first-token delay, shares and lost time add up to the last counted timestamp minus the start, for all chunks |
| `Latency.LatenciesAddUp` | benchmark/hicache/bench_warm_cache.py:144-155 | delay and shares alone add up if and only if no chunk reports fewer tokens than the level the chunks before it had reached at an earlier time |
| `Latency.OneShareEach` | benchmark/hicache/bench_warm_cache.py:144-157 | there is one share per token after the first chunk if and only if no chunk, once the delay is set, reports fewer tokens than the chunk with text before it |
| `Latency.SteadyStream` | benchmark/hicache/bench_warm_cache.py:118-159 | with non-decreasing counts and a positive first delay both balances hold, counted from the first chunk with text, whose delay is the reported one |
| `Latency.ShareOfToken` | benchmark/hicache/bench_warm_cache.py:148-153 | in such a stream every token's share is the time between the chunk that first reports it and the rise before, over the tokens that arrived together |
| `Latency.ShrinkingCountLosesTime` | benchmark/hicache/bench_warm_cache.py:148-153 | a stream that loses a second |

## Left out

- HTTP sessions, server launch, files and progress bars: replies are free choices of the model, files are strings.
- Sleeps, heartbeats and the loops' exit on the progress bar: they depend on wall-clock time and on request functions that are not part of this model.
- The OpenAI message format of the multi-turn generator: the token format is modelled; the two differ only in the shape of a history.
- Performance metrics, percentiles and printed reports: sums and sorts of floating-point numbers.
- The sampler that fills the sub-question pool: taken to return at least as many sub-questions as requested.
- The warm-up request of `benchmark`: it uses a conversation of its own and is over before the queue is filled.
- Floating-point rounding in the latency accounting and in the edit-distance ratio: exact reals instead.
- Exceptions in the middle of a stream in the latency accounting: the loop ends early with what it has.
- Text normalisation before the edit distance: texts are taken as already normalised.
- Child lists of gateway spans: the program never sets them, the model takes them as empty; a span with children would fail there.
- Lines of child spans: each takes the line of its top-level span.
- Event conversion, metadata names and JSON output of the trace converter: they copy fields and would only add easy members.
- Release tags and the `cu` prefix of the CUDA version: parameters of the model.
- The root index of the wheel script and `scripts/update_pr_whl_index.py`: the same loops with nothing harder.
- GPU kernels and benchmarks of code outside these files.
- WheelMerge.NothingIsLost: for tags, names and digests without line breaks, since a link is read back as one line.
- WheelMerge.NewestWheelIsFound: for tags, names and digests without markup, as in PEP 427 names; `WheelIndex.NameFoundExactlyWhenPlain` gives the exact condition on names.
- LayoutTheorems.LayoutSafety: the exact condition follows the run, because which line a request keeps to depends on what was laid out before; on the spans alone `NothingInsideIsSafe` gives a sufficient condition and `InsideButHarmless` shows that it is not necessary.
- LayoutTheorems.OptimalSmgLayout: for gateway spans of positive length after trimming; others occupy lines without being alive at any instant.
- MultiturnTheorems.Progress: for a parallelism limit of at least one and a known queue policy; otherwise nothing is sent or the sender raises.
