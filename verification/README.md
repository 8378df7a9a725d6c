# Endpoint Picker control core: a Dafny model

The Endpoint Picker sits behind an Envoy gateway and decides, request by request, which model-server pod serves it.
This project models its control core and the latency-predictor client, and proves that each stateful or looping part
agrees with a simple description of what it is for.

| component | files |
|---|---|
| ext-proc stream: one HTTP request as a run of messages, its replies, its chunks and its books | `Chunking`, `ModelName`, `PiecewiseReplace`, `PiecewiseRename`, `Director`, `Stream`, `StreamReference`, `StreamInvariant`, `StreamTheorems`, `StreamAccounts`, `StreamServer` |
| plugin dependency graph: edges, Kahn's algorithm, reordering, execution | `TopologicalSort`, `PluginGraph` |
| endpoint store and collectors: incremental updates against a full resync | `EndpointNames`, `Collecting`, `Endpoints`, `EndpointStore` |
| model-rewrite index and weighted target choice | `RewriteIndex`, `RewriteOrder`, `RewriteStore`, `WeightedTarget` |
| candidate lookup and its TTL cache | `CacheKey`, `CacheKeyCollisions`, `CandidateCache`, `FetchSpacing` |
| request coalescer and training-data sampler | `Coalescer`, `CoalescerProtocol`, `CoalescerTheorems`, `CoalescerBatching`, `CoalescerDispatcher`, `Sampler` |
| body-based routing, bulk prediction | `HeaderLog`, `HeaderEdits`, `Prediction`, `PredictionAnswers`, `ModelSnapshot` |

The common shape: transitions on values (`Stream.Run`, `Endpoints.LifeAfter`, `CoalescerProtocol.After`,
`CandidateCache.Run`), theorems about all their runs, and classes or methods with loops whose contracts tie the object
to those values. What the code obtains from outside becomes a parameter of the step: the answers of the parser,
scheduler and admission (`Director.Verdict`), the send that fails, the pods of the cluster, a failing list, the clock, the
random draw, the HTTP response. Iteration over Go maps is a loop that takes the elements in any order.

A well-formed run is: request headers first; a request body only if the headers did not end the stream, with one end;
then response headers once, response body with at most one end; trailers last.

Where the code does less than its comments or API text say, the model follows the code, and a lemma states exactly when
the promise holds:

- `Sampler`: the comment at sidecars/latencypredictorasync/training.go:75 promises exactly `maxSize` entries; one fewer
  comes back exactly when `maxSize` is the total less one and no stratum is empty.
- `RewriteIndex`: list order within one resource (apix/v1alpha2/inferencemodelrewrite_types.go:68-69) is not kept by an
  unstable sort; the answer is determined exactly when all oldest candidates are equal. `RewriteOrder` shows that a
  stable sort would keep it.
- `CacheKeyCollisions`: the strings of a subset are joined with bars. A request shares its key with no request of another
  selection exactly when it has one string, neither empty nor a sentinel, that does not split in order at a bar.
- `Endpoints`: a pool whose pod list failed is stored, and setting it again does not list; without pollers a removal is
  announced that no addition preceded.
- `PluginGraph`: only the first shared key of a pair is type-checked.
- `CoalescerTheorems`: submissions still in the channel at shutdown are never answered.
- `PiecewiseRename`: streamed responses are renamed piece by piece. For names without a quote this is the rename of the
  whole response exactly when no boundary cuts a replaced field and no piece has the spaced spelling alone while the
  response has the compact one.
- `Prediction`: in ensemble mode a batch leaves rows of negative queue length at zero. Requests are validated to have none
  (latencypredictor/prediction_server.py:860, 1035-1051), so this needs a direct call of the batch method. The fast path
  alone looks at tokens in flight.
- `WeightedTarget`: targets are drawn in proportion to their weights exactly when the sum of the weights fits an int32, or
  is a multiple of 2^32 and the weights are equal, for then the choice is uniform; a sum whose remainder modulo
  2^32 exceeds the largest int32 panics.

`dafny verify dfyconfig.toml` checks the whole project.

## Model

| member | source | states |
|---|---|---|
| `Chunking.ChunksFaithful` | pkg/common/envoy/chunking.go:31-74 | the chunks of a body join to exactly that body, every chunk but the last has 62000 bytes and the last no more, and end-of-stream is on the last chunk only, when asked for |
| `Chunking.BuildChunkedBodyResponses` | pkg/common/envoy/chunking.go:31-74 | the chunking loop builds those chunks, an empty body giving one empty chunk |
| `ModelName.ReplaceAllIdentityIff` | pkg/epp/handlers/server.go:354-368 | replacing a field by a different one leaves a body alone if and only if the field does not occur in it |
| `ModelName.RewriteIdentityIff` | pkg/epp/handlers/server.go:354-368 | the two-spelling rewrite leaves a body alone if and only if no rename was asked for or neither spelling of the internal name occurs |
| `ModelName.FieldsSpelled` | pkg/epp/handlers/server.go:354-368 | the two spellings searched for are "model":" and "model": " and the closing quote, byte for byte |
| `PiecewiseReplace.ReplaceAllConcat` | pkg/epp/handlers/server.go:354-368 | replacement distributes over a cut at which the scan comes to stand |
| `PiecewiseReplace.CleanCutIffNoStraddle` | pkg/epp/handlers/server.go:354-368 | it comes to stand at a cut that no occurrence straddles and, where occurrences do not overlap, at no other |
| `PiecewiseReplace.PiecesJoinIff` | pkg/epp/handlers/server.go:283-287 | for any pieces and a replacement that differs from the pattern at a common place, outputs that keep the ends of the pattern join to the replacement of the whole if and only if no boundary cuts a replaced occurrence and every output is its piece's replacement |
| `PiecewiseRename.PiecewiseRewrite` | pkg/epp/handlers/server.go:283-287 | for all names: when no replaced field is cut by a boundary and no piece has the spaced spelling alone while the body has the compact one, renaming piece by piece equals renaming the whole body |
| `PiecewiseRename.PiecewiseRewriteIff` | pkg/epp/handlers/server.go:283-287 | for all piece lists and names without a quote, renaming piece by piece equals renaming the whole body if and only if no rename was asked for or that condition holds |
| `PiecewiseRename.CutFieldIsMissed` | pkg/epp/handlers/server.go:283-287 | any body cut anywhere into pieces: a field straddling a boundary, where fields do not overlap, makes the pieces differ from the rename of the whole |
| `PiecewiseRename.MixedSpellings` | pkg/epp/handlers/server.go:354-368 | a body with one field in each spelling, a piece each, comes out differently for all names without a quote |
| `PiecewiseRename.QuotedNames` | pkg/epp/handlers/server.go:354-368 | with quotes in a name a cut field can go unnoticed, so the condition is exact for names without a quote only |
| `PiecewiseRename.StreamedUnchangedIff` | pkg/epp/handlers/server.go:283-287 | the pieces come through byte for byte if and only if no single piece holds the internal name as a model field |
| `Director.HandleRequestOutcome` | pkg/epp/requestcontrol/director.go:132-332 | a pod is scheduled if and only if every consulted part agreed, which is if and only if there is no error; it is then the first pod picked, the destination cut at its commas is the picked endpoints in order (none holding a comma), the body is the repackaged map or the one received with its size announced, and the target name follows the rewrite precedence |
| `StreamInvariant.StepKeepsInv` | pkg/epp/handlers/server.go:195-328 | each message of a well-formed run keeps the invariant that ties context, log and ledger to the events received, or ends the run within it |
| `StreamInvariant.RunInv` | pkg/epp/handlers/server.go:138-328 | the invariant holds after every well-formed run, wherever a send may fail |
| `StreamTheorems.SentIsReference` | pkg/epp/handlers/server.go:195-328 | the messages sent in a well-formed run are those an independent description computes from the events alone, cut off where a send failed |
| `StreamTheorems.SentInOrder` | pkg/epp/handlers/server.go:370-434 | at most one request header reply, then its body chunks, then at most one response header, response chunks and one trailer; an immediate reply is the only message of its run |
| `StreamTheorems.CompletedExactlyOnce` | pkg/epp/handlers/server.go:175-193 | however the run ends, a scheduled request gets exactly one director completion call with end-of-stream |
| `StreamAccounts.GaugeBalanced` | pkg/epp/handlers/server.go:383-397 | in every run, well-formed or not and wherever a send fails, the running-request gauge goes up and down once if the end of the request body was sent, and else not at all |
| `StreamTheorems.RequestDelivered` | pkg/epp/handlers/server.go:228-256 | for a request whose verdict accepts: the first message announces the picked endpoints in order and the length of the body to be sent, and the request chunks join to that body, within the limit and ended once |
| `StreamTheorems.ForwardedDelivered` | pkg/epp/handlers/request.go:41-54 | a request without a body is sent to the endpoint it was given, with no length and no body, or refused with 500 when there is none |
| `StreamTheorems.RefusalDelivered` | pkg/common/error/error.go:58-83 | a refused request is answered with nothing but the status of what refused it: 400 for a bad body, 500 when it cannot be repackaged or admitted or scheduled to a profile, 503 without candidates, 429 when scheduling fails, and the status of the admission error |
| `StreamTheorems.StreamedContent` | pkg/epp/handlers/server.go:274-287 | streaming forwards every piece, renamed on its own, and marks only the last chunk of an ended body |
| `StreamTheorems.ResponseDelivered` | pkg/epp/handlers/server.go:270-304 | the response chunks join to the received bytes if and only if no rename applies to what is renamed in one go; when buffered they join to the rename of the whole body, and when streamed, for names without a quote, if and only if no replaced field is cut and no piece has the other spelling alone; the names are the client's model field and the rule's target, else the header's, else the client's |
| `StreamReference.AnnouncesIff` | pkg/epp/handlers/server.go:259-269 | a response counts as an event stream if and only if a content-type header has text/event-stream in it |
| `StreamServer.RequestContext.SendAll` | pkg/epp/handlers/server.go:386-390 | sends messages in order, stopping at the first failure, against the log specification |
| `StreamServer.RequestContext.UpdateStateAndSendIfNeeded` | pkg/epp/handlers/server.go:372-434 | the five send stages and the state counter, against the transition specification |
| `StreamServer.RequestContext.FinishResponse` | pkg/epp/handlers/server.go:332-348 | completes the response once; a second call changes nothing |
| `StreamServer.RequestContext.HandleRequestBody` | pkg/epp/handlers/server.go:228-256 | accumulates the body and, at its end, runs the director and prepares the replies |
| `StreamServer.RequestContext.HandleResponseHeaders` | pkg/epp/handlers/server.go:259-272 | detects a streamed response and moves the state |
| `StreamServer.RequestContext.HandleResponseBody` | pkg/epp/handlers/server.go:274-293 | forwards a streamed piece or buffers it, completing at end-of-stream |
| `StreamServer.RequestContext.HandleEvent` | pkg/epp/handlers/server.go:212-306 | the switch over received messages |
| `StreamServer.RequestContext.Receive` | pkg/epp/handlers/server.go:195-328 | the receive loop is the run of the transition specification |
| `StreamServer.RequestContext.Process` | pkg/epp/handlers/server.go:138-328 | a whole stream: order, reference log, exactly one completion and a balanced gauge, on the object itself |
| `StreamServer.RequestContext.GenerateResponseBodyResponses` | pkg/epp/handlers/response.go:90-109 | one response message per chunk of the body |
| `TopologicalSort.CountInDegrees` | pkg/epp/datalayer/data_graph.go:150-166 | the in-degree map counts every edge into a node, repeated edges included, over all nodes that are keys or neighbours |
| `TopologicalSort.InitialQueue` | pkg/epp/datalayer/data_graph.go:168-174 | the queue starts with exactly the nodes without incoming edges |
| `TopologicalSort.Discount` | pkg/epp/datalayer/data_graph.go:183-190 | decreasing the in-degrees of a removed node's neighbours keeps the loop invariant of the algorithm |
| `TopologicalSort.RemoveAll` | pkg/epp/datalayer/data_graph.go:176-191 | the removal loop terminates and lists distinct nodes sources first; if any node is left over there is a cycle |
| `TopologicalSort.LeftoverHasCycle` | pkg/epp/datalayer/data_graph.go:193-197 | nodes left over when the queue is empty contain a cycle |
| `TopologicalSort.OrderedHasNoCycle` | pkg/epp/datalayer/data_graph.go:150-202 | a graph whose nodes can be listed sources first has no cycle |
| `TopologicalSort.TopologicalSort` | pkg/epp/datalayer/data_graph.go:150-202 | terminates on every finite graph; reports a cycle if and only if there is one; otherwise lists every node once with everything it depends on before it |
| `PluginGraph.CheckPair` | pkg/epp/datalayer/data_graph.go:126-143 | the key loop of one producer and one consumer |
| `PluginGraph.PairCheckMeaning` | pkg/epp/datalayer/data_graph.go:126-143 | whatever the iteration order: an edge exactly when the consumer asks for a key the producer gives, the producer not in a later stage by its facets and some such key agreeing in type; an error only for a real conflict |
| `PluginGraph.LinkedUnlessTooLate` | pkg/epp/datalayer/data_graph.go:69-108 | when all types agree the pair is linked unless the producer comes in a later stage: no facet, then flow control, then request control, then scheduling |
| `PluginGraph.ScorersReadPreparedData` | pkg/epp/datalayer/data_graph.go:69-108 | a scorer may consume what a data plugin produces, and the opposite is rejected |
| `PluginGraph.DependsIff` | pkg/epp/datalayer/data_graph.go:112-146 | a plugin depends on another if and only if it consumes a key that the other produces |
| `PluginGraph.TypeCheckIff` | pkg/epp/datalayer/data_graph.go:127-139 | only the first shared key is type-checked: acceptance is certain if and only if all shared keys agree, and possible if and only if none is shared or some agrees |
| `PluginGraph.LinkProducer` | pkg/epp/datalayer/data_graph.go:119-144 | one producer against all consumers adds exactly its edges, or reports a real conflict |
| `PluginGraph.BuildDAG` | pkg/epp/datalayer/data_graph.go:112-146 | the graph has exactly the consumer-to-producer edges, every one checked for layer order; an error is a real conflict |
| `PluginGraph.OrderRegistry` | pkg/epp/datalayer/data_graph.go:47-59 | as ValidateAndOrder, on plugins by name |
| `PluginGraph.ValidateAndOrder` | pkg/epp/datalayer/data_graph.go:33-59 | success: every producer or consumer once, each after all it depends on, no producer in a later layer, no dependency cycle; a cycle error means a dependency cycle; any other error a real conflict |
| `PluginGraph.Config.OrderPrepareDataPlugins` | pkg/epp/requestcontrol/request_control_config.go:101-113 | replaces the data plugins by the same plugins in the sorted order |
| `PluginGraph.ReorderingKeepsAll` | pkg/epp/requestcontrol/request_control_config.go:101-113 | after a valid order the list holds exactly the data plugins it held, each once |
| `PluginGraph.ExecutePluginsAsDAG` | pkg/epp/requestcontrol/plugin_executor.go:31-38 | runs the plugins in order up to the first failure, and reports a failure if and only if not all ran and succeeded |
| `PluginGraph.ExecutedPrefix` | pkg/epp/requestcontrol/plugin_executor.go:31-38 | what runs is a prefix of the list and all of it but the last succeeded |
| `PluginGraph.RunsAfterItsProducers` | pkg/epp/requestcontrol/plugin_executor.go:31-38 | after ordering, reordering and execution, a data plugin that ran was preceded by the success of every other data plugin that produces one of its keys |
| `EndpointNames.EndpointNamesDistinct` | pkg/epp/datastore/datastore.go:442-449 | two pod ranks share an endpoint name if and only if they are the same rank of the same pod, even for pods whose names end in -rank-N |
| `Collecting.LaunchedAtMostOnce` | pkg/epp/datalayer/collector.go:99-203 | over any sequence of starts and stops at most one goroutine is launched, no stop goes through before it, and one stop at most takes effect |
| `Collecting.OutcomesByHistory` | pkg/epp/datalayer/collector.go:99-203 | after any calls, a start goes through if and only if it has sources, none nil, none with sources went before and the parent is not done; a stop if and only if such a start went before and no stop since; the errors say which failed first |
| `Collecting.Collector.Start` | pkg/epp/datalayer/collector.go:99-184 | rejects empty or nil sources and second starts; launches once; cancels itself when the parent is done |
| `Collecting.Collector.Stop` | pkg/epp/datalayer/collector.go:187-203 | rejects a stop before the start and a second stop; cancels once |
| `Endpoints.CollectorsFollowEndpoints` | pkg/epp/datalayer/runtime.go:165-256 | with a poller, in every run: a collector runs exactly for the stored endpoints, every collector was launched once and each past one ended once, and the events of a name alternate add and delete, starting with add |
| `Endpoints.AlternationNeedsPoller` | pkg/epp/datalayer/runtime.go:179-223 | the events alternate in all runs if and only if there is a poller |
| `Endpoints.DeleteWithoutAdd` | pkg/epp/datalayer/runtime.go:179-223 | without pollers an endpoint comes unannounced and its removal is announced |
| `Endpoints.ResyncIsDesired` | pkg/epp/datastore/datastore.go:377-420 | a resync leaves at every rank what the latest pods and the pool call for, from any earlier life of that name |
| `Endpoints.AlwaysInStep` | pkg/epp/controller/pod_reconciler.go:41-102 | over every run of pod changes, reconciles and pool changes, each pod not waiting for a reconcile is stored as the latest pods and the pool call for, or not at all at a rank with a cancelled start |
| `Endpoints.IncrementalEqualsResync` | pkg/epp/controller/pod_reconciler.go:41-102 | once a pod has no reconcile pending, what is stored at every rank is what a full resync of the latest pods would store from any earlier store: an endpoint exactly when the pod is ready, has every selector pair among its labels and opens the rank's port, with the pod's address and labels, the rank's port and the configured or own metrics port; only a rank one of whose collector starts was cancelled may be missing |
| `Endpoints.LatestPods` | pkg/epp/controller/pod_reconciler.go:64-88 | the pods meant are those last applied and not gone since |
| `Endpoints.LatestPool` | pkg/epp/datastore/datastore.go:145-176 | the pool meant is the one last set |
| `Endpoints.FailedListIff` | pkg/epp/datastore/datastore.go:145-176 | after a failed list, setting the same pool again leaves a rank as the new pool wants it if and only if the old pool wanted the same |
| `Endpoints.FailedListLosesPod` | pkg/epp/datastore/datastore.go:145-176 | a concrete run in which a pod is never stored after the first list failed |
| `EndpointStore.ExtractActivePorts` | pkg/epp/datastore/datastore.go:422-440 | all target ports without the annotation, else the positive annotated ones among them |
| `EndpointStore.Runtime.NewEndpoint` | pkg/epp/datalayer/runtime.go:165-211 | starts and registers a collector and announces the endpoint, or refuses; touches no other name |
| `EndpointStore.Runtime.ReleaseEndpoint` | pkg/epp/datalayer/runtime.go:214-223 | announces the removal and stops and drops the collector; touches no other name |
| `EndpointStore.Datastore.StoreActive` | pkg/epp/datastore/datastore.go:300-348 | stores exactly the active ranks of one pod |
| `EndpointStore.Datastore.RemoveInactive` | pkg/epp/datastore/datastore.go:350-361 | releases exactly the inactive ranks of one pod |
| `EndpointStore.Datastore.PodUpdateOrAddIfNotExist` | pkg/epp/datastore/datastore.go:288-363 | one pod's update acts on every rank as specified and on nothing else; the flag says whether no endpoint was added |
| `EndpointStore.Datastore.PodDelete` | pkg/epp/datastore/datastore.go:366-375 | releases exactly the endpoints of the pod, in any order |
| `EndpointStore.Datastore.PodResyncAll` | pkg/epp/datastore/datastore.go:377-420 | a full resync acts on every rank as specified, in any order of pods and endpoints |
| `EndpointStore.Datastore.PoolSet` | pkg/epp/datastore/datastore.go:145-176 | stores the pool, resyncs only on a changed selector or ports, reports a failed list, clears on no pool |
| `EndpointStore.Datastore.Clear` | pkg/epp/datastore/datastore.go:130-142 | releases every endpoint and forgets the pool |
| `EndpointStore.Controller.PodApplied` | pkg/epp/controller/pod_reconciler.go:64-88 | a created or updated pod is queued if its old or new labels match the pool |
| `EndpointStore.Controller.PodGone` | pkg/epp/controller/pod_reconciler.go:64-88 | a deleted pod is queued if its labels matched the pool |
| `EndpointStore.Controller.Reconcile` | pkg/epp/controller/pod_reconciler.go:41-62 | one reconcile: skipped without a pool, retried on a read error, else the pod is stored or removed |
| `EndpointStore.Controller.Run` | pkg/epp/controller/pod_reconciler.go:41-102 | a whole run of the objects leaves every rank with the life the events give it |
| `Coalescer.MergeSubmissions` | sidecars/latencypredictorasync/coalescer.go:127-146 | the merged rows and each caller's slice boundaries |
| `Coalescer.FanOut` | sidecars/latencypredictorasync/coalescer.go:158-187 | each caller gets the call's error, its own slice, or the too-short error |
| `Coalescer.DispatchBatch` | sidecars/latencypredictorasync/coalescer.go:127-187 | one call with the merged rows, fanned out; when it fails every caller of the batch gets that call's message |
| `Coalescer.CallerGetsOwnRows` | sidecars/latencypredictorasync/coalescer.go:158-187 | however many predictions come back, each caller gets what a direct call with its rows returns or the too-short error, never another caller's rows |
| `Coalescer.CoalescedEqualsDirect` | sidecars/latencypredictorasync/coalescer.go:127-187 | with a full response every caller gets exactly what a direct call would return |
| `CoalescerProtocol.StepKeepsInv` | sidecars/latencypredictorasync/coalescer.go:53-123 | every step of callers, timer, dispatch goroutines and shutdown keeps the ledger, the timer, slot and row-cap invariants |
| `CoalescerProtocol.RunInv` | sidecars/latencypredictorasync/coalescer.go:53-123 | the invariant holds over every interleaving |
| `CoalescerTheorems.ExactlyOnePlace` | sidecars/latencypredictorasync/coalescer.go:53-123 | a received submission is in exactly one of pending, waiting, in flight or answered, an answered one got exactly one result, one not received got none |
| `CoalescerTheorems.SendNeverBlocks` | sidecars/latencypredictorasync/coalescer.go:229-249 | a result is sent only on a channel that has had none, so with a buffer of one no send blocks |
| `CoalescerTheorems.DispatcherBounds` | sidecars/latencypredictorasync/coalescer.go:61-115 | the timer is armed exactly while something is pending, free plus held slots equal the limit, the channel takes 1024 submissions and no more, and no batch exceeds cap - 1 + MaxBulkSize rows |
| `CoalescerBatching.ReceiveDecides` | sidecars/latencypredictorasync/coalescer.go:87-104 | a submission received with no cap, or that leaves the pending rows below it, is added to the pending ones and makes no call; one that reaches the cap goes out with them at once |
| `CoalescerBatching.BatchesAreWindows` | sidecars/latencypredictorasync/coalescer.go:61-110 | over every interleaving the calls are made with exactly the windows of the run: each the submissions taken since the one before, first come first served, closed by the timer or by reaching the cap and by nothing else; what is pending is the open window |
| `CoalescerBatching.EveryResultExplained` | sidecars/latencypredictorasync/coalescer.go:149-186 | over every interleaving every result is the shutdown notice, once shut down, or tells the caller what the answer to its own batch's call says: the call's error, its own rows' predictions, or that they fell short |
| `CoalescerTheorems.EveryResponseIsTheCallersOwn` | sidecars/latencypredictorasync/coalescer.go:127-187 | over every interleaving with a row-by-row server, every response is the one a direct call with the caller's own rows returns |
| `CoalescerTheorems.InternalStepsRunOut` | sidecars/latencypredictorasync/coalescer.go:53-123 | arrivals aside, the dispatcher and its goroutines come to rest |
| `CoalescerTheorems.AtRestAllAnswered` | sidecars/latencypredictorasync/coalescer.go:53-123 | with at least one slot, at rest every received submission has its one result |
| `CoalescerTheorems.StrandedIff` | sidecars/latencypredictorasync/coalescer.go:112-120 | at rest after a shutdown, a submission has no result if and only if it is still in the channel |
| `CoalescerTheorems.ShutdownStrands` | sidecars/latencypredictorasync/coalescer.go:112-120 | a concrete run that leaves a submission in the channel |
| `CoalescerTheorems.StrandedForever` | sidecars/latencypredictorasync/coalescer.go:112-120 | what is in the channel when the dispatcher exits is never received or answered |
| `CoalescerDispatcher.Predictor.DispatchPending` | sidecars/latencypredictorasync/coalescer.go:61-84 | the dispatch closure hands the pending submissions to a goroutine, and does nothing when there are none |
| `CoalescerDispatcher.Predictor.OnSubmission` | sidecars/latencypredictorasync/coalescer.go:87-103 | a received submission arms the timer, and triggers an early dispatch exactly when it reaches the cap |
| `CoalescerDispatcher.Predictor.OnTimer` | sidecars/latencypredictorasync/coalescer.go:105-109 | the expired window dispatches what is pending |
| `CoalescerDispatcher.Predictor.OnDone` | sidecars/latencypredictorasync/coalescer.go:111-120 | shutdown rejects every pending submission in order and exits |
| `CoalescerDispatcher.Predictor.SubmitCoalesced` | sidecars/latencypredictorasync/coalescer.go:235-241 | a caller puts its submission in the channel |
| `CoalescerDispatcher.Predictor.AcquireSlot` | sidecars/latencypredictorasync/coalescer.go:72-74 | a dispatch goroutine takes a slot |
| `CoalescerDispatcher.Predictor.AbortStep` | sidecars/latencypredictorasync/coalescer.go:75-79 | one step of a goroutine that saw the shutdown first: it rejects its callers in order and returns without a slot |
| `CoalescerDispatcher.Predictor.ReceiveAnswer` | sidecars/latencypredictorasync/coalescer.go:149-153 | the one call returns |
| `CoalescerDispatcher.Predictor.SendResult` | sidecars/latencypredictorasync/coalescer.go:155-186 | one caller of the batch is sent its result |
| `CoalescerDispatcher.Predictor.ReleaseSlot` | sidecars/latencypredictorasync/coalescer.go:81-81 | the slot is given back |
| `CoalescerDispatcher.Predictor.Do` | sidecars/latencypredictorasync/coalescer.go:53-187 | any enabled step of callers, dispatcher or goroutines takes the object where the protocol says and keeps its invariant |
| `CoalescerDispatcher.Predictor.Run` | sidecars/latencypredictorasync/coalescer.go:53-187 | a list of steps goes through if and only if the protocol allows it, and leaves the object in the state the protocol gives, so the theorems on all runs hold of the object |
| `Sampler.ShortByTwoAtMost` | sidecars/latencypredictorasync/training.go:71-101 | the truncated shares never exceed the size asked for and miss it by two at most: the excess branch is unreachable |
| `Sampler.LargestFits` | sidecars/latencypredictorasync/training.go:77-88 | the topped-up size fits the largest group, save by one when all but one entry are asked for and no group is empty |
| `Sampler.TakenShares` | sidecars/latencypredictorasync/training.go:71-121 | every group gives at least its share, only the largest more; together maxSize, or maxSize - 1 exactly when maxSize is the total less one and no group is empty |
| `Sampler.NothingTaken` | sidecars/latencypredictorasync/training.go:71-121 | a negative size takes nothing |
| `Sampler.TwoOneOne` | sidecars/latencypredictorasync/training.go:71-121 | two, one and one entries with three asked for give two |
| `Sampler.Split` | sidecars/latencypredictorasync/training.go:51-64 | the three strata, in order: with a positive TTFT, else with a positive TPOT, else the rest |
| `Sampler.ComputeSizes` | sidecars/latencypredictorasync/training.go:71-104 | the sample sizes with their adjustment |
| `Sampler.Shuffle` | sidecars/latencypredictorasync/training.go:134-136 | any sequence of swaps keeps the entries |
| `Sampler.SampleFromSlice` | sidecars/latencypredictorasync/training.go:126-139 | a sample without replacement, of the size asked for or all |
| `Sampler.RandomSample` | sidecars/latencypredictorasync/training.go:41-123 | all entries when they fit; else a sub-multiset with the exact number of each stratum and the exact total |
| `RewriteIndex.IndexUnique` | pkg/epp/datastore/modelrewritestore.go:49-121 | two indexes of the same resources have the same buckets, with the same entries and the same age at every place, so they differ at most in the order of entries of the same age |
| `RewriteIndex.AnswerIsRight` | pkg/epp/datastore/modelrewritestore.go:126-137 | the answer is an oldest exact match if any exists, else an oldest generic rule, else nothing |
| `RewriteIndex.OneRuleAnswers` | pkg/epp/datastore/modelrewritestore.go:126-168 | a resource with one rule answers exactly for the models the rule names, or for all when it names none |
| `RewriteIndex.AnyOldestMayBeFirst` | pkg/epp/datastore/modelrewritestore.go:74-82 | any oldest entry may stand first in some index of the resources |
| `RewriteIndex.AnswerDeterminedIff` | apix/v1alpha2/inferencemodelrewrite_types.go:55-70 | the answer is sure to be a given entry if and only if every oldest candidate is that entry |
| `RewriteIndex.ListOrderNotKept` | apix/v1alpha2/inferencemodelrewrite_types.go:68-69 | a resource with two generic rules has an index that answers with the second |
| `RewriteOrder.SetInOrder` | pkg/epp/datastore/modelrewritestore.go:58-83 | adding a resource and sorting stably leaves the rules of every resource in list order under every key |
| `RewriteOrder.DeletedInOrder` | pkg/epp/datastore/modelrewritestore.go:91-121 | so does removing one |
| `RewriteOrder.AnswerIsTheApis` | apix/v1alpha2/inferencemodelrewrite_types.go:55-70 | with the rules in list order and resources of different ages, the answer is the first matching rule in list order of the oldest resource, exact matches first |
| `RewriteStore.SortByCreation` | pkg/epp/datastore/modelrewritestore.go:74-82 | a permutation sorted by creation time, ties in any order, or in their old order when stable |
| `RewriteStore.ExactModels` | pkg/epp/datastore/modelrewritestore.go:160-168 | the models a rule names |
| `RewriteStore.ModelRewriteStore.FilterExact` | pkg/epp/datastore/modelrewritestore.go:107-120 | removes a resource's entries from every bucket and drops the empty ones |
| `RewriteStore.ModelRewriteStore.DeleteInternal` | pkg/epp/datastore/modelrewritestore.go:91-121 | afterwards the index is that of the remaining resources |
| `RewriteStore.ModelRewriteStore.AppendRules` | pkg/epp/datastore/modelrewritestore.go:58-72 | adds every rule under every key it applies to |
| `RewriteStore.ModelRewriteStore.SortAll` | pkg/epp/datastore/modelrewritestore.go:74-83 | every bucket sorted, with the same entries |
| `RewriteStore.ModelRewriteStore.Set` | pkg/epp/datastore/modelrewritestore.go:49-83 | afterwards the index is that of the resources with this one added or replaced |
| `RewriteStore.ModelRewriteStore.GetRule` | pkg/epp/datastore/modelrewritestore.go:126-137 | the precedence rule, stated on the stored resources; with a stable sort and different ages the API's rule in full |
| `RewriteStore.ModelRewriteStore.Run` | pkg/epp/datastore/modelrewritestore.go:49-121 | after any sequence of sets and deletes the index is that of the resources they leave, with no empty bucket, and with a stable sort in list order |
| `RewriteStore.LastOpDecides` | pkg/epp/datastore/modelrewritestore.go:49-121 | what they leave of a resource is what the last set or delete of its name says |
| `WeightedTarget.SelectWeightedModel` | pkg/epp/requestcontrol/director.go:277-303 | the two accumulating loops, with int32 wrap-around and the panic of a negative total |
| `WeightedTarget.TotalIsWrappedSum` | pkg/epp/requestcontrol/director.go:282-285 | the accumulated int32 total is the true sum, wrapped once |
| `WeightedTarget.OutcomeByTotal` | pkg/epp/requestcontrol/director.go:287-303 | no targets give the empty name; else the call panics if and only if the sum modulo 2^32 exceeds the largest int32, chooses uniformly if and only if it is zero, and else by the accumulated weights |
| `WeightedTarget.FairIffItFits` | pkg/epp/requestcontrol/director.go:277-303 | for non-negative weights exactly Weight_i of the draws below the total select target i, for every target, if and only if the sum of the weights fits an int32 |
| `WeightedTarget.ProportionalIff` | pkg/epp/requestcontrol/director.go:277-303 | for non-negative int32 weights, not all zero: there is no panic and every target is drawn in proportion to its weight if and only if the sum fits an int32, or is a multiple of 2^32 and all weights are equal |
| `WeightedTarget.WrapsToOne` | pkg/epp/requestcontrol/director.go:282-297 | weights 2^31-1, 2^31-1 and 3 wrap to a total of one, and the first target is always chosen |
| `WeightedTarget.FallbackUnreachable` | pkg/epp/requestcontrol/director.go:285-302 | for non-negative weights with a positive sum that fits, every draw selects a target of positive weight and the final fallback is never used |
| `CacheKey.Locate` | pkg/epp/requestcontrol/candidates.go:98-168 | the delegate's lookup |
| `CacheKey.LocatedIff` | pkg/epp/requestcontrol/candidates.go:98-168 | an endpoint is located if and only if the filter is off, no subset was given, or a string of the subset has its address before the last colon |
| `CacheKey.GenerateCacheKey` | pkg/epp/requestcontrol/candidates.go:258-301 | the key of a request |
| `CacheKey.KeyIgnoresOrder` | pkg/epp/requestcontrol/candidates.go:291-300 | the order of the strings does not change the key |
| `CacheKey.JoinEqualIff` | pkg/epp/requestcontrol/candidates.go:300-300 | any lists join to the same string if and only if, split at their bars, they are the same |
| `CacheKey.JoinedKeysEqualIff` | pkg/epp/requestcontrol/candidates.go:291-300 | any lists of strings have equal keys if and only if, sorted and then split at their bars, they are the same |
| `CacheKey.BarFreeKeysEqualIff` | pkg/epp/requestcontrol/candidates.go:291-300 | without bars: if and only if they have the same strings as often |
| `CacheKey.EqualKeysEqualAnswers` | pkg/epp/requestcontrol/candidates.go:258-301 | among plain requests an equal key means an equal delegate answer from every store |
| `CacheKeyCollisions.KeyDecidesIff` | pkg/epp/requestcontrol/candidates.go:258-301 | for every request: no request of another selection has its key if and only if it has one string, neither empty nor a sentinel, that does not split in order at a bar |
| `CacheKeyCollisions.MixedUpIff` | pkg/epp/requestcontrol/candidates.go:258-301 | for every request: a plain request of another selection has its key if and only if, without bars, its strings are none at all or a lone sentinel, or, with bars, its sorted strings split at them are in order and name other addresses |
| `CacheKeyCollisions.SpelledOutCollides` | pkg/epp/requestcontrol/candidates.go:291-300 | every request with two or more strings has the key of the lone string that spells it, which selects differently |
| `CacheKeyCollisions.BarsCollide` | pkg/epp/requestcontrol/candidates.go:300-300 | for example a and b against a|b |
| `CandidateCache.RunInv` | pkg/epp/requestcontrol/candidates.go:218-255 | over every interleaving of callers, clock, store changes and cleanups, each entry and each answer stems from a recorded fetch |
| `CandidateCache.AnswersAreTheDelegates` | pkg/epp/requestcontrol/candidates.go:218-255 | every answer is the delegate's own answer for that request, from a fetch that finished less than the ttl before, which is 50 ms unless configured |
| `CandidateCache.CleanupsChangeNoAnswer` | pkg/epp/requestcontrol/candidates.go:304-331 | taking the cleanups out of a run changes no answer and no fetch |
| `CandidateCache.OneFetchAtATime` | pkg/epp/requestcontrol/candidates.go:231-252 | exactly the holder of the write lock is between its second check and its store |
| `FetchSpacing.FetchesApart` | pkg/epp/requestcontrol/candidates.go:218-254 | over every interleaving two fetches for one key are at least the ttl apart: until an answer expires its key is served from the cache |
| `FetchSpacing.CallsProceed` | pkg/epp/requestcontrol/candidates.go:218-254 | while a call is unanswered some call can take its next step, which brings it nearer to its answer |
| `CandidateCache.LockedSteps` | pkg/epp/requestcontrol/candidates.go:231-254 | the steps of a call under the lock come to the slow path of the object |
| `CandidateCache.CachedEndpointCandidates.LookUp` | pkg/epp/requestcontrol/candidates.go:219-228 | the fast path answers exactly from an unexpired entry |
| `CandidateCache.CachedEndpointCandidates.LocateLocked` | pkg/epp/requestcontrol/candidates.go:231-254 | the double check, the fetch and the new entry |
| `CandidateCache.CachedEndpointCandidates.Cleanup` | pkg/epp/requestcontrol/candidates.go:321-331 | removes exactly the entries past their expiry |
| `Prediction.Predict` | latencypredictor/prediction_server.py:539-624 | one prediction: validation, readiness, choice of regime and models |
| `PredictionAnswers.PredictionAnswered` | latencypredictor/prediction_server.py:539-624 | a single prediction is refused with 400 exactly when a required field is missing or no number, else with 503 without models; otherwise it is the answer of the two single models, or with the ensemble of the no-queue models for an empty queue and the queued ones otherwise, shown the request's own fields, the queue columns dropped exactly in the no-queue regime |
| `PredictionAnswers.FastAnswered` | latencypredictor/prediction_server.py:731-830 | the fast path gives every request of the list the same, shown its tokens in flight too |
| `Prediction.Scatter` | latencypredictor/prediction_server.py:704-706 | values land at their indices and nowhere else |
| `Prediction.PredictRegime` | latencypredictor/prediction_server.py:689-706 | the rows of one regime are predicted together and scattered, the others untouched |
| `Prediction.PredictRows` | latencypredictor/prediction_server.py:681-720 | partition by queue regime, prediction and scatter give every row its own value |
| `Prediction.PredictBatch` | latencypredictor/prediction_server.py:626-729 | the batch: validation of all rows first, then readiness, then the rows |
| `Prediction.BatchIsMap` | latencypredictor/prediction_server.py:539-729 | a batch is the single predictions in order, save that an ensemble leaves rows of negative queue length at zero; it fails when a single one would, a bad row first, and when it is empty without an ensemble |
| `Prediction.BatchRowIff` | latencypredictor/prediction_server.py:685-708 | for valid rows, a batch gives a row its single prediction under every ensemble if and only if its queue length is not negative |
| `Prediction.NegativeQueueFails` | latencypredictor/prediction_server.py:685-708 | a row with queue length minus one, alone in a batch, is left at zero |
| `Prediction.PredictBatchFast` | latencypredictor/prediction_server.py:731-837 | the fast path over request objects |
| `Prediction.FastAgreesIff` | latencypredictor/prediction_server.py:750-789 | the fast path agrees with the single predictions for all models if and only if tokens in flight are disabled or zero throughout |
| `ModelSnapshot.NoMixedSnapshot` | latencypredictor/prediction_server.py:486-496 | however loads and predictions interleave field by field under the lock, all the models of one prediction come, each from its own field, from one load: the one that had finished last when the prediction took the lock |
| `ModelSnapshot.SomeoneCanMove` | latencypredictor/prediction_server.py:486-563 | whoever holds the lock can go on, and without a holder a new load or prediction can take it |
| `HeaderLog.LogReplays` | pkg/bbr/framework/types.go:43-57 | after any edits, replaying the recorded sets and removals in either order on the original headers gives the final headers, and no header is in both |
| `HeaderEdits.HeaderIsLastEdit` | pkg/bbr/framework/types.go:43-57 | after any edits a header is as the last edit on it says: set to its value, or absent when removed |
| `HeaderEdits.UntouchedHeader` | pkg/bbr/framework/types.go:43-57 | a header no edit touches is as it was, and not in the log |
| `HeaderEdits.FieldIsLastEdit` | pkg/bbr/framework/types.go:67-82 | after any edits a body field is as the last edit on it says: that of the body set, the value set, or absent when removed |
| `HeaderEdits.UntouchedField` | pkg/bbr/framework/types.go:67-82 | a body field no edit touches is as it was |
| `HeaderEdits.MutatedIff` | pkg/bbr/framework/types.go:67-86 | the body counts as mutated if and only if it or a field was set, or a field it came with was removed |
| `HeaderEdits.AnsweredIff` | pkg/bbr/handlers/request.go:63-84 | a request is answered exactly when its body parses, no plugin fails and a mutated body can be marshalled, and each failure is told apart |
| `HeaderEdits.WholeReplied` | pkg/bbr/handlers/request.go:112-138 | without streaming there is one reply, with a body exactly when it was mutated: the marshalled one, whose length the replayed headers give |
| `HeaderLog.StreamedLength` | pkg/bbr/handlers/request.go:63-111 | in streaming mode the replies are one header reply and then chunks that join to the body sent on, and the replayed headers are those the edits leave with their total as Content-Length |
| `HeaderLog.InferenceMessage.SetHeader` | pkg/bbr/framework/types.go:43-49 | records a set only when it changes something, and takes back a removal |
| `HeaderLog.InferenceMessage.RemoveHeader` | pkg/bbr/framework/types.go:51-57 | records a removal only of a present header, and takes back a set |
| `HeaderLog.InferenceMessage.RunRequestPlugins` | pkg/bbr/handlers/request.go:141-155 | the plugins' edits in order |
| `HeaderLog.InferenceMessage.HandleRequestBody` | pkg/bbr/handlers/request.go:63-138 | parse, plugins, length header and replies, with each failure |
| `HeaderLog.AddStreamedBodyResponse` | pkg/bbr/handlers/request.go:157-169 | one reply per chunk, after the replies before |

## Left out

- gRPC, HTTP, Kubernetes client, TLS, tracing, logging, Prometheus: only the running-request gauge and the director's completion calls are kept, as counters in the stream's context.
- JSON, request parsing, header filtering and marshalling: parameters of the step that uses them; dynamic metadata and the other headers of a reply are not modelled.
- Filter, scorer, picker, saturation and flow-control plugins, and the scheduler loop: their outcome is part of `Director.Verdict`; a schedule that picks an empty endpoint list, on which the code panics, is not modelled.
- Training, model files and downloads: a model is a function of one row's features, and a scaler is part of it.
- Float rounding: shares and predictions are exact; in `Sampler` a share is the truncated exact quotient.
- Races inside one store operation: each store operation is one step, and collectors are held as values in the store, while `Collecting.Collector` shows the object.
- Datastore objectives, the runtime's Configure, Start and Stop, extractors and polling: no property spans them.
- Pods of other namespaces: the manager's cache holds the pool's namespace only (pkg/epp/server/controller_manager.go:47-57), so a cluster is the pods of that namespace by name.
- The timeout around the data plugins (pkg/epp/requestcontrol/plugin_executor.go:41-56): it abandons the run and adds only an error.
- The caller's own context in the coalescer: a caller that gives up changes nothing for the dispatcher; processing times are not modelled.
- PluginGraph.RunsAfterItsProducers: for plugins with distinct names, as the plugin handle keeps them in a map by name, and data plugins that produce and consume, as their interface demands.
- PiecewiseRename.PiecewiseRewriteIff: for names without a quote; with one, the condition is sufficient (`PiecewiseRename.PiecewiseRewrite`) but not necessary (`PiecewiseRename.QuotedNames`).
- The `stable` flag of the rewrite store is not in the code, which sorts unstably: with the flag off the store is the code's, with it on the model says what a stable sort would give.
- Coalescer.CallerGetsOwnRows: about servers that predict row by row, in order, and may stop short.
- Prediction.PredictBatchFast: for a nonempty list, as the request type demands (latencypredictor/prediction_server.py:890-891).
- TopologicalSort.Reverse: on values; the slice is reversed in place in the code.
