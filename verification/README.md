# The gateway's admission and routing engine, verified

A Dafny model of how the gateway admits a request, which mesh node it sends it to, and how every
concurrency token, every reservation and every buffered byte comes back. `dafny verify dfyconfig.toml`
checks it all.

The model follows the program's own form. What the program changes in place (the Picker's tables, the
limiter's buckets, the key set under construction, the request that a handler carries through) is a
class or a method with loops, proved against specification functions; what is an expression in the
program (the path classification, the token printer and parser) is a function.

| file | what it holds |
|---|---|
| `PickerModel.dfy`, `Picker.dfy` | what Pick, its release and View decide, as values; and the class that collects, sorts, rotates and counts, proved to decide just that |
| `PickerRuns.dfy` | runs of Pick, release and View calls in any order; what the table of reservations holds after one |
| `Rotation.dfy`, `Burst.dfy`, `Isolation.dfy`, `Accounting.dfy`, `Views.dfy` | fairness of the rotation, levelling of bursts, non-interference of models, no double charging, the sticky view |
| `TokenBucket.dfy`, `RateLimit.dfy`, `RateTheory.dfy` | the arithmetic of a bucket; the limiter; conformance, optimality, laziness and waiting times |
| `Paths.dfy` | which paths are refused, by what they resolve to |
| `Protocol.dfy` | one request as a machine: every point at which it can be interrupted, and what holds there |
| `Gateway.dfy`, `Traffic.dfy`, `Progress.dfy` | any number of requests interleaved over one semaphore, Picker and limiter: conservation, single delivery, the cause of every answer, no waiting, termination |
| `Replay.dfy` | the one way for a request to be sent to two nodes, as a run of the whole gateway |
| `Router.dfy` | the handlers as the code runs them, step by step and with any other requests in between, proved to be runs of that system |
| `Text.dfy`, `Base64.dfy`, `Decimal.dfy`, `Token.dfy`, `Keys.dfy`, `Sessions.dfy` | session tokens, the key set, and the two together |
| `Names.dfy`, `Sorting.dfy`, `Options.dfy`, `Clock.dfy` | the order on names, an insertion sort that meets sort.Slice's contract, values that may be absent, nanoseconds |

## How the parts meet

`Picker.Picker` and `RateLimit.Allow` are proved equal, call by call, to the functions `AfterPick`,
`AfterRelease`, `AfterView` and `AfterAllow`. The theorems about runs are about those functions.
`Gateway.System` steps through the same functions, and `Traffic` shows that in every run of the
gateway the Picker and the limiter go through a legal run of their own. The theorems of `Rotation`,
`Burst`, `Views` and `RateTheory` are about such runs; those of `Isolation` and `Accounting` are about
callers and histories of reports, and are carried over by `Traffic.GatewayIsolatesModels` and
`Traffic.ForwardsAreCountedOnce`. `Router.Handler` calls the classes themselves and logs each thing it
does as a step of `Gateway.System`; between any two of its steps other requests go through any run of theirs on
the same semaphore, Picker and limiter (`Router.EveryRunOfOthersIsActs`), and are logged too. Its invariant says that the log is a run and that
everything shared, the body and the answers are as that run left them.

A request's deferred calls are a stack of values, kept apart from the variable `release`: routeByModel
defers the semaphore's release before that variable is overwritten by Pick
(internal/proxy/router.go:320, internal/proxy/router.go:357), and it is the stacked value that runs;
`Gateway.LateBindingWouldLeak` says what that is worth.

Inputs of the model: the member table, the reports, every clock reading, the freshness predicate, the
extracted model name, and everything a client, a node or the network does.

## Where the code and its promises differ

* **Retry-After can be a moment too early.** The comment at internal/proxy/router.go:152-157 says the
  wait is rounded up so that a client is never invited back before a token exists. The wait was
  already cut to whole nanoseconds (internal/ratelimit/ratelimit.go:121). When the cut wait happens
  to be a whole number of seconds, the header is short by less than a nanosecond.
  `RateTheory.HeaderSufficesExactlyWhen` says exactly when, `RateTheory.HeaderCanBeTooEarly` gives
  an instance, and `RateTheory.TruncationIsSmall` bounds what is missing.
* **A clock that goes back earns twice.** The limiter reads its clock before it takes the lock
  (internal/ratelimit/ratelimit.go:89-92) and keeps even an earlier reading, so readings out of order
  credit the same time more than once: `RateTheory.LengthDoesNotBound`. What holds for every order is
  `RateTheory.WindowsAreBounded`, and `RateTheory.ForwardIsLengthAndBack` says by how much it differs.
* **Pick can overstate a node's free slots.** Pick reads its clock before it takes the lock
  (internal/fleet/picker.go:105-108), so a report received in between looks newer than a reservation
  it does not count. A Pick keeps the accounts if and only if it is stamped after the report of the node
  it chose (`Accounting.PickAccountsExactlyWhen`), and makes that node look freer than it is if and only
  if it is stamped no later than the report, saw a free slot, and the report counts nothing that has ended
  (`Accounting.PickOverstatesExactlyWhen`). `Accounting.ClockReadBeforeTheLockOverstates` is an instance.
* **An unreachable node may have been sent the request.** internal/proxy/forward.go:24-29 says that only
  a failure to dial is retried, so that no generation runs twice. net/http's Transport sends a request
  again when a kept-alive connection dies under it, if the request counts as idempotent, as any does that
  carries an Idempotency-Key header, and its body can be had again; readBody sets GetBody
  (internal/proxy/router.go:523-526). If that second dial fails, the failure is a dial failure, and the
  router sends the request to a second node. `Protocol.TwoNodesExactlyWhen` says for which requests this can happen, `Replay.TwoNodesHappen` gives the run;
  without a replay the promise holds (`Gateway.DeliveredAtMostOnce`).
* **Load refuses more than shared secrets.** It refuses two keys with one secret because revoking one
  would leave the other working (internal/keys/keys.go:54-56). On a list that sets a label twice it also
  refuses secrets that no two labels would share: `Keys.OverRefusesExactlyWhen` says when, and
  `Keys.ReplacedSecretStaysTaken` is an instance. The program calls it with the environment of its process,
  which lists every variable once (cmd/viiwork-gateway/main.go:36), and there the check is exact:
  `Keys.ExactOnEnvironments`.

## Model

| member | source | states |
|---|---|---|
| `Picker.Picker.Pick` | internal/fleet/picker.go:104-176 | collecting, sorting and rotating choose, for any member table, a node that no other candidate beats, and reserve it; where names are distinct it is exactly the one the specification names: the k-th leader in name order at the rotation's index, advanced only past a tie; failing leaves everything as it was |
| `Picker.Picker.Collect` | internal/fleet/picker.go:111-133 | the candidates are exactly the members that can serve the model, with their clamped free slots and their reports' addresses, each once if it is listed once |
| `Picker.Arrange` | internal/fleet/picker.go:138-155 | after sorting, the measured prefix holds only nodes that no candidate beats, and where each node is there once it is all of them in name order |
| `Picker.TiedPrefixIsLeaders` | internal/fleet/picker.go:138-155 | in any list ordered by free slots, round-trip time and name, the nodes equal to the first are exactly the unbeaten ones, in name order |
| `Picker.Picker.Reserved` | internal/fleet/picker.go:184-192 | the walk counts the reservations of that node and model stamped after the report was received, whatever order the table is walked in |
| `Picker.Picker.View` | internal/fleet/picker.go:202-252 | the view is the first eligible listed name, or else the present view while eligible, or else the least eligible name; nothing else of the Picker changes |
| `Picker.LeastName` | internal/fleet/picker.go:245-250 | sorting the eligible names and taking the first gives the one that comes before every other: a proper prefix of it, or smaller at the first character that differs |
| `Names.LessIsLexicographic` | internal/fleet/picker.go:148-148 | the order on names: a proper prefix comes first, and otherwise the first character that differs decides |
| `Picker.Release.Call` | internal/fleet/picker.go:167-174 | the first call of a release removes its own reservation; later calls, and the release of a failed Pick, do nothing |
| `PickerModel.PickChoiceMeetsSpec` | internal/fleet/picker.go:111-161 | Pick fails if and only if no member is alive, remote, a node, not excluded, freshly reported and with a healthy backend for the model; otherwise it chooses such a member, at its report's address, and no other has more clamped free slots, or as many and a lower round-trip time; spelled out on member and report fields |
| `PickerModel.FreeIsWhatIsLeft` | internal/fleet/picker.go:124-127 | the free slots compared are slots less busy less the reservations for that node and model stamped after its report, and zero when that is negative |
| `PickerModel.RotationStartsAtTheFirst` | internal/fleet/picker.go:156-161 | a model that was never rotated is given the first of the tied nodes in name order |
| `PickerModel.ViewIsAReachableMember` | internal/fleet/picker.go:209-251 | whatever View answers is a member that is alive, remote, a node and freshly reported, at its own report's address |
| `PickerModel.PickIgnoresMemberOrder` | internal/fleet/picker.go:112-161 | the choice and the new state are the same for every order of the member table |
| `PickerRuns.IssuedAreNew` | internal/fleet/picker.go:163-165 | over any run the ids handed out are all at or above the counter at the start and below the one at the end |
| `PickerRuns.ReleasesRemoveTheirOwn` | internal/fleet/picker.go:163-175 | after any run of Picks, Views and any number of calls of any releases in any order, what is held is what was held or issued less what was released |
| `Rotation.PicksWalkTheTie` | internal/fleet/picker.go:151-161 | from any index, Picks of one model that all meet one tie choose its nodes cyclically in name order, whatever calls for other models come between |
| `Rotation.RotationIsFair` | internal/fleet/picker.go:151-161 | in any such run no two tied nodes are chosen numbers of times that differ by more than one |
| `Rotation.EveryTurnVisitsAll` | internal/fleet/picker.go:151-161 | any k of such Picks in a row choose each of the k tied nodes exactly once |
| `Burst.PickTakesOne` | internal/fleet/picker.go:124-127 | between reports a Pick lowers the effective free slots of the chosen node by one, if it had any, and of no other |
| `Burst.BurstIsGreedy` | internal/fleet/picker.go:111-165 | a burst of Picks between reports is the greedy game on the effective free slots |
| `Burst.BurstIsLevel` | internal/fleet/picker.go:111-165 | after a burst of any length no node has more than one effective slot more than any node chosen in it |
| `Burst.BurstTakesShares` | internal/fleet/picker.go:124-165 | while the burst fits into the effective slots at its start, each node loses exactly the slots it was chosen for and the total falls by one per Pick, so no node gets more than its share |
| `Isolation.ModelsDoNotInterfere` | internal/fleet/picker.go:57-65 | in any interleaving of any callers, one model's answers, rotation and reservations (up to ids) are those of the run with every other model's calls and every View left out |
| `Isolation.ErasedAreItsOwn` | internal/fleet/picker.go:57-65 | the run without the other models is that model's own calls, every one of them |
| `Isolation.FreshPickerIsolatesModels` | internal/fleet/picker.go:71-84 | so it is for every run of a new Picker |
| `Accounting.RunStaysAccounted` | internal/fleet/picker.go:178-192 | in histories where each Pick is stamped after its node's report, and each report after the reservations it counts, the reservations stamped after a report are exactly those it does not count |
| `Accounting.PickAccountsExactlyWhen` | internal/fleet/picker.go:104-109 | a Pick leaves the reservations stamped after a report to be exactly those it does not count if and only if it is stamped after the report of the node it chose |
| `Accounting.EveryForwardIsChargedOnce` | internal/fleet/picker.go:124-127 | in such runs the effective free slots of a node are its slots less the forwards truly in flight, less those the report still counts although they have ended, clamped at zero; so never above the truth, and equal to it when none has ended |
| `Accounting.ChargeIsExactUpTo` | internal/fleet/picker.go:178-192 | with no assumption about clocks: how far the figure is from the truth, as forwards gone, counted twice and missed |
| `Accounting.PickOverstatesExactlyWhen` | internal/fleet/picker.go:104-127 | a Pick makes its node look freer than it is if and only if it is stamped no later than the report it reads, saw a free slot, and the report counts no forward that has ended |
| `Accounting.ClockReadBeforeTheLockOverstates` | internal/fleet/picker.go:105-108 | a report received between the clock reading and the lock makes a full node look free |
| `Views.RunShowsSights` | internal/fleet/picker.go:202-252 | what View calls answer in a run depends on what they saw eligible and not on the Picks and releases between them |
| `Views.ViewSticks` | internal/fleet/picker.go:240-251 | with no allowlist each answer is the name that was least when the choice before it was lost, and it has been eligible and the answer ever since |
| `Views.FirstViewIsFirstName` | internal/fleet/picker.go:242-251 | with no allowlist and no view yet, the node answered is the first eligible one in name order, spelled out character by character |
| `Views.SwitchesAreForced` | internal/fleet/picker.go:240-251 | the view moves to another node no more often than a call found the present one ineligible |
| `Views.AllowlistDecides` | internal/fleet/picker.go:227-238 | with an allowlist the answer is n if and only if n is its first eligible name, whatever the history; there is none if and only if none of its names is eligible |
| `Views.PickChoosesEligible` | internal/fleet/picker.go:111-135 | on one snapshot every node Pick can choose is eligible for View, at the same address |
| `Views.NoHealthyNodeExactlyWhen` | internal/proxy/router.go:357-368 | with no allowlist a model-routed request finds no node at all if and only if no alive remote node has a fresh report |
| `TokenBucket.LevelIsLeastWindow` | internal/ratelimit/ratelimit.go:105-114 | the counter equals the least, over all windows that end at a request, of burst plus credit less admissions |
| `TokenBucket.AdmittedIffWindowsConform` | internal/ratelimit/ratelimit.go:105-116 | a request is admitted if and only if it fits, as one more, every window that ends with it |
| `TokenBucket.GreedyIsOptimal` | internal/ratelimit/ratelimit.go:113-116 | no choice of requests that never overdraws the bucket has admitted more at any prefix |
| `TokenBucket.GreedyIsFeasible` | internal/ratelimit/ratelimit.go:113-116 | what the bucket admits is itself a choice that never overdraws, so the optimum is attained |
| `RateLimit.Limiter.New` | internal/ratelimit/ratelimit.go:58-69 | a rate that is not positive switches limiting off; otherwise the rate is per second and the burst at least one |
| `RateLimit.Allow` | internal/ratelimit/ratelimit.go:84-123 | refilling, capping and spending in place give the specified decision and bucket, touch no other label, keep every bucket between zero and the burst, and report the wait in whole nanoseconds |
| `RateTheory.LabelsAreIndependent` | internal/ratelimit/ratelimit.go:94-100 | the decisions for a label in any run are those of its own bucket at its own times |
| `RateTheory.DecisionsAreTheBucketGame` | internal/ratelimit/ratelimit.go:94-116 | for clock readings in any order a new label's decisions are those of a bucket credited the rate times each step forward and nothing for a step back |
| `RateTheory.WindowsAreBounded` | internal/ratelimit/ratelimit.go:89-116 | for clock readings in any order no window has more requests allowed than the burst plus the rate times the clock's steps forward in it, which for readings in order is its length |
| `RateTheory.ForwardIsLengthAndBack` | internal/ratelimit/ratelimit.go:105-111 | what a window is credited is its length plus what the clock went back in it, so its length alone if and only if its readings are in order |
| `RateTheory.LengthDoesNotBound` | internal/ratelimit/ratelimit.go:89-111 | for readings out of order the burst plus the rate times a window's length is no bound: at rate 1 and burst 1, readings 0, -1, 0 have two requests allowed |
| `RateTheory.AllowedIffWindowsConform` | internal/ratelimit/ratelimit.go:105-116 | a request is allowed if and only if every window that ends with it stays within that bound |
| `RateTheory.NothingRefusedIffConformant` | internal/ratelimit/ratelimit.go:84-116 | with the clock in order a label is never refused if and only if every n of its requests over a time t have n <= burst + rate * t |
| `RateTheory.AllowIsOptimal` | internal/ratelimit/ratelimit.go:84-116 | no other way of spending the same allowance has let more requests through at any point of any run |
| `RateTheory.LazyIsEager` | internal/ratelimit/ratelimit.go:102-111 | refilling and capping at every point of any subdivision of the idle time leaves at the last point, and at any later instant, what one refill gives |
| `RateTheory.WaitIsExact` | internal/ratelimit/ratelimit.go:118-121 | with the clock in order: after a refusal, and however many refused retries come between, a request is allowed if and only if it comes at or after the promised instant |
| `RateTheory.RetriesEarn` | internal/ratelimit/ratelimit.go:89-116 | for clock readings in any order: after a refusal and any number of refused retries, the next is allowed if and only if the tokens left then and what the clock's steps forward earned since make a whole one |
| `RateTheory.RoundingUpIsTight` | internal/proxy/router.go:158-163 | after a refusal, a client that comes back after the exact wait in whole seconds, rounded up and at least one, is allowed, and one that comes a second earlier is refused |
| `RateTheory.TruncationIsSmall` | internal/ratelimit/ratelimit.go:121-122 | after the wait in whole nanoseconds less than rate / 10^9 of a token is missing |
| `RateTheory.HeaderSufficesExactlyWhen` | internal/proxy/router.go:158-163 | a client that comes back when its Retry-After header says is allowed if and only if it is not the case that the truncated wait is a positive whole number of seconds and truncation dropped something |
| `RateTheory.HeaderCanBeTooEarly` | internal/proxy/router.go:152-163 | a client at 7 requests a minute that comes back exactly when its Retry-After header told it to is refused again |
| `Paths.PowerPathByMeaning` | internal/proxy/router.go:229-235 | isPowerPath holds if and only if the path is rooted and resolves to v1/power or v1/mesh/power up to case |
| `Paths.AliasWriteByMeaning` | internal/proxy/router.go:248-263 | isAliasWrite holds if and only if the method is not a read and the path resolves to v1/aliases or below, up to case |
| `Paths.OrdinaryPathMeansItself` | internal/proxy/router.go:229-233 | a rooted path of segments other than empty, one dot and two dots resolves to those segments |
| `Paths.RootHasNoParent` | internal/proxy/router.go:229-233 | two dots at the root are nothing |
| `Paths.DotsAtTheEnd` | internal/proxy/router.go:229-233 | at the end of a path one dot is nothing, and two dots take the segment before them away |
| `Paths.EqualFoldByLetters` | internal/proxy/router.go:234-234 | texts are equal up to case if and only if they are as long and each character is the same or the two are one letter in both cases |
| `Paths.DetourVanishes` | internal/proxy/router.go:211-222 | "//", "/./" and "/x/../" resolve as "/" does, anywhere in a path |
| `Paths.SpellingDoesNotMatter` | internal/proxy/router.go:211-263 | no such detour and no trailing slash changes either classification |
| `Paths.ForbiddenByMeaning` | internal/proxy/router.go:169-188 | ServeHTTP refuses a request outright if and only if its path resolves to power control, or to the alias table under a method that is not a read |
| `Paths.ByModelExactlyWhen` | internal/proxy/router.go:189-190 | a request is routed by model if and only if it is a POST to /v1/chat/completions, /v1/completions or /v1/embeddings |
| `Paths.ViewPathKept` | internal/proxy/router.go:204-209 | a request for the view node keeps its path, except that a GET of / becomes /mesh |
| `Protocol.StepFits` | internal/proxy/router.go:289-404 | whatever happens next to a request at whatever point, its deferred calls, body, nodes tried and reached, and answers stay as its position says |
| `Protocol.EveryStepAdvances` | internal/proxy/router.go:289-473 | every event moves a request on to a later stage, or on by a byte within its stage |
| `Protocol.TwoNodesExactlyWhen` | internal/proxy/forward.go:24-29 | some run of a request connects to two different nodes if and only if it is model-routed, the transport may replay it, and its body is within the limit |
| `Replay.TwoNodesHappen` | internal/proxy/forward.go:24-29 | with two members that serve the model, a free token and a limiter that allows, there is a run of the whole gateway in which a replayable, model-routed request within the body limit is sent to two different nodes |
| `Gateway.EveryStepFits` | internal/proxy/router.go:117-140 | whichever request moves, tokens in use are the requests that hold one, and the Picker's reservations match the requests inside forwardHolding one to one |
| `Gateway.NothingLeaks` | internal/proxy/router.go:117-140 | in every run of any number of requests, tokens in use are the requests between acquiring and returning one, at most the cap; reservations are as many as requests inside forwardHolding; buffered bytes are at most the cap times one more than the body limit; and when all have finished, by any outcome, nothing is left taken |
| `Gateway.InFlightAreForwards` | internal/fleet/picker.go:163-175 | in every state the reservations for a node and a model are as many as the requests now being forwarded to that node for that model |
| `Gateway.DeliveredAtMostOnce` | internal/proxy/router.go:376-404 | of every request in every run: at most two nodes are tried, different ones; exactly the bytes posted are sent, once and once more for each replay by the transport, to nodes that were tried; at most one answer is begun, and a finished request has one unless its client had gone; a 502 for unreachable nodes names the last one tried. Where nothing was replayed, at most one node is connected to, the last tried, and none before such a 502; two nodes are connected to only after a replay |
| `Gateway.RetryHoldsNothing` | internal/proxy/router.go:376-392 | when a retry picks, the first node is the only one tried, it was connected to only as often as the transport replayed, nothing was answered, the body is rewound, and every reservation held is another request's |
| `Gateway.LateBindingWouldLeak` | internal/proxy/router.go:315-320 | in every run the variable `release` of a model-routed request that was sent to a node is not the token's any more, and in its first forward is its reservation's; so the token comes back because the deferred call was bound early, and would not if it were bound when it ran |
| `Gateway.AnswersHaveReasons` | internal/proxy/router.go:307-404 | in every run a request is answered 403 if and only if its path is forbidden, 429 if and only if the rate check refused it, 413 only for a body over the limit, and with a response or a 502 if and only if a node was tried; a body over the limit is never forwarded |
| `Gateway.AnswersAreCaused` | internal/proxy/router.go:307-404 | what each single step of any request answers, by where it is and what is shared then, and that it answers nothing else |
| `Gateway.EveryAnswerHadItsCause` | internal/proxy/router.go:307-404 | every answer in every run was given in one step of its own request, at a moment when its cause held: a 503 for capacity with every token in use, a 429 with the limiter refusing that key at that time, a 503 for want of a node with View finding none, a 502 after one failed node with Pick finding no other |
| `Gateway.ForbiddenNeverLeaves` | internal/proxy/router.go:169-188 | a request for power control or an alias write, however its path is spelled, reaches no node in any run and is answered 403 |
| `Gateway.ThrottledCostsNothing` | internal/proxy/router.go:289-310 | a request that the rate check refused holds no token, buffers nothing and is sent nowhere in any run; a model-routed request that holds, buffers or was sent anything has passed the check; requests for the view node are never checked |
| `Gateway.InferenceIsRated` | internal/proxy/router.go:189-190 | in every run a POST to one of the three inference paths that holds, buffers or was sent anything has passed its key's rate check, and no other request is ever rated |
| `Traffic.PickerRunsUnder` | internal/fleet/picker.go:45-48 | inside every run of the gateway the Picker goes through a run of its own in which only handed-out ids are released |
| `Traffic.GatewayIsolatesModels` | internal/fleet/picker.go:57-65 | in every run of the gateway what Pick tells the requests for one model is what it tells them when no other model is asked for |
| `Traffic.ForwardsAreCountedOnce` | internal/fleet/picker.go:124-127 | in a run that reads an orderly history of truthful reports, the free slots Pick uses for a node are its slots less the requests now being forwarded there, less those the report still counts although they have ended |
| `Traffic.ReleasedAtMostOnce` | internal/proxy/router.go:124-127 | no reservation is given back twice in any run, so the router never relies on extra release calls being no-ops |
| `Traffic.EverythingIsReleased` | internal/fleet/picker.go:94-96 | when all requests have finished, the ids given back are exactly those Pick handed out, each once |
| `Traffic.KeysAreLimited` | internal/proxy/router.go:307-310 | however requests interleave, those of one key that pass the rate check in a window are within the burst and what the rate earns |
| `Traffic.SentAreLimited` | internal/proxy/router.go:289-310 | over any run, however requests interleave, the model-routed requests of one key that are sent to any node are at most the burst plus what the rate earns while the clock moves forward from the key's first rate check to its last |
| `Progress.GatewayDrains` | internal/proxy/router.go:117-140 | from any reachable state, runs without arrivals are no longer than the steps the requests have left, and one that cannot be continued has finished every request and given back every token and reservation |
| `Progress.EveryRequestEnds` | internal/proxy/router.go:289-473 | a request takes at most eighteen steps, and two for each replay, for each byte it posted and one more, in runs of any length |
| `Router.Gate.TryAcquire` | internal/proxy/router.go:133-140 | a token is taken if and only if the cap is not reached, and otherwise nothing changes |
| `Router.Handler.Yield` | internal/proxy/router.go:96-115 | a list of acts of other requests takes place, each if it can where its request is, by the same calls on the shared semaphore, Picker and limiter; each is a step of the system, and this request is not changed |
| `Router.EveryRunOfOthersIsActs` | internal/proxy/router.go:96-115 | whatever run the other requests go through between two steps of a handler, some list of acts is that run |
| `Router.Handler.ReadBody` | internal/proxy/router.go:496-528 | a body is read whole and unchanged if and only if no error comes before its end and it is within the limit; otherwise the error is the first of a broken upload and one byte past the limit; the reads are steps of the system |
| `Router.Handler.HandleError` | internal/proxy/forward.go:128-150 | only a failed dial is reported back, with nothing written; a hung-up client is not answered; every other failure is answered 502 |
| `Router.Handler.To` | internal/proxy/forward.go:160-169 | To reports a node unreachable if and only if its last dial failed, and then has written nothing; a node's response and a 502 after any other failure are written, a hung-up client is not answered; replays go to the same node; the deferred calls are left alone however it ends, and others may act before each dial, after it and while the response streams |
| `Router.Handler.ForwardHolding` | internal/proxy/router.go:124-127 | the reservation is given back however the forward ends, a panic included, and the token is kept; others may act between the end of the forward and the release |
| `Router.Handler.Retry` | internal/proxy/router.go:385-403 | at most one more node is tried, never the one that failed, and the token is kept |
| `Router.Handler.RouteBody` | internal/proxy/router.go:357-404 | with a node, without one, and with a retry, the reservations are given back and the token is kept, whatever other requests do in between |
| `Router.Handler.RouteByModel` | internal/proxy/router.go:289-404 | rate check, token, body, Pick and forward in that order, with any other requests in between: a run of the system that ends with the request finished and everything it took given back |
| `Router.Handler.RouteToView` | internal/proxy/router.go:423-473 | token, View, body and forward in that order, with any other requests in between: a run of the system that ends with the request finished and everything it took given back |
| `Router.Handler.ServeHTTP` | internal/proxy/router.go:169-209 | one request, whatever the world does to it and whatever others do in between, is handled by a run of the system that ends with it finished and delivered at most once; the semaphore and the reservations are then exactly what the others hold, and as it found them if the others are |
| `Base64.RoundTrip` | internal/auth/token.go:20-23 | decoding undoes encoding for every byte string |
| `Base64.AlphabetIs` | internal/auth/token.go:21-21 | the digits are A to Z, a to z, 0 to 9, minus and underline, in that order |
| `Base64.LineEndsAndStrangers` | internal/auth/token.go:39-42 | decoding skips line ends wherever they stand and refuses every other character that is not in the alphabet |
| `Base64.SingleLeftOver` | internal/auth/token.go:39-42 | a text of digits is refused if and only if a single digit is left over |
| `Base64.SpareBits` | internal/auth/token.go:39-42 | the bits left over in the last digit are not looked at |
| `Base64.EncodeHasNoDot` | internal/auth/token.go:18-19 | an encoded text never holds the delimiter |
| `Decimal.RoundTrip` | internal/auth/token.go:22-22 | parsing undoes printing for every 64-bit integer, and a printed one holds no delimiter |
| `Decimal.PrintedPlainly` | internal/auth/token.go:22-22 | a printed number has a minus if and only if it is negative, and no leading zero |
| `Decimal.ParseIntExactly` | internal/auth/token.go:56-59 | digits parse to their value, with a plus too, and negated with a minus, if and only if that is in 64 bits |
| `Decimal.OnlyNumbersParse` | internal/auth/token.go:56-59 | nothing parses but one sign at most and then digits, at least one |
| `Token.AcceptedIffGoodParts` | internal/auth/token.go:29-63 | a token is accepted for a label if and only if it is three dot-free parts that decode to the label, parse to an expiry still ahead, and carry the signature under the label's secret |
| `Token.MintSpells` | internal/auth/token.go:20-24 | a token is the encoded label, the Unix second of its expiry and the encoded MAC, under the secret, of the first two with a dot between |
| `Token.MintedVerifiesExactlyWhen` | internal/auth/token.go:20-63 | a minted token verifies if and only if its label resolves to a secret that signs its text alike and it is earlier than the expiry less its fraction of a second |
| `Token.RoundTripExpiryRevocation` | internal/auth/token.go:20-63 | under the same secret a minted token verifies as its label before its expiry less the fraction of a second and never from then on; once the label is gone it does not verify |
| `Token.SignedTextsDiffer` | internal/auth/token.go:18-23 | different labels or different expiry seconds give different signed texts |
| `Token.MovedSignatureNeedsCollision` | internal/auth/token.go:49-52 | a signature moved to another label or expiry is accepted only if the two signed texts have the same MAC |
| `Keys.Load` | internal/keys/keys.go:32-67 | loading succeeds if and only if there is a key and every key is labelled, long enough and has a secret of its own; otherwise the first entry at fault is reported; the labels come out sorted, each once. On an environment that names every variable once, Secret then finds v for l if and only if VIIWORK_KEY_l=v is in it; one without a label or with fewer than 24 bytes is refused |
| `Keys.TableIsTheEnvironment` | internal/keys/keys.go:36-58 | on such an environment the table holds exactly the variables of the program's prefix |
| `Keys.SoundMeansOneSecretEach` | internal/keys/keys.go:54-58 | in a loaded set no two labels share a secret |
| `Keys.OverRefusesExactlyWhen` | internal/keys/keys.go:54-58 | well-formed keys are refused although no two labels would share a secret if and only if two entries share one and no two entries that survive in the table do |
| `Keys.ExactOnEnvironments` | internal/keys/keys.go:37-58 | on a list that names every variable once, as a process's environment does, well-formed keys are accepted if and only if no two labels share a secret |
| `Keys.DistinctLabelsShareNothing` | internal/keys/keys.go:54-58 | where every label is set once, the duplicate check refuses exactly the well-formed lists in which two labels share a secret |
| `Keys.ReplacedSecretStaysTaken` | internal/keys/keys.go:54-58 | on a list that sets a label twice, the secret it lost is still refused to another label |
| `Keys.Lookup` | internal/keys/keys.go:72-85 | Lookup finds l for a secret if and only if Secret finds that secret for l: the two are inverse to each other |
| `Sessions.SessionLastsExactly` | internal/keys/keys.go:87-93 | across a change of keys a session of an unchanged label lasts until its expiry less the fraction of a second and no longer, and one of a deleted label ends |
| `Sessions.OnlyItsOwnKeyMatters` | internal/auth/token.go:26-28 | whether any token is accepted for a label depends on that label's key alone |
| `Sessions.DeletedKeyAcceptsNothing` | internal/auth/token.go:10-15 | with a label's variable deleted no token whatever is accepted for it |

## Left out

- Mesh membership, gossip and the capacity poller: the member table and the reports are inputs of each call; so are capacity freshness, a report's entry for a model, and slots minus busy, which are not part of this repository.
- internal/proxy/forward.go's ReverseProxy, transport and dialling: only the ways a forward can end, and that the transport may replay a request to the same node when a connection dies under it. Which requests net/http replays, and how often it can, is an input of the model; a replay of a request of which nothing was written yet is not told from a first attempt.
- JSON: the model name is taken from the body before the model begins.
- Headers, error bodies, the landing page, redirects, the access log and the request-info plumbing.
- HMAC-SHA256: any function of a secret and a text; comparisons are plain equality, and timing is not modelled.
- Floating point: tokens, rates and seconds are reals. A clock reading is a real for the limiter and an integer of nanoseconds for the Picker and the tokens; instants lie where whole Unix seconds fit 64 bits, so the overflow of far-off expiry times is not modelled.
- Reservation ids are unbounded, as is the body limit plus one: the wrap of 64-bit counters is not modelled.
- Non-ASCII case folding and path.Clean's byte-level code: paths are ASCII, and Clean is modelled by its documented rules on segments. The paths of the node's API are declared in a package that is not part of this repository; their values are those the comments and documentation name.
- Picker.Picker.Pick: where a member table lists a name twice, it promises a node that no candidate beats and not which one, since the rotation then counts that node twice; the runs of `PickerRuns` and `Gateway` take names to be distinct, as they are in a mesh.
- Router.Handler.ServeHTTP: the handler's own member tables have distinct names. The mutexes are not modelled, since each call of the Picker and of the limiter is one step; other requests come in between those.
- A token's release function is a count given back, not a channel; which waiting goroutine runs next does not arise, as nobody waits.
- NewRouter's defaults for limits that are not positive: the cap and the body limit are natural numbers already chosen.
- Configuration, client addresses, the login pages and the server's lifecycle.
