# EDHOC over CoAP: the handshake driver, proved

This project models the protocol driver that runs EDHOC (RFC 9528) over CoAP on both sides, and proves what
it promises. Cryptography, CBOR and CoAP transport belong to libedhoc and libcoap; their calls are parameters
here, so a theorem about any POST or any run holds for every outcome of every such call.

`dafny verify dfyconfig.toml` checks everything.

## How it is built

| file | part of the program |
|---|---|
| `Ownership.dfy` | the server as a state machine over runs: acts on contexts, enabled steps, invariant, theorems |
| `Dispatcher.dfy` | the POST handler as a class whose methods allocate, free, store and answer; one POST is one step |
| `SessionDictionary.dfy` | the slot array and the map it stands for |
| `Negotiation.dfy`, `ManageContext.dfy`, `CipherSuites.dfy` | validation, setup with its reordering, first-common search, the second attempt |
| `Exchange.dfy` | the client's callback, sends, wait loop and the flag that survives a reset |
| `Framing.dfy`, `Coap.dfy` | prefixes, routing, extraction, the bounded copy |
| `Responders.dfy` | the server's answers, the suite mismatch error, and the Responder's check of section 5.2.3 of RFC 9528 |
| `OscoreConfig.dfy` | hex digits into tight buffers, the six-line text, and a reader for it |
| `Handshake.dfy` | both parties together: negotiation end to end, the mismatch path, agreement on the outcome |
| `ConnectionIds.dfy`, `Common.dfy` | identifiers, generators, bytes |

Contexts and suite tables are objects, because the program compares and frees pointers. `Server.live` is a
ghost heap that only `Calloc` and `CleanupContext` change, and every method that touches a context needs it to
be live. `Server.history` is the run so far and `Server.answers` the codes it was answered with: `Valid` says
that the server is where this run leads, and `Post` is proved to take exactly one enabled step. The decision tables (`PostOutcome` and below it
`Message1Outcome`, `Message3Outcome`, `Message3Consumed`) say which answer and which step each case gets; the
lemmas about runs and codes use only the tables and the steps. What the tables themselves amount to is stated
without them, exit by exit and with the exact code, by `RefusedBeforeRouting`, `Message1IsAnswered`,
`UnknownSessionIsRefused` and `FoundSessionIsConsumed`, and for the default dependencies, in terms of request bytes
and library outcomes, by `PartialRequestsAreRefused`, `SessionOpensExactly` and `SessionIsBoundExactly`.

The members of the dispatcher's dependency table are arbitrary functions, new ones with each POST.
`DefaultDeps` is the table the server installs.

The negotiation theorems ask one thing of the other side: that it answers the Message 1s a client may send by
the check of section 5.2.3 of RFC 9528 (`AnswersByRule`). `NetworkAnswersByRule` proves this of the server's own
responder over a `WorkingLibrary`, a demand on libedhoc for the two lists at hand only, and `WorkingLibraryExists`
shows that it can be met whatever the lists. `NegotiateThroughServer` runs the whole negotiation through framing,
dispatcher, callback and wait loop.

## Where the code and its documentation differ

The model follows the code.

- The identifier generators pass their counter by value, so they never advance: the "even" one always gives 1
  and the "odd" one always 2. Hence at most one handshake is pending, although the dictionary has 10 slots.
- The documentation of setup says that adding the selected suite at the end does not affect the negotiation
  (include/edhoc/common/com_edhoc_manage_context.h, lines 46-48). For the client it does: its first Message 1
  carries all its suites with the selected one last, and section 5.2.3 of RFC 9528 makes the responder refuse
  it whenever it supports any other of them. The first attempt succeeds if and only if the selected suite is
  the only common one (`FirstAttemptIsAccepted`); `PreferredSuiteIsRefusedAtFirst` is a concrete case. The
  second attempt repairs this, so negotiation still is optimal, as far as the next point lets it.
- The client cuts lists of up to 10 suites, but the server's mismatch error has room for 8 of either party. If one
  list is longer, the error carries a text, which the client reads through the wrong member of a union. Such a
  negotiation succeeds if and only if the selected suite is the only common one, or what is found in the union
  happens to point at the first common suite (`CanAgree`, `NegotiationIsOptimal`); `NineSuitesFail` is a concrete
  failure in spite of a common suite. If both lists fit, it fails exactly when there is none (`FittingListsAgree`).
- `response_is_error` speaks about the response just received only if the callback accepts it. After Message 3 a
  5.00 whose body is not EDHOC leaves the older verdict, and the client goes on
  (`UnreadableErrorLooksLikeSuccess`). `VerdictIsCurrentExactlyWhenAccepted` gives the exact condition. This
  server's replies to Message 3 always meet it, because they never have a body.
- A leisure of 65535 seconds wraps to a budget of zero, and then the wait loop never times out (`Budget`).
- A poll that reaches the end of the budget is a timeout even when it delivered a response (`WaitEnd`).
- When a session cannot be stored, the 5.00 still carries Message 2 (`SecondMessage1IsRefused`).
- Message 3 under a one-byte identifier is framed by a cast, not by CBOR encoding: it comes back exactly for 0
  to 23, and -11 would be routed as Message 1 (`Message3RoundTrip`).
- `suites_details_are_valid` joins its tests with "or", so a suite without metadata passes validation and is
  then dereferenced (`SuiteWithoutMetadataFaults` is a concrete case). For valid parameters and working calls,
  setup follows a NULL pointer if and only if the tables are not complete (`SetupContext`). Behind such a fault
  the C program has no behaviour, so the callers of setup demand `CompleteTables`.

## Model

| member | source | states |
|---|---|---|
| Ownership.StepKeepsInv | src/coap/server/internal/srv_dispatch_engine.c:54-151 | every enabled step of the dispatcher keeps the ownership invariant: each context ever mentioned is stored under its key or freed, and allocations equal frees plus stored sessions |
| Ownership.InvOverRuns | src/coap/server/internal/srv_dispatch_engine.c:154-198 | the invariant holds after any run of POSTs |
| Ownership.OwnershipOverRuns | src/coap/server/internal/srv_dispatch_engine.c:54-151 | after any run the live contexts are exactly those in occupied slots, each in one slot, and allocations equal frees plus occupied slots |
| Ownership.NoUseAfterFree | src/coap/server/internal/srv_dispatch_engine.c:54-151 | in any run an allocation is the first act on its context, every other act comes after one, and none comes after a free, so nothing is freed twice |
| Ownership.OneShotConsumption | src/coap/server/internal/srv_dispatch_engine.c:107-151 | in any run a context sees at most one Message 3 processing and one OSCORE bind, and every bind was preceded, in this order, by storing that context, accepting its Message 3, and removing it under the same identifier |
| Ownership.NotConsumedTwice | src/coap/server/internal/srv_dispatch_engine.c:123-145 | in any lawful trace no two events process or bind the same context |
| Ownership.BindingIsEarned | src/coap/server/internal/srv_dispatch_engine.c:136-145 | in any lawful trace a bind was earned by store, acceptance and removal |
| Ownership.ConsumedWasOpened | src/coap/server/internal/srv_dispatch_engine.c:107-151 | in any run a session that a Message 3 consumes was opened by an earlier step, same context and identifier |
| Ownership.BoundByCompletion | src/coap/server/internal/srv_dispatch_engine.c:136-145 | every bind in the trace of a run is the act of a step that completed a session |
| Ownership.ConstantGeneratorPendsOne | src/edhoc/common/com_generate_connection_id.c:33-59 | if every session opens under the same identifier, at most one is pending after any run, and none can open beside it |
| Dispatcher.Server.Calloc | src/coap/server/internal/srv_dispatch_engine.c:55-60 | a fresh context becomes live and its allocation is recorded |
| Dispatcher.Server.CleanupContext | src/edhoc/common/com_edhoc_manage_context.c:105-117 | only a live context may be freed; afterwards it is not live, and the free is recorded |
| Dispatcher.Server.PrepareContext | src/coap/server/internal/srv_dispatch_engine.c:55-68 | the new context is ready exactly for valid parameters and working foreign calls; then it has the generated identifier and the configured suites |
| Dispatcher.Server.AnswerMessage1 | src/coap/server/internal/srv_dispatch_engine.c:69-91 | the answer is that of the decision table; the context is freed exactly when the code is not 2.04 |
| Dispatcher.Server.StoreInDictionary | src/coap/server/internal/srv_dispatch_engine.c:92-93 | a live context is stored under its own identifier exactly when that is new and a slot is free, and every stored context stays under its own |
| Dispatcher.Server.StoreContext | src/coap/server/internal/srv_dispatch_engine.c:92-97 | the context that was answered is stored or freed, so that afterwards the live contexts again are those in the dictionary |
| Dispatcher.Server.ServeMessage1 | src/coap/server/internal/srv_dispatch_engine.c:69-98 | a set-up context is answered and either stored or freed, as one enabled step |
| Dispatcher.Server.HandleMessage1 | src/coap/server/internal/srv_dispatch_engine.c:54-98 | the whole Message 1 path takes one enabled step, leaves the server consistent, and answers by its decision table |
| Dispatcher.Server.ConsumeContext | src/coap/server/internal/srv_dispatch_engine.c:123-151 | after a successful lookup every exit removes the entry before binding, frees the context once, and answers by the decision table |
| Dispatcher.Server.HandleMessage3 | src/coap/server/internal/srv_dispatch_engine.c:100-151 | the whole Message 3 path takes one enabled step and answers by its decision table; a session that is found is consumed on every exit: out of the dictionary, freed, and processed first if the identifier check passes; otherwise nothing changes; with the default check the identifier never mismatches |
| Dispatcher.Server.Dispatch | src/coap/server/internal/srv_dispatch_engine.c:154-198 | checks, parsing, options and routing answer by the decision table of a POST and take one enabled step |
| Dispatcher.Server.TakeStep | src/coap/server/internal/srv_dispatch_engine.c:154-198 | a POST with any foreign outcomes moves the server by exactly one enabled step of the run and keeps all of it valid; stored keys equal the contexts' identifiers, so a plain equality check cannot fail |
| Dispatcher.Server.Post | src/coap/server/internal/srv_dispatch_engine.c:154-198 | the same, and a Message 3 whose session is found always consumes it: the map without its identifier, its context no longer live, and its processing in the trace, judged as the dependency judged it |
| Dispatcher.ServeAll | src/coap/server/srv_dispatch.c:32-38 | over any sequence of POSTs the ghost heap, the trace and the dictionary agree on the live contexts; with a constant generator at most one is pending |
| Dispatcher.RefusedBeforeRouting | src/coap/server/internal/srv_dispatch_engine.c:158-194 | each refusal before routing has its own code and touches nothing |
| Dispatcher.Message1IsAnswered | src/coap/server/internal/srv_dispatch_engine.c:54-98 | every exit of Message 1 with its code, its body, its acts on the new context and its sessions |
| Dispatcher.UnknownSessionIsRefused | src/coap/server/internal/srv_dispatch_engine.c:100-115 | an identifier that cannot be read gets 5.00, one that is not pending 4.00, and neither touches anything |
| Dispatcher.FoundSessionIsConsumed | src/coap/server/internal/srv_dispatch_engine.c:116-151 | every exit of Message 3 after the lookup removes the entry and frees the context; processing, binding, code and body of each are exact |
| Dispatcher.CodesTellTheTruth | src/coap/server/internal/srv_dispatch_engine.c:69-151 | Message 1 gets 2.04 exactly when one fresh entry was added and else changes nothing; Message 3 gets 2.04 exactly when its entry was bound; whatever the answer, the addressed entry is removed if there was one, and nothing else changes |
| Dispatcher.AnswersMatchSteps | src/coap/server/internal/srv_dispatch_engine.c:154-198 | with any dependencies a POST is answered 2.04 exactly if its step opened a session or bound one |
| Dispatcher.EveryBindFollowsA204 | src/coap/server/internal/srv_dispatch_engine.c:69-151 | over any run of answered POSTs, every bind belongs to a Message 3 whose session an earlier Message 1 answered 2.04 had stored, and that Message 3 is answered 2.04 exactly if the bind succeeded |
| Dispatcher.OpenedUnderGeneratedCid | src/edhoc/common/com_edhoc_manage_context.c:73-78 | a session is stored under the identifier the generator gave for that POST |
| SessionDictionary.SessionsOfSlots | src/coap/server/internal/srv_session.c:17-25 | the map of a slot array has exactly the occupied slots as entries, whatever the holes |
| SessionDictionary.SessionsCount | src/coap/server/internal/srv_session.c:37-45 | the map is full exactly when no slot is free |
| SessionDictionary.SetCommutes | src/coap/server/internal/srv_session.c:37-43 | writing a new key into a free slot is adding it to the map; keys stay unique and others are undisturbed |
| SessionDictionary.RemoveCommutes | src/coap/server/internal/srv_session.c:82-86 | clearing a slot is removing its key from the map; others are undisturbed |
| SessionDictionary.Dictionary.FindIndexByCid | src/coap/server/internal/srv_session.c:17-25 | finds the slot of a key, and reports not found exactly when the map lacks it |
| SessionDictionary.Dictionary.SetContextByCid | src/coap/server/internal/srv_session.c:27-46 | the exact status in the order of the checks (FULL exactly for a new key and a full map), the new map, and that only the first free slot changes |
| SessionDictionary.Dictionary.GetContextByCid | src/coap/server/internal/srv_session.c:59-70 | yields the map's entry, exactly when there is one |
| SessionDictionary.Dictionary.RemoveContextByCid | src/coap/server/internal/srv_session.c:72-87 | the exact status, the map without the key, and that only its slot is cleared |
| Negotiation.NegotiateSuites | src/edhoc/client/handshake/cli_negotiate_cipher_suites.c:57-90 | each failure exactly under its condition; success gives the client's list cut just after the first suite the error names; no common suite only if the lists are disjoint |
| Negotiation.MergeSuiteList | src/edhoc/client/handshake/cli_negotiate_cipher_suites.c:34-45 | the fixed array starts with the preferred suites followed by the selected one, and counts them |
| Negotiation.SuiteIdentifierInErrorInfo | src/edhoc/client/handshake/cli_negotiate_cipher_suites.c:47-55 | membership in the received list |
| Negotiation.FirstCommonIsUnique | src/edhoc/client/handshake/cli_negotiate_cipher_suites.c:79-88 | there is one most preferred common suite |
| Negotiation.CutListNeedsNoReordering | src/edhoc/common/com_edhoc_manage_context.c:59-67 | the cut list passes validation again, and setup leaves its order unchanged |
| Negotiation.EveryReplyIsJudged | src/core/app_client.c:114-139 | for every reply: another attempt exactly for an error answer with the code for a wrong suite, a failure exactly without an answer, and else the client goes on with that response, even if it came as an error |
| Negotiation.EveryNegotiationIsResolved | src/core/app_client.c:147-171 | for every network: when the first attempt ends it, when a second is made, with which list, and what comes of it |
| Negotiation.ClientResources.PerformNegotiationAttempt | src/core/app_client.c:110-140 | in terms of the reply: when the attempt is tried again, when it fails, what the client goes on with, and which Message 1 left |
| Negotiation.ClientResources.PrepareAgain | src/core/app_client.c:155-169 | there is a second context exactly when the error points at one of at most 10 suites and setup works; it has the cut list in order, its last suite's keys, crypto and user context, and all else as in the first context |
| Negotiation.ClientResources.ResetContextWithNewSuites | src/coap/client/cli_resources.c:18-41 | succeeds exactly if setup accepts the new parameters, and then the context is configured from them, last suite selected |
| Negotiation.ClientResources.AttemptAgain | src/core/app_client.c:155-171 | a second attempt is made exactly when there is a first common suite and setup works, with the cut list and its last suite's keys, crypto and user context |
| Negotiation.ClientResources.ResolveNegotiation | src/core/app_client.c:142-172 | result and sent Message 1s are those of the negotiation on suite numbers; a second Message 1 comes from a context configured from the cut list |
| Handshake.WorkingLibraryExists | src/edhoc/server/handshake/message_1/srv_m1_process.c:72-81 | whatever the two lists, there is a library and an encoding of Message 1 that meet the demands of the theorems about the responder |
| Handshake.AnswerIsJudged | src/core/app_client.c:110-140 | what one attempt means to the client: it goes on exactly if its selection was acceptable, and otherwise tries again knowing what the error names |
| Handshake.ResponderAnswersByRule | src/edhoc/server/handshake/message_1/srv_m1_responder.c:42-64 | over a library that works for this Message 1 the server's responder accepts exactly the acceptable selections and otherwise names its suites, or sends the text if a list does not fit; its answer always fits the client's buffer |
| Handshake.NetworkAnswersByRule | src/edhoc/server/handshake/message_1/srv_m1_responder.c:42-64 | over a working library the responder answers every Message 1 the client may send by that rule, which is all the negotiation theorems ask of the other side |
| Handshake.FirstAttemptIsAccepted | src/edhoc/common/com_edhoc_manage_context.c:50-67 | the reordered full list is acceptable if and only if the selected suite is the only common one |
| Handshake.PreferredSuiteIsRefusedAtFirst | include/edhoc/common/com_edhoc_manage_context.h:46-48 | a concrete list whose preferred and supported suite is refused at first, against the documentation |
| Handshake.FirstAttemptEndsIt | src/core/app_client.c:147-154 | if the selected suite is the only common one, the first attempt ends the negotiation on it |
| Handshake.CutIsAcceptable | src/edhoc/client/handshake/cli_negotiate_cipher_suites.c:79-88 | a list cut after some suite is acceptable if and only if that suite is the first common one |
| Handshake.FittingListsAgree | src/edhoc/common/add_error/com_edhoc_add_cipher_suite_mismatch_error.c:18-29 | if both lists fit the error's 8 entries, success takes no more than a common suite |
| Handshake.LongListsGetOneAttempt | src/edhoc/common/add_error/com_edhoc_add_cipher_suite_mismatch_error.c:25-31 | if a list does not fit and the text reads as none of the client's suites, success takes that the selected suite is the only common one, so it comes with the first attempt or not at all |
| Handshake.SecondAttempt | src/core/app_client.c:155-171 | after a refusal the client sends its list cut where the error points, if it has at most 10 suites and the error points anywhere; that succeeds if and only if this is the first common suite |
| Handshake.NineSuitesAreNotTold | src/edhoc/common/add_error/com_edhoc_add_cipher_suite_mismatch_error.c:18-31 | a client with nine suites and a server that supports only its first one fail, unless the text happens to read as one of the nine |
| Handshake.NineSuitesFail | src/edhoc/common/add_error/com_edhoc_add_cipher_suite_mismatch_error.c:18-31 | the same for one concrete network that answers by the rule |
| Handshake.NegotiationIsOptimal | src/core/app_client.c:142-172 | for lists of any length: at most two Message 1s; a client that succeeds has ended on the first suite of its list that the responder supports; if both lists fit the error it fails exactly when they are disjoint, and longer ones succeed exactly when CanAgree says so; one round is enough exactly when the selected suite is the only common one |
| Handshake.ConfiguredNegotiationIsOptimal | src/core/app_client.c:142-172 | the same for the context that setup makes of any validated parameters |
| Handshake.NegotiateWithResponder | src/core/app_client.c:142-172 | setup and negotiation as the client goes through them: at most two Message 1s, success exactly if the lists can agree, on the most preferred common suite |
| Handshake.AttemptThroughServer | src/core/app_client.c:110-140 | one attempt through framing, dispatcher, callback and wait loop: the client reads the responder's answer, as an error exactly when no session opened, or nothing; a session opens exactly if Message 2 was composed and there was room, and else the dictionary is unchanged |
| Handshake.AttemptOnNetwork | src/core/app_client.c:110-140 | with a working library, room and a reply in time such an attempt is one call of the responder network, and opens a session exactly if the selection is acceptable |
| Handshake.AttemptAgainThroughServer | src/core/app_client.c:155-171 | after a refusal at most one more POST, made with the cut list; it opens a session exactly if it succeeds |
| Handshake.NegotiateThroughServer | src/core/app_client.c:142-172 | the whole negotiation against the real dispatcher: at most two POSTs, success exactly if the lists can agree, and then exactly one new session, opened by the last POST on the most preferred common suite; a failure leaves the dictionary as it was |
| Handshake.Message1ReplyIsResponders | src/coap/server/internal/srv_dispatch_engine.c:74-98 | under the default dependencies the reply to Message 1 carries the responder's answer, and is 2.04 exactly when a session opened |
| Handshake.SuiteMismatchReachesClient | src/edhoc/server/handshake/message_1/srv_m1_process.c:72-81 | a wrong suite reaches the client as a 4.00 that its callback accepts and that suggests another attempt, and stores no session; if both lists fit 8 entries it lists the configured suites as often as the parameters do, and else it is the text |
| Handshake.ReorderingKeepsNumbers | src/edhoc/common/com_edhoc_manage_context.c:50-67 | reordering loses and repeats no suite number |
| Handshake.SecondMessage1IsRefused | src/coap/server/internal/srv_dispatch_engine.c:92-97 | while the default identifier is pending, a Message 1 gets an error code and changes nothing; a composed Message 2 still is the body of that error |
| Handshake.OddGeneratorPendsOne | src/edhoc/common/com_generate_connection_id.c:57-59 | any run with the server's generator keeps at most one handshake pending, under identifier 2 |
| Handshake.PostByDefault | src/coap/server/srv_dispatch.c:32-38 | the handler with the default dependencies takes one enabled step and answers by the decision table |
| Handshake.PartialRequestsAreRefused | src/coap/common/com_coap_get_data.c:44-56 | a request of another format, without a body, in pieces or over 1024 bytes gets 4.00 and touches no session |
| Handshake.SessionOpensExactly | src/coap/server/internal/srv_dispatch_engine.c:54-98 | under the default dependencies a session opens if and only if a whole request starts with 0xF5, libedhoc processed its Message 1 and composed Message 2, nothing failed on the way, and there is room |
| Handshake.SessionIsBoundExactly | src/coap/server/internal/srv_dispatch_engine.c:100-151 | under the default dependencies a session is bound if and only if a whole request does not start with 0xF5, its identifier is pending, libedhoc accepts its Message 3 for that session's suites, and the bind succeeds |
| Handshake.Message3ReplyIsAccepted | src/edhoc/server/handshake/message_3/srv_m3_responder.c:49-52 | every reply to Message 3 is empty and accepted by the callback; it is 2.04 exactly when the addressed session accepts the message and binds |
| Handshake.PostMessage3 | src/coap/server/internal/srv_dispatch_engine.c:136-151 | the server answers Message 3 with 2.04 exactly when it completed and bound the session of that identifier |
| Handshake.AwaitReply | src/coap/client/cli_exchange.c:190-211 | however often and late one reply is delivered, what the client reads is that reply's body and verdict; an acceptable reply in time always ends the wait |
| Handshake.FinishHandshake | src/core/app_client.c:285-302 | the client goes on to OSCORE exactly when it got an answer and the dispatcher completed and bound the very session it addressed, which is decided by the stored context, the message and the bind alone |
| ManageContext.MoveToEndIsStablePermutation | src/edhoc/common/com_edhoc_manage_context.c:59-67 | the reordering is a permutation that moves one element last and keeps the order of the others |
| ManageContext.MoveToEndKeepsDistinctness | src/edhoc/common/com_edhoc_manage_context.c:59-67 | distinct suites stay distinct |
| ManageContext.MovingLastChangesNothing | src/edhoc/common/com_edhoc_manage_context.c:59-67 | a list whose selected suite already is last stays as it is |
| ManageContext.FillCipherSuites | src/edhoc/common/com_edhoc_manage_context.c:50-67 | a NULL suite table is followed exactly if there is one; otherwise every cell of the array is written, exactly one entry is skipped, and the result is the list with the selected suite moved to the end |
| ManageContext.SetupContext | src/edhoc/common/com_edhoc_manage_context.c:28-103 | on any parameters the status names the first thing that went wrong; with valid parameters and working calls it follows a NULL pointer if and only if the tables are incomplete; success exactly for valid, complete parameters and working calls, with suites, keys, crypto, user context and identifier from the parameters |
| ManageContext.EachFailureHasItsStatus | src/edhoc/common/com_edhoc_manage_context.c:33-101 | each status names the one call that failed first |
| ManageContext.SuiteWithoutMetadataFaults | src/edhoc/common/com_edhoc_cipher_suites.c:18-25 | concrete parameters that pass validation and make setup follow a NULL pointer |
| ManageContext.ValidationMissesIncompleteTables | src/edhoc/common/com_edhoc_cipher_suites.c:18-25 | whatever such a suite is, parameters with it are valid as soon as their other fields are |
| CipherSuites.CheckCipherSuites | src/edhoc/common/com_edhoc_cipher_suites.c:27-39 | accepts exactly the non-empty lists of valid details |
| CipherSuites.SuiteInSuitesList | src/edhoc/common/com_edhoc_parameters.c:24-34 | pointer membership |
| CipherSuites.DuplicatedSuitesIn | src/edhoc/common/com_edhoc_parameters.c:36-47 | finds a duplicate exactly if two entries share their metadata |
| CipherSuites.ValidateParameters | src/edhoc/common/com_edhoc_parameters.c:49-90 | accepts exactly the valid parameters: distinct, complete, with the selected suite in the list |
| Exchange.ClientExchange.Reset | src/coap/client/cli_exchange.c:88-96 | forgets the response but keeps the old verdict |
| Exchange.ClientExchange.Send | src/coap/client/cli_exchange.c:98-132 | even a failed send forgets the old response; a successful one posts the bytes |
| Exchange.ClientExchange.SendMessage1 | src/coap/client/cli_exchange.c:213-262 | exactly when a Message 1 leaves, with which bytes, and what a failure leaves untouched |
| Exchange.ClientExchange.SendMessage3 | src/coap/client/cli_exchange.c:264-322 | exactly when a Message 3 leaves, with which bytes, and that only then empty responses become answers |
| Exchange.ClientExchange.HandleResponse | src/coap/client/cli_exchange.c:24-68 | after any callback the view shows the last accepted response since the send, and the flag its verdict or the stale one; spelled out per response: an empty one after Message 3 and a whole EDHOC body count, and every other one, a 0.00 included, leaves view and flag alone |
| Exchange.ClientExchange.PollOnce | src/coap/client/cli_utils.c:226-237 | one round of the loop: how it ends the wait, and the time left |
| Exchange.ClientExchange.Round | src/coap/client/cli_utils.c:225-238 | a round either ends the wait rightly or keeps the books |
| Exchange.ClientExchange.WaitLoop | src/coap/client/cli_utils.c:219-240 | the loop with its books: OK only under budget, timeout only when the last poll reached it, an error only for a failed poll; fewer polls than the budget fit if idle polls take time |
| Exchange.ClientExchange.WaitForResponse | src/coap/client/cli_utils.c:214-241 | in milliseconds: a timeout takes at least 1000 for each second of the leisure and one more, a success less, and a response delivered earlier with no failed poll always is a success; with the leisure that wraps there is no timeout |
| Exchange.ClientExchange.WaitAndGet | src/coap/client/cli_exchange.c:190-211 | before Message 3 a success means fresh data: the whole body of a response since the send, after which none was acceptable, and a verdict about that same response |
| Exchange.LastAcceptedIsAccepted | src/coap/client/cli_exchange.c:42-66 | the response shown is one that came and was accepted, and there is none exactly when none was |
| Exchange.VerdictIsCurrentExactlyWhenAccepted | src/coap/client/cli_exchange.c:37-66 | the flag speaks about the newest response, whatever came before, if and only if the callback accepts that response |
| Exchange.UnreadableErrorLooksLikeSuccess | src/coap/client/cli_exchange.c:50-53 | a concrete refusal of Message 3 after which the flag says no error |
| Exchange.Budget | src/coap/client/cli_utils.c:219-222 | 1000 milliseconds for each second and one more, except for the one integer part that wraps to zero; it always fits an int |
| Exchange.PollKeepsBooks | src/coap/client/cli_utils.c:226-237 | a poll that ends nothing keeps remaining plus elapsed equal to the budget and remaining positive |
| Exchange.LoopHeadEnds | src/coap/client/cli_utils.c:225-240 | leaving the loop at its head is a success under budget |
| Exchange.PollEnds | src/coap/client/cli_utils.c:228-236 | leaving it after a poll is an error or a timeout at the budget |
| Exchange.ResponseInBudgetIsSeen | src/coap/client/cli_utils.c:225-240 | a response delivered before the budget is used up always ends the wait well |
| Exchange.RemainingFitsInt | src/coap/client/cli_utils.c:219-237 | the int that holds the remaining time overflows if and only if the budget wrapped to zero and the polls took more than 2^31 milliseconds |
| Framing.LayOut | src/coap/client/cli_exchange.c:224-256 | a message is framed exactly when it and its prefix fit 1024 bytes, as prefix followed by message |
| Framing.Message1RoundTrip | src/coap/server/extract_edhoc_message/srv_coap_extract_m1.c:20-88 | every message of 1 to 1023 bytes sent as Message 1 fits both buffers, is routed as Message 1 and extracted unchanged |
| Framing.Message3RoundTrip | src/coap/server/extract_edhoc_message/srv_coap_extract_m3.c:17-41 | Message 3 comes back with its one-byte identifier and bytes if and only if the identifier is in 0..23, and is taken for Message 1 if and only if it is -11 |
| Framing.Message3ByteStringRoundTrip | src/coap/server/extract_edhoc_message/srv_coap_extract_m3.c:17-41 | byte string identifiers of at most 23 bytes always come back |
| Framing.Message1ExtractsWhatIsRouted | src/coap/server/extract_edhoc_message/srv_coap_extract_m1.c:20-88 | extraction succeeds on exactly the requests routed as Message 1, and prefix plus extracted message are the request |
| Framing.ExtractedPrefixIsTheClients | src/coap/server/extract_edhoc_message/srv_coap_extract_m3.c:17-41 | framing an extracted message again under its extracted identifier gives the request back, if and only if the identifier is not a negative integer |
| Coap.GetData | src/coap/common/com_coap_get_data.c:29-65 | copies exactly the whole non-empty bodies that fit, and touches nothing else; otherwise the status is that of the first failed check, from the missing PDU over a piece of a larger body to the buffer that is too small |
| Coap.ParseEdhocMessage | src/coap/common/com_coap_parse_edhoc_request.c:14-53 | accepts exactly whole EDHOC bodies of the expected format, and otherwise leaves the buffer alone and names the first failed check, missing PDU and buffer included; it yields what the dispatcher's parser function yields |
| Responders.SuiteMismatchIsReported | src/edhoc/common/add_error/com_edhoc_add_cipher_suite_mismatch_error.c:15-38 | an unacceptable selection is answered with 4.00 and an error that decodes to exactly the server's suites if both lists fit 8 entries, and else to the text; an acceptable one with Message 2, or 5.00 and nothing |
| Responders.Message1IsAcceptedExactlyIfProcessed | src/edhoc/server/handshake/message_1/srv_m1_responder.c:50-63 | for any library and message: 2.04 with Message 2 exactly if processing and composing succeeded, 4.00 exactly if processing failed, 5.00 without a body exactly if only composing did; a failed processing has a body only for a wrong suite, and which one |
| Responders.Message3RepliesHaveNoBody | src/edhoc/server/handshake/message_3/srv_m3_responder.c:36-53 | no reply to Message 3 has a body; it is 2.04 exactly when processing succeeded and else 4.00 |
| OscoreConfig.HexRoundTrip | src/oscore/internal/common/com_oscore_get_configuration.c:49-54 | decoding the hex text of any bytes gives back the bytes |
| OscoreConfig.HexIsPrintable | src/oscore/internal/common/com_oscore_get_configuration.c:49-54 | two characters a byte, none of which ends a line or a string |
| OscoreConfig.BytesToHexString | src/oscore/internal/common/com_oscore_get_configuration.c:49-54 | writes exactly 2n digits and one terminator, and nothing beyond 2n+1 cells |
| OscoreConfig.HexString | src/oscore/internal/common/com_oscore_get_configuration.c:101-109 | a zeroed buffer with room for the terminator reads back as the hex text |
| OscoreConfig.ConfigTextFits | src/oscore/internal/common/com_oscore_get_configuration.c:124-132 | the text has 183 characters plus two for each identifier byte, at most 215, so 512 never truncate it |
| OscoreConfig.EntriesRoundTrip | src/oscore/internal/common/com_oscore_get_configuration.c:124-132 | lines of plain fields parse back |
| OscoreConfig.ConfigRoundTrip | src/oscore/internal/common/com_oscore_get_configuration.c:124-132 | all six fields of the text parse back to what was exported |
| OscoreConfig.HexOfOneByte | src/oscore/internal/common/com_oscore_get_configuration.c:49-54 | two lower-case digits, the high half of the byte first |
| OscoreConfig.HexOfBoth | src/oscore/internal/common/com_oscore_get_configuration.c:49-54 | the digits of a sequence are those of its parts in order |
| OscoreConfig.FieldsAreNamed | src/oscore/internal/common/com_oscore_get_configuration.c:124-132 | a reader that looks fields up by name finds each of the six values under its own name and kind |
| OscoreConfig.TextIs | src/oscore/internal/common/com_oscore_get_configuration.c:124-132 | the printed text, character by character |
| OscoreConfig.BuildConfig | src/oscore/internal/common/com_oscore_get_configuration.c:56-134 | succeeds exactly with a context, an export, suite 0 or 2 and 512 bytes; then the buffer reads as the whole text, parses back to the exported material, and has each value under its name; otherwise the buffer is untouched |
| ConnectionIds.GetNextSingleByteIntegerCid | src/edhoc/common/com_generate_connection_id.c:33-40 | the next identifier, or the initial one after 23 |
| ConnectionIds.GenerateEvenCid | src/edhoc/common/com_generate_connection_id.c:48-50 | always 1 |
| ConnectionIds.GenerateOddCid | src/edhoc/common/com_generate_connection_id.c:57-59 | always 2 |

## Left out

- libedhoc: cryptography, CBOR and key derivation. Its calls are outcomes; what the theorems about the responder
  ask of it (`WorkingLibrary`) is that Message 1 is processed by section 5.2.3 of RFC 9528, that it gets the
  suites of a mismatch exactly if both lists fit the arrays, and that the mismatch errors survive the wire.
- libcoap: options, sockets, token matching and addresses; a PDU is its code, content format and body, and
  `coap_io_process` is a sequence of reported times and delivered responses.
- The handshake state inside a context: message processing is assumed not to change `private_cid` or the suites.
- The encoded error text that a failed Message 1 extraction writes into the caller's buffer: the dispatcher drops it.
- The numbers that the client reads out of a text error: `suite_identifier_in_error_info` scans `cipher_suites`
  for as many entries as the text has characters, and the server's own fallback text (88 characters, with the code
  "wrong selected cipher suite") is such an input. What it finds there is a parameter, `textAsSuites`.
- Dispatcher.Server.CleanupContext: does not return the deinit status, which no caller reads; the context is
  freed either way.
- ManageContext.SetupContext: does not say what a failed setup leaves in the context, because the server frees
  it and the client tears everything down.
- Negotiation.ClientResources.PerformNegotiationAttempt: the transport is a function from suites to outcome;
  `AttemptThroughServer` is the same attempt over the exchange and the dispatcher.
- Exchange.ClientExchange.WaitForResponse: goes on counting where the C integer overflows, which
  `RemainingFitsInt` shows to be possible only with a budget of zero.
- OscoreConfig.BuildConfig: the cells behind the terminator are not described on success.
- Client teardown, which releases the OSCORE session twice; credential tables and private keys; Message 4;
  argument parsing, logging and status texts; the temperature resource.
