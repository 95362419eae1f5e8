/** The server's POST handler: routing, the Message 1 and Message 3 paths, and every cleanup. */
module Dispatcher {
  import opened Common
  import opened ConnectionIds
  import opened CipherSuites
  import opened ManageContext
  import opened SessionDictionary
  import opened Coap
  import opened Framing
  import opened Responders
  import opened Ownership

  /**
   struct srv_coap_dispatch_deps, without the three dictionary functions, which are the dictionary
   below. The members are arbitrary functions: each POST may come with its own, so every foreign call
   may have any outcome. Contexts appear as what the dependency reads of them.
   */
  datatype DispatchDeps = DispatchDeps(
    parseEdhocRequest: (Pdu, nat, nat) -> ParseResult,
    addEdhocResponseOptions: nat -> bool,
    isMessage1: seq<byte> -> bool,
    extractMessage1: seq<byte> -> ExtractMessage1Result,
    extractCid: seq<byte> -> ExtractCidResult,
    connectionIdIsExpected: (ConnectionId, ConnectionId) -> bool,
    respondToMessage1: (seq<byte>, seq<int>) -> Message1Result,
    processMessage1Result: Message1Result -> Code,
    respondToMessage3: (seq<byte>, seq<int>) -> Message3Result,
    processMessage3Result: Message3Result -> Code,
    addResponsePayload: seq<byte> -> bool,
    bindOscoreSession: seq<int> -> bool)

  /** The dependencies the server installs, over a library and the three remaining foreign outcomes. */
  function DefaultDeps(lib: Library, addOptions: nat -> bool, addPayload: seq<byte> -> bool,
                       bind: seq<int> -> bool): DispatchDeps
  {
    DispatchDeps(
      ParseEdhocRequest,
      addOptions,
      IsMessage1,
      ExtractMessage1,
      ExtractCid,
      (extracted, expected) => extracted == expected,
      (message, own) => RespondToMessage1(message, own, lib),
      ProcessMessage1Result,
      (message, own) => RespondToMessage3(message, own, lib),
      ProcessMessage3Result,
      addPayload,
      bind)
  }

  /** The response PDU: its code, and the payload if one was added. */
  datatype Response = Response(code: Code, body: seq<byte>)

  /** The response as it leaves, with or without the EDHOC content format. */
  function PduOf(response: Response, contentFormat: Option<nat>): Pdu {
    Pdu(response.code, contentFormat,
        if response.body == [] then NoBody else Block(response.body, 0, |response.body|))
  }

  /** The default connection ID check: plain equality. */
  ghost predicate ChecksEquality(deps: DispatchDeps) {
    forall a, b :: deps.connectionIdIsExpected(a, b) <==> a == b
  }

  /** add_payload_if_present succeeds. */
  predicate PayloadAdded(payload: seq<byte>, deps: DispatchDeps) {
    payload == [] || deps.addResponsePayload(payload)
  }

  /** The reply to a Message 1 up to the dictionary, and whether the responder was asked at all. */
  datatype Reply = Reply(response: Response, answered: bool)

  ghost function ReplyToMessage1(request: seq<byte>, own: seq<int>, deps: DispatchDeps): (reply: Reply)
    ensures reply.response.code == Changed ==> reply.answered
  {
    var extracted := deps.extractMessage1(request);
    if !extracted.status.Extract1Ok? then
      Reply(Response(MapExtractMessage1ToCode(extracted.status), []), false)
    else
      var result := deps.respondToMessage1(extracted.message, own);
      if !PayloadAdded(result.response, deps) then Reply(Response(InternalError, []), true)
      else Reply(Response(deps.processMessage1Result(result), result.response), true)
  }

  /** What becomes of a set-up context, given the reply and the identifier it would be stored under. */
  ghost predicate Message1Settled(response: Response, step: Step, pending: SessionMap, capacity: nat,
                                  reply: Reply, cid: ConnectionId)
  {
    if reply.response.code != Changed then
      step.Abandoned? && step.answered == reply.answered && response == reply.response
    else if cid in pending || |pending| == capacity then
      step.Abandoned? && step.answered && response == Response(InternalError, reply.response.body)
    else
      step.Opened? && step.cid == cid && response == reply.response
  }

  /** The decision table of the Message 1 path: the answer, and what became of the new context. */
  ghost predicate Message1Outcome(response: Response, step: Step, pending: SessionMap, capacity: nat,
                                  request: seq<byte>, p: EdhocParameters, deps: DispatchDeps,
                                  calloc: bool, calls: SetupCalls)
    requires CompleteTables(p)
  {
    if !calloc then
      step.Refused? && response == Response(InternalError, [])
    else if !ValidParameters(p) || !calls.AllSucceed() then
      step.Abandoned? && !step.answered && response == Response(InternalError, [])
    else
      Message1Settled(response, step, pending, capacity, ReplyToMessage1(request, ConfiguredSuites(p), deps),
                      OneByteInteger(p.generateConnectionId.value))
  }

  /** The decision table of a Message 3 whose context was found and expected it. */
  ghost predicate Message3Consumed(response: Response, step: Step, context: EdhocContext, own: seq<int>,
                                   cid: ConnectionId, message: seq<byte>, deps: DispatchDeps)
  {
    var result := deps.respondToMessage3(message, own);
    var code := deps.processMessage3Result(result);
    if !PayloadAdded(result.response, deps) then
      step == Rejected(context, cid, code == Changed) && response == Response(InternalError, [])
    else if code != Changed then
      step == Rejected(context, cid, false) && response == Response(code, result.response)
    else
      var bound := deps.bindOscoreSession(own);
      step == Completed(context, cid, bound)
      && response == Response(if bound then Changed else InternalError, result.response)
  }

  /** The decision table of the Message 3 path: the answer, and what became of the stored context. */
  ghost predicate Message3Outcome(response: Response, step: Step, pending: SessionMap,
                                  request: seq<byte>, deps: DispatchDeps)
    reads pending.Values
  {
    var extracted := deps.extractCid(request);
    if !extracted.status.ExtractCidOk? then
      step.Refused? && response == Response(InternalError, [])
    else if extracted.cid !in pending then
      step.Refused? && response == Response(BadRequest, [])
    else
      var context := pending[extracted.cid];
      if !deps.connectionIdIsExpected(extracted.cid, context.privateCid) then
        step == Mismatched(context, extracted.cid) && response == Response(BadRequest, [])
      else
        Message3Consumed(response, step, context, context.Suites(), extracted.cid, extracted.message, deps)
  }

  /** The request gets past the checks, the parser and the response options. */
  ghost predicate Routed(request: Option<Pdu>, deps: Option<DispatchDeps>, hasResponse: bool, hasContext: bool) {
    deps.Some? && request.Some? && hasResponse && hasContext
    && deps.value.parseEdhocRequest(request.value, CONTENT_FORMAT_CID_EDHOC, MAX_PDU_SIZE).status.ParseOk?
    && deps.value.addEdhocResponseOptions(CONTENT_FORMAT_EDHOC)
  }

  /** The bytes the parser found. */
  ghost function ParsedBytes(request: Option<Pdu>, deps: Option<DispatchDeps>): seq<byte>
    requires deps.Some? && request.Some?
  {
    deps.value.parseEdhocRequest(request.value, CONTENT_FORMAT_CID_EDHOC, MAX_PDU_SIZE).parsedRequest
  }

  /** The decision table of a whole POST. */
  ghost predicate PostOutcome(reply: Option<Pdu>, step: Step, pending: SessionMap, capacity: nat,
                              request: Option<Pdu>, p: EdhocParameters, hasResponse: bool,
                              deps: Option<DispatchDeps>, hasContext: bool, calloc: bool, calls: SetupCalls)
    requires CompleteTables(p)
    reads pending.Values
  {
    if !hasResponse then
      step.Refused? && reply == None
    else if deps.None? || request.None? || !hasContext then
      step.Refused? && reply == Some(Pdu(InternalError, None, NoBody))
    else
      var parsed := deps.value.parseEdhocRequest(request.value, CONTENT_FORMAT_CID_EDHOC, MAX_PDU_SIZE);
      if !parsed.status.ParseOk? then
        step.Refused? && reply == Some(Pdu(MapParseResultToCode(parsed.status), None, NoBody))
      else if !deps.value.addEdhocResponseOptions(CONTENT_FORMAT_EDHOC) then
        step.Refused? && reply == Some(Pdu(InternalError, None, NoBody))
      else
        exists response: Response ::
          && reply == Some(PduOf(response, Some(CONTENT_FORMAT_EDHOC)))
          && if deps.value.isMessage1(parsed.parsedRequest) then
               Message1Outcome(response, step, pending, capacity, parsed.parsedRequest, p, deps.value, calloc, calls)
             else
               Message3Outcome(response, step, pending, parsed.parsedRequest, deps.value)
  }

  // ---- Answers over runs ----

  ghost function CodeOf(reply: Option<Pdu>): Option<Code> {
    if reply.Some? then Some(reply.value.code) else None
  }

  /** 2.04 is the answer to exactly the steps that opened a session or bound one. */
  ghost predicate AnswerMatches(step: Step, answer: Option<Code>) {
    answer == Some(Changed) <==> step.Opened? || (step.Completed? && step.bound)
  }

  /** The codes answered in a run, step by step. */
  ghost predicate Truthful(steps: seq<Step>, answers: seq<Option<Code>>) {
    if steps == [] then answers == []
    else |answers| == |steps|
         && AnswerMatches(steps[|steps| - 1], answers[|steps| - 1])
         && Truthful(steps[..|steps| - 1], answers[..|steps| - 1])
  }

  lemma {:induction false} TruthfulAt(steps: seq<Step>, answers: seq<Option<Code>>, i: nat)
    requires Truthful(steps, answers) && i < |steps|
    ensures |answers| == |steps| && AnswerMatches(steps[i], answers[i])
  {
    if i < |steps| - 1 {
      TruthfulAt(steps[..|steps| - 1], answers[..|steps| - 1], i);
    }
  }

  /** The run of these steps, answered like this, leads to this state. */
  ghost predicate Records(steps: seq<Step>, answers: seq<Option<Code>>, s: ServerState, capacity: nat) {
    IsRun(steps, capacity) && s == Run(steps) && Truthful(steps, answers)
  }

  lemma RecordsOneMore(steps: seq<Step>, answers: seq<Option<Code>>, s: ServerState, capacity: nat, step: Step,
                       answer: Option<Code>)
    requires Records(steps, answers, s, capacity) && Enabled(s, step, capacity) && AnswerMatches(step, answer)
    ensures Records(steps + [step], answers + [answer], Apply(s, step), capacity)
  {
    RunOneMore(steps, step, capacity);
    assert (steps + [step])[..|steps|] == steps && (answers + [answer])[..|steps|] == answers;
  }

  lemma AnswersMatchSteps(reply: Option<Pdu>, step: Step, pending: SessionMap, capacity: nat,
                          request: Option<Pdu>, p: EdhocParameters, hasResponse: bool,
                          deps: Option<DispatchDeps>, hasContext: bool, calloc: bool, calls: SetupCalls)
    requires CompleteTables(p)
    requires PostOutcome(reply, step, pending, capacity, request, p, hasResponse, deps, hasContext, calloc, calls)
    ensures AnswerMatches(step, CodeOf(reply))
  {
  }

  // ---- What the tables amount to, case by case ----

  /** Before a request is routed nothing happens to any session, and each refusal has its own code. */
  lemma RefusedBeforeRouting(reply: Option<Pdu>, step: Step, s: ServerState, capacity: nat,
                             request: Option<Pdu>, p: EdhocParameters, hasResponse: bool,
                             deps: Option<DispatchDeps>, hasContext: bool, calloc: bool, calls: SetupCalls)
    requires CompleteTables(p)
    requires PostOutcome(reply, step, s.pending, capacity, request, p, hasResponse, deps, hasContext, calloc, calls)
    ensures !hasResponse ==> reply == None && Apply(s, step) == s
    ensures hasResponse && (deps.None? || request.None? || !hasContext) ==>
              reply == Some(Pdu(InternalError, None, NoBody)) && Apply(s, step) == s
    ensures hasResponse && deps.Some? && request.Some? && hasContext ==>
              var status := deps.value.parseEdhocRequest(request.value, 65, 1024).status;
              && (status.ParseErrMissingFormat? || status.ParseErrUnsupportedFormat? || status.ParseErrNoPayload? ==>
                    reply == Some(Pdu(BadRequest, None, NoBody)) && Apply(s, step) == s)
              && (status.ParseErrPdu? || status.ParseErrDataBuffer?
                  || (status.ParseOk? && !deps.value.addEdhocResponseOptions(64)) ==>
                    reply == Some(Pdu(InternalError, None, NoBody)) && Apply(s, step) == s)
  {
    assert s.trace + [] == s.trace;
  }

  /** A Message 1, exit by exit: the code and body of the answer, the acts on the new context, and the sessions. */
  lemma Message1IsAnswered(reply: Option<Pdu>, step: Step, s: ServerState, capacity: nat, request: Pdu,
                           p: EdhocParameters, deps: DispatchDeps, calloc: bool, calls: SetupCalls, bytes: seq<byte>)
    requires CompleteTables(p)
    requires PostOutcome(reply, step, s.pending, capacity, Some(request), p, true, Some(deps), true, calloc, calls)
    requires deps.parseEdhocRequest(request, 65, 1024) == ParseResult(ParseOk, bytes) && deps.isMessage1(bytes)
    requires deps.addEdhocResponseOptions(64)
    ensures reply.Some? && reply.value.contentFormat == Some(64)
    ensures !calloc ==> reply.value.code == InternalError && reply.value.body.NoBody? && Apply(s, step) == s
    ensures calloc && !(ValidParameters(p) && calls.AllSucceed()) ==>
              && reply.value.code == InternalError && reply.value.body.NoBody? && !step.Refused?
              && Apply(s, step) ==
                 ServerState(s.pending, s.trace + [Allocated(step.context), SetUp(step.context), Freed(step.context)])
    ensures calloc && ValidParameters(p) && calls.AllSucceed() && !deps.extractMessage1(bytes).status.Extract1Ok? ==>
              && reply.value.code == (if deps.extractMessage1(bytes).status.Extract1ErrInvalidErrorBuffer?
                                      then InternalError else BadRequest)
              && reply.value.body.NoBody? && !step.Refused?
              && Apply(s, step) ==
                 ServerState(s.pending, s.trace + [Allocated(step.context), SetUp(step.context), Freed(step.context)])
    ensures calloc && ValidParameters(p) && calls.AllSucceed() && deps.extractMessage1(bytes).status.Extract1Ok? ==>
              var result := deps.respondToMessage1(deps.extractMessage1(bytes).message, ConfiguredSuites(p));
              var verdict := deps.processMessage1Result(result);
              var cid := OneByteInteger(p.generateConnectionId.value);
              var added := result.response == [] || deps.addResponsePayload(result.response);
              var room := cid !in s.pending && |s.pending| != capacity;
              && !step.Refused?
              && reply.value.code ==
                 (if !added || (verdict == Changed && !room) then InternalError else verdict)
              && reply.value.body ==
                 (if result.response == [] || !added then NoBody else Block(result.response, 0, |result.response|))
              && Apply(s, step) ==
                 if added && verdict == Changed && room
                 then ServerState(s.pending[cid := step.context],
                                  s.trace + [Allocated(step.context), SetUp(step.context),
                                             AnsweredMessage1(step.context), Stored(step.context, cid)])
                 else ServerState(s.pending,
                                  s.trace + [Allocated(step.context), SetUp(step.context),
                                             AnsweredMessage1(step.context), Freed(step.context)])
  {
    assert s.trace + [] == s.trace;
  }

  /** The request reaches the Message 3 path, and its identifier can be read. */
  ghost predicate IsMessage3Request(request: Pdu, deps: DispatchDeps) {
    var parsed := deps.parseEdhocRequest(request, 65, 1024);
    parsed.status.ParseOk? && deps.addEdhocResponseOptions(64) && !deps.isMessage1(parsed.parsedRequest)
    && deps.extractCid(parsed.parsedRequest).status.ExtractCidOk?
  }

  /** A Message 3 whose identifier cannot be read, or is not pending, is refused and touches nothing. */
  lemma UnknownSessionIsRefused(reply: Option<Pdu>, step: Step, s: ServerState, capacity: nat, request: Pdu,
                                p: EdhocParameters, deps: DispatchDeps, calloc: bool, calls: SetupCalls,
                                bytes: seq<byte>)
    requires CompleteTables(p)
    requires PostOutcome(reply, step, s.pending, capacity, Some(request), p, true, Some(deps), true, calloc, calls)
    requires deps.parseEdhocRequest(request, 65, 1024) == ParseResult(ParseOk, bytes) && !deps.isMessage1(bytes)
    requires deps.addEdhocResponseOptions(64)
    ensures !deps.extractCid(bytes).status.ExtractCidOk? ==>
              reply == Some(Pdu(InternalError, Some(64), NoBody)) && Apply(s, step) == s
    ensures deps.extractCid(bytes).status.ExtractCidOk? && deps.extractCid(bytes).cid !in s.pending ==>
              reply == Some(Pdu(BadRequest, Some(64), NoBody)) && Apply(s, step) == s
  {
    assert s.trace + [] == s.trace;
  }

  /**
   A Message 3 whose session is found always consumes it, on every exit: the entry is removed and the context
   freed. If the identifier check passes the message is processed, and judged as the dependency judges it; the
   binding is attempted exactly after a 2.04 whose payload was added. The code of each exit is stated.
   */
  lemma FoundSessionIsConsumed(reply: Option<Pdu>, step: Step, s: ServerState, capacity: nat, request: Pdu,
                               p: EdhocParameters, deps: DispatchDeps, calloc: bool, calls: SetupCalls,
                               bytes: seq<byte>, cid: ConnectionId, message: seq<byte>)
    requires CompleteTables(p)
    requires PostOutcome(reply, step, s.pending, capacity, Some(request), p, true, Some(deps), true, calloc, calls)
    requires deps.parseEdhocRequest(request, 65, 1024) == ParseResult(ParseOk, bytes) && !deps.isMessage1(bytes)
    requires deps.addEdhocResponseOptions(64)
    requires deps.extractCid(bytes) == ExtractCidResult(ExtractCidOk, cid, message) && cid in s.pending
    ensures !step.Refused? && Apply(s, step).pending == s.pending - {cid}
    ensures reply.Some? && reply.value.contentFormat == Some(64)
    ensures !deps.connectionIdIsExpected(cid, s.pending[cid].privateCid) ==>
              && reply.value.code == BadRequest && reply.value.body.NoBody?
              && Acts(step) == [Removed(s.pending[cid], cid), Freed(s.pending[cid])]
    ensures deps.connectionIdIsExpected(cid, s.pending[cid].privateCid) ==>
              var context := s.pending[cid];
              var result := deps.respondToMessage3(message, context.Suites());
              var verdict := deps.processMessage3Result(result);
              var added := result.response == [] || deps.addResponsePayload(result.response);
              var bound := deps.bindOscoreSession(context.Suites());
              && Acts(step) ==
                 (if added && verdict == Changed
                  then [ProcessedMessage3(context, true), Removed(context, cid), Bound(context, bound), Freed(context)]
                  else [ProcessedMessage3(context, verdict == Changed), Removed(context, cid), Freed(context)])
              && reply.value.code == (if !added || (verdict == Changed && !bound) then InternalError else verdict)
              && reply.value.body ==
                 (if result.response == [] || !added then NoBody else Block(result.response, 0, |result.response|))
  {
  }

  /** The session that step i binds, or tries to, was opened by an earlier step that was answered 2.04. */
  ghost predicate OpenedWithChanged(steps: seq<Step>, answers: seq<Option<Code>>, i: nat)
    requires i < |steps| == |answers| && steps[i].Completed?
  {
    exists j :: 0 <= j < i && steps[j] == Opened(steps[i].context, steps[i].cid) && answers[j] == Some(Changed)
  }

  /**
   Over any run: every attempt to bind to OSCORE is the last act but one of a Message 3 step whose session an
   earlier Message 1, answered 2.04, had stored under the same identifier; and the Message 3 itself is answered
   2.04 exactly if the binding succeeded.
   */
  lemma EveryBindFollowsA204(steps: seq<Step>, answers: seq<Option<Code>>, capacity: nat, i: nat)
    requires IsRun(steps, capacity) && Truthful(steps, answers)
    requires i < |Run(steps).trace| && Run(steps).trace[i].Bound?
    ensures exists k :: 0 <= k < |steps|
                        && steps[k].Completed? && Run(steps).trace[i] == Bound(steps[k].context, steps[k].bound)
                        && (answers[k] == Some(Changed) <==> steps[k].bound)
                        && OpenedWithChanged(steps, answers, k)
  {
    var k := BoundByCompletion(steps, i);
    var j := ConsumedWasOpened(steps, capacity, k);
    TruthfulAt(steps, answers, j);
    TruthfulAt(steps, answers, k);
    assert OpenedWithChanged(steps, answers, k);
  }

  // ---- The server ----

  /** No context is stored under two identifiers. */
  ghost predicate OwnedOnce(pending: SessionMap) {
    forall a, b | a in pending && b in pending && pending[a] == pending[b] :: a == b
  }

  lemma RecordedOwnOnce(steps: seq<Step>, answers: seq<Option<Code>>, s: ServerState, capacity: nat)
    requires Records(steps, answers, s, capacity)
    ensures OwnedOnce(s.pending)
  {
    InvOverRuns(steps, capacity);
    SettledIsOwned(s, capacity);
  }

  /** Every stored context is known and stored under its own identifier. */
  ghost predicate Keyed(pending: SessionMap, known: set<EdhocContext>)
    reads known
  {
    forall cid | cid in pending :: pending[cid] in known && pending[cid].privateCid == cid
  }

  lemma AddingKeyAddsValue(m: SessionMap, cid: ConnectionId, context: EdhocContext)
    requires cid !in m
    ensures m[cid := context].Values == m.Values + {context}
  {
    var more := m[cid := context];
    assert more[cid] == context;
    forall c | c in m.Values
      ensures c in more.Values
    {
      var k :| k in m && m[k] == c;
      assert k in more && more[k] == c;
    }
  }

  /** Taking one entry out of a map that stores no value twice takes out its value. */
  lemma RemovingKeyRemovesValue(m: SessionMap, cid: ConnectionId)
    requires cid in m && OwnedOnce(m)
    ensures (m - {cid}).Values == m.Values - {m[cid]}
  {
    var rest := m - {cid};
    forall c | c in rest.Values
      ensures c in m.Values - {m[cid]}
    {
      var k :| k in rest && rest[k] == c;
      assert k in m && m[k] == c;
    }
    forall c | c in m.Values - {m[cid]}
      ensures c in rest.Values
    {
      var k :| k in m && m[k] == c;
      assert k in rest && rest[k] == c;
    }
  }

  class Server {
    const dictionary: Dictionary
    /** The heap: contexts allocated and not yet freed. Only Calloc and CleanupContext change it. */
    ghost var live: set<EdhocContext>
    /** Every context ever allocated, freed or not. */
    ghost var known: set<EdhocContext>
    /** Every act on a context, in order. */
    ghost var trace: Trace
    /** What every POST so far has done. */
    ghost var history: seq<Step>
    /** The codes they were answered with, None where there was no response to fill. */
    ghost var answers: seq<Option<Code>>

    ghost function State(): ServerState
      requires dictionary.Valid()
      reads this`trace, dictionary, dictionary.slots
    {
      ServerState(dictionary.Contents(), trace)
    }

    /** Nothing is live, and nothing was ever recorded, that was not allocated. */
    ghost predicate Tracked()
      reads this`live, this`known, this`trace
    {
      live <= known && Contexts(trace) <= known
    }

    /** Between POSTs the live contexts are those in the dictionary, each once and under its own identifier. */
    ghost predicate Consistent()
      reads this`live, this`known, this`trace, dictionary, dictionary.slots, known
    {
      && dictionary.Valid()
      && Tracked()
      && live == dictionary.Contents().Values
      && Keyed(dictionary.Contents(), known)
    }

    ghost predicate Valid()
      reads this, dictionary, dictionary.slots, known
    {
      && Consistent()
      && Records(history, answers, State(), dictionary.slots.Length)
    }

    constructor (capacity: nat)
      ensures Valid() && fresh(dictionary) && fresh(dictionary.slots) && known == {}
      ensures dictionary.slots.Length == capacity && State() == INITIAL
    {
      dictionary := new Dictionary(capacity);
      live, known, trace, history, answers := {}, {}, [], [], [];
    }

    /** Records an act on a context, which must be live. */
    ghost method Act(e: Event)
      requires Tracked() && e.context in live
      modifies this`trace
      ensures Tracked() && trace == old(trace) + [e]
    {
      ContextsOfOneMore(trace, e);
      trace := trace + [e];
    }

    method Calloc() returns (context: EdhocContext)
      requires Tracked()
      modifies this`live, this`known, this`trace
      ensures Tracked() && fresh(context)
      ensures live == old(live) + {context} && known == old(known) + {context}
      ensures trace == old(trace) + [Allocated(context)]
    {
      context := new EdhocContext();
      live, known := live + {context}, known + {context};
      Act(Allocated(context));
    }

    /** srv_edhoc_cleanup_context: a context may be freed only while it is live. */
    method CleanupContext(context: EdhocContext)
      requires Tracked() && context in live
      modifies this`live, this`trace
      ensures Tracked() && live == old(live) - {context}
      ensures trace == old(trace) + [Freed(context)]
    {
      Act(Freed(context));
      live := live - {context};
    }

    // ---- Message 1 ----

    /** Allocates a context and sets it up. */
    method PrepareContext(p: EdhocParameters, calls: SetupCalls) returns (context: EdhocContext, ready: bool)
      requires Tracked() && CompleteTables(p)
      modifies this`live, this`known, this`trace
      ensures Tracked() && fresh(context)
      ensures live == old(live) + {context} && known == old(known) + {context}
      ensures trace == old(trace) + [Allocated(context), SetUp(context)]
      ensures ready <==> ValidParameters(p) && calls.AllSucceed()
      ensures ready ==> context.privateCid == OneByteInteger(p.generateConnectionId.value)
                        && context.Suites() == ConfiguredSuites(p)
    {
      context := Calloc();
      var status := SetupContext(context, p, calls);
      Act(SetUp(context));
      ready := status.SetupOk?;
      assert trace == old(trace) + [Allocated(context), SetUp(context)];
    }

    /** Extracts and answers Message 1; on failure the context is freed. */
    method AnswerMessage1(context: EdhocContext, request: seq<byte>, deps: DispatchDeps)
      returns (response: Response, ghost answered: bool)
      requires Tracked() && context in live
      modifies this`live, this`trace
      ensures Tracked()
      ensures Reply(response, answered) == ReplyToMessage1(request, context.Suites(), deps)
      ensures live == if response.code == Changed then old(live) else old(live) - {context}
      ensures trace == old(trace)
                       + (if answered then [AnsweredMessage1(context)] else [])
                       + (if response.code == Changed then [] else [Freed(context)])
    {
      var extracted := deps.extractMessage1(request);
      if !extracted.status.Extract1Ok? {
        CleanupContext(context);
        return Response(MapExtractMessage1ToCode(extracted.status), []), false;
      }
      var result := deps.respondToMessage1(extracted.message, context.Suites());
      Act(AnsweredMessage1(context));
      if !PayloadAdded(result.response, deps) {
        CleanupContext(context);
        return Response(InternalError, []), true;
      }
      var code := deps.processMessage1Result(result);
      if code != Changed {
        CleanupContext(context);
      }
      return Response(code, result.response), true;
    }

    /** Stores the context under its own identifier, if that is new and a slot is free. */
    method StoreInDictionary(context: EdhocContext) returns (stored: bool)
      requires Tracked() && dictionary.Valid() && Keyed(dictionary.Contents(), known) && context in live
      modifies dictionary.slots
      ensures dictionary.Valid() && Keyed(dictionary.Contents(), known)
      ensures stored <==> context.privateCid !in old(dictionary.Contents())
                          && |old(dictionary.Contents())| != dictionary.slots.Length
      ensures stored ==> |old(dictionary.Contents())| < dictionary.slots.Length
      ensures dictionary.Contents() ==
              if stored then old(dictionary.Contents())[context.privateCid := context] else old(dictionary.Contents())
      ensures dictionary.Contents().Values ==
              old(dictionary.Contents()).Values + if stored then {context} else {}
    {
      ghost var before := dictionary.Contents();
      var status := dictionary.SetContextByCid(Some(context.privateCid), context);
      stored := status.SetOk?;
      if stored {
        AddingKeyAddsValue(before, context.privateCid, context);
        assert dictionary.Contents() == before[context.privateCid := context];
      } else {
        assert dictionary.Contents() == before;
      }
    }

    /** Stores the only live context that is not in the dictionary, or frees it. */
    method StoreContext(context: EdhocContext) returns (stored: bool)
      requires Tracked() && dictionary.Valid() && Keyed(dictionary.Contents(), known)
      requires context !in dictionary.Contents().Values && live == dictionary.Contents().Values + {context}
      modifies this`live, this`trace, dictionary.slots
      ensures Consistent()
      ensures stored <==> context.privateCid !in old(dictionary.Contents())
                          && |old(dictionary.Contents())| != dictionary.slots.Length
      ensures stored ==> |old(dictionary.Contents())| < dictionary.slots.Length
      ensures dictionary.Contents() ==
              if stored then old(dictionary.Contents())[context.privateCid := context] else old(dictionary.Contents())
      ensures trace == old(trace) + [if stored then Stored(context, context.privateCid) else Freed(context)]
    {
      stored := StoreInDictionary(context);
      if stored {
        assert live == dictionary.Contents().Values;
        Act(Stored(context, context.privateCid));
      } else {
        CleanupContext(context);
        assert live == dictionary.Contents().Values;
      }
    }

    /** Message 1 after setup: answers it, and stores or frees the context. */
    method ServeMessage1(context: EdhocContext, request: seq<byte>, deps: DispatchDeps, ghost before: Trace)
      returns (response: Response, ghost step: Step)
      requires Tracked() && dictionary.Valid()
      requires context !in dictionary.Contents().Values && live == dictionary.Contents().Values + {context}
      requires Keyed(dictionary.Contents(), known)
      requires trace == before + [Allocated(context), SetUp(context)] && context !in Contexts(before)
      modifies this`live, this`trace, dictionary.slots
      ensures Consistent()
      ensures Enabled(ServerState(old(dictionary.Contents()), before), step, dictionary.slots.Length)
      ensures dictionary.Contents() == Apply(ServerState(old(dictionary.Contents()), before), step).pending
      ensures trace == before + Acts(step)
      ensures Message1Settled(response, step, old(dictionary.Contents()), dictionary.slots.Length,
                              ReplyToMessage1(request, context.Suites(), deps), context.privateCid)
    {
      ghost var answered;
      response, answered := AnswerMessage1(context, request, deps);
      ActsOfMessage1(before, context, answered, context.privateCid);
      if response.code != Changed {
        return response, Abandoned(context, answered);
      }
      var stored := StoreContext(context);
      step := if stored then Opened(context, context.privateCid) else Abandoned(context, true);
      if !stored {
        response := Response(InternalError, response.body);
      }
    }

    /** Message 1: calloc says whether memory was available. */
    method HandleMessage1(request: seq<byte>, p: EdhocParameters, deps: DispatchDeps,
                          calloc: bool, calls: SetupCalls)
      returns (response: Response, ghost step: Step)
      requires Consistent() && CompleteTables(p)
      modifies this`live, this`known, this`trace, dictionary.slots
      ensures Consistent() && known >= old(known) && fresh(known - old(known))
      ensures Enabled(old(State()), step, dictionary.slots.Length)
      ensures dictionary.Contents() == Apply(old(State()), step).pending
      ensures trace == old(trace) + Acts(step)
      ensures Message1Outcome(response, step, old(dictionary.Contents()), dictionary.slots.Length,
                              request, p, deps, calloc, calls)
    {
      if !calloc {
        return Response(InternalError, []), Refused;
      }
      var context, ready := PrepareContext(p, calls);
      assert Keyed(dictionary.Contents(), known);
      assert context !in Contexts(old(trace));
      if !ready {
        CleanupContext(context);
        assert live == dictionary.Contents().Values;
        return Response(InternalError, []), Abandoned(context, false);
      }
      response, step := ServeMessage1(context, request, deps, old(trace));
    }

    // ---- Message 3 ----

    /** Takes the entry out of the dictionary. */
    method RemoveContext(context: EdhocContext, cid: ConnectionId)
      requires dictionary.Valid() && Tracked() && context in live
      modifies this`trace, dictionary.slots
      ensures dictionary.Valid() && Tracked()
      ensures dictionary.Contents() == old(dictionary.Contents()) - {cid}
      ensures trace == old(trace) + [Removed(context, cid)]
    {
      var _ := dictionary.RemoveContextByCid(Some(cid));
      Act(Removed(context, cid));
    }

    /** The stored context expected this identifier: processes the message, and consumes the context. */
    method ConsumeContext(context: EdhocContext, cid: ConnectionId, message: seq<byte>, deps: DispatchDeps)
      returns (response: Response, ghost step: Step)
      requires Tracked() && dictionary.Valid() && context in live
      modifies this`live, this`trace, dictionary.slots
      ensures Tracked() && dictionary.Valid() && live == old(live) - {context}
      ensures dictionary.Contents() == old(dictionary.Contents()) - {cid}
      ensures trace == old(trace) + Acts(step)
      ensures Message3Consumed(response, step, context, context.Suites(), cid, message, deps)
    {
      var own := context.Suites();
      var result := deps.respondToMessage3(message, own);
      ghost var accepted := deps.processMessage3Result(result) == Changed;
      Act(ProcessedMessage3(context, accepted));
      if !PayloadAdded(result.response, deps) {
        RemoveContext(context, cid);
        CleanupContext(context);
        return Response(InternalError, []), Rejected(context, cid, accepted);
      }
      var code := deps.processMessage3Result(result);
      RemoveContext(context, cid);
      if code != Changed {
        CleanupContext(context);
        return Response(code, result.response), Rejected(context, cid, false);
      }
      var bound := deps.bindOscoreSession(own);
      Act(Bound(context, bound));
      CleanupContext(context);
      return Response(if bound then code else InternalError, result.response), Completed(context, cid, bound);
    }

    method HandleMessage3(request: seq<byte>, deps: DispatchDeps) returns (response: Response, ghost step: Step)
      requires Consistent() && OwnedOnce(dictionary.Contents())
      modifies this`live, this`trace, dictionary.slots
      ensures Consistent()
      ensures Enabled(old(State()), step, dictionary.slots.Length)
      ensures dictionary.Contents() == Apply(old(State()), step).pending
      ensures trace == old(trace) + Acts(step)
      ensures Message3Outcome(response, step, old(dictionary.Contents()), request, deps)
      ensures ChecksEquality(deps) ==> !step.Mismatched?
      // A session that is found is consumed on every exit, and processed once if the identifier check passes.
      ensures var extracted := deps.extractCid(request);
              if extracted.status.ExtractCidOk? && extracted.cid in old(dictionary.Contents()) then
                var context := old(dictionary.Contents())[extracted.cid];
                && dictionary.Contents() == old(dictionary.Contents()) - {extracted.cid}
                && context !in live && !step.Refused?
                && (deps.connectionIdIsExpected(extracted.cid, context.privateCid) ==>
                      |Acts(step)| > 0
                      && Acts(step)[0] == ProcessedMessage3(
                        context,
                        deps.processMessage3Result(deps.respondToMessage3(extracted.message, context.Suites())) == Changed))
              else dictionary.Contents() == old(dictionary.Contents()) && trace == old(trace)
    {
      var extracted := deps.extractCid(request);
      if !extracted.status.ExtractCidOk? {
        return Response(InternalError, []), Refused;
      }
      var cid := extracted.cid;
      var found := dictionary.GetContextByCid(Some(cid));
      if !found.GetOk? {
        return Response(BadRequest, []), Refused;
      }
      var context := found.context;
      assert context in live;
      RemovingKeyRemovesValue(dictionary.Contents(), cid);
      if !deps.connectionIdIsExpected(cid, context.privateCid) {
        RemoveContext(context, cid);
        CleanupContext(context);
        return Response(BadRequest, []), Mismatched(context, cid);
      }
      response, step := ConsumeContext(context, cid, extracted.message, deps);
    }

    // ---- The POST handler ----

    /** Takes the step that a path has performed into the history. */
    ghost method Conclude(step: Step, before: ServerState, answer: Option<Code>)
      requires Consistent() && Records(history, answers, before, dictionary.slots.Length)
      requires Enabled(before, step, dictionary.slots.Length) && State() == Apply(before, step)
      requires AnswerMatches(step, answer)
      modifies this`history, this`answers
      ensures Valid() && history == old(history) + [step] && answers == old(answers) + [answer]
    {
      RecordsOneMore(history, answers, before, dictionary.slots.Length, step, answer);
      history, answers := history + [step], answers + [answer];
    }

    /** The handler without the history: checks, parsing, response options and routing. */
    method Dispatch(request: Option<Pdu>, p: EdhocParameters, hasResponse: bool, deps: Option<DispatchDeps>,
                    hasContext: bool, calloc: bool, calls: SetupCalls)
      returns (reply: Option<Pdu>, ghost step: Step)
      requires Consistent() && OwnedOnce(dictionary.Contents()) && CompleteTables(p)
      modifies this`live, this`known, this`trace, dictionary.slots
      ensures Consistent() && known >= old(known) && fresh(known - old(known))
      ensures Enabled(old(State()), step, dictionary.slots.Length)
      ensures dictionary.Contents() == Apply(old(State()), step).pending
      ensures trace == old(trace) + Acts(step)
      ensures PostOutcome(reply, step, old(dictionary.Contents()), dictionary.slots.Length,
                          request, p, hasResponse, deps, hasContext, calloc, calls)
      ensures deps.Some? && ChecksEquality(deps.value) ==> !step.Mismatched?
    {
      if deps.None? || request.None? || !hasResponse || !hasContext {
        return if hasResponse then Some(Pdu(InternalError, None, NoBody)) else None, Refused;
      }
      var parsed := deps.value.parseEdhocRequest(request.value, CONTENT_FORMAT_CID_EDHOC, MAX_PDU_SIZE);
      if !parsed.status.ParseOk? {
        return Some(Pdu(MapParseResultToCode(parsed.status), None, NoBody)), Refused;
      }
      if !deps.value.addEdhocResponseOptions(CONTENT_FORMAT_EDHOC) {
        return Some(Pdu(InternalError, None, NoBody)), Refused;
      }
      var answer: Response;
      if deps.value.isMessage1(parsed.parsedRequest) {
        answer, step := HandleMessage1(parsed.parsedRequest, p, deps.value, calloc, calls);
      } else {
        answer, step := HandleMessage3(parsed.parsedRequest, deps.value);
      }
      return Some(PduOf(answer, Some(CONTENT_FORMAT_EDHOC))), step;
    }

    /** The handler with the history. */
    method TakeStep(request: Option<Pdu>, p: EdhocParameters, hasResponse: bool, deps: Option<DispatchDeps>,
                    hasContext: bool, calloc: bool, calls: SetupCalls)
      returns (reply: Option<Pdu>, ghost step: Step)
      requires Valid() && CompleteTables(p)
      modifies this`live, this`known, this`trace, this`history, this`answers, dictionary.slots
      ensures Valid() && known >= old(known) && fresh(known - old(known))
      ensures Enabled(old(State()), step, dictionary.slots.Length)
      ensures State() == Apply(old(State()), step)
      ensures history == old(history) + [step] && answers == old(answers) + [CodeOf(reply)]
      ensures PostOutcome(reply, step, old(dictionary.Contents()), dictionary.slots.Length,
                          request, p, hasResponse, deps, hasContext, calloc, calls)
      ensures deps.Some? && ChecksEquality(deps.value) ==> !step.Mismatched?
    {
      ghost var before := State();
      RecordedOwnOnce(history, answers, before, dictionary.slots.Length);
      reply, step := Dispatch(request, p, hasResponse, deps, hasContext, calloc, calls);
      AnswersMatchSteps(reply, step, before.pending, dictionary.slots.Length, request, p, hasResponse, deps,
                        hasContext, calloc, calls);
      Conclude(step, before, CodeOf(reply));
    }

    /**
     srv_coap_dispatch_post_with_dependencies. A missing dependency table, request, response or context
     is None or false. The result is None when there is no response PDU to fill.
     */
    method Post(request: Option<Pdu>, p: EdhocParameters, hasResponse: bool, deps: Option<DispatchDeps>,
                hasContext: bool, calloc: bool, calls: SetupCalls)
      returns (reply: Option<Pdu>, ghost step: Step)
      requires Valid() && CompleteTables(p)
      modifies this`live, this`known, this`trace, this`history, this`answers, dictionary.slots
      ensures Valid() && known >= old(known) && fresh(known - old(known))
      ensures Enabled(old(State()), step, dictionary.slots.Length)
      ensures State() == Apply(old(State()), step)
      ensures history == old(history) + [step] && answers == old(answers) + [CodeOf(reply)]
      ensures PostOutcome(reply, step, old(dictionary.Contents()), dictionary.slots.Length,
                          request, p, hasResponse, deps, hasContext, calloc, calls)
      ensures deps.Some? && ChecksEquality(deps.value) ==> !step.Mismatched?
      // A Message 3 whose session is found consumes it: out of the dictionary, freed, and processed if it was expected.
      ensures request.Some? && deps.Some? && hasResponse && hasContext && IsMessage3Request(request.value, deps.value) ==>
                var extracted := deps.value.extractCid(
                  deps.value.parseEdhocRequest(request.value, 65, 1024).parsedRequest);
                extracted.cid in old(dictionary.Contents()) ==>
                  var context := old(dictionary.Contents())[extracted.cid];
                  && dictionary.Contents() == old(dictionary.Contents()) - {extracted.cid}
                  && context !in live && !step.Refused?
                  && (deps.value.connectionIdIsExpected(extracted.cid, context.privateCid) ==>
                        var verdict :=
                          deps.value.processMessage3Result(
                            deps.value.respondToMessage3(extracted.message, context.Suites()));
                        trace[|old(trace)|..] != []
                        && trace[|old(trace)|] == ProcessedMessage3(context, verdict == Changed))
    {
      ghost var before := State();
      RecordedOwnOnce(history, answers, before, dictionary.slots.Length);
      reply, step := TakeStep(request, p, hasResponse, deps, hasContext, calloc, calls);
      if request.Some? && deps.Some? && hasResponse && hasContext && IsMessage3Request(request.value, deps.value) {
        ghost var bytes := deps.value.parseEdhocRequest(request.value, 65, 1024).parsedRequest;
        ghost var extracted := deps.value.extractCid(bytes);
        if extracted.cid in before.pending {
          FoundSessionIsConsumed(reply, step, before, dictionary.slots.Length, request.value, p, deps.value, calloc,
                                 calls, bytes, extracted.cid, extracted.message);
          RemovingKeyRemovesValue(before.pending, extracted.cid);
          assert trace == before.trace + Acts(step);
        }
      }
    }
  }

  /** The arguments of one POST, with the outcomes of its foreign calls. */
  datatype Incoming = Incoming(request: Option<Pdu>, parameters: EdhocParameters, hasResponse: bool,
                               deps: Option<DispatchDeps>, hasContext: bool, calloc: bool, calls: SetupCalls)

  /** A session is stored under the identifier the generator gave for this POST. */
  lemma OpenedUnderGeneratedCid(reply: Option<Pdu>, step: Step, pending: SessionMap, capacity: nat,
                                request: Option<Pdu>, p: EdhocParameters, hasResponse: bool,
                                deps: Option<DispatchDeps>, hasContext: bool, calloc: bool, calls: SetupCalls)
    requires CompleteTables(p)
    requires PostOutcome(reply, step, pending, capacity, request, p, hasResponse, deps, hasContext, calloc, calls)
    ensures step.Opened? ==> p.generateConnectionId == Some(step.cid.value) && step.cid.OneByteInteger?
  {
  }

  /** Every POST comes with this generator value, or none. */
  ghost predicate AllGenerate(posts: seq<Incoming>, cid: int8) {
    forall i :: 0 <= i < |posts| && posts[i].parameters.generateConnectionId.Some? ==>
      posts[i].parameters.generateConnectionId.value == cid
  }

  /** One POST of the sequence. */
  method Serve(server: Server, p: Incoming) returns (ghost step: Step)
    requires server.Valid() && CompleteTables(p.parameters)
    modifies server`live, server`known, server`trace, server`history, server`answers, server.dictionary.slots
    ensures server.Valid() && server.history == old(server.history) + [step]
    ensures fresh(server.known - old(server.known))
    ensures step.Opened? ==>
              step.cid.OneByteInteger? && p.parameters.generateConnectionId == Some(step.cid.value)
  {
    ghost var pending := server.dictionary.Contents();
    var reply;
    reply, step := server.Post(p.request, p.parameters, p.hasResponse, p.deps, p.hasContext, p.calloc, p.calls);
    OpenedUnderGeneratedCid(reply, step, pending, server.dictionary.slots.Length, p.request, p.parameters,
                            p.hasResponse, p.deps, p.hasContext, p.calloc, p.calls);
  }

  /**
   The server over any sequence of POSTs with any foreign outcomes: the live contexts always are exactly
   those in the dictionary. If the generator always gives the same identifier, at most one is pending.
   */
  method ServeAll(server: Server, posts: seq<Incoming>, ghost cid: int8)
    requires server.Valid() && forall i :: 0 <= i < |posts| ==> CompleteTables(posts[i].parameters)
    modifies server`live, server`known, server`trace, server`history, server`answers, server.dictionary.slots
    ensures server.Valid() && |server.history| == |old(server.history)| + |posts|
    ensures Owned(server.State(), server.dictionary.slots.Length)
    ensures server.live == LiveContexts(server.trace) == server.dictionary.Contents().Values
    ensures OpensOnly(old(server.history), OneByteInteger(cid)) && AllGenerate(posts, cid) ==>
              |server.dictionary.Contents()| <= 1
  {
    ghost var constant := OpensOnly(server.history, OneByteInteger(cid)) && AllGenerate(posts, cid);
    for i := 0 to |posts|
      invariant server.Valid() && |server.history| == |old(server.history)| + i
      invariant fresh(server.known - old(server.known))
      invariant constant ==> OpensOnly(server.history, OneByteInteger(cid))
    {
      ghost var step := Serve(server, posts[i]);
    }
    OwnershipOverRuns(server.history, server.dictionary.slots.Length);
    if constant {
      ConstantGeneratorPendsOne(server.history, server.dictionary.slots.Length, OneByteInteger(cid));
    }
  }

  /**
   Response codes tell the truth, and sessions do not interfere. Message 1 is answered 2.04 exactly when
   one new entry was added, and otherwise the dictionary is as before. Message 3 is answered 2.04 exactly
   when its entry was bound to OSCORE; whatever the answer, the addressed entry is removed if there was one, and
   nothing else changes.
   */
  lemma CodesTellTheTruth(reply: Option<Pdu>, step: Step, s: ServerState, capacity: nat,
                          request: Option<Pdu>, p: EdhocParameters, hasResponse: bool,
                          deps: Option<DispatchDeps>, hasContext: bool, calloc: bool, calls: SetupCalls)
    requires CompleteTables(p) && Enabled(s, step, capacity)
    requires PostOutcome(reply, step, s.pending, capacity, request, p, hasResponse, deps, hasContext, calloc, calls)
    ensures !Routed(request, deps, hasResponse, hasContext) ==>
              Apply(s, step) == s && (reply.Some? ==> reply.value.code != Changed)
    ensures Routed(request, deps, hasResponse, hasContext) && deps.value.isMessage1(ParsedBytes(request, deps)) ==>
              && reply.Some?
              && (reply.value.code == Changed <==> step.Opened?)
              && (step.Opened? ==> step.context !in Contexts(s.trace) && step.cid !in s.pending
                                   && Apply(s, step).pending == s.pending[step.cid := step.context])
              && (!step.Opened? ==> Apply(s, step).pending == s.pending)
    ensures Routed(request, deps, hasResponse, hasContext) && !deps.value.isMessage1(ParsedBytes(request, deps)) ==>
              var cid := deps.value.extractCid(ParsedBytes(request, deps)).cid;
              && reply.Some?
              && (reply.value.code == Changed <==> cid in s.pending && step == Completed(s.pending[cid], cid, true))
              && Apply(s, step).pending ==
                 (if deps.value.extractCid(ParsedBytes(request, deps)).status.ExtractCidOk? && cid in s.pending
                  then s.pending - {cid} else s.pending)
  {
    assert s.trace + [] == s.trace;
  }
}
