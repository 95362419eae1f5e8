/** Client and server together: negotiation, the mismatch path, and agreement on the outcome. */
module Handshake {
  import opened Common
  import opened ConnectionIds
  import opened CipherSuites
  import opened ManageContext
  import opened SessionDictionary
  import opened Coap
  import opened Framing
  import opened Responders
  import opened Ownership
  import opened Dispatcher
  import opened Exchange
  import opened Negotiation

  // ---- Negotiation with a Responder that follows section 5.2.3 of RFC 9528 ----

  /** A list the client may send: some of its own suites, in any order. */
  ghost predicate DrawnFrom(suites: seq<int>, own: seq<int>) {
    0 < |suites| <= |own| && forall s :: s in suites ==> s in own
  }

  /** The library works for this Message 1, which carries these suites. */
  ghost predicate WorksFor(lib: Library, message: seq<byte>, suites: seq<int>, theirs: seq<int>) {
    && 0 < |message| < MAX_PDU_SIZE
    && FollowsRfc(lib, message, suites, theirs)
    && lib.composeMessage2(message, theirs).Some?
    && 0 < |lib.composeMessage2(message, theirs).value| <= MAX_PDU_SIZE
  }

  /**
   A library that works for a client with the suites own and a server with the suites theirs: the client's
   Message 1s, given by messageOf, can be sent and are processed by the RFC's check, Message 2 can be
   composed, and the mismatch errors survive the wire.
   */
  ghost predicate WorkingLibrary(lib: Library, messageOf: seq<int> -> seq<byte>, own: seq<int>, theirs: seq<int>) {
    && theirs != []
    && (|theirs| <= CIPHER_SUITES_ARRAY_SIZE ==> Reports(lib.codec, SuitesInfo(theirs)))
    && Reports(lib.codec, TextInfo(MISMATCH_TEXT))
    && forall suites :: DrawnFrom(suites, own) ==> WorksFor(lib, messageOf(suites), suites, theirs)
  }

  /** A message that says no more than whether the selection is acceptable and the lists fit. */
  function SampleMessage(theirs: seq<int>): seq<int> -> seq<byte> {
    suites => [if SelectionIsAcceptable(suites, theirs) then 1 else 0, if BothFit(suites, theirs) then 1 else 0]
  }

  function SampleCodec(theirs: seq<int>): Codec {
    Codec(
      (code, info) =>
        if code != WrongSelectedCipherSuite then None
        else if info == SuitesInfo(theirs) then Some([0])
        else if info == TextInfo(MISMATCH_TEXT) then Some([1])
        else None,
      bytes =>
        if bytes == [0] then Some((WrongSelectedCipherSuite, SuitesInfo(theirs)))
        else if bytes == [1] then Some((WrongSelectedCipherSuite, TextInfo(MISMATCH_TEXT)))
        else None,
      text => [])
  }

  function SampleLibrary(theirs: seq<int>): Library {
    Library(
      SampleCodec(theirs),
      (message, own) => if |message| == 2 && message[0] == 1 then Processed
                        else ProcessFailed(Some(WrongSelectedCipherSuite)),
      (message, own) => if |message| == 2 && message[1] == 1 then Some(own) else None,
      (message, own) => Some([0]),
      (message, own) => true)
  }

  /** There is such a library, whatever the two lists. */
  lemma WorkingLibraryExists(own: seq<int>, theirs: seq<int>)
    requires theirs != []
    ensures WorkingLibrary(SampleLibrary(theirs), SampleMessage(theirs), own, theirs)
  {
    var lib, messageOf := SampleLibrary(theirs), SampleMessage(theirs);
    forall suites | DrawnFrom(suites, own)
      ensures WorksFor(lib, messageOf(suites), suites, theirs)
    {
    }
  }

  /** A responder's result as the client reads it. */
  function AnswerOf(result: Message1Result): AttemptReply {
    Answer(result.response, ProcessMessage1Result(result) != Changed)
  }

  /** The responder as a network: what exchange and dispatcher are proved to make of every Message 1. */
  function ResponderNetwork(theirs: seq<int>, lib: Library, messageOf: seq<int> -> seq<byte>): Network {
    (i, suites) => AnswerOf(RespondToMessage1(messageOf(suites), theirs, lib))
  }

  /** The answer accepts the selection, or refuses it and names the responder's suites if the lists fit. */
  ghost predicate AnsweredByRule(reply: AttemptReply, suites: seq<int>, theirs: seq<int>, codec: Codec) {
    && reply.Answer?
    && (SelectionIsAcceptable(suites, theirs) <==> !reply.isError)
    && (reply.isError ==>
          reply.response != []
          && codec.process(reply.response) == Some((WrongSelectedCipherSuite, MismatchInfo(suites, theirs))))
  }

  /** All the negotiation needs of the other side: every Message 1 it may send is answered by that rule. */
  ghost predicate AnswersByRule(network: Network, own: seq<int>, theirs: seq<int>, codec: Codec) {
    forall i, suites :: DrawnFrom(suites, own) ==> AnsweredByRule(network(i, suites), suites, theirs, codec)
  }

  /** One such answer comes from the server's responder over a working library. */
  lemma ResponderAnswersByRule(message: seq<byte>, suites: seq<int>, theirs: seq<int>, lib: Library)
    requires WorksFor(lib, message, suites, theirs) && theirs != [] && Reports(lib.codec, MismatchInfo(suites, theirs))
    ensures var result := RespondToMessage1(message, theirs, lib);
            && 0 < |result.response| <= MAX_PDU_SIZE
            && (SelectionIsAcceptable(suites, theirs) <==> result.status.Responder1Ok?)
            && AnswerOf(result) == Answer(result.response, !result.status.Responder1Ok?)
            && AnsweredByRule(AnswerOf(result), suites, theirs, lib.codec)
  {
    SuiteMismatchIsReported(message, suites, theirs, lib);
  }

  /** So the responder network answers by the rule. */
  lemma NetworkAnswersByRule(own: seq<int>, theirs: seq<int>, lib: Library, messageOf: seq<int> -> seq<byte>)
    requires WorkingLibrary(lib, messageOf, own, theirs)
    ensures AnswersByRule(ResponderNetwork(theirs, lib, messageOf), own, theirs, lib.codec)
  {
    forall i: nat, suites | DrawnFrom(suites, own)
      ensures AnsweredByRule(ResponderNetwork(theirs, lib, messageOf)(i, suites), suites, theirs, lib.codec)
    {
      ResponderAnswersByRule(messageOf(suites), suites, theirs, lib);
    }
  }

  /** The suite at k is supported by the other side, and it is the only one of the list that is. */
  ghost predicate IsOnlyCommon(own: seq<int>, theirs: seq<int>, k: nat) {
    k < |own| && own[k] in theirs && forall i :: 0 <= i < |own| && i != k ==> own[i] !in theirs
  }

  /**
   The first Message 1 carries all the client's suites with the selected one last, so the responder
   accepts it exactly when it supports that suite and no other of the list.
   */
  lemma FirstAttemptIsAccepted(own: seq<int>, selected: nat, theirs: seq<int>)
    requires selected < |own|
    ensures SelectionIsAcceptable(MoveToEnd(own, selected), theirs) <==> IsOnlyCommon(own, theirs, selected)
  {
    var suites := MoveToEnd(own, selected);
    MoveToEndIsStablePermutation(own, selected);
    forall i | 0 <= i < |own| && i != selected
      ensures exists j :: 0 <= j < |suites| - 1 && suites[j] == own[i]
    {
      assert suites[if i < selected then i else i - 1] == own[i];
    }
  }

  lemma ReorderedIsDrawn(own: seq<int>, selected: nat)
    requires selected < |own|
    ensures DrawnFrom(MoveToEnd(own, selected), own) && |MoveToEnd(own, selected)| == |own|
  {
    MoveToEndIsStablePermutation(own, selected);
  }

  /**
   A concrete case: a client that prefers suite 0 over suite 2 selects suite 0, which the server supports,
   and still is refused at first, because suite 2 stands before it in SUITES_I and is supported too.
   */
  lemma PreferredSuiteIsRefusedAtFirst()
    ensures MoveToEnd([0, 2], 0) == [2, 0]
    ensures IsFirstCommon([0, 2], [0, 2], 0) && !SelectionIsAcceptable(MoveToEnd([0, 2], 0), [0, 2])
  {
    assert [2, 0][0] == 2;
  }

  /** A list cut after position k is acceptable exactly if that is where the first common suite is. */
  lemma CutIsAcceptable(own: seq<int>, theirs: seq<int>, k: nat)
    requires k < |own|
    ensures SelectionIsAcceptable(own[..k + 1], theirs) <==> IsFirstCommon(own, theirs, k)
  {
    var cut := own[..k + 1];
    assert cut[|cut| - 1] == own[k];
    assert forall i :: 0 <= i < k ==> cut[i] == own[i];
  }

  /** The last Message 1 of a resolution that succeeded selects this suite. */
  ghost predicate EndsOn(r: Resolution, suite: int) {
    r.sent != [] && r.sent[|r.sent| - 1] != [] && r.sent[|r.sent| - 1][|r.sent[|r.sent| - 1]| - 1] == suite
  }

  /** The client ended on the first suite of its list that the other side supports. */
  ghost predicate EndsOnFirstCommon(r: Resolution, own: seq<int>, theirs: seq<int>) {
    exists k: nat :: IsFirstCommon(own, theirs, k) && EndsOn(r, own[k])
  }

  /** The suites that a client with this list reads out of a refusal of its first attempt. */
  ghost function Learned(own: seq<int>, theirs: seq<int>, codec: Codec): seq<int> {
    SuitesIn(MismatchInfo(own, theirs), codec)
  }

  /**
   What a success takes: the selected suite is the only common one, or a refusal, read by a client with a
   list it can cut, points it at its first common suite.
   */
  ghost predicate CanAgree(own: seq<int>, selected: nat, theirs: seq<int>, codec: Codec) {
    IsOnlyCommon(own, theirs, selected)
    || (|own| <= MAX_RENEGOTIATION_SIZE
        && exists k: nat :: IsFirstCommon(own, theirs, k) && IsFirstCommon(own, Learned(own, theirs, codec), k))
  }

  /** If both lists fit the mismatch error, the two agree exactly if they have a common suite. */
  lemma FittingListsAgree(own: seq<int>, selected: nat, theirs: seq<int>, codec: Codec)
    requires BothFit(own, theirs)
    ensures CanAgree(own, selected, theirs, codec) <==> !Disjoint(own, theirs)
  {
    var first := FirstCommon(own, theirs);
    assert first.Some? ==> IsFirstCommon(own, theirs, first.value);
  }

  /** If one does not, and the text reads as none of the client's suites, only a first attempt can succeed. */
  lemma LongListsGetOneAttempt(own: seq<int>, selected: nat, theirs: seq<int>, codec: Codec)
    requires !BothFit(own, theirs) && Disjoint(own, codec.textAsSuites(MISMATCH_TEXT))
    ensures CanAgree(own, selected, theirs, codec) <==> IsOnlyCommon(own, theirs, selected)
  {
    assert Learned(own, theirs, codec) == codec.textAsSuites(MISMATCH_TEXT);
  }

  /** A refused first attempt: the client cuts its list where the error points, and sends that at most. */
  lemma SecondAttempt(own: seq<int>, first: seq<int>, theirs: seq<int>, network: Network, codec: Codec)
    requires AnswersByRule(network, own, theirs, codec) && DrawnFrom(first, own) && |first| == |own|
    requires !SelectionIsAcceptable(first, theirs)
    ensures var r := Resolve(first, own, network, codec, true);
            match FirstCommon(own, Learned(own, theirs, codec))
            case Some(k) =>
              if |own| <= MAX_RENEGOTIATION_SIZE then
                r.sent == [first, own[..k + 1]]
                && (r.result.AttemptOk? <==> IsFirstCommon(own, theirs, k))
                && (r.result.AttemptOk? ==> EndsOn(r, own[k]))
              else r.result.AttemptErr? && r.sent == [first]
            case None => r.result.AttemptErr? && r.sent == [first]
  {
    var reply := network(0, first);
    assert AnsweredByRule(reply, first, theirs, codec);
    assert MismatchInfo(first, theirs) == MismatchInfo(own, theirs);
    var cut := CutAfter(own, reply.response, codec, true);
    if cut.Some? {
      var k := cut.value;
      CutIsAcceptable(own, theirs, k);
      assert DrawnFrom(own[..k + 1], own);
      assert AnsweredByRule(network(1, own[..k + 1]), own[..k + 1], theirs, codec);
    }
  }

  /** A first attempt with the only common suite ends the negotiation on it. */
  lemma FirstAttemptEndsIt(own: seq<int>, selected: nat, theirs: seq<int>, network: Network, codec: Codec)
    requires AnswersByRule(network, own, theirs, codec) && IsOnlyCommon(own, theirs, selected)
    ensures var first := MoveToEnd(own, selected);
            var r := Resolve(first, own, network, codec, true);
            r.result.AttemptOk? && r.sent == [first] && EndsOnFirstCommon(r, own, theirs)
            && SelectionIsAcceptable(first, theirs)
  {
    var first := MoveToEnd(own, selected);
    FirstAttemptIsAccepted(own, selected, theirs);
    ReorderedIsDrawn(own, selected);
    assert AnsweredByRule(network(0, first), first, theirs, codec);
    assert IsFirstCommon(own, theirs, selected);
    assert EndsOn(Resolve(first, own, network, codec, true), own[selected]);
  }

  /**
   Negotiation takes at most two rounds and is optimal. Against a responder that follows the RFC a client that
   succeeds has ended on the first suite of its list that the responder supports. If both lists fit the mismatch
   error, it fails exactly when the two have none in common. Longer lists succeed exactly when CanAgree says so.
   One round is enough exactly when the selected suite is the only common one.
   */
  lemma NegotiationIsOptimal(own: seq<int>, selected: nat, theirs: seq<int>, network: Network, codec: Codec)
    requires selected < |own| && AnswersByRule(network, own, theirs, codec)
    ensures var r := Resolve(MoveToEnd(own, selected), own, network, codec, true);
            && 1 <= |r.sent| <= 2
            && (r.result.AttemptOk? <==> CanAgree(own, selected, theirs, codec))
            && (BothFit(own, theirs) ==> (r.result.AttemptOk? <==> !Disjoint(own, theirs)))
            && (r.result.AttemptOk? ==> EndsOnFirstCommon(r, own, theirs))
            && (r.result.AttemptOk? && |r.sent| == 1 <==> IsOnlyCommon(own, theirs, selected))
  {
    var first := MoveToEnd(own, selected);
    var r := Resolve(first, own, network, codec, true);
    if BothFit(own, theirs) {
      FittingListsAgree(own, selected, theirs, codec);
    }
    if IsOnlyCommon(own, theirs, selected) {
      FirstAttemptEndsIt(own, selected, theirs, network, codec);
    } else {
      FirstAttemptIsAccepted(own, selected, theirs);
      ReorderedIsDrawn(own, selected);
      SecondAttempt(own, first, theirs, network, codec);
      var learned := Learned(own, theirs, codec);
      forall k: nat | IsFirstCommon(own, learned, k)
        ensures FirstCommon(own, learned) == Some(k)
      {
        FirstCommonIsUnique(own, learned, k, FirstCommon(own, learned).value);
      }
      if r.result.AttemptOk? {
        var k := FirstCommon(own, learned).value;
        assert IsFirstCommon(own, theirs, k) && EndsOn(r, own[k]);
      }
    }
  }

  /**
   A concrete case: a client with nine suites, and a server that supports only the most preferred of them.
   The nine do not fit the mismatch error, so the server answers with a text; unless its characters happen to
   read as one of the client's suites, the negotiation fails although there is a common suite.
   */
  lemma NineSuitesAreNotTold(network: Network, codec: Codec)
    requires AnswersByRule(network, [0, 1, 2, 3, 4, 5, 6, 7, 8], [0], codec)
    requires Disjoint([0, 1, 2, 3, 4, 5, 6, 7, 8], codec.textAsSuites(MISMATCH_TEXT))
    ensures IsFirstCommon([0, 1, 2, 3, 4, 5, 6, 7, 8], [0], 0)
    ensures !Resolve(MoveToEnd([0, 1, 2, 3, 4, 5, 6, 7, 8], 8), [0, 1, 2, 3, 4, 5, 6, 7, 8], network, codec, true)
             .result.AttemptOk?
  {
    var own := [0, 1, 2, 3, 4, 5, 6, 7, 8];
    NegotiationIsOptimal(own, 8, [0], network, codec);
    assert own[0] == 0 && own[8] == 8;
    assert Learned(own, [0], codec) == codec.textAsSuites(MISMATCH_TEXT);
  }

  /** The sample library is such a codec, so this happens. */
  lemma NineSuitesFail()
    ensures var own := [0, 1, 2, 3, 4, 5, 6, 7, 8];
            var network := ResponderNetwork([0], SampleLibrary([0]), SampleMessage([0]));
            !Disjoint(own, [0]) && AnswersByRule(network, own, [0], SampleCodec([0]))
            && !Resolve(MoveToEnd(own, 8), own, network, SampleCodec([0]), true).result.AttemptOk?
  {
    var own := [0, 1, 2, 3, 4, 5, 6, 7, 8];
    WorkingLibraryExists(own, [0]);
    NetworkAnswersByRule(own, [0], SampleLibrary([0]), SampleMessage([0]));
    NineSuitesAreNotTold(ResponderNetwork([0], SampleLibrary([0]), SampleMessage([0])), SampleCodec([0]));
    assert own[0] in [0];
  }

  /** Reordering the suites reorders their numbers. */
  lemma ReorderingNumbers(p: EdhocParameters)
    requires ValidParameters(p) && CompleteTables(p)
    ensures TablesPresent(p.supportedCipherSuites)
    ensures ConfiguredSuites(p) == MoveToEnd(Numbers(p.supportedCipherSuites), SelectedIndex(p))
  {
  }

  /** The same for the context that setup configures from valid parameters. */
  lemma ConfiguredNegotiationIsOptimal(p: EdhocParameters, theirs: seq<int>, network: Network, codec: Codec)
    requires ValidParameters(p) && CompleteTables(p)
    requires AnswersByRule(network, Numbers(p.supportedCipherSuites), theirs, codec)
    ensures var own := Numbers(p.supportedCipherSuites);
            var r := Resolve(ConfiguredSuites(p), own, network, codec, true);
            && 1 <= |r.sent| <= 2
            && (r.result.AttemptOk? <==> CanAgree(own, SelectedIndex(p), theirs, codec))
            && (BothFit(own, theirs) ==> (r.result.AttemptOk? <==> !Disjoint(own, theirs)))
            && (r.result.AttemptOk? ==> EndsOnFirstCommon(r, own, theirs))
  {
    ReorderingNumbers(p);
    NegotiationIsOptimal(Numbers(p.supportedCipherSuites), SelectedIndex(p), theirs, network, codec);
  }

  /** The first context, then the negotiation: what the client runs up to Message 2. */
  method NegotiateWithResponder(resources: ClientResources, p: EdhocParameters, network: Network,
                                ghost theirs: seq<int>, codec: Codec, calls: SetupCalls)
    returns (result: AttemptResult)
    requires ValidParameters(p) && CompleteTables(p) && AllComplete(p.supportedCipherSuites)
    requires AnswersByRule(network, Numbers(p.supportedCipherSuites), theirs, codec)
    requires calls.AllSucceed() && resources.sent == []
    modifies resources, resources.context
    ensures 1 <= |resources.sent| <= 2
    ensures result.AttemptOk? <==> CanAgree(Numbers(p.supportedCipherSuites), SelectedIndex(p), theirs, codec)
    ensures BothFit(Numbers(p.supportedCipherSuites), theirs) ==>
              (result.AttemptOk? <==> !Disjoint(Numbers(p.supportedCipherSuites), theirs))
    ensures result.AttemptOk? ==>
              EndsOnFirstCommon(Resolution(result, resources.sent), Numbers(p.supportedCipherSuites), theirs)
  {
    var _ := SetupContext(resources.context, p, calls);
    assert resources.context.Suites() == ConfiguredSuites(p);
    result := resources.ResolveNegotiation(p, network, codec, calls);
    ConfiguredNegotiationIsOptimal(p, theirs, network, codec);
  }

  /** The configured suite numbers are those of the list, as often. */
  lemma ReorderingKeepsNumbers(p: EdhocParameters)
    requires ValidParameters(p) && CompleteTables(p)
    ensures |ConfiguredSuites(p)| == |p.supportedCipherSuites|
    ensures multiset(ConfiguredSuites(p)) == multiset(Numbers(p.supportedCipherSuites))
  {
    ReorderingNumbers(p);
    MoveToEndIsStablePermutation(Numbers(p.supportedCipherSuites), SelectedIndex(p));
  }

  // ---- One identifier at a time ----

  /**
   With the server's default generator every identifier is the same, so while a handshake is pending a
   second Message 1 changes nothing and gets an error code, although the error may still carry Message 2.
   */
  lemma SecondMessage1IsRefused(reply: Option<Pdu>, step: Step, s: ServerState, capacity: nat, request: Option<Pdu>,
                                p: EdhocParameters, deps: Option<DispatchDeps>, calloc: bool, calls: SetupCalls)
    requires CompleteTables(p) && p.generateConnectionId == Some(GenerateOddCid())
    requires OneByteInteger(GenerateOddCid()) in s.pending
    requires Routed(request, deps, true, true) && deps.value.isMessage1(ParsedBytes(request, deps))
    requires PostOutcome(reply, step, s.pending, capacity, request, p, true, deps, true, calloc, calls)
    ensures reply.Some? && reply.value.code != Changed && Apply(s, step).pending == s.pending
    ensures calloc && ValidParameters(p) && calls.AllSucceed() ==>
              var answer := ReplyToMessage1(ParsedBytes(request, deps), ConfiguredSuites(p), deps.value).response;
              answer.code == Changed ==> reply.value.code == InternalError && BodyBytes(reply.value) == answer.body
  {
  }

  /** So every run of POSTs with the default generator keeps at most one handshake pending. */
  lemma OddGeneratorPendsOne(steps: seq<Step>, capacity: nat)
    requires IsRun(steps, capacity) && OpensOnly(steps, OneByteInteger(GenerateOddCid()))
    ensures GenerateOddCid() == 2
    ensures OnlyKey(Run(steps).pending, OneByteInteger(2)) && |Run(steps).pending| <= 1
  {
    ConstantGeneratorPendsOne(steps, capacity, OneByteInteger(GenerateOddCid()));
  }

  // ---- The server under its default dependencies ----

  /** srv_coap_dispatch_edhoc_post: the handler with the dependencies the server installs. */
  method PostByDefault(server: Server, request: Pdu, p: EdhocParameters, lib: Library, addOptions: nat -> bool,
                       addPayload: seq<byte> -> bool, bind: seq<int> -> bool, calls: SetupCalls)
    returns (reply: Option<Pdu>, ghost step: Step)
    requires server.Valid() && CompleteTables(p)
    modifies server`live, server`known, server`trace, server`history, server`answers, server.dictionary.slots
    ensures server.Valid() && server.history == old(server.history) + [step]
    ensures fresh(server.known - old(server.known))
    ensures Enabled(old(server.State()), step, server.dictionary.slots.Length)
    ensures server.State() == Apply(old(server.State()), step)
    ensures PostOutcome(reply, step, old(server.dictionary.Contents()), server.dictionary.slots.Length, Some(request), p,
                        true, Some(DefaultDeps(lib, addOptions, addPayload, bind)), true, true, calls)
  {
    reply, step := server.Post(Some(request), p, true, Some(DefaultDeps(lib, addOptions, addPayload, bind)), true, true,
                               calls);
  }

  /** The request carries an EDHOC body in one piece that fits the server's buffer. */
  ghost predicate IsWhole(request: Pdu) {
    request.contentFormat == Some(65) && request.body.Block? && request.body.offset == 0
    && |request.body.bytes| == request.body.total && 0 < |request.body.bytes| <= 1024
  }

  /** A request that is not whole gets 4.00 and touches no session. */
  lemma PartialRequestsAreRefused(reply: Option<Pdu>, step: Step, s: ServerState, capacity: nat, request: Pdu,
                                  p: EdhocParameters, lib: Library, addOptions: nat -> bool,
                                  addPayload: seq<byte> -> bool, bind: seq<int> -> bool, calloc: bool, calls: SetupCalls)
    requires CompleteTables(p)
    requires PostOutcome(reply, step, s.pending, capacity, Some(request), p, true,
                         Some(DefaultDeps(lib, addOptions, addPayload, bind)), true, calloc, calls)
    requires request.contentFormat != Some(65) || request.body.NoBody? || request.body.offset != 0
             || |request.body.bytes| != request.body.total || request.body.bytes == [] || |request.body.bytes| > 1024
    ensures reply == Some(Pdu(BadRequest, None, NoBody)) && Apply(s, step) == s
  {
    RefusedBeforeRouting(reply, step, s, capacity, Some(request), p, true,
                         Some(DefaultDeps(lib, addOptions, addPayload, bind)), true, calloc, calls);
  }

  /**
   When a POST opens a session: exactly for a whole request that starts with 0xF5, whose Message 1 libedhoc has
   processed and answered with a Message 2, if nothing failed on the way and there is room.
   */
  lemma SessionOpensExactly(reply: Option<Pdu>, step: Step, s: ServerState, capacity: nat, request: Pdu,
                            p: EdhocParameters, lib: Library, addOptions: nat -> bool, addPayload: seq<byte> -> bool,
                            bind: seq<int> -> bool, calloc: bool, calls: SetupCalls)
    requires CompleteTables(p)
    requires PostOutcome(reply, step, s.pending, capacity, Some(request), p, true,
                         Some(DefaultDeps(lib, addOptions, addPayload, bind)), true, calloc, calls)
    ensures step.Opened? <==>
            && IsWhole(request) && |request.body.bytes| > 1 && request.body.bytes[0] == 0xF5
            && addOptions(64) && calloc && ValidParameters(p) && calls.AllSucceed()
            && lib.processMessage1(request.body.bytes[1..], ConfiguredSuites(p)) == Processed
            && (match lib.composeMessage2(request.body.bytes[1..], ConfiguredSuites(p))
                case None => false
                case Some(message2) => message2 != [] && addPayload(message2))
            && OneByteInteger(p.generateConnectionId.value) !in s.pending && |s.pending| != capacity
  {
    var deps := DefaultDeps(lib, addOptions, addPayload, bind);
    RefusedBeforeRouting(reply, step, s, capacity, Some(request), p, true, Some(deps), true, calloc, calls);
    if IsWhole(request) && addOptions(64) && request.body.bytes[0] == 0xF5 {
      var bytes := request.body.bytes;
      Message1IsAnswered(reply, step, s, capacity, request, p, deps, calloc, calls, bytes);
      Message1ExtractsWhatIsRouted(bytes);
      assert bytes[1..] == ExtractMessage1(bytes).message;
      if ValidParameters(p) {
        Message1IsAcceptedExactlyIfProcessed(bytes[1..], ConfiguredSuites(p), lib);
      }
    }
  }

  /**
   When a POST completes and binds a session: exactly for a whole request that does not start with 0xF5, whose
   identifier is pending and whose Message 3 libedhoc accepts for that session's suites, if the bind succeeds.
   */
  lemma SessionIsBoundExactly(reply: Option<Pdu>, step: Step, s: ServerState, known: set<EdhocContext>, capacity: nat,
                              request: Pdu, p: EdhocParameters, lib: Library, addOptions: nat -> bool,
                              addPayload: seq<byte> -> bool, bind: seq<int> -> bool, calloc: bool, calls: SetupCalls)
    requires CompleteTables(p) && Keyed(s.pending, known)
    requires PostOutcome(reply, step, s.pending, capacity, Some(request), p, true,
                         Some(DefaultDeps(lib, addOptions, addPayload, bind)), true, calloc, calls)
    ensures step.Completed? && step.bound <==>
            && IsWhole(request) && request.body.bytes[0] != 0xF5 && addOptions(64)
            && (match DecodeCid(request.body.bytes)
                case None => false
                case Some((cid, message)) =>
                  cid in s.pending && message != []
                  && lib.processMessage3(message, s.pending[cid].Suites()) && bind(s.pending[cid].Suites()))
  {
    var deps := DefaultDeps(lib, addOptions, addPayload, bind);
    RefusedBeforeRouting(reply, step, s, capacity, Some(request), p, true, Some(deps), true, calloc, calls);
    if IsWhole(request) && addOptions(64) && request.body.bytes[0] != 0xF5 {
      UnknownSessionIsRefused(reply, step, s, capacity, request, p, deps, calloc, calls, request.body.bytes);
    }
  }

  // ---- Agreement on the outcome ----

  /** Each poll reports some milliseconds and delivers the same response some number of times. */
  function PollsDelivering(shape: seq<(nat, nat)>, reply: Pdu): (polls: seq<Poll>)
    ensures |polls| == |shape|
  {
    seq(|shape|, i requires 0 <= i < |shape| => Poll(shape[i].0, seq(shape[i].1, _ => reply)))
  }

  ghost function Milliseconds(shape: seq<(nat, nat)>): nat {
    if shape == [] then 0 else Milliseconds(shape[..|shape| - 1]) + shape[|shape| - 1].0
  }

  lemma {:induction false} PollsTakeTheirTime(shape: seq<(nat, nat)>, reply: Pdu, n: nat)
    requires n <= |shape|
    ensures TotalElapsed(PollsDelivering(shape, reply)[..n]) == Milliseconds(shape[..n])
  {
    if 0 < n {
      PollsTakeTheirTime(shape, reply, n - 1);
      OnePollMore(PollsDelivering(shape, reply), n - 1);
      assert shape[..n][..n - 1] == shape[..n - 1];
    }
  }

  /** Poll number k hands the reply over before the time is up. */
  ghost predicate InTime(shape: seq<(nat, nat)>, integerPart: nat, k: int)
    requires integerPart < 0x1_0000
  {
    0 <= k < |shape| && shape[k].1 > 0
    && (integerPart == 65535 || Milliseconds(shape[..k + 1]) < 1000 * (integerPart + 1))
  }

  /** Some poll does. */
  ghost predicate Timely(shape: seq<(nat, nat)>, integerPart: nat)
    requires integerPart < 0x1_0000
  {
    exists k :: InTime(shape, integerPart, k)
  }

  lemma {:induction false} OnlyTheReplyIsDelivered(polls: seq<Poll>, reply: Pdu)
    requires forall i :: 0 <= i < |polls| ==> forall pdu :: pdu in polls[i].delivered ==> pdu == reply
    ensures forall pdu :: pdu in Delivered(polls) ==> pdu == reply
  {
    if polls != [] {
      OnlyTheReplyIsDelivered(polls[..|polls| - 1], reply);
    }
  }

  /** The pending session of this identifier accepts the message, and its context can be bound to OSCORE. */
  ghost predicate Confirms(pending: SessionMap, cid: ConnectionId, message: seq<byte>, lib: Library, bind: seq<int> -> bool)
    reads pending.Values
  {
    cid in pending && message != [] && lib.processMessage3(message, pending[cid].Suites()) && bind(pending[cid].Suites())
  }

  /**
   With the default dependencies any reply to a Message 3 request is one the client accepts as an answer,
   and it is 2.04 exactly when the addressed session accepts the message and is bound.
   */
  lemma Message3ReplyIsAccepted(reply: Pdu, step: Step, pending: SessionMap, known: set<EdhocContext>, capacity: nat,
                                request: Pdu, p: EdhocParameters, lib: Library, addOptions: nat -> bool,
                                addPayload: seq<byte> -> bool, bind: seq<int> -> bool, calls: SetupCalls,
                                cid: ConnectionId, message: seq<byte>)
    requires CompleteTables(p) && Keyed(pending, known)
    requires ParseEdhocRequest(request, CONTENT_FORMAT_CID_EDHOC, MAX_PDU_SIZE).status.ParseOk?
    requires DeliveredAsMessage3(ParseEdhocRequest(request, CONTENT_FORMAT_CID_EDHOC, MAX_PDU_SIZE).parsedRequest,
                                 cid, message)
    requires PostOutcome(Some(reply), step, pending, capacity, Some(request), p, true,
                         Some(DefaultDeps(lib, addOptions, addPayload, bind)), true, true, calls)
    ensures PduIsEmpty(reply) && reply.code != EmptyCode
    ensures reply.code == Changed <==> addOptions(CONTENT_FORMAT_EDHOC) && Confirms(pending, cid, message, lib, bind)
    ensures reply.code == Changed <==> step.Completed? && step.bound
    ensures step.Completed? ==> step.cid == cid
  {
  }

  /** The server's part: the request is posted under the default dependencies. */
  method PostMessage3(server: Server, request: Pdu, p: EdhocParameters, lib: Library, addOptions: nat -> bool,
                      addPayload: seq<byte> -> bool, bind: seq<int> -> bool, calls: SetupCalls,
                      ghost cid: ConnectionId, ghost message: seq<byte>)
    returns (reply: Pdu, ghost step: Step)
    requires server.Valid() && CompleteTables(p)
    requires ParseEdhocRequest(request, CONTENT_FORMAT_CID_EDHOC, MAX_PDU_SIZE).status.ParseOk?
    requires DeliveredAsMessage3(ParseEdhocRequest(request, CONTENT_FORMAT_CID_EDHOC, MAX_PDU_SIZE).parsedRequest,
                                 cid, message)
    modifies server`live, server`known, server`trace, server`history, server`answers, server.dictionary.slots
    ensures server.Valid() && server.history == old(server.history) + [step]
    ensures PduIsEmpty(reply) && reply.code != EmptyCode
    ensures reply.code == Changed <==>
            addOptions(CONTENT_FORMAT_EDHOC) && old(Confirms(server.dictionary.Contents(), cid, message, lib, bind))
    ensures reply.code == Changed <==> step.Completed? && step.bound
    ensures step.Completed? ==> step.cid == cid
  {
    var result;
    ghost var pending, known := server.dictionary.Contents(), server.known;
    result, step := PostByDefault(server, request, p, lib, addOptions, addPayload, bind, calls);
    Message3ReplyIsAccepted(result.value, step, pending, known, server.dictionary.slots.Length,
                            request, p, lib, addOptions, addPayload, bind, calls, cid, message);
    return result.value, step;
  }

  /** Whatever was delivered of such polls, the latest accepted response is the reply, if it is acceptable. */
  lemma ReplyIsLatest(polls: seq<Poll>, reply: Pdu, consumed: nat, complete: bool, capacity: nat)
    requires consumed <= |polls|
    requires forall i :: 0 <= i < |polls| ==> forall pdu :: pdu in polls[i].delivered ==> pdu == reply
    ensures var received := Delivered(polls[..consumed]);
            LastAccepted(received, complete, capacity) ==
              if received != [] && Accepts(reply, complete, capacity) then Some(reply) else None
  {
    var received := Delivered(polls[..consumed]);
    OnlyTheReplyIsDelivered(polls[..consumed], reply);
    LastAcceptedIsAccepted(received, complete, capacity);
    if received != [] {
      assert received[|received| - 1] in received;
    }
  }

  lemma ReplyInTimeEndsTheWait(shape: seq<(nat, nat)>, reply: Pdu, integerPart: nat, status: WaitStatus,
                               consumed: nat, k: int)
    requires integerPart < 0x1_0000 && InTime(shape, integerPart, k)
    requires WaitEnd(status, PollsDelivering(shape, reply), consumed, [], Budget(integerPart))
    ensures status.WaitOk?
  {
    PollsTakeTheirTime(shape, reply, k + 1);
    ResponseInBudgetIsSeen(status, PollsDelivering(shape, reply), consumed, Budget(integerPart), k);
  }

  /**
   The client's part after a send: it waits, and what it reads is the reply's. A reply that the callback
   does not accept is no answer to Message 1.
   */
  method AwaitReply(client: ClientExchange, reply: Pdu, integerPart: nat, shape: seq<(nat, nat)>)
    returns (answered: bool, response: seq<byte>, isError: bool)
    requires client.Valid() && client.received == [] && integerPart < 0x1_0000
    modifies client, client.incoming
    ensures client.Valid() && client.edhocExchangeIsComplete == old(client.edhocExchangeIsComplete)
    ensures answered ==> client.edhocExchangeIsComplete || Accepts(reply, false, client.incoming.Length)
    ensures Accepts(reply, client.edhocExchangeIsComplete, client.incoming.Length) ==>
              (Timely(shape, integerPart) ==> answered)
              && (answered ==> (isError <==> reply.code != Changed) && response == BodyBytes(reply))
  {
    var polls := PollsDelivering(shape, reply);
    ghost var status, consumed;
    answered, response, isError, status, consumed := client.WaitAndGet(integerPart, polls);
    assert client.received == Delivered(polls[..consumed]);
    ReplyIsLatest(polls, reply, consumed, client.edhocExchangeIsComplete, client.incoming.Length);
    if Timely(shape, integerPart) {
      ghost var k :| InTime(shape, integerPart, k);
      ReplyInTimeEndsTheWait(shape, reply, integerPart, status, consumed, k);
    }
  }

  /** The same beside a server, which stays as it is meanwhile. */
  method AwaitBeside(client: ClientExchange, ghost server: Server, reply: Pdu, integerPart: nat, shape: seq<(nat, nat)>)
    returns (answered: bool, response: seq<byte>, isError: bool)
    requires client.Valid() && client.received == [] && integerPart < 0x1_0000 && server.Valid()
    modifies client, client.incoming
    ensures server.Valid() && server.dictionary.Contents() == old(server.dictionary.Contents())
    ensures server.known == old(server.known) && server.history == old(server.history)
    ensures client.Valid() && client.edhocExchangeIsComplete == old(client.edhocExchangeIsComplete)
    ensures answered ==> client.edhocExchangeIsComplete || Accepts(reply, false, client.incoming.Length)
    ensures Accepts(reply, client.edhocExchangeIsComplete, client.incoming.Length) ==>
              (Timely(shape, integerPart) ==> answered)
              && (answered ==> (isError <==> reply.code != Changed) && response == BodyBytes(reply))
  {
    answered, response, isError := AwaitReply(client, reply, integerPart, shape);
  }

  /**
   The client's last phase against the server: Message 3 is sent, posted, and the reply, delivered any
   number of times over any polls, is awaited. The client goes on to OSCORE exactly when it got an answer
   and the server's session of this identifier accepted the message and was bound; the dispatcher then has
   completed that very session.
   */
  method FinishHandshake(client: ClientExchange, server: Server, cid: int8, message: seq<byte>, p: EdhocParameters,
                         lib: Library, addOptions: nat -> bool, addPayload: seq<byte> -> bool,
                         bind: seq<int> -> bool, calls: SetupCalls, integerPart: nat, shape: seq<(nat, nat)>)
    returns (answered: bool, proceeds: bool, ghost step: Step)
    requires client.Valid() && server.Valid() && CompleteTables(p)
    requires LIBEDHOC_MIN_INT_CID <= cid <= MAX_INT_CID && 0 < |message| < MAX_PDU_SIZE && integerPart < 0x1_0000
    modifies client, client.incoming
    modifies server`live, server`known, server`trace, server`history, server`answers, server.dictionary.slots
    ensures client.Valid() && server.Valid() && server.history == old(server.history) + [step]
    ensures proceeds <==>
            answered && addOptions(CONTENT_FORMAT_EDHOC)
            && old(Confirms(server.dictionary.Contents(), OneByteInteger(cid), message, lib, bind))
    ensures proceeds <==> answered && step.Completed? && step.bound
    ensures step.Completed? ==> step.cid == OneByteInteger(cid)
    ensures Timely(shape, integerPart) ==> answered
  {
    var request := client.SendMessage3(OneByteInteger(cid), message, true, true);
    Message3RoundTrip(cid, message);
    var reply, response, isError;
    reply, step := PostMessage3(server, request.value, p, lib, addOptions, addPayload, bind, calls,
                                OneByteInteger(cid), message);
    answered, response, isError := AwaitBeside(client, server, reply, integerPart, shape);
    proceeds := answered && !isError;
  }

  // ---- The first phase over the exchange and the dispatcher ----

  /** Nothing is stored under this identifier, and there is a free slot for it. */
  ghost predicate HasRoom(pending: SessionMap, cid: ConnectionId, capacity: nat) {
    cid !in pending && |pending| < capacity
  }

  /**
   With the default dependencies the reply to a Message 1 carries the responder's answer. It is 2.04
   exactly when a session opened: the responder composed Message 2, and there was room.
   */
  lemma Message1ReplyIsResponders(message: seq<byte>, p: EdhocParameters, lib: Library, bind: seq<int> -> bool,
                                  calls: SetupCalls, pending: SessionMap, capacity: nat,
                                  reply: Option<Pdu>, step: Step)
    requires ValidParameters(p) && CompleteTables(p) && calls.AllSucceed() && 0 < |message| < MAX_PDU_SIZE
    requires |pending| <= capacity
    requires PostOutcome(reply, step, pending, capacity, Some(PostOf([CBOR_TRUE] + message)), p, true,
                         Some(DefaultDeps(lib, format => true, payload => true, bind)), true, true, calls)
    ensures var result := RespondToMessage1(message, ConfiguredSuites(p), lib);
            && reply.Some? && BodyBytes(reply.value) == result.response
            && reply.value.contentFormat == Some(CONTENT_FORMAT_EDHOC)
            && (reply.value.code == Changed <==> step.Opened?)
            && reply.value.code != EmptyCode
            && (!result.status.Responder1Ok? ==> reply.value.code == ProcessMessage1Result(result))
            && (step.Opened? <==> result.status.Responder1Ok?
                                  && HasRoom(pending, OneByteInteger(p.generateConnectionId.value), capacity))
            && (if step.Opened? then step.cid == OneByteInteger(p.generateConnectionId.value) else step.Abandoned?)
            && (Accepts(reply.value, false, MAX_PDU_SIZE) <==> 0 < |result.response| <= MAX_PDU_SIZE)
  {
    Message1RoundTrip(message);
  }

  /**
   A Message 1 that fails for a wrong suite reaches the client as a 4.00 that its callback accepts, and no
   session is stored. If both lists fit the error, the client reads from it exactly the suites the server was
   configured with, none lost by the reordering; if not, a text.
   */
  lemma SuiteMismatchReachesClient(message: seq<byte>, suites: seq<int>, p: EdhocParameters, lib: Library,
                                   bind: seq<int> -> bool, calls: SetupCalls, pending: SessionMap, capacity: nat,
                                   reply: Option<Pdu>, step: Step)
    requires ValidParameters(p) && CompleteTables(p) && calls.AllSucceed() && 0 < |message| < MAX_PDU_SIZE
    requires |pending| <= capacity
    requires lib.processMessage1(message, ConfiguredSuites(p)) == ProcessFailed(Some(WrongSelectedCipherSuite))
    requires GetsSuitesThatFit(lib, message, suites, ConfiguredSuites(p))
    requires Reports(lib.codec, MismatchInfo(suites, ConfiguredSuites(p)))
    requires PostOutcome(reply, step, pending, capacity, Some(PostOf([CBOR_TRUE] + message)), p, true,
                         Some(DefaultDeps(lib, format => true, payload => true, bind)), true, true, calls)
    ensures reply.Some? && reply.value.code == BadRequest && Accepts(reply.value, false, MAX_PDU_SIZE)
    ensures SuggestsRenegotiation(BodyBytes(reply.value), lib.codec)
    ensures var info := lib.codec.process(BodyBytes(reply.value)).value.1;
            if |suites| <= CIPHER_SUITES_ARRAY_SIZE && |p.supportedCipherSuites| <= CIPHER_SUITES_ARRAY_SIZE
            then multiset(SuitesIn(info, lib.codec)) == multiset(Numbers(p.supportedCipherSuites))
            else info == TextInfo(MISMATCH_TEXT)
    ensures step.Abandoned?
  {
    Message1ReplyIsResponders(message, p, lib, bind, calls, pending, capacity, reply, step);
    ReorderingKeepsNumbers(p);
    assert |MISMATCH_TEXT| == 88;
  }

  /** The sessions after this step of a Message 1: one more if it opened one, under the generated identifier. */
  ghost function SessionsAfter(pending: SessionMap, step: Step, p: EdhocParameters): SessionMap
    requires ValidParameters(p)
  {
    if step.Opened? then pending[OneByteInteger(p.generateConnectionId.value) := step.context] else pending
  }

  /** The server's part of an attempt, over any library. */
  method PostMessage1(server: Server, request: Pdu, ghost message: seq<byte>, p: EdhocParameters, lib: Library,
                      bind: seq<int> -> bool, calls: SetupCalls)
    returns (reply: Pdu, ghost step: Step)
    requires server.Valid() && ValidParameters(p) && CompleteTables(p) && calls.AllSucceed()
    requires 0 < |message| < MAX_PDU_SIZE && request == PostOf([CBOR_TRUE] + message)
    modifies server`live, server`known, server`trace, server`history, server`answers, server.dictionary.slots
    ensures server.Valid() && server.history == old(server.history) + [step]
    ensures fresh(server.known - old(server.known))
    ensures reply.code == Changed <==> step.Opened?
    ensures step.Opened? ==> lib.processMessage1(message, ConfiguredSuites(p)) == Processed
    ensures var result := RespondToMessage1(message, ConfiguredSuites(p), lib);
            && BodyBytes(reply) == result.response
            && (Accepts(reply, false, MAX_PDU_SIZE) <==> 0 < |result.response| <= MAX_PDU_SIZE)
            && (step.Opened? <==>
                result.status.Responder1Ok?
                && old(HasRoom(server.dictionary.Contents(), OneByteInteger(p.generateConnectionId.value),
                               server.dictionary.slots.Length)))
    ensures server.dictionary.Contents() == SessionsAfter(old(server.dictionary.Contents()), step, p)
  {
    ghost var before := server.State();
    InvOverRuns(server.history, server.dictionary.slots.Length);
    var result;
    result, step := PostByDefault(server, request, p, lib, format => true, payload => true, bind, calls);
    Message1ReplyIsResponders(message, p, lib, bind, calls, before.pending, server.dictionary.slots.Length,
                              result, step);
    Message1IsAcceptedExactlyIfProcessed(message, ConfiguredSuites(p), lib);
    return result.value, step;
  }

  /** The client's part before it. The server stays as it is. */
  method SendBeside(client: ClientExchange, ghost server: Server, message: seq<byte>) returns (request: Pdu)
    requires client.Valid() && server.Valid() && 0 < |message| < MAX_PDU_SIZE
    modifies client
    ensures client.Valid() && client.received == []
    ensures client.edhocExchangeIsComplete == old(client.edhocExchangeIsComplete)
    ensures request == PostOf([CBOR_TRUE] + message)
    ensures server.Valid() && server.dictionary.Contents() == old(server.dictionary.Contents())
    ensures server.known == old(server.known) && server.history == old(server.history)
  {
    var sent := client.SendMessage1(message, true, true, true);
    return sent.value;
  }

  /**
   One negotiation attempt over the real parts: Message 1 is framed and sent, dispatched, and its reply
   delivered any number of times over any polls. The client reads the responder's answer, as an error
   exactly when no session opened, or no answer at all; a session opens exactly when the responder composed
   Message 2 and there was room, and otherwise the dictionary is as before.
   */
  method AttemptThroughServer(client: ClientExchange, server: Server, message: seq<byte>, p: EdhocParameters,
                              lib: Library, bind: seq<int> -> bool, calls: SetupCalls,
                              integerPart: nat, shape: seq<(nat, nat)>)
    returns (outcome: AttemptReply, ghost step: Step)
    requires client.Valid() && !client.edhocExchangeIsComplete && client.incoming.Length == MAX_PDU_SIZE
    requires server.Valid() && ValidParameters(p) && CompleteTables(p) && calls.AllSucceed()
    requires 0 < |message| < MAX_PDU_SIZE && integerPart < 0x1_0000
    modifies client, client.incoming
    modifies server`live, server`known, server`trace, server`history, server`answers, server.dictionary.slots
    ensures client.Valid() && !client.edhocExchangeIsComplete
    ensures server.Valid() && server.history == old(server.history) + [step]
    ensures fresh(server.known - old(server.known))
    ensures var result := RespondToMessage1(message, ConfiguredSuites(p), lib);
            && (outcome == NoAnswer || outcome == Answer(result.response, !step.Opened?))
            && (Timely(shape, integerPart) && 0 < |result.response| <= MAX_PDU_SIZE ==> outcome != NoAnswer)
            && (step.Opened? <==>
                result.status.Responder1Ok?
                && old(HasRoom(server.dictionary.Contents(), OneByteInteger(p.generateConnectionId.value),
                               server.dictionary.slots.Length)))
    ensures server.dictionary.Contents() == SessionsAfter(old(server.dictionary.Contents()), step, p)
  {
    var request := SendBeside(client, server, message);
    var reply;
    reply, step := PostMessage1(server, request, message, p, lib, bind, calls);
    var answered, response, isError := AwaitBeside(client, server, reply, integerPart, shape);
    outcome := if answered then Answer(response, isError) else NoAnswer;
  }

  /** What a working library makes of a Message 1 that the client may send. */
  lemma WorkingLibraryAnswers(own: seq<int>, theirs: seq<int>, lib: Library, messageOf: seq<int> -> seq<byte>,
                              suites: seq<int>)
    requires WorkingLibrary(lib, messageOf, own, theirs) && DrawnFrom(suites, own)
    ensures var result := RespondToMessage1(messageOf(suites), theirs, lib);
            && 0 < |messageOf(suites)| < MAX_PDU_SIZE && 0 < |result.response| <= MAX_PDU_SIZE
            && (result.status.Responder1Ok? <==> SelectionIsAcceptable(suites, theirs))
            && AnsweredByRule(Answer(result.response, !result.status.Responder1Ok?), suites, theirs, lib.codec)
            && forall i :: ResponderNetwork(theirs, lib, messageOf)(i, suites)
                           == Answer(result.response, !result.status.Responder1Ok?)
  {
    ResponderAnswersByRule(messageOf(suites), suites, theirs, lib);
  }

  /** What the client makes of an answer by the rule: it goes on exactly if its selection was acceptable. */
  lemma AnswerIsJudged(reply: AttemptReply, suites: seq<int>, theirs: seq<int>, codec: Codec)
    requires AnsweredByRule(reply, suites, theirs, codec)
    ensures SentBy(reply, suites) == [suites]
    ensures if SelectionIsAcceptable(suites, theirs) then Judge(reply, codec) == AttemptOk(reply.response)
            else Judge(reply, codec) == Renegotiate(reply.response)
                 && SuitesIn(codec.process(reply.response).value.1, codec) == Learned(suites, theirs, codec)
  {
  }

  /**
   An attempt with a working library, room at the server and a reply in time is one call of the responder
   network, and opens a session exactly if the selection is acceptable.
   */
  method AttemptOnNetwork(client: ClientExchange, server: Server, ghost own: seq<int>, suites: seq<int>,
                          q: EdhocParameters, lib: Library, messageOf: seq<int> -> seq<byte>, bind: seq<int> -> bool,
                          calls: SetupCalls, integerPart: nat, shape: seq<(nat, nat)>)
    returns (outcome: AttemptReply, ghost step: Step)
    requires client.Valid() && !client.edhocExchangeIsComplete && client.incoming.Length == MAX_PDU_SIZE
    requires server.Valid() && ValidParameters(q) && CompleteTables(q) && calls.AllSucceed()
    requires WorkingLibrary(lib, messageOf, own, ConfiguredSuites(q)) && DrawnFrom(suites, own)
    requires HasRoom(server.dictionary.Contents(), OneByteInteger(q.generateConnectionId.value),
                     server.dictionary.slots.Length)
    requires integerPart < 0x1_0000 && Timely(shape, integerPart)
    modifies client, client.incoming
    modifies server`live, server`known, server`trace, server`history, server`answers, server.dictionary.slots
    ensures client.Valid() && !client.edhocExchangeIsComplete
    ensures server.Valid() && server.history == old(server.history) + [step]
    ensures fresh(server.known - old(server.known))
    ensures forall i :: outcome == ResponderNetwork(ConfiguredSuites(q), lib, messageOf)(i, suites)
    ensures AnsweredByRule(outcome, suites, ConfiguredSuites(q), lib.codec)
    ensures step.Opened? <==> SelectionIsAcceptable(suites, ConfiguredSuites(q))
    ensures server.dictionary.Contents() == SessionsAfter(old(server.dictionary.Contents()), step, q)
  {
    WorkingLibraryAnswers(own, ConfiguredSuites(q), lib, messageOf, suites);
    outcome, step := AttemptThroughServer(client, server, messageOf(suites), q, lib, bind, calls, integerPart, shape);
  }

  /** The client's first context touches neither the server nor the exchange. */
  method SetupBeside(resources: ClientResources, ghost server: Server, ghost client: ClientExchange,
                     p: EdhocParameters, calls: SetupCalls)
    returns (suites: seq<int>)
    requires ValidParameters(p) && CompleteTables(p) && calls.AllSucceed()
    requires server.Valid() && client.Valid() && resources.context !in server.known
    modifies resources.context
    ensures server.Valid() && client.Valid()
    ensures server.dictionary.Contents() == old(server.dictionary.Contents())
    ensures suites == ConfiguredSuites(p) && DrawnFrom(suites, Numbers(p.supportedCipherSuites))
    ensures |suites| == |p.supportedCipherSuites|
  {
    var _ := SetupContext(resources.context, p, calls);
    ReorderingNumbers(p);
    ReorderedIsDrawn(Numbers(p.supportedCipherSuites), SelectedIndex(p));
    return resources.context.Suites();
  }

  /** The client's step between the attempts touches neither the server nor the exchange. */
  method PrepareBeside(resources: ClientResources, ghost server: Server, ghost client: ClientExchange,
                       p: EdhocParameters, response: seq<byte>, codec: Codec, calls: SetupCalls)
    returns (ready: bool)
    requires ValidParameters(p) && CompleteTables(p) && AllComplete(p.supportedCipherSuites)
    requires codec.process(response).Some?
    requires server.Valid() && client.Valid() && resources.context !in server.known
    modifies resources.context
    ensures server.Valid() && client.Valid()
    ensures server.dictionary.Contents() == old(server.dictionary.Contents())
    ensures match CutAfter(Numbers(p.supportedCipherSuites), response, codec, calls.AllSucceed())
            case None => !ready
            case Some(k) => ready && resources.context.Suites() == Numbers(p.supportedCipherSuites)[..k + 1]
  {
    ready := resources.PrepareAgain(p, response, codec, calls);
  }

  /** What comes of a refusal: one more Message 1 if the error points at a suite, and else nothing. */
  ghost predicate IsSecondRound(own: seq<int>, response: seq<byte>, network: Network, codec: Codec,
                                result: AttemptResult, sent: seq<seq<int>>)
    requires codec.process(response).Some?
  {
    match CutAfter(own, response, codec, true)
    case None => result == AttemptErr && sent == []
    case Some(k) =>
      var reply := network(1, own[..k + 1]);
      sent == SentBy(reply, own[..k + 1]) == [own[..k + 1]] && result == Judge(reply, codec)
  }

  lemma AnswerIsSecondRound(own: seq<int>, response: seq<byte>, network: Network, theirs: seq<int>, codec: Codec,
                            k: nat, outcome: AttemptReply)
    requires codec.process(response).Some? && k < |own| && CutAfter(own, response, codec, true) == Some(k)
    requires outcome == network(1, own[..k + 1]) && AnsweredByRule(outcome, own[..k + 1], theirs, codec)
    ensures IsSecondRound(own, response, network, codec, Judge(outcome, codec), [own[..k + 1]])
    ensures Judge(outcome, codec).AttemptOk? <==> SelectionIsAcceptable(own[..k + 1], theirs)
  {
    AnswerIsJudged(outcome, own[..k + 1], theirs, codec);
  }

  /** What is left of the negotiation after a refusal: at most one more attempt. */
  method AttemptAgainThroughServer(
    resources: ClientResources, client: ClientExchange, server: Server, p: EdhocParameters, q: EdhocParameters,
    response: seq<byte>, lib: Library, messageOf: seq<int> -> seq<byte>, bind: seq<int> -> bool,
    clientCalls: SetupCalls, serverCalls: SetupCalls, integerPart: nat, shape: seq<(nat, nat)>)
    returns (result: AttemptResult, ghost sent: seq<seq<int>>, ghost steps: seq<Step>)
    requires ValidParameters(p) && CompleteTables(p) && AllComplete(p.supportedCipherSuites)
    requires lib.codec.process(response).Some? && clientCalls.AllSucceed()
    requires client.Valid() && !client.edhocExchangeIsComplete && client.incoming.Length == MAX_PDU_SIZE
    requires server.Valid() && ValidParameters(q) && CompleteTables(q) && serverCalls.AllSucceed()
    requires WorkingLibrary(lib, messageOf, Numbers(p.supportedCipherSuites), ConfiguredSuites(q))
    requires HasRoom(server.dictionary.Contents(), OneByteInteger(q.generateConnectionId.value),
                     server.dictionary.slots.Length)
    requires resources.context !in server.known && integerPart < 0x1_0000 && Timely(shape, integerPart)
    modifies resources.context, client, client.incoming
    modifies server`live, server`known, server`trace, server`history, server`answers, server.dictionary.slots
    ensures client.Valid() && server.Valid() && server.history == old(server.history) + steps
    ensures |steps| == |sent| <= 1
    ensures IsSecondRound(Numbers(p.supportedCipherSuites), response,
                          ResponderNetwork(ConfiguredSuites(q), lib, messageOf), lib.codec, result, sent)
    ensures server.dictionary.Contents() ==
            if steps == [] then old(server.dictionary.Contents())
            else SessionsAfter(old(server.dictionary.Contents()), steps[0], q)
    ensures result.AttemptOk? <==> steps != [] && steps[0].Opened?
  {
    ghost var own := Numbers(p.supportedCipherSuites);
    var ready := PrepareBeside(resources, server, client, p, response, lib.codec, clientCalls);
    if !ready {
      return AttemptErr, [], [];
    }
    var suites := resources.context.Suites();
    ghost var k := CutAfter(own, response, lib.codec, true).value;
    ghost var cut := own[..k + 1];
    assert suites == cut && DrawnFrom(cut, own);
    var outcome;
    ghost var step;
    outcome, step := AttemptOnNetwork(client, server, own, suites, q, lib, messageOf, bind, serverCalls, integerPart,
                                      shape);
    AnswerIsSecondRound(own, response, ResponderNetwork(ConfiguredSuites(q), lib, messageOf), ConfiguredSuites(q),
                        lib.codec, k, outcome);
    return Judge(outcome, lib.codec), [cut], [step];
  }

  /**
   What the rounds amount to: the negotiation on suite numbers, with a session opened by the last Message 1 of a
   success and by no other.
   */
  ghost predicate AreRounds(r: Resolution, steps: seq<Step>, first: seq<int>, own: seq<int>, network: Network,
                            codec: Codec, before: SessionMap, after: SessionMap, q: EdhocParameters)
    requires ValidParameters(q)
  {
    && 1 <= |steps| == |r.sent| <= 2
    && r == Resolve(first, own, network, codec, true)
    && (r.result.AttemptOk? <==> steps[|steps| - 1].Opened?)
    && (|steps| == 2 ==> !steps[0].Opened?)
    && after == SessionsAfter(before, steps[|steps| - 1], q)
  }

  /** An accepted first round is all of it. */
  lemma OneRound(step: Step, first: seq<int>, own: seq<int>, network: Network, codec: Codec, before: SessionMap,
                 after: SessionMap, q: EdhocParameters)
    requires ValidParameters(q) && after == SessionsAfter(before, step, q) && step.Opened?
    requires SentBy(network(0, first), first) == [first] && Judge(network(0, first), codec).AttemptOk?
    ensures AreRounds(Resolution(Judge(network(0, first), codec), [first]), [step], first, own, network, codec,
                      before, after, q)
  {
  }

  /** A refused first round, and what came of the refusal. */
  lemma TwoRounds(step: Step, first: seq<int>, own: seq<int>, network: Network, codec: Codec, result: AttemptResult,
                  later: seq<seq<int>>, laterSteps: seq<Step>, before: SessionMap, after: SessionMap,
                  q: EdhocParameters)
    requires ValidParameters(q) && !step.Opened?
    requires SentBy(network(0, first), first) == [first] && Judge(network(0, first), codec).Renegotiate?
    requires var response := Judge(network(0, first), codec).response;
             codec.process(response).Some? && IsSecondRound(own, response, network, codec, result, later)
    requires |laterSteps| == |later| <= 1 && (result.AttemptOk? <==> laterSteps != [] && laterSteps[0].Opened?)
    requires after == if laterSteps == [] then before else SessionsAfter(before, laterSteps[0], q)
    ensures AreRounds(Resolution(result, [first] + later), [step] + laterSteps, first, own, network, codec,
                      before, after, q)
  {
  }

  /** The first round over the real parts: the first context and its Message 1. */
  method FirstRound(resources: ClientResources, client: ClientExchange, server: Server, p: EdhocParameters,
                    q: EdhocParameters, lib: Library, messageOf: seq<int> -> seq<byte>, bind: seq<int> -> bool,
                    clientCalls: SetupCalls, serverCalls: SetupCalls, integerPart: nat, shape: seq<(nat, nat)>)
    returns (outcome: AttemptReply, ghost step: Step)
    requires ValidParameters(p) && CompleteTables(p) && clientCalls.AllSucceed() && serverCalls.AllSucceed()
    requires client.Valid() && !client.edhocExchangeIsComplete && client.incoming.Length == MAX_PDU_SIZE
    requires server.Valid() && ValidParameters(q) && CompleteTables(q) && resources.context !in server.known
    requires WorkingLibrary(lib, messageOf, Numbers(p.supportedCipherSuites), ConfiguredSuites(q))
    requires HasRoom(server.dictionary.Contents(), OneByteInteger(q.generateConnectionId.value),
                     server.dictionary.slots.Length)
    requires integerPart < 0x1_0000 && Timely(shape, integerPart)
    modifies resources.context, client, client.incoming
    modifies server`live, server`known, server`trace, server`history, server`answers, server.dictionary.slots
    ensures client.Valid() && !client.edhocExchangeIsComplete
    ensures server.Valid() && server.history == old(server.history) + [step] && resources.context !in server.known
    ensures server.dictionary.Contents() == SessionsAfter(old(server.dictionary.Contents()), step, q)
    ensures outcome == ResponderNetwork(ConfiguredSuites(q), lib, messageOf)(0, ConfiguredSuites(p))
    ensures SentBy(outcome, ConfiguredSuites(p)) == [ConfiguredSuites(p)]
    ensures var result := Judge(outcome, lib.codec);
            if step.Opened? then result.AttemptOk? else result.Renegotiate? && lib.codec.process(result.response).Some?
  {
    var first := SetupBeside(resources, server, client, p, clientCalls);
    outcome, step := AttemptOnNetwork(client, server, Numbers(p.supportedCipherSuites), first, q, lib, messageOf, bind,
                                      serverCalls, integerPart, shape);
    AnswerIsJudged(outcome, first, ConfiguredSuites(q), lib.codec);
  }

  lemma AppendedTwice(history: seq<Step>, step: Step, later: seq<Step>)
    ensures history + [step] + later == history + ([step] + later)
  {
  }

  /**
   Both rounds over the real parts, at most two POSTs: what comes out is the negotiation on suite numbers against
   the responder network.
   */
  method RunRounds(
    resources: ClientResources, client: ClientExchange, server: Server, p: EdhocParameters, q: EdhocParameters,
    lib: Library, messageOf: seq<int> -> seq<byte>, bind: seq<int> -> bool, clientCalls: SetupCalls,
    serverCalls: SetupCalls, integerPart: nat, firstShape: seq<(nat, nat)>, secondShape: seq<(nat, nat)>)
    returns (result: AttemptResult, ghost sent: seq<seq<int>>, ghost steps: seq<Step>)
    requires ValidParameters(p) && CompleteTables(p) && AllComplete(p.supportedCipherSuites)
    requires clientCalls.AllSucceed() && serverCalls.AllSucceed()
    requires client.Valid() && !client.edhocExchangeIsComplete && client.incoming.Length == MAX_PDU_SIZE
    requires server.Valid() && ValidParameters(q) && CompleteTables(q) && resources.context !in server.known
    requires WorkingLibrary(lib, messageOf, Numbers(p.supportedCipherSuites), ConfiguredSuites(q))
    requires HasRoom(server.dictionary.Contents(), OneByteInteger(q.generateConnectionId.value),
                     server.dictionary.slots.Length)
    requires integerPart < 0x1_0000 && Timely(firstShape, integerPart) && Timely(secondShape, integerPart)
    modifies resources.context, client, client.incoming
    modifies server`live, server`known, server`trace, server`history, server`answers, server.dictionary.slots
    ensures client.Valid() && server.Valid()
    ensures server.history == old(server.history) + steps
    ensures AreRounds(Resolution(result, sent), steps, ConfiguredSuites(p), Numbers(p.supportedCipherSuites),
                      ResponderNetwork(ConfiguredSuites(q), lib, messageOf), lib.codec,
                      old(server.dictionary.Contents()), server.dictionary.Contents(), q)
  {
    ghost var first, own := ConfiguredSuites(p), Numbers(p.supportedCipherSuites);
    ghost var network := ResponderNetwork(ConfiguredSuites(q), lib, messageOf);
    ghost var before := server.dictionary.Contents();
    var outcome;
    ghost var step;
    outcome, step := FirstRound(resources, client, server, p, q, lib, messageOf, bind, clientCalls, serverCalls,
                                integerPart, firstShape);
    result := Judge(outcome, lib.codec);
    if result.AttemptOk? {
      OneRound(step, first, own, network, lib.codec, before, server.dictionary.Contents(), q);
      return result, [first], [step];
    }
    ghost var later, laterSteps;
    result, later, laterSteps := AttemptAgainThroughServer(
      resources, client, server, p, q, result.response, lib, messageOf, bind, clientCalls, serverCalls, integerPart,
      secondShape);
    TwoRounds(step, first, own, network, lib.codec, result, later, laterSteps, before, server.dictionary.Contents(), q);
    AppendedTwice(old(server.history), step, laterSteps);
    return result, [first] + later, [step] + laterSteps;
  }

  /**
   The whole negotiation over the real parts: the first context, Message 1 through framing, dispatcher, callback
   and wait loop, and after a refusal the second context and one more Message 1. With a working library, room at
   the server and replies in time it makes at most two POSTs and is the negotiation of the theorems above. On
   success exactly the last POST has opened a session, one that was not there before; a failure leaves the
   server's dictionary as it was.
   */
  method NegotiateThroughServer(
    resources: ClientResources, client: ClientExchange, server: Server, p: EdhocParameters, q: EdhocParameters,
    lib: Library, messageOf: seq<int> -> seq<byte>, bind: seq<int> -> bool, clientCalls: SetupCalls,
    serverCalls: SetupCalls, integerPart: nat, firstShape: seq<(nat, nat)>, secondShape: seq<(nat, nat)>)
    returns (result: AttemptResult, ghost sent: seq<seq<int>>, ghost steps: seq<Step>)
    requires ValidParameters(p) && CompleteTables(p) && AllComplete(p.supportedCipherSuites)
    requires clientCalls.AllSucceed() && serverCalls.AllSucceed()
    requires client.Valid() && !client.edhocExchangeIsComplete && client.incoming.Length == MAX_PDU_SIZE
    requires server.Valid() && ValidParameters(q) && CompleteTables(q) && resources.context !in server.known
    requires WorkingLibrary(lib, messageOf, Numbers(p.supportedCipherSuites), ConfiguredSuites(q))
    requires HasRoom(server.dictionary.Contents(), OneByteInteger(q.generateConnectionId.value),
                     server.dictionary.slots.Length)
    requires integerPart < 0x1_0000 && Timely(firstShape, integerPart) && Timely(secondShape, integerPart)
    modifies resources.context, client, client.incoming
    modifies server`live, server`known, server`trace, server`history, server`answers, server.dictionary.slots
    ensures client.Valid() && server.Valid()
    ensures 1 <= |steps| == |sent| <= 2 && server.history == old(server.history) + steps
    ensures var own, theirs := Numbers(p.supportedCipherSuites), ConfiguredSuites(q);
            && (result.AttemptOk? <==> CanAgree(own, SelectedIndex(p), theirs, lib.codec))
            && (BothFit(own, theirs) ==> (result.AttemptOk? <==> !Disjoint(own, theirs)))
            && (result.AttemptOk? ==> EndsOnFirstCommon(Resolution(result, sent), own, theirs))
    ensures result.AttemptOk? <==> steps[|steps| - 1].Opened?
    ensures |steps| == 2 ==> !steps[0].Opened?
    ensures server.dictionary.Contents() ==
            SessionsAfter(old(server.dictionary.Contents()), steps[|steps| - 1], q)
  {
    NetworkAnswersByRule(Numbers(p.supportedCipherSuites), ConfiguredSuites(q), lib, messageOf);
    ConfiguredNegotiationIsOptimal(p, ConfiguredSuites(q), ResponderNetwork(ConfiguredSuites(q), lib, messageOf),
                                   lib.codec);
    result, sent, steps := RunRounds(resources, client, server, p, q, lib, messageOf, bind, clientCalls, serverCalls,
                                     integerPart, firstShape, secondShape);
  }
}
