/** The server's answers to Message 1 and Message 3, and the suite mismatch error. */
module Responders {
  import opened Common
  import opened Coap

  datatype ErrorCode = UnspecifiedError | WrongSelectedCipherSuite | OtherErrorCode(code: int)

  /** struct edhoc_error_info: a description or a list of cipher suites, in one union. */
  datatype ErrorInfo = TextInfo(text: string) | SuitesInfo(suites: seq<int>)

  /** The suite arrays of the mismatch error hold this many entries. */
  const CIPHER_SUITES_ARRAY_SIZE: nat := 8

  const MISMATCH_TEXT: string :=
    "Message 1 Process error: Fatal: wrong cipher suite error but failed to get cipher suites"

  /**
   libedhoc's error message functions; None is a failed call. textAsSuites is what the client finds when it
   reads a received text through the other member of the union, whatever that is.
   */
  datatype Codec = Codec(
    compose: (ErrorCode, ErrorInfo) -> Option<seq<byte>>,
    process: seq<byte> -> Option<(ErrorCode, ErrorInfo)>,
    textAsSuites: string -> seq<int>)

  /** This mismatch error is composed, fits the response buffer, is not empty, and is read back as it went in. */
  ghost predicate Reports(codec: Codec, info: ErrorInfo) {
    var encoded := codec.compose(WrongSelectedCipherSuite, info);
    encoded.Some? && 0 < |encoded.value| <= MAX_PDU_SIZE
    && codec.process(encoded.value) == Some((WrongSelectedCipherSuite, info))
  }

  datatype ProcessOutcome =
    | Processed
    /** None: the error code itself could not be read. */
    | ProcessFailed(errorCode: Option<ErrorCode>)

  /**
   libedhoc's message functions, given the message and the suites of the context. errorCipherSuites is
   edhoc_error_get_cipher_suites: the context's own suites, or None when the call fails.
   */
  datatype Library = Library(
    codec: Codec,
    processMessage1: (seq<byte>, seq<int>) -> ProcessOutcome,
    errorCipherSuites: (seq<byte>, seq<int>) -> Option<seq<int>>,
    composeMessage2: (seq<byte>, seq<int>) -> Option<seq<byte>>,
    processMessage3: (seq<byte>, seq<int>) -> bool)

  /**
   The Responder's check of section 5.2.3 of RFC 9528: the selected suite, which comes last in
   SUITES_I, is supported, and none of the suites before it is.
   */
  predicate SelectionIsAcceptable(suitesI: seq<int>, own: seq<int>) {
    suitesI != []
    && suitesI[|suitesI| - 1] in own
    && forall i :: 0 <= i < |suitesI| - 1 ==> suitesI[i] !in own
  }

  /** Both parties' lists fit the arrays of the mismatch error. */
  predicate BothFit(suitesI: seq<int>, own: seq<int>) {
    |suitesI| <= CIPHER_SUITES_ARRAY_SIZE && |own| <= CIPHER_SUITES_ARRAY_SIZE
  }

  /** The library gets the suites of a mismatch exactly if both lists fit. */
  ghost predicate GetsSuitesThatFit(lib: Library, message: seq<byte>, suitesI: seq<int>, own: seq<int>) {
    lib.errorCipherSuites(message, own) == if BothFit(suitesI, own) then Some(own) else None
  }

  /** This message, which carries suitesI, is processed by the RFC's check. */
  ghost predicate FollowsRfc(lib: Library, message: seq<byte>, suitesI: seq<int>, own: seq<int>) {
    && lib.processMessage1(message, own) ==
       (if SelectionIsAcceptable(suitesI, own) then Processed else ProcessFailed(Some(WrongSelectedCipherSuite)))
    && GetsSuitesThatFit(lib, message, suitesI, own)
  }

  // ---- Message 1 ----

  datatype Message1Status = Responder1Ok | Responder1ErrInvalidBuffer | Responder1ErrProcess | Responder1ErrCompose
  datatype Message1Result = Message1Result(status: Message1Status, response: seq<byte>)

  /** com_edhoc_add_protocol_error_view: the encoded error, empty when it cannot be composed. */
  function AddProtocolError(codec: Codec, code: ErrorCode, info: ErrorInfo): seq<byte> {
    var checked :=
      if info == SuitesInfo([]) || info == TextInfo("") then
        TextInfo("Fatal Internal Error: invalid error info provided")
      else info;
    match codec.compose(code, checked)
    case Some(bytes) => bytes
    case None => []
  }

  /** com_edhoc_add_cipher_suite_mismatch_error: the own suites, or a text when they cannot be got. */
  function AddCipherSuiteMismatchError(message: seq<byte>, own: seq<int>, lib: Library): seq<byte> {
    match lib.errorCipherSuites(message, own)
    case Some(suites) => AddProtocolError(lib.codec, WrongSelectedCipherSuite, SuitesInfo(suites))
    case None => AddProtocolError(lib.codec, WrongSelectedCipherSuite, TextInfo(MISMATCH_TEXT))
  }

  /** srv_edhoc_process_message_1: None on success, otherwise the error body, which may be empty. */
  function ProcessMessage1(message: seq<byte>, own: seq<int>, lib: Library): Option<seq<byte>> {
    if message == [] then Some([])
    else
      match lib.processMessage1(message, own)
      case Processed => None
      case ProcessFailed(Some(WrongSelectedCipherSuite)) => Some(AddCipherSuiteMismatchError(message, own, lib))
      case ProcessFailed(_) => Some([])
  }

  function RespondToMessage1(message: seq<byte>, own: seq<int>, lib: Library): Message1Result {
    match ProcessMessage1(message, own, lib)
    case Some(error) => Message1Result(Responder1ErrProcess, error)
    case None =>
      match lib.composeMessage2(message, own)
      case Some(message2) =>
        if message2 == [] then Message1Result(Responder1ErrCompose, [])
        else Message1Result(Responder1Ok, message2)
      case None => Message1Result(Responder1ErrCompose, [])
  }

  function ProcessMessage1Result(result: Message1Result): Code {
    match result.status
    case Responder1Ok => Changed
    case Responder1ErrProcess => BadRequest
    case Responder1ErrInvalidBuffer | Responder1ErrCompose => InternalError
  }

  // ---- Message 3 ----

  datatype Message3Status = Responder3Ok | Responder3ErrInvalidBuffer | Responder3ErrProcess
  datatype Message3Result = Message3Result(status: Message3Status, response: seq<byte>)

  function RespondToMessage3(message: seq<byte>, own: seq<int>, lib: Library): Message3Result {
    if message == [] || !lib.processMessage3(message, own) then Message3Result(Responder3ErrProcess, [])
    else Message3Result(Responder3Ok, [])
  }

  function ProcessMessage3Result(result: Message3Result): Code {
    match result.status
    case Responder3Ok => Changed
    case Responder3ErrProcess => BadRequest
    case Responder3ErrInvalidBuffer => InternalError
  }

  // ---- What the answers mean ----

  /** What a mismatch tells the client: the server's suites, or only that they do not fit. */
  function MismatchInfo(suitesI: seq<int>, own: seq<int>): ErrorInfo {
    if BothFit(suitesI, own) then SuitesInfo(own) else TextInfo(MISMATCH_TEXT)
  }

  /**
   A Message 1 whose selection fails the Responder's check is answered with 4.00 and an error from
   which the client reads exactly the server's suites, if both lists fit the error's arrays, and else a
   text. One that passes the check gets Message 2, or 5.00 and nothing when Message 2 cannot be composed.
   */
  lemma SuiteMismatchIsReported(message: seq<byte>, suitesI: seq<int>, own: seq<int>, lib: Library)
    requires FollowsRfc(lib, message, suitesI, own) && message != [] && own != []
    requires Reports(lib.codec, MismatchInfo(suitesI, own))
    ensures !SelectionIsAcceptable(suitesI, own) ==>
              var result := RespondToMessage1(message, own, lib);
              ProcessMessage1Result(result) == BadRequest
              && 0 < |result.response| <= MAX_PDU_SIZE
              && lib.codec.process(result.response) == Some((WrongSelectedCipherSuite, MismatchInfo(suitesI, own)))
    ensures SelectionIsAcceptable(suitesI, own) ==>
              var result := RespondToMessage1(message, own, lib);
              match lib.composeMessage2(message, own)
              case Some(message2) =>
                message2 != [] ==> ProcessMessage1Result(result) == Changed && result.response == message2
              case None => ProcessMessage1Result(result) == InternalError && result.response == []
  {
    assert |MISMATCH_TEXT| == 88;
  }

  /** The bytes of a composed error, or nothing. */
  function Composed(encoded: Option<seq<byte>>): seq<byte> {
    if encoded.Some? then encoded.value else []
  }

  /**
   The responder over any library and any Message 1: 2.04 with Message 2 exactly if the message was processed
   and Message 2 composed, 4.00 exactly if processing failed, and then a body only for a wrong suite.
   */
  lemma Message1IsAcceptedExactlyIfProcessed(message: seq<byte>, own: seq<int>, lib: Library)
    ensures var result := RespondToMessage1(message, own, lib);
            var code := ProcessMessage1Result(result);
            var processed := message != [] && lib.processMessage1(message, own) == Processed;
            var message2 := lib.composeMessage2(message, own);
            && (result.status.Responder1Ok? <==> processed && message2.Some? && message2.value != [])
            && (code == Changed <==> processed && message2.Some? && message2.value != [])
            && (code == Changed ==> result.response == message2.value)
            && (code == BadRequest <==> !processed)
            && (code == InternalError <==> processed && (message2.None? || message2.value == []))
            && (code == InternalError ==> result.response == [])
    ensures var mismatch := lib.processMessage1(message, own) == ProcessFailed(Some(WrongSelectedCipherSuite));
            var response := RespondToMessage1(message, own, lib).response;
            var suites := lib.errorCipherSuites(message, own);
            && (message == [] ==> response == [])
            && (lib.processMessage1(message, own) != Processed && !mismatch ==> response == [])
            && (message != [] && mismatch && suites.None? ==>
                  response == Composed(lib.codec.compose(WrongSelectedCipherSuite, TextInfo(
                    "Message 1 Process error: Fatal: wrong cipher suite error but failed to get cipher suites"))))
            && (message != [] && mismatch && suites.Some? && suites.value != [] ==>
                  response == Composed(lib.codec.compose(WrongSelectedCipherSuite, SuitesInfo(suites.value))))
  {
    assert |MISMATCH_TEXT| == 88;
  }

  /** The reply to a Message 3 never has a body, whether it is accepted or not. */
  lemma Message3RepliesHaveNoBody(message: seq<byte>, own: seq<int>, lib: Library)
    ensures RespondToMessage3(message, own, lib).response == []
    ensures ProcessMessage3Result(RespondToMessage3(message, own, lib)) == Changed
            <==> message != [] && lib.processMessage3(message, own)
    ensures ProcessMessage3Result(RespondToMessage3(message, own, lib)) == BadRequest
            <==> message == [] || !lib.processMessage3(message, own)
  {
  }
}
