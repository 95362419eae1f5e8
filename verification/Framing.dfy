/**
 The prefixes around EDHOC messages in CoAP bodies: what the client puts in front of Message 1 and
 Message 3, and how the server routes and strips them.

 libedhoc's prefix functions are foreign. They follow Appendix A.2 and section 3.3.2 of RFC 9528,
 except that a one-byte integer identifier is cast to a byte instead of being encoded.
 */
module Framing {
  import opened Common
  import opened ConnectionIds
  import opened Coap

  const CBOR_TRUE: byte := 0xF5

  // ---- libedhoc's side ----

  function CastToByte(c: int8): byte {
    if c >= 0 then c else c + 256
  }

  /** edhoc_prepend_connection_id; longer byte strings are no EDHOC identifiers and are refused. */
  function CidPrefix(cid: ConnectionId): Option<seq<byte>> {
    match cid
    case OneByteInteger(value) => Some([CastToByte(value)])
    case ByteString(bytes) => if |bytes| < 24 then Some([0x40 + |bytes|] + bytes) else None
  }

  /** edhoc_extract_connection_id: one CBOR integer or byte string, then the message. */
  function DecodeCid(request: seq<byte>): Option<(ConnectionId, seq<byte>)>
    requires request != []
  {
    var head := request[0];
    if head <= 0x17 then Some((OneByteInteger(head), request[1..]))
    else if 0x20 <= head <= 0x37 then Some((OneByteInteger(-1 - (head - 0x20)), request[1..]))
    else if 0x40 <= head <= 0x57 && 1 + (head - 0x40) <= |request| then
      Some((ByteString(request[1..1 + (head - 0x40)]), request[1 + (head - 0x40)..]))
    else None
  }

  /** edhoc_extract_flow_info: whether the forward flow prefix is present, and what follows it. */
  function ExtractFlow(request: seq<byte>): (bool, seq<byte>)
    requires request != []
  {
    if request[0] == CBOR_TRUE then (true, request[1..]) else (false, request)
  }

  // ---- Server ----

  datatype ExtractMessage1Status = Extract1Ok | Extract1ErrInvalidErrorBuffer | Extract1ErrEmptyRequest
                                 | Extract1ErrUnsupportedFlow | Extract1ErrPrefix
  datatype ExtractMessage1Result = ExtractMessage1Result(status: ExtractMessage1Status, message: seq<byte>)

  datatype ExtractCidStatus = ExtractCidOk | ExtractCidErrEmpty | ExtractCidErrExtract
  datatype ExtractCidResult = ExtractCidResult(status: ExtractCidStatus, cid: ConnectionId, message: seq<byte>)

  predicate IsMessage1(request: seq<byte>) {
    request != [] && ExtractFlow(request).0
  }

  function ExtractMessage1(request: seq<byte>): ExtractMessage1Result {
    if request == [] then ExtractMessage1Result(Extract1ErrEmptyRequest, [])
    else if !ExtractFlow(request).0 then ExtractMessage1Result(Extract1ErrUnsupportedFlow, [])
    else ExtractMessage1Result(Extract1Ok, ExtractFlow(request).1)
  }

  function MapExtractMessage1ToCode(status: ExtractMessage1Status): Code {
    match status
    case Extract1Ok => Changed
    case Extract1ErrEmptyRequest | Extract1ErrUnsupportedFlow | Extract1ErrPrefix => BadRequest
    case Extract1ErrInvalidErrorBuffer => InternalError
  }

  function ExtractCid(request: seq<byte>): ExtractCidResult {
    if request == [] then ExtractCidResult(ExtractCidErrEmpty, CLEARED_CID, [])
    else
      match DecodeCid(request)
      case None => ExtractCidResult(ExtractCidErrExtract, CLEARED_CID, [])
      case Some((cid, message)) => ExtractCidResult(ExtractCidOk, cid, message)
  }

  // ---- Client ----

  /** There is a message and a prefix, and together they fit the buffer. */
  ghost predicate FitsAfter(prefix: Option<seq<byte>>, message: seq<byte>) {
    0 < |message| < MAX_PDU_SIZE && prefix.Some? && |prefix.value| + |message| <= MAX_PDU_SIZE
  }

  /**
   The common part of both send functions: prefix and message are laid out in a 1024-byte buffer.
   A missing prefix is a failed prepend call, and resized says whether the size recalculation worked.
   */
  method LayOut(prefix: Option<seq<byte>>, message: seq<byte>, resized: bool) returns (framed: Option<seq<byte>>)
    ensures framed.Some? <==> FitsAfter(prefix, message) && resized
    ensures framed.Some? ==> framed.value == prefix.value + message
  {
    if message == [] || |message| >= MAX_PDU_SIZE {
      return None;
    }
    var buffer := new byte[MAX_PDU_SIZE](_ => 0);
    if prefix.None? || |prefix.value| > buffer.Length {
      return None;
    }
    var start := |prefix.value|;
    forall i | 0 <= i < start {
      buffer[i] := prefix.value[i];
    }
    if buffer.Length - start < |message| {
      return None;
    }
    forall i | 0 <= i < |message| {
      buffer[start + i] := message[i];
    }
    if !resized {
      return None;
    }
    assert buffer[..start] == prefix.value;
    assert buffer[start..start + |message|] == message;
    assert buffer[..start + |message|] == buffer[..start] + buffer[start..start + |message|];
    return Some(buffer[..start + |message|]);
  }

  /** A request as it reaches the server in one piece. */
  function PostOf(bytes: seq<byte>): Pdu {
    Pdu(OtherCode(2), Some(CONTENT_FORMAT_CID_EDHOC), Block(bytes, 0, |bytes|))
  }

  /** A framed body that fits the client's buffer also fits the server's and arrives unchanged. */
  ghost predicate Arrives(framed: seq<byte>) {
    ParseEdhocRequest(PostOf(framed), CONTENT_FORMAT_CID_EDHOC, MAX_PDU_SIZE) == ParseResult(ParseOk, framed)
  }

  /** Every message the client can send as Message 1 is routed as Message 1 and extracted unchanged. */
  lemma Message1RoundTrip(message: seq<byte>)
    requires 0 < |message| < MAX_PDU_SIZE
    ensures |[CBOR_TRUE] + message| <= MAX_PDU_SIZE
    ensures Arrives([CBOR_TRUE] + message)
    ensures IsMessage1([CBOR_TRUE] + message)
    ensures ExtractMessage1([CBOR_TRUE] + message) == ExtractMessage1Result(Extract1Ok, message)
  {
    var framed := [CBOR_TRUE] + message;
    assert framed[1..] == message;
  }

  /** The server takes the request for Message 3 of this session, with this message. */
  ghost predicate DeliveredAsMessage3(framed: seq<byte>, cid: ConnectionId, message: seq<byte>) {
    !IsMessage1(framed) && ExtractCid(framed) == ExtractCidResult(ExtractCidOk, cid, message)
  }

  /**
   Message 3 under a one-byte integer identifier comes back exactly for the identifiers 0 to 23 that
   the generators may use: the cast agrees with the CBOR encoding nowhere else. Identifier -11 would
   even be taken for Message 1.
   */
  lemma Message3RoundTrip(value: int8, message: seq<byte>)
    requires 0 < |message| < MAX_PDU_SIZE
    ensures |[CastToByte(value)] + message| <= MAX_PDU_SIZE && Arrives([CastToByte(value)] + message)
    ensures DeliveredAsMessage3([CastToByte(value)] + message, OneByteInteger(value), message)
            <==> LIBEDHOC_MIN_INT_CID <= value <= MAX_INT_CID
    ensures IsMessage1([CastToByte(value)] + message) <==> value == -11
  {
    var framed := [CastToByte(value)] + message;
    assert framed[1..] == message;
  }

  /** Byte string identifiers always come back, and are never taken for Message 1. */
  lemma Message3ByteStringRoundTrip(bytes: seq<byte>, message: seq<byte>)
    requires |bytes| < 24 && message != [] && 1 + |bytes| + |message| <= MAX_PDU_SIZE
    ensures CidPrefix(ByteString(bytes)).Some?
    ensures Arrives(CidPrefix(ByteString(bytes)).value + message)
    ensures DeliveredAsMessage3(CidPrefix(ByteString(bytes)).value + message, ByteString(bytes), message)
  {
    var prefix := [0x40 + |bytes|] + bytes;
    var framed := prefix + message;
    assert framed[1..1 + |bytes|] == bytes;
    assert framed[1 + |bytes|..] == message;
  }

  /** Extraction of Message 1 fails on exactly the requests that are not routed there, and loses nothing else. */
  lemma Message1ExtractsWhatIsRouted(request: seq<byte>)
    ensures ExtractMessage1(request).status.Extract1Ok? <==> IsMessage1(request)
    ensures ExtractMessage1(request).status.Extract1ErrEmptyRequest? <==> request == []
    ensures if IsMessage1(request) then request == [CBOR_TRUE] + ExtractMessage1(request).message
            else ExtractMessage1(request).message == []
  {
    if request != [] {
      assert request == [request[0]] + request[1..];
    }
  }

  /**
   The other direction of the round trip: whatever identifier the server reads off a request, the client's
   prefix for it gives the request back, if and only if it is not a negative integer.
   */
  lemma ExtractedPrefixIsTheClients(request: seq<byte>)
    requires ExtractCid(request).status.ExtractCidOk?
    ensures var result := ExtractCid(request);
            CidPrefix(result.cid).Some?
            && (CidPrefix(result.cid).value + result.message == request
                <==> !(result.cid.OneByteInteger? && result.cid.value < 0))
  {
    assert request == [request[0]] + request[1..];
    var cid := ExtractCid(request).cid;
    if cid.ByteString? {
      assert request[1..] == cid.bytes + ExtractCid(request).message;
    } else if cid.value < 0 {
      assert (CidPrefix(cid).value + ExtractCid(request).message)[0] == CastToByte(cid.value);
    }
  }
}
