/** CoAP messages as far as the EDHOC exchange sees them, and the bounded copy out of them. */
module Coap {
  import opened Common

  const CONTENT_FORMAT_CID_EDHOC: nat := 65
  const CONTENT_FORMAT_EDHOC: nat := 64

  /** The response codes the server uses, and the empty code 0.00; any other code is OtherCode. */
  datatype Code = EmptyCode | Changed | BadRequest | InternalError | OtherCode(value: nat)

  /** What coap_get_data_large yields: nothing, or a block of a body of some total size. */
  datatype Body = NoBody | Block(bytes: seq<byte>, offset: nat, total: nat)

  datatype Pdu = Pdu(code: Code, contentFormat: Option<nat>, body: Body)

  datatype GetDataStatus = GetDataOk | ErrPdu | ErrDataBuffer | ErrNoPayload | ErrIncompleteBody
                         | ErrDataBufferTooSmall

  datatype ParseStatus = ParseOk | ParseErrPdu | ParseErrDataBuffer | ParseErrMissingFormat
                       | ParseErrUnsupportedFormat | ParseErrNoPayload

  datatype ParseResult = ParseResult(status: ParseStatus, parsedRequest: seq<byte>)

  predicate PduIsEmpty(pdu: Pdu) {
    pdu.body.NoBody?
  }

  /** A whole, non-empty body that fits: what the bounded copy accepts. */
  predicate HasWholeBody(pdu: Pdu, capacity: nat) {
    pdu.body.Block? && pdu.body.offset == 0 && |pdu.body.bytes| == pdu.body.total
    && 0 < |pdu.body.bytes| <= capacity
  }

  /** The body of an EDHOC message with the expected content format. */
  predicate IsEdhocMessage(pdu: Pdu, expectedFormat: nat, capacity: nat) {
    pdu.contentFormat == Some(expectedFormat) && HasWholeBody(pdu, capacity)
  }

  /** com_writable_buffer_is_writable. */
  predicate IsWritable(buffer: array?<byte>) {
    buffer != null && 0 < buffer.Length
  }

  /** What a failed or empty copy reports, in the order of the checks. */
  function GetDataFailure(pdu: Option<Pdu>, writable: bool): GetDataStatus {
    match pdu
    case None => ErrPdu
    case Some(message) =>
      if !writable then ErrDataBuffer
      else if message.body.NoBody? || (message.body.offset == 0 && message.body.bytes == [] && message.body.total == 0)
      then ErrNoPayload
      else if message.body.offset != 0 || |message.body.bytes| != message.body.total then ErrIncompleteBody
      else ErrDataBufferTooSmall
  }

  /** Copies the body into the caller's buffer; on any failure, or past the body, the buffer is untouched. */
  method GetData(pdu: Option<Pdu>, buffer: array?<byte>) returns (status: GetDataStatus, length: nat)
    modifies buffer
    ensures status.GetDataOk? <==> pdu.Some? && IsWritable(buffer) && HasWholeBody(pdu.value, buffer.Length)
    ensures status.GetDataOk? ==>
              length == |pdu.value.body.bytes| <= buffer.Length
              && buffer[..length] == pdu.value.body.bytes
              && buffer[length..] == old(buffer[length..])
    ensures !status.GetDataOk? ==> status == GetDataFailure(pdu, IsWritable(buffer)) && length == 0
    ensures !status.GetDataOk? && buffer != null ==> buffer[..] == old(buffer[..])
    // In terms of the PDU: a piece of a larger body is refused, and so is one that does not fit.
    ensures status.GetDataOk? ==> pdu.value.body.offset == 0 && pdu.value.body.total == length > 0
    ensures pdu.Some? && IsWritable(buffer) ==>
              match pdu.value.body
              case NoBody => status.ErrNoPayload?
              case Block(bytes, offset, total) =>
                if offset != 0 || |bytes| != total then status.ErrIncompleteBody?
                else if |bytes| > buffer.Length then status.ErrDataBufferTooSmall?
                else if bytes == [] then status.ErrNoPayload?
                else status.GetDataOk?
  {
    if pdu.None? {
      return ErrPdu, 0;
    }
    if !IsWritable(buffer) {
      return ErrDataBuffer, 0;
    }
    if pdu.value.body.NoBody? {
      return ErrNoPayload, 0;
    }
    var data := pdu.value.body.bytes;
    if pdu.value.body.offset != 0 || |data| != pdu.value.body.total {
      return ErrIncompleteBody, 0;
    }
    if |data| > buffer.Length {
      return ErrDataBufferTooSmall, 0;
    }
    forall i | 0 <= i < |data| {
      buffer[i] := data[i];
    }
    if |data| == 0 {
      assert buffer[..] == old(buffer[..]);
      return ErrNoPayload, 0;
    }
    return GetDataOk, |data|;
  }

  /** Which refusal a message gets, in the order of the checks. */
  function ParseFailure(pdu: Pdu, expectedFormat: nat): ParseStatus {
    if pdu.contentFormat.None? then ParseErrMissingFormat
    else if pdu.contentFormat.value != expectedFormat then ParseErrUnsupportedFormat
    else ParseErrNoPayload
  }

  /** What the parser below yields, as a value: the dispatcher takes its parser as a function. */
  function ParseEdhocRequest(pdu: Pdu, expectedFormat: nat, capacity: nat): ParseResult {
    if IsEdhocMessage(pdu, expectedFormat, capacity) then ParseResult(ParseOk, pdu.body.bytes)
    else ParseResult(ParseFailure(pdu, expectedFormat), [])
  }

  method ParseEdhocMessage(pdu: Option<Pdu>, expectedFormat: nat, buffer: array?<byte>)
    returns (status: ParseStatus, length: nat)
    modifies buffer
    ensures status.ParseOk? <==>
            pdu.Some? && IsWritable(buffer) && IsEdhocMessage(pdu.value, expectedFormat, buffer.Length)
    ensures status.ParseOk? ==> length == |pdu.value.body.bytes| && buffer[..length] == pdu.value.body.bytes
    ensures status.ParseErrPdu? <==> pdu.None?
    ensures status.ParseErrDataBuffer? <==> pdu.Some? && !IsWritable(buffer)
    ensures !status.ParseOk? && pdu.Some? && IsWritable(buffer) ==> status == ParseFailure(pdu.value, expectedFormat)
    ensures !status.ParseOk? ==> length == 0 && (buffer != null ==> buffer[..] == old(buffer[..]))
    ensures pdu.Some? && IsWritable(buffer) ==>
              ParseResult(status, buffer[..length]) == ParseEdhocRequest(pdu.value, expectedFormat, buffer.Length)
    ensures status.ParseOk? ==>
              pdu.value.contentFormat == Some(expectedFormat) && pdu.value.body == Block(buffer[..length], 0, length)
  {
    if pdu.None? {
      return ParseErrPdu, 0;
    }
    if !IsWritable(buffer) {
      return ParseErrDataBuffer, 0;
    }
    if pdu.value.contentFormat.None? {
      return ParseErrMissingFormat, 0;
    }
    if pdu.value.contentFormat.value != expectedFormat {
      return ParseErrUnsupportedFormat, 0;
    }
    var dataStatus, dataLength := GetData(pdu, buffer);
    if !dataStatus.GetDataOk? {
      return ParseErrNoPayload, 0;
    }
    return ParseOk, dataLength;
  }

  /** com_coap_map_parse_result_to_pdu_code. */
  function MapParseResultToCode(status: ParseStatus): Code {
    match status
    case ParseOk => Changed
    case ParseErrMissingFormat | ParseErrUnsupportedFormat | ParseErrNoPayload => BadRequest
    case ParseErrPdu | ParseErrDataBuffer => InternalError
  }
}
