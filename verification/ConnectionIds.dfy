/** EDHOC connection identifiers and the two identifier generators. */
module ConnectionIds {
  import opened Common

  type int8 = c: int | -128 <= c < 128

  const LIBEDHOC_MIN_INT_CID: int8 := 0
  const MAX_INT_CID: int8 := 23

  /** Equality of these values is libedhoc's edhoc_connection_id_equal. */
  datatype ConnectionId =
    | OneByteInteger(value: int8)
    | ByteString(bytes: seq<byte>)

  /** What memset leaves in a slot: encode type and value zero. */
  const CLEARED_CID: ConnectionId := OneByteInteger(0)

  datatype CidCounter = CidCounter(connectionIdentifier: int8, initialValue: int8)

  const EVEN_CID_COUNTER := CidCounter(LIBEDHOC_MIN_INT_CID, LIBEDHOC_MIN_INT_CID)
  const ODD_CID_COUNTER := CidCounter(LIBEDHOC_MIN_INT_CID + 1, LIBEDHOC_MIN_INT_CID + 1)

  /** The counter comes by value: the increment below is lost when the call returns. */
  function GetNextSingleByteIntegerCid(details: CidCounter): (cid: int8)
    ensures details.initialValue <= details.connectionIdentifier <= MAX_INT_CID ==>
              details.initialValue <= cid <= MAX_INT_CID
              && (cid == details.connectionIdentifier + 1 || (details.connectionIdentifier == 23 && cid == details.initialValue))
  {
    var next := if details.connectionIdentifier == 127 then -128 else details.connectionIdentifier + 1;
    if next > MAX_INT_CID then details.initialValue else next
  }

  /** Promised to be the next even identifier; it is the same odd one at every call. */
  function GenerateEvenCid(): (cid: int8)
    ensures cid == 1
  {
    GetNextSingleByteIntegerCid(EVEN_CID_COUNTER)
  }

  /** Promised to be the next odd identifier; it is the same even one at every call. */
  function GenerateOddCid(): (cid: int8)
    ensures cid == 2
  {
    GetNextSingleByteIntegerCid(ODD_CID_COUNTER)
  }
}
