/** The client's exchange: sends, the response callback, the wait loop and what they leave behind. */
module Exchange {
  import opened Common
  import opened ConnectionIds
  import opened Coap
  import opened Framing

  /** Whether the callback accepts a response: nothing but EDHOC bodies, or an empty one after Message 3. */
  predicate Accepts(received: Pdu, complete: bool, capacity: nat) {
    received.code != EmptyCode
    && ((PduIsEmpty(received) && complete) || IsEdhocMessage(received, CONTENT_FORMAT_EDHOC, capacity))
  }

  function BodyBytes(pdu: Pdu): seq<byte> {
    if pdu.body.NoBody? then [] else pdu.body.bytes
  }

  /** The last accepted one of a sequence of responses. */
  ghost function LastAccepted(received: seq<Pdu>, complete: bool, capacity: nat): Option<Pdu> {
    if received == [] then None
    else if Accepts(received[|received| - 1], complete, capacity) then Some(received[|received| - 1])
    else LastAccepted(received[..|received| - 1], complete, capacity)
  }

  /** What response_is_error says: the last accepted response if there is one, else what it said before. */
  ghost function Verdict(stale: bool, received: seq<Pdu>, complete: bool, capacity: nat): bool {
    match LastAccepted(received, complete, capacity)
    case Some(pdu) => pdu.code != Changed
    case None => stale
  }

  lemma {:induction false} LastAcceptedIsAccepted(received: seq<Pdu>, complete: bool, capacity: nat)
    ensures LastAccepted(received, complete, capacity).Some? ==>
              LastAccepted(received, complete, capacity).value in received
              && Accepts(LastAccepted(received, complete, capacity).value, complete, capacity)
    ensures LastAccepted(received, complete, capacity).None? <==>
            forall pdu :: pdu in received ==> !Accepts(pdu, complete, capacity)
  {
    if received != [] {
      var n := |received| - 1;
      LastAcceptedIsAccepted(received[..n], complete, capacity);
      assert received == received[..n] + [received[n]];
    }
  }

  /** The whole, non-empty body of a response that has a code. */
  ghost predicate IsBodyOf(bytes: seq<byte>, pdu: Pdu) {
    pdu.code != EmptyCode && bytes != [] && pdu.body == Block(bytes, 0, |bytes|)
  }

  lemma {:induction false} LastAcceptedIsLast(received: seq<Pdu>, complete: bool, capacity: nat) returns (i: nat)
    requires LastAccepted(received, complete, capacity).Some?
    ensures i < |received| && received[i] == LastAccepted(received, complete, capacity).value
    ensures forall j :: i < j < |received| ==> !Accepts(received[j], complete, capacity)
  {
    var n := |received| - 1;
    if Accepts(received[n], complete, capacity) {
      i := n;
    } else {
      i := LastAcceptedIsLast(received[..n], complete, capacity);
    }
  }

  lemma LastAcceptedAfter(received: seq<Pdu>, pdu: Pdu, complete: bool, capacity: nat)
    ensures LastAccepted(received + [pdu], complete, capacity) ==
            if Accepts(pdu, complete, capacity) then Some(pdu) else LastAccepted(received, complete, capacity)
  {
    assert (received + [pdu])[..|received|] == received;
  }

  /**
   The flag does not always speak about the response just received. It does, whatever came before and
   whatever the flag said, exactly for the responses the callback accepts: an empty code, a foreign
   format or an incomplete body leaves an older verdict standing.
   */
  lemma VerdictIsCurrentExactlyWhenAccepted(pdu: Pdu, complete: bool, capacity: nat)
    ensures (forall stale: bool, before: seq<Pdu> ::
               Verdict(stale, before + [pdu], complete, capacity) <==> pdu.code != Changed)
            <==> Accepts(pdu, complete, capacity)
  {
    forall before: seq<Pdu>
      ensures LastAccepted(before + [pdu], complete, capacity) ==
              if Accepts(pdu, complete, capacity) then Some(pdu) else LastAccepted(before, complete, capacity)
    {
      LastAcceptedAfter(before, pdu, complete, capacity);
    }
    if !Accepts(pdu, complete, capacity) {
      assert LastAccepted([] + [pdu], complete, capacity) == None;
      assert Verdict(pdu.code == Changed, [] + [pdu], complete, capacity) <==> pdu.code == Changed;
    }
  }

  /**
   A concrete case: Message 2 was accepted, so the flag says no error; Message 3 is answered with a 5.00
   whose body is not EDHOC. The callback notes a response but drops it, and the flag still says no error.
   */
  lemma UnreadableErrorLooksLikeSuccess()
    ensures var refusal := Pdu(InternalError, None, Block([0], 0, 1));
            !Accepts(refusal, true, MAX_PDU_SIZE) && refusal.code != Changed
            && Verdict(false, [refusal], true, MAX_PDU_SIZE) == false
  {
  }

  // ---- Waiting ----

  /** One call of coap_io_process: the milliseconds it reports, and the responses it handed to the callback. */
  datatype Poll = Poll(elapsed: int, delivered: seq<Pdu>)

  datatype WaitStatus = WaitOk | WaitTimeout | WaitIoErr
                      /** The loop is still running after all the polls given. */
                      | StillWaiting

  const SECONDS_TO_MS: int := 1000

  /**
   The budget in milliseconds. The seconds are stored in sixteen bits, so the largest integer part wraps
   to a budget of zero, and then the loop never times out; every other budget is positive and fits an int.
   */
  function Budget(integerPart: nat): (milliseconds: nat)
    requires integerPart < 0x1_0000
    ensures milliseconds == if integerPart == 65535 then 0 else 1000 * (integerPart + 1)
    ensures milliseconds <= 65_535_000 < 0x8000_0000
  {
    ((integerPart + 1) % 0x1_0000) * SECONDS_TO_MS
  }

  ghost function TotalElapsed(polls: seq<Poll>): int {
    if polls == [] then 0 else TotalElapsed(polls[..|polls| - 1]) + polls[|polls| - 1].elapsed
  }

  ghost function Delivered(polls: seq<Poll>): seq<Pdu> {
    if polls == [] then [] else Delivered(polls[..|polls| - 1]) + polls[|polls| - 1].delivered
  }

  /** A poll without a response takes time. */
  ghost predicate IdlePollsTakeTime(polls: seq<Poll>) {
    forall i :: 0 <= i < |polls| && polls[i].delivered == [] ==> polls[i].elapsed >= 1
  }

  /** The bookkeeping at the head of the loop after consumed polls, none of which ended it. */
  ghost predicate Progress(polls: seq<Poll>, consumed: nat, remaining: int, before: seq<Pdu>, budget: nat) {
    && consumed <= |polls|
    && remaining + TotalElapsed(polls[..consumed]) == budget
    && remaining <= budget
    && (budget > 0 <==> remaining > 0)
    && (forall i :: 0 <= i < consumed ==> polls[i].elapsed >= 0)
    && (0 < consumed ==> before + Delivered(polls[..consumed - 1]) == [])
    && (before + Delivered(polls[..consumed]) == [] && IdlePollsTakeTime(polls) ==>
          TotalElapsed(polls[..consumed]) >= consumed)
  }

  /**
   How the wait ended. It stops at the first poll that brings a response, an error or the end of the
   budget. A poll that reaches the end of the budget is a timeout even if it brought a response.
   */
  ghost predicate WaitEnd(status: WaitStatus, polls: seq<Poll>, consumed: nat, before: seq<Pdu>, budget: nat) {
    && consumed <= |polls|
    && (forall i :: 0 <= i < consumed - 1 ==> polls[i].elapsed >= 0)
    && (0 < consumed ==> before + Delivered(polls[..consumed - 1]) == [])
    && (budget > 0 && 0 < consumed ==> TotalElapsed(polls[..consumed - 1]) < budget)
    && match status
       case WaitOk =>
         before + Delivered(polls[..consumed]) != []
         && (0 < consumed ==> polls[consumed - 1].elapsed >= 0)
         && (0 < consumed && budget > 0 ==> TotalElapsed(polls[..consumed]) < budget)
       case WaitTimeout =>
         0 < consumed && polls[consumed - 1].elapsed >= 0 && 0 < budget <= TotalElapsed(polls[..consumed])
       case WaitIoErr => 0 < consumed && polls[consumed - 1].elapsed < 0
       case StillWaiting =>
         consumed == |polls| && before + Delivered(polls) == []
         && (forall i :: 0 <= i < |polls| ==> polls[i].elapsed >= 0)
         && (budget > 0 ==> TotalElapsed(polls) < budget)
         && (budget > 0 && IdlePollsTakeTime(polls) ==> |polls| < budget)
  }

  lemma OnePollMore(polls: seq<Poll>, consumed: nat)
    requires consumed < |polls|
    ensures TotalElapsed(polls[..consumed + 1]) == TotalElapsed(polls[..consumed]) + polls[consumed].elapsed
    ensures Delivered(polls[..consumed + 1]) == Delivered(polls[..consumed]) + polls[consumed].delivered
  {
    assert polls[..consumed + 1][..consumed] == polls[..consumed];
  }

  /** A poll that ends nothing keeps the books. */
  lemma PollKeepsBooks(polls: seq<Poll>, consumed: nat, remaining: int, before: seq<Pdu>, budget: nat)
    requires Progress(polls, consumed, remaining, before, budget) && consumed < |polls|
    requires before + Delivered(polls[..consumed]) == []
    requires polls[consumed].elapsed >= 0 && !(remaining > 0 && polls[consumed].elapsed >= remaining)
    ensures Progress(polls, consumed + 1, remaining - polls[consumed].elapsed, before, budget)
  {
    OnePollMore(polls, consumed);
  }

  /** Each way out of the loop is an end of the wait. */
  lemma LoopHeadEnds(polls: seq<Poll>, consumed: nat, remaining: int, before: seq<Pdu>, budget: nat)
    requires Progress(polls, consumed, remaining, before, budget)
    ensures before + Delivered(polls[..consumed]) != [] ==> WaitEnd(WaitOk, polls, consumed, before, budget)
    ensures before + Delivered(polls[..consumed]) == [] && consumed == |polls| ==>
              WaitEnd(StillWaiting, polls, consumed, before, budget)
  {
    if 0 < consumed {
      OnePollMore(polls, consumed - 1);
    }
    assert polls[..|polls|] == polls;
  }

  lemma PollEnds(polls: seq<Poll>, consumed: nat, remaining: int, before: seq<Pdu>, budget: nat)
    requires Progress(polls, consumed, remaining, before, budget) && consumed < |polls|
    requires before + Delivered(polls[..consumed]) == []
    ensures polls[consumed].elapsed < 0 ==> WaitEnd(WaitIoErr, polls, consumed + 1, before, budget)
    ensures 0 < remaining <= polls[consumed].elapsed ==> WaitEnd(WaitTimeout, polls, consumed + 1, before, budget)
  {
    OnePollMore(polls, consumed);
  }

  lemma {:induction false} ElapsedIsNatural(polls: seq<Poll>, n: nat)
    requires n <= |polls| && forall k :: 0 <= k < n ==> polls[k].elapsed >= 0
    ensures TotalElapsed(polls[..n]) >= 0
  {
    if 0 < n {
      ElapsedIsNatural(polls, n - 1);
      OnePollMore(polls, n - 1);
    }
  }

  /**
   The C int that holds the remaining time never overflows, except for the one integer part that wraps: then
   it does as soon as the polls have taken more than 2^31 milliseconds.
   */
  lemma RemainingFitsInt(polls: seq<Poll>, consumed: nat, remaining: int, before: seq<Pdu>, integerPart: nat)
    requires integerPart < 0x1_0000 && Progress(polls, consumed, remaining, before, Budget(integerPart))
    ensures -0x8000_0000 <= remaining < 0x8000_0000
            <==> integerPart < 65535 || TotalElapsed(polls[..consumed]) <= 0x8000_0000
  {
    ElapsedIsNatural(polls, consumed);
  }

  lemma {:induction false} ElapsedGrows(polls: seq<Poll>, i: nat, j: nat)
    requires i <= j <= |polls| && forall k :: 0 <= k < j ==> polls[k].elapsed >= 0
    ensures TotalElapsed(polls[..i]) <= TotalElapsed(polls[..j])
  {
    if i < j {
      ElapsedGrows(polls, i, j - 1);
      OnePollMore(polls, j - 1);
    }
  }

  lemma {:induction false} DeliveredGrows(polls: seq<Poll>, i: nat, j: nat)
    requires i <= j <= |polls|
    ensures Delivered(polls[..i]) != [] ==> Delivered(polls[..j]) != []
  {
    if i < j {
      DeliveredGrows(polls, i, j - 1);
      OnePollMore(polls, j - 1);
    }
  }

  /** A response handed over before the budget, if there is one, is used up, with no error so far, ends the wait well. */
  lemma ResponseInBudgetIsSeen(status: WaitStatus, polls: seq<Poll>, consumed: nat, budget: nat, k: nat)
    requires WaitEnd(status, polls, consumed, [], budget)
    requires k < |polls| && polls[k].delivered != [] && (budget == 0 || TotalElapsed(polls[..k + 1]) < budget)
    requires forall i :: 0 <= i <= k ==> polls[i].elapsed >= 0
    ensures status.WaitOk? && consumed <= k + 1
  {
    OnePollMore(polls, k);
    if k + 1 < consumed {
      DeliveredGrows(polls, k + 1, consumed - 1);
    } else {
      ElapsedGrows(polls, consumed, k + 1);
    }
    DeliveredGrows(polls, k + 1, |polls|);
    assert polls[..|polls|] == polls;
  }

  /** Poll number k delivers something, and neither it nor an earlier one failed. */
  ghost predicate DeliversAt(polls: seq<Poll>, k: nat) {
    k < |polls| && polls[k].delivered != [] && forall i :: 0 <= i <= k ==> polls[i].elapsed >= 0
  }

  lemma InBudgetIsSeen(status: WaitStatus, polls: seq<Poll>, consumed: nat, before: seq<Pdu>, integerPart: nat)
    requires integerPart < 0x1_0000 && WaitEnd(status, polls, consumed, before, Budget(integerPart))
    ensures forall k: nat ::
              before == [] && DeliversAt(polls, k)
              && (integerPart == 65535 || TotalElapsed(polls[..k + 1]) < 1000 * (integerPart + 1)) ==>
                status.WaitOk? && consumed <= k + 1
  {
    forall k: nat | before == [] && DeliversAt(polls, k)
                    && (integerPart == 65535 || TotalElapsed(polls[..k + 1]) < 1000 * (integerPart + 1))
      ensures status.WaitOk? && consumed <= k + 1
    {
      ResponseInBudgetIsSeen(status, polls, consumed, Budget(integerPart), k);
    }
  }

  class ClientExchange {
    var haveResponse: bool
    var responseIsError: bool
    var edhocExchangeIsComplete: bool
    /** internal_parsed_response: whether bytes is set, and the length; the bytes start the buffer below. */
    var viewIsSet: bool
    var viewLength: nat
    const incoming: array<byte>

    /** The responses handed to the callback since the last send, and the flag's value at that send. */
    ghost var received: seq<Pdu>
    ghost var stale: bool

    ghost function Latest(): Option<Pdu>
      reads this
    {
      LastAccepted(received, edhocExchangeIsComplete, incoming.Length)
    }

    /** What the view shows: the body of the latest accepted response, or nothing. */
    ghost predicate Valid()
      reads this, incoming
    {
      && 0 < incoming.Length
      && (haveResponse <==> received != [])
      && responseIsError == Verdict(stale, received, edhocExchangeIsComplete, incoming.Length)
      && match Latest()
         case None => !viewIsSet && viewLength == 0
         case Some(pdu) =>
           viewIsSet == pdu.body.Block?
           && viewLength == |BodyBytes(pdu)| <= incoming.Length
           && incoming[..viewLength] == BodyBytes(pdu)
    }

    constructor (buffer: array<byte>)
      requires 0 < buffer.Length
      ensures Valid() && incoming == buffer && received == [] && !edhocExchangeIsComplete && !responseIsError
    {
      haveResponse, responseIsError, edhocExchangeIsComplete := false, false, false;
      viewIsSet, viewLength, incoming := false, 0, buffer;
      received, stale := [], false;
    }

    /** reset leaves response_is_error as it was. */
    method Reset()
      requires 0 < incoming.Length
      modifies this
      ensures Valid() && received == [] && stale == responseIsError == old(responseIsError)
      ensures edhocExchangeIsComplete == old(edhocExchangeIsComplete)
    {
      haveResponse, viewIsSet, viewLength := false, false, 0;
      received, stale := [], responseIsError;
    }

    /** default_send: resets first, so even a failed send forgets the old response. */
    method Send(bytes: seq<byte>, transported: bool) returns (request: Option<Pdu>)
      requires 0 < incoming.Length
      modifies this
      ensures Valid() && received == [] && stale == responseIsError == old(responseIsError)
      ensures edhocExchangeIsComplete == old(edhocExchangeIsComplete)
      ensures request == if bytes != [] && transported then Some(PostOf(bytes)) else None
    {
      Reset();
      if bytes == [] || !transported {
        return None;
      }
      return Some(PostOf(bytes));
    }

    /** cli_exchange_send_message_1; a message that cannot be framed leaves the exchange as it is. */
    method SendMessage1(message: seq<byte>, prepended: bool, resized: bool, transported: bool)
      returns (request: Option<Pdu>)
      requires 0 < incoming.Length
      modifies this
      ensures edhocExchangeIsComplete == old(edhocExchangeIsComplete)
      ensures responseIsError == old(responseIsError)
      ensures request.Some? <==> 0 < |message| < MAX_PDU_SIZE && prepended && resized && transported
      ensures request.Some? ==> request.value == PostOf([CBOR_TRUE] + message)
      ensures if 0 < |message| < MAX_PDU_SIZE && prepended && resized
              then Valid() && received == [] && stale == responseIsError
              else unchanged(this)
    {
      var framed := LayOut(if prepended then Some([CBOR_TRUE]) else None, message, resized);
      if framed.None? {
        return None;
      }
      request := Send(framed.value, transported);
    }

    /** cli_exchange_send_message_3: from here on an empty response is an answer. */
    method SendMessage3(peerCid: ConnectionId, message: seq<byte>, resized: bool, transported: bool)
      returns (request: Option<Pdu>)
      requires 0 < incoming.Length
      modifies this
      ensures responseIsError == old(responseIsError)
      ensures request.Some? <==> FitsAfter(CidPrefix(peerCid), message) && resized && transported
      ensures request.Some? ==> request.value == PostOf(CidPrefix(peerCid).value + message)
      ensures if FitsAfter(CidPrefix(peerCid), message) && resized
              then Valid() && received == [] && stale == responseIsError
              else unchanged(this)
      ensures edhocExchangeIsComplete == (old(edhocExchangeIsComplete) || request.Some?)
    {
      var framed := LayOut(CidPrefix(peerCid), message, resized);
      if framed.None? {
        return None;
      }
      request := Send(framed.value, transported);
      if request.Some? {
        edhocExchangeIsComplete := true;
      }
    }

    /** coap_client_coap_response_handler. */
    method HandleResponse(pdu: Pdu)
      requires Valid()
      modifies this, incoming
      ensures Valid() && received == old(received) + [pdu] && stale == old(stale)
      ensures edhocExchangeIsComplete == old(edhocExchangeIsComplete)
      // In terms of the response: which ones count, what they leave, and that all others leave view and flag alone.
      ensures haveResponse
      ensures if pdu.code != EmptyCode && pdu.body.NoBody? && edhocExchangeIsComplete then
                !viewIsSet && viewLength == 0 && responseIsError == (pdu.code != Changed)
              else if pdu.code != EmptyCode && pdu.contentFormat == Some(64)
                      && pdu.body.Block? && pdu.body.offset == 0 && pdu.body.total == |pdu.body.bytes|
                      && 0 < |pdu.body.bytes| <= incoming.Length then
                viewIsSet && viewLength == |pdu.body.bytes| && incoming[..viewLength] == pdu.body.bytes
                && responseIsError == (pdu.code != Changed)
              else
                viewIsSet == old(viewIsSet) && viewLength == old(viewLength)
                && responseIsError == old(responseIsError) && incoming[..] == old(incoming[..])
    {
      LastAcceptedAfter(received, pdu, edhocExchangeIsComplete, incoming.Length);
      received := received + [pdu];
      haveResponse := true;
      if pdu.code == EmptyCode {
        return;
      }
      if PduIsEmpty(pdu) && edhocExchangeIsComplete {
        viewIsSet, viewLength := false, 0;
      } else {
        var status, length := ParseEdhocMessage(Some(pdu), CONTENT_FORMAT_EDHOC, incoming);
        if !status.ParseOk? {
          assert incoming[..viewLength] == incoming[..][..viewLength];
          return;
        }
        viewIsSet, viewLength := true, length;
      }
      responseIsError := pdu.code != Changed;
    }

    /** The callbacks of one poll. */
    method DeliverAll(pdus: seq<Pdu>)
      requires Valid()
      modifies this, incoming
      ensures Valid() && received == old(received) + pdus && stale == old(stale)
      ensures edhocExchangeIsComplete == old(edhocExchangeIsComplete)
    {
      for i := 0 to |pdus|
        invariant Valid() && received == old(received) + pdus[..i] && stale == old(stale)
        invariant edhocExchangeIsComplete == old(edhocExchangeIsComplete)
      {
        HandleResponse(pdus[i]);
        assert pdus[..i + 1] == pdus[..i] + [pdus[i]];
      }
    }

    /** One round of the wait loop: how it ends the wait, if it does, and the time left otherwise. */
    method PollOnce(poll: Poll, remaining: int) returns (ended: Option<WaitStatus>, left: int)
      requires Valid()
      modifies this, incoming
      ensures Valid() && received == old(received) + poll.delivered && stale == old(stale)
      ensures edhocExchangeIsComplete == old(edhocExchangeIsComplete)
      ensures ended == (
                if poll.elapsed < 0 then Some(WaitIoErr)
                else if 0 < remaining <= poll.elapsed then Some(WaitTimeout)
                else None)
      ensures left == remaining - poll.elapsed
    {
      DeliverAll(poll.delivered);
      left := remaining - poll.elapsed;
      if poll.elapsed < 0 {
        return Some(WaitIoErr), left;
      }
      if remaining > 0 && poll.elapsed >= remaining {
        return Some(WaitTimeout), left;
      }
      return None, left;
    }

    /** The same round with the books: it ends the wait rightly, or the loop goes on with the time that is left. */
    method Round(polls: seq<Poll>, consumed: nat, remaining: int, ghost before: seq<Pdu>, ghost budget: nat)
      returns (ended: Option<WaitStatus>, left: int)
      requires consumed < |polls| && Progress(polls, consumed, remaining, before, budget)
      requires Valid() && !haveResponse && received == before + Delivered(polls[..consumed])
      modifies this, incoming
      ensures Valid() && stale == old(stale) && edhocExchangeIsComplete == old(edhocExchangeIsComplete)
      ensures received == before + Delivered(polls[..consumed + 1])
      ensures ended.Some? ==> WaitEnd(ended.value, polls, consumed + 1, before, budget)
      ensures ended.None? ==> Progress(polls, consumed + 1, left, before, budget)
    {
      PollEnds(polls, consumed, remaining, before, budget);
      OnePollMore(polls, consumed);
      ended, left := PollOnce(polls[consumed], remaining);
      if ended.None? {
        PollKeepsBooks(polls, consumed, remaining, before, budget);
      }
    }

    /** The loop of the wait, with its books. */
    method WaitLoop(integerPart: nat, polls: seq<Poll>) returns (status: WaitStatus, consumed: nat)
      requires Valid() && integerPart < 0x1_0000
      modifies this, incoming
      ensures Valid() && stale == old(stale) && edhocExchangeIsComplete == old(edhocExchangeIsComplete)
      ensures WaitEnd(status, polls, consumed, old(received), Budget(integerPart))
      ensures received == old(received) + Delivered(polls[..consumed])
    {
      var remaining: int := Budget(integerPart);
      consumed := 0;
      ghost var budget := Budget(integerPart);
      while !haveResponse
        invariant Valid() && stale == old(stale) && edhocExchangeIsComplete == old(edhocExchangeIsComplete)
        invariant Progress(polls, consumed, remaining, old(received), budget)
        invariant received == old(received) + Delivered(polls[..consumed])
        decreases |polls| - consumed
      {
        if consumed == |polls| {
          LoopHeadEnds(polls, consumed, remaining, old(received), budget);
          return StillWaiting, consumed;
        }
        var ended, left := Round(polls, consumed, remaining, old(received), budget);
        if ended.Some? {
          return ended.value, consumed + 1;
        }
        remaining, consumed := left, consumed + 1;
      }
      LoopHeadEnds(polls, consumed, remaining, old(received), budget);
      return WaitOk, consumed;
    }

    /**
     cli_coap_wait_for_coap_response. polls are the results of the successive calls of the I/O function;
     consumed says how many the loop made.
     */
    method WaitForResponse(integerPart: nat, polls: seq<Poll>) returns (status: WaitStatus, consumed: nat)
      requires Valid() && integerPart < 0x1_0000
      modifies this, incoming
      ensures Valid() && stale == old(stale) && edhocExchangeIsComplete == old(edhocExchangeIsComplete)
      ensures WaitEnd(status, polls, consumed, old(received), Budget(integerPart))
      ensures received == old(received) + Delivered(polls[..consumed])
      // In milliseconds: the wait lasts for the integer part and one more second.
      ensures integerPart < 65535 && status.WaitTimeout? ==> TotalElapsed(polls[..consumed]) >= 1000 * (integerPart + 1)
      ensures integerPart < 65535 && status.WaitOk? && 0 < consumed ==>
                TotalElapsed(polls[..consumed]) < 1000 * (integerPart + 1)
      ensures integerPart == 65535 ==> !status.WaitTimeout?
      ensures forall k: nat ::
                old(received) == [] && DeliversAt(polls, k)
                && (integerPart == 65535 || TotalElapsed(polls[..k + 1]) < 1000 * (integerPart + 1)) ==>
                  status.WaitOk? && consumed <= k + 1
    {
      status, consumed := WaitLoop(integerPart, polls);
      InBudgetIsSeen(status, polls, consumed, old(received), integerPart);
    }

    /** What the caller gets back after a wait that ended well. */
    ghost predicate Answered(response: seq<byte>, isError: bool)
      reads this
    {
      && isError == Verdict(stale, received, edhocExchangeIsComplete, incoming.Length)
      && response == (if Latest().Some? then BodyBytes(Latest().value) else [])
      && (!edhocExchangeIsComplete ==> Latest().Some? && isError == (Latest().value.code != Changed) && response != [])
    }

    /**
     cli_coap_exchange_wait_and_get. Before Message 3 a success means fresh data: the body of the last
     response accepted since the send, and a flag about that same response, although reset never clears it.
     */
    method WaitAndGet(integerPart: nat, polls: seq<Poll>)
      returns (ok: bool, response: seq<byte>, isError: bool, ghost status: WaitStatus, ghost consumed: nat)
      requires Valid() && integerPart < 0x1_0000
      modifies this, incoming
      ensures Valid() && stale == old(stale) && edhocExchangeIsComplete == old(edhocExchangeIsComplete)
      ensures WaitEnd(status, polls, consumed, old(received), Budget(integerPart))
      ensures received == old(received) + Delivered(polls[..consumed])
      ensures ok <==> status.WaitOk? && (Latest().Some? || edhocExchangeIsComplete)
      ensures ok ==> Answered(response, isError)
      // In terms of what came since the send, before Message 3.
      ensures ok && !edhocExchangeIsComplete ==>
                exists i :: 0 <= i < |received| && IsBodyOf(response, received[i]) && isError == (received[i].code != Changed)
                            && forall j :: i < j < |received| ==> !Accepts(received[j], false, incoming.Length)
    {
      var wait;
      wait, consumed := WaitForResponse(integerPart, polls);
      status := wait;
      if !wait.WaitOk? {
        return false, [], false, status, consumed;
      }
      LastAcceptedIsAccepted(received, edhocExchangeIsComplete, incoming.Length);
      if !(viewIsSet && viewLength > 0) && !edhocExchangeIsComplete {
        return false, [], false, status, consumed;
      }
      response := incoming[..viewLength];
      if !edhocExchangeIsComplete {
        ghost var i := LastAcceptedIsLast(received, false, incoming.Length);
        assert IsBodyOf(response, received[i]);
      }
      return true, response, responseIsError, status, consumed;
    }
  }
}
