/** The client's cipher suite negotiation: one attempt, the list cut at the first common suite, one more. */
module Negotiation {
  import opened Common
  import opened ConnectionIds
  import opened CipherSuites
  import opened ManageContext
  import opened Coap
  import opened Responders

  const MAX_RENEGOTIATION_SIZE: nat := 10

  /** struct cli_edhoc_renegotiation_list: a fixed array, returned by value, and how much of it is used. */
  datatype RenegotiationList = RenegotiationList(suites: seq<SuiteDetails?>, numberOfSuites: nat)

  datatype NegotiationResult =
    | NegotiateOk(list: RenegotiationList)
    | NoCommonSuites
    | ErrEmptyErrorBuffer
    | ErrInvalidSupportedSuites
    | ErrInternalBufferTooSmall
    | ErrProcessingError

  /** Every suite of the list comes with its keys and crypto, whichever gets selected. */
  ghost predicate AllComplete(list: SuiteList) {
    forall i :: 0 <= i < |list| && list[i] != null ==> list[i].keys.Some? && list[i].crypto.Some?
  }

  /** The suite numbers of a list of suite pointers. */
  ghost function Numbers(list: SuiteList): (numbers: seq<int>)
    requires TablesPresent(list)
    ensures |numbers| == |list|
  {
    Values(Tables(list))
  }

  /** The suite numbers the client finds in a received error, which it never asks whether it is a text. */
  function SuitesIn(info: ErrorInfo, codec: Codec): seq<int> {
    match info
    case SuitesInfo(suites) => suites
    case TextInfo(text) => codec.textAsSuites(text)
  }

  /** The most preferred of the client's suites that the other side supports is at k. */
  ghost predicate IsFirstCommon(own: seq<int>, theirs: seq<int>, k: nat) {
    k < |own| && own[k] in theirs && forall i :: 0 <= i < k ==> own[i] !in theirs
  }

  ghost predicate Disjoint(own: seq<int>, theirs: seq<int>) {
    forall i :: 0 <= i < |own| ==> own[i] !in theirs
  }

  /** Two searches for the first common suite end at the same place. */
  lemma FirstCommonIsUnique(own: seq<int>, theirs: seq<int>, j: nat, k: nat)
    requires IsFirstCommon(own, theirs, j) && IsFirstCommon(own, theirs, k)
    ensures j == k
  {
    assert !(j < k) && !(k < j);
  }

  lemma {:induction false} NoFirstCommon(own: seq<int>, theirs: seq<int>, n: nat)
    requires n <= |own| && forall k: nat :: !IsFirstCommon(own, theirs, k)
    ensures forall i :: 0 <= i < n ==> own[i] !in theirs
  {
    if 0 < n {
      NoFirstCommon(own, theirs, n - 1);
      assert !IsFirstCommon(own, theirs, n - 1);
    }
  }

  ghost function FirstCommon(own: seq<int>, theirs: seq<int>): (result: Option<nat>)
    ensures result.Some? ==> IsFirstCommon(own, theirs, result.value)
    ensures result.None? <==> Disjoint(own, theirs)
  {
    if k: nat :| IsFirstCommon(own, theirs, k) then Some(k)
    else
      NoFirstCommon(own, theirs, |own|);
      None
  }

  /** merge_suite_list. */
  method MergeSuiteList(preferred: SuiteList, selected: SuiteDetails?) returns (list: RenegotiationList)
    requires |preferred| < MAX_RENEGOTIATION_SIZE
    ensures list.numberOfSuites == |preferred| + 1 <= |list.suites| == MAX_RENEGOTIATION_SIZE
    ensures list.suites[..list.numberOfSuites] == preferred + [selected]
  {
    var suites := new SuiteDetails?[MAX_RENEGOTIATION_SIZE](_ => null);
    for i := 0 to |preferred|
      invariant suites[..i] == preferred[..i]
    {
      suites[i] := preferred[i];
    }
    suites[|preferred|] := selected;
    assert suites[..|preferred| + 1] == suites[..|preferred|] + [selected];
    return RenegotiationList(suites[..], |preferred| + 1);
  }

  /** suite_identifier_in_error_info. */
  method SuiteIdentifierInErrorInfo(info: ErrorInfo, identifier: int, codec: Codec) returns (found: bool)
    ensures found <==> identifier in SuitesIn(info, codec)
  {
    var suites := SuitesIn(info, codec);
    for i := 0 to |suites|
      invariant identifier !in suites[..i]
    {
      if suites[i] == identifier {
        return true;
      }
    }
    return false;
  }

  /** cli_edhoc_negotiate_suites: the client's list, cut just after the first common suite. */
  method NegotiateSuites(own: SuiteList, encodedError: seq<byte>, codec: Codec) returns (result: NegotiationResult)
    requires forall i :: 0 <= i < |own| && own[i] != null ==> own[i].metadata != null
    ensures result.ErrEmptyErrorBuffer? <==> encodedError == []
    ensures result.ErrInvalidSupportedSuites? <==> encodedError != [] && !CipherSuitesAreValid(own)
    ensures result.ErrInternalBufferTooSmall? <==>
            encodedError != [] && CipherSuitesAreValid(own) && |own| > MAX_RENEGOTIATION_SIZE
    ensures result.ErrProcessingError? <==>
            encodedError != [] && CipherSuitesAreValid(own) && |own| <= MAX_RENEGOTIATION_SIZE
            && codec.process(encodedError).None?
    ensures result.NoCommonSuites? ==> Disjoint(Numbers(own), SuitesIn(codec.process(encodedError).value.1, codec))
    ensures result.NegotiateOk? ==>
              var n := result.list.numberOfSuites;
              && 0 < n <= |own| && n <= |result.list.suites| == MAX_RENEGOTIATION_SIZE
              && IsFirstCommon(Numbers(own), SuitesIn(codec.process(encodedError).value.1, codec), n - 1)
              && result.list.suites[..n] == own[..n]
  {
    if encodedError == [] {
      return ErrEmptyErrorBuffer;
    }
    var valid := CheckCipherSuites(own);
    if !valid {
      return ErrInvalidSupportedSuites;
    }
    if |own| > MAX_RENEGOTIATION_SIZE {
      return ErrInternalBufferTooSmall;
    }
    var received := codec.process(encodedError);
    if received.None? {
      return ErrProcessingError;
    }
    var info := received.value.1;
    for i := 0 to |own|
      invariant forall j :: 0 <= j < i ==> Numbers(own)[j] !in SuitesIn(info, codec)
    {
      var found := SuiteIdentifierInErrorInfo(info, own[i].metadata.value, codec);
      if found {
        var list := MergeSuiteList(own[..i], own[i]);
        assert own[..i + 1] == own[..i] + [own[i]];
        return NegotiateOk(list);
      }
    }
    return NoCommonSuites;
  }

  /** cli_edhoc_error_suggests_renegotiation. */
  predicate SuggestsRenegotiation(encodedError: seq<byte>, codec: Codec) {
    match codec.process(encodedError)
    case Some((code, _)) => code == WrongSelectedCipherSuite
    case None => false
  }

  // ---- The second context ----

  /** The parameters of the second attempt: the list cut after position k, with that suite selected. */
  function CutParameters(p: EdhocParameters, k: nat): EdhocParameters
    requires k < |p.supportedCipherSuites|
  {
    p.(supportedCipherSuites := p.supportedCipherSuites[..k + 1],
       selectedCipherSuite := p.supportedCipherSuites[k])
  }

  /**
   Renegotiation composes with setup: the cut list passes validation again, and setup leaves its order as
   it is, because the selected suite already is the last one.
   */
  lemma CutListNeedsNoReordering(p: EdhocParameters, k: nat)
    requires ValidParameters(p) && CompleteTables(p) && k < |p.supportedCipherSuites|
    ensures ValidParameters(CutParameters(p, k))
    ensures SelectedIndex(CutParameters(p, k)) == k
    ensures MoveToEnd(Tables(CutParameters(p, k).supportedCipherSuites), k) == Tables(p.supportedCipherSuites)[..k + 1]
  {
    var q := CutParameters(p, k);
    var cut := q.supportedCipherSuites;
    assert cut[k] == q.selectedCipherSuite;
    assert forall i :: 0 <= i < |cut| ==> cut[i] == p.supportedCipherSuites[i];
    MovingLastChangesNothing(Tables(cut));
    assert Tables(cut) == Tables(p.supportedCipherSuites)[..k + 1];
  }

  // ---- The attempts ----

  /** What became of one Message 1: never composed, never sent, unanswered, or answered. */
  datatype AttemptReply = ComposeFailed | SendFailed | NoAnswer | Answer(response: seq<byte>, isError: bool)

  datatype AttemptResult = AttemptErr | AttemptOk(response: seq<byte>) | Renegotiate(response: seq<byte>)

  /** Message 1 of attempt number i with these suites, the selected one last, to what became of it. */
  type Network = (nat, seq<int>) -> AttemptReply

  function Judge(reply: AttemptReply, codec: Codec): AttemptResult {
    match reply
    case Answer(response, isError) =>
      if isError && SuggestsRenegotiation(response, codec) then Renegotiate(response) else AttemptOk(response)
    case _ => AttemptErr
  }

  /**
   What an answer means, for every reply: another attempt exactly for an error answer with the code "wrong
   selected cipher suite", a failure exactly without an answer, and else the client goes on with what it got,
   even if that came as an error.
   */
  lemma EveryReplyIsJudged(reply: AttemptReply, codec: Codec)
    ensures var result := Judge(reply, codec);
            && (result.Renegotiate? <==>
                reply.Answer? && reply.isError && codec.process(reply.response).Some?
                && codec.process(reply.response).value.0 == WrongSelectedCipherSuite)
            && (result.AttemptErr? <==> reply.ComposeFailed? || reply.SendFailed? || reply.NoAnswer?)
            && (result.Renegotiate? || result.AttemptOk? ==> reply.Answer? && result.response == reply.response)
  {
  }

  /** The Message 1s that actually left. */
  ghost function SentBy(reply: AttemptReply, suites: seq<int>): seq<seq<int>> {
    if reply.ComposeFailed? || reply.SendFailed? then [] else [suites]
  }

  datatype Resolution = Resolution(result: AttemptResult, sent: seq<seq<int>>)

  /** Where the client's list is cut after this error, if a second attempt is made at all. */
  ghost function CutAfter(own: seq<int>, response: seq<byte>, codec: Codec, reset: bool): Option<nat>
    requires codec.process(response).Some?
  {
    if response == [] || |own| > MAX_RENEGOTIATION_SIZE || !reset then None
    else FirstCommon(own, SuitesIn(codec.process(response).value.1, codec))
  }

  /**
   The negotiation on suite numbers: first is SUITES_I of the first attempt, own the client's list in its
   order of preference, and reset says whether the second context can be set up.
   */
  ghost function Resolve(first: seq<int>, own: seq<int>, network: Network, codec: Codec, reset: bool): Resolution {
    var reply := network(0, first);
    var result := Judge(reply, codec);
    var sent := SentBy(reply, first);
    if !result.Renegotiate? then Resolution(result, sent)
    else
      match CutAfter(own, result.response, codec, reset)
      case Some(k) =>
        var again := network(1, own[..k + 1]);
        Resolution(Judge(again, codec), sent + SentBy(again, own[..k + 1]))
      case None => Resolution(AttemptErr, sent)
  }

  /**
   The negotiation, for every network and codec: it ends with the first attempt unless that was refused for a
   wrong suite; a second one is made exactly if the refusal has a body, the list has at most 10 suites, the second
   context can be set up, and the error names one of the client's suites, and then with the list cut there.
   */
  lemma EveryNegotiationIsResolved(first: seq<int>, own: seq<int>, network: Network, codec: Codec, reset: bool)
    ensures var r, reply := Resolve(first, own, network, codec, reset), network(0, first);
            var refused := reply.Answer? && reply.isError && codec.process(reply.response).Some?
                           && codec.process(reply.response).value.0 == WrongSelectedCipherSuite;
            && (!reply.Answer? ==> r.result.AttemptErr? && |r.sent| <= 1)
            && (reply.Answer? && !refused ==> r == Resolution(AttemptOk(reply.response), [first]))
            && (refused ==>
                  var named := SuitesIn(codec.process(reply.response).value.1, codec);
                  && (reply.response == [] || |own| > 10 || !reset || (forall i :: 0 <= i < |own| ==> own[i] !in named) ==>
                        r == Resolution(AttemptErr, [first]))
                  && forall k: nat ::
                       reply.response != [] && |own| <= 10 && reset && IsFirstCommon(own, named, k) ==>
                         var again := network(1, own[..k + 1]);
                         && (again.Answer? || again.NoAnswer? ==> r.sent == [first, own[..k + 1]])
                         && (again.ComposeFailed? || again.SendFailed? ==> r.sent == [first])
                         && (again.Answer? <==> !r.result.AttemptErr?)
                         && (again.Answer? ==> r.result.response == again.response))
  {
    var reply := network(0, first);
    EveryReplyIsJudged(reply, codec);
    if Judge(reply, codec).Renegotiate? {
      var named := SuitesIn(codec.process(reply.response).value.1, codec);
      forall k: nat | IsFirstCommon(own, named, k)
        ensures FirstCommon(own, named) == Some(k)
      {
        FirstCommonIsUnique(own, named, k, FirstCommon(own, named).value);
      }
    }
  }

  class ClientResources {
    const context: EdhocContext
    /** SUITES_I of every Message 1 sent. */
    var sent: seq<seq<int>>

    constructor ()
      ensures fresh(context) && sent == []
    {
      context := new EdhocContext();
      sent := [];
    }

    /** cli_edhoc_perform_negotiation_attempt. */
    method PerformNegotiationAttempt(attempt: nat, network: Network, codec: Codec) returns (result: AttemptResult)
      modifies this`sent
      ensures result == Judge(network(attempt, context.Suites()), codec)
      ensures sent == old(sent) + SentBy(network(attempt, context.Suites()), context.Suites())
      // In terms of the reply: when it is tried again, when it fails, and what the client goes on with.
      ensures var reply := network(attempt, context.Suites());
              && (result.Renegotiate? <==>
                  reply.Answer? && reply.isError && codec.process(reply.response).Some?
                  && codec.process(reply.response).value.0 == WrongSelectedCipherSuite)
              && (result.AttemptErr? <==> !reply.Answer?)
              && (!result.AttemptErr? ==> result.response == reply.response)
              && sent == old(sent) + if reply.Answer? || reply.NoAnswer? then [context.Suites()] else []
    {
      var suites := context.Suites();
      var reply := network(attempt, suites);
      if reply.ComposeFailed? || reply.SendFailed? {
        return AttemptErr;
      }
      sent := sent + [suites];
      if reply.NoAnswer? {
        return AttemptErr;
      }
      if reply.isError && SuggestsRenegotiation(reply.response, codec) {
        return Renegotiate(reply.response);
      }
      return AttemptOk(reply.response);
    }

    /** cli_reset_edhoc_context_with_new_suites_data. */
    method ResetContextWithNewSuites(original: EdhocParameters, list: RenegotiationList, calls: SetupCalls)
      returns (ok: bool)
      requires 0 < list.numberOfSuites <= |list.suites|
      requires CompleteTables(original.(
                                supportedCipherSuites := list.suites[..list.numberOfSuites],
                                selectedCipherSuite := list.suites[list.numberOfSuites - 1]))
      modifies context
      ensures var p := original.(
                         supportedCipherSuites := list.suites[..list.numberOfSuites],
                         selectedCipherSuite := list.suites[list.numberOfSuites - 1]);
              (ok <==> ValidParameters(p) && calls.AllSucceed()) && (ok ==> Configured(context, p))
    {
      context.Deinit();
      var p := original.(
        supportedCipherSuites := list.suites[..list.numberOfSuites],
        selectedCipherSuite := list.suites[list.numberOfSuites - 1]);
      var status := SetupContext(context, p, calls);
      return status.SetupOk?;
    }

    /** The part of cli_edhoc_resolve_negotiation between the attempts: the second context, if there is one. */
    method PrepareAgain(p: EdhocParameters, response: seq<byte>, codec: Codec, calls: SetupCalls) returns (ready: bool)
      requires ValidParameters(p) && CompleteTables(p) && AllComplete(p.supportedCipherSuites)
      requires codec.process(response).Some?
      modifies context
      ensures match CutAfter(Numbers(p.supportedCipherSuites), response, codec, calls.AllSucceed())
              case None => !ready
              case Some(k) =>
                ready && Configured(context, CutParameters(p, k))
                && context.Suites() == Numbers(p.supportedCipherSuites)[..k + 1]
      // Field by field: the last suite of the cut list gives the tables, the rest is as in the first context.
      ensures ready ==>
                var n := |context.Suites()|;
                0 < n <= |p.supportedCipherSuites|
                && var last := p.supportedCipherSuites[n - 1];
                   context.userContext == last && context.keys == last.keys && context.crypto == last.crypto
                   && context.privateCid == OneByteInteger(p.generateConnectionId.value)
                   && context.methods == p.methods && context.credentials == p.credentials
    {
      ghost var own := Numbers(p.supportedCipherSuites);
      ghost var theirs := SuitesIn(codec.process(response).value.1, codec);
      var negotiated := NegotiateSuites(p.supportedCipherSuites, response, codec);
      if !negotiated.NegotiateOk? {
        return false;
      }
      ghost var k := negotiated.list.numberOfSuites - 1;
      FirstCommonIsUnique(own, theirs, k, FirstCommon(own, theirs).value);
      CutListNeedsNoReordering(p, k);
      ready := ResetContextWithNewSuites(p, negotiated.list, calls);
      assert ready ==> context.Suites() == own[..k + 1];
    }

    /** The part of cli_edhoc_resolve_negotiation after an error that suggests another attempt. */
    method AttemptAgain(p: EdhocParameters, response: seq<byte>, network: Network, codec: Codec, calls: SetupCalls)
      returns (result: AttemptResult)
      requires ValidParameters(p) && CompleteTables(p) && AllComplete(p.supportedCipherSuites)
      requires codec.process(response).Some?
      modifies this`sent, context
      ensures match CutAfter(Numbers(p.supportedCipherSuites), response, codec, calls.AllSucceed())
              case None => result == AttemptErr && sent == old(sent)
              case Some(k) =>
                var cut := Numbers(p.supportedCipherSuites)[..k + 1];
                && Configured(context, CutParameters(p, k)) && context.Suites() == cut
                && result == Judge(network(1, cut), codec) && sent == old(sent) + SentBy(network(1, cut), cut)
    {
      var ready := PrepareAgain(p, response, codec, calls);
      if !ready {
        return AttemptErr;
      }
      result := PerformNegotiationAttempt(1, network, codec);
    }

    /**
     cli_edhoc_resolve_negotiation: at most one renegotiation. If a second Message 1 left, the context is
     the one of the cut list: suites in order, keys, crypto and user context of its last suite.
     */
    method ResolveNegotiation(p: EdhocParameters, network: Network, codec: Codec, calls: SetupCalls)
      returns (result: AttemptResult)
      requires ValidParameters(p) && CompleteTables(p) && AllComplete(p.supportedCipherSuites) && sent == []
      modifies this`sent, context
      ensures Resolution(result, sent) ==
              Resolve(old(context.Suites()), Numbers(p.supportedCipherSuites), network, codec, calls.AllSucceed())
      ensures |sent| == 2 ==>
                exists k :: 0 <= k < |p.supportedCipherSuites|
                            && Configured(context, CutParameters(p, k))
                            && sent[1] == context.Suites() == Numbers(p.supportedCipherSuites)[..k + 1]
    {
      result := PerformNegotiationAttempt(0, network, codec);
      if result.Renegotiate? {
        result := AttemptAgain(p, result.response, network, codec, calls);
      }
    }
  }
}
