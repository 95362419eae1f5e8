/** Setting up an EDHOC context: suite reordering and the chain of libedhoc calls. */
module ManageContext {
  import opened Common
  import opened ConnectionIds
  import opened CipherSuites

  /** The fields of libedhoc's struct edhoc_context that this repository writes or reads. */
  class EdhocContext {
    var methods: seq<nat>
    var cipherSuites: seq<CipherSuite>
    var privateCid: ConnectionId
    var keys: Option<nat>
    var userContext: SuiteDetails?
    var crypto: Option<nat>
    var credentials: Option<nat>

    /** calloc: everything is zero. */
    constructor ()
      ensures cipherSuites == [] && privateCid == CLEARED_CID && userContext == null
    {
      methods, cipherSuites, privateCid := [], [], CLEARED_CID;
      keys, userContext, crypto, credentials := None, null, None, None;
    }

    /** The suite numbers in the context's order. */
    function Suites(): seq<int>
      reads this
    {
      seq(|cipherSuites|, i requires 0 <= i < |cipherSuites| reads this => cipherSuites[i].value)
    }

    /** edhoc_context_deinit, on the client's embedded context. */
    method Deinit()
      modifies this
      ensures cipherSuites == [] && privateCid == CLEARED_CID && userContext == null
    {
      methods, cipherSuites, privateCid := [], [], CLEARED_CID;
      keys, userContext, crypto, credentials := None, null, None, None;
    }
  }

  /** Which of the foreign calls made during setup succeed. */
  datatype SetupCalls = SetupCalls(
    psaInit: bool, contextInit: bool, setMethods: bool, setCipherSuites: bool, setConnectionId: bool,
    bindKeys: bool, setUserContext: bool, bindCrypto: bool, bindCredentials: bool)
  {
    predicate AllSucceed() {
      psaInit && contextInit && setMethods && setCipherSuites && setConnectionId
      && bindKeys && setUserContext && bindCrypto && bindCredentials
    }
  }

  datatype SetupStatus =
    | SetupOk | ErrInvalidParameters | ErrPsaInit | ErrContextInit | ErrSetMethods | ErrSetCipherSuites
    | ErrSetConnectionId | ErrBindKeys | ErrSetUserContext | ErrBindCrypto | ErrBindCredentials
    /** A NULL pointer was followed; the C program has no behaviour from here on. */
    | NullDereference

  /** s with its element k moved behind all others. */
  ghost function MoveToEnd<T>(s: seq<T>, k: nat): seq<T>
    requires k < |s|
  {
    s[..k] + s[k + 1..] + [s[k]]
  }

  /** The suite tables behind a list of suite pointers. */
  ghost function Tables(list: SuiteList): (tables: seq<CipherSuite>)
    requires TablesPresent(list)
  {
    seq(|list|, i requires 0 <= i < |list| => list[i].metadata)
  }

  ghost function Values(suites: seq<CipherSuite>): (values: seq<int>) {
    seq(|suites|, i requires 0 <= i < |suites| => suites[i].value)
  }

  /** The index in the original list of element i of the reordered one. */
  ghost function SourceIndex(n: nat, k: nat, i: nat): nat
    requires k < n && i < n
  {
    if i == n - 1 then k else if i < k then i else i + 1
  }

  /**
   The reordering is a stable permutation: nothing is lost or repeated, the chosen element comes
   last, and all the others keep their order.
   */
  lemma MoveToEndIsStablePermutation<T>(s: seq<T>, k: nat)
    requires k < |s|
    ensures multiset(MoveToEnd(s, k)) == multiset(s)
    ensures MoveToEnd(s, k)[|s| - 1] == s[k]
    ensures forall i :: 0 <= i < |s| ==> MoveToEnd(s, k)[i] == s[SourceIndex(|s|, k, i)]
    ensures forall i, j :: 0 <= i < j < |s| - 1 ==> SourceIndex(|s|, k, i) < SourceIndex(|s|, k, j)
  {
    assert s == s[..k] + [s[k]] + s[k + 1..];
  }

  lemma MoveToEndKeepsDistinctness<T>(s: seq<T>, k: nat)
    requires k < |s|
    requires forall i, j :: 0 <= i < j < |s| ==> s[i] != s[j]
    ensures forall i, j :: 0 <= i < j < |s| ==> MoveToEnd(s, k)[i] != MoveToEnd(s, k)[j]
  {
    forall i, j | 0 <= i < j < |s|
      ensures MoveToEnd(s, k)[i] != MoveToEnd(s, k)[j]
    {
      MoveToEndIsStablePermutation(s, k);
      assert SourceIndex(|s|, k, i) != SourceIndex(|s|, k, j);
    }
  }

  /** Moving the last element of a list to its end changes nothing. */
  lemma MovingLastChangesNothing<T>(s: seq<T>)
    requires s != []
    ensures MoveToEnd(s, |s| - 1) == s
  {
    assert s == s[..|s| - 1] + [s[|s| - 1]];
  }

  /** The cell holds the table of this suite. */
  ghost predicate IsCopyOf(cell: Option<CipherSuite>, details: SuiteDetails?) {
    details != null && details.metadata != null && cell == Some(details.metadata)
  }

  /**
   The loop of setup. The C array starts uninitialised, which is None here: the contract says that
   every one of its cells is written, so exactly one list entry is skipped. A suite without metadata
   is dereferenced all the same: in the loop, or behind it when it is the selected one.
   */
  method FillCipherSuites(supported: SuiteList, selected: SuiteDetails, ghost k: nat)
    returns (cells: array<Option<CipherSuite>>, faulted: bool)
    requires CipherSuitesAreValid(supported) && DistinctMetadata(supported)
    requires k < |supported| && supported[k] == selected
    ensures fresh(cells) && cells.Length == |supported|
    ensures faulted <==> !TablesPresent(supported)
    ensures !faulted ==>
              forall i :: 0 <= i < cells.Length ==> cells[i] == Some(MoveToEnd(Tables(supported), k)[i])
  {
    var n := |supported|;
    cells := new Option<CipherSuite>[n](_ => None);
    var writeIndex := 0;
    for i := 0 to n
      invariant writeIndex == if i <= k then i else i - 1
      invariant forall j :: 0 <= j < i && j != k ==> supported[j].metadata != null
      invariant forall j :: 0 <= j < writeIndex ==> IsCopyOf(cells[j], supported[if j < k then j else j + 1])
    {
      if supported[i].metadata != selected.metadata {
        if supported[i].metadata == null {
          return cells, true;
        }
        cells[writeIndex] := Some(supported[i].metadata);
        writeIndex := writeIndex + 1;
      }
    }
    assert writeIndex == n - 1;
    if selected.metadata == null {
      return cells, true;
    }
    cells[n - 1] := Some(selected.metadata);
    return cells, false;
  }

  /** The state a successful setup leaves, with the selected suite at position k of the list. */
  ghost predicate ConfiguredAt(c: EdhocContext, p: EdhocParameters, k: nat)
    requires ValidParameters(p) && CompleteTables(p)
    reads c
  {
    && k < |p.supportedCipherSuites| && p.supportedCipherSuites[k] == p.selectedCipherSuite
    && c.cipherSuites == MoveToEnd(Tables(p.supportedCipherSuites), k)
    && c.methods == p.methods
    && c.privateCid == OneByteInteger(p.generateConnectionId.value)
    && c.userContext == p.selectedCipherSuite
    && c.keys == p.selectedCipherSuite.keys
    && c.crypto == p.selectedCipherSuite.crypto
    && c.credentials == p.credentials
  }

  /** The position of the selected suite in the list; validation makes it unique. */
  ghost function SelectedIndex(p: EdhocParameters): (k: nat)
    requires ValidParameters(p)
    ensures k < |p.supportedCipherSuites| && p.supportedCipherSuites[k] == p.selectedCipherSuite
  {
    var k :| 0 <= k < |p.supportedCipherSuites| && p.supportedCipherSuites[k] == p.selectedCipherSuite;
    k
  }

  ghost predicate Configured(c: EdhocContext, p: EdhocParameters)
    requires ValidParameters(p) && CompleteTables(p)
    reads c
  {
    ConfiguredAt(c, p, SelectedIndex(p))
  }

  /** The suite numbers a context gets from these parameters, in its order. */
  ghost function ConfiguredSuites(p: EdhocParameters): seq<int>
    requires ValidParameters(p) && CompleteTables(p)
  {
    Values(MoveToEnd(Tables(p.supportedCipherSuites), SelectedIndex(p)))
  }

  /** The status reports the first thing that went wrong. */
  ghost function FirstFailure(p: EdhocParameters, calls: SetupCalls): SetupStatus {
    if !ValidParameters(p) then ErrInvalidParameters
    else if !calls.psaInit then ErrPsaInit
    else if !calls.contextInit then ErrContextInit
    else if !calls.setMethods then ErrSetMethods
    else if !TablesPresent(p.supportedCipherSuites) then NullDereference
    else if !calls.setCipherSuites then ErrSetCipherSuites
    else if !calls.setConnectionId then ErrSetConnectionId
    else if p.selectedCipherSuite.keys.None? then NullDereference
    else if !calls.bindKeys then ErrBindKeys
    else if !calls.setUserContext then ErrSetUserContext
    else if p.selectedCipherSuite.crypto.None? then NullDereference
    else if !calls.bindCrypto then ErrBindCrypto
    else if !calls.bindCredentials then ErrBindCredentials
    else SetupOk
  }

  /** With complete tables each status names the one call that failed first. */
  lemma EachFailureHasItsStatus(p: EdhocParameters, calls: SetupCalls)
    requires CompleteTables(p)
    ensures var status := FirstFailure(p, calls);
            && (status == ErrInvalidParameters <==> !ValidParameters(p))
            && (ValidParameters(p) ==>
                  && (status == ErrPsaInit <==> !calls.psaInit)
                  && (calls.psaInit ==>
                        && (status == ErrContextInit <==> !calls.contextInit)
                        && (calls.contextInit ==>
                              && (status == ErrSetMethods <==> !calls.setMethods)
                              && (calls.setMethods ==>
                                    && (status == ErrSetCipherSuites <==> !calls.setCipherSuites)
                                    && (calls.setCipherSuites ==>
                                          (status == ErrSetConnectionId <==> !calls.setConnectionId))))))
    ensures ValidParameters(p) && calls.psaInit && calls.contextInit && calls.setMethods && calls.setCipherSuites
            && calls.setConnectionId ==>
              var status := FirstFailure(p, calls);
              && (status == ErrBindKeys <==> !calls.bindKeys)
              && (calls.bindKeys ==>
                    && (status == ErrSetUserContext <==> !calls.setUserContext)
                    && (calls.setUserContext ==>
                          && (status == ErrBindCrypto <==> !calls.bindCrypto)
                          && (calls.bindCrypto ==> (status == ErrBindCredentials <==> !calls.bindCredentials))))
  {
  }

  /**
   Setup, on any parameters. With working calls it follows a NULL pointer exactly when validation let
   incomplete tables through.
   */
  method SetupContext(context: EdhocContext, p: EdhocParameters, calls: SetupCalls) returns (status: SetupStatus)
    modifies context
    ensures status == FirstFailure(p, calls)
    ensures status.SetupOk? <==> ValidParameters(p) && CompleteTables(p) && calls.AllSucceed()
    ensures status.SetupOk? ==> Configured(context, p)
    ensures ValidParameters(p) && calls.AllSucceed() ==> (status.NullDereference? <==> !CompleteTables(p))
    ensures CompleteTables(p) ==> !status.NullDereference?
    // Field by field: what a successful setup leaves.
    ensures status.SetupOk? ==>
              && |context.cipherSuites| == |p.supportedCipherSuites| > 0
              && context.cipherSuites[|context.cipherSuites| - 1] == p.selectedCipherSuite.metadata
              && context.keys == p.selectedCipherSuite.keys
              && context.crypto == p.selectedCipherSuite.crypto
              && context.userContext == p.selectedCipherSuite
              && context.privateCid == OneByteInteger(p.generateConnectionId.value)
              && context.methods == p.methods && context.credentials == p.credentials
  {
    var valid := ValidateParameters(p);
    if !valid { return ErrInvalidParameters; }
    if !calls.psaInit { return ErrPsaInit; }
    if !calls.contextInit { return ErrContextInit; }
    if !calls.setMethods { return ErrSetMethods; }
    context.methods := p.methods;
    var selected := p.selectedCipherSuite;
    ghost var k := SelectedIndex(p);
    var cells, faulted := FillCipherSuites(p.supportedCipherSuites, selected, k);
    if faulted { return NullDereference; }
    if !calls.setCipherSuites { return ErrSetCipherSuites; }
    var written := cells[..];
    context.cipherSuites := seq(|written|, i requires 0 <= i < |written| && written[i].Some? => written[i].value);
    if !calls.setConnectionId { return ErrSetConnectionId; }
    context.privateCid := OneByteInteger(p.generateConnectionId.value);
    if selected.keys.None? { return NullDereference; }
    if !calls.bindKeys { return ErrBindKeys; }
    context.keys := selected.keys;
    if !calls.setUserContext { return ErrSetUserContext; }
    context.userContext := selected;
    if selected.crypto.None? { return NullDereference; }
    if !calls.bindCrypto { return ErrBindCrypto; }
    context.crypto := selected.crypto;
    if !calls.bindCredentials { return ErrBindCredentials; }
    context.credentials := p.credentials;
    return SetupOk;
  }

  /** A concrete case: one suite with keys but without metadata passes validation, and setup follows its NULL. */
  method SuiteWithoutMetadataFaults(context: EdhocContext) returns (p: EdhocParameters, status: SetupStatus)
    modifies context
    ensures ValidParameters(p) && !CompleteTables(p) && status.NullDereference?
  {
    var suite := new SuiteDetails(null, Some(0), Some(0));
    p := EdhocParameters(Some(0), [suite], suite, [0], Some(GenerateOddCid()));
    assert suite in p.supportedCipherSuites && !TablesPresent(p.supportedCipherSuites);
    status := SetupContext(context, p, SetupCalls(true, true, true, true, true, true, true, true, true));
  }

  /** Whatever such a suite is, parameters with it are valid as soon as their other fields are. */
  lemma ValidationMissesIncompleteTables(p: EdhocParameters, suite: SuiteDetails)
    requires suite.metadata == null && (suite.keys.Some? || suite.crypto.Some?)
    requires p.supportedCipherSuites == [suite] && p.selectedCipherSuite == suite
    ensures !CompleteTables(p)
    ensures ValidParameters(p) <==> p.methods != [] && p.credentials.Some? && p.generateConnectionId.Some?
  {
    assert p.supportedCipherSuites[0] == suite;
  }
}
