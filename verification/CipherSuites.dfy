/**
 Cipher suite tables, suite lists and the validation of EDHOC parameters.

 The suite tables are global constants reached through pointers, and the code compares the
 pointers, so both are classes here: object identity is the pointer comparison.
 */
module CipherSuites {
  import opened Common
  import opened ConnectionIds

  class CipherSuite {
    const value: int

    constructor (value: int)
      ensures this.value == value
    {
      this.value := value;
    }
  }

  /** get_keys and get_crypto are function pointers to constant tables: a table number, or None for NULL. */
  class SuiteDetails {
    const metadata: CipherSuite?
    const keys: Option<nat>
    const crypto: Option<nat>

    constructor (metadata: CipherSuite?, keys: Option<nat>, crypto: Option<nat>)
      ensures this.metadata == metadata && this.keys == keys && this.crypto == crypto
    {
      this.metadata, this.keys, this.crypto := metadata, keys, crypto;
    }
  }

  /** A NULL suites pointer and a zero count are treated alike, so both are the empty sequence. */
  type SuiteList = seq<SuiteDetails?>

  /** generate_connection_id is the value this call of the generator returns, None for a NULL pointer. */
  datatype EdhocParameters = EdhocParameters(
    credentials: Option<nat>,
    supportedCipherSuites: SuiteList,
    selectedCipherSuite: SuiteDetails?,
    methods: seq<nat>,
    generateConnectionId: Option<int8>)

  predicate SuiteDetailsAreValid(details: SuiteDetails?) {
    details != null && (details.metadata != null || details.keys.Some? || details.crypto.Some?)
  }

  ghost predicate CipherSuitesAreValid(list: SuiteList) {
    list != [] && forall i :: 0 <= i < |list| ==> SuiteDetailsAreValid(list[i])
  }

  ghost predicate DistinctMetadata(list: SuiteList)
    requires CipherSuitesAreValid(list)
  {
    forall i, j :: 0 <= i < j < |list| ==> list[i].metadata != list[j].metadata
  }

  ghost predicate ValidParameters(p: EdhocParameters) {
    && CipherSuitesAreValid(p.supportedCipherSuites)
    && p.methods != []
    && p.credentials.Some?
    && p.selectedCipherSuite != null
    && p.generateConnectionId.Some?
    && DistinctMetadata(p.supportedCipherSuites)
    && p.selectedCipherSuite in p.supportedCipherSuites
  }

  /** Every suite of the list has its table. */
  ghost predicate TablesPresent(list: SuiteList) {
    forall i :: 0 <= i < |list| ==> list[i] != null && list[i].metadata != null
  }

  /**
   What setup dereferences without checking: validation accepts an entry whose metadata is NULL as
   long as it has keys or crypto, so its callers must supply complete tables.
   */
  ghost predicate CompleteTables(p: EdhocParameters) {
    && (forall i :: 0 <= i < |p.supportedCipherSuites| && p.supportedCipherSuites[i] != null ==>
                      p.supportedCipherSuites[i].metadata != null)
    && (p.selectedCipherSuite != null ==>
          p.selectedCipherSuite.keys.Some? && p.selectedCipherSuite.crypto.Some?)
  }

  method CheckCipherSuites(list: SuiteList) returns (valid: bool)
    ensures valid <==> CipherSuitesAreValid(list)
  {
    if list == [] {
      return false;
    }
    for i := 0 to |list|
      invariant forall j :: 0 <= j < i ==> SuiteDetailsAreValid(list[j])
    {
      if !SuiteDetailsAreValid(list[i]) {
        return false;
      }
    }
    return true;
  }

  method SuiteInSuitesList(suite: SuiteDetails?, list: SuiteList) returns (found: bool)
    ensures found <==> suite in list
  {
    found := false;
    for j := 0 to |list|
      invariant found <==> suite in list[..j]
    {
      if suite == list[j] {
        found := true;
      }
    }
  }

  method DuplicatedSuitesIn(list: SuiteList) returns (duplicated: bool)
    requires CipherSuitesAreValid(list)
    ensures duplicated <==> !DistinctMetadata(list)
  {
    for i := 0 to |list|
      invariant forall a, b :: 0 <= a < i && a < b < |list| ==> list[a].metadata != list[b].metadata
    {
      for j := i + 1 to |list|
        invariant forall b :: i < b < j ==> list[i].metadata != list[b].metadata
      {
        if list[i].metadata == list[j].metadata {
          return true;
        }
      }
    }
    return false;
  }

  method ValidateParameters(p: EdhocParameters) returns (valid: bool)
    ensures valid <==> ValidParameters(p)
  {
    var suitesAreValid := CheckCipherSuites(p.supportedCipherSuites);
    if !suitesAreValid || p.methods == [] || p.credentials.None? || p.selectedCipherSuite == null
       || p.generateConnectionId.None? {
      return false;
    }
    var duplicated := DuplicatedSuitesIn(p.supportedCipherSuites);
    if duplicated {
      return false;
    }
    valid := SuiteInSuitesList(p.selectedCipherSuite, p.supportedCipherSuites);
  }
}
