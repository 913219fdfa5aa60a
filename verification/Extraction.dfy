/** Reading the chaincodes and collections a proposal touched out of a peer's response. */
module Extraction {
  import opened Common
  import opened Fabric
  import opened RwSet
  import opened Chain

  datatype ResponsePayload = ResponsePayload(proposalHash: Bytes, extension: Bytes)
  datatype ChaincodeAction = ChaincodeAction(results: Bytes, events: Bytes, response: Bytes, chaincodeID: Bytes)

  datatype ResponseCodecs = ResponseCodecs(
    payload: Codec<ResponsePayload>,
    action: Codec<ChaincodeAction>,
    rw: Codecs)

  ghost predicate SoundCodecs(cs: ResponseCodecs) {
    RoundTrips(cs.payload) && RoundTrips(cs.action) && Sound(cs.rw)
  }

  /** The message with no fields set encodes to no bytes. */
  ghost predicate DefaultIsEmpty(cs: ResponseCodecs) {
    cs.rw.tx.marshal(Some(TxMsg(KV, []))) == Ok([])
  }

  function RwSetsOf(cs: ResponseCodecs, response: Option<Bytes>): Result<seq<NsRwSet>> {
    match response
    case None => Ok([])
    case Some(bytes) =>
      var p :- cs.payload.unmarshal(bytes);
      var a :- cs.action.unmarshal(p.extension);
      if a.results == [] then Ok([]) else TxFromBytes(cs.rw, a.results)
  }

  function CollectionNames(colls: seq<CollHashedRwSet>): seq<string> {
    seq(|colls|, j requires 0 <= j < |colls| => colls[j].collectionName)
  }

  function CallsOf(sets: seq<NsRwSet>): seq<ChaincodeCall> {
    seq(|sets|, i requires 0 <= i < |sets| =>
      ChaincodeCall(sets[i].nameSpace, CollectionNames(sets[i].collHashedRwSets)))
  }

  function ChainOf(cs: ResponseCodecs, response: ProposalResponse): Result<seq<ChaincodeCall>> {
    var sets :- RwSetsOf(cs, response.proposalResponse);
    Ok(CallsOf(sets))
  }

  method GetRWSetsFromProposalResponse(cs: ResponseCodecs, response: Option<Bytes>) returns (r: Result<seq<NsRwSet>>)
    ensures r == RwSetsOf(cs, response)
  {
    if response.None? {
      return Ok([]);
    }
    var payload :- cs.payload.unmarshal(response.value);
    var action :- cs.action.unmarshal(payload.extension);
    if |action.results| == 0 {
      return Ok([]);
    }
    var txRwSet := new TxRwSet();
    var err := txRwSet.FromProtoBytes(cs.rw, action.results);
    if err.Some? {
      return Err(err.value);
    }
    return Ok(txRwSet.nsRwSets);
  }

  method GetInvocationChainFromResponse(cs: ResponseCodecs, response: ProposalResponse)
    returns (r: Result<seq<ChaincodeCall>>)
    ensures r == ChainOf(cs, response)
  {
    var sets :- GetRWSetsFromProposalResponse(cs, response.proposalResponse);
    var chain := new ChaincodeCall[|sets|](_ => ChaincodeCall("", []));
    for i := 0 to |sets|
      invariant forall k :: 0 <= k < i ==> chain[k] == CallsOf(sets)[k]
    {
      var colls := sets[i].collHashedRwSets;
      var names := new string[|colls|](_ => "");
      for j := 0 to |colls|
        modifies names
        invariant forall k :: 0 <= k < j ==> names[k] == colls[k].collectionName
      {
        names[j] := colls[j].collectionName;
      }
      assert names[..] == CollectionNames(colls);
      chain[i] := ChaincodeCall(sets[i].nameSpace, names[..]);
    }
    assert chain[..] == CallsOf(sets);
    return Ok(chain[..]);
  }

  /** One call for each set, in order, with the names of its collections in order. */
  ghost predicate NamesOf(calls: seq<ChaincodeCall>, sets: seq<NsRwSet>) {
    && |calls| == |sets|
    && forall i :: 0 <= i < |sets| ==>
         && calls[i].id == sets[i].nameSpace
         && |calls[i].collections| == |sets[i].collHashedRwSets|
         && forall j :: 0 <= j < |sets[i].collHashedRwSets| ==>
              calls[i].collections[j] == sets[i].collHashedRwSets[j].collectionName
  }

  /** What is found in every case: nothing without a payload or without results; the error of the first
      level that cannot be read; otherwise a call for each set decoded from the results. */
  lemma ExtractionCases(cs: ResponseCodecs, response: ProposalResponse)
    ensures match response.proposalResponse
            case None => ChainOf(cs, response) == Ok([])
            case Some(bytes) =>
              match cs.payload.unmarshal(bytes)
              case Err(e) => ChainOf(cs, response) == Err(e)
              case Ok(p) =>
                match cs.action.unmarshal(p.extension)
                case Err(e) => ChainOf(cs, response) == Err(e)
                case Ok(a) =>
                  if a.results == [] then ChainOf(cs, response) == Ok([])
                  else
                    match TxFromBytes(cs.rw, a.results)
                    case Err(e) => ChainOf(cs, response) == Err(e)
                    case Ok(sets) => ChainOf(cs, response).Ok? && NamesOf(ChainOf(cs, response).value, sets)
  {
    assert CallsOf([]) == [];
  }

  /** The shortcut for empty results agrees with decoding the empty bytes. */
  lemma ShortcutAgrees(cs: ResponseCodecs)
    requires SoundCodecs(cs) && DefaultIsEmpty(cs)
    ensures TxFromBytes(cs.rw, []) == Ok([])
  {
  }

  /** For a response built from any transaction set, extraction gives exactly the namespaces with
      their collection names, in order: whatever else the payload and the action carry. */
  lemma ExtractionInvertsEncoding(
      cs: ResponseCodecs, sets: seq<NsRwSet>, action: ChaincodeAction, payload: ResponsePayload,
      response: ProposalResponse)
    requires SoundCodecs(cs) && DefaultIsEmpty(cs)
    requires TxToBytes(cs.rw, sets) == Ok(action.results)
    requires cs.action.marshal(Some(action)) == Ok(payload.extension)
    requires response.proposalResponse.Some?
    requires cs.payload.marshal(Some(payload)) == Ok(response.proposalResponse.value)
    ensures ChainOf(cs, response).Ok?
    ensures NamesOf(ChainOf(cs, response).value, sets)
  {
    TxBytesRoundTrip(cs.rw, sets);
    ShortcutAgrees(cs);
    assert cs.payload.unmarshal(response.proposalResponse.value) == Ok(payload);
    assert cs.action.unmarshal(payload.extension) == Ok(action);
    assert RwSetsOf(cs, response.proposalResponse) == Ok(sets);
  }
}
