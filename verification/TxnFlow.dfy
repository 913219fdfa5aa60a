/** How the transaction id travels: from the client's proposal, through the transaction payload the
    delegate builds from the endorsements, to the envelope whose commit is waited for. */
module TxnFlow {
  import opened Common
  import opened Fabric
  import opened RwSet

  datatype Proposal = Proposal(header: Bytes, payload: Bytes)
  datatype Header = Header(channelHeader: Bytes, signatureHeader: Bytes)
  datatype ChannelHeader = ChannelHeader(channelId: string, txId: string, extension: Bytes)
  datatype HeaderExtension = HeaderExtension(chaincodeName: Option<string>)
  datatype Payload = Payload(header: Option<Header>, data: Bytes)

  datatype FlowCodecs = FlowCodecs(
    proposal: Codec<Proposal>,
    header: Codec<Header>,
    channelHeader: Codec<ChannelHeader>,
    extension: Codec<HeaderExtension>,
    payload: Codec<Payload>)

  ghost predicate SoundFlow(cs: FlowCodecs) {
    && RoundTrips(cs.proposal) && RoundTrips(cs.header) && RoundTrips(cs.channelHeader)
    && RoundTrips(cs.extension) && RoundTrips(cs.payload)
  }

  /** The SDK's transaction builder followed by marshalling: bytes for an id, a proposal and responses. */
  type Builder = (string, Proposal, seq<ProposalResponse>) -> Result<Bytes>

  /** A Go call either returns a value or an error, or dereferences nil. */
  datatype Reply<+T> = Done(value: T) | Failed(error: Error) | Panicked

  const MISSING_CHANNEL := Plain("missing channel id")

  function GetChannelHeaderFromHeaderBytes(cs: FlowCodecs, bytes: Bytes): Result<ChannelHeader> {
    var h :- cs.header.unmarshal(bytes);
    var c :- cs.channelHeader.unmarshal(h.channelHeader);
    if c.channelId == "" then Err(MISSING_CHANNEL) else Ok(c)
  }

  function GetChaincodeIDFromExtension(cs: FlowCodecs, extension: Bytes): Reply<string> {
    match cs.extension.unmarshal(extension)
    case Err(e) => Failed(e)
    case Ok(ext) => if ext.chaincodeName.None? then Panicked else Done(ext.chaincodeName.value)
  }

  function CreateTxnPayload(
      cs: FlowCodecs, build: Builder, txnID: string, proposal: Proposal, responses: seq<ProposalResponse>)
    : Result<Payload>
  {
    var data :- build(txnID, proposal, responses);
    var h :- cs.header.unmarshal(proposal.header);
    Ok(Payload(Some(h), data))
  }

  function GetTxnIDFromPayloadBytes(cs: FlowCodecs, bytes: Bytes): Reply<string> {
    match cs.payload.unmarshal(bytes)
    case Err(e) => Failed(e)
    case Ok(p) =>
      if p.header.None? then Panicked
      else
        match cs.channelHeader.unmarshal(p.header.value.channelHeader)
        case Err(e) => Failed(e)
        case Ok(c) => if c.channelId == "" then Failed(MISSING_CHANNEL) else Done(c.txId)
  }

  /** The chaincode a proposal is for, as `DelegateEndorseAndCreateTxnPayload` reads it. */
  function ReadChaincode(cs: FlowCodecs, proposalBytes: Bytes): Reply<string> {
    match cs.proposal.unmarshal(proposalBytes)
    case Err(e) => Failed(e)
    case Ok(proposal) =>
      match GetChannelHeaderFromHeaderBytes(cs, proposal.header)
      case Err(e) => Failed(e)
      case Ok(chh) => GetChaincodeIDFromExtension(cs, chh.extension)
  }

  /** `DelegateEndorseAndCreateTxnPayload` around the endorsement itself: `endorse` is what the endorsement
      call for a chaincode returns. */
  function EndorseAndCreatePayload(
      cs: FlowCodecs, build: Builder, proposalBytes: Bytes, endorse: string -> Result<seq<ProposalResponse>>)
    : Reply<Payload>
  {
    match ReadChaincode(cs, proposalBytes)
    case Failed(e) => Failed(e)
    case Panicked => Panicked
    case Done(name) =>
      match endorse(name)
      case Err(e) => Failed(Wrapped("failed to invoke handlers", e))
      case Ok(responses) =>
        var proposal := cs.proposal.unmarshal(proposalBytes).value;
        var chh := GetChannelHeaderFromHeaderBytes(cs, proposal.header).value;
        match CreateTxnPayload(cs, build, chh.txId, proposal, responses)
        case Err(e) => Failed(Wrapped("failed to create txn payload with endorsement results", e))
        case Ok(p) => Done(p)
  }

  // ----- a client's proposal

  /** A client's proposal with the messages it is made of. */
  datatype Request = Request(
    extension: HeaderExtension,
    channelHeader: ChannelHeader,
    header: Header,
    proposal: Proposal,
    bytes: Bytes)

  ghost predicate Serialised(cs: FlowCodecs, q: Request) {
    && cs.extension.marshal(Some(q.extension)) == Ok(q.channelHeader.extension)
    && cs.channelHeader.marshal(Some(q.channelHeader)) == Ok(q.header.channelHeader)
    && cs.header.marshal(Some(q.header)) == Ok(q.proposal.header)
    && cs.proposal.marshal(Some(q.proposal)) == Ok(q.bytes)
  }

  lemma ReadBack(cs: FlowCodecs, q: Request)
    requires SoundFlow(cs) && Serialised(cs, q)
    ensures cs.proposal.unmarshal(q.bytes) == Ok(q.proposal)
    ensures cs.header.unmarshal(q.proposal.header) == Ok(q.header)
    ensures cs.channelHeader.unmarshal(q.header.channelHeader) == Ok(q.channelHeader)
    ensures cs.extension.unmarshal(q.channelHeader.extension) == Ok(q.extension)
  {
  }

  /** What is made of a client's proposal, in every case: it is refused without a channel; without a
      chaincode the header extension's nil is dereferenced; otherwise exactly the client's chaincode is
      endorsed, and the payload holds the client's header and the transaction built for the client's id. */
  lemma PayloadExactly(cs: FlowCodecs, build: Builder, q: Request, endorse: string -> Result<seq<ProposalResponse>>)
    requires SoundFlow(cs) && Serialised(cs, q)
    ensures EndorseAndCreatePayload(cs, build, q.bytes, endorse) ==
            if q.channelHeader.channelId == "" then Failed(Plain("missing channel id"))
            else
              match q.extension.chaincodeName
              case None => Panicked
              case Some(name) =>
                match endorse(name)
                case Err(e) => Failed(Wrapped("failed to invoke handlers", e))
                case Ok(responses) =>
                  match build(q.channelHeader.txId, q.proposal, responses)
                  case Err(e) => Failed(Wrapped("failed to create txn payload with endorsement results", e))
                  case Ok(data) => Done(Payload(Some(q.header), data))
    ensures ReadChaincode(cs, q.bytes).Done? <==>
            q.channelHeader.channelId != "" && q.extension.chaincodeName.Some?
    ensures ReadChaincode(cs, q.bytes).Done? ==> q.extension.chaincodeName == Some(ReadChaincode(cs, q.bytes).value)
  {
    ReadBack(cs, q);
  }

  /** Bytes that cannot be read at some level end the call with the error of that level, before anything is
      endorsed. */
  lemma UnreadableFails(cs: FlowCodecs, build: Builder, bytes: Bytes, endorse: string -> Result<seq<ProposalResponse>>)
    ensures cs.proposal.unmarshal(bytes).Err? ==>
              EndorseAndCreatePayload(cs, build, bytes, endorse) == Failed(cs.proposal.unmarshal(bytes).error)
    ensures forall p :: cs.proposal.unmarshal(bytes) == Ok(p) && cs.header.unmarshal(p.header).Err? ==>
              EndorseAndCreatePayload(cs, build, bytes, endorse) == Failed(cs.header.unmarshal(p.header).error)
    ensures forall p, h :: cs.proposal.unmarshal(bytes) == Ok(p) && cs.header.unmarshal(p.header) == Ok(h)
                           && cs.channelHeader.unmarshal(h.channelHeader).Err? ==>
              EndorseAndCreatePayload(cs, build, bytes, endorse) ==
              Failed(cs.channelHeader.unmarshal(h.channelHeader).error)
    ensures forall p, h, c :: cs.proposal.unmarshal(bytes) == Ok(p) && cs.header.unmarshal(p.header) == Ok(h)
                              && cs.channelHeader.unmarshal(h.channelHeader) == Ok(c) && c.channelId != ""
                              && cs.extension.unmarshal(c.extension).Err? ==>
              EndorseAndCreatePayload(cs, build, bytes, endorse) == Failed(cs.extension.unmarshal(c.extension).error)
  {
  }

  /** Waiting on one's own transaction: the id read from the serialised payload is the id in the
      channel header of the proposal the payload was made from. */
  lemma IdSurvivesPayload(
      cs: FlowCodecs, build: Builder, proposal: Proposal, responses: seq<ProposalResponse>, txnID: string,
      payloadBytes: Bytes)
    requires SoundFlow(cs) && GetChannelHeaderFromHeaderBytes(cs, proposal.header).Ok?
    requires CreateTxnPayload(cs, build, txnID, proposal, responses).Ok?
    requires cs.payload.marshal(Some(CreateTxnPayload(cs, build, txnID, proposal, responses).value)) == Ok(payloadBytes)
    ensures GetTxnIDFromPayloadBytes(cs, payloadBytes) ==
            Done(GetChannelHeaderFromHeaderBytes(cs, proposal.header).value.txId)
  {
  }

  /** The whole way: a client puts a transaction id into a proposal and serialises it; whatever payload
      the delegate makes of it, the id read back from the envelope's payload is the client's, and the
      transaction in it was built for that id from the client's proposal and the endorsements that the
      call for the client's chaincode returned. */
  lemma IdSurvivesPipeline(
      cs: FlowCodecs, build: Builder, q: Request, endorse: string -> Result<seq<ProposalResponse>>,
      payloadBytes: Bytes)
    requires SoundFlow(cs) && Serialised(cs, q)
    requires EndorseAndCreatePayload(cs, build, q.bytes, endorse).Done?
    requires cs.payload.marshal(Some(EndorseAndCreatePayload(cs, build, q.bytes, endorse).value)) == Ok(payloadBytes)
    ensures GetTxnIDFromPayloadBytes(cs, payloadBytes) == Done(q.channelHeader.txId)
    ensures q.channelHeader.channelId != "" && q.extension.chaincodeName.Some?
    ensures endorse(q.extension.chaincodeName.value).Ok?
    ensures build(q.channelHeader.txId, q.proposal, endorse(q.extension.chaincodeName.value).value) ==
            Ok(EndorseAndCreatePayload(cs, build, q.bytes, endorse).value.data)
  {
    ReadBack(cs, q);
    PayloadExactly(cs, build, q, endorse);
  }

  /** Exactly when an id can be read from a payload, and which it is; when the attempt dereferences a missing
      header; and with which error it fails. */
  lemma TxnIDReadableIff(cs: FlowCodecs, payload: Payload, bytes: Bytes)
    requires RoundTrips(cs.payload) && cs.payload.marshal(Some(payload)) == Ok(bytes)
    ensures GetTxnIDFromPayloadBytes(cs, bytes).Panicked? <==> payload.header.None?
    ensures GetTxnIDFromPayloadBytes(cs, bytes).Done? <==>
              && payload.header.Some?
              && cs.channelHeader.unmarshal(payload.header.value.channelHeader).Ok?
              && cs.channelHeader.unmarshal(payload.header.value.channelHeader).value.channelId != ""
    ensures GetTxnIDFromPayloadBytes(cs, bytes).Done? ==>
              GetTxnIDFromPayloadBytes(cs, bytes).value ==
              cs.channelHeader.unmarshal(payload.header.value.channelHeader).value.txId
    ensures GetTxnIDFromPayloadBytes(cs, bytes).Failed? ==>
              match cs.channelHeader.unmarshal(payload.header.value.channelHeader)
              case Err(e) => GetTxnIDFromPayloadBytes(cs, bytes) == Failed(e)
              case Ok(_) => GetTxnIDFromPayloadBytes(cs, bytes) == Failed(Plain("missing channel id"))
  {
  }
}
