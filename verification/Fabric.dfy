/** Peers, proposal responses and the processors a signed proposal is sent to. */
module Fabric {
  import opened Common

  datatype Peer = Peer(url: string, mspID: string)

  /** A peer's answer to a proposal. `chaincodePayload` is the payload of the chaincode response inside
      the proposal response; `proposalResponse` is the proposal response's own payload, if there is one. */
  datatype ProposalResponse = ProposalResponse(
    endorser: string,
    chaincodeStatus: int,
    chaincodePayload: Bytes,
    proposalResponse: Option<Bytes>)

  /** A transaction's validation code. */
  type Code = int
  const VALID: Code := 0

  /** A proposal processor: nil, a peer, or something else that processes proposals. */
  datatype Target = NilTarget | PeerTarget(peer: Peer) | OtherTarget(name: string)

  function Processors(peers: seq<Peer>): seq<Target> {
    seq(|peers|, i requires 0 <= i < |peers| => PeerTarget(peers[i]))
  }
}
