/** The delegated transaction from end to end: a client's proposal, the endorsements collected for it, the
    payload built from them, and the broadcast that waits for the client's own transaction. */
module Pipeline {
  import opened Common
  import opened Fabric
  import opened Chain
  import opened Endorsement
  import opened Coverage
  import opened Retry
  import opened TxnFlow
  import Race
  import Submit
  import CommitWait

  /** What the caller of the endorsement hands on: the responses, unless there was an error. */
  function Endorsed(caller: Race.Caller): Result<seq<ProposalResponse>>
    requires caller.Returned?
  {
    if caller.error.Some? then Err(caller.error.value) else Ok(caller.response.responses)
  }

  /** What the endorsement call for a chaincode returns. */
  type Endorser = string -> Result<seq<ProposalResponse>>

  /** `payloadBytes` is the serialised payload made of the request and the endorsements. */
  ghost predicate Built(cs: FlowCodecs, build: Builder, q: Request, endorse: Endorser, payloadBytes: Bytes) {
    var payload := EndorseAndCreatePayload(cs, build, q.bytes, endorse);
    payload.Done? && cs.payload.marshal(Some(payload.value)) == Ok(payloadBytes)
  }

  /** The endorsement call made for a request, with the user's targets, if any: it is made for the chaincode
      that was read from the proposal, which is all its chain holds, and `caller` is how it returned. */
  ghost predicate CallFor(
      cs: FlowCodecs, q: Request, c: Race.Call, policy: RetryPolicy, run: seq<Race.State>, endorse: Endorser)
  {
    && ReadChaincode(cs, q.bytes) == Done(c.init.primary)
    && c.init == Start(c.init.primary, [], c.init.targets)
    && IsCompleteRun(c.init, c.tries, policy)
    && Race.IsRun(c, run) && run[|run| - 1].caller.Returned?
    && endorse(c.init.primary) == Endorsed(run[|run| - 1].caller)
  }

  /** The chaincode endorsed is the client's. */
  lemma CallIsForClientsChaincode(
      cs: FlowCodecs, q: Request, c: Race.Call, policy: RetryPolicy, run: seq<Race.State>, endorse: Endorser)
    requires SoundFlow(cs) && Serialised(cs, q) && CallFor(cs, q, c, policy, run, endorse)
    ensures q.extension.chaincodeName == Some(c.init.primary)
  {
    PayloadExactly(cs, (_, _, _) => Err(Plain("")), q, endorse);
  }

  /** The payload is the client's: it has the client's header and the transaction built for the client's
      own id from the client's proposal and the given responses. */
  ghost predicate Carries(
      cs: FlowCodecs, build: Builder, q: Request, responses: seq<ProposalResponse>, payloadBytes: Bytes)
  {
    exists data :: build(q.channelHeader.txId, q.proposal, responses) == Ok(data)
                   && cs.payload.unmarshal(payloadBytes) == Ok(Payload(Some(q.header), data))
  }

  /** What is in the payload, with or without user targets: the endorsement call returned without an error,
      the payload carries its responses, which are those of one attempt, one for each peer it asked, and
      the id read back is the client's. */
  lemma PayloadIsOwn(
      cs: FlowCodecs, build: Builder, q: Request, c: Race.Call, run: seq<Race.State>, policy: RetryPolicy,
      endorse: Endorser, payloadBytes: Bytes)
    requires SoundFlow(cs) && Serialised(cs, q) && CallFor(cs, q, c, policy, run, endorse)
    requires Built(cs, build, q, endorse, payloadBytes)
    ensures var caller, last := run[|run| - 1].caller, c.tries[|c.tries| - 1];
            var s, responses := StartAt(c.init, c.tries, |c.tries| - 1), caller.response.responses;
            && caller.error.None?
            && Carries(cs, build, q, responses, payloadBytes)
            && FirstTargets(last.env, s).Ok?
            && |responses| == |Asked(last.env, s, last.first)| > 0
            && AllAnswered(last.env, Asked(last.env, s, last.first), responses)
            && last.env.next(Race.Final(c)) == None && Race.Final(c).response.responses == responses
    ensures GetTxnIDFromPayloadBytes(cs, payloadBytes) == Done(q.channelHeader.txId)
  {
    var caller := run[|run| - 1].caller;
    CallIsForClientsChaincode(cs, q, c, policy, run, endorse);
    PayloadReadBack(cs, build, q, endorse, payloadBytes);
    Race.ReturnedIsValidated(c, run);
    Race.RaceIsSafe(c, run);
    SuccessfulRunAccounting(c.init, c.tries, policy);
  }

  lemma PayloadReadBack(cs: FlowCodecs, build: Builder, q: Request, endorse: Endorser, payloadBytes: Bytes)
    requires SoundFlow(cs) && Serialised(cs, q) && Built(cs, build, q, endorse, payloadBytes)
    ensures q.extension.chaincodeName.Some? && endorse(q.extension.chaincodeName.value).Ok?
    ensures Carries(cs, build, q, endorse(q.extension.chaincodeName.value).value, payloadBytes)
    ensures GetTxnIDFromPayloadBytes(cs, payloadBytes) == Done(q.channelHeader.txId)
  {
    IdSurvivesPipeline(cs, build, q, endorse, payloadBytes);
    PayloadExactly(cs, build, q, endorse);
    var payload := EndorseAndCreatePayload(cs, build, q.bytes, endorse).value;
    assert cs.payload.unmarshal(payloadBytes) == Ok(Payload(Some(q.header), payload.data));
  }

  /** Without user targets, the responses in the payload satisfy every policy that was promised for the
      proposal's chaincode and for all that the last attempt's first response touched. */
  lemma PayloadIsCovered(
      cs: FlowCodecs, build: Builder, q: Request, c: Race.Call, run: seq<Race.State>, policy: RetryPolicy,
      endorse: Endorser, payloadBytes: Bytes, orgOf: string -> string, promise: Policy)
    requires SoundFlow(cs) && Serialised(cs, q) && CallFor(cs, q, c, policy, run, endorse) && c.init.targets == []
    requires Built(cs, build, q, endorse, payloadBytes)
    requires FirstTargets(c.tries[|c.tries| - 1].env, StartAt(c.init, c.tries, |c.tries| - 1)).Ok?
    requires SoundAttempt(c.tries[|c.tries| - 1], StartAt(c.init, c.tries, |c.tries| - 1), orgOf, promise)
    ensures var caller, last := run[|run| - 1].caller, c.tries[|c.tries| - 1];
            var msps := EndorsingMsps(orgOf, caller.response.responses);
            && Carries(cs, build, q, caller.response.responses, payloadBytes)
            && Satisfies(promise, msps, Discovered(last.env, c.init, last.first).value)
            && q.extension.chaincodeName.Some? && promise(msps, Chaincode(q.extension.chaincodeName.value))
  {
    CallIsForClientsChaincode(cs, q, c, policy, run, endorse);
    PayloadReadBack(cs, build, q, endorse, payloadBytes);
    Race.ReturnedEndorsementsAreCovered(c, run, policy, orgOf, promise);
    var chain := NewChain(c.init.primary, ChainAt(c.init, c.tries, |c.tries| - 1));
    assert CallMentions(chain[0], Chaincode(c.init.primary));
  }

  /** Broadcasting the signed payload: the only transaction registered for and unregistered is the client's
      own, exactly if the service lets it register; and the error is nil exactly if in addition some orderer
      takes the envelope and the VALID status of the client's own transaction comes. */
  method SubmitOwn(
      journal: Submit.Journal, cs: FlowCodecs, service: Submit.Service, order: seq<nat>,
      ghost build: Builder, ghost q: Request, ghost endorse: Endorser, payloadBytes: Bytes)
    returns (code: Code, err: Option<Error>, ghost run: seq<CommitWait.State>)
    requires SoundFlow(cs) && Serialised(cs, q) && Built(cs, build, q, endorse, payloadBytes)
    requires service.transactor.Ok? && service.transactor.value.Some? ==>
               Permutation(order, |service.transactor.value.value|)
    modifies journal
    ensures if service.optionsError.None? && service.transactor.Ok? && service.transactor.value.Some?
               && service.register(q.channelHeader.txId).None?
            then exists tried :: tried <= order
                   && journal.calls == old(journal.calls) + Submit.Bracketed(q.channelHeader.txId, tried)
                   && Submit.IsRequest(q.channelHeader.txId, |tried|, run, code, err)
            else journal.calls == old(journal.calls) && err.Some?
    ensures err.None? <==>
            && service.optionsError.None? && service.transactor.Ok? && service.transactor.value.Some?
            && service.register(q.channelHeader.txId).None?
            && service.hasClientContext
            && (exists o :: o in service.transactor.value.value && service.send(o).None?)
            && service.wait(q.channelHeader.txId) == Submit.Notified(VALID)
  {
    IdSurvivesPipeline(cs, build, q, endorse, payloadBytes);
    var panicked;
    code, err, panicked, run := Submit.BroadcastEnvelope(journal, cs, service, payloadBytes, order);
  }

  /** From proposal to commit, over every schedule of the endorsement call without user targets and every
      run of the commit wait for the id in the payload: a nil error means that some orderer was sent the
      envelope and that a VALID status of the client's own transaction id reached the client; and the
      payload submitted carries endorsements that satisfy the promised policies for all that the
      transaction was found to touch. */
  lemma SubmittedIsOwnAndCovered(
      cs: FlowCodecs, build: Builder, q: Request, c: Race.Call, run: seq<Race.State>, policy: RetryPolicy,
      endorse: Endorser, payloadBytes: Bytes, orgOf: string -> string, promise: Policy, n: nat,
      wait: seq<CommitWait.State>)
    requires SoundFlow(cs) && Serialised(cs, q) && CallFor(cs, q, c, policy, run, endorse) && c.init.targets == []
    requires Built(cs, build, q, endorse, payloadBytes)
    requires FirstTargets(c.tries[|c.tries| - 1].env, StartAt(c.init, c.tries, |c.tries| - 1)).Ok?
    requires SoundAttempt(c.tries[|c.tries| - 1], StartAt(c.init, c.tries, |c.tries| - 1), orgOf, promise)
    requires GetTxnIDFromPayloadBytes(cs, payloadBytes).Done?
    requires CommitWait.IsRun(GetTxnIDFromPayloadBytes(cs, payloadBytes).value, n, wait)
    requires wait[|wait| - 1].client == CommitWait.Returned(CommitWait.Valid)
    ensures wait[|wait| - 1].submitted && CommitWait.Heard(q.channelHeader.txId, wait[|wait| - 1], VALID)
    ensures Carries(cs, build, q, run[|run| - 1].caller.response.responses, payloadBytes)
    ensures Satisfies(promise, EndorsingMsps(orgOf, run[|run| - 1].caller.response.responses),
                      Discovered(c.tries[|c.tries| - 1].env, c.init, c.tries[|c.tries| - 1].first).value)
  {
    PayloadIsOwn(cs, build, q, c, run, policy, endorse, payloadBytes);
    PayloadIsCovered(cs, build, q, c, run, policy, endorse, payloadBytes, orgOf, promise);
    CommitWait.CommitWaitIsSafe(q.channelHeader.txId, n, wait);
  }
}
