/** The client's side of submitting an envelope: read the transaction id, register for its status,
    broadcast, wait, and unregister on every path. */
module Submit {
  import opened Common
  import opened Fabric
  import TxnFlow
  import opened Orderers
  import CommitWait

  /** The calls made to the event service and to the orderers, in order. */
  datatype Call = Register(txID: string) | Send(position: nat) | Unregister(txID: string)

  class Journal {
    var calls: seq<Call>

    constructor ()
      ensures calls == []
    {
      calls := [];
    }

    method Add(more: seq<Call>)
      modifies this
      ensures calls == old(calls) + more
    {
      calls := calls + more;
    }
  }

  /** What ends the wait: a status on the notifier, or the request's context. */
  datatype Wakeup = Notified(code: Code) | Expired

  /** What the request finds around it. `transactor` is an error, something that is not the delegate
      transactor, or the delegate transactor's orderers. */
  datatype Service = Service(
    optionsError: Option<Error>,
    transactor: Result<Option<seq<Orderer>>>,
    hasClientContext: bool,
    register: string -> Option<Error>,
    send: Sender,
    wait: string -> Wakeup)

  function Sends(tried: seq<nat>): seq<Call> {
    seq(|tried|, i requires 0 <= i < |tried| => Send(tried[i]))
  }

  /** The calls of a request that got as far as registering. */
  function Bracketed(txID: string, tried: seq<nat>): seq<Call> {
    [Register(txID)] + Sends(tried) + [Unregister(txID)]
  }

  /** What is between registration and unregistration: one send for each orderer tried, in order. */
  lemma BracketedExactly(txID: string, tried: seq<nat>)
    ensures |Bracketed(txID, tried)| == |tried| + 2
    ensures Bracketed(txID, tried)[0] == Register(txID)
    ensures forall k :: 0 <= k < |tried| ==> Bracketed(txID, tried)[k + 1] == Send(tried[k])
    ensures Bracketed(txID, tried)[|tried| + 1] == Unregister(txID)
  {
  }

  /** How the result of a request that registered reads as a verdict of the commit wait. */
  predicate Reports(verdict: CommitWait.Verdict, code: Code, err: Option<Error>) {
    match verdict
    case Valid => err.None? && code == VALID
    case Invalid(c) => err.Some? && code == c != VALID
    case TimedOut => err == Some(EXPIRED) && code == VALID
    case Failed(e) => err == Some(e) && code == VALID
  }

  /** A request that registered and sent the envelope to `n` orderers did what a run of the commit wait does. */
  ghost predicate IsRequest(txID: string, n: nat, run: seq<CommitWait.State>, code: Code, err: Option<Error>) {
    && CommitWait.IsRun(txID, n, run)
    && run[|run| - 1].client.Returned?
    && Reports(run[|run| - 1].client.verdict, code, err)
  }

  const EXPIRED := Status("Timeout", "Execute didn't receive block event")

  /** The run of the commit wait for a request that sent the envelope to `n` orderers. */
  lemma RequestRun(txID: string, n: nat, taken: bool, wake: Wakeup, code: Code, err: Option<Error>)
      returns (run: seq<CommitWait.State>)
    requires taken ==> n > 0
    requires !taken ==> code == VALID && err.Some?
    requires taken && wake.Notified? ==> code == wake.code && (err.None? <==> code == VALID)
    requires taken && wake.Expired? ==> code == VALID && err == Some(EXPIRED)
    ensures IsRequest(txID, n, run, code, err)
  {
    if !taken {
      run := CommitWait.AllRefuseRun(txID, n, err.value);
    } else if wake.Notified? {
      run := CommitWait.NotifiedRun(txID, n, code);
    } else {
      run := CommitWait.ExpiredRun(txID, n);
    }
  }

  /** Some orderer can be reached and takes the envelope. */
  predicate Taken(service: Service, orderers: seq<Orderer>) {
    service.hasClientContext && exists o :: o in orderers && service.send(o).None?
  }

  /** The code and error of a request that registered, by what ended it. */
  predicate Answered(service: Service, orderers: seq<Orderer>, txID: string, code: Code, err: Option<Error>) {
    if Taken(service, orderers) then
      match service.wait(txID)
      case Expired => code == VALID && err == Some(EXPIRED)
      case Notified(c) =>
        && code == c
        && err == if c == VALID then None else Some(Status("EventServerStatus", "received invalid transaction"))
    else
      && code == VALID && err.Some?
      && err.value.Wrapped? && err.value.msg == "failed to broadcast signed envelope"
  }

  /** The sends and the wait. The error is nil exactly if some orderer takes the envelope and the status that
      ends the wait is VALID. */
  method Deliver(service: Service, orderers: seq<Orderer>, txID: string, order: seq<nat>)
    returns (code: Code, err: Option<Error>, tried: seq<nat>)
    requires Permutation(order, |orderers|)
    ensures tried <= order
    ensures Taken(service, orderers) ==>
              && tried != []
              && match service.wait(txID)
                 case Expired => code == VALID && err == Some(Status("Timeout", "Execute didn't receive block event"))
                 case Notified(c) =>
                   && code == c
                   && err == if c == VALID then None
                             else Some(Status("EventServerStatus", "received invalid transaction"))
    ensures !Taken(service, orderers) ==>
              && code == VALID && err.Some?
              && err.value.Wrapped? && err.value.msg == "failed to broadcast signed envelope"
  {
    var resp, failure;
    code, err := VALID, None;
    resp, failure, tried := Orderers.BroadcastEnvelope(orderers, service.hasClientContext, order, service.send);
    if failure.Some? {
      err := Some(Wrapped("failed to broadcast signed envelope", failure.value));
      return;
    }
    match service.wait(txID) {
      case Notified(c) =>
        code := c;
        if c != VALID {
          err := Some(Status("EventServerStatus", "received invalid transaction"));
        }
      case Expired =>
        err := Some(EXPIRED);
    }
  }

  /** The part of a request that follows a successful registration, up to the deferred unregistration. */
  method SendAndWait(
      journal: Journal, service: Service, orderers: seq<Orderer>, txID: string, order: seq<nat>)
    returns (code: Code, err: Option<Error>, ghost tried: seq<nat>, ghost run: seq<CommitWait.State>)
    requires Permutation(order, |orderers|)
    modifies journal
    ensures tried <= order && journal.calls == old(journal.calls) + Bracketed(txID, tried)
    ensures IsRequest(txID, |tried|, run, code, err)
    ensures err.None? <==> Taken(service, orderers) && service.wait(txID) == Notified(VALID)
    ensures Answered(service, orderers, txID, code, err)
  {
    var positions;
    journal.Add([Register(txID)]);
    code, err, positions := Deliver(service, orderers, txID, order);
    tried := positions;
    run := RequestRun(txID, |tried|, Taken(service, orderers), service.wait(txID), code, err);
    journal.Add(Sends(positions));
    journal.Add([Unregister(txID)]);
    assert journal.calls == old(journal.calls) + Bracketed(txID, tried);
  }

  /** `code` is the validation code of the response, which is VALID unless a status said otherwise.
      `order` is the order in which the orderers are drawn. A registration is made if and only if there is an
      id, no option error, a delegate transactor, and the event service takes it; with one, every send comes
      after it, exactly one unregistration comes last, and the request is a run of the commit wait. The
      error is nil if and only if, in addition, some orderer takes the envelope and a VALID status of its own
      transaction ends the wait. */
  method BroadcastEnvelope(
      journal: Journal, cs: TxnFlow.FlowCodecs, service: Service, payload: Bytes, order: seq<nat>)
    returns (code: Code, err: Option<Error>, panicked: bool, ghost run: seq<CommitWait.State>)
    requires service.transactor.Ok? && service.transactor.value.Some? ==>
               Permutation(order, |service.transactor.value.value|)
    modifies journal
    ensures var id := TxnFlow.GetTxnIDFromPayloadBytes(cs, payload);
            && (panicked <==> id.Panicked?)
            && if id.Done? && service.optionsError.None?
                  && service.transactor.Ok? && service.transactor.value.Some?
                  && service.register(id.value).None?
               then
                 exists tried :: tried <= order
                   && journal.calls == old(journal.calls) + Bracketed(id.value, tried)
                   && IsRequest(id.value, |tried|, run, code, err)
                   && Answered(service, service.transactor.value.value, id.value, code, err)
               else journal.calls == old(journal.calls) && code == VALID && (panicked || err.Some?)
    ensures var id := TxnFlow.GetTxnIDFromPayloadBytes(cs, payload);
            !panicked && err.None? <==>
            && id.Done? && service.optionsError.None?
            && service.transactor.Ok? && service.transactor.value.Some?
            && service.register(id.value).None?
            && service.hasClientContext
            && (exists o :: o in service.transactor.value.value && service.send(o).None?)
            && service.wait(id.value) == Notified(VALID)
    ensures var id := TxnFlow.GetTxnIDFromPayloadBytes(cs, payload);
            && (id.Failed? ==> err == Some(Wrapped("failed to get txnID from envelope", id.error)))
            && (id.Done? && service.optionsError.Some? ==> err == service.optionsError)
            && (id.Done? && service.optionsError.None? && service.transactor.Err? ==>
                  err == Some(Wrapped("preparation of channel config failed", service.transactor.error)))
            && (id.Done? && service.optionsError.None? && service.transactor == Ok(None) ==>
                  err == Some(Plain("not delegate transactor")))
            && (id.Done? && service.optionsError.None? && service.transactor.Ok? && service.transactor.value.Some?
                && service.register(id.value).Some? ==>
                  err == Some(Wrapped("failed to register tx event", service.register(id.value).value)))
  {
    code, err, panicked, run := VALID, None, false, [];
    var id := TxnFlow.GetTxnIDFromPayloadBytes(cs, payload);
    match id {
      case Panicked =>
        panicked := true;
        return;
      case Failed(e) =>
        err := Some(Wrapped("failed to get txnID from envelope", e));
        return;
      case Done(_) =>
    }
    if service.optionsError.Some? {
      err := service.optionsError;
      return;
    }
    if service.transactor.Err? {
      err := Some(Wrapped("preparation of channel config failed", service.transactor.error));
      return;
    }
    if service.transactor.value.None? {
      err := Some(Plain("not delegate transactor"));
      return;
    }
    var refused := service.register(id.value);
    if refused.Some? {
      err := Some(Wrapped("failed to register tx event", refused.value));
      return;
    }
    ghost var tried;
    code, err, tried, run := SendAndWait(journal, service, service.transactor.value.value, id.value, order);
  }
}
