/** The two-phase endorsement handler: select endorsers, fan the proposal out to them, discover what
    the first response touched, select again, and ask only the organisations not yet asked. */
module Endorsement {
  import opened Common
  import opened Fabric
  import opened Chain
  import opened SharedMerge
  import opened FanOut
  import opened Extraction

  datatype Response = Response(responses: seq<ProposalResponse>, payload: Bytes, chaincodeStatus: int)

  const NO_RESPONSE := Response([], [], 0)

  /** The fields of a request context that handlers read and write. */
  datatype Ctx = Ctx(
    primary: string,
    chain: seq<ChaincodeCall>,
    targets: seq<Peer>,
    error: Option<Error>,
    response: Response)

  /** What one attempt finds around it. `selection` is the SDK's selection service for the request's
      filter and sorter, given a chain and, in the second phase, the peers to prefer; `room` is how much
      fits into the memory of the calls of the rebuilt chain; `process n` is what the processors answer in
      the n-th send; `next` is the error the next handler reports. */
  datatype Env = Env(
    hasProposal: bool,
    delegateTransactor: bool,
    hasClientContext: bool,
    ccFilter: Option<string -> bool>,
    room: Room,
    selection: (seq<ChaincodeCall>, Option<seq<Peer>>) -> Result<seq<Peer>>,
    process: (nat, Target) -> Outcome,
    codecs: ResponseCodecs,
    next: Ctx -> Option<Error>)

  predicate LsccFilter(ccID: string) {
    ccID != "lscc" && ccID != "_lifecycle"
  }

  function GetCCFilter(env: Env): string -> bool {
    match env.ccFilter
    case None => LsccFilter
    case Some(f) => ccID => LsccFilter(ccID) && f(ccID)
  }

  predicate ContainsMSP(peers: seq<Peer>, mspID: string) {
    exists i :: 0 <= i < |peers| && peers[i].mspID == mspID
  }

  /** The endorsers whose organisation has not been asked, in order. */
  function Lacking(asked: seq<Peer>, endorsers: seq<Peer>): seq<Peer> {
    if endorsers == [] then []
    else
      var front := Lacking(asked, endorsers[..|endorsers| - 1]);
      var last := endorsers[|endorsers| - 1];
      if ContainsMSP(asked, last.mspID) then front else front + [last]
  }

  // ----- specification of one attempt

  /** The peers of the first send: the user's, or a selection for the rebuilt chain. */
  function FirstTargets(env: Env, s: Ctx): Result<seq<Peer>> {
    if s.targets == [] then env.selection(NewChain(s.primary, s.chain), None) else Ok(s.targets)
  }

  /** The calls found in the first response that the filter accepts. */
  function Discovered(env: Env, s: Ctx, first: Sent): Option<seq<ChaincodeCall>> {
    if s.targets != [] || first.responses == [] then None
    else
      match ChainOf(env.codecs, first.responses[0])
      case Err(_) => None
      case Ok(calls) => Some(Accepted(calls, GetCCFilter(env)))
  }

  /** Whether the second selection is entered. */
  predicate Reselects(env: Env, s: Ctx, first: Sent) {
    && Discovered(env, s, first).Some?
    && Changes(NewChain(s.primary, s.chain), Discovered(env, s, first).value)
  }

  /** The merged chain, as it looks when all calls have been merged. */
  function Merged(env: Env, s: Ctx, first: Sent): seq<ChaincodeCall>
    requires Discovered(env, s, first).Some?
  {
    ShownChain(NewChain(s.primary, s.chain), Discovered(env, s, first).value, env.room)
  }

  function Reselection(env: Env, s: Ctx, first: Sent): Result<seq<Peer>>
    requires FirstTargets(env, s).Ok? && Reselects(env, s, first)
  {
    env.selection(NewChain(s.primary, Merged(env, s, first)), Some(FirstTargets(env, s).value))
  }

  /** The peers of the second send. */
  function Additional(env: Env, s: Ctx, first: Sent): seq<Peer>
    requires FirstTargets(env, s).Ok?
  {
    if Reselects(env, s, first) && Reselection(env, s, first).Ok?
    then Lacking(FirstTargets(env, s).value, Reselection(env, s, first).value)
    else []
  }

  function Record(response: Response, responses: seq<ProposalResponse>): Response {
    if responses == [] then response.(responses := responses)
    else Response(responses, responses[0].chaincodePayload, responses[0].chaincodeStatus)
  }

  function RunNext(env: Env, s: Ctx): Ctx {
    if env.next(s).Some? then s.(error := env.next(s)) else s
  }

  predicate SecondSendFailed(env: Env, s: Ctx, first: Sent, additional: Sent)
    requires FirstTargets(env, s).Ok?
  {
    Additional(env, s, first) != [] && additional.err.Some?
  }

  /** Discovery, the second selection and the second send, from the context with the first batch recorded. */
  function SecondPhase(env: Env, s: Ctx, first: Sent, additional: Sent, recorded: Ctx): Ctx
    requires FirstTargets(env, s).Ok?
  {
    var more := Additional(env, s, first);
    var kept := if Reselects(env, s, first) then recorded.(chain := Merged(env, s, first)) else recorded;
    var asked := kept.(targets := more);
    if more == [] then kept
    else if additional.err.Some?
    then asked.(error := Some(Wrapped("error sending transaction proposal", additional.err.value)))
    else asked.(response := asked.response.(responses := asked.response.responses + additional.responses))
  }

  /** The context after one attempt, given what the two sends returned. */
  function Attempt(env: Env, s: Ctx, first: Sent, additional: Sent): Ctx {
    match FirstTargets(env, s)
    case Err(e) => s.(targets := [], error := Some(e))
    case Ok(targets) =>
      var selected := s.(targets := targets);
      if !env.hasProposal then selected.(error := Some(Plain("a signed proposal was not provided")))
      else if !env.delegateTransactor then selected.(error := Some(Plain("no delegate transactor")))
      else if first.err.Some? then selected.(error := first.err)
      else
        var recorded := selected.(response := Record(s.response, first.responses));
        var gathered := SecondPhase(env, s, first, additional, recorded);
        if SecondSendFailed(env, s, first, additional) then gathered else RunNext(env, gathered)
  }

  /** The contract of one send through the delegate transactor. */
  ghost predicate Delivered(env: Env, peers: seq<Peer>, n: nat, sent: Sent) {
    if !env.hasClientContext || !env.hasProposal || peers == [] then sent.responses == [] && sent.err.Some?
    else FannedOut(Processors(peers), (_, t) => env.process(n, t), sent)
  }

  predicate SendsFirst(env: Env, s: Ctx) {
    FirstTargets(env, s).Ok? && env.hasProposal && env.delegateTransactor
  }

  /** What the two sends of an attempt may have returned: every interleaving is allowed. */
  ghost predicate Allowed(env: Env, s: Ctx, first: Sent, additional: Sent) {
    SendsFirst(env, s) ==>
      && Delivered(env, FirstTargets(env, s).value, 0, first)
      && (first.err.None? && Additional(env, s, first) != [] ==>
            Delivered(env, Additional(env, s, first), 1, additional))
  }

  method TransactorSend(env: Env, peers: seq<Peer>, n: nat) returns (sent: Sent)
    ensures Delivered(env, peers, n, sent)
  {
    if !env.hasClientContext {
      return Sent([], Some(Plain("failed get client context from reqContext for SendSignedProposal")));
    }
    assert NilTarget !in Processors(peers);
    sent := SendSignedProposal(env.hasProposal, Processors(peers), (_, t) => env.process(n, t));
  }

  // ----- the handler

  class RequestContext {
    const chaincodeID: string
    var invocationChain: seq<ChaincodeCall>
    var targets: seq<Peer>
    var error: Option<Error>
    var response: Response

    ghost function State(): Ctx
      reads this
    {
      Ctx(chaincodeID, invocationChain, targets, error, response)
    }

    constructor (chaincodeID: string, invocationChain: seq<ChaincodeCall>, targets: seq<Peer>)
      ensures State() == Ctx(chaincodeID, invocationChain, targets, None, NO_RESPONSE)
    {
      this.chaincodeID := chaincodeID;
      this.invocationChain := invocationChain;
      this.targets := targets;
      error := None;
      response := NO_RESPONSE;
    }

    method GetEndorsers(env: Env, prefer: Option<seq<Peer>>)
      returns (ccCalls: seq<ChaincodeCall>, peers: Result<seq<Peer>>)
      ensures ccCalls == NewChain(chaincodeID, invocationChain)
      ensures peers == env.selection(ccCalls, prefer)
    {
      ccCalls := NewInvocationChain(chaincodeID, invocationChain);
      var forSelection := NewInvocationChain(chaincodeID, invocationChain);
      peers := env.selection(forSelection, prefer);
    }

    method GetAdditionalEndorsers(env: Env, ccCalls: seq<ChaincodeCall>) returns (r: Result<seq<Peer>>)
      requires response.responses != []
      modifies this`invocationChain
      ensures match ChainOf(env.codecs, response.responses[0])
              case Err(_) => r.Err? && invocationChain == old(invocationChain)
              case Ok(found) =>
                var calls := Accepted(found, GetCCFilter(env));
                if !Changes(ccCalls, calls) then r == Ok([]) && invocationChain == old(invocationChain)
                else
                  && invocationChain == ShownChain(ccCalls, calls, env.room)
                  && match env.selection(NewChain(chaincodeID, invocationChain), Some(targets))
                     case Err(_) => r.Err?
                     case Ok(endorsers) => r == Ok(Lacking(targets, endorsers))
    {
      var found := GetInvocationChainFromResponse(env.codecs, response.responses[0]);
      if found.Err? {
        return Err(Wrapped("error getting invocation chain from proposal response", found.error));
      }
      var chain, foundAdditional := MergeInvocationChains(ccCalls, found.value, GetCCFilter(env), env.room);
      if !foundAdditional {
        return Ok([]);
      }
      invocationChain := chain;
      var _, selected := GetEndorsers(env, Some(targets));
      if selected.Err? {
        return Err(Wrapped("error getting additional endorsers", selected.error));
      }
      var endorsers, additional: seq<Peer> := selected.value, [];
      for i := 0 to |endorsers|
        invariant additional == Lacking(targets, endorsers[..i])
      {
        assert endorsers[..i + 1][..i] == endorsers[..i];
        if !ContainsMSP(targets, endorsers[i].mspID) {
          additional := additional + [endorsers[i]];
        }
      }
      assert endorsers[..|endorsers|] == endorsers;
      return Ok(additional);
    }

    method RecordResponses(responses: seq<ProposalResponse>)
      modifies this`response
      ensures response == Record(old(response), responses)
    {
      response := response.(responses := responses);
      if |responses| > 0 {
        response := response.(payload := responses[0].chaincodePayload,
                              chaincodeStatus := responses[0].chaincodeStatus);
      }
    }

    method CallNext(env: Env)
      modifies this`error
      ensures State() == RunNext(env, old(State()))
    {
      ghost var s := State();
      var reported := env.next(Ctx(chaincodeID, invocationChain, targets, error, response));
      if reported.Some? {
        error := reported;
      }
    }

    /** The second phase of `Handle`, which runs only without user targets. */
    method GatherMore(env: Env, userTargets: seq<Peer>, ccCalls: seq<ChaincodeCall>, ghost s: Ctx, ghost first: Sent)
      returns (ghost additional: Sent, failed: bool)
      requires userTargets == s.targets && (userTargets == [] ==> ccCalls == NewChain(s.primary, s.chain))
      requires FirstTargets(env, s) == Ok(targets) && chaincodeID == s.primary && invocationChain == s.chain
      requires response.responses == first.responses
      modifies this
      ensures Additional(env, s, first) != [] ==> Delivered(env, Additional(env, s, first), 1, additional)
      ensures failed == SecondSendFailed(env, s, first, additional)
      ensures State() == SecondPhase(env, s, first, additional, old(State()))
    {
      additional, failed := Sent([], None), false;
      if |userTargets| == 0 && |response.responses| > 0 {
        var more := GetAdditionalEndorsers(env, ccCalls);
        if more.Ok? && |more.value| > 0 {
          targets := more.value;
          var sent := TransactorSend(env, more.value, 1);
          additional := sent;
          if sent.err.Some? {
            error := Some(Wrapped("error sending transaction proposal", sent.err.value));
            failed := true;
            return;
          }
          response := response.(responses := response.responses + sent.responses);
        }
      }
    }

    /** Selects endorsers and sends them the proposal, then asks for the endorsements still missing. */
    method Handle(env: Env) returns (ghost first: Sent, ghost additional: Sent)
      modifies this
      ensures Allowed(env, old(State()), first, additional)
      ensures State() == Attempt(env, old(State()), first, additional)
    {
      first, additional := Sent([], None), Sent([], None);
      ghost var s := State();
      var ccCalls: seq<ChaincodeCall> := [];
      var userTargets := targets;
      if |userTargets| == 0 {
        var peers;
        ccCalls, peers := GetEndorsers(env, None);
        targets := if peers.Ok? then peers.value else [];
        if peers.Err? {
          error := Some(peers.error);
          return;
        }
      }
      if !env.hasProposal {
        error := Some(Plain("a signed proposal was not provided"));
        return;
      }
      if !env.delegateTransactor {
        error := Some(Plain("no delegate transactor"));
        return;
      }
      var sent := TransactorSend(env, targets, 0);
      first := sent;
      if sent.err.Some? {
        error := sent.err;
        return;
      }
      RecordResponses(sent.responses);
      var failed;
      additional, failed := GatherMore(env, userTargets, ccCalls, s, first);
      if failed {
        return;
      }
      CallNext(env);
    }

    /** The handler of queries: sends the proposal to the targets an earlier handler has chosen. */
    method HandleEndorsement(env: Env) returns (ghost sent: Sent)
      modifies this
      ensures old(targets) != [] && env.hasProposal && env.delegateTransactor ==> Delivered(env, old(targets), 0, sent)
      ensures State() == Endorse(env, old(State()), sent)
    {
      sent := Sent([], None);
      if |targets| == 0 {
        error := Some(Status("NoPeersFound", "targets were not provided"));
        return;
      }
      if !env.hasProposal {
        error := Some(Plain("a signed proposal was not provided"));
        return;
      }
      if !env.delegateTransactor {
        error := Some(Plain("no delegate transactor"));
        return;
      }
      var answer := TransactorSend(env, targets, 0);
      sent := answer;
      if answer.err.Some? {
        error := answer.err;
        return;
      }
      RecordResponses(answer.responses);
      CallNext(env);
    }
  }

  function Endorse(env: Env, s: Ctx, sent: Sent): Ctx {
    if s.targets == [] then s.(error := Some(Status("NoPeersFound", "targets were not provided")))
    else if !env.hasProposal then s.(error := Some(Plain("a signed proposal was not provided")))
    else if !env.delegateTransactor then s.(error := Some(Plain("no delegate transactor")))
    else if sent.err.Some? then s.(error := sent.err)
    else RunNext(env, s.(response := Record(s.response, sent.responses)))
  }
}
