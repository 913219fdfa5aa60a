/** The retry loop around the handler: what each attempt starts from, what survives between
    attempts, and why a discovered chain makes the second selection unnecessary from then on. */
module Retry {
  import opened Common
  import opened Fabric
  import opened Chain
  import opened SharedMerge
  import opened FanOut
  import opened Extraction
  import opened Endorsement
  import opened Coverage

  /** One attempt: what it found around it and what its sends returned. */
  datatype Try = Try(env: Env, first: Sent, additional: Sent)

  /** What the callback before a retry resets; the invocation chain is not among it. */
  function Reset(s: Ctx, userTargets: seq<Peer>): Ctx {
    s.(targets := userTargets, error := None, response := NO_RESPONSE)
  }

  function Start(primary: string, chain: seq<ChaincodeCall>, userTargets: seq<Peer>): Ctx {
    Ctx(primary, chain, userTargets, None, NO_RESPONSE)
  }

  /** The context at the start of attempt `k`. */
  function Before(init: Ctx, tries: seq<Try>, k: nat): Ctx
    requires k <= |tries|
    decreases k, 0
  {
    if k == 0 then init else Reset(After(init, tries, k - 1), init.targets)
  }

  /** The context at the end of attempt `k`. */
  function After(init: Ctx, tries: seq<Try>, k: nat): Ctx
    requires k < |tries|
    decreases k, 1
  {
    Attempt(tries[k].env, Before(init, tries, k), tries[k].first, tries[k].additional)
  }

  /** The retry handler grants another attempt for a retryable error, at most `limit` times. */
  datatype RetryPolicy = RetryPolicy(limit: nat, retryable: Error -> bool)

  predicate Granted(policy: RetryPolicy, k: nat, err: Option<Error>) {
    err.Some? && k < policy.limit && policy.retryable(err.value)
  }

  /** Attempt `k` did what its environment allows, and a retry after it was granted or refused. */
  ghost predicate Went(init: Ctx, tries: seq<Try>, policy: RetryPolicy, k: nat, retried: bool)
    requires k < |tries|
  {
    && Allowed(tries[k].env, Before(init, tries, k), tries[k].first, tries[k].additional)
    && Granted(policy, k, After(init, tries, k).error) == retried
  }

  /** A whole run: every attempt but the last is followed by a granted retry. */
  ghost predicate IsCompleteRun(init: Ctx, tries: seq<Try>, policy: RetryPolicy) {
    && tries != []
    && (forall k :: 0 <= k < |tries| - 1 ==> Went(init, tries, policy, k, true))
    && Went(init, tries, policy, |tries| - 1, false)
  }

  lemma {:induction false} PrefixOfRun(init: Ctx, tries: seq<Try>, more: Try, k: nat)
    requires k <= |tries|
    ensures Before(init, tries + [more], k) == Before(init, tries, k)
    ensures k < |tries| ==> After(init, tries + [more], k) == After(init, tries, k)
  {
    if k > 0 {
      PrefixOfRun(init, tries, more, k - 1);
    }
  }

  /** One more attempt leaves the record of the earlier ones as it was. */
  lemma {:induction false} LongerRun(init: Ctx, tries: seq<Try>, more: Try, end: Ctx, policy: RetryPolicy)
    requires forall j :: 0 <= j < |tries| ==> Went(init, tries, policy, j, true)
    requires Allowed(more.env, Before(init, tries, |tries|), more.first, more.additional)
    requires end == Attempt(more.env, Before(init, tries, |tries|), more.first, more.additional)
    ensures forall j :: 0 <= j < |tries| ==> Went(init, tries + [more], policy, j, true)
    ensures After(init, tries + [more], |tries|) == end
    ensures Went(init, tries + [more], policy, |tries|, Granted(policy, |tries|, end.error))
    ensures Before(init, tries + [more], |tries| + 1) == Reset(end, init.targets)
  {
    forall j | 0 <= j < |tries|
      ensures Went(init, tries + [more], policy, j, true)
    {
      assert Went(init, tries, policy, j, true);
      PrefixOfRun(init, tries, more, j);
    }
    PrefixOfRun(init, tries, more, |tries|);
  }

  /** The invoker: runs the handler, and as long as a retry is granted resets the context and runs it
      again. `envs k` is what the k-th attempt finds around it. */
  method Invoke(ctx: RequestContext, envs: nat -> Env, policy: RetryPolicy) returns (ghost tries: seq<Try>)
    modifies ctx
    ensures IsCompleteRun(old(ctx.State()), tries, policy)
    ensures |tries| <= policy.limit + 1
    ensures forall k :: 0 <= k < |tries| ==> tries[k].env == envs(k)
    ensures ctx.State() == After(old(ctx.State()), tries, |tries| - 1)
  {
    ghost var init := ctx.State();
    var userTargets := ctx.targets;
    var k: nat := 0;
    tries := [];
    while true
      invariant k == |tries| <= policy.limit
      invariant ctx.State() == Before(init, tries, k)
      invariant forall j :: 0 <= j < k ==> tries[j].env == envs(j)
      invariant forall j :: 0 <= j < k ==> Went(init, tries, policy, j, true)
      decreases policy.limit - k
    {
      ghost var first, additional := ctx.Handle(envs(k));
      LongerRun(init, tries, Try(envs(k), first, additional), ctx.State(), policy);
      tries := tries + [Try(envs(k), first, additional)];
      if !Granted(policy, k, ctx.error) {
        return;
      }
      ctx.targets := userTargets;
      ctx.error := None;
      ctx.response := NO_RESPONSE;
      k := k + 1;
    }
  }

  /** A run goes on exactly after a retryable error within the limit: never after a nil error, and always
      otherwise. */
  lemma GoesOnIff(init: Ctx, tries: seq<Try>, policy: RetryPolicy, k: nat)
    requires IsCompleteRun(init, tries, policy) && k < |tries|
    ensures k < |tries| - 1 <==>
            && After(init, tries, k).error.Some?
            && policy.retryable(After(init, tries, k).error.value)
            && k < policy.limit
    ensures |tries| <= policy.limit + 1
  {
    assert Went(init, tries, policy, k, k < |tries| - 1);
    if |tries| > 1 {
      assert Went(init, tries, policy, |tries| - 2, true);
    }
  }

  // ----- attempts are isolated

  /** Whether an attempt starting from this chain enters the second selection. */
  predicate ReselectsFrom(s: Ctx, t: Try) {
    SendsFirst(t.env, s) && t.first.err.None? && Reselects(t.env, s, t.first)
  }

  /** The chain at the start of attempt `k`: it changes only by a second selection, which replaces it
      by the merged chain. */
  function ChainAt(init: Ctx, tries: seq<Try>, k: nat): seq<ChaincodeCall>
    requires k <= |tries|
  {
    if k == 0 then init.chain
    else
      var s := Start(init.primary, ChainAt(init, tries, k - 1), init.targets);
      if ReselectsFrom(s, tries[k - 1]) then Merged(tries[k - 1].env, s, tries[k - 1].first) else s.chain
  }

  /** A fresh context for attempt `k`: nothing of earlier attempts but the discovered chain. */
  function StartAt(init: Ctx, tries: seq<Try>, k: nat): Ctx
    requires k <= |tries|
  {
    Start(init.primary, ChainAt(init, tries, k), init.targets)
  }

  lemma AttemptKeeps(s: Ctx, t: Try)
    ensures Attempt(t.env, s, t.first, t.additional).primary == s.primary
    ensures Attempt(t.env, s, t.first, t.additional).chain ==
            if ReselectsFrom(s, t) then Merged(t.env, s, t.first) else s.chain
  {
    if SendsFirst(t.env, s) && t.first.err.None? {
      var recorded := s.(targets := FirstTargets(t.env, s).value, response := Record(s.response, t.first.responses));
      SecondPhaseKeeps(t.env, s, t.first, t.additional, recorded);
    }
  }

  lemma SecondPhaseKeeps(env: Env, s: Ctx, first: Sent, additional: Sent, recorded: Ctx)
    requires FirstTargets(env, s).Ok?
    ensures SecondPhase(env, s, first, additional, recorded).primary == recorded.primary
    ensures SecondPhase(env, s, first, additional, recorded).chain ==
            if Reselects(env, s, first) then Merged(env, s, first) else recorded.chain
  {
  }

  /** Every attempt starts from the user's own targets, without an error and without a response,
      whatever the attempts before it wrote; only the discovered chain survives. */
  lemma {:induction false} AttemptsAreIsolated(init: Ctx, tries: seq<Try>, k: nat)
    requires init == Start(init.primary, init.chain, init.targets) && k <= |tries|
    ensures Before(init, tries, k) == StartAt(init, tries, k)
  {
    if k > 0 {
      AttemptsAreIsolated(init, tries, k - 1);
      AttemptKeeps(StartAt(init, tries, k - 1), tries[k - 1]);
    }
  }

  lemma AttemptResponses(s: Ctx, t: Try)
    requires s.response == NO_RESPONSE
    ensures Attempt(t.env, s, t.first, t.additional).response.responses in
              {[], t.first.responses, t.first.responses + t.additional.responses}
  {
  }

  /** What a run leaves as its responses comes from the sends of its last attempt only. */
  lemma ResponsesOfOneAttempt(init: Ctx, tries: seq<Try>, k: nat)
    requires init == Start(init.primary, init.chain, init.targets) && k < |tries|
    ensures After(init, tries, k).response.responses in
              {[], tries[k].first.responses, tries[k].first.responses + tries[k].additional.responses}
  {
    AttemptsAreIsolated(init, tries, k);
    AttemptResponses(StartAt(init, tries, k), tries[k]);
  }

  ghost predicate AllAnswered(env: Env, asked: seq<Target>, responses: seq<ProposalResponse>) {
    forall r :: r in responses ==> exists n, t :: t in asked && env.process(n, t) == Ok(r)
  }

  lemma SuccessfulAttempt(t: Try, s: Ctx)
    requires Allowed(t.env, s, t.first, t.additional) && Attempt(t.env, s, t.first, t.additional).error.None?
    ensures var responses := Attempt(t.env, s, t.first, t.additional).response.responses;
            && FirstTargets(t.env, s).Ok?
            && |responses| == |Asked(t.env, s, t.first)| > 0
            && AllAnswered(t.env, Asked(t.env, s, t.first), responses)
  {
    SuccessMeansAllSent(t.env, s, t.first, t.additional);
    ResponseAccounting(t.env, s, t.first, t.additional);
    SentToSomebody(t.env, FirstTargets(t.env, s).value, 0, t.first);
    if Additional(t.env, s, t.first) != [] {
      SentToSomebody(t.env, Additional(t.env, s, t.first), 1, t.additional);
    }
  }

  /** A fully successful attempt, seen from its start. */
  ghost predicate Succeeded(t: Try, s: Ctx, end: Ctx) {
    && Allowed(t.env, s, t.first, t.additional)
    && end == Attempt(t.env, s, t.first, t.additional)
    && end.error.None?
  }

  lemma {:induction false} LastAttempt(init: Ctx, tries: seq<Try>, policy: RetryPolicy)
    requires init == Start(init.primary, init.chain, init.targets)
    requires IsCompleteRun(init, tries, policy) && After(init, tries, |tries| - 1).error.None?
    ensures Succeeded(tries[|tries| - 1], StartAt(init, tries, |tries| - 1), After(init, tries, |tries| - 1))
  {
    var k := |tries| - 1;
    var s := Before(init, tries, k);
    assert Succeeded(tries[k], s, After(init, tries, k)) by {
      assert Went(init, tries, policy, k, false);
    }
    AttemptsAreIsolated(init, tries, k);
  }

  /** A run that ends without an error holds one endorsement for each peer its last attempt asked, and
      every endorsement it holds is an answer given in that attempt. */
  lemma {:induction false} SuccessfulRunAccounting(init: Ctx, tries: seq<Try>, policy: RetryPolicy)
    requires init == Start(init.primary, init.chain, init.targets)
    requires IsCompleteRun(init, tries, policy) && After(init, tries, |tries| - 1).error.None?
    ensures var last, s := tries[|tries| - 1], StartAt(init, tries, |tries| - 1);
            var responses := After(init, tries, |tries| - 1).response.responses;
            && FirstTargets(last.env, s).Ok?
            && |responses| == |Asked(last.env, s, last.first)| > 0
            && AllAnswered(last.env, Asked(last.env, s, last.first), responses)
  {
    LastAttempt(init, tries, policy);
    SuccessfulAttempt(tries[|tries| - 1], StartAt(init, tries, |tries| - 1));
  }

  /** A run that ends without an error was validated: the next handler of its last attempt found nothing
      wrong with the context the run ends with. */
  lemma {:induction false} SuccessfulRunIsValidated(init: Ctx, tries: seq<Try>)
    requires tries != [] && After(init, tries, |tries| - 1).error.None?
    ensures tries[|tries| - 1].env.next(After(init, tries, |tries| - 1)) == None
  {
    var k := |tries| - 1;
    NilMeansNextAgreed(tries[k].env, Before(init, tries, k), tries[k].first, tries[k].additional);
  }

  /** What the attempt relies on: peers that sign for their organisation, one organisation per URL,
      selections that answered and kept their promise, and the guard of coverage, which distinct
      namespaces imply (`SharedMerge.DistinctSuffices`). */
  ghost predicate SoundAttempt(t: Try, s: Ctx, orgOf: string -> string, promise: Policy)
    requires FirstTargets(t.env, s).Ok? && s.targets == []
  {
    && NoSelectionError(t.env, s, t.first)
    && HonestEndorsers(t.env, orgOf)
    && PeersByUrl(t.env, s, t.first)
    && Monotone(promise)
    && Promised(promise, t.env, s, t.first)
    && Guarded(t.env, s, t.first)
  }

  ghost predicate Satisfies(promise: Policy, msps: set<string>, calls: seq<ChaincodeCall>) {
    forall item :: Mentions(calls, item) ==> promise(msps, item)
  }

  lemma SucceededIsCovered(t: Try, s: Ctx, end: Ctx, orgOf: string -> string, promise: Policy)
    requires Succeeded(t, s, end) && s.targets == [] && FirstTargets(t.env, s).Ok?
    requires SoundAttempt(t, s, orgOf, promise)
    ensures var msps := EndorsingMsps(orgOf, end.response.responses);
            && Satisfies(promise, msps, Discovered(t.env, s, t.first).value)
            && Satisfies(promise, msps, NewChain(s.primary, s.chain))
  {
    SuccessMeansAllSent(t.env, s, t.first, t.additional);
    forall item | Mentions(Discovered(t.env, s, t.first).value, item) || Mentions(NewChain(s.primary, s.chain), item)
      ensures promise(EndorsingMsps(orgOf, end.response.responses), item)
    {
      EndorsementCoverage(t.env, s, t.first, t.additional, orgOf, promise, item);
    }
  }

  /** A successful run without user targets: the endorsements it ends with satisfy every policy that
      selection promised for all that the last attempt's first response touched, and for all of the
      chain that attempt started from. */
  lemma {:induction false} SuccessfulRunIsCovered(
      init: Ctx, tries: seq<Try>, policy: RetryPolicy, orgOf: string -> string, promise: Policy)
    requires init == Start(init.primary, init.chain, []) && IsCompleteRun(init, tries, policy)
    requires After(init, tries, |tries| - 1).error.None?
    requires FirstTargets(tries[|tries| - 1].env, StartAt(init, tries, |tries| - 1)).Ok?
    requires SoundAttempt(tries[|tries| - 1], StartAt(init, tries, |tries| - 1), orgOf, promise)
    ensures var msps := EndorsingMsps(orgOf, After(init, tries, |tries| - 1).response.responses);
            && Satisfies(promise, msps, Discovered(tries[|tries| - 1].env, init, tries[|tries| - 1].first).value)
            && Satisfies(promise, msps, NewChain(init.primary, ChainAt(init, tries, |tries| - 1)))
  {
    var k := |tries| - 1;
    LastAttempt(init, tries, policy);
    DiscoveryIgnoresChain(init, tries, k);
    SucceededIsCovered(tries[k], StartAt(init, tries, k), After(init, tries, k), orgOf, promise);
  }

  // ----- the discovered chain makes the second selection unnecessary

  predicate ReselectsAt(init: Ctx, tries: seq<Try>, k: nat)
    requires k < |tries|
  {
    ReselectsFrom(StartAt(init, tries, k), tries[k])
  }

  /** Attempt `k` touches the given accepted calls, if its first response can be read. */
  ghost predicate Touches(init: Ctx, tries: seq<Try>, calls: seq<ChaincodeCall>, k: nat)
    requires k < |tries|
  {
    Discovered(tries[k].env, init, tries[k].first) in {None, Some(calls)}
  }

  /** Every attempt touches the same calls. */
  ghost predicate SameFootprint(init: Ctx, tries: seq<Try>, calls: seq<ChaincodeCall>) {
    forall k: nat :: k < |tries| ==> Touches(init, tries, calls, k)
  }

  lemma DiscoveryIgnoresChain(init: Ctx, tries: seq<Try>, k: nat)
    requires k < |tries|
    ensures Discovered(tries[k].env, StartAt(init, tries, k), tries[k].first) ==
            Discovered(tries[k].env, init, tries[k].first)
  {
  }

  lemma {:induction false} QuietAt(
      init: Ctx, tries: seq<Try>, chain: seq<ChaincodeCall>, calls: seq<ChaincodeCall>, room: Room, k: nat)
    requires k < |tries| && SameFootprint(init, tries, calls)
    requires ChainAt(init, tries, k) == ShownChain(chain, calls, room)
    requires RepresentativesShow(init.primary, chain, calls, room)
    ensures !ReselectsAt(init, tries, k)
    ensures ChainAt(init, tries, k + 1) == ShownChain(chain, calls, room)
  {
    assert Touches(init, tries, calls, k);
    DiscoveryIgnoresChain(init, tries, k);
    MergeAgainQuietIff(init.primary, chain, calls, room);
  }

  lemma MergedAt(init: Ctx, tries: seq<Try>, calls: seq<ChaincodeCall>, k: nat)
    requires k < |tries| && SameFootprint(init, tries, calls) && ReselectsAt(init, tries, k)
    ensures ChainAt(init, tries, k + 1) ==
            ShownChain(NewChain(init.primary, ChainAt(init, tries, k)), calls, tries[k].env.room)
  {
    assert Touches(init, tries, calls, k);
  }

  /** Once a run has the merged chain, it keeps it and no later attempt enters a second selection, if
      the representatives of the response show all of it. */
  lemma {:induction false} QuietFrom(
      init: Ctx, tries: seq<Try>, chain: seq<ChaincodeCall>, calls: seq<ChaincodeCall>, room: Room, i: nat, j: nat)
    requires i <= j < |tries| && SameFootprint(init, tries, calls)
    requires ChainAt(init, tries, i) == ShownChain(chain, calls, room)
    requires RepresentativesShow(init.primary, chain, calls, room)
    ensures !ReselectsAt(init, tries, j)
    ensures ChainAt(init, tries, j + 1) == ShownChain(chain, calls, room)
  {
    if i == j {
      QuietAt(init, tries, chain, calls, room, i);
    } else {
      QuietFrom(init, tries, chain, calls, room, i, j - 1);
      QuietAt(init, tries, chain, calls, room, j);
    }
  }

  /** The guard of convergence, for the merge that attempt `i` makes. */
  ghost predicate Settles(init: Ctx, tries: seq<Try>, calls: seq<ChaincodeCall>, i: nat)
    requires i < |tries|
  {
    RepresentativesShow(init.primary, NewChain(init.primary, ChainAt(init, tries, i)), calls, tries[i].env.room)
  }

  /** Convergence over retries: if after a second selection the representatives of the common footprint
      show all of it, as they do for distinct namespaces, a run enters the second selection at most once,
      and the chain merged then is the one every later attempt keeps. */
  lemma {:induction false} ReselectsAtMostOnce(init: Ctx, tries: seq<Try>, calls: seq<ChaincodeCall>, i: nat, j: nat)
    requires i < j < |tries| && SameFootprint(init, tries, calls) && ReselectsAt(init, tries, i)
    requires Settles(init, tries, calls, i)
    ensures !ReselectsAt(init, tries, j)
    ensures ChainAt(init, tries, j + 1) == ChainAt(init, tries, i + 1)
  {
    MergedAt(init, tries, calls, i);
    QuietFrom(init, tries, NewChain(init.primary, ChainAt(init, tries, i)), calls, tries[i].env.room, i + 1, j);
  }

  /** The guard is exact: if attempt `i` selects a second time and the next attempt reads the same
      response, the next attempt selects again exactly when the representatives do not show all of it. */
  lemma {:induction false} ReselectsAgainIff(init: Ctx, tries: seq<Try>, calls: seq<ChaincodeCall>, i: nat)
    requires i + 1 < |tries| && SameFootprint(init, tries, calls) && ReselectsAt(init, tries, i)
    requires SendsFirst(tries[i + 1].env, StartAt(init, tries, i + 1)) && tries[i + 1].first.err.None?
    requires Discovered(tries[i + 1].env, init, tries[i + 1].first).Some?
    ensures ReselectsAt(init, tries, i + 1) <==> !Settles(init, tries, calls, i)
  {
    MergedAt(init, tries, calls, i);
    assert Touches(init, tries, calls, i + 1);
    DiscoveryIgnoresChain(init, tries, i + 1);
    MergeAgainQuietIff(init.primary, NewChain(init.primary, ChainAt(init, tries, i)), calls, tries[i].env.room);
  }

  // ----- the chain of a run is that of its merges

  /** What attempt `k` found, if it got as far as reading its first response. */
  function FoundAt(init: Ctx, tries: seq<Try>, k: nat): seq<ChaincodeCall>
    requires k < |tries|
  {
    var s, t := StartAt(init, tries, k), tries[k];
    if SendsFirst(t.env, s) && t.first.err.None? && Discovered(t.env, s, t.first).Some?
    then Discovered(t.env, s, t.first).value else []
  }

  function Found(init: Ctx, tries: seq<Try>, n: nat): seq<seq<ChaincodeCall>>
    requires n <= |tries|
  {
    seq(n, k requires 0 <= k < n => FoundAt(init, tries, k))
  }

  function Rooms(tries: seq<Try>, n: nat): seq<Room>
    requires n <= |tries|
  {
    seq(n, k requires 0 <= k < n => tries[k].env.room)
  }

  lemma ChainStep(init: Ctx, tries: seq<Try>, k: nat)
    requires k < |tries|
    ensures ChainAt(init, tries, k + 1) ==
            Absorbed(init.primary, ChainAt(init, tries, k), FoundAt(init, tries, k), tries[k].env.room)
  {
  }

  /** The chain after `n` attempts is what merging the calls they found gives: the value-level side of what
      `SliceRuns.AbsorbAll` does in memory. */
  lemma {:induction false} ChainIsAbsorbed(init: Ctx, tries: seq<Try>, n: nat)
    requires n <= |tries|
    ensures ChainAt(init, tries, n) == AbsorbedAll(init.primary, init.chain, Found(init, tries, n), Rooms(tries, n))
  {
    if n > 0 {
      ChainIsAbsorbed(init, tries, n - 1);
      ChainStep(init, tries, n - 1);
      assert Found(init, tries, n)[..n - 1] == Found(init, tries, n - 1);
      assert Rooms(tries, n)[..n - 1] == Rooms(tries, n - 1);
    }
  }
}
