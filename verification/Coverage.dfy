/** What one attempt of the endorsement handler guarantees: which responses it keeps, that no peer is
    asked twice, and that the organisations that endorsed satisfy the policies of everything the
    first response touched. */
module Coverage {
  import opened Common
  import opened Fabric
  import opened Chain
  import opened SharedMerge
  import opened FanOut
  import opened Extraction
  import opened Endorsement

  /** Both sends of the attempt succeeded, as far as they were made. */
  ghost predicate AllSent(env: Env, s: Ctx, first: Sent, additional: Sent) {
    && SendsFirst(env, s)
    && first.err.None?
    && (Additional(env, s, first) != [] ==> additional.err.None?)
  }

  lemma {:induction false} LackingMembers(asked: seq<Peer>, endorsers: seq<Peer>)
    ensures forall p :: p in Lacking(asked, endorsers) <==> p in endorsers && !ContainsMSP(asked, p.mspID)
  {
    if endorsers != [] {
      LackingMembers(asked, endorsers[..|endorsers| - 1]);
      assert endorsers == endorsers[..|endorsers| - 1] + [endorsers[|endorsers| - 1]];
    }
  }

  lemma PeersAreProcessors(peers: seq<Peer>, t: Target)
    ensures AllPeers(Processors(peers))
    ensures t in Processors(peers) <==> t.PeerTarget? && t.peer in peers
    ensures NilTarget !in Processors(peers)
  {
    if t.PeerTarget? && t.peer in peers {
      var i :| 0 <= i < |peers| && peers[i] == t.peer;
      assert Processors(peers)[i] == t;
    }
  }

  /** A send without error reached somebody. */
  lemma SentToSomebody(env: Env, peers: seq<Peer>, n: nat, sent: Sent)
    requires Delivered(env, peers, n, sent) && sent.err.None?
    ensures |sent.responses| == |Unique(Processors(peers))| > 0
    ensures forall r :: r in sent.responses <==>
                        exists t :: t in Unique(Processors(peers)) && env.process(n, t) == Ok(r)
  {
    FirstByUrlKeeps(Processors(peers));
    var unique := Unique(Processors(peers));
    ResponsesAreAnswers(Processors(peers), (_, t) => env.process(n, t), sent);
    forall r
      ensures r in sent.responses <==> exists t :: t in unique && env.process(n, t) == Ok(r)
    {
      if t :| t in unique && env.process(n, t) == Ok(r) {
        var i :| 0 <= i < |unique| && unique[i] == t;
      }
    }
  }

  /** When both sends succeed, the responses are the first batch followed by the additional one, one
      for each unique peer of either; the payload and status are those of the first response; and
      there is a first response, so discovery never reads past the end. */
  lemma ResponseAccounting(env: Env, s: Ctx, first: Sent, additional: Sent)
    requires Allowed(env, s, first, additional) && AllSent(env, s, first, additional)
    ensures var more := Additional(env, s, first);
            var response := Attempt(env, s, first, additional).response;
            && response.responses == first.responses + (if more == [] then [] else additional.responses)
            && |response.responses| == |Unique(Processors(FirstTargets(env, s).value))| + |Unique(Processors(more))|
            && first.responses != []
            && response.payload == response.responses[0].chaincodePayload
            && response.chaincodeStatus == response.responses[0].chaincodeStatus
  {
    SentToSomebody(env, FirstTargets(env, s).value, 0, first);
    if Additional(env, s, first) != [] {
      SentToSomebody(env, Additional(env, s, first), 1, additional);
    }
  }

  /** Only an attempt whose sends all succeeded can end without an error. */
  lemma SuccessMeansAllSent(env: Env, s: Ctx, first: Sent, additional: Sent)
    requires Attempt(env, s, first, additional).error.None?
    ensures AllSent(env, s, first, additional)
  {
  }

  // ----- how an attempt ends

  /** A send succeeds exactly when there is a client context, a proposal and somebody to send it to, and
      every unique target answers. */
  lemma SendSucceedsIff(env: Env, peers: seq<Peer>, n: nat, sent: Sent)
    requires Delivered(env, peers, n, sent)
    ensures sent.err.None? <==>
            && env.hasClientContext && env.hasProposal && peers != []
            && forall t :: t in Unique(Processors(peers)) ==> env.process(n, t).Ok?
  {
    if env.hasClientContext && env.hasProposal && peers != [] {
      var unique := Unique(Processors(peers));
      ResponsesAreAnswers(Processors(peers), (_, t) => env.process(n, t), sent);
      assert forall t :: t in unique <==> exists i :: 0 <= i < |unique| && unique[i] == t;
    }
  }

  /** When all sends succeeded, the next handler decides: the attempt ends with the gathered context and
      with the error that the next handler reports on it, or with none if it reports none. */
  lemma NextDecides(env: Env, s: Ctx, first: Sent, additional: Sent)
    requires Allowed(env, s, first, additional) && AllSent(env, s, first, additional) && s.error.None?
    ensures first.responses != []
    ensures var more := Additional(env, s, first);
            var gathered := Ctx(
              s.primary,
              if Reselects(env, s, first) then Merged(env, s, first) else s.chain,
              if more == [] then FirstTargets(env, s).value else more,
              None,
              Response(if more == [] then first.responses else first.responses + additional.responses,
                       first.responses[0].chaincodePayload,
                       first.responses[0].chaincodeStatus));
            Attempt(env, s, first, additional) == gathered.(error := env.next(gathered))
  {
    SentToSomebody(env, FirstTargets(env, s).value, 0, first);
  }

  /** An attempt that ends without an error made its sends successfully, and the next handler found
      nothing wrong with the very context it ends with. */
  lemma NilMeansNextAgreed(env: Env, s: Ctx, first: Sent, additional: Sent)
    requires Attempt(env, s, first, additional).error.None?
    ensures AllSent(env, s, first, additional)
    ensures env.next(Attempt(env, s, first, additional)) == None
  {
  }

  /** How an attempt fails before the next handler: with the error of selection, for want of a proposal or
      of the delegate transactor, or with the error of one of its sends; what was collected so far stays. */
  lemma FailsWith(env: Env, s: Ctx, first: Sent, additional: Sent)
    ensures s.targets == [] && env.selection(NewChain(s.primary, s.chain), None).Err? ==>
              Attempt(env, s, first, additional) ==
              s.(error := Some(env.selection(NewChain(s.primary, s.chain), None).error))
    ensures FirstTargets(env, s).Ok? && !env.hasProposal ==>
              Attempt(env, s, first, additional) ==
              s.(targets := FirstTargets(env, s).value, error := Some(Plain("a signed proposal was not provided")))
    ensures FirstTargets(env, s).Ok? && env.hasProposal && !env.delegateTransactor ==>
              Attempt(env, s, first, additional) ==
              s.(targets := FirstTargets(env, s).value, error := Some(Plain("no delegate transactor")))
    ensures SendsFirst(env, s) && first.err.Some? ==>
              Attempt(env, s, first, additional) == s.(targets := FirstTargets(env, s).value, error := first.err)
    ensures SendsFirst(env, s) && first.err.None? && Additional(env, s, first) != [] && additional.err.Some? ==>
              && Attempt(env, s, first, additional).error ==
                 Some(Wrapped("error sending transaction proposal", additional.err.value))
              && Attempt(env, s, first, additional).response.responses == first.responses
  {
  }

  /** With user targets, exactly these are asked, and nothing else is: neither selection nor what the
      response touched makes any difference. */
  lemma UserTargetsOnly(env: Env, other: Env, s: Ctx, first: Sent, additional: Sent)
    requires s.targets != []
    requires other == env.(room := other.room, selection := other.selection,
                           ccFilter := other.ccFilter, codecs := other.codecs)
    ensures FirstTargets(env, s) == Ok(s.targets) && Asked(env, s, first) == Unique(Processors(s.targets))
    ensures Attempt(other, s, first, additional) == Attempt(env, s, first, additional)
  {
    assert Additional(env, s, first) == [];
    assert Processors([]) == [];
  }

  /** The filter rejects the lifecycle chaincodes, whatever the user's own filter says, and what that one
      rejects. */
  lemma FilterRejects(env: Env, id: string)
    ensures GetCCFilter(env)(id) <==>
            id != "lscc" && id != "_lifecycle" && (env.ccFilter.Some? ==> env.ccFilter.value(id))
  {
    match env.ccFilter
    case None => assert GetCCFilter(env)(id) == LsccFilter(id);
    case Some(f) => assert GetCCFilter(env)(id) == (LsccFilter(id) && f(id));
  }

  /** What the second phase looks at: the calls of the first response, in order, without the lifecycle
      chaincodes and those the user's filter rejects; nothing with user targets, without a response or if
      the response cannot be read. */
  lemma DiscoveredExactly(env: Env, s: Ctx, first: Sent)
    ensures Discovered(env, s, first).Some? <==>
            s.targets == [] && first.responses != [] && ChainOf(env.codecs, first.responses[0]).Ok?
    ensures Discovered(env, s, first).Some? ==>
              var found := ChainOf(env.codecs, first.responses[0]).value;
              Picks(found,
                    (i: nat) =>
                      && i < |found|
                      && found[i].id != "lscc" && found[i].id != "_lifecycle"
                      && (env.ccFilter.Some? ==> env.ccFilter.value(found[i].id)),
                    Discovered(env, s, first).value)
  {
    if Discovered(env, s, first).Some? {
      var found := ChainOf(env.codecs, first.responses[0]).value;
      forall id
        ensures GetCCFilter(env)(id) <==>
                id != "lscc" && id != "_lifecycle" && (env.ccFilter.Some? ==> env.ccFilter.value(id))
      {
        FilterRejects(env, id);
      }
      AcceptedPicked(found, GetCCFilter(env),
                     (i: nat) =>
                       && i < |found|
                       && found[i].id != "lscc" && found[i].id != "_lifecycle"
                       && (env.ccFilter.Some? ==> env.ccFilter.value(found[i].id)));
    }
  }

  lemma {:induction false} LackingPicked(asked: seq<Peer>, endorsers: seq<Peer>, p: nat -> bool)
    requires forall i: nat :: i < |endorsers| ==> (p(i) <==> !ContainsMSP(asked, endorsers[i].mspID))
    ensures Picks(endorsers, p, Lacking(asked, endorsers))
  {
    if endorsers != [] {
      var front, last := endorsers[..|endorsers| - 1], endorsers[|endorsers| - 1];
      LackingPicked(asked, front, p);
      PicksStep(front, p, Lacking(asked, front), last);
      assert endorsers == front + [last];
      assert p(|front|) <==> !ContainsMSP(asked, last.mspID);
    }
  }

  lemma NotAskedIff(asked: seq<Peer>, mspID: string)
    ensures !ContainsMSP(asked, mspID) <==> forall q :: q in asked ==> q.mspID != mspID
  {
    if ContainsMSP(asked, mspID) {
      var i :| 0 <= i < |asked| && asked[i].mspID == mspID;
      assert asked[i] in asked;
    }
  }

  /** The additional endorsers are exactly those of the second selection whose organisation was not asked,
      in order. */
  lemma LackingExactly(asked: seq<Peer>, endorsers: seq<Peer>)
    ensures Picks(endorsers,
                  (i: nat) => i < |endorsers| && forall q :: q in asked ==> q.mspID != endorsers[i].mspID,
                  Lacking(asked, endorsers))
  {
    var p := (i: nat) => i < |endorsers| && forall q :: q in asked ==> q.mspID != endorsers[i].mspID;
    forall i: nat | i < |endorsers|
      ensures p(i) <==> !ContainsMSP(asked, endorsers[i].mspID)
    {
      NotAskedIff(asked, endorsers[i].mspID);
    }
    LackingPicked(asked, endorsers, p);
  }

  /** When selection is asked a second time: exactly if the first response names a chaincode, or a collection
      of one, that is not in the chain that it was asked about first. */
  lemma ReselectsIff(env: Env, s: Ctx, first: Sent)
    ensures Reselects(env, s, first) <==>
            && Discovered(env, s, first).Some?
            && exists i :: 0 <= i < |Discovered(env, s, first).value|
                           && NewsTo(NewChain(s.primary, s.chain), Discovered(env, s, first).value[i])
  {
    if Discovered(env, s, first).Some? {
      ChangesMeaning(NewChain(s.primary, s.chain), Discovered(env, s, first).value);
    }
  }

  /** Who is asked in the second send: nobody without a second selection or if it fails; otherwise exactly
      its peers whose organisation was not asked before, in order. */
  lemma AdditionalExactly(env: Env, s: Ctx, first: Sent)
    requires FirstTargets(env, s).Ok?
    ensures !Reselects(env, s, first) ==> Additional(env, s, first) == []
    ensures Reselects(env, s, first) ==>
              var merged := ShownChain(NewChain(s.primary, s.chain), Discovered(env, s, first).value, env.room);
              match env.selection(NewChain(s.primary, merged), Some(FirstTargets(env, s).value))
              case Err(_) => Additional(env, s, first) == []
              case Ok(peers) =>
                Picks(peers,
                      (i: nat) =>
                        i < |peers| && forall q :: q in FirstTargets(env, s).value ==> q.mspID != peers[i].mspID,
                      Additional(env, s, first))
  {
    if Reselects(env, s, first) && Reselection(env, s, first).Ok? {
      LackingExactly(FirstTargets(env, s).value, Reselection(env, s, first).value);
    }
  }

  // ----- who is asked

  /** The peers of both selections. */
  function Selected(env: Env, s: Ctx, first: Sent): seq<Peer>
    requires FirstTargets(env, s).Ok?
  {
    FirstTargets(env, s).value
    + if Reselects(env, s, first) && Reselection(env, s, first).Ok? then Reselection(env, s, first).value else []
  }

  /** Peers with one URL belong to one organisation, for every peer of the attempt. */
  ghost predicate PeersByUrl(env: Env, s: Ctx, first: Sent)
    requires FirstTargets(env, s).Ok?
  {
    forall p, q :: p in Selected(env, s, first) && q in Selected(env, s, first) && p.url == q.url ==> p.mspID == q.mspID
  }

  /** The targets of both sends, after removal of duplicates. */
  function Asked(env: Env, s: Ctx, first: Sent): seq<Target>
    requires FirstTargets(env, s).Ok?
  {
    Unique(Processors(FirstTargets(env, s).value)) + Unique(Processors(Additional(env, s, first)))
  }

  lemma UniquePeers(peers: seq<Peer>, t: Target)
    requires t in Unique(Processors(peers))
    ensures t.PeerTarget? && t.peer in peers
  {
    FirstByUrlKeeps(Processors(peers));
    PeersAreProcessors(peers, t);
  }

  /** No URL is asked twice in an attempt: the organisations asked in the second send are disjoint
      from those of the first. */
  lemma NoUrlAskedTwice(env: Env, s: Ctx, first: Sent)
    requires FirstTargets(env, s).Ok? && PeersByUrl(env, s, first)
    ensures AllPeers(Asked(env, s, first)) && DistinctUrls(Asked(env, s, first))
    ensures forall p, q :: p in FirstTargets(env, s).value && q in Additional(env, s, first) ==> p.mspID != q.mspID
  {
    var targets, more := FirstTargets(env, s).value, Additional(env, s, first);
    if Reselects(env, s, first) && Reselection(env, s, first).Ok? {
      LackingMembers(targets, Reselection(env, s, first).value);
    }
    FirstByUrlKeeps(Processors(targets));
    FirstByUrlKeeps(Processors(more));
    forall t, u | t in Unique(Processors(targets)) && u in Unique(Processors(more))
      ensures t.PeerTarget? && u.PeerTarget? && t.peer.url != u.peer.url
    {
      UniquePeers(targets, t);
      UniquePeers(more, u);
    }
  }

  // ----- policies

  /** Whether endorsements of these organisations satisfy the policy of an item. */
  type Policy = (set<string>, Item) -> bool

  ghost predicate Monotone(policy: Policy) {
    forall a, b, item :: a <= b && policy(a, item) ==> policy(b, item)
  }

  ghost function Msps(peers: seq<Peer>): set<string> {
    set p | p in peers :: p.mspID
  }

  /** The organisations whose endorsements are among the responses; `orgOf` reads an endorser's
      organisation off its identity. */
  ghost function EndorsingMsps(orgOf: string -> string, responses: seq<ProposalResponse>): set<string> {
    set r | r in responses :: orgOf(r.endorser)
  }

  /** Asked about this chain, selection returns peers that satisfy the policy of everything in it. */
  ghost predicate Keeps(policy: Policy, env: Env, chain: seq<ChaincodeCall>, prefer: Option<seq<Peer>>) {
    env.selection(chain, prefer).Ok? ==>
      forall item :: Mentions(chain, item) ==> policy(Msps(env.selection(chain, prefer).value), item)
  }

  /** Selection kept its promise for the chains this attempt asked about. */
  ghost predicate Promised(policy: Policy, env: Env, s: Ctx, first: Sent)
    requires FirstTargets(env, s).Ok? && s.targets == []
  {
    && Keeps(policy, env, NewChain(s.primary, s.chain), None)
    && (Reselects(env, s, first) ==>
          Keeps(policy, env, NewChain(s.primary, Merged(env, s, first)), Some(FirstTargets(env, s).value)))
  }

  /** A peer signs its answers with an identity of its own organisation. */
  ghost predicate HonestEndorsers(env: Env, orgOf: string -> string) {
    forall n, p {:trigger env.process(n, PeerTarget(p))} ::
      env.process(n, PeerTarget(p)).Ok? ==> orgOf(env.process(n, PeerTarget(p)).value.endorser) == p.mspID
  }

  ghost predicate NoSelectionError(env: Env, s: Ctx, first: Sent)
    requires FirstTargets(env, s).Ok?
  {
    && Discovered(env, s, first).Some?
    && (Reselects(env, s, first) ==> Reselection(env, s, first).Ok?)
  }

  /** Every peer of a successful send has its organisation among the endorsers. */
  lemma SentEndorsed(env: Env, peers: seq<Peer>, n: nat, sent: Sent, orgOf: string -> string, p: Peer)
    requires Delivered(env, peers, n, sent) && sent.err.None? && HonestEndorsers(env, orgOf)
    requires p in peers && forall q :: q in peers && q.url == p.url ==> q.mspID == p.mspID
    ensures p.mspID in EndorsingMsps(orgOf, sent.responses)
  {
    var targets := Processors(peers);
    FirstByUrlKeeps(targets);
    PeersAreProcessors(peers, PeerTarget(p));
    var i :| 0 <= i < |targets| && targets[i] == PeerTarget(p);
    assert HasUrl(targets, p.url);
    var k :| 0 <= k < |Unique(targets)| && Unique(targets)[k].peer.url == p.url;
    var kept := Unique(targets)[k];
    UniquePeers(peers, kept);
    ResponsesAreAnswers(targets, (_, t) => env.process(n, t), sent);
    assert env.process(n, PeerTarget(kept.peer)).Ok?;
    assert env.process(n, kept).value in sent.responses;
  }

  /** The organisations whose endorsements the attempt holds include those of the first selection,
      and those of the second if there was one. */
  lemma EndorsersIncludeSelected(env: Env, s: Ctx, first: Sent, additional: Sent, orgOf: string -> string)
    requires Allowed(env, s, first, additional) && AllSent(env, s, first, additional)
    requires HonestEndorsers(env, orgOf) && PeersByUrl(env, s, first)
    ensures var msps := EndorsingMsps(orgOf, Attempt(env, s, first, additional).response.responses);
            && Msps(FirstTargets(env, s).value) <= msps
            && (Reselects(env, s, first) && Reselection(env, s, first).Ok? ==>
                  Msps(Reselection(env, s, first).value) <= msps)
  {
    var targets, more := FirstTargets(env, s).value, Additional(env, s, first);
    var responses := Attempt(env, s, first, additional).response.responses;
    ResponseAccounting(env, s, first, additional);
    assert EndorsingMsps(orgOf, first.responses) <= EndorsingMsps(orgOf, responses);
    forall p | p in targets
      ensures p.mspID in EndorsingMsps(orgOf, responses)
    {
      SentEndorsed(env, targets, 0, first, orgOf, p);
    }
    if Reselects(env, s, first) && Reselection(env, s, first).Ok? {
      LackingMembers(targets, Reselection(env, s, first).value);
      forall p | p in Reselection(env, s, first).value
        ensures p.mspID in EndorsingMsps(orgOf, responses)
      {
        if p in more {
          SentEndorsed(env, more, 1, additional, orgOf, p);
        } else {
          var i :| 0 <= i < |targets| && targets[i].mspID == p.mspID;
          assert targets[i] in targets;
        }
      }
    }
  }

  /** The guard of coverage: every item of the first response is in one of the two chains that selection is
      asked about. Without a second selection it always holds. */
  ghost predicate Guarded(env: Env, s: Ctx, first: Sent)
    requires Discovered(env, s, first).Some?
  {
    Reselects(env, s, first) ==>
      AskedAbout(s.primary, NewChain(s.primary, s.chain), Discovered(env, s, first).value, env.room)
  }

  /** Endorsement coverage. In an attempt without user targets in which nothing failed, the
      organisations whose endorsements were collected satisfy the policy of every chaincode and
      collection the first response touched, because the first selection already covered them or
      because the second one did; and of everything in the chain the attempt started from, although
      the merged chain may have dropped it. */
  lemma EndorsementCoverage(
      env: Env, s: Ctx, first: Sent, additional: Sent, orgOf: string -> string, policy: Policy, item: Item)
    requires s.targets == []
    requires Allowed(env, s, first, additional) && AllSent(env, s, first, additional)
    requires NoSelectionError(env, s, first)
    requires HonestEndorsers(env, orgOf) && PeersByUrl(env, s, first)
    requires Monotone(policy) && Promised(policy, env, s, first)
    requires Guarded(env, s, first)
    requires Mentions(Discovered(env, s, first).value, item) || Mentions(NewChain(s.primary, s.chain), item)
    ensures policy(EndorsingMsps(orgOf, Attempt(env, s, first, additional).response.responses), item)
  {
    var chain, calls := NewChain(s.primary, s.chain), Discovered(env, s, first).value;
    EndorsersIncludeSelected(env, s, first, additional, orgOf);
    if Reselects(env, s, first) && !Mentions(chain, item) {
      AskedAboutItem(s.primary, chain, calls, env.room, item);
      assert policy(Msps(Reselection(env, s, first).value), item);
    } else {
      if !Reselects(env, s, first) {
        UnchangedCovers(chain, calls);
      }
      assert policy(Msps(FirstTargets(env, s).value), item);
    }
  }

  lemma {:induction false} Longest(strings: set<string>) returns (n: nat)
    ensures forall x :: x in strings ==> |x| <= n
  {
    if strings == {} {
      n := 0;
    } else {
      var x :| x in strings;
      n := Longest(strings - {x});
      n := if n < |x| then |x| else n;
    }
  }

  lemma NotAmong(strings: set<string>) returns (other: string)
    ensures other !in strings
  {
    var n := Longest(strings);
    other := seq(n + 1, _ => 'x');
    assert |other| > n;
  }

  /** The guard cannot be dropped: whenever it fails, there is a monotone policy that both selections
      satisfied, that the endorsements collected do not satisfy for some item of the response, and that
      they would satisfy with the endorsement of one more organisation. */
  lemma CoverageNeedsGuard(env: Env, s: Ctx, first: Sent, additional: Sent, orgOf: string -> string)
    returns (policy: Policy, item: Item, outsider: string)
    requires s.targets == [] && FirstTargets(env, s).Ok? && Discovered(env, s, first).Some?
    requires !Guarded(env, s, first)
    ensures Monotone(policy) && Promised(policy, env, s, first)
    ensures Mentions(Discovered(env, s, first).value, item)
    ensures var msps := EndorsingMsps(orgOf, Attempt(env, s, first, additional).response.responses);
            !policy(msps, item) && policy(msps + {outsider}, item)
  {
    var lost := NotAskedAbout(s.primary, NewChain(s.primary, s.chain), Discovered(env, s, first).value, env.room);
    var other := NotAmong(EndorsingMsps(orgOf, Attempt(env, s, first, additional).response.responses));
    policy, item, outsider := (msps, it) => it != lost || other in msps, lost, other;
  }

  /** The handler of queries: without an error before it, success means one response for each unique
      target, with the payload and status of the first one. */
  lemma QueryAccounting(env: Env, s: Ctx, sent: Sent)
    requires s.targets != [] && env.hasProposal && env.delegateTransactor ==> Delivered(env, s.targets, 0, sent)
    requires Endorse(env, s, sent).error.None?
    ensures var response := Endorse(env, s, sent).response;
            && response.responses == sent.responses
            && |response.responses| == |Unique(Processors(s.targets))| > 0
            && response.payload == response.responses[0].chaincodePayload
            && response.chaincodeStatus == response.responses[0].chaincodeStatus
  {
    SentToSomebody(env, s.targets, 0, sent);
  }

  /** The query handler likewise: when the send succeeded, the next handler decides. */
  lemma QueryNextDecides(env: Env, s: Ctx, sent: Sent)
    requires s.targets != [] && env.hasProposal && env.delegateTransactor && s.error.None?
    requires Delivered(env, s.targets, 0, sent) && sent.err.None?
    ensures sent.responses != []
    ensures var gathered := s.(response := Response(
              sent.responses, sent.responses[0].chaincodePayload, sent.responses[0].chaincodeStatus));
            Endorse(env, s, sent) == gathered.(error := env.next(gathered))
  {
    SentToSomebody(env, s.targets, 0, sent);
  }

  /** A query without an error had targets, a proposal, the delegate transactor and a successful send, and
      the next handler found nothing wrong with the context it ends with. */
  lemma QueryNilMeansNextAgreed(env: Env, s: Ctx, sent: Sent)
    requires Endorse(env, s, sent).error.None?
    ensures s.targets != [] && env.hasProposal && env.delegateTransactor && sent.err.None?
    ensures env.next(Endorse(env, s, sent)) == None
  {
  }

  /** How a query fails before the next handler; the context is otherwise left as it was. */
  lemma QueryFailsWith(env: Env, s: Ctx, sent: Sent)
    ensures s.targets == [] ==>
              Endorse(env, s, sent) == s.(error := Some(Status("NoPeersFound", "targets were not provided")))
    ensures s.targets != [] && !env.hasProposal ==>
              Endorse(env, s, sent) == s.(error := Some(Plain("a signed proposal was not provided")))
    ensures s.targets != [] && env.hasProposal && !env.delegateTransactor ==>
              Endorse(env, s, sent) == s.(error := Some(Plain("no delegate transactor")))
    ensures s.targets != [] && env.hasProposal && env.delegateTransactor && sent.err.Some? ==>
              Endorse(env, s, sent) == s.(error := sent.err)
  {
  }
}
