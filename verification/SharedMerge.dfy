/** Merging a whole response into an invocation chain. A merged call is appended to in the memory of the
    call it came from as long as there is room, so when a response names a chaincode more than once, a
    later merge overwrites what an earlier one appended. */
module SharedMerge {
  import opened Common
  import opened Chain

  // ----- overwriting

  /** The content of an array of which the front has been overwritten by `content`, as far as it fits. */
  function Overwritten(was: seq<string>, content: seq<string>): seq<string> {
    if |content| <= |was| then content + was[|content|..] else content[..|was|]
  }

  /** The content of an array into which results with the given contents were put one after another. */
  function Rewritten(was: seq<string>, contents: seq<seq<string>>): (now: seq<string>)
    ensures |now| == |was|
  {
    if contents == [] then was
    else Overwritten(Rewritten(was, contents[..|contents| - 1]), contents[|contents| - 1])
  }

  lemma RewrittenStep(was: seq<string>, contents: seq<seq<string>>, content: seq<string>)
    ensures Rewritten(was, contents + [content]) == Overwritten(Rewritten(was, contents), content)
  {
    assert (contents + [content])[..|contents|] == contents;
  }

  lemma KeepsFront(was: seq<string>, front: seq<string>, content: seq<string>)
    requires front <= was && front <= content
    ensures front <= Overwritten(was, content)
  {
  }

  /** What all results start with is never overwritten. */
  lemma {:induction false} FrontStays(was: seq<string>, contents: seq<seq<string>>, front: seq<string>)
    requires front <= was && forall w :: w in contents ==> front <= w
    ensures front <= Rewritten(was, contents)
  {
    if contents != [] {
      var before, last := contents[..|contents| - 1], contents[|contents| - 1];
      assert contents == before + [last] && last in contents;
      assert forall w :: w in before ==> w in contents;
      FrontStays(was, before, front);
      KeepsFront(Rewritten(was, before), front, last);
    }
  }

  /** A front of the array is overwritten like an array of that length. */
  lemma {:induction false} RewrittenFront(was: seq<string>, contents: seq<seq<string>>, n: nat)
    requires n <= |was|
    ensures Rewritten(was, contents)[..n] == Rewritten(was[..n], contents)
  {
    if contents != [] {
      RewrittenFront(was, contents[..|contents| - 1], n);
    }
  }

  /** The last of the contents that reaches position `p`, or -1. */
  ghost function LastReaching(contents: seq<seq<string>>, p: nat): (j: int)
    ensures -1 <= j < |contents| && (j >= 0 ==> p < |contents[j]|)
    ensures forall k :: j < k < |contents| ==> |contents[k]| <= p
  {
    if contents == [] then -1
    else if p < |contents[|contents| - 1]| then |contents| - 1
    else LastReaching(contents[..|contents| - 1], p)
  }

  /** Every position holds what the last result reaching it wants there. */
  lemma {:induction false} RewrittenAt(was: seq<string>, contents: seq<seq<string>>, p: nat)
    requires p < |was|
    ensures Rewritten(was, contents)[p] ==
            if LastReaching(contents, p) < 0 then was[p] else contents[LastReaching(contents, p)][p]
  {
    if contents != [] {
      RewrittenAt(was, contents[..|contents| - 1], p);
    }
  }

  // ----- what the merged calls show in the end

  /** The contents the merges of the calls to `id` shall have, in order. */
  function WantedOf(chain: seq<ChaincodeCall>, calls: seq<ChaincodeCall>, id: string): seq<seq<string>> {
    if calls == [] then []
    else
      var front, last := WantedOf(chain, calls[..|calls| - 1], id), calls[|calls| - 1];
      if last.id == id then front + [MergeCall(chain, last).collections] else front
  }

  lemma WantedStep(chain: seq<ChaincodeCall>, calls: seq<ChaincodeCall>, call: ChaincodeCall, id: string)
    ensures WantedOf(chain, calls + [call], id) ==
            if call.id == id then WantedOf(chain, calls, id) + [MergeCall(chain, call).collections]
            else WantedOf(chain, calls, id)
  {
    assert (calls + [call])[..|calls|] == calls;
  }

  /** How much fits into the memory of the chain's first call to a chaincode. */
  type Room = string -> nat

  /** The merge of `call` is kept in the memory of the chain's first call to its chaincode. */
  predicate Shares(chain: seq<ChaincodeCall>, call: ChaincodeCall, room: Room) {
    First(chain, call.id).Some? && |MergeCall(chain, call).collections| <= room(call.id)
  }

  /** What the result for the `k`-th call shows when all calls have been merged: what it was merged to,
      overwritten by the later merges into the same memory. */
  function ShownCall(chain: seq<ChaincodeCall>, calls: seq<ChaincodeCall>, room: Room, k: nat): ChaincodeCall
    requires k < |calls|
  {
    var id, wanted := calls[k].id, MergeCall(chain, calls[k]).collections;
    ChaincodeCall(id,
                  if Shares(chain, calls[k], room) then Rewritten(wanted, WantedOf(chain, calls[k + 1..], id))
                  else wanted)
  }

  function ShownChain(chain: seq<ChaincodeCall>, calls: seq<ChaincodeCall>, room: Room): seq<ChaincodeCall> {
    seq(|calls|, k requires 0 <= k < |calls| => ShownCall(chain, calls, room, k))
  }

  /** What appending in shared memory does to the results there are. */
  function WrittenThrough(chain: seq<ChaincodeCall>, results: seq<ChaincodeCall>, merged: ChaincodeCall, room: Room)
    : seq<ChaincodeCall>
  {
    seq(|results|, k requires 0 <= k < |results| =>
      var c := results[k];
      if c.id == merged.id && First(chain, c.id).Some? && |c.collections| <= room(c.id)
      then c.(collections := Overwritten(c.collections, merged.collections)) else c)
  }

  lemma MergedId(chain: seq<ChaincodeCall>, call: ChaincodeCall)
    ensures MergeCall(chain, call).id == call.id
  {
    FirstIsFirst(chain, call.id);
  }

  /** One more merge, as an earlier result sees it. */
  lemma {:induction false} ShownLater(
      chain: seq<ChaincodeCall>, calls: seq<ChaincodeCall>, call: ChaincodeCall, room: Room, k: nat)
    requires k < |calls|
    ensures var shown := ShownCall(chain, calls, room, k);
            ShownCall(chain, calls + [call], room, k) ==
            if shown.id == call.id && First(chain, shown.id).Some? && |shown.collections| <= room(shown.id)
            then shown.(collections := Overwritten(shown.collections, MergeCall(chain, call).collections)) else shown
  {
    var id, wanted, later := calls[k].id, MergeCall(chain, calls[k]).collections, calls[k + 1..];
    assert (calls + [call])[k] == calls[k] && (calls + [call])[k + 1..] == later + [call];
    WantedStep(chain, later, call, id);
    RewrittenStep(wanted, WantedOf(chain, later, id), MergeCall(chain, call).collections);
  }

  lemma {:induction false} ShownNow(
      chain: seq<ChaincodeCall>, calls: seq<ChaincodeCall>, call: ChaincodeCall, room: Room)
    ensures ShownCall(chain, calls + [call], room, |calls|) == MergeCall(chain, call)
  {
    MergedId(chain, call);
    assert (calls + [call])[|calls| + 1..] == [];
  }

  lemma {:induction false} ShownStep(
      chain: seq<ChaincodeCall>, calls: seq<ChaincodeCall>, call: ChaincodeCall, room: Room)
    ensures ShownChain(chain, calls + [call], room) ==
            WrittenThrough(chain, ShownChain(chain, calls, room), MergeCall(chain, call), room)
            + [MergeCall(chain, call)]
  {
    MergedId(chain, call);
    ShownNow(chain, calls, call, room);
    forall k: nat | k < |calls|
      ensures ShownChain(chain, calls + [call], room)[k] ==
              WrittenThrough(chain, ShownChain(chain, calls, room), MergeCall(chain, call), room)[k]
    {
      ShownLater(chain, calls, call, room, k);
      assert ShownChain(chain, calls, room)[k] == ShownCall(chain, calls, room, k);
    }
  }

  /** `mergeInvocationChains`: every accepted call is merged into the first call to its chaincode, in the
      memory of that call if there is room. */
  method MergeInvocationChains(chain: seq<ChaincodeCall>, resp: seq<ChaincodeCall>, accept: string -> bool, room: Room)
    returns (mergedChain: seq<ChaincodeCall>, changed: bool)
    ensures mergedChain == ShownChain(chain, Accepted(resp, accept), room)
    ensures changed <==> Changes(chain, Accepted(resp, accept))
  {
    mergedChain, changed := [], false;
    for i := 0 to |resp|
      invariant mergedChain == ShownChain(chain, Accepted(resp[..i], accept), room)
      invariant changed <==> Changes(chain, Accepted(resp[..i], accept))
    {
      ghost var before := Accepted(resp[..i], accept);
      AcceptedStep(resp, accept, i);
      if accept(resp[i].id) {
        var mergedCall, merged := MergeCCCall(chain, resp[i]);
        changed := changed || merged;
        OneMoreAccepted(chain, before, resp[i]);
        ShownStep(chain, before, resp[i], room);
        mergedChain := WrittenThrough(chain, mergedChain, mergedCall, room) + [mergedCall];
      }
    }
    assert resp[..|resp|] == resp;
  }

  lemma AcceptedStep(calls: seq<ChaincodeCall>, accept: string -> bool, n: nat)
    requires n < |calls|
    ensures Accepted(calls[..n + 1], accept) ==
            if accept(calls[n].id) then Accepted(calls[..n], accept) + [calls[n]] else Accepted(calls[..n], accept)
  {
    assert calls[..n + 1][..n] == calls[..n];
  }

  lemma OneMoreAccepted(chain: seq<ChaincodeCall>, calls: seq<ChaincodeCall>, call: ChaincodeCall)
    ensures Changes(chain, calls + [call]) <==> Changes(chain, calls) || CallAddsTo(chain, call)
  {
    assert (calls + [call])[|calls|] == call;
    assert forall i :: 0 <= i < |calls| ==> (calls + [call])[i] == calls[i];
  }

  // ----- which results survive

  lemma {:induction false} WantedStartsKnown(chain: seq<ChaincodeCall>, calls: seq<ChaincodeCall>, id: string)
    ensures forall w :: w in WantedOf(chain, calls, id) ==> Known(chain, id) <= w
  {
    if calls != [] {
      var last := calls[|calls| - 1];
      WantedStartsKnown(chain, calls[..|calls| - 1], id);
      FirstIsFirst(chain, last.id);
      AddNewContent(Known(chain, last.id), last.collections);
    }
  }

  lemma {:induction false} NoneWanted(chain: seq<ChaincodeCall>, calls: seq<ChaincodeCall>, id: string)
    requires forall k :: 0 <= k < |calls| ==> calls[k].id != id
    ensures WantedOf(chain, calls, id) == []
  {
    if calls != [] {
      NoneWanted(chain, calls[..|calls| - 1], id);
    }
  }

  /** The last result for a chaincode shows what it was merged to. */
  lemma LastSurvives(chain: seq<ChaincodeCall>, calls: seq<ChaincodeCall>, room: Room, k: nat)
    requires k < |calls| && forall j :: k < j < |calls| ==> calls[j].id != calls[k].id
    ensures ShownCall(chain, calls, room, k) == MergeCall(chain, calls[k])
  {
    NoneWanted(chain, calls[k + 1..], calls[k].id);
    MergedId(chain, calls[k]);
  }

  ghost predicate AgreesWithLast(wanted: seq<string>, contents: seq<seq<string>>) {
    forall p: nat :: p < |wanted| && LastReaching(contents, p) >= 0
                     ==> contents[LastReaching(contents, p)][p] == wanted[p]
  }

  /** A result survives exactly if it is not in shared memory or, at each of its positions, the last later
      merge that reaches it wants the same string there. */
  lemma {:induction false} SurvivesIff(chain: seq<ChaincodeCall>, calls: seq<ChaincodeCall>, room: Room, k: nat)
    requires k < |calls|
    ensures var wanted := MergeCall(chain, calls[k]);
            ShownCall(chain, calls, room, k) == wanted <==>
            (Shares(chain, calls[k], room) ==>
               AgreesWithLast(wanted.collections, WantedOf(chain, calls[k + 1..], calls[k].id)))
  {
    var wanted, later := MergeCall(chain, calls[k]).collections, WantedOf(chain, calls[k + 1..], calls[k].id);
    MergedId(chain, calls[k]);
    forall p: nat | p < |wanted|
      ensures Rewritten(wanted, later)[p] ==
              if LastReaching(later, p) < 0 then wanted[p] else later[LastReaching(later, p)][p]
    {
      RewrittenAt(wanted, later, p);
    }
  }

  /** In the end, results have the accepted ids in order and as many collections as they were merged to,
      and they begin with what was known; what they show beyond that was merged for the same chaincode. */
  lemma {:induction false} ShownMeaning(chain: seq<ChaincodeCall>, calls: seq<ChaincodeCall>, room: Room, k: nat)
    requires k < |calls|
    ensures var shown := ShownCall(chain, calls, room, k);
            && shown.id == calls[k].id
            && |shown.collections| == |MergeCall(chain, calls[k]).collections|
            && Known(chain, shown.id) <= shown.collections
            && forall x :: x in shown.collections ==>
                 || x in Known(chain, shown.id)
                 || exists j :: k <= j < |calls| && calls[j].id == shown.id && x in calls[j].collections
  {
    var id, wanted, later := calls[k].id, MergeCall(chain, calls[k]).collections, calls[k + 1..];
    FirstIsFirst(chain, id);
    AddNewContent(Known(chain, id), calls[k].collections);
    WantedStartsKnown(chain, later, id);
    FrontStays(wanted, WantedOf(chain, later, id), Known(chain, id));
    forall x | x in ShownCall(chain, calls, room, k).collections
      ensures x in Known(chain, id) || exists j :: k <= j < |calls| && calls[j].id == id && x in calls[j].collections
    {
      if x in calls[k].collections {
        assert k <= k < |calls| && calls[k].id == id && x in calls[k].collections;
      } else if x !in Known(chain, id) {
        var j := ShownFrom(chain, wanted, later, id, x);
        assert calls[k + 1 + j] == later[j];
      }
    }
  }

  /** A string that overwriting brought in was wanted by a later merge. */
  lemma {:induction false} ShownFrom(
      chain: seq<ChaincodeCall>, was: seq<string>, calls: seq<ChaincodeCall>, id: string, x: string)
    returns (j: nat)
    requires x in Rewritten(was, WantedOf(chain, calls, id)) && x !in was && x !in Known(chain, id)
    ensures j < |calls| && calls[j].id == id && x in calls[j].collections
  {
    var front, last := calls[..|calls| - 1], calls[|calls| - 1];
    if x in Rewritten(was, WantedOf(chain, front, id)) {
      j := ShownFrom(chain, was, front, id, x);
    } else {
      j := |calls| - 1;
      assert calls == front + [last];
      WantedStep(chain, front, last, id);
      RewrittenStep(was, WantedOf(chain, front, id), MergeCall(chain, last).collections);
      AddNewContent(Known(chain, id), last.collections);
    }
  }

  /** Distinct ids: every result survives. */
  lemma ShownDistinct(chain: seq<ChaincodeCall>, calls: seq<ChaincodeCall>, room: Room)
    requires DistinctIds(calls)
    ensures ShownChain(chain, calls, room) == MergeAll(chain, calls)
  {
    forall k: nat | k < |calls|
      ensures ShownCall(chain, calls, room, k) == MergeCall(chain, calls[k])
    {
      LastSurvives(chain, calls, room, k);
    }
  }

  /** The last entry of a merged chain for `id` lists what was known and what the last accepted call adds. */
  lemma LastOfShown(id: string, chain: seq<ChaincodeCall>, calls: seq<ChaincodeCall>, room: Room, x: string)
    requires Calls(calls, id)
    ensures x in LastOf(id, ShownChain(chain, calls, room)) <==> x in Known(chain, id) || x in LastOf(id, calls)
  {
    var j := LastCall(calls, id);
    LastOfAt(calls, j);
    LastOfAt(ShownChain(chain, calls, room), j);
    LastSurvives(chain, calls, room, j);
    FirstIsFirst(chain, id);
    AddNewContent(Known(chain, id), calls[j].collections);
  }

  // ----- what the second selection is asked about

  /** Collection `x` of chaincode `id` can be found after merging and rebuilding: in the last call to the
      primary chaincode, or in some result for another one that still shows it. */
  ghost predicate Kept(
      primary: string, chain: seq<ChaincodeCall>, calls: seq<ChaincodeCall>, room: Room, id: string, x: string)
  {
    if id == primary then x in Known(chain, primary) || x in LastOf(primary, calls)
    else exists k :: 0 <= k < |calls| && calls[k].id == id && x in ShownCall(chain, calls, room, k).collections
  }

  /** The guard under which merging and rebuilding lose nothing of the response. */
  ghost predicate NothingLost(primary: string, chain: seq<ChaincodeCall>, calls: seq<ChaincodeCall>, room: Room) {
    forall i, x :: 0 <= i < |calls| && x in calls[i].collections ==> Kept(primary, chain, calls, room, calls[i].id, x)
  }

  lemma RebuiltKeeps(
      primary: string, chain: seq<ChaincodeCall>, calls: seq<ChaincodeCall>, room: Room, id: string, x: string)
    requires Calls(calls, id)
    ensures Mentions(NewChain(primary, ShownChain(chain, calls, room)), Collection(id, x))
            <==> Kept(primary, chain, calls, room, id, x)
  {
    var shown := ShownChain(chain, calls, room);
    RebuiltMentions(primary, shown, Collection(id, x));
    if id == primary {
      LastOfShown(primary, chain, calls, room, x);
    } else {
      forall k | 0 <= k < |calls|
        ensures CallMentions(shown[k], Collection(id, x)) <==>
                calls[k].id == id && x in ShownCall(chain, calls, room, k).collections
      {
      }
    }
  }

  /** The rebuilt chain names the primary chaincode and those of the response, and no others: calls of
      the old chain that the response does not touch are dropped. */
  lemma RebuiltNamesIff(
      primary: string, chain: seq<ChaincodeCall>, calls: seq<ChaincodeCall>, room: Room, id: string)
    ensures Mentions(NewChain(primary, ShownChain(chain, calls, room)), Chaincode(id))
            <==> id == primary || Calls(calls, id)
  {
    var shown := ShownChain(chain, calls, room);
    RebuiltMentions(primary, shown, Chaincode(id));
    if Calls(calls, id) {
      var i :| 0 <= i < |calls| && calls[i].id == id;
      assert CallMentions(shown[i], Chaincode(id));
    }
    if Mentions(shown, Chaincode(id)) {
      var k :| 0 <= k < |shown| && CallMentions(shown[k], Chaincode(id));
      assert calls[k].id == id;
    }
  }

  /** The chain given to the second selection covers the response exactly when nothing is lost. */
  lemma RebuiltCoversIff(primary: string, chain: seq<ChaincodeCall>, calls: seq<ChaincodeCall>, room: Room)
    ensures Covers(NewChain(primary, ShownChain(chain, calls, room)), calls)
            <==> NothingLost(primary, chain, calls, room)
  {
    var rebuilt := NewChain(primary, ShownChain(chain, calls, room));
    forall item | Mentions(calls, item)
      ensures Calls(calls, item.id)
      ensures item.Chaincode? ==> Mentions(rebuilt, item)
      ensures item.Collection? ==> (Mentions(rebuilt, item) <==> Kept(primary, chain, calls, room, item.id, item.name))
    {
      var i :| 0 <= i < |calls| && CallMentions(calls[i], item);
      if item.Chaincode? {
        RebuiltNamesIff(primary, chain, calls, room, item.id);
      } else {
        RebuiltKeeps(primary, chain, calls, room, item.id, item.name);
      }
    }
    forall i, x | 0 <= i < |calls| && x in calls[i].collections
      ensures Mentions(calls, Collection(calls[i].id, x))
    {
      assert CallMentions(calls[i], Collection(calls[i].id, x));
    }
    if NothingLost(primary, chain, calls, room) {
      forall item | Mentions(calls, item) && item.Collection?
        ensures Kept(primary, chain, calls, room, item.id, item.name)
      {
        var i :| 0 <= i < |calls| && CallMentions(calls[i], item);
      }
    }
  }

  /** The guard under which each item of the response is in one of the two chains selection is asked about. */
  ghost predicate AskedAbout(primary: string, chain: seq<ChaincodeCall>, calls: seq<ChaincodeCall>, room: Room) {
    forall i, x :: 0 <= i < |calls| && x in calls[i].collections ==>
      Kept(primary, chain, calls, room, calls[i].id, x) || Mentions(chain, Collection(calls[i].id, x))
  }

  lemma AskedAboutItem(
      primary: string, chain: seq<ChaincodeCall>, calls: seq<ChaincodeCall>, room: Room, item: Item)
    requires AskedAbout(primary, chain, calls, room) && Mentions(calls, item)
    ensures Mentions(chain, item) || Mentions(NewChain(primary, ShownChain(chain, calls, room)), item)
  {
    var i :| 0 <= i < |calls| && CallMentions(calls[i], item);
    if item.Chaincode? {
      RebuiltNamesIff(primary, chain, calls, room, item.id);
    } else {
      RebuiltKeeps(primary, chain, calls, room, item.id, item.name);
    }
  }

  /** If the guard fails, some collection of the response is in neither chain. */
  lemma NotAskedAbout(primary: string, chain: seq<ChaincodeCall>, calls: seq<ChaincodeCall>, room: Room)
    returns (item: Item)
    requires !AskedAbout(primary, chain, calls, room)
    ensures Mentions(calls, item) && !Mentions(chain, item)
    ensures !Mentions(NewChain(primary, ShownChain(chain, calls, room)), item)
  {
    var i, x :| 0 <= i < |calls| && x in calls[i].collections
                && !Kept(primary, chain, calls, room, calls[i].id, x) && !Mentions(chain, Collection(calls[i].id, x));
    item := Collection(calls[i].id, x);
    assert CallMentions(calls[i], item);
    RebuiltKeeps(primary, chain, calls, room, calls[i].id, x);
  }

  // ----- merging the same response again

  /** Collection `x` is shown by the call that a rebuild puts first for chaincode `id`: the last one for the
      primary, the first result otherwise. */
  ghost predicate RepresentativeShows(
      primary: string, chain: seq<ChaincodeCall>, calls: seq<ChaincodeCall>, room: Room, id: string, x: string)
  {
    if id == primary then x in Known(chain, primary) || x in LastOf(primary, calls)
    else x in Known(ShownChain(chain, calls, room), id)
  }

  ghost predicate RepresentativesShow(
      primary: string, chain: seq<ChaincodeCall>, calls: seq<ChaincodeCall>, room: Room)
  {
    forall i, x :: 0 <= i < |calls| && x in calls[i].collections ==>
      RepresentativeShows(primary, chain, calls, room, calls[i].id, x)
  }

  lemma FoundAgain(primary: string, chain: seq<ChaincodeCall>, calls: seq<ChaincodeCall>, room: Room, i: nat, x: string)
    requires i < |calls|
    ensures var rebuilt := NewChain(primary, ShownChain(chain, calls, room));
            && First(rebuilt, calls[i].id).Some?
            && (x in Known(rebuilt, calls[i].id) <==> RepresentativeShows(primary, chain, calls, room, calls[i].id, x))
  {
    var shown := ShownChain(chain, calls, room);
    RebuiltFirst(primary, shown, calls[i].id);
    if calls[i].id == primary {
      LastOfShown(primary, chain, calls, room, x);
    } else {
      assert shown[i].id == calls[i].id;
      FirstIsFirst(shown, calls[i].id);
    }
  }

  /** Merging the same response into the rebuilt chain is quiet exactly when the representatives show it. */
  lemma MergeAgainQuietIff(primary: string, chain: seq<ChaincodeCall>, calls: seq<ChaincodeCall>, room: Room)
    ensures !Changes(NewChain(primary, ShownChain(chain, calls, room)), calls)
            <==> RepresentativesShow(primary, chain, calls, room)
  {
    var rebuilt := NewChain(primary, ShownChain(chain, calls, room));
    forall i: nat | i < |calls|
      ensures CallAddsTo(rebuilt, calls[i]) <==>
              exists x :: x in calls[i].collections && !RepresentativeShows(primary, chain, calls, room, calls[i].id, x)
    {
      forall x
        ensures x in Known(rebuilt, calls[i].id) <==> RepresentativeShows(primary, chain, calls, room, calls[i].id, x)
        ensures First(rebuilt, calls[i].id).Some?
      {
        FoundAgain(primary, chain, calls, room, i, x);
      }
      FoundAgain(primary, chain, calls, room, i, "");
    }
  }

  /** A quiet second merge means that nothing was lost. */
  lemma RepresentativesLoseNothing(
      primary: string, chain: seq<ChaincodeCall>, calls: seq<ChaincodeCall>, room: Room)
    requires RepresentativesShow(primary, chain, calls, room)
    ensures NothingLost(primary, chain, calls, room)
  {
    MergeAgainQuietIff(primary, chain, calls, room);
    UnchangedCovers(NewChain(primary, ShownChain(chain, calls, room)), calls);
    RebuiltCoversIff(primary, chain, calls, room);
  }

  /** Distinct namespaces are enough for all guards. */
  lemma {:induction false} DistinctSuffices(
      primary: string, chain: seq<ChaincodeCall>, calls: seq<ChaincodeCall>, room: Room)
    requires DistinctIds(calls)
    ensures RepresentativesShow(primary, chain, calls, room)
    ensures NothingLost(primary, chain, calls, room) && AskedAbout(primary, chain, calls, room)
  {
    forall i, x | 0 <= i < |calls| && x in calls[i].collections
      ensures RepresentativeShows(primary, chain, calls, room, calls[i].id, x)
    {
      DistinctShows(primary, chain, calls, room, i, x);
    }
    RepresentativesLoseNothing(primary, chain, calls, room);
  }

  lemma {:induction false} DistinctShows(
      primary: string, chain: seq<ChaincodeCall>, calls: seq<ChaincodeCall>, room: Room, i: nat, x: string)
    requires DistinctIds(calls) && i < |calls| && x in calls[i].collections
    ensures RepresentativeShows(primary, chain, calls, room, calls[i].id, x)
  {
    LastOfAt(calls, i);
    FoundDistinct(chain, calls, room, i);
    FirstIsFirst(chain, calls[i].id);
    AddNewContent(Known(chain, calls[i].id), calls[i].collections);
  }

  /** With distinct namespaces the result for each call is found again as it was merged. */
  lemma {:induction false} FoundDistinct(
      chain: seq<ChaincodeCall>, calls: seq<ChaincodeCall>, room: Room, i: nat)
    requires DistinctIds(calls) && i < |calls|
    ensures First(ShownChain(chain, calls, room), calls[i].id) == Some(MergeCall(chain, calls[i]))
    ensures LastOf(calls[i].id, ShownChain(chain, calls, room)) == MergeCall(chain, calls[i]).collections
  {
    var shown := ShownChain(chain, calls, room);
    LastSurvives(chain, calls, room, i);
    assert shown[i] == MergeCall(chain, calls[i]);
    assert forall k :: 0 <= k < |shown| ==> shown[k].id == calls[k].id;
    FirstIsFirst(shown, calls[i].id);
    LastOfAt(shown, i);
  }

  /** With distinct namespaces, a second merge of the same response, whatever the room, reports no change
      and gives back the same merged chain. */
  lemma MergeAgainSame(
      primary: string, chain: seq<ChaincodeCall>, calls: seq<ChaincodeCall>, room: Room, roomAgain: Room)
    requires DistinctIds(calls)
    ensures var shown := ShownChain(chain, calls, room);
            && !Changes(NewChain(primary, shown), calls)
            && ShownChain(NewChain(primary, shown), calls, roomAgain) == shown
  {
    var shown := ShownChain(chain, calls, room);
    DistinctSuffices(primary, chain, calls, room);
    MergeAgainQuietIff(primary, chain, calls, room);
    forall i: nat | i < |calls|
      ensures ShownCall(NewChain(primary, shown), calls, roomAgain, i) == ShownCall(chain, calls, room, i)
    {
      SameAgain(primary, chain, calls, room, roomAgain, i);
    }
  }

  lemma {:induction false} SameAgain(
      primary: string, chain: seq<ChaincodeCall>, calls: seq<ChaincodeCall>, room: Room, roomAgain: Room, i: nat)
    requires DistinctIds(calls) && i < |calls|
    requires !Changes(NewChain(primary, ShownChain(chain, calls, room)), calls)
    ensures ShownCall(NewChain(primary, ShownChain(chain, calls, room)), calls, roomAgain, i) ==
            ShownCall(chain, calls, room, i)
  {
    var shown := ShownChain(chain, calls, room);
    assert !CallAddsTo(NewChain(primary, shown), calls[i]);
    LastSurvives(chain, calls, room, i);
    LastSurvives(NewChain(primary, shown), calls, roomAgain, i);
    FoundDistinct(chain, calls, room, i);
    RebuiltFirst(primary, shown, calls[i].id);
    MergedId(chain, calls[i]);
    AddNewContent(MergeCall(chain, calls[i]).collections, calls[i].collections);
  }

  // ----- runs of merges

  /** The chain after an attempt that found `calls`: rebuilt and merged if something is new. */
  function Absorbed(primary: string, chain: seq<ChaincodeCall>, calls: seq<ChaincodeCall>, room: Room)
    : seq<ChaincodeCall>
  {
    if Changes(NewChain(primary, chain), calls) then ShownChain(NewChain(primary, chain), calls, room) else chain
  }

  function AbsorbedAll(primary: string, chain: seq<ChaincodeCall>, found: seq<seq<ChaincodeCall>>, rooms: seq<Room>)
    : seq<ChaincodeCall>
    requires |found| == |rooms|
  {
    if found == [] then chain
    else
      var n := |found| - 1;
      Absorbed(primary, AbsorbedAll(primary, chain, found[..n], rooms[..n]), found[n], rooms[n])
  }

  // ----- responses that name a chaincode twice

  lemma AddOne(base: seq<string>, x: string)
    requires x !in base
    ensures AddNew(base, [x]) == base + [x]
  {
    assert [x][..0] == [];
  }

  lemma AddTwo(base: seq<string>, x: string, y: string)
    requires x !in base && y !in base && x != y
    ensures AddNew(base, [x, y]) == base + [x, y]
  {
    var more := [x, y];
    assert more[..1] == [x];
    AddOne(base, x);
  }

  lemma ShownOfTwo(chain: seq<ChaincodeCall>, c1: ChaincodeCall, c2: ChaincodeCall, room: Room)
    requires c1.id == c2.id
    ensures ShownChain(chain, [c1, c2], room) ==
            [if Shares(chain, c1, room)
             then ChaincodeCall(c1.id, Overwritten(MergeCall(chain, c1).collections, MergeCall(chain, c2).collections))
             else MergeCall(chain, c1), MergeCall(chain, c2)]
  {
    MergedId(chain, c1);
    MergedId(chain, c2);
    assert [c1] == [] + [c1] && [c1, c2] == [c1] + [c2];
    ShownStep(chain, [], c1, room);
    ShownStep(chain, [c1], c2, room);
  }

  lemma {:induction false} AcceptedTwo(calls: seq<ChaincodeCall>, accept: string -> bool)
    requires |calls| == 2 && accept(calls[0].id) && accept(calls[1].id)
    ensures Accepted(calls, accept) == calls
  {
    AcceptedStep(calls, accept, 0);
    AcceptedStep(calls, accept, 1);
    assert calls[..2] == calls && calls == [calls[0]] + [calls[1]];
    assert Accepted(calls[..0], accept) == [];
    assert Accepted(calls[..1], accept) == [calls[0]];
  }

  /** Two entries for one chaincode, with room for one more collection: the first result shows what the
      second one was merged to. */
  lemma {:induction false} OverwrittenByNext(
      chain: seq<ChaincodeCall>, calls: seq<ChaincodeCall>, k: string, x: string, y: string, room: Room)
    requires |chain| == 1 && |calls| == 2 && chain[0].id == calls[0].id == calls[1].id
    requires chain[0].collections == [k] && calls[0].collections == [x] && calls[1].collections == [y]
    requires k != x && k != y && x != y && room(calls[0].id) >= 2
    ensures ShownChain(chain, calls, room) == [ChaincodeCall(calls[0].id, [k, y]), ChaincodeCall(calls[0].id, [k, y])]
    ensures MergeCall(chain, calls[0]) == ChaincodeCall(calls[0].id, [k, x])
  {
    var first, second := [k] + [x], [k] + [y];
    FirstIsFirst(chain, calls[0].id);
    AddOne([k], x);
    AddOne([k], y);
    assert MergeCall(chain, calls[0]).collections == first && MergeCall(chain, calls[1]).collections == second;
    assert calls == [calls[0], calls[1]];
    ShownOfTwo(chain, calls[0], calls[1], room);
    assert Shares(chain, calls[0], room) && MergeCall(chain, calls[1]) == ChaincodeCall(calls[0].id, second);
    assert Overwritten(first, second) == second + first[2..] == second == [k, y];
  }

  /** Two entries for the primary chaincode lose a collection before the second selection. */
  lemma RepeatedPrimaryLosesCollection(room: Room)
    ensures var chain, calls := [ChaincodeCall("p", [])], [ChaincodeCall("p", ["x"]), ChaincodeCall("p", ["y"])];
            !Covers(NewChain("p", ShownChain(chain, calls, room)), calls)
  {
    var chain, calls := [ChaincodeCall("p", [])], [ChaincodeCall("p", ["x"]), ChaincodeCall("p", ["y"])];
    RebuiltCoversIff("p", chain, calls, room);
    assert "x" in calls[0].collections;
    assert "x" !in Known(chain, "p") && "x" !in LastOf("p", calls);
    assert !Kept("p", chain, calls, room, calls[0].id, "x");
  }

  lemma {:induction false} RepeatedOtherShows(
      chain: seq<ChaincodeCall>, calls: seq<ChaincodeCall>, k: string, x: string, y: string, room: Room)
    requires |chain| == |calls| == 2 && chain[0].id != chain[1].id == calls[0].id == calls[1].id
    requires chain[1].collections == [k] && calls[0].collections == [x, y] && calls[1].collections == [y]
    requires k != x && k != y && x != y && room(calls[0].id) >= 3
    ensures ShownCall(chain, calls, room, 0) == ChaincodeCall(calls[0].id, [k, y, y])
    ensures ShownCall(chain, calls, room, 1) == ChaincodeCall(calls[0].id, [k, y])
  {
    var first, second := [k] + [x, y], [k] + [y];
    FirstIsFirst(chain, calls[0].id);
    AddTwo([k], x, y);
    AddOne([k], y);
    assert MergeCall(chain, calls[0]).collections == first && MergeCall(chain, calls[1]).collections == second;
    ShownOfTwo(chain, calls[0], calls[1], room);
    assert calls == [calls[0], calls[1]];
    assert Overwritten(first, second) == second + first[2..] == [k, y, y];
    assert ShownChain(chain, calls, room)[0] == ShownCall(chain, calls, room, 0);
    assert ShownChain(chain, calls, room)[1] == ShownCall(chain, calls, room, 1);
  }

  /** Two entries for another chaincode lose a collection if there is room to write both: what the first
      entry appended is overwritten by what the second one does. The collection is in neither chain that
      selection is asked about, and merging the same response again is not quiet. */
  lemma {:induction false} RepeatedOtherLosesCollection(
      primary: string, chain: seq<ChaincodeCall>, calls: seq<ChaincodeCall>, k: string, x: string, y: string,
      room: Room)
    requires |chain| == |calls| == 2 && primary == chain[0].id != chain[1].id == calls[0].id == calls[1].id
    requires chain[1].collections == [k] && calls[0].collections == [x, y] && calls[1].collections == [y]
    requires k != x && k != y && x != y && room(calls[0].id) >= 3
    ensures ShownChain(chain, calls, room) ==
            [ChaincodeCall(calls[0].id, [k, y, y]), ChaincodeCall(calls[0].id, [k, y])]
    ensures !AskedAbout(primary, chain, calls, room)
    ensures !NothingLost(primary, chain, calls, room)
    ensures !RepresentativesShow(primary, chain, calls, room)
  {
    RepeatedOtherShows(chain, calls, k, x, y, room);
    assert x in calls[0].collections && !Kept(primary, chain, calls, room, calls[0].id, x);
    assert !Mentions(chain, Collection(calls[0].id, x));
    if RepresentativesShow(primary, chain, calls, room) {
      RepresentativesLoseNothing(primary, chain, calls, room);
    }
  }

  /** Two response entries for one chaincode can make the second merge report a change again. */
  lemma RepeatedIdKeepsChanging(room: Room)
    ensures var calls := [ChaincodeCall("a", ["x"]), ChaincodeCall("a", ["y"])];
            Changes(NewChain("p", ShownChain([ChaincodeCall("p", [])], calls, room)), calls)
  {
    var calls := [ChaincodeCall("a", ["x"]), ChaincodeCall("a", ["y"])];
    var chain := [ChaincodeCall("p", [])];
    MergeAgainQuietIff("p", chain, calls, room);
    assert First(chain[1..], "a") == None;
    ShownOfTwo(chain, calls[0], calls[1], room);
    assert "y" in calls[1].collections;
    assert "y" !in Known(ShownChain(chain, calls, room), "a");
  }
}
