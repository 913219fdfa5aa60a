/** Rebuilding a chain and running whole attempts with Go's slices: who shares memory with whom. */
module SliceRuns {
  import opened Common
  import opened Chain
  import opened SharedMerge
  import opened SliceMerge
  import opened Endorsement
  import opened Retry

  function LastSlice(id: string, chain: seq<SliceCall>, none: Slice): Slice {
    if chain == [] then none
    else if chain[|chain| - 1].id == id then chain[|chain| - 1].collections
    else LastSlice(id, chain[..|chain| - 1], none)
  }

  function OtherSlices(id: string, chain: seq<SliceCall>): seq<SliceCall> {
    if chain == [] then []
    else
      var front := OtherSlices(id, chain[..|chain| - 1]);
      if chain[|chain| - 1].id == id then front else front + [chain[|chain| - 1]]
  }

  lemma {:induction false} SlicesShow(id: string, chain: seq<SliceCall>, none: Slice)
    requires AllFit(chain) && Fits(none) && View(none) == []
    ensures AllFit(OtherSlices(id, chain)) && Views(OtherSlices(id, chain)) == Others(id, Views(chain))
    ensures Fits(LastSlice(id, chain, none)) && View(LastSlice(id, chain, none)) == LastOf(id, Views(chain))
  {
    if chain != [] {
      var n := |chain| - 1;
      assert Views(chain)[..n] == Views(chain[..n]) && Views(chain)[n] == CallView(chain[n]);
      SlicesShow(id, chain[..n], none);
    }
  }

  lemma {:induction false} SlicesUnshared(id: string, chain: seq<SliceCall>, none: Slice)
    requires Disjoint(chain) && none.arr !in Arrays(chain)
    ensures Disjoint(OtherSlices(id, chain))
    ensures Arrays(OtherSlices(id, chain)) <= Arrays(chain)
    ensures LastSlice(id, chain, none).arr in Arrays(chain) + {none.arr} - Arrays(OtherSlices(id, chain))
  {
    if chain != [] {
      var n := |chain| - 1;
      var last := chain[n];
      ArrayMembers(chain);
      assert Arrays(chain) == Arrays(chain[..n]) + {last.collections.arr} by {
        assert chain == chain[..n] + [last];
        ArraysAppend(chain[..n], last);
      }
      assert last.collections.arr !in Arrays(chain[..n]);
      SlicesUnshared(id, chain[..n], none);
      ArraysAppend(OtherSlices(id, chain[..n]), last);
      ArrayMembers(OtherSlices(id, chain[..n]));
    }
  }

  function SliceChain(primary: string, chain: seq<SliceCall>, none: Slice): seq<SliceCall> {
    [SliceCall(primary, LastSlice(primary, chain, none))] + OtherSlices(primary, chain)
  }

  lemma SliceChainShows(primary: string, chain: seq<SliceCall>, none: Slice)
    requires AllFit(chain) && Fits(none) && View(none) == []
    ensures AllFit(SliceChain(primary, chain, none))
    ensures Views(SliceChain(primary, chain, none)) == NewChain(primary, Views(chain))
  {
    SlicesShow(primary, chain, none);
    ViewsCons(SliceCall(primary, LastSlice(primary, chain, none)), OtherSlices(primary, chain));
  }

  lemma ViewsCons(c: SliceCall, calls: seq<SliceCall>)
    requires Fits(c.collections) && AllFit(calls)
    ensures AllFit([c] + calls) && Views([c] + calls) == [CallView(c)] + Views(calls)
  {
  }

  lemma {:induction false} OtherSlicesMembers(id: string, chain: seq<SliceCall>)
    ensures forall c :: c in OtherSlices(id, chain) ==> c in chain && c.id != id
  {
    if chain != [] {
      OtherSlicesMembers(id, chain[..|chain| - 1]);
    }
  }

  lemma {:induction false} LastSliceFrom(id: string, chain: seq<SliceCall>, none: Slice)
    ensures LastSlice(id, chain, none) == none || SliceCall(id, LastSlice(id, chain, none)) in chain
  {
    if chain != [] {
      LastSliceFrom(id, chain[..|chain| - 1], none);
    }
  }

  /** Where the rebuilt calls come from. */
  lemma {:induction false} SliceChainMembers(primary: string, chain: seq<SliceCall>, none: Slice, c: SliceCall)
    requires c in SliceChain(primary, chain, none)
    ensures c in chain || c == SliceCall(primary, none)
  {
    OtherSlicesMembers(primary, chain);
    LastSliceFrom(primary, chain, none);
  }

  lemma {:induction false} MembersById(calls: seq<SliceCall>, chain: seq<SliceCall>, extra: SliceCall)
    requires ById(chain) && extra.collections.arr !in Arrays(chain)
    requires forall c :: c in calls ==> c in chain || c == extra
    ensures ById(calls)
  {
    ArrayMembers(chain);
    forall i, j | 0 <= i < j < |calls| && calls[i].collections.arr == calls[j].collections.arr
      ensures calls[i].id == calls[j].id
    {
      assert calls[i] in calls && calls[j] in calls;
    }
  }

  /** Rebuilding takes slices over: all memory is the old chain's but for at most one empty slice, calls
      share memory with calls to their own chaincode only if they did, and with none if they did not. */
  lemma {:induction false} SliceChainUnshared(primary: string, chain: seq<SliceCall>, none: Slice)
    requires none.arr !in Arrays(chain)
    ensures Arrays(SliceChain(primary, chain, none)) <= Arrays(chain) + {none.arr}
    ensures ById(chain) ==> ById(SliceChain(primary, chain, none))
    ensures Disjoint(chain) ==> Disjoint(SliceChain(primary, chain, none))
  {
    var calls := SliceChain(primary, chain, none);
    ArrayMembers(chain);
    forall c | c in calls
      ensures c in chain || c == SliceCall(primary, none)
    {
      SliceChainMembers(primary, chain, none, c);
    }
    forall i | 0 <= i < |calls|
      ensures calls[i].collections.arr in Arrays(chain) + {none.arr}
    {
      assert calls[i] in calls;
    }
    if ById(chain) {
      MembersById(calls, chain, SliceCall(primary, none));
    }
    if Disjoint(chain) {
      SlicesUnshared(primary, chain, none);
      ArrayMembers(OtherSlices(primary, chain));
    }
  }

  /** `newInvocationChain` on slices: the primary call takes over the slice of its last entry, or the
      empty slice `none`, and the other calls keep theirs. */
  method NewInvocationChain(primary: string, chain: seq<SliceCall>)
    returns (calls: seq<SliceCall>, ghost none: Slice)
    requires AllFit(chain)
    ensures fresh(none.arr) && none.len == none.arr.Length == 0 && calls == SliceChain(primary, chain, none)
    ensures AllFit(calls) && Views(calls) == NewChain(primary, Views(chain))
    ensures Arrays(calls) <= Arrays(chain) + {none.arr}
    ensures ById(chain) ==> ById(calls)
    ensures Disjoint(chain) ==> Disjoint(calls)
  {
    var empty := new string[0];
    none := Slice(empty, 0);
    calls := [SliceCall(primary, Slice(empty, 0))];
    for i := 0 to |chain|
      invariant calls == SliceChain(primary, chain[..i], none)
    {
      assert chain[..i + 1][..i] == chain[..i];
      if chain[i].id == calls[0].id {
        calls := calls[0 := calls[0].(collections := chain[i].collections)];
      } else {
        calls := calls + [chain[i]];
      }
    }
    assert chain[..|chain|] == chain;
    SliceChainShows(primary, chain, none);
    SliceChainUnshared(primary, chain, none);
  }

  // ----- runs of attempts

  /** What calls show depends on the contents of their arrays only. */
  lemma {:induction false} ContentsShow(chain: seq<SliceCall>, contents: seq<seq<string>>, views: seq<ChaincodeCall>)
    requires Started(chain, contents, views) && Contents(chain) == contents
    ensures Views(chain) == views
  {
    forall i | 0 <= i < |chain|
      ensures CallView(chain[i]) == views[i]
    {
      assert Contents(chain)[i] == chain[i].collections.arr[..];
      assert View(chain[i].collections) == chain[i].collections.arr[..][..chain[i].collections.len];
    }
  }

  /** The merge, as far as later attempts depend on it. `memory` is where the chain's slices are. */
  method MergeWithin(
      chain: seq<SliceCall>, resp: seq<SliceCall>, accept: string -> bool,
      ghost memory: set<array<string>>, ghost calls: seq<ChaincodeCall>)
    returns (out: seq<SliceCall>, changed: bool)
    requires Mergeable(chain, resp) && Arrays(chain) <= memory && calls == Accepted(Views(resp), accept)
    modifies memory
    ensures changed <==> Changes(old(Views(chain)), calls)
    ensures !changed ==> forall a :: a in memory ==> a[..] == old(a[..])
    ensures AllFit(out) && ById(out) && fresh(Arrays(out) - memory - Arrays(resp))
    ensures Views(out) == ShownChain(old(Views(chain)), calls, RoomOf(chain))
    ensures DistinctIds(calls) ==> Disjoint(out)
  {
    out, changed := SliceMerge.MergeInvocationChains(chain, resp, accept);
  }

  /** The room an attempt finds: that of the slices in the rebuilt chain. `none` is the empty slice of a
      primary chaincode that the chain does not name. */
  ghost function RoomFrom(primary: string, chain: seq<SliceCall>, none: Slice): Room {
    RoomOf(SliceChain(primary, chain, none))
  }

  /** Rebuilding and merging, as far as later attempts depend on it. */
  method RebuildAndMerge(primary: string, chain: seq<SliceCall>, resp: seq<SliceCall>, accept: string -> bool)
    returns (merged: seq<SliceCall>, changed: bool, ghost none: Slice)
    requires Mergeable(chain, resp)
    modifies Arrays(chain)
    ensures changed <==> Changes(NewChain(primary, old(Views(chain))), Accepted(old(Views(resp)), accept))
    ensures !changed ==> forall a :: a in Arrays(chain) ==> a[..] == old(a[..])
    ensures AllFit(merged) && ById(merged) && fresh(Arrays(merged) - Arrays(chain) - Arrays(resp))
    ensures none.arr.Length == 0
    ensures Views(merged) ==
            ShownChain(NewChain(primary, old(Views(chain))), Accepted(old(Views(resp)), accept),
                       RoomFrom(primary, chain, none))
    ensures DistinctIds(Accepted(old(Views(resp)), accept)) ==> Disjoint(merged)
  {
    ghost var respViews := Views(resp);
    var calls;
    calls, none := NewInvocationChain(primary, chain);
    assert Mergeable(calls, resp) && Views(resp) == respViews;
    merged, changed := MergeWithin(calls, resp, accept, Arrays(chain) + {none.arr}, Accepted(respViews, accept));
  }

  /** One attempt: the chain is rebuilt, the response merged into it, and the request's chain replaced if
      something was new. */
  method Absorb(primary: string, chain: seq<SliceCall>, resp: seq<SliceCall>, accept: string -> bool)
    returns (next: seq<SliceCall>, ghost none: Slice)
    requires Mergeable(chain, resp)
    modifies Arrays(chain)
    ensures AllFit(next) && ById(next) && fresh(Arrays(next) - Arrays(chain) - Arrays(resp))
    ensures none.arr.Length == 0
    ensures Views(next) ==
            Absorbed(primary, old(Views(chain)), Accepted(old(Views(resp)), accept), RoomFrom(primary, chain, none))
    ensures DistinctIds(Accepted(old(Views(resp)), accept)) && Disjoint(chain) ==> Disjoint(next)
  {
    ghost var contents, views := Contents(chain), Views(chain);
    AtStart(chain);
    var merged, changed;
    merged, changed, none := RebuildAndMerge(primary, chain, resp, accept);
    if changed {
      next := merged;
    } else {
      assert Contents(chain) == contents;
      ContentsShow(chain, contents, views);
      next := chain;
    }
  }

  ghost function AllArrays(resps: seq<seq<SliceCall>>): set<array<string>> {
    set i, a | 0 <= i < |resps| && a in Arrays(resps[i]) :: a
  }

  /** Each response is read into memory of its own. */
  ghost predicate Unshared(resps: seq<seq<SliceCall>>) {
    && (forall i :: 0 <= i < |resps| ==> AllFit(resps[i]) && Disjoint(resps[i]))
    && (forall i, j :: 0 <= i < j < |resps| ==> Arrays(resps[i]) !! Arrays(resps[j]))
  }

  ghost function AllAccepted(resps: seq<seq<SliceCall>>, accept: string -> bool): seq<seq<ChaincodeCall>>
    requires Unshared(resps)
    reads AllArrays(resps)
  {
    seq(|resps|, i requires 0 <= i < |resps| reads AllArrays(resps) => Accepted(Views(resps[i]), accept))
  }

  /** Between two attempts: the responses from position `n` on are still to be read. */
  ghost predicate Between(
      chain: seq<SliceCall>, resps: seq<seq<SliceCall>>, accept: string -> bool, found: seq<seq<ChaincodeCall>>, n: nat)
    reads AllArrays(resps)
  {
    && AllFit(chain) && ById(chain) && Unshared(resps) && |found| == |resps|
    && (forall j :: n <= j < |resps| ==> Arrays(chain) !! Arrays(resps[j]))
    && (forall j :: n <= j < |resps| ==> Accepted(Views(resps[j]), accept) == found[j])
  }

  method AbsorbNext(
      primary: string, chain: seq<SliceCall>, resps: seq<seq<SliceCall>>, accept: string -> bool, n: nat,
      ghost found: seq<seq<ChaincodeCall>>)
    returns (next: seq<SliceCall>, ghost none: Slice)
    requires n < |resps| && Between(chain, resps, accept, found, n)
    modifies Arrays(chain)
    ensures Between(next, resps, accept, found, n + 1)
    ensures fresh(Arrays(next) - Arrays(chain) - AllArrays(resps))
    ensures none.arr.Length == 0
    ensures Views(next) == Absorbed(primary, old(Views(chain)), found[n], RoomFrom(primary, chain, none))
    ensures DistinctIds(found[n]) && Disjoint(chain) ==> Disjoint(next)
  {
    next, none := Absorb(primary, chain, resps[n], accept);
  }

  ghost predicate AllDistinct(found: seq<seq<ChaincodeCall>>) {
    forall i :: 0 <= i < |found| ==> DistinctIds(found[i])
  }

  /** `chains` are the chains at the start of every attempt and at the end; `rooms` the rooms they found. */
  ghost predicate Traced(primary: string, chains: seq<seq<SliceCall>>, nones: seq<Slice>, rooms: seq<Room>) {
    && |chains| == |rooms| + 1 && |nones| == |rooms|
    && forall i :: 0 <= i < |rooms| ==>
         nones[i].arr.Length == 0 && rooms[i] == RoomFrom(primary, chains[i], nones[i])
  }

  lemma {:induction false} TracedStep(
      primary: string, chains: seq<seq<SliceCall>>, nones: seq<Slice>, rooms: seq<Room>,
      next: seq<SliceCall>, none: Slice)
    requires Traced(primary, chains, nones, rooms) && none.arr.Length == 0
    ensures Traced(primary, chains + [next], nones + [none],
                   rooms + [RoomFrom(primary, chains[|rooms|], none)])
  {
  }

  lemma {:induction false} AbsorbedStep(
      primary: string, chain: seq<ChaincodeCall>, found: seq<seq<ChaincodeCall>>, rooms: seq<Room>, n: nat, room: Room)
    requires |rooms| == n < |found|
    ensures AbsorbedAll(primary, chain, found[..n + 1], rooms + [room]) ==
            Absorbed(primary, AbsorbedAll(primary, chain, found[..n], rooms), found[n], room)
  {
    assert found[..n + 1][..n] == found[..n] && (rooms + [room])[..n] == rooms;
  }

  /** A run of attempts. Whatever the responses name, the chain shows what the value-level merges give for
      the rooms the attempts found, and calls to different chaincodes never come to share memory. If no
      response names an accepted chaincode twice, no calls share memory at all. */
  method AbsorbAll(primary: string, chain: seq<SliceCall>, resps: seq<seq<SliceCall>>, accept: string -> bool)
    returns (next: seq<SliceCall>, ghost chains: seq<seq<SliceCall>>, ghost nones: seq<Slice>, ghost rooms: seq<Room>)
    requires AllFit(chain) && ById(chain) && Unshared(resps) && Arrays(chain) !! AllArrays(resps)
    modifies Arrays(chain) + AllArrays(resps)
    ensures AllFit(next) && ById(next)
    ensures |rooms| == |resps| && Traced(primary, chains, nones, rooms)
    ensures chains[0] == chain && chains[|resps|] == next
    ensures Views(next) == AbsorbedAll(primary, old(Views(chain)), old(AllAccepted(resps, accept)), rooms)
    ensures Disjoint(chain) && AllDistinct(old(AllAccepted(resps, accept))) ==> Disjoint(next)
  {
    ghost var views, found := Views(chain), AllAccepted(resps, accept);
    next, chains, nones, rooms := chain, [chain], [], [];
    for i := 0 to |resps|
      invariant Between(next, resps, accept, found, i)
      invariant fresh(Arrays(next) - Arrays(chain) - AllArrays(resps))
      invariant |rooms| == i && Traced(primary, chains, nones, rooms) && chains[0] == chain && chains[i] == next
      invariant Views(next) == AbsorbedAll(primary, views, found[..i], rooms)
      invariant Disjoint(chain) && AllDistinct(found) ==> Disjoint(next)
    {
      ghost var before, memory := next, Arrays(next) + Arrays(chain) + AllArrays(resps);
      ghost var none;
      next, none := AbsorbNext(primary, next, resps, accept, i, found);
      assert fresh(Arrays(next) - memory);
      TracedStep(primary, chains, nones, rooms, next, none);
      AbsorbedStep(primary, views, found, rooms, i, RoomFrom(primary, before, none));
      chains, nones, rooms := chains + [next], nones + [none], rooms + [RoomFrom(primary, before, none)];
    }
    assert found[..|resps|] == found;
  }

  /** The chain of a run of attempts on slices is the chain of the run: if the responses hold what the
      attempts found, and the attempts found the room there was, the slices show `Retry.ChainAt`. */
  method AbsorbRetries(
      ghost init: Ctx, ghost tries: seq<Try>, primary: string, chain: seq<SliceCall>, resps: seq<seq<SliceCall>>,
      accept: string -> bool)
    returns (next: seq<SliceCall>, ghost rooms: seq<Room>)
    requires AllFit(chain) && ById(chain) && Unshared(resps) && Arrays(chain) !! AllArrays(resps)
    requires init.primary == primary && init.chain == Views(chain)
    requires |tries| == |resps| && AllAccepted(resps, accept) == Found(init, tries, |tries|)
    modifies Arrays(chain) + AllArrays(resps)
    ensures AllFit(next) && ById(next) && |rooms| == |resps|
    ensures Rooms(tries, |tries|) == rooms ==> Views(next) == ChainAt(init, tries, |tries|)
  {
    ChainIsAbsorbed(init, tries, |tries|);
    ghost var chains, nones;
    next, chains, nones, rooms := AbsorbAll(primary, chain, resps, accept);
  }
}
