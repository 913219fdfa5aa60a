/** Merging chains with Go's slices: `append` writes into the backing array when there is room, so a
    merged call can share memory with the call it came from. */
module SliceMerge {
  import opened Common
  import opened Chain
  import opened SharedMerge

  /** A slice: the first `len` elements of a backing array, whose length is the capacity. */
  datatype Slice = Slice(arr: array<string>, len: nat)

  /** A chaincode call whose collections are a slice. */
  datatype SliceCall = SliceCall(id: string, collections: Slice)

  ghost predicate Fits(s: Slice) {
    s.len <= s.arr.Length
  }

  ghost function View(s: Slice): seq<string>
    requires Fits(s)
    reads s.arr
  {
    s.arr[..s.len]
  }

  ghost function CallView(c: SliceCall): ChaincodeCall
    requires Fits(c.collections)
    reads c.collections.arr
  {
    ChaincodeCall(c.id, View(c.collections))
  }

  ghost predicate AllFit(calls: seq<SliceCall>) {
    forall i :: 0 <= i < |calls| ==> Fits(calls[i].collections)
  }

  ghost function Arrays(calls: seq<SliceCall>): set<array<string>> {
    set i | 0 <= i < |calls| :: calls[i].collections.arr
  }

  /** No two calls share a backing array. */
  ghost predicate Disjoint(calls: seq<SliceCall>) {
    forall i, j :: 0 <= i < j < |calls| ==> calls[i].collections.arr != calls[j].collections.arr
  }

  ghost function Views(calls: seq<SliceCall>): seq<ChaincodeCall>
    requires AllFit(calls)
    reads Arrays(calls)
  {
    seq(|calls|, i requires 0 <= i < |calls| reads Arrays(calls) => CallView(calls[i]))
  }

  /** `append(s, x)`: in place if there is room, into a larger fresh array otherwise. */
  method Append(s: Slice, x: string) returns (t: Slice)
    requires Fits(s)
    modifies s.arr
    ensures Fits(t) && View(t) == old(View(s)) + [x]
    ensures s.len < s.arr.Length ==> t.arr == s.arr && s.arr[..] == old(s.arr[..])[s.len := x]
    ensures s.len == s.arr.Length ==> fresh(t.arr) && s.arr[..] == old(s.arr[..])
  {
    if s.len < s.arr.Length {
      s.arr[s.len] := x;
      t := Slice(s.arr, s.len + 1);
    } else {
      var capacity: nat :| capacity > s.len;
      var grown := new string[capacity](_ => "");
      for i := 0 to s.len
        modifies grown
        invariant forall k :: 0 <= k < i ==> grown[k] == s.arr[k]
      {
        grown[i] := s.arr[i];
      }
      grown[s.len] := x;
      t := Slice(grown, s.len + 1);
    }
  }

  /** `s` has grown out of the slice whose array `shared` first held `was`: it is still in that array
      exactly as long as it fits, and has overwritten the array as far as it goes. */
  ghost predicate GrownFrom(s: Slice, shared: array<string>, was: seq<string>)
    reads s.arr, shared
  {
    && Fits(s)
    && |was| == shared.Length
    && (s.arr == shared <==> s.len <= shared.Length)
    && shared[..] == Overwritten(was, View(s))
  }

  lemma OverwrittenStep(was: seq<string>, v: seq<string>, x: string)
    ensures |v| < |was| ==> Overwritten(was, v)[|v| := x] == Overwritten(was, v + [x])
    ensures |v| >= |was| ==> Overwritten(was, v) == Overwritten(was, v + [x])
  {
  }

  /** One round of `merge`'s loop. */
  method AppendIfMissing(s: Slice, x: string, ghost shared: array<string>, ghost was: seq<string>)
    returns (t: Slice, added: bool)
    requires GrownFrom(s, shared, was)
    modifies s.arr
    ensures GrownFrom(t, shared, was)
    ensures added <==> x !in old(View(s))
    ensures View(t) == if added then old(View(s)) + [x] else old(View(s))
    ensures t.arr == s.arr || fresh(t.arr)
  {
    t, added := s, false;
    var found := Contains(s, x);
    if !found {
      OverwrittenStep(was, View(s), x);
      t := Append(s, x);
      added := true;
    }
  }

  /** `merge`: what it returns has the content of the pure merge. It stays in the first call's array
      exactly as long as it fits, and overwrites the spare capacity of that array as far as it goes. */
  method Merge(c1: SliceCall, c2: SliceCall) returns (c: SliceCall, merged: bool)
    requires Fits(c1.collections) && Fits(c2.collections) && c1.collections.arr != c2.collections.arr
    modifies c1.collections.arr
    ensures GrownFrom(c.collections, c1.collections.arr, old(c1.collections.arr[..]))
    ensures CallView(c) == ChaincodeCall(c1.id, AddNew(old(View(c1.collections)), View(c2.collections)))
    ensures merged <==> HasNew(old(View(c1.collections)), View(c2.collections))
    ensures View(c1.collections) == old(View(c1.collections))
    ensures c.collections.arr == c1.collections.arr || fresh(c.collections.arr)
  {
    var grown, more := c1.collections, c2.collections;
    merged := false;
    ghost var shared := c1.collections.arr;
    ghost var old1, old2, was := View(grown), View(more), shared[..];
    for i := 0 to more.len
      invariant GrownFrom(grown, shared, was) && (grown.arr == shared || fresh(grown.arr))
      invariant View(grown) == AddNew(old1, old2[..i])
      invariant merged <==> HasNew(old1, old2[..i])
    {
      assert more.arr[i] == View(more)[i] == old2[i];
      HasNewStep(old1, old2, i);
      var added;
      grown, added := AppendIfMissing(grown, more.arr[i], shared, was);
      merged := merged || added;
    }
    assert old2[..|old2|] == old2;
    AddNewContent(old1, old2);
    KeepsFront(was, old1, View(grown));
    c := SliceCall(c1.id, grown);
  }

  method Contains(s: Slice, x: string) returns (found: bool)
    requires Fits(s)
    ensures found <==> x in View(s)
  {
    for i := 0 to s.len
      invariant x !in s.arr[..i]
    {
      if s.arr[i] == x {
        assert View(s)[i] == x;
        return true;
      }
    }
    return false;
  }

  lemma {:induction false} FirstAt(chain: seq<ChaincodeCall>, j: nat)
    requires j < |chain| && forall k :: 0 <= k < j ==> chain[k].id != chain[j].id
    ensures First(chain, chain[j].id) == Some(chain[j])
  {
    if j > 0 {
      FirstAt(chain[1..], j - 1);
    }
  }

  // ----- merging a response into a chain

  /** Calls that share a backing array are calls to one chaincode. */
  ghost predicate ById(calls: seq<SliceCall>) {
    forall i, j :: 0 <= i < j < |calls| && calls[i].collections.arr == calls[j].collections.arr
                   ==> calls[i].id == calls[j].id
  }

  /** The position of the first call to `id`, or the length of the chain. */
  ghost function FirstSlice(chain: seq<SliceCall>, id: string): (i: nat)
    ensures i <= |chain| && (i < |chain| ==> chain[i].id == id)
    ensures forall k :: 0 <= k < i ==> chain[k].id != id
  {
    if chain == [] || chain[0].id == id then 0 else 1 + FirstSlice(chain[1..], id)
  }

  lemma {:induction false} FirstSliceShows(chain: seq<SliceCall>, id: string)
    requires AllFit(chain)
    ensures First(Views(chain), id) ==
            if FirstSlice(chain, id) < |chain| then Some(CallView(chain[FirstSlice(chain, id)])) else None
  {
    if FirstSlice(chain, id) < |chain| {
      FirstAt(Views(chain), FirstSlice(chain, id));
    } else {
      FirstIsFirst(Views(chain), id);
    }
  }

  ghost function FirstArray(chain: seq<SliceCall>, id: string): set<array<string>> {
    if FirstSlice(chain, id) < |chain| then {chain[FirstSlice(chain, id)].collections.arr} else {}
  }

  lemma {:induction false} FirstArrayWithin(chain: seq<SliceCall>, id: string)
    ensures FirstArray(chain, id) <= Arrays(chain)
  {
  }

  /** How much fits into the memory of the first calls. */
  ghost function RoomOf(chain: seq<SliceCall>): Room {
    id => if FirstSlice(chain, id) < |chain| then chain[FirstSlice(chain, id)].collections.arr.Length else 0
  }

  /** `mergeCCCall`: only the array of the first call to the same chaincode is written, with the wanted
      content; the result is in that array exactly if it fits. */
  method MergeCCCall(chain: seq<SliceCall>, r: SliceCall) returns (c: SliceCall, merged: bool)
    requires AllFit(chain) && Fits(r.collections) && r.collections.arr !in Arrays(chain)
    modifies FirstArray(chain, r.id)
    ensures Fits(c.collections) && c.id == r.id && CallView(c) == MergeCall(old(Views(chain)), CallView(r))
    ensures merged <==> CallAddsTo(old(Views(chain)), CallView(r))
    ensures FirstSlice(chain, r.id) == |chain| ==> c.collections.arr == r.collections.arr
    ensures FirstSlice(chain, r.id) < |chain| ==>
              var shared := chain[FirstSlice(chain, r.id)].collections.arr;
              && shared[..] == Overwritten(old(shared[..]), View(c.collections))
              && (c.collections.arr == shared <==> c.collections.len <= shared.Length)
              && (c.collections.arr == shared || fresh(c.collections.arr))
  {
    FirstSliceShows(chain, r.id);
    ArrayMembers(chain);
    for j := 0 to |chain|
      invariant forall k :: 0 <= k < j ==> chain[k].id != r.id
    {
      if chain[j].id == r.id {
        assert j == FirstSlice(chain, r.id);
        c, merged := Merge(chain[j], r);
        return;
      }
    }
    c, merged := r, true;
  }

  lemma ArrayMembers(calls: seq<SliceCall>)
    ensures forall j :: 0 <= j < |calls| ==> calls[j].collections.arr in Arrays(calls)
  {
  }

  lemma ArraysAppend(calls: seq<SliceCall>, c: SliceCall)
    ensures Arrays(calls + [c]) == Arrays(calls) + {c.collections.arr}
  {
    ArrayMembers(calls + [c]);
    assert (calls + [c])[|calls|] == c;
    forall i | 0 <= i < |calls|
      ensures calls[i].collections.arr in Arrays(calls + [c])
    {
      assert (calls + [c])[i] == calls[i];
    }
  }

  /** What a merge starts from: the content of each call's array, and what the call shows of it. */
  ghost predicate Started(chain: seq<SliceCall>, was: seq<seq<string>>, views: seq<ChaincodeCall>) {
    && AllFit(chain) && |was| == |views| == |chain|
    && (forall i :: 0 <= i < |chain| ==>
          && |was[i]| == chain[i].collections.arr.Length
          && views[i] == ChaincodeCall(chain[i].id, was[i][..chain[i].collections.len]))
    && (forall i, j :: 0 <= i < |chain| && 0 <= j < |chain| && chain[i].collections.arr == chain[j].collections.arr
          ==> was[i] == was[j])
  }

  ghost function Contents(chain: seq<SliceCall>): seq<seq<string>>
    reads Arrays(chain)
  {
    seq(|chain|, i requires 0 <= i < |chain| reads Arrays(chain) => chain[i].collections.arr[..])
  }

  /** What the array of the chain's `i`-th call holds after `calls` were merged: only the arrays of first
      calls are written, with everything their merges want. */
  ghost function Holding(
      chain: seq<SliceCall>, was: seq<seq<string>>, views: seq<ChaincodeCall>, calls: seq<ChaincodeCall>, i: nat)
    : seq<string>
    requires |was| == |chain| && i < |chain|
  {
    if chain[i].collections.arr in FirstArray(chain, chain[i].id)
    then Rewritten(was[i], WantedOf(views, calls, chain[i].id))
    else was[i]
  }

  ghost predicate Memory(
      chain: seq<SliceCall>, was: seq<seq<string>>, views: seq<ChaincodeCall>, calls: seq<ChaincodeCall>)
    requires |was| == |chain|
    reads Arrays(chain)
  {
    forall i :: 0 <= i < |chain| ==> chain[i].collections.arr[..] == Holding(chain, was, views, calls, i)
  }

  lemma {:induction false} FirstOfStart(
      chain: seq<SliceCall>, was: seq<seq<string>>, views: seq<ChaincodeCall>, id: string)
    requires Started(chain, was, views)
    ensures var f := FirstSlice(chain, id);
            First(views, id) == if f < |chain| then Some(views[f]) else None
  {
    var f := FirstSlice(chain, id);
    assert forall k :: 0 <= k < |chain| ==> chain[k].id == views[k].id;
    if f < |chain| {
      FirstAt(views, f);
    } else {
      FirstIsFirst(views, id);
    }
  }

  /** What the first call to `id` shows is never overwritten. */
  lemma {:induction false} FrontOfFirst(
      chain: seq<SliceCall>, was: seq<seq<string>>, views: seq<ChaincodeCall>, calls: seq<ChaincodeCall>, id: string)
    requires Started(chain, was, views) && FirstSlice(chain, id) < |chain|
    ensures var f := FirstSlice(chain, id);
            views[f].collections <= Rewritten(was[f], WantedOf(views, calls, id))
  {
    var f, contents := FirstSlice(chain, id), WantedOf(views, calls, id);
    FirstOfStart(chain, was, views, id);
    WantedStartsKnown(views, calls, id);
    assert forall k :: 0 <= k < |contents| ==> contents[k] in contents;
    FrontStays(was[f], contents, views[f].collections);
  }

  /** The first calls look as they did before the merge. */
  lemma {:induction false} FirstStays(
      chain: seq<SliceCall>, was: seq<seq<string>>, views: seq<ChaincodeCall>, calls: seq<ChaincodeCall>, id: string)
    requires Started(chain, was, views) && Memory(chain, was, views, calls)
    ensures First(Views(chain), id) == First(views, id)
    ensures First(views, id).Some? <==> FirstSlice(chain, id) < |chain|
  {
    var f := FirstSlice(chain, id);
    FirstSliceShows(chain, id);
    FirstOfStart(chain, was, views, id);
    if f < |chain| {
      FrontOfFirst(chain, was, views, calls, id);
      assert View(chain[f].collections) == chain[f].collections.arr[..][..chain[f].collections.len];
      assert View(chain[f].collections) == views[f].collections;
    }
  }

  /** Whether the merge of `call` ends up in the array of the chain's call to the same chaincode. */
  ghost predicate StaysIn(chain: seq<SliceCall>, views: seq<ChaincodeCall>, call: ChaincodeCall) {
    var f := FirstSlice(chain, call.id);
    f < |chain| && |MergeCall(views, call).collections| <= chain[f].collections.arr.Length
  }

  /** A result for `call`: as long as it should be, and either in the array it shares, where later
      merges may have overwritten it, or outside the chain's memory with the content it should have. */
  ghost predicate Placed(chain: seq<SliceCall>, views: seq<ChaincodeCall>, c: SliceCall, call: ChaincodeCall)
    reads {c.collections.arr} - Arrays(chain)
  {
    && Fits(c.collections) && c.id == call.id
    && c.collections.len == |MergeCall(views, call).collections|
    && if StaysIn(chain, views, call) then c.collections.arr in FirstArray(chain, call.id)
       else c.collections.arr !in Arrays(chain) && View(c.collections) == MergeCall(views, call).collections
  }

  ghost predicate AllPlaced(
      chain: seq<SliceCall>, views: seq<ChaincodeCall>, out: seq<SliceCall>, calls: seq<ChaincodeCall>)
    reads Arrays(out) - Arrays(chain)
  {
    |out| == |calls| && forall k :: 0 <= k < |out| ==> Placed(chain, views, out[k], calls[k])
  }

  /** Results share memory with calls to their own chaincode only, and with no response call from
      position `n` on. */
  ghost predicate Apart(out: seq<SliceCall>, resp: seq<SliceCall>, n: nat) {
    && ById(out)
    && forall k, j :: 0 <= k < |out| && n <= j < |resp| ==> out[k].collections.arr != resp[j].collections.arr
  }

  /** One accepted round of the loop, as the memory sees it. */
  lemma {:induction false} MemoryStep(
      chain: seq<SliceCall>, was: seq<seq<string>>, views: seq<ChaincodeCall>, calls: seq<ChaincodeCall>,
      call: ChaincodeCall, i: nat)
    requires Started(chain, was, views) && ById(chain) && i < |chain|
    ensures Holding(chain, was, views, calls + [call], i) ==
            if chain[i].collections.arr in FirstArray(chain, call.id)
            then Overwritten(Holding(chain, was, views, calls, i), MergeCall(views, call).collections)
            else Holding(chain, was, views, calls, i)
  {
    assert (calls + [call])[..|calls|] == calls;
    assert WantedOf(views, calls + [call], chain[i].id) ==
           WantedOf(views, calls, chain[i].id)
           + if chain[i].id == call.id then [MergeCall(views, call).collections] else [];
  }

  /** What the loop relies on: calls that share memory are calls to one chaincode, and the response,
      freshly read, shares none. */
  ghost predicate Mergeable(chain: seq<SliceCall>, resp: seq<SliceCall>) {
    && AllFit(chain) && AllFit(resp)
    && ById(chain) && Disjoint(resp)
    && Arrays(chain) !! Arrays(resp)
  }

  lemma {:induction false} ApartStep(
      chain: seq<SliceCall>, views: seq<ChaincodeCall>, resp: seq<SliceCall>, n: nat,
      out: seq<SliceCall>, calls: seq<ChaincodeCall>, c: SliceCall)
    requires n < |resp| && Mergeable(chain, resp) && Apart(out, resp, n) && AllPlaced(chain, views, out, calls)
    requires || c.collections.arr in FirstArray(chain, c.id)
             || c.collections.arr == resp[n].collections.arr
             || c.collections.arr !in Arrays(out) + Arrays(chain) + Arrays(resp)
    ensures Apart(out + [c], resp, n + 1)
  {
    ArrayMembers(out);
    ArrayMembers(resp);
    ArrayMembers(chain);
    forall k | 0 <= k < |out| && out[k].collections.arr == c.collections.arr
      ensures out[k].id == c.id
    {
      assert Placed(chain, views, out[k], calls[k]);
    }
  }

  /** `mergeCCCall`, seen from what the whole loop started from. */
  method MergeSince(
      chain: seq<SliceCall>, r: SliceCall,
      ghost was: seq<seq<string>>, ghost views: seq<ChaincodeCall>, ghost before: seq<ChaincodeCall>)
    returns (c: SliceCall, merged: bool)
    requires Started(chain, was, views) && ById(chain) && Memory(chain, was, views, before)
    requires Fits(r.collections) && r.collections.arr !in Arrays(chain)
    modifies FirstArray(chain, r.id)
    ensures Memory(chain, was, views, before + [CallView(r)])
    ensures Placed(chain, views, c, CallView(r))
    ensures merged <==> CallAddsTo(views, CallView(r))
    ensures || c.collections.arr in FirstArray(chain, r.id)
            || c.collections.arr == r.collections.arr
            || fresh(c.collections.arr)
  {
    ghost var call := CallView(r);
    FirstStays(chain, was, views, before, call.id);
    c, merged := MergeCCCall(chain, r);
    forall i: nat | i < |chain|
      ensures chain[i].collections.arr[..] == Holding(chain, was, views, before + [call], i)
    {
      MemoryStep(chain, was, views, before, call, i);
    }
  }

  lemma {:induction false} PlacedAppend(
      chain: seq<SliceCall>, views: seq<ChaincodeCall>, out: seq<SliceCall>, calls: seq<ChaincodeCall>,
      c: SliceCall, call: ChaincodeCall)
    requires AllPlaced(chain, views, out, calls) && Placed(chain, views, c, call)
    ensures AllPlaced(chain, views, out + [c], calls + [call])
  {
  }

  /** The loop has merged `done`, found before position `n` of the response. */
  ghost predicate Merging(
      chain: seq<SliceCall>, was: seq<seq<string>>, views: seq<ChaincodeCall>,
      resp: seq<SliceCall>, respViews: seq<ChaincodeCall>, n: nat, out: seq<SliceCall>, done: seq<ChaincodeCall>)
    reads Arrays(chain), Arrays(resp), Arrays(out)
  {
    && Mergeable(chain, resp) && Views(resp) == respViews
    && Started(chain, was, views) && Memory(chain, was, views, done)
    && AllPlaced(chain, views, out, done) && Apart(out, resp, n)
  }

  /** One accepted round of the loop. */
  method MergeNext(
      out: seq<SliceCall>, chain: seq<SliceCall>, resp: seq<SliceCall>, n: nat,
      ghost was: seq<seq<string>>, ghost views: seq<ChaincodeCall>, ghost respViews: seq<ChaincodeCall>,
      ghost before: seq<ChaincodeCall>)
    returns (longer: seq<SliceCall>, merged: bool)
    requires n < |resp| == |respViews| && Merging(chain, was, views, resp, respViews, n, out, before)
    modifies FirstArray(chain, resp[n].id)
    ensures Merging(chain, was, views, resp, respViews, n + 1, longer, before + [respViews[n]])
    ensures merged <==> CallAddsTo(views, respViews[n])
    ensures fresh(Arrays(longer) - Arrays(out) - Arrays(chain) - Arrays(resp))
  {
    ArrayMembers(resp);
    ghost var call := CallView(resp[n]);
    var c;
    FirstArrayWithin(chain, resp[n].id);
    c, merged := MergeSince(chain, resp[n], was, views, before);
    assert Views(resp) == respViews;
    ApartStep(chain, views, resp, n, out, before, c);
    PlacedAppend(chain, views, out, before, c, call);
    ArraysAppend(out, c);
    longer := out + [c];
  }

  // ----- what is visible after the loop

  /** What is left in a shared array of the result that was put there for the `k`-th call. */
  lemma {:induction false} LeftOf(was: seq<string>, views: seq<ChaincodeCall>, calls: seq<ChaincodeCall>, k: nat)
    requires k < |calls| && |MergeCall(views, calls[k]).collections| <= |was|
    ensures var id, wanted := calls[k].id, MergeCall(views, calls[k]).collections;
            Rewritten(was, WantedOf(views, calls, id))[..|wanted|] ==
            Rewritten(wanted, WantedOf(views, calls[k + 1..], id))
  {
    var n := |calls| - 1;
    var id, wanted, front, last := calls[k].id, MergeCall(views, calls[k]).collections, calls[..n], calls[n];
    assert calls == front + [last];
    RewrittenByOne(was, views, front, last, id);
    OverwrittenFront(Rewritten(was, WantedOf(views, front, id)), MergeCall(views, last).collections, |wanted|);
    if k == n {
      assert calls[k + 1..] == [];
    } else {
      LeftOf(was, views, front, k);
      assert calls[k + 1..] == front[k + 1..] + [last];
      RewrittenByOne(wanted, views, front[k + 1..], last, id);
    }
  }

  lemma {:induction false} RewrittenByOne(
      was: seq<string>, views: seq<ChaincodeCall>, calls: seq<ChaincodeCall>, call: ChaincodeCall, id: string)
    ensures Rewritten(was, WantedOf(views, calls + [call], id)) ==
            if call.id == id
            then Overwritten(Rewritten(was, WantedOf(views, calls, id)), MergeCall(views, call).collections)
            else Rewritten(was, WantedOf(views, calls, id))
  {
    WantedStep(views, calls, call, id);
    RewrittenStep(was, WantedOf(views, calls, id), MergeCall(views, call).collections);
  }

  lemma OverwrittenFront(was: seq<string>, content: seq<string>, n: nat)
    requires n <= |was|
    ensures Overwritten(was, content)[..n] == Overwritten(was[..n], content)
  {
  }

  lemma {:induction false} ResultShows(
      chain: seq<SliceCall>, was: seq<seq<string>>, views: seq<ChaincodeCall>,
      out: seq<SliceCall>, calls: seq<ChaincodeCall>, k: nat)
    requires Started(chain, was, views) && Memory(chain, was, views, calls)
    requires AllPlaced(chain, views, out, calls) && k < |calls|
    ensures Fits(out[k].collections) && CallView(out[k]) == ShownCall(views, calls, RoomOf(chain), k)
  {
    assert Placed(chain, views, out[k], calls[k]);
    MergedId(views, calls[k]);
    FirstOfStart(chain, was, views, calls[k].id);
    assert Shares(views, calls[k], RoomOf(chain)) <==> StaysIn(chain, views, calls[k]);
    if StaysIn(chain, views, calls[k]) {
      var f := FirstSlice(chain, calls[k].id);
      LeftOf(was[f], views, calls, k);
      assert chain[f].collections.arr[..] == Rewritten(was[f], WantedOf(views, calls, calls[k].id));
      assert View(out[k].collections) == chain[f].collections.arr[..][..out[k].collections.len];
    }
  }

  /** What the chain's `i`-th call shows after `calls` were merged: calls that share the memory of a first
      call are overwritten with what is merged into that one. */
  ghost function InputAfter(chain: seq<SliceCall>, views: seq<ChaincodeCall>, calls: seq<ChaincodeCall>, i: nat)
    : seq<string>
    requires |views| == |chain| && i < |chain|
  {
    if chain[i].collections.arr in FirstArray(chain, chain[i].id)
    then Rewritten(views[i].collections, WantedOf(views, calls, chain[i].id))
    else views[i].collections
  }

  ghost predicate InputLeft(chain: seq<SliceCall>, views: seq<ChaincodeCall>, calls: seq<ChaincodeCall>)
    requires AllFit(chain) && |views| == |chain|
    reads Arrays(chain)
  {
    forall i :: 0 <= i < |chain| ==> View(chain[i].collections) == InputAfter(chain, views, calls, i)
  }

  /** The first call to each chaincode shows what it did. */
  ghost predicate FirstsStay(chain: seq<SliceCall>, views: seq<ChaincodeCall>)
    requires AllFit(chain)
    reads Arrays(chain)
  {
    forall id :: First(Views(chain), id) == First(views, id)
  }

  lemma {:induction false} InputShows(
      chain: seq<SliceCall>, was: seq<seq<string>>, views: seq<ChaincodeCall>, calls: seq<ChaincodeCall>, i: nat)
    requires Started(chain, was, views) && Memory(chain, was, views, calls) && i < |chain|
    ensures View(chain[i].collections) == InputAfter(chain, views, calls, i)
  {
    var n := chain[i].collections.len;
    assert View(chain[i].collections) == chain[i].collections.arr[..][..n];
    RewrittenFront(was[i], WantedOf(views, calls, chain[i].id), n);
  }

  /** If nothing is new, nothing is written. */
  lemma {:induction false} QuietMemory(
      was: seq<string>, views: seq<ChaincodeCall>, calls: seq<ChaincodeCall>, id: string)
    requires !Changes(views, calls) && Known(views, id) <= was
    ensures Rewritten(was, WantedOf(views, calls, id)) == was
  {
    if calls != [] {
      var front, last := calls[..|calls| - 1], calls[|calls| - 1];
      assert front + [last] == calls;
      OneMoreAccepted(views, front, last);
      QuietMemory(was, views, front, id);
      AddNewContent(Known(views, last.id), last.collections);
      if last.id == id {
        var wanted := WantedOf(views, front, id);
        assert (wanted + [Known(views, id)])[..|wanted|] == wanted;
        assert Overwritten(was, Known(views, id)) == was;
      }
    }
  }

  lemma {:induction false} AtStart(chain: seq<SliceCall>)
    requires AllFit(chain)
    ensures Started(chain, Contents(chain), Views(chain))
    ensures Memory(chain, Contents(chain), Views(chain), [])
  {
  }

  lemma {:induction false} MergingSkips(
      chain: seq<SliceCall>, was: seq<seq<string>>, views: seq<ChaincodeCall>,
      resp: seq<SliceCall>, respViews: seq<ChaincodeCall>, n: nat, out: seq<SliceCall>, done: seq<ChaincodeCall>)
    requires Merging(chain, was, views, resp, respViews, n, out, done)
    ensures Merging(chain, was, views, resp, respViews, n + 1, out, done)
  {
  }

  lemma {:induction false} MergingStarts(chain: seq<SliceCall>, resp: seq<SliceCall>)
    requires Mergeable(chain, resp)
    ensures Merging(chain, Contents(chain), Views(chain), resp, Views(resp), 0, [], [])
  {
    AtStart(chain);
  }

  /** The loop of `mergeInvocationChains`. */
  method MergeEach(
      chain: seq<SliceCall>, resp: seq<SliceCall>, accept: string -> bool,
      ghost was: seq<seq<string>>, ghost views: seq<ChaincodeCall>, ghost respViews: seq<ChaincodeCall>)
    returns (out: seq<SliceCall>, changed: bool)
    requires |resp| == |respViews| && (forall i :: 0 <= i < |resp| ==> resp[i].id == respViews[i].id)
    requires Merging(chain, was, views, resp, respViews, 0, [], [])
    modifies Arrays(chain)
    ensures Merging(chain, was, views, resp, respViews, |resp|, out, Accepted(respViews, accept))
    ensures changed <==> Changes(views, Accepted(respViews, accept))
    ensures fresh(Arrays(out) - Arrays(chain) - Arrays(resp))
  {
    ghost var done: seq<ChaincodeCall> := [];
    out, changed := [], false;
    for i := 0 to |resp|
      invariant done == Accepted(respViews[..i], accept)
      invariant Merging(chain, was, views, resp, respViews, i, out, done)
      invariant changed <==> Changes(views, done)
      invariant fresh(Arrays(out) - Arrays(chain) - Arrays(resp))
    {
      if accept(resp[i].id) {
        FirstArrayWithin(chain, resp[i].id);
        ghost var memory := Arrays(out) + Arrays(chain) + Arrays(resp);
        var merged;
        out, merged := MergeNext(out, chain, resp, i, was, views, respViews, done);
        assert fresh(Arrays(out) - memory);
        changed := changed || merged;
        AcceptedStep(respViews, accept, i);
        OneMoreAccepted(views, done, respViews[i]);
        done := done + [respViews[i]];
      } else {
        AcceptedStep(respViews, accept, i);
        MergingSkips(chain, was, views, resp, respViews, i, out, done);
      }
    }
    assert respViews[..|resp|] == respViews;
  }

  /** `mergeInvocationChains` on slices, for responses that may name a chaincode any number of times. The
      results show `ShownChain`. Stated besides: everything the arrays hold, where the results are, and
      what the input chain shows afterwards, which for the first call to each chaincode, and for every
      call of an unshared chain, is what it showed before. With distinct accepted ids the results share
      no arrays. */
  method MergeInvocationChains(chain: seq<SliceCall>, resp: seq<SliceCall>, accept: string -> bool)
    returns (out: seq<SliceCall>, changed: bool)
    requires Mergeable(chain, resp)
    modifies Arrays(chain)
    ensures changed <==> Changes(old(Views(chain)), Accepted(old(Views(resp)), accept))
    ensures Memory(chain, old(Contents(chain)), old(Views(chain)), Accepted(old(Views(resp)), accept))
    ensures AllPlaced(chain, old(Views(chain)), out, Accepted(old(Views(resp)), accept))
    ensures AllFit(out)
    ensures Views(out) == ShownChain(old(Views(chain)), Accepted(old(Views(resp)), accept), RoomOf(chain))
    ensures InputLeft(chain, old(Views(chain)), Accepted(old(Views(resp)), accept))
    ensures FirstsStay(chain, old(Views(chain)))
    ensures Disjoint(chain) ==> Views(chain) == old(Views(chain))
    ensures !changed ==> forall a :: a in Arrays(chain) ==> a[..] == old(a[..])
    ensures ById(out) && fresh(Arrays(out) - Arrays(chain) - Arrays(resp))
    ensures DistinctIds(Accepted(old(Views(resp)), accept)) ==> Disjoint(out)
  {
    ghost var was, views, respViews := Contents(chain), Views(chain), Views(resp);
    MergingStarts(chain, resp);
    out, changed := MergeEach(chain, resp, accept, was, views, respViews);
    AfterMerging(chain, was, views, out, Accepted(respViews, accept));
  }

  lemma {:induction false} ResultsShow(
      chain: seq<SliceCall>, was: seq<seq<string>>, views: seq<ChaincodeCall>,
      out: seq<SliceCall>, calls: seq<ChaincodeCall>)
    requires Started(chain, was, views) && Memory(chain, was, views, calls)
    requires AllPlaced(chain, views, out, calls)
    ensures AllFit(out) && Views(out) == ShownChain(views, calls, RoomOf(chain))
  {
    forall k | 0 <= k < |out|
      ensures Fits(out[k].collections)
      ensures CallView(out[k]) == ShownCall(views, calls, RoomOf(chain), k)
    {
      ResultShows(chain, was, views, out, calls, k);
    }
  }

  /** What the loop's invariant says about everything that can be seen. */
  lemma {:induction false} AfterMerging(
      chain: seq<SliceCall>, was: seq<seq<string>>, views: seq<ChaincodeCall>,
      out: seq<SliceCall>, calls: seq<ChaincodeCall>)
    requires Started(chain, was, views) && Memory(chain, was, views, calls)
    requires AllPlaced(chain, views, out, calls) && ById(out)
    ensures AllFit(out) && Views(out) == ShownChain(views, calls, RoomOf(chain))
    ensures InputLeft(chain, views, calls) && FirstsStay(chain, views)
    ensures Disjoint(chain) ==> Views(chain) == views
    ensures !Changes(views, calls) ==> Contents(chain) == was
    ensures DistinctIds(calls) ==> Disjoint(out)
  {
    ResultsShow(chain, was, views, out, calls);
    forall i | 0 <= i < |chain|
      ensures View(chain[i].collections) == InputAfter(chain, views, calls, i)
    {
      InputShows(chain, was, views, calls, i);
    }
    forall id
      ensures First(Views(chain), id) == First(views, id)
    {
      FirstStays(chain, was, views, calls, id);
    }
    if Disjoint(chain) {
      InputStays(chain, was, views, calls);
    }
    if !Changes(views, calls) {
      NothingWritten(chain, was, views, calls);
    }
    if DistinctIds(calls) {
      ApartIfDistinct(chain, views, out, calls);
    }
  }

  lemma {:induction false} ApartIfDistinct(
      chain: seq<SliceCall>, views: seq<ChaincodeCall>, out: seq<SliceCall>, calls: seq<ChaincodeCall>)
    requires AllPlaced(chain, views, out, calls) && ById(out) && DistinctIds(calls)
    ensures Disjoint(out)
  {
    forall k | 0 <= k < |out|
      ensures out[k].id == calls[k].id
    {
      assert Placed(chain, views, out[k], calls[k]);
    }
  }

  lemma {:induction false} InputStays(
      chain: seq<SliceCall>, was: seq<seq<string>>, views: seq<ChaincodeCall>, calls: seq<ChaincodeCall>)
    requires Started(chain, was, views) && Memory(chain, was, views, calls) && Disjoint(chain)
    ensures Views(chain) == views
  {
    forall i: nat | i < |chain|
      ensures View(chain[i].collections) == views[i].collections
    {
      var f := FirstSlice(chain, chain[i].id);
      if i == f {
        FrontOfFirst(chain, was, views, calls, chain[i].id);
      }
      assert View(chain[i].collections) == chain[i].collections.arr[..][..chain[i].collections.len];
    }
  }

  lemma {:induction false} NothingWritten(
      chain: seq<SliceCall>, was: seq<seq<string>>, views: seq<ChaincodeCall>, calls: seq<ChaincodeCall>)
    requires Started(chain, was, views) && Memory(chain, was, views, calls) && !Changes(views, calls)
    ensures Contents(chain) == was
  {
    forall i: nat | i < |chain|
      ensures Holding(chain, was, views, calls, i) == was[i]
    {
      var f := FirstSlice(chain, chain[i].id);
      FirstOfStart(chain, was, views, chain[i].id);
      if chain[i].collections.arr == chain[f].collections.arr {
        QuietMemory(was[i], views, calls, chain[i].id);
      }
    }
  }

  // ----- responses that name a chaincode twice

  /** A call whose slice has the given content and capacity, in memory of its own. */
  method NewCall(id: string, content: seq<string>, capacity: nat) returns (c: SliceCall)
    requires |content| <= capacity
    ensures fresh(c.collections.arr) && c.collections.arr.Length == capacity
    ensures Fits(c.collections) && CallView(c) == ChaincodeCall(id, content)
  {
    var arr := new string[capacity](i => if 0 <= i < |content| then content[i] else "");
    c := SliceCall(id, Slice(arr, |content|));
    assert View(c.collections) == content;
  }

  /** With room for one more collection, merging `x` and then `y` into one call leaves both results
      showing `y`. */
  method RepeatedIdOverwrites(id: string, k: string, x: string, y: string, accept: string -> bool)
    returns (out: seq<SliceCall>)
    requires accept(id) && k != x && k != y && x != y
    ensures AllFit(out) && Views(out) == [ChaincodeCall(id, [k, y]), ChaincodeCall(id, [k, y])]
  {
    var c := NewCall(id, [k], 2);
    var r1 := NewCall(id, [x], 1);
    var r2 := NewCall(id, [y], 1);
    ghost var views, calls := Views([c]), Views([r1, r2]);
    assert views == [ChaincodeCall(id, [k])] && calls == [ChaincodeCall(id, [x]), ChaincodeCall(id, [y])];
    assert FirstSlice([c], id) == 0;
    AcceptedTwo(calls, accept);
    OverwrittenByNext(views, calls, k, x, y, RoomOf([c]));
    var changed;
    out, changed := MergeInvocationChains([c], [r1, r2], accept);
  }

  method ChainWithRoom(primary: string, id: string, k: string, x: string, y: string)
    returns (chain: seq<SliceCall>, resp: seq<SliceCall>)
    requires primary != id
    ensures fresh(Arrays(chain)) && Mergeable(chain, resp) && RoomOf(chain)(id) == 3
    ensures Views(chain) == [ChaincodeCall(primary, []), ChaincodeCall(id, [k])]
    ensures Views(resp) == [ChaincodeCall(id, [x, y]), ChaincodeCall(id, [y])]
  {
    var p := NewCall(primary, [], 0);
    var c := NewCall(id, [k], 3);
    var r1 := NewCall(id, [x, y], 2);
    var r2 := NewCall(id, [y], 1);
    chain, resp := [p, c], [r1, r2];
    assert FirstSlice(chain, id) == 1 by {
      assert chain[0].id != id && chain[1].id == id;
    }
  }

  lemma NotMentioned(primary: string, id: string, k: string, x: string, y: string)
    requires primary != id && k != x && x != y
    ensures !Mentions(NewChain(primary, [ChaincodeCall(id, [k, y, y]), ChaincodeCall(id, [k, y])]), Collection(id, x))
  {
    RebuiltMentions(primary, [ChaincodeCall(id, [k, y, y]), ChaincodeCall(id, [k, y])], Collection(id, x));
  }

  /** With room for two more collections, merging `x`, `y` and then `y` into one call loses `x`: the chain
      rebuilt from the results does not mention it. */
  method RepeatedIdLosesCollection(
      primary: string, id: string, k: string, x: string, y: string, accept: string -> bool)
    returns (out: seq<SliceCall>)
    requires accept(id) && primary != id && k != x && k != y && x != y
    ensures AllFit(out) && Views(out) == [ChaincodeCall(id, [k, y, y]), ChaincodeCall(id, [k, y])]
    ensures !Mentions(NewChain(primary, Views(out)), Collection(id, x))
  {
    var chain, resp := ChainWithRoom(primary, id, k, x, y);
    AcceptedTwo(Views(resp), accept);
    RepeatedOtherLosesCollection(primary, Views(chain), Views(resp), k, x, y, RoomOf(chain));
    var changed;
    out, changed := MergeInvocationChains(chain, resp, accept);
    NotMentioned(primary, id, k, x, y);
  }
}
