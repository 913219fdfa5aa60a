/** Chaincode invocation chains: rebuilding the chain around the primary chaincode, and merging
    the calls found in a proposal response into it. */
module Chain {
  import opened Common

  datatype ChaincodeCall = ChaincodeCall(id: string, collections: seq<string>)

  // ----- specification of the chain operations

  /** The collections of the last call to `id`; none if there is no such call. */
  function LastOf(id: string, chain: seq<ChaincodeCall>): seq<string> {
    if chain == [] then []
    else if chain[|chain| - 1].id == id then chain[|chain| - 1].collections
    else LastOf(id, chain[..|chain| - 1])
  }

  /** The calls to chaincodes other than `id`, in order. */
  function Others(id: string, chain: seq<ChaincodeCall>): seq<ChaincodeCall> {
    if chain == [] then []
    else
      var front := Others(id, chain[..|chain| - 1]);
      if chain[|chain| - 1].id == id then front else front + [chain[|chain| - 1]]
  }

  /** The primary chaincode first, carrying the collections of its last entry, then the other calls. */
  function NewChain(primary: string, chain: seq<ChaincodeCall>): seq<ChaincodeCall> {
    [ChaincodeCall(primary, LastOf(primary, chain))] + Others(primary, chain)
  }

  /** The first call to `id`. */
  function First(chain: seq<ChaincodeCall>, id: string): Option<ChaincodeCall> {
    if chain == [] then None
    else if chain[0].id == id then Some(chain[0])
    else First(chain[1..], id)
  }

  /** `base`, then each element of `more` that is not there yet. */
  function AddNew(base: seq<string>, more: seq<string>): seq<string> {
    if more == [] then base
    else
      var front := AddNew(base, more[..|more| - 1]);
      if more[|more| - 1] in front then front else front + [more[|more| - 1]]
  }

  predicate HasNew(base: seq<string>, more: seq<string>) {
    exists x :: x in more && x !in base
  }

  function MergeCall(chain: seq<ChaincodeCall>, call: ChaincodeCall): ChaincodeCall {
    match First(chain, call.id)
    case None => call
    case Some(c) => ChaincodeCall(c.id, AddNew(c.collections, call.collections))
  }

  predicate CallAddsTo(chain: seq<ChaincodeCall>, call: ChaincodeCall) {
    match First(chain, call.id)
    case None => true
    case Some(c) => HasNew(c.collections, call.collections)
  }

  /** The calls whose chaincode the filter accepts, in order. */
  function Accepted(calls: seq<ChaincodeCall>, accept: string -> bool): seq<ChaincodeCall> {
    if calls == [] then []
    else
      var front := Accepted(calls[..|calls| - 1], accept);
      if accept(calls[|calls| - 1].id) then front + [calls[|calls| - 1]] else front
  }

  /** What the merge of each accepted call gives when it is made: one call for each of them and nothing else. */
  function MergeAll(chain: seq<ChaincodeCall>, calls: seq<ChaincodeCall>): seq<ChaincodeCall> {
    seq(|calls|, i requires 0 <= i < |calls| => MergeCall(chain, calls[i]))
  }

  predicate Changes(chain: seq<ChaincodeCall>, calls: seq<ChaincodeCall>) {
    exists i :: 0 <= i < |calls| && CallAddsTo(chain, calls[i])
  }

  ghost predicate DistinctIds(chain: seq<ChaincodeCall>) {
    forall i, j :: 0 <= i < j < |chain| ==> chain[i].id != chain[j].id
  }

  // ----- the operations, as loops

  method NewInvocationChain(primary: string, chain: seq<ChaincodeCall>) returns (calls: seq<ChaincodeCall>)
    ensures calls == NewChain(primary, chain)
  {
    calls := [ChaincodeCall(primary, [])];
    for i := 0 to |chain|
      invariant calls == NewChain(primary, chain[..i])
    {
      assert chain[..i + 1][..i] == chain[..i];
      if chain[i].id == calls[0].id {
        calls := calls[0 := calls[0].(collections := chain[i].collections)];
      } else {
        calls := calls + [chain[i]];
      }
    }
    assert chain[..|chain|] == chain;
  }

  method Merge(c1: ChaincodeCall, c2: ChaincodeCall) returns (c: ChaincodeCall, merged: bool)
    ensures c == ChaincodeCall(c1.id, AddNew(c1.collections, c2.collections))
    ensures merged <==> HasNew(c1.collections, c2.collections)
  {
    c, merged := c1, false;
    for i := 0 to |c2.collections|
      invariant c == ChaincodeCall(c1.id, AddNew(c1.collections, c2.collections[..i]))
      invariant merged <==> HasNew(c1.collections, c2.collections[..i])
    {
      HasNewStep(c1.collections, c2.collections, i);
      if c2.collections[i] !in c.collections {
        c := c.(collections := c.collections + [c2.collections[i]]);
        merged := true;
      }
    }
    assert c2.collections[..|c2.collections|] == c2.collections;
  }

  method MergeCCCall(chain: seq<ChaincodeCall>, call: ChaincodeCall) returns (c: ChaincodeCall, merged: bool)
    ensures c == MergeCall(chain, call)
    ensures merged <==> CallAddsTo(chain, call)
  {
    match First(chain, call.id)
    case None => c, merged := call, true;
    case Some(found) => {
      FirstIsFirst(chain, call.id);
      c, merged := Merge(found, call);
    }
  }

  // ----- what rebuilding, filtering and appending keep, in which order

  lemma {:induction false} OthersPicked(id: string, chain: seq<ChaincodeCall>, p: nat -> bool)
    requires forall i: nat :: i < |chain| ==> (p(i) <==> chain[i].id != id)
    ensures Picks(chain, p, Others(id, chain))
  {
    if chain != [] {
      var front, last := chain[..|chain| - 1], chain[|chain| - 1];
      OthersPicked(id, front, p);
      PicksStep(front, p, Others(id, front), last);
      assert chain == front + [last];
    }
  }

  lemma {:induction false} NoLast(id: string, chain: seq<ChaincodeCall>)
    requires forall i :: 0 <= i < |chain| ==> chain[i].id != id
    ensures LastOf(id, chain) == []
  {
    if chain != [] {
      NoLast(id, chain[..|chain| - 1]);
    }
  }

  /** A rebuilt chain: first the primary chaincode with the collections of its last entry, or none, then
      all calls to other chaincodes and nothing else, in order. */
  lemma RebuiltExactly(primary: string, chain: seq<ChaincodeCall>)
    ensures NewChain(primary, chain) != [] && NewChain(primary, chain)[0].id == primary
    ensures forall i :: 0 <= i < |chain| && chain[i].id == primary
                        && (forall j :: i < j < |chain| ==> chain[j].id != primary)
                        ==> NewChain(primary, chain)[0].collections == chain[i].collections
    ensures (forall i :: 0 <= i < |chain| ==> chain[i].id != primary) ==> NewChain(primary, chain)[0].collections == []
    ensures Picks(chain, (i: nat) => i < |chain| && chain[i].id != primary, NewChain(primary, chain)[1..])
  {
    OthersPicked(primary, chain, (i: nat) => i < |chain| && chain[i].id != primary);
    assert NewChain(primary, chain)[1..] == Others(primary, chain);
    forall i | 0 <= i < |chain| && chain[i].id == primary && forall j :: i < j < |chain| ==> chain[j].id != primary
      ensures NewChain(primary, chain)[0].collections == chain[i].collections
    {
      LastOfAt(chain, i);
    }
    if forall i :: 0 <= i < |chain| ==> chain[i].id != primary {
      NoLast(primary, chain);
    }
  }

  lemma {:induction false} AcceptedPicked(calls: seq<ChaincodeCall>, accept: string -> bool, p: nat -> bool)
    requires forall i: nat :: i < |calls| ==> (p(i) <==> accept(calls[i].id))
    ensures Picks(calls, p, Accepted(calls, accept))
  {
    if calls != [] {
      var front, last := calls[..|calls| - 1], calls[|calls| - 1];
      AcceptedPicked(front, accept, p);
      PicksStep(front, p, Accepted(front, accept), last);
      assert calls == front + [last];
    }
  }

  /** The filter keeps exactly the calls whose chaincode it accepts, in order. */
  lemma AcceptedExactly(calls: seq<ChaincodeCall>, accept: string -> bool)
    ensures Picks(calls, (i: nat) => i < |calls| && accept(calls[i].id), Accepted(calls, accept))
  {
    AcceptedPicked(calls, accept, (i: nat) => i < |calls| && accept(calls[i].id));
  }

  lemma {:induction false} AddedStep(base: seq<string>, front: seq<string>, last: string)
    ensures AddNew(base, front + [last]) ==
            if last in base || last in front then AddNew(base, front) else AddNew(base, front) + [last]
  {
    assert (front + [last])[..|front|] == front;
    AddNewContent(base, front);
  }

  lemma {:induction false} AddedPicked(base: seq<string>, more: seq<string>, p: nat -> bool)
      returns (added: seq<string>)
    requires forall i: nat :: i < |more| ==> (p(i) <==> more[i] !in base && more[i] !in more[..i])
    ensures AddNew(base, more) == base + added && Picks(more, p, added)
  {
    if more == [] {
      added := [];
    } else {
      var n := |more| - 1;
      var front, last := more[..n], more[n];
      assert more == front + [last];
      assert forall i: nat :: i < n ==> front[..i] == more[..i];
      added := AddedPicked(base, front, p);
      PicksStep(front, p, added, last);
      AddedStep(base, front, last);
      assert base + (added + [last]) == base + added + [last];
      added := if p(n) then added + [last] else added;
    }
  }

  /** Merging appends exactly the first occurrences of new strings, in the order in which they come. */
  lemma AddedExactly(base: seq<string>, more: seq<string>)
    ensures base <= AddNew(base, more)
    ensures Picks(more, (i: nat) => i < |more| && more[i] !in base && more[i] !in more[..i],
                  AddNew(base, more)[|base|..])
  {
    var added := AddedPicked(base, more, (i: nat) => i < |more| && more[i] !in base && more[i] !in more[..i]);
    assert AddNew(base, more)[|base|..] == added;
  }

  // ----- what merging means

  lemma {:induction false} FirstIsFirst(chain: seq<ChaincodeCall>, id: string)
    ensures First(chain, id).None? <==> forall i :: 0 <= i < |chain| ==> chain[i].id != id
    ensures First(chain, id).Some? ==>
              exists i :: 0 <= i < |chain| && chain[i] == First(chain, id).value && chain[i].id == id
                          && forall j :: 0 <= j < i ==> chain[j].id != id
  {
    if chain != [] && chain[0].id != id {
      FirstIsFirst(chain[1..], id);
      assert forall i :: 1 <= i < |chain| ==> chain[i] == chain[1..][i - 1];
      if First(chain, id).Some? {
        var i :| 0 <= i < |chain[1..]| && chain[1..][i] == First(chain, id).value && chain[1..][i].id == id
                 && forall j :: 0 <= j < i ==> chain[1..][j].id != id;
        assert chain[i + 1] == First(chain, id).value;
      }
    }
  }

  /** Merged collections: the old list is a prefix, the rest is new, the union is exact, and merging
      introduces no duplicates. */
  lemma {:induction false} AddNewContent(base: seq<string>, more: seq<string>)
    ensures base <= AddNew(base, more)
    ensures forall x :: x in AddNew(base, more) <==> x in base || x in more
    ensures Distinct(base) ==> Distinct(AddNew(base, more))
    ensures !HasNew(base, more) ==> AddNew(base, more) == base
  {
    if more != [] {
      var front := more[..|more| - 1];
      AddNewContent(base, front);
      assert more == front + [more[|more| - 1]];
      assert forall x :: x in more <==> x in front || x == more[|more| - 1];
    }
  }

  /** What one more element of `more` does. */
  lemma HasNewStep(base: seq<string>, more: seq<string>, n: nat)
    requires n < |more|
    ensures HasNew(base, more[..n + 1]) <==> HasNew(base, more[..n]) || more[n] !in AddNew(base, more[..n])
    ensures AddNew(base, more[..n + 1]) ==
            if more[n] in AddNew(base, more[..n]) then AddNew(base, more[..n])
            else AddNew(base, more[..n]) + [more[n]]
  {
    assert more[..n + 1][..n] == more[..n] && more[..n + 1] == more[..n] + [more[n]];
    AddNewContent(base, more[..n]);
  }

  /** The collections the chain lists for `id`. */
  function Known(chain: seq<ChaincodeCall>, id: string): seq<string> {
    match First(chain, id)
    case None => []
    case Some(c) => c.collections
  }

  /** Merged ids are the accepted ids, and the merged collections are the known ones followed by
      the new ones; for a chaincode the chain lacks, the call is taken as it is. */
  lemma MergeMeaning(chain: seq<ChaincodeCall>, calls: seq<ChaincodeCall>)
    ensures |MergeAll(chain, calls)| == |calls|
    ensures forall i :: 0 <= i < |calls| ==>
              && MergeAll(chain, calls)[i].id == calls[i].id
              && Known(chain, calls[i].id) <= MergeAll(chain, calls)[i].collections
              && (Distinct(Known(chain, calls[i].id)) && First(chain, calls[i].id).Some? ==>
                    Distinct(MergeAll(chain, calls)[i].collections))
              && forall x :: x in MergeAll(chain, calls)[i].collections
                             <==> x in Known(chain, calls[i].id) || x in calls[i].collections
  {
    forall i | 0 <= i < |calls|
      ensures MergeAll(chain, calls)[i].id == calls[i].id
      ensures Known(chain, calls[i].id) <= MergeAll(chain, calls)[i].collections
      ensures Distinct(Known(chain, calls[i].id)) && First(chain, calls[i].id).Some? ==>
                Distinct(MergeAll(chain, calls)[i].collections)
      ensures forall x :: x in MergeAll(chain, calls)[i].collections
                          <==> x in Known(chain, calls[i].id) || x in calls[i].collections
    {
      FirstIsFirst(chain, calls[i].id);
      AddNewContent(Known(chain, calls[i].id), calls[i].collections);
    }
  }

  /** The call names a chaincode absent from the chain, or a collection absent from the first call
      to its chaincode. */
  ghost predicate NewsTo(chain: seq<ChaincodeCall>, call: ChaincodeCall) {
    || (forall j :: 0 <= j < |chain| ==> chain[j].id != call.id)
    || exists x :: x in call.collections && x !in Known(chain, call.id)
  }

  /** `changed` is reported exactly when some accepted call is news to the chain. */
  lemma ChangesMeaning(chain: seq<ChaincodeCall>, calls: seq<ChaincodeCall>)
    ensures Changes(chain, calls) <==> exists call :: call in calls && NewsTo(chain, call)
  {
    forall call | call in calls
      ensures CallAddsTo(chain, call) <==> NewsTo(chain, call)
    {
      FirstIsFirst(chain, call.id);
    }
  }

  // ----- footprints

  /** A chaincode, or one of its private data collections. */
  datatype Item = Chaincode(id: string) | Collection(id: string, name: string)

  ghost predicate CallMentions(c: ChaincodeCall, item: Item) {
    c.id == item.id && (item.Collection? ==> item.name in c.collections)
  }

  ghost predicate Mentions(chain: seq<ChaincodeCall>, item: Item) {
    exists i :: 0 <= i < |chain| && CallMentions(chain[i], item)
  }

  ghost predicate Covers(chain: seq<ChaincodeCall>, calls: seq<ChaincodeCall>) {
    forall item :: Mentions(calls, item) ==> Mentions(chain, item)
  }

  /** "Nothing new" means that the chain already covered the response. */
  lemma UnchangedCovers(chain: seq<ChaincodeCall>, calls: seq<ChaincodeCall>)
    requires !Changes(chain, calls)
    ensures Covers(chain, calls)
  {
    forall item | Mentions(calls, item)
      ensures Mentions(chain, item)
    {
      var i :| 0 <= i < |calls| && CallMentions(calls[i], item);
      assert !CallAddsTo(chain, calls[i]);
      FirstIsFirst(chain, item.id);
      assert CallMentions(First(chain, item.id).value, item);
    }
  }

  lemma {:induction false} OthersMembers(id: string, chain: seq<ChaincodeCall>, c: ChaincodeCall)
    ensures c in Others(id, chain) <==> c in chain && c.id != id
  {
    if chain != [] {
      var front := chain[..|chain| - 1];
      OthersMembers(id, front, c);
      assert chain == front + [chain[|chain| - 1]];
    }
  }

  ghost predicate Calls(chain: seq<ChaincodeCall>, id: string) {
    exists i :: 0 <= i < |chain| && chain[i].id == id
  }

  /** The last call to `id` is the one whose collections count. */
  lemma {:induction false} LastOfAt(chain: seq<ChaincodeCall>, j: nat)
    requires j < |chain| && forall k :: j < k < |chain| ==> chain[k].id != chain[j].id
    ensures LastOf(chain[j].id, chain) == chain[j].collections
  {
    if j < |chain| - 1 {
      LastOfAt(chain[..|chain| - 1], j);
    }
  }

  lemma {:induction false} LastCall(chain: seq<ChaincodeCall>, id: string) returns (j: nat)
    requires Calls(chain, id)
    ensures j < |chain| && chain[j].id == id && forall k :: j < k < |chain| ==> chain[k].id != id
  {
    var n := |chain| - 1;
    if chain[n].id == id {
      j := n;
    } else {
      var i :| 0 <= i < |chain| && chain[i].id == id;
      assert chain[..n][i].id == id;
      j := LastCall(chain[..n], id);
    }
  }

  lemma {:induction false} FirstOfOthers(primary: string, chain: seq<ChaincodeCall>, id: string)
    requires id != primary
    ensures First(Others(primary, chain), id) == First(chain, id)
  {
    if chain != [] {
      var front, last := chain[..|chain| - 1], chain[|chain| - 1];
      FirstOfOthers(primary, front, id);
      FirstAppend(front, last, id);
      FirstAppend(Others(primary, front), last, id);
      assert chain == front + [last];
    }
  }

  lemma {:induction false} FirstAppend(chain: seq<ChaincodeCall>, last: ChaincodeCall, id: string)
    ensures First(chain + [last], id) ==
            if First(chain, id).Some? then First(chain, id) else if last.id == id then Some(last) else None
  {
    if chain != [] {
      assert (chain + [last])[1..] == chain[1..] + [last];
      FirstAppend(chain[1..], last, id);
    }
  }

  // ----- what a rebuilt chain mentions

  /** Rebuilding keeps what a chain says about every chaincode but the primary, of which it keeps the
      last entry only. */
  lemma RebuiltMentions(primary: string, chain: seq<ChaincodeCall>, item: Item)
    ensures Mentions(NewChain(primary, chain), item) <==>
            if item.id == primary then item.Chaincode? || item.name in LastOf(primary, chain)
            else Mentions(chain, item)
  {
    var rebuilt, others := NewChain(primary, chain), Others(primary, chain);
    assert CallMentions(rebuilt[0], item) <==>
           item.id == primary && (item.Collection? ==> item.name in LastOf(primary, chain));
    forall k | 0 < k < |rebuilt|
      ensures rebuilt[k] in chain && rebuilt[k].id != primary
    {
      assert rebuilt[k] == others[k - 1];
      OthersMembers(primary, chain, rebuilt[k]);
    }
    if item.id != primary && Mentions(chain, item) {
      var i :| 0 <= i < |chain| && CallMentions(chain[i], item);
      OthersMembers(primary, chain, chain[i]);
      var k :| 0 <= k < |others| && others[k] == chain[i];
      assert rebuilt[k + 1] == chain[i];
    }
  }

  /** The first call found in a rebuilt chain. */
  lemma RebuiltFirst(primary: string, chain: seq<ChaincodeCall>, id: string)
    ensures First(NewChain(primary, chain), id) ==
            if id == primary then Some(ChaincodeCall(primary, LastOf(primary, chain))) else First(chain, id)
  {
    if id != primary {
      assert NewChain(primary, chain)[1..] == Others(primary, chain);
      FirstOfOthers(primary, chain, id);
    }
  }
}
