/** Read/write sets and their protobuf messages: nested conversions in both directions, for public
    and private sets. Protobuf itself appears as codecs with a round-trip contract. */
module RwSet {
  import opened Common

  /** `proto.Marshal` / `proto.Unmarshal` for one message type. Go passes pointers, so a message to
      marshal may be nil. */
  datatype Codec<!M> = Codec(marshal: Option<M> -> Result<Bytes>, unmarshal: Bytes -> Result<M>)

  /** What is marshalled can be read back; a nil message is never marshalled. */
  ghost predicate RoundTrips<M(!new)>(c: Codec<M>) {
    forall m {:trigger c.marshal(m)} :: c.marshal(m).Ok? ==> m.Some? && c.unmarshal(c.marshal(m).value) == Ok(m.value)
  }

  /** The bytes are what marshalling their own content gives. */
  ghost predicate Canonical<M(!new)>(c: Codec<M>, bytes: Bytes) {
    c.unmarshal(bytes).Ok? ==> c.marshal(Some(c.unmarshal(bytes).value)) == Ok(bytes)
  }

  // Leaf content: only its identity matters here.
  datatype KVRWSet = KVRWSet(
    readSet: seq<string>, rangeQueries: seq<string>, writeSet: seq<string>, metadataWrites: seq<string>)
  datatype HashedRWSet = HashedRWSet(hashedReads: seq<Bytes>, hashedWrites: seq<Bytes>, metadataWrites: seq<Bytes>)

  // ----- structures

  datatype NsRwSet = NsRwSet(nameSpace: string, kvRwSet: Option<KVRWSet>, collHashedRwSets: seq<CollHashedRwSet>)
  datatype CollHashedRwSet = CollHashedRwSet(
    collectionName: string, hashedRwSet: Option<HashedRWSet>, pvtRwSetHash: Bytes)
  datatype NsPvtRwSet = NsPvtRwSet(nameSpace: string, collPvtRwSets: seq<CollPvtRwSet>)
  datatype CollPvtRwSet = CollPvtRwSet(collectionName: string, kvRwSet: Option<KVRWSet>)

  // ----- messages

  const KV := 0

  datatype TxMsg = TxMsg(dataModel: int, nsRwset: seq<NsMsg>)
  datatype NsMsg = NsMsg(namespace: string, rwset: Bytes, collectionHashedRwset: seq<CollMsg>)
  datatype CollMsg = CollMsg(collectionName: string, hashedRwset: Bytes, pvtRwsetHash: Bytes)
  datatype TxPvtMsg = TxPvtMsg(dataModel: int, nsPvtRwset: seq<NsPvtMsg>)
  datatype NsPvtMsg = NsPvtMsg(namespace: string, collectionPvtRwset: seq<CollPvtMsg>)
  datatype CollPvtMsg = CollPvtMsg(collectionName: string, rwset: Bytes)

  datatype Codecs = Codecs(kv: Codec<KVRWSet>, hashed: Codec<HashedRWSet>, tx: Codec<TxMsg>, txPvt: Codec<TxPvtMsg>)

  ghost predicate Sound(cs: Codecs) {
    RoundTrips(cs.kv) && RoundTrips(cs.hashed) && RoundTrips(cs.tx) && RoundTrips(cs.txPvt)
  }

  // ----- specification of the conversions

  function CollToMsg(cs: Codecs, c: CollHashedRwSet): Result<CollMsg> {
    var b :- cs.hashed.marshal(c.hashedRwSet);
    Ok(CollMsg(c.collectionName, b, c.pvtRwSetHash))
  }

  function CollFromMsg(cs: Codecs, m: CollMsg): Result<CollHashedRwSet> {
    var h :- cs.hashed.unmarshal(m.hashedRwset);
    Ok(CollHashedRwSet(m.collectionName, Some(h), m.pvtRwsetHash))
  }

  function NsToMsg(cs: Codecs, n: NsRwSet): Result<NsMsg> {
    var b :- cs.kv.marshal(n.kvRwSet);
    var ms :- Traverse(c => CollToMsg(cs, c), n.collHashedRwSets);
    Ok(NsMsg(n.nameSpace, b, ms))
  }

  function NsFromMsg(cs: Codecs, m: NsMsg): Result<NsRwSet> {
    var kv :- cs.kv.unmarshal(m.rwset);
    var hs :- Traverse(c => CollFromMsg(cs, c), m.collectionHashedRwset);
    Ok(NsRwSet(m.namespace, Some(kv), hs))
  }

  function TxToMsg(cs: Codecs, sets: seq<NsRwSet>): Result<TxMsg> {
    var ms :- Traverse(n => NsToMsg(cs, n), sets);
    Ok(TxMsg(KV, ms))
  }

  function TxFromMsg(cs: Codecs, m: TxMsg): Result<seq<NsRwSet>> {
    Traverse(n => NsFromMsg(cs, n), m.nsRwset)
  }

  function CollPvtToMsg(cs: Codecs, c: CollPvtRwSet): Result<CollPvtMsg> {
    var b :- cs.kv.marshal(c.kvRwSet);
    Ok(CollPvtMsg(c.collectionName, b))
  }

  function CollPvtFromMsg(cs: Codecs, m: CollPvtMsg): Result<CollPvtRwSet> {
    var kv :- cs.kv.unmarshal(m.rwset);
    Ok(CollPvtRwSet(m.collectionName, Some(kv)))
  }

  function NsPvtToMsg(cs: Codecs, n: NsPvtRwSet): Result<NsPvtMsg> {
    var ms :- Traverse(c => CollPvtToMsg(cs, c), n.collPvtRwSets);
    Ok(NsPvtMsg(n.nameSpace, ms))
  }

  function NsPvtFromMsg(cs: Codecs, m: NsPvtMsg): Result<NsPvtRwSet> {
    var ps :- Traverse(c => CollPvtFromMsg(cs, c), m.collectionPvtRwset);
    Ok(NsPvtRwSet(m.namespace, ps))
  }

  function TxPvtToMsg(cs: Codecs, sets: seq<NsPvtRwSet>): Result<TxPvtMsg> {
    var ms :- Traverse(n => NsPvtToMsg(cs, n), sets);
    Ok(TxPvtMsg(KV, ms))
  }

  function TxPvtFromMsg(cs: Codecs, m: TxPvtMsg): Result<seq<NsPvtRwSet>> {
    Traverse(n => NsPvtFromMsg(cs, n), m.nsPvtRwset)
  }

  function TxToBytes(cs: Codecs, sets: seq<NsRwSet>): Result<Bytes> {
    var m :- TxToMsg(cs, sets);
    cs.tx.marshal(Some(m))
  }

  function TxFromBytes(cs: Codecs, bytes: Bytes): Result<seq<NsRwSet>> {
    var m :- cs.tx.unmarshal(bytes);
    TxFromMsg(cs, m)
  }

  function TxPvtToBytes(cs: Codecs, sets: seq<NsPvtRwSet>): Result<Bytes> {
    var m :- TxPvtToMsg(cs, sets);
    cs.txPvt.marshal(Some(m))
  }

  function TxPvtFromBytes(cs: Codecs, bytes: Bytes): Result<seq<NsPvtRwSet>> {
    var m :- cs.txPvt.unmarshal(bytes);
    TxPvtFromMsg(cs, m)
  }

  // ----- the public conversions, as loops

  class TxRwSet {
    var nsRwSets: seq<NsRwSet>

    constructor ()
      ensures nsRwSets == []
    {
      nsRwSets := [];
    }

    method ToProtoMsg(cs: Codecs) returns (r: Result<TxMsg>)
      ensures r == TxToMsg(cs, nsRwSets)
    {
      var msgs: seq<NsMsg> := [];
      ghost var f := n => NsToMsg(cs, n);
      for i := 0 to |nsRwSets|
        invariant Traverse(f, nsRwSets[..i]) == Ok(msgs)
      {
        TraverseStep(f, nsRwSets, i);
        var m :- NsToProtoMsg(cs, nsRwSets[i]);
        msgs := msgs + [m];
      }
      assert nsRwSets[..|nsRwSets|] == nsRwSets;
      return Ok(TxMsg(KV, msgs));
    }

    method ToProtoBytes(cs: Codecs) returns (r: Result<Bytes>)
      ensures r == TxToBytes(cs, nsRwSets)
    {
      var m :- ToProtoMsg(cs);
      return cs.tx.marshal(Some(m));
    }

    /** Replaces the receiver's sets, or leaves the receiver as it was and reports the error. */
    method FromProtoBytes(cs: Codecs, bytes: Bytes) returns (err: Option<Error>)
      modifies this
      ensures TxFromBytes(cs, bytes).Ok? ==> err == None && nsRwSets == TxFromBytes(cs, bytes).value
      ensures TxFromBytes(cs, bytes).Err? ==> err == Some(TxFromBytes(cs, bytes).error) && nsRwSets == old(nsRwSets)
    {
      var m := cs.tx.unmarshal(bytes);
      if m.Err? {
        return Some(m.error);
      }
      var sets := TxRwSetFromProtoMsg(cs, m.value);
      if sets.Err? {
        return Some(sets.error);
      }
      nsRwSets := sets.value;
      return None;
    }
  }

  method TxRwSetFromProtoMsg(cs: Codecs, m: TxMsg) returns (r: Result<seq<NsRwSet>>)
    ensures r == TxFromMsg(cs, m)
  {
    var sets: seq<NsRwSet> := [];
    ghost var f := n => NsFromMsg(cs, n);
    for i := 0 to |m.nsRwset|
      invariant Traverse(f, m.nsRwset[..i]) == Ok(sets)
    {
      TraverseStep(f, m.nsRwset, i);
      var n :- NsFromProtoMsg(cs, m.nsRwset[i]);
      sets := sets + [n];
    }
    assert m.nsRwset[..|m.nsRwset|] == m.nsRwset;
    return Ok(sets);
  }

  method NsToProtoMsg(cs: Codecs, n: NsRwSet) returns (r: Result<NsMsg>)
    ensures r == NsToMsg(cs, n)
  {
    var kv :- cs.kv.marshal(n.kvRwSet);
    var msgs: seq<CollMsg> := [];
    ghost var f := c => CollToMsg(cs, c);
    for i := 0 to |n.collHashedRwSets|
      invariant Traverse(f, n.collHashedRwSets[..i]) == Ok(msgs)
    {
      TraverseStep(f, n.collHashedRwSets, i);
      var m :- CollToMsg(cs, n.collHashedRwSets[i]);
      msgs := msgs + [m];
    }
    assert n.collHashedRwSets[..|n.collHashedRwSets|] == n.collHashedRwSets;
    return Ok(NsMsg(n.nameSpace, kv, msgs));
  }

  method NsFromProtoMsg(cs: Codecs, m: NsMsg) returns (r: Result<NsRwSet>)
    ensures r == NsFromMsg(cs, m)
  {
    var kv :- cs.kv.unmarshal(m.rwset);
    var colls: seq<CollHashedRwSet> := [];
    ghost var f := c => CollFromMsg(cs, c);
    for i := 0 to |m.collectionHashedRwset|
      invariant Traverse(f, m.collectionHashedRwset[..i]) == Ok(colls)
    {
      TraverseStep(f, m.collectionHashedRwset, i);
      var c :- CollFromMsg(cs, m.collectionHashedRwset[i]);
      colls := colls + [c];
    }
    assert m.collectionHashedRwset[..|m.collectionHashedRwset|] == m.collectionHashedRwset;
    return Ok(NsRwSet(m.namespace, Some(kv), colls));
  }

  // ----- the private conversions, as loops

  class TxPvtRwSet {
    var nsPvtRwSet: seq<NsPvtRwSet>

    constructor ()
      ensures nsPvtRwSet == []
    {
      nsPvtRwSet := [];
    }

    method ToProtoMsg(cs: Codecs) returns (r: Result<TxPvtMsg>)
      ensures r == TxPvtToMsg(cs, nsPvtRwSet)
    {
      var msgs: seq<NsPvtMsg> := [];
      ghost var f := n => NsPvtToMsg(cs, n);
      for i := 0 to |nsPvtRwSet|
        invariant Traverse(f, nsPvtRwSet[..i]) == Ok(msgs)
      {
        TraverseStep(f, nsPvtRwSet, i);
        var m :- NsPvtToProtoMsg(cs, nsPvtRwSet[i]);
        msgs := msgs + [m];
      }
      assert nsPvtRwSet[..|nsPvtRwSet|] == nsPvtRwSet;
      return Ok(TxPvtMsg(KV, msgs));
    }

    method ToProtoBytes(cs: Codecs) returns (r: Result<Bytes>)
      ensures r == TxPvtToBytes(cs, nsPvtRwSet)
    {
      var m :- ToProtoMsg(cs);
      return cs.txPvt.marshal(Some(m));
    }

    method FromProtoBytes(cs: Codecs, bytes: Bytes) returns (err: Option<Error>)
      modifies this
      ensures TxPvtFromBytes(cs, bytes).Ok? ==> err == None && nsPvtRwSet == TxPvtFromBytes(cs, bytes).value
      ensures TxPvtFromBytes(cs, bytes).Err? ==>
                err == Some(TxPvtFromBytes(cs, bytes).error) && nsPvtRwSet == old(nsPvtRwSet)
    {
      var m := cs.txPvt.unmarshal(bytes);
      if m.Err? {
        return Some(m.error);
      }
      var sets := TxPvtRwSetFromProtoMsg(cs, m.value);
      if sets.Err? {
        return Some(sets.error);
      }
      nsPvtRwSet := sets.value;
      return None;
    }
  }

  method TxPvtRwSetFromProtoMsg(cs: Codecs, m: TxPvtMsg) returns (r: Result<seq<NsPvtRwSet>>)
    ensures r == TxPvtFromMsg(cs, m)
  {
    var sets: seq<NsPvtRwSet> := [];
    ghost var f := n => NsPvtFromMsg(cs, n);
    for i := 0 to |m.nsPvtRwset|
      invariant Traverse(f, m.nsPvtRwset[..i]) == Ok(sets)
    {
      TraverseStep(f, m.nsPvtRwset, i);
      var n :- NsPvtFromProtoMsg(cs, m.nsPvtRwset[i]);
      sets := sets + [n];
    }
    assert m.nsPvtRwset[..|m.nsPvtRwset|] == m.nsPvtRwset;
    return Ok(sets);
  }

  method NsPvtToProtoMsg(cs: Codecs, n: NsPvtRwSet) returns (r: Result<NsPvtMsg>)
    ensures r == NsPvtToMsg(cs, n)
  {
    var msgs: seq<CollPvtMsg> := [];
    ghost var f := c => CollPvtToMsg(cs, c);
    for i := 0 to |n.collPvtRwSets|
      invariant Traverse(f, n.collPvtRwSets[..i]) == Ok(msgs)
    {
      TraverseStep(f, n.collPvtRwSets, i);
      var m :- CollPvtToMsg(cs, n.collPvtRwSets[i]);
      msgs := msgs + [m];
    }
    assert n.collPvtRwSets[..|n.collPvtRwSets|] == n.collPvtRwSets;
    return Ok(NsPvtMsg(n.nameSpace, msgs));
  }

  method NsPvtFromProtoMsg(cs: Codecs, m: NsPvtMsg) returns (r: Result<NsPvtRwSet>)
    ensures r == NsPvtFromMsg(cs, m)
  {
    var colls: seq<CollPvtRwSet> := [];
    ghost var f := c => CollPvtFromMsg(cs, c);
    for i := 0 to |m.collectionPvtRwset|
      invariant Traverse(f, m.collectionPvtRwset[..i]) == Ok(colls)
    {
      TraverseStep(f, m.collectionPvtRwset, i);
      var c :- CollPvtFromMsg(cs, m.collectionPvtRwset[i]);
      colls := colls + [c];
    }
    assert m.collectionPvtRwset[..|m.collectionPvtRwset|] == m.collectionPvtRwset;
    return Ok(NsPvtRwSet(m.namespace, colls));
  }

  // ----- conversion succeeds exactly when every leaf does

  ghost predicate NsLeavesMarshal(cs: Codecs, n: NsRwSet) {
    && cs.kv.marshal(n.kvRwSet).Ok?
    && forall j :: 0 <= j < |n.collHashedRwSets| ==> cs.hashed.marshal(n.collHashedRwSets[j].hashedRwSet).Ok?
  }

  lemma NsConvertsIff(cs: Codecs, n: NsRwSet)
    ensures NsToMsg(cs, n).Ok? <==> NsLeavesMarshal(cs, n)
  {
    var f := c => CollToMsg(cs, c);
    TraverseElements(f, n.collHashedRwSets);
    forall j | 0 <= j < |n.collHashedRwSets|
      ensures f(n.collHashedRwSets[j]).Ok? <==> cs.hashed.marshal(n.collHashedRwSets[j].hashedRwSet).Ok?
    {
    }
  }

  lemma TxConvertsIff(cs: Codecs, sets: seq<NsRwSet>)
    ensures TxToMsg(cs, sets).Ok? <==> forall i :: 0 <= i < |sets| ==> NsLeavesMarshal(cs, sets[i])
  {
    var f := n => NsToMsg(cs, n);
    TraverseElements(f, sets);
    forall i | 0 <= i < |sets|
      ensures f(sets[i]).Ok? <==> NsLeavesMarshal(cs, sets[i])
    {
      NsConvertsIff(cs, sets[i]);
    }
  }

  ghost predicate NsPvtLeavesMarshal(cs: Codecs, n: NsPvtRwSet) {
    forall j :: 0 <= j < |n.collPvtRwSets| ==> cs.kv.marshal(n.collPvtRwSets[j].kvRwSet).Ok?
  }

  lemma TxPvtConvertsIff(cs: Codecs, sets: seq<NsPvtRwSet>)
    ensures TxPvtToMsg(cs, sets).Ok? <==> forall i :: 0 <= i < |sets| ==> NsPvtLeavesMarshal(cs, sets[i])
  {
    var f := n => NsPvtToMsg(cs, n);
    TraverseElements(f, sets);
    forall i | 0 <= i < |sets|
      ensures f(sets[i]).Ok? <==> NsPvtLeavesMarshal(cs, sets[i])
    {
      var g := c => CollPvtToMsg(cs, c);
      TraverseElements(g, sets[i].collPvtRwSets);
      assert forall j :: 0 <= j < |sets[i].collPvtRwSets| ==>
                           (g(sets[i].collPvtRwSets[j]).Ok? <==> cs.kv.marshal(sets[i].collPvtRwSets[j].kvRwSet).Ok?);
    }
  }

  /** Decoding succeeds exactly when every leaf of every message does. */
  lemma TxDecodesIff(cs: Codecs, m: TxMsg)
    ensures TxFromMsg(cs, m).Ok? <==>
            forall i :: 0 <= i < |m.nsRwset| ==>
              && cs.kv.unmarshal(m.nsRwset[i].rwset).Ok?
              && forall j :: 0 <= j < |m.nsRwset[i].collectionHashedRwset| ==>
                               cs.hashed.unmarshal(m.nsRwset[i].collectionHashedRwset[j].hashedRwset).Ok?
  {
    var f, g := n => NsFromMsg(cs, n), c => CollFromMsg(cs, c);
    TraverseElements(f, m.nsRwset);
    forall i | 0 <= i < |m.nsRwset|
      ensures f(m.nsRwset[i]).Ok? <==>
              && cs.kv.unmarshal(m.nsRwset[i].rwset).Ok?
              && forall j :: 0 <= j < |m.nsRwset[i].collectionHashedRwset| ==>
                               cs.hashed.unmarshal(m.nsRwset[i].collectionHashedRwset[j].hashedRwset).Ok?
    {
      var colls := m.nsRwset[i].collectionHashedRwset;
      TraverseElements(g, colls);
      assert forall j :: 0 <= j < |colls| ==> (g(colls[j]).Ok? <==> cs.hashed.unmarshal(colls[j].hashedRwset).Ok?);
    }
  }

  lemma TxPvtDecodesIff(cs: Codecs, m: TxPvtMsg)
    ensures TxPvtFromMsg(cs, m).Ok? <==>
            forall i :: 0 <= i < |m.nsPvtRwset| ==>
              forall j :: 0 <= j < |m.nsPvtRwset[i].collectionPvtRwset| ==>
                            cs.kv.unmarshal(m.nsPvtRwset[i].collectionPvtRwset[j].rwset).Ok?
  {
    var f, g := n => NsPvtFromMsg(cs, n), c => CollPvtFromMsg(cs, c);
    TraverseElements(f, m.nsPvtRwset);
    forall i | 0 <= i < |m.nsPvtRwset|
      ensures f(m.nsPvtRwset[i]).Ok? <==>
              forall j :: 0 <= j < |m.nsPvtRwset[i].collectionPvtRwset| ==>
                            cs.kv.unmarshal(m.nsPvtRwset[i].collectionPvtRwset[j].rwset).Ok?
    {
      var colls := m.nsPvtRwset[i].collectionPvtRwset;
      TraverseElements(g, colls);
      assert forall j :: 0 <= j < |colls| ==> (g(colls[j]).Ok? <==> cs.kv.unmarshal(colls[j].rwset).Ok?);
    }
  }

  // ----- which message, and which error

  /** The message of one namespace, field by field and collection by collection. */
  lemma NsMessageExactly(cs: Codecs, n: NsRwSet)
    requires NsToMsg(cs, n).Ok?
    ensures var m := NsToMsg(cs, n).value;
            && m.namespace == n.nameSpace
            && cs.kv.marshal(n.kvRwSet) == Ok(m.rwset)
            && |m.collectionHashedRwset| == |n.collHashedRwSets|
            && forall j :: 0 <= j < |n.collHashedRwSets| ==>
                 && m.collectionHashedRwset[j].collectionName == n.collHashedRwSets[j].collectionName
                 && m.collectionHashedRwset[j].pvtRwsetHash == n.collHashedRwSets[j].pvtRwSetHash
                 && cs.hashed.marshal(n.collHashedRwSets[j].hashedRwSet) == Ok(m.collectionHashedRwset[j].hashedRwset)
  {
    var f := c => CollToMsg(cs, c);
    TraverseElements(f, n.collHashedRwSets);
    var m := NsToMsg(cs, n).value;
    assert forall j :: 0 <= j < |n.collHashedRwSets| ==>
                         CollToMsg(cs, n.collHashedRwSets[j]) == Ok(m.collectionHashedRwset[j]);
  }

  /** The message of a public transaction set has data model KV and one message for each namespace, in
      order. With an error, it is that of the first namespace that cannot be converted. */
  lemma TxMessageExactly(cs: Codecs, sets: seq<NsRwSet>)
    ensures TxToMsg(cs, sets).Ok? ==>
              var m := TxToMsg(cs, sets).value;
              && m.dataModel == 0
              && |m.nsRwset| == |sets|
              && forall i :: 0 <= i < |sets| ==> NsToMsg(cs, sets[i]) == Ok(m.nsRwset[i])
    ensures forall i :: 0 <= i < |sets| && NsToMsg(cs, sets[i]).Err?
                        && (forall j :: 0 <= j < i ==> NsToMsg(cs, sets[j]).Ok?)
                        ==> TxToMsg(cs, sets) == Err(NsToMsg(cs, sets[i]).error)
  {
    var f := n => NsToMsg(cs, n);
    TraverseElements(f, sets);
    assert forall i :: 0 <= i < |sets| ==> f(sets[i]) == NsToMsg(cs, sets[i]);
    forall i: nat | i < |sets| && NsToMsg(cs, sets[i]).Err? && forall j :: 0 <= j < i ==> NsToMsg(cs, sets[j]).Ok?
      ensures TxToMsg(cs, sets) == Err(NsToMsg(cs, sets[i]).error)
    {
      TraverseError(f, sets, i);
    }
  }

  /** Within a namespace the leaf is tried first, then the collections in order. */
  lemma NsMessageFails(cs: Codecs, n: NsRwSet)
    ensures cs.kv.marshal(n.kvRwSet).Err? ==> NsToMsg(cs, n) == Err(cs.kv.marshal(n.kvRwSet).error)
    ensures cs.kv.marshal(n.kvRwSet).Ok? ==>
              forall j :: 0 <= j < |n.collHashedRwSets| && cs.hashed.marshal(n.collHashedRwSets[j].hashedRwSet).Err?
                          && (forall k :: 0 <= k < j ==> cs.hashed.marshal(n.collHashedRwSets[k].hashedRwSet).Ok?)
                ==> NsToMsg(cs, n) == Err(cs.hashed.marshal(n.collHashedRwSets[j].hashedRwSet).error)
  {
    var f := c => CollToMsg(cs, c);
    forall j: nat | j < |n.collHashedRwSets| && cs.hashed.marshal(n.collHashedRwSets[j].hashedRwSet).Err?
                    && forall k :: 0 <= k < j ==> cs.hashed.marshal(n.collHashedRwSets[k].hashedRwSet).Ok?
      ensures Traverse(f, n.collHashedRwSets) == Err(cs.hashed.marshal(n.collHashedRwSets[j].hashedRwSet).error)
    {
      assert forall k :: 0 <= k < j ==> f(n.collHashedRwSets[k]).Ok?;
      TraverseError(f, n.collHashedRwSets, j);
    }
  }

  /** What one namespace message is decoded to, and the error otherwise: the leaf's first, then that of the
      first collection that cannot be decoded. */
  lemma NsDecodedExactly(cs: Codecs, m: NsMsg)
    ensures NsFromMsg(cs, m).Ok? ==>
              var n := NsFromMsg(cs, m).value;
              && n.nameSpace == m.namespace
              && n.kvRwSet.Some? && cs.kv.unmarshal(m.rwset) == Ok(n.kvRwSet.value)
              && |n.collHashedRwSets| == |m.collectionHashedRwset|
              && forall j :: 0 <= j < |m.collectionHashedRwset| ==>
                   var c, d := n.collHashedRwSets[j], m.collectionHashedRwset[j];
                   && c.collectionName == d.collectionName && c.pvtRwSetHash == d.pvtRwsetHash
                   && c.hashedRwSet.Some? && cs.hashed.unmarshal(d.hashedRwset) == Ok(c.hashedRwSet.value)
    ensures cs.kv.unmarshal(m.rwset).Err? ==> NsFromMsg(cs, m) == Err(cs.kv.unmarshal(m.rwset).error)
    ensures cs.kv.unmarshal(m.rwset).Ok? ==>
              forall j :: 0 <= j < |m.collectionHashedRwset|
                          && cs.hashed.unmarshal(m.collectionHashedRwset[j].hashedRwset).Err?
                          && (forall k :: 0 <= k < j ==>
                                cs.hashed.unmarshal(m.collectionHashedRwset[k].hashedRwset).Ok?)
                ==> NsFromMsg(cs, m) == Err(cs.hashed.unmarshal(m.collectionHashedRwset[j].hashedRwset).error)
  {
    var f, colls := c => CollFromMsg(cs, c), m.collectionHashedRwset;
    TraverseElements(f, colls);
    if NsFromMsg(cs, m).Ok? {
      assert forall j :: 0 <= j < |colls| ==>
                           CollFromMsg(cs, colls[j]) == Ok(NsFromMsg(cs, m).value.collHashedRwSets[j]);
    }
    forall j: nat | j < |colls| && cs.hashed.unmarshal(colls[j].hashedRwset).Err?
                    && forall k :: 0 <= k < j ==> cs.hashed.unmarshal(colls[k].hashedRwset).Ok?
      ensures Traverse(f, colls) == Err(cs.hashed.unmarshal(colls[j].hashedRwset).error)
    {
      assert forall k :: 0 <= k < j ==> f(colls[k]).Ok?;
      TraverseError(f, colls, j);
    }
  }

  /** A message is decoded namespace by namespace, in order; the first that cannot be decoded gives the error. */
  lemma TxDecodedExactly(cs: Codecs, m: TxMsg)
    ensures TxFromMsg(cs, m).Ok? ==>
              && |TxFromMsg(cs, m).value| == |m.nsRwset|
              && forall i :: 0 <= i < |m.nsRwset| ==> NsFromMsg(cs, m.nsRwset[i]) == Ok(TxFromMsg(cs, m).value[i])
    ensures forall i :: 0 <= i < |m.nsRwset| && NsFromMsg(cs, m.nsRwset[i]).Err?
                        && (forall j :: 0 <= j < i ==> NsFromMsg(cs, m.nsRwset[j]).Ok?)
                        ==> TxFromMsg(cs, m) == Err(NsFromMsg(cs, m.nsRwset[i]).error)
  {
    var f := n => NsFromMsg(cs, n);
    TraverseElements(f, m.nsRwset);
    assert forall i :: 0 <= i < |m.nsRwset| ==> f(m.nsRwset[i]) == NsFromMsg(cs, m.nsRwset[i]);
    forall i: nat | i < |m.nsRwset| && NsFromMsg(cs, m.nsRwset[i]).Err?
                    && forall j :: 0 <= j < i ==> NsFromMsg(cs, m.nsRwset[j]).Ok?
      ensures TxFromMsg(cs, m) == Err(NsFromMsg(cs, m.nsRwset[i]).error)
    {
      TraverseError(f, m.nsRwset, i);
    }
  }

  /** The message of one private namespace, and the error otherwise: that of the first collection that
      cannot be converted. */
  lemma NsPvtMessageExactly(cs: Codecs, n: NsPvtRwSet)
    ensures NsPvtToMsg(cs, n).Ok? ==>
              var m := NsPvtToMsg(cs, n).value;
              && m.namespace == n.nameSpace
              && |m.collectionPvtRwset| == |n.collPvtRwSets|
              && forall j :: 0 <= j < |n.collPvtRwSets| ==>
                   && m.collectionPvtRwset[j].collectionName == n.collPvtRwSets[j].collectionName
                   && cs.kv.marshal(n.collPvtRwSets[j].kvRwSet) == Ok(m.collectionPvtRwset[j].rwset)
    ensures forall j :: 0 <= j < |n.collPvtRwSets| && cs.kv.marshal(n.collPvtRwSets[j].kvRwSet).Err?
                        && (forall k :: 0 <= k < j ==> cs.kv.marshal(n.collPvtRwSets[k].kvRwSet).Ok?)
                        ==> NsPvtToMsg(cs, n) == Err(cs.kv.marshal(n.collPvtRwSets[j].kvRwSet).error)
  {
    var f, colls := c => CollPvtToMsg(cs, c), n.collPvtRwSets;
    TraverseElements(f, colls);
    if NsPvtToMsg(cs, n).Ok? {
      assert forall j :: 0 <= j < |colls| ==>
                           CollPvtToMsg(cs, colls[j]) == Ok(NsPvtToMsg(cs, n).value.collectionPvtRwset[j]);
    }
    forall j: nat | j < |colls| && cs.kv.marshal(colls[j].kvRwSet).Err?
                    && forall k :: 0 <= k < j ==> cs.kv.marshal(colls[k].kvRwSet).Ok?
      ensures Traverse(f, colls) == Err(cs.kv.marshal(colls[j].kvRwSet).error)
    {
      assert forall k :: 0 <= k < j ==> f(colls[k]).Ok?;
      TraverseError(f, colls, j);
    }
  }

  /** The private transaction set likewise. */
  lemma TxPvtMessageExactly(cs: Codecs, sets: seq<NsPvtRwSet>)
    ensures TxPvtToMsg(cs, sets).Ok? ==>
              var m := TxPvtToMsg(cs, sets).value;
              && m.dataModel == 0
              && |m.nsPvtRwset| == |sets|
              && forall i :: 0 <= i < |sets| ==> NsPvtToMsg(cs, sets[i]) == Ok(m.nsPvtRwset[i])
    ensures forall i :: 0 <= i < |sets| && NsPvtToMsg(cs, sets[i]).Err?
                        && (forall j :: 0 <= j < i ==> NsPvtToMsg(cs, sets[j]).Ok?)
                        ==> TxPvtToMsg(cs, sets) == Err(NsPvtToMsg(cs, sets[i]).error)
  {
    var f := n => NsPvtToMsg(cs, n);
    TraverseElements(f, sets);
    assert forall i :: 0 <= i < |sets| ==> f(sets[i]) == NsPvtToMsg(cs, sets[i]);
    forall i: nat | i < |sets| && NsPvtToMsg(cs, sets[i]).Err?
                    && forall j :: 0 <= j < i ==> NsPvtToMsg(cs, sets[j]).Ok?
      ensures TxPvtToMsg(cs, sets) == Err(NsPvtToMsg(cs, sets[i]).error)
    {
      TraverseError(f, sets, i);
    }
  }

  /** What one private namespace message is decoded to, and the error otherwise. */
  lemma NsPvtDecodedExactly(cs: Codecs, m: NsPvtMsg)
    ensures NsPvtFromMsg(cs, m).Ok? ==>
              var n := NsPvtFromMsg(cs, m).value;
              && n.nameSpace == m.namespace
              && |n.collPvtRwSets| == |m.collectionPvtRwset|
              && forall j :: 0 <= j < |m.collectionPvtRwset| ==>
                   var c, d := n.collPvtRwSets[j], m.collectionPvtRwset[j];
                   && c.collectionName == d.collectionName
                   && c.kvRwSet.Some? && cs.kv.unmarshal(d.rwset) == Ok(c.kvRwSet.value)
    ensures forall j :: 0 <= j < |m.collectionPvtRwset| && cs.kv.unmarshal(m.collectionPvtRwset[j].rwset).Err?
                        && (forall k :: 0 <= k < j ==> cs.kv.unmarshal(m.collectionPvtRwset[k].rwset).Ok?)
                        ==> NsPvtFromMsg(cs, m) == Err(cs.kv.unmarshal(m.collectionPvtRwset[j].rwset).error)
  {
    var f, colls := c => CollPvtFromMsg(cs, c), m.collectionPvtRwset;
    TraverseElements(f, colls);
    if NsPvtFromMsg(cs, m).Ok? {
      assert forall j :: 0 <= j < |colls| ==>
                           CollPvtFromMsg(cs, colls[j]) == Ok(NsPvtFromMsg(cs, m).value.collPvtRwSets[j]);
    }
    forall j: nat | j < |colls| && cs.kv.unmarshal(colls[j].rwset).Err?
                    && forall k :: 0 <= k < j ==> cs.kv.unmarshal(colls[k].rwset).Ok?
      ensures Traverse(f, colls) == Err(cs.kv.unmarshal(colls[j].rwset).error)
    {
      assert forall k :: 0 <= k < j ==> f(colls[k]).Ok?;
      TraverseError(f, colls, j);
    }
  }

  lemma TxPvtDecodedExactly(cs: Codecs, m: TxPvtMsg)
    ensures TxPvtFromMsg(cs, m).Ok? ==>
              && |TxPvtFromMsg(cs, m).value| == |m.nsPvtRwset|
              && forall i :: 0 <= i < |m.nsPvtRwset| ==>
                   NsPvtFromMsg(cs, m.nsPvtRwset[i]) == Ok(TxPvtFromMsg(cs, m).value[i])
    ensures forall i :: 0 <= i < |m.nsPvtRwset| && NsPvtFromMsg(cs, m.nsPvtRwset[i]).Err?
                        && (forall j :: 0 <= j < i ==> NsPvtFromMsg(cs, m.nsPvtRwset[j]).Ok?)
                        ==> TxPvtFromMsg(cs, m) == Err(NsPvtFromMsg(cs, m.nsPvtRwset[i]).error)
  {
    var f := n => NsPvtFromMsg(cs, n);
    TraverseElements(f, m.nsPvtRwset);
    assert forall i :: 0 <= i < |m.nsPvtRwset| ==> f(m.nsPvtRwset[i]) == NsPvtFromMsg(cs, m.nsPvtRwset[i]);
    forall i: nat | i < |m.nsPvtRwset| && NsPvtFromMsg(cs, m.nsPvtRwset[i]).Err?
                    && forall j :: 0 <= j < i ==> NsPvtFromMsg(cs, m.nsPvtRwset[j]).Ok?
      ensures TxPvtFromMsg(cs, m) == Err(NsPvtFromMsg(cs, m.nsPvtRwset[i]).error)
    {
      TraverseError(f, m.nsPvtRwset, i);
    }
  }

  /** The bytes are those of the message; without a message, and for bytes that hold none, there is the
      error. */
  lemma BytesExactly(cs: Codecs, sets: seq<NsRwSet>, pvtSets: seq<NsPvtRwSet>, bytes: Bytes)
    ensures TxToBytes(cs, sets) ==
            match TxToMsg(cs, sets) case Err(e) => Err(e) case Ok(m) => cs.tx.marshal(Some(m))
    ensures TxPvtToBytes(cs, pvtSets) ==
            match TxPvtToMsg(cs, pvtSets) case Err(e) => Err(e) case Ok(m) => cs.txPvt.marshal(Some(m))
    ensures TxFromBytes(cs, bytes) ==
            match cs.tx.unmarshal(bytes) case Err(e) => Err(e) case Ok(m) => TxFromMsg(cs, m)
    ensures TxPvtFromBytes(cs, bytes) ==
            match cs.txPvt.unmarshal(bytes) case Err(e) => Err(e) case Ok(m) => TxPvtFromMsg(cs, m)
  {
  }

  // ----- round trips

  lemma NsRoundTrip(cs: Codecs, n: NsRwSet)
    requires Sound(cs) && NsToMsg(cs, n).Ok?
    ensures NsFromMsg(cs, NsToMsg(cs, n).value) == Ok(n)
  {
    TraverseInverse(c => CollToMsg(cs, c), m => CollFromMsg(cs, m), n.collHashedRwSets);
  }

  lemma TxRoundTrip(cs: Codecs, sets: seq<NsRwSet>)
    requires Sound(cs) && TxToMsg(cs, sets).Ok?
    ensures TxFromMsg(cs, TxToMsg(cs, sets).value) == Ok(sets)
  {
    forall i | 0 <= i < |sets| && NsToMsg(cs, sets[i]).Ok?
      ensures NsFromMsg(cs, NsToMsg(cs, sets[i]).value) == Ok(sets[i])
    {
      NsRoundTrip(cs, sets[i]);
    }
    TraverseInverse(n => NsToMsg(cs, n), m => NsFromMsg(cs, m), sets);
  }

  /** Encoding a public transaction set and decoding the bytes gives the set back. */
  lemma TxBytesRoundTrip(cs: Codecs, sets: seq<NsRwSet>)
    requires Sound(cs) && TxToBytes(cs, sets).Ok?
    ensures TxFromBytes(cs, TxToBytes(cs, sets).value) == Ok(sets)
  {
    TxRoundTrip(cs, sets);
  }

  lemma NsPvtRoundTrip(cs: Codecs, n: NsPvtRwSet)
    requires Sound(cs) && NsPvtToMsg(cs, n).Ok?
    ensures NsPvtFromMsg(cs, NsPvtToMsg(cs, n).value) == Ok(n)
  {
    TraverseInverse(c => CollPvtToMsg(cs, c), m => CollPvtFromMsg(cs, m), n.collPvtRwSets);
  }

  /** The same for private sets. */
  lemma TxPvtBytesRoundTrip(cs: Codecs, sets: seq<NsPvtRwSet>)
    requires Sound(cs) && TxPvtToBytes(cs, sets).Ok?
    ensures TxPvtFromMsg(cs, TxPvtToMsg(cs, sets).value) == Ok(sets)
    ensures TxPvtFromBytes(cs, TxPvtToBytes(cs, sets).value) == Ok(sets)
  {
    forall i | 0 <= i < |sets| && NsPvtToMsg(cs, sets[i]).Ok?
      ensures NsPvtFromMsg(cs, NsPvtToMsg(cs, sets[i]).value) == Ok(sets[i])
    {
      NsPvtRoundTrip(cs, sets[i]);
    }
    TraverseInverse(n => NsPvtToMsg(cs, n), m => NsPvtFromMsg(cs, m), sets);
  }

  // ----- the reverse direction

  ghost predicate NsCanonical(cs: Codecs, m: NsMsg) {
    && Canonical(cs.kv, m.rwset)
    && CollsCanonical(cs, m.collectionHashedRwset)
  }

  ghost predicate CollsCanonical(cs: Codecs, colls: seq<CollMsg>) {
    forall j :: 0 <= j < |colls| ==> Canonical(cs.hashed, colls[j].hashedRwset)
  }

  lemma CollReverseIff(cs: Codecs, m: CollMsg)
    requires CollFromMsg(cs, m).Ok?
    ensures CollToMsg(cs, CollFromMsg(cs, m).value) == Ok(m) <==> Canonical(cs.hashed, m.hashedRwset)
  {
  }

  lemma {:induction false} CollsReverseIff(cs: Codecs, colls: seq<CollMsg>)
    requires Traverse(c => CollFromMsg(cs, c), colls).Ok?
    ensures Traverse(c => CollToMsg(cs, c), Traverse(c => CollFromMsg(cs, c), colls).value) == Ok(colls)
            <==> CollsCanonical(cs, colls)
  {
    var f, g := c => CollFromMsg(cs, c), c => CollToMsg(cs, c);
    TraverseElements(f, colls);
    TraverseInverse(f, g, colls);
    forall j | 0 <= j < |colls|
      ensures f(colls[j]).Ok?
      ensures g(f(colls[j]).value) == Ok(colls[j]) <==> Canonical(cs.hashed, colls[j].hashedRwset)
    {
      CollReverseIff(cs, colls[j]);
    }
  }

  lemma NsReverseIff(cs: Codecs, m: NsMsg)
    requires NsFromMsg(cs, m).Ok?
    ensures NsToMsg(cs, NsFromMsg(cs, m).value) == Ok(m) <==> NsCanonical(cs, m)
  {
    CollsReverseIff(cs, m.collectionHashedRwset);
  }

  /** Decoding a message and encoding it again gives the message back, with the data model set to
      KV, exactly when every leaf is canonical. */
  lemma TxReverseIff(cs: Codecs, m: TxMsg)
    requires TxFromMsg(cs, m).Ok?
    ensures TxToMsg(cs, TxFromMsg(cs, m).value) == Ok(m.(dataModel := KV))
            <==> forall i :: 0 <= i < |m.nsRwset| ==> NsCanonical(cs, m.nsRwset[i])
  {
    var f, g := n => NsFromMsg(cs, n), n => NsToMsg(cs, n);
    TraverseElements(f, m.nsRwset);
    TraverseInverse(f, g, m.nsRwset);
    forall i | 0 <= i < |m.nsRwset|
      ensures f(m.nsRwset[i]).Ok?
      ensures g(f(m.nsRwset[i]).value) == Ok(m.nsRwset[i]) <==> NsCanonical(cs, m.nsRwset[i])
    {
      NsReverseIff(cs, m.nsRwset[i]);
    }
  }

  ghost predicate NsPvtCanonical(cs: Codecs, m: NsPvtMsg) {
    forall j :: 0 <= j < |m.collectionPvtRwset| ==> Canonical(cs.kv, m.collectionPvtRwset[j].rwset)
  }

  lemma NsPvtReverseIff(cs: Codecs, m: NsPvtMsg)
    requires NsPvtFromMsg(cs, m).Ok?
    ensures NsPvtToMsg(cs, NsPvtFromMsg(cs, m).value) == Ok(m) <==> NsPvtCanonical(cs, m)
  {
    var colls := m.collectionPvtRwset;
    TraverseElements(c => CollPvtFromMsg(cs, c), colls);
    TraverseInverse(c => CollPvtFromMsg(cs, c), c => CollPvtToMsg(cs, c), colls);
    forall j | 0 <= j < |colls|
      ensures CollPvtToMsg(cs, CollPvtFromMsg(cs, colls[j]).value) == Ok(colls[j]) <==> Canonical(cs.kv, colls[j].rwset)
    {
      assert CollPvtFromMsg(cs, colls[j]).Ok?;
    }
  }

  lemma TxPvtReverseIff(cs: Codecs, m: TxPvtMsg)
    requires TxPvtFromMsg(cs, m).Ok?
    ensures TxPvtToMsg(cs, TxPvtFromMsg(cs, m).value) == Ok(m.(dataModel := KV))
            <==> forall i :: 0 <= i < |m.nsPvtRwset| ==> NsPvtCanonical(cs, m.nsPvtRwset[i])
  {
    var f, g := n => NsPvtFromMsg(cs, n), n => NsPvtToMsg(cs, n);
    TraverseElements(f, m.nsPvtRwset);
    TraverseInverse(f, g, m.nsPvtRwset);
    forall i | 0 <= i < |m.nsPvtRwset|
      ensures f(m.nsPvtRwset[i]).Ok?
      ensures g(f(m.nsPvtRwset[i]).value) == Ok(m.nsPvtRwset[i]) <==> NsPvtCanonical(cs, m.nsPvtRwset[i])
    {
      NsPvtReverseIff(cs, m.nsPvtRwset[i]);
    }
  }
}
