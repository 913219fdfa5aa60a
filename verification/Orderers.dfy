/** Resolving a channel's orderers, and broadcasting an envelope to them one by one in random order. */
module Orderers {
  import opened Common

  datatype OrdererConfig = OrdererConfig(url: string, options: seq<string>)
  datatype Orderer = Orderer(url: string)

  /** The endpoint configuration's answer for a name: a config, if found, and whether to ignore the orderer. */
  datatype Lookup = Lookup(config: OrdererConfig, found: bool, ignore: bool)

  datatype Endpoint = Endpoint(
    channelOrderers: string -> seq<string>,
    lookup: string -> Lookup,
    orderersConfig: seq<OrdererConfig>,
    toAddress: string -> string,
    toLower: string -> string,
    create: OrdererConfig -> Result<Orderer>)

  // ----- specification of the resolution

  function Create(ep: Endpoint, c: OrdererConfig): Result<Orderer> {
    match ep.create(c)
    case Err(e) => Err(Wrapped("failed to create orderer from config", e))
    case Ok(o) => Ok(o)
  }

  /** The defined results of `f`, in order. */
  function FilterMap(f: string -> Option<OrdererConfig>, names: seq<string>): seq<OrdererConfig> {
    if names == [] then []
    else
      var front := FilterMap(f, names[..|names| - 1]);
      match f(names[|names| - 1])
      case None => front
      case Some(c) => front + [c]
  }

  function FromChannel(ep: Endpoint, name: string): Option<OrdererConfig> {
    var l := ep.lookup(name);
    if !l.found || l.ignore then None else Some(l.config)
  }

  /** The entry of the address table: the last config with this address. */
  function TableEntry(ep: Endpoint, configs: seq<OrdererConfig>, address: string): Option<OrdererConfig> {
    if configs == [] then None
    else if ep.toAddress(configs[|configs| - 1].url) == address then Some(configs[|configs| - 1])
    else TableEntry(ep, configs[..|configs| - 1], address)
  }

  /** The config a channel target stands for; none if the target is to be skipped. */
  function FromTarget(ep: Endpoint, target: string): Option<OrdererConfig> {
    match TableEntry(ep, ep.orderersConfig, target)
    case Some(c) => Some(c)
    case None =>
      var l := ep.lookup(ep.toLower(target));
      if l.ignore then None
      else if l.found then Some(l.config)
      else Some(OrdererConfig(target, []))
  }

  function ChannelOrderers(ep: Endpoint, channelID: string): Result<seq<Orderer>> {
    Traverse(c => Create(ep, c), FilterMap(n => FromChannel(ep, n), ep.channelOrderers(channelID)))
  }

  function FallbackOrderers(ep: Endpoint, targets: seq<string>): Result<seq<Orderer>> {
    Traverse(c => Create(ep, c), FilterMap(t => FromTarget(ep, t), targets))
  }

  function Resolved(ep: Endpoint, channelID: string, targets: seq<string>): Result<seq<Orderer>> {
    var own := ChannelOrderers(ep, channelID);
    if own.Err? || own.value != [] then own else FallbackOrderers(ep, targets)
  }

  // ----- the resolution, as loops

  method OrderersFromChannel(ep: Endpoint, channelID: string) returns (r: Result<seq<Orderer>>)
    ensures r == ChannelOrderers(ep, channelID)
  {
    var names := ep.channelOrderers(channelID);
    ghost var f, g := n => FromChannel(ep, n), c => Create(ep, c);
    var orderers: seq<Orderer> := [];
    for i := 0 to |names|
      invariant Traverse(g, FilterMap(f, names[..i])) == Ok(orderers)
    {
      assert names[..i + 1][..i] == names[..i];
      FilterMapPrefix(f, names, i + 1);
      var l := ep.lookup(names[i]);
      if !l.found || l.ignore {
        continue;
      }
      CreatedOneMore(g, FilterMap(f, names[..i]), l.config, FilterMap(f, names));
      var o :- Create(ep, l.config);
      orderers := orderers + [o];
    }
    assert names[..|names|] == names;
    return Ok(orderers);
  }

  method OrderersByTarget(ep: Endpoint) returns (table: map<string, OrdererConfig>)
    ensures forall a :: a in table <==> TableEntry(ep, ep.orderersConfig, a).Some?
    ensures forall a :: a in table ==> TableEntry(ep, ep.orderersConfig, a) == Some(table[a])
  {
    var configs := ep.orderersConfig;
    table := map[];
    for i := 0 to |configs|
      invariant forall a :: a in table <==> TableEntry(ep, configs[..i], a).Some?
      invariant forall a :: a in table ==> TableEntry(ep, configs[..i], a) == Some(table[a])
    {
      assert configs[..i + 1][..i] == configs[..i];
      table := table[ep.toAddress(configs[i].url) := configs[i]];
    }
    assert configs[..|configs|] == configs;
  }

  method OrderersFromChannelCfg(ep: Endpoint, channelID: string, targets: seq<string>) returns (r: Result<seq<Orderer>>)
    ensures r == Resolved(ep, channelID, targets)
  {
    r := OrderersFromChannel(ep, channelID);
    if r.Err? || |r.value| > 0 {
      return;
    }
    var table := OrderersByTarget(ep);
    ghost var f, g := t => FromTarget(ep, t), c => Create(ep, c);
    var orderers: seq<Orderer> := [];
    for i := 0 to |targets|
      invariant Traverse(g, FilterMap(f, targets[..i])) == Ok(orderers)
    {
      assert targets[..i + 1][..i] == targets[..i];
      FilterMapPrefix(f, targets, i + 1);
      var target, config, ok := targets[i], OrdererConfig("", []), targets[i] in table;
      if ok {
        config := table[target];
      } else {
        var l := ep.lookup(ep.toLower(target));
        if l.ignore {
          continue;
        }
        if l.found {
          config, ok := l.config, true;
        }
      }
      if !ok {
        config := OrdererConfig(target, []);
      }
      CreatedOneMore(g, FilterMap(f, targets[..i]), config, FilterMap(f, targets));
      var o :- Create(ep, config);
      orderers := orderers + [o];
    }
    assert targets[..|targets|] == targets;
    return Ok(orderers);
  }

  lemma {:induction false} FilterMapPrefix(f: string -> Option<OrdererConfig>, names: seq<string>, n: nat)
    requires n <= |names|
    ensures FilterMap(f, names[..n]) <= FilterMap(f, names)
  {
    if n < |names| {
      var front := names[..|names| - 1];
      assert front[..n] == names[..n];
      FilterMapPrefix(f, front, n);
    } else {
      assert names[..n] == names;
    }
  }

  lemma CreatedOneMore(
      g: OrdererConfig -> Result<Orderer>, done: seq<OrdererConfig>, c: OrdererConfig, all: seq<OrdererConfig>)
    requires Traverse(g, done).Ok? && done + [c] <= all
    ensures g(c).Ok? ==> Traverse(g, done + [c]) == Ok(Traverse(g, done).value + [g(c).value])
    ensures g(c).Err? ==> Traverse(g, all) == Err(g(c).error)
  {
    assert all[..|done|] == done && all[..|done| + 1] == done + [c];
    TraverseStep(g, all, |done|);
  }

  // ----- what the resolution means

  lemma FilterMapStep(f: string -> Option<OrdererConfig>, front: seq<string>, last: string)
    ensures FilterMap(f, front + [last]) ==
            if f(last).Some? then FilterMap(f, front) + [f(last).value] else FilterMap(f, front)
  {
    assert (front + [last])[..|front|] == front;
  }

  /** `configs` are what `f` makes of each of the `kept` names. */
  ghost predicate MadeOf(f: string -> Option<OrdererConfig>, kept: seq<string>, configs: seq<OrdererConfig>) {
    |configs| == |kept| && forall k :: 0 <= k < |kept| ==> f(kept[k]) == Some(configs[k])
  }

  lemma {:induction false} MadeOfStep(
      f: string -> Option<OrdererConfig>, kept: seq<string>, configs: seq<OrdererConfig>, name: string)
    requires MadeOf(f, kept, configs) && f(name).Some?
    ensures MadeOf(f, kept + [name], configs + [f(name).value])
  {
  }

  /** The names that `f` keeps, in order, and what it makes of them. */
  lemma {:induction false} FilterMapPicked(f: string -> Option<OrdererConfig>, names: seq<string>, p: nat -> bool)
    returns (kept: seq<string>)
    requires forall i: nat :: i < |names| ==> (p(i) <==> f(names[i]).Some?)
    ensures Picks(names, p, kept) && MadeOf(f, kept, FilterMap(f, names))
  {
    if names == [] {
      kept := [];
    } else {
      var front, last := names[..|names| - 1], names[|names| - 1];
      assert names == front + [last];
      var before := FilterMapPicked(f, front, p);
      PicksStep(front, p, before, last);
      FilterMapStep(f, front, last);
      if p(|front|) {
        MadeOfStep(f, before, FilterMap(f, front), last);
        kept := before + [last];
      } else {
        kept := before;
      }
    }
  }

  /** A name of the channel's own list that is to be used. */
  predicate Usable(ep: Endpoint, name: string) {
    ep.lookup(name).found && !ep.lookup(name).ignore
  }

  /** The channel's own orderers, if there is no error: one for each listed name that is found and not to be
      ignored, in the order of the list, created from the config found for the name. */
  lemma ChannelOrderersExactly(ep: Endpoint, channelID: string) returns (kept: seq<string>)
    requires ChannelOrderers(ep, channelID).Ok?
    ensures var names := ep.channelOrderers(channelID);
            Picks(names, (i: nat) => i < |names| && ep.lookup(names[i]).found && !ep.lookup(names[i]).ignore, kept)
    ensures |ChannelOrderers(ep, channelID).value| == |kept|
    ensures forall k :: 0 <= k < |kept| ==>
              ep.create(ep.lookup(kept[k]).config) == Ok(ChannelOrderers(ep, channelID).value[k])
  {
    var names := ep.channelOrderers(channelID);
    var f, g := n => FromChannel(ep, n), c => Create(ep, c);
    kept := FilterMapPicked(
      f, names, (i: nat) => i < |names| && ep.lookup(names[i]).found && !ep.lookup(names[i]).ignore);
    TraverseElements(g, FilterMap(f, names));
    forall k | 0 <= k < |kept|
      ensures ep.create(ep.lookup(kept[k]).config) == Ok(ChannelOrderers(ep, channelID).value[k])
    {
      assert f(kept[k]) == Some(FilterMap(f, names)[k]);
      assert g(FilterMap(f, names)[k]) == Ok(ChannelOrderers(ep, channelID).value[k]);
    }
  }

  /** An orderer is in the result exactly if some listed name is found, not to be ignored, and creates it. */
  lemma ChannelOrderersMembers(ep: Endpoint, channelID: string, o: Orderer)
    requires ChannelOrderers(ep, channelID).Ok?
    ensures o in ChannelOrderers(ep, channelID).value <==>
            exists name :: name in ep.channelOrderers(channelID) && ep.lookup(name).found && !ep.lookup(name).ignore
                           && ep.create(ep.lookup(name).config) == Ok(o)
  {
    var names := ep.channelOrderers(channelID);
    var kept := ChannelOrderersExactly(ep, channelID);
    var p := (i: nat) => i < |names| && ep.lookup(names[i]).found && !ep.lookup(names[i]).ignore;
    var orderers := ChannelOrderers(ep, channelID).value;
    if o in orderers {
      var k :| 0 <= k < |orderers| && orderers[k] == o;
      PickedMembers(names, p, kept, kept[k]);
    }
    if name :| name in names && ep.lookup(name).found && !ep.lookup(name).ignore
               && ep.create(ep.lookup(name).config) == Ok(o) {
      var i :| 0 <= i < |names| && names[i] == name;
      assert p(i);
      PickedMembers(names, p, kept, name);
      var k :| 0 <= k < |kept| && kept[k] == name;
      assert orderers[k] == o;
    }
  }

  /** There is an error exactly if the orderer of some listed name that is found and not to be ignored
      cannot be created; it is the first such name's. */
  lemma ChannelOrderersFail(ep: Endpoint, channelID: string)
    ensures ChannelOrderers(ep, channelID).Err? <==>
            exists name :: name in ep.channelOrderers(channelID) && ep.lookup(name).found && !ep.lookup(name).ignore
                           && ep.create(ep.lookup(name).config).Err?
    ensures forall i :: 0 <= i < |ep.channelOrderers(channelID)| ==>
              var names := ep.channelOrderers(channelID);
              Fails(ep, names[i]) && (forall j :: 0 <= j < i ==> !Fails(ep, names[j])) ==>
                ChannelOrderers(ep, channelID) ==
                Err(Wrapped("failed to create orderer from config", ep.create(ep.lookup(names[i]).config).error))
  {
    var names := ep.channelOrderers(channelID);
    var f, g := n => FromChannel(ep, n), c => Create(ep, c);
    TraverseElements(g, FilterMap(f, names));
    forall name
      ensures name in names && Usable(ep, name) ==> ep.lookup(name).config in FilterMap(f, names)
    {
      if name in names && Usable(ep, name) {
        FilterMapMembers(f, names, ep.lookup(name).config);
      }
    }
    if ChannelOrderers(ep, channelID).Err? {
      var i :| 0 <= i < |FilterMap(f, names)| && g(FilterMap(f, names)[i]).Err?;
      FilterMapMembers(f, names, FilterMap(f, names)[i]);
    }
    forall i: nat | i < |names| && Fails(ep, names[i]) && forall j :: 0 <= j < i ==> !Fails(ep, names[j])
      ensures ChannelOrderers(ep, channelID) ==
              Err(Wrapped("failed to create orderer from config", ep.create(ep.lookup(names[i]).config).error))
    {
      FirstFailure(f, g, names, i);
    }
  }

  predicate Fails(ep: Endpoint, name: string) {
    ep.lookup(name).found && !ep.lookup(name).ignore && ep.create(ep.lookup(name).config).Err?
  }

  /** The first name whose orderer cannot be created decides the error. */
  lemma {:induction false} FirstFailure(
      f: string -> Option<OrdererConfig>, g: OrdererConfig -> Result<Orderer>, names: seq<string>, i: nat)
    requires i < |names| && f(names[i]).Some? && g(f(names[i]).value).Err?
    requires forall j :: 0 <= j < i && f(names[j]).Some? ==> g(f(names[j]).value).Ok?
    ensures Traverse(g, FilterMap(f, names)) == Err(g(f(names[i]).value).error)
  {
    var before, all := FilterMap(f, names[..i]), FilterMap(f, names);
    assert names[..i + 1][..i] == names[..i];
    FilterMapPrefix(f, names, i + 1);
    assert FilterMap(f, names[..i + 1]) == before + [f(names[i]).value];
    forall k | 0 <= k < |before|
      ensures g(before[k]).Ok?
    {
      FilterMapMembers(f, names[..i], before[k]);
    }
    assert all[|before|] == f(names[i]).value && all[..|before|] == before;
    assert forall k :: 0 <= k < |before| ==> all[k] == before[k];
    TraverseError(g, all, |before|);
  }

  /** The channel's own orderers, or their error, are returned whatever the targets are; the targets count
      exactly if there are none. */
  lemma OwnOrderersFirst(ep: Endpoint, channelID: string, targets: seq<string>)
    ensures Resolved(ep, channelID, targets) ==
            if ChannelOrderers(ep, channelID) == Ok([]) then FallbackOrderers(ep, targets)
            else ChannelOrderers(ep, channelID)
  {
  }

  /** The fallback, if there is no error: one orderer for each target that is not skipped, in order, created
      from the config that the target stands for. */
  lemma FallbackExactly(ep: Endpoint, targets: seq<string>) returns (kept: seq<string>)
    requires FallbackOrderers(ep, targets).Ok?
    ensures Picks(targets, (i: nat) => i < |targets| && FromTarget(ep, targets[i]).Some?, kept)
    ensures |FallbackOrderers(ep, targets).value| == |kept|
    ensures forall k :: 0 <= k < |kept| ==>
              && FromTarget(ep, kept[k]).Some?
              && ep.create(FromTarget(ep, kept[k]).value) == Ok(FallbackOrderers(ep, targets).value[k])
  {
    var f, g := t => FromTarget(ep, t), c => Create(ep, c);
    kept := FilterMapPicked(f, targets, (i: nat) => i < |targets| && FromTarget(ep, targets[i]).Some?);
    var configs := FilterMap(f, targets);
    TraverseElements(g, configs);
    forall k | 0 <= k < |kept|
      ensures FromTarget(ep, kept[k]) == Some(configs[k])
      ensures ep.create(configs[k]) == Ok(FallbackOrderers(ep, targets).value[k])
    {
      assert f(kept[k]) == Some(configs[k]) && g(configs[k]) == Ok(FallbackOrderers(ep, targets).value[k]);
    }
  }

  /** The fallback fails exactly if the orderer of some target that is not skipped cannot be created; the
      error is the first such target's. */
  lemma FallbackFails(ep: Endpoint, targets: seq<string>)
    ensures FallbackOrderers(ep, targets).Err? <==> exists t :: t in targets && TargetFails(ep, t)
    ensures forall i :: 0 <= i < |targets| && TargetFails(ep, targets[i])
                        && (forall j :: 0 <= j < i ==> !TargetFails(ep, targets[j])) ==>
              FallbackOrderers(ep, targets) ==
              Err(Wrapped("failed to create orderer from config", ep.create(FromTarget(ep, targets[i]).value).error))
  {
    var f, g := t => FromTarget(ep, t), c => Create(ep, c);
    var configs := FilterMap(f, targets);
    TraverseElements(g, configs);
    if FallbackOrderers(ep, targets).Err? {
      var i :| 0 <= i < |configs| && g(configs[i]).Err?;
      FilterMapMembers(f, targets, configs[i]);
    }
    if t :| t in targets && TargetFails(ep, t) {
      FilterMapMembers(f, targets, FromTarget(ep, t).value);
    }
    forall i: nat | i < |targets| && TargetFails(ep, targets[i]) &&
                    forall j :: 0 <= j < i ==> !TargetFails(ep, targets[j])
      ensures FallbackOrderers(ep, targets) ==
              Err(Wrapped("failed to create orderer from config", ep.create(FromTarget(ep, targets[i]).value).error))
    {
      FirstFailure(f, g, targets, i);
    }
  }

  predicate TargetFails(ep: Endpoint, target: string) {
    FromTarget(ep, target).Some? && ep.create(FromTarget(ep, target).value).Err?
  }

  /** Precedence for one target: the last config whose address it is, even if the configuration says to
      ignore the target; otherwise nothing if it is ignored; otherwise the matching config; otherwise
      the bare target. */
  lemma {:induction false} TargetPrecedence(ep: Endpoint, target: string, i: nat)
    ensures i < |ep.orderersConfig| && ep.toAddress(ep.orderersConfig[i].url) == target
            && (forall j :: i < j < |ep.orderersConfig| ==> ep.toAddress(ep.orderersConfig[j].url) != target)
            ==> FromTarget(ep, target) == Some(ep.orderersConfig[i])
    ensures (forall j :: 0 <= j < |ep.orderersConfig| ==> ep.toAddress(ep.orderersConfig[j].url) != target)
            ==> FromTarget(ep, target) ==
                (var l := ep.lookup(ep.toLower(target));
                 if l.ignore then None else if l.found then Some(l.config) else Some(OrdererConfig(target, [])))
  {
    LastWins(ep, ep.orderersConfig, target, i);
    if forall j :: 0 <= j < |ep.orderersConfig| ==> ep.toAddress(ep.orderersConfig[j].url) != target {
      NoEntry(ep, ep.orderersConfig, target);
    }
  }

  lemma {:induction false} LastWins(ep: Endpoint, configs: seq<OrdererConfig>, address: string, i: nat)
    ensures i < |configs| && ep.toAddress(configs[i].url) == address
            && (forall j :: i < j < |configs| ==> ep.toAddress(configs[j].url) != address)
            ==> TableEntry(ep, configs, address) == Some(configs[i])
  {
    if i < |configs| - 1 {
      LastWins(ep, configs[..|configs| - 1], address, i);
    }
  }

  lemma {:induction false} NoEntry(ep: Endpoint, configs: seq<OrdererConfig>, address: string)
    requires forall j :: 0 <= j < |configs| ==> ep.toAddress(configs[j].url) != address
    ensures TableEntry(ep, configs, address) == None
  {
    if configs != [] {
      NoEntry(ep, configs[..|configs| - 1], address);
    }
  }

  // ----- failover

  /** The answer of an orderer: an error, or none if it took the envelope. */
  type Sender = Orderer -> Option<Error>

  function Refused(o: Orderer, e: Error): Error {
    Wrapped("calling orderer '" + o.url + "' failed", e)
  }

  function SendBroadcast(o: Orderer, send: Sender): Result<string> {
    match send(o)
    case Some(e) => Err(Refused(o, e))
    case None => Ok(o.url)
  }

  predicate AllRefuse(orderers: seq<Orderer>, order: seq<nat>, send: Sender, n: nat)
    requires InRange(order, |orderers|) && n <= |order|
  {
    forall k :: 0 <= k < n ==> send(orderers[order[k]]).Some?
  }

  /** Broadcasts to the orderers in the drawn order until one takes the envelope. `tried` are the
      positions of the orderers that were sent it. */
  method BroadcastEnvelope(orderers: seq<Orderer>, hasClientContext: bool, order: seq<nat>, send: Sender)
    returns (resp: Option<string>, err: Option<Error>, tried: seq<nat>)
    requires Permutation(order, |orderers|)
    ensures resp.Some? <==> err.None?
    ensures err.None? <==> hasClientContext && exists o :: o in orderers && send(o).None?
    ensures tried <= order
    ensures orderers == [] ==> err == Some(Plain("orderers not set")) && tried == []
    ensures orderers != [] && !hasClientContext ==>
              err == Some(Plain("failed get client context from reqContext for SendTransaction")) && tried == []
    ensures orderers != [] && hasClientContext ==>
              && tried != []
              && AllRefuse(orderers, order, send, |tried| - 1)
              && var last := orderers[order[|tried| - 1]];
                 && (resp.Some? ==> send(last).None? && resp == Some(last.url))
                 && (resp.None? ==>
                       && tried == order && send(last).Some?
                       && err == Some(Wrapped("calling orderer '" + last.url + "' failed", send(last).value)))
  {
    resp, err, tried := None, None, [];
    if |orderers| == 0 {
      err := Some(Plain("orderers not set"));
      return;
    }
    if !hasClientContext {
      err := Some(Plain("failed get client context from reqContext for SendTransaction"));
      return;
    }
    PermutationLength(order, |orderers|);
    for k := 0 to |order|
      invariant tried == order[..k] && resp.None?
      invariant AllRefuse(orderers, order, send, k)
      invariant if k == 0 then err.None?
                else err.Some? && SendBroadcast(orderers[order[k - 1]], send) == Err(err.value)
    {
      tried := tried + [order[k]];
      var r := SendBroadcast(orderers[order[k]], send);
      if r.Ok? {
        resp, err := Some(r.value), None;
        assert orderers[order[k]] in orderers;
        return;
      }
      err := Some(r.error);
    }
    AllRefused(orderers, order, send);
  }

  lemma AllRefused(orderers: seq<Orderer>, order: seq<nat>, send: Sender)
    requires Permutation(order, |orderers|) && AllRefuse(orderers, order, send, |order|)
    ensures forall o :: o in orderers ==> send(o).Some?
  {
    forall o | o in orderers
      ensures send(o).Some?
    {
      var i :| 0 <= i < |orderers| && orderers[i] == o;
      assert i in order;
      var k :| 0 <= k < |order| && order[k] == i;
    }
  }

  lemma {:induction false} ArrangedDistinct<T>(xs: seq<T>, order: seq<nat>)
    requires InRange(order, |xs|) && Distinct(order) && Distinct(xs)
    ensures Distinct(Arranged(xs, order))
  {
  }

  /** No list position is tried twice, because the positions tried are a prefix of a permutation: an
      orderer is sent the envelope at most as often as it is in the list. */
  lemma {:induction false} NoOrdererTwice(orderers: seq<Orderer>, order: seq<nat>, tried: seq<nat>)
    requires Permutation(order, |orderers|) && tried <= order
    ensures Distinct(tried) && InRange(tried, |orderers|) && |tried| <= |orderers|
    ensures multiset(Arranged(orderers, tried)) <= multiset(orderers)
    ensures Distinct(orderers) ==> Distinct(Arranged(orderers, tried))
  {
    PermutationLength(order, |orderers|);
    assert forall i :: 0 <= i < |tried| ==> tried[i] == order[i];
    var rest := order[|tried|..];
    assert order == tried + rest;
    assert Arranged(orderers, order) == Arranged(orderers, tried) + Arranged(orderers, rest);
    Rearranged(orderers, order);
    if Distinct(orderers) {
      ArrangedDistinct(orderers, tried);
    }
  }

  /** Whether the broadcast succeeds does not depend on the order drawn: some orderer takes the
      envelope exactly when a prefix ending in an acceptance exists in every permutation. */
  lemma SuccessIndependentOfOrder(orderers: seq<Orderer>, order: seq<nat>, send: Sender)
    requires Permutation(order, |orderers|)
    ensures (exists k :: 0 <= k < |order| && AllRefuse(orderers, order, send, k) && send(orderers[order[k]]).None?)
            <==> exists o :: o in orderers && send(o).None?
  {
    if o :| o in orderers && send(o).None? {
      var i :| 0 <= i < |orderers| && orderers[i] == o;
      assert i in order;
      var k :| 0 <= k < |order| && order[k] == i;
      FirstAcceptance(orderers, order, send, k);
    }
  }

  lemma {:induction false} FirstAcceptance(orderers: seq<Orderer>, order: seq<nat>, send: Sender, k: nat)
    requires InRange(order, |orderers|) && k < |order| && send(orderers[order[k]]).None?
    ensures exists j :: 0 <= j < |order| && AllRefuse(orderers, order, send, j) && send(orderers[order[j]]).None?
  {
    if !AllRefuse(orderers, order, send, k) {
      var j :| 0 <= j < k && send(orderers[order[j]]).None?;
      FirstAcceptance(orderers, order, send, j);
    }
  }

  lemma {:induction false} FilterMapMembers(f: string -> Option<OrdererConfig>, names: seq<string>, c: OrdererConfig)
    ensures c in FilterMap(f, names) <==> exists n :: n in names && f(n) == Some(c)
  {
    if names != [] {
      FilterMapMembers(f, names[..|names| - 1], c);
      assert names == names[..|names| - 1] + [names[|names| - 1]];
    }
  }

  /** The orderer a channel target ends up as, if it is not skipped and can be created. */
  function OrdererOf(ep: Endpoint, target: string): Option<Orderer> {
    match FromTarget(ep, target)
    case None => None
    case Some(c) => match Create(ep, c) case Err(_) => None case Ok(o) => Some(o)
  }

  lemma ResolvedMembers(ep: Endpoint, targets: seq<string>, o: Orderer)
    requires FallbackOrderers(ep, targets).Ok?
    ensures o in FallbackOrderers(ep, targets).value <==> exists t :: t in targets && OrdererOf(ep, t) == Some(o)
  {
    var f, g := t => FromTarget(ep, t), c => Create(ep, c);
    var configs, orderers := FilterMap(f, targets), FallbackOrderers(ep, targets).value;
    TraverseElements(g, configs);
    if o in orderers {
      var i :| 0 <= i < |orderers| && orderers[i] == o;
      assert Create(ep, configs[i]) == Ok(o);
      FilterMapMembers(f, targets, configs[i]);
    }
    if t :| t in targets && OrdererOf(ep, t) == Some(o) {
      var c := FromTarget(ep, t).value;
      FilterMapMembers(f, targets, c);
      var i :| 0 <= i < |configs| && configs[i] == c;
      assert g(configs[i]) == Ok(orderers[i]);
    }
  }

  /** Resolution and failover together: for a channel without orderers of its own, and whatever order
      is drawn, a broadcast finds an orderer that takes the envelope exactly when the orderer of some
      channel target that is not skipped takes it. */
  lemma BroadcastOverResolved(ep: Endpoint, channelID: string, targets: seq<string>, order: seq<nat>, send: Sender)
    requires ChannelOrderers(ep, channelID) == Ok([]) && Resolved(ep, channelID, targets).Ok?
    requires Permutation(order, |Resolved(ep, channelID, targets).value|)
    ensures var orderers := Resolved(ep, channelID, targets).value;
            (exists k :: 0 <= k < |order| && AllRefuse(orderers, order, send, k) && send(orderers[order[k]]).None?)
            <==> exists t :: t in targets && OrdererOf(ep, t).Some? && send(OrdererOf(ep, t).value).None?
  {
    var orderers := Resolved(ep, channelID, targets).value;
    SuccessIndependentOfOrder(orderers, order, send);
    if o :| o in orderers && send(o).None? {
      ResolvedMembers(ep, targets, o);
    }
    if t :| t in targets && OrdererOf(ep, t).Some? && send(OrdererOf(ep, t).value).None? {
      ResolvedMembers(ep, targets, OrdererOf(ep, t).value);
    }
  }
}
