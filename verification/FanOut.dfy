/** Sending a signed proposal to several processors at once: removal of duplicate targets, and the
    goroutines that append to shared lists under one mutex, over every interleaving. */
module FanOut {
  import opened Common
  import opened Fabric

  // ----- removing duplicate targets

  predicate AllPeers(targets: seq<Target>) {
    forall i :: 0 <= i < |targets| ==> targets[i].PeerTarget?
  }

  /** The first target of each URL, in order. */
  function FirstByUrl(targets: seq<Target>): (kept: seq<Target>)
    requires AllPeers(targets)
    ensures AllPeers(kept)
  {
    if targets == [] then []
    else
      var front := FirstByUrl(targets[..|targets| - 1]);
      var last := targets[|targets| - 1];
      if HasUrl(front, last.peer.url) then front else front + [last]
  }

  predicate HasUrl(targets: seq<Target>, url: string)
    requires AllPeers(targets)
  {
    exists i :: 0 <= i < |targets| && targets[i].peer.url == url
  }

  function Unique(targets: seq<Target>): seq<Target> {
    if AllPeers(targets) then FirstByUrl(targets) else targets
  }

  method GetTargetsWithoutDuplicates(targets: seq<Target>) returns (unique: seq<Target>)
    ensures unique == Unique(targets)
  {
    var peerUrlsToTargets: map<string, Target> := map[];
    unique := [];
    for i := 0 to |targets|
      invariant AllPeers(targets[..i]) && unique == FirstByUrl(targets[..i])
      invariant forall url :: url in peerUrlsToTargets <==> HasUrl(unique, url)
      invariant forall k :: 0 <= k < |unique| ==>
                  unique[k].peer.url in peerUrlsToTargets && peerUrlsToTargets[unique[k].peer.url] == unique[k]
    {
      if !targets[i].PeerTarget? {
        return targets;
      }
      var url := targets[i].peer.url;
      assert targets[..i + 1][..i] == targets[..i];
      ghost var before := unique;
      if url !in peerUrlsToTargets {
        unique := unique + [targets[i]];
        peerUrlsToTargets := peerUrlsToTargets[url := targets[i]];
        assert forall k :: 0 <= k < |before| ==> unique[k] == before[k];
        assert unique[|before|].peer.url == url;
      }
    }
    assert targets[..|targets|] == targets;
  }

  ghost predicate DistinctUrls(targets: seq<Target>)
    requires AllPeers(targets)
  {
    forall i, j :: 0 <= i < j < |targets| ==> targets[i].peer.url != targets[j].peer.url
  }

  /** Kept targets have the same URLs as the input, each once, and come from the input. */
  lemma {:induction false} FirstByUrlKeeps(targets: seq<Target>)
    requires AllPeers(targets)
    ensures DistinctUrls(FirstByUrl(targets))
    ensures forall url :: HasUrl(FirstByUrl(targets), url) <==> HasUrl(targets, url)
    ensures forall t :: t in FirstByUrl(targets) ==> t in targets
    ensures targets != [] ==> FirstByUrl(targets) != []
  {
    if targets != [] {
      var front, last := targets[..|targets| - 1], targets[|targets| - 1];
      FirstByUrlKeeps(front);
      var kept := FirstByUrl(front);
      assert forall url :: HasUrl(targets, url) <==> HasUrl(front, url) || last.peer.url == url by {
        assert forall i :: 0 <= i < |front| ==> targets[i] == front[i];
      }
      assert forall url :: HasUrl(kept + [last], url) <==> HasUrl(kept, url) || last.peer.url == url by {
        assert forall i :: 0 <= i < |kept| ==> (kept + [last])[i] == kept[i];
        assert (kept + [last])[|kept|] == last;
      }
    }
  }

  lemma {:induction false} DistinctIsKept(targets: seq<Target>)
    requires AllPeers(targets) && DistinctUrls(targets)
    ensures FirstByUrl(targets) == targets
  {
    if targets != [] {
      DistinctIsKept(targets[..|targets| - 1]);
    }
  }

  /** Removing duplicates twice is removing them once. */
  lemma UniqueIdempotent(targets: seq<Target>)
    ensures Unique(Unique(targets)) == Unique(targets)
  {
    if AllPeers(targets) {
      FirstByUrlKeeps(targets);
      DistinctIsKept(FirstByUrl(targets));
    }
  }

  predicate IsFirst(targets: seq<Target>, i: nat)
    requires AllPeers(targets) && i < |targets|
  {
    forall j :: 0 <= j < i ==> targets[j].peer.url != targets[i].peer.url
  }

  /** The positions below `n` at which a URL occurs for the first time. */
  function FirstPositions(targets: seq<Target>, n: nat): (ps: seq<nat>)
    requires AllPeers(targets) && n <= |targets|
    ensures forall k :: 0 <= k < |ps| ==> ps[k] < n
  {
    if n == 0 then []
    else
      var front := FirstPositions(targets, n - 1);
      if IsFirst(targets, n - 1) then front + [n - 1] else front
  }

  lemma {:induction false} FirstPositionsExact(targets: seq<Target>, n: nat)
    requires AllPeers(targets) && n <= |targets|
    ensures forall j, k :: 0 <= j < k < |FirstPositions(targets, n)| ==>
              FirstPositions(targets, n)[j] < FirstPositions(targets, n)[k]
    ensures forall i :: 0 <= i < n ==> (i in FirstPositions(targets, n) <==> IsFirst(targets, i))
  {
    if n > 0 {
      FirstPositionsExact(targets, n - 1);
    }
  }

  lemma FirstIffNotKeptBefore(targets: seq<Target>, i: nat)
    requires AllPeers(targets) && i < |targets|
    ensures IsFirst(targets, i) <==> !HasUrl(FirstByUrl(targets[..i]), targets[i].peer.url)
  {
    FirstByUrlKeeps(targets[..i]);
  }

  function At(targets: seq<Target>, ps: seq<nat>): seq<Target>
    requires forall k :: 0 <= k < |ps| ==> ps[k] < |targets|
  {
    seq(|ps|, k requires 0 <= k < |ps| => targets[ps[k]])
  }

  lemma {:induction false} KeptStep(targets: seq<Target>, n: nat)
    requires AllPeers(targets) && n < |targets|
    ensures FirstByUrl(targets[..n + 1]) ==
            if IsFirst(targets, n) then FirstByUrl(targets[..n]) + [targets[n]] else FirstByUrl(targets[..n])
  {
    assert targets[..n + 1][..n] == targets[..n];
    FirstIffNotKeptBefore(targets, n);
  }

  lemma {:induction false} AtStep(targets: seq<Target>, ps: seq<nat>, p: nat)
    requires p < |targets| && forall k :: 0 <= k < |ps| ==> ps[k] < |targets|
    ensures At(targets, ps + [p]) == At(targets, ps) + [targets[p]]
  {
  }

  lemma {:induction false} KeptAt(targets: seq<Target>, n: nat)
    requires AllPeers(targets) && n <= |targets|
    ensures FirstByUrl(targets[..n]) == At(targets, FirstPositions(targets, n))
  {
    if n > 0 {
      KeptAt(targets, n - 1);
      KeptStep(targets, n - 1);
      AtStep(targets, FirstPositions(targets, n - 1), n - 1);
    }
  }

  /** The kept targets are exactly those at the positions where a URL occurs for the first time, in order. */
  lemma KeptAreFirstOccurrences(targets: seq<Target>) returns (positions: seq<nat>)
    requires AllPeers(targets)
    ensures forall i: nat :: i in positions <==> i < |targets| && IsFirst(targets, i)
    ensures forall j, k :: 0 <= j < k < |positions| ==> positions[j] < positions[k]
    ensures |FirstByUrl(targets)| == |positions|
    ensures forall k :: 0 <= k < |positions| ==>
              positions[k] < |targets| && FirstByUrl(targets)[k] == targets[positions[k]]
  {
    positions := FirstPositions(targets, |targets|);
    FirstPositionsExact(targets, |targets|);
    KeptAt(targets, |targets|);
    assert targets[..|targets|] == targets;
  }

  // ----- what the fan-out returns

  type Outcome = Result<ProposalResponse>

  /** The responses and the error `SendSignedProposal` returns. */
  datatype Sent = Sent(responses: seq<ProposalResponse>, err: Option<Error>)

  function ToError(errs: seq<Error>): Option<Error> {
    if errs == [] then None else if |errs| == 1 then Some(errs[0]) else Some(Multi(errs))
  }

  /** What the i-th goroutine gets from its target. */
  type Process = (nat, Target) -> Outcome

  function Outcomes(targets: seq<Target>, process: Process): seq<Outcome> {
    seq(|targets|, i requires 0 <= i < |targets| => process(i, targets[i]))
  }

  datatype Lists = Lists(responses: seq<ProposalResponse>, errs: seq<Error>)

  function Append(lists: Lists, o: Outcome): Lists {
    match o
    case Ok(r) => lists.(responses := lists.responses + [r])
    case Err(e) => lists.(errs := lists.errs + [e])
  }

  /** The two lists when the answers arrive in the given order. */
  function Collect(os: seq<Outcome>, order: seq<nat>): Lists
    requires InRange(order, |os|)
  {
    if order == [] then Lists([], []) else Append(Collect(os, order[..|order| - 1]), os[order[|order| - 1]])
  }

  /** Every answer is recorded exactly once; answers may come in any order. */
  ghost predicate Conserved(os: seq<Outcome>, lists: Lists) {
    exists order :: Permutation(order, |os|) && lists == Collect(os, order)
  }

  ghost predicate FannedOut(targets: seq<Target>, process: Process, sent: Sent) {
    exists errs :: sent.err == ToError(errs)
                   && Conserved(Outcomes(Unique(targets), process), Lists(sent.responses, errs))
  }

  // ----- the goroutines

  /** Where a goroutine is. Appending reads the shared list and then writes it back. */
  datatype Pc = NotStarted | Started | Called | Locked | Read(snapshot: Lists) | Written | Unlocked | Done

  /** `wg` is the wait group's counter, `returned` holds once `wg.Wait` has returned, and `order`
      is a history variable: the goroutines in the order in which they wrote. */
  datatype State = State(
    pcs: seq<Pc>, lock: Option<nat>, lists: Lists, spawned: nat, wg: int, returned: bool, order: seq<nat>)

  function Init(n: nat): State {
    State(seq(n, _ => NotStarted), None, Lists([], []), 0, 0, false, [])
  }

  /** Threads 0..n-1 are the goroutines, thread n is the caller that starts them and waits. */
  predicate Enabled(os: seq<Outcome>, s: State, t: nat) {
    && |s.pcs| == |os|
    && t <= |os|
    && if t == |os| then !s.returned && (s.spawned < |os| || s.wg == 0)
       else !s.pcs[t].NotStarted? && !s.pcs[t].Done? && (s.pcs[t].Called? ==> s.lock.None?)
  }

  /** What the append writes: the list it read plus its own answer; the other list is not touched. */
  function WriteBack(lists: Lists, snapshot: Lists, o: Outcome): Lists {
    match o
    case Ok(r) => lists.(responses := snapshot.responses + [r])
    case Err(e) => lists.(errs := snapshot.errs + [e])
  }

  function Step(os: seq<Outcome>, s: State, t: nat): State
    requires Enabled(os, s, t)
  {
    if t == |os| then
      if s.spawned < |os| then s.(pcs := s.pcs[s.spawned := Started], spawned := s.spawned + 1, wg := s.wg + 1)
      else s.(returned := true)
    else
      match s.pcs[t]
      case Started => s.(pcs := s.pcs[t := Called])
      case Called => s.(pcs := s.pcs[t := Locked], lock := Some(t))
      case Locked => s.(pcs := s.pcs[t := Read(s.lists)])
      case Read(snapshot) =>
        s.(pcs := s.pcs[t := Written], lists := WriteBack(s.lists, snapshot, os[t]), order := s.order + [t])
      case Written => s.(pcs := s.pcs[t := Unlocked], lock := None)
      case Unlocked => s.(pcs := s.pcs[t := Done], wg := s.wg - 1)
  }

  predicate Wrote(pc: Pc) { pc.Written? || pc.Unlocked? || pc.Done? }

  predicate Holds(pc: Pc) { pc.Locked? || pc.Read? || pc.Written? }

  function Live(pc: Pc): nat { if pc.NotStarted? || pc.Done? then 0 else 1 }

  function StepsLeft(pc: Pc): nat {
    match pc
    case NotStarted => 7
    case Started => 6
    case Called => 5
    case Locked => 4
    case Read(_) => 3
    case Written => 2
    case Unlocked => 1
    case Done => 0
  }

  function LiveCount(pcs: seq<Pc>): nat {
    if pcs == [] then 0 else LiveCount(pcs[..|pcs| - 1]) + Live(pcs[|pcs| - 1])
  }

  function TotalSteps(pcs: seq<Pc>): nat {
    if pcs == [] then 0 else TotalSteps(pcs[..|pcs| - 1]) + StepsLeft(pcs[|pcs| - 1])
  }

  function Measure(s: State): nat {
    TotalSteps(s.pcs) + if s.returned then 0 else 1
  }

  ghost predicate Shape(os: seq<Outcome>, s: State) {
    && |s.pcs| == |os|
    && s.spawned <= |os|
    && forall i :: 0 <= i < |os| ==> (s.pcs[i].NotStarted? <==> s.spawned <= i)
  }

  ghost predicate Counting(os: seq<Outcome>, s: State) {
    && s.wg == LiveCount(s.pcs)
    && (s.returned ==> s.spawned == |os| && s.wg == 0)
  }

  ghost predicate Locking(os: seq<Outcome>, s: State)
    requires |s.pcs| == |os|
  {
    && (s.lock.Some? ==> s.lock.value < |os|)
    && (forall i :: 0 <= i < |os| ==> (Holds(s.pcs[i]) <==> s.lock == Some(i)))
    && (forall i :: 0 <= i < |os| && s.pcs[i].Read? ==> s.pcs[i].snapshot == s.lists)
  }

  ghost predicate Recording(os: seq<Outcome>, s: State)
    requires |s.pcs| == |os|
  {
    && InRange(s.order, |os|)
    && Distinct(s.order)
    && (forall i :: 0 <= i < |os| ==> (i in s.order <==> Wrote(s.pcs[i])))
    && s.lists == Collect(os, s.order)
  }

  ghost predicate Inv(os: seq<Outcome>, s: State) {
    Shape(os, s) && Counting(os, s) && Locking(os, s) && Recording(os, s)
  }

  lemma {:induction false} CountsUpdate(pcs: seq<Pc>, i: nat, pc: Pc)
    requires i < |pcs|
    ensures LiveCount(pcs[i := pc]) == LiveCount(pcs) - Live(pcs[i]) + Live(pc)
    ensures TotalSteps(pcs[i := pc]) == TotalSteps(pcs) - StepsLeft(pcs[i]) + StepsLeft(pc)
  {
    var n := |pcs| - 1;
    if i < n {
      assert pcs[i := pc][..n] == pcs[..n][i := pc];
      CountsUpdate(pcs[..n], i, pc);
    } else {
      assert pcs[i := pc][..n] == pcs[..n];
    }
  }

  lemma {:induction false} NoneLive(pcs: seq<Pc>, i: nat)
    requires LiveCount(pcs) == 0 && i < |pcs|
    ensures Live(pcs[i]) == 0
  {
    if i < |pcs| - 1 {
      NoneLive(pcs[..|pcs| - 1], i);
    }
  }

  lemma {:induction false} SomeLive(pcs: seq<Pc>) returns (t: nat)
    requires LiveCount(pcs) > 0
    ensures t < |pcs| && Live(pcs[t]) == 1
  {
    t := |pcs| - 1;
    if Live(pcs[t]) == 0 {
      t := SomeLive(pcs[..|pcs| - 1]);
    }
  }

  lemma {:induction false} FreshCounts(pcs: seq<Pc>)
    requires forall i :: 0 <= i < |pcs| ==> pcs[i].NotStarted?
    ensures LiveCount(pcs) == 0 && TotalSteps(pcs) == 7 * |pcs|
  {
    if pcs != [] {
      FreshCounts(pcs[..|pcs| - 1]);
    }
  }

  lemma InitInv(os: seq<Outcome>)
    ensures Inv(os, Init(|os|)) && Measure(Init(|os|)) == 7 * |os| + 1
  {
    FreshCounts(Init(|os|).pcs);
  }

  /** While a goroutine is still running the wait cannot have returned. */
  lemma RunningMeansWaiting(os: seq<Outcome>, s: State, t: nat)
    requires Shape(os, s) && Counting(os, s) && t < |os| && Live(s.pcs[t]) == 1
    ensures !s.returned
  {
    if s.returned {
      NoneLive(s.pcs, t);
    }
  }

  lemma {:induction false} StepCounts(os: seq<Outcome>, s: State, t: nat)
    requires Shape(os, s) && Counting(os, s) && Enabled(os, s, t)
    ensures Shape(os, Step(os, s, t)) && Counting(os, Step(os, s, t))
    ensures Measure(Step(os, s, t)) == Measure(s) - 1
  {
    if t < |os| {
      RunningMeansWaiting(os, s, t);
      CountsUpdate(s.pcs, t, Step(os, s, t).pcs[t]);
    } else if s.spawned < |os| {
      CountsUpdate(s.pcs, s.spawned, Started);
    }
  }

  lemma StepLocks(os: seq<Outcome>, s: State, t: nat)
    requires Shape(os, s) && Locking(os, s) && Enabled(os, s, t)
    ensures Locking(os, Step(os, s, t))
  {
  }

  /** The write of a goroutine that holds the lock appends exactly its own answer. */
  lemma {:induction false} WriteRecords(os: seq<Outcome>, s: State, t: nat)
    requires Shape(os, s) && Locking(os, s) && Recording(os, s) && Enabled(os, s, t)
    requires t < |os| && s.pcs[t].Read?
    ensures Recording(os, Step(os, s, t))
  {
    var s' := Step(os, s, t);
    assert t !in s.order && s'.order == s.order + [t] && s'.order[..|s.order|] == s.order;
    assert s'.lists == Append(s.lists, os[t]);
    forall i | 0 <= i < |os|
      ensures i in s'.order <==> Wrote(s'.pcs[i])
    {
      assert i in s'.order <==> i in s.order || i == t;
    }
  }

  lemma {:induction false} StepRecords(os: seq<Outcome>, s: State, t: nat)
    requires Shape(os, s) && Locking(os, s) && Recording(os, s) && Enabled(os, s, t)
    ensures Recording(os, Step(os, s, t))
  {
    if t < |os| && s.pcs[t].Read? {
      WriteRecords(os, s, t);
    } else {
      var s' := Step(os, s, t);
      forall i | 0 <= i < |os|
        ensures Wrote(s'.pcs[i]) == Wrote(s.pcs[i])
      {
      }
    }
  }

  /** Every step of every thread keeps the invariant and uses up one step. */
  lemma StepKeepsInv(os: seq<Outcome>, s: State, t: nat)
    requires Inv(os, s) && Enabled(os, s, t)
    ensures Inv(os, Step(os, s, t))
    ensures Measure(Step(os, s, t)) == Measure(s) - 1
  {
    StepCounts(os, s, t);
    StepLocks(os, s, t);
    StepRecords(os, s, t);
  }

  /** Until the caller returns, some thread can always move. */
  lemma SomeThreadCanMove(os: seq<Outcome>, s: State) returns (t: nat)
    requires Inv(os, s) && !s.returned
    ensures Enabled(os, s, t)
  {
    if Enabled(os, s, |os|) {
      return |os|;
    }
    if s.lock.Some? {
      return s.lock.value;
    }
    t := SomeLive(s.pcs);
  }

  lemma ReturnedConserves(os: seq<Outcome>, s: State)
    requires Inv(os, s) && s.returned
    ensures Conserved(os, s.lists)
  {
    forall i | 0 <= i < |os|
      ensures Wrote(s.pcs[i])
    {
      NoneLive(s.pcs, i);
    }
    assert Permutation(s.order, |os|);
  }

  // ----- every interleaving

  ghost predicate CanStep(os: seq<Outcome>, s: State, s': State) {
    exists t :: Enabled(os, s, t) && s' == Step(os, s, t)
  }

  /** Any schedule: a sequence of states, each following from the one before by a step of some thread. */
  ghost predicate IsRun(os: seq<Outcome>, run: seq<State>) {
    && run != []
    && run[0] == Init(|os|)
    && forall k :: 0 < k < |run| ==> CanStep(os, run[k - 1], run[k])
  }

  lemma MoveKeepsInv(os: seq<Outcome>, s: State, s': State)
    requires Inv(os, s) && CanStep(os, s, s')
    ensures Inv(os, s') && Measure(s') == Measure(s) - 1
  {
    var t :| Enabled(os, s, t) && s' == Step(os, s, t);
    StepKeepsInv(os, s, t);
  }

  lemma {:induction false} RunKeepsInv(os: seq<Outcome>, run: seq<State>)
    requires IsRun(os, run)
    ensures Inv(os, run[|run| - 1])
    ensures |run| + Measure(run[|run| - 1]) == 7 * |os| + 2
  {
    InitInv(os);
    if |run| > 1 {
      RunKeepsInv(os, run[..|run| - 1]);
      var s := run[|run| - 2];
      MoveKeepsInv(os, s, run[|run| - 1]);
    }
  }

  /** Over every interleaving: when the wait returns, every answer of every target has been recorded
      exactly once; the lock is never shared; no schedule is longer than a bound fixed by the number
      of targets; and as long as the wait has not returned some thread can move. */
  lemma FanOutConserves(os: seq<Outcome>, run: seq<State>)
    requires IsRun(os, run)
    ensures var s := run[|run| - 1];
            && (s.returned ==> Conserved(os, s.lists))
            && (forall i, j :: 0 <= i < |s.pcs| && 0 <= j < |s.pcs| && Holds(s.pcs[i]) && Holds(s.pcs[j]) ==> i == j)
            && (!s.returned ==> exists t :: Enabled(os, s, t))
            && |run| <= 7 * |os| + 2
  {
    RunKeepsInv(os, run);
    var s := run[|run| - 1];
    if s.returned {
      ReturnedConserves(os, s);
    } else {
      var t := SomeThreadCanMove(os, s);
    }
  }

  // ----- consequences for the caller

  lemma {:induction false} CollectLength(os: seq<Outcome>, order: seq<nat>)
    requires InRange(order, |os|)
    ensures |Collect(os, order).responses| + |Collect(os, order).errs| == |order|
  {
    if order != [] {
      CollectLength(os, order[..|order| - 1]);
    }
  }

  /** Every answer is in its list as often as it was given. */
  ghost predicate SameCounts(os: seq<Outcome>, lists: Lists) {
    && (forall r :: multiset(lists.responses)[r] == multiset(os)[Ok(r)])
    && (forall e :: multiset(lists.errs)[e] == multiset(os)[Err(e)])
  }

  lemma {:induction false} OneMoreCounted(os: seq<Outcome>, lists: Lists, o: Outcome)
    requires SameCounts(os, lists)
    ensures SameCounts(os + [o], Append(lists, o))
  {
  }

  lemma {:induction false} CollectCounts(os: seq<Outcome>, order: seq<nat>)
    requires InRange(order, |os|)
    ensures SameCounts(Arranged(os, order), Collect(os, order))
  {
    if order != [] {
      var front, last := order[..|order| - 1], order[|order| - 1];
      CollectCounts(os, front);
      assert Arranged(os, order) == Arranged(os, front) + [os[last]];
      OneMoreCounted(Arranged(os, front), Collect(os, front), os[last]);
    }
  }

  /** Each answer is in one of the lists, as often as it was given, and nothing else is. */
  lemma ConservedContent(os: seq<Outcome>, lists: Lists)
    requires Conserved(os, lists)
    ensures SameCounts(os, lists)
    ensures |lists.responses| + |lists.errs| == |os|
    ensures forall r :: r in lists.responses <==> Ok(r) in os
    ensures forall e :: e in lists.errs <==> Err(e) in os
  {
    var order :| Permutation(order, |os|) && lists == Collect(os, order);
    PermutationLength(order, |os|);
    CollectCounts(os, order);
    Rearranged(os, order);
    CollectLength(os, order);
    forall r
      ensures r in lists.responses <==> Ok(r) in os
    {
      assert r in lists.responses <==> r in multiset(lists.responses);
    }
    forall e
      ensures e in lists.errs <==> Err(e) in os
    {
      assert e in lists.errs <==> e in multiset(lists.errs);
    }
  }

  lemma OutcomeMembers(targets: seq<Target>, process: Process, o: Outcome)
    ensures o in Outcomes(targets, process) <==> exists i :: 0 <= i < |targets| && process(i, targets[i]) == o
  {
    var os := Outcomes(targets, process);
    if o in os {
      var i :| 0 <= i < |os| && os[i] == o;
      assert process(i, targets[i]) == o;
    }
    if i :| 0 <= i < |targets| && process(i, targets[i]) == o {
      assert os[i] == o;
    }
  }

  /** The responses are those of the unique targets that answered, each as often as it was given, and
      the error is made of the errors, each as often as it was given; a nil error means that every target
      answered, with one response for each. */
  lemma ResponsesAreAnswers(targets: seq<Target>, process: Process, sent: Sent)
    requires FannedOut(targets, process, sent)
    ensures sent.err.None? <==> forall i :: 0 <= i < |Unique(targets)| ==> process(i, Unique(targets)[i]).Ok?
    ensures sent.err.None? ==> |sent.responses| == |Unique(targets)|
    ensures forall r :: r in sent.responses <==>
                        exists i :: 0 <= i < |Unique(targets)| && process(i, Unique(targets)[i]) == Ok(r)
    ensures exists errs :: sent.err == ToError(errs)
                           && SameCounts(Outcomes(Unique(targets), process), Lists(sent.responses, errs))
  {
    var unique := Unique(targets);
    var os := Outcomes(unique, process);
    var errs :| sent.err == ToError(errs) && Conserved(os, Lists(sent.responses, errs));
    ConservedContent(os, Lists(sent.responses, errs));
    forall r
      ensures r in sent.responses <==> exists i :: 0 <= i < |unique| && process(i, unique[i]) == Ok(r)
    {
      OutcomeMembers(unique, process, Ok(r));
    }
    if errs != [] {
      assert errs[0] in errs;
      OutcomeMembers(unique, process, Err(errs[0]));
    }
    forall i | 0 <= i < |unique| && process(i, unique[i]).Err?
      ensures errs != []
    {
      OutcomeMembers(unique, process, process(i, unique[i]));
      assert process(i, unique[i]).error in errs;
    }
  }

  lemma {:induction false} CountTwo(os: seq<Outcome>, i: nat, j: nat)
    requires i < j < |os|
    ensures multiset{os[i], os[j]} <= multiset(os)
  {
    assert os == os[..i] + [os[i]] + os[i + 1..j] + [os[j]] + os[j + 1..];
  }

  lemma {:induction false} CountOne(os: seq<Outcome>, i: nat, e: Error)
    requires i < |os| && forall j :: 0 <= j < |os| && j != i ==> os[j].Ok?
    ensures multiset(os)[Err(e)] == if os[i] == Err(e) then 1 else 0
  {
    var front, rest := os[..i], os[i + 1..];
    assert os == front + [os[i]] + rest;
    assert Err(e) !in front && Err(e) !in rest;
  }

  /** The error of a send: that of the one target that failed, or the list of all errors, each as often as
      it was given, if two or more did. */
  lemma ErrorsAreAnswers(targets: seq<Target>, process: Process, sent: Sent)
    requires FannedOut(targets, process, sent)
    ensures (forall i :: 0 <= i < |Unique(targets)| ==> process(i, Unique(targets)[i]).Ok?) ==> sent.err == None
    ensures forall i :: 0 <= i < |Unique(targets)| && process(i, Unique(targets)[i]).Err?
                        && (forall j :: 0 <= j < |Unique(targets)| && j != i ==> process(j, Unique(targets)[j]).Ok?)
                        ==> sent.err == Some(process(i, Unique(targets)[i]).error)
    ensures forall i, j :: 0 <= i < j < |Unique(targets)|
                           && process(i, Unique(targets)[i]).Err? && process(j, Unique(targets)[j]).Err?
                           ==> && sent.err.Some? && sent.err.value.Multi?
                               && forall e :: multiset(sent.err.value.errors)[e] ==
                                              multiset(Outcomes(Unique(targets), process))[Err(e)]
  {
    ResponsesAreAnswers(targets, process, sent);
    var os := Outcomes(Unique(targets), process);
    var errs :| sent.err == ToError(errs) && SameCounts(os, Lists(sent.responses, errs));
    assert forall i :: 0 <= i < |os| ==> os[i] == process(i, Unique(targets)[i]);
    forall i: nat | i < |os| && os[i].Err? && forall j :: 0 <= j < |os| && j != i ==> os[j].Ok?
      ensures sent.err == Some(os[i].error)
    {
      OneError(os, errs, Lists(sent.responses, errs), i);
    }
    forall i: nat, j: nat | i < j < |os| && os[i].Err? && os[j].Err?
      ensures |errs| >= 2
    {
      TwoErrors(os, errs, Lists(sent.responses, errs), i, j);
    }
  }

  lemma {:induction false} OneError(os: seq<Outcome>, errs: seq<Error>, lists: Lists, i: nat)
    requires SameCounts(os, lists) && lists.errs == errs
    requires i < |os| && os[i].Err? && forall j :: 0 <= j < |os| && j != i ==> os[j].Ok?
    ensures errs == [os[i].error]
  {
    forall e
      ensures multiset(errs)[e] == multiset{os[i].error}[e]
    {
      CountOne(os, i, e);
    }
    assert multiset(errs) == multiset{os[i].error};
    assert |errs| == |multiset(errs)|;
    assert errs[0] in multiset(errs);
  }

  lemma {:induction false} TwoErrors(os: seq<Outcome>, errs: seq<Error>, lists: Lists, i: nat, j: nat)
    requires SameCounts(os, lists) && lists.errs == errs
    requires i < j < |os| && os[i].Err? && os[j].Err?
    ensures |errs| >= 2
  {
    CountTwo(os, i, j);
    assert multiset{os[i], os[j]}[os[i]] <= multiset(os)[os[i]];
    assert multiset{os[i], os[j]}[os[j]] <= multiset(os)[os[j]];
    assert multiset{os[i].error, os[j].error} <= multiset(errs);
    assert |multiset(errs)| == |errs|;
  }

  /** If some target is no peer, nothing is removed: every target is sent the proposal, at its own
      position, and one answer of each is in the result. */
  lemma AllAskedWithoutPeers(targets: seq<Target>, process: Process, sent: Sent)
    requires FannedOut(targets, process, sent) && exists t :: t in targets && !t.PeerTarget?
    ensures Unique(targets) == targets
    ensures sent.err.None? <==> forall i :: 0 <= i < |targets| ==> process(i, targets[i]).Ok?
    ensures forall r :: multiset(sent.responses)[r] ==
                        multiset(seq(|targets|, i requires 0 <= i < |targets| => process(i, targets[i])))[Ok(r)]
  {
    ResponsesAreAnswers(targets, process, sent);
    assert Outcomes(targets, process) == seq(|targets|, i requires 0 <= i < |targets| => process(i, targets[i]));
  }

  /** Sends the proposal to every unique target. The loop lets any enabled thread move next. */
  method SendSignedProposal(hasProposal: bool, targets: seq<Target>, process: Process) returns (sent: Sent)
    ensures !hasProposal ==> sent == Sent([], Some(Plain("proposal is required")))
    ensures hasProposal && targets == [] ==> sent == Sent([], Some(Plain("targets is required")))
    ensures hasProposal && NilTarget in targets ==> sent == Sent([], Some(Plain("target is nil")))
    ensures hasProposal && targets != [] && NilTarget !in targets ==> FannedOut(targets, process, sent)
  {
    if !hasProposal {
      return Sent([], Some(Plain("proposal is required")));
    }
    if |targets| < 1 {
      return Sent([], Some(Plain("targets is required")));
    }
    for i := 0 to |targets|
      invariant NilTarget !in targets[..i]
    {
      if targets[i].NilTarget? {
        return Sent([], Some(Plain("target is nil")));
      }
    }
    assert targets[..|targets|] == targets;
    var unique := GetTargetsWithoutDuplicates(targets);
    var os := Outcomes(unique, process);
    var s := Init(|os|);
    InitInv(os);
    while !s.returned
      invariant Inv(os, s)
      decreases Measure(s)
    {
      ghost var some := SomeThreadCanMove(os, s);
      var t: nat :| t <= |os| && Enabled(os, s, t);
      StepKeepsInv(os, s, t);
      s := Step(os, s, t);
    }
    ReturnedConserves(os, s);
    return Sent(s.lists.responses, ToError(s.lists.errs));
  }
}
