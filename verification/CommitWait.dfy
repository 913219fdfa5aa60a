/** Broadcasting an envelope and waiting for its commit: the client, the orderers it tries, and the
    event service that reports the status of transactions, over all their runs. */
module CommitWait {
  import opened Common
  import opened Fabric

  /** What `BroadcastEnvelope` returns. Only `Valid` is a nil error. */
  datatype Verdict = Valid | Invalid(code: Code) | TimedOut | Failed(error: Error)

  /** Where the client is. `left` orderers remain to be tried; a verdict is decided before the
      deferred unregistration, and returned after it. */
  datatype Client =
    | Ready
    | Registered
    | Broadcasting(left: nat)
    | Waiting
    | Leaving(verdict: Verdict)
    | Returned(verdict: Verdict)

  /** A status event as it was published. `caused` says that it follows from this client's broadcast,
      `heard` that it was put on the client's notifier, `late` that the client had already left. */
  datatype Event = Event(txID: string, code: Code, caused: bool, heard: bool, late: bool)

  /** `submitted`: some orderer has taken the envelope from this client. `registrations` and
      `unregistrations` count the calls that were made. */
  datatype State = State(
    client: Client,
    submitted: bool,
    events: seq<Event>,
    notifier: seq<Code>,
    registrations: nat,
    unregistrations: nat,
    timedOut: bool)

  const INIT := State(Ready, false, [], [], 0, 0, false)

  predicate Listening(s: State) {
    s.unregistrations < s.registrations
  }

  /** The client's steps for an envelope of transaction `txID` and a list of `n` orderers. */
  ghost predicate ClientStep(n: nat, s: State, s': State) {
    match s.client
    case Ready =>
      // an unreadable envelope, bad options, no delegate transactor or a failed registration; or a registration
      || (exists e :: s' == s.(client := Returned(Failed(e))))
      || s' == s.(client := Registered, registrations := s.registrations + 1)
    case Registered =>
      s' == s.(client := Broadcasting(n))
    case Broadcasting(left) =>
      // the next orderer takes the envelope, or reports an error although it may have taken it; or none is left
      || (left > 0 && s' == s.(client := Waiting, submitted := true))
      || (left > 0 && (s' == s.(client := Broadcasting(left - 1))
                       || s' == s.(client := Broadcasting(left - 1), submitted := true)))
      || (left == 0 && exists e :: s' == s.(client := Leaving(Failed(e))))
    case Waiting =>
      || (s.notifier != [] &&
            s' == s.(notifier := s.notifier[1..],
                     client := Leaving(if s.notifier[0] == VALID then Valid else Invalid(s.notifier[0]))))
      || (s.timedOut && s' == s.(client := Leaving(TimedOut)))
    case Leaving(verdict) =>
      s' == s.(client := Returned(verdict), unregistrations := s.unregistrations + 1)
    case Returned(_) => false
  }

  /** The event service publishes a status. One caused by this client's broadcast needs the broadcast;
      the transaction may also have been submitted by somebody else. */
  function Publish(txID: string, s: State, id: string, code: Code, caused: bool): State {
    var heard := Listening(s) && id == txID;
    s.(events := s.events + [Event(id, code, caused, heard, s.client.Returned?)],
       notifier := if heard then s.notifier + [code] else s.notifier)
  }

  ghost predicate EventStep(txID: string, s: State, s': State) {
    exists id, code, caused ::
      (caused ==> s.submitted && id == txID) && s' == Publish(txID, s, id, code, caused)
  }

  ghost predicate Next(txID: string, n: nat, s: State, s': State) {
    ClientStep(n, s, s') || EventStep(txID, s, s') || s' == s.(timedOut := true)
  }

  ghost predicate IsRun(txID: string, n: nat, run: seq<State>) {
    && run != []
    && run[0] == INIT
    && forall i :: 0 < i < |run| ==> Next(txID, n, run[i - 1], run[i])
  }

  /** A status of this transaction with this code was put on the notifier. */
  predicate Heard(txID: string, s: State, code: Code) {
    exists i :: 0 <= i < |s.events| && s.events[i].heard && s.events[i].txID == txID && s.events[i].code == code
  }

  ghost predicate VerdictJustified(txID: string, s: State, v: Verdict) {
    match v
    case Valid => Heard(txID, s, VALID) && s.submitted
    case Invalid(code) => Heard(txID, s, code) && code != VALID && s.submitted
    case TimedOut => s.timedOut
    case Failed(_) => true
  }

  ghost predicate Inv(txID: string, s: State) {
    // registration brackets everything between it and the return
    && (s.client.Ready? ==> s.registrations == 0 && s.unregistrations == 0)
    && (s.client.Returned? ==> s.registrations == s.unregistrations <= 1)
    && (!s.client.Ready? && !s.client.Returned? ==> s.registrations == 1 && s.unregistrations == 0)
    // nothing is sent before
    && (s.submitted ==> s.registrations == 1 && !s.client.Registered?)
    && (s.client.Waiting? ==> s.submitted)
    // no event of the broadcast is missed while the client is there
    && (forall i :: 0 <= i < |s.events| && s.events[i].caused ==>
          s.events[i].txID == txID && (s.events[i].heard || s.events[i].late))
    && (forall i :: 0 <= i < |s.notifier| ==> Heard(txID, s, s.notifier[i]))
    && (s.client.Leaving? || s.client.Returned? ==> VerdictJustified(txID, s, s.client.verdict))
  }

  lemma HeardStays(txID: string, s: State, s': State, code: Code)
    requires s.events <= s'.events && Heard(txID, s, code)
    ensures Heard(txID, s', code)
  {
    var i :| 0 <= i < |s.events| && s.events[i].heard && s.events[i].txID == txID && s.events[i].code == code;
    assert s'.events[i] == s.events[i];
  }

  lemma {:induction false} ClientKeepsInv(txID: string, n: nat, s: State, s': State)
    requires Inv(txID, s) && ClientStep(n, s, s')
    ensures Inv(txID, s')
  {
    forall code | Heard(txID, s, code)
      ensures Heard(txID, s', code)
    {
      HeardStays(txID, s, s', code);
    }
  }

  lemma {:induction false} EventKeepsInv(txID: string, s: State, s': State)
    requires Inv(txID, s) && EventStep(txID, s, s')
    ensures Inv(txID, s')
  {
    var id, code, caused :| (caused ==> s.submitted && id == txID) && s' == Publish(txID, s, id, code, caused);
    var k := |s.events|;
    assert s'.events[k] == Event(id, code, caused, Listening(s) && id == txID, s.client.Returned?);
    forall code | Heard(txID, s, code)
      ensures Heard(txID, s', code)
    {
      HeardStays(txID, s, s', code);
    }
    assert s'.events[k].heard ==> Heard(txID, s', s'.events[k].code);
  }

  lemma {:induction false} RunKeepsInv(txID: string, n: nat, run: seq<State>)
    requires IsRun(txID, n, run)
    ensures Inv(txID, run[|run| - 1])
  {
    if |run| > 1 {
      RunKeepsInv(txID, n, run[..|run| - 1]);
      var s, s' := run[|run| - 2], run[|run| - 1];
      assert Next(txID, n, s, s');
      if ClientStep(n, s, s') {
        ClientKeepsInv(txID, n, s, s');
      } else if EventStep(txID, s, s') {
        EventKeepsInv(txID, s, s');
      } else {
        assert forall code :: Heard(txID, s, code) ==> Heard(txID, s', code);
      }
    }
  }

  /** Safety of the commit wait over every run: a nil error means that a VALID status of this very
      transaction reached the client's notifier; an invalid verdict carries the code of such a status;
      every registration is undone exactly once by the time the call returns, on every path; no
      orderer is sent the envelope before the registration; and no status caused by the broadcast is
      missed as long as the client has not returned. */
  lemma CommitWaitIsSafe(txID: string, n: nat, run: seq<State>)
    requires IsRun(txID, n, run)
    ensures var s := run[|run| - 1];
            && (s.client == Returned(Valid) ==> s.submitted && Heard(txID, s, VALID))
            && (s.client.Returned? && s.client.verdict.Invalid? ==>
                  s.client.verdict.code != VALID && Heard(txID, s, s.client.verdict.code))
            && (s.client.Returned? ==> s.registrations == s.unregistrations)
            && s.unregistrations <= s.registrations <= 1
            && (s.submitted ==> s.registrations == 1)
            && (forall i :: 0 <= i < |s.events| && s.events[i].caused && !s.events[i].late ==> s.events[i].heard)
  {
    RunKeepsInv(txID, n, run);
  }

  /** Events already published keep their record, so "heard" and "late" say how it was when they were. */
  lemma {:induction false} EventsAreHistory(txID: string, n: nat, run: seq<State>, i: nat)
    requires IsRun(txID, n, run) && i < |run|
    ensures run[i].events <= run[|run| - 1].events
  {
    if i < |run| - 1 {
      EventsAreHistory(txID, n, run[..|run| - 1], i);
      assert Next(txID, n, run[|run| - 2], run[|run| - 1]);
    }
  }

  // ----- which status decides

  /** The codes of the statuses put on the client's notifier, in the order of their publication. */
  function HeardCodes(events: seq<Event>): seq<Code> {
    if events == [] then []
    else
      var front, last := HeardCodes(events[..|events| - 1]), events[|events| - 1];
      if last.heard then front + [last.code] else front
  }

  /** The status the client took from its notifier to reach a verdict, if any. */
  function TakenCodes(client: Client): seq<Code> {
    if !client.Leaving? && !client.Returned? then []
    else
      match client.verdict
      case Valid => [VALID]
      case Invalid(code) => [code]
      case TimedOut => []
      case Failed(_) => []
  }

  ghost predicate Conserves(txID: string, s: State) {
    && HeardCodes(s.events) == TakenCodes(s.client) + s.notifier
    && forall i :: 0 <= i < |s.events| && s.events[i].heard ==> s.events[i].txID == txID
  }

  lemma {:induction false} ClientConserves(txID: string, n: nat, s: State, s': State)
    requires Conserves(txID, s) && ClientStep(n, s, s')
    ensures Conserves(txID, s')
  {
    assert s'.events == s.events;
    assert TakenCodes(s'.client) + s'.notifier == TakenCodes(s.client) + s.notifier by {
      if s.client.Waiting? && s'.client != Leaving(TimedOut) {
        assert s.notifier == [s.notifier[0]] + s'.notifier;
      } else {
        assert s'.notifier == s.notifier;
      }
    }
  }

  lemma {:induction false} EventConserves(txID: string, s: State, s': State)
    requires Conserves(txID, s) && EventStep(txID, s, s')
    ensures Conserves(txID, s')
  {
    assert s'.client == s.client;
    assert s'.events[..|s.events|] == s.events;
  }

  /** No status that reached the notifier is lost, repeated or reordered: at every moment they are the one
      the verdict was made of, followed by those still waiting, and all are of this transaction. */
  lemma {:induction false} StatusesConserved(txID: string, n: nat, run: seq<State>)
    requires IsRun(txID, n, run)
    ensures Conserves(txID, run[|run| - 1])
  {
    if |run| > 1 {
      var s, s' := run[|run| - 2], run[|run| - 1];
      StatusesConserved(txID, n, run[..|run| - 1]);
      assert Next(txID, n, s, s');
      if ClientStep(n, s, s') {
        ClientConserves(txID, n, s, s');
      } else if EventStep(txID, s, s') {
        EventConserves(txID, s, s');
      }
    }
  }

  /** The verdict of a client that has returned is that of the first status that reached it. */
  lemma FirstStatusDecides(txID: string, n: nat, run: seq<State>)
    requires IsRun(txID, n, run) && run[|run| - 1].client.Returned?
    ensures var s := run[|run| - 1];
            && (s.client.verdict == Valid ==> HeardCodes(s.events) != [] && HeardCodes(s.events)[0] == 0)
            && (s.client.verdict.Invalid? ==>
                  HeardCodes(s.events) != [] && HeardCodes(s.events)[0] == s.client.verdict.code != 0)
  {
    StatusesConserved(txID, n, run);
    CommitWaitIsSafe(txID, n, run);
  }

  // ----- progress

  /** The client can move in every state but those in which it waits and nothing has come, or has returned:
      in particular as soon as a status is on its notifier, which then decides the verdict, and as soon as
      its time is over. */
  lemma ClientCanMove(n: nat, s: State) returns (next: State)
    requires !s.client.Returned?
    requires s.client.Waiting? ==> s.notifier != [] || s.timedOut
    ensures ClientStep(n, s, next)
    ensures s.client.Waiting? && s.notifier != [] ==>
              next.client == Leaving(if s.notifier[0] == 0 then Valid else Invalid(s.notifier[0]))
    ensures s.client.Waiting? && s.notifier == [] ==> next.client == Leaving(TimedOut)
    ensures s.client.Leaving? ==> next.client == Returned(s.client.verdict)
  {
    match s.client {
      case Ready => next := s.(client := Registered, registrations := s.registrations + 1);
      case Registered => next := s.(client := Broadcasting(n));
      case Broadcasting(left) =>
        next := if left > 0 then s.(client := Waiting, submitted := true)
                else s.(client := Leaving(Failed(Plain("no orderer left"))));
        assert left == 0 ==> exists e :: next == s.(client := Leaving(Failed(e)));
      case Waiting =>
        next := if s.notifier != [] then
                  s.(notifier := s.notifier[1..],
                     client := Leaving(if s.notifier[0] == VALID then Valid else Invalid(s.notifier[0])))
                else s.(client := Leaving(TimedOut));
      case Leaving(verdict) => next := s.(client := Returned(verdict), unregistrations := s.unregistrations + 1);
      case Returned(_) =>
    }
  }

  // ----- runs with a given outcome

  lemma {:induction false} Extended(txID: string, n: nat, run: seq<State>, s': State)
    requires IsRun(txID, n, run) && Next(txID, n, run[|run| - 1], s')
    ensures IsRun(txID, n, run + [s'])
  {
    forall i | 0 < i < |run + [s']|
      ensures Next(txID, n, (run + [s'])[i - 1], (run + [s'])[i])
    {
      if i < |run| {
        assert Next(txID, n, run[i - 1], run[i]);
      }
    }
  }

  /** The run up to the point where all but `left` of `n` orderers have refused the envelope. */
  lemma {:induction false} Refused(txID: string, n: nat, left: nat) returns (run: seq<State>)
    requires left <= n
    ensures IsRun(txID, n, run)
    ensures run[|run| - 1] == INIT.(client := Broadcasting(left), registrations := 1)
    decreases n - left
  {
    if left == n {
      run := [INIT];
      Extended(txID, n, run, INIT.(client := Registered, registrations := 1));
      run := run + [INIT.(client := Registered, registrations := 1)];
      Extended(txID, n, run, INIT.(client := Broadcasting(n), registrations := 1));
      run := run + [INIT.(client := Broadcasting(n), registrations := 1)];
    } else {
      run := Refused(txID, n, left + 1);
      Extended(txID, n, run, INIT.(client := Broadcasting(left), registrations := 1));
      run := run + [INIT.(client := Broadcasting(left), registrations := 1)];
    }
  }

  /** The client leaves with a verdict. */
  lemma {:induction false} Leaves(txID: string, n: nat, run: seq<State>) returns (longer: seq<State>)
    requires IsRun(txID, n, run) && run[|run| - 1].client.Leaving?
    ensures IsRun(txID, n, longer) && longer[|longer| - 1].client == Returned(run[|run| - 1].client.verdict)
  {
    var s := run[|run| - 1];
    var last := s.(client := Returned(s.client.verdict), unregistrations := s.unregistrations + 1);
    Extended(txID, n, run, last);
    longer := run + [last];
  }

  /** All of `n` orderers refuse. */
  lemma AllRefuseRun(txID: string, n: nat, e: Error) returns (run: seq<State>)
    ensures IsRun(txID, n, run) && run[|run| - 1].client == Returned(Failed(e))
  {
    run := Refused(txID, n, 0);
    var leaving := run[|run| - 1].(client := Leaving(Failed(e)));
    Extended(txID, n, run, leaving);
    run := Leaves(txID, n, run + [leaving]);
  }

  /** The last of `n` orderers takes the envelope, and then the request's time is over. */
  lemma ExpiredRun(txID: string, n: nat) returns (run: seq<State>)
    requires n > 0
    ensures IsRun(txID, n, run) && run[|run| - 1].client == Returned(TimedOut)
  {
    run := Taken(txID, n);
    var s := run[|run| - 1];
    Extended(txID, n, run, s.(timedOut := true));
    var late := run + [s.(timedOut := true)];
    Extended(txID, n, late, s.(timedOut := true, client := Leaving(TimedOut)));
    run := Leaves(txID, n, late + [s.(timedOut := true, client := Leaving(TimedOut))]);
  }

  lemma Taken(txID: string, n: nat) returns (run: seq<State>)
    requires n > 0
    ensures IsRun(txID, n, run)
    ensures run[|run| - 1] == INIT.(client := Waiting, registrations := 1, submitted := true)
  {
    run := Refused(txID, n, 1);
    var taken := INIT.(client := Waiting, registrations := 1, submitted := true);
    Extended(txID, n, run, taken);
    run := run + [taken];
  }

  /** The last of `n` orderers takes the envelope, and then a status comes. */
  lemma NotifiedRun(txID: string, n: nat, code: Code) returns (run: seq<State>)
    requires n > 0
    ensures IsRun(txID, n, run)
    ensures run[|run| - 1].client == Returned(if code == VALID then Valid else Invalid(code))
  {
    run := Taken(txID, n);
    var heard := Publish(txID, run[|run| - 1], txID, code, true);
    Extended(txID, n, run, heard);
    var leaving := heard.(notifier := [], client := Leaving(if code == VALID then Valid else Invalid(code)));
    assert heard.notifier == [code];
    Extended(txID, n, run + [heard], leaving);
    run := Leaves(txID, n, run + [heard, leaving]);
  }
}
