/** The race of `DelegateInvokeHandler`: a worker goroutine runs the attempts and then signals on a
    channel of capacity one, while the caller waits for the signal or for the request to time out. */
module Race {
  import opened Common
  import opened Fabric
  import opened Chain
  import opened Endorsement
  import opened Coverage
  import opened Retry

  /** The worker is inside an attempt, with `left` more writes to the shared context to make before
      it ends; or between attempts; or has left the invoker; or has sent its signal and ended. */
  datatype Worker = Running(k: nat, left: nat) | Deciding(k: nat) | Sending | Ended

  /** The caller reads the two results one after the other. */
  datatype Caller =
    | Selecting
    | Signalled
    | GotResponse(response: Response)
    | Returned(response: Response, error: Option<Error>)

  datatype State = State(worker: Worker, ctx: Ctx, signals: nat, timedOut: bool, caller: Caller)

  const TIMEOUT := Status("Timeout", "request timed out or been cancelled")

  /** One call: the context and the attempts of its run, and how often each attempt writes. */
  datatype Call = Call(init: Ctx, tries: seq<Try>, writes: nat -> nat)

  /** What the caller is supposed to see. */
  function Final(c: Call): Ctx
    requires c.tries != []
  {
    After(c.init, c.tries, |c.tries| - 1)
  }

  function Begin(c: Call): State {
    State(Running(0, c.writes(0)), c.init, 0, false, Selecting)
  }

  /** A step of the worker. While an attempt runs, its writes to the context are arbitrary. */
  ghost predicate WorkerStep(c: Call, s: State, s': State) {
    match s.worker
    case Running(k, left) =>
      && k < |c.tries|
      && if left > 0 then s' == s.(worker := Running(k, left - 1), ctx := s'.ctx)
         else s' == s.(worker := Deciding(k), ctx := After(c.init, c.tries, k))
    case Deciding(k) =>
      if k + 1 < |c.tries|
      then s' == s.(worker := Running(k + 1, c.writes(k + 1)), ctx := Before(c.init, c.tries, k + 1))
      else s' == s.(worker := Sending)
    case Sending => s.signals < 1 && s' == s.(worker := Ended, signals := s.signals + 1)
    case Ended => false
  }

  ghost predicate CallerStep(s: State, s': State) {
    match s.caller
    case Selecting =>
      || (s.signals > 0 && s' == s.(signals := s.signals - 1, caller := Signalled))
      || (s.timedOut && s' == s.(caller := Returned(NO_RESPONSE, Some(TIMEOUT))))
    case Signalled => s' == s.(caller := GotResponse(s.ctx.response))
    case GotResponse(response) => s' == s.(caller := Returned(response, s.ctx.error))
    case Returned(_, _) => false
  }

  ghost predicate TimerStep(s: State, s': State) {
    s' == s.(timedOut := true)
  }

  ghost predicate Next(c: Call, s: State, s': State) {
    WorkerStep(c, s, s') || CallerStep(s, s') || TimerStep(s, s')
  }

  ghost predicate IsRun(c: Call, run: seq<State>) {
    && run != []
    && run[0] == Begin(c)
    && forall i :: 0 < i < |run| ==> Next(c, run[i - 1], run[i])
  }

  ghost predicate Inv(c: Call, s: State) {
    && c.tries != []
    && (s.worker.Running? ==> s.worker.k < |c.tries|)
    && (s.worker.Deciding? ==> s.worker.k < |c.tries| && s.ctx == After(c.init, c.tries, s.worker.k))
    && (s.worker.Sending? || s.worker.Ended? ==> s.ctx == Final(c))
    && (!s.worker.Ended? ==> s.signals == 0 && !s.caller.Signalled? && !s.caller.GotResponse?)
    && (s.worker.Ended? ==> s.signals <= 1 && (s.caller.Signalled? || s.caller.GotResponse? ==> s.signals == 0))
    && (s.caller.GotResponse? ==> s.caller.response == Final(c).response)
    && (s.caller.Returned? ==>
          || (s.timedOut && s.caller == Returned(NO_RESPONSE, Some(TIMEOUT)))
          || (s.worker.Ended? && s.caller == Returned(Final(c).response, Final(c).error)))
  }

  lemma WorkerKeepsInv(c: Call, s: State, s': State)
    requires Inv(c, s) && WorkerStep(c, s, s')
    ensures Inv(c, s')
  {
  }

  lemma CallerKeepsInv(c: Call, s: State, s': State)
    requires Inv(c, s) && CallerStep(s, s')
    ensures Inv(c, s')
  {
  }

  lemma {:induction false} StepKeepsInv(c: Call, s: State, s': State)
    requires Inv(c, s) && Next(c, s, s')
    ensures Inv(c, s')
  {
    if WorkerStep(c, s, s') {
      WorkerKeepsInv(c, s, s');
    } else if CallerStep(s, s') {
      CallerKeepsInv(c, s, s');
    }
  }

  lemma {:induction false} RunKeepsInv(c: Call, run: seq<State>)
    requires c.tries != [] && IsRun(c, run)
    ensures Inv(c, run[|run| - 1])
  {
    if |run| > 1 {
      RunKeepsInv(c, run[..|run| - 1]);
      StepKeepsInv(c, run[|run| - 2], run[|run| - 1]);
    }
  }

  /** Over every interleaving: the caller returns the response and error of the worker's last attempt,
      read when the worker has made its last write, or an empty response with the timeout error; the
      worker's one send never blocks, even after the caller has left; and while the worker has not
      ended it can always move. */
  lemma RaceIsSafe(c: Call, run: seq<State>)
    requires c.tries != [] && IsRun(c, run)
    ensures var s := run[|run| - 1];
            && (s.caller.Returned? ==>
                  || (s.timedOut && s.caller.response == Response([], [], 0)
                      && s.caller.error == Some(Status("Timeout", "request timed out or been cancelled")))
                  || (s.caller.response == Final(c).response && s.caller.error == Final(c).error))
            && (s.caller.Signalled? || s.caller.GotResponse? ==> s.worker.Ended? && s.ctx == Final(c))
            && (s.worker.Sending? ==> s.signals == 0)
            && (!s.worker.Ended? ==> exists s' :: WorkerStep(c, s, s'))
  {
    RunKeepsInv(c, run);
    var s := run[|run| - 1];
    match s.worker {
      case Running(k, left) =>
        var next := if left > 0 then s.(worker := Running(k, left - 1))
                    else s.(worker := Deciding(k), ctx := After(c.init, c.tries, k));
        assert WorkerStep(c, s, next);
      case Deciding(k) =>
        var next := if k + 1 < |c.tries|
                    then s.(worker := Running(k + 1, c.writes(k + 1)), ctx := Before(c.init, c.tries, k + 1))
                    else s.(worker := Sending);
        assert WorkerStep(c, s, next);
      case Sending =>
        assert WorkerStep(c, s, s.(worker := Ended, signals := s.signals + 1));
      case Ended =>
    }
  }

  /** The worker's own steps left, attempts first. */
  function Rank(c: Call, w: Worker): (nat, nat) {
    match w
    case Running(k, left) => (if k < |c.tries| then |c.tries| - k + 1 else 1, left + 1)
    case Deciding(k) => (if k < |c.tries| then |c.tries| - k + 1 else 1, 0)
    case Sending => (1, 0)
    case Ended => (0, 0)
  }

  ghost predicate Below(a: (nat, nat), b: (nat, nat)) {
    a.0 < b.0 || (a.0 == b.0 && a.1 < b.1)
  }

  /** The worker terminates: each of its steps lowers the number of attempts left, or the writes left
      in the current one, and no step of anybody else raises either. */
  lemma WorkerTerminates(c: Call, s: State, s': State)
    requires Inv(c, s) && Next(c, s, s')
    ensures WorkerStep(c, s, s') ==> Below(Rank(c, s'.worker), Rank(c, s.worker))
    ensures CallerStep(s, s') || TimerStep(s, s') ==> s'.worker == s.worker
  {
  }

  /** Once the worker has ended, the caller can always move until it has returned: no call hangs. */
  lemma CallerNotStuck(c: Call, run: seq<State>) returns (next: State)
    requires c.tries != [] && IsRun(c, run)
    requires run[|run| - 1].worker.Ended? && !run[|run| - 1].caller.Returned?
    ensures CallerStep(run[|run| - 1], next)
  {
    SignalOrRead(c, run);
    var s := run[|run| - 1];
    next := match s.caller
      case Selecting => s.(signals := s.signals - 1, caller := Signalled)
      case Signalled => s.(caller := GotResponse(s.ctx.response))
      case GotResponse(response) => s.(caller := Returned(response, s.ctx.error));
  }

  /** The request's time can run out in any state, and the worker does not notice. */
  lemma TimeCanRunOut(c: Call, run: seq<State>)
    requires IsRun(c, run)
    ensures IsRun(c, run + [run[|run| - 1].(timedOut := true)])
  {
    var longer := run + [run[|run| - 1].(timedOut := true)];
    forall i | 0 < i < |longer|
      ensures Next(c, longer[i - 1], longer[i])
    {
      if i < |run| {
        assert Next(c, run[i - 1], run[i]);
      }
    }
  }

  /** A caller whose request has timed out while it still waits can return at once, wherever the worker is,
      with an empty response and the timeout error. */
  lemma TimeoutReturns(s: State)
    requires s.timedOut && s.caller.Selecting?
    ensures CallerStep(s, s.(caller := Returned(
              Response([], [], 0), Some(Status("Timeout", "request timed out or been cancelled")))))
  {
  }

  /** The caller is never stuck: until it has returned it can move whenever a signal is pending or the
      request has timed out, and from every state after the signal. */
  lemma CallerCanMove(c: Call, s: State) returns (next: State)
    requires !s.caller.Returned? && (s.caller.Selecting? ==> s.signals > 0 || s.timedOut)
    ensures CallerStep(s, next) && Next(c, s, next)
    ensures s.caller.Selecting? && s.signals > 0 ==> next == s.(signals := s.signals - 1, caller := Signalled)
    ensures s.caller.Signalled? ==> next == s.(caller := GotResponse(s.ctx.response))
    ensures s.caller.GotResponse? ==> next == s.(caller := Returned(s.caller.response, s.ctx.error))
  {
    next := match s.caller
      case Selecting =>
        if s.signals > 0 then s.(signals := s.signals - 1, caller := Signalled)
        else s.(caller := Returned(NO_RESPONSE, Some(TIMEOUT)))
      case Signalled => s.(caller := GotResponse(s.ctx.response))
      case GotResponse(response) => s.(caller := Returned(response, s.ctx.error));
  }

  /** A call that returns without an error was validated by the next handler of the last attempt. */
  lemma ReturnedIsValidated(c: Call, run: seq<State>)
    requires c.tries != [] && IsRun(c, run) && run[|run| - 1].caller.Returned? && run[|run| - 1].caller.error.None?
    ensures run[|run| - 1].caller.response == Final(c).response
    ensures c.tries[|c.tries| - 1].env.next(Final(c)) == None
  {
    RaceIsSafe(c, run);
    SuccessfulRunIsValidated(c.init, c.tries);
  }

  lemma {:induction false} SignalOrRead(c: Call, run: seq<State>)
    requires c.tries != [] && IsRun(c, run)
    ensures var s := run[|run| - 1]; s.worker.Ended? && s.caller.Selecting? ==> s.signals > 0
  {
    if |run| > 1 {
      SignalOrRead(c, run[..|run| - 1]);
      RunKeepsInv(c, run[..|run| - 1]);
    }
  }

  /** From the caller's side: a call without user targets that returns without an error holds
      endorsements that satisfy every policy selection promised for all that the last attempt's first
      response touched and for the chain that attempt started from, whatever the schedule and however
      often the worker had to try. */
  lemma ReturnedEndorsementsAreCovered(
      c: Call, run: seq<State>, policy: RetryPolicy, orgOf: string -> string, promise: Policy)
    requires c.init == Start(c.init.primary, c.init.chain, []) && IsCompleteRun(c.init, c.tries, policy)
    requires IsRun(c, run) && run[|run| - 1].caller.Returned? && run[|run| - 1].caller.error.None?
    requires FirstTargets(c.tries[|c.tries| - 1].env, StartAt(c.init, c.tries, |c.tries| - 1)).Ok?
    requires SoundAttempt(c.tries[|c.tries| - 1], StartAt(c.init, c.tries, |c.tries| - 1), orgOf, promise)
    ensures var msps, last := EndorsingMsps(orgOf, run[|run| - 1].caller.response.responses), c.tries[|c.tries| - 1];
            && Satisfies(promise, msps, Discovered(last.env, c.init, last.first).value)
            && Satisfies(promise, msps, NewChain(c.init.primary, ChainAt(c.init, c.tries, |c.tries| - 1)))
  {
    RaceIsSafe(c, run);
    SuccessfulRunIsCovered(c.init, c.tries, policy, orgOf, promise);
  }
}
