/**
 Recovery of the IMS registration. Requests, the refresh loop and the keepalive loop all trigger it;
 the recovery mutex lets one run at a time, while closing and refreshing go on under another mutex.
 */
module Recovery {
  import opened Wrappers
  import Backoff

  datatype Config = Config(backoffInitial: int, backoffMax: int)

  /** Why a recovery was started; only a failed refresh carries a Retry-After. */
  datatype Trigger = Requested | RefreshFailed(retryAfter: int) | KeepaliveFailed

  function RetryAfter(t: Trigger): int {
    match t
    case RefreshFailed(d) => d
    case _ => 0
  }

  /** How far the recovery that holds the mutex has come. */
  datatype Phase =
    | Free
    | Entered(trigger: Trigger)
    | BackingOff(trigger: Trigger, until: int)
    | Resetting(trigger: Trigger)
    | Pausing(until: int)
    | Ready
    | Registering

  /** The recovery state proper: zero is the unset time. */
  datatype Book = Book(failures: nat, nextAttemptAt: int)

  datatype State = State(
    now: int, closed: bool, registered: bool, phase: Phase, book: Book,
    lastFailureAt: int,  // history: when the current streak's latest failure was recorded
    promised: int)       // history: the end of a scheduled Retry-After not yet followed by an attempt

  function Delay(cfg: Config, failures: nat): int {
    Backoff.RecoveryBackoff(failures, cfg.backoffInitial, cfg.backoffMax)
  }

  function Failed(cfg: Config, b: Book, now: int): Book {
    var f := b.failures + 1;
    Book(f, if Delay(cfg, f) > 0 then now + Delay(cfg, f) else 0)
  }

  function Succeeded(): Book {
    Book(0, 0)
  }

  /** A Retry-After moves the next attempt, unless there is nothing left to recover. */
  function Scheduled(b: Book, now: int, delay: int, active: bool): Book {
    if delay > 0 && active then b.(nextAttemptAt := now + delay) else b
  }

  /** The bookkeeping methods, run under the state mutex. */
  class RecoveryBook {
    const cfg: Config
    var failures: nat
    var nextAttemptAt: int

    constructor (cfg: Config)
      ensures this.cfg == cfg && Abs() == Book(0, 0)
    {
      this.cfg, failures, nextAttemptAt := cfg, 0, 0;
    }

    function Abs(): Book
      reads this
    {
      Book(failures, nextAttemptAt)
    }

    method RecordFailure(now: int)
      modifies this
      ensures Abs() == Failed(cfg, old(Abs()), now)
    {
      failures := failures + 1;
      var delay := Delay(cfg, failures);
      if delay > 0 {
        nextAttemptAt := now + delay;
      } else {
        nextAttemptAt := 0;
      }
    }

    method RecordSuccess()
      modifies this
      ensures Abs() == Succeeded()
    {
      failures, nextAttemptAt := 0, 0;
    }
  }

  // ---------- Steps ----------

  datatype Outcome = Cancelled | Failure | NotRegistered | Success

  datatype Step =
    | Tick(to: int)
    | SetClosed
    | SetRegistered(value: bool)
    | Enter(trigger: Trigger)
    | Check
    | WakeFromBackoff
    | Cancel
    | ResetFlow(switched: bool, failed: bool)
    | WakeFromPause
    | Attempt
    | Finish(outcome: Outcome)

  predicate Active(s: State) {
    !s.closed && s.registered
  }

  function Leave(s: State): State {
    s.(phase := Free)
  }

  /** What each step does, and when it can be taken. Waits end early only by cancellation. */
  predicate Next(cfg: Config, s: State, step: Step, s': State) {
    match step
    case Tick(to) => to >= s.now && s' == s.(now := to)
    case SetClosed => s' == s.(closed := true)
    case SetRegistered(value) => s' == s.(registered := value)
    case Enter(trigger) => s.phase == Free && s' == s.(phase := Entered(trigger))
    case Check =>
      && s.phase.Entered?
      && s' == if !Active(s) then Leave(s)
               else if s.book.nextAttemptAt > s.now then s.(phase := BackingOff(s.phase.trigger, s.book.nextAttemptAt))
               else s.(phase := Resetting(s.phase.trigger))
    case WakeFromBackoff =>
      && s.phase.BackingOff? && s.now >= s.phase.until
      && s' == if !Active(s) then Leave(s) else s.(phase := Resetting(s.phase.trigger))
    case Cancel => (s.phase.BackingOff? || s.phase.Pausing?) && s' == Leave(s)
    case ResetFlow(switched, failed) =>
      && s.phase.Resetting?
      && var wait := RetryAfter(s.phase.trigger);
         s' == if failed then Leave(s)
               else if wait <= 0 || switched then s.(phase := Ready)
               else s.(phase := Pausing(s.now + wait), book := Scheduled(s.book, s.now, wait, Active(s)),
                       promised := if Active(s) then s.now + wait else s.promised)
    case WakeFromPause => s.phase.Pausing? && s.now >= s.phase.until && s' == s.(phase := Ready)
    case Attempt =>
      && s.phase == Ready
      && s' == if !Active(s) then Leave(s) else s.(phase := Registering, promised := 0)
    case Finish(outcome) =>
      && s.phase == Registering
      && s' == match outcome
               case Cancelled => Leave(s)
               case Failure => Leave(s).(book := Failed(cfg, s.book, s.now), lastFailureAt := s.now)
               case NotRegistered => Leave(s).(registered := false, book := Failed(cfg, s.book, s.now), lastFailureAt := s.now)
               case Success => if s.closed then Leave(s) else Leave(s).(registered := true, book := Succeeded())
  }

  /** The step starts a REGISTER exchange. */
  predicate Starts(s: State, step: Step) {
    step == Attempt && s.phase == Ready && Active(s)
  }

  // ---------- Spacing ----------

  /** The recorded time is no earlier than what the failures and a scheduled wait call for. */
  predicate Owed(cfg: Config, s: State) {
    && (Delay(cfg, s.book.failures) > 0 ==> s.book.nextAttemptAt >= s.lastFailureAt + Delay(cfg, s.book.failures))
    && (s.promised > 0 ==> s.book.nextAttemptAt >= s.promised)
  }

  /** A recovery past its wait has seen the recorded time go by. */
  predicate Waited(s: State) {
    match s.phase
    case BackingOff(_, until) => until == s.book.nextAttemptAt
    case Resetting(_) => s.now >= s.book.nextAttemptAt
    case Pausing(until) => until >= s.book.nextAttemptAt
    case Ready => s.now >= s.book.nextAttemptAt
    case Registering => s.promised == 0
    case _ => true
  }

  predicate Inv(cfg: Config, s: State) {
    s.now >= 0 && Owed(cfg, s) && Waited(s)
  }

  predicate Initial(s: State) {
    s.now >= 0 && s.phase == Free && s.book == Book(0, 0) && s.promised == 0
  }

  lemma NextKeepsInv(cfg: Config, s: State, step: Step, s': State)
    requires Inv(cfg, s) && Next(cfg, s, step, s')
    ensures Inv(cfg, s')
  {
    hide Delay;
    assert Delay(cfg, 0) == 0 by {
      NoDelayWithoutFailure(cfg);
    }
    if step.ResetFlow? && s.phase.Resetting? {
      SchedulingCovers(cfg, s, RetryAfter(s.phase.trigger));
    }
  }

  lemma NoDelayWithoutFailure(cfg: Config)
    ensures Delay(cfg, 0) == 0
  {
  }

  predicate IsRun(cfg: Config, states: seq<State>, steps: seq<Step>) {
    && |states| == |steps| + 1
    && forall i :: 0 <= i < |steps| ==> Next(cfg, states[i], steps[i], states[i + 1])
  }

  lemma {:induction false} InvAlongRun(cfg: Config, states: seq<State>, steps: seq<Step>, n: nat)
    requires IsRun(cfg, states, steps) && Initial(states[0]) && n < |states|
    ensures Inv(cfg, states[n])
  {
    if n == 0 {
      NoDelayWithoutFailure(cfg);
    } else {
      InvAlongRun(cfg, states, steps, n - 1);
      NextKeepsInv(cfg, states[n - 1], steps[n - 1], states[n]);
    }
  }

  /**
   In every interleaving, an attempt during a failure streak starts no earlier than the latest failure
   plus the backoff for that streak, and no earlier than the end of a Retry-After scheduled since the
   last attempt, even if the wait for it was cancelled.
   */
  lemma AttemptsAreSpaced(cfg: Config, states: seq<State>, steps: seq<Step>, n: nat)
    requires IsRun(cfg, states, steps) && Initial(states[0]) && n < |steps| && Starts(states[n], steps[n])
    ensures states[n].now >= states[n].lastFailureAt + Delay(cfg, states[n].book.failures) || Delay(cfg, states[n].book.failures) == 0
    ensures states[n].now >= states[n].promised
    ensures !states[n].closed && states[n].registered
  {
    InvAlongRun(cfg, states, steps, n);
  }

  // ---------- What the history records ----------

  /** The step records a failure. */
  predicate RecordsFailure(s: State, step: Step) {
    s.phase == Registering && step.Finish? && (step.outcome == Failure || step.outcome == NotRegistered)
  }

  predicate RecordsSuccess(s: State, step: Step) {
    s.phase == Registering && step == Finish(Success) && !s.closed
  }

  /** How many failures were recorded since the last success. */
  function Streak(states: seq<State>, steps: seq<Step>, n: nat): nat
    requires n <= |steps| <= |states|
  {
    if n == 0 then 0
    else if RecordsFailure(states[n - 1], steps[n - 1]) then Streak(states, steps, n - 1) + 1
    else if RecordsSuccess(states[n - 1], steps[n - 1]) then 0
    else Streak(states, steps, n - 1)
  }

  lemma FailuresAfter(cfg: Config, s: State, step: Step, s': State)
    requires Next(cfg, s, step, s')
    ensures s'.book.failures
            == if RecordsFailure(s, step) then s.book.failures + 1 else if RecordsSuccess(s, step) then 0 else s.book.failures
  {
    hide Delay;
  }

  /** The recorded failures are those since the last success. */
  lemma {:induction false} FailuresAreStreak(cfg: Config, states: seq<State>, steps: seq<Step>, n: nat)
    requires IsRun(cfg, states, steps) && Initial(states[0]) && n < |states|
    ensures states[n].book.failures == Streak(states, steps, n)
  {
    hide Next, RecordsFailure, RecordsSuccess;
    if n > 0 {
      FailuresAreStreak(cfg, states, steps, n - 1);
      FailuresAfter(cfg, states[n - 1], steps[n - 1], states[n]);
    }
  }

  lemma StreakBegins(cfg: Config, s: State, step: Step, s': State)
    requires Next(cfg, s, step, s') && RecordsFailure(s, step)
    ensures s'.book.failures >= 1 && s'.lastFailureAt == s.now == s'.now
  {
    hide Delay;
  }

  lemma StreakStep(cfg: Config, s: State, step: Step, s': State, at: int)
    requires Next(cfg, s, step, s') && !RecordsSuccess(s, step)
    requires s.book.failures >= 1 && s.lastFailureAt >= at && s.now >= at
    ensures s'.book.failures >= 1 && s'.lastFailureAt >= at && s'.now >= at
  {
    hide Delay;
  }

  /** Between a recorded failure and a later attempt without a success, the streak only grows and its time is the latest. */
  lemma {:induction false} StreakRemembersFailure(cfg: Config, states: seq<State>, steps: seq<Step>, m: nat, n: nat)
    requires IsRun(cfg, states, steps) && m < n < |states| && RecordsFailure(states[m], steps[m])
    requires forall i :: m < i < n ==> !RecordsSuccess(states[i], steps[i])
    ensures states[n].book.failures >= 1 && states[n].lastFailureAt >= states[m].now && states[n].now >= states[m].now
    decreases n
  {
    hide Next;
    if n == m + 1 {
      StreakBegins(cfg, states[m], steps[m], states[n]);
    } else {
      StreakRemembersFailure(cfg, states, steps, m, n - 1);
      assert !RecordsSuccess(states[n - 1], steps[n - 1]);
      StreakStep(cfg, states[n - 1], steps[n - 1], states[n], states[m].now);
    }
  }

  /** An attempt after a recorded failure, with no success in between, waits for the current streak's backoff from it. */
  lemma AttemptAfterFailureWaits(cfg: Config, states: seq<State>, steps: seq<Step>, m: nat, n: nat)
    requires IsRun(cfg, states, steps) && Initial(states[0]) && m < n < |steps|
    requires RecordsFailure(states[m], steps[m]) && Starts(states[n], steps[n])
    requires forall i :: m < i < n ==> !RecordsSuccess(states[i], steps[i])
    ensures Streak(states, steps, n) >= 1
    ensures states[n].now >= states[m].now + Backoff.RecoveryBackoff(Streak(states, steps, n), cfg.backoffInitial, cfg.backoffMax)
  {
    hide Backoff.RecoveryBackoff, Next, Starts, Streak;
    StreakRemembersFailure(cfg, states, steps, m, n);
    AttemptsAreSpaced(cfg, states, steps, n);
    FailuresAreStreak(cfg, states, steps, n);
  }

  /**
   Scheduling after the recorded time has gone by only moves the next attempt back, so what the failures
   and an earlier Retry-After call for stays covered; and the new attempt time covers the delay.
   */
  lemma SchedulingCovers(cfg: Config, s: State, delay: int)
    requires Owed(cfg, s) && s.now >= s.book.nextAttemptAt
    ensures var b := Scheduled(s.book, s.now, delay, Active(s));
            && b.nextAttemptAt >= s.book.nextAttemptAt && Owed(cfg, s.(book := b))
            && (Active(s) && delay > 0 ==> Owed(cfg, s.(book := b, promised := s.now + delay)))
  {
    hide Delay;
  }

  /** The step schedules a Retry-After. */
  predicate Schedules(s: State, step: Step, delay: int) {
    && s.phase == Resetting(RefreshFailed(delay)) && step == ResetFlow(false, false)
    && delay > 0 && !s.closed && s.registered
  }

  lemma NowNotNegative(cfg: Config, states: seq<State>, steps: seq<Step>, n: nat)
    requires IsRun(cfg, states, steps) && Initial(states[0]) && n < |states|
    ensures states[n].now >= 0
  {
    InvAlongRun(cfg, states, steps, n);
  }

  /** Until the next attempt starts, later schedules only move the promise back. */
  lemma PromiseGrows(cfg: Config, s: State, step: Step, s': State)
    requires Inv(cfg, s) && Next(cfg, s, step, s') && !Starts(s, step)
    ensures s'.promised >= s.promised
  {
    hide Delay;
    if s.promised <= 0 {
      assert s'.promised == s.promised || s'.promised > 0;
    }
  }

  lemma {:induction false} PromiseKept(cfg: Config, states: seq<State>, steps: seq<Step>, m: nat, n: nat, delay: int)
    requires IsRun(cfg, states, steps) && Initial(states[0]) && m < n < |states| && Schedules(states[m], steps[m], delay)
    requires forall i :: m < i < n ==> !Starts(states[i], steps[i])
    ensures states[n].promised >= states[m].now + delay > 0
    decreases n
  {
    hide Inv;
    assert Next(cfg, states[n - 1], steps[n - 1], states[n]);
    InvAlongRun(cfg, states, steps, n - 1);
    if n == m + 1 {
      assert states[m].now >= 0 by {
        NowNotNegative(cfg, states, steps, m);
      }
    } else {
      hide Next;
      PromiseKept(cfg, states, steps, m, n - 1, delay);
      PromiseGrows(cfg, states[n - 1], steps[n - 1], states[n]);
    }
  }

  /** The first attempt after a scheduled Retry-After waits for its end, whatever was cancelled, triggered or closed in between. */
  lemma RetryAfterSurvivesCancellation(cfg: Config, states: seq<State>, steps: seq<Step>, m: nat, n: nat, delay: int)
    requires IsRun(cfg, states, steps) && Initial(states[0]) && m < n < |steps|
    requires Schedules(states[m], steps[m], delay) && Starts(states[n], steps[n])
    requires forall i :: m < i < n ==> !Starts(states[i], steps[i])
    ensures states[n].now >= states[m].now + delay
  {
    PromiseKept(cfg, states, steps, m, n, delay);
    AttemptsAreSpaced(cfg, states, steps, n);
  }

  // ---------- Attempts do start ----------

  lemma Extended(cfg: Config, states: seq<State>, steps: seq<Step>, step: Step, s: State)
    requires IsRun(cfg, states, steps) && Next(cfg, states[|steps|], step, s)
    ensures IsRun(cfg, states + [s], steps + [step])
  {
    hide Next;
    var all, both := states + [s], steps + [step];
    forall i | 0 <= i < |both|
      ensures Next(cfg, all[i], both[i], all[i + 1])
    {
      if i < |steps| {
        assert all[i] == states[i] && all[i + 1] == states[i + 1] && both[i] == steps[i];
      }
    }
  }

  function Later(a: int, b: int): int {
    if a < b then b else a
  }

  /** The wait that a trigger brings, unless the flow was switched to another target. */
  function ExtraWait(t: Trigger, switched: bool): int {
    if t.RefreshFailed? && t.retryAfter > 0 && !switched then t.retryAfter else 0
  }

  lemma WaitsForBackoff(cfg: Config, s: State) returns (states: seq<State>, steps: seq<Step>)
    requires s.phase.Entered? && !s.closed && s.registered
    ensures IsRun(cfg, states, steps) && states[0] == s
    ensures states[|steps|] == s.(phase := Resetting(s.phase.trigger), now := Later(s.now, s.book.nextAttemptAt))
  {
    hide Delay;
    states, steps := [s], [];
    if s.book.nextAttemptAt > s.now {
      var s1 := s.(phase := BackingOff(s.phase.trigger, s.book.nextAttemptAt));
      var s2 := s1.(now := s.book.nextAttemptAt);
      states, steps := [s, s1, s2, s2.(phase := Resetting(s.phase.trigger))], [Check, Tick(s.book.nextAttemptAt), WakeFromBackoff];
    } else {
      states, steps := [s, s.(phase := Resetting(s.phase.trigger))], [Check];
    }
  }

  lemma WaitsForRetryAfter(cfg: Config, states: seq<State>, steps: seq<Step>, switched: bool) returns (more: seq<State>, then_: seq<Step>)
    requires IsRun(cfg, states, steps)
    requires var s := states[|steps|]; s.phase.Resetting? && !s.closed && s.registered
    ensures IsRun(cfg, more, then_) && more[0] == states[0]
    ensures var s := states[|steps|];
            more[|then_|].phase == Ready && !more[|then_|].closed && more[|then_|].registered
            && more[|then_|].now == s.now + ExtraWait(s.phase.trigger, switched)
  {
    hide Delay;
    var s := states[|steps|];
    var wait := ExtraWait(s.phase.trigger, switched);
    if wait == 0 {
      Extended(cfg, states, steps, ResetFlow(switched, false), s.(phase := Ready));
      more, then_ := states + [s.(phase := Ready)], steps + [ResetFlow(switched, false)];
    } else {
      var s1 := s.(phase := Pausing(s.now + wait), book := Scheduled(s.book, s.now, wait, true), promised := s.now + wait);
      var s2 := s1.(now := s.now + wait);
      Extended(cfg, states, steps, ResetFlow(switched, false), s1);
      more, then_ := states + [s1], steps + [ResetFlow(switched, false)];
      Extended(cfg, more, then_, Tick(s2.now), s2);
      more, then_ := more + [s2], then_ + [Tick(s2.now)];
      Extended(cfg, more, then_, WakeFromPause, s2.(phase := Ready));
      more, then_ := more + [s2.(phase := Ready)], then_ + [WakeFromPause];
    }
  }

  /** A recovery that is entered, and neither cancelled nor closed, starts an attempt, and no later than the recorded time and the Retry-After call for. */
  lemma RecoveryReachesAttempt(cfg: Config, s: State, switched: bool) returns (states: seq<State>, steps: seq<Step>)
    requires s.phase.Entered? && !s.closed && s.registered
    ensures IsRun(cfg, states, steps) && steps != [] && states[0] == s && Starts(states[|steps| - 1], steps[|steps| - 1])
    ensures states[|steps| - 1].now == Later(s.now, s.book.nextAttemptAt) + ExtraWait(s.phase.trigger, switched)
  {
    hide IsRun;
    states, steps := WaitsForBackoff(cfg, s);
    assert |states| == |steps| + 1 by {
      RunLength(cfg, states, steps);
    }
    states, steps := WaitsForRetryAfter(cfg, states, steps, switched);
    RunLength(cfg, states, steps);
    var last := states[|steps|];
    Extended(cfg, states, steps, Attempt, last.(phase := Registering, promised := 0));
    states, steps := states + [last.(phase := Registering, promised := 0)], steps + [Attempt];
  }

  lemma RunLength(cfg: Config, states: seq<State>, steps: seq<Step>)
    requires IsRun(cfg, states, steps)
    ensures |states| == |steps| + 1
  {
  }

  /** After an answer that leaves the subscriber unregistered, no attempt starts until something registers it again. */
  lemma {:induction false} UnregisteredStops(cfg: Config, states: seq<State>, steps: seq<Step>, m: nat, n: nat)
    requires IsRun(cfg, states, steps) && m < n < |states| && states[m].phase == Registering && steps[m] == Finish(NotRegistered)
    requires forall i :: m < i < n ==> steps[i] != SetRegistered(true)
    ensures !states[n].registered && states[n].phase != Registering
    ensures n < |steps| ==> !Starts(states[n], steps[n])
    decreases n
  {
    hide Delay;
    assert Next(cfg, states[n - 1], steps[n - 1], states[n]);
    if n > m + 1 {
      UnregisteredStops(cfg, states, steps, m, n - 1);
    }
  }

  /** A failed reset ends the recovery without an attempt, and a success that finds the registration closed changes nothing else. */
  lemma NothingComesOfIt(cfg: Config, s: State, switched: bool, s': State)
    requires Next(cfg, s, ResetFlow(switched, true), s') || (s.closed && Next(cfg, s, Finish(Success), s'))
    ensures s' == s.(phase := Free)
  {
  }
}
