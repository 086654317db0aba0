/**
  The circuit breaker and its client, the collector's run_once: admissions, the run lock, and the
  recording of outcomes as interleaved atomic steps over a monotonic clock.
 */
module CircuitBreakers {
  import opened Wrappers
  import opened Vectors

  datatype CircuitState = Closed | Open | HalfOpen

  datatype Settings = Settings(failureThreshold: int, recoveryTimeout: real, halfOpenMaxCalls: int)

  datatype Breaker = Breaker(
    settings: Settings,
    state: CircuitState,
    consecutiveFailures: int,
    openedAt: Option<real>,
    totalOpens: nat,
    halfOpenCalls: int)

  function FreshBreaker(s: Settings): Breaker {
    Breaker(s, Closed, 0, None, 0, 0)
  }

  function Opened(b: Breaker, now: real): Breaker {
    b.(state := Open, openedAt := Some(now), totalOpens := b.totalOpens + 1)
  }

  function HasRecovered(b: Breaker, now: real): bool {
    b.openedAt.Some? && now - b.openedAt.value >= b.settings.recoveryTimeout
  }

  /** The breaker after a request at `now`, and whether it was let through. */
  function Allowed(b: Breaker, now: real): (Breaker, bool) {
    if b.state.Closed? then (b, true)
    else if b.state.Open? && !HasRecovered(b, now) then (b, false)
    else
      var probe := if b.state.Open? then b.(state := HalfOpen, halfOpenCalls := 0) else b;
      if probe.halfOpenCalls >= b.settings.halfOpenMaxCalls then (probe, false)
      else (probe.(halfOpenCalls := probe.halfOpenCalls + 1), true)
  }

  function AfterSuccess(b: Breaker): Breaker {
    b.(state := Closed, consecutiveFailures := 0, openedAt := None, halfOpenCalls := 0)
  }

  function AfterFailure(b: Breaker, now: real): Breaker {
    if b.state.HalfOpen? then Opened(b, now)
    else
      var counted := b.(consecutiveFailures := b.consecutiveFailures + 1);
      if counted.consecutiveFailures >= b.settings.failureThreshold && b.state.Closed? then Opened(counted, now)
      else counted
  }

  class CircuitBreaker {
    const settings: Settings
    var state: CircuitState
    var consecutiveFailures: int
    var openedAt: Option<real>
    var totalOpens: nat
    var halfOpenCalls: int

    function Value(): Breaker
      reads this
    {
      Breaker(settings, state, consecutiveFailures, openedAt, totalOpens, halfOpenCalls)
    }

    constructor (settings: Settings)
      ensures Value() == FreshBreaker(settings)
    {
      this.settings := settings;
      state, consecutiveFailures, openedAt, totalOpens, halfOpenCalls := Closed, 0, None, 0, 0;
    }

    method AllowRequest(now: real) returns (allowed: bool)
      modifies this
      ensures (Value(), allowed) == Allowed(old(Value()), now)
    {
      if state == Closed {
        return true;
      }
      if state == Open {
        if openedAt.Some? && now - openedAt.value >= settings.recoveryTimeout {
          state := HalfOpen;
          halfOpenCalls := 0;
        } else {
          return false;
        }
      }
      if halfOpenCalls >= settings.halfOpenMaxCalls {
        return false;
      }
      halfOpenCalls := halfOpenCalls + 1;
      return true;
    }

    method RecordSuccess() returns (recovered: bool)
      modifies this
      ensures Value() == AfterSuccess(old(Value())) && (recovered <==> old(state) != Closed)
    {
      recovered := state != Closed;
      state, consecutiveFailures, openedAt, halfOpenCalls := Closed, 0, None, 0;
    }

    method RecordFailure(now: real) returns (tripped: bool)
      modifies this
      ensures Value() == AfterFailure(old(Value()), now)
      ensures tripped <==> Value().totalOpens > old(totalOpens)
    {
      if state == HalfOpen {
        OpenNow(now);
        return true;
      }
      consecutiveFailures := consecutiveFailures + 1;
      var stillClosed := state == Closed;
      if consecutiveFailures >= settings.failureThreshold && stillClosed {
        OpenNow(now);
        return true;
      }
      return false;
    }

    method OpenNow(now: real)
      modifies this
      ensures Value() == Opened(old(Value()), now)
    {
      state := Open;
      openedAt := Some(now);
      totalOpens := totalOpens + 1;
    }
  }

  // ----- the collector around it -----

  /** Where an admitted run stands; after a recovery the success alert is still to be sent. */
  datatype Phase = Waiting | Executing | Settling(alerting: bool)

  datatype System = System(
    breaker: Breaker,
    now: real,
    queueLength: int,
    lockHeld: bool,
    inFlight: bool,
    runs: seq<Phase>,
    admitted: nat, rejected: nat, recorded: nat,
    episodes: seq<nat>)

  datatype Step =
    | Pass(seconds: real)
    | Call
    | Acquire(run: nat)
    | RecordSuccess(run: nat)
    | RecordFailure(run: nat)
    | AlertRaises(run: nat)
    | Release(run: nat)

  predicate Enabled(s: System, step: Step) {
    match step
    case Pass(seconds) => seconds >= 0.0
    case Call => true
    case Acquire(r) => r < |s.runs| && s.runs[r].Waiting? && !s.lockHeld
    case RecordSuccess(r) => r < |s.runs| && s.runs[r].Executing?
    case RecordFailure(r) => r < |s.runs| && s.runs[r].Executing?
    case AlertRaises(r) => r < |s.runs| && s.runs[r].Settling? && s.runs[r].alerting
    case Release(r) => r < |s.runs| && s.runs[r].Settling?
  }

  /** Admissions per half-open episode: a new episode starts at zero, and each probe counts in the last one. */
  function EpisodesAfter(episodes: seq<nat>, before: Breaker, after: Breaker, allowed: bool): seq<nat> {
    if !after.state.HalfOpen? then episodes
    else
      var current := if before.state.HalfOpen? && episodes != [] then episodes else episodes + [0];
      if allowed then current[|current| - 1 := current[|current| - 1] + 1] else current
  }

  function After(s: System, step: Step): System
    requires Enabled(s, step)
  {
    match step
    case Pass(seconds) => s.(now := s.now + seconds)
    case Call =>
      var (after, allowed) := Allowed(s.breaker, s.now);
      var t := s.(breaker := after, episodes := EpisodesAfter(s.episodes, s.breaker, after, allowed));
      if allowed then t.(queueLength := s.queueLength + 1, runs := s.runs + [Waiting], admitted := s.admitted + 1)
      else t.(rejected := s.rejected + 1)
    case Acquire(r) =>
      s.(queueLength := s.queueLength - 1, lockHeld := true, inFlight := true, runs := s.runs[r := Executing])
    case RecordSuccess(r) =>
      s.(breaker := AfterSuccess(s.breaker), runs := s.runs[r := Settling(!s.breaker.state.Closed?)], recorded := s.recorded + 1)
    case RecordFailure(r) =>
      s.(breaker := AfterFailure(s.breaker, s.now), runs := s.runs[r := Settling(false)], recorded := s.recorded + 1)
    case AlertRaises(r) => s.(breaker := AfterFailure(s.breaker, s.now), runs := s.runs[r := Settling(false)])
    case Release(r) => s.(lockHeld := false, inFlight := false, runs := s.runs[..r] + s.runs[r + 1..])
  }

  function Fresh(settings: Settings, now: real): System {
    System(FreshBreaker(settings), now, 0, false, false, [], 0, 0, 0, [])
  }

  ghost predicate IsRun(states: seq<System>, steps: seq<Step>) {
    && |states| == |steps| + 1
    && forall i :: 0 <= i < |steps| ==> Enabled(states[i], steps[i]) && states[i + 1] == After(states[i], steps[i])
  }

  // ----- counting runs -----

  /** Waiting for the lock, not recorded yet, or past the lock. */
  datatype Kind = Queued | Unrecorded | Inside

  function Counts(kind: Kind, phase: Phase): nat {
    match kind
    case Queued => if phase.Waiting? then 1 else 0
    case Unrecorded => if phase.Settling? then 0 else 1
    case Inside => if phase.Waiting? then 0 else 1
  }

  function CountOf(kind: Kind, runs: seq<Phase>): nat {
    if runs == [] then 0 else CountOf(kind, runs[..|runs| - 1]) + Counts(kind, runs[|runs| - 1])
  }

  lemma {:induction false} CountConcat(kind: Kind, a: seq<Phase>, b: seq<Phase>)
    ensures CountOf(kind, a + b) == CountOf(kind, a) + CountOf(kind, b)
  {
    hide Counts;
    if b == [] {
      assert a + b == a;
    } else {
      var n := |b| - 1;
      CountConcat(kind, a, b[..n]);
      assert (a + b)[..|a| + n] == a + b[..n];
    }
  }

  lemma CountSplit(kind: Kind, runs: seq<Phase>, r: nat)
    requires r < |runs|
    ensures CountOf(kind, runs) == CountOf(kind, runs[..r]) + Counts(kind, runs[r]) + CountOf(kind, runs[r + 1..])
  {
    hide Counts;
    assert runs == (runs[..r] + [runs[r]]) + runs[r + 1..];
    CountConcat(kind, runs[..r] + [runs[r]], runs[r + 1..]);
    CountConcat(kind, runs[..r], [runs[r]]);
  }

  /** One run changes phase, leaves, or joins. */
  lemma CountMoves(kind: Kind, runs: seq<Phase>, r: nat, phase: Phase)
    requires r < |runs|
    ensures CountOf(kind, runs[r := phase]) == CountOf(kind, runs) - Counts(kind, runs[r]) + Counts(kind, phase)
    ensures CountOf(kind, runs[..r] + runs[r + 1..]) == CountOf(kind, runs) - Counts(kind, runs[r])
  {
    hide Counts;
    CountSplit(kind, runs, r);
    CountSplit(kind, runs[r := phase], r);
    assert runs[r := phase][..r] == runs[..r] && runs[r := phase][r + 1..] == runs[r + 1..];
    CountConcat(kind, runs[..r], runs[r + 1..]);
  }

  /** Admitted runs whose outcome is not recorded yet: queued for the lock, or the one executing. */
  function Outstanding(s: System): nat {
    CountOf(Unrecorded, s.runs)
  }

  /** The run lock does its work: at most one run is past it, and the flags and the queue length say so. */
  ghost predicate LockInv(s: System) {
    && CountOf(Inside, s.runs) == (if s.lockHeld then 1 else 0)
    && s.inFlight == s.lockHeld
    && s.queueLength == CountOf(Queued, s.runs)
  }

  ghost predicate BreakerInv(s: System) {
    var b := s.breaker;
    && (b.state.Closed? ==> 0 <= b.consecutiveFailures < b.settings.failureThreshold)
    && (!b.state.Closed? <==> b.openedAt.Some?)
    && (b.openedAt.Some? ==> b.openedAt.value <= s.now)
    && (forall e :: 0 <= e < |s.episodes| ==> s.episodes[e] <= ProbeLimit(b.settings))
    && (b.state.HalfOpen? ==>
      && s.episodes != [] && b.halfOpenCalls == s.episodes[|s.episodes| - 1]
      && b.halfOpenCalls <= Outstanding(s))
    && s.admitted == Outstanding(s) + s.recorded
  }

  function ProbeLimit(settings: Settings): nat {
    if settings.halfOpenMaxCalls >= 0 then settings.halfOpenMaxCalls else 0
  }

  /** A recovery whose alert is still to be sent has left the breaker closed and without failures. */
  ghost predicate AlertInv(s: System) {
    forall r :: 0 <= r < |s.runs| && s.runs[r] == Settling(true) ==> s.breaker.state.Closed? && s.breaker.consecutiveFailures == 0
  }

  ghost predicate Inv(s: System) {
    BreakerInv(s) && LockInv(s) && AlertInv(s)
  }

  lemma CountJoins(kind: Kind, runs: seq<Phase>)
    ensures CountOf(kind, runs + [Waiting]) == CountOf(kind, runs) + Counts(kind, Waiting)
  {
    CountConcat(kind, runs, [Waiting]);
  }

  lemma CountStep(s: System, step: Step, kind: Kind)
    requires Enabled(s, step)
    ensures var after := CountOf(kind, After(s, step).runs); var before := CountOf(kind, s.runs);
      match step
      case Call => after == before + if Allowed(s.breaker, s.now).1 then Counts(kind, Waiting) else 0
      case Acquire(r) => after == before - Counts(kind, Waiting) + Counts(kind, Executing)
      case RecordSuccess(r) => after == before - Counts(kind, Executing) + Counts(kind, Settling(false))
      case RecordFailure(r) => after == before - Counts(kind, Executing) + Counts(kind, Settling(false))
      case Release(r) => after == before - Counts(kind, Settling(false))
      case _ => after == before
  {
    hide CountOf, Allowed, AfterSuccess, AfterFailure, EpisodesAfter;
    match step
    case Pass(seconds) =>
    case Call => CountJoins(kind, s.runs);
    case Acquire(r) => CountMoves(kind, s.runs, r, Executing);
    case RecordSuccess(r) => CountMoves(kind, s.runs, r, Settling(!s.breaker.state.Closed?));
    case RecordFailure(r) => CountMoves(kind, s.runs, r, Settling(false));
    case AlertRaises(r) => CountMoves(kind, s.runs, r, Settling(false));
    case Release(r) => CountMoves(kind, s.runs, r, Waiting);
  }

  /** A run past the lock holds it. */
  lemma InsideHoldsLock(s: System, r: nat)
    requires LockInv(s) && r < |s.runs| && !s.runs[r].Waiting?
    ensures s.lockHeld
  {
    CountSplit(Inside, s.runs, r);
  }

  lemma LockStep(s: System, step: Step)
    requires LockInv(s) && Enabled(s, step)
    ensures LockInv(After(s, step))
  {
    CountStep(s, step, Inside);
    CountStep(s, step, Queued);
    if step.Release? {
      InsideHoldsLock(s, step.run);
    }
    hide CountOf, Allowed, AfterSuccess, AfterFailure, EpisodesAfter;
  }

  lemma BreakerStep(s: System, step: Step)
    requires s.breaker.settings.failureThreshold >= 1 && BreakerInv(s) && Enabled(s, step)
    ensures BreakerInv(After(s, step)) && After(s, step).breaker.settings == s.breaker.settings
  {
    CountStep(s, step, Unrecorded);
    hide CountOf;
    match step
    case Call => CallStep(s);
    case RecordSuccess(r) => SuccessStep(s, r);
    case RecordFailure(r) => FailureStep(s, step);
    case AlertRaises(r) => FailureStep(s, step);
    case _ => hide Allowed, EpisodesAfter, AfterSuccess, AfterFailure;
  }

  lemma SuccessStep(s: System, r: nat)
    requires s.breaker.settings.failureThreshold >= 1 && BreakerInv(s) && Enabled(s, RecordSuccess(r))
    requires Outstanding(After(s, RecordSuccess(r))) == Outstanding(s) - 1
    ensures BreakerInv(After(s, RecordSuccess(r))) && After(s, RecordSuccess(r)).breaker.settings == s.breaker.settings
  {
    hide Outstanding;
  }

  /** A recorded failure, and a success whose alert raised. */
  lemma FailureStep(s: System, step: Step)
    requires s.breaker.settings.failureThreshold >= 1 && BreakerInv(s) && Enabled(s, step)
    requires step.RecordFailure? || step.AlertRaises?
    requires Outstanding(After(s, step)) == Outstanding(s) - if step.RecordFailure? then 1 else 0
    ensures BreakerInv(After(s, step)) && After(s, step).breaker.settings == s.breaker.settings
  {
    hide Outstanding;
  }

  /** An admission counts in the episode it belongs to, and never beyond the probes. */
  lemma CallStep(s: System)
    requires s.breaker.settings.failureThreshold >= 1 && BreakerInv(s)
    requires Outstanding(After(s, Call)) == Outstanding(s) + if Allowed(s.breaker, s.now).1 then 1 else 0
    ensures BreakerInv(After(s, Call)) && After(s, Call).breaker.settings == s.breaker.settings
  {
    hide Outstanding;
  }

  /** While an alert is outstanding its run holds the lock, so no other run's outcome can come between. */
  lemma AlertStep(s: System, step: Step)
    requires LockInv(s) && AlertInv(s) && Enabled(s, step)
    ensures AlertInv(After(s, step))
  {
    hide CountOf;
    forall r | 0 <= r < |s.runs| && s.runs[r] == Settling(true)
      ensures !step.Acquire? && (step.RecordSuccess? || step.RecordFailure? || step.AlertRaises? || step.Release? ==> step.run == r)
    {
      InsideHoldsLock(s, r);
      if step.RecordSuccess? || step.RecordFailure? || step.AlertRaises? || step.Release? {
        AloneInside(s, r, step.run);
      }
    }
    hide LockInv, EpisodesAfter;
  }

  lemma AloneInside(s: System, i: nat, j: nat)
    requires LockInv(s) && i < |s.runs| && j < |s.runs| && !s.runs[i].Waiting? && !s.runs[j].Waiting?
    ensures i == j
  {
    hide CountOf;
    if i < j {
      TwoInside(s.runs, i, j);
    } else if j < i {
      TwoInside(s.runs, j, i);
    }
  }

  lemma TwoInside(runs: seq<Phase>, i: nat, j: nat)
    requires i < j < |runs| && !runs[i].Waiting? && !runs[j].Waiting?
    ensures CountOf(Inside, runs) >= 2
  {
    CountSplit(Inside, runs, j);
    CountSplit(Inside, runs[..j], i);
    hide CountOf;
    assert runs[..j][i] == runs[i];
  }

  lemma StepKeeps(s: System, step: Step)
    requires s.breaker.settings.failureThreshold >= 1 && Inv(s) && Enabled(s, step)
    ensures Inv(After(s, step)) && After(s, step).breaker.settings == s.breaker.settings
  {
    LockStep(s, step);
    BreakerStep(s, step);
    AlertStep(s, step);
    hide BreakerInv, LockInv, AlertInv, After;
  }

  lemma {:induction false} EveryInterleavingKeeps(states: seq<System>, steps: seq<Step>, k: nat)
    requires IsRun(states, steps) && k < |states|
    requires states[0] == Fresh(states[0].breaker.settings, states[0].now)
    requires states[0].breaker.settings.failureThreshold >= 1
    ensures Inv(states[k]) && states[k].breaker.settings == states[0].breaker.settings
  {
    if k > 0 {
      EveryInterleavingKeeps(states, steps, k - 1);
      StepKeeps(states[k - 1], steps[k - 1]);
    }
  }

  /** No two admitted runs are ever past the run lock together, and the queue length is never negative. */
  lemma OneRunInside(s: System, i: nat, j: nat)
    requires Inv(s) && i < j < |s.runs|
    ensures s.runs[i].Waiting? || s.runs[j].Waiting?
    ensures s.queueLength >= 0
  {
    hide CountOf;
    if !s.runs[i].Waiting? && !s.runs[j].Waiting? {
      AloneInside(s, i, j);
    }
  }

  // ----- when a closed breaker opens -----

  predicate RecordsFailure(step: Step) {
    step.RecordFailure? || step.AlertRaises?
  }

  /** How many failures the steps have recorded since the last success. */
  function FailuresInRow(steps: seq<Step>): nat {
    if steps == [] then 0
    else
      var front, step := FailuresInRow(steps[..|steps| - 1]), steps[|steps| - 1];
      if step.RecordSuccess? then 0 else if RecordsFailure(step) then front + 1 else front
  }

  lemma StreakStep(s: System, step: Step, streak: nat)
    requires Enabled(s, step) && (s.breaker.state.Closed? ==> s.breaker.consecutiveFailures == streak)
    ensures var after := After(s, step).breaker;
      var next := if step.RecordSuccess? then 0 else if RecordsFailure(step) then streak + 1 else streak;
      && (after.state.Closed? ==> after.consecutiveFailures == next)
      && (s.breaker.state.Closed? ==>
        (after.state.Closed? <==> !(RecordsFailure(step) && next >= s.breaker.settings.failureThreshold)))
  {
    hide EpisodesAfter;
  }

  lemma {:induction false} ClosedCountsInRow(states: seq<System>, steps: seq<Step>, k: nat)
    requires IsRun(states, steps) && k < |states|
    requires states[0] == Fresh(states[0].breaker.settings, states[0].now)
    ensures states[k].breaker.state.Closed? ==> states[k].breaker.consecutiveFailures == FailuresInRow(steps[..k])
  {
    if k > 0 {
      ClosedCountsInRow(states, steps, k - 1);
      assert steps[..k][..k - 1] == steps[..k - 1];
      hide After, Enabled;
      StreakStep(states[k - 1], steps[k - 1], FailuresInRow(steps[..k - 1]));
    }
  }

  /** In every interleaving a closed breaker opens exactly at the failure that completes `threshold` of them in a row. */
  lemma OpensExactlyAtThreshold(states: seq<System>, steps: seq<Step>, k: nat)
    requires IsRun(states, steps) && k < |steps| && states[k].breaker.state.Closed?
    requires states[0] == Fresh(states[0].breaker.settings, states[0].now)
    requires states[0].breaker.settings.failureThreshold >= 1
    ensures !states[k + 1].breaker.state.Closed?
      <==> RecordsFailure(steps[k]) && FailuresInRow(steps[..k + 1]) == states[0].breaker.settings.failureThreshold
    ensures FailuresInRow(steps[..k]) < states[0].breaker.settings.failureThreshold
  {
    EveryInterleavingKeeps(states, steps, k);
    ClosedCountsInRow(states, steps, k);
    assert steps[..k + 1][..k] == steps[..k];
    hide After, Enabled, LockInv, AlertInv;
    StreakStep(states[k], steps[k], FailuresInRow(steps[..k]));
  }

  // ----- when a call is admitted -----

  /** Step j opens the breaker: a failure that found it closed or half-open. */
  predicate Opens(states: seq<System>, steps: seq<Step>, j: nat)
    requires j < |steps| && j + 1 < |states|
  {
    RecordsFailure(steps[j]) && !states[j].breaker.state.Open? && states[j + 1].breaker.state.Open?
  }

  /** Step j opened the breaker, which has not closed or opened again before state k. */
  ghost predicate OpenedBy(states: seq<System>, steps: seq<Step>, k: nat, j: nat)
    requires |states| == |steps| + 1 && k < |states|
  {
    && j < k && Opens(states, steps, j)
    && forall m :: j < m < k ==> !Opens(states, steps, m) && !states[m].breaker.state.Closed?
  }

  lemma OpeningStep(s: System, step: Step)
    requires Enabled(s, step)
    ensures var after := After(s, step).breaker; var b := s.breaker;
      && (after.state.Open? && !b.state.Open? ==> RecordsFailure(step) && after.openedAt == Some(s.now))
      && (after.state.HalfOpen? ==> !b.state.Closed?)
      && (!after.state.Closed? && !b.state.Closed? && !(after.state.Open? && !b.state.Open?) ==> after.openedAt == b.openedAt)
      && after.settings == b.settings
  {
    hide EpisodesAfter;
  }

  /** In every run a breaker that is not closed remembers when the failure came that opened it. */
  lemma {:induction false} OpenedWhenItFailed(states: seq<System>, steps: seq<Step>, k: nat) returns (j: nat)
    requires IsRun(states, steps) && k < |states| && !states[k].breaker.state.Closed?
    requires states[0] == Fresh(states[0].breaker.settings, states[0].now)
    ensures OpenedBy(states, steps, k, j) && states[k].breaker.openedAt == Some(states[j].now)
    decreases k
  {
    assert k > 0;
    hide After, Enabled;
    OpeningStep(states[k - 1], steps[k - 1]);
    if states[k].breaker.state.Open? && !states[k - 1].breaker.state.Open? {
      j := k - 1;
    } else {
      j := OpenedWhenItFailed(states, steps, k - 1);
    }
  }

  function OpenCount(states: seq<System>, steps: seq<Step>, k: nat): nat
    requires |states| == |steps| + 1 && k <= |steps|
  {
    if k == 0 then 0 else OpenCount(states, steps, k - 1) + if Opens(states, steps, k - 1) then 1 else 0
  }

  function CallCount(steps: seq<Step>): nat {
    if steps == [] then 0 else CallCount(steps[..|steps| - 1]) + if steps[|steps| - 1].Call? then 1 else 0
  }

  lemma CountersStep(s: System, step: Step)
    requires Enabled(s, step)
    ensures var after := After(s, step);
      && after.breaker.totalOpens
         == s.breaker.totalOpens
            + (if RecordsFailure(step) && !s.breaker.state.Open? && after.breaker.state.Open? then 1 else 0)
      && after.admitted + after.rejected == s.admitted + s.rejected + (if step.Call? then 1 else 0)
  {
    hide EpisodesAfter;
  }

  /** In every run the counters say how often the breaker was opened, and how many calls there were. */
  lemma {:induction false} CountersCount(states: seq<System>, steps: seq<Step>, k: nat)
    requires IsRun(states, steps) && k < |states|
    requires states[0] == Fresh(states[0].breaker.settings, states[0].now)
    ensures states[k].breaker.totalOpens == OpenCount(states, steps, k)
    ensures states[k].admitted + states[k].rejected == CallCount(steps[..k])
  {
    if k > 0 {
      CountersCount(states, steps, k - 1);
      assert steps[..k][..k - 1] == steps[..k - 1];
      hide After, Enabled, RecordsFailure;
      CountersStep(states[k - 1], steps[k - 1]);
    }
  }

  /** Step k lets one more call in. */
  predicate Admits(states: seq<System>, k: nat)
    requires k + 1 < |states|
  {
    states[k + 1].admitted == states[k].admitted + 1
  }

  /**
    In every run a call is admitted by a closed breaker, by an open one exactly from the recovery timeout after the
    failure that opened it on, and by a half-open one exactly while its episode has fewer probes than permitted.
   */
  lemma AdmittedExactlyWhen(states: seq<System>, steps: seq<Step>, k: nat) returns (j: nat)
    requires IsRun(states, steps) && k < |steps| && steps[k].Call?
    requires states[0] == Fresh(states[0].breaker.settings, states[0].now)
    requires states[0].breaker.settings.failureThreshold >= 1
    ensures states[k + 1].admitted + states[k + 1].rejected == states[k].admitted + states[k].rejected + 1
    ensures states[k].breaker.state.Closed? ==> Admits(states, k)
    ensures states[k].breaker.state.Open? ==> OpenedBy(states, steps, k, j)
    ensures states[k].breaker.state.Open? ==>
      (Admits(states, k) <==> states[k].now - states[j].now >= states[0].breaker.settings.recoveryTimeout
                              && states[0].breaker.settings.halfOpenMaxCalls >= 1)
    ensures states[k].breaker.state.HalfOpen? ==> states[k].episodes != []
    ensures states[k].breaker.state.HalfOpen? ==>
      (Admits(states, k) <==> states[k].episodes[|states[k].episodes| - 1] < states[0].breaker.settings.halfOpenMaxCalls)
  {
    EveryInterleavingKeeps(states, steps, k);
    j := 0;
    if !states[k].breaker.state.Closed? {
      j := OpenedWhenItFailed(states, steps, k);
    }
    hide OpenedBy, LockInv, AlertInv, EpisodesAfter, Opens;
  }

  /** A recovery survives an alert that raises exactly if one failure is not enough to trip the breaker. */
  lemma RecoverySurvivesIff(s: System, r: nat)
    requires Inv(s) && Enabled(s, AlertRaises(r))
    ensures After(s, AlertRaises(r)).breaker.state.Closed? <==> s.breaker.settings.failureThreshold > 1
    ensures After(s, AlertRaises(r)).breaker.consecutiveFailures == 1
  {
    assert s.runs[r] == Settling(true);
    hide BreakerInv, LockInv;
  }

  function UndoingSteps(timeout: real): seq<Step> {
    [Call, Acquire(0), RecordFailure(0), Release(0), Pass(timeout), Call, Acquire(0), RecordSuccess(0), AlertRaises(0)]
  }

  /** What the run below has reached after k steps. */
  ghost predicate AtStage(s: System, settings: Settings, k: nat) {
    && s.breaker.settings == settings
    && s.runs == (if k in {0, 4, 5} then [] else if k in {1, 6} then [Waiting] else if k in {2, 7} then [Executing]
                  else [Settling(k == 8)])
    && (k in {0, 1, 5, 6} ==> !s.lockHeld)
    && (k in {0, 1, 2, 8} ==> s.breaker.state.Closed? && s.breaker.consecutiveFailures == 0)
    && (k in {3, 4, 5, 9} ==> s.breaker.state.Open?)
    && (k in {3, 4} ==> s.breaker.openedAt == Some(s.now))
    && (k == 4 ==> !s.lockHeld)
    && (k == 5 ==> HasRecovered(s.breaker, s.now))
    && (k in {6, 7} ==> s.breaker.state.HalfOpen?)
  }

  lemma StageStep(s: System, settings: Settings, k: nat)
    requires settings.failureThreshold == 1 && settings.recoveryTimeout >= 0.0 && settings.halfOpenMaxCalls >= 1
    requires k < 9 && AtStage(s, settings, k)
    ensures var step := UndoingSteps(settings.recoveryTimeout)[k];
      Enabled(s, step) && AtStage(After(s, step), settings, k + 1)
  {
    hide EpisodesAfter;
  }

  /** With a threshold of 1: a call fails, the probe after the timeout succeeds, its alert raises, and the breaker is open. */
  lemma RecoveryUndone(settings: Settings) returns (states: seq<System>, steps: seq<Step>)
    requires settings.failureThreshold == 1 && settings.recoveryTimeout >= 0.0 && settings.halfOpenMaxCalls >= 1
    ensures IsRun(states, steps) && states[0] == Fresh(settings, 0.0)
    ensures steps == [Call, Acquire(0), RecordFailure(0), Release(0), Pass(settings.recoveryTimeout),
                      Call, Acquire(0), RecordSuccess(0), AlertRaises(0)]
    ensures states[8].breaker.state.Closed? && states[9].breaker.state.Open?
  {
    hide *;
    steps := UndoingSteps(settings.recoveryTimeout);
    UndoingStepsAre(settings.recoveryTimeout);
    states := [Fresh(settings, 0.0)];
    StageStart(settings);
    for k := 0 to 9
      invariant |states| == k + 1 && states[0] == Fresh(settings, 0.0)
      invariant forall i :: 0 <= i < k ==> Enabled(states[i], steps[i]) && states[i + 1] == After(states[i], steps[i])
      invariant forall i :: 0 <= i <= k ==> AtStage(states[i], settings, i)
    {
      StageStep(states[k], settings, k);
      states := states + [After(states[k], steps[k])];
    }
    StageEnd(states[8], states[9], settings);
    StepsMakeRun(states, steps);
  }

  lemma UndoingStepsAre(timeout: real)
    ensures UndoingSteps(timeout) == [Call, Acquire(0), RecordFailure(0), Release(0), Pass(timeout),
                                      Call, Acquire(0), RecordSuccess(0), AlertRaises(0)]
  {
  }

  lemma StepsMakeRun(states: seq<System>, steps: seq<Step>)
    requires |states| == |steps| + 1
    requires forall i :: 0 <= i < |steps| ==> Enabled(states[i], steps[i]) && states[i + 1] == After(states[i], steps[i])
    ensures IsRun(states, steps)
  {
  }

  lemma StageStart(settings: Settings)
    ensures AtStage(Fresh(settings, 0.0), settings, 0)
  {
  }

  lemma StageEnd(s: System, t: System, settings: Settings)
    requires AtStage(s, settings, 8) && AtStage(t, settings, 9)
    ensures s.breaker.state.Closed? && t.breaker.state.Open?
  {
  }

  /**
    A half-open breaker never wedges: when it turns a caller away although probes are permitted, an admitted
    run is still outstanding, and recording any outcome leaves the half-open state.
   */
  lemma HalfOpenResolves(s: System)
    requires Inv(s) && s.breaker.state.HalfOpen? && s.breaker.settings.halfOpenMaxCalls >= 1
    requires !Allowed(s.breaker, s.now).1
    ensures Outstanding(s) >= 1
    ensures AfterSuccess(s.breaker).state.Closed? && AfterFailure(s.breaker, s.now).state.Open?
  {
  }

  /** With a threshold below 1 the closed-state invariant fails from the start. */
  lemma ZeroThresholdNeverFits(settings: Settings, now: real)
    ensures Inv(Fresh(settings, now)) <==> settings.failureThreshold >= 1
  {
  }

  // ----- admissions of an always-failing dependency -----

  /** A call is made at `at` and, if admitted, fails at `failsAt`. */
  datatype FailingCall = FailingCall(at: real, failsAt: real)

  /** Each call is over before the next is made. */
  predicate Sequential(calls: seq<FailingCall>) {
    && (forall i :: 0 <= i < |calls| ==> calls[i].at <= calls[i].failsAt)
    && (forall i :: 0 <= i < |calls| - 1 ==> calls[i].failsAt <= calls[i + 1].at)
  }

  /** The breaker and the number of admissions after a sequence of failing calls. */
  function AfterCalls(b: Breaker, calls: seq<FailingCall>): (r: (Breaker, nat))
  {
    if calls == [] then (b, 0)
    else
      var call := calls[|calls| - 1];
      var (before, admitted) := AfterCalls(b, calls[..|calls| - 1]);
      var (after, allowed) := Allowed(before, call.at);
      if allowed then (AfterFailure(after, call.failsAt), admitted + 1) else (after, admitted)
  }

  /** What the admissions so far cost in time: beyond the threshold, one recovery timeout each. */
  ghost predicate WithinBudget(settings: Settings, b: Breaker, admitted: nat, start: real) {
    && b.settings == settings
    && (b.state.Closed? ==> admitted == b.consecutiveFailures < settings.failureThreshold)
    && (!b.state.Closed? ==> b.openedAt.Some?)
    && (!b.state.Closed? ==>
      Mul(settings.recoveryTimeout, (admitted - settings.failureThreshold) as real) <= b.openedAt.value - start)
    && (b.state.HalfOpen? ==> b.halfOpenCalls >= settings.halfOpenMaxCalls)
  }

  lemma {:induction false} CallsStayWithinBudget(settings: Settings, calls: seq<FailingCall>)
    requires settings.failureThreshold >= 1 && settings.recoveryTimeout > 0.0
    requires Sequential(calls) && calls != []
    ensures var (b, admitted) := AfterCalls(FreshBreaker(settings), calls);
      && WithinBudget(settings, b, admitted, calls[0].at)
      && (b.openedAt.Some? ==> calls[0].at <= b.openedAt.value <= calls[|calls| - 1].failsAt)
  {
    var n := |calls| - 1;
    var call := calls[n];
    if n == 0 {
      assert calls[..0] == [];
      assert AfterCalls(FreshBreaker(settings), calls[..0]) == (FreshBreaker(settings), 0);
    } else {
      CallsStayWithinBudget(settings, calls[..n]);
      assert calls[..n][0] == calls[0] && calls[..n][n - 1] == calls[n - 1];
      TimesAscend(calls, n);
      var (before, admitted) := AfterCalls(FreshBreaker(settings), calls[..n]);
      BudgetOfCall(settings, before, admitted, call, calls[0].at);
    }
  }

  lemma BudgetOfCall(settings: Settings, before: Breaker, admitted: nat, call: FailingCall, start: real)
    requires settings.failureThreshold >= 1 && settings.recoveryTimeout > 0.0
    requires WithinBudget(settings, before, admitted, start)
    requires start <= call.at <= call.failsAt
    requires before.openedAt.Some? ==> start <= before.openedAt.value <= call.at
    ensures var (after, allowed) := Allowed(before, call.at);
      var b := if allowed then AfterFailure(after, call.failsAt) else after;
      && WithinBudget(settings, b, if allowed then admitted + 1 else admitted, start)
      && (b.openedAt.Some? ==> start <= b.openedAt.value <= call.failsAt)
  {
    var excess := (admitted - settings.failureThreshold) as real;
    MulDistributes(settings.recoveryTimeout, excess, 1.0);
    assert Mul(settings.recoveryTimeout, 1.0) == settings.recoveryTimeout;
    assert (admitted + 1 - settings.failureThreshold) as real == excess + 1.0;
    MulZero(settings.recoveryTimeout);
    hide Mul;
  }

  lemma {:induction false} TimesAscend(calls: seq<FailingCall>, n: nat)
    requires Sequential(calls) && n < |calls|
    ensures calls[0].at <= calls[n].at
    ensures n > 0 ==> calls[n - 1].failsAt <= calls[n].at
  {
    if n > 0 {
      TimesAscend(calls, n - 1);
    }
  }

  /** At most threshold + T / timeout calls get through in T seconds of a dependency that always fails. */
  lemma AdmissionsAreBounded(settings: Settings, calls: seq<FailingCall>)
    requires settings.failureThreshold >= 1 && settings.recoveryTimeout > 0.0
    requires Sequential(calls) && calls != []
    ensures AfterCalls(FreshBreaker(settings), calls).1 as real
         <= settings.failureThreshold as real
            + (calls[|calls| - 1].failsAt - calls[0].at) / settings.recoveryTimeout
  {
    CallsStayWithinBudget(settings, calls);
    var (b, admitted) := AfterCalls(FreshBreaker(settings), calls);
    var span := calls[|calls| - 1].failsAt - calls[0].at;
    TimesAscend(calls, |calls| - 1);
    assert span >= 0.0;
    QuotientOfSpan(settings.recoveryTimeout, (admitted - settings.failureThreshold) as real, span);
    hide Mul;
  }

  lemma QuotientOfSpan(timeout: real, excess: real, span: real)
    requires timeout > 0.0 && span >= 0.0
    ensures Mul(timeout, excess) <= span ==> excess <= span / timeout
    ensures span / timeout >= 0.0
  {
    assert span / timeout * timeout == span;
    if excess > span / timeout {
      MulPositive(excess - span / timeout, timeout);
    }
  }

  /** Up to the threshold every call of a failing dependency gets through, and only the last of them opens the breaker. */
  lemma {:induction false} FirstCallsAreAdmitted(settings: Settings, calls: seq<FailingCall>)
    requires |calls| <= settings.failureThreshold && settings.failureThreshold >= 1
    ensures var (b, admitted) := AfterCalls(FreshBreaker(settings), calls);
      && admitted == |calls| == b.consecutiveFailures && b.settings == settings
      && (b.state.Closed? <==> |calls| < settings.failureThreshold)
  {
    if calls != [] {
      FirstCallsAreAdmitted(settings, calls[..|calls| - 1]);
    }
  }

  // ----- the collector object -----

  class Collector {
    const breaker: CircuitBreaker
    var queueLength: int
    var lockHeld: bool
    var inFlight: bool
    /** The admitted runs that have not returned yet. */
    var runs: seq<Phase>
    var retryCount: nat
    ghost var admitted: nat
    ghost var rejected: nat
    ghost var recorded: nat
    ghost var episodes: seq<nat>

    ghost function State(now: real): System
      reads this, breaker
    {
      System(breaker.Value(), now, queueLength, lockHeld, inFlight, runs, admitted, rejected, recorded, episodes)
    }

    /** The invariant of every run, with a threshold that a fresh breaker is below. */
    ghost predicate Sound(now: real)
      reads this, breaker
    {
      breaker.settings.failureThreshold >= 1 && Inv(State(now))
    }

    constructor (settings: Settings)
      ensures fresh(breaker) && forall now :: State(now) == Fresh(settings, now)
      ensures settings.failureThreshold >= 1 ==> forall now :: Sound(now)
      ensures retryCount == 0
    {
      breaker := new CircuitBreaker(settings);
      queueLength, lockHeld, inFlight, runs, retryCount := 0, false, false, [], 0;
      admitted, rejected, recorded, episodes := 0, 0, 0, [];
    }

    /** run_once up to its wait for the run lock, past the market-hours gates. */
    method Admit(now: real) returns (allowed: bool)
      modifies this, breaker
      ensures State(now) == After(old(State(now)), Call)
      ensures old(Sound(now)) ==> Sound(now)
      ensures allowed <==> queueLength == old(queueLength) + 1
    {
      if Sound(now) {
        StepKeeps(State(now), Call);
      }
      hide Inv;
      ghost var before := breaker.Value();
      allowed := breaker.AllowRequest(now);
      episodes := EpisodesAfter(episodes, before, breaker.Value(), allowed);
      if allowed {
        queueLength, runs, admitted := queueLength + 1, runs + [Waiting], admitted + 1;
      } else {
        rejected := rejected + 1;
      }
    }

    /** The lock is free: a waiting run starts. */
    method TakeLock(r: nat, now: real)
      requires Enabled(State(now), Acquire(r))
      modifies this
      ensures State(now) == After(old(State(now)), Acquire(r))
      ensures old(Sound(now)) ==> Sound(now)
    {
      if Sound(now) {
        StepKeeps(State(now), Acquire(r));
      }
      hide Inv;
      lockHeld := true;
      queueLength := queueLength - 1;
      inFlight := true;
      runs := runs[r := Executing];
    }

    /** collect() with a flat number of retries: the first success, or failure once all attempts have failed. */
    method CollectWithRetry(retryAttempts: int, succeeds: nat -> bool) returns (attempt: Option<nat>)
      modifies this`retryCount
      ensures var attempts := if retryAttempts > 0 then retryAttempts else 0;
        && (attempt.None? <==> forall a: nat :: 1 <= a <= attempts + 1 ==> !succeeds(a))
        && (attempt.Some? ==> 1 <= attempt.value <= attempts + 1 && succeeds(attempt.value))
        && (attempt.Some? ==> forall a: nat :: 1 <= a < attempt.value ==> !succeeds(a))
        && retryCount == old(retryCount) + if attempt.Some? then attempt.value - 1 else attempts
    {
      var attempts: nat := if retryAttempts > 0 then retryAttempts else 0;
      for a := 1 to attempts + 2
        invariant forall j: nat :: 1 <= j < a ==> !succeeds(j)
        invariant retryCount == old(retryCount) + if a <= attempts + 1 then a - 1 else attempts
      {
        if succeeds(a) {
          return Some(a);
        }
        if a > attempts {
          return None;
        }
        retryCount := retryCount + 1;
      }
      return None;
    }

    /** The run ended and its outcome is recorded; the lock is still held. */
    method RecordOutcome(r: nat, now: real, succeeded: bool)
      requires r < |runs| && runs[r].Executing?
      modifies this, breaker
      ensures State(now) == After(old(State(now)), if succeeded then RecordSuccess(r) else RecordFailure(r))
      ensures old(Sound(now)) ==> Sound(now)
    {
      if Sound(now) {
        StepKeeps(State(now), if succeeded then RecordSuccess(r) else RecordFailure(r));
      }
      hide Inv;
      recorded := recorded + 1;
      if succeeded {
        var recovered := breaker.RecordSuccess();
        runs := runs[r := Settling(recovered)];
      } else {
        var _ := breaker.RecordFailure(now);
        runs := runs[r := Settling(false)];
      }
    }

    /** Sending the recovery alert raised inside the guarded block: the run counts as a failure after all. */
    method OnAlertError(r: nat, now: real)
      requires Enabled(State(now), AlertRaises(r))
      modifies this, breaker
      ensures State(now) == After(old(State(now)), AlertRaises(r))
      ensures old(Sound(now)) ==> Sound(now)
    {
      if Sound(now) {
        StepKeeps(State(now), AlertRaises(r));
      }
      hide Inv;
      var _ := breaker.RecordFailure(now);
      runs := runs[r := Settling(false)];
    }

    method ReleaseLock(r: nat, now: real)
      requires Enabled(State(now), Release(r))
      modifies this
      ensures State(now) == After(old(State(now)), Release(r))
      ensures old(Sound(now)) ==> Sound(now)
    {
      if Sound(now) {
        StepKeeps(State(now), Release(r));
      }
      hide Inv;
      inFlight := false;
      lockHeld := false;
      runs := runs[..r] + runs[r + 1..];
    }
  }
}
