/** BoundedShadowScheduler of src/contradictions.ts, and the runtime around it that counts running
    classifications and shuts both down.  A synchronous stretch of JavaScript is one step; when a
    job's promise settles, and who calls next, is arbitrary. */
module ShadowScheduler {
  import opened Prelude

  const MAX_SHADOW_MAX_IN_FLIGHT: nat := 32
  const MAX_SHADOW_MAX_QUEUED: nat := 1000

  datatype Limits = Limits(maxInFlight: nat, maxQueued: nat)

  /** The ranges the policy parser admits. */
  predicate Allowed(c: Limits) {
    1 <= c.maxInFlight <= MAX_SHADOW_MAX_IN_FLIGHT && c.maxQueued <= MAX_SHADOW_MAX_QUEUED
  }

  type Job = nat

  type Caller = nat

  /** The scheduler's fields, followed by what has happened: the jobs it accepted, started and
      dropped, in order; which of the started have settled; and which closing callers have been
      answered. */
  datatype Shadows = Shadows(
    active: nat, accepting: bool, queue: seq<Job>, idleWaiters: set<Caller>,
    accepted: seq<Job>, started: seq<Job>, dropped: seq<Job>, settled: set<nat>, answered: set<Caller>)

  function Start(s: Shadows, job: Job): Shadows {
    s.(active := s.active + 1, started := s.started + [job])
  }

  /** schedule: run it, queue it, or refuse it. */
  function Schedule(c: Limits, s: Shadows, job: Job): Shadows {
    if !s.accepting then s
    else if s.active < c.maxInFlight then Start(s.(accepted := s.accepted + [job]), job)
    else if |s.queue| >= c.maxQueued then s
    else s.(queue := s.queue + [job], accepted := s.accepted + [job])
  }

  function Wake(s: Shadows): Shadows {
    if s.active == 0 && |s.queue| == 0 then s.(idleWaiters := {}, answered := s.answered + s.idleWaiters) else s
  }

  predicate Running(s: Shadows, k: nat) {
    k < |s.started| && k !in s.settled && s.active > 0
  }

  /** The finally block of the k-th started job. */
  function Settle(s: Shadows, k: nat): Shadows
    requires Running(s, k)
  {
    var freed := s.(active := s.active - 1, settled := s.settled + {k});
    Wake(if s.accepting && |s.queue| > 0 then Start(freed.(queue := s.queue[1..]), s.queue[0]) else freed)
  }

  /** closeAndDrain up to its await. */
  function Close(s: Shadows, caller: Caller): Shadows {
    var closed := s.(accepting := false, queue := [], dropped := s.dropped + s.queue);
    if s.active == 0 then closed.(answered := s.answered + {caller})
    else closed.(idleWaiters := s.idleWaiters + {caller})
  }

  const FRESH_SHADOWS := Shadows(0, true, [], {}, [], [], [], {}, {})

  // ---------------------------------------------------------------- what every step keeps

  predicate WithinLimits(c: Limits, s: Shadows) {
    s.active <= c.maxInFlight && |s.queue| <= c.maxQueued && (|s.queue| > 0 ==> s.active == c.maxInFlight)
  }

  /** Jobs start in the order they were accepted; each accepted job is started, waiting or dropped,
      and only closing drops. */
  predicate InOrder(s: Shadows) {
    && s.accepted == s.started + s.queue + s.dropped
    && (|s.dropped| > 0 ==> !s.accepting) && (!s.accepting ==> |s.queue| == 0)
  }

  predicate Counted(s: Shadows) {
    s.active == |s.started| - |s.settled| && forall k :: k in s.settled ==> k < |s.started|
  }

  /** No lost wakeup: a caller waits exactly while something is active. */
  predicate AnsweredWhenIdle(s: Shadows) {
    && (s.idleWaiters != {} ==> s.active > 0 && !s.accepting)
    && (s.answered != {} ==> s.active == 0 && !s.accepting)
  }

  predicate Sound(c: Limits, s: Shadows) {
    WithinLimits(c, s) && InOrder(s) && Counted(s) && AnsweredWhenIdle(s)
  }

  /** A job is taken exactly when the scheduler is open and has a slot or a place in the queue; it
      starts at once exactly when it finds a slot. */
  lemma ScheduleTakesIff(c: Limits, s: Shadows, job: Job)
    ensures Schedule(c, s, job).accepted == s.accepted + [job] <==>
      s.accepting && (s.active < c.maxInFlight || |s.queue| < c.maxQueued)
    ensures Schedule(c, s, job).started == s.started + [job] <==> s.accepting && s.active < c.maxInFlight
    ensures Schedule(c, s, job).accepted == s.accepted ==> Schedule(c, s, job) == s
  {
  }

  /** A settled job's slot goes to the longest-waiting job, if one waits; otherwise it is freed. */
  lemma SettleHandsOn(c: Limits, s: Shadows, k: nat)
    requires Sound(c, s) && Running(s, k)
    ensures |s.queue| > 0 ==> Settle(s, k).started == s.started + [s.queue[0]] && Settle(s, k).active == s.active
    ensures |s.queue| == 0 ==> Settle(s, k).started == s.started && Settle(s, k).active == s.active - 1
    ensures Settle(s, k).queue == if |s.queue| > 0 then s.queue[1..] else []
  {
  }

  lemma ScheduleKeepsSound(c: Limits, s: Shadows, job: Job)
    requires Allowed(c) && Sound(c, s)
    ensures Sound(c, Schedule(c, s, job))
  {
  }

  lemma CloseKeepsSound(c: Limits, s: Shadows, caller: Caller)
    requires Allowed(c) && Sound(c, s)
    ensures Sound(c, Close(s, caller))
  {
  }

  // ---------------------------------------------------------------- the runtime

  /** What the configuration key is made of: the budget's fingerprint is absent without a budget, and
      `rest` stands for the fingerprint, the endpoint, the timeout and the mutation settings. */
  datatype Policy = Policy(budget: bool, limits: Limits, rest: nat)

  /** Module state: the shutdown flag, the configuration the runtime was created for if it exists,
      and its counters; and the callers of shutdown, those that found no runtime being answered at
      once. */
  datatype Runtime = Runtime(
    accepting: bool, config: Option<Policy>, shadows: Shadows, classifications: nat,
    waiters: set<Caller>, answered: set<Caller>, unneeded: set<Caller>, callers: set<Caller>)

  const FRESH_RUNTIME := Runtime(true, None, FRESH_SHADOWS, 0, {}, {}, {}, {})

  datatype Refusal = ShadowShutdown | ShadowSaturated | RuntimeConfigChanged | BudgetModelMissing

  /** runtimeState: it fails without a budget, or when the runtime was created for another
      configuration. */
  predicate Available(r: Runtime, policy: Policy) {
    policy.budget && (r.config.Some? ==> r.config.value == policy)
  }

  function UnavailableReason(r: Runtime, policy: Policy): Refusal {
    if policy.budget && r.config.Some? then RuntimeConfigChanged else BudgetModelMissing
  }

  function ScheduleShadow(r: Runtime, policy: Policy, job: Job): Runtime {
    if r.accepting && Available(r, policy)
    then r.(config := Some(policy), shadows := Schedule(policy.limits, r.shadows, job))
    else r
  }

  /** A classification may create the runtime even after shutdown; it is then refused. */
  function BeginClassification(r: Runtime, policy: Policy): Runtime {
    if !Available(r, policy) then r
    else if !r.accepting then r.(config := Some(policy))
    else r.(config := Some(policy), classifications := r.classifications + 1)
  }

  function FinishClassification(r: Runtime): Runtime
    requires r.classifications > 0
  {
    if r.classifications == 1 then r.(classifications := 0, waiters := {}, answered := r.answered + r.waiters)
    else r.(classifications := r.classifications - 1)
  }

  /** shutdownContradictionRuntime up to its await. */
  function Shutdown(r: Runtime, caller: Caller): Runtime {
    var called := r.(accepting := false, callers := r.callers + {caller});
    if r.config.None? then called.(unneeded := r.unneeded + {caller})
    else
      var closed := called.(shadows := Close(r.shadows, caller));
      if r.classifications == 0 then closed.(answered := r.answered + {caller})
      else closed.(waiters := r.waiters + {caller})
  }

  datatype Step =
    | ScheduleStep(policy: Policy, job: Job)
    | SettleStep(index: nat)
    | BeginStep(policy: Policy)
    | FinishStep
    | ShutdownStep(caller: Caller)

  predicate Enabled(r: Runtime, step: Step) {
    match step
    case SettleStep(k) => Running(r.shadows, k)
    case FinishStep => r.classifications > 0
    case ShutdownStep(caller) => caller !in r.callers
    case _ => true
  }

  /** A step that is not enabled does not happen. */
  function Next(r: Runtime, step: Step): Runtime {
    if !Enabled(r, step) then r else
    match step
    case ScheduleStep(policy, job) => ScheduleShadow(r, policy, job)
    case SettleStep(k) => r.(shadows := Settle(r.shadows, k))
    case BeginStep(policy) => BeginClassification(r, policy)
    case FinishStep => FinishClassification(r)
    case ShutdownStep(caller) => Shutdown(r, caller)
  }

  function Run(steps: seq<Step>): Runtime {
    if |steps| == 0 then FRESH_RUNTIME else Next(Run(steps[..|steps| - 1]), steps[|steps| - 1])
  }

  predicate AllowedStep(step: Step) {
    (step.ScheduleStep? || step.BeginStep?) ==> Allowed(step.policy.limits)
  }

  predicate AllowedSteps(steps: seq<Step>) {
    forall i :: 0 <= i < |steps| ==> AllowedStep(steps[i])
  }

  /** Every caller of shutdown is answered or waiting, and waits only while something runs. */
  predicate Accounted(r: Runtime) {
    && r.callers == r.shadows.answered + r.shadows.idleWaiters + r.unneeded
    && r.callers == r.answered + r.waiters + r.unneeded
    && (r.waiters != {} ==> r.classifications > 0)
    && (r.answered != {} ==> r.classifications == 0)
  }

  /** After shutdown nothing new starts; if no runtime existed then, nothing ever ran. */
  predicate ShutDown(r: Runtime) {
    && (!r.shadows.accepting ==> !r.accepting)
    && (r.accepting ==> r.callers == {})
    && (r.config.None? ==> r.shadows == FRESH_SHADOWS && r.classifications == 0)
    && (!r.accepting && r.shadows.accepting ==> r.shadows.active == 0 && r.classifications == 0)
    && (r.unneeded != {} ==> r.shadows.active == 0 && r.classifications == 0)
  }

  /** The scheduler keeps to the limits of the configuration the runtime was created for. */
  predicate SoundAsConfigured(r: Runtime) {
    r.config.Some? ==>
      r.config.value.budget && Allowed(r.config.value.limits) && Sound(r.config.value.limits, r.shadows)
  }

  predicate Valid(r: Runtime) {
    SoundAsConfigured(r) && Accounted(r) && ShutDown(r)
  }

  lemma FreshIsSound(c: Limits)
    ensures Sound(c, FRESH_SHADOWS)
  {
  }

  lemma ScheduleKeepsValid(r: Runtime, policy: Policy, job: Job)
    requires Allowed(policy.limits) && Valid(r)
    ensures Valid(ScheduleShadow(r, policy, job))
  {
    if r.accepting && Available(r, policy) {
      FreshIsSound(policy.limits);
      hide WithinLimits, InOrder, Counted;
      ScheduleKeepsSound(policy.limits, r.shadows, job);
    }
  }

  lemma ShutdownKeepsValid(r: Runtime, caller: Caller)
    requires Valid(r)
    ensures Valid(Shutdown(r, caller))
  {
    hide WithinLimits, InOrder, Counted;
    if r.config.Some? { CloseKeepsSound(r.config.value.limits, r.shadows, caller); }
  }

  lemma SettleKeepsValid(r: Runtime, k: nat)
    requires Valid(r) && Running(r.shadows, k)
    ensures Valid(r.(shadows := Settle(r.shadows, k)))
  {
  }

  lemma NextKeepsValid(r: Runtime, step: Step)
    requires AllowedStep(step) && Valid(r)
    ensures Valid(Next(r, step))
  {
    match step
    case ScheduleStep(policy, job) => ScheduleKeepsValid(r, policy, job);
    case SettleStep(k) => if Running(r.shadows, k) { SettleKeepsValid(r, k); }
    case BeginStep(policy) => FreshIsSound(policy.limits);
    case ShutdownStep(caller) => ShutdownKeepsValid(r, caller);
    case FinishStep =>
  }

  /** Every reachable runtime respects the limits it was created with, keeps slots busy while jobs
      wait, and starts jobs first come, first served. */
  lemma {:induction false} RunIsValid(steps: seq<Step>)
    requires AllowedSteps(steps)
    ensures Valid(Run(steps))
  {
    if |steps| > 0 {
      RunIsValid(steps[..|steps| - 1]);
      NextKeepsValid(Run(steps[..|steps| - 1]), steps[|steps| - 1]);
    }
  }

  // ---------------------------------------------------------------- refusals

  /** The reason scheduleShadowClassification gives, if it refuses. */
  function ScheduleRefusal(r: Runtime, policy: Policy): Option<Refusal> {
    if !r.accepting then Some(ShadowShutdown)
    else if !Available(r, policy) then Some(UnavailableReason(r, policy))
    else if !r.shadows.accepting then Some(ShadowShutdown)
    else if r.shadows.active >= policy.limits.maxInFlight && |r.shadows.queue| >= policy.limits.maxQueued
    then Some(ShadowSaturated)
    else None
  }

  /** The slots and the queue of the runtime are full. */
  predicate Saturated(r: Runtime) {
    && r.config.Some? && r.shadows.active == r.config.value.limits.maxInFlight
    && |r.shadows.queue| == r.config.value.limits.maxQueued
  }

  /** In a reachable runtime a job is taken exactly when it is not refused; each reason has its exact
      condition; and a refusal changes nothing. */
  lemma RefusedExactly(steps: seq<Step>, policy: Policy, job: Job)
    requires AllowedSteps(steps) && Allowed(policy.limits)
    ensures var r, why := Run(steps), ScheduleRefusal(Run(steps), policy);
      && ScheduleShadow(r, policy, job).shadows.accepted == r.shadows.accepted + (if why.None? then [job] else [])
      && (why.Some? ==> ScheduleShadow(r, policy, job) == r)
      && (why == Some(ShadowShutdown) <==> !r.accepting)
      && (why == Some(BudgetModelMissing) <==> r.accepting && !policy.budget)
      && (why == Some(RuntimeConfigChanged) <==> r.accepting && policy.budget && r.config !in {None, Some(policy)})
      && (why == Some(ShadowSaturated) <==> r.accepting && r.config == Some(policy) && Saturated(r))
  {
    RunIsValid(steps);
  }

  /** The configuration is that of the first step that found a budget, whatever came after. */
  lemma {:induction false} RunKeepsConfig(steps: seq<Step>, n: nat)
    requires n <= |steps| && Run(steps[..n]).config.Some?
    ensures Run(steps).config == Run(steps[..n]).config
  {
    if n < |steps| {
      var before := steps[..|steps| - 1];
      assert steps[..n] == before[..n];
      RunKeepsConfig(before, n);
    } else {
      assert steps[..n] == steps;
    }
  }

  // ---------------------------------------------------------------- what is running, from the history

  /** No shutdown was called. */
  predicate Open(steps: seq<Step>) {
    forall i :: 0 <= i < |steps| ==> !steps[i].ShutdownStep?
  }

  /** The policy of the first step that found a budget: an attempt to begin, or to schedule before a
      shutdown. */
  function Settings(steps: seq<Step>): Option<Policy> {
    if |steps| == 0 then None
    else
      var init, last := steps[..|steps| - 1], steps[|steps| - 1];
      if Settings(init).Some? then Settings(init)
      else if last.BeginStep? && last.policy.budget then Some(last.policy)
      else if last.ScheduleStep? && last.policy.budget && Open(init) then Some(last.policy)
      else None
  }

  lemma {:induction false} RunIsOpen(steps: seq<Step>)
    ensures Run(steps).accepting <==> Open(steps)
    ensures Run(steps).config == Settings(steps)
    ensures Open(steps) ==> Run(steps).callers == {}
  {
    if |steps| > 0 {
      var init, last := steps[..|steps| - 1], steps[|steps| - 1];
      RunIsOpen(init);
      assert steps == init + [last];
      assert Open(steps) <==> Open(init) && !last.ShutdownStep?;
    }
  }

  /** A classification is let in before a shutdown, with a budget and no other settings in force. */
  predicate LetIn(before: seq<Step>, policy: Policy) {
    Open(before) && policy.budget && (Settings(before) == None || Settings(before) == Some(policy))
  }

  function Begun(steps: seq<Step>): nat {
    if |steps| == 0 then 0
    else
      var init, last := steps[..|steps| - 1], steps[|steps| - 1];
      Begun(init) + if last.BeginStep? && LetIn(init, last.policy) then 1 else 0
  }

  /** A classification can only finish once it has begun. */
  function Finished(steps: seq<Step>): nat {
    if |steps| == 0 then 0
    else
      var init, last := steps[..|steps| - 1], steps[|steps| - 1];
      Finished(init) + if last.FinishStep? && Finished(init) < Begun(init) then 1 else 0
  }

  /** The runtime counts the classifications that were let in and have not finished. */
  lemma {:induction false} ClassificationsAreCounted(steps: seq<Step>)
    ensures Finished(steps) <= Begun(steps)
    ensures Run(steps).classifications == Begun(steps) - Finished(steps)
  {
    if |steps| > 0 {
      ClassificationsAreCounted(steps[..|steps| - 1]);
      RunIsOpen(steps[..|steps| - 1]);
      hide Open, Settings, Schedule, Settle, Close;
    }
  }

  predicate Returned(r: Runtime, caller: Caller) {
    caller in r.unneeded || (caller in r.shadows.answered && caller in r.answered)
  }

  predicate Idle(r: Runtime) {
    r.shadows.active == 0 && r.classifications == 0
  }

  /** Jobs that were started and have not settled. */
  function Unsettled(r: Runtime): set<nat> {
    set k: nat | k < |r.shadows.started| && k !in r.shadows.settled
  }

  lemma ActiveAreUnsettled(c: Limits, r: Runtime)
    requires Sound(c, r.shadows)
    ensures |Unsettled(r)| == r.shadows.active
  {
    var all := Below(|r.shadows.started|);
    assert r.shadows.settled <= all && Unsettled(r) == all - r.shadows.settled;
  }

  function Below(n: nat): (s: set<nat>)
    ensures |s| == n && forall k: nat :: k in s <==> k < n
  {
    if n == 0 then {} else Below(n - 1) + {n - 1}
  }

  /** A shutdown call has returned exactly when every started job has settled and every classification
      let in has finished. */
  lemma ShutdownReturnsExactlyWhenIdle(steps: seq<Step>, caller: Caller)
    requires AllowedSteps(steps) && caller in Run(steps).callers
    ensures Returned(Run(steps), caller) <==> Idle(Run(steps))
    ensures Returned(Run(steps), caller) <==> Unsettled(Run(steps)) == {} && Finished(steps) == Begun(steps)
  {
    RunIsValid(steps);
    ClassificationsAreCounted(steps);
    ActiveOfRun(steps);
  }

  lemma ActiveOfRun(steps: seq<Step>)
    requires AllowedSteps(steps)
    ensures |Unsettled(Run(steps))| == Run(steps).shadows.active
  {
    RunIsValid(steps);
    var r := Run(steps);
    if r.config.Some? {
      ActiveAreUnsettled(r.config.value.limits, r);
    } else {
      assert Unsettled(r) == {};
    }
  }

  /** Once shutdown is called, no step starts anything, and the idle state it waits for is final. */
  lemma ShutdownOnlyShrinks(r: Runtime, step: Step)
    requires Valid(r) && !r.accepting
    ensures var n := Next(r, step);
      && !n.accepting && n.shadows.started == r.shadows.started && n.shadows.accepted == r.shadows.accepted
      && n.shadows.active <= r.shadows.active && n.classifications <= r.classifications
  {
  }

  /** What is still running. */
  function Outstanding(steps: seq<Step>): int {
    |Unsettled(Run(steps))| + Begun(steps) - Finished(steps)
  }

  /** While a shutdown caller waits, some job can settle or some classification finish, and that brings
      the answer one closer. */
  lemma WaitingCallerProgresses(steps: seq<Step>, caller: Caller) returns (step: Step)
    requires AllowedSteps(steps) && caller in Run(steps).callers && !Returned(Run(steps), caller)
    ensures step.SettleStep? || step.FinishStep?
    ensures step.SettleStep? ==> step.index in Unsettled(Run(steps))
    ensures step.FinishStep? ==> Finished(steps) < Begun(steps)
    ensures Outstanding(steps + [step]) == Outstanding(steps) - 1
  {
    RunIsValid(steps);
    step := WaitingStateProgresses(Run(steps), caller);
    assert (steps + [step])[..|steps|] == steps;
    ClassificationsAreCounted(steps);
    ClassificationsAreCounted(steps + [step]);
    ActiveOfRun(steps);
    ActiveOfRun(steps + [step]);
    hide Next, Begun, Finished, Unsettled;
  }

  lemma WaitingStateProgresses(r: Runtime, caller: Caller) returns (step: Step)
    requires Valid(r) && caller in r.callers && !Returned(r, caller)
    ensures Enabled(r, step)
    ensures var n := Next(r, step); n.shadows.active + n.classifications + 1 == r.shadows.active + r.classifications
  {
    if r.shadows.active > 0 {
      var k := UnsettledJob(r.config.value.limits, r.shadows);
      step := SettleStep(k);
    } else {
      step := FinishStep;
    }
  }

  lemma UnsettledJob(c: Limits, s: Shadows) returns (k: nat)
    requires Sound(c, s) && s.active > 0
    ensures Running(s, k)
  {
    k := MissingBelow(s.settled, |s.started|);
  }

  lemma {:induction false} MissingBelow(s: set<nat>, n: nat) returns (k: nat)
    requires |s| < n
    ensures k < n && k !in s
  {
    if n - 1 !in s {
      k := n - 1;
    } else {
      k := MissingBelow(s - {n - 1}, n - 1);
    }
  }

  predicate Placed(s: Shadows, i: nat)
    requires i < |s.accepted|
  {
    var n, m := |s.started|, |s.started| + |s.queue|;
    && |s.accepted| == m + |s.dropped|
    && (i < n ==> s.accepted[i] == s.started[i])
    && (n <= i < m ==> s.accepted[i] == s.queue[i - n])
    && (m <= i ==> s.accepted[i] == s.dropped[i - m] && !s.accepting)
  }

  /** What happens to the i-th accepted job: it is started as the i-th, waits, or was dropped as the
      scheduler closed; of two accepted jobs the later never starts without the earlier. */
  lemma AcceptedJobsInOrder(steps: seq<Step>, i: nat)
    requires AllowedSteps(steps) && i < |Run(steps).shadows.accepted|
    ensures Placed(Run(steps).shadows, i)
  {
    RunIsValid(steps);
  }

  /** Nothing that happened is undone: accepted, started and dropped only grow. */
  lemma NextKeepsHistory(r: Runtime, step: Step)
    ensures var n := Next(r, step);
      && r.shadows.accepted <= n.shadows.accepted && r.shadows.started <= n.shadows.started
      && r.shadows.dropped <= n.shadows.dropped && r.shadows.settled <= n.shadows.settled
      && r.callers <= n.callers
  {
  }

  lemma {:induction false} RunKeepsHistory(steps: seq<Step>, n: nat)
    requires n <= |steps|
    ensures Run(steps[..n]).shadows.started <= Run(steps).shadows.started
    ensures Run(steps[..n]).shadows.accepted <= Run(steps).shadows.accepted
    ensures Run(steps[..n]).shadows.dropped <= Run(steps).shadows.dropped
  {
    if n < |steps| {
      var before := steps[..|steps| - 1];
      RunKeepsHistory(before, n);
      NextKeepsHistory(Run(before), steps[|steps| - 1]);
      assert steps[..n] == before[..n];
    } else {
      assert steps[..n] == steps;
    }
  }

  // ---------------------------------------------------------------- the class

  class BoundedShadowScheduler {
    const limits: Limits
    var active: nat
    var accepting: bool
    var queue: seq<Job>
    var idleWaiters: set<Caller>
    ghost var accepted: seq<Job>
    ghost var started: seq<Job>
    ghost var dropped: seq<Job>
    ghost var settled: set<nat>
    ghost var answered: set<Caller>

    ghost function View(): Shadows
      reads this
    {
      Shadows(active, accepting, queue, idleWaiters, accepted, started, dropped, settled, answered)
    }

    constructor (maxInFlight: nat, maxQueued: nat)
      ensures limits == Limits(maxInFlight, maxQueued) && View() == FRESH_SHADOWS
    {
      limits := Limits(maxInFlight, maxQueued);
      active, accepting, queue, idleWaiters := 0, true, [], {};
      accepted, started, dropped, settled, answered := [], [], [], {}, {};
    }

    method ScheduleJob(job: Job) returns (refusal: Option<Refusal>)
      modifies this
      ensures View() == Schedule(limits, old(View()), job)
      ensures accepted == old(accepted) + (if refusal.None? then [job] else [])
      ensures refusal == Some(ShadowShutdown) <==> !old(accepting)
      ensures refusal in {None, Some(ShadowShutdown), Some(ShadowSaturated)}
      ensures refusal == Some(ShadowSaturated) <==>
        old(accepting) && old(active) >= limits.maxInFlight && |old(queue)| >= limits.maxQueued
      ensures refusal == None && old(active) < limits.maxInFlight ==>
        active == old(active) + 1 && started == old(started) + [job] && queue == old(queue)
      ensures refusal == None && old(active) >= limits.maxInFlight ==>
        active == old(active) && started == old(started) && queue == old(queue) + [job]
      ensures refusal != None ==> active == old(active) && started == old(started) && queue == old(queue)
    {
      if !accepting { return Some(ShadowShutdown); }
      if active < limits.maxInFlight {
        accepted := accepted + [job];
        StartJob(job);
        return None;
      }
      if |queue| >= limits.maxQueued { return Some(ShadowSaturated); }
      queue := queue + [job];
      accepted := accepted + [job];
      return None;
    }

    method StartJob(job: Job)
      modifies this
      ensures View() == Start(old(View()), job)
    {
      active := active + 1;
      started := started + [job];
    }

    /** The finally block after the k-th job. */
    method JobSettled(ghost k: nat)
      requires active > 0 && Running(View(), k)
      modifies this
      ensures View() == Settle(old(View()), k)
      ensures settled == old(settled) + {k} && accepted == old(accepted) && dropped == old(dropped)
      ensures old(accepting) && |old(queue)| > 0 ==>
        active == old(active) && queue == old(queue)[1..] && started == old(started) + [old(queue)[0]]
      ensures !(old(accepting) && |old(queue)| > 0) ==>
        active == old(active) - 1 && queue == old(queue) && started == old(started)
      ensures if active == 0 && |queue| == 0 then answered == old(answered) + old(idleWaiters) && idleWaiters == {}
              else answered == old(answered) && idleWaiters == old(idleWaiters)
    {
      active := active - 1;
      settled := settled + {k};
      if accepting && |queue| > 0 {
        var next := queue[0];
        queue := queue[1..];
        StartJob(next);
      }
      if active == 0 && |queue| == 0 {
        answered := answered + idleWaiters;
        idleWaiters := {};
      }
    }

    method CloseAndDrain(caller: Caller) returns (waits: bool)
      modifies this
      ensures View() == Close(old(View()), caller)
      ensures waits <==> active > 0
      ensures !accepting && queue == [] && dropped == old(dropped) + old(queue) && active == old(active)
      ensures if waits then idleWaiters == old(idleWaiters) + {caller} && answered == old(answered)
              else idleWaiters == old(idleWaiters) && answered == old(answered) + {caller}
    {
      accepting := false;
      dropped := dropped + queue;
      queue := [];
      if active == 0 {
        answered := answered + {caller};
        return false;
      }
      idleWaiters := idleWaiters + {caller};
      return true;
    }
  }

  /** The module's state: the scheduler exists once the runtime does. */
  class ContradictionRuntime {
    var accepting: bool
    var config: Option<Policy>
    var shadows: BoundedShadowScheduler?
    var activeClassifications: nat
    var classificationIdleWaiters: set<Caller>
    ghost var answered: set<Caller>
    ghost var unneeded: set<Caller>
    ghost var callers: set<Caller>

    /** The scheduler is built from the configuration. */
    predicate Built()
      reads this
    {
      (config.Some? <==> shadows != null) && (shadows != null ==> shadows.limits == config.value.limits)
    }

    ghost function View(): Runtime
      reads this, shadows
    {
      Runtime(accepting, config, if shadows == null then FRESH_SHADOWS else shadows.View(), activeClassifications,
              classificationIdleWaiters, answered, unneeded, callers)
    }

    constructor ()
      ensures Built() && View() == FRESH_RUNTIME
    {
      accepting, config, shadows, activeClassifications, classificationIdleWaiters := true, None, null, 0, {};
      answered, unneeded, callers := {}, {}, {};
    }

    /** runtimeState. */
    method EnsureRuntime(policy: Policy) returns (available: bool)
      requires Built()
      modifies this`config, this`shadows
      ensures Built() && (old(shadows) == null || shadows == old(shadows))
      ensures shadows == old(shadows) || fresh(shadows)
      ensures available == Available(old(View()), policy)
      ensures available <==> policy.budget && (old(config) == None || old(config) == Some(policy))
      ensures View() == if available then old(View()).(config := Some(policy)) else old(View())
    {
      if !policy.budget || (config.Some? && config.value != policy) { return false; }
      if shadows == null {
        config := Some(policy);
        shadows := new BoundedShadowScheduler(policy.limits.maxInFlight, policy.limits.maxQueued);
      }
      return true;
    }

    method ScheduleShadowClassification(policy: Policy, job: Job) returns (refusal: Option<Refusal>)
      requires Built()
      modifies this`config, this`shadows, shadows
      ensures Built() && View() == ScheduleShadow(old(View()), policy, job)
      ensures refusal == ScheduleRefusal(old(View()), policy)
    {
      if !accepting { return Some(ShadowShutdown); }
      var available := EnsureRuntime(policy);
      if !available {
        return Some(if policy.budget && config.Some? then RuntimeConfigChanged else BudgetModelMissing);
      }
      refusal := shadows.ScheduleJob(job);
    }

    method Begin(policy: Policy) returns (refusal: Option<Refusal>)
      requires Built()
      modifies this`config, this`shadows, this`activeClassifications
      ensures Built() && View() == BeginClassification(old(View()), policy)
      ensures refusal.None? <==> old(accepting) && Available(old(View()), policy)
      ensures refusal == None <==>
        old(accepting) && policy.budget && (old(config) == None || old(config) == Some(policy))
      ensures activeClassifications == old(activeClassifications) + (if refusal.None? then 1 else 0)
      ensures refusal == Some(ShadowShutdown) <==> !old(accepting) && Available(old(View()), policy)
      ensures !Available(old(View()), policy) ==> refusal == Some(UnavailableReason(old(View()), policy))
    {
      var available := EnsureRuntime(policy);
      if !available {
        return Some(if policy.budget && config.Some? then RuntimeConfigChanged else BudgetModelMissing);
      }
      if !accepting { return Some(ShadowShutdown); }
      activeClassifications := activeClassifications + 1;
      return None;
    }

    method Finish()
      requires activeClassifications > 0
      modifies this`activeClassifications, this`classificationIdleWaiters, this`answered
      ensures View() == FinishClassification(old(View()))
      ensures activeClassifications == old(activeClassifications) - 1
      ensures if activeClassifications == 0
              then answered == old(answered) + old(classificationIdleWaiters) && classificationIdleWaiters == {}
              else answered == old(answered) && classificationIdleWaiters == old(classificationIdleWaiters)
    {
      activeClassifications := activeClassifications - 1;
      if activeClassifications == 0 {
        answered := answered + classificationIdleWaiters;
        classificationIdleWaiters := {};
      }
    }

    /** Up to its await; it waits while a job or a classification is active. */
    method ShutDownRuntime(caller: Caller) returns (waits: bool)
      requires Built()
      modifies this, shadows
      ensures Built() && View() == Shutdown(old(View()), caller)
      ensures waits <==> old(config).Some? && (old(View()).shadows.active > 0 || activeClassifications > 0)
    {
      accepting := false;
      callers := callers + {caller};
      if shadows == null {
        unneeded := unneeded + {caller};
        return false;
      }
      waits := shadows.CloseAndDrain(caller);
      if activeClassifications == 0 {
        answered := answered + {caller};
      } else {
        classificationIdleWaiters := classificationIdleWaiters + {caller};
        waits := true;
      }
    }
  }
}
