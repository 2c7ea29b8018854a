/** Running a scenario: one trace per run, retried while the cluster moves, then the diff. */
module Runner {
  import opened Wrappers
  import opened ByteStrings
  import opened Classes
  import opened Observations
  import Texts
  import opened Commands
  import opened Namespacing
  import opened Projection
  import opened ProjectionFacts
  import opened Diffing
  import opened Scenarios

  const MAX_ATTEMPTS: nat := 3

  /** Everything outside the runner during one attempt at a run: the prefix it is given, whether
      a driver process starts, and what a driver, by name, answers to the attempt's n-th
      command. No answer is a broken pipe; an answer may lack an observation. */
  datatype Attempt = Attempt(
    prefix: Bytes,
    spawns: string -> bool,
    send: (nat, string, Command) -> Option<Option<Observation>>)

  /** Attempts by run and by number. */
  datatype World = World(attempt: (nat, nat) -> Attempt, rendering: Rendering)

  datatype ExecError =
    | RoleNotBound(role: string)
    | NoSuchDriver(driver: string)
    | SpawnFailed(role: string)
    | SleepNeedsMs(id: string)
    | OnlySleepOmitsRole(id: string)
    | NoDriverForRole(id: string)
    | UnparsedCommand(id: string)
    | SendFailed(id: string)
    | NoObservation(id: string)
    | Refused(rule: Rule)
    | NoTraceFor(run: string)

  /** The failures that come from outside; all others are lookups into the scenario. */
  ghost predicate IsExternal(e: ExecError) {
    e.SpawnFailed? || e.SendFailed? || e.NoObservation?
  }

  /** Why a run is evidence of nothing. */
  datatype Inadmissibility = PreconditionFailed(id: string) | NotEvidence(bad: seq<(Step, Reason)>, transient: bool)

  predicate IsRetried(why: Inadmissibility) {
    why.NotEvidence? && why.transient
  }

  /** The steps that send a command. */
  ghost function Executing(steps: seq<ScenarioStep>): seq<ScenarioStep> {
    if steps == [] then []
    else
      var n := |steps| - 1;
      Executing(steps[..n]) + if steps[n].cmd.op == Some("sleep") then [] else [steps[n]]
  }

  /** A precondition looks at what the comparison shows: the class and the lock count. */
  lemma AssertReadsTheProjection(a: Assert, obs: Observation, prefix: Bytes, r: Rendering)
    ensures var f := DefaultFields(obs, prefix, r);
            && "class" in f && "locks.count" in f
            && (a.Holds(obs) <==>
                  && (a.cls.Some? ==> f["class"] == a.cls.value)
                  && (a.lockCount.Some? ==> f["locks.count"] == Texts.Decimal(a.lockCount.value)))
  {
    DefaultLookups(obs, prefix, r);
    ClassLookups(obs, prefix, r, "class");
    if a.lockCount.Some? {
      Texts.DecimalIsInjective(|obs.locks|, a.lockCount.value);
    }
  }

  /** An assert is not judged on an observation that is evidence of nothing. */
  ghost predicate AssertMet(step: ScenarioStep, obs: Observation) {
    step.assertion.Some? && IsAdmissible(obs.cls) ==> step.assertion.value.Holds(obs)
  }

  /** `recorded` is what the driver bound to the step's role answered to its command, the
      attempt's n-th, with the prefix in it, and the step's precondition holds of it. */
  ghost predicate RecordedAt(recorded: Step, step: ScenarioStep, n: nat, bind: map<string, string>, attempt: Attempt) {
    && step.cmd.parsed.Some? && step.role.Some? && step.role.value in bind
    && recorded.id == step.id && recorded.role == step.role.value
    && recorded.op == (if step.cmd.op.Some? then step.cmd.op.value else "?")
    && attempt.send(n, bind[step.role.value], Substituted(step.cmd.parsed.value, attempt.prefix))
       == Some(Some(recorded.observation))
    && AssertMet(step, recorded.observation)
  }

  ghost predicate Recorded(recorded: seq<Step>, steps: seq<ScenarioStep>, bind: map<string, string>, attempt: Attempt) {
    |recorded| == |steps| && forall n :: 0 <= n < |steps| ==> RecordedAt(recorded[n], steps[n], n, bind, attempt)
  }

  // ---- How an attempt can end ----

  /** The driver of a role starts. */
  ghost predicate Starts(run: Run, role: string, attempt: Attempt) {
    role in run.bind && (run.bind[role] == "rust" || run.bind[role] == "go") && attempt.spawns(run.bind[role])
  }

  /** Why the driver of a role does not. */
  ghost predicate DoesNotStart(run: Run, role: string, attempt: Attempt, e: ExecError) {
    match e
    case RoleNotBound(r) => r == role && role !in run.bind
    case NoSuchDriver(d) => role in run.bind && d == run.bind[role] && d != "rust" && d != "go"
    case SpawnFailed(r) =>
      r == role && role in run.bind && (run.bind[role] == "rust" || run.bind[role] == "go")
      && !attempt.spawns(run.bind[role])
    case _ => false
  }

  /** Every driver has started, and the attempt has come to the i-th step with this recorded. */
  ghost predicate ComesTo(s: Scenario, run: Run, attempt: Attempt, i: nat, done: seq<Step>) {
    && i <= |s.steps|
    && (forall role :: role in s.roles ==> Starts(run, role, attempt))
    && (forall j :: 0 <= j < i && s.steps[j].cmd.op == Some("sleep") ==> s.steps[j].cmd.ms.Some?)
    && Recorded(done, Executing(s.steps[..i]), run.bind, attempt)
  }

  /** The answer to a step's command, the attempt's n-th. */
  ghost function Answer(step: ScenarioStep, n: nat, run: Run, attempt: Attempt): Option<Option<Observation>>
    requires step.cmd.parsed.Some? && step.role.Some? && step.role.value in run.bind
  {
    attempt.send(n, run.bind[step.role.value], Substituted(step.cmd.parsed.value, attempt.prefix))
  }

  ghost predicate Sends(s: Scenario, step: ScenarioStep, run: Run) {
    && step.cmd.op != Some("sleep") && step.cmd.parsed.Some?
    && step.role.Some? && step.role.value in s.roles && step.role.value in run.bind
  }

  /** Why the attempt breaks off at a step. */
  ghost predicate BreaksOff(s: Scenario, step: ScenarioStep, n: nat, run: Run, attempt: Attempt, e: ExecError) {
    match e
    case SleepNeedsMs(id) => id == step.id && step.cmd.IsSleep() && step.cmd.ms.None?
    case OnlySleepOmitsRole(id) => id == step.id && !step.cmd.IsSleep() && step.role.None?
    case NoDriverForRole(id) =>
      id == step.id && !step.cmd.IsSleep() && step.role.Some? && step.role.value !in s.roles
    case UnparsedCommand(id) => id == step.id && !step.cmd.IsSleep() && step.role.Some? && step.cmd.parsed.None?
    case SendFailed(id) => id == step.id && Sends(s, step, run) && Answer(step, n, run, attempt).None?
    case NoObservation(id) => id == step.id && Sends(s, step, run) && Answer(step, n, run, attempt) == Some(None)
    case _ => false
  }

  /** The answer to the step's command is evidence, and not what the step asserts. */
  ghost predicate FailsAssert(s: Scenario, step: ScenarioStep, n: nat, run: Run, attempt: Attempt) {
    && Sends(s, step, run) && step.assertion.Some?
    && var answer := Answer(step, n, run, attempt);
       answer.Some? && answer.value.Some?
       && IsAdmissible(answer.value.value.cls) && !step.assertion.value.Holds(answer.value.value)
  }

  /** The attempt fails: a driver does not start, after those before it have, or the attempt
      breaks off at a step that it has come to. */
  ghost predicate Fails(s: Scenario, run: Run, attempt: Attempt, e: ExecError) {
    || (exists k :: 0 <= k < |s.roles| && DoesNotStart(run, s.roles[k], attempt, e)
                    && forall j :: 0 <= j < k ==> Starts(run, s.roles[j], attempt))
    || (exists i, done :: 0 <= i < |s.steps| && ComesTo(s, run, attempt, i, done)
                          && BreaksOff(s, s.steps[i], |done|, run, attempt, e))
  }

  /** The attempt is evidence of nothing: a precondition fails at a step that it has come to, or it
      has come to the end and recorded something inadmissible. */
  ghost predicate Gives(s: Scenario, run: Run, attempt: Attempt, why: Inadmissibility) {
    match why
    case PreconditionFailed(id) =>
      exists i, done :: 0 <= i < |s.steps| && ComesTo(s, run, attempt, i, done) && s.steps[i].id == id
                        && FailsAssert(s, s.steps[i], |done|, run, attempt)
    case NotEvidence(bad, transient) =>
      exists done :: ComesTo(s, run, attempt, |s.steps|, done) && bad != []
                     && bad == Inadmissible(done) && transient == IsTransient(done)
  }

  /** A trace that may be compared: it records every executing step of the scenario, in order,
      each as the driver that the run binds to its role answered it, and all of it is evidence. */
  ghost predicate Settled(s: Scenario, run: Run, attempt: Attempt, trace: Trace) {
    && trace.prefix == attempt.prefix
    && ComesTo(s, run, attempt, |s.steps|, trace.steps)
    && forall step :: step in trace.steps ==> IsAdmissible(step.observation.cls)
  }

  ghost predicate Ends(s: Scenario, run: Run, attempt: Attempt, r: Result<Result<Trace, Inadmissibility>, ExecError>) {
    match r
    case Ok(Ok(trace)) => Settled(s, run, attempt, trace)
    case Ok(Err(why)) => Gives(s, run, attempt, why)
    case Err(e) => Fails(s, run, attempt, e)
  }

  /** A scenario that was accepted is left only with failures from outside: no role, binding,
      driver, command or duration that it looks up is missing. */
  lemma AcceptedRunsFailOutside(s: Scenario, run: Run, attempt: Attempt, e: ExecError)
    requires Acceptable(s) && run in s.runs && Fails(s, run, attempt, e)
    ensures IsExternal(e)
  {
    assert BindsRoles(s, run) && KnownDrivers(run);
    if i, done :| 0 <= i < |s.steps| && ComesTo(s, run, attempt, i, done)
                  && BreaksOff(s, s.steps[i], |done|, run, attempt, e) {
      assert s.steps[i] in s.steps;
      RunnableMeans(s, s.steps[i]);
    }
  }

  /** What is recorded up to a step is determined: two records of the same steps are equal. */
  lemma RecordsAreDetermined(a: seq<Step>, b: seq<Step>, steps: seq<ScenarioStep>, bind: map<string, string>, attempt: Attempt)
    requires Recorded(a, steps, bind, attempt) && Recorded(b, steps, bind, attempt)
    ensures a == b
  {
    forall n | 0 <= n < |steps|
      ensures a[n] == b[n]
    {
      assert RecordedAt(a[n], steps[n], n, bind, attempt) && RecordedAt(b[n], steps[n], n, bind, attempt);
    }
  }

  /** A trace that may be compared cannot come from an attempt that is evidence of nothing. */
  lemma SettledIsNotSpoiled(s: Scenario, run: Run, attempt: Attempt, trace: Trace, why: Inadmissibility)
    requires Settled(s, run, attempt, trace)
    ensures !Gives(s, run, attempt, why)
  {
    if why.NotEvidence? {
      forall done | ComesTo(s, run, attempt, |s.steps|, done)
        ensures Inadmissible(done) == []
      {
        RecordsAreDetermined(done, trace.steps, Executing(s.steps[..|s.steps|]), run.bind, attempt);
        EvidenceMeansEveryStepAdmissible(done);
      }
    } else {
      forall i, done | 0 <= i < |s.steps| && ComesTo(s, run, attempt, i, done) && Sends(s, s.steps[i], run)
        ensures !FailsAssert(s, s.steps[i], |done|, run, attempt)
      {
        PassedStepIsRecorded(s, run, attempt, trace.steps, i, |done|);
      }
    }
  }

  lemma {:induction false} ExecutingIsPrefix(steps: seq<ScenarioStep>, i: nat)
    requires i < |steps| && !steps[i].cmd.IsSleep()
    ensures |Executing(steps[..i])| < |Executing(steps)|
    ensures Executing(steps)[|Executing(steps[..i])|] == steps[i]
  {
    var n := |steps| - 1;
    if i == n {
    } else {
      assert steps[..n][..i] == steps[..i];
      ExecutingIsPrefix(steps[..n], i);
    }
  }

  lemma PassedStepIsRecorded(s: Scenario, run: Run, attempt: Attempt, steps: seq<Step>, i: nat, n: nat)
    requires ComesTo(s, run, attempt, |s.steps|, steps) && i < |s.steps| && n == |Executing(s.steps[..i])|
    requires Sends(s, s.steps[i], run)
    ensures !FailsAssert(s, s.steps[i], n, run, attempt)
  {
    assert s.steps[..|s.steps|] == s.steps;
    ExecutingIsPrefix(s.steps, i);
    assert RecordedAt(steps[n], s.steps[i], n, run.bind, attempt);
    AdmissibleMeansNoReason(steps[n].observation.cls);
  }

  // ---- Execution ----

  /** The drivers at hand are those that the run binds to the scenario's roles. */
  ghost predicate Plays(s: Scenario, run: Run, drivers: map<string, string>) {
    && (forall role :: role in drivers <==> role in s.roles)
    && (forall role :: role in drivers ==> role in run.bind && drivers[role] == run.bind[role])
  }

  method SpawnDrivers(s: Scenario, run: Run, attempt: Attempt) returns (r: Result<map<string, string>, ExecError>)
    ensures r.Ok? ==> Plays(s, run, r.value) && forall role :: role in s.roles ==> Starts(run, role, attempt)
    ensures r.Err? ==> Fails(s, run, attempt, r.error)
  {
    var drivers: map<string, string> := map[];
    for i := 0 to |s.roles|
      invariant forall role :: role in drivers <==> role in s.roles[..i]
      invariant forall role :: role in drivers ==> role in run.bind && drivers[role] == run.bind[role]
      invariant forall j :: 0 <= j < i ==> Starts(run, s.roles[j], attempt)
    {
      var role := s.roles[i];
      assert s.roles[..i + 1] == s.roles[..i] + [role];
      if role !in run.bind {
        assert DoesNotStart(run, s.roles[i], attempt, RoleNotBound(role));
        return Err(RoleNotBound(role));
      }
      if run.bind[role] != "rust" && run.bind[role] != "go" {
        assert DoesNotStart(run, s.roles[i], attempt, NoSuchDriver(run.bind[role]));
        return Err(NoSuchDriver(run.bind[role]));
      }
      if !attempt.spawns(run.bind[role]) {
        assert DoesNotStart(run, s.roles[i], attempt, SpawnFailed(role));
        return Err(SpawnFailed(role));
      }
      drivers := drivers[role := run.bind[role]];
    }
    assert s.roles[..|s.roles|] == s.roles;
    r := Result.Ok(drivers);
  }

  /** What one step that is not a sleep comes to. */
  datatype StepResult = Observed(step: Step) | Unmet(id: string) | Broke(error: ExecError)

  method RunStep(s: Scenario, step: ScenarioStep, run: Run, drivers: map<string, string>, n: nat, attempt: Attempt)
    returns (r: StepResult)
    requires !step.cmd.IsSleep() && Plays(s, run, drivers)
    ensures r.Observed? ==> RecordedAt(r.step, step, n, run.bind, attempt)
    ensures r.Unmet? ==> r.id == step.id && FailsAssert(s, step, n, run, attempt)
    ensures r.Broke? ==> BreaksOff(s, step, n, run, attempt, r.error)
  {
    if step.role.None? {
      return Broke(OnlySleepOmitsRole(step.id));
    }
    if step.role.value !in drivers {
      return Broke(NoDriverForRole(step.id));
    }
    if step.cmd.parsed.None? {
      return Broke(UnparsedCommand(step.id));
    }
    var answer := attempt.send(n, drivers[step.role.value], Substituted(step.cmd.parsed.value, attempt.prefix));
    if answer.None? {
      return Broke(SendFailed(step.id));
    }
    if answer.value.None? {
      return Broke(NoObservation(step.id));
    }
    var obs := answer.value.value;
    AdmissibleMeansNoReason(obs.cls);
    if step.assertion.Some? && InadmissibleReason(obs.cls).None? && !step.assertion.value.Holds(obs) {
      return Unmet(step.id);
    }
    var op := if step.cmd.op.Some? then step.cmd.op.value else "?";
    r := Observed(Step(step.id, step.role.value, op, obs));
  }

  lemma ExecutingGrows(steps: seq<ScenarioStep>, i: nat)
    requires i < |steps|
    ensures Executing(steps[..i + 1]) == Executing(steps[..i]) + if steps[i].cmd.op == Some("sleep") then [] else [steps[i]]
  {
    assert steps[..i + 1][..i] == steps[..i];
  }

  lemma ComesPastSleep(s: Scenario, run: Run, attempt: Attempt, i: nat, done: seq<Step>)
    requires i < |s.steps| && ComesTo(s, run, attempt, i, done)
    requires s.steps[i].cmd.op == Some("sleep") && s.steps[i].cmd.ms.Some?
    ensures ComesTo(s, run, attempt, i + 1, done)
  {
    ExecutingGrows(s.steps, i);
    assert Executing(s.steps[..i]) + [] == Executing(s.steps[..i]);
  }

  lemma ComesPastCommand(s: Scenario, run: Run, attempt: Attempt, i: nat, done: seq<Step>, recorded: Step)
    requires i < |s.steps| && ComesTo(s, run, attempt, i, done) && s.steps[i].cmd.op != Some("sleep")
    requires RecordedAt(recorded, s.steps[i], |done|, run.bind, attempt)
    ensures ComesTo(s, run, attempt, i + 1, done + [recorded])
  {
    ExecutingGrows(s.steps, i);
  }

  method RunSteps(s: Scenario, run: Run, drivers: map<string, string>, attempt: Attempt)
    returns (r: Result<Result<seq<Step>, Inadmissibility>, ExecError>)
    requires Plays(s, run, drivers) && forall role :: role in s.roles ==> Starts(run, role, attempt)
    ensures r.Ok? && r.value.Ok? ==> ComesTo(s, run, attempt, |s.steps|, r.value.value)
    ensures r.Ok? && r.value.Err? ==> Gives(s, run, attempt, r.value.error) && r.value.error.PreconditionFailed?
    ensures r.Err? ==> Fails(s, run, attempt, r.error)
  {
    var done: seq<Step> := [];
    for i := 0 to |s.steps|
      invariant ComesTo(s, run, attempt, i, done)
    {
      var step := s.steps[i];
      if step.cmd.IsSleep() {
        if step.cmd.ms.None? {
          assert BreaksOff(s, s.steps[i], |done|, run, attempt, SleepNeedsMs(step.id));
          return Err(SleepNeedsMs(step.id));
        }
        ComesPastSleep(s, run, attempt, i, done);
      } else {
        var result := RunStep(s, step, run, drivers, |done|, attempt);
        match result
        case Broke(e) => return Err(e);
        case Unmet(id) => return Result.Ok(Err(PreconditionFailed(id)));
        case Observed(recorded) =>
          ComesPastCommand(s, run, attempt, i, done, recorded);
          done := done + [recorded];
      }
    }
    r := Result.Ok(Result.Ok(done));
  }

  /** One attempt at a run. */
  method Execute(s: Scenario, run: Run, attempt: Attempt) returns (r: Result<Result<Trace, Inadmissibility>, ExecError>)
    ensures Ends(s, run, attempt, r)
  {
    var drivers := SpawnDrivers(s, run, attempt);
    if drivers.Err? {
      return Err(drivers.error);
    }
    var result := RunSteps(s, run, drivers.value, attempt);
    if result.Err? {
      return Err(result.error);
    }
    if result.value.Err? {
      return Result.Ok(Err(result.value.error));
    }
    var steps := result.value.value;
    var bad := Inadmissible(steps);
    EvidenceMeansEveryStepAdmissible(steps);
    if bad != [] {
      return Result.Ok(Err(NotEvidence(bad, IsTransient(steps))));
    }
    r := Result.Ok(Result.Ok(Trace(attempt.prefix, steps)));
  }

  /** The k-th run was attempted before, each time spoiled by the cluster in just this way. */
  ghost predicate Retried(s: Scenario, world: World, k: nat, retried: seq<Inadmissibility>) {
    && k < |s.runs| && |retried| <= 2
    && forall i :: 0 <= i < |retried| ==>
         retried[i].NotEvidence? && retried[i].transient && Gives(s, s.runs[k], world.attempt(k, i), retried[i])
  }

  /** A run is attempted at most three times, again only after an attempt that the cluster spoiled,
      and the last attempt decides; one that the cluster spoiled does so only if it is the third. */
  method RunUntilSettled(s: Scenario, k: nat, world: World)
    returns (r: Result<Result<Trace, Inadmissibility>, ExecError>, retried: seq<Inadmissibility>)
    requires k < |s.runs|
    ensures Retried(s, world, k, retried)
    ensures Ends(s, s.runs[k], world.attempt(k, |retried|), r)
    ensures r.Ok? && r.value.Err? && r.value.error.NotEvidence? && r.value.error.transient ==> |retried| == 2
  {
    retried := [];
    while true
      invariant Retried(s, world, k, retried)
      decreases MAX_ATTEMPTS - |retried|
    {
      r := Execute(s, s.runs[k], world.attempt(k, |retried|));
      if r.Ok? && r.value.Err? && IsRetried(r.value.error) && |retried| + 1 < MAX_ATTEMPTS {
        retried := retried + [r.value.error];
      } else {
        return;
      }
    }
  }

  /** The trace kept for each run. */
  type Traces = map<string, Trace>

  /** The settled trace of the k-th run, which has this name, after these retries. */
  ghost predicate IsTraceOf(s: Scenario, world: World, name: string, k: nat, retried: seq<Inadmissibility>, trace: Trace) {
    && Retried(s, world, k, retried) && s.runs[k].name == name
    && Settled(s, s.runs[k], world.attempt(k, |retried|), trace)
  }

  ghost predicate HasTrace(s: Scenario, world: World, name: string, trace: Trace) {
    exists k: nat, retried :: IsTraceOf(s, world, name, k, retried, trace)
  }

  /** The k-th run has a settled trace. */
  ghost predicate HasSettled(s: Scenario, world: World, k: nat)
    requires k < |s.runs|
  {
    exists retried, trace :: IsTraceOf(s, world, s.runs[k].name, k, retried, trace)
  }

  ghost predicate AllBeforeHaveSettled(s: Scenario, world: World, k: nat)
    requires k <= |s.runs|
  {
    forall j :: 0 <= j < k ==> HasSettled(s, world, j)
  }

  /** Which run was evidence of nothing, after which retries, and why. */
  datatype Spoiled = Spoiled(run: nat, retried: seq<Inadmissibility>, why: Inadmissibility)

  /** The first run without a settled trace did end so: its last attempt gave this, and if the
      cluster did that, it was the last one allowed. */
  ghost predicate IsSpoiled(s: Scenario, world: World, x: Spoiled) {
    && Retried(s, world, x.run, x.retried) && AllBeforeHaveSettled(s, world, x.run)
    && Gives(s, s.runs[x.run], world.attempt(x.run, |x.retried|), x.why)
    && (x.why.NotEvidence? && x.why.transient ==> |x.retried| == 2)
  }

  /** An attempt at the first run without a settled trace failed so. */
  ghost predicate HasFailed(s: Scenario, world: World, e: ExecError) {
    exists k: nat, retried ::
      && Retried(s, world, k, retried) && AllBeforeHaveSettled(s, world, k)
      && Fails(s, s.runs[k], world.attempt(k, |retried|), e)
  }

  /** Each of the first `k` runs has settled, and these are settled traces that cover them. */
  ghost predicate AreTraces(s: Scenario, world: World, k: nat, traces: Traces) {
    && k <= |s.runs| && AllBeforeHaveSettled(s, world, k)
    && (forall name :: name in traces ==> HasTrace(s, world, name, traces[name]))
    && (forall j :: 0 <= j < k ==> s.runs[j].name in traces)
  }

  lemma OneMoreTrace(s: Scenario, world: World, k: nat, traces: Traces, retried: seq<Inadmissibility>, trace: Trace)
    requires AreTraces(s, world, k, traces) && k < |s.runs|
    requires IsTraceOf(s, world, s.runs[k].name, k, retried, trace)
    ensures AreTraces(s, world, k + 1, traces[s.runs[k].name := trace])
  {
    assert HasSettled(s, world, k) && HasTrace(s, world, s.runs[k].name, trace);
  }

  method RunAll(s: Scenario, world: World) returns (r: Result<Result<Traces, Spoiled>, ExecError>)
    ensures r.Ok? && r.value.Ok? ==> forall name :: name in r.value.value ==> HasTrace(s, world, name, r.value.value[name])
    ensures r.Ok? && r.value.Ok? ==> forall run :: run in s.runs ==> run.name in r.value.value
    ensures r.Ok? && r.value.Ok? ==> AllBeforeHaveSettled(s, world, |s.runs|)
    ensures r.Ok? && r.value.Err? ==> IsSpoiled(s, world, r.value.error)
    ensures r.Err? ==> HasFailed(s, world, r.error)
  {
    var traces: Traces := map[];
    for k := 0 to |s.runs|
      invariant AreTraces(s, world, k, traces)
    {
      var result, retried := RunUntilSettled(s, k, world);
      match result
      case Err(e) =>
        return Err(e);
      case Ok(Err(why)) =>
        return Result.Ok(Err(Spoiled(k, retried, why)));
      case Ok(Ok(trace)) =>
        OneMoreTrace(s, world, k, traces, retried, trace);
        traces := traces[s.runs[k].name := trace];
    }
    r := Result.Ok(Result.Ok(traces));
  }

  /** The report of a comparison: the oracle run first, the subject run second. */
  ghost predicate Reports(s: Scenario, world: World, ds: seq<Divergence>) {
    exists a, b ::
      && |s.compare| == 2
      && HasTrace(s, world, s.compare[0], a) && HasTrace(s, world, s.compare[1], b)
      && Spec(s.alsoCompare).Known()
      && ds == DiffOf(Projected(a.steps, a.prefix, Spec(s.alsoCompare), world.rendering),
                      Projected(b.steps, b.prefix, Spec(s.alsoCompare), world.rendering))
  }

  lemma AcceptedScenariosFailOutside(s: Scenario, world: World, e: ExecError)
    requires Acceptable(s) && HasFailed(s, world, e)
    ensures IsExternal(e)
  {
    var k: nat, retried :|
      && Retried(s, world, k, retried) && AllBeforeHaveSettled(s, world, k)
      && Fails(s, s.runs[k], world.attempt(k, |retried|), e);
    AcceptedRunsFailOutside(s, s.runs[k], world.attempt(k, |retried|), e);
  }

  /** A whole scenario. It is refused for a rule that it breaks; a report compares the settled
      traces of the two runs; no report names a run that was evidence of nothing; and an accepted
      scenario fails only where some attempt did, for an outside reason. */
  method RunScenario(s: Scenario, world: World) returns (r: Result<Result<seq<Divergence>, Spoiled>, ExecError>)
    ensures r.Err? && !Acceptable(s) ==> r.error.Refused? && Broken(s, r.error.rule)
    ensures r.Err? && Acceptable(s) ==> HasFailed(s, world, r.error) && IsExternal(r.error)
    ensures r.Ok? ==> Acceptable(s)
    ensures r.Ok? && r.value.Ok? ==> Reports(s, world, r.value.value)
    ensures r.Ok? && r.value.Err? ==> IsSpoiled(s, world, r.value.error)
  {
    var accepted := Validate(s);
    if accepted.Err? {
      return Err(Refused(accepted.error));
    }
    var ran := RunAll(s, world);
    if ran.Err? {
      AcceptedScenariosFailOutside(s, world, ran.error);
      return Err(ran.error);
    }
    if ran.value.Err? {
      return Result.Ok(Err(ran.value.error));
    }
    var traces := ran.value.value;
    var a, b := s.compare[0], s.compare[1];
    if a !in traces {
      return Err(NoTraceFor(a));
    }
    if b !in traces {
      return Err(NoTraceFor(b));
    }
    var spec := Spec(s.alsoCompare);
    var oracle := Project(traces[a], spec, world.rendering);
    var subject := Project(traces[b], spec, world.rendering);
    var ds := Diff(oracle, subject);
    r := Result.Ok(Result.Ok(ds));
  }

  // ---- What a report means ----

  lemma {:induction false} ExecutingIsSubsequence(steps: seq<ScenarioStep>, i: nat)
    requires i < |Executing(steps)|
    ensures Executing(steps)[i] in steps && !Executing(steps)[i].cmd.IsSleep()
  {
    var n := |steps| - 1;
    if i >= |Executing(steps[..n])| {
    } else {
      ExecutingIsSubsequence(steps[..n], i);
    }
  }

  lemma {:induction false} ExecutingIdsAreDistinct(steps: seq<ScenarioStep>)
    requires DistinctStepIds(steps)
    ensures DistinctStepIds(Executing(steps))
  {
    if steps == [] {
    } else {
      var n := |steps| - 1;
      var before := Executing(steps[..n]);
      ExecutingIdsAreDistinct(steps[..n]);
      forall i | 0 <= i < |before|
        ensures before[i].id != steps[n].id
      {
        ExecutingIsSubsequence(steps[..n], i);
        var j :| 0 <= j < n && steps[..n][j] == before[i];
        assert steps[j].id != steps[n].id;
      }
    }
  }

  ghost predicate DistinctIds(steps: seq<Step>) {
    forall j, k :: 0 <= j < k < |steps| ==> steps[j].id != steps[k].id
  }

  /** With distinct ids, the projection holds each recorded step under its own id. */
  lemma {:induction false} LastUnderIsTheStep(steps: seq<Step>, i: nat)
    requires i < |steps| && DistinctIds(steps)
    ensures LastUnder(steps, steps[i].id) == Some(steps[i].observation)
  {
    var n := |steps| - 1;
    if i == n {
    } else {
      assert steps[i].id != steps[n].id;
      assert steps[..n][i] == steps[i];
      LastUnderIsTheStep(steps[..n], i);
    }
  }

  lemma {:induction false} LastUnderNeedsAStep(steps: seq<Step>, id: string)
    ensures LastUnder(steps, id).Some? <==> exists i :: 0 <= i < |steps| && steps[i].id == id
  {
    if steps == [] {
    } else {
      var n := |steps| - 1;
      LastUnderNeedsAStep(steps[..n], id);
      if i :| 0 <= i < n && steps[i].id == id {
        assert steps[..n][i].id == id;
      }
    }
  }

  /** Main theorem: two settled traces of an accepted scenario hold exactly its executing steps,
      in order, and the report on them is empty exactly when every one of those steps was
      observed alike. No step escapes the comparison. */
  lemma EveryStepIsCompared(s: Scenario, oracle: Run, x: Attempt, a: Trace, subject: Run, y: Attempt, b: Trace, r: Rendering)
    requires Acceptable(s) && Settled(s, oracle, x, a) && Settled(s, subject, y, b)
    ensures |a.steps| == |b.steps| == |Executing(s.steps)|
    ensures forall i :: 0 <= i < |a.steps| ==> a.steps[i].id == b.steps[i].id == Executing(s.steps)[i].id
    ensures DiffOf(Projected(a.steps, a.prefix, Spec(s.alsoCompare), r), Projected(b.steps, b.prefix, Spec(s.alsoCompare), r)) == []
            <==> forall i :: 0 <= i < |a.steps| ==>
                   ObsFields(a.steps[i].observation, a.prefix, Spec(s.alsoCompare), r) ==
                   ObsFields(b.steps[i].observation, b.prefix, Spec(s.alsoCompare), r)
  {
    var spec := Spec(s.alsoCompare);
    var steps := Executing(s.steps);
    ExecutingIdsAreDistinct(s.steps);
    SettledIds(s, oracle, x, a);
    SettledIds(s, subject, y, b);
    assert forall i :: 0 <= i < |a.steps| ==> a.steps[i].id == b.steps[i].id == steps[i].id;
    EmptyDiffMeansEqualProjections(a.steps, a.prefix, b.steps, b.prefix, spec, r);
    EqualProjectionsStepByStep(a.steps, a.prefix, b.steps, b.prefix, spec, r);
  }

  lemma SettledIds(s: Scenario, run: Run, attempt: Attempt, trace: Trace)
    requires DistinctStepIds(Executing(s.steps)) && Settled(s, run, attempt, trace)
    ensures |trace.steps| == |Executing(s.steps)|
    ensures forall i :: 0 <= i < |trace.steps| ==> trace.steps[i].id == Executing(s.steps)[i].id
    ensures DistinctIds(trace.steps)
  {
    assert s.steps[..|s.steps|] == s.steps;
    forall i | 0 <= i < |trace.steps|
      ensures trace.steps[i].id == Executing(s.steps)[i].id
    {
      assert RecordedAt(trace.steps[i], Executing(s.steps)[i], i, run.bind, attempt);
    }
  }

  lemma ProjectedStep(steps: seq<Step>, i: nat, p: Bytes, spec: Spec, r: Rendering)
    requires spec.Known() && i < |steps| && DistinctIds(steps)
    ensures steps[i].id in Projected(steps, p, spec, r)
    ensures Projected(steps, p, spec, r)[steps[i].id] == ObsFields(steps[i].observation, p, spec, r)
  {
    LastUnderIsTheStep(steps, i);
    ProjectedHoldsLast(steps, p, spec, r, steps[i].id);
  }

  lemma ProjectedHasAStep(steps: seq<Step>, p: Bytes, spec: Spec, r: Rendering, id: string) returns (i: nat)
    requires spec.Known() && id in Projected(steps, p, spec, r)
    ensures i < |steps| && steps[i].id == id
  {
    ProjectedHoldsLast(steps, p, spec, r, id);
    LastUnderNeedsAStep(steps, id);
    i :| 0 <= i < |steps| && steps[i].id == id;
  }

  /** Runs with the same distinct ids project alike exactly when they do so step by step. */
  lemma EqualProjectionsStepByStep(a: seq<Step>, p: Bytes, b: seq<Step>, q: Bytes, spec: Spec, r: Rendering)
    requires spec.Known() && |a| == |b| && DistinctIds(a) && DistinctIds(b)
    requires forall i :: 0 <= i < |a| ==> a[i].id == b[i].id
    ensures Projected(a, p, spec, r) == Projected(b, q, spec, r) <==>
            forall i :: 0 <= i < |a| ==> ObsFields(a[i].observation, p, spec, r) == ObsFields(b[i].observation, q, spec, r)
  {
    var o, s := Projected(a, p, spec, r), Projected(b, q, spec, r);
    if o == s {
      forall i | 0 <= i < |a|
        ensures ObsFields(a[i].observation, p, spec, r) == ObsFields(b[i].observation, q, spec, r)
      {
        ProjectedStep(a, i, p, spec, r);
        ProjectedStep(b, i, q, spec, r);
      }
    }
    if forall i :: 0 <= i < |a| ==> ObsFields(a[i].observation, p, spec, r) == ObsFields(b[i].observation, q, spec, r) {
      StepByStepMeansEqual(a, p, b, q, spec, r);
    }
  }

  lemma StepByStepMeansEqual(a: seq<Step>, p: Bytes, b: seq<Step>, q: Bytes, spec: Spec, r: Rendering)
    requires spec.Known() && |a| == |b| && DistinctIds(a) && DistinctIds(b)
    requires forall i :: 0 <= i < |a| ==> a[i].id == b[i].id
    requires forall i :: 0 <= i < |a| ==> ObsFields(a[i].observation, p, spec, r) == ObsFields(b[i].observation, q, spec, r)
    ensures Projected(a, p, spec, r) == Projected(b, q, spec, r)
  {
    var o, s := Projected(a, p, spec, r), Projected(b, q, spec, r);
    forall id | id in o
      ensures id in s && o[id] == s[id]
    {
      var i := ProjectedHasAStep(a, p, spec, r, id);
      ProjectedStep(a, i, p, spec, r);
      ProjectedStep(b, i, q, spec, r);
    }
    forall id | id in s
      ensures id in o
    {
      var i := ProjectedHasAStep(b, q, spec, r, id);
      ProjectedStep(a, i, p, spec, r);
    }
  }

  /** Runs of an accepted scenario whose clients made the same observations, each under the
      prefix generated for it, report no divergence. */
  lemma AgreeingRunsReportNothing(s: Scenario, n: Bytes, a: Trace, m: Bytes, b: Trace, r: Rendering)
    requires Acceptable(s) && IsNumber(n) && IsNumber(m)
    requires a.prefix == UniquePrefix(NameBytes(s.name), n) && b.prefix == UniquePrefix(NameBytes(s.name), m)
    requires SameSteps(a.steps, a.prefix, b.steps, b.prefix)
    ensures DiffOf(Projected(a.steps, a.prefix, Spec(s.alsoCompare), r),
                   Projected(b.steps, b.prefix, Spec(s.alsoCompare), r)) == []
  {
    PlainNamesMakeAdmissiblePrefixes(s.name, n);
    PlainNamesMakeAdmissiblePrefixes(s.name, m);
    SameRunsDoNotDiverge(a.steps, a.prefix, b.steps, b.prefix, Spec(s.alsoCompare), r);
  }
}
