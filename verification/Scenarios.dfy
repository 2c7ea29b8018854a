/** Scenarios, and the checks a scenario must pass before anything runs. */
module Scenarios {
  import opened Wrappers
  import opened ByteStrings
  import opened Classes
  import opened Observations
  import opened Commands
  import opened Projection
  import opened Namespacing

  /** A command as written: the fields the checks look at, and what parsing it as a driver
      command gives. */
  datatype RawCommand = RawCommand(op: Option<string>, ms: Option<nat>, fields: nat, parsed: Option<Command>) {
    predicate IsSleep() {
      op == Some("sleep")
    }
  }

  datatype Assert = Assert(lockCount: Option<nat>, cls: Option<string>) {

    /** The precondition holds of an observation. */
    predicate Holds(obs: Observation) {
      && (lockCount.Some? ==> |obs.locks| == lockCount.value)
      && (cls.Some? ==> Tag(obs.cls) == cls.value)
    }
  }

  datatype ScenarioStep =
    ScenarioStep(id: string, role: Option<string>, cmd: RawCommand, assertion: Option<Assert>, why: Option<string>)

  datatype Run = Run(name: string, bind: map<string, string>) {
    function Driver(role: string): Option<string> {
      if role in bind then Some(bind[role]) else None
    }
  }

  datatype Scenario = Scenario(
    schema: string,
    name: string,
    roles: seq<string>,
    runs: seq<Run>,
    compare: seq<string>,
    alsoCompare: seq<string>,
    steps: seq<ScenarioStep>)

  const SCENARIO_SCHEMA := "parity-scenario/v1"

  // ---- Names ----

  predicate IsPlainChar(c: char) {
    'a' <= c <= 'z' || '0' <= c <= '9' || c == '-'
  }

  predicate IsPlain(name: string) {
    name != "" && name[0] != '-' && forall i :: 0 <= i < |name| ==> IsPlainChar(name[i])
  }

  const LETTERS_AND_DIGITS := "abcdefghijklmnopqrstuvwxyz0123456789"

  lemma PlainCharsAre(c: char)
    ensures IsPlainChar(c) <==> c in LETTERS_AND_DIGITS || c == '-'
  {
    var n := c as int;
    if 97 <= n <= 122 {
      assert LETTERS_AND_DIGITS[n - 97] == c;
    } else if 48 <= n <= 57 {
      assert LETTERS_AND_DIGITS[n - 48 + 26] == c;
    }
    assert forall i :: 0 <= i < |LETTERS_AND_DIGITS| ==> IsPlainChar(LETTERS_AND_DIGITS[i]);
  }

  /** A plain name is one or more lower-case letters, digits and dashes, and does not start with a
      dash. */
  lemma PlainNamesAre(name: string)
    ensures IsPlain(name) <==>
            name != "" && name[0] in LETTERS_AND_DIGITS && forall c :: c in name ==> c in LETTERS_AND_DIGITS || c == '-'
  {
    assert '-' !in LETTERS_AND_DIGITS;
    forall i | 0 <= i < |name|
      ensures IsPlainChar(name[i]) <==> name[i] in LETTERS_AND_DIGITS || name[i] == '-'
    {
      PlainCharsAre(name[i]);
    }
    assert forall i :: 0 <= i < |name| ==> name[i] in name;
  }

  /** The bytes of a plain name. */
  function NameBytes(name: string): (b: Bytes)
    requires IsPlain(name)
    ensures |b| == |name| && forall i :: 0 <= i < |name| ==> b[i] == name[i] as int
  {
    seq(|name|, i requires 0 <= i < |name| => name[i] as int)
  }

  /** An accepted scenario name makes run prefixes that can be redacted exactly. */
  lemma PlainNamesMakeAdmissiblePrefixes(name: string, nanos: Bytes)
    requires IsPlain(name) && IsNumber(nanos)
    ensures Admissible(UniquePrefix(NameBytes(name), nanos))
  {
    var b := NameBytes(name);
    assert name[0] != '-' && b[0] != 45;
    forall c | c in b
      ensures 97 <= c <= 122 || IsDigit(c) || c == 45
    {
      var i :| 0 <= i < |b| && b[i] == c;
      assert IsPlainChar(name[i]);
    }
    GeneratedPrefixIsAdmissible(b, nanos);
  }

  /** The white space that `trim` removes. */
  predicate IsSpace(c: char) {
    var n := c as int;
    0x9 <= n <= 0xD || n == 0x20 || n == 0x85 || n == 0xA0 || n == 0x1680 || 0x2000 <= n <= 0x200A
    || n == 0x2028 || n == 0x2029 || n == 0x202F || n == 0x205F || n == 0x3000
  }

  /** The code points with the Unicode property White_Space. */
  const WHITE_SPACE: seq<int> :=
    [0x9, 0xA, 0xB, 0xC, 0xD, 0x20, 0x85, 0xA0, 0x1680, 0x2000, 0x2001, 0x2002, 0x2003, 0x2004, 0x2005, 0x2006,
     0x2007, 0x2008, 0x2009, 0x200A, 0x2028, 0x2029, 0x202F, 0x205F, 0x3000]

  lemma SpacesAre(c: char)
    ensures IsSpace(c) <==> c as int in WHITE_SPACE
  {
    assert forall i :: 0 <= i < |WHITE_SPACE| ==> IsSpace(WHITE_SPACE[i] as char);
    var n := c as int;
    assert 0x9 <= n <= 0xD ==> WHITE_SPACE[n - 0x9] == n;
    assert 0x2000 <= n <= 0x200A ==> WHITE_SPACE[n - 0x2000 + 9] == n;
    assert WHITE_SPACE[5] == 0x20 && WHITE_SPACE[6] == 0x85 && WHITE_SPACE[7] == 0xA0 && WHITE_SPACE[8] == 0x1680;
    assert WHITE_SPACE[20] == 0x2028 && WHITE_SPACE[21] == 0x2029 && WHITE_SPACE[22] == 0x202F;
    assert WHITE_SPACE[23] == 0x205F && WHITE_SPACE[24] == 0x3000;
  }

  predicate IsBlank(s: string) {
    forall i :: 0 <= i < |s| ==> IsSpace(s[i])
  }

  // ---- The rules ----

  datatype Rule =
    | Schema | ScenarioName | RunName | TwoRuns | DistinctCompare | DuplicateRun | UndefinedRun
    | NothingExecutes | UnknownDriver | NoContrast | UnknownPath | DuplicateStep | MissingRole
    | UndeclaredRole | HelloStep | SleepShape | SleepReason | BadCommand | BadArgument | EmptyBatch
    | UnboundRole | StrayBinding | WrongDirection

  predicate RunDefined(s: Scenario, name: string) {
    exists r :: r in s.runs && r.name == name
  }

  /** The first run with a name. */
  function FindRun(runs: seq<Run>, name: string): Option<Run> {
    if runs == [] then None else if runs[0].name == name then Some(runs[0]) else FindRun(runs[1..], name)
  }

  /** The roles that drive at least one command. */
  function ActiveRoles(s: Scenario): set<string> {
    set step | step in s.steps && !step.cmd.IsSleep() && step.role.Some? :: step.role.value
  }

  predicate DistinctRunNames(runs: seq<Run>) {
    forall i, j :: 0 <= i < j < |runs| ==> runs[i].name != runs[j].name
  }

  predicate DistinctStepIds(steps: seq<ScenarioStep>) {
    forall i, j :: 0 <= i < j < |steps| ==> steps[i].id != steps[j].id
  }

  predicate KnownDrivers(run: Run) {
    forall role :: role in run.bind ==> run.bind[role] == "rust" || run.bind[role] == "go"
  }

  /** The ways in which a single step can break a rule. */
  predicate BreaksStep(s: Scenario, step: ScenarioStep, rule: Rule) {
    match rule
    case MissingRole => step.role.None? && !step.cmd.IsSleep()
    case UndeclaredRole => step.role.Some? && step.role.value !in s.roles
    case HelloStep => step.cmd.op == Some("hello")
    case SleepShape => step.cmd.IsSleep() && (step.cmd.ms.None? || step.cmd.fields != 2)
    case SleepReason => step.cmd.IsSleep() && (step.why.None? || IsBlank(step.why.value))
    case BadCommand => !step.cmd.IsSleep() && step.cmd.parsed.None?
    case BadArgument =>
      !step.cmd.IsSleep() && step.cmd.parsed.Some? && exists arg :: arg in Args(step.cmd.parsed.value) && !arg.Valid()
    case EmptyBatch =>
      !step.cmd.IsSleep() && step.cmd.parsed.Some? && step.cmd.parsed.value.ScanLocks?
      && step.cmd.parsed.value.batchSize == 0
    case _ => false
  }

  ghost predicate Runnable(s: Scenario, step: ScenarioStep) {
    forall rule :: !BreaksStep(s, step, rule)
  }

  /** Every run binds exactly the declared roles. */
  predicate BindsRoles(s: Scenario, run: Run) {
    (forall role :: role in s.roles ==> role in run.bind) && (forall role :: role in run.bind ==> role in s.roles)
  }

  /** What acceptance is to mean, rule by rule. */
  ghost predicate Acceptable(s: Scenario) {
    && s.schema == SCENARIO_SCHEMA && IsPlain(s.name)
    && (forall r :: r in s.runs ==> IsPlain(r.name))
    && |s.compare| == 2 && s.compare[0] != s.compare[1]
    && DistinctRunNames(s.runs)
    && RunDefined(s, s.compare[0]) && RunDefined(s, s.compare[1])
    && ActiveRoles(s) != {}
    && (forall r :: r in s.runs ==> KnownDrivers(r))
    && Spec(s.alsoCompare).Known()
    && DistinctStepIds(s.steps)
    && (forall step :: step in s.steps ==> Runnable(s, step))
    && (forall r :: r in s.runs ==> BindsRoles(s, r))
    && Contrasts(s) && Directed(s)
  }

  /** The two compared runs send this executing role to different drivers. */
  predicate Differ(s: Scenario, a: Run, b: Run, role: string) {
    && a in s.runs && b in s.runs && |s.compare| == 2
    && a.name == s.compare[0] && b.name == s.compare[1]
    && role in ActiveRoles(s) && a.Driver(role) != b.Driver(role)
  }

  ghost predicate Contrasts(s: Scenario) {
    exists a, b, role :: Differ(s, a, b, role)
  }

  /** Where they differ, the first has `go` and the second `rust`. */
  ghost predicate Directed(s: Scenario) {
    forall a, b, role :: Differ(s, a, b, role) ==> a.Driver(role) == Some("go") && b.Driver(role) == Some("rust")
  }

  /** What each refusal says of the scenario. */
  ghost predicate Broken(s: Scenario, rule: Rule) {
    match rule
    case Schema => s.schema != SCENARIO_SCHEMA
    case ScenarioName => !IsPlain(s.name)
    case RunName => exists r :: r in s.runs && !IsPlain(r.name)
    case TwoRuns => |s.compare| != 2
    case DistinctCompare => |s.compare| == 2 && s.compare[0] == s.compare[1]
    case DuplicateRun => !DistinctRunNames(s.runs)
    case UndefinedRun => |s.compare| == 2 && !(RunDefined(s, s.compare[0]) && RunDefined(s, s.compare[1]))
    case NothingExecutes => ActiveRoles(s) == {}
    case UnknownDriver => exists r :: r in s.runs && !KnownDrivers(r)
    case NoContrast => !Contrasts(s)
    case UnknownPath => !Spec(s.alsoCompare).Known()
    case DuplicateStep => !DistinctStepIds(s.steps)
    case UnboundRole => exists r, role :: r in s.runs && role in s.roles && role !in r.bind
    case StrayBinding => exists r, role :: r in s.runs && role in r.bind && role !in s.roles
    case WrongDirection => !Directed(s)
    case _ => exists step :: step in s.steps && BreaksStep(s, step, rule)
  }

  lemma {:induction false} FindRunFinds(runs: seq<Run>, name: string)
    ensures FindRun(runs, name).Some? <==> exists r :: r in runs && r.name == name
    ensures FindRun(runs, name).Some? ==> FindRun(runs, name).value in runs && FindRun(runs, name).value.name == name
  {
    if runs == [] {
    } else {
      FindRunFinds(runs[1..], name);
      assert runs == [runs[0]] + runs[1..];
    }
  }

  lemma NamedRunIsUnique(runs: seq<Run>, a: Run, b: Run)
    requires DistinctRunNames(runs) && a in runs && b in runs && a.name == b.name
    ensures a == b
  {
    var i :| 0 <= i < |runs| && runs[i] == a;
    var j :| 0 <= j < |runs| && runs[j] == b;
  }

  // ---- Validation ----

  method CheckNames(s: Scenario) returns (fault: Option<Rule>)
    ensures fault.None? <==> s.schema == SCENARIO_SCHEMA && IsPlain(s.name) && forall r :: r in s.runs ==> IsPlain(r.name)
    ensures fault.Some? ==> Broken(s, fault.value)
  {
    if s.schema != SCENARIO_SCHEMA {
      return Some(Schema);
    }
    if !IsPlain(s.name) {
      return Some(ScenarioName);
    }
    for i := 0 to |s.runs|
      invariant forall j :: 0 <= j < i ==> IsPlain(s.runs[j].name)
    {
      if !IsPlain(s.runs[i].name) {
        assert s.runs[i] in s.runs;
        return Some(RunName);
      }
    }
    fault := None;
  }

  method CheckRunNames(runs: seq<Run>) returns (fault: Option<Rule>)
    ensures fault == if DistinctRunNames(runs) then None else Some(DuplicateRun)
  {
    var seen: set<string> := {};
    for i := 0 to |runs|
      invariant forall j :: 0 <= j < i ==> runs[j].name in seen
      invariant forall name :: name in seen ==> exists j :: 0 <= j < i && runs[j].name == name
      invariant DistinctRunNames(runs[..i])
    {
      if runs[i].name in seen {
        var j :| 0 <= j < i && runs[j].name == runs[i].name;
        return Some(DuplicateRun);
      }
      assert runs[..i + 1] == runs[..i] + [runs[i]];
      seen := seen + {runs[i].name};
    }
    assert runs[..|runs|] == runs;
    fault := None;
  }

  method CheckDrivers(runs: seq<Run>) returns (fault: Option<Rule>)
    ensures fault == if forall r :: r in runs ==> KnownDrivers(r) then None else Some(UnknownDriver)
  {
    for i := 0 to |runs|
      invariant forall j :: 0 <= j < i ==> KnownDrivers(runs[j])
    {
      if !KnownDrivers(runs[i]) {
        assert runs[i] in runs;
        return Some(UnknownDriver);
      }
    }
    fault := None;
  }

  /** A runnable step names a declared role, parses, has usable arguments and is not the runner's own
      handshake; a lock scan can make progress; a sleep says for how long and why, and nothing else. */
  lemma RunnableMeans(s: Scenario, step: ScenarioStep)
    requires Runnable(s, step)
    ensures step.role.Some? ==> step.role.value in s.roles
    ensures step.cmd.op != Some("hello")
    ensures step.cmd.op == Some("sleep") ==> step.cmd.ms.Some? && step.cmd.fields == 2
    ensures step.cmd.op == Some("sleep") ==> step.why.Some? && exists c :: c in step.why.value && c as int !in WHITE_SPACE
    ensures step.cmd.op != Some("sleep") && step.cmd.parsed.Some? && step.cmd.parsed.value.ScanLocks? ==>
              step.cmd.parsed.value.batchSize > 0
    ensures step.cmd.op != Some("sleep") ==>
              step.role.Some? && step.cmd.parsed.Some? && forall arg :: arg in Args(step.cmd.parsed.value) ==> arg.Valid()
  {
    assert !BreaksStep(s, step, MissingRole) && !BreaksStep(s, step, UndeclaredRole);
    assert !BreaksStep(s, step, SleepShape) && !BreaksStep(s, step, SleepReason);
    assert !BreaksStep(s, step, BadCommand) && !BreaksStep(s, step, BadArgument);
    assert !BreaksStep(s, step, HelloStep) && !BreaksStep(s, step, EmptyBatch);
    if step.cmd.op == Some("sleep") {
      var i :| 0 <= i < |step.why.value| && !IsSpace(step.why.value[i]);
      SpacesAre(step.why.value[i]);
      assert step.why.value[i] in step.why.value;
    }
  }

  method CheckStep(s: Scenario, step: ScenarioStep) returns (fault: Option<Rule>)
    ensures fault.None? <==> Runnable(s, step)
    ensures fault.Some? ==> BreaksStep(s, step, fault.value)
  {
    if step.role.None? && !step.cmd.IsSleep() {
      assert BreaksStep(s, step, MissingRole);
      return Some(MissingRole);
    }
    if step.role.Some? && step.role.value !in s.roles {
      assert BreaksStep(s, step, UndeclaredRole);
      return Some(UndeclaredRole);
    }
    if step.cmd.op == Some("hello") {
      assert BreaksStep(s, step, HelloStep);
      return Some(HelloStep);
    }
    if step.cmd.IsSleep() {
      if step.cmd.ms.None? || step.cmd.fields != 2 {
        assert BreaksStep(s, step, SleepShape);
        return Some(SleepShape);
      }
      if step.why.None? || IsBlank(step.why.value) {
        assert BreaksStep(s, step, SleepReason);
        return Some(SleepReason);
      }
    } else {
      if step.cmd.parsed.None? {
        assert BreaksStep(s, step, BadCommand);
        return Some(BadCommand);
      }
      if exists arg :: arg in Args(step.cmd.parsed.value) && !arg.Valid() {
        assert BreaksStep(s, step, BadArgument);
        return Some(BadArgument);
      }
      if step.cmd.parsed.value.ScanLocks? && step.cmd.parsed.value.batchSize == 0 {
        assert BreaksStep(s, step, EmptyBatch);
        return Some(EmptyBatch);
      }
    }
    fault := None;
  }

  method CheckSteps(s: Scenario) returns (fault: Option<Rule>)
    ensures fault.None? <==> DistinctStepIds(s.steps) && forall step :: step in s.steps ==> Runnable(s, step)
    ensures fault.Some? ==> Broken(s, fault.value)
  {
    var ids: set<string> := {};
    for i := 0 to |s.steps|
      invariant forall j :: 0 <= j < i ==> s.steps[j].id in ids && Runnable(s, s.steps[j])
      invariant forall id :: id in ids ==> exists j :: 0 <= j < i && s.steps[j].id == id
      invariant DistinctStepIds(s.steps[..i])
    {
      if s.steps[i].id in ids {
        var j :| 0 <= j < i && s.steps[j].id == s.steps[i].id;
        return Some(DuplicateStep);
      }
      assert s.steps[..i + 1] == s.steps[..i] + [s.steps[i]];
      ids := ids + {s.steps[i].id};
      var broken := CheckStep(s, s.steps[i]);
      if broken.Some? {
        assert s.steps[i] in s.steps;
        return broken;
      }
    }
    assert s.steps[..|s.steps|] == s.steps;
    fault := None;
  }

  method CheckBindings(s: Scenario) returns (fault: Option<Rule>)
    ensures fault.None? <==> forall r :: r in s.runs ==> BindsRoles(s, r)
    ensures fault.Some? ==> Broken(s, fault.value)
  {
    for i := 0 to |s.runs|
      invariant forall j :: 0 <= j < i ==> BindsRoles(s, s.runs[j])
    {
      if exists role :: role in s.roles && role !in s.runs[i].bind {
        assert s.runs[i] in s.runs;
        return Some(UnboundRole);
      }
      if exists role :: role in s.runs[i].bind && role !in s.roles {
        assert s.runs[i] in s.runs;
        return Some(StrayBinding);
      }
    }
    fault := None;
  }

  /** The contrast between the two compared runs, looked up by name. */
  lemma ContrastByLookup(s: Scenario, a: Run, b: Run)
    requires |s.compare| == 2 && DistinctRunNames(s.runs)
    requires a in s.runs && b in s.runs && a.name == s.compare[0] && b.name == s.compare[1]
    ensures Contrasts(s) <==> exists role :: role in ActiveRoles(s) && a.Driver(role) != b.Driver(role)
    ensures Directed(s) <==> forall role :: role in ActiveRoles(s) && a.Driver(role) != b.Driver(role) ==>
                               a.Driver(role) == Some("go") && b.Driver(role) == Some("rust")
  {
    forall a', b', role | Differ(s, a', b', role)
      ensures a' == a && b' == b
    {
      NamedRunIsUnique(s.runs, a, a');
      NamedRunIsUnique(s.runs, b, b');
    }
    forall role | role in ActiveRoles(s) && a.Driver(role) != b.Driver(role)
      ensures Differ(s, a, b, role)
    {
    }
  }

  /** Accepts a scenario exactly when it is acceptable, and refuses it for a rule it breaks. */
  method Validate(s: Scenario) returns (r: Result<(), Rule>)
    ensures r.Ok? <==> Acceptable(s)
    ensures r.Err? ==> Broken(s, r.error)
  {
    var names := CheckNames(s);
    if names.Some? {
      return Err(names.value);
    }
    if |s.compare| != 2 {
      return Err(TwoRuns);
    }
    if s.compare[0] == s.compare[1] {
      return Err(DistinctCompare);
    }
    var distinct := CheckRunNames(s.runs);
    if distinct.Some? {
      return Err(distinct.value);
    }
    var a, b := FindRun(s.runs, s.compare[0]), FindRun(s.runs, s.compare[1]);
    FindRunFinds(s.runs, s.compare[0]);
    FindRunFinds(s.runs, s.compare[1]);
    if a.None? || b.None? {
      return Err(UndefinedRun);
    }
    r := ValidateRest(s, a.value, b.value);
  }

  method ValidateRest(s: Scenario, a: Run, b: Run) returns (r: Result<(), Rule>)
    requires |s.compare| == 2 && DistinctRunNames(s.runs)
    requires a in s.runs && b in s.runs && a.name == s.compare[0] && b.name == s.compare[1]
    ensures r.Ok? <==>
            && ActiveRoles(s) != {}
            && (forall run :: run in s.runs ==> KnownDrivers(run))
            && Spec(s.alsoCompare).Known()
            && DistinctStepIds(s.steps)
            && (forall step :: step in s.steps ==> Runnable(s, step))
            && (forall run :: run in s.runs ==> BindsRoles(s, run))
            && Contrasts(s) && Directed(s)
    ensures r.Err? ==> Broken(s, r.error)
  {
    ContrastByLookup(s, a, b);
    var active := ActiveRoles(s);
    if active == {} {
      return Err(NothingExecutes);
    }
    var drivers := CheckDrivers(s.runs);
    if drivers.Some? {
      return Err(drivers.value);
    }
    if forall role :: role in active ==> a.Driver(role) == b.Driver(role) {
      return Err(NoContrast);
    }
    var paths := Spec(s.alsoCompare).Validate();
    if paths.Err? {
      return Err(UnknownPath);
    }
    var steps := CheckSteps(s);
    if steps.Some? {
      return Err(steps.value);
    }
    var bindings := CheckBindings(s);
    if bindings.Some? {
      return Err(bindings.value);
    }
    if exists role :: role in active && a.Driver(role) != b.Driver(role)
                      && !(a.Driver(role) == Some("go") && b.Driver(role) == Some("rust")) {
      return Err(WrongDirection);
    }
    r := Result.Ok(());
  }

  /** What acceptance buys: some command of the scenario goes to client-go in the oracle run and
      to client-rust in the subject run, and no command goes the other way round. */
  lemma AcceptedScenariosExerciseTheSubject(s: Scenario) returns (step: ScenarioStep, oracle: Run, subject: Run)
    requires Acceptable(s)
    ensures step in s.steps && step.role.Some? && step.cmd.parsed.Some?
    ensures oracle in s.runs && subject in s.runs && oracle.name == s.compare[0] && subject.name == s.compare[1]
    ensures step.cmd.op != Some("sleep") && step.role.value in oracle.bind && step.role.value in subject.bind
    ensures oracle.bind[step.role.value] == "go" && subject.bind[step.role.value] == "rust"
    ensures forall other :: other in s.steps && other.cmd.op != Some("sleep") ==>
              && other.role.Some? && other.role.value in oracle.bind && other.role.value in subject.bind
              && (oracle.bind[other.role.value] == "rust" ==> subject.bind[other.role.value] == "rust")
  {
    var role: string;
    oracle, subject, role :| Differ(s, oracle, subject, role);
    step :| step in s.steps && !step.cmd.IsSleep() && step.role == Some(role);
    RunnableMeans(s, step);
    forall other | other in s.steps && !other.cmd.IsSleep()
      ensures other.role.Some? && other.role.value in oracle.bind && other.role.value in subject.bind
      ensures oracle.bind[other.role.value] == "rust" ==> subject.bind[other.role.value] == "rust"
    {
      RunnableMeans(s, other);
      var r := other.role.value;
      assert r in ActiveRoles(s);
      assert oracle.Driver(r) != subject.Driver(r) ==> Differ(s, oracle, subject, r);
      assert BindsRoles(s, oracle) && BindsRoles(s, subject);
    }
  }

  // ---- A scenario that is accepted ----

  /** One role, a go run and a rust run: open a client, wait, scan locks. */
  ghost function Example(): Scenario {
    Scenario(
      "parity-scenario/v1", "g-1", ["w"],
      [Run("oracle", map["w" := "go"]), Run("subject", map["w" := "rust"])],
      ["oracle", "subject"], ["errors.count"],
      [ScenarioStep("a", Some("w"), RawCommand(Some("open_client"), None, 2, Some(OpenClient("c"))), None, None),
       ScenarioStep("b", None, RawCommand(Some("sleep"), Some(10), 2, None), None, Some("the lock must expire")),
       ScenarioStep("c", Some("w"), RawCommand(Some("scan_locks"), None, 5, Some(ScanLocks("c", Utf8([]), Utf8([122]), 1))),
                    None, None)])
  }

  lemma ExampleNames()
    ensures IsPlain("g-1") && IsPlain("oracle") && IsPlain("subject") && "oracle" != "subject"
  {
    assert "oracle"[0] == 'o' && "subject"[0] == 's';
  }

  lemma ExampleStepsRun(step: ScenarioStep, rule: Rule)
    requires step in Example().steps
    ensures !BreaksStep(Example(), step, rule)
  {
    var s := Example();
    assert step == s.steps[0] || step == s.steps[1] || step == s.steps[2];
    assert s.steps[0].cmd.op.value[0] == 'o' && s.steps[1].cmd.op.value[0] == 's' && "hello"[0] == 'h';
    assert |s.steps[2].cmd.op.value| == 10 && |"sleep"| == 5 && |"hello"| == 5;
    assert s.steps[1].why.value[0] == 't' && !IsSpace('t');
    assert Args(s.steps[2].cmd.parsed.value) == [Utf8([]), Utf8([122])];
  }

  lemma ExampleRunsDiffer()
    ensures Contrasts(Example()) && Directed(Example())
    ensures ActiveRoles(Example()) != {}
  {
    var s := Example();
    ExampleNames();
    assert s.steps[0] in s.steps && !s.steps[0].cmd.IsSleep() by {
      assert s.steps[0].cmd.op.value[0] == 'o' && "sleep"[0] == 's';
    }
    assert "w" in ActiveRoles(s);
    assert s.runs[0] in s.runs && s.runs[1] in s.runs;
    assert "go"[0] == 'g' && "rust"[0] == 'r';
    assert Differ(s, s.runs[0], s.runs[1], "w");
    forall a, b, role | Differ(s, a, b, role)
      ensures a.Driver(role) == Some("go") && b.Driver(role) == Some("rust")
    {
      assert a == s.runs[0] && b == s.runs[1];
      assert role == "w";
    }
  }

  /** The rules can all be met, each in a way that matters: this scenario is accepted. */
  lemma ExampleIsAcceptable()
    ensures Acceptable(Example())
  {
    var s := Example();
    ExampleNames();
    ExampleRunsDiffer();
    assert s.runs[0] in s.runs && s.runs[1] in s.runs && RunDefined(s, "oracle") && RunDefined(s, "subject");
    ExampleSpecAndSteps();
  }

  lemma ExampleSpecAndSteps()
    ensures var s := Example();
            Spec(s.alsoCompare).Known() && DistinctStepIds(s.steps) && forall step :: step in s.steps ==> Runnable(s, step)
  {
    var s := Example();
    assert OPT_IN_PATHS[2] == "errors.count";
    assert s.steps[0].id[0] == 'a' && s.steps[1].id[0] == 'b' && s.steps[2].id[0] == 'c';
    forall step, rule | step in s.steps
      ensures !BreaksStep(s, step, rule)
    {
      ExampleStepsRun(step, rule);
    }
  }
}
