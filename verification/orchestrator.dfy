/** The two flows of src/index.ts, `addAllComponents` and the project-creation
    part of `main`, as a sequential state machine. File-system probes, the
    prompt's answer, the outcome of every started process and whether writing
    the configuration file fails are read from an `Environment`; a run yields
    the trace of issued commands, the configuration file it wrote, if any, and
    how it ended. */
module Orchestrator {
  import opened Types
  import opened Text
  import opened Utils
  import opened Constants
  import opened Prompts
  import opened Executor

  /** The commands the CLI issues, named by what they do. */
  datatype Call =
    | CreateNextApp(projectName: string)
    | NpmInstall
    | ShadcnInit
    | ShadcnAdd(component: string)

  /** One issued command and what the executor returned for it. */
  datatype Step = Step(call: Call, execution: Execution)

  /** Why a run stopped with exit status 1. */
  datatype AbortReason =
    | NotNextJsProject
    | MissingProjectName
    | InvalidProjectName
    | DirectoryExists
    | CommandFailed(call: Call)
    | ConfigWriteFailed

  datatype Status = Completed | Aborted(reason: AbortReason)

  /** A configuration file written by `writeConfig`. */
  datatype ConfigWrite = ConfigWrite(location: Location, fileName: string, config: OrbitConfig)

  datatype Run = Run(steps: seq<Step>, config: Option<ConfigWrite>, status: Status)

  /** What the flows observe of the outside world. `outcome(k)` is how the
      process started by the step at position `k` of the trace ends. */
  datatype Environment = Environment(
    isNextJsProject: bool,
    shadcnInitialized: bool,
    directoryExists: bool,
    promptTicks: seq<bool>,
    outcome: nat -> ProcessOutcome,
    configWriteFails: bool)

  /** `process.exit(1)` on every abort; a completed run ends normally. */
  function ExitCode(r: Run): (code: int)
    ensures code == 0 <==> r.status == Completed
    ensures code == 0 || code == 1
  {
    if r.status == Completed then 0 else 1
  }

  const CreateNextAppPackage: string := "create-next-app@latest"

  function CreateNextAppArgs(projectName: string): seq<string>
  {
    [projectName, "--typescript", "--tailwind", "--yes"]
  }

  /** The executor operation behind each call. */
  function Perform(call: Call, cwd: Option<Location>, dryRun: bool, outcome: ProcessOutcome): (e: Execution)
    ensures dryRun ==> e.spawned == None && e.result.success && e.result.output == None && e.result.error == None
    ensures !dryRun ==> e.spawned.Some? && (e.result.success <==> outcome.Exited? && outcome.exitCode == 0)
    ensures !dryRun && call.CreateNextApp? ==>
      e.spawned == Some(SpawnRequest("npx", ["create-next-app@latest", call.projectName, "--typescript", "--tailwind", "--yes"], cwd, None))
    ensures !dryRun && call.NpmInstall? ==> e.spawned == Some(SpawnRequest("npm", ["install"], cwd, None))
    ensures !dryRun && call.ShadcnInit? ==>
      e.spawned == Some(SpawnRequest("npx", ["shadcn@latest", "init"], cwd, Some("\n\n\n\n\n\n")))
    ensures !dryRun && call.ShadcnAdd? ==>
      e.spawned == Some(SpawnRequest("npx", ["shadcn@latest", "add", call.component], cwd, Some("\n")))
    ensures !dryRun && e.result.success ==> outcome.Exited? && e.result.output == Some(outcome.stdout)
    ensures !dryRun && outcome.Threw? ==> e.result.error == Some(outcome.message)
    ensures !dryRun && outcome.Exited? && outcome.exitCode != 0 ==>
      e.result.error == Some(ExitFailureMessage(outcome.exitCode, outcome.stderr))
  {
    match call
    case CreateNextApp(name) =>
      assert [CreateNextAppPackage] + CreateNextAppArgs(name)
          == ["create-next-app@latest", name, "--typescript", "--tailwind", "--yes"];
      ExecuteNpxCommand(CreateNextAppPackage, CreateNextAppArgs(name), cwd, dryRun, outcome)
    case NpmInstall => ExecuteCommand("npm", ["install"], cwd, dryRun, outcome)
    case ShadcnInit =>
      assert [ShadcnPackage] + ["init"] == ["shadcn@latest", "init"];
      assert ShadcnAnswers(["init"]) == Some(InitAnswers);
      ExecuteShadcnCommand(["init"], cwd, dryRun, outcome)
    case ShadcnAdd(c) =>
      assert [ShadcnPackage] + ["add", c] == ["shadcn@latest", "add", c];
      assert ShadcnAnswers(["add", c]) == Some(AddAnswers);
      ExecuteShadcnCommand(["add", c], cwd, dryRun, outcome)
  }

  /** The step at position `k` of the trace. */
  function Issue(call: Call, cwd: Option<Location>, dryRun: bool, env: Environment, k: nat): (s: Step)
    ensures s.call == call
    ensures RunsIn(s, cwd)
  {
    Step(call, Perform(call, cwd, dryRun, env.outcome(k)))
  }

  /** Whether the step at position `k` succeeds: always in a dry run, otherwise when its process exits with 0. */
  predicate StepSucceeds(dryRun: bool, env: Environment, k: nat)
  {
    dryRun || (env.outcome(k).Exited? && env.outcome(k).exitCode == 0)
  }

  /** A step that starts a process starts it in `cwd`. */
  predicate RunsIn(s: Step, cwd: Option<Location>)
  {
    s.execution.spawned.Some? ==> s.execution.spawned.value.cwd == cwd
  }

  predicate Succeeded(s: Step)
  {
    s.execution.result.success
  }

  function CallsOf(steps: seq<Step>): (calls: seq<Call>)
    ensures |calls| == |steps|
    ensures forall i :: 0 <= i < |steps| ==> calls[i] == steps[i].call
  {
    seq(|steps|, i requires 0 <= i < |steps| => steps[i].call)
  }

  /** One `add` call per component, in order. */
  function AddCalls(components: seq<string>): (calls: seq<Call>)
    ensures |calls| == |components|
    ensures forall i :: 0 <= i < |components| ==> calls[i] == ShadcnAdd(components[i])
  {
    seq(|components|, i requires 0 <= i < |components| => ShadcnAdd(components[i]))
  }

  /** The component loop: one `add` per component, from trace position `k` on.
      A failed `add` is reported and skipped, so the loop never stops early. */
  function AddEach(components: seq<string>, cwd: Option<Location>, dryRun: bool, env: Environment, k: nat): (steps: seq<Step>)
    ensures |steps| == |components|
    ensures forall i :: 0 <= i < |components| ==>
      steps[i] == Issue(ShadcnAdd(components[i]), cwd, dryRun, env, k + i)
    decreases |components|
  {
    if components == [] then []
    else [Issue(ShadcnAdd(components[0]), cwd, dryRun, env, k)] + AddEach(components[1..], cwd, dryRun, env, k + 1)
  }

  /** The configuration both flows persist. */
  function ConfigFor(components: seq<string>): (c: OrbitConfig)
    ensures c.components == components && c.tailwind && c.shadcnVersion == "latest"
  {
    OrbitConfig(components, true, DefaultShadcnVersion)
  }

  /** The end of both flows: the configuration is written unless this is a dry
      run, and a failing write is the unexpected error `main` turns into exit status 1. */
  function Finish(steps: seq<Step>, location: Location, components: seq<string>, dryRun: bool, env: Environment): (r: Run)
    ensures r.steps == steps
    ensures r.config.Some? <==> !dryRun && !env.configWriteFails
    ensures r.config.Some? ==> r.config.value == ConfigWrite(location, "orbit.config.json", ConfigFor(components))
    ensures r.status == Completed <==> dryRun || !env.configWriteFails
    ensures r.status != Completed ==> r.status == Aborted(ConfigWriteFailed)
  {
    if dryRun then Run(steps, None, Completed)
    else if env.configWriteFails then Run(steps, None, Aborted(ConfigWriteFailed))
    else Run(steps, Some(ConfigWrite(location, ConfigFileName, ConfigFor(components))), Completed)
  }

  // ===========================================================================
  // add-all

  /** `addAllComponents` over a list of component values, run in the current
      directory: refuse outside a Next.js project, run `init` first unless
      shadcn/ui is already set up, then one `add` per value. */
  function AddAllOf(values: seq<string>, dryRun: bool, env: Environment): (r: Run)
  {
    if !env.isNextJsProject then Run([], None, Aborted(NotNextJsProject))
    else
      var here := Some(WorkingDirectory);
      var init := if env.shadcnInitialized then [] else [Issue(ShadcnInit, here, dryRun, env, 0)];
      if init != [] && !Succeeded(init[0]) then Run(init, None, Aborted(CommandFailed(ShadcnInit)))
      else
        var adds := AddEach(values, here, dryRun, env, |init|);
        Finish(init + adds, WorkingDirectory, values, dryRun, env)
  }

  /** `addAllComponents`: the whole catalog, in catalog order. */
  function AddAllComponents(dryRun: bool, env: Environment): Run
  {
    AddAllOf(CatalogValues, dryRun, env)
  }

  // ===========================================================================
  // create

  /** Which components the create flow installs: the whole catalog with `--all`,
      else the parsed `--components` value when it is not empty, else the prompt's answer. */
  function SelectComponents(args: CliArgs, ticks: seq<bool>): (r: seq<string>)
    ensures forall v :: v in r ==> IsIdentifier(v)
  {
    CatalogValuesCanonical();
    if args.all then CatalogValues
    else if args.components.Some? && args.components.value != "" then ParseComponentsString(args.components.value)
    else PromptForComponents(ticks)
  }

  /** The commands the create flow issues before any component: create-next-app,
      `npm install` unless `--no-install` or a dry run, then `shadcn init`. */
  function SetupPlan(args: CliArgs): (plan: seq<Call>)
    ensures |plan| == if !args.noInstall && !args.dryRun then 3 else 2
    ensures plan[0] == CreateNextApp(args.projectName) && plan[|plan| - 1] == ShadcnInit
  {
    [CreateNextApp(args.projectName)]
      + (if !args.noInstall && !args.dryRun then [NpmInstall] else [])
      + [ShadcnInit]
  }

  /** The checks before anything is issued: a name, a valid name, no directory of that name. */
  predicate PassesGates(args: CliArgs, env: Environment)
  {
    args.projectName != "" && ValidateProjectName(args.projectName) && !env.directoryExists
  }

  /** Whether `npm install` is part of the setup. */
  predicate Installs(args: CliArgs)
  {
    !args.noInstall && !args.dryRun
  }

  /** The create and install steps, as issued when both succeed. */
  function Prelude(args: CliArgs, env: Environment): seq<Step>
  {
    var project := Some(ProjectDirectory(args.projectName));
    [Issue(CreateNextApp(args.projectName), None, args.dryRun, env, 0)]
      + (if Installs(args) then [Issue(NpmInstall, project, args.dryRun, env, 1)] else [])
  }

  /** The create branch of `main` with the component selection already made:
      the selection is a pure function of the arguments and the prompt's answer,
      so making it up front changes nothing; it is only used once the setup has succeeded. */
  function CreateWith(args: CliArgs, env: Environment, selection: seq<string>): (r: Run)
  {
    var name := args.projectName;
    if name == "" then Run([], None, Aborted(MissingProjectName))
    else if !ValidateProjectName(name) then Run([], None, Aborted(InvalidProjectName))
    else if env.directoryExists then Run([], None, Aborted(DirectoryExists))
    else
      var project := Some(ProjectDirectory(name));
      var create := Issue(CreateNextApp(name), None, args.dryRun, env, 0);
      if !Succeeded(create) then Run([create], None, Aborted(CommandFailed(CreateNextApp(name))))
      else
        var install := if Installs(args) then [Issue(NpmInstall, project, args.dryRun, env, 1)] else [];
        if install != [] && !Succeeded(install[0]) then Run([create] + install, None, Aborted(CommandFailed(NpmInstall)))
        else
          var before := [create] + install;
          var init := Issue(ShadcnInit, project, args.dryRun, env, |before|);
          if !Succeeded(init) then Run(before + [init], None, Aborted(CommandFailed(ShadcnInit)))
          else
            var adds := AddEach(selection, project, args.dryRun, env, |before| + 1);
            Finish(before + [init] + adds, ProjectDirectory(name), selection, args.dryRun, env)
  }

  /** The create branch of `main`. */
  function CreateProject(args: CliArgs, env: Environment): Run
  {
    CreateWith(args, env, SelectComponents(args, env.promptTicks))
  }

  /** `main`: parse the tokens after the program name, then run the chosen flow. */
  function Main(tokens: seq<string>, env: Environment): Run
  {
    var args := ParseArgs(tokens);
    if args.command == AddAll then AddAllComponents(args.dryRun, env) else CreateProject(args, env)
  }

  // ===========================================================================
  // trace helpers

  lemma CallsOfAppend(a: seq<Step>, b: seq<Step>)
    ensures CallsOf(a + b) == CallsOf(a) + CallsOf(b)
  {
  }

  lemma CallsOfAddEach(components: seq<string>, cwd: Option<Location>, dryRun: bool, env: Environment, k: nat)
    ensures CallsOf(AddEach(components, cwd, dryRun, env, k)) == AddCalls(components)
  {
  }

  /** A step succeeds exactly when its trace position is a successful one. */
  lemma IssueSucceeds(call: Call, cwd: Option<Location>, dryRun: bool, env: Environment, k: nat)
    ensures Succeeded(Issue(call, cwd, dryRun, env, k)) <==> StepSucceeds(dryRun, env, k)
  {
  }

  /** In a dry run no step starts a process, and every one succeeds. */
  lemma DryIssue(call: Call, cwd: Option<Location>, env: Environment, k: nat)
    ensures Issue(call, cwd, true, env, k).execution.spawned == None
    ensures Succeeded(Issue(call, cwd, true, env, k))
  {
  }

  /** ... and so does none of the component loop. */
  lemma AddEachDryRun(components: seq<string>, cwd: Option<Location>, env: Environment, k: nat)
    ensures forall s :: s in AddEach(components, cwd, true, env, k) ==> s.execution.spawned == None && Succeeded(s)
  {
    var steps := AddEach(components, cwd, true, env, k);
    forall s | s in steps ensures s.execution.spawned == None && Succeeded(s) {
      var i :| 0 <= i < |steps| && steps[i] == s;
    }
  }

  // ===========================================================================
  // add-all

  /** Outside a Next.js project add-all stops with status 1 before issuing anything. */
  lemma AddAllRequiresNextJs(values: seq<string>, dryRun: bool, env: Environment)
    requires !env.isNextJsProject
    ensures AddAllOf(values, dryRun, env).steps == []
    ensures AddAllOf(values, dryRun, env).config == None
    ensures ExitCode(AddAllOf(values, dryRun, env)) == 1
  {
  }

  /** `init` is issued exactly when shadcn/ui is not initialised yet, and then
      first; when it fails the run stops there with status 1. */
  lemma AddAllInit(values: seq<string>, dryRun: bool, env: Environment)
    requires env.isNextJsProject
    ensures var r := AddAllOf(values, dryRun, env);
      ShadcnInit in CallsOf(r.steps) <==> !env.shadcnInitialized
    ensures var r := AddAllOf(values, dryRun, env);
      !env.shadcnInitialized ==> r.steps[0].call == ShadcnInit
    ensures var r := AddAllOf(values, dryRun, env);
      !env.shadcnInitialized && !StepSucceeds(dryRun, env, 0) ==>
        CallsOf(r.steps) == [ShadcnInit] && r.config == None && r.status == Aborted(CommandFailed(ShadcnInit))
  {
    var r := AddAllOf(values, dryRun, env);
    var here := Some(WorkingDirectory);
    var init := if env.shadcnInitialized then [] else [Issue(ShadcnInit, here, dryRun, env, 0)];
    IssueSucceeds(ShadcnInit, here, dryRun, env, 0);
    if !(init != [] && !Succeeded(init[0])) {
      var adds := AddEach(values, here, dryRun, env, |init|);
      assert r.steps == init + adds;
      CallsOfAppend(init, adds);
      CallsOfAddEach(values, here, dryRun, env, |init|);
      assert ShadcnInit !in AddCalls(values);
    }
  }

  /** Once `init` is done or not needed, add-all issues one `add` per value in
      order, whatever their outcomes, and unless this is a dry run writes the
      configuration listing those values in the current directory. */
  lemma AddAllInstallsEach(values: seq<string>, dryRun: bool, env: Environment)
    requires env.isNextJsProject
    requires env.shadcnInitialized || StepSucceeds(dryRun, env, 0)
    ensures var r := AddAllOf(values, dryRun, env);
      CallsOf(r.steps) == (if env.shadcnInitialized then [] else [ShadcnInit]) + AddCalls(values)
    ensures var r := AddAllOf(values, dryRun, env);
      r.config.Some? <==> !dryRun && !env.configWriteFails
    ensures var r := AddAllOf(values, dryRun, env);
      r.config.Some? ==> r.config.value == ConfigWrite(WorkingDirectory, "orbit.config.json", OrbitConfig(values, true, "latest"))
    ensures ExitCode(AddAllOf(values, dryRun, env)) == 0 <==> dryRun || !env.configWriteFails
  {
    var here := Some(WorkingDirectory);
    var init := if env.shadcnInitialized then [] else [Issue(ShadcnInit, here, dryRun, env, 0)];
    IssueSucceeds(ShadcnInit, here, dryRun, env, 0);
    var adds := AddEach(values, here, dryRun, env, |init|);
    assert AddAllOf(values, dryRun, env) == Finish(init + adds, WorkingDirectory, values, dryRun, env);
    CallsOfAppend(init, adds);
    CallsOfAddEach(values, here, dryRun, env, |init|);
    assert CallsOf(init) == if env.shadcnInitialized then [] else [ShadcnInit];
  }

  /** A dry add-all starts no process and writes no file. */
  lemma AddAllDryRun(values: seq<string>, env: Environment)
    ensures AddAllOf(values, true, env).config == None
    ensures forall s :: s in AddAllOf(values, true, env).steps ==> s.execution.spawned == None
  {
    var here := Some(WorkingDirectory);
    DryIssue(ShadcnInit, here, env, 0);
    var init := if env.shadcnInitialized then [] else [Issue(ShadcnInit, here, true, env, 0)];
    AddEachDryRun(values, here, env, |init|);
  }

  /** Every process add-all starts runs in the current directory. */
  lemma AddAllLocations(values: seq<string>, dryRun: bool, env: Environment)
    ensures forall s :: s in AddAllOf(values, dryRun, env).steps ==> RunsIn(s, Some(WorkingDirectory))
  {
    var here := Some(WorkingDirectory);
    var init := if env.shadcnInitialized then [] else [Issue(ShadcnInit, here, dryRun, env, 0)];
    AddEachLocations(values, here, dryRun, env, |init|);
  }

  // ===========================================================================
  // create

  /** A missing name, an invalid name or an existing directory stops the run with
      status 1 before any command is issued. */
  lemma CreateGates(args: CliArgs, env: Environment, selection: seq<string>)
    requires !PassesGates(args, env)
    ensures CreateWith(args, env, selection).steps == []
    ensures CreateWith(args, env, selection).config == None
    ensures ExitCode(CreateWith(args, env, selection)) == 1
    ensures args.projectName == "" ==> CreateWith(args, env, selection).status == Aborted(MissingProjectName)
    ensures args.projectName != "" && !ValidateProjectName(args.projectName) ==>
      CreateWith(args, env, selection).status == Aborted(InvalidProjectName)
  {
  }

  /** The setup trace is the plan, step by step. */
  lemma PreludeCalls(args: CliArgs, env: Environment)
    ensures CallsOf(Prelude(args, env) + [Issue(ShadcnInit, Some(ProjectDirectory(args.projectName)), args.dryRun, env, |Prelude(args, env)|)])
         == SetupPlan(args)
    ensures |Prelude(args, env)| == |SetupPlan(args)| - 1
  {
    var project := Some(ProjectDirectory(args.projectName));
    var before := Prelude(args, env);
    var init := Issue(ShadcnInit, project, args.dryRun, env, |before|);
    PlanOfSteps(args, before, init);
  }

  /** Steps whose calls follow the setup plan, whatever their outcomes. */
  lemma PlanOfSteps(args: CliArgs, before: seq<Step>, init: Step)
    requires |before| == if Installs(args) then 2 else 1
    requires before[0].call == CreateNextApp(args.projectName)
    requires Installs(args) ==> before[1].call == NpmInstall
    requires init.call == ShadcnInit
    ensures CallsOf(before + [init]) == SetupPlan(args)
  {
    var calls := CallsOf(before + [init]);
    if Installs(args) {
      assert calls == [CreateNextApp(args.projectName), NpmInstall, ShadcnInit];
    } else {
      assert calls == [CreateNextApp(args.projectName), ShadcnInit];
    }
  }

  /** When every setup command succeeds, the create flow goes on to the selected components. */
  lemma CreateAfterSetup(args: CliArgs, env: Environment, selection: seq<string>)
    requires PassesGates(args, env)
    requires forall m :: 0 <= m < |SetupPlan(args)| ==> StepSucceeds(args.dryRun, env, m)
    ensures var project := Some(ProjectDirectory(args.projectName));
      var before := Prelude(args, env);
      var init := Issue(ShadcnInit, project, args.dryRun, env, |before|);
      CreateWith(args, env, selection)
        == Finish(before + [init] + AddEach(selection, project, args.dryRun, env, |before| + 1),
                  ProjectDirectory(args.projectName), selection, args.dryRun, env)
  {
    var name := args.projectName;
    var project := Some(ProjectDirectory(name));
    var create := Issue(CreateNextApp(name), None, args.dryRun, env, 0);
    var install := if Installs(args) then [Issue(NpmInstall, project, args.dryRun, env, 1)] else [];
    IssueSucceeds(CreateNextApp(name), None, args.dryRun, env, 0);
    IssueSucceeds(NpmInstall, project, args.dryRun, env, 1);
    assert StepSucceeds(args.dryRun, env, 0);
    assert Installs(args) ==> StepSucceeds(args.dryRun, env, 1);
    assert Succeeded(create);
    assert install != [] ==> Succeeded(install[0]);
    var before := [create] + install;
    assert before == Prelude(args, env);
    PreludeCalls(args, env);
    var init := Issue(ShadcnInit, project, args.dryRun, env, |before|);
    IssueSucceeds(ShadcnInit, project, args.dryRun, env, |before|);
    assert StepSucceeds(args.dryRun, env, |before|);
    assert Succeeded(init);
  }

  /** The setup commands run in order and the first failing one ends the run with
      status 1: the trace stops at it and no configuration is written. */
  lemma CreateSetupAborts(args: CliArgs, env: Environment, selection: seq<string>, n: nat)
    requires PassesGates(args, env)
    requires n < |SetupPlan(args)|
    requires forall m :: 0 <= m < n ==> StepSucceeds(args.dryRun, env, m)
    requires !StepSucceeds(args.dryRun, env, n)
    ensures CallsOf(CreateWith(args, env, selection).steps) == SetupPlan(args)[..n + 1]
    ensures CreateWith(args, env, selection).status == Aborted(CommandFailed(SetupPlan(args)[n]))
    ensures CreateWith(args, env, selection).config == None
  {
    var r := CreateWith(args, env, selection);
    var plan := SetupPlan(args);
    var name := args.projectName;
    var project := Some(ProjectDirectory(name));
    var create := Issue(CreateNextApp(name), None, args.dryRun, env, 0);
    IssueSucceeds(CreateNextApp(name), None, args.dryRun, env, 0);
    var install := if Installs(args) then [Issue(NpmInstall, project, args.dryRun, env, 1)] else [];
    IssueSucceeds(NpmInstall, project, args.dryRun, env, 1);
    if n == 0 {
      assert r == Run([create], None, Aborted(CommandFailed(CreateNextApp(name))));
      assert plan[..1] == [CreateNextApp(name)];
    } else {
      assert StepSucceeds(args.dryRun, env, 0);
      if Installs(args) && n == 1 {
        assert r == Run([create] + install, None, Aborted(CommandFailed(NpmInstall)));
        assert plan[..2] == [CreateNextApp(name), NpmInstall];
        assert CallsOf(r.steps) == [CreateNextApp(name), NpmInstall];
      } else {
        assert Installs(args) ==> StepSucceeds(args.dryRun, env, 1);
        var before := [create] + install;
        var init := Issue(ShadcnInit, project, args.dryRun, env, |before|);
        IssueSucceeds(ShadcnInit, project, args.dryRun, env, |before|);
        PreludeCalls(args, env);
        assert before == Prelude(args, env);
        assert r == Run(before + [init], None, Aborted(CommandFailed(ShadcnInit)));
        assert plan[..n + 1] == plan;
      }
    }
  }

  /** When every setup command succeeds, the trace is the setup followed by one
      `add` per selected component, whatever the `add` outcomes; the configuration
      records the selection itself, in the project directory. */
  lemma CreateSetupSucceeds(args: CliArgs, env: Environment, selection: seq<string>)
    requires PassesGates(args, env)
    requires forall m :: 0 <= m < |SetupPlan(args)| ==> StepSucceeds(args.dryRun, env, m)
    ensures CallsOf(CreateWith(args, env, selection).steps) == SetupPlan(args) + AddCalls(selection)
    ensures CreateWith(args, env, selection).config.Some? <==> !args.dryRun && !env.configWriteFails
    ensures var r := CreateWith(args, env, selection);
      r.config.Some? ==> r.config.value == ConfigWrite(ProjectDirectory(args.projectName), "orbit.config.json",
                                                      OrbitConfig(selection, true, "latest"))
    ensures ExitCode(CreateWith(args, env, selection)) == 0 <==> args.dryRun || !env.configWriteFails
  {
    CreateAfterSetup(args, env, selection);
    PreludeCalls(args, env);
    var project := Some(ProjectDirectory(args.projectName));
    var before := Prelude(args, env);
    var init := Issue(ShadcnInit, project, args.dryRun, env, |before|);
    var adds := AddEach(selection, project, args.dryRun, env, |before| + 1);
    CallsOfAppend(before + [init], adds);
    CallsOfAddEach(selection, project, args.dryRun, env, |before| + 1);
  }

  /** Every step the create flow would issue if nothing failed. */
  function PlannedTrace(args: CliArgs, env: Environment, selection: seq<string>): seq<Step>
  {
    var project := Some(ProjectDirectory(args.projectName));
    var before := Prelude(args, env);
    before + [Issue(ShadcnInit, project, args.dryRun, env, |before|)]
      + AddEach(selection, project, args.dryRun, env, |before| + 1)
  }

  /** Past the checks, the create trace is a non-empty prefix of the planned trace. */
  lemma CreatePrefix(args: CliArgs, env: Environment, selection: seq<string>)
    requires PassesGates(args, env)
    ensures var steps := CreateWith(args, env, selection).steps;
      steps != [] && steps <= PlannedTrace(args, env, selection)
  {
    var r := CreateWith(args, env, selection);
    var name := args.projectName;
    var project := Some(ProjectDirectory(name));
    var create := Issue(CreateNextApp(name), None, args.dryRun, env, 0);
    var install := if Installs(args) then [Issue(NpmInstall, project, args.dryRun, env, 1)] else [];
    var before := [create] + install;
    assert before == Prelude(args, env);
    var init := Issue(ShadcnInit, project, args.dryRun, env, |before|);
    var adds := AddEach(selection, project, args.dryRun, env, |before| + 1);
    var full := before + [init] + adds;
    assert full == PlannedTrace(args, env, selection);
    if !Succeeded(create) {
      assert r == Run([create], None, Aborted(CommandFailed(CreateNextApp(name))));
      assert full[..1] == [create];
    } else if install != [] && !Succeeded(install[0]) {
      assert r == Run(before, None, Aborted(CommandFailed(NpmInstall)));
      assert full[..|before|] == before;
    } else if !Succeeded(init) {
      assert r == Run(before + [init], None, Aborted(CommandFailed(ShadcnInit)));
      assert full[..|before| + 1] == before + [init];
    } else {
      assert r == Finish(full, ProjectDirectory(name), selection, args.dryRun, env);
    }
  }

  /** The planned trace starts with `create-next-app` in no particular directory,
      and runs everything after it in the project's directory. */
  lemma PlannedLocations(args: CliArgs, env: Environment, selection: seq<string>)
    ensures var full := PlannedTrace(args, env, selection);
      full != [] && full[0].call == CreateNextApp(args.projectName) && RunsIn(full[0], None)
    ensures var full := PlannedTrace(args, env, selection);
      forall i :: 1 <= i < |full| ==> RunsIn(full[i], Some(ProjectDirectory(args.projectName)))
  {
    var project := Some(ProjectDirectory(args.projectName));
    var before := Prelude(args, env);
    var init := Issue(ShadcnInit, project, args.dryRun, env, |before|);
    var adds := AddEach(selection, project, args.dryRun, env, |before| + 1);
    PreludeLocations(args, env);
    LocationsAfterFirst(before, [init], project);
    AddEachLocations(selection, project, args.dryRun, env, |before| + 1);
    LocationsAfterFirst(before + [init], adds, project);
    assert (before + [init] + adds)[0] == before[0];
  }

  lemma PreludeLocations(args: CliArgs, env: Environment)
    ensures var before := Prelude(args, env);
      before != [] && before[0] == Issue(CreateNextApp(args.projectName), None, args.dryRun, env, 0)
    ensures var before := Prelude(args, env);
      forall i :: 1 <= i < |before| ==> RunsIn(before[i], Some(ProjectDirectory(args.projectName)))
  {
  }

  /** The component loop runs every `add` in the directory it is given. */
  lemma AddEachLocations(components: seq<string>, cwd: Option<Location>, dryRun: bool, env: Environment, k: nat)
    ensures forall s :: s in AddEach(components, cwd, dryRun, env, k) ==> RunsIn(s, cwd)
  {
    var adds := AddEach(components, cwd, dryRun, env, k);
    forall s | s in adds ensures RunsIn(s, cwd) {
      var i :| 0 <= i < |adds| && adds[i] == s;
    }
  }

  /** `create-next-app` runs first, with no working directory given, and every
      later command of the create flow runs in the new project's directory. */
  lemma CreateLocations(args: CliArgs, env: Environment, selection: seq<string>)
    requires PassesGates(args, env)
    ensures var r := CreateWith(args, env, selection);
      r.steps != [] && r.steps[0].call == CreateNextApp(args.projectName) && RunsIn(r.steps[0], None)
    ensures var r := CreateWith(args, env, selection);
      forall i :: 1 <= i < |r.steps| ==> RunsIn(r.steps[i], Some(ProjectDirectory(args.projectName)))
  {
    var steps := CreateWith(args, env, selection).steps;
    var full := PlannedTrace(args, env, selection);
    CreatePrefix(args, env, selection);
    PlannedLocations(args, env, selection);
    assert forall i :: 0 <= i < |steps| ==> steps[i] == full[i];
  }

  /** Appending steps that all run in `cwd` keeps "every step after the first runs in `cwd`". */
  lemma LocationsAfterFirst(head: seq<Step>, tail: seq<Step>, cwd: Option<Location>)
    requires head != []
    requires forall i :: 1 <= i < |head| ==> RunsIn(head[i], cwd)
    requires forall s :: s in tail ==> RunsIn(s, cwd)
    ensures forall i :: 1 <= i < |head + tail| ==> RunsIn((head + tail)[i], cwd)
  {
    forall i | 1 <= i < |head + tail| ensures RunsIn((head + tail)[i], cwd) {
      if i >= |head| {
        assert (head + tail)[i] == tail[i - |head|];
        assert tail[i - |head|] in tail;
      }
    }
  }

  /** Which setup step fails first, if any. */
  lemma FirstFailure(args: CliArgs, env: Environment)
    ensures (forall m :: 0 <= m < |SetupPlan(args)| ==> StepSucceeds(args.dryRun, env, m))
         || exists n :: 0 <= n < |SetupPlan(args)| && !StepSucceeds(args.dryRun, env, n)
              && forall m :: 0 <= m < n ==> StepSucceeds(args.dryRun, env, m)
  {
    var last := |SetupPlan(args)| - 1;
    if !StepSucceeds(args.dryRun, env, 0) {
      assert 0 < |SetupPlan(args)|;
    } else if !StepSucceeds(args.dryRun, env, 1) {
      assert forall m :: 0 <= m < 1 ==> StepSucceeds(args.dryRun, env, m);
    } else if !StepSucceeds(args.dryRun, env, last) {
      assert forall m :: 0 <= m < last ==> StepSucceeds(args.dryRun, env, m);
    }
  }

  /** The outcomes of the `add` steps change nothing but those steps' own results:
      two environments that agree up to the end of the setup give the same calls,
      the same configuration and the same exit status. */
  lemma CreateIgnoresAddOutcomes(args: CliArgs, env1: Environment, env2: Environment, selection: seq<string>)
    requires env1.directoryExists == env2.directoryExists && env1.configWriteFails == env2.configWriteFails
    requires forall m: nat :: m < |SetupPlan(args)| ==> env1.outcome(m) == env2.outcome(m)
    ensures CallsOf(CreateWith(args, env1, selection).steps) == CallsOf(CreateWith(args, env2, selection).steps)
    ensures CreateWith(args, env1, selection).config == CreateWith(args, env2, selection).config
    ensures CreateWith(args, env1, selection).status == CreateWith(args, env2, selection).status
  {
    if PassesGates(args, env1) {
      var plan := SetupPlan(args);
      assert forall m :: 0 <= m < |plan| ==> (StepSucceeds(args.dryRun, env1, m) <==> StepSucceeds(args.dryRun, env2, m));
      FirstFailure(args, env1);
      if forall m :: 0 <= m < |plan| ==> StepSucceeds(args.dryRun, env1, m) {
        CreateSetupSucceeds(args, env1, selection);
        CreateSetupSucceeds(args, env2, selection);
      } else {
        var n :| 0 <= n < |plan| && !StepSucceeds(args.dryRun, env1, n) &&
          forall m :: 0 <= m < n ==> StepSucceeds(args.dryRun, env1, m);
        CreateSetupAborts(args, env1, selection, n);
        CreateSetupAborts(args, env2, selection, n);
      }
    }
  }

  /** A dry create starts no process and writes no file; past the checks it
      always completes, and it never runs `npm install`. */
  lemma CreateDryRun(args: CliArgs, env: Environment, selection: seq<string>)
    requires args.dryRun
    ensures CreateWith(args, env, selection).config == None
    ensures forall s :: s in CreateWith(args, env, selection).steps ==> s.execution.spawned == None
    ensures NpmInstall !in CallsOf(CreateWith(args, env, selection).steps)
    ensures PassesGates(args, env) ==> CreateWith(args, env, selection).status == Completed
  {
    if PassesGates(args, env) {
      var project := Some(ProjectDirectory(args.projectName));
      CreateSetupSucceeds(args, env, selection);
      CreateAfterSetup(args, env, selection);
      var before := Prelude(args, env);
      DryIssue(CreateNextApp(args.projectName), None, env, 0);
      DryIssue(ShadcnInit, project, env, |before|);
      AddEachDryRun(selection, project, env, |before| + 1);
      assert NpmInstall !in SetupPlan(args);
    }
  }

  // ===========================================================================
  // main

  /** A first token `add-all` runs add-all over the catalog, with `--dry-run`
      anywhere on the line; any other line runs the create flow. */
  lemma MainDispatch(tokens: seq<string>, env: Environment)
    ensures |tokens| > 0 && tokens[0] == "add-all" ==>
      Main(tokens, env) == AddAllOf(CatalogValues, HasFlag(tokens, "--dry-run"), env)
    ensures !(|tokens| > 0 && tokens[0] == "add-all") ==>
      Main(tokens, env) == CreateWith(ParseArgs(tokens), env, SelectComponents(ParseArgs(tokens), env.promptTicks))
  {
    ParseArgsBooleanFlag(tokens, "--dry-run");
  }

  /** `--dry-run` anywhere on the line: no process is started and no file is written, in either flow. */
  lemma MainDryRun(tokens: seq<string>, env: Environment)
    requires HasFlag(tokens, "--dry-run")
    ensures Main(tokens, env).config == None
    ensures forall s :: s in Main(tokens, env).steps ==> s.execution.spawned == None
  {
    var args := ParseArgs(tokens);
    ParseArgsBooleanFlag(tokens, "--dry-run");
    if args.command == AddAll {
      AddAllDryRun(CatalogValues, env);
    } else {
      CreateDryRun(args, env, SelectComponents(args, env.promptTicks));
    }
  }

  /** `--all` wins over everything; without `--all` and `--components` the prompt decides. */
  lemma SelectionPrecedence(tokens: seq<string>, ticks: seq<bool>)
    ensures HasFlag(tokens, "--all") ==> SelectComponents(ParseArgs(tokens), ticks) == CatalogValues
    ensures !HasFlag(tokens, "--all") && !HasFlag(tokens, "--components") ==>
      SelectComponents(ParseArgs(tokens), ticks) == PromptForComponents(ticks)
  {
    ParseArgsBooleanFlag(tokens, "--all");
    if !HasFlag(tokens, "--components") {
      ParseArgsNoComponents(tokens);
    }
  }

  /** Without `--all`, the last `--components` flag decides: its value split at
      commas, or the prompt when the value is empty (a bare `--components` included). */
  lemma SelectionFromComponentsFlag(tokens: seq<string>, ticks: seq<bool>, i: nat)
    requires i < |tokens|
    requires IsLongFlag(tokens[i]) && FlagName(tokens[i]) == "--components"
    requires !HasFlag(tokens[i + 1..], "--components")
    requires !HasFlag(tokens, "--all")
    ensures SelectComponents(ParseArgs(tokens), ticks)
         == if FlagValue(tokens[i]) == "" then PromptForComponents(ticks) else ParseComponentsString(FlagValue(tokens[i]))
  {
    ParseArgsBooleanFlag(tokens, "--all");
    ParseArgsComponents(tokens, i);
  }
}
