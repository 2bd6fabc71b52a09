/** Result shaping of src/executor.ts. The child process is not run: its
    outcome is an input, and each operation returns the `CommandResult` the
    source builds from it together with the spawn request the source would
    make (none in dry-run mode). */
module Executor {
  import opened Types
  import opened Text

  /** The working directory handed to a child process. The paths themselves are
      opaque: the current directory of the CLI, or the resolved path of a new project. */
  datatype Location = WorkingDirectory | ProjectDirectory(name: string)

  /** What `execa` is asked to start: program, arguments, working directory
      (absent when the caller passes none) and the text piped to its standard input. */
  datatype SpawnRequest = SpawnRequest(program: string, args: seq<string>, cwd: Option<Location>, input: Option<string>)

  /** How a started process ended: with an exit code and its captured output,
      or with an exception raised while starting or running it. */
  datatype ProcessOutcome =
    | Exited(exitCode: int, stdout: string, stderr: string)
    | Threw(message: string)

  /** One call of an executor operation: the result it returns and the process it starts, if any. */
  datatype Execution = Execution(result: CommandResult, spawned: Option<SpawnRequest>)

  const FailurePrefix: string := "Command failed with exit code "
  const ShadcnPackage: string := "shadcn@latest"
  /** Default answers piped to `shadcn init` (six prompts) and `shadcn add` (one). */
  const InitAnswers: string := "\n\n\n\n\n\n"
  const AddAnswers: string := "\n"

  /** The human-readable command line: the command, a space, and the arguments joined by spaces. */
  function FullCommand(command: string, args: seq<string>): string
  {
    command + " " + Join(args, ' ')
  }

  /** A result is well shaped when it carries an error exactly when it failed,
      and output only when it succeeded. */
  predicate WellShaped(r: CommandResult)
  {
    && (r.success <==> r.error.None?)
    && (r.output.Some? ==> r.success)
  }

  /** The error text for a failed exit: the captured standard error, or a
      message naming the exit code when standard error is empty. */
  function ExitFailureMessage(exitCode: int, stderr: string): (m: string)
    ensures m != []
    ensures stderr != [] ==> m == stderr
    ensures stderr == [] ==> |m| > |FailurePrefix| && m[..|FailurePrefix|] == FailurePrefix
  {
    if stderr != "" then stderr else FailurePrefix + IntToDecimal(exitCode)
  }

  /** The result built from a process outcome. */
  function ResultOf(fullCommand: string, outcome: ProcessOutcome): (r: CommandResult)
    ensures WellShaped(r)
    ensures r.command == fullCommand
    ensures r.success <==> outcome.Exited? && outcome.exitCode == 0
    ensures r.success ==> r.output == Some(outcome.stdout)
    ensures outcome.Threw? ==> r.error == Some(outcome.message)
    ensures outcome.Exited? && outcome.exitCode != 0 ==>
      r.error == Some(ExitFailureMessage(outcome.exitCode, outcome.stderr))
  {
    match outcome
    case Threw(message) => CommandResult(false, fullCommand, None, Some(message))
    case Exited(code, stdout, stderr) =>
      if code != 0 then CommandResult(false, fullCommand, None, Some(ExitFailureMessage(code, stderr)))
      else CommandResult(true, fullCommand, Some(stdout), None)
  }

  /** The result of a dry run: success, with neither output nor error. */
  function DryRunResult(fullCommand: string): (r: CommandResult)
    ensures WellShaped(r) && r.success && r.command == fullCommand
    ensures r.output == None && r.error == None
  {
    CommandResult(true, fullCommand, None, None)
  }

  /** `executeCommand`. A dry run starts nothing and succeeds; otherwise the
      process is started with the given arguments and nothing on standard
      input, and its outcome decides the result. No outcome escapes as a fault. */
  function ExecuteCommand(command: string, args: seq<string>, cwd: Option<Location>, dryRun: bool, outcome: ProcessOutcome): (e: Execution)
    ensures WellShaped(e.result)
    ensures e.result.command == FullCommand(command, args)
    ensures dryRun ==> e.spawned == None && e.result.success && e.result.output == None && e.result.error == None
    ensures !dryRun ==> e.spawned == Some(SpawnRequest(command, args, cwd, None))
    ensures !dryRun ==> (e.result.success <==> outcome.Exited? && outcome.exitCode == 0)
    ensures !dryRun && e.result.success ==> outcome.Exited? && e.result.output == Some(outcome.stdout)
    ensures !dryRun && outcome.Threw? ==> e.result.error == Some(outcome.message)
    ensures !dryRun && outcome.Exited? && outcome.exitCode != 0 ==>
      e.result.error == Some(ExitFailureMessage(outcome.exitCode, outcome.stderr))
  {
    var full := FullCommand(command, args);
    if dryRun then Execution(DryRunResult(full), None)
    else Execution(ResultOf(full, outcome), Some(SpawnRequest(command, args, cwd, None)))
  }

  /** `executeNpxCommand`: `executeCommand` of `npx` with the package name before the arguments. */
  function ExecuteNpxCommand(packageName: string, args: seq<string>, cwd: Option<Location>, dryRun: bool, outcome: ProcessOutcome): (e: Execution)
    ensures dryRun ==> e.spawned == None && e.result.success && e.result.output == None && e.result.error == None
    ensures !dryRun ==> e.spawned == Some(SpawnRequest("npx", [packageName] + args, cwd, None))
    ensures e.result.command == if args == [] then "npx " + packageName else "npx " + packageName + " " + Join(args, ' ')
    ensures !dryRun && e.result.success ==> outcome.Exited? && e.result.output == Some(outcome.stdout)
    ensures !dryRun && outcome.Threw? ==> e.result.error == Some(outcome.message)
    ensures !dryRun && outcome.Exited? && outcome.exitCode != 0 ==>
      e.result.error == Some(ExitFailureMessage(outcome.exitCode, outcome.stderr))
  {
    assert args != [] ==> Join([packageName] + args, ' ') == packageName + " " + Join(args, ' ') by {
      if args != [] {
        JoinCons(packageName, args, ' ');
      }
    }
    ExecuteCommand("npx", [packageName] + args, cwd, dryRun, outcome)
  }

  /** The text `shadcn` is given on standard input: answers for `init` and for
      `add`, none for any other first argument (or none at all). */
  function ShadcnAnswers(args: seq<string>): Option<string>
  {
    if |args| > 0 && args[0] == "init" then Some(InitAnswers)
    else if |args| > 0 && args[0] == "add" then Some(AddAnswers)
    else None
  }

  /** `executeShadcnCommand`. A dry run starts nothing. `init` and `add` start
      `npx shadcn@latest` with default answers on standard input; anything else
      falls back to `executeNpxCommand`. */
  function ExecuteShadcnCommand(args: seq<string>, cwd: Option<Location>, dryRun: bool, outcome: ProcessOutcome): (e: Execution)
    ensures WellShaped(e.result)
    ensures dryRun ==> e.spawned == None && e.result.success && e.result.output == None && e.result.error == None
    ensures !dryRun ==> e.spawned == Some(SpawnRequest("npx", [ShadcnPackage] + args, cwd, ShadcnAnswers(args)))
    ensures !dryRun ==> (e.result.success <==> outcome.Exited? && outcome.exitCode == 0)
    ensures !dryRun && e.result.success ==> outcome.Exited? && e.result.output == Some(outcome.stdout)
    ensures !dryRun && outcome.Threw? ==> e.result.error == Some(outcome.message)
    ensures !dryRun && outcome.Exited? && outcome.exitCode != 0 ==>
      e.result.error == Some(ExitFailureMessage(outcome.exitCode, outcome.stderr))
  {
    var full := "npx " + ShadcnPackage + " " + Join(args, ' ');
    if dryRun then Execution(DryRunResult(full), None)
    else
      var answers := ShadcnAnswers(args);
      if answers.Some? then
        Execution(ResultOf(full, outcome), Some(SpawnRequest("npx", [ShadcnPackage] + args, cwd, answers)))
      else
        ExecuteNpxCommand(ShadcnPackage, args, cwd, false, outcome)
  }

  // ---------------------------------------------------------------------------
  // properties relating the operations

  /** The command string names the process that is started: splitting it at
      spaces gives back the program and its arguments, when none contains a space. */
  lemma FullCommandNamesSpawn(command: string, args: seq<string>)
    requires args != []
    requires ' ' !in command && forall a :: a in args ==> ' ' !in a
    ensures Split(FullCommand(command, args), ' ') == [command] + args
  {
    SplitJoin([command] + args, ' ');
    JoinCons(command, args, ' ');
    assert command + " " + Join(args, ' ') == command + [' '] + Join(args, ' ');
  }

  /** A failing exit with empty standard error reports the exit code, and the
      digits after the fixed prefix read back as that code. */
  lemma ExitCodeInMessage(exitCode: nat)
    ensures ExitFailureMessage(exitCode, "")[|FailurePrefix|..] == NatToDecimal(exitCode)
    ensures DecimalValue(ExitFailureMessage(exitCode, "")[|FailurePrefix|..]) == exitCode
  {
    var m := ExitFailureMessage(exitCode, "");
    assert m == FailurePrefix + NatToDecimal(exitCode);
  }

  /** `executeNpxCommand` is `executeCommand` of `npx` with the package name prepended. */
  lemma NpxIsCommand(packageName: string, args: seq<string>, cwd: Option<Location>, dryRun: bool, outcome: ProcessOutcome)
    ensures ExecuteNpxCommand(packageName, args, cwd, dryRun, outcome)
         == ExecuteCommand("npx", [packageName] + args, cwd, dryRun, outcome)
  {
  }

  /** With at least one argument, every branch of `executeShadcnCommand` reports the
      same command string, `npx shadcn@latest` followed by the arguments. */
  lemma ShadcnCommandString(args: seq<string>, cwd: Option<Location>, dryRun: bool, outcome: ProcessOutcome)
    requires args != []
    ensures ExecuteShadcnCommand(args, cwd, dryRun, outcome).result.command == "npx shadcn@latest " + Join(args, ' ')
  {
    var j := Join(args, ' ');
    ShadcnPrefix(j);
    if !dryRun && ShadcnAnswers(args).None? {
      var e := ExecuteNpxCommand(ShadcnPackage, args, cwd, false, outcome);
      assert e.result.command == "npx " + ShadcnPackage + " " + j;
    }
  }

  lemma ShadcnPrefix(j: string)
    ensures "npx " + ShadcnPackage + " " + j == "npx shadcn@latest " + j
  {
  }

  /** Without arguments the fallback reports its own command string, which lacks
      the trailing space the other branches have. */
  lemma ShadcnCommandStringWithoutArgs(cwd: Option<Location>, outcome: ProcessOutcome)
    ensures ExecuteShadcnCommand([], cwd, false, outcome).result.command == "npx shadcn@latest"
    ensures ExecuteShadcnCommand([], cwd, true, outcome).result.command == "npx shadcn@latest "
  {
    ShadcnPrefix([]);
    assert "npx " + ShadcnPackage == "npx shadcn@latest";
    assert "npx shadcn@latest " + [] == "npx shadcn@latest ";
  }

  /** The result of a started `shadcn` call depends only on the outcome, exactly as for `executeCommand`. */
  lemma ShadcnResultAsCommand(args: seq<string>, cwd: Option<Location>, outcome: ProcessOutcome)
    requires args != []
    ensures ExecuteShadcnCommand(args, cwd, false, outcome).result
         == ExecuteCommand("npx", [ShadcnPackage] + args, cwd, false, outcome).result
  {
    var j := Join(args, ' ');
    JoinCons(ShadcnPackage, args, ' ');
    assert FullCommand("npx", [ShadcnPackage] + args) == "npx " + ShadcnPackage + " " + j;
    var e := ExecuteShadcnCommand(args, cwd, false, outcome);
    if ShadcnAnswers(args).Some? {
      assert e.result == ResultOf("npx " + ShadcnPackage + " " + j, outcome);
    }
  }
}
