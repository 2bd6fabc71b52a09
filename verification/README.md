# create-next-orbit, modelled in Dafny

`create-next-orbit` is a command-line tool with two flows:

- **Create flow.** It creates a Next.js project with `create-next-app`. It then runs `npm install` and `shadcn init`. Next it installs the shadcn/ui components the user picked, with one `shadcn add` each. Finally it writes the selection to `orbit.config.json`.
- **`add-all` flow.** It installs the whole component catalog into an existing Next.js project.

This project models the tool's core as pure Dafny functions and proves properties about it. The modules follow the source files:

| module | source | what it holds |
|---|---|---|
| `Types` | `src/types.ts` | the records `CliArgs`, `OrbitConfig`, `ComponentOption` and `CommandResult` |
| `Text` | the JavaScript string operations the code uses | `split`, `join`, `trim`, `\s`, the global `replace(/"/g, '')`, integer-to-text |
| `Utils` | `src/utils.ts` | `parseArgs` over the argument tokens; `normalizeComponentName`; `parseComponentsString`; `validateProjectName`, as a small automaton for its regular expression |
| `Constants` | `src/constants.ts` | the 46-entry catalog, exactly as listed, with the configuration file name and the default shadcn version |
| `Prompts` | `src/prompts.ts` | the component prompt, with the checkbox dialog replaced by its ticks; the expansion of `all` |
| `Executor` | `src/executor.ts` | result shaping for `executeCommand`, `executeNpxCommand` and `executeShadcnCommand` (details below) |
| `Orchestrator` | `src/index.ts` | `addAllComponents` and the create branch of `main`, as functions from an `Environment` to a `Run` (details below) |
| `UtilsTests` | `src/tests/index.test.ts` | the unit-test examples, proved about the model |

**Executor.** The child process is never started. How it ends is an input: an exit code with its captured output, or an exception. Each operation returns two things. The first is the `CommandResult` the source builds. The second is the spawn request the source would make: program, arguments, working directory and standard input. In a dry run there is no spawn request.

**Orchestrator.** A `Run` holds three things:

- the trace of issued commands, each paired with the executor's answer;
- the configuration file written, if any;
- how the run ended, which gives the exit status.

The `Environment` supplies everything outside the code:

- the answers of the file-system probes;
- the prompt's ticks;
- the outcome of the process started at each trace position;
- whether writing the configuration file throws.

Where the code's own comments and messages promise more than the code does, the model follows the code:

- **Project names.** The comment at `src/utils.ts:95` describes the check as validating npm package names. The message at `src/index.ts:90` asks the user for a lower-case name with hyphens only. The regular expression `^[a-z0-9][a-z0-9-]*[a-z0-9]$` also needs at least two characters, so it rejects the one-character name `a`, which npm accepts. The trailing `name.length > 0` test adds nothing.
- **The sub-command.** It is spelled `add-all`, and it is recognised only as the first token.
- **Flag values.** A flag's value is the text between the first and the second `=`. Every double quote in it is removed, not only the surrounding ones.

## Model

| member | source | states |
|---|---|---|
| Text.Split | src/utils.ts:64 | `split` on a one-character separator always yields at least one piece |
| Text.SplitCount | src/utils.ts:64 | there is exactly one more piece than there are separators |
| Text.SplitPiecesFree | src/utils.ts:64 | no piece contains the separator |
| Text.SplitWithoutSeparator | src/utils.ts:64 | a string without the separator splits to itself alone |
| Text.SplitAtSeparator | src/utils.ts:64 | splitting `a + sep + b` gives the pieces of `a` followed by the pieces of `b` |
| Text.JoinSplit | src/utils.ts:64 | joining the pieces of a split with the separator gives the original string back (inverse of `split`) |
| Text.SplitJoin | src/executor.ts:11 | splitting a join of separator-free pieces gives the pieces back (inverse of `join`) |
| Text.Trim | src/utils.ts:65 | the result is empty exactly when the input is all white space; otherwise it neither starts nor ends with white space |
| Text.TrimRemovesPadding | src/utils.ts:65 | trimming white-space padding around a core that does not start or end with white space gives exactly the core |
| Text.RemoveChar | src/utils.ts:32 | no occurrence of the removed character is left; the length drops by its count; nothing else is introduced |
| Text.RemoveAbsentChar | src/utils.ts:32 | removing a character that does not occur changes nothing |
| Text.RemoveCharAppend | src/utils.ts:32 | removal distributes over concatenation |
| Text.NatToDecimal | src/executor.ts:32 | the decimal rendering of a natural number is non-empty, all digits, has no leading zero and reads back as the number |
| Text.IntToDecimal | src/executor.ts:32 | a negative integer is rendered as `-` followed by the digits of its magnitude |
| Utils.ToLowerAscii | src/utils.ts:57 | each upper-case ASCII letter maps to its own lower-case letter, 32 code points up; every other character is unchanged |
| Utils.HyphenateWhitespace | src/utils.ts:58 | no white space is left; the text never gets longer; text without white space is unchanged |
| Utils.HyphenateRun | src/utils.ts:58 | a non-empty white-space run becomes exactly one `-`, or nothing when a run was already open; with `Utils.HyphenateAppend` this fixes the replacement on every string |
| Utils.HyphenateAppend | src/utils.ts:58 | the replacement works piece by piece, carrying whether a white-space run is open across the cut |
| Utils.KeepIdentifierChars | src/utils.ts:59 | the result has only `[a-z0-9-]` characters, all taken from the input; every identifier character of the input survives; an identifier is unchanged |
| Utils.KeepOne | src/utils.ts:59 | one character is kept exactly when it is in `[a-z0-9-]`; with `Utils.KeepAppend` this fixes the filter, in order, on every string |
| Utils.KeepAppend | src/utils.ts:59 | the filter distributes over concatenation |
| Utils.NormalizeComponentName | src/utils.ts:55-60 | the result is an identifier no longer than the input; identifiers are left as they are |
| Utils.NormalizeRun | src/utils.ts:55-60 | a name made only of white space normalizes to one `-` |
| Utils.NormalizeAtWhitespaceRun | src/utils.ts:55-60 | a white-space run between two pieces that do not touch it with white space becomes exactly one `-` between their normal forms |
| Utils.NormalizeAtDroppedChar | src/utils.ts:55-60 | a character that is not white space and, lower-cased, not in `[a-z0-9-]` disappears; the pieces around it normalize independently |
| Utils.NormalizeAppend | src/utils.ts:55-60 | normalizing a concatenation is normalizing each side, unless the cut falls inside a white-space run |
| Utils.NormalizeIdempotent | src/utils.ts:55-60 | normalizing twice equals normalizing once |
| Utils.NormalizeFixedPoints | src/utils.ts:55-60 | a name is its own normal form exactly when it is an identifier |
| Utils.TrimmedNonEmpty | src/utils.ts:65-66 | every kept piece is non-empty with no white space at either end; never more pieces than it was given |
| Utils.TrimmedNonEmptyOne | src/utils.ts:65-66 | one piece is kept, trimmed, exactly when it is not blank; with `Utils.TrimmedNonEmptyAppend` this fixes the result, in order, on every list |
| Utils.NormalizeEach | src/utils.ts:67 | the i-th output is the normal form of the i-th input |
| Utils.ParseComponentsString | src/utils.ts:62-68 | every parsed name is an identifier |
| Utils.ParseComponentsBound | src/utils.ts:62-68 | there are at most as many names as comma-separated pieces |
| Utils.ParseOneComponent | src/utils.ts:62-68 | a comma-free list yields nothing when blank, otherwise exactly its trimmed, normalized self |
| Utils.ParseComponentsAtComma | src/utils.ts:62-68 | parsing `a,b` is parsing `a` followed by parsing `b`, so order is preserved |
| Utils.TrimmedNonEmptyAppend | src/utils.ts:65-66 | filtering distributes over concatenation of piece lists |
| Utils.NameScan | src/utils.ts:96 | the automaton state after reading a string says exactly whether it is empty, one letter or digit, accepted by the regular expression, or ending in a hyphen |
| Utils.ValidateProjectName | src/utils.ts:94-98 | accepted exactly when the name has at least two characters from `[a-z0-9-]`, and begins and ends with a letter or digit |
| Utils.FlagValue | src/utils.ts:32 | a flag's value contains no double quote, and is empty when the token has no `=` |
| Utils.ApplyTokenBooleanFlag | src/utils.ts:34-45 | one token sets a boolean field exactly when it is a long flag with that name before `=`; otherwise the field keeps its value |
| Utils.ScanTokens | src/utils.ts:24-50 | the loop over the tokens never changes the command; what each token sets is stated by the lemmas below |
| Utils.ParseArgs | src/utils.ts:16-22 | the command is `add-all` exactly when the first token is `add-all`, otherwise `create` |
| Utils.ScanConcat | src/utils.ts:24-50 | scanning two token lists in a row is scanning their concatenation |
| Utils.ScanBooleanFlag | src/utils.ts:34-45 | after a scan, a boolean field is set exactly when it was set before or the scanned tokens contain that flag |
| Utils.ParseArgsBooleanFlag | src/utils.ts:27-45 | `--dry-run`, `--no-install`, `--use-config` and `--all` are each set exactly when some long-flag token's name before `=` is that flag, in any position |
| Utils.ParseArgsProjectName | src/utils.ts:47-49 | the project name is the first operand that is neither empty nor a long flag |
| Utils.ParseArgsNoProjectName | src/utils.ts:47-49 | without such an operand the project name stays empty |
| Utils.ParseArgsComponents | src/utils.ts:31-33 | the components value comes from the last `--components` token |
| Utils.ParseArgsNoComponents | src/utils.ts:31-33 | without a `--components` token there is no components value |
| Utils.ParseArgsIgnoresUnknownFlag | src/utils.ts:30-46 | inserting an unrecognised long flag after the first token changes nothing |
| Utils.FlagValueAfterEquals | src/utils.ts:28-32 | for `flag=value`, the name is `flag` and the value is `value` without its double quotes |
| Utils.FlagValueStopsAtSecondEquals | src/utils.ts:28-32 | with a second `=`, the value stops there |
| Constants.ValuesOf | src/index.ts:37 | the i-th value is the `value` field of the i-th entry |
| Constants.CatalogValuesWellFormed | src/constants.ts:3-50 | the catalog has 46 values; each is a project-name-shaped identifier other than `all`; they are strictly ascending |
| Constants.CatalogValuesDistinct | src/constants.ts:3-50 | the 46 catalog values are pairwise distinct |
| Constants.CatalogValuesCanonical | src/constants.ts:3-50 | every catalog value is its own normal form and a valid project name |
| Constants.SentinelNotInCatalog | src/prompts.ts:13 | the `all` sentinel is not a catalog value |
| Constants.AscendingOrdered | src/constants.ts:3-50 | in an ascending list, any earlier value is strictly smaller than any later one, so no value repeats |
| Prompts.Ticked | src/prompts.ts:10-22 | the ticked answer is no longer than the choices and holds only offered values |
| Prompts.TickedDistinct | src/prompts.ts:10-22 | picking from distinct choices picks each at most once |
| Prompts.TickedEverything | src/prompts.ts:10-22 | ticking every box returns every choice in order |
| Prompts.ExpandSelection | src/prompts.ts:28-33 | a ticked `all` stands for the whole catalog in order; otherwise the answer is returned unchanged; the sentinel never survives |
| Prompts.PromptForComponents | src/prompts.ts:4-34 | the prompt only returns catalog values, never `all` |
| Prompts.OfferedChoicesDistinct | src/prompts.ts:10-22 | the prompt offers 47 distinct values: the sentinel and the catalog |
| Prompts.PromptSelection | src/prompts.ts:28-33 | ticking `all` gives the catalog; otherwise the ticked catalog entries, in catalog order |
| Prompts.PromptResultDistinct | src/prompts.ts:4-34 | the prompt never returns a value twice |
| Prompts.EveryEntryIsAll | src/prompts.ts:28-33 | ticking every entry without `all` gives the same result as ticking `all` |
| Executor.ExitFailureMessage | src/executor.ts:32 | the error text is the captured standard error when there is any, otherwise the fixed prefix followed by the exit code |
| Executor.ResultOf | src/executor.ts:21-47 | results are well shaped (an error exactly on failure, output only on success); success exactly on exit code 0; an exception's message becomes the error |
| Executor.DryRunResult | src/executor.ts:13-19 | a dry run succeeds with neither output nor error |
| Executor.ExecuteCommand | src/executor.ts:5-48 | the command string is the program and its arguments; a dry run spawns nothing and succeeds with neither output nor error; otherwise the program is spawned as given, with nothing on standard input, and succeeds exactly on exit code 0; on success the output is the captured standard output; on a non-zero exit the error is standard error, or `Command failed with exit code N` when standard error is empty; on an exception the error is its message |
| Executor.ExecuteNpxCommand | src/executor.ts:50-57 | spawns `npx` with the package before the arguments, and reports the matching command string; a dry run spawns nothing and succeeds with neither output nor error; on success the output is the captured standard output; on a non-zero exit the error is standard error, or `Command failed with exit code N` when standard error is empty; on an exception the error is its message |
| Executor.ExecuteShadcnCommand | src/executor.ts:59-133 | spawns `npx shadcn@latest` with the arguments; six newlines on standard input for `init`, one for `add`, none otherwise; success exactly on exit code 0; a dry run spawns nothing and succeeds with neither output nor error; on success the output is the captured standard output; on a non-zero exit the error is standard error, or `Command failed with exit code N` when standard error is empty; on an exception the error is its message |
| Executor.FullCommandNamesSpawn | src/executor.ts:11 | splitting the reported command string at spaces gives back the spawned program and arguments, when none contains a space |
| Executor.ExitCodeInMessage | src/executor.ts:32 | the digits after the prefix of the generic failure message read back as the exit code |
| Executor.NpxIsCommand | src/executor.ts:56 | `executeNpxCommand` is `executeCommand` of `npx` with the package name prepended |
| Executor.ShadcnCommandString | src/executor.ts:65-125 | with at least one argument, every branch reports `npx shadcn@latest` followed by the arguments |
| Executor.ShadcnCommandStringWithoutArgs | src/executor.ts:65-125 | with no argument, the fallback reports `npx shadcn@latest` without the trailing space that a dry run reports |
| Executor.ShadcnResultAsCommand | src/executor.ts:75-122 | a started `shadcn` call shapes its result exactly as `executeCommand` would |
| Orchestrator.ExitCode | src/index.ts:215-219 | the exit status is 0 exactly when the run completed, and 1 otherwise |
| Orchestrator.Perform | src/index.ts:106-172 | in a dry run nothing is spawned and the step succeeds with neither output nor error. Otherwise the step succeeds exactly on exit code 0, and each call spawns a fixed command: `npx create-next-app@latest <name> --typescript --tailwind --yes` with no input; `npm install` with no input; `npx shadcn@latest init` with six newlines on standard input; `npx shadcn@latest add <component>` with one newline. Its output and error are those of the executor: standard output on success; standard error, the exit-code message or the exception's message on failure |
| Orchestrator.AddEach | src/index.ts:167-180 | the component loop issues one `add` per component, in order, at consecutive trace positions; a failure does not stop it |
| Orchestrator.ConfigFor | src/index.ts:186-190 | the configuration lists the selected components, with Tailwind on and shadcn version `latest` |
| Orchestrator.Finish | src/index.ts:185-194 | `orbit.config.json` is written, with the given components, unless this is a dry run or the write fails; a failing write ends the run with status 1 |
| Orchestrator.SelectComponents | src/index.ts:149-159 | every selected component is an identifier |
| Orchestrator.SetupPlan | src/index.ts:104-146 | the setup is `create-next-app`, then `npm install` unless `--no-install` or a dry run, then `shadcn init` |
| Orchestrator.AddAllRequiresNextJs | src/index.ts:15-20 | outside a Next.js project add-all issues nothing, writes nothing and exits with 1 |
| Orchestrator.AddAllInit | src/index.ts:22-34 | `init` is issued exactly when shadcn/ui is not initialised, and then first; a failed `init` ends the run there with status 1 and no file |
| Orchestrator.AddAllInstallsEach | src/index.ts:36-63 | after a good or unneeded `init`, one `add` per value in order, whatever their outcomes; the configuration lists all values, in the current directory, unless a dry run; exit 0 unless the write fails |
| Orchestrator.AddAllLocations | src/index.ts:22-50 | every process add-all starts runs in the current directory |
| Orchestrator.AddAllDryRun | src/index.ts:42-63 | a dry add-all starts no process and writes no file |
| Orchestrator.CreateGates | src/index.ts:81-100 | a missing name, an invalid name or an existing directory stops the run with status 1 before any command |
| Orchestrator.CreateSetupAborts | src/index.ts:104-146 | the first failing setup command ends the run with status 1; the trace stops at it; no file is written |
| Orchestrator.CreateSetupSucceeds | src/index.ts:148-194 | after a good setup the trace is the setup followed by one `add` per selected component; the configuration in the project directory lists the selection, not the installation outcomes; exit 0 unless the write fails |
| Orchestrator.CreateLocations | src/index.ts:104-180 | `create-next-app` is the first command and is given no working directory; every later command of the create flow runs in the new project's directory |
| Orchestrator.CreatePrefix | src/index.ts:104-183 | past the checks, the create trace is a non-empty prefix of create, install, init and one `add` per component, as planned |
| Orchestrator.CreateIgnoresAddOutcomes | src/index.ts:167-183 | the outcomes of the `add` steps change neither the calls made, nor the configuration, nor the exit status |
| Orchestrator.CreateDryRun | src/index.ts:120-194 | a dry create starts no process, never runs `npm install`, writes no file, and completes once past the checks |
| Orchestrator.MainDispatch | src/index.ts:70-78 | a first token `add-all` runs add-all over the catalog, with `--dry-run` anywhere on the line; any other line runs the create flow |
| Orchestrator.MainDryRun | src/index.ts:192-194 | with `--dry-run` on the line, no process is started and no file is written, in either flow |
| Orchestrator.SelectionPrecedence | src/index.ts:151-159 | `--all` selects the whole catalog whatever else is given; without `--all` and `--components` the prompt decides |
| Orchestrator.SelectionFromComponentsFlag | src/index.ts:155-158 | without `--all`, the last `--components` flag decides: its parsed value, or the prompt when the value is empty |
| UtilsTests.NormalizeSpacesExample | src/tests/index.test.ts:74-76 | `Alert Dialog` normalizes to `alert-dialog` |
| UtilsTests.NormalizeCaseExample | src/tests/index.test.ts:78-80 | `BUTTON` normalizes to `button` |
| UtilsTests.NormalizeSpecialCharsExample | src/tests/index.test.ts:82-84 | `Button!@#` normalizes to `button` |
| UtilsTests.NormalizeMultipleSpacesExample | src/tests/index.test.ts:86-88 | `Navigation  Menu` normalizes to `navigation-menu` |
| UtilsTests.ParseCommaSeparatedExample | src/tests/index.test.ts:92-95 | `button,card,input` parses to the three names |
| UtilsTests.ParseSpacesAroundCommasExample | src/tests/index.test.ts:97-100 | `button , card , input` parses to the same three names |
| UtilsTests.ParseNormalizesExample | src/tests/index.test.ts:102-105 | `Alert Dialog,Button,Input Field` parses to `alert-dialog`, `button`, `input-field` |
| UtilsTests.ParseFiltersEmptyExample | src/tests/index.test.ts:107-110 | `button,,card,` parses to `button`, `card` |
| UtilsTests.ValidNamesExample | src/tests/index.test.ts:114-118 | `my-project`, `myproject` and `my-project-123` are valid |
| UtilsTests.BadEdgesExample | src/tests/index.test.ts:120-126 | the empty name, `-my-project` and `my-project-` are invalid |
| UtilsTests.OneCharacterNameExample | src/utils.ts:96-97 | the one-character name `a` is invalid, because the regular expression needs distinct first and last characters |
| UtilsTests.BadCharactersExample | src/tests/index.test.ts:120-126 | `My-Project` and `my_project` are invalid |
| UtilsTests.ParseProjectNameExample | src/tests/index.test.ts:18-26 | `my-project` alone gives that name, the create command and no flags |
| UtilsTests.ParseAddAllExample | src/tests/index.test.ts:28-33 | `add-all` alone gives the add-all command and no name |
| UtilsTests.ParseAddAllDryRunExample | src/tests/index.test.ts:35-40 | `add-all --dry-run` keeps the command and sets dry run |
| UtilsTests.ParseDryRunExample | src/tests/index.test.ts:42-46 | `--dry-run` after a name sets dry run |
| UtilsTests.ParseNoInstallExample | src/tests/index.test.ts:48-52 | `--no-install` sets no-install |
| UtilsTests.ParseComponentsFlagExample | src/tests/index.test.ts:54-58 | `--components="button,card,input"` gives the value without its quotes |
| UtilsTests.ParseUseConfigExample | src/tests/index.test.ts:60-64 | `--use-config` sets use-config |
| UtilsTests.ParseAllExample | src/tests/index.test.ts:66-70 | `--all` sets all |

## Left out

- The file-system probes `directoryExists`, `isNextJsProject` and `isShadcnInitialized` are not modelled. Their answers are fields of the `Environment`, because they read the disk.
- `path.resolve` and `process.cwd` are not modelled. Paths are opaque `Location` values: the current directory, or the project directory named after the project.
- `writeConfig` is not modelled as serialisation. It becomes the `ConfigWrite` record it would serialise: directory, file name and configuration. The JSON text and the indentation are not modelled. The only failure modelled is a write that throws, which `main` turns into exit status 1.
- `readConfig` is not modelled. It parses JSON from disk and neither flow calls it. The `--use-config` flag is parsed but never read.
- `confirmAction` is not modelled. Nothing calls it.
- The checkbox dialog's rendering is not modelled: labels, separator, page size and looping. The answer is given as one tick per offered choice. A rejected prompt, which would reach the catch in `main`, is also not modelled.
- execa is not modelled: spawning, stdio plumbing and the process itself. The outcome of each process is an input.
- A process killed by a signal is not modelled. There execa reports no exit code. The model's exit code is always an integer.
- All console output is not modelled: chalk colours, ora spinners, progress and skip notices, and the next-steps summary. It does not affect the trace, the file or the exit status.
- The `unhandledRejection` handler is not modelled, and neither is the generic catch in `main` for faults other than a failing configuration write. The modelled code raises no such faults.
- The `async` interleaving is not modelled. Every flow is strictly sequential, so it is modelled as a plain function.
- `process.exit` is modelled as the end of the run with its status. Nothing after it runs.
- `Utils.ToLowerAscii` lowercases ASCII letters only. `toLowerCase` also maps non-ASCII letters. Non-ASCII letters are dropped by the next stage of normalization anyway, except where lowercasing maps them into `[a-z]`, such as the Kelvin sign. That case is not modelled.
- `Executor.ShadcnCommandString` holds only when there is at least one argument. With no arguments, the fallback branch reports a different string, which `Executor.ShadcnCommandStringWithoutArgs` states.
