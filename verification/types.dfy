/** The records the CLI passes between its parts (src/types.ts). */
module Types {

  /** An optional value; stands for a TypeScript field declared with `?`. */
  datatype Option<+T> = None | Some(value: T)

  /** The top-level action a run performs: scaffold a new project, or add every catalog component to the current one. */
  datatype Command = Create | AddAll

  /** The parsed command line. `components` is absent when no `--components` flag was given. */
  datatype CliArgs = CliArgs(
    projectName: string,
    components: Option<string>,
    dryRun: bool,
    noInstall: bool,
    useConfig: bool,
    all: bool,
    command: Command
  )

  /** What is persisted at the end of a run. */
  datatype OrbitConfig = OrbitConfig(components: seq<string>, tailwind: bool, shadcnVersion: string)

  /** One entry of the component catalog: display name, canonical identifier, one-line description. */
  datatype ComponentOption = ComponentOption(name: string, value: string, description: string)

  /** The uniform outcome of one external command. `command` is the human-readable command line. */
  datatype CommandResult = CommandResult(success: bool, command: string, output: Option<string>, error: Option<string>)
}
