/** The parsed command line of the modelled subcommands (src/cli.rs). The
    output-format argument and the registry's output format have the same
    three values, so one datatype serves both. */
module Cli {
  import opened Common
  import opened Schema

  /** The options every subcommand accepts. */
  datatype GlobalArgs = GlobalArgs(output: Option<OutputFormat>, verbose: bool, quiet: bool)

  datatype CreateArgs = CreateArgs(
    name: string,
    description: Option<string>,
    repo: Option<string>,
    worktree: bool,
    hosting: Option<string>,
    path: Option<string>,
    clone: bool)

  datatype ListArgs = ListArgs(hosting: Option<string>, worktree: bool, noWorktree: bool, search: Option<string>)

  datatype DeleteArgs = DeleteArgs(name: string, force: bool, deleteFiles: bool, keepFiles: bool)

  datatype EditArgs = EditArgs(
    name: string,
    description: Option<string>,
    repo: Option<string>,
    worktree: bool,
    noWorktree: bool,
    nameNew: Option<string>,
    path: Option<string>)

  datatype StatusArgs = StatusArgs(hosting: Option<string>, name: Option<string>, all: bool, dirty: bool)

  datatype UpdateArgs = UpdateArgs(hosting: Option<string>, name: Option<string>, all: bool, dryRun: bool)

  datatype SearchArgs = SearchArgs(pattern: string, hosting: Option<string>, worktree: bool, ignoreCase: bool)
}
