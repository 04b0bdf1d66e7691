# pm — a verified model of the project registry

`pm` is a command-line tool that keeps a registry of local source projects.
For each project it records:

- a name and an optional description;
- an optional repository URL;
- the hosting provider it is filed under;
- the local directory it lives in;
- whether it is a worktree layout (one checkout per branch);
- creation and update timestamps.

The registry is a TOML document in the user's configuration directory. The
subcommands `create`, `edit`, `delete`, `list`, `search`, `status` and `update`
read it, change it and write it back. The last two act on the git
repositories behind the projects.

This Dafny project models the decision logic of that core and proves what it
promises:

- **The registry** (`Schema`), a `Config` class. `add_project`,
  `remove_project` and `update_timestamp` change it in place. These are
  modelled:
  - `find_project` and `find_project_mut`;
  - the hosting catalog and hosting inference;
  - the repository-directory resolution (`get_repo_path`), including the
    legacy scan of a worktree directory.
- **Path computation** (`ProjectPath`, `Url`, `StdPath`, `Strings`). The
  `compute_project_path` validation chain is modelled in the source's order,
  then the loop that trims `.git` and joins segments.
  - `Url::parse` is a parameter.
  - A simplified scheme://host/path parser is given for the worked examples.
- **Configuration location** (`ConfigPaths`): `get_config_dir`,
  `get_config_file_path` and `expand_path`.
- **Git decision logic**, with git2's answers as inputs:
  - `GitStatus`: status counting;
  - `GitUpdate`: the fast-forward-only update of a `Repository` object whose
    references, HEAD and checkout change in place;
  - `GitClone`: clone target selection and default-branch detection.
- **The commands**, each a method on the loaded `Config`, proved against a
  function that states the whole outcome:
  - `CreateCommand`, `EditCommand` and `DeleteCommand`;
  - `ListCommand` and `SearchCommand`, each an order-preserving filter;
  - `UpdateCommand` and `StatusCommand`, each a bulk loop;
  - `Selection`, the filters and output-format choice they share.

The outside world enters as parameters:

- `now` is the clock;
- `tilde` is `shellexpand::tilde`;
- `xdg` and `home` are the environment;
- `parse` is the URL parser;
- `listDir` and `pathExists` are the filesystem;
- `updateAt` and `statusesAt` are the git results at a path;
- a `Prompt` value is the confirmation dialog.

Each fallible external step is a `Step`. Which filesystem steps and saves
took effect is returned as a sequence of `Effect`s, in the order they were
issued.

Where the written code and its description differ, the model follows the
code:

- There is no SSH/SCP address dialect. `git@host:owner/repo.git` is rejected
  as an invalid URL (`ProjectPath.ScpRejected`).
- The path stored for a project starts with the hosting's base path as
  `tilde` expands it, not with the configured `~/...` text. It is absolute
  only when that expansion is.
- `trim_end_matches(".git")` removes every trailing repetition, so
  `repo.git.git` becomes `repo`.
- The legacy worktree scan lists the stored `local_path` without expanding
  `~`.
- `create` clones into the expanded path. It checks for a duplicate name only
  after cloning, so a refused duplicate leaves its clone on disk.
- `edit` does not check a new name against the other projects.
- `delete --keep-files` has no effect.

## Model

| member | source | states |
|---|---|---|
| Schema.Lookup | src/config/schema.rs:96-98 | the hosting map lookup: None exactly when no entry has the key, otherwise the value stored under that key |
| Schema.LookupFindsEntry | src/config/schema.rs:96-98 | in a catalog with distinct keys, looking up an entry's key yields that entry's hosting |
| Schema.Position | src/config/schema.rs:109-115 | the index of the first project with exactly that name, None iff there is none |
| Schema.RemoveUnique | src/config/schema.rs:125-132 | removing the project at an index keeps names unique, and under uniqueness its name no longer occurs |
| Schema.AppendFresh | src/config/schema.rs:117-123 | appending a project with an absent name keeps names unique and puts it at the last index |
| Schema.CustomNeverMatches | src/config/schema.rs:76-82 | the default `custom` hosting, whose pattern is empty, never matches a URL |
| Schema.InferGithub | src/config/schema.rs:100-107 | with the default catalog, a URL that mentions github.com and no other provider is filed under `github` and nothing else, whatever the map's order |
| Schema.NewProject | src/config/schema.rs:136-149 | a new record has no description, URL or branch and is not a worktree, and both timestamps equal the creation time |
| Schema.UpdateTimestamp | src/config/schema.rs:151-153 | only `last_updated` changes, and it becomes `now` |
| Schema.FirstRepoSubdir | src/config/schema.rs:165-180 | None iff no listed entry is a directory holding `.git`; otherwise the path of the first such entry |
| Schema.RepoPath | src/config/schema.rs:158-185 | a plain project lives at `local_path`; a worktree with a branch lives at `local_path/branch`; a legacy worktree lives at the first listed subdirectory holding `.git`, falling back to `local_path` when the listing fails or has none |
| Schema.GetRepoPath | src/config/schema.rs:158-185 | the loop with early return computes exactly `RepoPath` |
| Schema.NewProjectRepoPath | src/config/schema.rs:136-149 | a freshly created project resolves to its local path whatever is on disk |
| Schema.WorktreeBranchExample | src/config/schema.rs:182-183 | a worktree on branch `main` under `/x` resolves to `/x/main` |
| Schema.LegacyScanExample | src/config/schema.rs:165-180 | a legacy scan skips a file and an unreadable entry and picks the `.git` directory after them |
| Schema.Config.Default | src/config/schema.rs:48-93 | the default registry: version 1.0, table output, the four default hostings, no projects, distinct hosting keys |
| Schema.Config.GetHostingPath | src/config/schema.rs:96-98 | None iff the key is absent; otherwise the base path stored under the key, which with the map's distinct keys is that of the one entry with the key |
| Schema.LookupUnique | src/config/schema.rs:96-98 | with distinct keys, the lookup answers the hosting of the one entry that has the key |
| Schema.Config.InferHostingFromUrl | src/config/schema.rs:100-107 | the answer is the key of an entry whose non-empty pattern occurs in the URL, or `custom` when there is none |
| Schema.Config.FindProject | src/config/schema.rs:109-111 | None iff no project has the name; otherwise the first project with exactly that name |
| Schema.Config.AddProject | src/config/schema.rs:117-123 | a present name gives AlreadyExists and leaves the projects unchanged; a fresh name is appended at the end, earlier entries kept in order, and unique names stay unique |
| Schema.Config.RemoveProject | src/config/schema.rs:125-132 | an absent name gives NotFound and changes nothing; otherwise the first match is removed and returned, the rest stay in order, and under uniqueness the name is then gone |
| ConfigPaths.ConfigDir | src/config/paths.rs:5-14 | `$XDG_CONFIG_HOME/pm` when set; otherwise `home/.config/pm`; a PathParsing error without a home directory |
| ConfigPaths.ConfigFilePath | src/config/paths.rs:16-18 | succeeds iff the directory does; the file is `projects.toml` directly inside it; an error for the directory is passed on |
| ConfigPaths.JoinPmIsDirectory | src/config/paths.rs:16-18 | joining the file name onto any `…/pm` directory inserts exactly one separator |
| ConfigPaths.ExpandPath | src/config/paths.rs:20-23 | tilde expansion never fails and yields the expanded string |
| ConfigPaths.XdgExample | src/config/paths.rs:5-18 | with `XDG_CONFIG_HOME=/x` the document is `/x/pm/projects.toml`, whatever the home |
| ConfigPaths.HomeExample | src/config/paths.rs:5-18 | without `XDG_CONFIG_HOME`, with home `/home/u`, the document is `/home/u/.config/pm/projects.toml` |
| Strings.TrimEndMatches | src/models/project.rs:43 | the result is a prefix of the input that no longer ends with the pattern; an empty pattern changes nothing |
| Strings.TrimEndMatchesRemovesCopies | src/models/project.rs:43 | what is removed is a whole number of copies of the pattern |
| Strings.ContainsToLower | src/commands/search.rs:15-39 | a case-sensitive substring match is also a match after lowercasing both sides |
| Url.ParseUrl | src/models/project.rs:25-32 | parsed segments exist, at least one, none containing `/`; only text with a `:` parses as a URL |
| Url.ScpIsNotAUrl | src/models/project.rs:25-27 | `user@host:path` is a parse error (a relative URL without a base) |
| Url.GithubUrl | src/models/project.rs:25-32 | `https://github.com/<owner>/<repo>` yields the segments owner and repo |
| ProjectPath.CleanSegments | src/models/project.rs:40-47 | the kept segments are at most as many as the input's, none empty or ending in `.git`, and separator-free when the input's are |
| ProjectPath.CleanSegmentsIsFilter | src/models/project.rs:40-47 | the kept segments are exactly the trimmed segments that are non-empty, in URL order |
| ProjectPath.PathFor | src/models/project.rs:6-56 | a custom path is returned verbatim even for an unknown hosting; then an unknown hosting gives HostingNotFound even without a URL; then a missing URL gives PathComputation; then a parse failure, a URL without path segments and an empty segment list each give InvalidUrl with the source's message; every error is a project error; success without a custom path needs a known hosting and a URL with at least one segment |
| ProjectPath.ComputeProjectPath | src/models/project.rs:6-56 | the validation chain and the segment loop compute exactly `PathFor`, which does not take the worktree flag |
| ProjectPath.PathForNested | src/models/project.rs:40-49 | under a base without a trailing `/`, the result is the base followed by one directory per kept segment, in order, none empty or ending in `.git` |
| ProjectPath.PathForParsed | src/models/project.rs:22-49 | with a known hosting and a parsed URL, the path is the expanded base with the kept segments joined on |
| ProjectPath.TrimGitSuffix | src/models/project.rs:43 | a name plus `.git` trims back to the name |
| ProjectPath.TrimGitTwice | src/models/project.rs:43 | `name.git.git` trims to `name`, because every repetition goes |
| ProjectPath.BareGitDropped | src/models/project.rs:43-46 | a segment that is only `.git` trims to empty, so it is skipped |
| ProjectPath.GithubSegments | src/models/project.rs:42-47 | owner and `repo.git` are kept as owner and repo |
| ProjectPath.TwoSegmentPath | src/models/project.rs:40-49 | a two-segment URL `owner/repo.git` is placed at `base/owner/repo` |
| ProjectPath.DefaultGithub | src/config/schema.rs:52-58 | the default `github` hosting has base `~/github.com` and pattern `github.com` |
| ProjectPath.GithubExample | src/models/project.rs:6-56 | with the default catalog, `https://github.com/<owner>/<repo>.git` goes to `<expanded ~/github.com>/<owner>/<repo>` |
| ProjectPath.ScpRejected | src/models/project.rs:25-27 | an SCP-style address is rejected with InvalidUrl whatever the hosting |
| GitStatus.StatusOf | src/git/status.rs:22-52 | each counter is at most the number of entries; there are changes iff the counters sum to more than zero, iff some entry is staged, modified or untracked |
| GitStatus.GetRepositoryStatus | src/git/status.rs:14-53 | an open or listing error is passed on; otherwise the counting loop yields exactly `StatusOf` of the entries |
| GitStatus.StatusSnoc | src/git/status.rs:25-44 | one more entry adds one to exactly the counters whose class it is in, so it can count as both staged and modified |
| GitStatus.StatusExamples | src/git/status.rs:22-52 | no entries is clean with zero counts; an entry changed both in the index and in the worktree counts once as staged and once as modified; ignored and conflicted entries count nowhere |
| GitUpdate.UpdateRepository | src/git/update.rs:6-62 | the result and the repository's new references, HEAD and checkout are exactly those of `Update` |
| GitUpdate.FailureBeforeFetchChangesNothing | src/git/update.rs:7-33 | failing to open, to find `origin` or to fetch is an error and changes nothing |
| GitUpdate.OnlyCurrentBranchMoves | src/git/update.rs:44-59 | whatever the analysis, no branch but the current one changes, and the remotes never do |
| GitUpdate.UpToDateIsNoOp | src/git/update.rs:46-47 | up to date wins over fast forward: Ok, with branches, HEAD and checkout unchanged |
| GitUpdate.FastForwardMovesBranch | src/git/update.rs:48-53 | a fast forward points `refs/heads/<branch>`, HEAD and the checkout at the fetched commit and nothing else moves |
| GitUpdate.DivergedIsRefused | src/git/update.rs:54-59 | otherwise the fast-forward-only error, with branches, HEAD and checkout unchanged |
| GitUpdate.NoShorthandIsError | src/git/update.rs:36-39 | a HEAD without a shorthand name is the "Could not determine current branch" error, with no branch moved |
| GitUpdate.SuccessMeansCurrent | src/git/update.rs:44-61 | after a successful update either nothing moved or HEAD's branch and the checkout are at the fetched commit |
| GitClone.DetectDefaultBranch | src/git/clone.rs:77-95 | connection errors are passed on; a name that is not UTF-8 is the "Could not determine default branch" error; otherwise the name with one leading `refs/heads/` removed, or unchanged |
| GitClone.StripsOnePrefix | src/git/clone.rs:89-92 | exactly one `refs/heads/` is removed even when the branch name starts with it again |
| GitClone.KeepsOtherNames | src/git/clone.rs:89-92 | a name without the prefix is kept unchanged |
| GitClone.CloneRepository | src/git/clone.rs:6-75 | success iff both the directory creation and the clone took effect; the clone always follows creating the same directory; a worktree clone reports the detected default branch and cloned into the directory of that branch, and a plain one reports None; a failed branch detection touches nothing |
| GitClone.WorktreeCloneTarget | src/git/clone.rs:7-41 | a successful worktree clone goes into `path/<branch>` and returns that branch |
| GitClone.FailedCloneLeavesDirectory | src/git/clone.rs:11-43 | a failed clone leaves the created directory behind |
| Selection.SelectProjects | src/commands/update.rs:12-20 | retaining by hosting and then by name keeps exactly the projects that pass both filters, in registry order |
| Selection.SelectedMembership | src/commands/status.rs:27-35 | a project is selected iff it is registered and passes both filters |
| Selection.NameSelectsAtMostOne | src/commands/status.rs:33-35 | with unique names, `--name` selects at most one project |
| Selection.OutputFormatFor | src/commands/list.rs:36-44 | `--output` wins over the registry's default format |
| ListCommand.ListProjects | src/commands/list.rs:6-56 | the four `retain` calls keep exactly the registered projects that pass every given filter, in order, and the format is `--output` or the default |
| ListCommand.ListedMembership | src/commands/list.rs:11-32 | a project is listed iff it is registered, has the given hosting, matches the worktree flags and matches the search |
| ListCommand.ListKeepsOrder | src/commands/list.rs:9-32 | the listing is a subsequence of the registry |
| ListCommand.UnfilteredListsEverything | src/commands/list.rs:9-32 | with no filter the whole registry is listed |
| ListCommand.ConflictingWorktreeFilters | src/commands/list.rs:15-21 | `--worktree` with `--no-worktree` lists nothing |
| ListCommand.ListMatchIgnoresCase | src/commands/list.rs:23-31 | the search term's case does not matter |
| SearchCommand.SearchProjects | src/commands/search.rs:6-71 | the filter and two `retain` calls keep exactly the projects whose name or description contains the pattern (lowercased on both sides with `--ignore-case`) and that pass the hosting and worktree filters, in order; the format is `--output` or the default |
| SearchCommand.FoundMembership | src/commands/search.rs:15-47 | a project is found iff it is registered, matches and passes the filters |
| SearchCommand.IgnoreCaseFindsMore | src/commands/search.rs:9-39 | whatever a case-sensitive search finds, the case-insensitive one finds too |
| SearchCommand.IgnoreCaseSearchIsListSearch | src/commands/search.rs:9-47 | a case-insensitive search finds exactly what `list --search` finds under the same hosting and worktree filters |
| SearchCommand.EmptyPatternFindsAll | src/commands/search.rs:15-39 | the empty pattern finds every project |
| CreateCommand.Create | src/commands/create.rs:10-72 | the chosen hosting is `--hosting`, else inferred from `--repo`, else `custom`; the result, the new registry and the steps taken are exactly those of `Created` |
| CreateCommand.PathErrorChangesNothing | src/commands/create.rs:21-27 | a path error aborts before any clone or change |
| CreateCommand.CreateAppendsRecord | src/commands/create.rs:52-59 | a successful create appends one record with the arguments, the hosting and the computed path at the end of a registry that lacked the name; the save is the last step; unique names stay unique |
| CreateCommand.NoCloneWithoutUrl | src/commands/create.rs:31-50 | without both `--clone` and a URL nothing is cloned and no branch is recorded; the save is the only step |
| CreateCommand.DuplicateRefusedAfterClone | src/commands/create.rs:39-59 | a duplicate name is refused with AlreadyExists after the clone, which stays; nothing is saved |
| CreateCommand.WorktreeCloneRecordsBranch | src/commands/create.rs:37-59 | a worktree created with a clone records the remote's default branch; its steps are creating `path/<branch>`, cloning there and saving |
| EditCommand.Edited | src/commands/edit.rs:16-47 | each given option replaces its field; `--no-worktree` wins over `--worktree`; hosting, branch and creation time never change; the timestamp is refreshed iff some option is given, and otherwise the record is unchanged |
| EditCommand.Edit | src/commands/edit.rs:7-61 | the result, the registry and the steps are exactly those of `EditedRegistry`: NotFound changes nothing; the first match is replaced by its edited version; the registry is saved only if something was given |
| EditCommand.EditTouchesOneRecord | src/commands/edit.rs:10-44 | every other position of the registry keeps its project |
| EditCommand.NoOptionsNoChange | src/commands/edit.rs:46-58 | with no option the edit succeeds without changing or saving anything |
| EditCommand.RenameCanDuplicate | src/commands/edit.rs:41-44 | a rename onto another project's name is accepted and breaks name uniqueness |
| EditCommand.FreshRenameKeepsNamesUnique | src/commands/edit.rs:41-44 | a rename to a name no other project has keeps names unique |
| DeleteCommand.Delete | src/commands/delete.rs:9-67 | the result, the registry and the steps are exactly those of `Deleted`: NotFound before any prompt; `--force` skips the prompt; a refusal changes nothing; otherwise the record is removed and saved, then the files are removed if asked and present |
| DeleteCommand.DeclinedChangesNothing | src/commands/delete.rs:29-34 | answering no leaves the registry unchanged and unsaved |
| DeleteCommand.UnknownNameRefused | src/commands/delete.rs:12-16 | an unknown name is NotFound and nothing happens |
| DeleteCommand.ConfirmedDeleteRemovesRecord | src/commands/delete.rs:36-37 | a confirmed delete removes the first record with the name and keeps every other in order, and with unique names the name is gone |
| DeleteCommand.FilesRemovedOnlyWhenAsked | src/commands/delete.rs:47-50 | files are removed only with `--delete-files`, after the save, at the removed record's expanded `local_path`, and only when it exists |
| DeleteCommand.KeepFilesIsIgnored | src/commands/delete.rs:9-67 | `--keep-files` never changes the outcome |
| UpdateCommand.Outcomes | src/commands/update.rs:32-84 | one outcome per selected project, in order, each decided by that project alone |
| UpdateCommand.UpdateEach | src/commands/update.rs:29-84 | the loop yields exactly `Outcomes`, and its counters are the numbers of updated and of failed projects |
| UpdateCommand.UpdateProjects | src/commands/update.rs:9-96 | always Ok; the report consists of the outcomes of the selected projects, the two counts, and a summary shown only when something was selected and neither quiet nor dry-run |
| UpdateCommand.CountsBounded | src/commands/update.rs:61-83 | successes plus failures never exceed the number of selected projects |
| UpdateCommand.DryRunCountsNothing | src/commands/update.rs:46-55 | a dry run attempts no update and both counters stay 0 |
| UpdateCommand.EveryClonedProjectIsAttempted | src/commands/update.rs:35-83 | every selected project whose repository exists is attempted, a failing one does not stop the rest, and it counts as updated iff its update succeeded |
| StatusCommand.RowFor | src/commands/status.rs:40-81 | a missing repository gives a "Not cloned" row and an unreadable one a "Not a git repo" row, both without counts; otherwise the counts shown are the repository's own status counts, the state is Dirty iff it has changes, and a row is dropped only for a clean repository under `--dirty`; the row carries the project's name |
| StatusCommand.CollectRows | src/commands/status.rs:37-83 | the loop yields exactly `Rows` of the selected projects |
| StatusCommand.StatusTable | src/commands/status.rs:24-96 | the rows are those of the hosting- and name-selected projects, and "No projects found." is taken iff there are none |
| StatusCommand.OneRowPerProject | src/commands/status.rs:39-83 | without `--dirty`, exactly one row per selected project, in order |
| StatusCommand.DirtyHidesClean | src/commands/status.rs:61-63 | with `--dirty` no clean repository is shown |
| StatusCommand.DirtyKeepsDirtyRows | src/commands/status.rs:61-63 | `--dirty` only drops clean rows: its rows are the unfiltered rows without the clean ones |

## Left out

- Loading and saving the TOML document (src/config/loader.rs) is left out. The commands take the loaded `Config`. A save is a `Step` that succeeds or fails with an error. `load_or_default` is not modelled.
- The `navigate`, `init` and `completions` subcommands are left out, and so is the dispatch in src/main.rs. They are thin wrappers.
- The clap argument parsing in src/cli.rs is not modelled. The `*Args` records stand for its results, and the `OutputFormatArg`-to-`OutputFormat` mapping, which is one-to-one, is a single datatype.
- Output rendering is left out: tables, JSON and YAML formatters, colours and all printed messages. `update` returns its per-project outcomes and whether the summary line appears, and `status` its rows. The `--verbose` and `--quiet` flags only change printing, except that `quiet` hides the update summary.
- The `--all` flags of `status` and `update` are not read by those commands, so they play no part.
- git2 internals are oracles:
  - transport and authentication;
  - the remote-tracking references a fetch writes;
  - merge analysis, checkout and the progress callbacks.
  - `Repository::open` plus `statuses` is the `statusesAt` input at a path;
  - `update_repository` at a path is the unconstrained `updateAt` input of `UpdateCommand`; the function itself is modelled separately by `GitUpdate.Update`, and nothing connects the two;
  - FETCH_HEAD is always found after a successful fetch.
- `Url::parse` is a parameter of the path computation. The concrete `Url.ParseUrl` covers only `scheme://host/path` and treats every scheme as `http`. It does not handle percent-encoding, ports, user info, IPv6 hosts, dot segments or the rest of the WHATWG URL standard.
- `to_lowercase` is modelled for ASCII letters only.
- Only the hash map's key uniqueness is modelled for the hosting catalog. Its iteration order is not. `Config::default`'s catalog is taken in one fixed order.
- `Schema.Config.InferHostingFromUrl`: which of several matching keys is returned is not stated, because it depends on that iteration order.
- `find_project_mut` is modelled as the index of the first match. `edit` changes the record as a value and writes it back at that index. `update_timestamp` is a function on that value. An in-place update through a reference is not modelled.
- Directory listings (`fs::read_dir`), existence tests (`Path::exists`), `create_dir_all`, `remove_dir_all`, `shellexpand::tilde`, the environment and the clock are inputs. The interactive confirmation is a `Prompt` answer.
- `Schema.RemoveAt`: states only the length of the result; what the removal keeps is stated by `DeleteCommand.ConfirmedDeleteRemovesRecord` and `Schema.RemoveUnique`.
