/** `pm status` (src/commands/status.rs): one table row per selected
    project, saying whether its repository is missing, not a git
    repository, dirty or clean, with the change counters when it could be
    read; `--dirty` drops the clean ones. The directory listings, the
    existence test and what git2 lists at each path are inputs. */
module StatusCommand {
  import opened Common
  import opened Errors
  import opened ConfigPaths
  import opened Schema
  import opened Cli
  import opened Selection
  import opened GitStatus
  import opened UpdateCommand

  datatype RowState = RowNotCloned | NotAGitRepo | Dirty | Clean

  /** A row of the table; the counters are shown only for a readable repository. */
  datatype StatusRow = StatusRow(name: string, state: RowState, counts: Option<RepoStatus>)

  /** The row for one project, or none when `--dirty` drops a clean one.
      `statusesAt(path)` is what opening the repository at `path` and
      listing its statuses produce. */
  function RowFor(p: Project, dirty: bool, listDir: string -> Listing, pathExists: string -> bool,
                  tilde: string -> string, statusesAt: string -> Result<seq<Entry>>): (row: Option<StatusRow>)
    ensures !pathExists(RepoDir(p, listDir, tilde)) ==> row == Some(StatusRow(p.name, RowNotCloned, None))
    ensures pathExists(RepoDir(p, listDir, tilde)) && statusesAt(RepoDir(p, listDir, tilde)).Err? ==>
              row == Some(StatusRow(p.name, NotAGitRepo, None))
    ensures row.Some? && row.value.counts.Some? ==>
              statusesAt(RepoDir(p, listDir, tilde)).Ok? &&
              row.value.counts.value == StatusOf(statusesAt(RepoDir(p, listDir, tilde)).value)
    ensures row.None? ==>
              dirty && pathExists(RepoDir(p, listDir, tilde)) && statusesAt(RepoDir(p, listDir, tilde)).Ok? &&
              !StatusOf(statusesAt(RepoDir(p, listDir, tilde)).value).hasChanges
    ensures row.Some? ==> row.value.name == p.name
    ensures !dirty ==> row.Some?
    ensures row.Some? ==> (row.value.counts.Some? <==> row.value.state in {Dirty, Clean})
    ensures row.Some? && row.value.counts.Some? ==>
              (row.value.state == Dirty <==> row.value.counts.value.hasChanges)
  {
    var path := RepoDir(p, listDir, tilde);
    if !pathExists(path) then Some(StatusRow(p.name, RowNotCloned, None))
    else match statusesAt(path)
      case Err(_) => Some(StatusRow(p.name, NotAGitRepo, None))
      case Ok(entries) =>
        var s := StatusOf(entries);
        if dirty && !s.hasChanges then None
        else Some(StatusRow(p.name, if s.hasChanges then Dirty else Clean, Some(s)))
  }

  /** The rows for a sequence of projects, in order. */
  function Rows(ps: seq<Project>, dirty: bool, listDir: string -> Listing, pathExists: string -> bool,
                tilde: string -> string, statusesAt: string -> Result<seq<Entry>>): seq<StatusRow>
  {
    if ps == [] then []
    else
      var row := RowFor(ps[|ps| - 1], dirty, listDir, pathExists, tilde, statusesAt);
      Rows(ps[..|ps| - 1], dirty, listDir, pathExists, tilde, statusesAt) + (if row.Some? then [row.value] else [])
  }

  lemma RowsSnoc(ps: seq<Project>, i: nat, dirty: bool, listDir: string -> Listing, pathExists: string -> bool,
                 tilde: string -> string, statusesAt: string -> Result<seq<Entry>>)
    requires i < |ps|
    ensures var row := RowFor(ps[i], dirty, listDir, pathExists, tilde, statusesAt);
            Rows(ps[..i + 1], dirty, listDir, pathExists, tilde, statusesAt)
            == Rows(ps[..i], dirty, listDir, pathExists, tilde, statusesAt) + (if row.Some? then [row.value] else [])
  {
    assert ps[..i + 1][..i] == ps[..i];
  }

  /** The loop over the selected projects, one row at a time. */
  method CollectRows(projects: seq<Project>, dirty: bool, listDir: string -> Listing, pathExists: string -> bool,
                     tilde: string -> string, statusesAt: string -> Result<seq<Entry>>)
    returns (rows: seq<StatusRow>)
    ensures rows == Rows(projects, dirty, listDir, pathExists, tilde, statusesAt)
  {
    rows := [];
    for i := 0 to |projects|
      invariant rows == Rows(projects[..i], dirty, listDir, pathExists, tilde, statusesAt)
    {
      var project := projects[i];
      RowsSnoc(projects, i, dirty, listDir, pathExists, tilde, statusesAt);
      var repoPath := GetRepoPath(project, listDir(project.localPath));
      var expanded := ExpandPath(repoPath, tilde).value;
      if !pathExists(expanded) {
        rows := rows + [StatusRow(project.name, RowNotCloned, None)];
        continue;
      }
      var status := GetRepositoryStatus(statusesAt(expanded));
      match status
      case Ok(s) =>
        if dirty && !s.hasChanges {
          continue;
        }
        rows := rows + [StatusRow(project.name, if s.hasChanges then Dirty else Clean, Some(s))];
      case Err(_) =>
        rows := rows + [StatusRow(project.name, NotAGitRepo, None)];
    }
    assert projects[..|projects|] == projects;
  }

  /** `status` on the loaded registry: the rows, and whether "No projects
      found." is printed instead of the table. */
  method StatusTable(config: Config, args: StatusArgs, listDir: string -> Listing, pathExists: string -> bool,
                     tilde: string -> string, statusesAt: string -> Result<seq<Entry>>)
    returns (rows: seq<StatusRow>, noneFound: bool)
    ensures rows == Rows(Filter(config.projects, p => Selected(args.hosting, args.name, p)),
                         args.dirty, listDir, pathExists, tilde, statusesAt)
    ensures noneFound <==> rows == []
  {
    var projects := SelectProjects(config.projects, args.hosting, args.name);
    rows := CollectRows(projects, args.dirty, listDir, pathExists, tilde, statusesAt);
    noneFound := rows == [];
  }

  /** Without `--dirty` there is one row per project, in the projects' order. */
  lemma {:induction false} OneRowPerProject(ps: seq<Project>, listDir: string -> Listing, pathExists: string -> bool,
                                            tilde: string -> string, statusesAt: string -> Result<seq<Entry>>)
    ensures var rows := Rows(ps, false, listDir, pathExists, tilde, statusesAt);
            |rows| == |ps| && forall i :: 0 <= i < |ps| ==> rows[i].name == ps[i].name
  {
    if ps != [] {
      OneRowPerProject(ps[..|ps| - 1], listDir, pathExists, tilde, statusesAt);
    }
  }

  /** With `--dirty` no clean repository is shown. */
  lemma {:induction false} DirtyHidesClean(ps: seq<Project>, listDir: string -> Listing, pathExists: string -> bool,
                                           tilde: string -> string, statusesAt: string -> Result<seq<Entry>>)
    ensures var rows := Rows(ps, true, listDir, pathExists, tilde, statusesAt);
            |rows| <= |ps| && forall i :: 0 <= i < |rows| ==> rows[i].state != Clean
  {
    if ps != [] {
      DirtyHidesClean(ps[..|ps| - 1], listDir, pathExists, tilde, statusesAt);
    }
  }

  /** The dirty rows are the same with and without `--dirty`: the filter only drops clean rows. */
  lemma {:induction false} DirtyKeepsDirtyRows(ps: seq<Project>, listDir: string -> Listing, pathExists: string -> bool,
                                               tilde: string -> string, statusesAt: string -> Result<seq<Entry>>)
    ensures Rows(ps, true, listDir, pathExists, tilde, statusesAt)
            == Filter(Rows(ps, false, listDir, pathExists, tilde, statusesAt), (r: StatusRow) => r.state != Clean)
  {
    var keep := (r: StatusRow) => r.state != Clean;
    if ps != [] {
      var init := ps[..|ps| - 1];
      DirtyKeepsDirtyRows(init, listDir, pathExists, tilde, statusesAt);
      var all := RowFor(ps[|ps| - 1], false, listDir, pathExists, tilde, statusesAt).value;
      FilterAppend(Rows(init, false, listDir, pathExists, tilde, statusesAt), [all], keep);
    }
  }
}
