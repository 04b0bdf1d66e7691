/** `pm update` (src/commands/update.rs): select projects by hosting and
    name, then try a fast-forward update of every selected repository that
    exists on disk, counting successes and failures; one failure does not
    stop the others. The directory listings, the existence test and what
    `update_repository` answers at each path are inputs. */
module UpdateCommand {
  import opened Common
  import opened Errors
  import opened ConfigPaths
  import opened Schema
  import opened Cli
  import opened Selection

  /** What `update` reports for one selected project. */
  datatype ItemOutcome = NotCloned | WouldUpdate | Updated | Failed(error: PmError)

  predicate IsUpdated(o: ItemOutcome) { o.Updated? }
  predicate IsFailed(o: ItemOutcome) { o.Failed? }

  /** The on-disk repository of a project: `get_repo_path`, expanded. */
  function RepoDir(p: Project, listDir: string -> Listing, tilde: string -> string): string {
    tilde(RepoPath(p, listDir(p.localPath)))
  }

  /** The outcome for one project. `updateAt(path)` stands for the result
      of `update_repository(path)`; that function is modelled separately by
      `GitUpdate.Update`, and the two are not connected here. */
  function ItemOutcomeOf(p: Project, dryRun: bool, listDir: string -> Listing, pathExists: string -> bool,
                         tilde: string -> string, updateAt: string -> Result<()>): ItemOutcome
  {
    var path := RepoDir(p, listDir, tilde);
    if !pathExists(path) then NotCloned
    else if dryRun then WouldUpdate
    else if updateAt(path).Ok? then Updated
    else Failed(updateAt(path).error)
  }

  /** One outcome per project, in order. */
  function Outcomes(ps: seq<Project>, dryRun: bool, listDir: string -> Listing, pathExists: string -> bool,
                    tilde: string -> string, updateAt: string -> Result<()>): (os: seq<ItemOutcome>)
    ensures |os| == |ps|
    ensures forall i :: 0 <= i < |ps| ==> os[i] == ItemOutcomeOf(ps[i], dryRun, listDir, pathExists, tilde, updateAt)
  {
    seq(|ps|, i requires 0 <= i < |ps| => ItemOutcomeOf(ps[i], dryRun, listDir, pathExists, tilde, updateAt))
  }

  lemma OutcomesSnoc(ps: seq<Project>, i: nat, dryRun: bool, listDir: string -> Listing, pathExists: string -> bool,
                     tilde: string -> string, updateAt: string -> Result<()>)
    requires i < |ps|
    ensures Outcomes(ps[..i + 1], dryRun, listDir, pathExists, tilde, updateAt)
            == Outcomes(ps[..i], dryRun, listDir, pathExists, tilde, updateAt)
               + [ItemOutcomeOf(ps[i], dryRun, listDir, pathExists, tilde, updateAt)]
  {
  }

  /** What `update` prints: one line per selected project, the two counters
      and whether the summary line appears. */
  datatype UpdateReport = UpdateReport(outcomes: seq<ItemOutcome>, succeeded: nat, failed: nat, summaryShown: bool)

  /** The loop over the selected projects: one outcome each, counting
      successes and failures. */
  method UpdateEach(projects: seq<Project>, dryRun: bool, listDir: string -> Listing,
                    pathExists: string -> bool, tilde: string -> string, updateAt: string -> Result<()>)
    returns (outcomes: seq<ItemOutcome>, successCount: nat, errorCount: nat)
    ensures outcomes == Outcomes(projects, dryRun, listDir, pathExists, tilde, updateAt)
    ensures successCount == CountWhere(outcomes, IsUpdated) && errorCount == CountWhere(outcomes, IsFailed)
  {
    outcomes, successCount, errorCount := [], 0, 0;
    for i := 0 to |projects|
      invariant outcomes == Outcomes(projects[..i], dryRun, listDir, pathExists, tilde, updateAt)
      invariant successCount == CountWhere(outcomes, IsUpdated)
      invariant errorCount == CountWhere(outcomes, IsFailed)
    {
      var project := projects[i];
      var repoPath := GetRepoPath(project, listDir(project.localPath));
      var expanded := ExpandPath(repoPath, tilde).value;
      var outcome: ItemOutcome;
      if !pathExists(expanded) {
        outcome := NotCloned;
      } else if dryRun {
        outcome := WouldUpdate;
      } else {
        var result := updateAt(expanded);
        if result.Ok? {
          outcome := Updated;
          successCount := successCount + 1;
        } else {
          outcome := Failed(result.error);
          errorCount := errorCount + 1;
        }
      }
      assert outcome == ItemOutcomeOf(project, dryRun, listDir, pathExists, tilde, updateAt);
      OutcomesSnoc(projects, i, dryRun, listDir, pathExists, tilde, updateAt);
      CountAppend(outcomes, [outcome], IsUpdated);
      CountAppend(outcomes, [outcome], IsFailed);
      outcomes := outcomes + [outcome];
    }
    assert projects[..|projects|] == projects;
  }

  /** `update` on the loaded registry. It always ends in `Ok`; the summary is
      shown when something was selected, unless `--quiet` or `--dry-run`. */
  method UpdateProjects(config: Config, args: UpdateArgs, cli: GlobalArgs, listDir: string -> Listing,
                        pathExists: string -> bool, tilde: string -> string, updateAt: string -> Result<()>)
    returns (r: Result<()>, report: UpdateReport)
    ensures r == Ok(())
    ensures var selected := Filter(config.projects, p => Selected(args.hosting, args.name, p));
            var os := Outcomes(selected, args.dryRun, listDir, pathExists, tilde, updateAt);
            report == UpdateReport(os, CountWhere(os, IsUpdated), CountWhere(os, IsFailed),
                                   |selected| > 0 && !cli.quiet && !args.dryRun)
  {
    var projects := SelectProjects(config.projects, args.hosting, args.name);
    if |projects| == 0 {
      return Ok(()), UpdateReport([], 0, 0, false);
    }
    var outcomes, successCount, errorCount := UpdateEach(projects, args.dryRun, listDir, pathExists, tilde, updateAt);
    return Ok(()), UpdateReport(outcomes, successCount, errorCount, !cli.quiet && !args.dryRun);
  }

  /** Successes and failures together never exceed the number of selected
      projects; the rest were not cloned (or the run was dry). */
  lemma CountsBounded(ps: seq<Project>, dryRun: bool, listDir: string -> Listing, pathExists: string -> bool,
                      tilde: string -> string, updateAt: string -> Result<()>)
    ensures var os := Outcomes(ps, dryRun, listDir, pathExists, tilde, updateAt);
            CountWhere(os, IsUpdated) + CountWhere(os, IsFailed) <= |ps|
  {
    CountDisjoint(Outcomes(ps, dryRun, listDir, pathExists, tilde, updateAt), IsUpdated, IsFailed);
  }

  /** A dry run updates nothing and counts nothing. */
  lemma DryRunCountsNothing(ps: seq<Project>, listDir: string -> Listing, pathExists: string -> bool,
                            tilde: string -> string, updateAt: string -> Result<()>)
    ensures var os := Outcomes(ps, true, listDir, pathExists, tilde, updateAt);
            CountWhere(os, IsUpdated) == 0 && CountWhere(os, IsFailed) == 0 &&
            forall i :: 0 <= i < |os| ==> os[i] == NotCloned || os[i] == WouldUpdate
  {
  }

  /** One failing repository stops nothing: every selected project whose
      repository exists is attempted. */
  lemma EveryClonedProjectIsAttempted(ps: seq<Project>, listDir: string -> Listing, pathExists: string -> bool,
                                      tilde: string -> string, updateAt: string -> Result<()>, i: nat)
    requires i < |ps| && pathExists(RepoDir(ps[i], listDir, tilde))
    ensures var o := Outcomes(ps, false, listDir, pathExists, tilde, updateAt)[i];
            (o == Updated) == updateAt(RepoDir(ps[i], listDir, tilde)).Ok? && (o.Updated? || o.Failed?)
  {
  }
}
