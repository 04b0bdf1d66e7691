/** Cloning a project's repository (`clone_repository`). A plain clone goes
    into the project directory itself; a worktree clone first asks the
    remote for its default branch and clones into a subdirectory named
    after it. The directory is created before the clone, so a failed clone
    leaves it behind. The remote's answers and the outcome of each
    filesystem or network step are inputs; the steps that took effect are
    returned in order. */
module GitClone {
  import opened Common
  import opened Errors
  import opened Effects
  import opened Strings
  import opened StdPath

  const HeadsPrefix := "refs/heads/"
  const NoDefaultBranch := "Could not determine default branch"

  /** What happens when `clone_repository` talks to the remote and the disk. */
  datatype CloneOracle = CloneOracle(
    defaultBranch: Result<Option<string>>,  // connect, then the advertised default branch; None if not UTF-8
    createDir: Step,                        // std::fs::create_dir_all
    clone: Step)                            // RepoBuilder::clone

  /** `detect_default_branch`: the advertised name with one leading
      `refs/heads/` removed. */
  function DetectDefaultBranch(answer: Result<Option<string>>): (r: Result<string>)
    ensures answer.Err? ==> r == Err(answer.error)
    ensures answer == Ok(None) ==> r == Err(GitErr(NoDefaultBranch))
    ensures answer.Ok? && answer.value.Some? ==>
              r.Ok? && (HeadsPrefix + r.value == answer.value.value ||
                        (!IsPrefix(HeadsPrefix, answer.value.value) && r.value == answer.value.value))
  {
    match answer
    case Err(e) => Err(e)
    case Ok(None) => Err(GitErr(NoDefaultBranch))
    case Ok(Some(name)) =>
      match StripPrefix(name, HeadsPrefix)
      case Some(rest) => Ok(rest)
      case None => Ok(name)
  }

  /** Only one `refs/heads/` is removed, even if the branch name itself
      starts with it. */
  lemma StripsOnePrefix(branch: string)
    ensures DetectDefaultBranch(Ok(Some(HeadsPrefix + branch))) == Ok(branch)
  {
    var name := HeadsPrefix + branch;
    assert IsPrefix(HeadsPrefix, name) by {
      assert name[..|HeadsPrefix|] == HeadsPrefix;
    }
    var rest := StripPrefix(name, HeadsPrefix).value;
    assert HeadsPrefix + rest == HeadsPrefix + branch;
    assert rest == (HeadsPrefix + rest)[|HeadsPrefix|..];
  }

  /** A name without the prefix is returned unchanged. */
  lemma KeepsOtherNames(name: string)
    requires !IsPrefix(HeadsPrefix, name)
    ensures DetectDefaultBranch(Ok(Some(name))) == Ok(name)
  {
  }

  datatype CloneOutcome = CloneOutcome(result: Result<Option<string>>, effects: seq<Effect>)

  /** Create `target`, then clone `url` into it; `branch` is what a success returns. */
  function CreateThenClone(url: string, target: string, branch: Option<string>, o: CloneOracle): CloneOutcome {
    if o.createDir.FailsWith? then CloneOutcome(Err(o.createDir.error), [])
    else if o.clone.FailsWith? then CloneOutcome(Err(o.clone.error), [CreateDirAll(target)])
    else CloneOutcome(Ok(branch), [CreateDirAll(target), CloneInto(url, target)])
  }

  /** The directory `clone_repository` clones into, once the branch is known. */
  function CloneTarget(path: string, isWorktree: bool, branch: string): string {
    if isWorktree then Join(path, branch) else path
  }

  /** `clone_repository(url, path, isWorktree)`. The clone succeeds exactly
      when the effects end with the clone; a clone is always preceded by
      creating the same directory, and nothing happens on disk before the
      default branch is known. */
  function CloneRepository(url: string, path: string, isWorktree: bool, o: CloneOracle): (c: CloneOutcome)
    ensures c.result.Ok? <==> |c.effects| == 2
    ensures |c.effects| <= 2
    ensures |c.effects| >= 1 ==> c.effects[0].CreateDirAll?
    ensures |c.effects| == 2 ==> c.effects[1] == CloneInto(url, c.effects[0].path)
    ensures c.result.Ok? ==>
              (isWorktree <==> c.result.value.Some?) &&
              c.effects[0].path == CloneTarget(path, isWorktree, if isWorktree then c.result.value.value else "")
    ensures isWorktree && c.result.Ok? ==>
              DetectDefaultBranch(o.defaultBranch).Ok? &&
              c.result.value == Some(DetectDefaultBranch(o.defaultBranch).value)
    ensures isWorktree && DetectDefaultBranch(o.defaultBranch).Err? ==>
              c == CloneOutcome(Err(DetectDefaultBranch(o.defaultBranch).error), [])
  {
    if isWorktree then
      match DetectDefaultBranch(o.defaultBranch)
      case Err(e) => CloneOutcome(Err(e), [])
      case Ok(defaultBranch) => CreateThenClone(url, Join(path, defaultBranch), Some(defaultBranch), o)
    else CreateThenClone(url, path, None, o)
  }

  /** A worktree clone that goes through lands in `path/<branch>` and reports the branch. */
  lemma WorktreeCloneTarget(url: string, path: string, branch: string, o: CloneOracle)
    requires o.defaultBranch == Ok(Some(HeadsPrefix + branch))
    requires o.createDir.Succeeds? && o.clone.Succeeds?
    ensures CloneRepository(url, path, true, o)
            == CloneOutcome(Ok(Some(branch)), [CreateDirAll(Join(path, branch)), CloneInto(url, Join(path, branch))])
  {
    StripsOnePrefix(branch);
  }

  /** A failed clone leaves the created directory behind. */
  lemma FailedCloneLeavesDirectory(url: string, path: string, isWorktree: bool, o: CloneOracle)
    requires !isWorktree || DetectDefaultBranch(o.defaultBranch).Ok?
    requires o.createDir.Succeeds? && o.clone.FailsWith?
    ensures var c := CloneRepository(url, path, isWorktree, o);
            c.result == Err(o.clone.error) && |c.effects| == 1 && c.effects[0].CreateDirAll?
  {
  }
}
