/** The fast-forward-only update of one repository (`update_repository`):
    fetch from `origin`, then either do nothing (already up to date), move
    the current branch to the fetched commit and check it out (fast
    forward), or refuse. The repository's references, HEAD and checked-out
    commit are state that the update changes in place; what the network and
    git2's merge analysis answer is an input. */
module GitUpdate {
  import opened Common
  import opened Errors
  import opened Effects

  /** A commit id. */
  type Oid = nat

  /** The bits of git2's merge analysis. */
  datatype AnalysisFlag = Normal | UpToDate | FastForward | Unborn

  /** The parts of a repository that an update reads or writes. `head` is
      the reference HEAD points at, `worktree` the commit checked out. */
  datatype RepoState = RepoState(remotes: set<string>, refs: map<string, Oid>, head: string, worktree: Oid)

  /** What git2 answers at each step of the update. */
  datatype UpdateOracle = UpdateOracle(
    open: Step,                            // Repository::open
    fetch: Result<Oid>,                    // remote.fetch: the commit left in FETCH_HEAD
    shorthand: Result<Option<string>>,     // repo.head(), then its shorthand name
    annotate: Step,                        // reference_to_annotated_commit
    analysis: Result<set<AnalysisFlag>>,   // merge_analysis against FETCH_HEAD
    setTarget: Step,                       // reference.set_target
    setHead: Step,                         // repo.set_head
    checkout: Step)                        // repo.checkout_head with force

  const FetchHead := "FETCH_HEAD"
  const NoBranch := "Could not determine current branch"
  const NotFastForward := "Fast-forward only merge not possible. Manual merge required."

  function BranchRef(branch: string): string {
    "refs/heads/" + branch
  }

  /** The references other than FETCH_HEAD. */
  function Branches(refs: map<string, Oid>): map<string, Oid> {
    map k | k in refs && k != FetchHead :: refs[k]
  }

  datatype Outcome = Outcome(result: Result<()>, state: RepoState)

  /** The result and the repository after `update_repository`. */
  function Update(s: RepoState, o: UpdateOracle): Outcome {
    if o.open.FailsWith? then Outcome(Err(o.open.error), s)
    else if "origin" !in s.remotes then Outcome(Err(GitErr("remote 'origin' does not exist")), s)
    else if o.fetch.Err? then Outcome(Err(o.fetch.error), s)
    else
      var fetched := o.fetch.value;
      var s1 := s.(refs := s.refs[FetchHead := fetched]);
      if o.shorthand.Err? then Outcome(Err(o.shorthand.error), s1)
      else if o.shorthand.value.None? then Outcome(Err(GitErr(NoBranch)), s1)
      else if o.annotate.FailsWith? then Outcome(Err(o.annotate.error), s1)
      else if o.analysis.Err? then Outcome(Err(o.analysis.error), s1)
      else if UpToDate in o.analysis.value then Outcome(Ok(()), s1)
      else if FastForward in o.analysis.value then
        var refname := BranchRef(o.shorthand.value.value);
        if refname !in s1.refs then Outcome(Err(GitErr("reference '" + refname + "' not found")), s1)
        else if o.setTarget.FailsWith? then Outcome(Err(o.setTarget.error), s1)
        else
          var s2 := s1.(refs := s1.refs[refname := fetched]);
          if o.setHead.FailsWith? then Outcome(Err(o.setHead.error), s2)
          else
            var s3 := s2.(head := refname);
            if o.checkout.FailsWith? then Outcome(Err(o.checkout.error), s3)
            else Outcome(Ok(()), s3.(worktree := fetched))
      else Outcome(Err(GitErr(NotFastForward)), s1)
  }

  class Repository {
    var remotes: set<string>
    var refs: map<string, Oid>
    var head: string
    var worktree: Oid

    function State(): RepoState
      reads this
    {
      RepoState(remotes, refs, head, worktree)
    }

    constructor (remotes: set<string>, refs: map<string, Oid>, head: string, worktree: Oid)
      ensures State() == RepoState(remotes, refs, head, worktree)
    {
      this.remotes := remotes;
      this.refs := refs;
      this.head := head;
      this.worktree := worktree;
    }
  }

  /** `update_repository` on `repo`, step by step. */
  method UpdateRepository(repo: Repository, o: UpdateOracle) returns (r: Result<()>)
    modifies repo
    ensures Outcome(r, repo.State()) == Update(old(repo.State()), o)
  {
    if o.open.FailsWith? {
      return Err(o.open.error);
    }
    if "origin" !in repo.remotes {
      return Err(GitErr("remote 'origin' does not exist"));
    }
    if o.fetch.Err? {
      return Err(o.fetch.error);
    }
    repo.refs := repo.refs[FetchHead := o.fetch.value];
    if o.shorthand.Err? {
      return Err(o.shorthand.error);
    }
    if o.shorthand.value.None? {
      return Err(GitErr(NoBranch));
    }
    var branchName := o.shorthand.value.value;
    var fetchCommit := repo.refs[FetchHead];
    if o.annotate.FailsWith? {
      return Err(o.annotate.error);
    }
    if o.analysis.Err? {
      return Err(o.analysis.error);
    }
    var analysis := o.analysis.value;
    if UpToDate in analysis {
      return Ok(());
    } else if FastForward in analysis {
      var refname := BranchRef(branchName);
      if refname !in repo.refs {
        return Err(GitErr("reference '" + refname + "' not found"));
      }
      if o.setTarget.FailsWith? {
        return Err(o.setTarget.error);
      }
      repo.refs := repo.refs[refname := fetchCommit];
      if o.setHead.FailsWith? {
        return Err(o.setHead.error);
      }
      repo.head := refname;
      if o.checkout.FailsWith? {
        return Err(o.checkout.error);
      }
      repo.worktree := fetchCommit;
    } else {
      return Err(GitErr(NotFastForward));
    }
    return Ok(());
  }

  /** Failing to open the repository, to find `origin` or to fetch is an
      error that leaves the repository as it was. */
  lemma FailureBeforeFetchChangesNothing(s: RepoState, o: UpdateOracle)
    requires o.open.FailsWith? || "origin" !in s.remotes || o.fetch.Err?
    ensures Update(s, o).result.Err? && Update(s, o).state == s
  {
  }

  /** Whatever happens, no branch but the current one moves, and the remotes
      never change; only a fast forward moves HEAD or the checkout. */
  lemma OnlyCurrentBranchMoves(s: RepoState, o: UpdateOracle, k: string)
    requires k in s.refs && k != FetchHead
    requires o.shorthand.Ok? && o.shorthand.value.Some? ==> k != BranchRef(o.shorthand.value.value)
    ensures var t := Update(s, o).state;
            k in t.refs && t.refs[k] == s.refs[k] && t.remotes == s.remotes
  {
  }

  /** Up to date wins over fast forward: the update succeeds and no branch,
      HEAD or checkout changes. */
  lemma UpToDateIsNoOp(s: RepoState, o: UpdateOracle)
    requires o.open.Succeeds? && "origin" in s.remotes && o.fetch.Ok?
    requires o.shorthand.Ok? && o.shorthand.value.Some? && o.annotate.Succeeds?
    requires o.analysis.Ok? && UpToDate in o.analysis.value
    ensures var t := Update(s, o);
            t.result.Ok? && Branches(t.state.refs) == Branches(s.refs) &&
            t.state.head == s.head && t.state.worktree == s.worktree
  {
    var t := Update(s, o).state;
    assert t.refs == s.refs[FetchHead := o.fetch.value];
    assert Branches(t.refs) == Branches(s.refs);
  }

  /** A successful fast forward points the current branch, HEAD and the
      checkout at the fetched commit. */
  lemma FastForwardMovesBranch(s: RepoState, o: UpdateOracle)
    requires o.open.Succeeds? && "origin" in s.remotes && o.fetch.Ok?
    requires o.shorthand.Ok? && o.shorthand.value.Some? && o.annotate.Succeeds?
    requires o.analysis.Ok? && UpToDate !in o.analysis.value && FastForward in o.analysis.value
    requires BranchRef(o.shorthand.value.value) in s.refs
    requires o.setTarget.Succeeds? && o.setHead.Succeeds? && o.checkout.Succeeds?
    ensures var t := Update(s, o);
            var refname := BranchRef(o.shorthand.value.value);
            t.result.Ok? && t.state.head == refname &&
            t.state.refs == s.refs[FetchHead := o.fetch.value][refname := o.fetch.value] &&
            t.state.worktree == o.fetch.value
  {
    assert BranchRef(o.shorthand.value.value) != FetchHead;
  }

  /** Neither up to date nor a fast forward: refused, with the branches,
      HEAD and checkout untouched. */
  lemma DivergedIsRefused(s: RepoState, o: UpdateOracle)
    requires o.open.Succeeds? && "origin" in s.remotes && o.fetch.Ok?
    requires o.shorthand.Ok? && o.shorthand.value.Some? && o.annotate.Succeeds?
    requires o.analysis.Ok? && UpToDate !in o.analysis.value && FastForward !in o.analysis.value
    ensures var t := Update(s, o);
            t.result == Err(GitErr(NotFastForward)) && Branches(t.state.refs) == Branches(s.refs) &&
            t.state.head == s.head && t.state.worktree == s.worktree
  {
    var t := Update(s, o).state;
    assert t.refs == s.refs[FetchHead := o.fetch.value];
    assert Branches(t.refs) == Branches(s.refs);
  }

  /** A HEAD whose name has no shorthand is an error after the fetch. */
  lemma NoShorthandIsError(s: RepoState, o: UpdateOracle)
    requires o.open.Succeeds? && "origin" in s.remotes && o.fetch.Ok?
    requires o.shorthand == Ok(None)
    ensures Update(s, o).result == Err(GitErr(NoBranch))
    ensures Branches(Update(s, o).state.refs) == Branches(s.refs)
  {
    assert Branches(s.refs[FetchHead := o.fetch.value]) == Branches(s.refs);
  }

  /** A successful update leaves either the branches as they were or the
      repository on the current branch at the fetched commit. */
  lemma SuccessMeansCurrent(s: RepoState, o: UpdateOracle)
    requires Update(s, o).result.Ok?
    ensures var t := Update(s, o).state;
            (Branches(t.refs) == Branches(s.refs) && t.head == s.head && t.worktree == s.worktree) ||
            (t.head in t.refs && t.refs[t.head] == t.worktree == t.refs[FetchHead])
  {
    if UpToDate in o.analysis.value {
      assert Branches(s.refs[FetchHead := o.fetch.value]) == Branches(s.refs);
    }
  }
}
