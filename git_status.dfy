/** Working-tree status (`get_repository_status`): every status entry adds
    at most one to each of three counters, staged, modified and untracked.
    Opening the repository and listing its statuses are git2 calls; their
    outcome is the input. */
module GitStatus {
  import opened Common
  import opened Errors

  /** The git2 status bits the counting looks at (and the ones it ignores). */
  datatype StatusFlag =
    | IndexNew | IndexModified | IndexDeleted | IndexRenamed | IndexTypechange
    | WtNew | WtModified | WtDeleted | WtTypechange | WtRenamed | WtUnreadable
    | Ignored | Conflicted

  /** The flags of one status entry. */
  type Entry = set<StatusFlag>

  datatype RepoStatus = RepoStatus(hasChanges: bool, staged: nat, modified: nat, untracked: nat)

  predicate IsStaged(e: Entry) {
    IndexNew in e || IndexModified in e || IndexDeleted in e || IndexRenamed in e || IndexTypechange in e
  }

  predicate IsModified(e: Entry) {
    WtModified in e || WtDeleted in e || WtRenamed in e || WtTypechange in e
  }

  predicate IsUntracked(e: Entry) {
    WtNew in e
  }

  /** The status of a repository with these entries: each counter is the
      number of entries in its class, so at most the number of entries, and
      there are changes iff the counters sum to more than zero, that is iff
      some entry is staged, modified or untracked. */
  function StatusOf(entries: seq<Entry>): (s: RepoStatus)
    ensures s.staged <= |entries| && s.modified <= |entries| && s.untracked <= |entries|
    ensures s.hasChanges <==> s.staged + s.modified + s.untracked > 0
    ensures s.hasChanges <==>
              exists i :: 0 <= i < |entries| &&
                (IsStaged(entries[i]) || IsModified(entries[i]) || IsUntracked(entries[i]))
  {
    var staged := CountWhere(entries, IsStaged);
    var modified := CountWhere(entries, IsModified);
    var untracked := CountWhere(entries, IsUntracked);
    RepoStatus(staged > 0 || modified > 0 || untracked > 0, staged, modified, untracked)
  }

  /** `get_repository_status`: `statuses` is what opening the repository and
      listing its statuses produced. */
  method GetRepositoryStatus(statuses: Result<seq<Entry>>) returns (r: Result<RepoStatus>)
    ensures statuses.Err? ==> r == Err(statuses.error)
    ensures statuses.Ok? ==> r == Ok(StatusOf(statuses.value))
  {
    if statuses.Err? {
      return Err(statuses.error);
    }
    var entries := statuses.value;
    var staged, modified, untracked := 0, 0, 0;
    for i := 0 to |entries|
      invariant staged == StatusOf(entries[..i]).staged
      invariant modified == StatusOf(entries[..i]).modified
      invariant untracked == StatusOf(entries[..i]).untracked
    {
      var status := entries[i];
      assert entries[..i + 1] == entries[..i] + [status];
      StatusSnoc(entries[..i], status);
      if IsStaged(status) {
        staged := staged + 1;
      }
      if IsModified(status) {
        modified := modified + 1;
      }
      if IsUntracked(status) {
        untracked := untracked + 1;
      }
    }
    assert entries[..|entries|] == entries;
    return Ok(RepoStatus(staged > 0 || modified > 0 || untracked > 0, staged, modified, untracked));
  }

  /** Counting entry by entry: the status of a listing followed by one more
      entry adds one to exactly the counters of that entry's classes. */
  lemma {:induction false} StatusSnoc(entries: seq<Entry>, e: Entry)
    ensures var s, t := StatusOf(entries), StatusOf(entries + [e]);
            t.staged == s.staged + (if IsStaged(e) then 1 else 0) &&
            t.modified == s.modified + (if IsModified(e) then 1 else 0) &&
            t.untracked == s.untracked + (if IsUntracked(e) then 1 else 0)
  {
    CountAppend(entries, [e], IsStaged);
    CountAppend(entries, [e], IsModified);
    CountAppend(entries, [e], IsUntracked);
  }

  /** A repository without entries is clean; one entry can be staged and
      modified at once (edited again after `git add`), and ignored or
      conflicted entries count nowhere. */
  lemma StatusExamples()
    ensures StatusOf([]) == RepoStatus(false, 0, 0, 0)
    ensures StatusOf([{IndexModified, WtModified}]) == RepoStatus(true, 1, 1, 0)
    ensures StatusOf([{Ignored}, {Conflicted}]) == RepoStatus(false, 0, 0, 0)
  {
    StatusSnoc([], {IndexModified, WtModified});
    assert [] + [{IndexModified, WtModified}] == [{IndexModified, WtModified}];
    StatusSnoc([{Ignored}], {Conflicted});
    StatusSnoc([], {Ignored});
    assert [] + [{Ignored}] == [{Ignored}];
    assert [{Ignored}] + [{Conflicted}] == [{Ignored}, {Conflicted}];
  }
}
