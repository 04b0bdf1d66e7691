/** `pm edit` (src/commands/edit.rs): change the given fields of one
    registered project in place, stamp it and save, or report that nothing
    changed. The record is found with `find_project_mut`, the first project
    with that name; a rename is not checked against the other names. */
module EditCommand {
  import opened Common
  import opened Errors
  import opened Effects
  import opened Schema
  import opened Cli

  /** Some field was given, so the record is stamped and saved. */
  predicate AnyEdit(a: EditArgs) {
    a.description.Some? || a.repo.Some? || a.worktree || a.noWorktree || a.path.Some? || a.nameNew.Some?
  }

  /** The record after `edit`, the fields assigned in the source's order:
      each given option replaces its field, `--no-worktree` is applied after
      `--worktree` and so wins, and the hosting, the worktree branch and the
      creation time are never touched. */
  function Edited(p: Project, a: EditArgs, now: Timestamp): (q: Project)
    ensures q.hosting == p.hosting && q.worktreeBranch == p.worktreeBranch && q.createdAt == p.createdAt
    ensures q.description == (if a.description.Some? then a.description else p.description)
    ensures q.repositoryUrl == (if a.repo.Some? then a.repo else p.repositoryUrl)
    ensures q.name == (if a.nameNew.Some? then a.nameNew.value else p.name)
    ensures q.localPath == (if a.path.Some? then a.path.value else p.localPath)
    ensures q.isWorktree == (if a.noWorktree then false else if a.worktree then true else p.isWorktree)
    ensures AnyEdit(a) ==> q.lastUpdated == now
    ensures !AnyEdit(a) ==> q == p
  {
    var p1 := if a.description.Some? then p.(description := a.description) else p;
    var p2 := if a.repo.Some? then p1.(repositoryUrl := a.repo) else p1;
    var p3 := if a.worktree then p2.(isWorktree := true) else p2;
    var p4 := if a.noWorktree then p3.(isWorktree := false) else p3;
    var p5 := if a.path.Some? then p4.(localPath := a.path.value) else p4;
    var p6 := if a.nameNew.Some? then p5.(name := a.nameNew.value) else p5;
    if AnyEdit(a) then UpdateTimestamp(p6, now) else p6
  }

  /** The result, the registry's projects and the steps that took effect. */
  datatype EditOutcome = EditOutcome(result: Result<()>, projects: seq<Project>, effects: seq<Effect>)

  /** `edit` on a registry: an unknown name is an error that changes
      nothing; otherwise the first record with that name is replaced by its
      edited version, and the registry is saved only if something was given. */
  function EditedRegistry(ps: seq<Project>, a: EditArgs, save: Step, now: Timestamp): EditOutcome {
    match Position(ps, a.name)
    case None => EditOutcome(Err(ProjectErr(NotFound(a.name))), ps, [])
    case Some(i) =>
      var qs := ps[i := Edited(ps[i], a, now)];
      if !AnyEdit(a) then EditOutcome(Ok(()), qs, [])
      else if save.FailsWith? then EditOutcome(Err(save.error), qs, [])
      else EditOutcome(Ok(()), qs, [SaveConfig])
  }

  /** `edit`, step by step on the loaded registry. The record that
      `find_project_mut` hands out is edited as a value and stored back at
      its index. */
  method Edit(config: Config, args: EditArgs, save: Step, now: Timestamp) returns (r: Result<()>, effects: seq<Effect>)
    modifies config`projects
    ensures EditOutcome(r, config.projects, effects) == EditedRegistry(old(config.projects), args, save, now)
  {
    var found := Position(config.projects, args.name);
    if found.None? {
      return Err(ProjectErr(NotFound(args.name))), [];
    }
    var i := found.value;
    ghost var original := config.projects[i];
    var project := config.projects[i];
    var modified := false;
    if args.description.Some? {
      project := project.(description := args.description);
      modified := true;
    }
    if args.repo.Some? {
      project := project.(repositoryUrl := args.repo);
      modified := true;
    }
    if args.worktree {
      project := project.(isWorktree := true);
      modified := true;
    }
    if args.noWorktree {
      project := project.(isWorktree := false);
      modified := true;
    }
    if args.path.Some? {
      project := project.(localPath := args.path.value);
      modified := true;
    }
    if args.nameNew.Some? {
      project := project.(name := args.nameNew.value);
      modified := true;
    }
    assert modified == AnyEdit(args);
    if !modified {
      assert project == original;
      return Ok(()), [];
    }
    project := UpdateTimestamp(project, now);
    assert project == Edited(original, args, now);
    config.projects := config.projects[i := project];
    if save.FailsWith? {
      return Err(save.error), [];
    }
    return Ok(()), [SaveConfig];
  }

  /** Only the edited record changes: every other position of the registry keeps its project. */
  lemma EditTouchesOneRecord(ps: seq<Project>, a: EditArgs, save: Step, now: Timestamp, k: nat)
    requires Position(ps, a.name).Some? && k < |ps| && k != Position(ps, a.name).value
    ensures |EditedRegistry(ps, a, save, now).projects| == |ps|
    ensures EditedRegistry(ps, a, save, now).projects[k] == ps[k]
  {
  }

  /** With no option given, `edit` succeeds without changing or saving anything. */
  lemma NoOptionsNoChange(ps: seq<Project>, a: EditArgs, save: Step, now: Timestamp)
    requires !AnyEdit(a)
    requires Position(ps, a.name).Some?
    ensures EditedRegistry(ps, a, save, now) == EditOutcome(Ok(()), ps, [])
  {
    var i := Position(ps, a.name).value;
    assert ps[i := ps[i]] == ps;
  }

  /** A rename onto another project's name is accepted and leaves two
      projects with the same name. */
  lemma RenameCanDuplicate(ps: seq<Project>, a: EditArgs, save: Step, now: Timestamp, j: nat)
    requires UniqueNames(ps) && Position(ps, a.name).Some?
    requires j < |ps| && j != Position(ps, a.name).value && a.nameNew == Some(ps[j].name)
    ensures !UniqueNames(EditedRegistry(ps, a, save, now).projects)
  {
    var i := Position(ps, a.name).value;
    var qs := EditedRegistry(ps, a, save, now).projects;
    assert qs[i].name == qs[j].name;
  }

  /** Names stay unique when the rename, if any, picks a name no other
      project has. */
  lemma FreshRenameKeepsNamesUnique(ps: seq<Project>, a: EditArgs, save: Step, now: Timestamp)
    requires UniqueNames(ps)
    requires a.nameNew.Some? ==>
               forall k :: 0 <= k < |ps| && Some(k) != Position(ps, a.name) ==> ps[k].name != a.nameNew.value
    ensures UniqueNames(EditedRegistry(ps, a, save, now).projects)
  {
    if Position(ps, a.name).Some? {
      var i := Position(ps, a.name).value;
      var qs := EditedRegistry(ps, a, save, now).projects;
      forall x, y | 0 <= x < y < |qs| ensures qs[x].name != qs[y].name {
        if x != i && y != i {
          assert qs[x] == ps[x] && qs[y] == ps[y];
        }
      }
    }
  }
}
