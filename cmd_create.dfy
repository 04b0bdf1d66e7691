/** `pm create` (src/commands/create.rs): choose the hosting, compute the
    local path, optionally clone, register the project and save the
    registry. Parsing the URL, expanding `~`, the clone's steps and the save
    are inputs; the registry is the loaded `Config`, changed in place. */
module CreateCommand {
  import opened Common
  import opened Errors
  import opened Effects
  import opened Url
  import opened ConfigPaths
  import opened Schema
  import opened ProjectPath
  import opened GitClone
  import opened Cli

  /** The result, the registry's projects and the steps that took effect. */
  datatype CreateOutcome = CreateOutcome(result: Result<()>, projects: seq<Project>, effects: seq<Effect>)

  /** The hosting `create` files the project under: `--hosting` if given,
      else the one inferred from `--repo`, else `custom`. */
  ghost predicate IsChosenHosting(hs: seq<HostingEntry>, a: CreateArgs, hosting: string) {
    if a.hosting.Some? then hosting == a.hosting.value
    else if a.repo.Some? then IsInferredHosting(hs, a.repo.value, hosting)
    else hosting == "custom"
  }

  /** The record `create` registers. */
  function NewRecord(a: CreateArgs, hosting: string, localPath: string, worktreeBranch: Option<string>,
                     now: Timestamp): Project
  {
    NewProject(a.name, hosting, localPath, now).(
      description := a.description, repositoryUrl := a.repo,
      isWorktree := a.worktree, worktreeBranch := worktreeBranch)
  }

  /** Whether `create` clones: only with `--clone` and a repository URL. */
  predicate Clones(a: CreateArgs) {
    a.clone && a.repo.Some?
  }

  /** `create` once the hosting is chosen. A failed save leaves the project
      in the in-memory registry only. */
  function Created(hs: seq<HostingEntry>, ps: seq<Project>, a: CreateArgs, hosting: string,
                   parse: string -> UrlParse, tilde: string -> string,
                   clone: CloneOracle, save: Step, now: Timestamp): CreateOutcome
  {
    match PathFor(hs, hosting, a.repo, a.path, parse, tilde)
    case Err(e) => CreateOutcome(Err(e), ps, [])
    case Ok(localPath) =>
      var c := if Clones(a) then CloneRepository(a.repo.value, tilde(localPath), a.worktree, clone)
               else CloneOutcome(Ok(None), []);
      if c.result.Err? then CreateOutcome(Err(c.result.error), ps, c.effects)
      else
        var p := NewRecord(a, hosting, localPath, c.result.value, now);
        if Position(ps, p.name).Some? then CreateOutcome(Err(ProjectErr(AlreadyExists(p.name))), ps, c.effects)
        else if save.FailsWith? then CreateOutcome(Err(save.error), ps + [p], c.effects)
        else CreateOutcome(Ok(()), ps + [p], c.effects + [SaveConfig])
  }

  /** `create`, step by step on the loaded registry. */
  method Create(config: Config, args: CreateArgs, parse: string -> UrlParse, tilde: string -> string,
                clone: CloneOracle, save: Step, now: Timestamp)
    returns (r: Result<()>, hosting: string, effects: seq<Effect>)
    modifies config`projects
    ensures IsChosenHosting(config.hostings, args, hosting)
    ensures CreateOutcome(r, config.projects, effects)
            == Created(config.hostings, old(config.projects), args, hosting, parse, tilde, clone, save, now)
  {
    if args.hosting.Some? {
      hosting := args.hosting.value;
    } else if args.repo.Some? {
      hosting := config.InferHostingFromUrl(args.repo.value);
    } else {
      hosting := "custom";
    }
    var localPath := ComputeProjectPath(config, hosting, args.repo, args.path, args.worktree, parse, tilde);
    if localPath.Err? {
      return Err(localPath.error), hosting, [];
    }
    var worktreeBranch := None;
    effects := [];
    if args.clone {
      if args.repo.Some? {
        var expandedPath := ExpandPath(localPath.value, tilde).value;
        var c := CloneRepository(args.repo.value, expandedPath, args.worktree, clone);
        effects := c.effects;
        if c.result.Err? {
          return Err(c.result.error), hosting, effects;
        }
        worktreeBranch := c.result.value;
      }
    }
    ghost var c := if Clones(args) then CloneRepository(args.repo.value, tilde(localPath.value), args.worktree, clone)
                   else CloneOutcome(Ok(None), []);
    assert c.result.Ok? && effects == c.effects && worktreeBranch == c.result.value;
    var project := NewProject(args.name, hosting, localPath.value, now);
    project := project.(description := args.description);
    project := project.(repositoryUrl := args.repo);
    project := project.(isWorktree := args.worktree);
    project := project.(worktreeBranch := worktreeBranch);
    assert project == NewRecord(args, hosting, localPath.value, worktreeBranch, now);
    var added := config.AddProject(project);
    if added.Err? {
      return added, hosting, effects;
    }
    if save.FailsWith? {
      return Err(save.error), hosting, effects;
    }
    effects := effects + [SaveConfig];
    return Ok(()), hosting, effects;
  }

  /** A path that cannot be computed stops `create` before anything happens. */
  lemma PathErrorChangesNothing(hs: seq<HostingEntry>, ps: seq<Project>, a: CreateArgs, hosting: string,
                                parse: string -> UrlParse, tilde: string -> string,
                                clone: CloneOracle, save: Step, now: Timestamp)
    requires PathFor(hs, hosting, a.repo, a.path, parse, tilde).Err?
    ensures var o := Created(hs, ps, a, hosting, parse, tilde, clone, save, now);
            o.result == Err(PathFor(hs, hosting, a.repo, a.path, parse, tilde).error) && o.projects == ps && o.effects == []
  {
  }

  /** A successful `create` appends one record, carrying the arguments, the
      chosen hosting and the computed path, to a registry that did not have
      the name; the last step is the save, and unique names stay unique. */
  lemma CreateAppendsRecord(hs: seq<HostingEntry>, ps: seq<Project>, a: CreateArgs, hosting: string,
                            parse: string -> UrlParse, tilde: string -> string,
                            clone: CloneOracle, save: Step, now: Timestamp)
    requires Created(hs, ps, a, hosting, parse, tilde, clone, save, now).result.Ok?
    ensures var o := Created(hs, ps, a, hosting, parse, tilde, clone, save, now);
            var path := PathFor(hs, hosting, a.repo, a.path, parse, tilde);
            path.Ok? && Position(ps, a.name).None? &&
            |o.projects| == |ps| + 1 && o.projects[..|ps|] == ps &&
            var p := o.projects[|ps|];
            p.name == a.name && p.hosting == hosting && p.localPath == path.value &&
            p.description == a.description && p.repositoryUrl == a.repo && p.isWorktree == a.worktree &&
            p.createdAt == now && p.lastUpdated == now &&
            o.effects != [] && o.effects[|o.effects| - 1] == SaveConfig &&
            (UniqueNames(ps) ==> UniqueNames(o.projects))
  {
    var o := Created(hs, ps, a, hosting, parse, tilde, clone, save, now);
    var path := PathFor(hs, hosting, a.repo, a.path, parse, tilde);
    var c := if Clones(a) then CloneRepository(a.repo.value, tilde(path.value), a.worktree, clone)
             else CloneOutcome(Ok(None), []);
    var p := NewRecord(a, hosting, path.value, c.result.value, now);
    assert o.projects == ps + [p];
    AppendFreshIfUnique(ps, p);
  }

  /** Nothing is cloned without `--clone` and a URL: the only possible step is the save. */
  lemma NoCloneWithoutUrl(hs: seq<HostingEntry>, ps: seq<Project>, a: CreateArgs, hosting: string,
                          parse: string -> UrlParse, tilde: string -> string,
                          clone: CloneOracle, save: Step, now: Timestamp)
    requires !Clones(a)
    ensures var o := Created(hs, ps, a, hosting, parse, tilde, clone, save, now);
            (o.effects == [] || o.effects == [SaveConfig]) &&
            (o.result.Ok? ==> o.projects[|ps|].worktreeBranch.None?)
  {
  }

  /** The name is checked only after cloning: a duplicate name is refused
      with the registry unchanged and not saved, but the clone stays on disk. */
  lemma DuplicateRefusedAfterClone(hs: seq<HostingEntry>, ps: seq<Project>, a: CreateArgs, hosting: string,
                                   parse: string -> UrlParse, tilde: string -> string,
                                   clone: CloneOracle, save: Step, now: Timestamp)
    requires Position(ps, a.name).Some?
    requires PathFor(hs, hosting, a.repo, a.path, parse, tilde).Ok?
    requires Clones(a)
    requires CloneRepository(a.repo.value, tilde(PathFor(hs, hosting, a.repo, a.path, parse, tilde).value),
                             a.worktree, clone).result.Ok?
    ensures var o := Created(hs, ps, a, hosting, parse, tilde, clone, save, now);
            o.result == Err(ProjectErr(AlreadyExists(a.name))) && o.projects == ps &&
            |o.effects| == 2 && o.effects[1].CloneInto? && SaveConfig !in o.effects
  {
  }

  /** A worktree project cloned by `create` records the remote's default
      branch, and the clone went into that branch's subdirectory of the
      expanded path. */
  lemma WorktreeCloneRecordsBranch(hs: seq<HostingEntry>, ps: seq<Project>, a: CreateArgs, hosting: string,
                                   parse: string -> UrlParse, tilde: string -> string,
                                   clone: CloneOracle, save: Step, now: Timestamp)
    requires Clones(a) && a.worktree
    requires Created(hs, ps, a, hosting, parse, tilde, clone, save, now).result.Ok?
    ensures var o := Created(hs, ps, a, hosting, parse, tilde, clone, save, now);
            var path := PathFor(hs, hosting, a.repo, a.path, parse, tilde).value;
            var branch := o.projects[|ps|].worktreeBranch;
            branch.Some? &&
            o.effects == [CreateDirAll(CloneTarget(tilde(path), true, branch.value)),
                          CloneInto(a.repo.value, CloneTarget(tilde(path), true, branch.value)),
                          SaveConfig]
  {
  }
}
