/** `pm list` (src/commands/list.rs): the registry's projects, narrowed by
    successive `retain` calls for `--hosting`, `--worktree`,
    `--no-worktree` and `--search`, and the format they are printed in. */
module ListCommand {
  import opened Common
  import opened Strings
  import opened Schema
  import opened Cli
  import opened Selection

  /** The `--search` test: the lowercased term occurs in the lowercased name
      or in the lowercased description. */
  predicate ListMatch(term: string, p: Project) {
    var t := ToLower(term);
    Contains(ToLower(p.name), t) || (p.description.Some? && Contains(ToLower(p.description.value), t))
  }

  /** A project passes every filter `list` was given. */
  predicate Listed(a: ListArgs, p: Project) {
    (a.hosting.None? || p.hosting == a.hosting.value) &&
    (!a.worktree || p.isWorktree) &&
    (!a.noWorktree || !p.isWorktree) &&
    (a.search.None? || ListMatch(a.search.value, p))
  }

  /** The listing: the four `retain` calls keep exactly the projects that
      pass all the filters, in registry order. */
  method ListProjects(config: Config, args: ListArgs, cli: GlobalArgs) returns (shown: seq<Project>, format: OutputFormat)
    ensures shown == Filter(config.projects, p => Listed(args, p))
    ensures format == OutputFormatFor(cli.output, config.settings)
  {
    ghost var keep: Project -> bool := p => true;
    FilterAll(config.projects, keep);
    shown := config.projects;
    if args.hosting.Some? {
      var hosting := args.hosting.value;
      ghost var next := (p: Project) => keep(p) && p.hosting == hosting;
      shown := Filter(shown, (p: Project) => p.hosting == hosting);
      FilterFilter(config.projects, keep, (p: Project) => p.hosting == hosting, next);
      keep := next;
    }
    if args.worktree {
      ghost var next := (p: Project) => keep(p) && p.isWorktree;
      shown := Filter(shown, (p: Project) => p.isWorktree);
      FilterFilter(config.projects, keep, (p: Project) => p.isWorktree, next);
      keep := next;
    }
    if args.noWorktree {
      ghost var next := (p: Project) => keep(p) && !p.isWorktree;
      shown := Filter(shown, (p: Project) => !p.isWorktree);
      FilterFilter(config.projects, keep, (p: Project) => !p.isWorktree, next);
      keep := next;
    }
    if args.search.Some? {
      var searchLower := ToLower(args.search.value);
      var matches := (p: Project) =>
        Contains(ToLower(p.name), searchLower) ||
        (p.description.Some? && Contains(ToLower(p.description.value), searchLower));
      ghost var next := (p: Project) => keep(p) && matches(p);
      shown := Filter(shown, matches);
      FilterFilter(config.projects, keep, matches, next);
      keep := next;
    }
    FilterEquivalent(config.projects, keep, p => Listed(args, p));
    format := if cli.output.Some? then cli.output.value else config.settings.defaultOutputFormat;
  }

  /** A project is listed exactly when it is registered and passes the filters. */
  lemma ListedMembership(ps: seq<Project>, a: ListArgs, p: Project)
    ensures p in Filter(ps, q => Listed(a, q)) <==> p in ps && Listed(a, p)
  {
    FilterMembership(ps, q => Listed(a, q), p);
  }

  /** The listing keeps the registry's order. */
  lemma ListKeepsOrder(ps: seq<Project>, a: ListArgs)
    ensures IsSubsequence(Filter(ps, p => Listed(a, p)), ps)
  {
    FilterIsSubsequence(ps, p => Listed(a, p));
  }

  /** Without filters every project is listed. */
  lemma UnfilteredListsEverything(ps: seq<Project>)
    ensures Filter(ps, p => Listed(ListArgs(None, false, false, None), p)) == ps
  {
    FilterAll(ps, p => Listed(ListArgs(None, false, false, None), p));
  }

  /** `--worktree` together with `--no-worktree` lists nothing. */
  lemma ConflictingWorktreeFilters(ps: seq<Project>, a: ListArgs)
    requires a.worktree && a.noWorktree
    ensures Filter(ps, p => Listed(a, p)) == []
  {
    CountIsFilterLength(ps, p => Listed(a, p));
  }

  /** The search is case-insensitive: it does not change when the term or a
      project's name and description are lowercased. */
  lemma ListMatchIgnoresCase(term: string, p: Project)
    ensures ListMatch(ToLower(term), p) == ListMatch(term, p)
  {
    ToLowerIdempotent(term);
  }
}
