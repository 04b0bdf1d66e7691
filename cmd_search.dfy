/** `pm search` (src/commands/search.rs): the projects whose name or
    description contains the pattern, case-sensitively unless
    `--ignore-case` is given, then narrowed by `--hosting` and `--worktree`. */
module SearchCommand {
  import opened Common
  import opened Strings
  import opened Schema
  import opened Cli
  import opened Selection
  import opened ListCommand

  /** The pattern test: with `--ignore-case` both sides are lowercased. */
  predicate SearchMatch(a: SearchArgs, p: Project) {
    var pattern := if a.ignoreCase then ToLower(a.pattern) else a.pattern;
    var nameMatch := if a.ignoreCase then Contains(ToLower(p.name), pattern) else Contains(p.name, pattern);
    var descMatch :=
      p.description.Some? &&
      (if a.ignoreCase then Contains(ToLower(p.description.value), pattern)
       else Contains(p.description.value, pattern));
    nameMatch || descMatch
  }

  /** A project matches the pattern and passes the filters `search` was given. */
  predicate Found(a: SearchArgs, p: Project) {
    SearchMatch(a, p) && (a.hosting.None? || p.hosting == a.hosting.value) && (!a.worktree || p.isWorktree)
  }

  /** The search result: the filter and the two `retain` calls keep exactly
      the projects that match and pass the filters, in registry order. */
  method SearchProjects(config: Config, args: SearchArgs, cli: GlobalArgs) returns (shown: seq<Project>, format: OutputFormat)
    ensures shown == Filter(config.projects, p => Found(args, p))
    ensures format == OutputFormatFor(cli.output, config.settings)
  {
    var pattern := if args.ignoreCase then ToLower(args.pattern) else args.pattern;
    var matches := (p: Project) =>
      var nameMatch := if args.ignoreCase then Contains(ToLower(p.name), pattern) else Contains(p.name, pattern);
      var descMatch :=
        p.description.Some? &&
        (if args.ignoreCase then Contains(ToLower(p.description.value), pattern)
         else Contains(p.description.value, pattern));
      nameMatch || descMatch;
    shown := Filter(config.projects, matches);
    ghost var keep := matches;
    if args.hosting.Some? {
      var hosting := args.hosting.value;
      ghost var next := (p: Project) => keep(p) && p.hosting == hosting;
      shown := Filter(shown, (p: Project) => p.hosting == hosting);
      FilterFilter(config.projects, keep, (p: Project) => p.hosting == hosting, next);
      keep := next;
    }
    if args.worktree {
      ghost var next := (p: Project) => keep(p) && p.isWorktree;
      shown := Filter(shown, (p: Project) => p.isWorktree);
      FilterFilter(config.projects, keep, (p: Project) => p.isWorktree, next);
      keep := next;
    }
    FilterEquivalent(config.projects, keep, p => Found(args, p));
    format := if cli.output.Some? then cli.output.value else config.settings.defaultOutputFormat;
  }

  /** A project is found exactly when it is registered, matches and passes the filters. */
  lemma FoundMembership(ps: seq<Project>, a: SearchArgs, p: Project)
    ensures p in Filter(ps, q => Found(a, q)) <==> p in ps && Found(a, p)
  {
    FilterMembership(ps, q => Found(a, q), p);
  }

  /** `--ignore-case` only widens a search: whatever the case-sensitive
      search finds, the case-insensitive one finds too. */
  lemma IgnoreCaseFindsMore(ps: seq<Project>, a: SearchArgs, p: Project)
    requires p in Filter(ps, q => Found(a.(ignoreCase := false), q))
    ensures p in Filter(ps, q => Found(a.(ignoreCase := true), q))
  {
    var exact, folded := a.(ignoreCase := false), a.(ignoreCase := true);
    FilterMembership(ps, q => Found(a.(ignoreCase := false), q), p);
    FilterMembership(ps, q => Found(a.(ignoreCase := true), q), p);
    assert SearchMatch(exact, p);
    if Contains(p.name, a.pattern) {
      ContainsToLower(p.name, a.pattern);
      assert SearchMatch(folded, p);
    } else {
      assert p.description.Some? && Contains(p.description.value, a.pattern);
      ContainsToLower(p.description.value, a.pattern);
      assert SearchMatch(folded, p);
    }
    assert Found(folded, p);
  }

  /** A case-insensitive search finds what `list --search` with the same
      term finds, given the same hosting and worktree filters. */
  lemma IgnoreCaseSearchIsListSearch(ps: seq<Project>, pattern: string, hosting: Option<string>, worktree: bool)
    ensures Filter(ps, p => Found(SearchArgs(pattern, hosting, worktree, true), p))
            == Filter(ps, p => Listed(ListArgs(hosting, worktree, false, Some(pattern)), p))
  {
    FilterEquivalent(ps, p => Found(SearchArgs(pattern, hosting, worktree, true), p),
                     p => Listed(ListArgs(hosting, worktree, false, Some(pattern)), p));
  }

  /** The empty pattern occurs in every name, so it finds every project on
      the filters. */
  lemma EmptyPatternFindsAll(ps: seq<Project>, a: SearchArgs)
    requires a.pattern == [] && a.hosting.None? && !a.worktree
    ensures Filter(ps, p => Found(a, p)) == ps
  {
    forall p: Project ensures Found(a, p) {
      assert OccursAt(p.name, [], 0);
      assert OccursAt(ToLower(p.name), [], 0);
    }
    FilterAll(ps, p => Found(a, p));
  }
}
