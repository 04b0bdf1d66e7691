/** Where a project lives on disk (`compute_project_path`): a custom path
    verbatim, or the hosting's expanded base directory followed by the
    repository URL's path segments, each with every trailing `.git`
    removed and the empty ones dropped. `Url::parse` and
    `shellexpand::tilde` are parameters. */
module ProjectPath {
  import opened Common
  import opened Errors
  import opened Strings
  import opened StdPath
  import opened Url
  import opened ConfigPaths
  import opened Schema

  /** `segment.trim_end_matches(".git")`. */
  function CleanSegment(segment: string): string {
    TrimEndMatches(segment, ".git")
  }

  predicate NonEmpty(s: string) {
    s != []
  }

  /** The segments that are joined onto the base, in URL order. */
  function CleanSegments(segments: seq<string>): (r: seq<string>)
    ensures |r| <= |segments|
    ensures forall k :: 0 <= k < |r| ==> r[k] != [] && !EndsWith(r[k], ".git")
    ensures (forall k :: 0 <= k < |segments| ==> '/' !in segments[k]) ==>
              forall k :: 0 <= k < |r| ==> '/' !in r[k]
  {
    if segments == [] then []
    else
      var init := CleanSegments(segments[..|segments| - 1]);
      var last := segments[|segments| - 1];
      var c := CleanSegment(last);
      if c != [] then
        assert IsPrefix(c, last);
        assert forall ch :: ch in c ==> ch in last;
        init + [c]
      else init
  }

  /** Every segment, trimmed. */
  function Trimmed(segments: seq<string>): (r: seq<string>)
    ensures |r| == |segments|
    ensures forall k :: 0 <= k < |r| ==> r[k] == CleanSegment(segments[k])
  {
    seq(|segments|, k requires 0 <= k < |segments| => CleanSegment(segments[k]))
  }

  /** The segments kept are exactly the non-empty trimmed ones, in order. */
  lemma {:induction false} CleanSegmentsIsFilter(segments: seq<string>)
    ensures CleanSegments(segments) == Filter(Trimmed(segments), NonEmpty)
  {
    if segments != [] {
      var init := segments[..|segments| - 1];
      var last := segments[|segments| - 1];
      CleanSegmentsIsFilter(init);
      assert Trimmed(segments) == Trimmed(init) + [CleanSegment(last)];
      FilterAppend(Trimmed(init), [CleanSegment(last)], NonEmpty);
      assert Filter([CleanSegment(last)], NonEmpty)
          == if CleanSegment(last) != [] then [CleanSegment(last)] else [];
    }
  }

  /** The path `compute_project_path` returns. */
  function PathFor(hostings: seq<HostingEntry>, hosting: string, repoUrl: Option<string>,
                   customPath: Option<string>, parse: string -> UrlParse,
                   tilde: string -> string): (r: Result<string>)
    ensures customPath.Some? ==> r == Ok(customPath.value)
    ensures customPath.None? && Lookup(hostings, hosting).None? ==>
              r == Err(ProjectErr(HostingNotFound(hosting)))
    ensures customPath.None? && repoUrl.None? && Lookup(hostings, hosting).Some? ==>
              r == Err(ProjectErr(PathComputation("Cannot compute path without repository URL or custom path")))
    ensures customPath.None? && Lookup(hostings, hosting).Some? && repoUrl.Some? &&
            parse(repoUrl.value).ParseError? ==>
              r == Err(ProjectErr(InvalidUrl("Failed to parse URL '" + repoUrl.value + "': "
                                             + parse(repoUrl.value).message)))
    ensures customPath.None? && Lookup(hostings, hosting).Some? && repoUrl.Some? &&
            parse(repoUrl.value).CannotBeABase? ==>
              r == Err(ProjectErr(InvalidUrl("URL has no path segments")))
    ensures customPath.None? && Lookup(hostings, hosting).Some? && repoUrl.Some? &&
            parse(repoUrl.value) == Parsed([]) ==>
              r == Err(ProjectErr(InvalidUrl("URL path is empty")))
    ensures r.Err? ==> r.error.ProjectErr?
    ensures r.Ok? && customPath.None? ==>
              Lookup(hostings, hosting).Some? && repoUrl.Some? &&
              parse(repoUrl.value).Parsed? && parse(repoUrl.value).segments != []
  {
    if customPath.Some? then Ok(customPath.value)
    else
      match Lookup(hostings, hosting)
      case None => Err(ProjectErr(HostingNotFound(hosting)))
      case Some(h) =>
        var basePath := ExpandPath(h.basePath, tilde).value;
        if repoUrl.None? then
          Err(ProjectErr(PathComputation("Cannot compute path without repository URL or custom path")))
        else
          var url := repoUrl.value;
          match parse(url)
          case ParseError(message) =>
            Err(ProjectErr(InvalidUrl("Failed to parse URL '" + url + "': " + message)))
          case CannotBeABase => Err(ProjectErr(InvalidUrl("URL has no path segments")))
          case Parsed(segments) =>
            if segments == [] then Err(ProjectErr(InvalidUrl("URL path is empty")))
            else Ok(JoinAll(basePath, CleanSegments(segments)))
  }

  /** `compute_project_path`; `isWorktree` is accepted and ignored. */
  method ComputeProjectPath(config: Config, hosting: string, repoUrl: Option<string>,
                            customPath: Option<string>, isWorktree: bool,
                            parse: string -> UrlParse, tilde: string -> string)
    returns (r: Result<string>)
    ensures r == PathFor(config.hostings, hosting, repoUrl, customPath, parse, tilde)
  {
    if customPath.Some? {
      return Ok(customPath.value);
    }
    var hostingConfig := Lookup(config.hostings, hosting);
    if hostingConfig.None? {
      return Err(ProjectErr(HostingNotFound(hosting)));
    }
    var expanded := ExpandPath(hostingConfig.value.basePath, tilde);
    var basePath := expanded.value;
    if repoUrl.None? {
      return Err(ProjectErr(PathComputation("Cannot compute path without repository URL or custom path")));
    }
    var url := repoUrl.value;
    var parsed := parse(url);
    if parsed.ParseError? {
      return Err(ProjectErr(InvalidUrl("Failed to parse URL '" + url + "': " + parsed.message)));
    }
    if parsed.CannotBeABase? {
      return Err(ProjectErr(InvalidUrl("URL has no path segments")));
    }
    var segments := parsed.segments;
    if segments == [] {
      return Err(ProjectErr(InvalidUrl("URL path is empty")));
    }
    var fullPath := basePath;
    for k := 0 to |segments|
      invariant fullPath == JoinAll(basePath, CleanSegments(segments[..k]))
    {
      assert segments[..k + 1][..k] == segments[..k];
      var cleanSegment := CleanSegment(segments[k]);
      if cleanSegment != [] {
        fullPath := Join(fullPath, cleanSegment);
      }
    }
    assert segments[..|segments|] == segments;
    return Ok(fullPath);
  }

  /** Under a base directory that does not end in `/`, the path is the base
      followed by one directory per kept segment, none of them empty or
      ending in `.git`. */
  lemma PathForNested(hostings: seq<HostingEntry>, hosting: string, url: string,
                      parse: string -> UrlParse, tilde: string -> string)
    requires Lookup(hostings, hosting).Some?
    requires var b := tilde(Lookup(hostings, hosting).value.basePath); b != [] && b[|b| - 1] != '/'
    requires parse(url).Parsed? && parse(url).segments != []
    requires forall k :: 0 <= k < |parse(url).segments| ==> '/' !in parse(url).segments[k]
    ensures var b := tilde(Lookup(hostings, hosting).value.basePath);
            var kept := CleanSegments(parse(url).segments);
            PathFor(hostings, hosting, Some(url), None, parse, tilde) == Ok(b + Nested(kept)) &&
            kept == Filter(Trimmed(parse(url).segments), NonEmpty) &&
            forall k :: 0 <= k < |kept| ==> IsName(kept[k]) && !EndsWith(kept[k], ".git")
  {
    var segments := parse(url).segments;
    var kept := CleanSegments(segments);
    JoinAllNested(tilde(Lookup(hostings, hosting).value.basePath), kept);
    CleanSegmentsIsFilter(segments);
  }

  /** Appending `.git` to a name that does not already end in it, then trimming, gives the name back. */
  lemma TrimGitSuffix(name: string)
    requires !EndsWith(name, ".git")
    ensures CleanSegment(name + ".git") == name
  {
    var s := name + ".git";
    assert EndsWith(s, ".git");
    assert s[..|s| - 4] == name;
    assert TrimEndMatches(s, ".git") == TrimEndMatches(name, ".git");
    assert TrimEndMatches(name, ".git") == name;
  }

  /** `trim_end_matches` removes repeated suffixes, so `.git.git` goes entirely. */
  lemma TrimGitTwice(name: string)
    requires !EndsWith(name, ".git")
    ensures CleanSegment(name + ".git" + ".git") == name
  {
    var s := name + ".git" + ".git";
    assert EndsWith(s, ".git");
    assert s[..|s| - 4] == name + ".git";
    TrimGitSuffix(name);
  }

  /** A segment that is only `.git` is dropped. */
  lemma BareGitDropped()
    ensures CleanSegment(".git") == []
  {
    assert EndsWith(".git", ".git");
    assert ".git"[..0] == [];
  }

  /** The two segments of a GitHub URL are kept as they are, but for the `.git` the second loses. */
  lemma GithubSegments(owner: string, repo: string)
    requires owner != [] && repo != []
    requires !EndsWith(owner, ".git") && !EndsWith(repo, ".git")
    ensures CleanSegments([owner, repo + ".git"]) == [owner, repo]
  {
    var segments := [owner, repo + ".git"];
    assert segments[..1] == [owner] && segments[..1][..0] == [];
    assert TrimEndMatches(owner, ".git") == owner;
    assert CleanSegments(segments[..1]) == [owner];
    TrimGitSuffix(repo);
  }

  /** With no custom path, a configured hosting and a parsed URL, the path is
      the expanded base with the kept segments joined on. */
  lemma PathForParsed(hostings: seq<HostingEntry>, hosting: string, url: string,
                      parse: string -> UrlParse, tilde: string -> string)
    requires Lookup(hostings, hosting).Some?
    requires parse(url).Parsed? && parse(url).segments != []
    ensures PathFor(hostings, hosting, Some(url), None, parse, tilde)
            == Ok(JoinAll(tilde(Lookup(hostings, hosting).value.basePath), CleanSegments(parse(url).segments)))
  {
  }

  lemma TwoSegmentPath(hostings: seq<HostingEntry>, hosting: string, h: Hosting, owner: string, repo: string,
                        url: string, tilde: string -> string)
    requires owner != [] && repo != []
    requires '/' !in owner && '/' !in repo
    requires !EndsWith(owner, ".git") && !EndsWith(repo, ".git")
    requires Lookup(hostings, hosting) == Some(h)
    requires var b := tilde(h.basePath); b != [] && b[|b| - 1] != '/'
    requires ParseUrl(url) == Parsed([owner, repo + ".git"])
    ensures PathFor(hostings, hosting, Some(url), None, ParseUrl, tilde)
            == Ok(tilde(h.basePath) + "/" + owner + "/" + repo)
  {
    GithubSegments(owner, repo);
    PathForParsed(hostings, hosting, url, ParseUrl, tilde);
    JoinTwo(tilde(h.basePath), owner, repo);
  }

  lemma DefaultGithub()
    ensures Lookup(DefaultHostings(), "github") == Some(Hosting("~/github.com", "github.com"))
  {
  }

  lemma GithubRepoUrl(owner: string, repo: string, url: string)
    requires forall c :: c in owner ==> c !in {'/', '?', '#'}
    requires forall c :: c in repo ==> c !in {'/', '?', '#'}
    requires url == "https://github.com/" + owner + "/" + repo + ".git"
    ensures ParseUrl(url) == Parsed([owner, repo + ".git"])
  {
    Regroup("https://github.com/" + owner + "/", repo, ".git");
    GitSuffixKeepsUrlSafe(repo);
    GithubUrl(owner, repo + ".git");
  }

  /** The default GitHub hosting places `https://github.com/<owner>/<repo>.git`
      at `<expanded ~/github.com>/<owner>/<repo>`. */
  lemma GithubExample(owner: string, repo: string, url: string, tilde: string -> string)
    requires owner != [] && repo != []
    requires forall c :: c in owner ==> c !in {'/', '?', '#'}
    requires forall c :: c in repo ==> c !in {'/', '?', '#'}
    requires !EndsWith(owner, ".git") && !EndsWith(repo, ".git")
    requires var b := tilde("~/github.com"); b != [] && b[|b| - 1] != '/'
    requires url == "https://github.com/" + owner + "/" + repo + ".git"
    ensures PathFor(DefaultHostings(), "github", Some(url), None, ParseUrl, tilde)
            == Ok(tilde("~/github.com") + "/" + owner + "/" + repo)
  {
    GithubRepoUrl(owner, repo, url);
    assert '/' !in owner && '/' !in repo;
    GithubHostingPath(owner, repo, url, tilde, DefaultHostings());
  }

  lemma GithubHostingPath(owner: string, repo: string, url: string, tilde: string -> string,
                          hostings: seq<HostingEntry>)
    requires owner != [] && repo != []
    requires '/' !in owner && '/' !in repo
    requires !EndsWith(owner, ".git") && !EndsWith(repo, ".git")
    requires var b := tilde("~/github.com"); b != [] && b[|b| - 1] != '/'
    requires ParseUrl(url) == Parsed([owner, repo + ".git"])
    requires hostings == DefaultHostings()
    ensures PathFor(hostings, "github", Some(url), None, ParseUrl, tilde)
            == Ok(tilde("~/github.com") + "/" + owner + "/" + repo)
  {
    DefaultGithub();
    TwoSegmentPath(hostings, "github", Hosting("~/github.com", "github.com"), owner, repo, url, tilde);
  }

  lemma GitSuffixKeepsUrlSafe(repo: string)
    requires forall c :: c in repo ==> c !in {'/', '?', '#'}
    ensures forall c :: c in repo + ".git" ==> c !in {'/', '?', '#'}
  {
    forall c | c in repo + ".git" ensures c !in {'/', '?', '#'} {
      if c !in repo { assert c in ".git"; }
    }
  }

  /** An SCP-style address is rejected as an invalid URL, whatever the hosting. */
  lemma ScpRejected(hostings: seq<HostingEntry>, hosting: string, user: string, host: string, path: string,
                    tilde: string -> string)
    requires ':' !in user && ':' !in host
    requires Lookup(hostings, hosting).Some?
    ensures var url := user + "@" + host + ":" + path;
            PathFor(hostings, hosting, Some(url), None, ParseUrl, tilde)
            == Err(ProjectErr(InvalidUrl("Failed to parse URL '" + url + "': relative URL without a base")))
  {
    var url := user + "@" + host + ":" + path;
    ScpIsNotAUrl(user, host, path);
    assert "Failed to parse URL '" + url + "': " + "relative URL without a base"
        == "Failed to parse URL '" + url + "': relative URL without a base";
  }
}
