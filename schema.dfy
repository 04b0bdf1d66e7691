/** The registry (src/config/schema.rs): project records, the hosting
    catalog and the `Config` object that commands load, change in place and
    save. Time is an input: `now` stands for `Utc::now()`. */
module Schema {
  import opened Common
  import opened Errors
  import opened Strings
  import opened StdPath

  type Timestamp = int

  datatype OutputFormat = Table | Json | Yaml

  datatype Settings = Settings(defaultOutputFormat: OutputFormat)

  /** A hosting provider: where its projects go and the URL text that identifies it. */
  datatype Hosting = Hosting(basePath: string, urlPattern: string)

  /** One key of the hosting catalog with its value. */
  datatype HostingEntry = HostingEntry(name: string, hosting: Hosting)

  datatype Project = Project(
    name: string,
    description: Option<string>,
    repositoryUrl: Option<string>,
    isWorktree: bool,
    worktreeBranch: Option<string>,
    hosting: string,
    localPath: string,
    createdAt: Timestamp,
    lastUpdated: Timestamp)

  /** The catalog is a hash map: its keys are distinct. */
  predicate DistinctKeys(hs: seq<HostingEntry>) {
    forall i, j :: 0 <= i < j < |hs| ==> hs[i].name != hs[j].name
  }

  /** No two projects share a name. */
  predicate UniqueNames(ps: seq<Project>) {
    forall i, j :: 0 <= i < j < |ps| ==> ps[i].name != ps[j].name
  }

  /** `hostings.get(name)`. */
  function Lookup(hs: seq<HostingEntry>, name: string): (r: Option<Hosting>)
    ensures r.None? <==> forall i :: 0 <= i < |hs| ==> hs[i].name != name
    ensures r.Some? ==> exists i :: 0 <= i < |hs| && hs[i] == HostingEntry(name, r.value)
  {
    if hs == [] then None
    else if hs[0].name == name then Some(hs[0].hosting)
    else
      var r := Lookup(hs[1..], name);
      assert r.Some? ==> exists i :: 0 <= i < |hs[1..]| && hs[1..][i] == HostingEntry(name, r.value);
      assert forall i :: 0 <= i < |hs[1..]| ==> hs[1..][i] == hs[i + 1];
      r
  }

  /** In a catalog with distinct keys the lookup finds the one entry with that key. */
  lemma {:induction false} LookupFindsEntry(hs: seq<HostingEntry>, i: nat)
    requires DistinctKeys(hs) && i < |hs|
    ensures Lookup(hs, hs[i].name) == Some(hs[i].hosting)
  {
    var r := Lookup(hs, hs[i].name);
    var j :| 0 <= j < |hs| && hs[j] == HostingEntry(hs[i].name, r.value);
    assert j == i;
  }

  /** With distinct keys the lookup answer is the one entry with that key. */
  lemma LookupUnique(hs: seq<HostingEntry>, name: string)
    ensures DistinctKeys(hs) ==>
              forall i :: 0 <= i < |hs| && hs[i].name == name ==> Lookup(hs, name) == Some(hs[i].hosting)
  {
    if DistinctKeys(hs) {
      forall i | 0 <= i < |hs| && hs[i].name == name ensures Lookup(hs, name) == Some(hs[i].hosting) {
        LookupFindsEntry(hs, i);
      }
    }
  }

  /** Index of the first project named `name`: `iter().position(|p| p.name == name)`,
      and the location `find_project_mut` hands out. */
  function Position(ps: seq<Project>, name: string): (r: Option<nat>)
    ensures r.Some? ==> r.value < |ps| && ps[r.value].name == name
    ensures r.Some? ==> forall j :: 0 <= j < r.value ==> ps[j].name != name
    ensures r.None? <==> forall j :: 0 <= j < |ps| ==> ps[j].name != name
  {
    if ps == [] then None
    else if ps[0].name == name then Some(0)
    else
      match Position(ps[1..], name)
      case None => None
      case Some(k) => Some(k + 1)
  }

  /** The sequence without its element at index `i`: `Vec::remove(i)`. */
  function RemoveAt<T>(s: seq<T>, i: nat): (r: seq<T>)
    requires i < |s|
    ensures |r| == |s| - 1
  {
    s[..i] + s[i + 1..]
  }

  /** Removing the only project with a name leaves a registry with unique
      names in which that name no longer occurs. */
  lemma {:induction false} RemoveUnique(ps: seq<Project>, i: nat)
    requires UniqueNames(ps) && i < |ps|
    ensures UniqueNames(RemoveAt(ps, i))
    ensures Position(RemoveAt(ps, i), ps[i].name).None?
  {
    var r := RemoveAt(ps, i);
    assert forall k :: 0 <= k < |r| ==> r[k] == if k < i then ps[k] else ps[k + 1];
    forall k | 0 <= k < |r| ensures r[k].name != ps[i].name {
      if k < i { assert k < i; } else { assert i < k + 1; }
    }
    forall a, b | 0 <= a < b < |r| ensures r[a].name != r[b].name {
      var a' := if a < i then a else a + 1;
      var b' := if b < i then b else b + 1;
      assert a' < b' && r[a] == ps[a'] && r[b] == ps[b'];
    }
  }

  /** Appending a project whose name is absent keeps names unique. */
  lemma AppendFresh(ps: seq<Project>, p: Project)
    requires UniqueNames(ps) && Position(ps, p.name).None?
    ensures UniqueNames(ps + [p])
    ensures Position(ps + [p], p.name) == Some(|ps|)
  {
    var qs := ps + [p];
    assert forall j :: 0 <= j < |ps| ==> qs[j] == ps[j];
    AppendFreshPosition(ps, p, qs);
    forall a, b | 0 <= a < b < |qs| ensures qs[a].name != qs[b].name {
      if b < |ps| {
        assert qs[a] == ps[a] && qs[b] == ps[b];
      } else {
        assert qs[a] == ps[a];
      }
    }
  }

  lemma AppendFreshPosition(ps: seq<Project>, p: Project, qs: seq<Project>)
    requires Position(ps, p.name).None?
    requires |qs| == |ps| + 1 && qs[|ps|] == p
    requires forall j :: 0 <= j < |ps| ==> qs[j] == ps[j]
    ensures Position(qs, p.name) == Some(|ps|)
  {
    var k := Position(qs, p.name);
    assert qs[|ps|].name == p.name;
    assert forall j :: 0 <= j < |ps| ==> qs[j].name != p.name;
    assert k.Some?;
  }

  /** The catalog `Config::default` installs. */
  function DefaultHostings(): seq<HostingEntry> {
    [ HostingEntry("github", Hosting("~/github.com", "github.com")),
      HostingEntry("gitlab", Hosting("~/gitlab.com", "gitlab.com")),
      HostingEntry("azure", Hosting("~/azure.com", "azure.com")),
      HostingEntry("custom", Hosting("~/git", "")) ]
  }

  /** A hosting is recognised in a URL when its pattern is non-empty and occurs in it. */
  predicate PatternMatches(h: Hosting, url: string) {
    h.urlPattern != [] && Contains(url, h.urlPattern)
  }

  /** What `infer_hosting_from_url` may answer: the key of some entry whose
      pattern matches, or `custom` when no pattern matches. Which of several
      matching keys is chosen depends on the hash map's iteration order. */
  ghost predicate IsInferredHosting(hs: seq<HostingEntry>, url: string, name: string) {
    if exists i :: 0 <= i < |hs| && PatternMatches(hs[i].hosting, url)
    then exists i :: 0 <= i < |hs| && PatternMatches(hs[i].hosting, url) && hs[i].name == name
    else name == "custom"
  }

  /** The default `custom` entry, with its empty pattern, never matches. */
  lemma CustomNeverMatches(url: string)
    ensures !PatternMatches(DefaultHostings()[3].hosting, url)
  {
  }

  /** With the default catalog a GitHub URL is filed under `github`. */
  lemma InferGithub(url: string)
    requires Contains(url, "github.com") && !Contains(url, "gitlab.com") && !Contains(url, "azure.com")
    ensures forall name :: IsInferredHosting(DefaultHostings(), url, name) <==> name == "github"
  {
    var hs := DefaultHostings();
    assert PatternMatches(hs[0].hosting, url);
  }

  /** `Project::new`: no description, URL or branch, not a worktree, both
      timestamps equal to the creation time. */
  function NewProject(name: string, hosting: string, localPath: string, now: Timestamp): (p: Project)
    ensures p.name == name && p.hosting == hosting && p.localPath == localPath
    ensures p.description.None? && p.repositoryUrl.None? && p.worktreeBranch.None?
    ensures !p.isWorktree
    ensures p.createdAt == now && p.lastUpdated == now
  {
    Project(name, None, None, false, None, hosting, localPath, now, now)
  }

  /** `update_timestamp`: only `last_updated` changes, to `now`. */
  function UpdateTimestamp(p: Project, now: Timestamp): (q: Project)
    ensures q.lastUpdated == now
    ensures q.(lastUpdated := p.lastUpdated) == p
  {
    p.(lastUpdated := now)
  }

  /** The kind `DirEntry::file_type` reports (it does not follow links). */
  datatype FileKind = Directory | RegularFile | Symlink

  /** One entry of a directory listing: its file name, its type (`None`
      when `file_type()` fails) and whether `<entry>/.git` exists. */
  datatype DirEntry = DirEntry(fileName: string, fileType: Option<FileKind>, hasGitMarker: bool)

  /** `fs::read_dir`, in the order the system returns entries: `None` when
      the directory cannot be read, `None` items for entries that fail. */
  type Listing = Option<seq<Option<DirEntry>>>

  /** The legacy scan accepts an entry that is a directory holding `.git`. */
  predicate IsRepoSubdir(e: Option<DirEntry>) {
    e.Some? && e.value.fileType == Some(Directory) && e.value.hasGitMarker
  }

  /** The path of the first accepted entry of a listing of `dir`. */
  function FirstRepoSubdir(dir: string, entries: seq<Option<DirEntry>>): (r: Option<string>)
    ensures r.None? <==> forall i :: 0 <= i < |entries| ==> !IsRepoSubdir(entries[i])
    ensures r.Some? ==>
              exists i :: 0 <= i < |entries| && IsRepoSubdir(entries[i])
                          && (forall j :: 0 <= j < i ==> !IsRepoSubdir(entries[j]))
                          && r.value == Join(dir, entries[i].value.fileName)
  {
    if entries == [] then None
    else if IsRepoSubdir(entries[0]) then Some(Join(dir, entries[0].value.fileName))
    else
      var r := FirstRepoSubdir(dir, entries[1..]);
      assert forall i :: 0 <= i < |entries[1..]| ==> entries[1..][i] == entries[i + 1];
      r
  }

  /** `get_repo_path`: where the checkout of a project lives. A plain
      project is checked out at `local_path`; a worktree project in the
      subdirectory named after its branch; a worktree project recorded
      before branches were stored, in the first listed subdirectory holding
      `.git`, falling back to `local_path`. */
  function RepoPath(p: Project, listing: Listing): (r: string)
    ensures !p.isWorktree ==> r == p.localPath
    ensures p.isWorktree && p.worktreeBranch.Some? ==> r == Join(p.localPath, p.worktreeBranch.value)
    ensures p.isWorktree && p.worktreeBranch.None? ==>
      (listing.None? || forall i :: 0 <= i < |listing.value| ==> !IsRepoSubdir(listing.value[i]))
      ==> r == p.localPath
    ensures p.isWorktree && p.worktreeBranch.None? && listing.Some? ==>
      forall i :: 0 <= i < |listing.value| && IsRepoSubdir(listing.value[i])
        && (forall j :: 0 <= j < i ==> !IsRepoSubdir(listing.value[j]))
        ==> r == Join(p.localPath, listing.value[i].value.fileName)
  {
    if !p.isWorktree then p.localPath
    else if p.worktreeBranch.Some? then Join(p.localPath, p.worktreeBranch.value)
    else if listing.None? then p.localPath
    else
      match FirstRepoSubdir(p.localPath, listing.value)
      case Some(sub) => sub
      case None => p.localPath
  }

  /** `get_repo_path`, the loop with early return over the listing. */
  method GetRepoPath(p: Project, listing: Listing) returns (path: string)
    ensures path == RepoPath(p, listing)
  {
    if !p.isWorktree {
      return p.localPath;
    }
    if p.worktreeBranch.Some? {
      return Join(p.localPath, p.worktreeBranch.value);
    }
    if listing.Some? {
      var entries := listing.value;
      var i := 0;
      while i < |entries|
        invariant 0 <= i <= |entries|
        invariant forall j :: 0 <= j < i ==> !IsRepoSubdir(entries[j])
      {
        if IsRepoSubdir(entries[i]) {
          return Join(p.localPath, entries[i].value.fileName);
        }
        i := i + 1;
      }
    }
    return p.localPath;
  }

  /** A freshly created project is found at its local path, whatever the disk holds. */
  lemma NewProjectRepoPath(name: string, hosting: string, localPath: string, now: Timestamp, listing: Listing)
    ensures RepoPath(NewProject(name, hosting, localPath, now), listing) == localPath
  {
  }

  /** A worktree on branch `main` under `/x` is checked out at `/x/main`. */
  lemma WorktreeBranchExample(p: Project, listing: Listing)
    requires p.isWorktree && p.worktreeBranch == Some("main") && p.localPath == "/x"
    ensures RepoPath(p, listing) == "/x/main"
  {
  }

  /** A legacy worktree under `/x` whose listing shows a file and then the
      directory `feature` holding `.git` is checked out at `/x/feature`. */
  lemma LegacyScanExample(p: Project)
    requires p.isWorktree && p.worktreeBranch.None? && p.localPath == "/x"
    ensures RepoPath(p, Some([Some(DirEntry("README", Some(RegularFile), false)),
                              None,
                              Some(DirEntry("feature", Some(Directory), true))])) == "/x/feature"
  {
    var entries := [Some(DirEntry("README", Some(RegularFile), false)),
                    None,
                    Some(DirEntry("feature", Some(Directory), true))];
    assert !IsRepoSubdir(entries[0]) && !IsRepoSubdir(entries[1]) && IsRepoSubdir(entries[2]);
    assert Join("/x", "feature") == "/x/feature";
  }

  /** The registry document in memory (`Config`). The hosting map is a
      sequence of entries with distinct keys, in the map's iteration order. */
  class Config {
    var version: string
    var settings: Settings
    var hostings: seq<HostingEntry>
    var projects: seq<Project>

    ghost predicate Valid()
      reads this
    {
      DistinctKeys(hostings)
    }

    /** `Config::default`: version 1.0, table output, the four default
        hostings, no projects. */
    constructor Default()
      ensures Valid()
      ensures version == "1.0" && settings == Settings(Table)
      ensures hostings == DefaultHostings() && projects == []
    {
      version := "1.0";
      settings := Settings(Table);
      hostings := DefaultHostings();
      projects := [];
    }

    /** `get_hosting_path`: the base path of the hosting with that key. */
    function GetHostingPath(hosting: string): (r: Option<string>)
      reads this
      ensures r.None? <==> forall i :: 0 <= i < |hostings| ==> hostings[i].name != hosting
      ensures r.Some? ==>
                exists i :: 0 <= i < |hostings| && hostings[i].name == hosting
                            && hostings[i].hosting.basePath == r.value
      ensures Valid() ==>
                forall i :: 0 <= i < |hostings| && hostings[i].name == hosting ==>
                  r == Some(hostings[i].hosting.basePath)
    {
      LookupUnique(hostings, hosting);
      match Lookup(hostings, hosting)
      case Some(h) => Some(h.basePath)
      case None => None
    }

    /** `infer_hosting_from_url`: returns at the first entry whose pattern
        matches, `custom` when none does. */
    method InferHostingFromUrl(url: string) returns (name: string)
      ensures IsInferredHosting(hostings, url, name)
    {
      var i := 0;
      while i < |hostings|
        invariant 0 <= i <= |hostings|
        invariant forall j :: 0 <= j < i ==> !PatternMatches(hostings[j].hosting, url)
      {
        if PatternMatches(hostings[i].hosting, url) {
          return hostings[i].name;
        }
        i := i + 1;
      }
      return "custom";
    }

    /** `find_project`: the first project with exactly that name. */
    function FindProject(name: string): (r: Option<Project>)
      reads this
      ensures r.None? <==> forall i :: 0 <= i < |projects| ==> projects[i].name != name
      ensures r.Some? ==>
                exists i :: 0 <= i < |projects| && projects[i] == r.value && r.value.name == name
                            && forall j :: 0 <= j < i ==> projects[j].name != name
    {
      match Position(projects, name)
      case Some(i) => Some(projects[i])
      case None => None
    }

    /** `add_project`: refuses a name already present, otherwise appends. */
    method AddProject(project: Project) returns (r: Result<()>)
      modifies this`projects
      ensures Position(old(projects), project.name).Some? ==>
        r == Err(ProjectErr(AlreadyExists(project.name))) && projects == old(projects)
      ensures Position(old(projects), project.name).None? ==>
        r == Ok(()) && projects == old(projects) + [project]
      ensures UniqueNames(old(projects)) ==> UniqueNames(projects)
    {
      if FindProject(project.name).Some? {
        return Err(ProjectErr(AlreadyExists(project.name)));
      }
      AppendFreshIfUnique(projects, project);
      projects := projects + [project];
      return Ok(());
    }

    /** `remove_project`: removes and returns the first project with that name. */
    method RemoveProject(name: string) returns (r: Result<Project>)
      modifies this`projects
      ensures Position(old(projects), name).None? ==>
        r == Err(ProjectErr(NotFound(name))) && projects == old(projects)
      ensures Position(old(projects), name).Some? ==>
        r == Ok(old(projects)[Position(old(projects), name).value])
        && projects == RemoveAt(old(projects), Position(old(projects), name).value)
      ensures UniqueNames(old(projects)) ==> UniqueNames(projects) && Position(projects, name).None?
    {
      var index := Position(projects, name);
      if index.None? {
        return Err(ProjectErr(NotFound(name)));
      }
      var removed := projects[index.value];
      if UniqueNames(projects) {
        RemoveUnique(projects, index.value);
      }
      projects := RemoveAt(projects, index.value);
      return Ok(removed);
    }
  }

  lemma AppendFreshIfUnique(ps: seq<Project>, p: Project)
    requires Position(ps, p.name).None?
    ensures UniqueNames(ps) ==> UniqueNames(ps + [p])
  {
    if UniqueNames(ps) {
      AppendFresh(ps, p);
    }
  }
}
