/** A simplified stand-in for `url::Url::parse` followed by `path_segments`,
    covering the `scheme://host/path` shape: the scheme must be an ASCII
    letter followed by letters, digits, `+`, `-` or `.`; the host runs to
    the first `/`, `?` or `#`; the path runs to the first `?` or `#` and is
    split on `/` after its leading slash. Every scheme is treated like
    `http`, whose empty path reads as `/`. A scheme without `//` gives a
    URL that cannot be a base. */
module Url {
  import opened Strings

  /** What `Url::parse(..)` and `.path_segments()` yield: a parse error,
      a URL without path segments, or the segments. */
  datatype UrlParse = ParseError(message: string) | CannotBeABase | Parsed(segments: seq<string>)

  predicate IsAsciiAlpha(c: char) {
    'a' <= c <= 'z' || 'A' <= c <= 'Z'
  }

  predicate IsSchemeChar(c: char) {
    IsAsciiAlpha(c) || '0' <= c <= '9' || c == '+' || c == '-' || c == '.'
  }

  predicate ValidScheme(s: string) {
    |s| > 0 && IsAsciiAlpha(s[0]) && forall i :: 1 <= i < |s| ==> IsSchemeChar(s[i])
  }

  /** The segments of a parsed URL never contain `/`, and there is always at
      least one (`https://host/` has the single segment `""`). */
  function ParseUrl(s: string): (r: UrlParse)
    ensures r.Parsed? ==> |r.segments| >= 1
    ensures r.Parsed? ==> forall k :: 0 <= k < |r.segments| ==> '/' !in r.segments[k]
    ensures r.Parsed? || r.CannotBeABase? ==> ':' in s
  {
    var colon := IndexOfAny(s, {':'});
    if colon == |s| || !ValidScheme(s[..colon]) then ParseError("relative URL without a base")
    else
      assert s[colon] == ':';
      ParseAfterScheme(s[colon + 1..])
  }

  /** What follows `scheme:`: a hierarchical URL starts with `//`. */
  function ParseAfterScheme(rest: string): (r: UrlParse)
    ensures r.Parsed? ==> |r.segments| >= 1
    ensures r.Parsed? ==> forall k :: 0 <= k < |r.segments| ==> '/' !in r.segments[k]
  {
    if !IsPrefix("//", rest) then CannotBeABase else ParseAuthority(rest[2..])
  }

  /** The host runs to the first `/`, `?` or `#` and must not be empty. */
  function ParseAuthority(a: string): (r: UrlParse)
    ensures r.Parsed? ==> |r.segments| >= 1
    ensures r.Parsed? ==> forall k :: 0 <= k < |r.segments| ==> '/' !in r.segments[k]
  {
    var hostEnd := IndexOfAny(a, {'/', '?', '#'});
    if hostEnd == 0 then ParseError("empty host")
    else PathSegments(a[hostEnd..])
  }

  /** The path runs to the first `?` or `#`; an empty path reads as `/`. */
  function PathSegments(tail: string): (r: UrlParse)
    requires tail == [] || tail[0] in {'/', '?', '#'}
    ensures r.Parsed? && |r.segments| >= 1
    ensures forall k :: 0 <= k < |r.segments| ==> '/' !in r.segments[k]
  {
    var path := tail[..IndexOfAny(tail, {'?', '#'})];
    if path == [] then Parsed([""])
    else
      assert path[0] == '/';
      Parsed(Split(path[1..], '/'))
  }

  /** Without a `:` there is no scheme, so the string is a relative URL. */
  lemma NoColonIsRelative(s: string)
    requires ':' !in s
    ensures ParseUrl(s) == ParseError("relative URL without a base")
  {
    IndexOfAnyIs(s, {':'}, |s|);
  }

  /** The SCP-like form `user@host:path` is not a URL: the text before the
      first `:` holds an `@`, which cannot occur in a scheme. */
  lemma ScpIsNotAUrl(user: string, host: string, path: string)
    requires ':' !in user && ':' !in host
    ensures ParseUrl(user + "@" + host + ":" + path) == ParseError("relative URL without a base")
  {
    var s := user + "@" + host + ":" + path;
    var k := |user| + 1 + |host|;
    assert s[k] == ':';
    forall j | 0 <= j < k ensures s[j] !in {':'} {
      if j < |user| { assert s[j] == user[j]; }
      else if j > |user| { assert s[j] == host[j - |user| - 1]; }
    }
    IndexOfAnyIs(s, {':'}, k);
    assert s[..k][|user|] == '@';
  }

  /** `scheme://host/path` parses to the `/`-separated pieces of `path`. */
  lemma HierarchicalUrl(scheme: string, host: string, path: string)
    requires ValidScheme(scheme) && host != []
    requires forall c :: c in host ==> c !in {':', '/', '?', '#'}
    requires forall c :: c in path ==> c !in {'?', '#'}
    ensures ParseUrl(scheme + "://" + host + "/" + path) == Parsed(Split(path, '/'))
  {
    var a := host + "/" + path;
    assert scheme + "://" + host + "/" + path == scheme + ":" + ("//" + a);
    SchemeThen(scheme, "//" + a);
    AfterSchemeHierarchical(a);
    AuthorityThenPath(host, path);
  }

  /** A valid scheme followed by `:` hands the rest to the hierarchical part. */
  lemma SchemeThen(scheme: string, rest: string)
    requires ValidScheme(scheme)
    ensures ParseUrl(scheme + ":" + rest) == ParseAfterScheme(rest)
  {
    var s := scheme + ":" + rest;
    var n := |scheme|;
    assert s[n] == ':';
    forall j | 0 <= j < n ensures s[j] !in {':'} {
      assert s[j] == scheme[j];
      assert IsSchemeChar(scheme[j]) || j == 0;
    }
    IndexOfAnyIs(s, {':'}, n);
    assert s[..n] == scheme;
    assert s[n + 1..] == rest;
  }

  lemma AfterSchemeHierarchical(a: string)
    ensures ParseAfterScheme("//" + a) == ParseAuthority(a)
  {
    assert ("//" + a)[..2] == "//";
    assert ("//" + a)[2..] == a;
  }

  lemma AuthorityThenPath(host: string, path: string)
    requires host != []
    requires forall c :: c in host ==> c !in {':', '/', '?', '#'}
    requires forall c :: c in path ==> c !in {'?', '#'}
    ensures ParseAuthority(host + "/" + path) == Parsed(Split(path, '/'))
  {
    var a := host + "/" + path;
    assert a[|host|] == '/';
    forall j | 0 <= j < |host| ensures a[j] !in {'/', '?', '#'} {
      assert a[j] == host[j];
      assert host[j] in host;
    }
    IndexOfAnyIs(a, {'/', '?', '#'}, |host|);
    assert a[|host|..] == "/" + path;
    SlashPath(path);
  }

  lemma SlashPath(path: string)
    requires forall c :: c in path ==> c !in {'?', '#'}
    ensures PathSegments("/" + path) == Parsed(Split(path, '/'))
  {
    var tail := "/" + path;
    forall j | 0 <= j < |tail| ensures tail[j] !in {'?', '#'} {
      if j > 0 { assert tail[j] == path[j - 1]; assert path[j - 1] in path; }
    }
    IndexOfAnyIs(tail, {'?', '#'}, |tail|);
    assert tail[..|tail|][1..] == path;
  }

  /** A path of two `/`-free pieces splits into those two pieces. */
  lemma SplitTwo(a: string, b: string)
    requires '/' !in a && '/' !in b
    ensures Split(a + "/" + b, '/') == [a, b]
  {
    var s := a + "/" + b;
    assert s[|a|] == '/';
    forall j | 0 <= j < |a| ensures s[j] !in {'/'} {
      assert s[j] == a[j];
      assert a[j] in a;
    }
    IndexOfAnyIs(s, {'/'}, |a|);
    assert s[..|a|] == a && s[|a| + 1..] == b;
    IndexOfAnyIs(b, {'/'}, |b|);
  }

  lemma GithubUrlParts(owner: string, repo: string, path: string, s: string)
    requires forall c :: c in owner ==> c !in {'/', '?', '#'}
    requires forall c :: c in repo ==> c !in {'/', '?', '#'}
    requires path == owner + "/" + repo
    requires s == "https" + "://" + "github.com" + "/" + path
    ensures ParseUrl(s) == Parsed([owner, repo])
  {
    HierarchicalUrl("https", "github.com", path);
    SplitTwo(owner, repo);
  }

  /** The URL of a GitHub repository yields its owner and repository segments. */
  lemma GithubUrl(owner: string, repo: string)
    requires forall c :: c in owner ==> c !in {'/', '?', '#'}
    requires forall c :: c in repo ==> c !in {'/', '?', '#'}
    ensures ParseUrl("https://github.com/" + owner + "/" + repo) == Parsed([owner, repo])
  {
    var path := owner + "/" + repo;
    var s := "https://github.com/" + owner + "/" + repo;
    assert s == "https" + "://" + "github.com" + "/" + path;
    GithubUrlParts(owner, repo, path, s);
  }
}
