/** What the commands share: the `--hosting` and `--name` filters that
    `update` and `status` apply with `Vec::retain`, and the choice of
    output format that `list` and `search` make. */
module Selection {
  import opened Common
  import opened Schema

  /** A project passes the hosting filter and the name filter (an absent
      filter passes everything). */
  predicate Selected(hosting: Option<string>, name: Option<string>, p: Project) {
    (hosting.None? || p.hosting == hosting.value) && (name.None? || p.name == name.value)
  }

  /** Retain by hosting, then by name: the projects that pass both filters,
      in registry order. */
  method SelectProjects(ps: seq<Project>, hosting: Option<string>, name: Option<string>)
    returns (selected: seq<Project>)
    ensures selected == Filter(ps, p => Selected(hosting, name, p))
  {
    var onHosting := (p: Project) => hosting.None? || p.hosting == hosting.value;
    var named := (p: Project) => name.None? || p.name == name.value;
    selected := ps;
    if hosting.Some? {
      selected := Filter(selected, (p: Project) => p.hosting == hosting.value);
      FilterEquivalent(ps, (p: Project) => p.hosting == hosting.value, onHosting);
    } else {
      FilterAll(ps, onHosting);
    }
    assert selected == Filter(ps, onHosting);
    if name.Some? {
      selected := Filter(selected, (p: Project) => p.name == name.value);
      FilterEquivalent(Filter(ps, onHosting), (p: Project) => p.name == name.value, named);
    } else {
      FilterAll(selected, named);
    }
    FilterFilter(ps, onHosting, named, p => Selected(hosting, name, p));
  }

  /** A project is selected exactly when it is registered and passes both filters. */
  lemma SelectedMembership(ps: seq<Project>, hosting: Option<string>, name: Option<string>, p: Project)
    ensures p in Filter(ps, q => Selected(hosting, name, q)) <==> p in ps && Selected(hosting, name, p)
  {
    FilterMembership(ps, q => Selected(hosting, name, q), p);
  }

  /** In a registry with unique names, `--name` selects at most one project. */
  lemma {:induction false} NameSelectsAtMostOne(ps: seq<Project>, hosting: Option<string>, n: string)
    requires UniqueNames(ps)
    ensures |Filter(ps, p => Selected(hosting, Some(n), p))| <= 1
  {
    var keep := (p: Project) => Selected(hosting, Some(n), p);
    if ps != [] {
      var rest := Filter(ps[1..], keep);
      assert UniqueNames(ps[1..]) by {
        forall i, j | 0 <= i < j < |ps[1..]| ensures ps[1..][i].name != ps[1..][j].name {
          assert ps[1..][i] == ps[i + 1] && ps[1..][j] == ps[j + 1];
        }
      }
      NameSelectsAtMostOne(ps[1..], hosting, n);
      if keep(ps[0]) {
        // The tail holds no second project named n, so nothing of it is kept.
        assert forall j :: 0 <= j < |ps[1..]| ==> ps[1..][j].name != ps[0].name;
        if rest != [] {
          FilterMembership(ps[1..], keep, rest[0]);
        }
      }
    }
  }

  /** `--output` if given, otherwise the registry's default format. */
  function OutputFormatFor(requested: Option<OutputFormat>, settings: Settings): (f: OutputFormat)
    ensures requested.Some? ==> f == requested.value
    ensures requested.None? ==> f == settings.defaultOutputFormat
  {
    if requested.Some? then requested.value else settings.defaultOutputFormat
  }
}
