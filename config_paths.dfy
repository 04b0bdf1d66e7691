/** Location of the registry document (src/config/paths.rs). The process
    environment is an input: `xdg` is `XDG_CONFIG_HOME` when it is set to a
    valid Unicode value, `home` is the user's home directory if one is known,
    and `tilde` is `shellexpand::tilde`. */
module ConfigPaths {
  import opened Common
  import opened Errors
  import opened StdPath

  /** `get_config_dir`: `$XDG_CONFIG_HOME/pm`, else `$HOME/.config/pm`. */
  function ConfigDir(xdg: Option<string>, home: Option<string>): (r: Result<string>)
    ensures xdg.Some? ==> r == Ok(Join(xdg.value, "pm"))
    ensures xdg.None? && home.Some? ==> r == Ok(Join(Join(home.value, ".config"), "pm"))
    ensures xdg.None? && home.None? ==> r.Err? && r.error.ConfigErr? && r.error.config.PathParsing?
  {
    var base :=
      if xdg.Some? then Ok(xdg.value)
      else if home.Some? then Ok(Join(home.value, ".config"))
      else Err(ConfigErr(PathParsing("Could not determine home directory")));
    if base.Err? then Err(base.error) else Ok(Join(base.value, "pm"))
  }

  /** `get_config_file_path`: `projects.toml` inside the config directory. */
  function ConfigFilePath(xdg: Option<string>, home: Option<string>): (r: Result<string>)
    ensures r.Ok? <==> ConfigDir(xdg, home).Ok?
    ensures r.Ok? ==> r.value == ConfigDir(xdg, home).value + "/projects.toml"
    ensures r.Err? ==> r.error == ConfigDir(xdg, home).error
  {
    var dir := ConfigDir(xdg, home);
    if dir.Err? then Err(dir.error)
    else
      JoinPmIsDirectory(if xdg.Some? then xdg.value else Join(home.value, ".config"));
      Ok(Join(dir.value, "projects.toml"))
  }

  /** Whatever the base, `base.join("pm")` ends in the name `pm`, so joining a
      relative name onto it adds a separator. */
  lemma JoinPmIsDirectory(base: string)
    ensures Join(Join(base, "pm"), "projects.toml") == Join(base, "pm") + "/projects.toml"
  {
    var dir := Join(base, "pm");
    assert |dir| > 0 && dir[|dir| - 1] == 'm';
  }

  /** `expand_path`: tilde expansion, which never fails. */
  function ExpandPath(path: string, tilde: string -> string): (r: Result<string>)
    ensures r.Ok? && r.value == tilde(path)
  {
    Ok(tilde(path))
  }

  /** With `XDG_CONFIG_HOME=/x` the document is `/x/pm/projects.toml`, whatever the home. */
  lemma XdgExample(home: Option<string>)
    ensures ConfigFilePath(Some("/x"), home) == Ok("/x/pm/projects.toml")
  {
    assert Join("/x", "pm") == "/x/pm";
    assert ConfigDir(Some("/x"), home) == Ok("/x/pm");
    assert "/x/pm" + "/projects.toml" == "/x/pm/projects.toml";
  }

  /** Without `XDG_CONFIG_HOME` the document is under `~/.config/pm`. */
  lemma HomeExample()
    ensures ConfigFilePath(None, Some("/home/u")) == Ok("/home/u/.config/pm/projects.toml")
  {
    assert Join("/home/u", ".config") == "/home/u/.config";
    assert Join("/home/u/.config", "pm") == "/home/u/.config/pm";
    assert "/home/u/.config/pm" + "/projects.toml" == "/home/u/.config/pm/projects.toml";
  }
}
