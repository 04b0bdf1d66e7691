/** `pm delete` (src/commands/delete.rs): look the project up, ask for
    confirmation unless `--force`, remove it, save, and with
    `--delete-files` remove its directory if it exists. The answer to the
    prompt, the save, the existence test and the removal are inputs. */
module DeleteCommand {
  import opened Common
  import opened Errors
  import opened Effects
  import opened ConfigPaths
  import opened Schema
  import opened Cli

  /** The user's answer to "Delete project '<name>'?", or the prompt's failure. */
  datatype Prompt = Answered(yes: bool) | PromptFailed(message: string)

  /** The result, the registry's projects and the steps that took effect. */
  datatype DeleteOutcome = DeleteOutcome(result: Result<()>, projects: seq<Project>, effects: seq<Effect>)

  /** The directory `--delete-files` removes: the record's path, expanded. */
  function FilesPath(p: Project, tilde: string -> string): string {
    tilde(p.localPath)
  }

  /** `delete` on a registry. `--keep-files` plays no part. */
  function Deleted(ps: seq<Project>, a: DeleteArgs, prompt: Prompt, save: Step,
                   tilde: string -> string, pathExists: string -> bool, removeDir: Step): DeleteOutcome
  {
    match Position(ps, a.name)
    case None => DeleteOutcome(Err(ProjectErr(NotFound(a.name))), ps, [])
    case Some(i) =>
      if !a.force && prompt.PromptFailed? then DeleteOutcome(Err(DialogErr(prompt.message)), ps, [])
      else if !a.force && !prompt.yes then DeleteOutcome(Ok(()), ps, [])
      else
        var rest := RemoveAt(ps, i);
        if save.FailsWith? then DeleteOutcome(Err(save.error), rest, [])
        else if !a.deleteFiles || !pathExists(FilesPath(ps[i], tilde)) then DeleteOutcome(Ok(()), rest, [SaveConfig])
        else if removeDir.FailsWith? then DeleteOutcome(Err(removeDir.error), rest, [SaveConfig])
        else DeleteOutcome(Ok(()), rest, [SaveConfig, RemoveDirAll(FilesPath(ps[i], tilde))])
  }

  /** `delete`, step by step on the loaded registry. */
  method Delete(config: Config, args: DeleteArgs, prompt: Prompt, save: Step,
                tilde: string -> string, pathExists: string -> bool, removeDir: Step)
    returns (r: Result<()>, effects: seq<Effect>)
    modifies config`projects
    ensures DeleteOutcome(r, config.projects, effects)
            == Deleted(old(config.projects), args, prompt, save, tilde, pathExists, removeDir)
  {
    var project := config.FindProject(args.name);
    if project.None? {
      return Err(ProjectErr(NotFound(args.name))), [];
    }
    var confirmed: bool;
    if args.force {
      confirmed := true;
    } else {
      if prompt.PromptFailed? {
        return Err(DialogErr(prompt.message)), [];
      }
      confirmed := prompt.yes;
    }
    if !confirmed {
      return Ok(()), [];
    }
    var removed := config.RemoveProject(args.name);
    if removed.Err? {
      // The name was just found, so removing it cannot fail.
      assert false;
    }
    if save.FailsWith? {
      return Err(save.error), [];
    }
    effects := [SaveConfig];
    if args.deleteFiles {
      var path := ExpandPath(project.value.localPath, tilde).value;
      if pathExists(path) {
        if removeDir.FailsWith? {
          return Err(removeDir.error), effects;
        }
        effects := effects + [RemoveDirAll(path)];
      }
    }
    return Ok(()), effects;
  }

  /** Without `--force`, declining the prompt changes nothing. */
  lemma DeclinedChangesNothing(ps: seq<Project>, a: DeleteArgs, save: Step,
                               tilde: string -> string, pathExists: string -> bool, removeDir: Step)
    requires !a.force && Position(ps, a.name).Some?
    ensures Deleted(ps, a, Answered(false), save, tilde, pathExists, removeDir) == DeleteOutcome(Ok(()), ps, [])
  {
  }

  /** An unknown name is refused before any prompt or change. */
  lemma UnknownNameRefused(ps: seq<Project>, a: DeleteArgs, prompt: Prompt, save: Step,
                           tilde: string -> string, pathExists: string -> bool, removeDir: Step)
    requires forall k :: 0 <= k < |ps| ==> ps[k].name != a.name
    ensures Deleted(ps, a, prompt, save, tilde, pathExists, removeDir)
            == DeleteOutcome(Err(ProjectErr(NotFound(a.name))), ps, [])
  {
  }

  /** A confirmed delete of a registered name drops exactly that record:
      every other project is kept, in order, and with unique names the name
      is gone. */
  lemma ConfirmedDeleteRemovesRecord(ps: seq<Project>, a: DeleteArgs, prompt: Prompt, save: Step,
                                     tilde: string -> string, pathExists: string -> bool, removeDir: Step)
    requires Position(ps, a.name).Some?
    requires a.force || prompt == Answered(true)
    ensures var o := Deleted(ps, a, prompt, save, tilde, pathExists, removeDir);
            var i := Position(ps, a.name).value;
            |o.projects| == |ps| - 1 && o.projects == ps[..i] + ps[i + 1..] &&
            (forall k :: 0 <= k < |ps| && k != i ==> ps[k] in o.projects) &&
            (UniqueNames(ps) ==> forall k :: 0 <= k < |o.projects| ==> o.projects[k].name != a.name)
  {
    var i := Position(ps, a.name).value;
    var rest := RemoveAt(ps, i);
    forall k | 0 <= k < |ps| && k != i ensures ps[k] in rest {
      if k < i {
        assert rest[k] == ps[k];
      } else {
        assert rest[k - 1] == ps[k];
      }
    }
    if UniqueNames(ps) {
      RemoveUnique(ps, i);
    }
  }

  /** Files are removed only after the registry is saved, only with
      `--delete-files`, and only at the deleted record's expanded path when
      it exists. */
  lemma FilesRemovedOnlyWhenAsked(ps: seq<Project>, a: DeleteArgs, prompt: Prompt, save: Step,
                                  tilde: string -> string, pathExists: string -> bool, removeDir: Step, path: string)
    requires RemoveDirAll(path) in Deleted(ps, a, prompt, save, tilde, pathExists, removeDir).effects
    ensures Position(ps, a.name).Some? && a.deleteFiles
    ensures path == FilesPath(ps[Position(ps, a.name).value], tilde) && pathExists(path)
    ensures Deleted(ps, a, prompt, save, tilde, pathExists, removeDir).effects == [SaveConfig, RemoveDirAll(path)]
  {
  }

  /** `--keep-files` changes nothing: with or without it the outcome is the same. */
  lemma KeepFilesIsIgnored(ps: seq<Project>, a: DeleteArgs, prompt: Prompt, save: Step,
                           tilde: string -> string, pathExists: string -> bool, removeDir: Step)
    ensures Deleted(ps, a, prompt, save, tilde, pathExists, removeDir)
            == Deleted(ps, a.(keepFiles := !a.keepFiles), prompt, save, tilde, pathExists, removeDir)
  {
  }
}
