/** Side effects on the filesystem and on the persisted registry, recorded in
    the order they are issued. Whether an issued operation fails is an input
    (a `Step`), since it depends on the disk, the network and the remote. */
module Effects {
  import opened Errors

  datatype Effect =
    | CreateDirAll(path: string)         // std::fs::create_dir_all
    | CloneInto(url: string, path: string) // git clone of url into path
    | RemoveDirAll(path: string)         // std::fs::remove_dir_all
    | SaveConfig                         // Config::save of the whole registry

  /** The outcome of one external operation. */
  datatype Step = Succeeds | FailsWith(error: PmError)
}
