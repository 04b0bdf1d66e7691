/** The error values of the tool (src/error.rs). Every operation returns a
    success value or one of these; the command layer prints the message. */
module Errors {

  /** Errors about the registry document and its location. */
  datatype ConfigError =
    | FileNotFound(path: string)
    | Invalid(detail: string)
    | DirectoryCreation(detail: string)
    | PathParsing(detail: string)

  /** Errors about registry entries and path computation. */
  datatype ProjectError =
    | NotFound(name: string)
    | AlreadyExists(name: string)
    | InvalidName(detail: string)
    | InvalidUrl(detail: string)
    | HostingNotFound(hosting: string)
    | PathComputation(detail: string)

  /** The top-level error: git, I/O and prompt errors carry the message of
      the library that raised them. */
  datatype PmError =
    | ConfigErr(config: ConfigError)
    | ProjectErr(project: ProjectError)
    | GitErr(message: string)
    | IoErr(message: string)
    | DialogErr(message: string)

  datatype Result<+T> = Ok(value: T) | Err(error: PmError)
}
