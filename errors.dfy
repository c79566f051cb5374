/** The installer's error type (src/error.rs). Errors of the libraries it
    wraps keep only what the model distinguishes. */
module Errors {
  import opened FileSystem

  datatype InstallerError =
    | TomlSer
    | TomlDe
    | Custom(message: string)
    | Io(op: IoOp)
    | Adoptium
    | MissingParameter
      /** Not an error value of the source: the process aborts, as on `unwrap`
          of a failure or `remove(0)` on an empty vector. */
    | Panic(message: string)
}
