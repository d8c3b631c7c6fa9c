/** Failure-carrying results shared by every module of the model. */
module Common {

  /** What `Array.prototype.find` returns: an element, or nothing. */
  datatype Option<+T> = None | Some(value: T)

  /** The errors the action raises with `throw new Error(...)`. */
  datatype Error =
    | InvalidVersion(version: string)         // parseVersion: no match of the SemVer regex
    | UnrecognizedPlatform(platform: string)  // getPlatform: unknown process.platform
    | NoGodotExecutable                       // run: nothing matched isGodotExecutable
    | NoGodotSharp                            // run: .NET build without a GodotSharp.dll

  /** A computed value, or the error that was thrown instead. */
  datatype Result<+T> = Ok(value: T) | Err(error: Error) {
    predicate IsFailure() { Err? }

    function PropagateFailure<U>(): Result<U>
      requires Err?
    {
      Err(error)
    }

    function Extract(): T
      requires Ok?
    {
      value
    }
  }
}
