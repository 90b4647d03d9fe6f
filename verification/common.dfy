/** Values shared by every part of the iobandw model: Go's `error` (nil or
    not), step outcomes, the counters of the program-wide context record and
    the path functions of `path/filepath`, which the model takes as inputs. */
module Common {

  /** A Go error value. Only whether it is nil and which value it is matter. */
  type Error = string

  /** `None` plays the part of a nil error, or of an absent optional value. */
  datatype Option<+T> = None | Some(value: T)

  /** Outcome of one I/O step that yields nothing but an error. */
  datatype Status = Ok | Failed(err: Error)

  /** The counters of the `context` record that the copy mutates. */
  datatype Counters = Counters(estimatesize: nat, filecount: nat, filecopied: nat)

  /** `filepath.Dir`, `filepath.Base` and `filepath.Join`. Their results depend
      on the platform, so the model keeps them uninterpreted. */
  datatype PathOps = PathOps(dir: string -> string, base: string -> string, join: seq<string> -> string)
}
