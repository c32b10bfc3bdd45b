/** Error codes and fallible results as they cross the boundary of the Tilt Five
    client library. Every library call in the model is an oracle producing values
    of these types. */
module Outcomes {

  /** The library error codes the diagnostic program distinguishes; every other
      code is carried as `Other`. */
  datatype Error =
    | NoService       // kNoService: the Tilt Five service is not (yet) reachable
    | SettingUnknown  // kSettingUnknown: a user setting has never been set
    | NotConnected    // kNotConnected: the glasses are not reserved for exclusive use
    | Other(code: int)

  /** `tiltfive::Result<T>`: a value or an error. `Result<()>` stands for `Result<void>`. */
  datatype Result<+T> = Ok(value: T) | Err(error: Error)

  datatype Option<+T> = None | Some(value: T)

  /** The `std::error_code` carried by a result: `Clear` is the zero (success) code. */
  datatype Status = Clear | Raised(error: Error)

  function StatusOf<T>(r: Result<T>): (s: Status)
    ensures s.Clear? <==> r.Ok?
    ensures r.Err? ==> s == Raised(r.error)
  {
    match r
    case Ok(_) => Clear
    case Err(e) => Raised(e)
  }
}
