/** The `__main__` flow: pick the mode from the two flags, then build the
    mapping; neither or both flags stops the program before any parsing. */
module Cli {
  import opened Results
  import opened InputFile

  /** `-dw` downloads the runs, `-rename` renames downloaded files. */
  datatype Mode = Download | Rename

  datatype RunError =
    | NoModeSelected               // neither or both of -dw / -rename
    | BadInputFile(cause: ParseError)

  /** What the program goes on to do: the mode and the built settings. */
  datatype Job = Job(mode: Mode, settings: Settings)

  /** The mode the flags select, if they select exactly one. */
  function SelectMode(rename: bool, dw: bool): (m: Option<Mode>)
    ensures m.Some? <==> rename != dw
    ensures m == Some(Download) <==> dw && !rename
    ensures m == Some(Rename) <==> rename && !dw
  {
    if !rename && !dw then None
    else if rename && dw then None
    else if dw then Some(Download)
    else Some(Rename)
  }

  /** The main flow up to the call of the selected mode's operation. */
  function Run(rename: bool, dw: bool, ini: IniFile, defaults: Defaults): (r: Result<Job, RunError>)
    ensures rename == dw ==> r == Err(NoModeSelected)
    ensures rename != dw ==> (r.Ok? <==> ParseInputFile(ini, defaults).Ok?)
    ensures rename != dw && r.Err? ==> r == Err(BadInputFile(ParseInputFile(ini, defaults).error))
    ensures r.Ok? ==> r.value == Job(if dw then Download else Rename, ParseInputFile(ini, defaults).value)
  {
    match SelectMode(rename, dw)
    case None => Err(NoModeSelected)
    case Some(mode) =>
      match ParseInputFile(ini, defaults)
      case Err(e) => Err(BadInputFile(e))
      case Ok(settings) => Ok(Job(mode, settings))
  }
}
