/** What running one of the external tools (`sg_ses`, `lsscsi`) gives the parsers. */
module Process {

  /** The tool could not be started (`Popen` raised `OSError`), or it ran and printed
      these lines on its standard output and error, already decoded and split. */
  datatype ToolRun = LaunchFailed | Ran(stdout: seq<string>, stderr: seq<string>)

  /** Why a query raises instead of returning. */
  datatype Fault =
    | LaunchError        // `OSError` from `Popen` where the source does not catch it
    | ToolReportedError  // the `raise` reached on the first line of standard error
    | NoDevicePath       // `mobj.group(1)` on an inventory line without `/dev/sgN`
}
