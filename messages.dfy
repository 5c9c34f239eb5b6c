/** The messages the detector posts on its two queues, and the one exception it catches. */
module Messages {
  import opened Wrappers

  /** The error codes posted on the error queue. */
  datatype ErrorMessage = UnsupportedWindows | NoDriver | ServiceNoStart | ScanFailed

  /** One entry posted on the results queue: the dictionary with keys
      rule, detection, description, pid and ppid. */
  datatype ScanMatch = ScanMatch(
    rule: string,
    detection: Option<string>,
    description: Option<string>,
    pid: int,
    ppid: int)

  /** The detector's own exception; the only one the detector catches. */
  datatype DetectorError = DetectorError(message: string)
}
