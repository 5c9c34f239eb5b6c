# Detekt detector core in Dafny

This project models the core of Detekt's `detector.py`. Detekt is a live-memory malware triage tool for Windows. It loads the winpmem acquisition driver as a service and scans physical memory with Yara signatures through Volatility. It posts detections and error codes on two queues, then unloads the driver.

Two parts of the file are modelled:

- **`scan`** (module `Scanner`, `scanner.dfy`). It resolves the signature file: `signatures.yar` in the working directory comes first, and the packaged `rules/signatures.yar` is the fallback. If neither exists it raises `DetectorError`. Otherwise it makes one pass over the signature engine's match stream. It drops records with no object, records not in an `_EPROCESS`, and records in the detector's own process. It keeps only the first record of each rule and posts `{rule, detection, description, pid, ppid}` for it. It returns whether anything matched. The method `Scan` is proved against the function `Report`. `Report` is proved equal to an independent description: the first eligible record of each rule, in stream order (`FirstOccurrences`).
- **`main`** (module `Detector`, `detector.dfy`, method `Run`). This is the gated sequence: profile check, driver check, service create and start, scan, then stop and delete. The service is a class (`Lifecycle.Service`, `lifecycle.dfy`) with a lifecycle state and a ghost trace of the calls made on it, used only in contracts.

Outside inputs are parameters:

- the configuration object's answers (`Config`);
- whether each service call succeeds (`ServiceOutcomes`);
- the signature engine's output, the detector's own pid, and which signature files exist (`ScanInputs`).

The two queues are modelled as the sequences of messages a run posts. Error codes are the enumeration `ErrorMessage`: `UnsupportedWindows`, `NoDriver`, `ServiceNoStart`, `ScanFailed` (the source's `UNSUPPORTED_WINDOWS`, `NO_DRIVER`, `SERVICE_NO_START`, `SCAN_FAILED`).

Two consequences of the code's order worth stating:

- The signature file is looked up inside `scan`, which runs only after the service has started. A missing signature file therefore gives one `ScanFailed` error followed by the normal teardown. It does not stop the run before the service is touched, and the only error posted is `ScanFailed` (`SCAN_FAILED`).
- When `start` fails after `create` succeeded, the code posts `ServiceNoStart` and returns. It does not delete the registered service, and `Run` does not either.

## Model

| member | source | states |
|---|---|---|
| Scanner.ResolveSignatures | detector.py:55-60 | the working-directory `signatures.yar` is chosen whenever it exists; the packaged `rules/signatures.yar` is chosen only when the first is missing and it exists; `DetectorError` "Unable to find a valid Yara signatures file!" results exactly when neither exists |
| Scanner.FirstOccurrences | detector.py:68-80 | every position listed holds an eligible record (a process other than the detector's own) whose rule no earlier eligible record fired; the positions are strictly ascending |
| Scanner.FirstOccurrencesComplete | detector.py:68-80 | every first eligible record of a rule is listed among the first occurrences |
| Scanner.ReportedRules | detector.py:74-80 | after any prefix of the stream, a rule is in `matched` exactly when some eligible record of that prefix fired it; a self-pid hit does not mark its rule |
| Scanner.ReportIsFirstOccurrences | detector.py:68-100 | the posted entries, in order, are built from the first eligible record of each rule, in stream order, with pid and ppid from that record and detection/description from the rule's metadata |
| Scanner.ReportRulesDistinct | detector.py:77-100 | no two posted entries share a rule |
| Scanner.ReportExcludesOwnProcess | detector.py:69-84 | no posted entry has the detector's own pid, and every entry is built from an `_EPROCESS` record of the stream |
| Scanner.ReportNonEmptyIff | detector.py:103-108 | something is posted exactly when the stream holds a record in a process other than the detector's own; an empty stream posts nothing |
| Scanner.IneligibleRecordIgnored | detector.py:68-75 | removing a record with no object, a non-`_EPROCESS` object, or the detector's own pid from anywhere in the stream leaves the output unchanged |
| Scanner.Scan | detector.py:54-108 | raises `DetectorError` and posts nothing exactly when no signature file exists; otherwise posts `Report` of the stream; returns true exactly when it posted something, i.e. when some record lies in another process; posted rules are distinct and no entry has the own pid |
| Lifecycle.Service.constructor | detector.py:135 | a new service for the given driver and name is uncreated and has seen no calls |
| Lifecycle.Service.Create | detector.py:136 | reports whether registration succeeded; on success the service is created, on failure its state is unchanged; the call is appended to the ghost trace `calls` |
| Lifecycle.Service.Start | detector.py:137 | reports whether the start succeeded; on success the service is started, on failure it stays created; the call is appended to the ghost trace `calls` |
| Lifecycle.Service.Stop | detector.py:158 | reports whether the stop succeeded; on success the service is stopped, on failure it stays started; the call is appended to the ghost trace `calls` |
| Lifecycle.Service.Delete | detector.py:159 | reports whether the delete succeeded; on success the service is deleted, on failure it stays stopped; the call is appended to the ghost trace `calls` |
| Detector.Run | detector.py:110-165 | at most one error per run; a missing profile posts exactly `UnsupportedWindows` and a missing driver exactly `NoDriver`, both with no service call; a create or start failure posts exactly `ServiceNoStart`, runs no scan and no teardown; once started, the scan's results are posted, a scan failure posts exactly `ScanFailed`, and stop then delete follow in every case, with delete skipped after a failed stop and no teardown failure posted; stop is called exactly when the service started; posted rules are distinct and exclude the own pid |

## Left out

- Building the address space and configuring Volatility (`get_address_space`, detector.py:38-52). These are foreign library calls. The engine's match stream is an input sequence of records.
- Rendering the evidence hexdump and the warning log line (detector.py:86-92). The hexdump format belongs to a library not modelled here. The record's `address` and `value` are kept in the data but not used.
- Logger setup and all log lines (detector.py:22-36 and elsewhere). These are I/O only.
- The internals of `Config`, `Service` and `get_resource`, which are not part of this model. Their answers are parameters. The paths built with `os.path.join` become the two-valued `SignatureLocation`. The order of lifecycle calls is a precondition of the `Service` methods; `Run` is proved to respect it.
- Lifecycle.Service.constructor: the `Service(...)` constructor sits inside the same `try` as `create` and `start` and could in principle raise `DetectorError`; the model's constructor always succeeds.
- Thread safety of the two queues and the `__main__` block (detector.py:167-171). Concurrency and entry-point wiring are not modelled.
- Exceptions other than `DetectorError`. The code does not catch them, so they end the run; the model has no such failures. A failure inside the signature engine part-way through the stream is therefore not modelled.
