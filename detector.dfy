/** `main`: the gated run of the detector. Profile check, driver check,
    service create and start, scan, then best-effort stop and delete. */
module Detector {
  import opened Wrappers
  import opened Messages
  import opened Lifecycle
  import opened Scanner

  /** What the configuration object yields: the Volatility profile name
      (`None` on an unsupported Windows), the answer of the driver lookup
      (`None` or empty where the lookup reports no winpmem driver, otherwise
      the driver path) and the service name. The device path handed to the
      scan only feeds the address-space construction, which is not modelled. */
  datatype Config = Config(profile: Option<string>, driver: Option<string>, serviceName: string)

  /** Whether each lifecycle call on the service succeeds. */
  datatype ServiceOutcomes = ServiceOutcomes(createSucceeds: bool, startSucceeds: bool, stopSucceeds: bool, deleteSucceeds: bool)

  /** What the scan sees: the signature engine's match stream over the
      memory image, the detector's own pid, and which signature files exist. */
  datatype ScanInputs = ScanInputs(records: seq<MatchRecord>, ownPid: int, files: SignatureFiles)

  /** Both configuration gates pass. */
  predicate Configured(cfg: Config)
  {
    Truthy(cfg.profile) && Truthy(cfg.driver)
  }

  /** The run reaches a started service. */
  predicate ServiceRuns(cfg: Config, outcomes: ServiceOutcomes)
  {
    Configured(cfg) && outcomes.createSucceeds && outcomes.startSucceeds
  }

  /** One run of the detector. `errors` and `results` are what it posts on
      the error and results queues; the ghost outputs `calls` (the lifecycle
      calls made on the service) and `finalState` (where the service is left)
      are there for the contract only. */
  method Run(cfg: Config, outcomes: ServiceOutcomes, inputs: ScanInputs)
    returns (errors: seq<ErrorMessage>, results: seq<ScanMatch>, ghost calls: seq<ServiceCall>, ghost finalState: ServiceState)
    // At most one error per run.
    ensures |errors| <= 1
    // Gate 1: an unsupported Windows touches no service.
    ensures !Truthy(cfg.profile) ==>
      errors == [UnsupportedWindows] && results == [] && calls == [] && finalState == Uncreated
    // Gate 2: no driver, no service.
    ensures Truthy(cfg.profile) && !Truthy(cfg.driver) ==>
      errors == [NoDriver] && results == [] && calls == [] && finalState == Uncreated
    // A create or start failure: one error, no scan, no teardown (not even a delete after a good create).
    ensures Configured(cfg) && !outcomes.createSucceeds ==>
      errors == [ServiceNoStart] && results == [] && calls == [CreateCall] && finalState == Uncreated
    ensures Configured(cfg) && outcomes.createSucceeds && !outcomes.startSucceeds ==>
      errors == [ServiceNoStart] && results == [] && calls == [CreateCall, StartCall] && finalState == Created
    // Once started: the scan runs, a scan failure posts one error, and teardown follows either way.
    ensures ServiceRuns(cfg, outcomes) ==>
      var scanFails := !inputs.files.inWorkingDirectory && !inputs.files.inPackagedResources;
      errors == (if scanFails then [ScanFailed] else []) &&
      results == (if scanFails then [] else Report(inputs.records, inputs.ownPid))
    // Stop then delete, in one attempt; delete is skipped when stop fails, and neither failure is posted.
    ensures ServiceRuns(cfg, outcomes) ==>
      calls == [CreateCall, StartCall, StopCall] + (if outcomes.stopSucceeds then [DeleteCall] else [])
    ensures ServiceRuns(cfg, outcomes) ==>
      finalState == (if !outcomes.stopSucceeds then Started else if !outcomes.deleteSucceeds then Stopped else Deleted)
    // Teardown happens exactly when the service started.
    ensures StopCall in calls <==> ServiceRuns(cfg, outcomes)
    // The results posted keep the scan's invariants.
    ensures forall i, j :: 0 <= i < j < |results| ==> results[i].rule != results[j].rule
    ensures forall m :: m in results ==> m.pid != inputs.ownPid
  {
    errors, results, calls, finalState := [], [], [], Uncreated;

    if !Truthy(cfg.profile) {
      errors := errors + [UnsupportedWindows];
      return;
    }

    if !Truthy(cfg.driver) {
      errors := errors + [NoDriver];
      return;
    }

    var service := new Service(cfg.driver.value, cfg.serviceName);
    var ok := service.Create(outcomes.createSucceeds);
    if ok {
      ok := service.Start(outcomes.startSucceeds);
    }
    if !ok {
      errors := errors + [ServiceNoStart];
      calls, finalState := service.calls, service.state;
      return;
    }

    var scanned, pushed := Scan(inputs.records, inputs.ownPid, inputs.files);
    results := results + pushed;
    if scanned.Failure? {
      errors := errors + [ScanFailed];
    }

    ok := service.Stop(outcomes.stopSucceeds);
    if ok {
      ok := service.Delete(outcomes.deleteSucceeds);
    }
    calls, finalState := service.calls, service.state;
  }
}
