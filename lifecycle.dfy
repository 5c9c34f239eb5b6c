/** The winpmem acquisition-driver service. Whether each OS-level call
    succeeds is not decided here: it is a parameter of the call. */
module Lifecycle {

  datatype ServiceState = Uncreated | Created | Started | Stopped | Deleted

  /** The lifecycle calls, in the order a caller made them. */
  datatype ServiceCall = CreateCall | StartCall | StopCall | DeleteCall

  class Service {
    const driver: string
    const name: string
    /** The last lifecycle point reached successfully; a failed call leaves it where it was. */
    var state: ServiceState
    /** Every lifecycle call made on this service, failed ones included (a trace kept for the proofs). */
    ghost var calls: seq<ServiceCall>

    constructor (driver: string, name: string)
      ensures this.driver == driver && this.name == name
      ensures state == Uncreated && calls == []
    {
      this.driver := driver;
      this.name := name;
      state := Uncreated;
      calls := [];
    }

    /** Registers the driver as a service; `ok` is false where it raises. */
    method Create(succeeds: bool) returns (ok: bool)
      requires state == Uncreated
      modifies this
      ensures ok == succeeds
      ensures state == (if succeeds then Created else Uncreated)
      ensures calls == old(calls) + [CreateCall]
    {
      ok := succeeds;
      if ok {
        state := Created;
      }
      calls := calls + [CreateCall];
    }

    /** Starts the registered service; `ok` is false where it raises. */
    method Start(succeeds: bool) returns (ok: bool)
      requires state == Created
      modifies this
      ensures ok == succeeds
      ensures state == (if succeeds then Started else Created)
      ensures calls == old(calls) + [StartCall]
    {
      ok := succeeds;
      if ok {
        state := Started;
      }
      calls := calls + [StartCall];
    }

    /** Stops the running service; `ok` is false where it raises. */
    method Stop(succeeds: bool) returns (ok: bool)
      requires state == Started
      modifies this
      ensures ok == succeeds
      ensures state == (if succeeds then Stopped else Started)
      ensures calls == old(calls) + [StopCall]
    {
      ok := succeeds;
      if ok {
        state := Stopped;
      }
      calls := calls + [StopCall];
    }

    /** Removes the stopped service's registration; `ok` is false where it raises. */
    method Delete(succeeds: bool) returns (ok: bool)
      requires state == Stopped
      modifies this
      ensures ok == succeeds
      ensures state == (if succeeds then Deleted else Stopped)
      ensures calls == old(calls) + [DeleteCall]
    {
      ok := succeeds;
      if ok {
        state := Deleted;
      }
      calls := calls + [DeleteCall];
    }
  }
}
