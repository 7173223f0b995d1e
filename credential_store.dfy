/** The credential-store resource: the lookup of the addressed store name, the
    configuration the add handler hands to the service it installs, the gate
    every runtime handler passes through, and the reload operation. */
module CredentialStores {
  import opened Common
  import opened Addresses

  const CREDENTIAL_STORE: string := "credential-store"
  const DEFAULT_RELATIVE_TO: string := "jboss.server.data.dir"
  const RELOAD: string := "reload"
  const LOAD: string := "load"

  /** The store name the operation addresses, if its address names one. */
  function AddressedName(op: Operation): Option<string>
  {
    LastValue(op.address, CREDENTIAL_STORE)
  }

  /** `credentialStoreName()`: the value of the last address element, from
      index 1 on, whose key is "credential-store"; a missing-key error when
      there is none. */
  method CredentialStoreName(op: Operation) returns (r: Result<string, Error>)
    ensures r.Err? <==> forall j :: 1 <= j < |op.address| ==> op.address[j].key != CREDENTIAL_STORE
    ensures r.Err? ==> r.error == AddressMissingKey(CREDENTIAL_STORE)
    ensures r.Ok? ==> exists i :: IsLastMatch(op.address, CREDENTIAL_STORE, i) && r.value == op.address[i].value
    ensures r.Ok? <==> AddressedName(op).Some?
    ensures r.Ok? ==> r.value == AddressedName(op).value
  {
    r := FindLastValue(op.address, CREDENTIAL_STORE);
  }

  /** The configuration attributes of a credential-store resource, each
      possibly undefined. */
  datatype StoreConfig = StoreConfig(
    uri: Option<string>,
    storeType: Option<string>,
    provider: Option<string>,
    providerLoader: Option<string>,
    relativeTo: Option<string>)

  /** The services the installed credential-store service depends on, as far
      as the add handler chooses them. */
  datatype Dependency =
    | PathManagerDependency
    | PathDependency(pathName: string)
    | ProvidersDependency(providerLoader: string)

  /** What the add handler installs: the parameters of the new service and
      its dependencies. */
  datatype Installation = Installation(
    name: string,
    uri: Option<string>,
    storeType: Option<string>,
    provider: Option<string>,
    relativeTo: string,
    dependencies: seq<Dependency>)

  /** The `relativeTo` the service is created with: the configured one, else
      the server data directory. */
  function ServiceRelativeTo(config: StoreConfig): (relativeTo: string)
    ensures config.relativeTo.Some? ==> relativeTo == config.relativeTo.value
    ensures config.relativeTo.None? ==> relativeTo == DEFAULT_RELATIVE_TO
  {
    match config.relativeTo
    case Some(r) => r
    case None => DEFAULT_RELATIVE_TO
  }

  /** `CredentialStoreAddHandler.performRuntime`: names the service after the
      addressed store, defaults `relativeTo`, creates the service (failing
      with the creation fault, `creationFault`), and installs it. Since
      `relativeTo` is never undefined by then, the path manager and the named
      path are always dependencies; the provider loader is one exactly when
      configured. */
  method AddRuntime(op: Operation, config: StoreConfig, creationFault: Option<string>)
    returns (r: Result<Installation, Error>)
    ensures AddressedName(op).None? ==> r == Err(AddressMissingKey(CREDENTIAL_STORE))
    ensures AddressedName(op).Some? && creationFault.Some? ==>
              r == Err(OperationFailed(CredentialStoreFault(creationFault.value)))
    ensures r.Ok? <==> AddressedName(op).Some? && creationFault.None?
    ensures r.Ok? ==>
              var inst := r.value;
              && inst.name == AddressedName(op).value
              && inst.uri == config.uri && inst.storeType == config.storeType && inst.provider == config.provider
              && inst.relativeTo == ServiceRelativeTo(config)
              && PathManagerDependency in inst.dependencies
              && PathDependency(ServiceRelativeTo(config)) in inst.dependencies
              && (forall loader :: ProvidersDependency(loader) in inst.dependencies <==> config.providerLoader == Some(loader))
              && (forall d :: d in inst.dependencies && d.PathDependency? ==> d.pathName == ServiceRelativeTo(config))
  {
    var name :- CredentialStoreName(op);
    var relativeTo := ServiceRelativeTo(config);
    if creationFault.Some? {
      return Err(OperationFailed(CredentialStoreFault(creationFault.value)));
    }
    var dependencies: seq<Dependency> := [PathManagerDependency, PathDependency(relativeTo)];
    if config.providerLoader.Some? {
      dependencies := dependencies + [ProvidersDependency(config.providerLoader.value)];
    }
    r := Ok(Installation(name, config.uri, config.storeType, config.provider, relativeTo, dependencies));
  }

  /** The two settings of a runtime handler. */
  datatype RuntimeHandler = RuntimeHandler(serviceMustBeUp: bool, writeAccess: bool)

  /** The one-argument handler constructor: read access to the registry. */
  function ReadOnlyHandler(serviceMustBeUp: bool): (h: RuntimeHandler)
    ensures h.serviceMustBeUp == serviceMustBeUp && !h.writeAccess
  {
    RuntimeHandler(serviceMustBeUp, false)
  }

  /** The reload handler needs the service up and writes to the registry. */
  const ReloadHandler: RuntimeHandler := RuntimeHandler(true, true)

  datatype GateDecision = Proceed | Skip | Refuse(error: Error)

  /** `executeRuntimeStep` before it calls the handler: a service that is up
      lets the handler run; otherwise a handler that needs it up fails with
      the state it found, and any other handler does nothing. */
  function Gate(handler: RuntimeHandler, state: ServiceState): (g: GateDecision)
    ensures g == Proceed <==> state == Up
    ensures g == Skip <==> state != Up && !handler.serviceMustBeUp
    ensures g.Refuse? <==> state != Up && handler.serviceMustBeUp
    ensures g.Refuse? ==> g.error == RequiredServiceNotUp(state)
  {
    if state != Up then
      if handler.serviceMustBeUp then Refuse(RequiredServiceNotUp(state)) else Skip
    else Proceed
  }

  datatype OperationChoice = RestartService | Reject(error: Error)

  /** The operation-name switch of the reload handler as written: only
      "reload" is accepted, but the error for any other name gives "load" as
      the expected name. */
  function DispatchAsWritten(name: string): (d: OperationChoice)
    ensures d == RestartService <==> name == RELOAD
    ensures d.Reject? ==> d.error == InvalidOperationName(name, LOAD)
  {
    if name == RELOAD then RestartService else Reject(InvalidOperationName(name, LOAD))
  }

  /** Following the as-written error, that is retrying with the name it
      expects, is rejected again: for instance "load" is rejected with an
      error that expects "load". */
  lemma AsWrittenAdviceRejected(name: string)
    requires name != RELOAD
    ensures DispatchAsWritten(DispatchAsWritten(name).error.expected).Reject?
    ensures DispatchAsWritten(LOAD) == Reject(InvalidOperationName(LOAD, LOAD))
  {
    assert LOAD != RELOAD by { assert LOAD[0] != RELOAD[0]; }
  }

  /** The switch with the error naming the operation the handler accepts. */
  function DispatchOperation(name: string): (d: OperationChoice)
    ensures d == RestartService <==> name == RELOAD
    ensures d.Reject? ==> d.error == InvalidOperationName(name, RELOAD)
  {
    if name == RELOAD then RestartService else Reject(InvalidOperationName(name, RELOAD))
  }

  /** With the corrected switch, the name an error expects is always accepted,
      and the two switches differ only in that name. */
  lemma DispatchAdviceAccepted(name: string)
    ensures DispatchOperation(name).Reject? ==> DispatchOperation(DispatchOperation(name).error.expected) == RestartService
    ensures DispatchOperation(name).Reject? <==> DispatchAsWritten(name).Reject?
    ensures DispatchOperation(name).Reject? ==> DispatchOperation(name).error.name == DispatchAsWritten(name).error.name
  {
  }

  datatype Lifecycle = Stopped | Started | FailedToStart(detail: string)

  /** The credential-store service, as far as reload drives it: whether it
      runs and the lifecycle steps it has gone through. Its own start and stop
      logic is not part of this model; a start either succeeds or fails with a
      given fault. */
  class CredentialStoreService {
    var running: bool
    var history: seq<Lifecycle>

    constructor ()
      ensures !running && history == []
    {
      running := false;
      history := [];
    }

    method Stop()
      modifies this
      ensures !running && history == old(history) + [Stopped]
    {
      running := false;
      history := history + [Stopped];
    }

    method Start(fault: Option<string>) returns (r: Option<Error>)
      modifies this
      ensures fault.None? ==> r.None? && running && history == old(history) + [Started]
      ensures fault.Some? ==>
                && r == Some(StartException(fault.value)) && !running
                && history == old(history) + [FailedToStart(fault.value)]
    {
      if fault.Some? {
        running := false;
        history := history + [FailedToStart(fault.value)];
        return Some(StartException(fault.value));
      }
      running := true;
      history := history + [Started];
      r := None;
    }
  }

  /** `CredentialStoreHandler.performRuntime`, as written: a reload stops the
      service and starts it again, a failing start failing the operation; any
      other operation name is rejected, with the error naming "load" as the
      expected operation, and the service is left alone. */
  method PerformRuntime(op: Operation, service: CredentialStoreService, startFault: Option<string>)
    returns (r: Result<(), Error>)
    modifies service
    ensures op.name != RELOAD ==>
              r == Err(InvalidOperationName(op.name, LOAD)) && unchanged(service)
    ensures op.name == RELOAD && startFault.None? ==>
              r == Ok(()) && service.running && service.history == old(service.history) + [Stopped, Started]
    ensures op.name == RELOAD && startFault.Some? ==>
              && r == Err(OperationFailed(StartException(startFault.value))) && !service.running
              && service.history == old(service.history) + [Stopped, FailedToStart(startFault.value)]
  {
    match DispatchAsWritten(op.name)
    case Reject(e) =>
      return Err(e);
    case RestartService =>
      service.Stop();
      var failure := service.Start(startFault);
      if failure.Some? {
        return Err(OperationFailed(failure.value));
      }
      r := Ok(());
  }

  /** The reload operation end to end: the gate of `ReloadHandler` on the
      state of the service controller, then `PerformRuntime`. A service that
      is not up fails the operation and is not touched. */
  method ExecuteReload(op: Operation, state: ServiceState, service: CredentialStoreService, startFault: Option<string>)
    returns (r: Result<(), Error>)
    modifies service
    ensures state != Up ==> r == Err(RequiredServiceNotUp(state)) && unchanged(service)
    ensures state == Up && op.name != RELOAD ==> r == Err(InvalidOperationName(op.name, LOAD)) && unchanged(service)
    ensures state == Up && op.name == RELOAD ==>
              && (r.Ok? <==> startFault.None?)
              && service.running == startFault.None?
              && service.history ==
                   old(service.history) + [Stopped, if startFault.None? then Started else FailedToStart(startFault.value)]
  {
    match Gate(ReloadHandler, state)
    case Refuse(e) =>
      return Err(e);
    case Skip =>
      assert false;
    case Proceed =>
      r := PerformRuntime(op, service, startFault);
  }
}
