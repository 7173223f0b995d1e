/** The service owning one key store: its lifecycle (start, stop), the
    resolution of its file through the path manager, and the load, revert and
    save operations that management handlers call while it is up. Files, the
    clock and the path manager's resolution are inputs of the model. */
module KeyStoreServices {
  import opened Common
  import opened KeyStoreBackend

  /** What a registered path callback is told: a change to a path resource
      (with whether restarting resource services is allowed), or a change to
      the path entry itself. */
  datatype PathEvent = ModelEvent(restartAllowed: bool) | EntryEvent(removed: bool)

  datatype Reaction = ReloadRequired | NoReaction

  /** The callback the service registers for its `relativeTo` path: a change
      to the path resource asks for a reload when the services of the resource
      may not be restarted; entry events are left to service dependencies. */
  function CallbackReaction(event: PathEvent): (r: Reaction)
    ensures r == ReloadRequired <==> event.ModelEvent? && !event.restartAllowed
    ensures event.EntryEvent? ==> r == NoReaction
  {
    match event
    case ModelEvent(restartAllowed) => if restartAllowed then NoReaction else ReloadRequired
    case EntryEvent(_) => NoReaction
  }

  /** The server's path manager: resolves a path against a named path and
      keeps the callbacks registered on named paths, by handle. */
  class PathManager {
    /** `resolveRelativePathEntry(path, relativeTo)`. */
    const resolve: (string, string) -> string
    var callbacks: map<nat, string>
    var nextHandle: nat

    ghost predicate Valid()
      reads this
    {
      forall h :: h in callbacks ==> h < nextHandle
    }

    constructor (resolve: (string, string) -> string)
      ensures Valid()
      ensures this.resolve == resolve && callbacks == map[]
    {
      this.resolve := resolve;
      callbacks := map[];
      nextHandle := 0;
    }

    /** Registers a callback on the path named `relativeTo` under a handle not
        in use. */
    method RegisterCallback(relativeTo: string) returns (handle: nat)
      requires Valid()
      modifies this
      ensures Valid()
      ensures handle !in old(callbacks)
      ensures callbacks == old(callbacks)[handle := relativeTo]
    {
      handle := nextHandle;
      callbacks := callbacks[handle := relativeTo];
      nextHandle := nextHandle + 1;
    }

    /** `Handle.remove`: unregisters the callback, if still registered. */
    method RemoveCallback(handle: nat)
      requires Valid()
      modifies this
      ensures Valid()
      ensures callbacks == old(callbacks) - {handle}
    {
      callbacks := callbacks - {handle};
    }
  }

  /** What the private `load(keyStore)` reads: nothing when the service has no
      file (a null stream, giving an empty store), otherwise the file at the
      resolved location, which must exist and open with the password. */
  function LoadFrom(location: Option<string>, disk: Disk, password: string): (r: Result<Entries, Error>)
    ensures location.None? ==> r == Ok(map[])
    ensures location.Some? && location.value !in disk ==> r == Err(FileNotFound(location.value))
    ensures location.Some? && location.value in disk ==> r == Parse(location.value, disk[location.value], password)
    ensures r.Ok? <==> location.None? || (location.value in disk && disk[location.value].Holding?
                                          && disk[location.value].password == password)
    ensures r.Ok? && location.Some? ==> disk[location.value] == Holding(r.value, password)
  {
    match location
    case None => Ok(map[])
    case Some(p) => if p in disk then Parse(p, disk[p], password) else Err(FileNotFound(p))
  }

  /** The key `load()` hands back: the store's revert key and the `synched`
      time from before the load. */
  datatype LoadKey = LoadKey(loadKey: StoreLoadKey, modifiedTime: int)

  /** How writing the store file goes: it completes, the file cannot be
      opened for writing, the store fails after the file was truncated, or the
      store completes and closing the file then fails. */
  datatype WriteOutcome = Completes | CannotOpen | FailsWhileWriting | FailsOnClose

  class KeyStoreService {
    const provider: Option<string>
    const storeType: string
    const password: string
    const relativeTo: Option<string>
    const path: Option<string>
    /** Stored but never consulted. */
    const required: bool
    /** Stored but never consulted. */
    const watch: bool
    /** The injected path manager; only used when `relativeTo` is set. */
    const pathManager: PathManager?

    var resolvedPath: Option<string>
    var callbackHandle: Option<nat>
    var synched: int
    var keyStore: AtomicLoadKeyStore?

    /** Where the store file is, once resolved: `path` against `relativeTo`
        through the path manager, or `path` itself. */
    ghost function Location(): Option<string>
      requires relativeTo.Some? ==> pathManager != null
    {
      if path.None? then None
      else if relativeTo.Some? then Some(pathManager.resolve(path.value, relativeTo.value))
      else Some(path.value)
    }

    ghost predicate Valid()
      reads this, pathManager
    {
      && (relativeTo.Some? ==> pathManager != null && pathManager.Valid())
      && (resolvedPath.Some? ==> resolvedPath == Location())
      && (callbackHandle.Some? ==> relativeTo.Some?)
    }

    /** `createFileLessKeyStoreService`: no path, no `relativeTo`, neither
        required nor watched; nothing resolved, no store yet. */
    constructor FileLess(provider: Option<string>, storeType: string, password: string)
      ensures Valid()
      ensures this.provider == provider && this.storeType == storeType && this.password == password
      ensures path.None? && relativeTo.None? && !required && !watch
      ensures resolvedPath.None? && callbackHandle.None? && synched == 0 && keyStore == null
    {
      this.provider := provider;
      this.storeType := storeType;
      this.password := password;
      relativeTo := None;
      path := None;
      required := false;
      watch := false;
      pathManager := null;
      resolvedPath := None;
      callbackHandle := None;
      synched := 0;
      keyStore := null;
    }

    /** `createFileBasedKeyStoreService`, with the path manager injected. */
    constructor FileBased(provider: Option<string>, storeType: string, password: string, relativeTo: Option<string>,
                          path: Option<string>, required: bool, watch: bool, pathManager: PathManager?)
      requires relativeTo.Some? ==> pathManager != null && pathManager.Valid()
      ensures Valid()
      ensures this.provider == provider && this.storeType == storeType && this.password == password
      ensures this.relativeTo == relativeTo && this.path == path && this.required == required && this.watch == watch
      ensures this.pathManager == pathManager
      ensures resolvedPath.None? && callbackHandle.None? && synched == 0 && keyStore == null
    {
      this.provider := provider;
      this.storeType := storeType;
      this.password := password;
      this.relativeTo := relativeTo;
      this.path := path;
      this.required := required;
      this.watch := watch;
      this.pathManager := pathManager;
      resolvedPath := None;
      callbackHandle := None;
      synched := 0;
      keyStore := null;
    }

    /** `getValue`: the store, null while the service is not started. */
    function Value(): (store: AtomicLoadKeyStore?)
      reads this
    {
      keyStore
    }

    /** `timeSynched`. */
    function TimeSynched(): int
      reads this
    {
      synched
    }

    /** `start`: creates a new store (failing when the store type or provider
        is unavailable), resolves the file when there is a path, stamps
        `synched` with the current time and loads. Only a load that succeeds
        makes the new store the service's value; a failed load leaves the
        earlier value, but the stamp and the resolution stay. A load that
        completes but whose file then fails to close (`closeFault`) fails the
        start as well. */
    method Start(now: int, disk: Disk, typeAvailable: bool, closeFault: bool) returns (r: Result<(), Error>)
      requires Valid()
      modifies this, pathManager
      ensures Valid()
      ensures !typeAvailable ==>
                && r == Err(UnableToInitialiseKeyStore(AlgorithmUnavailable))
                && unchanged(this) && (pathManager != null ==> unchanged(pathManager))
      ensures typeAvailable ==>
                && resolvedPath == (if path.Some? then Location() else old(resolvedPath))
                && synched == now
                && (path.Some? && relativeTo.Some? ==>
                      && callbackHandle.Some? && callbackHandle.value !in old(pathManager.callbacks)
                      && pathManager.callbacks == old(pathManager.callbacks)[callbackHandle.value := relativeTo.value])
                && (!(path.Some? && relativeTo.Some?) ==>
                      callbackHandle == old(callbackHandle) && (pathManager != null ==> unchanged(pathManager)))
                && match LoadFrom(resolvedPath, disk, password)
                   case Ok(entries) =>
                     if resolvedPath.Some? && closeFault then
                       r == Err(UnableToInitialiseKeyStore(CloseFailed(resolvedPath.value))) && keyStore == old(keyStore)
                     else
                       r == Ok(()) && keyStore != null && fresh(keyStore) && keyStore.entries == entries
                   case Err(e) => r == Err(UnableToInitialiseKeyStore(e)) && keyStore == old(keyStore)
    {
      if !typeAvailable {
        return Err(UnableToInitialiseKeyStore(AlgorithmUnavailable));
      }
      var store := new AtomicLoadKeyStore();
      if path.Some? {
        ResolveFileLocation();
      }
      synched := now;
      var loaded := LoadInto(store, disk, closeFault);
      if loaded.Err? {
        return Err(UnableToInitialiseKeyStore(loaded.error));
      }
      keyStore := store;
      r := Ok(());
    }

    /** `resolveFileLocation`: through the path manager, registering a
        callback on the `relativeTo` path, when `relativeTo` is set; otherwise
        the path as given. */
    method ResolveFileLocation()
      requires Valid() && path.Some?
      modifies this, pathManager
      ensures Valid()
      ensures resolvedPath == Location()
      ensures synched == old(synched) && keyStore == old(keyStore)
      ensures relativeTo.Some? ==>
                && callbackHandle.Some? && callbackHandle.value !in old(pathManager.callbacks)
                && pathManager.callbacks == old(pathManager.callbacks)[callbackHandle.value := relativeTo.value]
      ensures relativeTo.None? ==> callbackHandle == old(callbackHandle) && (pathManager != null ==> unchanged(pathManager))
    {
      if relativeTo.Some? {
        resolvedPath := Some(pathManager.resolve(path.value, relativeTo.value));
        var handle := pathManager.RegisterCallback(relativeTo.value);
        callbackHandle := Some(handle);
      } else {
        resolvedPath := Some(path.value);
      }
    }

    /** The private `load(keyStore)`: opens the resolved file (a null stream
        when there is none) and loads it revertably into `store`, then closes
        the file. A failing close (`closeFault`) after a completed load raises
        with the store already replaced and its revert key lost; after a
        failed load the load's own error is the one raised. */
    method LoadInto(store: AtomicLoadKeyStore, disk: Disk, closeFault: bool) returns (r: Result<StoreLoadKey, Error>)
      modifies store
      ensures match LoadFrom(resolvedPath, disk, password)
              case Ok(entries) =>
                && store.entries == entries
                && r == if resolvedPath.Some? && closeFault then Err(CloseFailed(resolvedPath.value))
                        else Ok(StoreLoadKey(old(store.entries)))
              case Err(e) => r == Err(e) && store.entries == old(store.entries)
    {
      if resolvedPath.None? {
        r := store.RevertableLoad("", None, password);
        return;
      }
      var location := resolvedPath.value;
      if location !in disk {
        return Err(FileNotFound(location));
      }
      r := store.RevertableLoad(location, Some(disk[location]), password);
      if r.Ok? && closeFault {
        r := Err(CloseFailed(location));
      }
    }

    /** `load()`: reloads the running store from its file. On success the
        key captures the contents and the `synched` time from before, and
        `synched` moves to now. A failed load changes nothing; a load that
        completes but whose file fails to close raises with the contents
        replaced and `synched` unchanged. */
    method Load(now: int, disk: Disk, closeFault: bool) returns (r: Result<LoadKey, Error>)
      requires keyStore != null
      modifies this, keyStore
      ensures keyStore == old(keyStore)
      ensures resolvedPath == old(resolvedPath) && callbackHandle == old(callbackHandle)
      ensures match LoadFrom(resolvedPath, disk, password)
              case Ok(entries) =>
                && keyStore.entries == entries
                && if resolvedPath.Some? && closeFault then
                     r == Err(UnableToCompleteOperation(CloseFailed(resolvedPath.value))) && synched == old(synched)
                   else
                     r == Ok(LoadKey(StoreLoadKey(old(keyStore.entries)), old(synched))) && synched == now
              case Err(e) =>
                && r == Err(UnableToCompleteOperation(e))
                && keyStore.entries == old(keyStore.entries) && synched == old(synched)
    {
      var loaded := LoadInto(keyStore, disk, closeFault);
      if loaded.Err? {
        return Err(UnableToCompleteOperation(loaded.error));
      }
      var originalSynced := synched;
      synched := now;
      r := Ok(LoadKey(loaded.value, originalSynced));
    }

    /** `revertLoad`: puts back the contents and the `synched` time that the
        key captured, so that it undoes a successful `Load`. */
    method RevertLoad(key: LoadKey)
      requires keyStore != null
      modifies this, keyStore
      ensures keyStore == old(keyStore)
      ensures keyStore.entries == key.loadKey.previous && synched == key.modifiedTime
      ensures resolvedPath == old(resolvedPath) && callbackHandle == old(callbackHandle)
    {
      keyStore.Revert(key.loadKey);
      synched := key.modifiedTime;
    }

    /** `save`: refuses when no file was resolved. Otherwise the file is opened
        for writing, which truncates it, and the store is written with the
        password; `synched` moves to now only when the write completes. A
        completed write loads back to the saved contents; a write that fails
        after opening leaves a file that no longer loads. A completed write
        whose file then fails to close raises although the file holds the
        store and `synched` has moved. */
    method Save(now: int, disk: Disk, outcome: WriteOutcome) returns (r: Result<(), Error>, written: Disk)
      requires keyStore != null
      modifies this
      ensures keyStore == old(keyStore) && resolvedPath == old(resolvedPath) && callbackHandle == old(callbackHandle)
      ensures resolvedPath.None? ==> r == Err(CantSaveWithoutFile) && written == disk && synched == old(synched)
      ensures resolvedPath.Some? ==>
                var p := resolvedPath.value;
                match outcome
                case Completes =>
                  r == Ok(()) && written == disk[p := Holding(keyStore.entries, password)] && synched == now
                case CannotOpen =>
                  r == Err(UnableToCompleteOperation(FileNotWritable(p))) && written == disk && synched == old(synched)
                case FailsWhileWriting =>
                  r == Err(UnableToCompleteOperation(WriteFailed(p))) && written == disk[p := Damaged]
                  && synched == old(synched)
                case FailsOnClose =>
                  r == Err(UnableToCompleteOperation(CloseFailed(p)))
                  && written == disk[p := Holding(keyStore.entries, password)] && synched == now
      ensures r.Ok? || (resolvedPath.Some? && outcome == FailsOnClose) ==>
                LoadFrom(resolvedPath, written, password) == Ok(keyStore.entries)
      ensures resolvedPath.Some? && outcome == FailsWhileWriting ==> LoadFrom(resolvedPath, written, password).Err?
    {
      if resolvedPath.None? {
        return Err(CantSaveWithoutFile), disk;
      }
      var p := resolvedPath.value;
      if outcome == CannotOpen {
        return Err(UnableToCompleteOperation(FileNotWritable(p))), disk;
      }
      written := disk[p := Damaged];
      if outcome == FailsWhileWriting {
        return Err(UnableToCompleteOperation(WriteFailed(p))), written;
      }
      written := written[p := Holding(keyStore.entries, password)];
      synched := now;
      if outcome == FailsOnClose {
        return Err(UnableToCompleteOperation(CloseFailed(p))), written;
      }
      r := Ok(());
    }

    /** `stop`: the service no longer has a store, and the path callback is
        removed when one was registered. The handle itself is kept. */
    method Stop()
      requires Valid()
      modifies this, pathManager
      ensures Valid()
      ensures keyStore == null && Value() == null
      ensures resolvedPath == old(resolvedPath) && callbackHandle == old(callbackHandle) && synched == old(synched)
      ensures callbackHandle.Some? ==> pathManager.callbacks == old(pathManager.callbacks) - {callbackHandle.value}
      ensures callbackHandle.None? && pathManager != null ==> unchanged(pathManager)
    {
      keyStore := null;
      if callbackHandle.Some? {
        pathManager.RemoveCallback(callbackHandle.value);
      }
    }
  }

  /** A reload followed, when it succeeds, by `RevertLoad` with its key gives
      back the contents and time before the reload. Only a reload that
      completes and then fails to close its file leaves the new contents in
      place with no key to revert them. */
  method ReloadThenRevert(service: KeyStoreService, now: int, disk: Disk, closeFault: bool)
    returns (r: Result<LoadKey, Error>)
    requires service.keyStore != null
    modifies service, service.keyStore
    ensures service.keyStore == old(service.keyStore) && service.synched == old(service.synched)
    ensures var loaded := LoadFrom(old(service.resolvedPath), disk, service.password);
            && (loaded.Err? ==> r.Err? && service.keyStore.entries == old(service.keyStore.entries))
            && (loaded.Ok? ==> (r.Ok? <==> !(closeFault && old(service.resolvedPath).Some?)))
            && (r.Ok? ==> service.keyStore.entries == old(service.keyStore.entries))
            && (loaded.Ok? && r.Err? ==> service.keyStore.entries == loaded.value)
  {
    r := service.Load(now, disk, closeFault);
    if r.Ok? {
      service.RevertLoad(r.value);
    }
  }
}
