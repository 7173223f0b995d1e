/** The key-store backend the service and the alias resource call into: the
    entries of a store, the store file on disk, the atomically loading store
    (`AtomicLoadKeyStore`) with its revert keys, and read access that can fail. */
module KeyStoreBackend {
  import opened Common
  import opened Certificates

  /** The entry classes the alias resource tests for. One entry may be an
      instance of several. */
  datatype EntryClass =
    | PrivateKeyEntry
    | SecretKeyEntry
    | TrustedCertificateEntry
    | EnablingPasswordEntry
    | PasswordEntry

  /** One entry of a store, as far as the alias resource reads it. */
  datatype Entry = Entry(
    classes: set<EntryClass>,
    creationDate: Option<int>,
    certificate: Option<Certificate>,
    chain: Option<seq<Certificate>>)

  /** The entries of a store by alias; map keys keep aliases unique. */
  type Entries = map<string, Entry>

  /** The content of a store file: a store protected by a password, or bytes
      that are not a readable store (for instance a file cut short by a
      failed write). */
  datatype FileState = Holding(entries: Entries, password: string) | Damaged

  /** Files by path; a path that is not a key has no file. */
  type Disk = map<string, FileState>

  /** Parsing a store file with `password`, as `KeyStore.load` does. */
  function Parse(path: string, file: FileState, password: string): (r: Result<Entries, Error>)
    ensures r.Ok? <==> file.Holding? && file.password == password
    ensures r.Ok? ==> r.value == file.entries
  {
    match file
    case Damaged => Err(FileUnreadable(path))
    case Holding(entries, filePassword) =>
      if filePassword == password then Ok(entries) else Err(WrongPassword)
  }

  /** What `AtomicLoadKeyStore.revertableload` hands back: the contents the
      store held before the load. */
  datatype StoreLoadKey = StoreLoadKey(previous: Entries)

  /** A key store whose `load` either replaces the whole contents or leaves
      them untouched, and which can go back to the contents a load replaced. */
  class AtomicLoadKeyStore {
    var entries: Entries

    /** `AtomicLoadKeyStore.newInstance`: a store with no entries yet. */
    constructor ()
      ensures entries == map[]
    {
      entries := map[];
    }

    /** Loads from `input` (None: no stream, giving an empty store). On
        success the key remembers the contents before the load; on failure
        the contents are untouched. */
    method RevertableLoad(path: string, input: Option<FileState>, password: string)
      returns (r: Result<StoreLoadKey, Error>)
      modifies this
      ensures input.None? ==> r == Ok(StoreLoadKey(old(entries))) && entries == map[]
      ensures input.Some? ==>
                match Parse(path, input.value, password)
                case Ok(loaded) => r == Ok(StoreLoadKey(old(entries))) && entries == loaded
                case Err(e) => r == Err(e) && entries == old(entries)
    {
      var key := StoreLoadKey(entries);
      if input.None? {
        entries := map[];
        return Ok(key);
      }
      var parsed := Parse(path, input.value, password);
      if parsed.Err? {
        return Err(parsed.error);
      }
      entries := parsed.value;
      r := Ok(key);
    }

    /** Goes back to the contents a load replaced. */
    method Revert(key: StoreLoadKey)
      modifies this
      ensures entries == key.previous
    {
      entries := key.previous;
    }

    /** `deleteEntry`: removes `alias` unless the backend rejects the
        deletion (`rejection`), in which case nothing changes. */
    method DeleteEntry(alias: string, rejection: Option<string>) returns (r: Option<Error>)
      modifies this
      ensures rejection.Some? ==> r == Some(KeyStoreFault(rejection.value)) && entries == old(entries)
      ensures rejection.None? ==> r.None? && entries == old(entries) - {alias}
    {
      if rejection.Some? {
        return Some(KeyStoreFault(rejection.value));
      }
      entries := entries - {alias};
      r := None;
    }
  }

  /** Read access to a store. Every call may fail with a backend fault
      (`KeyStoreException` or a runtime exception). */
  datatype KeyStoreView = KeyStoreView(
    entryInstanceOf: (string, EntryClass) -> Result<bool, Error>,
    creationDate: string -> Result<Option<int>, Error>,
    certificate: string -> Result<Option<Certificate>, Error>,
    certificateChain: string -> Result<Option<seq<Certificate>>, Error>)

  /** Read access to `entries` through a backend that does not fail: an
      absent alias is an instance of nothing and has no date or certificate. */
  function HealthyView(entries: Entries): KeyStoreView
  {
    KeyStoreView(
      (alias, c) => Ok(alias in entries && c in entries[alias].classes),
      alias => Ok(if alias in entries then entries[alias].creationDate else None),
      alias => Ok(if alias in entries then entries[alias].certificate else None),
      alias => Ok(if alias in entries then entries[alias].chain else None))
  }
}
