/** The alias resource of a key store: its read-only attributes
    (creation-date, entry-type, certificate, certificate-chain), the lookup of
    the addressed alias, and the remove operation. Reading an attribute fails
    softly: a backend fault leaves the result as it stands and raises nothing. */
module KeyStoreAlias {
  import opened Common
  import opened Hex
  import opened Addresses
  import opened Certificates
  import opened KeyStoreBackend

  const ALIAS: string := "alias"
  const OTHER: string := "Other"

  /** The simple class name the entry-type attribute reports for a class. */
  function ClassName(c: EntryClass): string
  {
    match c
    case PrivateKeyEntry => "PrivateKeyEntry"
    case SecretKeyEntry => "SecretKeyEntry"
    case TrustedCertificateEntry => "TrustedCertificateEntry"
    case EnablingPasswordEntry => "EnablingPasswordEntry"
    case PasswordEntry => "PasswordEntry"
  }

  /** The values the entry-type attribute declares as allowed. */
  const AllowedEntryTypes: set<string> :=
    {"PasswordEntry", "PrivateKeyEntry", "SecretKeyEntry", "TrustedCertificateEntry", "EnablingPasswordEntry", OTHER}

  /** The order in which the entry-type attribute tests the classes. */
  const Ladder: seq<EntryClass> :=
    [PrivateKeyEntry, SecretKeyEntry, TrustedCertificateEntry, EnablingPasswordEntry, PasswordEntry]

  /** The classification from rung `i` of the ladder down: the first class the
      entry is an instance of, `Other` when none, or the fault of the first test
      that failed before any test succeeded. */
  function ClassifyFrom(view: KeyStoreView, alias: string, i: nat): (r: Result<string, Error>)
    requires i <= |Ladder|
    ensures r.Ok? ==> r.value in AllowedEntryTypes
    ensures r == Ok(OTHER) <==> forall m :: i <= m < |Ladder| ==> view.entryInstanceOf(alias, Ladder[m]) == Ok(false)
    ensures forall k :: i <= k < |Ladder| && view.entryInstanceOf(alias, Ladder[k]) != Ok(false)
                        && (forall m :: i <= m < k ==> view.entryInstanceOf(alias, Ladder[m]) == Ok(false)) ==>
              r == match view.entryInstanceOf(alias, Ladder[k])
                   case Ok(_) => Ok(ClassName(Ladder[k]))
                   case Err(e) => Err(e)
    decreases |Ladder| - i
  {
    if i == |Ladder| then Ok(OTHER)
    else
      match view.entryInstanceOf(alias, Ladder[i])
      case Err(e) => Err(e)
      case Ok(true) => Ok(ClassName(Ladder[i]))
      case Ok(false) => ClassifyFrom(view, alias, i + 1)
  }

  /** The entry type of `alias`: the ladder from its top. */
  function EntryType(view: KeyStoreView, alias: string): Result<string, Error>
  {
    ClassifyFrom(view, alias, 0)
  }

  /** On a backend that does not fail, the entry type is the class name of the
      first ladder class the entry belongs to, so an entry that is both a
      private key and a secret key is a `PrivateKeyEntry`; an absent alias or
      an entry of none of the classes is `Other`. */
  lemma HealthyEntryType(entries: Entries, alias: string)
    ensures var t := EntryType(HealthyView(entries), alias);
            && t.Ok?
            && (alias !in entries ==> t.value == OTHER)
            && (alias in entries ==>
                  var cs := entries[alias].classes;
                  t.value == if PrivateKeyEntry in cs then "PrivateKeyEntry"
                             else if SecretKeyEntry in cs then "SecretKeyEntry"
                             else if TrustedCertificateEntry in cs then "TrustedCertificateEntry"
                             else if EnablingPasswordEntry in cs then "EnablingPasswordEntry"
                             else if PasswordEntry in cs then "PasswordEntry"
                             else OTHER)
  {
    var v := HealthyView(entries);
    assert forall c :: v.entryInstanceOf(alias, c) == Ok(alias in entries && c in entries[alias].classes);
    assert Ladder[0] == PrivateKeyEntry && Ladder[1] == SecretKeyEntry && Ladder[2] == TrustedCertificateEntry;
    assert Ladder[3] == EnablingPasswordEntry && Ladder[4] == PasswordEntry;
  }

  /** The result node of a read-only attribute. */
  datatype AttributeResult =
    | Undefined
    | Text(value: string)
    | CertificateValue(record: CertificateModel)
    | CertificateList(records: seq<CertificateModel>)

  /** The alias the operation addresses, if its address names one. */
  function AddressedAlias(op: Operation): Option<string>
  {
    LastValue(op.address, ALIAS)
  }

  /** `alias()`: the value of the last address element, from index 1 on,
      whose key is "alias"; a missing-key error when there is none. */
  method Alias(op: Operation) returns (r: Result<string, Error>)
    ensures r.Err? <==> forall j :: 1 <= j < |op.address| ==> op.address[j].key != ALIAS
    ensures r.Err? ==> r.error == AddressMissingKey(ALIAS)
    ensures r.Ok? ==> exists i :: IsLastMatch(op.address, ALIAS, i) && r.value == op.address[i].value
    ensures r.Ok? <==> AddressedAlias(op).Some?
    ensures r.Ok? ==> r.value == AddressedAlias(op).value
  {
    r := FindLastValue(op.address, ALIAS);
  }

  /** The creation-date attribute: the formatted date; left undefined when the
      entry has no date or the backend faults. */
  method ReadCreationDate(op: Operation, view: KeyStoreView, formatDate: int -> string)
    returns (r: Result<AttributeResult, Error>)
    ensures r.Err? <==> AddressedAlias(op).None?
    ensures r.Err? ==> r.error == AddressMissingKey(ALIAS)
    ensures r.Ok? ==>
              var date := view.creationDate(AddressedAlias(op).value);
              && (date.Err? ==> r.value == Undefined)
              && (date == Ok(None) ==> r.value == Undefined)
              && (date.Ok? && date.value.Some? ==> r.value == Text(formatDate(date.value.value)))
  {
    var alias :- Alias(op);
    var result := Undefined;
    var date := view.creationDate(alias);
    if date.Err? {
      return Ok(result);
    }
    if date.value.Some? {
      result := Text(formatDate(date.value.value));
    }
    r := Ok(result);
  }

  /** The entry-type attribute: the first ladder class the entry is an
      instance of, else `Other`; left undefined when a test faults. */
  method ReadEntryType(op: Operation, view: KeyStoreView) returns (r: Result<AttributeResult, Error>)
    ensures r.Err? <==> AddressedAlias(op).None?
    ensures r.Err? ==> r.error == AddressMissingKey(ALIAS)
    ensures r.Ok? ==>
              var t := EntryType(view, AddressedAlias(op).value);
              && (t.Err? ==> r.value == Undefined)
              && (t.Ok? ==> r.value == Text(t.value) && t.value in AllowedEntryTypes)
  {
    var alias :- Alias(op);
    var t := EntryType(view, alias);
    if t.Err? {
      return Ok(Undefined);
    }
    r := Ok(Text(t.value));
  }

  /** The certificate attribute: written only when the alias has no chain and
      does have a certificate. A failing write keeps what it had set (type and
      public key); a backend fault leaves the result undefined. */
  method ReadCertificate(op: Operation, view: KeyStoreView, services: Services)
    returns (r: Result<AttributeResult, Error>)
    ensures r.Err? <==> AddressedAlias(op).None?
    ensures r.Err? ==> r.error == AddressMissingKey(ALIAS)
    ensures r.Ok? ==>
              var alias := AddressedAlias(op).value;
              var chain := view.certificateChain(alias);
              var cert := view.certificate(alias);
              && (chain != Ok(None) ==> r.value == Undefined)
              && (chain == Ok(None) && (cert.Err? || cert == Ok(None)) ==> r.value == Undefined)
              && (chain == Ok(None) && cert.Ok? && cert.value.Some? ==>
                    r.value == CertificateValue(Rendered(cert.value.value, services).model))
  {
    var alias :- Alias(op);
    var chain := view.certificateChain(alias);
    if chain.Err? || chain.value.Some? {
      return Ok(Undefined);
    }
    var cert := view.certificate(alias);
    if cert.Err? || cert.value.None? {
      return Ok(Undefined);
    }
    var w := WriteCertificate(cert.value.value, services);
    r := Ok(CertificateValue(w.model));
  }

  /** The certificate-chain attribute: one record per certificate of the chain
      when it has one; a failing certificate ends the list, keeping the records
      before it. A list that stays empty leaves the result undefined. */
  method ReadCertificateChain(op: Operation, view: KeyStoreView, services: Services)
    returns (r: Result<AttributeResult, Error>)
    ensures r.Err? <==> AddressedAlias(op).None?
    ensures r.Err? ==> r.error == AddressMissingKey(ALIAS)
    ensures r.Ok? ==>
              var chain := view.certificateChain(AddressedAlias(op).value);
              && (chain.Err? || chain == Ok(None) ==> r.value == Undefined)
              && (chain.Ok? && chain.value.Some? ==>
                    var records := CompletedPrefix(Renderings(chain.value.value, services));
                    r.value == if records == [] then Undefined else CertificateList(records))
  {
    var alias :- Alias(op);
    var chain := view.certificateChain(alias);
    if chain.Err? || chain.value.None? {
      return Ok(Undefined);
    }
    var records, failure := WriteCertificateChain(chain.value.value, services);
    r := Ok(if records == [] then Undefined else CertificateList(records));
  }

  /** The remove operation: deletes exactly the addressed alias; a backend
      rejection fails the operation and leaves the store as it was. */
  method Remove(op: Operation, store: AtomicLoadKeyStore, rejection: Option<string>)
    returns (r: Result<(), Error>)
    modifies store
    ensures AddressedAlias(op).None? ==> r == Err(AddressMissingKey(ALIAS)) && store.entries == old(store.entries)
    ensures AddressedAlias(op).Some? && rejection.Some? ==>
              r == Err(OperationFailed(KeyStoreFault(rejection.value))) && store.entries == old(store.entries)
    ensures AddressedAlias(op).Some? && rejection.None? ==>
              r.Ok? && store.entries == old(store.entries) - {AddressedAlias(op).value}
  {
    var alias :- Alias(op);
    var failure := store.DeleteEntry(alias, rejection);
    if failure.Some? {
      return Err(OperationFailed(failure.value));
    }
    r := Ok(());
  }
}
