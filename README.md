# Key-store and credential-store core of the elytron subsystem, in Dafny

This project models four pieces of the elytron management subsystem and proves properties of them.

- **Certificate rendering** (`CertificateChainAttributeDefintions`). This covers the colon-delimited hex rendering (`delimit`, `encodedHexString`), the certificate record with its two fingerprints and X.509 details (`writeCertificate`), and the chain writer (`writeCertificateChain`).
- **The alias resource of a key store** (`KeyStoreAliasDefinition`). This covers the four read-only attributes `creation-date`, `entry-type`, `certificate` and `certificate-chain`, which fail softly. It also covers the lookup of the addressed alias (`alias()`) and the remove handler.
- **The key-store service** (`KeyStoreService`). It is modelled as a class whose fields `keyStore`, `synched`, `resolvedPath` and `callbackHandle` change across `start`, `resolveFileLocation`, `load`, `revertLoad`, `save` and `stop`. The model also has its factories, `getValue` (`Value`), `timeSynched` (`TimeSynched`) and the inner `LoadKey`.
- **The credential-store resource** (`CredentialStoreResourceDefinition`). This covers `credentialStoreName`, the configuration the add handler installs (with the `relativeTo` default), the service-state gate of runtime handlers, and the `reload` operation.

## Files and modules

| file | module | contents |
|---|---|---|
| `common.dfy` | `Common` | `Option`, `Result`, the errors raised, service states, and management addresses as sequences of (key, value) pairs |
| `addresses.dfy` | `Addresses` | the reverse address search that `alias()` and `credentialStoreName()` both perform |
| `hex.dfy` | `Hex` | `delimit` as a specification function and as the index loop of the source; hex encoding of bytes; base-16 and decimal rendering of numbers |
| `certificates.dfy` | `Certificates` | the certificate record and `writeCertificate` / `writeCertificateChain` |
| `keystore_backend.dfy` | `KeyStoreBackend` | store entries, store files, the `AtomicLoadKeyStore` with its revert keys, and read access that can fault |
| `keystore_alias.dfy` | `KeyStoreAlias` | the alias attributes and the remove handler |
| `keystore_service.dfy` | `KeyStoreServices` | the path manager and the key-store service |
| `credential_store.dfy` | `CredentialStores` | the credential-store resource handlers |

## How the outside world enters the model

- **Collaborators are parameters.** Message digests and date formatting are the function fields of `Certificates.Services`. Key-store reads are the function fields of `KeyStoreBackend.KeyStoreView`; each read returns `Ok` or a backend fault. Path resolution is `KeyStoreServices.PathManager.resolve`.
- **Files and the clock are parameters.** The file system is a `Disk`, a map from path to `Holding(entries, password)` or `Damaged`. The clock is a `now: int` argument. Whether a store type can be instantiated and how a file write ends (`WriteOutcome`) are arguments too.
- **`AtomicLoadKeyStore` is a class over a map of entries.** `RevertableLoad` hands back a key that holds the previous contents. `Revert` restores them.
- **Results and failures.** A result node that stays unset is `Undefined`. An exception is an `Err` carrying an `Error` value. When the source wraps an exception, the model wraps the error the same way: `UnableToInitialiseKeyStore`, `UnableToCompleteOperation` and `OperationFailed`.

## Behaviour of the code worth noting

- **`save` is not crash-safe.** It opens the file with a `FileOutputStream`, which truncates it, and then writes into it (`KeyStoreService.java:184-185`). `Save` therefore leaves a `Damaged` file when writing fails after opening. Its contract states that such a file no longer loads.
- **`required` is never consulted.** `required` and `watch` are stored and never read. A resolved path that names no file always makes `new FileInputStream` fail, so `start` fails with `FileNotFound` (`KeyStoreService.java:134`). Only a service without a path loads from a null stream and gets an empty store.
- **A failed start is not all-or-nothing.** `start` stamps `synched` and registers the path callback before it loads (`KeyStoreService.java:97-102`). A failed load keeps both changes; only `keyStore` is left unassigned. `Start` states exactly this.
- **Closing a file can fail after the work is done.** The streams are closed by try-with-resources (`KeyStoreService.java:134-136` and `184-188`). When `revertableload` completes and the close then fails, `load()` raises with the contents already replaced and no key to revert them. When `store` completes and the close then fails, `save` raises after `synched` has moved. `LoadInto`, `Load`, `Start`, `Save` and `ReloadThenRevert` state these cases.
- **Soft failures keep partial results.** The attribute handlers do not leave the result empty on every fault. `writeCertificate` sets the type and the public key before it computes the encoding and the digests (`CertificateChainAttributeDefintions.java:117-127`), so a failing certificate attribute still shows those two fields. A failing chain keeps the records appended before the failing certificate. A chain of length zero leaves the result undefined. `ReadCertificate` and `ReadCertificateChain` state these cases.
- **`stop` keeps `callbackHandle`.** The code removes the callback but does not clear the field (`KeyStoreService.java:140-145`).

## Model

| member | source | states |
|---|---|---|
| `Addresses.LastValueBelowMeaning` | src/main/java/org/wildfly/extension/elytron/KeyStoreAliasDefinition.java:180-186 | the downward search below `hi` finds nothing exactly when no element in [1, hi) has the key; otherwise it finds the value of the highest such element |
| `Addresses.LastValueMeaning` | src/main/java/org/wildfly/extension/elytron/KeyStoreAliasDefinition.java:177-193 | the search finds nothing iff no element from index 1 on has the key; when one does, the search finds the value of the highest-index match |
| `Addresses.LastValueIgnoresRoot` | src/main/java/org/wildfly/extension/elytron/KeyStoreAliasDefinition.java:180 | replacing element 0 of the address never changes the result: index 0 is never examined |
| `Addresses.FindLastValue` | src/main/java/org/wildfly/extension/elytron/CredentialStoreResourceDefinition.java:321-337 | the reverse index loop with `break` fails with a missing-key error iff no element at index 1 or above has the key; otherwise it returns the value of the highest-index match, the same value as the search function |
| `KeyStoreAlias.Alias` | src/main/java/org/wildfly/extension/elytron/KeyStoreAliasDefinition.java:177-193 | `alias()`: the value of the highest-index "alias" element, never index 0; `AddressMissingKey("alias")` when there is none |
| `CredentialStores.CredentialStoreName` | src/main/java/org/wildfly/extension/elytron/CredentialStoreResourceDefinition.java:321-337 | the same reverse search for "credential-store", with `AddressMissingKey("credential-store")` when there is no match |
| `Hex.StripConcat` | src/main/java/org/wildfly/extension/elytron/CertificateChainAttributeDefintions.java:195-200 | removing colons distributes over concatenation |
| `Hex.StripNoColon` | src/main/java/org/wildfly/extension/elytron/CertificateChainAttributeDefintions.java:195-200 | removing colons from a colon-free string changes nothing |
| `Hex.GroupedLength` | src/main/java/org/wildfly/extension/elytron/CertificateChainAttributeDefintions.java:195-200 | grouping an even-length string of length n > 0 gives length n + n/2 - 1, and grouping the empty string gives the empty string |
| `Hex.GroupedIndex` | src/main/java/org/wildfly/extension/elytron/CertificateChainAttributeDefintions.java:195-200 | output position k is ':' when k mod 3 = 2 and otherwise input digit k - k/3: colons appear only between 2-digit groups, and digits keep their order |
| `Hex.GroupedAt` | src/main/java/org/wildfly/extension/elytron/CertificateChainAttributeDefintions.java:195-200 | the length and the position formula for every output position |
| `Hex.StripGrouped` | src/main/java/org/wildfly/extension/elytron/CertificateChainAttributeDefintions.java:195-200 | removing the colons from the grouped form gives back the padded digits, none dropped or reordered |
| `Hex.DelimitedPadding` | src/main/java/org/wildfly/extension/elytron/CertificateChainAttributeDefintions.java:189-193 | an odd-length digit string gets exactly one leading '0', and an even-length one gets none, as seen through colon removal |
| `Hex.DelimitedShape` | src/main/java/org/wildfly/extension/elytron/CertificateChainAttributeDefintions.java:187-202 | the output length is p + p/2 - 1 for padded length p > 0; every position is a colon or the matching padded digit; there is no leading or trailing colon |
| `Hex.DelimitedEmpty` | src/main/java/org/wildfly/extension/elytron/CertificateChainAttributeDefintions.java:187-202 | delimiting the empty string gives the empty string |
| `Hex.RemainingGrouped` | src/main/java/org/wildfly/extension/elytron/CertificateChainAttributeDefintions.java:195-200 | from any even position, the digit-by-digit output of the loop (each digit, then a colon after every odd position but the last) is the 2-digit grouping of the rest; the loop's colon rule and the grouped form agree |
| `Hex.RemainingAtInput` | src/main/java/org/wildfly/extension/elytron/CertificateChainAttributeDefintions.java:195-200 | one loop iteration emits input digit i, then a colon exactly when the loop's offset test places one, then the rest of the output |
| `Hex.DelimitStep` | src/main/java/org/wildfly/extension/elytron/CertificateChainAttributeDefintions.java:195-200 | appending one digit and its colon, if any, keeps "written so far, then what remains" equal to the whole output |
| `Hex.DelimitStart` | src/main/java/org/wildfly/extension/elytron/CertificateChainAttributeDefintions.java:189-193 | the '0' written before the loop for an odd-length input, then what remains from the first padded position, is the whole output |
| `Hex.Delimit` | src/main/java/org/wildfly/extension/elytron/CertificateChainAttributeDefintions.java:187-202 | the `StringBuilder` loop with its mutable `offset` returns exactly the specification function `Delimited` of its input |
| `Hex.ToHex` | src/main/java/org/wildfly/extension/elytron/CertificateChainAttributeDefintions.java:184 | hex conversion writes two digits per byte |
| `Hex.DigitValueOf` | src/main/java/org/wildfly/extension/elytron/CertificateChainAttributeDefintions.java:184 | every hex digit reads back to its value and is not a colon |
| `Hex.HexRoundTrip` | src/main/java/org/wildfly/extension/elytron/CertificateChainAttributeDefintions.java:184 | hex conversion has no colons and reads back to the original bytes |
| `Hex.EncodedHexRoundTrip` | src/main/java/org/wildfly/extension/elytron/CertificateChainAttributeDefintions.java:183-185 | `encodedHexString`: removing the colons gives the plain hex, which reads back to the bytes; n bytes give 3n - 1 characters, and no bytes give the empty string |
| `Hex.EncodeHex` | src/main/java/org/wildfly/extension/elytron/CertificateChainAttributeDefintions.java:183-185 | `encodedHexString` computed by the `Delimit` loop equals the specification `EncodedHex` |
| `Hex.Base16RoundTrip` | src/main/java/org/wildfly/extension/elytron/CertificateChainAttributeDefintions.java:155 | the base-16 rendering of a serial number reads back to the number, has no colons, and has no leading zero when the number is positive |
| `Hex.Base16` | src/main/java/org/wildfly/extension/elytron/CertificateChainAttributeDefintions.java:155 | the base-16 rendering is never empty |
| `Hex.DecimalRoundTrip` | src/main/java/org/wildfly/extension/elytron/CertificateChainAttributeDefintions.java:158 | the decimal rendering of the version reads back to the version number |
| `Hex.Decimal` | src/main/java/org/wildfly/extension/elytron/CertificateChainAttributeDefintions.java:158 | the decimal rendering is never empty |
| `Certificates.Rendered` | src/main/java/org/wildfly/extension/elytron/CertificateChainAttributeDefintions.java:116-146 | type and public key are always set. The rest is set iff the encoding and both digests succeed. A complete record has exactly two fingerprints, SHA-1 then SHA-256, over the same encoded bytes it also carries as `encoded`. Failures are raised in source order: encoding, then SHA-1, then SHA-256 |
| `Certificates.WriteCertificate` | src/main/java/org/wildfly/extension/elytron/CertificateChainAttributeDefintions.java:116-159 | the field-by-field writer leaves exactly the record and failure of `Rendered` |
| `Certificates.Base16ValueLeadingZero` | src/main/java/org/wildfly/extension/elytron/CertificateChainAttributeDefintions.java:155 | the padding zero `delimit` may add does not change the value of a base-16 serial number |
| `Certificates.RenderedX509` | src/main/java/org/wildfly/extension/elytron/CertificateChainAttributeDefintions.java:143-159 | the X.509 fields are present iff the certificate is X.509. The serial number, colons removed, reads back to the certificate's serial number. The version is "v" followed by the version number in decimal. The signature reads back to its bytes. Subject, issuer and dates come from the certificate |
| `Certificates.Renderings` | src/main/java/org/wildfly/extension/elytron/CertificateChainAttributeDefintions.java:169-175 | the writes of a chain are one per certificate |
| `Certificates.RenderingsAt` | src/main/java/org/wildfly/extension/elytron/CertificateChainAttributeDefintions.java:169-175 | write k of the chain is the write of certificate k |
| `Certificates.CompletedPrefix` | src/main/java/org/wildfly/extension/elytron/CertificateChainAttributeDefintions.java:169-175 | the records are the records of the leading writes that complete, in order, at most one per write; when there are fewer records than writes, the next write fails |
| `Certificates.CompletedPrefixUnique` | src/main/java/org/wildfly/extension/elytron/CertificateChainAttributeDefintions.java:169-175 | any record list with those properties is the completed prefix |
| `Certificates.WriteCertificateChain` | src/main/java/org/wildfly/extension/elytron/CertificateChainAttributeDefintions.java:169-175 | the loop appends one record per certificate in order. It succeeds iff every certificate renders; otherwise it stops at the first failure, raises that certificate's error and keeps the records before it |
| `KeyStoreBackend.Parse` | src/main/java/org/wildfly/extension/elytron/KeyStoreService.java:135 | loading a file succeeds iff it holds a store protected by the given password, and then yields that store's entries |
| `KeyStoreBackend.AtomicLoadKeyStore.constructor` | src/main/java/org/wildfly/extension/elytron/KeyStoreService.java:96 | a new store has no entries |
| `KeyStoreBackend.AtomicLoadKeyStore.RevertableLoad` | src/main/java/org/wildfly/extension/elytron/KeyStoreService.java:135 | a null stream empties the store. A readable file replaces the contents. A failed load changes nothing. The key always holds the contents from before the load |
| `KeyStoreBackend.AtomicLoadKeyStore.Revert` | src/main/java/org/wildfly/extension/elytron/KeyStoreService.java:176 | reverting restores the contents the key holds |
| `KeyStoreBackend.AtomicLoadKeyStore.DeleteEntry` | src/main/java/org/wildfly/extension/elytron/KeyStoreAliasDefinition.java:208-210 | deleting removes exactly that alias; a backend rejection changes nothing and is reported |
| `KeyStoreAlias.ClassifyFrom` | src/main/java/org/wildfly/extension/elytron/KeyStoreAliasDefinition.java:111-128 | the first class on the ladder (PrivateKey, SecretKey, TrustedCertificate, EnablingPassword, Password) whose test does not answer false decides the result: its name if the test answered true, the fault if it failed. "Other" is the result iff every test answers false. A name result is always one of the six allowed values |
| `KeyStoreAlias.HealthyEntryType` | src/main/java/org/wildfly/extension/elytron/KeyStoreAliasDefinition.java:66-71 | on a backend that does not fault, the entry type is the name of the highest-priority class the entry belongs to, or "Other" |
| `KeyStoreAlias.ReadCreationDate` | src/main/java/org/wildfly/extension/elytron/KeyStoreAliasDefinition.java:85-101 | fails only when the address names no alias. A backend fault or a missing date leaves the result undefined; otherwise the result is the formatted date |
| `KeyStoreAlias.ReadEntryType` | src/main/java/org/wildfly/extension/elytron/KeyStoreAliasDefinition.java:107-129 | fails only when the address names no alias. A faulting test leaves the result undefined; otherwise the result is the ladder's answer, one of the allowed values |
| `KeyStoreAlias.ReadCertificate` | src/main/java/org/wildfly/extension/elytron/KeyStoreAliasDefinition.java:136-152 | fails only when the address names no alias. The certificate is written only when the alias has no chain and has a certificate; a failing write keeps its partial record; a backend fault leaves the result undefined |
| `KeyStoreAlias.ReadCertificateChain` | src/main/java/org/wildfly/extension/elytron/KeyStoreAliasDefinition.java:158-172 | fails only when the address names no alias. With a chain, the result is the completed prefix of its records, or undefined if that prefix is empty; without a chain, or on a fault, the result is undefined |
| `KeyStoreAlias.Remove` | src/main/java/org/wildfly/extension/elytron/KeyStoreAliasDefinition.java:202-212 | deletes exactly the addressed alias. A backend rejection fails the operation and leaves the store unchanged. A missing alias in the address fails it before the store is touched |
| `KeyStoreServices.CallbackReaction` | src/main/java/org/wildfly/extension/elytron/KeyStoreService.java:116-126 | a reload is requested iff a path model event arrives while a resource-service restart is not allowed; path entry events never request one |
| `KeyStoreServices.PathManager.RegisterCallback` | src/main/java/org/wildfly/extension/elytron/KeyStoreService.java:114-127 | registers the callback on the named path under a handle not already in use |
| `KeyStoreServices.PathManager.RemoveCallback` | src/main/java/org/wildfly/extension/elytron/KeyStoreService.java:142-144 | unregisters exactly that handle |
| `KeyStoreServices.LoadFrom` | src/main/java/org/wildfly/extension/elytron/KeyStoreService.java:133-137 | no resolved file means a null stream and an empty store. A resolved path with no file fails with `FileNotFound`. Otherwise the file is parsed, which succeeds iff it holds a store under the service's password |
| `KeyStoreServices.KeyStoreService.FileLess` | src/main/java/org/wildfly/extension/elytron/KeyStoreService.java:81-83 | the file-less service has no path and no `relativeTo`, is neither required nor watched, and starts with nothing resolved and no store |
| `KeyStoreServices.KeyStoreService.FileBased` | src/main/java/org/wildfly/extension/elytron/KeyStoreService.java:71-87 | the file-based service keeps its configuration as given and starts with nothing resolved and no store |
| `KeyStoreServices.KeyStoreService.Start` | src/main/java/org/wildfly/extension/elytron/KeyStoreService.java:94-108 | an unavailable store type fails with nothing changed. Otherwise `synched` becomes now and the file is resolved when there is a path. The new store becomes the value only if the load succeeds and its file closes, and then holds the loaded entries. A failed load, or a failing close, raises `UnableToInitialiseKeyStore` and keeps the earlier value |
| `KeyStoreServices.KeyStoreService.ResolveFileLocation` | src/main/java/org/wildfly/extension/elytron/KeyStoreService.java:110-131 | the resolved path is `path` against `relativeTo` through the path manager, or `path` itself. A callback is registered, under a new handle, exactly when `relativeTo` is set |
| `KeyStoreServices.KeyStoreService.LoadInto` | src/main/java/org/wildfly/extension/elytron/KeyStoreService.java:133-137 | the private `load(keyStore)` performs `LoadFrom` on the given store. On success the store holds the loaded entries and the key the previous ones. On a failed load the store is unchanged. A completed load whose file fails to close raises `CloseFailed` with the store already replaced |
| `KeyStoreServices.KeyStoreService.Load` | src/main/java/org/wildfly/extension/elytron/KeyStoreService.java:133-173 | on success the key captures the previous contents and the previous `synched`, and `synched` becomes now. A failed load raises `UnableToCompleteOperation` and changes neither the contents nor `synched`. A completed load whose file fails to close raises with the contents replaced and `synched` unchanged |
| `KeyStoreServices.KeyStoreService.RevertLoad` | src/main/java/org/wildfly/extension/elytron/KeyStoreService.java:175-178 | restores exactly the contents and the `synched` time the key captured |
| `KeyStoreServices.KeyStoreService.Save` | src/main/java/org/wildfly/extension/elytron/KeyStoreService.java:180-190 | with no resolved path it fails with `CantSaveWithoutFile` and writes nothing. A file that cannot be opened is left as it was. A write that fails after opening leaves a file that no longer loads. A completed write advances `synched`, and the file then loads back to the saved entries; this holds also when the close then fails, and the save still raises |
| `KeyStoreServices.KeyStoreService.Stop` | src/main/java/org/wildfly/extension/elytron/KeyStoreService.java:140-150 | afterwards `getValue()` is null; the path callback is removed exactly when one was registered; the other fields are unchanged |
| `KeyStoreServices.ReloadThenRevert` | src/main/java/org/wildfly/extension/elytron/KeyStoreService.java:133-178 | `load()` followed, on success, by `revertLoad` with its key gives back the contents and the `synched` time from before the load. A failed load changes nothing. Only a completed load whose file fails to close leaves the loaded contents, with no key to revert them |
| `CredentialStores.ServiceRelativeTo` | src/main/java/org/wildfly/extension/elytron/CredentialStoreResourceDefinition.java:185-188 | an undefined `relativeTo` becomes "jboss.server.data.dir"; a defined one is kept |
| `CredentialStores.AddRuntime` | src/main/java/org/wildfly/extension/elytron/CredentialStoreResourceDefinition.java:177-216 | fails when the address names no store, or when the service cannot be created, with the error wrapped as an operation failure. Otherwise the service is named after the store and keeps the configuration. The path-manager dependency and the dependency on the defaulted `relativeTo` path are always present. A provider-loader dependency is present exactly when one is configured |
| `CredentialStores.ReadOnlyHandler` | src/main/java/org/wildfly/extension/elytron/CredentialStoreResourceDefinition.java:263-270 | the one-argument handler constructor keeps `serviceMustBeUp` and has no write access |
| `CredentialStores.Gate` | src/main/java/org/wildfly/extension/elytron/CredentialStoreResourceDefinition.java:274-286 | the handler runs iff the service is UP. Otherwise a handler that needs the service up fails with `RequiredServiceNotUp` and the state it found, and any other handler does nothing |
| `CredentialStores.DispatchAsWritten` | src/main/java/org/wildfly/extension/elytron/CredentialStoreResourceDefinition.java:304-317 | only "reload" is accepted; any other name is rejected with an error that names "load" as the expected operation |
| `CredentialStores.AsWrittenAdviceRejected` | src/main/java/org/wildfly/extension/elytron/CredentialStoreResourceDefinition.java:316 | the operation name the as-written error asks for is itself rejected; "load" is rejected with an error expecting "load" |
| `CredentialStores.DispatchOperation` | src/main/java/org/wildfly/extension/elytron/CredentialStoreResourceDefinition.java:304-317 | the corrected switch of the finding below: only "reload" is accepted, and any other name is rejected with an error naming "reload" as the expected operation |
| `CredentialStores.DispatchAdviceAccepted` | src/main/java/org/wildfly/extension/elytron/CredentialStoreResourceDefinition.java:304-317 | with the corrected switch the expected name is always accepted, and both switches reject the same names |
| `CredentialStores.CredentialStoreService.Stop` | src/main/java/org/wildfly/extension/elytron/CredentialStoreResourceDefinition.java:308 | the service is stopped, and a stop step is recorded |
| `CredentialStores.CredentialStoreService.Start` | src/main/java/org/wildfly/extension/elytron/CredentialStoreResourceDefinition.java:309-311 | a start either runs the service or fails with a `StartException` and leaves it stopped; the step is recorded |
| `CredentialStores.PerformRuntime` | src/main/java/org/wildfly/extension/elytron/CredentialStoreResourceDefinition.java:302-318 | as written: "reload" is a stop followed by a start, in that order, and a failing start fails the operation. Any other name is rejected with the error naming "load" as the expected operation, and the service is untouched |
| `CredentialStores.ExecuteReload` | src/main/java/org/wildfly/extension/elytron/CredentialStoreResourceDefinition.java:274-318 | a service that is not UP fails the reload with its state and is untouched. An UP service goes through the as-written operation-name switch, whose error names "load". A reload records a stop and then a start step, `Started` or `FailedToStart`, and succeeds iff the start does |

## Left out

- Digests, hex conversion, `BigInteger.toString(16)`, date formatting and X.500 names are foreign calls. Digests and dates are the function parameters in `Services`. Principal names are given already rendered. Hex conversion is modelled as two lower-case digits per byte.
- `Hex.Base16`: serial numbers are modelled as non-negative. The minus sign that `BigInteger.toString(16)` gives a negative number is not modelled.
- The `KeyStore` / `AtomicLoadKeyStore` backend is modelled as a map of entries with whole-map revert, and its file format as `Holding`/`Damaged`. Its own code is not part of this model.
- `KeyStoreRuntimeOnlyHandler`, `getModifiableValue` and the checks they make before a handler runs are not part of this model. The alias handlers and `Remove` are given the store directly.
- `KeyStoreServices.KeyStoreService.Load`, `RevertLoad` and `Save` require a running store (`keyStore != null`). Their callers only reach them through a service that is up; calling them on a stopped service would dereference null in the source.
- The password is a string. A null password is not modelled.
- `KeyStoreServices.KeyStoreService.Location`: path resolution is a fixed function of `path` and `relativeTo`. A named path that changes while the service runs, which is what the path callback reacts to, is not modelled beyond `CallbackReaction`.
- `required` and `watch` are stored and never consulted by the source, so they carry no behaviour here.
- File I/O, the clock and store-type lookup are parameters: `Disk`, `now`, `typeAvailable` and `WriteOutcome`. Crash consistency is not modelled; the source has no stage-then-replace step to verify.
- The service-container wiring is not modelled: `InjectedValue`, service builders and the `commonDependencies` of the add handler. Also left out are the credential-store remove and write-attribute handlers, the `state` attribute, and the attribute definitions.
- `CredentialStores.CredentialStoreService` models only what reload needs: whether the service runs and the order of its lifecycle steps. The real service is not part of this model. Neither is `getRequiredService` for a service that is missing.
- Logging in the soft-failure paths is not modelled.
- Concurrency is not modelled; the source has no locking to verify.

## Findings

| source | as written | input that shows it | evidently intended | confidence | as-written member | corrected member |
|---|---|---|---|---|---|---|
| src/main/java/org/wildfly/extension/elytron/CredentialStoreResourceDefinition.java:316 | the invalid-operation error for the reload handler names `LOAD` ("load") as the expected operation, but the only accepted name is "reload" | operation name "load": rejected with an error that expects "load" | the error names "reload", the name the switch accepts | medium, not executed | `CredentialStores.AsWrittenAdviceRejected` | `CredentialStores.DispatchAdviceAccepted` |
