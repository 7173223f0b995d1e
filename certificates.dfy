/** Rendering of certificates and certificate chains into the management
    model's certificate record: type, public key, the SHA-1 and SHA-256
    fingerprints, the encoded form, and the X.509 details when the certificate
    is an X.509 certificate. */
module Certificates {
  import opened Common
  import opened Hex

  const SHA_1: string := "SHA-1"
  const SHA_256: string := "SHA-256"

  datatype PublicKey = PublicKey(algorithm: string, format: string, encoded: seq<byte>)

  /** What an X.509 certificate adds; principal names are given already
      rendered, dates as instants. */
  datatype X509Fields = X509Fields(
    subject: string,
    issuer: string,
    notBefore: int,
    notAfter: int,
    serialNumber: nat,
    signatureAlgorithm: string,
    signature: seq<byte>,
    version: nat)

  /** A certificate. `encoding` is None when `getEncoded` fails;
      `x509` is Some exactly for an X.509 certificate. */
  datatype Certificate = Certificate(
    certType: string,
    publicKey: PublicKey,
    encoding: Option<seq<byte>>,
    x509: Option<X509Fields>)

  /** The platform services the renderer calls: a message digest by algorithm
      name (None when no provider offers the algorithm) and the ISO-8601 date
      format. */
  datatype Services = Services(
    digest: (string, seq<byte>) -> Option<seq<byte>>,
    formatDate: int -> string)

  datatype PublicKeyModel = PublicKeyModel(algorithm: string, format: string, encoded: string)

  datatype Fingerprint = Fingerprint(algorithm: string, value: string)

  datatype X509Model = X509Model(
    subject: string,
    issuer: string,
    notBefore: string,
    notAfter: string,
    serialNumber: string,
    signatureAlgorithm: string,
    signature: string,
    version: string)

  /** The part of a certificate record written after the public key. */
  datatype CertificateBody = CertificateBody(
    fingerprints: seq<Fingerprint>,
    encoded: string,
    x509: Option<X509Model>)

  /** A certificate record as the model node holds it. `body` is None when
      writing stopped after the type and the public key were set. */
  datatype CertificateModel = CertificateModel(
    certType: string,
    publicKey: PublicKeyModel,
    body: Option<CertificateBody>)

  /** The record a write leaves behind, and the error it raised, if any. */
  datatype Written = Written(model: CertificateModel, failure: Option<Error>)

  function PublicKeyRecord(key: PublicKey): PublicKeyModel
  {
    PublicKeyModel(key.algorithm, key.format, EncodedHex(key.encoded))
  }

  function X509Record(f: X509Fields, services: Services): X509Model
  {
    X509Model(
      f.subject, f.issuer,
      services.formatDate(f.notBefore), services.formatDate(f.notAfter),
      Delimited(Base16(f.serialNumber)),
      f.signatureAlgorithm,
      EncodedHex(f.signature),
      "v" + Decimal(f.version))
  }

  /** The record `writeCertificate` produces for `cert`, and what it raises.
      Type and public key are set whatever happens; the rest only when the
      encoding and both digests succeed. A completed record carries exactly two
      fingerprints, SHA-1 then SHA-256, both digests of the same encoded bytes
      that the record also carries as `encoded`. */
  function Rendered(cert: Certificate, services: Services): (w: Written)
    ensures w.model.certType == cert.certType
    ensures w.model.publicKey == PublicKeyRecord(cert.publicKey)
    ensures w.failure.None? <==> w.model.body.Some?
    ensures w.failure.None? <==>
              && cert.encoding.Some?
              && services.digest(SHA_1, cert.encoding.value).Some?
              && services.digest(SHA_256, cert.encoding.value).Some?
    ensures w.failure.None? ==>
              var enc := cert.encoding.value;
              var fps := w.model.body.value.fingerprints;
              && |fps| == 2
              && fps[0] == Fingerprint(SHA_1, EncodedHex(services.digest(SHA_1, enc).value))
              && fps[1] == Fingerprint(SHA_256, EncodedHex(services.digest(SHA_256, enc).value))
              && w.model.body.value.encoded == EncodedHex(enc)
    ensures cert.encoding.None? ==> w.failure == Some(CertificateEncodingFailed)
    ensures cert.encoding.Some? && services.digest(SHA_1, cert.encoding.value).None? ==>
              w.failure == Some(NoSuchAlgorithm(SHA_1))
    ensures cert.encoding.Some? && services.digest(SHA_1, cert.encoding.value).Some?
            && services.digest(SHA_256, cert.encoding.value).None? ==>
              w.failure == Some(NoSuchAlgorithm(SHA_256))
  {
    var head := CertificateModel(cert.certType, PublicKeyRecord(cert.publicKey), None);
    match cert.encoding
    case None => Written(head, Some(CertificateEncodingFailed))
    case Some(encoded) =>
      match services.digest(SHA_1, encoded)
      case None => Written(head, Some(NoSuchAlgorithm(SHA_1)))
      case Some(sha1) =>
        match services.digest(SHA_256, encoded)
        case None => Written(head, Some(NoSuchAlgorithm(SHA_256)))
        case Some(sha256) =>
          var fingerprints := [Fingerprint(SHA_1, EncodedHex(sha1)), Fingerprint(SHA_256, EncodedHex(sha256))];
          var x509 := match cert.x509 case None => None case Some(f) => Some(X509Record(f, services));
          Written(head.(body := Some(CertificateBody(fingerprints, EncodedHex(encoded), x509))), None)
  }

  /** `writeCertificate` for both overloads: sets the fields one after the
      other; an encoding or digest failure aborts it after the public key. */
  method WriteCertificate(cert: Certificate, services: Services) returns (w: Written)
    ensures w == Rendered(cert, services)
  {
    var keyEncoded := EncodeHex(cert.publicKey.encoded);
    var head := CertificateModel(cert.certType, PublicKeyModel(cert.publicKey.algorithm, cert.publicKey.format, keyEncoded), None);
    if cert.encoding.None? {
      return Written(head, Some(CertificateEncodingFailed));
    }
    var encoded := cert.encoding.value;
    var sha1 := services.digest(SHA_1, encoded);
    if sha1.None? {
      return Written(head, Some(NoSuchAlgorithm(SHA_1)));
    }
    var sha1Text := EncodeHex(sha1.value);
    var sha256 := services.digest(SHA_256, encoded);
    if sha256.None? {
      return Written(head, Some(NoSuchAlgorithm(SHA_256)));
    }
    var sha256Text := EncodeHex(sha256.value);
    var fingerprints := [Fingerprint(SHA_1, sha1Text), Fingerprint(SHA_256, sha256Text)];
    var encodedText := EncodeHex(encoded);
    var x509: Option<X509Model> := None;
    if cert.x509.Some? {
      var f := cert.x509.value;
      var serial := Delimit(Base16(f.serialNumber));
      var signature := EncodeHex(f.signature);
      x509 := Some(X509Model(f.subject, f.issuer, services.formatDate(f.notBefore), services.formatDate(f.notAfter),
                             serial, f.signatureAlgorithm, signature, "v" + Decimal(f.version)));
    }
    w := Written(head.(body := Some(CertificateBody(fingerprints, encodedText, x509))), None);
  }

  lemma {:induction false} Base16ValueLeadingZero(s: string)
    ensures Base16Value("0" + s) == Base16Value(s)
    decreases |s|
  {
    if s != [] {
      var t := "0" + s;
      assert t[..|t| - 1] == "0" + s[..|s| - 1];
      Base16ValueLeadingZero(s[..|s| - 1]);
    }
  }

  /** The X.509 details appear exactly for an X.509 certificate; its serial
      number reads back, colons removed, to the certificate's serial number,
      and its version is "v" followed by the version number. */
  lemma RenderedX509(cert: Certificate, services: Services)
    requires Rendered(cert, services).failure.None?
    ensures var body := Rendered(cert, services).model.body.value;
            && (body.x509.Some? <==> cert.x509.Some?)
            && (body.x509.Some? ==>
                  var f := cert.x509.value;
                  var m := body.x509.value;
                  && Base16Value(Strip(m.serialNumber)) == f.serialNumber
                  && m.version[0] == 'v' && DecimalValue(m.version[1..]) == f.version
                  && FromHex(Strip(m.signature)) == f.signature
                  && m.subject == f.subject && m.issuer == f.issuer
                  && m.notBefore == services.formatDate(f.notBefore)
                  && m.notAfter == services.formatDate(f.notAfter))
  {
    if cert.x509.Some? {
      var f := cert.x509.value;
      var digits := Base16(f.serialNumber);
      Base16RoundTrip(f.serialNumber);
      DelimitedPadding(digits);
      Base16ValueLeadingZero(digits);
      DecimalRoundTrip(f.version);
      EncodedHexRoundTrip(f.signature);
      var m := X509Record(f, services);
      assert m.version[1..] == Decimal(f.version);
    }
  }

  /** What writing each certificate of a chain, in chain order, leaves behind. */
  function Renderings(chain: seq<Certificate>, services: Services): (ws: seq<Written>)
    ensures |ws| == |chain|
    decreases |chain|
  {
    if chain == [] then [] else [Rendered(chain[0], services)] + Renderings(chain[1..], services)
  }

  /** Entry k of the renderings is the write of certificate k. */
  lemma {:induction false} RenderingsAt(chain: seq<Certificate>, services: Services, k: nat)
    requires k < |chain|
    ensures Renderings(chain, services)[k] == Rendered(chain[k], services)
    decreases k
  {
    if k > 0 {
      RenderingsAt(chain[1..], services, k - 1);
    }
  }

  /** The records of the writes before the first one that fails. */
  function CompletedPrefix(ws: seq<Written>): (records: seq<CertificateModel>)
    ensures |records| <= |ws|
    ensures forall k :: 0 <= k < |records| ==> ws[k].failure.None? && records[k] == ws[k].model
    ensures |records| < |ws| ==> ws[|records|].failure.Some?
  {
    if ws == [] || ws[0].failure.Some? then []
    else [ws[0].model] + CompletedPrefix(ws[1..])
  }

  /** The first |records| writes all completed, leaving exactly `records`. */
  ghost predicate CompletedUpTo(ws: seq<Written>, records: seq<CertificateModel>)
  {
    |records| <= |ws| && forall k :: 0 <= k < |records| ==> ws[k].failure.None? && records[k] == ws[k].model
  }

  lemma CompletedUpToSnoc(ws: seq<Written>, records: seq<CertificateModel>)
    requires CompletedUpTo(ws, records) && |records| < |ws| && ws[|records|].failure.None?
    ensures CompletedUpTo(ws, records + [ws[|records|].model])
  {
  }

  /** Only the completed prefix has the properties `CompletedPrefix` promises. */
  lemma {:induction false} CompletedPrefixUnique(ws: seq<Written>, records: seq<CertificateModel>)
    requires |records| <= |ws|
    requires forall k :: 0 <= k < |records| ==> ws[k].failure.None? && records[k] == ws[k].model
    requires |records| < |ws| ==> ws[|records|].failure.Some?
    ensures records == CompletedPrefix(ws)
    decreases |ws|
  {
    if records != [] {
      CompletedPrefixUnique(ws[1..], records[1..]);
    }
  }

  /** `writeCertificateChain`: one record per certificate, in chain order; the
      first failing certificate stops the loop, its error is raised, and the
      records written before it stay appended. */
  method WriteCertificateChain(chain: seq<Certificate>, services: Services)
    returns (records: seq<CertificateModel>, failure: Option<Error>)
    ensures records == CompletedPrefix(Renderings(chain, services))
    ensures failure.None? <==> |records| == |chain|
    ensures failure.Some? ==> |records| < |chain| && failure == Renderings(chain, services)[|records|].failure
  {
    ghost var ws := Renderings(chain, services);
    records := [];
    failure := None;
    var i := 0;
    while i < |chain|
      invariant i <= |chain| && |records| == i
      invariant CompletedUpTo(ws, records)
    {
      var w := WriteCertificate(chain[i], services);
      RenderingsAt(chain, services, i);
      if w.failure.Some? {
        failure := w.failure;
        CompletedPrefixUnique(ws, records);
        return;
      }
      CompletedUpToSnoc(ws, records);
      records := records + [w.model];
      i := i + 1;
    }
    CompletedPrefixUnique(ws, records);
  }
}
