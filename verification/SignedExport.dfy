/**
 Signed export packages (verify_audit.py): a manifest with the payload's digest, the public key
 and, under "signature", the unpadded base64url text of a signature over everything else.
 */
module SignedExport {
  import opened Options
  import opened Base64Url

  type Key = int
  type Manifest = map<string, string>

  /** A JSON object, as its canonical bytes; an object serialises to at least "{}". */
  datatype Payload = Payload(canonical: seq<Byte>)

  predicate IsObject(p: Payload) { |p.canonical| >= 2 }

  /** Digest, signature scheme and public keys; manifests are signed in canonical form, which determines them. */
  datatype Crypto = Crypto(
    digest: seq<Byte> -> string,
    sign: (Key, Manifest) -> seq<Byte>,
    verify: (string, seq<Byte>, Manifest) -> bool,
    publicPem: Key -> string)

  /** What was exported: the payload, and the tenant, timeframe, chain root and other descriptive fields. */
  datatype Export = Export(payload: Payload, facts: Manifest)

  datatype Package = Package(manifest: Manifest, payload: Payload, payloadB64: string)

  /** The manifest that is signed. */
  function Unsigned(c: Crypto, k: Key, e: Export): Manifest {
    (e.facts - {"signature"})
      ["payload_sha256" := "sha256-" + c.digest(e.payload.canonical)]
      ["public_key_pem" := c.publicPem(k)]
  }

  /** create_signed_export_package */
  function Create(c: Crypto, k: Key, e: Export): Package {
    var unsigned := Unsigned(c, k, e);
    Package(unsigned["signature" := Encode(c.sign(k, unsigned))], e.payload, Encode(e.payload.canonical))
  }

  datatype Verdict = Verified | MissingManifest | MissingPayload | HashMismatch | MissingPublicKey | Failed

  /** The payload's bytes: the base64url text if it is there and not empty, else the object. */
  function ShownBytes(payload: Option<Payload>, payloadB64: Option<string>): Option<seq<Byte>> {
    if payloadB64.Some? && payloadB64.value != "" then Decode(payloadB64.value)
    else if payload.Some? then Some(payload.value.canonical) else None
  }

  function Verify(
    c: Crypto, payload: Option<Payload>, payloadB64: Option<string>, manifest: Option<Manifest>): Verdict
  {
    if manifest.None? || "signature" !in manifest.value then MissingManifest
    else if payload.None? && (payloadB64.None? || payloadB64.value == "") then MissingPayload
    else
      var m := manifest.value;
      var bytes := ShownBytes(payload, payloadB64);
      if bytes.None? then Failed
      else if "payload_sha256" !in m || m["payload_sha256"] != "sha256-" + c.digest(bytes.value) then HashMismatch
      else
        var signature := Decode(m["signature"]);
        if signature.None? then Failed
        else if "public_key_pem" !in m || m["public_key_pem"] == "" then MissingPublicKey
        else if c.verify(m["public_key_pem"], signature.value, m - {"signature"}) then Verified
        else Failed
  }

  // ---------------------------------------------------------------- created packages verify

  /** The signature made for this export verifies under the key's public part, which is some text. */
  ghost predicate Signs(c: Crypto, k: Key, e: Export) {
    && c.publicPem(k) != ""
    && c.verify(c.publicPem(k), c.sign(k, Unsigned(c, k, e)), Unsigned(c, k, e))
  }

  lemma {:induction false} UnsignedPart(c: Crypto, k: Key, e: Export)
    ensures var m := Create(c, k, e).manifest;
            && "signature" in m && "payload_sha256" in m && "public_key_pem" in m
            && m["payload_sha256"] == "sha256-" + c.digest(e.payload.canonical) && m["public_key_pem"] == c.publicPem(k)
            && m - {"signature"} == Unsigned(c, k, e)
            && Decode(m["signature"]) == Some(c.sign(k, Unsigned(c, k, e)))
  {
    var unsigned := Unsigned(c, k, e);
    var s := Encode(c.sign(k, unsigned));
    assert unsigned["signature" := s] - {"signature"} == unsigned;
    RoundTrip(c.sign(k, unsigned));
  }

  /** What a created package verifies against, by object, by base64url text, or by both. */
  lemma {:induction false} CreatedPackageVerifies(c: Crypto, k: Key, e: Export)
    requires Signs(c, k, e) && IsObject(e.payload)
    ensures var p := Create(c, k, e);
            && Verify(c, Some(p.payload), None, Some(p.manifest)) == Verified
            && Verify(c, None, Some(p.payloadB64), Some(p.manifest)) == Verified
            && Verify(c, Some(p.payload), Some(p.payloadB64), Some(p.manifest)) == Verified
  {
    UnsignedPart(c, k, e);
    RoundTrip(e.payload.canonical);
    RepaddingRestores(e.payload.canonical);
  }

  /** The manifest carries every descriptive field of the export, the digest, the key and a signature, no more. */
  lemma {:induction false} ManifestCarriesTheExport(c: Crypto, k: Key, e: Export)
    ensures var p := Create(c, k, e);
            var m := p.manifest;
            && p.payload == e.payload && Decode(p.payloadB64) == Some(e.payload.canonical)
            && "payload_sha256" in m && m["payload_sha256"] == "sha256-" + c.digest(e.payload.canonical)
            && "public_key_pem" in m && m["public_key_pem"] == c.publicPem(k) && "signature" in m
            && forall field | field !in {"signature", "payload_sha256", "public_key_pem"} ::
                 (field in m <==> field in e.facts) && (field in m ==> m[field] == e.facts[field])
  {
    UnsignedPart(c, k, e);
    RoundTrip(e.payload.canonical);
  }

  /** Without a signature, without a payload, or with another payload, the reason is named. */
  lemma {:induction false} RefusalsAreNamed(c: Crypto, k: Key, e: Export, other: Payload)
    requires other != e.payload && IsObject(other)
    requires forall bytes :: c.digest(bytes) == c.digest(e.payload.canonical) ==> bytes == e.payload.canonical
    ensures var m := Create(c, k, e).manifest;
            && Verify(c, Some(e.payload), None, None) == MissingManifest
            && Verify(c, Some(e.payload), None, Some(m - {"signature"})) == MissingManifest
            && Verify(c, None, None, Some(m)) == Verify(c, None, Some(""), Some(m)) == MissingPayload
            && Verify(c, Some(other), None, Some(m)) == Verdict.HashMismatch
            && Verify(c, Some(e.payload), Some(Encode(other.canonical)), Some(m)) == Verdict.HashMismatch
  {
    UnsignedPart(c, k, e);
    RoundTrip(other.canonical);
    RepaddingRestores(other.canonical);
    if "sha256-" + c.digest(e.payload.canonical) == "sha256-" + c.digest(other.canonical) {
      SameDigestText(c.digest(e.payload.canonical), c.digest(other.canonical));
    }
  }

  // ---------------------------------------------------------------- what else verifies

  /**
   What is assumed of a scheme once some exports were signed with a key: whatever the signature, only their
   manifests verify under that key, and their digests are no other payload's.
   */
  ghost predicate Unforgeable(c: Crypto, k: Key, made: seq<Export>) {
    && (forall signature, m :: c.verify(c.publicPem(k), signature, m) ==>
        exists i :: 0 <= i < |made| && m == Unsigned(c, k, made[i]))
    && (forall i, bytes :: 0 <= i < |made| && c.digest(bytes) == c.digest(made[i].payload.canonical) ==>
          bytes == made[i].payload.canonical)
  }

  /** The package shows an export: its bytes, and its whole unsigned manifest. */
  predicate Shows(c: Crypto, k: Key, e: Export, bytes: Option<seq<Byte>>, m: Manifest) {
    bytes == Some(e.payload.canonical) && m - {"signature"} == Unsigned(c, k, e)
  }

  lemma {:induction false} SameDigestText(a: string, b: string)
    requires "sha256-" + a == "sha256-" + b
    ensures a == b
  {
    assert ("sha256-" + a)[7..] == a && ("sha256-" + b)[7..] == b;
  }

  lemma {:induction false} SignedIsShown(c: Crypto, k: Key, e: Export, bytes: seq<Byte>, m: Manifest)
    requires m - {"signature"} == Unsigned(c, k, e)
    requires "payload_sha256" in m && m["payload_sha256"] == "sha256-" + c.digest(bytes)
    ensures c.digest(bytes) == c.digest(e.payload.canonical)
  {
    assert (m - {"signature"})["payload_sha256"] == m["payload_sha256"];
    SameDigestText(c.digest(bytes), c.digest(e.payload.canonical));
  }

  /**
   Under a key, exactly the exports made with it verify: a package whose manifest names the key, in whatever form
   it shows its payload and with whatever signature, is accepted if and only if it shows one of those exports, payload
   and every field alike, with a signature that verifies for it.
   */
  lemma {:induction false} ExactlyTheExportsVerify(
    c: Crypto, k: Key, made: seq<Export>, payload: Option<Payload>, payloadB64: Option<string>, m: Manifest)
    requires Unforgeable(c, k, made) && c.publicPem(k) != ""
    requires "public_key_pem" in m && m["public_key_pem"] == c.publicPem(k)
    ensures Verify(c, payload, payloadB64, Some(m)) == Verified
            <==> && "signature" in m && Decode(m["signature"]).Some?
                 && c.verify(c.publicPem(k), Decode(m["signature"]).value, m - {"signature"})
                 && exists i :: 0 <= i < |made| && Shows(c, k, made[i], ShownBytes(payload, payloadB64), m)
  {
    var bytes := ShownBytes(payload, payloadB64);
    if Verify(c, payload, payloadB64, Some(m)) == Verified {
      var i :| 0 <= i < |made| && m - {"signature"} == Unsigned(c, k, made[i]);
      SignedIsShown(c, k, made[i], bytes.value, m);
      assert Shows(c, k, made[i], bytes, m);
    } else if i :| 0 <= i < |made| && Shows(c, k, made[i], bytes, m) {
      assert (m - {"signature"})["payload_sha256"] == "sha256-" + c.digest(made[i].payload.canonical);
    }
  }

  /** Another payload is accepted with a created manifest exactly when it is the same object. */
  lemma {:induction false} OnlyThePayloadVerifies(c: Crypto, k: Key, e: Export, other: Payload)
    requires Signs(c, k, e) && IsObject(other)
    requires forall bytes :: c.digest(bytes) == c.digest(e.payload.canonical) ==> bytes == e.payload.canonical
    ensures Verify(c, Some(other), None, Some(Create(c, k, e).manifest)) == Verified <==> other == e.payload
    ensures Verify(c, None, Some(Encode(other.canonical)), Some(Create(c, k, e).manifest)) == Verified
        <==> other == e.payload
  {
    UnsignedPart(c, k, e);
    RoundTrip(other.canonical);
    RepaddingRestores(other.canonical);
    if "sha256-" + c.digest(e.payload.canonical) == "sha256-" + c.digest(other.canonical) {
      SameDigestText(c.digest(e.payload.canonical), c.digest(other.canonical));
    }
  }

  /**
   The key is taken from the manifest itself, so a verdict does not depend on who signed: for every key and every
   payload there is an accepted package with the descriptive fields of any other.
   */
  lemma {:induction false} EveryKeyIsAccepted(c: Crypto, k: Key, e: Export, k': Key, other: Payload)
    requires Signs(c, k', Export(other, e.facts)) && IsObject(other)
    ensures var p := Create(c, k', Export(other, e.facts));
            && Verify(c, Some(p.payload), None, Some(p.manifest)) == Verified
            && forall field | field in Create(c, k, e).manifest ::
                 field !in {"signature", "payload_sha256", "public_key_pem"} ==>
                   field in p.manifest && p.manifest[field] == Create(c, k, e).manifest[field]
  {
    CreatedPackageVerifies(c, k', Export(other, e.facts));
  }

  // ---------------------------------------------------------------- the assumptions can be met

  /** A scheme that accepts a given set of manifests and tells all payloads apart. */
  function Toy(signed: set<Manifest>): Crypto {
    Crypto(bytes => Encode(bytes), (k, m) => [], (pem, signature, m) => m in signed, k => "pem")
  }

  function SignedManifests(c: Crypto, k: Key, made: seq<Export>): set<Manifest> {
    set i | 0 <= i < |made| :: Unsigned(c, k, made[i])
  }

  lemma {:induction false} SchemeExists(k: Key, made: seq<Export>) returns (c: Crypto)
    ensures Unforgeable(c, k, made) && forall i :: 0 <= i < |made| ==> Signs(c, k, made[i])
  {
    var signed := SignedManifests(Toy({}), k, made);
    c := Toy(signed);
    forall i | 0 <= i < |made| ensures Unsigned(c, k, made[i]) == Unsigned(Toy({}), k, made[i]) { }
    forall i, bytes | 0 <= i < |made| && c.digest(bytes) == c.digest(made[i].payload.canonical)
      ensures bytes == made[i].payload.canonical
    {
      RoundTrip(bytes);
      RoundTrip(made[i].payload.canonical);
    }
  }
}
