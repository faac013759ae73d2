/**
 The records of the evidence ledger of store.py and checkpoints.py, and their digests.
 */
module EvidenceRecords {
  import opened Wrappers
  import opened CanonicalJson
  import opened CanonicalJsonProofs
  import opened Integrity
  import opened JsonbColumn

  /** An artifact by type and id; types are "run", "comparison" and "guardrail_evidence". */
  datatype Key = Key(artifactType: string, artifactId: string)

  predicate IsArtifactType(t: string) {
    t == "run" || t == "comparison" || t == "guardrail_evidence"
  }

  /** What the ledger records of an artifact: its digest and its signature, all or none of which is set. */
  datatype Envelope = Envelope(
    payloadSha: string,
    algorithm: Option<string>,
    keyId: Option<string>,
    signature: Option<string>)

  /** One row of artifact_ledger; the recording time, which no digest covers, is left out. */
  datatype Row = Row(sequence: int, key: Key, envelope: Envelope, previous: string, entry: string)

  /** One row of a source table, with the payload as the column gives it back. */
  datatype Source = Source(payload: Json, envelope: Envelope)

  datatype CheckpointPayload = CheckpointPayload(
    checkpointId: string, tenantId: string, sequence: int, entries: int, head: string,
    createdAt: int, retentionUntil: int)

  /** `SignedLedgerCheckpoint` */
  datatype SignedCheckpoint = SignedCheckpoint(
    payload: CheckpointPayload, payloadSha: string, algorithm: string, keyId: string, signature: string)

  function OptionalText(o: Option<string>): (j: Json) {
    if o.None? then Null else Str(o.value)
  }

  function EntryFields(tenant: string, sequence: int, key: Key, e: Envelope, previous: string): (fields: seq<Field>) {
    [ Field("tenant_id", Str(tenant)),
      Field("sequence", Int(sequence)),
      Field("artifact_type", Str(key.artifactType)),
      Field("artifact_id", Str(key.artifactId)),
      Field("payload_sha256", Str(e.payloadSha)),
      Field("signature_algorithm", OptionalText(e.algorithm)),
      Field("signing_key_id", OptionalText(e.keyId)),
      Field("signature", OptionalText(e.signature)),
      Field("previous_entry_sha256", Str(previous)) ]
  }

  lemma EntryFieldsRecord(tenant: string, sequence: int, key: Key, e: Envelope, previous: string)
    ensures IsRecord(EntryFields(tenant, sequence, key, e, previous))
  {
    var fields := EntryFields(tenant, sequence, key, e, previous);
    assert fields[0].key[0] == 't' && fields[1].key[1] == 'e' && fields[2].key[9] == 't' && fields[3].key[9] == 'i';
    assert fields[4].key[1] == 'a' && fields[8].key[1] == 'r';
    assert |fields[5].key| == 19 && |fields[6].key| == 14 && |fields[7].key| == 9;
  }

  /** Under which name each part of an entry is hashed. */
  lemma EntryFieldsSay(tenant: string, sequence: int, key: Key, e: Envelope, previous: string)
    ensures var fields := EntryFields(tenant, sequence, key, e, previous);
            && |fields| == 9
            && Field("tenant_id", Str(tenant)) in fields && Field("sequence", Int(sequence)) in fields
            && Field("artifact_type", Str(key.artifactType)) in fields
            && Field("artifact_id", Str(key.artifactId)) in fields
            && Field("payload_sha256", Str(e.payloadSha)) in fields
            && Field("signature_algorithm", if e.algorithm.Some? then Str(e.algorithm.value) else Null) in fields
            && Field("signing_key_id", if e.keyId.Some? then Str(e.keyId.value) else Null) in fields
            && Field("signature", if e.signature.Some? then Str(e.signature.value) else Null) in fields
            && Field("previous_entry_sha256", Str(previous)) in fields
  {
    var fields := EntryFields(tenant, sequence, key, e, previous);
    assert fields[0] in fields && fields[1] in fields && fields[2] in fields && fields[3] in fields;
    assert fields[4] in fields && fields[5] in fields && fields[6] in fields && fields[7] in fields;
    assert fields[8] in fields;
  }

  /** `ledger_entry_digest`. */
  function LedgerEntryDigest(sha: string -> string, tenant: string, sequence: int, key: Key, e: Envelope,
                             previous: string): (digest: string)
  {
    ArtifactDigest(sha, Obj(EntryFields(tenant, sequence, key, e, previous)))
  }

  /** All of a row that its digest covers, beside the tenant. */
  predicate SameContent(r: Row, s: Row) {
    r.sequence == s.sequence && r.key == s.key && r.envelope == s.envelope && r.previous == s.previous
  }

  function EntryText(tenant: string, r: Row): (text: string) {
    HashedText(Obj(EntryFields(tenant, r.sequence, r.key, r.envelope, r.previous)))
  }

  /** Rows of one tenant with the same digest have the same content, or their texts collide. */
  lemma EntryDigestBinds(sha: string -> string, tenant: string, r: Row, s: Row)
    requires LedgerEntryDigest(sha, tenant, r.sequence, r.key, r.envelope, r.previous)
             == LedgerEntryDigest(sha, tenant, s.sequence, s.key, s.envelope, s.previous)
    ensures SameContent(r, s) || HashCollision(sha, EntryText(tenant, r), EntryText(tenant, s))
  {
    var fs := EntryFields(tenant, r.sequence, r.key, r.envelope, r.previous);
    var gs := EntryFields(tenant, s.sequence, s.key, s.envelope, s.previous);
    EntryFieldsRecord(tenant, r.sequence, r.key, r.envelope, r.previous);
    EntryFieldsRecord(tenant, s.sequence, s.key, s.envelope, s.previous);
    RecordDigestBinds(sha, fs, gs);
    if fs == gs {
      EntryFieldsInjective(tenant, r, s);
    }
  }

  lemma EntryFieldsInjective(tenant: string, r: Row, s: Row)
    requires EntryFields(tenant, r.sequence, r.key, r.envelope, r.previous)
             == EntryFields(tenant, s.sequence, s.key, s.envelope, s.previous)
    ensures SameContent(r, s)
  {
    var fs := EntryFields(tenant, r.sequence, r.key, r.envelope, r.previous);
    var gs := EntryFields(tenant, s.sequence, s.key, s.envelope, s.previous);
    assert fs[1] == gs[1] && fs[2] == gs[2] && fs[3] == gs[3] && fs[4] == gs[4];
    assert fs[5] == gs[5] && fs[6] == gs[6] && fs[7] == gs[7] && fs[8] == gs[8];
  }

  function PayloadFields(p: CheckpointPayload): (fields: seq<Field>) {
    [ Field("schema_version", Str("1.0")),
      Field("checkpoint_id", Str(p.checkpointId)),
      Field("tenant_id", Str(p.tenantId)),
      Field("ledger_sequence", Int(p.sequence)),
      Field("ledger_entries", Int(p.entries)),
      Field("ledger_head_sha256", Str(p.head)),
      Field("created_at", Int(p.createdAt)),
      Field("retention_until", Int(p.retentionUntil)) ]
  }

  lemma PayloadFieldsRecord(p: CheckpointPayload)
    ensures IsRecord(PayloadFields(p))
  {
    var f := PayloadFields(p);
    assert |f[0].key| == 14 && |f[1].key| == 13 && |f[2].key| == 9 && |f[3].key| == 15;
    assert |f[4].key| == 14 && |f[5].key| == 18 && |f[6].key| == 10 && |f[7].key| == 15;
    assert f[0].key[0] == 's' && f[4].key[0] == 'l' && f[3].key[0] == 'l' && f[7].key[0] == 'r';
  }

  /** Under which name each part of a checkpoint payload is hashed. */
  lemma PayloadFieldsSay(p: CheckpointPayload)
    ensures var fields := PayloadFields(p);
            && |fields| == 8
            && Field("schema_version", Str("1.0")) in fields && Field("checkpoint_id", Str(p.checkpointId)) in fields
            && Field("tenant_id", Str(p.tenantId)) in fields && Field("ledger_sequence", Int(p.sequence)) in fields
            && Field("ledger_entries", Int(p.entries)) in fields && Field("ledger_head_sha256", Str(p.head)) in fields
            && Field("created_at", Int(p.createdAt)) in fields
            && Field("retention_until", Int(p.retentionUntil)) in fields
  {
    var fields := PayloadFields(p);
    assert fields[0] in fields && fields[1] in fields && fields[2] in fields && fields[3] in fields;
    assert fields[4] in fields && fields[5] in fields && fields[6] in fields && fields[7] in fields;
  }

  function CheckpointPayloadDigest(sha: string -> string, p: CheckpointPayload): (digest: string) {
    ArtifactDigest(sha, Obj(PayloadFields(p)))
  }

  function CheckpointText(p: CheckpointPayload): (text: string) {
    HashedText(Obj(PayloadFields(p)))
  }

  lemma PayloadDigestBinds(sha: string -> string, p: CheckpointPayload, q: CheckpointPayload)
    requires CheckpointPayloadDigest(sha, p) == CheckpointPayloadDigest(sha, q)
    ensures p == q || HashCollision(sha, CheckpointText(p), CheckpointText(q))
  {
    PayloadFieldsRecord(p);
    PayloadFieldsRecord(q);
    var fs, gs := PayloadFields(p), PayloadFields(q);
    RecordDigestBinds(sha, fs, gs);
    if fs == gs {
      PayloadFieldsInjective(p, q);
    }
  }

  lemma PayloadFieldsInjective(p: CheckpointPayload, q: CheckpointPayload)
    requires PayloadFields(p) == PayloadFields(q)
    ensures p == q
  {
    var fs, gs := PayloadFields(p), PayloadFields(q);
    assert fs[1] == gs[1] && fs[2] == gs[2] && fs[3] == gs[3] && fs[4] == gs[4];
    assert fs[5] == gs[5] && fs[6] == gs[6] && fs[7] == gs[7];
  }

  // ---- The cryptography the store works with ----

  /**
   Digests of payloads, ledger entries (of a tenant, sequence, key, envelope and previous digest) and
   checkpoint payloads; `sign` maps an algorithm, a key id and a message to a signature, and `verify`
   checks algorithm, key id, message and signature, and is false where the key is unknown.
   */
  datatype Crypto = Crypto(
    artifactDigest: Json -> string,
    entryDigest: (string, int, Key, Envelope, string) -> string,
    checkpointDigest: CheckpointPayload -> string,
    sign: (string, string, string) -> string,
    verify: (string, string, string, string) -> bool)

  /** Digests have the form of SHA-256 digests and see no more than canonical texts, and what is signed verifies. */
  ghost predicate Sound(crypto: Crypto) {
    HexDigests(crypto) && Canonical(crypto) && SignaturesVerify(crypto.sign, crypto.verify)
  }

  ghost predicate HexDigests(crypto: Crypto) {
    && (forall t, n, k, e, p :: IsHexDigest(crypto.entryDigest(t, n, k, e, p)))
    && (forall p :: IsHexDigest(crypto.checkpointDigest(p)))
  }

  /** Signatures are not empty, and they verify. */
  ghost predicate SignaturesVerify(sign: (string, string, string) -> string,
                                   verify: (string, string, string, string) -> bool)
  {
    forall algorithm, key, message :: algorithm == ED25519 || algorithm == HMAC_SHA256 ==>
      && sign(algorithm, key, message) != ""
      && verify(algorithm, key, message, sign(algorithm, key, message))
  }

  ghost predicate IsPayload(j: Json) {
    IsTree(j) && AllFinite(j)
  }

  ghost predicate Canonical(crypto: Crypto) {
    forall a, b :: IsPayload(a) && IsPayload(b) && Same(a, b) ==> crypto.artifactDigest(a) == crypto.artifactDigest(b)
  }

  /** Two rows, two checkpoint payloads or two artifact payloads that differ and have the same digest. */
  ghost predicate EntryCollision(crypto: Crypto, tenant: string, r: Row, s: Row) {
    && !SameContent(r, s)
    && crypto.entryDigest(tenant, r.sequence, r.key, r.envelope, r.previous)
       == crypto.entryDigest(tenant, s.sequence, s.key, s.envelope, s.previous)
  }

  ghost predicate CheckpointCollision(crypto: Crypto, p: CheckpointPayload, q: CheckpointPayload) {
    p != q && crypto.checkpointDigest(p) == crypto.checkpointDigest(q)
  }

  ghost predicate ArtifactCollision(crypto: Crypto, a: Json, b: Json) {
    !Same(a, b) && crypto.artifactDigest(a) == crypto.artifactDigest(b)
  }

  /** The store's own cryptography: every digest is the hash of a canonical JSON text. */
  function HashCrypto(sha: string -> string, sign: (string, string, string) -> string,
                      verify: (string, string, string, string) -> bool): (crypto: Crypto)
  {
    Crypto((payload: Json) => if AllFinite(payload) then ArtifactDigest(sha, payload) else "",
           (tenant, sequence, key, e, previous) => LedgerEntryDigest(sha, tenant, sequence, key, e, previous),
           payload => CheckpointPayloadDigest(sha, payload),
           sign, verify)
  }

  lemma HashCryptoIsCanonical(sha: string -> string, sign: (string, string, string) -> string,
                              verify: (string, string, string, string) -> bool)
    ensures Canonical(HashCrypto(sha, sign, verify))
  {
    forall a, b | IsPayload(a) && IsPayload(b) && Same(a, b)
      ensures ArtifactDigest(sha, a) == ArtifactDigest(sha, b)
    {
      ArtifactDigestBinds(sha, a, b);
    }
  }

  /** What the program relies on: hex digests, and signatures that are not empty and that verify. */
  ghost predicate Working(sha: string -> string, sign: (string, string, string) -> string,
                          verify: (string, string, string, string) -> bool)
  {
    (forall text :: IsHexDigest(sha(text))) && SignaturesVerify(sign, verify)
  }

  lemma HashCryptoIsSound(sha: string -> string, sign: (string, string, string) -> string,
                          verify: (string, string, string, string) -> bool)
    requires Working(sha, sign, verify)
    ensures Sound(HashCrypto(sha, sign, verify))
  {
    HashCryptoIsCanonical(sha, sign, verify);
    HashCryptoIsHex(sha, sign, verify);
  }

  lemma HashCryptoIsHex(sha: string -> string, sign: (string, string, string) -> string,
                        verify: (string, string, string, string) -> bool)
    requires forall text :: IsHexDigest(sha(text))
    ensures HexDigests(HashCrypto(sha, sign, verify))
  {
    var crypto := HashCrypto(sha, sign, verify);
    forall t, n, k, e, p
      ensures IsHexDigest(crypto.entryDigest(t, n, k, e, p))
    {
      HexEntryDigest(sha, t, n, k, e, p);
    }
    forall p
      ensures IsHexDigest(crypto.checkpointDigest(p))
    {
      HexCheckpointDigest(sha, p);
    }
  }

  lemma HexEntryDigest(sha: string -> string, tenant: string, sequence: int, key: Key, e: Envelope, previous: string)
    requires forall text :: IsHexDigest(sha(text))
    ensures IsHexDigest(LedgerEntryDigest(sha, tenant, sequence, key, e, previous))
  {
    var fields := EntryFields(tenant, sequence, key, e, previous);
    assert IsHexDigest(sha(HashedText(Obj(fields))));
  }

  lemma HexCheckpointDigest(sha: string -> string, p: CheckpointPayload)
    requires forall text :: IsHexDigest(sha(text))
    ensures IsHexDigest(CheckpointPayloadDigest(sha, p))
  {
    assert IsHexDigest(sha(CheckpointText(p)));
  }

  /**
   A payload read back from its column has the digest it was saved with exactly when it holds no large
   float, or when the two texts collide.
   */
  lemma DigestOfColumn(crypto: Crypto, payload: Json)
    requires Canonical(crypto) && IsPayload(payload)
    ensures crypto.artifactDigest(Column(payload)) == crypto.artifactDigest(payload) <==>
            Plain(payload) || ArtifactCollision(crypto, Column(payload), payload)
  {
    ColumnIsTree(payload);
    ColumnIsSame(payload);
  }

  /** With it, each of the three collisions is a collision of the hash on two given texts. */
  lemma EntryCollisionIsHashCollision(sha: string -> string, sign: (string, string, string) -> string,
                                      verify: (string, string, string, string) -> bool, tenant: string, r: Row, s: Row)
    requires EntryCollision(HashCrypto(sha, sign, verify), tenant, r, s)
    ensures HashCollision(sha, EntryText(tenant, r), EntryText(tenant, s))
  {
    EntryDigestBinds(sha, tenant, r, s);
  }

  lemma CheckpointCollisionIsHashCollision(sha: string -> string, sign: (string, string, string) -> string,
                                           verify: (string, string, string, string) -> bool,
                                           p: CheckpointPayload, q: CheckpointPayload)
    requires CheckpointCollision(HashCrypto(sha, sign, verify), p, q)
    ensures HashCollision(sha, CheckpointText(p), CheckpointText(q))
  {
    PayloadDigestBinds(sha, p, q);
  }

  lemma ArtifactCollisionIsHashCollision(sha: string -> string, sign: (string, string, string) -> string,
                                         verify: (string, string, string, string) -> bool, a: Json, b: Json)
    requires IsTree(a) && IsTree(b) && AllFinite(a) && AllFinite(b)
    requires ArtifactCollision(HashCrypto(sha, sign, verify), a, b)
    ensures HashCollision(sha, HashedText(a), HashedText(b))
  {
    ArtifactDigestBinds(sha, a, b);
  }
}
