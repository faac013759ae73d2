/**
 The evidence side of store.py: saving artifacts with their ledger entries and creating checkpoints,
 each one transaction under the tenant's ledger lock.
 */
module EvidenceStore {
  import opened Wrappers
  import opened CanonicalJson
  import opened Integrity
  import opened JsonbColumn
  import opened EvidenceRecords
  import opened EvidenceLedger

  const MICROSECONDS_PER_DAY := 24 * 3600 * 1_000_000
  const FIVE_MINUTES := 5 * 60 * 1_000_000

  // ---- Checkpoints ----

  /** One row of ledger_checkpoints; `payload` is None when the stored JSON is not a checkpoint payload. */
  datatype CheckpointRow = CheckpointRow(
    checkpointId: string, sequence: int, entries: int, head: string, createdAt: int, retentionUntil: int,
    payload: Option<CheckpointPayload>, payloadSha: string, algorithm: string, keyId: string, signature: string)

  function CheckpointMessage(c: SignedCheckpoint): (message: string) {
    SignatureMessage("ledger_checkpoint", c.payload.checkpointId, c.payloadSha)
  }

  /** What the pydantic models of a payload and of an envelope demand. */
  predicate WellFormedPayload(p: CheckpointPayload) {
    p.sequence >= 0 && p.entries >= 0 && IsHexDigest(p.head) && p.retentionUntil > p.createdAt
  }

  predicate WellFormedEnvelope(payloadSha: string, algorithm: string, keyId: string, signature: string) {
    IsHexDigest(payloadSha) && algorithm == ED25519 && IsKeyId(keyId) && signature != ""
  }

  /** `verify_checkpoint`. */
  predicate VerifyCheckpoint(crypto: Crypto, c: SignedCheckpoint) {
    && crypto.checkpointDigest(c.payload) == c.payloadSha
    && crypto.verify(c.algorithm, c.keyId,
                     SignatureMessage("ledger_checkpoint", c.payload.checkpointId, crypto.checkpointDigest(c.payload)),
                     c.signature)
  }

  function RowOf(c: SignedCheckpoint): (row: CheckpointRow) {
    var p := c.payload;
    CheckpointRow(p.checkpointId, p.sequence, p.entries, p.head, p.createdAt, p.retentionUntil,
                  Some(p), c.payloadSha, c.algorithm, c.keyId, c.signature)
  }

  /** The signed checkpoint that a row holds. */
  function SignedOf(c: CheckpointRow): (signed: SignedCheckpoint)
    requires c.payload.Some?
  {
    SignedCheckpoint(c.payload.value, c.payloadSha, c.algorithm, c.keyId, c.signature)
  }

  // ---- The tables of one tenant ----

  datatype State = State(rows: seq<Row>, sources: map<Key, Source>, checkpoints: seq<CheckpointRow>)

  const EmptyState := State([], map[], [])

  /**
   Why a save may be refused: a NaN or an infinity, a text the column refuses, an id in use, or a
   ledger entry with another envelope.
   */
  datatype SaveOutcome = Saved | NotCanonical | NotStorable | DuplicateArtifact | LedgerConflict

  datatype Signer = Signer(algorithm: string, keyId: string)

  /** The ledger row of an artifact, if it has one. */
  function FindEntry(rows: seq<Row>, key: Key): (found: Option<Row>)
    ensures found.Some? ==> found.value in rows && found.value.key == key
    ensures found.None? <==> forall row :: row in rows ==> row.key != key
  {
    if rows == [] then None
    else
      assert rows == [rows[0]] + rows[1..];
      if rows[0].key == key then Some(rows[0]) else FindEntry(rows[1..], key)
  }

  function NextRow(crypto: Crypto, tenant: string, rows: seq<Row>, key: Key, e: Envelope): (row: Row) {
    Row(|rows| + 1, key, e, Head(rows), crypto.entryDigest(tenant, |rows| + 1, key, e, Head(rows)))
  }

  /** `_append_ledger_values`: nothing for a known artifact with the same envelope, an error for another envelope. */
  function AppendValues(crypto: Crypto, tenant: string, rows: seq<Row>, key: Key, e: Envelope)
    : (result: Option<seq<Row>>)
  {
    var existing := FindEntry(rows, key);
    if existing.None? then Some(rows + [NextRow(crypto, tenant, rows, key, e)])
    else if existing.value.envelope != e then None
    else Some(rows)
  }

  function SignArtifact(crypto: Crypto, key: Key, digest: string, signer: Option<Signer>): (e: Envelope) {
    match signer
    case None => Envelope(digest, None, None, None)
    case Some(s) =>
      Envelope(digest, Some(s.algorithm), Some(s.keyId),
               Some(crypto.sign(s.algorithm, s.keyId, SignatureMessage(key.artifactType, key.artifactId, digest))))
  }

  /**
   A save as one transaction: the digest is that of the payload given, what is stored is its column.
   `replace` tells `save_run`, which updates the row of a run saved before,
   from the saves of comparisons and guardrail evidence, which only insert.
   */
  function Save(crypto: Crypto, tenant: string, s: State, key: Key, payload: Json, signer: Option<Signer>,
                replace: bool)
    : (result: (State, SaveOutcome))
  {
    if !AllFinite(payload) then (s, NotCanonical)
    else if !Storable(payload) then (s, NotStorable)
    else if !replace && key in s.sources then (s, DuplicateArtifact)
    else
      var e := SignArtifact(crypto, key, crypto.artifactDigest(payload), signer);
      match AppendValues(crypto, tenant, s.rows, key, e)
      case None => (s, LedgerConflict)
      case Some(rows) => (s.(rows := rows, sources := s.sources[key := Source(Column(payload), e)]), Saved)
  }

  /** A checkpoint of the present head that is at most five minutes old. */
  predicate Reusable(s: State, c: CheckpointRow, now: int) {
    c.sequence == |s.rows| && c.head == Head(s.rows) && c.createdAt >= now - FIVE_MINUTES
  }

  function NewCheckpoint(crypto: Crypto, tenant: string, s: State, id: string, now: int, days: int, keyId: string)
    : (c: SignedCheckpoint)
  {
    var p := CheckpointPayload(id, tenant, |s.rows|, |s.rows|, Head(s.rows), now, now + days * MICROSECONDS_PER_DAY);
    var digest := crypto.checkpointDigest(p);
    SignedCheckpoint(p, digest, ED25519, keyId,
                     crypto.sign(ED25519, keyId, SignatureMessage("ledger_checkpoint", id, digest)))
  }

  predicate IdTaken(checkpoints: seq<CheckpointRow>, id: string) {
    exists c :: c in checkpoints && c.checkpointId == id
  }

  /**
   `create_ledger_checkpoint` once its arguments are checked: reuse, or sign and insert. An id in use
   violates the primary key and changes nothing.
   */
  function Checkpoint(crypto: Crypto, tenant: string, s: State, id: string, now: int, days: int, keyId: string)
    : (s': State)
  {
    if (exists c :: c in s.checkpoints && Reusable(s, c, now)) || IdTaken(s.checkpoints, id) then s
    else s.(checkpoints := s.checkpoints + [RowOf(NewCheckpoint(crypto, tenant, s, id, now, days, keyId))])
  }

  // ---- What every transaction keeps ----

  /**
   The envelope holds the payload's digest; and with a signer, the signer's names and its signature on
   type, id and digest, which verifies, but without one nothing more.
   */
  ghost predicate SignedAs(crypto: Crypto, key: Key, e: Envelope, payload: Json, signer: Option<Signer>) {
    && e.payloadSha == crypto.artifactDigest(payload)
    && match signer
       case None => e.algorithm == None && e.keyId == None && e.signature == None
       case Some(s) =>
         var message := "aecontrol:v1:" + key.artifactType + ":" + key.artifactId + ":" + e.payloadSha;
         && e.algorithm == Some(s.algorithm) && e.keyId == Some(s.keyId)
         && e.signature == Some(crypto.sign(s.algorithm, s.keyId, message))
         && crypto.verify(s.algorithm, s.keyId, message, crypto.sign(s.algorithm, s.keyId, message))
  }

  /** The artifact is stored, and its ledger row has its envelope. */
  ghost predicate StoredAs(crypto: Crypto, s: State, key: Key, payload: Json, signer: Option<Signer>) {
    && key in s.sources && SignedAs(crypto, key, s.sources[key].envelope, payload, signer)
    && FindEntry(s.rows, key).Some? && FindEntry(s.rows, key).value.envelope == s.sources[key].envelope
  }

  /** Whatever a save stores is signed as it was asked to be, in the source table and in the ledger. */
  lemma SaveSigns(crypto: Crypto, tenant: string, s: State, key: Key, payload: Json, signer: Option<Signer>,
                  replace: bool)
    requires Sound(crypto) && Invariant(crypto, tenant, s)
    requires IsArtifactType(key.artifactType) && payload.Obj? && IsTree(payload)
    requires signer.Some? ==> signer.value.algorithm == ED25519 || signer.value.algorithm == HMAC_SHA256
    ensures var (s', outcome) := Save(crypto, tenant, s, key, payload, signer, replace);
            outcome == Saved ==> StoredAs(crypto, s', key, payload, signer) && (replace || key !in s.sources)
  {
    var (s', outcome) := Save(crypto, tenant, s, key, payload, signer, replace);
    if outcome == Saved {
      SaveKeepsInvariant(crypto, tenant, s, key, payload, signer, replace);
      SignedAsAsked(crypto, key, payload, signer);
      assert FindEntry(s'.rows, key).Some?;
      assert Backed(crypto, FindEntry(s'.rows, key).value, s'.sources);
    }
  }

  lemma SignedAsAsked(crypto: Crypto, key: Key, payload: Json, signer: Option<Signer>)
    requires Sound(crypto)
    requires signer.Some? ==> signer.value.algorithm == ED25519 || signer.value.algorithm == HMAC_SHA256
    ensures SignedAs(crypto, key, SignArtifact(crypto, key, crypto.artifactDigest(payload), signer), payload, signer)
  {
  }

  ghost predicate CompleteSignature(crypto: Crypto, key: Key, e: Envelope) {
    || (e.algorithm.None? && e.keyId.None? && e.signature.None?)
    || (e.algorithm.Some? && e.keyId.Some? && e.signature.Some?
        && crypto.verify(e.algorithm.value, e.keyId.value,
                         SignatureMessage(key.artifactType, key.artifactId, e.payloadSha), e.signature.value))
  }

  /** What is read back has the recorded digest, and its signature checks out. */
  ghost predicate Intact(crypto: Crypto, key: Key, source: Source) {
    source.envelope.payloadSha == crypto.artifactDigest(source.payload)
    && CompleteSignature(crypto, key, source.envelope)
  }

  /** The row holds the column of the payload given, and that payload's digest. */
  ghost predicate HoldsGiven(crypto: Crypto, source: Source, payload: Json) {
    && payload.Obj? && IsPayload(payload)
    && source.payload == Column(payload) && source.envelope.payloadSha == crypto.artifactDigest(payload)
  }

  /** `given` are the payloads that the rows were last saved with. */
  ghost predicate Stores(crypto: Crypto, sources: map<Key, Source>, given: map<Key, Json>) {
    sources.Keys == given.Keys && forall key :: key in sources ==> HoldsGiven(crypto, sources[key], given[key])
  }

  /** The failing family: a large float, unless its two texts collide. */
  ghost predicate ReadsBack(crypto: Crypto, payload: Json) {
    Plain(payload) || ArtifactCollision(crypto, Column(payload), payload)
  }

  /** The checkpoint describes the chain as it was when its length was `sequence`. */
  ghost predicate Anchors(crypto: Crypto, tenant: string, c: CheckpointRow, rows: seq<Row>) {
    && c.payload.Some? && WellFormedPayload(c.payload.value)
    && WellFormedEnvelope(c.payloadSha, c.algorithm, c.keyId, c.signature)
    && VerifyCheckpoint(crypto, SignedOf(c))
    && c == RowOf(SignedOf(c))
    && c.payload.value.tenantId == tenant
    && 0 <= c.sequence <= |rows| && c.entries == c.sequence
    && c.head == Head(rows[..c.sequence])
  }

  ghost predicate UniqueKeys(rows: seq<Row>) {
    forall i, j :: 0 <= i < j < |rows| ==> rows[i].key != rows[j].key
  }

  ghost predicate Backed(crypto: Crypto, row: Row, sources: map<Key, Source>) {
    && IsArtifactType(row.key.artifactType)
    && row.key in sources && sources[row.key].envelope == row.envelope
    && CompleteSignature(crypto, row.key, row.envelope)
  }

  ghost predicate AllRecorded(sources: map<Key, Source>, rows: seq<Row>) {
    forall key :: key in sources ==> FindEntry(rows, key).Some?
  }

  /**
   The chain is whole, every row's artifact is stored with the row's envelope, every stored artifact
   has one row, and every checkpoint anchors a prefix of the chain.
   */
  ghost predicate Invariant(crypto: Crypto, tenant: string, s: State) {
    && Chained(crypto, tenant, s.rows)
    && UniqueKeys(s.rows)
    && (forall row :: row in s.rows ==> Backed(crypto, row, s.sources))
    && AllRecorded(s.sources, s.rows)
    && (forall c :: c in s.checkpoints ==> Anchors(crypto, tenant, c, s.rows))
    && (forall i, j :: 0 <= i < j < |s.checkpoints| ==> s.checkpoints[i].checkpointId != s.checkpoints[j].checkpointId)
  }

  /** In a store that keeps the invariant, an artifact is intact exactly when its payload reads back. */
  lemma StoredIsIntact(crypto: Crypto, tenant: string, s: State, given: map<Key, Json>, key: Key)
    requires Canonical(crypto) && Invariant(crypto, tenant, s) && Stores(crypto, s.sources, given) && key in s.sources
    ensures Intact(crypto, key, s.sources[key]) <==> ReadsBack(crypto, given[key])
  {
    DigestOfColumn(crypto, given[key]);
    assert HoldsGiven(crypto, s.sources[key], given[key]);
    assert FindEntry(s.rows, key).Some?;
    assert Backed(crypto, FindEntry(s.rows, key).value, s.sources);
  }

  lemma AnchorsLonger(crypto: Crypto, tenant: string, c: CheckpointRow, rows: seq<Row>, longer: seq<Row>)
    requires Anchors(crypto, tenant, c, rows) && rows <= longer
    ensures Anchors(crypto, tenant, c, longer)
  {
    assert longer[..c.sequence] == rows[..c.sequence];
  }

  lemma FoundLonger(rows: seq<Row>, row: Row, key: Key)
    requires FindEntry(rows, key).Some? || row.key == key
    ensures FindEntry(rows + [row], key).Some?
  {
    var longer := rows + [row];
    if FindEntry(rows, key).Some? {
      assert FindEntry(rows, key).value in longer;
    } else {
      assert longer[|rows|].key == key;
    }
  }

  lemma AppendKeepsRows(crypto: Crypto, tenant: string, s: State, key: Key, source: Source)
    requires Invariant(crypto, tenant, s) && FindEntry(s.rows, key).None?
    requires IsArtifactType(key.artifactType) && CompleteSignature(crypto, key, source.envelope)
    ensures Invariant(crypto, tenant,
                      s.(rows := s.rows + [NextRow(crypto, tenant, s.rows, key, source.envelope)],
                         sources := s.sources[key := source]))
  {
    var row := NextRow(crypto, tenant, s.rows, key, source.envelope);
    ChainAppend(crypto, tenant, s.rows, row);
    AppendKeepsBacking(crypto, s.rows, s.sources, row, key, source);
    AppendKeepsRecords(s.rows, s.sources, row, key, source);
    forall c | c in s.checkpoints
      ensures Anchors(crypto, tenant, c, s.rows + [row])
    {
      AnchorsLonger(crypto, tenant, c, s.rows, s.rows + [row]);
    }
  }

  lemma AppendKeepsBacking(crypto: Crypto, rows: seq<Row>, sources: map<Key, Source>, row: Row, key: Key,
                           source: Source)
    requires UniqueKeys(rows) && FindEntry(rows, key).None?
    requires forall r :: r in rows ==> Backed(crypto, r, sources)
    requires row.key == key && row.envelope == source.envelope
    requires IsArtifactType(key.artifactType) && CompleteSignature(crypto, key, source.envelope)
    ensures UniqueKeys(rows + [row])
    ensures forall r :: r in rows + [row] ==> Backed(crypto, r, sources[key := source])
  {
    forall r | r in rows + [row]
      ensures Backed(crypto, r, sources[key := source])
    {
      assert r == row || Backed(crypto, r, sources);
    }
  }

  lemma AppendKeepsRecords(rows: seq<Row>, sources: map<Key, Source>, row: Row, key: Key, source: Source)
    requires AllRecorded(sources, rows) && row.key == key
    ensures AllRecorded(sources[key := source], rows + [row])
  {
    forall k | k in sources[key := source]
      ensures FindEntry(rows + [row], k).Some?
    {
      FoundLonger(rows, row, k);
    }
  }

  lemma EntryUnique(rows: seq<Row>, row: Row)
    requires UniqueKeys(rows) && row in rows
    ensures FindEntry(rows, row.key) == Some(row)
  {
    var found := FindEntry(rows, row.key).value;
    var i :| 0 <= i < |rows| && rows[i] == row;
    var j :| 0 <= j < |rows| && rows[j] == found;
  }

  lemma RewriteKeepsRows(crypto: Crypto, tenant: string, s: State, key: Key, source: Source)
    requires Invariant(crypto, tenant, s) && FindEntry(s.rows, key).Some?
    requires FindEntry(s.rows, key).value.envelope == source.envelope
    ensures Invariant(crypto, tenant, s.(sources := s.sources[key := source]))
  {
    RewriteKeepsBacking(crypto, s.rows, s.sources, key, source);
  }

  lemma RewriteKeepsBacking(crypto: Crypto, rows: seq<Row>, sources: map<Key, Source>, key: Key, source: Source)
    requires UniqueKeys(rows) && FindEntry(rows, key).Some? && FindEntry(rows, key).value.envelope == source.envelope
    requires forall r :: r in rows ==> Backed(crypto, r, sources)
    ensures forall r :: r in rows ==> Backed(crypto, r, sources[key := source])
  {
    forall r | r in rows
      ensures Backed(crypto, r, sources[key := source])
    {
      assert Backed(crypto, r, sources);
      EntryUnique(rows, r);
    }
  }

  lemma SaveKeepsInvariant(crypto: Crypto, tenant: string, s: State, key: Key, payload: Json, signer: Option<Signer>,
                           replace: bool)
    requires Sound(crypto) && Invariant(crypto, tenant, s)
    requires IsArtifactType(key.artifactType) && payload.Obj? && IsTree(payload)
    requires signer.Some? ==> signer.value.algorithm == ED25519 || signer.value.algorithm == HMAC_SHA256
    ensures Invariant(crypto, tenant, Save(crypto, tenant, s, key, payload, signer, replace).0)
  {
    if Save(crypto, tenant, s, key, payload, signer, replace).1 == Saved {
      var source := Source(Column(payload), SignArtifact(crypto, key, crypto.artifactDigest(payload), signer));
      if FindEntry(s.rows, key).None? {
        AppendKeepsRows(crypto, tenant, s, key, source);
      } else {
        RewriteKeepsRows(crypto, tenant, s, key, source);
      }
    }
  }

  /** The payloads given, after a save. */
  function GivenAfter(outcome: SaveOutcome, given: map<Key, Json>, key: Key, payload: Json): (given': map<Key, Json>) {
    if outcome == Saved then given[key := payload] else given
  }

  lemma SaveStores(crypto: Crypto, tenant: string, s: State, given: map<Key, Json>, key: Key, payload: Json,
                   signer: Option<Signer>, replace: bool)
    requires Stores(crypto, s.sources, given) && payload.Obj? && IsTree(payload)
    ensures var (s', outcome) := Save(crypto, tenant, s, key, payload, signer, replace);
            Stores(crypto, s'.sources, GivenAfter(outcome, given, key, payload))
  {
    if Save(crypto, tenant, s, key, payload, signer, replace).1 == Saved {
      var source := Source(Column(payload), SignArtifact(crypto, key, crypto.artifactDigest(payload), signer));
      StoresUpdate(crypto, s.sources, given, key, source, payload);
    }
  }

  lemma StoresUpdate(crypto: Crypto, sources: map<Key, Source>, given: map<Key, Json>, key: Key, source: Source,
                     payload: Json)
    requires Stores(crypto, sources, given) && HoldsGiven(crypto, source, payload)
    ensures Stores(crypto, sources[key := source], given[key := payload])
  {
  }

  lemma SaveEffect(crypto: Crypto, tenant: string, s: State, key: Key, payload: Json, signer: Option<Signer>,
                   replace: bool)
    returns (after: State)
    requires Sound(crypto) && Invariant(crypto, tenant, s)
    requires IsArtifactType(key.artifactType) && payload.Obj? && IsTree(payload)
    requires signer.Some? ==> signer.value.algorithm == ED25519 || signer.value.algorithm == HMAC_SHA256
    ensures after == Save(crypto, tenant, s, key, payload, signer, replace).0
    ensures Invariant(crypto, tenant, after) && s.rows <= after.rows
  {
    SaveKeepsInvariant(crypto, tenant, s, key, payload, signer, replace);
    SaveGrows(crypto, tenant, s, key, payload, signer, replace);
    after := Save(crypto, tenant, s, key, payload, signer, replace).0;
  }

  lemma SaveGrows(crypto: Crypto, tenant: string, s: State, key: Key, payload: Json, signer: Option<Signer>,
                  replace: bool)
    ensures s.rows <= Save(crypto, tenant, s, key, payload, signer, replace).0.rows
    ensures s.checkpoints == Save(crypto, tenant, s, key, payload, signer, replace).0.checkpoints
  {
  }

  lemma HeadIsDigest(crypto: Crypto, tenant: string, rows: seq<Row>)
    requires Sound(crypto) && Chained(crypto, tenant, rows)
    ensures IsHexDigest(Head(rows))
  {
    GenesisIsHex();
  }

  lemma CheckpointKeepsInvariant(crypto: Crypto, tenant: string, s: State, id: string, now: int, days: int,
                                 keyId: string)
    requires Sound(crypto) && Invariant(crypto, tenant, s) && 1 <= days <= 3650 && IsKeyId(keyId)
    ensures Invariant(crypto, tenant, Checkpoint(crypto, tenant, s, id, now, days, keyId))
  {
    var c := NewCheckpoint(crypto, tenant, s, id, now, days, keyId);
    NewCheckpointAnchors(crypto, tenant, s, id, now, days, keyId);
    forall d | d in s.checkpoints + [RowOf(c)]
      ensures Anchors(crypto, tenant, d, s.rows)
    {
      assert d in s.checkpoints || d == RowOf(c);
    }
  }

  lemma NewCheckpointAnchors(crypto: Crypto, tenant: string, s: State, id: string, now: int, days: int, keyId: string)
    requires Sound(crypto) && Chained(crypto, tenant, s.rows) && 1 <= days <= 3650 && IsKeyId(keyId)
    ensures Anchors(crypto, tenant, RowOf(NewCheckpoint(crypto, tenant, s, id, now, days, keyId)), s.rows)
  {
    var c := NewCheckpoint(crypto, tenant, s, id, now, days, keyId);
    NewCheckpointVerifies(crypto, tenant, s, id, now, days, keyId);
    assert SignedOf(RowOf(c)) == c;
    assert s.rows[..|s.rows|] == s.rows;
  }

  lemma NewCheckpointVerifies(crypto: Crypto, tenant: string, s: State, id: string, now: int, days: int, keyId: string)
    requires Sound(crypto) && Chained(crypto, tenant, s.rows) && 1 <= days <= 3650 && IsKeyId(keyId)
    ensures var c := NewCheckpoint(crypto, tenant, s, id, now, days, keyId);
            && WellFormedPayload(c.payload) && WellFormedEnvelope(c.payloadSha, c.algorithm, c.keyId, c.signature)
            && VerifyCheckpoint(crypto, c)
  {
    HeadIsDigest(crypto, tenant, s.rows);
    Later(now, days);
  }

  lemma Later(now: int, days: int)
    requires days >= 1
    ensures now + days * MICROSECONDS_PER_DAY > now
  {
  }

  // ---- The store ----

  /** One tenant's evidence tables; every method is one transaction. `given` are the payloads last saved. */
  class ArtifactStore {
    const crypto: Crypto
    const tenant: string
    var rows: seq<Row>
    var sources: map<Key, Source>
    var checkpoints: seq<CheckpointRow>
    ghost var given: map<Key, Json>

    function View(): (s: State)
      reads this
    {
      State(rows, sources, checkpoints)
    }

    ghost predicate Valid()
      reads this
    {
      Sound(crypto) && Invariant(crypto, tenant, View()) && Stores(crypto, sources, given)
    }

    constructor (crypto: Crypto, tenant: string)
      requires Sound(crypto)
      ensures Valid() && View() == EmptyState && this.crypto == crypto && this.tenant == tenant
    {
      this.crypto, this.tenant := crypto, tenant;
      rows, sources, checkpoints := [], map[], [];
      given := map[];
    }

    /** `_append_artifact_ledger`; false stands for the conflict error. */
    method AppendArtifactLedger(key: Key, e: Envelope) returns (appended: bool)
      modifies this`rows
      ensures appended <==> AppendValues(crypto, tenant, old(rows), key, e).Some?
      ensures rows == if appended then AppendValues(crypto, tenant, old(rows), key, e).value else old(rows)
    {
      var existing := FindEntry(rows, key);
      if existing.Some? {
        return existing.value.envelope == e;
      }
      var sequence, previous := |rows| + 1, LEDGER_GENESIS_SHA256;
      if rows != [] {
        previous := rows[|rows| - 1].entry;
      }
      rows := rows + [Row(sequence, key, e, previous, crypto.entryDigest(tenant, sequence, key, e, previous))];
      return true;
    }

    /** Insert or update the artifact and append its ledger entry; a conflict rolls both back. */
    method SaveArtifact(key: Key, payload: Json, signer: Option<Signer>, replace: bool) returns (outcome: SaveOutcome)
      requires Valid() && IsArtifactType(key.artifactType) && payload.Obj? && IsTree(payload)
      requires signer.Some? ==> signer.value.algorithm == "ed25519" || signer.value.algorithm == "hmac-sha256"
      modifies this`rows, this`sources, this`given
      ensures (View(), outcome) == Save(crypto, tenant, old(View()), key, payload, signer, replace)
      ensures given == GivenAfter(outcome, old(given), key, payload)
      ensures Valid() && old(rows) <= rows
      ensures outcome == Saved ==> StoredAs(crypto, View(), key, payload, signer)
      ensures outcome == Saved && !replace ==> key !in old(sources)
    {
      SaveSigns(crypto, tenant, View(), key, payload, signer, replace);
      ghost var after := SaveEffect(crypto, tenant, View(), key, payload, signer, replace);
      SaveStores(crypto, tenant, View(), given, key, payload, signer, replace);
      outcome := WriteArtifact(key, payload, signer, replace);
      given := GivenAfter(outcome, given, key, payload);
      assert View() == after;
    }

    /** The transaction itself. */
    method WriteArtifact(key: Key, payload: Json, signer: Option<Signer>, replace: bool) returns (outcome: SaveOutcome)
      modifies this`rows, this`sources
      ensures (View(), outcome) == Save(crypto, tenant, old(View()), key, payload, signer, replace)
    {
      if !AllFinite(payload) {
        return NotCanonical;
      }
      var digest := crypto.artifactDigest(payload);
      var e := SignArtifact(crypto, key, digest, signer);
      if !Storable(payload) {
        return NotStorable;
      }
      if !replace && key in sources {
        return DuplicateArtifact;
      }
      var before := sources;
      sources := sources[key := Source(Column(payload), e)];
      var appended := AppendArtifactLedger(key, e);
      if !appended {
        sources := before;
        return LedgerConflict;
      }
      return Saved;
    }

    method SaveRun(runId: string, payload: Json, signer: Option<Signer>) returns (outcome: SaveOutcome)
      requires Valid() && payload.Obj? && IsTree(payload)
      requires signer.Some? ==> signer.value.algorithm == "ed25519" || signer.value.algorithm == "hmac-sha256"
      modifies this`rows, this`sources, this`given
      ensures (View(), outcome) == Save(crypto, tenant, old(View()), Key("run", runId), payload, signer, true)
      ensures given == GivenAfter(outcome, old(given), Key("run", runId), payload)
      ensures Valid() && old(rows) <= rows
      ensures outcome == Saved ==> StoredAs(crypto, View(), Key("run", runId), payload, signer)
    {
      outcome := SaveArtifact(Key("run", runId), payload, signer, true);
    }

    method SaveComparison(comparisonId: string, payload: Json, signer: Option<Signer>) returns (outcome: SaveOutcome)
      requires Valid() && payload.Obj? && IsTree(payload)
      requires signer.Some? ==> signer.value.algorithm == "ed25519" || signer.value.algorithm == "hmac-sha256"
      modifies this`rows, this`sources, this`given
      ensures var key := Key("comparison", comparisonId);
              && (View(), outcome) == Save(crypto, tenant, old(View()), key, payload, signer, false)
              && given == GivenAfter(outcome, old(given), key, payload)
      ensures Valid() && old(rows) <= rows
      ensures outcome == Saved ==> StoredAs(crypto, View(), Key("comparison", comparisonId), payload, signer)
      ensures outcome == Saved ==> Key("comparison", comparisonId) !in old(sources)
    {
      outcome := SaveArtifact(Key("comparison", comparisonId), payload, signer, false);
    }

    method SaveGuardrailEvidence(evidenceId: string, payload: Json, signer: Option<Signer>)
      returns (outcome: SaveOutcome)
      requires Valid() && payload.Obj? && IsTree(payload)
      requires signer.Some? ==> signer.value.algorithm == "ed25519" || signer.value.algorithm == "hmac-sha256"
      modifies this`rows, this`sources, this`given
      ensures var key := Key("guardrail_evidence", evidenceId);
              && (View(), outcome) == Save(crypto, tenant, old(View()), key, payload, signer, false)
              && given == GivenAfter(outcome, old(given), key, payload)
      ensures Valid() && old(rows) <= rows
      ensures outcome == Saved ==> StoredAs(crypto, View(), Key("guardrail_evidence", evidenceId), payload, signer)
      ensures outcome == Saved ==> Key("guardrail_evidence", evidenceId) !in old(sources)
    {
      outcome := SaveArtifact(Key("guardrail_evidence", evidenceId), payload, signer, false);
    }

    /** The query for a checkpoint to reuse: ORDER BY created_at DESC LIMIT 1. */
    method LatestReusable(now: int) returns (found: Option<CheckpointRow>)
      ensures found.None? <==> forall c :: c in checkpoints ==> !Reusable(View(), c, now)
      ensures found.Some? ==>
                && found.value in checkpoints && Reusable(View(), found.value, now)
                && forall c :: c in checkpoints && Reusable(View(), c, now) ==> c.createdAt <= found.value.createdAt
    {
      found := None;
      for i := 0 to |checkpoints|
        invariant found.None? <==> forall k :: 0 <= k < i ==> !Reusable(View(), checkpoints[k], now)
        invariant found.Some? ==>
                    && found.value in checkpoints && Reusable(View(), found.value, now)
                    && forall k :: 0 <= k < i && Reusable(View(), checkpoints[k], now) ==>
                      checkpoints[k].createdAt <= found.value.createdAt
      {
        if Reusable(View(), checkpoints[i], now) && (found.None? || found.value.createdAt < checkpoints[i].createdAt) {
          found := Some(checkpoints[i]);
        }
      }
    }

    /**
     `create_ledger_checkpoint`. None stands for its argument errors; otherwise the checkpoint returned
     is stored, verifies, and describes the whole present ledger.
     */
    method CreateLedgerCheckpoint(id: string, now: int, retentionDays: int, activeKey: Option<string>)
      returns (result: Option<SignedCheckpoint>)
      requires Valid() && (activeKey.Some? ==> IsKeyId(activeKey.value))
      requires !IdTaken(checkpoints, id)
      modifies this`checkpoints
      ensures result.None? <==> !(1 <= retentionDays <= 3650) || activeKey.None?
      ensures result.None? ==> checkpoints == old(checkpoints)
      ensures result.Some? ==>
                && View() == Checkpoint(crypto, tenant, old(View()), id, now, retentionDays, activeKey.value)
                && RowOf(result.value) in checkpoints && VerifyCheckpoint(crypto, result.value)
                && result.value.payload.sequence == |rows| && result.value.payload.head == Head(rows)
      ensures result.Some? ==>
                var recent := exists c :: c in old(checkpoints) && c.sequence == |rows| && c.head == Head(rows)
                                          && c.createdAt >= now - 300_000_000;
                && (recent ==> checkpoints == old(checkpoints) && result.value.payload.createdAt >= now - 300_000_000)
                && (!recent ==>
                    && checkpoints == old(checkpoints) + [RowOf(result.value)]
                    && result.value.algorithm == "ed25519" && result.value.keyId == activeKey.value
                    && result.value.payload == CheckpointPayload(id, tenant, |rows|, |rows|, Head(rows), now,
                                                                 now + retentionDays * 86_400_000_000))
      ensures Valid() && old(checkpoints) <= checkpoints
    {
      if !(1 <= retentionDays <= 3650) || activeKey.None? {
        return None;
      }
      CheckpointKeepsInvariant(crypto, tenant, View(), id, now, retentionDays, activeKey.value);
      var existing := LatestReusable(now);
      if existing.Some? {
        var c := existing.value;
        assert Anchors(crypto, tenant, c, rows);
        return Some(SignedOf(c));
      }
      var c := NewCheckpoint(crypto, tenant, State(rows, sources, checkpoints), id, now, retentionDays,
                             activeKey.value);
      NewCheckpointAnchors(crypto, tenant, View(), id, now, retentionDays, activeKey.value);
      checkpoints := checkpoints + [RowOf(c)];
      return Some(c);
    }
  }
}
