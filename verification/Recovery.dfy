/** The recovery verifier of recovery.py: a restored database against a signed checkpoint kept elsewhere. */
module Recovery {
  import opened Wrappers
  import opened Integrity
  import opened EvidenceRecords
  import opened EvidenceLedger
  import opened EvidenceStore

  const MAX_REPORTED_FAILURES := 20
  const MAX_RECOVERY_CHECKPOINTS := 16
  const SCHEMA_VERSION := 18

  datatype Code =
    | SchemaMetadata | SchemaVersion | RecoveryInProgress
    | CheckpointFuture | CheckpointStale | CheckpointSignature | CheckpointMissing | CheckpointMismatch
    | LedgerLimit | LedgerCount | LedgerSequence | LedgerPreviousHash | LedgerEntryHash | LedgerHead
    | ArtifactMissing | ArtifactDigestWrong | ArtifactEnvelope | ArtifactSignature | DatabaseSchema

  datatype Failure = Failure(code: Code, sequence: Option<int>)

  /** The exact number of failures and the first few of them. */
  datatype Tally = Tally(count: nat, failures: seq<Failure>)

  /** What is kept of a list of failures. */
  function TallyOf(all: seq<Failure>): (t: Tally) {
    Tally(|all|, if |all| <= MAX_REPORTED_FAILURES then all else all[..MAX_REPORTED_FAILURES])
  }

  /** `fail`: one more failure, after those found so far. */
  method Fail(before: Tally, ghost found: seq<Failure>, code: Code, sequence: Option<int>)
    returns (t: Tally, ghost found': seq<Failure>)
    requires before == TallyOf(found)
    ensures found' == found + [Failure(code, sequence)] && t == TallyOf(found')
  {
    found' := found + [Failure(code, sequence)];
    var kept := before.failures;
    if |kept| < MAX_REPORTED_FAILURES {
      kept := kept + [Failure(code, sequence)];
    }
    t := Tally(before.count + 1, kept);
  }

  datatype Result = Result(entriesChecked: nat, signed: nat, unsigned: nat, valid: bool, failureCount: nat,
                           truncated: bool, failures: seq<Failure>)

  /** Which of the tables that the verifier reads are there: all, the checkpoints but not the ledger, or neither. */
  datatype Access = AllTables | CheckpointsOnly | NoTables

  /** What the verifier is configured with; times are microseconds. */
  datatype Limits = Limits(maxAge: int, maxEntries: int)

  /** `WHERE sequence <= n ORDER BY sequence`, of a table in sequence order. */
  function RowsUpTo(rows: seq<Row>, n: int): (r: seq<Row>) {
    if rows == [] then []
    else (if rows[0].sequence <= n then [rows[0]] else []) + RowsUpTo(rows[1..], n)
  }

  function FindCheckpoint(checkpoints: seq<CheckpointRow>, id: string): (found: Option<CheckpointRow>)
    ensures found.Some? ==> found.value in checkpoints && found.value.checkpointId == id
    ensures found.None? <==> !IdTaken(checkpoints, id)
  {
    if checkpoints == [] then None
    else
      assert checkpoints == [checkpoints[0]] + checkpoints[1..];
      if checkpoints[0].checkpointId == id then Some(checkpoints[0]) else FindCheckpoint(checkpoints[1..], id)
  }

  /** `_source_envelope`: the artifact a ledger row refers to, if there is one with a payload. */
  function SourceOf(row: Row, sources: map<Key, Source>): (source: Option<Source>) {
    if !IsArtifactType(row.key.artifactType) || row.key !in sources || sources[row.key].payload.Null? then None
    else Some(sources[row.key])
  }

  /** Runs, comparisons and guardrail evidence that are stored with a payload are found, and nothing else is. */
  lemma SourcesByType(row: Row, sources: map<Key, Source>)
    requires row.key in sources && !sources[row.key].payload.Null?
    ensures SourceOf(row, sources) == Some(sources[row.key]) <==>
            || row.key.artifactType == "run"
            || row.key.artifactType == "comparison"
            || row.key.artifactType == "guardrail_evidence"
  {
  }

  // ---- What the verifier accepts ----

  predicate Unsigned(e: Envelope) {
    e.algorithm.None? && e.keyId.None? && e.signature.None?
  }

  /** The row's artifact is there, its payload has the recorded digest, and its envelope is the row's and checks out. */
  ghost predicate Sourced(crypto: Crypto, row: Row, sources: map<Key, Source>) {
    && SourceOf(row, sources).Some?
    && var source := sources[row.key];
       && source.envelope == row.envelope
       && crypto.artifactDigest(source.payload) == row.envelope.payloadSha
       && CompleteSignature(crypto, row.key, row.envelope)
  }

  ghost predicate AllSourced(crypto: Crypto, rows: seq<Row>, sources: map<Key, Source>) {
    forall row :: row in rows ==> Sourced(crypto, row, sources)
  }

  /** The restored rows up to the checkpoint are whole, sourced, as many as it says and end in its head. */
  ghost predicate LedgerAccepted(crypto: Crypto, p: CheckpointPayload, rows: seq<Row>, sources: map<Key, Source>) {
    && |rows| == p.entries && |rows| == p.sequence
    && Chained(crypto, p.tenantId, rows) && AllSourced(crypto, rows, sources) && Head(rows) == p.head
  }

  ghost predicate Persisted(db: State, c: SignedCheckpoint) {
    var row := FindCheckpoint(db.checkpoints, c.payload.checkpointId);
    && row.Some? && row.value.payload == Some(c.payload) && WellFormedPayload(c.payload)
    && WellFormedEnvelope(row.value.payloadSha, row.value.algorithm, row.value.keyId, row.value.signature)
    && c == SignedOf(row.value)
  }

  predicate Presentable(crypto: Crypto, c: SignedCheckpoint, observedAt: int, limits: Limits) {
    var age := observedAt - c.payload.createdAt;
    && -300_000_000 <= age <= limits.maxAge
    && VerifyCheckpoint(crypto, c)
    && c.payload.sequence <= limits.maxEntries
  }

  /**
   Fresh and genuine, found in the restored tables, and the restored ledger up to it is whole, sourced
   and ends in its head.
   */
  ghost predicate Accepted(crypto: Crypto, db: State, access: Access, c: SignedCheckpoint, observedAt: int,
                           limits: Limits)
  {
    && Presentable(crypto, c, observedAt, limits)
    && access == AllTables
    && Persisted(db, c)
    && LedgerAccepted(crypto, c.payload, RowsUpTo(db.rows, c.payload.sequence), db.sources)
  }

  // ---- The failures of a checkpoint, in the order in which they are found ----

  function When(failing: bool, code: Code, sequence: Option<int>): (failures: seq<Failure>)
    ensures failures == [] <==> !failing
  {
    if failing then [Failure(code, sequence)] else []
  }

  function PresentationFailures(crypto: Crypto, c: SignedCheckpoint, observedAt: int, limits: Limits)
    : (failures: seq<Failure>)
    ensures failures == [] <==> Presentable(crypto, c, observedAt, limits)
  {
    var age := observedAt - c.payload.createdAt;
    When(age < -FIVE_MINUTES, CheckpointFuture, None)
    + When(age >= -FIVE_MINUTES && age > limits.maxAge, CheckpointStale, None)
    + When(!VerifyCheckpoint(crypto, c), CheckpointSignature, None)
    + When(c.payload.sequence > limits.maxEntries, LedgerLimit, None)
  }

  ghost function PersistenceFailures(db: State, c: SignedCheckpoint): (failures: seq<Failure>)
    ensures failures == [] <==> Persisted(db, c)
  {
    var row := FindCheckpoint(db.checkpoints, c.payload.checkpointId);
    if row.None? then [Failure(CheckpointMissing, None)] else When(!Persisted(db, c), CheckpointMismatch, None)
  }

  function SourceFailures(crypto: Crypto, row: Row, sources: map<Key, Source>): (failures: seq<Failure>) {
    var source, at, e := SourceOf(row, sources), Some(row.sequence), row.envelope;
    if source.None? then [Failure(ArtifactMissing, at)]
    else
      var kept := source.value.envelope;
      var digest := crypto.artifactDigest(source.value.payload);
      When(digest != kept.payloadSha || kept.payloadSha != e.payloadSha, ArtifactDigestWrong, at)
      + When(!SameSignature(kept, e), ArtifactEnvelope, at)
      + SignatureFailures(crypto, row)
  }

  predicate SameSignature(a: Envelope, b: Envelope) {
    a.algorithm == b.algorithm && a.keyId == b.keyId && a.signature == b.signature
  }

  function SignatureFailures(crypto: Crypto, row: Row): (failures: seq<Failure>) {
    var e, at := row.envelope, Some(row.sequence);
    if Unsigned(e) then []
    else if !SignedWhole(e) then [Failure(ArtifactEnvelope, at)]
    else When(!SignatureVerifies(crypto, row), ArtifactSignature, at)
  }

  predicate SignedWhole(e: Envelope) {
    e.algorithm.Some? && e.keyId.Some? && e.signature.Some?
  }

  predicate SignatureVerifies(crypto: Crypto, row: Row)
    requires SignedWhole(row.envelope)
  {
    var e := row.envelope;
    crypto.verify(e.algorithm.value, e.keyId.value,
                  SignatureMessage(row.key.artifactType, row.key.artifactId, e.payloadSha), e.signature.value)
  }

  lemma NoSourceFailures(crypto: Crypto, row: Row, sources: map<Key, Source>)
    ensures SourceFailures(crypto, row, sources) == [] <==> Sourced(crypto, row, sources)
  {
  }

  /** What breaks the chain at row `i`. */
  function ChainFailures(crypto: Crypto, tenant: string, rows: seq<Row>, i: nat): (failures: seq<Failure>)
    requires i < |rows|
    ensures failures == [] <==> Continues(crypto, tenant, rows[..i], rows[i])
  {
    var row, at := rows[i], Some(rows[i].sequence);
    When(row.sequence != i + 1, LedgerSequence, at)
    + When(row.previous != Head(rows[..i]), LedgerPreviousHash, at)
    + When(row.entry != crypto.entryDigest(tenant, row.sequence, row.key, row.envelope, row.previous),
           LedgerEntryHash, at)
  }

  /** The failures of the first `n` rows. */
  function RowFailures(crypto: Crypto, tenant: string, rows: seq<Row>, sources: map<Key, Source>, n: nat)
    : (failures: seq<Failure>)
    requires n <= |rows|
  {
    if n == 0 then []
    else
      RowFailures(crypto, tenant, rows, sources, n - 1) + ChainFailures(crypto, tenant, rows, n - 1)
      + SourceFailures(crypto, rows[n - 1], sources)
  }

  lemma {:induction false} NoRowFailures(crypto: Crypto, tenant: string, rows: seq<Row>, sources: map<Key, Source>,
                                         n: nat)
    requires n <= |rows|
    ensures RowFailures(crypto, tenant, rows, sources, n) == [] <==>
            Chained(crypto, tenant, rows[..n]) && AllSourced(crypto, rows[..n], sources)
  {
    if n > 0 {
      var m := n - 1;
      NoRowFailures(crypto, tenant, rows, sources, m);
      NoSourceFailures(crypto, rows[m], sources);
      ChainedNext(crypto, tenant, rows, m);
      AllSourcedNext(crypto, rows, sources, m);
    }
  }

  lemma AllSourcedNext(crypto: Crypto, rows: seq<Row>, sources: map<Key, Source>, n: nat)
    requires n < |rows|
    ensures AllSourced(crypto, rows[..n + 1], sources) <==>
            AllSourced(crypto, rows[..n], sources) && Sourced(crypto, rows[n], sources)
  {
    assert rows[..n + 1] == rows[..n] + [rows[n]];
  }

  function LedgerFailures(crypto: Crypto, p: CheckpointPayload, rows: seq<Row>, sources: map<Key, Source>)
    : (failures: seq<Failure>)
  {
    When(|rows| != p.entries || |rows| != p.sequence, LedgerCount, None)
    + RowFailures(crypto, p.tenantId, rows, sources, |rows|)
    + When(Head(rows) != p.head, LedgerHead, None)
  }

  lemma NoLedgerFailures(crypto: Crypto, p: CheckpointPayload, rows: seq<Row>, sources: map<Key, Source>)
    ensures LedgerFailures(crypto, p, rows, sources) == [] <==> LedgerAccepted(crypto, p, rows, sources)
  {
    NoRowFailures(crypto, p.tenantId, rows, sources, |rows|);
    assert rows[..|rows|] == rows;
  }

  /** All that is wrong with a checkpoint. */
  ghost function FailuresOf(crypto: Crypto, db: State, access: Access, c: SignedCheckpoint, observedAt: int,
                            limits: Limits): (failures: seq<Failure>)
  {
    var presentation := PresentationFailures(crypto, c, observedAt, limits);
    if presentation != [] then presentation
    else
      match access
      case NoTables => [Failure(DatabaseSchema, None)]
      case CheckpointsOnly => PersistenceFailures(db, c) + [Failure(DatabaseSchema, None)]
      case AllTables =>
        PersistenceFailures(db, c)
        + LedgerFailures(crypto, c.payload, RowsUpTo(db.rows, c.payload.sequence), db.sources)
  }

  /** Nothing is wrong exactly with the checkpoints that are accepted. */
  lemma NoFailuresOf(crypto: Crypto, db: State, access: Access, c: SignedCheckpoint, observedAt: int, limits: Limits)
    ensures FailuresOf(crypto, db, access, c, observedAt, limits) == [] <==>
            Accepted(crypto, db, access, c, observedAt, limits)
  {
    NoLedgerFailures(crypto, c.payload, RowsUpTo(db.rows, c.payload.sequence), db.sources);
  }

  // ---- Signed and unsigned artifacts ----

  function SignedAmong(rows: seq<Row>, sources: map<Key, Source>): (n: nat) {
    if rows == [] then 0
    else
      var row := rows[|rows| - 1];
      SignedAmong(rows[..|rows| - 1], sources)
      + if SourceOf(row, sources).Some? && SignedWhole(row.envelope) then 1 else 0
  }

  function UnsignedAmong(rows: seq<Row>, sources: map<Key, Source>): (n: nat) {
    if rows == [] then 0
    else
      var row := rows[|rows| - 1];
      UnsignedAmong(rows[..|rows| - 1], sources)
      + if SourceOf(row, sources).Some? && Unsigned(row.envelope) then 1 else 0
  }

  /** The rows with a source, those with a whole signature and those with none. */
  ghost function SignedRows(rows: seq<Row>, sources: map<Key, Source>): (indices: set<int>)
    ensures forall i :: i in indices <==>
              0 <= i < |rows| && SourceOf(rows[i], sources).Some?
              && var e := rows[i].envelope; e.algorithm.Some? && e.keyId.Some? && e.signature.Some?
    ensures |indices| == SignedAmong(rows, sources)
  {
    if rows == [] then {}
    else
      var n := |rows| - 1;
      SignedRows(rows[..n], sources)
      + if SourceOf(rows[n], sources).Some? && SignedWhole(rows[n].envelope) then {n} else {}
  }

  ghost function UnsignedRows(rows: seq<Row>, sources: map<Key, Source>): (indices: set<int>)
    ensures forall i :: i in indices <==>
              0 <= i < |rows| && SourceOf(rows[i], sources).Some?
              && var e := rows[i].envelope; e.algorithm.None? && e.keyId.None? && e.signature.None?
    ensures |indices| == UnsignedAmong(rows, sources)
  {
    if rows == [] then {}
    else
      var n := |rows| - 1;
      UnsignedRows(rows[..n], sources)
      + if SourceOf(rows[n], sources).Some? && Unsigned(rows[n].envelope) then {n} else {}
  }

  lemma {:induction false} SourcedIsCounted(crypto: Crypto, rows: seq<Row>, sources: map<Key, Source>)
    requires AllSourced(crypto, rows, sources)
    ensures SignedAmong(rows, sources) + UnsignedAmong(rows, sources) == |rows|
  {
    if rows != [] {
      assert rows[|rows| - 1] in rows;
      SourcedIsCounted(crypto, rows[..|rows| - 1], sources);
      assert Sourced(crypto, rows[|rows| - 1], sources);
    }
  }

  // ---- The verifier ----

  function ResultOf(checked: nat, signed: nat, unsigned: nat, t: Tally): (r: Result) {
    Result(checked, signed, unsigned, t.count == 0, t.count, t.count > |t.failures|, t.failures)
  }

  /** The result of a checkpoint: how many failures, the first of them, and what was counted. */
  ghost function ResultFor(crypto: Crypto, db: State, access: Access, c: SignedCheckpoint, observedAt: int,
                           limits: Limits): (r: Result)
  {
    var rows := RowsRead(crypto, db, access, c, observedAt, limits);
    ResultOf(|rows|, SignedAmong(rows, db.sources), UnsignedAmong(rows, db.sources),
             TallyOf(FailuresOf(crypto, db, access, c, observedAt, limits)))
  }

  /** The rows that are read for a checkpoint. */
  function RowsRead(crypto: Crypto, db: State, access: Access, c: SignedCheckpoint, observedAt: int, limits: Limits)
    : (rows: seq<Row>)
  {
    if access == AllTables && Presentable(crypto, c, observedAt, limits) then RowsUpTo(db.rows, c.payload.sequence)
    else []
  }

  /** A result says how many failures there are and lists the first twenty, and counts the rows read by signature. */
  ghost predicate Tells(r: Result, all: seq<Failure>, rows: seq<Row>, sources: map<Key, Source>) {
    && r.failureCount == |all| && (r.valid <==> all == [])
    && r.failures <= all && |r.failures| == (if |all| < 20 then |all| else 20) && (r.truncated <==> |all| > 20)
    && r.entriesChecked == |rows|
    && r.signed == |SignedRows(rows, sources)| && r.unsigned == |UnsignedRows(rows, sources)|
  }

  lemma ResultTells(crypto: Crypto, db: State, access: Access, c: SignedCheckpoint, observedAt: int, limits: Limits)
    ensures Tells(ResultFor(crypto, db, access, c, observedAt, limits),
                  FailuresOf(crypto, db, access, c, observedAt, limits),
                  RowsRead(crypto, db, access, c, observedAt, limits), db.sources)
  {
  }

  /** The artifact behind one ledger row; `all` are the failures found before. */
  method CheckSource(crypto: Crypto, row: Row, sources: map<Key, Source>, before: Tally, ghost all: seq<Failure>)
    returns (t: Tally, signed: nat, unsigned: nat)
    requires before == TallyOf(all)
    ensures t == TallyOf(all + SourceFailures(crypto, row, sources))
    ensures SourceFailures(crypto, row, sources) == [] <==> Sourced(crypto, row, sources)
    ensures signed == if SourceOf(row, sources).Some? && SignedWhole(row.envelope) then 1 else 0
    ensures unsigned == if SourceOf(row, sources).Some? && Unsigned(row.envelope) then 1 else 0
  {
    t, signed, unsigned := before, 0, 0;
    ghost var found := all;
    NoSourceFailures(crypto, row, sources);
    var source := SourceOf(row, sources);
    if source.None? {
      t, found := Fail(t, found, ArtifactMissing, Some(row.sequence));
      return;
    }
    var e, kept := row.envelope, source.value.envelope;
    if crypto.artifactDigest(source.value.payload) != kept.payloadSha || kept.payloadSha != e.payloadSha {
      t, found := Fail(t, found, ArtifactDigestWrong, Some(row.sequence));
    }
    if (kept.algorithm, kept.keyId, kept.signature) != (e.algorithm, e.keyId, e.signature) {
      t, found := Fail(t, found, ArtifactEnvelope, Some(row.sequence));
    }
    t, signed, unsigned := CheckSignature(crypto, row, t, found);
    assert found + SignatureFailures(crypto, row) == all + SourceFailures(crypto, row, sources);
  }

  /** The signature in the envelope of a ledger row. */
  method CheckSignature(crypto: Crypto, row: Row, before: Tally, ghost all: seq<Failure>)
    returns (t: Tally, signed: nat, unsigned: nat)
    requires before == TallyOf(all)
    ensures t == TallyOf(all + SignatureFailures(crypto, row))
    ensures signed == if SignedWhole(row.envelope) then 1 else 0
    ensures unsigned == if Unsigned(row.envelope) then 1 else 0
  {
    t, signed, unsigned := before, 0, 0;
    ghost var found := all;
    var e := row.envelope;
    if Unsigned(e) {
      unsigned := 1;
    } else if e.algorithm.None? || e.keyId.None? || e.signature.None? {
      t, found := Fail(t, found, ArtifactEnvelope, Some(row.sequence));
    } else {
      signed := 1;
      if !crypto.verify(e.algorithm.value, e.keyId.value,
                        SignatureMessage(row.key.artifactType, row.key.artifactId, e.payloadSha), e.signature.value) {
        t, found := Fail(t, found, ArtifactSignature, Some(row.sequence));
      }
    }
    assert found == all + SignatureFailures(crypto, row);
  }

  /** One row in its place. */
  method CheckLink(crypto: Crypto, tenant: string, rows: seq<Row>, i: nat, previous: string, before: Tally,
                   ghost all: seq<Failure>)
    returns (t: Tally)
    requires i < |rows| && previous == Head(rows[..i]) && before == TallyOf(all)
    ensures t == TallyOf(all + ChainFailures(crypto, tenant, rows, i))
  {
    t := before;
    ghost var found := all;
    var row, at := rows[i], Some(rows[i].sequence);
    if row.sequence != i + 1 {
      t, found := Fail(t, found, LedgerSequence, at);
    }
    if row.previous != previous {
      t, found := Fail(t, found, LedgerPreviousHash, at);
    }
    if row.entry != crypto.entryDigest(tenant, row.sequence, row.key, row.envelope, row.previous) {
      t, found := Fail(t, found, LedgerEntryHash, at);
    }
    assert found == all + ChainFailures(crypto, tenant, rows, i);
  }

  /** The pass over the restored rows. */
  method CheckRows(crypto: Crypto, tenant: string, rows: seq<Row>, sources: map<Key, Source>, before: Tally,
                   ghost all: seq<Failure>)
    returns (t: Tally, signed: nat, unsigned: nat, head: string)
    requires before == TallyOf(all)
    ensures t == TallyOf(all + RowFailures(crypto, tenant, rows, sources, |rows|)) && head == Head(rows)
    ensures t.count == before.count <==> Chained(crypto, tenant, rows) && AllSourced(crypto, rows, sources)
    ensures signed == SignedAmong(rows, sources) && unsigned == UnsignedAmong(rows, sources)
  {
    t, signed, unsigned := before, 0, 0;
    var previous := LEDGER_GENESIS_SHA256;
    assert all + [] == all;
    for i := 0 to |rows|
      invariant previous == Head(rows[..i])
      invariant t == TallyOf(all + RowFailures(crypto, tenant, rows, sources, i))
      invariant signed == SignedAmong(rows[..i], sources) && unsigned == UnsignedAmong(rows[..i], sources)
    {
      ghost var found := all + RowFailures(crypto, tenant, rows, sources, i);
      t := CheckLink(crypto, tenant, rows, i, previous, t, found);
      var s, u;
      t, s, u := CheckSource(crypto, rows[i], sources, t, found + ChainFailures(crypto, tenant, rows, i));
      RowFailuresNext(crypto, tenant, rows, sources, i, all);
      assert rows[..i + 1][..i] == rows[..i];
      signed, unsigned := signed + s, unsigned + u;
      previous := rows[i].entry;
    }
    assert rows[..|rows|] == rows;
    NoRowFailures(crypto, tenant, rows, sources, |rows|);
    SameCount(all, RowFailures(crypto, tenant, rows, sources, |rows|));
    head := previous;
  }

  lemma SameCount(all: seq<Failure>, more: seq<Failure>)
    ensures TallyOf(all + more).count == TallyOf(all).count <==> more == []
  {
  }

  lemma RowFailuresNext(crypto: Crypto, tenant: string, rows: seq<Row>, sources: map<Key, Source>, i: nat,
                        all: seq<Failure>)
    requires i < |rows|
    ensures all + RowFailures(crypto, tenant, rows, sources, i) + ChainFailures(crypto, tenant, rows, i)
            + SourceFailures(crypto, rows[i], sources)
            == all + RowFailures(crypto, tenant, rows, sources, i + 1)
  {
    Associates(all, RowFailures(crypto, tenant, rows, sources, i), ChainFailures(crypto, tenant, rows, i),
               SourceFailures(crypto, rows[i], sources));
  }

  /**
   `_verify_checkpoint`: valid exactly when the checkpoint is accepted, and else with the number and the
   first of its failures. `aborted` tells that an earlier query of the transaction has failed; then the
   next one raises an error, for which None stands.
   */
  method CheckCheckpoint(crypto: Crypto, db: State, access: Access, aborted: bool, c: SignedCheckpoint,
                         observedAt: int, limits: Limits)
    returns (result: Option<Result>)
    ensures result.None? <==> aborted && Presentable(crypto, c, observedAt, limits)
    ensures result.Some? ==>
              && result.value == ResultFor(crypto, db, access, c, observedAt, limits)
              && Tells(result.value, FailuresOf(crypto, db, access, c, observedAt, limits),
                       RowsRead(crypto, db, access, c, observedAt, limits), db.sources)
              && (result.value.valid <==> Accepted(crypto, db, access, c, observedAt, limits))
              && (result.value.valid ==>
                  result.value.signed + result.value.unsigned == result.value.entriesChecked == c.payload.sequence)
  {
    var t := CheckPresentable(crypto, c, observedAt, limits);
    NoFailuresOf(crypto, db, access, c, observedAt, limits);
    ResultTells(crypto, db, access, c, observedAt, limits);
    if t.count > 0 {
      return Some(ResultOf(0, 0, 0, t));
    }
    if aborted {
      return None;
    }
    ghost var found: seq<Failure> := [];
    if access == NoTables {
      t, found := Fail(t, found, DatabaseSchema, None);
      return Some(ResultOf(0, 0, 0, t));
    }
    t := CheckPersisted(db, c, t);
    found := PersistenceFailures(db, c);
    if access == CheckpointsOnly {
      t, found := Fail(t, found, DatabaseSchema, None);
      return Some(ResultOf(0, 0, 0, t));
    }
    var rows := RowsUpTo(db.rows, c.payload.sequence);
    var signed, unsigned;
    t, signed, unsigned := CheckLedger(crypto, c.payload, rows, db.sources, t, found);
    if t.count == 0 {
      SourcedIsCounted(crypto, rows, db.sources);
    }
    result := Some(ResultOf(|rows|, signed, unsigned, t));
  }

  /** Age, signature and size of the checkpoint, before the database is read. */
  method CheckPresentable(crypto: Crypto, c: SignedCheckpoint, observedAt: int, limits: Limits) returns (t: Tally)
    ensures t == TallyOf(PresentationFailures(crypto, c, observedAt, limits))
    ensures t.count == 0 <==> Presentable(crypto, c, observedAt, limits)
  {
    ghost var found: seq<Failure> := [];
    t := Tally(0, []);
    var age := observedAt - c.payload.createdAt;
    if age < -FIVE_MINUTES {
      t, found := Fail(t, found, CheckpointFuture, None);
    } else if age > limits.maxAge {
      t, found := Fail(t, found, CheckpointStale, None);
    }
    if !VerifyCheckpoint(crypto, c) {
      t, found := Fail(t, found, CheckpointSignature, None);
    }
    if c.payload.sequence > limits.maxEntries {
      t, found := Fail(t, found, LedgerLimit, None);
    }
    assert found == PresentationFailures(crypto, c, observedAt, limits);
  }

  /** The number of the restored rows, their pass, and the head they end in. */
  method CheckLedger(crypto: Crypto, p: CheckpointPayload, rows: seq<Row>, sources: map<Key, Source>, before: Tally,
                     ghost all: seq<Failure>)
    returns (t: Tally, signed: nat, unsigned: nat)
    requires before == TallyOf(all)
    ensures t == TallyOf(all + LedgerFailures(crypto, p, rows, sources))
    ensures t.count == before.count <==> LedgerAccepted(crypto, p, rows, sources)
    ensures signed == SignedAmong(rows, sources) && unsigned == UnsignedAmong(rows, sources)
  {
    ghost var found;
    t, found := FailIf(before, all, |rows| != p.entries || |rows| != p.sequence, LedgerCount);
    var head;
    t, signed, unsigned, head := CheckRows(crypto, p.tenantId, rows, sources, t, found);
    found := found + RowFailures(crypto, p.tenantId, rows, sources, |rows|);
    t, found := FailIf(t, found, head != p.head, LedgerHead);
    LedgerFailuresAre(crypto, p, rows, sources, all);
    NoLedgerFailures(crypto, p, rows, sources);
    SameCount(all, LedgerFailures(crypto, p, rows, sources));
  }

  /** `fail`, where a condition calls for it. */
  method FailIf(before: Tally, ghost found: seq<Failure>, failing: bool, code: Code)
    returns (t: Tally, ghost found': seq<Failure>)
    requires before == TallyOf(found)
    ensures found' == found + When(failing, code, None) && t == TallyOf(found')
  {
    t, found' := before, found;
    if failing {
      t, found' := Fail(t, found', code, None);
    }
  }

  lemma LedgerFailuresAre(crypto: Crypto, p: CheckpointPayload, rows: seq<Row>, sources: map<Key, Source>,
                          all: seq<Failure>)
    ensures all + When(|rows| != p.entries || |rows| != p.sequence, LedgerCount, None)
            + RowFailures(crypto, p.tenantId, rows, sources, |rows|) + When(Head(rows) != p.head, LedgerHead, None)
            == all + LedgerFailures(crypto, p, rows, sources)
  {
    var a, b := When(|rows| != p.entries || |rows| != p.sequence, LedgerCount, None),
                RowFailures(crypto, p.tenantId, rows, sources, |rows|);
    Associates(all, a, b, When(Head(rows) != p.head, LedgerHead, None));
  }

  lemma Associates(all: seq<Failure>, a: seq<Failure>, b: seq<Failure>, c: seq<Failure>)
    ensures all + a + b + c == all + (a + b + c)
  {
  }

  method CheckPersisted(db: State, c: SignedCheckpoint, before: Tally) returns (t: Tally)
    requires before == TallyOf([])
    ensures t == TallyOf(PersistenceFailures(db, c))
    ensures t.count == 0 <==> Persisted(db, c)
  {
    t := before;
    ghost var found: seq<Failure> := [];
    var persisted := FindCheckpoint(db.checkpoints, c.payload.checkpointId);
    if persisted.None? {
      t, found := Fail(t, found, CheckpointMissing, None);
    } else {
      var row := persisted.value;
      if row.payload.None? || !WellFormedPayload(row.payload.value)
         || !WellFormedEnvelope(row.payloadSha, row.algorithm, row.keyId, row.signature) {
        t, found := Fail(t, found, CheckpointMismatch, None);
      } else if SignedOf(row) != c {
        t, found := Fail(t, found, CheckpointMismatch, None);
      }
    }
  }

  // ---- The drill ----

  datatype Report = Report(success: bool, failureCount: nat, truncated: bool, checkpointsValid: nat,
                           entriesChecked: nat, results: seq<Result>, failures: seq<Failure>)

  /** A drill is refused for its arguments, raises an error, or reports. */
  datatype Outcome = Refused | QueryFailed | Reported(report: Report)

  /** What one transaction on the restored server can see: some databases, by tenant. */
  datatype Server = Server(
    schemaVersion: Option<int>, inRecovery: bool, readOnly: bool, access: Access, databases: map<string, State>)

  function Tables(server: Server, tenant: string): (db: State) {
    if tenant in server.databases then server.databases[tenant] else EmptyState
  }

  function ServerFailures(server: Server): (failures: seq<Failure>)
    ensures failures == [] <==> !server.inRecovery && server.schemaVersion == Some(18)
  {
    When(server.schemaVersion.None?, SchemaMetadata, None)
    + When(server.schemaVersion.Some? && server.schemaVersion.value != SCHEMA_VERSION, SchemaVersion, None)
    + When(server.inRecovery, RecoveryInProgress, None)
  }

  ghost function ResultsFor(crypto: Crypto, server: Server, checkpoints: seq<SignedCheckpoint>, observedAt: int,
                            limits: Limits): (results: seq<Result>)
  {
    if checkpoints == [] then []
    else
      var c := checkpoints[|checkpoints| - 1];
      ResultsFor(crypto, server, checkpoints[..|checkpoints| - 1], observedAt, limits)
      + [ResultFor(crypto, Tables(server, c.payload.tenantId), server.access, c, observedAt, limits)]
  }

  ghost predicate AnyPresentable(crypto: Crypto, checkpoints: seq<SignedCheckpoint>, observedAt: int, limits: Limits) {
    exists c :: c in checkpoints && Presentable(crypto, c, observedAt, limits)
  }

  /** A query fails for one checkpoint, and a later checkpoint is queried in the same transaction. */
  ghost predicate Aborts(crypto: Crypto, access: Access, checkpoints: seq<SignedCheckpoint>, observedAt: int,
                         limits: Limits)
  {
    && access != AllTables
    && exists i :: 0 <= i < |checkpoints| && Presentable(crypto, checkpoints[i], observedAt, limits)
                   && AnyPresentable(crypto, checkpoints[..i], observedAt, limits)
  }

  function TotalFailures(results: seq<Result>): (n: nat) {
    if results == [] then 0 else TotalFailures(results[..|results| - 1]) + results[|results| - 1].failureCount
  }

  function TotalEntries(results: seq<Result>): (n: nat) {
    if results == [] then 0 else TotalEntries(results[..|results| - 1]) + results[|results| - 1].entriesChecked
  }

  function TotalValid(results: seq<Result>): (n: nat) {
    if results == [] then 0 else TotalValid(results[..|results| - 1]) + if results[|results| - 1].valid then 1 else 0
  }

  function ReportedFailures(results: seq<Result>): (failures: seq<Failure>) {
    if results == [] then [] else ReportedFailures(results[..|results| - 1]) + results[|results| - 1].failures
  }

  /** The report on results, after failures of the server itself. */
  ghost predicate Summarises(report: Report, found: seq<Failure>, results: seq<Result>) {
    && report.results == results
    && report.failureCount == |found| + TotalFailures(results)
    && report.failures == found + ReportedFailures(results)
    && (report.truncated <==> AnyTruncated(results))
    && report.checkpointsValid == TotalValid(results) && report.entriesChecked == TotalEntries(results)
  }

  /**
   `RecoveryVerifier.verify`. The drill succeeds exactly when the transaction is read-only, the server is
   promoted, has the expected schema, and accepts every checkpoint; else the report says what failed.
   */
  method Verify(crypto: Crypto, server: Server, checkpoints: seq<SignedCheckpoint>, observedAt: int, limits: Limits)
    returns (outcome: Outcome)
    ensures outcome == Refused <==> |checkpoints| == 0 || |checkpoints| > 16
    ensures outcome == QueryFailed <==>
            && 0 < |checkpoints| <= 16 && ServerFailures(server) == []
            && Aborts(crypto, server.access, checkpoints, observedAt, limits)
    ensures outcome.Reported? ==>
              && Summarises(outcome.report, ServerFailures(server),
                            if ServerFailures(server) == []
                            then ResultsFor(crypto, server, checkpoints, observedAt, limits) else [])
              && (outcome.report.success <==>
                  && server.readOnly && !server.inRecovery && server.schemaVersion == Some(18)
                  && AcceptedAll(crypto, server, checkpoints, observedAt, limits))
  {
    if |checkpoints| == 0 || |checkpoints| > MAX_RECOVERY_CHECKPOINTS {
      return Refused;
    }
    var failures: seq<Failure> := [];
    if server.schemaVersion.None? {
      failures := failures + [Failure(SchemaMetadata, None)];
    } else if server.schemaVersion.value != SCHEMA_VERSION {
      failures := failures + [Failure(SchemaVersion, None)];
    }
    if server.inRecovery {
      failures := failures + [Failure(RecoveryInProgress, None)];
    }
    assert failures == ServerFailures(server);
    var results: seq<Result> := [];
    if failures == [] {
      var checked := CheckAll(crypto, server, checkpoints, observedAt, limits);
      if checked.None? {
        return QueryFailed;
      }
      results := checked.value;
      NoneFailed(crypto, server, checkpoints, observedAt, limits);
    }
    var report := Summary(failures, results, server.readOnly, |checkpoints|);
    return Reported(report);
  }

  method Summary(failures: seq<Failure>, results: seq<Result>, readOnly: bool, expected: nat) returns (report: Report)
    ensures Summarises(report, failures, results)
    ensures report.success <==>
            readOnly && failures == [] && TotalFailures(results) == 0 && |results| == expected
  {
    var total, truncated, valid, entries, reported := 0, false, 0, 0, [];
    for i := 0 to |results|
      invariant total == TotalFailures(results[..i]) && valid == TotalValid(results[..i])
      invariant entries == TotalEntries(results[..i]) && reported == ReportedFailures(results[..i])
      invariant truncated <==> AnyTruncated(results[..i])
    {
      var r := results[i];
      SumsNext(results, i);
      total, entries, reported := total + r.failureCount, entries + r.entriesChecked, reported + r.failures;
      truncated, valid := truncated || r.truncated, valid + if r.valid then 1 else 0;
    }
    assert results[..|results|] == results;
    total := |failures| + total;
    var success := readOnly && total == 0 && |results| == expected;
    report := Report(success, total, truncated, valid, entries, results, failures + reported);
  }

  ghost predicate AnyTruncated(results: seq<Result>) {
    exists r :: r in results && r.truncated
  }

  lemma SumsNext(results: seq<Result>, i: nat)
    requires i < |results|
    ensures TotalFailures(results[..i + 1]) == TotalFailures(results[..i]) + results[i].failureCount
    ensures TotalEntries(results[..i + 1]) == TotalEntries(results[..i]) + results[i].entriesChecked
    ensures TotalValid(results[..i + 1]) == TotalValid(results[..i]) + if results[i].valid then 1 else 0
    ensures ReportedFailures(results[..i + 1]) == ReportedFailures(results[..i]) + results[i].failures
    ensures AnyTruncated(results[..i + 1]) <==> AnyTruncated(results[..i]) || results[i].truncated
  {
    assert results[..i + 1][..i] == results[..i];
    TruncatedNext(results, i);
  }

  lemma TruncatedNext(results: seq<Result>, i: nat)
    requires i < |results|
    ensures AnyTruncated(results[..i + 1]) <==> AnyTruncated(results[..i]) || results[i].truncated
  {
    assert results[..i + 1] == results[..i] + [results[i]];
  }

  ghost predicate AcceptedAll(crypto: Crypto, server: Server, checkpoints: seq<SignedCheckpoint>, observedAt: int,
                              limits: Limits)
  {
    forall c :: c in checkpoints ==>
      var tenant := c.payload.tenantId;
      && (tenant in server.databases ==>
          Accepted(crypto, server.databases[tenant], server.access, c, observedAt, limits))
      && (tenant !in server.databases ==>
          Accepted(crypto, State([], map[], []), server.access, c, observedAt, limits))
  }

  method CheckAll(crypto: Crypto, server: Server, checkpoints: seq<SignedCheckpoint>, observedAt: int, limits: Limits)
    returns (results: Option<seq<Result>>)
    ensures results.None? <==> Aborts(crypto, server.access, checkpoints, observedAt, limits)
    ensures results.Some? ==> results.value == ResultsFor(crypto, server, checkpoints, observedAt, limits)
  {
    var found: seq<Result> := [];
    var aborted := false;
    for i := 0 to |checkpoints|
      invariant CheckedUpTo(crypto, server, checkpoints, i, found, aborted, observedAt, limits)
    {
      var result;
      result, aborted := CheckNext(crypto, server, checkpoints, i, found, aborted, observedAt, limits);
      if result.None? {
        AbortsLater(crypto, server.access, checkpoints, i + 1, observedAt, limits);
        return None;
      }
      found := found + [result.value];
    }
    assert checkpoints[..|checkpoints|] == checkpoints;
    return Some(found);
  }

  /** The results of the first checkpoints, and whether a query of theirs has failed. */
  ghost predicate CheckedUpTo(crypto: Crypto, server: Server, checkpoints: seq<SignedCheckpoint>, n: nat,
                              found: seq<Result>, aborted: bool, observedAt: int, limits: Limits)
    requires n <= |checkpoints|
  {
    && found == ResultsFor(crypto, server, checkpoints[..n], observedAt, limits)
    && (aborted <==> server.access != AllTables && AnyPresentable(crypto, checkpoints[..n], observedAt, limits))
    && !Aborts(crypto, server.access, checkpoints[..n], observedAt, limits)
  }

  /** One round of the loop over the checkpoints. */
  method CheckNext(crypto: Crypto, server: Server, checkpoints: seq<SignedCheckpoint>, i: nat,
                   ghost found: seq<Result>, abortedIn: bool, observedAt: int, limits: Limits)
    returns (result: Option<Result>, aborted: bool)
    requires i < |checkpoints| && CheckedUpTo(crypto, server, checkpoints, i, found, abortedIn, observedAt, limits)
    ensures result.None? ==> Aborts(crypto, server.access, checkpoints[..i + 1], observedAt, limits)
    ensures result.Some? ==>
              CheckedUpTo(crypto, server, checkpoints, i + 1, found + [result.value], aborted, observedAt, limits)
  {
    var c := checkpoints[i];
    result := CheckCheckpoint(crypto, Tables(server, c.payload.tenantId), server.access, abortedIn, c,
                              observedAt, limits);
    AbortsNext(crypto, server.access, checkpoints, i, observedAt, limits);
    ResultsNext(crypto, server, checkpoints, i, observedAt, limits);
    aborted := abortedIn || (server.access != AllTables && Presentable(crypto, c, observedAt, limits));
  }

  lemma ResultsNext(crypto: Crypto, server: Server, checkpoints: seq<SignedCheckpoint>, i: nat, observedAt: int,
                    limits: Limits)
    requires i < |checkpoints|
    ensures var c := checkpoints[i];
            ResultsFor(crypto, server, checkpoints[..i + 1], observedAt, limits)
            == ResultsFor(crypto, server, checkpoints[..i], observedAt, limits)
               + [ResultFor(crypto, Tables(server, c.payload.tenantId), server.access, c, observedAt, limits)]
  {
    assert checkpoints[..i + 1][..i] == checkpoints[..i];
  }

  lemma AbortsNext(crypto: Crypto, access: Access, checkpoints: seq<SignedCheckpoint>, i: nat, observedAt: int,
                   limits: Limits)
    requires i < |checkpoints|
    ensures AnyPresentable(crypto, checkpoints[..i + 1], observedAt, limits) <==>
            || AnyPresentable(crypto, checkpoints[..i], observedAt, limits)
            || Presentable(crypto, checkpoints[i], observedAt, limits)
    ensures Aborts(crypto, access, checkpoints[..i + 1], observedAt, limits) <==>
            || Aborts(crypto, access, checkpoints[..i], observedAt, limits)
            || (access != AllTables && Presentable(crypto, checkpoints[i], observedAt, limits)
                && AnyPresentable(crypto, checkpoints[..i], observedAt, limits))
  {
    var longer := checkpoints[..i + 1];
    assert longer == checkpoints[..i] + [checkpoints[i]];
    forall k | 0 <= k <= i
      ensures longer[..k] == checkpoints[..k] && (k < i ==> checkpoints[..i][..k] == checkpoints[..k])
      ensures longer[k] == checkpoints[k] && (k < i ==> checkpoints[..i][k] == checkpoints[k])
    {
    }
  }

  lemma AbortsLater(crypto: Crypto, access: Access, checkpoints: seq<SignedCheckpoint>, n: nat, observedAt: int,
                    limits: Limits)
    requires n <= |checkpoints| && Aborts(crypto, access, checkpoints[..n], observedAt, limits)
    ensures Aborts(crypto, access, checkpoints, observedAt, limits)
  {
    var first := checkpoints[..n];
    var i :| 0 <= i < |first| && Presentable(crypto, first[i], observedAt, limits)
             && AnyPresentable(crypto, first[..i], observedAt, limits);
    assert first[..i] == checkpoints[..i] && first[i] == checkpoints[i];
  }

  /** No failure is counted exactly when every checkpoint is accepted. */
  lemma {:induction false} NoneFailed(crypto: Crypto, server: Server, checkpoints: seq<SignedCheckpoint>,
                                      observedAt: int, limits: Limits)
    ensures |ResultsFor(crypto, server, checkpoints, observedAt, limits)| == |checkpoints|
    ensures TotalFailures(ResultsFor(crypto, server, checkpoints, observedAt, limits)) == 0 <==>
            AcceptedAll(crypto, server, checkpoints, observedAt, limits)
  {
    if checkpoints != [] {
      var n := |checkpoints| - 1;
      NoneFailed(crypto, server, checkpoints[..n], observedAt, limits);
      AcceptedNext(crypto, server, checkpoints, n, observedAt, limits);
      assert checkpoints[..n + 1] == checkpoints;
      var c := checkpoints[n];
      NoFailuresOf(crypto, Tables(server, c.payload.tenantId), server.access, c, observedAt, limits);
      TotalNext(ResultsFor(crypto, server, checkpoints[..n], observedAt, limits),
                ResultFor(crypto, Tables(server, c.payload.tenantId), server.access, c, observedAt, limits));
    }
  }

  lemma TotalNext(results: seq<Result>, r: Result)
    ensures TotalFailures(results + [r]) == TotalFailures(results) + r.failureCount
  {
    assert (results + [r])[..|results|] == results;
  }

  lemma AcceptedNext(crypto: Crypto, server: Server, checkpoints: seq<SignedCheckpoint>, i: nat, observedAt: int,
                     limits: Limits)
    requires i < |checkpoints|
    ensures var c := checkpoints[i];
            AcceptedAll(crypto, server, checkpoints[..i + 1], observedAt, limits) <==>
            && AcceptedAll(crypto, server, checkpoints[..i], observedAt, limits)
            && Accepted(crypto, Tables(server, c.payload.tenantId), server.access, c, observedAt, limits)
  {
    assert checkpoints[..i + 1] == checkpoints[..i] + [checkpoints[i]];
  }
}
