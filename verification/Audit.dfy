/** The live auditor of store.py: a pass over the artifacts, one over the ledger and one over the checkpoints. */
module Audit {
  import opened Wrappers
  import opened CanonicalJson
  import opened Integrity
  import opened EvidenceRecords
  import opened EvidenceLedger
  import opened EvidenceStore
  import opened EvidenceHistory

  datatype RowReason = SequenceGap | PreviousHash | EntryHash | MissingArtifact | ArtifactMismatch

  datatype LedgerFailure = LedgerFailure(sequence: int, key: Key, reason: RowReason)

  datatype CheckpointReason = PayloadDigest | BadSignature | BadEnvelope | MissingSequence | HeadMismatch

  datatype CheckpointFailure = CheckpointFailure(checkpointId: string, sequence: int, reason: CheckpointReason)

  datatype ArtifactReason = DigestMismatch | NotAuthentic

  datatype ArtifactFailure = ArtifactFailure(key: Key, reason: ArtifactReason)

  /** `ArtifactIntegrityReport` */
  datatype Report = Report(
    checked: nat, valid: nat, signed: nat, unsigned: nat, algorithms: map<string, nat>, failures: seq<ArtifactFailure>,
    ledgerChecked: nat, ledgerValid: nat, head: string, ledgerFailures: seq<LedgerFailure>,
    checkpointChecked: nat, checkpointValid: nat, checkpointFailures: seq<CheckpointFailure>)

  // ---- The ledger ----

  /** What is wrong with row `i`, seen from the rows before it. */
  ghost function ReasonAt(crypto: Crypto, tenant: string, rows: seq<Row>, sources: map<Key, Source>, i: nat)
    : (reason: Option<RowReason>)
    requires i < |rows|
  {
    var row := rows[i];
    if row.sequence != (if i == 0 then 1 else rows[i - 1].sequence + 1) then Some(SequenceGap)
    else if row.previous != Head(rows[..i]) then Some(PreviousHash)
    else if row.entry != crypto.entryDigest(tenant, row.sequence, row.key, row.envelope, row.previous) then
      Some(EntryHash)
    else if row.key !in sources then Some(MissingArtifact)
    else if sources[row.key].envelope != row.envelope then Some(ArtifactMismatch)
    else None
  }

  /** The failures of the first `n` rows, in order. */
  ghost function FailuresUpTo(crypto: Crypto, tenant: string, rows: seq<Row>, sources: map<Key, Source>, n: nat)
    : (f: seq<LedgerFailure>)
    requires n <= |rows|
  {
    if n == 0 then []
    else
      var earlier := FailuresUpTo(crypto, tenant, rows, sources, n - 1);
      var reason := ReasonAt(crypto, tenant, rows, sources, n - 1);
      if reason.None? then earlier
      else earlier + [LedgerFailure(rows[n - 1].sequence, rows[n - 1].key, reason.value)]
  }

  ghost predicate AgreesWithSources(rows: seq<Row>, sources: map<Key, Source>) {
    forall row :: row in rows ==> row.key in sources && sources[row.key].envelope == row.envelope
  }

  /** The first `n` rows are a whole chain that agrees with the source tables. */
  ghost predicate WholeUpTo(crypto: Crypto, tenant: string, rows: seq<Row>, sources: map<Key, Source>, n: nat)
    requires n <= |rows|
  {
    Chained(crypto, tenant, rows[..n]) && AgreesWithSources(rows[..n], sources)
  }

  lemma {:induction false} NoFailuresUpTo(crypto: Crypto, tenant: string, rows: seq<Row>, sources: map<Key, Source>,
                                          n: nat)
    requires n <= |rows|
    ensures FailuresUpTo(crypto, tenant, rows, sources, n) == [] <==> WholeUpTo(crypto, tenant, rows, sources, n)
  {
    if n == 0 {
      WholeUpToNone(crypto, tenant, rows, sources);
    } else {
      var m := n - 1;
      NoFailuresUpTo(crypto, tenant, rows, sources, m);
      FailuresNext(crypto, tenant, rows, sources, m);
      WholeNext(crypto, tenant, rows, sources, m);
    }
  }

  lemma WholeUpToNone(crypto: Crypto, tenant: string, rows: seq<Row>, sources: map<Key, Source>)
    ensures WholeUpTo(crypto, tenant, rows, sources, 0)
  {
  }

  lemma FailuresNext(crypto: Crypto, tenant: string, rows: seq<Row>, sources: map<Key, Source>, n: nat)
    requires n < |rows|
    ensures FailuresUpTo(crypto, tenant, rows, sources, n + 1) == [] <==>
            FailuresUpTo(crypto, tenant, rows, sources, n) == [] && ReasonAt(crypto, tenant, rows, sources, n).None?
  {
  }

  lemma WholeNext(crypto: Crypto, tenant: string, rows: seq<Row>, sources: map<Key, Source>, n: nat)
    requires n < |rows|
    ensures WholeUpTo(crypto, tenant, rows, sources, n + 1) <==>
            WholeUpTo(crypto, tenant, rows, sources, n) && ReasonAt(crypto, tenant, rows, sources, n).None?
  {
    ChainedNext(crypto, tenant, rows, n);
    AgreesNext(rows, sources, n);
    if Chained(crypto, tenant, rows[..n]) {
      ReasonInChain(crypto, tenant, rows, sources, n);
    }
  }

  lemma AgreesNext(rows: seq<Row>, sources: map<Key, Source>, n: nat)
    requires n < |rows|
    ensures AgreesWithSources(rows[..n + 1], sources) <==>
            AgreesWithSources(rows[..n], sources) && rows[n].key in sources
            && sources[rows[n].key].envelope == rows[n].envelope
  {
    assert rows[..n + 1] == rows[..n] + [rows[n]];
  }

  /** After a whole chain, a row without fault continues it and agrees with its source. */
  lemma ReasonInChain(crypto: Crypto, tenant: string, rows: seq<Row>, sources: map<Key, Source>, n: nat)
    requires n < |rows| && Chained(crypto, tenant, rows[..n])
    ensures ReasonAt(crypto, tenant, rows, sources, n).None? <==>
            && Continues(crypto, tenant, rows[..n], rows[n])
            && rows[n].key in sources && sources[rows[n].key].envelope == rows[n].envelope
  {
    if n > 0 {
      assert rows[..n][n - 1].sequence == n;
    }
  }

  /**
   `_verify_artifact_ledger`: no failure exactly when the rows are a whole chain that agrees with the
   source tables.
   */
  method VerifyArtifactLedger(crypto: Crypto, tenant: string, rows: seq<Row>, sources: map<Key, Source>)
    returns (checked: nat, valid: nat, head: string, failures: seq<LedgerFailure>)
    ensures checked == |rows| && valid + |failures| == checked && head == Head(rows)
    ensures failures == FailuresUpTo(crypto, tenant, rows, sources, |rows|)
    ensures failures == [] <==> Chained(crypto, tenant, rows) && AgreesWithSources(rows, sources)
  {
    failures := [];
    var previous := LEDGER_GENESIS_SHA256;
    var expectedSequence := 1;
    for i := 0 to |rows|
      invariant previous == Head(rows[..i])
      invariant expectedSequence == if i == 0 then 1 else rows[i - 1].sequence + 1
      invariant failures == FailuresUpTo(crypto, tenant, rows, sources, i) && |failures| <= i
    {
      var row := rows[i];
      var expectedEntry := crypto.entryDigest(tenant, row.sequence, row.key, row.envelope, row.previous);
      var failure: Option<RowReason> := None;
      if row.sequence != expectedSequence {
        failure := Some(SequenceGap);
      } else if row.previous != previous {
        failure := Some(PreviousHash);
      } else if row.entry != expectedEntry {
        failure := Some(EntryHash);
      } else if row.key !in sources {
        failure := Some(MissingArtifact);
      } else if sources[row.key].envelope != row.envelope {
        failure := Some(ArtifactMismatch);
      }
      if failure.Some? {
        failures := failures + [LedgerFailure(row.sequence, row.key, failure.value)];
      }
      previous := row.entry;
      expectedSequence := row.sequence + 1;
    }
    assert rows[..|rows|] == rows;
    NoFailuresUpTo(crypto, tenant, rows, sources, |rows|);
    checked, valid, head := |rows|, |rows| - |failures|, previous;
  }

  // ---- The checkpoints ----

  /** The columns repeat the payload, of this tenant, and the entry count is the sequence. */
  predicate ColumnsAgree(tenant: string, c: CheckpointRow)
    requires c.payload.Some?
  {
    var p := c.payload.value;
    && p.checkpointId == c.checkpointId && p.tenantId == tenant
    && p.sequence == c.sequence && p.entries == c.entries && p.entries == c.sequence
    && p.head == c.head && p.createdAt == c.createdAt && p.retentionUntil == c.retentionUntil
  }

  /** A checkpoint the auditor has nothing to say about; `heads` maps sequences to entry digests. */
  predicate Passes(crypto: Crypto, tenant: string, heads: map<int, string>, c: CheckpointRow) {
    && c.payload.Some? && WellFormedPayload(c.payload.value)
    && crypto.checkpointDigest(c.payload.value) == c.payloadSha
    && WellFormedEnvelope(c.payloadSha, c.algorithm, c.keyId, c.signature)
    && VerifyCheckpoint(crypto, SignedOf(c))
    && ColumnsAgree(tenant, c)
    && c.sequence in heads && heads[c.sequence] == c.payload.value.head
  }

  ghost predicate Numbered(rows: seq<Row>) {
    forall i :: 0 <= i < |rows| ==> rows[i].sequence == i + 1
  }

  function EntryDigests(rows: seq<Row>): (heads: map<int, string>) {
    if rows == [] then map[]
    else
      var row := rows[|rows| - 1];
      EntryDigests(rows[..|rows| - 1])[row.sequence := row.entry]
  }

  /** The dictionary from sequences to entry digests, with the genesis digest at 0. */
  function HeadsOf(rows: seq<Row>): (heads: map<int, string>) {
    EntryDigests(rows)[0 := LEDGER_GENESIS_SHA256]
  }

  lemma {:induction false} NumberedDigests(rows: seq<Row>)
    requires Numbered(rows)
    ensures forall n :: n in EntryDigests(rows) <==> 1 <= n <= |rows|
    ensures forall n :: 1 <= n <= |rows| ==> EntryDigests(rows)[n] == rows[n - 1].entry
  {
    if rows != [] {
      NumberedDigests(rows[..|rows| - 1]);
    }
  }

  /** On a whole chain the dictionary holds the head of every prefix. */
  lemma ChainHeads(crypto: Crypto, tenant: string, rows: seq<Row>)
    requires Chained(crypto, tenant, rows)
    ensures forall n :: n in HeadsOf(rows) <==> 0 <= n <= |rows|
    ensures forall n :: 0 <= n <= |rows| ==> HeadsOf(rows)[n] == Head(rows[..n])
  {
    ChainIsNumbered(crypto, tenant, rows);
    NumberedDigests(rows);
    forall n | 1 <= n <= |rows|
      ensures HeadsOf(rows)[n] == Head(rows[..n])
    {
      HeadOfPrefix(rows, n);
    }
  }

  lemma ChainIsNumbered(crypto: Crypto, tenant: string, rows: seq<Row>)
    requires Chained(crypto, tenant, rows)
    ensures Numbered(rows)
  {
  }

  lemma HeadOfPrefix(rows: seq<Row>, n: int)
    requires 1 <= n <= |rows|
    ensures Head(rows[..n]) == rows[n - 1].entry
  {
  }

  method LedgerHeads(rows: seq<Row>) returns (heads: map<int, string>)
    ensures heads == HeadsOf(rows)
  {
    heads := map[];
    for n := 0 to |rows|
      invariant heads == EntryDigests(rows[..n])
    {
      assert rows[..n + 1][..n] == rows[..n];
      heads := heads[rows[n].sequence := rows[n].entry];
    }
    assert rows[..|rows|] == rows;
    heads := heads[0 := LEDGER_GENESIS_SHA256];
  }

  /** What is wrong with a checkpoint. */
  ghost function ReasonFor(crypto: Crypto, tenant: string, heads: map<int, string>, c: CheckpointRow)
    : (reason: Option<CheckpointReason>)
  {
    if c.payload.None? || !WellFormedPayload(c.payload.value) then Some(BadEnvelope)
    else if crypto.checkpointDigest(c.payload.value) != c.payloadSha then Some(PayloadDigest)
    else if !WellFormedEnvelope(c.payloadSha, c.algorithm, c.keyId, c.signature) then Some(BadEnvelope)
    else if !VerifyCheckpoint(crypto, SignedOf(c)) then Some(BadSignature)
    else if !ColumnsAgree(tenant, c) then Some(BadEnvelope)
    else if c.sequence !in heads then Some(MissingSequence)
    else if heads[c.sequence] != c.payload.value.head then Some(HeadMismatch)
    else None
  }

  /** Payloads and envelopes that the models refuse are found bad, whatever else is right about them. */
  lemma IllFormedIsBad(crypto: Crypto, tenant: string, heads: map<int, string>, c: CheckpointRow)
    requires c.payload.Some?
    ensures var p := c.payload.value;
            p.sequence < 0 || p.entries < 0 || |p.head| != 64 || p.retentionUntil <= p.createdAt ==>
              ReasonFor(crypto, tenant, heads, c) == Some(BadEnvelope)
    ensures ReasonFor(crypto, tenant, heads, c) == None ==>
              && c.algorithm == "ed25519" && |c.signature| > 0 && |c.payloadSha| == 64 && 0 < |c.keyId| < 65
              && c.payload.value.retentionUntil == c.retentionUntil > c.createdAt
  {
  }

  /** The failures of the first `n` checkpoints, in order. */
  ghost function CheckpointFailuresUpTo(crypto: Crypto, tenant: string, heads: map<int, string>,
                                        checkpoints: seq<CheckpointRow>, n: nat): (f: seq<CheckpointFailure>)
    requires n <= |checkpoints|
  {
    if n == 0 then []
    else
      var c := checkpoints[n - 1];
      var earlier := CheckpointFailuresUpTo(crypto, tenant, heads, checkpoints, n - 1);
      var reason := ReasonFor(crypto, tenant, heads, c);
      if reason.None? then earlier
      else earlier + [CheckpointFailure(c.checkpointId, c.sequence, reason.value)]
  }

  ghost predicate AllPass(crypto: Crypto, tenant: string, heads: map<int, string>, checkpoints: seq<CheckpointRow>) {
    forall c :: c in checkpoints ==> Passes(crypto, tenant, heads, c)
  }

  lemma NoReasonIsPass(crypto: Crypto, tenant: string, heads: map<int, string>, c: CheckpointRow)
    ensures ReasonFor(crypto, tenant, heads, c).None? <==> Passes(crypto, tenant, heads, c)
  {
  }

  lemma {:induction false} NoCheckpointFailures(crypto: Crypto, tenant: string, heads: map<int, string>,
                                                checkpoints: seq<CheckpointRow>, n: nat)
    requires n <= |checkpoints|
    ensures CheckpointFailuresUpTo(crypto, tenant, heads, checkpoints, n) == [] <==>
            AllPass(crypto, tenant, heads, checkpoints[..n])
  {
    if n > 0 {
      NoCheckpointFailures(crypto, tenant, heads, checkpoints, n - 1);
      NoReasonIsPass(crypto, tenant, heads, checkpoints[n - 1]);
      assert checkpoints[..n] == checkpoints[..n - 1] + [checkpoints[n - 1]];
    }
  }

  /** `_verify_ledger_checkpoints`: one failure for each checkpoint that does not pass, on any rows, in order. */
  method VerifyLedgerCheckpoints(crypto: Crypto, tenant: string, rows: seq<Row>, checkpoints: seq<CheckpointRow>)
    returns (checked: nat, valid: nat, failures: seq<CheckpointFailure>)
    ensures checked == |checkpoints| && valid + |failures| == checked
    ensures failures == CheckpointFailuresUpTo(crypto, tenant, HeadsOf(rows), checkpoints, |checkpoints|)
    ensures failures == [] <==> AllPass(crypto, tenant, HeadsOf(rows), checkpoints)
    ensures Chained(crypto, tenant, rows) ==>
              (failures == [] <==> forall c :: c in checkpoints ==> Anchors(crypto, tenant, c, rows))
  {
    var heads := LedgerHeads(rows);
    failures := [];
    for i := 0 to |checkpoints|
      invariant |failures| <= i
      invariant failures == CheckpointFailuresUpTo(crypto, tenant, heads, checkpoints, i)
    {
      var c := checkpoints[i];
      var failure: Option<CheckpointReason> := None;
      if c.payload.None? || !WellFormedPayload(c.payload.value) {
        failure := Some(BadEnvelope);
      } else if crypto.checkpointDigest(c.payload.value) != c.payloadSha {
        failure := Some(PayloadDigest);
      } else if !WellFormedEnvelope(c.payloadSha, c.algorithm, c.keyId, c.signature) {
        failure := Some(BadEnvelope);
      } else if !VerifyCheckpoint(crypto, SignedOf(c)) {
        failure := Some(BadSignature);
      } else if !ColumnsAgree(tenant, c) {
        failure := Some(BadEnvelope);
      } else if c.sequence !in heads {
        failure := Some(MissingSequence);
      } else if heads[c.sequence] != c.payload.value.head {
        failure := Some(HeadMismatch);
      }
      assert failure == ReasonFor(crypto, tenant, heads, c);
      if failure.Some? {
        failures := failures + [CheckpointFailure(c.checkpointId, c.sequence, failure.value)];
      }
    }
    checked, valid := |checkpoints|, |checkpoints| - |failures|;
    assert checkpoints[..|checkpoints|] == checkpoints;
    NoCheckpointFailures(crypto, tenant, heads, checkpoints, |checkpoints|);
    if Chained(crypto, tenant, rows) {
      AllPassIsAnchors(crypto, tenant, rows, checkpoints);
    }
  }

  lemma AllPassIsAnchors(crypto: Crypto, tenant: string, rows: seq<Row>, checkpoints: seq<CheckpointRow>)
    requires Chained(crypto, tenant, rows)
    ensures AllPass(crypto, tenant, HeadsOf(rows), checkpoints) <==>
            forall c :: c in checkpoints ==> Anchors(crypto, tenant, c, rows)
  {
    forall c
      ensures Passes(crypto, tenant, HeadsOf(rows), c) <==> Anchors(crypto, tenant, c, rows)
    {
      PassesIsAnchors(crypto, tenant, rows, c);
    }
  }

  /** On a whole chain a checkpoint passes exactly when it anchors one of the chain's prefixes. */
  lemma PassesIsAnchors(crypto: Crypto, tenant: string, rows: seq<Row>, c: CheckpointRow)
    requires Chained(crypto, tenant, rows)
    ensures Passes(crypto, tenant, HeadsOf(rows), c) <==> Anchors(crypto, tenant, c, rows)
  {
    ChainHeads(crypto, tenant, rows);
  }

  // ---- The artifacts ----

  predicate HasSignature(e: Envelope) {
    e.algorithm.Some? || e.keyId.Some? || e.signature.Some?
  }

  ghost function ArtifactReasonFor(crypto: Crypto, key: Key, source: Source): (reason: Option<ArtifactReason>) {
    if crypto.artifactDigest(source.payload) != source.envelope.payloadSha then Some(DigestMismatch)
    else if !CompleteSignature(crypto, key, source.envelope) then Some(NotAuthentic)
    else None
  }

  /** The failures of the artifacts listed, in order. */
  ghost function ArtifactFailures(crypto: Crypto, sources: map<Key, Source>, listed: seq<Key>)
    : (f: seq<ArtifactFailure>)
    requires forall key :: key in listed ==> key in sources
  {
    if listed == [] then []
    else
      var key := listed[|listed| - 1];
      var earlier := ArtifactFailures(crypto, sources, listed[..|listed| - 1]);
      var reason := ArtifactReasonFor(crypto, key, sources[key]);
      if reason.None? then earlier else earlier + [ArtifactFailure(key, reason.value)]
  }

  ghost predicate AllIntact(crypto: Crypto, sources: map<Key, Source>) {
    forall key :: key in sources ==> Intact(crypto, key, sources[key])
  }

  lemma {:induction false} NoArtifactFailures(crypto: Crypto, sources: map<Key, Source>, listed: seq<Key>)
    requires forall key :: key in listed ==> key in sources
    ensures ArtifactFailures(crypto, sources, listed) == [] <==>
            forall key :: key in listed ==> Intact(crypto, key, sources[key])
  {
    if listed != [] {
      var n := |listed| - 1;
      NoArtifactFailures(crypto, sources, listed[..n]);
      assert listed == listed[..n] + [listed[n]];
    }
  }

  /** How many of the artifacts listed are signed with an algorithm. */
  function SignedWith(sources: map<Key, Source>, listed: seq<Key>, algorithm: string): (count: nat)
    requires forall key :: key in listed ==> key in sources
  {
    if listed == [] then 0
    else
      SignedWith(sources, listed[..|listed| - 1], algorithm)
      + if sources[listed[|listed| - 1]].envelope.algorithm == Some(algorithm) then 1 else 0
  }

  /** Which of the artifacts listed have an algorithm, a key id or a signature, and which have none of them. */
  ghost function SignedAt(sources: map<Key, Source>, listed: seq<Key>): (indices: set<int>)
    requires forall key :: key in listed ==> key in sources
    ensures forall i :: i in indices <==>
              0 <= i < |listed|
              && var e := sources[listed[i]].envelope; e.algorithm.Some? || e.keyId.Some? || e.signature.Some?
  {
    if listed == [] then {}
    else
      var n := |listed| - 1;
      SignedAt(sources, listed[..n]) + if HasSignature(sources[listed[n]].envelope) then {n} else {}
  }

  ghost function UnsignedAt(sources: map<Key, Source>, listed: seq<Key>): (indices: set<int>)
    requires forall key :: key in listed ==> key in sources
    ensures forall i :: i in indices <==>
              0 <= i < |listed|
              && var e := sources[listed[i]].envelope; e.algorithm.None? && e.keyId.None? && e.signature.None?
  {
    if listed == [] then {}
    else
      var n := |listed| - 1;
      UnsignedAt(sources, listed[..n]) + if HasSignature(sources[listed[n]].envelope) then {} else {n}
  }

  ghost predicate CountsAlgorithms(algorithms: map<string, nat>, sources: map<Key, Source>, listed: seq<Key>)
    requires forall key :: key in listed ==> key in sources
  {
    forall a :: (if a in algorithms then algorithms[a] else 0) == SignedWith(sources, listed, a)
  }

  /** The pass of `verify_artifacts` over the three source tables; `listed` is the order of the rows read. */
  method VerifyPayloads(crypto: Crypto, sources: map<Key, Source>, listed: seq<Key>)
    returns (signed: nat, unsigned: nat, algorithms: map<string, nat>, failures: seq<ArtifactFailure>)
    requires forall key :: key in listed <==> key in sources
    ensures signed == |SignedAt(sources, listed)| && unsigned == |UnsignedAt(sources, listed)|
    ensures signed + unsigned == |listed| && |failures| <= |listed| && CountsAlgorithms(algorithms, sources, listed)
    ensures failures == ArtifactFailures(crypto, sources, listed)
    ensures failures == [] <==> AllIntact(crypto, sources)
  {
    signed, unsigned, algorithms, failures := 0, 0, map[], [];
    for i := 0 to |listed|
      invariant AuditedUpTo(crypto, sources, listed[..i], signed, unsigned, algorithms, failures)
    {
      signed, unsigned, algorithms, failures :=
        VerifyNext(crypto, sources, listed, i, signed, unsigned, algorithms, failures);
    }
    assert listed[..|listed|] == listed;
    NoArtifactFailures(crypto, sources, listed);
  }

  /** What the pass has counted and found among the artifacts so far. */
  ghost predicate AuditedUpTo(crypto: Crypto, sources: map<Key, Source>, listed: seq<Key>, signed: nat, unsigned: nat,
                              algorithms: map<string, nat>, failures: seq<ArtifactFailure>)
    requires forall key :: key in listed ==> key in sources
  {
    && signed == |SignedAt(sources, listed)| && unsigned == |UnsignedAt(sources, listed)|
    && signed + unsigned == |listed| && |failures| <= |listed|
    && CountsAlgorithms(algorithms, sources, listed)
    && failures == ArtifactFailures(crypto, sources, listed)
  }

  /** One artifact of the pass. */
  method VerifyNext(crypto: Crypto, sources: map<Key, Source>, listed: seq<Key>, i: nat, signedIn: nat, unsignedIn: nat,
                    algorithmsIn: map<string, nat>, failuresIn: seq<ArtifactFailure>)
    returns (signed: nat, unsigned: nat, algorithms: map<string, nat>, failures: seq<ArtifactFailure>)
    requires i < |listed| && forall key :: key in listed ==> key in sources
    requires AuditedUpTo(crypto, sources, listed[..i], signedIn, unsignedIn, algorithmsIn, failuresIn)
    ensures AuditedUpTo(crypto, sources, listed[..i + 1], signed, unsigned, algorithms, failures)
  {
    signed, unsigned, failures := signedIn, unsignedIn, failuresIn;
    var key := listed[i];
    var e := sources[key].envelope;
    SignedNext(sources, listed, i);
    FailuresWith(crypto, sources, listed, i);
    if HasSignature(e) {
      signed := signed + 1;
    } else {
      unsigned := unsigned + 1;
    }
    algorithms := CountAlgorithm(sources, listed, i, algorithmsIn);
    if crypto.artifactDigest(sources[key].payload) != e.payloadSha {
      failures := failures + [ArtifactFailure(key, DigestMismatch)];
    } else if !IsAuthentic(crypto, key, e) {
      failures := failures + [ArtifactFailure(key, NotAuthentic)];
    }
  }

  lemma SignedNext(sources: map<Key, Source>, listed: seq<Key>, i: nat)
    requires i < |listed| && forall key :: key in listed ==> key in sources
    ensures var one := if HasSignature(sources[listed[i]].envelope) then 1 else 0;
            && |SignedAt(sources, listed[..i + 1])| == |SignedAt(sources, listed[..i])| + one
            && |UnsignedAt(sources, listed[..i + 1])| == |UnsignedAt(sources, listed[..i])| + 1 - one
  {
    assert listed[..i + 1][..i] == listed[..i];
    assert i !in SignedAt(sources, listed[..i]) && i !in UnsignedAt(sources, listed[..i]);
  }

  lemma FailuresWith(crypto: Crypto, sources: map<Key, Source>, listed: seq<Key>, i: nat)
    requires i < |listed| && forall key :: key in listed ==> key in sources
    ensures var reason := ArtifactReasonFor(crypto, listed[i], sources[listed[i]]);
            ArtifactFailures(crypto, sources, listed[..i + 1])
            == ArtifactFailures(crypto, sources, listed[..i])
               + if reason.None? then [] else [ArtifactFailure(listed[i], reason.value)]
  {
    assert listed[..i + 1][..i] == listed[..i];
  }

  /** One more artifact among those counted by algorithm. */
  method CountAlgorithm(sources: map<Key, Source>, listed: seq<Key>, i: nat, before: map<string, nat>)
    returns (algorithms: map<string, nat>)
    requires i < |listed| && forall key :: key in listed ==> key in sources
    requires CountsAlgorithms(before, sources, listed[..i])
    ensures CountsAlgorithms(algorithms, sources, listed[..i + 1])
  {
    var e := sources[listed[i]].envelope;
    assert listed[..i + 1][..i] == listed[..i];
    algorithms := before;
    if e.algorithm.Some? {
      var a := e.algorithm.value;
      algorithms := algorithms[a := (if a in algorithms then algorithms[a] else 0) + 1];
    }
  }

  /** `_verify_authenticity`; `verify` is false for a key the keyring does not have. */
  predicate IsAuthentic(crypto: Crypto, key: Key, e: Envelope)
    ensures IsAuthentic(crypto, key, e) <==> CompleteSignature(crypto, key, e)
  {
    if !HasSignature(e) then true
    else if e.algorithm.None? || e.keyId.None? || e.signature.None? then false
    else
      crypto.verify(e.algorithm.value, e.keyId.value,
                    SignatureMessage(key.artifactType, key.artifactId, e.payloadSha), e.signature.value)
  }

  // ---- The whole audit ----

  /** Tables in which the auditor finds nothing. */
  ghost predicate Clean(crypto: Crypto, tenant: string, db: State) {
    && AllIntact(crypto, db.sources)
    && Chained(crypto, tenant, db.rows) && AgreesWithSources(db.rows, db.sources)
    && forall c :: c in db.checkpoints ==> Anchors(crypto, tenant, c, db.rows)
  }

  /** `verify_artifacts`: its three lists of failures are empty exactly on clean tables. */
  method VerifyArtifacts(crypto: Crypto, tenant: string, db: State, listed: seq<Key>) returns (report: Report)
    requires forall key :: key in listed <==> key in db.sources
    ensures report.checked == |listed| == report.signed + report.unsigned == report.valid + |report.failures|
    ensures report.signed == |SignedAt(db.sources, listed)| && report.unsigned == |UnsignedAt(db.sources, listed)|
    ensures report.ledgerChecked == |db.rows| == report.ledgerValid + |report.ledgerFailures|
    ensures report.checkpointChecked == |db.checkpoints| == report.checkpointValid + |report.checkpointFailures|
    ensures report.head == Head(db.rows) && CountsAlgorithms(report.algorithms, db.sources, listed)
    ensures report.failures == ArtifactFailures(crypto, db.sources, listed)
    ensures report.ledgerFailures == FailuresUpTo(crypto, tenant, db.rows, db.sources, |db.rows|)
    ensures report.checkpointFailures
            == CheckpointFailuresUpTo(crypto, tenant, HeadsOf(db.rows), db.checkpoints, |db.checkpoints|)
    ensures report.failures == [] && report.ledgerFailures == [] && report.checkpointFailures == [] <==>
            Clean(crypto, tenant, db)
  {
    var signed, unsigned, algorithms, failures := VerifyPayloads(crypto, db.sources, listed);
    var ledger, ledgerValid, head, ledgerFailures := VerifyArtifactLedger(crypto, tenant, db.rows, db.sources);
    var checkpoints, checkpointValid, checkpointFailures :=
      VerifyLedgerCheckpoints(crypto, tenant, db.rows, db.checkpoints);
    report := Report(|listed|, |listed| - |failures|, signed, unsigned, algorithms, failures,
                     ledger, ledgerValid, head, ledgerFailures,
                     checkpoints, checkpointValid, checkpointFailures);
  }

  /**
   From an empty schema, after any transactions, the auditor finds nothing wrong with ledger and
   checkpoints, those made along the way among them; and it finds nothing at all exactly when every
   stored payload reads back.
   */
  lemma EveryRunAuditsClean(crypto: Crypto, tenant: string, events: seq<Event>, k: nat)
    requires Sound(crypto) && AllAdmissible(events) && k <= |events|
    ensures var s := Run(crypto, tenant, events);
            && FailuresUpTo(crypto, tenant, s.rows, s.sources, |s.rows|) == []
            && CheckpointFailuresUpTo(crypto, tenant, HeadsOf(s.rows), s.checkpoints, |s.checkpoints|) == []
            && forall c :: c in Run(crypto, tenant, events[..k]).checkpoints ==> Anchors(crypto, tenant, c, s.rows)
    ensures Clean(crypto, tenant, Run(crypto, tenant, events)) <==> AllReadBack(crypto, Given(crypto, tenant, events))
  {
    var s := Run(crypto, tenant, events);
    RunKeepsInvariant(crypto, tenant, events);
    RunAppendOnly(crypto, tenant, events, k);
    StateAuditsClean(crypto, tenant, s);
    RunStores(crypto, tenant, events);
    forall key | key in s.sources
      ensures Intact(crypto, key, s.sources[key]) <==> ReadsBack(crypto, Given(crypto, tenant, events)[key])
    {
      RunReadsBack(crypto, tenant, events, key);
    }
  }

  ghost predicate AllReadBack(crypto: Crypto, given: map<Key, Json>) {
    forall key :: key in given ==> ReadsBack(crypto, given[key])
  }

  lemma StateAuditsClean(crypto: Crypto, tenant: string, s: State)
    requires Invariant(crypto, tenant, s)
    ensures FailuresUpTo(crypto, tenant, s.rows, s.sources, |s.rows|) == []
    ensures CheckpointFailuresUpTo(crypto, tenant, HeadsOf(s.rows), s.checkpoints, |s.checkpoints|) == []
    ensures AgreesWithSources(s.rows, s.sources)
  {
    forall row | row in s.rows
      ensures row.key in s.sources && s.sources[row.key].envelope == row.envelope
    {
      assert Backed(crypto, row, s.sources);
    }
    LedgerAuditsClean(crypto, tenant, s.rows, s.sources);
    CheckpointsAuditClean(crypto, tenant, s.rows, s.checkpoints);
  }

  lemma LedgerAuditsClean(crypto: Crypto, tenant: string, rows: seq<Row>, sources: map<Key, Source>)
    requires Chained(crypto, tenant, rows) && AgreesWithSources(rows, sources)
    ensures FailuresUpTo(crypto, tenant, rows, sources, |rows|) == []
  {
    assert rows[..|rows|] == rows;
    NoFailuresUpTo(crypto, tenant, rows, sources, |rows|);
  }

  lemma CheckpointsAuditClean(crypto: Crypto, tenant: string, rows: seq<Row>, checkpoints: seq<CheckpointRow>)
    requires Chained(crypto, tenant, rows) && forall c :: c in checkpoints ==> Anchors(crypto, tenant, c, rows)
    ensures CheckpointFailuresUpTo(crypto, tenant, HeadsOf(rows), checkpoints, |checkpoints|) == []
  {
    assert checkpoints[..|checkpoints|] == checkpoints;
    AllPassIsAnchors(crypto, tenant, rows, checkpoints);
    NoCheckpointFailures(crypto, tenant, HeadsOf(rows), checkpoints, |checkpoints|);
  }

  /**
   What a clean audit proves: in any tables without fault that hold a checkpoint whose signature is on
   a message the history has signed, the rows up to it are the ledger the history had when it issued
   the checkpoint, with the artifacts saved in it, or two of their texts collide.
   */
  lemma CleanAuditProvesHistory(crypto: Crypto, tenant: string, events: seq<Event>, db: State, c: CheckpointRow)
    returns (k: nat)
    requires Sound(crypto) && AllAdmissible(events) && Clean(crypto, tenant, db)
    requires c in db.checkpoints && c.payload.Some? && ':' !in c.checkpointId
    requires CheckpointMessage(SignedOf(c)) in Signed(crypto, tenant, events)
    ensures k < |events| && events[k].CheckpointEvent? && 0 <= c.sequence <= |db.rows|
    ensures var issued, past := Issued(crypto, tenant, events, k), Run(crypto, tenant, events[..k]);
            || CheckpointCollision(crypto, c.payload.value, issued)
            || (c.payload.value == issued && past.rows <= Run(crypto, tenant, events).rows
                && Restored(crypto, tenant, db.rows[..c.sequence], db.sources, past.rows,
                            Given(crypto, tenant, events)))
  {
    assert Anchors(crypto, tenant, c, db.rows);
    var rows := db.rows[..c.sequence];
    ChainedPrefix(crypto, tenant, db.rows, c.sequence);
    forall row | row in rows
      ensures Sealed(crypto, row, db.sources)
    {
      assert row in db.rows && Intact(crypto, row.key, db.sources[row.key]);
    }
    k := CheckpointFixesHistory(crypto, tenant, events, SignedOf(c), rows, db.sources);
  }

  /** The same with the store's own hash: two texts that are named have one hash, or it is that ledger. */
  lemma CleanAuditProvesHistoryByHash(
      sha: string -> string, sign: (string, string, string) -> string,
      verify: (string, string, string, string) -> bool, tenant: string, events: seq<Event>, db: State,
      c: CheckpointRow)
    returns (k: nat)
    requires Working(sha, sign, verify) && AllAdmissible(events) && HoldsTrees(db.sources)
    requires Clean(HashCrypto(sha, sign, verify), tenant, db)
    requires c in db.checkpoints && c.payload.Some? && ':' !in c.checkpointId
    requires CheckpointMessage(SignedOf(c)) in Signed(HashCrypto(sha, sign, verify), tenant, events)
    ensures k < |events| && events[k].CheckpointEvent? && 0 <= c.sequence <= |db.rows|
    ensures var crypto := HashCrypto(sha, sign, verify);
            var issued, past := Issued(crypto, tenant, events, k), Run(crypto, tenant, events[..k]);
            || HashCollision(sha, CheckpointText(c.payload.value), CheckpointText(issued))
            || (c.payload.value == issued && past.rows <= Run(crypto, tenant, events).rows
                && HashRestored(sha, tenant, db.rows[..c.sequence], db.sources, past.rows,
                                Given(crypto, tenant, events)))
  {
    var crypto := HashCrypto(sha, sign, verify);
    HashCryptoIsSound(sha, sign, verify);
    k := CleanAuditProvesHistory(crypto, tenant, events, db, c);
    ProvenByHash(sha, sign, verify, tenant, events, c.payload.value, k, db.rows[..c.sequence], db.sources);
  }

  /**
   What a clean audit does not see: with the newest rows gone and their artifacts left behind, the
   ledger pass is clean as before. The checkpoints tell exactly when one of them lies beyond the cut.
   */
  lemma CutIsSeenByCheckpoints(crypto: Crypto, tenant: string, db: State, n: nat)
    requires Clean(crypto, tenant, db) && n <= |db.rows|
    ensures FailuresUpTo(crypto, tenant, db.rows[..n], db.sources, n) == []
    ensures Clean(crypto, tenant, db.(rows := db.rows[..n])) <==> forall c :: c in db.checkpoints ==> c.sequence <= n
    ensures forall c :: c in db.checkpoints && c.sequence > n ==>
              ReasonFor(crypto, tenant, HeadsOf(db.rows[..n]), c) == Some(MissingSequence)
  {
    var cut := db.rows[..n];
    ChainedPrefix(crypto, tenant, db.rows, n);
    LedgerAuditsClean(crypto, tenant, cut, db.sources);
    forall c | c in db.checkpoints
      ensures Anchors(crypto, tenant, c, cut) <==> c.sequence <= n
      ensures c.sequence > n ==> ReasonFor(crypto, tenant, HeadsOf(cut), c) == Some(MissingSequence)
    {
      BeyondTheCut(crypto, tenant, db.rows, n, c);
    }
  }

  lemma BeyondTheCut(crypto: Crypto, tenant: string, rows: seq<Row>, n: nat, c: CheckpointRow)
    requires Chained(crypto, tenant, rows) && n <= |rows| && Anchors(crypto, tenant, c, rows)
    ensures Anchors(crypto, tenant, c, rows[..n]) <==> c.sequence <= n
    ensures c.sequence > n ==> ReasonFor(crypto, tenant, HeadsOf(rows[..n]), c) == Some(MissingSequence)
  {
    ChainedPrefix(crypto, tenant, rows, n);
    ChainHeads(crypto, tenant, rows[..n]);
    if c.sequence <= n {
      assert rows[..n][..c.sequence] == rows[..c.sequence];
    }
  }
}
