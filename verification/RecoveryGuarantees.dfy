/** What it means that the recovery verifier accepts a checkpoint, and when it must accept one. */
module RecoveryGuarantees {
  import opened Wrappers
  import opened CanonicalJson
  import opened Integrity
  import opened JsonbColumn
  import opened EvidenceRecords
  import opened EvidenceLedger
  import opened EvidenceStore
  import opened EvidenceHistory
  import opened Recovery

  // ---- What acceptance proves ----

  lemma {:induction false} RowsUpToNumbered(rows: seq<Row>, start: nat, n: int)
    requires forall i :: 0 <= i < |rows| ==> rows[i].sequence == start + i + 1
    ensures n <= start ==> RowsUpTo(rows, n) == []
    ensures start <= n <= start + |rows| ==> RowsUpTo(rows, n) == rows[..n - start]
    decreases |rows|
  {
    if rows != [] {
      RowsUpToNumbered(rows[1..], start + 1, n);
      if start < n <= start + |rows| {
        assert rows[..n - start] == [rows[0]] + rows[1..][..n - start - 1];
      }
    }
  }

  /**
   If the verifier accepts a checkpoint whose signature is on the message of a checkpoint that a store
   holds, the restored ledger up to it is the store's, with the artifacts saved in it, or two texts collide.
   */
  lemma AcceptedMeansRestored(crypto: Crypto, tenant: string, original: State, given: map<Key, Json>,
                              issued: CheckpointRow, db: State, access: Access, c: SignedCheckpoint, observedAt: int,
                              limits: Limits)
    requires Invariant(crypto, tenant, original) && Stores(crypto, original.sources, given)
    requires issued in original.checkpoints && issued.payload.Some?
    requires Accepted(crypto, db, access, c, observedAt, limits)
    requires ':' !in c.payload.checkpointId && ':' !in issued.checkpointId
    requires CheckpointMessage(c) == CheckpointMessage(SignedOf(issued))
    ensures 0 <= issued.sequence <= |original.rows|
    ensures || CheckpointCollision(crypto, c.payload, issued.payload.value)
            || (c.payload == issued.payload.value
                && Restored(crypto, tenant, RowsUpTo(db.rows, issued.sequence), db.sources,
                            original.rows[..issued.sequence], given))
  {
    assert Anchors(crypto, tenant, issued, original.rows);
    AcceptedRows(crypto, db, access, c, observedAt, limits);
    SignedAsIssued(crypto, tenant, original.rows, issued, c);
    if c.payload == issued.payload.value {
      ChainRestored(crypto, tenant, original, given, issued.sequence, RowsUpTo(db.rows, issued.sequence), db.sources);
    }
  }

  lemma SignedAsIssued(crypto: Crypto, tenant: string, rows: seq<Row>, issued: CheckpointRow, c: SignedCheckpoint)
    requires Anchors(crypto, tenant, issued, rows) && VerifyCheckpoint(crypto, c)
    requires ':' !in c.payload.checkpointId && ':' !in issued.checkpointId
    requires CheckpointMessage(c) == CheckpointMessage(SignedOf(issued))
    ensures c.payload == issued.payload.value || CheckpointCollision(crypto, c.payload, issued.payload.value)
    ensures issued.payload.value.sequence == issued.sequence && issued.payload.value.tenantId == tenant
    ensures issued.payload.value.head == Head(rows[..issued.sequence])
  {
    SignatureMessageInjective("ledger_checkpoint", c.payload.checkpointId, c.payloadSha,
                              "ledger_checkpoint", issued.checkpointId, issued.payloadSha);
  }

  lemma AcceptedRows(crypto: Crypto, db: State, access: Access, c: SignedCheckpoint, observedAt: int, limits: Limits)
    requires Accepted(crypto, db, access, c, observedAt, limits)
    ensures var rows := RowsUpTo(db.rows, c.payload.sequence);
            && |rows| == c.payload.sequence && Chained(crypto, c.payload.tenantId, rows) && Head(rows) == c.payload.head
            && forall row :: row in rows ==> Sealed(crypto, row, db.sources)
    ensures VerifyCheckpoint(crypto, c)
  {
    var rows := RowsUpTo(db.rows, c.payload.sequence);
    forall row | row in rows
      ensures Sealed(crypto, row, db.sources)
    {
      assert Sourced(crypto, row, db.sources);
    }
  }

  /**
   If the verifier accepts a checkpoint whose signature is on any message the history has signed, of an
   artifact or of a checkpoint, then the restored ledger up to it is the very ledger the history had when
   it issued the checkpoint, with the artifacts saved in it, or two of their texts collide.
   */
  lemma RecoveryProvesHistory(crypto: Crypto, tenant: string, events: seq<Event>,
                              db: State, access: Access, c: SignedCheckpoint, observedAt: int, limits: Limits)
    returns (k: nat)
    requires Sound(crypto) && AllAdmissible(events) && ':' !in c.payload.checkpointId
    requires Accepted(crypto, db, access, c, observedAt, limits)
    requires CheckpointMessage(c) in Signed(crypto, tenant, events)
    ensures k < |events| && events[k].CheckpointEvent?
    ensures var issued, past := Issued(crypto, tenant, events, k), Run(crypto, tenant, events[..k]);
            || CheckpointCollision(crypto, c.payload, issued)
            || (c.payload == issued && past.rows <= Run(crypto, tenant, events).rows
                && Restored(crypto, tenant, RowsUpTo(db.rows, |past.rows|), db.sources, past.rows,
                            Given(crypto, tenant, events)))
  {
    AcceptedRows(crypto, db, access, c, observedAt, limits);
    k := CheckpointFixesHistory(crypto, tenant, events, c, RowsUpTo(db.rows, c.payload.sequence), db.sources);
  }

  /**
   The same with the store's own hash, and without a word of digests: the restored ledger is the one the
   history had, with the artifacts saved in it, or two texts that are named have one hash.
   */
  lemma RecoveryProvesHistoryByHash(
      sha: string -> string, sign: (string, string, string) -> string,
      verify: (string, string, string, string) -> bool, tenant: string, events: seq<Event>, db: State,
      access: Access, c: SignedCheckpoint, observedAt: int, limits: Limits)
    returns (k: nat)
    requires Working(sha, sign, verify) && AllAdmissible(events) && ':' !in c.payload.checkpointId
    requires HoldsTrees(db.sources)
    requires Accepted(HashCrypto(sha, sign, verify), db, access, c, observedAt, limits)
    requires CheckpointMessage(c) in Signed(HashCrypto(sha, sign, verify), tenant, events)
    ensures k < |events| && events[k].CheckpointEvent?
    ensures var crypto := HashCrypto(sha, sign, verify);
            var issued, past := Issued(crypto, tenant, events, k), Run(crypto, tenant, events[..k]);
            || HashCollision(sha, CheckpointText(c.payload), CheckpointText(issued))
            || (c.payload == issued && past.rows <= Run(crypto, tenant, events).rows
                && HashRestored(sha, tenant, RowsUpTo(db.rows, |past.rows|), db.sources, past.rows,
                                Given(crypto, tenant, events)))
  {
    var crypto := HashCrypto(sha, sign, verify);
    HashCryptoIsSound(sha, sign, verify);
    k := RecoveryProvesHistory(crypto, tenant, events, db, access, c, observedAt, limits);
    var past := Run(crypto, tenant, events[..k]);
    ProvenByHash(sha, sign, verify, tenant, events, c.payload, k, RowsUpTo(db.rows, |past.rows|), db.sources);
  }

  // ---- What the verifier must accept ----

  lemma OneCheckpointPerId(checkpoints: seq<CheckpointRow>, c: CheckpointRow)
    requires c in checkpoints
    requires forall i, j :: 0 <= i < j < |checkpoints| ==> checkpoints[i].checkpointId != checkpoints[j].checkpointId
    ensures FindCheckpoint(checkpoints, c.checkpointId) == Some(c)
  {
    var found := FindCheckpoint(checkpoints, c.checkpointId).value;
    var i :| 0 <= i < |checkpoints| && checkpoints[i] == c;
    var j :| 0 <= j < |checkpoints| && checkpoints[j] == found;
  }

  /** The artifacts of the rows are read back as they were given. */
  ghost predicate RowsReadBack(crypto: Crypto, rows: seq<Row>, given: map<Key, Json>) {
    forall row :: row in rows ==> row.key in given && ReadsBack(crypto, given[row.key])
  }

  /**
   A faithful copy of the store, taken at any time after a fresh checkpoint, is accepted exactly when the
   payloads of the artifacts up to the checkpoint are read back as they were given: when none of them
   holds a large float, or the texts of those that do collide.
   */
  lemma FaithfulCopyAccepted(crypto: Crypto, tenant: string, s: State, given: map<Key, Json>, issued: CheckpointRow,
                             observedAt: int, limits: Limits)
    requires Canonical(crypto) && Invariant(crypto, tenant, s) && Stores(crypto, s.sources, given)
    requires issued in s.checkpoints && issued.payload.Some? && 0 <= issued.sequence <= |s.rows|
    requires -300_000_000 <= observedAt - issued.createdAt <= limits.maxAge && issued.sequence <= limits.maxEntries
    ensures Accepted(crypto, s, AllTables, SignedOf(issued), observedAt, limits) <==>
            RowsReadBack(crypto, s.rows[..issued.sequence], given)
  {
    assert Anchors(crypto, tenant, issued, s.rows);
    var c := SignedOf(issued);
    assert Persisted(s, c) by {
      OneCheckpointPerId(s.checkpoints, issued);
    }
    assert Presentable(crypto, c, observedAt, limits);
    RowsUpToNumbered(s.rows, 0, issued.sequence);
    ChainedPrefix(crypto, tenant, s.rows, issued.sequence);
    PrefixSourced(crypto, tenant, s, given, issued.sequence);
  }

  lemma PrefixSourced(crypto: Crypto, tenant: string, s: State, given: map<Key, Json>, n: nat)
    requires Canonical(crypto) && Invariant(crypto, tenant, s) && Stores(crypto, s.sources, given) && n <= |s.rows|
    ensures AllSourced(crypto, s.rows[..n], s.sources) <==> RowsReadBack(crypto, s.rows[..n], given)
  {
    forall row | row in s.rows[..n]
      ensures row.key in given && (Sourced(crypto, row, s.sources) <==> ReadsBack(crypto, given[row.key]))
    {
      assert row in s.rows;
      RowIsSourced(crypto, tenant, s, given, row);
    }
  }

  lemma RowIsSourced(crypto: Crypto, tenant: string, s: State, given: map<Key, Json>, row: Row)
    requires Canonical(crypto) && Invariant(crypto, tenant, s) && Stores(crypto, s.sources, given) && row in s.rows
    ensures row.key in given && (Sourced(crypto, row, s.sources) <==> ReadsBack(crypto, given[row.key]))
  {
    assert Backed(crypto, row, s.sources);
    assert HoldsGiven(crypto, s.sources[row.key], given[row.key]);
    StoredIsIntact(crypto, tenant, s, given, row.key);
    IntactIsSourced(crypto, row, s.sources, given[row.key]);
  }

  lemma IntactIsSourced(crypto: Crypto, row: Row, sources: map<Key, Source>, payload: Json)
    requires Backed(crypto, row, sources) && HoldsGiven(crypto, sources[row.key], payload)
    ensures Sourced(crypto, row, sources) <==> Intact(crypto, row.key, sources[row.key])
  {
    assert sources[row.key].payload == Column(payload) && Column(payload).Obj?;
  }

  /** The same in every run, and for every checkpoint it holds. */
  lemma RunCopyAccepted(crypto: Crypto, tenant: string, events: seq<Event>, issued: CheckpointRow,
                        observedAt: int, limits: Limits)
    requires Sound(crypto) && AllAdmissible(events) && issued in Run(crypto, tenant, events).checkpoints
    requires -300_000_000 <= observedAt - issued.createdAt <= limits.maxAge && issued.sequence <= limits.maxEntries
    ensures var s := Run(crypto, tenant, events);
            && issued.payload.Some? && 0 <= issued.sequence <= |s.rows|
            && (Accepted(crypto, s, AllTables, SignedOf(issued), observedAt, limits) <==>
                RowsReadBack(crypto, s.rows[..issued.sequence], Given(crypto, tenant, events)))
  {
    RunKeepsInvariant(crypto, tenant, events);
    RunStores(crypto, tenant, events);
    var s := Run(crypto, tenant, events);
    assert Anchors(crypto, tenant, issued, s.rows);
    FaithfulCopyAccepted(crypto, tenant, s, Given(crypto, tenant, events), issued, observedAt, limits);
  }

  /** With the store's own hash: exactly when no payload holds a large float, unless its two texts have one hash. */
  lemma RunCopyAcceptedByHash(
      sha: string -> string, sign: (string, string, string) -> string,
      verify: (string, string, string, string) -> bool, tenant: string, events: seq<Event>, issued: CheckpointRow,
      observedAt: int, limits: Limits)
    requires Working(sha, sign, verify) && AllAdmissible(events)
    requires issued in Run(HashCrypto(sha, sign, verify), tenant, events).checkpoints && issued.payload.Some?
    requires -300_000_000 <= observedAt - issued.createdAt <= limits.maxAge && issued.sequence <= limits.maxEntries
    ensures var crypto := HashCrypto(sha, sign, verify);
            var s, given := Run(crypto, tenant, events), Given(crypto, tenant, events);
            && 0 <= issued.sequence <= |s.rows|
            && (Accepted(crypto, s, AllTables, SignedOf(issued), observedAt, limits) <==>
                forall row :: row in s.rows[..issued.sequence] ==>
                                row.key in given && HashReadsBack(sha, given[row.key]))
  {
    var crypto := HashCrypto(sha, sign, verify);
    HashCryptoIsSound(sha, sign, verify);
    RunCopyAccepted(crypto, tenant, events, issued, observedAt, limits);
    RunStores(crypto, tenant, events);
    var given := Given(crypto, tenant, events);
    forall key | key in given
      ensures ReadsBack(crypto, given[key]) <==> HashReadsBack(sha, given[key])
    {
      assert HoldsGiven(crypto, Run(crypto, tenant, events).sources[key], given[key]);
      ReadsBackByHash(sha, sign, verify, given[key]);
    }
  }

  const LARGE_FLOAT := Obj([Field("x", Float("1e+16"))])
  const LARGE_FLOAT_RUN := [SaveEvent(Key("run", "r"), LARGE_FLOAT, None, true), CheckpointEvent("c", 0, 1, "k")]

  lemma LargeFloatSaved(crypto: Crypto, tenant: string)
    requires Sound(crypto)
    ensures var s := Run(crypto, tenant, [LARGE_FLOAT_RUN[0]]);
            && |s.rows| == 1 && s.rows[0].key == Key("run", "r") && s.checkpoints == []
    ensures Given(crypto, tenant, [LARGE_FLOAT_RUN[0]]) == map[Key("run", "r") := LARGE_FLOAT]
  {
    LargeFloatPayload();
    var save := LARGE_FLOAT_RUN[0];
    assert [save][..0] == [] && Run(crypto, tenant, []) == EmptyState;
    assert FindEntry([], Key("run", "r")).None?;
    assert Save(crypto, tenant, EmptyState, save.key, save.payload, save.signer, save.replace).1 == Saved;
  }

  lemma LargeFloatHistory(crypto: Crypto, tenant: string)
    requires Sound(crypto)
    ensures var s, given := Run(crypto, tenant, LARGE_FLOAT_RUN), Given(crypto, tenant, LARGE_FLOAT_RUN);
            && |s.rows| == 1 && s.rows[0].key == Key("run", "r")
            && |s.checkpoints| == 1 && s.checkpoints[0].payload.Some?
            && s.checkpoints[0].createdAt == 0 && s.checkpoints[0].sequence == 1
            && given == map[Key("run", "r") := LARGE_FLOAT]
  {
    LargeFloatSaved(crypto, tenant);
    assert LARGE_FLOAT_RUN[..1] == [LARGE_FLOAT_RUN[0]];
    var saved := Run(crypto, tenant, [LARGE_FLOAT_RUN[0]]);
    assert !IdTaken(saved.checkpoints, "c");
    assert Run(crypto, tenant, LARGE_FLOAT_RUN) == Apply(crypto, tenant, saved, LARGE_FLOAT_RUN[1]);
  }

  lemma LargeFloatAdmissible()
    ensures AllAdmissible(LARGE_FLOAT_RUN)
  {
    LargeFloatPayload();
    assert ':' !in "r" && ':' !in "c" && IsKeyId("k");
  }

  lemma LargeFloatPayload()
    ensures IsTree(LARGE_FLOAT) && AllFinite(LARGE_FLOAT) && Storable(LARGE_FLOAT) && !Plain(LARGE_FLOAT)
  {
    LargeText();
    NoNulInKey();
    OneField("x", Float("1e+16"));
  }

  lemma NoNulInKey()
    ensures '\0' !in "x"
  {
  }

  lemma OneField(key: string, value: Json)
    requires IsTree(value) && AllFinite(value) && Storable(value) && !Plain(value) && '\0' !in key
    ensures var j := Obj([Field(key, value)]); IsTree(j) && AllFinite(j) && Storable(j) && !Plain(j)
  {
    var fields := [Field(key, value)];
    assert fields[0].value == value;
  }

  /** One run with the float 1e16, and a checkpoint: an untouched copy is refused, unless two texts collide. */
  lemma LargeFloatIsRefused(crypto: Crypto, tenant: string, limits: Limits)
    requires Sound(crypto) && limits.maxAge >= 0 && limits.maxEntries >= 1
    ensures AllAdmissible(LARGE_FLOAT_RUN)
    ensures var s := Run(crypto, tenant, LARGE_FLOAT_RUN);
            && |s.checkpoints| == 1 && s.checkpoints[0].payload.Some?
            && (Accepted(crypto, s, AllTables, SignedOf(s.checkpoints[0]), 0, limits) <==>
                ArtifactCollision(crypto, Column(LARGE_FLOAT), LARGE_FLOAT))
  {
    LargeFloatHistory(crypto, tenant);
    LargeFloatPayload();
    LargeFloatAdmissible();
    var s := Run(crypto, tenant, LARGE_FLOAT_RUN);
    RunCopyAccepted(crypto, tenant, LARGE_FLOAT_RUN, s.checkpoints[0], 0, limits);
    assert s.rows[..1] == s.rows;
  }
}
