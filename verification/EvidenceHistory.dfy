/** Whole histories of one tenant's evidence: any transactions, committed or rolled back, on an empty schema. */
module EvidenceHistory {
  import opened Wrappers
  import opened CanonicalJson
  import opened Integrity
  import opened JsonbColumn
  import opened EvidenceRecords
  import opened EvidenceLedger
  import opened EvidenceStore

  /** A transaction the store may be asked for; one that fails leaves the tables as they were. */
  datatype Event =
    | SaveEvent(key: Key, payload: Json, signer: Option<Signer>, replace: bool)
    | CheckpointEvent(id: string, now: int, days: int, keyId: string)

  /** Artifact and checkpoint ids are UUIDs; all that matters here is that they hold no colon. */
  ghost predicate Admissible(event: Event) {
    match event
    case SaveEvent(key, payload, signer, _) =>
      && IsArtifactType(key.artifactType) && ':' !in key.artifactId && payload.Obj? && IsTree(payload)
      && (signer.Some? ==> signer.value.algorithm == ED25519 || signer.value.algorithm == HMAC_SHA256)
    case CheckpointEvent(id, _, days, keyId) => ':' !in id && 1 <= days <= 3650 && IsKeyId(keyId)
  }

  /** What the store's methods ask of their callers is enough: histories may hold any of their calls. */
  lemma EveryCallIsAdmissible(id: string, payload: Json, algorithm: string, name: string, replace: bool, now: int,
                              days: int)
    requires ':' !in id && payload.Obj? && IsTree(payload) && (algorithm == "ed25519" || algorithm == "hmac-sha256")
    ensures forall t :: t == "run" || t == "comparison" || t == "guardrail_evidence" ==>
              && Admissible(SaveEvent(Key(t, id), payload, None, replace))
              && Admissible(SaveEvent(Key(t, id), payload, Some(Signer(algorithm, name)), replace))
    ensures 0 < days < 3651 && IsKeyId(name) ==> Admissible(CheckpointEvent(id, now, days, name))
  {
  }

  ghost predicate AllAdmissible(events: seq<Event>) {
    forall event :: event in events ==> Admissible(event)
  }

  function Apply(crypto: Crypto, tenant: string, s: State, event: Event): (s': State) {
    match event
    case SaveEvent(key, payload, signer, replace) => Save(crypto, tenant, s, key, payload, signer, replace).0
    case CheckpointEvent(id, now, days, keyId) => Checkpoint(crypto, tenant, s, id, now, days, keyId)
  }

  /** The tables after a sequence of transactions on an empty schema. */
  function Run(crypto: Crypto, tenant: string, events: seq<Event>): (s: State) {
    if events == [] then EmptyState
    else Apply(crypto, tenant, Run(crypto, tenant, events[..|events| - 1]), events[|events| - 1])
  }

  /** The payload that each stored artifact was last saved with. */
  function Given(crypto: Crypto, tenant: string, events: seq<Event>): (given: map<Key, Json>) {
    if events == [] then map[]
    else
      var before := events[..|events| - 1];
      var earlier := Given(crypto, tenant, before);
      match events[|events| - 1]
      case SaveEvent(key, payload, signer, replace) =>
        var outcome := Save(crypto, tenant, Run(crypto, tenant, before), key, payload, signer, replace).1;
        GivenAfter(outcome, earlier, key, payload)
      case CheckpointEvent(_, _, _, _) => earlier
  }

  lemma {:induction false} RunKeepsInvariant(crypto: Crypto, tenant: string, events: seq<Event>)
    requires Sound(crypto) && AllAdmissible(events)
    ensures Invariant(crypto, tenant, Run(crypto, tenant, events))
  {
    if events != [] {
      var before := events[..|events| - 1];
      assert events[|events| - 1] in events;
      RunKeepsInvariant(crypto, tenant, before);
      match events[|events| - 1]
      case SaveEvent(key, payload, signer, replace) =>
        SaveKeepsInvariant(crypto, tenant, Run(crypto, tenant, before), key, payload, signer, replace);
      case CheckpointEvent(id, now, days, keyId) =>
        CheckpointKeepsInvariant(crypto, tenant, Run(crypto, tenant, before), id, now, days, keyId);
    }
  }

  /** Every stored artifact is the column of the payload it was last saved with, under that payload's digest. */
  lemma {:induction false} RunStores(crypto: Crypto, tenant: string, events: seq<Event>)
    requires AllAdmissible(events)
    ensures Stores(crypto, Run(crypto, tenant, events).sources, Given(crypto, tenant, events))
  {
    if events != [] {
      var before := events[..|events| - 1];
      assert events[|events| - 1] in events;
      RunStores(crypto, tenant, before);
      match events[|events| - 1]
      case SaveEvent(key, payload, signer, replace) =>
        SaveStores(crypto, tenant, Run(crypto, tenant, before), Given(crypto, tenant, before), key, payload, signer,
                   replace);
      case CheckpointEvent(_, _, _, _) =>
    }
  }

  /**
   In every run an artifact is intact, read back with the digest and signature it was saved with, exactly
   when the payload it was last saved with holds no large float, or its two texts collide.
   */
  lemma RunReadsBack(crypto: Crypto, tenant: string, events: seq<Event>, key: Key)
    requires Sound(crypto) && AllAdmissible(events) && key in Run(crypto, tenant, events).sources
    ensures key in Given(crypto, tenant, events)
    ensures Intact(crypto, key, Run(crypto, tenant, events).sources[key]) <==>
            ReadsBack(crypto, Given(crypto, tenant, events)[key])
  {
    RunKeepsInvariant(crypto, tenant, events);
    RunStores(crypto, tenant, events);
    StoredIsIntact(crypto, tenant, Run(crypto, tenant, events), Given(crypto, tenant, events), key);
  }

  /** Ledger and checkpoints only grow: what was there after the first `k` transactions is still there. */
  lemma {:induction false} RunAppendOnly(crypto: Crypto, tenant: string, events: seq<Event>, k: nat)
    requires k <= |events|
    ensures Run(crypto, tenant, events[..k]).rows <= Run(crypto, tenant, events).rows
    ensures Run(crypto, tenant, events[..k]).checkpoints <= Run(crypto, tenant, events).checkpoints
    decreases |events|
  {
    if k == |events| {
      assert events[..k] == events;
    } else {
      var before := events[..|events| - 1];
      RunAppendOnly(crypto, tenant, before, k);
      assert before[..k] == events[..k];
      match events[|events| - 1]
      case SaveEvent(key, payload, signer, replace) =>
        SaveGrows(crypto, tenant, Run(crypto, tenant, before), key, payload, signer, replace);
      case CheckpointEvent(_, _, _, _) =>
    }
  }

  // ---- What a history signs ----

  /** The messages a transaction signs, whether it commits or not. */
  function SignedBy(crypto: Crypto, tenant: string, s: State, event: Event): (messages: set<string>) {
    match event
    case SaveEvent(key, payload, signer, _) =>
      if !AllFinite(payload) || signer.None? then {}
      else {SignatureMessage(key.artifactType, key.artifactId, crypto.artifactDigest(payload))}
    case CheckpointEvent(id, now, days, keyId) =>
      if exists c :: c in s.checkpoints && Reusable(s, c, now) then {}
      else {CheckpointMessage(NewCheckpoint(crypto, tenant, s, id, now, days, keyId))}
  }

  /** All that a history has signed: what a signature of the tenant's keys may be on. */
  function Signed(crypto: Crypto, tenant: string, events: seq<Event>): (messages: set<string>) {
    if events == [] then {}
    else
      var before := events[..|events| - 1];
      Signed(crypto, tenant, before) + SignedBy(crypto, tenant, Run(crypto, tenant, before), events[|events| - 1])
  }

  lemma {:induction false} SignedAt(crypto: Crypto, tenant: string, events: seq<Event>, message: string)
    returns (k: nat)
    requires message in Signed(crypto, tenant, events)
    ensures k < |events| && message in SignedBy(crypto, tenant, Run(crypto, tenant, events[..k]), events[k])
  {
    var n := |events| - 1;
    if message in SignedBy(crypto, tenant, Run(crypto, tenant, events[..n]), events[n]) {
      k := n;
    } else {
      k := SignedAt(crypto, tenant, events[..n], message);
      assert events[..n][..k] == events[..k];
    }
  }

  /** Every signature that the store holds is on a message that the history has signed. */
  lemma {:induction false} SignaturesAreSigned(crypto: Crypto, tenant: string, events: seq<Event>)
    ensures forall key :: key in Run(crypto, tenant, events).sources ==>
              HeldMessage(key, Run(crypto, tenant, events).sources[key].envelope, Signed(crypto, tenant, events))
    ensures forall c :: c in Run(crypto, tenant, events).checkpoints && c.payload.Some? ==>
              CheckpointMessage(SignedOf(c)) in Signed(crypto, tenant, events)
  {
    if events != [] {
      var before, e := events[..|events| - 1], events[|events| - 1];
      SignaturesAreSigned(crypto, tenant, before);
      match e
      case SaveEvent(key, payload, signer, replace) =>
        SaveHolds(crypto, tenant, Run(crypto, tenant, before), e, Signed(crypto, tenant, before));
      case CheckpointEvent(id, now, days, keyId) =>
    }
  }

  /** An envelope without a signature, or one on a message of the set. */
  ghost predicate HeldMessage(key: Key, e: Envelope, messages: set<string>) {
    e.signature.Some? ==> SignatureMessage(key.artifactType, key.artifactId, e.payloadSha) in messages
  }

  lemma SaveHolds(crypto: Crypto, tenant: string, s: State, e: Event, messages: set<string>)
    requires e.SaveEvent? && forall key :: key in s.sources ==> HeldMessage(key, s.sources[key].envelope, messages)
    ensures var s' := Apply(crypto, tenant, s, e);
            forall key :: key in s'.sources ==>
              HeldMessage(key, s'.sources[key].envelope, messages + SignedBy(crypto, tenant, s, e))
  {
  }

  /** What a checkpoint signed as transaction `k` says. */
  function Issued(crypto: Crypto, tenant: string, events: seq<Event>, k: nat): (p: CheckpointPayload)
    requires k < |events| && events[k].CheckpointEvent?
  {
    var e := events[k];
    NewCheckpoint(crypto, tenant, Run(crypto, tenant, events[..k]), e.id, e.now, e.days, e.keyId).payload
  }

  /**
   A checkpoint that verifies, and whose signature is on any message the history has signed, of a run,
   a comparison, guardrail evidence or a checkpoint, is one that the history issued, or collides with it.
   */
  lemma VerifiedIsIssued(crypto: Crypto, tenant: string, events: seq<Event>, c: SignedCheckpoint) returns (k: nat)
    requires AllAdmissible(events) && ':' !in c.payload.checkpointId
    requires VerifyCheckpoint(crypto, c) && CheckpointMessage(c) in Signed(crypto, tenant, events)
    ensures k < |events| && events[k].CheckpointEvent?
    ensures c.payload == Issued(crypto, tenant, events, k)
            || CheckpointCollision(crypto, c.payload, Issued(crypto, tenant, events, k))
  {
    k := SignedAt(crypto, tenant, events, CheckpointMessage(c));
    assert events[k] in events;
    match events[k]
    case SaveEvent(key, payload, _, _) =>
      ArtifactIsNoCheckpoint(key, crypto.artifactDigest(payload), c);
    case CheckpointEvent(id, now, days, keyId) =>
      var issued := NewCheckpoint(crypto, tenant, Run(crypto, tenant, events[..k]), id, now, days, keyId);
      SignatureMessageInjective("ledger_checkpoint", c.payload.checkpointId, c.payloadSha, "ledger_checkpoint", id,
                                issued.payloadSha);
  }

  lemma ArtifactIsNoCheckpoint(key: Key, digest: string, c: SignedCheckpoint)
    requires IsArtifactType(key.artifactType) && ':' !in key.artifactId && ':' !in c.payload.checkpointId
    ensures SignatureMessage(key.artifactType, key.artifactId, digest) != CheckpointMessage(c)
  {
    assert |"ledger_checkpoint"| == 17 && key.artifactType != "ledger_checkpoint";
    if SignatureMessage(key.artifactType, key.artifactId, digest) == CheckpointMessage(c) {
      SignatureMessageInjective(key.artifactType, key.artifactId, digest,
                                "ledger_checkpoint", c.payload.checkpointId, c.payloadSha);
    }
  }

  // ---- What another copy of the tables can be held to ----

  /** The row's artifact has its envelope, and a payload that is the one given or collides with it. */
  ghost predicate SourceRestored(crypto: Crypto, row: Row, sources: map<Key, Source>, given: map<Key, Json>) {
    && row.key in sources && row.key in given
    && sources[row.key].envelope == row.envelope
    && (Same(sources[row.key].payload, given[row.key])
        || ArtifactCollision(crypto, sources[row.key].payload, given[row.key]))
  }

  /** The rows are the original ones, with the artifacts given, or two rows at one place collide. */
  ghost predicate Restored(crypto: Crypto, tenant: string, rows: seq<Row>, sources: map<Key, Source>,
                           original: seq<Row>, given: map<Key, Json>)
  {
    || (|rows| == |original| && exists i :: 0 <= i < |rows| && EntryCollision(crypto, tenant, rows[i], original[i]))
    || (rows == original && forall row :: row in rows ==> SourceRestored(crypto, row, sources, given))
  }

  /** The row's artifact is there with its envelope, under the digest of its payload. */
  ghost predicate Sealed(crypto: Crypto, row: Row, sources: map<Key, Source>) {
    && row.key in sources && sources[row.key].envelope == row.envelope
    && crypto.artifactDigest(sources[row.key].payload) == row.envelope.payloadSha
  }

  /** A chain of sealed rows, as long as a prefix of the history's and with its head, is that prefix. */
  lemma ChainRestored(crypto: Crypto, tenant: string, s: State, given: map<Key, Json>, n: nat,
                      rows: seq<Row>, sources: map<Key, Source>)
    requires Invariant(crypto, tenant, s) && Stores(crypto, s.sources, given) && n <= |s.rows|
    requires |rows| == n && Chained(crypto, tenant, rows) && Head(rows) == Head(s.rows[..n])
    requires forall row :: row in rows ==> Sealed(crypto, row, sources)
    ensures Restored(crypto, tenant, rows, sources, s.rows[..n], given)
  {
    ChainedPrefix(crypto, tenant, s.rows, n);
    ChainUnique(crypto, tenant, rows, s.rows[..n]);
    if rows == s.rows[..n] {
      forall row | row in rows
        ensures SourceRestored(crypto, row, sources, given)
      {
        assert row in s.rows && Backed(crypto, row, s.sources) && Sealed(crypto, row, sources);
        assert HoldsGiven(crypto, s.sources[row.key], given[row.key]);
      }
    }
  }

  /**
   A chain of sealed rows that ends in the head of a checkpoint, whose signature is on any message the
   history has signed, is the ledger the history had when it issued the checkpoint.
   */
  lemma CheckpointFixesHistory(crypto: Crypto, tenant: string, events: seq<Event>, c: SignedCheckpoint,
                               rows: seq<Row>, sources: map<Key, Source>) returns (k: nat)
    requires Sound(crypto) && AllAdmissible(events) && ':' !in c.payload.checkpointId
    requires VerifyCheckpoint(crypto, c) && CheckpointMessage(c) in Signed(crypto, tenant, events)
    requires |rows| == c.payload.sequence && Chained(crypto, c.payload.tenantId, rows) && Head(rows) == c.payload.head
    requires forall row :: row in rows ==> Sealed(crypto, row, sources)
    ensures k < |events| && events[k].CheckpointEvent?
    ensures var issued, past := Issued(crypto, tenant, events, k), Run(crypto, tenant, events[..k]);
            || CheckpointCollision(crypto, c.payload, issued)
            || (c.payload == issued && past.rows <= Run(crypto, tenant, events).rows
                && Restored(crypto, tenant, rows, sources, past.rows, Given(crypto, tenant, events)))
  {
    k := VerifiedIsIssued(crypto, tenant, events, c);
    if c.payload == Issued(crypto, tenant, events, k) {
      RunKeepsInvariant(crypto, tenant, events);
      RunStores(crypto, tenant, events);
      RunAppendOnly(crypto, tenant, events, k);
      var past, last := Run(crypto, tenant, events[..k]), Run(crypto, tenant, events);
      assert last.rows[..|past.rows|] == past.rows;
      ChainRestored(crypto, tenant, last, Given(crypto, tenant, events), |past.rows|, rows, sources);
    }
  }

  // ---- With the store's own hash ----

  /** The rows are the original ones with the artifacts given, or two texts that are named have one hash. */
  ghost predicate HashRestored(sha: string -> string, tenant: string, rows: seq<Row>, sources: map<Key, Source>,
                               original: seq<Row>, given: map<Key, Json>)
  {
    || (|rows| == |original|
        && exists i :: 0 <= i < |rows|
                       && HashCollision(sha, EntryText(tenant, rows[i]), EntryText(tenant, original[i])))
    || (rows == original && forall row :: row in rows ==> HashSourceRestored(sha, row, sources, given))
  }

  ghost predicate HashSourceRestored(sha: string -> string, row: Row, sources: map<Key, Source>,
                                     given: map<Key, Json>)
  {
    && row.key in sources && row.key in given
    && sources[row.key].envelope == row.envelope
    && var found, saved := sources[row.key].payload, given[row.key];
       || Same(found, saved)
       || (AllFinite(found) && AllFinite(saved) && HashCollision(sha, HashedText(found), HashedText(saved)))
  }

  /** What a JSON column holds is a tree: no object has a key twice. */
  ghost predicate HoldsTrees(sources: map<Key, Source>) {
    forall key :: key in sources ==> IsTree(sources[key].payload)
  }

  lemma RestoredByHash(sha: string -> string, sign: (string, string, string) -> string,
                       verify: (string, string, string, string) -> bool, tenant: string, rows: seq<Row>,
                       sources: map<Key, Source>, original: seq<Row>, s: State, given: map<Key, Json>)
    requires Working(sha, sign, verify) && HoldsTrees(sources)
    requires Stores(HashCrypto(sha, sign, verify), s.sources, given)
    requires Restored(HashCrypto(sha, sign, verify), tenant, rows, sources, original, given)
    ensures HashRestored(sha, tenant, rows, sources, original, given)
  {
    var crypto := HashCrypto(sha, sign, verify);
    if i :| |rows| == |original| && 0 <= i < |rows| && EntryCollision(crypto, tenant, rows[i], original[i]) {
      EntryCollisionIsHashCollision(sha, sign, verify, tenant, rows[i], original[i]);
    } else {
      forall row | row in rows
        ensures HashSourceRestored(sha, row, sources, given)
      {
        assert SourceRestored(crypto, row, sources, given);
        assert HoldsGiven(crypto, s.sources[row.key], given[row.key]);
        SourceByHash(sha, sign, verify, row, sources, given);
      }
    }
  }

  lemma SourceByHash(sha: string -> string, sign: (string, string, string) -> string,
                     verify: (string, string, string, string) -> bool, row: Row, sources: map<Key, Source>,
                     given: map<Key, Json>)
    requires Working(sha, sign, verify) && SourceRestored(HashCrypto(sha, sign, verify), row, sources, given)
    requires IsTree(sources[row.key].payload) && IsPayload(given[row.key])
    ensures HashSourceRestored(sha, row, sources, given)
  {
    var found, saved := sources[row.key].payload, given[row.key];
    if !Same(found, saved) {
      FiniteByDigest(sha, sign, verify, found, saved);
      ArtifactCollisionIsHashCollision(sha, sign, verify, found, saved);
    }
  }

  /** Only payloads without NaN and infinities have the digest of one. */
  lemma FiniteByDigest(sha: string -> string, sign: (string, string, string) -> string,
                       verify: (string, string, string, string) -> bool, found: Json, saved: Json)
    requires Working(sha, sign, verify) && AllFinite(saved)
    requires var crypto := HashCrypto(sha, sign, verify); crypto.artifactDigest(found) == crypto.artifactDigest(saved)
    ensures AllFinite(found)
  {
    assert |sha(HashedText(saved))| == 64;
  }

  /** No large float, or two texts that are named have one hash. */
  ghost predicate HashReadsBack(sha: string -> string, payload: Json) {
    || Plain(payload)
    || (AllFinite(payload) && AllFinite(Column(payload))
        && HashCollision(sha, HashedText(Column(payload)), HashedText(payload)))
  }

  lemma ReadsBackByHash(sha: string -> string, sign: (string, string, string) -> string,
                        verify: (string, string, string, string) -> bool, payload: Json)
    requires IsPayload(payload)
    ensures ReadsBack(HashCrypto(sha, sign, verify), payload) <==> HashReadsBack(sha, payload)
  {
    ColumnIsTree(payload);
    ColumnIsSame(payload);
    ColumnKeepsBytes(payload);
  }

  /** What is proven of a checkpoint that the history issued, in terms of the hash. */
  lemma ProvenByHash(sha: string -> string, sign: (string, string, string) -> string,
                     verify: (string, string, string, string) -> bool, tenant: string, events: seq<Event>,
                     p: CheckpointPayload, k: nat, rows: seq<Row>, sources: map<Key, Source>)
    requires Working(sha, sign, verify) && AllAdmissible(events) && HoldsTrees(sources)
    requires k < |events| && events[k].CheckpointEvent?
    requires var crypto := HashCrypto(sha, sign, verify);
             var issued, past := Issued(crypto, tenant, events, k), Run(crypto, tenant, events[..k]);
             || CheckpointCollision(crypto, p, issued)
             || (p == issued && Restored(crypto, tenant, rows, sources, past.rows, Given(crypto, tenant, events)))
    ensures var crypto := HashCrypto(sha, sign, verify);
            var issued, past := Issued(crypto, tenant, events, k), Run(crypto, tenant, events[..k]);
            || HashCollision(sha, CheckpointText(p), CheckpointText(issued))
            || (p == issued && HashRestored(sha, tenant, rows, sources, past.rows, Given(crypto, tenant, events)))
  {
    var crypto := HashCrypto(sha, sign, verify);
    var issued, past := Issued(crypto, tenant, events, k), Run(crypto, tenant, events[..k]);
    if CheckpointCollision(crypto, p, issued) {
      CheckpointCollisionIsHashCollision(sha, sign, verify, p, issued);
    } else {
      RunStores(crypto, tenant, events);
      RestoredByHash(sha, sign, verify, tenant, rows, sources, past.rows, Run(crypto, tenant, events),
                     Given(crypto, tenant, events));
    }
  }
}
