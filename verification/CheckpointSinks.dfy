/**
 Publication of signed checkpoints in checkpoints.py: a conditional put that creates but never
 replaces, a read-back of what is stored, and replication to several destinations.
 */
module CheckpointSinks {
  import opened Wrappers
  import opened FiniteSets
  import opened CanonicalJson
  import opened CanonicalJsonProofs
  import opened CanonicalJsonReader
  import opened EvidenceRecords
  import opened CheckpointObjects

  const SECOND := 1_000_000
  const READ_LIMIT := 1024 * 1024 + 1

  /** What a sink reads of a checkpoint: the key of its object, its canonical bytes and its retention. */
  datatype Sealed = Sealed(key: string, body: string, retentionUntil: int)

  function Seal(cp: SignedCheckpoint): (s: Sealed)
    requires cp.payload.sequence >= 0
  {
    Sealed(ObjectKey(cp.payload), CheckpointBytes(cp), cp.payload.retentionUntil)
  }

  datatype LockMode = Compliance | Governance | NoLock

  datatype Object = Object(body: string, digest: Option<string>, mode: LockMode, retainUntil: Option<int>)

  datatype Bucket = Bucket(lockEnabled: bool, objects: map<string, Object>)

  type Buckets = map<string, Bucket>

  /** A bucket is one at one endpoint: equal names at two endpoints are two buckets here. */
  datatype Destination = Destination(id: string, bucket: string, prefix: string)

  datatype Receipt = Receipt(
    destinationId: string, bucket: string, objectKey: string, bodySha: string, retentionUntil: int, verifiedAt: int)

  /** A put may be answered, may never arrive, or may arrive and its answer be lost. */
  datatype PutFate = Answered | NeverArrived | AnswerLost

  /** The clock and the network of one publication to one destination. */
  datatype Attempt = Attempt(startedAt: int, verifiedAt: int, configurationRead: bool, put: PutFate, readBack: bool)

  // ---- Retention ----

  /** `_retention_request_deadline`: the first whole second that is no earlier. */
  function Deadline(t: int): (d: int)
    ensures d % SECOND == 0 && t <= d < t + SECOND
  {
    if t % SECOND == 0 then t else t / SECOND * SECOND + SECOND
  }

  // ---- What is stored ----

  function KeyAt(d: Destination, s: Sealed): (key: string) {
    d.prefix + "/" + s.key
  }

  predicate Stored(buckets: Buckets, d: Destination, s: Sealed) {
    d.bucket in buckets && KeyAt(d, s) in buckets[d.bucket].objects
  }

  function Read(body: string): (read: string) {
    if |body| > READ_LIMIT then body[..READ_LIMIT] else body
  }

  /** What the read-back accepts. */
  predicate Accepts(o: Object, s: Sealed, sha: string -> string) {
    && Read(o.body) == s.body
    && o.digest == Some(sha(s.body))
    && o.mode == Compliance
    && o.retainUntil.Some? && o.retainUntil.value >= s.retentionUntil
  }

  predicate Holds(buckets: Buckets, d: Destination, s: Sealed, sha: string -> string) {
    Stored(buckets, d, s) && Accepts(buckets[d.bucket].objects[KeyAt(d, s)], s, sha)
  }

  /** The object that a put creates. */
  function Wanted(s: Sealed, sha: string -> string): (o: Object) {
    Object(s.body, Some(sha(s.body)), Compliance, Some(Deadline(s.retentionUntil)))
  }

  /** What the read-back accepts is the very bytes, retained long enough: for checkpoints up to one MiB. */
  lemma AcceptedIsExact(o: Object, s: Sealed, sha: string -> string)
    requires |s.body| <= 1_048_576
    ensures Accepts(o, s, sha) <==>
              && o.body == s.body && o.digest == Some(sha(s.body)) && o.mode == Compliance
              && o.retainUntil.Some? && o.retainUntil.value >= s.retentionUntil
    ensures Accepts(Wanted(s, sha), s, sha)
  {
  }

  /** Beyond that the read-back stops early: at the limit it accepts any longer object, past it none. */
  lemma ReadBackStopsEarly(s: Sealed, more: string, sha: string -> string)
    requires |s.body| > 1_048_576
    ensures |s.body| == 1_048_577 ==> Accepts(Wanted(s, sha).(body := s.body + more), s, sha)
    ensures |s.body| > 1_048_577 ==> forall o :: !Accepts(o, s, sha)
  {
    assert (s.body + more)[..|s.body|] == s.body;
  }

  /** Nothing bounds the bytes of a checkpoint: any of them reaches that limit under a long enough signature. */
  lemma CheckpointReachesLimit(cp: SignedCheckpoint) returns (signature: string)
    requires cp.payload.sequence >= 0
    ensures var s := Seal(cp.(signature := signature));
            |s.body| == 1_048_577 || (|s.body| > 1_048_577 && signature == [])
  {
    signature := [];
    if |CheckpointBytes(cp.(signature := []))| <= READ_LIMIT {
      signature := BytesOfAnyLength(cp, READ_LIMIT);
    }
  }

  /**
   An object that is accepted for a checkpoint of up to one MiB has its bytes, which are read as the
   checkpoint, its key names it, and it is retained as long as the checkpoint asks.
   */
  lemma AcceptedCheckpoint(o: Object, cp: SignedCheckpoint, sha: string -> string)
    requires cp.payload.sequence >= 0 && |CheckpointBytes(cp)| <= 1_048_576 && Accepts(o, Seal(cp), sha)
    ensures o.body == CheckpointBytes(cp) && Seal(cp).key == ObjectKey(cp.payload)
    ensures ReadValue(o.body) == Some((Canon(Obj(CheckpointFields(cp))), []))
    ensures o.retainUntil.Some? && o.retainUntil.value >= cp.payload.retentionUntil
  {
    AcceptedIsExact(o, Seal(cp), sha);
    CheckpointBytesRead(cp);
  }

  /** Objects are only added: none is removed or changes, and no bucket changes its lock. */
  predicate Grown(before: Buckets, after: Buckets) {
    && before.Keys == after.Keys
    && forall b :: b in before ==>
      && after[b].lockEnabled == before[b].lockEnabled
      && forall k :: k in before[b].objects ==> k in after[b].objects && after[b].objects[k] == before[b].objects[k]
  }

  lemma GrownTwice(a: Buckets, b: Buckets, c: Buckets)
    requires Grown(a, b) && Grown(b, c)
    ensures Grown(a, c)
  {
    forall n | n in a
      ensures c[n].lockEnabled == a[n].lockEnabled
      ensures forall k :: k in a[n].objects ==> k in c[n].objects && c[n].objects[k] == a[n].objects[k]
    {
      assert n in b;
    }
  }

  // ---- One publication ----

  /** The publication comes in time, to a bucket found to lock its objects. */
  predicate Asks(attempt: Attempt, buckets: Buckets, d: Destination, s: Sealed) {
    && attempt.startedAt < s.retentionUntil && attempt.configurationRead
    && d.bucket in buckets && buckets[d.bucket].lockEnabled
  }

  /** A conditional put: the object appears where there was none, whether or not the answer arrives. */
  function Put(buckets: Buckets, d: Destination, s: Sealed, sha: string -> string, attempt: Attempt): (after: Buckets) {
    if Asks(attempt, buckets, d, s) && attempt.put != NeverArrived && !Stored(buckets, d, s) then
      var bucket := buckets[d.bucket];
      buckets[d.bucket := bucket.(objects := bucket.objects[KeyAt(d, s) := Wanted(s, sha)])]
    else buckets
  }

  /** The put is answered, the read-back too, and what is read is right. */
  predicate Delivered(attempt: Attempt, buckets: Buckets, d: Destination, s: Sealed, sha: string -> string) {
    && Asks(attempt, buckets, d, s) && attempt.put == Answered && attempt.readBack
    && Holds(buckets, d, s, sha)
  }

  function ReceiptOf(attempt: Attempt, buckets: Buckets, d: Destination, s: Sealed, sha: string -> string): (r: Receipt)
    requires Holds(buckets, d, s, sha)
  {
    Receipt(d.id, d.bucket, KeyAt(d, s), sha(s.body), buckets[d.bucket].objects[KeyAt(d, s)].retainUntil.value,
            attempt.verifiedAt)
  }

  lemma PutGrows(buckets: Buckets, d: Destination, s: Sealed, sha: string -> string, attempt: Attempt)
    ensures var after := Put(buckets, d, s, sha, attempt);
            && Grown(buckets, after) && Asks(attempt, after, d, s) == Asks(attempt, buckets, d, s)
            && (Asks(attempt, after, d, s) && attempt.put == Answered ==> Stored(after, d, s))
  {
  }

  /** Once the object is there, later publications do not change whether the destination has its copy. */
  lemma DeliveredLater(attempt: Attempt, before: Buckets, after: Buckets, d: Destination, s: Sealed,
                       sha: string -> string)
    requires Grown(before, after)
    requires Asks(attempt, before, d, s) && attempt.put == Answered ==> Stored(before, d, s)
    ensures Delivered(attempt, after, d, s, sha) <==> Delivered(attempt, before, d, s, sha)
    ensures Delivered(attempt, before, d, s, sha) ==>
              ReceiptOf(attempt, after, d, s, sha) == ReceiptOf(attempt, before, d, s, sha)
  {
  }

  /** No checkpoint takes the place of another: on one destination different checkpoints have different objects. */
  lemma CheckpointsDoNotMeet(d: Destination, cp: SignedCheckpoint, other: SignedCheckpoint)
    requires cp.payload.sequence >= 0 && other.payload.sequence >= 0
    requires '/' !in cp.payload.tenantId && '/' !in other.payload.tenantId
    requires '-' !in cp.payload.head && '-' !in other.payload.head
    requires KeyAt(d, Seal(cp)) == KeyAt(d, Seal(other))
    ensures cp.payload.tenantId == other.payload.tenantId && cp.payload.checkpointId == other.payload.checkpointId
    ensures cp.payload.sequence == other.payload.sequence && cp.payload.head == other.payload.head
    ensures Seal(cp).body == Seal(other).body <==> cp == other
  {
    var k, l := ObjectKey(cp.payload), ObjectKey(other.payload);
    var p := d.prefix + "/";
    assert (p + k)[|p|..] == k && (p + l)[|p|..] == l;
    ObjectKeyInjective(cp.payload, other.payload);
    if Seal(cp).body == Seal(other).body {
      CheckpointBytesInjective(cp, other);
    }
  }

  // ---- Replication ----

  datatype Replication = Replication(sinks: seq<Destination>, required: nat)

  datatype ReplicationError = DestinationCount | DuplicateDestinations | CopiesOutOfRange

  datatype Configured = Configured(sink: Replication) | Misconfigured(error: ReplicationError)

  ghost predicate DistinctIds(sinks: seq<Destination>) {
    forall i, j :: 0 <= i < j < |sinks| ==> sinks[i].id != sinks[j].id
  }

  ghost predicate IsReplication(r: Replication) {
    2 <= |r.sinks| <= 5 && DistinctIds(r.sinks) && 1 <= r.required <= |r.sinks|
  }

  /** Without a number of required copies all destinations are required. */
  method Configure(sinks: seq<Destination>, required: Option<int>) returns (c: Configured)
    ensures var copies := if required.None? then |sinks| else required.value;
            && (c.Configured? <==> 2 <= |sinks| <= 5 && DistinctIds(sinks) && 1 <= copies <= |sinks|)
            && (c.Configured? ==> c.sink == Replication(sinks, copies) && IsReplication(c.sink))
  {
    if |sinks| < 2 || |sinks| > 5 {
      return Misconfigured(DestinationCount);
    }
    var names := set i | 0 <= i < |sinks| :: sinks[i].id;
    DistinctByCard(sinks);
    if |sinks| != |names| {
      return Misconfigured(DuplicateDestinations);
    }
    var copies := if required.None? then |sinks| else required.value;
    if copies < 1 || copies > |sinks| {
      return Misconfigured(CopiesOutOfRange);
    }
    return Configured(Replication(sinks, copies));
  }

  lemma DistinctByCard(sinks: seq<Destination>)
    ensures |sinks| == |set i | 0 <= i < |sinks| :: sinks[i].id| <==> DistinctIds(sinks)
  {
    var ids := seq(|sinks|, i requires 0 <= i < |sinks| => sinks[i].id);
    assert forall i :: 0 <= i < |sinks| ==> ids[i] == sinks[i].id;
    assert Elems(ids) == set i | 0 <= i < |sinks| :: sinks[i].id;
    CardDistinct(ids);
    if Distinct(ids) {
      forall i, j | 0 <= i < j < |sinks|
        ensures sinks[i].id != sinks[j].id
      {
        assert ids[i] != ids[j];
      }
    }
  }

  lemma {:induction false} CardDistinct<T>(s: seq<T>)
    ensures |Elems(s)| <= |s|
    ensures |Elems(s)| == |s| <==> Distinct(s)
  {
    if s != [] {
      var before, last := s[..|s| - 1], s[|s| - 1];
      CardDistinct(before);
      assert s == before + [last];
      assert Elems(s) == Elems(before) + {last};
      if last in before {
        var i :| 0 <= i < |before| && before[i] == last;
        assert s[i] == s[|s| - 1];
        assert Elems(s) == Elems(before);
      }
      if Distinct(before) && last !in before {
        forall i, j | 0 <= i < j < |s|
          ensures s[i] != s[j]
        {
          assert s[i] in before;
        }
      }
      if Distinct(s) {
        assert forall i, j :: 0 <= i < j < |before| ==> before[i] == s[i] && before[j] == s[j];
      }
    }
  }

  datatype Outcome =
    | Published(copies: seq<Receipt>, failed: seq<string>, publishedAt: int)
    | PolicyNotMet(copies: seq<Receipt>, failed: seq<string>)

  /** The buckets after the first `n` destinations. */
  function PutAll(buckets: Buckets, sinks: seq<Destination>, s: Sealed, sha: string -> string, attempts: seq<Attempt>,
                  n: nat): (after: Buckets)
    requires n <= |sinks| == |attempts|
  {
    if n == 0 then buckets
    else Put(PutAll(buckets, sinks, s, sha, attempts, n - 1), sinks[n - 1], s, sha, attempts[n - 1])
  }

  /** The receipts and the failures of the first `n` destinations, in the buckets `after` the publication. */
  function CopiesOf(after: Buckets, sinks: seq<Destination>, s: Sealed, sha: string -> string, attempts: seq<Attempt>,
                    n: nat): (copies: seq<Receipt>)
    requires n <= |sinks| == |attempts|
  {
    if n == 0 then []
    else
      var earlier := CopiesOf(after, sinks, s, sha, attempts, n - 1);
      if Delivered(attempts[n - 1], after, sinks[n - 1], s, sha)
      then earlier + [ReceiptOf(attempts[n - 1], after, sinks[n - 1], s, sha)] else earlier
  }

  function FailedOf(after: Buckets, sinks: seq<Destination>, s: Sealed, sha: string -> string, attempts: seq<Attempt>,
                    n: nat): (failed: seq<string>)
    requires n <= |sinks| == |attempts|
  {
    if n == 0 then []
    else
      var earlier := FailedOf(after, sinks, s, sha, attempts, n - 1);
      if Delivered(attempts[n - 1], after, sinks[n - 1], s, sha) then earlier else earlier + [sinks[n - 1].id]
  }

  /** The destinations that deliver, among the first `n`. */
  function Deliveries(after: Buckets, sinks: seq<Destination>, s: Sealed, sha: string -> string,
                      attempts: seq<Attempt>, n: nat): (indices: set<int>)
    requires n <= |sinks| == |attempts|
    ensures forall i :: i in indices <==> 0 <= i < n && Delivered(attempts[i], after, sinks[i], s, sha)
  {
    if n == 0 then {}
    else
      var earlier := Deliveries(after, sinks, s, sha, attempts, n - 1);
      if Delivered(attempts[n - 1], after, sinks[n - 1], s, sha) then earlier + {n - 1} else earlier
  }

  /** Where each destination that was asked and answered has its object. */
  ghost predicate Settled(buckets: Buckets, sinks: seq<Destination>, s: Sealed, attempts: seq<Attempt>, n: nat)
    requires n <= |sinks| == |attempts|
  {
    forall i :: 0 <= i < n && Asks(attempts[i], buckets, sinks[i], s) && attempts[i].put == Answered ==>
      Stored(buckets, sinks[i], s)
  }

  lemma {:induction false} PutAllSettles(buckets: Buckets, sinks: seq<Destination>, s: Sealed, sha: string -> string,
                                         attempts: seq<Attempt>, n: nat)
    requires n <= |sinks| == |attempts|
    ensures Grown(buckets, PutAll(buckets, sinks, s, sha, attempts, n))
    ensures Settled(PutAll(buckets, sinks, s, sha, attempts, n), sinks, s, attempts, n)
  {
    if n > 0 {
      PutAllSettles(buckets, sinks, s, sha, attempts, n - 1);
      var before := PutAll(buckets, sinks, s, sha, attempts, n - 1);
      PutGrows(before, sinks[n - 1], s, sha, attempts[n - 1]);
      GrownTwice(buckets, before, PutAll(buckets, sinks, s, sha, attempts, n));
    }
  }

  /** Later rounds change no receipt and no failure of the earlier ones. */
  lemma {:induction false} OutcomeLater(before: Buckets, after: Buckets, sinks: seq<Destination>, s: Sealed,
                                        sha: string -> string, attempts: seq<Attempt>, n: nat)
    requires n <= |sinks| == |attempts| && Grown(before, after) && Settled(before, sinks, s, attempts, n)
    ensures CopiesOf(after, sinks, s, sha, attempts, n) == CopiesOf(before, sinks, s, sha, attempts, n)
    ensures FailedOf(after, sinks, s, sha, attempts, n) == FailedOf(before, sinks, s, sha, attempts, n)
  {
    if n > 0 {
      OutcomeLater(before, after, sinks, s, sha, attempts, n - 1);
      DeliveredLater(attempts[n - 1], before, after, sinks[n - 1], s, sha);
    }
  }

  predicate Received(copies: seq<Receipt>, id: string) {
    exists i :: 0 <= i < |copies| && copies[i].destinationId == id
  }

  /** The receipt is that of one of the first `n` destinations, which has delivered. */
  ghost predicate ReceiptFrom(c: Receipt, after: Buckets, sinks: seq<Destination>, s: Sealed, sha: string -> string,
                              attempts: seq<Attempt>, n: nat)
    requires n <= |sinks| == |attempts|
  {
    exists i :: 0 <= i < n && Delivered(attempts[i], after, sinks[i], s, sha)
                && c == ReceiptOf(attempts[i], after, sinks[i], s, sha)
  }

  ghost predicate DistinctReceipts(copies: seq<Receipt>) {
    forall i, j :: 0 <= i < j < |copies| ==> copies[i].destinationId != copies[j].destinationId
  }

  lemma {:induction false} CopiesAreReceipts(after: Buckets, sinks: seq<Destination>, s: Sealed, sha: string -> string,
                                             attempts: seq<Attempt>, n: nat)
    requires n <= |sinks| == |attempts|
    ensures forall c :: c in CopiesOf(after, sinks, s, sha, attempts, n) ==>
              ReceiptFrom(c, after, sinks, s, sha, attempts, n)
  {
    if n > 0 {
      CopiesAreReceipts(after, sinks, s, sha, attempts, n - 1);
      forall c | c in CopiesOf(after, sinks, s, sha, attempts, n)
        ensures ReceiptFrom(c, after, sinks, s, sha, attempts, n)
      {
        if c in CopiesOf(after, sinks, s, sha, attempts, n - 1) {
          assert ReceiptFrom(c, after, sinks, s, sha, attempts, n - 1);
        }
      }
    }
  }

  lemma {:induction false} CopiesDiffer(after: Buckets, sinks: seq<Destination>, s: Sealed, sha: string -> string,
                                        attempts: seq<Attempt>, n: nat)
    requires n <= |sinks| == |attempts| && DistinctIds(sinks)
    ensures DistinctReceipts(CopiesOf(after, sinks, s, sha, attempts, n))
  {
    if n > 0 {
      CopiesDiffer(after, sinks, s, sha, attempts, n - 1);
      LastNotYetNamed(after, sinks, s, sha, attempts, n - 1);
    }
  }

  /** One receipt for each delivery. */
  lemma {:induction false} CopiesCount(after: Buckets, sinks: seq<Destination>, s: Sealed, sha: string -> string,
                                       attempts: seq<Attempt>, n: nat)
    requires n <= |sinks| == |attempts|
    ensures |CopiesOf(after, sinks, s, sha, attempts, n)| == |Deliveries(after, sinks, s, sha, attempts, n)|
  {
    if n > 0 {
      CopiesCount(after, sinks, s, sha, attempts, n - 1);
    }
  }

  /** A receipt or a failure for each destination. */
  lemma {:induction false} OutcomeCount(after: Buckets, sinks: seq<Destination>, s: Sealed, sha: string -> string,
                                        attempts: seq<Attempt>, n: nat)
    requires n <= |sinks| == |attempts|
    ensures |CopiesOf(after, sinks, s, sha, attempts, n)| + |FailedOf(after, sinks, s, sha, attempts, n)| == n
  {
    if n > 0 {
      OutcomeCount(after, sinks, s, sha, attempts, n - 1);
    }
  }

  /** A destination has a receipt exactly when it delivered, and is listed as failed exactly when it did not. */
  lemma {:induction false} ReceivedIsDelivered(after: Buckets, sinks: seq<Destination>, s: Sealed,
                                               sha: string -> string,
                                               attempts: seq<Attempt>, n: nat, i: nat)
    requires i < n <= |sinks| == |attempts| && DistinctIds(sinks)
    ensures Received(CopiesOf(after, sinks, s, sha, attempts, n), sinks[i].id) <==>
            Delivered(attempts[i], after, sinks[i], s, sha)
    ensures sinks[i].id in FailedOf(after, sinks, s, sha, attempts, n) <==>
            !Delivered(attempts[i], after, sinks[i], s, sha)
  {
    ReceivedNext(after, sinks, s, sha, attempts, n, sinks[i].id);
    if i == n - 1 {
      LastNotYetNamed(after, sinks, s, sha, attempts, n - 1);
    } else {
      ReceivedIsDelivered(after, sinks, s, sha, attempts, n - 1, i);
      assert sinks[i].id != sinks[n - 1].id;
    }
  }

  lemma ReceivedNext(after: Buckets, sinks: seq<Destination>, s: Sealed, sha: string -> string,
                     attempts: seq<Attempt>, n: nat, id: string)
    requires 0 < n <= |sinks| == |attempts|
    ensures Received(CopiesOf(after, sinks, s, sha, attempts, n), id) <==>
            || Received(CopiesOf(after, sinks, s, sha, attempts, n - 1), id)
            || (Delivered(attempts[n - 1], after, sinks[n - 1], s, sha) && sinks[n - 1].id == id)
  {
    if Delivered(attempts[n - 1], after, sinks[n - 1], s, sha) {
      ReceivedAppend(CopiesOf(after, sinks, s, sha, attempts, n - 1),
                     ReceiptOf(attempts[n - 1], after, sinks[n - 1], s, sha), id);
    }
  }

  lemma ReceivedAppend(copies: seq<Receipt>, last: Receipt, id: string)
    ensures Received(copies + [last], id) <==> Received(copies, id) || last.destinationId == id
  {
    if Received(copies, id) {
      var k :| 0 <= k < |copies| && copies[k].destinationId == id;
      assert (copies + [last])[k] == copies[k];
    }
    if last.destinationId == id {
      assert (copies + [last])[|copies|] == last;
    }
  }

  lemma {:induction false} LastNotYetNamed(after: Buckets, sinks: seq<Destination>, s: Sealed, sha: string -> string,
                                           attempts: seq<Attempt>, n: nat)
    requires n < |sinks| == |attempts| && DistinctIds(sinks)
    ensures !Received(CopiesOf(after, sinks, s, sha, attempts, n), sinks[n].id)
    ensures sinks[n].id !in FailedOf(after, sinks, s, sha, attempts, n)
  {
    NamesUpTo(after, sinks, s, sha, attempts, n, sinks[n].id);
  }

  lemma {:induction false} NamesUpTo(after: Buckets, sinks: seq<Destination>, s: Sealed, sha: string -> string,
                                     attempts: seq<Attempt>, n: nat, id: string)
    requires n <= |sinks| == |attempts| && forall k :: 0 <= k < n ==> sinks[k].id != id
    ensures !Received(CopiesOf(after, sinks, s, sha, attempts, n), id)
    ensures id !in FailedOf(after, sinks, s, sha, attempts, n)
  {
    if n > 0 {
      NamesUpTo(after, sinks, s, sha, attempts, n - 1, id);
    }
  }

  // ---- Any number of publications ----

  /** One publication of a checkpoint to one or more destinations, with what the network makes of it. */
  datatype Publication = Publication(sinks: seq<Destination>, s: Sealed, attempts: seq<Attempt>)

  predicate OneAttemptEach(publications: seq<Publication>) {
    forall i :: 0 <= i < |publications| ==> |publications[i].attempts| == |publications[i].sinks|
  }

  /** The buckets after the publications, of any checkpoints to any destinations. */
  function PublishMany(buckets: Buckets, publications: seq<Publication>, sha: string -> string): (after: Buckets)
    requires OneAttemptEach(publications)
  {
    if publications == [] then buckets
    else
      var n := |publications| - 1;
      var p := publications[n];
      PutAll(PublishMany(buckets, publications[..n], sha), p.sinks, p.s, sha, p.attempts, |p.sinks|)
  }

  lemma {:induction false} PublicationsGrow(buckets: Buckets, publications: seq<Publication>, sha: string -> string,
                                            k: nat)
    requires OneAttemptEach(publications) && k <= |publications|
    ensures Grown(PublishMany(buckets, publications[..k], sha), PublishMany(buckets, publications, sha))
    decreases |publications|
  {
    if k == |publications| {
      assert publications[..k] == publications;
    } else {
      var n := |publications| - 1;
      var p, before := publications[n], PublishMany(buckets, publications[..n], sha);
      assert publications[..n][..k] == publications[..k];
      PublicationsGrow(buckets, publications[..n], sha, k);
      PutAllSettles(before, p.sinks, p.s, sha, p.attempts, |p.sinks|);
      GrownTwice(PublishMany(buckets, publications[..k], sha), before, PublishMany(buckets, publications, sha));
    }
  }

  /**
   Over any publications, whatever fails in each: an object once stored stays there as it is, bytes,
   digest, lock and retention, so that a copy once held is held for good.
   */
  lemma CopiesLast(buckets: Buckets, publications: seq<Publication>, sha: string -> string, k: nat,
                   d: Destination, s: Sealed)
    requires OneAttemptEach(publications) && k <= |publications|
    requires Stored(PublishMany(buckets, publications[..k], sha), d, s)
    ensures var earlier, later := PublishMany(buckets, publications[..k], sha), PublishMany(buckets, publications, sha);
            && Stored(later, d, s)
            && later[d.bucket].objects[KeyAt(d, s)] == earlier[d.bucket].objects[KeyAt(d, s)]
            && (Holds(later, d, s, sha) <==> Holds(earlier, d, s, sha))
  {
    PublicationsGrow(buckets, publications, sha, k);
  }

  // ---- Are copies independent? ----

  /** The object a receipt is about. */
  function PlaceOf(c: Receipt): (place: (string, string)) {
    (c.bucket, c.objectKey)
  }

  function Places(copies: seq<Receipt>): (places: set<(string, string)>) {
    set c | c in copies :: PlaceOf(c)
  }

  /** What one publication returns. */
  function Replicated(buckets: Buckets, r: Replication, s: Sealed, sha: string -> string, attempts: seq<Attempt>)
    : (copies: seq<Receipt>)
    requires |attempts| == |r.sinks|
  {
    var n := |r.sinks|;
    CopiesOf(PutAll(buckets, r.sinks, s, sha, attempts, n), r.sinks, s, sha, attempts, n)
  }

  ghost predicate DistinctPlaces(sinks: seq<Destination>) {
    forall i, j :: 0 <= i < j < |sinks| ==> sinks[i].bucket != sinks[j].bucket || sinks[i].prefix != sinks[j].prefix
  }

  lemma SamePlace(d: Destination, e: Destination, s: Sealed)
    ensures KeyAt(d, s) == KeyAt(e, s) <==> d.prefix == e.prefix
  {
    var k, l := KeyAt(d, s), KeyAt(e, s);
    assert d.prefix == k[..|k| - |s.key| - 1] && e.prefix == l[..|l| - |s.key| - 1];
  }

  function PlaceAt(d: Destination, s: Sealed): (place: (string, string)) {
    (d.bucket, KeyAt(d, s))
  }

  lemma {:induction false} PlacesOfCopies(after: Buckets, sinks: seq<Destination>, s: Sealed, sha: string -> string,
                                          attempts: seq<Attempt>, n: nat)
    requires n <= |sinks| == |attempts|
    ensures Places(CopiesOf(after, sinks, s, sha, attempts, n))
            == PlacesAt(sinks, s, Deliveries(after, sinks, s, sha, attempts, n))
  {
    if n > 0 {
      PlacesOfCopies(after, sinks, s, sha, attempts, n - 1);
      if Delivered(attempts[n - 1], after, sinks[n - 1], s, sha) {
        PlaceOfDelivery(after, sinks, s, sha, attempts, n - 1);
      }
    }
  }

  lemma PlaceOfDelivery(after: Buckets, sinks: seq<Destination>, s: Sealed, sha: string -> string,
                        attempts: seq<Attempt>, n: nat)
    requires n < |sinks| == |attempts| && Delivered(attempts[n], after, sinks[n], s, sha)
    ensures Places(CopiesOf(after, sinks, s, sha, attempts, n + 1))
            == Places(CopiesOf(after, sinks, s, sha, attempts, n)) + {PlaceAt(sinks[n], s)}
    ensures PlacesAt(sinks, s, Deliveries(after, sinks, s, sha, attempts, n + 1))
            == PlacesAt(sinks, s, Deliveries(after, sinks, s, sha, attempts, n)) + {PlaceAt(sinks[n], s)}
  {
    PlacesWith(sinks, s, Deliveries(after, sinks, s, sha, attempts, n), n);
    PlacesNext(CopiesOf(after, sinks, s, sha, attempts, n), ReceiptOf(attempts[n], after, sinks[n], s, sha));
  }

  lemma PlacesNext(copies: seq<Receipt>, c: Receipt)
    ensures Places(copies + [c]) == Places(copies) + {PlaceOf(c)}
  {
    forall e
      ensures e in copies + [c] <==> e in copies || e == c
    {
    }
  }

  function PlacesAt(sinks: seq<Destination>, s: Sealed, indices: set<int>): (places: set<(string, string)>)
    requires forall i :: i in indices ==> 0 <= i < |sinks|
  {
    set i | i in indices :: PlaceAt(sinks[i], s)
  }

  lemma PlacesWith(sinks: seq<Destination>, s: Sealed, indices: set<int>, i: int)
    requires 0 <= i < |sinks| && forall k :: k in indices ==> 0 <= k < |sinks|
    ensures PlacesAt(sinks, s, indices + {i}) == PlacesAt(sinks, s, indices) + {PlaceAt(sinks[i], s)}
  {
  }

  /** As many places as indices, where no two destinations share one; in any case no more. */
  lemma {:induction false} PlacesCount(sinks: seq<Destination>, s: Sealed, indices: set<int>)
    requires forall i :: i in indices ==> 0 <= i < |sinks|
    ensures |PlacesAt(sinks, s, indices)| <= |indices|
    ensures DistinctPlaces(sinks) ==> |PlacesAt(sinks, s, indices)| == |indices|
    decreases |indices|
  {
    if indices != {} {
      var i := Member(indices);
      var rest := indices - {i};
      PlacesCount(sinks, s, rest);
      PlacesWith(sinks, s, rest, i);
      assert rest + {i} == indices;
      if DistinctPlaces(sinks) {
        forall k | k in rest
          ensures PlaceAt(sinks[k], s) != PlaceAt(sinks[i], s)
        {
          SamePlace(sinks[k], sinks[i], s);
          assert k < i || i < k;
        }
      }
    }
  }

  lemma Member<T>(all: set<T>) returns (x: T)
    requires all != {}
    ensures x in all
  {
    x :| x in all;
  }

  /** Whatever happens at the destinations, a publication that succeeds leaves the required number of objects. */
  ghost predicate Independent(r: Replication, s: Sealed, sha: string -> string) {
    forall buckets, attempts :: IndependentIn(buckets, r, s, sha, attempts)
  }

  ghost predicate IndependentIn(buckets: Buckets, r: Replication, s: Sealed, sha: string -> string,
                                attempts: seq<Attempt>)
  {
    |attempts| == |r.sinks| && |Replicated(buckets, r, s, sha, attempts)| >= r.required ==>
      |Places(Replicated(buckets, r, s, sha, attempts))| >= r.required
  }

  /** Beyond the read-back's limit no publication succeeds. */
  predicate TooLong(s: Sealed) {
    |s.body| > 1_048_577
  }

  /**
   A configured replication promises that many different objects exactly when it requires a single copy or
   no two of its destinations share bucket and prefix: that the ids differ, all it checks, is not enough.
   */
  lemma CopiesAreIndependent(r: Replication, s: Sealed, sha: string -> string)
    requires IsReplication(r)
    ensures Independent(r, s, sha) <==> r.required == 1 || DistinctPlaces(r.sinks) || TooLong(s)
  {
    if r.required == 1 || DistinctPlaces(r.sinks) || TooLong(s) {
      forall buckets, attempts
        ensures IndependentIn(buckets, r, s, sha, attempts)
      {
        if |attempts| == |r.sinks| {
          EnoughPlaces(buckets, r, s, sha, attempts);
        }
      }
    } else {
      var buckets, attempts := OneObjectTwoCopies(r, s, sha);
      assert !IndependentIn(buckets, r, s, sha, attempts);
    }
  }

  lemma EnoughPlaces(buckets: Buckets, r: Replication, s: Sealed, sha: string -> string, attempts: seq<Attempt>)
    requires IsReplication(r) && |attempts| == |r.sinks|
    requires r.required == 1 || DistinctPlaces(r.sinks) || TooLong(s)
    ensures IndependentIn(buckets, r, s, sha, attempts)
  {
    var n := |r.sinks|;
    var after := PutAll(buckets, r.sinks, s, sha, attempts, n);
    var indices := Deliveries(after, r.sinks, s, sha, attempts, n);
    CopiesCount(after, r.sinks, s, sha, attempts, n);
    PlacesOfCopies(after, r.sinks, s, sha, attempts, n);
    PlacesCount(r.sinks, s, indices);
    if TooLong(s) {
      assert indices == {};
    } else if indices != {} {
      var i := Member(indices);
      assert PlaceAt(r.sinks[i], s) in PlacesAt(r.sinks, s, indices);
    }
  }

  // ---- One object that counts twice ----

  lemma LeftOver(least: set<int>, all: set<int>)
    requires |least| < |all|
    ensures all - least != {}
  {
    SplitCard(all, least);
    SubsetCard(all * least, least);
  }

  lemma {:induction false} SetOfSize(least: set<int>, all: set<int>, size: nat) returns (chosen: set<int>)
    requires least <= all && |least| <= size <= |all|
    ensures least <= chosen <= all && |chosen| == size
    decreases size - |least|
  {
    if |least| == size {
      chosen := least;
    } else {
      LeftOver(least, all);
      var i := Member(all - least);
      chosen := SetOfSize(least + {i}, all, size);
    }
  }

  function EmptyBuckets(sinks: seq<Destination>): (buckets: Buckets) {
    map b | b in BucketNames(sinks) :: Bucket(true, map[])
  }

  function BucketNames(sinks: seq<Destination>): (names: set<string>) {
    set i | 0 <= i < |sinks| :: sinks[i].bucket
  }

  /** The destinations chosen answer in time; the others are never reached. */
  function AttemptsFor(chosen: set<int>, n: nat, startedAt: int): (attempts: seq<Attempt>)
    ensures |attempts| == n
    ensures forall i :: 0 <= i < n ==> attempts[i] == AttemptAt(i in chosen, startedAt)
  {
    if n == 0 then []
    else AttemptsFor(chosen, n - 1, startedAt) + [AttemptAt(n - 1 in chosen, startedAt)]
  }

  function AttemptAt(answers: bool, startedAt: int): (attempt: Attempt) {
    if answers then Attempt(startedAt, startedAt, true, Answered, true)
    else Attempt(startedAt, startedAt, false, NeverArrived, false)
  }

  /** All objects under a checkpoint's keys are the wanted ones. */
  ghost predicate OnlyWanted(buckets: Buckets, sinks: seq<Destination>, s: Sealed, sha: string -> string) {
    forall i :: 0 <= i < |sinks| ==>
      && sinks[i].bucket in buckets && buckets[sinks[i].bucket].lockEnabled
      && (Stored(buckets, sinks[i], s) ==> buckets[sinks[i].bucket].objects[KeyAt(sinks[i], s)] == Wanted(s, sha))
  }

  lemma {:induction false} PutsOnlyWanted(buckets: Buckets, sinks: seq<Destination>, s: Sealed, sha: string -> string,
                                          attempts: seq<Attempt>, n: nat)
    requires n <= |sinks| == |attempts| && OnlyWanted(buckets, sinks, s, sha)
    ensures OnlyWanted(PutAll(buckets, sinks, s, sha, attempts, n), sinks, s, sha)
  {
    if n > 0 {
      PutsOnlyWanted(buckets, sinks, s, sha, attempts, n - 1);
    }
  }

  /** Empty buckets and chosen answers: exactly the chosen destinations deliver. */
  lemma ChosenDeliver(r: Replication, s: Sealed, sha: string -> string, chosen: set<int>)
    requires |s.body| <= READ_LIMIT && forall i :: i in chosen ==> 0 <= i < |r.sinks|
    ensures var n := |r.sinks|;
            var attempts := AttemptsFor(chosen, n, s.retentionUntil - 1);
            var after := PutAll(EmptyBuckets(r.sinks), r.sinks, s, sha, attempts, n);
            Deliveries(after, r.sinks, s, sha, attempts, n) == chosen
  {
    var n := |r.sinks|;
    var attempts := AttemptsFor(chosen, n, s.retentionUntil - 1);
    var after := PutAll(EmptyBuckets(r.sinks), r.sinks, s, sha, attempts, n);
    assert OnlyWanted(EmptyBuckets(r.sinks), r.sinks, s, sha);
    PutsOnlyWanted(EmptyBuckets(r.sinks), r.sinks, s, sha, attempts, n);
    PutAllSettles(EmptyBuckets(r.sinks), r.sinks, s, sha, attempts, n);
    forall i | 0 <= i < n
      ensures Delivered(attempts[i], after, r.sinks[i], s, sha) <==> i in chosen
    {
      assert attempts[i] == AttemptAt(i in chosen, s.retentionUntil - 1);
      if i in chosen {
        WantedIsAccepted(s, sha);
        assert Asks(attempts[i], after, r.sinks[i], s) && Stored(after, r.sinks[i], s);
      }
    }
    var delivered := Deliveries(after, r.sinks, s, sha, attempts, n);
    assert forall i :: i in delivered <==> i in chosen;
  }

  lemma WantedIsAccepted(s: Sealed, sha: string -> string)
    requires |s.body| <= READ_LIMIT
    ensures Accepts(Wanted(s, sha), s, sha)
  {
  }

  /**
   Two destinations with one bucket and prefix, both asked for: as many copies as required are confirmed,
   in empty buckets, and one object counts for two of them.
   */
  lemma OneObjectTwoCopies(r: Replication, s: Sealed, sha: string -> string)
    returns (buckets: Buckets, attempts: seq<Attempt>)
    requires IsReplication(r) && r.required >= 2 && !DistinctPlaces(r.sinks) && |s.body| <= READ_LIMIT
    ensures |attempts| == |r.sinks|
    ensures |Replicated(buckets, r, s, sha, attempts)| == r.required
    ensures |Places(Replicated(buckets, r, s, sha, attempts))| < r.required
  {
    var n := |r.sinks|;
    var i, j :| 0 <= i < j < n && r.sinks[i].bucket == r.sinks[j].bucket && r.sinks[i].prefix == r.sinks[j].prefix;
    var chosen := SetOfSize({i, j}, Indices(n), r.required);
    buckets, attempts := EmptyBuckets(r.sinks), AttemptsFor(chosen, n, s.retentionUntil - 1);
    ChosenDeliver(r, s, sha, chosen);
    var after := PutAll(buckets, r.sinks, s, sha, attempts, n);
    CopiesCount(after, r.sinks, s, sha, attempts, n);
    PlacesOfCopies(after, r.sinks, s, sha, attempts, n);
    SharedPlace(r.sinks, s, chosen, i, j);
  }

  ghost function Indices(n: nat): (all: set<int>)
    ensures |all| == n && forall i :: i in all <==> 0 <= i < n
  {
    if n == 0 then {} else Indices(n - 1) + {n - 1}
  }

  lemma SharedPlace(sinks: seq<Destination>, s: Sealed, indices: set<int>, i: int, j: int)
    requires forall k :: k in indices ==> 0 <= k < |sinks|
    requires i in indices && j in indices && i != j && PlaceAt(sinks[i], s) == PlaceAt(sinks[j], s)
    ensures |PlacesAt(sinks, s, indices)| < |indices|
  {
    var rest := indices - {j};
    PlacesCount(sinks, s, rest);
    PlacesWith(sinks, s, rest, j);
    assert rest + {j} == indices && i in rest;
    assert PlaceAt(sinks[i], s) in PlacesAt(sinks, s, rest);
    assert PlacesAt(sinks, s, indices) == PlacesAt(sinks, s, rest);
  }

  // ---- The object storage ----

  class ObjectStorage {
    var buckets: Buckets

    constructor (buckets: Buckets)
      ensures this.buckets == buckets
    {
      this.buckets := buckets;
    }

    /** `S3ObjectLockCheckpointSink.publish`: a conditional put, then `_verify_copy`. */
    method Publish(d: Destination, s: Sealed, sha: string -> string, attempt: Attempt)
      returns (receipt: Option<Receipt>)
      modifies this
      ensures buckets == Put(old(buckets), d, s, sha, attempt)
      ensures receipt.Some? <==> Delivered(attempt, buckets, d, s, sha)
      ensures receipt.Some? ==> receipt.value == ReceiptOf(attempt, buckets, d, s, sha)
      ensures buckets != old(buckets) ==>
                var key := d.prefix + "/" + s.key;
                && d.bucket in old(buckets) && old(buckets)[d.bucket].lockEnabled
                && key !in old(buckets)[d.bucket].objects
                && d.bucket in buckets && key in buckets[d.bucket].objects
                && var o := buckets[d.bucket].objects[key];
                   && o.body == s.body && o.digest == Some(sha(s.body)) && o.mode == Compliance
                   && o.retainUntil.Some? && o.retainUntil.value % 1_000_000 == 0
                   && s.retentionUntil <= o.retainUntil.value < s.retentionUntil + 1_000_000
    {
      if s.retentionUntil <= attempt.startedAt {
        return None;
      }
      if !attempt.configurationRead || d.bucket !in buckets || !buckets[d.bucket].lockEnabled {
        return None;
      }
      var key := KeyAt(d, s);
      var bucket := buckets[d.bucket];
      if attempt.put != NeverArrived && key !in bucket.objects {
        buckets := buckets[d.bucket := bucket.(objects := bucket.objects[key := Wanted(s, sha)])];
      }
      if attempt.put != Answered {
        return None;
      }
      if !attempt.readBack {
        return None;
      }
      var observed := buckets[d.bucket].objects[key];
      if Read(observed.body) != s.body || observed.digest != Some(sha(s.body)) || observed.mode != Compliance {
        return None;
      }
      if observed.retainUntil.None? || observed.retainUntil.value < s.retentionUntil {
        return None;
      }
      return Some(Receipt(d.id, d.bucket, key, sha(s.body), observed.retainUntil.value, attempt.verifiedAt));
    }

    /**
     `ReplicatedCheckpointSink.publish`; what fails at one destination does not stop the others. A
     destination has a receipt exactly when it delivered, and the publication succeeds exactly when at
     least the required number did.
     */
    method PublishReplicated(r: Replication, s: Sealed, sha: string -> string, attempts: seq<Attempt>)
      returns (outcome: Outcome)
      requires IsReplication(r) && |attempts| == |r.sinks|
      modifies this
      ensures buckets == PutAll(old(buckets), r.sinks, s, sha, attempts, |r.sinks|) && Grown(old(buckets), buckets)
      ensures outcome.copies == Replicated(old(buckets), r, s, sha, attempts)
      ensures forall i :: 0 <= i < |r.sinks| ==>
                var delivered := Delivered(attempts[i], buckets, r.sinks[i], s, sha);
                && (Received(outcome.copies, r.sinks[i].id) <==> delivered)
                && (r.sinks[i].id in outcome.failed <==> !delivered)
      ensures |outcome.copies| + |outcome.failed| == |r.sinks| && DistinctReceipts(outcome.copies)
      ensures forall c :: c in outcome.copies ==> ReceiptFrom(c, buckets, r.sinks, s, sha, attempts, |r.sinks|)
      ensures outcome.Published? <==> |Deliveries(buckets, r.sinks, s, sha, attempts, |r.sinks|)| >= r.required
      ensures outcome.Published? ==>
                && (exists i :: 0 <= i < |outcome.copies| && outcome.publishedAt == outcome.copies[i].verifiedAt)
                && (forall i :: 0 <= i < |outcome.copies| ==> outcome.copies[i].verifiedAt <= outcome.publishedAt)
    {
      var copies, failed := PublishAll(r.sinks, s, sha, attempts);
      var n := |r.sinks|;
      CopiesCount(buckets, r.sinks, s, sha, attempts, n);
      OutcomeCount(buckets, r.sinks, s, sha, attempts, n);
      CopiesAreReceipts(buckets, r.sinks, s, sha, attempts, n);
      CopiesDiffer(buckets, r.sinks, s, sha, attempts, n);
      forall i | 0 <= i < n
        ensures Received(copies, r.sinks[i].id) <==> Delivered(attempts[i], buckets, r.sinks[i], s, sha)
        ensures r.sinks[i].id in failed <==> !Delivered(attempts[i], buckets, r.sinks[i], s, sha)
      {
        ReceivedIsDelivered(buckets, r.sinks, s, sha, attempts, n, i);
      }
      PutAllSettles(old(buckets), r.sinks, s, sha, attempts, n);
      if |copies| < r.required {
        return PolicyNotMet(copies, failed);
      }
      var latest := LatestOf(copies);
      return Published(copies, failed, latest);
    }

    /** The rounds of the loop over the destinations. */
    method PublishAll(sinks: seq<Destination>, s: Sealed, sha: string -> string, attempts: seq<Attempt>)
      returns (copies: seq<Receipt>, failed: seq<string>)
      requires |attempts| == |sinks|
      modifies this
      ensures buckets == PutAll(old(buckets), sinks, s, sha, attempts, |sinks|)
      ensures copies == CopiesOf(buckets, sinks, s, sha, attempts, |sinks|)
      ensures failed == FailedOf(buckets, sinks, s, sha, attempts, |sinks|)
    {
      copies, failed := [], [];
      for i := 0 to |sinks|
        invariant buckets == PutAll(old(buckets), sinks, s, sha, attempts, i)
        invariant copies == CopiesOf(buckets, sinks, s, sha, attempts, i)
        invariant failed == FailedOf(buckets, sinks, s, sha, attempts, i)
      {
        ghost var before := buckets;
        PutAllSettles(old(buckets), sinks, s, sha, attempts, i);
        PutGrows(before, sinks[i], s, sha, attempts[i]);
        OutcomeLater(before, Put(before, sinks[i], s, sha, attempts[i]), sinks, s, sha, attempts, i);
        var receipt := Publish(sinks[i], s, sha, attempts[i]);
        if receipt.Some? {
          copies := copies + [receipt.value];
        } else {
          failed := failed + [sinks[i].id];
        }
      }
    }
  }

  method LatestOf(copies: seq<Receipt>) returns (latest: int)
    requires copies != []
    ensures exists i :: 0 <= i < |copies| && latest == copies[i].verifiedAt
    ensures forall i :: 0 <= i < |copies| ==> copies[i].verifiedAt <= latest
  {
    latest := copies[0].verifiedAt;
    for i := 1 to |copies|
      invariant exists k :: 0 <= k < i && latest == copies[k].verifiedAt
      invariant forall k :: 0 <= k < i ==> copies[k].verifiedAt <= latest
    {
      if copies[i].verifiedAt > latest {
        latest := copies[i].verifiedAt;
      }
    }
  }
}
