/** The signed checkpoint of checkpoints.py as it is stored: its bytes and the key of its object. */
module CheckpointObjects {
  import opened Wrappers
  import opened CanonicalJson
  import opened CanonicalJsonText
  import opened CanonicalJsonProofs
  import opened CanonicalJsonReader
  import opened Integrity
  import opened EvidenceRecords

  function CheckpointFields(cp: SignedCheckpoint): (fields: seq<Field>) {
    [ Field("payload", Obj(PayloadFields(cp.payload))),
      Field("payload_sha256", Str(cp.payloadSha)),
      Field("signature_algorithm", Str(cp.algorithm)),
      Field("signing_key_id", Str(cp.keyId)),
      Field("signature", Str(cp.signature)) ]
  }

  /** Under which name each part of a signed checkpoint is stored. */
  lemma CheckpointFieldsSay(cp: SignedCheckpoint)
    ensures var fields := CheckpointFields(cp);
            && |fields| == 5
            && Field("payload", Obj(PayloadFields(cp.payload))) in fields
            && Field("payload_sha256", Str(cp.payloadSha)) in fields
            && Field("signature_algorithm", Str(cp.algorithm)) in fields
            && Field("signing_key_id", Str(cp.keyId)) in fields && Field("signature", Str(cp.signature)) in fields
  {
    var fields := CheckpointFields(cp);
    assert fields[0] in fields && fields[1] in fields && fields[2] in fields && fields[3] in fields;
    assert fields[4] in fields;
  }

  /** `canonical_bytes`. */
  function CheckpointBytes(cp: SignedCheckpoint): (body: string) {
    HashedText(Obj(CheckpointFields(cp)))
  }

  lemma CheckpointIsTree(cp: SignedCheckpoint)
    ensures IsTree(Obj(CheckpointFields(cp))) && AllFinite(Obj(CheckpointFields(cp)))
  {
    var fields := CheckpointFields(cp);
    PayloadFieldsRecord(cp.payload);
    assert |fields[0].key| == 7 && |fields[1].key| == 14 && |fields[2].key| == 19 && |fields[3].key| == 14
           && |fields[4].key| == 9;
    assert fields[1].key[0] == 'p' && fields[3].key[0] == 's';
  }

  lemma SamePayloadKeys(p: CheckpointPayload, q: CheckpointPayload)
    ensures SameKeyList(PayloadFields(p), PayloadFields(q))
  {
  }

  lemma SamePayloads(p: CheckpointPayload, q: CheckpointPayload)
    requires Same(Obj(PayloadFields(p)), Obj(PayloadFields(q)))
    ensures p == q
  {
    assert PayloadFields(p) == PayloadFields(q) by {
      PayloadFieldsRecord(p);
      PayloadFieldsRecord(q);
      SamePayloadKeys(p, q);
      SameRecords(PayloadFields(p), PayloadFields(q));
    }
    PayloadFieldsInjective(p, q);
  }

  lemma SameField(cp: SignedCheckpoint, other: SignedCheckpoint, k: nat)
    requires k < 5 && Same(Obj(CheckpointFields(cp)), Obj(CheckpointFields(other)))
    ensures Same(CheckpointFields(cp)[k].value, CheckpointFields(other)[k].value)
  {
    var fs, gs := CheckpointFields(cp), CheckpointFields(other);
    assert SameFieldIn(fs[k], gs);
    var j :| 0 <= j < |gs| && gs[j].key == fs[k].key && Same(fs[k].value, gs[j].value);
    CheckpointIsTree(other);
    assert gs[k].key == fs[k].key;
    assert j == k;
  }

  /** The stored bytes are those of one checkpoint only. */
  lemma CheckpointBytesInjective(cp: SignedCheckpoint, other: SignedCheckpoint)
    requires CheckpointBytes(cp) == CheckpointBytes(other)
    ensures cp == other
  {
    CheckpointIsTree(cp);
    CheckpointIsTree(other);
    CanonicalBytesAgree(Obj(CheckpointFields(cp)), Obj(CheckpointFields(other)));
    SameField(cp, other, 0);
    SameField(cp, other, 1);
    SameField(cp, other, 2);
    SameField(cp, other, 3);
    SameField(cp, other, 4);
    SamePayloads(cp.payload, other.payload);
  }

  // ---- How long the bytes are ----

  /** The length of the members' text, each with a separator. */
  function MembersLength(fields: seq<Field>): (n: nat) {
    if fields == [] then 0
    else |Quote(fields[0].key)| + 1 + |Print(fields[0].value)| + 1 + MembersLength(fields[1..])
  }

  lemma {:induction false} PrintedLength(fields: seq<Field>)
    ensures fields != [] ==> |PrintFields(fields)| + 1 == MembersLength(fields)
  {
    if |fields| > 1 {
      PrintedLength(fields[1..]);
    }
  }

  lemma {:induction false} InsertedLength(f: Field, sorted: seq<Field>)
    ensures MembersLength(InsertField(f, sorted)) == MembersLength([f]) + MembersLength(sorted)
  {
    if sorted != [] {
      InsertedLength(f, sorted[1..]);
      assert ([f] + sorted)[1..] == sorted;
      var rest := InsertField(f, sorted[1..]);
      assert ([sorted[0]] + rest)[1..] == rest;
    }
  }

  /** Sorting the keys leaves the length as it is. */
  lemma {:induction false} SortedLength(fields: seq<Field>)
    ensures MembersLength(SortFields(fields)) == MembersLength(fields)
  {
    if fields != [] {
      SortedLength(fields[1..]);
      InsertedLength(fields[0], SortFields(fields[1..]));
    }
  }

  lemma BytesLength(cp: SignedCheckpoint)
    ensures |CheckpointBytes(cp)| == 1 + MembersLength(CanonFields(CheckpointFields(cp)))
  {
    CheckpointIsTree(cp);
    var canon := CanonFields(CheckpointFields(cp));
    CanonObj(CheckpointFields(cp));
    SortedLength(canon);
    PrintedLength(SortFields(canon));
  }

  function FirstFour(cp: SignedCheckpoint): (fields: seq<Field>) {
    CheckpointFields(cp)[..4]
  }

  lemma {:induction false} LengthOfLast(fields: seq<Field>, f: Field)
    ensures MembersLength(fields + [f]) == MembersLength(fields) + MembersLength([f])
  {
    if fields != [] {
      LengthOfLast(fields[1..], f);
      assert (fields + [f])[1..] == fields[1..] + [f];
    }
  }

  /** The bytes grow by as much as the signature's text. */
  lemma SignatureLengthens(cp: SignedCheckpoint, signature: string)
    ensures |CheckpointBytes(cp.(signature := signature))|
            == |CheckpointBytes(cp.(signature := []))| + |Escape(signature)|
  {
    BytesBySignature(cp, signature);
    BytesBySignature(cp, []);
    SignatureLength(signature);
  }

  lemma BytesBySignature(cp: SignedCheckpoint, signature: string)
    ensures |CheckpointBytes(cp.(signature := signature))|
            == 1 + MembersLength(CanonFields(FirstFour(cp))) + MembersLength([SignatureField(signature)])
  {
    SplitFields(cp, signature);
    BytesLength(cp.(signature := signature));
    CanonOfLast(FirstFour(cp), SignatureField(signature));
    LengthOfLast(CanonFields(FirstFour(cp)), SignatureField(signature));
  }

  lemma SplitFields(cp: SignedCheckpoint, signature: string)
    ensures CheckpointFields(cp.(signature := signature)) == FirstFour(cp) + [SignatureField(signature)]
  {
    var fields := CheckpointFields(cp.(signature := signature));
    assert fields == fields[..4] + [fields[4]];
  }

  function SignatureField(signature: string): (f: Field) {
    Field("signature", Str(signature))
  }

  lemma SignatureLength(signature: string)
    ensures MembersLength([SignatureField(signature)]) == MembersLength([SignatureField([])]) + |Escape(signature)|
  {
    LengthOfOne(SignatureField(signature));
    LengthOfOne(SignatureField([]));
  }

  lemma LengthOfOne(f: Field)
    ensures MembersLength([f]) == |Quote(f.key)| + 1 + |Print(f.value)| + 1
  {
  }

  lemma CanonOfLast(fields: seq<Field>, f: Field)
    requires f.value.Str?
    ensures CanonFields(fields + [f]) == CanonFields(fields) + [f]
  {
  }

  function Letters(n: nat): (s: string)
    ensures |Escape(s)| == n
  {
    if n == 0 then [] else ['a'] + Letters(n - 1)
  }

  /** Any checkpoint has bytes of any greater length under some signature: nothing bounds them. */
  lemma BytesOfAnyLength(cp: SignedCheckpoint, n: nat) returns (signature: string)
    requires n >= |CheckpointBytes(cp.(signature := []))|
    ensures |CheckpointBytes(cp.(signature := signature))| == n
  {
    signature := Letters(n - |CheckpointBytes(cp.(signature := []))|);
    SignatureLengthens(cp, signature);
  }

  /** The stored bytes are read as JSON: the members of the checkpoint, with their keys sorted. */
  lemma CheckpointBytesRead(cp: SignedCheckpoint)
    ensures ReadValue(CheckpointBytes(cp)) == Some((Canon(Obj(CheckpointFields(cp))), []))
    ensures var read := Canon(Obj(CheckpointFields(cp)));
            && read.Obj? && |read.fields| == 5 && Ordered(read.fields)
            && forall k :: 0 <= k < 5 ==>
                 var f := CheckpointFields(cp)[k]; Field(f.key, Canon(f.value)) in read.fields
  {
    CheckpointIsTree(cp);
    CanonicalBytesRead(Obj(CheckpointFields(cp)));
    CanonObj(CheckpointFields(cp));
    var canon := CanonFields(CheckpointFields(cp));
    SortOrdered(canon);
    SortCard(canon);
    forall k | 0 <= k < 5
      ensures Field(CheckpointFields(cp)[k].key, Canon(CheckpointFields(cp)[k].value)) in SortFields(canon)
    {
      InSorted(canon[k], canon);
    }
  }

  lemma SortCard(fields: seq<Field>)
    ensures |SortFields(fields)| == |fields|
  {
    assert |multiset(SortFields(fields))| == |multiset(fields)|;
  }

  // ---- The object key ----

  function Zeros(n: nat): (s: string) {
    if n == 0 then [] else Zeros(n - 1) + "0"
  }

  /** `:020d` of a number that is not negative. */
  function Padded(n: nat): (s: string) {
    var digits := DecimalNat(n);
    if |digits| < 20 then Zeros(20 - |digits|) + digits else digits
  }

  /** `checkpoint_object_key`; ledger sequences are not negative. */
  function ObjectKey(p: CheckpointPayload): (key: string)
    requires p.sequence >= 0
  {
    p.tenantId + "/" + Padded(p.sequence) + "-" + p.head + "-" + p.checkpointId + ".json"
  }

  lemma {:induction false} ZerosAddNothing(n: nat, digits: string)
    ensures NatOf(Zeros(n) + digits) == NatOf(digits)
    decreases n, |digits|
  {
    var text := Zeros(n) + digits;
    if digits != [] {
      ZerosAddNothing(n, digits[..|digits| - 1]);
      assert text[..|text| - 1] == Zeros(n) + digits[..|digits| - 1];
    } else if n > 0 {
      ZerosAddNothing(n - 1, []);
      assert text[..|text| - 1] == Zeros(n - 1) + [];
    }
  }

  /** Sequences of up to twenty digits are padded with zeros to that length, so that keys sort as numbers do. */
  lemma PaddedLength(n: nat)
    ensures |Padded(n)| == if |DecimalNat(n)| < 20 then 20 else |DecimalNat(n)|
  {
    ZerosLength(if |DecimalNat(n)| < 20 then 20 - |DecimalNat(n)| else 0);
  }

  lemma {:induction false} ZerosLength(n: nat)
    ensures |Zeros(n)| == n
  {
    if n > 0 {
      ZerosLength(n - 1);
    }
  }

  /** A key begins with the tenant's directory and ends in the extension. */
  lemma KeyShape(p: CheckpointPayload)
    requires p.sequence >= 0
    ensures var key := ObjectKey(p);
            && p.tenantId + "/" <= key && |key| >= 5 && key[|key| - 5..] == ".json"
  {
    KeyByTenant(p);
    var body := p.tenantId + "/" + Padded(p.sequence) + "-" + p.head + "-" + p.checkpointId;
    assert ObjectKey(p) == body + ".json";
  }

  lemma PaddedInjective(m: nat, n: nat)
    requires Padded(m) == Padded(n)
    ensures m == n
  {
    NatOfPadded(m);
    NatOfPadded(n);
  }

  lemma NatOfPadded(n: nat)
    ensures NatOf(Padded(n)) == n
  {
    var digits := DecimalNat(n);
    NatOfDecimal(n);
    if |digits| < 20 {
      ZerosAddNothing(20 - |digits|, digits);
    }
  }

  lemma {:induction false} NoDash(n: nat)
    ensures '-' !in Zeros(n)
  {
    if n > 0 {
      NoDash(n - 1);
    }
  }

  lemma PaddedHasNoDash(n: nat)
    ensures '-' !in Padded(n)
  {
    NoDash(if |DecimalNat(n)| < 20 then 20 - |DecimalNat(n)| else 0);
  }

  /** Checkpoints that share an object key are of one tenant, sequence, head and id. */
  lemma ObjectKeyInjective(p: CheckpointPayload, q: CheckpointPayload)
    requires p.sequence >= 0 && q.sequence >= 0
    requires '/' !in p.tenantId && '/' !in q.tenantId && '-' !in p.head && '-' !in q.head
    requires ObjectKey(p) == ObjectKey(q)
    ensures p.tenantId == q.tenantId && p.sequence == q.sequence && p.head == q.head && p.checkpointId == q.checkpointId
  {
    KeyByTenant(p);
    KeyByTenant(q);
    MarkSplit('/', p.tenantId, AfterTenant(p), q.tenantId, AfterTenant(q));
    AfterTenantInjective(p, q);
  }

  lemma KeyByTenant(p: CheckpointPayload)
    requires p.sequence >= 0
    ensures ObjectKey(p) == p.tenantId + ['/'] + AfterTenant(p)
  {
    RegroupKey(p.tenantId, Padded(p.sequence), p.head, p.checkpointId, ".json");
  }

  lemma RegroupKey(a: string, b: string, c: string, d: string, e: string)
    ensures a + "/" + b + "-" + c + "-" + d + e == a + ['/'] + (b + ['-'] + (c + ['-'] + (d + e)))
  {
  }

  function AfterTenant(p: CheckpointPayload): (text: string)
    requires p.sequence >= 0
  {
    Padded(p.sequence) + ['-'] + (p.head + ['-'] + (p.checkpointId + ".json"))
  }

  lemma AfterTenantInjective(p: CheckpointPayload, q: CheckpointPayload)
    requires p.sequence >= 0 && q.sequence >= 0 && '-' !in p.head && '-' !in q.head
    requires AfterTenant(p) == AfterTenant(q)
    ensures p.sequence == q.sequence && p.head == q.head && p.checkpointId == q.checkpointId
  {
    PaddedHasNoDash(p.sequence);
    PaddedHasNoDash(q.sequence);
    var x, y := p.checkpointId + ".json", q.checkpointId + ".json";
    MarkSplit('-', Padded(p.sequence), p.head + ['-'] + x, Padded(q.sequence), q.head + ['-'] + y);
    MarkSplit('-', p.head, x, q.head, y);
    PaddedInjective(p.sequence, q.sequence);
    assert |x| == |y| && x[..|x| - 5] == p.checkpointId && y[..|y| - 5] == q.checkpointId;
  }
}
