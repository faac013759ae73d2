/**
 Digests and signature messages of integrity.py.

 The hash is a parameter `sha`, from texts to hex digests, and nothing is assumed about it. A result
 that rests on it names the two texts at hand and says "or these collide": they differ and have the
 same hash.
 */
module Integrity {
  import opened Wrappers
  import opened CanonicalJson
  import opened CanonicalJsonProofs

  const ED25519 := "ed25519"
  const HMAC_SHA256 := "hmac-sha256"
  const SIXTEEN_ZEROS := "0000000000000000"
  const LEDGER_GENESIS_SHA256 := SIXTEEN_ZEROS + SIXTEEN_ZEROS + SIXTEEN_ZEROS + SIXTEEN_ZEROS

  predicate IsHexDigest(s: string) {
    |s| == 64 && forall c :: c in s ==> '0' <= c <= '9' || 'a' <= c <= 'f'
  }

  predicate IsKeyId(s: string) {
    1 <= |s| <= 64
    && forall c :: c in s ==> 'A' <= c <= 'Z' || 'a' <= c <= 'z' || '0' <= c <= '9' || c == '.' || c == '_' || c == '-'
  }

  /** The letters of a digest and of a key id, by code point. */
  lemma HexLetters(s: string)
    ensures IsHexDigest(s) <==> |s| == 64 && forall i :: 0 <= i < |s| ==> IsHexCode(s[i] as int)
  {
    assert forall i :: 0 <= i < |s| ==> s[i] in s;
  }

  predicate IsHexCode(code: int) {
    48 <= code <= 57 || 97 <= code <= 102
  }

  lemma KeyIdLetters(s: string)
    ensures IsKeyId(s) <==> 0 < |s| < 65 && forall i :: 0 <= i < |s| ==> IsKeyCode(s[i] as int)
  {
    assert forall i :: 0 <= i < |s| ==> s[i] in s;
  }

  predicate IsKeyCode(code: int) {
    48 <= code <= 57 || 65 <= code <= 90 || 97 <= code <= 122 || code == 45 || code == 46 || code == 95
  }

  lemma GenesisIsHex()
    ensures IsHexDigest(LEDGER_GENESIS_SHA256)
  {
    var z := SIXTEEN_ZEROS;
    assert z[0] == z[1] == z[2] == z[3] == z[4] == z[5] == z[6] == z[7] == '0';
    assert z[8] == z[9] == z[10] == z[11] == z[12] == z[13] == z[14] == z[15] == '0';
    assert forall c :: c in z ==> c == '0';
  }

  ghost predicate HashCollision(sha: string -> string, x: string, y: string) {
    x != y && sha(x) == sha(y)
  }

  /** `artifact_digest` of a payload without NaN and infinities. */
  function ArtifactDigest(sha: string -> string, payload: Json): (digest: string)
    requires AllFinite(payload)
  {
    sha(CanonicalBytes(payload).value)
  }

  /** The text that is hashed. */
  function HashedText(payload: Json): (text: string)
    requires AllFinite(payload)
  {
    CanonicalBytes(payload).value
  }

  /** Payloads with the same digest are the same up to key order and signed zeros, or their texts collide. */
  lemma ArtifactDigestBinds(sha: string -> string, a: Json, b: Json)
    requires IsTree(a) && IsTree(b) && AllFinite(a) && AllFinite(b)
    ensures Same(a, b) ==> ArtifactDigest(sha, a) == ArtifactDigest(sha, b)
    ensures ArtifactDigest(sha, a) == ArtifactDigest(sha, b) ==>
              Same(a, b) || HashCollision(sha, HashedText(a), HashedText(b))
  {
    CanonicalBytesAgree(a, b);
  }

  // ---- Flat records ----

  /** A JSON value without structure and without floats is the same only as itself. */
  predicate IsScalar(j: Json) {
    j.Null? || j.Bool? || j.Int? || j.Str?
  }

  /** A record: fixed keys, scalar values. */
  ghost predicate IsRecord(fields: seq<Field>) {
    DistinctKeys(fields) && forall k :: 0 <= k < |fields| ==> IsScalar(fields[k].value)
  }

  ghost predicate SameKeyList(fs: seq<Field>, gs: seq<Field>) {
    |fs| == |gs| && forall k :: 0 <= k < |fs| ==> fs[k].key == gs[k].key
  }

  lemma SameRecords(fs: seq<Field>, gs: seq<Field>)
    requires IsRecord(fs) && IsRecord(gs) && SameKeyList(fs, gs) && Same(Obj(fs), Obj(gs))
    ensures fs == gs
  {
    forall k | 0 <= k < |fs|
      ensures fs[k] == gs[k]
    {
      assert SameFieldIn(fs[k], gs);
      var j :| 0 <= j < |gs| && gs[j].key == fs[k].key && Same(fs[k].value, gs[j].value);
      assert j == k;
    }
  }

  /** Records with the same digest are equal, or their texts collide. */
  lemma RecordDigestBinds(sha: string -> string, fs: seq<Field>, gs: seq<Field>)
    requires IsRecord(fs) && IsRecord(gs) && SameKeyList(fs, gs)
    requires ArtifactDigest(sha, Obj(fs)) == ArtifactDigest(sha, Obj(gs))
    ensures fs == gs || HashCollision(sha, HashedText(Obj(fs)), HashedText(Obj(gs)))
  {
    ArtifactDigestBinds(sha, Obj(fs), Obj(gs));
    if Same(Obj(fs), Obj(gs)) {
      SameRecords(fs, gs);
    }
  }

  // ---- Signature messages ----

  function SignatureMessage(artifactType: string, artifactId: string, payloadSha: string): (message: string) {
    "aecontrol:v1:" + artifactType + ":" + artifactId + ":" + payloadSha
  }

  /** Text up to the first mark, and text after it. */
  lemma {:induction false} MarkSplit(mark: char, a: string, x: string, b: string, y: string)
    requires mark !in a && mark !in b && a + [mark] + x == b + [mark] + y
    ensures a == b && x == y
  {
    MarkFirst(mark, a, x);
    MarkFirst(mark, b, y);
    if a == [] {
      assert x == ([] + [mark] + x)[1..] && y == ([] + [mark] + y)[1..];
    } else {
      assert (a + [mark] + x)[1..] == a[1..] + [mark] + x && (b + [mark] + y)[1..] == b[1..] + [mark] + y;
      MarkSplit(mark, a[1..], x, b[1..], y);
      assert a == [a[0]] + a[1..] && b == [b[0]] + b[1..];
    }
  }

  lemma MarkFirst(mark: char, a: string, x: string)
    requires mark !in a
    ensures (a + [mark] + x)[0] == mark <==> a == []
    ensures a != [] ==> (a + [mark] + x)[0] == a[0]
  {
  }

  /** A signed message names one artifact type, one id and one digest. */
  lemma SignatureMessageInjective(t: string, id: string, d: string, t': string, id': string, d': string)
    requires ':' !in t && ':' !in id && ':' !in t' && ':' !in id'
    requires SignatureMessage(t, id, d) == SignatureMessage(t', id', d')
    ensures t == t' && id == id' && d == d'
  {
    var m, m' := SignatureMessage(t, id, d), SignatureMessage(t', id', d');
    assert m[13..] == t + ":" + (id + ":" + d) && m'[13..] == t' + ":" + (id' + ":" + d');
    MarkSplit(':', t, id + ":" + d, t', id' + ":" + d');
    MarkSplit(':', id, d, id', d');
  }
}
