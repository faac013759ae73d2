/** What makes ledger rows a chain, and why a chain is determined by its length and head. */
module EvidenceLedger {
  import opened Integrity
  import opened EvidenceRecords

  function Head(rows: seq<Row>): (head: string) {
    if rows == [] then LEDGER_GENESIS_SHA256 else rows[|rows| - 1].entry
  }

  /** The rows are numbered from 1, each names its predecessor's digest, and each has its own right. */
  ghost predicate Chained(crypto: Crypto, tenant: string, rows: seq<Row>) {
    forall i :: 0 <= i < |rows| ==>
      && rows[i].sequence == i + 1
      && rows[i].previous == Head(rows[..i])
      && rows[i].entry == crypto.entryDigest(tenant, rows[i].sequence, rows[i].key, rows[i].envelope, rows[i].previous)
  }

  lemma ChainedPrefix(crypto: Crypto, tenant: string, rows: seq<Row>, n: nat)
    requires Chained(crypto, tenant, rows) && n <= |rows|
    ensures Chained(crypto, tenant, rows[..n])
  {
    forall i | 0 <= i < n
      ensures rows[..n][i].previous == Head(rows[..n][..i])
    {
      assert rows[..n][..i] == rows[..i];
    }
  }

  /**
   Two chains of one tenant with the same length and head are row for row the same, or two rows at one
   place collide.
   */
  lemma {:induction false} ChainUnique(crypto: Crypto, tenant: string, a: seq<Row>, b: seq<Row>)
    requires Chained(crypto, tenant, a) && Chained(crypto, tenant, b)
    requires |a| == |b| && Head(a) == Head(b)
    ensures a == b || exists i :: 0 <= i < |a| && EntryCollision(crypto, tenant, a[i], b[i])
  {
    if a != [] {
      var n := |a| - 1;
      if !EntryCollision(crypto, tenant, a[n], b[n]) {
        ChainedPrefix(crypto, tenant, a, n);
        ChainedPrefix(crypto, tenant, b, n);
        ChainUnique(crypto, tenant, a[..n], b[..n]);
        if a[..n] == b[..n] {
          SameLast(a, b);
        } else {
          var i :| 0 <= i < n && EntryCollision(crypto, tenant, a[..n][i], b[..n][i]);
          assert a[..n][i] == a[i] && b[..n][i] == b[i];
        }
      }
    }
  }

  lemma SameLast(a: seq<Row>, b: seq<Row>)
    requires |a| == |b| > 0 && a[..|a| - 1] == b[..|b| - 1] && a[|a| - 1] == b[|b| - 1]
    ensures a == b
  {
    assert a == a[..|a| - 1] + [a[|a| - 1]];
    assert b == b[..|b| - 1] + [b[|b| - 1]];
  }

  lemma ChainAppend(crypto: Crypto, tenant: string, rows: seq<Row>, row: Row)
    requires Chained(crypto, tenant, rows)
    requires row.sequence == |rows| + 1 && row.previous == Head(rows)
    requires row.entry == crypto.entryDigest(tenant, row.sequence, row.key, row.envelope, row.previous)
    ensures Chained(crypto, tenant, rows + [row])
  {
    var longer := rows + [row];
    forall i | 0 <= i < |longer|
      ensures longer[i].previous == Head(longer[..i])
    {
      assert longer[..i] == rows[..i];
      assert rows[..|rows|] == rows;
    }
  }

  /** `row` continues the chain `rows`. */
  ghost predicate Continues(crypto: Crypto, tenant: string, rows: seq<Row>, row: Row) {
    && row.sequence == |rows| + 1
    && row.previous == Head(rows)
    && row.entry == crypto.entryDigest(tenant, row.sequence, row.key, row.envelope, row.previous)
  }

  lemma ChainedNext(crypto: Crypto, tenant: string, rows: seq<Row>, n: nat)
    requires n < |rows|
    ensures Chained(crypto, tenant, rows[..n + 1]) <==>
            Chained(crypto, tenant, rows[..n]) && Continues(crypto, tenant, rows[..n], rows[n])
  {
    var longer := rows[..n + 1];
    assert longer[..n] == rows[..n] && longer == rows[..n] + [rows[n]];
    if Chained(crypto, tenant, longer) {
      ChainedPrefix(crypto, tenant, longer, n);
      assert longer[n].previous == Head(longer[..n]);
    } else if Chained(crypto, tenant, rows[..n]) && Continues(crypto, tenant, rows[..n], rows[n]) {
      ChainAppend(crypto, tenant, rows[..n], rows[n]);
    }
  }
}
