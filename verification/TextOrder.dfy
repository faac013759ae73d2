/** Python's order on strings: by code point, a proper prefix first. */
module TextOrder {

  predicate TextAtMost(a: string, b: string) {
    a == [] || (b != [] && (a[0] < b[0] || (a[0] == b[0] && TextAtMost(a[1..], b[1..]))))
  }

  lemma {:induction false} TextTotal(a: string, b: string)
    ensures TextAtMost(a, b) || TextAtMost(b, a)
  {
    if a != [] && b != [] && a[0] == b[0] {
      TextTotal(a[1..], b[1..]);
    }
  }

  lemma {:induction false} TextTransitive(a: string, b: string, c: string)
    requires TextAtMost(a, b) && TextAtMost(b, c)
    ensures TextAtMost(a, c)
  {
    if a != [] && a[0] == b[0] && b[0] == c[0] {
      TextTransitive(a[1..], b[1..], c[1..]);
    }
  }

  lemma {:induction false} TextAntisymmetric(a: string, b: string)
    requires TextAtMost(a, b) && TextAtMost(b, a)
    ensures a == b
  {
    if a != [] {
      TextAntisymmetric(a[1..], b[1..]);
      assert a == [a[0]] + a[1..] && b == [b[0]] + b[1..];
    }
  }

  /** The order is decided by the code points at the first difference; a text precedes its extensions. */
  lemma {:induction false} FirstDifference(a: string, b: string, i: nat)
    requires i <= |a| && i <= |b| && a[..i] == b[..i]
    requires i < |a| && i < |b| ==> a[i] != b[i]
    ensures TextAtMost(a, b) <==> i == |a| || (i < |b| && a[i] as int < b[i] as int)
  {
    if i > 0 {
      assert a[0] == a[..i][0] && b[0] == b[..i][0];
      assert a[1..][..i - 1] == a[..i][1..] && b[1..][..i - 1] == b[..i][1..];
      FirstDifference(a[1..], b[1..], i - 1);
    }
  }

  // ---- Sorted texts ----

  predicate Before(a: string, b: string) {
    a != b && TextAtMost(a, b)
  }

  predicate Ascending(texts: seq<string>) {
    forall i, j :: 0 <= i < j < |texts| ==> Before(texts[i], texts[j])
  }

  /** The texts of the set, each once and in order. */
  ghost predicate Lists(texts: seq<string>, all: set<string>) {
    Ascending(texts) && (forall t :: t in texts <==> t in all)
  }

  lemma FirstListed(a: seq<string>, b: seq<string>, all: set<string>)
    requires Lists(a, all) && Lists(b, all)
    requires a != [] && b != []
    ensures a[0] == b[0]
  {
    assert a[0] in all && b[0] in all;
    assert a[0] in b && b[0] in a;
    if a[0] != b[0] {
      assert Before(a[0], b[0]);
      assert Before(b[0], a[0]);
      TextAntisymmetric(a[0], b[0]);
    }
  }

  lemma RestListed(a: seq<string>, all: set<string>)
    requires Lists(a, all) && a != []
    ensures Lists(a[1..], all - {a[0]})
  {
    forall t
      ensures t in a[1..] <==> t in all - {a[0]}
    {
      assert t in a <==> t == a[0] || t in a[1..];
      if t in a[1..] {
        var i :| 1 <= i < |a| && a[i] == t;
        assert Before(a[0], a[i]);
      }
    }
  }

  lemma EmptyListing(a: seq<string>, all: set<string>)
    requires Lists(a, all)
    ensures a == [] <==> all == {}
  {
    if a != [] {
      assert a[0] in all;
    }
  }

  /** A set of texts has one sorted list. */
  lemma {:induction false} OneListing(a: seq<string>, b: seq<string>, all: set<string>)
    requires Lists(a, all) && Lists(b, all)
    ensures a == b
    decreases |a|
  {
    EmptyListing(a, all);
    EmptyListing(b, all);
    if a != [] {
      FirstListed(a, b, all);
      RestListed(a, all);
      RestListed(b, all);
      OneListing(a[1..], b[1..], all - {a[0]});
      assert a == [a[0]] + a[1..] && b == [b[0]] + b[1..];
    }
  }

  method Least(texts: set<string>) returns (least: string)
    requires texts != {}
    ensures least in texts && forall t :: t in texts ==> TextAtMost(least, t)
  {
    least :| least in texts;
    var rest := texts - {least};
    TextTotal(least, least);
    while rest != {}
      invariant rest <= texts && least in texts
      invariant forall t :: t in texts && t !in rest ==> TextAtMost(least, t)
      decreases |rest|
    {
      var next :| next in rest;
      rest := rest - {next};
      TextTotal(next, least);
      TextTotal(next, next);
      if !TextAtMost(least, next) {
        forall t | t in texts && t !in rest && t != next
          ensures TextAtMost(next, t)
        {
          TextTransitive(next, least, t);
        }
        least := next;
      }
    }
  }

  /** Python's `sorted` of a set of strings. */
  method Sorted(all: set<string>) returns (texts: seq<string>)
    ensures Lists(texts, all)
  {
    texts := [];
    var rest := all;
    while rest != {}
      invariant rest <= all && Ascending(texts)
      invariant forall t :: t in texts <==> t in all && t !in rest
      invariant forall t, u :: t in texts && u in rest ==> Before(t, u)
      decreases |rest|
    {
      var t := Least(rest);
      rest := rest - {t};
      texts := texts + [t];
    }
  }
}
