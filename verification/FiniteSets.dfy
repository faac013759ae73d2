/** Sequences without repetition, the sets they list, and counting lemmas on finite sets. */
module FiniteSets {

  ghost predicate Distinct<T>(s: seq<T>) {
    forall i, j :: 0 <= i < j < |s| ==> s[i] != s[j]
  }

  ghost function Elems<T>(s: seq<T>): set<T> {
    set x | x in s
  }

  lemma SubsetCard<T>(a: set<T>, b: set<T>)
    requires a <= b
    ensures |a| <= |b|
    ensures a != b ==> |a| < |b|
  {
    assert b == a + (b - a);
    if a != b {
      assert b - a != {};
    }
  }

  lemma SplitCard<T>(a: set<T>, c: set<T>)
    ensures |a| == |a * c| + |a - c|
  {
    assert a == a * c + (a - c);
  }

  /** A set between `all - part` and `all` shares all of `part` but as many elements as it lacks of `all`. */
  lemma OverlapCard<T>(c: set<T>, part: set<T>, all: set<T>)
    requires part <= all && all - part <= c <= all
    ensures |c * part| == |c| + |part| - |all|
  {
    SplitCard(c, part);
    SplitCard(all, part);
    assert c - part == all - part;
    assert all * part == part;
  }

  lemma AgreeNext<T>(a: set<T>, b: set<T>, c: set<T>, x: T)
    requires a * c == b * c && (x in a <==> x in b)
    ensures a * (c + {x}) == b * (c + {x})
  {
    forall y
      ensures y in a * (c + {x}) <==> y in b * (c + {x})
    {
      assert y in a * c <==> y in b * c;
    }
  }

  lemma ElemsNext<T>(s: seq<T>, k: nat)
    requires k < |s|
    ensures Elems(s[..k + 1]) == Elems(s[..k]) + {s[k]}
  {
    assert s[..k + 1] == s[..k] + [s[k]];
  }

  lemma {:induction false} DistinctCard<T>(s: seq<T>)
    requires Distinct(s)
    ensures |Elems(s)| == |s|
  {
    if s == [] {
    } else {
      var n := |s| - 1;
      DistinctCard(s[..n]);
      assert s == s[..n] + [s[n]];
      assert Elems(s) == Elems(s[..n]) + {s[n]};
    }
  }

  /** A map that sends different keys to different values, all in `range`, has at most |range| keys. */
  lemma {:induction false} InjectionCard<A, B>(f: map<A, B>, range: set<B>)
    requires forall a :: a in f ==> f[a] in range
    requires forall a, b :: a in f && b in f && a != b ==> f[a] != f[b]
    ensures |f| <= |range|
    decreases |f|
  {
    if f != map[] {
      var a :| a in f;
      var g := f - {a};
      assert |g| == |f| - 1 by {
        assert f.Keys == g.Keys + {a};
      }
      InjectionCard(g, range - {f[a]});
    }
  }

  ghost function Below(n: nat): (s: set<nat>)
    ensures forall k: nat :: k in s <==> k < n
  {
    if n == 0 then {} else Below(n - 1) + {n - 1}
  }

  lemma {:induction false} BelowCard(n: nat)
    ensures |Below(n)| == n
  {
    if n > 0 {
      BelowCard(n - 1);
    }
  }

  ghost function Pairs<A, B>(a: set<A>, b: set<B>): (s: set<(A, B)>) {
    set x, y | x in a && y in b :: (x, y)
  }

  lemma RowCard<A, B>(x: A, b: set<B>)
    ensures |Pairs({x}, b)| == |b|
  {
    var f := map p | p in Pairs({x}, b) :: p.1;
    assert f.Keys == Pairs({x}, b);
    InjectionCard(f, b);
    var g := map y | y in b :: (x, y);
    assert g.Keys == b;
    InjectionCard(g, Pairs({x}, b));
  }

  lemma {:induction false} PairsCard<A, B>(a: set<A>, b: set<B>)
    ensures |Pairs(a, b)| == |a| * |b|
  {
    if a == {} {
      assert Pairs(a, b) == {};
    } else {
      var x :| x in a;
      var rest := a - {x};
      PairsCard(rest, b);
      RowCard(x, b);
      assert Pairs(a, b) == Pairs(rest, b) + Pairs({x}, b);
      assert Pairs(rest, b) !! Pairs({x}, b);
      OneMoreRow(|rest|, |a|, |b|);
    }
  }

  lemma OneMoreRow(rows: nat, more: nat, n: nat)
    requires more == rows + 1
    ensures more * n == rows * n + n
  {
  }

  lemma GridCard<A>(rows: set<A>, n: nat)
    ensures |Pairs(rows, Below(n))| == n * |rows|
  {
    PairsCard(rows, Below(n));
    BelowCard(n);
    Commutes(|rows|, |Below(n)|, n);
  }

  lemma Commutes(a: nat, b: nat, n: nat)
    requires b == n
    ensures a * b == n * a
  {
  }

  /** a divided by b, rounded up. */
  function CeilDiv(a: nat, b: nat): (q: nat)
    requires b > 0
  {
    (a + b - 1) / b
  }

  lemma CeilDivBound(a: nat, b: nat, w: nat)
    requires b > 0
    ensures CeilDiv(a, b) <= w <==> a <= w * b
  {
    var q, r := (a + b - 1) / b, (a + b - 1) % b;
    assert a + b - 1 == q * b + r;
    if q <= w {
      assert q * b <= w * b;
    } else {
      assert (w + 1) * b <= q * b;
      assert (w + 1) * b == w * b + b;
    }
  }
}
