/** Two payloads have the same canonical bytes exactly when they are equal up to key order and signed zeros. */
module CanonicalJsonProofs {
  import opened Wrappers
  import opened TextOrder
  import opened CanonicalJson
  import opened CanonicalJsonText

  // ---- The printed text determines the tree ----

  /** Which of the six shapes of text a value has; its first character tells. */
  function Shape(j: Json): (s: nat) {
    match j
    case Null => 0
    case Bool(_) => 1
    case Int(_) => 2
    case Float(_) => 2
    case Str(_) => 3
    case Arr(_) => 4
    case Obj(_) => 5
  }

  function ShapeOfChar(c: char): (s: nat) {
    if c == 'n' then 0 else if c == 't' || c == 'f' then 1 else if NumberChar(c) then 2
    else if c == '\"' then 3 else if c == '[' then 4 else 5
  }

  lemma FirstChar(j: Json, u: string)
    requires AllFinite(j)
    ensures Print(j) != [] && Print(j)[0] != ']' && Print(j)[0] != '}' && (Print(j) + u)[0] == Print(j)[0]
    ensures ShapeOfChar(Print(j)[0]) == Shape(j)
  {
    match j
    case Int(i) => assert Decimal(i)[0] in Decimal(i);
    case Float(text) => assert text[0] in text;
    case _ =>
  }

  lemma NumberPrint(j: Json)
    requires AllFinite(j) && Shape(j) == 2
    ensures AllNumberChars(Print(j))
    ensures j.Float? <==> '.' in Print(j) || 'e' in Print(j)
  {
  }

  function ItemsRest(items: seq<Json>, u: string): (text: string)
    requires items != []
    ensures Stops(text)
  {
    if |items| == 1 then "]" + u else "," + (PrintItems(items[1..]) + "]" + u)
  }

  lemma ItemsUnfold(items: seq<Json>, u: string)
    ensures PrintItems(items) + "]" + u == if items == [] then "]" + u else Print(items[0]) + ItemsRest(items, u)
  {
    if |items| > 1 {
      Regroup(Print(items[0]), "," + PrintItems(items[1..]), "]", u);
      RegroupTail(",", PrintItems(items[1..]), "]", u);
    } else if |items| == 1 {
      Regroup(Print(items[0]), [], "]", u);
      RegroupTail([], [], "]", u);
    }
  }

  lemma RegroupTail(comma: string, q: string, close: string, u: string)
    ensures (comma + q) + close + u == comma + (q + close + u)
    ensures [] + close + u == close + u
  {
  }

  lemma RegroupMember(k: string, colon: string, p: string, rest: string, close: string, u: string)
    ensures k + colon + p + rest + close + u == k + (colon + (p + (rest + close + u)))
  {
    assert k + colon + p + rest + close + u == (k + colon + p) + (rest + close + u);
    assert (k + colon + p) + (rest + close + u) == k + (colon + (p + (rest + close + u)));
  }

  function MembersRest(fields: seq<Field>, u: string): (text: string)
    requires fields != []
    ensures Stops(text)
  {
    if |fields| == 1 then "}" + u else "," + (PrintFields(fields[1..]) + "}" + u)
  }

  lemma MembersUnfold(fields: seq<Field>, u: string)
    ensures PrintFields(fields) + "}" + u
            == if fields == [] then "}" + u
               else Quote(fields[0].key) + (":" + (Print(fields[0].value) + MembersRest(fields, u)))
  {
    if |fields| > 1 {
      RegroupMember(Quote(fields[0].key), ":", Print(fields[0].value), "," + PrintFields(fields[1..]), "}", u);
      RegroupTail(",", PrintFields(fields[1..]), "}", u);
    } else if |fields| == 1 {
      RegroupMember(Quote(fields[0].key), ":", Print(fields[0].value), [], "}", u);
      RegroupTail([], [], "}", u);
    }
  }

  lemma {:induction false} PrintInjective(a: Json, u: string, b: Json, v: string)
    requires AllFinite(a) && AllFinite(b) && Stops(u) && Stops(v)
    requires Print(a) + u == Print(b) + v
    ensures a == b && u == v
    decreases a, 0
  {
    FirstChar(a, u);
    FirstChar(b, v);
    assert Shape(a) == Shape(b);
    match a
    case Null => SplitAt("null", u, "null", v);
    case Bool(p) => BoolInjective(p, u, b.b, v);
    case Int(i) => NumberInjective(a, u, b, v);
    case Float(text) => NumberInjective(a, u, b, v);
    case Str(s) => QuoteInjective(s, u, b.s, v);
    case Arr(items) =>
      Bracketed("[", PrintItems(items), "]", u, PrintItems(b.items), v);
      ItemsInjective(items, u, b.items, v);
    case Obj(fields) =>
      Bracketed("{", PrintFields(fields), "}", u, PrintFields(b.fields), v);
      MembersInjective(fields, u, b.fields, v);
  }

  lemma BoolInjective(p: bool, u: string, q: bool, v: string)
    requires Print(Bool(p)) + u == Print(Bool(q)) + v
    ensures p == q && u == v
  {
    Head(Print(Bool(p)), u);
    Head(Print(Bool(q)), v);
    SplitAt(Print(Bool(p)), u, Print(Bool(q)), v);
  }

  lemma NumberInjective(a: Json, u: string, b: Json, v: string)
    requires AllFinite(a) && AllFinite(b) && Shape(a) == 2 == Shape(b) && Stops(u) && Stops(v)
    requires Print(a) + u == Print(b) + v
    ensures a == b && u == v
  {
    NumberPrint(a);
    NumberPrint(b);
    SpanInjective(Print(a), u, Print(b), v);
    if a.Int? {
      DecimalInjective(a.i, b.i);
    }
  }

  lemma Bracketed(open: string, p: string, close: string, u: string, q: string, v: string)
    requires (open + p + close) + u == (open + q + close) + v
    ensures p + close + u == q + close + v
  {
    assert (open + p + close) + u == open + (p + close + u);
    assert (open + q + close) + v == open + (q + close + v);
    SplitAt(open, p + close + u, open, q + close + v);
  }

  lemma {:induction false} ItemsInjective(xs: seq<Json>, u: string, ys: seq<Json>, v: string)
    requires forall k :: 0 <= k < |xs| ==> AllFinite(xs[k])
    requires forall k :: 0 <= k < |ys| ==> AllFinite(ys[k])
    requires PrintItems(xs) + "]" + u == PrintItems(ys) + "]" + v
    ensures xs == ys && u == v
    decreases xs, 1
  {
    NoItemsTogether(xs, u, ys, v);
    if xs != [] {
      ItemsUnfold(xs, u);
      ItemsUnfold(ys, v);
      PrintInjective(xs[0], ItemsRest(xs, u), ys[0], ItemsRest(ys, v));
      SameItemsRest(xs, u, ys, v);
      if |xs| > 1 {
        ItemsInjective(xs[1..], u, ys[1..], v);
      }
      assert xs == [xs[0]] + xs[1..] && ys == [ys[0]] + ys[1..];
    }
  }

  lemma NoItemsTogether(xs: seq<Json>, u: string, ys: seq<Json>, v: string)
    requires forall k :: 0 <= k < |xs| ==> AllFinite(xs[k])
    requires forall k :: 0 <= k < |ys| ==> AllFinite(ys[k])
    requires PrintItems(xs) + "]" + u == PrintItems(ys) + "]" + v
    ensures xs == [] <==> ys == []
    ensures xs == [] ==> u == v
  {
    ItemsUnfold(xs, u);
    ItemsUnfold(ys, v);
    if xs != [] {
      FirstChar(xs[0], ItemsRest(xs, u));
    }
    if ys != [] {
      FirstChar(ys[0], ItemsRest(ys, v));
    }
    if xs == [] && ys == [] {
      SplitAt("]", u, "]", v);
    }
  }

  lemma SameItemsRest(xs: seq<Json>, u: string, ys: seq<Json>, v: string)
    requires xs != [] && ys != [] && ItemsRest(xs, u) == ItemsRest(ys, v)
    ensures |xs| == 1 <==> |ys| == 1
    ensures |xs| == 1 ==> u == v
    ensures |xs| > 1 ==> PrintItems(xs[1..]) + "]" + u == PrintItems(ys[1..]) + "]" + v
  {
    ItemsRestTells(xs, u);
    ItemsRestTells(ys, v);
    if |xs| > 1 {
      SplitAt(",", PrintItems(xs[1..]) + "]" + u, ",", PrintItems(ys[1..]) + "]" + v);
    } else {
      SplitAt("]", u, "]", v);
    }
  }

  lemma ItemsRestTells(items: seq<Json>, u: string)
    requires items != []
    ensures ItemsRest(items, u)[0] == if |items| == 1 then ']' else ','
  {
  }

  lemma MembersRestTells(fields: seq<Field>, u: string)
    requires fields != []
    ensures MembersRest(fields, u)[0] == if |fields| == 1 then '}' else ','
  {
  }

  lemma QuoteStart(s: string, u: string)
    ensures (Quote(s) + u)[0] == '\"'
  {
  }

  lemma MembersStart(fields: seq<Field>, u: string)
    ensures (PrintFields(fields) + "}" + u)[0] == if fields == [] then '}' else '\"'
  {
    MembersUnfold(fields, u);
    if fields != [] {
      QuoteStart(fields[0].key, ":" + (Print(fields[0].value) + MembersRest(fields, u)));
    }
  }

  lemma {:induction false} MembersInjective(fs: seq<Field>, u: string, gs: seq<Field>, v: string)
    requires forall k :: 0 <= k < |fs| ==> AllFinite(fs[k].value)
    requires forall k :: 0 <= k < |gs| ==> AllFinite(gs[k].value)
    requires PrintFields(fs) + "}" + u == PrintFields(gs) + "}" + v
    ensures fs == gs && u == v
    decreases fs, 1
  {
    EmptyTogether(fs, u, gs, v);
    if fs != [] {
      SameFirstKey(fs, u, gs, v);
      PrintInjective(fs[0].value, MembersRest(fs, u), gs[0].value, MembersRest(gs, v));
      SameRest(fs, u, gs, v);
      if |fs| > 1 {
        MembersInjective(fs[1..], u, gs[1..], v);
      }
      assert fs == [fs[0]] + fs[1..] && gs == [gs[0]] + gs[1..];
    }
  }

  lemma EmptyTogether(fs: seq<Field>, u: string, gs: seq<Field>, v: string)
    requires PrintFields(fs) + "}" + u == PrintFields(gs) + "}" + v
    ensures fs == [] <==> gs == []
    ensures fs == [] ==> u == v
  {
    MembersStart(fs, u);
    MembersStart(gs, v);
    if fs == [] {
      MembersUnfold(fs, u);
      MembersUnfold(gs, v);
      SplitAt("}", u, "}", v);
    }
  }

  lemma SameFirstKey(fs: seq<Field>, u: string, gs: seq<Field>, v: string)
    requires fs != [] && gs != [] && PrintFields(fs) + "}" + u == PrintFields(gs) + "}" + v
    ensures fs[0].key == gs[0].key
    ensures Print(fs[0].value) + MembersRest(fs, u) == Print(gs[0].value) + MembersRest(gs, v)
  {
    MembersUnfold(fs, u);
    MembersUnfold(gs, v);
    var p, q := Print(fs[0].value) + MembersRest(fs, u), Print(gs[0].value) + MembersRest(gs, v);
    QuoteInjective(fs[0].key, ":" + p, gs[0].key, ":" + q);
    SplitAt(":", p, ":", q);
  }

  lemma SameRest(fs: seq<Field>, u: string, gs: seq<Field>, v: string)
    requires fs != [] && gs != [] && MembersRest(fs, u) == MembersRest(gs, v)
    ensures |fs| == 1 <==> |gs| == 1
    ensures |fs| == 1 ==> u == v
    ensures |fs| > 1 ==> PrintFields(fs[1..]) + "}" + u == PrintFields(gs[1..]) + "}" + v
  {
    MembersRestTells(fs, u);
    MembersRestTells(gs, v);
    if |fs| > 1 {
      SplitAt(",", PrintFields(fs[1..]) + "}" + u, ",", PrintFields(gs[1..]) + "}" + v);
    } else {
      SplitAt("}", u, "}", v);
    }
  }

  // ---- Sorting ----

  ghost predicate Ordered(fields: seq<Field>) {
    forall i, j :: 0 <= i < j < |fields| ==> TextAtMost(fields[i].key, fields[j].key)
  }

  lemma InSorted(f: Field, fields: seq<Field>)
    ensures f in SortFields(fields) <==> f in fields
  {
    assert f in multiset(SortFields(fields)) <==> f in multiset(fields);
  }

  lemma {:induction false} InsertOrdered(f: Field, sorted: seq<Field>)
    requires Ordered(sorted)
    ensures Ordered(InsertField(f, sorted))
  {
    if sorted != [] {
      TextTotal(f.key, sorted[0].key);
      if TextAtMost(f.key, sorted[0].key) {
        forall j | 0 <= j < |sorted|
          ensures TextAtMost(f.key, sorted[j].key)
        {
          if j > 0 {
            TextTransitive(f.key, sorted[0].key, sorted[j].key);
          }
        }
      } else {
        InsertOrdered(f, sorted[1..]);
        var rest := InsertField(f, sorted[1..]);
        forall j | 0 <= j < |rest|
          ensures TextAtMost(sorted[0].key, rest[j].key)
        {
          assert rest[j] in multiset(rest);
          assert rest[j] == f || rest[j] in sorted[1..];
        }
      }
    }
  }

  lemma {:induction false} SortOrdered(fields: seq<Field>)
    ensures Ordered(SortFields(fields))
  {
    if fields != [] {
      SortOrdered(fields[1..]);
      InsertOrdered(fields[0], SortFields(fields[1..]));
    }
  }

  lemma {:induction false} InsertDistinct(f: Field, sorted: seq<Field>)
    requires DistinctKeys(sorted) && forall g :: g in sorted ==> g.key != f.key
    ensures DistinctKeys(InsertField(f, sorted))
  {
    if sorted != [] && !TextAtMost(f.key, sorted[0].key) {
      InsertDistinct(f, sorted[1..]);
      var rest := InsertField(f, sorted[1..]);
      forall j | 0 <= j < |rest|
        ensures rest[j].key != sorted[0].key
      {
        assert rest[j] in multiset(rest);
        assert rest[j] == f || rest[j] in sorted[1..];
        assert sorted[0] in sorted;
      }
    }
  }

  lemma {:induction false} SortDistinct(fields: seq<Field>)
    requires DistinctKeys(fields)
    ensures DistinctKeys(SortFields(fields))
  {
    if fields != [] {
      SortDistinct(fields[1..]);
      forall g | g in SortFields(fields[1..])
        ensures g.key != fields[0].key
      {
        InSorted(g, fields[1..]);
      }
      InsertDistinct(fields[0], SortFields(fields[1..]));
    }
  }

  ghost predicate SameMembers(x: seq<Field>, y: seq<Field>) {
    forall f :: f in x <==> f in y
  }

  lemma TailMembers(x: seq<Field>, y: seq<Field>)
    requires x != [] && y != [] && x[0] == y[0] && DistinctKeys(x) && DistinctKeys(y) && SameMembers(x, y)
    ensures SameMembers(x[1..], y[1..])
  {
    forall f
      ensures f in x[1..] <==> f in y[1..]
    {
      assert x == [x[0]] + x[1..] && y == [y[0]] + y[1..];
      assert f in x[1..] ==> f.key != x[0].key;
      assert f in y[1..] ==> f.key != y[0].key;
      assert f in x <==> f in y;
    }
  }

  /** Two ordered field lists with the same fields, each key once, are the same list. */
  lemma {:induction false} OrderedUnique(x: seq<Field>, y: seq<Field>)
    requires Ordered(x) && Ordered(y) && DistinctKeys(x) && DistinctKeys(y) && SameMembers(x, y)
    ensures x == y
  {
    assert x != [] ==> x[0] in x && x[0] in y;
    assert y != [] ==> y[0] in y && y[0] in x;
    if x != [] {
      var i :| 0 <= i < |y| && y[i] == x[0];
      var j :| 0 <= j < |x| && x[j] == y[0];
      if i > 0 && j > 0 {
        TextAntisymmetric(x[0].key, y[0].key);
      }
      TailMembers(x, y);
      OrderedUnique(x[1..], y[1..]);
      assert x == [x[0]] + x[1..] && y == [y[0]] + y[1..];
    }
  }

  lemma SortUnique(x: seq<Field>, y: seq<Field>)
    requires DistinctKeys(x) && DistinctKeys(y)
    ensures SortFields(x) == SortFields(y) <==> SameMembers(x, y)
  {
    forall f
      ensures (f in SortFields(x) <==> f in x) && (f in SortFields(y) <==> f in y)
    {
      InSorted(f, x);
      InSorted(f, y);
    }
    if SameMembers(x, y) {
      SortOrdered(x);
      SortOrdered(y);
      SortDistinct(x);
      SortDistinct(y);
      OrderedUnique(SortFields(x), SortFields(y));
    }
  }

  // ---- The canonical tree ----

  function Canon(j: Json): (c: Json) {
    SortKeys(Normalize(j))
  }

  function CanonFields(fields: seq<Field>): (c: seq<Field>)
    ensures |c| == |fields|
    ensures forall k :: 0 <= k < |fields| ==> c[k] == Field(fields[k].key, Canon(fields[k].value))
  {
    SortKeysFields(NormalizeFields(fields))
  }

  /** Equal canonical trees are exactly the trees that are equal up to key order and signed zeros. */
  lemma {:induction false} SameIsCanon(a: Json, b: Json)
    requires IsTree(a) && IsTree(b)
    ensures Same(a, b) <==> Canon(a) == Canon(b)
    decreases a
  {
    match a
    case Arr(items) =>
      if b.Arr? && |items| == |b.items| {
        forall k | 0 <= k < |items|
          ensures Same(items[k], b.items[k]) <==> Canon(items[k]) == Canon(b.items[k])
        {
          SameIsCanon(items[k], b.items[k]);
        }
        SameArr(items, b.items);
      }
    case Obj(fields) =>
      if b.Obj? {
        forall i | 0 <= i < |fields|
          ensures SameFieldIn(fields[i], b.fields) <==> CanonFields(fields)[i] in CanonFields(b.fields)
        {
          forall j | 0 <= j < |b.fields|
            ensures Same(fields[i].value, b.fields[j].value) <==> Canon(fields[i].value) == Canon(b.fields[j].value)
          {
            SameIsCanon(fields[i].value, b.fields[j].value);
          }
          SameFieldIsMember(fields[i], b.fields);
        }
        SameObj(fields, b.fields);
      }
    case _ =>
  }

  lemma SameArr(xs: seq<Json>, ys: seq<Json>)
    requires |xs| == |ys|
    requires forall k :: 0 <= k < |xs| ==> (Same(xs[k], ys[k]) <==> Canon(xs[k]) == Canon(ys[k]))
    ensures Same(Arr(xs), Arr(ys)) <==> Canon(Arr(xs)) == Canon(Arr(ys))
  {
    var c, d := Canon(Arr(xs)).items, Canon(Arr(ys)).items;
    assert |c| == |xs| && |d| == |ys|;
    assert forall k :: 0 <= k < |xs| ==> c[k] == Canon(xs[k]) && d[k] == Canon(ys[k]);
    assert c == d <==> forall k :: 0 <= k < |xs| ==> c[k] == d[k];
  }

  lemma SameFieldIsMember(f: Field, gs: seq<Field>)
    requires forall j :: 0 <= j < |gs| ==> (Same(f.value, gs[j].value) <==> Canon(f.value) == Canon(gs[j].value))
    ensures SameFieldIn(f, gs) <==> Field(f.key, Canon(f.value)) in CanonFields(gs)
  {
    var y := CanonFields(gs);
    assert forall j :: 0 <= j < |gs| ==>
           (y[j] == Field(f.key, Canon(f.value)) <==> gs[j].key == f.key && Same(f.value, gs[j].value));
  }

  lemma SameObj(fs: seq<Field>, gs: seq<Field>)
    requires DistinctKeys(fs) && DistinctKeys(gs)
    requires forall i :: 0 <= i < |fs| ==> (SameFieldIn(fs[i], gs) <==> CanonFields(fs)[i] in CanonFields(gs))
    ensures Same(Obj(fs), Obj(gs)) <==> Canon(Obj(fs)) == Canon(Obj(gs))
  {
    var x, y := CanonFields(fs), CanonFields(gs);
    CanonObjMembers(fs, gs);
    MembersByKeys(fs, gs, x, y);
    SameObjUnfold(fs, gs, x, y);
  }

  lemma CanonObjMembers(fs: seq<Field>, gs: seq<Field>)
    requires DistinctKeys(fs) && DistinctKeys(gs)
    ensures Canon(Obj(fs)) == Canon(Obj(gs)) <==> SameMembers(CanonFields(fs), CanonFields(gs))
  {
    CanonObj(fs);
    CanonObj(gs);
    SortUnique(CanonFields(fs), CanonFields(gs));
  }

  lemma CanonObj(fs: seq<Field>)
    ensures Canon(Obj(fs)) == Obj(SortFields(CanonFields(fs)))
    ensures DistinctKeys(fs) ==> DistinctKeys(CanonFields(fs))
  {
  }

  lemma SameObjUnfold(fs: seq<Field>, gs: seq<Field>, x: seq<Field>, y: seq<Field>)
    requires |x| == |fs| && forall i :: 0 <= i < |fs| ==> (SameFieldIn(fs[i], gs) <==> x[i] in y)
    ensures Same(Obj(fs), Obj(gs)) <==>
            (forall i :: 0 <= i < |fs| ==> x[i] in y) && (forall j :: 0 <= j < |gs| ==> HasKey(fs, gs[j].key))
  {
    assert (forall i :: 0 <= i < |fs| ==> SameFieldIn(fs[i], gs)) <==> (forall i :: 0 <= i < |fs| ==> x[i] in y);
  }

  /** With distinct keys, one direction of membership and the other direction of keys make the members the same. */
  lemma MembersByKeys(fs: seq<Field>, gs: seq<Field>, x: seq<Field>, y: seq<Field>)
    requires DistinctKeys(gs) && |x| == |fs| && |y| == |gs|
    requires forall i :: 0 <= i < |x| ==> x[i].key == fs[i].key
    requires forall j :: 0 <= j < |y| ==> y[j].key == gs[j].key
    ensures SameMembers(x, y) <==>
            (forall i :: 0 <= i < |fs| ==> x[i] in y) && (forall j :: 0 <= j < |gs| ==> HasKey(fs, gs[j].key))
  {
    if SameMembers(x, y) {
      forall j | 0 <= j < |gs|
        ensures HasKey(fs, gs[j].key)
      {
        assert y[j] in x;
        var i :| 0 <= i < |x| && x[i] == y[j];
        assert fs[i].key == gs[j].key;
      }
    }
    if (forall i :: 0 <= i < |fs| ==> x[i] in y) && (forall j :: 0 <= j < |gs| ==> HasKey(fs, gs[j].key)) {
      forall j | 0 <= j < |gs|
        ensures y[j] in x
      {
        assert HasKey(fs, gs[j].key);
        var i :| 0 <= i < |fs| && fs[i].key == gs[j].key;
        assert x[i] in y;
        var k :| 0 <= k < |y| && y[k] == x[i];
        assert k == j;
      }
    }
  }

  lemma {:induction false} CanonFinite(j: Json)
    requires AllFinite(j)
    ensures AllFinite(Canon(j))
    decreases j
  {
    match j
    case Arr(items) =>
      forall k | 0 <= k < |items|
        ensures AllFinite(Canon(j).items[k])
      {
        CanonFinite(items[k]);
      }
    case Obj(fields) =>
      forall k | 0 <= k < |fields|
        ensures AllFinite(Canon(fields[k].value))
      {
        CanonFinite(fields[k].value);
      }
      CanonFiniteFields(fields);
    case _ =>
  }

  lemma CanonFiniteFields(fields: seq<Field>)
    requires forall k :: 0 <= k < |fields| ==> AllFinite(Canon(fields[k].value))
    ensures AllFinite(Canon(Obj(fields)))
  {
    var c := CanonFields(fields);
    CanonObj(fields);
    forall f | f in SortFields(c)
      ensures AllFinite(f.value)
    {
      InSorted(f, c);
      var k :| 0 <= k < |c| && c[k] == f;
    }
  }

  /**
   The law the ledger digests rest on: canonical bytes agree exactly for payloads that are equal up
   to key order and signed zeros, and fail to exist exactly for payloads with a NaN or an infinity.
   */
  lemma CanonicalBytesAgree(a: Json, b: Json)
    requires IsTree(a) && IsTree(b)
    ensures CanonicalBytes(a).None? <==> !AllFinite(a)
    ensures AllFinite(a) && AllFinite(b) ==> (CanonicalBytes(a) == CanonicalBytes(b) <==> Same(a, b))
  {
    if AllFinite(a) && AllFinite(b) {
      SameIsCanon(a, b);
      if CanonicalBytes(a) == CanonicalBytes(b) {
        CanonFinite(a);
        CanonFinite(b);
        assert Print(Canon(a)) + [] == Print(Canon(a)) && Print(Canon(b)) + [] == Print(Canon(b));
        PrintInjective(Canon(a), [], Canon(b), []);
      }
    }
  }

  lemma {:induction false} NormalizeIdempotent(j: Json)
    ensures Normalize(Normalize(j)) == Normalize(j)
    decreases j
  {
    match j
    case Arr(items) =>
      forall k | 0 <= k < |items|
        ensures Normalize(Normalize(items[k])) == Normalize(items[k])
      {
        NormalizeIdempotent(items[k]);
      }
      assert NormalizeItems(NormalizeItems(items)) == NormalizeItems(items);
    case Obj(fields) =>
      forall k | 0 <= k < |fields|
        ensures Normalize(Normalize(fields[k].value)) == Normalize(fields[k].value)
      {
        NormalizeIdempotent(fields[k].value);
      }
      assert NormalizeFields(NormalizeFields(fields)) == NormalizeFields(fields);
    case _ =>
  }
}
