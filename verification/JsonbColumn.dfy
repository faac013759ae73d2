/**
 What a JSONB column does to a payload: PostgreSQL keeps a number as a decimal and prints it without
 an exponent, so a float from 1e16 on, which Python writes with a positive exponent, is read back as
 an integer. Small floats are read back as they were, a negative zero as zero, and a text with a NUL
 character is refused. The column orders the keys of an object its own way, which no digest sees.
 */
module JsonbColumn {
  import opened Wrappers
  import opened CanonicalJson
  import opened CanonicalJsonText
  import opened CanonicalJsonProofs

  /** Python's `repr` writes a plus sign in the exponents of floats from 1e16 on, and nowhere else. */
  predicate Large(text: string) {
    '+' in text
  }

  /** No large float anywhere. */
  predicate Plain(j: Json) {
    match j
    case Float(text) => !Large(text)
    case Arr(items) => forall k :: 0 <= k < |items| ==> Plain(items[k])
    case Obj(fields) => forall k :: 0 <= k < |fields| ==> Plain(fields[k].value)
    case _ => true
  }

  /** No NUL character in any text. */
  predicate Storable(j: Json) {
    match j
    case Str(s) => '\0' !in s
    case Arr(items) => forall k :: 0 <= k < |items| ==> Storable(items[k])
    case Obj(fields) => forall k :: 0 <= k < |fields| ==> '\0' !in fields[k].key && Storable(fields[k].value)
    case _ => true
  }

  // ---- The integer that a large float denotes ----

  function UpTo(mark: char, text: string): (r: string) {
    if text == [] || text[0] == mark then [] else [text[0]] + UpTo(mark, text[1..])
  }

  function Beyond(mark: char, text: string): (r: string) {
    if text == [] then [] else if text[0] == mark then text[1..] else Beyond(mark, text[1..])
  }

  function PowerOfTen(n: nat): (p: int) {
    if n == 0 then 1 else 10 * PowerOfTen(n - 1)
  }

  /** Digits, perhaps a point and up to sixteen more digits, and an exponent of sixteen or more. */
  function Magnitude(text: string): (n: int) {
    var mantissa, exponent := UpTo('e', text), NatOf(Beyond('+', text));
    var fraction := Beyond('.', mantissa);
    NatOf(UpTo('.', mantissa) + fraction) * PowerOfTen(if exponent >= |fraction| then exponent - |fraction| else 0)
  }

  function Denoted(text: string): (i: int) {
    if text != [] && text[0] == '-' then -Magnitude(text[1..]) else Magnitude(text)
  }

  // ---- Writing a payload and reading it back ----

  function Column(j: Json): (c: Json) {
    match j
    case Float(text) =>
      if Large(text) then Int(Denoted(text)) else if ZeroText(text) then Float("0.0") else j
    case Arr(items) => Arr(ColumnItems(items))
    case Obj(fields) => Obj(ColumnFields(fields))
    case _ => j
  }

  function ColumnItems(items: seq<Json>): (c: seq<Json>)
    ensures |c| == |items| && forall k :: 0 <= k < |items| ==> c[k] == Column(items[k])
  {
    if items == [] then [] else [Column(items[0])] + ColumnItems(items[1..])
  }

  function ColumnFields(fields: seq<Field>): (c: seq<Field>)
    ensures |c| == |fields|
    ensures forall k :: 0 <= k < |fields| ==> c[k] == Field(fields[k].key, Column(fields[k].value))
  {
    if fields == [] then []
    else [Field(fields[0].key, Column(fields[0].value))] + ColumnFields(fields[1..])
  }

  lemma {:induction false} ColumnIsTree(j: Json)
    requires IsTree(j) && AllFinite(j)
    ensures IsTree(Column(j)) && AllFinite(Column(j))
    decreases j
  {
    match j
    case Arr(items) =>
      forall k | 0 <= k < |items|
        ensures IsTree(Column(items[k])) && AllFinite(Column(items[k]))
      {
        ColumnIsTree(items[k]);
      }
    case Obj(fields) =>
      forall k | 0 <= k < |fields|
        ensures IsTree(Column(fields[k].value)) && AllFinite(Column(fields[k].value))
      {
        ColumnIsTree(fields[k].value);
      }
    case _ =>
  }

  /** A float is read back as an integer exactly when its text has a plus sign, and else as it was, but for zeros. */
  lemma FloatsOfColumn(text: string)
    ensures Column(Float(text)).Int? <==> exists i :: 0 <= i < |text| && text[i] == '+'
    ensures '+' !in text && text != "-0.0" ==> Column(Float(text)) == Float(text)
  {
  }

  /** A NUL character is what the column refuses, in texts and in names, at any depth. */
  lemma NulIsRefused(s: string, key: string, j: Json)
    ensures Storable(Str(s)) <==> forall i :: 0 <= i < |s| ==> s[i] as int != 0
    ensures Storable(Arr([j])) <==> Storable(j)
    ensures Storable(Obj([Field(key, j)])) <==> Storable(Str(key)) && Storable(j)
  {
    assert [j][0] == j && [Field(key, j)][0].value == j;
  }

  /** A payload is read back as the same payload exactly when it holds no large float. */
  lemma {:induction false} ColumnIsSame(j: Json)
    requires IsTree(j)
    ensures Same(Column(j), j) <==> Plain(j)
    decreases j
  {
    match j
    case Arr(items) =>
      forall k | 0 <= k < |items|
        ensures Same(Column(items[k]), items[k]) <==> Plain(items[k])
      {
        ColumnIsSame(items[k]);
      }
      var c := ColumnItems(items);
      assert forall k :: 0 <= k < |items| ==> (Same(c[k], items[k]) <==> Plain(items[k]));
    case Obj(fields) =>
      forall k | 0 <= k < |fields|
        ensures SameFieldIn(ColumnFields(fields)[k], fields) <==> Plain(fields[k].value)
      {
        ColumnIsSame(fields[k].value);
        OwnField(ColumnFields(fields)[k], fields, k);
      }
      OwnKeys(fields);
    case _ =>
  }

  lemma OwnField(f: Field, fields: seq<Field>, k: nat)
    requires DistinctKeys(fields) && k < |fields| && f.key == fields[k].key
    ensures SameFieldIn(f, fields) <==> Same(f.value, fields[k].value)
  {
    if SameFieldIn(f, fields) {
      var j :| 0 <= j < |fields| && fields[j].key == f.key && Same(f.value, fields[j].value);
      assert j == k;
    }
  }

  lemma OwnKeys(fields: seq<Field>)
    ensures forall j :: 0 <= j < |fields| ==> HasKey(ColumnFields(fields), fields[j].key)
  {
    forall j | 0 <= j < |fields|
      ensures HasKey(ColumnFields(fields), fields[j].key)
    {
      assert ColumnFields(fields)[j].key == fields[j].key;
    }
  }

  /** The canonical bytes of what is read back are those of what was written exactly without large floats. */
  lemma ColumnKeepsBytes(j: Json)
    requires IsTree(j) && AllFinite(j)
    ensures CanonicalBytes(Column(j)) == CanonicalBytes(j) <==> Plain(j)
  {
    ColumnIsTree(j);
    ColumnIsSame(j);
    CanonicalBytesAgree(Column(j), j);
  }

  lemma PowerSixteen()
    ensures PowerOfTen(16) == 10_000_000_000_000_000
  {
    assert PowerOfTen(4) == 10_000;
    assert PowerOfTen(8) == 100_000_000;
    assert PowerOfTen(12) == 1_000_000_000_000;
  }

  lemma CutBefore(mark: char, a: string, rest: string)
    requires mark !in a
    ensures UpTo(mark, a + [mark] + rest) == a && Beyond(mark, a + [mark] + rest) == rest
    ensures UpTo(mark, a) == a && Beyond(mark, a) == []
  {
    if a != [] {
      CutBefore(mark, a[1..], rest);
      assert (a + [mark] + rest)[1..] == a[1..] + [mark] + rest;
    }
  }

  lemma WholeParts(m: string, x: string)
    requires forall c :: c in m ==> '0' <= c <= '9'
    ensures var text := m + "e+" + x;
            && UpTo('e', text) == m && Beyond('+', text) == x
            && UpTo('.', m) == m && Beyond('.', m) == []
  {
    var text := m + "e+" + x;
    assert text == m + ['e'] + ("+" + x) && text == (m + "e") + ['+'] + x;
    CutBefore('e', m, "+" + x);
    CutBefore('+', m + "e", x);
    CutBefore('.', m, []);
  }

  /** What a text of a whole mantissa and an exponent denotes. */
  lemma WholeDenotes(mantissa: nat, exponent: nat)
    ensures Magnitude(DecimalNat(mantissa) + "e+" + DecimalNat(exponent)) == mantissa * PowerOfTen(exponent)
  {
    WholeParts(DecimalNat(mantissa), DecimalNat(exponent));
    NatOfDecimal(mantissa);
    NatOfDecimal(exponent);
    assert DecimalNat(mantissa) + [] == DecimalNat(mantissa);
  }

  lemma FractionParts(whole: string, fraction: string, x: string)
    requires forall c :: c in whole || c in fraction ==> '0' <= c <= '9'
    ensures var m := whole + "." + fraction;
            && UpTo('e', m + "e+" + x) == m && Beyond('+', m + "e+" + x) == x
            && UpTo('.', m) == whole && Beyond('.', m) == fraction
  {
    var m := whole + "." + fraction;
    var text := m + "e+" + x;
    assert text == m + ['e'] + ("+" + x) && text == (m + "e") + ['+'] + x && m == whole + ['.'] + fraction;
    assert forall c :: c in m ==> c in whole || c == '.' || c in fraction;
    assert forall c :: c in m + "e" ==> c in m || c == 'e';
    CutBefore('e', m, "+" + x);
    CutBefore('+', m + "e", x);
    CutBefore('.', whole, fraction);
  }

  /** Digits, a point, digits and an exponent no less than the digits behind the point. */
  lemma FractionDenotes(whole: string, fraction: string, exponent: nat)
    requires forall c :: c in whole || c in fraction ==> '0' <= c <= '9'
    requires exponent >= |fraction|
    ensures Magnitude(whole + "." + fraction + "e+" + DecimalNat(exponent))
            == NatOf(whole + fraction) * PowerOfTen(exponent - |fraction|)
  {
    FractionParts(whole, fraction, DecimalNat(exponent));
    NatOfDecimal(exponent);
  }

  /** A minus sign in front of a text of digits denotes the negative number. */
  lemma SignDenotes(text: string)
    requires text != [] && text[0] != '-'
    ensures Denoted(text) == Magnitude(text) && Denoted("-" + text) == -Magnitude(text)
  {
    assert ("-" + text)[1..] == text;
  }

  lemma TextOfTenToTheSixteenth()
    ensures "1e+16" == DecimalNat(1) + "e+" + DecimalNat(16)
  {
    assert DecimalNat(1) == "1" && DecimalNat(16) == "16";
  }

  lemma DenotesTenToTheSixteenth()
    ensures Denoted("1e+16") == 10_000_000_000_000_000
  {
    TextOfTenToTheSixteenth();
    WholeDenotes(1, 16);
    PowerSixteen();
  }

  lemma LargeText()
    ensures FloatText("1e+16") && Large("1e+16")
  {
    var text := "1e+16";
    assert text[0] == '1' && text[1] == 'e' && text[2] == '+' && text[3] == '1' && text[4] == '6';
  }

  /** 1e16 is written as a float and read back as an integer, with other canonical bytes. */
  lemma TenToTheSixteenth()
    ensures AllFinite(Float("1e+16")) && Column(Float("1e+16")) == Int(10_000_000_000_000_000)
    ensures CanonicalBytes(Column(Float("1e+16"))) != CanonicalBytes(Float("1e+16"))
  {
    LargeText();
    DenotesTenToTheSixteenth();
    ColumnKeepsBytes(Float("1e+16"));
  }
}
