/**
 A reader of JSON texts without white space, as RFC 8259 has them, and what it makes of canonical texts:
 the very value that was printed. So the texts are right, and not only different from each other.
 */
module CanonicalJsonReader {
  import opened Wrappers
  import opened CanonicalJson
  import opened CanonicalJsonText
  import opened CanonicalJsonProofs

  // ---- Strings: section 7 of RFC 8259 ----

  function HexValue(c: char): (d: Option<nat>)
    ensures d.Some? ==> d.value < 16
  {
    if '0' <= c <= '9' then Some(c as int - '0' as int)
    else if 'a' <= c <= 'f' then Some(c as int - 'a' as int + 10)
    else if 'A' <= c <= 'F' then Some(c as int - 'A' as int + 10)
    else None
  }

  /** The code unit that `\u` and four hexadecimal digits stand for. */
  function ReadUnit(t: string): (n: Option<nat>)
    ensures n.Some? ==> n.value < 0x10000 && |t| >= 6
  {
    if |t| < 6 || t[0] != '\\' || t[1] != 'u' then None
    else
      var a, b, c, d := HexValue(t[2]), HexValue(t[3]), HexValue(t[4]), HexValue(t[5]);
      if a.None? || b.None? || c.None? || d.None? then None
      else Some(4096 * a.value + 256 * b.value + 16 * c.value + d.value)
  }

  /** A surrogate pair, as section 7 describes it, or one code unit. */
  function ReadWide(t: string): (r: Option<(char, string)>)
    ensures r.Some? ==> |r.value.1| < |t|
  {
    var unit := ReadUnit(t);
    if unit.None? then None
    else if unit.value < 0xD800 || 0xDFFF < unit.value then Some((unit.value as char, t[6..]))
    else
      var low := ReadUnit(t[6..]);
      if 0xDC00 <= unit.value || low.None? || !(0xDC00 <= low.value <= 0xDFFF) then None
      else Some((Joined(unit.value, low.value), t[12..]))
  }

  /** The character of a surrogate pair. */
  function Joined(high: nat, low: nat): (c: char)
    requires 0xD800 <= high < 0xDC00 && 0xDC00 <= low < 0xE000
  {
    (0x10000 + 0x400 * (high - 0xD800) + (low - 0xDC00)) as char
  }

  function Unescaped(c: char): (d: Option<char>) {
    match c
    case '\"' => Some('\"')
    case '\\' => Some('\\')
    case '/' => Some('/')
    case 'b' => Some(8 as char)
    case 'f' => Some(12 as char)
    case 'n' => Some('\n')
    case 'r' => Some('\r')
    case 't' => Some('\t')
    case _ => None
  }

  /** One character of a string. */
  function ReadChar(t: string): (r: Option<(char, string)>)
    requires t != []
    ensures r.Some? ==> |r.value.1| < |t|
  {
    if t[0] != '\\' then Some((t[0], t[1..]))
    else if |t| < 2 then None
    else if t[1] == 'u' then ReadWide(t)
    else
      var d := Unescaped(t[1]);
      if d.None? then None else Some((d.value, t[2..]))
  }

  /** The rest of a string, after its opening quotation mark. */
  function ReadText(t: string): (r: Option<(string, string)>)
    ensures r.Some? ==> |r.value.1| < |t|
    decreases |t|
  {
    if t == [] then None
    else if t[0] == '\"' then Some(([], t[1..]))
    else
      var c := ReadChar(t);
      if c.None? then None
      else
        var rest := ReadText(c.value.1);
        if rest.None? then None else Some(([c.value.0] + rest.value.0, rest.value.1))
  }

  // ---- Values: sections 3 to 6 of RFC 8259 ----

  function NumberSpan(t: string): (s: string)
    ensures s <= t
  {
    if t == [] || !NumberChar(t[0]) then [] else [t[0]] + NumberSpan(t[1..])
  }

  function ReadNumber(t: string): (r: Option<(Json, string)>)
    ensures r.Some? ==> |r.value.1| < |t|
  {
    var s := NumberSpan(t);
    if s == [] then None
    else Some((if '.' in s || 'e' in s then Float(s) else Int(IntOf(s)), t[|s|..]))
  }

  function ReadValue(t: string): (r: Option<(Json, string)>)
    ensures r.Some? ==> |r.value.1| < |t|
    decreases |t|, 1
  {
    if "null" <= t then Some((Null, t[4..]))
    else if "true" <= t then Some((Bool(true), t[4..]))
    else if "false" <= t then Some((Bool(false), t[5..]))
    else if t == [] then None
    else if t[0] == '\"' then
      var s := ReadText(t[1..]);
      if s.None? then None else Some((Str(s.value.0), s.value.1))
    else if t[0] == '[' then
      if "[]" <= t then Some((Arr([]), t[2..]))
      else
        var items := ReadItems(t[1..]);
        if items.None? then None else Some((Arr(items.value.0), items.value.1))
    else if t[0] == '{' then
      if "{}" <= t then Some((Obj([]), t[2..]))
      else
        var fields := ReadFields(t[1..]);
        if fields.None? then None else Some((Obj(fields.value.0), fields.value.1))
    else ReadNumber(t)
  }

  /** One or more values, with commas between, up to the closing bracket. */
  function ReadItems(t: string): (r: Option<(seq<Json>, string)>)
    ensures r.Some? ==> |r.value.1| < |t|
    decreases |t|, 2
  {
    var first := ReadValue(t);
    if first.None? || first.value.1 == [] then None
    else
      var j, more := first.value.0, first.value.1;
      if more[0] == ']' then Some(([j], more[1..]))
      else if more[0] != ',' then None
      else
        var rest := ReadItems(more[1..]);
        if rest.None? then None else Some(([j] + rest.value.0, rest.value.1))
  }

  /** A name, a colon and a value. */
  function ReadField(t: string): (r: Option<(Field, string)>)
    ensures r.Some? ==> |r.value.1| < |t|
    decreases |t|, 2
  {
    if t == [] || t[0] != '\"' then None
    else
      var key := ReadText(t[1..]);
      if key.None? || key.value.1 == [] || key.value.1[0] != ':' then None
      else
        var j := ReadValue(key.value.1[1..]);
        if j.None? then None else Some((Field(key.value.0, j.value.0), j.value.1))
  }

  /** One or more members, with commas between, up to the closing brace. */
  function ReadFields(t: string): (r: Option<(seq<Field>, string)>)
    ensures r.Some? ==> |r.value.1| < |t|
    decreases |t|, 3
  {
    var first := ReadField(t);
    if first.None? || first.value.1 == [] then None
    else
      var f, more := first.value.0, first.value.1;
      if more[0] == '}' then Some(([f], more[1..]))
      else if more[0] != ',' then None
      else
        var rest := ReadFields(more[1..]);
        if rest.None? then None else Some(([f] + rest.value.0, rest.value.1))
  }

  // ---- Strings are read back ----

  lemma HexValueOf(d: nat)
    requires d < 16
    ensures HexValue(HexDigit(d)) == Some(d)
  {
  }

  lemma ReadUnitOf(n: nat, x: string)
    requires n < 0x10000
    ensures ReadUnit(UnitEscape(n) + x) == Some(n) && (UnitEscape(n) + x)[6..] == x
  {
    var t := UnitEscape(n) + x;
    assert t[0] == '\\' && t[1] == 'u' && t[2] == HexDigit(n / 4096) && t[3] == HexDigit(n / 256 % 16);
    assert t[4] == HexDigit(n / 16 % 16) && t[5] == HexDigit(n % 16);
    HexValueOf(n / 4096);
    HexValueOf(n / 256 % 16);
    HexValueOf(n / 16 % 16);
    HexValueOf(n % 16);
    HexDigitsSum(n);
  }

  lemma ReadWideOf(c: char, x: string)
    requires Wide(c)
    ensures ReadWide(EscapeChar(c) + x) == Some((c, x))
  {
    WideUnits(c, x);
    ReadUnitOf(FirstUnit(c), AfterFirstUnit(c, x));
    if c as int >= 0x10000 {
      ReadPair(c, UnitEscape(FirstUnit(c)) + AfterFirstUnit(c, x), x);
    }
  }

  lemma ReadPair(c: char, t: string, x: string)
    requires c as int >= 0x10000 && ReadUnit(t) == Some(FirstUnit(c)) && t[6..] == AfterFirstUnit(c, x)
    ensures ReadWide(t) == Some((c, x))
  {
    ReadUnitOf(0xDC00 + (c as int - 0x10000) % 1024, x);
    JoinedHalves(c);
    assert t[12..] == t[6..][6..];
  }

  lemma JoinedHalves(c: char)
    requires c as int >= 0x10000
    ensures 0xD800 <= FirstUnit(c) < 0xDC00
    ensures Joined(FirstUnit(c), 0xDC00 + (c as int - 0x10000) % 1024) == c
  {
    var n := c as int - 0x10000;
    assert n / 1024 < 1024 && 1024 * (n / 1024) + n % 1024 == n;
  }

  lemma ReadCharOf(c: char, x: string)
    ensures EscapeChar(c) != [] && (EscapeChar(c) + x)[0] != '\"'
    ensures ReadChar(EscapeChar(c) + x) == Some((c, x))
  {
    EscapeStart(c);
    Head(EscapeChar(c), x);
    if Wide(c) {
      WideEscape(c);
      ReadWideOf(c, x);
    } else {
      NarrowEscape(c);
      var t := EscapeChar(c) + x;
      assert t[|EscapeChar(c)|..] == x;
    }
  }

  lemma {:induction false} ReadTextOf(s: string, u: string)
    ensures ReadText(Escape(s) + "\"" + u) == Some((s, u))
  {
    EscapeUnfold(s, u);
    if s == [] {
      assert ("\"" + u)[1..] == u;
    } else {
      ReadCharOf(s[0], Escape(s[1..]) + "\"" + u);
      ReadTextOf(s[1..], u);
      assert s == [s[0]] + s[1..];
    }
  }

  lemma ReadQuoted(s: string, u: string)
    ensures Quote(s) + u != [] && (Quote(s) + u)[0] == '\"'
    ensures ReadText((Quote(s) + u)[1..]) == Some((s, u))
  {
    Regroup("\"", Escape(s), "\"", u);
    Head("\"", Escape(s) + "\"" + u);
    ReadTextOf(s, u);
  }

  // ---- Numbers are read back ----

  lemma {:induction false} NumberSpanOf(s: string, u: string)
    requires AllNumberChars(s) && Stops(u)
    ensures NumberSpan(s + u) == s
  {
    if s == [] {
      assert s + u == u;
    } else {
      Head(s, u);
      assert s[0] in s;
      NumberSpanOf(s[1..], u);
    }
  }

  lemma ReadNumberOf(j: Json, u: string)
    requires AllFinite(j) && Shape(j) == 2 && Stops(u)
    ensures ReadValue(Print(j) + u) == Some((j, u))
  {
    var t := Print(j) + u;
    NumberPrint(j);
    FirstChar(j, u);
    NumberSpanOf(Print(j), u);
    assert t[|Print(j)|..] == u;
    NotAWord(t);
    if j.Int? {
      IntOfDecimal(j.i);
    }
  }

  lemma NotAWord(t: string)
    requires t != [] && NumberChar(t[0])
    ensures !("null" <= t) && !("true" <= t) && !("false" <= t)
    ensures t[0] != '\"' && t[0] != '[' && t[0] != '{'
  {
    assert "null"[0] == 'n' && "true"[0] == 't' && "false"[0] == 'f';
  }

  // ---- Values are read back ----

  lemma ReadWord(j: Json, u: string)
    requires j.Null? || j.Bool?
    ensures ReadValue(Print(j) + u) == Some((j, u))
  {
    var word, t := Print(j), Print(j) + u;
    assert word <= t && t[|word|..] == u;
    assert "null"[0] == 'n' && "true"[0] == 't' && "false"[0] == 'f';
    assert t[0] == word[0];
  }

  /**
   A canonical text is read as the value it was printed from, whatever separator, bracket or end follows:
   the constants, the numbers, the escapes and the brackets are those of the standard.
   */
  lemma {:induction false} ReadPrinted(j: Json, u: string)
    requires AllFinite(j) && Stops(u)
    ensures ReadValue(Print(j) + u) == Some((j, u))
    decreases j, 0
  {
    match j
    case Null => ReadWord(j, u);
    case Bool(_) => ReadWord(j, u);
    case Int(_) => ReadNumberOf(j, u);
    case Float(_) => ReadNumberOf(j, u);
    case Str(s) => ReadString(s, u);
    case Arr(items) =>
      if items != [] {
        ReadPrintedItems(items, u);
      }
      ReadArray(items, u);
    case Obj(fields) =>
      if fields != [] {
        ReadPrintedFields(fields, u);
      }
      ReadObject(fields, u);
  }

  lemma ReadString(s: string, u: string)
    ensures ReadValue(Print(Str(s)) + u) == Some((Str(s), u))
  {
    ReadQuoted(s, u);
    NoWordBehind('\"', Print(Str(s)) + u);
  }

  lemma ReadArray(items: seq<Json>, u: string)
    requires AllFinite(Arr(items))
    requires items != [] ==> ReadItems(PrintItems(items) + "]" + u) == Some((items, u))
    ensures ReadValue(Print(Arr(items)) + u) == Some((Arr(items), u))
  {
    Opens("[", PrintItems(items), "]", u);
    NoWordBehind('[', Print(Arr(items)) + u);
    if items != [] {
      NotEmptyItems(items, u);
    }
  }

  lemma ReadObject(fields: seq<Field>, u: string)
    requires AllFinite(Obj(fields))
    requires fields != [] ==> ReadFields(PrintFields(fields) + "}" + u) == Some((fields, u))
    ensures ReadValue(Print(Obj(fields)) + u) == Some((Obj(fields), u))
  {
    Opens("{", PrintFields(fields), "}", u);
    NoWordBehind('{', Print(Obj(fields)) + u);
    if fields != [] {
      NotEmptyFields(fields, u);
    }
  }

  lemma NoWordBehind(c: char, t: string)
    requires t != [] && t[0] == c && (c == '\"' || c == '[' || c == '{')
    ensures !("null" <= t) && !("true" <= t) && !("false" <= t)
  {
    assert "null"[0] == 'n' && "true"[0] == 't' && "false"[0] == 'f';
  }

  lemma Opens(open: string, inside: string, close: string, u: string)
    requires |open| == 1 == |close|
    ensures var t := open + inside + close + u;
            && t != [] && t[0] == open[0] && t[1..] == inside + close + u
            && (inside == [] ==> open + close <= t && t[2..] == u)
  {
    var t := open + inside + close + u;
    assert t == open + (inside + close + u);
    if inside == [] {
      assert t == open + close + u;
    }
  }

  lemma NotEmptyItems(items: seq<Json>, u: string)
    requires items != [] && AllFinite(Arr(items))
    ensures !("[]" <= Print(Arr(items)) + u)
  {
    Opens("[", PrintItems(items), "]", u);
    ItemsUnfold(items, u);
    FirstChar(items[0], ItemsRest(items, u));
    var t := Print(Arr(items)) + u;
    assert t[1] == t[1..][0] && "[]"[1] == ']';
  }

  lemma NotEmptyFields(fields: seq<Field>, u: string)
    requires fields != []
    ensures !("{}" <= Print(Obj(fields)) + u)
  {
    Opens("{", PrintFields(fields), "}", u);
    MembersStart(fields, u);
    var t := Print(Obj(fields)) + u;
    assert t[1] == t[1..][0] && "{}"[1] == '}';
  }

  lemma LastItem(t: string, j: Json, u: string)
    requires ReadValue(t) == Some((j, "]" + u))
    ensures ReadItems(t) == Some(([j], u))
  {
    assert ("]" + u)[0] == ']' && ("]" + u)[1..] == u;
  }

  lemma MoreItems(t: string, j: Json, rest: string, items: seq<Json>, u: string)
    requires ReadValue(t) == Some((j, "," + rest)) && ReadItems(rest) == Some((items, u))
    ensures ReadItems(t) == Some(([j] + items, u))
  {
    assert ("," + rest)[0] == ',' && ("," + rest)[1..] == rest;
  }

  lemma {:induction false} ReadPrintedItems(items: seq<Json>, u: string)
    requires items != [] && AllFinite(Arr(items))
    ensures ReadItems(PrintItems(items) + "]" + u) == Some((items, u))
    decreases items, 1
  {
    ReadPrinted(items[0], ItemsRest(items, u));
    if |items| > 1 {
      ReadPrintedItems(items[1..], u);
    }
    ItemsAreRead(items, u);
  }

  lemma ItemsAreRead(items: seq<Json>, u: string)
    requires items != [] && ReadValue(Print(items[0]) + ItemsRest(items, u)) == Some((items[0], ItemsRest(items, u)))
    requires |items| > 1 ==> ReadItems(PrintItems(items[1..]) + "]" + u) == Some((items[1..], u))
    ensures ReadItems(PrintItems(items) + "]" + u) == Some((items, u))
  {
    var t := PrintItems(items) + "]" + u;
    ItemsUnfold(items, u);
    HeadTail(items);
    if |items| == 1 {
      LastItem(t, items[0], u);
      assert items == [items[0]];
    } else {
      MoreItems(t, items[0], PrintItems(items[1..]) + "]" + u, items[1..], u);
    }
  }

  lemma HeadTail<T>(s: seq<T>)
    requires s != []
    ensures s == [s[0]] + s[1..]
  {
  }

  lemma ReadPrintedField(f: Field, more: string)
    requires ReadValue(Print(f.value) + more) == Some((f.value, more))
    ensures ReadField(Quote(f.key) + (":" + (Print(f.value) + more))) == Some((f, more))
  {
    var tail := Print(f.value) + more;
    ReadQuoted(f.key, ":" + tail);
    assert (":" + tail)[0] == ':' && (":" + tail)[1..] == tail;
  }

  lemma LastField(t: string, f: Field, u: string)
    requires ReadField(t) == Some((f, "}" + u))
    ensures ReadFields(t) == Some(([f], u))
  {
    assert ("}" + u)[0] == '}' && ("}" + u)[1..] == u;
  }

  lemma MoreFields(t: string, f: Field, rest: string, fields: seq<Field>, u: string)
    requires ReadField(t) == Some((f, "," + rest)) && ReadFields(rest) == Some((fields, u))
    ensures ReadFields(t) == Some(([f] + fields, u))
  {
    assert ("," + rest)[0] == ',' && ("," + rest)[1..] == rest;
  }

  lemma {:induction false} ReadPrintedFields(fields: seq<Field>, u: string)
    requires fields != [] && AllFinite(Obj(fields))
    ensures ReadFields(PrintFields(fields) + "}" + u) == Some((fields, u))
    decreases fields, 1
  {
    ReadPrinted(fields[0].value, MembersRest(fields, u));
    if |fields| > 1 {
      ReadPrintedFields(fields[1..], u);
    }
    FieldsAreRead(fields, u);
  }

  lemma FieldsAreRead(fields: seq<Field>, u: string)
    requires fields != []
    requires var more := MembersRest(fields, u);
             ReadValue(Print(fields[0].value) + more) == Some((fields[0].value, more))
    requires |fields| > 1 ==> ReadFields(PrintFields(fields[1..]) + "}" + u) == Some((fields[1..], u))
    ensures ReadFields(PrintFields(fields) + "}" + u) == Some((fields, u))
  {
    var t := PrintFields(fields) + "}" + u;
    MembersUnfold(fields, u);
    ReadPrintedField(fields[0], MembersRest(fields, u));
    HeadTail(fields);
    if |fields| == 1 {
      LastField(t, fields[0], u);
      assert fields == [fields[0]];
    } else {
      MoreFields(t, fields[0], PrintFields(fields[1..]) + "}" + u, fields[1..], u);
    }
  }

  /** The canonical bytes of a payload are read as the payload, normalised and with its keys sorted. */
  lemma CanonicalBytesRead(j: Json)
    requires AllFinite(j)
    ensures ReadValue(CanonicalBytes(j).value) == Some((Canon(j), []))
  {
    CanonFinite(j);
    ReadPrinted(Canon(j), []);
    assert Print(Canon(j)) + [] == Print(Canon(j));
  }
}
