/**
 The canonical JSON text of integrity.py: `json.dumps` with sorted keys, no white space, ASCII
 escapes and no NaN, applied after the sign of float zeros is dropped.

 A float is represented by the text Python's `repr` gives it. Characters are Unicode scalar values.
 The text is ASCII, so its UTF-8 bytes are its characters.
 */
module CanonicalJson {
  import opened Wrappers
  import opened TextOrder

  datatype Json =
    | Null
    | Bool(b: bool)
    | Int(i: int)
    | Float(text: string)
    | Str(s: string)
    | Arr(items: seq<Json>)
    | Obj(fields: seq<Field>)

  datatype Field = Field(key: string, value: Json)

  // ---- What counts as a payload ----

  predicate NumberChar(c: char) {
    '0' <= c <= '9' || c == '-' || c == '+' || c == '.' || c == 'e'
  }

  /** The texts `repr` gives to finite floats: number characters, with a point or an exponent. */
  predicate FloatText(text: string) {
    (forall c :: c in text ==> NumberChar(c)) && ('.' in text || 'e' in text)
  }

  predicate ZeroText(text: string) {
    text == "0.0" || text == "-0.0"
  }

  /** No NaN and no infinity anywhere. */
  predicate AllFinite(j: Json) {
    match j
    case Float(text) => FloatText(text)
    case Arr(items) => forall k :: 0 <= k < |items| ==> AllFinite(items[k])
    case Obj(fields) => forall k :: 0 <= k < |fields| ==> AllFinite(fields[k].value)
    case _ => true
  }

  ghost predicate DistinctKeys(fields: seq<Field>) {
    forall i, j :: 0 <= i < j < |fields| ==> fields[i].key != fields[j].key
  }

  /** A dictionary holds each key once. */
  ghost predicate IsTree(j: Json) {
    match j
    case Arr(items) => forall k :: 0 <= k < |items| ==> IsTree(items[k])
    case Obj(fields) => DistinctKeys(fields) && forall k :: 0 <= k < |fields| ==> IsTree(fields[k].value)
    case _ => true
  }

  /** Equal up to the order of keys and the sign of float zeros. */
  ghost predicate Same(a: Json, b: Json)
    decreases a
  {
    match (a, b)
    case (Float(s), Float(t)) => s == t || (ZeroText(s) && ZeroText(t))
    case (Arr(xs), Arr(ys)) => |xs| == |ys| && forall k :: 0 <= k < |xs| ==> Same(xs[k], ys[k])
    case (Obj(fs), Obj(gs)) =>
      && (forall i :: 0 <= i < |fs| ==> SameFieldIn(fs[i], gs))
      && (forall j :: 0 <= j < |gs| ==> HasKey(fs, gs[j].key))
    case _ => a == b && !a.Float? && !a.Arr? && !a.Obj?
  }

  ghost predicate SameFieldIn(f: Field, gs: seq<Field>)
    decreases f
  {
    exists j :: 0 <= j < |gs| && gs[j].key == f.key && Same(f.value, gs[j].value)
  }

  ghost predicate HasKey(fields: seq<Field>, key: string) {
    exists i :: 0 <= i < |fields| && fields[i].key == key
  }

  // ---- `_normalize_json` ----

  function Normalize(j: Json): (n: Json) {
    match j
    case Float(text) => if ZeroText(text) then Float("0.0") else j
    case Arr(items) => Arr(NormalizeItems(items))
    case Obj(fields) => Obj(NormalizeFields(fields))
    case _ => j
  }

  function NormalizeItems(items: seq<Json>): (n: seq<Json>)
    ensures |n| == |items| && forall k :: 0 <= k < |items| ==> n[k] == Normalize(items[k])
  {
    if items == [] then [] else [Normalize(items[0])] + NormalizeItems(items[1..])
  }

  function NormalizeFields(fields: seq<Field>): (n: seq<Field>)
    ensures |n| == |fields|
    ensures forall k :: 0 <= k < |fields| ==> n[k] == Field(fields[k].key, Normalize(fields[k].value))
  {
    if fields == [] then []
    else [Field(fields[0].key, Normalize(fields[0].value))] + NormalizeFields(fields[1..])
  }

  // ---- `sort_keys=True` ----

  function InsertField(f: Field, sorted: seq<Field>): (r: seq<Field>)
    ensures multiset(r) == multiset(sorted) + multiset{f}
  {
    if sorted == [] then [f]
    else
      assert sorted == [sorted[0]] + sorted[1..];
      if TextAtMost(f.key, sorted[0].key) then [f] + sorted else [sorted[0]] + InsertField(f, sorted[1..])
  }

  function SortFields(fields: seq<Field>): (r: seq<Field>)
    ensures multiset(r) == multiset(fields)
  {
    if fields == [] then []
    else
      assert fields == [fields[0]] + fields[1..];
      InsertField(fields[0], SortFields(fields[1..]))
  }

  function SortKeys(j: Json): (r: Json) {
    match j
    case Arr(items) => Arr(SortKeysItems(items))
    case Obj(fields) => Obj(SortFields(SortKeysFields(fields)))
    case _ => j
  }

  function SortKeysItems(items: seq<Json>): (r: seq<Json>)
    ensures |r| == |items| && forall k :: 0 <= k < |items| ==> r[k] == SortKeys(items[k])
  {
    if items == [] then [] else [SortKeys(items[0])] + SortKeysItems(items[1..])
  }

  function SortKeysFields(fields: seq<Field>): (r: seq<Field>)
    ensures |r| == |fields|
    ensures forall k :: 0 <= k < |fields| ==> r[k] == Field(fields[k].key, SortKeys(fields[k].value))
  {
    if fields == [] then []
    else [Field(fields[0].key, SortKeys(fields[0].value))] + SortKeysFields(fields[1..])
  }

  // ---- Text ----

  function Digit(d: nat): (c: char)
    requires d < 10
  {
    "0123456789"[d]
  }

  function DecimalNat(n: nat): (text: string)
    ensures text != [] && forall c :: c in text ==> '0' <= c <= '9'
  {
    if n < 10 then [Digit(n)] else DecimalNat(n / 10) + [Digit(n % 10)]
  }

  function Decimal(i: int): (text: string)
    ensures text != [] && forall c :: c in text ==> '0' <= c <= '9' || c == '-'
  {
    if i < 0 then "-" + DecimalNat(-i) else DecimalNat(i)
  }

  function HexDigit(d: nat): (c: char)
    requires d < 16
  {
    "0123456789abcdef"[d]
  }

  function Hex4(n: nat): (text: string)
    requires n < 0x10000
  {
    [HexDigit(n / 4096), HexDigit(n / 256 % 16), HexDigit(n / 16 % 16), HexDigit(n % 16)]
  }

  function UnitEscape(n: nat): (text: string)
    requires n < 0x10000
  {
    "\\u" + Hex4(n)
  }

  /** One character between the quotes, as the ASCII encoder writes it. */
  function EscapeChar(c: char): (text: string) {
    if c == '\"' then "\\\""
    else if c == '\\' then "\\\\"
    else if c == '\n' then "\\n"
    else if c == '\r' then "\\r"
    else if c == '\t' then "\\t"
    else if c as int == 8 then "\\b"
    else if c as int == 12 then "\\f"
    else if ' ' <= c <= '~' then [c]
    else if c as int < 0x10000 then UnitEscape(c as int)
    else
      var n := c as int - 0x10000;
      UnitEscape(0xD800 + n / 1024) + UnitEscape(0xDC00 + n % 1024)
  }

  function Escape(s: string): (text: string) {
    if s == [] then [] else EscapeChar(s[0]) + Escape(s[1..])
  }

  function Quote(s: string): (text: string) {
    "\"" + Escape(s) + "\""
  }

  function Print(j: Json): (text: string) {
    match j
    case Null => "null"
    case Bool(b) => if b then "true" else "false"
    case Int(i) => Decimal(i)
    case Float(text) => text
    case Str(s) => Quote(s)
    case Arr(items) => "[" + PrintItems(items) + "]"
    case Obj(fields) => "{" + PrintFields(fields) + "}"
  }

  function PrintItems(items: seq<Json>): (text: string) {
    if items == [] then []
    else Print(items[0]) + (if |items| == 1 then [] else "," + PrintItems(items[1..]))
  }

  function PrintFields(fields: seq<Field>): (text: string) {
    if fields == [] then []
    else
      Quote(fields[0].key) + ":" + Print(fields[0].value)
      + (if |fields| == 1 then [] else "," + PrintFields(fields[1..]))
  }

  /** `canonical_json_bytes`; None stands for the ValueError that NaN and infinities raise. */
  function CanonicalBytes(j: Json): (bytes: Option<string>) {
    if AllFinite(j) then Some(Print(SortKeys(Normalize(j)))) else None
  }
}
