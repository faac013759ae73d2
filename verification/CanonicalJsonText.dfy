/**
 The canonical text determines what was printed: each printer below is injective, even when more
 text follows that starts with one of the characters that may follow a value.
 */
module CanonicalJsonText {
  import opened CanonicalJson

  /** What may follow a value: the end of the text, or a separator or closing bracket. */
  predicate Stops(u: string) {
    u == [] || u[0] == ',' || u[0] == ']' || u[0] == '}'
  }

  lemma SplitAt(a: string, x: string, b: string, y: string)
    requires |a| == |b| && a + x == b + y
    ensures a == b && x == y
  {
    assert a == (a + x)[..|a|] && b == (b + y)[..|b|];
    assert x == (a + x)[|a|..] && y == (b + y)[|b|..];
  }

  lemma Head(a: string, x: string)
    requires a != []
    ensures (a + x)[0] == a[0] && (|a| > 1 ==> (a + x)[1] == a[1])
    ensures (a + x)[1..] == a[1..] + x
    ensures a == [a[0]] + a[1..]
  {
  }

  lemma Regroup(a: string, b: string, c: string, d: string)
    ensures (a + b) + c + d == a + (b + c + d)
    ensures a + b + c == a + (b + c)
  {
  }

  // ---- Numbers ----

  function DigitValue(c: char): (d: int) {
    c as int - '0' as int
  }

  function NatOf(text: string): (n: int)
  {
    if text == [] then 0 else NatOf(text[..|text| - 1]) * 10 + DigitValue(text[|text| - 1])
  }

  lemma {:induction false} NatOfDecimal(n: nat)
    ensures NatOf(DecimalNat(n)) == n
  {
    if n < 10 {
      assert DecimalNat(n) == [Digit(n)];
      assert NatOf([Digit(n)]) == NatOf([]) * 10 + DigitValue(Digit(n));
    } else {
      NatOfDecimal(n / 10);
      var text := DecimalNat(n);
      assert text[..|text| - 1] == DecimalNat(n / 10);
    }
  }

  function IntOf(text: string): (i: int) {
    if text != [] && text[0] == '-' then -NatOf(text[1..]) else NatOf(text)
  }

  lemma IntOfSigned(text: string)
    ensures IntOf("-" + text) == -NatOf(text)
    ensures '-' !in text ==> IntOf(text) == NatOf(text)
  {
    assert ("-" + text)[1..] == text;
  }

  lemma IntOfDecimal(i: int)
    ensures IntOf(Decimal(i)) == i
  {
    var n: nat := if i < 0 then -i else i;
    var text := DecimalNat(n);
    assert NatOf(text) == n && '-' !in text by {
      NatOfDecimal(n);
    }
    IntOfSigned(text);
  }

  lemma DecimalInjective(a: int, b: int)
    requires Decimal(a) == Decimal(b)
    ensures a == b
  {
    IntOfDecimal(a);
    IntOfDecimal(b);
  }

  predicate AllNumberChars(s: string) {
    forall c :: c in s ==> NumberChar(c)
  }

  /** A run of number characters ends where the stop begins. */
  lemma {:induction false} SpanInjective(s: string, u: string, t: string, v: string)
    requires AllNumberChars(s) && AllNumberChars(t) && Stops(u) && Stops(v)
    requires s + u == t + v
    ensures s == t && u == v
  {
    if s != [] {
      Head(s, u);
      assert s[0] in s;
    }
    if t != [] {
      Head(t, v);
      assert t[0] in t;
    }
    if s != [] && t != [] {
      SpanInjective(s[1..], u, t[1..], v);
    } else {
      assert [] + u == u && [] + v == v;
    }
  }

  // ---- Strings ----

  lemma HexDigitInjective(a: nat, b: nat)
    requires a < 16 && b < 16 && HexDigit(a) == HexDigit(b)
    ensures a == b
  {
  }

  lemma UnitInjective(a: nat, x: string, b: nat, y: string)
    requires a < 0x10000 && b < 0x10000
    requires UnitEscape(a) + x == UnitEscape(b) + y
    ensures a == b && x == y
  {
    SplitAt(UnitEscape(a), x, UnitEscape(b), y);
    var e, f := UnitEscape(a), UnitEscape(b);
    assert e[2] == HexDigit(a / 4096) && f[2] == HexDigit(b / 4096);
    assert e[3] == HexDigit(a / 256 % 16) && f[3] == HexDigit(b / 256 % 16);
    assert e[4] == HexDigit(a / 16 % 16) && f[4] == HexDigit(b / 16 % 16);
    assert e[5] == HexDigit(a % 16) && f[5] == HexDigit(b % 16);
    HexDigitInjective(a / 4096, b / 4096);
    HexDigitInjective(a / 256 % 16, b / 256 % 16);
    HexDigitInjective(a / 16 % 16, b / 16 % 16);
    HexDigitInjective(a % 16, b % 16);
    HexDigitsSum(a);
    HexDigitsSum(b);
  }

  lemma HexDigitsSum(n: nat)
    ensures n == 16 * (16 * (16 * (n / 4096) + n / 256 % 16) + n / 16 % 16) + n % 16
  {
    var q1, q2 := n / 16, n / 256;
    assert q2 == q1 / 16 && n / 4096 == q2 / 16;
    assert q2 == 16 * (q2 / 16) + q2 % 16;
    assert q1 == 16 * (q1 / 16) + q1 % 16;
  }

  /** Characters escaped by code unit. */
  predicate Wide(c: char) {
    !(' ' <= c <= '~') && c != '\n' && c != '\r' && c != '\t' && c as int != 8 && c as int != 12
  }

  lemma NarrowEscape(c: char)
    requires !Wide(c)
    ensures (EscapeChar(c) == [c] && c != '\\' && c != '\"')
            || (|EscapeChar(c)| == 2 && EscapeChar(c)[0] == '\\' && EscapeChar(c)[1] != 'u')
  {
  }

  lemma WideEscape(c: char)
    requires Wide(c)
    ensures |EscapeChar(c)| >= 6 && EscapeChar(c)[0] == '\\' && EscapeChar(c)[1] == 'u'
  {
  }

  /** No escape is a prefix of another. */
  lemma EscapeCharInjective(c: char, x: string, d: char, y: string)
    requires EscapeChar(c) + x == EscapeChar(d) + y
    ensures c == d && x == y
  {
    if Wide(c) && Wide(d) {
      WideInjective(c, x, d, y);
    } else if Wide(c) {
      WideIsNotNarrow(c, x, d, y);
    } else if Wide(d) {
      WideIsNotNarrow(d, y, c, x);
    } else {
      NarrowEscape(c);
      NarrowEscape(d);
      Head(EscapeChar(c), x);
      Head(EscapeChar(d), y);
      SplitAt(EscapeChar(c), x, EscapeChar(d), y);
    }
  }

  lemma WideIsNotNarrow(c: char, x: string, d: char, y: string)
    requires Wide(c) && !Wide(d)
    ensures EscapeChar(c) + x != EscapeChar(d) + y
  {
    NarrowEscape(d);
    WideEscape(c);
    Head(EscapeChar(c), x);
    Head(EscapeChar(d), y);
  }

  lemma WideInjective(c: char, x: string, d: char, y: string)
    requires Wide(c) && Wide(d)
    requires EscapeChar(c) + x == EscapeChar(d) + y
    ensures c == d && x == y
  {
    WideUnits(c, x);
    WideUnits(d, y);
    UnitInjective(FirstUnit(c), AfterFirstUnit(c, x), FirstUnit(d), AfterFirstUnit(d, y));
    if c as int >= 0x10000 {
      UnitInjective(0xDC00 + (c as int - 0x10000) % 1024, x, 0xDC00 + (d as int - 0x10000) % 1024, y);
    }
  }

  /** The first code unit; it is a high surrogate exactly for the characters beyond the basic plane. */
  function FirstUnit(c: char): (n: nat)
    ensures n < 0x10000 && (0xD800 <= n < 0xDC00 <==> c as int >= 0x10000)
  {
    if c as int < 0x10000 then c as int else 0xD800 + (c as int - 0x10000) / 1024
  }

  function AfterFirstUnit(c: char, x: string): string {
    if c as int < 0x10000 then x else UnitEscape(0xDC00 + (c as int - 0x10000) % 1024) + x
  }

  lemma WideUnits(c: char, x: string)
    requires Wide(c)
    ensures EscapeChar(c) + x == UnitEscape(FirstUnit(c)) + AfterFirstUnit(c, x)
  {
    if c as int >= 0x10000 {
      var high, low := UnitEscape(FirstUnit(c)), UnitEscape(0xDC00 + (c as int - 0x10000) % 1024);
      Regroup(high, low, x, []);
    }
  }

  lemma EscapeStart(c: char)
    ensures EscapeChar(c) != [] && EscapeChar(c)[0] != '\"'
  {
  }

  lemma {:induction false} EscapeInjective(s: string, u: string, t: string, v: string)
    requires Escape(s) + "\"" + u == Escape(t) + "\"" + v
    ensures s == t && u == v
  {
    EscapeUnfold(s, u);
    EscapeUnfold(t, v);
    if s != [] && t != [] {
      EscapeCharInjective(s[0], Escape(s[1..]) + "\"" + u, t[0], Escape(t[1..]) + "\"" + v);
      EscapeInjective(s[1..], u, t[1..], v);
      assert s == [s[0]] + s[1..] && t == [t[0]] + t[1..];
    } else if s == [] && t == [] {
      SplitAt("\"", u, "\"", v);
    }
  }

  lemma EscapeUnfold(s: string, u: string)
    ensures Escape(s) + "\"" + u
            == if s == [] then "\"" + u else EscapeChar(s[0]) + (Escape(s[1..]) + "\"" + u)
    ensures (Escape(s) + "\"" + u)[0] == '\"' <==> s == []
  {
    if s != [] {
      EscapeStart(s[0]);
      Regroup(EscapeChar(s[0]), Escape(s[1..]), "\"", u);
      Head(EscapeChar(s[0]), Escape(s[1..]) + "\"" + u);
    } else {
      Head("\"", u);
    }
  }

  lemma QuoteInjective(s: string, u: string, t: string, v: string)
    requires Quote(s) + u == Quote(t) + v
    ensures s == t && u == v
  {
    Regroup("\"", Escape(s), "\"", u);
    Regroup("\"", Escape(t), "\"", v);
    SplitAt("\"", Escape(s) + "\"" + u, "\"", Escape(t) + "\"" + v);
    EscapeInjective(s, u, t, v);
  }
}
