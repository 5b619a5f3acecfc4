/** How `_encode` quotes a text (`defender/box/_image.py`): `json.dumps` with `ensure_ascii`, every
    character outside printable ASCII as its UTF-16 units (section 7 of RFC 8259). A quoted text can
    be read back, so a text's end and its characters are never in doubt. */
module JsonQuoting {
  import opened Characters

  /** One UTF-16 unit, in lower-case hexadecimal. */
  function Unit(n: nat): string
    requires n < 0x10000
  {
    "\\u" + [HexDigit(n / 16 / 16 / 16), HexDigit(n / 16 / 16 % 16), HexDigit(n / 16 % 16), HexDigit(n % 16)]
  }

  function Escape(c: char): string {
    var n := c as int;
    if c == '\"' then "\\\""
    else if c == '\\' then "\\\\"
    else if ' ' <= c <= '~' then [c]
    else if n == 8 then "\\b"
    else if n == 9 then "\\t"
    else if n == 10 then "\\n"
    else if n == 12 then "\\f"
    else if n == 13 then "\\r"
    else if n < 0x10000 then Unit(n)
    else Unit(0xd800 + (n - 0x10000) / 1024) + Unit(0xdc00 + (n - 0x10000) % 1024)
  }

  function Escaped(s: string): string {
    if s == "" then "" else Escape(s[0]) + Escaped(s[1..])
  }

  function JsonQuote(s: string): string { "\"" + Escaped(s) + "\"" }

  // ---------------------------------------------------------------- reading one character

  function ReadUnit(t: string): int
    requires |t| >= 6
  {
    HexValue(t[2]) * 4096 + HexValue(t[3]) * 256 + HexValue(t[4]) * 16 + HexValue(t[5])
  }

  /** A code point, and how much of the text spells it. */
  datatype Reading = Reading(point: int, length: nat)

  function ReadHex(t: string): Reading {
    if |t| < 6 then Reading(-1, 0)
    else if 0xd800 <= ReadUnit(t) < 0xdc00 && |t| >= 12 then
      Reading(0x10000 + (ReadUnit(t) - 0xd800) * 1024 + (ReadUnit(t[6..]) - 0xdc00), 12)
    else Reading(ReadUnit(t), 6)
  }

  /** The first character of a quoted text's inside. */
  function Read(t: string): Reading {
    if t == "" then Reading(-1, 0)
    else if t[0] != '\\' then Reading(t[0] as int, 1)
    else if |t| < 2 then Reading(-1, 0)
    else match t[1]
      case 'b' => Reading(8, 2)
      case 't' => Reading(9, 2)
      case 'n' => Reading(10, 2)
      case 'f' => Reading(12, 2)
      case 'r' => Reading(13, 2)
      case 'u' => ReadHex(t)
      case c => Reading(c as int, 2)
  }

  lemma UnitReadsBack(n: nat, r: string)
    requires n < 0x10000
    ensures |Unit(n)| == 6 && Unit(n)[0] == '\\' && Unit(n)[1] == 'u'
    ensures ReadUnit(Unit(n) + r) == n
  {
    hide HexDigit, HexValue;
    var a, b := n / 16, n / 16 / 16;
    HexReadsBack(b / 16);
    HexReadsBack(b % 16);
    HexReadsBack(a % 16);
    HexReadsBack(n % 16);
    var t := Unit(n) + r;
    assert t[2] == HexDigit(b / 16) && t[3] == HexDigit(b % 16);
    assert t[4] == HexDigit(a % 16) && t[5] == HexDigit(n % 16);
  }

  lemma PairReadsBack(m: nat, r: string)
    requires m < 0x100000
    ensures Read(Unit(0xd800 + m / 1024) + Unit(0xdc00 + m % 1024) + r) == Reading(0x10000 + m, 12)
  {
    hide Unit, ReadUnit;
    var hi, lo := Unit(0xd800 + m / 1024), Unit(0xdc00 + m % 1024);
    UnitReadsBack(0xd800 + m / 1024, lo + r);
    UnitReadsBack(0xdc00 + m % 1024, r);
    var t := hi + lo + r;
    assert t == hi + (lo + r) && t[6..] == lo + r;
  }

  lemma OneUnitReadsBack(n: nat, r: string)
    requires n < 0x10000 && !(0xd800 <= n < 0xdc00)
    ensures Read(Unit(n) + r) == Reading(n, 6)
  {
    hide Unit, ReadUnit;
    UnitReadsBack(n, r);
  }

  /** Whatever follows, the first character read is the one written. */
  lemma EscapeReadsBack(c: char, r: string)
    ensures Read(Escape(c) + r) == Reading(c as int, |Escape(c)|)
    ensures Escape(c) != "" && Escape(c)[0] != '\"'
  {
    hide Unit, ReadHex;
    var n := c as int;
    if n >= 0x10000 {
      var m := n - 0x10000;
      PairReadsBack(m, r);
      UnitReadsBack(0xd800 + m / 1024, "");
      UnitReadsBack(0xdc00 + m % 1024, "");
    } else if Escape(c) == Unit(n) {
      OneUnitReadsBack(n, r);
      UnitReadsBack(n, "");
    }
  }

  // ---------------------------------------------------------------- reading a text

  /** The inside of a quoted text, up to its closing quote, determines the text and what follows. */
  lemma {:induction false} EscapedReadsBack(s: string, t: string, r: string, r': string)
    requires Escaped(s) + "\"" + r == Escaped(t) + "\"" + r'
    ensures s == t && r == r'
    decreases |s|
  {
    hide Escape, Read;
    if s == "" || t == "" {
      OneIsEmpty(s, t, r, r');
    } else {
      var x, y := Escaped(s[1..]) + "\"" + r, Escaped(t[1..]) + "\"" + r';
      assert Escape(s[0]) + x == Escaped(s) + "\"" + r;
      assert Escape(t[0]) + y == Escaped(t) + "\"" + r';
      EscapeReadsBack(s[0], x);
      EscapeReadsBack(t[0], y);
      var k := |Escape(s[0])|;
      assert x == (Escape(s[0]) + x)[k..] == (Escape(t[0]) + y)[k..] == y;
      EscapedReadsBack(s[1..], t[1..], r, r');
      assert s == [s[0]] + s[1..] && t == [t[0]] + t[1..];
    }
  }

  lemma StartsWithoutQuote(s: string, r: string)
    ensures s != "" <==> (Escaped(s) + "\"" + r)[0] != '\"'
  {
    hide Escape, Read;
    if s != "" { EscapeReadsBack(s[0], ""); }
  }

  lemma OneIsEmpty(s: string, t: string, r: string, r': string)
    requires Escaped(s) + "\"" + r == Escaped(t) + "\"" + r' && (s == "" || t == "")
    ensures s == t == "" && r == r'
  {
    StartsWithoutQuote(s, r);
    StartsWithoutQuote(t, r');
    var all := Escaped(s) + "\"" + r;
    assert r == all[1..] == r';
  }

  /** No quoted text is another's beginning, and different texts are quoted differently. */
  lemma QuoteReadsBack(s: string, t: string, r: string, r': string)
    requires JsonQuote(s) + r == JsonQuote(t) + r'
    ensures s == t && r == r'
  {
    assert (JsonQuote(s) + r)[1..] == Escaped(s) + "\"" + r;
    assert (JsonQuote(t) + r')[1..] == Escaped(t) + "\"" + r';
    EscapedReadsBack(s, t, r, r');
  }
}
