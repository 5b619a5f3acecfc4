/** The nesting of a JSON text, judged on its characters before it is decoded
    (`defender/_filesystem/json.py`).

    The scanner knows string literals and brackets only. The reference is the depth of the JSON
    value, for every text that prints it under sections 2 to 7 of RFC 8259. */
module JsonDepth {
  import opened Options
  import opened Characters

  const JSON_NESTING_LIMIT: nat := 100

  function Max(a: nat, b: nat): nat { if a > b then a else b }

  // ---------------------------------------------------------------- values

  datatype Json =
    | Null
    | Bool(truth: bool)
    | Number(digits: string)
    | String(points: seq<nat>)
    | Array(items: seq<Json>)
    | Object(members: seq<Field>)

  datatype Field = Field(name: seq<nat>, value: Json)

  /** Containers on the deepest branch. */
  function Depth(v: Json): nat
    decreases v, 1
  {
    match v
    case Array(items) => 1 + DeepestItem(items)
    case Object(members) => 1 + DeepestField(members)
    case _ => 0
  }

  function DeepestItem(items: seq<Json>): nat
    decreases items, 0
  {
    if items == [] then 0 else Max(Depth(items[0]), DeepestItem(items[1..]))
  }

  function DeepestField(members: seq<Field>): nat
    decreases members, 0
  {
    if members == [] then 0 else
      var f := members[0];
      assert members decreases to f;
      Max(Depth(f.value), DeepestField(members[1..]))
  }

  // ---------------------------------------------------------------- printings

  /** One character of a string literal as written: itself, `\c`, or `\u` and four hex digits. */
  datatype Part = Plain(c: char) | Escaped(c: char) | Unicode(hex: string)

  datatype Exponent = Exponent(mark: char, sign: string, digits: string)

  /** A value as printed, with every freedom the grammar gives: whitespace around each structural
      character, the escapes of each string, the spelling of each number. */
  datatype Printed =
    | PNull
    | PBool(truth: bool)
    | PNumber(minus: bool, whole: string, fraction: Option<string>, exponent: Option<Exponent>)
    | PString(parts: seq<Part>)
    | PArray(blank: string, elements: seq<Padded>)
    | PObject(blank: string, fields: seq<Member>)

  datatype Padded = Padded(before: string, value: Printed, after: string)

  datatype Member = Member(before: string, name: seq<Part>, between: string, value: Padded)

  predicate IsDigit(c: char) { '0' <= c <= '9' }

  predicate IsHex(c: char) { IsDigit(c) || 'a' <= c <= 'f' || 'A' <= c <= 'F' }

  ghost predicate Digits(s: string) { |s| > 0 && forall i :: 0 <= i < |s| ==> IsDigit(s[i]) }

  ghost predicate Blank(s: string) {
    forall i :: 0 <= i < |s| ==> s[i] == ' ' || s[i] == '\t' || s[i] == '\n' || s[i] == '\r'
  }

  ghost predicate LegalPart(p: Part) {
    match p
    case Plain(c) => c != '\"' && c != '\\' && c >= ' '
    case Escaped(c) => c in "\"\\/bfnrt"
    case Unicode(hex) => |hex| == 4 && forall i :: 0 <= i < 4 ==> IsHex(hex[i])
  }

  ghost predicate LegalParts(parts: seq<Part>) { forall i :: 0 <= i < |parts| ==> LegalPart(parts[i]) }

  ghost predicate LegalExponent(e: Exponent) {
    e.mark in "eE" && e.sign in ["", "+", "-"] && Digits(e.digits)
  }

  ghost predicate Legal(v: Printed)
    decreases v, 2
  {
    match v
    case PNull => true
    case PBool(_) => true
    case PNumber(_, whole, fraction, exponent) =>
      && Digits(whole) && (|whole| > 1 ==> whole[0] != '0')
      && (fraction.Some? ==> Digits(fraction.value))
      && (exponent.Some? ==> LegalExponent(exponent.value))
    case PString(parts) => LegalParts(parts)
    case PArray(blank, elements) => Blank(blank) && LegalElements(elements)
    case PObject(blank, fields) => Blank(blank) && LegalMembers(fields)
  }

  ghost predicate LegalPadded(p: Padded)
    decreases p, 3
  {
    Blank(p.before) && Legal(p.value) && Blank(p.after)
  }

  ghost predicate LegalElements(elements: seq<Padded>)
    decreases elements, 0
  {
    elements == [] || (LegalPadded(elements[0]) && LegalElements(elements[1..]))
  }

  ghost predicate LegalMembers(fields: seq<Member>)
    decreases fields, 0
  {
    fields == [] ||
    (var m := fields[0];
     assert fields decreases to m;
     Blank(m.before) && LegalParts(m.name) && Blank(m.between) && LegalPadded(m.value)
     && LegalMembers(fields[1..]))
  }

  function PartText(p: Part): string {
    match p
    case Plain(c) => [c]
    case Escaped(c) => ['\\', c]
    case Unicode(hex) => "\\u" + hex
  }

  function PartsText(parts: seq<Part>): string {
    if parts == [] then "" else PartText(parts[0]) + PartsText(parts[1..])
  }

  function StringText(parts: seq<Part>): string { "\"" + PartsText(parts) + "\"" }

  function NumberText(minus: bool, whole: string, fraction: Option<string>, exponent: Option<Exponent>): string {
    (if minus then "-" else "") + whole
    + (if fraction.Some? then "." + fraction.value else "")
    + (if exponent.Some? then [exponent.value.mark] + exponent.value.sign + exponent.value.digits else "")
  }

  function Text(v: Printed): string
    decreases v, 2
  {
    match v
    case PNull => "null"
    case PBool(truth) => if truth then "true" else "false"
    case PNumber(minus, whole, fraction, exponent) => NumberText(minus, whole, fraction, exponent)
    case PString(parts) => StringText(parts)
    case PArray(blank, elements) => "[" + blank + ElementsText(elements) + "]"
    case PObject(blank, fields) => "{" + blank + MembersText(fields) + "}"
  }

  function PaddedText(p: Padded): string
    decreases p, 3
  {
    p.before + Text(p.value) + p.after
  }

  function Comma<T>(rest: seq<T>): string { if rest == [] then "" else "," }

  function ElementsText(elements: seq<Padded>): string
    decreases elements, 0
  {
    if elements == [] then "" else
      PaddedText(elements[0]) + Comma(elements[1..]) + ElementsText(elements[1..])
  }

  function MembersText(fields: seq<Member>): string
    decreases fields, 0
  {
    if fields == [] then "" else
      var m := fields[0];
      assert fields decreases to m;
      m.before + (StringText(m.name) + (m.between + (":" + (PaddedText(m.value)
      + (Comma(fields[1..]) + MembersText(fields[1..]))))))
  }

  // ---------------------------------------------------------------- the value a printing prints

  function HexNumber(hex: string): nat {
    if hex == "" then 0 else 16 * HexNumber(hex[..|hex| - 1]) + HexValue(hex[|hex| - 1])
  }

  /** The code point one part spells on its own. */
  function Point(p: Part): nat {
    match p
    case Plain(c) => c as int
    case Unicode(hex) => HexNumber(hex)
    case Escaped(c) =>
      if c == 'b' then 8 else if c == 'f' then 12 else if c == 'n' then 10
      else if c == 'r' then 13 else if c == 't' then 9 else c as int
  }

  predicate High(n: nat) { 0xd800 <= n < 0xdc00 }

  predicate Low(n: nat) { 0xdc00 <= n < 0xe000 }

  /** The character of a surrogate pair. */
  function Pair(high: nat, low: nat): nat
    requires High(high) && Low(low)
  {
    0x10000 + (high - 0xd800) * 1024 + (low - 0xdc00)
  }

  /** The code points a literal spells: an escaped high surrogate and the escaped low one after it are
      one character. */
  function Points(parts: seq<Part>): seq<nat>
    decreases |parts|
  {
    if parts == [] then []
    else if |parts| > 1 && parts[0].Unicode? && High(Point(parts[0])) && parts[1].Unicode? && Low(Point(parts[1])) then
      [Pair(Point(parts[0]), Point(parts[1]))] + Points(parts[2..])
    else [Point(parts[0])] + Points(parts[1..])
  }

  function ValueOf(v: Printed): Json
    decreases v, 1
  {
    match v
    case PNull => Null
    case PBool(truth) => Bool(truth)
    case PNumber(minus, whole, fraction, exponent) => Number(NumberText(minus, whole, fraction, exponent))
    case PString(parts) => String(Points(parts))
    case PArray(_, elements) => Array(ItemsOf(elements))
    case PObject(_, fields) => Object(FieldsOf(fields))
  }

  function ItemsOf(elements: seq<Padded>): seq<Json>
    decreases elements, 0
  {
    if elements == [] then [] else
      var e := elements[0];
      assert elements decreases to e;
      [ValueOf(e.value)] + ItemsOf(elements[1..])
  }

  function FieldsOf(fields: seq<Member>): seq<Field>
    decreases fields, 0
  {
    if fields == [] then [] else
      var m := fields[0];
      assert fields decreases to m;
      assert m decreases to m.value;
      [Field(Points(m.name), ValueOf(m.value.value))] + FieldsOf(fields[1..])
  }

  /** `text` is one legal printing of `v`: the value between any whitespace. */
  ghost predicate Prints(text: string, v: Json) {
    exists p: Padded :: LegalPadded(p) && PaddedText(p) == text && ValueOf(p.value) == v
  }

  // ---------------------------------------------------------------- the scanner

  /** How many characters past its opening quote a string token takes: to its closing quote, or to
      the end of the text, or to an escape that escapes nothing (a backslash before a line feed or
      at the end, which the token cannot take). */
  function StringEnd(s: string): (n: nat)
    ensures n <= |s|
  {
    if s == "" then 0
    else if s[0] == '\"' then 1
    else if s[0] != '\\' then 1 + StringEnd(s[1..])
    else if |s| >= 2 && s[1] != '\n' then 2 + StringEnd(s[2..])
    else 0
  }

  function Scan(s: string, depth: nat, deepest: nat): nat
    decreases |s|
  {
    if s == "" then deepest
    else if s[0] == '\"' then Scan(s[1 + StringEnd(s[1..])..], depth, deepest)
    else if s[0] in "[{" then Scan(s[1..], depth + 1, Max(deepest, depth + 1))
    else if s[0] in "]}" then Scan(s[1..], if depth > 0 then depth - 1 else 0, deepest)
    else Scan(s[1..], depth, deepest)
  }

  predicate Quiet(c: char) { c != '\"' && c !in "[{" && c !in "]}" }

  lemma {:induction false} QuietTextIsSkipped(q: string, rest: string, depth: nat, deepest: nat)
    requires forall i :: 0 <= i < |q| ==> Quiet(q[i])
    ensures Scan(q + rest, depth, deepest) == Scan(rest, depth, deepest)
    decreases |q|
  {
    if q == "" {
      assert q + rest == rest;
    } else {
      assert (q + rest)[1..] == q[1..] + rest;
      QuietTextIsSkipped(q[1..], rest, depth, deepest);
    }
  }

  lemma {:induction false} HexIsTaken(hex: string, rest: string)
    requires forall i :: 0 <= i < |hex| ==> IsHex(hex[i])
    ensures StringEnd(hex + rest) == |hex| + StringEnd(rest)
    decreases |hex|
  {
    if hex == "" {
      assert hex + rest == rest;
    } else {
      assert (hex + rest)[1..] == hex[1..] + rest;
      HexIsTaken(hex[1..], rest);
    }
  }

  lemma PartIsTaken(p: Part, rest: string)
    requires LegalPart(p)
    ensures StringEnd(PartText(p) + rest) == |PartText(p)| + StringEnd(rest)
  {
    var s := PartText(p) + rest;
    match p
    case Plain(c) => assert s[1..] == rest;
    case Escaped(c) => assert s[2..] == rest;
    case Unicode(hex) =>
      assert s[2..] == hex + rest;
      HexIsTaken(hex, rest);
  }

  /** Whatever a legal literal holds, its token ends at its own closing quote. */
  lemma {:induction false} LiteralIsTaken(parts: seq<Part>, rest: string)
    requires LegalParts(parts)
    ensures StringEnd(PartsText(parts) + "\"" + rest) == |PartsText(parts)| + 1
    decreases |parts|
  {
    if parts == [] {
      assert PartsText(parts) + "\"" + rest == "\"" + rest;
    } else {
      assert PartsText(parts) + "\"" + rest
          == PartText(parts[0]) + (PartsText(parts[1..]) + "\"" + rest);
      PartIsTaken(parts[0], PartsText(parts[1..]) + "\"" + rest);
      LiteralIsTaken(parts[1..], rest);
    }
  }

  lemma StringIsSkipped(parts: seq<Part>, rest: string, depth: nat, deepest: nat)
    requires LegalParts(parts)
    ensures Scan(StringText(parts) + rest, depth, deepest) == Scan(rest, depth, deepest)
  {
    var s := StringText(parts) + rest;
    assert s[1..] == PartsText(parts) + "\"" + rest;
    LiteralIsTaken(parts, rest);
    assert s[1 + (|PartsText(parts)| + 1)..] == rest;
  }

  lemma BlankIsSkipped(b: string, rest: string, depth: nat, deepest: nat)
    requires Blank(b)
    ensures Scan(b + rest, depth, deepest) == Scan(rest, depth, deepest)
  {
    QuietTextIsSkipped(b, rest, depth, deepest);
  }

  lemma NumberIsQuiet(v: Printed)
    requires v.PNumber? && Legal(v)
    ensures forall i :: 0 <= i < |Text(v)| ==> Quiet(Text(v)[i])
  {
    var minus := if v.minus then "-" else "";
    var fraction := if v.fraction.Some? then "." + v.fraction.value else "";
    var exponent := if v.exponent.Some?
                    then [v.exponent.value.mark] + v.exponent.value.sign + v.exponent.value.digits else "";
    assert forall i :: 0 <= i < |fraction| ==> Quiet(fraction[i]);
    assert forall i :: 0 <= i < |exponent| ==> Quiet(exponent[i]);
    assert Text(v) == minus + v.whole + fraction + exponent;
  }

  /** A container adds one level over its body and gives it back. */
  lemma BracketsScan(open: char, blank: string, body: string, close: char, rest: string,
                     depth: nat, deepest: nat, within: nat)
    requires (open == '[' && close == ']') || (open == '{' && close == '}')
    requires Blank(blank) && depth <= deepest
    requires Scan(body + ([close] + rest), depth + 1, Max(deepest, depth + 1)) ==
             Scan([close] + rest, depth + 1, Max(Max(deepest, depth + 1), depth + 1 + within))
    ensures Scan([open] + blank + body + [close] + rest, depth, deepest) ==
            Scan(rest, depth, Max(deepest, depth + (1 + within)))
  {
    var text := [open] + blank + body + [close] + rest;
    var inner := blank + (body + ([close] + rest));
    assert text[0] == open && text[1..] == inner;
    BlankIsSkipped(blank, body + ([close] + rest), depth + 1, Max(deepest, depth + 1));
    assert ([close] + rest)[1..] == rest;
  }

  lemma AtomScans(v: Printed, rest: string, depth: nat, deepest: nat)
    requires Legal(v) && !v.PArray? && !v.PObject?
    ensures Scan(Text(v) + rest, depth, deepest) == Scan(rest, depth, deepest)
  {
    if v.PString? {
      StringIsSkipped(v.parts, rest, depth, deepest);
    } else {
      if v.PNumber? { NumberIsQuiet(v); }
      QuietTextIsSkipped(Text(v), rest, depth, deepest);
    }
  }

  /** A legal printing scans to the depth of its value, on top of the depth it stands at, and
      gives the brackets it opened back. */
  lemma {:induction false} ValueScans(v: Printed, rest: string, depth: nat, deepest: nat)
    requires Legal(v) && depth <= deepest
    ensures Scan(Text(v) + rest, depth, deepest) ==
            Scan(rest, depth, Max(deepest, depth + Depth(ValueOf(v))))
    decreases v, 2
  {
    hide Scan;
    match v
    case PArray(blank, elements) => ArrayScans(blank, elements, rest, depth, deepest);
    case PObject(blank, fields) => ObjectScans(blank, fields, rest, depth, deepest);
    case _ => AtomScans(v, rest, depth, deepest);
  }

  lemma {:induction false} ArrayScans(blank: string, elements: seq<Padded>, rest: string, depth: nat, deepest: nat)
    requires Blank(blank) && LegalElements(elements) && depth <= deepest
    ensures Scan("[" + blank + ElementsText(elements) + "]" + rest, depth, deepest) ==
            Scan(rest, depth, Max(deepest, depth + (1 + DeepestItem(ItemsOf(elements)))))
    decreases elements, 1
  {
    hide Scan, Text, Legal, ValueOf, Depth, ElementsText, LegalElements;
    ElementsScan(elements, "]" + rest, depth + 1, Max(deepest, depth + 1));
    BracketsScan('[', blank, ElementsText(elements), ']', rest, depth, deepest, DeepestItem(ItemsOf(elements)));
  }

  lemma {:induction false} ObjectScans(blank: string, fields: seq<Member>, rest: string, depth: nat, deepest: nat)
    requires Blank(blank) && LegalMembers(fields) && depth <= deepest
    ensures Scan("{" + blank + MembersText(fields) + "}" + rest, depth, deepest) ==
            Scan(rest, depth, Max(deepest, depth + (1 + DeepestField(FieldsOf(fields)))))
    decreases fields, 1
  {
    hide Scan, Text, Legal, ValueOf, Depth, MembersText, LegalMembers;
    MembersScan(fields, "}" + rest, depth + 1, Max(deepest, depth + 1));
    BracketsScan('{', blank, MembersText(fields), '}', rest, depth, deepest, DeepestField(FieldsOf(fields)));
  }

  lemma {:induction false} PaddedScans(p: Padded, rest: string, depth: nat, deepest: nat)
    requires LegalPadded(p) && depth <= deepest
    ensures Scan(PaddedText(p) + rest, depth, deepest) ==
            Scan(rest, depth, Max(deepest, depth + Depth(ValueOf(p.value))))
    decreases p, 3
  {
    hide Scan;
    assert PaddedText(p) + rest == p.before + (Text(p.value) + (p.after + rest));
    BlankIsSkipped(p.before, Text(p.value) + (p.after + rest), depth, deepest);
    ValueScans(p.value, p.after + rest, depth, deepest);
    BlankIsSkipped(p.after, rest, depth, Max(deepest, depth + Depth(ValueOf(p.value))));
  }

  lemma CommaIsSkipped<T>(more: seq<T>, rest: string, depth: nat, deepest: nat)
    ensures Scan(Comma(more) + rest, depth, deepest) == Scan(rest, depth, deepest)
  {
    QuietTextIsSkipped(Comma(more), rest, depth, deepest);
  }

  /** The first element, its comma included. */
  lemma {:induction false} FirstElementScans(elements: seq<Padded>, rest: string, depth: nat, deepest: nat)
    requires elements != [] && LegalElements(elements) && depth <= deepest
    ensures Scan(ElementsText(elements) + rest, depth, deepest) ==
            Scan(ElementsText(elements[1..]) + rest, depth,
                 Max(deepest, depth + Depth(ValueOf(elements[0].value))))
    decreases elements[0], 4
  {
    hide Scan;
    var e, comma, more := elements[0], Comma(elements[1..]), ElementsText(elements[1..]);
    assert ElementsText(elements) + rest == PaddedText(e) + (comma + (more + rest));
    PaddedScans(e, comma + (more + rest), depth, deepest);
    CommaIsSkipped(elements[1..], more + rest, depth, Max(deepest, depth + Depth(ValueOf(e.value))));
  }

  lemma {:induction false} ElementsScan(elements: seq<Padded>, rest: string, depth: nat, deepest: nat)
    requires LegalElements(elements) && depth <= deepest
    ensures Scan(ElementsText(elements) + rest, depth, deepest) ==
            Scan(rest, depth, Max(deepest, depth + DeepestItem(ItemsOf(elements))))
    decreases elements, 0
  {
    hide Scan, Text, Legal, ValueOf, Depth;
    if elements == [] {
      assert ElementsText(elements) + rest == rest;
    } else {
      var e := elements[0];
      assert elements decreases to e;
      FirstElementScans(elements, rest, depth, deepest);
      ElementsScan(elements[1..], rest, depth, Max(deepest, depth + Depth(ValueOf(e.value))));
      assert ItemsOf(elements)[1..] == ItemsOf(elements[1..]);
    }
  }

  lemma NameIsSkipped(m: Member, rest: string, depth: nat, deepest: nat)
    requires Blank(m.before) && LegalParts(m.name) && Blank(m.between)
    ensures Scan(m.before + (StringText(m.name) + (m.between + (":" + rest))), depth, deepest) ==
            Scan(rest, depth, deepest)
  {
    BlankIsSkipped(m.before, StringText(m.name) + (m.between + (":" + rest)), depth, deepest);
    StringIsSkipped(m.name, m.between + (":" + rest), depth, deepest);
    BlankIsSkipped(m.between, ":" + rest, depth, deepest);
    QuietTextIsSkipped(":", rest, depth, deepest);
  }

  lemma MembersText1(fields: seq<Member>, rest: string)
    requires fields != []
    ensures var m := fields[0];
            MembersText(fields) + rest ==
            m.before + (StringText(m.name) + (m.between + (":" +
              (PaddedText(m.value) + (Comma(fields[1..]) + (MembersText(fields[1..]) + rest))))))
  {
    var m := fields[0];
    var t := Comma(fields[1..]) + MembersText(fields[1..]);
    Assoc(Comma(fields[1..]), MembersText(fields[1..]), rest);
    Assoc(PaddedText(m.value), t, rest);
    Assoc(":", PaddedText(m.value) + t, rest);
    Assoc(m.between, ":" + (PaddedText(m.value) + t), rest);
    Assoc(StringText(m.name), m.between + (":" + (PaddedText(m.value) + t)), rest);
    Assoc(m.before, StringText(m.name) + (m.between + (":" + (PaddedText(m.value) + t))), rest);
  }

  lemma Assoc(a: string, b: string, c: string)
    ensures (a + b) + c == a + (b + c)
  {
  }

  lemma DeepestField1(fields: seq<Member>)
    requires fields != []
    ensures DeepestField(FieldsOf(fields)) ==
            Max(Depth(ValueOf(fields[0].value.value)), DeepestField(FieldsOf(fields[1..])))
  {
    assert FieldsOf(fields)[1..] == FieldsOf(fields[1..]);
  }

  /** The first member, its comma included. */
  lemma {:induction false} MemberScans(m: Member, more: seq<Member>, rest: string, depth: nat, deepest: nat)
    requires Blank(m.before) && LegalParts(m.name) && Blank(m.between) && LegalPadded(m.value)
    requires depth <= deepest
    ensures Scan(m.before + (StringText(m.name) + (m.between + (":" +
                   (PaddedText(m.value) + (Comma(more) + rest))))), depth, deepest) ==
            Scan(rest, depth, Max(deepest, depth + Depth(ValueOf(m.value.value))))
    decreases m, 4
  {
    hide Scan;
    assert m decreases to m.value;
    NameIsSkipped(m, PaddedText(m.value) + (Comma(more) + rest), depth, deepest);
    PaddedScans(m.value, Comma(more) + rest, depth, deepest);
    CommaIsSkipped(more, rest, depth, Max(deepest, depth + Depth(ValueOf(m.value.value))));
  }

  lemma {:induction false} FirstMemberScans(fields: seq<Member>, rest: string, depth: nat, deepest: nat)
    requires fields != [] && LegalMembers(fields) && depth <= deepest
    ensures Scan(MembersText(fields) + rest, depth, deepest) ==
            Scan(MembersText(fields[1..]) + rest, depth,
                 Max(deepest, depth + Depth(ValueOf(fields[0].value.value))))
    decreases fields[0], 5
  {
    hide Scan;
    MembersText1(fields, rest);
    MemberScans(fields[0], fields[1..], MembersText(fields[1..]) + rest, depth, deepest);
  }

  lemma {:induction false} MembersScan(fields: seq<Member>, rest: string, depth: nat, deepest: nat)
    requires LegalMembers(fields) && depth <= deepest
    ensures Scan(MembersText(fields) + rest, depth, deepest) ==
            Scan(rest, depth, Max(deepest, depth + DeepestField(FieldsOf(fields))))
    decreases fields, 0
  {
    hide Scan, Text, Legal, ValueOf, Depth, Points, StringText, Blank, LegalParts;
    if fields == [] {
      assert MembersText(fields) + rest == rest;
    } else {
      var m := fields[0];
      assert fields decreases to m;
      FirstMemberScans(fields, rest, depth, deepest);
      MembersScan(fields[1..], rest, depth, Max(deepest, depth + Depth(ValueOf(m.value.value))));
      DeepestField1(fields);
    }
  }

  /** Every legal printing of a value scans to the value's depth. */
  lemma ScanIsDepth(text: string, v: Json)
    requires Prints(text, v)
    ensures Scan(text, 0, 0) == Depth(v)
  {
    var p: Padded :| LegalPadded(p) && PaddedText(p) == text && ValueOf(p.value) == v;
    PaddedScans(p, "", 0, 0);
    assert PaddedText(p) + "" == text;
  }

  // ---------------------------------------------------------------- the loops

  /** One string token from its opening quote at `at`; the index just past it. */
  method StringToken(text: string, at: nat) returns (end: nat)
    requires at < |text| && text[at] == '\"'
    ensures at < end <= |text|
    ensures end == at + 1 + StringEnd(text[at + 1..])
  {
    end := at + 1;
    while end < |text|
      invariant at + 1 <= end <= |text|
      invariant StringEnd(text[at + 1..]) == end - (at + 1) + StringEnd(text[end..])
      decreases |text| - end
    {
      if text[end] == '\"' {
        end := end + 1;
        return;
      } else if text[end] != '\\' {
        assert text[end..][1..] == text[end + 1..];
        end := end + 1;
      } else if end + 1 < |text| && text[end + 1] != '\n' {
        assert text[end..][2..] == text[end + 2..];
        end := end + 2;
      } else {
        return;
      }
    }
  }

  /** `json_nesting_depth`: exact on every legal printing of every value. */
  method JsonNestingDepth(text: string) returns (deepest: nat)
    ensures deepest == Scan(text, 0, 0)
    ensures forall v | Prints(text, v) :: deepest == Depth(v)
  {
    var depth: nat, at := 0, 0;
    deepest := 0;
    assert text[0..] == text;
    while at < |text|
      invariant 0 <= at <= |text|
      invariant Scan(text, 0, 0) == Scan(text[at..], depth, deepest)
    {
      var c := text[at];
      assert text[at..][1..] == text[at + 1..];
      if c == '\"' {
        var end := StringToken(text, at);
        assert text[at..][1 + StringEnd(text[at + 1..])..] == text[end..];
        at := end;
      } else {
        if c in "[{" {
          depth := depth + 1;
          deepest := Max(deepest, depth);
        } else if c in "]}" && depth > 0 {
          depth := depth - 1;
        }
        at := at + 1;
      }
    }
    forall v | Prints(text, v)
      ensures deepest == Depth(v)
    {
      ScanIsDepth(text, v);
    }
  }

  /** `load_json_artifact`'s gate, before any decoding. */
  method DepthGate(text: string) returns (refused: bool)
    ensures forall v | Prints(text, v) :: refused <==> Depth(v) > 100
  {
    var deepest := JsonNestingDepth(text);
    refused := deepest > JSON_NESTING_LIMIT;
  }

  // ---------------------------------------------------------------- what the decoder then builds

  /** The decoder keeps the last of repeated names. It keeps it where the name first stood, here it
      stands where it last did; nothing below depends on the order of members. */
  function Decoded(v: Json): Json
    decreases v, 1
  {
    match v
    case Array(items) => Array(DecodedItems(items))
    case Object(members) => Object(LastOfEach(members))
    case _ => v
  }

  function DecodedItems(items: seq<Json>): seq<Json>
    decreases items, 0
  {
    if items == [] then [] else [Decoded(items[0])] + DecodedItems(items[1..])
  }

  predicate Names(members: seq<Field>, name: seq<nat>) {
    exists i :: 0 <= i < |members| && members[i].name == name
  }

  function LastOfEach(members: seq<Field>): seq<Field>
    decreases members, 0
  {
    if members == [] then [] else
      var f := members[0];
      assert members decreases to f;
      (if Names(members[1..], f.name) then [] else [Field(f.name, Decoded(f.value))])
      + LastOfEach(members[1..])
  }

  /** Nothing the decoder builds is deeper than the text the gate judged. */
  lemma {:induction false} DecodedIsNoDeeper(v: Json)
    ensures Depth(Decoded(v)) <= Depth(v)
    decreases v, 1
  {
    match v
    case Array(items) => DecodedItemsAreNoDeeper(items);
    case Object(members) => LastOfEachIsNoDeeper(members);
    case _ =>
  }

  lemma {:induction false} DecodedItemsAreNoDeeper(items: seq<Json>)
    ensures DeepestItem(DecodedItems(items)) <= DeepestItem(items)
    decreases items, 0
  {
    if items != [] {
      DecodedIsNoDeeper(items[0]);
      DecodedItemsAreNoDeeper(items[1..]);
      assert DecodedItems(items)[1..] == DecodedItems(items[1..]);
    }
  }

  lemma {:induction false} LastOfEachIsNoDeeper(members: seq<Field>)
    ensures DeepestField(LastOfEach(members)) <= DeepestField(members)
    decreases members, 0
  {
    if members != [] {
      var f := members[0];
      assert members decreases to f;
      DecodedIsNoDeeper(f.value);
      LastOfEachIsNoDeeper(members[1..]);
      if !Names(members[1..], f.name) {
        assert LastOfEach(members)[1..] == LastOfEach(members[1..]);
      } else {
        assert LastOfEach(members) == LastOfEach(members[1..]);
      }
    }
  }

  // ---------------------------------------------------------------- when the decoder loses depth

  /** No later member has this one's name, so the decoder keeps it. */
  predicate LastOfName(members: seq<Field>, i: nat)
    requires i < |members|
  {
    !Names(members[i + 1..], members[i].name)
  }

  /** No object, at any depth, repeats a name. */
  ghost predicate Unrepeated(v: Json)
    decreases v
  {
    match v
    case Array(items) => forall i :: 0 <= i < |items| ==> Unrepeated(items[i])
    case Object(members) =>
      forall i: nat :: i < |members| ==>
        (assert members decreases to members[i];
         LastOfName(members, i) && Unrepeated(members[i].value))
    case _ => true
  }

  /** Where nothing is repeated, the decoder builds the value as written. */
  lemma {:induction false} UnrepeatedIsDecodedWhole(v: Json)
    requires Unrepeated(v)
    ensures Decoded(v) == v
    decreases v, 1
  {
    match v
    case Array(items) => ItemsDecodedWhole(items);
    case Object(members) => MembersDecodedWhole(members);
    case _ =>
  }

  lemma {:induction false} ItemsDecodedWhole(items: seq<Json>)
    requires forall i :: 0 <= i < |items| ==> Unrepeated(items[i])
    ensures DecodedItems(items) == items
    decreases items, 0
  {
    if items != [] {
      UnrepeatedIsDecodedWhole(items[0]);
      ItemsDecodedWhole(items[1..]);
    }
  }

  lemma {:induction false} MembersDecodedWhole(members: seq<Field>)
    requires forall i: nat :: i < |members| ==> LastOfName(members, i) && Unrepeated(members[i].value)
    ensures LastOfEach(members) == members
    decreases members, 0
  {
    if members != [] {
      var f, rest := members[0], members[1..];
      assert members decreases to f;
      UnrepeatedIsDecodedWhole(f.value);
      assert LastOfName(members, 0);
      forall i: nat | i < |rest| ensures LastOfName(rest, i) && Unrepeated(rest[i].value) {
        assert LastOfName(members, i + 1) && rest[i + 1..] == members[i + 2..];
      }
      MembersDecodedWhole(rest);
    }
  }

  /** The way into nested containers, by position, that ends at an array or object. */
  predicate Reaches(v: Json, path: seq<nat>)
    decreases |path|
  {
    if path == [] then v.Array? || v.Object?
    else if v.Array? then path[0] < |v.items| && Reaches(v.items[path[0]], path[1..])
    else v.Object? && path[0] < |v.members| && Reaches(v.members[path[0]].value, path[1..])
  }

  /** And it takes only members the decoder keeps. */
  predicate Kept(v: Json, path: seq<nat>)
    requires Reaches(v, path)
    decreases |path|
  {
    path == []
    || (if v.Array? then Kept(v.items[path[0]], path[1..])
        else LastOfName(v.members, path[0]) && Kept(v.members[path[0]].value, path[1..]))
  }

  lemma {:induction false} ItemNoDeeper(items: seq<Json>, i: nat)
    requires i < |items|
    ensures Depth(Decoded(items[i])) <= DeepestItem(DecodedItems(items))
    decreases i
  {
    assert DecodedItems(items)[1..] == DecodedItems(items[1..]);
    if i > 0 { ItemNoDeeper(items[1..], i - 1); }
  }

  lemma {:induction false} KeptMemberNoDeeper(members: seq<Field>, i: nat)
    requires i < |members| && LastOfName(members, i)
    ensures Depth(Decoded(members[i].value)) <= DeepestField(LastOfEach(members))
    decreases i
  {
    OneMemberDecoded(members);
    if i > 0 {
      assert members[1..][i..] == members[i + 1..];
      KeptMemberNoDeeper(members[1..], i - 1);
    } else {
      assert members[0 + 1..] == members[1..];
    }
  }

  lemma OneMemberDecoded(members: seq<Field>)
    requires members != []
    ensures var rest := DeepestField(LastOfEach(members[1..]));
            DeepestField(LastOfEach(members)) ==
            if Names(members[1..], members[0].name) then rest else Max(Depth(Decoded(members[0].value)), rest)
  {
    var f := members[0];
    if Names(members[1..], f.name) {
      assert LastOfEach(members) == LastOfEach(members[1..]);
    } else {
      assert LastOfEach(members)[1..] == LastOfEach(members[1..]);
    }
  }

  /** Whatever the decoder keeps is as deep in what it builds. */
  lemma {:induction false} KeptPathSurvives(v: Json, path: seq<nat>)
    requires Reaches(v, path) && Kept(v, path)
    ensures Depth(Decoded(v)) > |path|
    decreases |path|
  {
    if path != [] {
      if v.Array? {
        KeptPathSurvives(v.items[path[0]], path[1..]);
        ItemNoDeeper(v.items, path[0]);
      } else {
        KeptPathSurvives(v.members[path[0]].value, path[1..]);
        KeptMemberNoDeeper(v.members, path[0]);
      }
    }
  }

  lemma {:induction false} DeepestItemIsOne(items: seq<Json>) returns (i: nat)
    requires DeepestItem(DecodedItems(items)) > 0
    ensures i < |items| && Depth(Decoded(items[i])) == DeepestItem(DecodedItems(items))
    decreases |items|
  {
    assert items != [];
    assert DecodedItems(items)[1..] == DecodedItems(items[1..]);
    if Depth(Decoded(items[0])) == DeepestItem(DecodedItems(items)) {
      i := 0;
    } else {
      var j := DeepestItemIsOne(items[1..]);
      i := j + 1;
    }
  }

  lemma {:induction false} DeepestKeptIsOne(members: seq<Field>) returns (i: nat)
    requires DeepestField(LastOfEach(members)) > 0
    ensures i < |members| && LastOfName(members, i)
    ensures Depth(Decoded(members[i].value)) == DeepestField(LastOfEach(members))
    decreases |members|
  {
    assert members != [];
    OneMemberDecoded(members);
    if !Names(members[1..], members[0].name) && Depth(Decoded(members[0].value)) == DeepestField(LastOfEach(members)) {
      i := 0;
    } else {
      var j := DeepestKeptIsOne(members[1..]);
      i := j + 1;
      assert members[1..][j + 1..] == members[i + 1..];
    }
  }

  /** What the decoder builds is as deep as some path it kept. */
  lemma {:induction false} DecodedDepthIsAPath(v: Json) returns (path: seq<nat>)
    requires Depth(Decoded(v)) > 0
    ensures Reaches(v, path) && Kept(v, path) && |path| + 1 == Depth(Decoded(v))
    decreases v
  {
    path := [];
    if v.Array? {
      if DeepestItem(DecodedItems(v.items)) > 0 {
        var i := DeepestItemIsOne(v.items);
        var rest := DecodedDepthIsAPath(v.items[i]);
        path := [i] + rest;
        assert path[1..] == rest;
      }
    } else if v.Object? {
      if DeepestField(LastOfEach(v.members)) > 0 {
        var i := DeepestKeptIsOne(v.members);
        assert v.members decreases to v.members[i];
        var rest := DecodedDepthIsAPath(v.members[i].value);
        path := [i] + rest;
        assert path[1..] == rest;
      }
    }
  }

  /** A way to the deepest container that takes only the last member of each name. */
  ghost predicate KeepsADeepestPath(v: Json) {
    exists path :: Reaches(v, path) && Kept(v, path) && |path| + 1 == Depth(v)
  }

  /** The gate's depth is the decoded value's if and only if the value is no container, or one of its
      deepest containers lies on a path of members the decoder keeps. */
  lemma DecoderKeepsDepthExactlyWhen(v: Json)
    ensures Depth(Decoded(v)) == Depth(v) <==> Depth(v) == 0 || KeepsADeepestPath(v)
  {
    DecodedIsNoDeeper(v);
    if KeepsADeepestPath(v) {
      var path :| Reaches(v, path) && Kept(v, path) && |path| + 1 == Depth(v);
      KeptPathSurvives(v, path);
    }
    if Depth(Decoded(v)) == Depth(v) && Depth(v) > 0 {
      var path := DecodedDepthIsAPath(v);
    }
  }

  /** A text the gate refuses though its decoded value is within the limit repeats a name. */
  lemma RefusedThoughShallowRepeatsAName(text: string, v: Json)
    requires Prints(text, v) && Scan(text, 0, 0) > JSON_NESTING_LIMIT && Depth(Decoded(v)) <= JSON_NESTING_LIMIT
    ensures !Unrepeated(v) && !KeepsADeepestPath(v)
  {
    ScanIsDepth(text, v);
    DecoderKeepsDepthExactlyWhen(v);
    if Unrepeated(v) { UnrepeatedIsDecodedWhole(v); }
  }

  /** It can be shallower: a repeated name hides the first value, which the gate still counted. */
  lemma RepeatedNameHidesDepth(name: seq<nat>)
    ensures var v := Object([Field(name, Array([])), Field(name, Null)]);
            Depth(v) == 2 && Depth(Decoded(v)) == 1 && !Unrepeated(v)
  {
    var first, last := Field(name, Array([])), Field(name, Null);
    var members := [first, last];
    assert members[1..] == [last];
    assert Names([last], name) by { assert [last][0].name == name; }
    assert [last][1..] == [];
    assert LastOfEach([last]) == [last];
    assert LastOfEach(members) == [last];
    assert DeepestField([last]) == 0;
    assert Depth(first.value) == 1;
    assert !LastOfName(members, 0);
  }
}
