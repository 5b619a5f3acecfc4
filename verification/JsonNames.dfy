/** When two spellings of a JSON name are one name (`defender/_filesystem/json.py`): the decoder joins
    escaped surrogate pairs, so spellings name the same member if and only if they stand for the same
    UTF-16 units (section 7 of RFC 8259), and one member can hide another spelled otherwise. */
module JsonNames {
  import opened JsonDepth
  import opened Characters

  // ---------------------------------------------------------------- UTF-16 units

  /** A code point in UTF-16. */
  function UnitsOf(n: nat): seq<nat> {
    if n < 0x10000 then [n] else [0xd800 + (n - 0x10000) / 1024, 0xdc00 + (n - 0x10000) % 1024]
  }

  function Units(points: seq<nat>): seq<nat> {
    if points == [] then [] else UnitsOf(points[0]) + Units(points[1..])
  }

  /** The units a literal writes, each part on its own: what section 7 of RFC 8259 makes of it. */
  function Written(parts: seq<Part>): seq<nat> {
    if parts == [] then [] else UnitsOf(Point(parts[0])) + Written(parts[1..])
  }

  /** Units read back: a high surrogate and the low one after it are one character. */
  function Joined(units: seq<nat>): seq<nat>
    decreases |units|
  {
    if units == [] then []
    else if |units| > 1 && High(units[0]) && Low(units[1]) then [Pair(units[0], units[1])] + Joined(units[2..])
    else [units[0]] + Joined(units[1..])
  }

  lemma HexDigits(hex: string)
    requires |hex| == 4
    ensures HexNumber(hex) ==
            ((HexValue(hex[0]) * 16 + HexValue(hex[1])) * 16 + HexValue(hex[2])) * 16 + HexValue(hex[3])
  {
    hide HexValue;
    var a, b, c := hex[..3], hex[..2], hex[..1];
    assert a[..2] == b && b[..1] == c && c[..0] == "";
    assert HexNumber(c) == HexValue(hex[0]);
    assert HexNumber(b) == HexNumber(c) * 16 + HexValue(hex[1]);
    assert HexNumber(a) == HexNumber(b) * 16 + HexValue(hex[2]);
  }

  lemma HexIsSmall(hex: string)
    requires |hex| == 4
    ensures HexNumber(hex) < 0x10000
  {
    hide HexNumber, HexValue;
    HexDigits(hex);
  }

  lemma PointIsSmallOrPlain(p: Part)
    requires LegalPart(p)
    ensures Point(p) >= 0x10000 ==> p.Plain?
    ensures High(Point(p)) || Low(Point(p)) ==> p.Unicode?
  {
    if p.Unicode? { HexIsSmall(p.hex); }
  }

  /** A pair's units, and what reads back from them. */
  lemma PairIsItsUnits(high: nat, low: nat)
    requires High(high) && Low(low)
    ensures UnitsOf(Pair(high, low)) == [high, low]
  {
    var k, m := high - 0xd800, low - 0xdc00;
    assert (k * 1024 + m) / 1024 == k && (k * 1024 + m) % 1024 == m;
  }

  lemma UnitsArePairs(n: nat)
    requires 0x10000 <= n < 0x110000
    ensures var u := UnitsOf(n); High(u[0]) && Low(u[1]) && Pair(u[0], u[1]) == n
  {
  }

  lemma WrittenOne(parts: seq<Part>)
    requires parts != []
    ensures Written(parts) == UnitsOf(Point(parts[0])) + Written(parts[1..])
  {
  }

  lemma UnitsOne(n: nat, points: seq<nat>)
    ensures Units([n] + points) == UnitsOf(n) + Units(points)
  {
    assert ([n] + points)[1..] == points;
  }

  predicate StartsWithPair(parts: seq<Part>) {
    |parts| > 1 && parts[0].Unicode? && High(Point(parts[0])) && parts[1].Unicode? && Low(Point(parts[1]))
  }

  /** The decoder's string, in UTF-16, is what the literal writes. */
  lemma {:induction false} PointsAreWritten(parts: seq<Part>)
    ensures Units(Points(parts)) == Written(parts)
    decreases |parts|
  {
    hide Units, Written, UnitsOf, Point, Pair;
    if parts == [] {
      NothingWritten();
    } else if StartsWithPair(parts) {
      var high, low := Point(parts[0]), Point(parts[1]);
      PointsAreWritten(parts[2..]);
      PairIsItsUnits(high, low);
      UnitsOne(Pair(high, low), Points(parts[2..]));
      WrittenOne(parts);
      WrittenOne(parts[1..]);
      SmallIsItsUnit(high);
      SmallIsItsUnit(low);
      assert parts[1..][1..] == parts[2..];
      assert [high] + ([low] + Written(parts[2..])) == [high, low] + Written(parts[2..]);
    } else {
      PointsAreWritten(parts[1..]);
      UnitsOne(Point(parts[0]), Points(parts[1..]));
      WrittenOne(parts);
    }
  }

  lemma NothingWritten()
    ensures Units([]) == Written([]) == []
  {
  }

  lemma SmallIsItsUnit(n: nat)
    requires n < 0x10000
    ensures UnitsOf(n) == [n]
  {
  }

  /** And reads back from it. */
  lemma {:induction false} WrittenReadsBack(parts: seq<Part>)
    requires LegalParts(parts)
    ensures Joined(Written(parts)) == Points(parts)
    ensures parts != [] && Low(Written(parts)[0]) ==> parts[0].Unicode? && Point(parts[0]) == Written(parts)[0]
    decreases |parts|
  {
    if parts != [] {
      var n, units, rest := Point(parts[0]), Written(parts), parts[1..];
      PointIsSmallOrPlain(parts[0]);
      WrittenReadsBack(rest);
      if n >= 0x10000 {
        UnitsArePairs(n);
        assert units[2..] == Written(rest);
      } else {
        assert units[1..] == Written(rest);
        if High(n) && |units| > 1 && Low(units[1]) {
          assert units[1] == Written(rest)[0] && rest[0] == parts[1];
          WrittenReadsBack(parts[2..]);
          assert units[2..] == Written(rest)[1..] == Written(parts[2..]) by { assert rest[1..] == parts[2..]; }
        } else if High(n) && |parts| > 1 {
          PointIsSmallOrPlain(parts[1]);
          assert units[1] == Written(rest)[0];
        }
      }
    }
  }

  /** Two spellings are one string to the decoder if and only if they write the same units. */
  lemma OneNameExactlyWhenSameUnits(a: seq<Part>, b: seq<Part>)
    requires LegalParts(a) && LegalParts(b)
    ensures Points(a) == Points(b) <==> Written(a) == Written(b)
  {
    PointsAreWritten(a);
    PointsAreWritten(b);
    WrittenReadsBack(a);
    WrittenReadsBack(b);
  }

  // ---------------------------------------------------------------- one name spelled twice

  /** Any character past the basic plane has two spellings at least: itself and its escaped pair. */
  lemma SpelledTwice(c: char, high: string, low: string)
    requires c as int >= 0x10000 && LegalParts([Unicode(high), Unicode(low)])
    requires UnitsOf(c as int) == [HexNumber(high), HexNumber(low)]
    ensures Points([Plain(c)]) == Points([Unicode(high), Unicode(low)]) == [c as int]
  {
    UnitsArePairs(c as int);
    var pair := [Unicode(high), Unicode(low)];
    assert pair[2..] == [];
  }

  /** An object of two members under the names so spelled, the first an empty array. */
  function TwoMembers(a: seq<Part>, b: seq<Part>): Padded {
    var first := Member("", a, "", Padded("", PArray("", []), ""));
    var second := Member("", b, "", Padded("", PNull, ""));
    Padded("", PObject("", [first, second]), "")
  }

  function TwoMembersText(a: seq<Part>, b: seq<Part>): string {
    "{" + StringText(a) + ":[]," + StringText(b) + ":null}"
  }

  function TwoMembersValue(a: seq<Part>, b: seq<Part>): Json {
    Object([Field(Points(a), Array([])), Field(Points(b), Null)])
  }

  lemma TwoMembersAreRead(a: seq<Part>, b: seq<Part>)
    ensures ValueOf(TwoMembers(a, b).value) == TwoMembersValue(a, b)
  {
    hide Points;
    var fields := TwoMembers(a, b).value.fields;
    assert fields[1..] == [fields[1]] && [fields[1]][1..] == [];
    assert ValueOf(PArray("", [])) == Array([]);
    assert FieldsOf([fields[1]]) == [Field(Points(b), Null)];
  }

  lemma TwoMembersAreLegal(a: seq<Part>, b: seq<Part>)
    requires LegalParts(a) && LegalParts(b)
    ensures LegalPadded(TwoMembers(a, b))
  {
    hide LegalParts;
    var fields := TwoMembers(a, b).value.fields;
    assert fields[1..] == [fields[1]] && [fields[1]][1..] == [];
    assert LegalPadded(fields[1].value) && LegalPadded(fields[0].value);
    assert LegalMembers([fields[1]]);
    assert LegalMembers(fields);
    assert Legal(TwoMembers(a, b).value);
  }

  lemma TwoMembersArePrinted(a: seq<Part>, b: seq<Part>)
    ensures PaddedText(TwoMembers(a, b)) == TwoMembersText(a, b)
  {
    hide StringText;
    var fields := TwoMembers(a, b).value.fields;
    assert fields[1..] == [fields[1]] && [fields[1]][1..] == [];
    assert PaddedText(fields[1].value) == "null" && PaddedText(fields[0].value) == "[]";
    assert MembersText([fields[1]]) == StringText(b) + ":null";
    assert MembersText(fields) == StringText(a) + ":[]," + StringText(b) + ":null";
  }

  lemma TwoNames(x: seq<nat>, y: seq<nat>)
    requires x != y
    ensures var v := Object([Field(x, Array([])), Field(y, Null)]); Unrepeated(v) && Depth(v) == 2
  {
    var members := [Field(x, Array([])), Field(y, Null)];
    assert members[1..] == [members[1]] && members[2..] == [] && [members[1]][1..] == [];
    assert Depth(members[0].value) == 1;
    assert DeepestField([members[1]]) == 0;
    forall i: nat | i < 2 ensures LastOfName(members, i) && Unrepeated(members[i].value) {}
  }

  /** The decoder loses the first member of such a text, and with it a level of depth the gate counted,
      if and only if the two spellings write the same units. */
  lemma OtherSpellingHidesDepth(a: seq<Part>, b: seq<Part>)
    requires LegalParts(a) && LegalParts(b)
    ensures var v := TwoMembersValue(a, b);
            && Prints(TwoMembersText(a, b), v) && Depth(v) == 2
            && Depth(Decoded(v)) == (if Written(a) == Written(b) then 1 else 2)
            && (Unrepeated(v) <==> Written(a) != Written(b))
  {
    hide LegalParts, LegalPadded, PaddedText, ValueOf, Points, Written, Depth, Decoded, Unrepeated;
    TwoMembersAreLegal(a, b);
    TwoMembersArePrinted(a, b);
    TwoMembersAreRead(a, b);
    OneNameExactlyWhenSameUnits(a, b);
    if Points(a) == Points(b) {
      RepeatedNameHidesDepth(Points(a));
    } else {
      TwoNames(Points(a), Points(b));
      UnrepeatedIsDecodedWhole(TwoMembersValue(a, b));
    }
  }

  /** A smiling face as itself and as its escaped pair. */
  lemma FaceHidesDepth()
    ensures var v := TwoMembersValue([Plain('\U{1F600}')], [Unicode("d83d"), Unicode("de00")]);
            && Prints("{\"\U{1F600}\":[],\"\\ud83d\\ude00\":null}", v)
            && !Unrepeated(v) && Depth(v) == 2 && Depth(Decoded(v)) == 1
  {
    hide Prints, Unrepeated, Depth, Decoded, Written, Points, TwoMembersText;
    var literal, pair := [Plain('\U{1F600}')], [Unicode("d83d"), Unicode("de00")];
    HexDigits("d83d");
    HexDigits("de00");
    SpelledTwice('\U{1F600}', "d83d", "de00");
    OneNameExactlyWhenSameUnits(literal, pair);
    OtherSpellingHidesDepth(literal, pair);
    FaceIsSpelled();
  }

  lemma FaceIsSpelled()
    ensures TwoMembersText([Plain('\U{1F600}')], [Unicode("d83d"), Unicode("de00")]) ==
            "{\"\U{1F600}\":[],\"\\ud83d\\ude00\":null}"
  {
    hide PartsText, StringText;
    LiteralIsSpelled();
    PairIsSpelled();
    assert "{" + "\"\U{1F600}\"" + ":[]," == "{\"\U{1F600}\":[],";
    assert "{\"\U{1F600}\":[]," + "\"\\ud83d\\ude00\"" == "{\"\U{1F600}\":[],\"\\ud83d\\ude00\"";
  }

  lemma LiteralIsSpelled()
    ensures StringText([Plain('\U{1F600}')]) == "\"\U{1F600}\""
  {
    assert [Plain('\U{1F600}')][1..] == [];
  }

  lemma PairIsSpelled()
    ensures StringText([Unicode("d83d"), Unicode("de00")]) == "\"\\ud83d\\ude00\""
  {
    var pair := [Unicode("d83d"), Unicode("de00")];
    assert pair[1..] == [Unicode("de00")] && pair[1..][1..] == [];
    assert PartsText(pair[1..]) == "\\ude00";
    assert PartsText(pair) == "\\ud83d\\ude00";
  }
}
