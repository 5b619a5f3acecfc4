/** What the canonical text tells apart (`defender/box/_image.py`): two values have the same hashed
    text if and only if, dates and times read as their texts, one is a reordering of the other; and
    a value shares its text with nothing but its reorderings if and only if it holds no date or
    time, nor a text that spells one. */
module TextDecides {
  import opened TextOrder
  import opened CanonicalForm
  import opened CanonicalText
  import opened JsonQuoting

  // ---------------------------------------------------------------- dates and times as texts

  /** Every date and time as the text that spells it. */
  function Textual(v: Value): Value
    decreases v, 1
  {
    match v
    case Text(_) => v
    case Scalar(_) => v
    case Moment(t) => Text(t)
    case List(items) => List(TextualAll(items))
    case Table(fields) => Table(TextualFields(fields))
  }

  function TextualAll(items: seq<Value>): (r: seq<Value>)
    ensures |r| == |items| && forall i :: 0 <= i < |items| ==> r[i] == Textual(items[i])
    decreases items, 0
  {
    if items == [] then [] else [Textual(items[0])] + TextualAll(items[1..])
  }

  function TextualFields(fields: seq<Field>): (r: seq<Field>)
    ensures |r| == |fields|
    ensures forall i :: 0 <= i < |fields| ==> r[i] == Field(fields[i].key, Textual(fields[i].value))
    decreases fields, 0
  {
    if fields == [] then [] else
      var f := fields[0];
      assert fields decreases to f;
      [Field(f.key, Textual(f.value))] + TextualFields(fields[1..])
  }

  lemma {:induction false} EncodedAsTexts(v: Value, quote: Quote)
    ensures Encode(v, quote) == Encode(Textual(v), quote)
    decreases v
  {
    match v
    case Text(_) =>
    case Scalar(_) =>
    case Moment(_) =>
    case List(items) =>
      forall i | 0 <= i < |items|
        ensures Encode(items[i], quote) == Encode(Textual(items[i]), quote)
      {
        EncodedAsTexts(items[i], quote);
      }
      assert EncodeAll(items, quote) == EncodeAll(TextualAll(items), quote);
    case Table(fields) =>
      forall i | 0 <= i < |fields| ensures Encode(fields[i].value, quote) == Encode(Textual(fields[i].value), quote) {
        assert fields decreases to fields[i];
        EncodedAsTexts(fields[i].value, quote);
      }
      assert EncodeFields(fields, quote) == EncodeFields(TextualFields(fields), quote);
  }

  lemma {:induction false} HashedAsTexts(v: Value, quote: Quote)
    ensures Canon(v, quote) == Canon(Textual(v), quote)
    decreases v
  {
    match v
    case Text(_) =>
    case Scalar(_) =>
    case Moment(_) =>
    case List(items) =>
      forall i | 0 <= i < |items|
        ensures Canon(items[i], quote) == Canon(Textual(items[i]), quote)
      {
        HashedAsTexts(items[i], quote);
      }
      CanonOfList(items, quote);
      CanonOfList(TextualAll(items), quote);
      assert CanonAll(items, quote) == CanonAll(TextualAll(items), quote);
    case Table(fields) =>
      forall i | 0 <= i < |fields| ensures Canon(fields[i].value, quote) == Canon(Textual(fields[i].value), quote) {
        assert fields decreases to fields[i];
        HashedAsTexts(fields[i].value, quote);
      }
      CanonOfTable(fields, quote);
      CanonOfTable(TextualFields(fields), quote);
      assert CanonFields(fields, quote) == CanonFields(TextualFields(fields), quote);
  }

  lemma {:induction false} TextualIsPlain(v: Value)
    requires WellSpelled(v)
    ensures Plain(Textual(v))
    decreases v
  {
    match v
    case Text(_) =>
    case Scalar(_) =>
    case Moment(_) =>
    case List(items) =>
      forall i | 0 <= i < |items| ensures Plain(Textual(items[i])) { TextualIsPlain(items[i]); }
    case Table(fields) =>
      forall i | 0 <= i < |fields| ensures Plain(Textual(fields[i].value)) {
        assert fields decreases to fields[i];
        TextualIsPlain(fields[i].value);
      }
  }

  lemma {:induction false} TextualIsKeyed(v: Value)
    requires WellKeyed(v)
    ensures WellKeyed(Textual(v))
    decreases v
  {
    match v
    case Text(_) =>
    case Scalar(_) =>
    case Moment(_) =>
    case List(items) =>
      forall i | 0 <= i < |items| ensures WellKeyed(Textual(items[i])) { TextualIsKeyed(items[i]); }
    case Table(fields) =>
      forall i | 0 <= i < |fields| ensures WellKeyed(Textual(fields[i].value)) {
        assert fields decreases to fields[i];
        TextualIsKeyed(fields[i].value);
      }
  }

  /** Without a date or time, nothing changes. */
  lemma {:induction false} DatelessIsTextual(v: Value)
    requires Dateless(v)
    ensures Textual(v) == v
    decreases v
  {
    match v
    case Text(_) =>
    case Scalar(_) =>
    case Moment(_) =>
    case List(items) =>
      forall i | 0 <= i < |items| ensures Textual(items[i]) == items[i] { DatelessIsTextual(items[i]); }
      assert TextualAll(items) == items;
    case Table(fields) =>
      forall i | 0 <= i < |fields| ensures Textual(fields[i].value) == fields[i].value {
        assert fields decreases to fields[i];
        DatelessIsTextual(fields[i].value);
      }
      assert TextualFields(fields) == fields;
  }

  /** Reordering moves leaves and changes none. */
  lemma {:induction false} LeavesOfReordered(a: Value, b: Value, ok: Value -> bool)
    requires Reordered(a, b) && Leaves(a, ok)
    ensures Leaves(b, ok)
    decreases a
  {
    match a
    case Text(_) =>
    case Scalar(_) =>
    case Moment(_) =>
    case List(items) =>
      var arranged := ListPairs(items, b.items);
      forall i | 0 <= i < |items| ensures Leaves(arranged[i], ok) { LeavesOfReordered(items[i], arranged[i], ok); }
      forall j | 0 <= j < |b.items| ensures Leaves(b.items[j], ok) {
        assert b.items[j] in multiset(arranged);
        var i := IndexOf(arranged, b.items[j]);
      }
    case Table(fields) =>
      var arranged := TablePairs(fields, b.fields);
      forall i | 0 <= i < |fields| ensures Leaves(arranged[i].value, ok) {
        assert fields decreases to fields[i];
        LeavesOfReordered(fields[i].value, arranged[i].value, ok);
      }
      forall j | 0 <= j < |b.fields| ensures Leaves(b.fields[j].value, ok) {
        assert b.fields[j] in multiset(arranged);
        var i := IndexOf(arranged, b.fields[j]);
      }
  }

  // ---------------------------------------------------------------- the text decides

  /** Equal texts, each up to a delimiter, are texts of values that differ only in the order of keys
      once dates and times are read as texts. */
  lemma EncodeReadsBack(x: Value, y: Value, r: string, r': string, quote: Quote)
    requires QuotesWell(quote) && WellSpelled(x) && WellSpelled(y) && Delimited(r) && Delimited(r')
    requires Encode(x, quote) + r == Encode(y, quote) + r'
    ensures Rekeyed(Textual(x), Textual(y)) && r == r'
  {
    hide Encode, Rekeyed, Textual, WellSpelled, Plain, QuotesWell;
    EncodedAsTexts(x, quote);
    EncodedAsTexts(y, quote);
    TextualIsPlain(x);
    TextualIsPlain(y);
    PlainReadsBack(Textual(x), Textual(y), r, r', quote);
  }

  /** Lists as written, keys in any order: what the encoder keeps. */
  lemma EncodedAlikeExactlyWhenRekeyed(a: Value, b: Value, quote: Quote)
    requires QuotesWell(quote) && WellSpelled(a) && WellSpelled(b) && WellKeyed(a)
    ensures Encode(a, quote) == Encode(b, quote) <==> Rekeyed(Textual(a), Textual(b))
  {
    hide Encode, Rekeyed, Textual, WellSpelled, WellKeyed, QuotesWell;
    EncodedAsTexts(a, quote);
    EncodedAsTexts(b, quote);
    TextualIsKeyed(a);
    if Encode(a, quote) == Encode(b, quote) {
      assert Encode(a, quote) + "" == Encode(b, quote) + "";
      EncodeReadsBack(a, b, "", "", quote);
    }
    if Rekeyed(Textual(a), Textual(b)) { RekeyedEncodesAlike(Textual(a), Textual(b), quote); }
  }

  lemma {:induction false} RekeyedEncodesAlike(a: Value, b: Value, quote: Quote)
    requires Rekeyed(a, b) && WellKeyed(a)
    ensures Encode(a, quote) == Encode(b, quote)
    decreases a
  {
    match a
    case Text(_) =>
    case Scalar(_) =>
    case Moment(_) =>
    case List(items) =>
      forall i | 0 <= i < |items|
        ensures Encode(items[i], quote) == Encode(b.items[i], quote)
      {
        RekeyedEncodesAlike(items[i], b.items[i], quote);
      }
      assert EncodeAll(items, quote) == EncodeAll(b.items, quote);
    case Table(fields) =>
      var arranged := RekeyedPairs(fields, b.fields);
      forall i | 0 <= i < |fields| ensures Encode(fields[i].value, quote) == Encode(arranged[i].value, quote) {
        assert fields decreases to fields[i];
        assert FieldRekeyed(fields[i], arranged[i]);
        RekeyedEncodesAlike(fields[i].value, arranged[i].value, quote);
      }
      assert EncodeFields(fields, quote) == EncodeFields(arranged, quote);
      ArrangedFieldsEncodeAlike(arranged, b.fields, quote);
  }

  lemma ArrangedFieldsEncodeAlike(a: seq<Field>, b: seq<Field>, quote: Quote)
    requires multiset(a) == multiset(b)
    requires forall i, j :: 0 <= i < j < |a| ==> a[i].key != a[j].key
    ensures JoinTable(EncodeFields(a, quote), quote) == JoinTable(EncodeFields(b, quote), quote)
  {
    hide Encode;
    var encoded := (f: Field) => Member(f.key, Encode(f.value, quote));
    MapHolds(a, b, encoded);
    assert EncodeFields(a, quote) == Map(a, encoded) && EncodeFields(b, quote) == Map(b, encoded);
    SortedMembersAgree(EncodeFields(a, quote), EncodeFields(b, quote));
  }

  lemma SameTextReordered(a: Value, b: Value, quote: Quote)
    requires QuotesWell(quote) && Plain(a) && Plain(b) && Canon(a, quote) == Canon(b, quote)
    ensures Reordered(a, b)
  {
    hide Reordered, Encode, OrderFree, Plain, QuotesWell;
    var x, y := OrderFree(a, quote), OrderFree(b, quote);
    OrderFreeIsAReordering(a, quote);
    OrderFreeIsAReordering(b, quote);
    OrderFreeIsPlain(a, quote);
    OrderFreeIsPlain(b, quote);
    assert Encode(x, quote) + "" == Encode(y, quote) + "";
    PlainReadsBack(x, y, "", "", quote);
    RekeyedIsReordered(x, y);
    ReorderedSymmetric(b, y);
    ReorderedTransitive(a, x, y);
    ReorderedTransitive(a, y, b);
  }

  lemma OrderFreeIsPlain(v: Value, quote: Quote)
    requires Plain(v)
    ensures Plain(OrderFree(v, quote))
  {
    OrderFreeIsAReordering(v, quote);
    LeavesOfReordered(v, OrderFree(v, quote), PlainLeaf);
  }

  /** Two values are hashed alike if and only if, dates and times read as their texts, one is the
      other reordered; where neither holds a date or time, if and only if one is the other reordered. */
  lemma SameTextExactlyWhenReordered(a: Value, b: Value, quote: Quote)
    requires QuotesWell(quote) && WellSpelled(a) && WellSpelled(b) && WellKeyed(a)
    ensures Canon(a, quote) == Canon(b, quote) <==> Reordered(Textual(a), Textual(b))
    ensures Dateless(a) && Dateless(b) ==> (Canon(a, quote) == Canon(b, quote) <==> Reordered(a, b))
  {
    hide Reordered, Canon, Textual, WellSpelled, Plain, Dateless, QuotesWell, WellKeyed;
    HashedAsTexts(a, quote);
    HashedAsTexts(b, quote);
    TextualIsPlain(a);
    TextualIsPlain(b);
    TextualIsKeyed(a);
    if Canon(a, quote) == Canon(b, quote) { SameTextReordered(Textual(a), Textual(b), quote); }
    if Reordered(Textual(a), Textual(b)) { CanonIgnoresOrder(Textual(a), Textual(b), quote); }
    if Dateless(a) && Dateless(b) { DatelessIsTextual(a); DatelessIsTextual(b); }
  }

  /** The same of the text `_encode` writes: nothing is left to suppose about the quoting. */
  lemma HashedAlikeExactlyWhenReordered(a: Value, b: Value)
    requires WellSpelled(a) && WellSpelled(b) && WellKeyed(a)
    ensures Canon(a, JsonQuote) == Canon(b, JsonQuote) <==> Reordered(Textual(a), Textual(b))
    ensures Dateless(a) && Dateless(b) ==> (Canon(a, JsonQuote) == Canon(b, JsonQuote) <==> Reordered(a, b))
  {
    JsonQuotesWell();
    SameTextExactlyWhenReordered(a, b, JsonQuote);
  }

  // ---------------------------------------------------------------- when a value's text is its own

  /** A date and the string that spells it: different values, one text. */
  lemma DateHashedAsItsText()
    ensures var date, text := Table([Field("x", Moment("1979-05-27"))]), Table([Field("x", Text("1979-05-27"))]);
            Canon(date, JsonQuote) == Canon(text, JsonQuote) && !Reordered(date, text)
  {
    hide Reordered, Canon, JsonQuote;
    var date, text := Table([Field("x", Moment("1979-05-27"))]), Table([Field("x", Text("1979-05-27"))]);
    HashedAsTexts(date, JsonQuote);
    assert TextualFields(date.fields) == text.fields;
    assert Dateless(text) && !Dateless(date) by { assert !Dateless(date.fields[0].value); }
    if Reordered(date, text) {
      ReorderedSymmetric(date, text);
      LeavesOfReordered(text, date, NotMoment);
    }
  }

  /** Which texts spell a date or a time. */
  type Spelling = string -> bool

  function TimelyLeaf(moments: Spelling): Value -> bool {
    (v: Value) => v.Moment? ==> moments(v.iso)
  }

  function UntimelyLeaf(moments: Spelling): Value -> bool {
    (v: Value) => !v.Moment? && (v.Text? ==> !moments(v.text))
  }

  /** What the TOML reader may return. */
  ghost predicate Parsed(v: Value, moments: Spelling) {
    WellSpelled(v) && WellKeyed(v) && Leaves(v, TimelyLeaf(moments))
  }

  /** No date or time, and no text that spells one. */
  ghost predicate Untimely(v: Value, moments: Spelling) { Leaves(v, UntimelyLeaf(moments)) }

  /** Every text that spells a date or a time as that date or time. */
  function Dated(v: Value, moments: Spelling): Value
    decreases v, 1
  {
    match v
    case Text(t) => if moments(t) then Moment(t) else v
    case Scalar(_) => v
    case Moment(_) => v
    case List(items) => List(DatedAll(items, moments))
    case Table(fields) => Table(DatedFields(fields, moments))
  }

  function DatedAll(items: seq<Value>, moments: Spelling): (r: seq<Value>)
    ensures |r| == |items| && forall i :: 0 <= i < |items| ==> r[i] == Dated(items[i], moments)
    decreases items, 0
  {
    if items == [] then [] else [Dated(items[0], moments)] + DatedAll(items[1..], moments)
  }

  function DatedFields(fields: seq<Field>, moments: Spelling): (r: seq<Field>)
    ensures |r| == |fields|
    ensures forall i :: 0 <= i < |fields| ==> r[i] == Field(fields[i].key, Dated(fields[i].value, moments))
    decreases fields, 0
  {
    if fields == [] then [] else
      var f := fields[0];
      assert fields decreases to f;
      [Field(f.key, Dated(f.value, moments))] + DatedFields(fields[1..], moments)
  }

  lemma {:induction false} DatedIsParsed(v: Value, moments: Spelling)
    requires Parsed(v, moments)
    ensures Parsed(Dated(v, moments), moments)
    decreases v
  {
    match v
    case Text(_) =>
    case Scalar(_) =>
    case Moment(_) =>
    case List(items) =>
      forall i | 0 <= i < |items|
        ensures Parsed(Dated(items[i], moments), moments)
      {
        DatedIsParsed(items[i], moments);
      }
    case Table(fields) =>
      forall i | 0 <= i < |fields| ensures Parsed(Dated(fields[i].value, moments), moments) {
        assert fields decreases to fields[i];
        DatedIsParsed(fields[i].value, moments);
      }
  }

  /** Without dates, reading them in and back out changes nothing; and any text that spells one
      shows. */
  lemma {:induction false} DatedAndBack(v: Value, moments: Spelling)
    requires Dateless(v)
    ensures Textual(Dated(v, moments)) == v
    ensures Dateless(Dated(v, moments)) ==> Untimely(v, moments)
    decreases v
  {
    match v
    case Text(_) =>
    case Scalar(_) =>
    case Moment(_) =>
    case List(items) =>
      forall i | 0 <= i < |items|
        ensures Textual(Dated(items[i], moments)) == items[i]
        ensures Dateless(Dated(items[i], moments)) ==> Untimely(items[i], moments)
      {
        DatedAndBack(items[i], moments);
      }
      assert TextualAll(DatedAll(items, moments)) == items;
    case Table(fields) =>
      forall i | 0 <= i < |fields|
        ensures Textual(Dated(fields[i].value, moments)) == fields[i].value
        ensures Dateless(Dated(fields[i].value, moments)) ==> Untimely(fields[i].value, moments)
      {
        assert fields decreases to fields[i];
        DatedAndBack(fields[i].value, moments);
      }
      assert TextualFields(DatedFields(fields, moments)) == fields;
  }

  lemma {:induction false} TextualIsParsed(v: Value, moments: Spelling)
    requires Parsed(v, moments)
    ensures Parsed(Textual(v), moments) && Dateless(Textual(v))
    ensures Untimely(Textual(v), moments) ==> Dateless(v)
    decreases v
  {
    match v
    case Text(_) =>
    case Scalar(_) =>
    case Moment(_) =>
    case List(items) =>
      forall i | 0 <= i < |items|
        ensures Parsed(Textual(items[i]), moments) && Dateless(Textual(items[i]))
        ensures Untimely(Textual(items[i]), moments) ==> Dateless(items[i])
      {
        TextualIsParsed(items[i], moments);
      }
    case Table(fields) =>
      forall i | 0 <= i < |fields|
        ensures Parsed(Textual(fields[i].value), moments) && Dateless(Textual(fields[i].value))
        ensures Untimely(Textual(fields[i].value), moments) ==> Dateless(fields[i].value)
      {
        assert fields decreases to fields[i];
        TextualIsParsed(fields[i].value, moments);
      }
  }

  /** A value's text is shared by its reorderings only. */
  ghost predicate TextIsItsOwn(a: Value, moments: Spelling, quote: Quote) {
    forall b :: Parsed(b, moments) && Canon(a, quote) == Canon(b, quote) ==> Reordered(a, b)
  }

  /** Untimely, a value shares its text with its reorderings only. */
  lemma UntimelyTextIsItsOwn(a: Value, b: Value, moments: Spelling, quote: Quote)
    requires QuotesWell(quote) && Parsed(a, moments) && Parsed(b, moments) && Untimely(a, moments)
    requires Canon(a, quote) == Canon(b, quote)
    ensures Reordered(a, b)
  {
    hide Reordered, Canon, Textual, QuotesWell, WellSpelled, WellKeyed;
    UntimelyIsDateless(a, moments);
    DatelessIsTextual(a);
    SameTextExactlyWhenReordered(a, b, quote);
    LeavesOfReordered(a, Textual(b), UntimelyLeaf(moments));
    TextualIsParsed(b, moments);
    DatelessIsTextual(b);
  }

  lemma {:induction false} UntimelyIsDateless(v: Value, moments: Spelling)
    requires Untimely(v, moments)
    ensures Dateless(v)
    decreases v
  {
    match v
    case Text(_) =>
    case Scalar(_) =>
    case Moment(_) =>
    case List(items) =>
      forall i | 0 <= i < |items| ensures Dateless(items[i]) { UntimelyIsDateless(items[i], moments); }
    case Table(fields) =>
      forall i | 0 <= i < |fields| ensures Dateless(fields[i].value) {
        assert fields decreases to fields[i];
        UntimelyIsDateless(fields[i].value, moments);
      }
  }

  /** Otherwise some other value has the same text: the dates written as texts, or a text as a date. */
  lemma TimelyTextIsShared(a: Value, moments: Spelling, quote: Quote) returns (b: Value)
    requires Parsed(a, moments) && !Untimely(a, moments)
    ensures Parsed(b, moments) && Canon(a, quote) == Canon(b, quote) && !Reordered(a, b)
  {
    hide Reordered, Canon, Textual, Dated, Parsed, Untimely, Leaves;
    if Dateless(a) {
      b := Dated(a, moments);
      DatedIsParsed(a, moments);
      DatedAndBack(a, moments);
      HashedAsTexts(b, quote);
      if Reordered(a, b) { LeavesOfReordered(a, b, NotMoment); }
    } else {
      b := Textual(a);
      TextualIsParsed(a, moments);
      HashedAsTexts(a, quote);
      if Reordered(a, b) {
        ReorderedSymmetric(a, b);
        LeavesOfReordered(b, a, NotMoment);
      }
    }
  }

  /** The text tells a value from every other up to order if and only if the value holds no date or
      time, nor a text that spells one. */
  lemma TextIsItsOwnExactlyWhenUntimely(a: Value, moments: Spelling, quote: Quote)
    requires QuotesWell(quote) && Parsed(a, moments)
    ensures TextIsItsOwn(a, moments, quote) <==> Untimely(a, moments)
  {
    hide Reordered, Canon, Parsed, Untimely, QuotesWell;
    if Untimely(a, moments) {
      forall b | Parsed(b, moments) && Canon(a, quote) == Canon(b, quote) ensures Reordered(a, b) {
        UntimelyTextIsItsOwn(a, b, moments, quote);
      }
    } else {
      var b := TimelyTextIsShared(a, moments, quote);
    }
  }
}
