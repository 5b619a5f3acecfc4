/** An encoded value can be read back (`defender/box/_image.py`): reordering is an equivalence, and
    texts that agree come from values that are each other's reorderings. */
module CanonicalText {
  import opened TextOrder
  import opened CanonicalForm
  import JsonQuoting

  // ---------------------------------------------------------------- reordering is an equivalence

  ghost predicate AllPairs<T>(a: seq<T>, b: seq<T>, rel: (T, T) -> bool) {
    |a| == |b| && forall i :: 0 <= i < |a| ==> rel(a[i], b[i])
  }

  lemma PairsWithout<T>(a: seq<T>, b: seq<T>, j: nat, rel: (T, T) -> bool)
    requires AllPairs(a, b, rel) && j < |a|
    ensures |a| == |b| && rel(a[j], b[j])
    ensures AllPairs(a[..j] + a[j + 1..], b[..j] + b[j + 1..], rel)
  {
    var x, y := a[..j] + a[j + 1..], b[..j] + b[j + 1..];
    forall i | 0 <= i < |x| ensures rel(x[i], y[i]) {
      var k := if i < j then i else i + 1;
      assert x[i] == a[k] && y[i] == b[k];
    }
  }

  lemma PutFirst<T>(b: seq<T>, j: nat, rest: seq<T>)
    requires j < |b| && multiset(rest) == multiset(b[..j] + b[j + 1..])
    ensures multiset([b[j]] + rest) == multiset(b)
  {
    Without(b, j);
    assert b[j] in multiset(b);
  }

  lemma SameWithoutFirst<T>(a: seq<T>, b: seq<T>, j: nat)
    requires multiset(a) == multiset(b) && a != [] && j < |b| && b[j] == a[0]
    ensures multiset(a[1..]) == multiset(b[..j] + b[j + 1..])
  {
    WithoutFirst(a);
    Without(b, j);
  }

  /** Rearranging one side of a pairing rearranges the other with it. */
  lemma {:induction false} ArrangedTogether<T>(a: seq<T>, b: seq<T>, a': seq<T>, rel: (T, T) -> bool)
    returns (b': seq<T>)
    requires AllPairs(a, b, rel) && multiset(a') == multiset(a)
    ensures AllPairs(a', b', rel) && multiset(b') == multiset(b)
    decreases |a|
  {
    SameSize(a', a);
    if a' == [] {
      b' := b;
    } else {
      hide AllPairs;
      assert a'[0] in multiset(a);
      var j := IndexOf(a, a'[0]);
      PairsWithout(a, b, j, rel);
      SameWithoutFirst(a', a, j);
      var rest := ArrangedTogether(a[..j] + a[j + 1..], b[..j] + b[j + 1..], a'[1..], rel);
      b' := [b[j]] + rest;
      PairsWithFirst(a', b[j], rest, rel);
      PutFirst(b, j, rest);
    }
  }

  lemma PairsWithFirst<T>(a: seq<T>, first: T, rest: seq<T>, rel: (T, T) -> bool)
    requires a != [] && rel(a[0], first) && AllPairs(a[1..], rest, rel)
    ensures AllPairs(a, [first] + rest, rel)
  {
    var all := [first] + rest;
    forall i | 0 <= i < |a| ensures rel(a[i], all[i]) {
      if i > 0 { assert a[i] == a[1..][i - 1] && all[i] == rest[i - 1]; }
    }
  }

  ghost predicate FieldReordered(f: Field, g: Field) { f.key == g.key && Reordered(f.value, g.value) }

  lemma ShowList(a: seq<Value>, arranged: seq<Value>, b: seq<Value>)
    requires AllPairs(a, arranged, Reordered) && multiset(arranged) == multiset(b)
    ensures Reordered(List(a), List(b))
  {
    assert Pairwise(a, arranged);
  }

  lemma ShowTable(a: seq<Field>, arranged: seq<Field>, b: seq<Field>)
    requires AllPairs(a, arranged, FieldReordered) && multiset(arranged) == multiset(b)
    ensures Reordered(Table(a), Table(b))
  {
    assert PairwiseFields(a, arranged);
  }

  lemma ListPairs(a: seq<Value>, b: seq<Value>) returns (arranged: seq<Value>)
    requires Reordered(List(a), List(b))
    ensures AllPairs(a, arranged, Reordered) && multiset(arranged) == multiset(b)
  {
    arranged :| multiset(arranged) == multiset(b) && Pairwise(a, arranged);
  }

  lemma TablePairs(a: seq<Field>, b: seq<Field>) returns (arranged: seq<Field>)
    requires Reordered(Table(a), Table(b))
    ensures AllPairs(a, arranged, FieldReordered) && multiset(arranged) == multiset(b)
  {
    arranged :| multiset(arranged) == multiset(b) && PairwiseFields(a, arranged);
  }

  lemma {:induction false} ReorderedSymmetric(a: Value, b: Value)
    requires Reordered(a, b)
    ensures Reordered(b, a)
    decreases a
  {
    match a
    case Text(_) =>
    case Scalar(_) =>
    case Moment(_) =>
    case List(items) =>
      var arranged := ListPairs(items, b.items);
      forall i | 0 <= i < |items|
        ensures Reordered(arranged[i], items[i])
      {
        ReorderedSymmetric(items[i], arranged[i]);
      }
      var back := ArrangedTogether(arranged, items, b.items, Reordered);
      ShowList(b.items, back, items);
    case Table(fields) =>
      var arranged := TablePairs(fields, b.fields);
      forall i | 0 <= i < |fields| ensures FieldReordered(arranged[i], fields[i]) {
        assert fields decreases to fields[i];
        ReorderedSymmetric(fields[i].value, arranged[i].value);
      }
      var back := ArrangedTogether(arranged, fields, b.fields, FieldReordered);
      ShowTable(b.fields, back, fields);
  }

  lemma {:induction false} ReorderedTransitive(a: Value, b: Value, c: Value)
    requires Reordered(a, b) && Reordered(b, c)
    ensures Reordered(a, c)
    decreases a
  {
    match a
    case Text(_) =>
    case Scalar(_) =>
    case Moment(_) =>
    case List(items) =>
      var x := ListPairs(items, b.items);
      var y := ListPairs(b.items, c.items);
      var z := ArrangedTogether(b.items, y, x, Reordered);
      forall i | 0 <= i < |items| ensures Reordered(items[i], z[i]) { ReorderedTransitive(items[i], x[i], z[i]); }
      ShowList(items, z, c.items);
    case Table(fields) =>
      var x := TablePairs(fields, b.fields);
      var y := TablePairs(b.fields, c.fields);
      var z := ArrangedTogether(b.fields, y, x, FieldReordered);
      forall i | 0 <= i < |fields| ensures FieldReordered(fields[i], z[i]) {
        assert fields decreases to fields[i];
        assert FieldReordered(x[i], z[i]);
        ReorderedTransitive(fields[i].value, x[i].value, z[i].value);
      }
      ShowTable(fields, z, c.fields);
  }

  // ---------------------------------------------------------------- texts that can be read back

  /** A quoted text starts with a quote and ends where it ends, whatever follows. */
  ghost predicate QuotesWell(quote: Quote) {
    && (forall s :: quote(s) != "" && quote(s)[0] == '\"')
    && (forall s, t, r, r' :: quote(s) + r == quote(t) + r' ==> s == t && r == r')
  }

  /** The quoting `_encode` uses is such a one. */
  lemma JsonQuotesWell()
    ensures QuotesWell(JsonQuoting.JsonQuote)
  {
    forall s, t, r, r' | JsonQuoting.JsonQuote(s) + r == JsonQuoting.JsonQuote(t) + r'
      ensures s == t && r == r'
    {
      JsonQuoting.QuoteReadsBack(s, t, r, r');
    }
  }

  predicate ScalarChar(c: char) {
    '0' <= c <= '9' || 'a' <= c <= 'z' || 'A' <= c <= 'Z' || c == '+' || c == '-' || c == '.'
  }

  /** Every part that is not a list or a table passes. */
  ghost predicate Leaves(v: Value, ok: Value -> bool)
    decreases v
  {
    match v
    case Text(_) => ok(v)
    case Scalar(_) => ok(v)
    case Moment(_) => ok(v)
    case List(items) => forall i :: 0 <= i < |items| ==> Leaves(items[i], ok)
    case Table(fields) =>
      forall i :: 0 <= i < |fields| ==> (assert fields decreases to fields[i]; Leaves(fields[i].value, ok))
  }

  /** A number or a truth value is spelled as the encoder spells it. */
  predicate SpelledLeaf(v: Value) {
    v.Scalar? ==> v.spelled != "" && forall i :: 0 <= i < |v.spelled| ==> ScalarChar(v.spelled[i])
  }

  ghost predicate WellSpelled(v: Value) { Leaves(v, SpelledLeaf) }

  predicate NotMoment(v: Value) { !v.Moment? }

  /** No date or time at any depth. */
  ghost predicate Dateless(v: Value) { Leaves(v, NotMoment) }

  predicate Delimiter(c: char) { c == ',' || c == ']' || c == '}' }

  /** What may follow a value: nothing, or a delimiter. */
  predicate Delimited(r: string) { r == "" || Delimiter(r[0]) }

  lemma StartsWell(v: Value, quote: Quote)
    requires QuotesWell(quote) && Plain(v)
    ensures var t := Encode(v, quote);
            && t != "" && !Delimiter(t[0])
            && (v.Text? ==> t[0] == '\"') && (v.Scalar? ==> ScalarChar(t[0]))
            && (v.List? ==> t[0] == '[') && (v.Table? ==> t[0] == '{')
  {
  }

  lemma NoShorter(s: string, t: string, r: string, r': string)
    requires s + r == t + r' && Delimited(r)
    requires forall i :: 0 <= i < |t| ==> ScalarChar(t[i])
    ensures |t| <= |s|
  {
    var all := s + r;
    forall i | 0 <= i < |t| ensures ScalarChar(all[i]) { assert all[i] == (t + r')[i]; }
    assert r != "" ==> all[|s|] == r[0];
  }

  lemma ScalarsReadBack(s: string, t: string, r: string, r': string)
    requires s + r == t + r' && Delimited(r) && Delimited(r')
    requires forall i :: 0 <= i < |s| ==> ScalarChar(s[i])
    requires forall i :: 0 <= i < |t| ==> ScalarChar(t[i])
    ensures s == t && r == r'
  {
    NoShorter(s, t, r, r');
    NoShorter(t, s, r', r);
    var all := s + r;
    assert s == all[..|s|] == t && r == all[|s|..] == r';
  }

  // ---------------------------------------------------------------- tables are written by sorted key

  function KeyOfField(f: Field): string { f.key }

  lemma {:induction false} InsertCommutes(f: Field, sorted: seq<Field>, quote: Quote)
    ensures EncodeFields(Insert(f, sorted, ByKey(KeyOfField)), quote) ==
            Insert(Member(f.key, Encode(f.value, quote)), EncodeFields(sorted, quote), ByKey(KeyOf))
    decreases |sorted|
  {
    hide Encode;
    var m, ms := Member(f.key, Encode(f.value, quote)), EncodeFields(sorted, quote);
    if sorted != [] {
      assert ms[1..] == EncodeFields(sorted[1..], quote) && ms[0].key == sorted[0].key;
      SameOrder(sorted[0], f, ms[0], m);
      if ByKey(KeyOfField)(sorted[0], f) {
        InsertCommutes(f, sorted[1..], quote);
        var rest := Insert(f, sorted[1..], ByKey(KeyOfField));
        assert ([sorted[0]] + rest)[1..] == rest;
      } else {
        assert ([f] + sorted)[1..] == sorted;
      }
    }
  }

  lemma SameOrder(f: Field, g: Field, m: Member, n: Member)
    requires f.key == m.key && g.key == n.key
    ensures ByKey(KeyOfField)(f, g) == ByKey(KeyOf)(m, n)
  {
    assert ByKey(KeyOfField)(f, g) == TextLess(KeyOfField(f), KeyOfField(g));
    assert ByKey(KeyOf)(m, n) == TextLess(KeyOf(m), KeyOf(n));
  }

  lemma {:induction false} SortCommutes(fields: seq<Field>, quote: Quote)
    ensures EncodeFields(SortBy(fields, KeyOfField), quote) == SortBy(EncodeFields(fields, quote), KeyOf)
    decreases |fields|
  {
    hide Encode;
    if fields != [] {
      SortCommutes(fields[1..], quote);
      InsertCommutes(fields[0], SortBy(fields[1..], KeyOfField), quote);
      assert EncodeFields(fields, quote)[1..] == EncodeFields(fields[1..], quote);
    }
  }

  /** A table's members in the order given. */
  function Written(fields: seq<Field>, quote: Quote): string
    decreases |fields|
  {
    if fields == [] then ""
    else quote(fields[0].key) + ":" + Encode(fields[0].value, quote)
         + (if |fields| == 1 then "" else "," + Written(fields[1..], quote))
  }

  lemma {:induction false} WrittenIsJoined(fields: seq<Field>, quote: Quote)
    ensures Join(Map(EncodeFields(fields, quote), m => MemberText(m, quote))) == Written(fields, quote)
    decreases |fields|
  {
    hide Encode;
    var texts := Map(EncodeFields(fields, quote), m => MemberText(m, quote));
    if fields != [] {
      WrittenIsJoined(fields[1..], quote);
      assert texts[1..] == Map(EncodeFields(fields[1..], quote), m => MemberText(m, quote));
      assert texts[0] == quote(fields[0].key) + ":" + Encode(fields[0].value, quote);
    }
  }

  lemma TableText(fields: seq<Field>, quote: Quote)
    ensures Encode(Table(fields), quote) == "{" + Written(SortBy(fields, KeyOfField), quote) + "}"
  {
    SortCommutes(fields, quote);
    WrittenIsJoined(SortBy(fields, KeyOfField), quote);
  }

  function Listed(items: seq<Value>, quote: Quote): string
    decreases |items|
  {
    if items == [] then ""
    else Encode(items[0], quote) + (if |items| == 1 then "" else "," + Listed(items[1..], quote))
  }

  lemma {:induction false} ListedIsJoined(items: seq<Value>, quote: Quote)
    ensures Join(EncodeAll(items, quote)) == Listed(items, quote)
    decreases |items|
  {
    hide Encode;
    if items != [] {
      ListedIsJoined(items[1..], quote);
      assert EncodeAll(items, quote)[1..] == EncodeAll(items[1..], quote);
    }
  }

  lemma ListText(items: seq<Value>, quote: Quote)
    ensures Encode(List(items), quote) == "[" + Listed(items, quote) + "]"
  {
    ListedIsJoined(items, quote);
  }

  // ---------------------------------------------------------------- reordered in keys alone

  /** `b` is `a` with the keys of its tables, at any depth, in another order; lists as written. */
  ghost predicate Rekeyed(a: Value, b: Value)
    decreases a, 1
  {
    match a
    case Text(_) => a == b
    case Scalar(_) => a == b
    case Moment(_) => a == b
    case List(items) =>
      b.List? && |items| == |b.items| && forall i :: 0 <= i < |items| ==> Rekeyed(items[i], b.items[i])
    case Table(fields) =>
      b.Table? && exists arranged :: multiset(arranged) == multiset(b.fields) && RekeyedFields(fields, arranged)
  }

  ghost predicate RekeyedFields(fields: seq<Field>, others: seq<Field>)
    decreases fields, 0
  {
    && |fields| == |others|
    && forall i :: 0 <= i < |fields| ==>
         (assert fields decreases to fields[i];
          fields[i].key == others[i].key && Rekeyed(fields[i].value, others[i].value))
  }

  ghost predicate FieldRekeyed(f: Field, g: Field) { f.key == g.key && Rekeyed(f.value, g.value) }

  lemma ShowRekeyedList(a: seq<Value>, b: seq<Value>)
    requires AllPairs(a, b, Rekeyed)
    ensures Rekeyed(List(a), List(b))
  {
  }

  lemma ShowRekeyedTable(a: seq<Field>, arranged: seq<Field>, b: seq<Field>)
    requires AllPairs(a, arranged, FieldRekeyed) && multiset(arranged) == multiset(b)
    ensures Rekeyed(Table(a), Table(b))
  {
    assert RekeyedFields(a, arranged);
  }

  lemma RekeyedPairs(a: seq<Field>, b: seq<Field>) returns (arranged: seq<Field>)
    requires Rekeyed(Table(a), Table(b))
    ensures AllPairs(a, arranged, FieldRekeyed) && multiset(arranged) == multiset(b)
  {
    arranged :| multiset(arranged) == multiset(b) && RekeyedFields(a, arranged);
  }

  lemma {:induction false} RekeyedIsReordered(a: Value, b: Value)
    requires Rekeyed(a, b)
    ensures Reordered(a, b)
    decreases a
  {
    match a
    case Text(_) =>
    case Scalar(_) =>
    case Moment(_) =>
    case List(items) =>
      forall i | 0 <= i < |items| ensures Reordered(items[i], b.items[i]) { RekeyedIsReordered(items[i], b.items[i]); }
      ShowList(items, b.items, b.items);
    case Table(fields) =>
      var arranged := RekeyedPairs(fields, b.fields);
      forall i | 0 <= i < |fields| ensures FieldReordered(fields[i], arranged[i]) {
        assert fields decreases to fields[i];
        assert FieldRekeyed(fields[i], arranged[i]);
        RekeyedIsReordered(fields[i].value, arranged[i].value);
      }
      ShowTable(fields, arranged, b.fields);
  }

  // ---------------------------------------------------------------- reading back

  predicate PlainLeaf(v: Value) { SpelledLeaf(v) && NotMoment(v) }

  /** Well spelled, and without a date or time. */
  ghost predicate Plain(v: Value) { Leaves(v, PlainLeaf) }

  ghost predicate AllPlain(items: seq<Value>) { forall i :: 0 <= i < |items| ==> Plain(items[i]) }

  ghost predicate FieldsPlain(fields: seq<Field>) { forall i :: 0 <= i < |fields| ==> Plain(fields[i].value) }

  /** Equal texts, each up to a delimiter, are texts of values that differ only in the order of keys. */
  lemma {:induction false} PlainReadsBack(x: Value, y: Value, r: string, r': string, quote: Quote)
    requires QuotesWell(quote) && Plain(x) && Plain(y) && Delimited(r) && Delimited(r')
    requires Encode(x, quote) + r == Encode(y, quote) + r'
    ensures Rekeyed(x, y) && r == r'
    decreases |Encode(x, quote)|, 1
  {
    StartsWell(x, quote);
    StartsWell(y, quote);
    assert Encode(x, quote)[0] == (Encode(x, quote) + r)[0] == (Encode(y, quote) + r')[0] == Encode(y, quote)[0];
    match x
    case Text(_) =>
    case Scalar(s) => ScalarsReadBack(s, y.spelled, r, r');
    case List(items) => ListReadsBack(items, y.items, r, r', quote);
    case Table(fields) => TableReadsBack(fields, y.fields, r, r', quote);
  }

  lemma {:induction false} ListReadsBack(items: seq<Value>, others: seq<Value>, r: string, r': string, quote: Quote)
    requires QuotesWell(quote) && AllPlain(items) && AllPlain(others) && Delimited(r) && Delimited(r')
    requires Encode(List(items), quote) + r == Encode(List(others), quote) + r'
    ensures Rekeyed(List(items), List(others)) && r == r'
    decreases |Encode(List(items), quote)|, 0
  {
    hide Encode, Rekeyed;
    ListText(items, quote);
    ListText(others, quote);
    var a, b := Encode(List(items), quote) + r, Encode(List(others), quote) + r';
    assert a[1..] == Listed(items, quote) + ("]" + r);
    assert b[1..] == Listed(others, quote) + ("]" + r');
    ItemsReadBack(items, others, "]" + r, "]" + r', quote);
    assert ("]" + r)[1..] == r && ("]" + r')[1..] == r';
    ShowRekeyedList(items, others);
  }

  lemma FirstItem(items: seq<Value>, r: string, quote: Quote) returns (rest: string)
    requires items != [] && r != "" && r[0] == ']'
    ensures Listed(items, quote) + r == Encode(items[0], quote) + rest && Delimited(rest)
    ensures |items| == 1 ==> rest == r
    ensures |items| > 1 ==> rest == "," + (Listed(items[1..], quote) + r)
    ensures |Encode(items[0], quote)| <= |Listed(items, quote)|
    ensures |items| > 1 ==> |Listed(items[1..], quote)| < |Listed(items, quote)|
  {
    hide Encode;
    rest := if |items| == 1 then r else "," + (Listed(items[1..], quote) + r);
  }

  lemma {:induction false} ItemsReadBack(items: seq<Value>, others: seq<Value>, r: string, r': string, quote: Quote)
    requires QuotesWell(quote) && AllPlain(items) && AllPlain(others)
    requires r != "" && r[0] == ']' && r' != "" && r'[0] == ']'
    requires Listed(items, quote) + r == Listed(others, quote) + r'
    ensures AllPairs(items, others, Rekeyed) && r == r'
    decreases |Listed(items, quote)|, 2
  {
    hide Encode, Listed, Rekeyed, QuotesWell;
    NoItems(quote);
    if items == [] {
      if others != [] { ItemStartsWell(others, r', quote); }
      assert "" + r == r && "" + r' == r';
    } else if others == [] {
      ItemStartsWell(items, r, quote);
    } else {
      var p := FirstItem(items, r, quote);
      var q := FirstItem(others, r', quote);
      PlainReadsBack(items[0], others[0], p, q, quote);
      if |items| > 1 && |others| > 1 {
        assert p[1..] == Listed(items[1..], quote) + r && q[1..] == Listed(others[1..], quote) + r';
        ItemsReadBack(items[1..], others[1..], r, r', quote);
        PairsWithFirst(items, others[0], others[1..], Rekeyed);
        assert [others[0]] + others[1..] == others;
      }
    }
  }

  lemma NoItems(quote: Quote)
    ensures Listed([], quote) == "" && Written([], quote) == ""
  {
  }

  lemma ItemStartsWell(items: seq<Value>, r: string, quote: Quote)
    requires QuotesWell(quote) && items != [] && AllPlain(items)
    ensures (Listed(items, quote) + r) != "" && !Delimiter((Listed(items, quote) + r)[0])
  {
    StartsWell(items[0], quote);
    hide Encode;
    assert (Listed(items, quote) + r)[0] == Encode(items[0], quote)[0];
  }

  lemma SortedFieldsArePlain(fields: seq<Field>)
    requires FieldsPlain(fields)
    ensures FieldsPlain(SortBy(fields, KeyOfField))
  {
    hide Plain;
    SortHolds(fields, KeyOfField);
    var sorted := SortBy(fields, KeyOfField);
    forall i | 0 <= i < |sorted| ensures Plain(sorted[i].value) {
      assert sorted[i] in multiset(fields);
      var j := IndexOf(fields, sorted[i]);
    }
  }

  lemma {:induction false} TableReadsBack(fields: seq<Field>, others: seq<Field>, r: string, r': string, quote: Quote)
    requires QuotesWell(quote) && FieldsPlain(fields) && FieldsPlain(others) && Delimited(r) && Delimited(r')
    requires Encode(Table(fields), quote) + r == Encode(Table(others), quote) + r'
    ensures Rekeyed(Table(fields), Table(others)) && r == r'
    decreases |Encode(Table(fields), quote)|, 0
  {
    hide Encode, Rekeyed, Written;
    TableText(fields, quote);
    TableText(others, quote);
    var f, g := SortBy(fields, KeyOfField), SortBy(others, KeyOfField);
    SortedFieldsArePlain(fields);
    SortedFieldsArePlain(others);
    var a, b := Encode(Table(fields), quote) + r, Encode(Table(others), quote) + r';
    assert a[1..] == Written(f, quote) + ("}" + r);
    assert b[1..] == Written(g, quote) + ("}" + r');
    FieldsReadBack(f, g, "}" + r, "}" + r', quote);
    assert ("}" + r)[1..] == r && ("}" + r')[1..] == r';
    SortHolds(fields, KeyOfField);
    SortHolds(others, KeyOfField);
    var arranged := ArrangedTogether(f, g, fields, FieldRekeyed);
    ShowRekeyedTable(fields, arranged, others);
  }

  lemma FirstField(fields: seq<Field>, r: string, quote: Quote) returns (rest: string)
    requires fields != [] && r != "" && r[0] == '}'
    ensures Written(fields, quote) + r == quote(fields[0].key) + (":" + (Encode(fields[0].value, quote) + rest))
    ensures Delimited(rest)
    ensures |fields| == 1 ==> rest == r
    ensures |fields| > 1 ==> rest == "," + (Written(fields[1..], quote) + r)
    ensures |Encode(fields[0].value, quote)| < |Written(fields, quote)|
    ensures |fields| > 1 ==> |Written(fields[1..], quote)| < |Written(fields, quote)|
  {
    hide Encode;
    var k, v := quote(fields[0].key), Encode(fields[0].value, quote);
    if |fields| == 1 {
      rest := r;
      assert Written(fields, quote) == k + ":" + v + "";
      assert (k + ":" + v + "") + r == k + (":" + (v + r));
    } else {
      var w := Written(fields[1..], quote);
      rest := "," + (w + r);
      assert Written(fields, quote) == k + ":" + v + ("," + w);
      assert (k + ":" + v + ("," + w)) + r == k + (":" + (v + ("," + (w + r))));
    }
  }

  lemma {:induction false} FieldsReadBack(fields: seq<Field>, others: seq<Field>, r: string, r': string, quote: Quote)
    requires QuotesWell(quote) && FieldsPlain(fields) && FieldsPlain(others)
    requires r != "" && r[0] == '}' && r' != "" && r'[0] == '}'
    requires Written(fields, quote) + r == Written(others, quote) + r'
    ensures AllPairs(fields, others, FieldRekeyed) && r == r'
    decreases |Written(fields, quote)|, 2
  {
    hide Encode, Written, Rekeyed, QuotesWell, Plain;
    NoItems(quote);
    if fields == [] {
      if others != [] { FieldStartsWell(others, r', quote); }
      assert "" + r == r && "" + r' == r';
    } else if others == [] {
      FieldStartsWell(fields, r, quote);
    } else {
      var p := FirstField(fields, r, quote);
      var q := FirstField(others, r', quote);
      var x, y := Encode(fields[0].value, quote) + p, Encode(others[0].value, quote) + q;
      KeysReadBack(fields[0].key, others[0].key, ":" + x, ":" + y, quote);
      assert (":" + x)[1..] == x && (":" + y)[1..] == y;
      PlainReadsBack(fields[0].value, others[0].value, p, q, quote);
      if |fields| > 1 && |others| > 1 {
        assert p[1..] == Written(fields[1..], quote) + r && q[1..] == Written(others[1..], quote) + r';
        FieldsReadBack(fields[1..], others[1..], r, r', quote);
        PairsWithFirst(fields, others[0], others[1..], FieldRekeyed);
        assert [others[0]] + others[1..] == others;
      }
    }
  }

  lemma KeysReadBack(s: string, t: string, r: string, r': string, quote: Quote)
    requires QuotesWell(quote) && quote(s) + r == quote(t) + r'
    ensures s == t && r == r'
  {
  }

  lemma FieldStartsWell(fields: seq<Field>, r: string, quote: Quote)
    requires QuotesWell(quote) && fields != []
    ensures (Written(fields, quote) + r) != "" && !Delimiter((Written(fields, quote) + r)[0])
  {
    hide Encode;
    assert (Written(fields, quote) + r)[0] == quote(fields[0].key)[0];
  }
}
