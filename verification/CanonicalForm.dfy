/** The order-free canonical text of a TOML value (`defender/box/_image.py`): every list sorted by
    its elements' encodings, every table's keys sorted, so order never changes an image's name. */
module CanonicalForm {
  import opened TextOrder

  /** A parsed value: text, a number or truth value as its encoder spells it, a date or time, which
      JSON has no form for, as `str` spells it, a list, or a table. */
  datatype Value =
    | Text(text: string)
    | Scalar(spelled: string)
    | Moment(iso: string)
    | List(items: seq<Value>)
    | Table(fields: seq<Field>)

  datatype Field = Field(key: string, value: Value)

  /** How a text is quoted by the JSON encoder; every result below holds whatever it is. */
  type Quote = string -> string

  // ---------------------------------------------------------------- encoding and sorting

  function Join(parts: seq<string>): string {
    if parts == [] then "" else if |parts| == 1 then parts[0] else parts[0] + "," + Join(parts[1..])
  }

  /** A table's member as encoded, with the key it is sorted by. */
  datatype Member = Member(key: string, text: string)

  function MemberText(m: Member, quote: Quote): string { quote(m.key) + ":" + m.text }

  function KeyOf(m: Member): string { m.key }

  function JoinList(texts: seq<string>): string { "[" + Join(texts) + "]" }

  function JoinTable(members: seq<Member>, quote: Quote): string {
    "{" + Join(Map(SortBy(members, KeyOf), m => MemberText(m, quote))) + "}"
  }

  /** `_encode`: keys sorted, no spaces, list order as given, a date or time as its text. */
  function Encode(v: Value, quote: Quote): string
    decreases v, 1
  {
    match v
    case Text(t) => quote(t)
    case Scalar(s) => s
    case Moment(t) => quote(t)
    case List(items) => JoinList(EncodeAll(items, quote))
    case Table(fields) => JoinTable(EncodeFields(fields, quote), quote)
  }

  function EncodeAll(items: seq<Value>, quote: Quote): (r: seq<string>)
    ensures |r| == |items| && forall i :: 0 <= i < |items| ==> r[i] == Encode(items[i], quote)
    decreases items, 0
  {
    if items == [] then [] else [Encode(items[0], quote)] + EncodeAll(items[1..], quote)
  }

  function EncodeFields(fields: seq<Field>, quote: Quote): (r: seq<Member>)
    ensures |r| == |fields|
    ensures forall i :: 0 <= i < |fields| ==> r[i] == Member(fields[i].key, Encode(fields[i].value, quote))
    decreases fields, 0
  {
    if fields == [] then [] else
      var f := fields[0];
      assert fields decreases to f;
      [Member(f.key, Encode(f.value, quote))] + EncodeFields(fields[1..], quote)
  }

  /** `_order_free`. */
  function OrderFree(v: Value, quote: Quote): Value
    decreases v, 1
  {
    match v
    case Text(_) => v
    case Scalar(_) => v
    case Moment(_) => v
    case List(items) => List(SortBy(OrderFreeAll(items, quote), x => Encode(x, quote)))
    case Table(fields) => Table(OrderFreeFields(fields, quote))
  }

  function OrderFreeAll(items: seq<Value>, quote: Quote): (r: seq<Value>)
    ensures |r| == |items| && forall i :: 0 <= i < |items| ==> r[i] == OrderFree(items[i], quote)
    decreases items, 0
  {
    if items == [] then [] else [OrderFree(items[0], quote)] + OrderFreeAll(items[1..], quote)
  }

  function OrderFreeFields(fields: seq<Field>, quote: Quote): (r: seq<Field>)
    ensures |r| == |fields|
    ensures forall i :: 0 <= i < |fields| ==> r[i] == Field(fields[i].key, OrderFree(fields[i].value, quote))
    decreases fields, 0
  {
    if fields == [] then [] else
      var f := fields[0];
      assert fields decreases to f;
      [Field(f.key, OrderFree(f.value, quote))] + OrderFreeFields(fields[1..], quote)
  }

  /** What is hashed for a value. */
  function Canon(v: Value, quote: Quote): string { Encode(OrderFree(v, quote), quote) }

  // ---------------------------------------------------------------- the same up to order

  /** Keys are distinct in every table, as in a dictionary. */
  ghost predicate WellKeyed(v: Value)
    decreases v
  {
    match v
    case Text(_) => true
    case Scalar(_) => true
    case Moment(_) => true
    case List(items) => forall i :: 0 <= i < |items| ==> WellKeyed(items[i])
    case Table(fields) =>
      && (forall i, j :: 0 <= i < j < |fields| ==> fields[i].key != fields[j].key)
      && forall i :: 0 <= i < |fields| ==> (assert fields decreases to fields[i]; WellKeyed(fields[i].value))
  }

  /** `b` is `a` with the lists, and the keys of the tables, reordered at any depth: some
      arrangement of `b`'s parts matches `a`'s one by one. */
  ghost predicate Reordered(a: Value, b: Value)
    decreases a, 1
  {
    match a
    case Text(_) => a == b
    case Scalar(_) => a == b
    case Moment(_) => a == b
    case List(items) =>
      b.List? && exists arranged :: multiset(arranged) == multiset(b.items) && Pairwise(items, arranged)
    case Table(fields) =>
      b.Table? && exists arranged :: multiset(arranged) == multiset(b.fields) && PairwiseFields(fields, arranged)
  }

  ghost predicate Pairwise(items: seq<Value>, others: seq<Value>)
    decreases items, 0
  {
    |items| == |others| && forall i :: 0 <= i < |items| ==> Reordered(items[i], others[i])
  }

  ghost predicate PairwiseFields(fields: seq<Field>, others: seq<Field>)
    decreases fields, 0
  {
    && |fields| == |others|
    && forall i :: 0 <= i < |fields| ==>
         (assert fields decreases to fields[i];
          fields[i].key == others[i].key && Reordered(fields[i].value, others[i].value))
  }

  // ---------------------------------------------------------------- canonical texts compose

  function CanonAll(items: seq<Value>, quote: Quote): seq<string> { Map(items, x => Canon(x, quote)) }

  function CanonFields(fields: seq<Field>, quote: Quote): seq<Member> {
    Map(fields, (f: Field) => Member(f.key, Canon(f.value, quote)))
  }

  function Same(s: string): string { s }

  /** A list's canonical text depends only on its elements' canonical texts, as a multiset. */
  lemma CanonOfList(items: seq<Value>, quote: Quote)
    ensures Canon(List(items), quote) == JoinList(SortBy(CanonAll(items, quote), Same))
  {
    var free := OrderFreeAll(items, quote);
    var key := x => Encode(x, quote);
    var sorted := SortBy(free, key);
    var texts := EncodeAll(sorted, quote);
    SortHolds(free, key);
    MapHolds(sorted, free, key);
    assert Map(sorted, key) == texts;
    assert Map(free, key) == CanonAll(items, quote);
    SortHolds(CanonAll(items, quote), Same);
    assert Ordered(texts, Same);
    OrderedIsUnique(texts, SortBy(CanonAll(items, quote), Same), Same);
  }

  lemma CanonOfTable(fields: seq<Field>, quote: Quote)
    ensures Canon(Table(fields), quote) == JoinTable(CanonFields(fields, quote), quote)
  {
    assert EncodeFields(OrderFreeFields(fields, quote), quote) == CanonFields(fields, quote);
  }

  lemma SortedTextsAgree(a: seq<string>, b: seq<string>)
    requires multiset(a) == multiset(b)
    ensures SortBy(a, Same) == SortBy(b, Same)
  {
    SortHolds(a, Same);
    SortHolds(b, Same);
    OrderedIsUnique(SortBy(a, Same), SortBy(b, Same), Same);
  }

  lemma SortedMembersAgree(a: seq<Member>, b: seq<Member>)
    requires multiset(a) == multiset(b)
    requires forall i, j :: 0 <= i < j < |a| ==> a[i].key != a[j].key
    ensures SortBy(a, KeyOf) == SortBy(b, KeyOf)
  {
    SortHolds(a, KeyOf);
    SortHolds(b, KeyOf);
    var s := SortBy(a, KeyOf);
    forall i, j | 0 <= i < |s| && 0 <= j < |s| && KeyOf(s[i]) == KeyOf(s[j])
      ensures s[i] == s[j]
    {
      assert s[i] in multiset(a) && s[j] in multiset(a);
      var x := IndexOf(a, s[i]);
      var y := IndexOf(a, s[j]);
    }
    OrderedIsUnique(s, SortBy(b, KeyOf), KeyOf);
  }

  /** Reordering lists at any depth, or a table's keys, leaves the canonical text unchanged. */
  lemma {:induction false} CanonIgnoresOrder(a: Value, b: Value, quote: Quote)
    requires WellKeyed(a) && Reordered(a, b)
    ensures Canon(a, quote) == Canon(b, quote)
    decreases a
  {
    match a
    case Text(_) =>
    case Scalar(_) =>
    case Moment(_) =>
    case List(items) =>
      var arranged: seq<Value> :| multiset(arranged) == multiset(b.items) && Pairwise(items, arranged);
      forall i | 0 <= i < |items| ensures Canon(items[i], quote) == Canon(arranged[i], quote) {
        CanonIgnoresOrder(items[i], arranged[i], quote);
      }
      ListsAgree(items, arranged, b.items, quote);
    case Table(fields) =>
      var arranged: seq<Field> :| multiset(arranged) == multiset(b.fields) && PairwiseFields(fields, arranged);
      forall i | 0 <= i < |fields| ensures Canon(fields[i].value, quote) == Canon(arranged[i].value, quote) {
        assert fields decreases to fields[i];
        CanonIgnoresOrder(fields[i].value, arranged[i].value, quote);
      }
      TablesAgree(fields, arranged, b.fields, quote);
  }

  lemma ListsAgree(items: seq<Value>, arranged: seq<Value>, others: seq<Value>, quote: Quote)
    requires multiset(arranged) == multiset(others) && |items| == |arranged|
    requires forall i :: 0 <= i < |items| ==> Canon(items[i], quote) == Canon(arranged[i], quote)
    ensures Canon(List(items), quote) == Canon(List(others), quote)
  {
    CanonOfList(items, quote);
    CanonOfList(others, quote);
    MapHolds(arranged, others, x => Canon(x, quote));
    assert CanonAll(items, quote) == CanonAll(arranged, quote);
    SortedTextsAgree(CanonAll(items, quote), CanonAll(others, quote));
  }

  lemma TablesAgree(fields: seq<Field>, arranged: seq<Field>, others: seq<Field>, quote: Quote)
    requires multiset(arranged) == multiset(others) && |fields| == |arranged|
    requires forall i, j :: 0 <= i < j < |fields| ==> fields[i].key != fields[j].key
    requires forall i :: 0 <= i < |fields| ==>
               fields[i].key == arranged[i].key && Canon(fields[i].value, quote) == Canon(arranged[i].value, quote)
    ensures Canon(Table(fields), quote) == Canon(Table(others), quote)
  {
    CanonOfTable(fields, quote);
    CanonOfTable(others, quote);
    MapHolds(arranged, others, (f: Field) => Member(f.key, Canon(f.value, quote)));
    assert CanonFields(fields, quote) == CanonFields(arranged, quote);
    SortedMembersAgree(CanonFields(fields, quote), CanonFields(others, quote));
  }

  /** Nothing is lost: the canonical form is itself a reordering of the value. */
  lemma {:induction false} OrderFreeIsAReordering(v: Value, quote: Quote)
    ensures Reordered(v, OrderFree(v, quote))
    decreases v
  {
    match v
    case Text(_) =>
    case Scalar(_) =>
    case Moment(_) =>
    case List(items) =>
      var free := OrderFreeAll(items, quote);
      forall i | 0 <= i < |items| ensures Reordered(items[i], free[i]) { OrderFreeIsAReordering(items[i], quote); }
      SortHolds(free, x => Encode(x, quote));
      assert Pairwise(items, free);
    case Table(fields) =>
      var free := OrderFreeFields(fields, quote);
      forall i | 0 <= i < |fields|
        ensures fields[i].key == free[i].key && Reordered(fields[i].value, free[i].value)
      {
        assert fields decreases to fields[i];
        OrderFreeIsAReordering(fields[i].value, quote);
      }
      assert PairwiseFields(fields, free);
  }

  lemma {:induction false} ReorderedReflexive(v: Value)
    ensures Reordered(v, v)
    decreases v
  {
    match v
    case Text(_) =>
    case Scalar(_) =>
    case Moment(_) =>
    case List(items) =>
      forall i | 0 <= i < |items| ensures Reordered(items[i], items[i]) { ReorderedReflexive(items[i]); }
      assert Pairwise(items, items);
    case Table(fields) =>
      forall i | 0 <= i < |fields| ensures Reordered(fields[i].value, fields[i].value) {
        assert fields decreases to fields[i];
        ReorderedReflexive(fields[i].value);
      }
      assert PairwiseFields(fields, fields);
  }
}
