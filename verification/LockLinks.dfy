/** Which links a lock entry has (`defender/box/_image.py`), said on the entry's own fields: the core
    dependencies and every optional set of an entry, the core dependencies and the `box` set alone of
    the root. */
module LockLinks {
  import opened Options
  import opened CanonicalForm
  import opened BoxClosure

  /** Keys are distinct, as in a table. */
  ghost predicate DistinctKeys(fields: seq<Field>) {
    forall i, j :: 0 <= i < j < |fields| ==> fields[i].key != fields[j].key
  }

  lemma {:induction false} LookupIsTheField(fields: seq<Field>, key: string, v: Value)
    requires DistinctKeys(fields)
    ensures Lookup(fields, key) == Some(v) <==> Field(key, v) in fields
    decreases |fields|
  {
    if fields != [] {
      var rest := fields[1..];
      assert fields == [fields[0]] + rest;
      LookupIsTheField(rest, key, v);
      forall i | 0 <= i < |rest| ensures rest[i].key != fields[0].key { assert rest[i] == fields[i + 1]; }
    }
  }

  /** A link is named by its text under "name". */
  lemma NameIsTheField(fields: seq<Field>, name: string)
    requires DistinctKeys(fields)
    ensures HasName(Table(fields)) && NameOf(Table(fields)) == name <==> Field("name", Text(name)) in fields
  {
    LookupIsTheField(fields, "name", Text(name));
  }

  /** `v` is a list with a link to `name`. */
  ghost predicate ListsLinkTo(v: Value, name: string) { v.List? && Links(v.items, name) }

  ghost predicate DependsOn(fields: seq<Field>, name: string) {
    exists v :: Field("dependencies", v) in fields && ListsLinkTo(v, name)
  }

  /** Some optional set for which `chosen` holds has a link to `name`. */
  ghost predicate OptionallyOn(fields: seq<Field>, chosen: string -> bool, name: string) {
    exists sets, key, v ::
      && Field("optional-dependencies", Table(sets)) in fields && Field(key, v) in sets
      && chosen(key) && ListsLinkTo(v, name)
  }

  lemma LinksOfJoined(a: seq<Value>, b: seq<Value>, name: string)
    ensures Links(a + b, name) <==> Links(a, name) || Links(b, name)
  {
    if Links(a, name) {
      var i :| 0 <= i < |a| && NameOf(a[i]) == name;
      assert (a + b)[i] == a[i];
    }
    if Links(b, name) {
      var i :| 0 <= i < |b| && NameOf(b[i]) == name;
      assert (a + b)[|a| + i] == b[i];
    }
  }

  lemma DependencyLinksAre(fields: seq<Field>, name: string)
    requires DistinctKeys(fields)
    ensures Links(DependencyLinks(Table(fields)), name) <==> DependsOn(fields, name)
  {
    var found := Lookup(fields, "dependencies");
    if found.Some? { LookupIsTheField(fields, "dependencies", found.value); }
    if DependsOn(fields, name) {
      var v :| Field("dependencies", v) in fields && ListsLinkTo(v, name);
      LookupIsTheField(fields, "dependencies", v);
    }
  }

  lemma {:induction false} ConcatLinksAre(sets: seq<Field>, name: string)
    ensures Links(Concat(sets), name) <==> exists f :: f in sets && ListsLinkTo(f.value, name)
    decreases |sets|
  {
    if sets != [] {
      assert sets == [sets[0]] + sets[1..];
      ConcatLinksAre(sets[1..], name);
      LinksOfJoined(ItemsOf(Some(sets[0].value)), Concat(sets[1..]), name);
      assert sets[0] in sets;
    }
  }

  lemma OptionalSetsAre(fields: seq<Field>, sets: seq<Field>)
    requires DistinctKeys(fields) && Field("optional-dependencies", Table(sets)) in fields
    ensures OptionalSets(Table(fields)) == sets
  {
    LookupIsTheField(fields, "optional-dependencies", Table(sets));
  }

  lemma OptionalSetsAreThere(fields: seq<Field>)
    requires DistinctKeys(fields) && OptionalSets(Table(fields)) != []
    ensures Field("optional-dependencies", Table(OptionalSets(Table(fields)))) in fields
  {
    LookupIsTheField(fields, "optional-dependencies", Table(OptionalSets(Table(fields))));
  }

  /** An entry links to `name` exactly when its dependencies do or any of its optional sets does. */
  lemma EntryLinksToExactly(fields: seq<Field>, name: string)
    requires DistinctKeys(fields)
    ensures Links(EntryLinks(Table(fields)), name) <==>
            DependsOn(fields, name) || OptionallyOn(fields, _ => true, name)
  {
    var e := Table(fields);
    DependencyLinksAre(fields, name);
    LinksOfJoined(DependencyLinks(e), Concat(OptionalSets(e)), name);
    ConcatLinksAre(OptionalSets(e), name);
    if f :| f in OptionalSets(e) && ListsLinkTo(f.value, name) {
      OptionalSetsAreThere(fields);
      assert Field(f.key, f.value) in OptionalSets(e);
    }
    if OptionallyOn(fields, _ => true, name) {
      var sets, key, v :|
        Field("optional-dependencies", Table(sets)) in fields && Field(key, v) in sets && ListsLinkTo(v, name);
      OptionalSetsAre(fields, sets);
    }
  }

  /** The root links to `name` exactly when its dependencies do or its `box` set does; no other set
      counts. */
  lemma RootLinksToExactly(fields: seq<Field>, name: string)
    requires DistinctKeys(fields) && DistinctKeys(OptionalSets(Table(fields)))
    ensures Links(RootLinks(Table(fields)), name) <==>
            DependsOn(fields, name) || OptionallyOn(fields, key => key == "box", name)
  {
    var e := Table(fields);
    var found := Lookup(OptionalSets(e), "box");
    DependencyLinksAre(fields, name);
    LinksOfJoined(DependencyLinks(e), ItemsOf(found), name);
    if found.Some? {
      LookupIsTheField(OptionalSets(e), "box", found.value);
      OptionalSetsAreThere(fields);
    }
    if OptionallyOn(fields, key => key == "box", name) {
      var sets, key, v :|
        && Field("optional-dependencies", Table(sets)) in fields && Field(key, v) in sets
        && key == "box" && ListsLinkTo(v, name);
      OptionalSetsAre(fields, sets);
      LookupIsTheField(sets, "box", v);
    }
  }

  /** What the lock's reader lets through: a string name, and lists of links, each with a string name,
      as its dependencies and as every optional set, where there are any. */
  lemma EntryIsExactly(fields: seq<Field>)
    requires DistinctKeys(fields)
    ensures IsEntry(Table(fields)) <==>
            && (exists name :: Field("name", Text(name)) in fields)
            && (forall v :: Field("dependencies", v) in fields ==> IsLinks(v))
            && (forall v :: Field("optional-dependencies", v) in fields ==>
                  v.Table? && forall f :: f in v.fields ==> IsLinks(f.value))
  {
    forall v ensures (Field("dependencies", v) in fields <==> Lookup(fields, "dependencies") == Some(v))
             ensures Field("optional-dependencies", v) in fields
                     <==> Lookup(fields, "optional-dependencies") == Some(v)
             ensures (Field("name", v) in fields <==> Lookup(fields, "name") == Some(v))
    {
      LookupIsTheField(fields, "dependencies", v);
      LookupIsTheField(fields, "optional-dependencies", v);
      LookupIsTheField(fields, "name", v);
    }
    if IsEntry(Table(fields)) { assert Field("name", Text(NameOf(Table(fields)))) in fields; }
  }
}
