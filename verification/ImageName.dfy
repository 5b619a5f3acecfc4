/** What an image's name may depend on (`defender/box/_image.py`, `image_tag`): its hashed parts do
    not change when lists are reordered at any depth, when the lock's packages are reordered, or
    when packages the build cannot reach come and go. */
module ImageName {
  import opened TextOrder
  import opened CanonicalForm
  import opened BoxClosure
  import opened Options

  ghost predicate Named(e: Value, name: string) { NameOf(e) == name }

  /** `[_root_links(entry) for entry in packages if entry["name"] == root_name]`. */
  ghost function Roots(packages: seq<Value>, root: string): seq<Value> {
    Map(Keep(packages, e => Named(e, root)), e => List(RootLinks(e)))
  }

  /** The hashed text of the roots, of the closure and of the requirement strings. */
  ghost function RootsPart(packages: seq<Value>, root: string, quote: Quote): string {
    Canon(List(Roots(packages, root)), quote)
  }

  ghost function ClosurePart(packages: seq<Value>, root: string, quote: Quote): string {
    Canon(List(Closure(packages, root)), quote)
  }

  function RequirementsPart(core: seq<string>, box: seq<string>, quote: Quote): string {
    Canon(Table([Field("dependencies", List(Map(core, t => Text(t)))),
                 Field(BOX_EXTRA, List(Map(box, t => Text(t))))]), quote)
  }

  // ---------------------------------------------------------------- requirement strings

  lemma TextListsReorder(a: seq<string>, b: seq<string>)
    requires multiset(a) == multiset(b)
    ensures Reordered(List(Map(a, t => Text(t))), List(Map(b, t => Text(t))))
  {
    var x, y := Map(a, t => Text(t)), Map(b, t => Text(t));
    MapHolds(a, b, t => Text(t));
    forall i | 0 <= i < |x| ensures Reordered(x[i], x[i]) {}
    assert Pairwise(x, x);
  }

  /** The order requirement strings are written in does not matter. */
  lemma RequirementOrderIsFree(core: seq<string>, core': seq<string>, box: seq<string>, box': seq<string>, quote: Quote)
    requires multiset(core) == multiset(core') && multiset(box) == multiset(box')
    ensures RequirementsPart(core, box, quote) == RequirementsPart(core', box', quote)
  {
    TextListsReorder(core, core');
    TextListsReorder(box, box');
    var fields := [Field("dependencies", List(Map(core, t => Text(t)))),
                   Field(BOX_EXTRA, List(Map(box, t => Text(t))))];
    var others := [Field("dependencies", List(Map(core', t => Text(t)))),
                   Field(BOX_EXTRA, List(Map(box', t => Text(t))))];
    assert PairwiseFields(fields, others);
    assert Reordered(Table(fields), Table(others));
    assert fields[0].key != fields[1].key by { assert |"dependencies"| != |BOX_EXTRA|; }
    CanonIgnoresOrder(Table(fields), Table(others), quote);
  }

  // ---------------------------------------------------------------- reordered entries

  /** Found, and then the first with its key. */
  lemma {:induction false} LookupFinds(fields: seq<Field>, key: string)
    ensures Lookup(fields, key).Some? <==> exists i :: 0 <= i < |fields| && fields[i].key == key
    ensures forall i :: 0 <= i < |fields| && fields[i].key == key && Unique(fields) ==>
              Lookup(fields, key) == Some(fields[i].value)
    decreases |fields|
  {
    if fields != [] {
      LookupFinds(fields[1..], key);
      assert forall i :: 0 < i < |fields| ==> fields[i] == fields[1..][i - 1];
      assert Unique(fields) ==> Unique(fields[1..]);
    }
  }

  ghost predicate Unique(fields: seq<Field>) {
    forall i, j :: 0 <= i < j < |fields| ==> fields[i].key != fields[j].key
  }

  ghost predicate SameOrReordered(a: Option<Value>, b: Option<Value>) {
    (a.None? && b.None?) || (a.Some? && b.Some? && Reordered(a.value, b.value))
  }

  lemma LookupReordered(fields: seq<Field>, arranged: seq<Field>, others: seq<Field>, key: string)
    requires Unique(fields) && Unique(others)
    requires multiset(arranged) == multiset(others) && PairwiseFields(fields, arranged)
    ensures SameOrReordered(Lookup(fields, key), Lookup(others, key))
  {
    LookupFinds(fields, key);
    LookupFinds(others, key);
    if Lookup(fields, key).Some? {
      var i :| 0 <= i < |fields| && fields[i].key == key;
      assert arranged[i] in multiset(others);
      var j := IndexOf(others, arranged[i]);
      assert Reordered(fields[i].value, others[j].value);
    }
    if Lookup(others, key).Some? {
      var j :| 0 <= j < |others| && others[j].key == key;
      assert others[j] in multiset(arranged);
      var i := IndexOf(arranged, others[j]);
      assert fields[i].key == key;
    }
  }

  lemma GetReordered(a: Value, b: Value, key: string)
    requires WellKeyed(a) && WellKeyed(b) && Reordered(a, b)
    ensures SameOrReordered(Get(a, key), Get(b, key))
  {
    if a.Table? {
      var arranged: seq<Field> :| multiset(arranged) == multiset(b.fields) && PairwiseFields(a.fields, arranged);
      LookupReordered(a.fields, arranged, b.fields, key);
    }
  }

  lemma NameReordered(a: Value, b: Value)
    requires WellKeyed(a) && WellKeyed(b) && Reordered(a, b)
    ensures NameOf(a) == NameOf(b)
  {
    GetReordered(a, b, "name");
  }

  ghost predicate AllKeyed(s: seq<Value>) { forall i :: 0 <= i < |s| ==> WellKeyed(s[i]) }

  lemma {:induction false} LookupIsKeyed(fields: seq<Field>, key: string)
    requires WellKeyed(Table(fields)) && Lookup(fields, key).Some?
    ensures WellKeyed(Lookup(fields, key).value)
    decreases |fields|
  {
    LookupFinds(fields, key);
    var i :| 0 <= i < |fields| && fields[i].key == key;
    assert Unique(fields);
  }

  /** Reordered lists of links name the same packages. */
  lemma LinksReordered(a: seq<Value>, b: seq<Value>, name: string)
    requires AllKeyed(a) && AllKeyed(b) && Reordered(List(a), List(b))
    ensures Links(a, name) <==> Links(b, name)
  {
    var arranged: seq<Value> :| multiset(arranged) == multiset(b) && Pairwise(a, arranged);
    forall i | 0 <= i < |a| ensures NameOf(a[i]) == NameOf(arranged[i]) {
      assert arranged[i] in multiset(b);
      var j := IndexOf(b, arranged[i]);
      NameReordered(a[i], arranged[i]);
    }
    if Links(a, name) {
      var i :| 0 <= i < |a| && NameOf(a[i]) == name;
      assert arranged[i] in multiset(b);
      var j := IndexOf(b, arranged[i]);
    }
    if Links(b, name) {
      var j :| 0 <= j < |b| && NameOf(b[j]) == name;
      assert b[j] in multiset(arranged);
      var i := IndexOf(arranged, b[j]);
      assert NameOf(a[i]) == name;
    }
  }

  lemma ItemsReordered(a: Option<Value>, b: Option<Value>)
    requires SameOrReordered(a, b)
    ensures Reordered(List(ItemsOf(a)), List(ItemsOf(b)))
  {
    if a.None? || !a.value.List? { ReorderedReflexive(List([])); }
  }

  lemma ItemsAreKeyed(a: Option<Value>)
    requires a.Some? ==> WellKeyed(a.value)
    ensures AllKeyed(ItemsOf(a))
  {
  }

  lemma GetIsKeyed(a: Value, key: string)
    requires WellKeyed(a)
    ensures Get(a, key).Some? ==> WellKeyed(Get(a, key).value)
  {
    if Get(a, key).Some? { LookupIsKeyed(a.fields, key); }
  }

  lemma DependenciesReordered(a: Value, b: Value)
    requires WellKeyed(a) && WellKeyed(b) && Reordered(a, b)
    ensures Reordered(List(DependencyLinks(a)), List(DependencyLinks(b)))
    ensures AllKeyed(DependencyLinks(a)) && AllKeyed(DependencyLinks(b))
  {
    GetReordered(a, b, "dependencies");
    ItemsReordered(Get(a, "dependencies"), Get(b, "dependencies"));
    GetIsKeyed(a, "dependencies");
    GetIsKeyed(b, "dependencies");
    ItemsAreKeyed(Get(a, "dependencies"));
    ItemsAreKeyed(Get(b, "dependencies"));
  }

  lemma OptionalSetsReordered(a: Value, b: Value)
    requires WellKeyed(a) && WellKeyed(b) && Reordered(a, b)
    ensures WellKeyed(Table(OptionalSets(a))) && WellKeyed(Table(OptionalSets(b)))
    ensures Reordered(Table(OptionalSets(a)), Table(OptionalSets(b)))
  {
    GetReordered(a, b, "optional-dependencies");
    GetIsKeyed(a, "optional-dependencies");
    GetIsKeyed(b, "optional-dependencies");
    if OptionalSets(a) == [] && OptionalSets(b) == [] { ReorderedReflexive(Table([])); }
  }

  lemma JoinReordered(a: seq<Value>, a': seq<Value>, b: seq<Value>, b': seq<Value>)
    requires Reordered(List(a), List(a')) && Reordered(List(b), List(b'))
    ensures Reordered(List(a + b), List(a' + b'))
  {
    var x: seq<Value> :| multiset(x) == multiset(a') && Pairwise(a, x);
    var y: seq<Value> :| multiset(y) == multiset(b') && Pairwise(b, y);
    PairwiseJoin(a, x, b, y);
    ShowReordered(a + b, x + y, a' + b');
  }

  lemma PairwiseJoin(a: seq<Value>, x: seq<Value>, b: seq<Value>, y: seq<Value>)
    requires Pairwise(a, x) && Pairwise(b, y)
    ensures Pairwise(a + b, x + y)
  {
    hide Reordered;
  }

  lemma ShowReordered(a: seq<Value>, arranged: seq<Value>, b: seq<Value>)
    requires multiset(arranged) == multiset(b) && Pairwise(a, arranged)
    ensures Reordered(List(a), List(b))
  {
  }

  lemma RootLinksReordered(a: Value, b: Value)
    requires WellKeyed(a) && WellKeyed(b) && Reordered(a, b)
    ensures Reordered(List(RootLinks(a)), List(RootLinks(b)))
    ensures AllKeyed(RootLinks(a)) && AllKeyed(RootLinks(b))
  {
    hide Reordered, WellKeyed, RootLinks, AllKeyed, Get, ItemsOf;
    DependenciesReordered(a, b);
    BoxExtraReordered(a, b);
    RootLinksAre(a);
    RootLinksAre(b);
    JoinReordered(DependencyLinks(a), DependencyLinks(b), BoxExtra(a), BoxExtra(b));
    JoinKeyed(DependencyLinks(a), BoxExtra(a));
    JoinKeyed(DependencyLinks(b), BoxExtra(b));
  }

  ghost function BoxExtra(e: Value): seq<Value> { ItemsOf(Get(Table(OptionalSets(e)), BOX_EXTRA)) }

  lemma RootLinksAre(e: Value)
    ensures RootLinks(e) == DependencyLinks(e) + BoxExtra(e)
  {
  }

  lemma JoinKeyed(a: seq<Value>, b: seq<Value>)
    requires AllKeyed(a) && AllKeyed(b)
    ensures AllKeyed(a + b)
  {
    hide WellKeyed;
  }

  lemma BoxExtraReordered(a: Value, b: Value)
    requires WellKeyed(a) && WellKeyed(b) && Reordered(a, b)
    ensures Reordered(List(BoxExtra(a)), List(BoxExtra(b))) && AllKeyed(BoxExtra(a)) && AllKeyed(BoxExtra(b))
  {
    hide Reordered, WellKeyed, AllKeyed, Get, ItemsOf, OptionalSets;
    OptionalSetsReordered(a, b);
    var x, y := Table(OptionalSets(a)), Table(OptionalSets(b));
    GetReordered(x, y, BOX_EXTRA);
    GetIsKeyed(x, BOX_EXTRA);
    GetIsKeyed(y, BOX_EXTRA);
    ItemsReordered(Get(x, BOX_EXTRA), Get(y, BOX_EXTRA));
    ItemsAreKeyed(Get(x, BOX_EXTRA));
    ItemsAreKeyed(Get(y, BOX_EXTRA));
  }

  lemma LinksOfJoin(a: seq<Value>, b: seq<Value>, name: string)
    ensures Links(a + b, name) <==> Links(a, name) || Links(b, name)
  {
    if Links(a, name) { var i :| 0 <= i < |a| && NameOf(a[i]) == name; assert (a + b)[i] == a[i]; }
    if Links(b, name) { var i :| 0 <= i < |b| && NameOf(b[i]) == name; assert (a + b)[|a| + i] == b[i]; }
    if Links(a + b, name) {
      var i :| 0 <= i < |a + b| && NameOf((a + b)[i]) == name;
      if i < |a| { assert a[i] == (a + b)[i]; } else { assert b[i - |a|] == (a + b)[i]; }
    }
  }

  ghost predicate SetLinks(sets: seq<Field>, name: string) {
    exists i :: 0 <= i < |sets| && Links(ItemsOf(Some(sets[i].value)), name)
  }

  lemma {:induction false} LinksOfConcat(sets: seq<Field>, name: string)
    ensures Links(Concat(sets), name) <==> SetLinks(sets, name)
    decreases |sets|
  {
    if sets != [] {
      LinksOfJoin(ItemsOf(Some(sets[0].value)), Concat(sets[1..]), name);
      LinksOfConcat(sets[1..], name);
      if SetLinks(sets[1..], name) {
        var i :| 0 <= i < |sets[1..]| && Links(ItemsOf(Some(sets[1..][i].value)), name);
        assert sets[i + 1] == sets[1..][i];
      }
      if SetLinks(sets, name) && !Links(ItemsOf(Some(sets[0].value)), name) {
        var i :| 0 <= i < |sets| && Links(ItemsOf(Some(sets[i].value)), name);
        assert sets[1..][i - 1] == sets[i];
      }
    }
  }

  lemma SetLinksReordered(a: seq<Field>, b: seq<Field>, name: string)
    requires WellKeyed(Table(a)) && WellKeyed(Table(b)) && Reordered(Table(a), Table(b))
    ensures SetLinks(a, name) <==> SetLinks(b, name)
  {
    var arranged: seq<Field> :| multiset(arranged) == multiset(b) && PairwiseFields(a, arranged);
    forall i | 0 <= i < |a|
      ensures Links(ItemsOf(Some(a[i].value)), name) <==> Links(ItemsOf(Some(arranged[i].value)), name)
    {
      assert arranged[i] in multiset(b);
      var j := IndexOf(b, arranged[i]);
      ItemsReordered(Some(a[i].value), Some(arranged[i].value));
      ItemsAreKeyed(Some(a[i].value));
      ItemsAreKeyed(Some(b[j].value));
      LinksReordered(ItemsOf(Some(a[i].value)), ItemsOf(Some(arranged[i].value)), name);
    }
    if SetLinks(a, name) {
      var i :| 0 <= i < |a| && Links(ItemsOf(Some(a[i].value)), name);
      assert arranged[i] in multiset(b);
      var j := IndexOf(b, arranged[i]);
    }
    if SetLinks(b, name) {
      var j :| 0 <= j < |b| && Links(ItemsOf(Some(b[j].value)), name);
      assert b[j] in multiset(arranged);
      var i := IndexOf(arranged, b[j]);
      assert Links(ItemsOf(Some(a[i].value)), name);
    }
  }

  /** A reordered entry has the same name and links to the same names, as a root and as a package. */
  lemma EntryReordered(a: Value, b: Value, name: string)
    requires WellKeyed(a) && WellKeyed(b) && Reordered(a, b)
    ensures NameOf(a) == NameOf(b)
    ensures Links(RootLinks(a), name) <==> Links(RootLinks(b), name)
    ensures Links(EntryLinks(a), name) <==> Links(EntryLinks(b), name)
  {
    NameReordered(a, b);
    RootLinksReordered(a, b);
    LinksReordered(RootLinks(a), RootLinks(b), name);
    DependenciesReordered(a, b);
    LinksReordered(DependencyLinks(a), DependencyLinks(b), name);
    OptionalSetsReordered(a, b);
    SetLinksReordered(OptionalSets(a), OptionalSets(b), name);
    LinksOfConcat(OptionalSets(a), name);
    LinksOfConcat(OptionalSets(b), name);
    LinksOfJoin(DependencyLinks(a), Concat(OptionalSets(a)), name);
    LinksOfJoin(DependencyLinks(b), Concat(OptionalSets(b)), name);
  }

  // ---------------------------------------------------------------- reordered packages

  /** Two locks that say the same of every name. */
  ghost predicate Agree(a: seq<Value>, b: seq<Value>, root: string) {
    && (forall n :: Carries(a, n) <==> Carries(b, n))
    && (forall n :: RootLinksTo(a, root, n) <==> RootLinksTo(b, root, n))
    && (forall n, m :: LinksTo(a, n, m) <==> LinksTo(b, n, m))
  }

  lemma AgreeingLocksReachAlike(a: seq<Value>, b: seq<Value>, root: string)
    requires Agree(a, b, root)
    ensures forall n :: Reachable(a, root, n) <==> Reachable(b, root, n)
    ensures Complete(a, root) <==> Complete(b, root)
  {
    forall n ensures Reachable(a, root, n) <==> Reachable(b, root, n) {
      if Reachable(a, root, n) {
        var chain :| IsChain(a, root, chain) && chain[|chain| - 1] == n;
        assert IsChain(b, root, chain);
      }
      if Reachable(b, root, n) {
        var chain :| IsChain(b, root, chain) && chain[|chain| - 1] == n;
        assert IsChain(a, root, chain);
      }
    }
  }

  /** Each entry of `a` has a like entry in `b`. */
  lemma LikeEntriesImply(a: seq<Value>, b: seq<Value>, root: string)
    requires forall i :: 0 <= i < |a| ==> HasLike(b, a[i])
    ensures forall n :: Carries(a, n) ==> Carries(b, n)
    ensures forall n :: RootLinksTo(a, root, n) ==> RootLinksTo(b, root, n)
    ensures forall n, m :: LinksTo(a, n, m) ==> LinksTo(b, n, m)
  {
    forall n | Carries(a, n) ensures Carries(b, n) {
      var i :| 0 <= i < |a| && NameOf(a[i]) == n;
      var j :| 0 <= j < |b| && Like(a[i], b[j]);
    }
    forall n | RootLinksTo(a, root, n) ensures RootLinksTo(b, root, n) {
      var i :| 0 <= i < |a| && NameOf(a[i]) == root && Links(RootLinks(a[i]), n);
      var j :| 0 <= j < |b| && Like(a[i], b[j]);
      assert Links(RootLinks(b[j]), n);
    }
    forall n, m | LinksTo(a, n, m) ensures LinksTo(b, n, m) {
      var i :| 0 <= i < |a| && NameOf(a[i]) == n && Links(EntryLinks(a[i]), m);
      var j :| 0 <= j < |b| && Like(a[i], b[j]);
      assert Links(EntryLinks(b[j]), m);
    }
  }

  ghost predicate HasLike(packages: seq<Value>, e: Value) {
    exists j :: 0 <= j < |packages| && Like(e, packages[j])
  }

  ghost predicate Like(a: Value, b: Value) {
    && NameOf(a) == NameOf(b)
    && (forall n :: Links(RootLinks(a), n) <==> Links(RootLinks(b), n))
    && (forall n :: Links(EntryLinks(a), n) <==> Links(EntryLinks(b), n))
  }

  lemma ReorderedIsLike(a: Value, b: Value)
    requires WellKeyed(a) && WellKeyed(b) && Reordered(a, b)
    ensures Like(a, b) && Like(b, a)
  {
    NameReordered(a, b);
    forall n
      ensures Links(RootLinks(a), n) <==> Links(RootLinks(b), n)
      ensures Links(EntryLinks(a), n) <==> Links(EntryLinks(b), n)
    {
      EntryReordered(a, b, n);
    }
  }

  lemma ArrangedIsLike(packages: seq<Value>, arranged: seq<Value>, others: seq<Value>, i: nat)
    requires AllKeyed(packages) && AllKeyed(others) && i < |packages|
    requires multiset(arranged) == multiset(others) && Pairwise(packages, arranged)
    ensures arranged[i] in multiset(others)
    ensures WellKeyed(arranged[i]) && Like(packages[i], arranged[i]) && Like(arranged[i], packages[i])
  {
    assert arranged[i] in multiset(others);
    var j := IndexOf(others, arranged[i]);
    ReorderedIsLike(packages[i], arranged[i]);
  }

  lemma ReorderedLocksAgree(packages: seq<Value>, arranged: seq<Value>, others: seq<Value>, root: string)
    requires AllKeyed(packages) && AllKeyed(others)
    requires multiset(arranged) == multiset(others) && Pairwise(packages, arranged)
    ensures Agree(packages, others, root)
  {
    hide Like, Reordered, Agree, Carries, RootLinksTo, LinksTo;
    forall i | 0 <= i < |packages| ensures HasLike(others, packages[i]) {
      ArrangedIsLike(packages, arranged, others, i);
      var j := IndexOf(others, arranged[i]);
    }
    forall j | 0 <= j < |others| ensures HasLike(packages, others[j]) {
      var i := IndexOf(arranged, others[j]);
      ArrangedIsLike(packages, arranged, others, i);
    }
    LikeEntriesImply(packages, others, root);
    LikeEntriesImply(others, packages, root);
    AgreesBothWays(packages, others, root);
  }

  lemma AgreesBothWays(a: seq<Value>, b: seq<Value>, root: string)
    requires forall n :: Carries(a, n) <==> Carries(b, n)
    requires forall n :: RootLinksTo(a, root, n) <==> RootLinksTo(b, root, n)
    requires forall n, m :: LinksTo(a, n, m) <==> LinksTo(b, n, m)
    ensures Agree(a, b, root)
  {
  }

  lemma {:induction false} KeepHolds(a: seq<Value>, b: seq<Value>, test: Value -> bool)
    requires multiset(a) == multiset(b)
    ensures multiset(Keep(a, test)) == multiset(Keep(b, test))
    decreases |a|
  {
    SameSize(a, b);
    if a != [] {
      assert a[0] in multiset(b);
      var j := IndexOf(b, a[0]);
      WithoutFirst(a);
      Without(b, j);
      KeepHolds(a[1..], b[..j] + b[j + 1..], test);
      KeepWithout(b, j, test);
    }
  }

  lemma {:induction false} KeepJoin(a: seq<Value>, b: seq<Value>, test: Value -> bool)
    ensures Keep(a + b, test) == Keep(a, test) + Keep(b, test)
    decreases |a|
  {
    if a == [] {
      assert a + b == b;
    } else {
      assert (a + b)[0] == a[0] && (a + b)[1..] == a[1..] + b;
      KeepJoin(a[1..], b, test);
      var head := if test(a[0]) then [a[0]] else [];
      assert head + (Keep(a[1..], test) + Keep(b, test)) == (head + Keep(a[1..], test)) + Keep(b, test);
    }
  }

  lemma KeepWithout(s: seq<Value>, j: nat, test: Value -> bool)
    requires j < |s|
    ensures multiset(Keep(s, test)) ==
            multiset(Keep(s[..j] + s[j + 1..], test)) + (if test(s[j]) then multiset{s[j]} else multiset{})
  {
    Without(s, j);
    KeepJoin(s[..j] + [s[j]], s[j + 1..], test);
    KeepJoin(s[..j], [s[j]], test);
    KeepJoin(s[..j], s[j + 1..], test);
    assert [s[j]][1..] == [];
  }

  lemma {:induction false} KeepPairwise(a: seq<Value>, b: seq<Value>, test: Value -> bool, test': Value -> bool)
    requires Pairwise(a, b) && forall i :: 0 <= i < |a| ==> test(a[i]) == test'(b[i])
    ensures Pairwise(Keep(a, test), Keep(b, test'))
    decreases |a|
  {
    if a != [] {
      assert Pairwise(a[1..], b[1..]);
      KeepPairwise(a[1..], b[1..], test, test');
    }
  }

  lemma KeepIsKeyed(s: seq<Value>, test: Value -> bool)
    requires AllKeyed(s)
    ensures AllKeyed(Keep(s, test))
    decreases |s|
  {
    if s != [] { KeepIsKeyed(s[1..], test); }
  }

  /** Lists reordered at any depth, packages included: the lock is usable alike, and the closure
      and roots parts of the name are the same text. */
  lemma ReorderedLockSameName(packages: seq<Value>, others: seq<Value>, root: string, quote: Quote)
    requires AllKeyed(packages) && AllKeyed(others) && Reordered(List(packages), List(others))
    ensures Complete(packages, root) <==> Complete(others, root)
    ensures ClosurePart(packages, root, quote) == ClosurePart(others, root, quote)
    ensures RootsPart(packages, root, quote) == RootsPart(others, root, quote)
  {
    var arranged: seq<Value> :| multiset(arranged) == multiset(others) && Pairwise(packages, arranged);
    ReorderedLocksAgree(packages, arranged, others, root);
    AgreeingLocksReachAlike(packages, others, root);
    ClosuresReorder(packages, arranged, others, root);
    KeepIsKeyed(packages, Reached(packages, root));
    CanonIgnoresOrder(List(Closure(packages, root)), List(Closure(others, root)), quote);
    RootsReorder(packages, arranged, others, root);
    RootsAreKeyed(packages, root);
    CanonIgnoresOrder(List(Roots(packages, root)), List(Roots(others, root)), quote);
  }

  lemma ClosuresReorder(packages: seq<Value>, arranged: seq<Value>, others: seq<Value>, root: string)
    requires AllKeyed(packages) && AllKeyed(others)
    requires multiset(arranged) == multiset(others) && Pairwise(packages, arranged)
    requires forall n :: Reachable(packages, root, n) <==> Reachable(others, root, n)
    ensures Reordered(List(Closure(packages, root)), List(Closure(others, root)))
  {
    var test, test' := Reached(packages, root), Reached(others, root);
    forall i | 0 <= i < |packages| ensures test(packages[i]) == test'(arranged[i]) {
      ArrangedIsLike(packages, arranged, others, i);
    }
    KeepPairwise(packages, arranged, test, test');
    KeepHolds(arranged, others, test');
    assert Pairwise(Closure(packages, root), Keep(arranged, test'));
  }

  lemma RootsReorder(packages: seq<Value>, arranged: seq<Value>, others: seq<Value>, root: string)
    requires AllKeyed(packages) && AllKeyed(others)
    requires multiset(arranged) == multiset(others) && Pairwise(packages, arranged)
    ensures Reordered(List(Roots(packages, root)), List(Roots(others, root)))
  {
    hide Reordered, RootLinks;
    var test := e => Named(e, root);
    var links := e => List(RootLinks(e));
    forall i | 0 <= i < |packages| ensures test(packages[i]) == test(arranged[i]) {
      ArrangedIsLike(packages, arranged, others, i);
    }
    KeepPairwise(packages, arranged, test, test);
    KeepHolds(arranged, others, test);
    var a, b, c := Keep(packages, test), Keep(arranged, test), Keep(others, test);
    KeepIsKeyed(packages, test);
    KeepIsKeyed(others, test);
    MapHolds(b, c, links);
    RootListsPairwise(a, b, c);
    ShowReordered(Map(a, links), Map(b, links), Map(c, links));
  }

  lemma RootListsPairwise(a: seq<Value>, b: seq<Value>, c: seq<Value>)
    requires AllKeyed(a) && AllKeyed(c) && multiset(b) == multiset(c) && Pairwise(a, b)
    ensures Pairwise(Map(a, e => List(RootLinks(e))), Map(b, e => List(RootLinks(e))))
  {
    hide Reordered, RootLinks;
    forall i | 0 <= i < |a| ensures Reordered(List(RootLinks(a[i])), List(RootLinks(b[i]))) {
      assert b[i] in multiset(c);
      var j := IndexOf(c, b[i]);
      RootLinksReordered(a[i], b[i]);
    }
  }

  lemma RootsAreKeyed(packages: seq<Value>, root: string)
    requires AllKeyed(packages)
    ensures WellKeyed(List(Roots(packages, root)))
  {
    var kept := Keep(packages, e => Named(e, root));
    KeepIsKeyed(packages, e => Named(e, root));
    forall i | 0 <= i < |kept| ensures WellKeyed(List(RootLinks(kept[i]))) {
      ReorderedReflexive(kept[i]);
      RootLinksReordered(kept[i], kept[i]);
    }
  }

  // ---------------------------------------------------------------- packages that do not matter

  /** The packages that stay. */
  ghost function Staying(packages: seq<Value>, stays: Value -> bool): seq<Value> { Keep(packages, stays) }

  lemma {:induction false} StayingHas(packages: seq<Value>, stays: Value -> bool, e: Value)
    ensures e in Keep(packages, stays) <==> e in packages && stays(e)
    decreases |packages|
  {
    if packages != [] { StayingHas(packages[1..], stays, e); }
  }

  /** Packages that come or go change nothing, so long as none carries the root's name or a name
      the remaining packages reach. */
  lemma UnreachedPackagesDoNotMatter(packages: seq<Value>, stays: Value -> bool, root: string)
    requires forall e :: e in packages && !stays(e) ==>
               NameOf(e) != root && !Reachable(Staying(packages, stays), root, NameOf(e))
    ensures var fewer := Staying(packages, stays);
            && (forall n :: Reachable(packages, root, n) <==> Reachable(fewer, root, n))
            && (Complete(packages, root) <==> Complete(fewer, root))
            && Closure(packages, root) == Closure(fewer, root)
            && Roots(packages, root) == Roots(fewer, root)
  {
    var fewer := Staying(packages, stays);
    forall n ensures Reachable(packages, root, n) <==> Reachable(fewer, root, n) {
      if Reachable(packages, root, n) {
        var chain :| IsChain(packages, root, chain) && chain[|chain| - 1] == n;
        ChainStays(packages, stays, root, chain);
      }
      if Reachable(fewer, root, n) {
        var chain :| IsChain(fewer, root, chain) && chain[|chain| - 1] == n;
        ChainReturns(packages, stays, root, chain);
      }
    }
    CompleteAlike(packages, stays, root);
    KeepTwice(packages, stays, Reached(packages, root), Reached(fewer, root));
    KeepTwice(packages, stays, e => Named(e, root), e => Named(e, root));
  }

  lemma CompleteAlike(packages: seq<Value>, stays: Value -> bool, root: string)
    requires forall e :: e in packages && !stays(e) ==>
               NameOf(e) != root && !Reachable(Staying(packages, stays), root, NameOf(e))
    requires forall n :: Reachable(packages, root, n) <==> Reachable(Staying(packages, stays), root, n)
    ensures Complete(packages, root) <==> Complete(Staying(packages, stays), root)
  {
    var fewer := Staying(packages, stays);
    forall n | n == root || Reachable(fewer, root, n) ensures Carries(packages, n) <==> Carries(fewer, n) {
      if Carries(packages, n) {
        var i :| 0 <= i < |packages| && NameOf(packages[i]) == n;
        StayingHas(packages, stays, packages[i]);
        assert packages[i] in fewer;
      }
      if Carries(fewer, n) {
        var i :| 0 <= i < |fewer| && NameOf(fewer[i]) == n;
        StayingHas(packages, stays, fewer[i]);
        assert fewer[i] in packages;
      }
    }
  }

  lemma {:induction false} KeepTwice(s: seq<Value>, stays: Value -> bool, test: Value -> bool, test': Value -> bool)
    requires forall e :: e in s ==> (test(e) <==> test'(e)) && (test(e) ==> stays(e))
    ensures Keep(s, test) == Keep(Keep(s, stays), test')
    decreases |s|
  {
    if s != [] {
      assert forall e :: e in s[1..] ==> e in s;
      KeepTwice(s[1..], stays, test, test');
      assert s[0] in s;
      KeepJoin(if stays(s[0]) then [s[0]] else [], Keep(s[1..], stays), test');
      assert [s[0]][1..] == [];
    }
  }

  /** A chain through all the packages stays within the remaining ones. */
  lemma {:induction false} ChainStays(packages: seq<Value>, stays: Value -> bool, root: string, chain: seq<string>)
    requires forall e :: e in packages && !stays(e) ==>
               NameOf(e) != root && !Reachable(Staying(packages, stays), root, NameOf(e))
    requires IsChain(packages, root, chain)
    ensures Reachable(Staying(packages, stays), root, chain[|chain| - 1])
    decreases |chain|
  {
    hide Reachable, RootLinksTo, LinksTo;
    var fewer := Staying(packages, stays);
    var last := |chain| - 1;
    if last == 0 {
      RootLinkStays(packages, stays, root, chain[0]);
      ReachableFromRoot(fewer, root, chain[0]);
    } else {
      assert IsChain(packages, root, chain[..last]);
      ChainStays(packages, stays, root, chain[..last]);
      assert LinksTo(packages, chain[last - 1], chain[last]);
      LinkStays(packages, stays, chain[last - 1], chain[last]);
      ReachableOnward(fewer, root, chain[last - 1], chain[last]);
    }
  }

  lemma RootLinkStays(packages: seq<Value>, stays: Value -> bool, root: string, name: string)
    requires RootLinksTo(packages, root, name) && forall e :: e in packages && NameOf(e) == root ==> stays(e)
    ensures RootLinksTo(Staying(packages, stays), root, name)
  {
    var i :| 0 <= i < |packages| && NameOf(packages[i]) == root && Links(RootLinks(packages[i]), name);
    assert packages[i] in packages;
    StayingHas(packages, stays, packages[i]);
    var fewer := Staying(packages, stays);
    var j :| 0 <= j < |fewer| && fewer[j] == packages[i];
  }

  lemma LinkStays(packages: seq<Value>, stays: Value -> bool, name: string, next: string)
    requires LinksTo(packages, name, next) && forall e :: e in packages && NameOf(e) == name ==> stays(e)
    ensures LinksTo(Staying(packages, stays), name, next)
  {
    var i :| 0 <= i < |packages| && NameOf(packages[i]) == name && Links(EntryLinks(packages[i]), next);
    assert packages[i] in packages;
    StayingHas(packages, stays, packages[i]);
    var fewer := Staying(packages, stays);
    var j :| 0 <= j < |fewer| && fewer[j] == packages[i];
  }

  lemma {:induction false} ChainReturns(packages: seq<Value>, stays: Value -> bool, root: string, chain: seq<string>)
    requires IsChain(Staying(packages, stays), root, chain)
    ensures IsChain(packages, root, chain)
  {
    var fewer := Staying(packages, stays);
    forall e ensures e in fewer ==> e in packages { StayingHas(packages, stays, e); }
    var i :| 0 <= i < |fewer| && NameOf(fewer[i]) == root && Links(RootLinks(fewer[i]), chain[0]);
    assert fewer[i] in packages;
    forall k | 0 <= k < |chain| - 1 ensures LinksTo(packages, chain[k], chain[k + 1]) {
      assert LinksTo(fewer, chain[k], chain[k + 1]);
      var j :| 0 <= j < |fewer| && NameOf(fewer[j]) == chain[k] && Links(EntryLinks(fewer[j]), chain[k + 1]);
      assert fewer[j] in packages;
    }
  }
}
