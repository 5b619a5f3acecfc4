/** What an image's name tells apart (`defender/box/_image.py`, `image_tag`): each hashed part is the
    same text if and only if it came from the same requirements, roots or closure up to order, dates
    and times read as their texts. */
module ImageIdentity {
  import opened TextOrder
  import opened CanonicalForm
  import opened CanonicalText
  import opened TextDecides
  import opened BoxClosure
  import opened ImageName
  import opened JsonQuoting

  // ---------------------------------------------------------------- requirement strings

  function AsTexts(s: seq<string>): seq<Value> { Map(s, t => Text(t)) }

  function TextOf(v: Value): string { if v.Text? then v.text else "" }

  lemma ReorderedTexts(a: seq<string>, b: seq<string>)
    ensures Reordered(List(AsTexts(a)), List(AsTexts(b))) <==> multiset(a) == multiset(b)
  {
    if multiset(a) == multiset(b) { TextListsReorder(a, b); }
    if Reordered(List(AsTexts(a)), List(AsTexts(b))) {
      var arranged := ListPairs(AsTexts(a), AsTexts(b));
      assert arranged == AsTexts(a);
      MapHolds(arranged, AsTexts(b), TextOf);
      assert Map(AsTexts(a), TextOf) == a && Map(AsTexts(b), TextOf) == b;
    }
  }

  function Requirements(core: seq<string>, box: seq<string>): seq<Field> {
    [Field("dependencies", List(AsTexts(core))), Field(BOX_EXTRA, List(AsTexts(box)))]
  }

  /** Two fields with the same two distinct keys can only be matched key by key. */
  lemma TwoFields(a: seq<Field>, b: seq<Field>)
    requires |a| == |b| == 2 && a[0].key == b[0].key != a[1].key == b[1].key
    requires Reordered(Table(a), Table(b))
    ensures Reordered(a[0].value, b[0].value) && Reordered(a[1].value, b[1].value)
  {
    hide Reordered;
    var arranged := TablePairs(a, b);
    assert FieldReordered(a[0], arranged[0]) && FieldReordered(a[1], arranged[1]);
    assert arranged[0] in multiset(b) && arranged[1] in multiset(b);
    var i := IndexOf(b, arranged[0]);
    var j := IndexOf(b, arranged[1]);
  }

  lemma RequirementsAreKeyed(core: seq<string>, box: seq<string>)
    ensures var t := Table(Requirements(core, box)); WellSpelled(t) && WellKeyed(t) && Dateless(t)
    ensures RequirementsPart(core, box, JsonQuote) == Canon(Table(Requirements(core, box)), JsonQuote)
    ensures Requirements(core, box)[0].key != Requirements(core, box)[1].key
  {
    hide Canon;
    assert |"dependencies"| != |BOX_EXTRA|;
    TextsAreKeyed(core);
    TextsAreKeyed(box);
  }

  lemma TextsAreKeyed(s: seq<string>)
    ensures WellSpelled(List(AsTexts(s))) && WellKeyed(List(AsTexts(s))) && Dateless(List(AsTexts(s)))
  {
  }

  /** The requirements part is the same if and only if each list holds the same strings, each as
      often, in whatever order. */
  lemma RequirementsTextDecides(core: seq<string>, core': seq<string>, box: seq<string>, box': seq<string>)
    ensures RequirementsPart(core, box, JsonQuote) == RequirementsPart(core', box', JsonQuote)
            <==> multiset(core) == multiset(core') && multiset(box) == multiset(box')
  {
    hide Canon, Reordered, RequirementsPart, WellSpelled, WellKeyed, Dateless, AsTexts;
    var a, b := Requirements(core, box), Requirements(core', box');
    RequirementsAreKeyed(core, box);
    RequirementsAreKeyed(core', box');
    HashedAlikeExactlyWhenReordered(Table(a), Table(b));
    if Reordered(Table(a), Table(b)) {
      TwoFields(a, b);
      ReorderedTexts(core, core');
      ReorderedTexts(box, box');
    }
    if multiset(core) == multiset(core') && multiset(box) == multiset(box') {
      RequirementOrderIsFree(core, core', box, box', JsonQuote);
    }
  }

  // ---------------------------------------------------------------- the lock's parts

  ghost predicate AllLeaves(s: seq<Value>, ok: Value -> bool) { forall i :: 0 <= i < |s| ==> Leaves(s[i], ok) }

  lemma {:induction false} KeepLeaves(s: seq<Value>, test: Value -> bool, ok: Value -> bool)
    requires AllLeaves(s, ok)
    ensures AllLeaves(Keep(s, test), ok)
    decreases |s|
  {
    hide Leaves;
    if s != [] { KeepLeaves(s[1..], test, ok); }
  }

  lemma {:induction false} LookupLeaves(fields: seq<Field>, key: string, ok: Value -> bool)
    requires Leaves(Table(fields), ok)
    ensures AllLeaves(ItemsOf(Lookup(fields, key)), ok)
    ensures Lookup(fields, key).Some? ==> Leaves(Lookup(fields, key).value, ok)
    decreases |fields|
  {
    if fields != [] && fields[0].key != key { LookupLeaves(fields[1..], key, ok); }
  }

  lemma RootLinksLeaves(e: Value, ok: Value -> bool)
    requires Leaves(e, ok)
    ensures AllLeaves(RootLinks(e), ok)
  {
    if e.Table? {
      LookupLeaves(e.fields, "dependencies", ok);
      LookupLeaves(e.fields, "optional-dependencies", ok);
    }
    LookupLeaves(OptionalSets(e), BOX_EXTRA, ok);
  }

  lemma RootsLeaves(packages: seq<Value>, root: string, ok: Value -> bool)
    requires AllLeaves(packages, ok)
    ensures Leaves(List(Roots(packages, root)), ok)
  {
    hide RootLinks;
    var kept := Keep(packages, e => Named(e, root));
    KeepLeaves(packages, e => Named(e, root), ok);
    forall i | 0 <= i < |kept| ensures Leaves(List(RootLinks(kept[i])), ok) { RootLinksLeaves(kept[i], ok); }
  }

  /** The closure part is the same if and only if the entries are, up to order at any depth, dates
      and times read as their texts; in locks without dates or times, exactly up to order. */
  lemma ClosureTextDecides(packages: seq<Value>, root: string, others: seq<Value>, root': string)
    requires AllLeaves(packages, SpelledLeaf) && AllLeaves(others, SpelledLeaf) && AllKeyed(packages)
    ensures var a, b := List(Closure(packages, root)), List(Closure(others, root'));
            && (ClosurePart(packages, root, JsonQuote) == ClosurePart(others, root', JsonQuote)
                <==> Reordered(Textual(a), Textual(b)))
            && (AllLeaves(packages, NotMoment) && AllLeaves(others, NotMoment) ==>
                  (ClosurePart(packages, root, JsonQuote) == ClosurePart(others, root', JsonQuote)
                   <==> Reordered(a, b)))
  {
    hide Reordered, Canon, Textual;
    KeepLeaves(packages, Reached(packages, root), SpelledLeaf);
    KeepLeaves(others, Reached(others, root'), SpelledLeaf);
    KeepIsKeyed(packages, Reached(packages, root));
    if AllLeaves(packages, NotMoment) && AllLeaves(others, NotMoment) {
      KeepLeaves(packages, Reached(packages, root), NotMoment);
      KeepLeaves(others, Reached(others, root'), NotMoment);
    }
    HashedAlikeExactlyWhenReordered(List(Closure(packages, root)), List(Closure(others, root')));
  }

  /** And so is the roots part. */
  lemma RootsTextDecides(packages: seq<Value>, root: string, others: seq<Value>, root': string)
    requires AllLeaves(packages, SpelledLeaf) && AllLeaves(others, SpelledLeaf) && AllKeyed(packages)
    ensures var a, b := List(Roots(packages, root)), List(Roots(others, root'));
            && (RootsPart(packages, root, JsonQuote) == RootsPart(others, root', JsonQuote)
                <==> Reordered(Textual(a), Textual(b)))
            && (AllLeaves(packages, NotMoment) && AllLeaves(others, NotMoment) ==>
                  (RootsPart(packages, root, JsonQuote) == RootsPart(others, root', JsonQuote) <==> Reordered(a, b)))
  {
    hide Reordered, Canon, Roots, Textual, Leaves, AllLeaves;
    RootsLeaves(packages, root, SpelledLeaf);
    RootsLeaves(others, root', SpelledLeaf);
    RootsAreKeyed(packages, root);
    if AllLeaves(packages, NotMoment) && AllLeaves(others, NotMoment) {
      RootsLeaves(packages, root, NotMoment);
      RootsLeaves(others, root', NotMoment);
    }
    HashedAlikeExactlyWhenReordered(List(Roots(packages, root)), List(Roots(others, root')));
  }
}
