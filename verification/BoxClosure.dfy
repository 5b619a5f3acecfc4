/** The box image's package set (`defender/box/_image.py`): worklist reachability over a lock file's
    entries, and the parts of the image's name it decides. */
module BoxClosure {
  import opened Options
  import opened Characters
  import opened CanonicalForm

  const BOX_EXTRA := "box"

  // ---------------------------------------------------------------- names

  predicate IsSeparator(c: char) { c == '-' || c == '_' || c == '.' }

  /** Each run of separators as one `-`. */
  function Collapsed(name: string): string {
    if name == "" then ""
    else if !IsSeparator(name[0]) then [name[0]] + Collapsed(name[1..])
    else if |name| > 1 && IsSeparator(name[1]) then Collapsed(name[1..])
    else ['-'] + Collapsed(name[1..])
  }

  /** Lowering a whole text, as `str.lower` does. */
  type Lowering = string -> string

  /** `normalized_name`: runs of separators collapsed, then lowered. */
  function NormalizedName(name: string, lower: Lowering): string { lower(Collapsed(name)) }

  /** Every separator a `-` that stands alone. */
  predicate OneDashEach(name: string) {
    forall i :: 0 <= i < |name| && IsSeparator(name[i]) ==>
      name[i] == '-' && (i + 1 < |name| ==> !IsSeparator(name[i + 1]))
  }

  lemma {:induction false} CollapsedHasOneDashEach(name: string)
    ensures OneDashEach(Collapsed(name))
    ensures Collapsed(name) == "" <==> name == ""
    ensures name != "" ==> (IsSeparator(Collapsed(name)[0]) <==> IsSeparator(name[0]))
    decreases |name|
  {
    if name != "" {
      CollapsedHasOneDashEach(name[1..]);
      var c, rest := Collapsed(name), Collapsed(name[1..]);
      forall i | 0 <= i < |c| && IsSeparator(c[i])
        ensures c[i] == '-' && (i + 1 < |c| ==> !IsSeparator(c[i + 1]))
      {
        if c != rest && i > 0 { assert c[i] == rest[i - 1]; }
      }
    }
  }

  /** What is not a separator, in order. */
  function Letters(name: string): string {
    if name == "" then ""
    else (if name[0] in "-_." then "" else [name[0]]) + Letters(name[1..])
  }

  /** Collapsing leaves every other character where it was, no `_` or `.`, and no two dashes together. */
  lemma {:induction false} CollapsingKeepsTheLetters(name: string)
    ensures Letters(Collapsed(name)) == Letters(name)
    ensures forall i :: 0 <= i < |Collapsed(name)| ==> Collapsed(name)[i] != '_' && Collapsed(name)[i] != '.'
    ensures forall i :: 0 < i < |Collapsed(name)| ==> !(Collapsed(name)[i - 1] == Collapsed(name)[i] == '-')
    decreases |name|
  {
    CollapsedHasOneDashEach(name);
    forall i | 0 <= i < |Collapsed(name)|
      ensures Collapsed(name)[i] != '_' && Collapsed(name)[i] != '.'
    {
      SeparatorsAre(Collapsed(name)[i]);
    }
    if name != "" {
      CollapsingKeepsTheLetters(name[1..]);
      SeparatorsAre(name[0]);
      SeparatorsAre('-');
      var c, rest := Collapsed(name), Collapsed(name[1..]);
      if c != rest { assert c[1..] == rest; }
    }
  }

  lemma SeparatorsAre(c: char)
    ensures IsSeparator(c) <==> c in "-_."
  {
    assert "-_." == ['-', '_', '.'];
  }

  lemma {:induction false} OneDashEachIsCollapsed(name: string)
    requires OneDashEach(name)
    ensures Collapsed(name) == name
    decreases |name|
  {
    if name != "" {
      forall i | 0 <= i < |name[1..]| && IsSeparator(name[1..][i])
        ensures name[1..][i] == '-' && (i + 1 < |name[1..]| ==> !IsSeparator(name[1..][i + 1]))
      {
        assert name[1..][i] == name[i + 1];
      }
      OneDashEachIsCollapsed(name[1..]);
      assert name == [name[0]] + name[1..];
    }
  }

  /** What is asked of lowering: doing it twice is doing it once, and it brings in no separator. */
  ghost predicate LowersWell(lower: Lowering) {
    && (forall s :: lower(lower(s)) == lower(s))
    && (forall s :: OneDashEach(s) ==> OneDashEach(lower(s)))
  }

  /** Normalising again changes nothing, so the two places that normalise the root agree. */
  lemma NormalizedIsStable(name: string, lower: Lowering)
    requires LowersWell(lower)
    ensures NormalizedName(NormalizedName(name, lower), lower) == NormalizedName(name, lower)
  {
    CollapsedHasOneDashEach(name);
    OneDashEachIsCollapsed(lower(Collapsed(name)));
  }

  /** Lowering the basic Latin letters, all a package name may hold, is such a lowering. */
  lemma LatinLowersWell()
    ensures LowersWell(LowerText)
  {
    forall s ensures LowerText(LowerText(s)) == LowerText(s) {
      forall i | 0 <= i < |s| ensures LowerText(LowerText(s))[i] == LowerText(s)[i] {}
    }
    forall s | OneDashEach(s) ensures OneDashEach(LowerText(s)) {
      forall i | 0 <= i < |s| ensures IsSeparator(LowerText(s)[i]) <==> IsSeparator(s[i]) {}
    }
  }

  // ---------------------------------------------------------------- lock entries

  function Lookup(fields: seq<Field>, key: string): Option<Value> {
    if fields == [] then None
    else if fields[0].key == key then Some(fields[0].value)
    else Lookup(fields[1..], key)
  }

  function Get(v: Value, key: string): Option<Value> {
    if v.Table? then Lookup(v.fields, key) else None
  }

  predicate HasName(v: Value) { Get(v, "name").Some? && Get(v, "name").value.Text? }

  function NameOf(v: Value): string { if HasName(v) then Get(v, "name").value.text else "" }

  /** `_is_links`. */
  predicate IsLinks(v: Value) { v.List? && forall i :: 0 <= i < |v.items| ==> HasName(v.items[i]) }

  /** What `_lock_packages` checks of an entry. */
  predicate IsEntry(v: Value) {
    && HasName(v)
    && (Get(v, "dependencies").Some? ==> IsLinks(Get(v, "dependencies").value))
    && (Get(v, "optional-dependencies").Some? ==>
          var optional := Get(v, "optional-dependencies").value;
          optional.Table? && forall i :: 0 <= i < |optional.fields| ==> IsLinks(optional.fields[i].value))
  }

  predicate AllEntries(packages: seq<Value>) { forall i :: 0 <= i < |packages| ==> IsEntry(packages[i]) }

  function ItemsOf(v: Option<Value>): seq<Value> { if v.Some? && v.value.List? then v.value.items else [] }

  function DependencyLinks(entry: Value): seq<Value> { ItemsOf(Get(entry, "dependencies")) }

  function OptionalSets(entry: Value): seq<Field> {
    var optional := Get(entry, "optional-dependencies");
    if optional.Some? && optional.value.Table? then optional.value.fields else []
  }

  function Concat(sets: seq<Field>): seq<Value> {
    if sets == [] then [] else ItemsOf(Some(sets[0].value)) + Concat(sets[1..])
  }

  /** `_root_links`: the core dependencies and the `box` extra. */
  function RootLinks(root: Value): seq<Value> {
    DependencyLinks(root) + ItemsOf(Lookup(OptionalSets(root), BOX_EXTRA))
  }

  /** `_entry_links`: the dependencies and every optional set. */
  function EntryLinks(entry: Value): seq<Value> {
    DependencyLinks(entry) + Concat(OptionalSets(entry))
  }

  predicate Links(links: seq<Value>, name: string) {
    exists i :: 0 <= i < |links| && NameOf(links[i]) == name
  }

  // ---------------------------------------------------------------- reachability

  ghost predicate Carries(packages: seq<Value>, name: string) {
    exists i :: 0 <= i < |packages| && NameOf(packages[i]) == name
  }

  ghost predicate RootLinksTo(packages: seq<Value>, root: string, name: string) {
    exists i :: 0 <= i < |packages| && NameOf(packages[i]) == root && Links(RootLinks(packages[i]), name)
  }

  ghost predicate LinksTo(packages: seq<Value>, name: string, next: string) {
    exists i :: 0 <= i < |packages| && NameOf(packages[i]) == name && Links(EntryLinks(packages[i]), next)
  }

  /** A chain of links from the root. */
  ghost predicate IsChain(packages: seq<Value>, root: string, chain: seq<string>) {
    && chain != [] && RootLinksTo(packages, root, chain[0])
    && forall i :: 0 <= i < |chain| - 1 ==> LinksTo(packages, chain[i], chain[i + 1])
  }

  ghost predicate Reachable(packages: seq<Value>, root: string, name: string) {
    exists chain :: IsChain(packages, root, chain) && chain[|chain| - 1] == name
  }

  lemma ReachableFromRoot(packages: seq<Value>, root: string, name: string)
    requires RootLinksTo(packages, root, name)
    ensures Reachable(packages, root, name)
  {
    assert IsChain(packages, root, [name]);
  }

  lemma ReachableOnward(packages: seq<Value>, root: string, name: string, next: string)
    requires Reachable(packages, root, name) && LinksTo(packages, name, next)
    ensures Reachable(packages, root, next)
  {
    hide LinksTo, RootLinksTo;
    var chain :| IsChain(packages, root, chain) && chain[|chain| - 1] == name;
    var longer := chain + [next];
    forall i | 0 <= i < |longer| - 1 ensures LinksTo(packages, longer[i], longer[i + 1]) {
      if i < |chain| - 1 { assert longer[i] == chain[i] && longer[i + 1] == chain[i + 1]; }
    }
    assert IsChain(packages, root, longer) && longer[|longer| - 1] == next;
  }

  /** A set holding what the root links to and closed under links holds everything reachable. */
  lemma {:induction false} ClosedHoldsChain(packages: seq<Value>, root: string, chain: seq<string>, closed: set<string>)
    requires IsChain(packages, root, chain)
    requires forall n :: RootLinksTo(packages, root, n) ==> n in closed
    requires forall n, m :: n in closed && LinksTo(packages, n, m) ==> m in closed
    ensures chain[|chain| - 1] in closed
    decreases |chain|
  {
    if |chain| > 1 {
      var shorter := chain[..|chain| - 1];
      assert IsChain(packages, root, shorter);
      ClosedHoldsChain(packages, root, shorter, closed);
      assert LinksTo(packages, chain[|chain| - 2], chain[|chain| - 1]);
    }
  }

  lemma ClosedHoldsReachable(packages: seq<Value>, root: string, closed: set<string>)
    requires forall n :: RootLinksTo(packages, root, n) ==> n in closed
    requires forall n, m :: n in closed && LinksTo(packages, n, m) ==> m in closed
    ensures forall n :: Reachable(packages, root, n) ==> n in closed
  {
    forall n | Reachable(packages, root, n) ensures n in closed {
      var chain :| IsChain(packages, root, chain) && chain[|chain| - 1] == n;
      ClosedHoldsChain(packages, root, chain, closed);
    }
  }

  /** The elements a test keeps, in order. */
  ghost function Keep(s: seq<Value>, test: Value -> bool): seq<Value> {
    if s == [] then [] else (if test(s[0]) then [s[0]] else []) + Keep(s[1..], test)
  }

  ghost function Reached(packages: seq<Value>, root: string): Value -> bool {
    e => Reachable(packages, root, NameOf(e))
  }

  /** The entries whose names are reachable, in lock order. */
  ghost function Closure(packages: seq<Value>, root: string): seq<Value> {
    Keep(packages, Reached(packages, root))
  }

  /** Every name the walk needs has an entry. */
  ghost predicate Complete(packages: seq<Value>, root: string) {
    Carries(packages, root) && forall n :: Reachable(packages, root, n) ==> Carries(packages, n)
  }

  // ---------------------------------------------------------------- the worklist

  datatype Result = Entries(entries: seq<Value>) | MissingLockEntry(name: string)

  function NamesOf(links: seq<Value>): (r: seq<string>)
    ensures forall n :: n in r <==> Links(links, n)
  {
    if links == [] then [] else
      var rest := NamesOf(links[1..]);
      assert forall n :: Links(links, n) <==> n == NameOf(links[0]) || Links(links[1..], n) by { LinksSplit(links); }
      [NameOf(links[0])] + rest
  }

  lemma LinksSplit(links: seq<Value>)
    requires links != []
    ensures forall n :: Links(links, n) <==> n == NameOf(links[0]) || Links(links[1..], n)
  {
    forall n ensures Links(links, n) <==> n == NameOf(links[0]) || Links(links[1..], n) {
      if Links(links[1..], n) {
        var i :| 0 <= i < |links[1..]| && NameOf(links[1..][i]) == n;
        assert links[i + 1] == links[1..][i];
      }
      if Links(links, n) && n != NameOf(links[0]) {
        var i :| 0 <= i < |links| && NameOf(links[i]) == n;
        assert links[1..][i - 1] == links[i];
      }
    }
  }

  /** Every name any entry links to: what the walk can ever push. */
  ghost function Universe(packages: seq<Value>): (r: set<string>)
    ensures forall i, n :: 0 <= i < |packages| && Links(EntryLinks(packages[i]), n) ==> n in r
    ensures forall i, n :: 0 <= i < |packages| && Links(RootLinks(packages[i]), n) ==> n in r
  {
    if packages == [] then {} else
      var first := packages[0];
      var mine := NamesOf(EntryLinks(first)) + NamesOf(RootLinks(first));
      assert forall i :: 0 < i < |packages| ==> packages[i] == packages[1..][i - 1];
      (set n | n in mine) + Universe(packages[1..])
  }

  /** `byName` says where each name's entries stand among the first `k`. */
  ghost predicate Indexed(packages: seq<Value>, byName: map<string, seq<nat>>, k: nat)
    requires k <= |packages|
  {
    && (forall n :: n in byName <==> Carries(packages[..k], n))
    && (forall n :: n in byName ==> Positions(packages, byName[n], n, k))
  }

  ghost predicate Positions(packages: seq<Value>, positions: seq<nat>, name: string, k: nat)
    requires k <= |packages|
  {
    forall i: nat :: i in positions <==> i < k && NameOf(packages[i]) == name
  }

  lemma OneMorePosition(packages: seq<Value>, positions: seq<nat>, name: string, k: nat)
    requires k < |packages| && Positions(packages, positions, name, k)
    ensures Positions(packages, if NameOf(packages[k]) == name then positions + [k] else positions, name, k + 1)
  {
  }

  lemma CarriesOneMore(packages: seq<Value>, k: nat)
    requires k < |packages|
    ensures forall n :: Carries(packages[..k + 1], n) <==> Carries(packages[..k], n) || n == NameOf(packages[k])
  {
    forall n ensures Carries(packages[..k + 1], n) <==> Carries(packages[..k], n) || n == NameOf(packages[k]) {
      if Carries(packages[..k], n) {
        var i :| 0 <= i < k && NameOf(packages[..k][i]) == n;
        assert packages[..k + 1][i] == packages[..k][i];
      }
      if Carries(packages[..k + 1], n) {
        var i :| 0 <= i < k + 1 && NameOf(packages[..k + 1][i]) == n;
        if i < k { assert packages[..k][i] == packages[..k + 1][i]; }
      }
      assert packages[..k + 1][k] == packages[k];
    }
  }

  lemma NoPositions(packages: seq<Value>, name: string, k: nat)
    requires k <= |packages| && !Carries(packages[..k], name)
    ensures Positions(packages, [], name, k)
  {
    forall i: nat | i < k ensures NameOf(packages[i]) != name { assert packages[..k][i] == packages[i]; }
  }

  lemma NothingCarried()
    ensures forall n :: !Carries([], n)
  {
  }

  /** `by_name`. */
  method IndexByName(packages: seq<Value>) returns (byName: map<string, seq<nat>>)
    ensures Indexed(packages, byName, |packages|)
  {
    hide Positions, Carries;
    byName := map[];
    NothingCarried();
    for k := 0 to |packages|
      invariant Indexed(packages, byName, k)
    {
      var name := NameOf(packages[k]);
      CarriesOneMore(packages, k);
      forall n | n in byName
        ensures Positions(packages, if name == n then byName[n] + [k] else byName[n], n, k + 1)
      {
        OneMorePosition(packages, byName[n], n, k);
      }
      if name !in byName {
        NoPositions(packages, name, k);
        OneMorePosition(packages, [], name, k);
      }
      byName := byName[name := (if name in byName then byName[name] else []) + [k]];
    }
  }

  ghost predicate LinkedFrom(packages: seq<Value>, positions: seq<nat>, ofRoot: bool, name: string) {
    exists i: nat :: i in positions && i < |packages| &&
      Links(if ofRoot then RootLinks(packages[i]) else EntryLinks(packages[i]), name)
  }

  /** The names the entries at `positions` link to. */
  method LinkedNames(packages: seq<Value>, positions: seq<nat>, ofRoot: bool) returns (names: seq<string>)
    requires forall i: nat :: i in positions ==> i < |packages|
    ensures forall n :: n in names <==> LinkedFrom(packages, positions, ofRoot, n)
  {
    names := [];
    for k := 0 to |positions|
      invariant forall n :: n in names <==> LinkedFrom(packages, positions[..k], ofRoot, n)
    {
      var at := positions[k];
      assert at in positions;
      var links := if ofRoot then RootLinks(packages[at]) else EntryLinks(packages[at]);
      assert positions[..k + 1] == positions[..k] + [at];
      names := names + NamesOf(links);
    }
    assert positions[..|positions|] == positions;
  }

  lemma LinkedFromIndex(packages: seq<Value>, byName: map<string, seq<nat>>, name: string)
    requires Indexed(packages, byName, |packages|) && name in byName
    ensures forall n :: LinkedFrom(packages, byName[name], true, n) <==> RootLinksTo(packages, name, n)
    ensures forall n :: LinkedFrom(packages, byName[name], false, n) <==> LinksTo(packages, name, n)
    ensures forall n :: n in byName <==> Carries(packages, n)
    ensures forall i: nat :: i in byName[name] ==> i < |packages|
  {
    assert packages[..|packages|] == packages;
    assert Positions(packages, byName[name], name, |packages|);
    forall n
      ensures LinkedFrom(packages, byName[name], true, n) <==> RootLinksTo(packages, name, n)
      ensures LinkedFrom(packages, byName[name], false, n) <==> LinksTo(packages, name, n)
    {
      if RootLinksTo(packages, name, n) {
        var i :| 0 <= i < |packages| && NameOf(packages[i]) == name && Links(RootLinks(packages[i]), n);
        assert i in byName[name];
      }
      if LinksTo(packages, name, n) {
        var i :| 0 <= i < |packages| && NameOf(packages[i]) == name && Links(EntryLinks(packages[i]), n);
        assert i in byName[name];
      }
    }
  }

  /** What the walk has established: everything pushed is reachable, and what has been walked is
      closed up to what is still on the stack. */
  ghost predicate Walked(packages: seq<Value>, root: string, stack: seq<string>, walked: set<string>) {
    && (forall n :: n in stack ==> Reachable(packages, root, n))
    && (forall n :: n in walked ==> Reachable(packages, root, n) && Carries(packages, n))
    && (forall n :: RootLinksTo(packages, root, n) ==> n in walked || n in stack)
    && (forall n, m :: n in walked && LinksTo(packages, n, m) ==> m in walked || m in stack)
  }

  lemma StackSplit(stack: seq<string>)
    requires stack != []
    ensures forall n :: n in stack <==> n in stack[..|stack| - 1] || n == stack[|stack| - 1]
  {
    assert stack == stack[..|stack| - 1] + [stack[|stack| - 1]];
  }

  lemma WalkOneName(packages: seq<Value>, root: string, stack: seq<string>, walked: set<string>, names: seq<string>)
    requires stack != [] && Walked(packages, root, stack, walked)
    requires var name := stack[|stack| - 1];
             Carries(packages, name) && forall n :: n in names <==> LinksTo(packages, name, n)
    ensures Walked(packages, root, stack[..|stack| - 1] + names, walked + {stack[|stack| - 1]})
  {
    hide Reachable, LinksTo, RootLinksTo, Carries;
    var name := stack[|stack| - 1];
    StackSplit(stack);
    assert name in stack;
    forall n | n in names ensures Reachable(packages, root, n) { ReachableOnward(packages, root, name, n); }
  }

  lemma SkipWalkedName(packages: seq<Value>, root: string, stack: seq<string>, walked: set<string>)
    requires stack != [] && Walked(packages, root, stack, walked) && stack[|stack| - 1] in walked
    ensures Walked(packages, root, stack[..|stack| - 1], walked)
  {
    hide Reachable, LinksTo, RootLinksTo, Carries;
    StackSplit(stack);
  }

  lemma WalkStarts(packages: seq<Value>, root: string, names: seq<string>)
    requires forall n :: n in names <==> RootLinksTo(packages, root, n)
    ensures Walked(packages, root, names, {})
  {
    forall n | n in names ensures Reachable(packages, root, n) { ReachableFromRoot(packages, root, n); }
  }

  lemma LinksAreInUniverse(packages: seq<Value>, root: string, n: string)
    requires RootLinksTo(packages, root, n) || LinksTo(packages, root, n)
    ensures n in Universe(packages)
  {
  }

  /** `reached` holds exactly the positions of walked names. */
  ghost predicate Marks(packages: seq<Value>, reached: set<nat>, walked: set<string>) {
    forall i: nat :: i in reached <==> i < |packages| && NameOf(packages[i]) in walked
  }

  lemma MarkOneName(
    packages: seq<Value>, byName: map<string, seq<nat>>, reached: set<nat>, walked: set<string>, name: string)
    requires Indexed(packages, byName, |packages|) && name in byName && Marks(packages, reached, walked)
    ensures Marks(packages, reached + (set i | i in byName[name]), walked + {name})
  {
    assert Positions(packages, byName[name], name, |packages|);
  }

  /** `box_closure`: the reachable entries in lock order, or a name the lock does not carry. */
  method BoxClosure(packages: seq<Value>, rootName: string, lower: Lowering) returns (r: Result)
    requires AllEntries(packages)
    ensures var root := NormalizedName(rootName, lower);
            && (r.Entries? <==> Complete(packages, root))
            && (r.Entries? ==> r.entries == Closure(packages, root))
            && (r.MissingLockEntry? ==>
                  !Carries(packages, r.name) && (r.name == root || Reachable(packages, root, r.name)))
  {
    hide Reachable, LinksTo, RootLinksTo, LinkedFrom, Indexed, Marks, IsEntry;
    var root := NormalizedName(rootName, lower);
    var byName := IndexByName(packages);
    NamesAreCarried(packages, byName);
    if root !in byName { return MissingLockEntry(root); }
    LinkedFromIndex(packages, byName, root);
    var stack := LinkedNames(packages, byName[root], true);
    var walked: set<string>, reached: set<nat> := {}, {};
    WalkStarts(packages, root, stack);
    NothingMarked(packages);
    forall n | n in stack ensures n in Universe(packages) { LinksAreInUniverse(packages, root, n); }
    while stack != []
      invariant Walked(packages, root, stack, walked) && Marks(packages, reached, walked)
      invariant forall n :: n in stack ==> n in Universe(packages)
      decreases Universe(packages) - walked, |stack|
    {
      var name := stack[|stack| - 1];
      assert name in stack;
      StackSplit(stack);
      if name in walked {
        SkipWalkedName(packages, root, stack, walked);
        stack := stack[..|stack| - 1];
      } else {
        if name !in byName { return MissingLockEntry(name); }
        LinkedFromIndex(packages, byName, name);
        var names := LinkedNames(packages, byName[name], false);
        forall n | n in names ensures n in Universe(packages) { LinksAreInUniverse(packages, name, n); }
        WalkOneName(packages, root, stack, walked, names);
        MarkOneName(packages, byName, reached, walked, name);
        reached := reached + (set i | i in byName[name]);
        walked := walked + {name};
        stack := stack[..|stack| - 1] + names;
      }
    }
    ClosedHoldsReachable(packages, root, walked);
    KeptIsClosure(packages, packages, root, reached, walked, 0);
    r := Entries(KeptInOrder(packages, reached, 0));
  }

  lemma NamesAreCarried(packages: seq<Value>, byName: map<string, seq<nat>>)
    requires Indexed(packages, byName, |packages|)
    ensures forall n :: n in byName <==> Carries(packages, n)
  {
    assert packages[..|packages|] == packages;
  }

  lemma NothingMarked(packages: seq<Value>)
    ensures Marks(packages, {}, {})
  {
  }

  /** The final comprehension: the entries whose position was reached, in lock order. */
  function KeptInOrder(rest: seq<Value>, reached: set<nat>, from: nat): seq<Value> {
    if rest == [] then []
    else (if from in reached then [rest[0]] else []) + KeptInOrder(rest[1..], reached, from + 1)
  }

  lemma {:induction false} KeptIsClosure(
    packages: seq<Value>, rest: seq<Value>, root: string, reached: set<nat>, walked: set<string>, from: nat)
    requires from + |rest| == |packages| && rest == packages[from..]
    requires forall n :: n in walked <==> Reachable(packages, root, n)
    requires Marks(packages, reached, walked)
    ensures KeptInOrder(rest, reached, from) == Keep(rest, Reached(packages, root))
    decreases |rest|
  {
    if rest != [] {
      assert rest[0] == packages[from];
      KeptIsClosure(packages, rest[1..], root, reached, walked, from + 1);
    }
  }
}
