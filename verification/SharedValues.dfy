/** Refusing a value whose parts are shared or cyclic (`defender/_yaml.py`, `refuse_shared`).

    A value is a node of a finite object graph. The walk is iterative and keyed by identity; it
    accepts exactly the values in which no mutable container stands at two root paths. */
module SharedValues {

  type Id = nat

  /** An object: a leaf, an immutable container (a tuple, a frozen set, a read-only mapping) or a
      mutable one. A mapping's children are its values. */
  datatype Object =
    | Leaf
    | Frozen(parts: seq<Id>)
    | Mutable(parts: seq<Id>)

  type Graph = map<Id, Object>

  function Children(o: Object): seq<Id> {
    if o.Leaf? then [] else o.parts
  }

  ghost predicate Closed(g: Graph) {
    forall x, k :: x in g && 0 <= k < |Children(g[x])| ==> Children(g[x])[k] in g
  }

  // ---------------------------------------------------------------- root paths

  /** A root path is the child indices taken from the root, so a container listed twice by one
      parent stands at two places. */
  type Path = seq<nat>

  ghost predicate IsPath(g: Graph, root: Id, p: Path)
    requires Closed(g) && root in g
    decreases |p|
  {
    p == [] || (p[0] < |Children(g[root])| && IsPath(g, Children(g[root])[p[0]], p[1..]))
  }

  ghost function Target(g: Graph, root: Id, p: Path): (x: Id)
    requires Closed(g) && root in g && IsPath(g, root, p)
    ensures x in g
    decreases |p|
  {
    if p == [] then root else Target(g, Children(g[root])[p[0]], p[1..])
  }

  /** Two places hold one mutable container. */
  ghost predicate Clash(g: Graph, root: Id, p: Path, q: Path)
    requires Closed(g) && root in g
  {
    && p != q
    && IsPath(g, root, p) && IsPath(g, root, q)
    && Target(g, root, p) == Target(g, root, q)
    && g[Target(g, root, p)].Mutable?
  }

  ghost predicate Shared(g: Graph, root: Id)
    requires Closed(g) && root in g
  {
    exists p, q :: Clash(g, root, p, q)
  }

  lemma {:induction false} ExtendPath(g: Graph, root: Id, p: Path, k: nat)
    requires Closed(g) && root in g && IsPath(g, root, p)
    ensures IsPath(g, root, p + [k]) <==> k < |Children(g[Target(g, root, p)])|
    ensures IsPath(g, root, p + [k]) ==>
              Target(g, root, p + [k]) == Children(g[Target(g, root, p)])[k]
    decreases |p|
  {
    if p == [] {
      assert [k][1..] == [];
      assert p + [k] == [k];
      if k < |Children(g[root])| {
        var c := Children(g[root])[k];
        assert IsPath(g, c, []) && Target(g, c, []) == c;
      }
    } else {
      assert (p + [k])[0] == p[0] && (p + [k])[1..] == p[1..] + [k];
      ExtendPath(g, Children(g[root])[p[0]], p[1..], k);
    }
  }

  lemma {:induction false} PathPrefix(g: Graph, root: Id, p: Path, n: nat)
    requires Closed(g) && root in g && IsPath(g, root, p) && n <= |p|
    ensures IsPath(g, root, p[..n])
    decreases n
  {
    if n > 0 {
      assert p[..n][0] == p[0] && p[..n][1..] == p[1..][..n - 1];
      PathPrefix(g, Children(g[root])[p[0]], p[1..], n - 1);
    }
  }

  /** A container, of either kind, that lists one mutable container twice shares it. */
  lemma ListedTwiceIsShared(g: Graph, root: Id, p: Path, i: nat, j: nat)
    requires Closed(g) && root in g && IsPath(g, root, p) && !g[Target(g, root, p)].Leaf?
    requires i < j < |g[Target(g, root, p)].parts|
    requires var parts := g[Target(g, root, p)].parts; parts[i] == parts[j] && parts[i] in g && g[parts[i]].Mutable?
    ensures Shared(g, root)
  {
    ExtendPath(g, root, p, i);
    ExtendPath(g, root, p, j);
    assert (p + [i])[|p|] != (p + [j])[|p|];
    assert Clash(g, root, p + [i], p + [j]);
  }

  /** So is a mutable container that is listed by itself, or by anything below it. */
  lemma ListedBelowItselfIsShared(g: Graph, root: Id, p: Path, below: Path)
    requires Closed(g) && root in g && IsPath(g, root, p) && g[Target(g, root, p)].Mutable? && below != []
    requires IsPath(g, root, p + below) && Target(g, root, p + below) == Target(g, root, p)
    ensures Shared(g, root)
  {
    assert |p + below| != |p|;
    assert Clash(g, root, p, p + below);
  }

  // ---------------------------------------------------------------- cycles and termination

  /** A walk along immutable containers only. */
  ghost predicate FrozenChain(g: Graph, chain: seq<Id>) {
    && (forall i :: 0 <= i < |chain| ==> chain[i] in g && g[chain[i]].Frozen?)
    && (forall i :: 0 <= i < |chain| - 1 ==> chain[i + 1] in g[chain[i]].parts)
  }

  ghost predicate FrozenCycle(g: Graph, chain: seq<Id>) {
    FrozenChain(g, chain) && |chain| >= 2 && chain[0] == chain[|chain| - 1]
  }

  /** The hypothesis on the value: every cycle passes through a mutable container. Tuples and frozen
      sets cannot break it, holding only what existed before them; a read-only view of a mapping that
      holds the view does, and on that cycle of views the walk would not end. */
  ghost predicate CyclesAreMutable(g: Graph) {
    forall chain :: !FrozenCycle(g, chain)
  }

  ghost predicate FrozenReaches(g: Graph, x: Id, y: Id) {
    exists chain :: FrozenChain(g, chain) && |chain| >= 2 && chain[0] == x && chain[|chain| - 1] == y
  }

  ghost function FrozenBelow(g: Graph, x: Id): set<Id> {
    set y | y in g && FrozenReaches(g, x, y)
  }

  /** One step along an immutable link leaves strictly less below. */
  lemma FrozenBelowShrinks(g: Graph, x: Id, c: Id)
    requires CyclesAreMutable(g)
    requires x in g && g[x].Frozen? && c in g[x].parts && c in g && g[c].Frozen?
    ensures FrozenBelow(g, c) < FrozenBelow(g, x)
  {
    assert FrozenChain(g, [x, c]);
    assert c in FrozenBelow(g, x);
    forall y | y in FrozenBelow(g, c)
      ensures y in FrozenBelow(g, x)
    {
      var chain :| FrozenChain(g, chain) && |chain| >= 2 && chain[0] == c && chain[|chain| - 1] == y;
      assert FrozenChain(g, [x] + chain);
    }
    if c in FrozenBelow(g, c) {
      var chain :| FrozenChain(g, chain) && |chain| >= 2 && chain[0] == c && chain[|chain| - 1] == c;
      assert FrozenCycle(g, chain);
    }
  }

  /** Steps an entry can cost before a mutable container is met. */
  ghost function Weight(g: Graph, x: Id): (w: nat)
    requires Closed(g) && CyclesAreMutable(g) && x in g
    ensures w >= 1
    decreases FrozenBelow(g, x), 1
  {
    if g[x].Frozen? then
      assert Children(g[x]) == g[x].parts;
      assert forall k :: 0 <= k < |g[x].parts| ==> g[x].parts[k] in g;
      1 + WeightOf(g, x, g[x].parts)
    else 1
  }

  ghost function WeightOf(g: Graph, x: Id, parts: seq<Id>): nat
    requires Closed(g) && CyclesAreMutable(g) && x in g && g[x].Frozen?
    requires forall k :: 0 <= k < |parts| ==> parts[k] in g[x].parts && parts[k] in g
    decreases FrozenBelow(g, x), 0, |parts|
  {
    if parts == [] then 0 else
      var c := parts[0];
      var w := if g[c].Frozen? then FrozenBelowShrinks(g, x, c); Weight(g, c) else 1;
      w + WeightOf(g, x, parts[1..])
  }

  ghost predicate AllIn(g: Graph, stack: seq<Id>) {
    forall i :: 0 <= i < |stack| ==> stack[i] in g
  }

  ghost function StackWeight(g: Graph, stack: seq<Id>): nat
    requires Closed(g) && CyclesAreMutable(g) && AllIn(g, stack)
    decreases |stack|
  {
    if stack == [] then 0 else StackWeight(g, stack[..|stack| - 1]) + Weight(g, stack[|stack| - 1])
  }

  lemma {:induction false} WeightOfIsStackWeight(g: Graph, x: Id, stack: seq<Id>, parts: seq<Id>)
    requires Closed(g) && CyclesAreMutable(g) && x in g && g[x].Frozen? && AllIn(g, stack)
    requires forall k :: 0 <= k < |parts| ==> parts[k] in g[x].parts && parts[k] in g
    ensures AllIn(g, stack + parts)
    ensures StackWeight(g, stack + parts) == StackWeight(g, stack) + WeightOf(g, x, parts)
    decreases |parts|
  {
    if parts == [] {
      assert stack + parts == stack;
    } else {
      var pushed := stack + [parts[0]];
      assert pushed[..|pushed| - 1] == stack;
      assert pushed + parts[1..] == stack + parts;
      WeightOfIsStackWeight(g, x, pushed, parts[1..]);
    }
  }

  // ---------------------------------------------------------------- the walk's bookkeeping

  /** What the walk has established: `done` are the places popped, `places[i]` the place the
      `i`-th stack entry was pushed from, `first[m]` the place the mutable `m` was met at. */
  ghost predicate Bookkept(g: Graph, root: Id, stack: seq<Id>, seen: set<Id>,
                           places: seq<Path>, done: set<Path>, first: map<Id, Path>)
    requires Closed(g) && root in g
  {
    && OnStack(g, root, stack, places)
    && Apart(places, done)
    && (forall q :: IsPath(g, root, q) ==> Covered(places, done, q))
    && MetOnce(g, root, seen, done, first)
  }

  ghost predicate OnStack(g: Graph, root: Id, stack: seq<Id>, places: seq<Path>)
    requires Closed(g) && root in g
  {
    && |places| == |stack|
    && forall i :: 0 <= i < |stack| ==> IsPath(g, root, places[i]) && Target(g, root, places[i]) == stack[i]
  }

  /** No place waiting on the stack is at or above another, or at or above a popped one. */
  ghost predicate Apart(places: seq<Path>, done: set<Path>) {
    && (forall i, j :: 0 <= i < |places| && 0 <= j < |places| && i != j ==> !(places[i] <= places[j]))
    && (forall i, q :: 0 <= i < |places| && q in done ==> !(places[i] <= q))
  }

  ghost predicate MetOnce(g: Graph, root: Id, seen: set<Id>, done: set<Path>, first: map<Id, Path>)
    requires Closed(g) && root in g
  {
    && first.Keys == seen
    && (forall q :: q in done ==> IsPath(g, root, q))
    && (forall q :: q in done && g[Target(g, root, q)].Mutable? ==>
          Target(g, root, q) in seen && first[Target(g, root, q)] == q)
    && (forall m :: m in seen ==>
          m in g && g[m].Mutable? && first[m] in done && Target(g, root, first[m]) == m)
  }

  ghost function ChildPlaces(p: Path, n: nat): (r: seq<Path>)
    ensures |r| == n
    ensures forall k :: 0 <= k < n ==> r[k] == p + [k]
  {
    seq(n, k => p + [k])
  }

  lemma ChildrenOnStack(g: Graph, root: Id, stack: seq<Id>, places: seq<Path>)
    requires Closed(g) && root in g && stack != [] && OnStack(g, root, stack, places)
    ensures var top := stack[|stack| - 1]; var at := places[|stack| - 1];
            top in g && OnStack(g, root, stack[..|stack| - 1] + Children(g[top]),
                                places[..|stack| - 1] + ChildPlaces(at, |Children(g[top])|))
  {
    var at := places[|stack| - 1];
    var top := stack[|stack| - 1];
    forall k: nat | k < |Children(g[top])|
      ensures IsPath(g, root, at + [k]) && Target(g, root, at + [k]) == Children(g[top])[k]
    {
      ExtendPath(g, root, at, k);
    }
  }

  lemma AroundChild(a: Path, at: Path, k: nat)
    ensures a <= at + [k] ==> a <= at || at <= a
    ensures at + [k] <= a ==> at <= a
  {
    if a <= at + [k] && |a| <= |at| { assert a == at[..|a|]; }
  }

  lemma ChildrenApart(places: seq<Path>, done: set<Path>, n: nat)
    requires places != [] && Apart(places, done)
    ensures var at := places[|places| - 1];
            Apart(places[..|places| - 1] + ChildPlaces(at, n), done + {at})
  {
    var last := |places| - 1;
    var at := places[last];
    var kids := ChildPlaces(at, n);
    var now := places[..last] + kids;
    forall i, j | 0 <= i < |now| && 0 <= j < |now| && i != j
      ensures !(now[i] <= now[j])
    {
      if j >= last && i < last {
        AroundChild(now[i], at, j - last);
      } else if i >= last && j < last {
        AroundChild(now[j], at, i - last);
      } else if i >= last {
        assert now[i][|at|] == i - last && now[j][|at|] == j - last;
      }
    }
    forall i, q | 0 <= i < |now| && q in done + {at}
      ensures !(now[i] <= q)
    {
      if i >= last { AroundChild(q, at, i - last); }
    }
  }

  lemma NextChild(g: Graph, root: Id, at: Path, q: Path) returns (k: nat)
    requires Closed(g) && root in g && IsPath(g, root, at) && IsPath(g, root, q)
    requires at <= q && at != q
    ensures k < |Children(g[Target(g, root, at)])| && at + [k] <= q
  {
    k := q[|at|];
    assert q[..|at| + 1] == at + [k];
    PathPrefix(g, root, q, |at| + 1);
    ExtendPath(g, root, at, k);
  }

  ghost predicate Covered(places: seq<Path>, done: set<Path>, q: Path) {
    q in done || exists i :: 0 <= i < |places| && places[i] <= q
  }

  lemma ChildrenCover(g: Graph, root: Id, places: seq<Path>, done: set<Path>, q: Path)
    requires Closed(g) && root in g && places != [] && IsPath(g, root, places[|places| - 1])
    requires IsPath(g, root, q) && Covered(places, done, q)
    ensures var at := places[|places| - 1]; var n := |Children(g[Target(g, root, at)])|;
            Covered(places[..|places| - 1] + ChildPlaces(at, n), done + {at}, q)
  {
    hide IsPath, Target;
    var last := |places| - 1;
    var at := places[last];
    if q !in done + {at} {
      var now := places[..last] + ChildPlaces(at, |Children(g[Target(g, root, at)])|);
      var i :| 0 <= i < |places| && places[i] <= q;
      if i < last {
        assert now[i] == places[i];
      } else {
        var k := NextChild(g, root, at, q);
        assert now[last + k] == at + [k];
      }
    }
  }

  lemma PoppedStaysBookkept(g: Graph, root: Id, stack: seq<Id>, seen: set<Id>,
                            places: seq<Path>, done: set<Path>, first: map<Id, Path>)
    requires Closed(g) && root in g && stack != []
    requires Bookkept(g, root, stack, seen, places, done, first)
    requires stack[|stack| - 1] in g
    requires g[stack[|stack| - 1]].Mutable? ==> stack[|stack| - 1] !in seen
    ensures var top := stack[|stack| - 1]; var at := places[|stack| - 1]; var kids := Children(g[top]);
            var met := g[top].Mutable?;
            Bookkept(g, root, stack[..|stack| - 1] + kids, if met then seen + {top} else seen,
                     places[..|stack| - 1] + ChildPlaces(at, |kids|), done + {at},
                     if met then first[top := at] else first)
  {
    var last := |stack| - 1;
    var n := |Children(g[stack[last]])|;
    ChildrenOnStack(g, root, stack, places);
    ChildrenApart(places, done, n);
    forall q | IsPath(g, root, q)
      ensures Covered(places[..last] + ChildPlaces(places[last], n), done + {places[last]}, q)
    {
      ChildrenCover(g, root, places, done, q);
    }
  }

  lemma EmptyStackMeansTree(g: Graph, root: Id, seen: set<Id>, done: set<Path>, first: map<Id, Path>)
    requires Closed(g) && root in g
    requires Bookkept(g, root, [], seen, [], done, first)
    ensures !Shared(g, root)
  {
    forall p, q
      ensures !Clash(g, root, p, q)
    {
      assert IsPath(g, root, p) ==> Covered([], done, p);
      assert IsPath(g, root, q) ==> Covered([], done, q);
    }
  }

  // ---------------------------------------------------------------- the walk

  ghost function Unmet(g: Graph, seen: set<Id>): set<Id> {
    set x | x in g && g[x].Mutable? && x !in seen
  }

  /** `refuse_shared`: refused exactly when some mutable container stands at two root paths,
      being inside itself included. */
  method RefuseShared(g: Graph, root: Id) returns (refused: bool)
    requires Closed(g) && root in g
    requires CyclesAreMutable(g)
    ensures refused <==> Shared(g, root)
  {
    var seen: set<Id> := {};
    var stack := [root];
    ghost var places: seq<Path>, done: set<Path>, first: map<Id, Path> := [[]], {}, map[];
    while stack != []
      invariant Bookkept(g, root, stack, seen, places, done, first)
      invariant AllIn(g, stack)
      decreases Unmet(g, seen), StackWeight(g, stack)
    {
      ghost var was, wasSeen := stack, seen;
      var node := stack[|stack| - 1];
      stack := stack[..|stack| - 1];
      var met := false;
      if g[node].Mutable? {
        if node in seen {
          assert Clash(g, root, places[|was| - 1], first[node]);
          return true;
        }
        assert node in Unmet(g, wasSeen) && node !in Unmet(g, seen + {node});
        seen := seen + {node};
        met := true;
      }
      PoppedStaysBookkept(g, root, was, wasSeen, places, done, first);
      places, done, first :=
        places[..|was| - 1] + ChildPlaces(places[|was| - 1], |Children(g[node])|),
        done + {places[|was| - 1]},
        if met then first[node := places[|was| - 1]] else first;
      if g[node].Frozen? { WeightOfIsStackWeight(g, node, stack, g[node].parts); }
      assert g[node].Leaf? ==> stack + Children(g[node]) == stack;
      stack := stack + Children(g[node]);
    }
    EmptyStackMeansTree(g, root, seen, done, first);
    return false;
  }
}
