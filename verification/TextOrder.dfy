/** Text order, and a stable sort by a text key: what `sorted(..., key=...)` does. */
module TextOrder {

  /** By code point, a proper prefix first. */
  predicate TextLess(a: string, b: string) {
    b != "" && (a == "" || a[0] < b[0] || (a[0] == b[0] && TextLess(a[1..], b[1..])))
  }

  lemma {:induction false} TextIrreflexive(a: string)
    ensures !TextLess(a, a)
  {
    if a != "" { TextIrreflexive(a[1..]); }
  }

  lemma {:induction false} TextTransitive(a: string, b: string, c: string)
    requires TextLess(a, b) && TextLess(b, c)
    ensures TextLess(a, c)
  {
    if a != "" && a[0] == b[0] && b[0] == c[0] { TextTransitive(a[1..], b[1..], c[1..]); }
  }

  lemma {:induction false} TextTotal(a: string, b: string)
    ensures TextLess(a, b) || TextLess(b, a) || a == b
  {
    if a != "" && b != "" && a[0] == b[0] {
      TextTotal(a[1..], b[1..]);
      if a[1..] == b[1..] { assert a == [a[0]] + a[1..] && b == [b[0]] + b[1..]; }
    }
  }

  /** What the order is: at the first place two texts differ the lesser has the lesser code point, or
      is at its end. */
  ghost predicate DifferFirstAt(a: string, b: string, k: nat) {
    k <= |a| && k < |b| && a[..k] == b[..k] && (k == |a| || a[k] < b[k])
  }

  lemma {:induction false} TextLessAtFirstDifference(a: string, b: string)
    ensures TextLess(a, b) <==> exists k: nat :: DifferFirstAt(a, b, k)
  {
    if TextLess(a, b) {
      if a == "" || a[0] < b[0] {
        assert DifferFirstAt(a, b, 0);
      } else {
        TextLessAtFirstDifference(a[1..], b[1..]);
        var k: nat :| DifferFirstAt(a[1..], b[1..], k);
        assert a[..k + 1] == [a[0]] + a[1..][..k] && b[..k + 1] == [b[0]] + b[1..][..k];
        assert DifferFirstAt(a, b, k + 1);
      }
    }
    if k: nat :| DifferFirstAt(a, b, k) {
      if k > 0 {
        assert a[0] == a[..k][0] == b[..k][0] == b[0];
        assert a[1..][..k - 1] == a[..k][1..] && b[1..][..k - 1] == b[..k][1..];
        assert DifferFirstAt(a[1..], b[1..], k - 1);
        TextLessAtFirstDifference(a[1..], b[1..]);
      }
    }
  }

  predicate AtMost(a: string, b: string) { !TextLess(b, a) }

  lemma AtMostTransitive(a: string, b: string, c: string)
    requires AtMost(a, b) && AtMost(b, c)
    ensures AtMost(a, c)
  {
    if TextLess(c, a) {
      TextTotal(a, b);
      if TextLess(a, b) { TextTransitive(c, a, b); }
    }
  }

  lemma AtMostBothWays(a: string, b: string)
    requires AtMost(a, b) && AtMost(b, a)
    ensures a == b
  {
    TextTotal(a, b);
  }

  // ---------------------------------------------------------------- sorting

  ghost predicate Ordered<T>(s: seq<T>, key: T -> string) {
    forall i, j :: 0 <= i < j < |s| ==> AtMost(key(s[i]), key(s[j]))
  }

  /** Stable insertion sort by any order. */
  function Insert<T>(x: T, s: seq<T>, less: (T, T) -> bool): seq<T> {
    if s == [] then [x]
    else if less(s[0], x) then [s[0]] + Insert(x, s[1..], less)
    else [x] + s
  }

  function Sort<T>(s: seq<T>, less: (T, T) -> bool): seq<T> {
    if s == [] then [] else Insert(s[0], Sort(s[1..], less), less)
  }

  function ByKey<T>(key: T -> string): (T, T) -> bool { (a, b) => TextLess(key(a), key(b)) }

  function SortBy<T>(s: seq<T>, key: T -> string): seq<T> { Sort(s, ByKey(key)) }

  lemma {:induction false} InsertHolds<T>(x: T, s: seq<T>, less: (T, T) -> bool)
    ensures multiset(Insert(x, s, less)) == multiset{x} + multiset(s)
    decreases |s|
  {
    if s != [] {
      assert s == [s[0]] + s[1..];
      if less(s[0], x) { InsertHolds(x, s[1..], less); }
    }
  }

  lemma {:induction false} InsertOrders<T>(x: T, s: seq<T>, key: T -> string)
    requires Ordered(s, key)
    ensures Ordered(Insert(x, s, ByKey(key)), key)
    decreases |s|
  {
    if s != [] {
      var head, tail := s[0], s[1..];
      if TextLess(key(head), key(x)) {
        InsertOrders(x, tail, key);
        InsertHolds(x, tail, ByKey(key));
        var rest := Insert(x, tail, ByKey(key));
        forall i | 0 <= i < |rest| ensures AtMost(key(head), key(rest[i])) {
          assert rest[i] in multiset(rest);
          if rest[i] == x {
            if TextLess(key(x), key(head)) { TextTransitive(key(x), key(head), key(x)); TextIrreflexive(key(x)); }
          } else {
            assert rest[i] in multiset(tail);
            var j :| 0 <= j < |tail| && tail[j] == rest[i];
            assert s[j + 1] == rest[i];
          }
        }
      } else {
        forall i | 0 <= i < |s| ensures AtMost(key(x), key(s[i])) {
          if i > 0 { AtMostTransitive(key(x), key(head), key(s[i])); }
        }
      }
    }
  }

  lemma {:induction false} SortHolds<T>(s: seq<T>, key: T -> string)
    ensures multiset(SortBy(s, key)) == multiset(s) && Ordered(SortBy(s, key), key)
    decreases |s|
  {
    if s != [] {
      assert s == [s[0]] + s[1..];
      SortHolds(s[1..], key);
      InsertHolds(s[0], SortBy(s[1..], key), ByKey(key));
      InsertOrders(s[0], SortBy(s[1..], key), key);
    }
  }

  ghost predicate TellsApart<T>(s: seq<T>, key: T -> string) {
    forall i, j :: 0 <= i < |s| && 0 <= j < |s| && key(s[i]) == key(s[j]) ==> s[i] == s[j]
  }

  lemma TailIsOrdered<T>(s: seq<T>, key: T -> string)
    requires s != [] && Ordered(s, key)
    ensures Ordered(s[1..], key)
  {
  }

  lemma TailTellsApart<T>(s: seq<T>, key: T -> string)
    requires s != [] && TellsApart(s, key)
    ensures TellsApart(s[1..], key)
  {
    var tail := s[1..];
    forall i, j | 0 <= i < |tail| && 0 <= j < |tail| && key(tail[i]) == key(tail[j])
      ensures tail[i] == tail[j]
    {
      assert tail[i] == s[i + 1] && tail[j] == s[j + 1];
    }
  }

  lemma IndexOf<T>(s: seq<T>, x: T) returns (j: nat)
    requires x in multiset(s)
    ensures j < |s| && s[j] == x
  {
    assert x in s;
    j :| 0 <= j < |s| && s[j] == x;
  }

  /** A list ordered by a key that tells its elements apart is the only such arrangement. */
  lemma {:induction false} OrderedIsUnique<T>(a: seq<T>, b: seq<T>, key: T -> string)
    requires multiset(a) == multiset(b) && Ordered(a, key) && Ordered(b, key)
    requires TellsApart(a, key)
    ensures a == b
    decreases |a|
  {
    hide Ordered, TellsApart;
    SameSize(a, b);
    if a != [] {
      FirstIsTheSame(a, b, key);
      WithoutFirst(a);
      WithoutFirst(b);
      TailIsOrdered(a, key);
      TailIsOrdered(b, key);
      TailTellsApart(a, key);
      OrderedIsUnique(a[1..], b[1..], key);
      assert a == [a[0]] + a[1..] && b == [b[0]] + b[1..];
    }
  }

  lemma SameSize<T>(a: seq<T>, b: seq<T>)
    requires multiset(a) == multiset(b)
    ensures |a| == |b|
  {
    assert |a| == |multiset(a)| == |multiset(b)| == |b|;
  }

  lemma WithoutFirst<T>(a: seq<T>)
    requires a != []
    ensures multiset(a[1..]) == multiset(a) - multiset{a[0]}
  {
    assert a == [a[0]] + a[1..];
  }

  lemma FirstIsTheSame<T>(a: seq<T>, b: seq<T>, key: T -> string)
    requires multiset(a) == multiset(b) && Ordered(a, key) && Ordered(b, key) && a != [] && b != []
    requires TellsApart(a, key)
    ensures a[0] == b[0]
  {
    assert b[0] in multiset(a) && a[0] in multiset(b);
    var i :| 0 <= i < |a| && a[i] == b[0];
    var j :| 0 <= j < |b| && b[j] == a[0];
    if i > 0 && j > 0 { AtMostBothWays(key(a[0]), key(b[0])); }
  }

  // ---------------------------------------------------------------- mapping

  function Map<T, U>(s: seq<T>, f: T -> U): (r: seq<U>)
    ensures |r| == |s| && forall i :: 0 <= i < |s| ==> r[i] == f(s[i])
  {
    seq(|s|, i requires 0 <= i < |s| => f(s[i]))
  }

  lemma Without<T>(s: seq<T>, j: nat)
    requires j < |s|
    ensures multiset(s[..j] + s[j + 1..]) == multiset(s) - multiset{s[j]}
    ensures s == (s[..j] + [s[j]]) + s[j + 1..]
  {
    assert s == (s[..j] + [s[j]]) + s[j + 1..];
  }

  lemma {:induction false} MapHolds<T, U>(a: seq<T>, b: seq<T>, f: T -> U)
    requires multiset(a) == multiset(b)
    ensures multiset(Map(a, f)) == multiset(Map(b, f))
    decreases |a|
  {
    SameSize(a, b);
    if a != [] {
      var j := IndexOf(b, a[0]);
      var less := b[..j] + b[j + 1..];
      WithoutFirst(a);
      Without(b, j);
      MapHolds(a[1..], less, f);
      MappedFirst(a, f);
      MappedWithout(b, j, f);
    }
  }

  lemma MappedFirst<T, U>(s: seq<T>, f: T -> U)
    requires s != []
    ensures multiset(Map(s, f)) == multiset(Map(s[1..], f)) + multiset{f(s[0])}
  {
    assert Map(s, f) == [f(s[0])] + Map(s[1..], f);
  }

  lemma MappedWithout<T, U>(s: seq<T>, j: nat, f: T -> U)
    requires j < |s|
    ensures multiset(Map(s, f)) == multiset(Map(s[..j] + s[j + 1..], f)) + multiset{f(s[j])}
  {
    var m := Map(s, f);
    Without(m, j);
    assert Map(s[..j] + s[j + 1..], f) == m[..j] + m[j + 1..];
    assert m[j] in multiset(m);
  }
}
