/** The bytes an image's name is the digest of (`defender/box/_image.py`, `image_tag`): five named
    parts, each ended by a NUL. Only the Dockerfile may hold a NUL of its own, and it comes first, so
    the stream still determines every part. */
module ImageStream {
  import opened TextOrder
  import opened CanonicalForm
  import opened CanonicalText
  import opened TextDecides
  import opened BoxClosure
  import opened ImageName
  import opened ImageIdentity
  import opened JsonQuoting

  type Byte = n: nat | n < 256
  type Bytes = seq<Byte>

  datatype Part = Part(name: Bytes, content: Bytes)

  // ---------------------------------------------------------------- the stream

  function Entry(p: Part): Bytes { p.name + [0] + p.content + [0] }

  function Stream(parts: seq<Part>): Bytes
    decreases |parts|
  {
    if parts == [] then [] else Stream(parts[..|parts| - 1]) + Entry(parts[|parts| - 1])
  }

  predicate NoNul(s: Bytes) { 0 !in s }

  /** The last NUL-free stretch before a final NUL is the last part's content. */
  lemma LastContent(x: Bytes, p: Bytes, y: Bytes, q: Bytes)
    requires x + [0] + p + [0] == y + [0] + q + [0] && NoNul(p) && NoNul(q)
    ensures x == y && p == q
  {
    LongerLast(x, p, y, q);
    LongerLast(y, q, x, p);
    var all := x + [0] + p + [0];
    assert x == all[..|x|] && y == all[..|y|];
    assert p == all[|x| + 1..|all| - 1] && q == all[|y| + 1..|all| - 1];
  }

  lemma LongerLast(x: Bytes, p: Bytes, y: Bytes, q: Bytes)
    requires x + [0] + p + [0] == y + [0] + q + [0] && NoNul(p)
    ensures |y| <= |x|
  {
    var all := x + [0] + p + [0];
    forall i | |x| < i < |all| - 1 ensures all[i] != 0 { assert all[i] == p[i - |x| - 1]; }
    assert (y + [0] + q + [0])[|y|] == 0;
  }

  /** The same names, and no NUL after the first part: nothing else gives the same stream. */
  ghost predicate Comparable(a: seq<Part>, b: seq<Part>) {
    && |a| == |b| && (forall i :: 0 <= i < |a| ==> a[i].name == b[i].name)
    && forall i :: 0 < i < |a| ==> NoNul(a[i].content) && NoNul(b[i].content)
  }

  lemma {:induction false} StreamDeterminesParts(a: seq<Part>, b: seq<Part>)
    requires Comparable(a, b) && Stream(a) == Stream(b)
    ensures a == b
    decreases |a|
  {
    if |a| == 1 {
      var x, y := a[0], b[0];
      assert Stream(a) == Entry(x) && Stream(b) == Entry(y) by { assert a[..0] == [] && b[..0] == []; }
      var k := |x.name| + 1;
      assert x.content == Entry(x)[k..|Entry(x)| - 1] && y.content == Entry(y)[k..|Entry(y)| - 1];
    } else if |a| > 1 {
      var last := |a| - 1;
      LastPart(Stream(a[..last]), a[last], Stream(b[..last]), b[last]);
      StreamDeterminesParts(a[..last], b[..last]);
      assert a == a[..last] + [a[last]] && b == b[..last] + [b[last]];
    }
  }

  lemma LastPart(s: Bytes, p: Part, t: Bytes, q: Part)
    requires s + Entry(p) == t + Entry(q) && p.name == q.name && NoNul(p.content) && NoNul(q.content)
    ensures s == t && p == q
  {
    var x, y := s + p.name, t + q.name;
    assert x + [0] + p.content + [0] == s + Entry(p);
    assert y + [0] + q.content + [0] == t + Entry(q);
    LastContent(x, p.content, y, q.content);
    assert s == x[..|x| - |p.name|] && t == y[..|y| - |q.name|];
  }

  /** `image_tag`'s loop: what the digest is fed. */
  method Digested(parts: seq<Part>) returns (stream: Bytes)
    ensures stream == Stream(parts)
  {
    stream := [];
    for k := 0 to |parts|
      invariant stream == Stream(parts[..k])
    {
      assert parts[..k + 1][..k] == parts[..k];
      var p := parts[k];
      ghost var before := stream;
      stream := stream + p.name;
      stream := stream + [0];
      stream := stream + p.content;
      stream := stream + [0];
      assert stream == before + Entry(p);
    }
    assert parts[..|parts|] == parts;
  }

  // ---------------------------------------------------------------- encoded texts are printable

  predicate Printable(s: string) { forall i :: 0 <= i < |s| ==> ' ' <= s[i] <= '~' }

  function Ascii(s: string): (r: Bytes)
    requires Printable(s)
    ensures |r| == |s| && NoNul(r)
  {
    seq(|s|, i requires 0 <= i < |s| => s[i] as int)
  }

  lemma AsciiIsInjective(s: string, t: string)
    requires Printable(s) && Printable(t) && Ascii(s) == Ascii(t)
    ensures s == t
  {
    forall i | 0 <= i < |s| ensures s[i] == t[i] { assert Ascii(s)[i] == Ascii(t)[i]; }
  }

  lemma UnitIsPrintable(n: nat)
    requires n < 0x10000
    ensures Printable(Unit(n))
  {
  }

  lemma EscapeIsPrintable(c: char)
    ensures Printable(Escape(c))
  {
    hide Unit;
    var n := c as int;
    if n < 0x10000 {
      UnitIsPrintable(n);
    } else {
      UnitIsPrintable(0xd800 + (n - 0x10000) / 1024);
      UnitIsPrintable(0xdc00 + (n - 0x10000) % 1024);
    }
  }

  lemma {:induction false} EscapedIsPrintable(s: string)
    ensures Printable(Escaped(s))
  {
    hide Escape;
    if s != "" {
      EscapeIsPrintable(s[0]);
      EscapedIsPrintable(s[1..]);
    }
  }

  lemma QuoteIsPrintable(s: string)
    ensures Printable(JsonQuote(s))
  {
    EscapedIsPrintable(s);
  }

  ghost predicate AllPrintable(texts: seq<string>) { forall i :: 0 <= i < |texts| ==> Printable(texts[i]) }

  lemma {:induction false} JoinIsPrintable(texts: seq<string>)
    requires AllPrintable(texts)
    ensures Printable(Join(texts))
    decreases |texts|
  {
    if |texts| > 1 { JoinIsPrintable(texts[1..]); }
  }

  lemma JoinedArePrintable(s: string, t: string)
    requires Printable(s) && Printable(t)
    ensures Printable(s + t)
  {
  }

  lemma MemberIsPrintable(m: Member)
    requires Printable(m.text)
    ensures Printable(MemberText(m, JsonQuote))
  {
    hide JsonQuote;
    QuoteIsPrintable(m.key);
    JoinedArePrintable(JsonQuote(m.key), ":");
    JoinedArePrintable(JsonQuote(m.key) + ":", m.text);
  }

  lemma TableIsPrintable(members: seq<Member>)
    requires forall i :: 0 <= i < |members| ==> Printable(members[i].text)
    ensures Printable(JoinTable(members, JsonQuote))
  {
    hide Printable, JsonQuote, SortBy, Join, MemberText;
    var sorted := SortBy(members, KeyOf);
    var texts := Map(sorted, m => MemberText(m, JsonQuote));
    SortHolds(members, KeyOf);
    forall i | 0 <= i < |texts| ensures Printable(texts[i]) {
      assert sorted[i] in multiset(members);
      var j := IndexOf(members, sorted[i]);
      MemberIsPrintable(sorted[i]);
    }
    JoinIsPrintable(texts);
    BracedIsPrintable(Join(texts));
  }

  lemma BracedIsPrintable(s: string)
    requires Printable(s)
    ensures Printable("{" + s + "}")
  {
  }

  lemma {:induction false} EncodeIsPrintable(v: Value)
    requires WellSpelled(v)
    ensures Printable(Encode(v, JsonQuote))
    decreases v
  {
    match v
    case Text(t) => QuoteIsPrintable(t);
    case Scalar(_) =>
    case Moment(t) => QuoteIsPrintable(t);
    case List(items) =>
      forall i | 0 <= i < |items| ensures Printable(Encode(items[i], JsonQuote)) { EncodeIsPrintable(items[i]); }
      JoinIsPrintable(EncodeAll(items, JsonQuote));
    case Table(fields) =>
      forall i | 0 <= i < |fields| ensures Printable(Encode(fields[i].value, JsonQuote)) {
        assert fields decreases to fields[i];
        EncodeIsPrintable(fields[i].value);
      }
      TableIsPrintable(EncodeFields(fields, JsonQuote));
  }

  lemma CanonIsPrintable(v: Value)
    requires WellSpelled(v)
    ensures Printable(Canon(v, JsonQuote))
  {
    OrderFreeIsAReordering(v, JsonQuote);
    LeavesOfReordered(v, OrderFree(v, JsonQuote), SpelledLeaf);
    EncodeIsPrintable(OrderFree(v, JsonQuote));
  }

  // ---------------------------------------------------------------- what the name decides

  /** What `image_tag` reads, parsed: the Dockerfile's bytes, `[tool.uv]`, the requirement strings,
      the lock's packages and the root's name. */
  datatype Inputs = Inputs(
    dockerfile: Bytes, uv: Value, core: seq<string>, box: seq<string>, packages: seq<Value>, root: string)

  /** As the TOML reader hands them over. */
  ghost predicate Read(i: Inputs) {
    && WellSpelled(i.uv) && WellKeyed(i.uv)
    && AllLeaves(i.packages, SpelledLeaf) && AllKeyed(i.packages)
  }

  /** The four encoded parts. */
  ghost function Texts(i: Inputs): (r: seq<string>)
    ensures |r| == 4
  {
    [Encode(i.uv, JsonQuote), RequirementsPart(i.core, i.box, JsonQuote),
     RootsPart(i.packages, i.root, JsonQuote), ClosurePart(i.packages, i.root, JsonQuote)]
  }

  lemma TextsArePrintable(i: Inputs)
    requires Read(i)
    ensures AllPrintable(Texts(i))
  {
    hide Canon, Encode, Leaves, Printable, RequirementsPart, RootsPart, ClosurePart, AllLeaves;
    EncodeIsPrintable(i.uv);
    RequirementsTextIsPrintable(i.core, i.box);
    LockTextsArePrintable(i.packages, i.root);
  }

  lemma RequirementsTextIsPrintable(core: seq<string>, box: seq<string>)
    ensures Printable(RequirementsPart(core, box, JsonQuote))
  {
    hide Canon, Printable, RequirementsPart, WellSpelled, Requirements;
    RequirementsAreKeyed(core, box);
    CanonIsPrintable(Table(Requirements(core, box)));
  }

  lemma LockTextsArePrintable(packages: seq<Value>, root: string)
    requires AllLeaves(packages, SpelledLeaf)
    ensures Printable(RootsPart(packages, root, JsonQuote)) && Printable(ClosurePart(packages, root, JsonQuote))
  {
    hide Canon, Printable, Roots;
    RootsLeaves(packages, root, SpelledLeaf);
    CanonIsPrintable(List(Roots(packages, root)));
    KeepLeaves(packages, Reached(packages, root), SpelledLeaf);
    CanonIsPrintable(List(Closure(packages, root)));
  }

  const NAMES: seq<string> := ["tool.uv", "requirements", "roots", "closure"]

  lemma NamesArePrintable()
    ensures AllPrintable(NAMES) && Printable("box.Dockerfile")
  {
  }

  ghost function PartsOf(i: Inputs): (r: seq<Part>)
    requires Read(i)
  {
    NamesArePrintable();
    TextsArePrintable(i);
    [Part(Ascii("box.Dockerfile"), i.dockerfile)]
    + seq(4, k requires 0 <= k < 4 => Part(Ascii(NAMES[k]), Ascii(Texts(i)[k])))
  }

  lemma SameStreamSameTexts(a: Inputs, b: Inputs)
    requires Read(a) && Read(b)
    ensures Stream(PartsOf(a)) == Stream(PartsOf(b)) <==> a.dockerfile == b.dockerfile && Texts(a) == Texts(b)
  {
    hide Stream, Texts, Ascii, Read;
    var p, q := PartsOf(a), PartsOf(b);
    assert p[0].content == a.dockerfile && q[0].content == b.dockerfile;
    if Stream(p) == Stream(q) {
      assert Comparable(p, q);
      StreamDeterminesParts(p, q);
      TextsArePrintable(a);
      TextsArePrintable(b);
      forall k | 0 <= k < 4 ensures Texts(a)[k] == Texts(b)[k] {
        assert p[k + 1] == q[k + 1];
        AsciiIsInjective(Texts(a)[k], Texts(b)[k]);
      }
      assert p[0] == q[0];
    }
    if a.dockerfile == b.dockerfile && Texts(a) == Texts(b) {
      assert p == q;
    }
  }

  /** Up to the digest, two sets of inputs give one name if and only if: the same Dockerfile, byte for
      byte; the same `[tool.uv]`, list order included, keys in any order; the same requirement strings,
      each as often; and the same roots' links and the same closure, up to order at any depth. Dates
      and times are read as their texts. */
  lemma NameDecides(a: Inputs, b: Inputs)
    requires Read(a) && Read(b)
    ensures Stream(PartsOf(a)) == Stream(PartsOf(b)) <==>
            && a.dockerfile == b.dockerfile
            && Rekeyed(Textual(a.uv), Textual(b.uv))
            && multiset(a.core) == multiset(b.core) && multiset(a.box) == multiset(b.box)
            && Reordered(Textual(List(Roots(a.packages, a.root))), Textual(List(Roots(b.packages, b.root))))
            && Reordered(Textual(List(Closure(a.packages, a.root))), Textual(List(Closure(b.packages, b.root))))
  {
    hide Stream, PartsOf, Encode, Rekeyed, Reordered, Textual, RequirementsPart, RootsPart, ClosurePart, Leaves,
         WellKeyed, Roots, Closure;
    SameStreamSameTexts(a, b);
    JsonQuotesWell();
    EncodedAlikeExactlyWhenRekeyed(a.uv, b.uv, JsonQuote);
    RequirementsTextDecides(a.core, b.core, a.box, b.box);
    RootsTextDecides(a.packages, a.root, b.packages, b.root);
    ClosureTextDecides(a.packages, a.root, b.packages, b.root);
  }
}
