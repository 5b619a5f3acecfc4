/** The model's workspace coordinates (`defender/_model_view.py`): host paths shown to the model
    under model roots, and the operands it names taken back to host paths. */
module ModelView {
  import opened Options

  /** An absolute path, as its components. */
  type Path = seq<string>

  const UP := ".."

  // ---------------------------------------------------------------- spelling

  predicate PlainPart(part: string) { part != "" && part != "." && '/' !in part }

  /** A path as the path library keeps one: no empty or `.` component. */
  ghost predicate Clean(p: Path) { forall i :: 0 <= i < |p| ==> PlainPart(p[i]) }

  function Spelled(p: Path): string {
    if p == [] then "" else "/" + p[0] + Spelled(p[1..])
  }

  /** The text of an absolute path. */
  function Render(p: Path): string { if p == [] then "/" else Spelled(p) }

  /** The components written in `text`, `current` being the one under way. */
  function Split(text: string, current: string): Path {
    if text == "" then Part(current)
    else if text[0] == '/' then Part(current) + Split(text[1..], "")
    else Split(text[1..], current + [text[0]])
  }

  /** An empty or `.` component is not one. */
  function Part(text: string): Path { if text == "" || text == "." then [] else [text] }

  /** A path operand: absolute (one leading slash or more), or relative. */
  datatype Operand = Operand(absolute: bool, parts: Path)

  function Parse(text: string): Operand { Operand(text != "" && text[0] == '/', Split(text, "")) }

  lemma {:induction false} SplitTakes(part: string, rest: string, current: string)
    requires '/' !in part
    ensures Split(part + rest, current) == Split(rest, current + part)
    decreases |part|
  {
    if part == "" {
      assert part + rest == rest && current + part == current;
    } else {
      assert (part + rest)[0] == part[0] && (part + rest)[1..] == part[1..] + rest;
      assert part[0] in part && forall c :: c in part[1..] ==> c in part;
      SplitTakes(part[1..], rest, current + [part[0]]);
      assert current + [part[0]] + part[1..] == current + part;
    }
  }

  lemma {:induction false} SplitSpelled(p: Path, current: string)
    requires Clean(p)
    ensures Split(Spelled(p), current) == Part(current) + p
    decreases |p|
  {
    if p == [] {
      assert Part(current) + p == Part(current);
    } else {
      var text := Spelled(p);
      assert text[0] == '/' && text[1..] == p[0] + Spelled(p[1..]);
      SplitTakes(p[0], Spelled(p[1..]), "");
      assert "" + p[0] == p[0];
      SplitSpelled(p[1..], p[0]);
      assert p == [p[0]] + p[1..];
    }
  }

  /** A path reads back from its text. */
  lemma ParseInvertsRender(p: Path)
    requires Clean(p)
    ensures Parse(Render(p)) == Operand(true, p)
  {
    if p == [] {
      assert Split("/", "") == Part("") + Split("", "");
    } else {
      SplitSpelled(p, "");
    }
  }

  /** Around a slash a text splits into what stands before it and what stands after. */
  lemma {:induction false} SplitAtASlash(x: string, y: string, current: string)
    ensures Split(x + "/" + y, current) == Split(x, current) + Split(y, "")
    decreases |x|
  {
    var text := x + "/" + y;
    if x == "" {
      assert text[1..] == y;
    } else {
      assert text[0] == x[0] && text[1..] == x[1..] + "/" + y;
      SplitAtASlash(x[1..], y, if x[0] == '/' then "" else current + [x[0]]);
    }
  }

  /** A `.` component, an empty one and a slash at the end name nothing of their own. */
  lemma DotsAndSlashesAreNothing(x: string, y: string)
    ensures Split(x + "/./" + y, "") == Split(x + "//" + y, "") == Split(x + "/" + y, "")
    ensures Split(x + "/", "") == Split(x, "")
  {
    hide Split;
    SplitAtASlash(x, y, "");
    DotIsNothing(x, y);
    EmptyIsNothing(x, y);
    SplitAtASlash(x, "", "");
    NothingSplits();
    assert x + "/" + "" == x + "/";
  }

  lemma NothingSplits()
    ensures Split("", "") == [] && Split(".", "") == []
  {
    assert "."[1..] == "" && "" + ['.'] == ".";
  }

  lemma DotIsNothing(x: string, y: string)
    ensures Split(x + "/./" + y, "") == Split(x, "") + Split(y, "")
  {
    hide Split;
    SplitAtASlash(x, "./" + y, "");
    SplitAtASlash(".", y, "");
    NothingSplits();
    assert x + "/./" + y == x + "/" + ("./" + y) && "./" + y == "." + "/" + y;
  }

  lemma EmptyIsNothing(x: string, y: string)
    ensures Split(x + "//" + y, "") == Split(x, "") + Split(y, "")
  {
    hide Split;
    SplitAtASlash(x, "/" + y, "");
    SplitAtASlash("", y, "");
    NothingSplits();
    assert x + "//" + y == x + "/" + ("/" + y) && "/" + y == "" + "/" + y;
  }

  // ---------------------------------------------------------------- views

  datatype Root = Root(model: Path, host: Path)

  /** `doubled` says that the working directory is spelled with two leading slashes, which the path
      library keeps apart from one. */
  datatype View = View(roots: seq<Root>, cwd: Path, doubled: bool)

  /** What the constructor accepts; `resolve` is the filesystem's, which nothing below depends on
      but that equal paths resolve alike. */
  ghost predicate Accepted(v: View, resolve: Path -> Path) {
    && (forall i :: 0 <= i < |v.roots| ==>
          && Clean(v.roots[i].model) && Clean(v.roots[i].host)
          && v.roots[i].model != [] && UP !in v.roots[i].model && UP !in v.roots[i].host)
    && (forall i, j :: 0 <= j < i < |v.roots| ==>
          && !(v.roots[i].model <= v.roots[j].model) && !(v.roots[j].model <= v.roots[i].model)
          && resolve(v.roots[i].host) != resolve(v.roots[j].host))
    && Clean(v.cwd) && HostOf(v, v.cwd).Some?
  }

  /** The first root whose model path holds `p`. */
  function FirstRoot(roots: seq<Root>, p: Path): Option<nat> {
    if roots == [] then None
    else if roots[0].model <= p then Some(0)
    else match FirstRoot(roots[1..], p)
         case None => None
         case Some(i) => Some(i + 1)
  }

  lemma {:induction false} FirstRootHolds(roots: seq<Root>, p: Path)
    ensures match FirstRoot(roots, p)
            case Some(i) => i < |roots| && roots[i].model <= p && forall j :: 0 <= j < i ==> !(roots[j].model <= p)
            case None => forall j :: 0 <= j < |roots| ==> !(roots[j].model <= p)
    decreases |roots|
  {
    if roots != [] && !(roots[0].model <= p) {
      FirstRootHolds(roots[1..], p);
      assert forall j :: 0 < j < |roots| ==> roots[j] == roots[1..][j - 1];
    }
  }

  /** The host path a model path names. */
  function HostOf(v: View, p: Path): Option<Path> {
    if UP in p then None else
      match FirstRoot(v.roots, p)
      case None => None
      case Some(i) => FirstRootHolds(v.roots, p); Some(v.roots[i].host + p[|v.roots[i].model|..])
  }

  /** The path an operand names. Two leading slashes of the operand are folded into one, those of the
      working directory are not: a relative operand then stays under an anchor no root has. */
  function Anchored(v: View, operand: string): Option<Path> {
    var o := Parse(operand);
    if o.absolute then Some(o.parts) else if v.doubled then None else Some(v.cwd + o.parts)
  }

  /** The host path an operand names. */
  function HostNamed(v: View, operand: string): Option<Path> {
    if Anchored(v, operand).None? then None else HostOf(v, Anchored(v, operand).value)
  }

  /** `to_host`. */
  method ToHost(v: View, operand: string) returns (host: Option<Path>)
    ensures host == HostNamed(v, operand)
  {
    var anchored := Anchored(v, operand);
    if anchored.None? { return None; }
    var p := anchored.value;
    if UP in p { return None; }
    FirstRootHolds(v.roots, p);
    for i := 0 to |v.roots|
      invariant forall j :: 0 <= j < i ==> !(v.roots[j].model <= p)
    {
      var root := v.roots[i];
      if p == root.model {
        assert p[|root.model|..] == [] && root.host + [] == root.host;
        return Some(root.host);
      }
      if root.model <= p {
        return Some(root.host + p[|root.model|..]);
      }
    }
    return None;
  }

  /** `__post_init__`: whether the constructor accepts; the path library hands it clean paths. */
  method Accepts(v: View, resolve: Path -> Path) returns (accepted: bool)
    requires Clean(v.cwd) && forall i :: 0 <= i < |v.roots| ==> Clean(v.roots[i].model) && Clean(v.roots[i].host)
    ensures accepted <==> Accepted(v, resolve)
  {
    for i := 0 to |v.roots|
      invariant forall j :: 0 <= j < i ==>
                  v.roots[j].model != [] && UP !in v.roots[j].model && UP !in v.roots[j].host
    {
      if v.roots[i].model == [] || UP in v.roots[i].model || UP in v.roots[i].host { return false; }
    }
    for i := 0 to |v.roots|
      invariant forall j, k :: 0 <= k < j < i ==> !Conflict(v.roots[j], v.roots[k], resolve)
    {
      for k := 0 to i
        invariant forall l :: 0 <= l < k ==> !Conflict(v.roots[i], v.roots[l], resolve)
      {
        if v.roots[i].model <= v.roots[k].model || v.roots[k].model <= v.roots[i].model { return false; }
        if resolve(v.roots[i].host) == resolve(v.roots[k].host) { return false; }
      }
    }
    accepted := HostOf(v, v.cwd).Some?;
  }

  /** One model root holds the other, or both host roots are one place. */
  predicate Conflict(a: Root, b: Root, resolve: Path -> Path) {
    a.model <= b.model || b.model <= a.model || resolve(a.host) == resolve(b.host)
  }

  /** Root `i` holds `h`, and no root that does is deeper. */
  ghost predicate IsDeepest(v: View, h: Path, i: nat) {
    && i < |v.roots| && v.roots[i].host <= h
    && forall j :: 0 <= j < |v.roots| && v.roots[j].host <= h ==> |v.roots[j].host| <= |v.roots[i].host|
  }

  /** `h` shown under root `i`. */
  function Shown(v: View, h: Path, i: nat): Path
    requires i < |v.roots| && v.roots[i].host <= h
  {
    v.roots[i].model + h[|v.roots[i].host|..]
  }

  ghost predicate UnderNone(v: View, h: Path) { forall i :: 0 <= i < |v.roots| ==> !(v.roots[i].host <= h) }

  /** One pass of `to_model`: the deepest root over `h`, and `h` as shown under it. */
  method ShowUnder(v: View, h: Path) returns (text: Option<string>)
    ensures text.None? <==> UnderNone(v, h)
    ensures text.Some? ==> exists i :: IsDeepest(v, h, i) && text.value == Render(Shown(v, h, i))
  {
    var best: Option<nat> := None;
    for k := 0 to |v.roots|
      invariant best.None? <==> forall i :: 0 <= i < k ==> !(v.roots[i].host <= h)
      invariant best.Some? ==> best.value < k && v.roots[best.value].host <= h
      invariant best.Some? ==> forall j ::
                  0 <= j < k && v.roots[j].host <= h ==> |v.roots[j].host| <= |v.roots[best.value].host|
    {
      if v.roots[k].host <= h && (best.None? || |v.roots[k].host| > |v.roots[best.value].host|) {
        best := Some(k);
      }
    }
    if best.None? { return None; }
    assert IsDeepest(v, h, best.value);
    var root := v.roots[best.value];
    var rel := h[|root.host|..];
    if rel == [] {
      assert root.model + rel == root.model;
      return Some(Render(root.model));
    }
    return Some(Render(root.model + rel));
  }

  /** The view with every host root resolved. */
  function Resolved(v: View, resolve: Path -> Path): View {
    v.(roots := seq(|v.roots|, i requires 0 <= i < |v.roots| => Root(v.roots[i].model, resolve(v.roots[i].host))))
  }

  /** `to_model`: the path as the host spells it, else the path and the roots resolved; `resolves` says
      whether the path could be. */
  method ToModel(v: View, h: Path, resolve: Path -> Path, resolves: bool) returns (text: Option<string>)
    ensures text.None? <==> UnderNone(v, h) && (resolves ==> UnderNone(Resolved(v, resolve), resolve(h)))
    ensures text.Some? && !UnderNone(v, h) ==> exists i :: IsDeepest(v, h, i) && text.value == Render(Shown(v, h, i))
    ensures text.Some? && UnderNone(v, h) ==>
              var w, c := Resolved(v, resolve), resolve(h);
              exists i :: IsDeepest(w, c, i) && text.value == Render(Shown(w, c, i))
  {
    text := ShowUnder(v, h);
    if text.None? && resolves { text := ShowUnder(Resolved(v, resolve), resolve(h)); }
  }

  // ---------------------------------------------------------------- the promises

  /** In an accepted view the deepest root is the only deepest one. */
  lemma DeepestIsUnique(v: View, resolve: Path -> Path, h: Path, i: nat, j: nat)
    requires Accepted(v, resolve) && IsDeepest(v, h, i) && IsDeepest(v, h, j)
    ensures i == j
  {
    assert v.roots[i].host == h[..|v.roots[i].host|] == v.roots[j].host;
  }

  /** And so it is among the resolved roots: the constructor told them apart. */
  lemma DeepestResolvedIsUnique(v: View, resolve: Path -> Path, c: Path, i: nat, j: nat)
    requires Accepted(v, resolve) && IsDeepest(Resolved(v, resolve), c, i) && IsDeepest(Resolved(v, resolve), c, j)
    ensures i == j
  {
    var w := Resolved(v, resolve);
    assert w.roots[i].host == c[..|w.roots[i].host|] == w.roots[j].host;
  }

  /** Model roots never hold one another, so a path under one is under no other. */
  lemma ShownRootIsTheFirst(v: View, resolve: Path -> Path, i: nat, p: Path)
    requires Accepted(v, resolve) && i < |v.roots| && v.roots[i].model <= p
    ensures FirstRoot(v.roots, p) == Some(i)
  {
    FirstRootHolds(v.roots, p);
    var j := FirstRoot(v.roots, p).value;
    assert if |v.roots[i].model| <= |v.roots[j].model| then v.roots[i].model <= v.roots[j].model
           else v.roots[j].model <= v.roots[i].model;
  }

  /** What the model is shown names the host path it was shown for, exactly when that path has no
      `..`, nested host roots included. */
  lemma ShownPathComesBack(v: View, resolve: Path -> Path, h: Path, i: nat)
    requires Accepted(v, resolve) && Clean(h) && IsDeepest(v, h, i)
    ensures HostNamed(v, Render(Shown(v, h, i))) == Some(h) <==> UP !in h
  {
    var root := v.roots[i];
    var rel := h[|root.host|..];
    var p := Shown(v, h, i);
    ParseInvertsRender(p);
    ShownRootIsTheFirst(v, resolve, i, p);
    assert p[|root.model|..] == rel && h == root.host + rel;
    assert UP in p <==> UP in rel;
    assert UP in h <==> UP in rel;
  }

  /** Found through its resolved path, a host path is shown as one that names, under the same root as
      the host spells it, what lies as far below the resolved root. */
  lemma ResolvedPathComesBack(v: View, resolve: Path -> Path, c: Path, i: nat)
    requires Accepted(v, resolve) && Clean(c) && UP !in c && IsDeepest(Resolved(v, resolve), c, i)
    ensures var rel := c[|resolve(v.roots[i].host)|..];
            && c == resolve(v.roots[i].host) + rel
            && HostNamed(v, Render(Shown(Resolved(v, resolve), c, i))) == Some(v.roots[i].host + rel)
  {
    var w := Resolved(v, resolve);
    var rel := c[|w.roots[i].host|..];
    var p := Shown(w, c, i);
    assert p == v.roots[i].model + rel && Clean(p);
    ParseInvertsRender(p);
    ShownRootIsTheFirst(v, resolve, i, p);
    assert p[|v.roots[i].model|..] == rel;
    assert forall x :: x in rel ==> x in c;
  }

  /** A relative operand names something if and only if the working directory is spelled with one
      slash: the constructor folds two, the join does not. */
  lemma WorkingDirectoryIsNamedExactlyWhenPlain(v: View, resolve: Path -> Path)
    requires Accepted(v, resolve)
    ensures HostNamed(v, "").Some? <==> !v.doubled
    ensures v.doubled ==> forall operand :: !Parse(operand).absolute ==> HostNamed(v, operand).None?
  {
    assert Parse("") == Operand(false, []);
    assert v.cwd + [] == v.cwd;
  }

  /** What lies below a model root names what lies as far below its host root. */
  lemma BelowARootIsBelowItsHost(v: View, resolve: Path -> Path, i: nat, rel: Path)
    requires Accepted(v, resolve) && i < |v.roots| && Clean(rel) && UP !in rel
    ensures HostNamed(v, Render(v.roots[i].model + rel)) == Some(v.roots[i].host + rel)
  {
    var p := v.roots[i].model + rel;
    assert Clean(p);
    ParseInvertsRender(p);
    ShownRootIsTheFirst(v, resolve, i, p);
    assert p[|v.roots[i].model|..] == rel;
  }

  /** The text of a relative path. */
  function RenderRelative(p: Path): string { if p == [] then "" else p[0] + Spelled(p[1..]) }

  lemma RelativeReadsBack(p: Path)
    requires Clean(p)
    ensures Parse(RenderRelative(p)) == Operand(false, p)
  {
    if p != [] {
      assert RenderRelative(p)[0] == p[0][0] && p[0][0] in p[0];
      SplitTakes(p[0], Spelled(p[1..]), "");
      assert "" + p[0] == p[0];
      SplitSpelled(p[1..], p[0]);
      assert p == [p[0]] + p[1..];
    }
  }

  /** A relative operand names what lies as far below the working directory's host path. */
  lemma RelativeIsBelowTheWorkingDirectory(v: View, resolve: Path -> Path, rel: Path)
    requires Accepted(v, resolve) && !v.doubled && Clean(rel) && UP !in rel
    ensures HostOf(v, v.cwd).Some? && HostNamed(v, RenderRelative(rel)) == Some(HostOf(v, v.cwd).value + rel)
  {
    hide Parse, RenderRelative, HostOf;
    RelativeReadsBack(rel);
    BelowIsAsFarBelow(v, resolve, v.cwd, rel);
  }

  lemma BelowIsAsFarBelow(v: View, resolve: Path -> Path, p: Path, rel: Path)
    requires Accepted(v, resolve) && HostOf(v, p).Some? && UP !in rel
    ensures HostOf(v, p + rel) == Some(HostOf(v, p).value + rel)
  {
    FirstRootHolds(v.roots, p);
    var i := FirstRoot(v.roots, p).value;
    ShownRootIsTheFirst(v, resolve, i, p + rel);
    var model, host := v.roots[i].model, v.roots[i].host;
    assert (p + rel)[|model|..] == p[|model|..] + rel;
    assert host + (p[|model|..] + rel) == host + p[|model|..] + rel;
  }

  /** Whatever the model names, its host path stays under a declared root and climbs nowhere. */
  lemma OperandsStayInside(v: View, resolve: Path -> Path, operand: string)
    requires Accepted(v, resolve) && HostNamed(v, operand).Some?
    ensures var h := HostNamed(v, operand).value;
            UP !in h && exists i :: 0 <= i < |v.roots| && v.roots[i].host <= h
  {
    var p := Anchored(v, operand).value;
    FirstRootHolds(v.roots, p);
    var i := FirstRoot(v.roots, p).value;
    var h := HostOf(v, p).value;
    assert h == v.roots[i].host + p[|v.roots[i].model|..] && v.roots[i].host <= h;
    assert forall x :: x in p[|v.roots[i].model|..] ==> x in p;
  }

  /** The other way round a model path comes back as itself exactly when no root deeper than its
      own holds the host path it names. */
  lemma NamedPathIsShownAsNamed(v: View, resolve: Path -> Path, p: Path, i: nat)
    requires Accepted(v, resolve) && HostOf(v, p).Some? && IsDeepest(v, HostOf(v, p).value, i)
    ensures Shown(v, HostOf(v, p).value, i) == p <==> FirstRoot(v.roots, p) == Some(i)
  {
    FirstRootHolds(v.roots, p);
    var f := FirstRoot(v.roots, p).value;
    var h := HostOf(v, p).value;
    assert p == v.roots[f].model + p[|v.roots[f].model|..];
    assert h[|v.roots[f].host|..] == p[|v.roots[f].model|..];
    if f != i {
      var shown := Shown(v, h, i);
      if shown == p { ShownRootIsTheFirst(v, resolve, i, p); }
    }
  }

  predicate Name(part: string) { PlainPart(part) && part != UP }

  /** Where roots nest, it does not: a run folder inside the checkout, named through the checkout's
      root, is shown under its own. */
  lemma NestedRootRenames(run: string, code: string, repo: string, folder: string, file: string)
    requires Name(run) && Name(code) && Name(repo) && Name(folder) && Name(file) && run != code
    ensures var v := View([Root([run], [repo, folder]), Root([code], [repo])], [run], false);
            && Accepted(v, p => p)
            && HostOf(v, [code, folder, file]) == Some([repo, folder, file])
            && IsDeepest(v, [repo, folder, file], 0) && Shown(v, [repo, folder, file], 0) == [run, file]
  {
    var first, second := Root([run], [repo, folder]), Root([code], [repo]);
    var v := View([first, second], [run], false);
    var p, h := [code, folder, file], [repo, folder, file];
    assert FirstRoot(v.roots, [run]) == Some(0);
    assert !(first.model <= p) by { assert first.model[0] != p[0]; }
    assert v.roots[1..] == [second] && second.model <= p;
    assert FirstRoot([second], p) == Some(0) && FirstRoot(v.roots, p) == Some(1);
    assert p[1..] == [folder, file] && [repo] + [folder, file] == h;
    assert first.host <= h && h[2..] == [file];
  }
}
