/** Making one tree hold what another holds, in place (`defender/box/_stage.py`, `_mirror_tree`):
    its folders and regular files, the skipped top-level names left out, everything else removed. */
module MirrorTree {
  import opened Options

  type Path = seq<string>
  type Bytes = seq<bv8>

  /** What stands at a name, judged without following it. */
  datatype Node = Folder | File(bytes: Bytes, mtime: int) | Other

  type Tree = map<Path, Node>

  function Get(fs: Tree, p: Path): Option<Node> { if p in fs then Some(fs[p]) else None }

  /** Whatever stands somewhere stands in a folder. */
  ghost predicate WellFormed(fs: Tree) {
    forall p :: p in fs && p != [] ==> p[..|p| - 1] in fs && fs[p[..|p| - 1]].Folder?
  }

  /** Neither tree holds the other. */
  predicate Apart(s: Path, d: Path) { !(s <= d) && !(d <= s) }

  /** What is carried of a source entry: folders and regular files only. */
  function Carried(fs: Tree, p: Path): Option<Node> {
    if p in fs && !fs[p].Other? then Some(fs[p]) else None
  }

  /** What the destination should hold at `r` below it. */
  function Wanted(fs: Tree, s: Path, r: Path, skip: set<string>): Option<Node>
    requires r != []
  {
    if r[0] in skip then None else Carried(fs, s + r)
  }

  /** `fs` below `d` is exactly what is wanted of `was` below `s`. */
  ghost predicate Mirrors(was: Tree, fs: Tree, s: Path, d: Path, skip: set<string>) {
    forall q: Path :: d < q ==> Get(fs, q) == Wanted(was, s, q[|d|..], skip)
  }

  /** Nothing changed but below `d`. */
  ghost predicate OnlyBelow(was: Tree, fs: Tree, d: Path) {
    forall q: Path :: !(d < q) ==> Get(fs, q) == Get(was, q)
  }

  /** Nothing changed but at and below `d`. */
  ghost predicate OnlyAt(was: Tree, fs: Tree, d: Path) {
    forall q: Path :: !(d <= q) ==> Get(fs, q) == Get(was, q)
  }

  /** The names in a folder. */
  function Names(fs: Tree, p: Path): (names: set<string>)
    ensures forall n :: n in names <==> p + [n] in fs
  {
    var names := set q | q in fs && |q| == |p| + 1 && p <= q :: q[|p|];
    assert forall n :: p + [n] in fs ==> n in names by {
      forall n | p + [n] in fs ensures n in names { assert (p + [n])[|p|] == n && p <= p + [n]; }
    }
    assert forall n :: n in names ==> p + [n] in fs by {
      forall n | n in names ensures p + [n] in fs {
        var q :| q in fs && |q| == |p| + 1 && p <= q && q[|p|] == n;
        assert q == p + [n];
      }
    }
    names
  }

  lemma {:induction false} AncestorsAreFolders(fs: Tree, p: Path, q: Path)
    requires WellFormed(fs) && q in fs && p < q
    ensures p in fs && fs[p].Folder?
    decreases |q|
  {
    var parent := q[..|q| - 1];
    if p != parent {
      assert p < parent;
      AncestorsAreFolders(fs, p, parent);
    }
  }

  // ---------------------------------------------------------------- the disk

  class Disk {
    var fs: Tree
    var touched: seq<Path>   // every entry made, copied or removed, in order

    constructor (fs: Tree)
      ensures this.fs == fs && touched == []
    {
      this.fs, touched := fs, [];
    }

    /** `_remove`: a folder with all it holds, or a single entry. */
    method Remove(p: Path)
      requires WellFormed(fs) && p in fs && p != []
      modifies this
      ensures WellFormed(fs) && OnlyAt(old(fs), fs, p) && forall q: Path :: p <= q ==> q !in fs
      ensures touched == old(touched) + [p]
    {
      fs := map q | q in fs && !(p <= q) :: fs[q];
      touched := touched + [p];
      assert WellFormed(fs) by {
        forall q | q in fs && q != [] ensures q[..|q| - 1] in fs && fs[q[..|q| - 1]].Folder? {
          assert q[..|q| - 1] <= q;
        }
      }
    }

    /** Put a folder or a copy at a free name. */
    method Put(p: Path, node: Node)
      requires WellFormed(fs) && p !in fs && p != [] && p[..|p| - 1] in fs && fs[p[..|p| - 1]].Folder?
      modifies this
      ensures WellFormed(fs) && OnlyAt(old(fs), fs, p) && fs == old(fs)[p := node]
      ensures touched == old(touched) + [p]
    {
      fs := fs[p := node];
      touched := touched + [p];
    }

    /** `_carry_file`: copied, its time kept, unless the target already holds the same bytes with
        the same time. */
    method CarryFile(s: Path, d: Path)
      requires WellFormed(fs) && s in fs && fs[s].File? && Apart(s, d)
      requires d != [] && d[..|d| - 1] in fs && fs[d[..|d| - 1]].Folder?
      modifies this
      ensures WellFormed(fs) && OnlyAt(old(fs), fs, d)
      ensures forall q: Path :: d <= q ==> Get(fs, q) == if q == d then Some(old(fs)[s]) else None
      ensures Get(old(fs), d) == Some(old(fs)[s]) ==> touched == old(touched)
    {
      var from := fs[s];
      if d in fs && fs[d].File? && |fs[d].bytes| == |from.bytes| && fs[d].mtime == from.mtime
         && fs[d].bytes == from.bytes {
        FilesHoldNothing(fs, d);
        return;
      }
      ghost var was := fs;
      if d in fs {
        Remove(d);
      } else {
        AbsentHoldsNothing(fs, d);
      }
      assert Get(fs, d[..|d| - 1]) == Get(was, d[..|d| - 1]) by { assert !(d <= d[..|d| - 1]); }
      Put(d, from);
    }

    /** One source entry into the destination folder `d`. */
    method CarryEntry(s: Path, d: Path, n: string, ghost depth: nat)
      requires WellFormed(fs) && Apart(s, d) && Get(fs, d) == Some(Folder)
      requires s + [n] in fs && !fs[s + [n]].Other? && Shallow(fs, s, depth)
      modifies this
      ensures WellFormed(fs) && OnlyAt(old(fs), fs, d + [n]) && EntryDone(old(fs), fs, s, d, n)
      ensures EntryDone(old(fs), old(fs), s, d, n) ==> touched == old(touched)
      decreases depth, 1
    {
      hide WellFormed, OnlyAt, Shallow;
      var from, to := s + [n], d + [n];
      ghost var was := fs;
      assert to[..|to| - 1] == d && to[|d|..] == [n];
      if fs[from].File? {
        CarryFile(from, to);
        FileEntryDone(was, fs, s, d, n);
        if EntryDone(was, was, s, d, n) { assert Get(was, to) == Carried(was, s + to[|d|..]); }
      } else {
        CarryFolder(s, d, n, depth);
      }
    }

    /** A source folder: made if need be, over whatever is not one, then mirrored whole. */
    method CarryFolder(s: Path, d: Path, n: string, ghost depth: nat)
      requires WellFormed(fs) && Apart(s, d) && Get(fs, d) == Some(Folder)
      requires Get(fs, s + [n]) == Some(Folder) && Shallow(fs, s, depth)
      modifies this
      ensures WellFormed(fs) && OnlyAt(old(fs), fs, d + [n]) && EntryDone(old(fs), fs, s, d, n)
      ensures EntryDone(old(fs), old(fs), s, d, n) ==> touched == old(touched)
      decreases depth, 0
    {
      hide WellFormed, OnlyAt, OnlyBelow, Shallow, Mirrors, EntryDone;
      var from, to := s + [n], d + [n];
      ghost var was := fs;
      assert to[..|to| - 1] == d;
      NothingChanged(was, to);
      if to in fs && !fs[to].Folder? {
        Remove(to);
        GoneThere(was, fs, to);
        OnlyAtSpares(was, fs, to, d, from);
      }
      ghost var cleared := fs;
      if to !in fs {
        Put(to, Folder);
        OnlyAtTwice(was, cleared, fs, to);
        OnlyAtSpares(was, fs, to, d, from);
      }
      ghost var ready := fs;
      FolderWasThere(was, s, d, n);
      ShallowBelow(was, ready, s, n, to, depth);
      Mirror(from, to, {}, depth - 1);
      FolderEntryDone(was, ready, fs, s, d, n);
      if EntryDone(was, was, s, d, n) { FolderAlreadyDone(was, s, d, n); }
    }

    /** `_mirror_tree`. `depth` bounds how deep the source goes, which any finite tree has. */
    method Mirror(s: Path, d: Path, skip: set<string>, ghost depth: nat)
      requires WellFormed(fs) && Apart(s, d)
      requires Get(fs, s) == Some(Folder) && Get(fs, d) == Some(Folder) && Shallow(fs, s, depth)
      modifies this
      ensures WellFormed(fs) && OnlyBelow(old(fs), fs, d)
      ensures Mirrors(old(fs), fs, s, d, skip)
      ensures Mirrors(old(fs), old(fs), s, d, skip) ==> touched == old(touched)
      decreases depth, 2
    {
      hide WellFormed, OnlyAt, OnlyBelow, Shallow, Mirrors, EntryDone, PartWay;
      ghost var was, wasTouched := fs, touched;
      var seen: set<string> := {};
      var todo := Names(fs, s);
      PartWayStarts(was, s, d);
      while todo != {}
        invariant WellFormed(fs) && seen !! todo && forall n :: n in todo ==> s + [n] in was
        invariant forall n :: s + [n] in was && n !in todo && n !in skip && !was[s + [n]].Other? ==> n in seen
        invariant forall n :: n in seen ==> s + [n] in was && n !in skip && !was[s + [n]].Other?
        invariant PartWay(was, fs, s, d, seen)
        invariant Mirrors(was, was, s, d, skip) ==> touched == wasTouched
        decreases todo
      {
        var n :| n in todo;
        todo := todo - {n};
        if n in skip { continue; }
        PartWayKeeps(was, fs, s, d, seen, n, depth);
        if !fs[s + [n]].Other? {
          ghost var before := fs;
          CarryEntry(s, d, n, depth);
          PartWayOn(was, before, fs, s, d, seen, n);
          if Mirrors(was, was, s, d, skip) { MirroredEntryIsThere(was, before, s, d, seen, skip, n); }
          seen := seen + {n};
        }
      }
      RemoveUnseen(was, s, d, skip, seen);
    }

    /** The second loop: whatever of the destination the source does not have. */
    method RemoveUnseen(ghost was: Tree, ghost s: Path, d: Path, ghost skip: set<string>, seen: set<string>)
      requires WellFormed(was) && WellFormed(fs) && PartWay(was, fs, s, d, seen)
      requires forall n :: n in seen <==> s + [n] in was && n !in skip && !was[s + [n]].Other?
      modifies this
      ensures WellFormed(fs) && OnlyBelow(was, fs, d) && Mirrors(was, fs, s, d, skip)
      ensures Mirrors(was, was, s, d, skip) ==> touched == old(touched)
    {
      hide WellFormed, OnlyAt, OnlyBelow, Mirrors, PartWay, SeenDone;
      var extra := Names(fs, d) - seen;
      PartWayIsSeen(was, fs, s, d, seen);
      if Mirrors(was, was, s, d, skip) {
        NothingExtra(was, fs, s, d, skip, seen);
        assert extra == {};
      }
      while extra != {}
        invariant WellFormed(fs) && extra !! seen
        invariant forall n :: d + [n] in fs ==> n in seen || n in extra
        invariant forall n :: n in extra ==> d + [n] in fs
        invariant SeenDone(was, fs, s, d, seen) && OnlyBelow(was, fs, d)
        invariant Mirrors(was, was, s, d, skip) ==> extra == {} && touched == old(touched)
        decreases extra
      {
        var n :| n in extra;
        extra := extra - {n};
        ghost var before := fs;
        Remove(d + [n]);
        RemovedOne(was, before, fs, s, d, seen, n);
      }
      AllMirrored(was, fs, s, d, skip, seen);
    }
  }

  // ---------------------------------------------------------------- bookkeeping

  lemma FilesHoldNothing(fs: Tree, p: Path)
    requires WellFormed(fs) && p in fs && !fs[p].Folder?
    ensures forall q: Path :: p < q ==> q !in fs
  {
    forall q: Path | p < q ensures q !in fs { if q in fs { AncestorsAreFolders(fs, p, q); } }
  }

  lemma AbsentHoldsNothing(fs: Tree, p: Path)
    requires WellFormed(fs) && p !in fs
    ensures forall q: Path :: p <= q ==> q !in fs
  {
    forall q: Path | p <= q ensures q !in fs { if q in fs && p != q { AncestorsAreFolders(fs, p, q); } }
  }

  /** No path of the source goes deeper than `depth` below it. */
  ghost predicate Shallow(fs: Tree, s: Path, depth: nat) {
    forall p: Path :: p in fs && s <= p ==> |p| <= |s| + depth
  }

  /** The entry `n` of `d`, and all below it, is what is carried of the entry `n` of `s`. */
  ghost predicate EntryDone(was: Tree, fs: Tree, s: Path, d: Path, n: string) {
    forall q: Path :: d + [n] <= q ==> Get(fs, q) == Carried(was, s + q[|d|..])
  }

  lemma NotBelowBoth(s: Path, d: Path, p: Path)
    requires Apart(s, d) && s <= p
    ensures !(d <= p)
  {
    assert d <= p ==> (if |s| <= |d| then s <= d else d <= s);
  }

  lemma NothingChanged(fs: Tree, to: Path)
    ensures OnlyAt(fs, fs, to)
  {
  }

  lemma GoneThere(was: Tree, fs: Tree, to: Path)
    requires forall q: Path :: to <= q ==> q !in fs
    ensures to !in fs
  {
    assert to <= to;
  }

  lemma OnlyAtTwice(was: Tree, mid: Tree, fs: Tree, to: Path)
    requires OnlyAt(was, mid, to) && OnlyAt(mid, fs, to)
    ensures OnlyAt(was, fs, to)
  {
  }

  lemma OnlyAtSpares(was: Tree, fs: Tree, to: Path, d: Path, from: Path)
    requires OnlyAt(was, fs, to) && !(to <= d) && !(to <= from)
    ensures Get(fs, d) == Get(was, d) && Get(fs, from) == Get(was, from)
  {
  }

  lemma FileEntryDone(was: Tree, fs: Tree, s: Path, d: Path, n: string)
    requires WellFormed(was) && s + [n] in was && was[s + [n]].File?
    requires forall q: Path :: d + [n] <= q ==> Get(fs, q) == if q == d + [n] then Some(was[s + [n]]) else None
    ensures EntryDone(was, fs, s, d, n)
  {
    FilesHoldNothing(was, s + [n]);
    forall q: Path | d + [n] <= q ensures Get(fs, q) == Carried(was, s + q[|d|..]) {
      assert s + [n] <= s + q[|d|..];
      if q != d + [n] { assert s + [n] < s + q[|d|..]; } else { assert q[|d|..] == [n]; }
    }
  }

  /** Where a folder's entry was in place already, its own folder was. */
  lemma FolderWasThere(was: Tree, s: Path, d: Path, n: string)
    requires Get(was, s + [n]) == Some(Folder)
    ensures EntryDone(was, was, s, d, n) ==> Get(was, d + [n]) == Some(Folder)
  {
    assert (d + [n])[|d|..] == [n] && d + [n] <= d + [n];
  }

  lemma ShallowBelow(was: Tree, ready: Tree, s: Path, n: string, to: Path, depth: nat)
    requires Shallow(was, s, depth) && OnlyAt(was, ready, to) && Apart(s + [n], to) && s + [n] in was
    ensures depth >= 1 && Shallow(ready, s + [n], depth - 1)
  {
    assert s <= s + [n] && |s + [n]| <= |s| + depth;
    forall p: Path | p in ready && s + [n] <= p ensures |p| <= |s + [n]| + (depth - 1) {
      assert !(to <= p);
      assert Get(ready, p) == Get(was, p);
      assert s <= p;
    }
  }

  lemma FolderEntryDone(was: Tree, ready: Tree, fs: Tree, s: Path, d: Path, n: string)
    requires Apart(s, d) && Get(was, s + [n]) == Some(Folder) && Get(ready, d + [n]) == Some(Folder)
    requires OnlyAt(was, ready, d + [n]) && OnlyBelow(ready, fs, d + [n]) && Mirrors(ready, fs, s + [n], d + [n], {})
    ensures OnlyAt(was, fs, d + [n]) && EntryDone(was, fs, s, d, n)
  {
    var from, to := s + [n], d + [n];
    forall q: Path | to <= q ensures Get(fs, q) == Carried(was, s + q[|d|..]) {
      if q == to {
        assert q[|d|..] == [n];
      } else {
        var p := from + q[|to|..];
        assert s + q[|d|..] == p;
        NotBelowBoth(s, d, p);
        assert to <= p ==> d <= p;
        assert Get(fs, q) == Wanted(ready, from, q[|to|..], {});
        assert Get(ready, p) == Get(was, p);
      }
    }
    forall q: Path | !(to <= q) ensures Get(fs, q) == Get(was, q) { assert Get(fs, q) == Get(ready, q); }
  }

  lemma FolderAlreadyDone(was: Tree, s: Path, d: Path, n: string)
    requires EntryDone(was, was, s, d, n)
    ensures Mirrors(was, was, s + [n], d + [n], {})
  {
    var from, to := s + [n], d + [n];
    forall q: Path | to < q ensures Get(was, q) == Wanted(was, from, q[|to|..], {}) {
      assert s + q[|d|..] == from + q[|to|..];
    }
  }

  /** Seen names hold what they should; nothing else has changed. */
  ghost predicate PartWay(was: Tree, fs: Tree, s: Path, d: Path, seen: set<string>) {
    && SeenDone(was, fs, s, d, seen)
    && forall q: Path :: !(d < q && q[|d|] in seen) ==> Get(fs, q) == Get(was, q)
  }

  ghost predicate SeenDone(was: Tree, fs: Tree, s: Path, d: Path, seen: set<string>) {
    forall q: Path :: d < q && q[|d|] in seen ==> Get(fs, q) == Carried(was, s + q[|d|..])
  }

  lemma PartWayStarts(was: Tree, s: Path, d: Path)
    ensures PartWay(was, was, s, d, {})
  {
  }

  lemma PartWayKeepsSource(was: Tree, fs: Tree, s: Path, d: Path, seen: set<string>)
    requires PartWay(was, fs, s, d, seen) && Apart(s, d)
    ensures forall q: Path :: s <= q ==> Get(fs, q) == Get(was, q)
  {
    forall q: Path | s <= q ensures Get(fs, q) == Get(was, q) { assert !(d < q); }
  }

  lemma PartWayKeeps(was: Tree, fs: Tree, s: Path, d: Path, seen: set<string>, n: string, depth: nat)
    requires PartWay(was, fs, s, d, seen) && Apart(s, d) && Shallow(was, s, depth)
    ensures Get(fs, d) == Get(was, d) && Get(fs, s + [n]) == Get(was, s + [n]) && Shallow(fs, s, depth)
  {
    PartWayKeepsSource(was, fs, s, d, seen);
    forall p: Path | p in fs && s <= p ensures |p| <= |s| + depth { assert Get(fs, p) == Get(was, p); }
  }

  lemma PartWayIsSeen(was: Tree, fs: Tree, s: Path, d: Path, seen: set<string>)
    requires PartWay(was, fs, s, d, seen)
    ensures SeenDone(was, fs, s, d, seen) && OnlyBelow(was, fs, d)
  {
  }

  lemma PartWayOn(was: Tree, before: Tree, fs: Tree, s: Path, d: Path, seen: set<string>, n: string)
    requires PartWay(was, before, s, d, seen) && OnlyAt(before, fs, d + [n]) && Apart(s, d)
    requires EntryDone(before, fs, s, d, n)
    ensures PartWay(was, fs, s, d, seen + {n})
  {
    PartWayKeepsSource(was, before, s, d, seen);
    forall q: Path | d < q && q[|d|] in seen + {n} ensures Get(fs, q) == Carried(was, s + q[|d|..]) {
      if q[|d|] == n {
        assert d + [n] <= q;
        assert Get(before, s + q[|d|..]) == Get(was, s + q[|d|..]);
      } else {
        assert !(d + [n] <= q);
      }
    }
    forall q: Path | !(d < q && q[|d|] in seen + {n}) ensures Get(fs, q) == Get(was, q) {
      assert !(d + [n] <= q);
    }
  }

  /** Where the destination already mirrored the source, an entry's turn finds it in place. */
  lemma MirroredEntryIsThere(was: Tree, before: Tree, s: Path, d: Path, seen: set<string>, skip: set<string>, n: string)
    requires Mirrors(was, was, s, d, skip) && PartWay(was, before, s, d, seen)
    requires n !in seen && n !in skip && Apart(s, d)
    ensures EntryDone(before, before, s, d, n)
  {
    PartWayKeepsSource(was, before, s, d, seen);
    forall q: Path | d + [n] <= q ensures Get(before, q) == Carried(before, s + q[|d|..]) {
      assert d < q && q[|d|] == n;
      assert Get(before, q) == Get(was, q) == Wanted(was, s, q[|d|..], skip);
      assert Get(before, s + q[|d|..]) == Get(was, s + q[|d|..]);
    }
  }

  lemma NothingExtra(was: Tree, fs: Tree, s: Path, d: Path, skip: set<string>, seen: set<string>)
    requires Mirrors(was, was, s, d, skip) && PartWay(was, fs, s, d, seen)
    requires forall m :: m in seen <==> s + [m] in was && m !in skip && !was[s + [m]].Other?
    ensures forall n :: d + [n] in fs ==> n in seen
  {
    forall n | d + [n] in fs ensures n in seen {
      var q := d + [n];
      assert d < q && q[|d|] == n && q[|d|..] == [n];
      assert Get(was, q) == Wanted(was, s, [n], skip);
      assert n !in seen ==> Get(fs, q) == Get(was, q);
    }
  }

  lemma RemovedOne(was: Tree, before: Tree, fs: Tree, s: Path, d: Path, seen: set<string>, n: string)
    requires SeenDone(was, before, s, d, seen) && OnlyBelow(was, before, d) && n !in seen
    requires OnlyAt(before, fs, d + [n]) && forall q: Path :: d + [n] <= q ==> q !in fs
    ensures SeenDone(was, fs, s, d, seen) && OnlyBelow(was, fs, d)
    ensures d + [n] !in fs && forall m :: m != n ==> Get(fs, d + [m]) == Get(before, d + [m])
  {
    assert d + [n] <= d + [n];
    forall q: Path | d < q && q[|d|] in seen ensures Get(fs, q) == Carried(was, s + q[|d|..]) {
      assert !(d + [n] <= q);
    }
    forall q: Path | !(d < q) ensures Get(fs, q) == Get(was, q) { assert !(d + [n] <= q); }
    forall m | m != n ensures Get(fs, d + [m]) == Get(before, d + [m]) {
      assert (d + [m])[|d|] == m && (d + [n])[|d|] == n;
    }
  }

  lemma AllMirrored(was: Tree, fs: Tree, s: Path, d: Path, skip: set<string>, seen: set<string>)
    requires WellFormed(was) && WellFormed(fs) && SeenDone(was, fs, s, d, seen)
    requires forall n :: n in seen <==> s + [n] in was && n !in skip && !was[s + [n]].Other?
    requires forall n :: d + [n] in fs ==> n in seen
    ensures Mirrors(was, fs, s, d, skip)
  {
    hide WellFormed, Wanted, Carried;
    forall q: Path | d < q ensures Get(fs, q) == Wanted(was, s, q[|d|..], skip) {
      if q[|d|] in seen {
        SeenIsWanted(was, s, q[|d|..], skip);
      } else {
        UnseenIsMirrored(was, fs, s, d, skip, q);
      }
    }
  }

  lemma SeenIsWanted(was: Tree, s: Path, r: Path, skip: set<string>)
    requires r != [] && r[0] !in skip
    ensures Wanted(was, s, r, skip) == Carried(was, s + r)
  {
  }

  lemma UnseenIsMirrored(was: Tree, fs: Tree, s: Path, d: Path, skip: set<string>, q: Path)
    requires WellFormed(was) && WellFormed(fs) && d < q && d + [q[|d|]] !in fs
    requires !(s + [q[|d|]] in was && q[|d|] !in skip && !was[s + [q[|d|]]].Other?)
    ensures Get(fs, q) == Wanted(was, s, q[|d|..], skip)
  {
    hide WellFormed, Wanted;
    AbsentHoldsNothing(fs, d + [q[|d|]]);
    assert d + [q[|d|]] <= q;
    UnseenIsUnwanted(was, s, q[|d|..], skip);
  }

  lemma UnseenIsUnwanted(was: Tree, s: Path, r: Path, skip: set<string>)
    requires WellFormed(was) && r != [] && !(s + [r[0]] in was && r[0] !in skip && !was[s + [r[0]]].Other?)
    ensures Wanted(was, s, r, skip).None?
  {
    var from := s + r;
    assert s + [r[0]] <= from;
    if from in was && s + [r[0]] != from { AncestorsAreFolders(was, s + [r[0]], from); }
  }

  // ---------------------------------------------------------------- the promises

  /** A length no path of the tree exceeds. */
  ghost function Deepest(paths: set<Path>): (depth: nat)
    ensures forall p :: p in paths ==> |p| <= depth
  {
    if paths == {} then 0 else
      var p :| p in paths;
      var rest := Deepest(paths - {p});
      if |p| > rest then |p| else rest
  }

  /** `StagingTree.refresh`, twice: whatever the destination held, it ends equal to the source's
      folders and files less the skipped names, the source and all else untouched; and a second
      refresh writes nothing. */
  method RefreshTwice(disk: Disk, s: Path, d: Path, skip: set<string>) returns (once: Tree, touched: seq<Path>)
    requires WellFormed(disk.fs) && Apart(s, d)
    requires Get(disk.fs, s) == Some(Folder) && Get(disk.fs, d) == Some(Folder)
    modifies disk
    ensures WellFormed(disk.fs) && OnlyBelow(old(disk.fs), disk.fs, d)
    ensures Mirrors(old(disk.fs), once, s, d, skip) && disk.fs == once && disk.touched == touched
  {
    hide WellFormed, Mirrors, OnlyBelow, Shallow;
    AllAreShallow(disk.fs, s);
    disk.Mirror(s, d, skip, Deepest(disk.fs.Keys));
    once, touched := disk.fs, disk.touched;
    MirrorIsStable(old(disk.fs), once, s, d, skip);
    AllAreShallow(once, s);
    disk.Mirror(s, d, skip, Deepest(once.Keys));
    SameTree(once, disk.fs, s, d, skip);
  }

  lemma AllAreShallow(fs: Tree, s: Path)
    ensures Shallow(fs, s, Deepest(fs.Keys))
  {
  }

  lemma MirrorIsStable(was: Tree, once: Tree, s: Path, d: Path, skip: set<string>)
    requires Mirrors(was, once, s, d, skip) && OnlyBelow(was, once, d) && Apart(s, d)
    ensures Mirrors(once, once, s, d, skip)
    ensures Get(once, s) == Get(was, s) && Get(once, d) == Get(was, d)
  {
    forall q: Path | s <= q ensures Get(once, q) == Get(was, q) { assert !(d < q); }
    assert s <= s;
    forall q: Path | d < q ensures Get(once, q) == Wanted(once, s, q[|d|..], skip) {
      assert Get(once, s + q[|d|..]) == Get(was, s + q[|d|..]);
    }
  }

  lemma SameTree(a: Tree, b: Tree, s: Path, d: Path, skip: set<string>)
    requires Mirrors(a, a, s, d, skip) && Mirrors(a, b, s, d, skip) && OnlyBelow(a, b, d)
    ensures a == b
  {
    forall q: Path ensures Get(a, q) == Get(b, q) { if d < q { } }
    assert forall q :: q in a <==> Get(a, q).Some?;
    assert forall q :: q in b <==> Get(b, q).Some?;
  }
}
