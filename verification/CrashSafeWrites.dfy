/** Complete-or-absent creates and staged replaces (`defender/_io.py`, `defender/_filesystem/write.py`)
    at every crash point and under any interleaving of writers.

    One folder, any number of writer processes. Each system call is a step; a process may fail or
    be killed between any two. A state a run reaches is what a reader, or the next boot, sees. */
module CrashSafeWrites {
  import opened Options

  type Name = string
  type Proc = nat
  type Inode = nat
  type Bytes = seq<bv8>

  /** What a process was started to do. */
  datatype Job = Create(name: Name, body: Bytes) | Replace(name: Name, body: Bytes)

  datatype Outcome = Created | Replaced | NameTaken | Failed

  datatype Pc =
    | Judging                                     // `_leaf_present`: a no-follow stat of the name
    | Opening                                     // the unnamed open, or the staged `O_EXCL` one
    | WritingUnnamed(inode: Inode, written: nat)
    | Synced(inode: Inode)                        // whole and synced, about to be linked
    | Linked                                      // named, the folder still to be synced
    | WritingStaged(staged: Name, inode: Inode, written: nat)
    | Unstaging(staged: Name)                     // the `except` arm: unlink what was staged
    | Finished(outcome: Outcome)
    | Killed

  /** `jobs` and `before` (the files there at the start) never change; `maker` says which process
      made an inode, `linked` which processes' links took effect, in order. */
  datatype State = State(
    jobs: map<Proc, Job>,
    before: map<Inode, Bytes>,
    dir: map<Name, Inode>,
    files: map<Inode, Bytes>,
    maker: map<Inode, Proc>,
    linked: seq<Proc>,
    pcs: map<Proc, Pc>)

  ghost predicate IsTarget(jobs: map<Proc, Job>, n: Name) {
    exists p :: p in jobs && jobs[p].name == n
  }

  ghost predicate IsStart(s: State) {
    && s.files == s.before && s.maker == map[] && s.linked == []
    && s.pcs.Keys == s.jobs.Keys && (forall p :: p in s.pcs ==> s.pcs[p] == Judging)
    && forall n :: n in s.dir ==> s.dir[n] in s.files
  }

  // ---------------------------------------------------------------- the steps

  datatype Action =
    | Judge(p: Proc, plain: bool)
    | OpenUnnamed(p: Proc, inode: Inode)
    | OpenStaged(p: Proc, staged: Name, inode: Inode)
    | WriteSome(p: Proc, count: nat)
    | Sync(p: Proc)
    | Link(p: Proc)
    | SyncFolder(p: Proc)
    | Rename(p: Proc)
    | Fail(p: Proc)                   // any step of the writer raising
    | Unstage(p: Proc, removed: bool) // the clean-up unlink, itself allowed to fail
    | Kill(p: Proc)
    | Remove(name: Name)                 // someone unlinks a name

  ghost predicate Enabled(s: State, a: Action) {
    match a
    case Judge(p, plain) =>
      p in s.jobs && p in s.pcs && s.pcs[p].Judging?
    case OpenUnnamed(p, inode) =>
      p in s.jobs && p in s.pcs && s.pcs[p].Opening? && s.jobs[p].Create? && inode !in s.files
    case OpenStaged(p, staged, inode) =>
      // Unpredictable: no one's target; `O_EXCL`: nothing there.
      p in s.jobs && p in s.pcs && s.pcs[p].Opening? && s.jobs[p].Replace?
      && !IsTarget(s.jobs, staged) && staged !in s.dir && inode !in s.files
    case WriteSome(p, n) =>
      p in s.jobs && p in s.pcs && (s.pcs[p].WritingUnnamed? || s.pcs[p].WritingStaged?)
      && s.pcs[p].inode in s.files && s.pcs[p].written + n <= |s.jobs[p].body|
    case Sync(p) =>
      p in s.jobs && p in s.pcs && s.pcs[p].WritingUnnamed? && s.pcs[p].written == |s.jobs[p].body|
    case Link(p) => p in s.jobs && p in s.pcs && s.pcs[p].Synced?
    case SyncFolder(p) => p in s.jobs && p in s.pcs && s.pcs[p].Linked?
    case Rename(p) =>
      p in s.jobs && p in s.pcs && s.pcs[p].WritingStaged? && s.pcs[p].written == |s.jobs[p].body|
      && s.pcs[p].staged in s.dir
    case Fail(p) =>
      p in s.jobs && p in s.pcs && !s.pcs[p].Finished? && !s.pcs[p].Killed? && !s.pcs[p].Unstaging?
    case Unstage(p, _) => p in s.jobs && p in s.pcs && s.pcs[p].Unstaging?
    case Kill(p) => p in s.jobs && p in s.pcs
    case Remove(n) => IsTarget(s.jobs, n) && n in s.dir
  }

  function At(s: State, p: Proc, pc: Pc): State { s.(pcs := s.pcs[p := pc]) }

  ghost function Apply(s: State, a: Action): State
    requires Enabled(s, a)
  {
    match a
    case Judge(p, plain) =>
      // An occupied name stops a create; anything but a plain file stops both.
      At(s, p, if s.jobs[p].name !in s.dir then Opening
               else if plain && s.jobs[p].Replace? then Opening
               else if plain then Finished(NameTaken) else Finished(Failed))
    case OpenUnnamed(p, inode) =>
      At(s, p, WritingUnnamed(inode, 0)).(files := s.files[inode := []], maker := s.maker[inode := p])
    case OpenStaged(p, staged, inode) =>
      At(s, p, WritingStaged(staged, inode, 0))
        .(files := s.files[inode := []], maker := s.maker[inode := p], dir := s.dir[staged := inode])
    case WriteSome(p, n) =>
      var pc := s.pcs[p];
      At(s, p, pc.(written := pc.written + n))
        .(files := s.files[pc.inode := s.files[pc.inode] + s.jobs[p].body[pc.written..pc.written + n]])
    case Sync(p) => At(s, p, Synced(s.pcs[p].inode))
    case Link(p) =>
      if s.jobs[p].name in s.dir then At(s, p, Finished(NameTaken))
      else At(s, p, Linked).(dir := s.dir[s.jobs[p].name := s.pcs[p].inode], linked := s.linked + [p])
    case SyncFolder(p) => At(s, p, Finished(Created))
    case Rename(p) =>
      var staged := s.pcs[p].staged;
      At(s, p, Finished(Replaced)).(dir := (s.dir - {staged})[s.jobs[p].name := s.dir[staged]])
    case Fail(p) => At(s, p, if s.pcs[p].WritingStaged? then Unstaging(s.pcs[p].staged) else Finished(Failed))
    case Unstage(p, removed) => At(s, p, Finished(Failed)).(dir := if removed then s.dir - {s.pcs[p].staged} else s.dir)
    case Kill(p) => At(s, p, Killed)
    case Remove(n) => s.(dir := s.dir - {n})
  }

  ghost function Run(s: State, run: seq<Action>): Option<State>
    decreases |run|
  {
    if run == [] then Some(s)
    else if !Enabled(s, run[0]) then None
    else Run(Apply(s, run[0]), run[1..])
  }

  // ---------------------------------------------------------------- what every step keeps

  /** The inode a process still writes. */
  predicate Writes(pc: Pc, i: Inode) { (pc.WritingUnnamed? || pc.WritingStaged?) && pc.inode == i }

  /** What was there at the start is there untouched, and no one's to write; every other inode has
      one maker, which had a job. */
  ghost predicate FilesHold(s: State) {
    && (forall i :: i in s.before ==> i in s.files && s.files[i] == s.before[i] && i !in s.maker)
    && (forall i :: i in s.maker ==> i in s.files && s.maker[i] in s.jobs)
    && (forall i :: i in s.files ==> i in s.before || i in s.maker)
  }

  /** A writer's inode is its own and holds exactly the prefix written so far; an unnamed one has
      no name, a staged one only its staged name, which is no one's target. */
  ghost predicate WriterHolds(s: State, p: Proc)
    requires p in s.jobs && p in s.pcs
  {
    match s.pcs[p]
    case WritingUnnamed(i, w) =>
      && i in s.files && i in s.maker && s.maker[i] == p && w <= |s.jobs[p].body| && s.files[i] == s.jobs[p].body[..w]
      && s.jobs[p].Create? && forall n :: n in s.dir ==> s.dir[n] != i
    case Synced(i) =>
      && i in s.files && i in s.maker && s.maker[i] == p && s.files[i] == s.jobs[p].body
      && s.jobs[p].Create? && forall n :: n in s.dir ==> s.dir[n] != i
    case WritingStaged(staged, i, w) =>
      && i in s.files && i in s.maker && s.maker[i] == p && w <= |s.jobs[p].body| && s.files[i] == s.jobs[p].body[..w]
      && s.jobs[p].Replace? && !IsTarget(s.jobs, staged) && staged in s.dir && s.dir[staged] == i
      && forall n :: n in s.dir && n != staged ==> s.dir[n] != i
    case Unstaging(staged) =>
      && !IsTarget(s.jobs, staged) && staged in s.dir
      && s.dir[staged] in s.files && s.dir[staged] in s.maker && s.maker[s.dir[staged]] == p
    case _ => true
  }

  /** A target name is bound to a file from before, or to the whole body of a job for that name that
      nobody writes any more. */
  ghost predicate WholeAt(s: State, n: Name)
    requires n in s.dir
  {
    var i := s.dir[n];
    && i in s.files
    && (i in s.before ||
        (i in s.maker && s.maker[i] in s.jobs && s.maker[i] in s.pcs && s.jobs[s.maker[i]].name == n
         && s.files[i] == s.jobs[s.maker[i]].body && !Writes(s.pcs[s.maker[i]], i)))
  }

  ghost predicate WritersHold(s: State)
    requires s.pcs.Keys == s.jobs.Keys
  {
    forall p :: p in s.pcs ==> WriterHolds(s, p)
  }

  ghost predicate TargetsHold(s: State) {
    forall n :: n in s.dir && IsTarget(s.jobs, n) ==> WholeAt(s, n)
  }

  ghost predicate DirHolds(s: State) {
    forall n :: n in s.dir ==> s.dir[n] in s.files
  }

  ghost predicate Inv(s: State) {
    s.pcs.Keys == s.jobs.Keys && FilesHold(s) && DirHolds(s) && WritersHold(s) && TargetsHold(s)
  }

  lemma OwnWriter(s: State, p: Proc)
    requires s.pcs.Keys == s.jobs.Keys && WritersHold(s) && p in s.pcs
    ensures WriterHolds(s, p)
  {
  }

  /** A step that leaves what `q` made, and the names it goes by, alone. */
  ghost predicate Spares(s: State, after: State, q: Proc) {
    && (forall i :: i in s.maker && s.maker[i] == q && i in s.files ==>
          i in after.maker && after.maker[i] == q && i in after.files && after.files[i] == s.files[i])
    && (forall n :: n in after.dir && after.dir[n] in s.maker && s.maker[after.dir[n]] == q ==>
          n in s.dir && s.dir[n] == after.dir[n])
    && (forall n :: n in s.dir && s.dir[n] in s.maker && s.maker[s.dir[n]] == q && !IsTarget(s.jobs, n) ==>
          n in after.dir && after.dir[n] == s.dir[n])
  }

  lemma WriterSpared(s: State, after: State, q: Proc)
    requires q in s.jobs && q in s.pcs && q in after.pcs && after.pcs[q] == s.pcs[q] && after.jobs == s.jobs
    requires WriterHolds(s, q) && Spares(s, after, q)
    ensures WriterHolds(after, q)
  {
  }

  /** What `p` made and no longer writes stays as it is. */
  ghost predicate Sealed(s: State, after: State, p: Proc)
    requires p in s.pcs && p in after.pcs
  {
    forall i :: i in s.maker && s.maker[i] == p && i in s.files && !Writes(s.pcs[p], i) ==>
      && i in after.maker && after.maker[i] == p && i in after.files && after.files[i] == s.files[i]
      && !Writes(after.pcs[p], i)
  }

  lemma WholeKept(s: State, after: State, p: Proc, n: Name)
    requires p in s.pcs && after.jobs == s.jobs && after.before == s.before
    requires p in after.pcs && after.pcs == s.pcs[p := after.pcs[p]]
    requires FilesHold(after) && n in s.dir && n in after.dir && after.dir[n] == s.dir[n] && WholeAt(s, n)
    requires forall q :: q in s.pcs && q != p ==> Spares(s, after, q)
    requires Sealed(s, after, p)
    ensures WholeAt(after, n)
  {
    var i := s.dir[n];
    if i !in s.before {
      var q := s.maker[i];
      if q != p { assert Spares(s, after, q); }
    }
  }

  /** A step of `p` keeps the invariant when it spares the other writers, leaves what `p` had
      finished alone and binds targets only to whole files. */
  lemma StepOfOneKeeps(s: State, after: State, p: Proc)
    requires Inv(s) && p in s.pcs && after.jobs == s.jobs && after.before == s.before
    requires p in after.pcs && after.pcs == s.pcs[p := after.pcs[p]]
    requires FilesHold(after) && DirHolds(after) && WriterHolds(after, p)
    requires forall q :: q in s.pcs && q != p ==> Spares(s, after, q)
    requires Sealed(s, after, p)
    requires forall n :: n in after.dir && IsTarget(s.jobs, n) ==>
               (n in s.dir && s.dir[n] == after.dir[n]) || WholeAt(after, n)
    ensures Inv(after)
  {
    hide WriterHolds, WholeAt, FilesHold, DirHolds, Spares, Sealed;
    assert after.pcs.Keys == after.jobs.Keys;
    forall q | q in after.pcs ensures WriterHolds(after, q) {
      if q != p { WriterSpared(s, after, q); }
    }
    forall n | n in after.dir && IsTarget(after.jobs, n) ensures WholeAt(after, n) {
      if n in s.dir && s.dir[n] == after.dir[n] { WholeKept(s, after, p, n); }
    }
  }

  /** Touching only an inode of its own, new or already its, a process spares every other. */
  lemma OwnInodeSpares(s: State, after: State, p: Proc, i: Inode, bytes: Bytes, q: Proc)
    requires FilesHold(s) && q != p && (i in s.maker ==> s.maker[i] == p) && (i in s.files ==> i in s.maker)
    requires after.files == s.files[i := bytes] && after.maker == s.maker[i := p]
    requires after.dir == s.dir || exists n :: n !in s.dir && after.dir == s.dir[n := i]
    ensures Spares(s, after, q)
  {
  }

  /** Nothing but the process's own place changes. */
  lemma MoveKeeps(s: State, p: Proc, pc: Pc)
    requires Inv(s) && p in s.pcs && WriterHolds(At(s, p, pc), p)
    requires forall i :: Writes(pc, i) ==> Writes(s.pcs[p], i)
    ensures Inv(At(s, p, pc))
  {
    hide WritersHold, TargetsHold, WriterHolds, WholeAt, IsTarget;
    StepOfOneKeeps(s, At(s, p, pc), p);
  }

  lemma OpenUnnamedKeeps(s: State, p: Proc, i: Inode)
    requires Inv(s) && Enabled(s, OpenUnnamed(p, i))
    ensures Inv(Apply(s, OpenUnnamed(p, i)))
  {
    hide WritersHold, TargetsHold, WholeAt, IsTarget, Spares;
    var after := Apply(s, OpenUnnamed(p, i));
    forall q | q in s.pcs && q != p ensures Spares(s, after, q) { OwnInodeSpares(s, after, p, i, [], q); }
    assert FilesHold(after);
    StepOfOneKeeps(s, after, p);
  }

  lemma OpenStagedKeeps(s: State, p: Proc, staged: Name, i: Inode)
    requires Inv(s) && Enabled(s, OpenStaged(p, staged, i))
    ensures Inv(Apply(s, OpenStaged(p, staged, i)))
  {
    hide WritersHold, TargetsHold, WholeAt, IsTarget, Spares;
    var after := Apply(s, OpenStaged(p, staged, i));
    forall q | q in s.pcs && q != p ensures Spares(s, after, q) { OwnInodeSpares(s, after, p, i, [], q); }
    assert FilesHold(after);
    StepOfOneKeeps(s, after, p);
  }

  lemma WriteKeeps(s: State, p: Proc, n: nat)
    requires Inv(s) && Enabled(s, WriteSome(p, n))
    ensures Inv(Apply(s, WriteSome(p, n)))
  {
    hide WritersHold, TargetsHold, WholeAt, IsTarget, Spares;
    OwnWriter(s, p);
    var pc, body := s.pcs[p], s.jobs[p].body;
    var after := Apply(s, WriteSome(p, n));
    assert body[..pc.written] + body[pc.written..pc.written + n] == body[..pc.written + n];
    assert after.maker == s.maker[pc.inode := p];
    forall q | q in s.pcs && q != p ensures Spares(s, after, q) {
      OwnInodeSpares(s, after, p, pc.inode, after.files[pc.inode], q);
    }
    assert FilesHold(after);
    StepOfOneKeeps(s, after, p);
  }

  lemma LinkKeeps(s: State, p: Proc)
    requires Inv(s) && Enabled(s, Link(p)) && s.jobs[p].name !in s.dir
    ensures Inv(Apply(s, Link(p)))
  {
    hide WritersHold, TargetsHold, IsTarget;
    OwnWriter(s, p);
    StepOfOneKeeps(s, Apply(s, Link(p)), p);
  }

  lemma RenameKeeps(s: State, p: Proc)
    requires Inv(s) && Enabled(s, Rename(p))
    ensures Inv(Apply(s, Rename(p)))
  {
    hide WritersHold, TargetsHold, Spares;
    OwnWriter(s, p);
    assert IsTarget(s.jobs, s.jobs[p].name);
    assert s.jobs[p].body[..|s.jobs[p].body|] == s.jobs[p].body;
    var after := Apply(s, Rename(p));
    forall q | q in s.pcs && q != p ensures Spares(s, after, q) { RenameSpares(s, p, q); }
    StepOfOneKeeps(s, after, p);
  }

  lemma RenameSpares(s: State, p: Proc, q: Proc)
    requires Enabled(s, Rename(p)) && WriterHolds(s, p) && q != p && IsTarget(s.jobs, s.jobs[p].name)
    ensures Spares(s, Apply(s, Rename(p)), q)
  {
    hide IsTarget;
  }

  lemma UnstageKeeps(s: State, p: Proc, removed: bool)
    requires Inv(s) && Enabled(s, Unstage(p, removed))
    ensures Inv(Apply(s, Unstage(p, removed)))
  {
    hide WritersHold, TargetsHold, WholeAt, IsTarget;
    OwnWriter(s, p);
    StepOfOneKeeps(s, Apply(s, Unstage(p, removed)), p);
  }

  lemma RemoveKeeps(s: State, n: Name)
    requires Inv(s) && Enabled(s, Remove(n))
    ensures Inv(Apply(s, Remove(n)))
  {
    hide IsTarget;
    var after := Apply(s, Remove(n));
    forall q | q in s.pcs ensures WriterHolds(after, q) {
      hide WriterHolds;
      assert WriterHolds(s, q);
      WriterSpared(s, after, q);
    }
  }

  lemma StepKeeps(s: State, a: Action)
    requires Inv(s) && Enabled(s, a)
    ensures Inv(Apply(s, a))
  {
    hide Inv, WritersHold, TargetsHold, FilesHold, DirHolds;
    match a
    case Judge(p, plain) => PlaceChange(s, a);
    case OpenUnnamed(p, i) => OpenUnnamedKeeps(s, p, i);
    case OpenStaged(p, staged, i) => OpenStagedKeeps(s, p, staged, i);
    case WriteSome(p, n) => WriteKeeps(s, p, n);
    case Sync(p) => PlaceChange(s, a);
    case SyncFolder(p) => PlaceChange(s, a);
    case Link(p) => if s.jobs[p].name in s.dir { PlaceChange(s, a); } else { LinkKeeps(s, p); }
    case Rename(p) => RenameKeeps(s, p);
    case Fail(p) => PlaceChange(s, a);
    case Unstage(p, removed) => UnstageKeeps(s, p, removed);
    case Kill(p) => PlaceChange(s, a);
    case Remove(n) => RemoveKeeps(s, n);
  }

  lemma PlaceChange(s: State, a: Action)
    requires Inv(s) && Enabled(s, a)
    requires a.Judge? || a.Sync? || a.SyncFolder? || a.Fail? || a.Kill? || (a.Link? && s.jobs[a.p].name in s.dir)
    ensures Inv(Apply(s, a))
  {
    hide WritersHold, TargetsHold, FilesHold, DirHolds;
    OwnWriter(s, a.p);
    assert s.jobs[a.p].body[..|s.jobs[a.p].body|] == s.jobs[a.p].body;
    MoveKeeps(s, a.p, Apply(s, a).pcs[a.p]);
  }

  lemma StepKeepsJobs(s: State, a: Action)
    requires Enabled(s, a)
    ensures Apply(s, a).jobs == s.jobs && Apply(s, a).before == s.before
  {
  }

  lemma {:induction false} RunKeeps(s: State, run: seq<Action>)
    requires Inv(s) && Run(s, run).Some?
    ensures Inv(Run(s, run).value)
    ensures Run(s, run).value.jobs == s.jobs && Run(s, run).value.before == s.before
    decreases |run|
  {
    hide Inv, Enabled, Apply;
    if run != [] {
      StepKeeps(s, run[0]);
      StepKeepsJobs(s, run[0]);
      RunKeeps(Apply(s, run[0]), run[1..]);
    }
  }

  lemma StartHolds(s: State)
    requires IsStart(s)
    ensures Inv(s)
  {
  }

  // ---------------------------------------------------------------- the promises

  /** At every point of every run, crash points included, a name a writer targets is absent, bound
      to a file that was there before with its bytes intact, or bound to the whole body of one of
      the jobs for that name: never to a partial file. */
  lemma NameIsAbsentOrWhole(start: State, run: seq<Action>, s: State, n: Name)
    requires IsStart(start) && Run(start, run) == Some(s) && IsTarget(start.jobs, n) && n in s.dir
    ensures s.dir[n] in s.files
    ensures (s.dir[n] in start.files && s.files[s.dir[n]] == start.files[s.dir[n]])
            || exists p :: p in start.jobs && start.jobs[p].name == n && s.files[s.dir[n]] == start.jobs[p].body
  {
    StartHolds(start);
    RunKeeps(start, run);
    assert WholeAt(s, n);
    if s.dir[n] !in s.before {
      var p := s.maker[s.dir[n]];
      assert p in start.jobs && start.jobs[p].name == n && s.files[s.dir[n]] == start.jobs[p].body;
    }
  }

  /** What a step does to a target name. */
  lemma TargetBinding(s: State, a: Action, n: Name)
    requires s.pcs.Keys == s.jobs.Keys && WritersHold(s) && Enabled(s, a) && IsTarget(s.jobs, n) && a != Remove(n)
    ensures var after := Apply(s, a);
            if a.Link? && s.jobs[a.p].name == n && n !in s.dir then
              after.dir == s.dir[n := s.pcs[a.p].inode] && after.files == s.files && after.linked == s.linked + [a.p]
            else if a.Rename? && s.jobs[a.p].name == n then
              n in after.dir && after.dir[n] == s.pcs[a.p].inode && after.files == s.files && after.linked == s.linked
            else
              && (n in after.dir <==> n in s.dir) && (n in s.dir ==> after.dir[n] == s.dir[n])
              && (after.linked == s.linked || (a.Link? && s.jobs[a.p].name != n && after.linked == s.linked + [a.p]))
  {
    hide WritersHold, IsTarget;
    if !a.Remove? { OwnWriter(s, a.p); }
  }

  /** Only a link or a rename changes what a target is bound to, and it binds its own job's name to
      its own whole body; a failure, a kill or a clean-up leaves every target as it was. */
  lemma TargetsChangeWhole(start: State, run: seq<Action>, s: State, a: Action, n: Name)
    requires IsStart(start) && Run(start, run) == Some(s) && Enabled(s, a) && IsTarget(s.jobs, n)
    requires a != Remove(n) && !(n !in s.dir && n !in Apply(s, a).dir)
    requires !(n in s.dir && n in Apply(s, a).dir && Apply(s, a).dir[n] == s.dir[n])
    ensures (a.Link? && s.jobs[a.p].Create? && n !in s.dir) || (a.Rename? && s.jobs[a.p].Replace?)
    ensures var after := Apply(s, a);
            && s.jobs[a.p].name == n && n in after.dir && after.dir[n] in after.files
            && after.files[after.dir[n]] == s.jobs[a.p].body
  {
    StartHolds(start);
    RunKeeps(start, run);
    hide FilesHold, TargetsHold, DirHolds, WritersHold, IsTarget, Apply;
    TargetBinding(s, a, n);
    if a.Link? || a.Rename? {
      OwnWriter(s, a.p);
      assert s.jobs[a.p].body[..|s.jobs[a.p].body|] == s.jobs[a.p].body;
    }
  }

  // ---------------------------------------------------------------- one winner

  predicate Leaves(run: seq<Action>, n: Name) { forall k :: 0 <= k < |run| ==> run[k] != Remove(n) }

  ghost predicate CreatorsOnly(jobs: map<Proc, Job>, n: Name) {
    forall p :: p in jobs && jobs[p].name == n ==> jobs[p].Create?
  }

  predicate LinkedAs(s: State, k: nat, n: Name) {
    k < |s.linked| && s.linked[k] in s.jobs && s.jobs[s.linked[k]].name == n
  }

  /** While no one unlinks `n`: it stays bound once bound, a link takes effect on it at most once,
      and among creators alone what it is bound to is that link's. */
  ghost predicate OneWinner(start: State, s: State, n: Name) {
    && s.jobs == start.jobs
    && (n in start.dir ==> n in s.dir)
    && (forall k: nat :: LinkedAs(s, k, n) ==> n in s.dir && n !in start.dir)
    && (forall k: nat, l: nat :: LinkedAs(s, k, n) && LinkedAs(s, l, n) ==> k == l)
    && (CreatorsOnly(s.jobs, n) && n in s.dir && n !in start.dir ==>
          exists k: nat :: WonBy(s, k, n))
  }

  /** The `k`-th link took `n`, and `n` is still bound to the file it linked. */
  predicate WonBy(s: State, k: nat, n: Name) {
    LinkedAs(s, k, n) && n in s.dir && s.dir[n] in s.maker && s.maker[s.dir[n]] == s.linked[k]
  }

  lemma WinnerStep(start: State, s: State, a: Action, n: Name)
    requires Inv(s) && OneWinner(start, s, n) && IsTarget(s.jobs, n) && Enabled(s, a) && a != Remove(n)
    ensures OneWinner(start, Apply(s, a), n)
  {
    hide FilesHold, TargetsHold, DirHolds, WritersHold, IsTarget, Apply;
    StepKeepsJobs(s, a);
    MakersStay(s, a);
    TargetBinding(s, a, n);
    var after := Apply(s, a);
    if a.Link? || a.Rename? { OwnWriter(s, a.p); }
    assert forall k: nat :: LinkedAs(s, k, n) ==> LinkedAs(after, k, n);
    if a.Link? && s.jobs[a.p].name == n && n !in s.dir {
      assert WonBy(after, |s.linked|, n);
      assert forall k: nat :: LinkedAs(after, k, n) ==> LinkedAs(s, k, n) || k == |s.linked|;
    } else {
      assert forall k: nat :: LinkedAs(after, k, n) ==> LinkedAs(s, k, n);
      if CreatorsOnly(s.jobs, n) && n in s.dir && n !in start.dir {
        var k: nat :| WonBy(s, k, n);
        assert WonBy(after, k, n);
      }
    }
  }

  lemma MakersStay(s: State, a: Action)
    requires FilesHold(s) && Enabled(s, a)
    ensures forall i :: i in s.maker ==> i in Apply(s, a).maker && Apply(s, a).maker[i] == s.maker[i]
  {
  }

  lemma {:induction false} WinnerRun(start: State, s: State, run: seq<Action>, n: Name)
    requires Inv(s) && OneWinner(start, s, n) && IsTarget(s.jobs, n) && Run(s, run).Some? && Leaves(run, n)
    ensures OneWinner(start, Run(s, run).value, n)
    decreases |run|
  {
    hide Inv, OneWinner, Enabled, IsTarget, Apply;
    if run != [] {
      StepKeepsJobs(s, run[0]);
      assert run[0] != Remove(n);
      WinnerStep(start, s, run[0], n);
      StepKeeps(s, run[0]);
      assert forall k :: 0 <= k < |run| - 1 ==> run[1..][k] == run[k + 1];
      WinnerRun(start, Apply(s, run[0]), run[1..], n);
    }
  }

  /** Of any number of creators racing for a name nobody unlinks, at most one wins, and none where
      something stood. */
  lemma AtMostOneCreatorWins(start: State, run: seq<Action>, s: State, n: Name, k: nat, l: nat)
    requires IsStart(start) && Run(start, run) == Some(s) && IsTarget(start.jobs, n) && Leaves(run, n)
    requires LinkedAs(s, k, n) && LinkedAs(s, l, n)
    ensures k == l && n in s.dir && n !in start.dir
  {
    StartHolds(start);
    WinnerRun(start, start, run, n);
  }

  /** And if the name came to be bound, exactly one creator won it, and it holds the winner's whole
      body. */
  lemma BoundNameHasItsWinner(start: State, run: seq<Action>, s: State, n: Name) returns (k: nat)
    requires IsStart(start) && Run(start, run) == Some(s) && IsTarget(start.jobs, n) && Leaves(run, n)
    requires CreatorsOnly(start.jobs, n) && n !in start.dir && n in s.dir
    ensures LinkedAs(s, k, n) && forall l: nat :: LinkedAs(s, l, n) ==> l == k
    ensures s.dir[n] in s.files && s.files[s.dir[n]] == s.jobs[s.linked[k]].body
  {
    StartHolds(start);
    RunKeeps(start, run);
    WinnerRun(start, start, run, n);
    hide Run, WritersHold, FilesHold;
    k :| WonBy(s, k, n);
    WholeIsItsMakers(s, n);
  }

  lemma WholeIsItsMakers(s: State, n: Name)
    requires Inv(s) && n in s.dir && IsTarget(s.jobs, n) && s.dir[n] in s.maker
    ensures s.dir[n] in s.files && s.maker[s.dir[n]] in s.jobs && s.files[s.dir[n]] == s.jobs[s.maker[s.dir[n]]].body
  {
    hide WritersHold, IsTarget;
    assert WholeAt(s, n);
  }
}
