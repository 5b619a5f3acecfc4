/** What a writer is told, and what is then so (`defender/_io.py`, `defender/_filesystem/write.py`): a
    creator is told it created exactly when its link took the name, the name is taken only where it
    was, and what fails leaves every target alone. */
module CrashSafeOutcomes {
  import opened Options
  import opened CrashSafeWrites

  function PcOf(s: State, p: Proc): Pc { if p in s.pcs then s.pcs[p] else Killed }

  predicate Over(pc: Pc) { pc.Finished? || pc.Killed? }

  // ---------------------------------------------------------------- links and what they tell

  predicate AfterLink(pc: Pc) {
    pc.Linked? || pc == Finished(Created) || pc == Finished(Failed) || pc.Killed?
  }

  /** Who is told it created has linked; who has linked is a creator and on its way to being told, unless
      the folder's sync fails it or it is killed. */
  ghost predicate LinkTold(s: State, p: Proc) {
    && (PcOf(s, p).Linked? || PcOf(s, p) == Finished(Created) ==> p in s.linked)
    && (p in s.linked ==> p in s.jobs && s.jobs[p].Create? && p in s.pcs && AfterLink(s.pcs[p]))
  }

  /** The step's own process, if it has one. */
  predicate Acts(a: Action, p: Proc) { !a.Remove? && a.p == p }

  lemma StandsStill(s: State, a: Action, p: Proc)
    requires Enabled(s, a) && !Acts(a, p)
    ensures PcOf(Apply(s, a), p) == PcOf(s, p) && (p in Apply(s, a).pcs <==> p in s.pcs)
    ensures p in Apply(s, a).linked <==> p in s.linked
  {
    if !a.Remove? { OnlyItsOwnPlace(s, a); }
  }

  lemma OnlyItsOwnPlace(s: State, a: Action)
    requires Enabled(s, a) && !a.Remove?
    ensures a.p in s.pcs && a.p in Apply(s, a).pcs && Apply(s, a).pcs == s.pcs[a.p := Apply(s, a).pcs[a.p]]
    ensures Apply(s, a).linked == s.linked || (a.Link? && Apply(s, a).linked == s.linked + [a.p])
  {
  }

  lemma OwnStepTold(s: State, a: Action)
    requires Enabled(s, a) && !a.Remove? && LinkTold(s, a.p) && (s.pcs[a.p].Synced? ==> s.jobs[a.p].Create?)
    ensures LinkTold(Apply(s, a), a.p)
  {
  }

  lemma LinkToldKept(s: State, a: Action, p: Proc)
    requires Inv(s) && LinkTold(s, p) && Enabled(s, a)
    ensures LinkTold(Apply(s, a), p)
  {
    hide FilesHold, DirHolds, TargetsHold, WritersHold, LinkTold, Apply;
    if Acts(a, p) {
      OwnWriter(s, p);
      OwnStepTold(s, a);
    } else {
      StandsStill(s, a, p);
      StepKeepsJobs(s, a);
      SameLinkTold(s, Apply(s, a), p);
    }
  }

  lemma SameLinkTold(s: State, after: State, p: Proc)
    requires LinkTold(s, p) && after.jobs == s.jobs && PcOf(after, p) == PcOf(s, p) && (p in after.pcs <==> p in s.pcs)
    requires p in after.linked <==> p in s.linked
    ensures LinkTold(after, p)
  {
  }

  lemma {:induction false} RunSplits(s: State, run: seq<Action>)
    requires Run(s, run).Some? && run != []
    ensures var before := Run(s, run[..|run| - 1]);
            && before.Some? && Enabled(before.value, run[|run| - 1])
            && Run(s, run).value == Apply(before.value, run[|run| - 1])
    decreases |run|
  {
    hide Apply, Enabled;
    if |run| > 1 {
      RunSplits(Apply(s, run[0]), run[1..]);
      assert run[1..][..|run| - 2] == run[..|run| - 1][1..];
    }
  }

  lemma {:induction false} EveryRunTells(start: State, run: seq<Action>, s: State, p: Proc)
    requires IsStart(start) && Run(start, run) == Some(s)
    ensures LinkTold(s, p)
    decreases |run|
  {
    hide Inv, LinkTold, Apply, Enabled;
    StartHolds(start);
    if run == [] {
      NobodyLinkedYet(start, p);
    } else {
      RunSplits(start, run);
      var last := |run| - 1;
      var before := Run(start, run[..last]).value;
      RunKeeps(start, run[..last]);
      EveryRunTells(start, run[..last], before, p);
      LinkToldKept(before, run[last], p);
    }
  }

  lemma NobodyLinkedYet(start: State, p: Proc)
    requires IsStart(start)
    ensures LinkTold(start, p)
  {
  }

  // ---------------------------------------------------------------- who is told it created

  /** In every run, whoever is told it created is a creator whose link took effect; and whoever's link
      took effect is told so, or is stopped before it can be. */
  lemma CreatedIsLinked(start: State, run: seq<Action>, s: State, p: Proc)
    requires IsStart(start) && Run(start, run) == Some(s)
    ensures PcOf(s, p) == Finished(Created) ==> p in s.linked && p in s.jobs && s.jobs[p].Create?
    ensures p in s.linked ==> AfterLink(PcOf(s, p))
  {
    EveryRunTells(start, run, s, p);
  }

  lemma LinkedWhere(s: State, p: Proc) returns (k: nat)
    requires p in s.linked && p in s.jobs
    ensures LinkedAs(s, k, s.jobs[p].name) && s.linked[k] == p
  {
    k :| 0 <= k < |s.linked| && s.linked[k] == p;
  }

  /** While nobody unlinks the name, two who are told they created it are one, and nothing stood there
      before. */
  lemma OneIsToldItCreated(start: State, run: seq<Action>, s: State, n: Name, p: Proc, q: Proc)
    requires IsStart(start) && Run(start, run) == Some(s) && Leaves(run, n)
    requires PcOf(s, p) == Finished(Created) && PcOf(s, q) == Finished(Created)
    requires p in start.jobs && q in start.jobs && start.jobs[p].name == start.jobs[q].name == n
    ensures p == q && n in s.dir && n !in start.dir
  {
    hide Run;
    CreatedIsLinked(start, run, s, p);
    CreatedIsLinked(start, run, s, q);
    StartHolds(start);
    RunKeeps(start, run);
    var k := LinkedWhere(s, p);
    var l := LinkedWhere(s, q);
    AtMostOneCreatorWins(start, run, s, n, k, l);
  }

  /** And among creators alone, the name holds the body of the one who is told. */
  lemma ToldCreatorsBodyStands(start: State, run: seq<Action>, s: State, p: Proc)
    requires IsStart(start) && Run(start, run) == Some(s) && PcOf(s, p) == Finished(Created) && p in start.jobs
    requires Leaves(run, start.jobs[p].name) && CreatorsOnly(start.jobs, start.jobs[p].name)
    ensures var n := start.jobs[p].name;
            n in s.dir && s.dir[n] in s.files && s.files[s.dir[n]] == start.jobs[p].body
  {
    hide Run;
    var n := start.jobs[p].name;
    OneIsToldItCreated(start, run, s, n, p, p);
    CreatedIsLinked(start, run, s, p);
    StartHolds(start);
    RunKeeps(start, run);
    var k := LinkedWhere(s, p);
    var l := BoundNameHasItsWinner(start, run, s, n);
    assert k == l;
  }

  // ---------------------------------------------------------------- why a writer is told what it is

  /** What was so at the step that told `p` its outcome. */
  ghost predicate Explains(before: State, after: State, p: Proc, outcome: Outcome)
    requires p in before.jobs
  {
    var n := before.jobs[p].name;
    match outcome
    case Created => before.jobs[p].Create? && p in before.linked
    case Replaced =>
      && before.jobs[p].Replace? && n in after.dir && after.dir[n] in after.files
      && after.files[after.dir[n]] == before.jobs[p].body
    case NameTaken => before.jobs[p].Create? && n in before.dir && after.dir == before.dir && p !in after.linked
    case Failed => forall m :: IsTarget(before.jobs, m) ==> SameThere(before, after, m)
  }

  predicate SameThere(before: State, after: State, m: Name) {
    (m in before.dir <==> m in after.dir) && (m in before.dir ==> before.dir[m] == after.dir[m])
  }

  lemma StepExplains(s: State, a: Action, p: Proc)
    requires Inv(s) && LinkTold(s, p) && Enabled(s, a) && !Over(PcOf(s, p)) && PcOf(Apply(s, a), p).Finished?
    ensures p in s.jobs && Explains(s, Apply(s, a), p, PcOf(Apply(s, a), p).outcome)
  {
    hide FilesHold, DirHolds, TargetsHold, WritersHold, LinkTold, Apply, IsTarget;
    if !Acts(a, p) { StandsStill(s, a, p); }
    OwnWriter(s, p);
    OwnStepExplains(s, a);
  }

  lemma OwnStepExplains(s: State, a: Action)
    requires s.pcs.Keys == s.jobs.Keys && Enabled(s, a) && !a.Remove? && WriterHolds(s, a.p) && LinkTold(s, a.p)
    requires !Over(s.pcs[a.p]) && Apply(s, a).pcs[a.p].Finished?
    ensures Explains(s, Apply(s, a), a.p, Apply(s, a).pcs[a.p].outcome)
  {
    hide IsTarget;
    var body := s.jobs[a.p].body;
    assert body[..|body|] == body;
  }

  /** Every outcome has the step that explains it, and stands from there on. */
  lemma {:induction false} ToldForCause(start: State, run: seq<Action>, s: State, p: Proc) returns (k: nat)
    requires IsStart(start) && Run(start, run) == Some(s) && p in start.jobs && PcOf(s, p).Finished?
    ensures k < |run| && Run(start, run[..k]).Some? && Run(start, run[..k + 1]).Some?
    ensures var before, after := Run(start, run[..k]).value, Run(start, run[..k + 1]).value;
            && p in before.jobs && !Over(PcOf(before, p)) && PcOf(after, p) == PcOf(s, p)
            && Explains(before, after, p, PcOf(s, p).outcome)
    decreases |run|
  {
    hide Inv, LinkTold, Apply, Enabled, Explains;
    StartHolds(start);
    if run == [] { NobodyIsOver(start, p); }
    RunSplits(start, run);
    var last := |run| - 1;
    var before := Run(start, run[..last]).value;
    assert run[..last + 1] == run;
    RunKeeps(start, run[..last]);
    EveryRunTells(start, run[..last], before, p);
    EveryJobIsListed(before);
    if Over(PcOf(before, p)) {
      OverStays(before, run[last], p);
      k := ToldForCause(start, run[..last], before, p);
      assert run[..last][..k] == run[..k] && run[..last][..k + 1] == run[..k + 1];
    } else {
      k := last;
      StepExplains(before, run[last], p);
    }
  }

  lemma EveryJobIsListed(s: State)
    requires Inv(s)
    ensures s.pcs.Keys == s.jobs.Keys
  {
  }

  lemma NobodyIsOver(start: State, p: Proc)
    requires IsStart(start) && p in start.jobs
    ensures !Over(PcOf(start, p))
  {
  }

  /** Over, a process does nothing more; it may still be killed. */
  lemma OverStays(s: State, a: Action, p: Proc)
    requires Enabled(s, a) && Over(PcOf(s, p)) && p in s.pcs
    ensures PcOf(Apply(s, a), p) == PcOf(s, p) || PcOf(Apply(s, a), p).Killed?
    ensures Acts(a, p) ==> a == Kill(p)
  {
    if !Acts(a, p) { StandsStill(s, a, p); }
  }

  predicate NeverActs(run: seq<Action>, p: Proc) { forall k :: 0 <= k < |run| && Acts(run[k], p) ==> run[k] == Kill(p) }

  lemma {:induction false} OverForGood(s: State, run: seq<Action>, p: Proc)
    requires Run(s, run).Some? && Over(PcOf(s, p)) && p in s.pcs
    ensures NeverActs(run, p) && Over(PcOf(Run(s, run).value, p))
    decreases |run|
  {
    hide Apply, Enabled;
    if run != [] {
      OverStays(s, run[0], p);
      StaysListed(s, run[0], p);
      OverForGood(Apply(s, run[0]), run[1..], p);
      assert forall k :: 0 < k < |run| ==> run[k] == run[1..][k - 1];
    }
  }

  lemma StaysListed(s: State, a: Action, p: Proc)
    requires Enabled(s, a) && p in s.pcs
    ensures p in Apply(s, a).pcs
  {
  }

  /** Whoever finds anything at its name that is not one plain file stops there: it opens, writes, links
      and renames nothing, however the run goes on. A creator stops at a plain file too. */
  lemma OccupiedNameStops(s: State, run: seq<Action>, p: Proc, plain: bool)
    requires Enabled(s, Judge(p, plain)) && s.jobs[p].name in s.dir && (!plain || s.jobs[p].Create?)
    requires Run(Apply(s, Judge(p, plain)), run).Some?
    ensures PcOf(Apply(s, Judge(p, plain)), p) == Finished(if plain then NameTaken else Failed)
    ensures NeverActs(run, p)
  {
    OverForGood(Apply(s, Judge(p, plain)), run, p);
  }

  // ---------------------------------------------------------------- nothing stands in a writer's way

  lemma Then(s: State, a: Action, rest: seq<Action>)
    requires Enabled(s, a) && Run(Apply(s, a), rest).Some?
    ensures Run(s, [a] + rest) == Run(Apply(s, a), rest)
  {
    hide Apply, Enabled;
    assert ([a] + rest)[1..] == rest;
  }

  lemma NoSteps(s: State)
    ensures Run(s, []) == Some(s)
  {
  }

  /** A creator whose name is free can be told it created, and the name then holds its body. */
  lemma CreatorCanWin(s: State, p: Proc, i: Inode) returns (run: seq<Action>)
    requires p in s.jobs && p in s.pcs && s.pcs[p].Judging? && s.jobs[p].Create?
    requires s.jobs[p].name !in s.dir && i !in s.files
    ensures Run(s, run).Some?
    ensures var after := Run(s, run).value; var n := s.jobs[p].name;
            && PcOf(after, p) == Finished(Created)
            && n in after.dir && after.dir[n] in after.files && after.files[after.dir[n]] == s.jobs[p].body
  {
    hide Run;
    var body := s.jobs[p].body;
    assert [] + body[0..|body|] == body;
    var a := Apply(s, Judge(p, true));
    var b := Apply(a, OpenUnnamed(p, i));
    var c := Apply(b, WriteSome(p, |body|));
    var d := Apply(c, Sync(p));
    var e := Apply(d, Link(p));
    var f := Apply(e, SyncFolder(p));
    NoSteps(f);
    Then(e, SyncFolder(p), []);
    Then(d, Link(p), [SyncFolder(p)] + []);
    Then(c, Sync(p), [Link(p)] + ([SyncFolder(p)] + []));
    Then(b, WriteSome(p, |body|), [Sync(p)] + ([Link(p)] + ([SyncFolder(p)] + [])));
    run := [OpenUnnamed(p, i)] + ([WriteSome(p, |body|)] + ([Sync(p)] + ([Link(p)] + ([SyncFolder(p)] + []))));
    Then(a, OpenUnnamed(p, i), [WriteSome(p, |body|)] + ([Sync(p)] + ([Link(p)] + ([SyncFolder(p)] + []))));
    Then(s, Judge(p, true), run);
    run := [Judge(p, true)] + run;
  }

  /** A replacer that finds its name free or plain can be told it replaced, and the name holds its body. */
  lemma ReplacerCanWin(s: State, p: Proc, staged: Name, i: Inode) returns (run: seq<Action>)
    requires p in s.jobs && p in s.pcs && s.pcs[p].Judging? && s.jobs[p].Replace?
    requires i !in s.files && staged !in s.dir && !IsTarget(s.jobs, staged)
    ensures Run(s, run).Some?
    ensures var after := Run(s, run).value; var n := s.jobs[p].name;
            && PcOf(after, p) == Finished(Replaced) && staged !in after.dir
            && n in after.dir && after.dir[n] in after.files && after.files[after.dir[n]] == s.jobs[p].body
  {
    hide Run;
    var body := s.jobs[p].body;
    assert [] + body[0..|body|] == body;
    assert staged != s.jobs[p].name by { assert IsTarget(s.jobs, s.jobs[p].name); }
    var a := Apply(s, Judge(p, true));
    var b := Apply(a, OpenStaged(p, staged, i));
    var c := Apply(b, WriteSome(p, |body|));
    var d := Apply(c, Rename(p));
    NoSteps(d);
    Then(c, Rename(p), []);
    Then(b, WriteSome(p, |body|), [Rename(p)] + []);
    Then(a, OpenStaged(p, staged, i), [WriteSome(p, |body|)] + ([Rename(p)] + []));
    run := [Judge(p, true)] + ([OpenStaged(p, staged, i)] + ([WriteSome(p, |body|)] + ([Rename(p)] + [])));
    Then(s, Judge(p, true), [OpenStaged(p, staged, i)] + ([WriteSome(p, |body|)] + ([Rename(p)] + [])));
  }

  /** A clean-up that works takes the staged name away. */
  lemma UnstagedIsGone(s: State, p: Proc)
    requires Enabled(s, Unstage(p, true))
    ensures s.pcs[p].staged !in Apply(s, Unstage(p, true)).dir
  {
  }

  // ---------------------------------------------------------------- nothing staged is left behind

  /** A name that is no target holds a file of `p`'s only while `p` stages it. */
  ghost predicate StagedOnly(s: State, p: Proc) {
    forall n :: n in s.dir && s.dir[n] in s.maker && s.maker[s.dir[n]] == p && !IsTarget(s.jobs, n) ==>
      p in s.pcs && (s.pcs[p].WritingStaged? || s.pcs[p].Unstaging?) && s.pcs[p].staged == n
  }

  lemma StagedOnlyKept(s: State, a: Action, p: Proc)
    requires Inv(s) && StagedOnly(s, p) && Enabled(s, a) && a != Kill(p) && a != Unstage(p, false)
    ensures StagedOnly(Apply(s, a), p)
  {
    hide TargetsHold, WritersHold, IsTarget;
    StepKeepsJobs(s, a);
    if a.Remove? {
      assert StagedOnly(Apply(s, a), p);
    } else {
      OwnWriter(s, a.p);
      TargetOfItsJob(s, a.p);
      if a.p == p { OwnStepStages(s, a); } else { OthersStageNothing(s, a, p); }
    }
  }

  lemma TargetOfItsJob(s: State, p: Proc)
    requires p in s.jobs
    ensures IsTarget(s.jobs, s.jobs[p].name)
  {
  }

  lemma OwnStepStages(s: State, a: Action)
    requires !a.Remove? && s.pcs.Keys == s.jobs.Keys && FilesHold(s) && DirHolds(s)
    requires a.p in s.pcs && WriterHolds(s, a.p)
    requires StagedOnly(s, a.p) && Enabled(s, a) && !a.Kill? && a != Unstage(a.p, false)
    requires IsTarget(s.jobs, s.jobs[a.p].name)
    ensures StagedOnly(Apply(s, a), a.p)
  {
    hide IsTarget;
  }

  lemma OthersStageNothing(s: State, a: Action, p: Proc)
    requires !a.Remove? && a.p != p && s.pcs.Keys == s.jobs.Keys && FilesHold(s) && DirHolds(s)
    requires a.p in s.pcs && WriterHolds(s, a.p)
    requires StagedOnly(s, p) && Enabled(s, a) && IsTarget(s.jobs, s.jobs[a.p].name)
    ensures StagedOnly(Apply(s, a), p)
  {
    hide IsTarget;
  }

  /** Neither killed, nor failed at its clean-up. */
  predicate Undisturbed(run: seq<Action>, p: Proc) { Kill(p) !in run && Unstage(p, false) !in run }

  lemma {:induction false} StagedOnlyEverywhere(start: State, run: seq<Action>, s: State, p: Proc)
    requires IsStart(start) && Run(start, run) == Some(s) && Undisturbed(run, p)
    ensures StagedOnly(s, p)
    decreases |run|
  {
    hide Inv, Apply, Enabled, StagedOnly;
    StartHolds(start);
    if run == [] {
      NothingStagedYet(start, p);
    } else {
      RunSplits(start, run);
      var last := |run| - 1;
      var before := Run(start, run[..last]).value;
      RunKeeps(start, run[..last]);
      assert run[last] in run;
      StagedOnlyEverywhere(start, run[..last], before, p);
      StagedOnlyKept(before, run[last], p);
    }
  }

  lemma NothingStagedYet(start: State, p: Proc)
    requires IsStart(start)
    ensures StagedOnly(start, p)
  {
  }

  /** A writer that has finished, well or not, unless killed or failed at its very clean-up, has left no
      file of its making under any name but a target's. */
  lemma NothingStagedIsLeft(start: State, run: seq<Action>, s: State, p: Proc, n: Name)
    requires IsStart(start) && Run(start, run) == Some(s) && Undisturbed(run, p) && PcOf(s, p).Finished?
    requires n in s.dir && s.dir[n] in s.maker && s.maker[s.dir[n]] == p
    ensures IsTarget(s.jobs, n)
  {
    StagedOnlyEverywhere(start, run, s, p);
  }

  // ---------------------------------------------------------------- the world is free

  /** Whatever a name holds may be found there, any step may fail, any clean-up too, any process be killed
      at any point, and any target be unlinked. */
  lemma AnythingMayBefall(s: State, p: Proc, n: Name, worked: bool)
    requires p in s.jobs && p in s.pcs
    ensures s.pcs[p].Judging? ==> Enabled(s, Judge(p, worked))
    ensures !Over(s.pcs[p]) && !s.pcs[p].Unstaging? ==> Enabled(s, Fail(p))
    ensures s.pcs[p].Unstaging? ==> Enabled(s, Unstage(p, worked))
    ensures Enabled(s, Kill(p))
    ensures IsTarget(s.jobs, n) && n in s.dir ==> Enabled(s, Remove(n))
  {
  }
}
