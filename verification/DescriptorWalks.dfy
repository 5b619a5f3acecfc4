/** What one operation of a shared handle does and is told (`defender/_filesystem/bound.py`), read off
    the steps it took in any interleaving: it opens as many folders as it was asked to, each off the
    one before, its leaf off the last, and is told what the step that decided it said. */
module DescriptorWalks {
  import opened Options
  import opened Descriptors

  // ---------------------------------------------------------------- a thread's own steps

  /** The steps of `t`, in order. */
  function Own(run: seq<Action>, t: Thread): seq<Action>
    decreases |run|
  {
    if run == [] then [] else
      var last := |run| - 1;
      Own(run[..last], t) + (if Acts(run[last], t) then [run[last]] else [])
  }

  predicate Reads(own: seq<Action>) { own != [] && own[0].StartRead? }

  predicate Closes(own: seq<Action>) { own != [] && own[0].StartClose? }

  /** The folders its path names. */
  function Asked(own: seq<Action>): nat { if Reads(own) then own[0].folders else 0 }

  /** The folders it opened that were folders. */
  function Folders(own: seq<Action>): nat
    decreases |own|
  {
    if own == [] then 0 else
      var last := |own| - 1;
      Folders(own[..last]) + (if own[last].StepIsFolder? then 1 else 0)
  }

  /** What its last step opened. */
  function JustOpened(own: seq<Action>): Option<Fd> {
    if own != [] && own[|own| - 1].OpenStep? then Some(own[|own| - 1].fd) else None
  }

  /** The folder reached: the last one found to be a folder, its duplicate before any. */
  function Place(own: seq<Action>): Option<Fd>
    decreases |own|
  {
    if own == [] then None else
      var last := |own| - 1;
      if own[last].Dup? then Some(own[last].fd)
      else if own[last].StepIsFolder? then JustOpened(own[..last])
      else Place(own[..last])
  }

  /** The leaf it opened. */
  function Leaf(own: seq<Action>): Option<Fd>
    decreases |own|
  {
    if own == [] then None
    else if own[|own| - 1].OpenLeaf? then Some(own[|own| - 1].fd)
    else Leaf(own[..|own| - 1])
  }

  predicate Plain(own: seq<Action>) { exists i :: 0 <= i < |own| && own[i].LeafIsPlain? }

  /** What a step says for good, if anything. */
  function Says(a: Action): Option<Outcome> {
    match a
    case FindClosed(_) => Some(BadDescriptor)
    case DupFails(_) => Some(Refused)
    case OpenStepFails(_, outcome) => Some(outcome)
    case StepIsNot(_) => Some(Refused)
    case OpenLeafFails(_, outcome) => Some(outcome)
    case LeafIsNot(_) => Some(Refused)
    case ReadEnds(_, outcome) => Some(outcome)
    case _ => None
  }

  /** What the one step that decided the read said. */
  function Told(own: seq<Action>): Option<Outcome>
    decreases |own|
  {
    if own == [] then None
    else if Says(own[|own| - 1]).Some? then Says(own[|own| - 1])
    else Told(own[..|own| - 1])
  }

  // ---------------------------------------------------------------- where an operation stands

  /** The walk so far: `left` folders to go, `cur` the one reached, nothing decided. */
  predicate OnItsWay(own: seq<Action>, cur: Fd, left: nat) {
    Reads(own) && left + Folders(own) == Asked(own) && Place(own) == Some(cur) && Told(own).None?
  }

  /** The walk is over and its leaf open. */
  predicate AtItsLeaf(own: seq<Action>, cur: Fd, leaf: Fd) { OnItsWay(own, cur, 0) && Leaf(own) == Some(leaf) }

  /** Decided; data only from a plain leaf opened after every folder asked for. */
  predicate Decided(own: seq<Action>, outcome: Outcome) {
    && Reads(own) && Told(own) == Some(outcome)
    && (outcome == Data ==> Folders(own) == Asked(own) && Leaf(own).Some? && Plain(own))
  }

  predicate Matches(pc: Pc, own: seq<Action>) {
    match pc
    case Idle => own == []
    case WantLock(left) => Reads(own) && left == Asked(own) && Folders(own) == 0 && Told(own).None?
    case HasLock(left) => Reads(own) && left == Asked(own) && Folders(own) == 0 && Told(own).None?
    case Walking(_, cur, left) => OnItsWay(own, cur, left)
    case Stepped(_, cur, left, step) => OnItsWay(own, cur, left) && left > 0 && JustOpened(own) == Some(step)
    case HandedOver(_, _, cur, left) => OnItsWay(own, cur, left)
    case StepRefused(_, _, _) => Decided(own, Refused)
    case LeafOpen(_, cur, leaf) => AtItsLeaf(own, cur, leaf)
    case Reading(_, cur, leaf) => AtItsLeaf(own, cur, leaf) && Plain(own)
    case LeafDone(_, _, _, outcome) => Decided(own, outcome)
    case Unwinding(_, _, outcome) => Decided(own, outcome)
    case Ending(_, outcome) => Decided(own, outcome)
    case Done(outcome) => Decided(own, outcome) || (Closes(own) && outcome == Data)
    case CloserWants => Closes(own)
    case CloserHas => Closes(own)
    case Closing(_) => Closes(own)
  }

  /** One more step of its own. */
  lemma OneMore(own: seq<Action>, a: Action)
    ensures var more := own + [a];
            && (own != [] ==> Reads(more) == Reads(own) && Closes(more) == Closes(own) && Asked(more) == Asked(own))
            && Folders(more) == Folders(own) + (if a.StepIsFolder? then 1 else 0)
            && JustOpened(more) == (if a.OpenStep? then Some(a.fd) else None)
            && Place(more) == (if a.Dup? then Some(a.fd) else if a.StepIsFolder? then JustOpened(own) else Place(own))
            && Leaf(more) == (if a.OpenLeaf? then Some(a.fd) else Leaf(own))
            && Told(more) == (if Says(a).Some? then Says(a) else Told(own))
            && (Plain(more) <==> Plain(own) || a.LeafIsPlain?)
  {
    var more := own + [a];
    assert more[..|own|] == own && more[|own|] == a;
    assert a.LeafIsPlain? ==> more[|own|].LeafIsPlain?;
    if Plain(own) {
      var i :| 0 <= i < |own| && own[i].LeafIsPlain?;
      assert more[i].LeafIsPlain?;
    }
  }

  predicate Enters(a: Action) {
    || a.StartRead? || a.StartClose? || a.TakeLock? || a.FindClosed? || a.Dup? || a.DupFails?
    || a.Detach? || a.CloseHandle?
  }

  predicate Walks(a: Action) {
    a.OpenStep? || a.OpenStepFails? || a.StepIsFolder? || a.StepIsNot? || a.CloseOld? || a.CloseStep?
  }

  lemma EnteringMatches(s: State, a: Action, own: seq<Action>)
    requires Enabled(s, a) && Enters(a) && Matches(PcOf(s, a.t), own)
    ensures Matches(PcOf(Apply(s, a), a.t), own + [a])
  {
    hide Folders, Place, Leaf, Told, Plain, JustOpened;
    OneMore(own, a);
    if own == [] { NothingYet(); }
  }

  lemma WalkingMatches(s: State, a: Action, own: seq<Action>)
    requires Enabled(s, a) && Walks(a) && Matches(PcOf(s, a.t), own)
    ensures Matches(PcOf(Apply(s, a), a.t), own + [a])
  {
    hide Folders, Place, Leaf, Told, Plain, JustOpened;
    OneMore(own, a);
  }

  lemma EndingMatches(s: State, a: Action, own: seq<Action>)
    requires Enabled(s, a) && !Enters(a) && !Walks(a) && !a.OtherOpens? && !a.OtherCloses?
    requires Matches(PcOf(s, a.t), own)
    ensures Matches(PcOf(Apply(s, a), a.t), own + [a])
  {
    hide Folders, Place, Leaf, Told, Plain, JustOpened;
    OneMore(own, a);
  }

  lemma OwnStepMatches(s: State, a: Action, own: seq<Action>)
    requires Enabled(s, a) && !a.OtherOpens? && !a.OtherCloses? && Matches(PcOf(s, a.t), own)
    ensures Matches(PcOf(Apply(s, a), a.t), own + [a])
  {
    hide Matches, Apply, Enabled;
    if Enters(a) {
      EnteringMatches(s, a, own);
    } else if Walks(a) {
      WalkingMatches(s, a, own);
    } else {
      EndingMatches(s, a, own);
    }
  }

  lemma NothingYet()
    ensures Folders([]) == 0 && Told([]).None?
  {
  }

  lemma {:induction false} RunSplits(s: State, run: seq<Action>)
    requires Run(s, run).Some? && run != []
    ensures var before := Run(s, run[..|run| - 1]);
            && before.Some? && Enabled(before.value, run[|run| - 1])
            && Run(s, run).value == Apply(before.value, run[|run| - 1])
    decreases |run|
  {
    hide Apply, Enabled;
    if |run| > 1 {
      RunSplits(Apply(s, run[0]), run[1..]);
      assert run[1..][..|run| - 2] == run[..|run| - 1][1..];
    }
  }

  /** In every interleaving, where an operation stands is what its own steps say. */
  lemma {:induction false} StandsWhereItsStepsSay(fd: Fd, run: seq<Action>, s: State, t: Thread)
    requires Reaches(fd, run, s)
    ensures Matches(PcOf(s, t), Own(run, t))
    decreases |run|
  {
    hide Apply, Enabled, Matches;
    if run == [] {
      IdleMatches(fd, t);
    } else {
      RunSplits(Start(fd), run);
      var last := |run| - 1;
      var before := Run(Start(fd), run[..last]).value;
      StandsWhereItsStepsSay(fd, run[..last], before, t);
      if Acts(run[last], t) {
        OwnStepMatches(before, run[last], Own(run[..last], t));
      } else {
        OthersStandStill(before, run[last], t);
        assert Own(run, t) == Own(run[..last], t);
      }
    }
  }

  lemma IdleMatches(fd: Fd, t: Thread)
    ensures Matches(PcOf(Start(fd), t), [])
  {
  }

  // ---------------------------------------------------------------- the promises

  /** A folder is opened only while fewer were found than asked for, and off the last one found. */
  lemma FolderIsOpenedOffTheLast(fd: Fd, run: seq<Action>, s: State, t: Thread, a: Action)
    requires Reaches(fd, run, s) && Enabled(s, a) && Acts(a, t) && (a.OpenStep? || a.OpenStepFails?)
    ensures var own := Own(run, t);
            Folders(own) < Asked(own) && Place(own).Some? && Uses(s, a) == {Place(own).value}
  {
    StandsWhereItsStepsSay(fd, run, s, t);
  }

  /** The leaf is opened only after exactly as many folders as asked for, and off the last of them. */
  lemma LeafIsOpenedAfterEveryFolder(fd: Fd, run: seq<Action>, s: State, t: Thread, a: Action)
    requires Reaches(fd, run, s) && Enabled(s, a) && Acts(a, t) && (a.OpenLeaf? || a.OpenLeafFails?)
    ensures var own := Own(run, t);
            Folders(own) == Asked(own) && Place(own).Some? && Uses(s, a) == {Place(own).value}
  {
    StandsWhereItsStepsSay(fd, run, s, t);
  }

  /** What is judged is what was just opened, and what is judged plain and read is the leaf. */
  lemma JudgesWhatItOpened(fd: Fd, run: seq<Action>, s: State, t: Thread, a: Action)
    requires Reaches(fd, run, s) && Enabled(s, a) && Acts(a, t)
    ensures a.StepIsFolder? || a.StepIsNot? ==>
              JustOpened(Own(run, t)).Some? && Uses(s, a) == {JustOpened(Own(run, t)).value}
    ensures a.LeafIsPlain? || a.LeafIsNot? || a.ReadChunk? || a.ReadEnds? ==>
              Leaf(Own(run, t)).Some? && Uses(s, a) == {Leaf(Own(run, t)).value}
    ensures a.ReadChunk? || a.ReadEnds? ==> Plain(Own(run, t))
  {
    StandsWhereItsStepsSay(fd, run, s, t);
  }

  /** A finished read is told what the step that decided it said; data only from the end of reading a
      plain leaf, opened after every folder asked for. */
  lemma ReadIsToldWhatDecidedIt(fd: Fd, run: seq<Action>, s: State, t: Thread)
    requires Reaches(fd, run, s) && PcOf(s, t).Done? && Reads(Own(run, t))
    ensures var own, outcome := Own(run, t), PcOf(s, t).outcome;
            && Told(own) == Some(outcome)
            && (outcome == Data ==> Folders(own) == Asked(own) && Leaf(own).Some? && Plain(own))
  {
    StandsWhereItsStepsSay(fd, run, s, t);
  }

  /** A thread closing the handle's own opening. */
  predicate ClosesFirst(s: State, t: Thread) {
    PcOf(s, t).Closing? && PcOf(s, t).fd in s.table && s.table[PcOf(s, t).fd].serial == 0
  }

  /** The handle is the first opening until a closer takes it; then that closer holds it, or it is
      closed. */
  ghost predicate HandleHolds(s: State) {
    && (s.handle.Some? ==> s.handle.value in s.table && s.table[s.handle.value].serial == 0)
    && (s.handle.None? ==> 0 in s.closed || exists t: Thread :: ClosesFirst(s, t))
    && (forall t :: t in s.pcs && s.pcs[t].Closing? ==> s.handle.None?)
  }

  lemma HandleKept(s: State, a: Action)
    requires Inv(s) && HandleHolds(s) && Enabled(s, a)
    ensures HandleHolds(Apply(s, a))
    ensures s.handle.None? ==> Apply(s, a).handle.None?
    ensures 0 in s.closed ==> 0 in Apply(s, a).closed
  {
    hide Apply, EffectOf, Owned, LedgerHolds, PcsHold, OwnersHold;
    HandleIsOnlyDetached(s, a);
    ClosingMeansDetached(s, a);
    if s.handle.Some? && Apply(s, a).handle.Some? {
      HandleStaysOpen(s, a);
    } else if s.handle.Some? {
      assert ClosesFirst(Apply(s, a), a.t);
    } else if 0 !in s.closed {
      var t: Thread :| ClosesFirst(s, t);
      CloserGoesOn(s, a, t);
      if Apply(s, a).handle.None? && 0 !in Apply(s, a).closed { assert ClosesFirst(Apply(s, a), t); }
    }
  }

  lemma HandleIsOnlyDetached(s: State, a: Action)
    requires HandleHolds(s) && Enabled(s, a)
    ensures s.handle.None? ==> Apply(s, a).handle.None?
    ensures s.handle.Some? && Apply(s, a).handle.None? ==> a.Detach? && ClosesFirst(Apply(s, a), a.t)
    ensures Apply(s, a).handle.Some? ==> Apply(s, a).handle == s.handle
    ensures s.closed <= Apply(s, a).closed
  {
    hide Apply, Enabled, HandleHolds, ClosesFirst;
    StepHasItsEffect(s, a);
    if EffectOf(s, a).Detaches? { DetachTakesTheFirst(s, a.t); }
  }

  lemma DetachTakesTheFirst(s: State, t: Thread)
    requires HandleHolds(s) && Enabled(s, Detach(t)) && s.handle.Some?
    ensures ClosesFirst(Apply(s, Detach(t)), t)
  {
  }

  lemma ClosingMeansDetached(s: State, a: Action)
    requires HandleHolds(s) && Enabled(s, a)
    ensures forall t :: t in Apply(s, a).pcs && Apply(s, a).pcs[t].Closing? ==> Apply(s, a).handle.None?
  {
  }

  lemma HandleStaysOpen(s: State, a: Action)
    requires Inv(s) && HandleHolds(s) && Enabled(s, a) && s.handle.Some? && Apply(s, a).handle.Some?
    ensures var h := s.handle.value; h in Apply(s, a).table && Apply(s, a).table[h] == s.table[h]
  {
    hide Apply, LedgerHolds, PcsHold, OwnersHold;
    HandleIsNotAThreads(s);
    TableKeepsAllBut(s, a, s.handle.value);
    StepHasItsEffect(s, a);
    var e := EffectOf(s, a);
    if e.Closes? && !a.OtherCloses? { ClosedIsOwn(s, a); }
  }

  lemma CloserGoesOn(s: State, a: Action, t: Thread)
    requires Inv(s) && Enabled(s, a) && ClosesFirst(s, t)
    ensures ClosesFirst(Apply(s, a), t) || 0 in Apply(s, a).closed
  {
    hide LedgerHolds, PcsHold, OwnersHold;
    var fd := PcOf(s, t).fd;
    OwnedIsOpen(s, t, fd);
    if a == CloseHandle(t) {
      assert Apply(s, a).closed == s.closed + [0];
      assert Apply(s, a).closed[|s.closed|] == 0;
    } else {
      CloserStandsStill(s, a, t);
      TableKeepsAllBut(s, a, fd);
      if EffectOf(s, a).Closes? && !a.OtherCloses? { ClosedIsOwn(s, a); }
      if EffectOf(s, a).Detaches? { HandleIsNotAThreads(s); }
    }
  }

  lemma CloserStandsStill(s: State, a: Action, t: Thread)
    requires Enabled(s, a) && PcOf(s, t).Closing? && a != CloseHandle(t)
    ensures PcOf(Apply(s, a), t) == PcOf(s, t)
  {
    if !Acts(a, t) { OthersStandStill(s, a, t); }
  }

  /** Closing is done under the lock, so by one thread at a time. */
  lemma OneCloser(s: State, t: Thread)
    requires PcsHold(s) && HandleHolds(s) && s.handle.None? && Locked(PcOf(s, t))
    ensures 0 in s.closed || ClosesFirst(s, t)
  {
    if 0 !in s.closed {
      var u: Thread :| ClosesFirst(s, u);
      assert s.lock == Some(u);
    }
  }

  lemma OnceWhenNumbered(s: State, n: nat)
    requires LedgerHolds(s) && n in s.closed
    ensures OnceIn(s.closed, n)
  {
    var i :| 0 <= i < |s.closed| && s.closed[i] == n;
    assert forall j :: 0 <= j < |s.closed| && s.closed[j] == n ==> j == i;
  }

  predicate ClosedForGood(s: State) { s.handle.None? && 0 in s.closed }

  lemma LastStepOfAClose(s: State, a: Action, own: seq<Action>)
    requires Inv(s) && HandleHolds(s) && Enabled(s, a) && !a.OtherOpens? && !a.OtherCloses?
    requires Matches(PcOf(s, a.t), own) && Closes(own) && PcOf(Apply(s, a), a.t).Done?
    ensures ClosedForGood(Apply(s, a))
  {
    hide LedgerHolds, OwnersHold, HandleHolds, Inv, PcsHold;
    assert a.Detach? || a.CloseHandle?;
    InvMeans(s);
    if a.CloseHandle? { ClosingMeansNone(s, a.t); }
    OneCloser(s, a.t);
    if 0 !in s.closed {
      assert Apply(s, a).closed == s.closed + [0];
      assert Apply(s, a).closed[|s.closed|] == 0;
    }
  }

  lemma InvMeans(s: State)
    requires Inv(s)
    ensures LedgerHolds(s) && OwnersHold(s) && PcsHold(s)
  {
  }

  lemma ClosingMeansNone(s: State, t: Thread)
    requires HandleHolds(s) && PcOf(s, t).Closing?
    ensures s.handle.None?
  {
  }

  lemma StartHandleHolds(fd: Fd)
    ensures HandleHolds(Start(fd))
  {
  }

  lemma {:induction false} CloseHolds(fd: Fd, run: seq<Action>, s: State, t: Thread)
    requires Reaches(fd, run, s)
    ensures HandleHolds(s)
    ensures PcOf(s, t).Done? && Closes(Own(run, t)) ==> ClosedForGood(s)
    decreases |run|
  {
    hide Apply, Enabled, HandleHolds, LedgerHolds, PcsHold, OwnersHold, Matches;
    if run == [] {
      StartHandleHolds(fd);
    } else {
      RunSplits(Start(fd), run);
      var last := |run| - 1;
      var a, before := run[last], Run(Start(fd), run[..last]).value;
      CloseHolds(fd, run[..last], before, t);
      EveryRunKeeps(fd, run[..last], before);
      HandleKept(before, a);
      StandsWhereItsStepsSay(fd, run[..last], before, t);
      if Acts(a, t) {
        OwnStepOfAClose(before, a, Own(run[..last], t));
      } else {
        OthersStandStill(before, a, t);
        assert Own(run, t) == Own(run[..last], t);
      }
    }
  }

  lemma OwnStepOfAClose(s: State, a: Action, own: seq<Action>)
    requires Inv(s) && HandleHolds(s) && Enabled(s, a) && !a.OtherOpens? && !a.OtherCloses?
    requires Matches(PcOf(s, a.t), own)
    ensures Closes(own + [a]) && PcOf(Apply(s, a), a.t).Done? ==> ClosedForGood(Apply(s, a))
  {
    hide Apply, HandleHolds, Inv, LedgerHolds, PcsHold, OwnersHold;
    if own == [] {
      FirstStepIsNotTheLast(s, a);
    } else if Closes(own) && PcOf(Apply(s, a), a.t).Done? {
      LastStepOfAClose(s, a, own);
    }
  }

  lemma FirstStepIsNotTheLast(s: State, a: Action)
    requires Enabled(s, a) && !a.OtherOpens? && !a.OtherCloses? && Matches(PcOf(s, a.t), [])
    ensures !PcOf(Apply(s, a), a.t).Done?
  {
    hide Told, Folders, Place, Leaf, Apply, Enabled;
    assert PcOf(s, a.t).Idle?;
    IdleOnlyStarts(s, a);
  }

  lemma IdleOnlyStarts(s: State, a: Action)
    requires Enabled(s, a) && !a.OtherOpens? && !a.OtherCloses? && PcOf(s, a.t).Idle?
    ensures !PcOf(Apply(s, a), a.t).Done?
  {
    hide Opened, ClosedAt;
  }

  /** A finished close leaves the handle closed, and its own opening closed exactly once. */
  lemma CloseClosesOnce(fd: Fd, run: seq<Action>, s: State, t: Thread)
    requires Reaches(fd, run, s) && PcOf(s, t).Done? && Closes(Own(run, t))
    ensures s.handle.None? && OnceIn(s.closed, 0)
  {
    CloseHolds(fd, run, s, t);
    EveryRunKeeps(fd, run, s);
    OnceWhenNumbered(s, 0);
  }

  // ---------------------------------------------------------------- nothing stands in a read's way

  lemma {:induction false} FreshFd(table: map<Fd, Entry>) returns (fd: Fd)
    ensures fd !in table
  {
    fd := AboveAll(table.Keys);
  }

  lemma {:induction false} AboveAll(used: set<Fd>) returns (fd: Fd)
    ensures forall f :: f in used ==> f < fd
    decreases |used|
  {
    if used == {} {
      fd := 0;
    } else {
      var f :| f in used;
      var rest := AboveAll(used - {f});
      fd := if rest > f then rest else f + 1;
      assert used == used - {f} + {f};
    }
  }

  lemma Then(s: State, a: Action, rest: seq<Action>)
    requires Enabled(s, a) && Run(Apply(s, a), rest).Some?
    ensures Run(s, [a] + rest) == Run(Apply(s, a), rest)
  {
    hide Apply, Enabled;
    assert ([a] + rest)[1..] == rest;
  }

  /** From wherever its walk has come to, a read the kernel refuses nothing goes on alone to its data. */
  lemma {:induction false} WalkCanFinish(s: State, t: Thread) returns (run: seq<Action>)
    requires PcOf(s, t).Walking?
    ensures Run(s, run).Some? && PcOf(Run(s, run).value, t) == Done(Data)
    decreases PcOf(s, t).left
  {
    hide Run;
    var fd := FreshFd(s.table);
    if PcOf(s, t).left == 0 {
      run := LeafCanFinish(s, t, fd);
    } else {
      var first := Apply(s, OpenStep(t, fd));
      var judged := Apply(first, StepIsFolder(t));
      var rest := WalkCanFinish(Apply(judged, CloseOld(t)), t);
      Then(judged, CloseOld(t), rest);
      Then(first, StepIsFolder(t), [CloseOld(t)] + rest);
      run := [OpenStep(t, fd)] + ([StepIsFolder(t)] + ([CloseOld(t)] + rest));
      Then(s, OpenStep(t, fd), [StepIsFolder(t)] + ([CloseOld(t)] + rest));
    }
  }

  lemma LeafCanFinish(s: State, t: Thread, fd: Fd) returns (run: seq<Action>)
    requires PcOf(s, t).Walking? && PcOf(s, t).left == 0 && fd !in s.table
    ensures Run(s, run).Some? && PcOf(Run(s, run).value, t) == Done(Data)
  {
    hide Run;
    var first := Apply(s, OpenLeaf(t, fd));
    var plain := Apply(first, LeafIsPlain(t));
    var done := Apply(plain, ReadEnds(t, Data));
    var rest := UnwindingCanFinish(done, t);
    Then(plain, ReadEnds(t, Data), rest);
    Then(first, LeafIsPlain(t), [ReadEnds(t, Data)] + rest);
    run := [OpenLeaf(t, fd)] + ([LeafIsPlain(t)] + ([ReadEnds(t, Data)] + rest));
    Then(s, OpenLeaf(t, fd), [LeafIsPlain(t)] + ([ReadEnds(t, Data)] + rest));
  }

  /** Whatever was decided, the operation can close what it opened and be told it. */
  lemma UnwindingCanFinish(s: State, t: Thread) returns (run: seq<Action>)
    requires PcOf(s, t).LeafDone?
    ensures Run(s, run).Some? && PcOf(Run(s, run).value, t) == Done(PcOf(s, t).outcome)
  {
    hide Run;
    var leafClosed := Apply(s, CloseLeaf(t));
    var curClosed := Apply(leafClosed, CloseCur(t));
    var done := Apply(curClosed, CloseDup(t));
    assert Run(done, []) == Some(done) by { NoSteps(done); }
    Then(curClosed, CloseDup(t), []);
    Then(leafClosed, CloseCur(t), [CloseDup(t)] + []);
    run := [CloseLeaf(t)] + ([CloseCur(t)] + ([CloseDup(t)] + []));
    Then(s, CloseLeaf(t), [CloseCur(t)] + ([CloseDup(t)] + []));
  }

  lemma NoSteps(s: State)
    ensures Run(s, []) == Some(s)
  {
  }

  /** A read of an open handle can be told its data, however many folders its path names. */
  lemma ReadCanSucceed(fd: Fd, t: Thread, folders: nat) returns (run: seq<Action>)
    ensures Run(Start(fd), run).Some? && PcOf(Run(Start(fd), run).value, t) == Done(Data)
    ensures Reads(Own(run, t)) && Asked(Own(run, t)) == folders
  {
    hide Run;
    var s := Start(fd);
    var wants := Apply(s, StartRead(t, folders));
    var has := Apply(wants, TakeLock(t));
    var dup := FreshFd(has.table);
    var walking := Apply(has, Dup(t, dup));
    var rest := WalkCanFinish(walking, t);
    Then(has, Dup(t, dup), rest);
    Then(wants, TakeLock(t), [Dup(t, dup)] + rest);
    run := [StartRead(t, folders)] + ([TakeLock(t)] + ([Dup(t, dup)] + rest));
    Then(s, StartRead(t, folders), [TakeLock(t)] + ([Dup(t, dup)] + rest));
    FirstOfOwn(run, t);
  }

  lemma {:induction false} FirstOfOwn(run: seq<Action>, t: Thread)
    requires run != [] && Acts(run[0], t)
    ensures Own(run, t) != [] && Own(run, t)[0] == run[0]
    decreases |run|
  {
    if |run| > 1 { FirstOfOwn(run[..|run| - 1], t); } else { assert Own(run[..0], t) == []; }
  }

  /** The kernel may refuse any open and the duplicate, judge what was opened either way and end a read
      however it likes; a close may always begin, and so may a read. */
  lemma AnythingMayBeAnswered(s: State, t: Thread, outcome: Outcome, folders: nat)
    ensures PcOf(s, t).Idle? ==> Enabled(s, StartRead(t, folders)) && Enabled(s, StartClose(t))
    ensures PcOf(s, t).HasLock? && s.handle.Some? ==> Enabled(s, DupFails(t))
    ensures PcOf(s, t).Walking? && PcOf(s, t).left > 0 && outcome != Data ==> Enabled(s, OpenStepFails(t, outcome))
    ensures PcOf(s, t).Walking? && PcOf(s, t).left == 0 && outcome != Data ==> Enabled(s, OpenLeafFails(t, outcome))
    ensures PcOf(s, t).Stepped? ==> Enabled(s, StepIsFolder(t)) && Enabled(s, StepIsNot(t))
    ensures PcOf(s, t).LeafOpen? ==> Enabled(s, LeafIsPlain(t)) && Enabled(s, LeafIsNot(t))
    ensures PcOf(s, t).Reading? ==> Enabled(s, ReadChunk(t)) && Enabled(s, ReadEnds(t, outcome))
  {
  }

  /** A step that closes hands the kernel what it closes, and nothing else. */
  lemma ClosesWhatItNames(s: State, a: Action)
    requires Enabled(s, a) && EffectOf(s, a).Closes? && !a.OtherCloses?
    ensures Uses(s, a) == {EffectOf(s, a).fd}
  {
  }
}
