/** A held directory descriptor shared by threads that `dup` it, walk from the duplicate and close
    what they open (`defender/_filesystem/bound.py`), while the process reuses descriptor numbers.

    Every system call is one step, its outcome chosen by the kernel; a run is any interleaving of
    reads and closes of one handle with unrelated code that opens and closes descriptors too. */
module Descriptors {
  import opened Options

  type Fd = nat
  type Thread = nat

  /** Who may use an open descriptor. */
  datatype Owner = TheHandle | Op(t: Thread) | Elsewhere

  /** One open descriptor: `serial` numbers the openings, which numbers never do. */
  datatype Entry = Entry(serial: nat, owner: Owner)

  datatype Outcome = Data | Absent | Refused | BadDescriptor

  /** Where an operation stands. `start` is its own duplicate of the handle, `cur` the folder
      reached (`start` itself at first), `left` the folders still to walk. */
  datatype Pc =
    | Idle
    | WantLock(left: nat)
    | HasLock(left: nat)
    | Walking(start: Fd, cur: Fd, left: nat)
    | Stepped(start: Fd, cur: Fd, left: nat, step: Fd)
    | HandedOver(start: Fd, prior: Fd, cur: Fd, left: nat)
    | StepRefused(start: Fd, cur: Fd, step: Fd)
    | LeafOpen(start: Fd, cur: Fd, leaf: Fd)
    | Reading(start: Fd, cur: Fd, leaf: Fd)
    | LeafDone(start: Fd, cur: Fd, leaf: Fd, outcome: Outcome)
    | Unwinding(start: Fd, cur: Fd, outcome: Outcome)
    | Ending(start: Fd, outcome: Outcome)
    | Done(outcome: Outcome)
    | CloserWants
    | CloserHas
    | Closing(fd: Fd)

  datatype State = State(
    table: map<Fd, Entry>,          // the process's open descriptors
    next: nat,                      // openings so far
    opener: map<nat, Owner>,        // who made each opening
    closed: seq<nat>,               // openings closed, in order
    handle: Option<Fd>,             // `_Handle.fd`
    lock: Option<Thread>,           // `_Handle._lock`
    pcs: map<Thread, Pc>)

  function PcOf(s: State, t: Thread): Pc { if t in s.pcs then s.pcs[t] else Idle }

  /** A process holding its root at `fd`, nothing else running. */
  function Start(fd: Fd): State {
    State(map[fd := Entry(0, TheHandle)], 1, map[0 := TheHandle], [], Some(fd), None, map[])
  }

  // ---------------------------------------------------------------- the steps

  datatype Action =
    | StartRead(t: Thread, folders: nat)
    | StartClose(t: Thread)
    | TakeLock(t: Thread)
    | FindClosed(t: Thread)                 // `dup` on a closed handle: EBADF
    | Dup(t: Thread, fd: Fd)
    | DupFails(t: Thread)
    | OpenStep(t: Thread, fd: Fd)
    | OpenStepFails(t: Thread, outcome: Outcome)
    | StepIsFolder(t: Thread)               // `fstat` says so
    | StepIsNot(t: Thread)                  // it says otherwise, or fails
    | CloseOld(t: Thread)
    | CloseStep(t: Thread)
    | OpenLeaf(t: Thread, fd: Fd)
    | OpenLeafFails(t: Thread, outcome: Outcome)
    | LeafIsPlain(t: Thread)
    | LeafIsNot(t: Thread)
    | ReadChunk(t: Thread)
    | ReadEnds(t: Thread, outcome: Outcome)
    | CloseLeaf(t: Thread)
    | CloseCur(t: Thread)
    | CloseDup(t: Thread)
    | Detach(t: Thread)                     // `close`: take the number, leave None
    | CloseHandle(t: Thread)
    | OtherOpens(fd: Fd)
    | OtherCloses(fd: Fd)

  predicate Enabled(s: State, a: Action) {
    match a
    case StartRead(t, _) => PcOf(s, t).Idle?
    case StartClose(t) => PcOf(s, t).Idle?
    case TakeLock(t) => (PcOf(s, t).WantLock? || PcOf(s, t).CloserWants?) && s.lock.None?
    case FindClosed(t) => PcOf(s, t).HasLock? && s.handle.None?
    case Dup(t, fd) => PcOf(s, t).HasLock? && s.handle.Some? && fd !in s.table
    case DupFails(t) => PcOf(s, t).HasLock? && s.handle.Some?
    case OpenStep(t, fd) => PcOf(s, t).Walking? && PcOf(s, t).left > 0 && fd !in s.table
    case OpenStepFails(t, outcome) => PcOf(s, t).Walking? && PcOf(s, t).left > 0 && outcome != Data
    case StepIsFolder(t) => PcOf(s, t).Stepped?
    case StepIsNot(t) => PcOf(s, t).Stepped?
    case CloseOld(t) => PcOf(s, t).HandedOver?
    case CloseStep(t) => PcOf(s, t).StepRefused?
    case OpenLeaf(t, fd) => PcOf(s, t).Walking? && PcOf(s, t).left == 0 && fd !in s.table
    case OpenLeafFails(t, outcome) => PcOf(s, t).Walking? && PcOf(s, t).left == 0 && outcome != Data
    case LeafIsPlain(t) => PcOf(s, t).LeafOpen?
    case LeafIsNot(t) => PcOf(s, t).LeafOpen?
    case ReadChunk(t) => PcOf(s, t).Reading?
    case ReadEnds(t, _) => PcOf(s, t).Reading?
    case CloseLeaf(t) => PcOf(s, t).LeafDone?
    case CloseCur(t) => PcOf(s, t).Unwinding?
    case CloseDup(t) => PcOf(s, t).Ending?
    case Detach(t) => PcOf(s, t).CloserHas?
    case CloseHandle(t) => PcOf(s, t).Closing?
    case OtherOpens(fd) => fd !in s.table
    case OtherCloses(fd) => fd in s.table && s.table[fd].owner.Elsewhere?
  }

  function Opened(s: State, fd: Fd, owner: Owner): State {
    s.(table := s.table[fd := Entry(s.next, owner)], next := s.next + 1, opener := s.opener[s.next := owner])
  }

  /** `close` of a number: whatever stands there goes, whoever opened it. */
  function ClosedAt(s: State, fd: Fd): State {
    if fd in s.table then s.(table := s.table - {fd}, closed := s.closed + [s.table[fd].serial]) else s
  }

  function At(s: State, t: Thread, pc: Pc): State { s.(pcs := s.pcs[t := pc]) }

  function Apply(s: State, a: Action): State
    requires Enabled(s, a)
  {
    match a
    case StartRead(t, folders) => At(s, t, WantLock(folders))
    case StartClose(t) => At(s, t, CloserWants)
    case TakeLock(t) =>
      At(s, t, if PcOf(s, t).WantLock? then HasLock(PcOf(s, t).left) else CloserHas).(lock := Some(t))
    case FindClosed(t) => At(s, t, Done(BadDescriptor)).(lock := None)
    case Dup(t, fd) => At(Opened(s, fd, Op(t)), t, Walking(fd, fd, PcOf(s, t).left)).(lock := None)
    case DupFails(t) => At(s, t, Done(Refused)).(lock := None)
    case OpenStep(t, fd) =>
      var pc := PcOf(s, t); At(Opened(s, fd, Op(t)), t, Stepped(pc.start, pc.cur, pc.left, fd))
    case OpenStepFails(t, outcome) => At(s, t, Unwinding(PcOf(s, t).start, PcOf(s, t).cur, outcome))
    case StepIsFolder(t) =>
      var pc := PcOf(s, t); At(s, t, HandedOver(pc.start, pc.cur, pc.step, if pc.left > 0 then pc.left - 1 else 0))
    case StepIsNot(t) => var pc := PcOf(s, t); At(s, t, StepRefused(pc.start, pc.cur, pc.step))
    case CloseOld(t) =>
      var pc := PcOf(s, t);
      At(if pc.prior != pc.start then ClosedAt(s, pc.prior) else s, t, Walking(pc.start, pc.cur, pc.left))
    case CloseStep(t) =>
      var pc := PcOf(s, t); At(ClosedAt(s, pc.step), t, Unwinding(pc.start, pc.cur, Refused))
    case OpenLeaf(t, fd) =>
      var pc := PcOf(s, t); At(Opened(s, fd, Op(t)), t, LeafOpen(pc.start, pc.cur, fd))
    case OpenLeafFails(t, outcome) => At(s, t, Unwinding(PcOf(s, t).start, PcOf(s, t).cur, outcome))
    case LeafIsPlain(t) => var pc := PcOf(s, t); At(s, t, Reading(pc.start, pc.cur, pc.leaf))
    case LeafIsNot(t) => var pc := PcOf(s, t); At(s, t, LeafDone(pc.start, pc.cur, pc.leaf, Refused))
    case ReadChunk(t) => s
    case ReadEnds(t, outcome) => var pc := PcOf(s, t); At(s, t, LeafDone(pc.start, pc.cur, pc.leaf, outcome))
    case CloseLeaf(t) =>
      var pc := PcOf(s, t); At(ClosedAt(s, pc.leaf), t, Unwinding(pc.start, pc.cur, pc.outcome))
    case CloseCur(t) =>
      var pc := PcOf(s, t);
      At(if pc.cur != pc.start then ClosedAt(s, pc.cur) else s, t, Ending(pc.start, pc.outcome))
    case CloseDup(t) => var pc := PcOf(s, t); At(ClosedAt(s, pc.start), t, Done(pc.outcome))
    case Detach(t) =>
      if s.handle.None? then At(s, t, Done(Data)).(lock := None)
      else var fd := s.handle.value;
           At(s, t, Closing(fd)).(handle := None,
             table := if fd in s.table then s.table[fd := s.table[fd].(owner := Op(t))] else s.table)
    case CloseHandle(t) => At(ClosedAt(s, PcOf(s, t).fd), t, Done(Data)).(lock := None)
    case OtherOpens(fd) => Opened(s, fd, Elsewhere)
    case OtherCloses(fd) => ClosedAt(s, fd)
  }

  /** The descriptors a step hands to the kernel. */
  function Uses(s: State, a: Action): set<Fd>
    requires Enabled(s, a)
  {
    match a
    case Dup(t, _) => {s.handle.value}
    case DupFails(t) => {s.handle.value}
    case OpenStep(t, _) => {PcOf(s, t).cur}
    case OpenStepFails(t, _) => {PcOf(s, t).cur}
    case StepIsFolder(t) => {PcOf(s, t).step}
    case StepIsNot(t) => {PcOf(s, t).step}
    case CloseOld(t) => if PcOf(s, t).prior != PcOf(s, t).start then {PcOf(s, t).prior} else {}
    case CloseStep(t) => {PcOf(s, t).step}
    case OpenLeaf(t, _) => {PcOf(s, t).cur}
    case OpenLeafFails(t, _) => {PcOf(s, t).cur}
    case LeafIsPlain(t) => {PcOf(s, t).leaf}
    case LeafIsNot(t) => {PcOf(s, t).leaf}
    case ReadChunk(t) => {PcOf(s, t).leaf}
    case ReadEnds(t, _) => {PcOf(s, t).leaf}
    case CloseLeaf(t) => {PcOf(s, t).leaf}
    case CloseCur(t) => if PcOf(s, t).cur != PcOf(s, t).start then {PcOf(s, t).cur} else {}
    case CloseDup(t) => {PcOf(s, t).start}
    case CloseHandle(t) => {PcOf(s, t).fd}
    case _ => {}
  }

  function Run(s: State, run: seq<Action>): Option<State>
    decreases |run|
  {
    if run == [] then Some(s)
    else if !Enabled(s, run[0]) then None
    else Run(Apply(s, run[0]), run[1..])
  }

  // ---------------------------------------------------------------- what every step keeps

  /** The descriptors an operation has open. */
  function Owned(pc: Pc): set<Fd> {
    match pc
    case Walking(start, cur, _) => {start, cur}
    case Stepped(start, cur, _, step) => {start, cur, step}
    case HandedOver(start, prior, cur, _) => {start, prior, cur}
    case StepRefused(start, cur, step) => {start, cur, step}
    case LeafOpen(start, cur, leaf) => {start, cur, leaf}
    case Reading(start, cur, leaf) => {start, cur, leaf}
    case LeafDone(start, cur, leaf, _) => {start, cur, leaf}
    case Unwinding(start, cur, _) => {start, cur}
    case Ending(start, _) => {start}
    case Closing(fd) => {fd}
    case _ => {}
  }

  /** The last opened of them is none of the others. */
  predicate Apart(pc: Pc) {
    match pc
    case Stepped(start, cur, _, step) => step != start && step != cur
    case HandedOver(start, prior, cur, _) => cur != start && cur != prior
    case StepRefused(start, cur, step) => step != start && step != cur
    case LeafOpen(start, cur, leaf) => leaf != start && leaf != cur
    case Reading(start, cur, leaf) => leaf != start && leaf != cur
    case LeafDone(start, cur, leaf, _) => leaf != start && leaf != cur
    case _ => true
  }

  predicate Locked(pc: Pc) { pc.HasLock? || pc.CloserHas? || pc.Closing? }

  /** Openings are numbered once, and each is open at one number or closed once, never both. */
  ghost predicate LedgerHolds(s: State) {
    && Numbered(s)
    && forall n: nat :: n < s.next ==> Accounted(s, n)
  }

  ghost predicate Accounted(s: State, n: nat) {
    n in s.closed || exists f :: f in s.table && s.table[f].serial == n
  }

  ghost predicate Numbered(s: State) {
    && (forall n: nat :: n in s.opener <==> n < s.next)
    && (forall f :: f in s.table ==> s.table[f].serial < s.next && s.table[f].serial !in s.closed)
    && (forall f, g :: f in s.table && g in s.table && f != g ==> s.table[f].serial != s.table[g].serial)
    && (forall i :: 0 <= i < |s.closed| ==> s.closed[i] < s.next)
    && (forall i, j :: 0 <= i < j < |s.closed| ==> s.closed[i] != s.closed[j])
  }

  /** An operation owns exactly the open descriptors it stands on; the handle owns its own; what an
      operation opened is no one else's. */
  ghost predicate OwnersHold(s: State) {
    && (forall t, f :: t in s.pcs && f in Owned(s.pcs[t]) ==> f in s.table && s.table[f].owner == Op(t))
    && (forall f :: f in s.table && s.table[f].owner.Op? ==>
          s.table[f].owner.t in s.pcs && f in Owned(s.pcs[s.table[f].owner.t]))
    && (forall f :: f in s.table && s.table[f].owner.TheHandle? ==> s.handle == Some(f))
    && (s.handle.Some? ==> s.handle.value in s.table && s.table[s.handle.value].owner.TheHandle?)
    && (forall f :: f in s.table && s.table[f].serial in s.opener && s.opener[s.table[f].serial].Op? ==>
          s.table[f].owner == s.opener[s.table[f].serial])
  }

  ghost predicate PcsHold(s: State) {
    && (forall t :: t in s.pcs ==> Apart(s.pcs[t]))
    && (forall t :: t in s.pcs && Locked(s.pcs[t]) ==> s.lock == Some(t))
    && (s.lock.Some? ==> Locked(PcOf(s, s.lock.value)))
  }

  lemma LedgerKeptByOpen(s: State, fd: Fd, owner: Owner)
    requires LedgerHolds(s) && fd !in s.table
    ensures LedgerHolds(Opened(s, fd, owner))
  {
    var after := Opened(s, fd, owner);
    assert Numbered(after);
    hide Numbered;
    forall n: nat | n < after.next ensures Accounted(after, n) {
      if n == s.next {
        assert after.table[fd].serial == n;
      } else if n !in s.closed {
        assert Accounted(s, n);
        var f :| f in s.table && s.table[f].serial == n;
        assert f in after.table && after.table[f].serial == n;
      }
    }
  }

  lemma NumberedAfterClose(s: State, fd: Fd)
    requires Numbered(s)
    ensures Numbered(ClosedAt(s, fd))
  {
  }

  lemma LedgerKeptByClose(s: State, fd: Fd)
    requires LedgerHolds(s)
    ensures LedgerHolds(ClosedAt(s, fd))
  {
    hide Numbered;
    NumberedAfterClose(s, fd);
    var after := ClosedAt(s, fd);
    forall n: nat | n < after.next ensures Accounted(after, n) {
      assert Accounted(s, n);
      if fd in s.table {
        assert after.closed == s.closed + [s.table[fd].serial];
        if n !in after.closed {
          var f :| f in s.table && s.table[f].serial == n;
          assert after.closed[|s.closed|] == s.table[fd].serial;
          assert f in after.table && after.table[f].serial == n;
        }
      }
    }
  }

  lemma LedgerDependsOn(s: State, after: State)
    requires LedgerHolds(s) && after.next == s.next && after.opener == s.opener && after.closed == s.closed
    requires after.table.Keys == s.table.Keys && forall f :: f in s.table ==> after.table[f].serial == s.table[f].serial
    ensures LedgerHolds(after)
  {
    forall n: nat | n < after.next ensures Accounted(after, n) {
      assert Accounted(s, n);
      if n !in s.closed {
        var f :| f in s.table && s.table[f].serial == n;
        assert f in after.table && after.table[f].serial == n;
      }
    }
  }

  /** What a step does to the descriptor table. */
  datatype Effect = Opens(fd: Fd, owner: Owner) | Closes(fd: Fd) | Detaches | Nothing

  function EffectOf(s: State, a: Action): Effect
    requires Enabled(s, a)
  {
    match a
    case Dup(t, fd) => Opens(fd, Op(t))
    case OpenStep(t, fd) => Opens(fd, Op(t))
    case OpenLeaf(t, fd) => Opens(fd, Op(t))
    case OtherOpens(fd) => Opens(fd, Elsewhere)
    case CloseOld(t) => if PcOf(s, t).prior != PcOf(s, t).start then Closes(PcOf(s, t).prior) else Nothing
    case CloseStep(t) => Closes(PcOf(s, t).step)
    case CloseLeaf(t) => Closes(PcOf(s, t).leaf)
    case CloseCur(t) => if PcOf(s, t).cur != PcOf(s, t).start then Closes(PcOf(s, t).cur) else Nothing
    case CloseDup(t) => Closes(PcOf(s, t).start)
    case CloseHandle(t) => Closes(PcOf(s, t).fd)
    case OtherCloses(fd) => Closes(fd)
    case Detach(t) => if s.handle.Some? then Detaches else Nothing
    case _ => Nothing
  }

  /** The state a step's effect alone would leave. */
  function After(s: State, e: Effect, t: Thread): State {
    match e
    case Opens(fd, owner) => Opened(s, fd, owner)
    case Closes(fd) => ClosedAt(s, fd)
    case Detaches =>
      if s.handle.Some? && s.handle.value in s.table then
        s.(handle := None, table := s.table[s.handle.value := s.table[s.handle.value].(owner := Op(t))])
      else s.(handle := None)
    case Nothing => s
  }

  function ThreadOf(a: Action): Thread { if a.OtherOpens? || a.OtherCloses? then 0 else a.t }

  /** Every step does to the descriptors what its effect says, and nothing else. */
  lemma StepHasItsEffect(s: State, a: Action)
    requires Enabled(s, a)
    ensures var after, e := Apply(s, a), After(s, EffectOf(s, a), ThreadOf(a));
            && after.table == e.table && after.next == e.next && after.opener == e.opener
            && after.closed == e.closed && after.handle == e.handle
    ensures EffectOf(s, a).Opens? ==> EffectOf(s, a).fd !in s.table
  {
    hide Apply, Enabled, EffectOf;
    if EffectOf(s, a).Opens? {
      OpeningHasItsEffect(s, a);
    } else {
      OtherStepHasItsEffect(s, a);
    }
  }

  lemma OpeningHasItsEffect(s: State, a: Action)
    requires Enabled(s, a) && EffectOf(s, a).Opens?
    ensures EffectOf(s, a).fd !in s.table
    ensures Apply(s, a) ==
            Opened(s, EffectOf(s, a).fd, EffectOf(s, a).owner).(pcs := Apply(s, a).pcs, lock := Apply(s, a).lock)
  {
  }

  lemma OtherStepHasItsEffect(s: State, a: Action)
    requires Enabled(s, a) && !EffectOf(s, a).Opens?
    ensures Apply(s, a) == After(s, EffectOf(s, a), ThreadOf(a)).(pcs := Apply(s, a).pcs, lock := Apply(s, a).lock)
  {
  }

  lemma LedgerKept(s: State, a: Action)
    requires LedgerHolds(s) && Enabled(s, a)
    ensures LedgerHolds(Apply(s, a))
  {
    hide LedgerHolds, Apply, Enabled, EffectOf;
    StepHasItsEffect(s, a);
    var e := EffectOf(s, a);
    if e.Opens? {
      LedgerKeptByOpen(s, e.fd, e.owner);
    } else if e.Closes? {
      LedgerKeptByClose(s, e.fd);
    } else {
      LedgerDependsOn(s, After(s, e, ThreadOf(a)));
    }
    LedgerDependsOn(After(s, e, ThreadOf(a)), Apply(s, a));
  }

  // Ownership, by what a step does to the table and to what its thread stands on.

  lemma OwnersKeptByOpen(s: State, t: Thread, fd: Fd, pc: Pc, after: State)
    requires LedgerHolds(s) && OwnersHold(s) && fd !in s.table && t in s.pcs
    requires after.pcs == s.pcs[t := pc] && Owned(pc) == Owned(s.pcs[t]) + {fd}
    requires after.handle == s.handle
    requires after.table == s.table[fd := Entry(s.next, Op(t))] && after.opener == s.opener[s.next := Op(t)]
    ensures OwnersHold(after)
  {
    hide Owned;
  }

  lemma OwnersKeptByClose(s: State, t: Thread, fd: Fd, pc: Pc, after: State)
    requires OwnersHold(s) && t in s.pcs && fd in Owned(s.pcs[t])
    requires after.pcs == s.pcs[t := pc] && Owned(pc) == Owned(s.pcs[t]) - {fd}
    requires after.handle == s.handle && after.table == s.table - {fd} && after.opener == s.opener
    ensures OwnersHold(after)
  {
    hide Owned;
    assert s.table[fd].owner == Op(t);
  }

  lemma OwnersKeptByMove(s: State, t: Thread, pc: Pc, after: State)
    requires OwnersHold(s) && Owned(pc) == if t in s.pcs then Owned(s.pcs[t]) else {}
    requires after.pcs == s.pcs[t := pc]
    requires after.handle == s.handle && after.table == s.table && after.opener == s.opener
    ensures OwnersHold(after)
  {
    hide Owned;
  }

  lemma OwnersKeptByDetach(s: State, t: Thread, fd: Fd, pc: Pc, after: State)
    requires OwnersHold(s) && s.handle == Some(fd) && t in s.pcs && Owned(s.pcs[t]) == {} && Owned(pc) == {fd}
    requires fd in s.table && s.table[fd].serial in s.opener && !s.opener[s.table[fd].serial].Op?
    requires after.pcs == s.pcs[t := pc] && after.handle.None? && after.opener == s.opener
    requires after.table == s.table[fd := s.table[fd].(owner := Op(t))]
    ensures OwnersHold(after)
  {
    hide Owned;
  }

  lemma OwnersKeptByOthersOpening(s: State, fd: Fd, after: State)
    requires LedgerHolds(s) && OwnersHold(s) && fd !in s.table && after.pcs == s.pcs && after.handle == s.handle
    requires after.table == s.table[fd := Entry(s.next, Elsewhere)] && after.opener == s.opener[s.next := Elsewhere]
    ensures OwnersHold(after)
  {
    hide Owned;
  }

  lemma OwnersKeptByOthersClosing(s: State, fd: Fd, after: State)
    requires OwnersHold(s) && fd in s.table && s.table[fd].owner.Elsewhere?
    requires after.pcs == s.pcs && after.handle == s.handle
    requires after.table == s.table - {fd} && after.opener == s.opener
    ensures OwnersHold(after)
  {
    hide Owned;
  }

  /** The handle's descriptor was opened by the handle, so no operation's opening is detached. */
  lemma HandleIsItsOwn(s: State)
    requires LedgerHolds(s) && OwnersHold(s) && s.handle.Some?
    ensures s.handle.value in s.table && s.table[s.handle.value].serial in s.opener
    ensures !s.opener[s.table[s.handle.value].serial].Op?
  {
  }

  lemma OwnersKept(s: State, a: Action)
    requires LedgerHolds(s) && OwnersHold(s) && PcsHold(s) && Enabled(s, a)
    ensures OwnersHold(Apply(s, a))
  {
    hide LedgerHolds, OwnersHold, PcsHold;
    if a.OtherOpens? {
      OwnersKeptByOthersOpening(s, a.fd, Apply(s, a));
    } else if a.OtherCloses? {
      OwnersKeptByOthersClosing(s, a.fd, Apply(s, a));
    } else if a.Detach? && s.handle.Some? {
      HandleIsItsOwn(s);
      OwnersKeptByDetach(s, a.t, s.handle.value, Closing(s.handle.value), Apply(s, a));
    } else if !a.ReadChunk? {
      OwnersKeptByThread(s, a);
    }
  }

  lemma ApartAt(s: State, t: Thread)
    requires PcsHold(s)
    ensures Apart(PcOf(s, t))
  {
  }

  lemma OwnedIsOpen(s: State, t: Thread, fd: Fd)
    requires OwnersHold(s) && fd in Owned(PcOf(s, t))
    ensures fd in s.table && s.table[fd].owner == Op(t)
  {
  }

  lemma OwnersKeptByThread(s: State, a: Action)
    requires LedgerHolds(s) && OwnersHold(s) && PcsHold(s) && Enabled(s, a)
    requires Walks(s, a)
    ensures OwnersHold(Apply(s, a))
  {
    hide LedgerHolds, OwnersHold, PcsHold, Apply, Owned;
    var after := Apply(s, a);
    var t, e := a.t, EffectOf(s, a);
    ApartAt(s, t);
    StepHasItsEffect(s, a);
    OwnedFollowsEffect(s, a);
    if e.Opens? {
      OwnersKeptByOpen(s, t, e.fd, after.pcs[t], after);
    } else if e.Closes? {
      OwnedIsOpen(s, t, e.fd);
      OwnersKeptByClose(s, t, e.fd, after.pcs[t], after);
    } else {
      OwnersKeptByMove(s, t, after.pcs[t], after);
    }
  }

  predicate Walks(s: State, a: Action) {
    !a.OtherOpens? && !a.OtherCloses? && !a.ReadChunk? && !(a.Detach? && s.handle.Some?)
  }

  /** A thread comes to stand on what it opens and leaves what it closes. */
  lemma OwnedFollowsEffect(s: State, a: Action)
    requires Enabled(s, a) && Walks(s, a) && Apart(PcOf(s, a.t))
    ensures var e, before, after := EffectOf(s, a), Owned(PcOf(s, a.t)), Owned(Apply(s, a).pcs[a.t]);
            && Apply(s, a).pcs == s.pcs[a.t := Apply(s, a).pcs[a.t]]
            && !e.Detaches? && (a.t !in s.pcs ==> e.Nothing? && before == {})
            && (e.Opens? ==> e.owner == Op(a.t) && after == before + {e.fd})
            && (e.Closes? ==> e.fd in before && after == before - {e.fd})
            && (e.Nothing? ==> after == before)
  {
    OneThreadMoves(s, a);
    var e := EffectOf(s, a);
    hide Apply, Owned, Apart;
    if e.Opens? {
      StandsOnWhatItOpens(s, a);
    } else if e.Closes? {
      LeavesWhatItCloses(s, a);
    } else {
      StandsStill(s, a);
    }
  }

  lemma OneThreadMoves(s: State, a: Action)
    requires Enabled(s, a) && Walks(s, a)
    ensures a.t in Apply(s, a).pcs && Apply(s, a).pcs == s.pcs[a.t := Apply(s, a).pcs[a.t]]
    ensures a.t !in s.pcs ==> Owned(PcOf(s, a.t)) == {} && EffectOf(s, a).Nothing?
  {
  }

  lemma StandsOnWhatItOpens(s: State, a: Action)
    requires Enabled(s, a) && Walks(s, a) && EffectOf(s, a).Opens? && a.t in Apply(s, a).pcs
    ensures EffectOf(s, a).owner == Op(a.t)
    ensures Owned(Apply(s, a).pcs[a.t]) == Owned(PcOf(s, a.t)) + {EffectOf(s, a).fd}
  {
  }

  lemma LeavesWhatItCloses(s: State, a: Action)
    requires Enabled(s, a) && Walks(s, a) && EffectOf(s, a).Closes? && a.t in Apply(s, a).pcs && Apart(PcOf(s, a.t))
    ensures EffectOf(s, a).fd in Owned(PcOf(s, a.t))
    ensures Owned(Apply(s, a).pcs[a.t]) == Owned(PcOf(s, a.t)) - {EffectOf(s, a).fd}
  {
  }

  lemma StandsStill(s: State, a: Action)
    requires Enabled(s, a) && Walks(s, a) && !EffectOf(s, a).Opens? && !EffectOf(s, a).Closes? && a.t in Apply(s, a).pcs
    ensures EffectOf(s, a).Nothing? && Owned(Apply(s, a).pcs[a.t]) == Owned(PcOf(s, a.t))
  {
  }

  lemma PcsKept(s: State, a: Action)
    requires LedgerHolds(s) && OwnersHold(s) && PcsHold(s) && Enabled(s, a)
    ensures PcsHold(Apply(s, a))
  {
    if a.OtherOpens? || a.OtherCloses? || a.ReadChunk? { return; }
    PcsKeptByThread(s, a);
  }

  lemma PcsKeptByThread(s: State, a: Action)
    requires OwnersHold(s) && PcsHold(s) && Enabled(s, a) && !a.OtherOpens? && !a.OtherCloses? && !a.ReadChunk?
    ensures PcsHold(Apply(s, a))
  {
    hide OwnersHold, PcsHold;
    StaysApart(s, a);
    PcsKeptByMove(s, a.t, Apply(s, a).pcs[a.t], Apply(s, a));
  }

  /** Whatever is opened is a number none of the thread's own can be. */
  lemma StaysApart(s: State, a: Action)
    requires OwnersHold(s) && PcsHold(s) && Enabled(s, a) && !a.OtherOpens? && !a.OtherCloses? && !a.ReadChunk?
    ensures Apart(Apply(s, a).pcs[a.t])
  {
    hide OwnersHold, PcsHold;
    ApartAt(s, a.t);
    forall f | f in Owned(PcOf(s, a.t)) ensures f in s.table { OwnedIsOpen(s, a.t, f); }
  }

  lemma PcsKeptByMove(s: State, t: Thread, pc: Pc, after: State)
    requires PcsHold(s) && after.pcs == s.pcs[t := pc] && Apart(pc)
    requires || (after.lock == s.lock && (Locked(pc) <==> Locked(PcOf(s, t))))
             || (s.lock.None? && after.lock == Some(t) && Locked(pc))
             || (Locked(PcOf(s, t)) && after.lock.None? && !Locked(pc))
    ensures PcsHold(after)
  {
    hide Apart;
  }

  ghost predicate Inv(s: State) { LedgerHolds(s) && OwnersHold(s) && PcsHold(s) }

  lemma {:induction false} RunKeeps(s: State, run: seq<Action>)
    requires Inv(s) && Run(s, run).Some?
    ensures Inv(Run(s, run).value)
    decreases |run|
  {
    hide LedgerHolds, OwnersHold, PcsHold, Apply;
    if run != [] {
      LedgerKept(s, run[0]);
      OwnersKept(s, run[0]);
      PcsKept(s, run[0]);
      RunKeeps(Apply(s, run[0]), run[1..]);
    }
  }

  lemma StartHolds(fd: Fd)
    ensures Inv(Start(fd))
  {
    var s := Start(fd);
    assert s.table[fd].serial == 0;
    assert Accounted(s, 0);
  }

  /** `s` is where some interleaving leads from a process holding its root at `fd`. */
  ghost predicate Reaches(fd: Fd, run: seq<Action>, s: State) {
    Run(Start(fd), run) == Some(s)
  }

  lemma EveryRunKeeps(fd: Fd, run: seq<Action>, s: State)
    requires Reaches(fd, run, s)
    ensures Inv(s)
  {
    StartHolds(fd);
    RunKeeps(Start(fd), run);
  }

  // ---------------------------------------------------------------- the promises

  /** No system call names a descriptor its caller does not own: every number an operation hands to
      the kernel is open and its own, and the handle's number is used only under its lock. */
  lemma StepsUseOwnDescriptors(fd: Fd, run: seq<Action>, s: State, a: Action, f: Fd)
    requires Reaches(fd, run, s) && Enabled(s, a) && f in Uses(s, a)
    ensures f in s.table
    ensures s.table[f].owner == Op(a.t) || (s.table[f].owner == TheHandle && s.lock == Some(a.t))
  {
    EveryRunKeeps(fd, run, s);
    UsesAreOwned(s, a, f);
    hide LedgerHolds, Uses, Owned;
    if f in Owned(PcOf(s, a.t)) { OwnedIsOpen(s, a.t, f); }
  }

  lemma UsesAreOwned(s: State, a: Action, f: Fd)
    requires Enabled(s, a) && f in Uses(s, a)
    ensures !a.OtherOpens? && !a.OtherCloses?
    ensures f in Owned(PcOf(s, a.t)) || (s.handle == Some(f) && PcOf(s, a.t).HasLock?)
  {
  }

  /** No outcome leaks the handle's lock: a thread holds it exactly while it stands where the lock is
      needed, so an idle or finished one holds nothing. */
  lemma LockIsNotLeaked(fd: Fd, run: seq<Action>, s: State, t: Thread)
    requires Reaches(fd, run, s)
    ensures s.lock == Some(t) <==> Locked(PcOf(s, t))
    ensures PcOf(s, t).Idle? || PcOf(s, t).Done? ==> s.lock != Some(t)
  {
    hide LedgerHolds, OwnersHold;
    EveryRunKeeps(fd, run, s);
  }

  /** The step the thread under the lock can take, whatever the kernel answers. */
  function NextLocked(s: State, t: Thread): Action
    requires Locked(PcOf(s, t))
  {
    match PcOf(s, t)
    case HasLock(_) => if s.handle.None? then FindClosed(t) else DupFails(t)
    case CloserHas => Detach(t)
    case Closing(_) => CloseHandle(t)
  }

  /** Nobody waits for ever on the lock: it is free, or its owner can go on. */
  lemma WaitingIsNeverStuck(fd: Fd, run: seq<Action>, s: State, t: Thread)
    requires Reaches(fd, run, s) && (PcOf(s, t).WantLock? || PcOf(s, t).CloserWants?)
    ensures || Enabled(s, TakeLock(t))
            || (s.lock.Some? && Locked(PcOf(s, s.lock.value)) && Enabled(s, NextLocked(s, s.lock.value)))
  {
    hide LedgerHolds, OwnersHold;
    EveryRunKeeps(fd, run, s);
  }

  ghost predicate OnceIn(log: seq<nat>, n: nat) {
    exists i :: 0 <= i < |log| && log[i] == n && forall j :: 0 <= j < |log| && log[j] == n ==> j == i
  }

  lemma NothingOpenIsItsOwn(s: State, t: Thread, n: nat)
    requires Inv(s) && t in s.pcs && Owned(s.pcs[t]) == {} && n in s.opener && s.opener[n] == Op(t)
    ensures n in s.closed
  {
    hide Owned;
    assert Accounted(s, n);
    assert forall f :: f in s.table ==> s.table[f].serial != n;
  }

  /** On every outcome, when an operation is done each descriptor it opened has been closed exactly
      once. */
  lemma DoneOperationClosedEachOnce(fd: Fd, run: seq<Action>, s: State, t: Thread, n: nat)
    requires Reaches(fd, run, s) && PcOf(s, t).Done? && n in s.opener && s.opener[n] == Op(t)
    ensures OnceIn(s.closed, n)
  {
    EveryRunKeeps(fd, run, s);
    NothingOpenIsItsOwn(s, t, n);
    var i :| 0 <= i < |s.closed| && s.closed[i] == n;
    assert forall j :: 0 <= j < |s.closed| && s.closed[j] == n ==> j == i;
  }

  predicate HasStart(pc: Pc) {
    pc.Walking? || pc.Stepped? || pc.HandedOver? || pc.StepRefused? || pc.LeafOpen? || pc.Reading?
    || pc.LeafDone? || pc.Unwinding? || pc.Ending?
  }

  /** The walk's start descriptor stays open, the same opening at the same number, whatever any
      thread does, until the operation itself closes its duplicate last. */
  lemma StartStaysOpen(fd: Fd, run: seq<Action>, s: State, t: Thread, a: Action)
    requires Reaches(fd, run, s) && HasStart(PcOf(s, t)) && Enabled(s, a) && a != CloseDup(t)
    ensures var start := PcOf(s, t).start; var after := Apply(s, a);
            && start in s.table && start in after.table && after.table[start] == s.table[start]
            && HasStart(PcOf(after, t)) && PcOf(after, t).start == start
  {
    EveryRunKeeps(fd, run, s);
    hide LedgerHolds, OwnersHold, PcsHold;
    var start := PcOf(s, t).start;
    OwnedIsOpen(s, t, start);
    StartIsKept(s, t, a);
    TableKeepsAllBut(s, a, start);
    var e := EffectOf(s, a);
    if e.Closes? && !a.OtherCloses? {
      ClosedIsOwn(s, a);
      ApartAt(s, a.t);
    } else if e.Detaches? {
      HandleIsNotAThreads(s);
    }
  }

  lemma StartIsKept(s: State, t: Thread, a: Action)
    requires HasStart(PcOf(s, t)) && Enabled(s, a) && a != CloseDup(t)
    ensures HasStart(PcOf(Apply(s, a), t)) && PcOf(Apply(s, a), t).start == PcOf(s, t).start
  {
    hide Apply, Enabled;
    if Acts(a, t) { OwnStepKeepsStart(s, a); } else { OthersStandStill(s, a, t); }
  }

  lemma OwnStepKeepsStart(s: State, a: Action)
    requires !a.OtherOpens? && !a.OtherCloses? && !a.CloseDup? && HasStart(PcOf(s, a.t)) && Enabled(s, a)
    ensures HasStart(PcOf(Apply(s, a), a.t)) && PcOf(Apply(s, a), a.t).start == PcOf(s, a.t).start
  {
  }

  predicate Acts(a: Action, t: Thread) { !a.OtherOpens? && !a.OtherCloses? && a.t == t }

  lemma OthersStandStill(s: State, a: Action, t: Thread)
    requires Enabled(s, a) && !Acts(a, t)
    ensures PcOf(Apply(s, a), t) == PcOf(s, t)
  {
    hide Apply, Enabled, EffectOf, Owned;
    if Walks(s, a) { OneThreadMoves(s, a); } else { OutsideStepMovesNone(s, a, t); }
  }

  lemma OutsideStepMovesNone(s: State, a: Action, t: Thread)
    requires Enabled(s, a) && !Walks(s, a) && !Acts(a, t)
    ensures PcOf(Apply(s, a), t) == PcOf(s, t)
  {
  }

  lemma TableKeepsAllBut(s: State, a: Action, f: Fd)
    requires Enabled(s, a) && f in s.table
    ensures var e := EffectOf(s, a); var after := Apply(s, a).table;
            (e.Closes? && e.fd == f) || (e.Detaches? && s.handle == Some(f)) || (f in after && after[f] == s.table[f])
  {
    hide Apply, EffectOf, Enabled;
    StepHasItsEffect(s, a);
  }

  lemma ClosedIsOwn(s: State, a: Action)
    requires OwnersHold(s) && Enabled(s, a) && EffectOf(s, a).Closes? && !a.OtherCloses?
    ensures EffectOf(s, a).fd in s.table && s.table[EffectOf(s, a).fd].owner == Op(a.t)
  {
    hide OwnersHold;
    OwnedIsOpen(s, a.t, EffectOf(s, a).fd);
  }

  lemma HandleIsNotAThreads(s: State)
    requires OwnersHold(s) && s.handle.Some?
    ensures s.handle.value in s.table && s.table[s.handle.value].owner == TheHandle
  {
  }

  /** Not past its `dup`: the operation stands on no descriptor. */
  predicate Outside(pc: Pc) {
    pc.Idle? || pc.WantLock? || pc.HasLock? || pc.Done? || pc.CloserWants? || pc.CloserHas?
  }

  /** How an operation kept out may move on. */
  predicate KeptOut(before: Pc, after: Pc) {
    && Outside(after)
    && (before.WantLock? || before.HasLock? ==> after.WantLock? || after.HasLock? || after == Done(BadDescriptor))
    && (before.Done? ==> after == before)
  }

  ghost predicate OpensNothing(s: State, after: State, t: Thread) {
    forall n :: n in after.opener && after.opener[n] == Op(t) ==> n in s.opener && s.opener[n] == Op(t)
  }

  /** Once the handle is closed it stays closed, and an operation not already running opens
      nothing, stands on nothing and ends with a bad descriptor, however the run goes on. */
  lemma {:induction false} AfterCloseNothingIsTouched(s: State, run: seq<Action>, t: Thread)
    requires s.handle.None? && Outside(PcOf(s, t)) && Run(s, run).Some?
    ensures var after := Run(s, run).value;
            after.handle.None? && KeptOut(PcOf(s, t), PcOf(after, t)) && OpensNothing(s, after, t)
    decreases |run|
  {
    hide Apply, Enabled;
    if run != [] {
      AfterCloseOneStep(s, run[0], t);
      AfterCloseNothingIsTouched(Apply(s, run[0]), run[1..], t);
    }
  }

  lemma AfterCloseOneStep(s: State, a: Action, t: Thread)
    requires s.handle.None? && Outside(PcOf(s, t)) && Enabled(s, a)
    ensures var after := Apply(s, a);
            after.handle.None? && KeptOut(PcOf(s, t), PcOf(after, t)) && OpensNothing(s, after, t)
  {
    OpeningsGrowByOne(s, a, t);
    StepHasItsEffect(s, a);
    hide Apply, Enabled, EffectOf;
    if Acts(a, t) { OwnStepIsKeptOut(s, a); } else { OthersStandStill(s, a, t); }
  }

  lemma OwnStepIsKeptOut(s: State, a: Action)
    requires s.handle.None? && !a.OtherOpens? && !a.OtherCloses? && Outside(PcOf(s, a.t)) && Enabled(s, a)
    ensures KeptOut(PcOf(s, a.t), PcOf(Apply(s, a), a.t))
  {
  }

  lemma OpeningsGrowByOne(s: State, a: Action, t: Thread)
    requires s.handle.None? && Outside(PcOf(s, t)) && Enabled(s, a)
    ensures OpensNothing(s, Apply(s, a), t)
  {
    StepHasItsEffect(s, a);
    hide Apply;
    assert EffectOf(s, a).Opens? ==> EffectOf(s, a).owner != Op(t);
  }
}
