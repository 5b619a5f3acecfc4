/** The box's executor and the windows it runs in (`defender/box/_spec.py`,
    `defender/box/_lifecycle.py`): commands refused after an ending, a box entered only when seen
    running and left only when seen stopped. The daemon and the transport may answer anything. */
module BoxLifecycle {
  import opened Options

  const EXEC_KILLED := 137
  const HELPER_DEADLINE := 3

  // ---------------------------------------------------------------- what happens, in order

  datatype Observer = ByExecutor | ByStop | BeforeStart | AfterStart

  /** What a run leaves behind: each exchange, each ending, each answer of the daemon, each window. */
  datatype Event =
    | Exchanged                                       // a command reached the transport
    | FenceTripped                                    // its output passed the limit
    | LossFound                                       // the box was found unusable
    | AskedStop
    | AskedStart
    | Observed(who: Observer, status: Option<string>)
    | ConfirmedGone                                   // a daemon that answers says there is no such box
    | Entered                                         // a window's body began
    | Left(proven: bool)                              // it ended, its stop proven or not

  type Trace = seq<Event>

  /** A window that started the box asked, and the daemon said it runs. */
  const SEEN_RUNNING := Observed(AfterStart, Some("running"))

  ghost predicate Fenced(h: Trace) { FenceTripped in h }

  /** A loss not yet followed by a window that saw the box running. */
  ghost predicate LossPending(h: Trace) {
    h != [] && (var e := h[|h| - 1];
                e.LossFound? || (e != SEEN_RUNNING && LossPending(h[..|h| - 1])))
  }

  predicate StoppedState(status: string) { status == "exited" || status == "dead" }

  /** The trace ends in the daemon saying the box is stopped; for the run box, which removes itself,
      being removed or gone says it too. */
  ghost predicate EndsStopped(h: Trace, autoRemoved: bool) {
    h != [] && (var e := h[|h| - 1];
                || (e.Observed? && e.who == ByStop && e.status.Some? && StoppedState(e.status.value))
                || (autoRemoved && (e == Observed(ByStop, Some("removing")) || e == ConfirmedGone)))
  }

  /** Every event was allowed where it stands. */
  ghost predicate Safe(h: Trace, autoRemoved: bool) {
    h == [] ||
    (var before, e := h[..|h| - 1], h[|h| - 1];
     && Safe(before, autoRemoved)
     && (e.Exchanged? ==> !Fenced(before) && !LossPending(before))
     && (e.Entered? ==> before != [] && before[|before| - 1] == SEEN_RUNNING)
     && (e == Left(true) ==> EndsStopped(before, autoRemoved)))
  }

  // ---------------------------------------------------------------- the environment's answers

  datatype Answer = Says(status: Option<string>) | AskFaults

  /** What the daemon does with one proven stop. */
  datatype StopAnswers = StopCallFaults | StopCalled(status: Answer, gone: Answer)

  datatype Transport = Overflows | TimesOut | Errors | Raw(rc: int, framed: bool)

  /** One command's luck: the clock file, the transport, the status asked, the stop of an ending. */
  datatype Fate = Fate(clockWrites: bool, transport: Transport, status: Answer, stop: StopAnswers)

  datatype Ending = Fence | Lost

  datatype CommandResult = Ran | KilledLine | TimedOut | Ended(ending: Ending) | Faulted

  // ---------------------------------------------------------------- what is made of an answer

  /** The transport answers with a clean frame. */
  predicate Framed(fate: Fate) { fate.transport.Raw? && fate.transport.framed }

  /** The command is sent and its answer passes the output limit. */
  predicate Overflowing(fate: Fate) { fate.clockWrites && fate.transport.Overflows? }

  /** The box runs, and the command's end without a frame has a cause of its own: its helper was killed,
      or its time ran out here or in the box. */
  predicate Explained(fate: Fate) {
    && fate.status == Says(Some("running"))
    && (fate.transport.TimesOut?
        || (fate.transport.Raw? && (fate.transport.rc == EXEC_KILLED || fate.transport.rc == HELPER_DEADLINE)))
  }

  /** The ending a command brings on a sandboxed box that refused nothing. */
  function Brings(fate: Fate): Option<Ending> {
    if !fate.clockWrites then None
    else match fate.transport
         case Overflows => Some(Fence)
         case Raw(_, true) => None
         case _ => if Explained(fate) then None else Some(Lost)
  }

  /** The daemon's answers prove the box stopped: it is down, or, removing itself once stopped, being
      removed, or gone by the word of a daemon that answers. */
  predicate ProvesStopped(answers: StopAnswers, autoRemoved: bool) {
    && answers.StopCalled? && answers.status.Says?
    && (|| answers.status.status == Some("exited") || answers.status.status == Some("dead")
        || (autoRemoved && answers.status.status == Some("removing"))
        || (autoRemoved && answers.status.status == None && answers.gone == Says(None)))
  }

  /** The daemon's answers prove a window's start: it was `exited`, and after the start call runs. */
  predicate ProvesStarted(fate: WindowFate) {
    fate.first == Says(Some("exited")) && !fate.startFaults && fate.second == Says(Some("running"))
  }

  // ---------------------------------------------------------------- the executor

  class BoxExecutor {
    const sandboxed: bool
    const hasDocker: bool      // the docker it was created with, if any
    const autoRemoved: bool    // the run box, which removes itself once stopped
    var refusing: Option<Ending>
    ghost var trace: Trace

    ghost predicate Valid()
      reads this
    {
      && Safe(trace, autoRemoved)
      && (refusing == Some(Fence) <==> Fenced(trace))
      && (LossPending(trace) ==> refusing.Some?)
    }

    constructor (sandboxed: bool, hasDocker: bool, autoRemoved: bool)
      ensures Valid() && trace == [] && refusing == None
      ensures this.sandboxed == sandboxed && this.hasDocker == hasDocker && this.autoRemoved == autoRemoved
    {
      this.sandboxed, this.hasDocker, this.autoRemoved := sandboxed, hasDocker, autoRemoved;
      refusing, trace := None, [];
    }

    /** `readmit`: lifts a loss's refusal, never the fence's. */
    method Readmit()
      requires Valid() && trace != [] && trace[|trace| - 1] == SEEN_RUNNING
      modifies this`refusing
      ensures Valid() && refusing == if old(refusing) == Some(Lost) then None else old(refusing)
    {
      if refusing == Some(Lost) { refusing := None; }
    }

    /** `_end`: refuse every later command, stop the box, raise the ending whatever the stop did. */
    method End(ending: Ending, stop: StopAnswers) returns (r: CommandResult)
      requires Valid() && refusing == None
      modifies this
      ensures Valid() && r == Ended(ending) && refusing == Some(ending) && old(trace) < trace
      ensures Exchanges(trace) == Exchanges(old(trace))
      ensures trace[|old(trace)|] == if ending.Fence? then FenceTripped else LossFound
      ensures sandboxed && hasDocker ==> |trace| > |old(trace)| + 1 && trace[|old(trace)| + 1] == AskedStop
    {
      Extend(trace, if ending.Fence? then FenceTripped else LossFound, autoRemoved);
      ghost var was := trace;
      trace := trace + [if ending.Fence? then FenceTripped else LossFound];
      refusing := Some(ending);
      assert was == trace[..|was|];
      // `BoxRuns(self)` itself faults for a sandboxed box that carries no docker.
      if !sandboxed || hasDocker {
        var runs := new BoxRuns(this);
        var proven := runs.Stop(stop);
      }
      return Ended(ending);
    }

    /** `run_parsed`. */
    method RunParsed(fate: Fate) returns (r: CommandResult)
      requires Valid()
      modifies this
      ensures Valid() && old(trace) <= trace
      ensures old(refusing).Some? ==>
                r == Ended(old(refusing).value) && trace == old(trace) && refusing == old(refusing)
      ensures old(refusing).None? ==> Exchanges(trace) == Exchanges(old(trace)) + (if fate.clockWrites then 1 else 0)
      ensures old(refusing).None? && refusing.Some? ==> r == Ended(refusing.value)
      ensures old(refusing).None? && !fate.clockWrites ==> r == Faulted && refusing == None && trace == old(trace)
      ensures old(refusing).None? && Overflowing(fate) ==>
                r == Ended(Fence) && refusing == Some(Fence)
      ensures old(refusing).None? && fate.clockWrites && Framed(fate) ==>
                r == Ran && refusing == None && trace == old(trace) + [Exchanged]
      ensures old(refusing).None? && sandboxed && hasDocker ==> refusing == Brings(fate)
      ensures old(refusing).None? && sandboxed && hasDocker && fate.clockWrites && Brings(fate).None? ==>
                && (fate.transport.TimesOut? || fate.transport == Raw(HELPER_DEADLINE, false) ==> r == TimedOut)
                && (fate.transport == Raw(EXEC_KILLED, false) ==> r == KilledLine)
      ensures old(refusing).None? && sandboxed && !hasDocker && fate.clockWrites ==>
                Framed(fate) || fate.transport.Overflows? || r == Ended(Lost)
      ensures old(refusing).None? && !sandboxed && fate.clockWrites && !fate.transport.Overflows? ==>
                && refusing == None && trace == old(trace) + [Exchanged]
                && (fate.transport.TimesOut? ==> r == TimedOut)
                && (fate.transport.Errors? || (fate.transport.Raw? && !Framed(fate)) ==> r == Faulted)
    {
      if refusing.Some? { return Ended(refusing.value); }
      if !fate.clockWrites { return Faulted; }
      Extend(trace, Exchanged, autoRemoved);
      trace := trace + [Exchanged];
      if sandboxed {
        r := ExchangeBoxed(fate);
      } else {
        r := ExchangeUnboxed(fate);
      }
    }

    method ExchangeUnboxed(fate: Fate) returns (r: CommandResult)
      requires Valid() && refusing == None
      modifies this
      ensures Valid() && old(trace) <= trace && Exchanges(trace) == Exchanges(old(trace))
      ensures fate.transport.Overflows? ==> r == Ended(Fence) && refusing == Some(Fence)
      ensures !fate.transport.Overflows? ==> refusing == None && trace == old(trace)
      ensures fate.transport.TimesOut? ==> r == TimedOut
      ensures fate.transport.Errors? ==> r == Faulted
      ensures fate.transport.Raw? ==> r == if fate.transport.framed then Ran else Faulted
    {
      match fate.transport
      case Overflows => r := End(Fence, fate.stop);
      case TimesOut => r := TimedOut;
      case Errors => r := Faulted;
      case Raw(_, framed) => r := if framed then Ran else Faulted;
    }

    /** A clean frame is the result; anything else asks the box's status once. */
    method ExchangeBoxed(fate: Fate) returns (r: CommandResult)
      requires Valid() && refusing == None
      modifies this
      ensures Valid() && old(trace) <= trace && Exchanges(trace) == Exchanges(old(trace))
      ensures refusing.Some? ==> r == Ended(refusing.value)
      ensures fate.transport.Overflows? ==> r == Ended(Fence) && refusing == Some(Fence)
      ensures Framed(fate) ==> r == Ran && refusing == None && trace == old(trace)
      ensures !fate.transport.Overflows? && !Framed(fate) ==>
                refusing == if hasDocker && Explained(fate) then None else Some(Lost)
      ensures refusing == None && (fate.transport.TimesOut? || fate.transport == Raw(HELPER_DEADLINE, false)) ==>
                r == TimedOut
      ensures refusing == None && fate.transport == Raw(EXEC_KILLED, false) ==> r == KilledLine
    {
      match fate.transport
      case Overflows => r := End(Fence, fate.stop);
      case TimesOut => r := Unframed(None, true, fate);
      case Errors => r := Unframed(None, false, fate);
      case Raw(rc, framed) =>
        if framed { r := Ran; } else { r := Unframed(Some(rc), false, fate); }
    }

    /** `_unframed`: lost unless the box says it runs and the helper's end explains itself. */
    method Unframed(rc: Option<int>, timedOut: bool, fate: Fate) returns (r: CommandResult)
      requires Valid() && refusing == None
      modifies this
      ensures Valid() && old(trace) <= trace && Exchanges(trace) == Exchanges(old(trace))
      ensures refusing.Some? ==> r == Ended(refusing.value)
      ensures refusing ==
              if hasDocker && fate.status == Says(Some("running"))
                 && (rc == Some(EXEC_KILLED) || timedOut || rc == Some(HELPER_DEADLINE))
              then None else Some(Lost)
      ensures refusing == None ==> r == if rc == Some(EXEC_KILLED) then KilledLine else TimedOut
    {
      var status := None;
      if hasDocker && fate.status.Says? { status := fate.status.status; }
      Extend(trace, Observed(ByExecutor, status), autoRemoved);
      trace := trace + [Observed(ByExecutor, status)];
      if status != Some("running") {
        r := End(Lost, fate.stop);
      } else if rc == Some(EXEC_KILLED) {
        r := KilledLine;
      } else if timedOut || rc == Some(HELPER_DEADLINE) {
        r := TimedOut;
      } else {
        r := End(Lost, fate.stop);
      }
    }
  }

  ghost function Exchanges(h: Trace): nat {
    if h == [] then 0 else Exchanges(h[..|h| - 1]) + (if h[|h| - 1].Exchanged? then 1 else 0)
  }

  /** What one more event does to a trace. */
  lemma Extend(h: Trace, e: Event, autoRemoved: bool)
    ensures Fenced(h + [e]) <==> Fenced(h) || e.FenceTripped?
    ensures LossPending(h + [e]) <==> e.LossFound? || (e != SEEN_RUNNING && LossPending(h))
    ensures Exchanges(h + [e]) == Exchanges(h) + (if e.Exchanged? then 1 else 0)
    ensures Safe(h + [e], autoRemoved) <==>
            && Safe(h, autoRemoved)
            && (e.Exchanged? ==> !Fenced(h) && !LossPending(h))
            && (e.Entered? ==> h != [] && h[|h| - 1] == SEEN_RUNNING)
            && (e == Left(true) ==> EndsStopped(h, autoRemoved))
  {
    var more := h + [e];
    assert more[..|more| - 1] == h && more[|more| - 1] == e;
  }

  // ---------------------------------------------------------------- the windows

  /** What the daemon does with one window. */
  datatype WindowFate = WindowFate(
    first: Answer, startFaults: bool, second: Answer, giveUp: StopAnswers, stop: StopAnswers)

  /** How a window ended: never entered; entered, its stop not proven (a `BoxFault`); entered and
      stopped, its body having raised or not. */
  datatype WindowResult = NotEntered | StopFault | Closed(raised: bool)

  class BoxRuns {
    const box: BoxExecutor

    constructor (box: BoxExecutor)
      requires box.sandboxed ==> box.hasDocker
      ensures this.box == box
    {
      this.box := box;
    }

    /** `stop`: proven by what the daemon then says. */
    method Stop(answers: StopAnswers) returns (proven: bool)
      requires box.Valid()
      modifies box`trace
      ensures box.Valid() && old(box.trace) <= box.trace && Exchanges(box.trace) == Exchanges(old(box.trace))
      ensures LossPending(box.trace) == LossPending(old(box.trace))
      ensures proven && box.sandboxed ==> EndsStopped(box.trace, box.autoRemoved)
      ensures box.sandboxed ==> (proven <==> ProvesStopped(answers, box.autoRemoved))
      ensures box.sandboxed ==> old(box.trace) + [AskedStop] <= box.trace
      ensures !box.sandboxed ==> proven && box.trace == old(box.trace)
    {
      if !box.sandboxed { return true; }
      Note(AskedStop);
      if answers.StopCallFaults? || answers.status.AskFaults? { return false; }
      var status := answers.status.status;
      Note(Observed(ByStop, status));
      if status.Some? && StoppedState(status.value) { return true; }
      if !box.autoRemoved { return false; }
      if status == Some("removing") { return true; }
      if status.Some? || answers.gone != Says(None) { return false; }
      Note(ConfirmedGone);
      return true;
    }

    /** Write one event down. */
    ghost method Note(e: Event)
      requires box.Valid()
      requires !e.Exchanged? && !e.FenceTripped? && !e.LossFound? && e != SEEN_RUNNING
      requires e.Entered? ==> box.trace != [] && box.trace[|box.trace| - 1] == SEEN_RUNNING
      requires e == Left(true) ==> EndsStopped(box.trace, box.autoRemoved)
      modifies box`trace
      ensures box.Valid() && box.trace == old(box.trace) + [e]
      ensures Exchanges(box.trace) == Exchanges(old(box.trace)) && LossPending(box.trace) == LossPending(old(box.trace))
    {
      Extend(box.trace, e, box.autoRemoved);
      box.trace := box.trace + [e];
    }

    /** `run`: one agent run's window; `body` is the commands it runs, whatever each raises, and
        `raises` whether it ends by raising. */
    method Run(fate: WindowFate, body: seq<Fate>, raises: bool) returns (r: WindowResult)
      requires box.Valid()
      modifies box
      ensures box.Valid() && old(box.trace) <= box.trace
      ensures r.NotEntered? ==> Exchanges(box.trace) == Exchanges(old(box.trace))
      ensures r.NotEntered? ==> exists k :: |old(box.trace)| <= k < |box.trace| && box.trace[k] == AskedStop
      ensures r.Closed? ==> r.raised == raises
      ensures r.Closed? && box.sandboxed ==>
                |box.trace| >= 2 && box.trace[|box.trace| - 1] == Left(true)
                && EndsStopped(box.trace[..|box.trace| - 1], box.autoRemoved)
      ensures r.StopFault? ==> box.trace != [] && box.trace[|box.trace| - 1] == Left(false)
      ensures !box.sandboxed ==> r.Closed?
      ensures box.sandboxed ==> (r.NotEntered? <==> !ProvesStarted(fate))
      ensures box.sandboxed && ProvesStarted(fate) ==> (r.Closed? <==> ProvesStopped(fate.stop, box.autoRemoved))
      ensures box.sandboxed && box.hasDocker ==>
                var before := Standing(old(box.refusing), Exchanges(old(box.trace)));
                Standing(box.refusing, Exchanges(box.trace)) == AfterWindow(before, fate, body)
    {
      if !box.sandboxed {
        // No container: nothing to start, ask or stop.
        for k := 0 to |body|
          invariant box.Valid() && old(box.trace) <= box.trace
        {
          var _ := box.RunParsed(body[k]);
        }
        return Closed(raises);
      }
      var running := Start(fate);
      if !running {
        // Best-effort, before the refusal unwinds.
        ghost var refused := box.trace;
        var _ := Stop(fate.giveUp);
        assert box.trace[|refused|] == AskedStop;
        return NotEntered;
      }
      Note(Entered);
      ghost var entered, first := box.trace, Standing(box.refusing, Exchanges(box.trace));
      for k := 0 to |body|
        invariant box.Valid() && entered <= box.trace
        invariant box.hasDocker ==> Standing(box.refusing, Exchanges(box.trace)) == AfterBody(first, body[..k])
      {
        assert body[..k + 1][..k] == body[..k];
        var _ := box.RunParsed(body[k]);
      }
      assert body[..|body|] == body;
      var proven := Stop(fate.stop);
      Note(Left(proven));
      assert proven ==> box.trace[..|box.trace| - 1] + [Left(true)] == box.trace;
      return if proven then Closed(raises) else StopFault;
    }

    /** The window's start: the box must be `exited`, then seen `running`. */
    method Start(fate: WindowFate) returns (running: bool)
      requires box.Valid()
      modifies box
      ensures box.Valid() && old(box.trace) <= box.trace && Exchanges(box.trace) == Exchanges(old(box.trace))
      ensures running ==> box.trace != [] && box.trace[|box.trace| - 1] == SEEN_RUNNING
      ensures running ==> box.refusing == if old(box.refusing) == Some(Lost) then None else old(box.refusing)
      ensures !running ==> box.refusing == old(box.refusing)
      ensures running <==> ProvesStarted(fate)
    {
      hide Safe, LossPending, Exchanges, Fenced, EndsStopped;
      if fate.first.AskFaults? { return false; }
      var status := fate.first.status;
      Note(Observed(BeforeStart, status));
      if status != Some("exited") { return false; }
      Note(AskedStart);
      if fate.startFaults || fate.second.AskFaults? { return false; }
      status := fate.second.status;
      if status != Some("running") {
        Note(Observed(AfterStart, status));
        return false;
      }
      Extend(box.trace, SEEN_RUNNING, box.autoRemoved);
      box.trace := box.trace + [SEEN_RUNNING];
      box.Readmit();
      return true;
    }
  }

  // ---------------------------------------------------------------- whole runs

  datatype Op = Command(fate: Fate) | Window(window: WindowFate, body: seq<Fate>, raises: bool)

  /** What a box refuses with, and how many commands reached the transport. */
  datatype Standing = Standing(refusing: Option<Ending>, exchanges: nat)

  function AfterCommand(s: Standing, fate: Fate): Standing {
    if s.refusing.Some? then s
    else Standing(Brings(fate), s.exchanges + (if fate.clockWrites then 1 else 0))
  }

  function AfterBody(s: Standing, body: seq<Fate>): Standing
    decreases |body|
  {
    if body == [] then s else AfterCommand(AfterBody(s, body[..|body| - 1]), body[|body| - 1])
  }

  /** A window not proven started runs nothing; one that is lifts a loss, and nothing else. */
  function AfterWindow(s: Standing, fate: WindowFate, body: seq<Fate>): Standing {
    if !ProvesStarted(fate) then s
    else AfterBody(if s.refusing == Some(Lost) then s.(refusing := None) else s, body)
  }

  function AfterOp(s: Standing, op: Op): Standing {
    match op
    case Command(fate) => AfterCommand(s, fate)
    case Window(window, body, _) => AfterWindow(s, window, body)
  }

  function AfterScript(script: seq<Op>): Standing
    decreases |script|
  {
    if script == [] then Standing(None, 0) else AfterOp(AfterScript(script[..|script| - 1]), script[|script| - 1])
  }

  lemma {:induction false} BodyIsRefused(s: Standing, body: seq<Fate>)
    requires s.refusing.Some?
    ensures AfterBody(s, body) == s
    decreases |body|
  {
    if body != [] { BodyIsRefused(s, body[..|body| - 1]); }
  }

  /** Once the fence refuses, it refuses for good, windows and all: nothing more is exchanged. */
  lemma {:induction false} FencedForGood(script: seq<Op>, k: nat)
    requires k <= |script| && AfterScript(script[..k]).refusing == Some(Fence)
    ensures AfterScript(script) == AfterScript(script[..k])
    decreases |script| - k
  {
    if k < |script| {
      assert script[..k + 1][..k] == script[..k];
      if script[k].Window? { BodyIsRefused(AfterScript(script[..k]), script[k].body); }
      FencedForGood(script, k + 1);
    } else {
      assert script[..k] == script;
    }
  }

  /** The script's `k`-th step is a command that is sent, and whose answer passes the limit. */
  predicate OverflowsAt(script: seq<Op>, k: nat)
    requires k < |script|
  {
    script[k].Command? && Overflowing(script[k].fate) && AfterScript(script[..k]).refusing.None?
  }

  /** After a command whose transport overflowed, nothing in the script is exchanged. */
  lemma NothingAfterAnOverflow(script: seq<Op>, k: nat)
    requires k < |script| && OverflowsAt(script, k)
    ensures AfterScript(script) == Standing(Some(Fence), AfterScript(script[..k]).exchanges + 1)
  {
    assert script[..k + 1][..k] == script[..k];
    FencedForGood(script, k + 1);
  }

  /** After a command that lost the box, nothing is exchanged until a window proves it started. */
  lemma {:induction false} NothingAfterALoss(script: seq<Op>, k: nat)
    requires k <= |script| && AfterScript(script[..k]).refusing == Some(Lost)
    requires forall j :: k <= j < |script| ==> !(script[j].Window? && ProvesStarted(script[j].window))
    ensures AfterScript(script) == AfterScript(script[..k])
    decreases |script| - k
  {
    if k < |script| {
      assert script[..k + 1][..k] == script[..k];
      NothingAfterALoss(script, k + 1);
    } else {
      assert script[..k] == script;
    }
  }

  /** While every answer is a frame, every command whose clock writes is exchanged, and none is refused. */
  lemma {:induction false} CleanFramesAreAllExchanged(script: seq<Op>)
    requires forall k :: 0 <= k < |script| ==>
               script[k].Command? && script[k].fate.clockWrites && Framed(script[k].fate)
    ensures AfterScript(script) == Standing(None, |script|)
    decreases |script|
  {
    if script != [] { CleanFramesAreAllExchanged(script[..|script| - 1]); }
  }

  /** Any sequence of commands and windows on one sandboxed box, one at a time. */
  method Drive(script: seq<Op>, autoRemoved: bool) returns (box: BoxExecutor)
    ensures fresh(box) && box.sandboxed && box.Valid() && box.autoRemoved == autoRemoved
    ensures NoCommandPastTheFence(box.trace) && LossNeedsAWindow(box.trace)
    ensures BodiesSeeTheBoxRunning(box.trace) && ClosedWindowsSawItStopped(box.trace, autoRemoved)
    ensures Standing(box.refusing, Exchanges(box.trace)) == AfterScript(script)
    ensures forall k: nat | k < |script| && OverflowsAt(script, k) ::
              box.refusing == Some(Fence) && Exchanges(box.trace) == AfterScript(script[..k]).exchanges + 1
  {
    box := new BoxExecutor(true, true, autoRemoved);
    var runs := new BoxRuns(box);
    for k := 0 to |script|
      invariant fresh(box) && box.Valid() && runs.box == box && box.sandboxed && box.autoRemoved == autoRemoved
      invariant box.hasDocker && Standing(box.refusing, Exchanges(box.trace)) == AfterScript(script[..k])
    {
      assert script[..k + 1][..k] == script[..k];
      match script[k]
      case Command(fate) => var _ := box.RunParsed(fate);
      case Window(window, body, raises) => var _ := runs.Run(window, body, raises);
    }
    assert script[..|script|] == script;
    forall k: nat | k < |script| && OverflowsAt(script, k)
      ensures AfterScript(script) == Standing(Some(Fence), AfterScript(script[..k]).exchanges + 1)
    {
      NothingAfterAnOverflow(script, k);
    }
    SafeMeans(box.trace, autoRemoved);
  }

  /** No command reaches the transport once the output fence has tripped. */
  ghost predicate NoCommandPastTheFence(h: Trace) {
    forall i, j :: 0 <= i < j < |h| && h[i].FenceTripped? ==> !h[j].Exchanged?
  }

  /** None does after a loss, until a later window has seen the box running. */
  ghost predicate LossNeedsAWindow(h: Trace) {
    forall i, j :: 0 <= i < j < |h| && h[i].LossFound? && h[j].Exchanged? ==> SeenRunningBetween(h, i, j)
  }

  ghost predicate SeenRunningBetween(h: Trace, i: nat, j: nat) {
    exists k :: i < k < j <= |h| && h[k] == SEEN_RUNNING
  }

  /** No window's body is entered unless the box has just been seen running. */
  ghost predicate BodiesSeeTheBoxRunning(h: Trace) {
    forall j :: 0 <= j < |h| && h[j].Entered? ==> j > 0 && h[j - 1] == SEEN_RUNNING
  }

  /** A window left without a fault was left with the box seen stopped. */
  ghost predicate ClosedWindowsSawItStopped(h: Trace, autoRemoved: bool) {
    forall j :: 0 <= j < |h| && h[j] == Left(true) ==> EndsStopped(h[..j], autoRemoved)
  }

  lemma {:induction false} PendingUntilSeen(h: Trace, i: nat)
    requires i < |h| && h[i].LossFound? && !LossPending(h)
    ensures SeenRunningBetween(h, i, |h|)
    decreases |h|
  {
    var last := |h| - 1;
    if h[last] != SEEN_RUNNING {
      var before := h[..last];
      PendingUntilSeen(before, i);
      var k :| i < k < last <= |before| && before[k] == SEEN_RUNNING;
      assert h[k] == SEEN_RUNNING;
    }
  }

  lemma {:induction false} SafeMeans(h: Trace, autoRemoved: bool)
    requires Safe(h, autoRemoved)
    ensures NoCommandPastTheFence(h) && LossNeedsAWindow(h)
    ensures BodiesSeeTheBoxRunning(h) && ClosedWindowsSawItStopped(h, autoRemoved)
    decreases |h|
  {
    if h != [] {
      var last := |h| - 1;
      var before := h[..last];
      SafeMeans(before, autoRemoved);
      forall i, j | 0 <= i < j < |h| && h[i].FenceTripped? ensures !h[j].Exchanged? {
        assert before[i] == h[i];
        if j < last { assert before[j] == h[j]; }
      }
      forall i, j | 0 <= i < j < |h| && h[i].LossFound? && h[j].Exchanged? ensures SeenRunningBetween(h, i, j) {
        assert before[i] == h[i];
        if j < last {
          assert before[j] == h[j];
          var k :| i < k < j <= |before| && before[k] == SEEN_RUNNING;
          assert h[k] == SEEN_RUNNING;
        } else {
          PendingUntilSeen(before, i);
          var k :| i < k < last <= |before| && before[k] == SEEN_RUNNING;
          assert h[k] == SEEN_RUNNING;
        }
      }
      forall j | 0 <= j < |h| && h[j].Entered? ensures j > 0 && h[j - 1] == SEEN_RUNNING {
        if j < last { assert before[j] == h[j] && before[j - 1] == h[j - 1]; }
      }
      forall j | 0 <= j < |h| && h[j] == Left(true) ensures EndsStopped(h[..j], autoRemoved) {
        if j < last { assert before[j] == h[j] && before[..j] == h[..j]; }
      }
    }
  }
}
