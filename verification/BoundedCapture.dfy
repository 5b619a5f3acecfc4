/** Exchanging one request with a child process while bounding what it may send back
    (`defender/box/_output.py`): one selector loop over the child's three pipes. */
module BoundedCapture {
  import opened Options

  type Bytes = seq<bv8>

  const CHUNK: nat := 64 * 1024

  datatype Side = Out | Err

  /** What the kernel does with one readiness event: how much it takes or gives of what was asked,
      or that it would block after all, or that the pipe is broken. */
  datatype Readiness =
    | StdinTakes(count: nat)
    | StdinBlocks
    | StdinBroken
    | Gives(side: Side, count: nat)
    | Blocks(side: Side)
    | DeadlinePasses

  datatype Result =
    | Captured(rc: int, stdout: Bytes, stderr: Bytes)
    | LimitExceeded
    | TimedOut

  function Min(a: nat, b: nat): nat { if a < b then a else b }

  /** What `os.read` of at most `asked` bytes gives: nothing only at the end of the stream, and at
      least one byte before it. */
  function Taken(left: nat, asked: nat, count: nat): (n: nat)
    requires asked >= 1
    ensures n <= left && n <= asked
    ensures n == 0 <==> left == 0
  {
    Min(Min(if count == 0 then 1 else count, asked), left)
  }

  // ---------------------------------------------------------------- each pipe on its own

  /** The events that come before the deadline. */
  function InTime(schedule: seq<Readiness>): seq<Readiness> {
    if schedule == [] || schedule[0].DeadlinePasses? then [] else [schedule[0]] + InTime(schedule[1..])
  }

  /** How far a stream has been read, and whether its end has been met. */
  datatype Progress = Progress(got: nat, ended: bool)

  function Next(p: Progress, e: Readiness, side: Side, total: nat): (r: Progress)
    requires p.got <= total && (p.ended ==> p.got == total)
    ensures p.got <= r.got <= total && (r.ended ==> r.got == total) && (p.ended ==> r == p)
  {
    if !(e.Gives? && e.side == side) || p.ended then p
    else if p.got == total then Progress(total, true)
    else Progress(p.got + Taken(total - p.got, CHUNK, e.count), false)
  }

  /** A stream of `total` bytes, read a chunk at each of its events with no limit and nothing else
      going on. */
  function ReadFreely(events: seq<Readiness>, side: Side, total: nat): (p: Progress)
    ensures p.got <= total && (p.ended ==> p.got == total)
    decreases |events|
  {
    if events == [] then Progress(0, false)
    else Next(ReadFreely(events[..|events| - 1], side, total), events[|events| - 1], side, total)
  }

  function NextSent(p: Progress, e: Readiness, total: nat): (r: Progress)
    requires p.got <= total && (p.got == total ==> p.ended)
    ensures p.got <= r.got <= total && (r.got == total ==> r.ended) && (p.ended ==> r == p)
  {
    if p.ended then p
    else if e.StdinBroken? then Progress(p.got, true)
    else if e.StdinTakes? then
      var got := p.got + Min(e.count, Min(CHUNK, total - p.got));
      Progress(got, got == total)
    else p
  }

  /** How much of a frame of `total` bytes the child has taken, and whether nothing is left to send:
      all of it taken, or the pipe broken. */
  function SendFreely(events: seq<Readiness>, total: nat): (p: Progress)
    ensures p.got <= total && (p.got == total ==> p.ended)
    decreases |events|
  {
    if events == [] then Progress(0, total == 0)
    else NextSent(SendFreely(events[..|events| - 1], total), events[|events| - 1], total)
  }

  /** How the exchange must end: the limit fault exactly when the two streams give more than the
      limit in time; both streams whole exactly when all three pipes are done in time and the child
      is reaped; a time-out otherwise. */
  function Settled(frame: nat, out: Bytes, err: Bytes, limit: nat, events: seq<Readiness>, exits: Option<int>): Result {
    var o, e := ReadFreely(events, Out, |out|), ReadFreely(events, Err, |err|);
    if o.got + e.got > limit then LimitExceeded
    else if o.ended && e.ended && SendFreely(events, frame).ended && exits.Some? then Captured(exits.value, out, err)
    else TimedOut
  }

  // ---------------------------------------------------------------- what the events decide

  ghost predicate NoneLate(schedule: seq<Readiness>, i: nat)
    requires i <= |schedule|
  {
    forall k :: 0 <= k < i ==> !schedule[k].DeadlinePasses?
  }

  lemma {:induction false} InTimeIsPrefix(schedule: seq<Readiness>, i: nat)
    requires i <= |schedule| && NoneLate(schedule, i)
    ensures i <= |InTime(schedule)| && InTime(schedule)[..i] == schedule[..i]
    ensures i == |schedule| || schedule[i].DeadlinePasses? ==> InTime(schedule) == schedule[..i]
    decreases i
  {
    if i > 0 {
      InTimeIsPrefix(schedule[1..], i - 1);
      assert schedule[..i] == [schedule[0]] + schedule[1..][..i - 1];
    }
  }

  /** Later events only add: what was given stays given, and an end stays an end. */
  lemma {:induction false} MoreOnlyAdds(events: seq<Readiness>, i: nat, side: Side, total: nat, frame: nat)
    requires i <= |events|
    ensures var a, b := ReadFreely(events[..i], side, total), ReadFreely(events, side, total);
            a.got <= b.got && (a.ended ==> b == a)
    ensures var a, b := SendFreely(events[..i], frame), SendFreely(events, frame);
            a.got <= b.got && (a.ended ==> b == a)
    decreases |events| - i
  {
    if i < |events| {
      assert events[..i + 1][..i] == events[..i];
      MoreOnlyAdds(events, i + 1, side, total, frame);
    } else {
      assert events[..i] == events;
    }
  }

  function Turns(events: seq<Readiness>, side: Side): nat
    decreases |events|
  {
    if events == [] then 0 else
      var e := events[|events| - 1];
      Turns(events[..|events| - 1], side) + (if e.Gives? && e.side == side then 1 else 0)
  }

  /** Each read of an open stream gives a byte or meets its end, so one read more than there are
      bytes is always enough. */
  lemma {:induction false} EndIsMet(events: seq<Readiness>, side: Side, total: nat)
    ensures var p := ReadFreely(events, side, total); p.ended || Turns(events, side) <= p.got
    ensures Turns(events, side) > total ==> ReadFreely(events, side, total).ended
    decreases |events|
  {
    if events != [] { EndIsMet(events[..|events| - 1], side, total); }
  }

  /** Nothing is left to send exactly when the child has taken the whole frame or the pipe has broken;
      and once it has broken the child takes no more. */
  lemma {:induction false} SendingEndsExactlyWhen(events: seq<Readiness>, total: nat)
    ensures var p := SendFreely(events, total); p.ended <==> p.got == total || StdinBroken in events
    ensures forall i :: 0 <= i < |events| && events[i].StdinBroken? ==>
              SendFreely(events, total).got == SendFreely(events[..i], total).got
    decreases |events|
  {
    if events != [] {
      var last := |events| - 1;
      assert events == events[..last] + [events[last]];
      SendingEndsExactlyWhen(events[..last], total);
      forall i | 0 <= i < |events| && events[i].StdinBroken?
        ensures SendFreely(events, total).got == SendFreely(events[..i], total).got
      {
        if i < last { assert events[..last][i].StdinBroken? && events[..last][..i] == events[..i]; }
      }
    }
  }

  /** The events of one pipe, in their order. */
  datatype Pipe = Reading(side: Side) | Sending

  predicate Concerns(e: Readiness, pipe: Pipe) {
    match pipe
    case Reading(side) => e.Gives? && e.side == side
    case Sending => e.StdinTakes? || e.StdinBroken?
  }

  function Of(events: seq<Readiness>, pipe: Pipe): seq<Readiness>
    decreases |events|
  {
    if events == [] then [] else
      var e := events[|events| - 1];
      Of(events[..|events| - 1], pipe) + (if Concerns(e, pipe) then [e] else [])
  }

  lemma {:induction false} OwnEventsDecideReading(events: seq<Readiness>, side: Side, total: nat)
    ensures ReadFreely(events, side, total) == ReadFreely(Of(events, Reading(side)), side, total)
    decreases |events|
  {
    if events != [] {
      var before, e := events[..|events| - 1], events[|events| - 1];
      OwnEventsDecideReading(before, side, total);
      var own := Of(before, Reading(side));
      assert (own + [e])[..|own|] == own && own + [] == own;
    }
  }

  lemma {:induction false} OwnEventsDecideSending(events: seq<Readiness>, total: nat)
    ensures SendFreely(events, total) == SendFreely(Of(events, Sending), total)
    decreases |events|
  {
    if events != [] {
      var before, e := events[..|events| - 1], events[|events| - 1];
      OwnEventsDecideSending(before, total);
      var own := Of(before, Sending);
      assert (own + [e])[..|own|] == own && own + [] == own;
    }
  }

  /** The order in which the three pipes become ready does not change the outcome: only each pipe's
      own events in time do. */
  lemma ReadinessOrderDoesNotMatter(
    a: seq<Readiness>, b: seq<Readiness>, frame: nat, out: Bytes, err: Bytes, limit: nat, exits: Option<int>)
    requires forall pipe :: Of(a, pipe) == Of(b, pipe)
    ensures Settled(frame, out, err, limit, a, exits) == Settled(frame, out, err, limit, b, exits)
  {
    hide ReadFreely, SendFreely, Of;
    OwnEventsDecideReading(a, Out, |out|);
    OwnEventsDecideReading(b, Out, |out|);
    OwnEventsDecideReading(a, Err, |err|);
    OwnEventsDecideReading(b, Err, |err|);
    OwnEventsDecideSending(a, frame);
    OwnEventsDecideSending(b, frame);
  }

  /** Both ends and the request's end reached in time: exactly the limit decides. */
  lemma EndsReachedInTime(frame: nat, out: Bytes, err: Bytes, limit: nat, events: seq<Readiness>, rc: int)
    requires ReadFreely(events, Out, |out|).ended && ReadFreely(events, Err, |err|).ended
    requires SendFreely(events, frame).ended
    ensures Settled(frame, out, err, limit, events, Some(rc)) ==
            if |out| + |err| <= limit then Captured(rc, out, err) else LimitExceeded
  {
  }

  // ---------------------------------------------------------------- the loop

  /** Each pipe's progress after the first `i` events. */
  function ReadBy(schedule: seq<Readiness>, i: nat, side: Side, total: nat): (p: Progress)
    requires i <= |schedule|
    ensures p.got <= total && (p.ended ==> p.got == total)
  {
    ReadFreely(schedule[..i], side, total)
  }

  function SentBy(schedule: seq<Readiness>, i: nat, total: nat): (p: Progress)
    requires i <= |schedule|
    ensures p.got <= total && (p.got == total ==> p.ended)
  {
    SendFreely(schedule[..i], total)
  }

  /** One stream as the loop keeps it. */
  datatype Stream = Stream(all: Bytes, got: Bytes, open: bool)

  /** What is kept is a prefix of the stream, and all of it once the end is met. */
  ghost predicate Partial(s: Stream) { s.got <= s.all && (!s.open ==> s.got == s.all) }

  lemma ClosedIsWhole(s: Stream)
    requires Partial(s) && !s.open
    ensures s.got == s.all
  {
  }

  ghost predicate IsPrefix(a: Bytes, b: Bytes) { a <= b }

  lemma PrefixMeans(a: Bytes, b: Bytes)
    ensures IsPrefix([], b)
    ensures IsPrefix(a, b) ==> a <= b && a == b[..|a|]
  {
  }

  /** The loop is where the stream's own events up to here put it. */
  ghost predicate InStep(s: Stream, side: Side, schedule: seq<Readiness>, i: nat)
    requires i <= |schedule|
  {
    Partial(s) && ReadBy(schedule, i, side, |s.all|) == Reached(s)
  }

  /** `_exchange`, past the spawn: the child writes `out` and `err`, in whatever pieces and order
      `schedule` makes ready, and takes what it will of `frame`. A schedule that runs out is a child
      that does nothing more until the deadline; `exits` is its code if it is then reaped in time. */
  method Exchange(frame: Bytes, out: Bytes, err: Bytes, limit: nat, schedule: seq<Readiness>, exits: Option<int>)
    returns (result: Result, written: Bytes, taken: nat)
    ensures result == Settled(|frame|, out, err, limit, InTime(schedule), exits)
    ensures written <= frame && |written| <= SendFreely(InTime(schedule), |frame|).got
    ensures !result.LimitExceeded? ==> written == frame[..SendFreely(InTime(schedule), |frame|).got]
    ensures taken <= limit + 1 && (taken > limit <==> result.LimitExceeded?)
    ensures !result.LimitExceeded? ==>
              taken == ReadFreely(InTime(schedule), Out, |out|).got + ReadFreely(InTime(schedule), Err, |err|).got
  {
    hide ReadFreely, SendFreely, ReadBy, SentBy, InTime, Settled, Next, NextSent, NoneLate, Partial, IsPrefix;
    var stdout, stderr := Stream(out, [], true), Stream(err, [], true);
    var stdin := frame != [];
    var sent, received := 0, 0;
    written := [];
    var i := 0;
    assert Partial(stdout) && Partial(stderr) by { NothingKept(out); NothingKept(err); }
    NothingYet(schedule, |out|, |err|, |frame|);
    PrefixMeans(written, frame);
    while stdin || stdout.open || stderr.open
      invariant 0 <= i <= |schedule| && NoneLate(schedule, i)
      invariant stdout.all == out && InStep(stdout, Out, schedule, i)
      invariant stderr.all == err && InStep(stderr, Err, schedule, i)
      invariant received == |stdout.got| + |stderr.got| <= limit
      invariant sent <= |frame| && (stdin <==> sent < |frame|) && (stdin ==> |written| == sent)
      invariant IsPrefix(written, frame) && SentBy(schedule, i, |frame|) == Progress(|written|, !stdin)
      decreases |schedule| - i
    {
      if i == |schedule| || schedule[i].DeadlinePasses? {
        EndsUnfinished(frame, out, err, limit, schedule, i, exits);
        PrefixMeans(written, frame);
        return TimedOut, written, received;
      }
      var ready := schedule[i];
      OneMore(schedule, i, |out|, |err|, |frame|);
      if ready.Gives? {
        if ready.side.Out? {
          stdout, received := ReadOnce(stdout, Out, |stderr.got|, received, limit, ready.count);
        } else {
          stderr, received := ReadOnce(stderr, Err, |stdout.got|, received, limit, ready.count);
        }
        if received > limit {
          EndsOverLimit(frame, out, err, limit, schedule, i + 1, exits);
          PrefixMeans(written, frame);
          return LimitExceeded, written, received;
        }
      } else if stdin && !ready.Blocks? {
        sent, written := Send(frame, sent, written, ready);
        stdin := sent < |frame|;
      }
      i := i + 1;
    }
    PrefixMeans(written, frame);
    ClosedIsWhole(stdout);
    ClosedIsWhole(stderr);
    EndsWhole(frame, out, err, limit, schedule, i, exits);
    if exits.None? { return TimedOut, written, received; }
    return Captured(exits.value, stdout.got, stderr.got), written, received;
  }

  lemma EndsUnfinished(
    frame: Bytes, out: Bytes, err: Bytes, limit: nat, schedule: seq<Readiness>, i: nat, exits: Option<int>)
    requires i <= |schedule| && NoneLate(schedule, i)
    requires i == |schedule| || schedule[i].DeadlinePasses?
    ensures ReadFreely(InTime(schedule), Out, |out|) == ReadBy(schedule, i, Out, |out|)
    ensures ReadFreely(InTime(schedule), Err, |err|) == ReadBy(schedule, i, Err, |err|)
    ensures SendFreely(InTime(schedule), |frame|) == SentBy(schedule, i, |frame|)
    ensures var o, e := ReadBy(schedule, i, Out, |out|), ReadBy(schedule, i, Err, |err|);
            o.got + e.got <= limit && !(o.ended && e.ended && SentBy(schedule, i, |frame|).ended) ==>
              Settled(|frame|, out, err, limit, InTime(schedule), exits) == TimedOut
  {
    hide ReadFreely, SendFreely, InTime;
    InTimeIsPrefix(schedule, i);
  }

  lemma EndsOverLimit(
    frame: Bytes, out: Bytes, err: Bytes, limit: nat, schedule: seq<Readiness>, i: nat, exits: Option<int>)
    requires i <= |schedule| && NoneLate(schedule, i)
    requires ReadBy(schedule, i, Out, |out|).got + ReadBy(schedule, i, Err, |err|).got > limit
    ensures Settled(|frame|, out, err, limit, InTime(schedule), exits) == LimitExceeded
    ensures SentBy(schedule, i, |frame|).got <= SendFreely(InTime(schedule), |frame|).got
  {
    hide ReadFreely, SendFreely, InTime;
    InTimeIsPrefix(schedule, i);
    AddsUpTo(InTime(schedule), i, |out|, |err|, |frame|);
  }

  lemma EndsWhole(
    frame: Bytes, out: Bytes, err: Bytes, limit: nat, schedule: seq<Readiness>, i: nat, exits: Option<int>)
    requires i <= |schedule| && NoneLate(schedule, i)
    requires ReadBy(schedule, i, Out, |out|).ended && ReadBy(schedule, i, Err, |err|).ended
    requires SentBy(schedule, i, |frame|).ended && |out| + |err| <= limit
    ensures Settled(|frame|, out, err, limit, InTime(schedule), exits) ==
            if exits.None? then TimedOut else Captured(exits.value, out, err)
    ensures SendFreely(InTime(schedule), |frame|) == SentBy(schedule, i, |frame|)
    ensures ReadFreely(InTime(schedule), Out, |out|).got == |out|
    ensures ReadFreely(InTime(schedule), Err, |err|).got == |err|
  {
    hide ReadFreely, SendFreely, InTime;
    InTimeIsPrefix(schedule, i);
    AddsUpTo(InTime(schedule), i, |out|, |err|, |frame|);
  }

  lemma NothingKept(all: Bytes)
    ensures Partial(Stream(all, [], true))
  {
  }

  lemma NothingYet(schedule: seq<Readiness>, out: nat, err: nat, frame: nat)
    ensures ReadBy(schedule, 0, Out, out) == ReadBy(schedule, 0, Err, err) == Progress(0, false)
    ensures NoneLate(schedule, 0) && SentBy(schedule, 0, frame) == Progress(0, frame == 0)
  {
    assert schedule[..0] == [];
  }

  /** What the next event does to each pipe: nothing, unless it is the pipe's own and it is open. */
  lemma OneMore(schedule: seq<Readiness>, i: nat, out: nat, err: nat, frame: nat)
    requires i < |schedule|
    ensures NoneLate(schedule, i) && !schedule[i].DeadlinePasses? ==> NoneLate(schedule, i + 1)
    ensures ReadBy(schedule, i + 1, Out, out) == Next(ReadBy(schedule, i, Out, out), schedule[i], Out, out)
    ensures ReadBy(schedule, i + 1, Err, err) == Next(ReadBy(schedule, i, Err, err), schedule[i], Err, err)
    ensures SentBy(schedule, i + 1, frame) == NextSent(SentBy(schedule, i, frame), schedule[i], frame)
    ensures !(schedule[i].Gives? && schedule[i].side.Out?) ==>
              ReadBy(schedule, i + 1, Out, out) == ReadBy(schedule, i, Out, out)
    ensures !(schedule[i].Gives? && schedule[i].side.Err?) ==>
              ReadBy(schedule, i + 1, Err, err) == ReadBy(schedule, i, Err, err)
    ensures schedule[i].Gives? || schedule[i].Blocks? ==> SentBy(schedule, i + 1, frame) == SentBy(schedule, i, frame)
  {
    assert schedule[..i + 1][..i] == schedule[..i];
  }

  lemma AddsUpTo(events: seq<Readiness>, i: nat, out: nat, err: nat, frame: nat)
    requires i <= |events|
    ensures var a, b := ReadFreely(events[..i], Out, out), ReadFreely(events, Out, out);
            a.got <= b.got && (a.ended ==> b == a)
    ensures var a, b := ReadFreely(events[..i], Err, err), ReadFreely(events, Err, err);
            a.got <= b.got && (a.ended ==> b == a)
    ensures var a, b := SendFreely(events[..i], frame), SendFreely(events, frame);
            a.got <= b.got && (a.ended ==> b == a)
  {
    MoreOnlyAdds(events, i, Out, out, frame);
    MoreOnlyAdds(events, i, Err, err, frame);
  }

  function Reached(s: Stream): Progress { Progress(|s.got|, !s.open) }

  /** One read of a ready stream, none of a stream already at its end: its end closes it; bytes past the
      limit end the exchange and are not kept. `elsewhere` is what the other stream has given. */
  method ReadOnce(s: Stream, side: Side, elsewhere: nat, received: nat, limit: nat, count: nat)
    returns (r: Stream, total: nat)
    requires Partial(s) && received == |s.got| + elsewhere <= limit
    ensures received <= total <= limit + 1
    ensures total > limit <==> Next(Reached(s), Gives(side, count), side, |s.all|).got + elsewhere > limit
    ensures total > limit ==> r == s
    ensures total <= limit ==> Reached(r) == Next(Reached(s), Gives(side, count), side, |s.all|)
    ensures total <= limit ==> total == |r.got| + elsewhere && r.all == s.all && Partial(r)
  {
    if !s.open { return s, received; }
    var n := Taken(|s.all| - |s.got|, Min(CHUNK, limit - received + 1), count);
    if n == 0 { return s.(open := false), received; }
    total := received + n;
    if total > limit { return s, total; }
    r := s.(got := s.got + s.all[|s.got|..|s.got| + n]);
  }

  /** `_send`: what the child takes of the next chunk; a broken pipe leaves nothing to send. */
  method Send(frame: Bytes, sent: nat, written: Bytes, ready: Readiness) returns (sent': nat, written': Bytes)
    requires ready.StdinTakes? || ready.StdinBlocks? || ready.StdinBroken?
    requires sent < |frame| && IsPrefix(written, frame) && |written| == sent
    ensures sent <= sent' <= |frame| && IsPrefix(written', frame)
    ensures Progress(|written'|, sent' == |frame|) == NextSent(Progress(sent, false), ready, |frame|)
    ensures sent' < |frame| ==> |written'| == sent'
  {
    match ready
    case StdinTakes(count) =>
      var n := Min(count, Min(CHUNK, |frame| - sent));
      return sent + n, written + frame[sent..sent + n];
    case StdinBroken => return |frame|, written;
    case StdinBlocks => return sent, written;
  }
}
