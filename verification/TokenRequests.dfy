/** What one request or eviction does in any interleaving (`defender/credential_proxy/_credentials.py`),
    read off its own steps: it waits at its gate, checks what is held, and exchanges once at most; what
    an exchange is said to have issued was answered to it, and asked for when the clock said so. */
module TokenRequests {
  import opened Options
  import opened AccessTokens

  /** What the clock reads after `run`. */
  function Clock(start: real, run: seq<Action>): real
    decreases |run|
  {
    if run == [] then start
    else if run[|run| - 1].Tick? then run[|run| - 1].now
    else Clock(start, run[..|run| - 1])
  }

  /** A step of a thread, the `index`-th of the run. */
  datatype Step = Step(a: Action, index: nat)

  predicate Acts(a: Action, t: Thread) { !a.Tick? && a.t == t }

  /** The steps of the request or eviction `t` was last given. */
  function Own(run: seq<Action>, t: Thread): seq<Step>
    decreases |run|
  {
    if run == [] then [] else
      var last := |run| - 1;
      var a := run[last];
      if !Acts(a, t) then Own(run[..last], t)
      else if a.Request? || a.Evict? then [Step(a, last)]
      else Own(run[..last], t) + [Step(a, last)]
  }

  /** Past its gate, having found what is held of no use. */
  predicate FoundNothing(own: seq<Step>, ask: Ask, n: nat) {
    && |own| == n >= 3 && own[0].a.Request? && own[0].a.ask == ask && own[1].a.Acquire? && own[2].a.Check?
  }

  predicate Began(own: seq<Step>, start: real, run: seq<Action>, ask: Ask, askedAt: real, n: nat) {
    && FoundNothing(own, ask, n) && n >= 4 && own[3].a.Begin?
    && own[3].index <= |run| && Clock(start, run[..own[3].index]) == askedAt
  }

  predicate Answered(own: seq<Step>, start: real, run: seq<Action>, issue: Issue, n: nat) {
    && Began(own, start, run, issue.ask, issue.askedAt, n) && n >= 5
    && own[4].a.Answer? && own[4].a.token == issue.token && own[4].a.lifetime == issue.lifetime
  }

  /** How a request may end past its gate: served what is held; its exchange failed; served what its
      exchange issued. */
  predicate RequestEnds(own: seq<Step>, key: Key) {
    && |own| >= 3 && own[0].a.Request? && own[0].a.ask.key == key && own[1].a.Acquire? && own[2].a.Check?
    && (|| |own| == 3
        || (|own| == 5 && own[3].a.Begin? && own[4].a.Fail?)
        || (|own| == 6 && own[3].a.Begin? && own[4].a.Answer? && own[5].a.Store?))
  }

  predicate EvictionEnds(own: seq<Step>, key: Key) {
    |own| == 3 && own[0].a.Evict? && own[0].a.key == key && own[1].a.Acquire? && own[2].a.Drop?
  }

  /** Nothing asked yet, or the last thing asked is over: given up at its gate, or its gate released. */
  predicate Over(own: seq<Step>) {
    || own == []
    || (|own| == 2 && own[0].a.Request? && own[1].a.GiveUp?)
    || (|own| >= 4 && own[|own| - 1].a.Release?
        && ((own[0].a.Request? && RequestEnds(own[..|own| - 1], own[0].a.ask.key))
            || (own[0].a.Evict? && EvictionEnds(own[..|own| - 1], own[0].a.key))))
  }

  predicate Matches(pc: Pc, start: real, run: seq<Action>, own: seq<Step>) {
    match pc
    case Idle => Over(own)
    case Waiting(ask, _) => |own| == 1 && own[0].a.Request? && own[0].a.ask == ask
    case Checking(ask, _) => |own| == 2 && own[0].a.Request? && own[0].a.ask == ask && own[1].a.Acquire?
    case Asking(ask, _) => FoundNothing(own, ask, 3)
    case Exchanging(ask, _, askedAt) => Began(own, start, run, ask, askedAt, 4)
    case Storing(ask, _, askedAt, token, lifetime) =>
      Answered(own, start, run, Issue(ask, token, askedAt, lifetime), 5)
    case EvictWaiting(key, _, token) => |own| == 1 && own[0].a.Evict? && own[0].a.key == key && own[0].a.token == token
    case Evicting(key, _, token) =>
      |own| == 2 && own[0].a.Evict? && own[0].a.key == key && own[0].a.token == token && own[1].a.Acquire?
    case Leaving(key, _) => RequestEnds(own, key) || EvictionEnds(own, key)
  }

  lemma OwnStepMatches(start: real, s: State, a: Action, run: seq<Action>, own: seq<Step>)
    requires Enabled(s, a) && !a.Tick? && Clock(start, run) == s.now && Matches(PcOf(s, a.t), start, run, own)
    ensures var more := if a.Request? || a.Evict? then [Step(a, |run|)] else own + [Step(a, |run|)];
            Matches(PcOf(Apply(s, a), a.t), start, run + [a], more)
  {
    hide Clock;
    assert forall k :: 0 <= k <= |run| ==> (run + [a])[..k] == run[..k];
    assert run[..|run|] == run;
    assert (own + [Step(a, |run|)])[..|own|] == own;
  }

  lemma StillMatches(start: real, pc: Pc, run: seq<Action>, a: Action, own: seq<Step>)
    requires Matches(pc, start, run, own)
    ensures Matches(pc, start, run + [a], own)
  {
    hide Clock;
    assert forall k :: 0 <= k <= |run| ==> (run + [a])[..k] == run[..k];
  }

  lemma {:induction false} RunSplits(s: State, run: seq<Action>)
    requires Run(s, run).Some? && run != []
    ensures var before := Run(s, run[..|run| - 1]);
            && before.Some? && Enabled(before.value, run[|run| - 1])
            && Run(s, run).value == Apply(before.value, run[|run| - 1])
    decreases |run|
  {
    hide Apply, Enabled;
    if |run| > 1 {
      RunSplits(Apply(s, run[0]), run[1..]);
      assert run[1..][..|run| - 2] == run[..|run| - 1][1..];
    }
  }

  lemma OthersStandStill(s: State, a: Action, t: Thread)
    requires Enabled(s, a) && !Acts(a, t)
    ensures PcOf(Apply(s, a), t) == PcOf(s, t)
  {
  }

  lemma ClockMoves(s: State, a: Action)
    requires Enabled(s, a)
    ensures Apply(s, a).now == if a.Tick? then a.now else s.now
  {
  }

  /** In every interleaving, where a thread stands is what its own steps say, and the clock reads what it
      was last told. */
  lemma {:induction false} StandsWhereItsStepsSay(start: real, run: seq<Action>, s: State, t: Thread)
    requires Reaches(start, run, s)
    ensures Matches(PcOf(s, t), start, run, Own(run, t)) && s.now == Clock(start, run)
    decreases |run|
  {
    hide Apply, Enabled, Matches;
    if run == [] {
      NothingAsked(start, t);
    } else {
      RunSplits(Start(start), run);
      var last := |run| - 1;
      var a, before := run[last], Run(Start(start), run[..last]).value;
      StandsWhereItsStepsSay(start, run[..last], before, t);
      ClockMoves(before, a);
      assert run == run[..last] + [a];
      if Acts(a, t) {
        OwnStepMatches(start, before, a, run[..last], Own(run[..last], t));
      } else {
        OthersStandStill(before, a, t);
        StillMatches(start, PcOf(before, t), run[..last], a, Own(run[..last], t));
      }
    }
  }

  lemma NothingAsked(start: real, t: Thread)
    ensures Matches(PcOf(Start(start), t), start, [], []) && Start(start).now == Clock(start, [])
  {
  }

  // ---------------------------------------------------------------- the promises

  /** A thread back at rest has done what it was asked, one step after another: given up at its gate; been
      served what was held; exchanged once, and failed or been served what was issued; or evicted. */
  lemma RequestGoesItsWay(start: real, run: seq<Action>, s: State, t: Thread)
    requires Reaches(start, run, s) && PcOf(s, t).Idle?
    ensures Over(Own(run, t))
  {
    StandsWhereItsStepsSay(start, run, s, t);
  }

  /** What an eviction drops is what it was asked to, in the key it was asked to. */
  lemma EvictionDropsWhatItWasAsked(start: real, run: seq<Action>, s: State, t: Thread)
    requires Reaches(start, run, s) && Enabled(s, Drop(t))
    ensures var own, held := Own(run, t), Apply(s, Drop(t)).held;
            && own != [] && own[0].a.Evict?
            && (var key, token := own[0].a.key, own[0].a.token;
                && (HoldsText(s, key, token) ==> held == s.held - {key})
                && (!HoldsText(s, key, token) ==> held == s.held))
  {
    StandsWhereItsStepsSay(start, run, s, t);
  }

  /** An exchange the run holds, from its request to its answer. */
  ghost predicate Exchanged(start: real, run: seq<Action>, i: Issue) {
    exists t, m: nat, k: nat, j: nat :: ExchangeAt(start, run, i, t, m, k, j)
  }

  predicate ExchangeAt(start: real, run: seq<Action>, i: Issue, t: Thread, m: nat, k: nat, j: nat) {
    && m < k < j < |run| && run[m].Request? && run[m].t == t && run[m].ask == i.ask
    && run[k] == Begin(t) && Clock(start, run[..k]) == i.askedAt
    && run[j] == Answer(t, i.token, i.lifetime)
  }

  lemma {:induction false} OwnStepsAreOfTheRun(run: seq<Action>, t: Thread)
    ensures forall i :: 0 <= i < |Own(run, t)| ==>
              Own(run, t)[i].index < |run| && run[Own(run, t)[i].index] == Own(run, t)[i].a && Acts(Own(run, t)[i].a, t)
    ensures forall i, j :: 0 <= i < j < |Own(run, t)| ==> Own(run, t)[i].index < Own(run, t)[j].index
    decreases |run|
  {
    if run != [] { OwnStepsAreOfTheRun(run[..|run| - 1], t); }
  }

  lemma ExchangeStays(start: real, run: seq<Action>, a: Action, i: Issue)
    requires Exchanged(start, run, i)
    ensures Exchanged(start, run + [a], i)
  {
    var t, m: nat, k: nat, j: nat :| ExchangeAt(start, run, i, t, m, k, j);
    assert (run + [a])[..k] == run[..k];
    assert ExchangeAt(start, run + [a], i, t, m, k, j);
  }

  /** Whatever is said to have been issued was answered to an exchange of the run, asked for by a request
      of exactly that ask, and begun when the clock read the moment its life is counted from. */
  lemma {:induction false} IssuesAreExchanges(start: real, run: seq<Action>, s: State, i: Issue)
    requires Reaches(start, run, s) && i in s.issued
    ensures Exchanged(start, run, i)
    decreases |run|
  {
    hide Apply, Enabled;
    if run == [] { NothingIssued(start, i); }
    RunSplits(Start(start), run);
    var last := |run| - 1;
    var a, before := run[last], Run(Start(start), run[..last]).value;
    assert run == run[..last] + [a];
    if i in before.issued {
      IssuesAreExchanges(start, run[..last], before, i);
      ExchangeStays(start, run[..last], a, i);
    } else {
      AnswerIssues(before, a, i);
      AnswerIsOfItsExchange(start, run[..last], before, a, i);
    }
  }

  lemma NothingIssued(start: real, i: Issue)
    ensures i !in Start(start).issued
  {
  }

  lemma AnswerIssues(s: State, a: Action, i: Issue)
    requires Enabled(s, a) && i in Apply(s, a).issued && i !in s.issued
    ensures a.Answer? && PcOf(s, a.t).Exchanging?
    ensures i == Issue(PcOf(s, a.t).ask, a.token, PcOf(s, a.t).askedAt, a.lifetime)
  {
  }

  lemma AnswerIsOfItsExchange(start: real, run: seq<Action>, s: State, a: Action, i: Issue)
    requires Reaches(start, run, s) && a.Answer? && PcOf(s, a.t).Exchanging?
    requires i == Issue(PcOf(s, a.t).ask, a.token, PcOf(s, a.t).askedAt, a.lifetime)
    ensures Exchanged(start, run + [a], i)
  {
    hide Run;
    StandsWhereItsStepsSay(start, run, s, a.t);
    OwnStepsAreOfTheRun(run, a.t);
    var own, more := Own(run, a.t), run + [a];
    var m, k := own[0].index, own[3].index;
    assert more[..k] == run[..k] && more[m] == run[m] && more[k] == run[k];
    assert ExchangeAt(start, more, i, a.t, m, k, |run|);
  }

  /** A reused token was served before its asked-at plus its lifetime less the margin, all of it told of
      the run's own steps: the exchange that was answered it and when that began. */
  lemma ReusedWithinItsLife(start: real, run: seq<Action>, s: State, n: nat) returns (i: Issue)
    requires Reaches(start, run, s) && n < |s.served| && s.served[n].reused
    ensures Exchanged(start, run, i) && i.ask == s.served[n].ask && i.token == s.served[n].token
    ensures i.lifetime.Some? && s.served[n].at < i.askedAt + i.lifetime.value as real - REFRESH_MARGIN_SEC as real
  {
    i := ServedTokensAreTheAskersOwn(start, run, s, n);
    IssuesAreExchanges(start, run, s, i);
  }

  // ---------------------------------------------------------------- nothing stands in a request's way

  /** A waiting request may give up, and is then at rest, its gate and what is held untouched. */
  lemma WaiterMayGiveUp(s: State, t: Thread)
    requires PcOf(s, t).Waiting?
    ensures Enabled(s, GiveUp(t))
    ensures var after := Apply(s, GiveUp(t));
            PcOf(after, t).Idle? && after.owner == s.owner && after.held == s.held && after.served == s.served
  {
  }

  lemma Then(s: State, a: Action, rest: seq<Action>)
    requires Enabled(s, a) && Run(Apply(s, a), rest).Some?
    ensures Run(s, [a] + rest) == Run(Apply(s, a), rest)
  {
    hide Apply, Enabled;
    assert ([a] + rest)[1..] == rest;
  }

  lemma NoSteps(s: State)
    ensures Run(s, []) == Some(s)
  {
  }

  /** A thread past its gate with nothing to reuse can be served whatever its exchange issues, and leaves
      its gate. */
  lemma AskerCanBeServed(s: State, t: Thread, token: string, lifetime: Option<nat>) returns (run: seq<Action>)
    requires PcOf(s, t).Asking?
    ensures Run(s, run).Some?
    ensures var after := Run(s, run).value; var ask := PcOf(s, t).ask;
            && PcOf(after, t).Idle? && after.owner == s.owner - {PcOf(s, t).gate}
            && after.served == s.served + [Serve(ask, token, s.now, false)]
  {
    hide Run;
    var begun := Apply(s, Begin(t));
    var answered := Apply(begun, Answer(t, token, lifetime));
    var stored := Apply(answered, Store(t));
    var done := Apply(stored, Release(t));
    NoSteps(done);
    Then(stored, Release(t), []);
    Then(answered, Store(t), [Release(t)] + []);
    Then(begun, Answer(t, token, lifetime), [Store(t)] + ([Release(t)] + []));
    run := [Begin(t)] + ([Answer(t, token, lifetime)] + ([Store(t)] + ([Release(t)] + [])));
    Then(s, Begin(t), [Answer(t, token, lifetime)] + ([Store(t)] + ([Release(t)] + [])));
  }

  /** A request at a free gate with nothing held for it can be served what its exchange issues, any text
      with any lifetime or none. */
  lemma RequestCanBeServed(s: State, t: Thread, ask: Ask, gate: Gate, token: string, lifetime: Option<nat>)
    returns (run: seq<Action>)
    requires PcOf(s, t).Idle? && ask.key !in s.held && (ask.key in s.gates || gate !in s.gates.Values)
    requires GateFor(s, ask.key, gate) !in s.owner
    ensures Run(s, run).Some?
    ensures var after := Run(s, run).value;
            && PcOf(after, t).Idle? && after.owner == s.owner
            && after.served == s.served + [Serve(ask, token, s.now, false)]
  {
    hide Run;
    var waiting := Apply(s, Request(t, ask, gate));
    var past := Apply(waiting, Acquire(t));
    var asking := Apply(past, Check(t));
    var rest := AskerCanBeServed(asking, t, token, lifetime);
    Then(past, Check(t), rest);
    Then(waiting, Acquire(t), [Check(t)] + rest);
    run := [Request(t, ask, gate)] + ([Acquire(t)] + ([Check(t)] + rest));
    Then(s, Request(t, ask, gate), [Acquire(t)] + ([Check(t)] + rest));
    var g := GateFor(s, ask.key, gate);
    assert s.owner[g := t] - {g} == s.owner;
  }

  /** The endpoint may answer any exchange with any token and lifetime, or fail it; time may pass; a thread
      at rest may be asked for any token or to evict any. */
  lemma AnythingMayBeAnswered(s: State, t: Thread, token: string, lifetime: Option<nat>, later: real)
    ensures PcOf(s, t).Exchanging? ==> Enabled(s, Answer(t, token, lifetime)) && Enabled(s, Fail(t))
    ensures s.now <= later ==> Enabled(s, Tick(later))
    ensures PcOf(s, t).Idle? ==> forall ask: Ask, gate: Gate ::
              ask.key in s.gates || gate !in s.gates.Values ==>
                Enabled(s, Request(t, ask, gate)) && Enabled(s, Evict(t, ask.key, token, gate))
  {
  }
}
