/** OAuth access tokens held per (tenant, system) behind per-key gates
    (`defender/credential_proxy/_credentials.py`).

    Requests and evictions run on threads. Each step below is one the code makes between two
    points where another thread may run; a run is any interleaving of steps, with the clock and
    the token endpoint free to do anything. */
module AccessTokens {
  import opened Options

  const REFRESH_MARGIN_SEC: nat := 30

  // ---------------------------------------------------------------- stated lifetimes

  /** What a token endpoint may send as `expires_in`. */
  datatype Stated = Text(text: string) | Whole(n: int) | Truth(b: bool) | Missing

  predicate AllDigits(s: string) {
    s != "" && forall i :: 0 <= i < |s| ==> '0' <= s[i] <= '9'
  }

  function DecimalValue(s: string): nat
    requires forall i :: 0 <= i < |s| ==> '0' <= s[i] <= '9'
  {
    if s == "" then 0 else 10 * DecimalValue(s[..|s| - 1]) + (s[|s| - 1] as int - '0' as int)
  }

  /** `_lifetime`: a whole number of seconds or its decimal text; anything else states none. */
  function Lifetime(stated: Stated): Option<nat> {
    match stated
    case Text(s) => if AllDigits(s) then Some(DecimalValue(s)) else None
    case Whole(n) => if n >= 0 then Some(n) else None
    case Truth(_) => None
    case Missing => None
  }

  function Decimal(n: nat): (s: string)
    ensures AllDigits(s)
  {
    var digit := ['0' + (n % 10) as char];
    if n < 10 then digit else Decimal(n / 10) + digit
  }

  /** A lifetime reads the same as a number and as its decimal text, as section 5.1 of RFC 6749
      and the providers that quote it have it. */
  lemma {:induction false} LifetimeReadsBothSpellings(n: nat)
    ensures Lifetime(Text(Decimal(n))) == Lifetime(Whole(n)) == Some(n)
  {
    var s := Decimal(n);
    if n >= 10 {
      LifetimeReadsBothSpellings(n / 10);
      assert s[..|s| - 1] == Decimal(n / 10);
    } else {
      assert n % 10 == n && s[..|s| - 1] == "";
      assert DecimalValue(s) == 10 * DecimalValue("") + n;
    }
  }

  /** Nothing else states one: no truth value, no negative number, no text with anything but digits. */
  lemma LifetimeIsStatedExactlyBy(stated: Stated)
    ensures Lifetime(stated).Some? <==>
            || (stated.Whole? && stated.n >= 0)
            || (stated.Text? && stated.text != ""
                && forall i :: 0 <= i < |stated.text| ==> stated.text[i] in "0123456789")
    ensures stated.Whole? && stated.n >= 0 ==> Lifetime(stated) == Some(stated.n)
  {
    if stated.Text? {
      forall i | 0 <= i < |stated.text|
        ensures '0' <= stated.text[i] <= '9' <==> stated.text[i] in "0123456789"
      {
        DigitsAre(stated.text[i]);
      }
    }
  }

  lemma DigitsAre(c: char)
    ensures '0' <= c <= '9' <==> c in "0123456789"
  {
    assert "0123456789" == ['0', '1', '2', '3', '4', '5', '6', '7', '8', '9'];
    if '0' <= c <= '9' { assert "0123456789"[c as int - '0' as int] == c; }
  }

  // ---------------------------------------------------------------- the state

  datatype Key = Key(tenant: string, system: string)

  /** What a request needs a token for. */
  datatype Ask = Ask(key: Key, version: int, digest: string)

  datatype Held = Held(version: int, digest: string, token: string, goodUntil: real)

  /** One answered exchange. */
  datatype Issue = Issue(ask: Ask, token: string, askedAt: real, lifetime: Option<nat>)

  /** One token handed to a request; `at` is when the clock was last read for it. */
  datatype Serve = Serve(ask: Ask, token: string, at: real, reused: bool)

  type Thread = nat
  type Gate = nat

  datatype Pc =
    | Idle
    | Waiting(ask: Ask, gate: Gate)
    | Checking(ask: Ask, gate: Gate)
    | Asking(ask: Ask, gate: Gate)
    | Exchanging(ask: Ask, gate: Gate, askedAt: real)
    | Storing(ask: Ask, gate: Gate, askedAt: real, token: string, lifetime: Option<nat>)
    | EvictWaiting(key: Key, gate: Gate, token: string)
    | Evicting(key: Key, gate: Gate, token: string)
    | Leaving(key: Key, gate: Gate)

  /** `gates` and `held` are the object's two dictionaries; `owner` says who holds each gate;
      `issued` and `served` record what the endpoint and the object have done. */
  datatype State = State(
    now: real,
    pcs: map<Thread, Pc>,
    gates: map<Key, Gate>,
    owner: map<Gate, Thread>,
    held: map<Key, Held>,
    issued: set<Issue>,
    served: seq<Serve>)

  function PcOf(s: State, t: Thread): Pc {
    if t in s.pcs then s.pcs[t] else Idle
  }

  function Start(now: real): State {
    State(now, map[], map[], map[], map[], {}, [])
  }

  // ---------------------------------------------------------------- the steps

  datatype Action =
    | Tick(now: real)                                      // time passes
    | Request(t: Thread, ask: Ask, unused: Gate)            // `token`: look the gate up
    | Evict(t: Thread, key: Key, token: string, unused: Gate)
    | Acquire(t: Thread)
    | GiveUp(t: Thread)                                    // the deadline passed at the gate
    | Check(t: Thread)                                     // read the entry and the clock
    | Begin(t: Thread)                                     // read the clock, send the exchange
    | Answer(t: Thread, token: string, lifetime: Option<nat>)
    | Fail(t: Thread)
    | Store(t: Thread)
    | Drop(t: Thread)                                      // `evict`'s body
    | Release(t: Thread)

  /** The gate of a key: the one it has, else `unused`, one no other key has. */
  function GateFor(s: State, key: Key, unused: Gate): Gate {
    if key in s.gates then s.gates[key] else unused
  }

  predicate Reusable(s: State, ask: Ask) {
    && ask.key in s.held
    && s.held[ask.key].version == ask.version && s.held[ask.key].digest == ask.digest
    && s.now < s.held[ask.key].goodUntil
  }

  predicate LongEnough(lifetime: Option<nat>) {
    lifetime.Some? && lifetime.value > REFRESH_MARGIN_SEC
  }

  function GoodUntil(askedAt: real, lifetime: nat): real {
    askedAt + lifetime as real - REFRESH_MARGIN_SEC as real
  }

  predicate Enabled(s: State, a: Action) {
    match a
    case Tick(now) => s.now <= now
    case Request(t, ask, unused) => PcOf(s, t).Idle? && (ask.key in s.gates || unused !in s.gates.Values)
    case Evict(t, key, _, unused) => PcOf(s, t).Idle? && (key in s.gates || unused !in s.gates.Values)
    case Acquire(t) =>
      (PcOf(s, t).Waiting? || PcOf(s, t).EvictWaiting?) && PcOf(s, t).gate !in s.owner
    case GiveUp(t) => PcOf(s, t).Waiting?
    case Check(t) => PcOf(s, t).Checking?
    case Begin(t) => PcOf(s, t).Asking?
    case Answer(t, _, _) => PcOf(s, t).Exchanging?
    case Fail(t) => PcOf(s, t).Exchanging?
    case Store(t) => PcOf(s, t).Storing?
    case Drop(t) => PcOf(s, t).Evicting?
    case Release(t) => PcOf(s, t).Leaving?
  }

  function Moved(s: State, t: Thread, pc: Pc): State {
    s.(pcs := s.pcs[t := pc])
  }

  function Apply(s: State, a: Action): State
    requires Enabled(s, a)
  {
    match a
    case Tick(now) => s.(now := now)
    case Request(t, ask, unused) =>
      var gate := GateFor(s, ask.key, unused);
      Moved(s, t, Waiting(ask, gate)).(gates := s.gates[ask.key := gate])
    case Evict(t, key, token, unused) =>
      var gate := GateFor(s, key, unused);
      Moved(s, t, EvictWaiting(key, gate, token)).(gates := s.gates[key := gate])
    case Acquire(t) =>
      var pc := PcOf(s, t);
      Moved(s, t, if pc.Waiting? then Checking(pc.ask, pc.gate) else Evicting(pc.key, pc.gate, pc.token))
        .(owner := s.owner[pc.gate := t])
    case GiveUp(t) => Moved(s, t, Idle)
    case Check(t) =>
      var pc := PcOf(s, t);
      if Reusable(s, pc.ask) then
        Moved(s, t, Leaving(pc.ask.key, pc.gate))
          .(served := s.served + [Serve(pc.ask, s.held[pc.ask.key].token, s.now, true)])
      else Moved(s, t, Asking(pc.ask, pc.gate)).(held := s.held - {pc.ask.key})
    case Begin(t) =>
      var pc := PcOf(s, t);
      Moved(s, t, Exchanging(pc.ask, pc.gate, s.now))
    case Answer(t, token, lifetime) =>
      var pc := PcOf(s, t);
      Moved(s, t, Storing(pc.ask, pc.gate, pc.askedAt, token, lifetime))
        .(issued := s.issued + {Issue(pc.ask, token, pc.askedAt, lifetime)})
    case Fail(t) => Moved(s, t, Leaving(PcOf(s, t).ask.key, PcOf(s, t).gate))
    case Store(t) =>
      var pc := PcOf(s, t);
      Moved(s, t, Leaving(pc.ask.key, pc.gate))
        .(served := s.served + [Serve(pc.ask, pc.token, s.now, false)],
          held := if LongEnough(pc.lifetime)
                  then s.held[pc.ask.key := Held(pc.ask.version, pc.ask.digest, pc.token,
                                                 GoodUntil(pc.askedAt, pc.lifetime.value))]
                  else s.held)
    case Drop(t) =>
      var pc := PcOf(s, t);
      Moved(s, t, Leaving(pc.key, pc.gate))
        .(held := if pc.key in s.held && s.held[pc.key].token == pc.token then s.held - {pc.key} else s.held)
    case Release(t) => Moved(s, t, Idle).(owner := s.owner - {PcOf(s, t).gate})
  }

  /** Where a run leads; `None` when one of its steps could not be taken. */
  function Run(s: State, run: seq<Action>): Option<State>
    decreases |run|
  {
    if run == [] then Some(s)
    else if !Enabled(s, run[0]) then None
    else Run(Apply(s, run[0]), run[1..])
  }

  /** `s` is where the steps `run` lead from an empty cache at time `start`. */
  ghost predicate Reaches(start: real, run: seq<Action>, s: State) {
    Run(Start(start), run) == Some(s)
  }

  // ---------------------------------------------------------------- what every step keeps

  function KeyOf(pc: Pc): Key
    requires !pc.Idle?
  {
    if pc.EvictWaiting? || pc.Evicting? || pc.Leaving? then pc.key else pc.ask.key
  }

  predicate Inside(pc: Pc) {
    !pc.Idle? && !pc.Waiting? && !pc.EvictWaiting?
  }

  /** From the entry's removal to the end of its exchange. */
  predicate Fetching(pc: Pc) {
    pc.Asking? || pc.Exchanging? || pc.Storing?
  }

  predicate PastGate(s: State, t: Thread, g: Gate) { t in s.pcs && Inside(s.pcs[t]) && s.pcs[t].gate == g }

  /** One gate a key; the thread past a gate is the gate's owner, and a gate's owner is past it. */
  ghost predicate GatesHold(s: State) {
    && (forall k, l :: k in s.gates && l in s.gates && s.gates[k] == s.gates[l] ==> k == l)
    && (forall t :: t in s.pcs && !s.pcs[t].Idle? ==>
          KeyOf(s.pcs[t]) in s.gates && s.gates[KeyOf(s.pcs[t])] == s.pcs[t].gate)
    && (forall t :: t in s.pcs && Inside(s.pcs[t]) ==> s.pcs[t].gate in s.owner && s.owner[s.pcs[t].gate] == t)
    && (forall g :: g in s.owner ==> PastGate(s, s.owner[g], g))
  }

  ghost predicate BackedBy(key: Key, h: Held, i: Issue) {
    && i.ask == Ask(key, h.version, h.digest) && i.token == h.token
    && LongEnough(i.lifetime) && h.goodUntil == GoodUntil(i.askedAt, i.lifetime.value)
  }

  ghost predicate Backed(issued: set<Issue>, key: Key, h: Held) {
    exists i :: i in issued && BackedBy(key, h, i)
  }

  /** A served token was issued for exactly what was asked, and a reused one was still good. */
  ghost predicate JustifiedBy(v: Serve, i: Issue) {
    && i.ask == v.ask && i.token == v.token
    && (v.reused ==> LongEnough(i.lifetime) && v.at < GoodUntil(i.askedAt, i.lifetime.value))
  }

  ghost predicate Justified(issued: set<Issue>, v: Serve) {
    exists i :: i in issued && JustifiedBy(v, i)
  }

  ghost predicate TokensHold(s: State) {
    && (forall k :: k in s.held ==> Backed(s.issued, k, s.held[k]))
    && (forall t :: t in s.pcs && s.pcs[t].Storing? ==>
          Issue(s.pcs[t].ask, s.pcs[t].token, s.pcs[t].askedAt, s.pcs[t].lifetime) in s.issued)
    && (forall n :: 0 <= n < |s.served| ==> Justified(s.issued, s.served[n]))
    && (forall t :: t in s.pcs && Fetching(s.pcs[t]) ==> s.pcs[t].ask.key !in s.held)
  }

  /** A step that keeps a thread at its key and gate, or sends it home from outside. */
  lemma GatesKeptByMove(s: State, t: Thread, pc: Pc, after: State)
    requires GatesHold(s) && t in s.pcs && !s.pcs[t].Idle?
    requires after.pcs == s.pcs[t := pc] && after.gates == s.gates && after.owner == s.owner
    requires pc.Idle? || (KeyOf(pc) == KeyOf(s.pcs[t]) && pc.gate == s.pcs[t].gate)
    requires (Inside(pc) <==> Inside(s.pcs[t])) && (pc.Idle? ==> !Inside(pc))
    ensures GatesHold(after)
  {
    hide Inside, KeyOf;
  }

  lemma GatesKeptByAcquire(s: State, t: Thread)
    requires GatesHold(s) && Enabled(s, Acquire(t))
    ensures GatesHold(Apply(s, Acquire(t)))
  {
  }

  lemma GatesKeptByRelease(s: State, t: Thread)
    requires GatesHold(s) && Enabled(s, Release(t))
    ensures GatesHold(Apply(s, Release(t)))
  {
    assert s.owner[s.pcs[t].gate] == t;
  }

  lemma GatesKeptByLookup(s: State, t: Thread, key: Key, unused: Gate, pc: Pc, after: State)
    requires GatesHold(s) && PcOf(s, t).Idle? && (key in s.gates || unused !in s.gates.Values)
    requires !pc.Idle? && !Inside(pc) && KeyOf(pc) == key && pc.gate == GateFor(s, key, unused)
    requires after.pcs == s.pcs[t := pc] && after.owner == s.owner
    requires after.gates == s.gates[key := pc.gate]
    ensures GatesHold(after)
  {
  }

  lemma GatesKept(s: State, a: Action)
    requires GatesHold(s) && Enabled(s, a)
    ensures GatesHold(Apply(s, a))
  {
    if a.Tick? { return; }
    GatesKeptByThread(s, a);
  }

  lemma GatesKeptByThread(s: State, a: Action)
    requires GatesHold(s) && Enabled(s, a) && !a.Tick?
    ensures GatesHold(Apply(s, a))
  {
    hide GatesHold;
    var after := Apply(s, a);
    if a.Request? {
      GatesKeptByLookup(s, a.t, a.ask.key, a.unused, after.pcs[a.t], after);
    } else if a.Evict? {
      GatesKeptByLookup(s, a.t, a.key, a.unused, after.pcs[a.t], after);
    } else if a.Acquire? {
      GatesKeptByAcquire(s, a.t);
    } else if a.Release? {
      GatesKeptByRelease(s, a.t);
    } else {
      GatesKeptByMove(s, a.t, after.pcs[a.t], after);
    }
  }

  lemma TwoInside(s: State, t: Thread, u: Thread)
    requires GatesHold(s) && t in s.pcs && u in s.pcs && Inside(s.pcs[t]) && Inside(s.pcs[u])
    requires KeyOf(s.pcs[t]) == KeyOf(s.pcs[u])
    ensures t == u
  {
    assert s.pcs[t].gate == s.pcs[u].gate;
  }

  lemma MoreIssuedStaysBacked(issued: set<Issue>, i: Issue, s: State)
    requires TokensHold(s) && issued == s.issued + {i}
    ensures forall k :: k in s.held ==> Backed(issued, k, s.held[k])
    ensures forall n :: 0 <= n < |s.served| ==> Justified(issued, s.served[n])
  {
    forall k | k in s.held ensures Backed(issued, k, s.held[k]) {
      var j :| j in s.issued && BackedBy(k, s.held[k], j);
      assert j in issued;
    }
    forall n | 0 <= n < |s.served| ensures Justified(issued, s.served[n]) {
      var j :| j in s.issued && JustifiedBy(s.served[n], j);
      assert j in issued;
    }
  }

  lemma CheckKeeps(s: State, t: Thread)
    requires GatesHold(s) && TokensHold(s) && Enabled(s, Check(t))
    ensures TokensHold(Apply(s, Check(t)))
  {
    var ask := PcOf(s, t).ask;
    if Reusable(s, ask) {
      var h := s.held[ask.key];
      var i :| i in s.issued && BackedBy(ask.key, h, i);
      assert JustifiedBy(Serve(ask, h.token, s.now, true), i);
    }
  }

  lemma StoreKeeps(s: State, t: Thread)
    requires GatesHold(s) && TokensHold(s) && Enabled(s, Store(t))
    ensures TokensHold(Apply(s, Store(t)))
  {
    hide GatesHold;
    var pc := PcOf(s, t);
    var i := Issue(pc.ask, pc.token, pc.askedAt, pc.lifetime);
    assert JustifiedBy(Serve(pc.ask, pc.token, s.now, false), i);
    if LongEnough(pc.lifetime) {
      var h := Held(pc.ask.version, pc.ask.digest, pc.token, GoodUntil(pc.askedAt, pc.lifetime.value));
      assert BackedBy(pc.ask.key, h, i);
    }
    forall u | u in s.pcs && u != t && Fetching(s.pcs[u])
      ensures s.pcs[u].ask.key != pc.ask.key
    {
      if s.pcs[u].ask.key == pc.ask.key { TwoInside(s, t, u); }
    }
  }

  lemma AnswerKeeps(s: State, t: Thread, token: string, lifetime: Option<nat>)
    requires TokensHold(s) && Enabled(s, Answer(t, token, lifetime))
    ensures TokensHold(Apply(s, Answer(t, token, lifetime)))
  {
    var i := Issue(PcOf(s, t).ask, token, PcOf(s, t).askedAt, lifetime);
    MoreIssuedStaysBacked(s.issued + {i}, i, s);
  }

  /** A step that issues and serves nothing and adds no entry. */
  lemma TokensKeptQuietly(s: State, after: State, t: Thread, pc: Pc)
    requires TokensHold(s) && after.pcs == s.pcs[t := pc] && after.issued == s.issued && after.served == s.served
    requires forall k :: k in after.held ==> k in s.held && after.held[k] == s.held[k]
    requires !pc.Storing? && (Fetching(pc) ==> t in s.pcs && Fetching(s.pcs[t]) && pc.ask == s.pcs[t].ask)
    ensures TokensHold(after)
  {
  }

  lemma TokensKept(s: State, a: Action)
    requires GatesHold(s) && TokensHold(s) && Enabled(s, a)
    ensures TokensHold(Apply(s, a))
  {
    if a.Tick? { return; }
    TokensKeptByThread(s, a);
  }

  lemma TokensKeptByThread(s: State, a: Action)
    requires GatesHold(s) && TokensHold(s) && Enabled(s, a) && !a.Tick?
    ensures TokensHold(Apply(s, a))
  {
    hide GatesHold, TokensHold;
    var after := Apply(s, a);
    if a.Check? {
      CheckKeeps(s, a.t);
    } else if a.Store? {
      StoreKeeps(s, a.t);
    } else if a.Answer? {
      AnswerKeeps(s, a.t, a.token, a.lifetime);
    } else {
      TokensKeptQuietly(s, after, a.t, after.pcs[a.t]);
    }
  }

  lemma {:induction false} RunKeeps(s: State, run: seq<Action>)
    requires GatesHold(s) && TokensHold(s) && Run(s, run).Some?
    ensures GatesHold(Run(s, run).value) && TokensHold(Run(s, run).value)
    decreases |run|
  {
    hide GatesHold, TokensHold, Apply;
    if run != [] {
      GatesKept(s, run[0]);
      TokensKept(s, run[0]);
      RunKeeps(Apply(s, run[0]), run[1..]);
    }
  }

  lemma EveryRunKeeps(start: real, run: seq<Action>, s: State)
    requires Reaches(start, run, s)
    ensures GatesHold(s) && TokensHold(s)
  {
    RunKeeps(Start(start), run);
  }

  // ---------------------------------------------------------------- the promises

  /** In every interleaving at most one exchange per (tenant, system) is in flight, and while it
      is, no token of that key is held. */
  lemma OneExchangeAtATime(start: real, run: seq<Action>, s: State, t: Thread, u: Thread)
    requires Reaches(start, run, s) && Fetching(PcOf(s, t)) && Fetching(PcOf(s, u))
    requires PcOf(s, t).ask.key == PcOf(s, u).ask.key
    ensures t == u && PcOf(s, t).ask.key !in s.held
  {
    EveryRunKeeps(start, run, s);
    TwoInside(s, t, u);
  }

  /** A held token of this version and declaration, not yet within the margin of its end, is served again,
      with no exchange, and stays held; any other entry is dropped and an exchange asked for. */
  lemma GoodTokenIsServedAgain(s: State, t: Thread)
    requires Enabled(s, Check(t))
    ensures var ask, after := PcOf(s, t).ask, Apply(s, Check(t));
            var good := ask.key in s.held && s.held[ask.key].version == ask.version
                        && s.held[ask.key].digest == ask.digest && s.now < s.held[ask.key].goodUntil;
            && (good ==> after.served == s.served + [Serve(ask, s.held[ask.key].token, s.now, true)]
                         && after.held == s.held && PcOf(after, t) == Leaving(ask.key, PcOf(s, t).gate))
            && (!good ==> after.served == s.served && ask.key !in after.held && PcOf(after, t).Asking?)
  {
  }

  /** What an exchange issued is handed to the thread that asked, and held for the next if its lifetime is
      known and longer than the margin, until the margin before its end; never otherwise. */
  lemma IssuedIsServedAndHeld(start: real, run: seq<Action>, s: State, t: Thread)
    requires Reaches(start, run, s) && Enabled(s, Store(t))
    ensures var pc, after := PcOf(s, t), Apply(s, Store(t));
            && Issue(pc.ask, pc.token, pc.askedAt, pc.lifetime) in s.issued
            && after.served == s.served + [Serve(pc.ask, pc.token, s.now, false)]
            && (if pc.lifetime.Some? && pc.lifetime.value > REFRESH_MARGIN_SEC then
                  pc.ask.key in after.held && after.held[pc.ask.key]
                    == Held(pc.ask.version, pc.ask.digest, pc.token,
                            pc.askedAt + pc.lifetime.value as real - REFRESH_MARGIN_SEC as real)
                else pc.ask.key !in after.held)
  {
    hide GatesHold;
    EveryRunKeeps(start, run, s);
  }

  /** No step drops the entry of `k` for a cause: no eviction names its text, and no check finds it
      expired or issued for another version or declaration. */
  predicate NoCause(s: State, run: seq<Action>, k: Key)
    requires Run(s, run).Some?
    decreases |run|
  {
    run == [] ||
    (var a := run[0];
     && !(a.Drop? && PcOf(s, a.t).key == k && k in s.held && PcOf(s, a.t).token == s.held[k].token)
     && !(a.Check? && PcOf(s, a.t).ask.key == k && !Reusable(s, PcOf(s, a.t).ask))
     && NoCause(Apply(s, a), run[1..], k))
  }

  /** So whatever else happens, a held token stays until there is cause, for every later asker to be
      served. */
  lemma {:induction false} HeldUntilThereIsCause(s: State, run: seq<Action>, k: Key)
    requires GatesHold(s) && TokensHold(s) && k in s.held && Run(s, run).Some? && NoCause(s, run, k)
    ensures var after := Run(s, run).value; k in after.held && after.held[k] == s.held[k]
    decreases |run|
  {
    hide GatesHold, TokensHold;
    if run != [] {
      StepLeavesForCause(s, run[0], k);
      GatesKept(s, run[0]);
      TokensKept(s, run[0]);
      HeldUntilThereIsCause(Apply(s, run[0]), run[1..], k);
    }
  }

  lemma StepLeavesForCause(s: State, a: Action, k: Key)
    requires TokensHold(s) && Enabled(s, a) && k in s.held
    ensures (a.Drop? && PcOf(s, a.t).key == k && PcOf(s, a.t).token == s.held[k].token)
            || (a.Check? && PcOf(s, a.t).ask.key == k && !Reusable(s, PcOf(s, a.t).ask))
            || (k in Apply(s, a).held && Apply(s, a).held[k] == s.held[k])
  {
    hide TokensHold;
    if a.Store? { FetchingKeyIsNotHeld(s, a.t); }
  }

  /** No outcome leaks a gate: a thread holds one exactly while it is past it, and then one alone; so
      with nobody past a gate, none is held. */
  lemma NoGateIsLeaked(start: real, run: seq<Action>, s: State, t: Thread, g: Gate)
    requires Reaches(start, run, s)
    ensures g in s.owner && s.owner[g] == t <==> PastGate(s, t, g)
    ensures PcOf(s, t).Idle? ==> t !in s.owner.Values
    ensures (forall u :: !Inside(PcOf(s, u))) ==> s.owner == map[]
  {
    hide TokensHold;
    EveryRunKeeps(start, run, s);
    if g in s.owner { assert PastGate(s, s.owner[g], g); }
    if t in s.owner.Values {
      var h :| h in s.owner && s.owner[h] == t;
      assert PastGate(s, t, h);
    }
    if s.owner != map[] {
      var h :| h in s.owner;
      assert PastGate(s, s.owner[h], h) && Inside(PcOf(s, s.owner[h]));
    }
  }

  /** The step the thread past a gate can take, whatever the endpoint does. */
  function NextInside(t: Thread, pc: Pc): Action
    requires Inside(pc)
  {
    match pc
    case Checking(_, _) => Check(t)
    case Asking(_, _) => Begin(t)
    case Exchanging(_, _, _) => Fail(t)
    case Storing(_, _, _, _, _) => Store(t)
    case Evicting(_, _, _) => Drop(t)
    case Leaving(_, _) => Release(t)
  }

  /** Nobody waits for ever on a gate no one will open: either it is free to take, or its owner is
      past it and can go on. */
  lemma WaitingIsNeverStuck(start: real, run: seq<Action>, s: State, t: Thread)
    requires Reaches(start, run, s) && (PcOf(s, t).Waiting? || PcOf(s, t).EvictWaiting?)
    ensures var g := PcOf(s, t).gate;
            || Enabled(s, Acquire(t))
            || (g in s.owner && PastGate(s, s.owner[g], g) && Enabled(s, NextInside(s.owner[g], PcOf(s, s.owner[g]))))
  {
    hide TokensHold;
    EveryRunKeeps(start, run, s);
    var g := PcOf(s, t).gate;
    if g in s.owner { assert PastGate(s, s.owner[g], g); }
  }

  /** Every token ever served was issued for the same tenant, system, set version and declaration,
      and a reused one was served strictly before asked-at + lifetime - margin. */
  lemma ServedTokensAreTheAskersOwn(start: real, run: seq<Action>, s: State, n: nat) returns (i: Issue)
    requires Reaches(start, run, s) && n < |s.served|
    ensures i in s.issued && i.ask == s.served[n].ask && i.token == s.served[n].token
    ensures s.served[n].reused ==>
              i.lifetime.Some? && s.served[n].at < i.askedAt + i.lifetime.value as real - REFRESH_MARGIN_SEC as real
  {
    EveryRunKeeps(start, run, s);
    assert Justified(s.issued, s.served[n]);
    i :| i in s.issued && JustifiedBy(s.served[n], i);
  }

  /** A held token leaves for a cause only: an eviction that names its key and its very text, or a
      request for its key finding it expired by the margin or issued for another version or
      declaration. Nothing overwrites it, and no step for another key touches it. */
  lemma TokensLeaveForCause(start: real, run: seq<Action>, s: State, a: Action, k: Key)
    requires Reaches(start, run, s) && Enabled(s, a) && k in s.held
    requires k !in Apply(s, a).held || Apply(s, a).held[k] != s.held[k]
    ensures || (a.Drop? && PcOf(s, a.t).key == k && PcOf(s, a.t).token == s.held[k].token)
            || (a.Check? && PcOf(s, a.t).ask.key == k && !Reusable(s, PcOf(s, a.t).ask))
    ensures k !in Apply(s, a).held
  {
    hide GatesHold, TokensHold;
    EveryRunKeeps(start, run, s);
    if a.Store? { FetchingKeyIsNotHeld(s, a.t); }
  }

  lemma FetchingKeyIsNotHeld(s: State, t: Thread)
    requires TokensHold(s) && Fetching(PcOf(s, t))
    ensures PcOf(s, t).ask.key !in s.held
  {
  }

  /** Some step of the run ends an exchange for `k` that issued this very text. */
  predicate IssuedAgain(s: State, run: seq<Action>, k: Key, token: string)
    requires Run(s, run).Some?
    decreases |run|
  {
    run != [] &&
    (var a := run[0];
     (a.Store? && PcOf(s, a.t).ask.key == k && PcOf(s, a.t).token == token)
     || IssuedAgain(Apply(s, a), run[1..], k, token))
  }

  predicate HoldsText(s: State, k: Key, token: string) { k in s.held && s.held[k].token == token }

  /** The steps taken since `s` served this text for `k`. */
  ghost predicate ServedSince(s: State, after: State, k: Key, token: string) {
    exists n :: |s.served| <= n < |after.served| && after.served[n].ask.key == k && after.served[n].token == token
  }

  lemma {:induction false} AbsentIsNotServed(s: State, run: seq<Action>, k: Key, token: string)
    requires Run(s, run).Some? && !HoldsText(s, k, token) && !IssuedAgain(s, run, k, token)
    ensures var after := Run(s, run).value;
            s.served <= after.served && !HoldsText(after, k, token) && !ServedSince(s, after, k, token)
    decreases |run|
  {
    if run != [] {
      var next, after := Apply(s, run[0]), Run(s, run).value;
      StepServesNoneOf(s, run[0], k, token);
      AbsentIsNotServed(next, run[1..], k, token);
      forall n | |s.served| <= n < |after.served|
        ensures !(after.served[n].ask.key == k && after.served[n].token == token)
      {
        assert n < |next.served| ==> next.served[n] == after.served[n];
      }
    }
  }

  lemma StepServesNoneOf(s: State, a: Action, k: Key, token: string)
    requires Enabled(s, a) && !HoldsText(s, k, token)
    requires !(a.Store? && PcOf(s, a.t).ask.key == k && PcOf(s, a.t).token == token)
    ensures s.served <= Apply(s, a).served
    ensures !HoldsText(Apply(s, a), k, token) && !ServedSince(s, Apply(s, a), k, token)
  {
  }

  /** In every run on from an eviction, the text it names is neither held nor served under its key
      again until an exchange issues that very text anew. */
  lemma EvictedIsNotServedAgain(s: State, t: Thread, run: seq<Action>)
    requires Enabled(s, Drop(t)) && Run(Apply(s, Drop(t)), run).Some?
    requires !IssuedAgain(Apply(s, Drop(t)), run, PcOf(s, t).key, PcOf(s, t).token)
    ensures var after := Run(Apply(s, Drop(t)), run).value;
            && !HoldsText(after, PcOf(s, t).key, PcOf(s, t).token)
            && !ServedSince(Apply(s, Drop(t)), after, PcOf(s, t).key, PcOf(s, t).token)
  {
    AbsentIsNotServed(Apply(s, Drop(t)), run, PcOf(s, t).key, PcOf(s, t).token);
  }
}
