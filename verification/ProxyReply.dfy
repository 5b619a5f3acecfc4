/** The body on its way from a system to the caller (`defender/credential_proxy/_reply.py`,
    `defender/credential_proxy/_app.py`, `defender/_proxy_client.py`): passed on chunk by chunk under
    a cap, framed, and kept by the caller only when the final record says it went whole. */
module ProxyReply {
  import opened Options
  import opened ReplyFrames
  import opened ProxyRecord

  // ---------------------------------------------------------------- what was handed to the caller

  /** The chunks the leg began to pass on, in order. */
  function Handed(events: seq<LegEvent>): seq<Bytes>
    decreases |events|
  {
    if events == [] then [] else
      var e := events[|events| - 1];
      Handed(events[..|events| - 1]) + (if e.ChunkBegun? then [e.chunk] else [])
  }

  /** What the caller finds framed before the final record: everything handed on, though a chunk the
      leg was still passing on when it ended may not have gone. */
  ghost predicate OnTheWire(chunks: seq<Bytes>, events: seq<LegEvent>) {
    var handed := Handed(events);
    chunks == handed || (OnReader(events) && handed != [] && chunks == handed[..|handed| - 1])
  }

  function EventsOf(request: Request): seq<LegEvent> { if request.Called? then request.events else [] }

  /** Whatever befell the request, the caller reads exactly what the leg passed on and this record;
      it keeps those bytes when the audited reply came back with nothing withheld, and none otherwise. */
  lemma CallerKeepsOnlyWholeBodies(request: Request, audited: bool, chunks: seq<Bytes>, codec: Codec)
    requires Faithful(codec) && Fits(chunks) && OnTheWire(chunks, EventsOf(request))
    requires |codec.dump(AsDocument(Final(request, audited)))| < LENGTH_LIMIT
    ensures var r := Final(request, audited);
            var reply := Decode(Reply(chunks, codec.dump(AsDocument(r))), codec);
            var whole := audited && request.Called? && request.end.Returned? && request.end.reply.withheld.None?;
            && reply == Whole(chunks, r)
            && BodyKept(reply) == Some(if whole then Joined(chunks) else [])
  {
    EveryRecordIsValid(request, audited);
    ClaimsAreTheSystems(request, audited);
    DecodeInvertsEncode(chunks, Final(request, audited), codec);
  }

  // ---------------------------------------------------------------- passing a reply on

  /** A system's reply as it arrives: the length it declares, whether it says it is compressed,
      whether its method and status allow a body, and its body in the pieces it comes in. */
  datatype Arriving = Arriving(
    status: int, headers: seq<(string, string)>, declared: Option<nat>, compressed: bool, bodiless: bool,
    body: seq<Bytes>)

  predicate DeclaresOver(a: Arriving, cap: nat) { a.declared.Some? && a.declared.value > cap }

  function Size(chunks: seq<Bytes>): nat
    decreases |chunks|
  {
    if chunks == [] then 0 else Size(chunks[..|chunks| - 1]) + |chunks[|chunks| - 1]|
  }

  /** The reply may go whole: it holds nothing; or it is not compressed, does not declare more than
      the cap and does not hold more. A length declared without a body to match counts only where a
      body is allowed. */
  predicate GoesWhole(a: Arriving, cap: nat) {
    if a.body == [] then a.bodiless || !DeclaresOver(a, cap)
    else !a.compressed && !DeclaresOver(a, cap) && Size(a.body) <= cap
  }

  /** What is returned: withheld, for being compressed or too large, exactly when it may not go whole. */
  function Judged(a: Arriving, cap: nat): Streamed {
    var withheld := !GoesWhole(a, cap);
    Streamed(a.status, a.headers,
             if !withheld then None else if a.compressed then Some("a compressed body") else Some("more than the cap"),
             withheld && !a.compressed)
  }

  /** A chunk handed on and taken. */
  function Passing(chunk: Bytes): seq<LegEvent> { [ChunkBegun(chunk), ChunkTaken] }

  /** The leg so far: this status, these chunks handed on, nobody being waited for. */
  ghost predicate SoFar(events: seq<LegEvent>, status: int, chunks: seq<Bytes>) {
    Handed(events) == chunks && !OnReader(events) && FirstStatus(events) == LastStatus(events) == Some(status)
  }

  lemma StatusFirst(status: int)
    ensures SoFar([StatusSeen(status)], status, [])
  {
    var events := [StatusSeen(status)];
    assert events[..0] == [];
  }

  lemma OneMorePassed(events: seq<LegEvent>, status: int, chunks: seq<Bytes>, chunk: Bytes)
    requires SoFar(events, status, chunks)
    ensures SoFar(events + Passing(chunk), status, chunks + [chunk])
  {
    var begun := events + [ChunkBegun(chunk)];
    assert events + Passing(chunk) == begun + [ChunkTaken];
    assert (begun + [ChunkTaken])[..|begun|] == begun && begun[..|events|] == events;
    FirstStatusOfMore(events, ChunkBegun(chunk));
    FirstStatusOfMore(begun, ChunkTaken);
  }

  lemma SizeOfMore(chunks: seq<Bytes>, k: nat)
    requires k < |chunks|
    ensures chunks[..k + 1] == chunks[..k] + [chunks[k]]
    ensures Size(chunks[..k + 1]) == Size(chunks[..k]) + |chunks[k]| <= Size(chunks)
  {
    assert chunks[..k + 1][..k] == chunks[..k];
    SizeOfPrefix(chunks, k + 1);
  }

  lemma {:induction false} SizeOfPrefix(chunks: seq<Bytes>, k: nat)
    requires k <= |chunks|
    ensures Size(chunks[..k]) <= Size(chunks)
    decreases |chunks| - k
  {
    if k < |chunks| {
      assert chunks[..k + 1][..k] == chunks[..k];
      SizeOfPrefix(chunks, k + 1);
    } else {
      assert chunks[..k] == chunks;
    }
  }

  /** `_refusal_of_body`: compressed, or declared over the cap. */
  method RefusalOfBody(a: Arriving, cap: nat) returns (refused: Option<Streamed>)
    ensures refused.Some? <==> a.compressed || DeclaresOver(a, cap)
    ensures refused.Some? && !GoesWhole(a, cap) ==> refused.value == Judged(a, cap)
  {
    if a.compressed { return Some(Streamed(a.status, a.headers, Some("a compressed body"), false)); }
    if DeclaresOver(a, cap) { return Some(Streamed(a.status, a.headers, Some("more than the cap"), true)); }
    return None;
  }

  /** `stream_reply` over a reply that arrives to its end: the status first, then each chunk handed on
      before the next is read, until one would pass the cap. What goes on is never more than the cap,
      and is the whole body exactly when it may go whole. */
  method StreamReply(a: Arriving, cap: nat) returns (events: seq<LegEvent>, reply: Streamed)
    ensures reply == Judged(a, cap)
    ensures SoFar(events, a.status, Handed(events))
    ensures Handed(events) <= a.body && Size(Handed(events)) <= cap
    ensures GoesWhole(a, cap) ==> Handed(events) == a.body
  {
    hide SoFar, Handed;
    events := [StatusSeen(a.status)];
    StatusFirst(a.status);
    SoFarHanded(events, a.status, []);
    assert a.body[..0] == [];
    if !a.bodiless && DeclaresOver(a, cap) {
      var refused := RefusalOfBody(a, cap);
      if refused.Some? { return events, refused.value; }
    }
    var count := 0;
    for k := 0 to |a.body|
      invariant SoFar(events, a.status, a.body[..k]) && Handed(events) == a.body[..k]
      invariant count == Size(a.body[..k]) <= cap
      invariant k > 0 ==> !a.compressed && !DeclaresOver(a, cap)
      invariant a.body == [] ==> a.bodiless || !DeclaresOver(a, cap)
    {
      if count == 0 {
        var refused := RefusalOfBody(a, cap);
        if refused.Some? { return events, refused.value; }
      }
      SizeOfMore(a.body, k);
      count := count + |a.body[k]|;
      if count > cap { return events, Streamed(a.status, a.headers, Some("more than the cap"), true); }
      OneMorePassed(events, a.status, a.body[..k], a.body[k]);
      events := events + Passing(a.body[k]);
      SoFarHanded(events, a.status, a.body[..k + 1]);
    }
    assert a.body[..|a.body|] == a.body;
    reply := Streamed(a.status, a.headers, None, false);
  }

  lemma SoFarHanded(events: seq<LegEvent>, status: int, chunks: seq<Bytes>)
    requires SoFar(events, status, chunks)
    ensures Handed(events) == chunks
  {
  }

  /** The record of a reply that arrives to its end. */
  function RecordFor(a: Arriving, cap: nat, audited: bool): FinalRecord {
    Final(Called([], Returned(Judged(a, cap))), audited)
  }

  /** From the system to the caller: streamed, recorded, framed and decoded, the caller ends with the
      system's body exactly when it may go whole and the audit was written, and with none of it
      otherwise; and is told which. */
  method Delivered(a: Arriving, cap: nat, proxy: Proxy, audited: bool, codec: Codec) returns (kept: Option<Bytes>)
    requires Faithful(codec) && Fits(a.body)
    requires |codec.dump(AsDocument(RecordFor(a, cap, audited)))| < LENGTH_LIMIT
    modifies proxy
    ensures kept == Some(if audited && GoesWhole(a, cap) then Joined(a.body) else [])
    ensures proxy.audit ==
            if audited then old(proxy.audit) + [EntryFor(Some(a.status), RecordFor(a, cap, true).fault)]
            else old(proxy.audit)
  {
    hide Decode, Reply, Judged;
    var events, reply := StreamReply(a, cap);
    var request := Called(events, Returned(reply));
    var record := proxy.Handle(request, audited);
    var chunks := Handed(events);
    ReturnedIsRecorded(a, cap, events, audited);
    CallerKeepsOnlyWholeBodies(request, audited, chunks, codec);
    JudgedWhole(a, cap);
    kept := BodyKept(Decode(Reply(chunks, codec.dump(AsDocument(record))), codec));
  }

  lemma ReturnedIsRecorded(a: Arriving, cap: nat, events: seq<LegEvent>, audited: bool)
    ensures Final(Called(events, Returned(Judged(a, cap))), audited) == RecordFor(a, cap, audited)
  {
  }

  /** The caller is told: a whole body exactly when it may go whole, no fault exactly when the status
      is a success too. */
  lemma JudgedWhole(a: Arriving, cap: nat)
    ensures Judged(a, cap).withheld.None? <==> GoesWhole(a, cap)
    ensures RecordFor(a, cap, true).status == Some(a.status)
    ensures RecordFor(a, cap, true).bodyWhole <==> GoesWhole(a, cap)
    ensures RecordFor(a, cap, true).fault.None? <==> GoesWhole(a, cap) && 200 <= a.status < 300
  {
  }
}
