/** The credential proxy's reply format and its strict decoder (`defender/_proxy_client.py`): frames
    of one tag byte, a four-byte big-endian length and a payload; body frames, then one final one. */
module ReplyFrames {
  import opened Options

  newtype byte = n: int | 0 <= n < 256
  type Bytes = seq<byte>

  const BODY: byte := 66   // 'B'
  const FINAL: byte := 70  // 'F'
  const HEAD_SIZE: nat := 5
  const LENGTH_LIMIT: nat := 0x1_0000_0000

  // ---------------------------------------------------------------- records

  /** How a request ended. */
  datatype FinalRecord = FinalRecord(
    status: Option<int>, headers: map<string, string>, fault: Option<string>, detail: Option<string>,
    systemSide: bool, sent: bool, bodyWhole: bool, readerFault: bool)

  /** A record naming no fault is a whole answer. */
  predicate Valid(r: FinalRecord) {
    r.fault.None? ==> r.status.Some? && r.bodyWhole
  }

  /** A JSON document, as far as a record's check looks into it. */
  datatype Json =
    | JNull
    | JBool(truth: bool)
    | JInt(number: int)
    | JString(text: string)
    | JObject(members: map<string, Json>)
    | JOther

  function TextOrNull(t: Option<string>): Json { if t.None? then JNull else JString(t.value) }

  /** `asdict`. */
  function AsDocument(r: FinalRecord): Json {
    JObject(map[
      "status" := if r.status.None? then JNull else JInt(r.status.value),
      "headers" := JObject(map k | k in r.headers :: JString(r.headers[k])),
      "fault" := TextOrNull(r.fault),
      "detail" := TextOrNull(r.detail),
      "system_side" := JBool(r.systemSide),
      "sent" := JBool(r.sent),
      "body_whole" := JBool(r.bodyWhole),
      "reader_fault" := JBool(r.readerFault)])
  }

  const FIELDS: set<string> :=
    {"status", "headers", "fault", "detail", "system_side", "sent", "body_whole", "reader_fault"}

  predicate IsTextOrNull(j: Json) { j.JNull? || j.JString? }

  predicate AllText(members: map<string, Json>) { forall k :: k in members ==> members[k].JString? }

  /** `_record_of`, past the JSON parse: exactly the fields, each of its type, and a whole answer
      unless a fault is named. */
  function RecordOf(doc: Json): Option<FinalRecord> {
    if !doc.JObject? || doc.members.Keys != FIELDS then None else
      var d := doc.members;
      if !((d["status"].JNull? || d["status"].JInt?) && d["headers"].JObject? && AllText(d["headers"].members)
           && IsTextOrNull(d["fault"]) && IsTextOrNull(d["detail"]) && d["system_side"].JBool?
           && d["sent"].JBool? && d["body_whole"].JBool? && d["reader_fault"].JBool?) then None
      else if d["fault"].JNull? && (d["status"].JNull? || !d["body_whole"].truth) then None
      else Some(FinalRecord(
        if d["status"].JNull? then None else Some(d["status"].number),
        map k | k in d["headers"].members :: d["headers"].members[k].text,
        if d["fault"].JNull? then None else Some(d["fault"].text),
        if d["detail"].JNull? then None else Some(d["detail"].text),
        d["system_side"].truth, d["sent"].truth, d["body_whole"].truth, d["reader_fault"].truth))
  }

  lemma DocumentHasTheFields(r: FinalRecord)
    ensures AsDocument(r).members.Keys == FIELDS
  {
  }

  /** The check accepts exactly the documents of valid records, each as the record it came from. */
  lemma RecordOfInvertsAsDocument(r: FinalRecord)
    ensures RecordOf(AsDocument(r)) == if Valid(r) then Some(r) else None
  {
    var d := AsDocument(r).members;
    DocumentHasTheFields(r);
    assert d["status"] == if r.status.None? then JNull else JInt(r.status.value);
    assert d["headers"] == JObject(map k | k in r.headers :: JString(r.headers[k]));
    assert d["fault"] == TextOrNull(r.fault);
    assert d["detail"] == TextOrNull(r.detail);
    assert (map k | k in d["headers"].members :: d["headers"].members[k].text) == r.headers;
  }

  lemma AcceptedDocumentIsItsRecords(doc: Json)
    requires RecordOf(doc).Some?
    ensures doc == AsDocument(RecordOf(doc).value) && Valid(RecordOf(doc).value)
  {
    var r := RecordOf(doc).value;
    DocumentHasTheFields(r);
    var a, b := doc.members, AsDocument(r).members;
    assert a["headers"].members == map k | k in r.headers :: JString(r.headers[k]);
    assert a["headers"] == b["headers"] && a["status"] == b["status"] && a["fault"] == b["fault"];
    assert a["detail"] == b["detail"] && a["sent"] == b["sent"] && a["system_side"] == b["system_side"];
    assert a["body_whole"] == b["body_whole"] && a["reader_fault"] == b["reader_fault"];
    assert a == b;
  }

  /** JSON and UTF-8: any encoder and parser, so long as a record's document comes back. */
  datatype Codec = Codec(dump: Json -> Bytes, load: Bytes -> Option<Json>)

  ghost predicate Faithful(codec: Codec) {
    forall r: FinalRecord :: codec.load(codec.dump(AsDocument(r))) == Some(AsDocument(r))
  }

  function RecordIn(payload: Bytes, codec: Codec): Option<FinalRecord> {
    var doc := codec.load(payload);
    if doc.None? then None else RecordOf(doc.value)
  }

  // ---------------------------------------------------------------- frames

  function BigEndian(n: nat): (r: Bytes)
    requires n < LENGTH_LIMIT
    ensures |r| == 4
  {
    [(n / 0x100_0000) as byte, (n / 0x1_0000 % 256) as byte, (n / 256 % 256) as byte, (n % 256) as byte]
  }

  function Length(head: Bytes): (n: nat)
    requires |head| == 4
    ensures n < LENGTH_LIMIT
  {
    head[0] as int * 0x100_0000 + head[1] as int * 0x1_0000 + head[2] as int * 256 + head[3] as int
  }

  lemma LengthInvertsBigEndian(n: nat)
    requires n < LENGTH_LIMIT
    ensures Length(BigEndian(n)) == n
  {
    assert n / 0x1_0000 == (n / 0x100_0000) * 256 + n / 0x1_0000 % 256;
    assert n / 256 == (n / 0x1_0000) * 256 + n / 256 % 256;
  }

  lemma LastDigit(high: nat, low: nat)
    requires low < 256
    ensures (high * 256 + low) / 256 == high && (high * 256 + low) % 256 == low
  {
  }

  lemma BigEndianInvertsLength(head: Bytes)
    requires |head| == 4
    ensures BigEndian(Length(head)) == head
  {
    var n := Length(head);
    var a, b, c, d := head[0] as int, head[1] as int, head[2] as int, head[3] as int;
    LastDigit(a * 0x1_0000 + b * 256 + c, d);
    LastDigit(a * 256 + b, c);
    LastDigit(a, b);
    assert n / 0x1_0000 == n / 256 / 256 && n / 0x100_0000 == n / 256 / 256 / 256;
  }

  /** `encode_body` and `encode_final`, past the record's own encoding. */
  function Frame(tag: byte, payload: Bytes): (r: Bytes)
    requires |payload| < LENGTH_LIMIT
    ensures |r| == HEAD_SIZE + |payload|
  {
    [tag] + BigEndian(|payload|) + payload
  }

  ghost predicate Fits(chunks: seq<Bytes>) { forall i :: 0 <= i < |chunks| ==> |chunks[i]| < LENGTH_LIMIT }

  function BodyFrames(chunks: seq<Bytes>): Bytes
    requires forall i :: 0 <= i < |chunks| ==> |chunks[i]| < LENGTH_LIMIT
  {
    if chunks == [] then [] else Frame(BODY, chunks[0]) + BodyFrames(chunks[1..])
  }

  /** A whole reply: body frames in order, then the final frame. */
  function Reply(chunks: seq<Bytes>, payload: Bytes): Bytes
    requires (forall i :: 0 <= i < |chunks| ==> |chunks[i]| < LENGTH_LIMIT) && |payload| < LENGTH_LIMIT
  {
    BodyFrames(chunks) + Frame(FINAL, payload)
  }

  // ---------------------------------------------------------------- the decoder

  datatype Refusal = HeaderCut | FrameCut | UnknownTag | BytesAfterFinal | NoFinalFrame | BadRecord

  datatype Split = Framed(chunks: seq<Bytes>, payload: Bytes) | NotFramed(why: Refusal)

  /** What the frame loop makes of the bytes left. */
  function Unframe(raw: Bytes): Split
    decreases |raw|
  {
    if raw == [] then NotFramed(NoFinalFrame)
    else if |raw| < HEAD_SIZE then NotFramed(HeaderCut)
    else
      var size := Length(raw[1..5]);
      if |raw| - HEAD_SIZE < size then NotFramed(FrameCut)
      else
        var payload, rest := raw[5..5 + size], raw[5 + size..];
        if raw[0] == BODY then
          var more := Unframe(rest);
          if more.Framed? then Framed([payload] + more.chunks, more.payload) else more
        else if raw[0] == FINAL then
          if rest == [] then Framed([], payload) else NotFramed(BytesAfterFinal)
        else NotFramed(UnknownTag)
  }

  datatype Decoded = Whole(chunks: seq<Bytes>, final: FinalRecord) | Malformed(why: Refusal)

  function Decode(raw: Bytes, codec: Codec): Decoded {
    match Unframe(raw)
    case NotFramed(why) => Malformed(why)
    case Framed(chunks, payload) =>
      var record := RecordIn(payload, codec);
      if record.None? then Malformed(BadRecord) else Whole(chunks, record.value)
  }

  function Prepend(chunks: seq<Bytes>, s: Split): Split {
    if s.Framed? then Framed(chunks + s.chunks, s.payload) else s
  }

  /** The loop's one turn, at an index of the whole reply. */
  lemma UnframeAt(raw: Bytes, at: nat)
    requires at <= |raw|
    ensures at == |raw| ==> Unframe(raw[at..]) == NotFramed(NoFinalFrame)
    ensures at < |raw| < at + HEAD_SIZE ==> Unframe(raw[at..]) == NotFramed(HeaderCut)
    ensures at + HEAD_SIZE <= |raw| ==>
              var size := Length(raw[at + 1..at + 5]); var next := at + HEAD_SIZE + size;
              if |raw| < next then Unframe(raw[at..]) == NotFramed(FrameCut)
              else if raw[at] == BODY then Unframe(raw[at..]) == Prepend([raw[at + 5..next]], Unframe(raw[next..]))
              else if raw[at] == FINAL then
                Unframe(raw[at..]) ==
                if next == |raw| then Framed([], raw[at + 5..next]) else NotFramed(BytesAfterFinal)
              else Unframe(raw[at..]) == NotFramed(UnknownTag)
  {
    var here := raw[at..];
    if at + HEAD_SIZE <= |raw| {
      assert here[1..5] == raw[at + 1..at + 5];
      var size := Length(raw[at + 1..at + 5]);
      if at + HEAD_SIZE + size <= |raw| {
        assert here[5..5 + size] == raw[at + 5..at + 5 + size] && here[5 + size..] == raw[at + 5 + size..];
      }
    }
  }

  lemma PrependTwice(a: seq<Bytes>, b: seq<Bytes>, s: Split)
    ensures Prepend(a, Prepend(b, s)) == Prepend(a + b, s)
  {
  }

  /** `decode_reply`. */
  method DecodeReply(raw: Bytes, codec: Codec) returns (reply: Decoded)
    ensures reply == Decode(raw, codec)
  {
    hide Unframe, Length;
    var chunks: seq<Bytes> := [];
    var at, end := 0, |raw|;
    assert raw[0..] == raw;
    while at < end
      invariant 0 <= at <= end == |raw|
      invariant Unframe(raw) == Prepend(chunks, Unframe(raw[at..]))
    {
      UnframeAt(raw, at);
      if end - at < HEAD_SIZE { return Malformed(HeaderCut); }
      var tag, size := raw[at], Length(raw[at + 1..at + 5]);
      at := at + HEAD_SIZE;
      if end - at < size { return Malformed(FrameCut); }
      var payload := raw[at..at + size];
      at := at + size;
      if tag == BODY {
        PrependTwice(chunks, [payload], Unframe(raw[at..]));
        chunks := chunks + [payload];
      } else if tag == FINAL {
        if at != end { return Malformed(BytesAfterFinal); }
        assert chunks + [] == chunks;
        var record := RecordIn(payload, codec);
        if record.None? { return Malformed(BadRecord); }
        return Whole(chunks, record.value);
      } else {
        return Malformed(UnknownTag);
      }
    }
    UnframeAt(raw, at);
    return Malformed(NoFinalFrame);
  }

  // ---------------------------------------------------------------- round trips

  lemma UnframeOneFrame(tag: byte, payload: Bytes, rest: Bytes)
    requires |payload| < LENGTH_LIMIT
    ensures var raw := Frame(tag, payload) + rest;
            raw[0] == tag && |raw| >= HEAD_SIZE && Length(raw[1..5]) == |payload| && |raw| - HEAD_SIZE >= |payload|
            && raw[5..5 + |payload|] == payload && raw[5 + |payload|..] == rest
  {
    var raw := Frame(tag, payload) + rest;
    assert raw[1..5] == BigEndian(|payload|);
    LengthInvertsBigEndian(|payload|);
  }

  lemma UnframeBody(chunk: Bytes, rest: Bytes)
    requires |chunk| < LENGTH_LIMIT
    ensures Unframe(Frame(BODY, chunk) + rest) == Prepend([chunk], Unframe(rest))
  {
    hide Frame, Length;
    UnframeOneFrame(BODY, chunk, rest);
  }

  lemma UnframeFinal(payload: Bytes)
    requires |payload| < LENGTH_LIMIT
    ensures Unframe(Frame(FINAL, payload)) == Framed([], payload)
  {
    hide Frame, Length;
    UnframeOneFrame(FINAL, payload, []);
    assert Frame(FINAL, payload) + [] == Frame(FINAL, payload);
  }

  lemma ReplyTakesOne(chunks: seq<Bytes>, payload: Bytes)
    requires Fits(chunks) && |payload| < LENGTH_LIMIT && chunks != []
    ensures Reply(chunks, payload) == Frame(BODY, chunks[0]) + Reply(chunks[1..], payload)
  {
    hide Frame;
    assert BodyFrames(chunks) == Frame(BODY, chunks[0]) + BodyFrames(chunks[1..]);
  }

  lemma {:induction false} UnframeInvertsReply(chunks: seq<Bytes>, payload: Bytes)
    requires Fits(chunks) && |payload| < LENGTH_LIMIT
    ensures Unframe(Reply(chunks, payload)) == Framed(chunks, payload)
    decreases |chunks|
  {
    hide Unframe, Frame;
    if chunks == [] {
      UnframeFinal(payload);
      assert Reply(chunks, payload) == Frame(FINAL, payload);
    } else {
      hide Reply;
      UnframeInvertsReply(chunks[1..], payload);
      ReplyTakesOne(chunks, payload);
      UnframeBody(chunks[0], Reply(chunks[1..], payload));
      assert [chunks[0]] + chunks[1..] == chunks;
    }
  }

  /** A framed reply starts with a frame, and what follows is framed or, past a final one, nothing. */
  lemma FirstFrame(raw: Bytes) returns (payload: Bytes, rest: Bytes)
    requires Unframe(raw).Framed?
    ensures |payload| < LENGTH_LIMIT && raw == Frame(raw[0], payload) + rest && |rest| < |raw|
    ensures raw[0] == BODY || raw[0] == FINAL
    ensures raw[0] == BODY ==> Unframe(rest).Framed? && Unframe(raw) == Prepend([payload], Unframe(rest))
    ensures raw[0] == FINAL ==> rest == [] && Unframe(raw) == Framed([], payload)
  {
    var size := Length(raw[1..5]);
    payload, rest := raw[5..5 + size], raw[5 + size..];
    BigEndianInvertsLength(raw[1..5]);
    assert raw == [raw[0]] + raw[1..5] + payload + rest;
  }

  lemma {:induction false} FramedIsAReply(raw: Bytes)
    requires Unframe(raw).Framed?
    ensures var s := Unframe(raw); Fits(s.chunks) && |s.payload| < LENGTH_LIMIT && raw == Reply(s.chunks, s.payload)
    decreases |raw|
  {
    hide Unframe, Frame;
    var payload, rest := FirstFrame(raw);
    var s := Unframe(raw);
    if raw[0] == BODY {
      FramedIsAReply(rest);
      assert s.chunks[1..] == Unframe(rest).chunks;
      ReplyTakesOne(s.chunks, s.payload);
    } else {
      assert raw == Frame(FINAL, payload) == Reply([], payload);
    }
  }

  /** Decoding inverts encoding, for every list of chunks and every valid record that fit. */
  lemma DecodeInvertsEncode(chunks: seq<Bytes>, record: FinalRecord, codec: Codec)
    requires Faithful(codec) && Valid(record)
    requires Fits(chunks) && |codec.dump(AsDocument(record))| < LENGTH_LIMIT
    ensures Decode(Reply(chunks, codec.dump(AsDocument(record))), codec) == Whole(chunks, record)
  {
    UnframeInvertsReply(chunks, codec.dump(AsDocument(record)));
    RecordOfInvertsAsDocument(record);
  }

  /** Exactly the well-formed replies are accepted, each as the one list of chunks it frames. */
  lemma AcceptedExactlyWhenFramed(raw: Bytes, codec: Codec, chunks: seq<Bytes>, final: FinalRecord)
    ensures Decode(raw, codec) == Whole(chunks, final) <==>
            exists payload :: Fits(chunks) && |payload| < LENGTH_LIMIT
                              && raw == Reply(chunks, payload) && RecordIn(payload, codec) == Some(final)
  {
    if Decode(raw, codec) == Whole(chunks, final) {
      FramedIsAReply(raw);
      var payload := Unframe(raw).payload;
      assert Fits(chunks) && |payload| < LENGTH_LIMIT
             && raw == Reply(chunks, payload) && RecordIn(payload, codec) == Some(final);
    }
    if exists payload :: Fits(chunks) && |payload| < LENGTH_LIMIT
                         && raw == Reply(chunks, payload) && RecordIn(payload, codec) == Some(final) {
      var payload :| Fits(chunks) && |payload| < LENGTH_LIMIT
                     && raw == Reply(chunks, payload) && RecordIn(payload, codec) == Some(final);
      UnframeInvertsReply(chunks, payload);
    }
  }

  /** The split into frames is unique. */
  lemma FramingIsUnique(chunks: seq<Bytes>, payload: Bytes, chunks': seq<Bytes>, payload': Bytes)
    requires Fits(chunks) && |payload| < LENGTH_LIMIT && Fits(chunks') && |payload'| < LENGTH_LIMIT
    requires Reply(chunks, payload) == Reply(chunks', payload')
    ensures chunks == chunks' && payload == payload'
  {
    UnframeInvertsReply(chunks, payload);
    UnframeInvertsReply(chunks', payload');
  }

  lemma {:induction false} NoFramedPrefix(a: Bytes, b: Bytes)
    requires Unframe(a).Framed? && Unframe(b).Framed? && a <= b
    ensures a == b
    decreases |a|
  {
    hide Unframe, Frame, Length;
    var p, restA := FirstFrame(a);
    var q, restB := FirstFrame(b);
    FramesAgree(a, p, restA, b, q, restB);
    if a[0] == BODY { NoFramedPrefix(restA, restB); }
  }

  /** The same head, so the same frame: a prefix and the whole part ways only after it. */
  lemma FramesAgree(a: Bytes, p: Bytes, restA: Bytes, b: Bytes, q: Bytes, restB: Bytes)
    requires |p| < LENGTH_LIMIT && |q| < LENGTH_LIMIT && a <= b
    requires a != [] && b != [] && a == Frame(a[0], p) + restA && b == Frame(b[0], q) + restB
    ensures a[0] == b[0] && p == q && restA <= restB
  {
    UnframeOneFrame(a[0], p, restA);
    UnframeOneFrame(b[0], q, restB);
    hide Frame, Length;
    assert a[1..5] == b[1..5];
  }

  /** A reply cut short, or run on past its end, is never accepted. */
  lemma NoPrefixOrExtensionIsAccepted(a: Bytes, b: Bytes, codec: Codec)
    requires Decode(a, codec).Whole? && (a < b || b < a)
    ensures Decode(b, codec).Malformed?
  {
    if Unframe(b).Framed? {
      if a <= b { NoFramedPrefix(a, b); } else { NoFramedPrefix(b, a); }
    }
  }

  // ---------------------------------------------------------------- the caller's body

  function Joined(chunks: seq<Bytes>): Bytes {
    if chunks == [] then [] else chunks[0] + Joined(chunks[1..])
  }

  /** `proxy_call`'s body, before it is decoded as text; a malformed reply is a fault with none. */
  function BodyKept(reply: Decoded): Option<Bytes> {
    if reply.Malformed? then None
    else if reply.final.bodyWhole then Some(Joined(reply.chunks)) else Some([])
  }

  /** What the proxy sent reaches the caller whole, or not at all. */
  lemma BodyIsWholeOrEmpty(chunks: seq<Bytes>, record: FinalRecord, codec: Codec)
    requires Faithful(codec) && Valid(record)
    requires Fits(chunks) && |codec.dump(AsDocument(record))| < LENGTH_LIMIT
    ensures BodyKept(Decode(Reply(chunks, codec.dump(AsDocument(record))), codec)) ==
            Some(if record.bodyWhole then Joined(chunks) else [])
  {
    DecodeInvertsEncode(chunks, record, codec);
  }
}
