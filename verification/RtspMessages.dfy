/**
 The messages the two ends exchange: what Do prints (internal/raop/rtsp.go:86-118) and what writeResponse prints
 (cmd/mockreceiver/rtsp.go:113-132), and the proof that the other end reads back exactly that, whatever follows on the
 connection and in whatever order the header map was iterated.
 */
module RtspMessages {
  import opened Words
  import opened Text
  import opened Framing

  const USER_AGENT := "AirPlay/550.10"
  const SERVER := "AirTunes/130.14"
  const PROTO := "RTSP/1.0"

  // ---- Requests ----

  datatype Identity = Identity(dacpID: string, activeRemote: u32, localIP: string, sessionID: u32) {
    function URI(): string { "rtsp://" + localIP + "/" + Itoa(sessionID) }
  }

  /** One call of Do, with the order in which the runtime happened to iterate the header map. */
  datatype Sent = Sent(id: Identity, cseq: nat, verb: string, uri: string, contentType: string, headers: Fields,
                       body: Option<string>, order: seq<Field>)

  function Content(body: Option<string>): string { if body.Some? then body.value else "" }

  function FixedFields(id: Identity, cseq: nat, contentType: string): seq<Field> {
    [("CSeq", Itoa(cseq)), ("DACP-ID", id.dacpID), ("Active-Remote", Itoa(id.activeRemote)),
     ("Client-Instance", id.dacpID), ("User-Agent", USER_AGENT)]
    + if contentType != "" then [("Content-Type", contentType)] else []
  }

  /** The fixed headers under lower-case keys. */
  function OwnHeaders(id: Identity, cseq: nat): Fields {
    map["cseq" := Itoa(cseq), "dacp-id" := id.dacpID, "active-remote" := Itoa(id.activeRemote),
        "client-instance" := id.dacpID, "user-agent" := USER_AGENT]
  }

  function LengthFields(body: Option<string>): seq<Field> {
    if body.Some? then [LengthField(body.value)] else []
  }

  function RequestText(m: Sent): string {
    MessageText(m.verb + " " + m.uri + " " + PROTO,
                FixedFields(m.id, m.cseq, m.contentType) + m.order + LengthFields(m.body), Content(m.body))
  }

  /** Fields that fit on one line, an upper-case method, and no spaces inside the method and the URI. */
  ghost predicate Sendable(m: Sent) {
    && OneLine(m.verb) && Lacks(m.verb, ' ') && IsUpper(m.verb)
    && OneLine(m.uri) && Lacks(m.uri, ' ')
    && OneLine(m.id.dacpID) && IsTrimmed(m.id.dacpID)
    && OneLine(m.contentType) && IsTrimmed(m.contentType)
    && Entries(m.order, m.headers)
    && (m.body.Some? ==> |m.body.value| < INT64_LIMIT)
  }

  /** The headers that a receiver is to find: the caller's override the fixed ones, the body length overrides both. */
  ghost function Expected(m: Sent): Fields {
    OwnHeaders(m.id, m.cseq) + (if m.contentType != "" then map["content-type" := m.contentType] else map[])
    + Lowered(m.headers)
    + if m.body.Some? then map["content-length" := Itoa(|m.body.value|)] else map[]
  }

  ghost function Received(m: Sent): Request {
    Request(m.verb, m.uri, PROTO, Payload(Expected(m), Content(m.body)))
  }

  lemma LowerCaseKeys()
    ensures ToLower("CSeq") == "cseq" && ToLower("DACP-ID") == "dacp-id" && ToLower("Active-Remote") == "active-remote"
    ensures ToLower("Client-Instance") == "client-instance" && ToLower("User-Agent") == "user-agent"
    ensures ToLower("Content-Type") == "content-type" && ToLower("Content-Length") == "content-length"
    ensures ToLower("Server") == "server"
  {}

  lemma FixedAreRecorded(id: Identity, cseq: nat, contentType: string)
    ensures Record(FixedFields(id, cseq, contentType), map[])
            == OwnHeaders(id, cseq) + if contentType != "" then map["content-type" := contentType] else map[]
  {
    LowerCaseKeys();
    var f := FixedFields(id, cseq, contentType);
    RecordLast([], "CSeq", Itoa(cseq), map[]);
    RecordLast(f[..1], "DACP-ID", id.dacpID, map[]);
    RecordLast(f[..2], "Active-Remote", Itoa(id.activeRemote), map[]);
    RecordLast(f[..3], "Client-Instance", id.dacpID, map[]);
    RecordLast(f[..4], "User-Agent", USER_AGENT, map[]);
    RecordLast(f[..5], "Content-Type", contentType, map[]);
    assert [] + [f[0]] == f[..1] && f[..1] + [f[1]] == f[..2] && f[..2] + [f[2]] == f[..3];
    assert f[..3] + [f[3]] == f[..4] && f[..4] + [f[4]] == f[..5];
    assert f == if contentType != "" then f[..5] + [("Content-Type", contentType)] else f[..5];
  }

  lemma KeysArePrintable()
    ensures IsKey("CSeq") && IsKey("DACP-ID") && IsKey("Active-Remote") && IsKey("Client-Instance") && IsKey("User-Agent")
    ensures IsKey("Content-Type") && IsKey("Content-Length") && IsKey("Server") && IsValue(USER_AGENT) && IsValue(SERVER)
  {}

  lemma SentIsPrintable(m: Sent)
    requires Sendable(m)
    ensures AllPrintable(FixedFields(m.id, m.cseq, m.contentType) + m.order + LengthFields(m.body))
  {
    ItoaIsWord(m.cseq);
    ItoaIsWord(m.id.activeRemote);
    ItoaIsWord(|Content(m.body)|);
    KeysArePrintable();
    EntriesArePrintable(m.order, m.headers);
    assert AllPrintable(FixedFields(m.id, m.cseq, m.contentType));
    assert AllPrintable(LengthFields(m.body));
  }

  lemma SentIsRecorded(m: Sent)
    requires Entries(m.order, m.headers)
    ensures Record(FixedFields(m.id, m.cseq, m.contentType) + m.order + LengthFields(m.body), map[]) == Expected(m)
  {
    var fixed := FixedFields(m.id, m.cseq, m.contentType);
    FixedAreRecorded(m.id, m.cseq, m.contentType);
    OrderIsIrrelevant(m.order, m.headers, Record(fixed, map[]));
    RecordAppend(fixed, m.order, map[]);
    LengthIsRecorded(fixed + m.order, m.body);
  }

  lemma LengthIsRecorded(fields: seq<Field>, body: Option<string>)
    ensures Record(fields + LengthFields(body), map[])
            == Record(fields, map[]) + if body.Some? then map["content-length" := Itoa(|body.value|)] else map[]
  {
    LowerCaseKeys();
    if body.Some? {
      RecordLast(fields, "Content-Length", Itoa(|body.value|), map[]);
    } else {
      assert fields + LengthFields(body) == fields;
    }
  }

  /** The body length that a request's own headers announce is the length of its body. */
  ghost predicate Framed(m: Sent) {
    m.body.Some? || Announced(Expected(m)) == 0
  }

  lemma RequestIsRead(verb: string, uri: string, fields: seq<Field>, body: string, rest: string)
    requires OneLine(verb) && Lacks(verb, ' ') && IsUpper(verb) && OneLine(uri) && Lacks(uri, ' ')
    requires AllPrintable(fields)
    ensures ReadRequest(MessageText(verb + " " + uri + " " + PROTO, fields, body) + rest)
            == Done(Request(verb, uri, PROTO, Payload(Record(fields, map[]), body)), rest)
            <==> Announced(Record(fields, map[])) == |body|
  {
    ThreeWords(verb, uri, PROTO);
    MessageIsRead(verb + " " + uri + " " + PROTO, fields, body, rest);
    UpperStays(verb);
  }

  /**
   RFC 2326 section 6: a printed request is read back whole, and reading stops at its last character, exactly when it
   has a body or the caller's own headers announce none. (A Content-Length supplied by the caller is harmless when
   there is a body: the printer's own comes last.)
   */
  lemma RequestRoundTrip(m: Sent, rest: string)
    requires Sendable(m)
    ensures ReadRequest(RequestText(m) + rest) == Done(Received(m), rest) <==> Framed(m)
  {
    var fields := FixedFields(m.id, m.cseq, m.contentType) + m.order + LengthFields(m.body);
    SentIsPrintable(m);
    SentIsRecorded(m);
    RequestIsRead(m.verb, m.uri, fields, Content(m.body), rest);
    if m.body.Some? {
      LengthIsAnnounced(FixedFields(m.id, m.cseq, m.contentType) + m.order, m.body.value);
    }
  }

  ghost predicate Complete(m: Sent) { Sendable(m) && Framed(m) }

  function RequestTexts(ms: seq<Sent>): seq<string> { seq(|ms|, i requires 0 <= i < |ms| => RequestText(ms[i])) }

  ghost function AllReceived(ms: seq<Sent>): seq<Request> { seq(|ms|, i requires 0 <= i < |ms| => Received(ms[i])) }

  /** Requests sent back to back are told apart: each is read whole and none takes a character of the next. */
  lemma PipelinedRequests(ms: seq<Sent>, rest: string)
    requires forall i :: 0 <= i < |ms| ==> Complete(ms[i])
    ensures ReadMany(ReadRequest, Concat(RequestTexts(ms)) + rest, |ms|) == Done(AllReceived(ms), rest)
  {
    forall i, tail | 0 <= i < |ms|
      ensures ReadRequest(RequestTexts(ms)[i] + tail) == Done(AllReceived(ms)[i], tail)
    {
      assert Complete(ms[i]);
      RequestRoundTrip(ms[i], tail);
    }
    SelfDelimiting(ReadRequest, RequestTexts(ms), AllReceived(ms), rest);
  }

  // ---- Replies ----

  /** One call of writeResponse, with the order in which the runtime happened to iterate the header map. */
  datatype Written = Written(code: nat, message: string, headers: Fields, body: string, order: seq<Field>)

  function ServerFields(headers: Fields): seq<Field> {
    if "Server" in headers then [] else [("Server", SERVER)]
  }

  function ReplyLength(body: string): Option<string> { if body == "" then None else Some(body) }

  function ReplyText(w: Written): string {
    MessageText(PROTO + " " + Itoa(w.code) + " " + w.message,
                ServerFields(w.headers) + w.order + LengthFields(ReplyLength(w.body)), w.body)
  }

  ghost predicate Writable(w: Written) {
    && w.code < INT64_LIMIT && OneLine(w.message) && |w.body| < INT64_LIMIT
    && Entries(w.order, w.headers)
  }

  /** The headers a client is to find: a Server header is always there, the caller's if it supplied one. */
  ghost function ExpectedReply(w: Written): Fields {
    map["server" := SERVER] + Lowered(w.headers)
    + if w.body != "" then map["content-length" := Itoa(|w.body|)] else map[]
  }

  ghost function ReplyOf(w: Written): Reply {
    Reply(PROTO, w.code, w.message, Payload(ExpectedReply(w), w.body))
  }

  ghost predicate FramedReply(w: Written) {
    w.body != "" || Announced(ExpectedReply(w)) == 0
  }

  lemma WrittenIsPrintable(w: Written)
    requires Writable(w)
    ensures AllPrintable(ServerFields(w.headers) + w.order + LengthFields(ReplyLength(w.body)))
  {
    ItoaIsWord(|w.body|);
    EntriesArePrintable(w.order, w.headers);
    KeysArePrintable();
  }

  lemma WrittenIsRecorded(w: Written)
    requires Entries(w.order, w.headers)
    ensures Record(ServerFields(w.headers) + w.order + LengthFields(ReplyLength(w.body)), map[]) == ExpectedReply(w)
  {
    var first := ServerFields(w.headers);
    ServerIsRecorded(w.headers);
    OrderIsIrrelevant(w.order, w.headers, Record(first, map[]));
    RecordAppend(first, w.order, map[]);
    LengthIsRecorded(first + w.order, ReplyLength(w.body));
  }

  lemma ServerIsRecorded(headers: Fields)
    ensures Record(ServerFields(headers), map[]) + Lowered(headers) == map["server" := SERVER] + Lowered(headers)
  {
    LowerCaseKeys();
    if "Server" in headers {
      LoweredHas(headers, "Server");
    } else {
      RecordLast([], "Server", SERVER, map[]);
      assert ServerFields(headers) == [] + [("Server", SERVER)];
    }
  }

  lemma StatusLineIsRead(code: nat, message: string)
    requires code < INT64_LIMIT && OneLine(message)
    ensures OneLine(PROTO + " " + Itoa(code) + " " + message) && PROTO + " " + Itoa(code) + " " + message != ""
    ensures SplitN(PROTO + " " + Itoa(code) + " " + message, ' ', 3) == [PROTO, Itoa(code), message]
    ensures Atoi(Itoa(code)) == Some(code)
  {
    ItoaIsWord(code);
    AtoiOfItoa(code);
    ThreeWords(PROTO, Itoa(code), message);
  }

  lemma ReplyIsRead(code: nat, message: string, fields: seq<Field>, body: string, rest: string)
    requires code < INT64_LIMIT && OneLine(message) && AllPrintable(fields)
    ensures ReadReply(MessageText(PROTO + " " + Itoa(code) + " " + message, fields, body) + rest)
            == Done(Reply(PROTO, code, message, Payload(Record(fields, map[]), body)), rest)
            <==> Announced(Record(fields, map[])) == |body|
  {
    StatusLineIsRead(code, message);
    MessageIsRead(PROTO + " " + Itoa(code) + " " + message, fields, body, rest);
  }

  /** RFC 2326 section 7: the same for replies; the condition is that an empty body is not announced as something else. */
  lemma ReplyRoundTrip(w: Written, rest: string)
    requires Writable(w)
    ensures ReadReply(ReplyText(w) + rest) == Done(ReplyOf(w), rest) <==> FramedReply(w)
  {
    WrittenIsPrintable(w);
    WrittenIsRecorded(w);
    ReplyIsRead(w.code, w.message, ServerFields(w.headers) + w.order + LengthFields(ReplyLength(w.body)), w.body, rest);
    if w.body != "" {
      LengthIsAnnounced(ServerFields(w.headers) + w.order, w.body);
    }
  }

  // ---- Matching replies to requests ----

  function ReplyTexts(ws: seq<Written>): seq<string> { seq(|ws|, i requires 0 <= i < |ws| => ReplyText(ws[i])) }

  ghost function RepliesOf(ws: seq<Written>): seq<Reply> { seq(|ws|, i requires 0 <= i < |ws| => ReplyOf(ws[i])) }

  ghost predicate Whole(w: Written) { Writable(w) && FramedReply(w) }

  /** Complete replies only (asked for one by one, by Look). */
  ghost predicate AllWhole(ws: seq<Written>) {
    forall k {:trigger Look(k)} :: 0 <= k < |ws| && Look(k) ==> Whole(ws[k])
  }

  /** The number the client reads out of the reply's CSeq header, however it is spelled. */
  ghost function NumberOf(w: Written): Option<int> { Atoi(Get(ExpectedReply(w), "cseq")) }

  /** A reply is taken as the answer, and reading stops right behind it, iff it does not carry another number. */
  lemma TakenIffNotAnothers(w: Written, cseq: int, rest: string)
    requires Whole(w)
    ensures ReadResponse(ReplyText(w) + rest, cseq) == Done(ReplyOf(w), rest)
            <==> NumberOf(w).None? || NumberOf(w) == Some(cseq)
    ensures NumberOf(w).Some? && NumberOf(w) != Some(cseq) ==>
              ReadResponse(ReplyText(w) + rest, cseq) == ReadResponse(rest, cseq)
  {
    ReplyRoundTrip(w, rest);
  }

  ghost function Numbers(ws: seq<Written>): seq<Option<int>> {
    seq(|ws|, i requires 0 <= i < |ws| => NumberOf(ws[i]))
  }

  predicate AllOthers(numbers: seq<Option<int>>, cseq: int) {
    forall k :: 0 <= k < |numbers| ==> numbers[k].Some? && numbers[k] != Some(cseq)
  }

  /** Which replies are taken as the answer. */
  ghost function Taken(ws: seq<Written>, cseq: int): seq<bool> {
    var numbers := Numbers(ws);
    seq(|ws|, i requires 0 <= i < |ws| => numbers[i].None? || numbers[i] == Some(cseq))
  }

  /**
   On any stream of complete replies: what comes back is the first one that carries no other number, everything before
   it is passed over to the last character, and reading stops right behind it. Without one, reading goes on behind
   the stream.
   */
  lemma FirstTakenIsReturned(ws: seq<Written>, cseq: int, rest: string)
    requires AllWhole(ws)
    ensures var i := FirstTrue(Taken(ws, cseq));
            ReadResponse(Concat(ReplyTexts(ws)) + rest, cseq)
            == if i < |ws| then Done(RepliesOf(ws)[i], Concat(ReplyTexts(ws)[i + 1..]) + rest)
               else ReadResponse(rest, cseq)
  {
    var read := RepliesAreSorted(ws, cseq);
    FirstOfThose(read, ReplyTexts(ws), Taken(ws, cseq), RepliesOf(ws), rest);
    assert read(rest) == ReadResponse(rest, cseq);
  }

  /** readResponse, waiting for the answer to one request, either takes a reply or passes over it. */
  lemma RepliesAreSorted(ws: seq<Written>, cseq: int) returns (read: string -> Outcome<Reply>)
    requires AllWhole(ws)
    ensures Sorts(read, ReplyTexts(ws), Taken(ws, cseq), RepliesOf(ws))
    ensures forall s {:trigger read(s)} :: read(s) == ReadResponse(s, cseq)
  {
    read := s => ReadResponse(s, cseq);
    forall i, tail | 0 <= i < |ws|
      ensures read(ReplyTexts(ws)[i] + tail)
              == if Taken(ws, cseq)[i] then Done(RepliesOf(ws)[i], tail) else read(tail)
    {
      OneOfThem(ws, cseq, i, tail);
    }
  }

  lemma OneOfThem(ws: seq<Written>, cseq: int, i: nat, tail: string)
    requires i < |ws| && AllWhole(ws)
    ensures ReadResponse(ReplyTexts(ws)[i] + tail, cseq)
            == if Taken(ws, cseq)[i] then Done(RepliesOf(ws)[i], tail) else ReadResponse(tail, cseq)
  {
    assert Look(i);
    TakenIffNotAnothers(ws[i], cseq, tail);
  }

  /**
   Reply matching is right exactly as long as replies are numbered: where a reply with our CSeq is on the stream, the
   reply that FirstTakenIsReturned says comes back carries our CSeq, and is the first that does, if and only if no
   reply without a number comes before it.
   */
  lemma OursIffNoneUnnumberedBefore(ws: seq<Written>, cseq: int, ours: nat)
    requires ours < |ws| && Numbers(ws)[ours] == Some(cseq)
    requires forall k :: 0 <= k < ours ==> Numbers(ws)[k] != Some(cseq)
    ensures var i := FirstTrue(Taken(ws, cseq));
            && i <= ours
            && (Numbers(ws)[i] == Some(cseq) <==> forall k :: 0 <= k < ours ==> Numbers(ws)[k].Some?)
            && (Numbers(ws)[i] == Some(cseq) <==> i == ours)
  {
    FirstIsOurs(Numbers(ws), Taken(ws, cseq), cseq, ours);
  }

  lemma FirstIsOurs(numbers: seq<Option<int>>, taken: seq<bool>, cseq: int, ours: nat)
    requires |numbers| == |taken| && ours < |numbers| && numbers[ours] == Some(cseq)
    requires forall i :: 0 <= i < |taken| ==> (taken[i] <==> numbers[i].None? || numbers[i] == Some(cseq))
    requires forall k :: 0 <= k < ours ==> numbers[k] != Some(cseq)
    ensures var i := FirstTrue(taken);
            && i <= ours
            && (numbers[i] == Some(cseq) <==> forall k :: 0 <= k < ours ==> numbers[k].Some?)
            && (numbers[i] == Some(cseq) <==> i == ours)
  {
    assert taken[ours];
  }

  /**
   One exchange (cmd/mockreceiver/main.go:454-456): a receiver that reads the request and puts the CSeq it found into its
   reply is understood, whatever replies to other requests are still ahead of it on the connection.
   */
  lemma ExchangeSucceeds(m: Sent, behind: string, late: seq<Written>, w: Written, rest: string)
    requires Complete(m) && m.cseq < INT64_LIMIT
    requires forall key :: key in m.headers ==> ToLower(key) != "cseq"
    requires AllWhole(late) && AllOthers(Numbers(late), m.cseq)
    requires Whole(w) && "CSeq" in w.headers
    requires ReadRequest(RequestText(m) + behind).Done? ==>
               w.headers["CSeq"] == Get(ReadRequest(RequestText(m) + behind).value.payload.headers, "cseq")
    ensures ReadRequest(RequestText(m) + behind) == Done(Received(m), behind)
    ensures ReadResponse(Concat(ReplyTexts(late)) + ReplyText(w) + rest, m.cseq) == Done(ReplyOf(w), rest)
  {
    RequestRoundTrip(m, behind);
    SequenceNumberIsKept(m);
    SequenceNumberIsReturned(w);
    AtoiOfItoa(m.cseq);
    AnswerBehindOthers(late, w, m.cseq, rest);
  }

  lemma AnswerBehindOthers(late: seq<Written>, w: Written, cseq: int, rest: string)
    requires AllWhole(late) && AllOthers(Numbers(late), cseq)
    requires Whole(w) && NumberOf(w) == Some(cseq)
    ensures ReadResponse(Concat(ReplyTexts(late)) + ReplyText(w) + rest, cseq) == Done(ReplyOf(w), rest)
  {
    Glue(Concat(ReplyTexts(late)), ReplyText(w), rest);
    OthersArePassedOver(late, cseq, ReplyText(w) + rest);
    TakenIffNotAnothers(w, cseq, rest);
  }

  lemma OthersArePassedOver(late: seq<Written>, cseq: int, rest: string)
    requires AllWhole(late) && AllOthers(Numbers(late), cseq)
    ensures ReadResponse(Concat(ReplyTexts(late)) + rest, cseq) == ReadResponse(rest, cseq)
  {
    NoneTaken(Numbers(late), Taken(late, cseq), cseq);
    FirstTakenIsReturned(late, cseq, rest);
  }

  lemma NoneTaken(numbers: seq<Option<int>>, taken: seq<bool>, cseq: int)
    requires |numbers| == |taken| && AllOthers(numbers, cseq)
    requires forall i :: 0 <= i < |taken| ==> (taken[i] <==> numbers[i].None? || numbers[i] == Some(cseq))
    ensures FirstTrue(taken) == |taken|
  {}

  lemma OwnIsKept(m: Sent, own: Fields, key: string)
    requires own == OwnHeaders(m.id, m.cseq) && key in own && key != "content-type" && key != "content-length"
    requires forall k :: k in m.headers ==> ToLower(k) != key
    ensures Get(Expected(m), key) == own[key]
  {
    NotAKey(m.headers, key);
  }

  lemma OwnKeys(id: Identity, cseq: nat, own: Fields)
    requires own == OwnHeaders(id, cseq)
    ensures "cseq" in own && own["cseq"] == Itoa(cseq) && "dacp-id" in own && own["dacp-id"] == id.dacpID
    ensures "active-remote" in own && own["active-remote"] == Itoa(id.activeRemote)
    ensures "client-instance" in own && own["client-instance"] == id.dacpID
    ensures "user-agent" in own && own["user-agent"] == "AirPlay/550.10"
    ensures forall key :: key in own ==> key != "content-type" && key != "content-length"
  {}

  lemma SequenceNumberIsKept(m: Sent)
    requires forall key :: key in m.headers ==> ToLower(key) != "cseq"
    ensures Get(Expected(m), "cseq") == Itoa(m.cseq)
  {
    var own := OwnHeaders(m.id, m.cseq);
    OwnKeys(m.id, m.cseq, own);
    OwnIsKept(m, own, "cseq");
  }

  /**
   What every request says about the sender, wherever the caller's own headers leave it alone: the DACP identity twice,
   the remote's number and the program.
   */
  lemma IdentityIsKept(m: Sent)
    requires forall key :: key in m.headers ==> ToLower(key) !in OwnHeaders(m.id, m.cseq)
    ensures Get(Expected(m), "dacp-id") == Get(Expected(m), "client-instance") == m.id.dacpID
    ensures Get(Expected(m), "active-remote") == Itoa(m.id.activeRemote)
    ensures Get(Expected(m), "user-agent") == "AirPlay/550.10" && Received(m).proto == "RTSP/1.0"
  {
    var own := OwnHeaders(m.id, m.cseq);
    OwnKeys(m.id, m.cseq, own);
    OwnIsKept(m, own, "dacp-id");
    OwnIsKept(m, own, "client-instance");
    OwnIsKept(m, own, "active-remote");
    OwnIsKept(m, own, "user-agent");
  }

  lemma ContentTypeIsKept(m: Sent)
    requires forall key :: key in m.headers ==> ToLower(key) != "content-type"
    ensures Get(Expected(m), "content-type") == m.contentType
  {
    NotAKey(m.headers, "content-type");
    OwnKeys(m.id, m.cseq, OwnHeaders(m.id, m.cseq));
    assert "content-type" != "content-length";
  }

  lemma SequenceNumberIsReturned(w: Written)
    requires Entries(w.order, w.headers) && "CSeq" in w.headers
    ensures Get(ExpectedReply(w), "cseq") == w.headers["CSeq"]
  {
    assert Look(0);
    LowerCaseKeys();
    LoweredAt(w.headers, "CSeq");
  }
}
