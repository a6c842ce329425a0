/**
 SETUP over the wire: the Transport header goes through the printer and the parser of RtspMessages, so the ports that
 each end learns are the ones the other printed, whatever else is on the connection
 (internal/raop/sender.go:209-245, cmd/mockreceiver/main.go:567-617).
 */
module Handshake {
  import opened Words
  import opened Text
  import opened Framing
  import opened RtspMessages
  import opened Transport

  lemma {:induction false} JoinIsOneLine(parts: seq<string>)
    requires parts != [] && forall i :: 0 <= i < |parts| ==> OneLine(parts[i]) && parts[i] != ""
    ensures OneLine(Join(parts, ';')) && Join(parts, ';') != ""
    ensures Join(parts, ';')[0] == parts[0][0]
    ensures var last := parts[|parts| - 1]; Join(parts, ';')[|Join(parts, ';')| - 1] == last[|last| - 1]
  {
    if |parts| <= 1 {
    } else {
      JoinIsOneLine(parts[1..]);
      var tail := Join(parts[1..], ';');
      assert Join(parts, ';') == parts[0] + [';'] + tail;
    }
  }

  lemma PortIsOneLine(key: string, port: nat)
    requires OneLine(key)
    ensures OneLine(PortOption(key, port)) && PortOption(key, port) != ""
    ensures !IsSpace(PortOption(key, port)[|PortOption(key, port)| - 1])
  {
    ItoaIsWord(port);
  }

  lemma ModeIsOneLine(words: seq<string>)
    requires words == MODE
    ensures forall i :: 0 <= i < |words| ==> OneLine(words[i]) && words[i] != ""
    ensures words != [] && !IsSpace(words[0][0])
    ensures OneLine("server_port") && OneLine("control_port") && OneLine("timing_port")
  {}

  /** Words, then at least one port: a value that a header can carry. */
  lemma TransportIsValue(words: seq<string>, ports: seq<string>)
    requires words != [] && ports != [] && words[0] != "" && !IsSpace(words[0][0])
    requires forall i :: 0 <= i < |words| ==> OneLine(words[i]) && words[i] != ""
    requires forall i :: 0 <= i < |ports| ==> OneLine(ports[i]) && ports[i] != ""
    requires var last := ports[|ports| - 1]; !IsSpace(last[|last| - 1])
    ensures IsValue(Join(words + ports, ';'))
  {
    JoinIsOneLine(words + ports);
  }

  lemma {:induction false} PortsAreOneLine(ports: seq<(string, nat)>)
    requires ports != [] && forall i :: 0 <= i < |ports| ==> OneLine(ports[i].0)
    ensures forall i :: 0 <= i < |PortParts(ports)| ==> OneLine(PortParts(ports)[i]) && PortParts(ports)[i] != ""
    ensures var parts := PortParts(ports);
            parts != [] && var last := parts[|parts| - 1]; last != "" && !IsSpace(last[|last| - 1])
    decreases |ports|
  {
    PortIsOneLine(ports[0].0, ports[0].1);
    if |ports| > 1 {
      PortsAreOneLine(ports[1..]);
    } else {
      assert PortParts(ports[1..]) == [];
    }
  }

  lemma SenderTransportIsValue(control: nat, timing: nat)
    ensures IsValue(SenderTransport(control, timing))
  {
    ModeIsOneLine(MODE);
    var ports := [("control_port", control), ("timing_port", timing)];
    PortsAreOneLine(ports);
    TransportIsValue(MODE, PortParts(ports));
  }

  lemma ReceiverTransportIsValue(server: nat, control: nat, timing: nat)
    ensures IsValue(ReceiverTransport(server, control, timing))
  {
    ModeIsOneLine(MODE);
    var ports := [("server_port", server), ("control_port", control), ("timing_port", timing)];
    PortsAreOneLine(ports);
    TransportIsValue(MODE, PortParts(ports));
  }

  /** The SETUP request of a sender. */
  function SetupRequest(id: Identity, cseq: nat, control: nat, timing: nat): Sent {
    var transport := SenderTransport(control, timing);
    Sent(id, cseq, "SETUP", id.URI(), "", map["Transport" := transport], None, [("Transport", transport)])
  }

  lemma OneEntry(key: string, value: string)
    requires IsKey(key) && IsValue(value)
    ensures Entries([(key, value)], map[key := value])
  {
    var fields: seq<Field> := [(key, value)];
    var headers: Fields := map[key := value];
    assert fields[0] == (key, value);
    assert Lists(fields, headers);
    assert CaseDistinct(headers);
    assert forall k :: k in headers ==> Printable((k, headers[k]));
  }

  lemma OneHeaderIsExpected(m: Sent, key: string, value: string)
    requires m.headers == map[key := value] && ToLower(key) != "content-length"
    requires m.body.None? && m.contentType == ""
    ensures Get(Expected(m), ToLower(key)) == value && Announced(Expected(m)) == 0
  {
    LoweredAt(m.headers, key);
    NotAKey(m.headers, "content-length");
  }

  lemma TransportKey()
    ensures IsKey("Transport") && ToLower("Transport") == "transport" && "transport" != "content-length"
    ensures OneLine("SETUP") && Lacks("SETUP", ' ') && IsUpper("SETUP")
  {}

  ghost predicate Usable(id: Identity) {
    OneLine(id.URI()) && Lacks(id.URI(), ' ') && OneLine(id.dacpID) && IsTrimmed(id.dacpID)
  }

  lemma SetupIsComplete(id: Identity, cseq: nat, control: nat, timing: nat)
    requires Usable(id)
    ensures Complete(SetupRequest(id, cseq, control, timing))
    ensures Get(Expected(SetupRequest(id, cseq, control, timing)), "transport") == SenderTransport(control, timing)
  {
    SenderTransportIsValue(control, timing);
    TransportKey();
    OneEntry("Transport", SenderTransport(control, timing));
    OneHeaderIsExpected(SetupRequest(id, cseq, control, timing), "Transport", SenderTransport(control, timing));
  }

  lemma SenderPortsAreLearned(transport: string, control: nat, timing: nat)
    requires transport == SenderTransport(control, timing) && control < INT64_LIMIT && timing < INT64_LIMIT
    ensures var options := Options(Split(transport, ';'), map[]);
            PortAt(options, "control_port", 0) == control && PortAt(options, "timing_port", 0) == timing
  {
    SenderPortsAreParsed(control, timing);
    AtoiOfItoa(control);
    AtoiOfItoa(timing);
  }

  /** Whatever follows on the connection, the receiver finds exactly the sender's ports in the request. */
  lemma SetupRequestCarriesPorts(id: Identity, cseq: nat, control: nat, timing: nat, rest: string)
    requires Usable(id) && control < INT64_LIMIT && timing < INT64_LIMIT
    ensures var m := SetupRequest(id, cseq, control, timing);
            var options := Options(Split(Get(Expected(m), "transport"), ';'), map[]);
            && ReadRequest(RequestText(m) + rest) == Done(Received(m), rest)
            && PortAt(options, "control_port", 0) == control && PortAt(options, "timing_port", 0) == timing
  {
    SetupIsComplete(id, cseq, control, timing);
    RequestRoundTrip(SetupRequest(id, cseq, control, timing), rest);
    SenderPortsAreLearned(Get(Expected(SetupRequest(id, cseq, control, timing)), "transport"), control, timing);
  }

  /** A SETUP reply with the request's CSeq, in any order of its headers. */
  ghost predicate IsSetupReply(w: Written, cseq: nat, server: nat, control: nat, timing: nat) {
    && Whole(w) && "CSeq" in w.headers && w.headers["CSeq"] == Itoa(cseq)
    && "Transport" in w.headers && w.headers["Transport"] == ReceiverTransport(server, control, timing)
  }

  lemma ReplyTransport(w: Written, value: string)
    requires Entries(w.order, w.headers) && "Transport" in w.headers && w.headers["Transport"] == value
    ensures Get(ExpectedReply(w), "transport") == value
  {
    assert Look(0);
    TransportKey();
    LoweredAt(w.headers, "Transport");
  }

  lemma ReceiverPortsAreLearned(transport: string, server: nat, control: nat, timing: nat)
    requires transport == ReceiverTransport(server, control, timing)
    requires server < INT64_LIMIT && control < INT64_LIMIT && timing < INT64_LIMIT
    ensures var options := Options(Split(transport, ';'), map[]);
            && PortAt(options, "server_port", 0) == server
            && PortAt(options, "control_port", 0) == control && PortAt(options, "timing_port", 0) == timing
  {
    ReceiverPortsAreParsed(server, control, timing);
    AtoiOfItoa(server);
    AtoiOfItoa(control);
    AtoiOfItoa(timing);
  }

  /** A receiver may leave out the control and timing ports; the sender then keeps its own. */
  lemma PortsAreOptional(words: seq<string>, ports: seq<(string, nat)>, own: int)
    requires words == MODE && |ports| == 1 && ports[0].0 == "server_port" && ports[0].1 < INT64_LIMIT
    ensures var options := Options(Split(Join(words + PortParts(ports), ';'), ';'), map[]);
            && PortAt(options, "server_port", 0) == ports[0].1
            && PortAt(options, "control_port", own) == own && PortAt(options, "timing_port", own) == own
  {
    var mode: Fields := map["interleaved" := "0-1", "mode" := "record"];
    ModeParts();
    ModeTransportIsParsed(words, ports);
    AddOnePort(mode, ports);
    AtoiOfItoa(ports[0].1);
    PortKeysDiffer(mode, Itoa(ports[0].1));
  }

  lemma AddOnePort(known: Fields, ports: seq<(string, nat)>)
    requires |ports| == 1
    ensures AddPorts(known, ports) == known[ports[0].0 := Itoa(ports[0].1)]
  {
    assert ports[1..] == [];
  }

  lemma PortKeysDiffer(mode: Fields, port: string)
    requires mode == map["interleaved" := "0-1", "mode" := "record"]
    ensures "control_port" !in mode["server_port" := port] && "timing_port" !in mode["server_port" := port]
  {}

  // ---- The receiver's own reply ----

  /** What every reply starts from: the request's CSeq and the receiver's name. */
  function BaseHeaders(cseq: nat): Fields { map["CSeq" := Itoa(cseq), "Server" := SERVER] }

  lemma HeaderKeys()
    ensures IsKey("CSeq") && IsKey("Server") && IsKey("Session") && IsKey("Transport") && IsValue(SERVER)
    ensures ToLower("CSeq") == "cseq" && ToLower("Server") == "server" && ToLower("Session") == "session"
    ensures ToLower("Transport") == "transport" && OneLine("OK")
  {}

  lemma LowerKeysDiffer()
    ensures "cseq" != "server" && "cseq" != "session" && "cseq" != "transport" && "server" != "session"
    ensures "server" != "transport" && "session" != "transport"
    ensures "cseq" != "content-length" && "server" != "content-length" && "session" != "content-length"
    ensures "transport" != "content-length"
  {}

  lemma SetupKeys(cseq: nat, session: u32, own: Ports, key: string)
    requires key in SetupHeaders(BaseHeaders(cseq), session, own)
    ensures key == "CSeq" || key == "Server" || key == "Session" || key == "Transport"
  {}

  lemma SetupHeadersAreDistinct(cseq: nat, session: u32, own: Ports)
    ensures CaseDistinct(SetupHeaders(BaseHeaders(cseq), session, own))
  {
    HeaderKeys();
    LowerKeysDiffer();
    var headers := SetupHeaders(BaseHeaders(cseq), session, own);
    forall a, b | a in headers && b in headers && ToLower(a) == ToLower(b)
      ensures a == b
    {
      SetupKeys(cseq, session, own, a);
      SetupKeys(cseq, session, own, b);
    }
  }

  lemma SetupHeadersArePrintable(cseq: nat, session: u32, own: Ports, key: string)
    requires key in SetupHeaders(BaseHeaders(cseq), session, own)
    ensures Printable((key, SetupHeaders(BaseHeaders(cseq), session, own)[key]))
  {
    HeaderKeys();
    SetupKeys(cseq, session, own, key);
    ItoaIsWord(cseq);
    ItoaIsWord(session);
    ReceiverTransportIsValue(own.audio, own.control, own.timing);
  }

  lemma SetupAnnouncesNoBody(w: Written, cseq: nat, session: u32, own: Ports)
    requires w.headers == SetupHeaders(BaseHeaders(cseq), session, own) && w.body == ""
    ensures Announced(ExpectedReply(w)) == 0
  {
    HeaderKeys();
    LowerKeysDiffer();
    forall key | key in w.headers
      ensures ToLower(key) != "content-length"
    {
      SetupKeys(cseq, session, own, key);
    }
    NotAKey(w.headers, "content-length");
  }

  /** The reply that handleSetup builds is complete and answers its request, in whatever order it is printed. */
  lemma OwnReplyAnswers(cseq: nat, session: u32, own: Ports, order: seq<Field>)
    requires Lists(order, SetupHeaders(BaseHeaders(cseq), session, own))
    ensures IsSetupReply(Written(200, "OK", SetupHeaders(BaseHeaders(cseq), session, own), "", order),
                         cseq, own.audio, own.control, own.timing)
  {
    var headers := SetupHeaders(BaseHeaders(cseq), session, own);
    var w := Written(200, "OK", headers, "", order);
    SetupHeadersAreDistinct(cseq, session, own);
    forall key | key in headers
      ensures Printable((key, headers[key]))
    {
      SetupHeadersArePrintable(cseq, session, own, key);
    }
    assert Entries(order, headers);
    SetupAnnouncesNoBody(w, cseq, session, own);
    HeaderKeys();
  }

  /** The sender finds exactly the receiver's ports in the reply, whatever late replies are ahead of it. */
  lemma SetupReplyCarriesPorts(late: seq<Written>, w: Written, cseq: nat,
                              server: nat, control: nat, timing: nat, rest: string)
    requires IsSetupReply(w, cseq, server, control, timing) && cseq < INT64_LIMIT
    requires server < INT64_LIMIT && control < INT64_LIMIT && timing < INT64_LIMIT
    requires AllWhole(late) && AllOthers(Numbers(late), cseq)
    ensures var options := Options(Split(Get(ExpectedReply(w), "transport"), ';'), map[]);
            && ReadResponse(Concat(ReplyTexts(late)) + ReplyText(w) + rest, cseq) == Done(ReplyOf(w), rest)
            && PortAt(options, "server_port", 0) == server
            && PortAt(options, "control_port", 0) == control && PortAt(options, "timing_port", 0) == timing
  {
    assert NumberOf(w) == Some(cseq) by {
      SequenceNumberIsReturned(w);
      AtoiOfItoa(cseq);
    }
    AnswerBehindOthers(late, w, cseq, rest);
    ReplyTransport(w, ReceiverTransport(server, control, timing));
    ReceiverPortsAreLearned(Get(ExpectedReply(w), "transport"), server, control, timing);
  }

  /**
   SETUP as it runs: the receiver's own reply, printed in whatever order its header map is iterated, brings its ports
   to the sender behind any number of replies to other requests.
   */
  lemma OwnReplyCarriesPorts(late: seq<Written>, cseq: nat, session: u32, own: Ports, order: seq<Field>, rest: string)
    requires Lists(order, SetupHeaders(BaseHeaders(cseq), session, own)) && cseq < INT64_LIMIT
    requires own.audio < INT64_LIMIT && own.control < INT64_LIMIT && own.timing < INT64_LIMIT
    requires AllWhole(late) && AllOthers(Numbers(late), cseq)
    ensures var w := Written(200, "OK", SetupHeaders(BaseHeaders(cseq), session, own), "", order);
            var options := Options(Split(Get(ExpectedReply(w), "transport"), ';'), map[]);
            && ReadResponse(Concat(ReplyTexts(late)) + ReplyText(w) + rest, cseq) == Done(ReplyOf(w), rest)
            && PortAt(options, "server_port", 0) == own.audio
            && PortAt(options, "control_port", 0) == own.control && PortAt(options, "timing_port", 0) == own.timing
  {
    var w := Written(200, "OK", SetupHeaders(BaseHeaders(cseq), session, own), "", order);
    OwnReplyAnswers(cseq, session, own, order);
    SetupReplyCarriesPorts(late, w, cseq, own.audio, own.control, own.timing, rest);
  }

  lemma HeaderIsExpected(w: Written, key: string, value: string)
    requires CaseDistinct(w.headers) && key in w.headers && w.headers[key] == value && w.body == ""
    ensures Get(ExpectedReply(w), ToLower(key)) == value
  {
    LoweredAt(w.headers, key);
  }

  /** The reply also carries the session, the receiver's name and the request's CSeq. */
  lemma OwnReplyCarriesSession(w: Written, cseq: nat, session: u32, own: Ports)
    requires w.headers == SetupHeaders(BaseHeaders(cseq), session, own) && w.body == ""
    ensures Get(ExpectedReply(w), "session") == Itoa(session) && Get(ExpectedReply(w), "server") == "AirTunes/130.14"
    ensures Get(ExpectedReply(w), "cseq") == Itoa(cseq)
  {
    SetupHeadersAreDistinct(cseq, session, own);
    HeaderKeys();
    HeaderIsExpected(w, "Session", Itoa(session));
    HeaderIsExpected(w, "Server", SERVER);
    HeaderIsExpected(w, "CSeq", Itoa(cseq));
  }
}
