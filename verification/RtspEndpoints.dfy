/**
 The two ends of the control connection as the repository writes them: buffered readers that consume a stream line by
 line, a client connection that numbers its requests, and printers that iterate a header map in no particular order.
 Each is proved to do what Framing and RtspMessages say, so the round trips there are about these methods.
 */
module RtspEndpoints {
  import opened Words
  import opened Text
  import opened Framing
  import opened RtspMessages

  /** A bufio.Reader over a connection; rest is everything that is still to come before the peer closes. */
  class LineReader {
    var rest: string

    constructor (s: string)
      ensures rest == s
    {
      rest := s;
    }

    method ReadLine() returns (line: Option<string>)
      modifies this
      ensures line.None? <==> TakeLine(old(rest)).None?
      ensures line.Some? ==> TakeLine(old(rest)) == Some((line.value, rest))
    {
      var i := Find(rest, '\n');
      if i == |rest| {
        line, rest := None, "";
      } else {
        line, rest := Some(rest[..i + 1]), rest[i + 1..];
      }
    }

    method ReadFull(n: nat) returns (data: Option<string>)
      modifies this
      ensures n <= |old(rest)| ==> data == Some(old(rest)[..n]) && rest == old(rest)[n..]
      ensures n > |old(rest)| ==> data == None
    {
      if n <= |rest| {
        data, rest := Some(rest[..n]), rest[n..];
      } else {
        data, rest := None, "";
      }
    }

    /** The header loop. */
    method ReadHeaders() returns (headers: Option<Fields>)
      modifies this
      ensures headers.None? <==> ReadFields(old(rest), map[]).None?
      ensures headers.Some? ==> ReadFields(old(rest), map[]) == Some((headers.value, rest))
    {
      var fields: Fields := map[];
      while true
        invariant ReadFields(rest, fields) == ReadFields(old(rest), map[])
        decreases |rest|
      {
        var line := ReadLine();
        if line.None? {
          return None;
        }
        var text := TrimEOL(line.value);
        if text == "" {
          return Some(fields);
        }
        var cut := Cut(text, ':');
        if cut.Some? {
          fields := fields[ToLower(TrimSpace(cut.value.0)) := TrimSpace(cut.value.1)];
        }
      }
    }

    /** Headers, then as many characters of body as a positive Content-Length says. */
    method ReadRemainder() returns (payload: Option<Payload>)
      modifies this
      ensures payload.None? <==> ReadPayload(old(rest)) == Truncated
      ensures payload.Some? ==> ReadPayload(old(rest)) == Done(payload.value, rest)
    {
      var headers := ReadHeaders();
      if headers.None? {
        return None;
      }
      var fields := headers.value;
      if "content-length" in fields {
        var length := Atoi(fields["content-length"]);
        if length.Some? && length.value > 0 {
          var body := ReadFull(length.value);
          return if body.None? then None else Some(Payload(fields, body.value));
        }
      }
      return Some(Payload(fields, ""));
    }

    /** The first line that is not blank. */
    method ReadStartLine() returns (line: Option<string>)
      modifies this
      ensures line.None? <==> ReadStart(old(rest)).None?
      ensures line.Some? ==> ReadStart(old(rest)) == Some((line.value, rest))
    {
      while true
        invariant ReadStart(rest) == ReadStart(old(rest))
        decreases |rest|
      {
        var raw := ReadLine();
        if raw.None? {
          return None;
        }
        if TrimEOL(raw.value) != "" {
          return Some(TrimEOL(raw.value));
        }
      }
    }
  }

  // ---- The receiver's end ----

  /** requestReader.read: the outcome carries what is left on the connection. */
  method ReadOneRequest(reader: LineReader) returns (r: Outcome<Request>)
    modifies reader
    ensures r == ReadRequest(old(reader.rest))
    ensures r.Done? ==> reader.rest == r.rest
  {
    var line := reader.ReadStartLine();
    if line.None? {
      return Truncated;
    }
    var parts := SplitN(line.value, ' ', 3);
    if |parts| < 3 {
      return Malformed;
    }
    var payload := reader.ReadRemainder();
    if payload.None? {
      return Truncated;
    }
    return Done(Request(ToUpper(parts[0]), parts[1], parts[2], payload.value), reader.rest);
  }

  lemma {:induction false} FieldsTextAppend(a: seq<Field>, b: seq<Field>)
    ensures FieldsText(a + b) == FieldsText(a) + FieldsText(b)
  {
    if a == [] {
      assert a + b == b;
    } else {
      assert (a + b)[1..] == a[1..] + b;
      FieldsTextAppend(a[1..], b);
    }
  }

  lemma OneFieldText(field: Field)
    ensures FieldsText([field]) == FieldText(field)
  {
    assert [field][1..] == [];
  }

  /** A message is what a builder accumulates when it is given the header lines in three helpings. */
  lemma InThreeHelpings(start: string, a: seq<Field>, b: seq<Field>, c: seq<Field>, body: string)
    ensures start + "\r\n" + FieldsText(a) + FieldsText(b) + FieldsText(c) + "\r\n" + body
            == MessageText(start, a + b + c, body)
  {
    FieldsTextAppend(a, b);
    FieldsTextAppend(a + b, c);
    var head := start + "\r\n";
    Glue(head, FieldsText(a), FieldsText(b));
    Glue(head, FieldsText(a) + FieldsText(b), FieldsText(c));
  }

  /** Printing a map's entries: the runtime picks the order. */
  method PrintHeaders(headers: Fields) returns (text: string)
    ensures exists order :: Lists(order, headers) && text == FieldsText(order)
  {
    text := "";
    ghost var order: seq<Field> := [];
    var left := headers.Keys;
    while left != {}
      invariant left <= headers.Keys
      invariant forall i :: 0 <= i < |order| ==>
                  order[i].0 in headers && order[i].0 !in left && headers[order[i].0] == order[i].1
      invariant forall i, j :: 0 <= i < j < |order| ==> order[i].0 != order[j].0
      invariant forall key :: key in headers && key !in left ==> exists i :: 0 <= i < |order| && order[i].0 == key
      invariant text == FieldsText(order)
      decreases |left|
    {
      var key :| key in left;
      left := left - {key};
      text := text + FieldText((key, headers[key]));
      ghost var before := order;
      OneFieldText((key, headers[key]));
      FieldsTextAppend(order, [(key, headers[key])]);
      order := order + [(key, headers[key])];
      assert forall i :: 0 <= i < |before| ==> order[i] == before[i];
      assert order[|before|].0 == key;
    }
    assert Lists(order, headers);
  }

  /** writeResponse */
  method WriteResponse(code: nat, message: string, headers: Fields, body: string) returns (payload: string)
    ensures exists order :: Lists(order, headers) && payload == ReplyText(Written(code, message, headers, body, order))
  {
    var text := PROTO + " " + Itoa(code) + " " + message + "\r\n";
    var server := "";
    if "Server" !in headers {
      server := FieldText(("Server", SERVER));
      OneFieldText(("Server", SERVER));
    }
    var entries := PrintHeaders(headers);
    ghost var order :| Lists(order, headers) && entries == FieldsText(order);
    var length := "";
    if |body| > 0 {
      length := FieldText(LengthField(body));
      OneFieldText(LengthField(body));
    }
    payload := text + server + entries + length + "\r\n" + body;
    InThreeHelpings(PROTO + " " + Itoa(code) + " " + message,
                    ServerFields(headers), order, LengthFields(ReplyLength(body)), body);
    assert payload == ReplyText(Written(code, message, headers, body, order));
  }

  // ---- The sender's end ----

  class RtspConn {
    const id: Identity
    const reader: LineReader
    var cseq: nat
    var wire: string
    var pendingRequest: string

    constructor (id: Identity, reader: LineReader)
      ensures this.id == id && this.reader == reader && cseq == 0 && wire == ""
    {
      this.id, this.reader, cseq, wire, pendingRequest := id, reader, 0, "", "";
    }

    /** The header lines that Do writes by itself. */
    method PrintFixed(cseq: nat, contentType: string) returns (text: string)
      ensures text == FieldsText(FixedFields(id, cseq, contentType))
    {
      FixedText(id, cseq, contentType);
      text := FieldText(("CSeq", Itoa(cseq)));
      text := text + FieldText(("DACP-ID", id.dacpID));
      text := text + FieldText(("Active-Remote", Itoa(id.activeRemote)));
      text := text + FieldText(("Client-Instance", id.dacpID));
      text := text + FieldText(("User-Agent", USER_AGENT));
      if contentType != "" {
        text := text + FieldText(("Content-Type", contentType));
      }
    }

    /** The whole request text, for whatever order the header map is iterated in. */
    method PrintRequest(number: nat, verb: string, target: string, contentType: string, headers: Fields,
                        body: Option<string>)
      returns (payload: string)
      ensures exists order :: Lists(order, headers)
                && payload == RequestText(Sent(id, number, verb, target, contentType, headers, body, order))
    {
      var start := verb + " " + target + " " + PROTO;
      var fixed := PrintFixed(number, contentType);
      var entries := PrintHeaders(headers);
      ghost var order :| Lists(order, headers) && entries == FieldsText(order);
      var length := "";
      if body.Some? {
        length := FieldText(LengthField(body.value));
        OneFieldText(LengthField(body.value));
      }
      payload := start + "\r\n" + fixed + entries + length + "\r\n" + Content(body);
      InThreeHelpings(start, FixedFields(id, number, contentType), order, LengthFields(body), Content(body));
      assert payload == RequestText(Sent(id, number, verb, target, contentType, headers, body, order));
    }

    /**
     Do: number the request, print it, write it and wait for its answer. A write that fails may have put any prefix
     on the wire, and the number is used up all the same.
     */
    method Do(verb: string, uri: string, contentType: string, headers: Fields, body: Option<string>)
      returns (reply: Option<Outcome<Reply>>, ghost m: Sent)
      modifies this, reader
      ensures cseq == old(cseq) + 1
      ensures m == Sent(id, old(cseq), verb, if uri == "" then id.URI() else uri, contentType, headers, body, m.order)
      ensures Lists(m.order, headers) && pendingRequest == RequestText(m)
      ensures reply.None? ==> reader.rest == old(reader.rest) && wire <= old(wire) + RequestText(m) && old(wire) <= wire
      ensures reply.Some? ==> wire == old(wire) + RequestText(m)
                              && reply.value == ReadResponse(old(reader.rest), old(cseq))
                              && (reply.value.Done? ==> reader.rest == reply.value.rest)
    {
      var number := cseq;
      cseq := cseq + 1;
      var target := if uri == "" then id.URI() else uri;
      var payload := PrintRequest(number, verb, target, contentType, headers, body);
      ghost var order :| Lists(order, headers)
                         && payload == RequestText(Sent(id, number, verb, target, contentType, headers, body, order));
      m := Sent(id, number, verb, target, contentType, headers, body, order);
      pendingRequest := payload;

      var written: int := *;
      if 0 <= written < |payload| {
        wire := wire + payload[..written];
        return None, m;
      }
      wire := wire + payload;
      var answer := ReadAnswer(number);
      reply := Some(answer);
    }

    /** readResponse: replies that carry another number are read and dropped. */
    method ReadAnswer(expected: nat) returns (r: Outcome<Reply>)
      modifies reader
      ensures r == ReadResponse(old(reader.rest), expected)
      ensures r.Done? ==> reader.rest == r.rest
    {
      while true
        invariant ReadResponse(reader.rest, expected) == ReadResponse(old(reader.rest), expected)
        decreases |reader.rest|
      {
        var answer := ReadOneReply();
        if !answer.Done? {
          return answer;
        }
        var number := Atoi(Get(answer.value.payload.headers, "cseq"));
        if number.None? || number.value == expected {
          return answer;
        }
      }
    }

    method ReadOneReply() returns (r: Outcome<Reply>)
      modifies reader
      ensures r == ReadReply(old(reader.rest))
      ensures r.Done? ==> reader.rest == r.rest
    {
      var line := reader.ReadStartLine();
      if line.None? {
        return Truncated;
      }
      var parts := SplitN(line.value, ' ', 3);
      if |parts| < 2 || Atoi(parts[1]).None? {
        return Malformed;
      }
      var message := if |parts| == 3 then parts[2] else "";
      var payload := reader.ReadRemainder();
      if payload.None? {
        return Truncated;
      }
      return Done(Reply(parts[0], Atoi(parts[1]).value, message, payload.value), reader.rest);
    }
  }

  lemma FixedText(id: Identity, cseq: nat, contentType: string)
    ensures FieldsText(FixedFields(id, cseq, contentType))
            == FieldText(("CSeq", Itoa(cseq))) + FieldText(("DACP-ID", id.dacpID))
               + FieldText(("Active-Remote", Itoa(id.activeRemote))) + FieldText(("Client-Instance", id.dacpID))
               + FieldText(("User-Agent", USER_AGENT))
               + if contentType != "" then FieldText(("Content-Type", contentType)) else ""
  {
    var f := FixedFields(id, cseq, contentType);
    FieldsTextAppend(f[..1], [f[1]]);
    FieldsTextAppend(f[..2], [f[2]]);
    FieldsTextAppend(f[..3], [f[3]]);
    FieldsTextAppend(f[..4], [f[4]]);
    FieldsTextAppend(f[..5], f[5..]);
    assert f[..1] == [f[0]] && f[..1] + [f[1]] == f[..2] && f[..2] + [f[2]] == f[..3];
    assert f[..3] + [f[3]] == f[..4] && f[..4] + [f[4]] == f[..5] && f[..5] + f[5..] == f;
    assert f[5..] == if contentType != "" then [("Content-Type", contentType)] else [];
    OneFieldText(f[0]);
    OneFieldText(f[1]);
    OneFieldText(f[2]);
    OneFieldText(f[3]);
    OneFieldText(f[4]);
    OneFieldText(("Content-Type", contentType));
  }
}
