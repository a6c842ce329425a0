/**
 RTSP/1.0 framing (RFC 2326 sections 6 and 7): how a connection's characters become requests and replies, and how
 they are printed. Both ends of the repository read messages the same way (internal/raop/rtsp.go:129-197 and
 cmd/mockreceiver/rtsp.go:42-104); a character stands for one byte.
 */
module Framing {
  import opened Words
  import opened Text

  type Fields = map<string, string>
  type Field = (string, string)

  /** Reading one message: it succeeded and this is what is left, it is ill-formed, or the connection ended. */
  datatype Outcome<T> = Done(value: T, rest: string) | Malformed | Truncated

  /** What a reader yields when it is asked for one message after another. */
  function ReadMany<T>(read: string -> Outcome<T>, s: string, n: nat): Outcome<seq<T>>
    decreases n
  {
    if n == 0 then Done([], s) else
    match read(s)
    case Malformed => Malformed
    case Truncated => Truncated
    case Done(first, rest) =>
      match ReadMany(read, rest, n - 1)
      case Malformed => Malformed
      case Truncated => Truncated
      case Done(more, left) => Done([first] + more, left)
  }

  function Concat(texts: seq<string>): string {
    if texts == [] then "" else texts[0] + Concat(texts[1..])
  }

  /** A reader that stops at the end of each text reads their concatenation one by one. */
  lemma {:induction false} SelfDelimiting<T>(read: string -> Outcome<T>, texts: seq<string>, values: seq<T>, rest: string)
    requires |texts| == |values|
    requires forall i, tail :: 0 <= i < |texts| ==> read(texts[i] + tail) == Done(values[i], tail)
    ensures ReadMany(read, Concat(texts) + rest, |texts|) == Done(values, rest)
  {
    if texts == [] {
      assert Concat(texts) + rest == rest;
    } else {
      Glue(texts[0], Concat(texts[1..]), rest);
      assert read(texts[0] + (Concat(texts[1..]) + rest)) == Done(values[0], Concat(texts[1..]) + rest);
      forall i, tail | 0 <= i < |texts[1..]|
        ensures read(texts[1..][i] + tail) == Done(values[1..][i], tail)
      {
        assert texts[1..][i] == texts[i + 1];
      }
      SelfDelimiting(read, texts[1..], values[1..], rest);
      assert |texts[1..]| == |texts| - 1 && values == [values[0]] + values[1..];
    }
  }

  /** The first position that holds, or the length. */
  function FirstTrue(taken: seq<bool>): (i: nat)
    ensures i <= |taken| && (i < |taken| ==> taken[i]) && forall k :: 0 <= k < i ==> !taken[k]
  {
    if taken == [] || taken[0] then 0 else 1 + FirstTrue(taken[1..])
  }

  /** On each of the texts, whatever follows, the reader either stops right behind it or passes over it. */
  ghost predicate Sorts<T(!new)>(read: string -> Outcome<T>, texts: seq<string>, taken: seq<bool>, values: seq<T>) {
    && |texts| == |taken| == |values|
    && forall i, tail :: 0 <= i < |texts| ==>
         read(texts[i] + tail) == if taken[i] then Done(values[i], tail) else read(tail)
  }

  /**
   A reader that passes over some texts to their last character and stops right behind the others returns the first
   of those.
   */
  lemma {:induction false} FirstOfThose<T(!new)>(
    read: string -> Outcome<T>, texts: seq<string>, taken: seq<bool>, values: seq<T>, rest: string)
    requires Sorts(read, texts, taken, values)
    ensures var i := FirstTrue(taken);
            read(Concat(texts) + rest)
            == if i < |texts| then Done(values[i], Concat(texts[i + 1..]) + rest) else read(rest)
  {
    if texts == [] {
      assert Concat(texts) + rest == rest;
    } else {
      var later := Concat(texts[1..]) + rest;
      Glue(texts[0], Concat(texts[1..]), rest);
      assert read(texts[0] + later) == if taken[0] then Done(values[0], later) else read(later);
      if !taken[0] {
        forall i, tail | 0 <= i < |texts[1..]|
          ensures read(texts[1..][i] + tail) == if taken[1..][i] then Done(values[1..][i], tail) else read(tail)
        {
          assert texts[1..][i] == texts[i + 1];
        }
        FirstOfThose(read, texts[1..], taken[1..], values[1..], rest);
        assert |texts[1..]| == |texts| - 1;
        var i := FirstTrue(taken);
        assert i < |texts| ==> texts[1..][i..] == texts[i + 1..];
      }
    }
  }

  // ---- Lines, headers and bodies ----

  /** ReadString('\n'): a line with its newline, and what follows. */
  function TakeLine(s: string): (r: Option<(string, string)>)
    ensures r.Some? ==> s == r.value.0 + r.value.1 && |r.value.1| < |s|
  {
    var i := Find(s, '\n');
    if i == |s| then None else Some((s[..i + 1], s[i + 1..]))
  }

  /** One header line read into the map: later lines win, lines without a colon are skipped. */
  function AddLine(fields: Fields, line: string): Fields {
    match Cut(line, ':')
    case None => fields
    case Some((key, value)) => fields[ToLower(TrimSpace(key)) := TrimSpace(value)]
  }

  /** The header lines up to and including the blank one. */
  function ReadFields(s: string, fields: Fields): (r: Option<(Fields, string)>)
    ensures r.Some? ==> |r.value.1| < |s|
    decreases |s|
  {
    match TakeLine(s)
    case None => None
    case Some((raw, rest)) =>
      var line := TrimEOL(raw);
      if line == "" then Some((fields, rest)) else ReadFields(rest, AddLine(fields, line))
  }

  /** The body length that the headers announce: none unless it is a positive decimal number. */
  function Announced(fields: Fields): nat {
    if "content-length" !in fields then 0 else
    match Atoi(fields["content-length"])
    case Some(n) => if n > 0 then n else 0
    case None => 0
  }

  /** The first line that is not blank. */
  function ReadStart(s: string): (r: Option<(string, string)>)
    ensures r.Some? ==> r.value.0 != "" && |r.value.1| < |s|
    decreases |s|
  {
    match TakeLine(s)
    case None => None
    case Some((raw, rest)) => if TrimEOL(raw) == "" then ReadStart(rest) else Some((TrimEOL(raw), rest))
  }

  datatype Payload = Payload(headers: Fields, body: string)

  /** Headers, blank line and body. */
  function ReadPayload(s: string): (r: Outcome<Payload>)
    ensures r.Done? ==> |r.rest| < |s|
  {
    match ReadFields(s, map[])
    case None => Truncated
    case Some((fields, rest)) =>
      var n := Announced(fields);
      if n > |rest| then Truncated else Done(Payload(fields, rest[..n]), rest[n..])
  }

  // ---- Requests ----

  datatype Request = Request(verb: string, uri: string, proto: string, payload: Payload)

  function ReadRequest(s: string): (r: Outcome<Request>)
    ensures r.Done? ==> |r.rest| < |s|
  {
    match ReadStart(s)
    case None => Truncated
    case Some((line, rest)) =>
      var parts := SplitN(line, ' ', 3);
      if |parts| < 3 then Malformed else
      match ReadPayload(rest)
      case Done(payload, left) => Done(Request(ToUpper(parts[0]), parts[1], parts[2], payload), left)
      case Malformed => Malformed
      case Truncated => Truncated
  }

  // ---- Replies ----

  datatype Reply = Reply(proto: string, code: int, message: string, payload: Payload)

  function ReadReply(s: string): (r: Outcome<Reply>)
    ensures r.Done? ==> |r.rest| < |s|
  {
    match ReadStart(s)
    case None => Truncated
    case Some((line, rest)) =>
      var parts := SplitN(line, ' ', 3);
      if |parts| < 2 || Atoi(parts[1]).None? then Malformed else
      match ReadPayload(rest)
      case Done(payload, left) =>
        Done(Reply(parts[0], Atoi(parts[1]).value, if |parts| == 3 then parts[2] else "", payload), left)
      case Malformed => Malformed
      case Truncated => Truncated
  }

  /** A lookup that yields the empty text for a missing key, as Go's map index does. */
  function Get(fields: Fields, key: string): string {
    if key in fields then fields[key] else ""
  }

  /** Whether the reply belongs to some other request: it carries a number, and not ours. */
  predicate AnswersAnother(reply: Reply, cseq: int) {
    var number := Atoi(Get(reply.payload.headers, "cseq"));
    number.Some? && number.value != cseq
  }

  /** The first reply that is not somebody else's. */
  function ReadResponse(s: string, cseq: int): (r: Outcome<Reply>)
    ensures r.Done? ==> |r.rest| < |s|
    decreases |s|
  {
    match ReadReply(s)
    case Done(reply, rest) => if AnswersAnother(reply, cseq) then ReadResponse(rest, cseq) else Done(reply, rest)
    case Malformed => Malformed
    case Truncated => Truncated
  }

  // ---- Printing ----

  function FieldText(field: Field): string { field.0 + ": " + field.1 + "\r\n" }

  function FieldsText(fields: seq<Field>): string {
    if fields == [] then "" else FieldText(fields[0]) + FieldsText(fields[1..])
  }

  /** A start line, the header lines in the order they are written, a blank line and a body. */
  function MessageText(start: string, fields: seq<Field>, body: string): string {
    start + "\r\n" + FieldsText(fields) + "\r\n" + body
  }

  /** Text that survives being printed as a header key or value. */
  predicate IsKey(s: string) { OneLine(s) && Lacks(s, ':') && IsTrimmed(s) }
  predicate IsValue(s: string) { OneLine(s) && IsTrimmed(s) }
  predicate Printable(field: Field) { IsKey(field.0) && IsValue(field.1) }

  predicate AllPrintable(fields: seq<Field>) {
    forall i :: 0 <= i < |fields| ==> Printable(fields[i])
  }

  /** The map that header lines amount to when they are read in this order. */
  function Record(fields: seq<Field>, known: Fields): Fields {
    if fields == [] then known else Record(fields[1..], known[ToLower(fields[0].0) := fields[0].1])
  }

  lemma {:induction false} RecordAppend(a: seq<Field>, b: seq<Field>, known: Fields)
    ensures Record(a + b, known) == Record(b, Record(a, known))
  {
    if a == [] {
      assert a + b == b;
    } else {
      assert (a + b)[1..] == a[1..] + b;
      RecordAppend(a[1..], b, known[ToLower(a[0].0) := a[0].1]);
    }
  }

  lemma RecordLast(fields: seq<Field>, key: string, value: string, known: Fields)
    ensures Record(fields + [(key, value)], known) == Record(fields, known)[ToLower(key) := value]
  {
    var last: seq<Field> := [(key, value)];
    RecordAppend(fields, last, known);
    assert Record(last, Record(fields, known)) == Record(last[1..], Record(fields, known)[ToLower(key) := value]);
  }

  // ---- What was printed is what is read ----

  lemma LineIsRead(line: string, rest: string)
    requires OneLine(line)
    ensures TakeLine(line + "\r\n" + rest) == Some((line + "\r\n", rest)) && TrimEOL(line + "\r\n") == line
  {
    var s := line + "\r\n" + rest;
    assert s == (line + "\r") + ['\n'] + rest;
    FindAfter(line + "\r", '\n', rest);
    assert s[..|line| + 2] == line + "\r\n" && s[|line| + 2..] == rest;
    TrimCRLF(line);
  }

  lemma LineIsAdded(fields: Fields, field: Field)
    requires Printable(field)
    ensures AddLine(fields, field.0 + ": " + field.1) == fields[ToLower(field.0) := field.1]
  {
    assert field.0 + ": " + field.1 == field.0 + [':'] + (" " + field.1);
    CutJoined(field.0, ':', " " + field.1);
    TrimOneSpace(field.1);
  }

  lemma {:induction false} FieldsAreRead(fields: seq<Field>, known: Fields, rest: string)
    requires AllPrintable(fields)
    ensures ReadFields(FieldsText(fields) + "\r\n" + rest, known) == Some((Record(fields, known), rest))
  {
    if fields == [] {
      LineIsRead("", rest);
      assert "" + "\r\n" + rest == FieldsText(fields) + "\r\n" + rest;
    } else {
      var line := fields[0].0 + ": " + fields[0].1;
      var tail := FieldsText(fields[1..]) + "\r\n" + rest;
      assert Printable(fields[0]);
      LineIsRead(line, tail);
      assert line + "\r\n" + tail == FieldsText(fields) + "\r\n" + rest;
      LineIsAdded(known, fields[0]);
      FieldsAreRead(fields[1..], known[ToLower(fields[0].0) := fields[0].1], rest);
    }
  }

  lemma StartIsRead(start: string, rest: string)
    requires OneLine(start) && start != ""
    ensures ReadStart(start + "\r\n" + rest) == Some((start, rest))
  {
    LineIsRead(start, rest);
  }

  /** A message's payload ends exactly where its body does if and only if the headers announce the body's length. */
  lemma PayloadIsRead(fields: seq<Field>, body: string, rest: string)
    requires AllPrintable(fields)
    ensures ReadPayload(FieldsText(fields) + "\r\n" + body + rest) == Done(Payload(Record(fields, map[]), body), rest)
            <==> Announced(Record(fields, map[])) == |body|
  {
    assert FieldsText(fields) + "\r\n" + body + rest == FieldsText(fields) + "\r\n" + (body + rest);
    FieldsAreRead(fields, map[], body + rest);
    assert (body + rest)[..|body|] == body && (body + rest)[|body|..] == rest;
  }

  /** Likewise for the whole message. */
  lemma MessageIsRead(start: string, fields: seq<Field>, body: string, rest: string)
    requires OneLine(start) && start != "" && AllPrintable(fields)
    ensures ReadStart(MessageText(start, fields, body) + rest)
            == Some((start, FieldsText(fields) + "\r\n" + body + rest))
    ensures ReadPayload(FieldsText(fields) + "\r\n" + body + rest) == Done(Payload(Record(fields, map[]), body), rest)
            <==> Announced(Record(fields, map[])) == |body|
  {
    StartOfMessage(start, fields, body, rest);
    PayloadIsRead(fields, body, rest);
  }

  lemma StartOfMessage(start: string, fields: seq<Field>, body: string, rest: string)
    requires OneLine(start) && start != ""
    ensures ReadStart(MessageText(start, fields, body) + rest)
            == Some((start, FieldsText(fields) + "\r\n" + body + rest))
  {
    var tail := FieldsText(fields) + "\r\n" + body + rest;
    assert MessageText(start, fields, body) + rest == start + "\r\n" + tail;
    StartIsRead(start, tail);
  }

  /** The field that a printer appends last to announce its body. */
  function LengthField(body: string): Field { ("Content-Length", Itoa(|body|)) }

  lemma LengthIsAnnounced(fields: seq<Field>, body: string)
    requires |body| < INT64_LIMIT
    ensures Printable(LengthField(body))
    ensures Announced(Record(fields + [LengthField(body)], map[])) == |body|
  {
    ItoaIsWord(|body|);
    AtoiOfItoa(|body|);
    RecordLast(fields, "Content-Length", Itoa(|body|), map[]);
    assert ToLower("Content-Length") == "content-length";
  }

  // ---- A map of headers, written in whatever order the runtime iterates it ----

  /** The fields are the map's entries, each once. */
  ghost predicate Lists(fields: seq<Field>, headers: Fields) {
    && (forall i :: 0 <= i < |fields| ==> fields[i].0 in headers && headers[fields[i].0] == fields[i].1)
    && (forall i, j :: 0 <= i < j < |fields| ==> fields[i].0 != fields[j].0)
    && (forall key :: key in headers ==> exists i :: 0 <= i < |fields| && fields[i].0 == key)
  }

  /** No two keys differ in case only. */
  ghost predicate CaseDistinct(headers: Fields) {
    forall a, b :: a in headers && b in headers && ToLower(a) == ToLower(b) ==> a == b
  }

  predicate Look(k: int) { true }

  /**
   The fields are the entries of a header map, in any order, and the map can be told back from them. (Stated under a
   quantifier that only Look(0) opens, which keeps it shut in proofs that just pass it on.)
   */
  ghost predicate Entries(fields: seq<Field>, headers: Fields) {
    forall k {:trigger Look(k)} :: Look(k) ==>
      Lists(fields, headers) && CaseDistinct(headers) && forall key :: key in headers ==> Printable((key, headers[key]))
  }

  /** The map under lower-case keys (where two keys differ in case only, one of their values). */
  ghost function Lowered(headers: Fields): Fields {
    map low | low in set key | key in headers :: ToLower(key) :: headers[Original(headers, low)]
  }

  ghost function Original(headers: Fields, low: string): (key: string)
    requires exists key :: key in headers && ToLower(key) == low
    ensures key in headers && ToLower(key) == low
  {
    var key :| key in headers && ToLower(key) == low; key
  }

  lemma EntriesArePrintable(fields: seq<Field>, headers: Fields)
    requires Entries(fields, headers)
    ensures AllPrintable(fields)
  {
    assert Look(0);
    assert forall i :: 0 <= i < |fields| ==> fields[i] == (fields[i].0, headers[fields[i].0]);
  }

  ghost predicate Distinct(fields: seq<Field>) {
    forall i, j :: 0 <= i < j < |fields| ==> ToLower(fields[i].0) != ToLower(fields[j].0)
  }

  lemma {:induction false} RecordMeaning(fields: seq<Field>, known: Fields)
    requires Distinct(fields)
    ensures forall i :: 0 <= i < |fields| ==>
              ToLower(fields[i].0) in Record(fields, known) && Record(fields, known)[ToLower(fields[i].0)] == fields[i].1
    ensures forall key :: (forall i :: 0 <= i < |fields| ==> ToLower(fields[i].0) != key) ==>
              (key in Record(fields, known) <==> key in known)
              && (key in known ==> Record(fields, known)[key] == known[key])
  {
    if fields == [] {
    } else {
      var key := ToLower(fields[0].0);
      var more := known[key := fields[0].1];
      var tail := fields[1..];
      assert forall i :: 0 <= i < |tail| ==> tail[i] == fields[i + 1];
      RecordMeaning(tail, more);
      assert forall i :: 1 <= i < |fields| ==> fields[i] == tail[i - 1];
      assert key in Record(tail, more) && Record(tail, more)[key] == fields[0].1;
    }
  }

  /** The order in which a header map is written does not matter. */
  lemma OrderIsIrrelevant(fields: seq<Field>, headers: Fields, known: Fields)
    requires Entries(fields, headers)
    ensures Record(fields, known) == known + Lowered(headers)
  {
    assert Look(0);
    assert Distinct(fields);
    RecordMeaning(fields, known);
    forall key | forall i :: 0 <= i < |fields| ==> ToLower(fields[i].0) != key
      ensures key !in Lowered(headers)
    {
      NotLowered(fields, headers, key);
    }
    forall i | 0 <= i < |fields|
      ensures ToLower(fields[i].0) in Lowered(headers) && Lowered(headers)[ToLower(fields[i].0)] == fields[i].1
    {
      LoweredAt(headers, fields[i].0);
    }
    MergedFields(fields, Record(fields, known), known, Lowered(headers));
  }

  lemma LoweredAt(headers: Fields, key: string)
    requires CaseDistinct(headers) && key in headers
    ensures ToLower(key) in Lowered(headers) && Lowered(headers)[ToLower(key)] == headers[key]
  {
    assert Original(headers, ToLower(key)) == key;
  }

  lemma LoweredHas(headers: Fields, key: string)
    requires key in headers
    ensures ToLower(key) in Lowered(headers)
  {}

  lemma NotAKey(headers: Fields, low: string)
    requires forall key :: key in headers ==> ToLower(key) != low
    ensures low !in Lowered(headers)
  {}

  lemma NotLowered(fields: seq<Field>, headers: Fields, key: string)
    requires Lists(fields, headers)
    requires forall i :: 0 <= i < |fields| ==> ToLower(fields[i].0) != key
    ensures key !in Lowered(headers)
  {}

  lemma MergedFields(fields: seq<Field>, r: Fields, known: Fields, lowered: Fields)
    requires forall i :: 0 <= i < |fields| ==>
               ToLower(fields[i].0) in r && r[ToLower(fields[i].0)] == fields[i].1
    requires forall key :: (forall i :: 0 <= i < |fields| ==> ToLower(fields[i].0) != key) ==>
               (key in r <==> key in known) && (key in known ==> r[key] == known[key]) && key !in lowered
    requires forall i :: 0 <= i < |fields| ==>
               ToLower(fields[i].0) in lowered && lowered[ToLower(fields[i].0)] == fields[i].1
    ensures r == known + lowered
  {
    forall key
      ensures key in r <==> key in known + lowered
      ensures key in r ==> r[key] == (known + lowered)[key]
    {
      if i :| 0 <= i < |fields| && ToLower(fields[i].0) == key {
        assert r[key] == lowered[key];
      }
    }
  }
}
