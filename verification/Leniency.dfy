/**
 What the RTSP code accepts beside what it prints, and what it refuses (internal/raop/rtsp.go:129-197,
 internal/raop/sender.go:785-801, cmd/mockreceiver/rtsp.go:42-104, 136-146): white space, blank lines, spellings of
 numbers, and messages that are ill-formed or cut short.
 */
module Leniency {
  import opened Words
  import opened Text
  import opened Framing
  import Transport

  // ---- White space ----

  lemma {:induction false} TrailingSpace(x: string, b: string)
    requires IsTrimmed(x) && AllSpace(b)
    ensures TrimSpace(x + b) == x
    decreases |b|
  {
    if b == "" {
      assert x + b == x;
    } else if x == "" {
      assert x + b == b;
      TrimKeepsSolid(b);
      NothingSolid(b);
      NothingSolid(TrimSpace(b));
    } else {
      assert (x + b)[..|x + b| - 1] == x + b[..|b| - 1];
      TrailingSpace(x, b[..|b| - 1]);
    }
  }

  /** Trimming takes away the white space around a trimmed text and nothing else. */
  lemma TrimAround(a: string, x: string, b: string)
    requires AllSpace(a) && IsTrimmed(x) && AllSpace(b)
    ensures TrimSpace(a + x + b) == x
  {
    Glue(a, x, b);
    LeadingSpace(a, x + b);
    TrailingSpace(x, b);
  }

  lemma Surrounded(a: string, x: string, b: string, c: char)
    requires AllSpace(a) && Lacks(x, c) && AllSpace(b) && !IsSpace(c)
    ensures Lacks(a + x + b, c)
  {}

  /** A header line means the same with any white space around its key and its value. */
  lemma HeaderSpaces(fields: Fields, a: string, key: string, b: string, c: string, value: string, d: string)
    requires AllSpace(a) && AllSpace(b) && AllSpace(c) && AllSpace(d)
    requires IsTrimmed(key) && Lacks(key, ':') && IsTrimmed(value)
    ensures AddLine(fields, (a + key + b) + [':'] + (c + value + d)) == fields[ToLower(key) := value]
  {
    Surrounded(a, key, b, ':');
    CutJoined(a + key + b, ':', c + value + d);
    TrimAround(a, key, b);
    TrimAround(c, value, d);
  }

  /** A header line without a colon is passed over. */
  lemma NoColonNoHeader(fields: Fields, line: string)
    requires Lacks(line, ':')
    ensures AddLine(fields, line) == fields
  {
    CutNone(line, ':');
  }

  /** A Transport option means the same with any white space around its key, its value and the whole of it. */
  lemma OptionSpaces(options: Fields, a: string, key: string, b: string, c: string, value: string, d: string)
    requires AllSpace(a) && AllSpace(b) && AllSpace(c) && AllSpace(d)
    requires Transport.IsOptionKey(key) && IsTrimmed(value) && value != ""
    ensures Transport.AddOption(options, a + ((key + b) + ['='] + (c + value)) + d) == options[key := value]
  {
    var part := (key + b) + ['='] + (c + value);
    assert part[0] == key[0] && part[|part| - 1] == value[|value| - 1];
    TrimAround(a, part, d);
    Surrounded("", key, b, '=');
    assert "" + key + b == key + b;
    CutJoined(key + b, '=', c + value);
    TrailingSpace(key, b);
    LeadingSpace(c, value);
  }

  // ---- Numbers ----

  lemma {:induction false} ValueAppend(zeros: string, digits: string)
    requires (forall i :: 0 <= i < |zeros| ==> zeros[i] == '0') && AllDigits(digits)
    ensures AllDigits(zeros + digits)
    ensures Value(zeros + digits) == Value(digits)
    decreases |digits|, |zeros|
  {
    if digits == "" {
      assert zeros + digits == zeros;
      if zeros != "" {
        ValueAppend(zeros[..|zeros| - 1], "");
        assert zeros[..|zeros| - 1] + "" == zeros[..|zeros| - 1];
      }
    } else {
      assert (zeros + digits)[..|zeros + digits| - 1] == zeros + digits[..|digits| - 1];
      ValueAppend(zeros, digits[..|digits| - 1]);
    }
  }

  lemma Unsigned(digits: string)
    requires digits != "" && AllDigits(digits)
    ensures Atoi(digits) == if Value(digits) < INT64_LIMIT then Some(Value(digits)) else None
  {
    assert IsDigit(digits[0]);
  }

  lemma Signed(sign: char, digits: string)
    requires sign == '+' || sign == '-'
    requires digits != "" && AllDigits(digits)
    ensures var v := if sign == '-' then -(Value(digits) as int) else Value(digits);
            Atoi([sign] + digits) == if -INT64_LIMIT <= v < INT64_LIMIT then Some(v) else None
  {
    var s := [sign] + digits;
    assert s[1..] == digits && s[0] == sign;
  }

  /** A number may carry leading zeros... */
  lemma ZerosAreNothing(zeros: string, n: nat, digits: string)
    requires (forall i :: 0 <= i < |zeros| ==> zeros[i] == '0') && digits == zeros + Itoa(n)
    ensures digits != "" && AllDigits(digits) && Value(digits) == n
  {
    ValueOfItoa(n);
    ValueAppend(zeros, Itoa(n));
  }

  /** ... and a sign, and is refused exactly where it no longer fits 64 bits. */
  lemma NumberSpellings(zeros: string, n: nat, digits: string)
    requires (forall i :: 0 <= i < |zeros| ==> zeros[i] == '0') && digits == zeros + Itoa(n)
    ensures Atoi(digits) == if n <= 9_223_372_036_854_775_807 then Some(n) else None
    ensures Atoi(['+'] + digits) == if n <= 9_223_372_036_854_775_807 then Some(n) else None
    ensures Atoi(['-'] + digits) == if n <= 9_223_372_036_854_775_808 then Some(-(n as int)) else None
  {
    ZerosAreNothing(zeros, n, digits);
    Unsigned(digits);
    Signed('+', digits);
    Signed('-', digits);
  }

  lemma OddCharacter(s: string, digits: string, k: nat)
    requires digits == if s != "" && (s[0] == '-' || s[0] == '+') then s[1..] else s
    requires k < |digits| && !IsDigit(digits[k])
    ensures Atoi(s) == None
  {}

  /** Nothing else is a number: no digits at all, or anything but a digit behind the first character. */
  lemma NoNumber(a: string, c: char, b: string)
    requires !IsDigit(c) && a != ""
    ensures Atoi("") == Atoi("+") == Atoi("-") == None && Atoi(a + [c] + b) == None
  {
    var s := a + [c] + b;
    assert s[|a|] == c && s[1..][|a| - 1] == c;
    if s[0] == '-' || s[0] == '+' {
      OddCharacter(s, s[1..], |a| - 1);
    } else {
      OddCharacter(s, s, |a|);
    }
  }

  /** A length below zero announces no body, like one that is no number. */
  lemma NegativeLength(fields: Fields, n: nat)
    requires "content-length" in fields && fields["content-length"] == ['-'] + Itoa(n)
    ensures Announced(fields) == 0
  {
    ZerosAreNothing("", n, Itoa(n));
    assert "" + Itoa(n) == Itoa(n);
    Signed('-', Itoa(n));
  }

  // ---- Blank lines, short lines, cut messages ----

  /** Blank lines before a message do not matter, to either end. */
  lemma BlankLinesAreSkipped(s: string)
    ensures ReadRequest("\r\n" + s) == ReadRequest(s) && ReadReply("\r\n" + s) == ReadReply(s)
  {
    LineIsRead("", s);
    assert "" + "\r\n" + s == "\r\n" + s;
  }

  lemma OneWord(a: string, c: char)
    requires Lacks(a, c)
    ensures SplitN(a, c, 3) == [a]
  {
    FindNone(a, c);
  }

  lemma TwoWords(a: string, c: char, b: string)
    requires Lacks(a, c) && Lacks(b, c)
    ensures SplitN(a + [c] + b, c, 3) == [a, b]
  {
    FindAfter(a, c, b);
    FindNone(b, c);
    assert (a + [c] + b)[..|a|] == a && (a + [c] + b)[|a| + 1..] == b;
    assert SplitN(b, c, 2) == [b];
  }

  /** A request line of one or two words is refused. */
  lemma ShortRequestLine(a: string, b: string, rest: string)
    requires OneLine(a) && a != "" && Lacks(a, ' ') && OneLine(b) && Lacks(b, ' ')
    ensures ReadRequest(a + "\r\n" + rest) == Malformed
    ensures ReadRequest(a + [' '] + b + "\r\n" + rest) == Malformed
  {
    StartIsRead(a, rest);
    OneWord(a, ' ');
    StartIsRead(a + [' '] + b, rest);
    TwoWords(a, ' ', b);
  }

  /** The method of a request is raised to upper case. */
  lemma MethodIsRaised(verb: string, uri: string, proto: string, rest: string)
    requires OneLine(verb) && Lacks(verb, ' ') && OneLine(uri) && Lacks(uri, ' ') && OneLine(proto)
    ensures ReadRequest(verb + " " + uri + " " + proto + "\r\n" + ("\r\n" + rest))
         == Done(Request(ToUpper(verb), uri, proto, Payload(map[], "")), rest)
  {
    ThreeWords(verb, uri, proto);
    StartIsRead(verb + " " + uri + " " + proto, "\r\n" + rest);
    NothingAnnounced(rest);
  }

  lemma NothingAnnounced(rest: string)
    ensures ReadPayload("\r\n" + rest) == Done(Payload(map[], ""), rest)
  {
    LineIsRead("", rest);
    assert "" + "\r\n" + rest == "\r\n" + rest;
    assert rest[..0] == "" && rest[0..] == rest;
  }

  /** A status line of one word, or without a number for its code, is refused. */
  lemma NoStatus(proto: string, word: string, rest: string)
    requires OneLine(proto) && proto != "" && Lacks(proto, ' ')
    requires OneLine(word) && Lacks(word, ' ') && Atoi(word) == None
    ensures ReadReply(proto + "\r\n" + rest) == Malformed
    ensures ReadReply(proto + [' '] + word + "\r\n" + rest) == Malformed
  {
    StartIsRead(proto, rest);
    OneWord(proto, ' ');
    StartIsRead(proto + [' '] + word, rest);
    TwoWords(proto, ' ', word);
  }

  /** A status line may do without a message. */
  lemma NoMessage(proto: string, code: nat, rest: string)
    requires OneLine(proto) && proto != "" && Lacks(proto, ' ') && code < INT64_LIMIT
    ensures ReadReply(proto + [' '] + Itoa(code) + "\r\n" + ("\r\n" + rest))
         == Done(Reply(proto, code, "", Payload(map[], "")), rest)
  {
    ItoaIsWord(code);
    AtoiOfItoa(code);
    TwoWords(proto, ' ', Itoa(code));
    StartIsRead(proto + [' '] + Itoa(code), "\r\n" + rest);
    NothingAnnounced(rest);
  }

  /** A connection that ends before the end of a line yields no message. */
  lemma CutInLine(s: string, start: string)
    requires Lacks(s, '\n') && OneLine(start) && start != "" && |SplitN(start, ' ', 3)| == 3
    ensures ReadRequest(s) == Truncated && ReadReply(s) == Truncated
    ensures ReadRequest(start + "\r\n" + s) == Truncated
  {
    FindNone(s, '\n');
    StartIsRead(start, s);
  }

  /** Nor does one that ends before the end of an announced body. */
  lemma CutInBody(start: string, fields: seq<Field>, body: string)
    requires OneLine(start) && start != "" && |SplitN(start, ' ', 3)| == 3
    requires AllPrintable(fields) && Announced(Record(fields, map[])) > |body|
    ensures ReadRequest(MessageText(start, fields, body)) == Truncated
  {
    var text := MessageText(start, fields, body);
    StartOfMessage(start, fields, body, "");
    assert text + "" == text && FieldsText(fields) + "\r\n" + body + "" == FieldsText(fields) + "\r\n" + body;
    FieldsAreRead(fields, map[], body);
    CutPayload(text, start, FieldsText(fields) + "\r\n" + body);
  }

  lemma CutPayload(text: string, start: string, rest: string)
    requires ReadStart(text) == Some((start, rest)) && |SplitN(start, ' ', 3)| == 3 && ReadPayload(rest) == Truncated
    ensures ReadRequest(text) == Truncated
  {}
}
