/**
 Two small text machines: the line splitter that watches a child process's output
 (internal/engine/cliairplay.go:471-524), and the decoder of escaped DNS-SD labels
 (internal/discovery/mdns.go:302-333; RFC 1035 section 5.1, RFC 6763 section 4.3). A character stands for one byte.
 */
module TextStreams {
  import opened Text

  // ---- Lines out of chunks ----

  /** The newline-terminated lines of a text, trimmed. */
  function Lines(s: string): seq<string>
    decreases |s|
  {
    var i := Find(s, '\n');
    if i == |s| then [] else [TrimSpace(s[..i])] + Lines(s[i + 1..])
  }

  /** What follows the last newline. */
  function Remainder(s: string): string
    decreases |s|
  {
    var i := Find(s, '\n');
    if i == |s| then s else Remainder(s[i + 1..])
  }

  lemma OneLineOff(line: string, rest: string)
    requires Lacks(line, '\n')
    ensures |Lines(line + "\n" + rest)| == 1 + |Lines(rest)|
    ensures Lines(line + "\n" + rest) == [TrimSpace(line)] + Lines(rest)
    ensures Remainder(line + "\n" + rest) == Remainder(rest)
  {
    FindAfter(line, '\n', rest);
    var s := line + "\n" + rest;
    assert s == line + ['\n'] + rest;
    assert s[..|line|] == line && s[|line| + 1..] == rest;
  }

  /** The first line of a text that has one, and what follows. */
  lemma AtNewline(s: string) returns (line: string, rest: string)
    requires !Lacks(s, '\n')
    ensures Lacks(line, '\n') && s == line + "\n" + rest && |rest| < |s|
  {
    var i := Find(s, '\n');
    assert s[..|s|] == s;
    line, rest := s[..i], s[i + 1..];
  }

  predicate Parted(a: string, b: string) {
    Lines(a + b) == Lines(a) + Lines(Remainder(a) + b) && Remainder(a + b) == Remainder(Remainder(a) + b)
  }

  lemma PrependOne<T>(x: T, a: seq<T>, b: seq<T>)
    ensures [x] + (a + b) == [x] + a + b
  {}

  lemma LineInFront(line: string, rest: string, a: string, b: string)
    requires Lacks(line, '\n') && Parted(rest, b) && a == line + "\n" + rest
    ensures Parted(a, b)
  {
    assert Lines(a) == [TrimSpace(line)] + Lines(rest) && Remainder(a) == Remainder(rest) by {
      OneLineOff(line, rest);
    }
    assert Lines(a + b) == [TrimSpace(line)] + Lines(rest + b) && Remainder(a + b) == Remainder(rest + b) by {
      Glue(line + "\n", rest, b);
      OneLineOff(line, rest + b);
    }
    PrependOne(TrimSpace(line), Lines(rest), Lines(Remainder(rest) + b));
  }

  lemma NoLineInFront(a: string, b: string)
    requires Lacks(a, '\n')
    ensures Parted(a, b)
  {
    FindNone(a, '\n');
  }

  /** Cutting a text anywhere: what the first part leaves over joins the second. */
  lemma {:induction false} LinesOfParts(a: string, b: string)
    ensures Parted(a, b)
    decreases |a|
  {
    if Lacks(a, '\n') {
      NoLineInFront(a, b);
    } else {
      var line, rest := AtNewline(a);
      LinesOfParts(rest, b);
      LineInFront(line, rest, a, b);
    }
  }

  lemma PrefixAddsNoLine(a: string, b: string)
    requires Lacks(a, '\n')
    ensures |Lines(a + b)| == |Lines(b)|
  {
    if Lacks(b, '\n') {
      FindNone(b, '\n');
      FindNone(a + b, '\n');
    } else {
      var line, rest := AtNewline(b);
      assert a + b == (a + line) + "\n" + rest;
      OneLineOff(a + line, rest);
      OneLineOff(line, rest);
    }
  }

  /** How many lines a text has: one for each newline. */
  lemma {:induction false} LineCount(a: string, b: string)
    ensures |Lines(a + b)| == |Lines(a)| + |Lines(b)|
    decreases |a|
  {
    if Lacks(a, '\n') {
      FindNone(a, '\n');
      PrefixAddsNoLine(a, b);
    } else {
      var line, rest := AtNewline(a);
      Glue(line + "\n", rest, b);
      OneLineOff(line, rest);
      OneLineOff(line, rest + b);
      LineCount(rest, b);
    }
  }

  /** The last max characters. */
  function Tail(s: string, max: nat): string { if |s| > max then s[|s| - max..] else s }

  /** What a sequence of writes leaves in the buffer, and what it reports. */
  function Left(chunks: seq<string>, max: nat): string {
    if chunks == [] then "" else Remainder(Tail(Left(chunks[..|chunks| - 1], max) + chunks[|chunks| - 1], max))
  }

  function Report(chunks: seq<string>, max: nat): seq<string> {
    if chunks == [] then []
    else
      var front := chunks[..|chunks| - 1];
      Report(front, max) + Lines(Tail(Left(front, max) + chunks[|chunks| - 1], max))
  }

  function Whole(chunks: seq<string>): string {
    if chunks == [] then "" else Whole(chunks[..|chunks| - 1]) + chunks[|chunks| - 1]
  }

  /** No write finds more in the buffer than it can hold. */
  predicate Fits(chunks: seq<string>, max: nat) {
    chunks == [] ||
    var front := chunks[..|chunks| - 1];
    Fits(front, max) && |Left(front, max)| + |chunks[|chunks| - 1]| <= max
  }

  lemma OneMoreChunk(chunks: seq<string>, p: string, max: nat)
    ensures Left(chunks + [p], max) == Remainder(Tail(Left(chunks, max) + p, max))
    ensures Report(chunks + [p], max) == Report(chunks, max) + Lines(Tail(Left(chunks, max) + p, max))
  {
    assert (chunks + [p])[..|chunks|] == chunks;
  }

  /** However the input is cut into writes, the reported lines are those of the whole. */
  lemma {:induction false} ChunksDoNotMatter(chunks: seq<string>, max: nat)
    requires Fits(chunks, max)
    ensures Report(chunks, max) == Lines(Whole(chunks)) && Left(chunks, max) == Remainder(Whole(chunks))
  {
    if chunks == [] {
    } else {
      var front, last := chunks[..|chunks| - 1], chunks[|chunks| - 1];
      ChunksDoNotMatter(front, max);
      LinesOfParts(Whole(front), last);
    }
  }

  lemma NoLines(s: string)
    ensures |Lines(s)| == 0 <==> Lacks(s, '\n')
  {
    var i := Find(s, '\n');
    assert s[..|s|] == s;
    if i < |s| {
      assert s[i] == '\n';
    }
  }

  /**
   A write that overflows the buffer reports exactly as many lines too few as there are newlines in what is dropped
   from its front; so none is lost iff that part has no newline.
   */
  lemma OverflowLosesLines(data: string, max: nat)
    requires |data| > max
    ensures |Lines(Tail(data, max))| == |Lines(data)| - |Lines(data[..|data| - max])|
    ensures |Lines(Tail(data, max))| == |Lines(data)| <==> Lacks(data[..|data| - max], '\n')
  {
    var dropped := data[..|data| - max];
    assert data == dropped + Tail(data, max);
    LineCount(dropped, Tail(data, max));
    NoLines(dropped);
  }

  /**
   An overflowing write is without consequence, for the lines reported and for the text held back, exactly when the
   part dropped is white space without a newline and a newline is left behind it.
   */
  lemma OverflowIsHarmlessIff(data: string, max: nat)
    requires |data| > max
    ensures var dropped, kept := data[..|data| - max], Tail(data, max);
            Lines(kept) == Lines(data) && Remainder(kept) == Remainder(data)
            <==> !Lacks(kept, '\n') && Lacks(dropped, '\n') && AllSpace(dropped)
  {
    var dropped, kept := data[..|data| - max], Tail(data, max);
    assert data == dropped + kept;
    if !Lacks(dropped, '\n') {
      OverflowLosesLines(data, max);
    } else if Lacks(kept, '\n') {
      FindNone(kept, '\n');
      FindNone(data, '\n');
    } else {
      FirstLineTruncated(dropped, kept);
    }
  }

  lemma FirstLineTruncated(dropped: string, kept: string)
    requires Lacks(dropped, '\n') && !Lacks(kept, '\n')
    ensures Remainder(dropped + kept) == Remainder(kept)
    ensures Lines(kept) == Lines(dropped + kept) <==> AllSpace(dropped)
  {
    var line, rest := AtNewline(kept);
    assert dropped + kept == (dropped + line) + "\n" + rest;
    OneLineOff(line, rest);
    OneLineOff(dropped + line, rest);
    TrimmedAwayIffSpace(dropped, line);
    SameTail(TrimSpace(line), TrimSpace(dropped + line), Lines(rest));
  }

  lemma SameTail<T>(a: T, b: T, rest: seq<T>)
    ensures [a] + rest == [b] + rest <==> a == b
  {
    assert ([a] + rest)[0] == a && ([b] + rest)[0] == b;
  }

  /** extractLines: the lines cut off the front, and the data that is left. */
  method ExtractLines(data: string) returns (lines: seq<string>, left: string)
    ensures lines == Lines(data) && left == Remainder(data)
  {
    lines, left := [], data;
    while true
      invariant lines + Lines(left) == Lines(data) && Remainder(left) == Remainder(data)
      decreases |left|
    {
      var index := IndexByte(left, '\n');
      if index < 0 {
        FindNone(left, '\n');
        return;
      }
      FindIs(left, '\n', index);
      lines := lines + [TrimSpace(left[..index])];
      left := left[index + 1..];
    }
  }

  method IndexByte(data: string, target: char) returns (index: int)
    ensures index < 0 ==> Lacks(data, target)
    ensures index >= 0 ==> index < |data| && data[index] == target && Lacks(data[..index], target)
  {
    for i := 0 to |data|
      invariant Lacks(data[..i], target)
    {
      if data[i] == target {
        return i;
      }
    }
    assert data[..|data|] == data;
    return -1;
  }

  class TailBuffer {
    var data: string
    const max: nat
    ghost var chunks: seq<string>
    ghost var reported: seq<string>

    /** The lines handed to the parser and the text held back are those of the writes so far. */
    ghost predicate Valid()
      reads this
    {
      reported == Report(chunks, max) && data == Left(chunks, max)
    }

    constructor (max: nat)
      ensures Valid() && this.max == max && chunks == []
    {
      this.max, data, chunks, reported := max, "", [], [];
    }

    method Write(p: string) returns (lines: seq<string>)
      requires Valid()
      modifies this
      ensures Valid() && chunks == old(chunks) + [p] && reported == old(reported) + lines
    {
      OneMoreChunk(chunks, p, max);
      data := data + p;
      if |data| > max {
        data := data[|data| - max..];
      }
      lines, data := ExtractLines(data);
      chunks, reported := chunks + [p], reported + lines;
    }

    /** As long as no write overflowed, nothing is lost, cut or reported twice. */
    lemma ReportedIsWhole()
      requires Valid() && Fits(chunks, max)
      ensures reported == Lines(Whole(chunks)) && data == Remainder(Whole(chunks))
    {
      ChunksDoNotMatter(chunks, max);
    }
  }

  // ---- Escaped DNS labels ----

  predicate StartsWithCode(s: string) { |s| >= 3 && IsDigit(s[0]) && IsDigit(s[1]) && IsDigit(s[2]) }

  function Code(s: string): nat
    requires StartsWithCode(s)
  {
    100 * DigitValue(s[0]) + 10 * DigitValue(s[1]) + DigitValue(s[2])
  }

  /** The low eight bits of a code, as Go's byte(code). */
  function ByteChar(code: nat): char { (code % 256) as char }

  /** The label that a text stands for. */
  function Unescape(s: string): string
    decreases |s|
  {
    if s == "" then ""
    else if s[0] != '\\' then [s[0]] + Unescape(s[1..])
    else if |s| == 1 then ""
    else if StartsWithCode(s[1..]) then [ByteChar(Code(s[1..]))] + Unescape(s[4..])
    else [s[1]] + Unescape(s[2..])
  }

  lemma {:induction false} NothingToUnescape(s: string)
    requires Lacks(s, '\\')
    ensures Unescape(s) == s
  {
    if s == "" {
    } else {
      NothingToUnescape(s[1..]);
    }
  }

  lemma PlainAt(s: string, i: nat)
    requires i < |s| && s[i] != '\\'
    ensures Unescape(s[i..]) == [s[i]] + Unescape(s[i + 1..])
  {
    assert s[i..][1..] == s[i + 1..];
  }

  lemma EscapeAt(s: string, i: nat)
    requires i < |s| && s[i] == '\\'
    ensures i + 1 == |s| ==> Unescape(s[i..]) == ""
    ensures i + 1 < |s| && StartsWithCode(s[i + 1..]) ==>
              Unescape(s[i..]) == [ByteChar(Code(s[i + 1..]))] + Unescape(s[i + 4..])
    ensures i + 1 < |s| && !StartsWithCode(s[i + 1..]) ==> Unescape(s[i..]) == [s[i + 1]] + Unescape(s[i + 2..])
  {
    var t := s[i..];
    assert t[1..] == s[i + 1..];
    assert |t| >= 4 ==> t[4..] == s[i + 4..];
    assert |t| >= 2 ==> t[1] == s[i + 1] && t[2..] == s[i + 2..];
  }

  /** One turn of the decoder: what it writes and where it goes on. */
  method DecodeOne(value: string, at: nat) returns (written: string, next: nat)
    requires at < |value|
    ensures at < next <= |value| && Unescape(value[at..]) == written + Unescape(value[next..])
  {
    if value[at] != '\\' {
      PlainAt(value, at);
      return [value[at]], at + 1;
    }
    EscapeAt(value, at);
    var i := at + 1;
    if i >= |value| {
      assert Unescape(value[i..]) == "";
      return "", i;
    }
    if i + 2 < |value| && IsDigit(value[i]) && IsDigit(value[i + 1]) && IsDigit(value[i + 2]) {
      return [ByteChar(Code(value[i..]))], i + 3;
    }
    return [value[i]], i + 1;
  }

  method UnescapeDNSLabel(value: string) returns (text: string)
    ensures text == Unescape(value)
  {
    if Find(value, '\\') == |value| {
      assert value[..|value|] == value;
      NothingToUnescape(value);
      return value;
    }
    text := "";
    var i := 0;
    assert value[0..] == value;
    while i < |value|
      invariant 0 <= i <= |value| && text + Unescape(value[i..]) == Unescape(value)
    {
      var written, next := DecodeOne(value, i);
      Glue(text, written, Unescape(value[next..]));
      text := text + written;
      i := next;
    }
    assert value[|value|..] == "";
  }

  /** Escapes that are none: a backslash at the end is dropped, and a code above 255 counts modulo 256. */
  lemma OddEscapes(a: nat, b: nat, c: nat, rest: string)
    requires a < 10 && b < 10 && c < 10
    ensures Unescape("\\") == ""
    ensures Unescape(['\\', Digit(a), Digit(b), Digit(c)] + rest)
         == [((100 * a + 10 * b + c) % 256) as char] + Unescape(rest)
  {
    var s := ['\\', Digit(a), Digit(b), Digit(c)] + rest;
    assert s[0] == '\\' && s[1..][0] == Digit(a) && s[1..][1] == Digit(b) && s[1..][2] == Digit(c);
    assert s[4..] == rest;
  }

  /** The legal ways to write one character: as it is, behind a backslash, or as three decimal digits. */
  datatype Piece = Plain(c: char) | Quoted(c: char) | Decimal(c: char)

  predicate LegalPiece(p: Piece) {
    match p
    case Plain(c) => c != '\\'
    case Quoted(c) => !IsDigit(c)
    case Decimal(c) => c as int < 256
  }

  function PieceText(p: Piece): string
    requires LegalPiece(p)
  {
    match p
    case Plain(c) => [c]
    case Quoted(c) => ['\\', c]
    case Decimal(c) =>
      var n := c as int;
      ['\\', Digit(n / 100), Digit(n / 10 % 10), Digit(n % 10)]
  }

  predicate Legal(ps: seq<Piece>) { forall i :: 0 <= i < |ps| ==> LegalPiece(ps[i]) }

  function Written(ps: seq<Piece>): string
    requires Legal(ps)
  {
    if ps == [] then "" else PieceText(ps[0]) + Written(ps[1..])
  }

  function Meant(ps: seq<Piece>): string {
    if ps == [] then "" else [ps[0].c] + Meant(ps[1..])
  }

  lemma OnePiece(p: Piece, rest: string)
    requires LegalPiece(p)
    ensures Unescape(PieceText(p) + rest) == [p.c] + Unescape(rest)
  {
    var s := PieceText(p) + rest;
    match p
    case Plain(c) =>
      assert s[0] == c && s[1..] == rest;
    case Quoted(c) =>
      assert s[0] == '\\' && s[1] == c && s[2..] == rest && s[1..][0] == c;
    case Decimal(c) =>
      var n := c as int;
      assert s[0] == '\\' && s[1..] == [Digit(n / 100), Digit(n / 10 % 10), Digit(n % 10)] + rest && s[4..] == rest;
      assert StartsWithCode(s[1..]) && Code(s[1..]) == n;
  }

  /** Every legal mix of plain, quoted and decimal characters decodes to the label it was made from. */
  lemma {:induction false} EveryEscapingIsUndone(ps: seq<Piece>)
    requires Legal(ps)
    ensures Unescape(Written(ps)) == Meant(ps)
  {
    if ps == [] {
    } else {
      EveryEscapingIsUndone(ps[1..]);
      OnePiece(ps[0], Written(ps[1..]));
    }
  }
}
