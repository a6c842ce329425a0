/** The string helpers of Go's strings and strconv packages that the RTSP code uses, on ASCII text. */
module Text {

  import opened Words

  const INT64_LIMIT := 0x8000_0000_0000_0000

  predicate IsSpace(c: char) { c == ' ' || 9 <= c as int <= 13 }

  predicate IsEOL(c: char) { c == '\r' || c == '\n' }

  /** One line's worth of text: nothing in it ends a line. */
  predicate OneLine(s: string) {
    forall i :: 0 <= i < |s| ==> !IsEOL(s[i])
  }

  predicate Lacks(s: string, c: char) {
    forall i :: 0 <= i < |s| ==> s[i] != c
  }

  predicate IsTrimmed(s: string) {
    s == "" || (!IsSpace(s[0]) && !IsSpace(s[|s| - 1]))
  }

  lemma Glue(a: string, b: string, c: string)
    ensures a + b + c == a + (b + c)
  {}

  /** strings.TrimSpace */
  function TrimSpace(s: string): (t: string)
    ensures IsTrimmed(t) && |t| <= |s|
    ensures IsTrimmed(s) ==> t == s
  {
    if s == "" then s
    else if IsSpace(s[0]) then TrimSpace(s[1..])
    else if IsSpace(s[|s| - 1]) then TrimSpace(s[..|s| - 1])
    else s
  }

  predicate AllSpace(s: string) { forall i :: 0 <= i < |s| ==> IsSpace(s[i]) }

  /** How many characters are no white space. */
  function Solid(s: string): nat {
    if s == "" then 0 else Solid(s[..|s| - 1]) + if IsSpace(s[|s| - 1]) then 0 else 1
  }

  lemma {:induction false} SolidAppend(a: string, b: string)
    ensures Solid(a + b) == Solid(a) + Solid(b)
  {
    if b == "" {
      assert a + b == a;
    } else {
      assert (a + b)[..|a + b| - 1] == a + b[..|b| - 1];
      SolidAppend(a, b[..|b| - 1]);
    }
  }

  lemma {:induction false} TrimKeepsSolid(s: string)
    ensures Solid(TrimSpace(s)) == Solid(s)
    decreases |s|
  {
    if s == "" {
    } else {
      if IsSpace(s[0]) {
        assert s == s[..1] + s[1..];
        SolidAppend(s[..1], s[1..]);
        assert s[..1][..0] == "";
        TrimKeepsSolid(s[1..]);
      } else if IsSpace(s[|s| - 1]) {
        TrimKeepsSolid(s[..|s| - 1]);
      }
    }
  }

  lemma {:induction false} NothingSolid(s: string)
    ensures Solid(s) == 0 <==> AllSpace(s)
  {
    if s == "" {
    } else {
      NothingSolid(s[..|s| - 1]);
    }
  }

  lemma {:induction false} LeadingSpace(x: string, s: string)
    requires AllSpace(x)
    ensures TrimSpace(x + s) == TrimSpace(s)
  {
    if x == "" {
      assert x + s == s;
    } else {
      assert (x + s)[1..] == x[1..] + s;
      LeadingSpace(x[1..], s);
    }
  }

  /** Text put in front disappears in trimming iff it is white space. */
  lemma TrimmedAwayIffSpace(x: string, s: string)
    ensures TrimSpace(x + s) == TrimSpace(s) <==> AllSpace(x)
  {
    if AllSpace(x) {
      LeadingSpace(x, s);
    } else {
      TrimKeepsSolid(x + s);
      TrimKeepsSolid(s);
      SolidAppend(x, s);
      NothingSolid(x);
    }
  }

  lemma TrimOneSpace(s: string)
    requires IsTrimmed(s)
    ensures TrimSpace(" " + s) == s
  {
    assert (" " + s)[1..] == s;
  }

  /** strings.TrimRight(s, "\r\n") */
  function TrimEOL(s: string): string {
    if s != "" && IsEOL(s[|s| - 1]) then TrimEOL(s[..|s| - 1]) else s
  }

  lemma TrimCRLF(line: string)
    requires OneLine(line)
    ensures TrimEOL(line + "\r\n") == line
  {
    assert (line + "\r\n")[..|line| + 1] == line + "\r";
    assert (line + "\r")[..|line|] == line;
    assert TrimEOL(line) == line;
    assert TrimEOL(line + "\r") == line;
  }

  function LowerChar(c: char): char { if 'A' <= c <= 'Z' then c + ' ' else c }

  function UpperChar(c: char): char { if 'a' <= c <= 'z' then c - ' ' else c }

  /** strings.ToLower and strings.ToUpper */
  function ToLower(s: string): string { seq(|s|, i requires 0 <= i < |s| => LowerChar(s[i])) }

  function ToUpper(s: string): string { seq(|s|, i requires 0 <= i < |s| => UpperChar(s[i])) }

  predicate IsUpper(s: string) { forall i :: 0 <= i < |s| ==> UpperChar(s[i]) == s[i] }

  lemma UpperStays(s: string)
    requires IsUpper(s)
    ensures ToUpper(s) == s
  {}

  /** The first position of c, or the length of the text. */
  function Find(s: string, c: char): (i: nat)
    ensures i <= |s| && Lacks(s[..i], c) && (i < |s| ==> s[i] == c)
  {
    if s == "" || s[0] == c then 0 else
    var j := Find(s[1..], c);
    assert s[..j + 1] == [s[0]] + s[1..][..j];
    j + 1
  }

  lemma FindIs(s: string, c: char, i: nat)
    requires i <= |s| && Lacks(s[..i], c) && (i < |s| ==> s[i] == c)
    ensures Find(s, c) == i
  {
    var j := Find(s, c);
    assert forall k :: 0 <= k < i ==> s[..i][k] == s[k];
    assert forall k :: 0 <= k < j ==> s[..j][k] == s[k];
  }

  lemma FindAfter(a: string, c: char, b: string)
    requires Lacks(a, c)
    ensures Find(a + [c] + b, c) == |a|
  {
    assert (a + [c] + b)[..|a|] == a;
    FindIs(a + [c] + b, c, |a|);
  }

  lemma FindNone(a: string, c: char)
    requires Lacks(a, c)
    ensures Find(a, c) == |a|
  {
    assert a[..|a|] == a;
    FindIs(a, c, |a|);
  }

  /** strings.Cut by one character: None when it does not occur. */
  function Cut(s: string, c: char): Option<(string, string)> {
    var i := Find(s, c);
    if i < |s| then Some((s[..i], s[i + 1..])) else None
  }

  lemma CutJoined(a: string, c: char, b: string)
    requires Lacks(a, c)
    ensures Cut(a + [c] + b, c) == Some((a, b))
  {
    FindAfter(a, c, b);
    assert (a + [c] + b)[..|a|] == a && (a + [c] + b)[|a| + 1..] == b;
  }

  lemma CutNone(s: string, c: char)
    requires Lacks(s, c)
    ensures Cut(s, c) == None
  {
    FindNone(s, c);
  }

  /** strings.SplitN(s, c, n): at most n pieces, the last one unsplit. */
  function SplitN(s: string, c: char, n: nat): seq<string>
    requires n > 0
    decreases n
  {
    var i := Find(s, c);
    if n == 1 || i == |s| then [s] else [s[..i]] + SplitN(s[i + 1..], c, n - 1)
  }

  lemma SplitThree(a: string, c: char, b: string, rest: string)
    requires Lacks(a, c) && Lacks(b, c)
    ensures SplitN(a + [c] + b + [c] + rest, c, 3) == [a, b, rest]
  {
    var s := a + [c] + (b + [c] + rest);
    assert s == a + [c] + b + [c] + rest;
    FindAfter(a, c, b + [c] + rest);
    FindAfter(b, c, rest);
    assert s[..|a|] == a && s[|a| + 1..] == b + [c] + rest;
    assert (b + [c] + rest)[..|b|] == b && (b + [c] + rest)[|b| + 1..] == rest;
    assert SplitN(rest, c, 1) == [rest];
    assert SplitN(b + [c] + rest, c, 2) == [b] + SplitN(rest, c, 1);
    assert SplitN(s, c, 3) == [a] + SplitN(b + [c] + rest, c, 2);
  }

  lemma ThreeWords(a: string, b: string, rest: string)
    requires OneLine(a) && Lacks(a, ' ') && OneLine(b) && Lacks(b, ' ') && OneLine(rest)
    ensures OneLine(a + " " + b + " " + rest) && a + " " + b + " " + rest != ""
    ensures SplitN(a + " " + b + " " + rest, ' ', 3) == [a, b, rest]
  {
    SplitThree(a, ' ', b, rest);
    assert a + [' '] + b + [' '] + rest == a + " " + b + " " + rest;
  }

  /** strings.Split by one character. */
  function Split(s: string, c: char): seq<string>
    decreases |s|
  {
    var i := Find(s, c);
    if i == |s| then [s] else [s[..i]] + Split(s[i + 1..], c)
  }

  function Join(parts: seq<string>, c: char): string
    requires parts != []
  {
    if |parts| == 1 then parts[0] else parts[0] + [c] + Join(parts[1..], c)
  }

  predicate AllLack(parts: seq<string>, c: char) {
    forall i :: 0 <= i < |parts| ==> Lacks(parts[i], c)
  }

  lemma {:induction false} SplitJoined(parts: seq<string>, c: char)
    requires parts != [] && AllLack(parts, c)
    ensures Split(Join(parts, c), c) == parts
  {
    if |parts| == 1 {
      FindNone(parts[0], c);
    } else {
      SplitJoined(parts[1..], c);
      FindAfter(parts[0], c, Join(parts[1..], c));
      var s := parts[0] + [c] + Join(parts[1..], c);
      assert s[..|parts[0]|] == parts[0] && s[|parts[0]| + 1..] == Join(parts[1..], c);
    }
  }

  // ---- Decimal numbers ----

  function Digit(d: nat): char
    requires d < 10
  {
    '0' + d as char
  }

  predicate IsDigit(c: char) { '0' <= c <= '9' }

  predicate AllDigits(s: string) { forall i :: 0 <= i < |s| ==> IsDigit(s[i]) }

  /** fmt's %d for non-negative numbers. */
  function Itoa(n: nat): (s: string)
    ensures s != "" && AllDigits(s)
  {
    if n < 10 then [Digit(n)] else Itoa(n / 10) + [Digit(n % 10)]
  }

  function DigitValue(c: char): nat
    requires IsDigit(c)
  {
    c as int - '0' as int
  }

  function Value(s: string): nat
    requires AllDigits(s)
  {
    if s == "" then 0 else Value(s[..|s| - 1]) * 10 + DigitValue(s[|s| - 1])
  }

  /** strconv.Atoi: an optional sign, decimal digits, and a value that fits 64 bits. */
  function Atoi(s: string): Option<int> {
    var negative := s != "" && s[0] == '-';
    var digits := if s != "" && (s[0] == '-' || s[0] == '+') then s[1..] else s;
    if digits == "" || !AllDigits(digits) then None
    else
      var v := if negative then -(Value(digits) as int) else Value(digits);
      if -INT64_LIMIT <= v < INT64_LIMIT then Some(v) else None
  }

  lemma {:induction false} ValueOfItoa(n: nat)
    ensures Value(Itoa(n)) == n
  {
    if n < 10 {
    } else {
      ValueOfItoa(n / 10);
      assert Itoa(n)[..|Itoa(n)| - 1] == Itoa(n / 10);
    }
  }

  lemma AtoiOfItoa(n: nat)
    requires n < INT64_LIMIT
    ensures Atoi(Itoa(n)) == Some(n)
  {
    ValueOfItoa(n);
    assert IsDigit(Itoa(n)[0]);
  }

  /** A decimal number is a trimmed word without separators. */
  lemma ItoaIsWord(n: nat)
    ensures OneLine(Itoa(n)) && IsTrimmed(Itoa(n))
    ensures forall c :: !IsDigit(c) ==> Lacks(Itoa(n), c)
  {}
}
