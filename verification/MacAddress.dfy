/** Hardware addresses (internal/discovery/registry.go:375-403). */
module MacAddress {
  import opened Text

  predicate IsHexDigit(c: char) { '0' <= c <= '9' || 'a' <= c <= 'f' || 'A' <= c <= 'F' }

  predicate IsSeparator(c: char) { c == ':' || c == '-' || c == '.' }

  predicate AllHex(s: string) { forall i :: 0 <= i < |s| ==> IsHexDigit(s[i]) }

  /** The text without its separators. */
  function Stripped(s: string): string {
    if s == "" then "" else Stripped(s[..|s| - 1]) + if IsSeparator(s[|s| - 1]) then "" else [s[|s| - 1]]
  }

  /** Pairs of characters joined by colons. */
  function Colons(s: string): string {
    if |s| <= 2 then s else Colons(s[..|s| - 2]) + ":" + s[|s| - 2..]
  }

  /** The canonical spelling of an address, or nothing if it is no address. */
  function NormalizeMAC(value: string): string {
    var cleaned := Stripped(TrimSpace(value));
    if |cleaned| != 12 || !AllHex(cleaned) then "" else Colons(ToUpper(cleaned))
  }

  /** What strings.Replacer leaves: the characters that are no separators. */
  method StripSeparators(trimmed: string) returns (cleaned: string)
    ensures cleaned == Stripped(trimmed)
  {
    cleaned := "";
    for i := 0 to |trimmed|
      invariant cleaned == Stripped(trimmed[..i])
    {
      assert trimmed[..i + 1][..i] == trimmed[..i];
      if !IsSeparator(trimmed[i]) {
        cleaned := cleaned + [trimmed[i]];
      }
    }
    assert trimmed[..|trimmed|] == trimmed;
  }

  /** The loop over the digits: whether every character is a hexadecimal digit. */
  method CheckDigits(cleaned: string) returns (ok: bool)
    ensures ok <==> AllHex(cleaned)
  {
    for i := 0 to |cleaned|
      invariant AllHex(cleaned[..i])
    {
      if !IsHexDigit(cleaned[i]) {
        return false;
      }
    }
    assert cleaned[..|cleaned|] == cleaned;
    ok := true;
  }

  /** The loop over the pairs: the digits two by two, joined by colons. */
  method WriteColons(upper: string) returns (mac: string)
    requires |upper| == 12
    ensures mac == Colons(upper)
  {
    mac := upper[..2];
    var i := 2;
    while i < 12
      invariant 2 <= i <= 12 && i % 2 == 0
      invariant mac == Colons(upper[..i])
    {
      assert upper[..i + 2][..i] == upper[..i] && upper[..i + 2][i..] == upper[i..i + 2];
      mac := mac + ":" + upper[i..i + 2];
      i := i + 2;
    }
    assert upper[..12] == upper;
  }

  /** normalizeMAC. */
  method ComputeMAC(value: string) returns (mac: string)
    ensures mac == NormalizeMAC(value)
  {
    var cleaned := StripSeparators(TrimSpace(value));
    if |cleaned| != 12 {
      return "";
    }
    var ok := CheckDigits(cleaned);
    if !ok {
      return "";
    }
    mac := WriteColons(ToUpper(cleaned));
  }

  // ---- Normalising is idempotent ----

  lemma {:induction false} StrippedAppend(a: string, b: string)
    ensures Stripped(a + b) == Stripped(a) + Stripped(b)
  {
    if b == "" {
      assert a + b == a;
    } else {
      assert (a + b)[..|a + b| - 1] == a + b[..|b| - 1];
      StrippedAppend(a, b[..|b| - 1]);
    }
  }

  lemma {:induction false} StrippedKeeps(s: string)
    requires forall i :: 0 <= i < |s| ==> !IsSeparator(s[i])
    ensures Stripped(s) == s
  {
    if s == "" {
    } else {
      StrippedKeeps(s[..|s| - 1]);
    }
  }

  lemma OnePairMore(a: string, pair: string)
    requires forall i :: 0 <= i < |pair| ==> !IsSeparator(pair[i])
    ensures Stripped(a + ":" + pair) == Stripped(a) + pair
  {
    StrippedKeeps(pair);
    StrippedAppend(a + ":", pair);
    assert (a + ":")[..|a|] == a;
  }

  lemma {:induction false} ColonsStripped(s: string)
    requires AllHex(s)
    ensures Stripped(Colons(s)) == s
  {
    if |s| <= 2 {
      StrippedKeeps(s);
    } else {
      var head, tail := s[..|s| - 2], s[|s| - 2..];
      ColonsStripped(head);
      OnePairMore(Colons(head), tail);
      assert s == head + tail;
    }
  }

  lemma {:induction false} ColonsEnds(s: string)
    requires s != ""
    ensures Colons(s) != "" && Colons(s)[0] == s[0] && Colons(s)[|Colons(s)| - 1] == s[|s| - 1]
  {
    if |s| <= 2 {
    } else {
      ColonsEnds(s[..|s| - 2]);
    }
  }

  lemma UpperIsHex(s: string)
    requires AllHex(s)
    ensures AllHex(ToUpper(s)) && ToUpper(ToUpper(s)) == ToUpper(s)
  {}

  /** A normalised address is its own normal form, and a proper one has six pairs. */
  lemma NormalizeIsIdempotent(value: string)
    ensures NormalizeMAC(NormalizeMAC(value)) == NormalizeMAC(value)
  {
    var cleaned := Stripped(TrimSpace(value));
    if |cleaned| == 12 && AllHex(cleaned) {
      var upper := ToUpper(cleaned);
      UpperIsHex(cleaned);
      ColonsStripped(upper);
      ColonsEnds(upper);
      assert IsHexDigit(upper[0]) && IsHexDigit(upper[11]);
      assert IsTrimmed(Colons(upper));
    } else {
      assert Stripped("") == "";
    }
  }

  // ---- What normalising keeps ----

  /** The digits of an address, in upper case. */
  function Digits(value: string): string { ToUpper(Stripped(TrimSpace(value))) }

  /** A separator leaves no trace, wherever it stands. */
  lemma SeparatorsDoNotMatter(a: string, c: char, b: string)
    ensures Stripped(a + [c] + b) == Stripped(a) + (if c in ":-." then "" else [c]) + Stripped(b)
  {
    StrippedAppend(a + [c], b);
    StrippedAppend(a, [c]);
    assert [c][..0] == "";
  }

  /** The normal form spelled out: six pairs of digits with colons between them. */
  lemma NormalForm(value: string)
    requires |Digits(value)| == 12 && AllHex(Stripped(TrimSpace(value)))
    ensures var d := Digits(value);
            NormalizeMAC(value) == d[..2] + ":" + d[2..4] + ":" + d[4..6] + ":" + d[6..8] + ":" + d[8..10] + ":" + d[10..]
  {
    var d := Digits(value);
    assert Colons(d[..4]) == d[..2] + ":" + d[2..4] by { assert d[..4][..2] == d[..2] && d[..4][2..] == d[2..4]; }
    assert Colons(d[..6]) == Colons(d[..4]) + ":" + d[4..6] by { assert d[..6][..4] == d[..4] && d[..6][4..] == d[4..6]; }
    assert Colons(d[..8]) == Colons(d[..6]) + ":" + d[6..8] by { assert d[..8][..6] == d[..6] && d[..8][6..] == d[6..8]; }
    assert Colons(d[..10]) == Colons(d[..8]) + ":" + d[8..10] by {
      assert d[..10][..8] == d[..8] && d[..10][8..] == d[8..10];
    }
  }

  predicate UpperHex(c: char) { '0' <= c <= '9' || 'A' <= c <= 'F' }

  /** Whatever has a normal form, the form is seventeen characters: a colon in every third place, else hex digits. */
  lemma NormalFormIsProper(value: string)
    requires NormalizeMAC(value) != ""
    ensures |NormalizeMAC(value)| == 17
    ensures forall i :: 0 <= i < 17 ==>
              if i % 3 == 2 then NormalizeMAC(value)[i] == ':' else UpperHex(NormalizeMAC(value)[i])
  {
    var d := Digits(value);
    assert forall k :: 0 <= k < 12 ==> UpperHex(d[k]) by { UpperIsHex(Stripped(TrimSpace(value))); }
    NormalForm(value);
    Spaced(d, NormalizeMAC(value));
  }

  lemma Spaced(d: string, n: string)
    requires |d| == 12
    requires n == d[..2] + ":" + d[2..4] + ":" + d[4..6] + ":" + d[6..8] + ":" + d[8..10] + ":" + d[10..]
    ensures |n| == 17 && forall i :: 0 <= i < 17 ==> n[i] == if i % 3 == 2 then ':' else d[i / 3 * 2 + i % 3]
  {}

  /** Two addresses have one normal form exactly if they have the same digits, up to case. */
  lemma SameFormIffSameDigits(a: string, b: string)
    requires NormalizeMAC(a) != "" && NormalizeMAC(b) != ""
    ensures NormalizeMAC(a) == NormalizeMAC(b) <==> Digits(a) == Digits(b)
  {
    UpperIsHex(Stripped(TrimSpace(a)));
    UpperIsHex(Stripped(TrimSpace(b)));
    ColonsStripped(Digits(a));
    ColonsStripped(Digits(b));
  }

  /** macFromInstanceName: the address before the @ of a service instance name. */
  function FromInstanceName(instance: string): string {
    match Cut(instance, '@')
    case None => ""
    case Some((head, _)) => NormalizeMAC(head)
  }
}
