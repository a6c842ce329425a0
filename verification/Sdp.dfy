/**
 The ANNOUNCE body: BuildSDP (internal/raop/protocol.go:88-115) and the receiver's parseSDP
 (cmd/mockreceiver/main.go:519-547). The receiver recovers the sample rate and the channel count; the address it
 recovers is the one in the c= line, which BuildSDP fills with the receiver's own.
 */
module Sdp {
  import opened Words
  import opened Text
  import opened Protocol

  // ---- Lines that end with CRLF ----

  /** The first CRLF, or the length of the text. */
  function FindCRLF(s: string): (i: nat)
    ensures i <= |s| && (i < |s| ==> i + 2 <= |s| && s[i..i + 2] == "\r\n")
  {
    if s == "" || "\r\n" <= s then 0 else 1 + FindCRLF(s[1..])
  }

  /** strings.Split(s, "\r\n") */
  function SplitLines(s: string): seq<string>
    decreases |s|
  {
    var i := FindCRLF(s);
    if i == |s| then [s] else [s[..i]] + SplitLines(s[i + 2..])
  }

  function JoinLines(lines: seq<string>): string {
    if lines == [] then "" else lines[0] + "\r\n" + JoinLines(lines[1..])
  }

  lemma {:induction false} FindCRLFAfter(line: string, rest: string)
    requires OneLine(line)
    ensures FindCRLF(line + "\r\n" + rest) == |line|
  {
    var s := line + "\r\n" + rest;
    if line == "" {
      assert s == "\r\n" + rest;
    } else {
      assert s[0] == line[0];
      assert s[1..] == line[1..] + "\r\n" + rest;
      FindCRLFAfter(line[1..], rest);
    }
  }

  lemma FirstLineIsSplit(line: string, rest: string)
    requires OneLine(line)
    ensures SplitLines(line + "\r\n" + rest) == [line] + SplitLines(rest)
  {
    FindCRLFAfter(line, rest);
    var s := line + "\r\n" + rest;
    assert s[..|line|] == line && s[|line| + 2..] == rest;
  }

  predicate AllOneLine(lines: seq<string>) { forall i :: 0 <= i < |lines| ==> OneLine(lines[i]) }

  lemma {:induction false} LinesAreSplit(lines: seq<string>)
    requires AllOneLine(lines)
    ensures SplitLines(JoinLines(lines)) == lines + [""]
  {
    if lines == [] {
      assert JoinLines(lines) == "" && SplitLines("") == [""];
    } else {
      var rest := JoinLines(lines[1..]);
      LinesAreSplit(lines[1..]);
      assert JoinLines(lines) == lines[0] + "\r\n" + rest;
      FirstLineIsSplit(lines[0], rest);
      assert lines == [lines[0]] + lines[1..];
    }
  }

  // ---- The receiver ----

  datatype Media = Media(remoteIP: string, codec: string, sampleRate: int, channels: int)

  const CONNECTION := "c=IN IP4 "
  const RTPMAP := "a=rtpmap:"

  function ReadCodec(media: Media, codec: string): Media {
    var parts := Split(codec, '/');
    var rate := if |parts| >= 2 then Atoi(parts[1]) else None;
    var channels := if |parts| >= 3 then Atoi(parts[2]) else None;
    Media(media.remoteIP, codec, if rate.Some? then rate.value else media.sampleRate,
          if channels.Some? then channels.value else media.channels)
  }

  function ReadLine(media: Media, line: string): Media {
    if CONNECTION <= line then media.(remoteIP := TrimSpace(line[|CONNECTION|..]))
    else if RTPMAP <= line then
      match Cut(line, ' ')
      case None => media
      case Some((_, value)) => ReadCodec(media, TrimSpace(value))
    else media
  }

  function ReadLines(media: Media, lines: seq<string>): Media {
    if lines == [] then media else ReadLine(ReadLines(media, lines[..|lines| - 1]), lines[|lines| - 1])
  }

  /** The receiver's session fields that an announcement sets; peer is the address of the TCP connection. */
  class Announced {
    var remoteIP: string
    var codec: string
    var sampleRate: int
    var channels: int

    constructor (sampleRate: int)
      ensures Fields() == Media("", "", sampleRate, 2)
    {
      remoteIP, codec, this.sampleRate, channels := "", "", sampleRate, 2;
    }

    function Fields(): Media
      reads this
    {
      Media(remoteIP, codec, sampleRate, channels)
    }

    method ParseSDP(body: string, peer: string)
      modifies this
      ensures var read := ReadLines(old(Fields()), SplitLines(body));
              Fields() == if read.remoteIP != "" then read else read.(remoteIP := TrimSpace(Split(peer, ':')[0]))
    {
      var lines := SplitLines(body);
      for i := 0 to |lines|
        invariant Fields() == ReadLines(old(Fields()), lines[..i])
      {
        assert lines[..i + 1][..i] == lines[..i];
        var line := lines[i];
        if CONNECTION <= line {
          remoteIP := TrimSpace(line[|CONNECTION|..]);
        } else if RTPMAP <= line {
          var cut := Cut(line, ' ');
          if cut.Some? {
            ParseCodec(TrimSpace(cut.value.1));
          }
        }
      }
      assert lines[..|lines|] == lines;
      if remoteIP == "" {
        remoteIP := TrimSpace(Split(peer, ':')[0]);
      }
    }

    method ParseCodec(value: string)
      modifies this
      ensures Fields() == ReadCodec(old(Fields()), value)
    {
      codec := value;
      var parts := Split(codec, '/');
      if |parts| >= 2 {
        var rate := Atoi(parts[1]);
        if rate.Some? {
          sampleRate := rate.value;
        }
      }
      if |parts| >= 3 {
        var count := Atoi(parts[2]);
        if count.Some? {
          channels := count.value;
        }
      }
    }
  }

  // ---- The sender ----

  const PAYLOAD_TYPE := 96

  function Rtpmap(f: AudioFormat): string
    requires f.Valid()
  {
    "L16" + "/" + Itoa(f.sampleRate) + "/" + Itoa(f.channels)
  }

  function Fmtp(f: AudioFormat): string
    requires f.Valid()
  {
    Itoa(FRAMES_PER_PACKET) + " 0 " + Itoa(f.bitDepth) + " 40 10 14 " + Itoa(f.channels) + " 255 0 0 " + Itoa(f.sampleRate)
  }

  function SdpLines(sessionID: u32, localIP: string, remoteIP: string, f: AudioFormat): seq<string>
    requires f.Valid()
  {
    ["v=0",
     "o=iTunes " + Itoa(sessionID) + " 0 IN IP4 " + localIP,
     "s=iTunes",
     CONNECTION + remoteIP,
     "t=0 0",
     "m=audio 0 RTP/AVP " + Itoa(PAYLOAD_TYPE),
     RTPMAP + Itoa(PAYLOAD_TYPE) + " " + Rtpmap(f),
     "a=fmtp:" + Itoa(PAYLOAD_TYPE) + " " + Fmtp(f)]
  }

  function BuildSDP(sessionID: u32, localIP: string, remoteIP: string, f: AudioFormat): string
    requires f.Valid()
  {
    JoinLines(SdpLines(sessionID, localIP, remoteIP, f))
  }

  // ---- Round trip ----

  /** Neither c= nor a=r... */
  predicate IsOther(line: string) {
    line == "" || (line[0] != 'c' && (line[0] != 'a' || (|line| > 2 && line[2] != 'r')))
  }

  lemma OtherLine(media: Media, line: string)
    requires IsOther(line)
    ensures ReadLine(media, line) == media
  {
    assert CONNECTION[0] == 'c' && RTPMAP[0] == 'a' && RTPMAP[2] == 'r';
  }

  lemma ConnectionLine(media: Media, address: string)
    requires IsTrimmed(address)
    ensures ReadLine(media, CONNECTION + address) == media.(remoteIP := address)
  {
    assert (CONNECTION + address)[|CONNECTION|..] == address;
  }

  lemma CodecIsCut(kind: string, codec: string)
    requires Lacks(kind, ' ')
    ensures Cut(RTPMAP + kind + " " + codec, ' ') == Some((RTPMAP + kind, codec))
  {
    assert RTPMAP + kind + " " + codec == (RTPMAP + kind) + [' '] + codec;
    assert Lacks(RTPMAP, ' ');
    CutJoined(RTPMAP + kind, ' ', codec);
  }

  lemma CodecLine(media: Media, kind: string, codec: string)
    requires Lacks(kind, ' ') && IsTrimmed(codec)
    ensures ReadLine(media, RTPMAP + kind + " " + codec) == ReadCodec(media, codec)
  {
    CodecIsCut(kind, codec);
    var line := RTPMAP + kind + " " + codec;
    assert line[0] == 'a' && RTPMAP <= line;
  }

  lemma JoinThree(a: string, b: string, c: string)
    ensures Join([a, b, c], '/') == a + "/" + b + "/" + c
  {
    assert [a, b, c][1..] == [b, c] && [b, c][1..] == [c];
    assert Join([b, c], '/') == b + "/" + Join([c], '/');
    assert Join([a, b, c], '/') == a + "/" + Join([b, c], '/');
  }

  lemma CodecIsRead(media: Media, name: string, rate: nat, channels: nat)
    requires Lacks(name, '/') && rate < INT64_LIMIT && channels < INT64_LIMIT
    ensures var codec := name + "/" + Itoa(rate) + "/" + Itoa(channels);
            ReadCodec(media, codec) == Media(media.remoteIP, codec, rate, channels)
  {
    ItoaIsWord(rate);
    ItoaIsWord(channels);
    JoinThree(name, Itoa(rate), Itoa(channels));
    SplitJoined([name, Itoa(rate), Itoa(channels)], '/');
    AtoiOfItoa(rate);
    AtoiOfItoa(channels);
  }

  /** A codec line may leave out the channels, or the rate too; what it leaves out, or gets wrong, stays as it was. */
  lemma CodecKeepsTheRest(media: Media, name: string, rate: nat, word: string)
    requires Lacks(name, '/') && rate < INT64_LIMIT && Lacks(word, '/') && Atoi(word) == None
    ensures ReadCodec(media, name) == media.(codec := name)
    ensures ReadCodec(media, name + "/" + Itoa(rate)) == media.(codec := name + "/" + Itoa(rate), sampleRate := rate)
    ensures ReadCodec(media, name + "/" + word) == media.(codec := name + "/" + word)
  {
    ItoaIsWord(rate);
    AtoiOfItoa(rate);
    FindNone(name, '/');
    JoinTwo(name, Itoa(rate));
    SplitJoined([name, Itoa(rate)], '/');
    JoinTwo(name, word);
    SplitJoined([name, word], '/');
  }

  lemma JoinTwo(a: string, b: string)
    ensures Join([a, b], '/') == a + "/" + b
  {
    assert [a, b][1..] == [b];
  }

  lemma CodecIsTrimmed(name: string, rate: nat, channels: nat)
    requires name != "" && !IsSpace(name[0])
    ensures IsTrimmed(name + "/" + Itoa(rate) + "/" + Itoa(channels))
  {
    ItoaIsWord(channels);
    var codec := name + "/" + Itoa(rate) + "/" + Itoa(channels);
    assert codec[0] == name[0] && codec[|codec| - 1] == Itoa(channels)[|Itoa(channels)| - 1];
  }

  lemma OneMoreLine(media: Media, lines: seq<string>, k: nat)
    requires k < |lines|
    ensures ReadLines(media, lines[..k + 1]) == ReadLine(ReadLines(media, lines[..k]), lines[k])
  {
    assert lines[..k + 1][..k] == lines[..k];
  }

  lemma {:induction false} OtherLines(media: Media, lines: seq<string>, from: nat, to: nat)
    requires from <= to <= |lines| && forall k :: from <= k < to ==> IsOther(lines[k])
    ensures ReadLines(media, lines[..to]) == ReadLines(media, lines[..from])
  {
    if from >= to {
    } else {
      OtherLines(media, lines, from, to - 1);
      OneMoreLine(media, lines, to - 1);
      OtherLine(ReadLines(media, lines[..to - 1]), lines[to - 1]);
    }
  }

  lemma OneLineCounts(media: Media, lines: seq<string>, from: nat, c: nat, to: nat)
    requires from <= c < to <= |lines| && forall k :: from <= k < to && k != c ==> IsOther(lines[k])
    ensures ReadLines(media, lines[..to]) == ReadLine(ReadLines(media, lines[..from]), lines[c])
  {
    OtherLines(media, lines, from, c);
    OneMoreLine(media, lines, c);
    OtherLines(media, lines, c + 1, to);
  }

  /** Two lines count, wherever they stand among others. */
  lemma TwoLinesCount(media: Media, lines: seq<string>, c: nat, r: nat, address: string, kind: string, codec: string)
    requires c < r < |lines| && lines[c] == CONNECTION + address && lines[r] == RTPMAP + kind + " " + codec
    requires forall k :: 0 <= k < |lines| && k != c && k != r ==> IsOther(lines[k])
    requires IsTrimmed(address) && Lacks(kind, ' ') && IsTrimmed(codec)
    ensures ReadLines(media, lines) == ReadCodec(media.(remoteIP := address), codec)
  {
    assert lines[..0] == [] && lines[..|lines|] == lines;
    OneLineCounts(media, lines, 0, c, c + 1);
    ConnectionLine(media, address);
    OneLineCounts(media, lines, c + 1, r, |lines|);
    CodecLine(media.(remoteIP := address), kind, codec);
  }

  lemma Joined(a: string, b: string)
    requires OneLine(a) && OneLine(b)
    ensures OneLine(a + b)
  {}

  lemma FmtpIsOneLine(f: AudioFormat)
    requires f.Valid()
    ensures OneLine(Fmtp(f))
  {
    ItoaIsWord(FRAMES_PER_PACKET);
    ItoaIsWord(f.bitDepth);
    ItoaIsWord(f.channels);
    ItoaIsWord(f.sampleRate);
    var a := Itoa(FRAMES_PER_PACKET) + " 0 " + Itoa(f.bitDepth);
    var b := a + " 40 10 14 " + Itoa(f.channels);
    assert OneLine(a);
    assert OneLine(b) by { Joined(a, " 40 10 14 "); }
    Joined(b, " 255 0 0 ");
    Joined(b + " 255 0 0 ", Itoa(f.sampleRate));
  }

  /** The eleven words of the format line. */
  function FmtpWords(f: AudioFormat): seq<string>
    requires f.Valid()
  {
    [Itoa(FRAMES_PER_PACKET), "0", Itoa(f.bitDepth), "40", "10", "14", Itoa(f.channels), "255", "0", "0", Itoa(f.sampleRate)]
  }

  /**
   What a receiver that splits the format line at its spaces finds: frames per packet first, bit depth third, channels
   seventh, rate last, and the Rice parameters of the L16 format between them.
   */
  lemma FmtpIsRead(f: AudioFormat)
    requires f.Valid() && f.sampleRate < INT64_LIMIT
    ensures var words := Split(Fmtp(f), ' ');
            && |words| == 11
            && Atoi(words[0]) == Some(352) && Atoi(words[2]) == Some(f.bitDepth) && Atoi(words[6]) == Some(f.channels)
            && Atoi(words[10]) == Some(f.sampleRate)
            && words[1] == "0" && words[3] == "40" && words[4] == "10" && words[5] == "14" && words[7] == "255"
            && words[8] == "0" && words[9] == "0"
  {
    FmtpIsJoined(f);
    WordsLackSpaces(f);
    SplitJoined(FmtpWords(f), ' ');
    AtoiOfItoa(FRAMES_PER_PACKET);
    AtoiOfItoa(f.bitDepth);
    AtoiOfItoa(f.channels);
    AtoiOfItoa(f.sampleRate);
  }

  lemma WordsLackSpaces(f: AudioFormat)
    requires f.Valid()
    ensures AllLack(FmtpWords(f), ' ')
  {
    ItoaIsWord(FRAMES_PER_PACKET);
    ItoaIsWord(f.bitDepth);
    ItoaIsWord(f.channels);
    ItoaIsWord(f.sampleRate);
  }

  lemma JoinOneMore(word: string, rest: seq<string>, text: string)
    requires rest != [] && text == Join(rest, ' ')
    ensures Join([word] + rest, ' ') == word + " " + text
  {
    assert ([word] + rest)[1..] == rest;
  }

  lemma JoinHead(frames: string, rest: seq<string>, text: string)
    requires rest != [] && text == Join(rest, ' ')
    ensures Join([frames, "0"] + rest, ' ') == frames + " 0 " + text
  {
    JoinOneMore("0", rest, text);
    JoinOneMore(frames, ["0"] + rest, "0 " + text);
    assert [frames, "0"] + rest == [frames] + (["0"] + rest);
    assert frames + " " + ("0 " + text) == frames + " 0 " + text;
  }

  lemma JoinMiddle(depth: string, rest: seq<string>, text: string)
    requires rest != [] && text == Join(rest, ' ')
    ensures Join([depth, "40", "10", "14"] + rest, ' ') == depth + " 40 10 14 " + text
  {
    JoinOneMore("14", rest, text);
    JoinOneMore("10", ["14"] + rest, "14 " + text);
    JoinOneMore("40", ["10"] + (["14"] + rest), "10 " + ("14 " + text));
    JoinOneMore(depth, ["40"] + (["10"] + (["14"] + rest)), "40 " + ("10 " + ("14 " + text)));
    assert [depth, "40", "10", "14"] + rest == [depth] + (["40"] + (["10"] + (["14"] + rest)));
    assert depth + " " + ("40 " + ("10 " + ("14 " + text))) == depth + " 40 10 14 " + text;
  }

  lemma JoinTail(channels: string, rate: string)
    ensures Join([channels, "255", "0", "0"] + [rate], ' ') == channels + " 255 0 0 " + rate
  {
    JoinOneMore("0", [rate], rate);
    JoinOneMore("0", ["0"] + [rate], "0 " + rate);
    JoinOneMore("255", ["0"] + (["0"] + [rate]), "0 " + ("0 " + rate));
    JoinOneMore(channels, ["255"] + (["0"] + (["0"] + [rate])), "255 " + ("0 " + ("0 " + rate)));
    assert [channels, "255", "0", "0"] + [rate] == [channels] + (["255"] + (["0"] + (["0"] + [rate])));
    assert channels + " " + ("255 " + ("0 " + ("0 " + rate))) == channels + " 255 0 0 " + rate;
  }

  lemma FmtpIsJoined(f: AudioFormat)
    requires f.Valid()
    ensures Fmtp(f) == Join(FmtpWords(f), ' ')
  {
    JoinWords(Itoa(FRAMES_PER_PACKET), Itoa(f.bitDepth), Itoa(f.channels), Itoa(f.sampleRate));
  }

  lemma JoinWords(frames: string, depth: string, channels: string, rate: string)
    ensures Join([frames, "0", depth, "40", "10", "14", channels, "255", "0", "0", rate], ' ')
         == frames + " 0 " + depth + " 40 10 14 " + channels + " 255 0 0 " + rate
  {
    var tail := [channels, "255", "0", "0"] + [rate];
    var tailText := channels + " 255 0 0 " + rate;
    JoinTail(channels, rate);
    var middle := [depth, "40", "10", "14"] + tail;
    var middleText := depth + " 40 10 14 " + tailText;
    JoinMiddle(depth, tail, tailText);
    JoinHead(frames, middle, middleText);
    assert [frames, "0", depth, "40", "10", "14", channels, "255", "0", "0", rate] == [frames, "0"] + middle;
    Regrouped(frames + " 0 ", depth + " 40 10 14 ", channels, " 255 0 0 ", rate);
    Regrouped(frames + " 0 ", depth, " 40 10 14 ", "", "");
  }

  lemma Regrouped(a: string, b: string, c: string, d: string, e: string)
    ensures a + (b + (c + d + e)) == a + b + c + d + e
  {}

  lemma OriginIsOneLine(id: string, localIP: string)
    requires OneLine(id) && OneLine(localIP)
    ensures OneLine("o=iTunes " + id + " 0 IN IP4 " + localIP)
  {
    Joined("o=iTunes ", id);
    Joined("o=iTunes " + id, " 0 IN IP4 ");
  }

  lemma CodecIsOneLine(payloadType: string, codec: string)
    requires OneLine(payloadType) && OneLine(codec)
    ensures OneLine(RTPMAP + payloadType + " " + codec)
  {
    Joined(RTPMAP, payloadType);
    Joined(RTPMAP + payloadType, " ");
  }

  lemma FormatIsOneLine(payloadType: string, fmtp: string)
    requires OneLine(payloadType) && OneLine(fmtp)
    ensures OneLine("m=audio 0 RTP/AVP " + payloadType) && OneLine("a=fmtp:" + payloadType + " " + fmtp)
  {
    Joined("a=fmtp:", payloadType);
    Joined("a=fmtp:" + payloadType, " ");
  }

  lemma RtpmapIsOneLine(f: AudioFormat)
    requires f.Valid()
    ensures OneLine(Rtpmap(f))
  {
    ItoaIsWord(f.sampleRate);
    ItoaIsWord(f.channels);
    Joined("L16" + "/" + Itoa(f.sampleRate), "/");
  }

  lemma SdpLinesAreLines(sessionID: u32, localIP: string, remoteIP: string, f: AudioFormat)
    requires f.Valid() && OneLine(localIP) && OneLine(remoteIP)
    ensures AllOneLine(SdpLines(sessionID, localIP, remoteIP, f))
  {
    ItoaIsWord(sessionID);
    ItoaIsWord(PAYLOAD_TYPE);
    OriginIsOneLine(Itoa(sessionID), localIP);
    Joined(CONNECTION, remoteIP);
    RtpmapIsOneLine(f);
    CodecIsOneLine(Itoa(PAYLOAD_TYPE), Rtpmap(f));
    FmtpIsOneLine(f);
    FormatIsOneLine(Itoa(PAYLOAD_TYPE), Fmtp(f));
  }

  lemma SdpLinesAreOther(sessionID: u32, localIP: string, remoteIP: string, f: AudioFormat)
    requires f.Valid()
    ensures forall k :: 0 <= k < 8 && k != 3 && k != 6 ==> IsOther(SdpLines(sessionID, localIP, remoteIP, f)[k])
  {}

  /**
   The receiver takes over the announced rate and channel count, and as the sender's address it takes the one in the
   c= line, whatever it knew before and whoever is at the other end of the TCP connection.
   */
  lemma AnnouncementIsRead(media: Media, sessionID: u32, localIP: string, remoteIP: string, f: AudioFormat)
    requires f.Valid() && f.sampleRate < INT64_LIMIT
    requires OneLine(localIP) && OneLine(remoteIP) && IsTrimmed(remoteIP)
    ensures ReadLines(media, SplitLines(BuildSDP(sessionID, localIP, remoteIP, f)))
            == Media(remoteIP, Rtpmap(f), f.sampleRate, f.channels)
  {
    var lines := SdpLines(sessionID, localIP, remoteIP, f);
    SdpLinesAreLines(sessionID, localIP, remoteIP, f);
    LinesAreSplit(lines);
    SdpLinesAreOther(sessionID, localIP, remoteIP, f);
    ItoaIsWord(PAYLOAD_TYPE);
    CodecIsTrimmed("L16", f.sampleRate, f.channels);
    CodecIsRead(media.(remoteIP := remoteIP), "L16", f.sampleRate, f.channels);
    TwoLinesCount(media, lines + [""], 3, 6, remoteIP, Itoa(PAYLOAD_TYPE), Rtpmap(f));
  }

  lemma OriginWords(id: string, localIP: string)
    requires Lacks(id, ' ') && Lacks(localIP, ' ')
    ensures Split("o=iTunes " + id + " 0 IN IP4 " + localIP, ' ') == ["o=iTunes", id, "0", "IN", "IP4", localIP]
  {
    var words := ["o=iTunes", id, "0", "IN", "IP4", localIP];
    JoinOneMore("IP4", [localIP], localIP);
    JoinOneMore("IN", ["IP4"] + [localIP], "IP4 " + localIP);
    JoinOneMore("0", ["IN"] + (["IP4"] + [localIP]), "IN " + ("IP4 " + localIP));
    JoinOneMore(id, ["0"] + (["IN"] + (["IP4"] + [localIP])), "0 " + ("IN " + ("IP4 " + localIP)));
    JoinOneMore("o=iTunes", [id] + (["0"] + (["IN"] + (["IP4"] + [localIP]))),
                id + " " + ("0 " + ("IN " + ("IP4 " + localIP))));
    assert words == ["o=iTunes"] + ([id] + (["0"] + (["IN"] + (["IP4"] + [localIP]))));
    OriginText(id, localIP);
    SplitJoined(words, ' ');
  }

  lemma OriginText(id: string, localIP: string)
    ensures "o=iTunes" + " " + (id + " " + ("0 " + ("IN " + ("IP4 " + localIP))))
         == "o=iTunes " + id + " 0 IN IP4 " + localIP
  {}

  /**
   Line by line, the announcement names the session and the sender's own address as its origin, payload type 96 on its
   media line, and the format parameters under that type.
   */
  lemma AnnouncementLines(sessionID: u32, localIP: string, remoteIP: string, f: AudioFormat)
    requires f.Valid() && OneLine(localIP) && Lacks(localIP, ' ') && OneLine(remoteIP)
    ensures var lines := SplitLines(BuildSDP(sessionID, localIP, remoteIP, f));
            && |lines| == 9 && lines[0] == "v=0" && lines[8] == ""
            && Split(lines[1], ' ') == ["o=iTunes", Itoa(sessionID), "0", "IN", "IP4", localIP]
            && lines[3] == "c=IN IP4 " + remoteIP && lines[5] == "m=audio 0 RTP/AVP 96"
            && Cut(lines[6], ' ') == Some(("a=rtpmap:96", Rtpmap(f)))
            && Cut(lines[7], ' ') == Some(("a=fmtp:96", Fmtp(f)))
  {
    SdpLinesAreLines(sessionID, localIP, remoteIP, f);
    LinesAreSplit(SdpLines(sessionID, localIP, remoteIP, f));
    ItoaIsWord(sessionID);
    OriginWords(Itoa(sessionID), localIP);
    TypeIs96();
    TypeIsCut("a=fmtp:96", Fmtp(f));
    TypeIsCut("a=rtpmap:96", Rtpmap(f));
  }

  lemma TypeIs96()
    ensures Itoa(PAYLOAD_TYPE) == "96" && "m=audio 0 RTP/AVP " + "96" == "m=audio 0 RTP/AVP 96"
    ensures "a=fmtp:" + "96" == "a=fmtp:96" && RTPMAP + "96" == "a=rtpmap:96"
    ensures Lacks("a=fmtp:96", ' ') && Lacks("a=rtpmap:96", ' ')
  {
    assert Itoa(9) == "9" && Itoa(96) == Itoa(9) + "6";
  }

  lemma TypeIsCut(head: string, value: string)
    requires Lacks(head, ' ')
    ensures Cut(head + " " + value, ' ') == Some((head, value))
  {
    assert head + [' '] + value == head + " " + value;
    CutJoined(head, ' ', value);
  }

  /**
   ANNOUNCE between a sender at one address and a receiver at another: BuildSDP is called with the receiver's address
   second, so that is where the receiver will send its retransmission requests. They reach the sender iff the two
   addresses are the same.
   */
  method Announce(session: Announced, sessionID: u32, senderIP: string, receiverIP: string, f: AudioFormat)
    requires f.Valid() && f.sampleRate < INT64_LIMIT
    requires OneLine(senderIP) && OneLine(receiverIP) && IsTrimmed(receiverIP) && receiverIP != ""
    modifies session
    ensures session.sampleRate == f.sampleRate && session.channels == f.channels
    ensures session.remoteIP == receiverIP
  {
    AnnouncementIsRead(session.Fields(), sessionID, senderIP, receiverIP, f);
    session.ParseSDP(BuildSDP(sessionID, senderIP, receiverIP, f), senderIP + ":0");
  }
}
