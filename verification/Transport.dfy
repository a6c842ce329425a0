/**
 The SETUP exchange (RFC 2326 sections 12.17 and 12.39): both ends print a Transport header with their own UDP ports
 and parse the other's. internal/raop/sender.go:209-245, 785-801 and cmd/mockreceiver/main.go:567-617 with
 cmd/mockreceiver/rtsp.go:136-146.
 */
module Transport {
  import opened Words
  import opened Text
  import opened Framing

  // ---- key=value parameters ----

  /** One semicolon-separated part read into the map; a part without '=' adds nothing. */
  function AddOption(options: Fields, part: string): Fields {
    match Cut(TrimSpace(part), '=')
    case None => options
    case Some((key, value)) => options[TrimSpace(key) := TrimSpace(value)]
  }

  function Options(parts: seq<string>, known: Fields): Fields {
    if parts == [] then known else Options(parts[1..], AddOption(known, parts[0]))
  }

  /** The parts that are no key=value pairs. */
  function Params(parts: seq<string>): seq<string> {
    if parts == [] then []
    else (if TrimSpace(parts[0]) != "" && Cut(TrimSpace(parts[0]), '=').None? then [TrimSpace(parts[0])] else [])
         + Params(parts[1..])
  }

  lemma {:induction false} OneMorePart(parts: seq<string>, last: string, known: Fields)
    ensures Options(parts + [last], known) == AddOption(Options(parts, known), last)
    ensures Params(parts + [last]) == Params(parts) + Params([last])
  {
    if parts == [] {
      assert parts + [last] == [last] && [last][1..] == [];
    } else {
      assert (parts + [last])[1..] == parts[1..] + [last];
      OneMorePart(parts[1..], last, AddOption(known, parts[0]));
    }
  }

  /** The sender's parser. */
  method ParseTransport(transport: string) returns (params: seq<string>, options: Fields)
    ensures options == Options(Split(transport, ';'), map[])
    ensures params == Params(Split(transport, ';'))
  {
    params, options := [], map[];
    var parts := Split(transport, ';');
    for i := 0 to |parts|
      invariant options == Options(parts[..i], map[]) && params == Params(parts[..i])
    {
      OneMorePart(parts[..i], parts[i], map[]);
      assert parts[..i] + [parts[i]] == parts[..i + 1];
      assert [parts[i]][1..] == [];
      var part := TrimSpace(parts[i]);
      if part == "" {
        CutNone("", '=');
        continue;
      }
      var cut := Cut(part, '=');
      if cut.Some? {
        options := options[TrimSpace(cut.value.0) := TrimSpace(cut.value.1)];
        continue;
      }
      params := params + [part];
    }
    assert parts[..|parts|] == parts;
  }

  /** The receiver's parser: on every header whatsoever it finds the same options as the sender's. */
  method ParseTransportOptions(transport: string) returns (options: Fields)
    ensures options == Options(Split(transport, ';'), map[])
  {
    options := map[];
    var parts := Split(transport, ';');
    for i := 0 to |parts|
      invariant options == Options(parts[..i], map[])
    {
      OneMorePart(parts[..i], parts[i], map[]);
      assert parts[..i] + [parts[i]] == parts[..i + 1];
      var cut := Cut(TrimSpace(parts[i]), '=');
      if cut.None? {
        continue;
      }
      options := options[TrimSpace(cut.value.0) := TrimSpace(cut.value.1)];
    }
    assert parts[..|parts|] == parts;
  }

  // ---- Printing ----

  const MODE: seq<string> := ["RTP/AVP/UDP", "unicast", "interleaved=0-1", "mode=record"]

  function PortOption(key: string, port: nat): string { key + "=" + Itoa(port) }

  function PortParts(ports: seq<(string, nat)>): seq<string> {
    if ports == [] then [] else [PortOption(ports[0].0, ports[0].1)] + PortParts(ports[1..])
  }

  function SenderTransport(control: nat, timing: nat): string {
    Join(MODE + PortParts([("control_port", control), ("timing_port", timing)]), ';')
  }

  function ReceiverTransport(server: nat, control: nat, timing: nat): string {
    Join(MODE + PortParts([("server_port", server), ("control_port", control), ("timing_port", timing)]), ';')
  }

  predicate IsOptionKey(key: string) { IsTrimmed(key) && key != "" && Lacks(key, '=') && Lacks(key, ';') }

  lemma PairIsAdded(options: Fields, key: string, value: string)
    requires IsOptionKey(key) && IsTrimmed(value) && value != ""
    ensures AddOption(options, key + "=" + value) == options[key := value]
  {
    var part := key + "=" + value;
    assert part == key + ['='] + value;
    assert part[0] == key[0] && part[|part| - 1] == value[|value| - 1];
    CutJoined(key, '=', value);
  }

  lemma WordIsSkipped(options: Fields, word: string)
    requires IsTrimmed(word) && Lacks(word, '=')
    ensures AddOption(options, word) == options
  {
    CutNone(word, '=');
  }

  lemma PortIsAdded(options: Fields, key: string, port: nat)
    requires IsOptionKey(key)
    ensures AddOption(options, PortOption(key, port)) == options[key := Itoa(port)]
    ensures Lacks(PortOption(key, port), ';')
  {
    ItoaIsWord(port);
    PairIsAdded(options, key, Itoa(port));
  }

  lemma {:induction false} OptionsAppend(a: seq<string>, b: seq<string>, known: Fields)
    ensures Options(a + b, known) == Options(b, Options(a, known))
  {
    if a == [] {
      assert a + b == b;
    } else {
      assert (a + b)[1..] == a[1..] + b;
      OptionsAppend(a[1..], b, AddOption(known, a[0]));
    }
  }

  lemma ModeParts()
    ensures AllLack(MODE, ';')
    ensures IsOptionKey("server_port") && IsOptionKey("control_port") && IsOptionKey("timing_port")
  {}

  lemma ModeWords()
    ensures IsTrimmed(MODE[0]) && Lacks(MODE[0], '=') && IsTrimmed(MODE[1]) && Lacks(MODE[1], '=')
    ensures IsOptionKey("interleaved") && IsTrimmed("0-1") && MODE[2] == "interleaved" + "=" + "0-1"
    ensures IsOptionKey("mode") && IsTrimmed("record") && MODE[3] == "mode" + "=" + "record"
  {}

  lemma TwoWordsTwoPairs(a: string, b: string, c: string, cv: string, d: string, dv: string)
    requires IsTrimmed(a) && Lacks(a, '=') && IsTrimmed(b) && Lacks(b, '=')
    requires IsOptionKey(c) && IsTrimmed(cv) && cv != "" && IsOptionKey(d) && IsTrimmed(dv) && dv != ""
    ensures Options([a, b, c + "=" + cv, d + "=" + dv], map[]) == map[c := cv, d := dv]
  {
    var x, y := c + "=" + cv, d + "=" + dv;
    WordIsSkipped(map[], a);
    WordIsSkipped(map[], b);
    PairIsAdded(map[], c, cv);
    PairIsAdded(map[c := cv], d, dv);
    FourParts(a, b, x, y);
  }

  lemma FourParts(a: string, b: string, c: string, d: string)
    ensures Options([a, b, c, d], map[]) == AddOption(AddOption(AddOption(AddOption(map[], a), b), c), d)
  {
    var one := AddOption(map[], a);
    var two := AddOption(one, b);
    var three := AddOption(two, c);
    assert [a, b, c, d][1..] == [b, c, d] && [b, c, d][1..] == [c, d] && [c, d][1..] == [d] && [d][1..] == [];
    assert Options([a, b, c, d], map[]) == Options([b, c, d], one);
    assert Options([b, c, d], one) == Options([c, d], two);
    assert Options([c, d], two) == Options([d], three);
    assert Options([d], three) == Options([], AddOption(three, d));
  }

  lemma ModeOptions(words: seq<string>)
    requires words == MODE
    ensures Options(words, map[]) == map["interleaved" := "0-1", "mode" := "record"]
  {
    ModeWords();
    TwoWordsTwoPairs(words[0], words[1], "interleaved", "0-1", "mode", "record");
    assert words == [words[0], words[1], "interleaved" + "=" + "0-1", "mode" + "=" + "record"];
  }

  function AddPorts(known: Fields, ports: seq<(string, nat)>): Fields
    decreases |ports|
  {
    if ports == [] then known else AddPorts(known[ports[0].0 := Itoa(ports[0].1)], ports[1..])
  }

  lemma {:induction false} PortsAreAdded(known: Fields, ports: seq<(string, nat)>)
    requires forall i :: 0 <= i < |ports| ==> IsOptionKey(ports[i].0)
    ensures Options(PortParts(ports), known) == AddPorts(known, ports)
    ensures AllLack(PortParts(ports), ';')
    decreases |ports|
  {
    if ports == [] {
    } else {
      PortIsAdded(known, ports[0].0, ports[0].1);
      PortsAreAdded(known[ports[0].0 := Itoa(ports[0].1)], ports[1..]);
      assert PortParts(ports)[1..] == PortParts(ports[1..]);
    }
  }

  /** A printed Transport header parses to its own parameters. */
  lemma TransportIsParsed(words: seq<string>, ports: seq<(string, nat)>)
    requires words != [] && AllLack(words, ';')
    requires forall i :: 0 <= i < |ports| ==> IsOptionKey(ports[i].0)
    ensures Options(Split(Join(words + PortParts(ports), ';'), ';'), map[]) == AddPorts(Options(words, map[]), ports)
  {
    PortsAreAdded(Options(words, map[]), ports);
    SplitJoined(words + PortParts(ports), ';');
    OptionsAppend(words, PortParts(ports), map[]);
  }

  lemma TwoPorts(known: Fields, p: (string, nat), q: (string, nat))
    ensures AddPorts(known, [p, q]) == known[p.0 := Itoa(p.1)][q.0 := Itoa(q.1)]
  {
    var more := known[p.0 := Itoa(p.1)];
    assert [p, q][1..] == [q];
    assert AddPorts(known, [p, q]) == AddPorts(more, [q]);
    assert [q][1..] == [];
    assert AddPorts(more, [q]) == AddPorts(more[q.0 := Itoa(q.1)], []);
  }

  lemma ModeTransportIsParsed(words: seq<string>, ports: seq<(string, nat)>)
    requires words == MODE
    requires forall i :: 0 <= i < |ports| ==> IsOptionKey(ports[i].0)
    ensures Options(Split(Join(words + PortParts(ports), ';'), ';'), map[])
            == AddPorts(map["interleaved" := "0-1", "mode" := "record"], ports)
  {
    assert AllLack(words, ';') by { ModeParts(); }
    TransportIsParsed(words, ports);
    ModeOptions(words);
  }

  lemma SenderPortsAreParsed(control: nat, timing: nat)
    ensures Options(Split(SenderTransport(control, timing), ';'), map[])
            == map["interleaved" := "0-1", "mode" := "record"]
                  ["control_port" := Itoa(control)]["timing_port" := Itoa(timing)]
  {
    var p, q := ("control_port", control), ("timing_port", timing);
    assert IsOptionKey(p.0) && IsOptionKey(q.0) by { ModeParts(); }
    ModeTransportIsParsed(MODE, [p, q]);
    TwoPorts(map["interleaved" := "0-1", "mode" := "record"], p, q);
  }

  lemma ReceiverPortsAreParsed(server: nat, control: nat, timing: nat)
    ensures Options(Split(ReceiverTransport(server, control, timing), ';'), map[])
            == map["interleaved" := "0-1", "mode" := "record"]
                  ["server_port" := Itoa(server)]["control_port" := Itoa(control)]["timing_port" := Itoa(timing)]
  {
    var p, q, r := ("server_port", server), ("control_port", control), ("timing_port", timing);
    assert IsOptionKey(p.0) && IsOptionKey(q.0) && IsOptionKey(r.0) by { ModeParts(); }
    ModeTransportIsParsed(MODE, [p, q, r]);
    assert [p, q, r][1..] == [q, r];
    TwoPorts(map["interleaved" := "0-1", "mode" := "record"][p.0 := Itoa(server)], q, r);
  }

  // ---- The parameters without a value ----

  lemma {:induction false} ParamsAppend(a: seq<string>, b: seq<string>)
    ensures Params(a + b) == Params(a) + Params(b)
  {
    if a == [] {
      assert a + b == b;
    } else {
      assert (a + b)[1..] == a[1..] + b;
      ParamsAppend(a[1..], b);
    }
  }

  lemma PairIsNoParam(key: string, value: string)
    requires IsOptionKey(key) && IsTrimmed(value) && value != ""
    ensures Params([key + "=" + value]) == []
  {
    var part := key + "=" + value;
    assert part == key + ['='] + value;
    assert part[0] == key[0] && part[|part| - 1] == value[|value| - 1];
    CutJoined(key, '=', value);
    assert [part][1..] == [];
  }

  lemma {:induction false} PortsAreNoParams(ports: seq<(string, nat)>)
    requires forall i :: 0 <= i < |ports| ==> IsOptionKey(ports[i].0)
    ensures Params(PortParts(ports)) == []
    decreases |ports|
  {
    if ports == [] {
    } else {
      ItoaIsWord(ports[0].1);
      PairIsNoParam(ports[0].0, Itoa(ports[0].1));
      PortsAreNoParams(ports[1..]);
      ParamsAppend([PortOption(ports[0].0, ports[0].1)], PortParts(ports[1..]));
    }
  }

  lemma WordIsParam(word: string)
    requires IsTrimmed(word) && word != "" && Lacks(word, '=')
    ensures Params([word]) == [word]
  {
    CutNone(word, '=');
    assert [word][1..] == [];
  }

  lemma FourParams(a: string, b: string, c: string, d: string)
    ensures Params([a, b, c, d]) == Params([a]) + Params([b]) + Params([c]) + Params([d])
  {
    assert [a, b, c, d] == [a] + [b] + [c] + [d];
    ParamsAppend([a] + [b] + [c], [d]);
    ParamsAppend([a] + [b], [c]);
    ParamsAppend([a], [b]);
  }

  lemma ModeParams(words: seq<string>, a: string, b: string, c: string, cv: string, d: string, dv: string)
    requires words == [a, b, c + "=" + cv, d + "=" + dv]
    requires IsTrimmed(a) && a != "" && Lacks(a, '=') && IsTrimmed(b) && b != "" && Lacks(b, '=')
    requires IsOptionKey(c) && IsTrimmed(cv) && cv != "" && IsOptionKey(d) && IsTrimmed(dv) && dv != ""
    ensures Params(words) == [a, b]
  {
    FourParams(a, b, c + "=" + cv, d + "=" + dv);
    WordIsParam(a);
    WordIsParam(b);
    PairIsNoParam(c, cv);
    PairIsNoParam(d, dv);
  }

  lemma ParamsOfTransport(words: seq<string>, ports: seq<(string, nat)>)
    requires words != [] && AllLack(words, ';') && forall i :: 0 <= i < |ports| ==> IsOptionKey(ports[i].0)
    ensures Params(Split(Join(words + PortParts(ports), ';'), ';')) == Params(words)
  {
    PortsAreAdded(map[], ports);
    SplitJoined(words + PortParts(ports), ';');
    ParamsAppend(words, PortParts(ports));
    PortsAreNoParams(ports);
  }

  /** Both ends ask for, and offer, unicast RTP over UDP. */
  lemma TransportIsUDP(words: seq<string>, ports: seq<(string, nat)>)
    requires words == MODE && forall i :: 0 <= i < |ports| ==> IsOptionKey(ports[i].0)
    ensures Params(Split(Join(words + PortParts(ports), ';'), ';')) == ["RTP/AVP/UDP", "unicast"]
  {
    assert AllLack(words, ';') by { ModeParts(); }
    ParamsOfTransport(words, ports);
    ModeWords();
    ModeParams(words, "RTP/AVP/UDP", "unicast", "interleaved", "0-1", "mode", "record");
  }

  // ---- What each end does with the other's ports ----

  /** The port under a key, when it is there and a number. */
  function PortAt(options: Fields, key: string, otherwise: int): int {
    match Atoi(Get(options, key))
    case Some(port) => port
    case None => otherwise
  }

  /** The sender's ports (raop.Sender): its own until SETUP succeeds, the receiver's from then on. */
  class SenderPorts {
    var serverPort: int
    var controlPort: int
    var timingPort: int

    constructor (control: nat, timing: nat)
      ensures controlPort == control && timingPort == timing
    {
      serverPort, controlPort, timingPort := 0, control, timing;
    }

    /** The Transport of a SETUP reply; without a usable server port the handshake fails and nothing changes. */
    method Learn(transport: string) returns (ok: bool)
      modifies this
      ensures var options := Options(Split(transport, ';'), map[]);
              && (ok <==> PortAt(options, "server_port", 0) > 0)
              && (ok ==> serverPort == PortAt(options, "server_port", 0)
                         && controlPort == PortAt(options, "control_port", old(controlPort))
                         && timingPort == PortAt(options, "timing_port", old(timingPort)))
              && (!ok ==> serverPort == old(serverPort) && controlPort == old(controlPort) && timingPort == old(timingPort))
    {
      var _, options := ParseTransport(transport);
      var port := Atoi(Get(options, "server_port"));
      if port.None? || port.value <= 0 {
        return false;
      }
      serverPort := port.value;
      var control := Get(options, "control_port");
      if control != "" && Atoi(control).Some? {
        controlPort := Atoi(control).value;
      }
      var timing := Get(options, "timing_port");
      if timing != "" && Atoi(timing).Some? {
        timingPort := Atoi(timing).value;
      }
      return true;
    }
  }

  /** The receiver's picture of the sender (mockreceiver session). */
  class PeerPorts {
    var remoteControlPort: int
    var remoteTimingPort: int

    constructor ()
      ensures remoteControlPort == 0 && remoteTimingPort == 0
    {
      remoteControlPort, remoteTimingPort := 0, 0;
    }

    /**
     A SETUP request's Transport; base is what every reply of the request carries. Without three sockets of its own
     (audio, control, timing) the receiver answers 500 and learns nothing; with them their ports go into the reply.
     */
    method HandleSetup(base: Fields, transport: string, session: u32, sockets: Option<Ports>) returns (reply: Answer)
      modifies this
      ensures sockets.None? ==> reply == Answer(500, "Internal Server Error", base)
                                && remoteControlPort == old(remoteControlPort) && remoteTimingPort == old(remoteTimingPort)
      ensures sockets.Some? ==>
                var options := Options(Split(transport, ';'), map[]);
                && remoteControlPort == PortAt(options, "control_port", old(remoteControlPort))
                && remoteTimingPort == PortAt(options, "timing_port", old(remoteTimingPort))
                && reply == Answer(200, "OK", SetupHeaders(base, session, sockets.value))
    {
      var options := ParseTransportOptions(transport);
      if sockets.None? {
        return Answer(500, "Internal Server Error", base);
      }
      if "control_port" in options && Atoi(options["control_port"]).Some? {
        remoteControlPort := Atoi(options["control_port"]).value;
      }
      if "timing_port" in options && Atoi(options["timing_port"]).Some? {
        remoteTimingPort := Atoi(options["timing_port"]).value;
      }
      var headers := base["Session" := Itoa(session)];
      var own := sockets.value;
      headers := headers["Transport" := ReceiverTransport(own.audio, own.control, own.timing)];
      return Answer(200, "OK", headers);
    }
  }

  datatype Ports = Ports(audio: nat, control: nat, timing: nat)

  datatype Answer = Answer(code: nat, message: string, headers: Fields)

  function SetupHeaders(base: Fields, session: u32, own: Ports): Fields {
    base["Session" := Itoa(session)]["Transport" := ReceiverTransport(own.audio, own.control, own.timing)]
  }

  /**
   SETUP between the two ends: when the receiver has its sockets, each end ends up with the other's actual ports, and
   the sender goes ahead iff there is an audio port; otherwise the sender is told so and nobody learns anything.
   */
  method SetupExchange(sender: SenderPorts, peer: PeerPorts, base: Fields, session: u32, sockets: Option<Ports>)
    returns (ok: bool)
    requires 0 <= sender.controlPort < INT64_LIMIT && 0 <= sender.timingPort < INT64_LIMIT
    requires sockets.Some? ==> sockets.value.audio < INT64_LIMIT && sockets.value.control < INT64_LIMIT
                               && sockets.value.timing < INT64_LIMIT
    modifies sender, peer
    ensures sockets.Some? ==>
              peer.remoteControlPort == old(sender.controlPort) && peer.remoteTimingPort == old(sender.timingPort)
    ensures sockets.None? ==>
              peer.remoteControlPort == old(peer.remoteControlPort) && peer.remoteTimingPort == old(peer.remoteTimingPort)
    ensures ok <==> sockets.Some? && sockets.value.audio > 0
    ensures ok ==> sender.serverPort == sockets.value.audio && sender.controlPort == sockets.value.control
                   && sender.timingPort == sockets.value.timing
  {
    SenderPortsAreParsed(sender.controlPort, sender.timingPort);
    AtoiOfItoa(sender.controlPort);
    AtoiOfItoa(sender.timingPort);
    var reply := peer.HandleSetup(base, SenderTransport(sender.controlPort, sender.timingPort), session, sockets);
    if reply.code >= 400 {
      return false;
    }
    var own := sockets.value;
    ReceiverPortsAreParsed(own.audio, own.control, own.timing);
    AtoiOfItoa(own.audio);
    AtoiOfItoa(own.control);
    AtoiOfItoa(own.timing);
    ok := sender.Learn(reply.headers["Transport"]);
  }
}
