/**
 The sending side of one RAOP session as a step machine (internal/raop/sender.go). Each event is one critical
 section, one datagram or one completed wait of the streaming loop, or a re-anchor made by any goroutine; a run is
 any legal sequence of them. The Sender class refines this machine; the theorems here hold for every run.
 */
module StreamMachine {
  import opened Words
  import opened NtpClock
  import opened Protocol

  const BACKLOG_SIZE := 1000

  /**
   Where the streaming loop stands: not yet started, allowed to send, datagram sent, datagram remembered, or
   counters advanced and the packet's time slot still to be waited for.
   */
  datatype Phase = Idle | Ready | Sent | Kept | Owing

  /** An audio packet by its fields; Encode is the datagram. */
  datatype Packet = Packet(seqno: u16, timestamp: u32, first: bool, payload: Bytes)

  function Encode(p: Packet, ssrc: u32): Bytes { AudioBytes(p.seqno, p.timestamp, ssrc, p.first, p.payload) }

  /** What one sync packet says: the head of the timeline and the relative timestamp it plays at. */
  datatype SyncPoint = SyncPoint(head: u32, rtp: u32)

  datatype Core = Core(
    rate: int,
    seqno: u16, headTS: u32, startTS: u32, framesSent: u64,
    backlog: map<u16, Packet>, backlogQ: seq<u16>,
    anchorWall: int, anchorFrames: u64, now: int,
    wire: seq<Packet>, syncs: seq<SyncPoint>,
    phase: Phase, draining: bool)

  /**
   `Reanchored(ts, seconds, nanos)`: the timeline starts over at ts, the RTP clock at this reading of the wall clock.
   `Waited(at, target)`: the loop slept, or was late, until the clock read `at`, no earlier than `target`. */
  datatype Event =
    | Reanchored(ts: u32, seconds: int, nanos: nat)
    | Rebased(at: int)
    | DrainStarted(at: int)
    | Built(payload: Bytes, first: bool)
    | Remembered
    | Advanced
    | Synced
    | Waited(at: int, target: int)

  // ---- The arithmetic of single steps ----

  function RtpTime(c: Core): u32 { W32(c.headTS - c.startTS + LATENCY_FRAMES) }

  /** rememberPacket's trimming loop. */
  function Trim<P>(backlog: map<u16, P>, queue: seq<u16>): (map<u16, P>, seq<u16>) {
    if |queue| > BACKLOG_SIZE then Trim(backlog - {queue[0]}, queue[1..]) else (backlog, queue)
  }

  function Remember<P>(backlog: map<u16, P>, queue: seq<u16>, seqno: u16, packet: P): (map<u16, P>, seq<u16>) {
    Trim(backlog[seqno := packet], if seqno in backlog then queue else queue + [seqno])
  }

  ghost predicate Enabled(c: Core, e: Event) {
    match e
    case Reanchored(ts, seconds, nanos) => IsStamp(ts, seconds, nanos, c.rate)
    case Rebased(at) => (c.phase == Idle || c.phase == Ready) && at >= c.now
    case DrainStarted(at) => (c.phase == Ready || c.phase == Owing) && !c.draining && at >= c.now
    case Built(_, _) => c.phase == Ready
    case Remembered => c.phase == Sent && !c.draining && c.wire != []
    case Advanced => c.phase == (if c.draining then Sent else Kept)
    case Synced => c.phase == Owing
    case Waited(at, target) => c.phase == Owing && at >= c.now && at >= target
  }

  function Step(c: Core, e: Event): Core
    requires Enabled(c, e)
  {
    match e
    case Reanchored(ts, _, _) => c.(startTS := ts, headTS := ts)
    case Rebased(at) => c.(anchorWall := at, anchorFrames := c.framesSent, now := at, phase := Ready)
    case DrainStarted(at) =>
      c.(anchorWall := at, anchorFrames := c.framesSent, now := at, phase := Ready, draining := true)
    case Built(payload, first) => c.(wire := c.wire + [Packet(c.seqno, RtpTime(c), first, payload)], phase := Sent)
    case Remembered =>
      var kept := Remember(c.backlog, c.backlogQ, c.seqno, c.wire[|c.wire| - 1]);
      c.(backlog := kept.0, backlogQ := kept.1, phase := Kept)
    case Advanced =>
      c.(seqno := W16(c.seqno + 1), headTS := W32(c.headTS + FRAMES_PER_PACKET),
         framesSent := W64(c.framesSent + FRAMES_PER_PACKET), phase := Owing)
    case Synced => c.(syncs := c.syncs + [SyncPoint(c.headTS, RtpTime(c))])
    case Waited(at, _) => c.(now := at, phase := Ready)
  }

  // ---- Runs ----

  type Trace = seq<Event>

  function Front(t: Trace): Trace
    requires t != []
  {
    t[..|t| - 1]
  }

  function Last(t: Trace): Event
    requires t != []
  {
    t[|t| - 1]
  }

  ghost predicate Legal(c: Core, t: Trace)
    decreases t, 0
  {
    t == [] || (Legal(c, Front(t)) && Enabled(Run(c, Front(t)), Last(t)))
  }

  ghost function Run(c: Core, t: Trace): (c': Core)
    requires Legal(c, t)
    ensures c'.rate == c.rate
    decreases t, 1
  {
    if t == [] then c else Step(Run(c, Front(t)), Last(t))
  }

  /** The state Dial leaves behind, with any starting sequence number, clock and frame count. */
  predicate Fresh(c: Core) {
    && c.rate > 0 && c.headTS == c.startTS
    && c.backlog == map[] && c.backlogQ == []
    && c.wire == [] && c.syncs == [] && c.phase == Idle && !c.draining
  }

  lemma Extend(c: Core, t: Trace, e: Event)
    requires Legal(c, t) && Enabled(Run(c, t), e)
    ensures Legal(c, t + [e]) && Run(c, t + [e]) == Step(Run(c, t), e)
  {
    assert Front(t + [e]) == t;
  }

  lemma {:induction false} Concatenate(c: Core, t: Trace, u: Trace)
    requires Legal(c, t) && Legal(Run(c, t), u)
    ensures Legal(c, t + u) && Run(c, t + u) == Run(Run(c, t), u)
  {
    if u == [] {
      assert t + u == t;
    } else {
      Concatenate(c, t, Front(u));
      assert Front(t + u) == t + Front(u);
    }
  }

  /** A run of a concatenated trace is a run of its second part from where the first part led. */
  lemma {:induction false} Split(c: Core, t: Trace, u: Trace)
    requires Legal(c, t + u)
    ensures Legal(c, t) && Legal(Run(c, t), u) && Run(c, t + u) == Run(Run(c, t), u)
  {
    if u == [] {
      assert t + u == t;
    } else {
      assert Front(t + u) == t + Front(u);
      Split(c, t, Front(u));
    }
  }

  lemma {:induction false} LegalPrefix(c: Core, t: Trace, i: nat)
    requires Legal(c, t) && i <= |t|
    ensures Legal(c, t[..i])
  {
    if i == |t| {
      assert t[..i] == t;
    } else {
      LegalPrefix(c, Front(t), i);
      assert Front(t)[..i] == t[..i];
    }
  }

  // ---- What a trace did ----

  function Builds(t: Trace): nat {
    if t == [] then 0 else Builds(Front(t)) + (if Last(t).Built? then 1 else 0)
  }

  function Keeps(t: Trace): nat {
    if t == [] then 0 else Keeps(Front(t)) + (if Last(t).Remembered? then 1 else 0)
  }

  function Advances(t: Trace): nat {
    if t == [] then 0 else Advances(Front(t)) + (if Last(t).Advanced? then 1 else 0)
  }

  function Syncs(t: Trace): nat {
    if t == [] then 0 else Syncs(Front(t)) + (if Last(t).Synced? then 1 else 0)
  }

  function Rebases(t: Trace): nat {
    if t == [] then 0 else Rebases(Front(t)) + (if Last(t).Rebased? || Last(t).DrainStarted? then 1 else 0)
  }

  /** Packets counted since the RTP clock was last re-anchored. */
  function SinceAnchor(t: Trace): nat {
    if t == [] || Last(t).Reanchored? then 0
    else SinceAnchor(Front(t)) + (if Last(t).Advanced? then 1 else 0)
  }

  /** Packets counted since pacing was last re-based. */
  function SinceRebase(t: Trace): nat {
    if t == [] || Last(t).Rebased? || Last(t).DrainStarted? then 0
    else SinceRebase(Front(t)) + (if Last(t).Advanced? then 1 else 0)
  }

  function Payloads(t: Trace): seq<Bytes> {
    if t == [] then [] else Payloads(Front(t)) + (if Last(t).Built? then [Last(t).payload] else [])
  }

  // ---- Counters ----

  /** The sequence number of the i-th packet of a session that started at s0. */
  function SeqAt(s0: int, i: int): u16 { W16(s0 + i) }

  predicate CountedAs(c0: Core, c: Core, builds: nat, advances: nat, since: nat) {
    && c.seqno == W16(c0.seqno + advances)
    && c.framesSent == W64(c0.framesSent + FRAMES_PER_PACKET * advances)
    && c.headTS == W32(c.startTS + FRAMES_PER_PACKET * since)
    && |c.wire| == builds
    && builds == advances + (if c.phase == Sent || c.phase == Kept then 1 else 0)
  }

  lemma AdvanceCounted(c0: Core, c: Core, builds: nat, advances: nat, since: nat)
    requires CountedAs(c0, c, builds, advances, since) && Enabled(c, Advanced)
    ensures CountedAs(c0, Step(c, Advanced), builds, advances + 1, since + 1)
  {
    WrapSum16(c0.seqno + advances, 1);
    WrapSum64(c0.framesSent + FRAMES_PER_PACKET * advances, FRAMES_PER_PACKET);
    WrapSum32(c.startTS + FRAMES_PER_PACKET * since, FRAMES_PER_PACKET);
  }

  lemma StepCounted(c0: Core, c: Core, e: Event, builds: nat, advances: nat, since: nat)
    requires CountedAs(c0, c, builds, advances, since) && Enabled(c, e)
    ensures CountedAs(c0, Step(c, e), builds + (if e.Built? then 1 else 0), advances + (if e.Advanced? then 1 else 0),
                      if e.Reanchored? then 0 else since + (if e.Advanced? then 1 else 0))
  {
    if e.Advanced? {
      AdvanceCounted(c0, c, builds, advances, since);
    }
  }

  /** The wrapping counters agree with the number of packets sent, whatever re-anchors happen in between. */
  lemma {:induction false} Counters(c0: Core, t: Trace)
    requires Fresh(c0) && Legal(c0, t)
    ensures CountedAs(c0, Run(c0, t), Builds(t), Advances(t), SinceAnchor(t))
  {
    if t == [] {
    } else {
      Counters(c0, Front(t));
      StepCounted(c0, Run(c0, Front(t)), Last(t), Builds(Front(t)), Advances(Front(t)), SinceAnchor(Front(t)));
    }
  }

  lemma RelativeTime(c0: Core, t: Trace)
    requires Fresh(c0) && Legal(c0, t)
    ensures RtpTime(Run(c0, t)) == W32(LATENCY_FRAMES + FRAMES_PER_PACKET * SinceAnchor(t))
  {
    Counters(c0, t);
    var c := Run(c0, t);
    WrapSum32(c.startTS + FRAMES_PER_PACKET * SinceAnchor(t), LATENCY_FRAMES - c.startTS);
  }

  lemma StepGrows(c: Core, e: Event)
    requires Enabled(c, e)
    ensures c.wire <= Step(c, e).wire && c.syncs <= Step(c, e).syncs
  {}

  lemma {:induction false} WireGrows(c0: Core, t: Trace, i: nat)
    requires Legal(c0, t) && i <= |t|
    ensures Legal(c0, t[..i])
    ensures Run(c0, t[..i]).wire <= Run(c0, t).wire && Run(c0, t[..i]).syncs <= Run(c0, t).syncs
  {
    LegalPrefix(c0, t, i);
    if i == |t| {
      assert t[..i] == t;
    } else {
      WireGrows(c0, Front(t), i);
      StepGrows(Run(c0, Front(t)), Last(t));
      assert Front(t)[..i] == t[..i];
    }
  }

  /** The state just before and just after the i-th event of a run. */
  lemma EventAt(c0: Core, t: Trace, i: nat)
    requires Legal(c0, t) && i < |t|
    ensures Legal(c0, t[..i]) && Enabled(Run(c0, t[..i]), t[i])
    ensures Legal(c0, t[..i + 1]) && Run(c0, t[..i + 1]) == Step(Run(c0, t[..i]), t[i])
  {
    LegalPrefix(c0, t, i + 1);
    assert Front(t[..i + 1]) == t[..i];
  }

  lemma LastPacket(c0: Core, t: Trace)
    requires Fresh(c0) && Legal(c0, t) && t != [] && Last(t).Built?
    ensures |Run(c0, Front(t)).wire| == Builds(Front(t))
    ensures Run(c0, t).wire == Run(c0, Front(t)).wire + [
              Packet(SeqAt(c0.seqno, Builds(Front(t))), W32(LATENCY_FRAMES + FRAMES_PER_PACKET * SinceAnchor(Front(t))),
                     Last(t).first, Last(t).payload)]
  {
    Counters(c0, Front(t));
    RelativeTime(c0, Front(t));
    PacketBuilt(c0, Run(c0, Front(t)), Last(t), Builds(Front(t)), Advances(Front(t)), SinceAnchor(Front(t)));
  }

  lemma PacketBuilt(c0: Core, c: Core, e: Event, builds: nat, advances: nat, since: nat)
    requires CountedAs(c0, c, builds, advances, since) && Enabled(c, e) && e.Built?
    requires RtpTime(c) == W32(LATENCY_FRAMES + FRAMES_PER_PACKET * since)
    ensures |c.wire| == builds
    ensures Step(c, e).wire
         == c.wire + [Packet(SeqAt(c0.seqno, builds), W32(LATENCY_FRAMES + FRAMES_PER_PACKET * since), e.first, e.payload)]
  {}

  lemma StaysOnWire(before: seq<Packet>, sent: Packet, after: seq<Packet>, wire: seq<Packet>)
    requires after == before + [sent] && after <= wire
    ensures |before| < |wire| && wire[|before|] == sent
  {}

  /**
   Every audio packet of every run, past any number of 16-bit and 32-bit wraps: the k-th one carries sequence
   number s0 + k, the timestamp 66150 + 352 * (packets counted since the last re-anchor), and its own payload.
   */
  lemma EveryPacket(c0: Core, t: Trace, i: nat)
    requires Fresh(c0) && Legal(c0, t) && i < |t| && t[i].Built?
    ensures var k := Builds(t[..i]);
            && k < |Run(c0, t).wire|
            && Run(c0, t).wire[k] == Packet(
              SeqAt(c0.seqno, k), W32(LATENCY_FRAMES + FRAMES_PER_PACKET * SinceAnchor(t[..i])),
              t[i].first, t[i].payload)
  {
    EventAt(c0, t, i);
    var front, upTo := t[..i], t[..i + 1];
    assert Front(upTo) == front;
    LastPacket(c0, upTo);
    WireGrows(c0, t, i + 1);
    var sent := Packet(SeqAt(c0.seqno, Builds(front)), W32(LATENCY_FRAMES + FRAMES_PER_PACKET * SinceAnchor(front)),
                       t[i].first, t[i].payload);
    StaysOnWire(Run(c0, front).wire, sent, Run(c0, upTo).wire, Run(c0, t).wire);
  }

  /** These payloads in their order, under consecutive numbers. */
  predicate WireHolds(wire: seq<Packet>, s0: int, payloads: seq<Bytes>) {
    && |wire| == |payloads|
    && forall k :: 0 <= k < |wire| ==> wire[k].seqno == SeqAt(s0, k) && wire[k].payload == payloads[k]
  }

  /** Numbers and payloads on the wire, in order. */
  lemma {:induction false} WireContents(c0: Core, t: Trace)
    requires Fresh(c0) && Legal(c0, t)
    ensures |Payloads(t)| == Builds(t) && WireHolds(Run(c0, t).wire, c0.seqno, Payloads(t))
  {
    if t == [] {
    } else {
      WireContents(c0, Front(t));
      Counters(c0, Front(t));
      WireGains(c0, Run(c0, Front(t)), Last(t), Payloads(Front(t)), Advances(Front(t)), SinceAnchor(Front(t)));
    }
  }

  lemma WireGains(c0: Core, c: Core, e: Event, payloads: seq<Bytes>, advances: nat, since: nat)
    requires CountedAs(c0, c, |payloads|, advances, since) && Enabled(c, e) && WireHolds(c.wire, c0.seqno, payloads)
    ensures WireHolds(Step(c, e).wire, c0.seqno, payloads + if e.Built? then [e.payload] else [])
  {
    if e.Built? {
    } else {
      assert payloads + [] == payloads;
    }
  }

  // ---- The retransmission window ----

  /** The last min(1000, n) of the first n packets, by number and by content. */
  ghost predicate Window(backlog: map<u16, Packet>, queue: seq<u16>, s0: int, n: nat, wire: seq<Packet>) {
    && n <= |wire|
    && |queue| == Min(n, BACKLOG_SIZE)
    && (forall j :: 0 <= j < |queue| ==> queue[j] == SeqAt(s0, n - |queue| + j))
    && (forall k :: k in backlog <==> k in queue)
    && (forall i :: n - |queue| <= i < n ==> SeqAt(s0, i) in backlog && backlog[SeqAt(s0, i)] == wire[i])
  }

  lemma WindowNumbers(backlog: map<u16, Packet>, queue: seq<u16>, s0: int, n: nat, wire: seq<Packet>, x: int)
    requires Window(backlog, queue, s0, n, wire)
    requires n - 0x1_0000 <= x < n - |queue| + 0x1_0000
    ensures SeqAt(s0, x) in backlog <==> n - |queue| <= x < n
  {
    if SeqAt(s0, x) in backlog {
      var j :| 0 <= j < |queue| && queue[j] == SeqAt(s0, x);
      Distinct16(s0 + n - |queue| + j, s0 + x);
      assert x == n - |queue| + j;
    }
  }

  /** Remembering the next packet keeps the window, and never finds its number already taken. */
  lemma RememberNext(backlog: map<u16, Packet>, queue: seq<u16>, s0: int, n: nat, wire: seq<Packet>)
    requires Window(backlog, queue, s0, n, wire) && n < |wire|
    ensures SeqAt(s0, n) !in backlog
    ensures var (b, q) := Remember(backlog, queue, SeqAt(s0, n), wire[n]);
            Window(b, q, s0, n + 1, wire)
  {
    WindowNumbers(backlog, queue, s0, n, wire, n);
    var seqno := SeqAt(s0, n);
    var b, q := backlog[seqno := wire[n]], queue + [seqno];
    if |queue| < BACKLOG_SIZE {
      assert Trim(b, q) == (b, q);
      WindowGrown(backlog, queue, s0, n, wire);
    } else {
      assert q[0] == queue[0] && q[1..] == queue[1..] + [seqno];
      assert Trim(b - {q[0]}, q[1..]) == (b - {q[0]}, q[1..]);
      WindowSlid(backlog, queue, s0, n, wire);
    }
  }

  lemma WindowGrown(backlog: map<u16, Packet>, queue: seq<u16>, s0: int, n: nat, wire: seq<Packet>)
    requires Window(backlog, queue, s0, n, wire) && n < |wire| && |queue| < BACKLOG_SIZE
    requires SeqAt(s0, n) !in backlog
    ensures Window(backlog[SeqAt(s0, n) := wire[n]], queue + [SeqAt(s0, n)], s0, n + 1, wire)
  {
    var b := backlog[SeqAt(s0, n) := wire[n]];
    forall i | 0 <= i < n + 1
      ensures SeqAt(s0, i) in b && b[SeqAt(s0, i)] == wire[i]
    {
      Distinct16(s0 + i, s0 + n);
    }
  }

  lemma WindowSlid(backlog: map<u16, Packet>, queue: seq<u16>, s0: int, n: nat, wire: seq<Packet>)
    requires Window(backlog, queue, s0, n, wire) && n < |wire| && |queue| == BACKLOG_SIZE
    requires SeqAt(s0, n) !in backlog
    ensures Window(backlog[SeqAt(s0, n) := wire[n]] - {queue[0]}, queue[1..] + [SeqAt(s0, n)], s0, n + 1, wire)
  {
    var lo := n - |queue|;
    var q := queue[1..] + [SeqAt(s0, n)];
    var b := backlog[SeqAt(s0, n) := wire[n]] - {queue[0]};
    assert queue[0] == SeqAt(s0, lo + 0);
    forall i | lo < i < n + 1
      ensures SeqAt(s0, i) in b && b[SeqAt(s0, i)] == wire[i]
    {
      Distinct16(s0 + i, s0 + n);
      Distinct16(s0 + i, s0 + lo);
    }
    SlidQueue(queue, s0, n);
    SlidKeys(backlog.Keys, queue, SeqAt(s0, n));
  }

  lemma SlidQueue(queue: seq<u16>, s0: int, n: nat)
    requires 0 < |queue| <= n && |queue| <= BACKLOG_SIZE
    requires forall j :: 0 <= j < |queue| ==> queue[j] == SeqAt(s0, n - |queue| + j)
    ensures var q := queue[1..] + [SeqAt(s0, n)];
            forall j :: 0 <= j < |q| ==> q[j] == SeqAt(s0, n + 1 - |q| + j)
    ensures queue[0] !in queue[1..]
  {
    var q := queue[1..] + [SeqAt(s0, n)];
    forall j | 0 <= j < |q|
      ensures q[j] == SeqAt(s0, n + 1 - |q| + j)
    {
      if j < |q| - 1 {
        assert q[j] == queue[j + 1];
      }
    }
    forall j | 0 < j < |queue|
      ensures queue[0] != queue[j]
    {
      Distinct16(s0 + n - |queue|, s0 + n - |queue| + j);
    }
  }

  lemma SlidKeys(keys: set<u16>, queue: seq<u16>, next: u16)
    requires queue != [] && (forall k :: k in keys <==> k in queue)
    requires next !in keys && queue[0] !in queue[1..]
    ensures forall k :: k in keys + {next} - {queue[0]} <==> k in queue[1..] + [next]
  {
    assert queue == [queue[0]] + queue[1..];
  }

  /** Packets remembered so far in terms of packets sent: draining silence is not remembered. */
  ghost predicate WindowAt(c: Core, s0: int, keeps: nat) {
    && Window(c.backlog, c.backlogQ, s0, keeps, c.wire)
    && (!c.draining ==> keeps == |c.wire| - (if c.phase == Sent then 1 else 0))
  }

  lemma WindowOnLongerWire(backlog: map<u16, Packet>, queue: seq<u16>, s0: int, n: nat, wire: seq<Packet>, more: seq<Packet>)
    requires Window(backlog, queue, s0, n, wire)
    ensures Window(backlog, queue, s0, n, wire + more)
  {}

  lemma KeptAt(c: Core, s0: int, keeps: nat)
    requires WindowAt(c, s0, keeps) && Enabled(c, Remembered)
    requires c.seqno == SeqAt(s0, |c.wire| - 1)
    ensures WindowAt(Step(c, Remembered), s0, keeps + 1)
    ensures c.seqno !in c.backlog
  {
    RememberNext(c.backlog, c.backlogQ, s0, keeps, c.wire);
  }

  lemma StepWindow(c: Core, e: Event, s0: int, keeps: nat)
    requires WindowAt(c, s0, keeps) && Enabled(c, e)
    requires c.phase == Sent ==> c.seqno == SeqAt(s0, |c.wire| - 1)
    ensures WindowAt(Step(c, e), s0, keeps + (if e.Remembered? then 1 else 0))
  {
    if e.Remembered? {
      KeptAt(c, s0, keeps);
    } else if e.Built? {
      WindowOnLongerWire(c.backlog, c.backlogQ, s0, keeps, c.wire, [Packet(c.seqno, RtpTime(c), e.first, e.payload)]);
    }
  }

  /**
   In every run the retransmission backlog is the window of the last min(1000, n) remembered packets, each
   byte for byte the datagram that was sent under its number.
   */
  lemma {:induction false} BacklogIsWindow(c0: Core, t: Trace)
    requires Fresh(c0) && Legal(c0, t)
    ensures WindowAt(Run(c0, t), c0.seqno, Keeps(t))
  {
    if t == [] {
    } else {
      BacklogIsWindow(c0, Front(t));
      Counters(c0, Front(t));
      WindowExtends(c0, Run(c0, Front(t)), t);
    }
  }

  lemma WindowExtends(c0: Core, c: Core, t: Trace)
    requires t != [] && Enabled(c, Last(t)) && WindowAt(c, c0.seqno, Keeps(Front(t)))
    requires c.phase == Sent ==> c.seqno == SeqAt(c0.seqno, |c.wire| - 1)
    ensures WindowAt(Step(c, Last(t)), c0.seqno, Keeps(t))
  {
    StepWindow(c, Last(t), c0.seqno, Keeps(Front(t)));
  }

  /** The backlog never holds more than 1000 packets, and that many as soon as so many have been remembered. */
  lemma BacklogIsBounded(c0: Core, t: Trace)
    requires Fresh(c0) && Legal(c0, t)
    ensures |Run(c0, t).backlogQ| == if Keeps(t) < 1000 then Keeps(t) else 1000
    ensures Run(c0, t).backlog.Keys == set k <- Run(c0, t).backlogQ
  {
    BacklogIsWindow(c0, t);
  }

  /** The "already exists" branch of rememberPacket is dead in every run. */
  lemma NeverAlreadyKept(c0: Core, t: Trace)
    requires Fresh(c0) && Legal(c0, t) && Enabled(Run(c0, t), Remembered)
    ensures Run(c0, t).seqno !in Run(c0, t).backlog
  {
    BacklogIsWindow(c0, t);
    Counters(c0, t);
    KeptAt(Run(c0, t), c0.seqno, Keeps(t));
  }

  lemma QueueDistinct(backlog: map<u16, Packet>, queue: seq<u16>, s0: int, n: nat, wire: seq<Packet>, i: nat, j: nat)
    requires Window(backlog, queue, s0, n, wire) && i < j < |queue|
    ensures queue[i] != queue[j]
  {
    Distinct16(s0 + n - |queue| + i, s0 + n - |queue| + j);
  }

  // ---- Conservation ----

  /** The audio a sequence of packets carries. */
  function Audio(wire: seq<Packet>): Bytes {
    if wire == [] then [] else Audio(wire[..|wire| - 1]) + wire[|wire| - 1].payload
  }

  /** The datagrams themselves carry the payloads, twelve bytes in. */
  lemma DatagramFields(p: Packet, ssrc: u32)
    ensures var d := Encode(p, ssrc);
            && |d| == HEADER_SIZE + |p.payload| && d[HEADER_SIZE..] == p.payload
            && PacketType(d) == 0x60 && PacketSeq(d) == p.seqno && PacketTimestamp(d) == p.timestamp
  {
    AudioHeader(p.seqno, p.timestamp, ssrc, p.first, p.payload);
  }

  /** Trimming depends on the queue alone: backlogs with the same keys keep the same keys, and kept entries stay. */
  lemma {:induction false} TrimTracks<P, Q>(b: map<u16, P>, c: map<u16, Q>, queue: seq<u16>)
    requires b.Keys == c.Keys
    ensures Trim(b, queue).1 == Trim(c, queue).1 && Trim(b, queue).0.Keys == Trim(c, queue).0.Keys
    ensures forall k <- Trim(b, queue).0 :: k in b && Trim(b, queue).0[k] == b[k]
    ensures forall k <- Trim(c, queue).0 :: k in c && Trim(c, queue).0[k] == c[k]
    decreases |queue|
  {
    if |queue| <= BACKLOG_SIZE {
    } else {
      TrimTracks(b - {queue[0]}, c - {queue[0]}, queue[1..]);
    }
  }

  lemma RememberTracks<P, Q>(b: map<u16, P>, c: map<u16, Q>, queue: seq<u16>, seqno: u16, p: P, q: Q)
    requires b.Keys == c.Keys
    ensures var b', c' := Remember(b, queue, seqno, p), Remember(c, queue, seqno, q);
            && b'.1 == c'.1 && b'.0.Keys == c'.0.Keys
            && (forall k <- b'.0 :: b'.0[k] == (if k == seqno then p else if k in b then b[k] else p))
            && (forall k <- c'.0 :: c'.0[k] == (if k == seqno then q else if k in c then c[k] else q))
            && (forall k <- b'.0 :: k == seqno || k in b)
  {
    TrimTracks(b[seqno := p], c[seqno := q], if seqno in b then queue else queue + [seqno]);
  }
}
