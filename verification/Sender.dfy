/**
 The RAOP sender (internal/raop/sender.go) with its fields updated in place. Every critical section is one method;
 the streaming loop gives way to other goroutines between them by calling Interfere, which may pause, resume,
 re-anchor and request flushes any number of times. Clock readings, stop signals, socket failures and RTSP results
 are arbitrary. Valid() says that the object is in the state of a legal run of the step machine, so every theorem
 about runs is a theorem about the sender.
 */
module Sender {
  import opened Words
  import opened NtpClock
  import opened Protocol
  import opened StreamMachine
  import opened PcmSource
  import opened Backlog
  import opened Retransmission
  import opened PauseGate
  import Pacing
  import SyncSkew

  /**
   How Stream ends: source exhausted (and the drain completed, or given up on a socket error), stopped or cancelled,
   source error, or socket error.
   */
  datatype Outcome = Finished(drained: bool) | Stopped | ReadFailed | SendFailed

  /** How one round of the loop ends: go on, last packet sent, nothing left to send, or leave the loop. */
  datatype RoundResult = Continue | LastSent | Exhausted | Halted(outcome: Outcome)

  datatype DrainOutcome = Drained | WriteFailed | Cancelled

  const DRAIN_PACKETS := 188

  // ---- The parts of the invariant, each closed until it is asked for ----

  datatype Part = TheObject | TheFields | TheWire | TheBacklog | TheSyncs | TheGate

  /** Asks for one part of a sender's invariant. */
  ghost predicate Open(part: Part) { true }

  /** What went out on the audio socket: the datagrams of the packets, each packet with a whole payload. */
  ghost predicate WireIs(out: seq<Bytes>, wire: seq<Packet>, ssrc: u32, packetSize: int) {
    forall p: Part {:trigger Open(p)} :: p == TheWire && Open(p) ==>
      && |out| == |wire|
      && (forall k {:trigger Encode(wire[k], ssrc)} :: 0 <= k < |out| ==> out[k] == Encode(wire[k], ssrc))
      && (forall k :: 0 <= k < |wire| ==> |wire[k].payload| == packetSize)
  }

  lemma WireGains(out: seq<Bytes>, wire: seq<Packet>, ssrc: u32, packetSize: int, p: Packet)
    requires WireIs(out, wire, ssrc, packetSize) && |p.payload| == packetSize
    ensures WireIs(out + [Encode(p, ssrc)], wire + [p], ssrc, packetSize)
  {
    assert Open(TheWire);
  }

  /** What is kept for retransmission: the datagrams of the packets remembered. */
  ghost predicate BacklogIs(kept: map<u16, Bytes>, backlog: map<u16, Packet>, ssrc: u32) {
    forall p: Part {:trigger Open(p)} :: p == TheBacklog && Open(p) ==>
      && kept.Keys == backlog.Keys
      && forall k {:trigger Encode(backlog[k], ssrc)} :: k in kept ==> kept[k] == Encode(backlog[k], ssrc)
  }

  lemma BacklogGains(kept: map<u16, Bytes>, backlog: map<u16, Packet>, ssrc: u32, queue: seq<u16>, seqno: u16, p: Packet)
    requires BacklogIs(kept, backlog, ssrc)
    ensures var k, b := Remember(kept, queue, seqno, Encode(p, ssrc)), Remember(backlog, queue, seqno, p);
            BacklogIs(k.0, b.0, ssrc) && k.1 == b.1
  {
    assert Open(TheBacklog);
    RememberTracks(kept, backlog, queue, seqno, Encode(p, ssrc), p);
  }

  /** What went out on the control socket: the sync datagrams of the points of the timeline. */
  ghost predicate SyncsAre(out: seq<Bytes>, syncs: seq<SyncPoint>, rate: int)
    requires rate > 0
  {
    forall p: Part {:trigger Open(p)} :: p == TheSyncs && Open(p) ==>
      && |out| == |syncs|
      && forall k {:trigger SyncSkew.SyncDatagram(syncs[k], rate)} ::
           0 <= k < |out| ==> out[k] == SyncSkew.SyncDatagram(syncs[k], rate)
  }

  lemma SyncsGain(out: seq<Bytes>, syncs: seq<SyncPoint>, rate: int, p: SyncPoint)
    requires rate > 0 && SyncsAre(out, syncs, rate)
    ensures SyncsAre(out + [SyncSkew.SyncDatagram(p, rate)], syncs + [p], rate)
  {
    assert Open(TheSyncs);
  }

  ghost predicate GateIs(g: Gate) {
    forall p: Part {:trigger Open(p)} :: p == TheGate && Open(p) ==> Sound(g)
  }

  lemma GateMoves(g: Gate, e: GateEvent)
    requires GateIs(g)
    ensures GateIs(Apply(g, e)) && ClosesOpenChannel(g, e)
  {
    assert Open(TheGate);
    StepSound(g, e);
  }

  lemma GateFacts(g: Gate)
    requires GateIs(g)
    ensures (g.paused <==> g.pauseCh in g.closed) && (g.paused ==> g.resumeCh !in g.closed)
  {
    assert Open(TheGate);
  }

  /** The sender's fields, apart from the gate, as one value. */
  datatype Fields = Fields(
    seqno: u16, headTS: u32, startTS: u32, framesSent: u64, anchorWall: Option<int>, anchorFrames: u64, clock: int,
    audioOut: seq<Bytes>, syncOut: seq<Bytes>, kept: map<u16, Bytes>, queue: seq<u16>)

  ghost predicate CountersAre(f: Fields, c: Core) {
    && f.seqno == c.seqno && f.headTS == c.headTS && f.startTS == c.startTS && f.framesSent == c.framesSent
    && f.anchorFrames == c.anchorFrames && f.clock >= c.now
    && (c.phase != Idle ==> f.anchorWall == Some(c.anchorWall))
  }

  /** Counters, sockets and backlog are those of the machine's state. */
  ghost predicate Tracks(f: Fields, c: Core, format: AudioFormat, ssrc: u32)
    requires format.Valid()
  {
    forall p: Part {:trigger Open(p)} :: p == TheFields && Open(p) ==>
      && c.rate == format.sampleRate && CountersAre(f, c)
      && WireIs(f.audioOut, c.wire, ssrc, format.PacketSize())
      && BacklogIs(f.kept, c.backlog, ssrc) && f.queue == c.backlogQ
      && SyncsAre(f.syncOut, c.syncs, format.sampleRate)
  }

  // ---- One step each, on values ----

  function Timed(f: Fields, now: int): Fields { f.(clock := now) }

  function Stamped(f: Fields, ts: u32): Fields { f.(startTS := ts, headTS := ts) }

  function Anchored(f: Fields, now: int): Fields { f.(anchorWall := Some(now), anchorFrames := f.framesSent) }

  function Played(f: Fields, datagram: Bytes): Fields { f.(audioOut := f.audioOut + [datagram]) }

  function Stored(f: Fields, packet: Bytes): Fields {
    var (kept, queue) := Remember(f.kept, f.queue, f.seqno, packet);
    f.(kept := kept, queue := queue)
  }

  function Counted(f: Fields): Fields {
    f.(seqno := W16(f.seqno + 1), headTS := W32(f.headTS + FRAMES_PER_PACKET),
       framesSent := W64(f.framesSent + FRAMES_PER_PACKET))
  }

  /** The packet and the sync point that the fields give. */
  function NextPacket(f: Fields, first: bool, payload: Bytes): Packet {
    Packet(f.seqno, W32(f.headTS - f.startTS + LATENCY_FRAMES), first, payload)
  }

  function NextSync(f: Fields, rate: int): Bytes
    requires rate > 0
  {
    SyncSkew.SyncDatagram(SyncPoint(f.headTS, W32(f.headTS - f.startTS + LATENCY_FRAMES)), rate)
  }

  function Told(f: Fields, datagram: Bytes): Fields { f.(syncOut := f.syncOut + [datagram]) }

  lemma TimeTracks(f: Fields, c: Core, format: AudioFormat, ssrc: u32, clock: int)
    requires format.Valid() && Tracks(f, c, format, ssrc) && clock >= f.clock
    ensures Tracks(Timed(f, clock), c, format, ssrc)
  {
    assert Open(TheFields);
  }

  lemma ReanchorTracks(f: Fields, c: Core, format: AudioFormat, ssrc: u32, ts: u32, seconds: int, nanos: nat)
    requires format.Valid() && Tracks(f, c, format, ssrc) && IsStamp(ts, seconds, nanos, format.sampleRate)
    ensures Enabled(c, Reanchored(ts, seconds, nanos))
    ensures Tracks(Stamped(f, ts), Step(c, Reanchored(ts, seconds, nanos)), format, ssrc)
  {
    assert Open(TheFields);
  }

  lemma RebaseTracks(f: Fields, c: Core, format: AudioFormat, ssrc: u32, e: Event)
    requires format.Valid() && Tracks(f, c, format, ssrc) && (e.Rebased? || e.DrainStarted?) && e.at == f.clock
    requires if e.Rebased? then c.phase == Idle || c.phase == Ready
             else (c.phase == Ready || c.phase == Owing) && !c.draining
    ensures Enabled(c, e) && f.framesSent == c.framesSent
    ensures Tracks(Anchored(f, e.at), Step(c, e), format, ssrc)
  {
    assert Open(TheFields);
  }

  lemma SendTracks(f: Fields, c: Core, format: AudioFormat, ssrc: u32, payload: Bytes, first: bool)
    requires format.Valid() && Tracks(f, c, format, ssrc) && c.phase == Ready && |payload| == format.PacketSize()
    ensures Step(c, Built(payload, first)).wire == c.wire + [NextPacket(f, first, payload)]
    ensures Tracks(Played(f, Encode(NextPacket(f, first, payload), ssrc)), Step(c, Built(payload, first)), format, ssrc)
  {
    assert Open(TheFields);
    WireGains(f.audioOut, c.wire, ssrc, format.PacketSize(), Packet(c.seqno, RtpTime(c), first, payload));
  }

  lemma KeepTracks(f: Fields, c: Core, format: AudioFormat, ssrc: u32)
    requires format.Valid() && Tracks(f, c, format, ssrc) && Enabled(c, Remembered)
    ensures Tracks(Stored(f, Encode(c.wire[|c.wire| - 1], ssrc)), Step(c, Remembered), format, ssrc)
  {
    assert Open(TheFields);
    BacklogGains(f.kept, c.backlog, ssrc, f.queue, f.seqno, c.wire[|c.wire| - 1]);
  }

  lemma AdvanceTracks(f: Fields, c: Core, format: AudioFormat, ssrc: u32)
    requires format.Valid() && Tracks(f, c, format, ssrc) && Enabled(c, Advanced)
    ensures Tracks(Counted(f), Step(c, Advanced), format, ssrc)
  {
    assert Open(TheFields);
  }

  lemma SyncTracks(f: Fields, c: Core, format: AudioFormat, ssrc: u32)
    requires format.Valid() && Tracks(f, c, format, ssrc) && c.phase == Owing
    ensures Tracks(Told(f, NextSync(f, format.sampleRate)), Step(c, Synced), format, ssrc)
  {
    assert Open(TheFields);
    SyncsGain(f.syncOut, c.syncs, format.sampleRate, SyncPoint(c.headTS, RtpTime(c)));
  }

  lemma WaitTracks(f: Fields, c: Core, format: AudioFormat, ssrc: u32)
    requires format.Valid() && Tracks(f, c, format, ssrc) && c.phase == Owing
    ensures c.rate == format.sampleRate && f.clock >= c.now && f.anchorWall.Some?
    ensures f.anchorWall.value + Pacing.PacingOffset(W64(f.framesSent - f.anchorFrames), c.rate) == Pacing.PacingTarget(c)
    ensures forall at {:trigger Waited(at, Pacing.PacingTarget(c))} :: at >= f.clock && at >= Pacing.PacingTarget(c) ==>
              Tracks(Timed(f, at), Step(c, Waited(at, Pacing.PacingTarget(c))), format, ssrc)
  {
    assert Open(TheFields);
  }

  ghost predicate OnlyReanchors(acts: Trace) {
    forall e <- acts :: e.Reanchored?
  }

  class RaopSender {
    const format: AudioFormat
    const ssrc: u32

    var seqno: u16
    var headTS: u32
    var startTS: u32
    var framesSent: u64

    var anchorWall: Option<int>
    var anchorFrames: u64

    const backlog: Store

    var paused: bool
    var pauseCh: Chan
    var resumeCh: Chan
    var closedChans: set<Chan>
    var chansMade: nat

    var flushRequested: bool

    /** The monotonic clock's latest reading, and what was written to the two sockets. */
    var clock: int
    var audioOut: seq<Bytes>
    var syncOut: seq<Bytes>

    ghost const origin: Core
    ghost var trace: Trace
    ghost var core: Core

    ghost function CurrentGate(): Gate
      reads this`paused, this`pauseCh, this`resumeCh, this`closedChans, this`chansMade
    {
      Gate(paused, pauseCh, resumeCh, closedChans, chansMade)
    }

    ghost function Current(): Fields
      reads this`seqno, this`headTS, this`startTS, this`framesSent, this`anchorWall, this`anchorFrames, this`clock
      reads this`audioOut, this`syncOut, backlog
    {
      Fields(seqno, headTS, startTS, framesSent, anchorWall, anchorFrames, clock, audioOut, syncOut,
             backlog.kept, backlog.queue)
    }

    /**
     The fields are those of the state that a legal run has reached. Methods that only compose critical sections pass
     this on unopened, which keeps their proofs small.
     */
    ghost predicate Valid()
      reads this, backlog, backlog.packets.Values
    {
      format.Valid() && forall p: Part {:trigger Open(p)} :: p == TheObject && Open(p) ==>
        && GateIs(CurrentGate()) && backlog.Untouched()
        && Pacing.Reached(origin, trace, core) && Tracks(Current(), core, format, ssrc)
    }

    /** Dial: the clocks start at the current wall-clock time, read twice: first the seconds, then the nanoseconds. */
    constructor (format: AudioFormat, ssrc: u32, unixSeconds: int, unixNanos: nat)
      requires format.Valid() && unixNanos < NANOS
      ensures Valid() && trace == [] && core.phase == Idle && CurrentGate() == OPEN
      ensures core.wire == [] && !core.draining
      ensures startTS == headTS == NTPToRTP(NTPNow(unixSeconds, unixNanos), format.sampleRate) == origin.headTS
      ensures audioOut == [] && syncOut == [] && backlog.packets == map[] && fresh(backlog) && seqno == 0 && framesSent == 0
    {
      this.format, this.ssrc := format, ssrc;
      var ts := NTPToRTP(NTPNow(unixSeconds, unixNanos), format.sampleRate);
      seqno, headTS, startTS, framesSent := 0, ts, ts, 0;
      anchorWall, anchorFrames := None, 0;
      backlog := new Store();
      paused, pauseCh, resumeCh, closedChans, chansMade := false, 0, 1, {}, 2;
      flushRequested := false;
      clock, audioOut, syncOut := 0, [], [];
      origin := Core(format.sampleRate, 0, ts, ts, 0, map[], [], 0, 0, 0, [], [], Idle, false);
      core := Core(format.sampleRate, 0, ts, ts, 0, map[], [], 0, 0, 0, [], [], Idle, false);
      trace := [];
      new;
      Pacing.StartReached(origin);
    }

    /** Writes one step into the history. */
    ghost method Record(e: Event)
      requires Pacing.Reached(origin, trace, core) && Enabled(core, e)
      requires e.Waited? ==> core.rate > 0 && e.target == Pacing.PacingTarget(core)
      modifies this`core, this`trace
      ensures Pacing.Reached(origin, trace, core) && core == Step(old(core), e) && trace == old(trace) + [e]
    {
      Pacing.ExtendReached(origin, trace, core, e);
      trace, core := trace + [e], Step(core, e);
    }

    // ---- The fields, written one group at a time ----

    method Tick(now: int)
      modifies this`clock
      ensures Current() == Timed(old(Current()), now)
    {
      clock := now;
    }

    method SetStamps(ts: u32)
      modifies this`headTS, this`startTS
      ensures Current() == Stamped(old(Current()), ts) && startTS == headTS == ts
    {
      startTS := ts;
      headTS := ts;
    }

    method SetAnchor(now: int)
      modifies this`anchorWall, this`anchorFrames
      ensures Current() == Anchored(old(Current()), now)
    {
      anchorWall := Some(now);
      anchorFrames := framesSent;
    }

    method PutAudio(datagram: Bytes)
      modifies this`audioOut
      ensures Current() == Played(old(Current()), datagram)
    {
      audioOut := audioOut + [datagram];
    }

    method PutSync(datagram: Bytes)
      modifies this`syncOut
      ensures Current() == Told(old(Current()), datagram)
    {
      syncOut := syncOut + [datagram];
    }

    method Store(packet: array<byte>)
      requires backlog.Untouched()
      modifies backlog
      ensures Current() == Stored(old(Current()), packet[..])
      ensures backlog.Untouched() && backlog.packets.Values <= old(backlog.packets.Values) + {packet}
    {
      backlog.RememberPacket(seqno, packet);
    }

    /** seqno++, headTS += 352, framesSent += 352. */
    method Count()
      modifies this`seqno, this`headTS, this`framesSent
      ensures Current() == Counted(old(Current()))
    {
      seqno := W16(seqno + 1);
      headTS := W32(headTS + FRAMES_PER_PACKET);
      framesSent := W64(framesSent + FRAMES_PER_PACKET);
    }

    /** close(ch) panics on a closed channel; no caller ever does that. */
    method CloseChannel(ch: Chan)
      requires ch !in closedChans
      modifies this`closedChans
      ensures closedChans == old(closedChans) + {ch}
    {
      closedChans := closedChans + {ch};
    }

    method MakeChannel() returns (ch: Chan)
      modifies this`chansMade
      ensures ch == old(chansMade) && chansMade == ch + 1
    {
      ch := chansMade;
      chansMade := chansMade + 1;
    }

    method ShutGate()
      requires ClosesOpenChannel(CurrentGate(), Paused)
      modifies this`paused, this`pauseCh, this`resumeCh, this`closedChans, this`chansMade
      ensures CurrentGate() == OnPause(old(CurrentGate()))
    {
      if !paused {
        paused := true;
        CloseChannel(pauseCh);
        resumeCh := MakeChannel();
      }
    }

    method LiftGate()
      requires ClosesOpenChannel(CurrentGate(), Resumed)
      modifies this`paused, this`pauseCh, this`resumeCh, this`closedChans, this`chansMade
      ensures CurrentGate() == OnResume(old(CurrentGate()))
    {
      if paused {
        paused := false;
        CloseChannel(resumeCh);
        pauseCh := MakeChannel();
      }
    }

    // ---- Critical sections other goroutines may enter ----

    method Now() returns (t: int)
      requires Valid()
      modifies this`clock
      ensures Valid() && t == clock >= old(clock)
    {
      assert Open(TheObject);
      t := *;
      if t < clock {
        t := clock;
      }
      TimeTracks(Current(), core, format, ssrc, t);
      Tick(t);
    }

    /** Both time stamps are set to the wall clock, whose reading is handed back. */
    method Reanchor() returns (seconds: int, nanos: nat)
      requires Valid()
      modifies this`headTS, this`startTS, this`core, this`trace
      ensures Valid() && nanos < NANOS && Enabled(old(core), Reanchored(startTS, seconds, nanos))
      ensures trace == old(trace) + [Reanchored(startTS, seconds, nanos)]
      ensures core == Step(old(core), Reanchored(startTS, seconds, nanos))
      ensures startTS == headTS == NTPToRTP(NTPNow(seconds, nanos), format.sampleRate)
    {
      assert Open(TheObject);
      seconds := *;
      var fraction: int := *;
      nanos := fraction % NANOS;
      var ts := NTPToRTP(NTPNow(seconds, nanos), format.sampleRate);
      StampOf(seconds, nanos, format.sampleRate);
      ReanchorTracks(Current(), core, format, ssrc, ts, seconds, nanos);
      SetStamps(ts);
      Record(Reanchored(ts, seconds, nanos));
    }

    method Pause()
      requires Valid()
      modifies this`paused, this`pauseCh, this`resumeCh, this`closedChans, this`chansMade
      ensures Valid() && CurrentGate() == OnPause(old(CurrentGate()))
    {
      assert Open(TheObject);
      GateMoves(CurrentGate(), Paused);
      ShutGate();
    }

    /** The first critical section of Resume; Reanchor is the second. */
    method OpenGate()
      requires Valid()
      modifies this`paused, this`pauseCh, this`resumeCh, this`closedChans, this`chansMade
      ensures Valid() && CurrentGate() == OnResume(old(CurrentGate()))
    {
      assert Open(TheObject);
      GateMoves(CurrentGate(), Resumed);
      LiftGate();
    }

    method Resume() returns (seconds: int, nanos: nat)
      requires Valid()
      modifies this`paused, this`pauseCh, this`resumeCh, this`closedChans, this`chansMade
      modifies this`headTS, this`startTS, this`core, this`trace
      ensures Valid() && CurrentGate() == OnResume(old(CurrentGate()))
      ensures nanos < NANOS && Enabled(old(core), Reanchored(startTS, seconds, nanos))
      ensures trace == old(trace) + [Reanchored(startTS, seconds, nanos)]
      ensures core == Step(old(core), Reanchored(startTS, seconds, nanos))
      ensures startTS == headTS == NTPToRTP(NTPNow(seconds, nanos), format.sampleRate)
    {
      OpenGate();
      seconds, nanos := Reanchor();
    }

    method RequestFlush()
      modifies this`flushRequested
      ensures flushRequested
    {
      flushRequested := true;
    }

    method TakeFlushRequest() returns (requested: bool)
      modifies this`flushRequested
      ensures requested == old(flushRequested) && !flushRequested
    {
      requested := flushRequested;
      flushRequested := false;
    }

    method PauseChannels() returns (p: Chan, r: Chan)
      ensures p == pauseCh && r == resumeCh
    {
      p, r := pauseCh, resumeCh;
    }

    /** One critical section of another goroutine, or just time passing. */
    method InterfereOnce()
      requires Valid()
      modifies this`paused, this`pauseCh, this`resumeCh, this`closedChans, this`chansMade
      modifies this`headTS, this`startTS, this`core, this`trace, this`flushRequested, this`clock
      ensures Valid() && clock >= old(clock)
      ensures old(trace) <= trace && OnlyReanchors(trace[|old(trace)|..])
      ensures core == old(core).(headTS := core.headTS, startTS := core.startTS)
      ensures old(closedChans) <= closedChans && (old(flushRequested) ==> flushRequested)
    {
      var choice: int := *;
      if choice == 0 {
        Pause();
      } else if choice == 1 {
        OpenGate();
      } else if choice == 2 {
        var _, _ := Reanchor();
      } else if choice == 3 {
        RequestFlush();
      } else {
        var _ := Now();
      }
    }

    /** Other goroutines run: any number of their critical sections, in any order, and time passes. */
    method Interfere()
      requires Valid()
      modifies this`paused, this`pauseCh, this`resumeCh, this`closedChans, this`chansMade
      modifies this`headTS, this`startTS, this`core, this`trace, this`flushRequested, this`clock
      ensures Valid() && clock >= old(clock)
      ensures old(trace) <= trace && OnlyReanchors(trace[|old(trace)|..])
      ensures core == old(core).(headTS := core.headTS, startTS := core.startTS)
      ensures old(closedChans) <= closedChans && (old(flushRequested) ==> flushRequested)
    {
      var rounds: int := *;
      while rounds > 0
        invariant Valid() && clock >= old(clock)
        invariant old(trace) <= trace && OnlyReanchors(trace[|old(trace)|..])
        invariant core == old(core).(headTS := core.headTS, startTS := core.startTS)
        invariant old(closedChans) <= closedChans && (old(flushRequested) ==> flushRequested)
      {
        InterfereOnce();
        rounds := rounds - 1;
      }
    }

    // ---- Critical sections of the streaming loop ----

    method RebasePacing()
      requires Valid() && (core.phase == Idle || core.phase == Ready)
      modifies this`anchorWall, this`anchorFrames, this`clock, this`core, this`trace
      ensures clock >= old(clock)
      ensures Valid() && trace == old(trace) + [Rebased(clock)]
      ensures core == old(core).(anchorWall := clock, anchorFrames := framesSent, now := clock, phase := Ready)
    {
      var now := Now();
      assert Open(TheObject);
      RebaseTracks(Current(), core, format, ssrc, Rebased(now));
      SetAnchor(now);
      Record(Rebased(now));
    }

    method StartDrain()
      requires Valid() && (core.phase == Ready || core.phase == Owing) && !core.draining
      modifies this`anchorWall, this`anchorFrames, this`clock, this`core, this`trace
      ensures clock >= old(clock)
      ensures Valid() && trace == old(trace) + [DrainStarted(clock)]
      ensures core == old(core).(anchorWall := clock, anchorFrames := framesSent, now := clock, phase := Ready,
                                 draining := true)
    {
      var now := Now();
      assert Open(TheObject);
      RebaseTracks(Current(), core, format, ssrc, DrainStarted(now));
      SetAnchor(now);
      Record(DrainStarted(now));
    }

    method BuildAudioPacket(payload: array<byte>, first: bool) returns (packet: array<byte>)
      ensures fresh(packet) && packet[..] == Encode(NextPacket(Current(), first, payload[..]), ssrc)
    {
      var timestamp := W32(headTS - startTS + LATENCY_FRAMES);
      packet := AudioPacket(seqno, timestamp, ssrc, first, payload);
    }

    /** A packet is built and handed to the socket: a failed write leaves no trace. */
    method SendPacket(payload: array<byte>, first: bool) returns (packet: array<byte>, sent: bool)
      requires Valid() && core.phase == Ready && payload !in backlog.packets.Values
      requires payload.Length == format.PacketSize()
      modifies this`audioOut, this`core, this`trace
      ensures Valid() && fresh(packet)
      ensures sent ==> core == Step(old(core), Built(payload[..], first)) && trace == old(trace) + [Built(payload[..], first)]
      ensures sent ==> packet[..] == Encode(core.wire[|core.wire| - 1], ssrc)
      ensures !sent ==> core == old(core) && trace == old(trace)
    {
      packet := BuildAudioPacket(payload, first);
      sent := *;
      if sent {
        assert Open(TheObject);
        SendTracks(Current(), core, format, ssrc, payload[..], first);
        PutAudio(packet[..]);
        Record(Built(payload[..], first));
      }
    }

    method RememberPacket(packet: array<byte>)
      requires Valid() && Enabled(core, Remembered)
      requires packet[..] == Encode(core.wire[|core.wire| - 1], ssrc)
      modifies backlog, this`core, this`trace
      ensures Valid() && core == Step(old(core), Remembered) && trace == old(trace) + [Remembered]
      ensures backlog.packets.Values <= old(backlog.packets.Values) + {packet}
    {
      assert Open(TheObject);
      KeepTracks(Current(), core, format, ssrc);
      Store(packet);
      Record(Remembered);
    }

    /** The three counters move in one critical section. */
    method Advance()
      requires Valid() && Enabled(core, Advanced)
      modifies this`seqno, this`headTS, this`framesSent, this`core, this`trace
      ensures Valid() && core == Step(old(core), Advanced) && trace == old(trace) + [Advanced]
    {
      assert Open(TheObject);
      AdvanceTracks(Current(), core, format, ssrc);
      Count();
      Record(Advanced);
    }

    method EncodeSync() returns (datagram: Bytes)
      requires format.sampleRate > 0
      ensures datagram == NextSync(Current(), format.sampleRate)
    {
      var rtp := W32(headTS - startTS + LATENCY_FRAMES);
      var parts := NTPParts(RTPToNTP(headTS, format.sampleRate));
      var packet := SyncPacket(true, W32(rtp - LATENCY_FRAMES), parts.0, parts.1, rtp);
      datagram := packet[..];
    }

    /** One sync packet handed to the control socket; what becomes of the write is ignored. */
    method SendSync()
      requires Valid() && core.phase == Owing
      modifies this`syncOut, this`core, this`trace
      ensures Valid() && core == Step(old(core), Synced) && trace == old(trace) + [Synced]
    {
      assert Open(TheObject);
      var datagram := EncodeSync();
      SyncTracks(Current(), core, format, ssrc);
      PutSync(datagram);
      Record(Synced);
    }

    /** Waits for the packet's time slot unless it has passed already. */
    method AwaitSlot()
      requires Valid() && core.phase == Owing
      modifies this`clock, this`core, this`trace
      ensures Valid() && core == old(core).(now := clock, phase := Ready)
      ensures clock >= old(clock) && old(core).rate > 0 && clock >= Pacing.PacingTarget(old(core))
      ensures trace == old(trace) + [Waited(clock, Pacing.PacingTarget(old(core)))]
    {
      assert Open(TheObject);
      WaitTracks(Current(), core, format, ssrc);
      var delivered := W64(framesSent - anchorFrames);
      var target := anchorWall.value
        + TruncDiv(S64(S64(delivered) * NANOS), format.sampleRate);
      var at: int := *;
      if at < clock {
        at := clock;
      }
      if at < target {
        at := target;
      }
      Tick(at);
      Record(Waited(at, target));
    }

    // ---- The streaming loop ----

    /** The send half of one round: datagram, backlog entry, counters. */
    method DeliverPacket(payload: array<byte>, first: bool) returns (sent: bool)
      requires Valid() && core.phase == Ready && !core.draining && payload !in backlog.packets.Values
      requires payload.Length == format.PacketSize()
      modifies this, backlog
      ensures Valid() && !core.draining && payload !in backlog.packets.Values
      ensures sent ==> core.phase == Owing && Appended(old(core.wire), core.wire, payload[..], first)
      ensures !sent ==> core.wire == old(core.wire)
      ensures old(closedChans) <= closedChans && clock >= old(clock)
    {
      var packet;
      packet, sent := SendPacket(payload, first);
      if sent {
        Interfere();
        RememberPacket(packet);
        Interfere();
        Advance();
        Interfere();
      }
    }

    /** The send half of one round of draining: nothing is remembered. */
    method DeliverSilence(silence: array<byte>) returns (sent: bool)
      requires Valid() && core.phase == Ready && core.draining && silence !in backlog.packets.Values
      requires silence.Length == format.PacketSize()
      modifies this
      ensures Valid() && core.draining
      ensures sent ==> core.phase == Owing && Appended(old(core.wire), core.wire, silence[..], false)
      ensures !sent ==> core.wire == old(core.wire)
    {
      var packet;
      packet, sent := SendPacket(silence, false);
      if sent {
        Interfere();
        Advance();
        Interfere();
      }
    }

    /** Waits on a resume channel until it is closed or the session stops. */
    method Park(resume: Chan) returns (woke: bool)
      requires Valid()
      modifies this`paused, this`pauseCh, this`resumeCh, this`closedChans, this`chansMade
      modifies this`headTS, this`startTS, this`core, this`trace, this`flushRequested, this`clock
      ensures Valid() && clock >= old(clock)
      ensures core == old(core).(headTS := core.headTS, startTS := core.startTS)
      ensures woke ==> resume in closedChans
      ensures old(trace) <= trace && OnlyReanchors(trace[|old(trace)|..])
    {
      Interfere();
      woke := *;
      if resume !in closedChans {
        woke := false;
      }
    }

    lemma GateIsSound()
      requires Valid()
      ensures (paused <==> pauseCh in closedChans) && (paused ==> resumeCh !in closedChans)
    {
      assert Open(TheObject);
      GateFacts(CurrentGate());
    }

    /** Waits on the resume channel; once woken, the pacing and the sync interval start over. */
    method ParkUntil(resume: Chan, nextSync: int) returns (go: bool, next: int)
      requires Valid() && core.phase == Ready
      modifies this
      ensures Valid() && core.phase == Ready && SameStream(old(core), core) && old(trace) <= trace
      ensures go ==> resume in closedChans && trace != [] && Last(trace).Rebased? && next == clock + NANOS
      ensures clock >= old(clock) && (!go ==> next == nextSync)
    {
      next := nextSync;
      go := Park(resume);
      if go {
        RebasePacing();
        var now := Now();
        next := now + NANOS;
      }
    }

    /**
     Parks while paused; `go` is false when the session was stopped meanwhile. A loop that finds the sender paused
     parks, goes on only after a Resume, and then with a fresh pacing anchor and a fresh sync interval; a loop that
     does not park leaves both alone.
     */
    method HonourPause(nextSync: int) returns (go: bool, next: int, ghost parked: bool)
      requires Valid() && core.phase == Ready
      modifies this
      ensures Valid() && core.phase == Ready && SameStream(old(core), core)
      ensures old(paused) ==> parked
      ensures old(paused) && go ==> old(resumeCh) !in old(closedChans) && old(resumeCh) in closedChans
      ensures parked && go ==> trace != [] && Last(trace).Rebased? && next == clock + NANOS
      ensures clock >= old(clock) && (!go ==> next == nextSync)
      ensures !parked ==> go && next == nextSync && core.anchorWall == old(core.anchorWall)
      ensures old(trace) <= trace && (!parked ==> OnlyReanchors(trace[|old(trace)|..]))
    {
      GateIsSound();
      var pausedCh, resumedCh := PauseChannels();
      Interfere();
      go, next := true, nextSync;
      parked := pausedCh in closedChans;
      if pausedCh in closedChans {
        go, next := ParkUntil(resumedCh, nextSync);
      }
    }

    /**
     Emits a requested flush: the pacing starts over in any case, and the timeline is re-anchored if the receiver
     accepted the FLUSH.
     */
    method HonourFlush() returns (ghost flushed: bool, ghost accepted: bool)
      requires Valid() && core.phase == Ready
      modifies this
      ensures Valid() && core.phase == Ready && SameStream(old(core), core)
      ensures old(trace) <= trace && (old(flushRequested) ==> flushed)
      ensures if flushed then FlushedIn(trace[|old(trace)|..], accepted) else OnlyReanchors(trace[|old(trace)|..])
      ensures old(closedChans) <= closedChans && clock >= old(clock)
    {
      Interfere();
      ghost var t1 := trace;
      var requested := TakeFlushRequest();
      flushed, accepted := requested, false;
      if requested {
        accepted := EmitFlush();
      }
      ghost var t2 := trace;
      Interfere();
      if flushed {
        FlushedAmid(t1[|old(trace)|..], t2[|t1|..], trace[|t2|..], accepted);
        assert trace[|old(trace)|..] == t1[|old(trace)|..] + t2[|t1|..] + trace[|t2|..];
      }
    }

    /** Flush's exchange with the receiver, and what the loop does about it. */
    method EmitFlush() returns (accepted: bool)
      requires Valid() && core.phase == Ready
      modifies this
      ensures Valid() && core.phase == Ready && SameStream(old(core), core)
      ensures old(trace) <= trace && FlushedIn(trace[|old(trace)|..], accepted) && old(closedChans) <= closedChans
      ensures clock >= old(clock)
    {
      Interfere();
      accepted := *;
      ghost var before := trace;
      if accepted {
        var _, _ := Reanchor();
      }
      RebasePacing();
      ghost var mine := trace[|old(trace)|..];
      assert accepted ==> mine[|mine| - 2] == trace[|trace| - 2];
      assert mine[|mine| - 1] == trace[|trace| - 1];
    }

    /** Sends a sync packet iff the interval has passed, and then starts the next one: one second from now, no more. */
    method SyncIfDue(nextSync: int) returns (next: int)
      requires Valid() && core.phase == Owing
      modifies this
      ensures Valid() && core.phase == Owing && SameStream(old(core), core)
      ensures if next == nextSync then core.syncs == old(core.syncs) && old(clock) <= nextSync
              else |core.syncs| == |old(core.syncs)| + 1 && next >= old(clock) + NANOS && next > nextSync + NANOS
      ensures next == nextSync || next <= clock + NANOS
      ensures clock <= nextSync ==> next == nextSync && core.syncs == old(core.syncs)
      ensures old(clock) > nextSync ==> |core.syncs| == |old(core.syncs)| + 1
      ensures clock >= old(clock)
      ensures old(closedChans) <= closedChans
    {
      next := nextSync;
      var now := Now();
      if now > nextSync {
        SendSync();
        now := Now();
        next := now + NANOS;
      }
      Interfere();
    }

    /** One packet of the drain: sent and its slot awaited, or the drain is at its end. */
    method DrainOne(silence: array<byte>) returns (outcome: DrainOutcome, ghost sent: nat)
      requires Valid() && core.phase == Ready && core.draining && silence !in backlog.packets.Values
      requires silence.Length == format.PacketSize() && silence[..] == Zeros(silence.Length)
      modifies this
      ensures Valid() && core.draining && sent <= 1
      ensures SilentTail(old(core.wire), core.wire, sent, format.PacketSize())
      ensures outcome.Drained? ==> sent == 1 && core.phase == Ready
    {
      sent := 0;
      var stop: bool := *;
      if stop {
        return Cancelled, sent;
      }
      Interfere();
      var ok := DeliverSilence(silence);
      if !ok {
        return WriteFailed, sent;
      }
      sent := 1;
      stop := *;
      if stop {
        return Cancelled, sent;
      }
      AwaitSlot();
      outcome := Drained;
    }

    /** drainSilence: one latency window of silence, paced like the audio. */
    method DrainSilence() returns (outcome: DrainOutcome, ghost tail: nat)
      requires Valid() && (core.phase == Ready || core.phase == Owing) && !core.draining
      modifies this
      ensures Valid() && tail <= DRAIN_PACKETS
      ensures outcome.Drained? ==> tail == DRAIN_PACKETS
      ensures SilentTail(old(core.wire), core.wire, tail, format.PacketSize())
    {
      var packetSize := format.PacketSize();
      var silence := new byte[packetSize](_ => 0);
      assert silence[..] == Zeros(packetSize);
      var remaining: int := LATENCY_FRAMES;
      outcome, tail := Drained, 0;
      StartDrain();
      while remaining > 0 && outcome.Drained?
        invariant Valid() && core.draining && (outcome.Drained? ==> core.phase == Ready)
        invariant silence[..] == Zeros(packetSize) && silence !in backlog.packets.Values
        invariant tail <= DRAIN_PACKETS
        invariant outcome.Drained? ==> remaining == LATENCY_FRAMES - FRAMES_PER_PACKET * tail
        invariant SilentTail(old(core.wire), core.wire, tail, packetSize)
        decreases remaining
      {
        ghost var before := core.wire;
        ghost var sent;
        outcome, sent := DrainOne(silence);
        SilenceGrows(old(core.wire), before, core.wire, tail, sent, packetSize);
        remaining, tail := remaining - FRAMES_PER_PACKET, tail + sent;
      }
    }

    /** What the reader did not fill is silence. */
    method Pad(buf: array<byte>, n: nat)
      requires n <= buf.Length
      modifies buf
      ensures buf[..] == old(buf[..n]) + Zeros(buf.Length - n)
    {
      for i := n to buf.Length
        invariant buf[..n] == old(buf[..n])
        invariant forall k :: n <= k < i ==> buf[k] == 0
      {
        buf[i] := 0;
      }
    }

    /** The head of a round: a pause and a flush are honoured, the stream is left alone. */
    method BeforePacket(nextSync: int) returns (go: bool, due: int)
      requires Valid() && core.phase == Ready
      modifies this
      ensures Valid() && core.phase == Ready && SameStream(old(core), core)
      ensures old(paused) && go ==> old(resumeCh) !in old(closedChans) && old(resumeCh) in closedChans
      ensures clock >= old(clock) && (due == nextSync || due <= clock + NANOS)
    {
      ghost var parked;
      go, due, parked := HonourPause(nextSync);
      if go {
        var _, _ := HonourFlush();
      }
    }

    /**
     One round of the streaming loop: park, flush, read a packet's worth, send, sync, wait. A round that begins while
     the sender is paused sends nothing before a Resume.
     */
    method Round(r: Source, buf: array<byte>, first: bool, nextSync: int)
      returns (result: RoundResult, next: int, ghost taken: Bytes)
      requires Valid() && core.phase == Ready && !core.draining
      requires buf !in backlog.packets.Values && buf.Length == format.PacketSize()
      modifies this, backlog, r, buf
      ensures Valid() && !core.draining && buf !in backlog.packets.Values
      ensures |taken| <= buf.Length && old(r.rest) == taken + r.rest
      ensures RoundDid(result, old(core.wire), core.wire, taken, first, buf.Length)
      ensures result.Continue? ==> core.phase == Ready
      ensures result.LastSent? || result.Exhausted? ==> r.Over() && (core.phase == Ready || core.phase == Owing)
      ensures old(paused) && core.wire != old(core.wire) ==>
                old(resumeCh) !in old(closedChans) && old(resumeCh) in closedChans
      ensures clock >= old(clock) && (next == nextSync || next <= clock + NANOS)
    {
      next, taken := nextSync, [];
      var stop: bool := *;
      if stop {
        return Halted(Stopped), next, taken;
      }
      var go, due := BeforePacket(nextSync);
      if !go {
        return Halted(Stopped), next, taken;
      }
      var n, err := ReadFull(r, buf);
      taken := buf[..n];
      if err == Failure {
        return Halted(ReadFailed), next, taken;
      }
      var endOfStream := err == EOF || err == UnexpectedEOF;
      if n == 0 && endOfStream {
        return Exhausted, next, taken;
      }
      Pad(buf, n);
      var sent := DeliverPacket(buf, first);
      if !sent {
        return Halted(SendFailed), next, taken;
      }
      next := SyncIfDue(due);
      if endOfStream {
        return LastSent, next, taken;
      }
      stop := *;
      if stop {
        return Halted(Stopped), next, taken;
      }
      AwaitSlot();
      result := Continue;
    }

    /** A round, with the account of what has been consumed carried along. */
    method NextRound(r: Source, buf: array<byte>, first: bool, nextSync: int, ghost consumed: Bytes)
      returns (result: RoundResult, next: int, ghost consumed': Bytes)
      requires Valid() && core.phase == Ready && !core.draining && (first <==> core.wire == [])
      requires buf !in backlog.packets.Values && buf.Length == format.PacketSize()
      requires Streamed(Continue, core.wire, consumed, buf.Length)
      modifies this, backlog, r, buf
      ensures Valid() && !core.draining && buf !in backlog.packets.Values
      ensures Streamed(result, core.wire, consumed', buf.Length)
      ensures old(consumed + r.rest) == consumed' + r.rest
      ensures result.Continue? ==> core.phase == Ready && core.wire != [] && |r.rest| < |old(r.rest)|
      ensures clock >= old(clock) && (next == nextSync || next <= clock + NANOS)
      ensures result.LastSent? || result.Exhausted? ==> r.Over() && (core.phase == Ready || core.phase == Owing)
    {
      ghost var taken;
      result, next, taken := Round(r, buf, first, nextSync);
      RoundEffect(result, old(core.wire), core.wire, consumed, taken, buf.Length);
      consumed' := consumed + taken;
    }

    /** The loop of Stream, up to the end of the source or an early exit. */
    method StreamAudio(r: Source) returns (result: RoundResult, ghost consumed: Bytes, ghost nextDue: int)
      requires Valid() && core.phase == Idle && core.wire == [] && !core.draining
      modifies this, backlog, r
      ensures Valid() && !core.draining && old(r.rest) == consumed + r.rest
      ensures !result.Continue? && Streamed(result, core.wire, consumed, format.PacketSize())
      ensures !result.Halted? ==> r.Over() && (core.phase == Ready || core.phase == Owing)
      ensures nextDue <= clock + NANOS
    {
      var packetSize := format.PacketSize();
      var buf := new byte[packetSize];
      var first := true;
      consumed := [];
      RebasePacing();
      var now := Now();
      var nextSync := now + NANOS;
      result := Continue;
      while result.Continue?
        invariant Valid() && !core.draining && buf !in backlog.packets.Values
        invariant old(r.rest) == consumed + r.rest
        invariant result.Continue? ==> core.phase == Ready && (first <==> core.wire == [])
        invariant result.LastSent? || result.Exhausted? ==> r.Over() && (core.phase == Ready || core.phase == Owing)
        invariant Streamed(result, core.wire, consumed, packetSize)
        invariant nextSync <= clock + NANOS
        decreases result.Continue?, |r.rest|
      {
        result, nextSync, consumed := NextRound(r, buf, first, nextSync, consumed);
        first := false;
      }
      nextDue := nextSync;
    }

    /**
     Stream: everything the source hands out goes onto the wire in order, packet by packet, whatever the other
     goroutines do meanwhile. `consumed` is what was taken from the source, `audio` and `tail` count the packets of
     audio and of drained silence.
     */
    method Stream(r: Source) returns (outcome: Outcome, ghost consumed: Bytes, ghost audio: nat, ghost tail: nat)
      requires Valid() && core.phase == Idle && core.wire == [] && !core.draining
      modifies this, backlog, r
      ensures Valid() && old(r.rest) == consumed + r.rest
      ensures audio <= |core.wire| && Shaped(core.wire[..audio], format.PacketSize())
      ensures tail <= DRAIN_PACKETS && SilentTail(core.wire[..audio], core.wire, tail, format.PacketSize())
      ensures outcome.Finished? ==> r.Over() && (outcome.drained ==> tail == DRAIN_PACKETS)
      ensures outcome.Finished? || outcome.Stopped? ==> Carries(core.wire[..audio], consumed, format.PacketSize())
      ensures outcome.ReadFailed? || outcome.SendFailed? ==>
                tail == 0 && Audio(core.wire) <= consumed && |consumed| <= |Audio(core.wire)| + format.PacketSize()
    {
      var result;
      ghost var nextDue;
      result, consumed, nextDue := StreamAudio(r);
      audio, tail := |core.wire|, 0;
      assert core.wire[..audio] == core.wire;
      if result.Halted? {
        return result.outcome, consumed, audio, tail;
      }
      ghost var streamed := core.wire;
      var drain;
      drain, tail := DrainSilence();
      assert core.wire[..audio] == streamed;
      outcome := if drain == Cancelled then Stopped else Finished(drain == Drained);
    }

    // ---- Retransmission ----

    /** serveControl's answer to one control datagram. */
    method ServeControl(request: Bytes) returns (replies: seq<Bytes>)
      requires Valid()
      ensures forall k <- backlog.kept :: |backlog.kept[k]| >= 4
      ensures replies == Answer(backlog.kept, request)
    {
      assert Open(TheObject) && Open(TheFields) && Open(TheBacklog);
      forall k <- backlog.kept
        ensures |backlog.kept[k]| >= 4
      {
        DatagramFields(core.backlog[k], ssrc);
      }
      replies := [];
      if |request| < 8 || PacketType(request) != 0x55 {
        return;
      }
      var lostSeq := GetBE16(request, 4);
      var lostCount: int := GetBE16(request, 6);
      if lostCount > MAX_RETRANSMIT {
        lostCount := MAX_RETRANSMIT;
      }
      for i := 0 to lostCount
        invariant replies == Replies(backlog.kept, lostSeq, i)
      {
        var packet, ok := backlog.LookupBacklog(W16(lostSeq + i));
        if ok {
          replies := replies + [ReplyBytes(packet)];
        }
      }
    }
  }

  // ---- What a stretch of the loop did ----

  /** The pacing was re-based last of all but other goroutines' re-anchors, and right after a re-anchor if accepted. */
  ghost predicate FlushedIn(acts: Trace, accepted: bool) {
    exists k :: 0 <= k < |acts| && acts[k].Rebased? && OnlyReanchors(acts[k + 1..]) && OnlyReanchors(acts[..k])
                && (accepted ==> k > 0)
  }

  lemma FlushedAmid(a: Trace, acts: Trace, b: Trace, accepted: bool)
    requires OnlyReanchors(a) && FlushedIn(acts, accepted) && OnlyReanchors(b)
    ensures FlushedIn(a + acts + b, accepted)
  {
    var all := a + acts + b;
    var k :| 0 <= k < |acts| && acts[k].Rebased? && OnlyReanchors(acts[k + 1..]) && OnlyReanchors(acts[..k])
             && (accepted ==> k > 0);
    assert all[|a| + k] == acts[k];
    assert all[|a| + k + 1..] == acts[k + 1..] + b;
    assert all[..|a| + k] == a + acts[..k];
  }

  // ---- What a stretch of the loop did to the wire ----

  ghost predicate SameStream(c: Core, c': Core) {
    c'.wire == c.wire && c'.draining == c.draining
  }

  ghost predicate Appended(before: seq<Packet>, after: seq<Packet>, payload: Bytes, first: bool) {
    && |after| == |before| + 1 && after[..|before|] == before
    && after[|before|].payload == payload && after[|before|].first == first
  }

  /** `tail` packets of silence were added, none of them marked as first. */
  ghost predicate SilentTail(before: seq<Packet>, after: seq<Packet>, tail: nat, packetSize: nat) {
    && |after| == |before| + tail && after[..|before|] == before
    && forall k :: |before| <= k < |after| ==> after[k].payload == Zeros(packetSize) && !after[k].first
  }

  lemma SilenceGrows(a: seq<Packet>, b: seq<Packet>, c: seq<Packet>, m: nat, n: nat, packetSize: nat)
    requires SilentTail(a, b, m, packetSize) && SilentTail(b, c, n, packetSize)
    ensures SilentTail(a, c, m + n, packetSize)
  {
    assert c[..|a|] == c[..|b|][..|a|];
    assert forall k :: |a| <= k < |b| ==> c[k] == c[..|b|][k];
  }

  /** Every packet is whole, and only the very first one carries the marker bit. */
  ghost predicate Shaped(wire: seq<Packet>, packetSize: nat) {
    forall k :: 0 <= k < |wire| ==> |wire[k].payload| == packetSize && (wire[k].first <==> k == 0)
  }

  /** The packets carry exactly `bytes`, followed by less than one packet of zeros. */
  ghost predicate Carries(wire: seq<Packet>, bytes: Bytes, packetSize: nat) {
    && |bytes| <= |Audio(wire)| < |bytes| + packetSize
    && Audio(wire) == bytes + Zeros(|Audio(wire)| - |bytes|)
  }

  /** What one round put on the wire, given the bytes it took from the source. */
  ghost predicate RoundDid(
    result: RoundResult, before: seq<Packet>, after: seq<Packet>, taken: Bytes, first: bool, packetSize: nat)
  {
    match result
    case Continue => |taken| == packetSize && Appended(before, after, taken, first)
    case LastSent => 0 < |taken| <= packetSize && Appended(before, after, taken + Zeros(packetSize - |taken|), first)
    case Exhausted => taken == [] && after == before
    case Halted(outcome) =>
      && !outcome.Finished? && |taken| <= packetSize
      && (after == before || (outcome.Stopped? && |taken| == packetSize && Appended(before, after, taken, first)))
      && (outcome.Stopped? && after == before ==> taken == [])
  }

  predicate Failed(result: RoundResult) {
    result.Halted? && (result.outcome.ReadFailed? || result.outcome.SendFailed?)
  }

  /** The account of the loop after a round: everything taken is on the wire, unless the round failed. */
  ghost predicate Streamed(result: RoundResult, wire: seq<Packet>, consumed: Bytes, packetSize: nat) {
    && Shaped(wire, packetSize)
    && (result.Continue? ==> Audio(wire) == consumed)
    && (result.Halted? ==> !result.outcome.Finished?)
    && (if Failed(result) then Audio(wire) <= consumed && |consumed| <= |Audio(wire)| + packetSize
        else Carries(wire, consumed, packetSize))
  }

  lemma RoundEffect(
    result: RoundResult, before: seq<Packet>, after: seq<Packet>, had: Bytes, taken: Bytes, packetSize: nat)
    requires packetSize > 0 && Streamed(Continue, before, had, packetSize)
    requires RoundDid(result, before, after, taken, before == [], packetSize)
    ensures Streamed(result, after, had + taken, packetSize)
    ensures result.Continue? ==> after != []
  {
    if after != before {
      assert Audio(after) == Audio(before) + after[|before|].payload;
    }
  }

  /** 188 packets are the fewest that cover the latency window. */
  lemma DrainCoversLatency(packets: nat)
    ensures FRAMES_PER_PACKET * packets >= LATENCY_FRAMES <==> packets >= DRAIN_PACKETS
  {}
}
